/**
 Where the protocol of src/project-preparation-file.mjs can lose something, and
 exactly when: what other processes can do between two of the Host's calls.
 */
module ReleaseLimits {
  import opened Wrappers
  import opened ExclusionText
  import opened FileWorld
  import opened HostCalls
  import opened PreparationFile
  import opened GitExclusion

  /** Other processes take these steps, one after the other. */
  function Runs(fs: Fs, acts: seq<Act>): Fs
    decreases |acts|
  {
    if acts == [] then fs else Runs(Env(fs, acts[0]), acts[1..])
  }

  lemma {:induction false} RunsRelies(fs: Fs, acts: seq<Act>)
    requires WellFormed(fs)
    ensures Rely(fs, Runs(fs, acts))
    decreases |acts|
  {
    if acts == [] {
      RelyRefl(fs);
    } else {
      hide Rely;
      EnvRelies(fs, acts[0]);
      EnvWellFormed(fs, acts[0]);
      RunsRelies(Env(fs, acts[0]), acts[1..]);
      RelyTrans(fs, Env(fs, acts[0]), Runs(fs, acts));
    }
  }

  lemma {:induction false} RunsThen(fs: Fs, acts: seq<Act>, more: seq<Act>)
    ensures Runs(fs, acts + more) == Runs(Runs(fs, acts), more)
    decreases |acts|
  {
    if acts == [] {
      assert acts + more == more;
    } else {
      assert (acts + more)[1..] == acts[1..] + more;
      RunsThen(Env(fs, acts[0]), acts[1..], more);
    }
  }

  // ------------------------------------------------- a write after the probe

  /** Another process rewrites the file through a name of its own. */
  function Rewriting(fs: Fs, n: Name, text: Text): seq<Act>
    requires n in fs.names
  {
    [OpenName(n), Write(fs.names[n], text), Close(fs.names[n])]
  }

  lemma RewritingIs(fs: Fs, n: Name, text: Text)
    requires n in fs.names && fs.names[n] in fs.data && fs.names[n] !in fs.open
    ensures Runs(fs, Rewriting(fs, n, text)) == fs.(data := fs.data[fs.names[n] := text])
  {
    hide Runs;
    var i := fs.names[n];
    var held := Env(fs, OpenName(n));
    var written := Env(held, Write(i, text));
    assert Env(written, Close(i)).open == fs.open;
    assert Rewriting(fs, n, text) == [OpenName(n)] + [Write(i, text), Close(i)];
    assert [Write(i, text), Close(i)] == [Write(i, text)] + [Close(i)];
    assert [Close(i)] == [Close(i)] + [];
    RunsOne(fs, OpenName(n), [Write(i, text), Close(i)]);
    RunsOne(held, Write(i, text), [Close(i)]);
    RunsOne(written, Close(i), []);
    RunsNone(Env(written, Close(i)));
  }

  lemma RunsOne(fs: Fs, act: Act, rest: seq<Act>)
    ensures Runs(fs, [act] + rest) == Runs(Env(fs, act), rest)
  {
    assert ([act] + rest)[1..] == rest;
  }

  lemma RunsNone(fs: Fs)
    ensures Runs(fs, []) == fs
  {
  }

  /** The processes that have names of the file can take all of them away. */
  lemma {:induction false} UnlinkEach(fs: Fs, i: Inode) returns (acts: seq<Act>)
    ensures !Visible(Runs(fs, acts), i) && Runs(fs, acts) == fs.(names := Runs(fs, acts).names)
    decreases fs.names.Keys
  {
    if Visible(fs, i) {
      var n :| n in fs.names && fs.names[n] == i;
      var rest := UnlinkEach(Env(fs, Unlink(n)), i);
      RunsOne(fs, Unlink(n), rest);
      acts := [Unlink(n)] + rest;
    } else {
      acts := [];
    }
  }

  /**
   The file offered for release in `d` was probed in state `fs`, with the text the
   capture acknowledged. The last reading, some steps of other processes later, finds
   that text, so the Host goes on, but when the directory is renamed, some more steps
   later, the file has another text and no public name.
   */
  ghost predicate LateWrite(fs: Fs, d: Dir, i: Inode, read: seq<Act>, late: seq<Act>) {
    var at := Runs(fs, read);
    var end := Runs(at, late);
    && i in fs.data && i in at.data && at.data[i] == fs.data[i]
    && ReleaseIn(end, d) == Some(i) && i in end.data && !Visible(end, i)
    && Host.Checked(end, [Looked(d, i, fs.data[i])] + CheckEvents(d, i, Visible(fs, i), fs.data[i]), d, i)
    && Host.DropEvent(end, d).text != fs.data[i]
  }

  /**
   The last name of a file can go with a text nobody acknowledged if and only if the
   file had a public name at the probe: in every state, for every offered file.
   */
  lemma LateWriteCanBeLost(fs: Fs, d: Dir, i: Inode)
    requires WellFormed(fs) && ReleaseIn(fs, d) == Some(i) && i !in fs.open
    ensures (exists read, late :: LateWrite(fs, d, i, read, late)) <==> Visible(fs, i)
  {
    AtIsAllocated(fs, ReleaseFile(d));
    if Visible(fs, i) {
      VisibleIsLost(fs, d, i);
    } else {
      forall read, late ensures !LateWrite(fs, d, i, read, late) {
        RunsRelies(fs, read);
        RunsRelies(Runs(fs, read), late);
        RelyTrans(fs, Runs(fs, read), Runs(Runs(fs, read), late));
        assert Sealed(fs, i);
      }
    }
  }

  lemma VisibleIsLost(fs: Fs, d: Dir, i: Inode)
    requires WellFormed(fs) && ReleaseIn(fs, d) == Some(i) && i in fs.data && i !in fs.open && Visible(fs, i)
    ensures exists read, late :: LateWrite(fs, d, i, read, late)
  {
    var n :| n in fs.names && fs.names[n] == i;
    var text := fs.data[i] + ['\n'];
    RewritingIs(fs, n, text);
    var changed := Runs(fs, Rewriting(fs, n, text));
    var unlinking := UnlinkEach(changed, i);
    RunsThen(fs, Rewriting(fs, n, text), unlinking);
    RunsNone(fs);
    assert LateWrite(fs, d, i, [], Rewriting(fs, n, text) + unlinking);
  }

  // --------------------------------------------------- the fallback rename

  /** The restore's fallback from its check of the base name on: a collision, or the rename. */
  function FallbackEvents(fs: Fs, d: Dir, acts: seq<Act>): seq<Event> {
    var end := Runs(fs, acts);
    if At(fs, BasePath(d)).Some? || CapturedIn(end, d).None? || CapturedIn(end, d).value !in end.data then []
    else GiveEvents(end, d)
  }

  /** The rename takes the public name from a new file of another process, which is left without any name. */
  ghost predicate FallbackLoses(fs: Fs, d: Dir, acts: seq<Act>, mine: Inode) {
    var end := Runs(fs, acts);
    && mine !in fs.data && mine in end.data && CapturedIn(end, d).Some?
    && Clobbered(mine) in FallbackEvents(fs, d, acts)
    && Links(GiveFs(end, d), mine) == 0
  }

  /**
   Once the link was refused (`RestoreCaptured` clobbers only then), the fallback can
   destroy a file of another process if and only if its check finds the name free: in
   every state, for every captured file.
   */
  lemma FallbackCanClobber(fs: Fs, d: Dir)
    requires WellFormed(fs) && d.place.AtPublic? && CapturedIn(fs, d).Some?
    ensures (exists acts, mine :: FallbackLoses(fs, d, acts, mine)) <==> At(fs, PublicFile).None?
  {
    hide Runs, Links, GiveFs, Env, WellFormed;
    if At(fs, PublicFile).None? {
      var mine := NewFile(fs.data.Keys);
      RacedIsLost(fs, d, mine);
      assert FallbackLoses(fs, d, [Create(Public, mine, "mine")], mine);
    }
  }

  /** Files are numbered, so there is always one more. */
  lemma {:induction false} NewFile(files: set<Inode>) returns (i: Inode)
    ensures forall k :: k in files ==> k < i
  {
    if files == {} {
      i := 0;
    } else {
      var k :| k in files;
      var rest := files - {k};
      var j := NewFile(rest);
      i := if k < j then j else k + 1;
      forall m | m in files ensures m < i {
        assert m == k || m in rest;
      }
    }
  }

  lemma RacedIsLost(fs: Fs, d: Dir, mine: Inode)
    requires WellFormed(fs) && d.place.AtPublic? && CapturedIn(fs, d).Some?
    requires At(fs, PublicFile).None? && mine !in fs.data
    ensures FallbackLoses(fs, d, [Create(Public, mine, "mine")], mine)
  {
    AtIsAllocated(fs, CapturedFile(d));
    var act := Create(Public, mine, "mine");
    var raced := Env(fs, act);
    RunsOne(fs, act, []);
    assert [act] + [] == [act];
    RunsNone(raced);
    assert GiveEvents(raced, d)[0] == Clobbered(mine);
    Nameless(fs, GiveFs(raced, d), mine);
  }

  /** A file that existed nowhere before has no link where only older files were given names. */
  lemma Nameless(fs: Fs, after: Fs, mine: Inode)
    requires WellFormed(fs) && mine !in fs.data && after.temps == fs.temps
    requires forall n :: n in after.names ==> after.names[n] in fs.data
    requires forall e :: e in after.caps ==> Slots(after.caps[e]) <= fs.data.Keys
    ensures Links(after, mine) == 0
  {
    assert (set n | n in after.names && after.names[n] == mine) == {};
    assert (set t | t in after.temps && after.temps[t] == mine) == {} by {
      assert forall t :: t in fs.temps ==> fs.temps[t] in fs.temps.Values;
    }
    forall e | e in after.caps
      ensures CapturedIn(after, e) != Some(mine) && ReleaseIn(after, e) != Some(mine)
      ensures At(after, FinishedFile(e)) != Some(mine)
    {
      assert mine !in Slots(after.caps[e]);
    }
    assert (set e | e in after.caps && CapturedIn(after, e) == Some(mine)) == {};
    assert (set e | e in after.caps && ReleaseIn(after, e) == Some(mine)) == {};
    assert (set e | e in after.caps && At(after, FinishedFile(e)) == Some(mine)) == {};
  }

  // ------------------------------------------- a release that loses a text

  /** `link(captured, release)` and `rm(captured)`, and the two steps back. */
  function Offering(fs: Fs, d: Dir): Fs {
    SetCaptured(SetRelease(fs, d, CapturedIn(fs, d)), d, None)
  }

  function Withdrawing(fs: Fs, d: Dir): Fs {
    SetRelease(SetCaptured(fs, d, ReleaseIn(fs, d)), d, None)
  }

  /** File 0 is in the capture, and file 1 is public with the text "a". */
  function Scene(d: Dir, slots: Cap, text: Text, linked: bool): Fs {
    Fs(map[], map[d := slots], if linked then map[Public := 1, User(0) := 0] else map[Public := 1],
       map[0 := text, 1 := "a"], {})
  }

  const IN_CAPTURE := Open(Some(0), None)
  const IN_RELEASE := Open(None, Some(0))

  /** What the Host records of the run: "x" is refused, "a" merged, "x" given up. */
  function LosingHistory(d: Dir): seq<Event> {
    [Looked(d, 0, "a")] + CheckEvents(d, 0, true, "x") + [Looked(d, 0, "a"), Saw(1, "a")]
    + CheckEvents(d, 0, false, "x") + [Dropped(d, 0, "x", true)]
  }

  /**
   A run of the release loop on a captured file that another process has linked to a
   name of its own. The capture read "a", which is public too. The removal is refused
   for "x", the read after it finds "a" again, and the next removal finds "x", the
   text it acknowledged, with no name left, and commits.
   */
  ghost predicate LosesFile(d: Dir) {
    var rewriting := Rewriting(Scene(d, IN_CAPTURE, "a", true), User(0), "x");
    var back := Rewriting(Scene(d, IN_CAPTURE, "x", true), User(0), "a");
    var gone := Scene(d, IN_RELEASE, "x", false);
    && WellFormed(Scene(d, IN_CAPTURE, "a", true))
    && Runs(Scene(d, IN_CAPTURE, "a", true), rewriting) == Scene(d, IN_CAPTURE, "x", true)
    && Offering(Scene(d, IN_CAPTURE, "x", true), d) == Scene(d, IN_RELEASE, "x", true)
    && Visible(Scene(d, IN_RELEASE, "x", true), 0)
    && Withdrawing(Scene(d, IN_RELEASE, "x", true), d) == Scene(d, IN_CAPTURE, "x", true)
    && Runs(Scene(d, IN_CAPTURE, "x", true), back) == Scene(d, IN_CAPTURE, "a", true)
    && Runs(Scene(d, IN_CAPTURE, "a", true), rewriting + [Unlink(User(0))]) == Scene(d, IN_CAPTURE, "x", false)
    && Offering(Scene(d, IN_CAPTURE, "x", false), d) == gone
    && !Visible(gone, 0) && Host.DropEvent(gone, d) == Dropped(d, 0, "x", true)
  }

  /** What the contract of the release says of that run: "x" is given up and was never public. */
  ghost predicate LosesText(d: Dir) {
    var history, turns := LosingHistory(d), [Turn(1, "x", "a")];
    && AllJustified(history) && Released(history, 1, 7, d, 0, "a", turns) && LastFound("a", turns) == "x"
    && Covered([], history, ["a", "a"] + MergedIn(turns)) && !Covered([], history, ["x"])
  }

  /** So the condition of `GivenUpIsCovered` is needed: a given-up text can be nowhere public. */
  lemma ReleaseCanLoseText(d: Dir)
    ensures LosesFile(d) && LosesText(d)
  {
    LosesTheFile(d);
    LosesTheText(d);
  }

  lemma LosesTheFile(d: Dir)
    ensures LosesFile(d)
  {
    hide Runs, Rewriting, Offering, Withdrawing;
    SceneRewritten(d, "a", "x");
    SceneRewritten(d, "x", "a");
    SceneUnlinked(d, "a", "x");
    SceneOffered(d, "x", true);
    SceneOffered(d, "x", false);
    SceneNames(d, IN_RELEASE, "x");
  }

  lemma SceneNames(d: Dir, slots: Cap, text: Text)
    ensures Visible(Scene(d, slots, text, true), 0) && !Visible(Scene(d, slots, text, false), 0)
  {
    assert Scene(d, slots, text, true).names[User(0)] in Scene(d, slots, text, true).names.Values;
  }

  lemma SceneRewritten(d: Dir, from: Text, to: Text)
    ensures Runs(Scene(d, IN_CAPTURE, from, true), Rewriting(Scene(d, IN_CAPTURE, from, true), User(0), to))
         == Scene(d, IN_CAPTURE, to, true)
  {
    RewritingIs(Scene(d, IN_CAPTURE, from, true), User(0), to);
    assert (map[0 := from, 1 := "a"])[0 := to] == map[0 := to, 1 := "a"];
  }

  lemma SceneUnlinked(d: Dir, from: Text, to: Text)
    ensures Runs(Scene(d, IN_CAPTURE, from, true), Rewriting(Scene(d, IN_CAPTURE, from, true), User(0), to) + [Unlink(User(0))])
         == Scene(d, IN_CAPTURE, to, false)
  {
    hide Runs, Rewriting;
    var scene := Scene(d, IN_CAPTURE, to, true);
    SceneRewritten(d, from, to);
    RunsThen(Scene(d, IN_CAPTURE, from, true), Rewriting(Scene(d, IN_CAPTURE, from, true), User(0), to), [Unlink(User(0))]);
    assert [Unlink(User(0))] == [Unlink(User(0))] + [];
    RunsOne(scene, Unlink(User(0)), []);
    RunsNone(Env(scene, Unlink(User(0))));
    assert scene.names - {User(0)} == map[Public := 1];
  }

  lemma SceneOffered(d: Dir, text: Text, linked: bool)
    ensures Offering(Scene(d, IN_CAPTURE, text, linked), d) == Scene(d, IN_RELEASE, text, linked)
    ensures Withdrawing(Scene(d, IN_RELEASE, text, linked), d) == Scene(d, IN_CAPTURE, text, linked)
  {
    var both: Cap := Open(Some(0), Some(0));
    assert map[d := IN_CAPTURE][d := both][d := IN_RELEASE] == map[d := IN_RELEASE];
    assert map[d := IN_RELEASE][d := both][d := IN_CAPTURE] == map[d := IN_CAPTURE];
  }

  lemma LosesTheText(d: Dir)
    ensures LosesText(d)
  {
    hide Preserved, Covered, Released, AllJustified;
    LosingCovers(d);
    LosingIsReleased(d);
    LosingIsJustified(d);
  }

  lemma LosingIsJustified(d: Dir)
    ensures AllJustified(LosingHistory(d))
  {
    var history := LosingHistory(d);
    assert history[7] == Dropped(d, 0, "x", true) && history[6] == Looked(d, 0, "x") && history[5] == Probed(0, false);
    assert history[2] == Looked(d, 0, "x") && history[..5][2] == history[2];
  }

  lemma LosingIsReleased(d: Dir)
    ensures Released(LosingHistory(d), 1, 7, d, 0, "a", [Turn(1, "x", "a")])
  {
    var history, turns := LosingHistory(d), [Turn(1, "x", "a")];
    LosingIsJustified(d);
    assert history[1] == Probed(0, true) && history[2] == Looked(d, 0, "x") && history[3] == Looked(d, 0, "a");
    assert history[4] == Saw(1, "a") && history[5] == Probed(0, false) && history[6] == Looked(d, 0, "x");
    assert turns[..0] == [];
    assert RefusedAt(history, 1, 5, d, 0, "a", turns[0]);
    assert turns[0].at == 1 && Among(turns, 1);
  }

  lemma LosingCovers(d: Dir)
    ensures Covered([], LosingHistory(d), ["a", "a"] + MergedIn([Turn(1, "x", "a")]))
    ensures !Covered([], LosingHistory(d), ["x"])
  {
    var a, x: Text := "a", "x";
    var history := LosingHistory(d);
    OtherIsNotPreserved(a, x);
    hide Preserved;
    PreservedSelf(a);
    assert MergedIn([Turn(1, x, a)]) == [a];
    assert history[4] == Saw(1, a) && Covers(history[4], [a, a] + MergedIn([Turn(1, x, a)]));
    forall k | 0 <= k < |history| ensures !Covers(history[k], [x]) {
      assert x in [x];
    }
  }

  lemma OtherIsNotPreserved(a: Text, x: Text)
    requires '\n' !in a && '\n' !in x && x != a && x != ""
    ensures !Preserved(x, a)
  {
    assert Split(a) == [a] by { SplitLine(a); }
    assert Split(x) == [x] by { SplitLine(x); }
    if Subsequence(Split(x), Split(a)) {
      SubsequenceMember(Split(x), Split(a), x);
      assert false;
    }
  }
}
