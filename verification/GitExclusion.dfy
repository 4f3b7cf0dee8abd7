/**
 src/project-git-exclusion.mjs: replacing the public exclude file only over the
 generation that was read, and finishing or undoing a replacement that a
 concurrent writer or a lost Host interrupted.
 */
module GitExclusion {
  import opened Wrappers
  import opened ExclusionText
  import opened FileWorld
  import opened HostCalls
  import opened PreparationFile

  const COMMIT_ATTEMPTS := 8
  const RECONCILIATION_DEPTH := 8

  function ReplaceDir(t: Id): Dir {
    Dir(AtPublic, Replacing(t))
  }

  function RollbackDir(t: Id): Dir {
    Dir(AtPublic, RollingBack(t))
  }

  function TempDir(t: Id): Dir {
    Dir(AtTemp(t), Owning(t))
  }

  // ------------------------------------------------------------- history

  /** At some moment since `before` the public file held every one of the texts, line for line. */
  ghost predicate Covered(before: seq<Event>, after: seq<Event>, sources: seq<Text>) {
    || (forall s :: s in sources ==> s == "")
    || (exists k :: |before| <= k < |after| && Covers(after[k], sources))
  }

  ghost predicate Covers(e: Event, sources: seq<Text>) {
    e.Saw? && forall s :: s in sources ==> Preserved(s, e.text)
  }

  lemma CoveredLater(a: seq<Event>, b: seq<Event>, c: seq<Event>, d: seq<Event>, sources: seq<Text>)
    requires a <= b <= c <= d && Covered(b, c, sources)
    ensures Covered(a, d, sources)
  {
    if exists s :: s in sources && s != "" {
      var k :| |b| <= k < |c| && Covers(c[k], sources);
      assert Covers(d[k], sources);
    }
  }

  /** Every generation of the first list is in the second. */
  ghost predicate Includes(fewer: seq<Text>, more: seq<Text>) {
    forall s :: s in fewer ==> s in more
  }

  lemma IncludesTrans(a: seq<Text>, b: seq<Text>, c: seq<Text>)
    requires Includes(a, b) && Includes(b, c)
    ensures Includes(a, c)
  {
  }

  lemma CoveredFewer(before: seq<Event>, after: seq<Event>, sources: seq<Text>, fewer: seq<Text>)
    requires Covered(before, after, sources) && Includes(fewer, sources)
    ensures Covered(before, after, fewer)
  {
    if !(forall s :: s in sources ==> s == "") {
      var k :| |before| <= k < |after| && Covers(after[k], sources);
      assert Covers(after[k], fewer);
    }
  }

  /** A capture's file was probed, read a last time as `final`, and given up. */
  ghost predicate GivenUp(before: seq<Event>, after: seq<Event>, d: Dir, i: Inode, final: Text) {
    exists k :: |before| + 2 <= k < |after| && DropOf(after, k, d, i, final)
  }

  ghost predicate DropOf(trace: seq<Event>, k: nat, d: Dir, i: Inode, final: Text)
    requires k < |trace|
  {
    && trace[k].Dropped? && trace[k].dir == d && trace[k].inode == i
    && k >= 2 && trace[k - 1] == Looked(d, i, final) && Justified(trace, k)
  }

  lemma DropOfLater(a: seq<Event>, b: seq<Event>, k: nat, d: Dir, i: Inode, final: Text)
    requires a <= b && k < |a| && DropOf(a, k, d, i, final)
    ensures DropOf(b, k, d, i, final)
  {
    JustifiedLater(a, b, k);
    assert b[k] == a[k] && b[k - 1] == a[k - 1];
  }

  lemma GivenUpLater(a: seq<Event>, b: seq<Event>, c: seq<Event>, d: Dir, i: Inode, final: Text)
    requires a <= b <= c && GivenUp(b, c, d, i, final)
    ensures GivenUp(a, c, d, i, final)
  {
  }

  lemma LastDrop(before: seq<Event>, after: seq<Event>, d: Dir, i: Inode, final: Text, start: Fs)
    requires GivesUp(before, after, d, i, final, start)
    ensures GivenUp(before, after, d, i, final)
  {
    assert after[..|before|] == before;
    assert DropOf(after, |before| + 2, d, i, final);
  }

  // -------------------------------------------------------------- frames

  lemma TreeStart(fs: Fs, trace: seq<Event>, t: Id)
    ensures KeepTree(fs, fs, t) && InTree(trace, trace, t)
  {
  }

  lemma KeepTreeTrans(a: Fs, b: Fs, c: Fs, t: Id)
    requires KeepTree(a, b, t) && KeepTree(b, c, t)
    ensures KeepTree(a, c, t)
  {
  }

  lemma KeepsInTree(a: Fs, b: Fs, d: Dir, t: Id)
    requires Keeps(a, b, d) && Within(d.purpose.id, t)
    requires d.place.AtTemp? ==> d.place.id == d.purpose.id
    ensures KeepTree(a, b, t)
  {
  }

  /** Like `KeepTree`, but the file captured in `d` may have been given the public name. */
  ghost predicate KeepLinking(a: Fs, b: Fs, t: Id, d: Dir) {
    && KeepNames(a, b, t)
    && forall e: Dir, i :: !Within(e.purpose.id, t) && e != d && Shut(a, e, i) ==> Shut(b, e, i) && b.data[i] == a.data[i]
  }

  lemma LinkingTrans(a: Fs, b: Fs, c: Fs, t: Id, d: Dir)
    requires KeepLinking(a, b, t, d)
    requires KeepLinking(b, c, t, d) || KeepTree(b, c, t) || Stable(b, c)
    ensures KeepLinking(a, c, t, d)
  {
    if Stable(b, c) { assert ShutKept(b, c); }
  }

  lemma LinkingSame(a: Fs, b: Fs, c: Fs, t: Id, d: Dir)
    requires KeepLinking(a, b, t, d)
    requires c.temps == b.temps && c.caps == b.caps && Grows(b, c) && (ShutBut(b, c, d) || ShutKept(b, c))
    ensures KeepLinking(a, c, t, d)
  {
  }

  lemma LinkingStart(fs: Fs, t: Id, d: Dir)
    ensures KeepLinking(fs, fs, t, d)
  {
  }

  lemma LinkingGrows(a: Fs, b: Fs, t: Id, d: Dir)
    requires KeepLinking(a, b, t, d)
    ensures Grows(a, b)
    ensures !Within(d.purpose.id, t) ==> Lookup(b.caps, d) == Lookup(a.caps, d)
  {
  }

  /** From the tree of `t` a merge in the derived tree only shows what the tree of `t` holds. */
  lemma LinkingDerived(a: Fs, b: Fs, t: Id, d: Dir)
    requires KeepLinking(a, b, Reconcile(t), d) && d.purpose.id == t
    ensures KeepTree(a, b, t) && SameTemp(a, b, t)
    ensures forall e: Dir :: e.purpose.id == t ==> Lookup(b.caps, e) == Lookup(a.caps, e)
  {
    OwnIdIsOutside(t);
    forall x | Within(x, Reconcile(t)) ensures Within(x, t) {
      WithinTrans(x, Reconcile(t), t);
    }
  }

  lemma KeepsDerived(a: Fs, b: Fs, t: Id)
    requires KeepTree(a, b, Reconcile(t))
    ensures KeepTree(a, b, t)
    ensures SameTemp(a, b, t)
    ensures forall d: Dir :: d.purpose.id == t ==> Lookup(b.caps, d) == Lookup(a.caps, d)
  {
    OwnIdIsOutside(t);
    forall x | Within(x, Reconcile(t)) ensures Within(x, t) {
      WithinTrans(x, Reconcile(t), t);
    }
  }

  /** The temporary file of `t` and the capture it may be in are as they were. */
  ghost predicate SameTemp(a: Fs, b: Fs, t: Id) {
    Lookup(b.temps, t) == Lookup(a.temps, t) && Lookup(b.caps, TempDir(t)) == Lookup(a.caps, TempDir(t))
  }

  /** The candidate of `t`, if there is one, has no public name, nor is it in a capture of the public file. */
  ghost predicate Unseen(fs: Fs, t: Id) {
    t in fs.temps ==> Secluded(fs, fs.temps[t])
  }

  /** The same of every file that can be the candidate of `t`. */
  ghost predicate Apart(fs: Fs, t: Id) {
    forall i :: Stored(fs, TempDir(t), i) ==> Secluded(fs, i)
  }

  lemma ApartIsUnseen(fs: Fs, t: Id)
    requires Apart(fs, t)
    ensures Unseen(fs, t)
  {
    assert t in fs.temps ==> Stored(fs, TempDir(t), fs.temps[t]);
  }

  lemma UnseenKept(a: Fs, b: Fs, t: Id)
    requires Unseen(a, t) && Grows(a, b) && Lookup(b.temps, t) == Lookup(a.temps, t)
    ensures Unseen(b, t)
  {
  }

  lemma ApartKept(a: Fs, b: Fs, t: Id)
    requires Apart(a, t) && Grows(a, b) && (SameTemp(a, b, t) || Confined(a, b, TempDir(t)))
    ensures Apart(b, t)
  {
    hide Secluded;
    forall i | Stored(b, TempDir(t), i) ensures Secluded(b, i) {
      assert Stored(a, TempDir(t), i);
    }
  }

  // ------------------------------------------------------ temporary file

  /** Nothing was taken from the public name or published, and only temporary files of `t` were given up. */
  ghost predicate OnlyTemporary(before: seq<Event>, after: seq<Event>, t: Id) {
    && before <= after
    && forall k :: |before| <= k < |after| ==>
         !after[k].Took? && !after[k].Published? && (after[k].Dropped? || after[k].Looked? ==> after[k].dir == TempDir(t))
  }

  lemma TemporaryThen(x: seq<Event>, y: seq<Event>, z: seq<Event>, t: Id)
    requires OnlyTemporary(x, y, t)
    requires OnlyTemporary(y, z, t) || OnlyReturns(y, z) || OnlyLooks(y, z, TempDir(t))
    ensures OnlyTemporary(x, z, t)
  {
  }

  /** A captured temporary file is given up, or gets its name back if it changed. */
  method RemoveOrRestore(h: Host, c: Capture, t: Id) returns (r: Run<bool>)
    requires h.Valid() && c.Holds(h.fs) && c.dir == TempDir(t) && c.current == c.source && c.Acknowledged(h.trace)
    modifies h, c
    ensures h.Valid() && Keeps(old(h.fs), h.fs, TempDir(t)) && OnlyTemporary(old(h.trace), h.trace, t)
    ensures h.calm && old(Releasable(h.fs, c) && h.fs.data[c.inode] == c.current) ==>
      r == Done(true) && h.fs == old(WithoutCap(h.fs, c.dir))
    ensures r.Done? && r.value ==> GivenUp(old(h.trace), h.trace, TempDir(t), c.inode, c.source)
  {
    hide Rely, FileWorld.Valid, Secluded, Shut, Links;
    var removing;
    ghost var reachable;
    removing, reachable := Remove(h, c);
    ghost var trace1 := h.trace;
    if !c.active { LastDrop(old(h.trace), trace1, TempDir(t), c.inode, c.source, old(h.fs)); }
    var removed :- removing;
    if removed { return Done(true); }
    var restored := Restore(h, c);
    TemporaryThen(old(h.trace), trace1, h.trace, t);
    var _ :- restored;
    return Done(false);
  }

  /** There is no temporary file of the ID, nor a capture of one. */
  predicate NoTemporary(fs: Fs, t: Id) {
    t !in fs.temps && TempDir(t) !in fs.caps
  }

  /** There is one, which nobody has open and which has no more names than its own and the public one. */
  ghost predicate OwnTemporary(fs: Fs, t: Id) {
    && t in fs.temps && TempDir(t) !in fs.caps && fs.temps[t] in fs.data && fs.temps[t] !in fs.open
    && Links(fs, fs.temps[t]) <= 2
  }

  lemma TemporaryTaken(fs: Fs, t: Id)
    requires OwnTemporary(fs, t)
    ensures Takable(fs, TempDir(t), 2) && At(fs, BasePath(TempDir(t))) == Some(fs.temps[t])
    ensures WithoutCap(TakenFs(fs, TempDir(t)), TempDir(t)) == WithoutTemp(fs, t)
  {
    hide Links;
    var d := TempDir(t);
    assert TakenFs(fs, d).caps - {d} == fs.caps;
  }

  lemma TemporaryReleasable(fs: Fs, t: Id, c: Capture)
    requires OwnTemporary(fs, t) && c.inode == fs.temps[t] && c.maximumLinks == 2
    ensures Releasable(TakenFs(fs, TempDir(t)), c) && TakenFs(fs, TempDir(t)).data == fs.data
  {
    hide Links;
    TakenLinks(fs, TempDir(t));
  }

  /** `removeProjectPreparationTemporaryFile`. */
  method RemoveTemporaryFile(h: Host, t: Id, expected: Option<Inode>) returns (r: Run<bool>)
    requires h.Valid()
    modifies h
    ensures h.Valid() && Keeps(old(h.fs), h.fs, TempDir(t))
    ensures InTree(old(h.trace), h.trace, t) && OnlyTemporary(old(h.trace), h.trace, t)
    ensures h.calm && old(NoTemporary(h.fs, t)) ==> r == Done(false) && h.fs == old(h.fs)
    ensures h.calm && old(OwnTemporary(h.fs, t)) && expected in {None, old(Lookup(h.fs.temps, t))} ==>
      r == Done(true) && h.fs == old(WithoutTemp(h.fs, t))
    ensures r.Done? && r.value ==> exists i, final ::
      GivenUp(old(h.trace), h.trace, TempDir(t), i, final) && (expected.Some? ==> i == expected.value)
  {
    hide Rely, FileWorld.Valid, Secluded, Shut, GivenUp, Keeps, OnlyTemporary, InTree, OnlyTakes, OnlyReturns,
      SealedFiles, Sole, Links, TakenFs, Takable, Releasable, WithoutCap;
    var capturing := CaptureFile(h, TempDir(t), 2);
    ghost var fs1, trace1 := h.fs, h.trace;
    if old(OwnTemporary(h.fs, t)) { TemporaryTaken(old(h.fs), t); }
    TakesTemporary(old(h.trace), trace1, t);
    TemporaryInTree(old(h.trace), trace1, t);
    var c :- capturing;
    if c == null { return Done(false); }
    if h.calm && old(OwnTemporary(h.fs, t)) { TemporaryReleasable(old(h.fs), t, c); }
    if expected.Some? && expected.value != c.inode {
      r := Restore(h, c);
    } else {
      r := RemoveOrRestore(h, c, t);
      TemporaryInTree(trace1, h.trace, t);
    }
    KeepsTrans(old(h.fs), fs1, h.fs, TempDir(t));
    TemporaryThen(old(h.trace), trace1, h.trace, t);
    TemporaryInTree(old(h.trace), h.trace, t);
    if expected.Some? && expected.value != c.inode {
      var _ :- r;
      return Done(false);
    }
    if r.Done? && r.value {
      GivenUpLater(old(h.trace), trace1, h.trace, TempDir(t), c.inode, c.source);
    }
  }

  lemma TakesTemporary(before: seq<Event>, after: seq<Event>, t: Id)
    requires OnlyTakes(before, after, TempDir(t))
    ensures OnlyTemporary(before, after, t) && before <= after
  {
  }

  lemma TemporaryInTree(before: seq<Event>, after: seq<Event>, t: Id)
    requires OnlyTemporary(before, after, t)
    ensures InTree(before, after, t) && before <= after
  {
  }

  /** Every file taken, given up or published since `before` was so for `t` or an ID derived from it. */
  ghost predicate InTree(before: seq<Event>, after: seq<Event>, t: Id) {
    && before <= after
    && forall k :: |before| <= k < |after| ==>
         && (after[k].Took? || after[k].Dropped? || after[k].Looked? ==> Within(after[k].dir.purpose.id, t))
         && (after[k].Published? ==> Within(after[k].id, t))
  }

  /** The candidate of `t` did not get the public name. */
  ghost predicate NotPublished(before: seq<Event>, after: seq<Event>, t: Id) {
    forall k :: |before| <= k < |after| ==> !(after[k].Published? && after[k].id == t)
  }

  /** Capture `d` neither took nor gave up anything. */
  ghost predicate Untouched(before: seq<Event>, after: seq<Event>, d: Dir) {
    && before <= after
    && forall k :: |before| <= k < |after| && (after[k].Took? || after[k].Dropped?) ==> after[k].dir != d
  }

  /** The capture replaced for `t` gave up nothing. */
  ghost predicate Spared(before: seq<Event>, after: seq<Event>, t: Id) {
    && before <= after
    && forall k :: |before| <= k < |after| && after[k].Dropped? ==> after[k].dir != ReplaceDir(t)
  }

  /** Nor did the candidate of `t` get the public name. */
  ghost predicate Quiet(before: seq<Event>, after: seq<Event>, t: Id) {
    Spared(before, after, t) && NotPublished(before, after, t)
  }

  lemma QuietTrans(a: seq<Event>, b: seq<Event>, c: seq<Event>, t: Id)
    requires Quiet(a, b, t) && Quiet(b, c, t)
    ensures Quiet(a, c, t)
  {
  }

  lemma QuietWhenUntouched(a: seq<Event>, b: seq<Event>, t: Id)
    requires Untouched(a, b, ReplaceDir(t)) && NotPublished(a, b, t)
    ensures Quiet(a, b, t)
  {
  }

  lemma LooksAreQuiet(a: seq<Event>, b: seq<Event>, d: Dir, t: Id)
    requires OnlyLooks(a, b, d)
    ensures Quiet(a, b, t) && Untouched(a, b, ReplaceDir(t))
    ensures d.purpose.id == t ==> InTree(a, b, t)
  {
  }

  lemma QuietStart(a: seq<Event>, t: Id)
    ensures Quiet(a, a, t)
  {
  }

  lemma InTreeTrans(a: seq<Event>, b: seq<Event>, c: seq<Event>, t: Id)
    requires InTree(a, b, t) && InTree(b, c, t)
    ensures InTree(a, c, t)
  {
  }

  lemma InDerivedTree(a: seq<Event>, b: seq<Event>, t: Id)
    requires InTree(a, b, Reconcile(t))
    ensures InTree(a, b, t) && Quiet(a, b, t)
    ensures forall d: Dir :: d.purpose.id == t ==> Untouched(a, b, d)
  {
    OwnIdIsOutside(t);
    forall x | Within(x, Reconcile(t)) ensures Within(x, t) {
      WithinTrans(x, Reconcile(t), t);
    }
  }

  // ---------------------------------------------------------------- merge

  /** The generations the text does not hold any more. */
  method MissingFrom(required: seq<Text>, text: Text) returns (missing: seq<Text>)
    ensures missing == Lacking(required, text)
    ensures missing == [] <==> AllKept(required, text)
  {
    hide Preserved;
    missing := [];
    for k := 0 to |required|
      invariant missing == Lacking(required[..k], text)
    {
      var kept := SourceIsPreserved(required[k], text);
      if !kept { missing := missing + [required[k]]; }
      assert required[..k + 1][..k] == required[..k];
    }
    assert required[..|required|] == required;
    LackingAre(required, text);
    if missing != [] { assert missing[0] in missing; }
  }

  function TextOf(reading: Reading): Text {
    if reading.Found? then reading.text else ""
  }

  lemma SawCovers(before: seq<Event>, after: seq<Event>, reading: Reading, sources: seq<Text>,
      grown: seq<Text>)
    requires AllKept(grown, TextOf(reading)) && Includes(sources, grown)
    requires before <= after
    requires reading.Found? ==>
      |after| > |before| && after[|after| - 1] == Saw(reading.inode, reading.text)
    ensures Covered(before, after, sources)
  {
    if reading.Found? {
      assert Covers(after[|after| - 1], sources);
    } else {
      forall s | s in sources ensures s == "" {
        PreservedInEmpty(s);
      }
    }
  }

  lemma ReadKeeps(a: Fs, b: Fs, c: Fs, t: Id)
    requires KeepTree(a, b, t) && Stable(b, c)
    ensures KeepTree(a, c, t)
  {
  }

  lemma SawInTree(a: seq<Event>, b: seq<Event>, c: seq<Event>, t: Id)
    requires InTree(a, b, t)
    requires c == b || (|c| == |b| + 1 && b <= c && (c[|b|].Saw? || c[|b|].Put? || c[|b|].Made?))
    ensures InTree(a, c, t)
  {
  }

  /** A public read inside one of the retry loops. */
  method ReadPublic(h: Host, t: Id, ghost start: Fs, ghost before: seq<Event>) returns (r: Run<Reading>)
    requires h.Valid() && KeepTree(start, h.fs, t) && InTree(before, h.trace, t)
    modifies h
    ensures h.Valid() && KeepTree(start, h.fs, t) && InTree(before, h.trace, t) && Stable(old(h.fs), h.fs)
    ensures OnlyReturns(old(h.trace), h.trace) && Quiet(old(h.trace), h.trace, t)
    ensures r.Done? && r.value.Found? ==>
      h.trace == old(h.trace) + [Saw(r.value.inode, r.value.text)] && At(h.fs, PublicFile) == Some(r.value.inode)
    ensures h.calm ==> h.fs == old(h.fs) && r == Reads(h.fs, PublicFile, 2)
  {
    hide KeepTree;
    r := SeePublic(h, t, before);
    ReadKeeps(start, old(h.fs), h.fs, t);
  }

  method SeePublic(h: Host, t: Id, ghost before: seq<Event>) returns (r: Run<Reading>)
    requires h.Valid() && InTree(before, h.trace, t)
    modifies h
    ensures h.Valid() && InTree(before, h.trace, t) && Stable(old(h.fs), h.fs)
    ensures OnlyReturns(old(h.trace), h.trace) && Quiet(old(h.trace), h.trace, t)
    ensures r.Done? && r.value.Found? ==>
      h.trace == old(h.trace) + [Saw(r.value.inode, r.value.text)] && At(h.fs, PublicFile) == Some(r.value.inode)
    ensures h.calm ==> h.fs == old(h.fs) && r == Reads(h.fs, PublicFile, 2)
  {
    hide Rely, FileWorld.Valid, Secluded, Shut;
    r := h.ReadFile(PublicFile, 2);
    SawInTree(before, old(h.trace), h.trace, t);
  }

  /** There is a public file, which a replacement with this ID could replace. */
  ghost predicate Mergeable(fs: Fs, t: Id) {
    Ready(fs, t) && Public in fs.names
  }

  function PublicText(fs: Fs): Text {
    TextOf(PublicReading(fs))
  }

  /** Another file may have the public name; everything else is as it was. */
  ghost predicate OnlyPublicChanged(a: Fs, b: Fs) {
    && b.temps == a.temps && b.caps == a.caps && b.open == a.open && a.data.Keys <= b.data.Keys
    && (forall n :: n != Public ==> Lookup(b.names, n) == Lookup(a.names, n))
    && (forall i :: i in a.data ==> b.data[i] == a.data[i])
    && (Public in b.names ==> b.names[Public] !in a.data || Lookup(a.names, Public) == Some(b.names[Public]))
  }

  lemma OnlyPublicTrans(a: Fs, b: Fs, c: Fs)
    requires OnlyPublicChanged(a, b) && OnlyPublicChanged(b, c)
    ensures OnlyPublicChanged(a, c)
  {
  }

  lemma OnlyPublicSelf(a: Fs)
    ensures OnlyPublicChanged(a, a)
  {
  }

  lemma MergeableReads(fs: Fs, t: Id)
    requires Mergeable(fs, t)
    ensures Reads(fs, PublicFile, 2) == Done(PublicReading(fs)) && PublicReading(fs).Found?
    ensures Public in fs.names && fs.names[Public] == PublicReading(fs).inode && PublicReading(fs).text == PublicText(fs)
    ensures fs.names[Public] in fs.data && fs.data[fs.names[Public]] == PublicText(fs)
    ensures Ready(fs, t)
  {
    hide Links;
    assert fs.names[Public] in fs.names.Values;
  }

  /** A file that replaced the public one can be replaced in turn. */
  lemma SwappedIsMergeable(a: Fs, b: Fs, t: Id, text: Text)
    requires Mergeable(a, t) && Swapped(a, b, Some(text))
    ensures Mergeable(b, t) && PublicText(b) == text && OnlyPublicChanged(a, b)
  {
    hide Links;
    var c: Inode :| c !in a.data && b == SwappedFs(a, Some(text), c);
    NewFileHasOneLink(a, b, c, text);
  }

  lemma NewFileHasOneLink(a: Fs, b: Fs, c: Inode, text: Text)
    requires WellFormed(a) && c !in a.data && b == SwappedFs(a, Some(text), c)
    ensures WellFormed(b) && Links(b, c) <= 1
  {
    NowhereYet(a, c);
    SwappedNames(a, b, c, text);
    SameSlots(a, b, c);
  }

  lemma SwappedNames(a: Fs, b: Fs, c: Inode, text: Text)
    requires c !in a.data && b == SwappedFs(a, Some(text), c) && PublicNames(a, c) == {}
    ensures PublicNames(b, c) == {Public} && TempNames(b, c) == TempNames(a, c) && b.caps == a.caps
  {
    forall n | n in b.names && n != Public ensures b.names[n] != c { assert n !in PublicNames(a, c); }
  }

  lemma NowhereYet(fs: Fs, c: Inode)
    requires WellFormed(fs) && c !in fs.data
    ensures PublicNames(fs, c) == {} && TempNames(fs, c) == {}
    ensures CapturedDirs(fs, c) == {} && ReleaseDirs(fs, c) == {} && FinishedDirs(fs, c) == {}
  {
    forall n | n in fs.names ensures fs.names[n] != c { assert fs.names[n] in fs.names.Values; }
    forall x | x in fs.temps ensures fs.temps[x] != c { assert fs.temps[x] in fs.temps.Values; }
    forall d | d in fs.caps ensures c !in Slots(fs.caps[d]) { assert Slots(fs.caps[d]) <= fs.data.Keys; }
  }

  /** When the public file is missing the captured generation is linked there first. */
  method ReadOrRelink(h: Host, d: Dir, t: Id, ghost start: Fs, ghost before: seq<Event>)
    returns (r: Run<Reading>, retry: bool)
    requires h.Valid() && KeepLinking(start, h.fs, t, d) && InTree(before, h.trace, t) && d.place.AtPublic?
    modifies h
    ensures h.Valid() && KeepLinking(start, h.fs, t, d) && InTree(before, h.trace, t)
    ensures r.Done? && !retry && r.value.Found? ==>
      |h.trace| > |before| && h.trace[|h.trace| - 1] == Saw(r.value.inode, r.value.text)
    ensures h.calm && old(Mergeable(h.fs, t)) ==> r == Done(PublicReading(h.fs)) && !retry && h.fs == old(h.fs)
  {
    hide Rely, FileWorld.Valid, Secluded, Shut, Mergeable, Reads, PublicReading;
    if Mergeable(h.fs, t) { MergeableReads(h.fs, t); }
    retry := false;
    r := SeePublic(h, t, before);
    LinkingTrans(start, old(h.fs), h.fs, t, d);
    if !r.Done? || r.value.Found? { return; }
    ghost var fs1, trace1 := h.fs, h.trace;
    var linked := h.LinkBase(d);
    LinkingSame(start, fs1, h.fs, t, d);
    SawInTree(before, trace1, h.trace, t);
    if !linked.Done? { r := linked.PropagateFailure(); return; }
    if linked.value == Eexist { retry := true; return; }
    if linked.value != Ok { r := Threw(FailedCode); return; }
    ghost var fs2 := h.fs;
    r := SeePublic(h, t, before);
    LinkingTrans(start, fs2, h.fs, t, d);
  }

  /** The last look at the public file through a descriptor opened for append. */
  method StillCurrent(h: Host, current: Reading, ghost d: Dir, t: Id, ghost start: Fs, ghost before: seq<Event>)
    returns (r: Run<bool>)
    requires h.Valid() && KeepLinking(start, h.fs, t, d) && InTree(before, h.trace, t)
    modifies h
    ensures h.Valid() && KeepLinking(start, h.fs, t, d) && InTree(before, h.trace, t)
    ensures r == Done(true) ==> current.Found?
    ensures h.calm && old(Mergeable(h.fs, t)) && current == old(PublicReading(h.fs)) ==> r == Done(true) && h.fs == old(h.fs)
  {
    hide Rely, FileWorld.Valid, Secluded, Shut, Mergeable, PublicReading;
    if Mergeable(h.fs, t) { MergeableReads(h.fs, t); }
    var opening := h.OpenAppend();
    SawInTree(before, old(h.trace), h.trace, t);
    LinkingSame(start, old(h.fs), h.fs, t, d);
    if !opening.Done? { return opening.PropagateFailure(); }
    if current.Missing? || current.inode != opening.value { return Done(false); }
    ghost var fs1 := h.fs;
    var text := h.ReadOpened(opening.value);
    LinkingTrans(start, fs1, h.fs, t, d);
    if !text.Done? { return text.PropagateFailure(); }
    return Done(text.value == current.text);
  }

  /** Replaces the current generation, and only it, by itself, the missing ones, and itself again. */
  method PublishMerged(h: Host, current: Reading, missing: seq<Text>, t: Id, depth: nat, fuel: nat) returns (r: Run<bool>)
    requires h.Valid()
    modifies h
    ensures h.Valid() && KeepTree(old(h.fs), h.fs, t) && InTree(old(h.trace), h.trace, t)
    ensures r.Done? && r.value ==>
      Committed(old(h.fs), old(h.trace), h.trace, t, current, Some(MergedText(TextOf(current), missing)))
    ensures h.calm && old(Ready(h.fs, t)) && current == old(PublicReading(h.fs)) && current.Found? ==>
      r == Done(true) && Swapped(old(h.fs), h.fs, Some(MergedText(TextOf(current), missing)))
    decreases fuel, 8
  {
    hide KeepTree, InTree, Committed, Undone, FileWorld.Valid, Ready, Swapped, PublicReading;
    r := Replace(h, current, Some(MergedText(TextOf(current), missing)), t, depth, fuel);
  }

  /** One pass of the merge loop: `true` when it is finished, `false` to try again. */
  method MergeAttempt(h: Host, d: Dir, required: seq<Text>, t: Id, depth: nat, fuel: nat,
      ghost start: Fs, ghost before: seq<Event>)
    returns (r: Run<bool>, grown: seq<Text>)
    requires h.Valid() && KeepLinking(start, h.fs, t, d) && InTree(before, h.trace, t) && d.place.AtPublic?
    requires fuel > 0
    modifies h
    ensures h.Valid() && KeepLinking(start, h.fs, t, d) && InTree(before, h.trace, t)
    ensures Includes(required, grown)
    ensures r == Done(true) ==> Covered(before, h.trace, required)
    ensures h.calm && old(Mergeable(h.fs, t)) ==>
      && r.Done? && Mergeable(h.fs, t) && OnlyPublicChanged(old(h.fs), h.fs)
      && Round(PublicText(h.fs), grown) == NextRound(Round(old(PublicText(h.fs)), required))
      && (r.value <==> AllKept(grown, PublicText(h.fs)))
    decreases fuel, 0
  {
    hide Lacking, OnlyReturns, Quiet, Rely, FileWorld.Valid, Secluded, Shut, KeepTree, KeepLinking, InTree, Preserved,
      Undone, Committed, MergedText, Covered, Mergeable, PublicText, PublicReading, Ready, Swapped, OnlyPublicChanged,
      Reads, AllKept;
    ghost var undisturbed := h.calm && Mergeable(h.fs, t);
    if undisturbed { MergeableReads(h.fs, t); OnlyPublicSelf(h.fs); }
    grown := required;
    var current, retry;
    current, retry :- ReadOrRelink(h, d, t, start, before);
    if retry { r := Done(false); return; }
    var text := TextOf(current);
    if text !in required { grown := required + [text]; }
    var missing := MissingFrom(grown, text);
    if missing == [] {
      InTreeExtends(before, h.trace, t);
      SawCovers(before, h.trace, current, required, grown);
      r := Done(true);
      return;
    }
    var still :- StillCurrent(h, current, d, t, start, before);
    if !still { r := Done(false); return; }
    ghost var fs1, trace1 := h.fs, h.trace;
    var replaced := PublishMerged(h, current, missing, t, depth, fuel - 1);
    LinkingTrans(start, fs1, h.fs, t, d);
    InTreeTrans(before, trace1, h.trace, t);
    var committed :- replaced;
    if !committed { r := Done(false); return; }
    if undisturbed {
      SwappedIsMergeable(fs1, h.fs, t, MergedText(text, missing));
      MergeableReads(h.fs, t);
    }
    ghost var fs2 := h.fs;
    var rereading := SeePublic(h, t, before);
    LinkingTrans(start, fs2, h.fs, t, d);
    var merged :- rereading;
    var lost := MissingFrom(grown, TextOf(merged));
    if lost == [] {
      InTreeExtends(before, h.trace, t);
      SawCovers(before, h.trace, merged, required, grown);
      r := Done(true);
      return;
    }
    r := Done(false);
  }

  /** The generations without repetitions, in the order in which they were observed first. */
  function Distinct(observed: seq<Text>): seq<Text> {
    if observed == [] then []
    else
      var others := Distinct(observed[..|observed| - 1]);
      if observed[|observed| - 1] in others then others else others + [observed[|observed| - 1]]
  }

  lemma DistinctNone(observed: seq<Text>)
    ensures Distinct(observed[..0]) == []
  {
  }

  lemma DistinctNext(observed: seq<Text>, k: nat)
    requires k < |observed|
    ensures var others := Distinct(observed[..k]);
      Distinct(observed[..k + 1]) == if observed[k] in others then others else others + [observed[k]]
  {
    assert observed[..k + 1][..k] == observed[..k];
  }

  lemma {:induction false} DistinctAre(observed: seq<Text>)
    ensures forall s :: s in Distinct(observed) <==> s in observed
  {
    if observed != [] {
      DistinctAre(observed[..|observed| - 1]);
      assert observed == observed[..|observed| - 1] + [observed[|observed| - 1]];
    }
  }

  /** Left alone, the merge of these generations into the public file completes. */
  ghost predicate MergeSucceeds(fs: Fs, observed: seq<Text>) {
    RetrySucceeds(PublicText(fs), Lacking(Distinct(observed), PublicText(fs)))
  }

  /** The merge loop of an undisturbed Host after so many attempts that did not finish. */
  ghost predicate Merging(a: Fs, b: Fs, t: Id, observed: seq<Text>, required: seq<Text>, attempts: nat) {
    && Mergeable(b, t) && OnlyPublicChanged(a, b)
    && Round(PublicText(b), required) == AfterRounds(PublicText(a), Distinct(observed), attempts)
    && (attempts >= 2 ==> !MergeSucceeds(a, observed))
  }

  lemma MergingStarts(a: Fs, t: Id, observed: seq<Text>)
    requires Mergeable(a, t)
    ensures Merging(a, a, t, observed, Distinct(observed), 0)
  {
  }

  /** The condition for the public text and one other generation, as a caller could check it. */
  lemma MergeSucceedsIff(fs: Fs, source: Text)
    ensures var text := PublicText(fs);
      MergeSucceeds(fs, [source, text])
      <==> Preserved(source, text) || !EndsLine(source) || "" in Split(text) || "" in Body(source)
  {
    hide Preserved, Split, Body, EndsLine, PublicText, Lacking, Distinct;
    var text := PublicText(fs);
    EmptyIsPreserved(text);
    EmptyLineOfNothing();
    DistinctPair(source, text);
    LackingPair(source, text);
  }

  lemma EmptyLineOfNothing()
    ensures "" in Split("")
  {
    assert Split("") == [""];
  }

  lemma DistinctPair(a: Text, b: Text)
    ensures Distinct([a, b]) == if a == b then [a] else [a, b]
  {
    assert [a, b][..1] == [a] && [a][..0] == [];
    assert Distinct([a]) == [a];
  }

  lemma LackingPair(source: Text, text: Text)
    ensures Lacking(if source == text then [source] else [source, text], text) == if Preserved(source, text) then [] else [source]
  {
    hide Preserved;
    PreservedSelf(text);
    assert [source, text][..1] == [source] && [source][..0] == [];
    assert Lacking([source], text) == if Preserved(source, text) then [] else [source];
  }

  /** What the answer of an attempt says about the generations observed at first. */
  lemma MergingOn(a: Fs, b: Fs, c: Fs, t: Id, observed: seq<Text>, required: seq<Text>, grown: seq<Text>, attempts: nat,
      finished: bool)
    requires Merging(a, b, t, observed, required, attempts) && Mergeable(c, t) && OnlyPublicChanged(b, c)
    requires Round(PublicText(c), grown) == NextRound(Round(PublicText(b), required))
    requires finished <==> AllKept(grown, PublicText(c))
    requires Includes(observed, grown)
    ensures OnlyPublicChanged(a, c)
    ensures finished ==> MergeSucceeds(a, observed) && AllKept(observed, PublicText(c))
    ensures !finished ==> Merging(a, c, t, observed, grown, attempts + 1)
  {
    hide RetrySucceeds, Preserved, Lacking, Mergeable, PublicText, OnlyPublicChanged, NextRound, AfterRounds;
    var text := PublicText(a);
    OnlyPublicTrans(a, b, c);
    DistinctAre(observed);
    OneMoreRound(text, Distinct(observed), attempts);
    if MergeSucceeds(a, observed) { TwoRoundsFinish(text, Distinct(observed)); }
    if finished { RoundsSucceed(text, Distinct(observed), attempts + 1); }
  }

  lemma DistinctIncludes(observed: seq<Text>)
    ensures Includes(observed, Distinct(observed))
  {
    DistinctAre(observed);
  }

  method WithoutRepetitions(observed: seq<Text>) returns (distinct: seq<Text>)
    ensures distinct == Distinct(observed)
  {
    hide Distinct;
    distinct := [];
    DistinctNone(observed);
    for k := 0 to |observed|
      invariant distinct == Distinct(observed[..k])
    {
      if observed[k] !in distinct { distinct := distinct + [observed[k]]; }
      DistinctNext(observed, k);
    }
    assert observed[..|observed|] == observed;
  }

  /**
   `mergeCapturedProjectGitExcludeLines`: returns only after the public file held
   every observed generation, line for line.
   */
  method Merge(h: Host, d: Dir, observed: seq<Text>, t: Id, depth: nat, fuel: nat) returns (r: Run<bool>)
    requires h.Valid() && d.place.AtPublic?
    modifies h
    ensures h.Valid() && KeepLinking(old(h.fs), h.fs, t, d) && InTree(old(h.trace), h.trace, t)
    ensures r.Done? ==> Covered(old(h.trace), h.trace, observed)
    ensures h.calm && fuel > 0 && old(Mergeable(h.fs, t)) ==> OnlyPublicChanged(old(h.fs), h.fs)
    ensures h.calm && fuel > 0 && old(Mergeable(h.fs, t) && MergeSucceeds(h.fs, observed)) ==>
      r == Done(true) && AllKept(observed, PublicText(h.fs))
    ensures h.calm && fuel > 0 && old(Mergeable(h.fs, t) && !MergeSucceeds(h.fs, observed)) ==> r == Threw(CollisionCode)
    decreases fuel, 1
  {
    hide Rely, FileWorld.Valid, Secluded, Shut, Mergeable, PublicText, OnlyPublicChanged, AllKept, MergeSucceeds,
      Merging, NextRound, KeepLinking, InTree, Covered, Distinct, Includes;
    LinkingStart(h.fs, t, d);
    TreeStart(h.fs, h.trace, t);
    if fuel == 0 { return Crash; }
    var required := WithoutRepetitions(observed);
    DistinctIncludes(observed);
    ghost var undisturbed := h.calm && Mergeable(h.fs, t);
    if undisturbed { MergingStarts(h.fs, t, observed); }
    var attempt := 0;
    while attempt < COMMIT_ATTEMPTS
      invariant h.Valid() && KeepLinking(old(h.fs), h.fs, t, d) && InTree(old(h.trace), h.trace, t)
      invariant Includes(observed, required)
      invariant undisturbed ==> Merging(old(h.fs), h.fs, t, observed, required, attempt)
      decreases COMMIT_ATTEMPTS - attempt
    {
      ghost var required0, fs1 := required, h.fs;
      if undisturbed { MergingIsMergeable(old(h.fs), fs1, t, observed, required, attempt); }
      var finished;
      finished, required :- MergeAttempt(h, d, required, t, depth, fuel, old(h.fs), old(h.trace));
      IncludesTrans(observed, required0, required);
      if undisturbed {
        MergingOn(old(h.fs), fs1, h.fs, t, observed, required0, required, attempt, finished);
      }
      if finished {
        CoveredFewer(old(h.trace), h.trace, required0, observed);
        return Done(true);
      }
      attempt := attempt + 1;
    }
    if undisturbed { MergingIsMergeable(old(h.fs), h.fs, t, observed, required, attempt); }
    return Threw(CollisionCode);
  }

  lemma MergingIsMergeable(a: Fs, b: Fs, t: Id, observed: seq<Text>, required: seq<Text>, attempts: nat)
    requires Merging(a, b, t, observed, required, attempts)
    ensures Mergeable(b, t) && OnlyPublicChanged(a, b) && (attempts >= 2 ==> !MergeSucceeds(a, observed))
  {
  }

  // -------------------------------------------------------------- release

  /** Private names outside the tree of `t` and outside capture `d` are unchanged. */
  ghost predicate KeepBoth(a: Fs, b: Fs, t: Id, d: Dir) {
    && (forall x :: !Within(x, t) ==> Lookup(a.temps, x) == Lookup(b.temps, x))
    && (forall e: Dir :: !Within(e.purpose.id, t) && e != d ==> Lookup(a.caps, e) == Lookup(b.caps, e))
    && Grows(a, b)
    && (forall e: Dir, i :: !Within(e.purpose.id, t) && e != d && Shut(a, e, i) ==> Shut(b, e, i) && b.data[i] == a.data[i])
  }

  /** Files were taken, read, published or given up only in the tree of `t`, or in `d` read, or given up as file `i`. */
  ghost predicate InBoth(before: seq<Event>, after: seq<Event>, t: Id, d: Dir, i: Inode) {
    && before <= after
    && forall k :: |before| <= k < |after| ==>
         && (after[k].Took? || after[k].Dropped? ==>
              Within(after[k].dir.purpose.id, t) || (after[k].dir == d && after[k].Dropped? && after[k].inode == i))
         && (after[k].Looked? ==> Within(after[k].dir.purpose.id, t) || after[k].dir == d)
         && (after[k].Published? ==> Within(after[k].id, t))
  }

  lemma BothAfterDir(a: Fs, b: Fs, c: Fs, t: Id, d: Dir)
    requires KeepBoth(a, b, t, d) && Keeps(b, c, d) && d.place.AtPublic?
    ensures KeepBoth(a, c, t, d)
  {
  }

  lemma BothAfterTree(a: Fs, b: Fs, c: Fs, t: Id, d: Dir)
    requires KeepBoth(a, b, t, d) && KeepLinking(b, c, t, d)
    ensures KeepBoth(a, c, t, d)
    ensures !Within(d.purpose.id, t) ==> Lookup(c.caps, d) == Lookup(b.caps, d)
  {
  }

  lemma InBothAfter(a: seq<Event>, b: seq<Event>, c: seq<Event>, t: Id, d: Dir, i: Inode)
    requires InBoth(a, b, t, d, i) && (InBoth(b, c, t, d, i) || InTree(b, c, t))
    ensures InBoth(a, c, t, d, i)
  {
  }

  lemma UntouchedByTree(a: seq<Event>, b: seq<Event>, c: seq<Event>, t: Id, d: Dir)
    requires Untouched(a, b, d) && InTree(b, c, t) && !Within(d.purpose.id, t)
    ensures Untouched(a, c, d)
  {
  }

  lemma OneDropInBoth(before: seq<Event>, after: seq<Event>, t: Id, d: Dir, i: Inode, final: Text, start: Fs)
    requires GivesUp(before, after, d, i, final, start)
    ensures InBoth(before, after, t, d, i)
  {
  }

  lemma LooksInBoth(before: seq<Event>, after: seq<Event>, t: Id, d: Dir, i: Inode)
    requires OnlyLooks(before, after, d)
    ensures InBoth(before, after, t, d, i) && Untouched(before, after, d)
  {
  }

  lemma CoveredOnward(a: seq<Event>, b: seq<Event>, c: seq<Event>, sources: seq<Text>)
    requires a <= b <= c && Covered(a, b, sources)
    ensures Covered(a, c, sources)
  {
    CoveredLater(a, a, b, c, sources);
  }

  /** Nothing stands against giving up the captured file, and its text can be merged into the public one. */
  ghost predicate CanReconcile(fs: Fs, t: Id, c: Capture, observed: seq<Text>) {
    && Mergeable(fs, t) && Sealed(fs, c.inode) && Releasable(fs, c)
    && MergeSucceeds(fs, observed + [TextIn(fs, c.inode)])
  }

  /** The same, but left alone the merge never completes. */
  ghost predicate CannotReconcile(fs: Fs, t: Id, c: Capture, observed: seq<Text>) {
    && Mergeable(fs, t) && Sealed(fs, c.inode) && Releasable(fs, c)
    && !MergeSucceeds(fs, observed + [TextIn(fs, c.inode)])
  }

  /** The middle of the release loop: the new text is read and merged into the public file. */
  method MergeChanged(h: Host, c: Capture, required: seq<Text>, t: Id, depth: nat, fuel: nat)
    returns (r: Run<Text>)
    requires h.Valid() && c.Holds(h.fs) && c.dir.place.AtPublic? && !Within(c.dir.purpose.id, t)
    requires fuel > 0
    modifies h
    ensures h.Valid() && KeepLinking(old(h.fs), h.fs, t, c.dir) && c.Holds(h.fs)
    ensures InBoth(old(h.trace), h.trace, t, c.dir, c.inode) && Untouched(old(h.trace), h.trace, c.dir)
    ensures r.Done? ==> InTree(old(h.trace) + [Looked(c.dir, c.inode, r.value)], h.trace, t)
    ensures r.Done? ==> Covered(old(h.trace), h.trace, required + [r.value])
    ensures r.Done? && old(Sealed(h.fs, c.inode)) ==> r.value == old(h.fs).data[c.inode]
    ensures h.calm && fuel > 1 && old(CanReconcile(h.fs, t, c, required)) ==>
      && r == Done(old(h.fs.data[c.inode])) && OnlyPublicChanged(old(h.fs), h.fs)
      && AllKept(required + [r.value], PublicText(h.fs))
    ensures h.calm && fuel > 1 && old(CannotReconcile(h.fs, t, c, required)) ==> r == Threw(CollisionCode)
    decreases fuel, 0
  {
    hide Rely, FileWorld.Valid, Secluded, Shut, Sealed, Covered, InBoth, Untouched, KeepLinking, Links, MergeSucceeds,
      Mergeable, OnlyPublicChanged, AllKept, PublicText;
    var refreshing := Refresh(h, c);
    ghost var fs1, trace1 := h.fs, h.trace;
    LooksInBoth(old(h.trace), trace1, t, c.dir, c.inode);
    LinkingStart(old(h.fs), t, c.dir);
    LinkingTrans(old(h.fs), old(h.fs), fs1, t, c.dir);
    var changed :- refreshing;
    if changed.Missing? { return Threw(FailedCode); }
    var merged := Merge(h, c.dir, required + [changed.text], t, depth, fuel - 1);
    LinkingTrans(old(h.fs), fs1, h.fs, t, c.dir);
    LinkingGrows(fs1, h.fs, t, c.dir);
    InBothAfter(old(h.trace), trace1, h.trace, t, c.dir, c.inode);
    UntouchedByTree(old(h.trace), trace1, h.trace, t, c.dir);
    InTreeExtends(trace1, h.trace, t);
    var _ :- merged;
    CoveredLater(old(h.trace), trace1, h.trace, h.trace, required + [changed.text]);
    return Done(changed.text);
  }

  /**
   One turn of the release loop: where in the history the file was probed, the text
   for which the removal was refused then, and the text read and merged after that.
   */
  datatype Turn = Turn(at: nat, refused: Text, merged: Text)

  /** The text the capture last acknowledged: the only one it can be given up with. */
  function LastFound(first: Text, turns: seq<Turn>): Text {
    if turns == [] then first else turns[|turns| - 1].refused
  }

  function MergedIn(turns: seq<Turn>): seq<Text> {
    seq(|turns|, k requires 0 <= k < |turns| => turns[k].merged)
  }

  /** A captured file was probed and then read where it is offered for release. */
  predicate IsCheck(trace: seq<Event>, k: nat, d: Dir, i: Inode)
    requires k < |trace|
  {
    && trace[k].Probed? && trace[k].inode == i && k + 1 < |trace|
    && trace[k + 1].Looked? && trace[k + 1].dir == d && trace[k + 1].inode == i
  }

  /** The history has the turn: a check, and the reading of the text that was merged. */
  predicate TurnAt(trace: seq<Event>, d: Dir, i: Inode, turn: Turn) {
    && turn.at + 2 < |trace| && IsCheck(trace, turn.at, d, i)
    && trace[turn.at + 1].text == turn.refused && trace[turn.at + 2] == Looked(d, i, turn.merged)
  }

  /**
   The turns are the refused removals of file `i` from capture `d` in a stretch of
   history: no other check is there, each found another text than the one acknowledged
   before, and that text was merged unless the file was public at the probe.
   */
  ghost predicate Refusals(trace: seq<Event>, from: nat, to: nat, d: Dir, i: Inode, first: Text, turns: seq<Turn>) {
    && from <= to <= |trace|
    && (forall k :: 0 <= k < |turns| ==> RefusedAt(trace, from, to, d, i, LastFound(first, turns[..k]), turns[k]))
    && (forall j, k :: 0 <= j < k < |turns| ==> turns[j].at < turns[k].at)
    && (forall k :: from <= k < to && CheckIn(trace, k, to, d, i) ==> Among(turns, k))
  }

  ghost predicate RefusedAt(trace: seq<Event>, from: nat, to: nat, d: Dir, i: Inode, acknowledged: Text, turn: Turn)
    requires to <= |trace|
  {
    && from <= turn.at && turn.at + 2 < to && TurnAt(trace, d, i, turn)
    && turn.refused != acknowledged && (trace[turn.at].public || turn.merged == turn.refused)
  }

  predicate CheckIn(trace: seq<Event>, k: nat, to: nat, d: Dir, i: Inode)
    requires k < |trace|
  {
    k + 1 < to && IsCheck(trace, k, d, i)
  }

  ghost predicate Among(turns: seq<Turn>, at: nat) {
    exists j :: 0 <= j < |turns| && turns[j].at == at
  }

  /** The removal that was not refused follows the stretch. */
  ghost predicate Released(trace: seq<Event>, from: nat, drop: nat, d: Dir, i: Inode, first: Text, turns: seq<Turn>) {
    && drop < |trace| && from + 2 <= drop
    && DropOf(trace, drop, d, i, LastFound(first, turns))
    && Refusals(trace, from, drop - 2, d, i, first, turns)
  }

  lemma RefusalsLater(a: seq<Event>, b: seq<Event>, from: nat, to: nat, d: Dir, i: Inode, first: Text, turns: seq<Turn>)
    requires a <= b && Refusals(a, from, to, d, i, first, turns)
    ensures Refusals(b, from, to, d, i, first, turns)
  {
    hide LastFound, Among;
    forall k | 0 <= k < |turns| ensures RefusedAt(b, from, to, d, i, LastFound(first, turns[..k]), turns[k]) {
      RefusedLater(a, b, from, to, to, d, i, LastFound(first, turns[..k]), turns[k]);
    }
    forall k | from <= k < to && CheckIn(b, k, to, d, i) ensures Among(turns, k) {
      assert CheckIn(a, k, to, d, i);
    }
  }

  lemma RefusedLater(a: seq<Event>, b: seq<Event>, from: nat, to: nat, later: nat, d: Dir, i: Inode, acknowledged: Text, turn: Turn)
    requires a <= b && to <= |a| && to <= later <= |b| && RefusedAt(a, from, to, d, i, acknowledged, turn)
    ensures RefusedAt(b, from, later, d, i, acknowledged, turn)
  {
    var k := turn.at;
    assert b[k] == a[k] && b[k + 1] == a[k + 1] && b[k + 2] == a[k + 2];
  }

  lemma ReleasedLater(a: seq<Event>, b: seq<Event>, from: nat, drop: nat, d: Dir, i: Inode, first: Text, turns: seq<Turn>)
    requires a <= b && Released(a, from, drop, d, i, first, turns)
    ensures Released(b, from, drop, d, i, first, turns)
  {
    RefusalsLater(a, b, from, drop - 2, d, i, first, turns);
    DropOfLater(a, b, drop, d, i, LastFound(first, turns));
  }

  lemma NoRefusal(trace: seq<Event>, d: Dir, i: Inode, first: Text)
    ensures Refusals(trace, |trace|, |trace|, d, i, first, []) && MergedIn([]) == []
  {
  }

  /** One more turn: `x` and the three events of the turn, then nothing more of capture `d`. */
  lemma NextRefusal(x: seq<Event>, z: seq<Event>, from: nat, d: Dir, i: Inode, first: Text, turns: seq<Turn>,
      public: bool, refused: Text, merged: Text, t: Id)
    requires Refusals(x, from, |x|, d, i, first, turns) && refused != LastFound(first, turns)
    requires InTree(TurnEvents(x, d, i, public, refused, merged), z, t) && !Within(d.purpose.id, t)
    requires public || merged == refused
    ensures Refusals(z, from, |z|, d, i, first, turns + [Turn(|x|, refused, merged)])
    ensures MergedIn(turns + [Turn(|x|, refused, merged)]) == MergedIn(turns) + [merged]
  {
    hide LastFound, Among, InTree;
    var turn := Turn(|x|, refused, merged);
    var grown := turns + [turn];
    InTreeExtends(TurnEvents(x, d, i, public, refused, merged), z, t);
    assert x <= z;
    NewTurn(x, z, d, i, public, refused, merged);
    assert turns[..|turns|] == turns;
    forall k | 0 <= k < |grown| ensures RefusedAt(z, from, |z|, d, i, LastFound(first, grown[..k]), grown[k]) {
      assert grown[..k] == turns[..k];
      if k < |turns| {
        RefusedLater(x, z, from, |x|, |z|, d, i, LastFound(first, turns[..k]), turns[k]);
      }
    }
    forall k | from <= k < |z| && CheckIn(z, k, |z|, d, i) ensures Among(grown, k) {
      if k < |x| && CheckIn(x, k, |x|, d, i) {
        AmongMore(turns, turn, k);
      } else {
        NoOtherCheck(x, z, k, d, i, public, refused, merged, t);
        assert grown[|turns|].at == k;
        AmongAt(grown, |turns|);
      }
    }
  }

  function TurnEvents(x: seq<Event>, d: Dir, i: Inode, public: bool, refused: Text, merged: Text): seq<Event> {
    x + CheckEvents(d, i, public, refused) + [Looked(d, i, merged)]
  }

  lemma AmongMore(turns: seq<Turn>, turn: Turn, k: nat)
    requires Among(turns, k)
    ensures Among(turns + [turn], k)
  {
    var j :| 0 <= j < |turns| && turns[j].at == k;
    assert (turns + [turn])[j].at == k;
  }

  lemma AmongAt(turns: seq<Turn>, j: nat)
    requires j < |turns|
    ensures Among(turns, turns[j].at)
  {
  }

  lemma NewTurn(x: seq<Event>, z: seq<Event>, d: Dir, i: Inode, public: bool, refused: Text, merged: Text)
    requires TurnEvents(x, d, i, public, refused, merged) <= z
    ensures TurnAt(z, d, i, Turn(|x|, refused, merged)) && z[|x|].public == public
  {
    var y := TurnEvents(x, d, i, public, refused, merged);
    assert y[|x|] == Probed(i, public) && y[|x| + 1] == Looked(d, i, refused) && y[|x| + 2] == Looked(d, i, merged);
    assert z[|x|] == y[|x|] && z[|x| + 1] == y[|x| + 1] && z[|x| + 2] == y[|x| + 2];
  }

  lemma NoOtherCheck(x: seq<Event>, z: seq<Event>, k: nat, d: Dir, i: Inode, public: bool, refused: Text, merged: Text, t: Id)
    requires InTree(TurnEvents(x, d, i, public, refused, merged), z, t) && !Within(d.purpose.id, t)
    requires k < |z|
    ensures CheckIn(z, k, |z|, d, i) && !(k < |x| && CheckIn(x, k, |x|, d, i)) ==> k == |x|
  {
    var y := TurnEvents(x, d, i, public, refused, merged);
    assert forall m :: 0 <= m < |y| ==> z[m] == y[m];
    assert forall m :: 0 <= m < |x| ==> y[m] == x[m];
    assert y[|x|] == Probed(i, public) && y[|x| + 1] == Looked(d, i, refused);
    assert forall m :: |y| <= m < |z| && z[m].Looked? ==> z[m].dir != d;
  }

  /**
   The text given up was public, line for line, together with all that was observed,
   if it is one of the texts observed or merged; and so whenever the probe of the last
   refused removal found no public name.
   */
  lemma GivenUpIsCovered(trace: seq<Event>, from: nat, drop: nat, d: Dir, i: Inode, first: Text, turns: seq<Turn>,
      before: seq<Event>, observed: seq<Text>)
    requires Released(trace, from, drop, d, i, first, turns)
    requires Covered(before, trace, observed + MergedIn(turns))
    requires
      || LastFound(first, turns) in observed + MergedIn(turns)
      || exists k: nat :: LastCheckBefore(trace, from, k, drop, d, i) && !trace[k].public
    ensures trace[drop - 1] == Looked(d, i, LastFound(first, turns))
    ensures Covered(before, trace, observed + [LastFound(first, turns)])
  {
    hide Covered;
    if k: nat :| LastCheckBefore(trace, from, k, drop, d, i) && !trace[k].public {
      LastTurnIs(trace, from, drop, d, i, first, turns, k);
    }
    CoveredFewer(before, trace, observed + MergedIn(turns), observed + [LastFound(first, turns)]);
  }

  lemma LastTurnIs(trace: seq<Event>, from: nat, drop: nat, d: Dir, i: Inode, first: Text, turns: seq<Turn>, k: nat)
    requires Released(trace, from, drop, d, i, first, turns)
    requires LastCheckBefore(trace, from, k, drop, d, i) && !trace[k].public
    ensures LastFound(first, turns) in MergedIn(turns)
  {
    assert CheckIn(trace, k, drop - 2, d, i);
    assert Among(turns, k);
    var j :| 0 <= j < |turns| && turns[j].at == k;
    var n := |turns| - 1;
    assert RefusedAt(trace, from, drop - 2, d, i, LastFound(first, turns[..n]), turns[n]);
    assert RefusedAt(trace, from, drop - 2, d, i, LastFound(first, turns[..j]), turns[j]);
    assert IsCheck(trace, turns[n].at, d, i);
    assert turns[n].at <= k;
    assert MergedIn(turns)[n] == turns[n].merged;
  }

  /** The probe of the last removal that was refused before the one that went through. */
  ghost predicate LastCheckBefore(trace: seq<Event>, from: nat, k: nat, drop: nat, d: Dir, i: Inode) {
    && from <= k && k + 1 < drop - 2 < |trace| && IsCheck(trace, k, d, i)
    && forall l :: k < l < drop - 3 ==> !IsCheck(trace, l, d, i)
  }

  /** One removal of the release loop. */
  method TryRelease(h: Host, c: Capture, t: Id) returns (r: Run<bool>, ghost public: bool)
    requires h.Valid() && c.Holds(h.fs) && c.dir.place.AtPublic? && c.Acknowledged(h.trace)
    modifies h, c
    ensures h.Valid() && KeepBoth(old(h.fs), h.fs, t, c.dir) && InBoth(old(h.trace), h.trace, t, c.dir, c.inode)
    ensures r == Done(true) ==> !c.active && c.dir !in h.fs.caps
    ensures r == Done(false) ==> c.Holds(h.fs) && c.current != old(c.current) && !old(Unaltered(h.fs, c))
    ensures r == Done(false) ==> h.trace == old(h.trace) + CheckEvents(c.dir, c.inode, public, c.current)
    ensures r == Done(false) && !public ==> Sealed(h.fs, c.inode) && h.fs.data[c.inode] == c.current
    ensures h.calm && old(Unaltered(h.fs, c) && Releasable(h.fs, c)) ==>
      r == Done(true) && h.fs == old(WithoutCap(h.fs, c.dir))
    ensures h.calm && old(Releasable(h.fs, c) && h.fs.data[c.inode] != c.current) ==>
      r == Done(false) && h.fs == old(h.fs) && c.current == h.fs.data[c.inode]
    ensures c.active ==> Untouched(old(h.trace), h.trace, c.dir)
    ensures !c.active ==> DropLast(old(h.trace), h.trace, c.dir, c.inode, old(c.current))
    ensures !c.active && old(Unaltered(h.fs, c)) ==> h.trace[|h.trace| - 1] == Dropped(c.dir, c.inode, old(c.current), true)
  {
    hide Rely, FileWorld.Valid, Secluded, Shut, Links;
    r, public := Remove(h, c);
    KeepBothStart(old(h.fs), t, c.dir);
    BothAfterDir(old(h.fs), old(h.fs), h.fs, t, c.dir);
    if c.active {
      LooksInBoth(old(h.trace), h.trace, t, c.dir, c.inode);
    } else {
      OneDropInBoth(old(h.trace), h.trace, t, c.dir, c.inode, old(c.current), old(h.fs));
      DropIsLast(old(h.trace), h.trace, c.dir, c.inode, old(c.current), old(h.fs));
    }
  }

  /** Exactly a probe, a reading, and the giving up. */
  ghost predicate DropLast(before: seq<Event>, after: seq<Event>, d: Dir, i: Inode, final: Text) {
    before <= after && |after| == |before| + 3 && DropOf(after, |before| + 2, d, i, final)
  }

  lemma DropLength(before: seq<Event>, after: seq<Event>, d: Dir, i: Inode, final: Text)
    ensures DropLast(before, after, d, i, final) ==> |after| == |before| + 3
  {
  }

  lemma DropIsLast(before: seq<Event>, after: seq<Event>, d: Dir, i: Inode, final: Text, start: Fs)
    requires GivesUp(before, after, d, i, final, start)
    ensures DropLast(before, after, d, i, final)
    ensures !Visible(start, i) ==> after[|after| - 1] == Dropped(d, i, final, true)
  {
  }

  lemma KeepBothStart(fs: Fs, t: Id, d: Dir)
    ensures KeepBoth(fs, fs, t, d)
  {
  }

  lemma KeepBothTrans(a: Fs, b: Fs, c: Fs, t: Id, d: Dir)
    requires KeepBoth(a, b, t, d) && KeepBoth(b, c, t, d)
    ensures KeepBoth(a, c, t, d)
  {
  }

  lemma UntouchedTrans(a: seq<Event>, b: seq<Event>, c: seq<Event>, d: Dir)
    requires Untouched(a, b, d) && Untouched(b, c, d)
    ensures Untouched(a, c, d)
  {
  }

  /** One turn of the release loop: a removal, and if it is refused the merge of what is read then. */
  method ReleaseTurn(h: Host, c: Capture, required: seq<Text>, t: Id, depth: nat, fuel: nat)
    returns (r: Run<bool>, found: Text, ghost public: bool)
    requires h.Valid() && c.Holds(h.fs) && c.dir.place.AtPublic? && !Within(c.dir.purpose.id, t)
    requires fuel > 0 && c.Acknowledged(h.trace)
    modifies h, c
    ensures h.Valid() && KeepBoth(old(h.fs), h.fs, t, c.dir) && InBoth(old(h.trace), h.trace, t, c.dir, c.inode)
    ensures r == Done(true) ==> !c.active && c.dir !in h.fs.caps
    ensures h.calm && old(Unaltered(h.fs, c) && Releasable(h.fs, c)) ==>
      r == Done(true) && h.fs == old(WithoutCap(h.fs, c.dir))
    ensures c.active ==> Untouched(old(h.trace), h.trace, c.dir)
    ensures !c.active ==> DropLast(old(h.trace), h.trace, c.dir, c.inode, old(c.current))
    ensures !c.active && old(Unaltered(h.fs, c)) ==> h.trace[|h.trace| - 1] == Dropped(c.dir, c.inode, old(c.current), true)
    ensures r == Done(false) ==>
      && c.Holds(h.fs) && c.current != old(c.current) && !old(Unaltered(h.fs, c))
      && InTree(TurnEvents(old(h.trace), c.dir, c.inode, public, c.current, found), h.trace, t)
      && (public || found == c.current)
      && Covered(old(h.trace), h.trace, required + [found])
    ensures h.calm && fuel > 1 && old(CanReconcile(h.fs, t, c, required) && h.fs.data[c.inode] != c.current) ==>
      && r == Done(false) && found == old(h.fs.data[c.inode]) && Unaltered(h.fs, c) && Releasable(h.fs, c)
      && OnlyPublicChanged(old(h.fs), h.fs) && AllKept(required + [found], PublicText(h.fs))
    ensures h.calm && fuel > 1 && old(CannotReconcile(h.fs, t, c, required) && h.fs.data[c.inode] != c.current) ==>
      r == Threw(CollisionCode) && c.active
    decreases fuel, 1
  {
    hide Rely, FileWorld.Valid, Secluded, Shut, KeepBoth, InBoth, Covered, Sealed, Untouched, DropLast, Unaltered,
      Releasable, WithoutCap, CanReconcile, CannotReconcile, OnlyPublicChanged, AllKept, PublicText;
    found := "";
    r, public := TryRelease(h, c, t);
    if CanReconcile(old(h.fs), t, c, required) || CannotReconcile(old(h.fs), t, c, required) {
      ReconcilesReleasable(old(h.fs), t, c, required);
    }
    if r != Done(false) { return; }
    ghost var fs2, trace2 := h.fs, h.trace;
    var merging := MergeChanged(h, c, required, t, depth, fuel);
    BothAfterTree(old(h.fs), fs2, h.fs, t, c.dir);
    InBothExtends(trace2, h.trace, t, c.dir, c.inode);
    InBothAfter(old(h.trace), trace2, h.trace, t, c.dir, c.inode);
    UntouchedTrans(old(h.trace), trace2, h.trace, c.dir);
    if !merging.Done? { r := merging.PropagateFailure(); return; }
    found := merging.value;
    if h.calm && fuel > 1 && CanReconcile(fs2, t, c, required) && Unaltered(fs2, c) {
      ReconcilesReleasable(fs2, t, c, required);
      StaysReleasable(fs2, h.fs, c);
    }
    CoveredLater(old(h.trace), trace2, h.trace, h.trace, required + [found]);
  }

  lemma ReconcilesReleasable(fs: Fs, t: Id, c: Capture, observed: seq<Text>)
    requires CanReconcile(fs, t, c, observed) || CannotReconcile(fs, t, c, observed)
    ensures Releasable(fs, c) && c.inode in fs.data && (fs.data[c.inode] == c.current ==> Unaltered(fs, c))
  {
  }

  /**
   `releaseCapturedProjectGitExclude`: the captured file is given up with the text
   it was captured with, or with the text of the last refused removal, after
   whatever was read next was merged. A file that nobody can write is given up at once.
   */
  method ReleaseCapture(h: Host, c: Capture, observed: seq<Text>, t: Id, depth: nat, fuel: nat)
    returns (r: Run<bool>, ghost turns: seq<Turn>)
    requires h.Valid() && c.Holds(h.fs) && c.dir.place.AtPublic? && !Within(c.dir.purpose.id, t)
    requires c.Acknowledged(h.trace)
    modifies h, c
    ensures h.Valid() && KeepBoth(old(h.fs), h.fs, t, c.dir) && InBoth(old(h.trace), h.trace, t, c.dir, c.inode)
    ensures r.Done? ==> !c.active && c.dir !in h.fs.caps
    ensures h.calm && fuel > 0 && old(Unaltered(h.fs, c) && Releasable(h.fs, c)) ==>
      r == Done(true) && h.fs == old(WithoutCap(h.fs, c.dir))
    ensures h.calm && fuel > 1 && old(CanReconcile(h.fs, t, c, observed) && h.fs.data[c.inode] != c.current) ==>
      && r == Done(true) && |turns| == 1
      && AllKept(observed + [old(h.fs.data[c.inode])], PublicText(h.fs))
      && OnlyPublicChanged(old(WithoutCap(h.fs, c.dir)), h.fs)
    ensures h.calm && fuel > 1 && old(CannotReconcile(h.fs, t, c, observed) && h.fs.data[c.inode] != c.current) ==>
      r == Threw(CollisionCode) && c.active
    ensures c.active ==> Untouched(old(h.trace), h.trace, c.dir)
    ensures !c.active ==>
      |h.trace| > 0 && Released(h.trace, |old(h.trace)|, |h.trace| - 1, c.dir, c.inode, old(c.current), turns)
    ensures turns != [] ==> Covered(old(h.trace), h.trace, observed + MergedIn(turns))
    ensures r.Done? && turns == [] ==> |h.trace| == |old(h.trace)| + 3
    ensures old(Unaltered(h.fs, c)) ==> turns == []
    ensures old(Unaltered(h.fs, c)) && !c.active ==>
      h.trace[|h.trace| - 1] == Dropped(c.dir, c.inode, old(c.current), true)
    decreases fuel, 2, 0
  {
    hide Rely, FileWorld.Valid, Secluded, Shut, KeepBoth, InBoth, Covered, Released, Releasing, Sealed, Untouched,
      Unaltered, DropLast, InTree, MergedIn, Releasable, WithoutCap, CanReconcile, CannotReconcile, OnlyPublicChanged,
      AllKept, PublicText, Reconciling, Capture.Acknowledged, TurnEvents, LastFound, Within, MergeSucceeds, Mergeable;
    turns := [];
    ghost var altered := h.calm && fuel > 1 && h.fs.data[c.inode] != c.current;
    ghost var a, x, first := h.fs, h.trace, c.current;
    ReleaseStart(a, x, t, c.dir, c.inode, first, observed);
    ReleasingStops(a, a, a, x, x, x, t, c.dir, c.inode, first, first, observed, observed, turns);
    if fuel == 0 { r := Crash; return; }
    var required := observed;
    var attempt := 0;
    while attempt < COMMIT_ATTEMPTS
      invariant h.Valid() && c.Holds(h.fs) && c.Acknowledged(h.trace)
      invariant Releasing(a, h.fs, x, h.trace, t, c.dir, c.inode, first, c.current, observed, required, turns)
      invariant old(Unaltered(h.fs, c)) ==> turns == [] && Unaltered(h.fs, c)
      invariant h.calm && old(Unaltered(h.fs, c) && Releasable(h.fs, c)) ==> attempt == 0 && h.fs == old(h.fs)
      invariant turns == [] ==> c.current == first && h.trace == x && required == observed
      invariant altered && CanReconcile(a, t, c, observed) ==>
        attempt == |turns| <= 1 && if attempt == 0 then h.fs == a else Reconciling(a, h.fs, c, observed)
      invariant altered && CannotReconcile(a, t, c, observed) ==> attempt == |turns| == 0 && h.fs == a
      decreases COMMIT_ATTEMPTS - attempt
    {
      ghost var b, y, current := h.fs, h.trace, c.current;
      if altered && CanReconcile(a, t, c, observed) && turns != [] { ReconcilingEnds(a, b, c, observed); }
      var turning, found;
      ghost var public;
      turning, found, public := ReleaseTurn(h, c, required, t, depth, fuel);
      ReleasingStops(a, b, h.fs, x, y, h.trace, t, c.dir, c.inode, first, current, observed, required, turns);
      var removed :- turning;
      DropLength(y, h.trace, c.dir, c.inode, current);
      if altered && CanReconcile(a, t, c, observed) && !removed { ReconcilingStarts(a, h.fs, c, observed); }
      if removed { r := Done(true); return; }
      ReleasingOn(a, b, h.fs, x, y, h.trace, t, c.dir, c.inode, first, current, observed, required, turns,
        public, c.current, found);
      TurnAcknowledges(y, h.trace, c, public, found, t);
      turns := turns + [Turn(|y|, c.current, found)];
      required := required + [found];
      attempt := attempt + 1;
    }
    ReleasingStops(a, h.fs, h.fs, x, h.trace, h.trace, t, c.dir, c.inode, first, c.current, observed, required, turns);
    r := Threw(CollisionCode);
  }

  /** The changed text of the captured file is merged, and the file can go. */
  ghost predicate Reconciling(a: Fs, b: Fs, c: Capture, observed: seq<Text>)
    reads c
  {
    && Unaltered(b, c) && Releasable(b, c) && OnlyPublicChanged(a, b)
    && AllKept(observed + [TextIn(a, c.inode)], PublicText(b))
  }

  lemma ReconcilingStarts(a: Fs, b: Fs, c: Capture, observed: seq<Text>)
    requires Unaltered(b, c) && Releasable(b, c) && OnlyPublicChanged(a, b)
    requires AllKept(observed + [TextIn(a, c.inode)], PublicText(b))
    ensures Reconciling(a, b, c, observed)
  {
  }

  lemma ReconcilingEnds(a: Fs, b: Fs, c: Capture, observed: seq<Text>)
    requires Reconciling(a, b, c, observed)
    ensures Unaltered(b, c) && Releasable(b, c)
    ensures OnlyPublicChanged(WithoutCap(a, c.dir), WithoutCap(b, c.dir))
    ensures AllKept(observed + [TextIn(a, c.inode)], PublicText(WithoutCap(b, c.dir)))
  {
    SamePublicText(b, c.dir);
  }

  /** Between two turns of the release loop. */
  ghost predicate Releasing(a: Fs, b: Fs, x: seq<Event>, y: seq<Event>, t: Id, d: Dir, i: Inode, first: Text, current: Text,
      observed: seq<Text>, required: seq<Text>, turns: seq<Turn>)
  {
    && KeepBoth(a, b, t, d) && InBoth(x, y, t, d, i) && Untouched(x, y, d)
    && Refusals(y, |x|, |y|, d, i, first, turns) && current == LastFound(first, turns)
    && required == observed + MergedIn(turns) && (turns != [] ==> Covered(x, y, required))
  }

  lemma ReleasingOn(a: Fs, b: Fs, c: Fs, x: seq<Event>, y: seq<Event>, z: seq<Event>, t: Id, d: Dir, i: Inode, first: Text,
      current: Text, observed: seq<Text>, required: seq<Text>, turns: seq<Turn>, public: bool, refused: Text, found: Text)
    requires Releasing(a, b, x, y, t, d, i, first, current, observed, required, turns)
    requires KeepBoth(b, c, t, d) && InBoth(y, z, t, d, i) && Untouched(y, z, d) && !Within(d.purpose.id, t)
    requires refused != current && (public || found == refused) && Covered(y, z, required + [found])
    requires InTree(TurnEvents(y, d, i, public, refused, found), z, t)
    ensures Releasing(a, c, x, z, t, d, i, first, refused, observed, required + [found], turns + [Turn(|y|, refused, found)])
  {
    hide KeepBoth, InBoth, Untouched, Refusals, Covered, MergedIn, InTree;
    InBothExtends(x, y, t, d, i);
    InBothExtends(y, z, t, d, i);
    KeepBothTrans(a, b, c, t, d);
    InBothAfter(x, y, z, t, d, i);
    UntouchedTrans(x, y, z, d);
    NextRefusal(y, z, |x|, d, i, first, turns, public, refused, found, t);
    Associate(observed, MergedIn(turns), [found]);
    CoveredLater(x, y, z, z, required + [found]);
  }

  lemma ReleasingStops(a: Fs, b: Fs, c: Fs, x: seq<Event>, y: seq<Event>, z: seq<Event>, t: Id, d: Dir, i: Inode, first: Text,
      current: Text, observed: seq<Text>, required: seq<Text>, turns: seq<Turn>)
    requires Releasing(a, b, x, y, t, d, i, first, current, observed, required, turns)
    requires (c == b && z == y) || (KeepBoth(b, c, t, d) && InBoth(y, z, t, d, i))
    ensures KeepBoth(a, c, t, d) && InBoth(x, z, t, d, i)
    ensures z == y || Untouched(y, z, d) ==> Untouched(x, z, d)
    ensures DropLast(y, z, d, i, current) ==> |z| > 0 && Released(z, |x|, |z| - 1, d, i, first, turns)
    ensures turns != [] ==> Covered(x, z, observed + MergedIn(turns))
  {
    hide KeepBoth, InBoth, Untouched, Refusals, Covered, MergedIn, Released, DropLast;
    if !(c == b && z == y) {
      KeepBothTrans(a, b, c, t, d);
      InBothAfter(x, y, z, t, d, i);
      InBothExtends(y, z, t, d, i);
      InBothExtends(x, y, t, d, i);
      if turns != [] { CoveredOnward(x, y, z, required); }
      if Untouched(y, z, d) { UntouchedTrans(x, y, z, d); }
    }
    if DropLast(y, z, d, i, current) {
      ReleaseEnds(y, z, |x|, d, i, first, turns);
    }
  }

  lemma TurnAcknowledges(x: seq<Event>, z: seq<Event>, c: Capture, public: bool, found: Text, t: Id)
    requires InTree(TurnEvents(x, c.dir, c.inode, public, c.current, found), z, t)
    ensures c.Acknowledged(z)
  {
    var y := TurnEvents(x, c.dir, c.inode, public, c.current, found);
    assert y[|x| + 1] == Looked(c.dir, c.inode, c.current) && z[|x| + 1] == y[|x| + 1];
  }

  lemma AcknowledgedLater(x: seq<Event>, y: seq<Event>, c: Capture)
    requires x <= y && c.Acknowledged(x)
    ensures c.Acknowledged(y)
  {
  }

  lemma ReleaseStart(fs: Fs, trace: seq<Event>, t: Id, d: Dir, i: Inode, first: Text, observed: seq<Text>)
    ensures Releasing(fs, fs, trace, trace, t, d, i, first, first, observed, observed, [])
  {
    assert MergedIn([]) == [];
  }

  lemma ReleaseEnds(x: seq<Event>, z: seq<Event>, from: nat, d: Dir, i: Inode, first: Text, turns: seq<Turn>)
    requires Refusals(x, from, |x|, d, i, first, turns) && DropLast(x, z, d, i, LastFound(first, turns))
    ensures |z| > 0 && Released(z, from, |z| - 1, d, i, first, turns)
  {
    hide RefusedAt, CheckIn, Among;
    RefusalsLater(x, z, from, |x|, d, i, first, turns);
  }

  // ------------------------------------------------------------- rollback

  lemma DirInTree(a: Fs, b: Fs, c: Fs, d: Dir, t: Id)
    requires KeepTree(a, b, t) && Keeps(b, c, d) && Within(d.purpose.id, t)
    requires d.place.AtTemp? ==> d.place.id == d.purpose.id
    ensures KeepTree(a, c, t)
  {
    KeepsInTree(b, c, d, t);
    KeepTreeTrans(a, b, c, t);
  }

  lemma BothInTree(a: Fs, b: Fs, c: Fs, t: Id, d: Dir)
    requires KeepTree(a, b, t) && KeepBoth(b, c, Reconcile(t), d) && d.purpose.id == t
    ensures KeepTree(a, c, t)
    ensures forall e: Dir :: e.purpose.id == t && e != d ==> Lookup(c.caps, e) == Lookup(b.caps, e)
    ensures d != TempDir(t) ==> SameTemp(b, c, t)
  {
    OwnIdIsOutside(t);
    forall x | Within(x, Reconcile(t)) ensures Within(x, t) {
      WithinTrans(x, Reconcile(t), t);
    }
  }

  /** Whatever capture `d` gave up was file `i`. */
  ghost predicate DropsOnly(before: seq<Event>, after: seq<Event>, d: Dir, i: Inode) {
    forall k :: |before| <= k < |after| && after[k].Dropped? && after[k].dir == d ==> after[k].inode == i
  }

  lemma BothEventsInTree(a: seq<Event>, b: seq<Event>, c: seq<Event>, t: Id, d: Dir, i: Inode)
    requires InTree(a, b, t) && InBoth(b, c, Reconcile(t), d, i) && d.purpose.id == t
    ensures InTree(a, c, t)
    ensures forall e: Dir :: e.purpose.id == t && e != d ==> Untouched(b, c, e)
    ensures d != ReplaceDir(t) ==> Quiet(b, c, t)
    ensures DropsOnly(b, c, d, i) && NotPublished(b, c, t)
  {
    OwnIdIsOutside(t);
    forall x | Within(x, Reconcile(t)) ensures Within(x, t) {
      WithinTrans(x, Reconcile(t), t);
    }
  }

  lemma TakesInTree(a: seq<Event>, b: seq<Event>, c: seq<Event>, d: Dir, t: Id)
    requires InTree(a, b, t) && (OnlyTakes(b, c, d) || OnlyReturns(b, c)) && Within(d.purpose.id, t)
    ensures InTree(a, c, t)
  {
  }

  /** `CaptureFile` together with what the recovery of `t` keeps track of. */
  method CaptureIn(h: Host, d: Dir, maximumLinks: nat, t: Id, ghost start: Fs, ghost before: seq<Event>)
    returns (r: Run<Capture?>)
    requires h.Valid() && KeepTree(start, h.fs, t) && InTree(before, h.trace, t)
    requires d.place.AtPublic? && d.purpose.id == t
    modifies h
    ensures h.Valid() && KeepTree(start, h.fs, t) && InTree(before, h.trace, t)
    ensures Quiet(old(h.trace), h.trace, t)
    ensures old(h.trace) <= h.trace && Keeps(old(h.fs), h.fs, d) && OnlyTakes(old(h.trace), h.trace, d)
    ensures r.Done? ==> Shields(old(h.fs), h.fs)
    ensures r.Done? && r.value != null ==>
      && fresh(r.value) && r.value.dir == d && r.value.Holds(h.fs) && r.value.current == r.value.source
      && r.value.Acknowledged(h.trace)
      && (maximumLinks == 1 ==> Sole(h.fs, d, r.value.inode))
      && (if old(SlotFile(h.fs, d).Some?)
          then old(SlotFile(h.fs, d)) == Some(r.value.inode)
               && h.trace == old(h.trace) + [Looked(d, r.value.inode, r.value.source)]
          else h.trace == old(h.trace) + [Took(d, r.value.inode), Looked(d, r.value.inode, r.value.source)])
      && (r.value.inode in old(SealedFiles(h.fs)) ==> r.value.source == old(h.fs).data[r.value.inode])
      && old(CapturedIn(h.fs, d)) in {None, Some(r.value.inode)} && old(ReleaseIn(h.fs, d)) in {None, Some(r.value.inode)}
    ensures r == Done(null) ==> h.trace == old(h.trace) + FoundNothing(old(h.fs), d)
    ensures r.Done? && r.value != null ==> r.value.maximumLinks == maximumLinks
    ensures h.calm && old(d !in h.fs.caps && At(h.fs, BasePath(d)).None?) ==> r == Done(null) && h.fs == old(h.fs)
    ensures h.calm && old(Takable(h.fs, d, maximumLinks)) ==>
      && r.Done? && r.value != null && h.fs == old(TakenFs(h.fs, d))
      && r.value.inode == old(At(h.fs, BasePath(d)).value) && r.value.source == TextIn(old(h.fs), r.value.inode)
    ensures h.calm && old(ResumableWith(h.fs, d, maximumLinks)) ==>
      && r.Done? && r.value != null && h.fs == old(ResumedFs(h.fs, d))
      && r.value.source == TextIn(old(h.fs), r.value.inode)
    ensures r == Done(null) ==> SlotFile(h.fs, d).None? && old(SlotFile(h.fs, d)).None?
  {
    hide Rely, FileWorld.Valid, Secluded, Shut, Sealed, Links, TakenFs, ResumedFs;
    r := CaptureFile(h, d, maximumLinks);
    DirInTree(start, old(h.fs), h.fs, d, t);
    TakesInTree(before, old(h.trace), h.trace, d, t);
  }

  /** `Restore` likewise. */
  method RestoreIn(h: Host, c: Capture, t: Id, ghost start: Fs, ghost before: seq<Event>) returns (r: Run<bool>)
    requires h.Valid() && KeepTree(start, h.fs, t) && InTree(before, h.trace, t)
    requires c.dir.place.AtPublic? && c.dir.purpose.id == t
    modifies h, c`active
    ensures h.Valid() && KeepTree(start, h.fs, t) && InTree(before, h.trace, t)
    ensures Keeps(old(h.fs), h.fs, c.dir) && OnlyReturns(old(h.trace), h.trace) && Quiet(old(h.trace), h.trace, t)
    ensures old(c.Owns(h.fs)) ==> c.Owns(h.fs)
    ensures r.Done? ==> !c.active
    ensures old(c.active) && r.Done? ==>
      && old(CapturedIn(h.fs, c.dir)).Some?
      && ReturnedSince(old(h.trace), h.trace, old(CapturedIn(h.fs, c.dir)).value)
      && c.dir !in h.fs.caps
    ensures !r.Done? ==> c.active
    ensures h.calm && old(c.Holds(h.fs) && At(h.fs, BasePath(c.dir)).None?) ==>
      r == Done(true) && h.fs == SetBase(WithoutCap(old(h.fs), c.dir), c.dir, c.inode)
  {
    hide Rely, FileWorld.Valid, Secluded, Shut, WithoutCap;
    r := Restore(h, c);
    DirInTree(start, old(h.fs), h.fs, c.dir, t);
    TakesInTree(before, old(h.trace), h.trace, c.dir, t);
  }

  /** `ReleaseCapture` with its merges in the tree derived from `t`, seen from the tree of `t`. */
  method ReleaseFromTree(h: Host, c: Capture, observed: seq<Text>, t: Id, depth: nat, fuel: nat,
      ghost start: Fs, ghost before: seq<Event>)
    returns (r: Run<bool>, ghost turns: seq<Turn>)
    requires h.Valid() && KeepTree(start, h.fs, t) && InTree(before, h.trace, t)
    requires c.Holds(h.fs) && c.dir.place.AtPublic? && c.dir.purpose.id == t && c.Acknowledged(h.trace)
    modifies h, c
    ensures h.Valid() && KeepTree(start, h.fs, t) && InTree(before, h.trace, t) && old(h.trace) <= h.trace
    ensures SameTemp(old(h.fs), h.fs, t)
    ensures forall e: Dir :: e.purpose.id == t && e != c.dir ==>
      Lookup(h.fs.caps, e) == old(Lookup(h.fs.caps, e)) && Untouched(old(h.trace), h.trace, e) && ShutIn(old(h.fs), h.fs, e)
    ensures DropsOnly(old(h.trace), h.trace, c.dir, c.inode)
    ensures c.dir != ReplaceDir(t) ==> Quiet(old(h.trace), h.trace, t)
    ensures NotPublished(old(h.trace), h.trace, t)
    ensures r.Done? ==> !c.active && c.dir !in h.fs.caps
    ensures c.active ==> Untouched(old(h.trace), h.trace, c.dir)
    ensures !c.active ==>
      |h.trace| > 0 && Released(h.trace, |old(h.trace)|, |h.trace| - 1, c.dir, c.inode, old(c.current), turns)
    ensures turns != [] ==> Covered(old(h.trace), h.trace, observed + MergedIn(turns))
    ensures h.calm && fuel > 0 && old(Unaltered(h.fs, c) && Releasable(h.fs, c)) ==>
      r == Done(true) && h.fs == old(WithoutCap(h.fs, c.dir))
    ensures r.Done? && turns == [] ==> NothingPublished(old(h.trace), h.trace)
    ensures old(Unaltered(h.fs, c)) ==> turns == []
    ensures old(Unaltered(h.fs, c)) && !c.active ==>
      h.trace[|h.trace| - 1] == Dropped(c.dir, c.inode, old(c.current), true)
    decreases fuel, 2, 1
  {
    hide Rely, FileWorld.Valid, Secluded, Shut, KeepTree, InTree, Covered, Released, KeepBoth, InBoth, Unaltered,
      ShutIn, NothingPublished, Releasable, WithoutCap;
    OwnIdIsOutside(t);
    ghost var fs1, trace1 := h.fs, h.trace;
    r, turns := ReleaseCapture(h, c, observed, Reconcile(t), depth, fuel);
    BothInTree(start, fs1, h.fs, t, c.dir);
    forall e: Dir | e.purpose.id == t && e != c.dir ensures ShutIn(fs1, h.fs, e) {
      ShutInBoth(fs1, h.fs, e, t, c.dir);
    }
    BothEventsInTree(before, trace1, h.trace, t, c.dir, c.inode);
    InBothExtends(trace1, h.trace, Reconcile(t), c.dir, c.inode);
    if r.Done? && turns == [] { ReleasedPublishesNothing(trace1, h.trace, c.dir, c.inode, old(c.current)); }
  }

  /** No file at all was given the public name by a publication. */
  ghost predicate NothingPublished(before: seq<Event>, after: seq<Event>) {
    before <= after && forall k :: |before| <= k < |after| ==> !after[k].Published?
  }

  lemma NothingPublishedTrans(x: seq<Event>, y: seq<Event>, z: seq<Event>)
    requires NothingPublished(x, y) && NothingPublished(y, z)
    ensures NothingPublished(x, z)
  {
  }

  lemma ReleasedPublishesNothing(x: seq<Event>, z: seq<Event>, d: Dir, i: Inode, final: Text)
    requires x <= z && |z| == |x| + 3 && Released(z, |x|, |z| - 1, d, i, final, [])
    ensures NothingPublished(x, z)
  {
  }

  lemma ShutInBoth(a: Fs, b: Fs, e: Dir, t: Id, d: Dir)
    requires KeepBoth(a, b, Reconcile(t), d) && e.purpose.id == t && e != d
    ensures ShutIn(a, b, e)
  {
    OwnIdIsOutside(t);
  }

  lemma InBothExtends(a: seq<Event>, b: seq<Event>, t: Id, d: Dir, i: Inode)
    requires InBoth(a, b, t, d, i)
    ensures a <= b
  {
  }

  /** Shut files of capture `d` stay shut, with their text. */
  ghost predicate ShutIn(a: Fs, b: Fs, d: Dir) {
    forall i :: Shut(a, d, i) ==> Shut(b, d, i) && b.data[i] == a.data[i]
  }

  lemma ShutInTrans(a: Fs, b: Fs, c: Fs, d: Dir)
    requires ShutIn(a, b, d) && ShutIn(b, c, d)
    ensures ShutIn(a, c, d)
  {
  }

  lemma ShutInStable(a: Fs, b: Fs, d: Dir)
    requires Stable(a, b)
    ensures ShutIn(a, b, d)
  {
  }

  lemma ShutInTree(a: Fs, b: Fs, d: Dir, t: Id)
    requires KeepTree(a, b, Reconcile(t)) && d.purpose.id == t
    ensures ShutIn(a, b, d)
  {
    OwnIdIsOutside(t);
  }

  lemma ShutInOther(a: Fs, b: Fs, d: Dir, e: Dir)
    requires Keeps(a, b, e) && d != e
    ensures ShutIn(a, b, d)
  {
  }

  /** Where no sealed file was given a name or a descriptor, only the slots of `d` changed. */
  lemma ShutInShielded(a: Fs, b: Fs, d: Dir)
    requires Shields(a, b) && forall e :: e != d ==> Lookup(b.caps, e) == Lookup(a.caps, e)
    ensures ShutIn(a, b, d)
  {
    forall i | Shut(a, d, i) ensures Shut(b, d, i) && b.data[i] == a.data[i] {
      assert Sealed(a, i);
      forall e | Named(b, e, i) ensures e == d {
        if e != d {
          assert Lookup(b.caps, e) == Lookup(a.caps, e);
          assert Named(a, e, i);
        }
      }
    }
  }

  /** What a step does to the generation an interrupted replacement still holds: keeps it, or puts it back. */
  ghost predicate KeptOrReturned(a: Fs, b: Fs, before: seq<Event>, after: seq<Event>, d: Dir) {
    SlotFile(a, d).Some? ==>
      || SlotFile(b, d) == SlotFile(a, d)
      || (d !in b.caps && ReturnedSince(before, after, SlotFile(a, d).value))
  }

  lemma KeptTrans(a: Fs, b: Fs, c: Fs, x: seq<Event>, y: seq<Event>, z: seq<Event>, d: Dir)
    requires x <= y <= z && KeptOrReturned(a, b, x, y, d)
    requires SlotFile(c, d) == SlotFile(b, d) && (d !in b.caps ==> d !in c.caps)
    ensures KeptOrReturned(a, c, x, z, d)
  {
    if SlotFile(a, d).Some? && SlotFile(b, d) != SlotFile(a, d) {
      ReturnedOnward(x, y, z, SlotFile(a, d).value);
    }
  }

  lemma ReturnedOnward(x: seq<Event>, y: seq<Event>, z: seq<Event>, i: Inode)
    requires x <= y <= z && ReturnedSince(x, y, i)
    ensures ReturnedSince(x, z, i)
  {
    var k :| |x| <= k < |y| && Returns(y[k], i);
    assert Returns(z[k], i);
  }

  /**
   A Host was lost while it undid a publication: the candidate is captured, and the old
   generation is captured as well, with nothing public, or already public again.
   */
  ghost predicate MidRollback(fs: Fs, t: Id) {
    && Resumable(fs, RollbackDir(t)) && SlotFile(fs, RollbackDir(t)) == Lookup(fs.temps, t)
    && Sealed(fs, SlotFile(fs, RollbackDir(t)).value)
    && (if ReplaceDir(t) in fs.caps
        then Resumable(fs, ReplaceDir(t)) && Public !in fs.names && SlotFile(fs, ReplaceDir(t)) != Lookup(fs.temps, t)
        else Public in fs.names && Links(fs, fs.names[Public]) <= 2)
  }

  /** The old generation is public, and no capture is left. */
  function RollbackEnded(fs: Fs, t: Id): Fs {
    WithoutCap(Restored(fs, t), RollbackDir(t))
  }

  function Restored(fs: Fs, t: Id): Fs {
    if SlotFile(fs, ReplaceDir(t)).None? then fs else GivenName(fs, ReplaceDir(t), SlotFile(fs, ReplaceDir(t)).value)
  }

  lemma MidRollbackResumes(fs: Fs, t: Id)
    requires MidRollback(fs, t)
    ensures ResumableWith(fs, RollbackDir(t), 2) && Lookup(fs.temps, t) == SlotFile(fs, RollbackDir(t))
    ensures SlotFile(fs, RollbackDir(t)).Some? && RollbackDir(t) in fs.caps && fs.caps[RollbackDir(t)].Open?
    ensures Reads(ResumedFs(fs, RollbackDir(t)), TempFile(t), 2)
         == Done(Found(SlotFile(fs, RollbackDir(t)).value, TextIn(fs, SlotFile(fs, RollbackDir(t)).value)))
    ensures RestorableIn(ResumedFs(fs, RollbackDir(t)), t)
  {
    hide Links;
    ResumingAddsNoLink(fs, RollbackDir(t), SlotFile(fs, RollbackDir(t)).value);
    if Public in fs.names { ResumingAddsNoLink(fs, RollbackDir(t), fs.names[Public]); }
    if SlotFile(fs, ReplaceDir(t)).Some? { ResumingAddsNoLink(fs, RollbackDir(t), SlotFile(fs, ReplaceDir(t)).value); }
  }

  /** The old generation can return, or is public. */
  ghost predicate RestorableIn(fs: Fs, t: Id) {
    if ReplaceDir(t) in fs.caps then ResumableWith(fs, ReplaceDir(t), 2) && Public !in fs.names
    else Public in fs.names && Links(fs, fs.names[Public]) <= 2
  }

  /** When it has returned the captured candidate can be given up. */
  lemma RestoredReleases(fs: Fs, t: Id, c: Capture)
    requires MidRollback(fs, t) && c.dir == RollbackDir(t) && SlotFile(fs, RollbackDir(t)) == Some(c.inode)
    requires c.current == TextIn(fs, c.inode) && c.maximumLinks == 2
    ensures var b := Restored(ResumedFs(fs, RollbackDir(t)), t);
      && Unaltered(b, c) && Releasable(b, c) && WithoutCap(b, RollbackDir(t)) == RollbackEnded(fs, t)
      && Reads(b, PublicFile, 2).Done? && Reads(b, PublicFile, 2).value.Found?
      && Reads(b, PublicFile, 2).value.inode != c.inode
    ensures ReplaceDir(t) !in RollbackEnded(fs, t).caps && RollbackDir(t) !in RollbackEnded(fs, t).caps
  {
    hide Links, Unaltered;
    var a := ResumedFs(fs, RollbackDir(t));
    ResumingAddsNoLink(fs, RollbackDir(t), c.inode);
    if SlotFile(fs, ReplaceDir(t)).Some? {
      var i := SlotFile(fs, ReplaceDir(t)).value;
      ResumingAddsNoLink(fs, RollbackDir(t), i);
      assert ResumedFs(a, ReplaceDir(t)) == WithCap(a, ReplaceDir(t), Open(Some(i), None));
      ResumingAddsNoLink(a, ReplaceDir(t), i);
      ResumingAddsNoLink(a, ReplaceDir(t), c.inode);
      SameGivenName(a, ReplaceDir(t), i);
      OtherGivenName(ResumedFs(a, ReplaceDir(t)), ReplaceDir(t), i, c.inode);
      OwnGivenName(ResumedFs(a, ReplaceDir(t)), ReplaceDir(t), i);
    } else {
      ResumingAddsNoLink(fs, RollbackDir(t), fs.names[Public]);
    }
    RestoredUnaltered(fs, t, c);
  }

  lemma SameGivenName(fs: Fs, d: Dir, i: Inode)
    ensures GivenName(WithCap(fs, d, Open(Some(i), None)), d, i) == GivenName(fs, d, i)
  {
    assert fs.caps[d := Open(Some(i), None)] - {d} == fs.caps - {d};
  }

  /** A file keeps the number of its names when it goes back. */
  lemma OwnGivenName(fs: Fs, d: Dir, i: Inode)
    requires d.place.AtPublic? && Public !in fs.names && Lookup(fs.caps, d) == Some(Open(Some(i), None))
    ensures Links(GivenName(fs, d, i), i) == Links(fs, i)
  {
    hide Links, Outside;
    var after := GivenName(fs, d, i);
    LinksAre(fs, d, i);
    LinksAre(after, d, i);
    GivenOutside(fs, d, i);
  }

  lemma GivenOutside(fs: Fs, d: Dir, i: Inode)
    requires d.place.AtPublic? && Public !in fs.names
    ensures Outside(GivenName(fs, d, i), d, i) == Outside(fs, d, i) + 1
  {
    hide CapturedDirs, ReleaseDirs, FinishedDirs, TempNames, PublicNames, GivenName;
    var after := GivenName(fs, d, i);
    GivenNames(fs, d, i);
    OtherDirs(fs, after, d, i);
    WithOne(PublicNames(after, i), Public);
  }

  lemma GivenNames(fs: Fs, d: Dir, i: Inode)
    requires d.place.AtPublic? && Public !in fs.names
    ensures var after := GivenName(fs, d, i);
      && Public in PublicNames(after, i) && PublicNames(after, i) - {Public} == PublicNames(fs, i)
      && TempNames(after, i) == TempNames(fs, i) && forall e :: e != d ==> Lookup(after.caps, e) == Lookup(fs.caps, e)
  {
  }

  lemma RestoredUnaltered(fs: Fs, t: Id, c: Capture)
    requires MidRollback(fs, t) && SlotFile(fs, RollbackDir(t)) == Some(c.inode) && c.current == TextIn(fs, c.inode)
    ensures Unaltered(Restored(ResumedFs(fs, RollbackDir(t)), t), c)
    ensures Lookup(Restored(ResumedFs(fs, RollbackDir(t)), t).names, Public) != Some(c.inode)
  {
    hide Links;
    var b := Restored(ResumedFs(fs, RollbackDir(t)), t);
    forall n | n in b.names ensures b.names[n] != c.inode {
      if n in fs.names { assert fs.names[n] in fs.names.Values; }
    }
  }

  /** The interrupted replacement's own capture goes back before the candidate does. */
  method RestoreReplaced(h: Host, t: Id, ghost start: Fs, ghost before: seq<Event>) returns (r: Run<bool>)
    requires h.Valid() && KeepTree(start, h.fs, t) && InTree(before, h.trace, t)
    modifies h
    ensures h.Valid() && KeepTree(start, h.fs, t) && InTree(before, h.trace, t) && Quiet(old(h.trace), h.trace, t)
    ensures Lookup(h.fs.caps, RollbackDir(t)) == old(Lookup(h.fs.caps, RollbackDir(t)))
    ensures Grows(old(h.fs), h.fs) && SameTemp(old(h.fs), h.fs, t)
    ensures KeptOrReturned(old(h.fs), h.fs, old(h.trace), h.trace, ReplaceDir(t)) || !r.Done?
    ensures r.Done? ==> ReplaceDir(t) !in h.fs.caps || ShutIn(old(h.fs), h.fs, ReplaceDir(t))
    ensures h.calm && old(RestorableIn(h.fs, t)) ==> r == Done(true) && h.fs == old(Restored(h.fs, t))
  {
    hide Rely, FileWorld.Valid, Secluded, Shut, KeepTree, InTree, Quiet, ReturnedSince, Links, RestorableIn, Restored,
      Resumable, ResumableWith, ResumedFs, WithoutCap, Grows, ShutIn, Stable;
    if RestorableIn(h.fs, t) { RestorableReturns(h.fs, t); }
    QuietStart(h.trace, t);
    var checking := h.DirExists(ReplaceDir(t), false);
    ReadKeeps(start, old(h.fs), h.fs, t);
    StableSlots(old(h.fs), h.fs);
    ShutInStable(old(h.fs), h.fs, ReplaceDir(t));
    var exists_ :- checking;
    if !exists_ { return Done(true); }
    ghost var fs1 := h.fs;
    r := ReturnReplaced(h, t, start, before);
    GrowsTrans(old(h.fs), fs1, h.fs);
  }

  /** Unless another file is public. */
  method ReturnReplaced(h: Host, t: Id, ghost start: Fs, ghost before: seq<Event>) returns (r: Run<bool>)
    requires h.Valid() && KeepTree(start, h.fs, t) && InTree(before, h.trace, t)
    modifies h
    ensures h.Valid() && KeepTree(start, h.fs, t) && InTree(before, h.trace, t) && Quiet(old(h.trace), h.trace, t)
    ensures Lookup(h.fs.caps, RollbackDir(t)) == old(Lookup(h.fs.caps, RollbackDir(t)))
    ensures Grows(old(h.fs), h.fs) && SameTemp(old(h.fs), h.fs, t)
    ensures r.Done? ==> ReplaceDir(t) !in h.fs.caps
    ensures r.Done? && old(SlotFile(h.fs, ReplaceDir(t)).Some?) ==>
      ReturnedSince(old(h.trace), h.trace, old(SlotFile(h.fs, ReplaceDir(t))).value)
    ensures h.calm && old(ResumableWith(h.fs, ReplaceDir(t), 2) && RestorableIn(h.fs, t)) ==>
      r == Done(true) && h.fs == old(Restored(h.fs, t))
  {
    hide Rely, FileWorld.Valid, Secluded, Shut, KeepTree, InTree, Quiet, ReturnedSince, Confined, Links, RestorableIn,
      Restored, Resumable, ResumableWith, ResumedFs, WithoutCap, Reads, Grows, Keeps, Stable, OnlyReturns, OnlyTakes;
    if RestorableIn(h.fs, t) { RestorableReturns(h.fs, t); }
    ghost var fs0 := h.fs;
    var capturing := CaptureIn(h, ReplaceDir(t), 2, t, start, before);
    ghost var fs1, trace1 := h.fs, h.trace;
    KeepsSlots(fs0, fs1, ReplaceDir(t), t);
    var changed :- capturing;
    var looking := ReadPublic(h, t, start, before);
    ghost var fs2, trace2 := h.fs, h.trace;
    StableSlots(fs1, fs2);
    GrowsTrans(fs0, fs1, fs2);
    QuietTrans(old(h.trace), trace1, trace2, t);
    QuietExtends(old(h.trace), trace2, t);
    var destination :- looking;
    if changed == null || (destination.Found? && destination.inode != changed.inode) {
      return Threw(CollisionCode);
    }
    var restoring := RestoreIn(h, changed, t, start, before);
    KeepsSlots(fs2, h.fs, ReplaceDir(t), t);
    GrowsTrans(fs0, fs2, h.fs);
    QuietTrans(old(h.trace), trace2, h.trace, t);
    QuietExtends(trace2, h.trace, t);
    var _ :- restoring;
    if old(SlotFile(h.fs, ReplaceDir(t)).Some?) {
      ReturnedLater(old(h.trace), trace2, h.trace, changed.inode);
    }
    return Done(true);
  }

  lemma RestorableReturns(fs: Fs, t: Id)
    requires RestorableIn(fs, t)
    ensures ReplaceDir(t) !in fs.caps ==> Restored(fs, t) == fs && !ResumableWith(fs, ReplaceDir(t), 2)
    ensures ReplaceDir(t) in fs.caps ==>
      && fs.caps[ReplaceDir(t)].Open? && ResumableWith(fs, ReplaceDir(t), 2) && SlotFile(fs, ReplaceDir(t)).Some?
      && var a := ResumedFs(fs, ReplaceDir(t));
         Reads(a, PublicFile, 2) == Done(Missing) && At(a, BasePath(ReplaceDir(t))).None?
         && SetBase(WithoutCap(a, ReplaceDir(t)), ReplaceDir(t), SlotFile(fs, ReplaceDir(t)).value) == Restored(fs, t)
  {
    hide Links;
    if ReplaceDir(t) in fs.caps { SameGivenName(fs, ReplaceDir(t), SlotFile(fs, ReplaceDir(t)).value); }
  }

  lemma ReturnedLater(x: seq<Event>, y: seq<Event>, z: seq<Event>, i: Inode)
    requires x <= y <= z && ReturnedSince(y, z, i)
    ensures ReturnedSince(x, z, i)
  {
  }

  /** `recoverProjectPreparationFileRollback` once the capture of the candidate is known to exist. */
  method ResumeRollback(h: Host, t: Id, fuel: nat, ghost start: Fs, ghost before: seq<Event>) returns (r: Run<bool>)
    requires h.Valid() && KeepTree(start, h.fs, t) && InTree(before, h.trace, t)
    modifies h
    ensures h.Valid() && KeepTree(start, h.fs, t) && InTree(before, h.trace, t) && Quiet(old(h.trace), h.trace, t)
    ensures SameTemp(old(h.fs), h.fs, t)
    ensures r.Done? ==> RollbackDir(t) !in h.fs.caps
    ensures r.Done? ==> KeptOrReturned(old(h.fs), h.fs, old(h.trace), h.trace, ReplaceDir(t))
    ensures r.Done? ==> ReplaceDir(t) !in h.fs.caps || ShutIn(old(h.fs), h.fs, ReplaceDir(t))
    ensures h.calm && fuel > 0 && old(MidRollback(h.fs, t)) ==> r == Done(true) && h.fs == old(RollbackEnded(h.fs, t))
    decreases fuel, 3, 0
  {
    hide Rely, FileWorld.Valid, Secluded, Shut, KeepTree, InTree, KeptOrReturned, Confined, Sealed, ShutIn, Quiet,
      MidRollback, RollbackEnded, Restored, RestorableIn, ResumedFs, WithoutCap, Unaltered, Releasable, TextIn,
      SlotFile, Reads;
    if MidRollback(h.fs, t) { MidRollbackResumes(h.fs, t); }
    var rollback :- OpenRollback(h, t, start, before);
    ghost var fs2, trace2 := h.fs, h.trace;
    if h.calm && old(MidRollback(h.fs, t)) { RestoredReleases(old(h.fs), t, rollback); }
    SameSlot(old(h.fs), fs2, ReplaceDir(t));
    var replacing := RestoreReplaced(h, t, start, before);
    ghost var fs3, trace3 := h.fs, h.trace;
    QuietTrans(old(h.trace), trace2, trace3, t);
    var _ :- replacing;
    QuietExtends(old(h.trace), trace2, t);
    QuietExtends(trace2, trace3, t);
    KeptBefore(old(h.fs), fs2, fs3, old(h.trace), trace2, trace3, ReplaceDir(t));
    AcknowledgedLater(trace2, trace3, rollback);
    r := EndRollback(h, rollback, t, fuel, start, before);
    QuietTrans(old(h.trace), trace3, h.trace, t);
    QuietExtends(trace3, h.trace, t);
    SameSlot(fs3, h.fs, ReplaceDir(t));
    if r.Done? {
      KeptTrans(old(h.fs), fs3, h.fs, old(h.trace), trace3, h.trace, ReplaceDir(t));
      if ReplaceDir(t) in h.fs.caps {
        ShutInTrans(old(h.fs), fs2, fs3, ReplaceDir(t));
        ShutInTrans(old(h.fs), fs3, h.fs, ReplaceDir(t));
      }
    }
  }

  /** The candidate's capture is reopened, and it must be the candidate that is in it. */
  method OpenRollback(h: Host, t: Id, ghost start: Fs, ghost before: seq<Event>) returns (r: Run<Capture>)
    requires h.Valid() && KeepTree(start, h.fs, t) && InTree(before, h.trace, t)
    modifies h
    ensures h.Valid() && KeepTree(start, h.fs, t) && InTree(before, h.trace, t) && Quiet(old(h.trace), h.trace, t)
    ensures SameTemp(old(h.fs), h.fs, t)
    ensures Lookup(h.fs.caps, ReplaceDir(t)) == old(Lookup(h.fs.caps, ReplaceDir(t)))
    ensures r.Done? ==> ShutIn(old(h.fs), h.fs, ReplaceDir(t))
    ensures r.Done? ==> fresh(r.value) && r.value.dir == RollbackDir(t) && r.value.Holds(h.fs)
    ensures r.Done? ==> r.value.Acknowledged(h.trace)
    ensures h.calm && old(MidRollback(h.fs, t)) ==>
      && r.Done? && h.fs == old(ResumedFs(h.fs, RollbackDir(t))) && r.value.maximumLinks == 2
      && Some(r.value.inode) == old(SlotFile(h.fs, RollbackDir(t))) && r.value.current == TextIn(old(h.fs), r.value.inode)
  {
    hide Links, MidRollback, Resumable, ResumableWith, ResumedFs, TextIn, RestorableIn, Reads, Rely, FileWorld.Valid,
      Secluded, Shut, KeepTree, InTree, Confined, Sealed, ShutIn, Quiet, Grows, Stable, Keeps;
    if MidRollback(h.fs, t) { MidRollbackResumes(h.fs, t); }
    var opening := CaptureIn(h, RollbackDir(t), 2, t, start, before);
    ghost var fs1, trace1 := h.fs, h.trace;
    KeepsSlots(old(h.fs), fs1, RollbackDir(t), t);
    var rollback :- opening;
    var reading := h.ReadFile(TempFile(t), 2);
    ghost var fs2 := h.fs;
    ReadKeeps(start, fs1, fs2, t);
    StableSlots(fs1, fs2);
    ShutInOther(old(h.fs), fs1, ReplaceDir(t), RollbackDir(t));
    ShutInStable(fs1, fs2, ReplaceDir(t));
    ShutInTrans(old(h.fs), fs1, fs2, ReplaceDir(t));
    var temporary :- reading;
    if rollback == null || temporary.Missing? || rollback.inode != temporary.inode {
      var looking := ReadPublic(h, t, start, before);
      QuietTrans(old(h.trace), trace1, h.trace, t);
      ghost var fs3 := h.fs;
      StableSlots(fs2, fs3);
      var destination :- looking;
      if destination.Missing? && rollback != null {
        ghost var trace2 := h.trace;
        var restoring := RestoreIn(h, rollback, t, start, before);
        QuietTrans(old(h.trace), trace2, h.trace, t);
        KeepsSlots(fs3, h.fs, RollbackDir(t), t);
        var _ :- restoring;
      }
      return Threw(CollisionCode);
    }
    return Done(rollback);
  }

  /** A capture of the public file leaves the temporary file and the other captures of the ID alone. */
  lemma KeepsSlots(a: Fs, b: Fs, d: Dir, t: Id)
    requires Keeps(a, b, d) && d.place.AtPublic?
    ensures SameTemp(a, b, t) && a.data.Keys <= b.data.Keys && Grows(a, b)
    ensures forall e :: e != d ==> Lookup(b.caps, e) == Lookup(a.caps, e)
  {
  }

  lemma SameSlot(a: Fs, b: Fs, d: Dir)
    requires Lookup(a.caps, d) == Lookup(b.caps, d)
    ensures SlotFile(a, d) == SlotFile(b, d) && (d in a.caps <==> d in b.caps)
  {
  }

  lemma KeptBefore(a: Fs, b: Fs, c: Fs, x: seq<Event>, y: seq<Event>, z: seq<Event>, d: Dir)
    requires x <= y <= z && KeptOrReturned(b, c, y, z, d) && SlotFile(b, d) == SlotFile(a, d)
    ensures KeptOrReturned(a, c, x, z, d)
  {
    if SlotFile(b, d).Some? && SlotFile(c, d) != SlotFile(b, d) {
      ReturnedLater(x, y, z, SlotFile(a, d).value);
    }
  }

  /** Another file than the captured one is public. */
  predicate OtherReading(fs: Fs, c: Capture) {
    && Reads(fs, PublicFile, 2).Done? && Reads(fs, PublicFile, 2).value.Found?
    && Reads(fs, PublicFile, 2).value.inode != c.inode
  }

  /** The last step of a rollback: the candidate goes back, or is given up after what it held was merged. */
  method EndRollback(h: Host, rollback: Capture, t: Id, fuel: nat, ghost start: Fs, ghost before: seq<Event>)
    returns (r: Run<bool>)
    requires h.Valid() && KeepTree(start, h.fs, t) && InTree(before, h.trace, t)
    requires rollback.dir == RollbackDir(t) && rollback.Holds(h.fs) && rollback.Acknowledged(h.trace)
    modifies h, rollback
    ensures h.Valid() && KeepTree(start, h.fs, t) && InTree(before, h.trace, t) && Quiet(old(h.trace), h.trace, t)
    ensures SameTemp(old(h.fs), h.fs, t)
    ensures r.Done? ==> RollbackDir(t) !in h.fs.caps
    ensures Lookup(h.fs.caps, ReplaceDir(t)) == old(Lookup(h.fs.caps, ReplaceDir(t)))
    ensures r.Done? ==> ShutIn(old(h.fs), h.fs, ReplaceDir(t))
    decreases fuel, 2, 2
    ensures h.calm && fuel > 0 && old(Unaltered(h.fs, rollback) && Releasable(h.fs, rollback) && OtherReading(h.fs, rollback)) ==>
      r == Done(true) && h.fs == old(WithoutCap(h.fs, RollbackDir(t)))
  {
    hide Links, Unaltered, Releasable, WithoutCap, Reads, Rely, FileWorld.Valid, Secluded, Shut, KeepTree, InTree;
    var destination :- ReadPublic(h, t, start, before);
    ghost var fs1 := h.fs;
    ShutInStable(old(h.fs), fs1, ReplaceDir(t));
    if destination.Missing? || destination.inode == rollback.inode {
      r := RestoreIn(h, rollback, t, start, before);
      ShutInOther(fs1, h.fs, ReplaceDir(t), RollbackDir(t));
      ShutInTrans(old(h.fs), fs1, h.fs, ReplaceDir(t));
    } else {
      ghost var turns;
      r, turns := ReleaseFromTree(h, rollback, [rollback.source, destination.text], t, 1, fuel, start, before);
      ShutInTrans(old(h.fs), fs1, h.fs, ReplaceDir(t));
    }
  }

  /** `recoverProjectPreparationFileRollback`. */
  method RecoverRollback(h: Host, t: Id, fuel: nat) returns (r: Run<bool>)
    requires h.Valid()
    modifies h
    ensures h.Valid() && KeepTree(old(h.fs), h.fs, t) && InTree(old(h.trace), h.trace, t)
    ensures Quiet(old(h.trace), h.trace, t) && SameTemp(old(h.fs), h.fs, t)
    ensures r.Done? ==> RollbackDir(t) !in h.fs.caps
    ensures h.calm && old(RollbackDir(t) !in h.fs.caps) ==> r.Done? && h.fs == old(h.fs)
    ensures old(RollbackDir(t) !in h.fs.caps) ==> h.trace == old(h.trace) && h.fs.caps == old(h.fs.caps)
    ensures r.Done? ==> KeptOrReturned(old(h.fs), h.fs, old(h.trace), h.trace, ReplaceDir(t))
    ensures r.Done? ==> ReplaceDir(t) !in h.fs.caps || ShutIn(old(h.fs), h.fs, ReplaceDir(t))
    ensures h.calm && fuel > 0 && old(MidRollback(h.fs, t)) ==> r == Done(true) && h.fs == old(RollbackEnded(h.fs, t))
    decreases fuel, 3, 1
  {
    hide Rely, FileWorld.Valid, Secluded, Shut, KeepTree, InTree, Quiet, Grows, ShutIn, Stable, Links, RollbackEnded,
      MidRollback, Restored, KeptOrReturned, SlotFile;
    if MidRollback(h.fs, t) { MidRollbackResumes(h.fs, t); }
    var finishing := FinishReleasedIfPresent(h, RollbackDir(t));
    TreeStart(old(h.fs), old(h.trace), t);
    QuietStart(h.trace, t);
    FinishInTree(old(h.fs), old(h.fs), h.fs, RollbackDir(t), t);
    ShutInBesides(old(h.fs), h.fs, ReplaceDir(t), RollbackDir(t));
    ghost var fs0 := h.fs;
    KeptSame(old(h.fs), fs0, old(h.trace), h.trace, ReplaceDir(t));
    var finished :- finishing;
    if finished { return Done(true); }
    var looking := h.DirExists(RollbackDir(t), false);
    ReadKeeps(old(h.fs), fs0, h.fs, t);
    StableSlots(fs0, h.fs);
    ShutInStable(fs0, h.fs, ReplaceDir(t));
    ShutInTrans(old(h.fs), fs0, h.fs, ReplaceDir(t));
    KeptSame(old(h.fs), h.fs, old(h.trace), h.trace, ReplaceDir(t));
    SameSlot(old(h.fs), h.fs, ReplaceDir(t));
    var present :- looking;
    if !present { return Done(true); }
    ghost var fs1, trace1 := h.fs, h.trace;
    r := ResumeRollback(h, t, fuel, old(h.fs), old(h.trace));
    QuietExtends(trace1, h.trace, t);
    if r.Done? {
      KeptBefore(old(h.fs), fs1, h.fs, old(h.trace), trace1, h.trace, ReplaceDir(t));
      if ReplaceDir(t) in h.fs.caps { ShutInTrans(old(h.fs), fs1, h.fs, ReplaceDir(t)); }
    }
  }

  lemma KeptSame(a: Fs, b: Fs, x: seq<Event>, y: seq<Event>, d: Dir)
    requires Lookup(a.caps, d) == Lookup(b.caps, d)
    ensures KeptOrReturned(a, b, x, y, d)
  {
  }

  lemma ShutInBesides(a: Fs, b: Fs, d: Dir, e: Dir)
    requires ShutBut(a, b, e) && d != e
    ensures ShutIn(a, b, d)
  {
  }

  // ------------------------------------------------------------- recovery

  /**
   How a recovery ended for the file an interrupted replacement had captured:
   publicly named again, or given up. In the second case `first` is what the
   capture read, `other` what was public, `turns` what the release found and
   merged, `from` and `drop` where it began and ended in the history; `candidate` is
   the public file if it was the candidate.
   */
  datatype Verdict =
    | OldPublic
    | Superseded(first: Text, other: Text, turns: seq<Turn>, from: nat, drop: nat, candidate: Option<Inode>)

  ghost predicate SawSince(before: seq<Event>, after: seq<Event>, i: Inode, text: Text) {
    exists k :: |before| <= k < |after| && after[k] == Saw(i, text)
  }

  ghost predicate Ended(before: seq<Event>, after: seq<Event>, t: Id, i: Inode, v: Verdict) {
    match v
    case OldPublic => ReturnedSince(before, after, i)
    case Superseded(first, other, turns, from, drop, candidate) =>
      && |before| <= from && Released(after, from, drop, ReplaceDir(t), i, first, turns)
      && (turns != [] ==> Covered(before, after, [first, other] + MergedIn(turns)))
      && (if candidate.Some?
          then SawSince(before, after, candidate.value, other)
          else Covered(before, after, [first, other]))
  }

  /** The same holds of a longer stretch of history. */
  lemma EndedWider(w: seq<Event>, x: seq<Event>, y: seq<Event>, z: seq<Event>, t: Id, i: Inode, v: Verdict)
    requires w <= x <= y <= z && Ended(x, y, t, i, v)
    ensures Ended(w, z, t, i, v)
  {
    if v.OldPublic? {
      ReturnedOnward(x, y, z, i);
      ReturnedLater(w, x, z, i);
    } else {
      ReleasedLater(y, z, v.from, v.drop, ReplaceDir(t), i, v.first, v.turns);
      if v.turns != [] { CoveredLater(w, x, y, z, [v.first, v.other] + MergedIn(v.turns)); }
      if v.candidate.Some? {
        SawOnward(x, y, z, v.candidate.value, v.other);
      } else {
        CoveredLater(w, x, y, z, [v.first, v.other]);
      }
    }
  }

  ghost predicate ReplaceDrop(e: Event, t: Id) {
    e.Dropped? && e.dir == ReplaceDir(t)
  }

  /**
   What is known when a recovery begins: that its candidate is seen by nobody, and the
   texts of files nobody can write that only the capture replaced for `t` could show.
   */
  datatype Known = Known(unseen: bool, texts: map<Inode, Text>)

  ghost predicate KnownHolds(fs: Fs, t: Id, known: Known) {
    && (known.unseen ==> Unseen(fs, t))
    && forall i :: i in known.texts ==> Shut(fs, ReplaceDir(t), i) && fs.data[i] == known.texts[i]
  }

  /** All there is to know. */
  ghost function KnownAt(fs: Fs, t: Id): (known: Known)
    ensures KnownHolds(fs, t, known) && (known.unseen <==> Unseen(fs, t))
    ensures forall i :: Shut(fs, ReplaceDir(t), i) ==> i in known.texts && known.texts[i] == fs.data[i]
  {
    Known(Unseen(fs, t), map i | i in fs.data && Shut(fs, ReplaceDir(t), i) :: fs.data[i])
  }

  ghost predicate KnowsLess(less: Known, more: Known) {
    (less.unseen ==> more.unseen) && forall i :: i in less.texts ==> i in more.texts && more.texts[i] == less.texts[i]
  }

  lemma KnownKept(a: Fs, b: Fs, t: Id, known: Known)
    requires KnownHolds(a, t, known) && Grows(a, b) && Lookup(b.temps, t) == Lookup(a.temps, t)
    requires ShutIn(a, b, ReplaceDir(t))
    ensures KnownHolds(b, t, known)
  {
  }

  /**
   Whatever the capture replaced for `t` gave up was superseded, in accordance with
   what was known, and the candidate was not published.
   */
  ghost predicate Explained(before: seq<Event>, after: seq<Event>, t: Id, known: Known) {
    && before <= after && NotPublished(before, after, t)
    && forall k :: |before| <= k < |after| && ReplaceDrop(after[k], t) ==>
         Supersedes(before, after, t, after[k].inode, known)
  }

  /**
   The file was given up under the candidate or after a merge: after a merge if the
   candidate was known to be unseen, and otherwise at once, with the text known of it.
   */
  ghost predicate Supersedes(before: seq<Event>, after: seq<Event>, t: Id, i: Inode, known: Known) {
    exists v: Verdict :: SupersededAs(before, after, t, i, known, v)
  }

  ghost predicate SupersededAs(before: seq<Event>, after: seq<Event>, t: Id, i: Inode, known: Known, v: Verdict) {
    && v.Superseded? && Ended(before, after, t, i, v) && v.drop < |after|
    && (known.unseen ==> v.candidate.None?)
    && (i in known.texts ==> v.first == known.texts[i])
    && (i in known.texts && v.candidate.Some? ==>
          v.turns == [] && after[v.drop] == Dropped(ReplaceDir(t), i, known.texts[i], true))
  }

  lemma ExplainedWider(w: seq<Event>, x: seq<Event>, y: seq<Event>, z: seq<Event>, t: Id, known: Known)
    requires Quiet(w, x, t) && Explained(x, y, t, known) && Quiet(y, z, t)
    ensures Explained(w, z, t, known)
  {
    hide Ended, SupersededAs;
    forall k | |w| <= k < |z| && ReplaceDrop(z[k], t) ensures Supersedes(w, z, t, z[k].inode, known) {
      assert |x| <= k < |y| && y[k] == z[k];
      SupersedesWider(w, x, y, z, t, y[k].inode, known);
    }
  }

  lemma SupersedesWider(w: seq<Event>, x: seq<Event>, y: seq<Event>, z: seq<Event>, t: Id, i: Inode, known: Known)
    requires w <= x <= y <= z && Supersedes(x, y, t, i, known)
    ensures Supersedes(w, z, t, i, known)
  {
    hide Ended;
    var v: Verdict :| SupersededAs(x, y, t, i, known, v);
    EndedWider(w, x, y, z, t, i, v);
    assert SupersededAs(w, z, t, i, known, v);
  }

  lemma SupersedesLess(x: seq<Event>, y: seq<Event>, t: Id, i: Inode, less: Known, more: Known)
    requires Supersedes(x, y, t, i, more) && KnowsLess(less, more)
    ensures Supersedes(x, y, t, i, less)
  {
    hide Ended;
    var v: Verdict :| SupersededAs(x, y, t, i, more, v);
    assert SupersededAs(x, y, t, i, less, v);
  }

  lemma ExplainedLess(x: seq<Event>, y: seq<Event>, t: Id, less: Known, more: Known)
    requires Explained(x, y, t, more) && KnowsLess(less, more)
    ensures Explained(x, y, t, less)
  {
    hide Supersedes, KnowsLess;
    forall k | |x| <= k < |y| && ReplaceDrop(y[k], t) ensures Supersedes(x, y, t, y[k].inode, less) {
      SupersedesLess(x, y, t, y[k].inode, less, more);
    }
  }

  lemma QuietExplained(x: seq<Event>, y: seq<Event>, t: Id, known: Known)
    requires Quiet(x, y, t)
    ensures Explained(x, y, t, known)
  {
  }

  /** The captured file is given up: what `ReleaseCapture` guarantees, since the recovery began. */
  method GiveUpCaptured(h: Host, captured: Capture, destination: Reading, ghost candidate: Option<Inode>, t: Id,
      depth: nat, fuel: nat, ghost start: Fs, ghost before: seq<Event>, ghost seen: seq<Event>, ghost known: Known)
    returns (r: Run<bool>, ghost verdict: Verdict)
    requires h.Valid() && KeepTree(start, h.fs, t) && InTree(before, h.trace, t)
    requires captured.dir == ReplaceDir(t) && captured.Holds(h.fs) && captured.current == captured.source
    requires captured.Acknowledged(h.trace)
    requires destination.Found? && Quiet(seen, h.trace, t)
    requires if candidate.Some? then SawSince(seen, h.trace, candidate.value, destination.text)
             else Covered(seen, h.trace, [captured.source, destination.text])
    requires captured.inode in known.texts ==> captured.source == known.texts[captured.inode]
    requires candidate.Some? ==> !known.unseen && (captured.inode in known.texts ==> Unaltered(h.fs, captured))
    modifies h, captured
    ensures h.Valid() && KeepTree(start, h.fs, t) && InTree(before, h.trace, t)
    ensures Lookup(h.fs.caps, RollbackDir(t)) == old(Lookup(h.fs.caps, RollbackDir(t)))
    ensures SameTemp(old(h.fs), h.fs, t)
    ensures Explained(seen, h.trace, t, known) && old(h.trace) <= h.trace
    ensures h.calm && fuel > 0 && old(Unaltered(h.fs, captured) && Releasable(h.fs, captured)) ==>
      r == Done(true) && h.fs == old(WithoutCap(h.fs, ReplaceDir(t)))
    ensures r.Done? ==> ReplaceDir(t) !in h.fs.caps
    ensures r.Done? && verdict.Superseded? && verdict.turns == [] ==> NothingPublished(old(h.trace), h.trace)
    ensures r.Done? ==> verdict.Superseded? && verdict.candidate == candidate && verdict.other == destination.text
    ensures r.Done? ==> SupersededAs(seen, h.trace, t, captured.inode, known, verdict)
    decreases fuel, 2, 2
  {
    hide Rely, FileWorld.Valid, Secluded, Shut, KeepTree, InTree, Covered, Explained, Quiet, Released, Unaltered,
      ShutIn, NothingPublished, Releasable, WithoutCap;
    ghost var trace1 := h.trace;
    QuietExtends(seen, trace1, t);
    ghost var turns;
    r, turns := ReleaseFromTree(h, captured, [captured.source, destination.text], t, depth + 1, fuel, start, before);
    verdict := Superseded(captured.source, destination.text, turns, |trace1|,
                          if captured.active then 0 else |h.trace| - 1, candidate);
    if captured.active {
      QuietWhenUntouched(trace1, h.trace, t);
      QuietTrans(seen, trace1, h.trace, t);
      QuietExplained(seen, h.trace, t, known);
    } else {
      if turns != [] {
        CoveredLater(seen, trace1, h.trace, h.trace, [captured.source, destination.text] + MergedIn(turns));
      }
      if candidate.Some? {
        SawOnward(seen, trace1, h.trace, candidate.value, destination.text);
      } else {
        CoveredOnward(seen, trace1, h.trace, [captured.source, destination.text]);
      }
      OneFileExplained(seen, trace1, h.trace, t, captured.inode, verdict, known);
    }
  }

  lemma QuietExtends(x: seq<Event>, y: seq<Event>, t: Id)
    requires Quiet(x, y, t)
    ensures x <= y
  {
  }

  lemma OneFileExplained(x: seq<Event>, y: seq<Event>, z: seq<Event>, t: Id, i: Inode, v: Verdict, known: Known)
    requires Quiet(x, y, t) && y <= z && DropsOnly(y, z, ReplaceDir(t), i) && NotPublished(y, z, t)
    requires SupersededAs(x, z, t, i, known, v)
    ensures Explained(x, z, t, known)
  {
    hide SupersededAs;
    assert Supersedes(x, z, t, i, known);
  }

  lemma SawOnward(x: seq<Event>, y: seq<Event>, z: seq<Event>, i: Inode, text: Text)
    requires x <= y <= z && SawSince(x, y, i, text)
    ensures SawSince(x, z, i, text)
  {
    var k :| |x| <= k < |y| && y[k] == Saw(i, text);
    assert z[k] == Saw(i, text);
  }

  /** `Merge` inside the derived tree, seen from the tree of `t`. */
  method MergeForRecovery(h: Host, captured: Capture, observed: seq<Text>, t: Id, depth: nat, fuel: nat,
      ghost start: Fs, ghost before: seq<Event>)
    returns (r: Run<bool>)
    requires h.Valid() && KeepTree(start, h.fs, t) && InTree(before, h.trace, t)
    requires captured.dir == ReplaceDir(t) && captured.Holds(h.fs)
    modifies h
    ensures h.Valid() && KeepTree(start, h.fs, t) && InTree(before, h.trace, t) && Quiet(old(h.trace), h.trace, t)
    ensures Lookup(h.fs.caps, RollbackDir(t)) == old(Lookup(h.fs.caps, RollbackDir(t)))
    ensures captured.Holds(h.fs) && SameTemp(old(h.fs), h.fs, t)
    ensures r.Done? ==> Covered(old(h.trace), h.trace, observed)
    ensures h.calm && fuel > 0 && old(Mergeable(h.fs, Reconcile(t))) ==> OnlyPublicChanged(old(h.fs), h.fs)
    ensures h.calm && fuel > 0 && old(Mergeable(h.fs, Reconcile(t)) && MergeSucceeds(h.fs, observed)) ==>
      r == Done(true) && AllKept(observed, PublicText(h.fs))
    ensures h.calm && fuel > 0 && old(Mergeable(h.fs, Reconcile(t)) && !MergeSucceeds(h.fs, observed)) ==>
      r == Threw(CollisionCode)
    decreases fuel, 2, 1
  {
    hide Rely, FileWorld.Valid, Secluded, Shut, KeepTree, InTree, Covered, Mergeable, OnlyPublicChanged, MergeSucceeds,
      AllKept, PublicText;
    ghost var fs1, trace1 := h.fs, h.trace;
    r := Merge(h, captured.dir, observed, Reconcile(t), depth + 1, fuel);
    LinkingDerived(fs1, h.fs, t, captured.dir);
    KeepTreeTrans(start, fs1, h.fs, t);
    InDerivedTree(trace1, h.trace, t);
    InTreeTrans(before, trace1, h.trace, t);
    InTreeExtends(trace1, h.trace, t);
    KeepTreeGrows(fs1, h.fs, t);
  }

  lemma InTreeExtends(a: seq<Event>, b: seq<Event>, t: Id)
    requires InTree(a, b, t)
    ensures a <= b
  {
  }

  lemma KeepTreeGrows(a: Fs, b: Fs, t: Id)
    requires KeepTree(a, b, t)
    ensures Grows(a, b)
  {
  }

  /** The captured file is public again. */
  function GivenName(fs: Fs, d: Dir, i: Inode): Fs {
    SetBase(WithoutCap(fs, d), d, i)
  }

  /** The public file is the candidate, which still has its temporary name. */
  ghost predicate CandidateShown(fs: Fs, t: Id) {
    Public in fs.names && Lookup(fs.temps, t) == Some(fs.names[Public]) && Links(fs, fs.names[Public]) <= 2
  }

  /** Nothing is public, and the temporary file, if there is one, has no name too many. */
  ghost predicate NothingShown(fs: Fs, t: Id) {
    Public !in fs.names && (t in fs.temps ==> Links(fs, fs.temps[t]) <= 2)
  }

  /** Another file than the candidate and the captured one is public, and the derived ID could replace it. */
  ghost predicate OtherShown(fs: Fs, t: Id, i: Inode) {
    && Mergeable(fs, Reconcile(t)) && fs.names[Public] != i && Lookup(fs.temps, t) != Some(fs.names[Public])
    && (t in fs.temps ==> Links(fs, fs.temps[t]) <= 2)
  }

  /** What a recovery must merge: the captured generation and the public one. */
  function BothTexts(fs: Fs, captured: Text): seq<Text> {
    [captured, PublicText(fs)]
  }

  lemma OtherReads(fs: Fs, t: Id, i: Inode)
    requires OtherShown(fs, t, i)
    ensures Mergeable(fs, Reconcile(t)) && Reads(fs, TempFile(t), 2).Done? && Reads(fs, PublicFile, 2).Done?
    ensures var public := Reads(fs, PublicFile, 2).value;
      && public.Found? && public.inode != i && Lookup(fs.temps, t) != Some(public.inode) && public.text == PublicText(fs)
    ensures !CandidateShown(fs, t) && !NothingShown(fs, t)
  {
    hide Links;
    MergeableReads(fs, Reconcile(t));
  }

  /** In an undisturbed world both generations can be public together and the captured one given up then. */
  ghost predicate MergesAndGoes(fs: Fs, t: Id, c: Capture, sources: seq<Text>)
    reads c
  {
    Mergeable(fs, Reconcile(t)) && Unaltered(fs, c) && Releasable(fs, c) && MergeSucceeds(fs, sources)
  }

  /** In an undisturbed world the merge runs out of attempts. */
  ghost predicate NeverMerges(fs: Fs, t: Id, sources: seq<Text>) {
    Mergeable(fs, Reconcile(t)) && !MergeSucceeds(fs, sources)
  }

  /** Another file is public, and the recovery goes through. */
  ghost predicate MergesUnder(fs: Fs, t: Id, c: Capture)
    reads c
  {
    OtherShown(fs, t, c.inode) && MergesAndGoes(fs, t, c, BothTexts(fs, c.source))
  }

  ghost predicate NeverMergesUnder(fs: Fs, t: Id, c: Capture) {
    OtherShown(fs, t, c.inode) && NeverMerges(fs, t, BothTexts(fs, c.source))
  }

  lemma SupersededIsEnded(before: seq<Event>, after: seq<Event>, t: Id, i: Inode, known: Known, v: Verdict)
    requires SupersededAs(before, after, t, i, known, v)
    ensures Ended(before, after, t, i, v)
  {
  }

  /** What the two readings show where both generations must be merged. */
  lemma MergesOther(fs: Fs, t: Id, c: Capture)
    ensures MergesUnder(fs, t, c) || NeverMergesUnder(fs, t, c) ==>
      && Reads(fs, TempFile(t), 2).Done? && Reads(fs, PublicFile, 2).Done?
      && !CandidateShown(fs, t) && !NothingShown(fs, t)
      && var public := Reads(fs, PublicFile, 2).value;
         public.Found? && public.inode != c.inode && Lookup(fs.temps, t) != Some(public.inode)
         && [c.source, public.text] == BothTexts(fs, c.source)
    ensures MergesUnder(fs, t, c) ==> MergesAndGoes(fs, t, c, BothTexts(fs, c.source))
    ensures NeverMergesUnder(fs, t, c) ==> NeverMerges(fs, t, BothTexts(fs, c.source))
  {
    hide Links, MergesAndGoes, NeverMerges;
    if OtherShown(fs, t, c.inode) { OtherReads(fs, t, c.inode); }
  }

  /** A new public file does not stand against giving up a captured one. */
  lemma StaysReleasable(a: Fs, b: Fs, c: Capture)
    requires OnlyPublicChanged(a, b) && Unaltered(a, c) && Releasable(a, c)
    ensures Unaltered(b, c) && Releasable(b, c)
    ensures OnlyPublicChanged(WithoutCap(a, c.dir), WithoutCap(b, c.dir))
  {
    forall n ensures Lookup(a.names, n) != Some(c.inode) && Lookup(b.names, n) != Some(c.inode) {
      if n in a.names { assert a.names[n] in a.names.Values; }
      if n != Public { assert Lookup(b.names, n) == Lookup(a.names, n); }
    }
    forall n ensures n !in PublicNames(a, c.inode) && n !in PublicNames(b, c.inode) {
      assert Lookup(a.names, n) != Some(c.inode) && Lookup(b.names, n) != Some(c.inode);
    }
    assert PublicNames(a, c.inode) == PublicNames(b, c.inode);
    assert TempNames(b, c.inode) == TempNames(a, c.inode);
    LinksSame(a, b, c.inode);
    forall n | n in b.names ensures b.names[n] != c.inode { assert Lookup(b.names, n) == Some(b.names[n]); }
  }

  lemma ShownReads(fs: Fs, t: Id)
    ensures CandidateShown(fs, t) ==>
      && Reads(fs, TempFile(t), 2) == Reads(fs, PublicFile, 2) == Done(PublicReading(fs))
      && PublicReading(fs).Found? && Lookup(fs.temps, t) == Some(PublicReading(fs).inode)
    ensures NothingShown(fs, t) ==>
      && Reads(fs, TempFile(t), 2).Done? && Reads(fs, PublicFile, 2) == Done(Missing)
      && At(fs, BasePath(ReplaceDir(t))).None?
  {
  }

  /** The candidate under its temporary name, and then the public file. */
  method ReadBoth(h: Host, t: Id, ghost start: Fs, ghost before: seq<Event>) returns (r: Run<Reading>, candidate: Reading)
    requires h.Valid() && KeepTree(start, h.fs, t) && InTree(before, h.trace, t)
    modifies h
    ensures h.Valid() && KeepTree(start, h.fs, t) && InTree(before, h.trace, t) && Quiet(old(h.trace), h.trace, t)
    ensures Stable(old(h.fs), h.fs)
    ensures r.Done? ==> Lookup(h.fs.temps, t) == InodeOf(candidate)
    ensures r.Done? && r.value.Found? ==>
      h.trace == old(h.trace) + [Saw(r.value.inode, r.value.text)] && At(h.fs, PublicFile) == Some(r.value.inode)
    ensures h.calm ==> h.fs == old(h.fs)
    ensures h.calm && Reads(h.fs, TempFile(t), 2).Done? ==>
      r == Reads(h.fs, PublicFile, 2) && candidate == Reads(h.fs, TempFile(t), 2).value
  {
    hide Rely, FileWorld.Valid, Secluded, Shut, KeepTree, InTree, Quiet, Reads, Grows, ShutKept;
    candidate := Missing;
    ghost var fs1 := h.fs;
    QuietStart(h.trace, t);
    var reading := h.ReadFile(TempFile(t), 2);
    ReadKeeps(start, fs1, h.fs, t);
    ghost var fs2 := h.fs;
    candidate :- reading;
    r := ReadPublic(h, t, start, before);
    StableTrans(fs1, fs2, h.fs);
  }

  /**
   The decision of `recoverProjectPreparationFileReplacement`: a published
   candidate is recognized by the temporary name it still has.
   */
  method Settle(h: Host, captured: Capture, t: Id, depth: nat, fuel: nat, ghost start: Fs, ghost before: seq<Event>,
      ghost known: Known)
    returns (r: Run<bool>, ghost verdict: Verdict)
    requires h.Valid() && KeepTree(start, h.fs, t) && InTree(before, h.trace, t)
    requires captured.dir == ReplaceDir(t) && captured.Holds(h.fs) && captured.current == captured.source
    requires captured.Acknowledged(h.trace) && Quiet(before, h.trace, t)
    requires KnownHolds(h.fs, t, known)
    requires captured.inode in known.texts ==> captured.source == known.texts[captured.inode]
    modifies h, captured
    ensures h.Valid() && KeepTree(start, h.fs, t) && InTree(before, h.trace, t)
    ensures Lookup(h.fs.caps, RollbackDir(t)) == old(Lookup(h.fs.caps, RollbackDir(t)))
    ensures SameTemp(old(h.fs), h.fs, t)
    ensures Explained(before, h.trace, t, known) && old(h.trace) <= h.trace
    ensures r.Done? ==> ReplaceDir(t) !in h.fs.caps && Ended(before, h.trace, t, captured.inode, verdict)
    ensures r.Done? && verdict.Superseded? ==> SupersededAs(before, h.trace, t, captured.inode, known, verdict)
    ensures r.Done? && verdict.Superseded? && verdict.candidate.Some? ==> verdict.candidate == Lookup(h.fs.temps, t)
    ensures r.Done? && verdict.Superseded? && verdict.candidate.None? ==>
      OtherWasSeen(before, h.trace, Lookup(h.fs.temps, t), captured.inode, verdict.other)
    ensures r.Done? && verdict.Superseded? && verdict.candidate.Some? && verdict.turns == [] ==>
      NothingPublished(old(h.trace), h.trace)
    ensures h.calm && fuel > 0 && old(CandidateShown(h.fs, t) && Unaltered(h.fs, captured) && Releasable(h.fs, captured)) ==>
      && r == Done(true) && verdict.Superseded? && verdict.candidate == old(Lookup(h.fs.temps, t))
      && h.fs == old(WithoutCap(h.fs, ReplaceDir(t)))
    ensures h.calm && old(NothingShown(h.fs, t)) ==>
      r == Done(true) && verdict == OldPublic && h.fs == GivenName(old(h.fs), ReplaceDir(t), captured.inode)
    ensures h.calm && fuel > 0 && old(MergesUnder(h.fs, t, captured)) ==>
      && r == Done(true) && verdict.Superseded? && verdict.candidate.None?
      && AllKept(old(BothTexts(h.fs, captured.source)), PublicText(h.fs))
      && OnlyPublicChanged(old(WithoutCap(h.fs, ReplaceDir(t))), h.fs)
    ensures h.calm && fuel > 0 && old(NeverMergesUnder(h.fs, t, captured)) ==>
      r == Threw(CollisionCode) && OnlyPublicChanged(old(h.fs), h.fs)
    decreases fuel, 3, 0
  {
    hide Rely, FileWorld.Valid, Secluded, Shut, KeepTree, InTree, Ended, Covered, Covers, Explained, Quiet, Unseen,
      Confined, Sealed, KnownHolds, ShutIn, Stable, Keeps, Grows, OnlyReturns, Shields, ShutKept, ShutBut,
      NothingPublished, OtherWasSeen, CandidateShown, NothingShown, Unaltered, Releasable, WithoutCap, Links, Reads,
      PublicReading, OtherShown, PublicText, MergesAndGoes, NeverMerges, AllKept, OnlyPublicChanged, Mergeable,
      SupersededAs, SawSince, GivenName, BothTexts, MergesUnder, NeverMergesUnder;
    if h.calm { ShownReads(h.fs, t); }
    if h.calm { MergesOther(h.fs, t, captured); }
    verdict := OldPublic;
    ghost var fs1, trace1 := h.fs, h.trace;
    var looking, candidate := ReadBoth(h, t, start, before);
    ghost var fs2, trace2 := h.fs, h.trace;
    QuietTrans(before, trace1, trace2, t);
    QuietExplained(before, trace2, t, known);
    QuietExtends(before, trace1, t);
    QuietExtends(trace1, trace2, t);
    StableSlots(fs1, fs2);
    ShutInStable(fs1, fs2, ReplaceDir(t));
    KnownKept(fs1, fs2, t, known);
    AcknowledgedLater(trace1, trace2, captured);
    var destination :- looking;
    if candidate.Found? && destination.Found? && candidate.inode == destination.inode {
      SawNow(before, trace1, trace2, destination);
      r, verdict := SettleUnder(h, captured, destination, t, depth, fuel, start, before, before, known);
      SeenPublishesNothing(trace1, trace2, h.trace);
      if r.Done? { SupersededIsEnded(before, h.trace, t, captured.inode, known, verdict); }
    } else if destination.Missing? || captured.inode == destination.inode {
      r := SettleBack(h, captured, t, start, before, before, known);
    } else {
      r, verdict := SettleOther(h, captured, destination, t, depth, fuel, start, before, before, known);
      if r.Done? { SupersededIsEnded(before, h.trace, t, captured.inode, known, verdict); }
      OtherSeen(before, trace1, trace2, h.trace, Lookup(fs2.temps, t), captured.inode, destination);
    }
  }

  /** The candidate is public: the captured file is given up under it. */
  method SettleUnder(h: Host, captured: Capture, destination: Reading, t: Id, depth: nat, fuel: nat,
      ghost start: Fs, ghost before: seq<Event>, ghost seen: seq<Event>, ghost known: Known)
    returns (r: Run<bool>, ghost verdict: Verdict)
    requires h.Valid() && KeepTree(start, h.fs, t) && InTree(before, h.trace, t)
    requires captured.dir == ReplaceDir(t) && captured.Holds(h.fs) && captured.current == captured.source
    requires captured.Acknowledged(h.trace) && destination.Found? && Quiet(seen, h.trace, t)
    requires Lookup(h.fs.temps, t) == At(h.fs, PublicFile) == Some(destination.inode)
    requires SawSince(seen, h.trace, destination.inode, destination.text) && KnownHolds(h.fs, t, known)
    requires captured.inode in known.texts ==> captured.source == known.texts[captured.inode]
    modifies h, captured
    ensures h.Valid() && KeepTree(start, h.fs, t) && InTree(before, h.trace, t)
    ensures Lookup(h.fs.caps, RollbackDir(t)) == old(Lookup(h.fs.caps, RollbackDir(t)))
    ensures SameTemp(old(h.fs), h.fs, t)
    ensures Explained(seen, h.trace, t, known) && old(h.trace) <= h.trace
    ensures h.calm && fuel > 0 && old(Unaltered(h.fs, captured) && Releasable(h.fs, captured)) ==>
      r == Done(true) && h.fs == old(WithoutCap(h.fs, ReplaceDir(t)))
    ensures r.Done? ==>
      && verdict.Superseded? && verdict.candidate == Some(destination.inode)
      && (verdict.turns == [] ==> NothingPublished(old(h.trace), h.trace))
      && ReplaceDir(t) !in h.fs.caps && SupersededAs(seen, h.trace, t, captured.inode, known, verdict)
    decreases fuel, 2, 3
  {
    hide Rely, FileWorld.Valid, Secluded, Shut, KeepTree, InTree, Ended, Covered, Explained, Quiet, Unseen, Sealed,
      KnownHolds, NothingPublished, Unaltered, Releasable, WithoutCap, SupersededAs;
    PublicIsSeen(h.fs, t, destination.inode, known);
    KnownIsUnaltered(h.fs, t, captured, known);
    r, verdict :=
      GiveUpCaptured(h, captured, destination, Some(destination.inode), t, depth, fuel, start, before, seen, known);
  }

  /** Nothing else is public: the captured file goes back. */
  method SettleBack(h: Host, captured: Capture, t: Id, ghost start: Fs, ghost before: seq<Event>, ghost seen: seq<Event>,
      ghost known: Known)
    returns (r: Run<bool>)
    requires h.Valid() && KeepTree(start, h.fs, t) && InTree(before, h.trace, t)
    requires captured.dir == ReplaceDir(t) && captured.Holds(h.fs) && Quiet(seen, h.trace, t)
    modifies h, captured
    ensures h.Valid() && KeepTree(start, h.fs, t) && InTree(before, h.trace, t)
    ensures Lookup(h.fs.caps, RollbackDir(t)) == old(Lookup(h.fs.caps, RollbackDir(t)))
    ensures SameTemp(old(h.fs), h.fs, t)
    ensures Explained(seen, h.trace, t, known) && old(h.trace) <= h.trace
    ensures h.calm && old(At(h.fs, BasePath(ReplaceDir(t))).None?) ==>
      r == Done(true) && h.fs == GivenName(old(h.fs), ReplaceDir(t), captured.inode)
    ensures r.Done? ==> ReplaceDir(t) !in h.fs.caps && Ended(seen, h.trace, t, captured.inode, OldPublic)
  {
    hide Rely, FileWorld.Valid, Secluded, Shut, KeepTree, InTree, Explained, Quiet, Keeps, WithoutCap, OnlyReturns,
      ReturnedSince;
    ghost var fs1, trace1 := h.fs, h.trace;
    QuietExtends(seen, trace1, t);
    r := RestoreIn(h, captured, t, start, before);
    KeepsSlots(fs1, h.fs, ReplaceDir(t), t);
    QuietTrans(seen, trace1, h.trace, t);
    QuietExplained(seen, h.trace, t, known);
    QuietExtends(trace1, h.trace, t);
    if r.Done? {
      ReturnedLater(seen, trace1, h.trace, captured.inode);
      EndedOld(seen, h.trace, t, captured.inode);
    }
  }

  /** Another file is public: both generations are made public together before the captured one is given up. */
  method SettleOther(h: Host, captured: Capture, destination: Reading, t: Id, depth: nat, fuel: nat,
      ghost start: Fs, ghost before: seq<Event>, ghost seen: seq<Event>, ghost known: Known)
    returns (r: Run<bool>, ghost verdict: Verdict)
    requires h.Valid() && KeepTree(start, h.fs, t) && InTree(before, h.trace, t)
    requires captured.dir == ReplaceDir(t) && captured.Holds(h.fs) && captured.current == captured.source
    requires captured.Acknowledged(h.trace) && destination.Found? && Quiet(seen, h.trace, t)
    requires captured.inode in known.texts ==> captured.source == known.texts[captured.inode]
    modifies h, captured
    ensures h.Valid() && KeepTree(start, h.fs, t) && InTree(before, h.trace, t)
    ensures Lookup(h.fs.caps, RollbackDir(t)) == old(Lookup(h.fs.caps, RollbackDir(t)))
    ensures SameTemp(old(h.fs), h.fs, t)
    ensures Explained(seen, h.trace, t, known) && old(h.trace) <= h.trace
    ensures r.Done? ==>
      && verdict.Superseded? && verdict.candidate.None? && verdict.other == destination.text
      && ReplaceDir(t) !in h.fs.caps && SupersededAs(seen, h.trace, t, captured.inode, known, verdict)
    ensures h.calm && fuel > 0 && old(MergesAndGoes(h.fs, t, captured, [captured.source, destination.text])) ==>
      && r == Done(true) && AllKept([captured.source, destination.text], PublicText(h.fs))
      && OnlyPublicChanged(old(WithoutCap(h.fs, ReplaceDir(t))), h.fs)
    ensures h.calm && fuel > 0 && old(NeverMerges(h.fs, t, [captured.source, destination.text])) ==>
      r == Threw(CollisionCode) && OnlyPublicChanged(old(h.fs), h.fs)
    decreases fuel, 2, 3
  {
    hide Rely, FileWorld.Valid, Secluded, Shut, KeepTree, InTree, Ended, Covered, Covers, Explained, Quiet, Sealed,
      Stable, NothingPublished, Unaltered, Releasable, WithoutCap, Links, PublicText, MergeSucceeds, AllKept,
      OnlyPublicChanged, Mergeable, SupersededAs;
    verdict := OldPublic;
    ghost var trace1 := h.trace;
    var merging := MergeForRecovery(h, captured, [captured.source, destination.text], t, depth, fuel, start, before);
    QuietTrans(seen, trace1, h.trace, t);
    QuietExplained(seen, h.trace, t, known);
    QuietExtends(seen, trace1, t);
    QuietExtends(trace1, h.trace, t);
    AcknowledgedLater(trace1, h.trace, captured);
    var _ :- merging;
    if h.calm && fuel > 0 && old(Mergeable(h.fs, Reconcile(t)) && Unaltered(h.fs, captured) && Releasable(h.fs, captured)) {
      StaysReleasable(old(h.fs), h.fs, captured);
    }
    ghost var fs2 := h.fs;
    CoveredLater(seen, trace1, h.trace, h.trace, [captured.source, destination.text]);
    r, verdict := GiveUpCaptured(h, captured, destination, None, t, depth, fuel, start, before, seen, known);
    SamePublicText(fs2, ReplaceDir(t));
  }

  lemma SamePublicText(fs: Fs, d: Dir)
    ensures PublicText(WithoutCap(fs, d)) == PublicText(fs)
  {
  }

  /** The public file was seen with this text, and it was neither the candidate nor the captured file. */
  ghost predicate OtherWasSeen(before: seq<Event>, after: seq<Event>, candidate: Option<Inode>, i: Inode, text: Text) {
    exists j: Inode :: SawSince(before, after, j, text) && candidate != Some(j) && j != i
  }

  lemma SawNow(w: seq<Event>, x: seq<Event>, y: seq<Event>, seen: Reading)
    requires seen.Found? && w <= x && y == x + [Saw(seen.inode, seen.text)]
    ensures SawSince(w, y, seen.inode, seen.text)
  {
    assert y[|x|] == Saw(seen.inode, seen.text);
  }

  lemma OtherSeen(w: seq<Event>, x: seq<Event>, y: seq<Event>, z: seq<Event>, candidate: Option<Inode>, i: Inode,
      destination: Reading)
    requires destination.Found? && y == x + [Saw(destination.inode, destination.text)] && w <= x && y <= z
    requires candidate != Some(destination.inode) && destination.inode != i
    ensures OtherWasSeen(w, z, candidate, i, destination.text)
  {
    assert z[|x|] == y[|x|];
    assert SawSince(w, z, destination.inode, destination.text);
  }

  lemma SeenPublishesNothing(x: seq<Event>, y: seq<Event>, z: seq<Event>)
    requires x <= y && |y| == |x| + 1 && y[|x|].Saw?
    ensures NothingPublished(y, z) ==> NothingPublished(x, z)
  {
  }

  lemma KnownIsUnaltered(fs: Fs, t: Id, c: Capture, known: Known)
    requires KnownHolds(fs, t, known) && c.current == c.source
    requires c.inode in known.texts ==> c.source == known.texts[c.inode]
    ensures c.inode in known.texts ==> Unaltered(fs, c)
  {
  }

  /** The public file is not the candidate as long as nobody could see the candidate. */
  lemma PublicIsSeen(fs: Fs, t: Id, i: Inode, known: Known)
    requires Lookup(fs.temps, t) == Some(i) && At(fs, PublicFile) == Some(i) && KnownHolds(fs, t, known)
    ensures !known.unseen
  {
    assert fs.names[Public] in fs.names.Values;
  }

  lemma EndedOld(before: seq<Event>, after: seq<Event>, t: Id, i: Inode)
    requires ReturnedSince(before, after, i)
    ensures Ended(before, after, t, i, OldPublic)
  {
  }

  /** No capture of the ID is left. */
  ghost predicate NothingLeft(fs: Fs, t: Id) {
    ReplaceDir(t) !in fs.caps && RollbackDir(t) !in fs.caps
  }

  /** Nothing at all is left of the ID. */
  ghost predicate Clean(fs: Fs, t: Id) {
    NothingLeft(fs, t) && NoTemporary(fs, t)
  }

  lemma PublishesNothingYet(trace: seq<Event>)
    ensures NothingPublished(trace, trace)
  {
  }

  lemma TemporaryPublishesNothing(before: seq<Event>, after: seq<Event>, t: Id)
    requires OnlyTemporary(before, after, t)
    ensures NothingPublished(before, after)
  {
  }

  /** The nested recovery and the removal of its candidate. */
  method RecoverDerived(h: Host, t: Id, depth: nat, fuel: nat, ghost start: Fs, ghost before: seq<Event>)
    returns (r: Run<bool>)
    requires h.Valid() && KeepTree(start, h.fs, t) && InTree(before, h.trace, t) && depth < RECONCILIATION_DEPTH
    modifies h
    ensures h.Valid() && KeepTree(start, h.fs, t) && InTree(before, h.trace, t) && Quiet(old(h.trace), h.trace, t)
    ensures forall d: Dir :: d.purpose.id == t ==> Lookup(h.fs.caps, d) == old(Lookup(h.fs.caps, d))
    ensures Grows(old(h.fs), h.fs) && SameTemp(old(h.fs), h.fs, t) && ShutIn(old(h.fs), h.fs, ReplaceDir(t))
    ensures old(NothingLeft(h.fs, Reconcile(t))) ==> NothingPublished(old(h.trace), h.trace)
    ensures h.calm && old(Clean(h.fs, Reconcile(t))) ==> r.Done? && h.fs == old(h.fs)
    decreases fuel, 5, RECONCILIATION_DEPTH - depth, 0
  {
    hide Rely, FileWorld.Valid, Secluded, Shut, KeepTree, InTree, Ended, Keeps, NothingPublished;
    ghost var fs1, trace1 := h.fs, h.trace;
    ghost var file, verdict;
    var derived: Run<bool>;
    derived, file, verdict := RecoverReplacement(h, Reconcile(t), depth + 1, fuel, Known(false, map[]));
    ghost var fs2, trace2 := h.fs, h.trace;
    KeepsDerived(fs1, fs2, t);
    InDerivedTree(trace1, trace2, t);
    KeepTreeTrans(start, fs1, fs2, t);
    InTreeTrans(before, trace1, trace2, t);
    InTreeExtends(trace1, trace2, t);
    KeepTreeGrows(fs1, fs2, t);
    ShutInTree(fs1, fs2, ReplaceDir(t), t);
    PublishesNothingYet(trace1);
    var _ :- derived;
    r := RemoveTemporaryFile(h, Reconcile(t), None);
    TemporaryPublishesNothing(trace2, h.trace, Reconcile(t));
    KeepsInTree(fs2, h.fs, TempDir(Reconcile(t)), Reconcile(t));
    KeepsDerived(fs2, h.fs, t);
    InDerivedTree(trace2, h.trace, t);
    KeepTreeTrans(start, fs2, h.fs, t);
    InTreeTrans(before, trace2, h.trace, t);
    InTreeExtends(trace2, h.trace, t);
    KeepTreeTrans(fs1, fs2, h.fs, t);
    KeepTreeGrows(fs1, h.fs, t);
    ShutInTree(fs2, h.fs, ReplaceDir(t), t);
    ShutInTrans(fs1, fs2, h.fs, ReplaceDir(t));
  }

  /** The steps of a recovery before the capture is reopened: `true` when it is still there. */
  method BeginRecovery(h: Host, t: Id, fuel: nat) returns (r: Run<bool>)
    requires h.Valid()
    modifies h
    ensures h.Valid() && KeepTree(old(h.fs), h.fs, t) && InTree(old(h.trace), h.trace, t)
    ensures Quiet(old(h.trace), h.trace, t) && SameTemp(old(h.fs), h.fs, t)
    ensures r.Done? ==> RollbackDir(t) !in h.fs.caps
    ensures old(RollbackDir(t) !in h.fs.caps) ==>
      h.trace == old(h.trace) && forall e :: e != ReplaceDir(t) ==> Lookup(h.fs.caps, e) == old(Lookup(h.fs.caps, e))
    ensures old(RollbackDir(t) !in h.fs.caps && ReplaceDir(t) !in h.fs.caps) ==> r != Done(true)
    ensures r.Done? && r.value ==> old(SlotFile(h.fs, ReplaceDir(t))) in {None, SlotFile(h.fs, ReplaceDir(t))}
    ensures r.Done? && !r.value ==> ReplaceDir(t) !in h.fs.caps
    ensures r.Done? && !r.value && old(SlotFile(h.fs, ReplaceDir(t))).Some? ==>
      ReturnedSince(old(h.trace), h.trace, old(SlotFile(h.fs, ReplaceDir(t))).value)
    ensures r == Done(true) ==> ShutIn(old(h.fs), h.fs, ReplaceDir(t))
    ensures h.calm && old(NothingLeft(h.fs, t)) ==> r == Done(false) && h.fs == old(h.fs)
    ensures h.calm && old(RollbackDir(t) !in h.fs.caps && Removable(h.fs, ReplaceDir(t))) ==>
      r == Done(false) && h.fs == old(WithoutCap(h.fs, ReplaceDir(t)))
    ensures h.calm && old(RollbackDir(t) !in h.fs.caps && ResumableWith(h.fs, ReplaceDir(t), 2)) ==>
      r == Done(true) && h.fs == old(h.fs)
    ensures h.calm && fuel > 0 && old(MidRollback(h.fs, t)) ==> r == Done(false) && h.fs == old(RollbackEnded(h.fs, t))
    decreases fuel, 4
  {
    hide Rely, FileWorld.Valid, Secluded, Shut, KeepTree, InTree, ShutIn, Links, WithoutCap, RollbackEnded, MidRollback,
      Resumable, ResumableWith, Removable, Keeps, Grows, Stable, ShutKept, ShutBut, Shields;
    if ResumableWith(h.fs, ReplaceDir(t), 2) { ResumableIsOpen(h.fs, ReplaceDir(t)); }
    if MidRollback(h.fs, t) { RollbackLeavesNothing(h.fs, t); }
    var _ :- RecoverRollback(h, t, fuel);
    ghost var fs1 := h.fs;
    var finishing := FinishReleasedIfPresent(h, ReplaceDir(t));
    FinishInTree(old(h.fs), fs1, h.fs, ReplaceDir(t), t);
    var finished :- finishing;
    if finished { return Done(false); }
    ghost var fs2 := h.fs;
    ShutInShielded(fs1, fs2, ReplaceDir(t));
    r := h.DirExists(ReplaceDir(t), false);
    ReadKeeps(old(h.fs), fs2, h.fs, t);
    ShutInStable(fs2, h.fs, ReplaceDir(t));
    ShutInTrans(fs1, fs2, h.fs, ReplaceDir(t));
    if r == Done(true) { ShutInTrans(old(h.fs), fs1, h.fs, ReplaceDir(t)); }
  }

  lemma ResumableIsOpen(fs: Fs, d: Dir)
    requires ResumableWith(fs, d, 2)
    ensures d in fs.caps && fs.caps[d].Open? && !Removable(fs, d)
  {
    hide Links;
  }

  lemma RollbackLeavesNothing(fs: Fs, t: Id)
    requires MidRollback(fs, t)
    ensures ReplaceDir(t) !in RollbackEnded(fs, t).caps && RollbackDir(t) in fs.caps
  {
    hide Links;
  }

  /** A replacement was interrupted with its file captured, and nothing else is left over. */
  ghost predicate Interrupted(fs: Fs, t: Id) {
    RollbackDir(t) !in fs.caps && Resumable(fs, ReplaceDir(t)) && Clean(fs, Reconcile(t))
  }

  lemma InterruptedResumes(fs: Fs, t: Id)
    requires Interrupted(fs, t)
    ensures RollbackDir(t) !in fs.caps && ResumableWith(fs, ReplaceDir(t), 2) && Clean(fs, Reconcile(t))
  {
  }

  lemma InterruptedHolds(fs: Fs, t: Id)
    requires Interrupted(fs, t)
    ensures SlotFile(fs, ReplaceDir(t)).Some? && !NothingLeft(fs, t) && !Removable(fs, ReplaceDir(t))
  {
  }

  /** Resuming an interrupted capture gives no file a further name. */
  lemma ResumingAddsNoLink(fs: Fs, d: Dir, i: Inode)
    requires Resumable(fs, d)
    ensures Links(ResumedFs(fs, d), i) <= Links(fs, i)
  {
    hide Links, Outside;
    ResumedLinks(fs, d);
    LinksAre(fs, d, i);
    LinksAre(ResumedFs(fs, d), d, i);
    OutsideStays(fs, ResumedFs(fs, d), d, i);
  }

  /** What can be decided about an interrupted replacement can be decided once its capture is resumed. */
  lemma ResumedDecides(a: Fs, b: Fs, t: Id, c: Capture)
    requires Interrupted(a, t) && b == ResumedFs(a, ReplaceDir(t)) && SlotFile(a, ReplaceDir(t)) == Some(c.inode)
    requires c.source == TextIn(a, c.inode) && c.current == c.source && c.maximumLinks == 2
    ensures NothingShown(a, t) ==> NothingShown(b, t)
    ensures CandidateShown(a, t) ==> CandidateShown(b, t)
    ensures Sealed(a, c.inode) ==> Unaltered(b, c) && Releasable(b, c)
    ensures WithoutCap(b, ReplaceDir(t)) == WithoutCap(a, ReplaceDir(t))
    ensures GivenName(b, ReplaceDir(t), c.inode) == GivenName(a, ReplaceDir(t), c.inode)
  {
    hide Links;
    ResumingAddsNoLink(a, ReplaceDir(t), c.inode);
    if Public in a.names { ResumingAddsNoLink(a, ReplaceDir(t), a.names[Public]); }
    if t in a.temps { ResumingAddsNoLink(a, ReplaceDir(t), a.temps[t]); }
  }

  /** Another file is public, and the interrupted generation, which nobody can write, can be merged into it. */
  ghost predicate RecoversBeside(fs: Fs, t: Id) {
    && Interrupted(fs, t) && OtherShown(fs, t, SlotFile(fs, ReplaceDir(t)).value)
    && Sealed(fs, SlotFile(fs, ReplaceDir(t)).value) && MergeSucceeds(fs, InterruptedTexts(fs, t))
  }

  /** Another file is public, and left alone the merge never holds both generations. */
  ghost predicate NeverRecovers(fs: Fs, t: Id) {
    && Interrupted(fs, t) && OtherShown(fs, t, SlotFile(fs, ReplaceDir(t)).value)
    && !MergeSucceeds(fs, InterruptedTexts(fs, t))
  }

  function InterruptedTexts(fs: Fs, t: Id): seq<Text> {
    BothTexts(fs, TextIn(fs, SlotFile(fs, ReplaceDir(t)).GetOr(0)))
  }

  lemma ResumedMerges(a: Fs, b: Fs, t: Id, c: Capture)
    requires Interrupted(a, t) && b == ResumedFs(a, ReplaceDir(t)) && SlotFile(a, ReplaceDir(t)) == Some(c.inode)
    requires c.source == TextIn(a, c.inode) && c.current == c.source && c.maximumLinks == 2
    ensures RecoversBeside(a, t) ==> MergesUnder(b, t, c)
    ensures NeverRecovers(a, t) ==> NeverMergesUnder(b, t, c)
    ensures BothTexts(b, c.source) == InterruptedTexts(a, t)
  {
    hide Links, MergeSucceeds, Unaltered, Releasable;
    ResumedDecides(a, b, t, c);
    OwnIdIsOutside(t);
    assert ReplaceDir(Reconcile(t)) != ReplaceDir(t);
    if Public in a.names { ResumingAddsNoLink(a, ReplaceDir(t), a.names[Public]); }
    if t in a.temps { ResumingAddsNoLink(a, ReplaceDir(t), a.temps[t]); }
    SameMerge(a, b, InterruptedTexts(a, t));
    if Mergeable(a, Reconcile(t)) { ResumedWellFormed(a, ReplaceDir(t)); }
  }

  lemma RecoveringIsInterrupted(fs: Fs, t: Id)
    ensures RecoversBeside(fs, t) || NeverRecovers(fs, t) ==> Interrupted(fs, t)
  {
  }

  lemma SameMerge(a: Fs, b: Fs, sources: seq<Text>)
    requires b.names == a.names && b.data == a.data
    ensures MergeSucceeds(a, sources) <==> MergeSucceeds(b, sources)
  {
  }

  lemma ResumedWellFormed(fs: Fs, d: Dir)
    requires WellFormed(fs) && Resumable(fs, d)
    ensures WellFormed(ResumedFs(fs, d))
  {
    assert Slots(fs.caps[d]) <= fs.data.Keys;
  }

  /** The derived recovery comes before the capture is reopened: `true` when the capture is still there. */
  method RecoverFirst(h: Host, t: Id, depth: nat, fuel: nat, ghost known: Known) returns (r: Run<bool>)
    requires h.Valid() && KnownHolds(h.fs, t, known)
    modifies h
    ensures h.Valid() && KeepTree(old(h.fs), h.fs, t) && InTree(old(h.trace), h.trace, t)
    ensures Quiet(old(h.trace), h.trace, t) && SameTemp(old(h.fs), h.fs, t)
    ensures r.Done? ==> RollbackDir(t) !in h.fs.caps
    ensures r == Done(false) ==> ReplaceDir(t) !in h.fs.caps
    ensures r == Done(false) && old(SlotFile(h.fs, ReplaceDir(t))).Some? ==>
      ReturnedSince(old(h.trace), h.trace, old(SlotFile(h.fs, ReplaceDir(t))).value)
    ensures r == Done(true) ==>
      KnownHolds(h.fs, t, known) && old(SlotFile(h.fs, ReplaceDir(t))) in {None, SlotFile(h.fs, ReplaceDir(t))}
    ensures old(NothingLeft(h.fs, t)) ==> h.trace == old(h.trace) && r != Done(true)
    ensures r.Done? && old(RollbackDir(t) !in h.fs.caps && NothingLeft(h.fs, Reconcile(t))) ==>
      NothingPublished(old(h.trace), h.trace)
    ensures h.calm && old(NothingLeft(h.fs, t)) ==> r == Done(false) && h.fs == old(h.fs)
    ensures h.calm && old(RollbackDir(t) !in h.fs.caps && Removable(h.fs, ReplaceDir(t))) ==>
      r == Done(false) && h.fs == old(WithoutCap(h.fs, ReplaceDir(t)))
    ensures h.calm && depth < RECONCILIATION_DEPTH && old(Interrupted(h.fs, t)) ==> r == Done(true) && h.fs == old(h.fs)
    ensures h.calm && fuel > 0 && old(MidRollback(h.fs, t)) ==> r == Done(false) && h.fs == old(RollbackEnded(h.fs, t))
    decreases fuel, 5, if depth <= RECONCILIATION_DEPTH then RECONCILIATION_DEPTH - depth else 0, 1
  {
    hide MidRollback, RollbackEnded, Rely, FileWorld.Valid, Secluded, Shut, KeepTree, InTree, KeptOrReturned, Quiet,
      Unseen, Grows, ShutIn, KnownHolds, Sealed, SealedFiles, NothingPublished, Links, WithoutCap, Resumable, Removable,
      Clean, ResumableWith, Interrupted;
    ghost var fs0 := h.fs;
    if Interrupted(fs0, t) { InterruptedResumes(fs0, t); }
    var beginning := BeginRecovery(h, t, fuel);
    ghost var fs1, trace1 := h.fs, h.trace;
    PublishesNothingYet(trace1);
    KeepTreeGrows(fs0, fs1, t);
    var present :- beginning;
    if !present { return Done(false); }
    KnownKept(fs0, fs1, t, known);
    DerivedKept(fs0, fs1, t);
    if depth >= RECONCILIATION_DEPTH { return Threw(CollisionCode); }
    var deriving := RecoverDerived(h, t, depth, fuel, old(h.fs), old(h.trace));
    QuietTrans(old(h.trace), trace1, h.trace, t);
    KnownKept(fs1, h.fs, t, known);
    var _ :- deriving;
    SameSlot(fs1, h.fs, ReplaceDir(t));
    SameSlot(fs1, h.fs, RollbackDir(t));
    return Done(true);
  }

  /** The steps before the decision: `null` when nothing of the replacement is captured any more. */
  method ReopenReplaced(h: Host, t: Id, depth: nat, fuel: nat, ghost known: Known) returns (r: Run<Capture?>)
    requires h.Valid() && KnownHolds(h.fs, t, known)
    modifies h
    ensures h.Valid() && KeepTree(old(h.fs), h.fs, t) && InTree(old(h.trace), h.trace, t)
    ensures Quiet(old(h.trace), h.trace, t) && SameTemp(old(h.fs), h.fs, t)
    ensures r.Done? ==> RollbackDir(t) !in h.fs.caps
    ensures r == Done(null) ==> ReplaceDir(t) !in h.fs.caps
    ensures r == Done(null) && old(SlotFile(h.fs, ReplaceDir(t))).Some? ==>
      ReturnedSince(old(h.trace), h.trace, old(SlotFile(h.fs, ReplaceDir(t))).value)
    ensures r.Done? && r.value != null ==>
      && fresh(r.value) && r.value.dir == ReplaceDir(t) && r.value.Holds(h.fs) && r.value.current == r.value.source
      && r.value.Acknowledged(h.trace) && KnownHolds(h.fs, t, known)
      && (r.value.inode in known.texts ==> r.value.source == known.texts[r.value.inode])
      && old(SlotFile(h.fs, ReplaceDir(t))) in {None, Some(r.value.inode)}
    ensures old(NothingLeft(h.fs, t)) ==> h.trace == old(h.trace) && !(r.Done? && r.value != null)
    ensures r.Done? && old(RollbackDir(t) !in h.fs.caps && NothingLeft(h.fs, Reconcile(t))) ==>
      NothingPublished(old(h.trace), h.trace)
    ensures h.calm && old(NothingLeft(h.fs, t)) ==> r == Done(null) && h.fs == old(h.fs)
    ensures h.calm && old(RollbackDir(t) !in h.fs.caps && Removable(h.fs, ReplaceDir(t))) ==>
      r == Done(null) && h.fs == old(WithoutCap(h.fs, ReplaceDir(t)))
    ensures h.calm && depth < RECONCILIATION_DEPTH && old(Interrupted(h.fs, t)) ==>
      && r.Done? && r.value != null && r.value.maximumLinks == 2 && h.fs == old(ResumedFs(h.fs, ReplaceDir(t)))
      && r.value.source == TextIn(old(h.fs), r.value.inode)
    ensures h.calm && fuel > 0 && old(MidRollback(h.fs, t)) ==> r == Done(null) && h.fs == old(RollbackEnded(h.fs, t))
    decreases fuel, 5, if depth <= RECONCILIATION_DEPTH then RECONCILIATION_DEPTH - depth else 0, 2
  {
    hide MidRollback, RollbackEnded, Rely, FileWorld.Valid, Secluded, Shut, KeepTree, InTree, Quiet, Unseen, Grows,
      ShutIn, KnownHolds, ReturnedSince, Sealed, SealedFiles, NothingPublished, OnlyTakes, Keeps, Shields, Links,
      ResumedFs, WithoutCap, Resumable, Removable, TextIn, Clean, ResumableWith, Interrupted;
    if Interrupted(h.fs, t) { InterruptedResumes(h.fs, t); }
    var beginning := RecoverFirst(h, t, depth, fuel, known);
    ghost var fs1, trace1 := h.fs, h.trace;
    var present :- beginning;
    if !present { return Done(null); }
    var capturing := CaptureIn(h, ReplaceDir(t), 2, t, old(h.fs), old(h.trace));
    QuietTrans(old(h.trace), trace1, h.trace, t);
    KeepsSlots(fs1, h.fs, ReplaceDir(t), t);
    SameSlot(fs1, h.fs, RollbackDir(t));
    TakesPublishNothing(trace1, h.trace, ReplaceDir(t));
    var captured :- capturing;
    if captured == null { return Threw(FailedCode); }
    ShutInShielded(fs1, h.fs, ReplaceDir(t));
    KnownKept(fs1, h.fs, t, known);
    KnownIsSealed(fs1, t, known, captured.inode);
    if old(RollbackDir(t) !in h.fs.caps && NothingLeft(h.fs, Reconcile(t))) {
      NothingPublishedTrans(old(h.trace), trace1, h.trace);
    }
    return Done(captured);
  }

  /**
   `recoverProjectPreparationFileReplacement`, from any state a crash can leave:
   when it returns, both captures are gone and the generation the interrupted
   replacement still held is public again, released under the published
   candidate, or released after both generations were public together. Otherwise
   it fails, and the invariant still names every generation.
   */
  method RecoverReplacement(h: Host, t: Id, depth: nat, fuel: nat, ghost known: Known)
    returns (r: Run<bool>, ghost file: Option<Inode>, ghost verdict: Verdict)
    requires h.Valid() && KnownHolds(h.fs, t, known)
    modifies h
    ensures h.Valid() && KeepTree(old(h.fs), h.fs, t) && InTree(old(h.trace), h.trace, t)
    ensures SameTemp(old(h.fs), h.fs, t)
    ensures Explained(old(h.trace), h.trace, t, known)
    ensures r.Done? ==> ReplaceDir(t) !in h.fs.caps && RollbackDir(t) !in h.fs.caps
    ensures r.Done? && old(SlotFile(h.fs, ReplaceDir(t))).Some? ==> file == old(SlotFile(h.fs, ReplaceDir(t)))
    ensures r.Done? && file.Some? ==> Ended(old(h.trace), h.trace, t, file.value, verdict)
    ensures r.Done? && file.Some? && verdict.Superseded? ==>
      SupersededAs(old(h.trace), h.trace, t, file.value, known, verdict)
    ensures r.Done? && file.Some? && verdict.Superseded? && verdict.candidate.Some? ==>
      verdict.candidate == Lookup(h.fs.temps, t)
    ensures r.Done? && file.Some? && verdict.Superseded? && verdict.candidate.None? ==>
      OtherWasSeen(old(h.trace), h.trace, Lookup(h.fs.temps, t), file.value, verdict.other)
    ensures old(NothingLeft(h.fs, t)) ==> h.trace == old(h.trace)
    ensures r.Done? && file.Some? && verdict.Superseded? && verdict.candidate.Some? && verdict.turns == [] ==>
      old(RollbackDir(t) !in h.fs.caps && NothingLeft(h.fs, Reconcile(t))) ==> NothingPublished(old(h.trace), h.trace)
    ensures h.calm && old(NothingLeft(h.fs, t)) ==> r == Done(true) && h.fs == old(h.fs)
    ensures h.calm && old(RollbackDir(t) !in h.fs.caps && Removable(h.fs, ReplaceDir(t))) ==>
      r == Done(true) && h.fs == old(WithoutCap(h.fs, ReplaceDir(t)))
    ensures h.calm && depth < RECONCILIATION_DEPTH && old(Interrupted(h.fs, t) && NothingShown(h.fs, t)) ==>
      && r == Done(true) && verdict == OldPublic
      && h.fs == old(GivenName(h.fs, ReplaceDir(t), SlotFile(h.fs, ReplaceDir(t)).value))
    ensures h.calm && depth < RECONCILIATION_DEPTH && fuel > 0 && old(Interrupted(h.fs, t) && CandidateShown(h.fs, t)
        && Sealed(h.fs, SlotFile(h.fs, ReplaceDir(t)).value)) ==>
      && r == Done(true) && verdict.Superseded? && verdict.candidate == old(Lookup(h.fs.temps, t))
      && h.fs == old(WithoutCap(h.fs, ReplaceDir(t)))
    ensures h.calm && depth < RECONCILIATION_DEPTH && fuel > 0 && old(RecoversBeside(h.fs, t)) ==>
      && r == Done(true) && verdict.Superseded? && verdict.candidate.None?
      && AllKept(old(InterruptedTexts(h.fs, t)), PublicText(h.fs))
      && OnlyPublicChanged(old(WithoutCap(h.fs, ReplaceDir(t))), h.fs)
    ensures h.calm && depth < RECONCILIATION_DEPTH && fuel > 0 && old(NeverRecovers(h.fs, t)) ==>
      r == Threw(CollisionCode) && OnlyPublicChanged(old(ResumedFs(h.fs, ReplaceDir(t))), h.fs)
    ensures h.calm && fuel > 0 && old(MidRollback(h.fs, t)) ==> r == Done(true) && h.fs == old(RollbackEnded(h.fs, t))
    decreases fuel, 5, if depth <= RECONCILIATION_DEPTH then RECONCILIATION_DEPTH - depth else 0, 3
  {
    hide MidRollback, RollbackEnded, Rely, FileWorld.Valid, Secluded, Shut, KeepTree, InTree, Ended, KeptOrReturned,
      Explained, Quiet, Unseen, Grows, ShutIn, KnownHolds, Sealed, SealedFiles, SupersededAs, NothingPublished,
      OtherWasSeen, Interrupted, NothingShown, CandidateShown, GivenName, WithoutCap, Unaltered, Releasable, ResumedFs,
      Links, Removable, RecoversBeside, NeverRecovers, InterruptedTexts, BothTexts, MergesUnder, NeverMergesUnder,
      AllKept, PublicText, OnlyPublicChanged, TextIn, SlotFile, Mergeable, Returns, Released, NothingLeft, SameTemp;
    verdict, file := OldPublic, old(SlotFile(h.fs, ReplaceDir(t)));
    RecoveringIsInterrupted(h.fs, t);
    var opening := ReopenReplaced(h, t, depth, fuel, known);
    ghost var fs5, trace5 := h.fs, h.trace;
    QuietExplained(old(h.trace), trace5, t, known);
    QuietExtends(old(h.trace), trace5, t);
    var captured :- opening;
    if captured == null {
      if file.Some? { EndedOld(old(h.trace), h.trace, t, file.value); }
      r := Done(true);
      return;
    }
    if h.calm && depth < RECONCILIATION_DEPTH && old(Interrupted(h.fs, t)) {
      InterruptedHolds(old(h.fs), t);
      ResumedDecides(old(h.fs), fs5, t, captured);
      ResumedMerges(old(h.fs), fs5, t, captured);
    }
    file := Some(captured.inode);
    r, verdict := Settle(h, captured, t, depth, fuel, old(h.fs), old(h.trace), known);
    SameSlot(fs5, h.fs, RollbackDir(t));
    SameTempTrans(old(h.fs), fs5, h.fs, t);
    if old(RollbackDir(t) !in h.fs.caps && NothingLeft(h.fs, Reconcile(t))) {
      if r.Done? && verdict.Superseded? && verdict.candidate.Some? && verdict.turns == [] {
        NothingPublishedTrans(old(h.trace), trace5, h.trace);
      }
    }
  }

  lemma SameTempTrans(a: Fs, b: Fs, c: Fs, t: Id)
    requires SameTemp(a, b, t) && SameTemp(b, c, t)
    ensures SameTemp(a, c, t) && Lookup(c.temps, t) == Lookup(b.temps, t) == Lookup(a.temps, t)
  {
  }

  lemma DerivedKept(a: Fs, b: Fs, t: Id)
    ensures (forall e :: e != ReplaceDir(t) ==> Lookup(b.caps, e) == Lookup(a.caps, e)) && NothingLeft(a, Reconcile(t)) ==>
      NothingLeft(b, Reconcile(t))
  {
    OwnIdIsOutside(t);
    assert ReplaceDir(Reconcile(t)) != ReplaceDir(t) && RollbackDir(Reconcile(t)) != ReplaceDir(t);
    if forall e :: e != ReplaceDir(t) ==> Lookup(b.caps, e) == Lookup(a.caps, e) {
      assert Lookup(b.caps, ReplaceDir(Reconcile(t))) == Lookup(a.caps, ReplaceDir(Reconcile(t)));
      assert Lookup(b.caps, RollbackDir(Reconcile(t))) == Lookup(a.caps, RollbackDir(Reconcile(t)));
    }
  }

  lemma TakesPublishNothing(before: seq<Event>, after: seq<Event>, d: Dir)
    requires OnlyTakes(before, after, d)
    ensures NothingPublished(before, after)
  {
  }

  lemma KnownIsSealed(fs: Fs, t: Id, known: Known, i: Inode)
    requires KnownHolds(fs, t, known)
    ensures i in known.texts ==> i in SealedFiles(fs) && fs.data[i] == known.texts[i]
  {
  }

  lemma ExplainedExtends(x: seq<Event>, y: seq<Event>, t: Id, known: Known)
    requires Explained(x, y, t, known)
    ensures x <= y && NotPublished(x, y, t)
  {
  }

  lemma FinishInTree(a: Fs, b: Fs, c: Fs, d: Dir, t: Id)
    requires KeepTree(a, b, t) && c.temps == b.temps && Grows(b, c) && d.purpose.id == t
    requires ShutBut(b, c, d)
    requires c.caps == b.caps - {d} || FinishBegun(b.caps, c.caps, d)
    ensures KeepTree(a, c, t)
  {
  }

  // ---------------------------------------------------------- replacement

  function WithoutTemp(fs: Fs, t: Id): Fs {
    fs.(temps := fs.temps - {t})
  }

  /** A file that only existed under private names that are gone again. */
  function Written(fs: Fs, c: Inode, text: Text): Fs {
    fs.(data := fs.data[c := text])
  }

  /** `rm(temporaryPath)` in the tree of `t`. */
  method DropTemporary(h: Host, t: Id, ghost start: Fs, ghost before: seq<Event>) returns (r: Run<bool>)
    requires h.Valid() && KeepTree(start, h.fs, t) && InTree(before, h.trace, t)
    modifies h
    ensures h.Valid() && KeepTree(start, h.fs, t) && InTree(before, h.trace, t)
    ensures h.fs.caps == old(h.fs.caps) && h.trace == old(h.trace)
    ensures h.calm && old(t in h.fs.temps) ==> r == Done(true) && h.fs == old(WithoutTemp(h.fs, t))
    ensures Grows(old(h.fs), h.fs) && Confined(old(h.fs), h.fs, TempDir(t))
  {
    hide Rely, FileWorld.Valid, Secluded, Shut;
    var removed :- h.RmTemp(t);
    return if removed == Ok then Done(true) else Threw(FailedCode);
  }

  /** The file captured for a replacement went back, nothing of it was given up. */
  ghost predicate Undone(a: Fs, b: Fs, before: seq<Event>, after: seq<Event>, d: Dir) {
    && SlotFile(b, d).None?
    && (forall k :: |before| <= k < |after| && after[k].Dropped? ==> after[k].dir != d)
    && (SlotFile(a, d).Some? ==> ReturnedSince(before, after, SlotFile(a, d).value))
    && (forall k :: |before| <= k < |after| && after[k].Took? && after[k].dir == d ==>
          ReturnedSince(after[..k + 1], after, after[k].inode))
  }

  /** The candidate is public and has no further name, and nobody has it open. */
  ghost predicate Withdrawable(fs: Fs, t: Id) {
    && CandidateShown(fs, t) && RollbackDir(t) !in fs.caps
    && fs.names[Public] in fs.data && fs.names[Public] !in fs.open
    && forall n :: n in fs.names && fs.names[n] == fs.names[Public] ==> n == Public
  }

  /** And it is not the captured file. */
  ghost predicate Revocable(fs: Fs, t: Id, captured: Capture?) {
    Withdrawable(fs, t) && InodeIn(captured) != Some(fs.names[Public])
  }

  /** The candidate is gone again, and the old generation, if there was one, is public. */
  function RolledBack(fs: Fs, t: Id, captured: Option<Inode>): Fs {
    var withdrawn := WithoutTemp(fs.(names := fs.names - {Public}), t);
    if captured.None? then withdrawn else GivenName(withdrawn, ReplaceDir(t), captured.value)
  }

  /** The candidate is captured, and the old generation public. */
  function Withdrawn(fs: Fs, t: Id, captured: Option<Inode>): Fs
    requires Public in fs.names
  {
    var taken := TakenFs(fs, RollbackDir(t));
    if captured.None? then taken else GivenName(taken, ReplaceDir(t), captured.value)
  }

  lemma WithdrawableGives(fs: Fs, t: Id)
    requires Withdrawable(fs, t)
    ensures Public in fs.names && Takable(fs, RollbackDir(t), 2)
    ensures Reads(fs, TempFile(t), 2) == Done(PublicReading(fs)) && PublicReading(fs).Found?
    ensures At(fs, BasePath(RollbackDir(t))) == Some(PublicReading(fs).inode)
    ensures At(TakenFs(fs, RollbackDir(t)), BasePath(ReplaceDir(t))).None?
  {
    hide Links;
    ShownReads(fs, t);
  }

  /** Nothing stands against giving up the withdrawn candidate. */
  lemma WithdrawnGoes(fs: Fs, t: Id, replaced: Option<Inode>, c: Capture)
    requires Withdrawable(fs, t) && c.dir == RollbackDir(t) && c.inode == fs.names[Public] && c.maximumLinks == 2
    requires c.current == TextIn(fs, c.inode) && replaced != Some(c.inode)
    requires replaced.Some? ==> Lookup(fs.caps, ReplaceDir(t)) == Some(Open(replaced, None))
    ensures Unaltered(Withdrawn(fs, t, replaced), c) && Releasable(Withdrawn(fs, t, replaced), c)
    ensures WithoutTemp(WithoutCap(Withdrawn(fs, t, replaced), RollbackDir(t)), t) == RolledBack(fs, t, replaced)
    ensures t in Withdrawn(fs, t, replaced).temps
  {
    hide Links;
    var d, taken, b := RollbackDir(t), TakenFs(fs, RollbackDir(t)), Withdrawn(fs, t, replaced);
    TakenLinks(fs, d);
    if replaced.Some? { OtherGivenName(taken, ReplaceDir(t), replaced.value, c.inode); }
    assert taken.caps - {d} == fs.caps;
    assert b.caps - {d} == (if replaced.Some? then fs.caps - {ReplaceDir(t)} else fs.caps);
    forall n | n in b.names ensures b.names[n] != c.inode { }
  }

  /** The names of another file stay when a captured one goes back. */
  lemma OtherGivenName(fs: Fs, d: Dir, i: Inode, j: Inode)
    requires d.place.AtPublic? && Public !in fs.names && i != j && Lookup(fs.caps, d) == Some(Open(Some(i), None))
    ensures Links(GivenName(fs, d, i), j) == Links(fs, j)
  {
    var after := GivenName(fs, d, i);
    assert PublicNames(after, j) == PublicNames(fs, j);
    assert TempNames(after, j) == TempNames(fs, j);
    assert CapturedDirs(after, j) == CapturedDirs(fs, j);
    assert ReleaseDirs(after, j) == ReleaseDirs(fs, j);
    assert FinishedDirs(after, j) == FinishedDirs(fs, j);
  }

  /** Captures the public file again and insists that it is the candidate. */
  method WithdrawCandidate(h: Host, t: Id, changed: Reading, required: bool, ghost start: Fs, ghost before: seq<Event>)
    returns (r: Run<Capture>, rollback: bool)
    requires h.Valid() && KeepTree(start, h.fs, t) && InTree(before, h.trace, t)
    modifies h
    ensures h.Valid() && KeepTree(start, h.fs, t) && InTree(before, h.trace, t) && Quiet(old(h.trace), h.trace, t)
    ensures Grows(old(h.fs), h.fs)
    ensures r.Done? ==> rollback && fresh(r.value) && r.value.dir == RollbackDir(t) && r.value.Holds(h.fs)
    ensures r.Done? ==> r.value.Acknowledged(h.trace)
    ensures r.Done? ==> old(Lookup(h.fs.temps, t)) == Some(r.value.inode)
    ensures r.Done? ==> Untouched(old(h.trace), h.trace, ReplaceDir(t))
    ensures r.Done? ==> DropsOnly(old(h.trace), h.trace, RollbackDir(t), r.value.inode)
    ensures r.Done? ==> Lookup(h.fs.caps, ReplaceDir(t)) == old(Lookup(h.fs.caps, ReplaceDir(t)))
    ensures h.calm && old(Withdrawable(h.fs, t)) && (required ==> changed.Found?) ==>
      && r.Done? && h.fs == old(TakenFs(h.fs, RollbackDir(t))) && r.value.maximumLinks == 2
      && r.value.inode == old(h.fs.names[Public]) && r.value.source == TextIn(old(h.fs), r.value.inode)
    ensures r.Done? ==> r.value.current == r.value.source
  {
    hide Rely, FileWorld.Valid, Secluded, Shut, KeepTree, InTree, Confined, Sealed, Stable, Keeps, Grows, Quiet,
      OnlyReturns, Untouched, Withdrawable, TakenFs, Reads, Links, Takable, TextIn, OnlyTakes, DropsOnly, SlotFile,
      PublicReading;
    rollback := false;
    if Withdrawable(h.fs, t) { WithdrawableGives(h.fs, t); }
    ghost var fs1 := h.fs;
    QuietStart(h.trace, t);
    var reading := h.ReadFile(TempFile(t), 2);
    ReadKeeps(start, fs1, h.fs, t);
    var candidate :- reading;
    ghost var fs2, trace2 := h.fs, h.trace;
    StableSlots(fs1, fs2);
    var capturing := CaptureIn(h, RollbackDir(t), 2, t, start, before);
    ghost var fs3, trace3 := h.fs, h.trace;
    KeepsSlots(fs2, fs3, RollbackDir(t), t);
    GrowsTrans(fs1, fs2, fs3);
    TakesElsewhere(trace2, trace3, RollbackDir(t), ReplaceDir(t));
    var withdrawn :- capturing;
    rollback := true;
    if (required && changed.Missing?) || candidate.Missing? || withdrawn == null || candidate.inode != withdrawn.inode {
      r, rollback := NotTheCandidate(h, withdrawn, t, start, before);
      GrowsTrans(fs1, fs3, h.fs);
      QuietTrans(old(h.trace), trace3, h.trace, t);
      return;
    }
    r := Done(withdrawn);
  }

  /** What was captured instead of the candidate goes back. */
  method NotTheCandidate(h: Host, withdrawn: Capture?, t: Id, ghost start: Fs, ghost before: seq<Event>)
    returns (r: Run<Capture>, rollback: bool)
    requires h.Valid() && KeepTree(start, h.fs, t) && InTree(before, h.trace, t)
    requires withdrawn != null ==> withdrawn.dir == RollbackDir(t)
    modifies h, withdrawn
    ensures h.Valid() && KeepTree(start, h.fs, t) && InTree(before, h.trace, t) && Quiet(old(h.trace), h.trace, t)
    ensures Grows(old(h.fs), h.fs) && !r.Done?
  {
    hide Rely, FileWorld.Valid, Secluded, Shut, KeepTree, InTree, Quiet, Grows, Keeps;
    ghost var fs1 := h.fs;
    rollback := true;
    GrowsSelf(h.fs);
    QuietStart(h.trace, t);
    if withdrawn != null {
      var restoring := RestoreIn(h, withdrawn, t, start, before);
      KeepsSlots(fs1, h.fs, RollbackDir(t), t);
      var _ :- restoring;
    }
    rollback := false;
    r := Threw(CollisionCode);
  }

  lemma GrowsData(a: Fs, b: Fs)
    requires Grows(a, b)
    ensures a.data.Keys <= b.data.Keys
  {
  }

  lemma GrowsSelf(fs: Fs)
    ensures Grows(fs, fs)
  {
  }

  lemma GrowsTrans(a: Fs, b: Fs, c: Fs)
    requires Grows(a, b) && Grows(b, c)
    ensures Grows(a, c)
  {
  }

  lemma TakesElsewhere(before: seq<Event>, after: seq<Event>, d: Dir, e: Dir)
    requires OnlyTakes(before, after, d) && d != e
    ensures Untouched(before, after, e)
    ensures forall i :: DropsOnly(before, after, d, i)
  {
  }

  /**
   Undoing a publication whose old generation changed: the candidate leaves the
   public name first, then the old generation returns, then the candidate is
   given up, and what was written to it meanwhile is merged.
   */
  method RollBack(h: Host, t: Id, captured: Capture?, changed: Reading, required: bool, depth: nat, fuel: nat,
      ghost start: Fs, ghost before: seq<Event>)
    returns (r: Run<bool>, left: Capture?, rollback: bool, published: bool, temporary: bool)
    requires h.Valid() && KeepTree(start, h.fs, t) && InTree(before, h.trace, t)
    requires captured != null ==> captured.dir == ReplaceDir(t) && captured.Holds(h.fs)
    modifies h, captured
    ensures h.Valid() && KeepTree(start, h.fs, t) && InTree(before, h.trace, t) && Quiet(old(h.trace), h.trace, t)
    ensures left in {captured, null}
    ensures r.Done? ==> !r.value && !temporary && Untouched(old(h.trace), h.trace, ReplaceDir(t))
    ensures r.Done? ==> t in old(h.fs.temps) && DropsOnly(old(h.trace), h.trace, RollbackDir(t), old(h.fs.temps[t]))
    ensures r.Done? && captured == null ==> Lookup(h.fs.caps, ReplaceDir(t)) == old(Lookup(h.fs.caps, ReplaceDir(t)))
    ensures r.Done? && captured != null ==>
      ReplaceDir(t) !in h.fs.caps && ReturnedSince(old(h.trace), h.trace, captured.inode)
    ensures h.calm && fuel > 0 && (required ==> changed.Found?) && old(Revocable(h.fs, t, captured)) ==>
      r == Done(false) && h.fs == RolledBack(old(h.fs), t, InodeIn(captured))
    decreases fuel, 3, 0
  {
    hide Rely, FileWorld.Valid, Secluded, Shut, KeepTree, InTree, Confined, Sealed, Withdrawable, RolledBack, TakenFs,
      Withdrawn, Releasable, Unaltered, WithoutCap, Links, TextIn, Grows, SlotFile, Quiet;
    published, temporary := true, true;
    var withdrawing;
    withdrawing, left, rollback := ExchangeBack(h, t, captured, changed, required, start, before);
    ghost var trace1 := h.trace;
    var withdrawn :- withdrawing;
    if h.calm && (required ==> changed.Found?) && old(Revocable(h.fs, t, captured)) {
      WithdrawnGoes(old(h.fs), t, InodeIn(captured), withdrawn);
    }
    r, rollback, published, temporary := ReleaseWithdrawn(h, withdrawn, TextOf(changed), t, depth, fuel, start, before);
    QuietTrans(old(h.trace), trace1, h.trace, t);
    if r.Done? {
      UntouchedTrans(old(h.trace), trace1, h.trace, ReplaceDir(t));
      if captured != null { ReturnedOnward(old(h.trace), trace1, h.trace, captured.inode); }
    }
  }

  /** The candidate leaves the public name, and the old generation returns to it. */
  method ExchangeBack(h: Host, t: Id, captured: Capture?, changed: Reading, required: bool,
      ghost start: Fs, ghost before: seq<Event>)
    returns (r: Run<Capture>, left: Capture?, rollback: bool)
    requires h.Valid() && KeepTree(start, h.fs, t) && InTree(before, h.trace, t)
    requires captured != null ==> captured.dir == ReplaceDir(t) && captured.Holds(h.fs)
    modifies h, captured
    ensures h.Valid() && KeepTree(start, h.fs, t) && InTree(before, h.trace, t) && Quiet(old(h.trace), h.trace, t)
    ensures left in {captured, null}
    ensures r.Done? ==>
      && fresh(r.value) && r.value.dir == RollbackDir(t) && r.value.Holds(h.fs) && r.value.Acknowledged(h.trace)
      && r.value.current == r.value.source && old(Lookup(h.fs.temps, t)) == Some(r.value.inode)
      && Untouched(old(h.trace), h.trace, ReplaceDir(t)) && DropsOnly(old(h.trace), h.trace, RollbackDir(t), r.value.inode)
    ensures r.Done? && captured == null ==> Lookup(h.fs.caps, ReplaceDir(t)) == old(Lookup(h.fs.caps, ReplaceDir(t)))
    ensures r.Done? && captured != null ==>
      ReplaceDir(t) !in h.fs.caps && ReturnedSince(old(h.trace), h.trace, captured.inode)
    ensures h.calm && (required ==> changed.Found?) && old(Revocable(h.fs, t, captured)) ==>
      && r.Done? && h.fs == Withdrawn(old(h.fs), t, InodeIn(captured)) && r.value.maximumLinks == 2
      && r.value.inode == old(h.fs.names[Public]) && r.value.source == TextIn(old(h.fs), r.value.inode)
  {
    hide Rely, FileWorld.Valid, Secluded, Shut, KeepTree, InTree, Confined, Sealed, Withdrawable, TakenFs, Withdrawn,
      WithoutCap, Links, TextIn, Grows, SlotFile, Quiet, Keeps;
    left, rollback := captured, false;
    ghost var undisturbed := h.calm && (required ==> changed.Found?) && Revocable(h.fs, t, captured);
    if undisturbed { WithdrawableGives(h.fs, t); }
    var withdrawing;
    withdrawing, rollback := WithdrawCandidate(h, t, changed, required, start, before);
    ghost var fs1, trace1 := h.fs, h.trace;
    GrowsData(old(h.fs), fs1);
    var withdrawn :- withdrawing;
    if captured != null {
      var restoring := RestoreIn(h, captured, t, start, before);
      QuietTrans(old(h.trace), trace1, h.trace, t);
      KeepsSlots(fs1, h.fs, ReplaceDir(t), t);
      var _ :- restoring;
      ReturnedLater(old(h.trace), trace1, h.trace, captured.inode);
    }
    left := null;
    AcknowledgedLater(trace1, h.trace, withdrawn);
    if undisturbed { WithdrawnIs(old(h.fs), t, captured, h.fs); }
    r := Done(withdrawn);
  }

  lemma WithdrawnIs(fs: Fs, t: Id, captured: Capture?, b: Fs)
    requires Public in fs.names
    requires captured == null ==> b == TakenFs(fs, RollbackDir(t))
    requires captured != null ==>
      b == SetBase(WithoutCap(TakenFs(fs, RollbackDir(t)), ReplaceDir(t)), ReplaceDir(t), captured.inode)
    ensures b == Withdrawn(fs, t, InodeIn(captured))
  {
  }

  /** The candidate is given up, and then its temporary name. */
  method ReleaseWithdrawn(h: Host, withdrawn: Capture, changed: Text, t: Id, depth: nat, fuel: nat,
      ghost start: Fs, ghost before: seq<Event>)
    returns (r: Run<bool>, rollback: bool, published: bool, temporary: bool)
    requires h.Valid() && KeepTree(start, h.fs, t) && InTree(before, h.trace, t)
    requires withdrawn.dir == RollbackDir(t) && withdrawn.Holds(h.fs) && withdrawn.Acknowledged(h.trace)
    modifies h, withdrawn
    ensures h.Valid() && KeepTree(start, h.fs, t) && InTree(before, h.trace, t) && Quiet(old(h.trace), h.trace, t)
    ensures Untouched(old(h.trace), h.trace, ReplaceDir(t))
    ensures DropsOnly(old(h.trace), h.trace, RollbackDir(t), withdrawn.inode)
    ensures Lookup(h.fs.caps, ReplaceDir(t)) == old(Lookup(h.fs.caps, ReplaceDir(t)))
    ensures r.Done? ==> !r.value && !temporary
    ensures h.calm && fuel > 0 && old(Unaltered(h.fs, withdrawn) && Releasable(h.fs, withdrawn)
        && t in h.fs.temps) ==>
      r == Done(false) && h.fs == old(WithoutTemp(WithoutCap(h.fs, withdrawn.dir), t))
    decreases fuel, 2, 2
  {
    hide Rely, FileWorld.Valid, Secluded, Shut, KeepTree, InTree, Confined, Sealed, Released, Covered, Unaltered,
      ShutIn, Quiet, Untouched, Releasable;
    rollback, published, temporary := true, true, true;
    ghost var turns;
    var released;
    released, turns :=
      ReleaseFromTree(h, withdrawn, [withdrawn.source, changed], t, depth + 1, fuel, start, before);
    var _ :- released;
    rollback, published := false, false;
    var _ :- DropTemporary(h, t, start, before);
    temporary := false;
    r := Done(false);
  }

  /**
   The expected generation is captured, unless an interrupted replacement already did
   that, and read; or the public name is found free, as expected, unless the directory
   only waited to be cleaned up.
   */
  function TakingEvents(a: Fs, t: Id, expected: Reading): seq<Event> {
    if expected.Missing? then FoundNothing(a, ReplaceDir(t))
    else
      (if SlotFile(a, ReplaceDir(t)).Some? then [] else [Took(ReplaceDir(t), expected.inode)])
      + [Looked(ReplaceDir(t), expected.inode, expected.text)]
  }

  /** Capture `d` holds nothing or this file. */
  ghost predicate HoldsOnly(fs: Fs, d: Dir, i: Option<Inode>) {
    CapturedIn(fs, d) in {None, i} && ReleaseIn(fs, d) in {None, i}
  }

  function InodeIn(captured: Capture?): Option<Inode> {
    if captured == null then None else Some(captured.inode)
  }

  function InodeOf(reading: Reading): Option<Inode> {
    if reading.Found? then Some(reading.inode) else None
  }

  function PuttingEvents(t: Id, source: Option<Text>, c: Inode): seq<Event> {
    if source.Some? then [Published(t, c, source.value)] else []
  }

  function Matches(captured: Capture?, expected: Reading): bool {
    && (captured != null <==> expected.Found?)
    && (captured != null ==> captured.source == expected.text && captured.inode == expected.inode)
  }

  ghost predicate NoDrops(before: seq<Event>, after: seq<Event>) {
    forall k :: |before| <= k < |after| ==> !after[k].Dropped?
  }

  /** The event tells against the expected generation: another one was read in the capture, or none was public. */
  ghost predicate Doubts(e: Event, t: Id, expected: Reading) {
    || (e.Looked? && e.dir == ReplaceDir(t) && expected != Found(e.inode, e.text))
    || e == Absent(ReplaceDir(t))
  }

  ghost predicate Doubted(before: seq<Event>, after: seq<Event>, t: Id, expected: Reading) {
    exists k :: |before| <= k < |after| && Doubts(after[k], t, expected)
  }

  lemma DoubtedLater(x: seq<Event>, y: seq<Event>, z: seq<Event>, t: Id, expected: Reading)
    requires x <= y <= z
    ensures Doubted(x, y, t, expected) || Doubted(y, z, t, expected) ==> Doubted(x, z, t, expected)
  {
    if k :| |x| <= k < |y| && Doubts(y[k], t, expected) { assert Doubts(z[k], t, expected); }
  }

  lemma DoubtedBy(x: seq<Event>, z: seq<Event>, t: Id, expected: Reading, k: nat)
    requires |x| <= k < |z| && Doubts(z[k], t, expected)
    ensures Doubted(x, z, t, expected)
  {
  }

  /** An earlier replacement with this ID was over but for the removal of its directory. */
  predicate LeftFinished(fs: Fs, t: Id) {
    ReplaceDir(t) in fs.caps && fs.caps[ReplaceDir(t)].Finished?
  }

  /** The captured file is public again, and the candidate and the capture are gone. */
  function GivenBack(fs: Fs, t: Id, captured: Option<Inode>): Fs {
    var d := ReplaceDir(t);
    WithoutTemp(if captured.None? then fs else SetBase(WithoutCap(fs, d), d, captured.value), t)
  }

  /** What was captured is not the expected generation: it goes back, and the candidate goes. */
  method Abandon(h: Host, captured: Capture?, t: Id, ghost start: Fs, ghost before: seq<Event>)
    returns (r: Run<bool>, left: Capture?, temporary: bool)
    requires h.Valid() && KeepTree(start, h.fs, t) && InTree(before, h.trace, t)
    requires captured != null ==> captured.dir == ReplaceDir(t) && captured.Holds(h.fs)
    modifies h, captured
    ensures h.Valid() && KeepTree(start, h.fs, t) && InTree(before, h.trace, t)
    ensures OnlyReturns(old(h.trace), h.trace) && Quiet(old(h.trace), h.trace, t)
    ensures old(Apart(h.fs, t)) ==> Apart(h.fs, t)
    ensures left in {captured, null}
    ensures h.calm && old(t in h.fs.temps && (captured != null ==> At(h.fs, PublicFile).None?)) ==>
      r == Done(false) && h.fs == old(GivenBack(h.fs, t, InodeIn(captured)))
    ensures r.Done? ==> r == Done(false) && left == null && !temporary
    ensures r.Done? && captured == null ==> Lookup(h.fs.caps, ReplaceDir(t)) == old(Lookup(h.fs.caps, ReplaceDir(t)))
    ensures r.Done? && captured != null ==>
      SlotFile(h.fs, ReplaceDir(t)).None? && ReturnedSince(old(h.trace), h.trace, captured.inode)
  {
    hide Rely, FileWorld.Valid, Secluded, Shut, KeepTree, InTree, Quiet, Apart, Confined, ReturnedSince, Keeps;
    left, temporary := captured, true;
    ghost var fs1, apart := h.fs, Apart(h.fs, t);
    QuietStart(h.trace, t);
    if captured != null {
      var restoring := RestoreIn(h, captured, t, start, before);
      KeepsSlots(fs1, h.fs, ReplaceDir(t), t);
      if apart { ApartKept(fs1, h.fs, t); }
      var _ :- restoring;
    }
    left := null;
    ghost var fs2 := h.fs;
    var dropping := DropTemporary(h, t, start, before);
    if apart { ApartKept(fs2, h.fs, t); }
    var _ :- dropping;
    temporary := false;
    r := Done(false);
  }

  /**
   A replacement can begin: the public file has no other name and nobody has it open, or
   there is none, and nothing is left of an earlier one with the same ID.
   */
  ghost predicate Ready(fs: Fs, t: Id) {
    && WellFormed(fs) && t !in fs.temps && ReplaceDir(t) !in fs.caps
    && (Public in fs.names ==> Takable(fs, ReplaceDir(t), 1) && fs.names[Public] !in fs.open)
  }

  function PublicReading(fs: Fs): Reading {
    if Public in fs.names then Found(fs.names[Public], TextIn(fs, fs.names[Public])) else Missing
  }

  /** The candidate is written and the public file captured. */
  function PreparedFs(fs: Fs, t: Id, c: Inode, text: Text): Fs {
    var created := CreateFs(fs, TempFile(t), c, text);
    if Public in fs.names then TakenFs(created, ReplaceDir(t)) else created
  }

  lemma LinksSame(a: Fs, b: Fs, i: Inode)
    requires PublicNames(b, i) == PublicNames(a, i) && TempNames(b, i) == TempNames(a, i) && b.caps == a.caps
    ensures Links(b, i) == Links(a, i)
  {
    SameSlots(a, b, i);
  }

  lemma CreatedIsTakable(fs: Fs, t: Id, c: Inode, text: Text)
    requires Ready(fs, t) && c !in fs.data
    ensures var created := CreateFs(fs, TempFile(t), c, text);
      && ReplaceDir(t) !in created.caps && At(created, BasePath(ReplaceDir(t))) == Lookup(fs.names, Public)
      && (Public in fs.names ==> Takable(created, ReplaceDir(t), 1))
      && (Public in fs.names ==> TextIn(created, fs.names[Public]) == TextIn(fs, fs.names[Public]))
  {
    var created := CreateFs(fs, TempFile(t), c, text);
    if Public in fs.names {
      var i := fs.names[Public];
      assert i in fs.names.Values;
      assert PublicNames(created, i) == PublicNames(fs, i);
      assert TempNames(created, i) == TempNames(fs, i);
      LinksSame(fs, created, i);
    }
  }

  lemma PreparedGivenBack(fs: Fs, t: Id, c: Inode, text: Text)
    requires Ready(fs, t) && c !in fs.data
    ensures var prepared := PreparedFs(fs, t, c, text);
      && t in prepared.temps && prepared.temps[t] == c && (Public in fs.names ==> At(prepared, PublicFile).None?)
      && GivenBack(prepared, t, Lookup(fs.names, Public)) == Written(fs, c, text)
  {
    hide Links;
    var prepared, d := PreparedFs(fs, t, c, text), ReplaceDir(t);
    assert fs.temps[t := c] - {t} == fs.temps;
    if Public in fs.names {
      assert prepared.caps - {d} == fs.caps;
      assert prepared.names[Public := fs.names[Public]] == fs.names;
    }
  }

  /** What a capture in an undisturbed world finds. */
  ghost predicate TookCurrent(fs: Fs, taken: Fs, t: Id, c: Inode, text: Text, captured: Capture?) {
    && (captured == null <==> Public !in fs.names)
    && (captured != null ==> captured.inode == fs.names[Public] && captured.source == TextIn(fs, captured.inode))
    && taken == PreparedFs(fs, t, c, text)
  }

  lemma CaptureIsCurrent(fs: Fs, t: Id, c: Inode, text: Text, captured: Capture?, taken: Fs)
    requires Ready(fs, t) && c !in fs.data
    requires captured == null <==> Public !in fs.names
    requires captured == null ==> taken == CreateFs(fs, TempFile(t), c, text)
    requires captured != null ==>
      && captured.inode == fs.names[Public] && captured.source == TextIn(fs, captured.inode)
      && At(CreateFs(fs, TempFile(t), c, text), PublicFile).Some?
      && taken == TakenFs(CreateFs(fs, TempFile(t), c, text), ReplaceDir(t))
    ensures TookCurrent(fs, taken, t, c, text, captured)
  {
  }

  lemma CurrentDecides(fs: Fs, taken: Fs, t: Id, c: Inode, text: Text, captured: Capture?, expected: Reading)
    requires TookCurrent(fs, taken, t, c, text, captured)
    ensures Matches(captured, expected) <==> expected == PublicReading(fs)
    ensures taken == PreparedFs(fs, t, c, text) && InodeIn(captured) == Lookup(fs.names, Public)
  {
  }

  /** A file was written and is gone again; nothing else changed. */
  ghost predicate OnlyWritten(a: Fs, b: Fs, text: Text) {
    exists c: Inode :: c !in a.data && b == Written(a, c, text)
  }

  /** The history of a capture that is compared with what was expected. */
  function CaptureEvents(a: Fs, t: Id, captured: Capture?): seq<Event> {
    if captured == null then FoundNothing(a, ReplaceDir(t))
    else
      (if SlotFile(a, ReplaceDir(t)).Some? then [] else [Took(ReplaceDir(t), captured.inode)])
      + [Looked(ReplaceDir(t), captured.inode, captured.source)]
  }

  /** The candidate is written, and the public file captured. */
  method TakeCurrent(h: Host, text: Text, t: Id) returns (r: Run<Capture?>, temporary: bool)
    requires h.Valid()
    modifies h
    ensures h.Valid() && KeepTree(old(h.fs), h.fs, t) && InTree(old(h.trace), h.trace, t)
    ensures Quiet(old(h.trace), h.trace, t)
    ensures old(Apart(h.fs, t)) ==> Apart(h.fs, t)
    ensures r.Done? ==>
      && temporary
      && t in h.fs.temps && h.fs.temps[t] !in old(h.fs).data
      && Sealed(h.fs, h.fs.temps[t]) && h.fs.data[h.fs.temps[t]] == text
      && h.trace == old(h.trace) + CaptureEvents(old(h.fs), t, r.value)
      && HoldsOnly(old(h.fs), ReplaceDir(t), InodeIn(r.value))
    ensures r.Done? && r.value != null ==>
      && fresh(r.value) && r.value.dir == ReplaceDir(t) && r.value.maximumLinks == 1
      && r.value.Holds(h.fs) && r.value.current == r.value.source && r.value.Acknowledged(h.trace)
      && Sole(h.fs, ReplaceDir(t), r.value.inode)
      && (old(SlotFile(h.fs, ReplaceDir(t))) in {None, Some(r.value.inode)})
    ensures r == Done(null) ==> SlotFile(h.fs, ReplaceDir(t)).None? && old(SlotFile(h.fs, ReplaceDir(t))).None?
    ensures h.calm && old(Ready(h.fs, t)) ==> r.Done? && TookCurrent(old(h.fs), h.fs, t, h.fs.temps[t], text, r.value)
  {
    temporary := false;
    hide Rely, FileWorld.Valid, Secluded, Shut, KeepTree, InTree, ReturnedSince, Quiet, Apart, Confined, Sealed, Sole,
      Keeps, Grows, Shields, Hides, ShutKept, SealedFiles, Links, TakenFs, CreateFs, WithoutCap, Takable, TookCurrent,
      Ready, ResumableWith, OnlyTakes, ShutBut;
    ghost var fs0, apart := h.fs, Apart(h.fs, t);
    var creating := h.CreateTemp(t, text);
    CreateInTree(old(h.fs), h.fs, t);
    TreeStart(h.fs, h.trace, t);
    QuietStart(h.trace, t);
    if apart { CreateApart(fs0, h.fs, t); }
    if old(Ready(h.fs, t)) { ReadyHasNoTemp(fs0, t); }
    var candidate :- creating;
    temporary := true;
    if old(Ready(h.fs, t)) { CreatedIsTakable(fs0, t, candidate, text); }
    ghost var fs1 := h.fs;
    r := CaptureIn(h, ReplaceDir(t), 1, t, old(h.fs), old(h.trace));
    QuietTrans(old(h.trace), old(h.trace), h.trace, t);
    CapturedApart(fs1, h.fs, ReplaceDir(t), t);
    if r.Done? { CandidateKept(fs1, h.fs, ReplaceDir(t), t); }
    if h.calm && old(Ready(h.fs, t)) { CaptureIsCurrent(fs0, t, candidate, text, r.value, h.fs); }
  }

  lemma ReadyHasNoTemp(fs: Fs, t: Id)
    requires Ready(fs, t)
    ensures t !in fs.temps
  {
  }

  /** The captured file is compared with the expected generation, and given back if it is another. */
  method Prepare(h: Host, expected: Reading, source: Option<Text>, t: Id)
    returns (r: Run<bool>, temporary: bool, captured: Capture?)
    requires h.Valid()
    modifies h
    ensures h.Valid() && KeepTree(old(h.fs), h.fs, t) && InTree(old(h.trace), h.trace, t)
    ensures Quiet(old(h.trace), h.trace, t)
    ensures old(Apart(h.fs, t)) ==> Apart(h.fs, t)
    ensures captured != null ==> fresh(captured) && captured.dir == ReplaceDir(t) && captured.maximumLinks == 1
    ensures r.Done? && r.value ==>
      && temporary && Matches(captured, expected)
      && t in h.fs.temps && h.fs.temps[t] !in old(h.fs).data
      && Sealed(h.fs, h.fs.temps[t]) && h.fs.data[h.fs.temps[t]] == source.GetOr("")
      && h.trace == old(h.trace) + TakingEvents(old(h.fs), t, expected)
      && HoldsOnly(old(h.fs), ReplaceDir(t), InodeOf(expected))
    ensures h.calm && old(Ready(h.fs, t)) && expected == old(PublicReading(h.fs)) ==>
      r == Done(true) && h.fs == PreparedFs(old(h.fs), t, h.fs.temps[t], source.GetOr(""))
    ensures h.calm && old(Ready(h.fs, t)) && expected != old(PublicReading(h.fs)) ==>
      r == Done(false) && OnlyWritten(old(h.fs), h.fs, source.GetOr(""))
    ensures r.Done? && r.value && captured != null ==>
      && captured.Holds(h.fs) && captured.current == captured.source && captured.Acknowledged(h.trace)
      && Sole(h.fs, ReplaceDir(t), captured.inode)
      && (old(SlotFile(h.fs, ReplaceDir(t))) in {None, Some(captured.inode)})
    ensures r.Done? && r.value && captured == null ==>
      SlotFile(h.fs, ReplaceDir(t)).None? && old(SlotFile(h.fs, ReplaceDir(t))).None?
    ensures r.Done? && !r.value && expected.Found? ==>
      Doubted(old(h.trace), h.trace, t, expected) || LeftFinished(old(h.fs), t)
    ensures r.Done? && !r.value ==>
      && !temporary && NoDrops(old(h.trace), h.trace)
      && Undone(old(h.fs), h.fs, old(h.trace), h.trace, ReplaceDir(t))
  {
    hide Rely, FileWorld.Valid, Secluded, Shut, KeepTree, InTree, Undone, ReturnedSince, Quiet, Apart, Confined, Sealed,
      Sole, Keeps, Grows, Shields, Hides, ShutKept, SealedFiles, Doubted, Links, TookCurrent, PreparedFs, Written,
      GivenBack, PublicReading, Ready, OnlyWritten, CaptureEvents, TakingEvents, HoldsOnly, NoDrops, OnlyReturns,
      Matches, LeftFinished, InodeIn, InodeOf;
    captured := null;
    ghost var fs0 := h.fs;
    var taking;
    taking, temporary := TakeCurrent(h, source.GetOr(""), t);
    ghost var fs1, trace1 := h.fs, h.trace;
    captured :- taking;
    ghost var taken, c := captured, h.fs.temps[t];
    if h.calm && old(Ready(h.fs, t)) {
      CurrentDecides(fs0, fs1, t, c, source.GetOr(""), captured, expected);
      PreparedGivenBack(fs0, t, c, source.GetOr(""));
    }
    if Matches(captured, expected) {
      MatchingEvents(fs0, t, captured, expected);
      r := Done(true);
      return;
    }
    MismatchDoubts(fs0, old(h.trace), trace1, t, captured, expected);
    NothingTaken(captured);
    r, captured, temporary := Abandon(h, captured, t, old(h.fs), old(h.trace));
    if h.calm && old(Ready(h.fs, t)) { WrittenOnly(fs0, h.fs, c, source.GetOr("")); }
    QuietTrans(old(h.trace), trace1, h.trace, t);
    DoubtKept(old(h.fs), old(h.trace), trace1, h.trace, t, taken, expected);
    if r.Done? {
      if taken == null { SameSlot(fs1, h.fs, ReplaceDir(t)); }
      MismatchUndone(old(h.fs), h.fs, old(h.trace), trace1, h.trace, t, taken);
    }
  }

  lemma DoubtKept(a: Fs, x: seq<Event>, y: seq<Event>, z: seq<Event>, t: Id, captured: Capture?, expected: Reading)
    requires y == x + CaptureEvents(a, t, captured) && OnlyReturns(y, z)
    ensures Doubted(x, y, t, expected) ==> Doubted(x, z, t, expected)
  {
    DoubtedLater(x, y, z, t, expected);
  }

  lemma MismatchUndone(a: Fs, b: Fs, x: seq<Event>, y: seq<Event>, z: seq<Event>, t: Id, captured: Capture?)
    requires y == x + CaptureEvents(a, t, captured) && OnlyReturns(y, z) && SlotFile(b, ReplaceDir(t)).None?
    requires SlotFile(a, ReplaceDir(t)) in {None, InodeIn(captured)}
    requires captured != null ==> ReturnedSince(y, z, captured.inode)
    ensures NoDrops(x, z) && Undone(a, b, x, z, ReplaceDir(t))
  {
    CaptureUndone(a, b, x, y, z, t, captured);
  }

  lemma CaptureUndone(a: Fs, b: Fs, x: seq<Event>, y: seq<Event>, z: seq<Event>, t: Id, captured: Capture?)
    requires y == x + CaptureEvents(a, t, captured) && y <= z && Untouched(y, z, ReplaceDir(t))
    requires SlotFile(b, ReplaceDir(t)).None? && SlotFile(a, ReplaceDir(t)) in {None, InodeIn(captured)}
    requires captured != null ==> ReturnedSince(y, z, captured.inode)
    ensures NoDrops(x, y) && Undone(a, b, x, z, ReplaceDir(t))
  {
    if captured == null {
      UndoneNothing(a, b, x, y, z, t);
    } else {
      UndoneBy(a, b, x, y, z, ReplaceDir(t), captured.inode);
    }
  }

  lemma NothingTaken(captured: Capture?)
    ensures captured == null <==> InodeIn(captured).None?
    ensures captured != null ==> InodeIn(captured) == Some(captured.inode)
  {
  }

  /** The history of a capture of the expected generation. */
  lemma MatchingEvents(a: Fs, t: Id, captured: Capture?, expected: Reading)
    requires Matches(captured, expected)
    ensures CaptureEvents(a, t, captured) == TakingEvents(a, t, expected) && InodeIn(captured) == InodeOf(expected)
  {
  }

  lemma WrittenOnly(a: Fs, b: Fs, c: Inode, text: Text)
    requires c !in a.data && b == Written(a, c, text)
    ensures OnlyWritten(a, b, text)
  {
  }

  lemma MismatchDoubts(a: Fs, x: seq<Event>, y: seq<Event>, t: Id, captured: Capture?, expected: Reading)
    requires !Matches(captured, expected)
    requires y == x + CaptureEvents(a, t, captured)
    ensures expected.Found? ==> Doubted(x, y, t, expected) || LeftFinished(a, t)
  {
    if captured != null {
      assert expected.Found? ==> Doubts(y[|y| - 1], t, expected);
    } else if expected.Found? && !LeftFinished(a, t) {
      assert Doubts(y[|x|], t, expected);
    }
  }

  lemma CapturedApart(a: Fs, b: Fs, d: Dir, t: Id)
    requires Keeps(a, b, d) && d.place.AtPublic? && d.purpose != Owning(t)
    ensures Apart(a, t) ==> Apart(b, t)
  {
    KeepsSlots(a, b, d, t);
    if Apart(a, t) { ApartKept(a, b, t); }
  }

  /** A new candidate is seen by nobody. */
  lemma CreateApart(a: Fs, b: Fs, t: Id)
    requires Apart(a, t) && b.caps == a.caps && Grows(a, b)
    requires t in b.temps ==> (t in a.temps && b.temps == a.temps) || Secluded(b, b.temps[t])
    ensures Apart(b, t)
  {
    hide Secluded;
    forall i | Stored(b, TempDir(t), i) ensures Secluded(b, i) {
      if !(t in b.temps && b.temps[t] == i) || (t in a.temps && a.temps[t] == i) {
        assert Stored(a, TempDir(t), i);
      }
    }
  }

  lemma CandidateKept(a: Fs, b: Fs, d: Dir, t: Id)
    requires Keeps(a, b, d) && d.place.AtPublic? && Shields(a, b)
    requires t in a.temps && Sealed(a, a.temps[t])
    ensures t in b.temps && b.temps[t] == a.temps[t]
    ensures Sealed(b, a.temps[t]) && b.data[a.temps[t]] == a.data[a.temps[t]]
  {
    assert Lookup(b.temps, t) == Lookup(a.temps, t);
  }

  lemma CreateInTree(a: Fs, b: Fs, t: Id)
    requires b.caps == a.caps && b.temps - {t} == a.temps - {t} && Grows(a, b) && ShutKept(a, b)
    ensures KeepTree(a, b, t)
  {
    forall x | !Within(x, t) ensures Lookup(a.temps, x) == Lookup(b.temps, x) {
      assert x in a.temps <==> x in a.temps - {t};
      assert x in b.temps <==> x in b.temps - {t};
      assert x in a.temps ==> a.temps[x] == (a.temps - {t})[x];
      assert x in b.temps ==> b.temps[x] == (b.temps - {t})[x];
    }
  }

  lemma UndoneBy(a: Fs, b: Fs, x: seq<Event>, y: seq<Event>, z: seq<Event>, d: Dir, i: Inode)
    requires x <= y && forall k :: |x| <= k < |y| ==>
      !y[k].Dropped? && (y[k].Took? && y[k].dir == d ==> y[k].inode == i)
    requires y <= z && ReturnedSince(y, z, i) && SlotFile(b, d).None?
    requires forall k :: |y| <= k < |z| && (z[k].Took? || z[k].Dropped?) ==> z[k].dir != d
    requires SlotFile(a, d) in {None, Some(i)}
    ensures Undone(a, b, x, z, d)
  {
    forall k | |x| <= k < |z| && z[k].Took? && z[k].dir == d ensures ReturnedSince(z[..k + 1], z, z[k].inode) {
      assert k < |y| && z[k] == y[k];
      ReturnedLater(z[..k + 1], y, z, i);
    }
    if SlotFile(a, d).Some? { ReturnedLater(x, y, z, i); }
  }

  /** Nobody but the Host has a name for the captured file, and the candidate is another file. */
  ghost predicate Detached(fs: Fs, t: Id, i: Inode) {
    i in fs.data && !Visible(fs, i) && (t in fs.temps ==> fs.temps[t] != i)
  }

  lemma DetachedLater(a: Fs, b: Fs, t: Id, i: Inode)
    requires Detached(a, t, i) && Rely(a, b)
    ensures Detached(b, t, i)
  {
  }

  lemma PublishKeepsDetached(a: Fs, b: Fs, t: Id, i: Inode)
    requires Detached(a, t, i) && t in a.temps && b == a.(names := a.names[Public := a.temps[t]])
    ensures Detached(b, t, i)
  {
    forall n | n in b.names ensures b.names[n] != i {
      if n != Public { assert a.names[n] in a.names.Values; }
    }
  }

  /** The capture holds the file as it was read, and nothing stands against giving it up. */
  ghost predicate Settled(fs: Fs, c: Capture)
    reads c
  {
    c.Holds(fs) && fs.data[c.inode] == c.source && Releasable(fs, c)
  }

  /** The candidate is public, or, when the file is to be absent, gone. */
  function Shown(fs: Fs, t: Id, source: Option<Text>): Fs {
    if source.Some? && t in fs.temps then fs.(names := fs.names[Public := fs.temps[t]]) else WithoutTemp(fs, t)
  }

  lemma ShownStaysSettled(fs: Fs, t: Id, source: Option<Text>, c: Capture)
    requires Settled(fs, c) && t in fs.temps && fs.temps[t] != c.inode && Public !in fs.names
    ensures Settled(Shown(fs, t, source), c)
  {
    var shown := Shown(fs, t, source);
    assert PublicNames(shown, c.inode) == PublicNames(fs, c.inode);
    assert TempNames(shown, c.inode) == TempNames(fs, c.inode);
    LinksSame(fs, shown, c.inode);
  }

  /** The captured file is gone for good, and with it the candidate's private name. */
  function Concluded(fs: Fs, t: Id, source: Option<Text>): Fs {
    if source.Some? then WithoutTemp(WithoutCap(fs, ReplaceDir(t)), t) else WithoutCap(fs, ReplaceDir(t))
  }

  /** The candidate gets the public name, or, when the file is to be absent, goes. */
  method PublishCandidate(h: Host, source: Option<Text>, t: Id, ghost i: Inode, ghost start: Fs, ghost before: seq<Event>)
    returns (r: Run<bool>, temporary: bool, published: bool)
    requires h.Valid() && KeepTree(start, h.fs, t) && InTree(before, h.trace, t)
    requires t in h.fs.temps && Sealed(h.fs, h.fs.temps[t]) && h.fs.data[h.fs.temps[t]] == source.GetOr("")
    requires h.fs.temps[t] !in start.data
    modifies h
    ensures h.Valid() && KeepTree(start, h.fs, t) && InTree(before, h.trace, t)
    ensures h.calm && old(Public !in h.fs.names) ==> r == Done(true) && h.fs == old(Shown(h.fs, t, source))
    ensures h.fs.caps == old(h.fs.caps) && old(h.fs).data.Keys <= h.fs.data.Keys
    ensures r.Done? ==> h.trace == old(h.trace) + PuttingEvents(t, source, old(h.fs.temps[t]))
    ensures r.Done? ==> temporary == source.Some?
    ensures source.Some? ==> h.fs.temps == old(h.fs.temps)
    ensures r.Done? && old(Detached(h.fs, t, i)) ==> Detached(h.fs, t, i)
    ensures Untouched(old(h.trace), h.trace, ReplaceDir(t))
    ensures !r.Done? ==> h.trace == old(h.trace)
    ensures old(Apart(h.fs, t)) && NotPublished(old(h.trace), h.trace, t) ==> Apart(h.fs, t)
  {
    temporary, published := true, false;
    hide Rely, FileWorld.Valid, Secluded, Shut, KeepTree, InTree, Detached, Apart;
    ghost var fs1, trace1 := h.fs, h.trace;
    ghost var c := h.fs.temps[t];
    if source.None? {
      r, temporary := DiscardCandidate(h, t, i, start, before);
      return;
    }
    var linking := h.Publish(t);
    StaysSealed(fs1, h.at, c);
    if old(Detached(h.fs, t, i)) { DetachedLater(fs1, h.at, t, i); }
    if linking == Done(Ok) && old(Detached(h.fs, t, i)) { PublishKeepsDetached(h.at, h.fs, t, i); }
    PublishGrows(start, fs1, h.fs, t, c);
    PutInTree(before, trace1, h.trace, t);
    PublishApart(fs1, h.at, h.fs, trace1, h.trace, t);
    var linked :- linking;
    if linked != Ok { r := Threw(if linked == Eexist then CollisionCode else FailedCode); return; }
    published := true;
    r := Done(true);
  }

  /** Publishing a file newer than `start` shows nothing that was hidden at `start`. */
  lemma PublishGrows(start: Fs, a: Fs, b: Fs, t: Id, c: Inode)
    requires KeepTree(start, a, t) && b.temps == a.temps && b.caps == a.caps && c !in start.data
    requires a.data.Keys <= b.data.Keys
    requires forall i :: Secluded(a, i) && i != c ==> Secluded(b, i)
    requires forall d, i :: Shut(a, d, i) && i != c ==> Shut(b, d, i) && b.data[i] == a.data[i]
    ensures KeepTree(start, b, t)
  {
    hide Secluded;
    forall i | Secluded(start, i) ensures Secluded(b, i) {
      SecludedExists(start, i);
    }
    forall d: Dir, i | !Within(d.purpose.id, t) && Shut(start, d, i) ensures Shut(b, d, i) && b.data[i] == start.data[i] {
      assert i in start.data && Shut(a, d, i);
    }
  }

  lemma SecludedExists(fs: Fs, i: Inode)
    requires Secluded(fs, i)
    ensures i in fs.data
  {
  }

  lemma PublishApart(a: Fs, at: Fs, b: Fs, before: seq<Event>, after: seq<Event>, t: Id)
    requires Stable(a, at)
    requires (b == at && after == before) || (|after| > |before| && after[|before|].Published? && after[|before|].id == t)
    ensures Apart(a, t) && NotPublished(before, after, t) ==> Apart(b, t)
  {
    if Apart(a, t) && NotPublished(before, after, t) {
      ApartKept(a, at, t);
    }
  }

  /** The file is to be absent: `rm(temporaryPath)`. */
  method DiscardCandidate(h: Host, t: Id, ghost i: Inode, ghost start: Fs, ghost before: seq<Event>)
    returns (r: Run<bool>, temporary: bool)
    requires h.Valid() && KeepTree(start, h.fs, t) && InTree(before, h.trace, t)
    modifies h
    ensures h.Valid() && KeepTree(start, h.fs, t) && InTree(before, h.trace, t) && h.trace == old(h.trace)
    ensures h.fs.caps == old(h.fs.caps) && Grows(old(h.fs), h.fs) && Confined(old(h.fs), h.fs, TempDir(t))
    ensures r.Done? ==> !temporary
    ensures h.calm && old(t in h.fs.temps) ==> r == Done(true) && h.fs == old(WithoutTemp(h.fs, t))
    ensures old(Detached(h.fs, t, i)) ==> Detached(h.fs, t, i)
    ensures old(Apart(h.fs, t)) ==> Apart(h.fs, t)
  {
    hide Rely, FileWorld.Valid, Secluded, Shut, KeepTree, InTree, Detached, Apart;
    temporary := true;
    ghost var fs1 := h.fs;
    var removed := h.RmTemp(t);
    if old(Detached(h.fs, t, i)) { DetachedLater(fs1, h.at, t, i); }
    TempGone(start, fs1, h.at, h.fs, t, i);
    if old(Apart(h.fs, t)) { ApartKept(fs1, h.fs, t); }
    if !removed.Done? { r := removed.PropagateFailure(); return; }
    if removed.value != Ok { r := Threw(FailedCode); return; }
    temporary := false;
    r := Done(true);
  }

  lemma TempGone(start: Fs, a: Fs, at: Fs, b: Fs, t: Id, i: Inode)
    requires KeepTree(start, a, t) && Stable(a, at) && Grows(a, b) && ShutKept(a, b)
    requires b == at || b == at.(temps := at.temps - {t})
    ensures KeepTree(start, b, t)
    ensures Detached(at, t, i) ==> Detached(b, t, i)
  {
    assert forall x :: !Within(x, t) ==> Lookup(b.temps, x) == Lookup(at.temps, x);
  }

  lemma KeepTreeSame(start: Fs, a: Fs, b: Fs, t: Id)
    requires KeepTree(start, a, t) && b.temps == a.temps && b.caps == a.caps && Grows(a, b) && ShutKept(a, b)
    ensures KeepTree(start, b, t)
  {
  }

  lemma PutInTree(a: seq<Event>, b: seq<Event>, c: seq<Event>, t: Id)
    requires InTree(a, b, t) && (c == b || (|c| == |b| + 1 && b <= c && c[|b|].Published? && c[|b|].id == t))
    ensures InTree(a, c, t)
  {
  }

  /** The publication can be undone: the candidate withdrawn, or, if there was none, the name given back. */
  ghost predicate Undoable(fs: Fs, t: Id, captured: Capture?, source: Option<Text>) {
    if source.Some? then Revocable(fs, t, captured) else Public !in fs.names
  }

  function UndoneAs(fs: Fs, t: Id, captured: Option<Inode>, source: Option<Text>): Fs {
    if source.Some? then RolledBack(fs, t, captured)
    else if captured.Some? then GivenName(fs, ReplaceDir(t), captured.value) else fs
  }

  /** Undoes the publication, or restores the file that was to be absent. */
  method Undo(h: Host, t: Id, captured: Capture?, changed: Reading, required: bool, source: Option<Text>,
      depth: nat, fuel: nat, ghost c: Inode, ghost start: Fs, ghost before: seq<Event>)
    returns (r: Run<bool>, left: Capture?, rollback: bool, published: bool, temporary: bool)
    requires h.Valid() && KeepTree(start, h.fs, t) && InTree(before, h.trace, t)
    requires captured != null ==> captured.dir == ReplaceDir(t) && captured.Holds(h.fs)
    requires captured == null ==> SlotFile(h.fs, ReplaceDir(t)).None?
    requires source.Some? ==> Lookup(h.fs.temps, t) == Some(c)
    modifies h, captured
    ensures h.Valid() && KeepTree(start, h.fs, t) && InTree(before, h.trace, t) && Quiet(old(h.trace), h.trace, t)
    ensures left in {captured, null}
    ensures source.None? ==> Grows(old(h.fs), h.fs) && SameTemp(old(h.fs), h.fs, t)
    ensures r.Done? ==> !r.value && !temporary && SlotFile(h.fs, ReplaceDir(t)).None?
    ensures r.Done? ==> Untouched(old(h.trace), h.trace, ReplaceDir(t)) && DropsOnly(old(h.trace), h.trace, RollbackDir(t), c)
    ensures r.Done? && captured != null ==> ReturnedSince(old(h.trace), h.trace, captured.inode)
    ensures h.calm && fuel > 0 && (required ==> changed.Found?) && old(Undoable(h.fs, t, captured, source)) ==>
      r == Done(false) && h.fs == UndoneAs(old(h.fs), t, InodeIn(captured), source)
    decreases fuel, 3, 1
  {
    hide Rely, FileWorld.Valid, Secluded, Shut, KeepTree, InTree, Revocable, RolledBack, WithoutCap;
    if source.None? {
      left, rollback, published, temporary := captured, false, false, false;
      if captured != null {
        var _ :- RestoreIn(h, captured, t, start, before);
      }
      left := null;
      r := Done(false);
      return;
    }
    ghost var fs1 := h.fs;
    r, left, rollback, published, temporary := RollBack(h, t, captured, changed, required, depth, fuel, start, before);
    if r.Done? && captured == null { SameSlot(fs1, h.fs, ReplaceDir(t)); }
  }

  /** The captured file does not have the text any more that was read when it was captured. */
  ghost predicate Altered(fs: Fs, c: Capture)
    reads c
  {
    c.Holds(fs) && fs.data[c.inode] != c.source && Links(fs, c.inode) <= c.maximumLinks
  }

  lemma AlteredIsNotSettled(fs: Fs, c: Capture)
    requires Altered(fs, c)
    ensures !Settled(fs, c)
  {
  }

  /** The captured file is still what was read when it was captured. */
  method Unchanged(h: Host, captured: Capture?, t: Id, ghost start: Fs) returns (r: Run<bool>, seen: Reading)
    requires h.Valid() && KeepTree(start, h.fs, t)
    requires captured != null ==> captured.Holds(h.fs)
    modifies h
    requires captured != null ==> captured.dir == ReplaceDir(t)
    ensures h.Valid() && KeepTree(start, h.fs, t) && OnlyLooks(old(h.trace), h.trace, ReplaceDir(t))
    ensures Stable(old(h.fs), h.fs)
    ensures r.Done? && r.value ==>
      captured != null && h.trace == old(h.trace) + [Looked(ReplaceDir(t), captured.inode, captured.source)]
    ensures captured != null && old(Detached(h.fs, t, captured.inode)) ==> Detached(h.fs, t, captured.inode)
    ensures h.calm && captured != null && old(Settled(h.fs, captured)) ==> r == Done(true) && h.fs == old(h.fs)
    ensures h.calm && (captured == null || old(Altered(h.fs, captured))) ==> r == Done(false) && h.fs == old(h.fs)
    ensures r.Done? && r.value ==> captured != null
    ensures r.Done? && !r.value && captured != null ==>
      Doubted(old(h.trace), h.trace, t, Found(captured.inode, captured.source))
  {
    hide Rely, FileWorld.Valid, Secluded, Shut, KeepTree, Links;
    seen := Missing;
    if captured == null { r := Done(false); return; }
    var refreshed := Refresh(h, captured);
    KeepTreeSame(start, old(h.fs), h.fs, t);
    if old(Detached(h.fs, t, captured.inode)) { DetachedLater(old(h.fs), h.fs, t, captured.inode); }
    seen :- refreshed;
    if seen.Found? && (seen.text != captured.source || seen.inode != captured.inode) {
      DoubtedBy(old(h.trace), h.trace, t, Found(captured.inode, captured.source), |old(h.trace)|);
    }
    r := Done(seen.Found? && seen.text == captured.source && seen.inode == captured.inode);
  }

  /** The file is probed, not public, read once more as `text`, and given up with that text, sealed. */
  function FinalDrop(t: Id, i: Inode, text: Text): seq<Event> {
    CheckEvents(ReplaceDir(t), i, false, text) + [Dropped(ReplaceDir(t), i, text, true)]
  }

  lemma DropIsFinal(before: seq<Event>, after: seq<Event>, t: Id, i: Inode, text: Text, start: Fs)
    requires GivesUp(before, after, ReplaceDir(t), i, text, start)
    requires !Visible(start, i)
    ensures after == before + FinalDrop(t, i, text)
  {
  }

  /** `captured.remove()` on a file nobody else can reach: what it gives up has exactly the expected text. */
  method RemoveCaptured(h: Host, captured: Capture, t: Id, ghost start: Fs, ghost before: seq<Event>) returns (r: Run<bool>)
    requires h.Valid() && KeepTree(start, h.fs, t) && InTree(before, h.trace, t)
    requires captured.dir == ReplaceDir(t) && captured.Holds(h.fs) && captured.current == captured.source
    requires Detached(h.fs, t, captured.inode) && captured.Acknowledged(h.trace)
    modifies h, captured
    ensures h.Valid() && KeepTree(start, h.fs, t) && InTree(before, h.trace, t) && h.fs.temps == old(h.fs.temps)
    ensures Grows(old(h.fs), h.fs) && SameTemp(old(h.fs), h.fs, t)
    ensures h.calm && old(Settled(h.fs, captured)) ==> r == Done(true) && h.fs == old(WithoutCap(h.fs, captured.dir))
    ensures captured.active ==> OnlyLooks(old(h.trace), h.trace, ReplaceDir(t))
    ensures !captured.active ==> h.trace == old(h.trace) + FinalDrop(t, captured.inode, captured.source)
    ensures r.Done? ==> (r.value <==> !captured.active)
    ensures r.Done? && !r.value ==> captured.Holds(h.fs)
    ensures r.Done? && !r.value ==> Doubted(old(h.trace), h.trace, t, Found(captured.inode, captured.source))
  {
    hide Rely, FileWorld.Valid, Secluded, Shut, KeepTree, InTree, Links, WithoutCap;
    ghost var public;
    r, public := Remove(h, captured);
    DirInTree(start, old(h.fs), h.fs, captured.dir, t);
    if r == Done(false) {
      DoubtedBy(old(h.trace), h.trace, t, Found(captured.inode, captured.source), |old(h.trace)| + 1);
    }
    if captured.active {
      LooksAreQuiet(old(h.trace), h.trace, ReplaceDir(t), t);
      InTreeTrans(before, old(h.trace), h.trace, t);
    } else {
      DropIsFinal(old(h.trace), h.trace, t, captured.inode, captured.source, old(h.fs));
      DropInTree(before, old(h.trace), h.trace, t, captured.inode, captured.source);
    }
  }

  lemma DropInTree(a: seq<Event>, b: seq<Event>, c: seq<Event>, t: Id, i: Inode, text: Text)
    requires InTree(a, b, t) && c == b + FinalDrop(t, i, text)
    ensures InTree(a, c, t)
  {
  }

  /** The captured file is still what was read, and is given up. */
  function ConcludeEvents(t: Id, i: Inode, text: Text): seq<Event> {
    [Looked(ReplaceDir(t), i, text)] + FinalDrop(t, i, text)
  }

  /** Nothing was captured, or its text changed, and the publication can be undone. */
  ghost predicate CannotConclude(fs: Fs, t: Id, captured: Capture?, source: Option<Text>)
    reads captured
  {
    Undoable(fs, t, captured, source) && (captured == null || Altered(fs, captured))
  }

  lemma CannotConcludeGives(fs: Fs, t: Id, captured: Capture?, source: Option<Text>)
    requires CannotConclude(fs, t, captured, source)
    ensures Undoable(fs, t, captured, source)
    ensures captured != null ==> Altered(fs, captured) && !Settled(fs, captured)
  {
  }

  /** From the publication to the commit. */
  method Conclude(h: Host, t: Id, captured: Capture?, source: Option<Text>, depth: nat, fuel: nat, ghost c: Inode,
      ghost start: Fs, ghost before: seq<Event>)
    returns (r: Run<bool>, left: Capture?, rollback: bool, published: bool, temporary: bool)
    requires h.Valid() && KeepTree(start, h.fs, t) && InTree(before, h.trace, t)
    requires captured != null ==>
      && captured.dir == ReplaceDir(t) && captured.Holds(h.fs) && captured.current == captured.source
      && Detached(h.fs, t, captured.inode) && captured.Acknowledged(h.trace)
    requires captured == null ==> SlotFile(h.fs, ReplaceDir(t)).None?
    requires source.Some? ==> Lookup(h.fs.temps, t) == Some(c)
    modifies h, captured
    ensures h.Valid() && KeepTree(start, h.fs, t) && InTree(before, h.trace, t)
    ensures h.calm && captured != null && old(Settled(h.fs, captured)) ==>
      r == Done(true) && h.fs == old(Concluded(h.fs, t, source))
    ensures h.calm && fuel > 0 && old(CannotConclude(h.fs, t, captured, source)) ==>
      r == Done(false) && h.fs == UndoneAs(old(h.fs), t, InodeIn(captured), source)
    ensures old(h.trace) <= h.trace
    ensures Quiet(old(h.trace), h.trace, t) || (
      captured != null && h.trace == old(h.trace) + ConcludeEvents(t, captured.inode, captured.source))
    ensures left in {captured, null}
    ensures source.None? ==> Grows(old(h.fs), h.fs) && SameTemp(old(h.fs), h.fs, t)
    ensures r.Done? && r.value ==>
      captured != null && h.trace == old(h.trace) + ConcludeEvents(t, captured.inode, captured.source)
    ensures r.Done? && !r.value ==>
      && SlotFile(h.fs, ReplaceDir(t)).None? && Untouched(old(h.trace), h.trace, ReplaceDir(t))
      && DropsOnly(old(h.trace), h.trace, RollbackDir(t), c)
    ensures r.Done? && !r.value && captured != null ==> ReturnedSince(old(h.trace), h.trace, captured.inode)
    ensures r.Done? && !r.value && captured != null ==>
      Doubted(old(h.trace), h.trace, t, Found(captured.inode, captured.source))
    decreases fuel, 4, 0
  {
    hide Rely, FileWorld.Valid, Secluded, Shut, KeepTree, InTree, Detached, Confined, Sealed, Doubted, Settled,
      Concluded, Altered, Undoable, UndoneAs;
    if CannotConclude(h.fs, t, captured, source) { CannotConcludeGives(h.fs, t, captured, source); }
    left, rollback, published, temporary := captured, false, source.Some?, source.Some?;
    var comparing, seen;
    comparing, seen := Unchanged(h, captured, t, start);
    ghost var trace1 := h.trace;
    LooksAreQuiet(old(h.trace), trace1, ReplaceDir(t), t);
    InTreeTrans(before, old(h.trace), trace1, t);
    var same :- comparing;
    if !same {
      r, left, rollback, published, temporary :=
        Undo(h, t, captured, seen, false, source, depth, fuel, c, start, before);
      UndoneLater(old(h.trace), trace1, h.trace, t, captured, c);
      if captured != null { DoubtedLater(old(h.trace), trace1, h.trace, t, Found(captured.inode, captured.source)); }
      return;
    }
    AcknowledgedLater(old(h.trace), trace1, captured);
    r, left, rollback, published, temporary := ConcludeRemoval(h, t, captured, source, depth, fuel, c, start, before);
    RemovalLater(old(h.trace), trace1, h.trace, t, captured, c);
    DoubtedLater(old(h.trace), trace1, h.trace, t, Found(captured.inode, captured.source));
  }

  /** The captured file is given up, or, if it changed after all, everything is undone. */
  method ConcludeRemoval(h: Host, t: Id, captured: Capture, source: Option<Text>, depth: nat, fuel: nat, ghost c: Inode,
      ghost start: Fs, ghost before: seq<Event>)
    returns (r: Run<bool>, left: Capture?, rollback: bool, published: bool, temporary: bool)
    requires h.Valid() && KeepTree(start, h.fs, t) && InTree(before, h.trace, t)
    requires captured.dir == ReplaceDir(t) && captured.Holds(h.fs) && captured.current == captured.source
    requires Detached(h.fs, t, captured.inode) && captured.Acknowledged(h.trace)
    requires source.Some? ==> Lookup(h.fs.temps, t) == Some(c)
    modifies h, captured
    ensures h.Valid() && KeepTree(start, h.fs, t) && InTree(before, h.trace, t)
    ensures Quiet(old(h.trace), h.trace, t) || h.trace == old(h.trace) + FinalDrop(t, captured.inode, captured.source)
    ensures h.calm && old(Settled(h.fs, captured)) ==> r == Done(true) && h.fs == old(Concluded(h.fs, t, source))
    ensures left in {captured, null}
    ensures source.None? ==> Grows(old(h.fs), h.fs) && SameTemp(old(h.fs), h.fs, t)
    ensures r.Done? && r.value ==> h.trace == old(h.trace) + FinalDrop(t, captured.inode, captured.source)
    ensures r.Done? && !r.value ==>
      && SlotFile(h.fs, ReplaceDir(t)).None? && Untouched(old(h.trace), h.trace, ReplaceDir(t))
      && DropsOnly(old(h.trace), h.trace, RollbackDir(t), c) && ReturnedSince(old(h.trace), h.trace, captured.inode)
    ensures r.Done? && !r.value ==> Doubted(old(h.trace), h.trace, t, Found(captured.inode, captured.source))
    decreases fuel, 3, 2
  {
    hide Rely, FileWorld.Valid, Secluded, Shut, KeepTree, InTree, Detached, Confined, Sealed, Doubted, Settled,
      WithoutCap;
    left, rollback, published, temporary := captured, false, source.Some?, source.Some?;
    var removing := RemoveCaptured(h, captured, t, start, before);
    if captured.active {
      LooksAreQuiet(old(h.trace), h.trace, ReplaceDir(t), t);
    }
    var removed :- removing;
    if !removed {
      ghost var fs2, trace2 := h.fs, h.trace;
      var refreshing := Refresh(h, captured);
      KeepTreeSame(start, fs2, h.fs, t);
      ghost var trace3 := h.trace;
      LooksAreQuiet(trace2, trace3, ReplaceDir(t), t);
      QuietTrans(old(h.trace), trace2, trace3, t);
      InTreeTrans(before, trace2, trace3, t);
      var seen :- refreshing;
      r, left, rollback, published, temporary :=
        Undo(h, t, captured, seen, true, source, depth, fuel, c, start, before);
      NoDropsIn(old(h.trace), trace2, trace3, captured.dir);
      UndoneLater(old(h.trace), trace3, h.trace, t, captured, c);
      DoubtedLater(old(h.trace), trace2, trace3, t, Found(captured.inode, captured.source));
      DoubtedLater(old(h.trace), trace3, h.trace, t, Found(captured.inode, captured.source));
      return;
    }
    left := null;
    if temporary {
      var _ :- DropTemporary(h, t, start, before);
      temporary := false;
    }
    r := Done(true);
  }

  /** What followed the last comparison, seen from before it. */
  lemma RemovalLater(x: seq<Event>, y: seq<Event>, z: seq<Event>, t: Id, captured: Capture, c: Inode)
    requires captured.dir == ReplaceDir(t) && y == x + [Looked(ReplaceDir(t), captured.inode, captured.source)]
    requires Quiet(y, z, t) || z == y + FinalDrop(t, captured.inode, captured.source)
    ensures x <= z
    ensures Quiet(y, z, t) ==> Quiet(x, z, t)
    ensures z == y + FinalDrop(t, captured.inode, captured.source) ==>
      z == x + ConcludeEvents(t, captured.inode, captured.source)
    ensures Untouched(y, z, ReplaceDir(t)) ==> Untouched(x, z, ReplaceDir(t))
    ensures DropsOnly(y, z, RollbackDir(t), c) ==> DropsOnly(x, z, RollbackDir(t), c)
    ensures ReturnedSince(y, z, captured.inode) ==> ReturnedSince(x, z, captured.inode)
  {
    if ReturnedSince(y, z, captured.inode) { ReturnedLater(x, y, z, captured.inode); }
  }

  lemma NoDropsIn(x: seq<Event>, y: seq<Event>, z: seq<Event>, d: Dir)
    requires OnlyLooks(x, y, d) && OnlyLooks(y, z, d)
    ensures OnlyLooks(x, z, d)
  {
  }

  /** Only readings came before what was undone. */
  lemma UndoneLater(x: seq<Event>, y: seq<Event>, z: seq<Event>, t: Id, captured: Capture?, c: Inode)
    requires OnlyLooks(x, y, ReplaceDir(t)) && Quiet(y, z, t)
    ensures Quiet(x, z, t)
    ensures Untouched(y, z, ReplaceDir(t)) ==> Untouched(x, z, ReplaceDir(t))
    ensures DropsOnly(y, z, RollbackDir(t), c) ==> DropsOnly(x, z, RollbackDir(t), c)
    ensures captured != null && ReturnedSince(y, z, captured.inode) ==> ReturnedSince(x, z, captured.inode)
  {
    if captured != null && ReturnedSince(y, z, captured.inode) { ReturnedLater(x, y, z, captured.inode); }
  }

  function CommitHistory(a: Fs, before: seq<Event>, t: Id, expected: Reading, source: Option<Text>, c: Inode): seq<Event>
    requires expected.Found?
  {
    before + TakingEvents(a, t, expected) + PuttingEvents(t, source, c) + ConcludeEvents(t, expected.inode, expected.text)
  }

  /**
   A committed replacement is a compare-and-swap: the expected file left the public
   name and was read with the expected text, a new file with the wanted text got the
   name, and the expected file was read again, probed when nobody could reach or write
   it any more, read once more, and given up, each time with exactly the expected text.
   The Host did nothing else.
   */
  ghost predicate Committed(a: Fs, before: seq<Event>, after: seq<Event>, t: Id, expected: Reading, source: Option<Text>) {
    && expected.Found?
    && exists c: Inode :: c !in a.data && after == CommitHistory(a, before, t, expected, source, c)
  }

  /** Whatever the rollback gave up was a file of the Host's own. */
  ghost predicate OnlyOwnDropped(a: Fs, before: seq<Event>, after: seq<Event>, t: Id) {
    forall k :: |before| <= k < |after| && after[k].Dropped? && after[k].dir == RollbackDir(t) ==>
      after[k].inode !in a.data
  }

  function ExchangeEvents(t: Id, captured: Capture, source: Option<Text>, c: Inode): seq<Event> {
    PuttingEvents(t, source, c) + ConcludeEvents(t, captured.inode, captured.source)
  }

  /** The candidate in the place of the captured file. */
  function Exchanged(fs: Fs, t: Id, source: Option<Text>): Fs {
    Concluded(Shown(fs, t, source), t, source)
  }

  /** From the publication of the candidate on. */
  method Exchange(h: Host, captured: Capture?, source: Option<Text>, t: Id, depth: nat, fuel: nat, ghost c: Inode,
      ghost start: Fs, ghost before: seq<Event>)
    returns (r: Run<bool>, temporary: bool, left: Capture?, rollback: bool, published: bool)
    requires h.Valid() && KeepTree(start, h.fs, t) && InTree(before, h.trace, t)
    requires Lookup(h.fs.temps, t) == Some(c) && c !in start.data
    requires Sealed(h.fs, c) && h.fs.data[c] == source.GetOr("")
    requires captured != null ==>
      && captured.dir == ReplaceDir(t) && captured.Holds(h.fs) && captured.current == captured.source
      && Detached(h.fs, t, captured.inode) && captured.Acknowledged(h.trace)
    requires captured == null ==> SlotFile(h.fs, ReplaceDir(t)).None?
    modifies h, captured
    ensures h.Valid() && KeepTree(start, h.fs, t) && InTree(before, h.trace, t)
    ensures h.calm && captured != null && old(Settled(h.fs, captured) && Public !in h.fs.names) ==>
      r == Done(true) && h.fs == old(Exchanged(h.fs, t, source))
    ensures h.calm && fuel > 0 && captured == null && old(CanWithdraw(h.fs, t)) ==>
      r == Done(false) && h.fs == old(WithoutTemp(h.fs, t))
    ensures old(h.trace) <= h.trace
    ensures old(Apart(h.fs, t)) && NotPublished(old(h.trace), h.trace, t) ==> Apart(h.fs, t)
    ensures PublishedOnly(old(h.trace), h.trace, t, source, c)
    ensures Spared(old(h.trace), h.trace, t) || (
      captured != null && h.trace == old(h.trace) + ExchangeEvents(t, captured, source, c))
    ensures left in {captured, null}
    ensures r.Done? && r.value ==> captured != null && h.trace == old(h.trace) + ExchangeEvents(t, captured, source, c)
    ensures r.Done? && !r.value ==>
      && SlotFile(h.fs, ReplaceDir(t)).None? && Untouched(old(h.trace), h.trace, ReplaceDir(t))
      && DropsOnly(old(h.trace), h.trace, RollbackDir(t), c)
    ensures r.Done? && !r.value && captured != null ==> ReturnedSince(old(h.trace), h.trace, captured.inode)
    ensures r.Done? && !r.value && captured != null ==>
      Doubted(old(h.trace), h.trace, t, Found(captured.inode, captured.source))
    decreases fuel, 4, 1
  {
    hide ReplaceDir, RollbackDir, Rely, FileWorld.Valid, Secluded, Shut, KeepTree, InTree, Detached, Quiet, Apart,
      NotPublished, Confined, ReturnedSince, Spared, PublishedOnly, Doubted, Settled, Shown, Concluded, CannotConclude,
      UndoneAs, CanWithdraw, WithoutTemp, PuttingEvents, ConcludeEvents, ExchangeEvents, Untouched, DropsOnly, Grows,
      SameTemp, Sealed, SlotFile, Matches;
    left, rollback := captured, false;
    ghost var trace1 := h.trace;
    ghost var i := if captured == null then 0 else captured.inode;
    if captured != null && Public !in h.fs.names && Settled(h.fs, captured) {
      CandidateIsOther(h.fs, t, c, captured);
      ShownStaysSettled(h.fs, t, source, captured);
    }
    if captured == null && CanWithdraw(h.fs, t) { ShownIsWithdrawn(h.fs, t, source); }
    var publishing;
    publishing, temporary, published := PublishCandidate(h, source, t, i, start, before);
    ghost var fs2, trace2 := h.fs, h.trace;
    PublicationIs(trace1, trace2, t, source, c);
    var ignored :- publishing;
    SameSlot(old(h.fs), fs2, ReplaceDir(t));
    if captured != null { AcknowledgedLater(trace1, trace2, captured); }
    r, left, rollback, published, temporary := Conclude(h, t, captured, source, depth, fuel, c, start, before);
    ExchangeHistory(trace1, trace2, h.trace, t, source, c, captured);
    if source.None? && Apart(fs2, t) { ApartKept(fs2, h.fs, t); }
  }

  /** The history of an exchange from those of its two parts. */
  lemma ExchangeHistory(x: seq<Event>, y: seq<Event>, z: seq<Event>, t: Id, source: Option<Text>, c: Inode, captured: Capture?)
    requires y == x + PuttingEvents(t, source, c) && y <= z
    requires Quiet(y, z, t) || (captured != null && z == y + ConcludeEvents(t, captured.inode, captured.source))
    ensures PublishedOnly(x, z, t, source, c)
    ensures Spared(x, z, t) || (captured != null && z == x + ExchangeEvents(t, captured, source, c))
    ensures captured != null && z == y + ConcludeEvents(t, captured.inode, captured.source) ==>
      z == x + ExchangeEvents(t, captured, source, c)
    ensures Untouched(y, z, ReplaceDir(t)) ==> Untouched(x, z, ReplaceDir(t))
    ensures DropsOnly(y, z, RollbackDir(t), c) ==> DropsOnly(x, z, RollbackDir(t), c)
    ensures captured != null && ReturnedSince(y, z, captured.inode) ==> ReturnedSince(x, z, captured.inode)
    ensures captured != null && Doubted(y, z, t, Found(captured.inode, captured.source)) ==>
      Doubted(x, z, t, Found(captured.inode, captured.source))
    ensures NotPublished(x, z, t) ==> source.None? && NotPublished(x, y, t) && NotPublished(y, z, t)
  {
    hide Quiet, ReturnedSince, Doubted, Spared, PublishedOnly, PuttingEvents, ConcludeEvents, ExchangeEvents, Untouched,
      DropsOnly, NotPublished;
    PublicationIs(x, y, t, source, c);
    PublishedInBetween(x, y, z, t, source, c);
    NotPublishedLater(x, y, z, t);
    ThenUndone(x, y, z, t, source, c);
    if Quiet(y, z, t) { ThenQuiet(x, y, z, t, source, c); }
    if captured != null {
      if z == y + ConcludeEvents(t, captured.inode, captured.source) { ThenConcluded(x, y, z, t, source, c, captured); }
      if ReturnedSince(y, z, captured.inode) { ReturnedLater(x, y, z, captured.inode); }
      DoubtedLater(x, y, z, t, Found(captured.inode, captured.source));
    }
  }

  /** The candidate has only its temporary name, nobody has it open, and nothing is public. */
  ghost predicate CanWithdraw(fs: Fs, t: Id) {
    && Public !in fs.names && t in fs.temps && RollbackDir(t) !in fs.caps && Links(fs, fs.temps[t]) <= 1
    && fs.temps[t] in fs.data && Sealed(fs, fs.temps[t])
  }

  lemma ShownIsWithdrawn(fs: Fs, t: Id, source: Option<Text>)
    requires CanWithdraw(fs, t)
    ensures Public !in fs.names && CannotConclude(Shown(fs, t, source), t, null, source)
    ensures UndoneAs(Shown(fs, t, source), t, None, source) == WithoutTemp(fs, t)
  {
    hide Links;
    var shown, c := Shown(fs, t, source), fs.temps[t];
    if source.Some? {
      assert shown.names - {Public} == fs.names;
      PublishedLinks(fs, t);
      forall n | n in shown.names && n != Public ensures shown.names[n] != c { assert fs.names[n] in fs.names.Values; }
    }
  }

  lemma PublishedLinks(fs: Fs, t: Id)
    requires Public !in fs.names && t in fs.temps
    ensures Links(fs.(names := fs.names[Public := fs.temps[t]]), fs.temps[t]) == Links(fs, fs.temps[t]) + 1
  {
    var after, c := fs.(names := fs.names[Public := fs.temps[t]]), fs.temps[t];
    assert PublicNames(after, c) - {Public} == PublicNames(fs, c);
    SameSlots(fs, after, c);
    assert TempNames(after, c) == TempNames(fs, c);
    hide TempNames, CapturedDirs, ReleaseDirs, FinishedDirs;
    WithOne(PublicNames(after, c), Public);
  }

  lemma SameSlots(a: Fs, b: Fs, i: Inode)
    requires b.caps == a.caps
    ensures CapturedDirs(b, i) == CapturedDirs(a, i)
    ensures ReleaseDirs(b, i) == ReleaseDirs(a, i) && FinishedDirs(b, i) == FinishedDirs(a, i)
  {
  }

  lemma CandidateIsOther(fs: Fs, t: Id, c: Inode, captured: Capture)
    requires Lookup(fs.temps, t) == Some(c) && Detached(fs, t, captured.inode)
    ensures c != captured.inode
  {
  }

  /** The candidate of `t` was published at once or not at all, as file `c` with the wanted text. */
  ghost predicate PublishedOnly(before: seq<Event>, after: seq<Event>, t: Id, source: Option<Text>, c: Inode) {
    && before <= after
    && forall k :: |before| <= k < |after| && after[k].Published? && after[k].id == t ==>
         k == |before| && source.Some? && after[k] == Published(t, c, source.value)
  }

  lemma ThenUndone(x: seq<Event>, y: seq<Event>, z: seq<Event>, t: Id, source: Option<Text>, c: Inode)
    requires y == x + PuttingEvents(t, source, c) && y <= z
    ensures Untouched(y, z, ReplaceDir(t)) ==> Untouched(x, z, ReplaceDir(t))
    ensures DropsOnly(y, z, RollbackDir(t), c) ==> DropsOnly(x, z, RollbackDir(t), c)
  {
  }

  lemma PublicationIs(x: seq<Event>, y: seq<Event>, t: Id, source: Option<Text>, c: Inode)
    requires y == x || y == x + PuttingEvents(t, source, c)
    ensures PublishedOnly(x, y, t, source, c) && Spared(x, y, t)
  {
  }

  lemma ThenQuiet(x: seq<Event>, y: seq<Event>, z: seq<Event>, t: Id, source: Option<Text>, c: Inode)
    requires PublishedOnly(x, y, t, source, c) && Spared(x, y, t) && Quiet(y, z, t)
    ensures PublishedOnly(x, z, t, source, c) && Spared(x, z, t)
  {
  }

  lemma ThenConcluded(x: seq<Event>, y: seq<Event>, z: seq<Event>, t: Id, source: Option<Text>, c: Inode, captured: Capture)
    requires y == x + PuttingEvents(t, source, c) && z == y + ConcludeEvents(t, captured.inode, captured.source)
    ensures PublishedOnly(x, z, t, source, c) && z == x + ExchangeEvents(t, captured, source, c)
  {
  }

  /** Another file, with the wanted text, has the public name, or none has; nothing else changed. */
  ghost predicate Swapped(a: Fs, b: Fs, source: Option<Text>) {
    exists c: Inode :: c !in a.data && b == SwappedFs(a, source, c)
  }

  function SwappedFs(fs: Fs, source: Option<Text>, c: Inode): Fs {
    Written(fs, c, source.GetOr("")).(names := if source.Some? then fs.names[Public := c] else fs.names - {Public})
  }

  /** There is no public file, and nothing is left of an earlier replacement with this ID. */
  ghost predicate NothingToReplace(fs: Fs, t: Id) {
    Ready(fs, t) && RollbackDir(t) !in fs.caps && Public !in fs.names
  }

  lemma NothingIsReady(fs: Fs, t: Id)
    requires NothingToReplace(fs, t)
    ensures Ready(fs, t) && PublicReading(fs) == Missing
  {
  }

  lemma PreparedWithdraws(a: Fs, b: Fs, t: Id, c: Inode, source: Option<Text>)
    requires NothingToReplace(a, t) && c !in a.data && b == PreparedFs(a, t, c, source.GetOr(""))
    ensures CanWithdraw(b, t) && OnlyWritten(a, WithoutTemp(b, t), source.GetOr(""))
  {
    NowhereYet(a, c);
    assert PublicNames(b, c) == PublicNames(a, c);
    assert TempNames(b, c) == {t};
    SameSlots(a, b, c);
    assert b.temps - {t} == a.temps;
    assert WithoutTemp(b, t) == Written(a, c, source.GetOr(""));
  }

  /** After a capture of the current file the exchange can go through. */
  lemma PreparedSettles(a: Fs, b: Fs, t: Id, c: Inode, source: Option<Text>, captured: Capture?)
    requires Ready(a, t) && c !in a.data && Public in a.names && b == PreparedFs(a, t, c, source.GetOr(""))
    requires captured != null && captured.Holds(b) && captured.dir == ReplaceDir(t) && captured.maximumLinks == 1
    requires Matches(captured, PublicReading(a))
    ensures Settled(b, captured) && Public !in b.names
    ensures Exchanged(b, t, source) == SwappedFs(a, source, c)
  {
    hide Links;
    var created, d := CreateFs(a, TempFile(t), c, source.GetOr("")), ReplaceDir(t);
    CreatedIsTakable(a, t, c, source.GetOr(""));
    TakenLinks(created, d);
    assert a.names[Public] in a.names.Values;
    PreparedExchange(a, t, c, source);
  }

  lemma PreparedExchange(a: Fs, t: Id, c: Inode, source: Option<Text>)
    requires Ready(a, t) && c !in a.data && Public in a.names
    ensures Exchanged(PreparedFs(a, t, c, source.GetOr("")), t, source) == SwappedFs(a, source, c)
  {
    hide Links;
    var b, d := PreparedFs(a, t, c, source.GetOr("")), ReplaceDir(t);
    assert b.temps - {t} == a.temps;
    assert b.caps - {d} == a.caps;
    assert b.names[Public := c] == a.names[Public := c];
  }

  /** After the expected generation was found: the exchange, seen from the start of the replacement. */
  method ExchangeMatching(h: Host, captured: Capture?, expected: Reading, source: Option<Text>, t: Id, depth: nat, fuel: nat,
      ghost c: Inode, ghost start: Fs, ghost before: seq<Event>)
    returns (r: Run<bool>, temporary: bool, left: Capture?, rollback: bool, published: bool)
    requires h.Valid() && KeepTree(start, h.fs, t) && InTree(before, h.trace, t)
    requires Lookup(h.fs.temps, t) == Some(c) && c !in start.data
    requires Sealed(h.fs, c) && h.fs.data[c] == source.GetOr("")
    requires Matches(captured, expected)
    requires h.trace == before + TakingEvents(start, t, expected) && HoldsOnly(start, ReplaceDir(t), InodeOf(expected))
    requires captured != null ==>
      && captured.dir == ReplaceDir(t) && captured.Holds(h.fs) && captured.current == captured.source
      && captured.Acknowledged(h.trace) && Detached(h.fs, t, captured.inode)
      && SlotFile(start, ReplaceDir(t)) in {None, Some(captured.inode)}
    requires captured == null ==> SlotFile(h.fs, ReplaceDir(t)).None? && SlotFile(start, ReplaceDir(t)).None?
    modifies h, captured
    ensures h.Valid() && KeepTree(start, h.fs, t) && InTree(before, h.trace, t)
    ensures left in {captured, null}
    ensures old(h.trace) <= h.trace
    ensures old(Apart(h.fs, t)) && NotPublished(old(h.trace), h.trace, t) ==> Apart(h.fs, t)
    ensures PublishedAs(start, before, h.trace, t, expected, source)
    ensures Spared(old(h.trace), h.trace, t) || Committed(start, before, h.trace, t, expected, source)
    ensures r.Done? && r.value ==> Committed(start, before, h.trace, t, expected, source)
    ensures r.Done? && !r.value ==>
      Undone(start, h.fs, before, h.trace, ReplaceDir(t)) && OnlyOwnDropped(start, before, h.trace, t)
    ensures r.Done? && !r.value && expected.Found? ==> Doubted(before, h.trace, t, expected)
    ensures h.calm && captured != null && old(Settled(h.fs, captured) && Public !in h.fs.names) ==>
      r == Done(true) && h.fs == old(Exchanged(h.fs, t, source))
    ensures h.calm && fuel > 0 && captured == null && old(CanWithdraw(h.fs, t)) ==>
      r == Done(false) && h.fs == old(WithoutTemp(h.fs, t))
    decreases fuel, 4, 2
  {
    hide Rely, FileWorld.Valid, Secluded, Shut, KeepTree, InTree, Detached, Undone, Quiet, Committed, Apart,
      NotPublished, Confined, Grows, ReturnedSince, Spared, PublishedOnly, PublishedAs, Doubted, Settled, Exchanged,
      TakingEvents, ExchangeEvents, HoldsOnly, Sealed, CaptureEvents, DropsOnly, Untouched, PuttingEvents,
      ConcludeEvents, CanWithdraw, WithoutTemp, SlotFile;
    ghost var trace1 := h.trace;
    MatchingEvents(start, t, captured, expected);
    r, temporary, left, rollback, published := Exchange(h, captured, source, t, depth, fuel, c, start, before);
    ThenPublishedOnly(start, before, trace1, h.trace, t, expected, source, c);
    if captured != null && h.trace == trace1 + ExchangeEvents(t, captured, source, c) {
      AfterExchange(trace1, t, captured, source, c);
      CommitsExactly(start, before, h.trace, t, expected, source, c);
    }
    if r.Done? && !r.value {
      if captured != null { DoubtedLater(before, trace1, h.trace, t, expected); }
      CaptureUndone(start, h.fs, before, trace1, h.trace, t, captured);
      OwnDropped(start, before, trace1, h.trace, t, c);
    }
  }

  /** The protected part of `replaceProjectPreparationFile`, with the locals its error handler reads. */
  method ReplaceSteps(h: Host, expected: Reading, source: Option<Text>, t: Id, depth: nat, fuel: nat)
    returns (r: Run<bool>, temporary: bool, left: Capture?, rollback: bool, published: bool)
    requires h.Valid()
    modifies h
    ensures h.Valid() && KeepTree(old(h.fs), h.fs, t) && InTree(old(h.trace), h.trace, t)
    ensures left != null ==> fresh(left) && left.dir == ReplaceDir(t)
    ensures old(Apart(h.fs, t)) && NotPublished(old(h.trace), h.trace, t) ==> Apart(h.fs, t)
    ensures PublishedAs(old(h.fs), old(h.trace), h.trace, t, expected, source)
    ensures Spared(old(h.trace), h.trace, t) || Committed(old(h.fs), old(h.trace), h.trace, t, expected, source)
    ensures h.calm && old(Ready(h.fs, t)) && expected == old(PublicReading(h.fs)) && expected.Found? ==>
      r == Done(true) && Swapped(old(h.fs), h.fs, source)
    ensures h.calm && fuel > 0 && expected.Missing? && old(NothingToReplace(h.fs, t)) ==>
      r == Done(false) && OnlyWritten(old(h.fs), h.fs, source.GetOr(""))
    ensures h.calm && old(Ready(h.fs, t)) && expected != old(PublicReading(h.fs)) ==>
      r == Done(false) && OnlyWritten(old(h.fs), h.fs, source.GetOr(""))
    ensures r.Done? && r.value ==> Committed(old(h.fs), old(h.trace), h.trace, t, expected, source)
    ensures r.Done? && !r.value ==>
      && Undone(old(h.fs), h.fs, old(h.trace), h.trace, ReplaceDir(t))
      && OnlyOwnDropped(old(h.fs), old(h.trace), h.trace, t)
    ensures r.Done? && !r.value && expected.Found? ==>
      Doubted(old(h.trace), h.trace, t, expected) || LeftFinished(old(h.fs), t)
    decreases fuel, 5
  {
    hide Rely, FileWorld.Valid, Secluded, Shut, KeepTree, InTree, Detached, Undone, Quiet, Committed, Apart,
      NotPublished, Grows, Spared, PublishedAs, Doubted, PreparedFs, OnlyWritten, PublicReading, Ready,
      NothingToReplace, CanWithdraw, WithoutTemp, Settled, Exchanged, Swapped, TakingEvents, HoldsOnly, Sealed, Sole,
      LeftFinished, SlotFile, InodeOf, OnlyOwnDropped;
    rollback, published := false, false;
    if NothingToReplace(h.fs, t) { NothingIsReady(h.fs, t); }
    ReadingIsFound(h.fs);
    var preparing;
    preparing, temporary, left := Prepare(h, expected, source, t);
    ghost var fs1, trace1 := h.fs, h.trace;
    QuietPublishedAs(old(h.fs), old(h.trace), trace1, t, expected, source);
    NothingDroppedYet(old(h.fs), old(h.trace), trace1, t);
    var matches :- preparing;
    if !matches { r := Done(false); return; }
    ghost var c := h.fs.temps[t];
    if left != null { SoleIsDetached(fs1, t, left.inode); }
    ghost var undisturbed := h.calm && old(Ready(h.fs, t)) && expected == old(PublicReading(h.fs)) && expected.Found?;
    if undisturbed { PreparedSettles(old(h.fs), fs1, t, c, source, left); }
    ghost var empty := h.calm && fuel > 0 && expected.Missing? && old(NothingToReplace(h.fs, t));
    if empty { PreparedWithdraws(old(h.fs), fs1, t, c, source); }
    var captured := left;
    r, temporary, left, rollback, published :=
      ExchangeMatching(h, captured, expected, source, t, depth, fuel, c, old(h.fs), old(h.trace));
    if undisturbed { SwappedAs(old(h.fs), h.fs, source, c); }
    NotPublishedLater(old(h.trace), trace1, h.trace, t);
    if Spared(trace1, h.trace, t) { SparedTrans(old(h.trace), trace1, h.trace, t); }
  }

  lemma NothingDroppedYet(a: Fs, before: seq<Event>, after: seq<Event>, t: Id)
    ensures NoDrops(before, after) ==> OnlyOwnDropped(a, before, after, t)
  {
  }

  lemma ReadingIsFound(fs: Fs)
    ensures PublicReading(fs).Found? <==> Public in fs.names
  {
  }

  lemma SwappedAs(a: Fs, b: Fs, source: Option<Text>, c: Inode)
    requires c !in a.data && b == SwappedFs(a, source, c)
    ensures Swapped(a, b, source)
  {
  }

  /**
   In every outcome: if the candidate of `t` was published, then with the wanted text,
   as a new file, and directly after the expected generation, and no other, was
   captured, or found in the capture, and read with the expected text.
   */
  ghost predicate PublishedAs(a: Fs, before: seq<Event>, after: seq<Event>, t: Id, expected: Reading, source: Option<Text>) {
    && before <= after
    && forall k :: |before| <= k < |after| && after[k].Published? && after[k].id == t ==>
         && source == Some(after[k].text) && after[k].inode !in a.data
         && after[..k] == before + TakingEvents(a, t, expected)
         && HoldsOnly(a, ReplaceDir(t), InodeOf(expected))
  }

  lemma QuietPublishedAs(a: Fs, x: seq<Event>, y: seq<Event>, t: Id, expected: Reading, source: Option<Text>)
    requires Quiet(x, y, t)
    ensures PublishedAs(a, x, y, t, expected, source) && Spared(x, y, t)
  {
  }

  lemma ThenNotPublished(a: Fs, x: seq<Event>, y: seq<Event>, z: seq<Event>, t: Id, expected: Reading, source: Option<Text>)
    requires PublishedAs(a, x, y, t, expected, source) && y <= z && NotPublished(y, z, t)
    ensures PublishedAs(a, x, z, t, expected, source)
  {
    forall k | |x| <= k < |z| && z[k].Published? && z[k].id == t ensures k < |y| && z[..k] == y[..k] {
    }
  }

  lemma ThenPublishedOnly(a: Fs, x: seq<Event>, y: seq<Event>, z: seq<Event>, t: Id, expected: Reading,
      source: Option<Text>, c: Inode)
    requires y == x + TakingEvents(a, t, expected) && PublishedOnly(y, z, t, source, c) && c !in a.data
    requires HoldsOnly(a, ReplaceDir(t), InodeOf(expected))
    ensures PublishedAs(a, x, z, t, expected, source)
  {
    assert forall k :: 0 <= k < |y| ==> z[k] == y[k];
    assert forall k :: |x| <= k < |y| ==> !y[k].Published?;
    assert z[..|y|] == y;
  }

  lemma SparedTrans(a: seq<Event>, b: seq<Event>, c: seq<Event>, t: Id)
    requires Spared(a, b, t) && Spared(b, c, t)
    ensures Spared(a, c, t)
  {
  }

  lemma AfterExchange(x: seq<Event>, t: Id, captured: Capture, source: Option<Text>, c: Inode)
    ensures x + ExchangeEvents(t, captured, source, c)
         == x + PuttingEvents(t, source, c) + ConcludeEvents(t, captured.inode, captured.source)
  {
  }

  lemma NotPublishedLater(x: seq<Event>, y: seq<Event>, z: seq<Event>, t: Id)
    requires x <= y <= z
    ensures NotPublished(x, z, t) ==> NotPublished(x, y, t) && NotPublished(y, z, t)
  {
  }

  lemma PublishedInBetween(x: seq<Event>, y: seq<Event>, z: seq<Event>, t: Id, source: Option<Text>, c: Inode)
    requires y == x + PuttingEvents(t, source, c) && y <= z
    ensures NotPublished(x, z, t) ==> source.None?
  {
    assert source.Some? ==> z[|x|] == Published(t, c, source.value);
  }

  lemma CommitsExactly(a: Fs, before: seq<Event>, after: seq<Event>, t: Id, expected: Reading, source: Option<Text>, c: Inode)
    requires expected.Found? && c !in a.data && after == CommitHistory(a, before, t, expected, source, c)
    ensures Committed(a, before, after, t, expected, source)
  {
  }

  lemma UndoneNothing(a: Fs, b: Fs, x: seq<Event>, z: seq<Event>, w: seq<Event>, t: Id)
    requires Untouched(x, z, ReplaceDir(t)) && Untouched(z, w, ReplaceDir(t))
    requires SlotFile(a, ReplaceDir(t)).None? && SlotFile(b, ReplaceDir(t)).None?
    ensures Undone(a, b, x, w, ReplaceDir(t))
  {
  }

  lemma OwnDropped(a: Fs, x: seq<Event>, z: seq<Event>, w: seq<Event>, t: Id, c: Inode)
    requires x <= z <= w && NoDrops(x, z) && DropsOnly(z, w, RollbackDir(t), c) && c !in a.data
    ensures OnlyOwnDropped(a, x, w, t)
  {
  }

  lemma SoleIsDetached(fs: Fs, t: Id, i: Inode)
    requires Sole(fs, ReplaceDir(t), i) && i in fs.data
    ensures Detached(fs, t, i)
  {
  }

  /** A recovery from inside the error handler: its own errors are swallowed. */
  method RecoverQuietly(h: Host, t: Id, depth: nat, fuel: nat, ghost start: Fs, ghost before: seq<Event>, ghost known: Known)
    returns (r: Run<bool>)
    requires h.Valid() && KeepTree(start, h.fs, t) && InTree(before, h.trace, t) && KnownHolds(h.fs, t, known)
    modifies h
    ensures h.Valid() && KeepTree(start, h.fs, t) && InTree(before, h.trace, t)
    ensures Explained(old(h.trace), h.trace, t, known)
    ensures old(Apart(h.fs, t)) ==> Apart(h.fs, t)
    decreases fuel, 6, 0
  {
    hide Rely, FileWorld.Valid, Secluded, Shut, KeepTree, InTree, Ended, Keeps, Explained, Apart, Unseen, KnownHolds,
      Quiet, SupersededAs;
    ghost var fs1, trace1, apart := h.fs, h.trace, Apart(h.fs, t);
    ghost var file, verdict;
    var recovered: Run<bool>;
    recovered, file, verdict := RecoverReplacement(h, t, depth, fuel, known);
    KeepTreeGrows(fs1, h.fs, t);
    KeepTreeTrans(start, fs1, h.fs, t);
    InTreeTrans(before, trace1, h.trace, t);
    if apart { ApartKept(fs1, h.fs, t); }
    var _ :- recovered;
    ghost var fs2, trace2 := h.fs, h.trace;
    r := RemoveTemporaryFile(h, t, None);
    KeepsInTree(fs2, h.fs, TempDir(t), t);
    KeepTreeTrans(start, fs2, h.fs, t);
    InTreeTrans(before, trace2, h.trace, t);
    TemporaryIsQuiet(trace1, trace2, h.trace, t);
    ExplainedWider(trace1, trace1, trace2, h.trace, t, known);
    if apart { KeepsApart(fs2, h.fs, t); }
  }

  lemma TemporaryIsQuiet(x: seq<Event>, y: seq<Event>, z: seq<Event>, t: Id)
    requires OnlyTemporary(y, z, t)
    ensures Quiet(x, x, t) && Quiet(y, z, t)
  {
  }

  lemma KeepsApart(a: Fs, b: Fs, t: Id)
    requires Apart(a, t) && Keeps(a, b, TempDir(t))
    ensures Apart(b, t)
  {
    ApartKept(a, b, t);
  }

  /**
   The error handler; `false` when the Host is lost inside it. The capture gives up
   nothing here except what a recovery supersedes.
   */
  method HandleFailure(h: Host, t: Id, captured: Capture?, rollback: bool, published: bool, temporary: bool,
      depth: nat, fuel: nat, ghost start: Fs, ghost before: seq<Event>)
    returns (survived: bool)
    requires h.Valid() && KeepTree(start, h.fs, t) && InTree(before, h.trace, t)
    requires captured != null ==> captured.dir == ReplaceDir(t)
    modifies h, captured
    ensures h.Valid() && KeepTree(start, h.fs, t) && InTree(before, h.trace, t)
    ensures Explained(old(h.trace), h.trace, t, Known(old(Apart(h.fs, t)), map[]))
    ensures old(Apart(h.fs, t)) ==> Apart(h.fs, t)
    decreases fuel, 6, 1
  {
    hide Rely, FileWorld.Valid, Secluded, Shut, KeepTree, InTree, Explained, Quiet, Apart, Unseen, Confined;
    QuietStart(h.trace, t);
    ghost var apart := Apart(h.fs, t);
    ghost var known := Known(apart, map[]);
    if rollback {
      ghost var fs1, trace1 := h.fs, h.trace;
      var recovered := RecoverRollback(h, t, fuel);
      KeepTreeGrows(fs1, h.fs, t);
      KeepTreeTrans(start, fs1, h.fs, t);
      InTreeTrans(before, trace1, h.trace, t);
      QuietExplained(old(h.trace), h.trace, t, known);
      if apart { ApartKept(fs1, h.fs, t); }
      if recovered.Crash? { return false; }
    }
    QuietExplained(old(h.trace), h.trace, t, known);
    if published { return true; }
    var retained, present := false, temporary;
    if captured != null {
      ghost var fs1, trace1 := h.fs, h.trace;
      var restored := RestoreIn(h, captured, t, start, before);
      QuietTrans(old(h.trace), trace1, h.trace, t);
      QuietExplained(old(h.trace), h.trace, t, known);
      if apart { ApartKept(fs1, h.fs, t); }
      if restored.Crash? { return false; }
      retained := restored.Threw?;
    }
    if retained && present {
      ghost var fs1, trace1 := h.fs, h.trace;
      if apart { ApartIsUnseen(fs1, t); }
      var recovered := RecoverQuietly(h, t, depth, fuel, start, before, known);
      QuietStart(h.trace, t);
      ExplainedWider(old(h.trace), trace1, h.trace, h.trace, t, known);
      if recovered.Crash? { return false; }
      if recovered.Done? { retained, present := false, false; }
    }
    if !retained && present {
      ghost var fs1 := h.fs;
      var dropped := DropTemporary(h, t, start, before);
      if apart { ApartKept(fs1, h.fs, t); }
      return !dropped.Crash?;
    }
    return true;
  }

  /**
   In every outcome, each file the capture of this replacement gave up was the
   expected generation at the end of a committed exchange, or was superseded by a
   recovery inside the error handler, under the candidate only if that had been
   published.
   */
  ghost predicate DropsAccounted(a: Fs, before: seq<Event>, after: seq<Event>, t: Id, expected: Reading, source: Option<Text>) {
    forall k :: |before| <= k < |after| && ReplaceDrop(after[k], t) ==>
      || Committed(a, before, after[..k + 1], t, expected, source)
      || Supersedes(before, after, t, after[k].inode, Known(NeverShown(a, before, after, t), map[]))
  }

  /** No file that could be taken for the candidate of `t` was ever seen at the public name. */
  ghost predicate NeverShown(a: Fs, before: seq<Event>, after: seq<Event>, t: Id) {
    Apart(a, t) && NotPublished(before, after, t)
  }

  lemma DropsAreAccounted(a: Fs, x: seq<Event>, y: seq<Event>, z: seq<Event>, t: Id, expected: Reading,
      source: Option<Text>, known: Known)
    requires x <= y && Explained(y, z, t, known) && (NeverShown(a, x, y, t) ==> known.unseen)
    requires Spared(x, y, t) || Committed(a, x, y, t, expected, source)
    ensures DropsAccounted(a, x, z, t, expected, source)
  {
    hide Supersedes, Apart, Committed;
    forall k | |x| <= k < |z| && ReplaceDrop(z[k], t)
      ensures
        || Committed(a, x, z[..k + 1], t, expected, source)
        || Supersedes(x, z, t, z[k].inode, Known(NeverShown(a, x, z, t), map[]))
    {
      if k < |y| {
        assert z[k] == y[k];
        LastIsTheDrop(a, x, y, t, expected, source, k);
        assert z[..k + 1] == y;
      } else {
        SupersedesWider(x, y, z, z, t, z[k].inode, known);
        if NeverShown(a, x, z, t) { NotPublishedLater(x, y, z, t); }
        SupersedesLess(x, z, t, z[k].inode, Known(NeverShown(a, x, z, t), map[]), known);
      }
    }
  }

  /** A committed history gives up one file, at its end. */
  lemma LastIsTheDrop(a: Fs, x: seq<Event>, y: seq<Event>, t: Id, expected: Reading, source: Option<Text>, k: nat)
    requires Committed(a, x, y, t, expected, source) && |x| <= k < |y| && ReplaceDrop(y[k], t)
    ensures k == |y| - 1
  {
    var c: Inode :| c !in a.data && y == CommitHistory(a, x, t, expected, source, c);
    var prefix := x + TakingEvents(a, t, expected);
    assert y == prefix + PuttingEvents(t, source, c) + ConcludeEvents(t, expected.inode, expected.text);
  }

  /**
   `replaceProjectPreparationFile`. `true`: compare-and-swap. `false`: the captured
   generation has, or had after its capture, its public name again, and nothing of
   it was given up. An error or a crash leaves the invariant: each generation is
   public, privately named, or was given up as part of a committed exchange or of a
   recovery that superseded it. Until the candidate is published nobody sees it.
   */
  method Replace(h: Host, expected: Reading, source: Option<Text>, t: Id, depth: nat, fuel: nat) returns (r: Run<bool>)
    requires h.Valid()
    modifies h
    ensures h.Valid() && KeepTree(old(h.fs), h.fs, t) && InTree(old(h.trace), h.trace, t)
    ensures PublishedAs(old(h.fs), old(h.trace), h.trace, t, expected, source)
    ensures DropsAccounted(old(h.fs), old(h.trace), h.trace, t, expected, source)
    ensures NeverShown(old(h.fs), old(h.trace), h.trace, t) ==> Apart(h.fs, t)
    ensures r.Done? && r.value ==> Committed(old(h.fs), old(h.trace), h.trace, t, expected, source)
    ensures r.Done? && !r.value ==>
      && Undone(old(h.fs), h.fs, old(h.trace), h.trace, ReplaceDir(t))
      && OnlyOwnDropped(old(h.fs), old(h.trace), h.trace, t)
    ensures h.calm && old(Ready(h.fs, t)) && expected == old(PublicReading(h.fs)) && expected.Found? ==>
      r == Done(true) && Swapped(old(h.fs), h.fs, source)
    ensures h.calm && fuel > 0 && expected.Missing? && old(NothingToReplace(h.fs, t)) ==>
      r == Done(false) && OnlyWritten(old(h.fs), h.fs, source.GetOr(""))
    ensures h.calm && old(Ready(h.fs, t)) && expected != old(PublicReading(h.fs)) ==>
      r == Done(false) && OnlyWritten(old(h.fs), h.fs, source.GetOr(""))
    ensures r.Done? && !r.value && expected.Found? ==>
      Doubted(old(h.trace), h.trace, t, expected) || LeftFinished(old(h.fs), t)
    decreases fuel, 7
  {
    hide Rely, FileWorld.Valid, Secluded, Shut, KeepTree, InTree, Undone, Committed, Explained, Quiet, DropsAccounted,
      Apart, NotPublished, Spared, PublishedAs, Doubted, Ready, PublicReading, Swapped, OnlyWritten, NothingToReplace;
    var temporary, captured, rollback, published;
    r, temporary, captured, rollback, published := ReplaceSteps(h, expected, source, t, depth, fuel);
    ghost var fs1, trace1 := h.fs, h.trace;
    ghost var known := Known(Apart(fs1, t), map[]);
    InTreeExtends(old(h.trace), trace1, t);
    QuietStart(trace1, t);
    QuietExplained(trace1, trace1, t, known);
    if r.Threw? {
      var survived :=
        HandleFailure(h, t, captured, rollback, published, temporary, depth, fuel, old(h.fs), old(h.trace));
      DropsAreAccounted(old(h.fs), old(h.trace), trace1, h.trace, t, expected, source, known);
      ExplainedExtends(trace1, h.trace, t, known);
      NotPublishedLater(old(h.trace), trace1, h.trace, t);
      ThenNotPublished(old(h.fs), old(h.trace), trace1, h.trace, t, expected, source);
      if !survived { return Crash; }
    } else {
      DropsAreAccounted(old(h.fs), old(h.trace), trace1, h.trace, t, expected, source, known);
    }
  }

  // ------------------------------------------------- a lost replacement

  /**
   How a file that a capture of `t` held ended: public again; given up as the
   expected generation of a committed exchange; or given up after a recovery found
   the candidate public, or had merged it with what was public. Where the candidate
   was never shown (`unshown`), only the first and the last remain, unless the file
   was to be absent.
   */
  ghost predicate Ends(e: Event, a: Fs, before: seq<Event>, upTo: seq<Event>, after: seq<Event>, t: Id,
      expected: Reading, source: Option<Text>, i: Inode, unshown: bool)
  {
    || Returns(e, i)
    || (ReplaceDrop(e, t) && e.inode == i && (
          || (Committed(a, before, upTo, t, expected, source) && (unshown ==> source.None?))
          || Supersedes(before, after, t, i, Known(unshown, map[]))))
  }

  ghost predicate EndsSince(a: Fs, before: seq<Event>, from: nat, after: seq<Event>, t: Id,
      expected: Reading, source: Option<Text>, i: Inode, unshown: bool)
  {
    exists k :: from <= k < |after| && Ends(after[k], a, before, after[..k + 1], after, t, expected, source, i, unshown)
  }

  lemma CommitPublishes(a: Fs, x: seq<Event>, y: seq<Event>, z: seq<Event>, t: Id, expected: Reading, source: Option<Text>)
    requires y <= z && Committed(a, x, y, t, expected, source)
    ensures NotPublished(x, z, t) ==> source.None?
  {
    var c: Inode :| c !in a.data && y == CommitHistory(a, x, t, expected, source, c);
    var n := |x + TakingEvents(a, t, expected)|;
    assert source.Some? ==> z[n] == Published(t, c, source.value);
  }

  lemma LostDropEnds(a: Fs, x: seq<Event>, y: seq<Event>, z: seq<Event>, t: Id, expected: Reading,
      source: Option<Text>, known: Known, k: nat)
    requires x <= y <= z && |x| <= k < |z| && ReplaceDrop(z[k], t)
    requires DropsAccounted(a, x, y, t, expected, source) && Explained(y, z, t, known)
    requires NeverShown(a, x, y, t) ==> known.unseen
    ensures Ends(z[k], a, x, z[..k + 1], z, t, expected, source, z[k].inode, NeverShown(a, x, y, t))
  {
    hide Supersedes, Apart, NotPublished, Committed;
    var unshown := NeverShown(a, x, y, t);
    if k < |y| {
      assert y[k] == z[k] && y[..k + 1] == z[..k + 1];
      if Committed(a, x, y[..k + 1], t, expected, source) {
        CommitPublishes(a, x, y[..k + 1], y, t, expected, source);
      } else {
        SupersedesWider(x, x, y, z, t, z[k].inode, Known(unshown, map[]));
      }
    } else {
      SupersedesWider(x, y, z, z, t, z[k].inode, known);
      SupersedesLess(x, z, t, z[k].inode, Known(unshown, map[]), known);
    }
  }

  lemma HeldFileEnds(a: Fs, x: seq<Event>, y: seq<Event>, z: seq<Event>, b: Fs, t: Id, expected: Reading,
      source: Option<Text>, known: Known, k: nat, i: Inode)
    requires x <= y <= z && FileWorld.Valid(b, z) && ReplaceDir(t) !in b.caps
    requires DropsAccounted(a, x, y, t, expected, source) && Explained(y, z, t, known)
    requires NeverShown(a, x, y, t) ==> known.unseen
    requires |x| <= k <= |z| && (ReplaceDir(t), i) in Held(z[..k])
    ensures EndsSince(a, x, k, z, t, expected, source, i, NeverShown(a, x, y, t))
  {
    hide Ends, DropsAccounted, Explained, NeverShown, Held, Justified;
    HeldIsAccountedFor(z, k, ReplaceDir(t), i);
    assert !Named(b, ReplaceDir(t), i);
    var j :| k <= j < |z| && Settles(z, j, ReplaceDir(t), i);
    if Returns(z[j], i) {
      ReturnEnds(z[j], a, x, z[..j + 1], z, t, expected, source, i, NeverShown(a, x, y, t));
    } else {
      LostDropEnds(a, x, y, z, t, expected, source, known, j);
    }
  }

  lemma ReturnEnds(e: Event, a: Fs, before: seq<Event>, upTo: seq<Event>, after: seq<Event>, t: Id,
      expected: Reading, source: Option<Text>, i: Inode, unshown: bool)
    requires Returns(e, i)
    ensures Ends(e, a, before, upTo, after, t, expected, source, i, unshown)
  {
  }

  /** File `i` is public again, or was given up with exactly this text, which nobody could write any more. */
  ghost predicate EndsWithText(before: seq<Event>, after: seq<Event>, t: Id, i: Inode, text: Text) {
    || ReturnedSince(before, after, i)
    || Supersedes(before, after, t, i, Known(false, map[i := text]))
  }

  lemma EndedWithText(before: seq<Event>, after: seq<Event>, t: Id, i: Inode, known: Known, v: Verdict)
    requires i in known.texts
    requires v.OldPublic? ==> Ended(before, after, t, i, v)
    requires v.Superseded? ==> SupersededAs(before, after, t, i, known, v)
    ensures EndsWithText(before, after, t, i, known.texts[i])
  {
    if v.Superseded? {
      assert SupersededAs(before, after, t, i, Known(false, map[i := known.texts[i]]), v);
    }
  }

  lemma {:induction false} HeldWasTaken(x: seq<Event>, z: seq<Event>, d: Dir, i: Inode)
    requires x <= z && (d, i) in Held(z)
    ensures (d, i) in Held(x) || exists k :: |x| <= k < |z| && z[k] == Took(d, i)
    decreases |z|
  {
    if |x| == |z| {
      assert x == z;
    } else {
      var prior := z[..|z| - 1];
      if (d, i) in Held(prior) {
        HeldWasTaken(x, prior, d, i);
      } else {
        assert z[|z| - 1] == Took(d, i);
      }
    }
  }

  /** After the publication the capture holds the expected file, or what was taken into it later. */
  lemma HeldAfterPublication(a: Fs, x: seq<Event>, y: seq<Event>, z: seq<Event>, t: Id, expected: Reading,
      source: Option<Text>, p: nat, k: nat, i: Inode)
    requires x <= y <= z && Custody(a, x) && PublishedAs(a, x, y, t, expected, source)
    requires |x| <= p < |y| && y[p].Published? && y[p].id == t
    requires p <= k <= |z| && (ReplaceDir(t), i) in Held(z[..k])
    ensures InodeOf(expected) == Some(i) || exists m :: p <= m < k && z[m] == Took(ReplaceDir(t), i)
  {
    var d := ReplaceDir(t);
    var taking := x + TakingEvents(a, t, expected);
    assert y[..p] == taking && z[..p] == y[..p] && z[..p] <= z[..k];
    HeldWasTaken(taking, z[..k], d, i);
    if m :| |taking| <= m < |z[..k]| && z[..k][m] == Took(d, i) {
      assert z[m] == Took(d, i);
    } else {
      HeldWasTaken(x, taking, d, i);
      if (d, i) in Held(x) {
        assert Named(a, d, i);
      } else {
        var m :| |x| <= m < |taking| && taking[m] == Took(d, i);
        assert m == |x| && taking[m] == TakingEvents(a, t, expected)[0];
      }
    }
  }

  /**
   A replacement lost at any call, whatever other processes do then, and a recovery
   with the same ID; `lost` is the history and `at` the file system at the loss.
   Whatever was published was the wanted text, directly after the expected generation.
   If the recovery completes, every file the replacement's capture held at any time
   ended in one of the four ways; what it held after the publication is the expected
   file, or was taken later; and the file it held at the loss, if only the capture
   could still show it and nobody could write it, was given up with its text then
   unless it is public again.
   */
  method ReplaceThenRecover(h: Host, expected: Reading, source: Option<Text>, t: Id, fuel: nat)
    returns (replaced: Run<bool>, recovered: Run<bool>, ghost lost: seq<Event>, ghost at: Fs)
    requires h.Valid()
    modifies h
    ensures h.Valid() && old(h.trace) <= lost <= h.trace
    ensures PublishedAs(old(h.fs), old(h.trace), lost, t, expected, source)
    ensures recovered.Done? ==> forall k, i: Inode ::
      |old(h.trace)| <= k <= |h.trace| && (ReplaceDir(t), i) in Held(h.trace[..k]) ==>
        EndsSince(old(h.fs), old(h.trace), k, h.trace, t, expected, source, i,
          NeverShown(old(h.fs), old(h.trace), lost, t))
    ensures forall p, k, i: Inode ::
      && |old(h.trace)| <= p < |lost| && lost[p].Published? && lost[p].id == t
      && p <= k <= |h.trace| && (ReplaceDir(t), i) in Held(h.trace[..k]) ==>
        InodeOf(expected) == Some(i) || exists m :: p <= m < k && h.trace[m] == Took(ReplaceDir(t), i)
    ensures recovered.Done? ==> forall i: Inode ::
      SlotFile(at, ReplaceDir(t)) == Some(i) && Shut(at, ReplaceDir(t), i) ==>
        EndsWithText(lost, h.trace, t, i, at.data[i])
  {
    hide Rely, FileWorld.Valid, Secluded, Shut, KeepTree, InTree, Undone, Committed, Explained, DropsAccounted,
      NeverShown, Apart, Unseen, Ended, EndsSince, Held, SupersededAs, PublishedAs, EndsWithText, KnownHolds, ShutIn;
    ghost var fs0, trace0 := h.fs, h.trace;
    ValidIsCustody(fs0, trace0);
    replaced := Replace(h, expected, source, t, 0, fuel);
    InTreeExtends(old(h.trace), h.trace, t);
    lost, at := h.trace, h.fs;
    h.Interfere();
    ghost var fs2 := h.fs;
    ghost var known := KnownAt(at, t);
    ShutInStable(at, fs2, ReplaceDir(t));
    KnownKept(at, fs2, t, known);
    ghost var file, verdict;
    recovered, file, verdict := RecoverReplacement(h, t, 0, fuel, known);
    InTreeExtends(lost, h.trace, t);
    if NeverShown(old(h.fs), old(h.trace), lost, t) { ApartIsUnseen(at, t); }
    forall p, k, i: Inode |
      && |old(h.trace)| <= p < |lost| && lost[p].Published? && lost[p].id == t
      && p <= k <= |h.trace| && (ReplaceDir(t), i) in Held(h.trace[..k])
      ensures InodeOf(expected) == Some(i) || exists m :: p <= m < k && h.trace[m] == Took(ReplaceDir(t), i)
    {
      HeldAfterPublication(fs0, trace0, lost, h.trace, t, expected, source, p, k, i);
    }
    if recovered.Done? {
      assert FileWorld.Valid(h.fs, h.trace);
      forall k, i: Inode | |old(h.trace)| <= k <= |h.trace| && (ReplaceDir(t), i) in Held(h.trace[..k])
        ensures EndsSince(old(h.fs), old(h.trace), k, h.trace, t, expected, source, i,
          NeverShown(old(h.fs), old(h.trace), lost, t))
      {
        HeldFileEnds(old(h.fs), old(h.trace), lost, h.trace, h.fs, t, expected, source, known, k, i);
      }
      forall i: Inode | SlotFile(at, ReplaceDir(t)) == Some(i) && Shut(at, ReplaceDir(t), i)
        ensures EndsWithText(lost, h.trace, t, i, at.data[i])
      {
        EndedWithText(lost, h.trace, t, i, known, verdict);
      }
    }
  }

  lemma ValidIsCustody(fs: Fs, trace: seq<Event>)
    requires FileWorld.Valid(fs, trace)
    ensures Custody(fs, trace)
  {
  }
}
