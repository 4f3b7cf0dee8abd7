/**
 The world in which Project preparation works: names, inodes, open descriptors,
 what other processes may do between two Host steps, and the history of what the
 Host did to the public name.
 */
module FileWorld {
  import opened Wrappers
  import opened ExclusionText

  /** Stands for (birth time, device, inode): never reused. */
  type Inode = nat

  /** A stable temporary ID; `Reconcile` is the derived `reconcile-<digest>` ID. */
  datatype Id = Base(n: nat) | Reconcile(of: Id)

  /** The file a capture directory belongs to, and the capture ID in its name. */
  datatype Place = AtPublic | AtTemp(id: Id)
  datatype Purpose = Replacing(id: Id) | RollingBack(id: Id) | Owning(id: Id)
  datatype Dir = Dir(place: Place, purpose: Purpose)

  /** Names other processes may use; `User` is any hard link or further name of theirs. */
  datatype Name = Public | User(n: nat)

  /** A capture directory with its two entries, or the same directory renamed to `.released`. */
  datatype Cap =
    | Open(captured: Option<Inode>, release: Option<Inode>)
    | Finished(release: Option<Inode>)

  /**
   `temps` and `caps` are the Host's private names, which no other process uses.
   `open` holds the inodes on which some other process has a descriptor.
   */
  datatype Fs = Fs(
    temps: map<Id, Inode>,
    caps: map<Dir, Cap>,
    names: map<Name, Inode>,
    data: map<Inode, Text>,
    open: set<Inode>)

  datatype Path =
    | PublicFile
    | TempFile(id: Id)
    | CapturedFile(dir: Dir)
    | ReleaseFile(dir: Dir)
    | FinishedFile(dir: Dir)

  function Lookup<K, V>(m: map<K, V>, k: K): Option<V> {
    if k in m then Some(m[k]) else None
  }

  function At(fs: Fs, p: Path): Option<Inode> {
    match p
    case PublicFile => Lookup(fs.names, Public)
    case TempFile(id) => Lookup(fs.temps, id)
    case CapturedFile(d) => CapturedIn(fs, d)
    case ReleaseFile(d) => ReleaseIn(fs, d)
    case FinishedFile(d) => if d in fs.caps && fs.caps[d].Finished? then fs.caps[d].release else None
  }

  function CapturedIn(fs: Fs, d: Dir): Option<Inode> {
    if d in fs.caps && fs.caps[d].Open? then fs.caps[d].captured else None
  }

  function ReleaseIn(fs: Fs, d: Dir): Option<Inode> {
    if d in fs.caps && fs.caps[d].Open? then fs.caps[d].release else None
  }

  /** The file name a capture directory is derived from. */
  function BasePath(d: Dir): Path {
    match d.place
    case AtPublic => PublicFile
    case AtTemp(id) => TempFile(id)
  }

  function Slots(cap: Cap): set<Inode> {
    (if cap.Open? && cap.captured.Some? then {cap.captured.value} else {})
    + (if cap.release.Some? then {cap.release.value} else {})
  }

  ghost predicate WellFormed(fs: Fs) {
    && fs.names.Values <= fs.data.Keys
    && fs.temps.Values <= fs.data.Keys
    && (forall d :: d in fs.caps ==> Slots(fs.caps[d]) <= fs.data.Keys)
    && fs.open <= fs.data.Keys
  }

  lemma AtIsAllocated(fs: Fs, p: Path)
    requires WellFormed(fs) && At(fs, p).Some?
    ensures At(fs, p).value in fs.data
  {
    match p
    case PublicFile => assert fs.names[Public] in fs.names.Values;
    case TempFile(id) => assert fs.temps[id] in fs.temps.Values;
    case CapturedFile(d) => assert At(fs, p).value in Slots(fs.caps[d]);
    case ReleaseFile(d) => assert At(fs, p).value in Slots(fs.caps[d]);
    case FinishedFile(d) => assert At(fs, p).value in Slots(fs.caps[d]);
  }

  /** Another process can reach the inode by name. */
  ghost predicate Visible(fs: Fs, i: Inode) {
    i in fs.names.Values
  }

  /** No other process can change the inode any more. */
  ghost predicate Sealed(fs: Fs, i: Inode) {
    i in fs.data && i !in fs.open && !Visible(fs, i)
  }

  // -------------------------------------------------------- environment

  /** One step of another process: only through public names and descriptors it holds. */
  datatype Act =
    | Write(i: Inode, text: Text)
    | OpenName(n: Name)
    | Close(i: Inode)
    | Create(n: Name, i: Inode, text: Text)
    | LinkTo(from: Name, to: Name)
    | Unlink(n: Name)
    | Rename(from: Name, to: Name)

  function Env(fs: Fs, act: Act): Fs {
    match act
    case Write(i, text) =>
      if i in fs.open && i in fs.data then fs.(data := fs.data[i := text]) else fs
    case OpenName(n) => if n in fs.names then fs.(open := fs.open + {fs.names[n]}) else fs
    case Close(i) => fs.(open := fs.open - {i})
    case Create(n, i, text) =>
      if n !in fs.names && i !in fs.data
      then fs.(names := fs.names[n := i], data := fs.data[i := text], open := fs.open + {i})
      else fs
    case LinkTo(from, to) =>
      if from in fs.names && to !in fs.names then fs.(names := fs.names[to := fs.names[from]]) else fs
    case Unlink(n) => fs.(names := fs.names - {n})
    case Rename(from, to) =>
      if from in fs.names && from != to
      then fs.(names := fs.names[to := fs.names[from]] - {from}) else fs
  }

  /** Inodes nobody else could reach stay out of reach. */
  ghost predicate Hides(a: Fs, b: Fs) {
    forall i :: i in a.data && Visible(b, i) ==> Visible(a, i)
  }

  /** All that any number of steps of other processes leave alone. */
  ghost predicate Rely(a: Fs, b: Fs) {
    && WellFormed(b)
    && b.temps == a.temps && b.caps == a.caps
    && a.data.Keys <= b.data.Keys
    && Hides(a, b)
    && (forall i :: Sealed(a, i) ==> i in b.data && i !in b.open && b.data[i] == a.data[i])
  }

  /** A capture of the public file holds the inode. */
  ghost predicate Named(fs: Fs, d: Dir, i: Inode) {
    d.place.AtPublic? && (CapturedIn(fs, d) == Some(i) || ReleaseIn(fs, d) == Some(i))
  }

  /** The file has no public name and is in no capture from which it could get the project's. */
  ghost predicate Secluded(fs: Fs, i: Inode) {
    i in fs.data && !Visible(fs, i) && forall d :: !Named(fs, d, i)
  }

  /** Files are never reused, and what nobody could see stays unseen. */
  ghost predicate Grows(a: Fs, b: Fs) {
    a.data.Keys <= b.data.Keys && forall i :: Secluded(a, i) ==> Secluded(b, i)
  }

  /** Nobody can write the file, and no capture but `d` could give it the public name. */
  ghost predicate Shut(fs: Fs, d: Dir, i: Inode) {
    Sealed(fs, i) && forall e :: Named(fs, e, i) ==> e == d
  }

  /** Shut files stay shut, with their text. */
  ghost predicate ShutKept(a: Fs, b: Fs) {
    forall d, i :: Shut(a, d, i) ==> Shut(b, d, i) && b.data[i] == a.data[i]
  }

  /** The same of every capture but one. */
  ghost predicate ShutBut(a: Fs, b: Fs, but: Dir) {
    forall d, i :: d != but && Shut(a, d, i) ==> Shut(b, d, i) && b.data[i] == a.data[i]
  }

  /** The part of the rely condition that most Host code needs. */
  ghost predicate Stable(a: Fs, b: Fs) {
    b.temps == a.temps && b.caps == a.caps && Grows(a, b) && ShutKept(a, b)
  }

  lemma RelyStable(a: Fs, b: Fs)
    requires Rely(a, b)
    ensures Stable(a, b)
  {
    forall i | Secluded(a, i) ensures Secluded(b, i) {
      forall d ensures !Named(b, d, i) { assert !Named(a, d, i); }
    }
    forall d, i | Shut(a, d, i) ensures Shut(b, d, i) && b.data[i] == a.data[i] {
      assert !Visible(a, i);
      forall e | Named(b, e, i) ensures e == d { assert Named(a, e, i); }
    }
  }

  /** Files nobody else can write stay that way, with their text. */
  ghost predicate Shields(a: Fs, b: Fs) {
    forall i :: Sealed(a, i) ==> Sealed(b, i) && b.data[i] == a.data[i]
  }

  lemma RelyRefl(a: Fs)
    requires WellFormed(a)
    ensures Rely(a, a)
  {
  }

  lemma RelyTrans(a: Fs, b: Fs, c: Fs)
    requires Rely(a, b) && Rely(b, c)
    ensures Rely(a, c)
  {
    forall i | Sealed(a, i) ensures c.data[i] == a.data[i] && i !in c.open {
      assert Sealed(b, i);
    }
  }

  lemma EnvHides(fs: Fs, act: Act)
    requires WellFormed(fs)
    ensures Hides(fs, Env(fs, act))
  {
    var after := Env(fs, act);
    forall i | i in fs.data && Visible(after, i) ensures Visible(fs, i) {
      var n :| n in after.names && after.names[n] == i;
      if act.LinkTo? || act.Rename? {
        var m := if n in fs.names && fs.names[n] == i then n else act.from;
        assert m in fs.names && fs.names[m] == i;
      }
    }
  }

  lemma EnvKeepsSealed(fs: Fs, act: Act, i: Inode)
    requires WellFormed(fs) && Sealed(fs, i)
    ensures var after := Env(fs, act); i in after.data && i !in after.open && after.data[i] == fs.data[i]
  {
    if act.OpenName? && act.n in fs.names && fs.names[act.n] == i {
      assert false;
    }
  }

  lemma EnvWellFormed(fs: Fs, act: Act)
    requires WellFormed(fs)
    ensures WellFormed(Env(fs, act))
  {
    assert forall n :: n in fs.names ==> fs.names[n] in fs.names.Values;
  }

  /** The rely condition is what the environment really guarantees. */
  lemma EnvRelies(fs: Fs, act: Act)
    requires WellFormed(fs)
    ensures Rely(fs, Env(fs, act))
  {
    EnvWellFormed(fs, act);
    EnvHides(fs, act);
    forall i | Sealed(fs, i)
      ensures i in Env(fs, act).data && i !in Env(fs, act).open && Env(fs, act).data[i] == fs.data[i]
    {
      EnvKeepsSealed(fs, act, i);
    }
  }

  // ------------------------------------------------------------ history

  /**
   What the Host did or saw. `Took`: renamed the public file into a capture.
   `Put`: gave a captured file the public name. `Published`: gave it to the
   temporary file of an ID. `Absent`: found no public file to take. `Saw`: read the public file. `Looked`: read a captured
   file. `Probed`: no other process had the file open, and whether it had a public
   name then. `Dropped`: gave up a captured file, with its text then and whether
   nobody could write it any more. `Clobbered`: a public file lost its name to `Put`.
   `Made`: an empty public file created by opening for append.
   */
  datatype Event =
    | Took(dir: Dir, inode: Inode)
    | Absent(dir: Dir)
    | Put(inode: Inode, text: Text)
    | Published(id: Id, inode: Inode, text: Text)
    | Saw(inode: Inode, text: Text)
    | Looked(dir: Dir, inode: Inode, text: Text)
    | Probed(inode: Inode, public: bool)
    | Dropped(dir: Dir, inode: Inode, text: Text, sealed: bool)
    | Clobbered(inode: Inode)
    | Made(inode: Inode)

  /** The public name holds, or held after the last capture, this file. */
  predicate Returns(e: Event, i: Inode) {
    (e.Put? || e.Saw? || e.Published?) && e.inode == i
  }

  function HeldAfter(held: set<(Dir, Inode)>, e: Event): set<(Dir, Inode)> {
    if e.Took? then held + {(e.dir, e.inode)}
    else if e.Dropped? then held - {(e.dir, e.inode)}
    else set p | p in held && !Returns(e, p.1)
  }

  /** For which capture directories, and which files in them, the Host is answerable. */
  function Held(trace: seq<Event>): set<(Dir, Inode)> {
    if trace == [] then {} else HeldAfter(Held(trace[..|trace| - 1]), trace[|trace| - 1])
  }

  lemma HeldStep(trace: seq<Event>, e: Event)
    ensures Held(trace + [e]) == HeldAfter(Held(trace), e)
  {
    assert (trace + [e])[..|trace|] == trace;
  }

  /** What a capture took from the public name is still in that capture. */
  ghost predicate Custody(fs: Fs, trace: seq<Event>) {
    forall d, i :: (d, i) in Held(trace) ==> Named(fs, d, i)
  }

  /**
   A captured file is given up right after its descriptors were probed and it was
   read once more with a text that had been read of it before the probe; and unless it
   had a public name at the probe, nobody can write it any more and it has that text.
   */
  ghost predicate Justified(trace: seq<Event>, k: nat)
    requires k < |trace|
  {
    trace[k].Dropped? ==>
      && k >= 2
      && trace[k - 2].Probed? && trace[k - 2].inode == trace[k].inode
      && trace[k - 1].Looked? && trace[k - 1].dir == trace[k].dir && trace[k - 1].inode == trace[k].inode
      && trace[k - 1] in trace[..k - 2]
      && (!trace[k - 2].public ==> trace[k].sealed && trace[k].text == trace[k - 1].text)
  }

  ghost predicate AllJustified(trace: seq<Event>) {
    forall k :: 0 <= k < |trace| ==> Justified(trace, k)
  }

  lemma JustifiedLater(trace: seq<Event>, longer: seq<Event>, k: nat)
    requires trace <= longer && k < |trace|
    ensures Justified(longer, k) == Justified(trace, k)
  {
    assert longer[k] == trace[k];
    if k >= 2 { assert longer[k - 1] == trace[k - 1] && longer[k - 2] == trace[k - 2] && longer[..k - 2] == trace[..k - 2]; }
  }

  lemma AllJustifiedMore(trace: seq<Event>, e: Event)
    requires AllJustified(trace) && Justified(trace + [e], |trace|)
    ensures AllJustified(trace + [e])
  {
    forall k | 0 <= k < |trace| ensures Justified(trace + [e], k) {
      JustifiedLater(trace, trace + [e], k);
    }
  }

  ghost predicate Valid(fs: Fs, trace: seq<Event>) {
    && WellFormed(fs)
    && Custody(fs, trace)
    && AllJustified(trace)
  }

  lemma RelyValid(a: Fs, b: Fs, trace: seq<Event>)
    requires Valid(a, trace) && Rely(a, b)
    ensures Valid(b, trace)
  {
    forall d, i | (d, i) in Held(trace) ensures Named(b, d, i) {
      assert Named(a, d, i);
    }
  }

  /** No file of another process lost its public name to the Host. */
  ghost predicate Unclobbered(trace: seq<Event>) {
    forall k :: 0 <= k < |trace| ==> !trace[k].Clobbered?
  }

  ghost predicate ReturnedSince(before: seq<Event>, after: seq<Event>, i: Inode) {
    exists k :: |before| <= k < |after| && Returns(after[k], i)
  }

  /**
   The custody theorem in terms of the history alone: what a capture held was
   put back or seen at the public name, or given up from that capture with a
   justification, or the Host is still answerable for it.
   */
  lemma {:induction false} HeldIsAccountedFor(trace: seq<Event>, k: nat, d: Dir, i: Inode)
    requires AllJustified(trace)
    requires k <= |trace| && (d, i) in Held(trace[..k])
    ensures (d, i) in Held(trace) || SettledAfter(trace, k, d, i)
  {
    hide Justified;
    if k == |trace| {
      assert trace[..k] == trace;
    } else {
      var n := |trace| - 1;
      var prior := trace[..n];
      assert prior[..k] == trace[..k];
      forall j | 0 <= j < n ensures Justified(prior, j) {
        JustifiedLater(prior, trace, j);
      }
      HeldIsAccountedFor(prior, k, d, i);
      if SettledAfter(prior, k, d, i) {
        var j :| k <= j < |prior| && Settles(prior, j, d, i);
        JustifiedLater(prior, trace, j);
        assert Settles(trace, j, d, i);
      } else if (d, i) !in Held(trace) {
        assert Settles(trace, n, d, i);
      }
    }
  }

  lemma TakenIsAccountedFor(trace: seq<Event>, k: nat, d: Dir, i: Inode)
    requires AllJustified(trace)
    requires k < |trace| && trace[k] == Took(d, i)
    ensures (d, i) in Held(trace) || SettledAfter(trace, k + 1, d, i)
  {
    assert trace[..k + 1][..k] == trace[..k];
    HeldIsAccountedFor(trace, k + 1, d, i);
  }

  /** The file is publicly named, or given up from this capture with a justification. */
  ghost predicate Settles(trace: seq<Event>, k: nat, d: Dir, i: Inode)
    requires k < |trace|
  {
    || Returns(trace[k], i)
    || (trace[k].Dropped? && trace[k].dir == d && trace[k].inode == i && Justified(trace, k))
  }

  ghost predicate SettledAfter(trace: seq<Event>, k: nat, d: Dir, i: Inode) {
    exists j :: k <= j < |trace| && Settles(trace, j, d, i)
  }

  // ------------------------------------------------------------- frames

  predicate Within(id: Id, root: Id) {
    id == root || (id.Reconcile? && Within(id.of, root))
  }

  function Depth(id: Id): nat {
    match id
    case Base(_) => 0
    case Reconcile(of) => 1 + Depth(of)
  }

  lemma {:induction false} WithinDepth(id: Id, root: Id)
    requires Within(id, root)
    ensures Depth(id) >= Depth(root)
  {
    if id != root { WithinDepth(id.of, root); }
  }

  lemma {:induction false} WithinTrans(a: Id, b: Id, c: Id)
    requires Within(a, b) && Within(b, c)
    ensures Within(a, c)
  {
    if a != b { WithinTrans(a.of, b, c); }
  }

  /** An ID is outside the tree of every ID derived from it. */
  lemma OwnIdIsOutside(id: Id)
    ensures !Within(id, Reconcile(id)) && Within(Reconcile(id), id)
  {
    if Within(id, Reconcile(id)) { WithinDepth(id, Reconcile(id)); }
  }

  /** Files in captures outside the tree of a temporary ID that are shut stay shut, with their text. */
  ghost predicate ShutOutside(a: Fs, b: Fs, id: Id) {
    forall d: Dir, i :: !Within(d.purpose.id, id) && Shut(a, d, i) ==> Shut(b, d, i) && b.data[i] == a.data[i]
  }

  /** Private names outside the tree of a temporary ID are unchanged. */
  ghost predicate KeepNames(a: Fs, b: Fs, id: Id) {
    && (forall t :: !Within(t, id) ==> Lookup(a.temps, t) == Lookup(b.temps, t))
    && (forall d: Dir :: !Within(d.purpose.id, id) ==> Lookup(a.caps, d) == Lookup(b.caps, d))
    && Grows(a, b)
  }

  ghost predicate KeepTree(a: Fs, b: Fs, id: Id) {
    KeepNames(a, b, id) && ShutOutside(a, b, id)
  }
}
