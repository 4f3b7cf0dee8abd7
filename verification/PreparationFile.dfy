/**
 src/project-preparation-file.mjs: moving a file into a private capture
 directory, giving it back, or giving it up once nobody can write it.
 */
module PreparationFile {
  import opened Wrappers
  import opened ExclusionText
  import opened FileWorld
  import opened HostCalls

  /** The state a capture closure keeps: what it holds, what it last read, whether it still holds it. */
  class Capture {
    const dir: Dir
    const inode: Inode
    const source: Text
    const maximumLinks: nat
    var current: Text
    var active: bool

    constructor (dir: Dir, inode: Inode, source: Text, maximumLinks: nat)
      ensures this.dir == dir && this.inode == inode && this.source == source
      ensures this.maximumLinks == maximumLinks
      ensures current == source && active
    {
      this.dir, this.inode, this.source, this.maximumLinks := dir, inode, source, maximumLinks;
      current, active := source, true;
    }

    /** While active, whatever is in the capture's slots is the captured file. */
    ghost predicate Owns(fs: Fs)
      reads this
    {
      active ==>
        && inode in fs.data
        && (CapturedIn(fs, dir).Some? ==> CapturedIn(fs, dir).value == inode)
        && (ReleaseIn(fs, dir).Some? ==> ReleaseIn(fs, dir).value == inode)
        && (dir in fs.caps ==> fs.caps[dir].Open?)
    }

    /** The text the capture last acknowledged was read of its file. */
    ghost predicate Acknowledged(trace: seq<Event>)
      reads this
    {
      active ==> Looked(dir, inode, current) in trace
    }

    /** The capture is active and its file sits in the `captured` slot only. */
    ghost predicate Holds(fs: Fs)
      reads this
    {
      active && inode in fs.data && Lookup(fs.caps, dir) == Some(Open(Some(inode), None))
    }
  }

  lemma StableSlots(a: Fs, b: Fs)
    requires Stable(a, b)
    ensures b.temps == a.temps && b.caps == a.caps && a.data.Keys <= b.data.Keys && Grows(a, b)
  {
  }

  lemma StableTrans(a: Fs, b: Fs, c: Fs)
    requires Stable(a, b) && Stable(b, c)
    ensures Stable(a, c)
  {
  }

  lemma ShieldsTrans(a: Fs, b: Fs, c: Fs)
    requires Shields(a, b) && Shields(b, c)
    ensures Shields(a, c)
  {
  }

  /** What a step on one capture leaves alone. */
  ghost predicate Framed(a: Fs, b: Fs, d: Dir) {
    Grows(a, b) && ShutBut(a, b, d) && Shields(a, b)
  }

  lemma FramedSelf(a: Fs, d: Dir)
    ensures Framed(a, a, d)
  {
  }

  lemma FramedTrans(a: Fs, b: Fs, c: Fs, d: Dir)
    requires Framed(a, b, d) && Grows(b, c) && ShutBut(b, c, d) && Shields(b, c)
    ensures Framed(a, c, d)
  {
  }

  lemma FramedLook(a: Fs, b: Fs, c: Fs, d: Dir)
    requires Framed(a, b, d) && Stable(b, c) && Shields(b, c)
    ensures Framed(a, c, d) && c.temps == b.temps && c.caps == b.caps
  {
  }

  lemma FramedGives(a: Fs, b: Fs, d: Dir)
    requires Framed(a, b, d)
    ensures Grows(a, b) && ShutBut(a, b, d) && Shields(a, b)
  {
  }

  /** A finishing step empties the `.released` directory or does nothing. */
  predicate FinishBegun(before: map<Dir, Cap>, after: map<Dir, Cap>, d: Dir) {
    || after == before
    || (d in before && before[d].Finished? && after == before[d := Finished(None)])
  }

  /** The directory waits to be cleaned up, and the file in it, if any, has no name too many. */
  predicate Removable(fs: Fs, d: Dir) {
    && d in fs.caps && fs.caps[d].Finished?
    && (fs.caps[d].release.Some? ==> Links(fs, fs.caps[d].release.value) <= 2)
  }

  function WithoutCap(fs: Fs, d: Dir): Fs {
    fs.(caps := fs.caps - {d})
  }

  /** `finishReleasedProjectPreparationCapture` on a directory already renamed to `.released`. */
  method FinishReleased(h: Host, d: Dir) returns (r: Run<bool>)
    requires h.Valid()
    modifies h
    ensures Framed(old(h.fs), h.fs, d)
    ensures h.Valid() && h.trace == old(h.trace)
    ensures h.fs.temps == old(h.fs.temps)
    ensures r.Done? ==> old(d in h.fs.caps && h.fs.caps[d].Finished?) && h.fs.caps == old(h.fs.caps) - {d}
    ensures h.calm && old(Removable(h.fs, d)) ==> r == Done(true) && h.fs == old(WithoutCap(h.fs, d))
    ensures !r.Done? ==> FinishBegun(old(h.fs).caps, h.fs.caps, d)
  {
    hide Rely, FileWorld.Valid, Secluded, Shut, Links, Framed, Stable, Grows, ShutBut, ShutKept, Shields, WellFormed;
    FramedSelf(h.fs, d);
    var looking := h.DirExists(d, true);
    FramedLook(old(h.fs), old(h.fs), h.fs, d);
    var present :- looking;
    if !present { return Threw(FailedCode); }
    ghost var fs1 := h.fs;
    looking := h.Exists(FinishedFile(d));
    FramedLook(old(h.fs), fs1, h.fs, d);
    var occupied :- looking;
    if occupied {
      ghost var fs2 := h.fs;
      var reading := h.ReadFile(FinishedFile(d), 2);
      FramedLook(old(h.fs), fs2, h.fs, d);
      var release :- reading;
      if release.Missing? { return Threw(CollisionCode); }
      ghost var fs3 := h.fs;
      var removing := h.RmFinished(d);
      FramedTrans(old(h.fs), fs3, h.fs, d);
      StableSlots(fs3, h.at);
      var removed :- removing;
      if removed != Ok { return Threw(FailedCode); }
    }
    ghost var fs4 := h.fs;
    var closing := h.Rmdir(d, true);
    FramedTrans(old(h.fs), fs4, h.fs, d);
    StableSlots(fs4, h.at);
    var closed :- closing;
    if closed != Ok { return Threw(FailedCode); }
    return Done(true);
  }

  /** `finishReleasedProjectPreparationCaptureIfPresent`. */
  method FinishReleasedIfPresent(h: Host, d: Dir) returns (r: Run<bool>)
    requires h.Valid()
    modifies h
    ensures ShutBut(old(h.fs), h.fs, d)
    ensures Shields(old(h.fs), h.fs)
    ensures h.Valid() && h.trace == old(h.trace)
    ensures h.fs.temps == old(h.fs.temps) && Grows(old(h.fs), h.fs)
    ensures r.Done? && r.value ==> old(d in h.fs.caps && h.fs.caps[d].Finished?) && h.fs.caps == old(h.fs.caps) - {d}
    ensures r.Done? && !r.value ==> h.fs.caps == old(h.fs.caps) && (d in h.fs.caps ==> h.fs.caps[d].Open?)
    ensures h.calm && old(Removable(h.fs, d)) ==> r == Done(true) && h.fs == old(WithoutCap(h.fs, d))
    ensures h.calm && old(d in h.fs.caps ==> h.fs.caps[d].Open?) ==> r == Done(false) && h.fs == old(h.fs)
    ensures !r.Done? ==> FinishBegun(old(h.fs).caps, h.fs.caps, d)
  {
    hide Rely, FileWorld.Valid, Secluded, Shut, Links;
    var captureExists :- h.DirExists(d, false);
    var releasedExists :- h.DirExists(d, true);
    if !releasedExists { return Done(false); }
    if captureExists { return Threw(CollisionCode); }
    var _ :- FinishReleased(h, d);
    return Done(true);
  }

  /** The file is the temporary file of `d` or in one of the slots of `d`. */
  ghost predicate Stored(fs: Fs, d: Dir, i: Inode) {
    || (d.place.AtTemp? && Lookup(fs.temps, d.place.id) == Some(i))
    || CapturedIn(fs, d) == Some(i) || ReleaseIn(fs, d) == Some(i)
  }

  /** A capture of a temporary file moves that file about and brings in no other. */
  ghost predicate Confined(a: Fs, b: Fs, d: Dir) {
    d.place.AtTemp? ==> forall i :: Stored(b, d, i) ==> Stored(a, d, i)
  }

  /** Everything private outside directory `d` and its base file. */
  ghost predicate Keeps(a: Fs, b: Fs, d: Dir) {
    && (forall e :: e != d ==> Lookup(b.caps, e) == Lookup(a.caps, e))
    && (forall t :: d.place != AtTemp(t) ==> Lookup(b.temps, t) == Lookup(a.temps, t))
    && Grows(a, b) && ShutBut(a, b, d)
    && Confined(a, b, d)
  }

  ghost predicate OnlyReturns(before: seq<Event>, after: seq<Event>) {
    && before <= after
    && forall k :: |before| <= k < |after| ==> after[k].Put? || after[k].Saw? || after[k].Clobbered?
  }

  /** No file of another process lost the public name. */
  ghost predicate NoClobber(before: seq<Event>, after: seq<Event>) {
    forall k :: |before| <= k < |after| ==> !after[k].Clobbered?
  }

  /** Putting a captured file back: it got, or was seen to have, its public name. */
  ghost predicate PutBack(before: seq<Event>, after: seq<Event>, d: Dir, i: Inode) {
    d.place.AtPublic? ==> ReturnedSince(before, after, i)
  }

  lemma PutBackLater(before: seq<Event>, middle: seq<Event>, after: seq<Event>, d: Dir, i: Inode)
    requires before <= middle <= after
    ensures PutBack(before, middle, d, i) || PutBack(middle, after, d, i) ==> PutBack(before, after, d, i)
  {
    if d.place.AtPublic? && ReturnedSince(before, middle, i) {
      var k :| |before| <= k < |middle| && Returns(middle[k], i);
      assert Returns(after[k], i);
    }
  }

  lemma ReturnNotHeld(before: seq<Event>, after: seq<Event>, e: Event)
    requires after == before + [e] && (e.Put? || e.Saw?)
    ensures (forall d :: (d, e.inode) !in Held(after)) && ReturnedSince(before, after, e.inode)
  {
    HeldStep(before, e);
    assert Returns(after[|before|], e.inode);
  }

  /** The base name already leads to the captured file: only the private name goes. */
  method DropDuplicate(h: Host, d: Dir, ghost i: Inode) returns (r: Run<bool>)
    requires h.Valid()
    requires CapturedIn(h.fs, d).Some? ==> CapturedIn(h.fs, d).value == i
    modifies h
    ensures ShutBut(old(h.fs), h.fs, d)
    ensures h.Valid() && h.fs.temps == old(h.fs.temps) && Grows(old(h.fs), h.fs)
    ensures OnlyReturns(old(h.trace), h.trace) && NoClobber(old(h.trace), h.trace)
    ensures r.Done? ==> old(CapturedIn(h.fs, d).Some?) && PutBack(old(h.trace), h.trace, d, i)
    ensures r.Done? ==> h.fs.caps == old(SetCaptured(h.fs, d, None)).caps
    ensures !r.Done? ==> h.fs.caps == old(h.fs.caps)
    ensures h.calm && old(CapturedIn(h.fs, d).Some? && At(h.fs, BasePath(d)).Some? && At(h.fs, BasePath(d)) != CapturedIn(h.fs, d)) ==>
      r == Threw(CollisionCode) && h.fs == old(h.fs)
  {
    hide Rely, FileWorld.Valid, Secluded, Shut, Links, Framed, Stable, Grows, ShutBut, ShutKept, Shields, WellFormed;
    FramedSelf(h.fs, d);
    var reading := h.ReadFile(CapturedFile(d), 2);
    FramedLook(old(h.fs), old(h.fs), h.fs, d);
    FramedGives(old(h.fs), h.fs, d);
    var captured :- reading;
    ghost var fs1 := h.fs;
    reading := h.ReadFile(BasePath(d), 2);
    FramedLook(old(h.fs), fs1, h.fs, d);
    FramedGives(old(h.fs), h.fs, d);
    var destination :- reading;
    if captured.Missing? || destination.Missing? || captured.inode != destination.inode {
      return Threw(CollisionCode);
    }
    if d.place.AtPublic? {
      ReturnNotHeld(old(h.trace), h.trace, Saw(i, destination.text));
    }
    ghost var fs2 := h.fs;
    var removing := h.RmCaptured(d);
    StableSlots(fs2, h.at);
    FramedTrans(old(h.fs), fs2, h.fs, d);
    FramedGives(old(h.fs), h.fs, d);
    var removed :- removing;
    if removed != Ok { return Threw(FailedCode); }
    return Done(true);
  }

  /** The fallback when the file system refuses the link for another reason. */
  method MoveBack(h: Host, d: Dir, ghost i: Inode) returns (r: Run<bool>)
    requires h.Valid()
    requires CapturedIn(h.fs, d).Some? ==> CapturedIn(h.fs, d).value == i && h.faults
    modifies h
    ensures h.Valid() && Keeps(old(h.fs), h.fs, d)
    ensures OnlyReturns(old(h.trace), h.trace)
    ensures r.Done? ==> old(CapturedIn(h.fs, d).Some?) && PutBack(old(h.trace), h.trace, d, i)
    ensures r.Done? ==> h.fs.caps == old(SetCaptured(h.fs, d, None)).caps
    ensures !r.Done? ==> h.fs.caps == old(h.fs.caps) && h.trace == old(h.trace)
  {
    hide Rely, FileWorld.Valid, Secluded, Shut;
    var taken :- h.Exists(BasePath(d));
    if taken { return Threw(CollisionCode); }
    var moved :- h.Give(d);
    if moved != Ok { return Threw(CollisionCode); }
    if d.place.AtPublic? {
      assert Returns(h.trace[|h.trace| - 1], i);
    }
    return Done(true);
  }

  /** The link or the removal after it failed: the two ways to finish all the same. */
  method RestoreOtherwise(h: Host, d: Dir, taken: bool, ghost i: Inode) returns (r: Run<bool>)
    requires h.Valid()
    requires CapturedIn(h.fs, d).Some? ==> CapturedIn(h.fs, d).value == i && (taken || h.faults)
    modifies h
    ensures h.Valid() && Keeps(old(h.fs), h.fs, d)
    ensures OnlyReturns(old(h.trace), h.trace) && (taken ==> NoClobber(old(h.trace), h.trace))
    ensures r.Done? ==> old(CapturedIn(h.fs, d).Some?) && PutBack(old(h.trace), h.trace, d, i)
    ensures h.calm && taken && old(CapturedIn(h.fs, d).Some? && At(h.fs, BasePath(d)).Some? && At(h.fs, BasePath(d)) != CapturedIn(h.fs, d)) ==>
      r == Threw(CollisionCode) && h.fs == old(h.fs)
    ensures h.fs.caps == if r.Done? then old(SetCaptured(h.fs, d, None)).caps else old(h.fs.caps)
  {
    hide Rely, FileWorld.Valid, Secluded, Shut, OnlyReturns, NoClobber, PutBack;
    if taken {
      r := DropDuplicate(h, d, i);
    } else {
      r := MoveBack(h, d, i);
    }
  }

  /** Links the captured file to its base name: what `link` answered. */
  method LinkFirst(h: Host, d: Dir, ghost i: Inode) returns (r: Run<Errno>)
    requires h.Valid()
    requires CapturedIn(h.fs, d).Some? ==> CapturedIn(h.fs, d).value == i
    modifies h
    ensures h.Valid() && h.fs.caps == old(h.fs.caps) && Keeps(old(h.fs), h.fs, d) && !r.Threw?
    ensures OnlyReturns(old(h.trace), h.trace) && NoClobber(old(h.trace), h.trace)
    ensures r == Done(Ok) ==> CapturedIn(h.fs, d) == Some(i) && PutBack(old(h.trace), h.trace, d, i)
    ensures r == Done(Ok) && d.place.AtPublic? ==> (d, i) !in Held(h.trace)
    ensures r == Done(Enoent) ==> CapturedIn(h.fs, d).None?
    ensures r == Done(Eio) ==> h.faults
    ensures h.calm && old(CapturedIn(h.fs, d).Some? && At(h.fs, BasePath(d)).None?) ==>
      r == Done(Ok) && h.fs == old(SetBase(h.fs, d, CapturedIn(h.fs, d).value))
    ensures h.calm && old(CapturedIn(h.fs, d).Some? && At(h.fs, BasePath(d)).Some?) ==> r == Done(Eexist) && h.fs == old(h.fs)
  {
    hide Rely, FileWorld.Valid, Secluded, Shut, Held;
    r := h.LinkBase(d);
    if r == Done(Ok) && d.place.AtPublic? {
      ReturnNotHeld(old(h.trace), h.trace, h.trace[|old(h.trace)|]);
    }
  }

  /**
   Links the captured file to its base name and drops its private one. `taken`
   tells whether the base name led somewhere already; any other answer than `Ok`
   is the failure of one of the two calls.
   */
  method LinkBack(h: Host, d: Dir, ghost i: Inode) returns (r: Run<Errno>, taken: bool)
    requires h.Valid()
    requires CapturedIn(h.fs, d).Some? ==> CapturedIn(h.fs, d).value == i
    modifies h
    ensures h.Valid() && Keeps(old(h.fs), h.fs, d) && !r.Threw?
    ensures OnlyReturns(old(h.trace), h.trace) && NoClobber(old(h.trace), h.trace)
    ensures r == Done(Ok) ==> old(CapturedIn(h.fs, d).Some?) && PutBack(old(h.trace), h.trace, d, i)
    ensures h.fs.caps == if r == Done(Ok) then old(SetCaptured(h.fs, d, None)).caps else old(h.fs.caps)
    ensures r.Done? && r.value != Ok ==> taken || h.faults || CapturedIn(h.fs, d).None?
    ensures r == Done(Eexist) ==> taken
    ensures h.calm && old(CapturedIn(h.fs, d).Some? && At(h.fs, BasePath(d)).None?) ==>
      r == Done(Ok) && h.fs == old(SetCaptured(SetBase(h.fs, d, CapturedIn(h.fs, d).value), d, None))
    ensures h.calm && old(CapturedIn(h.fs, d).Some? && At(h.fs, BasePath(d)).Some?) ==> r == Done(Eexist) && h.fs == old(h.fs)
  {
    hide Rely, FileWorld.Valid, Secluded, Shut, Held, OnlyReturns, NoClobber, PutBack;
    r := LinkFirst(h, d, i);
    taken := r == Done(Eexist);
    if r == Done(Ok) {
      r := h.RmCaptured(d);
    }
  }

  /**
   The `restoreCapturedPath` closure. `refused` is the answer when the link, or
   the removal after it, failed other than because the name is taken: only then
   can the fallback rename take the name from another process.
   */
  method RestoreCaptured(h: Host, d: Dir, ghost i: Inode) returns (r: Run<bool>, ghost refused: Option<Errno>)
    requires h.Valid()
    requires CapturedIn(h.fs, d).Some? ==> CapturedIn(h.fs, d).value == i
    modifies h
    ensures h.Valid() && Keeps(old(h.fs), h.fs, d)
    ensures OnlyReturns(old(h.trace), h.trace)
    ensures r.Done? ==> old(CapturedIn(h.fs, d).Some?) && PutBack(old(h.trace), h.trace, d, i)
    ensures r.Done? ==> h.fs.caps == old(h.fs.caps) - {d}
    ensures !r.Done? ==> h.fs.caps in {old(h.fs.caps), old(SetCaptured(h.fs, d, None)).caps}
    ensures h.calm && old(Lookup(h.fs.caps, d) == Some(Open(Some(i), None)) && At(h.fs, BasePath(d)).None?) ==>
      r == Done(true) && h.fs == SetBase(WithoutCap(old(h.fs), d), d, i)
    ensures h.calm && old(CapturedIn(h.fs, d) == Some(i) && At(h.fs, BasePath(d)).Some? && At(h.fs, BasePath(d)) != Some(i)) ==>
      r == Threw(CollisionCode) && h.fs == old(h.fs)
    ensures refused.None? ==> NoClobber(old(h.trace), h.trace)
    ensures refused.Some? ==> refused.value in {Enoent, Eio} && (h.faults || old(CapturedIn(h.fs, d)).None?)
  {
    hide Rely, FileWorld.Valid, Secluded, Shut, PutBack, Held, Keeps, Grows, ShutBut, ShutKept;
    refused := None;
    var linking, taken := LinkBack(h, d, i);
    ghost var fs1, middle := h.fs, h.trace;
    var linked :- linking;
    if linked != Ok {
      if !taken { refused := Some(linked); }
      var restoring := RestoreOtherwise(h, d, taken, i);
      PutBackLater(old(h.trace), middle, h.trace, d, i);
      KeepsTrans(old(h.fs), fs1, h.fs, d);
      var _ :- restoring;
    }
    ghost var fs2 := h.fs;
    var closing := h.Rmdir(d, false);
    KeepsRemoved(old(h.fs), fs2, h.at, h.fs, d);
    var closed :- closing;
    if closed != Ok { r := Threw(FailedCode); return; }
    r := Done(true);
  }

  lemma KeepsTrans(a: Fs, b: Fs, c: Fs, d: Dir)
    requires Keeps(a, b, d) && Keeps(b, c, d)
    ensures Keeps(a, c, d)
  {
  }

  /** Other processes ran, and then at most the directory itself went. */
  lemma KeepsRemoved(a: Fs, b: Fs, at: Fs, c: Fs, d: Dir)
    requires Keeps(a, b, d) && Stable(b, at) && (c == at || c == at.(caps := at.caps - {d}))
    requires Grows(b, c) && ShutBut(b, c, d)
    ensures Keeps(a, c, d)
  {
  }

  lemma KeepsGrows(a: Fs, b: Fs, d: Dir)
    requires Keeps(a, b, d)
    ensures Grows(a, b)
  {
  }

  lemma KeepsStable(a: Fs, b: Fs, c: Fs, d: Dir)
    requires Keeps(a, b, d) && Stable(b, c)
    ensures Keeps(a, c, d)
  {
  }

  lemma KeepsLooked(a: Fs, b: Fs, at: Fs, c: Fs, d: Dir)
    requires Keeps(a, b, d) && Stable(b, at) && Stable(at, c)
    ensures Keeps(a, c, d)
  {
  }

  /** Both slots hold the same file, or a file moved from one slot to the other. */
  ghost predicate SlotsOf(caps: map<Dir, Cap>, d: Dir, i: Inode) {
    d in caps && caps[d] in {Open(Some(i), None), Open(None, Some(i)), Open(Some(i), Some(i))}
  }

  /** At most the captured file moved between its own slots. */
  ghost predicate SlotsMoved(before: map<Dir, Cap>, after: map<Dir, Cap>, d: Dir, i: Inode) {
    after == before || (SlotsOf(before, d, i) && SlotsOf(after, d, i) && after == before[d := after[d]])
  }

  lemma SlotsMovedTrans(a: map<Dir, Cap>, b: map<Dir, Cap>, c: map<Dir, Cap>, d: Dir, i: Inode)
    requires SlotsMoved(a, b, d, i) && SlotsMoved(b, c, d, i)
    ensures SlotsMoved(a, c, d, i)
  {
    if a != b && b != c {
      assert a[d := b[d]][d := c[d]] == a[d := c[d]];
    }
  }

  /** The file a capture directory still holds after an interruption. */
  function SlotFile(fs: Fs, d: Dir): Option<Inode> {
    if ReleaseIn(fs, d).Some? then ReleaseIn(fs, d) else CapturedIn(fs, d)
  }

  /** A capture whose slots hold one file, with no name too many. */
  predicate Resumable(fs: Fs, d: Dir) {
    && d in fs.caps && SlotFile(fs, d).Some? && Links(fs, SlotFile(fs, d).value) <= 2
    && fs.caps[d] in {Open(SlotFile(fs, d), None), Open(None, SlotFile(fs, d)), Open(SlotFile(fs, d), SlotFile(fs, d))}
  }

  /** `restoreReleasePath`, and the same steps when a capture directory is resumed. */
  method RestoreRelease(h: Host, d: Dir) returns (r: Run<bool>)
    requires h.Valid()
    modifies h
    ensures ShutBut(old(h.fs), h.fs, d)
    ensures Shields(old(h.fs), h.fs)
    ensures h.Valid() && h.trace == old(h.trace)
    ensures h.fs.temps == old(h.fs.temps) && Grows(old(h.fs), h.fs)
    ensures r.Done? ==> ReleaseIn(h.fs, d).None?
    ensures h.calm && old(d !in h.fs.caps || ReleaseIn(h.fs, d).None?) ==> r == Done(true) && h.fs == old(h.fs)
    ensures h.calm && old(Resumable(h.fs, d)) ==>
      r == Done(true) && h.fs == old(WithCap(h.fs, d, Open(SlotFile(h.fs, d), None)))
    ensures SlotsMoved(old(h.fs.caps), h.fs.caps, d, old(SlotFile(h.fs, d)).GetOr(0))
  {
    hide Rely, FileWorld.Valid, Secluded, Shut, Links, Framed, Stable, Grows, ShutBut, ShutKept, Shields, WellFormed;
    FramedSelf(h.fs, d);
    FramedGives(h.fs, h.fs, d);
    var looking := h.Exists(CapturedFile(d));
    FramedLook(old(h.fs), old(h.fs), h.fs, d);
    var capturedExists :- looking;
    ghost var fs1 := h.fs;
    looking := h.Exists(ReleaseFile(d));
    FramedLook(old(h.fs), fs1, h.fs, d);
    FramedGives(old(h.fs), h.fs, d);
    var releaseExists :- looking;
    if !releaseExists { return Done(true); }
    ghost var fs2 := h.fs;
    if capturedExists {
      r := DropRelease(h, d);
    } else {
      var moving := h.RenameRelease(d);
      StableSlots(fs2, h.at);
      r := if moving == Done(Ok) then Done(true) else if moving.Crash? then Crash else Threw(FailedCode);
    }
    FramedTrans(old(h.fs), fs2, h.fs, d);
    FramedGives(old(h.fs), h.fs, d);
  }

  /** Both slots are taken: if by the same file, the `release` name goes. */
  method DropRelease(h: Host, d: Dir) returns (r: Run<bool>)
    requires h.Valid()
    modifies h
    ensures ShutBut(old(h.fs), h.fs, d) && Shields(old(h.fs), h.fs)
    ensures h.Valid() && h.trace == old(h.trace)
    ensures h.fs.temps == old(h.fs.temps) && Grows(old(h.fs), h.fs)
    ensures r.Done? ==> old(CapturedIn(h.fs, d).Some? && CapturedIn(h.fs, d) == ReleaseIn(h.fs, d))
    ensures h.fs.caps == if r.Done? then old(SetRelease(h.fs, d, None)).caps else old(h.fs.caps)
    ensures h.calm && old(Resumable(h.fs, d) && CapturedIn(h.fs, d).Some? && ReleaseIn(h.fs, d).Some?) ==>
      r == Done(true) && h.fs == old(SetRelease(h.fs, d, None))
  {
    hide Rely, FileWorld.Valid, Secluded, Shut, Links, Framed, Stable, Grows, ShutBut, ShutKept, Shields, WellFormed;
    FramedSelf(h.fs, d);
    var reading := h.ReadFile(CapturedFile(d), 2);
    FramedLook(old(h.fs), old(h.fs), h.fs, d);
    FramedGives(old(h.fs), h.fs, d);
    var captured :- reading;
    ghost var fs1 := h.fs;
    reading := h.ReadFile(ReleaseFile(d), 2);
    FramedLook(old(h.fs), fs1, h.fs, d);
    FramedGives(old(h.fs), h.fs, d);
    var release :- reading;
    if captured.Missing? || release.Missing? || captured.inode != release.inode {
      return Threw(CollisionCode);
    }
    ghost var fs2 := h.fs;
    var removing := h.RmRelease(d);
    StableSlots(fs2, h.at);
    FramedTrans(old(h.fs), fs2, h.fs, d);
    FramedGives(old(h.fs), h.fs, d);
    var removed :- removing;
    if removed != Ok { return Threw(FailedCode); }
    return Done(true);
  }

  /** The file of one capture was read and probed, and nothing else was done. */
  ghost predicate OnlyLooks(before: seq<Event>, after: seq<Event>, d: Dir) {
    && before <= after
    && forall k :: |before| <= k < |after| ==> after[k].Probed? || (after[k].Looked? && after[k].dir == d)
  }

  /** What a reading of a captured file adds to the history. */
  function LookEvents(d: Dir, reading: Run<Reading>): seq<Event> {
    if reading.Done? && reading.value.Found? then [Looked(d, reading.value.inode, reading.value.text)] else []
  }

  /** `refresh`. */
  method Refresh(h: Host, c: Capture) returns (r: Run<Reading>)
    requires h.Valid() && c.Owns(h.fs)
    modifies h
    ensures h.Valid() && Rely(old(h.fs), h.fs) && Stable(old(h.fs), h.fs)
    ensures h.trace == old(h.trace) + LookEvents(c.dir, r)
    ensures r.Done? && r.value.Found? ==>
      && CapturedIn(h.fs, c.dir) == Some(r.value.inode)
      && r.value.inode in h.at.data && h.at.data[r.value.inode] == r.value.text
    ensures r.Done? && r.value.Found? && c.active && old(Sealed(h.fs, c.inode)) ==>
      r.value.text == old(h.fs).data[c.inode]
    ensures r == Done(Missing) ==> CapturedIn(h.fs, c.dir).None?
    ensures h.calm ==> h.fs == old(h.fs) && r == Reads(h.fs, CapturedFile(c.dir), c.maximumLinks)
  {
    r := h.Look(CapturedFile(c.dir), c.maximumLinks);
    RelyTrans(old(h.fs), h.at, h.fs);
  }

  /** `restore`: whatever the capture's slot holds gets its base name back. */
  method Restore(h: Host, c: Capture) returns (r: Run<bool>)
    requires h.Valid()
    modifies h, c`active
    ensures h.Valid() && (old(c.Owns(h.fs)) ==> c.Owns(h.fs))
    ensures Keeps(old(h.fs), h.fs, c.dir)
    ensures OnlyReturns(old(h.trace), h.trace)
    ensures r.Done? ==> !c.active
    ensures !old(c.active) ==> r == Done(true) && h.fs == old(h.fs) && h.trace == old(h.trace)
    ensures old(c.active) && r.Done? ==>
      && old(CapturedIn(h.fs, c.dir)).Some?
      && PutBack(old(h.trace), h.trace, c.dir, old(CapturedIn(h.fs, c.dir)).value)
      && h.fs.caps == old(h.fs.caps) - {c.dir}
    ensures h.calm && old(c.Holds(h.fs) && At(h.fs, BasePath(c.dir)).None?) ==>
      r == Done(true) && h.fs == SetBase(WithoutCap(old(h.fs), c.dir), c.dir, c.inode)
    ensures h.calm && old(c.Holds(h.fs) && At(h.fs, BasePath(c.dir)).Some? && At(h.fs, BasePath(c.dir)) != Some(c.inode)) ==>
      r == Threw(CollisionCode) && h.fs == old(h.fs)
    ensures !r.Done? ==> c.active && h.fs.caps in {old(h.fs.caps), old(SetCaptured(h.fs, c.dir, None)).caps}
  {
    if !c.active { return Done(true); }
    ghost var refused;
    var restored;
    restored, refused := RestoreCaptured(h, c.dir, CapturedIn(h.fs, c.dir).GetOr(0));
    var _ :- restored;
    c.active := false;
    return Done(true);
  }

  /** The probe of a captured file and the reading after it. */
  function CheckEvents(d: Dir, i: Inode, public: bool, text: Text): seq<Event> {
    [Probed(i, public), Looked(d, i, text)]
  }

  /**
   The history of giving up captured file `i` whose capture had read and last
   acknowledged this text: probed, read once more with the same text, and dropped. It can
   have been public at the probe only if it had been at `start`.
   */
  ghost predicate GivesUp(before: seq<Event>, after: seq<Event>, d: Dir, i: Inode, acknowledged: Text, start: Fs) {
    exists public, text, sealed ::
      && Looked(d, i, acknowledged) in before
      && after == before + CheckEvents(d, i, public, acknowledged) + [Dropped(d, i, text, sealed)]
      && (if public then Visible(start, i) else sealed && text == acknowledged)
  }

  lemma StaysSealed(a: Fs, b: Fs, i: Inode)
    requires Sealed(a, i) && Rely(a, b)
    ensures Sealed(b, i) && b.data[i] == a.data[i]
  {
  }

  /** What was read of a file nobody can write stays its text. */
  lemma SealedRead(probed: Fs, read: Fs, now: Fs, i: Inode)
    requires Sealed(probed, i) && Rely(probed, read) && Rely(read, now)
    ensures Sealed(now, i) && i in read.data && now.data[i] == read.data[i]
  {
    assert Sealed(read, i);
  }

  lemma RelyHides(a: Fs, b: Fs)
    requires Rely(a, b)
    ensures Hides(a, b)
  {
  }

  /** The captured file sits in the `release` slot only, where its descriptors are probed. */
  ghost predicate Offered(fs: Fs, d: Dir, i: Inode) {
    i in fs.data && Lookup(fs.caps, d) == Some(Open(None, Some(i)))
  }

  /** `link(captured, release)` and `rm(captured)`. */
  method Offer(h: Host, c: Capture) returns (r: Run<bool>)
    requires h.Valid() && c.active && c.Owns(h.fs)
    modifies h
    ensures h.Valid() && h.trace == old(h.trace) && h.fs.temps == old(h.fs.temps)
    ensures Grows(old(h.fs), h.fs) && Keeps(old(h.fs), h.fs, c.dir)
    ensures r.Done? ==> (
      && Offered(h.fs, c.dir, c.inode) && old(c.Holds(h.fs))
      && h.fs.caps == old(h.fs.caps)[c.dir := Open(None, Some(c.inode))]
      && (Visible(h.fs, c.inode) ==> Visible(old(h.fs), c.inode)))
    ensures Shields(old(h.fs), h.fs)
    ensures h.calm && old(c.Holds(h.fs)) ==> r == Done(true) && h.fs == old(WithCap(h.fs, c.dir, Open(None, Some(c.inode))))
    ensures !r.Done? ==> (
      || h.fs.caps == old(h.fs.caps)
      || (old(c.Holds(h.fs)) && h.fs.caps == old(h.fs.caps)[c.dir := Open(Some(c.inode), Some(c.inode))]))
  {
    hide Rely, FileWorld.Valid, Secluded, Shut, Sealed;
    var linked :- h.LinkRelease(c.dir);
    if linked != Ok { return Threw(if linked == Eexist then CollisionCode else FailedCode); }
    RelyHides(old(h.fs), h.at);
    ghost var s := h.fs;
    var removed :- h.RmCaptured(c.dir);
    if removed != Ok { return Threw(FailedCode); }
    RelyHides(s, h.at);
    return Done(true);
  }

  lemma ReadBefore(before: seq<Event>, after: seq<Event>, d: Dir, i: Inode, public: bool, text: Text)
    requires after == before + CheckEvents(d, i, public, text)
    ensures |after| >= 2 && after[..|after| - 2] == before
    ensures after[|after| - 2] == Probed(i, public) && after[|after| - 1] == Looked(d, i, text)
  {
  }

  /** Waits for the last foreign descriptor, then reads the file once more. */
  method Inspect(h: Host, c: Capture) returns (r: Run<Text>, ghost public: bool)
    requires h.Valid() && Offered(h.fs, c.dir, c.inode)
    modifies h
    ensures h.Valid() && Stable(old(h.fs), h.fs) && Shields(old(h.fs), h.fs) && OnlyLooks(old(h.trace), h.trace, c.dir)
    ensures r.Done? ==> h.trace == old(h.trace) + CheckEvents(c.dir, c.inode, public, r.value)
    ensures r.Done? && Looked(c.dir, c.inode, r.value) in old(h.trace) ==> Host.Checked(h.fs, h.trace, c.dir, c.inode)
    ensures public ==> Visible(old(h.fs), c.inode)
    ensures h.calm && old(c.inode !in h.fs.open && Links(h.fs, c.inode) <= c.maximumLinks) ==>
      r == Done(h.fs.data[c.inode]) && h.fs == old(h.fs)
    ensures r.Done? && !public ==> Sealed(h.fs, c.inode) && h.fs.data[c.inode] == r.value
    ensures r.Done? && old(Sealed(h.fs, c.inode)) ==> r.value == old(h.fs).data[c.inode]
  {
    hide Rely, FileWorld.Valid, Secluded, Shut, Links, Stable, Grows, ShutKept, Shields, WellFormed;
    public := false;
    var _ :- h.AwaitRelease(c.inode);
    ghost var probed := h.fs;
    RelyHides(old(h.fs), probed);
    public := Visible(probed, c.inode);
    StableSlots(old(h.fs), probed);
    var looking := h.Look(ReleaseFile(c.dir), c.maximumLinks);
    StableSlots(probed, h.fs);
    StableTrans(old(h.fs), probed, h.fs);
    ShieldsTrans(old(h.fs), probed, h.fs);
    var released :- looking;
    if released.Missing? { r := Threw(FailedCode); return; }
    if !public { SealedRead(probed, h.at, h.fs, c.inode); }
    if old(Sealed(h.fs, c.inode)) { StaysSealed(old(h.fs), probed, c.inode); }
    r := Done(released.text);
    ReadBefore(old(h.trace), h.trace, c.dir, c.inode, public, released.text);
  }

  /** The file changed under an older descriptor: back to the `captured` slot. */
  method Withdraw(h: Host, c: Capture, text: Text) returns (r: Run<bool>)
    requires h.Valid() && c.active && Offered(h.fs, c.dir, c.inode)
    modifies h, c`current
    ensures h.Valid() && h.trace == old(h.trace) && h.fs.temps == old(h.fs.temps)
    ensures Grows(old(h.fs), h.fs)
    ensures r.Done? ==> r == Done(false) && c.current == text
    ensures r.Done? ==> h.fs.caps == old(h.fs.caps)[c.dir := Open(Some(c.inode), None)]
    ensures !r.Done? ==> c.current == old(c.current)
    ensures !r.Done? ==>
      h.fs.caps in {old(h.fs.caps), old(h.fs.caps)[c.dir := Open(Some(c.inode), Some(c.inode))]}
    ensures h.calm ==> r == Done(false) && h.fs == old(WithCap(h.fs, c.dir, Open(Some(c.inode), None)))
    ensures Shields(old(h.fs), h.fs) && Keeps(old(h.fs), h.fs, c.dir)
  {
    hide Rely, FileWorld.Valid, Secluded, Shut, Sealed;
    var linked :- h.LinkCaptured(c.dir);
    if linked != Ok { return Threw(if linked == Eexist then CollisionCode else FailedCode); }
    var removed :- h.RmRelease(c.dir);
    if removed != Ok { return Threw(FailedCode); }
    c.current := text;
    return Done(false);
  }

  /** Commits the removal; what follows only cleans up and can be redone after a restart. */
  method Commit(h: Host, c: Capture, ghost before: seq<Event>, ghost public: bool, ghost start: Fs) returns (r: Run<bool>)
    requires h.Valid() && c.active && Offered(h.fs, c.dir, c.inode)
    requires h.trace == before + CheckEvents(c.dir, c.inode, public, c.current) && Looked(c.dir, c.inode, c.current) in before
    requires Host.Checked(h.fs, h.trace, c.dir, c.inode)
    requires if public then Visible(start, c.inode)
             else Sealed(h.fs, c.inode) && h.fs.data[c.inode] == c.current
    modifies h, c`active
    ensures h.Valid() && h.fs.temps == old(h.fs.temps) && Keeps(old(h.fs), h.fs, c.dir)
    ensures r.Done? ==> r == Done(true) && !c.active && h.fs.caps == old(h.fs.caps) - {c.dir}
    ensures c.active ==> h.trace == old(h.trace) && h.fs.caps == old(h.fs.caps)
    ensures !c.active ==> c.dir !in SlotDirs(h.fs)
    ensures h.calm && old(Links(h.fs, c.inode) <= 2) ==> r == Done(true) && h.fs == old(WithoutCap(h.fs, c.dir))
    ensures !c.active ==> GivesUp(before, h.trace, c.dir, c.inode, c.current, start)
  {
    hide Rely, FileWorld.Valid, Secluded, Shut;
    var committed :- h.CommitDir(c.dir);
    if committed != Ok { return Threw(FailedCode); }
    c.active := false;
    if !public { StaysSealed(old(h.fs), h.at, c.inode); }
    ghost var e := h.trace[|h.trace| - 1];
    if h.calm { SameLinks(old(h.fs), h.fs, c.dir, c.inode); }
    assert h.trace == before + CheckEvents(c.dir, c.inode, public, c.current) + [Dropped(c.dir, c.inode, e.text, e.sealed)];
    var _ :- FinishReleased(h, c.dir);
    return Done(true);
  }

  /** Moving a file from slot to slot of its capture, or to the released form, changes the number of its names only there. */
  lemma SameLinks(a: Fs, b: Fs, d: Dir, i: Inode)
    requires b.names == a.names && b.temps == a.temps && forall e :: e != d ==> Lookup(b.caps, e) == Lookup(a.caps, e)
    requires Inside(b, d, i) == Inside(a, d, i)
    ensures Links(b, i) == Links(a, i)
  {
    LinksAre(a, d, i);
    LinksAre(b, d, i);
    OutsideStays(a, b, d, i);
  }

  /** Capture directories that are still open. */
  function SlotDirs(fs: Fs): set<Dir> {
    set d | d in fs.caps && fs.caps[d].Open?
  }

  /** Nobody has the captured file open, and it has no name too many. */
  ghost predicate Releasable(fs: Fs, c: Capture) {
    c.inode !in fs.open && Links(fs, c.inode) <= c.maximumLinks && Links(fs, c.inode) <= 2
  }

  /** `remove` without its error handler; `public`: the file had a public name when its descriptors were probed. */
  method RemoveSteps(h: Host, c: Capture) returns (r: Run<bool>, ghost public: bool)
    requires h.Valid() && c.active && c.Owns(h.fs) && c.Acknowledged(h.trace)
    modifies h, c
    ensures h.Valid() && Keeps(old(h.fs), h.fs, c.dir) && h.fs.temps == old(h.fs.temps)
    ensures r == Done(true) ==> !c.active && h.fs.caps == old(h.fs.caps) - {c.dir}
    ensures r == Done(false) ==>
      c.Holds(h.fs) && old(c.Holds(h.fs)) && h.fs.caps == old(h.fs.caps) && c.current != old(c.current)
    ensures r == Done(false) ==> h.trace == old(h.trace) + CheckEvents(c.dir, c.inode, public, c.current)
    ensures r == Done(false) && !public ==> Sealed(h.fs, c.inode) && h.fs.data[c.inode] == c.current
    ensures r == Done(false) ==> !old(Unaltered(h.fs, c))
    ensures public ==> Visible(old(h.fs), c.inode)
    ensures !r.Done? ==> c.current == old(c.current)
    ensures h.calm && old(c.Holds(h.fs) && Releasable(h.fs, c)) ==>
      if old(h.fs).data[c.inode] == old(c.current) then r == Done(true) && h.fs == old(WithoutCap(h.fs, c.dir))
      else r == Done(false) && h.fs == old(h.fs) && c.current == h.fs.data[c.inode]
    ensures c.active ==> OnlyLooks(old(h.trace), h.trace, c.dir) && SlotsMoved(old(h.fs.caps), h.fs.caps, c.dir, c.inode)
    ensures !c.active ==> c.dir !in SlotDirs(h.fs)
    ensures !c.active ==> GivesUp(old(h.trace), h.trace, c.dir, c.inode, old(c.current), old(h.fs))
  {
    hide Rely, FileWorld.Valid, Secluded, Shut, Sealed, GivesUp, Host.Checked, Keeps, ShutKept;
    public := false;
    ghost var trace1 := h.trace;
    var _ :- Offer(h, c);
    ghost var fs1 := h.fs;
    if h.calm && old(c.Holds(h.fs)) { SameLinks(old(h.fs), fs1, c.dir, c.inode); }
    var inspecting;
    inspecting, public := Inspect(h, c);
    KeepsStable(old(h.fs), fs1, h.fs, c.dir);
    var text :- inspecting;
    ghost var fs2 := h.fs;
    if text != c.current {
      r := Withdraw(h, c, text);
    } else {
      r := Commit(h, c, trace1, public, old(h.fs));
    }
    KeepsTrans(old(h.fs), fs2, h.fs, c.dir);
    KeepsGrows(fs2, h.fs, c.dir);
  }

  /** Nobody can write the captured file, and it has the text the capture last read. */
  ghost predicate Unaltered(fs: Fs, c: Capture)
    reads c
  {
    Sealed(fs, c.inode) && fs.data[c.inode] == c.current
  }

  /**
   `remove`: the file is given up only if, once no other process has it open, its
   text is still the text the capture last read; otherwise the capture keeps it
   and remembers the new text, which is the file's text from then on unless the
   file was public at the probe. An error leaves the file in a slot.
   */
  method Remove(h: Host, c: Capture) returns (r: Run<bool>, ghost public: bool)
    requires h.Valid() && c.Owns(h.fs) && c.Acknowledged(h.trace)
    modifies h, c
    ensures h.Valid() && c.Owns(h.fs) && Keeps(old(h.fs), h.fs, c.dir) && h.fs.temps == old(h.fs.temps)
    ensures !old(c.active) ==> r == Done(true) && h.fs == old(h.fs) && h.trace == old(h.trace) && !c.active
    ensures r == Done(true) && old(c.active) ==> !c.active && h.fs.caps == old(h.fs.caps) - {c.dir}
    ensures r == Done(false) ==>
      c.Holds(h.fs) && old(c.Holds(h.fs)) && h.fs.caps == old(h.fs.caps) && c.current != old(c.current)
    ensures r == Done(false) ==> h.trace == old(h.trace) + CheckEvents(c.dir, c.inode, public, c.current)
    ensures r == Done(false) && !public ==> Sealed(h.fs, c.inode) && h.fs.data[c.inode] == c.current
    ensures r == Done(false) ==> !old(Unaltered(h.fs, c))
    ensures public ==> Visible(old(h.fs), c.inode)
    ensures !r.Done? ==> c.current == old(c.current)
    ensures h.calm && old(c.Holds(h.fs) && Releasable(h.fs, c)) ==>
      if old(h.fs).data[c.inode] == old(c.current) then r == Done(true) && h.fs == old(WithoutCap(h.fs, c.dir))
      else r == Done(false) && h.fs == old(h.fs) && c.current == h.fs.data[c.inode]
    ensures c.active ==> OnlyLooks(old(h.trace), h.trace, c.dir) && SlotsMoved(old(h.fs.caps), h.fs.caps, c.dir, c.inode)
    ensures old(c.active) && !c.active ==> c.dir !in SlotDirs(h.fs)
    ensures old(c.active) && !c.active ==> GivesUp(old(h.trace), h.trace, c.dir, c.inode, old(c.current), old(h.fs))
  {
    hide Rely, FileWorld.Valid, Secluded, Shut, Sealed, GivesUp, Keeps, OnlyLooks, Visible;
    public := false;
    KeepsSelf(h.fs, c.dir);
    if !c.active { r := Done(true); return; }
    r, public := RemoveSteps(h, c);
    KeepsGrows(old(h.fs), h.fs, c.dir);
    if r.Threw? {
      ghost var fs1, middle := h.fs, h.fs.caps;
      var cleaned := RestoreRelease(h, c.dir);
      if c.active {
        SlotsMovedTrans(old(h.fs.caps), middle, h.fs.caps, c.dir, c.inode);
      }
      MovedKeeps(fs1, h.fs, c.dir);
      KeepsTrans(old(h.fs), fs1, h.fs, c.dir);
      KeepsGrows(old(h.fs), h.fs, c.dir);
      if cleaned.Crash? { r := Crash; }
    }
  }

  datatype Opened = Created | Recovered | AlreadyReleased

  /** `openProjectPreparationCaptureDirectory` with a stable capture ID. */
  method OpenCaptureDirectory(h: Host, d: Dir) returns (r: Run<Opened>)
    requires h.Valid()
    modifies h
    ensures ShutBut(old(h.fs), h.fs, d)
    ensures Shields(old(h.fs), h.fs)
    ensures h.Valid() && h.trace == old(h.trace)
    ensures h.fs.temps == old(h.fs.temps) && Grows(old(h.fs), h.fs)
    ensures Keeps(old(h.fs), h.fs, d)
    ensures r == Done(Created) ==>
      d !in old(h.fs).caps && h.fs.caps == old(h.fs).caps[d := Open(None, None)]
    ensures r == Done(Recovered) ==>
      h.fs.caps == old(h.fs).caps && d in h.fs.caps && h.fs.caps[d].Open?
    ensures r == Done(AlreadyReleased) ==>
      d in old(h.fs).caps && old(h.fs).caps[d].Finished? && h.fs.caps == old(h.fs).caps - {d}
    ensures h.calm && old(d !in h.fs.caps) ==> r == Done(Created) && h.fs == old(WithCap(h.fs, d, Open(None, None)))
    ensures h.calm && old(d in h.fs.caps && h.fs.caps[d].Open?) ==> r == Done(Recovered) && h.fs == old(h.fs)
    ensures h.calm && old(Removable(h.fs, d)) ==> r == Done(AlreadyReleased) && h.fs == old(WithoutCap(h.fs, d))
    ensures !r.Done? ==> FinishBegun(old(h.fs).caps, h.fs.caps, d)
  {
    hide Rely, FileWorld.Valid, Secluded, Shut;
    var finished :- FinishReleasedIfPresent(h, d);
    if finished { return Done(AlreadyReleased); }
    var made :- h.Mkdir(d);
    if made == Ok { return Done(Created); }
    if made != Eexist { return Threw(FailedCode); }
    return Done(Recovered);
  }

  /** The events of a capture, interrupted or not: nothing given up, nothing else taken. */
  ghost predicate OnlyTakes(before: seq<Event>, after: seq<Event>, d: Dir) {
    && before <= after
    && forall k :: |before| <= k < |after| ==>
         && !after[k].Dropped? && !after[k].Published? && (after[k].Looked? ==> after[k].dir == d)
         && (after[k].Took? ==> after[k].dir == d && d.place.AtPublic?)
  }

  /** A capture ends with nothing when its directory only waited to be cleaned up, or no base file was there. */
  function FoundNothing(fs: Fs, d: Dir): seq<Event> {
    if d in fs.caps && fs.caps[d].Finished? then [] else AbsentEvents(d)
  }

  /** What taking a base file adds to the history. */
  function TakingPart(d: Dir, i: Inode): seq<Event> {
    if d.place.AtPublic? then [Took(d, i)] else []
  }

  ghost function SealedFiles(fs: Fs): (sealed: set<Inode>)
    ensures forall i :: i in sealed <==> Sealed(fs, i)
  {
    set i | i in fs.data && Sealed(fs, i)
  }

  /** `rename(path, capturedPath)` into an empty capture directory. */
  method TakeBase(h: Host, d: Dir) returns (r: Run<bool>)
    requires h.Valid() && Lookup(h.fs.caps, d) == Some(Open(None, None))
    modifies h
    ensures r.Done? ==> Shields(old(h.fs), h.fs)
    ensures h.Valid() && Keeps(old(h.fs), h.fs, d)
    ensures r == Done(true) ==>
      && CapturedIn(h.fs, d).Some? && Lookup(h.fs.caps, d) == Some(Open(CapturedIn(h.fs, d), None))
      && h.trace == old(h.trace) + TakingPart(d, CapturedIn(h.fs, d).value)
    ensures r == Done(true) && d.place.AtPublic? ==> CapturedIn(h.fs, d).value !in old(SealedFiles(h.fs))
    ensures r == Done(false) ==> h.trace == old(h.trace) + AbsentEvents(d) && SlotFile(h.fs, d).None?
    ensures h.calm ==>
      if old(At(h.fs, BasePath(d)).Some?) then r == Done(true) && h.fs == old(TakeFs(h.fs, d))
      else r == Done(false) && h.fs == old(WithoutCap(h.fs, d))
    ensures !r.Done? ==> OnlyTakes(old(h.trace), h.trace, d)
  {
    hide Rely, FileWorld.Valid, Secluded, Shut, Sealed, SealedFiles;
    var taken :- h.Take(d);
    TakenWasVisible(old(h.fs), h.at, d);
    if taken == Ok { return Done(true); }
    var closed := h.Rmdir(d, false);
    if closed.Crash? { return Crash; }
    if taken == Enoent { return Done(false); }
    return Threw(FailedCode);
  }

  lemma TakenWasVisible(a: Fs, b: Fs, d: Dir)
    requires Rely(a, b)
    ensures d.place.AtPublic? && At(b, BasePath(d)).Some? ==> At(b, BasePath(d)).value !in SealedFiles(a)
  {
    if d.place.AtPublic? && At(b, BasePath(d)).Some? {
      assert b.names[Public] in b.names.Values;
    }
  }

  lemma SealedLater(a: Fs, b: Fs)
    requires Shields(a, b)
    ensures SealedFiles(a) <= SealedFiles(b)
  {
  }

  /** Moves the base file into the directory unless an interrupted capture already did. */
  method Claim(h: Host, d: Dir) returns (r: Run<bool>)
    requires h.Valid()
    modifies h
    ensures r.Done? ==> Shields(old(h.fs), h.fs)
    ensures h.Valid() && Keeps(old(h.fs), h.fs, d)
    ensures r == Done(true) ==>
      && CapturedIn(h.fs, d).Some? && Lookup(h.fs.caps, d) == Some(Open(CapturedIn(h.fs, d), None))
      && (if old(SlotFile(h.fs, d).Some?)
          then CapturedIn(h.fs, d) == old(SlotFile(h.fs, d)) && h.trace == old(h.trace) && h.fs.temps == old(h.fs.temps)
          else h.trace == old(h.trace) + TakingPart(d, CapturedIn(h.fs, d).value))
    ensures r == Done(true) ==>
      && old(CapturedIn(h.fs, d)) in {None, CapturedIn(h.fs, d)} && old(ReleaseIn(h.fs, d)) in {None, CapturedIn(h.fs, d)}
    ensures r == Done(true) && d.place.AtPublic? && old(SlotFile(h.fs, d)).None? ==>
      CapturedIn(h.fs, d).value !in old(SealedFiles(h.fs))
    ensures r == Done(false) ==> h.trace == old(h.trace) + FoundNothing(old(h.fs), d)
    ensures r == Done(false) ==> SlotFile(h.fs, d).None? && old(SlotFile(h.fs, d)).None?
    ensures h.calm && old(d !in h.fs.caps) ==>
      if old(At(h.fs, BasePath(d)).Some?) then r == Done(true) && h.fs == old(TakenFs(h.fs, d))
      else r == Done(false) && h.fs == old(h.fs)
    ensures h.calm && old(Resumable(h.fs, d)) ==>
      r == Done(true) && h.fs == old(ResumedFs(h.fs, d))
    ensures h.calm && old(Removable(h.fs, d)) ==> r == Done(false) && h.fs == old(WithoutCap(h.fs, d))
    ensures !r.Done? ==> OnlyTakes(old(h.trace), h.trace, d)
  {
    hide Rely, FileWorld.Valid, Secluded, Shut, Sealed, Keeps, Grows, SealedFiles;
    var opening :- OpenCaptureDirectory(h, d);
    if opening.AlreadyReleased? { return Done(false); }
    ghost var fs1 := h.fs;
    var have := false;
    if opening.Recovered? {
      var restoring := RestoreRelease(h, d);
      MovedKeeps(fs1, h.fs, d);
      KeepsTrans(old(h.fs), fs1, h.fs, d);
      var _ :- restoring;
      ghost var fs2 := h.fs;
      var looking := h.Exists(CapturedFile(d));
      KeepsStable(old(h.fs), fs2, h.fs, d);
      have :- looking;
    }
    if have { return Done(true); }
    ghost var fs3 := h.fs;
    SealedLater(old(h.fs), fs3);
    MadeAndRemoved(old(h.fs), d);
    r := TakeBase(h, d);
    KeepsTrans(old(h.fs), fs3, h.fs, d);
  }

  lemma MadeAndRemoved(fs: Fs, d: Dir)
    ensures d !in fs.caps ==> WithoutCap(WithCap(fs, d, Open(None, None)), d) == fs
  {
    if d !in fs.caps { assert fs.caps[d := Open(None, None)] - {d} == fs.caps; }
  }

  /** The base file is in a new capture directory. */
  function TakenFs(fs: Fs, d: Dir): Fs
    requires At(fs, BasePath(d)).Some?
  {
    TakeFs(WithCap(fs, d, Open(None, None)), d)
  }

  lemma TakenSlot(fs: Fs, d: Dir)
    requires At(fs, BasePath(d)).Some? && d !in fs.caps
    ensures var i := At(fs, BasePath(d)).value;
      Inside(fs, d, i) == 0 && Inside(TakenFs(fs, d), d, i) == 1 && At(TakenFs(fs, d), CapturedFile(d)) == Some(i)
  {
  }

  lemma MadeOutside(fs: Fs, d: Dir, i: Inode)
    ensures Outside(WithCap(fs, d, Open(None, None)), d, i) == Outside(fs, d, i)
    ensures At(WithCap(fs, d, Open(None, None)), BasePath(d)) == At(fs, BasePath(d))
  {
    OutsideStays(fs, WithCap(fs, d, Open(None, None)), d, i);
  }

  /** A file keeps the number of its names when it is captured. */
  lemma TakenLinks(fs: Fs, d: Dir)
    requires At(fs, BasePath(d)).Some? && d !in fs.caps
    ensures Links(TakenFs(fs, d), At(fs, BasePath(d)).value) == Links(fs, At(fs, BasePath(d)).value)
  {
    hide Outside, Inside, Links, TakeFs, At;
    var i := At(fs, BasePath(d)).value;
    TakenSlot(fs, d);
    LinksAre(fs, d, i);
    LinksAre(TakenFs(fs, d), d, i);
    MadeOutside(fs, d, i);
    TakeLeavesFewer(WithCap(fs, d, Open(None, None)), d, i);
  }

  /** The base file can be captured into a new directory: it has no name too many. */
  predicate Takable(fs: Fs, d: Dir, maximumLinks: nat) {
    d !in fs.caps && At(fs, BasePath(d)).Some? && Links(fs, At(fs, BasePath(d)).value) <= maximumLinks
  }

  lemma TakenReads(fs: Fs, d: Dir, maximumLinks: nat)
    requires Takable(fs, d, maximumLinks)
    ensures var i := At(fs, BasePath(d)).value;
      Reads(TakenFs(fs, d), CapturedFile(d), maximumLinks) == Done(Found(i, TextIn(fs, i)))
  {
    hide Links;
    TakenSlot(fs, d);
    TakenLinks(fs, d);
  }

  /** And has at most the same when an interrupted capture of it is resumed. */
  lemma ResumedLinks(fs: Fs, d: Dir)
    requires Resumable(fs, d)
    ensures var i := SlotFile(fs, d).value; Links(WithCap(fs, d, Open(Some(i), None)), i) <= Links(fs, i)
  {
    hide Links, Outside;
    var i := SlotFile(fs, d).value;
    var after := WithCap(fs, d, Open(Some(i), None));
    LinksAre(fs, d, i);
    LinksAre(after, d, i);
    OutsideStays(fs, after, d, i);
  }

  predicate ResumableWith(fs: Fs, d: Dir, maximumLinks: nat) {
    Resumable(fs, d) && Links(fs, SlotFile(fs, d).value) <= maximumLinks
  }

  function ResumedFs(fs: Fs, d: Dir): Fs {
    WithCap(fs, d, Open(SlotFile(fs, d), None))
  }

  lemma ResumedReads(fs: Fs, d: Dir, maximumLinks: nat)
    requires ResumableWith(fs, d, maximumLinks)
    ensures var i := SlotFile(fs, d).value;
      Reads(ResumedFs(fs, d), CapturedFile(d), maximumLinks) == Done(Found(i, TextIn(fs, i)))
  {
    hide Links;
    ResumedLinks(fs, d);
  }

  lemma KeepsSelf(fs: Fs, d: Dir)
    ensures Keeps(fs, fs, d)
  {
  }

  lemma MovedKeeps(a: Fs, b: Fs, d: Dir)
    requires b.temps == a.temps && Grows(a, b) && ShutBut(a, b, d)
    requires SlotsMoved(a.caps, b.caps, d, SlotFile(a, d).GetOr(0))
    ensures Keeps(a, b, d)
  {
  }

  lemma ReturnsTakeNothing(before: seq<Event>, middle: seq<Event>, after: seq<Event>, d: Dir)
    requires OnlyTakes(before, middle, d) && OnlyReturns(middle, after)
    ensures OnlyTakes(before, after, d)
  {
  }

  /**
   `captureProjectPreparationFile`: the file leaves its name before it is looked
   at. A resumed directory keeps the file it already held. With one link allowed,
   no other name of the captured file exists.
   */
  method CaptureFile(h: Host, d: Dir, maximumLinks: nat) returns (r: Run<Capture?>)
    requires h.Valid()
    modifies h
    ensures r.Done? ==> Shields(old(h.fs), h.fs)
    ensures h.Valid() && Keeps(old(h.fs), h.fs, d)
    ensures r.Done? && r.value != null ==>
      && fresh(r.value) && r.value.dir == d && r.value.maximumLinks == maximumLinks
      && r.value.Holds(h.fs) && r.value.current == r.value.source && r.value.Acknowledged(h.trace)
      && r.value.inode in h.at.data && h.at.data[r.value.inode] == r.value.source
      && (maximumLinks == 1 ==> Sole(h.fs, d, r.value.inode))
      && (if old(SlotFile(h.fs, d).Some?)
          then old(SlotFile(h.fs, d)) == Some(r.value.inode) && h.fs.temps == old(h.fs.temps)
               && h.trace == old(h.trace) + [Looked(d, r.value.inode, r.value.source)]
          else h.trace == old(h.trace) + TakingPart(d, r.value.inode) + [Looked(d, r.value.inode, r.value.source)])
    ensures r.Done? && r.value != null ==> old(CapturedIn(h.fs, d)) in {None, Some(r.value.inode)}
    ensures r.Done? && r.value != null ==> old(ReleaseIn(h.fs, d)) in {None, Some(r.value.inode)}
    ensures r.Done? && r.value != null && d.place.AtPublic? && r.value.inode in old(SealedFiles(h.fs)) ==>
      r.value.source == old(h.fs).data[r.value.inode]
    ensures r == Done(null) ==> h.trace == old(h.trace) + FoundNothing(old(h.fs), d)
    ensures r == Done(null) ==> SlotFile(h.fs, d).None? && old(SlotFile(h.fs, d)).None?
    ensures OnlyTakes(old(h.trace), h.trace, d)
    ensures h.calm && old(d !in h.fs.caps && At(h.fs, BasePath(d)).None?) ==> r == Done(null) && h.fs == old(h.fs)
    ensures h.calm && old(Takable(h.fs, d, maximumLinks)) ==>
      && r.Done? && r.value != null && h.fs == old(TakenFs(h.fs, d))
      && r.value.inode == old(At(h.fs, BasePath(d)).value) && r.value.source == TextIn(old(h.fs), r.value.inode)
    ensures h.calm && old(ResumableWith(h.fs, d, maximumLinks)) ==>
      && r.Done? && r.value != null && h.fs == old(ResumedFs(h.fs, d))
      && r.value.source == TextIn(old(h.fs), r.value.inode)
    ensures h.calm && old(Removable(h.fs, d)) ==> r == Done(null) && h.fs == old(WithoutCap(h.fs, d))
  {
    hide Rely, FileWorld.Valid, Secluded, Shut, Keeps, Grows, ShutBut, ShutKept, Sealed, SealedFiles, Links, TakenFs,
      ResumedFs, Reads, WithoutCap, OnlyTakes;
    var claimed :- Claim(h, d);
    ClaimTakes(old(h.fs), old(h.trace), h.trace, d, CapturedIn(h.fs, d).GetOr(0));
    if !claimed { return Done(null); }
    ghost var fs1, claimedTrace := h.fs, h.trace;
    if old(Takable(h.fs, d, maximumLinks)) { TakenReads(old(h.fs), d, maximumLinks); }
    if old(ResumableWith(h.fs, d, maximumLinks)) { ResumedReads(old(h.fs), d, maximumLinks); }
    var reading := h.Look(CapturedFile(d), maximumLinks);
    KeepsLooked(old(h.fs), fs1, h.at, h.fs, d);
    LookTakesNothing(old(h.trace), claimedTrace, h.trace, d, reading);
    SealedReads(old(h.fs), fs1, h.at, CapturedIn(fs1, d).value);
    if reading.Crash? { return Crash; }
    if reading.Threw? || reading.value.Missing? {
      r := GiveBackUnread(h, d, if reading.Threw? then reading.code else FailedCode, old(h.fs), old(h.trace));
      return;
    }
    FoundIsAllocated(h.at, h.fs, reading.value.inode);
    var c := new Capture(d, reading.value.inode, reading.value.text, maximumLinks);
    return Done(c);
  }

  /** A captured file that cannot be read goes back. */
  method GiveBackUnread(h: Host, d: Dir, code: Code, ghost start: Fs, ghost before: seq<Event>) returns (r: Run<Capture?>)
    requires h.Valid() && Keeps(start, h.fs, d) && OnlyTakes(before, h.trace, d) && CapturedIn(h.fs, d).Some?
    modifies h
    ensures h.Valid() && Keeps(start, h.fs, d) && OnlyTakes(before, h.trace, d) && r in {Threw(code), Crash}
  {
    hide Rely, FileWorld.Valid, Secluded, Shut, Keeps, Grows, ShutBut, OnlyTakes, OnlyReturns;
    ghost var fs1, trace1 := h.fs, h.trace;
    var restored;
    ghost var refused;
    restored, refused := RestoreCaptured(h, d, CapturedIn(h.fs, d).value);
    KeepsTrans(start, fs1, h.fs, d);
    ReturnsTakeNothing(before, trace1, h.trace, d);
    return if restored.Crash? then Crash else Threw(code);
  }

  /** Nothing changes what is read of a file that nobody could write. */
  lemma SealedReads(a: Fs, b: Fs, at: Fs, i: Inode)
    requires Shields(a, b) && Rely(b, at)
    ensures i in SealedFiles(a) ==> i in at.data && at.data[i] == a.data[i]
  {
  }

  /** Claiming a base file takes at most that file. */
  lemma ClaimTakes(fs: Fs, before: seq<Event>, after: seq<Event>, d: Dir, i: Inode)
    requires after == before || after == before + TakingPart(d, i) || after == before + FoundNothing(fs, d)
    ensures OnlyTakes(before, after, d)
  {
  }

  lemma LookTakesNothing(before: seq<Event>, middle: seq<Event>, after: seq<Event>, d: Dir, reading: Run<Reading>)
    requires OnlyTakes(before, middle, d) && after == middle + LookEvents(d, reading)
    ensures OnlyTakes(before, after, d)
  {
  }

  lemma FoundIsAllocated(a: Fs, b: Fs, i: Inode)
    requires Stable(a, b) && i in a.data
    ensures i in b.data
  {
  }
}
