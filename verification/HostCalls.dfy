/**
 The Host's side of the file system: one method per system call. Before each
 call other processes run, any call may fail, and the Host may be lost.
 */
module HostCalls {
  import opened Wrappers
  import opened ExclusionText
  import opened FileWorld

  datatype Code = CollisionCode | FailedCode

  datatype Errno = Ok | Eexist | Enoent | Eio

  /** `Crash`: the Host is gone, nothing after this point runs. `Threw`: an error with its code. */
  datatype Run<+T> = Done(value: T) | Threw(code: Code) | Crash {
    predicate IsFailure() {
      !Done?
    }

    function PropagateFailure<U>(): Run<U>
      requires !Done?
    {
      if Threw? then Threw(code) else Crash
    }

    function Extract(): T
      requires Done?
    {
      value
    }
  }

  datatype Reading = Missing | Found(inode: Inode, text: Text)

  function TextIn(fs: Fs, i: Inode): Text {
    if i in fs.data then fs.data[i] else ""
  }

  function WithCap(fs: Fs, d: Dir, cap: Cap): Fs {
    fs.(caps := fs.caps[d := cap])
  }

  function SetCaptured(fs: Fs, d: Dir, i: Option<Inode>): Fs {
    WithCap(fs, d, Open(i, ReleaseIn(fs, d)))
  }

  function SetRelease(fs: Fs, d: Dir, i: Option<Inode>): Fs {
    WithCap(fs, d, Open(CapturedIn(fs, d), i))
  }

  /** The base name given to inode `i`. */
  function SetBase(fs: Fs, d: Dir, i: Inode): Fs {
    match d.place
    case AtPublic => fs.(names := fs.names[Public := i])
    case AtTemp(id) => fs.(temps := fs.temps[id := i])
  }

  function ClearBase(fs: Fs, d: Dir): Fs {
    match d.place
    case AtPublic => fs.(names := fs.names - {Public})
    case AtTemp(id) => fs.(temps := fs.temps - {id})
  }

  lemma BaseStaysWellFormed(fs: Fs, d: Dir, i: Inode)
    requires WellFormed(fs) && i in fs.data
    ensures WellFormed(SetBase(fs, d, i))
  {
  }

  lemma SlotsStayWellFormed(fs: Fs, d: Dir, captured: Option<Inode>)
    requires WellFormed(fs) && (captured.Some? ==> captured.value in fs.data)
    ensures WellFormed(SetCaptured(fs, d, captured))
  {
    if ReleaseIn(fs, d).Some? { AtIsAllocated(fs, ReleaseFile(d)); }
  }

  /** Custody survives every change that keeps each capture's file answered for in it. */
  lemma KeepCustody(a: Fs, b: Fs, before: seq<Event>, after: seq<Event>)
    requires Custody(a, before) && Held(after) <= Held(before)
    requires forall d, i :: (d, i) in Held(after) && Named(a, d, i) ==> Named(b, d, i)
    ensures Custody(b, after)
  {
    forall d, i | (d, i) in Held(after) ensures Named(b, d, i) {
      assert Named(a, d, i);
    }
  }

  /** What is answered for without the file that got the public name. */
  function Without(held: set<(Dir, Inode)>, i: Inode): set<(Dir, Inode)> {
    set p | p in held && p.1 != i
  }

  lemma ReturnStep(trace: seq<Event>, e: Event)
    requires e.Put? || e.Saw? || e.Published?
    ensures Held(trace + [e]) == Without(Held(trace), e.inode)
    ensures AllJustified(trace) ==> AllJustified(trace + [e])
  {
    HeldStep(trace, e);
    if AllJustified(trace) { AllJustifiedMore(trace, e); }
  }

  /** Reading a captured file or probing its descriptors changes nothing that is answered for. */
  lemma LookStep(fs: Fs, trace: seq<Event>, e: Event)
    requires Valid(fs, trace) && (e.Looked? || e.Probed? || e.Absent?)
    ensures Valid(fs, trace + [e]) && Held(trace + [e]) == Held(trace)
  {
    HeldStep(trace, e);
    AllJustifiedMore(trace, e);
  }

  /** One capture's slots hold no more than before, or only a file somebody could see. */
  lemma SlotsGrow(a: Fs, b: Fs, d: Dir)
    requires b.temps == a.temps && b.names == a.names && b.data == a.data && b.open == a.open
    requires forall e :: e != d ==> CapturedIn(b, e) == CapturedIn(a, e) && ReleaseIn(b, e) == ReleaseIn(a, e)
    requires forall i :: Named(b, d, i) ==> Named(a, d, i) || Visible(a, i)
    ensures Grows(a, b) && ShutBut(a, b, d)
  {
    forall i, e | Secluded(a, i) ensures !Named(b, e, i) {
      assert !Named(a, e, i);
    }
    forall own, i | own != d && Shut(a, own, i) ensures Shut(b, own, i) {
      assert !Visible(a, i);
      forall e | Named(b, e, i) ensures e == own {
        assert e == d ==> Named(a, d, i);
        assert e != d ==> Named(a, e, i);
      }
    }
  }

  lemma ClobberStep(trace: seq<Event>, i: Inode)
    ensures Held(trace + [Clobbered(i)]) == Held(trace)
    ensures AllJustified(trace) ==> AllJustified(trace + [Clobbered(i)])
  {
    HeldStep(trace, Clobbered(i));
    if AllJustified(trace) { AllJustifiedMore(trace, Clobbered(i)); }
  }

  function TakeFs(fs: Fs, d: Dir): Fs
    requires At(fs, BasePath(d)).Some?
  {
    ClearBase(SetCaptured(fs, d, At(fs, BasePath(d))), d)
  }

  function TakeEvents(fs: Fs, d: Dir): seq<Event>
    requires At(fs, BasePath(d)).Some?
  {
    if d.place.AtPublic? then [Took(d, At(fs, BasePath(d)).value)] else []
  }

  /** That there was no public file to take is recorded too. */
  function AbsentEvents(d: Dir): seq<Event> {
    if d.place.AtPublic? then [Absent(d)] else []
  }

  lemma TakeKeepsValid(fs: Fs, d: Dir, trace: seq<Event>)
    requires Valid(fs, trace) && At(fs, BasePath(d)).Some?
    requires d in fs.caps && fs.caps[d].Open? && CapturedIn(fs, d).None?
    ensures Valid(TakeFs(fs, d), trace + TakeEvents(fs, d))
    ensures Hides(fs, TakeFs(fs, d)) && Grows(fs, TakeFs(fs, d)) && ShutBut(fs, TakeFs(fs, d), d)
  {
    var i := At(fs, BasePath(d)).value;
    var after, history := TakeFs(fs, d), trace + TakeEvents(fs, d);
    AtIsAllocated(fs, BasePath(d));
    SlotsStayWellFormed(fs, d, Some(i));
    HeldStep(trace, Took(d, i));
    if d.place.AtTemp? { assert history == trace; }
    forall e, j | (e, j) in Held(history) ensures Named(after, e, j) {
      if (e, j) in Held(trace) {
        assert Named(fs, e, j);
      }
    }
    if d.place.AtPublic? { AllJustifiedMore(trace, Took(d, i)); }
    TakeGrows(fs, d);
  }

  lemma TakeGrows(fs: Fs, d: Dir)
    requires WellFormed(fs) && At(fs, BasePath(d)).Some?
    ensures Grows(fs, TakeFs(fs, d)) && ShutBut(fs, TakeFs(fs, d), d)
  {
    var after := TakeFs(fs, d);
    forall i | Secluded(fs, i) ensures Secluded(after, i) {
      forall e ensures !Named(after, e, i) { assert !Named(fs, e, i); }
    }
    assert d.place.AtPublic? ==> fs.names[Public] in fs.names.Values;
    forall own, i | own != d && Shut(fs, own, i) ensures Shut(after, own, i) {
      assert !Visible(fs, i);
      forall e | Named(after, e, i) ensures e == own { assert Named(fs, e, i); }
    }
  }

  function GiveFs(fs: Fs, d: Dir): Fs
    requires CapturedIn(fs, d).Some?
  {
    SetBase(SetCaptured(fs, d, None), d, CapturedIn(fs, d).value)
  }

  function GiveEvents(fs: Fs, d: Dir): seq<Event>
    requires CapturedIn(fs, d).Some? && CapturedIn(fs, d).value in fs.data
  {
    var i := CapturedIn(fs, d).value;
    if d.place.AtTemp? then []
    else if Public in fs.names then [Clobbered(fs.names[Public]), Put(i, fs.data[i])]
    else [Put(i, fs.data[i])]
  }

  lemma GiveKeepsValid(fs: Fs, d: Dir, trace: seq<Event>)
    requires Valid(fs, trace) && CapturedIn(fs, d).Some? && CapturedIn(fs, d).value in fs.data
    ensures Valid(GiveFs(fs, d), trace + GiveEvents(fs, d))
    ensures Grows(fs, GiveFs(fs, d)) && ShutBut(fs, GiveFs(fs, d), d)
  {
    var i := CapturedIn(fs, d).value;
    var after, history := GiveFs(fs, d), trace + GiveEvents(fs, d);
    SlotsStayWellFormed(fs, d, None);
    BaseStaysWellFormed(SetCaptured(fs, d, None), d, i);
    GiveReleases(fs, d, trace);
    KeepCustody(fs, after, trace, history);
    GiveGrows(fs, d);
  }

  lemma GiveGrows(fs: Fs, d: Dir)
    requires CapturedIn(fs, d).Some?
    ensures Grows(fs, GiveFs(fs, d)) && ShutBut(fs, GiveFs(fs, d), d)
  {
    var i, after := CapturedIn(fs, d).value, GiveFs(fs, d);
    forall j | Secluded(fs, j) ensures Secluded(after, j) {
      forall e ensures !Named(after, e, j) { assert !Named(fs, e, j); }
      assert !Named(fs, d, j);
      BaseShows(SetCaptured(fs, d, None), d, i, j);
    }
    forall own, j | own != d && Shut(fs, own, j) ensures Shut(after, own, j) {
      forall e | Named(after, e, j) ensures e == own { assert Named(fs, e, j); }
      assert Named(fs, d, j) ==> d == own;
      BaseShows(SetCaptured(fs, d, None), d, i, j);
    }
  }

  /** A base name given to one file shows no other. */
  lemma BaseShows(fs: Fs, d: Dir, i: Inode, j: Inode)
    requires !Visible(fs, j) && (d.place.AtPublic? ==> i != j)
    ensures !Visible(SetBase(fs, d, i), j)
  {
    var after := SetBase(fs, d, i);
    forall n | n in after.names ensures after.names[n] != j {
      if n in fs.names { assert fs.names[n] in fs.names.Values; }
    }
  }

  lemma GiveReleases(fs: Fs, d: Dir, trace: seq<Event>)
    requires CapturedIn(fs, d).Some? && CapturedIn(fs, d).value in fs.data
    ensures var i := CapturedIn(fs, d).value;
      Held(trace + GiveEvents(fs, d)) == if d.place.AtPublic? then Without(Held(trace), i) else Held(trace)
    ensures AllJustified(trace) ==> AllJustified(trace + GiveEvents(fs, d))
  {
    hide Held, AllJustified;
    var i := CapturedIn(fs, d).value;
    var history := trace + GiveEvents(fs, d);
    ReturnStep(trace, Put(i, fs.data[i]));
    if d.place.AtTemp? {
      assert history == trace;
    } else if Public in fs.names {
      var lost := Clobbered(fs.names[Public]);
      ClobberStep(trace, lost.inode);
      ReturnStep(trace + [lost], Put(i, fs.data[i]));
      assert history == trace + [lost] + [Put(i, fs.data[i])];
    }
  }

  function CommitFs(fs: Fs, d: Dir): Fs {
    WithCap(fs, d, Finished(ReleaseIn(fs, d)))
  }

  lemma CommitKeepsValid(fs: Fs, d: Dir, trace: seq<Event>, e: Event)
    requires Valid(fs, trace) && d in fs.caps && fs.caps[d].Open?
    requires e.Dropped? && CapturedIn(fs, d).None? && ReleaseIn(fs, d) == Some(e.inode)
    requires e.dir == d && Justified(trace + [e], |trace|)
    ensures Valid(CommitFs(fs, d), trace + [e]) && Grows(fs, CommitFs(fs, d)) && ShutBut(fs, CommitFs(fs, d), d)
  {
    AllJustifiedMore(trace, e);
    SlotsGrow(fs, CommitFs(fs, d), d);
    HeldStep(trace, e);
    SlotsKeepValid(fs, CommitFs(fs, d), d);
    KeepCustody(fs, CommitFs(fs, d), trace, trace + [e]);
  }

  /** Changing one capture's slots to hold existing files keeps the names well formed. */
  lemma SlotsKeepValid(fs: Fs, after: Fs, d: Dir)
    requires WellFormed(fs) && after == fs.(caps := after.caps)
    requires forall e :: e != d && e in after.caps ==> e in fs.caps && after.caps[e] == fs.caps[e]
    requires d in after.caps ==> Slots(after.caps[d]) <= fs.data.Keys
    ensures WellFormed(after)
  {
  }

  lemma SawKeepsValid(fs: Fs, trace: seq<Event>, i: Inode, text: Text)
    requires Valid(fs, trace)
    ensures Valid(fs, trace + [Saw(i, text)])
  {
    HeldStep(trace, Saw(i, text));
    AllJustifiedMore(trace, Saw(i, text));
  }

  function CreateFs(fs: Fs, p: Path, i: Inode, text: Text): Fs
    requires p.PublicFile? || p.TempFile?
  {
    var named := if p.PublicFile? then fs.(names := fs.names[Public := i]) else fs.(temps := fs.temps[p.id := i]);
    named.(data := fs.data[i := text])
  }

  lemma CreateKeepsValid(fs: Fs, p: Path, i: Inode, text: Text, trace: seq<Event>)
    requires Valid(fs, trace) && (p.PublicFile? || p.TempFile?)
    requires At(fs, p).None? && i !in fs.data
    ensures Valid(CreateFs(fs, p, i, text), trace)
    ensures Valid(CreateFs(fs, p, i, text), trace + [Made(i)])
    ensures Hides(fs, CreateFs(fs, p, i, text))
    ensures p.TempFile? ==> Sealed(CreateFs(fs, p, i, text), i) && Secluded(CreateFs(fs, p, i, text), i)
    ensures Grows(fs, CreateFs(fs, p, i, text)) && ShutKept(fs, CreateFs(fs, p, i, text))
  {
    var after := CreateFs(fs, p, i, text);
    AllJustifiedMore(trace, Made(i));
    CreateGrows(fs, p, i, text);
    HeldStep(trace, Made(i));
    KeepCustody(fs, after, trace, trace);
    KeepCustody(fs, after, trace, trace + [Made(i)]);
    forall j | j in fs.data && Visible(after, j) ensures Visible(fs, j) {
      var n :| n in after.names && after.names[n] == j;
      assert n in fs.names;
    }
  }

  lemma CreateGrows(fs: Fs, p: Path, i: Inode, text: Text)
    requires WellFormed(fs) && (p.PublicFile? || p.TempFile?) && i !in fs.data
    ensures Grows(fs, CreateFs(fs, p, i, text)) && ShutKept(fs, CreateFs(fs, p, i, text))
    ensures p.TempFile? ==> Secluded(CreateFs(fs, p, i, text), i)
  {
    var after := CreateFs(fs, p, i, text);
    forall j | Secluded(fs, j) ensures Secluded(after, j) {
      forall d ensures !Named(after, d, j) { assert !Named(fs, d, j); }
      forall n | n in after.names ensures after.names[n] != j {
        if n in fs.names { assert fs.names[n] in fs.names.Values; }
      }
    }
    forall d ensures !Named(after, d, i) {
      assert d in fs.caps ==> i !in Slots(fs.caps[d]);
    }
    forall d, j | Shut(fs, d, j) ensures Shut(after, d, j) && after.data[j] == fs.data[j] {
      forall n | n in after.names ensures after.names[n] != j {
        if n in fs.names { assert fs.names[n] in fs.names.Values; }
      }
      forall e | Named(after, e, j) ensures e == d { assert Named(fs, e, j); }
    }
  }

  function PublicNames(fs: Fs, i: Inode): set<Name> {
    set n | n in fs.names && fs.names[n] == i
  }

  function TempNames(fs: Fs, i: Inode): set<Id> {
    set t | t in fs.temps && fs.temps[t] == i
  }

  function CapturedDirs(fs: Fs, i: Inode): set<Dir> {
    set d | d in fs.caps && CapturedIn(fs, d) == Some(i)
  }

  function ReleaseDirs(fs: Fs, i: Inode): set<Dir> {
    set d | d in fs.caps && ReleaseIn(fs, d) == Some(i)
  }

  function FinishedDirs(fs: Fs, i: Inode): set<Dir> {
    set d | d in fs.caps && At(fs, FinishedFile(d)) == Some(i)
  }

  /** How many names, public and private, lead to the inode. */
  function Links(fs: Fs, i: Inode): nat {
    |PublicNames(fs, i)| + |TempNames(fs, i)| + |CapturedDirs(fs, i)| + |ReleaseDirs(fs, i)| + |FinishedDirs(fs, i)|
  }

  /** The capture slot is the only name, public or private, of the inode. */
  ghost predicate Sole(fs: Fs, d: Dir, i: Inode) {
    && !Visible(fs, i)
    && (forall t :: t in fs.temps ==> fs.temps[t] != i)
  }

  lemma OneLinkIsSole(fs: Fs, p: Path, i: Inode)
    requires (p.CapturedFile? || p.ReleaseFile?) && At(fs, p) == Some(i)
    requires Links(fs, i) <= 1
    ensures Sole(fs, p.dir, i)
  {
    var d := p.dir;
    assert d in CapturedDirs(fs, i) || d in ReleaseDirs(fs, i);
    assert |CapturedDirs(fs, i)| >= 1 || |ReleaseDirs(fs, i)| >= 1;
    assert PublicNames(fs, i) == {} && TempNames(fs, i) == {};
    forall n | n in fs.names ensures fs.names[n] != i { assert n !in PublicNames(fs, i); }
    forall t | t in fs.temps ensures fs.temps[t] != i { assert t !in TempNames(fs, i); }
  }

  /** The names of the inode outside the slots of one capture. */
  function Outside(fs: Fs, d: Dir, i: Inode): nat {
    |PublicNames(fs, i)| + |TempNames(fs, i)| + |CapturedDirs(fs, i) - {d}| + |ReleaseDirs(fs, i) - {d}|
    + |FinishedDirs(fs, i) - {d}|
  }

  function Inside(fs: Fs, d: Dir, i: Inode): nat {
    (if CapturedIn(fs, d) == Some(i) then 1 else 0) + (if ReleaseIn(fs, d) == Some(i) then 1 else 0)
    + (if At(fs, FinishedFile(d)) == Some(i) then 1 else 0)
  }

  lemma WithOne<T>(all: set<T>, x: T)
    ensures |all| == |all - {x}| + if x in all then 1 else 0
  {
    if x in all { assert all == (all - {x}) + {x}; } else { assert all == all - {x}; }
  }

  lemma LinksAre(fs: Fs, d: Dir, i: Inode)
    ensures Links(fs, i) == Outside(fs, d, i) + Inside(fs, d, i)
  {
    SlotDirs(fs, d, i);
    hide CapturedDirs, ReleaseDirs, FinishedDirs;
    WithOne(CapturedDirs(fs, i), d);
    WithOne(ReleaseDirs(fs, i), d);
    WithOne(FinishedDirs(fs, i), d);
  }

  lemma SlotDirs(fs: Fs, d: Dir, i: Inode)
    ensures d in CapturedDirs(fs, i) <==> CapturedIn(fs, d) == Some(i)
    ensures d in ReleaseDirs(fs, i) <==> ReleaseIn(fs, d) == Some(i)
    ensures d in FinishedDirs(fs, i) <==> At(fs, FinishedFile(d)) == Some(i)
  {
  }

  /** Outside one capture nothing changes as long as only its slots do. */
  lemma OutsideStays(a: Fs, b: Fs, d: Dir, i: Inode)
    requires b.names == a.names && b.temps == a.temps
    requires forall e :: e != d ==> Lookup(b.caps, e) == Lookup(a.caps, e)
    ensures Outside(b, d, i) == Outside(a, d, i)
  {
    OtherDirs(a, b, d, i);
  }

  lemma OtherDirs(a: Fs, b: Fs, d: Dir, i: Inode)
    requires forall e :: e != d ==> Lookup(b.caps, e) == Lookup(a.caps, e)
    ensures CapturedDirs(b, i) - {d} == CapturedDirs(a, i) - {d}
    ensures ReleaseDirs(b, i) - {d} == ReleaseDirs(a, i) - {d}
    ensures FinishedDirs(b, i) - {d} == FinishedDirs(a, i) - {d}
  {
    forall e | e != d
      ensures e in CapturedDirs(b, i) <==> e in CapturedDirs(a, i)
      ensures e in ReleaseDirs(b, i) <==> e in ReleaseDirs(a, i)
      ensures e in FinishedDirs(b, i) <==> e in FinishedDirs(a, i)
    {
      assert Lookup(b.caps, e) == Lookup(a.caps, e);
    }
  }

  /** A captured file has one name less outside. */
  lemma TakeLeavesFewer(fs: Fs, d: Dir, i: Inode)
    requires At(fs, BasePath(d)) == Some(i)
    ensures Outside(TakeFs(fs, d), d, i) + 1 == Outside(fs, d, i)
  {
    var after := TakeFs(fs, d);
    OtherDirs(fs, after, d, i);
    hide CapturedDirs, ReleaseDirs, FinishedDirs, TempNames, PublicNames, TakeFs;
    TakenNames(fs, d, i);
    WithOne(PublicNames(fs, i), Public);
    if d.place.AtTemp? { WithOne(TempNames(fs, i), d.place.id); }
  }

  lemma TakenNames(fs: Fs, d: Dir, i: Inode)
    requires At(fs, BasePath(d)) == Some(i)
    ensures d.place.AtPublic? ==> Public in PublicNames(fs, i) && PublicNames(TakeFs(fs, d), i) == PublicNames(fs, i) - {Public}
    ensures d.place.AtPublic? ==> TempNames(TakeFs(fs, d), i) == TempNames(fs, i)
    ensures d.place.AtTemp? ==>
      d.place.id in TempNames(fs, i) && TempNames(TakeFs(fs, d), i) == TempNames(fs, i) - {d.place.id}
    ensures d.place.AtTemp? ==> PublicNames(TakeFs(fs, d), i) == PublicNames(fs, i)
  {
  }

  /** What reading by name gives when nothing else happens. */
  function Reads(fs: Fs, p: Path, maximumLinks: nat): Run<Reading> {
    if At(fs, p).None? then Done(Missing)
    else if Links(fs, At(fs, p).value) > maximumLinks then Threw(CollisionCode)
    else Done(Found(At(fs, p).value, TextIn(fs, At(fs, p).value)))
  }

  class Host {
    var fs: Fs
    /** The file system at the instant the last system call took effect. */
    ghost var at: Fs
    ghost var trace: seq<Event>
    /** Whether calls may fail for reasons other than the state of the names. */
    const faults: bool
    /** Nobody else acts, no call fails for such a reason, and the Host is not lost. */
    const calm: bool

    constructor (fs: Fs, faults: bool, calm: bool)
      requires WellFormed(fs) && (calm ==> !faults)
      ensures this.fs == fs && trace == [] && this.faults == faults && this.calm == calm && Valid()
    {
      this.fs, this.at, this.trace, this.faults, this.calm := fs, fs, [], faults, calm;
    }

    ghost predicate Valid()
      reads this
    {
      FileWorld.Valid(fs, trace) && (!faults ==> Unclobbered(trace)) && (calm ==> !faults)
    }

    /** Other processes take any number of steps. */
    method Interfere()
      requires Valid()
      modifies this
      ensures calm ==> fs == old(fs)
      ensures Shields(old(fs), fs) && Grows(old(fs), fs)
      ensures Valid() && Rely(old(fs), fs) && Stable(old(fs), fs) && at == fs && trace == old(trace)
    {
      var steps: nat := *;
      RelyRefl(fs);
      while steps > 0 && !calm
        invariant Valid() && Rely(old(fs), fs) && trace == old(trace) && (calm ==> fs == old(fs))
        decreases steps
      {
        var act: Act := *;
        EnvRelies(fs, act);
        RelyTrans(old(fs), fs, Env(fs, act));
        RelyValid(fs, Env(fs, act), trace);
        fs := Env(fs, act);
        steps := steps - 1;
      }
      RelyStable(old(fs), fs);
      at := fs;
    }

    /** The start of every call: other processes run, then the Host is lost or the call fails or neither. */
    method Call() returns (lost: bool, fails: bool)
      requires Valid()
      modifies this
      ensures Shields(old(fs), fs) && Grows(old(fs), fs)
      ensures Valid() && Rely(old(fs), fs) && Stable(old(fs), fs) && at == fs && trace == old(trace)
      ensures fails ==> faults
      ensures calm ==> fs == old(fs) && !lost
    {
      Interfere();
      lost, fails := *, *;
      lost, fails := lost && !calm, fails && faults;
    }

    method Exists(p: Path) returns (r: Run<bool>)
      requires Valid()
      modifies this
      ensures calm ==> fs == old(fs) && r == Done(At(fs, p).Some?)
      ensures Shields(old(fs), fs) && Grows(old(fs), fs)
      ensures Valid() && Rely(old(fs), fs) && Stable(old(fs), fs) && trace == old(trace) && at == fs
      ensures r.Done? ==> (r.value <==> At(fs, p).Some?)
      ensures r.Threw? ==> faults
    {
      var lost, fails := Call();
      if lost { return Crash; }
      if fails { return Threw(FailedCode); }
      return Done(At(fs, p).Some?);
    }

    method DirExists(d: Dir, finished: bool) returns (r: Run<bool>)
      requires Valid()
      modifies this
      ensures calm ==> fs == old(fs) && r == Done(d in fs.caps && fs.caps[d].Finished? == finished)
      ensures Shields(old(fs), fs) && Grows(old(fs), fs)
      ensures Valid() && Rely(old(fs), fs) && Stable(old(fs), fs) && trace == old(trace) && at == fs
      ensures r.Done? ==> (r.value <==> d in fs.caps && fs.caps[d].Finished? == finished)
      ensures r.Threw? ==> faults
    {
      var lost, fails := Call();
      if lost { return Crash; }
      if fails { return Threw(FailedCode); }
      return Done(d in fs.caps && fs.caps[d].Finished? == finished);
    }

    method Mkdir(d: Dir) returns (r: Run<Errno>)
      requires Valid() && (d in fs.caps ==> fs.caps[d].Open?)
      modifies this
      ensures calm ==> at == old(fs) && r == Done(if d in at.caps then Eexist else Ok)
      ensures ShutBut(old(fs), fs, d)
      ensures Shields(old(fs), fs) && Grows(old(fs), fs)
      ensures Valid() && Rely(old(fs), at) && Stable(old(fs), at) && trace == old(trace) && !r.Threw?
      ensures r == Done(Ok) ==> d !in at.caps && fs == WithCap(at, d, Open(None, None))
      ensures r != Done(Ok) ==> fs == at
      ensures r == Done(Eexist) ==> d in fs.caps
      ensures r != Done(Enoent)
    {
      var lost, fails := Call();
      if lost { return Crash; }
      if fails { return Done(Eio); }
      if d in fs.caps { return Done(Eexist); }
      fs := WithCap(fs, d, Open(None, None));
      SlotsKeepValid(at, fs, d);
      SlotsGrow(at, fs, d);
      KeepCustody(at, fs, trace, trace);
      return Done(Ok);
    }

    /** Removes the capture directory, or its `.released` form, when it is empty. */
    method Rmdir(d: Dir, finished: bool) returns (r: Run<Errno>)
      requires Valid()
      modifies this
      ensures calm ==> at == old(fs) && r == Done(
        if d !in at.caps || at.caps[d].Finished? != finished then Enoent
        else if at.caps[d] == (if finished then Finished(None) else Open(None, None)) then Ok else Eexist)
      ensures ShutBut(old(fs), fs, d)
      ensures Shields(old(fs), fs) && Grows(old(fs), fs)
      ensures Valid() && Rely(old(fs), at) && Stable(old(fs), at) && trace == old(trace) && !r.Threw?
      ensures r != Done(Ok) ==> fs == at
      ensures r == Done(Ok) ==>
        && d in at.caps && at.caps[d] == (if finished then Finished(None) else Open(None, None))
        && fs == at.(caps := at.caps - {d})
    {
      var lost, fails := Call();
      if lost { return Crash; }
      if fails { return Done(Eio); }
      if d !in fs.caps || fs.caps[d].Finished? != finished { return Done(Enoent); }
      if fs.caps[d] != (if finished then Finished(None) else Open(None, None)) { return Done(Eexist); }
      fs := fs.(caps := fs.caps - {d});
      SlotsKeepValid(at, fs, d);
      SlotsGrow(at, fs, d);
      KeepCustody(at, fs, trace, trace);
      return Done(Ok);
    }

    /** `link(captured, release)`. */
    method LinkRelease(d: Dir) returns (r: Run<Errno>)
      requires Valid()
      modifies this
      ensures calm ==> at == old(fs) && r == Done(
        if CapturedIn(at, d).None? then Enoent else if ReleaseIn(at, d).Some? then Eexist else Ok)
      ensures ShutBut(old(fs), fs, d)
      ensures Shields(old(fs), fs) && Grows(old(fs), fs)
      ensures Valid() && Rely(old(fs), at) && Stable(old(fs), at) && trace == old(trace) && !r.Threw?
      ensures r != Done(Ok) ==> fs == at
      ensures r == Done(Ok) ==>
        CapturedIn(at, d).Some? && ReleaseIn(at, d).None? && fs == SetRelease(at, d, CapturedIn(at, d))
      ensures r == Done(Enoent) ==> CapturedIn(fs, d).None?
      ensures r == Done(Eexist) ==> ReleaseIn(fs, d).Some?
    {
      var lost, fails := Call();
      if lost { return Crash; }
      if fails { return Done(Eio); }
      if CapturedIn(fs, d).None? { return Done(Enoent); }
      if ReleaseIn(fs, d).Some? { return Done(Eexist); }
      AtIsAllocated(fs, CapturedFile(d));
      fs := SetRelease(fs, d, CapturedIn(fs, d));
      SlotsKeepValid(at, fs, d);
      SlotsGrow(at, fs, d);
      KeepCustody(at, fs, trace, trace);
      return Done(Ok);
    }

    /** `link(release, captured)`. */
    method LinkCaptured(d: Dir) returns (r: Run<Errno>)
      requires Valid()
      modifies this
      ensures calm ==> at == old(fs) && r == Done(
        if ReleaseIn(at, d).None? then Enoent else if CapturedIn(at, d).Some? then Eexist else Ok)
      ensures ShutBut(old(fs), fs, d)
      ensures Shields(old(fs), fs) && Grows(old(fs), fs)
      ensures Valid() && Rely(old(fs), at) && Stable(old(fs), at) && trace == old(trace) && !r.Threw?
      ensures r != Done(Ok) ==> fs == at
      ensures r == Done(Ok) ==>
        ReleaseIn(at, d).Some? && CapturedIn(at, d).None? && fs == SetCaptured(at, d, ReleaseIn(at, d))
    {
      var lost, fails := Call();
      if lost { return Crash; }
      if fails { return Done(Eio); }
      if ReleaseIn(fs, d).None? { return Done(Enoent); }
      if CapturedIn(fs, d).Some? { return Done(Eexist); }
      AtIsAllocated(fs, ReleaseFile(d));
      fs := SetCaptured(fs, d, ReleaseIn(fs, d));
      SlotsKeepValid(at, fs, d);
      SlotsGrow(at, fs, d);
      KeepCustody(at, fs, trace, trace);
      return Done(Ok);
    }

    /** `rename(release, captured)` over a missing `captured`. */
    method RenameRelease(d: Dir) returns (r: Run<Errno>)
      requires Valid() && CapturedIn(fs, d).None?
      modifies this
      ensures calm ==> at == old(fs) && r == Done(if ReleaseIn(at, d).None? then Enoent else Ok)
      ensures ShutBut(old(fs), fs, d)
      ensures Shields(old(fs), fs) && Grows(old(fs), fs)
      ensures Valid() && Rely(old(fs), at) && Stable(old(fs), at) && trace == old(trace) && !r.Threw?
      ensures r != Done(Ok) ==> fs == at
      ensures r == Done(Ok) ==> ReleaseIn(at, d).Some? && fs == WithCap(at, d, Open(ReleaseIn(at, d), None))
    {
      var lost, fails := Call();
      if lost { return Crash; }
      if fails { return Done(Eio); }
      if ReleaseIn(fs, d).None? { return Done(Enoent); }
      AtIsAllocated(fs, ReleaseFile(d));
      fs := WithCap(fs, d, Open(ReleaseIn(fs, d), None));
      SlotsKeepValid(at, fs, d);
      SlotsGrow(at, fs, d);
      KeepCustody(at, fs, trace, trace);
      return Done(Ok);
    }

    /** `rm(captured)`: never the last name of a file the Host answers for. */
    method RmCaptured(d: Dir) returns (r: Run<Errno>)
      requires Valid()
      requires d.place.AtPublic? && CapturedIn(fs, d).Some? && (d, CapturedIn(fs, d).value) in Held(trace) ==>
        ReleaseIn(fs, d) == CapturedIn(fs, d)
      modifies this
      ensures calm ==> at == old(fs) && r == Done(if CapturedIn(at, d).None? then Enoent else Ok)
      ensures ShutBut(old(fs), fs, d)
      ensures Shields(old(fs), fs) && Grows(old(fs), fs)
      ensures Valid() && Rely(old(fs), at) && Stable(old(fs), at) && trace == old(trace) && !r.Threw?
      ensures r != Done(Ok) ==> fs == at
      ensures r == Done(Ok) ==> CapturedIn(at, d).Some? && fs == SetCaptured(at, d, None)
      ensures r == Done(Enoent) ==> CapturedIn(fs, d).None?
      ensures r == Done(Eio) ==> faults
      ensures r != Done(Eexist)
    {
      var lost, fails := Call();
      if lost { return Crash; }
      if fails { return Done(Eio); }
      if CapturedIn(fs, d).None? { return Done(Enoent); }
      if ReleaseIn(fs, d).Some? { AtIsAllocated(fs, ReleaseFile(d)); }
      fs := SetCaptured(fs, d, None);
      SlotsKeepValid(at, fs, d);
      SlotsGrow(at, fs, d);
      KeepCustody(at, fs, trace, trace);
      return Done(Ok);
    }

    /** `rm(release)`: likewise. */
    method RmRelease(d: Dir) returns (r: Run<Errno>)
      requires Valid()
      requires d.place.AtPublic? && ReleaseIn(fs, d).Some? && (d, ReleaseIn(fs, d).value) in Held(trace) ==>
        CapturedIn(fs, d) == ReleaseIn(fs, d)
      modifies this
      ensures calm ==> at == old(fs) && r == Done(if ReleaseIn(at, d).None? then Enoent else Ok)
      ensures ShutBut(old(fs), fs, d)
      ensures Shields(old(fs), fs) && Grows(old(fs), fs)
      ensures Valid() && Rely(old(fs), at) && Stable(old(fs), at) && trace == old(trace) && !r.Threw?
      ensures r != Done(Ok) ==> fs == at
      ensures r == Done(Ok) ==> ReleaseIn(at, d).Some? && fs == SetRelease(at, d, None)
      ensures r != Done(Eexist)
    {
      var lost, fails := Call();
      if lost { return Crash; }
      if fails { return Done(Eio); }
      if ReleaseIn(fs, d).None? { return Done(Enoent); }
      if CapturedIn(fs, d).Some? { AtIsAllocated(fs, CapturedFile(d)); }
      fs := SetRelease(fs, d, None);
      SlotsKeepValid(at, fs, d);
      SlotsGrow(at, fs, d);
      KeepCustody(at, fs, trace, trace);
      return Done(Ok);
    }

    method RmFinished(d: Dir) returns (r: Run<Errno>)
      requires Valid()
      modifies this
      ensures calm ==> at == old(fs) && r == Done(if At(at, FinishedFile(d)).None? then Enoent else Ok)
      ensures ShutBut(old(fs), fs, d)
      ensures Shields(old(fs), fs) && Grows(old(fs), fs)
      ensures Valid() && Rely(old(fs), at) && Stable(old(fs), at) && trace == old(trace) && !r.Threw?
      ensures r != Done(Ok) ==> fs == at
      ensures r == Done(Ok) ==> At(at, FinishedFile(d)).Some? && fs == WithCap(at, d, Finished(None))
    {
      var lost, fails := Call();
      if lost { return Crash; }
      if fails { return Done(Eio); }
      if At(fs, FinishedFile(d)).None? { return Done(Enoent); }
      fs := WithCap(fs, d, Finished(None));
      SlotsKeepValid(at, fs, d);
      SlotsGrow(at, fs, d);
      KeepCustody(at, fs, trace, trace);
      return Done(Ok);
    }

    method RmTemp(id: Id) returns (r: Run<Errno>)
      requires Valid()
      modifies this
      ensures calm ==> at == old(fs) && r == Done(if id in at.temps then Ok else Enoent)
      ensures Shields(old(fs), fs) && Grows(old(fs), fs)
      ensures Valid() && Rely(old(fs), at) && Stable(old(fs), at) && trace == old(trace) && !r.Threw?
      ensures r != Done(Ok) ==> fs == at
      ensures ShutKept(old(fs), fs)
      ensures r == Done(Ok) ==> id in at.temps && fs == at.(temps := at.temps - {id})
    {
      var lost, fails := Call();
      if lost { return Crash; }
      if fails { return Done(Eio); }
      if id !in fs.temps { return Done(Enoent); }
      fs := fs.(temps := fs.temps - {id});
      SlotsSame(at, fs);
      KeepCustody(at, fs, trace, trace);
      return Done(Ok);
    }

    static lemma SlotsSame(a: Fs, b: Fs)
      requires b.names == a.names && b.caps == a.caps && b.data == a.data && b.open == a.open
      ensures Grows(a, b) && ShutKept(a, b)
    {
      forall i | Secluded(a, i) ensures Secluded(b, i) {
        forall d ensures !Named(b, d, i) { assert !Named(a, d, i); }
      }
      forall d, i | Shut(a, d, i) ensures Shut(b, d, i) {
        forall e | Named(b, e, i) ensures e == d { assert Named(a, e, i); }
      }
    }

    /** `link(captured, path)`: gives the file its base name back unless that name is taken. */
    method LinkBase(d: Dir) returns (r: Run<Errno>)
      requires Valid()
      modifies this
      ensures calm ==> at == old(fs) && r == Done(
        if CapturedIn(at, d).None? then Enoent else if At(at, BasePath(d)).Some? then Eexist else Ok)
      ensures ShutBut(old(fs), fs, d)
      ensures Grows(old(fs), fs)
      ensures Valid() && Rely(old(fs), at) && Stable(old(fs), at) && !r.Threw?
      ensures r != Done(Ok) ==> fs == at && trace == old(trace)
      ensures r == Done(Ok) ==>
        && CapturedIn(at, d).Some? && At(at, BasePath(d)).None?
        && CapturedIn(at, d).value in at.data
        && fs == SetBase(at, d, CapturedIn(at, d).value)
        && trace == old(trace) + LinkEvents(at, d)
      ensures r == Done(Enoent) ==> CapturedIn(fs, d).None?
      ensures r == Done(Eexist) ==> At(fs, BasePath(d)).Some?
      ensures r == Done(Eio) ==> faults
    {
      var lost, fails := Call();
      if lost { return Crash; }
      if fails { return Done(Eio); }
      if CapturedIn(fs, d).None? { return Done(Enoent); }
      if At(fs, BasePath(d)).Some? { return Done(Eexist); }
      AtIsAllocated(fs, CapturedFile(d));
      LinkKeepsValid(fs, d, trace);
      trace := trace + LinkEvents(fs, d);
      fs := SetBase(fs, d, CapturedIn(fs, d).value);
      return Done(Ok);
    }

    static function LinkEvents(fs: Fs, d: Dir): seq<Event>
      requires CapturedIn(fs, d).Some? && CapturedIn(fs, d).value in fs.data
    {
      var i := CapturedIn(fs, d).value;
      if d.place.AtPublic? then [Put(i, fs.data[i])] else []
    }

    static lemma LinkKeepsValid(fs: Fs, d: Dir, trace: seq<Event>)
      requires FileWorld.Valid(fs, trace) && CapturedIn(fs, d).Some? && CapturedIn(fs, d).value in fs.data
      ensures FileWorld.Valid(SetBase(fs, d, CapturedIn(fs, d).value), trace + LinkEvents(fs, d))
      ensures Grows(fs, SetBase(fs, d, CapturedIn(fs, d).value)) && ShutBut(fs, SetBase(fs, d, CapturedIn(fs, d).value), d)
    {
      var i := CapturedIn(fs, d).value;
      var after := SetBase(fs, d, i);
      ReturnStep(trace, Put(i, fs.data[i]));
      forall j | Secluded(fs, j) ensures Secluded(after, j) {
        forall e ensures !Named(after, e, j) { assert !Named(fs, e, j); }
        assert !Named(fs, d, j);
        BaseShows(fs, d, i, j);
      }
      forall own, j | own != d && Shut(fs, own, j) ensures Shut(after, own, j) {
        forall e | Named(after, e, j) ensures e == own { assert Named(fs, e, j); }
        assert Named(fs, d, j) ==> d == own;
        BaseShows(fs, d, i, j);
      }
      BaseStaysWellFormed(fs, d, i);
      if d.place.AtTemp? { assert trace + LinkEvents(fs, d) == trace; }
      KeepCustody(fs, after, trace, trace + LinkEvents(fs, d));
    }

    /** `link(temporaryPath, path)`: publishes a candidate unless the public name is taken. */
    method Publish(id: Id) returns (r: Run<Errno>)
      requires Valid()
      modifies this
      ensures calm ==> at == old(fs) && r == Done(
        if id !in at.temps then Enoent else if Public in at.names then Eexist else Ok)
      ensures Valid() && Rely(old(fs), at) && Stable(old(fs), at) && !r.Threw?
      ensures r != Done(Ok) ==> fs == at && trace == old(trace)
      ensures r == Done(Ok) ==>
        && id in at.temps && at.temps[id] in at.data && Public !in at.names
        && fs == at.(names := at.names[Public := at.temps[id]])
        && trace == old(trace) + [Published(id, at.temps[id], at.data[at.temps[id]])]
      ensures r == Done(Eexist) ==> Public in fs.names
      ensures forall i: Inode :: Secluded(old(fs), i) && Lookup(fs.temps, id) != Some(i) ==> Secluded(fs, i)
      ensures forall d, i: Inode :: Shut(old(fs), d, i) && Lookup(fs.temps, id) != Some(i) ==>
        Shut(fs, d, i) && fs.data[i] == old(fs).data[i]
    {
      var lost, fails := Call();
      if lost { return Crash; }
      if fails { return Done(Eio); }
      if id !in fs.temps { return Done(Enoent); }
      if Public in fs.names { return Done(Eexist); }
      var i := fs.temps[id];
      assert i in fs.temps.Values;
      ReturnStep(trace, Published(id, i, fs.data[i]));
      trace := trace + [Published(id, i, fs.data[i])];
      fs := fs.(names := fs.names[Public := i]);
      KeepCustody(at, fs, old(trace), trace);
      PublishShows(at, fs, id);
      return Done(Ok);
    }

    static lemma PublishShows(a: Fs, b: Fs, id: Id)
      requires id in a.temps && b == a.(names := a.names[Public := a.temps[id]])
      ensures forall i :: Secluded(a, i) && a.temps[id] != i ==> Secluded(b, i)
      ensures forall d, i :: Shut(a, d, i) && a.temps[id] != i ==> Shut(b, d, i)
    {
      forall i | Secluded(a, i) && a.temps[id] != i ensures Secluded(b, i) {
        BaseShows(a, Dir(AtPublic, Owning(id)), a.temps[id], i);
        forall e ensures !Named(b, e, i) { assert !Named(a, e, i); }
      }
      forall d, i | Shut(a, d, i) && a.temps[id] != i ensures Shut(b, d, i) {
        BaseShows(a, Dir(AtPublic, Owning(id)), a.temps[id], i);
        forall e | Named(b, e, i) ensures e == d { assert Named(a, e, i); }
      }
    }

    /** `rename(path, capturedPath)`: the file leaves its base name for the capture. */
    method Take(d: Dir) returns (r: Run<Errno>)
      requires Valid() && d in fs.caps && fs.caps[d].Open? && CapturedIn(fs, d).None?
      modifies this
      ensures calm ==> at == old(fs) && r == Done(if At(at, BasePath(d)).None? then Enoent else Ok)
      ensures ShutBut(old(fs), fs, d)
      ensures Shields(old(fs), fs) && Grows(old(fs), fs)
      ensures Valid() && Rely(old(fs), at) && Stable(old(fs), at) && !r.Threw?
      ensures r != Done(Ok) ==> fs == at && trace == old(trace) + if r == Done(Enoent) then AbsentEvents(d) else []
      ensures r == Done(Ok) ==>
        && At(at, BasePath(d)).Some? && fs == TakeFs(at, d)
        && trace == old(trace) + TakeEvents(at, d)
        && Hides(at, fs)
      ensures r == Done(Enoent) ==> At(fs, BasePath(d)).None?
      ensures r == Done(Eio) ==> faults
      ensures r != Done(Eexist)
    {
      var lost, fails := Call();
      if lost { return Crash; }
      if fails { return Done(Eio); }
      if At(fs, BasePath(d)).None? {
        LookStep(fs, trace, Absent(d));
        if d.place.AtTemp? { assert trace + AbsentEvents(d) == trace; }
        trace := trace + AbsentEvents(d);
        return Done(Enoent);
      }
      TakeKeepsValid(fs, d, trace);
      trace := trace + TakeEvents(fs, d);
      fs := TakeFs(fs, d);
      return Done(Ok);
    }

    /**
     `rename(capturedPath, path)`: replaces whatever has the base name by then. Onto
     another name of the same file it does nothing, which is reported as a failure
     here because the caller cannot go on from it either.
     */
    method Give(d: Dir) returns (r: Run<Errno>)
      requires Valid() && (faults || CapturedIn(fs, d).None?)
      modifies this
      ensures ShutBut(old(fs), fs, d)
      ensures Grows(old(fs), fs)
      ensures Valid() && Rely(old(fs), at) && Stable(old(fs), at) && !r.Threw?
      ensures r != Done(Ok) ==> fs == at && trace == old(trace)
      ensures r == Done(Ok) ==>
        && CapturedIn(at, d).Some? && CapturedIn(at, d).value in at.data
        && fs == GiveFs(at, d) && trace == old(trace) + GiveEvents(at, d)
    {
      var lost, fails := Call();
      if lost { return Crash; }
      if fails { return Done(Eio); }
      if CapturedIn(fs, d).None? { return Done(Enoent); }
      if At(fs, BasePath(d)) == CapturedIn(fs, d) { return Done(Eexist); }
      AtIsAllocated(fs, CapturedFile(d));
      GiveKeepsValid(fs, d, trace);
      trace := trace + GiveEvents(fs, d);
      fs := GiveFs(fs, d);
      return Done(Ok);
    }

    /**
     `rename(captureDirectory, captureDirectory.released)`: the point of no return. The
     last things the Host did are the probe of the file's descriptors and the reading
     of its text.
     */
    method CommitDir(d: Dir) returns (r: Run<Errno>)
      requires Valid() && CapturedIn(fs, d).None?
      requires ReleaseIn(fs, d).Some? ==> Checked(fs, trace, d, ReleaseIn(fs, d).value)
      modifies this
      ensures calm ==> at == old(fs) && r == Done(if ReleaseIn(at, d).None? then Enoent else Ok)
      ensures ShutBut(old(fs), fs, d)
      ensures Shields(old(fs), fs) && Grows(old(fs), fs)
      ensures Valid() && Rely(old(fs), at) && Stable(old(fs), at) && !r.Threw?
      ensures r != Done(Ok) ==> fs == at && trace == old(trace)
      ensures r == Done(Ok) ==>
        && ReleaseIn(at, d).Some? && ReleaseIn(at, d).value in at.data
        && fs == CommitFs(at, d)
        && trace == old(trace) + [DropEvent(at, d)]
    {
      var lost, fails := Call();
      if lost { return Crash; }
      if fails { return Done(Eio); }
      if ReleaseIn(fs, d).None? { return Done(Enoent); }
      AtIsAllocated(fs, ReleaseFile(d));
      ghost var e := DropEvent(fs, d);
      CheckedJustifies(fs, trace, d);
      CommitKeepsValid(fs, d, trace, e);
      trace := trace + [e];
      fs := CommitFs(fs, d);
      return Done(Ok);
    }

    /** The file was just probed and read as it had been before; unless it was public at the probe, it is sealed with that text. */
    static ghost predicate Checked(fs: Fs, trace: seq<Event>, d: Dir, i: Inode) {
      var n := |trace|;
      && n >= 2 && trace[n - 2].Probed? && trace[n - 2].inode == i
      && trace[n - 1].Looked? && trace[n - 1].dir == d && trace[n - 1].inode == i
      && trace[n - 1] in trace[..n - 2]
      && (!trace[n - 2].public ==> Sealed(fs, i) && fs.data[i] == trace[n - 1].text)
    }

    static lemma CheckedJustifies(fs: Fs, trace: seq<Event>, d: Dir)
      requires ReleaseIn(fs, d).Some? && ReleaseIn(fs, d).value in fs.data && Checked(fs, trace, d, ReleaseIn(fs, d).value)
      ensures Justified(trace + [DropEvent(fs, d)], |trace|)
    {
      var longer, n := trace + [DropEvent(fs, d)], |trace|;
      assert longer[..n - 2] == trace[..n - 2];
      assert longer[n - 1] == trace[n - 1] && longer[n - 2] == trace[n - 2];
    }

    static ghost function DropEvent(fs: Fs, d: Dir): Event
      requires ReleaseIn(fs, d).Some? && ReleaseIn(fs, d).value in fs.data
    {
      var i := ReleaseIn(fs, d).value;
      Dropped(d, i, fs.data[i], Sealed(fs, i))
    }

    static lemma ValidRelies(fs: Fs, trace: seq<Event>)
      requires FileWorld.Valid(fs, trace)
      ensures Rely(fs, fs) && Stable(fs, fs)
    {
      RelyRefl(fs);
    }

    /** One more call later, the same facts hold of the state since the first one. */
    static lemma Later(start: Fs, s: Fs, fs: Fs)
      requires Rely(start, s) && Rely(s, fs) && Stable(start, s) && Stable(s, fs)
      ensures Rely(start, fs) && Rely(fs, fs) && Stable(start, fs) && Stable(fs, fs) && Shields(start, fs)
      ensures Grows(start, fs) && ShutKept(start, fs)
    {
      RelyTrans(start, s, fs);
      RelyRefl(fs);
      assert forall i :: Sealed(start, i) && Visible(fs, i) ==> Visible(start, i);
    }

    static lemma AllocatedLater(s: Fs, fs: Fs, trace: seq<Event>, p: Path)
      requires FileWorld.Valid(s, trace) && Stable(s, fs)
      ensures At(s, p).Some? ==> At(s, p).value in s.data && At(s, p).value in fs.data
    {
      if At(s, p).Some? { AtIsAllocated(s, p); }
    }

    static lemma SoleLater(s: Fs, fs: Fs, d: Dir, i: Inode)
      requires Sole(s, d, i) && Rely(s, fs) && Stable(s, fs) && i in s.data
      ensures Sole(fs, d, i)
    {
    }

    /** Read by name with the checks before and after: four separate calls. */
    method ReadFile(p: Path, maximumLinks: nat) returns (r: Run<Reading>)
      requires Valid()
      modifies this
      ensures calm ==> fs == old(fs) && at == old(fs) && r == Reads(fs, p, maximumLinks)
      ensures Shields(old(fs), fs) && Grows(old(fs), fs)
      ensures Valid() && Rely(old(fs), at) && Stable(old(fs), at) && Rely(at, fs) && Stable(at, fs) && Stable(old(fs), fs)
      ensures p != PublicFile ==> trace == old(trace)
      ensures trace == old(trace) || exists i, text :: trace == old(trace) + [Saw(i, text)]
      ensures r.Done? && r.value.Found? ==>
        && r.value.inode in at.data && at.data[r.value.inode] == r.value.text
        && (p == PublicFile ==> trace == old(trace) + [Saw(r.value.inode, r.value.text)])
        && At(fs, p) == Some(r.value.inode)
        && (maximumLinks == 1 && (p.CapturedFile? || p.ReleaseFile?) ==> Sole(fs, p.dir, r.value.inode))
      ensures p != PublicFile && r == Done(Missing) ==> At(fs, p).None?
    {
      hide Rely, FileWorld.Valid, Links, Sole, At, Stable, Shields, Sealed, Grows, ShutKept;
      ghost var start := fs;
      ghost var only := maximumLinks == 1 && (p.CapturedFile? || p.ReleaseFile?);
      var lost, fails := Call();
      Later(start, fs, fs) by { ValidRelies(fs, trace); }
      if lost { return Crash; }
      if fails { return Threw(FailedCode); }
      if At(fs, p).None? { return Done(Missing); }
      var listed := At(fs, p).value;

      ghost var s := fs;
      lost, fails := Call();
      Later(start, s, fs);
      if lost { return Crash; }
      if fails { return Threw(FailedCode); }
      if At(fs, p).None? { return Done(Missing); }
      var i := At(fs, p).value;
      if Links(fs, i) > maximumLinks || i != listed { return Threw(CollisionCode); }
      if only { OneLinkIsSole(fs, p, i); }

      s := fs;
      lost, fails := Call();
      Later(start, s, fs);
      AllocatedLater(s, fs, trace, p);
      if only { SoleLater(s, fs, p.dir, i); }
      if lost { return Crash; }
      if fails { return Threw(FailedCode); }
      var text := fs.data[i];
      if p == PublicFile {
        SawKeepsValid(fs, trace, i, text);
        trace := trace + [Saw(i, text)];
      }

      s := fs;
      lost, fails := Call();
      at := s;
      Later(start, s, fs);
      AllocatedLater(s, fs, trace, p);
      if only { SoleLater(s, fs, p.dir, i); }
      if lost { return Crash; }
      if fails { return Threw(FailedCode); }
      if At(fs, p).None? { return Done(Missing); }
      if At(fs, p).value != i { return Threw(CollisionCode); }
      return Done(Found(i, text));
    }

    /** The reading of a captured file: what was read is recorded. */
    method Look(p: Path, maximumLinks: nat) returns (r: Run<Reading>)
      requires Valid() && (p.CapturedFile? || p.ReleaseFile?)
      modifies this
      ensures calm ==> fs == old(fs) && at == old(fs) && r == Reads(fs, p, maximumLinks)
      ensures Shields(old(fs), fs) && Grows(old(fs), fs)
      ensures Valid() && Rely(old(fs), at) && Stable(old(fs), at) && Rely(at, fs) && Stable(at, fs) && Stable(old(fs), fs)
      ensures r.Done? && r.value.Found? ==>
        && trace == old(trace) + [Looked(p.dir, r.value.inode, r.value.text)]
        && r.value.inode in at.data && at.data[r.value.inode] == r.value.text
        && At(fs, p) == Some(r.value.inode)
        && (maximumLinks == 1 ==> Sole(fs, p.dir, r.value.inode))
      ensures r == Done(Missing) ==> At(fs, p).None?
      ensures !(r.Done? && r.value.Found?) ==> trace == old(trace)
    {
      r := ReadFile(p, maximumLinks);
      if r.Done? && r.value.Found? {
        LookStep(fs, trace, Looked(p.dir, r.value.inode, r.value.text));
        trace := trace + [Looked(p.dir, r.value.inode, r.value.text)];
      }
    }

    /**
     Polls until no other process has the captured inode open, or gives up. A
     success is recorded, with whether the file had a public name at that instant.
     */
    method AwaitRelease(identity: Inode) returns (r: Run<bool>)
      requires Valid()
      modifies this
      ensures calm ==> fs == old(fs) && (r == Done(true) || (r.Threw? && identity in fs.open))
      ensures Shields(old(fs), fs) && Grows(old(fs), fs)
      ensures Valid() && Rely(old(fs), fs) && Stable(old(fs), fs) && at == fs
      ensures r.Done? ==> identity !in fs.open && trace == old(trace) + [Probed(identity, Visible(fs, identity))]
      ensures !r.Done? ==> trace == old(trace)
    {
      Interfere();
      var polls: nat := *;
      while polls > 0 && identity in fs.open
        invariant Valid() && Rely(old(fs), fs) && trace == old(trace) && at == fs && (calm ==> fs == old(fs))
      {
        ghost var s := fs;
        Interfere();
        RelyTrans(old(fs), s, fs);
        polls := polls - 1;
      }
      RelyStable(old(fs), fs);
      var lost, fails := *, *;
      if lost && !calm { return Crash; }
      if (fails && faults) || identity in fs.open { return Threw(FailedCode); }
      LookStep(fs, trace, Probed(identity, Visible(fs, identity)));
      trace := trace + [Probed(identity, Visible(fs, identity))];
      return Done(true);
    }

    method FreshInode() returns (i: Inode)
      ensures i !in fs.data
    {
      var keys := fs.data.Keys;
      i := 0;
      while keys != {}
        invariant keys <= fs.data.Keys
        invariant forall k :: k in fs.data && k !in keys ==> k < i
        decreases keys
      {
        var k :| k in keys;
        if k >= i { i := k + 1; }
        keys := keys - {k};
      }
    }

    /** `open(temporaryPath, "wx")` and the write: a crash may leave any part of the text. */
    method CreateTemp(id: Id, text: Text) returns (r: Run<Inode>)
      requires Valid()
      modifies this
      ensures calm && id !in old(fs).temps ==> r.Done? && fs == CreateFs(old(fs), TempFile(id), r.value, text)
      ensures Shields(old(fs), fs) && Grows(old(fs), fs)
      ensures Valid() && trace == old(trace)
      ensures Hides(old(fs), fs) && ShutKept(old(fs), fs)
      ensures fs.caps == old(fs).caps && fs.temps - {id} == old(fs).temps - {id}
      ensures id in old(fs).temps ==> fs.temps == old(fs).temps
      ensures id in fs.temps ==> id in old(fs).temps || Secluded(fs, fs.temps[id])
      ensures r.Done? ==>
        && id !in old(fs).temps && id in fs.temps && fs.temps[id] == r.value
        && r.value !in old(fs).data && Sealed(fs, r.value) && Secluded(fs, r.value) && fs.data[r.value] == text
    {
      hide Unclobbered, FileWorld.Valid, Secluded, WellFormed;
      var lost, fails := Call();
      if lost { return Crash; }
      if fails { return Threw(FailedCode); }
      if id in fs.temps { return Threw(CollisionCode); }
      var i := FreshInode();
      var fate: nat := *;
      var written := if 0 <= fate < |text| && !calm then text[..fate] else text;
      CreateKeepsValid(fs, TempFile(id), i, written, trace);
      fs := CreateFs(fs, TempFile(id), i, written);
      if |written| < |text| {
        var dead: bool := *;
        if dead { return Crash; }
        var removed := RmTemp(id);
        return if removed.Crash? then Crash else Threw(FailedCode);
      }
      return Done(i);
    }

    /** `open(path, "a+")`: creates an empty public file when there is none. */
    method OpenAppend() returns (r: Run<Inode>)
      requires Valid()
      modifies this
      ensures calm ==> at == old(fs) && r.Done?
      ensures Shields(old(fs), fs) && Grows(old(fs), fs)
      ensures Valid() && Hides(old(fs), fs) && ShutKept(old(fs), fs) && Rely(old(fs), at) && Stable(old(fs), at)
      ensures fs.caps == old(fs).caps && fs.temps == old(fs).temps
      ensures !r.Done? ==> fs == at && trace == old(trace)
      ensures r.Done? && Public in at.names ==>
        r.value == at.names[Public] && r.value in at.data && fs == at && trace == old(trace)
      ensures r.Done? && Public !in at.names ==>
        && r.value !in at.data && fs == CreateFs(at, PublicFile, r.value, "")
        && trace == old(trace) + [Made(r.value)]
    {
      var lost, fails := Call();
      if lost { return Crash; }
      if fails { return Threw(FailedCode); }
      if Public in fs.names {
        assert fs.names[Public] in fs.names.Values;
        return Done(fs.names[Public]);
      }
      var i := FreshInode();
      CreateKeepsValid(fs, PublicFile, i, "", trace);
      trace := trace + [Made(i)];
      fs := CreateFs(fs, PublicFile, i, "");
      return Done(i);
    }

    /** Reads through a descriptor the Host just opened. */
    method ReadOpened(i: Inode) returns (r: Run<Text>)
      requires Valid() && i in fs.data
      modifies this
      ensures calm ==> fs == old(fs) && r == Done(fs.data[i])
      ensures Shields(old(fs), fs) && Grows(old(fs), fs)
      ensures Valid() && Rely(old(fs), fs) && Stable(old(fs), fs) && trace == old(trace)
    {
      var lost, fails := Call();
      if lost { return Crash; }
      if fails { return Threw(FailedCode); }
      return Done(fs.data[i]);
    }
  }
}
