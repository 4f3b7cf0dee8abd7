/**
 src/production-provider-preparation.mjs as a client of captures: a provider
 selector is deleted only when it is the recorded file with the exact text.
 */
module ProviderPreparation {
  import opened Wrappers
  import opened ExclusionText
  import opened FileWorld
  import opened HostCalls
  import opened PreparationFile
  import opened GitExclusion

  function ManifestDir(id: Id): Dir {
    Dir(AtPublic, Owning(id))
  }

  /**
   Every selector given up since `before` is the expected file: its descriptors were
   probed, it was read once more with exactly the manifest text, and unless it had a
   public name at the probe it had that text, and nobody could write it, when it went.
   */
  ghost predicate OnlyManifestDropped(before: seq<Event>, after: seq<Event>, id: Id, expected: Inode, manifest: Text) {
    && before <= after
    && forall k :: |before| <= k < |after| && after[k].Dropped? && after[k].dir.place.AtPublic? ==>
         ManifestDropped(after, k, id, expected, manifest)
  }

  ghost predicate ManifestDropped(trace: seq<Event>, k: nat, id: Id, expected: Inode, manifest: Text)
    requires k < |trace|
  {
    && k >= 2 && trace[k - 2].Probed? && trace[k - 2].inode == expected
    && trace[k - 1] == Looked(ManifestDir(id), expected, manifest)
    && trace[k].Dropped? && trace[k].dir == ManifestDir(id) && trace[k].inode == expected
    && (!trace[k - 2].public ==> trace[k] == Dropped(ManifestDir(id), expected, manifest, true))
  }

  lemma ManifestDroppedLater(y: seq<Event>, z: seq<Event>, k: nat, id: Id, expected: Inode, manifest: Text)
    requires y <= z && k < |y| && ManifestDropped(y, k, id, expected, manifest)
    ensures ManifestDropped(z, k, id, expected, manifest)
  {
    assert z[k] == y[k] && z[k - 1] == y[k - 1] && z[k - 2] == y[k - 2];
  }

  /** The history goes on without giving up a selector. */
  lemma SelectorsKept(x: seq<Event>, y: seq<Event>, z: seq<Event>, id: Id, expected: Inode, manifest: Text)
    requires OnlyManifestDropped(x, y, id, expected, manifest) && y <= z
    requires forall k :: |y| <= k < |z| ==> !(z[k].Dropped? && z[k].dir.place.AtPublic?)
    ensures OnlyManifestDropped(x, z, id, expected, manifest)
  {
    hide ManifestDropped;
    forall k | |x| <= k < |z| && z[k].Dropped? && z[k].dir.place.AtPublic?
      ensures ManifestDropped(z, k, id, expected, manifest)
    {
      assert z[k] == y[k];
      ManifestDroppedLater(y, z, k, id, expected, manifest);
    }
  }

  lemma NothingDropped(before: seq<Event>, after: seq<Event>, id: Id, expected: Inode, manifest: Text)
    requires OnlyTakes(before, after, ManifestDir(id))
    ensures OnlyManifestDropped(before, after, id, expected, manifest)
  {
  }

  lemma NothingYet(trace: seq<Event>, id: Id, expected: Inode, manifest: Text)
    ensures OnlyManifestDropped(trace, trace, id, expected, manifest)
  {
  }

  lemma ThenReturned(x: seq<Event>, y: seq<Event>, z: seq<Event>, id: Id, expected: Inode, manifest: Text)
    requires OnlyManifestDropped(x, y, id, expected, manifest) && OnlyReturns(y, z)
    ensures OnlyManifestDropped(x, z, id, expected, manifest)
  {
    SelectorsKept(x, y, z, id, expected, manifest);
  }

  /** The inspection of a captured selector: recorded file, manifest text, not tracked, and still so. */
  method Inspected(h: Host, c: Capture, expected: Inode, manifest: Text, tracked: Option<bool>) returns (r: Run<bool>)
    requires h.Valid() && c.Holds(h.fs)
    modifies h
    ensures h.Valid() && Stable(old(h.fs), h.fs) && OnlyLooks(old(h.trace), h.trace, c.dir)
    ensures r.Done? && r.value ==> c.source == manifest && c.inode == expected && tracked == Some(false)
    ensures r.Done? && r.value ==> h.trace == old(h.trace) + [Looked(c.dir, expected, manifest)]
    ensures h.calm && tracked.Some? && old(h.fs.data[c.inode] == c.source && Links(h.fs, c.inode) <= c.maximumLinks) ==>
      r == Done(c.source == manifest && c.inode == expected && !tracked.value) && h.fs == old(h.fs)
  {
    hide Rely, FileWorld.Valid, Secluded, Shut, Links;
    if c.source != manifest || c.inode != expected { return Done(false); }
    if tracked.None? { return Threw(FailedCode); }
    if tracked.value { return Done(false); }
    var again :- Refresh(h, c);
    return Done(again.Found? && again.text == c.source && again.inode == c.inode);
  }

  /** The public file can be captured, and nobody has it open. */
  ghost predicate Selectable(fs: Fs, id: Id) {
    Takable(fs, ManifestDir(id), 2) && fs.names[Public] in fs.data && fs.names[Public] !in fs.open
  }

  /** It is the recorded file with the text of the manifest, and git does not track it. */
  ghost predicate IsStale(fs: Fs, expected: Option<Inode>, manifest: Text, tracked: Option<bool>)
    requires Public in fs.names
  {
    Some(fs.names[Public]) == expected && TextIn(fs, fs.names[Public]) == manifest && tracked == Some(false)
  }

  function WithoutPublic(fs: Fs): Fs {
    fs.(names := fs.names - {Public})
  }

  /** What the capture of a selector gives in an undisturbed world. */
  lemma SelectorTaken(fs: Fs, id: Id, c: Capture)
    requires Selectable(fs, id) && c.inode == fs.names[Public] && c.maximumLinks == 2
    ensures var taken, d := TakenFs(fs, ManifestDir(id)), ManifestDir(id);
      && Releasable(taken, c) && taken.data == fs.data && At(taken, BasePath(d)).None?
      && WithoutCap(taken, d) == WithoutPublic(fs) && SetBase(WithoutCap(taken, d), d, c.inode) == fs
  {
    hide Links;
    var d := ManifestDir(id);
    TakenLinks(fs, d);
    assert TakenFs(fs, d).caps - {d} == fs.caps;
    assert (fs.names - {Public})[Public := c.inode] == fs.names;
  }

  /**
   `removeStaleProductionProviderManifest`. `true`: the file given up was the
   recorded one and its last text, when nobody had it open, was the manifest's.
   `false`: whatever was captured has its public name again. `tracked` is
   the answer of git, if it answered.
   */
  method RemoveStaleManifest(h: Host, id: Id, expected: Option<Inode>, manifest: Text, tracked: Option<bool>)
    returns (r: Run<bool>)
    requires h.Valid()
    modifies h
    ensures h.Valid() && Keeps(old(h.fs), h.fs, ManifestDir(id))
    ensures OnlyManifestDropped(old(h.trace), h.trace, id, expected.GetOr(0), manifest)
    ensures expected.None? ==> r == Done(false) && h.trace == old(h.trace)
    ensures r.Done? && r.value ==>
      expected.Some? && GivenUp(old(h.trace), h.trace, ManifestDir(id), expected.value, manifest)
    ensures r.Done? && !r.value && expected.Some? ==> SlotFile(h.fs, ManifestDir(id)).None?
    ensures r.Done? && !r.value && old(SlotFile(h.fs, ManifestDir(id))).Some? && expected.Some? ==>
      ReturnedSince(old(h.trace), h.trace, old(SlotFile(h.fs, ManifestDir(id))).value)
    ensures h.calm && tracked.Some? && expected.Some? && old(Selectable(h.fs, id)) ==>
      if IsStale(old(h.fs), expected, manifest, tracked) then r == Done(true) && h.fs == old(WithoutPublic(h.fs))
      else r == Done(false) && h.fs == old(h.fs)
    ensures h.calm && old(ManifestDir(id) !in h.fs.caps && Public !in h.fs.names) ==> r == Done(false) && h.fs == old(h.fs)
  {
    hide Rely, FileWorld.Valid, Secluded, Shut, GivenUp, OnlyManifestDropped, Sole, Shields, Keeps, Links, TakenFs,
      WithoutCap, Releasable, WithoutPublic, InspectionEnds;
    KeepsSelf(h.fs, ManifestDir(id));
    if expected.None? {
      NothingYet(h.trace, id, expected.GetOr(0), manifest);
      return Done(false);
    }
    var capturing := CaptureFile(h, ManifestDir(id), 2);
    NothingDropped(old(h.trace), h.trace, id, expected.value, manifest);
    var c :- capturing;
    if c == null { return Done(false); }
    ghost var fs1, trace1 := h.fs, h.trace;
    if h.calm && old(Selectable(h.fs, id)) { SelectorTaken(old(h.fs), id, c); }
    var removed := InspectAndRemove(h, c, expected.value, manifest, tracked);
    KeepsTrans(old(h.fs), fs1, h.fs, ManifestDir(id));
    ghost var fs2, trace2 := h.fs, h.trace;
    InspectedManifest(old(h.trace), trace1, trace2, c, id, expected.value, manifest);
    if removed.Crash? { return Crash; }
    if removed.Done? && removed.value { return removed; }
    r := GiveBack(h, c, removed);
    KeepsTrans(old(h.fs), fs2, h.fs, ManifestDir(id));
    ThenReturned(old(h.trace), trace2, h.trace, id, expected.value, manifest);
    if r.Done? { ReturnedLater(old(h.trace), trace2, h.trace, c.inode); }
  }

  /** What the inspection, and the removal if it came to that, did to the selector. */
  ghost predicate InspectionEnds(before: seq<Event>, after: seq<Event>, d: Dir, active: bool, expected: Inode, manifest: Text) {
    if active then OnlyLooks(before, after, d) else RemovedAs(before, after, d, expected, manifest)
  }

  /** Inspected, probed, read once more as the manifest, and given up with that text unless it was public. */
  ghost predicate RemovedAs(before: seq<Event>, after: seq<Event>, d: Dir, i: Inode, manifest: Text) {
    exists public, text, sealed ::
      && after == before + [Looked(d, i, manifest)] + CheckEvents(d, i, public, manifest) + [Dropped(d, i, text, sealed)]
      && (!public ==> sealed && text == manifest)
  }

  lemma InspectedManifest(x: seq<Event>, y: seq<Event>, z: seq<Event>, c: Capture, id: Id, expected: Inode, manifest: Text)
    requires OnlyManifestDropped(x, y, id, expected, manifest)
    requires InspectionEnds(y, z, ManifestDir(id), c.active, expected, manifest)
    ensures OnlyManifestDropped(x, z, id, expected, manifest) && x <= y <= z
    ensures !c.active ==> GivenUp(x, z, ManifestDir(id), expected, manifest)
  {
    hide Justified;
    if c.active {
      SelectorsKept(x, y, z, id, expected, manifest);
    } else {
      var k := |y| + 3;
      RemovedIsManifest(y, z, id, expected, manifest);
      SelectorsKept(x, y, z[..k], id, expected, manifest);
      forall j | |x| <= j < |z| && z[j].Dropped? && z[j].dir.place.AtPublic?
        ensures ManifestDropped(z, j, id, expected, manifest)
      {
        if j < k { ManifestDroppedLater(z[..k], z, j, id, expected, manifest); }
      }
      assert DropOf(z, k, ManifestDir(id), expected, manifest);
    }
  }

  lemma RemovedIsManifest(y: seq<Event>, z: seq<Event>, id: Id, expected: Inode, manifest: Text)
    requires RemovedAs(y, z, ManifestDir(id), expected, manifest)
    ensures y <= z && |z| == |y| + 4 && ManifestDropped(z, |y| + 3, id, expected, manifest)
    ensures Justified(z, |y| + 3) && forall k :: |y| <= k < |y| + 3 ==> !z[k].Dropped?
  {
    assert z[|y|] == Looked(ManifestDir(id), expected, manifest) && z[..|y| + 1][|y|] == z[|y|];
  }

  /** `removed` stays false or failed unless the inspected file was given up with the manifest text. */
  method InspectAndRemove(h: Host, c: Capture, expected: Inode, manifest: Text, tracked: Option<bool>)
    returns (r: Run<bool>)
    requires h.Valid() && c.Holds(h.fs) && c.current == c.source
    modifies h, c
    ensures h.Valid() && Keeps(old(h.fs), h.fs, c.dir)
    ensures InspectionEnds(old(h.trace), h.trace, c.dir, c.active, expected, manifest)
    ensures !c.active ==> c.inode == expected
    ensures r.Done? && r.value ==> !c.active
    ensures r.Done? && !r.value ==> c.Holds(h.fs)
    ensures h.calm && tracked.Some? && old(c.Holds(h.fs) && h.fs.data[c.inode] == c.source && Releasable(h.fs, c)) ==>
      if c.source == manifest && c.inode == expected && !tracked.value
      then r == Done(true) && h.fs == old(WithoutCap(h.fs, c.dir))
      else r == Done(false) && h.fs == old(h.fs)
  {
    hide Rely, FileWorld.Valid, Secluded, Shut, Keeps, Links, WithoutCap;
    KeepsSelf(h.fs, c.dir);
    var inspecting := Inspected(h, c, expected, manifest, tracked);
    KeepsStable(old(h.fs), old(h.fs), h.fs, c.dir);
    var accepted :- inspecting;
    if !accepted { return Done(false); }
    ghost var fs1, trace1 := h.fs, h.trace;
    ghost var public;
    r, public := Remove(h, c);
    KeepsTrans(old(h.fs), fs1, h.fs, c.dir);
    if !c.active {
      RemovesManifest(old(h.trace), trace1, h.trace, c.dir, c.inode, manifest, fs1);
    }
  }

  lemma RemovesManifest(x: seq<Event>, y: seq<Event>, z: seq<Event>, d: Dir, i: Inode, manifest: Text, start: Fs)
    requires y == x + [Looked(d, i, manifest)] && GivesUp(y, z, d, i, manifest, start)
    ensures RemovedAs(x, z, d, i, manifest)
  {
  }

  /** The file goes back; when that fails the handler tries once more, and the error is reported. */
  method GiveBack(h: Host, c: Capture, removed: Run<bool>) returns (r: Run<bool>)
    requires h.Valid() && !removed.Crash?
    requires removed.Done? ==> c.Holds(h.fs)
    modifies h, c`active
    ensures h.Valid() && Keeps(old(h.fs), h.fs, c.dir) && OnlyReturns(old(h.trace), h.trace)
    ensures r.Done? ==> removed.Done? && !r.value && SlotFile(h.fs, c.dir).None?
    ensures r.Done? && c.dir.place.AtPublic? ==> ReturnedSince(old(h.trace), h.trace, c.inode)
    ensures h.calm && removed == Done(false) && old(c.Holds(h.fs) && At(h.fs, BasePath(c.dir)).None?) ==>
      r == Done(false) && h.fs == SetBase(WithoutCap(old(h.fs), c.dir), c.dir, c.inode)
  {
    hide Rely, FileWorld.Valid, Secluded, Shut, WithoutCap, SetBase;
    var restored := Restore(h, c);
    if restored.Crash? { return Crash; }
    if removed.Threw? { return Threw(removed.code); }
    if restored.Threw? {
      var again := Restore(h, c);
      return if again.Crash? then Crash else Threw(restored.code);
    }
    return Done(false);
  }

  // ---------------------------------------------------------- publication

  /** The new file has both its names. */
  function BothNamed(fs: Fs, id: Id, c: Inode, source: Text): Fs {
    var created := CreateFs(fs, TempFile(id), c, source);
    created.(names := created.names[Public := c])
  }

  lemma CreatedOnce(fs: Fs, id: Id, c: Inode, source: Text)
    requires WellFormed(fs) && c !in fs.data && id !in fs.temps
    ensures var created := CreateFs(fs, TempFile(id), c, source);
      && Links(created, c) <= 1 && Lookup(created.temps, id) == Some(c) && created.names == fs.names
      && OnlyWritten(fs, WithoutTemp(created, id), source)
  {
    var created := CreateFs(fs, TempFile(id), c, source);
    NowhereYet(fs, c);
    assert PublicNames(created, c) == PublicNames(fs, c);
    assert TempNames(created, c) == {id};
    SameSlots(fs, created, c);
    assert created.temps - {id} == fs.temps;
    assert WithoutTemp(created, id) == Written(fs, c, source);
  }

  /**
   `createProjectPreparationFile`: a new file gets the public name only if the name
   is free, and keeps its temporary name until `Finalize`.
   */
  method CreateFile(h: Host, id: Id, source: Text) returns (r: Run<Inode>)
    requires h.Valid()
    modifies h
    ensures h.Valid() && KeepTree(old(h.fs), h.fs, id)
    ensures r.Done? ==>
      && r.value !in old(h.fs).data && Lookup(h.fs.temps, id) == Some(r.value)
      && h.trace == old(h.trace) + [Published(id, r.value, source)]
    ensures !r.Done? ==> h.trace == old(h.trace)
    ensures h.calm && old(WellFormed(h.fs) && id !in h.fs.temps && Public !in h.fs.names) ==>
      r.Done? && h.fs == old(BothNamed(h.fs, id, r.value, source))
    ensures h.calm && old(WellFormed(h.fs) && id !in h.fs.temps && Public in h.fs.names) ==>
      r == Threw(CollisionCode) && OnlyWritten(old(h.fs), h.fs, source)
  {
    hide Rely, FileWorld.Valid, Secluded, Shut, KeepTree, InTree, Links, CreateFs, WithoutTemp, OnlyWritten;
    TreeStart(h.fs, h.trace, id);
    var creating := h.CreateTemp(id, source);
    CreateInTree(old(h.fs), h.fs, id);
    var candidate :- creating;
    ghost var fs1 := h.fs;
    if h.calm && old(WellFormed(h.fs)) { CreatedOnce(old(h.fs), id, candidate, source); }
    var reading := h.ReadFile(TempFile(id), 1);
    ReadKeeps(old(h.fs), fs1, h.fs, id);
    if reading.Crash? { return Crash; }
    if reading.Threw? || reading.value.Missing? {
      var dropped := DropTemporary(h, id, old(h.fs), old(h.trace));
      return if dropped.Crash? then Crash else Threw(if reading.Threw? then reading.code else FailedCode);
    }
    ghost var fs2 := h.fs;
    var linked := h.Publish(id);
    StaysSealed(fs2, h.at, candidate);
    PublishGrows(old(h.fs), fs2, h.fs, id, candidate);
    if linked.Crash? { return Crash; }
    if linked != Done(Ok) {
      var dropped := DropTemporary(h, id, old(h.fs), old(h.trace));
      return if dropped.Crash? then Crash else Threw(if linked == Done(Eexist) then CollisionCode else FailedCode);
    }
    return Done(candidate);
  }

  /** `finalize`: the temporary name goes once nobody has the file open; the public name stays. */
  method Finalize(h: Host, id: Id, identity: Inode) returns (r: Run<bool>)
    requires h.Valid()
    modifies h
    ensures h.Valid() && Keeps(old(h.fs), h.fs, TempDir(id)) && OnlyTemporary(old(h.trace), h.trace, id)
    ensures r.Done? ==> exists final :: GivenUp(old(h.trace), h.trace, TempDir(id), identity, final)
    ensures h.calm && old(OwnTemporary(h.fs, id)) && identity == old(h.fs.temps[id]) ==>
      r == Done(true) && h.fs == old(WithoutTemp(h.fs, id))
  {
    hide Rely, FileWorld.Valid, Secluded, Shut, GivenUp, Links, TakenFs, Takable, Releasable, WithoutCap, Sole, Shields,
      Keeps, SealedFiles, OnlyTemporary, OwnTemporary, WithoutTemp;
    if OwnTemporary(h.fs, id) { TemporaryTaken(h.fs, id); }
    var capturing := CaptureFile(h, TempDir(id), 2);
    ghost var fs1, trace1 := h.fs, h.trace;
    TakesTemporary(old(h.trace), trace1, id);
    var c :- capturing;
    if c == null { return Threw(CollisionCode); }
    if h.calm && old(OwnTemporary(h.fs, id)) { TemporaryReleasable(old(h.fs), id, c); }
    var removing;
    if c.inode != identity {
      removing := Restore(h, c);
    } else {
      removing := RemoveOrRestore(h, c, id);
      TemporaryExtends(trace1, h.trace, id);
    }
    KeepsTrans(old(h.fs), fs1, h.fs, TempDir(id));
    TemporaryThen(old(h.trace), trace1, h.trace, id);
    var removed :- removing;
    if c.inode != identity || !removed { return Threw(CollisionCode); }
    GivenUpLater(old(h.trace), trace1, h.trace, TempDir(id), c.inode, c.source);
    return Done(true);
  }

  lemma TemporaryExtends(before: seq<Event>, after: seq<Event>, id: Id)
    requires OnlyTemporary(before, after, id)
    ensures before <= after
  {
  }

  /** A Host was lost between the publication of the manifest and the removal of its temporary name. */
  ghost predicate PublishedOnce(fs: Fs, id: Id, manifest: Text) {
    && Selectable(fs, id) && Lookup(fs.temps, id) == Some(fs.names[Public]) && TextIn(fs, fs.names[Public]) == manifest
    && TempDir(id) !in fs.caps
  }

  lemma PublishedIsStale(fs: Fs, id: Id, manifest: Text)
    requires PublishedOnce(fs, id, manifest)
    ensures var i := fs.names[Public];
      && Reads(fs, TempFile(id), 2) == Reads(fs, PublicFile, 2) == Done(Found(i, manifest))
      && Lookup(fs.temps, id) == Some(i) && Selectable(fs, id) && IsStale(fs, Some(i), manifest, Some(false))
    ensures OwnTemporary(WithoutPublic(fs), id) && Lookup(WithoutPublic(fs).temps, id) == Lookup(fs.temps, id)
  {
    var after, i := WithoutPublic(fs), fs.names[Public];
    assert PublicNames(after, i) <= PublicNames(fs, i);
    SubsetIsSmaller(PublicNames(after, i), PublicNames(fs, i));
    assert TempNames(after, i) == TempNames(fs, i);
    SameSlots(fs, after, i);
  }

  lemma SubsetIsSmaller<T>(a: set<T>, b: set<T>)
    requires a <= b
    ensures |a| <= |b|
  {
    assert b == a + (b - a);
  }

  /** With no recorded identity the temporary name tells which file the Host itself published. */
  method PublishedIdentity(h: Host, id: Id, recorded: Option<Inode>, manifest: Text)
    returns (r: Run<bool>, identity: Option<Inode>)
    requires h.Valid()
    modifies h
    ensures h.Valid() && OnlyReturns(old(h.trace), h.trace)
    ensures recorded.Some? ==> identity == recorded
    ensures recorded.None? && identity.Some? ==> identity == old(Lookup(h.fs.temps, id))
    ensures h.calm && recorded.None? && old(PublishedOnce(h.fs, id, manifest)) ==>
      r == Done(true) && identity == old(Lookup(h.fs.temps, id)) && h.fs == old(h.fs)
  {
    identity := recorded;
    hide Rely, FileWorld.Valid, Secluded, Shut, Links, Reads, Grows, Shields, ShutKept, PublishedOnce;
    if PublishedOnce(h.fs, id, manifest) { PublishedIsStale(h.fs, id, manifest); }
    var temporary :- h.ReadFile(TempFile(id), 2);
    if recorded.None? && temporary.Found? {
      if temporary.text != manifest { r := Threw(CollisionCode); return; }
      var public :- h.ReadFile(PublicFile, 2);
      if public.Found? && public.inode != temporary.inode { r := Threw(CollisionCode); return; }
      identity := Some(temporary.inode);
    }
    r := Done(true);
  }

  /** The manifest half of `cleanupProductionProviderPreparation`. */
  method CleanupManifest(h: Host, id: Id, recorded: Option<Inode>, manifest: Text, tracked: Option<bool>)
    returns (r: Run<bool>, identity: Option<Inode>)
    requires h.Valid()
    modifies h
    ensures h.Valid()
    ensures recorded.Some? ==> identity == recorded
    ensures recorded.None? && identity.Some? ==> identity == old(Lookup(h.fs.temps, id))
    ensures OnlyManifestDropped(old(h.trace), h.trace, id, identity.GetOr(0), manifest)
    ensures h.calm && recorded.None? && tracked == Some(false) && old(PublishedOnce(h.fs, id, manifest)) ==>
      r == Done(true) && h.fs == old(WithoutTemp(WithoutPublic(h.fs), id))
  {
    hide Rely, FileWorld.Valid, Secluded, Shut, Links, Selectable, IsStale, WithoutPublic, WithoutTemp, OwnTemporary,
      Keeps, OnlyManifestDropped, PublishedOnce, OnlyReturns, OnlyTemporary, GivenUp;
    if PublishedOnce(h.fs, id, manifest) { PublishedIsStale(h.fs, id, manifest); }
    NothingYet(h.trace, id, recorded.GetOr(0), manifest);
    var identifying;
    identifying, identity := PublishedIdentity(h, id, recorded, manifest);
    ghost var trace1 := h.trace;
    NothingYet(old(h.trace), id, identity.GetOr(0), manifest);
    ThenReturned(old(h.trace), old(h.trace), trace1, id, identity.GetOr(0), manifest);
    var _ :- identifying;
    var stale := RemoveStaleManifest(h, id, identity, manifest, tracked);
    ManifestLater(old(h.trace), trace1, h.trace, id, identity.GetOr(0), manifest);
    var _ :- stale;
    ghost var trace2 := h.trace;
    r := RemoveTemporaryFile(h, id, identity);
    TemporaryLater(old(h.trace), trace2, h.trace, id, identity.GetOr(0), manifest);
  }

  lemma ManifestLater(x: seq<Event>, y: seq<Event>, z: seq<Event>, id: Id, expected: Inode, manifest: Text)
    requires OnlyReturns(x, y) && OnlyManifestDropped(y, z, id, expected, manifest)
    ensures OnlyManifestDropped(x, z, id, expected, manifest)
  {
    assert forall k :: |x| <= k < |y| ==> z[k] == y[k];
  }

  lemma TemporaryLater(x: seq<Event>, y: seq<Event>, z: seq<Event>, id: Id, expected: Inode, manifest: Text)
    requires OnlyManifestDropped(x, y, id, expected, manifest) && OnlyTemporary(y, z, id)
    ensures OnlyManifestDropped(x, z, id, expected, manifest)
  {
    SelectorsKept(x, y, z, id, expected, manifest);
  }
}
