/**
 The tracker of src/posix-process-tree.mjs: what one inventory adds to the tracked
 set, and why on Linux an empty live set means that the supervised tree is gone.
 */
module PosixTracker {
  import opened Wrappers
  import opened ProcessTree
  import opened SubreaperSystem

  const FORCE_ATTEMPTS := 4096

  /** One row of the process table; `dead` stands for the states `X` and `Z`. */
  datatype Row = Row(key: Key, parent: nat, group: nat, dead: bool)

  /** The group leader that the Host owns, and the helper it starts beside the adapter. */
  datatype Group = Group(wrapper: nat, supervisor: Option<nat>, linux: bool)

  predicate Distinct(rows: seq<Row>) {
    forall j, k :: 0 <= j < k < |rows| ==> rows[j].key.pid != rows[k].key.pid
  }

  /** `currentByPid.get(pid)`. */
  function Current(rows: seq<Row>, pid: nat): (r: Option<Row>)
    ensures r.Some? ==> r.value in rows && r.value.key.pid == pid
    ensures r.None? ==> forall row :: row in rows ==> row.key.pid != pid
  {
    if rows == [] then None
    else if rows[|rows| - 1].key.pid == pid then Some(rows[|rows| - 1])
    else Current(rows[..|rows| - 1], pid)
  }

  lemma CurrentIs(rows: seq<Row>, row: Row)
    requires Distinct(rows) && row in rows
    ensures Current(rows, row.key.pid) == Some(row)
  {
  }

  // -------------------------------------------------------- specification

  predicate Helper(g: Group, row: Row) {
    row.key.pid == g.wrapper || g.supervisor == Some(row.key.pid)
  }

  /** Live members of the owned process group; on Linux also live children of the wrapper. */
  predicate GroupSeed(g: Group, row: Row) {
    !Helper(g, row) && row.group == g.wrapper && !row.dead
  }

  predicate ChildSeed(g: Group, row: Row) {
    g.linux && !Helper(g, row) && row.parent == g.wrapper && !row.dead
  }

  /** The adapter's row, unless an identity without parent already has its PID. */
  function AdapterSeed(rows: seq<Row>, adapter: Option<nat>, ids: seq<Identity>): set<Key> {
    if adapter.None? || Current(rows, adapter.value).None? || RootHasPid(ids, adapter.value) then {}
    else {Current(rows, adapter.value).value.key}
  }

  predicate RootHasPid(ids: seq<Identity>, pid: nat) {
    exists id :: id in ids && id.key.pid == pid && id.parent.None?
  }

  function Seeds(g: Group, rows: seq<Row>): set<Key> {
    set row | row in rows && (GroupSeed(g, row) || ChildSeed(g, row)) :: row.key
  }

  predicate ChildOf(parent: Row, child: Row) {
    child.parent == parent.key.pid && parent.key.time <= child.key.time && !child.dead
  }

  ghost predicate Closed(rows: seq<Row>, keys: set<Key>) {
    forall p, c :: p in rows && c in rows && ChildOf(p, c) && p.key in keys ==> c.key in keys
  }

  ghost predicate Minimal(rows: seq<Row>, before: set<Key>, now: set<Key>) {
    forall keys :: before <= keys && Closed(rows, keys) ==> now <= keys
  }

  ghost predicate LeastGrowth(rows: seq<Row>, before: set<Key>, after: set<Key>) {
    before <= after && Closed(rows, after) && Minimal(rows, before, after)
  }

  predicate NoLater(key: Key, row: Row) {
    key.pid == row.parent && key.time <= row.key.time
  }

  /** `[...trackedIdentities.values()].find(...)`: the earliest discovered that the row may be a child of. */
  function FirstPossibleParent(ids: seq<Identity>, row: Row): (found: Option<Identity>)
    ensures found.Some? ==> found.value in ids && NoLater(found.value.key, row)
    ensures found.None? ==> forall id :: id in ids ==> !NoLater(id.key, row)
    decreases |ids|
  {
    if ids == [] then None
    else if NoLater(ids[0].key, row) then Some(ids[0])
    else FirstPossibleParent(ids[1..], row)
  }

  /** A row outside the tracked set whose parent may be a tracked process that is gone. */
  predicate MaybeChild(rows: seq<Row>, ids: seq<Identity>, row: Row) {
    && row.key !in Keys(ids) && FirstPossibleParent(ids, row).Some?
    && !(&& Current(rows, row.parent).Some?
         && Current(rows, row.parent).value.key != FirstPossibleParent(ids, row).value.key
         && Current(rows, row.parent).value.key.time <= row.key.time)
  }

  predicate Ambiguous(rows: seq<Row>, ids: seq<Identity>) {
    exists row :: row in rows && MaybeChild(rows, ids, row)
  }

  /** Identities are only added behind those already there. */
  ghost predicate Extends(before: seq<Identity>, after: seq<Identity>) {
    |before| <= |after| && forall i :: 0 <= i < |before| ==> after[i].key == before[i].key
  }

  lemma ExtendsTrans(a: seq<Identity>, b: seq<Identity>, c: seq<Identity>)
    requires Extends(a, b) && Extends(b, c)
    ensures Extends(a, c)
  {
  }

  lemma ExtendsAppend(a: seq<Identity>, b: seq<Identity>, id: Identity)
    requires Extends(a, b)
    ensures Extends(a, b + [id])
  {
  }

  lemma ExtendsSelf(a: seq<Identity>)
    ensures Extends(a, a)
  {
  }

  predicate Present(rows: seq<Row>, key: Key) {
    Current(rows, key.pid).Some? && Current(rows, key.pid).value.key == key && !Current(rows, key.pid).value.dead
  }

  function PresentKeys(rows: seq<Row>, keys: set<Key>): set<Key> {
    set key | key in keys && Present(rows, key)
  }

  /** An inventory without duplicates that shows the wrapper leading its group. */
  predicate Acceptable(g: Group, rows: seq<Row>, exited: bool) {
    && Distinct(rows)
    && (g.linux && Current(rows, g.wrapper).Some? ==> Current(rows, g.wrapper).value.group == g.wrapper)
    && (g.linux && Current(rows, g.wrapper).None? ==> exited)
  }

  datatype State = State(ids: seq<Identity>, alive: set<Key>, reliable: bool, established: bool)

  /**
   What a refresh saw: the rows, the adapter's PID once known, and whether the wrapper
   has exited. `Abandoned` is no refresh: the tracker ended its trust on its own account.
   */
  datatype Input = Unread | Abandoned | Read(rows: seq<Row>, adapter: Option<nat>, exited: bool)

  predicate Usable(g: Group, input: Input) {
    input.Read? && Acceptable(g, input.rows, input.exited)
  }

  ghost predicate Step(g: Group, a: State, input: Input, b: State) {
    if !Usable(g, input) then b == a.(reliable := false)
    else
      var seeds := AdapterSeed(input.rows, input.adapter, a.ids) + Seeds(g, input.rows);
      && LeastGrowth(input.rows, Keys(a.ids) + seeds, Keys(b.ids))
      && Extends(a.ids, b.ids)
      && b.established == (a.established || seeds != {})
      && b.reliable == (a.reliable && !Ambiguous(input.rows, b.ids))
      && b.alive == PresentKeys(input.rows, Keys(b.ids))
  }

  ghost predicate Run(g: Group, inputs: seq<Input>, states: seq<State>) {
    && |states| == |inputs| + 1 && states[0] == State([], {}, true, false)
    && forall i :: 0 <= i < |inputs| ==> Step(g, states[i], inputs[i], states[i + 1])
  }

  // -------------------------------------------------------- order of the rows

  lemma CurrentSame(rows: seq<Row>, others: seq<Row>, pid: nat)
    requires Distinct(rows) && Distinct(others) && (forall row :: row in rows <==> row in others)
    ensures Current(rows, pid) == Current(others, pid)
  {
    if Current(rows, pid).Some? { CurrentIs(others, Current(rows, pid).value); }
  }

  lemma GrowthIsUnique(rows: seq<Row>, others: seq<Row>, before: set<Key>, after: set<Key>, otherwise: set<Key>)
    requires forall row :: row in rows <==> row in others
    requires LeastGrowth(rows, before, after) && LeastGrowth(others, before, otherwise)
    ensures after == otherwise
  {
    assert Closed(others, after) && Closed(rows, otherwise);
  }

  /** Whatever is new was read in this inventory. */
  lemma NewAreRead(rows: seq<Row>, before: set<Key>, seeds: set<Key>, after: set<Key>)
    requires LeastGrowth(rows, before + seeds, after)
    requires forall key :: key in seeds ==> exists row :: row in rows && row.key == key
    ensures forall key :: key in after && key !in before ==> exists row :: row in rows && row.key == key
  {
    var read := before + set row | row in rows :: row.key;
    assert before + seeds <= read;
    assert Closed(rows, read);
  }

  lemma {:induction false} FirstOfAppend(a: seq<Identity>, b: seq<Identity>, row: Row)
    ensures FirstPossibleParent(a + b, row)
         == if FirstPossibleParent(a, row).Some? then FirstPossibleParent(a, row) else FirstPossibleParent(b, row)
  {
    if a == [] {
      assert a + b == b;
    } else {
      FirstOfAppend(a[1..], b, row);
      assert (a + b)[1..] == a[1..] + b;
    }
  }

  function KeyOf(id: Option<Identity>): Option<Key> {
    if id.Some? then Some(id.value.key) else None
  }

  lemma {:induction false} FirstOfSameKeys(a: seq<Identity>, b: seq<Identity>, row: Row)
    requires |a| == |b| && forall i :: 0 <= i < |a| ==> a[i].key == b[i].key
    ensures KeyOf(FirstPossibleParent(a, row)) == KeyOf(FirstPossibleParent(b, row))
    decreases |a|
  {
    if a != [] { FirstOfSameKeys(a[1..], b[1..], row); }
  }

  /** Which identity is found depends only on what was tracked before and on the set tracked now. */
  lemma FirstParentIs(rows: seq<Row>, before: seq<Identity>, after: seq<Identity>, row: Row)
    requires Distinct(rows) && Extends(before, after)
    requires forall key :: key in Keys(after) && key !in Keys(before) ==> exists read :: read in rows && read.key == key
    ensures KeyOf(FirstPossibleParent(after, row)) == FirstParent(rows, before, Keys(after), row)
  {
    var n := |before|;
    var added := after[n..];
    assert after == after[..n] + added;
    FirstOfAppend(after[..n], added, row);
    FirstOfSameKeys(after[..n], before, row);
    if FirstPossibleParent(before, row).None? {
      forall id | id in after && NoLater(id.key, row) ensures Current(rows, row.parent).Some? && Current(rows, row.parent).value.key == id.key {
        NotBefore(before, row, id.key);
        var read :| read in rows && read.key == id.key;
        CurrentIs(rows, read);
      }
      if FirstPossibleParent(added, row).Some? {
        assert FirstPossibleParent(added, row).value in after;
      } else {
        forall id | id in after ensures !NoLater(id.key, row) {
          assert id in after[..n] || id in added;
        }
      }
    }
  }

  lemma NotBefore(before: seq<Identity>, row: Row, key: Key)
    requires FirstPossibleParent(before, row).None? && NoLater(key, row)
    ensures key !in Keys(before)
  {
  }

  function FirstParent(rows: seq<Row>, before: seq<Identity>, keys: set<Key>, row: Row): Option<Key> {
    var now := Current(rows, row.parent);
    if FirstPossibleParent(before, row).Some? then KeyOf(FirstPossibleParent(before, row))
    else if now.Some? && now.value.key in keys && NoLater(now.value.key, row) then Some(now.value.key)
    else None
  }

  lemma AmbiguousSame(rows: seq<Row>, others: seq<Row>, before: seq<Identity>, b: seq<Identity>, c: seq<Identity>)
    requires Distinct(rows) && Distinct(others) && (forall row :: row in rows <==> row in others)
    requires Extends(before, b) && Extends(before, c) && Keys(b) == Keys(c)
    requires forall key :: key in Keys(b) && key !in Keys(before) ==> exists read :: read in rows && read.key == key
    ensures Ambiguous(rows, b) <==> Ambiguous(others, c)
  {
    hide Current, FirstPossibleParent, Distinct, Extends, Keys;
    forall row | row in rows ensures MaybeChild(rows, b, row) <==> MaybeChild(others, c, row) {
      CurrentSame(rows, others, row.parent);
      FirstParentIs(rows, before, b, row);
      FirstParentIs(others, before, c, row);
    }
  }

  lemma SeedsRead(g: Group, rows: seq<Row>, adapter: Option<nat>, ids: seq<Identity>)
    ensures forall key :: key in AdapterSeed(rows, adapter, ids) + Seeds(g, rows) ==>
      exists row :: row in rows && row.key == key
  {
  }

  lemma SeedsSame(g: Group, rows: seq<Row>, others: seq<Row>, adapter: Option<nat>, ids: seq<Identity>)
    requires Distinct(rows) && Distinct(others) && (forall row :: row in rows <==> row in others)
    ensures AdapterSeed(rows, adapter, ids) == AdapterSeed(others, adapter, ids)
    ensures Seeds(g, rows) == Seeds(g, others)
  {
    if adapter.Some? { CurrentSame(rows, others, adapter.value); }
  }

  lemma PresentSame(rows: seq<Row>, others: seq<Row>, keys: set<Key>)
    requires Distinct(rows) && Distinct(others) && (forall row :: row in rows <==> row in others)
    ensures PresentKeys(rows, keys) == PresentKeys(others, keys)
  {
    hide Current;
    forall key | key in keys ensures Present(rows, key) <==> Present(others, key) {
      CurrentSame(rows, others, key.pid);
    }
  }

  /**
   A step does not depend on the order in which the system lists the processes:
   neither what is tracked and alive, nor whether the tracker is established and
   reliable, although the ambiguity check takes the first identity that fits.
   */
  lemma OrderIsIrrelevant(g: Group, a: State, rows: seq<Row>, others: seq<Row>, adapter: Option<nat>, exited: bool,
      b: State, c: State)
    requires Distinct(rows) && Distinct(others) && (forall row :: row in rows <==> row in others)
    requires Step(g, a, Read(rows, adapter, exited), b) && Step(g, a, Read(others, adapter, exited), c)
    ensures Keys(b.ids) == Keys(c.ids) && b.alive == c.alive
    ensures b.established == c.established && b.reliable == c.reliable
  {
    hide Distinct, Current, AdapterSeed, Seeds, LeastGrowth, Ambiguous, PresentKeys, Keys, Extends;
    CurrentSame(rows, others, g.wrapper);
    assert Usable(g, Read(rows, adapter, exited)) == Usable(g, Read(others, adapter, exited));
    if Usable(g, Read(rows, adapter, exited)) {
      SeedsSame(g, rows, others, adapter, a.ids);
      var seeds := AdapterSeed(rows, adapter, a.ids) + Seeds(g, rows);
      GrowthIsUnique(rows, others, Keys(a.ids) + seeds, Keys(b.ids), Keys(c.ids));
      PresentSame(rows, others, Keys(b.ids));
      SeedsRead(g, rows, adapter, a.ids);
      NewAreRead(rows, Keys(a.ids), seeds, Keys(b.ids));
      AmbiguousSame(rows, others, a.ids, b.ids, c.ids);
    }
  }

  // ------------------------------------------------------ against the kernel

  /** The rows show exactly the processes of the instant, read atomically. */
  ghost predicate Depicts(s: System, rows: seq<Row>) {
    && Distinct(rows)
    && (forall x :: x in s.procs ==> exists row :: row in rows && row.key == x)
    && (forall row :: row in rows ==>
          && row.key in s.procs && (row.dead <==> row.key in s.zombies)
          && (row.key in s.parent ==> row.parent == s.parent[row.key].pid)
          && (row.key !in s.parent ==> forall y :: y in s.procs && (y in s.family || y == s.wrapper) ==> row.parent != y.pid))
  }

  /** The supervisor helper has no children. */
  ghost predicate SupervisorChildless(g: Group, s: System) {
    forall x :: x in s.parent ==> g.supervisor != Some(s.parent[x].pid)
  }

  lemma RowFor(s: System, rows: seq<Row>, x: Key) returns (row: Row)
    requires Depicts(s, rows) && x in s.procs
    ensures row in rows && row.key == x
  {
    row :| row in rows && row.key == x;
  }

  /** Every running member below the wrapper is found. */
  lemma {:induction false} ChainIsTracked(g: Group, s: System, rows: seq<Row>, keys: set<Key>, x: Key, links: nat)
    requires g.linux && g.wrapper == s.wrapper.pid && Kept(s) && Depicts(s, rows) && SupervisorChildless(g, s)
    requires Seeds(g, rows) <= keys && Closed(rows, keys)
    requires Chain(s, x, links) && links > 0 && g.supervisor != Some(x.pid)
    ensures x in keys
    decreases links
  {
    var row := RowFor(s, rows, x);
    if links == 1 {
      assert ChildSeed(g, row);
    } else {
      ChainIsTracked(g, s, rows, keys, s.parent[x], links - 1);
      var above := RowFor(s, rows, s.parent[x]);
      assert ChildOf(above, row);
    }
  }

  /**
   Linux: after an atomic inventory that shows the live wrapper, an empty live set
   means that no running process the wrapper ever caused exists, apart from the
   holder of the supervisor's PID, whatever creators exited in between.
   */
  lemma EmptyMeansGone(g: Group, states: seq<System>, actions: seq<Action>, n: nat, a: State, input: Input, b: State, x: Key)
    requires History(states, actions) && n <= |actions|
    requires g.linux && g.wrapper == states[n].wrapper.pid && SupervisorChildless(g, states[n])
    requires Step(g, a, input, b) && Usable(g, input) && Depicts(states[n], input.rows) && b.alive == {}
    requires Running(states[n], x) && x in states[n].family
    ensures g.supervisor == Some(x.pid)
  {
    var s := states[n];
    AlwaysKept(states, actions, n);
    var links: nat :| Chain(s, x, links);
    if g.supervisor != Some(x.pid) {
      ChainIsTracked(g, s, input.rows, Keys(b.ids), x, links);
      TrackedIsAlive(g, s, a, input, b, x);
    }
  }

  lemma TrackedIsAlive(g: Group, s: System, a: State, input: Input, b: State, x: Key)
    requires Usable(g, input) && Step(g, a, input, b) && Depicts(s, input.rows)
    requires Running(s, x) && x in Keys(b.ids)
    ensures x in b.alive
  {
    var row := RowFor(s, input.rows, x);
    CurrentIs(input.rows, row);
  }

  /** The rows seeded by group or as the adapter are the wrapper's own offspring. */
  ghost predicate SeedsInFamily(g: Group, s: System, input: Input)
    requires input.Read?
  {
    && (forall row :: row in input.rows && GroupSeed(g, row) ==> row.key in s.family)
    && (input.adapter.Some? && Current(input.rows, input.adapter.value).Some? ==>
          Current(input.rows, input.adapter.value).value.key in s.family)
  }

  /** Nothing outside the family is ever tracked. */
  lemma StepTracksFamily(g: Group, s: System, a: State, input: Input, b: State)
    requires Usable(g, input) && Step(g, a, input, b) && Kept(s) && Depicts(s, input.rows)
    requires g.wrapper == s.wrapper.pid && SeedsInFamily(g, s, input) && Keys(a.ids) <= s.family
    ensures Keys(b.ids) <= s.family
  {
    var rows := input.rows;
    var seeds := AdapterSeed(rows, input.adapter, a.ids) + Seeds(g, rows);
    forall key | key in seeds ensures key in s.family {
      if row :| row in rows && row.key == key && ChildSeed(g, row) { ParentIsTrue(s, rows, row, s.wrapper); }
    }
    var kept := Keys(b.ids) * s.family;
    forall p, c | p in rows && c in rows && ChildOf(p, c) && p.key in kept ensures c.key in kept {
      ParentIsTrue(s, rows, c, p.key);
    }
    assert Closed(rows, kept);
  }

  lemma ParentIsTrue(s: System, rows: seq<Row>, row: Row, p: Key)
    requires Kept(s) && Depicts(s, rows) && row in rows && p in s.procs && row.parent == p.pid
    requires p in s.family || p == s.wrapper
    ensures row.key in s.family
  {
    if row.key in s.parent { assert s.parent[row.key] == p; }
  }

  /**
   Nothing is in doubt: no process is younger than its child, no member of the family
   that is dead goes unnoticed, and a process whose parent is not followed does not name
   a PID that is or was a tracked one's.
   */
  ghost predicate NothingInDoubt(s: System, rows: seq<Row>, before: set<Key>, tracked: set<Key>) {
    && (forall x :: x in s.parent ==> s.parent[x].time <= x.time)
    && s.zombies * s.family <= before
    && (forall row, key :: row in rows && row.key !in s.parent && key in tracked ==> row.parent != key.pid)
  }

  /** Such an inventory keeps the tracker reliable, whatever PIDs were reused. */
  lemma StepStaysReliable(g: Group, s: System, a: State, input: Input, b: State)
    requires Usable(g, input) && Step(g, a, input, b) && Kept(s) && Depicts(s, input.rows)
    requires g.wrapper == s.wrapper.pid && SeedsInFamily(g, s, input) && Keys(a.ids) <= s.family
    requires NothingInDoubt(s, input.rows, Keys(a.ids), Keys(b.ids))
    ensures b.reliable == a.reliable
  {
    StepTracksFamily(g, s, a, input, b);
    hide Ambiguous, MaybeChild;
    StepGrows(g, a, input, b);
    forall row | row in input.rows ensures !MaybeChild(input.rows, b.ids, row) {
      NotInDoubt(s, input.rows, Keys(a.ids), b.ids, row);
    }
    NoneAmbiguous(input.rows, b.ids);
  }

  lemma StepGrows(g: Group, a: State, input: Input, b: State)
    requires Usable(g, input) && Step(g, a, input, b)
    ensures Keys(a.ids) <= Keys(b.ids) && Closed(input.rows, Keys(b.ids))
  {
  }

  lemma NoneAmbiguous(rows: seq<Row>, ids: seq<Identity>)
    requires forall row :: row in rows ==> !MaybeChild(rows, ids, row)
    ensures !Ambiguous(rows, ids)
  {
  }

  lemma NotInDoubt(s: System, rows: seq<Row>, before: set<Key>, ids: seq<Identity>, row: Row)
    requires Kept(s) && Depicts(s, rows) && row in rows && NothingInDoubt(s, rows, before, Keys(ids))
    requires before <= Keys(ids) <= s.family && Closed(rows, Keys(ids))
    ensures !MaybeChild(rows, ids, row)
  {
    if row.key !in Keys(ids) && FirstPossibleParent(ids, row).Some? {
      hide Depicts, Kept, FirstPossibleParent, Current;
      var k := FirstPossibleParent(ids, row).value;
      assert k.key in Keys(ids);
      var above := ParentShown(s, rows, row);
      assert ChildOf(above, row) || row.dead;
    }
  }

  lemma ParentShown(s: System, rows: seq<Row>, row: Row) returns (above: Row)
    requires Kept(s) && Depicts(s, rows) && row in rows && row.key in s.parent
    ensures above in rows && above.key == s.parent[row.key] && Current(rows, row.parent) == Some(above)
    ensures row.dead ==> row.key in s.zombies
    ensures row.parent == above.key.pid && (above.key in s.family ==> row.key in s.family)
  {
    above := RowFor(s, rows, s.parent[row.key]);
    CurrentIs(rows, above);
  }

  /** The instants the inventories were taken at, in order. */
  ghost predicate Observed(g: Group, systems: seq<System>, instants: seq<nat>, inputs: seq<Input>) {
    && |instants| == |inputs|
    && (forall i :: 0 <= i < |instants| ==> instants[i] < |systems|)
    && (forall i, j :: 0 <= i < j < |instants| ==> instants[i] <= instants[j])
    && (forall i :: 0 <= i < |inputs| && Usable(g, inputs[i]) ==>
          Depicts(systems[instants[i]], inputs[i].rows) && SeedsInFamily(g, systems[instants[i]], inputs[i]))
  }

  lemma {:induction false} FamilyGrows(systems: seq<System>, actions: seq<Action>, i: nat, j: nat)
    requires History(systems, actions) && i <= j <= |actions|
    ensures systems[i].family <= systems[j].family && systems[i].wrapper == systems[j].wrapper
    decreases j
  {
    if i < j { FamilyGrows(systems, actions, i, j - 1); }
  }

  /** Over any run, whatever is tracked, and so whatever is signalled, came from the wrapper. */
  lemma {:induction false} RunTracksFamily(g: Group, systems: seq<System>, actions: seq<Action>, instants: seq<nat>,
      inputs: seq<Input>, states: seq<State>, n: nat, m: nat)
    requires History(systems, actions) && Observed(g, systems, instants, inputs) && Run(g, inputs, states)
    requires g.wrapper == systems[0].wrapper.pid
    requires n <= |inputs| && m <= |actions| && (n > 0 ==> instants[n - 1] <= m)
    ensures Keys(states[n].ids) <= systems[m].family
    decreases n
  {
    if n > 0 {
      var k := instants[n - 1];
      assert n > 1 ==> instants[n - 2] <= instants[n - 1];
      RunTracksFamily(g, systems, actions, instants, inputs, states, n - 1, k);
      FamilyGrows(systems, actions, 0, k);
      FamilyGrows(systems, actions, k, m);
      AlwaysKept(systems, actions, k);
      assert Step(g, states[n - 1], inputs[n - 1], states[n]);
      if Usable(g, inputs[n - 1]) {
        StepTracksFamily(g, systems[k], states[n - 1], inputs[n - 1], states[n]);
      }
    }
  }

  /** Reliability, once lost, never returns; no identity is forgotten. */
  lemma {:induction false} NeverReliableAgain(g: Group, inputs: seq<Input>, states: seq<State>, i: nat, j: nat)
    requires Run(g, inputs, states) && i <= j <= |inputs|
    ensures states[j].reliable ==> states[i].reliable
    ensures Keys(states[i].ids) <= Keys(states[j].ids)
    decreases j
  {
    if i < j {
      assert Step(g, states[j - 1], inputs[j - 1], states[j]);
      NeverReliableAgain(g, inputs, states, i, j - 1);
    }
  }

  // ----------------------------------------------------------- the tracker

  /** `trackedIdentities.set(key, ...)` without a parent: a known key keeps its place in the order. */
  function Rooted(ids: seq<Identity>, key: Key): seq<Identity> {
    if ids == [] then [Identity(key, None)]
    else if ids[0].key == key then [Identity(key, None)] + ids[1..]
    else [ids[0]] + Rooted(ids[1..], key)
  }

  lemma {:induction false} RootedAt(ids: seq<Identity>, key: Key)
    ensures key !in Keys(ids) ==> Rooted(ids, key) == ids + [Identity(key, None)]
    ensures key in Keys(ids) ==>
      && |Rooted(ids, key)| == |ids|
      && forall i :: 0 <= i < |ids| ==>
           Rooted(ids, key)[i].key == ids[i].key && Rooted(ids, key)[i].parent in {None, ids[i].parent}
  {
    if ids != [] {
      assert Keys(ids) == {ids[0].key} + Keys(ids[1..]) by {
        assert forall id :: id in ids <==> id == ids[0] || id in ids[1..];
      }
      if ids[0].key == key {
      } else {
        RootedAt(ids[1..], key);
        assert [ids[0]] + (ids[1..] + [Identity(key, None)]) == ids + [Identity(key, None)];
      }
    }
  }

  lemma SameKeys(ids: seq<Identity>, others: seq<Identity>)
    requires |ids| == |others| && forall i :: 0 <= i < |ids| ==> ids[i].key == others[i].key
    ensures Keys(ids) == Keys(others)
  {
    forall key | key in Keys(ids) ensures key in Keys(others) {
      var i :| 0 <= i < |ids| && ids[i].key == key;
      assert others[i] in others;
    }
    forall key | key in Keys(others) ensures key in Keys(ids) {
      var i :| 0 <= i < |others| && others[i].key == key;
      assert ids[i] in ids;
    }
  }

  lemma RootedLinked(ids: seq<Identity>, key: Key)
    requires Linked(ids)
    ensures Linked(Rooted(ids, key)) && Keys(Rooted(ids, key)) == Keys(ids) + {key}
  {
    RootedAt(ids, key);
    var next := Rooted(ids, key);
    if key in Keys(ids) {
      SameKeys(ids, next);
      forall i | 0 <= i < |next| && next[i].parent.Some? ensures next[i].parent.value in Keys(next[..i]) {
        SameKeys(ids[..i], next[..i]);
      }
    } else {
      KeysAppend(ids, Identity(key, None));
      LinkedAppend(ids, Identity(key, None));
    }
  }

  /** The group a process was in when it was first tracked. */
  type Groups = map<Key, nat>

  /** A new entry is the group its row shows. */
  ghost predicate NotedFrom(rows: seq<Row>, before: Groups, after: Groups) {
    forall key :: key in after ==>
      (key in before && after[key] == before[key]) || exists row :: row in rows && row.key == key && row.group == after[key]
  }

  /** The adapter is entered without a parent, even over an earlier entry. */
  method SeedAdapter(rows: seq<Row>, adapter: Option<nat>, ids: seq<Identity>, groups: Groups)
    returns (seeded: seq<Identity>, noted: Groups, found: bool)
    requires Linked(ids) && Keys(ids) <= groups.Keys
    ensures Keys(seeded) <= noted.Keys && NotedFrom(rows, groups, noted)
    ensures Linked(seeded) && Keys(seeded) == Keys(ids) + AdapterSeed(rows, adapter, ids)
    ensures found <==> AdapterSeed(rows, adapter, ids) != {}
    ensures Extends(ids, seeded)
  {
    seeded, noted, found := ids, groups, false;
    if adapter.Some? {
      var row := Current(rows, adapter.value);
      if row.Some? && !RootHasPid(ids, adapter.value) {
        RootedLinked(ids, row.value.key);
        RootedAt(ids, row.value.key);
        assert row.value.key in AdapterSeed(rows, adapter, ids);
        seeded, noted, found := Rooted(ids, row.value.key), groups[row.value.key := row.value.group], true;
      }
    }
  }

  /** The two seeding loops: live group members, then on Linux live children of the wrapper. */
  method SeedRows(g: Group, rows: seq<Row>, children: bool, ids: seq<Identity>, groups: Groups)
    returns (seeded: seq<Identity>, noted: Groups, found: bool)
    requires Linked(ids) && Keys(ids) <= groups.Keys
    ensures Keys(seeded) <= noted.Keys && NotedFrom(rows, groups, noted)
    ensures Linked(seeded) && Keys(seeded) == Keys(ids) + RowSeeds(g, rows, children)
    ensures found <==> RowSeeds(g, rows, children) != {}
    ensures Extends(ids, seeded)
  {
    hide NotedFrom, Linked, Extends;
    seeded, noted, found := ids, groups, false;
    ExtendsSelf(ids);
    NotedNothing(rows, groups);
    for j := 0 to |rows|
      invariant Linked(seeded) && Keys(seeded) == Keys(ids) + RowSeeds(g, rows[..j], children)
      invariant Keys(seeded) <= noted.Keys && NotedFrom(rows, groups, noted)
      invariant found <==> RowSeeds(g, rows[..j], children) != {}
      invariant Extends(ids, seeded)
    {
      var row := rows[j];
      MoreSeeds(g, rows, children, j);
      if if children then ChildSeed(g, row) else GroupSeed(g, row) {
        if row.key !in Keys(seeded) {
          LinkedAppend(seeded, Identity(row.key, None));
          KeysAppend(seeded, Identity(row.key, None));
          ExtendsAppend(ids, seeded, Identity(row.key, None));
          NotedRow(rows, groups, noted, row);
          seeded, noted := seeded + [Identity(row.key, None)], noted[row.key := row.group];
        }
        found := true;
      }
    }
    assert rows[..|rows|] == rows;
  }

  function RowSeeds(g: Group, rows: seq<Row>, children: bool): set<Key> {
    set row | row in rows && (if children then ChildSeed(g, row) else GroupSeed(g, row)) :: row.key
  }

  lemma MoreSeeds(g: Group, rows: seq<Row>, children: bool, j: nat)
    requires j < |rows|
    ensures RowSeeds(g, rows[..j + 1], children)
         == RowSeeds(g, rows[..j], children)
            + if (if children then ChildSeed(g, rows[j]) else GroupSeed(g, rows[j])) then {rows[j].key} else {}
  {
    assert forall row :: row in rows[..j + 1] <==> row in rows[..j] || row == rows[j];
  }

  lemma SeedsAreRowSeeds(g: Group, rows: seq<Row>)
    ensures Seeds(g, rows) == RowSeeds(g, rows, false) + RowSeeds(g, rows, true)
  {
  }

  function Unseen(rows: seq<Row>, ids: seq<Identity>): set<Key> {
    (set row | row in rows :: row.key) - Keys(ids)
  }

  lemma MinimalGrows(rows: seq<Row>, before: set<Key>, now: set<Key>, p: Row, c: Row)
    requires Minimal(rows, before, now) && p in rows && c in rows && ChildOf(p, c) && p.key in now
    ensures Minimal(rows, before, now + {c.key})
  {
  }

  /** One pass of the discovery loop. */
  method Pass(rows: seq<Row>, ghost start: set<Key>, begun: seq<Identity>, groups: Groups)
    returns (ids: seq<Identity>, noted: Groups, discovered: bool)
    requires Keys(begun) <= groups.Keys
    ensures Keys(ids) <= noted.Keys && NotedFrom(rows, groups, noted)
    requires Distinct(rows) && Linked(begun) && start <= Keys(begun) && Minimal(rows, start, Keys(begun))
    ensures Linked(ids) && start <= Keys(ids) && Minimal(rows, start, Keys(ids))
    ensures if discovered then Unseen(rows, ids) < Unseen(rows, begun) else ids == begun && Closed(rows, Keys(ids))
    ensures Extends(begun, ids)
  {
    hide NotedFrom, Linked, Extends;
    ids, noted, discovered := begun, groups, false;
    ExtendsSelf(begun);
    NotedNothing(rows, groups);
    for j := 0 to |rows|
      invariant Linked(ids) && start <= Keys(ids) && Minimal(rows, start, Keys(ids))
      invariant Keys(ids) <= noted.Keys && NotedFrom(rows, groups, noted)
      invariant if discovered then Unseen(rows, ids) < Unseen(rows, begun) else ids == begun
      invariant Extends(begun, ids)
      invariant !discovered ==>
        forall p, c :: p in rows && c in rows[..j] && ChildOf(p, c) && p.key in Keys(ids) ==> c.key in Keys(ids)
    {
      var row := rows[j];
      if !row.dead && row.key !in Keys(ids) {
        var above := Current(rows, row.parent);
        if above.Some? && above.value.key in Keys(ids) && above.value.key.time <= row.key.time {
          MinimalGrows(rows, start, Keys(ids), above.value, row);
          var found := Identity(row.key, Some(above.value.key));
          LinkedAppend(ids, found);
          KeysAppend(ids, found);
          ExtendsAppend(begun, ids, found);
          assert row.key in Unseen(rows, ids);
          NotedRow(rows, groups, noted, row);
          ids, noted, discovered := ids + [found], noted[row.key := row.group], true;
        }
      }
      forall p | p in rows && ChildOf(p, row) ensures Current(rows, row.parent) == Some(p) {
        CurrentIs(rows, p);
      }
    }
  }

  lemma NotedNothing(rows: seq<Row>, groups: Groups)
    ensures NotedFrom(rows, groups, groups)
  {
  }

  lemma NotedRow(rows: seq<Row>, before: Groups, noted: Groups, row: Row)
    requires NotedFrom(rows, before, noted) && row in rows
    ensures NotedFrom(rows, before, noted[row.key := row.group])
  {
  }

  lemma NotedLater(rows: seq<Row>, a: Groups, b: Groups, c: Groups)
    requires NotedFrom(rows, a, b) && NotedFrom(rows, b, c)
    ensures NotedFrom(rows, a, c)
  {
  }

  method Discover(rows: seq<Row>, start: seq<Identity>, groups: Groups) returns (ids: seq<Identity>, noted: Groups)
    requires Distinct(rows) && Linked(start) && Keys(start) <= groups.Keys
    ensures Linked(ids) && LeastGrowth(rows, Keys(start), Keys(ids)) && Extends(start, ids)
    ensures Keys(ids) <= noted.Keys && NotedFrom(rows, groups, noted)
  {
    hide Extends;
    ids, noted := start, groups;
    ExtendsSelf(start);
    var discovered := true;
    while discovered
      invariant Extends(start, ids)
      invariant Linked(ids) && Keys(start) <= Keys(ids) && Minimal(rows, Keys(start), Keys(ids))
      invariant Keys(ids) <= noted.Keys && NotedFrom(rows, groups, noted)
      invariant !discovered ==> Closed(rows, Keys(ids))
      decreases Unseen(rows, ids), discovered
    {
      ghost var groups1, ids1 := noted, ids;
      ids, noted, discovered := Pass(rows, Keys(start), ids, noted);
      ExtendsTrans(start, ids1, ids);
      NotedLater(rows, groups, groups1, noted);
    }
  }

  /** The three sources of identities without a parent. */
  method SeedAll(g: Group, rows: seq<Row>, adapter: Option<nat>, ids: seq<Identity>, groups: Groups)
    returns (grown: seq<Identity>, noted: Groups, found: bool)
    requires Linked(ids) && Keys(ids) <= groups.Keys
    ensures Keys(grown) <= noted.Keys && NotedFrom(rows, groups, noted)
    ensures Linked(grown) && Keys(grown) == Keys(ids) + (AdapterSeed(rows, adapter, ids) + Seeds(g, rows))
    ensures found <==> AdapterSeed(rows, adapter, ids) + Seeds(g, rows) != {}
    ensures Extends(ids, grown)
  {
    hide NotedFrom, Linked, Keys, AdapterSeed, RowSeeds, Seeds, Extends;
    var member, child;
    grown, noted, found := SeedAdapter(rows, adapter, ids, groups);
    ghost var groups1, ids1 := noted, grown;
    grown, noted, member := SeedRows(g, rows, false, grown, noted);
    NotedLater(rows, groups, groups1, noted);
    ExtendsTrans(ids, ids1, grown);
    ghost var groups2, ids2 := noted, grown;
    grown, noted, child := SeedRows(g, rows, true, grown, noted);
    NotedLater(rows, groups, groups2, noted);
    ExtendsTrans(ids, ids2, grown);
    SeedsAreRowSeeds(g, rows);
    found := found || member || child;
  }

  /** `applyInventory` on an inventory it does not refuse. */
  method ApplyInventory(g: Group, rows: seq<Row>, adapter: Option<nat>, ghost exited: bool, ids: seq<Identity>, groups: Groups,
      reliable: bool, established: bool, ghost wasAlive: set<Key>)
    returns (grown: seq<Identity>, noted: Groups, alive: seq<Identity>, trusted: bool, seen: bool)
    requires Acceptable(g, rows, exited) && Linked(ids) && Keys(ids) <= groups.Keys
    ensures Keys(grown) <= noted.Keys && NotedFrom(rows, groups, noted)
    ensures Linked(grown) && Ordered(alive) && Keys(alive) <= Keys(grown) && Keys(ids) <= Keys(grown)
    ensures forall id :: id in alive ==> id in grown
    ensures Step(g, State(ids, wasAlive, reliable, established), Read(rows, adapter, exited),
                 State(grown, Keys(alive), trusted, seen))
  {
    hide NotedFrom, LeastGrowth, Ambiguous, Linked, Ordered, Present, Step, Keys, AdapterSeed, RowSeeds, Seeds,
      Acceptable, Extends;
    AcceptableRows(g, rows, exited);
    var found;
    grown, noted, found := SeedAll(g, rows, adapter, ids, groups);
    seen := established || found;
    ghost var groups1, ids1 := noted, grown;
    grown, noted := Discover(rows, grown, noted);
    NotedLater(rows, groups, groups1, noted);
    ExtendsTrans(ids, ids1, grown);
    trusted := reliable && !Ambiguous(rows, grown);
    alive := Alive(PresentKeys(rows, Keys(grown)), grown);
    LinkedIsOrdered(grown);
    AliveIsOrdered(PresentKeys(rows, Keys(grown)), grown);
    AliveKeys(PresentKeys(rows, Keys(grown)), grown);
    StepIs(g, State(ids, wasAlive, reliable, established), Read(rows, adapter, exited),
           State(grown, Keys(alive), trusted, seen));
  }

  lemma AcceptableRows(g: Group, rows: seq<Row>, exited: bool)
    requires Acceptable(g, rows, exited)
    ensures Distinct(rows)
  {
  }

  lemma AliveKeys(present: set<Key>, ids: seq<Identity>)
    requires present <= Keys(ids)
    ensures Keys(Alive(present, ids)) == present
  {
  }

  lemma StepIs(g: Group, a: State, input: Input, b: State)
    requires input.Read? && Acceptable(g, input.rows, input.exited)
    requires LeastGrowth(input.rows,
                         Keys(a.ids) + (AdapterSeed(input.rows, input.adapter, a.ids) + Seeds(g, input.rows)),
                         Keys(b.ids))
    requires Extends(a.ids, b.ids)
    requires b.established == (a.established || AdapterSeed(input.rows, input.adapter, a.ids) + Seeds(g, input.rows) != {})
    requires b.reliable == (a.reliable && !Ambiguous(input.rows, b.ids))
    requires b.alive == PresentKeys(input.rows, Keys(b.ids))
    ensures Step(g, a, input, b) && Keys(a.ids) <= Keys(b.ids)
  {
  }

  /** One exact signal that left: after how many inventories, the process it was for, and the answer. */
  datatype Request = Request(step: nat, target: Identity, answer: Option<bool>)

  /** What a state shows alive outside the group, with the links it has there. */
  function DetachedIn(g: Group, state: State, groups: Groups): seq<Identity>
    requires state.alive <= groups.Keys
  {
    Alive((set key | key in state.alive && groups[key] != g.wrapper), state.ids)
  }

  /** A signal answered with a refusal although the next inventory still showed its target alive. */
  predicate Refused(states: seq<State>, request: Request) {
    request.answer == Some(false) && request.step + 1 < |states| && request.target.key in states[request.step + 1].alive
  }

  ghost predicate NoneRefused(states: seq<State>, asked: seq<Request>, from: nat) {
    forall k :: from <= k < |asked| ==> !Refused(states, asked[k])
  }

  /** A run of the tracker notes only groups that the rows of its inventories show. */
  ghost predicate NotedAll(g: Group, inputs: seq<Input>, noted: seq<Groups>) {
    |noted| == |inputs| + 1 && forall n :: 0 <= n < |inputs| ==> NotedBy(g, inputs[n], noted[n], noted[n + 1])
  }

  ghost predicate NotedBy(g: Group, input: Input, before: Groups, after: Groups) {
    if Usable(g, input) then NotedFrom(input.rows, before, after) else after == before
  }

  /** Every process alive in a state has a group noted for it. */
  ghost predicate Noted(states: seq<State>, noted: seq<Groups>) {
    |noted| == |states| && forall n :: 0 <= n < |states| ==> states[n].alive <= noted[n].Keys
  }

  /**
   From request `from` on, each was for the leaf with the greatest PID of what was
   detached one inventory before, and was sent after that inventory had been repeated;
   between two of them the process table was read twice.
   */
  ghost predicate LeavesFirst(g: Group, states: seq<State>, noted: seq<Groups>, asked: seq<Request>, from: nat, step: nat) {
    && Noted(states, noted)
    && (forall k :: from <= k < |asked| ==>
         && step < asked[k].step < |states|
         && Chosen(DetachedIn(g, states[asked[k].step - 1], noted[asked[k].step - 1]), asked[k].target))
    && (forall j, k :: from <= j < k < |asked| ==> asked[j].step + 1 < asked[k].step)
  }

  lemma LeavesFirstThen(g: Group, states: seq<State>, noted: seq<Groups>, more: seq<State>, moreNoted: seq<Groups>,
      asked: seq<Request>, from: nat, step: nat, turn: nat, after: seq<Request>)
    requires LeavesFirst(g, states, noted, asked, from, step) && Noted(more, moreNoted)
    requires states <= more && noted <= moreNoted && step <= turn == |states| - 1 && |more| > turn + 1
    requires forall k :: from <= k < |asked| ==> asked[k].step < turn
    requires after == asked || (
      && |after| == |asked| + 1 && asked <= after && after[|asked|].step == turn + 1
      && Chosen(DetachedIn(g, states[turn], noted[turn]), after[|asked|].target))
    ensures LeavesFirst(g, more, moreNoted, after, from, step)
  {
    hide Chosen, DetachedIn;
    forall k | from <= k < |after|
      ensures step < after[k].step < |more|
      ensures Chosen(DetachedIn(g, more[after[k].step - 1], moreNoted[after[k].step - 1]), after[k].target)
    {
      if k < |asked| { assert after[k] == asked[k]; }
      assert more[after[k].step - 1] == states[after[k].step - 1];
      assert moreNoted[after[k].step - 1] == noted[after[k].step - 1];
    }
    forall j, k | from <= j < k < |after| ensures after[j].step + 1 < after[k].step {
      assert after[j] == asked[j];
      if k < |asked| { assert after[k] == asked[k]; }
    }
  }

  lemma NoneRefusedThen(states: seq<State>, more: seq<State>, asked: seq<Request>, from: nat, after: seq<Request>)
    requires NoneRefused(states, asked, from) && states <= more && asked <= after
    requires forall k :: from <= k < |asked| ==> asked[k].step + 1 < |states|
    requires forall k :: |asked| <= k < |after| ==> !Refused(more, after[k])
    ensures NoneRefused(more, after, from)
  {
    forall k | from <= k < |after| ensures !Refused(more, after[k]) {
      if k < |asked| { assert after[k] == asked[k] && !Refused(states, asked[k]); }
    }
  }

  lemma LeavesFirstLater(g: Group, states: seq<State>, noted: seq<Groups>, more: seq<State>, moreNoted: seq<Groups>,
      asked: seq<Request>, from: nat, step: nat)
    requires LeavesFirst(g, states, noted, asked, from, step) && Noted(more, moreNoted)
    requires states <= more && noted <= moreNoted
    ensures LeavesFirst(g, more, moreNoted, asked, from, step)
  {
    hide Chosen, DetachedIn;
  }

  lemma NothingAsked(g: Group, states: seq<State>, noted: seq<Groups>, asked: seq<Request>, step: nat)
    requires Noted(states, noted)
    ensures LeavesFirst(g, states, noted, asked, |asked|, step) && NoneRefused(states, asked, |asked|)
  {
  }

  /** The inventories the system gave. */
  function Answers(inputs: seq<Input>): seq<Input> {
    if inputs == [] then [] else Answers(inputs[..|inputs| - 1]) + Answer(inputs[|inputs| - 1])
  }

  function Answer(input: Input): seq<Input> {
    if input.Abandoned? then [] else [input]
  }

  lemma AnswersThen(inputs: seq<Input>, input: Input)
    ensures Answers(inputs + [input]) == Answers(inputs) + Answer(input)
  {
    assert (inputs + [input])[..|inputs|] == inputs;
  }

  /** The inventory before the state could be used, and tracking is trusted after it. */
  ghost predicate Trusted(g: Group, inputs: seq<Input>, states: seq<State>, step: nat)
    requires 0 < step < |states| && |states| == |inputs| + 1
  {
    Usable(g, inputs[step - 1]) && states[step].reliable && states[step].established
  }

  /**
   Why a turn for this process, chosen after `n` inventories, ends the escalation: the
   next inventory is not trusted; exact signals do not exist here; the signal was not
   answered; or the process is alive after that although no signal reached it.
   */
  ghost predicate TurnEnds(g: Group, inputs: seq<Input>, states: seq<State>, asked: seq<Request>, n: nat, target: Identity)
    requires n < |inputs| && |states| == |inputs| + 1
  {
    || !Trusted(g, inputs, states, n + 1)
    || (!g.linux && target.key in states[n + 1].alive)
    || Request(n + 1, target, None) in asked
    || (n + 2 < |states| && target.key in states[n + 2].alive
        && (target.key !in states[n + 1].alive || Request(n + 1, target, Some(false)) in asked))
  }

  /** There was such a turn, and until its first inventory the tracker abandoned nothing. */
  ghost predicate EndsAt(g: Group, inputs: seq<Input>, states: seq<State>, noted: seq<Groups>, asked: seq<Request>,
      from: nat, n: nat, target: Identity)
  {
    && from <= n < |inputs| && |states| == |inputs| + 1 && Noted(states, noted)
    && (forall m :: from <= m <= n ==> !inputs[m].Abandoned?)
    && Chosen(DetachedIn(g, states[n], noted[n]), target)
    && TurnEnds(g, inputs, states, asked, n, target)
  }

  ghost predicate Ends(g: Group, inputs: seq<Input>, states: seq<State>, noted: seq<Groups>, asked: seq<Request>, from: nat) {
    exists n, target :: EndsAt(g, inputs, states, noted, asked, from, n, target)
  }

  lemma EndsLater(g: Group, inputs: seq<Input>, states: seq<State>, noted: seq<Groups>, asked: seq<Request>, from: nat,
      moreInputs: seq<Input>, more: seq<State>, moreNoted: seq<Groups>, n: nat, target: Identity)
    requires EndsAt(g, inputs, states, noted, asked, from, n, target)
    requires inputs <= moreInputs && states <= more && noted <= moreNoted && Noted(more, moreNoted)
    requires |more| == |moreInputs| + 1
    ensures Ends(g, moreInputs, more, moreNoted, asked, from)
  {
    hide Chosen, DetachedIn;
    assert more[n] == states[n] && more[n + 1] == states[n + 1] && moreInputs[n] == inputs[n] && moreNoted[n] == noted[n];
    assert n + 2 < |states| ==> more[n + 2] == states[n + 2];
    assert forall m :: from <= m <= n ==> moreInputs[m] == inputs[m];
    assert EndsAt(g, moreInputs, more, moreNoted, asked, from, n, target);
  }

  ghost predicate NothingAbandoned(inputs: seq<Input>, from: nat) {
    forall m :: from <= m < |inputs| ==> !inputs[m].Abandoned?
  }

  class Tracker {
    const group: Group
    var ids: seq<Identity>
    var groups: Groups
    var alive: seq<Identity>
    var reliable: bool
    var established: bool
    /** Every inventory the system gave, as it gave it. */
    ghost var heard: seq<Input>
    /** Every inventory so far with the losses of trust in between, and the state after each. */
    ghost var inputs: seq<Input>
    ghost var states: seq<State>
    /** The groups noted for the tracked processes after each inventory. */
    ghost var noted: seq<Groups>
    /** Every exact signal that left so far. */
    ghost var asked: seq<Request>

    ghost function Now(): State
      reads this
    {
      State(ids, Keys(alive), reliable, established)
    }

    ghost predicate Valid()
      reads this
    {
      Tracked() && heard == Answers(inputs)
    }

    /** An inventory was given and is not yet applied. */
    ghost predicate Pending(input: Input)
      reads this
    {
      Tracked() && heard == Answers(inputs) + Answer(input)
    }

    ghost predicate Tracked()
      reads this
    {
      && Linked(ids) && Ordered(alive) && Keys(alive) <= Keys(ids) <= groups.Keys && (forall id :: id in alive ==> id in ids)
      && |states| == |noted| == |inputs| + 1 && Run(group, inputs, states) && states[|inputs|] == Now()
      && NotedAll(group, inputs, noted) && Noted(states, noted) && noted[|inputs|] == groups
    }

    constructor (group: Group)
      ensures Valid() && this.group == group && inputs == [] && asked == [] && heard == []
    {
      this.group := group;
      ids, groups, alive, reliable, established := [], map[], [], true, false;
      inputs, states, noted, asked, heard := [], [State([], {}, true, false)], [map[]], [], [];
    }

    ghost method Record(input: Input, before: State)
      requires Run(group, inputs, states) && states[|inputs|] == before && Step(group, before, input, Now())
      requires Linked(ids) && Ordered(alive) && Keys(alive) <= Keys(ids) <= groups.Keys && forall id :: id in alive ==> id in ids
      requires Noted(states, noted) && NotedAll(group, inputs, noted) && NotedBy(group, input, noted[|inputs|], groups)
      requires heard == Answers(inputs) + Answer(input)
      modifies this`inputs, this`states, this`noted
      ensures Valid() && inputs == old(inputs) + [input] && states == old(states) + [Now()] && noted == old(noted) + [groups]
    {
      hide Answers, Linked, Ordered, Keys, Step, NotedBy;
      AnswersThen(inputs, input);
      states, noted := states + [Now()], noted + [groups];
      inputs := inputs + [input];
    }

    /** Reliability is lost for good. */
    method Lose(input: Input)
      requires Pending(input) && !Usable(group, input)
      modifies this`reliable, this`inputs, this`states, this`noted
      ensures Valid() && inputs == old(inputs) + [input] && !reliable
      ensures states == old(states) + [Now()] && noted == old(noted) + [groups]
    {
      ghost var before := Now();
      reliable := false;
      Record(input, before);
    }

    /** The process table, the adapter's PID and the state of the wrapper: the system answers whatever it does. */
    method Inventory() returns (input: Input)
      requires Valid()
      modifies this`heard
      ensures heard == old(heard) + [input] && !input.Abandoned? && Pending(input)
    {
      input := *;
      if input.Abandoned? { input := Unread; }
      heard := heard + [input];
    }

    /** `refresh`: one inventory is asked for and applied. */
    method Refresh() returns (refreshed: bool)
      requires Valid()
      modifies this
      ensures Valid() && Keys(old(ids)) <= Keys(ids) && |inputs| == |old(inputs)| + 1 && old(inputs) <= inputs
      ensures states == old(states) + [Now()] && noted == old(noted) + [groups] && asked == old(asked)
      ensures refreshed <==> reliable && established && Usable(group, inputs[|old(inputs)|])
      ensures !Usable(group, inputs[|old(inputs)|]) ==> !reliable
      ensures heard == old(heard) + [inputs[|old(inputs)|]] && !inputs[|old(inputs)|].Abandoned?
    {
      hide Answers, Linked, Ordered, Keys, Step, Run, NotedFrom, Noted, NotedAll, Acceptable, Extends;
      var input := Inventory();
      if !Usable(group, input) {
        Lose(input);
        return false;
      }
      ApplyRead(input);
      return reliable && established;
    }

    /** `applyInventory` on the fields. */
    method ApplyRead(input: Input)
      requires Pending(input) && Usable(group, input)
      modifies this
      ensures Valid() && Keys(old(ids)) <= Keys(ids) && inputs == old(inputs) + [input]
      ensures states == old(states) + [Now()] && noted == old(noted) + [groups] && asked == old(asked) && heard == old(heard)
    {
      hide Answers, Linked, Ordered, Keys, Step, Run, NotedFrom, Noted, NotedAll, Acceptable, Extends;
      ghost var before := Now();
      ids, groups, alive, reliable, established :=
        ApplyInventory(group, input.rows, input.adapter, input.exited, ids, groups, reliable, established, before.alive);
      Record(input, before);
    }

    /** `processTreeAlive`: `false` only on a usable, trusted inventory with nothing tracked alive. */
    method ProcessTreeAlive(spawned: bool) returns (stillAlive: bool)
      requires Valid()
      modifies this
      ensures Valid() && asked == old(asked) && |inputs| == |old(inputs)| + if spawned then 1 else 0
      ensures spawned ==> heard == old(heard) + [inputs[|old(inputs)|]]
      ensures !stillAlive <==>
        && spawned && reliable && established && Usable(group, inputs[|inputs| - 1])
        && states[|inputs|].alive == {}
    {
      hide Answers, Linked, Ordered, Step, Run, Noted, NotedAll, Usable;
      if !spawned { return true; }
      var refreshed := Refresh();
      assert |alive| > 0 ==> alive[0].key in Keys(alive);
      return !refreshed || !reliable || |alive| > 0;
    }

    /** Tracked live processes that left the group, which the group signal does not reach. */
    function Detached(): (detached: seq<Identity>)
      requires Keys(alive) <= groups.Keys
      reads this
      ensures forall id :: id in detached <==> id in alive && groups[id.key] != group.wrapper
    {
      Alive(OutsideGroup(), alive)
    }

    function OutsideGroup(): set<Key>
      requires Keys(alive) <= groups.Keys
      reads this
    {
      set key | key in Keys(alive) && groups[key] != group.wrapper
    }

    lemma DetachedOrdered()
      requires Valid()
      ensures Ordered(Detached())
    {
      AliveIsOrdered(OutsideGroup(), alive);
    }

    lemma DetachedIsIn()
      requires Valid()
      ensures forall id :: id in Detached() <==> id in DetachedIn(group, states[|inputs|], noted[|inputs|])
    {
      forall id | id in ids && id.key in Keys(alive) ensures id in alive {
        var other :| other in alive && other.key == id.key;
        SameKey(ids, id, other);
      }
    }

    /** `signalExactLinuxIdentity`: the signal leaves, and is answered or not. */
    method Signal(target: Identity) returns (answer: Option<bool>)
      requires Valid()
      modifies this`asked
      ensures Valid() && asked == old(asked) + [Request(|inputs|, target, answer)]
    {
      answer := *;
      asked := asked + [Request(|inputs|, target, answer)];
    }

    /** The inventory and the state after it allow an exact signal to the process. */
    ghost predicate Signallable(step: nat, target: Identity)
      requires 0 < step < |states| && |states| == |inputs| + 1
      reads this
    {
      group.linux && Trusted(group, inputs, states, step) && target.key in states[step].alive
    }

    /**
     `signalExactIdentity`: a signal leaves exactly when, on Linux, a fresh usable and
     trusted inventory still shows the identity alive. `None` ends the escalation, and
     trust with it: without a trusted inventory, off Linux, or without an answer.
     */
    method SignalExact(target: Identity) returns (sent: Option<bool>)
      requires Valid()
      modifies this
      ensures Valid() && Keys(old(ids)) <= Keys(ids) && |inputs| > |old(inputs)| && old(inputs) <= inputs
      ensures old(states) <= states && old(noted) <= noted && !inputs[|old(inputs)|].Abandoned?
      ensures heard == old(heard) + [inputs[|old(inputs)|]]
      ensures asked == old(asked) +
        if Signallable(|old(inputs)| + 1, target) then [Request(|old(inputs)| + 1, target, sent)] else []
      ensures sent == Some(true) ==> Signallable(|old(inputs)| + 1, target)
      ensures sent.None? ==>
        || !Trusted(group, inputs, states, |old(inputs)| + 1)
        || (target.key in states[|old(inputs)| + 1].alive && (!group.linux || Request(|old(inputs)| + 1, target, None) in asked))
      ensures !Trusted(group, inputs, states, |old(inputs)| + 1) ==> sent.None?
      ensures sent.None? ==> !reliable || !established
      ensures sent.Some? ==> |inputs| == |old(inputs)| + 1 && reliable && established
    {
      hide Linked, Ordered, Run, Step, Noted, NotedAll, Keys, Answers;
      var refreshed := Refresh();
      if !refreshed || !reliable { return None; }
      if target.key !in Keys(alive) { return Some(false); }
      if !group.linux {
        Lose(Abandoned);
        return None;
      }
      sent := Signal(target);
      if sent.None? { Lose(Abandoned); }
    }

    /** One turn of the escalation: `refused` when the target is still alive although no signal reached it. */
    method SignalLeaf(detached: seq<Identity>) returns (sent: Option<bool>, refused: bool, ghost target: Identity)
      requires Valid() && detached == Detached() && detached != []
      modifies this
      ensures Valid() && |inputs| > |old(inputs)| && old(inputs) <= inputs && !inputs[|old(inputs)|].Abandoned?
      ensures sent.Some? ==>
        |inputs| == |old(inputs)| + 2 && |heard| == |old(heard)| + 2 && !inputs[|old(inputs)| + 1].Abandoned?
      ensures old(states) <= states && old(noted) <= noted && old(asked) <= asked
      ensures Chosen(DetachedIn(group, old(states)[|old(inputs)|], old(noted)[|old(inputs)|]), target)
      ensures asked == old(asked) || (
        && |asked| == |old(asked)| + 1 && asked[|old(asked)|].step == |old(inputs)| + 1
        && asked[|old(asked)|].target == target)
      ensures sent.None? ==> !reliable || !established
      ensures sent.None? || refused ==> TurnEnds(group, inputs, states, asked, |old(inputs)|, target)
      ensures sent.Some? && !refused ==> forall k :: |old(asked)| <= k < |asked| ==> !Refused(states, asked[k])
    {
      hide Linked, Ordered, Run, Noted, NotedAll, Keys, Answers, Step;
      DetachedOrdered();
      DetachedIsIn();
      var leaf := ChooseLeaf(detached);
      target := leaf;
      ChosenAmong(detached, DetachedIn(group, states[|inputs|], noted[|inputs|]), target);
      sent := SignalExact(leaf);
      refused := false;
      if sent.None? { return; }
      var refreshed := Refresh();
      refused := !sent.value && leaf.key in Keys(alive);
    }

    /**
     The forced escalation over detached processes: leaves only, greatest PID first,
     each still alive in a trusted inventory of its own. With trust kept to the end no
     refused target was still alive afterwards. It ends when nothing detached is alive,
     after 4096 full turns, or with a turn that had to end it (`TurnEnds`), and only such
     a turn makes the tracker abandon its trust.
     */
    method ForceDetached() returns (exhausted: bool)
      requires Valid()
      modifies this
      ensures Valid() && old(asked) <= asked && |asked| <= |old(asked)| + FORCE_ATTEMPTS
      ensures LeavesFirst(group, states, noted, asked, |old(asked)|, |old(inputs)|)
      ensures reliable && established ==> NoneRefused(states, asked, |old(asked)|)
      ensures
        || Detached() == [] || Ends(group, inputs, states, noted, asked, |old(inputs)|)
        || (exhausted && |heard| == |old(heard)| + 2 * 4096)
      ensures Ends(group, inputs, states, noted, asked, |old(inputs)|) || NothingAbandoned(inputs, |old(inputs)|)
      ensures reliable && established && !exhausted ==> Detached() == []
    {
      hide Run, Leaf, Linked, Ordered, Noted, NotedAll, Keys, Chosen, DetachedIn, LeavesFirst, NoneRefused, Refused,
        Answers, TurnEnds;
      ghost var before, step := |asked|, |inputs|;
      NothingAsked(group, states, noted, asked, step);
      var attempt := 0;
      exhausted := false;
      var detached := Detached();
      while |detached| > 0 && attempt < FORCE_ATTEMPTS
        invariant Valid() && detached == Detached() && old(asked) <= asked && |asked| <= before + attempt
        invariant attempt <= FORCE_ATTEMPTS && step <= |inputs| && LeavesFirst(group, states, noted, asked, before, step)
        invariant forall k :: before <= k < |asked| ==> asked[k].step < |inputs|
        invariant NoneRefused(states, asked, before)
        invariant NothingAbandoned(inputs, step) && |heard| == |old(heard)| + 2 * attempt
        decreases FORCE_ATTEMPTS - attempt
      {
        ghost var states1, noted1, asked1, turn := states, noted, asked, |inputs|;
        var sent, refused;
        ghost var target;
        sent, refused, target := SignalLeaf(detached);
        LeavesFirstThen(group, states1, noted1, states, noted, asked1, before, step, turn, asked);
        if sent.None? {
          EndsNow(group, inputs, states, noted, asked, step, turn, target);
          return;
        }
        if refused {
          ghost var inputs2, states2, noted2 := inputs, states, noted;
          Lose(Abandoned);
          LeavesFirstLater(group, states2, noted2, states, noted, asked, before, step);
          EndsLater(group, inputs2, states2, noted2, asked, step, inputs, states, noted, turn, target);
          return;
        }
        NoneRefusedThen(states1, states, asked1, before, asked);
        detached := Detached();
        attempt := attempt + 1;
      }
      exhausted := |detached| > 0;
    }
  }

  lemma EndsNow(g: Group, inputs: seq<Input>, states: seq<State>, noted: seq<Groups>, asked: seq<Request>,
      from: nat, n: nat, target: Identity)
    requires EndsAt(g, inputs, states, noted, asked, from, n, target)
    ensures Ends(g, inputs, states, noted, asked, from)
  {
  }

  lemma SameKey(ids: seq<Identity>, a: Identity, b: Identity)
    requires Linked(ids) && a in ids && b in ids && a.key == b.key
    ensures a == b
  {
    var i :| 0 <= i < |ids| && ids[i] == a;
    var j :| 0 <= j < |ids| && ids[j] == b;
  }

  lemma ChosenAmong(ids: seq<Identity>, others: seq<Identity>, id: Identity)
    requires Chosen(ids, id) && forall x :: x in ids <==> x in others
    ensures Chosen(others, id)
  {
    forall other | Leaf(others, other) ensures other.key.pid <= id.key.pid {
      assert Leaf(ids, other);
    }
  }
}
