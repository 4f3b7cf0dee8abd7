/**
 The legacy inventory tracker of src/windows-process-tree.mjs: which processes it
 takes for descendants of the root, when it admits that it does not know, and what
 it kills. A process is identified by its PID together with its creation time.
 */
module WindowsTracker {
  import opened Wrappers
  import opened ProcessTree

  const FORCE_ATTEMPTS := 4096

  /** One inventory row; `created` is absent when the creation time could not be read. */
  datatype Row = Row(pid: nat, parent: nat, created: Option<nat>)

  /**
   What listing the processes gave; a row that is not a process is `None`. `GivenUp` is
   no listing: the tracker ended its trust on its own account.
   */
  datatype Listing = Failed | Listed(rows: seq<Option<Row>>) | GivenUp

  predicate Readable(row: Row) {
    row.created.Some?
  }

  function KeyOf(row: Row): Key
    requires Readable(row)
  {
    Key(row.pid, row.created.value)
  }

  predicate Distinct(rows: seq<Row>) {
    forall j, k :: 0 <= j < k < |rows| ==> rows[j].pid != rows[k].pid
  }

  predicate AllRows(listed: seq<Option<Row>>) {
    forall j :: 0 <= j < |listed| ==> listed[j].Some?
  }

  function Rows(listed: seq<Option<Row>>): (rows: seq<Row>)
    requires AllRows(listed)
    ensures |rows| == |listed| && forall j :: 0 <= j < |rows| ==> rows[j] == listed[j].value
  {
    seq(|listed|, (j: nat) requires j < |listed| => listed[j].value)
  }

  predicate Usable(listing: Listing) {
    listing.Listed? && AllRows(listing.rows) && Distinct(Rows(listing.rows))
  }

  /** `currentByPid.get(pid)`. */
  function Current(rows: seq<Row>, pid: nat): (r: Option<Row>)
    ensures r.Some? ==> r.value in rows && r.value.pid == pid && Readable(r.value)
    ensures r.None? ==> forall row :: row in rows && Readable(row) ==> row.pid != pid
  {
    if rows == [] then None
    else
      var rest := Current(rows[..|rows| - 1], pid);
      var last := rows[|rows| - 1];
      if last.pid == pid && Readable(last) then Some(last) else rest
  }

  lemma CurrentIs(rows: seq<Row>, row: Row)
    requires Distinct(rows) && row in rows && Readable(row)
    ensures Current(rows, row.pid) == Some(row)
  {
  }

  // -------------------------------------------------------- specification

  /** `child` names `parent` as its creator and did not start before it. */
  predicate ChildOf(parent: Row, child: Row) {
    && Readable(parent) && Readable(child)
    && child.parent == parent.pid && parent.created.value <= child.created.value
  }

  ghost predicate Closed(rows: seq<Row>, keys: set<Key>) {
    forall p, c :: p in rows && c in rows && ChildOf(p, c) && KeyOf(p) in keys ==> KeyOf(c) in keys
  }

  /** `after` is the least closed set that contains `before`. */
  ghost predicate LeastGrowth(rows: seq<Row>, before: set<Key>, after: set<Key>) {
    && before <= after && Closed(rows, after)
    && forall keys :: before <= keys && Closed(rows, keys) ==> after <= keys
  }

  predicate Present(rows: seq<Row>, key: Key) {
    Current(rows, key.pid).Some? && Current(rows, key.pid).value.created == Some(key.time)
  }

  /** A process younger than the root whose creator has no readable row. */
  predicate AbsentParent(root: Key, rows: seq<Row>, tracked: set<Key>) {
    exists row :: row in rows && Orphaned(root, rows, tracked, row)
  }

  predicate Orphaned(root: Key, rows: seq<Row>, tracked: set<Key>, row: Row) {
    && Readable(row) && row.pid != root.pid && row.parent != 0
    && Current(rows, row.parent).None? && KeyOf(row) !in tracked && root.time <= row.created.value
  }

  ghost predicate PidClosed(rows: seq<Row>, pids: set<nat>) {
    forall row :: row in rows && row.parent in pids ==> row.pid in pids
  }

  function Pids(tracked: set<Key>): set<nat> {
    set key | key in tracked :: key.pid
  }

  /** The PID follows from tracked PIDs by parent links, whatever the creation times. */
  ghost predicate PossiblySupervised(rows: seq<Row>, tracked: set<Key>, pid: nat) {
    forall pids :: Pids(tracked) <= pids && PidClosed(rows, pids) ==> pid in pids
  }

  ghost predicate UnreadableSuspect(rows: seq<Row>, tracked: set<Key>) {
    exists row :: row in rows && !Readable(row) && PossiblySupervised(rows, tracked, row.pid)
  }

  predicate NoLater(key: Key, row: Row)
    requires Readable(row)
  {
    key.pid == row.parent && key.time <= row.created.value
  }

  /** An untracked process may be the child of a tracked one that is gone. */
  predicate MaybeChild(rows: seq<Row>, tracked: set<Key>, row: Row) {
    && Readable(row) && KeyOf(row) !in tracked
    && (exists key :: key in tracked && NoLater(key, row))
    && !(Current(rows, row.parent).Some? && ChildOf(Current(rows, row.parent).value, row))
  }

  predicate Ambiguous(rows: seq<Row>, tracked: set<Key>) {
    exists row :: row in rows && MaybeChild(rows, tracked, row)
  }

  datatype State = State(tracked: set<Key>, alive: set<Key>, reliable: bool, established: bool)

  function Initial(root: Option<Key>): State {
    State(if root.Some? then {root.value} else {}, {}, root.Some?, false)
  }

  /** What one listing does to the tracker. */
  ghost predicate Step(root: Option<Key>, a: State, listing: Listing, b: State) {
    if !Usable(listing) then b == a.(reliable := false)
    else
      var rows := Rows(listing.rows);
      && LeastGrowth(rows, a.tracked, b.tracked)
      && b.established == (a.established || (root.Some? && Present(rows, root.value)))
      && (b.reliable <==>
            && a.reliable && b.established
            && !(root.Some? && AbsentParent(root.value, rows, a.tracked))
            && !UnreadableSuspect(rows, b.tracked)
            && !Ambiguous(rows, b.tracked))
      && b.alive == set key | key in b.tracked && Present(rows, key)
  }

  ghost predicate Run(root: Option<Key>, listings: seq<Listing>, states: seq<State>) {
    && |states| == |listings| + 1 && states[0] == Initial(root)
    && forall i :: 0 <= i < |listings| ==> Step(root, states[i], listings[i], states[i + 1])
  }

  // ----------------------------------------------------------- the system

  /** Who created each process; a process without an entry has no creator. */
  type Creators = map<Key, Key>

  /** The processes of one instant, and those whose creation time can be read. */
  datatype Moment = Moment(live: set<Key>, readable: set<Key>)

  ghost predicate Descendant(creators: Creators, root: Key, x: Key, generations: nat)
    decreases generations
  {
    if generations == 0 then x == root
    else x in creators && Descendant(creators, root, creators[x], generations - 1)
  }

  ghost predicate Descends(creators: Creators, root: Key, x: Key) {
    exists generations: nat :: Descendant(creators, root, x, generations)
  }

  /**
   Windows: one process per PID at a time, a creator is no younger than its child,
   and a PID is reused only after everything its earlier holder created.
   */
  ghost predicate Legal(creators: Creators, m: Moment) {
    && m.readable <= m.live
    && (forall x :: x in m.live ==> x.pid != 0)
    && (forall x, y :: x in m.live && y in m.live && x.pid == y.pid ==> x == y)
    && (forall x :: x in creators ==> creators[x].pid != 0 && creators[x].time <= x.time)
    && (forall x, y :: x in m.live && x in creators && y in m.live && y.pid == creators[x].pid && y != creators[x] ==>
          x.time < y.time)
  }

  function RowOf(creators: Creators, m: Moment, x: Key): Row {
    Row(x.pid, if x in creators then creators[x].pid else 0, if x in m.readable then Some(x.time) else None)
  }

  /** The inventory shows exactly the processes of the instant, in any order; a PID of an exited creator is retained. */
  ghost predicate Depicts(creators: Creators, m: Moment, rows: seq<Row>) {
    && Distinct(rows)
    && (forall x :: x in m.live ==> RowOf(creators, m, x) in rows)
    && (forall row :: row in rows ==> exists x :: x in m.live && row == RowOf(creators, m, x))
  }

  /**
   The hypothesis about never-sampled creators: the PID of such a creator is not
   held by another readable process, and its child does not hold the root's PID.
   */
  ghost predicate OrphansApart(creators: Creators, root: Key, m: Moment, sampled: set<Key>) {
    forall x :: x in m.readable && x in creators && Descends(creators, root, x) && creators[x] !in sampled ==>
      x.pid != root.pid && forall y :: y in m.readable ==> y.pid != creators[x].pid
  }

  ghost predicate Caught(creators: Creators, root: Key, sampled: set<Key>, tracked: set<Key>) {
    forall x :: x in sampled && Descends(creators, root, x) ==> x in tracked
  }

  lemma {:induction false} DescendantsAreYounger(creators: Creators, root: Key, x: Key, generations: nat)
    requires Descendant(creators, root, x, generations)
    requires forall y :: y in creators ==> creators[y].time <= y.time
    ensures root.time <= x.time
    decreases generations
  {
    if generations > 0 { DescendantsAreYounger(creators, root, creators[x], generations - 1); }
  }

  lemma ReadableRow(creators: Creators, m: Moment, rows: seq<Row>, row: Row) returns (x: Key)
    requires Depicts(creators, m, rows) && row in rows && Readable(row)
    ensures x in m.readable && x in m.live && row == RowOf(creators, m, x) && KeyOf(row) == x
  {
    x :| x in m.live && row == RowOf(creators, m, x);
  }

  /** A current row that could be the parent of another really is its creator's. */
  lemma LinkIsTrue(creators: Creators, m: Moment, rows: seq<Row>, p: Row, c: Row)
    requires Legal(creators, m) && Depicts(creators, m, rows) && p in rows && c in rows
    ensures ChildOf(p, c) && c.parent != 0 ==>
      KeyOf(c) in creators && creators[KeyOf(c)] == KeyOf(p) && KeyOf(p) in m.readable
  {
    if ChildOf(p, c) && c.parent != 0 {
      var y := ReadableRow(creators, m, rows, p);
      var x := ReadableRow(creators, m, rows, c);
    }
  }

  /** While the tracker stays reliable, every readable descendant in the inventory is tracked. */
  lemma {:induction false} StepCatches(creators: Creators, root: Key, m: Moment, rows: seq<Row>,
      a: State, listing: Listing, b: State, sampled: set<Key>, x: Key, generations: nat)
    requires Usable(listing) && Rows(listing.rows) == rows && Step(Some(root), a, listing, b) && b.reliable
    requires root in a.tracked && Caught(creators, root, sampled, a.tracked)
    requires Legal(creators, m) && Depicts(creators, m, rows)
    requires OrphansApart(creators, root, m, sampled + m.readable)
    requires x in m.readable && Descendant(creators, root, x, generations)
    ensures x in b.tracked
    decreases generations
  {
    hide Step, Depicts, Closed, Ambiguous, AbsentParent;
    StepRulesOut(root, a, listing, b);
    if generations > 0 {
      var c := creators[x];
      assert Descends(creators, root, c) && Descends(creators, root, x);
      if c in m.readable {
        StepCatches(creators, root, m, rows, a, listing, b, sampled, c, generations - 1);
        ChildIsCaught(creators, m, rows, b.tracked, x);
      } else if x !in b.tracked && c in sampled {
        GoneCreatorIsAmbiguous(creators, m, rows, b.tracked, x);
      } else if x !in b.tracked {
        DescendantsAreYounger(creators, root, x, generations);
        LostCreatorIsAbsent(creators, root, m, rows, a.tracked, x);
      }
    }
  }

  lemma StepRulesOut(root: Key, a: State, listing: Listing, b: State)
    requires Usable(listing) && Step(Some(root), a, listing, b) && b.reliable
    ensures a.tracked <= b.tracked && Closed(Rows(listing.rows), b.tracked)
    ensures !Ambiguous(Rows(listing.rows), b.tracked) && !AbsentParent(root, Rows(listing.rows), a.tracked)
  {
  }

  lemma ChildIsCaught(creators: Creators, m: Moment, rows: seq<Row>, tracked: set<Key>, x: Key)
    requires Depicts(creators, m, rows) && m.readable <= m.live && Closed(rows, tracked)
    requires x in m.readable && x in creators && creators[x] in m.readable && creators[x] in tracked
    requires creators[x].time <= x.time
    ensures x in tracked
  {
    assert ChildOf(RowOf(creators, m, creators[x]), RowOf(creators, m, x));
  }

  lemma LostCreatorIsAbsent(creators: Creators, root: Key, m: Moment, rows: seq<Row>, tracked: set<Key>, x: Key)
    requires Depicts(creators, m, rows) && m.readable <= m.live && x in m.readable && x !in tracked
    requires x in creators && creators[x].pid != 0 && x.pid != root.pid && root.time <= x.time
    requires forall y :: y in m.readable ==> y.pid != creators[x].pid
    ensures AbsentParent(root, rows, tracked)
  {
    var row := RowOf(creators, m, x);
    assert row in rows;
    if Current(rows, row.parent).Some? {
      var y := ReadableRow(creators, m, rows, Current(rows, row.parent).value);
    }
    assert Orphaned(root, rows, tracked, row);
  }

  lemma GoneCreatorIsAmbiguous(creators: Creators, m: Moment, rows: seq<Row>, tracked: set<Key>, x: Key)
    requires Legal(creators, m) && Depicts(creators, m, rows)
    requires x in m.readable && x in creators && x !in tracked
    requires creators[x] in tracked && creators[x] !in m.readable
    ensures Ambiguous(rows, tracked)
  {
    var row := RowOf(creators, m, x);
    assert row in rows && NoLater(creators[x], row);
    if Current(rows, row.parent).Some? {
      LinkIsTrue(creators, m, rows, Current(rows, row.parent).value, row);
    }
    assert MaybeChild(rows, tracked, row);
  }

  /** Nothing but descendants is ever tracked. */
  lemma StepTracksDescendants(creators: Creators, root: Key, m: Moment, rows: seq<Row>, before: set<Key>, after: set<Key>)
    requires LeastGrowth(rows, before, after) && Legal(creators, m) && Depicts(creators, m, rows)
    requires forall x :: x in before ==> Descends(creators, root, x)
    ensures forall x :: x in after ==> Descends(creators, root, x)
  {
    var kept := set x | x in after && Descends(creators, root, x);
    forall p, c | p in rows && c in rows && ChildOf(p, c) && KeyOf(p) in kept ensures KeyOf(c) in kept {
      var y := ReadableRow(creators, m, rows, p);
      LinkIsTrue(creators, m, rows, p, c);
      var n: nat :| Descendant(creators, root, KeyOf(p), n);
      assert Descendant(creators, root, KeyOf(c), n + 1);
    }
    assert Closed(rows, kept);
  }

  /**
   Nothing hides: every process can be read, and each one that is not tracked yet has no
   creator, or one that is still there, or is older than the root and everything tracked.
   */
  ghost predicate NothingHides(creators: Creators, root: Key, m: Moment, tracked: set<Key>) {
    && m.readable == m.live
    && forall x :: x in m.live && x !in tracked && x in creators ==>
         creators[x] in m.live || (x.time < root.time && x.pid != root.pid)
  }

  /** What is tracked: no younger than the root, and never the idle process. */
  ghost predicate Rooted(root: Key, tracked: set<Key>) {
    forall key :: key in tracked ==> key.pid != 0 && root.time <= key.time
  }

  lemma GrowthStaysRooted(creators: Creators, root: Key, m: Moment, rows: seq<Row>, before: set<Key>, after: set<Key>)
    requires LeastGrowth(rows, before, after) && Legal(creators, m) && Depicts(creators, m, rows) && Rooted(root, before)
    ensures Rooted(root, after)
  {
    var kept := set key | key in after && key.pid != 0 && root.time <= key.time;
    forall p, c | p in rows && c in rows && ChildOf(p, c) && KeyOf(p) in kept ensures KeyOf(c) in kept {
      var x := ReadableRow(creators, m, rows, c);
    }
    assert Closed(rows, kept);
  }

  /** An inventory in which nothing hides keeps the tracker reliable, once the root was seen. */
  lemma StepStaysReliable(creators: Creators, root: Key, m: Moment, rows: seq<Row>, a: State, listing: Listing, b: State)
    requires Usable(listing) && Rows(listing.rows) == rows && Step(Some(root), a, listing, b)
    requires Legal(creators, m) && Depicts(creators, m, rows) && NothingHides(creators, root, m, a.tracked)
    requires a.reliable && (a.established || root in m.live) && Rooted(root, a.tracked)
    ensures b.reliable && b.established && Rooted(root, b.tracked)
  {
    hide LeastGrowth, UnreadableSuspect, Ambiguous, AbsentParent, Orphaned, MaybeChild;
    GrowthStaysRooted(creators, root, m, rows, a.tracked, b.tracked);
    if root in m.live {
      assert RowOf(creators, m, root) in rows;
      CurrentIs(rows, RowOf(creators, m, root));
    }
    NobodyUnreadable(creators, m, rows, b.tracked);
    forall row | row in rows ensures !Orphaned(root, rows, a.tracked, row) {
      NotOrphaned(creators, root, m, rows, a.tracked, row);
    }
    Grows(rows, a.tracked, b.tracked);
    forall row | row in rows ensures !MaybeChild(rows, b.tracked, row) {
      NotInDoubt(creators, root, m, rows, a.tracked, b.tracked, row);
    }
    NoneAmbiguous(root, rows, a.tracked, b.tracked);
  }

  lemma Grows(rows: seq<Row>, before: set<Key>, after: set<Key>)
    requires LeastGrowth(rows, before, after)
    ensures before <= after
  {
  }

  lemma NoneAmbiguous(root: Key, rows: seq<Row>, before: set<Key>, after: set<Key>)
    requires forall row :: row in rows ==> !Orphaned(root, rows, before, row) && !MaybeChild(rows, after, row)
    ensures !AbsentParent(root, rows, before) && !Ambiguous(rows, after)
  {
  }

  lemma NobodyUnreadable(creators: Creators, m: Moment, rows: seq<Row>, tracked: set<Key>)
    requires Depicts(creators, m, rows) && m.readable == m.live
    ensures !UnreadableSuspect(rows, tracked)
  {
    forall row | row in rows ensures Readable(row) { }
  }

  lemma NotOrphaned(creators: Creators, root: Key, m: Moment, rows: seq<Row>, tracked: set<Key>, row: Row)
    requires Legal(creators, m) && Depicts(creators, m, rows) && NothingHides(creators, root, m, tracked) && row in rows
    ensures !Orphaned(root, rows, tracked, row)
  {
    if Readable(row) && row.parent != 0 && KeyOf(row) !in tracked {
      var x := ReadableRow(creators, m, rows, row);
      if creators[x] in m.live {
        assert RowOf(creators, m, creators[x]) in rows;
        CurrentIs(rows, RowOf(creators, m, creators[x]));
      }
    }
  }

  lemma NotInDoubt(creators: Creators, root: Key, m: Moment, rows: seq<Row>, before: set<Key>, after: set<Key>, row: Row)
    requires Legal(creators, m) && Depicts(creators, m, rows) && NothingHides(creators, root, m, before) && row in rows
    requires before <= after && Rooted(root, after)
    ensures !MaybeChild(rows, after, row)
  {
    if Readable(row) && KeyOf(row) !in after {
      var x := ReadableRow(creators, m, rows, row);
      if x in creators && creators[x] in m.live {
        assert RowOf(creators, m, creators[x]) in rows;
        CurrentIs(rows, RowOf(creators, m, creators[x]));
      }
    }
  }

  /** Over a whole run: while nothing hides from any inventory, the tracker stays reliable. */
  lemma {:induction false} RunStaysReliable(creators: Creators, root: Key, listings: seq<Listing>, moments: seq<Moment>,
      states: seq<State>, n: nat)
    requires Run(Some(root), listings, states) && Shown(creators, listings, moments) && n <= |listings|
    requires root.pid != 0 && (n > 0 ==> root in moments[0].live)
    requires forall i :: 0 <= i < n ==> Usable(listings[i]) && NothingHides(creators, root, moments[i], states[i].tracked)
    ensures states[n].reliable && Rooted(root, states[n].tracked) && (n > 0 ==> states[n].established)
  {
    hide Step, Depicts, Legal, NothingHides;
    if n > 0 {
      RunStaysReliable(creators, root, listings, moments, states, n - 1);
      assert Step(Some(root), states[n - 1], listings[n - 1], states[n]);
      StepStaysReliable(creators, root, moments[n - 1], Rows(listings[n - 1].rows), states[n - 1], listings[n - 1], states[n]);
    }
  }

  /**
   An unreadable descendant is noticed too, unless its creator, or an unreadable
   creator further up, was gone before it was ever sampled.
   */
  lemma {:induction false} StepSuspects(creators: Creators, root: Key, m: Moment, rows: seq<Row>,
      a: State, listing: Listing, b: State, sampled: set<Key>, x: Key, generations: nat)
    requires Usable(listing) && Rows(listing.rows) == rows && Step(Some(root), a, listing, b) && b.reliable
    requires root in a.tracked && Caught(creators, root, sampled, a.tracked)
    requires Legal(creators, m) && Depicts(creators, m, rows)
    requires OrphansApart(creators, root, m, sampled + m.readable)
    requires OrphansReadable(creators, root, m, sampled + m.readable)
    requires x in m.live && Descendant(creators, root, x, generations)
    ensures x in m.readable && x in b.tracked
    decreases generations
  {
    hide Step, Depicts, OrphansApart, UnreadableSuspect;
    StepSuspectsNothing(Some(root), a, listing, b);
    if x in m.readable {
      StepCatches(creators, root, m, rows, a, listing, b, sampled, x, generations);
    } else if generations == 0 {
      UnreadableIsSuspect(creators, m, rows, b.tracked, x);
    } else {
      var c := creators[x];
      assert Descends(creators, root, c) && Descends(creators, root, x);
      if c in m.live {
        StepSuspects(creators, root, m, rows, a, listing, b, sampled, c, generations - 1);
      }
      UnreadableIsSuspect(creators, m, rows, b.tracked, x);
    }
  }

  lemma StepSuspectsNothing(root: Option<Key>, a: State, listing: Listing, b: State)
    requires Usable(listing) && Step(root, a, listing, b) && b.reliable
    ensures a.tracked <= b.tracked && !UnreadableSuspect(Rows(listing.rows), b.tracked)
  {
  }

  lemma UnreadableIsSuspect(creators: Creators, m: Moment, rows: seq<Row>, tracked: set<Key>, x: Key)
    requires Depicts(creators, m, rows) && x in m.live && x !in m.readable
    requires x in tracked || (x in creators && creators[x] in tracked)
    ensures UnreadableSuspect(rows, tracked)
  {
    var row := RowOf(creators, m, x);
    assert row in rows;
    assert if x in tracked then x.pid in Pids(tracked) else creators[x].pid in Pids(tracked);
    assert PossiblySupervised(rows, tracked, row.pid);
  }

  /** Every process whose creator is gone without having been sampled can be read. */
  ghost predicate OrphansReadable(creators: Creators, root: Key, m: Moment, sampled: set<Key>) {
    forall x :: x in m.live && x in creators && Descends(creators, root, x) && creators[x] !in sampled + m.live ==>
      x in m.readable
  }

  // ------------------------------------------------------------ whole runs

  function Sampled(moments: seq<Moment>, n: nat): set<Key>
    requires n <= |moments|
  {
    if n == 0 then {} else Sampled(moments, n - 1) + moments[n - 1].readable
  }

  /** Every usable listing of the run shows its instant. */
  ghost predicate Shown(creators: Creators, listings: seq<Listing>, moments: seq<Moment>) {
    && |moments| == |listings|
    && forall i :: 0 <= i < |listings| && Usable(listings[i]) ==>
         Legal(creators, moments[i]) && Depicts(creators, moments[i], Rows(listings[i].rows))
  }

  ghost predicate Apart(creators: Creators, root: Key, moments: seq<Moment>) {
    forall i :: 0 <= i < |moments| ==> OrphansApart(creators, root, moments[i], Sampled(moments, i + 1))
  }

  lemma {:induction false} RunCatches(creators: Creators, root: Key, listings: seq<Listing>, moments: seq<Moment>,
      states: seq<State>, n: nat)
    requires Run(Some(root), listings, states) && Shown(creators, listings, moments) && Apart(creators, root, moments)
    requires n <= |listings| && states[n].reliable
    ensures root in states[n].tracked && Caught(creators, root, Sampled(moments, n), states[n].tracked)
  {
    if n > 0 {
      assert Step(Some(root), states[n - 1], listings[n - 1], states[n]);
      RunCatches(creators, root, listings, moments, states, n - 1);
      var m, before := moments[n - 1], Sampled(moments, n - 1);
      forall x | x in Sampled(moments, n) && Descends(creators, root, x) ensures x in states[n].tracked {
        if x in m.readable {
          var g: nat :| Descendant(creators, root, x, g);
          StepCatches(creators, root, m, Rows(listings[n - 1].rows), states[n - 1], listings[n - 1], states[n], before, x, g);
        }
      }
    }
  }

  /**
   Terminated means terminated: if after the last listing the tracker is reliable
   and nothing tracked is alive, then no readable process of that instant descends
   from the root, whatever PIDs were reused and whatever exited meanwhile.
   */
  lemma TerminatedMeansGone(creators: Creators, root: Key, listings: seq<Listing>, moments: seq<Moment>, states: seq<State>)
    requires Run(Some(root), listings, states) && Shown(creators, listings, moments) && Apart(creators, root, moments)
    requires listings != [] && states[|listings|].reliable && states[|listings|].alive == {}
    ensures forall x :: x in moments[|listings| - 1].readable ==> !Descends(creators, root, x)
    ensures OrphansReadable(creators, root, moments[|listings| - 1], Sampled(moments, |listings|)) ==>
      forall x :: x in moments[|listings| - 1].live ==> !Descends(creators, root, x)
  {
    var n := |listings|;
    var m := moments[n - 1];
    assert Step(Some(root), states[n - 1], listings[n - 1], states[n]);
    RunCatches(creators, root, listings, moments, states, n);
    RunCatches(creators, root, listings, moments, states, n - 1);
    var rows := Rows(listings[n - 1].rows);
    forall x | x in m.readable ensures !Descends(creators, root, x) {
      if Descends(creators, root, x) { TrackedIsAlive(creators, root, m, states[n - 1], listings[n - 1], states[n], x); }
    }
    if OrphansReadable(creators, root, m, Sampled(moments, n)) {
      forall x | x in m.live ensures !Descends(creators, root, x) {
        if g: nat :| Descendant(creators, root, x, g) {
          StepSuspects(creators, root, m, rows, states[n - 1], listings[n - 1], states[n], Sampled(moments, n - 1), x, g);
        }
      }
    }
  }

  lemma TrackedIsAlive(creators: Creators, root: Key, m: Moment, a: State, listing: Listing, b: State, x: Key)
    requires Step(Some(root), a, listing, b) && Usable(listing) && Depicts(creators, m, Rows(listing.rows))
    requires m.readable <= m.live && x in m.readable && x in b.tracked
    ensures x in b.alive
  {
    CurrentIs(Rows(listing.rows), RowOf(creators, m, x));
  }

  /** Only descendants of the root are ever tracked, so only they are ever killed. */
  lemma {:induction false} TracksOnlyDescendants(creators: Creators, root: Key, listings: seq<Listing>, moments: seq<Moment>,
      states: seq<State>, n: nat, x: Key)
    requires Run(Some(root), listings, states) && Shown(creators, listings, moments)
    requires n <= |listings| && x in states[n].tracked
    ensures Descends(creators, root, x)
    decreases n
  {
    if n == 0 {
      assert Descendant(creators, root, x, 0);
    } else {
      assert Step(Some(root), states[n - 1], listings[n - 1], states[n]);
      forall y | y in states[n - 1].tracked ensures Descends(creators, root, y) {
        TracksOnlyDescendants(creators, root, listings, moments, states, n - 1, y);
      }
      if Usable(listings[n - 1]) {
        StepTracksDescendants(creators, root, moments[n - 1], Rows(listings[n - 1].rows), states[n - 1].tracked, states[n].tracked);
      }
    }
  }

  /** Reliability, once lost, never returns, and no identity is ever forgotten. */
  lemma {:induction false} NeverReliableAgain(root: Option<Key>, listings: seq<Listing>, states: seq<State>, i: nat, j: nat)
    requires Run(root, listings, states) && i <= j <= |listings|
    ensures states[j].reliable ==> states[i].reliable
    ensures states[i].tracked <= states[j].tracked
    decreases j
  {
    if i < j {
      assert Step(root, states[j - 1], listings[j - 1], states[j]);
      NeverReliableAgain(root, listings, states, i, j - 1);
    }
  }

  /** A root, its child and a grandchild that got the root's PID after both had exited, the child unsampled. */
  function ReuseRow(second: bool): Row {
    if second then Row(5, 7, Some(30)) else Row(5, 0, Some(10))
  }

  function ReuseCreators(): Creators {
    map[Key(7, 20) := Key(5, 10), Key(5, 30) := Key(7, 20)]
  }

  function ReuseMoment(second: bool): Moment {
    if second then Moment({Key(5, 30)}, {Key(5, 30)}) else Moment({Key(5, 10)}, {Key(5, 10)})
  }

  function ReuseListing(second: bool): Listing {
    Listed([Some(ReuseRow(second))])
  }

  function ReuseState(second: bool): State {
    State({Key(5, 10)}, if second then {} else {Key(5, 10)}, true, true)
  }

  lemma ReuseShows(second: bool)
    ensures Usable(ReuseListing(second)) && Rows(ReuseListing(second).rows) == [ReuseRow(second)]
    ensures Legal(ReuseCreators(), ReuseMoment(second))
    ensures Depicts(ReuseCreators(), ReuseMoment(second), [ReuseRow(second)])
  {
    var x := if second then Key(5, 30) else Key(5, 10);
    assert Rows(ReuseListing(second).rows) == [ReuseRow(second)];
    assert RowOf(ReuseCreators(), ReuseMoment(second), x) == ReuseRow(second);
    assert ReuseRow(second) in [ReuseRow(second)];
  }

  lemma ReuseStep(second: bool)
    ensures Step(Some(Key(5, 10)), if second then ReuseState(false) else Initial(Some(Key(5, 10))),
                 ReuseListing(second), ReuseState(second))
  {
    hide LeastGrowth, UnreadableSuspect, Ambiguous, Usable, Rows, Depicts, Legal, AbsentParent, Present, Current;
    var row := ReuseRow(second);
    var tracked := {Key(5, 10)};
    ReuseShows(second);
    OneReadableRow(row, tracked);
    ReuseSees(second);
    assert (set key | key in tracked && Present([row], key)) == ReuseState(second).alive;
  }

  /** The root's PID is there, and the row under it is exempt from the check for absent creators. */
  lemma ReuseSees(second: bool)
    ensures Present([ReuseRow(second)], Key(5, 10)) <==> !second
    ensures !AbsentParent(Key(5, 10), [ReuseRow(second)], {Key(5, 10)})
  {
    OneRow(ReuseRow(second));
  }

  /** A single row that is tracked, or whose parent PID no tracked process has, changes nothing. */
  lemma OneReadableRow(row: Row, tracked: set<Key>)
    requires Readable(row) && row.parent != row.pid
    requires KeyOf(row) in tracked || row.parent !in Pids(tracked)
    ensures LeastGrowth([row], tracked, tracked)
    ensures !UnreadableSuspect([row], tracked)
    ensures !Ambiguous([row], tracked)
  {
    assert forall key :: key in tracked ==> key.pid in Pids(tracked);
  }

  lemma ReuseDescends()
    ensures Descends(ReuseCreators(), Key(5, 10), Key(5, 30))
  {
    assert Descendant(ReuseCreators(), Key(5, 10), Key(5, 10), 0);
    assert Descendant(ReuseCreators(), Key(5, 10), Key(7, 20), 1);
    assert Descendant(ReuseCreators(), Key(5, 10), Key(5, 30), 2);
  }

  /**
   Without its second part the hypothesis about orphans is not enough: a descendant
   that got the root's own PID is exempt from the check for absent creators, and
   the tracker reports a tree as gone that is alive.
   */
  lemma RootPidReuseIsMissed()
    ensures Run(Some(Key(5, 10)), [ReuseListing(false), ReuseListing(true)],
                [Initial(Some(Key(5, 10))), ReuseState(false), ReuseState(true)])
    ensures Shown(ReuseCreators(), [ReuseListing(false), ReuseListing(true)], [ReuseMoment(false), ReuseMoment(true)])
    ensures ReuseState(true).reliable && ReuseState(true).alive == {}
    ensures Key(5, 30) in ReuseMoment(true).readable && Descends(ReuseCreators(), Key(5, 10), Key(5, 30))
    ensures forall second: bool, y :: y in ReuseMoment(second).live ==> y.pid != ReuseCreators()[Key(5, 30)].pid
  {
    hide Step, Usable, Legal, Depicts, Descends;
    ReuseShows(false);
    ReuseShows(true);
    ReuseStep(false);
    ReuseStep(true);
    ReuseDescends();
  }

  lemma OneRow(row: Row)
    requires Readable(row)
    ensures Distinct([row])
    ensures forall pid :: Current([row], pid) == if pid == row.pid then Some(row) else None
  {
    assert [row][..0] == [];
  }

  // ----------------------------------------------------------- the tracker

  ghost predicate Minimal(rows: seq<Row>, before: set<Key>, now: set<Key>) {
    forall keys :: before <= keys && Closed(rows, keys) ==> now <= keys
  }

  lemma MinimalGrows(rows: seq<Row>, before: set<Key>, now: set<Key>, p: Row, c: Row)
    requires Minimal(rows, before, now) && p in rows && c in rows && ChildOf(p, c) && KeyOf(p) in now
    ensures Minimal(rows, before, now + {KeyOf(c)})
  {
  }

  function Unseen(rows: seq<Row>, ids: seq<Identity>): set<Key> {
    (set row | row in rows && Readable(row) :: KeyOf(row)) - Keys(ids)
  }

  /** The discovery loop: exactly the least closed set of identities, each linked to an earlier one. */
  method Discover(rows: seq<Row>, start: seq<Identity>) returns (ids: seq<Identity>)
    requires Distinct(rows) && Linked(start)
    ensures Linked(ids) && start <= ids
    ensures LeastGrowth(rows, Keys(start), Keys(ids))
  {
    ids := start;
    var discovered := true;
    while discovered
      invariant Linked(ids) && start <= ids && Keys(start) <= Keys(ids) && Minimal(rows, Keys(start), Keys(ids))
      invariant !discovered ==> Closed(rows, Keys(ids))
      decreases Unseen(rows, ids), discovered
    {
      ids, discovered := Pass(rows, start, ids);
    }
  }

  /** One pass over the inventory. */
  method Pass(rows: seq<Row>, ghost start: seq<Identity>, begun: seq<Identity>)
    returns (ids: seq<Identity>, discovered: bool)
    requires Distinct(rows) && Linked(begun) && Keys(start) <= Keys(begun) && Minimal(rows, Keys(start), Keys(begun))
    ensures Linked(ids) && begun <= ids && Keys(start) <= Keys(ids) && Minimal(rows, Keys(start), Keys(ids))
    ensures if discovered then Unseen(rows, ids) < Unseen(rows, begun) else ids == begun && Closed(rows, Keys(ids))
  {
    ids, discovered := begun, false;
    for j := 0 to |rows|
      invariant Linked(ids) && begun <= ids && Keys(start) <= Keys(ids) && Minimal(rows, Keys(start), Keys(ids))
      invariant Unseen(rows, ids) <= Unseen(rows, begun)
      invariant if discovered then Unseen(rows, ids) < Unseen(rows, begun) else ids == begun
      invariant !discovered ==>
        forall p, c :: p in rows && c in rows[..j] && ChildOf(p, c) && KeyOf(p) in Keys(ids) ==> KeyOf(c) in Keys(ids)
    {
      var row := rows[j];
      if Readable(row) && KeyOf(row) !in Keys(ids) {
        var above := Current(rows, row.parent);
        if above.Some? && KeyOf(above.value) in Keys(ids) && above.value.created.value <= row.created.value {
          MinimalGrows(rows, Keys(start), Keys(ids), above.value, row);
          var found := Identity(KeyOf(row), Some(KeyOf(above.value)));
          LinkedAppend(ids, found);
          KeysAppend(ids, found);
          assert KeyOf(row) in Unseen(rows, ids);
          ids, discovered := ids + [found], true;
        }
      }
      forall p | p in rows && ChildOf(p, row) ensures Current(rows, row.parent) == Some(p) {
        CurrentIs(rows, p);
      }
    }
  }

  function RowPids(rows: seq<Row>): set<nat> {
    set row | row in rows :: row.pid
  }

  /** One pass of the second closure: over PIDs alone, with unreadable rows. */
  method PidPass(rows: seq<Row>, ghost start: set<nat>, begun: set<nat>) returns (pids: set<nat>, grown: bool)
    requires start <= begun && (forall s :: start <= s && PidClosed(rows, s) ==> begun <= s)
    ensures start <= pids && (forall s :: start <= s && PidClosed(rows, s) ==> pids <= s)
    ensures if grown then RowPids(rows) - pids < RowPids(rows) - begun else pids == begun && PidClosed(rows, pids)
  {
    pids, grown := begun, false;
    for j := 0 to |rows|
      invariant begun <= pids && (forall s :: start <= s && PidClosed(rows, s) ==> pids <= s)
      invariant if grown then RowPids(rows) - pids < RowPids(rows) - begun else pids == begun
      invariant !grown ==> forall row :: row in rows[..j] && row.parent in pids ==> row.pid in pids
    {
      if rows[j].pid !in pids && rows[j].parent in pids {
        assert rows[j] in rows && rows[j].pid in RowPids(rows) - pids;
        pids, grown := pids + {rows[j].pid}, true;
      }
    }
  }

  method PossiblySupervisedPids(rows: seq<Row>, tracked: set<Key>) returns (pids: set<nat>)
    ensures forall pid :: pid in pids <==> PossiblySupervised(rows, tracked, pid)
  {
    pids := Pids(tracked);
    var grown := true;
    while grown
      invariant Pids(tracked) <= pids && (forall s :: Pids(tracked) <= s && PidClosed(rows, s) ==> pids <= s)
      invariant !grown ==> PidClosed(rows, pids)
      decreases RowPids(rows) - pids, grown
    {
      pids, grown := PidPass(rows, Pids(tracked), pids);
    }
  }

  method SuspectsUnreadable(rows: seq<Row>, tracked: set<Key>) returns (suspect: bool)
    ensures suspect <==> UnreadableSuspect(rows, tracked)
  {
    var pids := PossiblySupervisedPids(rows, tracked);
    suspect := exists row :: row in rows && !Readable(row) && row.pid in pids;
  }

  /** `[...trackedIdentities.values()].find(...)`: the first tracked process the row may be a child of. */
  method FirstPossibleParent(ids: seq<Identity>, row: Row) returns (found: Option<Identity>)
    requires Readable(row)
    ensures found.Some? ==> found.value in ids && NoLater(found.value.key, row)
    ensures found.None? ==> forall id :: id in ids ==> !NoLater(id.key, row)
  {
    for i := 0 to |ids|
      invariant forall k :: 0 <= k < i ==> !NoLater(ids[k].key, row)
    {
      if NoLater(ids[i].key, row) { return Some(ids[i]); }
    }
    return None;
  }

  /** The last loop: which tracked process `find` comes upon first makes no difference. */
  method FindsAmbiguous(rows: seq<Row>, ids: seq<Identity>) returns (ambiguous: bool)
    requires Distinct(rows) && Closed(rows, Keys(ids))
    ensures ambiguous <==> Ambiguous(rows, Keys(ids))
  {
    ambiguous := false;
    for j := 0 to |rows|
      invariant ambiguous <==> exists row :: row in rows[..j] && MaybeChild(rows, Keys(ids), row)
    {
      var row := rows[j];
      ghost var was := ambiguous;
      var maybe := false;
      if Readable(row) && KeyOf(row) !in Keys(ids) {
        var possible := FirstPossibleParent(ids, row);
        if possible.Some? {
          assert possible.value.key in Keys(ids);
          var current := Current(rows, row.parent);
          var replaced := current.Some? && KeyOf(current.value) != possible.value.key
            && current.value.created.value <= row.created.value;
          maybe := !replaced;
          assert current.Some? && KeyOf(current.value) in Keys(ids) ==> !ChildOf(current.value, row);
        }
      }
      assert maybe <==> MaybeChild(rows, Keys(ids), row);
      ambiguous := ambiguous || maybe;
      OneMore(rows, Keys(ids), j, was);
    }
    assert rows[..|rows|] == rows;
  }

  function PresentKeys(rows: seq<Row>, keys: set<Key>): set<Key> {
    set key | key in keys && Present(rows, key)
  }

  lemma UsableRows(listed: seq<Option<Row>>)
    requires Usable(Listed(listed))
    ensures AllRows(listed) && Distinct(Rows(listed))
  {
  }

  lemma StepIs(root: Option<Key>, a: State, listed: seq<Option<Row>>, ids: seq<Identity>, b: State)
    requires Usable(Listed(listed)) && LeastGrowth(Rows(listed), a.tracked, Keys(ids))
    requires b.tracked == Keys(ids) && b.alive == Keys(Alive(PresentKeys(Rows(listed), Keys(ids)), ids))
    requires b.established == (a.established || (root.Some? && Present(Rows(listed), root.value)))
    requires b.reliable <==>
      && a.reliable && b.established
      && !(root.Some? && AbsentParent(root.value, Rows(listed), a.tracked))
      && !UnreadableSuspect(Rows(listed), b.tracked)
      && !Ambiguous(Rows(listed), b.tracked)
    ensures Step(root, a, Listed(listed), b)
    ensures b.alive <= b.tracked
  {
    hide LeastGrowth, UnreadableSuspect, Ambiguous, AbsentParent, Present;
    assert b.alive == PresentKeys(Rows(listed), b.tracked);
  }

  lemma GrowthFacts(rows: seq<Row>, before: set<Key>, after: set<Key>)
    requires LeastGrowth(rows, before, after)
    ensures before <= after && Closed(rows, after)
  {
  }

  lemma OneMore(rows: seq<Row>, tracked: set<Key>, j: nat, before: bool)
    requires j < |rows| && (before <==> exists row :: row in rows[..j] && MaybeChild(rows, tracked, row))
    ensures (before || MaybeChild(rows, tracked, rows[j])) <==> exists row :: row in rows[..j + 1] && MaybeChild(rows, tracked, row)
  {
    assert rows[..j + 1] == rows[..j] + [rows[j]];
  }

  /** `applyInventory`, with an inventory that is one. */
  method ApplyInventory(root: Option<Key>, listed: seq<Option<Row>>, tracked: seq<Identity>, reliable: bool,
      established: bool, ghost wasAlive: set<Key>)
    returns (grown: seq<Identity>, alive: seq<Identity>, trusted: bool, seen: bool)
    requires Usable(Listed(listed)) && Linked(tracked)
    ensures Linked(grown) && Ordered(alive) && Keys(alive) <= Keys(grown) && Keys(tracked) <= Keys(grown)
    ensures tracked <= grown && forall id :: id in alive ==> id in grown
    ensures Step(root, State(Keys(tracked), wasAlive, reliable, established), Listed(listed),
                 State(Keys(grown), Keys(alive), trusted, seen))
  {
    hide LeastGrowth, UnreadableSuspect, Ambiguous, AbsentParent, Linked, Ordered, Present, Step, Usable, Closed, Keys;
    UsableRows(listed);
    var rows := Rows(listed);
    trusted, seen := reliable, established;
    if root.Some? && Present(rows, root.value) { seen := true; }
    if root.Some? && AbsentParent(root.value, rows, Keys(tracked)) { trusted := false; }
    grown := Discover(rows, tracked);
    GrowthFacts(rows, Keys(tracked), Keys(grown));
    var suspect := SuspectsUnreadable(rows, Keys(grown));
    if suspect { trusted := false; }
    var ambiguous := FindsAmbiguous(rows, grown);
    if ambiguous { trusted := false; }
    alive := Alive(PresentKeys(rows, Keys(grown)), grown);
    if !seen { trusted := false; }
    LinkedIsOrdered(grown);
    AliveIsOrdered(PresentKeys(rows, Keys(grown)), grown);
    StepIs(root, State(Keys(tracked), wasAlive, reliable, established), listed, grown,
           State(Keys(grown), Keys(alive), trusted, seen));
  }

  /**
   One termination request: after how many listings it was made, what was alive then,
   the process asked for, and whether the request was accepted.
   */
  datatype Kill = Kill(step: nat, alive: seq<Identity>, target: Identity, accepted: bool)

  /** A request was refused although the next listing still showed its target alive. */
  predicate Refused(states: seq<State>, kill: Kill) {
    !kill.accepted && kill.step + 1 < |states| && kill.target.key in states[kill.step + 1].alive
  }

  /** From request `from` on, each followed a listing of its own and was for the leaf with the greatest PID. */
  ghost predicate LeavesFirst(asked: seq<Kill>, from: nat, step: nat) {
    forall k :: from <= k < |asked| ==>
      asked[k].step == step + (k - from) && Chosen(asked[k].alive, asked[k].target)
  }

  lemma LeavesFirstThen(asked: seq<Kill>, from: nat, step: nat, kill: Kill)
    requires LeavesFirst(asked, from, step) && from <= |asked|
    requires kill.step == step + (|asked| - from) && Chosen(kill.alive, kill.target)
    ensures LeavesFirst(asked + [kill], from, step)
  {
  }

  ghost predicate NoneRefused(states: seq<State>, asked: seq<Kill>, from: nat) {
    forall k :: from <= k < |asked| ==> !Refused(states, asked[k])
  }

  lemma NoneRefusedLater(states: seq<State>, asked: seq<Kill>, from: nat, step: nat, more: seq<State>, kill: Kill)
    requires NoneRefused(states, asked, from) && states <= more && !Refused(more, kill)
    requires LeavesFirst(asked, from, step) && |states| == step + (|asked| - from) + 1 && from <= |asked|
    ensures NoneRefused(more, asked + [kill], from)
  {
    forall k | from <= k < |asked| ensures !Refused(more, asked[k]) {
      assert !Refused(states, asked[k]);
    }
  }

  lemma RefusedLater(states: seq<State>, more: seq<State>, kill: Kill)
    requires Refused(states, kill) && states <= more
    ensures Refused(more, kill)
  {
  }

  lemma NothingAsked(states: seq<State>, asked: seq<Kill>, step: nat)
    ensures LeavesFirst(asked, |asked|, step) && NoneRefused(states, asked, |asked|)
  {
  }

  /** The listings the system gave. */
  function Answers(listings: seq<Listing>): seq<Listing> {
    if listings == [] then []
    else Answers(listings[..|listings| - 1]) + Answer(listings[|listings| - 1])
  }

  function Answer(listing: Listing): seq<Listing> {
    if listing.GivenUp? then [] else [listing]
  }

  lemma AnswersThen(listings: seq<Listing>, listing: Listing)
    ensures Answers(listings + [listing]) == Answers(listings) + Answer(listing)
  {
    assert (listings + [listing])[..|listings|] == listings;
  }

  /** A listing the system gave made tracking unreliable, before the tracker gave anything up. */
  ghost predicate Distrusted(listings: seq<Listing>, states: seq<State>, from: nat) {
    exists n :: from <= n < |listings| && DistrustedAt(listings, states, from, n)
  }

  ghost predicate DistrustedAt(listings: seq<Listing>, states: seq<State>, from: nat, n: nat) {
    && n + 1 < |states| && n < |listings| && !states[n + 1].reliable
    && forall m :: from <= m <= n ==> !listings[m].GivenUp?
  }

  ghost predicate NothingGivenUp(listings: seq<Listing>, from: nat) {
    forall m :: from <= m < |listings| ==> !listings[m].GivenUp?
  }

  lemma LastIsDistrusted(listings: seq<Listing>, states: seq<State>, from: nat)
    requires |states| == |listings| + 1 && from < |listings|
    requires NothingGivenUp(listings, from) && !states[|listings|].reliable
    ensures Distrusted(listings, states, from)
  {
    assert DistrustedAt(listings, states, from, |listings| - 1);
  }

  class Tracker {
    const root: Option<Key>
    var tracked: seq<Identity>
    var alive: seq<Identity>
    var reliable: bool
    var established: bool
    /** Every listing the system gave, as it gave it. */
    ghost var heard: seq<Listing>
    /** Every listing so far with the losses of trust in between, and the state after each. */
    ghost var listings: seq<Listing>
    ghost var states: seq<State>
    /** Every termination request so far. */
    ghost var asked: seq<Kill>

    ghost function Now(): State
      reads this
    {
      State(Keys(tracked), Keys(alive), reliable, established)
    }

    ghost predicate Valid()
      reads this
    {
      Tracked() && heard == Answers(listings)
    }

    /** A listing was given and is not yet applied. */
    ghost predicate Pending(listing: Listing)
      reads this
    {
      Tracked() && heard == Answers(listings) + Answer(listing)
    }

    ghost predicate Tracked()
      reads this
    {
      && Linked(tracked) && Ordered(alive) && Keys(alive) <= Keys(tracked) && (forall id :: id in alive ==> id in tracked)
      && Run(root, listings, states) && states[|listings|] == Now()
      && (forall k :: 0 <= k < |asked| ==> Recorded(asked[k]))
    }

    /** The live list of a request: tracked identities with their links, exactly those alive in the state of that step. */
    ghost predicate Recorded(kill: Kill)
      reads this
    {
      && kill.step < |states| && Keys(kill.alive) == states[kill.step].alive
      && forall id :: id in kill.alive ==> id in tracked
    }

    constructor (root: Option<Key>)
      ensures Valid() && this.root == root && listings == [] && asked == [] && heard == []
    {
      this.root := root;
      tracked := if root.Some? then [Identity(root.value, None)] else [];
      alive, reliable, established := [], root.Some?, false;
      listings, asked, heard := [], [], [];
      states := [Initial(root)];
    }

    /** A new listing and the state it leads to extend the run. */
    ghost method Record(listing: Listing, before: State)
      requires Run(root, listings, states) && states[|listings|] == before
      requires Step(root, before, listing, Now())
      requires Linked(tracked) && Ordered(alive) && Keys(alive) <= Keys(tracked) && forall id :: id in alive ==> id in tracked
      requires forall k :: 0 <= k < |asked| ==> Recorded(asked[k])
      requires heard == Answers(listings) + Answer(listing)
      modifies this`listings, this`states
      ensures Valid() && listings == old(listings) + [listing] && states == old(states) + [Now()]
    {
      hide Answers, Linked, Ordered, Keys, Step;
      AnswersThen(listings, listing);
      states := states + [Now()];
      listings := listings + [listing];
    }

    /** `applyInventory` on the fields. */
    method ApplyRows(listed: seq<Option<Row>>)
      requires Pending(Listed(listed)) && Usable(Listed(listed))
      modifies this
      ensures Valid() && listings == old(listings) + [Listed(listed)] && states == old(states) + [Now()]
      ensures old(tracked) <= tracked && asked == old(asked) && heard == old(heard)
    {
      hide Answers, Linked, Ordered, Run, Step, Usable;
      ghost var before := Now();
      tracked, alive, reliable, established := ApplyInventory(root, listed, tracked, reliable, established, before.alive);
      Record(Listed(listed), before);
    }

    /** Reliability is lost for good. */
    method Lose(listing: Listing)
      requires Pending(listing) && !Usable(listing)
      modifies this`reliable, this`listings, this`states
      ensures Valid() && listings == old(listings) + [listing] && states == old(states) + [Now()] && !reliable
    {
      ghost var before := Now();
      reliable := false;
      Record(listing, before);
    }

    /** `listProcesses`: the system answers whatever it does. */
    method List() returns (listing: Listing)
      requires Valid()
      modifies this`heard
      ensures heard == old(heard) + [listing] && !listing.GivenUp? && Pending(listing)
    {
      listing := *;
      if listing.GivenUp? { listing := Failed; }
      heard := heard + [listing];
    }

    /** `refresh`: one listing is asked for and applied. */
    method Refresh() returns (refreshed: bool)
      requires Valid()
      modifies this
      ensures Valid() && |listings| == |old(listings)| + 1 && old(listings) <= listings && states == old(states) + [Now()]
      ensures heard == old(heard) + [listings[|old(listings)|]] && !listings[|old(listings)|].GivenUp?
      ensures refreshed <==> reliable && Usable(listings[|old(listings)|])
      ensures !refreshed ==> !reliable
      ensures old(tracked) <= tracked && asked == old(asked)
    {
      var listing := List();
      if Usable(listing) {
        ApplyRows(listing.rows);
        refreshed := reliable;
      } else {
        Lose(listing);
        refreshed := false;
      }
    }

    /** `processTreeAlive`: `false` only on a usable last listing, reliable tracking and nothing alive. */
    method ProcessTreeAlive() returns (stillAlive: bool)
      requires Valid()
      modifies this
      ensures Valid() && |listings| == |old(listings)| + 1 && asked == old(asked)
      ensures heard == old(heard) + [listings[|old(listings)|]]
      ensures !stillAlive <==> reliable && alive == []
      ensures !stillAlive ==> states[|listings|].reliable && states[|listings|].alive == {}
    {
      var refreshed := Refresh();
      stillAlive := !refreshed || !reliable || |alive| > 0;
      if !refreshed { UnusableIsUnreliable(); }
    }

    lemma UnusableIsUnreliable()
      requires Valid() && listings != []
      ensures reliable ==> Usable(listings[|listings| - 1])
    {
      assert Step(root, states[|listings| - 1], listings[|listings| - 1], states[|listings|]);
    }

    /** `terminateProcessTree`: the system is asked to terminate one process and answers. */
    method Terminate(target: Identity) returns (accepted: bool)
      requires Valid()
      modifies this`asked
      ensures Valid() && asked == old(asked) + [Kill(|listings|, alive, target, accepted)]
    {
      accepted := *;
      asked := asked + [Kill(|listings|, alive, target, accepted)];
    }

    lemma StatesFollow()
      requires Valid()
      ensures |states| == |listings| + 1
    {
    }

    /** One turn of the forced termination: `refused` when the target is still alive after a refused request. */
    method TerminateLeaf() returns (accepted: bool, refreshed: bool, refused: bool)
      requires Valid() && alive != []
      modifies this
      ensures Valid() && |listings| == |old(listings)| + 1 && old(listings) <= listings && states == old(states) + [Now()]
      ensures !listings[|old(listings)|].GivenUp?
      ensures |asked| == |old(asked)| + 1 && old(asked) <= asked
      ensures var kill := asked[|old(asked)|];
        && kill.step == |old(listings)| && kill.accepted == accepted && Chosen(kill.alive, kill.target)
        && (refused <==> Refused(states, kill))
      ensures refreshed <==> reliable
    {
      hide Run, Leaf, Linked, Chosen, Answers;
      var target := ChooseLeaf(alive);
      accepted := Terminate(target);
      refreshed := Refresh();
      refused := !accepted && target.key in Keys(alive);
    }

    /**
     `forceTerminate`. Every process asked to terminate is the leaf with the greatest
     PID of what the listing just before showed alive. A refused request whose target
     stays alive ends the trust, and trust kept means that nothing is alive; `true`
     means that too, and that some request was accepted. Trust is lost for no other
     reason than a listing that made tracking unreliable, such a refusal, or 4096
     requests that were not enough.
     */
    method ForceTerminate() returns (terminated: bool)
      requires Valid()
      modifies this
      ensures Valid() && old(asked) <= asked && |asked| <= |old(asked)| + FORCE_ATTEMPTS
      ensures LeavesFirst(asked, |old(asked)|, |old(listings)| + 1)
      ensures forall k :: |old(asked)| <= k < |asked| ==> Recorded(asked[k])
      ensures reliable ==> NoneRefused(states, asked, |old(asked)|)
      ensures reliable ==> alive == []
      ensures !reliable ==>
        || Distrusted(listings, states, |old(listings)|)
        || (exists k :: |old(asked)| <= k < |asked| && Refused(states, asked[k]))
        || |asked| == |old(asked)| + 4096
      ensures terminated <==> reliable && exists k :: |old(asked)| <= k < |asked| && asked[k].accepted
    {
      hide Run, Leaf, Linked, Chosen, Ordered, Keys, LeavesFirst, NoneRefused, Recorded, Answers, DistrustedAt;
      ghost var before, from, step := |asked|, |listings|, |listings| + 1;
      var refreshed := Refresh();
      NothingAsked(states, asked, step);
      StatesFollow();
      if !refreshed || !reliable {
        LastIsDistrusted(listings, states, from);
        return false;
      }
      var sent := false;
      var attempt := 0;
      while |alive| > 0 && attempt < FORCE_ATTEMPTS
        invariant Valid() && reliable && old(asked) <= asked && |asked| == before + attempt
        invariant |listings| == step + attempt && |states| == |listings| + 1 && states[|listings|].reliable
        invariant attempt <= FORCE_ATTEMPTS && LeavesFirst(asked, before, step)
        invariant NoneRefused(states, asked, before) && NothingGivenUp(listings, from)
        invariant sent <==> exists k :: before <= k < |asked| && asked[k].accepted
        decreases FORCE_ATTEMPTS - attempt
      {
        ghost var states1, asked1 := states, asked;
        var accepted, answered, refused := TerminateLeaf();
        assert asked == asked1 + [asked[|asked1|]];
        LeavesFirstThen(asked1, before, step, asked[|asked1|]);
        sent := accepted || sent;
        if !answered {
          LastIsDistrusted(listings, states, from);
          return false;
        }
        if refused {
          ghost var states2 := states;
          Lose(GivenUp);
          RefusedLater(states2, states, asked[|asked1|]);
          return false;
        }
        NoneRefusedLater(states1, asked1, before, step, states, asked[|asked1|]);
        attempt := attempt + 1;
      }
      if |alive| > 0 { Lose(GivenUp); }
      return reliable && |alive| == 0 && sent;
    }
  }
}
