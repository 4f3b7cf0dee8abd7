/**
 What both process-tree trackers keep: identities in the order of their discovery,
 each linked to the earlier one it was discovered through.
 */
module ProcessTree {
  import opened Wrappers

  datatype Key = Key(pid: nat, time: nat)

  /** A tracked process and the tracked process it was discovered through. */
  datatype Identity = Identity(key: Key, parent: Option<Key>)

  function Keys(ids: seq<Identity>): set<Key> {
    set id | id in ids :: id.key
  }

  /** Distinct keys, and every parent entered before its children. */
  ghost predicate Linked(ids: seq<Identity>) {
    && (forall i, j :: 0 <= i < j < |ids| ==> ids[i].key != ids[j].key)
    && (forall i :: 0 <= i < |ids| && ids[i].parent.Some? ==> ids[i].parent.value in Keys(ids[..i]))
  }

  /** Nobody's parent comes at or after it. */
  ghost predicate Ordered(ids: seq<Identity>) {
    forall i, j :: 0 <= i <= j < |ids| ==> ids[i].parent != Some(ids[j].key)
  }

  lemma LinkedIsOrdered(ids: seq<Identity>)
    requires Linked(ids)
    ensures Ordered(ids)
  {
    forall i, j | 0 <= i <= j < |ids| ensures ids[i].parent != Some(ids[j].key) {
      if ids[i].parent.Some? {
        var k :| 0 <= k < i && ids[..i][k].key == ids[i].parent.value;
        assert ids[k].key != ids[j].key;
      }
    }
  }

  /** `[...trackedIdentities].filter(...)`: in the order of discovery. */
  function Alive(present: set<Key>, ids: seq<Identity>): (alive: seq<Identity>)
    ensures forall id :: id in alive <==> id in ids && id.key in present
  {
    if ids == [] then []
    else
      Alive(present, ids[..|ids| - 1])
      + (if ids[|ids| - 1].key in present then [ids[|ids| - 1]] else [])
  }

  lemma {:induction false} AliveIsOrdered(present: set<Key>, ids: seq<Identity>)
    requires Ordered(ids)
    ensures Ordered(Alive(present, ids))
  {
    if ids != [] {
      var before, last := ids[..|ids| - 1], ids[|ids| - 1];
      AliveIsOrdered(present, before);
      var kept := Alive(present, before);
      forall i | 0 <= i < |kept| ensures kept[i].parent != Some(last.key) {
        assert kept[i] in before;
        var k :| 0 <= k < |before| && before[k] == kept[i];
        assert ids[k].parent != Some(ids[|ids| - 1].key);
      }
    }
  }

  predicate Leaf(ids: seq<Identity>, id: Identity) {
    id in ids && forall other :: other in ids ==> other.parent != Some(id.key)
  }

  /** The leaf with the greatest PID: the one to kill next. */
  ghost predicate Chosen(ids: seq<Identity>, id: Identity) {
    Leaf(ids, id) && forall other :: Leaf(ids, other) ==> other.key.pid <= id.key.pid
  }

  /** The links can never form a cycle, so a nonempty set of live processes has a leaf. */
  lemma LastIsLeaf(ids: seq<Identity>)
    requires Ordered(ids) && ids != []
    ensures Leaf(ids, ids[|ids| - 1])
  {
    forall other | other in ids ensures other.parent != Some(ids[|ids| - 1].key) {
      var i :| 0 <= i < |ids| && ids[i] == other;
    }
  }

  method IsLeaf(ids: seq<Identity>, id: Identity) returns (leaf: bool)
    requires id in ids
    ensures leaf <==> Leaf(ids, id)
  {
    for i := 0 to |ids|
      invariant forall j :: 0 <= j < i ==> ids[j].parent != Some(id.key)
    {
      if ids[i].parent == Some(id.key) {
        assert ids[i] in ids;
        return false;
      }
    }
    return true;
  }

  /** There is always one. */
  method ChooseLeaf(ids: seq<Identity>) returns (chosen: Identity)
    requires Ordered(ids) && ids != []
    ensures Chosen(ids, chosen)
  {
    LastIsLeaf(ids);
    chosen := ids[|ids| - 1];
    for i := 0 to |ids|
      invariant Leaf(ids, chosen)
      invariant forall j :: 0 <= j < i && Leaf(ids, ids[j]) ==> ids[j].key.pid <= chosen.key.pid
    {
      var leaf := IsLeaf(ids, ids[i]);
      if leaf && ids[i].key.pid > chosen.key.pid { chosen := ids[i]; }
    }
  }

  lemma KeysAppend(ids: seq<Identity>, id: Identity)
    ensures Keys(ids + [id]) == Keys(ids) + {id.key}
  {
    assert forall x :: x in ids + [id] <==> x in ids || x == id;
  }

  lemma LinkedAppend(ids: seq<Identity>, id: Identity)
    requires Linked(ids) && id.key !in Keys(ids) && (id.parent.Some? ==> id.parent.value in Keys(ids))
    ensures Linked(ids + [id])
  {
    var next := ids + [id];
    forall i, j | 0 <= i < j < |next| ensures next[i].key != next[j].key {
      assert next[i] in ids;
    }
    forall i | 0 <= i < |next| && next[i].parent.Some? ensures next[i].parent.value in Keys(next[..i]) {
      assert next[..i] == if i < |ids| then ids[..i] else ids;
    }
  }
}
