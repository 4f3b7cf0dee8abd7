/**
 Bundle expansion in src/production-harness-seed.mjs and
 src/production-harness-preparation.mjs: a lock is accepted exactly when its include
 graph is closed and acyclic and every skill is known.
 */
module SkillBundles {
  import opened Wrappers
  import opened FiniteSets

  type Id = string

  datatype Bundle = Bundle(skills: seq<Id>, includes: seq<Id>)
  type Bundles = map<Id, Bundle>

  function Members(skills: seq<Id>): set<Id> {
    set s | s in skills
  }

  // ------------------------------------------------------------ expansion

  /** The recursive expansion; `None` is the error for a missing bundle or one already being visited. */
  function Expand(bundles: Bundles, id: Id, visiting: set<Id>): Option<set<Id>>
    decreases |bundles.Keys - visiting|, 1, 0
  {
    if id !in bundles || id in visiting then None
    else
      assert bundles.Keys - (visiting + {id}) < bundles.Keys - visiting by { assert id in bundles.Keys - visiting; }
      SizesTell(bundles.Keys - (visiting + {id}), bundles.Keys - visiting);
      var nested := ExpandAll(bundles, bundles[id].includes, visiting + {id});
      if nested.None? then None else Some(Members(bundles[id].skills) + nested.value)
  }

  function ExpandAll(bundles: Bundles, includes: seq<Id>, visiting: set<Id>): Option<set<Id>>
    decreases |bundles.Keys - visiting|, 2, |includes|
  {
    if includes == [] then Some({})
    else
      var rest := ExpandAll(bundles, includes[..|includes| - 1], visiting);
      var last := Expand(bundles, includes[|includes| - 1], visiting);
      if rest.None? || last.None? then None else Some(rest.value + last.value)
  }

  /** The expansion as it is written: an accumulating set and a loop over the includes. */
  method ExpandBundle(bundles: Bundles, id: Id, visiting: set<Id>) returns (resolved: Option<set<Id>>)
    ensures resolved == Expand(bundles, id, visiting)
    decreases |bundles.Keys - visiting|
  {
    hide Expand, ExpandAll;
    ExpandUnfolds(bundles, id, visiting);
    if id !in bundles || id in visiting { return None; }
    var bundle := bundles[id];
    SizesTell(bundles.Keys - (visiting + {id}), bundles.Keys - visiting);
    var nested: set<Id> := {};
    ExpandNone(bundles, visiting + {id});
    for k := 0 to |bundle.includes|
      invariant ExpandAll(bundles, bundle.includes[..k], visiting + {id}) == Some(nested)
    {
      var more := ExpandBundle(bundles, bundle.includes[k], visiting + {id});
      ExpandMore(bundles, bundle.includes, visiting + {id}, k);
      if more.None? {
        FailsThroughout(bundles, bundle.includes, visiting + {id}, k + 1);
        return None;
      }
      nested := nested + more.value;
    }
    assert bundle.includes[..|bundle.includes|] == bundle.includes;
    return Some(Members(bundle.skills) + nested);
  }

  lemma ExpandUnfolds(bundles: Bundles, id: Id, visiting: set<Id>)
    ensures id !in bundles || id in visiting ==> Expand(bundles, id, visiting).None?
    ensures id in bundles && id !in visiting ==>
      && bundles.Keys - (visiting + {id}) < bundles.Keys - visiting
      && var nested := ExpandAll(bundles, bundles[id].includes, visiting + {id});
         Expand(bundles, id, visiting) == if nested.None? then None else Some(Members(bundles[id].skills) + nested.value)
  {
    if id in bundles && id !in visiting { assert id in bundles.Keys - visiting; }
  }

  lemma ExpandNone(bundles: Bundles, visiting: set<Id>)
    ensures ExpandAll(bundles, [], visiting) == Some({})
  {
  }

  lemma ExpandMore(bundles: Bundles, includes: seq<Id>, visiting: set<Id>, k: nat)
    requires k < |includes|
    ensures var rest, last := ExpandAll(bundles, includes[..k], visiting), Expand(bundles, includes[k], visiting);
      ExpandAll(bundles, includes[..k + 1], visiting) == if rest.None? || last.None? then None else Some(rest.value + last.value)
  {
    assert includes[..k + 1][..k] == includes[..k];
  }

  lemma {:induction false} FailsThroughout(bundles: Bundles, includes: seq<Id>, visiting: set<Id>, k: nat)
    requires k <= |includes| && ExpandAll(bundles, includes[..k], visiting).None?
    ensures ExpandAll(bundles, includes, visiting).None?
    decreases |includes| - k
  {
    if k < |includes| {
      assert includes[..k + 1][..k] == includes[..k];
      FailsThroughout(bundles, includes, visiting, k + 1);
    } else {
      assert includes[..k] == includes;
    }
  }

  // ---------------------------------------------------------------- walks

  /** Each bundle of the walk includes the next. */
  ghost predicate Walk(bundles: Bundles, walk: seq<Id>) {
    && walk != []
    && forall i :: 0 <= i < |walk| - 1 ==> walk[i] in bundles && walk[i + 1] in bundles[walk[i]].includes
  }

  /** The walk stays in the lock, off what is being visited, and never comes back. */
  ghost predicate Clean(bundles: Bundles, walk: seq<Id>, visiting: set<Id>) {
    && (forall i :: 0 <= i < |walk| ==> walk[i] in bundles && walk[i] !in visiting)
    && (forall i, j :: 0 <= i < j < |walk| ==> walk[i] != walk[j])
  }

  lemma StepWalk(bundles: Bundles, id: Id, next: Id, walk: seq<Id>)
    requires id in bundles && next in bundles[id].includes && Walk(bundles, walk) && walk[0] == next
    ensures Walk(bundles, [id] + walk)
  {
    var longer := [id] + walk;
    forall i | 0 <= i < |longer| - 1 ensures longer[i] in bundles && longer[i + 1] in bundles[longer[i]].includes {
      if i > 0 { assert longer[i] == walk[i - 1] && longer[i + 1] == walk[i]; }
    }
  }

  /** Expansion succeeds only if every walk is clean. */
  lemma {:induction false} ExpandsCleanly(bundles: Bundles, id: Id, visiting: set<Id>, walk: seq<Id>)
    requires Expand(bundles, id, visiting).Some? && Walk(bundles, walk) && walk[0] == id
    ensures Clean(bundles, walk, visiting)
    decreases |walk|
  {
    if |walk| > 1 {
      IncludedExpands(bundles, bundles[id].includes, visiting + {id}, walk[1]);
      assert Walk(bundles, walk[1..]);
      ExpandsCleanly(bundles, walk[1], visiting + {id}, walk[1..]);
      forall i | 0 < i < |walk| ensures walk[i] in bundles && walk[i] !in visiting && walk[i] != id {
        assert walk[i] == walk[1..][i - 1];
      }
      forall i, j | 0 < i < j < |walk| ensures walk[i] != walk[j] {
        assert walk[1..][i - 1] != walk[1..][j - 1];
      }
    }
  }

  lemma {:induction false} IncludedExpands(bundles: Bundles, includes: seq<Id>, visiting: set<Id>, next: Id)
    requires ExpandAll(bundles, includes, visiting).Some? && next in includes
    ensures Expand(bundles, next, visiting).Some?
    ensures Expand(bundles, next, visiting).value <= ExpandAll(bundles, includes, visiting).value
    decreases |includes|
  {
    if next != includes[|includes| - 1] {
      IncludedExpands(bundles, includes[..|includes| - 1], visiting, next);
    }
  }

  /** When it fails, some walk is not clean. */
  lemma {:induction false} FailureHasWalk(bundles: Bundles, id: Id, visiting: set<Id>) returns (walk: seq<Id>)
    requires Expand(bundles, id, visiting).None?
    ensures Walk(bundles, walk) && walk[0] == id && !Clean(bundles, walk, visiting)
    decreases |bundles.Keys - visiting|
  {
    walk := [id];
    if id in bundles && id !in visiting {
      assert id in bundles.Keys - visiting;
      SizesTell(bundles.Keys - (visiting + {id}), bundles.Keys - visiting);
      var next := FailingInclude(bundles, bundles[id].includes, visiting + {id});
      var rest := FailureHasWalk(bundles, next, visiting + {id});
      StepWalk(bundles, id, next, rest);
      walk := [id] + rest;
      if Clean(bundles, walk, visiting) {
        forall i | 0 <= i < |rest| ensures rest[i] in bundles && rest[i] !in visiting + {id} {
          assert rest[i] == walk[i + 1] && walk[0] != walk[i + 1];
        }
        forall i, j | 0 <= i < j < |rest| ensures rest[i] != rest[j] {
          assert walk[i + 1] != walk[j + 1];
        }
      }
    }
  }

  lemma {:induction false} FailingInclude(bundles: Bundles, includes: seq<Id>, visiting: set<Id>) returns (next: Id)
    requires ExpandAll(bundles, includes, visiting).None?
    ensures next in includes && Expand(bundles, next, visiting).None?
    decreases |includes|
  {
    if Expand(bundles, includes[|includes| - 1], visiting).None? {
      next := includes[|includes| - 1];
    } else {
      next := FailingInclude(bundles, includes[..|includes| - 1], visiting);
    }
  }

  // ----------------------------------------------------------- acceptance

  ghost predicate ClosedGraph(bundles: Bundles) {
    forall id, next :: id in bundles && next in bundles[id].includes ==> next in bundles
  }

  ghost predicate Acyclic(bundles: Bundles) {
    forall walk: seq<Id> :: Walk(bundles, walk) && |walk| > 1 ==> walk[0] != walk[|walk| - 1]
  }

  /** Every bundle expands exactly when the include graph is closed and has no cycle. */
  lemma AllExpandIff(bundles: Bundles)
    ensures (forall id :: id in bundles ==> Expand(bundles, id, {}).Some?) <==> ClosedGraph(bundles) && Acyclic(bundles)
  {
    if forall id :: id in bundles ==> Expand(bundles, id, {}).Some? {
      forall id, next | id in bundles && next in bundles[id].includes ensures next in bundles {
        ExpandsCleanly(bundles, id, {}, [id, next]);
        assert Clean(bundles, [id, next], {}) && [id, next][1] == next;
      }
      forall walk: seq<Id> | Walk(bundles, walk) && |walk| > 1 ensures walk[0] != walk[|walk| - 1] {
        ExpandsCleanly(bundles, walk[0], {}, walk);
      }
    }
    if ClosedGraph(bundles) && Acyclic(bundles) {
      forall id | id in bundles ensures Expand(bundles, id, {}).Some? {
        if Expand(bundles, id, {}).None? {
          var walk := FailureHasWalk(bundles, id, {});
          WalkIsClean(bundles, walk);
        }
      }
    }
  }

  lemma WalkIsClean(bundles: Bundles, walk: seq<Id>)
    requires ClosedGraph(bundles) && Acyclic(bundles) && Walk(bundles, walk) && walk[0] in bundles
    ensures Clean(bundles, walk, {})
  {
    forall i | 0 <= i < |walk| ensures walk[i] in bundles {
      if i > 0 { assert walk[i - 1] in bundles && walk[i - 1 + 1] in bundles[walk[i - 1]].includes; }
    }
    forall i, j | 0 <= i < j < |walk| ensures walk[i] != walk[j] {
      PartOfWalk(bundles, walk, i, j);
    }
  }

  lemma PartOfWalk(bundles: Bundles, walk: seq<Id>, i: nat, j: nat)
    requires Acyclic(bundles) && Walk(bundles, walk) && i < j < |walk|
    ensures walk[i] != walk[j]
  {
    var part := walk[i..j + 1];
    forall k | 0 <= k < |part| - 1 ensures part[k] in bundles && part[k + 1] in bundles[part[k]].includes {
      assert part[k] == walk[i + k] && part[k + 1] == walk[i + k + 1];
    }
    assert Walk(bundles, part) && part[0] == walk[i] && part[|part| - 1] == walk[j];
  }

  ghost predicate Reaches(bundles: Bundles, id: Id, last: Id) {
    exists walk: seq<Id> :: Walk(bundles, walk) && walk[0] == id && walk[|walk| - 1] == last
  }

  /** The expansion is the union of the skills of all bundles reachable by includes. */
  lemma ExpansionIsUnion(bundles: Bundles, id: Id, visiting: set<Id>, skill: Id)
    requires Expand(bundles, id, visiting).Some?
    ensures skill in Expand(bundles, id, visiting).value
       <==> exists last :: last in bundles && Reaches(bundles, id, last) && skill in bundles[last].skills
  {
    if skill in Expand(bundles, id, visiting).value {
      var walk := SkillHasWalk(bundles, id, visiting, skill);
      assert Reaches(bundles, id, walk[|walk| - 1]);
    }
    forall last | last in bundles && Reaches(bundles, id, last) && skill in bundles[last].skills
      ensures skill in Expand(bundles, id, visiting).value
    {
      var walk: seq<Id> :| Walk(bundles, walk) && walk[0] == id && walk[|walk| - 1] == last;
      WalkGivesSkill(bundles, id, visiting, walk, skill);
    }
  }

  lemma {:induction false} SkillHasWalk(bundles: Bundles, id: Id, visiting: set<Id>, skill: Id) returns (walk: seq<Id>)
    requires Expand(bundles, id, visiting).Some? && skill in Expand(bundles, id, visiting).value
    ensures Walk(bundles, walk) && walk[0] == id
    ensures walk[|walk| - 1] in bundles && skill in bundles[walk[|walk| - 1]].skills
    decreases |bundles.Keys - visiting|
  {
    walk := [id];
    if skill !in bundles[id].skills {
      assert id in bundles.Keys - visiting;
      SizesTell(bundles.Keys - (visiting + {id}), bundles.Keys - visiting);
      var next := FromInclude(bundles, bundles[id].includes, visiting + {id}, skill);
      var rest := SkillHasWalk(bundles, next, visiting + {id}, skill);
      StepWalk(bundles, id, next, rest);
      walk := [id] + rest;
    }
  }

  lemma {:induction false} FromInclude(bundles: Bundles, includes: seq<Id>, visiting: set<Id>, skill: Id) returns (next: Id)
    requires ExpandAll(bundles, includes, visiting).Some? && skill in ExpandAll(bundles, includes, visiting).value
    ensures next in includes && Expand(bundles, next, visiting).Some? && skill in Expand(bundles, next, visiting).value
    decreases |includes|
  {
    if skill in Expand(bundles, includes[|includes| - 1], visiting).value {
      next := includes[|includes| - 1];
    } else {
      next := FromInclude(bundles, includes[..|includes| - 1], visiting, skill);
    }
  }

  lemma {:induction false} WalkGivesSkill(bundles: Bundles, id: Id, visiting: set<Id>, walk: seq<Id>, skill: Id)
    requires Expand(bundles, id, visiting).Some? && Walk(bundles, walk) && walk[0] == id
    requires walk[|walk| - 1] in bundles && skill in bundles[walk[|walk| - 1]].skills
    ensures skill in Expand(bundles, id, visiting).value
    decreases |walk|
  {
    if |walk| > 1 {
      IncludedExpands(bundles, bundles[id].includes, visiting + {id}, walk[1]);
      assert Walk(bundles, walk[1..]);
      WalkGivesSkill(bundles, walk[1], visiting + {id}, walk[1..], skill);
    }
  }

  ghost predicate SkillsKnown(bundles: Bundles, skills: set<Id>) {
    forall id :: id in bundles ==> Members(bundles[id].skills) <= skills
  }

  /** The bundle part of a lock: every bundle expands, and to known skills only. */
  method ValidateBundles(bundles: Bundles, skills: set<Id>) returns (valid: bool)
    ensures valid <==> ClosedGraph(bundles) && Acyclic(bundles) && SkillsKnown(bundles, skills)
  {
    AllExpandIff(bundles);
    var left := bundles.Keys;
    while left != {}
      invariant left <= bundles.Keys
      invariant forall id :: id in bundles && id !in left ==>
        Expand(bundles, id, {}).Some? && Expand(bundles, id, {}).value <= skills
      decreases left
    {
      var id :| id in left;
      left := left - {id};
      var resolved := ExpandBundle(bundles, id, {});
      if resolved.None? { return false; }
      if !(resolved.value <= skills) {
        var unknown :| unknown in resolved.value && unknown !in skills;
        ExpansionIsUnion(bundles, id, {}, unknown);
        return false;
      }
    }
    return true;
  }
}
