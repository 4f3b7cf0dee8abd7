/**
 Linux processes around a child subreaper: forks, exits that hand children to the
 nearest living subreaper, reaping, and PIDs that are free again afterwards.
 */
module SubreaperSystem {
  import opened ProcessTree

  /**
   `parent` has an entry for every existing process other than those nobody's
   parent matters for; `family` is everything ever forked, directly or not, from
   the wrapper, and stays so after exit.
   */
  datatype System = System(
    wrapper: Key,
    procs: set<Key>,
    zombies: set<Key>,
    parent: map<Key, Key>,
    subreapers: set<Key>,
    family: set<Key>)

  datatype Action =
    | Fork(creator: Key, child: Key)
    | Exit(p: Key, heir: Key)
    | Reap(p: Key)
    | BecomeSubreaper(p: Key)

  predicate Running(s: System, x: Key) {
    x in s.procs && x !in s.zombies
  }

  /** Following running parents of the family, `x` is `links` below the wrapper. */
  ghost predicate Chain(s: System, x: Key, links: nat)
    decreases links
  {
    && Running(s, x)
    && if links == 0 then x == s.wrapper
       else x in s.family && x in s.parent && x != s.wrapper && s.parent[x].time <= x.time && Chain(s, s.parent[x], links - 1)
  }

  /** The kernel's choice of a new parent: the nearest subreaper above that is running. */
  ghost function NearestSubreaper(s: System, p: Key, links: nat): Key
    requires Chain(s, p, links) && links > 0
    decreases links
  {
    var above := s.parent[p];
    if links == 1 || above in s.subreapers then above else NearestSubreaper(s, above, links - 1)
  }

  ghost predicate Enabled(s: System, a: Action) {
    match a
    case Fork(creator, child) =>
      && Running(s, creator) && child !in s.procs + s.family && child != s.wrapper
      && (forall x :: x in s.procs ==> x.pid != child.pid) && creator.time <= child.time
    case Exit(p, heir) =>
      && Running(s, p) && p != s.wrapper
      && (forall links: nat :: links > 0 && Chain(s, p, links) ==> heir == NearestSubreaper(s, p, links))
      && (p !in s.family ==> heir !in s.family && heir != s.wrapper && heir != p && Running(s, heir))
    case Reap(p) => p in s.zombies
    case BecomeSubreaper(p) => Running(s, p)
  }

  function Inherit(s: System, p: Key, heir: Key): map<Key, Key> {
    map x | x in s.parent :: if s.parent[x] == p then heir else s.parent[x]
  }

  function Next(s: System, a: Action): System {
    match a
    case Fork(creator, child) =>
      s.(procs := s.procs + {child}, parent := s.parent[child := creator],
         family := if creator == s.wrapper || creator in s.family then s.family + {child} else s.family)
    case Exit(p, heir) => s.(zombies := s.zombies + {p}, parent := Inherit(s, p, heir))
    case Reap(p) => s.(procs := s.procs - {p}, zombies := s.zombies - {p}, parent := s.parent - {p})
    case BecomeSubreaper(p) => s.(subreapers := s.subreapers + {p})
  }

  /** Every running member of the family hangs below the wrapper by running members. */
  ghost predicate Kept(s: System) {
    && Running(s, s.wrapper) && s.wrapper !in s.family && s.wrapper !in s.parent
    && s.zombies <= s.procs
    && (forall x, y :: x in s.procs && y in s.procs && x.pid == y.pid ==> x == y)
    && (forall x :: Running(s, x) && x in s.family ==> exists links: nat :: Chain(s, x, links))
    && Rooted(s)
  }

  /** Parents are running, and children of the family belong to it. */
  ghost predicate Rooted(s: System) {
    && (forall x :: x in s.parent ==> x in s.procs && Running(s, s.parent[x]))
    && (forall x :: x in s.parent && (s.parent[x] in s.family || s.parent[x] == s.wrapper) ==> x in s.family)
  }

  lemma {:induction false} ChainUnique(s: System, x: Key, m: nat, n: nat)
    requires Chain(s, x, m) && Chain(s, x, n)
    ensures m == n
    decreases m
  {
    if m > 0 && n > 0 { ChainUnique(s, s.parent[x], m - 1, n - 1); }
  }

  lemma {:induction false} NearestIsAbove(s: System, p: Key, links: nat) returns (above: nat)
    requires Chain(s, p, links) && links > 0
    ensures above < links && Chain(s, NearestSubreaper(s, p, links), above)
    decreases links
  {
    if links == 1 || s.parent[p] in s.subreapers {
      above := links - 1;
    } else {
      above := NearestIsAbove(s, s.parent[p], links - 1);
    }
  }

  /** A chain that does not start at `p` survives its exit, going around `p` if need be. */
  lemma {:induction false} ExitKeepsChain(s: System, p: Key, heir: Key, x: Key, links: nat) returns (left: nat)
    requires Enabled(s, Exit(p, heir)) && Chain(s, x, links) && x != p
    ensures Chain(Next(s, Exit(p, heir)), x, left)
    decreases links
  {
    left := 0;
    if links > 0 {
      var above := s.parent[x];
      if above != p {
        left := ExitKeepsChain(s, p, heir, above, links - 1);
      } else {
        var j := NearestIsAbove(s, p, links - 1);
        if heir == p { ChainUnique(s, p, j, links - 1); }
        left := ExitKeepsChain(s, p, heir, heir, j);
        HeirIsOlder(s, p, links - 1);
      }
      left := left + 1;
    }
  }

  lemma {:induction false} HeirIsOlder(s: System, p: Key, links: nat)
    requires Chain(s, p, links) && links > 0
    ensures NearestSubreaper(s, p, links).time <= p.time
    decreases links
  {
    if links > 1 && s.parent[p] !in s.subreapers { HeirIsOlder(s, s.parent[p], links - 1); }
  }

  lemma {:induction false} OtherKeepsChain(s: System, a: Action, x: Key, links: nat)
    requires Enabled(s, a) && !a.Exit? && Chain(s, x, links)
    ensures Chain(Next(s, a), x, links)
    decreases links
  {
    if links > 0 { OtherKeepsChain(s, a, s.parent[x], links - 1); }
  }

  /** The kernel never loses a member of the family, however its creators come and go. */
  lemma NextKeeps(s: System, a: Action)
    requires Kept(s) && Enabled(s, a)
    ensures Kept(Next(s, a))
  {
    var t := Next(s, a);
    forall x | Running(t, x) && x in t.family ensures exists links: nat :: Chain(t, x, links) {
      StaysChained(s, a, x);
    }
    if a.Exit? { HeirInFamily(s, a.p, a.heir); }
    StaysRooted(s, a);
  }

  lemma StaysChained(s: System, a: Action, x: Key)
    requires Kept(s) && Enabled(s, a) && Running(Next(s, a), x) && x in Next(s, a).family
    ensures exists links: nat :: Chain(Next(s, a), x, links)
  {
    if x in s.family {
      var links: nat :| Chain(s, x, links);
      if a.Exit? {
        var left := ExitKeepsChain(s, a.p, a.heir, x, links);
      } else {
        OtherKeepsChain(s, a, x, links);
      }
    } else {
      ForkedIsChained(s, a);
    }
  }

  lemma StaysRooted(s: System, a: Action)
    requires Kept(s) && Enabled(s, a)
    requires a.Exit? ==>
      && Running(s, a.heir) && a.heir != a.p
      && (a.p in s.family <==> a.heir in s.family || a.heir == s.wrapper)
    ensures Rooted(Next(s, a))
  {
    hide Chain, NearestSubreaper;
  }

  lemma ForkedIsChained(s: System, a: Action)
    requires Kept(s) && Enabled(s, a) && a.Fork? && (a.creator == s.wrapper || a.creator in s.family)
    ensures exists links: nat :: Chain(Next(s, a), a.child, links)
  {
    if a.creator == s.wrapper {
      assert Chain(s, a.creator, 0);
    }
    var links: nat :| Chain(s, a.creator, links);
    OtherKeepsChain(s, a, a.creator, links);
    assert Chain(Next(s, a), a.child, links + 1);
  }

  lemma HeirInFamily(s: System, p: Key, heir: Key)
    requires Kept(s) && Enabled(s, Exit(p, heir))
    ensures p in s.family <==> heir in s.family || heir == s.wrapper
    ensures Running(s, heir) && heir != p
  {
    if p in s.family {
      var links: nat :| Chain(s, p, links);
      var above := NearestIsAbove(s, p, links);
      if heir == p { ChainUnique(s, p, above, links); }
    }
  }

  ghost predicate History(states: seq<System>, actions: seq<Action>) {
    && |states| == |actions| + 1 && Kept(states[0])
    && forall i :: 0 <= i < |actions| ==> Enabled(states[i], actions[i]) && states[i + 1] == Next(states[i], actions[i])
  }

  lemma {:induction false} AlwaysKept(states: seq<System>, actions: seq<Action>, n: nat)
    requires History(states, actions) && n <= |actions|
    ensures Kept(states[n])
  {
    if n > 0 {
      AlwaysKept(states, actions, n - 1);
      NextKeeps(states[n - 1], actions[n - 1]);
    }
  }

  /** `waitpid` finds no child left: then nothing the wrapper ever caused is running. */
  lemma NoChildrenNoFamily(s: System, x: Key)
    requires Kept(s) && forall c :: c in s.parent ==> s.parent[c] != s.wrapper
    ensures !(Running(s, x) && x in s.family)
  {
    if Running(s, x) && x in s.family {
      var links: nat :| Chain(s, x, links);
      var child := TopOfChain(s, x, links);
    }
  }

  lemma {:induction false} TopOfChain(s: System, x: Key, links: nat) returns (child: Key)
    requires Chain(s, x, links) && x != s.wrapper
    ensures child in s.parent && s.parent[child] == s.wrapper
    decreases links
  {
    if links == 1 || s.parent[x] == s.wrapper {
      child := x;
    } else {
      child := TopOfChain(s, s.parent[x], links - 1);
    }
  }

  /** The wrapper reaps a child of its own. */
  predicate ReapsChild(s: System, a: Action) {
    a.Reap? && a.p in s.parent && s.parent[a.p] == s.wrapper
  }

  /**
   Until the wrapper reaps, a listed child keeps its PID to itself, exited or not: a
   signal by number sent to it meanwhile reaches it and no replacement.
   */
  lemma {:induction false} ChildKeepsPid(states: seq<System>, actions: seq<Action>, i: nat, j: nat, c: Key)
    requires History(states, actions) && i <= j <= |actions|
    requires c in states[i].parent && states[i].parent[c] == states[i].wrapper
    requires forall k :: i <= k < j ==> !ReapsChild(states[k], actions[k])
    ensures c in states[j].parent && states[j].parent[c] == states[j].wrapper
    ensures c in states[j].procs && forall y :: y in states[j].procs && y.pid == c.pid ==> y == c
    decreases j
  {
    hide Kept, Next, Enabled;
    AlwaysKept(states, actions, j);
    if i < j {
      ChildKeepsPid(states, actions, i, j - 1, c);
      AlwaysKept(states, actions, j - 1);
      ChildStays(states[j - 1], actions[j - 1], c);
    }
    OnlyHolder(states[j], c);
  }

  lemma ChildStays(s: System, a: Action, c: Key)
    requires Kept(s) && Enabled(s, a) && !ReapsChild(s, a)
    requires c in s.parent && s.parent[c] == s.wrapper
    ensures c in Next(s, a).parent && Next(s, a).parent[c] == Next(s, a).wrapper
  {
  }

  lemma OnlyHolder(s: System, c: Key)
    requires Kept(s) && c in s.parent
    ensures c in s.procs && forall y :: y in s.procs && y.pid == c.pid ==> y == c
  {
  }
}
