/**
 The dependency lock check of src/production-harness-seed.mjs: which installed
 package a dependency resolves to, and that nothing is installed without a reason.
 */
module DependencyLock {
  import opened Wrappers
  import opened FiniteSets

  type Path = string

  const MARK: string := "/node_modules/"

  // ----------------------------------------------------------- resolution

  predicate MarkAt(s: string, i: nat) {
    i + |MARK| <= |s| && s[i..i + |MARK|] == MARK
  }

  /** `lastIndexOf` among the first `n` positions. */
  function LastMark(s: string, n: nat): (r: Option<nat>)
    ensures r.Some? ==> r.value < n && MarkAt(s, r.value) && forall i :: r.value < i < n ==> !MarkAt(s, i)
    ensures r.None? ==> forall i :: 0 <= i < n ==> !MarkAt(s, i)
  {
    if n == 0 then None else if MarkAt(s, n - 1) then Some(n - 1) else LastMark(s, n - 1)
  }

  function Nested(current: Path, name: string): Path {
    current + MARK + name
  }

  function TopLevel(name: string): Path {
    "node_modules/" + name
  }

  /** The path cut before its last marker; nothing is left of a path without one. */
  function Cut(current: Path): (rest: Path)
    ensures current != "" ==> |rest| < |current|
  {
    var at := LastMark(current, |current|);
    if at.Some? then current[..at.value] else ""
  }

  function Resolve(packages: set<Path>, current: Path, name: string): Option<Path>
    decreases |current|
  {
    if current == "" then if TopLevel(name) in packages then Some(TopLevel(name)) else None
    else if Nested(current, name) in packages then Some(Nested(current, name))
    else Resolve(packages, Cut(current), name)
  }

  /** `resolveLockedDependency` as it is written. */
  method ResolveLockedDependency(packages: set<Path>, packagePath: Path, name: string) returns (r: Option<Path>)
    ensures r == Resolve(packages, packagePath, name)
  {
    var current := packagePath;
    while current != ""
      invariant Resolve(packages, packagePath, name) == Resolve(packages, current, name)
      decreases |current|
    {
      var nested := Nested(current, name);
      if nested in packages { return Some(nested); }
      current := Cut(current);
    }
    return if TopLevel(name) in packages then Some(TopLevel(name)) else None;
  }

  /** Where package `names[|names| - 1]`, installed inside the others, lies. */
  function Location(names: seq<string>): Path
  {
    if names == [] then ""
    else if |names| == 1 then TopLevel(names[0])
    else Nested(Location(names[..|names| - 1]), names[|names| - 1])
  }

  /** No marker begins in the name or at the slash before it. */
  ghost predicate Plain(name: string) {
    forall i: nat :: !MarkAt("/" + name, i)
  }

  lemma MarkShape(i: nat)
    requires 0 < i < |MARK| - 1
    ensures MARK[i] != '/'
  {
    assert MARK == ['/', 'n', 'o', 'd', 'e', '_', 'm', 'o', 'd', 'u', 'l', 'e', 's', '/'];
  }

  /** A marker inside a later part of a string is a marker of that part. */
  lemma MarkInTail(s: string, from: nat, i: nat)
    requires from <= i && from <= |s| && MarkAt(s, i)
    ensures MarkAt(s[from..], i - from)
  {
    assert s[from..][i - from..i - from + |MARK|] == s[i..i + |MARK|];
  }

  lemma MarkStart(s: string, i: nat)
    requires MarkAt(s, i)
    ensures s[i] == '/'
  {
    assert s[i..i + |MARK|][0] == MARK[0];
  }

  /** After the marker before a plain name there is no other. */
  lemma NoLaterMark(parent: Path, name: string, i: nat)
    requires Plain(name) && i > |parent|
    ensures !MarkAt(Nested(parent, name), i)
  {
    var s, from := Nested(parent, name), |parent| + |MARK| - 1;
    assert forall k :: 0 <= k < |MARK| ==> s[|parent| + k] == MARK[k];
    assert s[from..] == "/" + name;
    if MarkAt(s, i) {
      if i < from {
        MarkStart(s, i);
        MarkShape(i - |parent|);
      } else {
        MarkInTail(s, from, i);
      }
    }
  }

  lemma CutNested(parent: Path, name: string)
    requires Plain(name)
    ensures Cut(Nested(parent, name)) == parent
  {
    var s := Nested(parent, name);
    assert MarkAt(s, |parent|);
    var at := LastMark(s, |s|);
    if at.value > |parent| { NoLaterMark(parent, name, at.value); }
    assert s[..|parent|] == parent;
  }

  lemma CutTopLevel(name: string)
    requires Plain(name)
    ensures Cut(TopLevel(name)) == ""
  {
    var s := TopLevel(name);
    assert Nested("", name) == "/" + s;
    forall i: nat ensures !MarkAt(s, i) {
      if MarkAt(s, i) {
        assert Nested("", name)[i + 1..i + 1 + |MARK|] == s[i..i + |MARK|];
        NoLaterMark("", name, i + 1);
      }
    }
  }

  ghost predicate AllPlain(names: seq<string>) {
    forall k :: 0 <= k < |names| ==> Plain(names[k])
  }

  /** The package `name` installed beside the first `k` of the enclosing packages. */
  function Beside(names: seq<string>, k: nat, name: string): Path
    requires k <= |names|
  {
    Location(names[..k] + [name])
  }

  lemma BesideIs(names: seq<string>, k: nat, name: string)
    requires k <= |names|
    ensures Beside(names, k, name) == if k == 0 then TopLevel(name) else Nested(Location(names[..k]), name)
  {
    var all := names[..k] + [name];
    assert all[..|all| - 1] == names[..k];
  }

  /** Resolution finds the nearest enclosing installation, and fails only when there is none. */
  lemma {:induction false} NearestEnclosing(packages: set<Path>, names: seq<string>, name: string)
    requires AllPlain(names)
    ensures var r := Resolve(packages, Location(names), name);
      if r.None? then forall k :: 0 <= k <= |names| ==> Beside(names, k, name) !in packages
      else exists k :: 0 <= k <= |names| && NearestAt(packages, names, name, k) && r.value == Beside(names, k, name)
    decreases |names|
  {
    hide Beside, NearestAt;
    var n := |names|;
    ResolveHere(packages, names, name);
    if n == 0 || Beside(names, n, name) in packages {
      NearestHere(packages, names, name);
    } else {
      var outer := names[..n - 1];
      NearestEnclosing(packages, outer, name);
      var r := Resolve(packages, Location(outer), name);
      if r.Some? {
        var k :| 0 <= k <= |outer| && NearestAt(packages, outer, name, k) && r.value == Beside(outer, k, name);
        NearestOuter(packages, names, name, k);
      } else {
        SameBeside(names, name);
      }
    }
  }

  /** One turn of the ancestor walk. */
  lemma ResolveHere(packages: set<Path>, names: seq<string>, name: string)
    requires AllPlain(names)
    ensures var here := Beside(names, |names|, name);
      Resolve(packages, Location(names), name)
      == if here in packages then Some(here)
         else if names == [] then None
         else Resolve(packages, Location(names[..|names| - 1]), name)
  {
    var n := |names|;
    BesideIs(names, n, name);
    assert names[..n] == names;
    if n == 1 {
      CutTopLevel(names[0]);
    } else if n > 1 {
      CutNested(Location(names[..n - 1]), names[n - 1]);
    }
  }

  lemma NearestHere(packages: set<Path>, names: seq<string>, name: string)
    ensures Beside(names, |names|, name) in packages ==> NearestAt(packages, names, name, |names|)
  {
  }

  lemma NearestOuter(packages: set<Path>, names: seq<string>, name: string, k: nat)
    requires names != [] && k < |names| && NearestAt(packages, names[..|names| - 1], name, k)
    requires Beside(names, |names|, name) !in packages
    ensures NearestAt(packages, names, name, k) && Beside(names[..|names| - 1], k, name) == Beside(names, k, name)
  {
    SameBeside(names, name);
    forall j | k < j <= |names| ensures Beside(names, j, name) !in packages {
      if j < |names| { assert Beside(names[..|names| - 1], j, name) == Beside(names, j, name); }
    }
  }

  ghost predicate NearestAt(packages: set<Path>, names: seq<string>, name: string, k: nat)
    requires k <= |names|
  {
    && Beside(names, k, name) in packages
    && forall j :: k < j <= |names| ==> Beside(names, j, name) !in packages
  }

  lemma SameBeside(names: seq<string>, name: string)
    requires names != []
    ensures forall k :: 0 <= k < |names| ==> Beside(names[..|names| - 1], k, name) == Beside(names, k, name)
  {
    forall k | 0 <= k < |names| ensures Beside(names[..|names| - 1], k, name) == Beside(names, k, name) {
      assert names[..|names| - 1][..k] == names[..k];
    }
  }

  // --------------------------------------------------------- reachability

  /** `wanted` is whether the requested range is a string at all. */
  datatype Dependency = Dependency(name: string, wanted: bool, optionalPeer: bool, peer: bool)
  datatype Entry = Entry(sound: bool, declared: seq<Dependency>)

  type Packages = map<Path, Entry>

  /** An optional peer may be missing; everything else must resolve. */
  predicate Skipped(d: Dependency) {
    d.peer && d.optionalPeer
  }

  predicate Resolves(packages: Packages, path: Path, d: Dependency) {
    d.wanted && Resolve(packages.Keys, path, d.name).Some?
  }

  function Target(packages: Packages, path: Path, d: Dependency): Path {
    Resolve(packages.Keys, path, d.name).GetOr("")
  }

  function Targets(packages: Packages, path: Path, declared: seq<Dependency>): set<Path> {
    set d | d in declared && !Skipped(d) :: Target(packages, path, d)
  }

  ghost predicate EntryAccepted(packages: Packages, path: Path)
    requires path in packages
  {
    packages[path].sound && forall d :: d in packages[path].declared && !Skipped(d) ==> Resolves(packages, path, d)
  }

  function Edges(packages: Packages, path: Path): set<Path> {
    if path in packages then Targets(packages, path, packages[path].declared) else {}
  }

  lemma {:induction false} ResolvedIsInstalled(packages: set<Path>, current: Path, name: string)
    ensures Resolve(packages, current, name).Some? ==> Resolve(packages, current, name).value in packages
    decreases |current|
  {
    if current != "" { ResolvedIsInstalled(packages, Cut(current), name); }
  }

  /** A chain of dependencies from the Project root. */
  ghost predicate Chain(packages: Packages, chain: seq<Path>) {
    && chain != [] && chain[0] == ""
    && forall i :: 0 <= i < |chain| - 1 ==> chain[i + 1] in Edges(packages, chain[i])
  }

  ghost predicate Reachable(packages: Packages, path: Path) {
    exists chain: seq<Path> :: Chain(packages, chain) && chain[|chain| - 1] == path
  }

  lemma ReachableStep(packages: Packages, path: Path, next: Path)
    requires Reachable(packages, path) && next in Edges(packages, path)
    ensures Reachable(packages, next)
  {
    var chain: seq<Path> :| Chain(packages, chain) && chain[|chain| - 1] == path;
    var longer := chain + [next];
    assert forall i :: 0 <= i < |chain| ==> longer[i] == chain[i];
    assert Chain(packages, longer);
  }

  lemma {:induction false} ClosedHoldsReachable(packages: Packages, held: set<Path>, chain: seq<Path>)
    requires "" in held && (forall path, next :: path in held && next in Edges(packages, path) ==> next in held)
    requires Chain(packages, chain)
    ensures chain[|chain| - 1] in held
    decreases |chain|
  {
    if |chain| > 1 {
      var shorter := chain[..|chain| - 1];
      assert Chain(packages, shorter);
      ClosedHoldsReachable(packages, held, shorter);
      assert chain[|chain| - 2 + 1] in Edges(packages, chain[|chain| - 2]);
    }
  }

  /** The worklist: exactly the packages some chain of dependencies leads to. */
  method Worklist(packages: Packages) returns (reachable: set<Path>)
    requires "" in packages && forall path :: path in packages ==> Edges(packages, path) <= packages.Keys
    ensures reachable <= packages.Keys
    ensures forall path :: path in reachable <==> Reachable(packages, path)
  {
    reachable := {""};
    var pending: seq<Path> := [""];
    assert Chain(packages, [""]);
    while pending != []
      invariant "" in reachable && reachable <= packages.Keys
      invariant forall path :: path in pending ==> path in reachable
      invariant forall path :: path in reachable ==> Reachable(packages, path)
      invariant forall path, next :: path in reachable && path !in pending && next in Edges(packages, path) ==> next in reachable
      decreases packages.Keys - reachable, |pending|
    {
      var path := pending[0];
      var before := reachable;
      reachable, pending := Follow(packages, path, reachable, pending[1..]);
    }
    forall path | Reachable(packages, path) ensures path in reachable {
      var chain: seq<Path> :| Chain(packages, chain) && chain[|chain| - 1] == path;
      ClosedHoldsReachable(packages, reachable, chain);
    }
  }

  /** The inner loop: every dependency not met before is marked and queued. */
  method Follow(packages: Packages, path: Path, reached: set<Path>, queue: seq<Path>)
    returns (reachable: set<Path>, pending: seq<Path>)
    requires path in reached && reached <= packages.Keys && Edges(packages, path) <= packages.Keys
    requires forall p :: p in reached ==> Reachable(packages, p)
    requires forall p :: p in queue ==> p in reached
    ensures reached <= reachable <= packages.Keys && reachable == reached + Edges(packages, path)
    ensures forall p :: p in reachable ==> Reachable(packages, p)
    ensures forall p :: p in pending <==> p in queue || p in reachable - reached
    ensures reachable == reached ==> pending == queue
  {
    reachable, pending := reached, queue;
    var left := Edges(packages, path);
    while left != {}
      invariant left <= Edges(packages, path)
      invariant reached <= reachable <= packages.Keys && reachable == reached + (Edges(packages, path) - left)
      invariant forall p :: p in reachable ==> Reachable(packages, p)
      invariant forall p :: p in pending <==> p in queue || p in reachable - reached
      invariant reachable == reached ==> pending == queue
      decreases left
    {
      var next :| next in left;
      left := left - {next};
      if next !in reachable {
        ReachableStep(packages, path, next);
        reachable, pending := reachable + {next}, pending + [next];
      }
    }
  }

  /** A lock is accepted exactly when all of it resolves and nothing in it is unreachable. */
  method ValidateDependencyLock(packages: Packages) returns (valid: bool)
    ensures valid <==>
      && "" in packages
      && (forall path :: path in packages ==> EntryAccepted(packages, path))
      && (forall path :: path in packages ==> Reachable(packages, path))
  {
    if "" !in packages { return false; }
    var left := packages.Keys;
    while left != {}
      invariant left <= packages.Keys
      invariant forall path :: path in packages && path !in left ==> EntryAccepted(packages, path)
      decreases left
    {
      var path :| path in left;
      left := left - {path};
      if !packages[path].sound { return false; }
      if exists d :: d in packages[path].declared && !Skipped(d) && !Resolves(packages, path, d) { return false; }
    }
    AcceptedStaysInside(packages);
    var reachable := Worklist(packages);
    SizesTell(reachable, packages.Keys);
    return |reachable| == |packages.Keys|;
  }

  lemma AcceptedStaysInside(packages: Packages)
    requires forall path :: path in packages ==> EntryAccepted(packages, path)
    ensures forall path :: path in packages ==> Edges(packages, path) <= packages.Keys
  {
    forall path, next | path in packages && next in Edges(packages, path) ensures next in packages {
      var d :| d in packages[path].declared && !Skipped(d) && next == Target(packages, path, d);
      assert Resolves(packages, path, d);
      ResolvedIsInstalled(packages.Keys, path, d.name);
    }
  }
}
