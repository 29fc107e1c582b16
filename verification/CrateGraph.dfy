/** The resolved dependency graph, which of its uses count, and what the walk from the roots reaches. */
module CrateGraph {
  import opened Wrappers

  datatype PackageId = PackageId(name: string, version: nat)

  /** `versions` is the comparator, as the versions it matches; no comparator matches them all. */
  datatype Exclusion = Exclusion(name: string, versions: Option<nat -> bool>)

  /** `activated` and `forPlatform` are what the resolver and the target's cfg say of it. */
  datatype Dependency = Dependency(
    optional: bool, activated: bool, forPlatform: bool, features: set<string>, usesDefaults: bool)

  datatype Edge = Edge(to: PackageId, deps: seq<Dependency>)

  type Resolve = map<PackageId, seq<Edge>>

  /** One dependency declaration that counts. */
  datatype Use = Use(from: PackageId, to: PackageId, dep: Dependency)

  function Deps(g: Resolve, p: PackageId): seq<Edge> {
    if p in g then g[p] else []
  }

  /** Only the first exclusion of a package's name is looked at. */
  predicate Excluded(exclusions: seq<Exclusion>, p: PackageId) {
    if exclusions == [] then false
    else if exclusions[0].name == p.name then
      exclusions[0].versions.None? || exclusions[0].versions.value(p.version)
    else Excluded(exclusions[1..], p)
  }

  /** Exclusion `i` is the first of the package's name, and its versions match. */
  ghost predicate ExcludesFirst(exclusions: seq<Exclusion>, p: PackageId, i: int) {
    && 0 <= i < |exclusions| && exclusions[i].name == p.name
    && (forall j :: 0 <= j < i ==> exclusions[j].name != p.name)
    && (exclusions[i].versions.None? || exclusions[i].versions.value(p.version))
  }

  /** A second exclusion of the same name never matters. */
  lemma {:induction false} ExcludedByTheFirst(exclusions: seq<Exclusion>, p: PackageId)
    ensures Excluded(exclusions, p) <==> exists i :: ExcludesFirst(exclusions, p, i)
  {
    if exclusions != [] && exclusions[0].name == p.name {
      assert Excluded(exclusions, p) ==> ExcludesFirst(exclusions, p, 0);
    } else if exclusions != [] {
      ExcludedByTheFirst(exclusions[1..], p);
      if Excluded(exclusions, p) {
        var i :| ExcludesFirst(exclusions[1..], p, i);
        assert exclusions[i + 1] == exclusions[1..][i];
        assert forall j :: 0 < j < i + 1 ==> exclusions[j] == exclusions[1..][j - 1];
        assert ExcludesFirst(exclusions, p, i + 1);
      }
      if exists i :: ExcludesFirst(exclusions, p, i) {
        var i :| ExcludesFirst(exclusions, p, i);
        assert exclusions[1..][i - 1] == exclusions[i];
        assert forall j :: 0 <= j < i - 1 ==> exclusions[1..][j] == exclusions[j + 1];
        assert ExcludesFirst(exclusions[1..], p, i - 1);
      }
    }
  }

  predicate Wanted(d: Dependency) {
    (d.optional ==> d.activated) && d.forPlatform
  }

  function UseIf(exclusions: seq<Exclusion>, p: PackageId, to: PackageId, d: Dependency): set<Use> {
    if !Excluded(exclusions, to) && Wanted(d) then {Use(p, to, d)} else {}
  }

  function EdgeUses(exclusions: seq<Exclusion>, p: PackageId, to: PackageId, deps: seq<Dependency>): set<Use> {
    if deps == [] then {}
    else EdgeUses(exclusions, p, to, deps[..|deps| - 1]) + UseIf(exclusions, p, to, deps[|deps| - 1])
  }

  /** The uses that a package's edges declare. */
  function UsesOf(exclusions: seq<Exclusion>, p: PackageId, edges: seq<Edge>): set<Use> {
    if edges == [] then {}
    else
      var e := edges[|edges| - 1];
      UsesOf(exclusions, p, edges[..|edges| - 1]) + EdgeUses(exclusions, p, e.to, e.deps)
  }

  function Uses(g: Resolve, exclusions: seq<Exclusion>, p: PackageId): set<Use> {
    UsesOf(exclusions, p, Deps(g, p))
  }

  function Targets(uses: set<Use>): set<PackageId> {
    set u | u in uses :: u.to
  }

  function TargetsOf(g: Resolve, exclusions: seq<Exclusion>, from: set<PackageId>): set<PackageId> {
    set p, q | p in from && q in Targets(Uses(g, exclusions, p)) :: q
  }

  /** The packages that walks of `n` uses from the roots end at. */
  function Level(g: Resolve, exclusions: seq<Exclusion>, roots: set<PackageId>, n: nat): set<PackageId> {
    if n == 0 then roots
    else TargetsOf(g, exclusions, Level(g, exclusions, roots, n - 1))
  }

  predicate Arc(g: Resolve, exclusions: seq<Exclusion>, p: PackageId, q: PackageId) {
    q in Targets(Uses(g, exclusions, p))
  }

  /** Packages each of which uses the next, starting at a root. */
  ghost predicate IsWalk(g: Resolve, exclusions: seq<Exclusion>, roots: set<PackageId>, s: seq<PackageId>) {
    && 0 < |s| && s[0] in roots
    && forall i :: 0 <= i < |s| - 1 ==> Arc(g, exclusions, s[i], s[i + 1])
  }

  /** A package at the end of a walk of at least one use. */
  ghost predicate Reached(g: Resolve, exclusions: seq<Exclusion>, roots: set<PackageId>, q: PackageId) {
    exists s :: IsWalk(g, exclusions, roots, s) && 2 <= |s| && s[|s| - 1] == q
  }

  /** Some walk comes back to a package that it has passed. */
  ghost predicate Cyclic(g: Resolve, exclusions: seq<Exclusion>, roots: set<PackageId>) {
    exists s, i :: IsWalk(g, exclusions, roots, s) && 0 <= i < |s| - 1 && s[i] == s[|s| - 1]
  }

  lemma {:induction false} EdgeUsesExactly(exclusions: seq<Exclusion>, p: PackageId, to: PackageId,
                                           deps: seq<Dependency>, u: Use)
    ensures u in EdgeUses(exclusions, p, to, deps) <==>
            u.from == p && u.to == to && u.dep in deps && !Excluded(exclusions, to) && Wanted(u.dep)
  {
    if deps != [] {
      EdgeUsesExactly(exclusions, p, to, deps[..|deps| - 1], u);
      assert deps == deps[..|deps| - 1] + [deps[|deps| - 1]];
    }
  }

  /** The uses of a package are its active declarations for the platform, to packages that are not excluded. */
  lemma {:induction false} UsesExactly(exclusions: seq<Exclusion>, p: PackageId, edges: seq<Edge>, u: Use)
    ensures u in UsesOf(exclusions, p, edges) <==>
            && u.from == p && !Excluded(exclusions, u.to)
            && (!u.dep.optional || u.dep.activated) && u.dep.forPlatform
            && exists e :: e in edges && e.to == u.to && u.dep in e.deps
  {
    if edges != [] {
      var n := |edges| - 1;
      UsesExactly(exclusions, p, edges[..n], u);
      EdgeUsesExactly(exclusions, p, edges[n].to, edges[n].deps, u);
      assert edges == edges[..n] + [edges[n]];
    }
  }

  lemma WalkOn(g: Resolve, exclusions: seq<Exclusion>, roots: set<PackageId>, s: seq<PackageId>, q: PackageId)
    requires IsWalk(g, exclusions, roots, s) && Arc(g, exclusions, s[|s| - 1], q)
    ensures IsWalk(g, exclusions, roots, s + [q])
  {
  }

  lemma UserOf(g: Resolve, exclusions: seq<Exclusion>, from: set<PackageId>, q: PackageId) returns (p: PackageId)
    requires q in TargetsOf(g, exclusions, from)
    ensures p in from && Arc(g, exclusions, p, q)
  {
    p :| p in from && q in Targets(Uses(g, exclusions, p));
  }

  lemma {:induction false} LevelHasWalk(g: Resolve, exclusions: seq<Exclusion>, roots: set<PackageId>, n: nat,
                                        q: PackageId) returns (s: seq<PackageId>)
    requires q in Level(g, exclusions, roots, n)
    ensures IsWalk(g, exclusions, roots, s) && |s| == n + 1 && s[n] == q
  {
    if n == 0 {
      s := [q];
    } else {
      var p := UserOf(g, exclusions, Level(g, exclusions, roots, n - 1), q);
      var before := LevelHasWalk(g, exclusions, roots, n - 1, p);
      WalkOn(g, exclusions, roots, before, q);
      s := before + [q];
    }
  }

  lemma {:induction false} WalkIsInLevel(g: Resolve, exclusions: seq<Exclusion>, roots: set<PackageId>,
                                         s: seq<PackageId>, n: nat)
    requires IsWalk(g, exclusions, roots, s) && n < |s|
    ensures s[n] in Level(g, exclusions, roots, n)
  {
    if n > 0 {
      WalkIsInLevel(g, exclusions, roots, s, n - 1);
      assert Arc(g, exclusions, s[n - 1], s[n - 1 + 1]);
    }
  }

  // ------------------------------------------------------------- when the walk ends

  function Universe(g: Resolve, roots: set<PackageId>): set<PackageId> {
    roots + set p, e | p in g && e in g[p] :: e.to
  }

  lemma WalksStayInside(g: Resolve, exclusions: seq<Exclusion>, roots: set<PackageId>, s: seq<PackageId>)
    requires IsWalk(g, exclusions, roots, s)
    ensures forall x :: x in s ==> x in Universe(g, roots)
  {
    forall i | 0 <= i < |s| ensures s[i] in Universe(g, roots) {
      if i > 0 {
        assert Arc(g, exclusions, s[i - 1], s[i - 1 + 1]);
        var u :| u in Uses(g, exclusions, s[i - 1]) && u.to == s[i];
        UsesExactly(exclusions, s[i - 1], Deps(g, s[i - 1]), u);
      }
    }
  }

  ghost predicate Distinct(s: seq<PackageId>) {
    forall i, j :: 0 <= i < j < |s| ==> s[i] != s[j]
  }

  lemma {:induction false} DistinctFits(s: seq<PackageId>, universe: set<PackageId>)
    requires Distinct(s) && forall x :: x in s ==> x in universe
    ensures |s| <= |universe|
  {
    if s != [] {
      var n := |s| - 1;
      forall x | x in s[..n] ensures x in universe - {s[n]} {
        assert x in s;
      }
      assert s[n] in s;
      DistinctFits(s[..n], universe - {s[n]});
    }
  }

  lemma WalksAreShort(g: Resolve, exclusions: seq<Exclusion>, roots: set<PackageId>, s: seq<PackageId>)
    requires IsWalk(g, exclusions, roots, s) && !Cyclic(g, exclusions, roots)
    ensures |s| <= |Universe(g, roots)|
  {
    forall i, j | 0 <= i < j < |s| ensures s[i] != s[j] {
      assert IsWalk(g, exclusions, roots, s[..j + 1]);
      assert s[..j + 1][i] == s[i];
    }
    WalksStayInside(g, exclusions, roots, s);
    DistinctFits(s, Universe(g, roots));
  }

  lemma LevelsAreFew(g: Resolve, exclusions: seq<Exclusion>, roots: set<PackageId>, n: nat)
    requires !Cyclic(g, exclusions, roots) && Level(g, exclusions, roots, n) != {}
    ensures n < |Universe(g, roots)|
  {
    var q :| q in Level(g, exclusions, roots, n);
    var s := LevelHasWalk(g, exclusions, roots, n, q);
    WalksAreShort(g, exclusions, roots, s);
  }

  /** A walk that has closed a cycle can go round it for ever. */
  lemma {:induction false} CycleKeepsWalking(g: Resolve, exclusions: seq<Exclusion>, roots: set<PackageId>,
                                             s: seq<PackageId>, i: nat, n: nat) returns (k: nat)
    requires IsWalk(g, exclusions, roots, s) && i < |s| - 1 && s[i] == s[|s| - 1]
    ensures k < |s| && s[k] in Level(g, exclusions, roots, n) && (n < |s| || i <= k)
    ensures n < |s| ==> k == n
  {
    if n < |s| {
      k := n;
      WalkIsInLevel(g, exclusions, roots, s, n);
    } else {
      var j := CycleKeepsWalking(g, exclusions, roots, s, i, n - 1);
      var from := if j == |s| - 1 then i else j;
      k := from + 1;
      assert Arc(g, exclusions, s[from], s[from + 1]);
    }
  }

  /** The level walk ends exactly when no cycle can be reached from the roots. */
  lemma WalkEndsExactly(g: Resolve, exclusions: seq<Exclusion>, roots: set<PackageId>)
    ensures (exists n: nat :: Level(g, exclusions, roots, n) == {}) <==> !Cyclic(g, exclusions, roots)
  {
    if !Cyclic(g, exclusions, roots) {
      var n := |Universe(g, roots)|;
      if Level(g, exclusions, roots, n) != {} {
        LevelsAreFew(g, exclusions, roots, n);
      }
      assert Level(g, exclusions, roots, n) == {};
    } else {
      var s, i :| IsWalk(g, exclusions, roots, s) && 0 <= i < |s| - 1 && s[i] == s[|s| - 1];
      forall n: nat ensures Level(g, exclusions, roots, n) != {} {
        var k := CycleKeepsWalking(g, exclusions, roots, s, i, n);
      }
    }
  }

  lemma {:induction false} EmptyStaysEmpty(g: Resolve, exclusions: seq<Exclusion>, roots: set<PackageId>, n: nat,
                                           m: nat)
    requires n <= m && Level(g, exclusions, roots, n) == {}
    ensures Level(g, exclusions, roots, m) == {}
  {
    if n < m {
      EmptyStaysEmpty(g, exclusions, roots, n, m - 1);
    }
  }

  lemma ReachedIsLevel(g: Resolve, exclusions: seq<Exclusion>, roots: set<PackageId>, q: PackageId)
    ensures Reached(g, exclusions, roots, q) <==> exists n: nat :: 0 < n && q in Level(g, exclusions, roots, n)
  {
    if Reached(g, exclusions, roots, q) {
      var s :| IsWalk(g, exclusions, roots, s) && 2 <= |s| && s[|s| - 1] == q;
      WalkIsInLevel(g, exclusions, roots, s, |s| - 1);
    }
    if n: nat :| 0 < n && q in Level(g, exclusions, roots, n) {
      var s := LevelHasWalk(g, exclusions, roots, n, q);
    }
  }
}
