/** Growing the set of crates: the walk that merges features level by level, and its fixpoint loop. */
module CrateClosure {
  import opened CrateGraph
  import opened Wrappers

  datatype FeaturesLite = FeaturesLite(features: set<string>, usesDefaults: bool)

  type Crates = map<PackageId, FeaturesLite>

  function Merge(a: FeaturesLite, b: FeaturesLite): FeaturesLite {
    FeaturesLite(a.features + b.features, a.usesDefaults || b.usesDefaults)
  }

  function FeaturesOf(d: Dependency): FeaturesLite {
    FeaturesLite(d.features, d.usesDefaults)
  }

  function UsesTo(uses: set<Use>, q: PackageId): set<Use> {
    set u | u in uses && u.to == q
  }

  /** Every package used, with the union of the features asked for and whether anyone wants the defaults. */
  function Summary(uses: set<Use>): Crates {
    map q | q in Targets(uses) ::
      FeaturesLite(set u, f | u in UsesTo(uses, q) && f in u.dep.features :: f,
                   exists u :: u in UsesTo(uses, q) && u.dep.usesDefaults)
  }

  function Absorb(v: Crates, u: Use): Crates {
    v[u.to := if u.to in v then Merge(v[u.to], FeaturesOf(u.dep)) else FeaturesOf(u.dep)]
  }

  /** Absorbing a use is the same whether or not it has been absorbed before. */
  lemma SummaryAbsorbs(uses: set<Use>, u: Use)
    ensures Summary(uses + {u}) == Absorb(Summary(uses), u)
  {
    var more := uses + {u};
    var absorbed := Absorb(Summary(uses), u);
    assert Targets(more) == Targets(uses) + {u.to};
    forall q | q in Targets(more) ensures Summary(more)[q] == absorbed[q] {
      assert UsesTo(more, q) == UsesTo(uses, q) + (if q == u.to then {u} else {});
      if q == u.to {
        assert u in UsesTo(more, q);
      }
      assert Summary(more)[q].features == absorbed[q].features;
    }
  }

  lemma Regroup<T>(a: set<T>, b: set<T>, c: set<T>)
    ensures a + b + c == a + (b + c)
  {
  }

  lemma TargetsJoin(a: set<Use>, b: set<Use>)
    ensures Targets(a + b) == Targets(a) + Targets(b)
  {
  }

  method VisitEdge(exclusions: seq<Exclusion>, p: PackageId, edge: Edge, visited: Crates, next: set<PackageId>,
                   ghost uses: set<Use>, ghost done: set<Use>)
      returns (v: Crates, n: set<PackageId>)
    requires visited == Summary(uses + done) && next == Targets(done)
    ensures v == Summary(uses + (done + EdgeUses(exclusions, p, edge.to, edge.deps)))
    ensures n == Targets(done + EdgeUses(exclusions, p, edge.to, edge.deps))
  {
    v, n := visited, next;
    if Excluded(exclusions, edge.to) {
      ExcludedUses(exclusions, p, edge.to, edge.deps);
      assert done + {} == done;
      return;
    }
    ghost var seen := done;
    for j := 0 to |edge.deps|
      invariant seen == done + EdgeUses(exclusions, p, edge.to, edge.deps[..j])
      invariant v == Summary(uses + seen) && n == Targets(seen)
    {
      var dep := edge.deps[j];
      assert edge.deps[..j + 1][..j] == edge.deps[..j];
      Regroup(done, EdgeUses(exclusions, p, edge.to, edge.deps[..j]), UseIf(exclusions, p, edge.to, dep));
      var active := if dep.optional then dep.activated else true;
      if !active || !dep.forPlatform {
        continue;
      }
      SummaryAbsorbs(uses + seen, Use(p, edge.to, dep));
      Regroup(uses, seen, {Use(p, edge.to, dep)});
      TargetsJoin(seen, {Use(p, edge.to, dep)});
      var features := FeaturesOf(dep);
      if edge.to in v {
        v := v[edge.to := Merge(v[edge.to], features)];
      } else {
        v := v[edge.to := features];
      }
      n := n + {edge.to};
      seen := seen + {Use(p, edge.to, dep)};
    }
    assert edge.deps[..|edge.deps|] == edge.deps;
  }

  lemma {:induction false} ExcludedUses(exclusions: seq<Exclusion>, p: PackageId, to: PackageId, deps: seq<Dependency>)
    requires Excluded(exclusions, to)
    ensures EdgeUses(exclusions, p, to, deps) == {}
  {
    if deps != [] {
      ExcludedUses(exclusions, p, to, deps[..|deps| - 1]);
    }
  }

  method VisitPackage(g: Resolve, exclusions: seq<Exclusion>, p: PackageId, visited: Crates, next: set<PackageId>,
                      ghost uses: set<Use>, ghost done: set<Use>)
      returns (v: Crates, n: set<PackageId>)
    requires visited == Summary(uses + done) && next == Targets(done)
    ensures v == Summary(uses + (done + Uses(g, exclusions, p)))
    ensures n == Targets(done + Uses(g, exclusions, p))
  {
    v, n := visited, next;
    var edges := Deps(g, p);
    ghost var seen := done;
    for k := 0 to |edges|
      invariant seen == done + UsesOf(exclusions, p, edges[..k])
      invariant v == Summary(uses + seen) && n == Targets(seen)
    {
      assert edges[..k + 1][..k] == edges[..k];
      v, n := VisitEdge(exclusions, p, edges[k], v, n, uses, seen);
      ghost var one := EdgeUses(exclusions, p, edges[k].to, edges[k].deps);
      Regroup(done, UsesOf(exclusions, p, edges[..k]), one);
      seen := seen + one;
    }
    assert edges[..|edges|] == edges;
  }

  function UsesFrom(g: Resolve, exclusions: seq<Exclusion>, from: set<PackageId>): set<Use> {
    set p, u | p in from && u in Uses(g, exclusions, p) :: u
  }

  function UsesBelow(g: Resolve, exclusions: seq<Exclusion>, roots: set<PackageId>, n: nat): set<Use> {
    if n == 0 then {}
    else UsesBelow(g, exclusions, roots, n - 1) + UsesFrom(g, exclusions, Level(g, exclusions, roots, n - 1))
  }

  lemma OneMore(g: Resolve, exclusions: seq<Exclusion>, from: set<PackageId>, p: PackageId)
    ensures UsesFrom(g, exclusions, from + {p}) == UsesFrom(g, exclusions, from) + Uses(g, exclusions, p)
  {
  }

  lemma TargetsOfUses(g: Resolve, exclusions: seq<Exclusion>, from: set<PackageId>)
    ensures Targets(UsesFrom(g, exclusions, from)) == TargetsOf(g, exclusions, from)
  {
    forall q | q in TargetsOf(g, exclusions, from) ensures q in Targets(UsesFrom(g, exclusions, from)) {
      var p := UserOf(g, exclusions, from, q);
      var u :| u in Uses(g, exclusions, p) && u.to == q;
      assert u in UsesFrom(g, exclusions, from);
    }
    forall q | q in Targets(UsesFrom(g, exclusions, from)) ensures q in TargetsOf(g, exclusions, from) {
      var u :| u in UsesFrom(g, exclusions, from) && u.to == q;
      var p :| p in from && u in Uses(g, exclusions, p);
      assert q in Targets(Uses(g, exclusions, p));
    }
  }

  method VisitLevel(g: Resolve, exclusions: seq<Exclusion>, level: set<PackageId>, visited: Crates,
                    ghost uses: set<Use>)
      returns (v: Crates, next: set<PackageId>)
    requires visited == Summary(uses)
    ensures v == Summary(uses + UsesFrom(g, exclusions, level))
    ensures next == TargetsOf(g, exclusions, level)
  {
    v, next := visited, {};
    var rest := level;
    ghost var done := {};
    ghost var seen := {};
    assert uses + seen == uses;
    while rest != {}
      invariant done + rest == level && seen == UsesFrom(g, exclusions, done)
      invariant v == Summary(uses + seen) && next == Targets(seen)
      decreases |rest|
    {
      var p :| p in rest;
      rest := rest - {p};
      OneMore(g, exclusions, done, p);
      v, next := VisitPackage(g, exclusions, p, v, next, uses, seen);
      seen := seen + Uses(g, exclusions, p);
      done := done + {p};
    }
    assert done == level;
    TargetsOfUses(g, exclusions, level);
  }

  /** A use that a root or a reached package declares. */
  ghost predicate Counts(g: Resolve, exclusions: seq<Exclusion>, roots: set<PackageId>, u: Use) {
    && u in Uses(g, exclusions, u.from)
    && (u.from in roots || Reached(g, exclusions, roots, u.from))
  }

  lemma UseIsFrom(g: Resolve, exclusions: seq<Exclusion>, p: PackageId, u: Use)
    requires u in Uses(g, exclusions, p)
    ensures u.from == p
  {
    UsesExactly(exclusions, p, Deps(g, p), u);
  }

  lemma UseIsFromOne(g: Resolve, exclusions: seq<Exclusion>, from: set<PackageId>, u: Use)
    requires u in UsesFrom(g, exclusions, from)
    ensures u.from in from && u in Uses(g, exclusions, u.from)
  {
    var p :| p in from && u in Uses(g, exclusions, p);
    UseIsFrom(g, exclusions, p, u);
  }

  lemma {:induction false} BelowHasLevel(g: Resolve, exclusions: seq<Exclusion>, roots: set<PackageId>, n: nat, u: Use)
      returns (m: nat)
    requires u in UsesBelow(g, exclusions, roots, n)
    ensures m < n && u.from in Level(g, exclusions, roots, m) && u in Uses(g, exclusions, u.from)
  {
    var level := Level(g, exclusions, roots, n - 1);
    if u in UsesFrom(g, exclusions, level) {
      UseIsFromOne(g, exclusions, level, u);
      m := n - 1;
    } else {
      m := BelowHasLevel(g, exclusions, roots, n - 1, u);
    }
  }

  lemma UseIsFromAll(g: Resolve, exclusions: seq<Exclusion>, from: set<PackageId>, u: Use)
    requires u.from in from && u in Uses(g, exclusions, u.from)
    ensures u in UsesFrom(g, exclusions, from)
  {
  }

  lemma {:induction false} BelowGrows(g: Resolve, exclusions: seq<Exclusion>, roots: set<PackageId>, m: nat, n: nat)
    requires m <= n
    ensures UsesBelow(g, exclusions, roots, m) <= UsesBelow(g, exclusions, roots, n)
  {
    if m < n {
      BelowGrows(g, exclusions, roots, m, n - 1);
    }
  }

  lemma LevelIsBelow(g: Resolve, exclusions: seq<Exclusion>, roots: set<PackageId>, n: nat, u: Use, m: nat)
    requires m < n && u.from in Level(g, exclusions, roots, m) && u in Uses(g, exclusions, u.from)
    ensures u in UsesBelow(g, exclusions, roots, n)
  {
    UseIsFromAll(g, exclusions, Level(g, exclusions, roots, m), u);
    BelowGrows(g, exclusions, roots, m + 1, n);
  }

  /** When a level is empty, every use that counts has been seen. */
  lemma AllSeen(g: Resolve, exclusions: seq<Exclusion>, roots: set<PackageId>, n: nat, u: Use)
    requires Level(g, exclusions, roots, n) == {}
    ensures u in UsesBelow(g, exclusions, roots, n) <==> Counts(g, exclusions, roots, u)
  {
    ReachedIsLevel(g, exclusions, roots, u.from);
    if u in UsesBelow(g, exclusions, roots, n) {
      var m := BelowHasLevel(g, exclusions, roots, n, u);
      assert m == 0 ==> u.from in roots;
    }
    if Counts(g, exclusions, roots, u) {
      var m: nat := 0;
      if u.from !in roots {
        m :| 0 < m && u.from in Level(g, exclusions, roots, m);
      }
      assert u.from in Level(g, exclusions, roots, m);
      if n <= m {
        EmptyStaysEmpty(g, exclusions, roots, n, m);
      }
      LevelIsBelow(g, exclusions, roots, n, u, m);
    }
  }

  /** The packages reached are the targets of the uses that count. */
  lemma ReachedIsTarget(g: Resolve, exclusions: seq<Exclusion>, roots: set<PackageId>, q: PackageId)
    ensures Reached(g, exclusions, roots, q) <==> exists u :: Counts(g, exclusions, roots, u) && u.to == q
  {
    if Reached(g, exclusions, roots, q) {
      var s :| IsWalk(g, exclusions, roots, s) && 2 <= |s| && s[|s| - 1] == q;
      var p := s[|s| - 2];
      assert Arc(g, exclusions, p, s[|s| - 2 + 1]);
      var u :| u in Uses(g, exclusions, p) && u.to == q;
      UseIsFrom(g, exclusions, p, u);
      if |s| > 2 {
        assert IsWalk(g, exclusions, roots, s[..|s| - 1]);
      }
      assert Counts(g, exclusions, roots, u);
    }
    if u :| Counts(g, exclusions, roots, u) && u.to == q {
      assert Arc(g, exclusions, u.from, q);
      if u.from in roots {
        assert IsWalk(g, exclusions, roots, [u.from]);
        WalkOn(g, exclusions, roots, [u.from], q);
      } else {
        var s :| IsWalk(g, exclusions, roots, s) && 2 <= |s| && s[|s| - 1] == u.from;
        WalkOn(g, exclusions, roots, s, q);
      }
    }
  }

  /** Exactly the packages reached, each with everything that roots and reached packages ask of it. */
  ghost predicate IsClosure(g: Resolve, exclusions: seq<Exclusion>, roots: set<PackageId>, v: Crates) {
    && (forall q :: q in v <==> Reached(g, exclusions, roots, q))
    && (forall q, f :: q in v ==>
          (f in v[q].features <==> exists u :: Counts(g, exclusions, roots, u) && u.to == q && f in u.dep.features))
    && (forall q :: q in v ==>
          (v[q].usesDefaults <==> exists u :: Counts(g, exclusions, roots, u) && u.to == q && u.dep.usesDefaults))
  }

  lemma SummaryIsClosure(g: Resolve, exclusions: seq<Exclusion>, roots: set<PackageId>, uses: set<Use>)
    requires forall u :: u in uses <==> Counts(g, exclusions, roots, u)
    ensures IsClosure(g, exclusions, roots, Summary(uses))
  {
    forall q ensures q in Summary(uses) <==> Reached(g, exclusions, roots, q) {
      ReachedIsTarget(g, exclusions, roots, q);
    }
  }

  lemma EndIsClosure(g: Resolve, exclusions: seq<Exclusion>, roots: set<PackageId>, n: nat)
    requires Level(g, exclusions, roots, n) == {}
    ensures IsClosure(g, exclusions, roots, Summary(UsesBelow(g, exclusions, roots, n)))
  {
    forall u ensures u in UsesBelow(g, exclusions, roots, n) <==> Counts(g, exclusions, roots, u) {
      AllSeen(g, exclusions, roots, n, u);
    }
    SummaryIsClosure(g, exclusions, roots, UsesBelow(g, exclusions, roots, n));
  }

  lemma NothingUsed()
    ensures Summary({}) == map[]
  {
  }

  /** The walk itself: it ends on every graph without a reachable cycle, however often it comes back. */
  method WalkLevels(g: Resolve, exclusions: seq<Exclusion>, roots: set<PackageId>) returns (visited: Crates)
    requires !Cyclic(g, exclusions, roots)
    ensures IsClosure(g, exclusions, roots, visited)
  {
    visited := map[];
    var toVisit := roots;
    ghost var n: nat, uses := 0, {};
    NothingUsed();
    while toVisit != {}
      invariant toVisit == Level(g, exclusions, roots, n) && uses == UsesBelow(g, exclusions, roots, n)
      invariant visited == Summary(uses)
      decreases |Universe(g, roots)| - n
    {
      LevelsAreFew(g, exclusions, roots, n);
      visited, toVisit := VisitLevel(g, exclusions, toVisit, visited, uses);
      n, uses := n + 1, UsesBelow(g, exclusions, roots, n + 1);
    }
    EndIsClosure(g, exclusions, roots, n);
  }

  // ------------------------------------------------------------- until nothing is added

  /** Every version of a crate that is a direct dependency is a root. */
  function RootIds(g: Resolve, crates: Crates): set<PackageId> {
    set p, c | p in g && c in crates && p.name == c.name :: p
  }

  function WithMetadata(features: FeaturesLite, metadata: Option<FeaturesLite>): FeaturesLite {
    match metadata
    case Some(more) => Merge(features, more)
    case None => features
  }

  /** `crates` with every visited package put in, its own metadata's features added. */
  function Extended(crates: Crates, visited: Crates, metadata: PackageId -> Option<FeaturesLite>): Crates {
    crates + map q | q in visited :: WithMetadata(visited[q], metadata(q))
  }

  lemma ExtendedOne(crates: Crates, visited: Crates, metadata: PackageId -> Option<FeaturesLite>, q: PackageId,
                    f: FeaturesLite)
    ensures Extended(crates, visited[q := f], metadata)
         == Extended(crates, visited, metadata)[q := WithMetadata(f, metadata(q))]
  {
  }

  /** Takes the visited packages one download at a time. */
  method InsertDownloads(crates: Crates, closure: Crates, metadata: PackageId -> Option<FeaturesLite>)
      returns (result: Crates)
    ensures result == Extended(crates, closure, metadata)
  {
    var visited := closure;
    result := crates;
    ghost var done: Crates := map[];
    assert Extended(crates, done, metadata) == crates;
    while visited.Keys != {}
      invariant done.Keys + visited.Keys == closure.Keys && done.Keys !! visited.Keys
      invariant forall q :: q in visited ==> visited[q] == closure[q]
      invariant forall q :: q in done ==> done[q] == closure[q]
      invariant result == Extended(crates, done, metadata)
      decreases visited.Keys
    {
      var id :| id in visited.Keys;
      ExtendedOne(crates, done, metadata, id, visited[id]);
      done := done[id := visited[id]];
      var features := visited[id];
      visited := visited - {id};
      var own := metadata(id);
      if own.Some? {
        features := Merge(features, own.value);
      }
      result := result[id := features];
    }
    assert done == closure;
  }

  /** `after` is `before` and the closure of its roots, each of whose packages has its own metadata added. */
  ghost predicate IsExtension(g: Resolve, exclusions: seq<Exclusion>, metadata: PackageId -> Option<FeaturesLite>,
                              before: Crates, after: Crates)
  {
    exists closure ::
      IsClosure(g, exclusions, RootIds(g, before), closure) && after == Extended(before, closure, metadata)
  }

  lemma ExtendedAt(crates: Crates, visited: Crates, metadata: PackageId -> Option<FeaturesLite>, q: PackageId)
    ensures q in Extended(crates, visited, metadata) <==> q in crates || q in visited
    ensures q in crates && q !in visited ==> Extended(crates, visited, metadata)[q] == crates[q]
    ensures q in visited ==>
              var result := Extended(crates, visited, metadata)[q];
              && (forall f :: f in result.features <==>
                    f in visited[q].features || (metadata(q).Some? && f in metadata(q).value.features))
              && (result.usesDefaults <==>
                    visited[q].usesDefaults || (metadata(q).Some? && metadata(q).value.usesDefaults))
  {
  }

  /**
    Exactly what an extension is: the packages reached are added, each with the features and defaults that
    uses of it or its own metadata ask for; the others are as they were.
   */
  lemma ExtensionExactly(g: Resolve, exclusions: seq<Exclusion>, metadata: PackageId -> Option<FeaturesLite>,
                         before: Crates, after: Crates, q: PackageId, f: string)
    requires IsExtension(g, exclusions, metadata, before, after)
    ensures q in after <==> q in before || Reached(g, exclusions, RootIds(g, before), q)
    ensures q in before && !Reached(g, exclusions, RootIds(g, before), q) ==> after[q] == before[q]
    ensures Reached(g, exclusions, RootIds(g, before), q) ==>
              && (f in after[q].features <==>
                    || (exists u :: Counts(g, exclusions, RootIds(g, before), u) && u.to == q && f in u.dep.features)
                    || (metadata(q).Some? && f in metadata(q).value.features))
              && (after[q].usesDefaults <==>
                    || (exists u :: Counts(g, exclusions, RootIds(g, before), u) && u.to == q && u.dep.usesDefaults)
                    || (metadata(q).Some? && metadata(q).value.usesDefaults))
  {
    var closure :|
      IsClosure(g, exclusions, RootIds(g, before), closure) && after == Extended(before, closure, metadata);
    ExtendedAt(before, closure, metadata, q);
  }

  method ExtendDirectDependencies(crates: Crates, g: Resolve, exclusions: seq<Exclusion>,
                                  metadata: PackageId -> Option<FeaturesLite>)
      returns (result: Crates)
    requires !Cyclic(g, exclusions, RootIds(g, crates))
    ensures IsExtension(g, exclusions, metadata, crates, result)
  {
    var visited := WalkLevels(g, exclusions, RootIds(g, crates));
    result := InsertDownloads(crates, visited, metadata);
  }

  /** What one round of the loop makes of the crates. */
  ghost predicate Extends(resolver: Crates -> Resolve, exclusions: seq<Exclusion>,
                          metadata: PackageId -> Option<FeaturesLite>, before: Crates, after: Crates)
  {
    IsExtension(resolver(before), exclusions, metadata, before, after)
  }

  /** Values one after the other, each related to the next, all but the last pair differing in size. */
  ghost predicate IsGrowth(related: (Crates, Crates) -> bool, rounds: seq<Crates>) {
    && (forall i :: 0 <= i < |rounds| - 1 ==> related(rounds[i], rounds[i + 1]))
    && (forall i :: 0 <= i < |rounds| - 2 ==> |rounds[i]| != |rounds[i + 1]|)
  }

  /** The rounds of the loop. */
  ghost function Round(resolver: Crates -> Resolve, exclusions: seq<Exclusion>,
                       metadata: PackageId -> Option<FeaturesLite>): (Crates, Crates) -> bool
  {
    (before, after) => Extends(resolver, exclusions, metadata, before, after)
  }

  /** The resolution of `last` reaches nothing outside the crates. */
  ghost predicate Closed(resolver: Crates -> Resolve, exclusions: seq<Exclusion>, last: Crates, crates: Crates) {
    && last.Keys == crates.Keys
    && forall q :: Reached(resolver(last), exclusions, RootIds(resolver(last), last), q) ==> q in crates
  }

  lemma ReachedIsTargeted(g: Resolve, exclusions: seq<Exclusion>, roots: set<PackageId>, q: PackageId)
    requires Reached(g, exclusions, roots, q)
    ensures q in Universe(g, {}) && !Excluded(exclusions, q)
  {
    var s :| IsWalk(g, exclusions, roots, s) && 2 <= |s| && s[|s| - 1] == q;
    assert Arc(g, exclusions, s[|s| - 2], s[|s| - 2 + 1]);
    var u :| u in Uses(g, exclusions, s[|s| - 2]) && u.to == q;
    UsesExactly(exclusions, s[|s| - 2], Deps(g, s[|s| - 2]), u);
  }

  lemma RoundIsSound(resolver: Crates -> Resolve, exclusions: seq<Exclusion>,
                     metadata: PackageId -> Option<FeaturesLite>, before: Crates, after: Crates)
    requires Extends(resolver, exclusions, metadata, before, after)
    ensures Draws(exclusions, Universe(resolver(before), {}), before, after)
    ensures before.Keys == after.Keys ==> Closed(resolver, exclusions, before, after)
  {
    var g := resolver(before);
    var closure :|
      IsClosure(g, exclusions, RootIds(g, before), closure) && after == Extended(before, closure, metadata);
    forall q | q in closure ensures q in Universe(g, {}) && !Excluded(exclusions, q) {
      ReachedIsTargeted(g, exclusions, RootIds(g, before), q);
    }
  }

  /** In a closed set, what a package with the name of one of its crates depends on is in it too, unless excluded. */
  lemma ClosedHasDependencies(resolver: Crates -> Resolve, exclusions: seq<Exclusion>, last: Crates, crates: Crates,
                              p: PackageId, c: PackageId, e: Edge, d: Dependency)
    requires Closed(resolver, exclusions, last, crates)
    requires c in crates && p in resolver(last) && p.name == c.name
    requires e in resolver(last)[p] && d in e.deps && (!d.optional || d.activated) && d.forPlatform
    requires !Excluded(exclusions, e.to)
    ensures e.to in crates
  {
    var g := resolver(last);
    var roots := RootIds(g, last);
    assert c in last.Keys && p in roots;
    UsesExactly(exclusions, p, Deps(g, p), Use(p, e.to, d));
    assert Counts(g, exclusions, roots, Use(p, e.to, d));
    ReachedIsTarget(g, exclusions, roots, e.to);
  }

  lemma OneMoreRound(related: (Crates, Crates) -> bool, rounds: seq<Crates>, after: Crates)
    requires rounds != [] && IsGrowth(related, rounds)
    requires |rounds| >= 2 ==> |rounds[|rounds| - 2]| != |rounds[|rounds| - 1]|
    requires related(rounds[|rounds| - 1], after)
    ensures IsGrowth(related, rounds + [after])
  {
  }

  /** What has been added to the crates comes from the registry and is not excluded. */
  ghost predicate Draws(exclusions: seq<Exclusion>, registry: set<PackageId>, before: Crates, after: Crates) {
    && before.Keys <= after.Keys <= before.Keys + registry
    && forall q :: q in after && q !in before ==> !Excluded(exclusions, q)
  }

  lemma DrawsOn(exclusions: seq<Exclusion>, registry: set<PackageId>, initial: Crates, before: Crates, after: Crates)
    requires Draws(exclusions, registry, initial, before) && Draws(exclusions, registry, before, after)
    ensures Draws(exclusions, registry, initial, after)
  {
  }

  /**
    The loop that extends the crates until their number stays the same: it ends when the resolver
    draws on finitely many packages, keeps the crates it started from, adds no excluded one, and
    leaves a set that is closed.
   */
  method GenerateInfo(initial: Crates, resolver: Crates -> Resolve, exclusions: seq<Exclusion>,
                      metadata: PackageId -> Option<FeaturesLite>, ghost registry: set<PackageId>)
      returns (crates: Crates, ghost rounds: seq<Crates>)
    requires forall c: Crates :: !Cyclic(resolver(c), exclusions, RootIds(resolver(c), c))
    requires forall c: Crates :: Universe(resolver(c), {}) <= registry
    ensures Draws(exclusions, registry, initial, crates)
    ensures |rounds| >= 2 && IsGrowth(Round(resolver, exclusions, metadata), rounds)
    ensures rounds[0] == initial && rounds[|rounds| - 1] == crates
    ensures Closed(resolver, exclusions, rounds[|rounds| - 2], crates)
  {
    crates := initial;
    rounds := [initial];
    ghost var related := Round(resolver, exclusions, metadata);
    ghost var bound := initial.Keys + registry;
    while true
      invariant Draws(exclusions, registry, initial, crates) && crates.Keys <= bound
      invariant rounds != [] && rounds[0] == initial && rounds[|rounds| - 1] == crates
      invariant IsGrowth(related, rounds)
      invariant |rounds| >= 2 ==> |rounds[|rounds| - 2]| != |crates|
      decreases |bound| - |crates|
    {
      var before := crates;
      crates := OneRound(before, resolver, exclusions, metadata, registry);
      OneMoreRound(related, rounds, crates);
      rounds := rounds + [crates];
      DrawsOn(exclusions, registry, initial, before, crates);
      Grew(before, crates, bound);
      if |before| == |crates| {
        break;
      }
    }
  }

  method OneRound(before: Crates, resolver: Crates -> Resolve, exclusions: seq<Exclusion>,
                  metadata: PackageId -> Option<FeaturesLite>, ghost registry: set<PackageId>)
      returns (after: Crates)
    requires !Cyclic(resolver(before), exclusions, RootIds(resolver(before), before))
    requires Universe(resolver(before), {}) <= registry
    ensures Round(resolver, exclusions, metadata)(before, after)
    ensures Draws(exclusions, registry, before, after)
    ensures before.Keys == after.Keys ==> Closed(resolver, exclusions, before, after)
  {
    after := ExtendDirectDependencies(before, resolver(before), exclusions, metadata);
    RoundIsSound(resolver, exclusions, metadata, before, after);
  }

  lemma Grew(before: Crates, after: Crates, bound: set<PackageId>)
    requires before.Keys <= after.Keys <= bound
    ensures |before| <= |after| <= |bound|
    ensures |before| == |after| ==> before.Keys == after.Keys
  {
    SubsetSize(before.Keys, after.Keys);
    SubsetSize(after.Keys, bound);
  }

  lemma SubsetSize(a: set<PackageId>, b: set<PackageId>)
    requires a <= b
    ensures |a| <= |b| && (|a| == |b| ==> a == b)
  {
    assert b == a + (b - a);
  }
}
