/**
  One container from request to request. A setup that fails returns at once; what it has sent to the
  worker is not called back, and happens later, even while the next request is set up or runs.
 */
module ContainerLife {
  import opened Paths
  import opened ProjectRequests
  import opened ProjectSetup
  import opened SetupOrders
  import opened Wrappers

  /** `own` is what the last request has still to do, `late` what earlier ones have sent and not yet seen done. */
  datatype Container = Container(
    dir: Directory,
    own: multiset<Op>,
    late: multiset<Op>,
    request: Option<Request>,
    failed: bool)

  datatype Event =
    | Begin(request: Request, sent: multiset<Op>)   // `sent` is what the request before leaves under way
    | PerformOwn(op: Op)
    | PerformLate(op: Op)

  function Begun(project: Location, original: Content, dir: Directory, r: Request, late: multiset<Op>): Container {
    Container(dir, SetupOps(project, original, r), late, Some(r), false)
  }

  function Tried(d: Directory, op: Op): Directory {
    match Perform(d, op)
    case None => d
    case Some(e) => e
  }

  ghost predicate Next(project: Location, original: Content, c: Container, e: Event, c': Container) {
    match e
    case Begin(r, sent) => sent <= c.own && c' == Begun(project, original, c.dir, r, c.late + sent)
    case PerformOwn(op) =>
      && op in c.own
      && c' == c.(own := c.own - multiset{op}, dir := Tried(c.dir, op), failed := c.failed || Perform(c.dir, op).None?)
    case PerformLate(op) =>
      && op in c.late
      && c' == c.(late := c.late - multiset{op}, dir := Tried(c.dir, op))
  }

  ghost predicate Leads(project: Location, original: Content, states: seq<Container>, events: seq<Event>) {
    && |states| == |events| + 1
    && forall i :: 0 <= i < |events| ==> Next(project, original, states[i], events[i], states[i + 1])
  }

  /** A container's life, from a project directory that nobody is working on. */
  ghost predicate IsLife(project: Location, original: Content, states: seq<Container>, events: seq<Event>) {
    && Leads(project, original, states, events)
    && Sound(states[0].dir)
    && states[0] == Container(states[0].dir, multiset{}, multiset{}, None, false)
  }

  /** The last request is set up: each of its operations is done, and none failed. */
  predicate Complete(c: Container) {
    c.request.Some? && c.own == multiset{} && !c.failed
  }

  // ------------------------------------------------------------- what a complete request shows

  ghost predicate AgreeOn(project: Location, original: Content, r: Request, ops: multiset<Op>, k: KeyFile) {
    forall op :: op in ops ==> !Contrary(project, original, r, op, k)
  }

  /** A key file is still to be seen to, or is as the request wants it, or the setup has failed. */
  ghost predicate OnItsWay(project: Location, original: Content, c: Container, r: Request, k: KeyFile) {
    && AgreeOn(project, original, r, c.own, k) && AgreeOn(project, original, r, c.late, k)
    && (|| c.failed
        || (exists op :: op in c.own && op.path == Resolve(project, NameOf(k)))
        || At(c.dir, Resolve(project, NameOf(k))) == Wanted(original, r, k))
  }

  lemma StepStaysOnItsWay(project: Location, original: Content, c: Container, e: Event, c': Container, r: Request,
                          k: KeyFile)
    requires Next(project, original, c, e, c') && !e.Begin? && OnItsWay(project, original, c, r, k)
    ensures OnItsWay(project, original, c', r, k)
  {
    var p := Resolve(project, NameOf(k));
    assert !Contrary(project, original, r, e.op, k);
    if Perform(c.dir, e.op).Some? {
      PerformAt(c.dir, e.op, p);
    }
    if e.PerformOwn? && e.op.path != p && exists op :: op in c.own && op.path == p {
      var op :| op in c.own && op.path == p;
      assert op in c'.own;
    }
  }

  lemma BegunIsOnItsWay(project: Location, original: Content, d: Directory, r: Request, late: multiset<Op>, k: KeyFile)
    requires SelfConsistent(project, original, r) && AgreeOn(project, original, r, late, k)
    ensures OnItsWay(project, original, Begun(project, original, d, r, late), r, k)
  {
    var own := KeyFileIsCovered(project, original, r, k);
    assert own in Begun(project, original, d, r, late).own;
  }

  lemma NextStaysOnItsWay(project: Location, original: Content, states: seq<Container>, events: seq<Event>, r: Request,
                          i: nat, k: KeyFile)
    requires Leads(project, original, states, events) && i < |events| && !events[i].Begin?
    requires OnItsWay(project, original, states[i], r, k)
    ensures OnItsWay(project, original, states[i + 1], r, k)
  {
    StepStaysOnItsWay(project, original, states[i], events[i], states[i + 1], r, k);
  }

  lemma LifeStaysOnItsWay(project: Location, original: Content, states: seq<Container>, events: seq<Event>, r: Request,
                          m: nat, n: nat, k: KeyFile)
    requires Leads(project, original, states, events) && m <= n < |states|
    requires forall i :: m <= i < n ==> !events[i].Begin?
    requires OnItsWay(project, original, states[m], r, k)
    ensures OnItsWay(project, original, states[n], r, k)
  {
    var way := (c: Container) => OnItsWay(project, original, c, r, k);
    forall i | m <= i < n && way(states[i]) ensures way(states[i + 1]) {
      NextStaysOnItsWay(project, original, states, events, r, i, k);
    }
    Persists(states, m, n, way);
  }

  lemma {:induction false} Persists(states: seq<Container>, m: nat, n: nat, way: Container -> bool)
    requires m <= n < |states| && way(states[m])
    requires forall i :: m <= i < n && way(states[i]) ==> way(states[i + 1])
    ensures way(states[n])
  {
    if m < n {
      Persists(states, m, n - 1, way);
      assert way(states[n - 1]) ==> way(states[n - 1 + 1]);
    }
  }

  /**
    Whatever a container has been through, once its last request is set up, and for as long as it is
    the last, `build.rs`, `src/lib.rs`, `src/main.rs` and `Cargo.toml` are what that request alone
    wants, provided that none of its own operations and nothing still under way when it began would do
    otherwise to one of them. Requests with ordinary names meet the first condition.
   */
  lemma OnlyTheLastRequestShows(project: Location, original: Content, states: seq<Container>, events: seq<Event>,
                                m: nat, n: nat)
    requires IsLife(project, original, states, events) && m < n < |states| && events[m].Begin?
    requires forall i :: m < i < n ==> !events[i].Begin?
    requires SelfConsistent(project, original, events[m].request)
    requires Agree(project, original, events[m].request, states[m + 1].late)
    requires Complete(states[n])
    ensures Shows(project, original, events[m].request, states[n].dir)
  {
    var r := events[m].request;
    assert Next(project, original, states[m], events[m], states[m + 1]);
    forall k ensures At(states[n].dir, Resolve(project, NameOf(k))) == Wanted(original, r, k) {
      BegunIsOnItsWay(project, original, states[m].dir, r, states[m + 1].late, k);
      LifeStaysOnItsWay(project, original, states, events, r, m + 1, n, k);
    }
  }

  // ------------------------------------------------------------- when every setup is waited for

  /** No request begins before all that the one before it sent is done. */
  ghost predicate Patient(states: seq<Container>, events: seq<Event>)
    requires |states| == |events| + 1
  {
    forall i :: 0 <= i < |events| && events[i].Begin? ==> events[i].sent == multiset{}
  }

  lemma {:induction false} NothingIsLate(project: Location, original: Content, states: seq<Container>,
                                         events: seq<Event>, n: nat)
    requires IsLife(project, original, states, events) && n < |states| && Patient(states, events)
    ensures states[n].late == multiset{}
  {
    if n > 0 {
      NothingIsLate(project, original, states, events, n - 1);
      assert Next(project, original, states[n - 1], events[n - 1], states[n - 1 + 1]);
    }
  }

  /**
    If no setup leaves anything under way, a last request that is self-consistent shows, without any
    condition on earlier ones.
   */
  lemma PatientLifeShows(project: Location, original: Content, states: seq<Container>, events: seq<Event>,
                         m: nat, n: nat)
    requires IsLife(project, original, states, events) && m < n < |states| && events[m].Begin?
    requires forall i :: m < i < n ==> !events[i].Begin?
    requires SelfConsistent(project, original, events[m].request)
    requires Patient(states, events) && Complete(states[n])
    ensures Shows(project, original, events[m].request, states[n].dir)
  {
    NothingIsLate(project, original, states, events, m + 1);
    OnlyTheLastRequestShows(project, original, states, events, m, n);
  }

  // ------------------------------------------------------------- exactly when stragglers do harm

  /** The request's setup from the directory `d`, mixed with what is late, until it is complete, and beyond. */
  ghost predicate SetsUp(project: Location, original: Content, r: Request, late: multiset<Op>, d: Directory,
                         states: seq<Container>, events: seq<Event>)
  {
    && Sound(d)
    && Leads(project, original, states, events)
    && states[0] == Begun(project, original, d, r, late)
    && (forall i :: 0 <= i < |events| ==> !events[i].Begin?)
    && Complete(states[|events|])
  }

  /** However the request's setup and what is late interleave, the request shows whenever it is complete. */
  ghost predicate AlwaysShows(project: Location, original: Content, r: Request, late: multiset<Op>) {
    forall d, states: seq<Container>, events: seq<Event> :: SetsUp(project, original, r, late, d, states, events) ==>
      Shows(project, original, r, states[|events|].dir)
  }

  lemma StartingWith(project: Location, original: Content, c: Container, e: Event, more: seq<Container>,
                     later: seq<Event>)
      returns (states: seq<Container>, events: seq<Event>)
    requires Leads(project, original, more, later) && Next(project, original, c, e, more[0]) && !e.Begin?
    requires forall i :: 0 <= i < |later| ==> !later[i].Begin?
    ensures Leads(project, original, states, events) && states[0] == c && states[|events|] == more[|later|]
    ensures forall i :: 0 <= i < |events| ==> !events[i].Begin?
  {
    states, events := [c] + more, [e] + later;
  }

  /** The request's operations one after the other, all succeeding. */
  lemma {:induction false} SetupRuns(project: Location, original: Content, c: Container, xs: seq<Op>)
      returns (states: seq<Container>, events: seq<Event>)
    requires c.own == multiset(xs) && PerformAll(c.dir, xs).Some?
    ensures Leads(project, original, states, events) && states[0] == c
    ensures forall i :: 0 <= i < |events| ==> !events[i].Begin?
    ensures states[|events|] == c.(own := multiset{}, dir := PerformAll(c.dir, xs).value)
    decreases |xs|
  {
    if xs == [] {
      states, events := [c], [];
    } else {
      assert xs == [xs[0]] + xs[1..];
      var op, rest := xs[0], xs[1..];
      var d := FirstSucceeds(project, original, c, op, rest);
      var more, later := SetupRuns(project, original, d, rest);
      states, events := StartingWith(project, original, c, PerformOwn(op), more, later);
    }
  }

  lemma FirstSucceeds(project: Location, original: Content, c: Container, op: Op, rest: seq<Op>) returns (d: Container)
    requires c.own == multiset([op]) + multiset(rest) && PerformAll(c.dir, [op] + rest).Some?
    ensures Next(project, original, c, PerformOwn(op), d) && d.own == multiset(rest)
    ensures Perform(c.dir, op) == Some(d.dir) && PerformAll(d.dir, rest) == PerformAll(c.dir, [op] + rest)
    ensures d == c.(own := d.own, dir := d.dir)
  {
    PerformFirst(c.dir, op, rest);
    d := c.(own := c.own - multiset{op}, dir := Perform(c.dir, op).value);
  }

  lemma LeadsOn(project: Location, original: Content, states: seq<Container>, events: seq<Event>, e: Event,
                c: Container)
    requires Leads(project, original, states, events) && Next(project, original, states[|events|], e, c)
    ensures Leads(project, original, states + [c], events + [e])
  {
  }

  /** The setup is complete, and then a late operation lands. */
  lemma LateLands(project: Location, original: Content, r: Request, late: multiset<Op>, d: Directory,
                  before: seq<Container>, earlier: seq<Event>, q: Op)
      returns (states: seq<Container>, events: seq<Event>)
    requires SetsUp(project, original, r, late, d, before, earlier)
    requires q in before[|earlier|].late && Perform(before[|earlier|].dir, q).Some?
    ensures SetsUp(project, original, r, late, d, states, events)
    ensures var last, c := before[|earlier|], states[|events|];
            && c == last.(late := last.late - multiset{q}, dir := Perform(last.dir, q).value)
            && At(c.dir, q.path) == EffectOf(q)
  {
    var last := before[|earlier|];
    var after := last.(late := last.late - multiset{q}, dir := Tried(last.dir, q));
    LeadsOn(project, original, before, earlier, PerformLate(q), after);
    PerformAt(last.dir, q, q.path);
    states, events := before + [after], earlier + [PerformLate(q)];
  }

  /** In an order that ends on the key file, nothing is in the way of another operation on it. */
  lemma KeyFileLast(project: Location, original: Content, r: Request, k: KeyFile, d: Directory, xs: seq<Op>)
      returns (ys: seq<Op>)
    requires Sound(d) && Independent(project, original, r)
    requires multiset(xs) == SetupOps(project, original, r) && PerformAll(d, xs).Some?
    ensures multiset(ys) == SetupOps(project, original, r) && PerformAll(d, ys).Some?
    ensures !Blocked(PerformAll(d, ys).value, Resolve(project, NameOf(k)))
  {
    var op := KeyFileIsCovered(project, original, r, k);
    var rest := AllButOne(SetupOps(project, original, r), op);
    ys := rest + [op];
    AnyOrder(d, xs, ys);
    LastOp(d, rest, op);
    BlockedAfter(PerformAll(d, rest).value, op, op.path);
  }

  /** A late operation that is contrary to an independent request can come after its setup is complete. */
  lemma StragglerSpoils(project: Location, original: Content, r: Request, late: multiset<Op>, q: Op, k: KeyFile,
                        d: Directory, xs: seq<Op>)
      returns (states: seq<Container>, events: seq<Event>)
    requires Sound(d) && Independent(project, original, r)
    requires multiset(xs) == SetupOps(project, original, r) && PerformAll(d, xs).Some?
    requires q in late && Contrary(project, original, r, q, k)
    ensures SetsUp(project, original, r, late, d, states, events) && states[|events|].request == Some(r)
    ensures !Shows(project, original, r, states[|events|].dir)
  {
    var ys := KeyFileLast(project, original, r, k, d, xs);
    states, events := SetupRuns(project, original, Begun(project, original, d, r, late), ys);
    states, events := LateLands(project, original, r, late, d, states, events, q);
  }

  // ------------------------------------------------------------- when what is late can do no harm

  /**
    A file of the request keeps the path shut: a file below it makes a directory of it, and a file
    above it, unless something late deletes that one, leaves no room for it.
   */
  ghost predicate Shuts(b: Op, late: multiset<Op>, p: Location) {
    b.Write? && (ProperPrefix(p, b.path) || (ProperPrefix(b.path, p) && Delete(b.path) !in late))
  }

  /** What is late and contrary to the request is on a path that one of the request's files keeps shut. */
  ghost predicate Harmless(project: Location, original: Content, r: Request, late: multiset<Op>) {
    forall q, k :: q in late && Contrary(project, original, r, q, k) ==>
      exists b :: b in SetupOps(project, original, r) && Shuts(b, late, Resolve(project, NameOf(k)))
  }

  /** The file that shuts the path is still to be written, or is there, or the setup has failed. */
  ghost predicate Barred(c: Container, b: Op, p: Location) {
    && Sound(c.dir)
    && (|| c.failed
        || b in c.own
        || (if ProperPrefix(p, b.path) then p in c.dir.dirs else b.path in c.dir.files))
    && (ProperPrefix(b.path, p) ==> Delete(b.path) !in c.own && Delete(b.path) !in c.late)
  }

  lemma TriedSound(d: Directory, op: Op)
    requires Sound(d)
    ensures Sound(Tried(d, op))
  {
    if Perform(d, op).Some? {
      PerformSound(d, op);
    }
  }

  lemma StepStaysBarred(project: Location, original: Content, c: Container, e: Event, c': Container, b: Op,
                        p: Location)
    requires Next(project, original, c, e, c') && !e.Begin? && Barred(c, b, p)
    requires b.Write? && StrictlyComparable(p, b.path)
    ensures Barred(c', b, p)
  {
    TriedSound(c.dir, e.op);
    if e.op == b && Perform(c.dir, b).Some? && ProperPrefix(p, b.path) {
      WriteMakesDirectories(c.dir, b, p);
    }
    assert ProperPrefix(b.path, p) ==> e.op != Delete(b.path);
  }

  lemma LifeStaysBarred(project: Location, original: Content, states: seq<Container>, events: seq<Event>,
                        n: nat, b: Op, p: Location)
    requires Leads(project, original, states, events) && n < |states|
    requires forall i :: 0 <= i < n ==> !events[i].Begin?
    requires Barred(states[0], b, p) && b.Write? && StrictlyComparable(p, b.path)
    ensures Barred(states[n], b, p)
  {
    var barred := (c: Container) => Barred(c, b, p);
    forall i | 0 <= i < n && barred(states[i]) ensures barred(states[i + 1]) {
      StepStaysBarred(project, original, states[i], events[i], states[i + 1], b, p);
    }
    Persists(states, 0, n, barred);
  }

  lemma BarredIsEmpty(c: Container, b: Op, p: Location)
    requires Barred(c, b, p) && Complete(c) && StrictlyComparable(p, b.path)
    ensures At(c.dir, p) == None
  {
    if ProperPrefix(b.path, p) {
      assert p[..|b.path|] in ProperPrefixes(p);
    }
  }

  /** A request has no key file where another of its files shuts the path, and does not delete that other file. */
  lemma ShutIsUnwanted(project: Location, original: Content, r: Request, b: Op, k: KeyFile)
    requires Feasible(SetupOps(project, original, r)) && b in SetupOps(project, original, r) && b.Write?
    requires StrictlyComparable(Resolve(project, NameOf(k)), b.path)
    ensures Wanted(original, r, k) == None
    ensures ProperPrefix(b.path, Resolve(project, NameOf(k))) ==> Delete(b.path) !in SetupOps(project, original, r)
  {
    var own := KeyFileIsCovered(project, original, r, k);
    if ProperPrefix(b.path, Resolve(project, NameOf(k))) && Delete(b.path) in SetupOps(project, original, r) {
      var s := OpHasSubject(project, original, r, Delete(b.path));
      KeyLocationsAreApart(project, s.k, k);
    }
  }

  lemma ShutShows(project: Location, original: Content, r: Request, late: multiset<Op>, d: Directory,
                  states: seq<Container>, events: seq<Event>, b: Op, k: KeyFile)
    requires Feasible(SetupOps(project, original, r)) && b in SetupOps(project, original, r)
    requires Shuts(b, late, Resolve(project, NameOf(k)))
    requires SetsUp(project, original, r, late, d, states, events)
    ensures At(states[|events|].dir, Resolve(project, NameOf(k))) == Wanted(original, r, k)
  {
    ShutIsUnwanted(project, original, r, b, k);
    LifeStaysBarred(project, original, states, events, |events|, b, Resolve(project, NameOf(k)));
    BarredIsEmpty(states[|events|], b, Resolve(project, NameOf(k)));
  }

  lemma HarmlessShows(project: Location, original: Content, r: Request, late: multiset<Op>, d: Directory,
                      states: seq<Container>, events: seq<Event>)
    requires Feasible(SetupOps(project, original, r))
    requires SelfConsistent(project, original, r) && Harmless(project, original, r, late)
    requires SetsUp(project, original, r, late, d, states, events)
    ensures Shows(project, original, r, states[|events|].dir)
  {
    forall k ensures At(states[|events|].dir, Resolve(project, NameOf(k))) == Wanted(original, r, k) {
      if AgreeOn(project, original, r, late, k) {
        BegunIsOnItsWay(project, original, d, r, late, k);
        LifeStaysOnItsWay(project, original, states, events, r, 0, |events|, k);
      } else {
        var q :| q in late && Contrary(project, original, r, q, k);
        var b :| b in SetupOps(project, original, r) && Shuts(b, late, Resolve(project, NameOf(k)));
        ShutShows(project, original, r, late, d, states, events, b, k);
      }
    }
  }

  // ------------------------------------------------------------- and when it can

  /** All files of the directory are written by the operations, and all directories are on the way to such files. */
  ghost predicate MadeBy(d: Directory, ops: multiset<Op>) {
    && Sound(d)
    && (forall p :: p in d.files ==> exists op :: op in ops && op.Write? && op.path == p)
    && (forall p :: p in d.dirs ==> p == [] || exists op :: op in ops && op.Write? && ProperPrefix(p, op.path))
  }

  lemma PlainOrder(ops: multiset<Op>) returns (xs: seq<Op>)
    requires Feasible(ops)
    ensures multiset(xs) == ops && PerformAll(EMPTY, xs).Some? && MadeBy(PerformAll(EMPTY, xs).value, ops)
  {
    var all := Listing(ops);
    var ds, ws := DeletesAndWrites(all);
    xs := ds + ws;
    EmptyIsOpen(ops);
    DeletesThenWrites(EMPTY, ds, ws);
    PerformAllSound(EMPTY, xs);
    forall op | op in ws ensures op in ops && op.Write? {
      assert op in multiset(all);
    }
  }

  /** The request's deletes, and then its writes, in the empty directory. */
  lemma PlainSetup(project: Location, original: Content, r: Request, late: multiset<Op>)
      returns (states: seq<Container>, events: seq<Event>)
    requires Feasible(SetupOps(project, original, r))
    ensures SetsUp(project, original, r, late, EMPTY, states, events)
    ensures states[|events|].late == late && MadeBy(states[|events|].dir, SetupOps(project, original, r))
  {
    var xs := PlainOrder(SetupOps(project, original, r));
    states, events := SetupRuns(project, original, Begun(project, original, EMPTY, r, late), xs);
  }

  lemma {:induction false} PerformAllSound(d: Directory, xs: seq<Op>)
    requires Sound(d) && PerformAll(d, xs).Some?
    ensures Sound(PerformAll(d, xs).value)
    decreases |xs|
  {
    if xs != [] {
      PerformSound(d, xs[0]);
      PerformAllSound(Perform(d, xs[0]).value, xs[1..]);
    }
  }

  lemma BelowFile(d: Directory, upper: Location, lower: Location)
    requires Sound(d) && upper in d.files && ProperPrefix(upper, lower)
    ensures lower !in d.files
  {
    assert lower[..|upper|] in ProperPrefixes(lower);
  }

  /** A file above a path is the only one, and once it is deleted the path is free. */
  lemma OnlyFileAbove(d: Directory, upper: Location, p: Location)
    requires Sound(d) && upper in d.files && ProperPrefix(upper, p)
    ensures Perform(d, Delete(upper)).Some?
    ensures p !in d.dirs ==> !Blocked(Perform(d, Delete(upper)).value, p)
  {
    forall i | 0 <= i < |upper| ensures upper[..i] !in d.files {
      assert upper[..i] in ProperPrefixes(upper);
    }
    forall i | 0 <= i < |p| && i != |upper| ensures p[..i] !in d.files {
      if i < |upper| {
        assert p[..i] == upper[..i];
      } else {
        BelowFile(d, upper, p[..i]);
      }
    }
  }

  lemma NotADirectory(d: Directory, ops: multiset<Op>, late: multiset<Op>, p: Location)
    requires MadeBy(d, ops) && p != [] && forall b :: b in ops ==> !Shuts(b, late, p)
    ensures p !in d.dirs
    ensures forall i :: 0 <= i < |p| && p[..i] in d.files ==> Delete(p[..i]) in late
  {
    forall i | 0 <= i < |p| && p[..i] in d.files ensures Delete(p[..i]) in late {
      var b :| b in ops && b.Write? && b.path == p[..i];
      assert |b.path| == i && ProperPrefix(b.path, p) && !Shuts(b, late, p);
    }
  }

  /** If a file is above the path, the late operation that deletes it comes. */
  lemma PathIsCleared(project: Location, original: Content, r: Request, late: multiset<Op>, q: Op,
                      before: seq<Container>, earlier: seq<Event>)
      returns (states: seq<Container>, events: seq<Event>)
    requires SetsUp(project, original, r, late, EMPTY, before, earlier) && Sound(before[|earlier|].dir)
    requires before[|earlier|].late == late && q in late && q.path !in before[|earlier|].dir.dirs
    requires forall i :: 0 <= i < |q.path| && q.path[..i] in before[|earlier|].dir.files ==> Delete(q.path[..i]) in late
    ensures SetsUp(project, original, r, late, EMPTY, states, events)
    ensures q in states[|events|].late && !Blocked(states[|events|].dir, q.path)
  {
    states, events := before, earlier;
    var d := before[|earlier|].dir;
    if i :| 0 <= i < |q.path| && q.path[..i] in d.files {
      var upper := q.path[..i];
      OnlyFileAbove(d, upper, q.path);
      states, events := LateLands(project, original, r, late, EMPTY, before, earlier, Delete(upper));
    }
  }

  /** What is late and contrary, on a path that is not kept shut, can have the last word on it. */
  lemma HarmIsDone(project: Location, original: Content, r: Request, late: multiset<Op>, q: Op, k: KeyFile)
      returns (states: seq<Container>, events: seq<Event>)
    requires Feasible(SetupOps(project, original, r)) && q in late && Contrary(project, original, r, q, k)
    requires forall b :: b in SetupOps(project, original, r) ==> !Shuts(b, late, Resolve(project, NameOf(k)))
    ensures SetsUp(project, original, r, late, EMPTY, states, events)
    ensures !Shows(project, original, r, states[|events|].dir)
  {
    KeyLocationsAreApart(project, k, k);
    states, events := PlainSetup(project, original, r, late);
    NotADirectory(states[|events|].dir, SetupOps(project, original, r), late, q.path);
    states, events := PathIsCleared(project, original, r, late, q, states, events);
    states, events := LateLands(project, original, r, late, EMPTY, states, events, q);
  }

  /** A setup that is not self-consistent can spoil itself. */
  lemma OwnHarmIsDone(project: Location, original: Content, r: Request, late: multiset<Op>)
      returns (states: seq<Container>, events: seq<Event>)
    requires Feasible(SetupOps(project, original, r)) && !SelfConsistent(project, original, r)
    ensures SetsUp(project, original, r, late, EMPTY, states, events)
    ensures !Shows(project, original, r, states[|events|].dir)
  {
    var op, k :| op in SetupOps(project, original, r) && Contrary(project, original, r, op, k);
    EmptyIsOpen(SetupOps(project, original, r));
    var ops := ContraryLast(project, original, r, op, k, EMPTY);
    states, events := SetupRuns(project, original, Begun(project, original, EMPTY, r, late), ops);
  }

  /**
    A request none of whose files is to hold another shows whenever it is complete, from every directory
    and under every interleaving with what earlier requests left under way, exactly when it is
    self-consistent and what of that is contrary to it is on paths that its own files keep shut.
   */
  lemma LastRequestShowsExactly(project: Location, original: Content, r: Request, late: multiset<Op>)
    requires Feasible(SetupOps(project, original, r))
    ensures AlwaysShows(project, original, r, late) <==>
            SelfConsistent(project, original, r) && Harmless(project, original, r, late)
  {
    if !SelfConsistent(project, original, r) {
      var states, events := OwnHarmIsDone(project, original, r, late);
    } else if !Harmless(project, original, r, late) {
      var q, k :| q in late && Contrary(project, original, r, q, k)
        && forall b :: b in SetupOps(project, original, r) ==> !Shuts(b, late, Resolve(project, NameOf(k)));
      var states, events := HarmIsDone(project, original, r, late, q, k);
    } else {
      forall d, states: seq<Container>, events: seq<Event> | SetsUp(project, original, r, late, d, states, events)
        ensures Shows(project, original, r, states[|events|].dir)
      {
        HarmlessShows(project, original, r, late, d, states, events);
      }
    }
  }

  /** For an independent request no path is kept shut, so that nothing late may be contrary. */
  lemma IndependentShowsExactly(project: Location, original: Content, r: Request, late: multiset<Op>)
    requires Independent(project, original, r) && !Doomed(SetupOps(project, original, r))
    ensures AlwaysShows(project, original, r, late) <==> Agree(project, original, r, late)
  {
    IndependentIsFeasible(SetupOps(project, original, r));
    IndependentIsSelfConsistent(project, original, r);
    LastRequestShowsExactly(project, original, r, late);
    forall b, k | b in SetupOps(project, original, r) ensures !Shuts(b, late, Resolve(project, NameOf(k))) {
      var own := KeyFileIsCovered(project, original, r, k);
      KeyLocationsAreApart(project, k, k);
      assert !Clash(own, b);
    }
  }

  lemma IndependentIsFeasible(ops: multiset<Op>)
    requires NoClash(ops) && !Doomed(ops)
    ensures Feasible(ops)
  {
    forall a, b | a in ops && b in ops && a.Write? && b.Write? ensures !ProperPrefix(a.path, b.path) {
      assert a.path != [];
      assert Delete(a.path) in ops ==> !Clash(a, Delete(a.path));
    }
  }

  // ------------------------------------------------------------- a life in which they do

  lemma LifeGoesOn(project: Location, original: Content, states: seq<Container>, events: seq<Event>, e: Event,
                   c: Container)
    requires IsLife(project, original, states, events) && Next(project, original, states[|events|], e, c)
    ensures IsLife(project, original, states + [c], events + [e])
  {
    LeadsOn(project, original, states, events, e, c);
  }

  /** A first request fails at once and leaves the rest of what it sent under way when the next begins. */
  lemma FailThenBegin(project: Location, original: Content, d: Directory, a: Request, bad: Op, b: Request)
      returns (states: seq<Container>, events: seq<Event>)
    requires Sound(d) && bad in SetupOps(project, original, a) && Blocked(d, bad.path)
    ensures IsLife(project, original, states, events) && states[0].dir == d
    ensures states[|events|] == Begun(project, original, d, b, SetupOps(project, original, a) - multiset{bad})
  {
    var s0 := Container(d, multiset{}, multiset{}, None, false);
    var s1 := Begun(project, original, d, a, multiset{});
    var rest := SetupOps(project, original, a) - multiset{bad};
    var s2 := s1.(own := rest, failed := true);
    assert s0.late + s0.own == s1.late && s2.late + rest == rest;
    LifeGoesOn(project, original, [s0], [], Begin(a, multiset{}), s1);
    assert [s0] + [s1] == [s0, s1] && [] + [Begin(a, multiset{})] == [Begin(a, multiset{})];
    LifeGoesOn(project, original, [s0, s1], [Begin(a, multiset{})], PerformOwn(bad), s2);
    states, events := [s0, s1] + [s2], [Begin(a, multiset{})] + [PerformOwn(bad)];
    var s3 := Begun(project, original, d, b, rest);
    LifeGoesOn(project, original, states, events, Begin(b, rest), s3);
    states, events := states + [s3], events + [Begin(b, rest)];
  }

  lemma JoinLeads(project: Location, original: Content, s: seq<Container>, e: seq<Event>,
                  t: seq<Container>, f: seq<Event>)
    requires Leads(project, original, s, e) && Leads(project, original, t, f) && t[0] == s[|e|]
    ensures Leads(project, original, s + t[1..], e + f)
  {
    var states, events := s + t[1..], e + f;
    forall i | 0 <= i < |events| ensures Next(project, original, states[i], events[i], states[i + 1]) {
      if i < |e| {
        assert Next(project, original, s[i], e[i], s[i + 1]);
      } else {
        assert Next(project, original, t[i - |e|], f[i - |e|], t[i - |e| + 1]);
      }
    }
  }

  lemma JoinLives(project: Location, original: Content, s: seq<Container>, e: seq<Event>,
                  t: seq<Container>, f: seq<Event>)
    requires IsLife(project, original, s, e) && Leads(project, original, t, f) && t[0] == s[|e|]
    ensures IsLife(project, original, s + t[1..], e + f)
    ensures (s + t[1..])[|e + f|] == t[|f|]
  {
    JoinLeads(project, original, s, e, t, f);
  }

  /** What an earlier request left under way can have the last word on a key file. */
  lemma StragglerHasTheLastWord(project: Location, original: Content, s: seq<Container>, e: seq<Event>, b: Request,
                                late: multiset<Op>, q: Op, k: KeyFile, xs: seq<Op>)
      returns (states: seq<Container>, events: seq<Event>)
    requires IsLife(project, original, s, e) && Sound(s[|e|].dir)
    requires s[|e|] == Begun(project, original, s[|e|].dir, b, late) && Independent(project, original, b)
    requires q in late && Contrary(project, original, b, q, k)
    requires multiset(xs) == SetupOps(project, original, b) && PerformAll(s[|e|].dir, xs).Some?
    ensures IsLife(project, original, states, events) && states[0] == s[0]
    ensures Complete(states[|events|]) && states[|events|].request == Some(b)
    ensures !Shows(project, original, b, states[|events|].dir)
  {
    var t, f := StragglerSpoils(project, original, b, late, q, k, s[|e|].dir, xs);
    JoinLives(project, original, s, e, t, f);
    states, events := s + t[1..], e + f;
  }

  predicate IsProgram(b: Request, text: Content) {
    b.crateType == Binary && b.code == Single(text)
  }

  lemma ProgramIsApart(b: Request, text: Content)
    requires IsProgram(b, text)
    ensures NamesApart(b)
  {
    assert FilesOf(b) == [(NameOf(MainRs), text)];
    KeyFilesAreCanonical(MainRs);
    forall k: KeyFile | k != MainRs ensures !Comparable(KeyParts(MainRs), KeyParts(k)) {
      KeyFilesAreApart(MainRs, k);
    }
  }

  /** A single file of code can be set up in a fresh project. */
  lemma ProgramFits(project: Location, original: Content, b: Request, text: Content, xs: seq<Op>)
    requires IsProgram(b, text) && multiset(xs) == SetupOps(project, original, b)
    ensures Independent(project, original, b) && PerformAll(FreshProject(project, original), xs).Some?
  {
    ProgramIsApart(b, text);
    ApartRequestsAreIndependent(project, original, b);
    FreshIsSound(project, original);
    forall op | op in xs ensures !Blocked(FreshProject(project, original), op.path) {
      assert op in multiset(xs);
      var s := OpHasSubject(project, original, b, op);
      assert FilesOf(b) == [(NameOf(MainRs), text)];
    }
    SucceedsExactly(FreshProject(project, original), xs);
  }

  lemma SourceIsBlocked(project: Location, manifest: Content, name: string, k: KeyFile)
    requires k == MainRs && name == Join(Parents(KeyParts(k)))
    ensures Blocked(FreshProject(project, manifest), Resolve(project, name))
    ensures Resolve(project, name) != Resolve(project, NameOf(k))
  {
    var dir := Parents(KeyParts(k));
    KeyFilesAreCanonical(k);
    KeyPartsHaveNoSlash(k);
    assert |KeyParts(k)| == 2 && dir != [];
    SplitJoin(dir);
    CanonicalResolve(project, name);
    CanonicalResolve(project, NameOf(k));
    assert (project + KeyParts(k))[..|project + dir|] == project + dir;
  }

  /**
    Concretely, from a fresh project: a request with the files `src` and `src/main.rs` fails at the first.
    The next request, a program, is complete, and then the other write of the first one lands: the old
    program is built.
   */
  lemma StaleProgramLands(project: Location, original: Content, a: Request, b: Request, x: Content, stale: Content,
                          text: Content)
      returns (states: seq<Container>, events: seq<Event>)
    requires a.code == Multiple([(Join(Parents(KeyParts(MainRs))), x), (NameOf(MainRs), stale)])
    requires IsProgram(b, text) && stale != text
    ensures IsLife(project, original, states, events) && states[0].dir == FreshProject(project, original)
    ensures Complete(states[|events|]) && states[|events|].request == Some(b)
    ensures !Shows(project, original, b, states[|events|].dir)
  {
    var d, source := FreshProject(project, original), Join(Parents(KeyParts(MainRs)));
    SourceIsBlocked(project, original, source, MainRs);
    FreshIsSound(project, original);
    var bad, q := Write(Resolve(project, source), x), Write(Resolve(project, NameOf(MainRs)), stale);
    WriteIsIn(project, FilesOf(a), (source, x));
    WriteIsIn(project, FilesOf(a), (NameOf(MainRs), stale));
    SetupHas(project, original, a, bad);
    SetupHas(project, original, a, q);
    var xs := Listing(SetupOps(project, original, b));
    ProgramFits(project, original, b, text, xs);
    assert Wanted(original, b, MainRs) == Some(text);
    var late := SetupOps(project, original, a) - multiset{bad};
    assert q in late && Contrary(project, original, b, q, MainRs);
    var s, e := FailThenBegin(project, original, d, a, bad, b);
    states, events := StragglerHasTheLastWord(project, original, s, e, b, late, q, MainRs, xs);
  }
}
