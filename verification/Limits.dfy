/**
  A limited pool of permits as `Global` uses one for containers and one for processes: every
  acquisition is a task that other threads interleave with, and that may be dropped at any await.
 */
module Limits {
  import opened Counters
  import opened Wrappers

  datatype Acquisition = Acquired | Aborted | Error

  datatype Event = Start | Outcome(how: Acquisition) | Release

  datatype Phase =
    | Created                          // the future exists, its id is taken
    | Started                          // the guard exists
    | NoPermit                         // trying did not get a permit
    | Waiting                          // queued at the semaphore
    | Granted                          // the semaphore has reserved a permit, the task has not run yet
    | Holding                          // the task has the permit, the guard is not complete
    | Tracked                          // the permit is inside a token
    | Releasing                        // the token's `drop` has run, its permit field is still there
    | Cancelling                       // the future is being dropped, the guard is still there
    | Ended(how: Option<Acquisition>)

  datatype Task = Task(phase: Phase, slow: bool)

  /** One call of `container_requested`. */
  datatype Handler = Asking | Given | Handled | GivenUp

  /** `tries` tells containers, which try first and then ask for one back, from processes. */
  datatype Pool = Pool(
    tries: bool,
    limit: nat,
    free: nat,
    tasks: seq<Task>,
    requests: nat,
    handlers: seq<Handler>,
    log: seq<(nat, Event)>)

  /** What one task may do next. */
  datatype TaskAction =
    | Poll | TryAcquire | Notify | Enqueue | Grant | Wake | Complete
    | Refuse | Cancel | FinishCancel | DropToken | DropPermit

  datatype Action =
    | Call
    | Run(t: nat, action: TaskAction)
    | Ask
    | Give(h: nat)
    | Handle(h: nat)
    | GiveUp(h: nat)

  function NewPool(tries: bool, limit: nat): Pool {
    Pool(tries, limit, limit, [], 0, [], [])
  }

  /** What a task's action does to the task, to the free permits, to the requests and to the log. */
  datatype Change = Change(task: Task, permits: int, requests: nat, events: seq<Event>)

  function To(task: Task, phase: Phase, events: seq<Event>): Change {
    Change(task.(phase := phase), 0, 0, events)
  }

  function Acquire(tries: bool, free: nat, task: Task, a: TaskAction): Option<Change> {
    match (a, task.phase)
    case (Poll, Created) => Some(To(task, Started, [Start]))
    case (TryAcquire, Started) =>
      if !tries then None
      else if free == 0 then Some(To(task, NoPermit, []))
      else Some(To(task, Holding, []).(permits := -1))
    case (Notify, NoPermit) => Some(Change(Task(Waiting, true), 0, 1, []))
    case (Enqueue, Started) => if tries then None else Some(To(task, Waiting, []))
    case (Grant, Waiting) => if free == 0 then None else Some(To(task, Granted, []).(permits := -1))
    case (Wake, Granted) => Some(To(task, Holding, []))
    case (Complete, Holding) => Some(To(task, Tracked, [Outcome(Acquired)]))
    case _ => None
  }

  function End(task: Task, a: TaskAction): Option<Change> {
    match (a, task.phase)
    // the semaphore reports that it is closed
    case (Refuse, Started) => Some(To(task, Ended(Some(Error)), [Outcome(Error)]))
    case (Refuse, Waiting) => Some(To(task, Ended(Some(Error)), [Outcome(Error)]))
    case (Cancel, Created) => Some(To(task, Ended(None), []))
    case (Cancel, Waiting) => Some(To(task, Cancelling, []))
    case (Cancel, Granted) => Some(To(task, Cancelling, []).(permits := 1))
    case (FinishCancel, Cancelling) => Some(To(task, Ended(Some(Aborted)), [Outcome(Aborted)]))
    case (DropToken, Tracked) => Some(To(task, Releasing, [Release]))
    case (DropPermit, Releasing) => Some(To(task, Ended(Some(Acquired)), []).(permits := 1))
    case _ => None
  }

  function Advance(tries: bool, free: nat, task: Task, a: TaskAction): Option<Change> {
    if Acquire(tries, free, task, a).Some? then Acquire(tries, free, task, a) else End(task, a)
  }

  function Changed(p: Pool, t: nat, c: Change): Pool
    requires t < |p.tasks| && 0 <= p.free + c.permits
  {
    Pool(p.tries, p.limit, p.free + c.permits, p.tasks[t := c.task], p.requests + c.requests, p.handlers,
         LogAfter(p.log, t, c.events))
  }

  function LogAfter(log: seq<(nat, Event)>, t: nat, events: seq<Event>): seq<(nat, Event)> {
    if events == [] then log else log + [(t, events[0])]
  }

  function HandlerStep(p: Pool, a: Action): Option<Pool> {
    match a
    case Ask => Some(p.(handlers := p.handlers + [Asking]))
    case Give(h) =>
      if h >= |p.handlers| || !p.handlers[h].Asking? || p.requests == 0 then None
      else Some(p.(handlers := p.handlers[h := Given], requests := p.requests - 1))
    case Handle(h) =>
      if h >= |p.handlers| || !p.handlers[h].Given? then None
      else Some(p.(handlers := p.handlers[h := Handled]))
    case GiveUp(h) =>
      if h >= |p.handlers| || !(p.handlers[h].Asking? || p.handlers[h].Given?) then None
      else
        Some(p.(handlers := p.handlers[h := GivenUp],
                requests := p.requests + (if p.handlers[h].Given? then 1 else 0)))
    case _ => None
  }

  function Step(p: Pool, a: Action): Option<Pool> {
    match a
    case Call => Some(p.(tasks := p.tasks + [Task(Created, false)]))
    case Run(t, action) =>
      if t >= |p.tasks| then None
      else
        (match Advance(p.tries, p.free, p.tasks[t], action)
         case Some(change) => Some(Changed(p, t, change))
         case None => None)
    case _ => HandlerStep(p, a)
  }

  function Count<T>(s: seq<T>, test: T -> bool): nat {
    if s == [] then 0
    else Count(s[..|s| - 1], test) + (if test(s[|s| - 1]) then 1 else 0)
  }

  lemma CountSnoc<T>(s: seq<T>, x: T, test: T -> bool)
    ensures Count(s + [x], test) == Count(s, test) + (if test(x) then 1 else 0)
  {
  }

  lemma {:induction false} CountUpdate<T>(s: seq<T>, i: nat, x: T, test: T -> bool)
    requires i < |s|
    ensures Count(s[i := x], test) + (if test(s[i]) then 1 else 0) == Count(s, test) + (if test(x) then 1 else 0)
  {
    var n := |s| - 1;
    if i == n {
      assert s[i := x][..n] == s[..n];
    } else {
      CountUpdate(s[..n], i, x, test);
      assert s[i := x][..n] == s[..n][i := x];
    }
  }

  /** The task has, or has been promised, one of the pool's permits. */
  predicate Holds(t: Task) {
    t.phase.Granted? || t.phase.Holding? || t.phase.Tracked? || t.phase.Releasing?
  }

  predicate InToken(t: Task) {
    t.phase.Tracked?
  }

  predicate Slow(t: Task) {
    t.slow
  }

  predicate Pending(h: Handler) {
    h.Given?
  }

  predicate Done(h: Handler) {
    h.Handled?
  }

  function Held(p: Pool): nat {
    Count(p.tasks, Holds)
  }

  /** Requests to give a container back that nobody has handled yet. */
  function Outstanding(p: Pool): nat {
    p.requests + Count(p.handlers, Pending)
  }

  function Weight(event: Event): int {
    match event
    case Outcome(Acquired) => 1
    case Release => -1
    case _ => 0
  }

  /** What a monitor that counts acquisitions up and releases down shows. */
  function Gauge(log: seq<(nat, Event)>): int {
    if log == [] then 0
    else
      Gauge(log[..|log| - 1]) + Weight(log[|log| - 1].1)
  }

  function EventsOf(log: seq<(nat, Event)>, t: nat): seq<Event> {
    if log == [] then []
    else
      var entry := log[|log| - 1];
      EventsOf(log[..|log| - 1], t) + (if entry.0 == t then [entry.1] else [])
  }

  lemma GaugeSnoc(log: seq<(nat, Event)>, t: nat, event: Event)
    ensures Gauge(log + [(t, event)]) == Gauge(log) + Weight(event)
  {
    assert (log + [(t, event)])[..|log|] == log;
  }

  lemma EventsSnoc(log: seq<(nat, Event)>, t: nat, event: Event, u: nat)
    ensures EventsOf(log + [(t, event)], u) == EventsOf(log, u) + (if u == t then [event] else [])
  {
    assert (log + [(t, event)])[..|log|] == log;
  }

  /** The events a task has caused by the time it is in a phase. */
  function Events(phase: Phase): seq<Event> {
    match phase
    case Created => []
    case Tracked => [Start, Outcome(Acquired)]
    case Releasing => [Start, Outcome(Acquired), Release]
    case Ended(None) => []
    case Ended(Some(Acquired)) => [Start, Outcome(Acquired), Release]
    case Ended(Some(how)) => [Start, Outcome(how)]
    case _ => [Start]
  }

  ghost predicate Balanced(p: Pool) {
    && Held(p) + p.free == p.limit
    && Gauge(p.log) == Count(p.tasks, InToken)
    && Outstanding(p) + Count(p.handlers, Done) == Count(p.tasks, Slow)
  }

  /** A task's events are those of its phase; a container waits only after it has asked for a permit back. */
  predicate TaskOk(tries: bool, task: Task, events: seq<Event>) {
    && events == Events(task.phase)
    && (task.slow || task.phase.NoPermit? ==> tries)
    && (task.phase.Created? || task.phase.Started? || task.phase.NoPermit? ==> !task.slow)
    && (tries && (task.phase.Waiting? || task.phase.Granted?) ==> task.slow)
  }

  ghost predicate Accounted(p: Pool) {
    && (forall t :: 0 <= t < |p.tasks| ==> TaskOk(p.tries, p.tasks[t], EventsOf(p.log, t)))
    && (forall t :: |p.tasks| <= t ==> EventsOf(p.log, t) == [])
  }

  ghost predicate Inv(p: Pool) {
    Balanced(p) && Accounted(p)
  }

  function One(b: bool): nat {
    if b then 1 else 0
  }

  predicate Fair(task: Task, c: Change) {
    && |c.events| <= 1
    && c.permits + One(Holds(c.task)) == One(Holds(task))
    && c.requests + One(Slow(task)) == One(Slow(c.task))
    && One(InToken(c.task)) - One(InToken(task)) == (if c.events == [] then 0 else Weight(c.events[0]))
  }

  lemma AcquireIsFair(tries: bool, free: nat, task: Task, a: TaskAction)
    requires TaskOk(tries, task, Events(task.phase)) && Acquire(tries, free, task, a).Some?
    ensures var c := Acquire(tries, free, task, a).value;
            0 <= free + c.permits && Fair(task, c) && TaskOk(tries, c.task, Events(task.phase) + c.events)
  {
  }

  lemma EndIsFair(tries: bool, task: Task, a: TaskAction)
    requires TaskOk(tries, task, Events(task.phase)) && End(task, a).Some?
    ensures var c := End(task, a).value;
            0 <= c.permits && Fair(task, c) && TaskOk(tries, c.task, Events(task.phase) + c.events)
  {
  }

  /** Every action of a task gives back exactly the permits it stops holding, and logs what it did. */
  lemma AdvanceIsFair(tries: bool, free: nat, task: Task, a: TaskAction)
    requires TaskOk(tries, task, Events(task.phase)) && Advance(tries, free, task, a).Some?
    ensures var c := Advance(tries, free, task, a).value;
            0 <= free + c.permits && Fair(task, c) && TaskOk(tries, c.task, Events(task.phase) + c.events)
  {
    if Acquire(tries, free, task, a).Some? {
      AcquireIsFair(tries, free, task, a);
    } else {
      EndIsFair(tries, task, a);
    }
  }

  lemma PermitsBalance(p: Pool, t: nat, c: Change)
    requires Held(p) + p.free == p.limit && t < |p.tasks| && 0 <= p.free + c.permits && Fair(p.tasks[t], c)
    ensures Held(Changed(p, t, c)) + Changed(p, t, c).free == p.limit
  {
    CountUpdate(p.tasks, t, c.task, Holds);
  }

  lemma GaugeBalances(p: Pool, t: nat, c: Change)
    requires Gauge(p.log) == Count(p.tasks, InToken) && t < |p.tasks| && 0 <= p.free + c.permits && Fair(p.tasks[t], c)
    ensures Gauge(Changed(p, t, c).log) == Count(Changed(p, t, c).tasks, InToken)
  {
    CountUpdate(p.tasks, t, c.task, InToken);
    if c.events != [] {
      GaugeSnoc(p.log, t, c.events[0]);
    }
  }

  lemma RequestsBalance(p: Pool, t: nat, c: Change)
    requires Outstanding(p) + Count(p.handlers, Done) == Count(p.tasks, Slow)
    requires t < |p.tasks| && 0 <= p.free + c.permits && Fair(p.tasks[t], c)
    ensures Outstanding(Changed(p, t, c)) + Count(p.handlers, Done) == Count(Changed(p, t, c).tasks, Slow)
  {
    CountUpdate(p.tasks, t, c.task, Slow);
  }

  lemma ChangeBalances(p: Pool, t: nat, c: Change)
    requires Balanced(p) && t < |p.tasks| && 0 <= p.free + c.permits && Fair(p.tasks[t], c)
    ensures Balanced(Changed(p, t, c))
  {
    PermitsBalance(p, t, c);
    GaugeBalances(p, t, c);
    RequestsBalance(p, t, c);
  }

  lemma ChangeLogs(p: Pool, t: nat, c: Change, u: nat)
    requires t < |p.tasks| && 0 <= p.free + c.permits && |c.events| <= 1
    ensures EventsOf(Changed(p, t, c).log, u) == EventsOf(p.log, u) + if u == t then c.events else []
  {
    if c.events != [] {
      EventsSnoc(p.log, t, c.events[0], u);
      assert c.events == [c.events[0]];
    }
  }

  lemma TaskAccounts(p: Pool, t: nat, c: Change, u: nat)
    requires Accounted(p) && t < |p.tasks| && 0 <= p.free + c.permits && |c.events| <= 1 && u < |p.tasks|
    requires TaskOk(p.tries, c.task, Events(p.tasks[t].phase) + c.events)
    ensures TaskOk(p.tries, Changed(p, t, c).tasks[u], EventsOf(Changed(p, t, c).log, u))
  {
    ChangeLogs(p, t, c, u);
    assert TaskOk(p.tries, p.tasks[u], EventsOf(p.log, u));
  }

  lemma ChangeAccounts(p: Pool, t: nat, c: Change)
    requires Accounted(p) && t < |p.tasks| && 0 <= p.free + c.permits && |c.events| <= 1
    requires TaskOk(p.tries, c.task, Events(p.tasks[t].phase) + c.events)
    ensures Accounted(Changed(p, t, c))
  {
    forall u | 0 <= u < |p.tasks|
      ensures TaskOk(p.tries, Changed(p, t, c).tasks[u], EventsOf(Changed(p, t, c).log, u))
    {
      TaskAccounts(p, t, c, u);
    }
    forall u: nat | |p.tasks| <= u ensures EventsOf(Changed(p, t, c).log, u) == [] {
      ChangeLogs(p, t, c, u);
    }
  }

  lemma RunActionKeeps(p: Pool, t: nat, a: TaskAction)
    requires Inv(p) && t < |p.tasks| && Advance(p.tries, p.free, p.tasks[t], a).Some?
    ensures Inv(Changed(p, t, Advance(p.tries, p.free, p.tasks[t], a).value))
  {
    assert TaskOk(p.tries, p.tasks[t], EventsOf(p.log, t));
    AdvanceIsFair(p.tries, p.free, p.tasks[t], a);
    var c := Advance(p.tries, p.free, p.tasks[t], a).value;
    ChangeBalances(p, t, c);
    ChangeAccounts(p, t, c);
  }

  lemma HandlerKeeps(p: Pool, a: Action)
    requires Inv(p) && HandlerStep(p, a).Some?
    ensures Inv(HandlerStep(p, a).value)
  {
    var p' := HandlerStep(p, a).value;
    if a.Ask? {
      CountSnoc(p.handlers, Asking, Pending);
      CountSnoc(p.handlers, Asking, Done);
    } else {
      CountUpdate(p.handlers, a.h, p'.handlers[a.h], Pending);
      CountUpdate(p.handlers, a.h, p'.handlers[a.h], Done);
    }
  }

  lemma StepKeeps(p: Pool, a: Action)
    requires Inv(p) && Step(p, a).Some?
    ensures Inv(Step(p, a).value)
  {
    match a
    case Call =>
      var task := Task(Created, false);
      CountSnoc(p.tasks, task, Holds);
      CountSnoc(p.tasks, task, InToken);
      CountSnoc(p.tasks, task, Slow);
    case Run(t, action) => RunActionKeeps(p, t, action);
    case _ => HandlerKeeps(p, a);
  }

  lemma NewPoolInv(tries: bool, limit: nat)
    ensures Inv(NewPool(tries, limit))
  {
  }

  ghost predicate IsRun(tries: bool, limit: nat, pools: seq<Pool>, actions: seq<Action>) {
    && |pools| == |actions| + 1
    && pools[0] == NewPool(tries, limit)
    && forall i :: 0 <= i < |actions| ==> Step(pools[i], actions[i]) == Some(pools[i + 1])
  }

  lemma StepKeepsLimit(p: Pool, a: Action)
    requires Step(p, a).Some?
    ensures Step(p, a).value.limit == p.limit && Step(p, a).value.tries == p.tries
  {
  }

  lemma {:induction false} RunKeeps(tries: bool, limit: nat, pools: seq<Pool>, actions: seq<Action>, n: nat)
    requires IsRun(tries, limit, pools, actions) && n < |pools|
    ensures Inv(pools[n]) && pools[n].limit == limit && pools[n].tries == tries
  {
    if n == 0 {
      NewPoolInv(tries, limit);
    } else {
      RunKeeps(tries, limit, pools, actions, n - 1);
      assert Step(pools[n - 1], actions[n - 1]) == Some(pools[n - 1 + 1]);
      StepKeeps(pools[n - 1], actions[n - 1]);
      StepKeepsLimit(pools[n - 1], actions[n - 1]);
    }
  }

  lemma {:induction false} CountImplies<T>(s: seq<T>, fewer: T -> bool, more: T -> bool)
    requires forall x :: x in s && fewer(x) ==> more(x)
    ensures Count(s, fewer) <= Count(s, more)
  {
    if s != [] {
      CountImplies(s[..|s| - 1], fewer, more);
    }
  }

  /**
    Permits are conserved: those held and those free make up the limit, whatever is cancelled
    when. The gauge that a monitor shows is never negative and never above the permits held.
   */
  lemma PermitsConserved(tries: bool, limit: nat, pools: seq<Pool>, actions: seq<Action>, n: nat)
    requires IsRun(tries, limit, pools, actions) && n < |pools|
    ensures Held(pools[n]) + pools[n].free == limit
    ensures 0 <= Gauge(pools[n].log) <= Held(pools[n])
  {
    RunKeeps(tries, limit, pools, actions, n);
    CountImplies(pools[n].tasks, InToken, Holds);
  }

  /** Each handled request is backed by its own acquisition that found no free permit. */
  lemma RequestsConserved(tries: bool, limit: nat, pools: seq<Pool>, actions: seq<Action>, n: nat)
    requires IsRun(tries, limit, pools, actions) && n < |pools|
    ensures Outstanding(pools[n]) == Count(pools[n].tasks, Slow) - Count(pools[n].handlers, Done)
    ensures Count(pools[n].handlers, Done) <= Count(pools[n].tasks, Slow)
  {
    RunKeeps(tries, limit, pools, actions, n);
  }

  /**
    A task's events are at most one start, then one acquired event, then, for a token only, one
    release; a task that has ended after it started has exactly one acquired event.
   */
  lemma StartsAreMatched(tries: bool, limit: nat, pools: seq<Pool>, actions: seq<Action>, n: nat, t: nat)
    requires IsRun(tries, limit, pools, actions) && n < |pools|
    ensures var events := EventsOf(pools[n].log, t);
            || events == [] || events == [Start]
            || (exists how :: events == [Start, Outcome(how)])
            || events == [Start, Outcome(Acquired), Release]
    ensures t < |pools[n].tasks| && pools[n].tasks[t].phase.Ended? && EventsOf(pools[n].log, t) != [] ==>
              exists how :: EventsOf(pools[n].log, t)
                            == [Start, Outcome(how)] + (if how.Acquired? then [Release] else [])
  {
    RunKeeps(tries, limit, pools, actions, n);
    if t < |pools[n].tasks| && pools[n].tasks[t].phase.Ended? && EventsOf(pools[n].log, t) != [] {
      var how := pools[n].tasks[t].phase.how.value;
      assert EventsOf(pools[n].log, t) == [Start, Outcome(how)] + (if how.Acquired? then [Release] else []);
    }
  }

  // ------------------------------------------------------------- what a container does for its permit

  /** With a free permit a container has it at once, and asks for none. */
  lemma FreePermitIsTaken(p: Pool, t: nat)
    requires p.tries && t < |p.tasks| && p.tasks[t].phase.Started? && p.free > 0
    ensures var q := Step(p, Run(t, TryAcquire));
            && q.Some?
            && q.value.tasks == p.tasks[t := Task(Holding, p.tasks[t].slow)]
            && q.value.free == p.free - 1 && q.value.requests == p.requests
  {
  }

  /** Without one it asks for one to be given back, and waits. */
  lemma NoPermitIsAskedFor(p: Pool, t: nat)
    requires p.tries && t < |p.tasks| && p.tasks[t].phase.Started? && p.free == 0
    ensures var q := Step(p, Run(t, TryAcquire));
            && q.Some? && q.value.free == 0 && q.value.requests == p.requests
            && var r := Step(q.value, Run(t, Notify));
               && r.Some? && r.value.tasks == p.tasks[t := Task(Waiting, true)]
               && r.value.free == 0 && r.value.requests == p.requests + 1
  {
  }

  /** A process waits for its permit in turn, without asking for any. */
  lemma ProcessesQueue(p: Pool, t: nat)
    requires !p.tries && t < |p.tasks| && p.tasks[t].phase.Started?
    ensures Step(p, Run(t, TryAcquire)) == None
    ensures var q := Step(p, Run(t, Enqueue));
            && q.Some? && q.value.tasks == p.tasks[t := Task(Waiting, p.tasks[t].slow)]
            && q.value.free == p.free && q.value.requests == p.requests
  {
  }

  predicate FoundNone(p: Pool, a: Action, t: nat) {
    && a == Run(t, TryAcquire) && p.tries && p.free == 0
    && t < |p.tasks| && p.tasks[t].phase.Started?
  }

  lemma StepFindsNone(p: Pool, a: Action, t: nat)
    requires Step(p, a).Some? && t < |Step(p, a).value.tasks|
    requires var task := Step(p, a).value.tasks[t]; task.slow || task.phase.NoPermit?
    ensures FoundNone(p, a, t) || (t < |p.tasks| && (p.tasks[t].slow || p.tasks[t].phase.NoPermit?))
  {
  }

  /** A container that goes the slow way has tried at a moment when no permit was free. */
  lemma {:induction false} SlowFoundNone(tries: bool, limit: nat, pools: seq<Pool>, actions: seq<Action>, n: nat,
                                         t: nat) returns (i: nat)
    requires IsRun(tries, limit, pools, actions) && n < |pools| && t < |pools[n].tasks|
    requires pools[n].tasks[t].slow || pools[n].tasks[t].phase.NoPermit?
    ensures i < n && FoundNone(pools[i], actions[i], t)
  {
    assert n > 0;
    assert Step(pools[n - 1], actions[n - 1]) == Some(pools[n - 1 + 1]);
    StepFindsNone(pools[n - 1], actions[n - 1], t);
    if FoundNone(pools[n - 1], actions[n - 1], t) {
      i := n - 1;
    } else {
      i := SlowFoundNone(tries, limit, pools, actions, n - 1, t);
    }
  }

  /** A container that waits has asked for a permit to be given back, having found none. */
  lemma WaitersHaveAsked(limit: nat, pools: seq<Pool>, actions: seq<Action>, n: nat, t: nat) returns (i: nat)
    requires IsRun(true, limit, pools, actions) && n < |pools| && t < |pools[n].tasks|
    requires pools[n].tasks[t].phase.Waiting? || pools[n].tasks[t].phase.Granted?
    ensures pools[n].tasks[t].slow && i < n && FoundNone(pools[i], actions[i], t)
  {
    RunKeeps(true, limit, pools, actions, n);
    assert TaskOk(true, pools[n].tasks[t], EventsOf(pools[n].log, t));
    i := SlowFoundNone(true, limit, pools, actions, n, t);
  }

  /** At any await a task may be dropped, and then holds nothing; the semaphore may refuse it while it has nothing. */
  lemma AwaitsMayEnd(p: Pool, t: nat)
    requires t < |p.tasks|
    ensures p.tasks[t].phase.Created? || p.tasks[t].phase.Waiting? || p.tasks[t].phase.Granted? ==>
              var q := Step(p, Run(t, Cancel));
              && q.Some? && !Holds(q.value.tasks[t])
              && q.value.free == p.free + One(p.tasks[t].phase.Granted?)
    ensures p.tasks[t].phase.Started? || p.tasks[t].phase.Waiting? ==>
              var q := Step(p, Run(t, Refuse)); q.Some? && q.value.tasks[t].phase == Ended(Some(Error))
  {
  }

  // ------------------------------------------------------------- what a monitor is told

  /** What a task does when it logs an event. */
  function Cause(e: Event): TaskAction {
    match e
    case Start => Poll
    case Outcome(Acquired) => Complete
    case Outcome(Error) => Refuse
    case Outcome(Aborted) => FinishCancel
    case Release => DropToken
  }

  lemma StepLogs(p: Pool, a: Action, t: nat, e: Event)
    requires Step(p, a).Some?
    ensures (t, e) in Step(p, a).value.log <==> (t, e) in p.log || a == Run(t, Cause(e))
  {
  }

  /** An event is logged exactly if the task has done what it is about. */
  lemma {:induction false} LoggedExactly(tries: bool, limit: nat, pools: seq<Pool>, actions: seq<Action>, n: nat,
                                         t: nat, e: Event)
    requires IsRun(tries, limit, pools, actions) && n < |pools|
    ensures (t, e) in pools[n].log <==> exists i :: 0 <= i < n && actions[i] == Run(t, Cause(e))
  {
    if n > 0 {
      LoggedExactly(tries, limit, pools, actions, n - 1, t, e);
      assert Step(pools[n - 1], actions[n - 1]) == Some(pools[n - 1 + 1]);
      StepLogs(pools[n - 1], actions[n - 1], t, e);
    }
  }

  // ------------------------------------------------------------- names

  /** The name a container gets from the process's start time and the id counter. */
  function ContainerName(start: nat, call: nat): (nat, nat) {
    (start, NthId(call))
  }

  /** No two containers share a name exactly as long as no more than 2^64 are asked for. */
  lemma NamesAreUniqueExactly(start: nat, calls: nat)
    ensures (forall i: nat, j: nat :: i < j < calls ==> ContainerName(start, i) != ContainerName(start, j))
       <==> calls <= U64_VALUES
  {
    IdsDistinctExactly(calls);
    if calls > U64_VALUES {
      assert ContainerName(start, 0) == ContainerName(start, U64_VALUES);
    }
  }
}
