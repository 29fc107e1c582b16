/**
  Every job of one container and one websocket together: the demultiplexer's maps and the
  queues are shared, and the steps of all tasks interleave in any order.
 */
module SharedQueues {
  import opened Protocol

  datatype Tagged<+T> = Tagged(id: JobId, body: T)

  /** The part of a shared queue that belongs to one job. */
  function Project<T>(q: seq<Tagged<T>>, id: JobId): seq<T> {
    if q == [] then []
    else (if q[0].id == id then [q[0].body] else []) + Project(q[1..], id)
  }

  function Tag<T>(id: JobId, bodies: seq<T>): seq<Tagged<T>> {
    seq(|bodies|, i requires 0 <= i < |bodies| => Tagged(id, bodies[i]))
  }

  predicate HeadIs<T>(q: seq<Tagged<T>>, id: JobId) {
    q != [] && q[0].id == id
  }

  function Update<T>(q: seq<Tagged<T>>, taken: bool, id: JobId, bodies: seq<T>): seq<Tagged<T>> {
    (if taken && q != [] then q[1..] else q) + Tag(id, bodies)
  }

  lemma {:induction false} ProjectAppend<T>(a: seq<Tagged<T>>, b: seq<Tagged<T>>, id: JobId)
    ensures Project(a + b, id) == Project(a, id) + Project(b, id)
  {
    if a == [] {
      assert a + b == b;
    } else {
      ProjectAppend(a[1..], b, id);
      assert (a + b)[1..] == a[1..] + b;
      var head := if a[0].id == id then [a[0].body] else [];
      assert head + (Project(a[1..], id) + Project(b, id)) == head + Project(a[1..], id) + Project(b, id);
    }
  }

  lemma {:induction false} ProjectTag<T>(id: JobId, bodies: seq<T>, other: JobId)
    ensures Project(Tag(id, bodies), other) == if other == id then bodies else []
  {
    if bodies != [] {
      assert Tag(id, bodies)[1..] == Tag(id, bodies[1..]);
      ProjectTag(id, bodies[1..], other);
    }
  }

  /** A job's step changes its own part of a shared queue and no other job's part. */
  lemma ProjectUpdate<T>(q: seq<Tagged<T>>, taken: bool, id: JobId, bodies: seq<T>, other: JobId)
    requires taken ==> HeadIs(q, id)
    ensures Project(Update(q, taken, id, bodies), other)
         == if other == id then (if taken then Project(q, id)[1..] else Project(q, id)) + bodies
            else Project(q, other)
  {
    var rest := if taken then q[1..] else q;
    ProjectAppend(rest, Tag(id, bodies), other);
    ProjectTag(id, bodies, other);
    if taken {
      assert Project(q, other) == (if other == id then [q[0].body] else []) + Project(rest, other);
    }
  }
}

module PlaygroundSystem {
  import opened Counters
  import opened Utf8
  import opened Protocol
  import opened JobSteps
  import opened JobInvariant
  import opened SharedQueues

  const RESPONSE_CAPACITY: nat := 3

  datatype System = System(
    nextId: nat,
    jobs: map<JobId, Job>,
    waiting: set<JobId>,
    waitingOnce: set<JobId>,
    commands: seq<Tagged<DemultiplexCommand>>,
    requests: seq<Tagged<Request>>,
    messages: seq<Tagged<WorkerMessage>>,
    outbox: seq<Tagged<Response>>,
    socket: seq<Tagged<Response>>)

  datatype Step =
    | StartJob(request: Request, outcome: WorkerMessage, out: Bytes, err: Bytes)
    | Act(id: JobId, action: Action)
    | SendToSocket

  const INITIAL := System(0, map[], {}, {}, [], [], [], [], [])

  ghost function ViewOf(s: System, id: JobId): View
    requires id in s.jobs
  {
    View(s.jobs[id], id in s.waiting, id in s.waitingOnce,
         Project(s.commands, id), Project(s.requests, id), Project(s.messages, id),
         Project(s.socket, id) + Project(s.outbox, id))
  }

  function With(ids: set<JobId>, id: JobId, present: bool): set<JobId> {
    if present then ids + {id} else ids - {id}
  }

  function Apply(s: System, id: JobId, e: Effect): System {
    System(s.nextId, s.jobs[id := e.job],
           With(s.waiting, id, e.waiting), With(s.waitingOnce, id, e.waitingOnce),
           Update(s.commands, e.taken == Command, id, e.commands),
           Update(s.requests, e.taken == FromCoordinator, id, e.requests),
           Update(s.messages, e.taken == FromWorker, id, e.messages),
           s.outbox + Tag(id, e.responses),
           s.socket)
  }

  /** A consuming step must find its own job's message at the head of the shared queue. */
  predicate AtHead(s: System, id: JobId, taken: Taken) {
    match taken
    case Nothing => true
    case Command => HeadIs(s.commands, id)
    case FromCoordinator => HeadIs(s.requests, id)
    case FromWorker => HeadIs(s.messages, id)
  }

  ghost predicate Next(s: System, step: Step, s': System) {
    match step
    case StartJob(request, outcome, out, err) =>
      && s.nextId < U64_VALUES
      && Fits(request, outcome)
      && s' == s.(nextId := s.nextId + 1, jobs := s.jobs[s.nextId := NewJob(request, outcome, out, err)])
    case Act(id, a) =>
      && id in s.jobs
      && var e := Perform(ViewOf(s, id), a);
         && e.Some?
         && AtHead(s, id, e.value.taken)
         && s' == Apply(s, id, e.value)
         && |s'.commands| <= CHANNEL_CAPACITY
         && |s'.outbox| <= RESPONSE_CAPACITY
    case SendToSocket =>
      && s.outbox != []
      && s' == s.(outbox := s.outbox[1..], socket := s.socket + [s.outbox[0]])
  }

  /** A run of the whole system from its start, all interleavings allowed. */
  ghost predicate IsRun(states: seq<System>, steps: seq<Step>) {
    && |states| == |steps| + 1
    && states[0] == INITIAL
    && forall i :: 0 <= i < |steps| ==> Next(states[i], steps[i], states[i + 1])
  }

  /** No trace of an id that has not been handed out. */
  ghost predicate Unused(s: System, id: JobId) {
    && id !in s.jobs && id !in s.waiting && id !in s.waitingOnce
    && Project(s.commands, id) == []
    && Project(s.requests, id) == []
    && Project(s.messages, id) == []
    && Project(s.socket, id) == []
    && Project(s.outbox, id) == []
  }

  ghost predicate SystemInv(s: System) {
    && (forall id :: id in s.jobs ==> id < s.nextId && JobInv(ViewOf(s, id)))
    && (forall id: JobId :: s.nextId <= id ==> Unused(s, id))
  }

  /** Taking from the head of a shared queue is taking from the head of the job's own part. */
  lemma OwnQueue<T>(q: seq<Tagged<T>>, taken: bool, id: JobId, bodies: seq<T>)
    requires taken ==> HeadIs(q, id)
    ensures Project(Update(q, taken, id, bodies), id) == Drop1(Project(q, id), taken) + bodies
  {
    ProjectUpdate(q, taken, id, bodies, id);
  }

  lemma OwnQueues(s: System, id: JobId, e: Effect)
    requires id in s.jobs && AtHead(s, id, e.taken)
    ensures var s', v' := Apply(s, id, e), After(ViewOf(s, id), e);
            && Project(s'.commands, id) == v'.commands
            && Project(s'.requests, id) == v'.requests
            && Project(s'.messages, id) == v'.messages
  {
    OwnQueue(s.commands, e.taken == Command, id, e.commands);
    OwnQueue(s.requests, e.taken == FromCoordinator, id, e.requests);
    OwnQueue(s.messages, e.taken == FromWorker, id, e.messages);
  }

  lemma OwnResponses(socket: seq<Tagged<Response>>, outbox: seq<Tagged<Response>>, id: JobId, more: seq<Response>)
    ensures Project(socket, id) + Project(outbox + Tag(id, more), id)
         == Project(socket, id) + Project(outbox, id) + more
  {
    ProjectAppend(outbox, Tag(id, more), id);
    ProjectTag(id, more, id);
  }

  lemma ApplyOwn(s: System, id: JobId, e: Effect)
    requires id in s.jobs && AtHead(s, id, e.taken)
    ensures ViewOf(Apply(s, id, e), id) == After(ViewOf(s, id), e)
  {
    OwnQueues(s, id, e);
    OwnResponses(s.socket, s.outbox, id, e.responses);
  }

  lemma OtherQueues(s: System, id: JobId, e: Effect, other: JobId)
    requires id in s.jobs && AtHead(s, id, e.taken) && other != id
    ensures var s' := Apply(s, id, e);
            && Project(s'.commands, other) == Project(s.commands, other)
            && Project(s'.requests, other) == Project(s.requests, other)
            && Project(s'.messages, other) == Project(s.messages, other)
            && Project(s'.outbox, other) == Project(s.outbox, other)
  {
    ProjectUpdate(s.commands, e.taken == Command, id, e.commands, other);
    ProjectUpdate(s.requests, e.taken == FromCoordinator, id, e.requests, other);
    ProjectUpdate(s.messages, e.taken == FromWorker, id, e.messages, other);
    ProjectAppend(s.outbox, Tag(id, e.responses), other);
    ProjectTag(id, e.responses, other);
  }

  lemma ApplyOther(s: System, id: JobId, e: Effect, other: JobId)
    requires id in s.jobs && AtHead(s, id, e.taken) && other != id
    ensures other in s.jobs ==> ViewOf(Apply(s, id, e), other) == ViewOf(s, other)
    ensures Unused(s, other) ==> Unused(Apply(s, id, e), other)
  {
    OtherQueues(s, id, e, other);
  }

  lemma ActKeeps(s: System, id: JobId, a: Action, s': System)
    requires SystemInv(s) && Next(s, Act(id, a), s')
    ensures SystemInv(s')
  {
    var e := Perform(ViewOf(s, id), a).value;
    PerformKeeps(ViewOf(s, id), a);
    forall other | other in s'.jobs
      ensures other < s'.nextId && JobInv(ViewOf(s', other))
    {
      if other == id {
        ApplyOwn(s, id, e);
      } else {
        ApplyOther(s, id, e, other);
      }
    }
    forall other: JobId | s'.nextId <= other
      ensures Unused(s', other)
    {
      ApplyOther(s, id, e, other);
    }
  }

  /** The oldest response goes from the outbox to the socket, and no job sees it twice or not at all. */
  lemma SendProjected(socket: seq<Tagged<Response>>, outbox: seq<Tagged<Response>>, id: JobId)
    requires outbox != []
    ensures Project(socket + [outbox[0]], id) + Project(outbox[1..], id) == Project(socket, id) + Project(outbox, id)
  {
    var r := outbox[0];
    ProjectAppend(socket, [r], id);
    ProjectAppend([r], outbox[1..], id);
    assert [r] + outbox[1..] == outbox;
  }

  lemma SendView(s: System, s': System, id: JobId)
    requires Next(s, SendToSocket, s')
    ensures id in s.jobs ==> ViewOf(s', id) == ViewOf(s, id)
    ensures Unused(s, id) ==> Unused(s', id)
  {
    SendProjected(s.socket, s.outbox, id);
  }

  lemma SendKeepsSystem(s: System, s': System)
    requires SystemInv(s) && Next(s, SendToSocket, s')
    ensures SystemInv(s')
  {
    forall id: JobId
      ensures id in s'.jobs ==> id < s'.nextId && JobInv(ViewOf(s', id))
      ensures s'.nextId <= id ==> Unused(s', id)
    {
      SendView(s, s', id);
    }
  }

  lemma StartKeeps(s: System, request: Request, outcome: WorkerMessage, out: Bytes, err: Bytes, s': System)
    requires SystemInv(s) && Next(s, StartJob(request, outcome, out, err), s')
    ensures SystemInv(s')
  {
    assert Unused(s, s.nextId);
    FreshJob(request, outcome, out, err);
    forall id | id in s'.jobs
      ensures id < s'.nextId && JobInv(ViewOf(s', id))
    {
      if id == s.nextId {
        assert ViewOf(s', id) == Fresh(request, outcome, out, err);
      } else {
        assert ViewOf(s', id) == ViewOf(s, id);
      }
    }
    forall id: JobId | s'.nextId <= id
      ensures Unused(s', id)
    {
      assert Unused(s, id);
    }
  }

  /** The invariant of every job holds in every state of every run. */
  lemma {:induction false} RunKeeps(states: seq<System>, steps: seq<Step>, n: nat)
    requires IsRun(states, steps) && n < |states|
    ensures SystemInv(states[n])
  {
    if n != 0 {
      RunKeeps(states, steps, n - 1);
      assert Next(states[n - 1], steps[n - 1], states[n]);
      match steps[n - 1]
      case StartJob(request, outcome, out, err) => StartKeeps(states[n - 1], request, outcome, out, err, states[n]);
      case Act(id, a) => ActKeeps(states[n - 1], id, a, states[n]);
      case SendToSocket => SendKeepsSystem(states[n - 1], states[n]);
    }
  }

  lemma StepKeepsJob(s: System, step: Step, s': System, id: JobId)
    requires SystemInv(s) && Next(s, step, s') && id in s.jobs
    ensures id in s'.jobs && SameWork(s.jobs[id], s'.jobs[id])
  {
    if step.Act? && step.id == id {
      PerformKeepsWork(ViewOf(s, id), step.action);
    }
  }

  lemma RunStepKeepsJob(states: seq<System>, steps: seq<Step>, n: nat, id: JobId)
    requires IsRun(states, steps) && n < |steps| && id in states[n].jobs
    ensures id in states[n + 1].jobs && SameWork(states[n].jobs[id], states[n + 1].jobs[id])
  {
    RunKeeps(states, steps, n);
    StepKeepsJob(states[n], steps[n], states[n + 1], id);
  }

  /** A job keeps its request, its child's output and its place for the rest of the run. */
  lemma {:induction false} JobKept(states: seq<System>, steps: seq<Step>, m: nat, n: nat, id: JobId)
    requires IsRun(states, steps) && m <= n < |states| && id in states[m].jobs
    ensures id in states[n].jobs && SameWork(states[m].jobs[id], states[n].jobs[id])
  {
    if m < n {
      JobKept(states, steps, m, n - 1, id);
      RunStepKeepsJob(states, steps, n - 1, id);
    }
  }
}
