/** What holds of one job after any number of steps, and why each step keeps it. */
module JobInvariant {
  import opened Sequences
  import opened Utf8
  import opened Utf8Reading
  import opened OutputCopy
  import opened Protocol
  import opened JobSteps
  import opened Wrappers

  /** The output of one kind among worker messages, and among responses. */
  function PacketText(ms: seq<WorkerMessage>, k: Kind): Bytes {
    if ms == [] then []
    else (if ms[0].Packet? && ms[0].kind == k then ms[0].text else []) + PacketText(ms[1..], k)
  }

  function OutputText(rs: seq<Response>, k: Kind): Bytes {
    if rs == [] then []
    else (if rs[0].ExecuteOutput? && rs[0].kind == k then rs[0].text else []) + OutputText(rs[1..], k)
  }

  lemma {:induction false} PacketTextAppend(a: seq<WorkerMessage>, b: seq<WorkerMessage>, k: Kind)
    ensures PacketText(a + b, k) == PacketText(a, k) + PacketText(b, k)
  {
    if a == [] {
      assert a + b == b;
    } else {
      assert (a + b)[1..] == a[1..] + b;
      PacketTextAppend(a[1..], b, k);
    }
  }

  lemma {:induction false} OutputTextAppend(a: seq<Response>, b: seq<Response>, k: Kind)
    ensures OutputText(a + b, k) == OutputText(a, k) + OutputText(b, k)
  {
    if a == [] {
      assert a + b == b;
    } else {
      assert (a + b)[1..] == a[1..] + b;
      OutputTextAppend(a[1..], b, k);
    }
  }

  /** Messages of the job that the worker has sent and nobody has consumed yet. */
  function Undelivered(v: View): seq<WorkerMessage> {
    v.job.listener.inbox + v.messages
  }

  /**
    Registration comes before the request and the request before any answer, so no listener
    is ever registered twice and a message finds none only once its receiver is gone.
   */
  ghost predicate Routed(v: View) {
    var job := v.job;
    && !job.listener.duplicate
    && (job.listener.unheard ==> !job.listener.inboxOpen)
    && (v.waiting ==> job.request.ExecuteCommand?)
    && (v.waitingOnce ==> job.request.File?)
    && (job.listener.client.Allocated? ==> !job.listener.registered && v.commands == [])
    && (job.listener.client.ListenQueued? ==> !job.listener.registered)
    && (job.listener.client.Listening? ==> job.listener.registered && job.process.phase.NotAsked? && v.requests == [])
    && (job.listener.client.Requested? || job.listener.client.Received? ==> job.listener.registered)
    && (v.commands != [] ==>
          && !job.listener.registered
          && v.commands == [if job.request.File? then ListenOnce else Listen])
    && (!job.listener.registered ==> !v.waiting && !v.waitingOnce && v.requests == [] && job.process.phase.NotAsked?)
    && (v.requests != [] ==> v.requests == [job.request] && job.process.phase.NotAsked?)
    && (job.process.phase.NotAsked? ==>
          && job.listener.inbox == [] && v.messages == []
          && job.process.answer == None && !job.process.sampling)
    && (job.listener.registered && job.listener.inboxOpen ==>
          if job.request.File? then v.waitingOnce || job.listener.inbox != [] else v.waiting)
    && (job.listener.client.Dropped? ==> !job.listener.inboxOpen)
    && (job.listener.client.Received? ==> !job.listener.inboxOpen)
  }

  /** A file request gets one answer, of its own kind or an error. */
  ghost predicate FileServed(v: View) {
    var job := v.job;
    job.request.File? ==>
      && job.execution.cargo.NotSpawned? && job.execution.ws.Beginning? && v.responses == []
      && !job.process.sampling
      && (job.process.answer.Some? <==> job.process.phase.Answered?)
      && (job.process.answer.None? ==> Undelivered(v) == [] && !job.listener.client.Received?)
      && (job.process.answer.Some? ==>
            && !Narrow(job.request.op, job.process.answer.value).UnexpectedResponseType?
            && (Undelivered(v) == [] || Undelivered(v) == [job.process.answer.value]))
      && (v.waitingOnce ==> job.listener.inbox == [] && !job.listener.client.Received?)
      && (v.messages != [] ==> job.listener.inbox == [] && !job.listener.client.Received?)
      && (job.listener.client.Received? ==>
            job.process.answer == Some(job.listener.client.answer) && Undelivered(v) == [])
  }

  /** Every copy task has sent a well-formed beginning of what its child writes. */
  ghost predicate StreamOk(s: Stream) {
    && OutputCopy.Copying(s.child, s.packets, s.todo)
    && |Flatten(s.packets)| <= OUTPUT_BYTE_LIMIT + DEFAULT_CAPACITY
    && (!s.status.Broken? ==> |Flatten(s.packets)| <= OUTPUT_BYTE_LIMIT)
    && (s.status.Finished? ==> s.todo == [])
  }

  /** The final answer of a process ends its messages and comes after all of its output. */
  ghost predicate AnswerLast(v: View) {
    var job := v.job;
    && (forall i :: 0 <= i < |Undelivered(v)| && Undelivered(v)[i].ExecuteDone? && job.request.ExecuteCommand? ==>
          i == |Undelivered(v)| - 1 && job.process.answer == Some(Undelivered(v)[i]))
    && (job.process.answer.Some? && job.process.answer.value.ExecuteDone? && job.request.ExecuteCommand? ==>
          && job.process.phase.Answered?
          && !job.process.sampling
          && job.process.streams.out.status.Finished?
          && job.process.streams.err.status.Finished?)
  }

  /** The stages of an execution agree with each other. */
  ghost predicate Staged(v: View) {
    var job := v.job;
    job.request.ExecuteCommand? ==>
      && !job.listener.client.Received?
      && (job.execution.cargo.NotSpawned? <==> !job.listener.client.Requested?)
      && (job.execution.cargo.NotSpawned? && !job.listener.client.Dropped? ==>
            job.listener.inboxOpen && job.execution.ws.Beginning?)
      && (job.listener.client.Dropped? ==>
            job.execution.ws.Failed? || job.execution.ws.Reported? || job.execution.ws.Abandoned?)
      && (job.execution.cargo.Forwarding? ==> job.listener.inboxOpen)
      && (job.execution.cargo.Returned? ==> !job.listener.inboxOpen && job.listener.inbox == [])
      && (job.execution.cargo.NotSpawned? ==>
            job.execution.pipes == Pipes([], []) && job.process.phase.NotAsked? && v.requests == [])
      && (job.execution.ws.Draining? || job.execution.ws.Completed? ==> job.execution.cargo.Returned?)
      && (job.execution.ws.Completed? ==> job.execution.cargo.success.Some?)
      && (job.execution.cargo.Returned? && job.execution.cargo.success.Some? ==>
            job.process.answer == Some(ExecuteDone(job.execution.cargo.success.value)))
      && (job.execution.ws == Draining(Stderr) ==> job.execution.pipes.out == [])
  }

  /** `ExecuteBegin` comes first and only once, `ExecuteEnd` last and only on completion. */
  ghost predicate Shaped(v: View) {
    var job := v.job;
    && (job.execution.ws.Beginning? ==> v.responses == [])
    && (job.execution.ws.Streaming? || job.execution.ws.Draining? || job.execution.ws.Completed? ==> v.responses != [])
    && (v.responses != [] ==> v.responses[0] == ExecuteBegin || v.responses == [ResponseError])
    && (forall i :: 0 <= i < |v.responses| && v.responses[i].ResponseError? ==>
          i == |v.responses| - 1 && job.execution.ws.Reported?)
    && (forall i :: 1 <= i < |v.responses| ==> v.responses[i] != ExecuteBegin)
    && (forall i :: 0 <= i < |v.responses| && v.responses[i].ExecuteEnd? ==>
          && i == |v.responses| - 1
          && job.execution.ws.Completed?
          && job.execution.cargo == Returned(Some(v.responses[i].success)))
  }

  /** Where the bytes of one kind are: sent by the copy task, shown to the client, in the pipe, or coming. */
  datatype Whereabouts = Whereabouts(sent: Bytes, shown: Bytes, piped: Bytes, coming: Bytes)

  function WhereIs(v: View, k: Kind): Whereabouts {
    Whereabouts(Flatten(v.job.process.streams.At(k).packets), OutputText(v.responses, k),
                Flatten(v.job.execution.pipes.At(k)), PacketText(Undelivered(v), k))
  }

  ghost predicate Accounted(w: Whereabouts, x: Execution, inboxOpen: bool) {
    && w.shown <= w.sent
    && (x.PipesOpen() ==> w.shown + w.piped <= w.sent)
    && (x.PipesOpen() && inboxOpen ==> w.sent == w.shown + w.piped + w.coming)
    && (x.PipesOpen() && x.cargo.Returned? && x.cargo.success.Some? ==> w.shown + w.piped == w.sent)
    && (x.ws.Completed? ==> w.shown == w.sent)
  }

  /** Nothing is lost, reordered or invented between the copy task and the client. */
  ghost predicate Conserved(v: View, k: Kind) {
    Accounted(WhereIs(v, k), v.job.execution, v.job.listener.inboxOpen)
  }

  /** Everything but the bytes. */
  ghost predicate Controlled(v: View) {
    && Routed(v)
    && FileServed(v)
    && StreamOk(v.job.process.streams.out)
    && StreamOk(v.job.process.streams.err)
    && AnswerLast(v)
    && Staged(v)
    && Shaped(v)
  }

  /** The worker answers with what the work came to; a process may fail instead. */
  predicate Truthful(job: Job) {
    job.process.answer.Some? ==>
      || job.process.answer.value == job.outcome
      || (job.request.ExecuteCommand? && job.process.answer.value.WorkerError?)
  }

  ghost predicate JobInv(v: View) {
    && Controlled(v)
    && Truthful(v.job)
    && (v.job.request.ExecuteCommand? ==> Conserved(v, Stdout) && Conserved(v, Stderr))
  }

  function Fresh(request: Request, outcome: WorkerMessage, out: Bytes, err: Bytes): View {
    View(NewJob(request, outcome, out, err), false, false, [], [], [], [])
  }

  lemma FreshJob(request: Request, outcome: WorkerMessage, out: Bytes, err: Bytes)
    ensures JobInv(Fresh(request, outcome, out, err))
  {
  }

  /** Queues to which a step adds nothing and takes nothing stay as they are. */
  lemma QuietQueues(v: View, e: Effect)
    ensures e.commands == [] && e.taken != Command ==> After(v, e).commands == v.commands
    ensures e.requests == [] && e.taken != FromCoordinator ==> After(v, e).requests == v.requests
    ensures e.messages == [] && e.taken != FromWorker ==> After(v, e).messages == v.messages
    ensures e.responses == [] ==> After(v, e).responses == v.responses
    ensures e.messages == [] && e.taken != FromWorker && e.job.listener.inbox == v.job.listener.inbox ==>
              Undelivered(After(v, e)) == Undelivered(v)
  {
  }

  /** A step that moves no bytes, and opens or completes nothing, loses none. */
  lemma StaysAccounted(w: Whereabouts, x: Execution, inboxOpen: bool, x': Execution, inboxOpen': bool)
    requires Accounted(w, x, inboxOpen)
    requires x'.PipesOpen() ==> x.PipesOpen()
    requires inboxOpen' ==> inboxOpen
    requires x'.cargo.Returned? ==> x'.cargo == x.cargo
    requires x'.ws.Completed? ==> x.ws.Completed?
    ensures Accounted(w, x', inboxOpen')
  {
  }

  lemma ClientControlled(v: View, a: Action)
    requires Controlled(v) && PerformClient(v, a).Some?
    ensures Controlled(After(v, PerformClient(v, a).value))
  {
    if a.ReceiveAnswer? {
      AnswerReceived(v);
    } else {
      QuietQueues(v, PerformClient(v, a).value);
    }
  }

  lemma AnswerReceived(v: View)
    requires Controlled(v) && PerformClient(v, ReceiveAnswer).Some?
    ensures Controlled(After(v, PerformClient(v, ReceiveAnswer).value))
  {
    var e := PerformClient(v, ReceiveAnswer).value;
    QuietQueues(v, e);
    assert v.job.listener.inbox[0] == Undelivered(v)[0];
    assert Undelivered(After(v, e)) == Undelivered(v)[1..];
  }

  lemma ClientConserved(v: View, a: Action, k: Kind)
    requires Conserved(v, k) && v.job.request.ExecuteCommand? && PerformClient(v, a).Some?
    ensures Conserved(After(v, PerformClient(v, a).value), k)
  {
    QuietQueues(v, PerformClient(v, a).value);
    var v' := After(v, PerformClient(v, a).value);
    assert WhereIs(v', k) == WhereIs(v, k);
    StaysAccounted(WhereIs(v, k), v.job.execution, v.job.listener.inboxOpen,
                   v'.job.execution, v'.job.listener.inboxOpen);
  }

  lemma ClientKeeps(v: View, a: Action)
    requires JobInv(v) && PerformClient(v, a).Some?
    ensures JobInv(After(v, PerformClient(v, a).value))
  {
    OthersAreTruthful(v, a);
    ClientControlled(v, a);
    if v.job.request.ExecuteCommand? {
      ClientConserved(v, a, Stdout);
      ClientConserved(v, a, Stderr);
    }
  }

  lemma DeliverMoves(v: View)
    requires PerformDemultiplexer(v, Deliver).Some?
    requires !v.job.listener.inboxOpen ==> v.job.listener.inbox == []
    requires v.job.listener.inboxOpen && v.job.listener.registered ==> v.waiting || v.waitingOnce
    requires v.job.listener.inboxOpen ==> v.job.listener.registered
    ensures var v' := After(v, PerformDemultiplexer(v, Deliver).value);
            && Undelivered(v') == (if v.job.listener.inboxOpen then Undelivered(v) else Undelivered(v)[1..])
            && v'.commands == v.commands && v'.requests == v.requests && v'.responses == v.responses
  {
  }

  /** A message that is still to be delivered has its receiver registered, or its receiver is gone. */
  lemma MessageIsExpected(v: View)
    requires Controlled(v) && v.messages != []
    ensures v.job.listener.registered
    ensures v.job.listener.inboxOpen ==> v.waiting || v.waitingOnce
    ensures !v.job.listener.inboxOpen ==> v.job.listener.inbox == []
  {
  }

  lemma DeliverControlled(v: View)
    requires Controlled(v) && PerformDemultiplexer(v, Deliver).Some?
    ensures Controlled(After(v, PerformDemultiplexer(v, Deliver).value))
  {
    MessageIsExpected(v);
    DeliverMoves(v);
  }

  lemma DeliverConserved(v: View, k: Kind)
    requires Controlled(v) && Conserved(v, k) && PerformDemultiplexer(v, Deliver).Some?
    ensures Conserved(After(v, PerformDemultiplexer(v, Deliver).value), k)
  {
    MessageIsExpected(v);
    DeliverMoves(v);
  }

  lemma ListenerControlled(v: View, a: Action)
    requires a.Register? || a.CollectGarbage?
    requires Controlled(v) && PerformDemultiplexer(v, a).Some?
    ensures Controlled(After(v, PerformDemultiplexer(v, a).value))
  {
    QuietQueues(v, PerformDemultiplexer(v, a).value);
  }

  lemma ListenerConserved(v: View, a: Action, k: Kind)
    requires a.Register? || a.CollectGarbage?
    requires Conserved(v, k) && PerformDemultiplexer(v, a).Some?
    ensures Conserved(After(v, PerformDemultiplexer(v, a).value), k)
  {
    QuietQueues(v, PerformDemultiplexer(v, a).value);
    assert WhereIs(After(v, PerformDemultiplexer(v, a).value), k) == WhereIs(v, k);
  }

  lemma TakeRequestPlaces(v: View, spawned: bool)
    requires Routed(v) && FileServed(v) && PerformWorker(v, TakeRequest(spawned)).Some?
    ensures var v' := After(v, PerformWorker(v, TakeRequest(spawned)).value); Routed(v') && FileServed(v')
  {
    QuietQueues(v, PerformWorker(v, TakeRequest(spawned)).value);
  }

  lemma TakeRequestStreams(v: View, spawned: bool)
    requires Controlled(v) && PerformWorker(v, TakeRequest(spawned)).Some?
    ensures var v' := After(v, PerformWorker(v, TakeRequest(spawned)).value);
            StreamOk(v'.job.process.streams.out) && StreamOk(v'.job.process.streams.err) && AnswerLast(v')
  {
    var e := PerformWorker(v, TakeRequest(spawned)).value;
    QuietQueues(v, e);
    assert Undelivered(v) == [] && Undelivered(After(v, e)) == e.messages;
  }

  lemma TakeRequestStages(v: View, spawned: bool)
    requires Routed(v) && Staged(v) && Shaped(v) && PerformWorker(v, TakeRequest(spawned)).Some?
    ensures var v' := After(v, PerformWorker(v, TakeRequest(spawned)).value); Staged(v') && Shaped(v')
  {
    QuietQueues(v, PerformWorker(v, TakeRequest(spawned)).value);
  }

  lemma TakeRequestControlled(v: View, spawned: bool)
    requires Controlled(v) && PerformWorker(v, TakeRequest(spawned)).Some?
    ensures Controlled(After(v, PerformWorker(v, TakeRequest(spawned)).value))
  {
    TakeRequestPlaces(v, spawned);
    TakeRequestStreams(v, spawned);
    TakeRequestStages(v, spawned);
  }

  lemma AnswerFileControlled(v: View)
    requires Controlled(v) && PerformWorker(v, AnswerFile).Some?
    ensures Controlled(After(v, PerformWorker(v, AnswerFile).value))
  {
  }

  lemma StopControlled(v: View, a: Action)
    requires a.StopCopy? || a.StopStatistics?
    requires Controlled(v) && PerformWorker(v, a).Some?
    ensures Controlled(After(v, PerformWorker(v, a).value))
  {
    QuietQueues(v, PerformWorker(v, a).value);
  }

  /** A message that the worker sends joins the end of what is undelivered. */
  lemma TrailingMessage(v: View, v': View, m: WorkerMessage, k: Kind)
    requires v'.job.listener.inbox == v.job.listener.inbox && v'.messages == v.messages + [m]
    ensures Undelivered(v') == Undelivered(v) + [m]
    ensures PacketText(Undelivered(v'), k)
         == PacketText(Undelivered(v), k) + (if m.Packet? && m.kind == k then m.text else [])
  {
    assert Undelivered(v') == Undelivered(v) + [m];
    PacketTextAppend(Undelivered(v), [m], k);
    assert PacketText([m], k) == (if m.Packet? && m.kind == k then m.text else []) + PacketText([], k);
  }

  /** Nothing follows a process's own final answer, so while something is sent there is none. */
  lemma NotYetDone(v: View)
    requires Controlled(v) && v.job.request.ExecuteCommand?
    requires v.job.process.answer.Some? ==> !v.job.process.answer.value.ExecuteDone?
    ensures forall i :: 0 <= i < |Undelivered(v)| ==> !Undelivered(v)[i].ExecuteDone?
  {
  }

  predicate SendsMessage(a: Action) {
    a.SendStatistics? || a.EndProcess? || a.FailProcess? || a.ForwardPacket?
  }

  lemma SendKeepsPlaces(v: View, a: Action)
    requires SendsMessage(a)
    requires Controlled(v) && PerformWorker(v, a).Some?
    ensures var v' := After(v, PerformWorker(v, a).value); Routed(v') && FileServed(v') && Staged(v') && Shaped(v')
  {
  }

  lemma SendKeepsStreams(v: View, a: Action)
    requires SendsMessage(a)
    requires Controlled(v) && PerformWorker(v, a).Some?
    ensures var p := After(v, PerformWorker(v, a).value).job.process;
            StreamOk(p.streams.out) && StreamOk(p.streams.err)
  {
    if a.ForwardPacket? {
      var stream := v.job.process.streams.At(a.kind);
      CopyContinues(stream.child, stream.packets, stream.todo, Chunk(a.text), stream.todo[|a.text|..]);
    }
  }

  lemma SendKeepsAnswerLast(v: View, a: Action)
    requires SendsMessage(a)
    requires Controlled(v) && PerformWorker(v, a).Some?
    ensures AnswerLast(After(v, PerformWorker(v, a).value))
  {
    var e := PerformWorker(v, a).value;
    TrailingMessage(v, After(v, e), e.messages[0], Stdout);
    NotYetDone(v);
  }

  lemma SendControlled(v: View, a: Action)
    requires SendsMessage(a)
    requires Controlled(v) && PerformWorker(v, a).Some?
    ensures Controlled(After(v, PerformWorker(v, a).value))
  {
    SendKeepsPlaces(v, a);
    SendKeepsStreams(v, a);
    SendKeepsAnswerLast(v, a);
  }

  lemma QuietWorkerSendsNothing(v: View, a: Action, k: Kind)
    requires !a.ForwardPacket? && PerformWorker(v, a).Some?
    ensures var e := PerformWorker(v, a).value;
            && e.job.process.streams.At(k).packets == v.job.process.streams.At(k).packets
            && e.job.execution == v.job.execution && e.job.listener == v.job.listener
            && (e.messages == [] || exists m: WorkerMessage :: e.messages == [m] && !m.Packet?)
            && e.responses == [] && e.taken != FromWorker
  {
  }

  lemma QuietWorkerMoves(v: View, a: Action, k: Kind)
    requires !a.ForwardPacket? && PerformWorker(v, a).Some?
    ensures var v' := After(v, PerformWorker(v, a).value);
            && WhereIs(v', k) == WhereIs(v, k)
            && v'.job.execution == v.job.execution
            && v'.job.listener == v.job.listener
  {
    var e := PerformWorker(v, a).value;
    QuietWorkerSendsNothing(v, a, k);
    QuietQueues(v, e);
    if e.messages != [] {
      var m: WorkerMessage :| e.messages == [m] && !m.Packet?;
      TrailingMessage(v, After(v, e), m, k);
    }
  }

  /** While a copy task is still sending, no success has been reported and nothing has completed. */
  lemma SendingIsEarly(v: View, k: Kind)
    requires Controlled(v) && v.job.request.ExecuteCommand?
    requires v.job.process.streams.At(k).status.Copying?
    ensures v.job.execution.cargo.Returned? ==> v.job.execution.cargo.success.None?
    ensures !v.job.execution.ws.Completed?
  {
  }

  lemma PacketAdds(v: View, a: Action, k: Kind)
    requires a.ForwardPacket? && PerformWorker(v, a).Some?
    ensures var v' := After(v, PerformWorker(v, a).value);
            var w, more := WhereIs(v, k), if a.kind == k then a.text else [];
            && WhereIs(v', k) == w.(sent := w.sent + more, coming := w.coming + more)
            && v'.job.execution == v.job.execution && v'.job.listener == v.job.listener
  {
    var e := PerformWorker(v, a).value;
    QuietQueues(v, e);
    TrailingMessage(v, After(v, e), e.messages[0], k);
    FlattenSnoc(v.job.process.streams.At(a.kind).packets, a.text);
  }

  lemma MoreIsComing(w: Whereabouts, x: Execution, inboxOpen: bool, more: Bytes)
    requires Accounted(w, x, inboxOpen)
    requires (x.cargo.Returned? ==> x.cargo.success.None?) && !x.ws.Completed?
    ensures Accounted(w.(sent := w.sent + more, coming := w.coming + more), x, inboxOpen)
  {
  }

  lemma PacketConserved(v: View, a: Action, k: Kind)
    requires a.ForwardPacket? && PerformWorker(v, a).Some?
    requires Conserved(v, k)
    requires v.job.execution.cargo.Returned? ==> v.job.execution.cargo.success.None?
    requires !v.job.execution.ws.Completed?
    ensures Conserved(After(v, PerformWorker(v, a).value), k)
  {
    PacketAdds(v, a, k);
    MoreIsComing(WhereIs(v, k), v.job.execution, v.job.listener.inboxOpen, if a.kind == k then a.text else []);
  }

  lemma WorkerConserved(v: View, a: Action, k: Kind)
    requires v.job.request.ExecuteCommand?
    requires Controlled(v) && Conserved(v, k) && PerformWorker(v, a).Some?
    ensures Conserved(After(v, PerformWorker(v, a).value), k)
  {
    if a.ForwardPacket? {
      SendingIsEarly(v, a.kind);
      PacketConserved(v, a, k);
    } else {
      QuietWorkerMoves(v, a, k);
    }
  }

  lemma CargoTakes(v: View, m: WorkerMessage)
    requires v.job.listener.inbox != [] && (m.Packet? || m.Statistics?) && CargoForwards(v, m).Some?
    ensures var v' := After(v, CargoForwards(v, m).value);
            && v'.responses == v.responses
            && Undelivered(v') == Undelivered(v)[1..]
  {
  }

  lemma ForwardsControlled(v: View, m: WorkerMessage)
    requires Controlled(v) && v.job.execution.cargo.Forwarding? && v.job.listener.inbox != []
    requires (m.Packet? || m.Statistics?) && CargoForwards(v, m).Some?
    ensures Controlled(After(v, CargoForwards(v, m).value))
  {
    CargoTakes(v, m);
    QuietQueues(v, CargoForwards(v, m).value);
  }

  lemma CargoLeaves(v: View, success: Option<bool>)
    ensures var v' := After(v, CargoReturns(v, success));
            && v' == v.(job := CargoReturns(v, success).job)
            && Undelivered(v') == Undelivered(v)[|v.job.listener.inbox|..]
  {
  }

  lemma ReturnsControlled(v: View, success: Option<bool>)
    requires Controlled(v) && v.job.execution.cargo.Forwarding? && v.job.request.ExecuteCommand?
    requires success.Some? ==> v.job.process.answer == Some(ExecuteDone(success.value))
    ensures Controlled(After(v, CargoReturns(v, success)))
  {
    CargoLeaves(v, success);
  }

  lemma CargoControlled(v: View, a: Action)
    requires Controlled(v) && PerformCargo(v, a).Some?
    ensures Controlled(After(v, PerformCargo(v, a).value))
  {
    if a.FailCargo? {
      ReturnsControlled(v, None);
    } else {
      var m := v.job.listener.inbox[0];
      assert m == Undelivered(v)[0];
      match m
      case Packet(_, _) => ForwardsControlled(v, m);
      case Statistics => ForwardsControlled(v, m);
      case ExecuteDone(success) => ReturnsControlled(v, Some(success));
      case _ => ReturnsControlled(v, None);
    }
  }

  /** Passing a piece of output from one stage to the next leaves the whole unchanged. */
  lemma PieceMoves(shown: Bytes, piped: Bytes, text: Bytes, coming: Bytes)
    ensures shown + piped + (text + coming) == shown + (piped + text) + coming
    ensures shown + (piped + text) <= shown + piped + (text + coming)
    ensures shown + (text + piped) == shown + text + piped
    ensures shown + text <= shown + (text + piped)
  {
  }

  /** The text of the head moves from what is coming to the pipe, if anyone still holds the pipe. */
  lemma ForwardMoves(v: View, m: WorkerMessage, k: Kind)
    requires v.job.listener.inbox != [] && m == v.job.listener.inbox[0]
    requires (m.Packet? || m.Statistics?) && CargoForwards(v, m).Some?
    ensures var v' := After(v, CargoForwards(v, m).value);
            var w, w', text := WhereIs(v, k), WhereIs(v', k), if m.Packet? && m.kind == k then m.text else [];
            && w' == w.(piped := w'.piped, coming := w'.coming)
            && w.coming == text + w'.coming
            && (v.job.execution.PipesOpen() ==> w'.piped == w.piped + text)
            && v'.job.execution.ws == v.job.execution.ws && v'.job.execution.cargo == v.job.execution.cargo
            && v'.job.listener.inboxOpen == v.job.listener.inboxOpen
  {
    CargoTakes(v, m);
    var ms := Undelivered(v);
    assert ms[0] == m;
    if m.Packet? && m.kind == k {
      FlattenSnoc(v.job.execution.pipes.At(k), m.text);
    } else {
      assert PacketText(ms, k) == [] + PacketText(ms[1..], k) == PacketText(ms[1..], k);
    }
  }

  lemma PipedAccounted(w: Whereabouts, w': Whereabouts, text: Bytes, x: Execution, x': Execution)
    requires Accounted(w, x, true) && x.cargo.Forwarding?
    requires w' == w.(piped := w'.piped, coming := w'.coming) && w.coming == text + w'.coming
    requires x.PipesOpen() ==> w'.piped == w.piped + text
    requires x'.ws == x.ws && x'.cargo == x.cargo
    ensures Accounted(w', x', true)
  {
  }

  lemma ForwardsConserved(v: View, m: WorkerMessage, k: Kind)
    requires Conserved(v, k) && v.job.listener.inboxOpen && v.job.execution.cargo.Forwarding?
    requires v.job.listener.inbox != [] && m == v.job.listener.inbox[0]
    requires (m.Packet? || m.Statistics?) && CargoForwards(v, m).Some?
    ensures Conserved(After(v, CargoForwards(v, m).value), k)
  {
    ForwardMoves(v, m, k);
    var v' := After(v, CargoForwards(v, m).value);
    PipedAccounted(WhereIs(v, k), WhereIs(v', k), if m.Packet? && m.kind == k then m.text else [],
                   v.job.execution, v'.job.execution);
  }

  /** The final answer is the only message left, so everything has been piped by then. */
  lemma ReturnsConserved(v: View, success: Option<bool>, k: Kind)
    requires Controlled(v) && Conserved(v, k) && v.job.execution.cargo.Forwarding? && v.job.request.ExecuteCommand?
    requires success.Some? ==> v.job.listener.inbox != [] && v.job.listener.inbox[0] == ExecuteDone(success.value)
    ensures Conserved(After(v, CargoReturns(v, success)), k)
  {
    CargoLeaves(v, success);
    if success.Some? {
      var ms := Undelivered(v);
      assert ms[0] == ExecuteDone(success.value) && |ms| == 1;
      assert PacketText(ms, k) == [] + PacketText(ms[1..], k);
    }
  }

  lemma CargoConserved(v: View, a: Action, k: Kind)
    requires Controlled(v) && Conserved(v, k) && PerformCargo(v, a).Some?
    requires v.job.request.ExecuteCommand?
    ensures Conserved(After(v, PerformCargo(v, a).value), k)
  {
    if a.FailCargo? {
      ReturnsConserved(v, None, k);
    } else {
      match v.job.listener.inbox[0]
      case Packet(_, _) => ForwardsConserved(v, v.job.listener.inbox[0], k);
      case Statistics => ForwardsConserved(v, v.job.listener.inbox[0], k);
      case ExecuteDone(success) => ReturnsConserved(v, Some(success), k);
      case _ => ReturnsConserved(v, None, k);
    }
  }

  predicate Speaks(a: Action) {
    a.Begin? || a.SendOutput? || a.SendStatus? || a.StderrDrained? || a.ReportError?
  }

  lemma WebsocketQuiet(v: View, a: Action)
    requires !Speaks(a)
    requires Controlled(v) && PerformWebsocket(v, a).Some?
    ensures Controlled(After(v, PerformWebsocket(v, a).value))
  {
    QuietQueues(v, PerformWebsocket(v, a).value);
  }

  lemma SpeakingKeepsPlaces(v: View, a: Action)
    requires Speaks(a) && v.job.request.ExecuteCommand?
    requires Controlled(v) && PerformWebsocket(v, a).Some?
    ensures var v' := After(v, PerformWebsocket(v, a).value);
            && Routed(v') && FileServed(v') && AnswerLast(v')
            && v'.job.process == v.job.process
  {
    QuietQueues(v, PerformWebsocket(v, a).value);
  }

  lemma SpeakingKeepsStages(v: View, a: Action)
    requires Speaks(a)
    requires Staged(v) && PerformWebsocket(v, a).Some?
    ensures Staged(After(v, PerformWebsocket(v, a).value))
  {
    QuietQueues(v, PerformWebsocket(v, a).value);
  }

  /** Between the first response and the last, output and status keep the shape. */
  lemma MiddleKeepsShape(v: View, w: View, r: Response)
    requires Shaped(v) && v.responses != [] && w.responses == v.responses + [r]
    requires r.ExecuteOutput? || r.ExecuteStatus?
    requires v.job.execution.ws.Streaming? || v.job.execution.ws.Draining?
    requires w.job.execution.ws == v.job.execution.ws
    ensures Shaped(w)
  {
  }

  lemma EndKeepsShape(v: View, w: View, success: bool)
    requires Shaped(v) && v.responses != [] && w.responses == v.responses + [ExecuteEnd(success)]
    requires v.job.execution.ws.Draining? && w.job.execution.ws.Completed?
    requires w.job.execution.cargo == Returned(Some(success))
    ensures Shaped(w)
  {
  }

  lemma SpeakingKeepsShape(v: View, a: Action)
    requires Speaks(a)
    requires Shaped(v) && Staged(v) && PerformWebsocket(v, a).Some?
    ensures Shaped(After(v, PerformWebsocket(v, a).value))
  {
    var e := PerformWebsocket(v, a).value;
    var w := After(v, e);
    if a.SendOutput? || a.SendStatus? {
      MiddleKeepsShape(v, w, e.responses[0]);
    } else if a.StderrDrained? && v.job.execution.cargo.success.Some? {
      EndKeepsShape(v, w, v.job.execution.cargo.success.value);
    }
  }

  lemma WebsocketSpeaks(v: View, a: Action)
    requires Speaks(a)
    requires Controlled(v) && PerformWebsocket(v, a).Some?
    ensures Controlled(After(v, PerformWebsocket(v, a).value))
  {
    SpeakingKeepsPlaces(v, a);
    SpeakingKeepsStages(v, a);
    SpeakingKeepsShape(v, a);
  }

  lemma SendOutputConserved(v: View, a: Action, k: Kind)
    requires a.SendOutput?
    requires Conserved(v, k) && PerformWebsocket(v, a).Some?
    ensures Conserved(After(v, PerformWebsocket(v, a).value), k)
  {
    var pipe := v.job.execution.pipes.At(a.kind);
    var shown := OutputText(v.responses, k);
    var v' := After(v, PerformWebsocket(v, a).value);
    QuietQueues(v, PerformWebsocket(v, a).value);
    OutputTextAppend(v.responses, [ExecuteOutput(a.kind, pipe[0])], k);
    if a.kind == k {
      assert OutputText(v'.responses, k) == shown + pipe[0];
      PieceMoves(shown, Flatten(pipe[1..]), pipe[0], []);
    } else {
      assert OutputText(v'.responses, k) == shown;
    }
  }

  lemma NothingShown(v: View, e: Effect, k: Kind)
    requires forall i :: 0 <= i < |e.responses| ==> !e.responses[i].ExecuteOutput?
    requires |e.responses| <= 1
    ensures OutputText(v.responses + e.responses, k) == OutputText(v.responses, k)
  {
    OutputTextAppend(v.responses, e.responses, k);
    if e.responses != [] {
      assert OutputText(e.responses, k) == [] + OutputText(e.responses[1..], k);
    }
  }

  lemma WebsocketMovesNothing(v: View, a: Action, k: Kind)
    requires !a.SendOutput? && PerformWebsocket(v, a).Some?
    ensures var v' := After(v, PerformWebsocket(v, a).value);
            && WhereIs(v', k) == WhereIs(v, k)
            && v'.job.execution.cargo == v.job.execution.cargo
            && v'.job.execution.pipes == v.job.execution.pipes
            && (v'.job.listener.inboxOpen ==> v.job.listener.inboxOpen)
  {
    var e := PerformWebsocket(v, a).value;
    NothingShown(v, e, k);
    QuietQueues(v, e);
  }

  lemma WebsocketConserved(v: View, a: Action, k: Kind)
    requires !a.SendOutput?
    requires Staged(v) && Conserved(v, k) && PerformWebsocket(v, a).Some?
    ensures Conserved(After(v, PerformWebsocket(v, a).value), k)
  {
    WebsocketMovesNothing(v, a, k);
    assert a.StderrDrained? ==> Flatten(v.job.execution.pipes.At(k)) == [];
  }

  lemma CargoKeeps(v: View, a: Action)
    requires JobInv(v) && PerformCargo(v, a).Some?
    ensures JobInv(After(v, PerformCargo(v, a).value))
  {
    CargoIsTruthful(v, a);
    CargoControlled(v, a);
    if v.job.request.ExecuteCommand? {
      CargoConserved(v, a, Stdout);
      CargoConserved(v, a, Stderr);
    }
  }

  lemma WebsocketKeeps(v: View, a: Action)
    requires JobInv(v) && PerformWebsocket(v, a).Some?
    ensures JobInv(After(v, PerformWebsocket(v, a).value))
  {
    WebsocketIsTruthful(v, a);
    if Speaks(a) {
      WebsocketSpeaks(v, a);
    } else {
      WebsocketQuiet(v, a);
    }
    if a.SendOutput? {
      SendOutputConserved(v, a, Stdout);
      SendOutputConserved(v, a, Stderr);
    } else {
      WebsocketConserved(v, a, Stdout);
      WebsocketConserved(v, a, Stderr);
    }
  }

  lemma DemultiplexerKeeps(v: View, a: Action)
    requires JobInv(v) && PerformDemultiplexer(v, a).Some?
    ensures JobInv(After(v, PerformDemultiplexer(v, a).value))
  {
    OthersAreTruthful(v, a);
    if a.Deliver? {
      DeliverControlled(v);
      if v.job.request.ExecuteCommand? {
        DeliverConserved(v, Stdout);
        DeliverConserved(v, Stderr);
      }
    } else {
      ListenerControlled(v, a);
      if v.job.request.ExecuteCommand? {
        ListenerConserved(v, a, Stdout);
        ListenerConserved(v, a, Stderr);
      }
    }
  }

  lemma WorkerControlled(v: View, a: Action)
    requires Controlled(v) && PerformWorker(v, a).Some?
    ensures Controlled(After(v, PerformWorker(v, a).value))
  {
    if SendsMessage(a) {
      SendControlled(v, a);
    } else if a.StopCopy? || a.StopStatistics? {
      StopControlled(v, a);
    } else if a.TakeRequest? {
      TakeRequestControlled(v, a.spawned);
    } else {
      AnswerFileControlled(v);
    }
  }

  lemma WorkerKeeps(v: View, a: Action)
    requires JobInv(v) && PerformWorker(v, a).Some?
    ensures JobInv(After(v, PerformWorker(v, a).value))
  {
    WorkerIsTruthful(v, a);
    WorkerControlled(v, a);
    if v.job.request.ExecuteCommand? {
      WorkerConserved(v, a, Stdout);
      WorkerConserved(v, a, Stderr);
    }
  }

  lemma WorkerIsTruthful(v: View, a: Action)
    requires Truthful(v.job) && PerformWorker(v, a).Some?
    requires v.requests != [] ==> v.requests[0] == v.job.request
    ensures Truthful(PerformWorker(v, a).value.job)
  {
  }

  lemma OthersAreTruthful(v: View, a: Action)
    requires Truthful(v.job)
    ensures PerformClient(v, a).Some? ==> Truthful(PerformClient(v, a).value.job)
    ensures PerformDemultiplexer(v, a).Some? ==> Truthful(PerformDemultiplexer(v, a).value.job)
  {
  }

  lemma CargoIsTruthful(v: View, a: Action)
    requires Truthful(v.job) && PerformCargo(v, a).Some?
    ensures Truthful(PerformCargo(v, a).value.job)
  {
  }

  lemma WebsocketIsTruthful(v: View, a: Action)
    requires Truthful(v.job) && PerformWebsocket(v, a).Some?
    ensures Truthful(PerformWebsocket(v, a).value.job)
  {
  }

  lemma WhoPerforms(v: View, a: Action)
    ensures Perform(v, a) in
              {PerformClient(v, a), PerformDemultiplexer(v, a), PerformWorker(v, a),
               PerformCargo(v, a), PerformWebsocket(v, a)}
  {
  }

  /** No step of any task breaks the invariant of the job it serves. */
  lemma PerformKeeps(v: View, a: Action)
    requires JobInv(v) && Perform(v, a).Some?
    ensures JobInv(After(v, Perform(v, a).value))
  {
    WhoPerforms(v, a);
    if Perform(v, a) == PerformClient(v, a) {
      ClientKeeps(v, a);
    } else if Perform(v, a) == PerformDemultiplexer(v, a) {
      DemultiplexerKeeps(v, a);
    } else if Perform(v, a) == PerformWorker(v, a) {
      WorkerKeeps(v, a);
    } else if Perform(v, a) == PerformCargo(v, a) {
      CargoKeeps(v, a);
    } else {
      WebsocketKeeps(v, a);
    }
  }

  /** Nobody is protected from failures: a caller may go away, a child, a task or a websocket fail, at any moment. */
  lemma FailuresArePossible(v: View)
    ensures v.job.request.File? && !v.job.listener.client.Received? ==>
              var e := Perform(v, DropClient); e.Some? && !e.value.job.listener.inboxOpen
    ensures v.job.request.ExecuteCommand? && v.job.process.phase.Working? ==>
              var e := Perform(v, FailProcess); e.Some? && e.value.messages == [WorkerError]
    ensures v.job.execution.cargo.Forwarding? ==>
              var e := Perform(v, FailCargo); e.Some? && e.value.job.execution.cargo == Returned(None)
    ensures v.job.request.ExecuteCommand? && v.job.execution.ws.Streaming? ==>
              var e := Perform(v, FailStdin); e.Some? && e.value.job.execution.ws.Failed?
    ensures v.job.request.ExecuteCommand? && v.job.execution.PipesOpen() ==>
              var e := Perform(v, Abandon); e.Some? && e.value.job.execution.ws.Abandoned?
    ensures !v.job.listener.inboxOpen ==>
              var e := Perform(v, CollectGarbage); e.Some? && !e.value.waiting && !e.value.waitingOnce
  {
  }

  ghost predicate SameWork(job: Job, job': Job) {
    && job'.request == job.request
    && job'.outcome == job.outcome
    && job'.process.streams.out.child == job.process.streams.out.child
    && job'.process.streams.err.child == job.process.streams.err.child
  }

  lemma CopyKeepsWork(v: View, a: Action)
    requires a.ForwardPacket? || a.StopCopy?
    requires PerformWorker(v, a).Some?
    ensures SameWork(v.job, PerformWorker(v, a).value.job)
  {
  }

  lemma WorkerKeepsWork(v: View, a: Action)
    requires PerformWorker(v, a).Some?
    ensures SameWork(v.job, PerformWorker(v, a).value.job)
  {
    if a.ForwardPacket? || a.StopCopy? {
      CopyKeepsWork(v, a);
    }
  }

  lemma OthersKeepWork(v: View, a: Action)
    ensures PerformClient(v, a).Some? ==> SameWork(v.job, PerformClient(v, a).value.job)
    ensures PerformDemultiplexer(v, a).Some? ==> SameWork(v.job, PerformDemultiplexer(v, a).value.job)
  {
  }

  lemma CargoKeepsWork(v: View, a: Action)
    requires PerformCargo(v, a).Some?
    ensures SameWork(v.job, PerformCargo(v, a).value.job)
  {
  }

  lemma WebsocketKeepsWork(v: View, a: Action)
    requires PerformWebsocket(v, a).Some?
    ensures SameWork(v.job, PerformWebsocket(v, a).value.job)
  {
  }

  /** What a job asks for, what that comes to, and what its child writes never change. */
  lemma PerformKeepsWork(v: View, a: Action)
    requires Perform(v, a).Some?
    ensures SameWork(v.job, Perform(v, a).value.job)
  {
    WhoPerforms(v, a);
    OthersKeepWork(v, a);
    if Perform(v, a) == PerformWorker(v, a) {
      WorkerKeepsWork(v, a);
    } else if Perform(v, a) == PerformCargo(v, a) {
      CargoKeepsWork(v, a);
    } else if Perform(v, a) == PerformWebsocket(v, a) {
      WebsocketKeepsWork(v, a);
    }
  }
}
