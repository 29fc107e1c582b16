/** What every run of the whole system guarantees to the client and to the coordinator. */
module Fidelity {
  import opened Utf8
  import opened Utf8Reading
  import opened OutputCopy
  import opened Protocol
  import opened JobSteps
  import opened JobInvariant
  import opened SharedQueues
  import opened PlaygroundSystem

  /** What the client has received for one job. */
  function Seen(s: System, id: JobId): seq<Response> {
    Project(s.socket, id)
  }

  lemma {:induction false} SocketGrows(states: seq<System>, steps: seq<Step>, m: nat, n: nat, id: JobId)
    requires IsRun(states, steps) && m <= n < |states|
    ensures Seen(states[m], id) <= Seen(states[n], id)
  {
    if m < n {
      SocketGrows(states, steps, m, n - 1, id);
      assert Next(states[n - 1], steps[n - 1], states[n]);
      if steps[n - 1].SendToSocket? {
        ProjectAppend(states[n - 1].socket, [states[n - 1].outbox[0]], id);
      }
    }
  }

  lemma ShownIsPrefix(v: View, k: Kind)
    requires JobInv(v) && v.job.request.ExecuteCommand?
    ensures OutputText(v.responses, k) <= v.job.process.streams.At(k).child
    ensures |OutputText(v.responses, k)| <= OUTPUT_BYTE_LIMIT + DEFAULT_CAPACITY
  {
    assert Conserved(v, k) && StreamOk(v.job.process.streams.At(k));
  }

  lemma AllIsSeen<T>(seen: seq<T>, coming: seq<T>)
    requires |seen| == |seen + coming|
    ensures seen == seen + coming
  {
  }

  lemma EndCompletes(v: View, i: nat)
    requires JobInv(v) && v.job.request.ExecuteCommand?
    requires i < |v.responses| && v.responses[i].ExecuteEnd?
    ensures i == |v.responses| - 1 && v.job.execution.ws.Completed?
    ensures v.responses[0] == ExecuteBegin && forall j :: 1 <= j < i ==> v.responses[j] != ExecuteBegin
    ensures v.job.outcome == ExecuteDone(v.responses[i].success)
  {
  }

  lemma EndShowsAll(v: View, i: nat, k: Kind)
    requires JobInv(v) && v.job.request.ExecuteCommand?
    requires i < |v.responses| && v.responses[i].ExecuteEnd?
    ensures var child := v.job.process.streams.At(k).child;
            OutputText(v.responses, k) == child && WellFormed(child) && |child| <= OUTPUT_BYTE_LIMIT
  {
    assert Conserved(v, k);
    assert StreamOk(v.job.process.streams.At(k)) && v.job.process.streams.At(k).todo == [];
  }

  /** An end that has been sent is the last response, so that none is still to be sent. */
  lemma EndIsSent(s: System, id: JobId, i: nat)
    requires id in s.jobs && JobInv(ViewOf(s, id)) && s.jobs[id].request.ExecuteCommand?
    requires i < |Seen(s, id)| && Seen(s, id)[i].ExecuteEnd?
    ensures ViewOf(s, id).responses == Seen(s, id)
  {
    EndCompletes(ViewOf(s, id), i);
    AllIsSeen(Seen(s, id), Project(s.outbox, id));
  }

  /**
    Whatever the interleaving, the output a client has seen of a job is a beginning of what
    that job's own child writes, and is bounded.
   */
  lemma OutputIsPrefix(states: seq<System>, steps: seq<Step>, m: nat, n: nat, id: JobId, k: Kind)
    requires IsRun(states, steps) && m <= n < |states|
    requires id in states[m].jobs && states[m].jobs[id].request.ExecuteCommand?
    ensures OutputText(Seen(states[n], id), k) <= states[m].jobs[id].process.streams.At(k).child
    ensures |OutputText(Seen(states[n], id), k)| <= OUTPUT_BYTE_LIMIT + DEFAULT_CAPACITY
  {
    RunKeeps(states, steps, n);
    JobKept(states, steps, m, n, id);
    ShownIsPrefix(ViewOf(states[n], id), k);
    OutputTextAppend(Seen(states[n], id), Project(states[n].outbox, id), k);
  }

  /**
    `ExecuteEnd` is the one last message, `ExecuteBegin` the first, and by then the client has
    all of both outputs, which were well-formed and within the limit. It says how the child exited.
   */
  lemma EndMeansComplete(states: seq<System>, steps: seq<Step>, m: nat, n: nat, id: JobId, i: nat)
    requires IsRun(states, steps) && m <= n < |states|
    requires id in states[m].jobs && states[m].jobs[id].request.ExecuteCommand?
    requires i < |Seen(states[n], id)| && Seen(states[n], id)[i].ExecuteEnd?
    ensures i == |Seen(states[n], id)| - 1
    ensures Seen(states[n], id)[0] == ExecuteBegin
    ensures forall j :: 1 <= j < i ==> Seen(states[n], id)[j] != ExecuteBegin
    ensures forall k ::
              && OutputText(Seen(states[n], id), k) == states[m].jobs[id].process.streams.At(k).child
              && WellFormed(states[m].jobs[id].process.streams.At(k).child)
              && |states[m].jobs[id].process.streams.At(k).child| <= OUTPUT_BYTE_LIMIT
    ensures states[m].jobs[id].outcome == ExecuteDone(Seen(states[n], id)[i].success)
  {
    RunKeeps(states, steps, n);
    JobKept(states, steps, m, n, id);
    EndIsSent(states[n], id, i);
    EndCompletes(ViewOf(states[n], id), i);
    forall k { EndShowsAll(ViewOf(states[n], id), i, k); }
  }

  /** An error is the last that is seen of a job, and there is no end then. */
  lemma ErrorMeansNoEnd(states: seq<System>, steps: seq<Step>, n: nat, id: JobId, i: nat, j: nat)
    requires IsRun(states, steps) && n < |states| && id in states[n].jobs
    requires i < |Seen(states[n], id)| && j < |Seen(states[n], id)| && Seen(states[n], id)[i].ResponseError?
    ensures i == |Seen(states[n], id)| - 1 && !Seen(states[n], id)[j].ExecuteEnd?
  {
    RunKeeps(states, steps, n);
    var v := ViewOf(states[n], id);
    assert v.responses[i] == Seen(states[n], id)[i] && v.responses[j] == Seen(states[n], id)[j];
    assert Shaped(v);
  }

  /** Once the client has seen the end of a job, it never sees another message of that job. */
  lemma NothingAfterEnd(states: seq<System>, steps: seq<Step>, m: nat, n: nat, id: JobId, i: nat)
    requires IsRun(states, steps) && m <= n < |states|
    requires id in states[m].jobs && states[m].jobs[id].request.ExecuteCommand?
    requires i < |Seen(states[m], id)| && Seen(states[m], id)[i].ExecuteEnd?
    ensures Seen(states[n], id) == Seen(states[m], id)
  {
    SocketGrows(states, steps, m, n, id);
    EndMeansComplete(states, steps, m, m, id, i);
    EndMeansComplete(states, steps, m, n, id, i);
  }

  /**
    No listener is ever registered twice, so `DuplicateDemultiplexerClient` cannot happen, and
    a message that found no listener was for a receiver that is gone.
   */
  lemma ListenersAreSound(states: seq<System>, steps: seq<Step>, n: nat, id: JobId)
    requires IsRun(states, steps) && n < |states| && id in states[n].jobs
    ensures !states[n].jobs[id].listener.duplicate
    ensures states[n].jobs[id].listener.unheard ==> !states[n].jobs[id].listener.inboxOpen
  {
    RunKeeps(states, steps, n);
    assert Routed(ViewOf(states[n], id));
  }

  lemma {:induction false} ProjectMember<T>(q: seq<Tagged<T>>, i: nat)
    requires i < |q|
    ensures Project(q, q[i].id) != []
  {
    if i != 0 {
      ProjectMember(q[1..], i - 1);
    }
  }

  /** Nothing is in flight for an id that has not been handed out. */
  lemma TracesAreOfJobs(states: seq<System>, steps: seq<Step>, n: nat, id: JobId)
    requires IsRun(states, steps) && n < |states|
    requires Project(states[n].messages, id) != [] || Project(states[n].requests, id) != []
    ensures id in states[n].jobs && JobInv(ViewOf(states[n], id))
  {
    RunKeeps(states, steps, n);
    IdsAreJobs(states, steps, n, id);
    assert states[n].nextId <= id ==> Unused(states[n], id);
  }

  /** Every request that is sent but not yet taken belongs to a job whose listener is registered already. */
  lemma RequestsHaveListeners(states: seq<System>, steps: seq<Step>, n: nat, i: nat)
    requires IsRun(states, steps) && n < |states| && i < |states[n].requests|
    ensures var id := states[n].requests[i].id;
            && id in states[n].jobs
            && states[n].jobs[id].listener.registered
            && Project(states[n].messages, id) == []
            && (states[n].jobs[id].listener.inboxOpen ==> id in states[n].waiting + states[n].waitingOnce)
  {
    var id := states[n].requests[i].id;
    ProjectMember(states[n].requests, i);
    TracesAreOfJobs(states, steps, n, id);
  }

  /**
    So every worker message in flight belongs to a job whose listener is registered and whose
    request has been taken; it finds no listener only when its receiver is gone.
   */
  lemma MessagesHaveListeners(states: seq<System>, steps: seq<Step>, n: nat, i: nat)
    requires IsRun(states, steps) && n < |states| && i < |states[n].messages|
    ensures var id := states[n].messages[i].id;
            && id in states[n].jobs
            && states[n].jobs[id].listener.registered
            && Project(states[n].requests, id) == []
            && (states[n].jobs[id].listener.inboxOpen ==> id in states[n].waiting + states[n].waitingOnce)
  {
    var id := states[n].messages[i].id;
    ProjectMember(states[n].messages, i);
    TracesAreOfJobs(states, steps, n, id);
  }

  lemma {:induction false} IdsAreJobs(states: seq<System>, steps: seq<Step>, n: nat, id: JobId)
    requires IsRun(states, steps) && n < |states|
    ensures id < states[n].nextId ==> id in states[n].jobs
  {
    if n != 0 {
      IdsAreJobs(states, steps, n - 1, id);
      assert Next(states[n - 1], steps[n - 1], states[n]);
    }
  }

  /** `one` only ever receives what its own request came to: the content its handler gave, or the error. */
  lemma OneGetsItsAnswer(states: seq<System>, steps: seq<Step>, m: nat, n: nat, id: JobId)
    requires IsRun(states, steps) && m <= n < |states| && id in states[m].jobs
    requires states[m].jobs[id].request.File?
    ensures id in states[n].jobs
    ensures states[n].jobs[id].listener.client.Received? ==>
              var job := states[n].jobs[id];
              && job.listener.client.answer == states[m].jobs[id].outcome
              && Narrow(states[m].jobs[id].request.op, job.listener.client.answer)
                 == match states[m].jobs[id].outcome
                    case FileDone(_, content) => Answer(content)
                    case _ => WorkerOperationFailed
  {
    RunKeeps(states, steps, n);
    JobKept(states, steps, m, n, id);
    assert FileServed(ViewOf(states[n], id)) && Truthful(states[n].jobs[id]);
  }
}
