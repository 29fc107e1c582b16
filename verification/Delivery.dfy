/** Which outputs can be delivered: the guarantees of `Fidelity` are not empty, and are exact. */
module Delivery {
  import opened Fidelity
  import opened JobInvariant
  import opened JobSteps
  import opened OutputCopy
  import opened PlaygroundSystem
  import opened Protocol
  import opened Reachability
  import opened Sequences
  import opened SharedQueues
  import opened Utf8
  import opened Utf8Reading
  import opened Wrappers

  /** `v` can turn into `w` by one step of one of the job's tasks, within the channels' capacities. */
  ghost predicate Turns(v: View, a: Action, w: View) {
    && Perform(v, a).Some? && w == After(v, Perform(v, a).value)
    && |Perform(v, a).value.responses| <= 1 && |w.commands| <= CHANNEL_CAPACITY
  }

  ghost function Turning(): (View, View) -> bool {
    (v, w) => exists a :: Turns(v, a, w)
  }

  ghost predicate Leads(v: View, w: View) {
    Reaches(Turning(), v, w)
  }

  lemma Turn(v: View, a: Action, w: View)
    requires Turns(v, a, w)
    ensures Leads(v, w)
  {
    ReachesNext(Turning(), v, w);
  }

  lemma LeadsOn(u: View, v: View, w: View)
    requires Leads(u, v) && Leads(v, w)
    ensures Leads(u, w)
  {
    ReachesOn(Turning(), u, v, w);
  }

  /** One more turn. */
  lemma ThenTurn(u: View, v: View, a: Action, w: View)
    requires Leads(u, v) && Turns(v, a, w)
    ensures Leads(u, w)
  {
    Turn(v, a, w);
    LeadsOn(u, v, w);
  }

  // ------------------------------------------------------------- the stages of one job

  ghost function Stage(exit: bool, l: Listener, p: Process, x: Execution, messages: seq<WorkerMessage>,
                       shown: seq<Response>): View
  {
    View(Job(ExecuteCommand, ExecuteDone(exit), l, p, x), l.registered, false, [], [], messages, shown)
  }

  ghost function Heard(inbox: seq<WorkerMessage>, open: bool): Listener {
    Listener(Requested, true, false, false, inbox, open)
  }

  const FLOWING := Execution(Forwarding, Pipes([], []), 0, Streaming)

  /** Everything sent so far has been shown. */
  ghost function Calm(exit: bool, streams: Streams, shown: seq<Response>): View {
    Stage(exit, Heard([], true), Process(Working, None, true, streams), FLOWING, [], shown)
  }

  ghost function Unsent(out: Bytes, err: Bytes): Streams {
    Streams(Stream(out, [], out, Copying), Stream(err, [], err, Copying))
  }

  lemma RequestIsQueued(exit: bool, out: Bytes, err: Bytes)
    ensures Leads(Fresh(ExecuteCommand, ExecuteDone(exit), out, err), Queued(exit, out, err))
  {
    var v := Fresh(ExecuteCommand, ExecuteDone(exit), out, err);
    var p, x := v.job.process, v.job.execution;
    var v1 := v.(job := v.job.(listener := v.job.listener.(client := ListenQueued)), commands := [Listen]);
    var v2 := Stage(exit, Heard([], true).(client := Listening), p, x, [], []);
    Turn(v, SendListen, v1);
    ThenTurn(v, v1, Register, v2);
    ThenTurn(v, v2, SendRequest, Queued(exit, out, err));
  }

  ghost function Queued(exit: bool, out: Bytes, err: Bytes): View {
    var p := Process(NotAsked, None, false, Unsent(out, err));
    Stage(exit, Heard([], true), p, Execution(Forwarding, Pipes([], []), 0, Beginning), [], []).(
      requests := [ExecuteCommand])
  }

  lemma RequestArrives(exit: bool, out: Bytes, err: Bytes)
    ensures Leads(Fresh(ExecuteCommand, ExecuteDone(exit), out, err), Calm(exit, Unsent(out, err), [ExecuteBegin]))
  {
    var v, v1 := Fresh(ExecuteCommand, ExecuteDone(exit), out, err), Queued(exit, out, err);
    var p := Process(Working, None, true, Unsent(out, err));
    var v2 := Stage(exit, Heard([], true), p, v1.job.execution, [], []);
    RequestIsQueued(exit, out, err);
    ThenTurn(v, v1, TakeRequest(true), v2);
    ThenTurn(v, v2, Begin, Calm(exit, Unsent(out, err), [ExecuteBegin]));
  }

  /** A stream that has sent `text` more. */
  function Further(s: Stream, text: Bytes): Stream
    requires text <= s.todo
  {
    Stream(s.child, s.packets + [text], s.todo[|text|..], Copying)
  }

  ghost predicate CanSend(s: Stream, text: Bytes) {
    && s.status.Copying? && text <= s.todo
    && Reads(s.todo, Chunk(text), s.todo[|text|..])
    && |Flatten(s.packets + [text])| <= OUTPUT_BYTE_LIMIT
  }

  lemma PacketIsSent(exit: bool, streams: Streams, shown: seq<Response>, k: Kind, text: Bytes)
    requires CanSend(streams.At(k), text)
    ensures var p := Process(Working, None, true, streams.Put(k, Further(streams.At(k), text)));
            Leads(Calm(exit, streams, shown),
                    Stage(exit, Heard([], true), p, FLOWING, [Packet(k, text)], shown))
  {
    var p := Process(Working, None, true, streams.Put(k, Further(streams.At(k), text)));
    Turn(Calm(exit, streams, shown), ForwardPacket(k, text),
         Stage(exit, Heard([], true), p, FLOWING, [Packet(k, text)], shown));
  }

  lemma MessageIsHeard(exit: bool, p: Process, m: WorkerMessage, shown: seq<Response>)
    ensures Leads(Stage(exit, Heard([], true), p, FLOWING, [m], shown),
                  Stage(exit, Heard([m], true), p, FLOWING, [], shown))
  {
    Turn(Stage(exit, Heard([], true), p, FLOWING, [m], shown), Deliver,
         Stage(exit, Heard([m], true), p, FLOWING, [], shown));
  }

  ghost function Piped(exit: bool, p: Process, k: Kind, text: Bytes, shown: seq<Response>): View {
    Stage(exit, Heard([], true), p, FLOWING.(pipes := Pipes([], []).Put(k, [text])), [], shown)
  }

  lemma PacketIsPiped(exit: bool, p: Process, k: Kind, text: Bytes, shown: seq<Response>)
    ensures Leads(Stage(exit, Heard([Packet(k, text)], true), p, FLOWING, [], shown), Piped(exit, p, k, text, shown))
  {
    Turn(Stage(exit, Heard([Packet(k, text)], true), p, FLOWING, [], shown), TakeMessage,
         Piped(exit, p, k, text, shown));
  }

  lemma PipeIsShown(exit: bool, p: Process, k: Kind, text: Bytes, shown: seq<Response>)
    ensures Leads(Piped(exit, p, k, text, shown),
                  Stage(exit, Heard([], true), p, FLOWING, [], shown + [ExecuteOutput(k, text)]))
  {
    Turn(Piped(exit, p, k, text, shown), SendOutput(k),
         Stage(exit, Heard([], true), p, FLOWING, [], shown + [ExecuteOutput(k, text)]));
  }

  lemma PacketIsShown(exit: bool, p: Process, shown: seq<Response>, k: Kind, text: Bytes)
    ensures Leads(Stage(exit, Heard([], true), p, FLOWING, [Packet(k, text)], shown),
                  Stage(exit, Heard([], true), p, FLOWING, [], shown + [ExecuteOutput(k, text)]))
  {
    var v := Stage(exit, Heard([], true), p, FLOWING, [Packet(k, text)], shown);
    MessageIsHeard(exit, p, Packet(k, text), shown);
    PacketIsPiped(exit, p, k, text, shown);
    PipeIsShown(exit, p, k, text, shown);
    LeadsOn(v, Stage(exit, Heard([Packet(k, text)], true), p, FLOWING, [], shown), Piped(exit, p, k, text, shown));
    LeadsOn(v, Piped(exit, p, k, text, shown),
            Stage(exit, Heard([], true), p, FLOWING, [], shown + [ExecuteOutput(k, text)]));
  }

  lemma PacketArrives(exit: bool, streams: Streams, shown: seq<Response>, k: Kind, text: Bytes)
    requires CanSend(streams.At(k), text)
    ensures Leads(Calm(exit, streams, shown),
                    Calm(exit, streams.Put(k, Further(streams.At(k), text)), shown + [ExecuteOutput(k, text)]))
  {
    var p := Process(Working, None, true, streams.Put(k, Further(streams.At(k), text)));
    PacketIsSent(exit, streams, shown, k, text);
    PacketIsShown(exit, p, shown, k, text);
    LeadsOn(Calm(exit, streams, shown), Stage(exit, Heard([], true), p, FLOWING, [Packet(k, text)], shown),
              Calm(exit, p.streams, shown + [ExecuteOutput(k, text)]));
  }

  /** A stream of which everything is well-formed, within the limit, and sent or still to be sent. */
  ghost predicate Sendable(s: Stream) {
    && s.status.Copying?
    && s.child == Flatten(s.packets) + s.todo
    && WellFormed(s.todo)
    && |s.child| <= OUTPUT_BYTE_LIMIT
  }

  /** One character at a time is a way to send it. */
  lemma CharacterCanBeSent(s: Stream) returns (text: Bytes)
    requires Sendable(s) && s.todo != []
    ensures CanSend(s, text) && Sendable(Further(s, text)) && text != []
  {
    var rest: Bytes;
    text, rest := FirstCharacter(s.todo);
    FlattenSnoc(s.packets, text);
    assert s.child == Flatten(s.packets) + text + rest;
  }

  lemma FirstCharacter(t: Bytes) returns (c: Bytes, rest: Bytes)
    requires WellFormed(t) && t != []
    ensures t == c + rest && t[|c|..] == rest && 1 <= |c| <= 4 && WellFormed(c) && WellFormed(rest)
  {
    var cs: seq<Bytes> :| Characters(cs) && Flatten(cs) == t;
    c, rest := cs[0], Flatten(cs[1..]);
    assert Characters([c]) && Flatten([c]) == c + Flatten([]) == c;
    assert Characters(cs[1..]);
  }

  lemma {:induction false} StreamArrives(exit: bool, streams: Streams, shown: seq<Response>, k: Kind)
      returns (done: Streams, more: seq<Response>)
    requires Sendable(streams.At(k))
    ensures Leads(Calm(exit, streams, shown), Calm(exit, done, more))
    ensures Sendable(done.At(k)) && done.At(k).todo == [] && done.At(k).child == streams.At(k).child
    ensures done == streams.Put(k, done.At(k))
    decreases |streams.At(k).todo|
  {
    var s := streams.At(k);
    if s.todo == [] {
      done, more := streams, shown;
      ReachesItself(Turning(), Calm(exit, streams, shown));
    } else {
      var text := CharacterCanBeSent(s);
      var next := streams.Put(k, Further(s, text));
      PacketArrives(exit, streams, shown, k, text);
      done, more := StreamArrives(exit, next, shown + [ExecuteOutput(k, text)], k);
      LeadsOn(Calm(exit, streams, shown), Calm(exit, next, shown + [ExecuteOutput(k, text)]), Calm(exit, done, more));
    }
  }

  ghost predicate Sent(streams: Streams) {
    && streams.out.status.Copying? && streams.out.todo == []
    && streams.err.status.Copying? && streams.err.todo == []
  }

  lemma ProcessEnds(exit: bool, streams: Streams, shown: seq<Response>) returns (p: Process)
    requires Sent(streams)
    ensures p.phase.Answered?
    ensures Leads(Calm(exit, streams, shown),
                    Stage(exit, Heard([], true), p, FLOWING, [ExecuteDone(exit)],
                          shown))
  {
    var l := Heard([], true);
    var s1 := streams.(out := streams.out.(status := Finished));
    var s2 := s1.(err := streams.err.(status := Finished));
    p := Process(Answered, Some(ExecuteDone(exit)), false, s2);
    var v, v1, v2 := Calm(exit, streams, shown), Calm(exit, s1, shown), Calm(exit, s2, shown);
    var v3 := Stage(exit, l, Process(Working, None, false, s2), FLOWING, [], shown);
    var v4 := Stage(exit, l, p, FLOWING, [ExecuteDone(exit)], shown);
    Turn(v, StopCopy(Stdout, End), v1);
    ThenTurn(v, v1, StopCopy(Stderr, End), v2);
    ThenTurn(v, v2, StopStatistics, v3);
    ThenTurn(v, v3, EndProcess, v4);
  }

  ghost function Back(exit: bool, ws: Ws): Execution {
    Execution(Returned(Some(exit)), Pipes([], []), 0, ws)
  }

  lemma AnswerReturns(exit: bool, p: Process, shown: seq<Response>)
    ensures Leads(Stage(exit, Heard([ExecuteDone(exit)], true), p, FLOWING, [], shown),
                  Stage(exit, Heard([], false), p, Back(exit, Streaming), [], shown))
  {
    Turn(Stage(exit, Heard([ExecuteDone(exit)], true), p, FLOWING, [], shown), TakeMessage,
         Stage(exit, Heard([], false), p, Back(exit, Streaming), [], shown));
  }

  lemma DrainingBegins(exit: bool, p: Process, shown: seq<Response>)
    ensures Leads(Stage(exit, Heard([], false), p, Back(exit, Streaming), [], shown),
                  Stage(exit, Heard([], false), p, Back(exit, Draining(Stdout)), [], shown))
  {
    Turn(Stage(exit, Heard([], false), p, Back(exit, Streaming), [], shown), CargoDone,
         Stage(exit, Heard([], false), p, Back(exit, Draining(Stdout)), [], shown));
  }

  lemma StdoutIsDrained(exit: bool, p: Process, shown: seq<Response>)
    ensures Leads(Stage(exit, Heard([], false), p, Back(exit, Streaming), [], shown),
                  Stage(exit, Heard([], false), p, Back(exit, Draining(Stderr)), [], shown))
  {
    var v := Stage(exit, Heard([], false), p, Back(exit, Draining(Stdout)), [], shown);
    var w := Stage(exit, Heard([], false), p, Back(exit, Draining(Stderr)), [], shown);
    DrainingBegins(exit, p, shown);
    Turn(v, StdoutDrained, w);
    LeadsOn(Stage(exit, Heard([], false), p, Back(exit, Streaming), [], shown), v, w);
  }

  lemma StderrIsDrained(exit: bool, p: Process, shown: seq<Response>)
    ensures Leads(Stage(exit, Heard([], false), p, Back(exit, Draining(Stderr)), [], shown),
                  Stage(exit, Heard([], false), p, Back(exit, Completed), [], shown + [ExecuteEnd(exit)]))
  {
    Turn(Stage(exit, Heard([], false), p, Back(exit, Draining(Stderr)), [], shown), StderrDrained,
         Stage(exit, Heard([], false), p, Back(exit, Completed), [], shown + [ExecuteEnd(exit)]));
  }

  lemma EndIsShown(exit: bool, p: Process, shown: seq<Response>) returns (w: View)
    ensures Leads(Stage(exit, Heard([], true), p, FLOWING, [ExecuteDone(exit)], shown), w)
    ensures w.responses == shown + [ExecuteEnd(exit)]
  {
    var v := Stage(exit, Heard([], true), p, FLOWING, [ExecuteDone(exit)], shown);
    var back := Stage(exit, Heard([], false), p, Back(exit, Streaming), [], shown);
    w := Stage(exit, Heard([], false), p, Back(exit, Completed), [], shown + [ExecuteEnd(exit)]);
    MessageIsHeard(exit, p, ExecuteDone(exit), shown);
    AnswerReturns(exit, p, shown);
    LeadsOn(v, Stage(exit, Heard([ExecuteDone(exit)], true), p, FLOWING, [], shown), back);
    StdoutIsDrained(exit, p, shown);
    var drained := Stage(exit, Heard([], false), p, Back(exit, Draining(Stderr)), [], shown);
    LeadsOn(v, back, drained);
    StderrIsDrained(exit, p, shown);
    LeadsOn(v, drained, w);
  }

  ghost predicate Acceptable(output: Bytes) {
    WellFormed(output) && |output| <= 640 * 1024
  }

  /** One job's tasks can take any acceptable outputs from the child to the end. */
  lemma OutputsCanArrive(exit: bool, out: Bytes, err: Bytes) returns (w: View)
    requires Acceptable(out) && Acceptable(err)
    ensures Leads(Fresh(ExecuteCommand, ExecuteDone(exit), out, err), w)
    ensures w.responses != [] && w.responses[|w.responses| - 1] == ExecuteEnd(exit)
  {
    var start := Fresh(ExecuteCommand, ExecuteDone(exit), out, err);
    var s0, shown0 := Unsent(out, err), [ExecuteBegin];
    RequestArrives(exit, out, err);
    var s1, shown1 := StreamArrives(exit, s0, shown0, Stdout);
    var s2, shown2 := StreamArrives(exit, s1, shown1, Stderr);
    var p := ProcessEnds(exit, s2, shown2);
    w := EndIsShown(exit, p, shown2);
    var v := Stage(exit, Heard([], true), p, FLOWING, [ExecuteDone(exit)], shown2);
    LeadsOn(start, Calm(exit, s0, shown0), Calm(exit, s1, shown1));
    LeadsOn(start, Calm(exit, s1, shown1), Calm(exit, s2, shown2));
    LeadsOn(start, Calm(exit, s2, shown2), v);
    LeadsOn(start, v, w);
  }

  // ------------------------------------------------------------- samples and failures

  lemma SampleIsHeard(exit: bool, streams: Streams, shown: seq<Response>) returns (v: View)
    ensures v == Stage(exit, Heard([Statistics], true), Process(Working, None, true, streams), FLOWING, [], shown)
    ensures Leads(Calm(exit, streams, shown), v)
  {
    var p := Process(Working, None, true, streams);
    var sent := Stage(exit, Heard([], true), p, FLOWING, [Statistics], shown);
    v := Stage(exit, Heard([Statistics], true), p, FLOWING, [], shown);
    Turn(Calm(exit, streams, shown), SendStatistics, sent);
    MessageIsHeard(exit, p, Statistics, shown);
    LeadsOn(Calm(exit, streams, shown), sent, v);
  }

  lemma SampleIsShown(exit: bool, streams: Streams, shown: seq<Response>)
    ensures Leads(Calm(exit, streams, shown), Calm(exit, streams, shown + [ExecuteStatus]))
  {
    var v := SampleIsHeard(exit, streams, shown);
    SampleIsPiped(exit, streams, shown);
    SampleIsSent(exit, streams, shown);
    LeadsOn(Calm(exit, streams, shown), v, Sampled(exit, streams, shown));
    LeadsOn(Calm(exit, streams, shown), Sampled(exit, streams, shown), Calm(exit, streams, shown + [ExecuteStatus]));
  }

  ghost function Sampled(exit: bool, streams: Streams, shown: seq<Response>): View {
    Stage(exit, Heard([], true), Process(Working, None, true, streams), FLOWING.(nStatus := 1), [], shown)
  }

  lemma SampleIsPiped(exit: bool, streams: Streams, shown: seq<Response>)
    ensures Leads(Stage(exit, Heard([Statistics], true), Process(Working, None, true, streams), FLOWING, [], shown),
                  Sampled(exit, streams, shown))
  {
    Turn(Stage(exit, Heard([Statistics], true), Process(Working, None, true, streams), FLOWING, [], shown), TakeMessage,
         Sampled(exit, streams, shown));
  }

  lemma SampleIsSent(exit: bool, streams: Streams, shown: seq<Response>)
    ensures Leads(Sampled(exit, streams, shown), Calm(exit, streams, shown + [ExecuteStatus]))
  {
    Turn(Sampled(exit, streams, shown), SendStatus, Calm(exit, streams, shown + [ExecuteStatus]));
  }

  ghost function Failing(exit: bool, p: Process, ws: Ws, shown: seq<Response>): View {
    Stage(exit, Heard([], false), p, Execution(Returned(None), Pipes([], []), 0, ws), [], shown)
  }

  lemma FailureIsHeard(exit: bool, streams: Streams, shown: seq<Response>) returns (p: Process)
    ensures Leads(Calm(exit, streams, shown), Failing(exit, p, Streaming, shown))
  {
    p := Process(Answered, Some(WorkerError), true, streams);
    var sent := Stage(exit, Heard([], true), p, FLOWING, [WorkerError], shown);
    var heard := Stage(exit, Heard([WorkerError], true), p, FLOWING, [], shown);
    Turn(Calm(exit, streams, shown), FailProcess, sent);
    MessageIsHeard(exit, p, WorkerError, shown);
    LeadsOn(Calm(exit, streams, shown), sent, heard);
    ThenTurn(Calm(exit, streams, shown), heard, TakeMessage, Failing(exit, p, Streaming, shown));
  }

  lemma FailureIsReturned(exit: bool, p: Process, shown: seq<Response>)
    ensures Leads(Failing(exit, p, Streaming, shown), Failing(exit, p, Draining(Stdout), shown))
  {
    Turn(Failing(exit, p, Streaming, shown), CargoDone, Failing(exit, p, Draining(Stdout), shown));
  }

  lemma FailedStdoutIsDrained(exit: bool, p: Process, shown: seq<Response>)
    ensures Leads(Failing(exit, p, Draining(Stdout), shown), Failing(exit, p, Draining(Stderr), shown))
  {
    Turn(Failing(exit, p, Draining(Stdout), shown), StdoutDrained, Failing(exit, p, Draining(Stderr), shown));
  }

  lemma FailedStderrIsDrained(exit: bool, p: Process, shown: seq<Response>)
    ensures Leads(Failing(exit, p, Draining(Stderr), shown), Failing(exit, p, Failed, shown))
  {
    Turn(Failing(exit, p, Draining(Stderr), shown), StderrDrained, Failing(exit, p, Failed, shown));
  }

  lemma FailureIsReported(exit: bool, p: Process, shown: seq<Response>)
    ensures Leads(Failing(exit, p, Failed, shown), Failing(exit, p, Reported, shown + [ResponseError]))
  {
    Turn(Failing(exit, p, Failed, shown), ReportError, Failing(exit, p, Reported, shown + [ResponseError]));
  }

  lemma FailureIsShown(exit: bool, p: Process, shown: seq<Response>)
    ensures Leads(Failing(exit, p, Streaming, shown), Failing(exit, p, Reported, shown + [ResponseError]))
  {
    FailureIsReturned(exit, p, shown);
    FailedStdoutIsDrained(exit, p, shown);
    FailedStderrIsDrained(exit, p, shown);
    FailureIsReported(exit, p, shown);
    var v := Failing(exit, p, Streaming, shown);
    LeadsOn(v, Failing(exit, p, Draining(Stdout), shown), Failing(exit, p, Draining(Stderr), shown));
    LeadsOn(v, Failing(exit, p, Draining(Stderr), shown), Failing(exit, p, Failed, shown));
    LeadsOn(v, Failing(exit, p, Failed, shown), Failing(exit, p, Reported, shown + [ResponseError]));
  }

  // ------------------------------------------------------------- the answer to a file request

  ghost function Asked(request: Request, outcome: WorkerMessage, client: Client, phase: Worker,
                       answer: Option<WorkerMessage>, inbox: seq<WorkerMessage>): View
  {
    var job := NewJob(request, outcome, [], []);
    var l := Listener(client, true, false, false, inbox, !client.Received?);
    View(job.(listener := l, process := job.process.(phase := phase, answer := answer)),
         false, inbox == [] && !client.Received?, [], [], [], [])
  }

  lemma FileIsAsked(request: Request, outcome: WorkerMessage)
    requires request.File?
    ensures Leads(Fresh(request, outcome, [], []), Asked(request, outcome, Requested, Working, None, []))
  {
    var v := Fresh(request, outcome, [], []);
    var l := v.job.listener;
    var v1 := v.(job := v.job.(listener := l.(client := ListenQueued)), commands := [ListenOnce]);
    var v2 := Asked(request, outcome, Listening, NotAsked, None, []);
    var v3 := Asked(request, outcome, Requested, NotAsked, None, []).(requests := [request]);
    Turn(v, SendListen, v1);
    ThenTurn(v, v1, Register, v2);
    ThenTurn(v, v2, SendRequest, v3);
    ThenTurn(v, v3, TakeRequest(true), Asked(request, outcome, Requested, Working, None, []));
  }

  lemma FileIsAnswered(request: Request, outcome: WorkerMessage)
    requires request.File? && Fits(request, outcome)
    ensures Leads(Asked(request, outcome, Requested, Working, None, []),
                  Asked(request, outcome, Received(outcome), Answered, Some(outcome), []))
  {
    var v := Asked(request, outcome, Requested, Working, None, []);
    var v1 := Asked(request, outcome, Requested, Answered, Some(outcome), []).(messages := [outcome]);
    var v2 := Asked(request, outcome, Requested, Answered, Some(outcome), [outcome]);
    Turn(v, AnswerFile, v1);
    ThenTurn(v, v1, Deliver, v2);
    ThenTurn(v, v2, ReceiveAnswer, Asked(request, outcome, Received(outcome), Answered, Some(outcome), []));
  }

  // ------------------------------------------------------------- a run of the whole system

  ghost predicate AllOf<T>(q: seq<Tagged<T>>, id: JobId) {
    forall i :: 0 <= i < |q| ==> q[i].id == id
  }

  /** Only job 0 is there, and what it has said has been sent. */
  ghost predicate Solo(s: System) {
    && s.jobs.Keys == {0} && s.outbox == []
    && AllOf(s.commands, 0) && AllOf(s.requests, 0) && AllOf(s.messages, 0)
  }

  lemma {:induction false} AllProjected<T>(q: seq<Tagged<T>>, id: JobId)
    requires AllOf(q, id)
    ensures |Project(q, id)| == |q|
  {
    if q != [] {
      AllProjected(q[1..], id);
    }
  }

  lemma TakesOwnHead(s: System, a: Action)
    requires Solo(s) && Perform(ViewOf(s, 0), a).Some?
    ensures AtHead(s, 0, Perform(ViewOf(s, 0), a).value.taken)
  {
    AllProjected(s.commands, 0);
    AllProjected(s.requests, 0);
    AllProjected(s.messages, 0);
    TakenIsThere(ViewOf(s, 0), a);
  }

  ghost predicate IsThere(v: View, taken: Taken) {
    && (taken.Command? ==> v.commands != [])
    && (taken.FromCoordinator? ==> v.requests != [])
    && (taken.FromWorker? ==> v.messages != [])
  }

  lemma WorkerTakesWhatIsThere(v: View, a: Action)
    requires PerformWorker(v, a).Some?
    ensures IsThere(v, PerformWorker(v, a).value.taken)
  {
  }

  lemma WebsocketTakesNothing(v: View, a: Action)
    requires PerformWebsocket(v, a).Some?
    ensures PerformWebsocket(v, a).value.taken == Nothing
  {
  }

  lemma TakenIsThere(v: View, a: Action)
    requires Perform(v, a).Some?
    ensures IsThere(v, Perform(v, a).value.taken)
  {
    if PerformWorker(v, a).Some? {
      WorkerTakesWhatIsThere(v, a);
    } else if PerformWebsocket(v, a).Some? {
      WebsocketTakesNothing(v, a);
    }
  }

  lemma AllAfter<T>(q: seq<Tagged<T>>, taken: bool, id: JobId, bodies: seq<T>)
    requires AllOf(q, id)
    ensures AllOf(Update(q, taken, id, bodies), id)
    ensures |Project(Update(q, taken, id, bodies), id)| == |Update(q, taken, id, bodies)|
  {
    AllProjected(Update(q, taken, id, bodies), id);
  }

  /** One step of the job, and the response it may have made is sent. */
  lemma SoloTurn(s: System, a: Action, w: View) returns (states: seq<System>, steps: seq<Step>)
    requires Solo(s) && Turns(ViewOf(s, 0), a, w)
    ensures |states| == |steps| + 1 && states[0] == s
    ensures forall i :: 0 <= i < |steps| ==> Next(states[i], steps[i], states[i + 1])
    ensures Solo(states[|steps|]) && ViewOf(states[|steps|], 0) == w
  {
    var e := Perform(ViewOf(s, 0), a).value;
    var t := Apply(s, 0, e);
    TakesOwnHead(s, a);
    ApplyOwn(s, 0, e);
    AllAfter(s.commands, e.taken == Command, 0, e.commands);
    AllAfter(s.requests, e.taken == FromCoordinator, 0, e.requests);
    AllAfter(s.messages, e.taken == FromWorker, 0, e.messages);
    assert |t.outbox| == |e.responses|;
    assert Next(s, Act(0, a), t);
    if e.responses == [] {
      states, steps := [s, t], [Act(0, a)];
    } else {
      var u := t.(outbox := t.outbox[1..], socket := t.socket + [t.outbox[0]]);
      assert Next(t, SendToSocket, u);
      SendView(t, u, 0);
      states, steps := [s, t, u], [Act(0, a), SendToSocket];
    }
  }

  lemma RunsOn(states: seq<System>, steps: seq<Step>, more: seq<System>, later: seq<Step>)
    requires IsRun(states, steps)
    requires |more| == |later| + 1 && more[0] == states[|steps|]
    requires forall i :: 0 <= i < |later| ==> Next(more[i], later[i], more[i + 1])
    ensures IsRun(states + more[1..], steps + later)
    ensures (states + more[1..])[|steps + later|] == more[|later|]
  {
  }

  lemma JobStarts(request: Request, outcome: WorkerMessage, out: Bytes, err: Bytes)
      returns (states: seq<System>, steps: seq<Step>)
    requires Fits(request, outcome)
    ensures IsRun(states, steps)
    ensures Solo(states[|steps|]) && ViewOf(states[|steps|], 0) == Fresh(request, outcome, out, err)
  {
    var s := INITIAL.(nextId := 1, jobs := map[0 := NewJob(request, outcome, out, err)]);
    assert Next(INITIAL, StartJob(request, outcome, out, err), s);
    states, steps := [INITIAL, s], [StartJob(request, outcome, out, err)];
  }

  /** A path of the job's view is a run of the system. */
  lemma {:induction false} PathRuns(states: seq<System>, steps: seq<Step>, path: seq<View>, n: nat)
      returns (longer: seq<System>, more: seq<Step>)
    requires IsRun(states, steps) && Solo(states[|steps|])
    requires IsPath(Turning(), path) && n < |path| && ViewOf(states[|steps|], 0) == path[0]
    ensures IsRun(longer, more) && Solo(longer[|more|]) && ViewOf(longer[|more|], 0) == path[n]
  {
    if n == 0 {
      longer, more := states, steps;
    } else {
      var s, t := PathRuns(states, steps, path, n - 1);
      var a := TurnTaken(path, n - 1);
      var u, v := SoloTurn(s[|t|], a, path[n]);
      RunsOn(s, t, u, v);
      longer, more := s + u[1..], t + v;
    }
  }

  lemma TurnTaken(path: seq<View>, i: nat) returns (a: Action)
    requires IsPath(Turning(), path) && i + 1 < |path|
    ensures Turns(path[i], a, path[i + 1])
  {
    assert Turning()(path[i], path[i + 1]);
    a :| Turns(path[i], a, path[i + 1]);
  }

  /** What the job's tasks can come to is the last state of some run. */
  lemma LeadsInSystem(request: Request, outcome: WorkerMessage, out: Bytes, err: Bytes, w: View)
      returns (states: seq<System>, steps: seq<Step>)
    requires Fits(request, outcome) && Leads(Fresh(request, outcome, out, err), w)
    ensures IsRun(states, steps) && 0 in states[|steps|].jobs && ViewOf(states[|steps|], 0) == w
    ensures Seen(states[|steps|], 0) == w.responses
    ensures SameWork(NewJob(request, outcome, out, err), states[|steps|].jobs[0])
  {
    var path: seq<View> :|
      IsPath(Turning(), path) && path[0] == Fresh(request, outcome, out, err) && path[|path| - 1] == w;
    var begun, first := JobStarts(request, outcome, out, err);
    states, steps := PathRuns(begun, first, path, |path| - 1);
    WorkStays(path, |path| - 1);
    assert Seen(states[|steps|], 0) + [] == Seen(states[|steps|], 0);
  }

  lemma TurnKeepsWork(first: View, v: View, a: Action, w: View)
    requires Turns(v, a, w) && SameWork(first.job, v.job)
    ensures SameWork(first.job, w.job)
  {
    PerformKeepsWork(v, a);
  }

  lemma WorkStays(path: seq<View>, n: nat)
    requires IsPath(Turning(), path) && n < |path|
    ensures SameWork(path[0].job, path[n].job)
  {
    var first := path[0];
    var same := (v: View) => SameWork(first.job, v.job);
    forall v, w | same(v) && Turning()(v, w) ensures same(w) {
      var a :| Turns(v, a, w);
      TurnKeepsWork(first, v, a, w);
    }
    PathKeeps(Turning(), path, same, n);
  }

  // ------------------------------------------------------------- what can be seen

  /** The job runs a child that writes these outputs and exits so. */
  ghost predicate Runs(job: Job, out: Bytes, err: Bytes, exit: bool) {
    && job.request.ExecuteCommand?
    && job.outcome == ExecuteDone(exit)
    && job.process.streams.out.child == out
    && job.process.streams.err.child == err
  }

  /** In some run of the system, a client sees the response of a job with such a child. */
  ghost predicate Showable(out: Bytes, err: Bytes, exit: bool, r: Response) {
    exists states: seq<System>, steps: seq<Step>, id: JobId ::
      IsRun(states, steps) && Shown(states[|steps|], id, out, err, exit, r)
  }

  ghost predicate Shown(s: System, id: JobId, out: Bytes, err: Bytes, exit: bool, r: Response) {
    id in s.jobs && Runs(s.jobs[id], out, err, exit) && r in Seen(s, id)
  }

  lemma LastIsShowable(out: Bytes, err: Bytes, exit: bool, w: View)
    requires Leads(Fresh(ExecuteCommand, ExecuteDone(exit), out, err), w) && w.responses != []
    ensures Showable(out, err, exit, w.responses[|w.responses| - 1])
  {
    var states, steps := LeadsInSystem(ExecuteCommand, ExecuteDone(exit), out, err, w);
    assert Shown(states[|steps|], 0, out, err, exit, w.responses[|w.responses| - 1]);
  }

  lemma EndIsAcceptable(out: Bytes, err: Bytes, exit: bool, success: bool)
    requires Showable(out, err, exit, ExecuteEnd(success))
    ensures Acceptable(out) && Acceptable(err) && success == exit
  {
    var states: seq<System>, steps: seq<Step>, id: JobId :|
      IsRun(states, steps) && Shown(states[|steps|], id, out, err, exit, ExecuteEnd(success));
    var n := |steps|;
    var i :| 0 <= i < |Seen(states[n], id)| && Seen(states[n], id)[i] == ExecuteEnd(success);
    EndMeansComplete(states, steps, n, n, id, i);
    var streams := states[n].jobs[id].process.streams;
    assert streams.At(Stdout).child == out && streams.At(Stderr).child == err;
  }

  /**
    A client can see the end of a job exactly when both of its outputs are well-formed and within the
    limit, and then only one that says how its child exited.
   */
  lemma DeliverableExactly(out: Bytes, err: Bytes, exit: bool, success: bool)
    ensures Showable(out, err, exit, ExecuteEnd(success)) <==> Acceptable(out) && Acceptable(err) && success == exit
  {
    if Acceptable(out) && Acceptable(err) {
      var w := OutputsCanArrive(exit, out, err);
      LastIsShowable(out, err, exit, w);
    }
    if Showable(out, err, exit, ExecuteEnd(success)) {
      EndIsAcceptable(out, err, exit, success);
    }
  }

  /** Of every execution a client can see a sample, and a failure. */
  lemma SampleAndFailureAreShowable(out: Bytes, err: Bytes, exit: bool)
    ensures Showable(out, err, exit, ExecuteStatus) && Showable(out, err, exit, ResponseError)
  {
    var start, calm := Fresh(ExecuteCommand, ExecuteDone(exit), out, err), Calm(exit, Unsent(out, err), [ExecuteBegin]);
    RequestArrives(exit, out, err);
    SampleIsShown(exit, Unsent(out, err), [ExecuteBegin]);
    var w := Calm(exit, Unsent(out, err), [ExecuteBegin] + [ExecuteStatus]);
    LeadsOn(start, calm, w);
    LastIsShowable(out, err, exit, w);
    var p := FailureIsHeard(exit, Unsent(out, err), [ExecuteBegin]);
    FailureIsShown(exit, p, [ExecuteBegin]);
    var failed := Failing(exit, p, Reported, [ExecuteBegin] + [ResponseError]);
    LeadsOn(start, calm, Failing(exit, p, Streaming, [ExecuteBegin]));
    LeadsOn(start, Failing(exit, p, Streaming, [ExecuteBegin]), failed);
    LastIsShowable(out, err, exit, failed);
  }

  /** In some run, the caller of `one` receives this answer to a file request that comes to `outcome`. */
  ghost predicate Receivable(request: Request, outcome: WorkerMessage, answer: WorkerMessage) {
    exists states: seq<System>, steps: seq<Step>, id: JobId ::
      IsRun(states, steps) && HasReceived(states[|steps|], id, request, outcome, answer)
  }

  ghost predicate HasReceived(s: System, id: JobId, request: Request, outcome: WorkerMessage, answer: WorkerMessage) {
    && id in s.jobs && s.jobs[id].request == request && s.jobs[id].outcome == outcome
    && s.jobs[id].listener.client == Received(answer)
  }

  /** It can be received exactly if it is what the request came to. */
  lemma ReceivableExactly(request: Request, outcome: WorkerMessage, answer: WorkerMessage)
    requires request.File? && Fits(request, outcome)
    ensures Receivable(request, outcome, answer) <==> answer == outcome
  {
    if answer == outcome {
      var w := Asked(request, outcome, Received(outcome), Answered, Some(outcome), []);
      FileIsAsked(request, outcome);
      FileIsAnswered(request, outcome);
      LeadsOn(Fresh(request, outcome, [], []), Asked(request, outcome, Requested, Working, None, []), w);
      var states, steps := LeadsInSystem(request, outcome, [], [], w);
      assert HasReceived(states[|steps|], 0, request, outcome, answer);
    }
    if Receivable(request, outcome, answer) {
      var states: seq<System>, steps: seq<Step>, id: JobId :|
        IsRun(states, steps) && HasReceived(states[|steps|], id, request, outcome, answer);
      OneGetsItsAnswer(states, steps, |steps|, |steps|, id);
    }
  }
}
