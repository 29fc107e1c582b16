/** The messages of the worker protocol and of the websocket, and the records of one job. */
module Protocol {
  import opened Utf8
  import opened Wrappers

  type JobId = nat

  datatype FileOp = WriteFile | DeleteFile | ReadFile

  datatype Request =
    | File(op: FileOp, path: string, content: Bytes)
    | ExecuteCommand

  datatype Kind = Stdout | Stderr

  datatype WorkerMessage =
    | FileDone(op: FileOp, content: Bytes)
    | ExecuteDone(success: bool)
    | Packet(kind: Kind, text: Bytes)
    | Statistics
    | WorkerError

  datatype DemultiplexCommand = Listen | ListenOnce

  datatype Response =
    | ExecuteBegin
    | ExecuteOutput(kind: Kind, text: Bytes)
    | ExecuteStatus
    | ExecuteEnd(success: bool)
    | ResponseError

  /** Where `Commander::one` or `Commander::many` has got to. */
  datatype Client =
    | Allocated
    | ListenQueued
    | Listening
    | Requested
    | Received(answer: WorkerMessage)
    | Dropped

  datatype Worker = NotAsked | Working | Answered

  datatype CopyStatus = Copying | Finished | Broken

  /** One copy task: what the child writes in its whole life, what was sent, what is left. */
  datatype Stream = Stream(child: Bytes, packets: seq<Bytes>, todo: Bytes, status: CopyStatus)

  datatype Streams = Streams(out: Stream, err: Stream) {
    function At(k: Kind): Stream {
      if k == Stdout then out else err
    }

    function Put(k: Kind, s: Stream): Streams {
      if k == Stdout then this.(out := s) else this.(err := s)
    }
  }

  /** The stdout and stderr channels from the cargo task to the websocket task. */
  datatype Pipes = Pipes(out: seq<Bytes>, err: seq<Bytes>) {
    function At(k: Kind): seq<Bytes> {
      if k == Stdout then out else err
    }

    function Put(k: Kind, q: seq<Bytes>): Pipes {
      if k == Stdout then this.(out := q) else this.(err := q)
    }
  }

  datatype Cargo =
    | NotSpawned
    | Forwarding
    | Returned(success: Option<bool>)

  datatype Ws =
    | Beginning
    | Streaming
    | Draining(kind: Kind)
    | Completed
    | Failed
    | Reported
    | Abandoned

  /** The requesting side: the listener that `one` or `many` sets up and its channel. */
  datatype Listener = Listener(
    client: Client,
    registered: bool,
    duplicate: bool,
    unheard: bool,
    inbox: seq<WorkerMessage>,
    inboxOpen: bool)

  /** The worker's side: the file operation or process, and its final answer. */
  datatype Process = Process(
    phase: Worker,
    answer: Option<WorkerMessage>,
    sampling: bool,
    streams: Streams)

  /** The cargo task and the websocket task of an execution. */
  datatype Execution = Execution(
    cargo: Cargo,
    pipes: Pipes,
    nStatus: nat,
    ws: Ws)
  {
    /** The websocket task still holds the receivers of the stdout, stderr and status channels. */
    predicate PipesOpen() {
      ws.Beginning? || ws.Streaming? || ws.Draining?
    }
  }

  /** `outcome` is what the work itself comes to: the file handler's answer, or the status the child exits with. */
  datatype Job = Job(
    request: Request,
    outcome: WorkerMessage,
    listener: Listener,
    process: Process,
    execution: Execution)

  /** A handler answers for its own operation, or fails; a child exits with a status. */
  predicate Fits(request: Request, outcome: WorkerMessage) {
    match request
    case File(op, _, _) => outcome.WorkerError? || (outcome.FileDone? && outcome.op == op)
    case ExecuteCommand => outcome.ExecuteDone?
  }

  function NewJob(request: Request, outcome: WorkerMessage, out: Bytes, err: Bytes): Job {
    Job(request,
        outcome,
        Listener(Allocated, false, false, false, [], true),
        Process(NotAsked, None, false, Streams(Stream(out, [], out, Copying), Stream(err, [], err, Copying))),
        Execution(NotSpawned, Pipes([], []), 0, Beginning))
  }

  /** What `one` makes of the message it receives, by `TryFrom<WorkerMessage>`. */
  datatype OneResult = Answer(content: Bytes) | WorkerOperationFailed | UnexpectedResponseType

  function Narrow(op: FileOp, m: WorkerMessage): OneResult {
    match m
    case FileDone(op', content) => if op == op' then Answer(content) else UnexpectedResponseType
    case WorkerError => WorkerOperationFailed
    case _ => UnexpectedResponseType
  }
}

/**
  The steps of every task that serves one job. A step sees the job's own record, its two
  entries in the demultiplexer's maps and its own messages in the shared queues.
 */
module JobSteps {
  import opened Sequences
  import opened Utf8
  import opened Utf8Reading
  import opened OutputCopy
  import opened Protocol
  import opened Wrappers

  const CHANNEL_CAPACITY: nat := 8

  datatype View = View(
    job: Job,
    waiting: bool,
    waitingOnce: bool,
    commands: seq<DemultiplexCommand>,
    requests: seq<Request>,
    messages: seq<WorkerMessage>,
    responses: seq<Response>)

  /** The shared queue whose head a step consumes, if any. */
  datatype Taken = Nothing | Command | FromCoordinator | FromWorker

  datatype Effect = Effect(
    job: Job,
    waiting: bool,
    waitingOnce: bool,
    taken: Taken,
    commands: seq<DemultiplexCommand>,
    requests: seq<Request>,
    messages: seq<WorkerMessage>,
    responses: seq<Response>)

  datatype Action =
    // Commander::one and Commander::many
    | SendListen
    | SendRequest
    | ReceiveAnswer
    | DropClient
    // Commander::demultiplex
    | Register
    | Deliver
    | CollectGarbage
    // the worker
    | TakeRequest(spawned: bool)
    | AnswerFile
    | ForwardPacket(kind: Kind, text: Bytes)
    | StopCopy(kind: Kind, why: ReadResult)
    | SendStatistics
    | StopStatistics
    | EndProcess
    | FailProcess
    // the cargo task
    | TakeMessage
    | FailCargo
    // the websocket task
    | Begin
    | FailBegin
    | SendOutput(kind: Kind)
    | SendStatus
    | CargoDone
    | StdoutDrained
    | StderrDrained
    | FailStdin
    | Abandon
    | ReportError

  function Change(v: View, job: Job): Effect {
    Effect(job, v.waiting, v.waitingOnce, Nothing, [], [], [], [])
  }

  ghost function Perform(v: View, a: Action): Option<Effect> {
    match a
    case SendListen | SendRequest | ReceiveAnswer | DropClient => PerformClient(v, a)
    case Register | Deliver | CollectGarbage => PerformDemultiplexer(v, a)
    case TakeRequest(_) | AnswerFile | ForwardPacket(_, _) | StopCopy(_, _)
      | SendStatistics | StopStatistics | EndProcess | FailProcess => PerformWorker(v, a)
    case TakeMessage | FailCargo => PerformCargo(v, a)
    case _ => PerformWebsocket(v, a)
  }

  function PerformClient(v: View, a: Action): Option<Effect> {
    var job, l := v.job, v.job.listener;
    match a
    case SendListen =>
      if !l.client.Allocated? then None
      else
        Some(Change(v, job.(listener := l.(client := ListenQueued))).(
             commands := [if job.request.File? then ListenOnce else Listen]))
    case SendRequest =>
      if !l.client.Listening? then None
      else
        var cargo := if job.request.ExecuteCommand? then Forwarding else job.execution.cargo;
        Some(Change(v, job.(listener := l.(client := Requested),
                            execution := job.execution.(cargo := cargo))).(requests := [job.request]))
    case ReceiveAnswer =>
      if !job.request.File? || !l.client.Requested? || l.inbox == [] then None
      else
        var l' := l.(client := Received(l.inbox[0]), inbox := l.inbox[1..], inboxOpen := false);
        Some(Change(v, job.(listener := l')))
    case DropClient =>
      if !job.request.File? || l.client.Received? then None
      else
        Some(Change(v, job.(listener := l.(client := Dropped, inboxOpen := false))))
    case _ => None
  }

  function PerformDemultiplexer(v: View, a: Action): Option<Effect> {
    var job, l := v.job, v.job.listener;
    match a
    case Register =>
      if v.commands == [] then None
      else
        var once := v.commands[0].ListenOnce?;
        var l' := l.(
          registered := true,
          duplicate := l.duplicate || (if once then v.waitingOnce else v.waiting),
          client := if l.client.ListenQueued? then Listening else l.client);
        Some(Effect(job.(listener := l'), v.waiting || !once, v.waitingOnce || once, Command, [], [], [], []))
    case Deliver =>
      if v.messages == [] then None
      else
        var heard := job.(listener := if l.inboxOpen then l.(inbox := l.inbox + [v.messages[0]]) else l);
        if v.waitingOnce then
          Some(Change(v, heard).(waitingOnce := false, taken := FromWorker))
        else if v.waiting then
          if l.inboxOpen && |l.inbox| >= CHANNEL_CAPACITY then None
          else Some(Change(v, heard).(taken := FromWorker))
        else
          Some(Change(v, job.(listener := l.(unheard := true))).(taken := FromWorker))
    case CollectGarbage =>
      if l.inboxOpen then None
      else Some(Change(v, job).(waiting := false, waitingOnce := false))
    case _ => None
  }

  ghost function PerformWorker(v: View, a: Action): Option<Effect> {
    var job, p := v.job, v.job.process;
    match a
    case TakeRequest(spawned) =>
      if v.requests == [] then None
      else if v.requests[0].File? then
        Some(Change(v, job.(process := p.(phase := Working))).(taken := FromCoordinator))
      else if spawned then
        Some(Change(v, job.(process := p.(phase := Working, sampling := true))).(taken := FromCoordinator))
      else
        var idle := Streams(p.streams.out.(status := Broken), p.streams.err.(status := Broken));
        var p' := p.(phase := Answered, answer := Some(WorkerError), streams := idle);
        Some(Change(v, job.(process := p')).(taken := FromCoordinator, messages := [WorkerError]))
    case AnswerFile =>
      if !job.request.File? || !p.phase.Working? || !Fits(job.request, job.outcome) then None
      else
        Some(Change(v, job.(process := p.(phase := Answered, answer := Some(job.outcome)))).(
             messages := [job.outcome]))
    case ForwardPacket(kind, text) =>
      var stream := p.streams.At(kind);
      if || !job.request.ExecuteCommand? || p.phase.NotAsked? || !stream.status.Copying?
         || !(text <= stream.todo)
         || !Reads(stream.todo, Chunk(text), stream.todo[|text|..])
      then None
      else
        var packets := stream.packets + [text];
        var status := if |Flatten(packets)| > OUTPUT_BYTE_LIMIT then Broken else Copying;
        var stream' := Stream(stream.child, packets, stream.todo[|text|..], status);
        Some(Change(v, job.(process := p.(streams := p.streams.Put(kind, stream')))).(
             messages := [Packet(kind, text)]))
    case StopCopy(kind, why) =>
      var stream := p.streams.At(kind);
      if || !job.request.ExecuteCommand? || p.phase.NotAsked? || !stream.status.Copying?
         || why.Chunk? || !Reads(stream.todo, why, [])
      then None
      else
        var status := if why.End? then Finished else Broken;
        Some(Change(v, job.(process := p.(streams := p.streams.Put(kind, stream.(status := status))))))
    case SendStatistics =>
      if !p.sampling then None
      else Some(Change(v, job).(messages := [Statistics]))
    case StopStatistics =>
      if !p.sampling then None
      else Some(Change(v, job.(process := p.(sampling := false))))
    case EndProcess =>
      if || !job.request.ExecuteCommand? || !p.phase.Working? || p.sampling || !Fits(job.request, job.outcome)
         || !p.streams.out.status.Finished? || !p.streams.err.status.Finished?
      then None
      else
        Some(Change(v, job.(process := p.(phase := Answered, answer := Some(job.outcome)))).(
             messages := [job.outcome]))
    case FailProcess =>
      if !job.request.ExecuteCommand? || !p.phase.Working? then None
      else
        Some(Change(v, job.(process := p.(phase := Answered, answer := Some(WorkerError)))).(
             messages := [WorkerError]))
    case _ => None
  }

  function CargoReturns(v: View, success: Option<bool>): Effect {
    Change(v, v.job.(listener := v.job.listener.(inbox := [], inboxOpen := false),
                     execution := v.job.execution.(cargo := Returned(success))))
  }

  /** A packet or a sample goes to its own channel, unless that is full, or gone. */
  function PassOn(x: Execution, m: WorkerMessage): Option<Execution>
    requires m.Packet? || m.Statistics?
  {
    if !x.PipesOpen() then Some(x)
    else if m.Packet? then
      var pipe := x.pipes.At(m.kind);
      if |pipe| >= CHANNEL_CAPACITY then None
      else Some(x.(pipes := x.pipes.Put(m.kind, pipe + [m.text])))
    else
      if x.nStatus >= CHANNEL_CAPACITY then None
      else Some(x.(nStatus := x.nStatus + 1))
  }

  function CargoForwards(v: View, m: WorkerMessage): Option<Effect>
    requires v.job.listener.inbox != [] && (m.Packet? || m.Statistics?)
  {
    var l := v.job.listener;
    match PassOn(v.job.execution, m)
    case None => None
    case Some(x) => Some(Change(v, v.job.(listener := l.(inbox := l.inbox[1..]), execution := x)))
  }

  function PerformCargo(v: View, a: Action): Option<Effect> {
    var inbox := v.job.listener.inbox;
    if !v.job.execution.cargo.Forwarding? then None
    else
      match a
      case TakeMessage =>
        if inbox == [] then None
        else
          (match inbox[0]
           case Packet(_, _) => CargoForwards(v, inbox[0])
           case Statistics => CargoForwards(v, inbox[0])
           case ExecuteDone(success) => Some(CargoReturns(v, Some(success)))
           case _ => Some(CargoReturns(v, None)))
      case FailCargo => Some(CargoReturns(v, None))
      case _ => None
  }

  function PerformWebsocket(v: View, a: Action): Option<Effect> {
    var job, x := v.job, v.job.execution;
    if !job.request.ExecuteCommand? then None
    else
      match a
      case Begin =>
        if !x.ws.Beginning? || x.cargo.NotSpawned? then None
        else Some(Change(v, job.(execution := x.(ws := Streaming))).(responses := [ExecuteBegin]))
      case FailBegin =>
        if !x.ws.Beginning? || !x.cargo.NotSpawned? then None
        else Some(Change(v, job.(execution := x.(ws := Failed), listener := Forgotten(job.listener))))
      case SendOutput(kind) =>
        var pipe := x.pipes.At(kind);
        if !(x.ws.Streaming? || x.ws == Draining(kind)) || pipe == [] then None
        else
          Some(Change(v, job.(execution := x.(pipes := x.pipes.Put(kind, pipe[1..])))).(
               responses := [ExecuteOutput(kind, pipe[0])]))
      case SendStatus =>
        if !x.ws.Streaming? || x.nStatus == 0 then None
        else Some(Change(v, job.(execution := x.(nStatus := x.nStatus - 1))).(responses := [ExecuteStatus]))
      case CargoDone =>
        if !x.ws.Streaming? || !x.cargo.Returned? then None
        else Some(Change(v, job.(execution := x.(ws := Draining(Stdout)))))
      case StdoutDrained =>
        if x.ws != Draining(Stdout) || x.pipes.out != [] then None
        else Some(Change(v, job.(execution := x.(ws := Draining(Stderr)))))
      case StderrDrained =>
        if x.ws != Draining(Stderr) || x.pipes.err != [] || !x.cargo.Returned? then None
        else
          (match x.cargo.success
           case Some(success) =>
             Some(Change(v, job.(execution := x.(ws := Completed))).(responses := [ExecuteEnd(success)]))
           case None => Some(Change(v, job.(execution := x.(ws := Failed)))))
      case FailStdin =>
        if !x.ws.Streaming? then None else Some(Change(v, job.(execution := x.(ws := Failed))))
      case Abandon =>
        if !x.PipesOpen() then None
        else
          var l' := if x.cargo.NotSpawned? then Forgotten(job.listener) else job.listener;
          Some(Change(v, job.(execution := x.(ws := Abandoned), listener := l')))
      case ReportError =>
        if !x.ws.Failed? then None
        else Some(Change(v, job.(execution := x.(ws := Reported))).(responses := [ResponseError]))
      case _ => None
  }

  /** `begin_execute` is given up before there is a cargo task to own the listener's channel. */
  function Forgotten(l: Listener): Listener {
    l.(client := Dropped, inboxOpen := false)
  }

  function Drop1<T>(q: seq<T>, taken: bool): seq<T> {
    if taken && q != [] then q[1..] else q
  }

  /** How the step changes what the job sees. */
  function After(v: View, e: Effect): View {
    View(e.job, e.waiting, e.waitingOnce,
         Drop1(v.commands, e.taken == Command) + e.commands,
         Drop1(v.requests, e.taken == FromCoordinator) + e.requests,
         Drop1(v.messages, e.taken == FromWorker) + e.messages,
         v.responses + e.responses)
  }
}
