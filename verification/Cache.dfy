/**
  The task that keeps one value latest: a timer or a regeneration is pending, never both. Instants
  are nanoseconds of the monotonic clock; `wall` says what the system clock shows at each of them.
 */
module Cache {
  import opened Wrappers

  const SECOND: nat := 1_000_000_000
  const INITIAL_DELAY: nat := 100_000_000
  const ERROR_TIME_TO_LIVE: nat := 10 * SECOND
  const TIME_TO_LIVE: nat := 600 * SECOND

  datatype CacheError<E> = Empty | Real(source: E)

  datatype Result<T, E> = Ok(value: T) | Err(error: CacheError<E>)

  /** A result, the system time it was made at, and the instant it was last checked at. */
  datatype CacheInfo<T, E> = CacheInfo(result: Result<T, E>, creation: nat, validation: nat)

  /** What one caller was told: the result and its creation time. */
  datatype Answer<T, E> = Answer(result: Result<T, E>, stamp: nat)

  /** The regeneration: none, at work, or done; `Finished(None)` is a task that panicked. */
  datatype Work<T, E> = Idle | Running | Finished(info: Option<CacheInfo<T, E>>)

  datatype State<T, E> = State(
    open: bool,
    now: nat,
    cached: CacheInfo<T, E>,
    timer: Option<nat>,
    work: Work<T, E>,
    served: seq<Answer<T, E>>)

  datatype Event<T, E> =
    | Get                                // someone wants the cached value
    | Hangup                             // every sender is gone
    | Expired                            // the timer fires
    | Generated(result: Result<T, E>)    // the regeneration task returns
    | Crashed                            // the regeneration task panics
    | New                                // the loop sees the finished regeneration

  /** `Panicked` is a failed assertion of the loop. */
  datatype Took<T, E> = Moved(state: State<T, E>) | Panicked | Disabled

  function Build<T, E>(result: Result<T, E>, wall: nat -> nat, at: nat): CacheInfo<T, E> {
    CacheInfo(result, wall(at), at)
  }

  function Start<T, E>(wall: nat -> nat, at: nat): State<T, E> {
    State(true, at, Build(Err(Empty), wall, at), Some(at + INITIAL_DELAY), Idle, [])
  }

  function Combine<T(==), E>(latest: CacheInfo<T, E>, previous: CacheInfo<T, E>): CacheInfo<T, E> {
    if previous.result.Err? then latest
    else if latest.result.Err? then previous
    else if latest.result.value == previous.result.value then previous.(validation := latest.validation)
    else latest
  }

  /**
    What the task owes its callers when a result comes in: a success is never lost, a new success is
    always taken, a stale one outlives an error, and the time stamp moves only with the value.
   */
  ghost predicate Combined<T, E>(previous: CacheInfo<T, E>, latest: CacheInfo<T, E>, info: CacheInfo<T, E>) {
    && (info.result.Ok? <==> previous.result.Ok? || latest.result.Ok?)
    && (latest.result.Ok? || previous.result.Err? ==>
          info.result == latest.result && info.validation == latest.validation)
    && (previous.result.Ok? && latest.result.Err? ==> info == previous)
    && info.creation == (if info.result.Ok? && info.result == previous.result then previous else latest).creation
  }

  /** There is exactly one way to meet that. */
  lemma CombinedExactly<T, E>(previous: CacheInfo<T, E>, latest: CacheInfo<T, E>, info: CacheInfo<T, E>)
    ensures Combined(previous, latest, info) <==> info == Combine(latest, previous)
  {
  }

  function TimeToLive<T, E>(info: CacheInfo<T, E>): nat {
    if info.result.Ok? then TIME_TO_LIVE else ERROR_TIME_TO_LIVE
  }

  function LatestInfo<T, E>(outcome: Option<CacheInfo<T, E>>, wall: nat -> nat, at: nat): CacheInfo<T, E> {
    match outcome
    case Some(info) => info
    case None => Build(Err(Empty), wall, at)
  }

  /** One event at the instant `at`. A sleep ends no earlier than its deadline. */
  function Step<T(==), E>(c: State<T, E>, wall: nat -> nat, at: nat, e: Event<T, E>): Took<T, E> {
    if !c.open || at < c.now then Disabled
    else
      var d := c.(now := at);
      match e
      case Get => Moved(d.(served := c.served + [Answer(c.cached.result, c.cached.creation)]))
      case Hangup => Moved(d.(open := false))
      case Expired =>
        if c.timer.None? || at < c.timer.value then Disabled
        else if !c.work.Idle? then Panicked
        else Moved(d.(timer := None, work := Running))
      case Generated(result) =>
        if !c.work.Running? then Disabled
        else Moved(d.(work := Finished(Some(Build(result, wall, at)))))
      case Crashed =>
        if !c.work.Running? then Disabled else Moved(d.(work := Finished(None)))
      case New =>
        if !c.work.Finished? then Disabled
        else if c.timer.Some? then Panicked
        else
          var cached := Combine(LatestInfo(c.work.info, wall, at), c.cached);
          Moved(d.(cached := cached, work := Idle, timer := Some(at + TimeToLive(cached))))
  }

  /** The task itself; its handlers follow `Step` event by event. */
  class CacheTask<T(==), E> {
    var open: bool
    var now: nat
    var cached: CacheInfo<T, E>
    var timer: Option<nat>
    var work: Work<T, E>
    var served: seq<Answer<T, E>>

    ghost function View(): State<T, E>
      reads this
    {
      State(open, now, cached, timer, work, served)
    }

    constructor (wall: nat -> nat, at: nat)
      ensures View() == Start(wall, at)
      ensures timer == Some(at + SECOND / 10) && work == Idle && cached.result == Err(Empty)
    {
      open, now := true, at;
      cached := Build(Err(Empty), wall, at);
      timer, work, served := Some(at + INITIAL_DELAY), Idle, [];
    }

    static method TryCombineWithPrevious(latest: CacheInfo<T, E>, previous: CacheInfo<T, E>)
        returns (info: CacheInfo<T, E>)
      ensures Combined(previous, latest, info)
    {
      var oldValue := previous;
      match (oldValue.result, latest.result)
      case (Err(_), _) => info := latest;
      case (Ok(_), Err(_)) => info := oldValue;
      case (Ok(before), Ok(after)) =>
        if before == after {
          oldValue := oldValue.(validation := latest.validation);
          info := oldValue;
        } else {
          info := latest;
        }
    }

    method Expire(at: nat)
      requires open && now <= at && timer.Some? && timer.value <= at && work.Idle?
      modifies this
      ensures forall wall :: Step(old(View()), wall, at, Expired) == Moved(View())
    {
      now, timer, work := at, None, Running;
    }

    /** Puts the result in the cache, to be checked again in ten minutes, or in ten seconds without a success. */
    method StoreNew(wall: nat -> nat, at: nat)
      requires open && now <= at && timer.None? && work.Finished?
      modifies this
      ensures Combined(old(cached), LatestInfo(old(work).info, wall, at), cached)
      ensures work == Idle && served == old(served)
      ensures timer == Some(at + if cached.result.Ok? then 600 * SECOND else 10 * SECOND)
      ensures Step(old(View()), wall, at, New) == Moved(View())
    {
      var latest := match work.info case Some(info) => info case None => Build(Err(Empty), wall, at);
      var info := TryCombineWithPrevious(latest, cached);
      CombinedExactly(cached, latest, info);
      cached := info;
      var ttl := if cached.result.Ok? then TIME_TO_LIVE else ERROR_TIME_TO_LIVE;
      now, work, timer := at, Idle, Some(at + ttl);
    }

    /** One turn of the loop; the two assertions are the program's own. */
    method Handle(wall: nat -> nat, at: nat, e: Event<T, E>)
      requires OnePending(View()) && !Step(View(), wall, at, e).Disabled?
      modifies this
      ensures Step(old(View()), wall, at, e) == Moved(View())
      ensures OnePending(View())
    {
      match e {
        case Hangup => now, open := at, false;
        case Get => var _ := Respond(at);
        case Expired =>
          assert work.Idle?;
          Expire(at);
        case Generated(result) => now, work := at, Finished(Some(Build(result, wall, at)));
        case Crashed => now, work := at, Finished(None);
        case New =>
          assert timer.None?;
          StoreNew(wall, at);
      }
    }

    method Respond(at: nat) returns (answer: Answer<T, E>)
      requires open && now <= at
      modifies this
      ensures forall wall :: Step(old(View()), wall, at, Get) == Moved(View())
      ensures served == old(served) + [answer]
    {
      answer := Answer(cached.result, cached.creation);
      now, served := at, served + [answer];
    }
  }

  /** A run of the task spawned at `from`. */
  ghost predicate IsRun<T, E>(wall: nat -> nat, from: nat, states: seq<State<T, E>>, times: seq<nat>,
                              events: seq<Event<T, E>>)
  {
    && |events| == |times| == |states| - 1
    && states[0] == Start(wall, from)
    && forall i :: 0 <= i < |events| ==> Step(states[i], wall, times[i], events[i]) == Moved(states[i + 1])
  }

  // ------------------------------------------------------------- one pending, errors only before success

  ghost predicate OnePending<T, E>(c: State<T, E>) {
    c.timer.Some? <==> c.work.Idle?
  }

  ghost predicate NoErrorAfterSuccess<T, E>(served: seq<Answer<T, E>>) {
    forall i, j :: 0 <= i < j < |served| && served[i].result.Ok? ==> served[j].result.Ok?
  }

  ghost predicate Sticky<T, E>(c: State<T, E>) {
    && NoErrorAfterSuccess(c.served)
    && (forall i :: 0 <= i < |c.served| && c.served[i].result.Ok? ==> c.cached.result.Ok?)
  }

  lemma StepKeepsPending<T, E>(c: State<T, E>, wall: nat -> nat, at: nat, e: Event<T, E>)
    requires OnePending(c) && Sticky(c)
    ensures !Step(c, wall, at, e).Panicked?
    ensures Step(c, wall, at, e).Moved? ==> OnePending(Step(c, wall, at, e).state) && Sticky(Step(c, wall, at, e).state)
  {
  }

  lemma {:induction false} RunPending<T, E>(wall: nat -> nat, from: nat, states: seq<State<T, E>>, times: seq<nat>,
                                            events: seq<Event<T, E>>, n: nat)
    requires IsRun(wall, from, states, times, events) && n < |states|
    ensures OnePending(states[n]) && Sticky(states[n])
  {
    if n > 0 {
      RunPending(wall, from, states, times, events, n - 1);
      assert Step(states[n - 1], wall, times[n - 1], events[n - 1]) == Moved(states[n - 1 + 1]);
      StepKeepsPending(states[n - 1], wall, times[n - 1], events[n - 1]);
    }
  }

  /**
    Whatever the clocks show and whatever happens next, both assertions of the loop hold, exactly
    one of timer and regeneration is pending, and no error follows a success.
   */
  lemma AssertionsHold<T, E>(wall: nat -> nat, from: nat, states: seq<State<T, E>>, times: seq<nat>,
                             events: seq<Event<T, E>>, n: nat, at: nat, e: Event<T, E>)
    requires IsRun(wall, from, states, times, events) && n < |states|
    ensures !Step(states[n], wall, at, e).Panicked?
    ensures states[n].timer.Some? <==> states[n].work.Idle?
    ensures NoErrorAfterSuccess(states[n].served)
  {
    RunPending(wall, from, states, times, events, n);
    StepKeepsPending(states[n], wall, at, e);
  }

  // ------------------------------------------------------------- where what is served comes from

  /** The regeneration returned this success at the instant that its stamp is of. */
  ghost predicate Made<T, E>(wall: nat -> nat, times: seq<nat>, events: seq<Event<T, E>>, n: nat,
                             result: Result<T, E>, stamp: nat)
    requires n <= |times| == |events|
  {
    result.Ok? ==> exists k :: 0 <= k < n && events[k] == Generated(result) && stamp == wall(times[k])
  }

  ghost predicate AllMade<T, E>(wall: nat -> nat, times: seq<nat>, events: seq<Event<T, E>>, n: nat, c: State<T, E>)
    requires n <= |times| == |events|
  {
    && Made(wall, times, events, n, c.cached.result, c.cached.creation)
    && (c.work.Finished? && c.work.info.Some? ==>
          Made(wall, times, events, n, c.work.info.value.result, c.work.info.value.creation))
    && (forall i :: 0 <= i < |c.served| ==> Made(wall, times, events, n, c.served[i].result, c.served[i].stamp))
  }

  lemma MadeStaysMade<T, E>(wall: nat -> nat, times: seq<nat>, events: seq<Event<T, E>>, n: nat,
                            result: Result<T, E>, stamp: nat)
    requires n < |times| == |events| && Made(wall, times, events, n, result, stamp)
    ensures Made(wall, times, events, n + 1, result, stamp)
  {
  }

  lemma StepMakes<T, E>(wall: nat -> nat, times: seq<nat>, events: seq<Event<T, E>>, n: nat, c: State<T, E>)
    requires n < |times| == |events| && AllMade(wall, times, events, n, c)
    requires Step(c, wall, times[n], events[n]).Moved?
    ensures AllMade(wall, times, events, n + 1, Step(c, wall, times[n], events[n]).state)
  {
    var d := Step(c, wall, times[n], events[n]).state;
    MadeStaysMade(wall, times, events, n, c.cached.result, c.cached.creation);
    if c.work.Finished? && c.work.info.Some? {
      MadeStaysMade(wall, times, events, n, c.work.info.value.result, c.work.info.value.creation);
    }
    forall i | 0 <= i < |d.served| ensures Made(wall, times, events, n + 1, d.served[i].result, d.served[i].stamp) {
      if i < |c.served| {
        MadeStaysMade(wall, times, events, n, c.served[i].result, c.served[i].stamp);
      }
    }
  }

  lemma {:induction false} RunMakes<T, E>(wall: nat -> nat, from: nat, states: seq<State<T, E>>, times: seq<nat>,
                                          events: seq<Event<T, E>>, n: nat)
    requires IsRun(wall, from, states, times, events) && n < |states|
    ensures AllMade(wall, times, events, n, states[n])
  {
    if n > 0 {
      RunMakes(wall, from, states, times, events, n - 1);
      assert Step(states[n - 1], wall, times[n - 1], events[n - 1]) == Moved(states[n - 1 + 1]);
      StepMakes(wall, times, events, n - 1, states[n - 1]);
    }
  }

  /** Every success that is served was returned by a regeneration, and its stamp is of that instant. */
  lemma ServedWasMade<T, E>(wall: nat -> nat, from: nat, states: seq<State<T, E>>, times: seq<nat>,
                            events: seq<Event<T, E>>, n: nat, i: nat) returns (k: nat)
    requires IsRun(wall, from, states, times, events) && n < |states|
    requires i < |states[n].served| && states[n].served[i].result.Ok?
    ensures k < n && events[k] == Generated(states[n].served[i].result) && states[n].served[i].stamp == wall(times[k])
  {
    RunMakes(wall, from, states, times, events, n);
    assert Made(wall, times, events, n, states[n].served[i].result, states[n].served[i].stamp);
    k :| 0 <= k < n
      && events[k] == Generated(states[n].served[i].result) && states[n].served[i].stamp == wall(times[k]);
  }

  /** A regeneration that succeeds is what is served from the moment it is stored. */
  lemma SuccessIsServed<T, E>(c: State<T, E>, wall: nat -> nat, at: nat, stored: nat, got: nat, v: T)
    requires c.open && c.work.Running? && c.timer.None? && c.now <= at <= stored <= got
    ensures var d := Step(c, wall, at, Generated(Ok(v)));
            && d.Moved?
            && var e := Step(d.state, wall, stored, New);
               && e.Moved?
               && var f := Step(e.state, wall, got, Get);
                  f.Moved? && |f.state.served| == |c.served| + 1 && f.state.served[|c.served|].result == Ok(v)
  {
  }

  /** A regeneration may come to anything or panic, and someone may ask, whenever the task runs. */
  lemma AnythingMayHappen<T, E>(c: State<T, E>, wall: nat -> nat, at: nat, result: Result<T, E>)
    requires c.open && c.now <= at
    ensures Step(c, wall, at, Get).Moved? && Step(c, wall, at, Hangup).Moved?
    ensures c.work.Running? ==> Step(c, wall, at, Generated(result)).Moved? && Step(c, wall, at, Crashed).Moved?
    ensures c.timer.Some? && c.timer.value <= at && c.work.Idle? ==> Step(c, wall, at, Expired).Moved?
  {
  }

  /** When every sender is gone the task is at its end. */
  lemma HangupIsFinal<T, E>(c: State<T, E>, wall: nat -> nat, at: nat, later: nat, e: Event<T, E>)
    requires c.open && c.now <= at
    ensures Step(c, wall, at, Hangup).Moved? && Step(Step(c, wall, at, Hangup).state, wall, later, e).Disabled?
  {
  }

  // ------------------------------------------------------------- whole-second tags

  /** The entity tag that a response carries. */
  function Seconds(stamp: nat): nat {
    stamp / SECOND
  }

  /** From the first regeneration on, instants ten minutes apart show different seconds. */
  ghost predicate SecondsDiffer(wall: nat -> nat, from: nat) {
    forall s: nat, t: nat :: from + INITIAL_DELAY <= s && s + TIME_TO_LIVE <= t ==>
      Seconds(wall(s)) != Seconds(wall(t))
  }

  /** Two successes with the same tag have the same value. */
  ghost predicate Strong<T, E>(served: seq<Answer<T, E>>) {
    forall i, j :: 0 <= i < |served| && 0 <= j < |served|
      && served[i].result.Ok? && served[j].result.Ok? && Seconds(served[i].stamp) == Seconds(served[j].stamp)
      ==> served[i].result == served[j].result
  }

  /** The earliest instant at which the next value can be made. */
  function Earliest<T, E>(c: State<T, E>, from: nat, born: nat): nat {
    if c.cached.result.Ok? then born + TIME_TO_LIVE else from + INITIAL_DELAY
  }

  /** The cached value was made at `born`; a new one is made ten minutes after a success. */
  ghost predicate Spaced<T, E>(c: State<T, E>, wall: nat -> nat, from: nat, born: nat) {
    && c.cached.creation == wall(born)
    && (c.cached.result.Ok? ==> from + INITIAL_DELAY <= born)
    && (c.timer.Some? ==> Earliest(c, from, born) <= c.timer.value)
    && (!c.work.Idle? ==> Earliest(c, from, born) <= c.now)
    && (c.work.Finished? && c.work.info.Some? ==>
          var info := c.work.info.value;
          && info.creation == wall(info.validation)
          && Earliest(c, from, born) <= info.validation <= c.now)
  }

  /** A served success is the cached value, or was made at least ten minutes before it. */
  ghost predicate Earlier<T, E>(c: State<T, E>, wall: nat -> nat, from: nat, born: nat, answer: Answer<T, E>) {
    || answer == Answer(c.cached.result, c.cached.creation)
    || exists s: nat :: from + INITIAL_DELAY <= s && s + TIME_TO_LIVE <= born && answer.stamp == wall(s)
  }

  ghost predicate Dated<T, E>(c: State<T, E>, wall: nat -> nat, from: nat, born: nat) {
    && Spaced(c, wall, from, born)
    && (forall i :: 0 <= i < |c.served| && c.served[i].result.Ok? ==>
          c.cached.result.Ok? && Earlier(c, wall, from, born, c.served[i]))
  }

  lemma StepKeepsSpacing<T, E>(c: State<T, E>, wall: nat -> nat, from: nat, at: nat, e: Event<T, E>, born: nat)
      returns (b: nat)
    requires OnePending(c) && Spaced(c, wall, from, born) && Step(c, wall, at, e).Moved?
    ensures Spaced(Step(c, wall, at, e).state, wall, from, b)
    ensures var cached := Step(c, wall, at, e).state.cached;
            || (cached.result == c.cached.result && cached.creation == c.cached.creation && b == born)
            || c.cached.result.Err?
            || (cached.result.Ok? && born + TIME_TO_LIVE <= b)
  {
    if e.New? {
      var latest := LatestInfo(c.work.info, wall, at);
      var kept := c.cached.result.Ok? && (latest.result.Err? || latest.result == c.cached.result);
      b := if kept then born else latest.validation;
    } else {
      b := born;
    }
  }

  lemma StepKeepsDates<T, E>(c: State<T, E>, wall: nat -> nat, from: nat, at: nat, e: Event<T, E>, born: nat)
      returns (b: nat)
    requires OnePending(c) && Dated(c, wall, from, born) && Step(c, wall, at, e).Moved?
    ensures Dated(Step(c, wall, at, e).state, wall, from, b)
  {
    b := StepKeepsSpacing(c, wall, from, at, e, born);
    var d := Step(c, wall, at, e).state;
    forall i | 0 <= i < |d.served| && d.served[i].result.Ok?
      ensures d.cached.result.Ok? && Earlier(d, wall, from, b, d.served[i])
    {
      if i < |c.served| {
        assert d.served[i] == c.served[i];
        assert Earlier(c, wall, from, born, c.served[i]);
        assert wall(born) == c.cached.creation;
      }
    }
  }

  lemma {:induction false} RunDated<T, E>(wall: nat -> nat, from: nat, states: seq<State<T, E>>, times: seq<nat>,
                                          events: seq<Event<T, E>>, n: nat) returns (born: nat)
    requires IsRun(wall, from, states, times, events) && n < |states|
    ensures Dated(states[n], wall, from, born)
  {
    if n == 0 {
      born := from;
    } else {
      var b := RunDated(wall, from, states, times, events, n - 1);
      RunPending(wall, from, states, times, events, n - 1);
      assert Step(states[n - 1], wall, times[n - 1], events[n - 1]) == Moved(states[n - 1 + 1]);
      born := StepKeepsDates(states[n - 1], wall, from, times[n - 1], events[n - 1], b);
    }
  }

  lemma ServedStrong<T, E>(c: State<T, E>, wall: nat -> nat, from: nat, born: nat, answer: Answer<T, E>)
    requires SecondsDiffer(wall, from) && Dated(c, wall, from, born)
    requires Earlier(c, wall, from, born, answer) && Seconds(answer.stamp) == Seconds(c.cached.creation)
    ensures answer == Answer(c.cached.result, c.cached.creation)
  {
  }

  lemma {:induction false} RunStrong<T, E>(wall: nat -> nat, from: nat, states: seq<State<T, E>>, times: seq<nat>,
                                           events: seq<Event<T, E>>, n: nat)
    requires IsRun(wall, from, states, times, events) && n < |states| && SecondsDiffer(wall, from)
    ensures Strong(states[n].served)
  {
    if n > 0 {
      RunStrong(wall, from, states, times, events, n - 1);
      var c := states[n - 1];
      assert Step(c, wall, times[n - 1], events[n - 1]) == Moved(states[n - 1 + 1]);
      var born := RunDated(wall, from, states, times, events, n - 1);
      forall i | 0 <= i < |c.served| && c.served[i].result.Ok?
        && Seconds(c.served[i].stamp) == Seconds(c.cached.creation)
        ensures c.served[i].result == c.cached.result
      {
        ServedStrong(c, wall, from, born, c.served[i]);
      }
    }
  }

  /** The timer fires, a regeneration succeeds, its value is stored, and someone gets it. */
  lemma ValueIsServed<T, E>(c: State<T, E>, wall: nat -> nat, at: nat, a: T)
      returns (d: State<T, E>, e: State<T, E>, f: State<T, E>, g: State<T, E>)
    requires c.open && c.work.Idle? && c.timer.Some? && c.now <= at && c.timer.value <= at
    requires c.cached.result != Ok(a)
    ensures Step(c, wall, at, Expired) == Moved(d) && Step(d, wall, at, Generated(Ok(a))) == Moved(e)
    ensures Step(e, wall, at, New) == Moved(f) && Step(f, wall, at, Get) == Moved(g)
    ensures g == State(true, at, Build(Ok(a), wall, at), Some(at + TIME_TO_LIVE), Idle,
                       c.served + [Answer(Ok(a), wall(at))])
  {
    d := c.(now := at, timer := None, work := Running);
    e := d.(work := Finished(Some(Build(Ok(a), wall, at))));
    f := e.(cached := Build(Ok(a), wall, at), work := Idle, timer := Some(at + TIME_TO_LIVE));
    g := f.(served := f.served + [Answer(Ok(a), wall(at))]);
  }

  /** Two equal seconds ten minutes apart are enough for one tag to be given to two values. */
  lemma ClashBreaksTags<T, E>(wall: nat -> nat, from: nat, s: nat, t: nat, a: T, b: T)
      returns (states: seq<State<T, E>>, times: seq<nat>, events: seq<Event<T, E>>)
    requires a != b && from + INITIAL_DELAY <= s && s + TIME_TO_LIVE <= t
    requires Seconds(wall(s)) == Seconds(wall(t))
    ensures IsRun(wall, from, states, times, events) && !Strong(states[|states| - 1].served)
  {
    var s0 := Start<T, E>(wall, from);
    var s1, s2, s3, s4 := ValueIsServed(s0, wall, s, a);
    var s5, s6, s7, s8 := ValueIsServed(s4, wall, t, b);
    states := [s0, s1, s2, s3, s4, s5, s6, s7, s8];
    times := [s, s, s, s, t, t, t, t];
    events := [Expired, Generated(Ok(a)), New, Get, Expired, Generated(Ok(b)), New, Get];
    assert s8.served == [Answer(Ok(a), wall(s)), Answer(Ok(b), wall(t))];
    assert s8.served[0].result != s8.served[1].result;
  }

  ghost predicate AlwaysStrong<T(!new), E(!new)>(wall: nat -> nat, from: nat) {
    forall states: seq<State<T, E>>, times, events :: IsRun(wall, from, states, times, events) ==>
      Strong(states[|states| - 1].served)
  }

  /**
    The whole-second tag is a strong validator on every run (section 8.8.1 of RFC 9110) exactly when
    the system clock never shows the same second again ten minutes later.
   */
  lemma TagsAreStrongExactly<T(!new), E(!new)>(wall: nat -> nat, from: nat, a: T, b: T)
    requires a != b
    ensures AlwaysStrong<T, E>(wall, from) <==> SecondsDiffer(wall, from)
  {
    if SecondsDiffer(wall, from) {
      forall states: seq<State<T, E>>, times, events | IsRun(wall, from, states, times, events)
        ensures Strong(states[|states| - 1].served)
      {
        RunStrong(wall, from, states, times, events, |states| - 1);
      }
    } else {
      var s: nat, t: nat :| from + INITIAL_DELAY <= s && s + TIME_TO_LIVE <= t && Seconds(wall(s)) == Seconds(wall(t));
      var states, times, events := ClashBreaksTags<T, E>(wall, from, s, t, a, b);
    }
  }

  /** A system clock that gains a second in any ten minutes is good enough; it need not be exact. */
  lemma SlewedClockIsEnough(wall: nat -> nat, from: nat)
    requires forall s: nat, t: nat :: s + TIME_TO_LIVE <= t ==> wall(s) + SECOND <= wall(t)
    ensures SecondsDiffer(wall, from)
  {
  }

  /** While the cached value stays the same, so does the time stamp, however often it is refreshed. */
  lemma {:induction false} RefreshKeepsStamp<T, E>(wall: nat -> nat, from: nat, states: seq<State<T, E>>,
                                                   times: seq<nat>, events: seq<Event<T, E>>, i: nat, j: nat)
    requires IsRun(wall, from, states, times, events) && i <= j < |states| && states[i].cached.result.Ok?
    requires forall k :: i <= k <= j ==> states[k].cached.result == states[i].cached.result
    ensures states[j].cached.creation == states[i].cached.creation
  {
    if i < j {
      RefreshKeepsStamp(wall, from, states, times, events, i, j - 1);
      assert Step(states[j - 1], wall, times[j - 1], events[j - 1]) == Moved(states[j - 1 + 1]);
    }
  }

  // ------------------------------------------------------------- conditional requests

  datatype IfNoneMatch = Any | Tags(tags: set<nat>)

  datatype Response<T> = Full(body: T, tag: nat) | NotModified(tag: nat)

  function Respond<T>(body: T, stamp: nat, condition: Option<IfNoneMatch>): Response<T> {
    var tag := Seconds(stamp);
    match condition
    case None => Full(body, tag)
    case Some(Any) => NotModified(tag)
    case Some(Tags(tags)) => if tag in tags then NotModified(tag) else Full(body, tag)
  }

  function TagOf<T>(r: Response<T>): nat {
    match r
    case Full(_, tag) => tag
    case NotModified(tag) => tag
  }

  /**
    Every response carries the whole second of the value's stamp as its tag; it has the value itself
    exactly if there is no condition, or one that lists tags and not this one.
   */
  lemma RespondExactly<T>(body: T, stamp: nat, condition: Option<IfNoneMatch>)
    ensures var r := Respond(body, stamp, condition);
            && TagOf(r) == stamp / 1_000_000_000
            && (r.Full? <==> condition.None? ||
                             (condition.value.Tags? && stamp / 1_000_000_000 !in condition.value.tags))
            && (r.Full? ==> r.body == body)
  {
  }

  /** The response is one that the values served in the run can give, under some condition. */
  ghost predicate IsAnswered<T, E>(served: seq<Answer<T, E>>, r: Response<T>) {
    exists i, condition ::
      0 <= i < |served| && served[i].result.Ok? && r == Respond(served[i].result.value, served[i].stamp, condition)
  }

  lemma FullIsOfServed<T, E>(served: seq<Answer<T, E>>, r: Response<T>) returns (i: nat)
    requires IsAnswered(served, r)
    ensures i < |served| && served[i].result.Ok? && TagOf(r) == Seconds(served[i].stamp)
    ensures r.Full? ==> r.body == served[i].result.value
  {
    var j, condition :| 0 <= j < |served| && served[j].result.Ok?
      && r == Respond(served[j].result.value, served[j].stamp, condition);
    i := j;
  }

  /** Full responses to any requests that carry one tag carry one value. */
  lemma OneTagOneValue<T, E>(wall: nat -> nat, from: nat, states: seq<State<T, E>>, times: seq<nat>,
                             events: seq<Event<T, E>>, n: nat, a: Response<T>, b: Response<T>)
    requires IsRun(wall, from, states, times, events) && n < |states| && SecondsDiffer(wall, from)
    requires IsAnswered(states[n].served, a) && IsAnswered(states[n].served, b)
    requires a.Full? && b.Full? && a.tag == b.tag
    ensures a.body == b.body
  {
    RunStrong(wall, from, states, times, events, n);
    var i := FullIsOfServed(states[n].served, a);
    var j := FullIsOfServed(states[n].served, b);
    assert states[n].served[i].result == states[n].served[j].result;
  }

  /**
    A client that repeats the tag of a full response, whatever it asked for that one with, and hears "not
    modified" holds the value that is served now.
   */
  lemma NotModifiedIsTrue<T, E>(wall: nat -> nat, from: nat, states: seq<State<T, E>>, times: seq<nat>,
                                events: seq<Event<T, E>>, n: nat, j: nat, held: Response<T>)
    requires IsRun(wall, from, states, times, events) && n < |states| && SecondsDiffer(wall, from)
    requires held.Full? && IsAnswered(states[n].served, held)
    requires j < |states[n].served| && states[n].served[j].result.Ok?
    requires Respond(states[n].served[j].result.value, states[n].served[j].stamp, Some(Tags({held.tag}))).NotModified?
    ensures held.body == states[n].served[j].result.value
  {
    RunStrong(wall, from, states, times, events, n);
    var i := FullIsOfServed(states[n].served, held);
    assert states[n].served[i].result == states[n].served[j].result;
  }
}
