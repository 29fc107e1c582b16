/**
  The guard that reports how an acquisition went, and the token that gives its permit back, as the
  objects they are: what they log is what `Limits.Events` says of the phases they pass through.
 */
module AcquireGuards {
  import opened Limits
  import opened Wrappers

  /** What waiting for a permit came to; `Dropped` is the whole future being dropped meanwhile. */
  datatype Awaited = Permit | Closed | Dropped

  class Lifecycle {
    var log: seq<Event>

    constructor ()
      ensures log == []
    {
      log := [];
    }
  }

  class Semaphore {
    var permits: nat

    constructor (permits: nat)
      ensures this.permits == permits
    {
      this.permits := permits;
    }
  }

  class AcquireGuard {
    const lifecycle: Lifecycle
    var how: Acquisition

    constructor Begin(lifecycle: Lifecycle)
      modifies lifecycle
      ensures this.lifecycle == lifecycle && how == Aborted
      ensures lifecycle.log == old(lifecycle.log) + [Start]
    {
      this.lifecycle := lifecycle;
      how := Aborted;
      new;
      lifecycle.log := lifecycle.log + [Start];
    }

    /** Consumes the guard, which is then dropped with the result recorded. */
    method Complete(acquired: bool)
      modifies this, lifecycle
      ensures how == (if acquired then Acquired else Error)
      ensures lifecycle.log == old(lifecycle.log) + [Outcome(how)]
    {
      how := if acquired then Acquired else Error;
      Drop();
    }

    method Drop()
      modifies lifecycle
      ensures lifecycle.log == old(lifecycle.log) + [Outcome(how)]
    {
      lifecycle.log := lifecycle.log + [Outcome(how)];
    }
  }

  class Token {
    const lifecycle: Lifecycle
    const semaphore: Semaphore

    constructor (lifecycle: Lifecycle, semaphore: Semaphore)
      ensures this.lifecycle == lifecycle && this.semaphore == semaphore
    {
      this.lifecycle := lifecycle;
      this.semaphore := semaphore;
    }

    /** `drop` runs before the fields are dropped, so the release is logged first. */
    method Drop()
      modifies lifecycle, semaphore
      ensures lifecycle.log == old(lifecycle.log) + [Release]
      ensures semaphore.permits == old(semaphore.permits) + 1
    {
      lifecycle.log := lifecycle.log + [Release];
      semaphore.permits := semaphore.permits + 1;
    }
  }

  /** Where a task is after a wait with this outcome. */
  function Reached(awaited: Awaited): Phase {
    match awaited
    case Permit => Tracked
    case Closed => Ended(Some(Error))
    case Dropped => Ended(Some(Aborted))
  }

  /** How the task ends that does nothing with its token but drop it. */
  function How(awaited: Awaited): Acquisition {
    match awaited
    case Permit => Acquired
    case Closed => Error
    case Dropped => Aborted
  }

  /** Waits while other tasks give back `returned` permits; a permit that is granted is taken. */
  method AwaitPermit(semaphore: Semaphore) returns (awaited: Awaited, ghost returned: nat)
    modifies semaphore
    ensures semaphore.permits + One(awaited.Permit?) == old(semaphore.permits) + returned
  {
    var others: nat :| 0 <= others;
    returned := others;
    semaphore.permits := semaphore.permits + others;
    awaited := *;
    if awaited.Permit? && semaphore.permits == 0 {
      awaited := Dropped;
    }
    if awaited.Permit? {
      semaphore.permits := semaphore.permits - 1;
    }
  }

  /**
    One acquisition from its first poll, whatever the wait for the semaphore comes to. A container
    that finds no permit asks for one back; every permit is in the semaphore or in the token.
   */
  method NextPermit(lifecycle: Lifecycle, semaphore: Semaphore, requests: Semaphore, tries: bool)
      returns (token: Option<Token>, awaited: Awaited, ghost returned: nat)
    requires semaphore != requests
    modifies lifecycle, semaphore, requests
    ensures token.Some? <==> awaited.Permit?
    ensures token.Some? ==> token.value.lifecycle == lifecycle && token.value.semaphore == semaphore
    ensures lifecycle.log == old(lifecycle.log) + Events(Reached(awaited))
    ensures lifecycle.log == old(lifecycle.log) + match awaited
                                                  case Permit => [Start, Outcome(Acquired)]
                                                  case Closed => [Start, Outcome(Error)]
                                                  case Dropped => [Start, Outcome(Aborted)]
    ensures semaphore.permits + One(token.Some?) == old(semaphore.permits) + returned
    ensures tries && old(semaphore.permits) > 0 ==> token.Some? && returned == 0
    ensures requests.permits == old(requests.permits) + One(tries && old(semaphore.permits) == 0)
  {
    var guard := new AcquireGuard.Begin(lifecycle);
    if tries && semaphore.permits > 0 {
      semaphore.permits := semaphore.permits - 1;
      awaited, returned := Permit, 0;
    } else {
      if tries {
        requests.permits := requests.permits + 1;
      }
      awaited, returned := AwaitPermit(semaphore);
    }
    if awaited.Dropped? {
      guard.Drop();
      return None, awaited, returned;
    }
    guard.Complete(awaited.Permit?);
    if awaited.Closed? {
      return None, awaited, returned;
    }
    var held := new Token(lifecycle, semaphore);
    token := Some(held);
  }

  /**
    An acquisition and the drop of what it gave, whatever the wait came to: one complete history is
    logged, with a release exactly for a token, and the semaphore has lost no permit.
   */
  method AcquireAndDrop(lifecycle: Lifecycle, semaphore: Semaphore, requests: Semaphore, tries: bool)
      returns (how: Acquisition, ghost returned: nat)
    requires semaphore != requests
    modifies lifecycle, semaphore, requests
    ensures lifecycle.log == old(lifecycle.log) + Events(Ended(Some(how)))
    ensures semaphore.permits == old(semaphore.permits) + returned
    ensures tries && old(semaphore.permits) > 0 ==> how == Acquired
    ensures requests.permits == old(requests.permits) + One(tries && old(semaphore.permits) == 0)
  {
    var token, awaited;
    token, awaited, returned := NextPermit(lifecycle, semaphore, requests, tries);
    how := How(awaited);
    if token.Some? {
      token.value.Drop();
      assert Events(Tracked) + [Release] == Events(Ended(Some(Acquired)));
    }
  }
}
