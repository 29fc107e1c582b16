/** The body of the loop of `Commander::demultiplex`, over its two maps of listeners. */
module Demultiplexer {
  import opened Protocol
  import opened JobSteps

  /** Both halves of the channel from the demultiplexer to one listener. */
  class Mailbox {
    var queue: seq<WorkerMessage>
    var open: bool

    /** Waits for room unless the receiver is gone; here, the state in which the wait is over. */
    method Send(m: WorkerMessage)
      requires !open || |queue| < CHANNEL_CAPACITY
      modifies this
      ensures open == old(open)
      ensures queue == if open then old(queue) + [m] else old(queue)
    {
      if open {
        queue := queue + [m];
      }
    }
  }

  class Demultiplexer {
    var waiting: map<JobId, Mailbox>
    var waitingOnce: map<JobId, Mailbox>

    /** This object and `box` are what the view of job `id` describes. */
    ghost predicate Shows(id: JobId, box: Mailbox, v: View)
      reads this, box
    {
      && (id in waiting <==> v.waiting)
      && (id in waitingOnce <==> v.waitingOnce)
      && (id in waiting ==> waiting[id] == box)
      && (id in waitingOnce ==> waitingOnce[id] == box)
      && box.queue == v.job.listener.inbox
      && box.open == v.job.listener.inboxOpen
    }

    method HandleCommand(id: JobId, command: DemultiplexCommand, waiter: Mailbox, ghost v: View)
      returns (duplicate: bool)
      requires Shows(id, waiter, v) && v.commands != [] && v.commands[0] == command
      modifies this
      ensures var e := PerformDemultiplexer(v, Register).value;
              && Shows(id, waiter, After(v, e))
              && e.job.listener.duplicate == (v.job.listener.duplicate || duplicate)
      ensures forall other :: other != id ==>
                && (other in waiting <==> other in old(waiting))
                && (other in waitingOnce <==> other in old(waitingOnce))
      ensures forall other :: other != id && other in waiting ==> waiting[other] == old(waiting)[other]
      ensures forall other :: other != id && other in waitingOnce ==> waitingOnce[other] == old(waitingOnce)[other]
    {
      match command
      case Listen =>
        duplicate := id in waiting;
        waiting := waiting[id := waiter];
      case ListenOnce =>
        duplicate := id in waitingOnce;
        waitingOnce := waitingOnce[id := waiter];
    }

    /** Hands a worker's message to its listener; `heard` is false when there is none. */
    method HandleMessage(id: JobId, m: WorkerMessage, box: Mailbox, ghost v: View) returns (heard: bool)
      requires Shows(id, box, v) && v.messages != [] && v.messages[0] == m
      requires v.waitingOnce ==> !box.open || |box.queue| < CHANNEL_CAPACITY
      requires PerformDemultiplexer(v, Deliver).Some?
      modifies this, box
      ensures Shows(id, box, After(v, PerformDemultiplexer(v, Deliver).value))
      ensures waiting == old(waiting) && waitingOnce == old(waitingOnce) - {id}
      ensures heard <==> id in old(waiting) || id in old(waitingOnce)
    {
      if id in waitingOnce {
        var waiter := waitingOnce[id];
        waitingOnce := waitingOnce - {id};
        waiter.Send(m);
        return true;
      }
      if id in waiting {
        var waiter := waiting[id];
        waiter.Send(m);
        return true;
      }
      return false;
    }

    /** Clears out the sending halves whose receivers have been dropped. */
    method CollectGarbage()
      modifies this
      ensures waiting == map id | id in old(waiting) && old(waiting)[id].open :: old(waiting)[id]
      ensures waitingOnce == map id | id in old(waitingOnce) && old(waitingOnce)[id].open :: old(waitingOnce)[id]
    {
      waiting := Retain(waiting);
      waitingOnce := Retain(waitingOnce);
    }

    /** `HashMap::retain` with the test that the receiver is still there. */
    static method Retain(listeners: map<JobId, Mailbox>) returns (kept: map<JobId, Mailbox>)
      ensures kept == map id | id in listeners && listeners[id].open :: listeners[id]
    {
      kept := map[];
      var ids := listeners.Keys;
      while ids != {}
        invariant ids <= listeners.Keys
        invariant kept == map id | id in listeners.Keys - ids && listeners[id].open :: listeners[id]
        decreases |ids|
      {
        var id :| id in ids;
        ids := ids - {id};
        if listeners[id].open {
          kept := kept[id := listeners[id]];
        }
      }
    }
  }
}
