/** The two queueing loops of the websocket server. */
module Queues {
  import opened BlockNodes

  // --------------------------------------------------------- queue handler

  /** Reads from one channel and sends the oldest unsent item to another.  A send case is enabled when
      its channel variable is set: `dequeue` for the head of the queue, `skipQueue` for passing an
      item on directly. */
  class QueueHandler<T(==)> {
    var q: seq<T>
    var dequeue: bool
    var skipQueue: bool
    var next: Option<T>
    ghost var received: seq<T>
    ghost var sent: seq<T>

    /** What was sent, followed by what is queued, is what was received; the channel variables say
        whether the queue is empty, and `next` is its head. */
    ghost predicate Valid()
      reads this
    {
      && sent + q == received
      && (dequeue <==> q != [])
      && (skipQueue <==> q == [])
      && (q != [] ==> next == Some(q[0]))
    }

    constructor ()
      ensures Valid() && received == [] && sent == []
    {
      q, dequeue, skipQueue, next := [], false, true, None;
      received, sent := [], [];
    }

    /** An item arrives.  It is passed on at once when nothing is queued and the reader is ready. */
    method Receive(n: T, readerReady: bool)
      requires Valid()
      modifies this
      ensures Valid() && received == old(received) + [n]
      ensures sent == if old(q) == [] && readerReady then old(sent) + [n] else old(sent)
    {
      received := received + [n];
      if skipQueue && readerReady {
        sent := sent + [n];
      } else {
        q := q + [n];
        dequeue := true;
        skipQueue := false;
        next := Some(q[0]);
      }
    }

    /** The reader takes an item through the enabled send case. */
    method Deliver() returns (item: T)
      requires Valid() && dequeue
      modifies this
      ensures Valid() && received == old(received) && sent == old(sent) + [item]
    {
      item := next.value;
      sent := sent + [item];
      q := q[1..];
      if q == [] {
        dequeue := false;
        skipQueue := true;
      } else {
        next := Some(q[0]);
      }
    }
  }

  datatype QueueStep<T> = In(item: T, readerReady: bool) | Out

  function Inputs<T>(steps: seq<QueueStep<T>>): seq<T> {
    if steps == [] then []
    else Inputs(steps[..|steps| - 1]) + if steps[|steps| - 1].In? then [steps[|steps| - 1].item] else []
  }

  /** Any run of the loop: the items that came out, followed by those still queued, are the items that
      went in, in order. */
  method RunQueue<T(==)>(steps: seq<QueueStep<T>>) returns (outputs: seq<T>, left: seq<T>)
    ensures outputs + left == Inputs(steps)
  {
    var h := new QueueHandler<T>();
    outputs := [];
    var i := 0;
    while i < |steps|
      invariant 0 <= i <= |steps| && h.Valid() && fresh(h)
      invariant h.received == Inputs(steps[..i]) && outputs == h.sent
    {
      assert steps[..i + 1][..i] == steps[..i];
      match steps[i] {
        case In(item, ready) =>
          if h.q == [] && ready {
            outputs := outputs + [item];
          }
          h.Receive(item, ready);
        case Out =>
          if h.dequeue {
            var item := h.Deliver();
            outputs := outputs + [item];
          }
      }
      i := i + 1;
    }
    assert steps[..i] == steps;
    left := h.q;
  }

  // ---------------------------------------------------- notification queue

  type Message = string

  /** A message for the socket; `notify` when the notification queue waits to hear that it was sent. */
  datatype Response = Response(msg: Message, notify: bool)

  /** The notifications among the messages, in order. */
  function Notifications(s: seq<Response>): seq<Message> {
    if s == [] then [] else (if s[0].notify then [s[0].msg] else []) + Notifications(s[1..])
  }

  lemma {:induction false} NotificationsAppend(s: seq<Response>, r: Response)
    ensures Notifications(s + [r]) == Notifications(s) + if r.notify then [r.msg] else []
  {
    hide Notifications;
    NotificationsStep(s);
    NotificationsStep(s + [r]);
    if s == [] {
      assert (s + [r])[1..] == s;
    } else {
      assert (s + [r])[1..] == s[1..] + [r];
      NotificationsAppend(s[1..], r);
    }
  }

  lemma NotificationsStep(s: seq<Response>)
    ensures Notifications(s) ==
            if s == [] then [] else (if s[0].notify then [s[0].msg] else []) + Notifications(s[1..])
  {
  }

  /** A websocket client: the goroutine that queues notifications, the one that writes to the socket,
      and the channels between them. */
  class Client {
    var pendingNtfns: seq<Message>
    var waiting: bool
    var ntfnSentChan: seq<bool>               // a channel with one slot
    var sendChan: seq<Response>
    var inHand: Option<Response>              // taken by the writer and not written yet
    var writing: bool                         // the writer has not started to drain
    var disconnected: bool
    ghost var accepted: seq<Message>          // notifications taken in
    ghost var handed: seq<Message>            // notifications handed to SendMessage
    ghost var written: seq<Message>           // notifications written to the socket
    ghost var lost: bool                      // the write of a notification failed

    /** The notifications on their way to the socket. */
    ghost function InFlight(): seq<Message>
      reads this
    {
      (if inHand.Some? && inHand.value.notify then [inHand.value.msg] else []) + Notifications(sendChan)
    }

    /** Notifications leave in the order they came; while one is awaited there is exactly one token for
        it: in flight, in the one-slot channel, or lost with a failed write. */
    ghost predicate Valid()
      reads this
    {
      && handed + pendingNtfns == accepted
      && |ntfnSentChan| + |InFlight()| + (if lost then 1 else 0) == (if waiting then 1 else 0)
      && (!waiting ==> pendingNtfns == [])
      && (!disconnected ==> written + InFlight() + pendingNtfns == accepted)
      && (lost ==> disconnected) && (!writing ==> disconnected && inHand.None?)
    }

    constructor ()
      ensures Valid() && accepted == []
    {
      pendingNtfns, waiting, ntfnSentChan, sendChan := [], false, [], [];
      inHand, writing, disconnected := None, true, false;
      accepted, handed, written, lost := [], [], [], false;
    }

    /** Sends a notification to the writer, or answers at once when the client is seen disconnected.
        The answer never finds the channel full. */
    method SendNotification(msg: Message, seen: bool)
      requires seen ==> disconnected
      requires ntfnSentChan == [] && InFlight() == [] && !lost
      modifies `ntfnSentChan, `sendChan, `handed
      ensures handed == old(handed) + [msg]
      ensures if seen then ntfnSentChan == [false] && sendChan == old(sendChan)
              else ntfnSentChan == [] && sendChan == old(sendChan) + [Response(msg, true)]
      ensures InFlight() == if seen then [] else [msg]
    {
      NotificationsAppend(sendChan, Response(msg, true));
      handed := handed + [msg];
      if seen {
        ntfnSentChan := ntfnSentChan + [false];
      } else {
        sendChan := sendChan + [Response(msg, true)];
      }
    }

    /** A notification arrives at the queue. */
    method Accept(msg: Message, seen: bool)
      requires Valid() && (seen ==> disconnected)
      modifies this
      ensures Valid() && accepted == old(accepted) + [msg] && waiting
      ensures old(waiting) ==> unchanged(`ntfnSentChan, `sendChan, `handed)
    {
      hide Notifications;
      accepted := accepted + [msg];
      if waiting {
        pendingNtfns := pendingNtfns + [msg];
        assert written + InFlight() + pendingNtfns == written + InFlight() + old(pendingNtfns) + [msg];
        return;
      }
      SendNotification(msg, seen);
      waiting := true;
    }

    /** The queue hears that the notification on its way was dealt with. */
    method Acknowledge(seen: bool)
      requires Valid() && ntfnSentChan != [] && (seen ==> disconnected)
      modifies this
      ensures Valid() && accepted == old(accepted)
      ensures waiting <==> old(pendingNtfns) != []
    {
      hide Notifications;
      ntfnSentChan := ntfnSentChan[1..];
      if pendingNtfns == [] {
        waiting := false;
        return;
      }
      var msg := pendingNtfns[0];
      pendingNtfns := pendingNtfns[1..];
      SendNotification(msg, seen);
    }

    /** Another goroutine sends a message that nobody waits for. */
    method Reply(msg: Message)
      requires Valid()
      modifies `sendChan
      ensures Valid() && sendChan == old(sendChan) + [Response(msg, false)]
    {
      NotificationsAppend(sendChan, Response(msg, false));
      sendChan := sendChan + [Response(msg, false)];
    }

    /** The writer takes the next message. */
    method Take()
      requires Valid() && writing && inHand.None? && sendChan != []
      modifies `sendChan, `inHand
      ensures Valid() && inHand == Some(old(sendChan[0])) && sendChan == old(sendChan)[1..]
    {
      inHand, sendChan := Some(sendChan[0]), sendChan[1..];
    }

    /** The message is written; the queue is told, and the channel has room for it. */
    method Written()
      requires Valid() && inHand.Some?
      modifies `inHand, `ntfnSentChan, `written
      ensures Valid() && inHand.None?
      ensures old(inHand).value.notify ==> old(ntfnSentChan) == [] && ntfnSentChan == [true]
                                           && written == old(written) + [old(inHand).value.msg]
    {
      if inHand.value.notify {
        written := written + [inHand.value.msg];
        ntfnSentChan := ntfnSentChan + [true];
      }
      inHand := None;
    }

    /** The write fails: the client is disconnected and the writer stops. */
    method WriteFails()
      requires Valid() && inHand.Some?
      modifies `inHand, `disconnected, `writing, `lost
      ensures Valid() && disconnected && !writing
    {
      lost := lost || inHand.value.notify;
      disconnected, writing, inHand := true, false, None;
    }

    /** The client is disconnected from elsewhere. */
    method Disconnect()
      requires Valid()
      modifies `disconnected
      ensures Valid() && disconnected
    {
      disconnected := true;
    }

    /** The writer, between two messages, notices that the client quit. */
    method StopWriting()
      requires Valid() && disconnected && inHand.None?
      modifies `writing
      ensures Valid() && !writing
    {
      writing := false;
    }

    /** The stopped writer drains a message; whoever waits for it is told, and the channel has room. */
    method Drain()
      requires Valid() && !writing && sendChan != []
      modifies `sendChan, `ntfnSentChan
      ensures Valid() && sendChan == old(sendChan)[1..]
      ensures old(sendChan[0]).notify ==> old(ntfnSentChan) == [] && ntfnSentChan == [false]
    {
      if sendChan[0].notify {
        ntfnSentChan := ntfnSentChan + [false];
      }
      sendChan := sendChan[1..];
    }
  }

  /** In every reachable state at most one notification is on its way and the done channel holds at
      most one token; until the client is disconnected, the notifications written are those that came
      first, in order. */
  lemma Delivery(c: Client)
    requires c.Valid()
    ensures |c.InFlight()| <= 1 && |c.ntfnSentChan| <= 1
    ensures c.handed <= c.accepted
    ensures !c.disconnected ==> c.written <= c.accepted
    ensures !c.disconnected && !c.waiting ==> c.written == c.accepted
  {
    assert c.written + c.InFlight() + c.pendingNtfns == c.written + (c.InFlight() + c.pendingNtfns);
  }

  datatype ClientStep =
    | Arrives(msg: Message, seen: bool)
    | IsAcknowledged(seen: bool)
    | Replies(msg: Message)
    | WriterTakes
    | WriteSucceeds
    | WriteBreaks
    | Leaves
    | WriterStops
    | WriterDrains

  /** Every interleaving of the queue, the writer and other senders. */
  method RunClient(c: Client, steps: seq<ClientStep>)
    requires c.Valid()
    modifies c
    ensures c.Valid()
  {
    var i := 0;
    while i < |steps|
      invariant 0 <= i <= |steps| && c.Valid()
    {
      StepClient(c, steps[i]);
      i := i + 1;
    }
  }

  /** One step, if it is enabled. */
  method StepClient(c: Client, step: ClientStep)
    requires c.Valid()
    modifies c
    ensures c.Valid()
  {
    hide Notifications;
    match step {
      case Arrives(msg, seen) => c.Accept(msg, seen && c.disconnected);
      case IsAcknowledged(seen) =>
        if c.ntfnSentChan != [] {
          c.Acknowledge(seen && c.disconnected);
        }
      case Replies(msg) => c.Reply(msg);
      case WriterTakes =>
        if c.writing && c.inHand.None? && c.sendChan != [] {
          c.Take();
        }
      case WriteSucceeds =>
        if c.inHand.Some? {
          c.Written();
        }
      case WriteBreaks =>
        if c.inHand.Some? {
          c.WriteFails();
        }
      case Leaves => c.Disconnect();
      case WriterStops =>
        if c.disconnected && c.inHand.None? {
          c.StopWriting();
        }
      case WriterDrains =>
        if !c.writing && c.sendChan != [] {
          c.Drain();
        }
    }
  }
}
