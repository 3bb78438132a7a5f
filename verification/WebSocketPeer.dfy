/** What the connector makes of the messages a peer sends: the run theorems in the
    peer's terms. */
module WebSocketPeer {
  import opened Wrappers
  import opened Wire
  import opened WebSocketFrame
  import opened WebSocketEvents
  import opened WebSocketReassembly
  import opened WebSocketSession

  /** What a peer sends: a data message, in fragments with PINGs between them, or a PONG
      between messages. */
  datatype Sending = DataMessage(op: nat, items: seq<Item>) | PongFrame(data: bytes, key: Key)

  /** Every sending fits the limits. */
  predicate AllSendable(ms: seq<Sending>, lim: Limits) {
    forall i :: 0 <= i < |ms| ==>
      match ms[i]
      case DataMessage(op, items) => IsData(op) && Sendable(items, lim) && |Content(items)| <= lim.maxMessage
      case PongFrame(data, _) => |data| <= MAX_CONTROL && |data| <= lim.maxFrame
  }

  /** The bytes of the sendings, one after the other. */
  function StreamOf(ms: seq<Sending>, lim: Limits): bytes
    requires AllSendable(ms, lim)
  {
    if ms == [] then []
    else
      (match ms[0]
       case DataMessage(op, items) => Bytes(items, false, op, lim)
       case PongFrame(data, key) => WireFrame(true, OP_PONG, data, key))
      + StreamOf(ms[1..], lim)
  }

  /** The messages among them, whole. */
  function EventsOf(ms: seq<Sending>): seq<Event> {
    if ms == [] then []
    else (if ms[0].DataMessage? then [Message(ms[0].op, Content(ms[0].items))] else []) + EventsOf(ms[1..])
  }

  lemma FirstSending(ms: seq<Sending>, lim: Limits, tail: bytes, sends: nat, autoPong: bool, ending: Ending)
    requires AllSendable(ms, lim) && ms != []
    requires ms[0].DataMessage? && autoPong ==> |PongsFor(ms[0].items)| <= sends
    ensures var x := Receive(StreamOf(ms, lim) + tail, sends, autoPong, lim, ending, None, []);
            && x.rest == StreamOf(ms[1..], lim) + tail
            && x.event == Ok(if ms[0].DataMessage? then Message(ms[0].op, Content(ms[0].items)) else Pong(ms[0].data))
  {
    hide ParseFrame, WireFrame, Bytes, Sendable;
    var rest := StreamOf(ms[1..], lim) + tail;
    match ms[0]
    case DataMessage(op, items) =>
      assert StreamOf(ms, lim) + tail == Bytes(items, false, op, lim) + rest;
      FragmentedRoundTrip(items, op, lim, rest, sends, autoPong, ending);
    case PongFrame(data, key) =>
      assert StreamOf(ms, lim) + tail == WireFrame(true, OP_PONG, data, key) + rest;
      FrameRoundTrip(true, OP_PONG, data, key, rest, lim.maxFrame);
      ReceiveFrame(WireFrame(true, OP_PONG, data, key) + rest, Frame(true, OP_PONG, |key| == 4, data), rest,
                   sends, autoPong, lim, ending, None, []);
  }

  /** The messages a link brings are the messages the peer sends, whole and in order. */
  lemma {:induction false} MessagesOfStream(ms: seq<Sending>, lim: Limits, tail: bytes)
    requires AllSendable(ms, lim) && Lawful(ReaderFor(lim))
    ensures Messages(ReaderFor(lim), StreamOf(ms, lim) + tail) == EventsOf(ms) + Messages(ReaderFor(lim), tail)
    decreases |ms|
  {
    hide StreamOf, Receive, Lawful;
    var rx := ReaderFor(lim);
    if ms == [] {
      EmptyStream(lim, tail);
      assert [] + Messages(rx, tail) == Messages(rx, tail);
    } else {
      FirstSending(ms, lim, tail, 0, false, Closed);
      MessagesOfStream(ms[1..], lim, tail);
      assert rx(StreamOf(ms, lim) + tail, 0, false, Closed)
          == Receive(StreamOf(ms, lim) + tail, 0, false, lim, Closed, None, []);
      var first := if ms[0].DataMessage? then [Message(ms[0].op, Content(ms[0].items))] else [];
      assert first + (EventsOf(ms[1..]) + Messages(rx, tail)) == first + EventsOf(ms[1..]) + Messages(rx, tail);
    }
  }

  lemma EmptyStream(lim: Limits, tail: bytes)
    ensures StreamOf([], lim) + tail == tail
  {
  }

  /** Over every run of requests from a disconnected start that ends with a link: when the
      peer has sent `ms` on it, the messages delivered, then those queued, then those still to be
      read are exactly the messages of `ms`, in order unless an EXCHANGE ran. */
  lemma PeerLosesNothing(lim: Limits, dials: seq<Dial>, calls: seq<Call>, ms: seq<Sending>)
    requires AllSendable(ms, lim)
    requires var st := Run(ReaderFor(lim), State(DROPPED, dials, [], false), calls);
             st.session.link.Some? && st.session.link.value.origin == StreamOf(ms, lim)
    ensures var st := Run(ReaderFor(lim), State(DROPPED, dials, [], false), calls);
            && Lawful(ReaderFor(lim))
            && var unread := Messages(ReaderFor(lim), st.session.link.value.pending);
               && multiset(st.delivered) + multiset(st.session.queue) + multiset(unread) == multiset(EventsOf(ms))
               && (!st.exchanged ==> st.delivered + st.session.queue + unread == EventsOf(ms))
  {
    hide Run, Lawful, StreamOf;
    NothingLost(lim, dials, calls);
    MessagesOfStream(ms, lim, []);
    NothingToRead(lim);
    assert StreamOf(ms, lim) + [] == StreamOf(ms, lim) && EventsOf(ms) + [] == EventsOf(ms);
  }

  lemma NothingToRead(lim: Limits)
    requires Lawful(ReaderFor(lim))
    ensures Messages(ReaderFor(lim), []) == []
  {
    assert ReaderFor(lim)([], 0, false, Closed) == Receive([], 0, false, lim, Closed, None, []);
  }

  // ----- PING ----------------------------------------------------------------------------------

  /** A CLOSE from the peer. */
  function CloseFrame(): bytes {
    WireFrame(true, OP_CLOSE, [], [])
  }

  lemma CloseIsRead(lim: Limits, sends: nat, autoPong: bool, ending: Ending)
    requires lim.maxFrame >= 0
    ensures var x := Receive(CloseFrame(), sends, autoPong, lim, ending, None, []);
            x.event == Ok(Close(None, None)) && x.rest == [] && |x.replies| <= 1
  {
    hide ParseFrame, WireFrame;
    assert CloseFrame() + [] == CloseFrame();
    FrameRoundTrip(true, OP_CLOSE, [], [], [], lim.maxFrame);
    ReceiveFrame(CloseFrame(), Frame(true, OP_CLOSE, false, []), [], sends, autoPong, lim, ending, None, []);
  }

  /** The condition matters. A peer sends a message and then a CLOSE, and never answers the
      PING: whatever the deadline, the message, which the link brings, is lost. */
  lemma PingLosesMessage(lim: Limits, m: Sending, p: bytes, turns: nat, opt: Options, sends: nat, ending: Ending)
    requires AllSendable([m], lim) && m.DataMessage? && lim.maxFrame >= 0
    requires |p| <= MAX_CONTROL && sends > |PongsFor(m.items)|
    ensures var brought := StreamOf([m], lim) + CloseFrame();
            var link := Link(brought, brought, sends, ending);
            var st := State(Session(Some(link), []), [], [], false);
            var after := Serve(ReaderFor(lim), st, Call(Ping(p, turns), opt, false, 0));
            && Lawful(ReaderFor(lim)) && Sound(ReaderFor(lim), st)
            && Messages(ReaderFor(lim), brought) == EventsOf([m])
            && after.session == DROPPED && after.delivered == []
  {
    hide StreamOf, Receive, CloseFrame, Lawful, Messages, Handle, AwaitPong, Request;
    ReceiveIsLawful(lim);
    var rx := ReaderFor(lim);
    var brought := StreamOf([m], lim) + CloseFrame();
    var link := Link(brought, brought, sends, ending);
    var st := State(Session(Some(link), []), [], [], false);
    MessagesOfStream([m], lim, CloseFrame());
    NothingAfterClose(lim);
    assert EventsOf([m]) + [] == EventsOf([m]);
    assert StreamOf([], lim) + CloseFrame() == CloseFrame() by { EmptyStream(lim, CloseFrame()); }
    FirstSending([m], lim, CloseFrame(), sends - 1, opt.autoPong, ending);
    var one := AfterReading(Spend(link), Read(rx, Spend(link), opt));
    CloseIsRead(lim, one.sendsLeft, opt.autoPong, ending);
    assert turns > 0 ==> !PongComes(rx, one, turns - 1, opt);
    assert !PongComes(rx, Spend(link), turns, opt);
    LinkKeptExactly(rx, st, Call(Ping(p, turns), opt, false, 0));
    assert [] + [] + Messages(rx, brought) == Messages(rx, brought);
  }

  lemma NothingAfterClose(lim: Limits)
    requires lim.maxFrame >= 0 && Lawful(ReaderFor(lim))
    ensures Messages(ReaderFor(lim), CloseFrame()) == []
  {
    hide Receive, CloseFrame, Lawful;
    CloseIsRead(lim, 0, false, Closed);
    assert ReaderFor(lim)(CloseFrame(), 0, false, Closed) == Receive(CloseFrame(), 0, false, lim, Closed, None, []);
  }

  // ----- EXCHANGE ----------------------------------------------------------------------------

  /** A peer that sends `m` then `n`: with `m` queued, EXCHANGE hands over `n`, and the next
      RECV hands over `m`. */
  lemma ExchangeOvertakes(lim: Limits, m: Sending, n: Sending, link: Link, op: nat, p: bytes, opt: Options)
    requires AllSendable([n], lim) && m.DataMessage? && n.DataMessage?
    requires |p| <= opt.maxMessage && link.sendsLeft > |PongsFor(n.items)|
    requires link.pending == StreamOf([n], lim)
    ensures var queued, next := EventsOf([m]), EventsOf([n]);
            var h := Handle(ReaderFor(lim), link, queued, Exchange(op, p), opt);
            && h.session.link.Some?
            && DeliveredBy(h.result) == next
            && DeliveredBy(Handle(ReaderFor(lim), h.session.link.value, h.session.queue, Recv(true), opt).result) ==
                queued
  {
    hide StreamOf, Receive;
    assert StreamOf([n], lim) + [] == StreamOf([n], lim);
    FirstSending([n], lim, [], link.sendsLeft - 1, opt.autoPong, link.ending);
  }

  /** A queue that a peer can bring about. */
  ghost predicate Receivable(queue: seq<Event>, lim: Limits) {
    exists ms :: AllSendable(ms, lim) && EventsOf(ms) == queue
  }

  lemma QueuesMessages(queue: seq<Event>, lim: Limits)
    requires Receivable(queue, lim)
    ensures forall i :: 0 <= i < |queue| ==> queue[i].Message?
  {
    var ms :| AllSendable(ms, lim) && EventsOf(ms) == queue;
    OnlyMessages(ms);
  }

  lemma {:induction false} OnlyMessages(ms: seq<Sending>)
    ensures forall i :: 0 <= i < |EventsOf(ms)| ==> EventsOf(ms)[i].Message?
  {
    if ms != [] {
      OnlyMessages(ms[1..]);
    }
  }

  /** EXCHANGE keeps the order of what is handed over on this link. */
  ghost predicate KeepsOrder(rx: Reader, link: Link, queue: seq<Event>, op: nat, p: bytes, opt: Options,
                             delivered: seq<Event>)
    requires Lawful(rx)
  {
    var h := Handle(rx, link, queue, Exchange(op, p), opt);
    InOrder(rx, Session(Some(link), queue), delivered) && Keeps(h.result) ==>
      InOrder(rx, h.session, delivered + DeliveredBy(h.result))
  }

  /** What a caller can rely on without knowing what comes next: EXCHANGE keeps the order
      on every link if and only if the queue is empty. */
  lemma ExchangeSafeExactly(lim: Limits, queue: seq<Event>, op: nat, p: bytes, opt: Options)
    requires lim.maxFrame >= 0 && lim.maxMessage >= 0 && |p| <= opt.maxMessage
    requires Receivable(queue, lim)
    ensures Lawful(ReaderFor(lim))
    ensures (forall link, delivered :: KeepsOrder(ReaderFor(lim), link, queue, op, p, opt, delivered)) <==> queue == []
  {
    hide Lawful, Messages, Receive, Handle;
    ReceiveIsLawful(lim);
    QueuesMessages(queue, lim);
    var rx := ReaderFor(lim);
    if queue == [] {
      forall link, delivered ensures KeepsOrder(rx, link, queue, op, p, opt, delivered) {
        var h := Handle(rx, link, queue, Exchange(op, p), opt);
        if InOrder(rx, Session(Some(link), queue), delivered) && Keeps(h.result) {
          ExchangeOrder(rx, link, queue, op, p, opt, delivered);
        }
      }
    } else {
      var link := OvertakingLink(lim, queue, op, p, opt);
      ExchangeOrder(rx, link, queue, op, p, opt, []);
      assert !KeepsOrder(rx, link, queue, op, p, opt, []);
    }
  }

  /** A link that brings the queue and then an empty message of the other type. */
  lemma OvertakingLink(lim: Limits, queue: seq<Event>, op: nat, p: bytes, opt: Options) returns (link: Link)
    requires lim.maxFrame >= 0 && lim.maxMessage >= 0 && |p| <= opt.maxMessage
    requires Receivable(queue, lim) && queue != [] && Lawful(ReaderFor(lim)) && queue[0].Message?
    ensures InOrder(ReaderFor(lim), Session(Some(link), queue), [])
    ensures Keeps(Handle(ReaderFor(lim), link, queue, Exchange(op, p), opt).result)
    ensures !OvertakesNothing(ReaderFor(lim), link, queue)
  {
    hide Lawful, Messages, StreamOf, Receive, EventsOf;
    var rx := ReaderFor(lim);
    var ms :| AllSendable(ms, lim) && EventsOf(ms) == queue;
    var n := DataMessage(if queue[0].opcode == OP_TEXT then OP_BIN else OP_TEXT, [Fragment([], [])]);
    var last := StreamOf([n], lim);
    link := Link(StreamOf(ms, lim) + last, last, 1, Closed);
    assert last + [] == last;
    FirstSending([n], lim, [], 0, opt.autoPong, Closed);
    FirstSending([n], lim, [], 0, false, Closed);
    MessagesOfStream(ms, lim, last);
    assert [] + queue == queue;
  }
}
