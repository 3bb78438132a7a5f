/** A persistent WebSocket connection as a state machine over its requests, and
    what every run of requests keeps: on a link that is kept, no data message is lost,
    and none is reordered but by EXCHANGE; and when a link is kept. */
module WebSocketSession {
  import opened Wrappers
  import opened Wire
  import opened WebSocketFrame
  import opened WebSocketEvents

  /** A connected socket: all it will ever bring, what is still unread, how many
      writes will succeed, and what reading past the end meets. */
  datatype Link = Link(origin: bytes, pending: bytes, sendsLeft: nat, ending: Ending)

  /** `_sock` and `_rx_queue`. */
  datatype Session = Session(link: Option<Link>, queue: seq<Event>)

  /** What the next attempt to connect meets. */
  datatype Dial =
    | Dialed(chunks: seq<bytes>, ending: Ending, sendsLeft: nat)
    | DialFailed
    | DialRefused

  /** The verbs of `_handle`, with messages already coerced to bytes. A PING gives
      up when its deadline has passed after `turns` rounds of its loop. */
  datatype Job =
    | Connect
    | Send(opcode: nat, payload: bytes)
    | Ping(ping: bytes, turns: nat)
    | Recv(timeoutPositive: bool)
    | Exchange(opcode: nat, payload: bytes)
    | CloseLink(code: Option<int>, reason: string)

  /** How the connector reads one event: from the unread bytes, the writes that will
      still succeed, the auto-pong setting, and how the bytes end. */
  type Reader = (bytes, nat, bool, Ending) -> Received

  /** The reader of a connector with these limits: `_recv_event`. */
  function ReaderFor(lim: Limits): Reader {
    (s: bytes, sends: nat, autoPong: bool, ending: Ending) => Receive(s, sends, autoPong, lim, ending, None, [])
  }

  datatype Options = Options(autoPong: bool, maxMessage: int)

  datatype Response = Response(ok: bool, event: Option<Event>)

  /** The result, the new session, and the frames written to the link in use. */
  datatype Handled = Handled(result: Result<Response, WsError>, session: Session, wire: seq<Reply>)

  const DROPPED := Session(None, [])

  predicate FitsOneFrame(job: Job) {
    match job
    case Send(op, p) => IsData(op) && |p| <= MAX_LENGTH
    case Exchange(op, p) => IsData(op) && |p| <= MAX_LENGTH
    case CloseLink(_, reason) => 4 * |reason| + 2 <= MAX_LENGTH
    case _ => true
  }

  /** The errors that make `request` drop the socket: timeouts, network and
      serialization errors, not validation errors or a refused handshake. */
  predicate Drops(e: WsError) {
    e != Invalid && e != Refused
  }

  // ----- one request on a connected link ----------------------------------------------

  /** `_close_socket`: a best-effort CLOSE frame, then the socket and the queue are gone. */
  function Closing(link: Link): seq<Reply> {
    if link.sendsLeft > 0 then [Reply(OP_CLOSE, [])] else []
  }

  function AfterReading(link: Link, x: Received): Link {
    link.(pending := x.rest, sendsLeft := if |x.replies| <= link.sendsLeft then link.sendsLeft - |x.replies| else 0)
  }

  function Read(rx: Reader, link: Link, opt: Options): Received {
    rx(link.pending, link.sendsLeft, opt.autoPong, link.ending)
  }

  /** `h`, with `wire` written before it. */
  function Preceded(wire: seq<Reply>, h: Handled): Handled {
    Handled(h.result, h.session, wire + h.wire)
  }

  lemma PrecededTwice(a: seq<Reply>, b: seq<Reply>, h: Handled)
    ensures Preceded(a, Preceded(b, h)) == Preceded(a + b, h)
  {
    assert a + (b + h.wire) == (a + b) + h.wire;
  }

  /** Reading one event and returning it, as RECV and EXCHANGE end. */
  function ReturnEvent(rx: Reader, link: Link, queue: seq<Event>, opt: Options): Handled {
    var x := Read(rx, link, opt);
    var link' := AfterReading(link, x);
    match x.event
    case Err(e) => Handled(Err(e), Session(Some(link'), queue), x.replies)
    case Ok(ev) =>
      if ev.Close? then Handled(Ok(Response(false, Some(ev))), DROPPED, x.replies + Closing(link'))
      else Handled(Ok(Response(true, Some(ev))), Session(Some(link'), queue), x.replies)
  }

  /** The loop of PING: messages that arrive before the PONG are queued. */
  function AwaitPong(rx: Reader, link: Link, queue: seq<Event>, turns: nat, opt: Options): Handled
    decreases turns
  {
    if queue != [] && queue[0].Pong? then
      Handled(Ok(Response(true, Some(queue[0]))), Session(Some(link), queue[1..]), [])
    else if turns == 0 then Handled(Err(PongTimeout), Session(Some(link), queue), [])
    else
      var x := Read(rx, link, opt);
      var link' := AfterReading(link, x);
      if x.event.Ok? && x.event.value.Message? then
        Preceded(x.replies, AwaitPong(rx, link', queue + [x.event.value], turns - 1, opt))
      else ReturnEvent(rx, link, queue, opt)
  }

  function Spend(link: Link): Link
    requires link.sendsLeft > 0
  {
    link.(sendsLeft := link.sendsLeft - 1)
  }

  /** `_handle` with `keep_connection` set. */
  function Handle(rx: Reader, link: Link, queue: seq<Event>, job: Job, opt: Options): Handled {
    var same := Session(Some(link), queue);
    match job
    case Connect => Handled(Ok(Response(true, None)), same, [])
    case Send(op, p) =>
      if |p| > opt.maxMessage then Handled(Err(Invalid), same, [])
      else if link.sendsLeft == 0 then Handled(Err(SendFailed), same, [])
      else Handled(Ok(Response(true, None)), Session(Some(Spend(link)), queue), [Reply(op, p)])
    case Ping(p, turns) =>
      if |p| > MAX_CONTROL then Handled(Err(Invalid), same, [])
      else if link.sendsLeft == 0 then Handled(Err(SendFailed), same, [])
      else Preceded([Reply(OP_PING, p)], AwaitPong(rx, Spend(link), queue, turns, opt))
    case Recv(positive) =>
      if queue != [] then Handled(Ok(Response(!queue[0].Close?, Some(queue[0]))), Session(Some(link), queue[1..]), [])
      else if !positive then Handled(Err(Invalid), same, [])
      else ReturnEvent(rx, link, queue, opt)
    case Exchange(op, p) =>
      if |p| > opt.maxMessage then Handled(Err(Invalid), same, [])
      else if link.sendsLeft == 0 then Handled(Err(SendFailed), same, [])
      else Preceded([Reply(op, p)], ReturnEvent(rx, Spend(link), queue, opt))
    case CloseLink(code, reason) =>
      match BuildClose(code, reason)
      case Err(e) => Handled(Err(e), same, [])
      case Ok(p) =>
        if link.sendsLeft == 0 then Handled(Err(SendFailed), same, [])
        else Handled(Ok(Response(true, None)), DROPPED, [Reply(OP_CLOSE, p)] + Closing(Spend(link)))
  }

  // ----- requests with reconnection and retries -----------------------------------------

  /** The outcome of `request`; `dialed` says that it connected anew. */
  datatype Served = Served(result: Result<Response, WsError>, session: Session, dials: seq<Dial>, dialed: bool)

  function LinkOf(d: Dial): Link
    requires d.Dialed?
  {
    Link(Flatten(d.chunks), Flatten(d.chunks), d.sendsLeft, d.ending)
  }

  /** `_ensure_connected`, then `_handle`. */
  function Attempt(rx: Reader, s: Session, dials: seq<Dial>, job: Job, opt: Options): Served {
    if s.link.Some? then
      var h := Handle(rx, s.link.value, s.queue, job, opt);
      Served(h.result, h.session, dials, false)
    else if dials == [] then Served(Err(ConnectFailed), DROPPED, [], true)
    else if dials[0].DialFailed? then Served(Err(ConnectFailed), DROPPED, dials[1..], true)
    else if dials[0].DialRefused? then Served(Err(Refused), DROPPED, dials[1..], true)
    else
      var h := Handle(rx, LinkOf(dials[0]), [], job, opt);
      Served(h.result, h.session, dials[1..], true)
  }

  /** The retry loop of `request`: `retries` more attempts are allowed. */
  function Request(rx: Reader, s: Session, dials: seq<Dial>, job: Job, opt: Options, idempotent: bool,
                   retries: nat): Served
    decreases retries
  {
    var a := Attempt(rx, s, dials, job, opt);
    if a.result.Ok? || !Drops(a.result.error) then a
    else if idempotent && retries > 0 then
      Request(rx, DROPPED, a.dials, job, opt, idempotent, retries - 1).(dialed := true)
    else a.(session := DROPPED)
  }

  // ----- the data messages of a stream ---------------------------------------------------

  /** Reading an event consumes bytes, and neither the event nor where reading stops
      depends on the PINGs answered on the way or on how the bytes end; an error is
      one that drops the socket. */
  ghost predicate Lawful(rx: Reader) {
    forall s, sends, autoPong, ending ::
      var x := rx(s, sends, autoPong, ending);
      var y := rx(s, 0, false, Closed);
      && |x.replies| <= sends
      && (if x.event.Ok? then |x.rest| < |s| && y.event == x.event && y.rest == x.rest
          else Drops(x.event.error))
  }

  lemma {:induction false} ReceiveConsumes(s: bytes, sends: nat, autoPong: bool, lim: Limits, ending: Ending,
                                           cur: Option<nat>, acc: bytes)
    ensures var x := Receive(s, sends, autoPong, lim, ending, cur, acc);
            && |x.replies| <= sends
            && (if x.event.Ok? then |x.rest| < |s| else Drops(x.event.error))
    decreases |s|
  {
    hide ParseFrame, OnFrame;
    var p := ParseFrame(s, lim.maxFrame);
    if p.Parsed? {
      ReceiveFrame(s, p.frame, p.rest, sends, autoPong, lim, ending, cur, acc);
      var step := OnFrame(p.frame, sends, autoPong, lim, cur, acc);
      OnFrameQuiet(p.frame, sends, autoPong, lim, cur, acc);
      if step.More? {
        ReceiveConsumes(p.rest, sends - |step.replies|, autoPong, lim, ending, step.cur, step.acc);
      }
    }
  }

  lemma OnFrameQuiet(f: Frame, sends: nat, autoPong: bool, lim: Limits, cur: Option<nat>, acc: bytes)
    ensures var x := OnFrame(f, sends, autoPong, lim, cur, acc);
            var y := OnFrame(f, 0, false, lim, cur, acc);
            && y.replies == []
            && (x.Stop? && x.event.Err? ==> Drops(x.event.error))
            && (x.More? ==> y == More(x.cur, x.acc, []))
            && (x.Stop? && x.event.Ok? ==> y == Stop(x.event, []))
  {
  }

  lemma {:induction false} ReceiveQuiet(s: bytes, sends: nat, autoPong: bool, lim: Limits, ending: Ending,
                                        cur: Option<nat>, acc: bytes)
    requires Receive(s, sends, autoPong, lim, ending, cur, acc).event.Ok?
    ensures var x := Receive(s, sends, autoPong, lim, ending, cur, acc);
            var y := Receive(s, 0, false, lim, Closed, cur, acc);
            y.event == x.event && y.rest == x.rest
    decreases |s|
  {
    hide ParseFrame;
    var p := ParseFrame(s, lim.maxFrame);
    var f, rest := p.frame, p.rest;
    ReceiveFrame(s, f, rest, sends, autoPong, lim, ending, cur, acc);
    ReceiveFrame(s, f, rest, 0, false, lim, Closed, cur, acc);
    OnFrameQuiet(f, sends, autoPong, lim, cur, acc);
    var step := OnFrame(f, sends, autoPong, lim, cur, acc);
    if step.More? {
      ReceiveQuiet(rest, sends - |step.replies|, autoPong, lim, ending, step.cur, step.acc);
    }
  }

  /** `_recv_event` is such a reader. */
  lemma ReceiveIsLawful(lim: Limits)
    ensures Lawful(ReaderFor(lim))
  {
    forall s, sends, autoPong, ending
      ensures var x := ReaderFor(lim)(s, sends, autoPong, ending);
              var y := ReaderFor(lim)(s, 0, false, Closed);
              && |x.replies| <= sends
              && (if x.event.Ok? then |x.rest| < |s| && y.event == x.event && y.rest == x.rest
          else Drops(x.event.error))
    {
      ReceiveConsumes(s, sends, autoPong, lim, ending, None, []);
      if Receive(s, sends, autoPong, lim, ending, None, []).event.Ok? {
        ReceiveQuiet(s, sends, autoPong, lim, ending, None, []);
      }
    }
  }

  /** Every data message a stream brings, in order, up to a CLOSE or an error. */
  ghost function Messages(rx: Reader, s: bytes): seq<Event>
    requires Lawful(rx)
    decreases |s|
  {
    var x := rx(s, 0, false, Closed);
    match x.event
    case Ok(Message(op, d)) => [Message(op, d)] + Messages(rx, x.rest)
    case Ok(Pong(_)) => Messages(rx, x.rest)
    case _ => []
  }

  // ----- the invariant --------------------------------------------------------------------

  /** The session has `delivered` so far on its link: what was delivered, then what is
      queued, then what is still to come, is what the link brings. */
  ghost predicate InOrder(rx: Reader, s: Session, delivered: seq<Event>)
    requires Lawful(rx)
  {
    s.link.Some? ==>
      delivered + s.queue + Messages(rx, s.link.value.pending) == Messages(rx, s.link.value.origin)
  }

  /** The same as multisets. */
  ghost predicate Conserved(rx: Reader, s: Session, delivered: seq<Event>)
    requires Lawful(rx)
  {
    s.link.Some? ==>
      multiset(delivered) + multiset(s.queue) + multiset(Messages(rx, s.link.value.pending))
      == multiset(Messages(rx, s.link.value.origin))
  }

  /** The queue holds data messages only, and none without a link. */
  predicate Clean(s: Session) {
    && (forall i :: 0 <= i < |s.queue| ==> s.queue[i].Message?)
    && (s.link.None? ==> s.queue == [])
  }

  /** The data message a result hands to the caller, if any. */
  function DeliveredBy(result: Result<Response, WsError>): seq<Event> {
    if result.Ok? && result.value.event.Some? && result.value.event.value.Message? then [result.value.event.value]
    else []
  }

  /** Reading an event other than a CLOSE takes the next data message, if it is one,
      off what the link will bring. */
  lemma ReadStep(rx: Reader, link: Link, opt: Options)
    requires Lawful(rx)
    ensures var x := Read(rx, link, opt);
            x.event.Ok? && !x.event.value.Close? ==>
              Messages(rx, link.pending)
              == (if x.event.value.Message? then [x.event.value] else []) + Messages(rx, x.rest)
  {
    var x := Read(rx, link, opt);
    var y := rx(link.pending, 0, false, Closed);
    assert x.event.Ok? ==> y.event == x.event && y.rest == x.rest;
  }

  /** What the session still holds: the queue, then what the link has yet to bring. */
  ghost function Ahead(rx: Reader, s: Session): seq<Event>
    requires Lawful(rx) && s.link.Some?
  {
    s.queue + Messages(rx, s.link.value.pending)
  }

  /** A result that does not drop the socket. */
  predicate Keeps(result: Result<Response, WsError>) {
    result.Ok? || !Drops(result.error)
  }

  /** The PING loop delivers no message and keeps what is ahead. */
  lemma {:induction false} AwaitPongFlow(rx: Reader, link: Link, queue: seq<Event>, turns: nat, opt: Options)
    requires Lawful(rx) && Clean(Session(Some(link), queue))
    ensures var h := AwaitPong(rx, link, queue, turns, opt);
            && Clean(h.session)
            && DeliveredBy(h.result) == []
            && (h.session.link.Some? ==> h.session.link.value.origin == link.origin)
            && (h.session.link.Some? && Keeps(h.result) ==>
                  Ahead(rx, Session(Some(link), queue)) == Ahead(rx, h.session))
    decreases turns
  {
    if turns > 0 {
      var x := Read(rx, link, opt);
      ReadStep(rx, link, opt);
      if x.event.Ok? && x.event.value.Message? {
        var m := [x.event.value];
        AwaitPongFlow(rx, AfterReading(link, x), queue + m, turns - 1, opt);
        assert queue + (m + Messages(rx, x.rest)) == (queue + m) + Messages(rx, x.rest);
      } else if x.event.Ok? && x.event.value.Pong? {
        assert [] + Messages(rx, x.rest) == Messages(rx, x.rest);
      }
    }
  }

  /** What `HandleFlow` shows of a request, as an equation on what is ahead. */
  ghost predicate Flows(rx: Reader, link: Link, queue: seq<Event>, exchange: bool, h: Handled)
    requires Lawful(rx)
  {
    var d := DeliveredBy(h.result);
    && Clean(h.session)
    && (h.session.link.Some? ==> h.session.link.value.origin == link.origin)
    && (h.session.link.Some? && Keeps(h.result) ==>
          if exchange then
            h.session.queue == queue
            && Messages(rx, link.pending) == d + Messages(rx, h.session.link.value.pending)
          else Ahead(rx, Session(Some(link), queue)) == d + Ahead(rx, h.session))
  }

  lemma BooksBalance(rx: Reader, link: Link, queue: seq<Event>, exchange: bool, h: Handled, delivered: seq<Event>)
    requires Lawful(rx) && Flows(rx, link, queue, exchange, h) && Keeps(h.result)
    requires Conserved(rx, Session(Some(link), queue), delivered)
    ensures Conserved(rx, h.session, delivered + DeliveredBy(h.result))
    ensures !exchange && InOrder(rx, Session(Some(link), queue), delivered) ==>
              InOrder(rx, h.session, delivered + DeliveredBy(h.result))
  {
    hide Messages;
    var d := DeliveredBy(h.result);
    if h.session.link.Some? {
      var queue', now, later := h.session.queue, Messages(rx, link.pending), Messages(rx, h.session.link.value.pending);
      if exchange {
        assert multiset(delivered + d) == multiset(delivered) + multiset(d);
        assert multiset(now) == multiset(d) + multiset(later);
      } else {
        assert queue + now == d + (queue' + later);
        SameBags(delivered, queue, now, d, queue', later);
      }
    }
  }

  lemma SameBags(a: seq<Event>, q: seq<Event>, n: seq<Event>, d: seq<Event>, q': seq<Event>, n': seq<Event>)
    requires q + n == d + (q' + n')
    ensures a + q + n == a + d + q' + n'
    ensures multiset(a) + multiset(q) + multiset(n) == multiset(a + d) + multiset(q') + multiset(n')
  {
    assert a + q + n == a + (q + n);
    assert a + d + q' + n' == a + (d + (q' + n'));
    assert multiset(a + q + n) == multiset(a) + multiset(q) + multiset(n);
    assert multiset((a + d) + q' + n') == multiset(a + d) + multiset(q') + multiset(n');
  }

  /** One request on a link: what is ahead loses exactly what is delivered, from its
      front, except that EXCHANGE takes the message after the queue. */
  lemma HandleFlow(rx: Reader, link: Link, queue: seq<Event>, job: Job, opt: Options)
    requires Lawful(rx) && Clean(Session(Some(link), queue))
    ensures Flows(rx, link, queue, job.Exchange?, Handle(rx, link, queue, job, opt))
  {
    hide Messages, AwaitPong;
    match job
    case Connect =>
    case Send(_, _) =>
    case CloseLink(_, _) =>
    case Ping(p, turns) =>
      if |p| <= MAX_CONTROL && link.sendsLeft > 0 {
        AwaitPongFlow(rx, Spend(link), queue, turns, opt);
      }
    case Recv(_) =>
      if queue != [] {
        assert queue == [queue[0]] + queue[1..];
        assert [queue[0]] + queue[1..] + Messages(rx, link.pending)
            == [queue[0]] + (queue[1..] + Messages(rx, link.pending));
      } else {
        ReadStep(rx, link, opt);
        assert [] + Messages(rx, link.pending) == Messages(rx, link.pending);
        assert [] + Messages(rx, Read(rx, link, opt).rest) == Messages(rx, Read(rx, link, opt).rest);
      }
    case Exchange(_, p) =>
      if |p| <= opt.maxMessage && link.sendsLeft > 0 {
        ReadStep(rx, Spend(link), opt);
      }
  }

  /** One request that does not drop the socket: every verb but EXCHANGE keeps the
      order, and every verb keeps the messages as a multiset. */
  lemma HandleKeepsMessages(rx: Reader, link: Link, queue: seq<Event>, job: Job, opt: Options, delivered: seq<Event>)
    requires Lawful(rx) && Clean(Session(Some(link), queue))
    requires Conserved(rx, Session(Some(link), queue), delivered)
    requires Keeps(Handle(rx, link, queue, job, opt).result)
    ensures var h := Handle(rx, link, queue, job, opt);
            var delivered' := delivered + DeliveredBy(h.result);
            && Clean(h.session)
            && Conserved(rx, h.session, delivered')
            && (!job.Exchange? && InOrder(rx, Session(Some(link), queue), delivered) ==>
                  InOrder(rx, h.session, delivered'))
  {
    HandleFlow(rx, link, queue, job, opt);
    BooksBalance(rx, link, queue, job.Exchange?, Handle(rx, link, queue, job, opt), delivered);
  }

  /** What the link brings next is no data message, or is equal to every queued one. */
  predicate OvertakesNothing(rx: Reader, link: Link, queue: seq<Event>) {
    var next := rx(link.pending, 0, false, Closed).event;
    next.Ok? && next.value.Message? ==> forall i :: 0 <= i < |queue| ==> queue[i] == next.value
  }

  lemma NextIsFirst(rx: Reader, link: Link)
    requires Lawful(rx)
    ensures var next := rx(link.pending, 0, false, Closed).event;
            next.Ok? && next.value.Message? ==>
              Messages(rx, link.pending) != [] && Messages(rx, link.pending)[0] == next.value
  {
  }

  /** EXCHANGE reads past the queue. Told before the call: it keeps the order exactly when
      the next event on the link is no data message or is the message of every queued one,
      in particular when none is queued. */
  lemma ExchangeOrder(rx: Reader, link: Link, queue: seq<Event>, op: nat, p: bytes, opt: Options, delivered: seq<Event>)
    requires Lawful(rx) && Clean(Session(Some(link), queue))
    requires InOrder(rx, Session(Some(link), queue), delivered)
    requires |p| <= opt.maxMessage && Keeps(Handle(rx, link, queue, Exchange(op, p), opt).result)
    ensures var h := Handle(rx, link, queue, Exchange(op, p), opt);
            InOrder(rx, h.session, delivered + DeliveredBy(h.result)) <==> OvertakesNothing(rx, link, queue)
    ensures var d := DeliveredBy(Handle(rx, link, queue, Exchange(op, p), opt).result);
            d != [] ==> Messages(rx, link.pending) != [] && d == [Messages(rx, link.pending)[0]]
  {
    hide Messages;
    NextIsFirst(rx, link);
    var h := Handle(rx, link, queue, Exchange(op, p), opt);
    HandleFlow(rx, link, queue, Exchange(op, p), opt);
    ExchangeReturns(rx, link, queue, op, p, opt);
    if h.session.link.Some? {
      var d, later := DeliveredBy(h.result), Messages(rx, h.session.link.value.pending);
      assert Messages(rx, link.pending) == d + later;
      if d == [] {
        assert delivered + [] == delivered && [] + later == later;
      } else {
        OrderAfter(delivered, queue, d[0], later);
      }
    }
  }

  /** EXCHANGE hands over the next event, whatever is queued. */
  lemma ExchangeReturns(rx: Reader, link: Link, queue: seq<Event>, op: nat, p: bytes, opt: Options)
    requires Lawful(rx) && |p| <= opt.maxMessage && Keeps(Handle(rx, link, queue, Exchange(op, p), opt).result)
    ensures var h := Handle(rx, link, queue, Exchange(op, p), opt);
            var next := rx(link.pending, 0, false, Closed).event;
            && next.Ok? && h.result.Ok? && h.result.value.event == Some(next.value)
            && (h.session.link.None? <==> next.value.Close?)
            && (next.value.Message? ==> DeliveredBy(h.result) == [next.value])
            && (!next.value.Message? ==> DeliveredBy(h.result) == [])
            && (h.session.link.Some? ==> h.session.queue == queue)
  {
    var x := Read(rx, Spend(link), opt);
    assert x.event.Ok? ==> rx(link.pending, 0, false, Closed).event == x.event;
  }

  /** Handing over `m` before the queue is handing it over after exactly when the queue
      holds nothing but copies of it. */
  lemma OrderAfter(delivered: seq<Event>, queue: seq<Event>, m: Event, later: seq<Event>)
    ensures delivered + [m] + queue + later == delivered + queue + ([m] + later)
            <==> forall i :: 0 <= i < |queue| ==> queue[i] == m
  {
    assert delivered + queue + ([m] + later) == delivered + (queue + [m]) + later;
    assert delivered + [m] + queue + later == delivered + ([m] + queue) + later;
    if delivered + [m] + queue + later == delivered + queue + ([m] + later) {
      SameMiddle(delivered, [m] + queue, queue + [m], later);
      forall i | 0 <= i < |queue|
        ensures queue[i] == m
      {
        Commutes(queue, m, i);
      }
    }
    if forall i :: 0 <= i < |queue| ==> queue[i] == m {
      assert [m] + queue == queue + [m];
    }
  }

  lemma SameMiddle(a: seq<Event>, x: seq<Event>, y: seq<Event>, z: seq<Event>)
    requires |x| == |y| && a + x + z == a + y + z
    ensures x == y
  {
    forall i | 0 <= i < |x|
      ensures x[i] == y[i]
    {
      assert (a + x + z)[|a| + i] == x[i];
      assert (a + y + z)[|a| + i] == y[i];
    }
  }

  lemma {:induction false} Commutes(q: seq<Event>, m: Event, i: nat)
    requires [m] + q == q + [m] && i < |q|
    ensures q[i] == m
  {
    assert ([m] + q)[i] == (q + [m])[i];
    if i > 0 {
      Commutes(q, m, i - 1);
    }
  }

  // ----- whole runs -------------------------------------------------------------------------

  /** A request as it reaches the connector. */
  datatype Call = Call(job: Job, opt: Options, idempotent: bool, retries: nat)

  /** The connector between requests, with what the caller has been given on the
      current link and whether an EXCHANGE ran on it. */
  datatype State = State(session: Session, dials: seq<Dial>, delivered: seq<Event>, exchanged: bool)

  /** The state after a request that was served like this. */
  function Book(r: Served, delivered: seq<Event>, exchanged: bool, c: Call): State {
    State(r.session, r.dials,
          (if r.dialed then [] else delivered) + DeliveredBy(r.result),
          (!r.dialed && exchanged) || c.job.Exchange?)
  }

  function Serve(rx: Reader, st: State, c: Call): State {
    Book(Request(rx, st.session, st.dials, c.job, c.opt, c.idempotent, c.retries), st.delivered, st.exchanged, c)
  }

  function Run(rx: Reader, st: State, calls: seq<Call>): State
    decreases |calls|
  {
    if calls == [] then st else Run(rx, Serve(rx, st, calls[0]), calls[1..])
  }

  ghost predicate Sound(rx: Reader, st: State)
    requires Lawful(rx)
  {
    && Clean(st.session)
    && Conserved(rx, st.session, st.delivered)
    && (!st.exchanged ==> InOrder(rx, st.session, st.delivered))
  }

  /** The first attempt of a request keeps the books, if it does not drop the socket. */
  lemma AttemptKeepsMessages(rx: Reader, st: State, c: Call)
    requires Lawful(rx) && Sound(rx, st)
    requires Keeps(Attempt(rx, st.session, st.dials, c.job, c.opt).result)
    ensures Sound(rx, Book(Attempt(rx, st.session, st.dials, c.job, c.opt), st.delivered, st.exchanged, c))
  {
    var s := st.session;
    if s.link.Some? {
      assert Session(Some(s.link.value), s.queue) == s;
      HandleKeepsMessages(rx, s.link.value, s.queue, c.job, c.opt, st.delivered);
    } else if st.dials != [] && st.dials[0].Dialed? {
      var linked := LinkOf(st.dials[0]);
      assert [] + [] + Messages(rx, linked.pending) == Messages(rx, linked.origin);
      HandleKeepsMessages(rx, linked, [], c.job, c.opt, []);
    }
  }

  /** A request keeps the books, whatever fails and however often it is retried; an
      error that drops the socket leaves neither link nor queue. */
  lemma {:induction false} RequestKeepsMessages(rx: Reader, st: State, c: Call)
    requires Lawful(rx) && Sound(rx, st)
    ensures var r := Request(rx, st.session, st.dials, c.job, c.opt, c.idempotent, c.retries);
            && Sound(rx, Book(r, st.delivered, st.exchanged, c))
            && (!Keeps(r.result) ==> r.session == DROPPED)
    decreases c.retries
  {
    hide Attempt, Messages;
    var a := Attempt(rx, st.session, st.dials, c.job, c.opt);
    if Keeps(a.result) {
      AttemptKeepsMessages(rx, st, c);
    } else if c.idempotent && c.retries > 0 {
      RequestKeepsMessages(rx, State(DROPPED, a.dials, [], false), c.(retries := c.retries - 1));
      RetriesDial(rx, a.dials, c.(retries := c.retries - 1));
    }
  }

  /** A request without a link always dials. */
  lemma RetriesDial(rx: Reader, dials: seq<Dial>, c: Call)
    ensures Request(rx, DROPPED, dials, c.job, c.opt, c.idempotent, c.retries).dialed
  {
  }

  /** Every run of requests keeps the books. */
  lemma {:induction false} RunKeepsMessages(rx: Reader, st: State, calls: seq<Call>)
    requires Lawful(rx) && Sound(rx, st)
    ensures Sound(rx, Run(rx, st, calls))
    decreases |calls|
  {
    if calls != [] {
      RequestKeepsMessages(rx, st, calls[0]);
      RunKeepsMessages(rx, Serve(rx, st, calls[0]), calls[1..]);
    }
  }

  /** Over every run of requests from a disconnected start, whatever the streams, the
      failures and the reconnections: on the current link, the messages delivered,
      then those queued, then those unread are the messages the link brings, in order
      unless an EXCHANGE ran on it, and always as a multiset. The queue holds only
      data messages, and nothing once the link is gone. */
  lemma NothingLost(lim: Limits, dials: seq<Dial>, calls: seq<Call>)
    ensures var rx := ReaderFor(lim);
            var st := Run(rx, State(DROPPED, dials, [], false), calls);
            && Lawful(rx)
            && Clean(st.session)
            && (st.session.link.Some? ==>
                  var queued, unread := st.session.queue, Messages(rx, st.session.link.value.pending);
                  var brought := Messages(rx, st.session.link.value.origin);
                  && multiset(st.delivered) + multiset(queued) + multiset(unread) == multiset(brought)
                  && (!st.exchanged ==> st.delivered + queued + unread == brought))
  {
    ReceiveIsLawful(lim);
    RunKeepsMessages(ReaderFor(lim), State(DROPPED, dials, [], false), calls);
  }

  // ----- when a link is kept -------------------------------------------------------------------

  /** Within so many rounds, the first event that is no data message is a PONG. */
  predicate PongComes(rx: Reader, link: Link, turns: nat, opt: Options)
    decreases turns
  {
    var x := Read(rx, link, opt);
    && turns > 0 && x.event.Ok?
    && (x.event.value.Pong? || (x.event.value.Message? && PongComes(rx, AfterReading(link, x), turns - 1, opt)))
  }

  /** The next event is a data message or a PONG. */
  predicate NextIsUsable(rx: Reader, link: Link, opt: Options) {
    var x := Read(rx, link, opt);
    x.event.Ok? && !x.event.value.Close?
  }

  /** What it takes, verb by verb, for a request to leave the link and its queue in place. */
  predicate KeepsLink(rx: Reader, link: Link, queue: seq<Event>, job: Job, opt: Options) {
    match job
    case Connect => true
    case Send(_, p) => |p| > opt.maxMessage || link.sendsLeft > 0
    case Ping(p, turns) => |p| > MAX_CONTROL || (link.sendsLeft > 0 && PongComes(rx, Spend(link), turns, opt))
    case Recv(positive) => queue != [] || !positive || NextIsUsable(rx, link, opt)
    case Exchange(_, p) => |p| > opt.maxMessage || (link.sendsLeft > 0 && NextIsUsable(rx, Spend(link), opt))
    case CloseLink(code, reason) => BuildClose(code, reason).Err?
  }

  lemma {:induction false} AwaitPongKeeps(rx: Reader, link: Link, queue: seq<Event>, turns: nat, opt: Options)
    requires Lawful(rx) && Clean(Session(Some(link), queue))
    ensures var h := AwaitPong(rx, link, queue, turns, opt);
            if PongComes(rx, link, turns, opt) then Keeps(h.result) && h.session.link.Some?
            else (Keeps(h.result) ==> h.session == DROPPED) && DeliveredBy(h.result) == []
    decreases turns
  {
    hide Lawful;
    if turns > 0 {
      var x := Read(rx, link, opt);
      ErrorsDrop(rx, link, opt);
      if x.event.Ok? && x.event.value.Message? {
        AwaitPongKeeps(rx, AfterReading(link, x), queue + [x.event.value], turns - 1, opt);
      }
    }
  }

  lemma ErrorsDrop(rx: Reader, link: Link, opt: Options)
    requires Lawful(rx)
    ensures Read(rx, link, opt).event.Err? ==> Drops(Read(rx, link, opt).event.error)
  {
  }

  lemma HandleKeepsLink(rx: Reader, link: Link, queue: seq<Event>, job: Job, opt: Options)
    requires Lawful(rx) && Clean(Session(Some(link), queue))
    ensures var h := Handle(rx, link, queue, job, opt);
            if KeepsLink(rx, link, queue, job, opt) then Keeps(h.result) && h.session.link.Some?
            else (Keeps(h.result) ==> h.session == DROPPED) && DeliveredBy(h.result) == []
  {
    hide Lawful, AwaitPong, PongComes;
    match job
    case Ping(p, turns) =>
      if |p| <= MAX_CONTROL && link.sendsLeft > 0 {
        AwaitPongKeeps(rx, Spend(link), queue, turns, opt);
      }
    case Recv(_) => ErrorsDrop(rx, link, opt);
    case Exchange(_, p) =>
      if link.sendsLeft > 0 {
        ErrorsDrop(rx, Spend(link), opt);
      }
    case CloseLink(code, reason) => BadCloseKeeps(code, reason);
    case _ =>
  }

  lemma BadCloseKeeps(code: Option<int>, reason: string)
    ensures BuildClose(code, reason).Err? ==> !Drops(BuildClose(code, reason).error)
  {
  }

  /** A request keeps the link it finds, with the messages queued for it, if and only if the
      condition of its verb is met. Otherwise every queued message is lost, those it
      queued itself among them: nothing of the link is delivered, and unless the request is
      retried on a new link it leaves neither link nor queue. */
  lemma LinkKeptExactly(rx: Reader, st: State, c: Call)
    requires Lawful(rx) && Clean(st.session) && st.session.link.Some?
    ensures var r := Request(rx, st.session, st.dials, c.job, c.opt, c.idempotent, c.retries);
            var kept := KeepsLink(rx, st.session.link.value, st.session.queue, c.job, c.opt);
            && (r.session.link.Some? && !r.dialed <==> kept)
            && (!kept && !r.dialed ==>
                  Serve(rx, st, c).session == DROPPED && Serve(rx, st, c).delivered == st.delivered)
            && (r.dialed ==> c.idempotent && c.retries > 0 && Serve(rx, st, c).delivered == DeliveredBy(r.result))
  {
    hide Lawful, Handle, KeepsLink;
    var link, queue := st.session.link.value, st.session.queue;
    HandleKeepsLink(rx, link, queue, c.job, c.opt);
    var a := Attempt(rx, st.session, st.dials, c.job, c.opt);
    assert a.result == Handle(rx, link, queue, c.job, c.opt).result && !a.dialed;
    var r := Request(rx, st.session, st.dials, c.job, c.opt, c.idempotent, c.retries);
    assert st.delivered + [] == st.delivered && [] + DeliveredBy(r.result) == DeliveredBy(r.result);
  }

  /** `after` is `before` without its first `n` attempts to connect. */
  predicate Dialled(before: seq<Dial>, after: seq<Dial>, n: nat) {
    n <= |before| && after == before[n..]
  }

  lemma AttemptDials(rx: Reader, s: Session, dials: seq<Dial>, c: Call)
    ensures Attempt(rx, s, dials, c.job, c.opt).dials == if s.link.Some? || dials == [] then dials else dials[1..]
  {
    hide Handle;
  }

  lemma RequestStep(rx: Reader, s: Session, dials: seq<Dial>, c: Call)
    ensures var a := Attempt(rx, s, dials, c.job, c.opt);
            Request(rx, s, dials, c.job, c.opt, c.idempotent, c.retries).dials
            == if Keeps(a.result) || !c.idempotent || c.retries == 0 then a.dials
               else Request(rx, DROPPED, a.dials, c.job, c.opt, true, c.retries - 1).dials
  {
    hide Attempt;
  }

  /** Retries are bounded: each attempt dials at most once, a request that is not
      idempotent has one attempt, and one that is has at most `retries` more. */
  lemma {:induction false} RetriesBounded(rx: Reader, s: Session, dials: seq<Dial>, c: Call)
    ensures var r := Request(rx, s, dials, c.job, c.opt, c.idempotent, c.retries);
            exists n: nat ::
              && Dialled(dials, r.dials, n)
              && n <= (if s.link.Some? then 0 else 1) + (if c.idempotent then c.retries else 0)
    decreases c.retries
  {
    hide Attempt, Request, Keeps;
    RequestStep(rx, s, dials, c);
    AttemptDials(rx, s, dials, c);
    var a := Attempt(rx, s, dials, c.job, c.opt);
    var first := if s.link.Some? || dials == [] then 0 else 1;
    assert Dialled(dials, a.dials, first);
    if !Keeps(a.result) && c.idempotent && c.retries > 0 {
      var next := c.(retries := c.retries - 1);
      RetriesBounded(rx, DROPPED, a.dials, next);
      var r := Request(rx, DROPPED, a.dials, c.job, c.opt, true, c.retries - 1);
      var n: nat :| Dialled(a.dials, r.dials, n) && n <= 1 + next.retries;
      assert Dialled(dials, r.dials, first + n);
    }
  }
}
