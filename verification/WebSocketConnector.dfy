/** The connector object: the socket and receive queue that its requests update,
    each method proved to do what the session machine says. */
module WebSocketConnector {
  import opened Wrappers
  import opened Wire
  import opened WebSocketFrame
  import opened WebSocketEvents
  import Utf8
  import Session = WebSocketSession

  class Connector {
    const lim: Limits
    var sock: Socket?
    var queue: seq<Event>
    /** What later attempts to connect will meet. */
    var dials: seq<Session.Dial>

    ghost predicate Valid()
      reads this, sock
    {
      && (sock != null ==> sock.Valid())
      && forall i :: 0 <= i < |dials| && dials[i].Dialed? ==>
           forall j :: 0 <= j < |dials[i].chunks| ==> dials[i].chunks[j] != []
    }

    ghost function LinkState(): Session.Link
      requires sock != null
      reads this, sock
    {
      Session.Link(sock.origin, sock.Pending(), sock.sendsLeft, sock.ending)
    }

    ghost function View(): Session.Session
      reads this, sock
    {
      Session.Session(if sock == null then None else Some(LinkState()), queue)
    }

    ghost function Rx(): Session.Reader {
      Session.ReaderFor(lim)
    }

    constructor (lim: Limits, dials: seq<Session.Dial>)
      requires forall i :: 0 <= i < |dials| && dials[i].Dialed? ==>
                 forall j :: 0 <= j < |dials[i].chunks| ==> dials[i].chunks[j] != []
      ensures Valid() && View() == Session.DROPPED && this.lim == lim && this.dials == dials
    {
      this.lim, this.dials := lim, dials;
      sock, queue := null, [];
    }

    /** `_close_socket`: whether or not the CLOSE frame goes out, nothing is kept. */
    method CloseSocket()
      modifies this`sock, this`queue, sock
      ensures View() == Session.DROPPED
      ensures old(sock) != null ==>
                Wrote(old(sock.sent), old(sock).sent, Session.Closing(old(LinkState())))
    {
      if sock != null {
        var _ := SendFrame(sock, OP_CLOSE, []);
      }
      sock, queue := null, [];
    }

    /** `_ensure_connected` for the connector's own target. */
    method EnsureConnected() returns (failure: Option<WsError>)
      requires Valid()
      modifies this
      ensures Valid()
      ensures old(sock) != null ==> failure == None && View() == old(View()) && dials == old(dials) && sock == old(sock)
      ensures old(sock) == null ==>
                if old(dials) == [] || old(dials)[0].DialFailed? then
                  failure == Some(ConnectFailed) && View() == Session.DROPPED
                  && dials == if old(dials) == [] then [] else old(dials)[1..]
                else if old(dials)[0].DialRefused? then
                  failure == Some(Refused) && View() == Session.DROPPED && dials == old(dials)[1..]
                else
                  && failure == None && sock != null && fresh(sock)
                  && LinkState() == Session.LinkOf(old(dials)[0]) && queue == [] && dials == old(dials)[1..]
    {
      if sock != null { return None; }
      CloseSocket();
      if dials == [] { return Some(ConnectFailed); }
      var d := dials[0];
      dials := dials[1..];
      if d.DialFailed? { return Some(ConnectFailed); }
      if d.DialRefused? { return Some(Refused); }
      sock := new Socket(d.chunks, d.ending, d.sendsLeft);
      return None;
    }

    /** Reading one event, and returning it as RECV and EXCHANGE do. */
    method ReturnEvent(opt: Session.Options) returns (r: Result<Session.Response, WsError>)
      requires Valid() && sock != null
      modifies this`sock, this`queue, sock
      ensures Valid() && (sock == old(sock) || sock == null)
      ensures var h := Session.ReturnEvent(Rx(), old(LinkState()), old(queue), opt);
              r == h.result && View() == h.session && Wrote(old(sock.sent), old(sock).sent, h.wire)
    {
      hide Receive;
      var ev := RecvEvent(sock, opt.autoPong, lim);
      if ev.Err? { return Err(ev.error); }
      if ev.value.Close? {
        ghost var sent, x := sock.sent, Session.Read(Rx(), old(LinkState()), opt);
        ghost var closing := Session.Closing(LinkState());
        CloseSocket();
        WroteMore(old(sock.sent), sent, old(sock).sent, x.replies, closing);
        return Ok(Session.Response(false, Some(ev.value)));
      }
      return Ok(Session.Response(true, Some(ev.value)));
    }

    /** One round of the PING loop: a message is queued and the loop goes on; any
        other event, or an error, ends it. */
    method AwaitRound(left: nat, opt: Session.Options)
      returns (r: Option<Result<Session.Response, WsError>>, ghost wire: seq<Reply>)
      requires Valid() && sock != null && left > 0
      requires queue == [] || !queue[0].Pong?
      modifies this`sock, this`queue, sock
      ensures Valid() && (sock == old(sock) || sock == null)
      ensures Wrote(old(sock.sent), old(sock).sent, wire)
      ensures var h := Session.AwaitPong(Rx(), old(LinkState()), old(queue), left, opt);
              match r
              case Some(result) => h == Session.Handled(result, View(), wire)
              case None =>
                sock != null && h == Session.Preceded(wire, Session.AwaitPong(Rx(), LinkState(), queue, left - 1, opt))
    {
      hide Receive;
      ghost var link, sent := LinkState(), sock.sent;
      ghost var x := Session.Read(Rx(), link, opt);
      var ev := RecvEvent(sock, opt.autoPong, lim);
      wire := x.replies;
      if ev.Err? { return Some(Err(ev.error)), wire; }
      if ev.value.Pong? { return Some(Ok(Session.Response(true, Some(ev.value)))), wire; }
      if ev.value.Close? {
        ghost var sent', closing := sock.sent, Session.Closing(LinkState());
        CloseSocket();
        WroteMore(sent, sent', old(sock).sent, wire, closing);
        return Some(Ok(Session.Response(false, Some(ev.value)))), wire + closing;
      }
      queue := queue + [ev.value];
      r := None;
    }

    /** The loop of PING, after its frame has been sent. */
    method AwaitPong(turns: nat, opt: Session.Options) returns (r: Result<Session.Response, WsError>)
      requires Valid() && sock != null
      modifies this`sock, this`queue, sock
      ensures Valid() && (sock == old(sock) || sock == null)
      ensures var h := Session.AwaitPong(Rx(), old(LinkState()), old(queue), turns, opt);
              r == h.result && View() == h.session && Wrote(old(sock.sent), old(sock).sent, h.wire)
    {
      hide Receive, Session.ReturnEvent, Session.Read, Session.ReaderFor;
      var left := turns;
      ghost var wire: seq<Reply> := [];
      ghost var goal := Session.AwaitPong(Rx(), LinkState(), queue, turns, opt);
      while true
        invariant Valid() && sock != null && sock == old(sock)
        invariant Wrote(old(sock.sent), sock.sent, wire)
        invariant goal == Session.Preceded(wire, Session.AwaitPong(Rx(), LinkState(), queue, left, opt))
        decreases left
      {
        if queue != [] && queue[0].Pong? {
          r := Ok(Session.Response(true, Some(queue[0])));
          queue := queue[1..];
          assert wire + [] == wire;
          return;
        }
        if left == 0 {
          assert wire + [] == wire;
          return Err(PongTimeout);
        }
        ghost var sent := sock.sent;
        var done, written := AwaitRound(left, opt);
        WroteMore(old(sock.sent), sent, old(sock).sent, wire, written);
        if done.Some? { return done.value; }
        left := left - 1;
        Session.PrecededTwice(wire, written, Session.AwaitPong(Rx(), LinkState(), queue, left, opt));
        wire := wire + written;
      }
    }

    method HandlePing(ping: bytes, turns: nat, opt: Session.Options) returns (r: Result<Session.Response, WsError>)
      requires Valid() && sock != null
      modifies this`sock, this`queue, sock
      ensures Valid() && (sock == old(sock) || sock == null)
      ensures var h := Session.Handle(Rx(), old(LinkState()), old(queue), Session.Ping(ping, turns), opt);
              r == h.result && View() == h.session && Wrote(old(sock.sent), old(sock).sent, h.wire)
    {
      hide Receive, Session.AwaitPong;
      if |ping| > MAX_CONTROL { return Err(Invalid); }
      var ok := SendFrame(sock, OP_PING, ping);
      if !ok { return Err(SendFailed); }
      ghost var sent, h := sock.sent, Session.AwaitPong(Rx(), LinkState(), queue, turns, opt);
      r := AwaitPong(turns, opt);
      WroteMore(old(sock.sent), sent, old(sock).sent, [Reply(OP_PING, ping)], h.wire);
    }

    method HandleExchange(opcode: nat, payload: bytes, opt: Session.Options)
      returns (r: Result<Session.Response, WsError>)
      requires Valid() && sock != null && IsData(opcode) && |payload| <= MAX_LENGTH
      modifies this`sock, this`queue, sock
      ensures Valid() && (sock == old(sock) || sock == null)
      ensures var h := Session.Handle(Rx(), old(LinkState()), old(queue), Session.Exchange(opcode, payload), opt);
              r == h.result && View() == h.session && Wrote(old(sock.sent), old(sock).sent, h.wire)
    {
      hide Receive, Session.ReturnEvent;
      if |payload| > opt.maxMessage { return Err(Invalid); }
      var ok := SendFrame(sock, opcode, payload);
      if !ok { return Err(SendFailed); }
      ghost var sent, h := sock.sent, Session.ReturnEvent(Rx(), LinkState(), queue, opt);
      r := ReturnEvent(opt);
      WroteMore(old(sock.sent), sent, old(sock).sent, [Reply(opcode, payload)], h.wire);
    }

    method HandleClose(code: Option<int>, reason: string, opt: Session.Options)
      returns (r: Result<Session.Response, WsError>)
      requires Valid() && sock != null && 4 * |reason| + 2 <= MAX_LENGTH
      modifies this`sock, this`queue, sock
      ensures Valid() && (sock == old(sock) || sock == null)
      ensures var h := Session.Handle(Rx(), old(LinkState()), old(queue), Session.CloseLink(code, reason), opt);
              r == h.result && View() == h.session && Wrote(old(sock.sent), old(sock).sent, h.wire)
    {
      hide Receive;
      var payload := BuildClose(code, reason);
      if payload.Err? { return Err(payload.error); }
      Utf8.EncodedLength(reason);
      var ok := SendFrame(sock, OP_CLOSE, payload.value);
      if !ok { return Err(SendFailed); }
      ghost var sent, closing := sock.sent, Session.Closing(LinkState());
      CloseSocket();
      WroteMore(old(sock.sent), sent, old(sock).sent, [Reply(OP_CLOSE, payload.value)], closing);
      return Ok(Session.Response(true, None));
    }

    /** `_handle` on the connected socket. */
    method Handle(job: Session.Job, opt: Session.Options) returns (r: Result<Session.Response, WsError>)
      requires Valid() && sock != null && Session.FitsOneFrame(job)
      modifies this`sock, this`queue, sock
      ensures Valid() && (sock == old(sock) || sock == null)
      ensures var h := Session.Handle(Rx(), old(LinkState()), old(queue), job, opt);
              r == h.result && View() == h.session && Wrote(old(sock.sent), old(sock).sent, h.wire)
    {
      hide Receive, Session.AwaitPong;
      match job
      case Connect =>
        r := Ok(Session.Response(true, None));
      case Send(opcode, payload) =>
        if |payload| > opt.maxMessage { return Err(Invalid); }
        var ok := SendFrame(sock, opcode, payload);
        if !ok { return Err(SendFailed); }
        r := Ok(Session.Response(true, None));
      case Ping(payload, turns) =>
        r := HandlePing(payload, turns, opt);
      case Recv(timeoutPositive) =>
        if queue != [] {
          var ev := queue[0];
          queue := queue[1..];
          return Ok(Session.Response(!ev.Close?, Some(ev)));
        }
        if !timeoutPositive { return Err(Invalid); }
        r := ReturnEvent(opt);
      case Exchange(opcode, payload) =>
        r := HandleExchange(opcode, payload, opt);
      case CloseLink(code, reason) =>
        r := HandleClose(code, reason, opt);
    }

    /** One attempt of `request`: connect if need be, then handle. */
    method Attempt(job: Session.Job, opt: Session.Options) returns (r: Result<Session.Response, WsError>)
      requires Valid() && Session.FitsOneFrame(job)
      modifies this, sock
      ensures Valid() && (sock == old(sock) || sock == null || fresh(sock))
      ensures var a := Session.Attempt(Rx(), old(View()), old(dials), job, opt);
              r == a.result && View() == a.session && dials == a.dials
    {
      hide Receive, Session.Handle;
      var failure := EnsureConnected();
      if failure.Some? { return Err(failure.value); }
      r := Handle(job, opt);
    }

    /** `request`: on an error that drops the socket, close it and try again while an
        idempotent request has retries left. */
    method Request(job: Session.Job, opt: Session.Options, idempotent: bool, retries: nat)
      returns (r: Result<Session.Response, WsError>)
      requires Valid() && Session.FitsOneFrame(job)
      modifies this, sock
      ensures Valid()
      ensures var served := Session.Request(Rx(), old(View()), old(dials), job, opt, idempotent, retries);
              r == served.result && View() == served.session && dials == served.dials
    {
      hide Receive, Session.Attempt;
      var left := retries;
      ghost var goal := Session.Request(Rx(), View(), dials, job, opt, idempotent, retries);
      while true
        invariant Valid() && (sock == old(sock) || sock == null)
        invariant var now := Session.Request(Rx(), View(), dials, job, opt, idempotent, left);
                  goal.result == now.result && goal.session == now.session && goal.dials == now.dials
        decreases left
      {
        r := Attempt(job, opt);
        if r.Ok? || !Session.Drops(r.error) { return; }
        CloseSocket();
        if !idempotent || left == 0 { return; }
        left := left - 1;
      }
    }
  }
}
