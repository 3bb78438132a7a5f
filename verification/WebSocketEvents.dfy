/** Receiving events: fragment reassembly with interleaved control frames
    (sections 5.4 and 5.5 of RFC 6455). */
module WebSocketEvents {
  import opened Wrappers
  import opened Wire
  import opened WebSocketFrame
  import Utf8

  const MAX_CONTROL := 125

  datatype WsError =
    | ConnectionClosed | RecvTimeout | RecvFailed | SendFailed
    | FrameTooLarge | FragmentedControl | ControlTooLarge
    | UnexpectedContinuation | InterleavedData | UnknownOpcode | MessageTooLarge
    | PongTimeout | ConnectFailed | Invalid | Refused

  datatype Event =
    | Message(opcode: nat, data: bytes)
    | Pong(payload: bytes)
    | Close(code: Option<nat>, reason: Option<string>)

  /** A frame this side writes while reading. */
  datatype Reply = Reply(opcode: nat, payload: bytes)

  datatype Limits = Limits(maxFrame: int, maxMessage: int)

  function EndingError(e: Ending): WsError {
    match e
    case Closed => ConnectionClosed
    case TimedOut => RecvTimeout
    case Broken => RecvFailed
  }

  // ----- close payloads -------------------------------------------------------------

  function ParseClose(payload: bytes): Event {
    if |payload| < 2 then Close(None, None)
    else Close(Some(FromBig(payload[..2])), if |payload| > 2 then Utf8.Decode(payload[2..]) else None)
  }

  /** `_build_close_payload`; an empty reason counts as none. */
  function BuildClose(code: Option<int>, reason: string): Result<bytes, WsError> {
    if code.None? && reason == "" then Ok([]) else
    var c := if code.Some? then code.value else 1000;
    if !(0 <= c <= 0xFFFF) then Err(Invalid)
    else (Widths(); Ok(ToBig(c, 2) + Utf8.Encode(reason)))
  }

  /** A close payload reads back as the code sent (1000 for a bare reason) and the reason. */
  lemma CloseRoundTrip(code: Option<int>, reason: string)
    requires BuildClose(code, reason).Ok?
    ensures ParseClose(BuildClose(code, reason).value)
         == if code.None? && reason == "" then Close(None, None)
            else Close(Some(if code.Some? then code.value else 1000), if reason == "" then None else Some(reason))
  {
    if code.Some? || reason != "" {
      var c := if code.Some? then code.value else 1000;
      Widths();
      FromToBig(c, 2);
      Utf8.DecodeEncode(reason);
      Utf8.EncodedLength(reason);
      var p := ToBig(c, 2) + Utf8.Encode(reason);
      assert p[..2] == ToBig(c, 2) && p[2..] == Utf8.Encode(reason);
    }
  }

  // ----- the receive loop as a function ---------------------------------------------

  predicate IsControl(opcode: nat) {
    opcode == OP_CLOSE || opcode == OP_PING || opcode == OP_PONG
  }

  predicate IsData(opcode: nat) {
    opcode == OP_TEXT || opcode == OP_BIN
  }

  /** What one frame does to the assembler: go on, or stop with an event or error. */
  datatype Step =
    | More(cur: Option<nat>, acc: bytes, replies: seq<Reply>)
    | Stop(event: Result<Event, WsError>, replies: seq<Reply>)

  function Fail(e: WsError): Step {
    Stop(Err(e), [])
  }

  /** One round of the loop in `_recv_event`, once the frame has been read. */
  function OnFrame(f: Frame, sends: nat, autoPong: bool, lim: Limits, cur: Option<nat>, acc: bytes): (r: Step)
    ensures |r.replies| <= sends
  {
    if IsControl(f.opcode) then
      if !f.fin then Fail(FragmentedControl)
      else if |f.payload| > MAX_CONTROL then Fail(ControlTooLarge)
      else if f.opcode == OP_PING then
        if !autoPong then More(cur, acc, [])
        else if sends == 0 then Fail(SendFailed)
        else More(cur, acc, [Reply(OP_PONG, f.payload)])
      else if f.opcode == OP_PONG then Stop(Ok(Pong(f.payload)), [])
      else Stop(Ok(ParseClose(f.payload)), if sends > 0 then [Reply(OP_CLOSE, f.payload)] else [])
    else if f.opcode == OP_CONT && cur.None? then Fail(UnexpectedContinuation)
    else if IsData(f.opcode) && cur.Some? then Fail(InterleavedData)
    else if f.opcode != OP_CONT && !IsData(f.opcode) then Fail(UnknownOpcode)
    else
      var op := if cur.Some? then cur.value else f.opcode;
      if f.payload != [] && |acc| + |f.payload| > lim.maxMessage then Fail(MessageTooLarge)
      else if f.fin then Stop(Ok(Message(op, acc + f.payload)), [])
      else More(Some(op), acc + f.payload, [])
  }

  /** What one call of `_recv_event` gives: the event or error, the bytes left
      unread, and the frames written on the way. */
  datatype Received = Received(event: Result<Event, WsError>, rest: bytes, replies: seq<Reply>)

  /** `x`, with `replies` written before it. */
  function After(replies: seq<Reply>, x: Received): Received {
    Received(x.event, x.rest, replies + x.replies)
  }

  lemma AfterAfter(a: seq<Reply>, b: seq<Reply>, x: Received)
    ensures After(a, After(b, x)) == After(a + b, x)
  {
    assert a + (b + x.replies) == (a + b) + x.replies;
  }

  /** `_recv_event` on the stream `s`, from an assembler holding `cur` and `acc`. */
  function Receive(s: bytes, sends: nat, autoPong: bool, lim: Limits, ending: Ending,
                   cur: Option<nat>, acc: bytes): Received
    decreases |s|
  {
    match ParseFrame(s, lim.maxFrame)
    case Short => Received(Err(EndingError(ending)), [], [])
    case TooLarge(rest) => Received(Err(FrameTooLarge), rest, [])
    case Parsed(f, rest) =>
      match OnFrame(f, sends, autoPong, lim, cur, acc)
      case Stop(event, replies) => Received(event, rest, replies)
      case More(cur', acc', replies) =>
        After(replies, Receive(rest, sends - |replies|, autoPong, lim, ending, cur', acc'))
  }

  /** Receiving from a stream that starts with the frame `f`. */
  lemma ReceiveFrame(s: bytes, f: Frame, rest: bytes, sends: nat, autoPong: bool, lim: Limits, ending: Ending,
                     cur: Option<nat>, acc: bytes)
    requires ParseFrame(s, lim.maxFrame) == Parsed(f, rest)
    ensures Receive(s, sends, autoPong, lim, ending, cur, acc)
         == match OnFrame(f, sends, autoPong, lim, cur, acc)
            case Stop(event, replies) => Received(event, rest, replies)
            case More(cur', acc', replies) =>
              After(replies, Receive(rest, sends - |replies|, autoPong, lim, ending, cur', acc'))
  {
    hide ParseFrame, OnFrame, After;
  }

  // ----- the imperative reader --------------------------------------------------------

  /** Four bytes of `os.urandom`. */
  method RandomKey() returns (key: bytes)
    ensures |key| == 4
  {
    var a: int :| 0 <= a < 256;
    var b: int :| 0 <= b < 256;
    var c: int :| 0 <= c < 256;
    var d: int :| 0 <= d < 256;
    key := [a, b, c, d];
  }

  /** The peer reads exactly the reply `r`, masked, from the buffer `b`. */
  predicate Carries(b: bytes, r: Reply) {
    ParseFrame(b, |r.payload|) == Parsed(Frame(true, r.opcode, true, r.payload), [])
  }

  /** `sent` is `before` followed by one buffer for each reply, in order. */
  ghost predicate Wrote(before: seq<bytes>, sent: seq<bytes>, replies: seq<Reply>) {
    && |sent| == |before| + |replies|
    && before <= sent
    && forall i :: 0 <= i < |replies| ==> Carries(sent[|before| + i], replies[i])
  }

  method SendFrame(sock: Socket, opcode: nat, payload: bytes) returns (ok: bool)
    requires opcode < 16 && |payload| <= MAX_LENGTH
    modifies sock`sendsLeft, sock`sent
    ensures ok == (old(sock.sendsLeft) > 0)
    ensures sock.sendsLeft == old(sock.sendsLeft) - (if ok then 1 else 0)
    ensures Wrote(old(sock.sent), sock.sent, if ok then [Reply(opcode, payload)] else [])
  {
    var key := RandomKey();
    var data := BuildFrame(opcode, payload, true, key);
    FrameRoundTrip(true, opcode, payload, key, [], |payload|);
    assert data + [] == data;
    ok := sock.SendAll(data);
  }

  /** The first part of `_read_frame`: two bytes, then the extended length. */
  method ReadHeader(sock: Socket) returns (r: Result<(byte, bool, nat), WsError>)
    requires sock.Valid()
    modifies sock`chunks
    ensures sock.Valid()
    ensures match ParseHeader(old(sock.Pending()))
            case NoHeader => r == Err(EndingError(sock.ending)) && sock.Pending() == []
            case Header(first, masked, n, body) => r == Ok((first, masked, n)) && sock.Pending() == body
  {
    ghost var s := sock.Pending();
    var head := sock.RecvExact(2);
    if head.Err? { return Err(EndingError(head.error)); }
    var second := head.value[1];
    var n: nat := second % 0x80;
    if n == 126 {
      var wide := sock.RecvExact(2);
      if wide.Err? { return Err(EndingError(wide.error)); }
      n := FromBig(wide.value);
    } else if n == 127 {
      var wide := sock.RecvExact(8);
      if wide.Err? { return Err(EndingError(wide.error)); }
      n := FromBig(wide.value);
    }
    ghost var ext := ExtendedBytes(second);
    assert s[2..][..ext] == s[2..2 + ext] && s[2..][ext..] == s[2 + ext..];
    r := Ok((head.value[0], second >= 0x80, n));
  }

  /** `_read_frame`. */
  method ReadFrame(sock: Socket, maxFrame: int) returns (r: Result<Frame, WsError>)
    requires sock.Valid()
    modifies sock`chunks
    ensures sock.Valid()
    ensures match ParseFrame(old(sock.Pending()), maxFrame)
            case Short => r == Err(EndingError(sock.ending)) && sock.Pending() == []
            case TooLarge(rest) => r == Err(FrameTooLarge) && sock.Pending() == rest
            case Parsed(f, rest) => r == Ok(f) && sock.Pending() == rest
  {
    var head := ReadHeader(sock);
    if head.Err? { return Err(head.error); }
    var (first, masked, n) := head.value;
    r := ReadBody(sock, first, masked, n, maxFrame);
  }

  /** The part of `_read_frame` after the length. */
  method ReadBody(sock: Socket, first: byte, masked: bool, n: nat, maxFrame: int) returns (r: Result<Frame, WsError>)
    requires sock.Valid()
    modifies sock`chunks
    ensures sock.Valid()
    ensures match ParseBody(first, masked, n, old(sock.Pending()), maxFrame)
            case Short => r == Err(EndingError(sock.ending)) && sock.Pending() == []
            case TooLarge(rest) => r == Err(FrameTooLarge) && sock.Pending() == rest
            case Parsed(f, rest) => r == Ok(f) && sock.Pending() == rest
  {
    if n > maxFrame { return Err(FrameTooLarge); }
    ghost var body := sock.Pending();
    var key: bytes := [];
    if masked {
      var k := sock.RecvExact(4);
      if k.Err? { return Err(EndingError(k.error)); }
      key := k.value;
    }
    var payload: bytes := [];
    if n != 0 {
      var p := sock.RecvExact(n);
      if p.Err? { return Err(EndingError(p.error)); }
      payload := p.value;
    }
    assert payload == body[|key|..|key| + n];
    if masked && payload != [] {
      payload := MaskPayload(payload, key);
    }
    r := Ok(Frame(first >= 0x80, first % 16, masked, payload));
  }

  /** The body of the loop in `_recv_event`, after its frame has been read. */
  method HandleFrame(sock: Socket, f: Frame, autoPong: bool, lim: Limits, cur: Option<nat>, acc: bytes)
    returns (r: Step)
    modifies sock`sendsLeft, sock`sent
    ensures r == OnFrame(f, old(sock.sendsLeft), autoPong, lim, cur, acc)
    ensures sock.sendsLeft == old(sock.sendsLeft) - |r.replies|
    ensures Wrote(old(sock.sent), sock.sent, r.replies)
  {
    if IsControl(f.opcode) {
      if !f.fin { return Fail(FragmentedControl); }
      if |f.payload| > MAX_CONTROL { return Fail(ControlTooLarge); }
      if f.opcode == OP_PING {
        if !autoPong { return More(cur, acc, []); }
        var ok := SendFrame(sock, OP_PONG, f.payload);
        if !ok { return Fail(SendFailed); }
        return More(cur, acc, [Reply(OP_PONG, f.payload)]);
      }
      if f.opcode == OP_PONG { return Stop(Ok(Pong(f.payload)), []); }
      var echoed := SendFrame(sock, OP_CLOSE, f.payload);
      return Stop(Ok(ParseClose(f.payload)), if echoed then [Reply(OP_CLOSE, f.payload)] else []);
    }
    var op := f.opcode;
    if f.opcode == OP_CONT {
      if cur.None? { return Fail(UnexpectedContinuation); }
      op := cur.value;
    } else if IsData(f.opcode) {
      if cur.Some? { return Fail(InterleavedData); }
    } else {
      return Fail(UnknownOpcode);
    }
    var longer := acc + f.payload;
    if f.payload != [] && |longer| > lim.maxMessage { return Fail(MessageTooLarge); }
    r := if f.fin then Stop(Ok(Message(op, longer)), []) else More(Some(op), longer, []);
  }

  lemma WroteMore(a: seq<bytes>, b: seq<bytes>, c: seq<bytes>, x: seq<Reply>, y: seq<Reply>)
    requires Wrote(a, b, x) && Wrote(b, c, y)
    ensures Wrote(a, c, x + y)
  {
    forall i | 0 <= i < |x + y|
      ensures Carries(c[|a| + i], (x + y)[i])
    {
      if i < |x| {
        assert c[|a| + i] == b[|a| + i];
      } else {
        assert c[|a| + i] == c[|b| + (i - |x|)];
      }
    }
  }

  /** One round of the loop in `_recv_event`: read a frame, then act on it. */
  method Round(sock: Socket, autoPong: bool, lim: Limits, cur: Option<nat>, acc: bytes) returns (r: Step)
    requires sock.Valid()
    modifies sock
    ensures sock.Valid()
    ensures sock.sendsLeft == old(sock.sendsLeft) - |r.replies|
    ensures Wrote(old(sock.sent), sock.sent, r.replies)
    ensures var x := Receive(old(sock.Pending()), old(sock.sendsLeft), autoPong, lim, sock.ending, cur, acc);
            match r
            case Stop(event, replies) => x == Received(event, sock.Pending(), replies)
            case More(cur', acc', replies) =>
              && |sock.Pending()| < |old(sock.Pending())|
              && x == After(replies, Receive(sock.Pending(), sock.sendsLeft, autoPong, lim, sock.ending, cur', acc'))
  {
    hide ParseFrame, OnFrame;
    var frame := ReadFrame(sock, lim.maxFrame);
    if frame.Err? { return Fail(frame.error); }
    r := HandleFrame(sock, frame.value, autoPong, lim, cur, acc);
  }

  /** `_recv_event`: whatever the chunk sizes, it does to the socket what `Receive` says. */
  method RecvEvent(sock: Socket, autoPong: bool, lim: Limits) returns (r: Result<Event, WsError>)
    requires sock.Valid()
    modifies sock
    ensures sock.Valid()
    ensures var x := Receive(old(sock.Pending()), old(sock.sendsLeft), autoPong, lim, sock.ending, None, []);
            && r == x.event
            && sock.Pending() == x.rest
            && sock.sendsLeft == old(sock.sendsLeft) - |x.replies|
            && Wrote(old(sock.sent), sock.sent, x.replies)
  {
    var cur: Option<nat> := None;
    var acc: bytes := [];
    ghost var replies: seq<Reply> := [];
    ghost var goal := Receive(sock.Pending(), sock.sendsLeft, autoPong, lim, sock.ending, None, []);
    while true
      invariant sock.Valid()
      invariant sock.sendsLeft == old(sock.sendsLeft) - |replies|
      invariant Wrote(old(sock.sent), sock.sent, replies)
      invariant goal == After(replies, Receive(sock.Pending(), sock.sendsLeft, autoPong, lim, sock.ending, cur, acc))
      decreases |sock.Pending()|
    {
      ghost var before := sock.sent;
      var step := Round(sock, autoPong, lim, cur, acc);
      WroteMore(old(sock.sent), before, sock.sent, replies, step.replies);
      replies := replies + step.replies;
      if step.Stop? { return step.event; }
      AfterAfter(replies[..|replies| - |step.replies|], step.replies,
                 Receive(sock.Pending(), sock.sendsLeft, autoPong, lim, sock.ending, step.cur, step.acc));
      cur, acc := step.cur, step.acc;
    }
  }
}
