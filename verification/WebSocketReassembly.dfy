/** What the receive loop accepts: exactly the frame sequences that carry one
    message (section 5.4 of RFC 6455), and what it makes of them. */
module WebSocketReassembly {
  import opened Wrappers
  import opened Wire
  import opened WebSocketFrame
  import opened WebSocketEvents

  // ----- one message as a sequence of frames ---------------------------------------

  predicate IsPing(f: Frame) {
    f.opcode == OP_PING
  }

  /** The frames that are not PINGs. */
  function DataOf(frames: seq<Frame>): seq<Frame> {
    if frames == [] then []
    else if IsPing(frames[0]) then DataOf(frames[1..])
    else [frames[0]] + DataOf(frames[1..])
  }

  function Payloads(frames: seq<Frame>): bytes {
    if frames == [] then [] else frames[0].payload + Payloads(frames[1..])
  }

  /** One PONG for each PING, in order, with the PING's own payload. */
  function Pongs(frames: seq<Frame>): seq<Reply> {
    if frames == [] then []
    else (if IsPing(frames[0]) then [Reply(OP_PONG, frames[0].payload)] else []) + Pongs(frames[1..])
  }

  /** `d` is the fragments of one message of type `op`: the first frame says the
      type (unless the message has started), the others continue, the last ends it. */
  predicate Fragments(d: seq<Frame>, started: Option<nat>, op: nat) {
    && d != []
    && (if started.Some? then started.value == op else IsData(op))
    && (forall i :: 0 <= i < |d| ==> d[i].fin == (i == |d| - 1))
    && (forall i :: 0 <= i < |d| ==> d[i].opcode == if i == 0 && started.None? then op else OP_CONT)
  }

  predicate PingsFit(frames: seq<Frame>) {
    forall i :: 0 <= i < |frames| && IsPing(frames[i]) ==> frames[i].fin && |frames[i].payload| <= MAX_CONTROL
  }

  /** `frames` completes a message of type `op` and content `data`, from an
      assembler that has `started` and holds `acc`: well-formed PINGs between the
      fragments, none after the last, and the size within the limit. */
  predicate IsMessage(frames: seq<Frame>, started: Option<nat>, acc: bytes, op: nat, data: bytes, lim: Limits) {
    && frames != [] && !IsPing(frames[|frames| - 1])
    && PingsFit(frames)
    && Fragments(DataOf(frames), started, op)
    && data == acc + Payloads(DataOf(frames))
    && (Payloads(DataOf(frames)) == [] || |data| <= lim.maxMessage)
  }

  /** The stream `s` is the frames `frames` followed by `rest`. */
  ghost predicate Reads(s: bytes, maxFrame: int, frames: seq<Frame>, rest: bytes) {
    if frames == [] then s == rest
    else
      var p := ParseFrame(s, maxFrame);
      p.Parsed? && p.frame == frames[0] && Reads(p.rest, maxFrame, frames[1..], rest)
  }

  // ----- the loop accepts exactly the messages ---------------------------------------

  lemma PingsFitCons(f: Frame, rest: seq<Frame>)
    ensures PingsFit([f] + rest) <==> (IsPing(f) ==> f.fin && |f.payload| <= MAX_CONTROL) && PingsFit(rest)
  {
    var frames := [f] + rest;
    assert frames[0] == f;
    assert forall i :: 0 <= i < |rest| ==> rest[i] == frames[i + 1];
  }

  /** After a first PING, the other frames must complete the message. */
  lemma MessageAfterPing(f: Frame, rest: seq<Frame>, started: Option<nat>, acc: bytes, op: nat, data: bytes,
                         lim: Limits)
    requires rest != [] && IsPing(f)
    ensures IsMessage([f] + rest, started, acc, op, data, lim)
            <==> f.fin && |f.payload| <= MAX_CONTROL && IsMessage(rest, started, acc, op, data, lim)
  {
    hide Fragments, PingsFit;
    var frames := [f] + rest;
    PingsFitCons(f, rest);
    assert frames[1..] == rest && frames[0] == f && frames[|frames| - 1] == rest[|rest| - 1];
  }

  /** A first fragment, in front of others. */
  lemma FragmentsAfter(f: Frame, d: seq<Frame>, started: Option<nat>, op: nat)
    requires d != []
    ensures Fragments([f] + d, started, op)
            <==> && !f.fin
                 && (if started.Some? then f.opcode == OP_CONT && started.value == op
                     else f.opcode == op && IsData(op))
                 && Fragments(d, Some(op), op)
  {
    var all := [f] + d;
    assert all[0] == f;
    assert forall i :: 0 <= i < |d| ==> d[i] == all[i + 1];
  }

  /** After a first fragment that does not end the message, so must they. */
  lemma MessageAfterFragment(f: Frame, rest: seq<Frame>, started: Option<nat>, acc: bytes, op: nat, data: bytes,
                             lim: Limits)
    requires rest != [] && !IsPing(f)
    ensures IsMessage([f] + rest, started, acc, op, data, lim)
            <==> && !f.fin
                 && (if started.Some? then f.opcode == OP_CONT && started.value == op
                     else f.opcode == op && IsData(op))
                 && (f.payload == [] || |acc| + |f.payload| <= lim.maxMessage)
                 && IsMessage(rest, Some(op), acc + f.payload, op, data, lim)
  {
    hide Fragments, PingsFit;
    var frames, d := [f] + rest, DataOf(rest);
    PingsFitCons(f, rest);
    assert frames[1..] == rest && frames[0] == f && frames[|frames| - 1] == rest[|rest| - 1];
    assert DataOf(frames) == [f] + d && ([f] + d)[1..] == d;
    assert acc + (f.payload + Payloads(d)) == acc + f.payload + Payloads(d);
    if !IsPing(rest[|rest| - 1]) {
      LastStays(rest);
      FragmentsAfter(f, d, started, op);
    }
  }

  /** After a first frame that does not end the message, the other frames complete it. */
  lemma MessageTail(frames: seq<Frame>, started: Option<nat>, acc: bytes, op: nat, data: bytes, lim: Limits)
    requires |frames| > 1
    ensures var f := frames[0];
            var rest := frames[1..];
            IsMessage(frames, started, acc, op, data, lim) <==>
              if IsPing(f) then
                f.fin && |f.payload| <= MAX_CONTROL && IsMessage(rest, started, acc, op, data, lim)
              else
                && !f.fin
                && (if started.Some? then f.opcode == OP_CONT && started.value == op
                    else f.opcode == op && IsData(op))
                && (f.payload == [] || |acc| + |f.payload| <= lim.maxMessage)
                && IsMessage(rest, Some(op), acc + f.payload, op, data, lim)
  {
    hide IsMessage;
    assert frames == [frames[0]] + frames[1..];
    if IsPing(frames[0]) {
      MessageAfterPing(frames[0], frames[1..], started, acc, op, data, lim);
    } else {
      MessageAfterFragment(frames[0], frames[1..], started, acc, op, data, lim);
    }
  }

  /** A sequence that does not end in a PING has a data frame at its end. */
  lemma {:induction false} LastStays(frames: seq<Frame>)
    requires frames != [] && !IsPing(frames[|frames| - 1])
    ensures DataOf(frames) != [] && DataOf(frames)[|DataOf(frames)| - 1] == frames[|frames| - 1]
  {
    if |frames| > 1 {
      LastStays(frames[1..]);
    }
  }

  lemma MessageEnd(f: Frame, started: Option<nat>, acc: bytes, op: nat, data: bytes, lim: Limits)
    ensures IsMessage([f], started, acc, op, data, lim) <==>
              && !IsPing(f) && f.fin && data == acc + f.payload
              && (if started.Some? then f.opcode == OP_CONT && started.value == op
                  else f.opcode == op && IsData(op))
              && (f.payload == [] || |data| <= lim.maxMessage)
  {
    assert DataOf([f]) == if IsPing(f) then [] else [f];
    assert Payloads([f]) == f.payload;
  }

  /** The PONGs written while reading `frames`. */
  function Owed(frames: seq<Frame>, autoPong: bool): seq<Reply> {
    if autoPong then Pongs(frames) else []
  }

  lemma OwedAfter(f: Frame, rest: seq<Frame>, autoPong: bool)
    ensures Owed([f] + rest, autoPong)
         == (if autoPong && IsPing(f) then [Reply(OP_PONG, f.payload)] else []) + Owed(rest, autoPong)
  {
    assert ([f] + rest)[1..] == rest;
  }

  /** How the loop treats the first frame of a message. */
  lemma FirstStep(frames: seq<Frame>, started: Option<nat>, acc: bytes, op: nat, data: bytes, lim: Limits,
                  sends: nat, autoPong: bool)
    requires IsMessage(frames, started, acc, op, data, lim)
    requires |Owed(frames, autoPong)| <= sends
    ensures var step := OnFrame(frames[0], sends, autoPong, lim, started, acc);
            if |frames| == 1 then step == Stop(Ok(Message(op, data)), []) && Owed(frames, autoPong) == []
            else
              && step.More?
              && IsMessage(frames[1..], step.cur, step.acc, op, data, lim)
              && Owed(frames, autoPong) == step.replies + Owed(frames[1..], autoPong)
  {
    assert frames == [frames[0]] + frames[1..];
    OwedAfter(frames[0], frames[1..], autoPong);
    if |frames| == 1 {
      assert frames[1..] == [] && [frames[0]] + [] == [frames[0]];
      MessageEnd(frames[0], started, acc, op, data, lim);
    } else {
      hide IsMessage, Owed;
      MessageTail(frames, started, acc, op, data, lim);
    }
  }

  /** Frames that carry a message are received as that message, and no more bytes
      than theirs are read; each PING is answered once, in order. */
  lemma {:induction false} MessageReceived(
    s: bytes, sends: nat, autoPong: bool, lim: Limits, ending: Ending, started: Option<nat>, acc: bytes,
    frames: seq<Frame>, rest: bytes, op: nat, data: bytes)
    requires frames != [] && Reads(s, lim.maxFrame, frames, rest)
    requires IsMessage(frames, started, acc, op, data, lim)
    requires |Owed(frames, autoPong)| <= sends
    ensures Receive(s, sends, autoPong, lim, ending, started, acc)
         == Received(Ok(Message(op, data)), rest, Owed(frames, autoPong))
    decreases |frames|
  {
    hide ParseFrame, IsMessage, OnFrame, Owed;
    FirstStep(frames, started, acc, op, data, lim, sends, autoPong);
    var p := ParseFrame(s, lim.maxFrame);
    ReceiveFrame(s, p.frame, p.rest, sends, autoPong, lim, ending, started, acc);
    if |frames| == 1 {
      assert Reads(p.rest, lim.maxFrame, [], rest);
    } else {
      var step := OnFrame(p.frame, sends, autoPong, lim, started, acc);
      MessageReceived(p.rest, sends - |step.replies|, autoPong, lim, ending, step.cur, step.acc,
                      frames[1..], rest, op, data);
      assert After(step.replies, Received(Ok(Message(op, data)), rest, Owed(frames[1..], autoPong)))
          == Received(Ok(Message(op, data)), rest, Owed(frames, autoPong));
    }
  }

  /** A message is received from no other streams. */
  lemma {:induction false} MessageSound(
    s: bytes, sends: nat, autoPong: bool, lim: Limits, ending: Ending, started: Option<nat>, acc: bytes)
    returns (frames: seq<Frame>)
    requires var x := Receive(s, sends, autoPong, lim, ending, started, acc); x.event.Ok? && x.event.value.Message?
    ensures var x := Receive(s, sends, autoPong, lim, ending, started, acc);
            var m := x.event.value;
            && Reads(s, lim.maxFrame, frames, x.rest)
            && IsMessage(frames, started, acc, m.opcode, m.data, lim)
            && |Owed(frames, autoPong)| <= sends
    decreases |s|
  {
    hide ParseFrame, IsMessage;
    var x := Receive(s, sends, autoPong, lim, ending, started, acc);
    var m := x.event.value;
    var p := ParseFrame(s, lim.maxFrame);
    var step := OnFrame(p.frame, sends, autoPong, lim, started, acc);
    if step.Stop? {
      frames := [p.frame];
      OwedAfter(p.frame, [], autoPong);
      assert [p.frame] + [] == frames && frames[1..] == [];
      MessageEnd(p.frame, started, acc, m.opcode, m.data, lim);
      assert Reads(p.rest, lim.maxFrame, frames[1..], x.rest);
    } else {
      var others := MessageSound(p.rest, sends - |step.replies|, autoPong, lim, ending, step.cur, step.acc);
      frames := [p.frame] + others;
      OwedAfter(p.frame, others, autoPong);
      assert frames[1..] == others;
      StartedOp(others, step.cur, step.acc, m.opcode, m.data, lim);
      MessageTail(frames, started, acc, m.opcode, m.data, lim);
    }
  }

  lemma StartedOp(frames: seq<Frame>, started: Option<nat>, acc: bytes, op: nat, data: bytes, lim: Limits)
    requires IsMessage(frames, started, acc, op, data, lim)
    ensures started.Some? ==> started.value == op
    ensures |frames| >= 1
  {
  }

  ghost predicate CarriesMessage(s: bytes, sends: nat, autoPong: bool, lim: Limits,
                                 frames: seq<Frame>, rest: bytes, op: nat, data: bytes) {
    && Reads(s, lim.maxFrame, frames, rest)
    && IsMessage(frames, None, [], op, data, lim)
    && |Owed(frames, autoPong)| <= sends
  }

  /** `_recv_event` returns the message `data` and stops before `rest` if and only
      if the stream is frames carrying that message, then `rest` (and the PONGs it
      owes can be written). */
  lemma ReceivesExactlyMessages(s: bytes, sends: nat, autoPong: bool, lim: Limits, ending: Ending,
                                op: nat, data: bytes, rest: bytes)
    ensures var x := Receive(s, sends, autoPong, lim, ending, None, []);
            (x.event == Ok(Message(op, data)) && x.rest == rest)
            <==> exists frames :: CarriesMessage(s, sends, autoPong, lim, frames, rest, op, data)
  {
    hide ParseFrame;
    var x := Receive(s, sends, autoPong, lim, ending, None, []);
    if x.event == Ok(Message(op, data)) && x.rest == rest {
      var frames := MessageSound(s, sends, autoPong, lim, ending, None, []);
      assert CarriesMessage(s, sends, autoPong, lim, frames, rest, op, data);
    }
    if frames :| CarriesMessage(s, sends, autoPong, lim, frames, rest, op, data) {
      MessageReceived(s, sends, autoPong, lim, ending, None, [], frames, rest, op, data);
    }
  }

  // ----- the fragmented round trip -----------------------------------------------------

  /** What a sender puts on the wire while sending one message. */
  datatype Item = Fragment(data: bytes, key: Key) | PingItem(data: bytes, key: Key)

  function Content(items: seq<Item>): bytes {
    if items == [] then []
    else (if items[0].Fragment? then items[0].data else []) + Content(items[1..])
  }

  function PongsFor(items: seq<Item>): seq<Reply> {
    if items == [] then []
    else (if items[0].PingItem? then [Reply(OP_PONG, items[0].data)] else []) + PongsFor(items[1..])
  }

  /** The items end with a fragment, and every one fits the limits. */
  predicate Sendable(items: seq<Item>, lim: Limits) {
    && items != [] && items[|items| - 1].Fragment?
    && forall i :: 0 <= i < |items| ==>
         && |items[i].data| <= lim.maxFrame && |items[i].data| <= MAX_LENGTH
         && (items[i].PingItem? ==> |items[i].data| <= MAX_CONTROL)
  }

  function FrameOf(item: Item, last: bool, started: bool, op: nat): Frame {
    if item.PingItem? then Frame(true, OP_PING, |item.key| == 4, item.data)
    else Frame(last, if started then OP_CONT else op, |item.key| == 4, item.data)
  }

  /** The bytes: first fragment of type `op`, the others continuations, the last with fin. */
  function Bytes(items: seq<Item>, started: bool, op: nat, lim: Limits): bytes
    requires Sendable(items, lim) && op < 16
  {
    var f := FrameOf(items[0], |items| == 1, started, op);
    WireFrame(f.fin, f.opcode, f.payload, items[0].key)
    + if |items| == 1 then [] else Bytes(items[1..], started || items[0].Fragment?, op, lim)
  }

  /** The frames that `Bytes` puts on the wire. */
  function FramesOf(items: seq<Item>, started: bool, op: nat): seq<Frame> {
    if items == [] then []
    else [FrameOf(items[0], |items| == 1, started, op)] + FramesOf(items[1..], started || items[0].Fragment?, op)
  }

  lemma ReadsFrame(f: Frame, key: Key, s: bytes, lim: Limits, frames: seq<Frame>, rest: bytes)
    requires |f.payload| <= MAX_LENGTH && |f.payload| <= lim.maxFrame && f.opcode < 16 && f.masked == (|key| == 4)
    requires Reads(s, lim.maxFrame, frames, rest)
    ensures Reads(WireFrame(f.fin, f.opcode, f.payload, key) + s, lim.maxFrame, [f] + frames, rest)
  {
    hide ParseFrame, WireFrame;
    FrameRoundTrip(f.fin, f.opcode, f.payload, key, s, lim.maxFrame);
    assert ([f] + frames)[1..] == frames;
  }

  lemma {:induction false} BytesRead(items: seq<Item>, started: bool, op: nat, lim: Limits, tail: bytes)
    requires Sendable(items, lim) && op < 16
    ensures Reads(Bytes(items, started, op, lim) + tail, lim.maxFrame, FramesOf(items, started, op), tail)
    decreases |items|
  {
    hide ParseFrame, WireFrame;
    var item := items[0];
    var f := FrameOf(item, |items| == 1, started, op);
    var front := WireFrame(f.fin, f.opcode, f.payload, item.key);
    var back := if |items| == 1 then [] else Bytes(items[1..], started || item.Fragment?, op, lim);
    var others := FramesOf(items[1..], started || item.Fragment?, op);
    assert Bytes(items, started, op, lim) + tail == front + (back + tail);
    if |items| == 1 {
      assert others == [] && back + tail == tail;
    } else {
      BytesRead(items[1..], started || item.Fragment?, op, lim, tail);
    }
    assert Reads(back + tail, lim.maxFrame, others, tail);
    ReadsFrame(f, item.key, back + tail, lim, others, tail);
  }

  lemma {:induction false} FramesCarry(items: seq<Item>, started: Option<nat>, acc: bytes, op: nat, lim: Limits)
    requires Sendable(items, lim) && op < 16
    requires if started.Some? then started.value == op else IsData(op)
    requires |acc + Content(items)| <= lim.maxMessage
    ensures IsMessage(FramesOf(items, started.Some?, op), started, acc, op, acc + Content(items), lim)
    ensures Pongs(FramesOf(items, started.Some?, op)) == PongsFor(items)
    decreases |items|
  {
    hide IsMessage;
    var item := items[0];
    var f := FrameOf(item, |items| == 1, started.Some?, op);
    var frames := FramesOf(items, started.Some?, op);
    if |items| == 1 {
      assert Content(items) == item.data;
      assert FramesOf(items[1..], started.Some? || item.Fragment?, op) == [];
      assert frames == [f];
      MessageEnd(f, started, acc, op, acc + Content(items), lim);
    } else {
      var started' := if item.Fragment? then Some(op) else started;
      var acc' := if item.Fragment? then acc + item.data else acc;
      assert acc' + Content(items[1..]) == acc + Content(items);
      FramesCarry(items[1..], started', acc', op, lim);
      assert frames[1..] == FramesOf(items[1..], started'.Some?, op);
      MessageTail(frames, started, acc, op, acc + Content(items), lim);
    }
  }

  /** Every payload, split in any way, with any PINGs between the fragments, masked
      or not, is received as one message of the first fragment's type; exactly its
      bytes are read, and each PING is answered once with its own payload. */
  lemma FragmentedRoundTrip(items: seq<Item>, op: nat, lim: Limits, tail: bytes,
                            sends: nat, autoPong: bool, ending: Ending)
    requires Sendable(items, lim) && IsData(op)
    requires |Content(items)| <= lim.maxMessage
    requires autoPong ==> |PongsFor(items)| <= sends
    ensures Receive(Bytes(items, false, op, lim) + tail, sends, autoPong, lim, ending, None, [])
         == Received(Ok(Message(op, Content(items))), tail, if autoPong then PongsFor(items) else [])
  {
    hide IsMessage, ParseFrame;
    assert [] + Content(items) == Content(items);
    BytesRead(items, false, op, lim, tail);
    FramesCarry(items, None, [], op, lim);
    MessageReceived(Bytes(items, false, op, lim) + tail, sends, autoPong, lim, ending, None, [],
                    FramesOf(items, false, op), tail, op, Content(items));
  }

  // ----- a PONG among the fragments -----------------------------------------------------

  predicate HasFragment(items: seq<Item>) {
    exists i :: 0 <= i < |items| && items[i].Fragment?
  }

  predicate Fit(items: seq<Item>, lim: Limits) {
    forall i :: 0 <= i < |items| ==>
      && |items[i].data| <= lim.maxFrame && |items[i].data| <= MAX_LENGTH
      && (items[i].PingItem? ==> |items[i].data| <= MAX_CONTROL)
  }

  /** The bytes of items that do not end their message. */
  function OpenBytes(items: seq<Item>, started: bool, op: nat, lim: Limits): bytes
    requires Fit(items, lim) && op < 16
  {
    if items == [] then []
    else
      var f := FrameOf(items[0], false, started, op);
      WireFrame(f.fin, f.opcode, f.payload, items[0].key) + OpenBytes(items[1..], started || items[0].Fragment?, op,
                                                                      lim)
  }

  function Answers(items: seq<Item>, autoPong: bool): seq<Reply> {
    if autoPong then PongsFor(items) else []
  }

  /** What an item that does not end its message leaves the loop with. */
  function CurAfter(item: Item, started: Option<nat>, op: nat): Option<nat> {
    if item.Fragment? then Some(op) else started
  }

  function AccAfter(item: Item, acc: bytes): bytes {
    if item.Fragment? then acc + item.data else acc
  }

  lemma OpenFrame(item: Item, started: Option<nat>, acc: bytes, op: nat, lim: Limits, sends: nat, autoPong: bool)
    requires Fit([item], lim) && IsData(op) && started in {None, Some(op)}
    requires |AccAfter(item, acc)| <= lim.maxMessage && |Answers([item], autoPong)| <= sends
    ensures OnFrame(FrameOf(item, false, started.Some?, op), sends, autoPong, lim, started, acc)
         == More(CurAfter(item, started, op), AccAfter(item, acc), Answers([item], autoPong))
  {
    assert [item][0] == item && [item][1..] == [];
    assert PongsFor([]) == [];
    assert [Reply(OP_PONG, item.data)] + [] == [Reply(OP_PONG, item.data)];
  }

  lemma OpenStep(item: Item, later: seq<Item>, started: Option<nat>, acc: bytes, op: nat, autoPong: bool)
    ensures AccAfter(item, acc) + Content(later) == acc + Content([item] + later)
    ensures Answers([item], autoPong) + Answers(later, autoPong) == Answers([item] + later, autoPong)
    ensures (if HasFragment(later) then Some(op) else CurAfter(item, started, op))
         == (if HasFragment([item] + later) then Some(op) else started)
  {
    hide HasFragment, Content, PongsFor;
    ContentStep(item, later, acc);
    PongsStep(item, later);
    FragmentAmong(item, later);
  }

  lemma ContentStep(item: Item, later: seq<Item>, acc: bytes)
    ensures AccAfter(item, acc) + Content(later) == acc + Content([item] + later)
  {
    assert ([item] + later)[1..] == later;
    assert acc + item.data + Content(later) == acc + (item.data + Content(later));
    assert [] + Content(later) == Content(later);
  }

  lemma PongsStep(item: Item, later: seq<Item>)
    ensures PongsFor([item]) + PongsFor(later) == PongsFor([item] + later)
  {
    assert ([item] + later)[1..] == later && [item][1..] == [];
    assert [Reply(OP_PONG, item.data)] + [] == [Reply(OP_PONG, item.data)];
    assert PongsFor([]) == [];
  }

  lemma FragmentAmong(item: Item, later: seq<Item>)
    ensures HasFragment([item] + later) <==> item.Fragment? || HasFragment(later)
  {
    var items := [item] + later;
    assert items[0] == item;
    assert forall i :: 0 <= i < |later| ==> later[i] == items[i + 1];
    if HasFragment(items) {
      var i :| 0 <= i < |items| && items[i].Fragment?;
      assert i > 0 ==> later[i - 1].Fragment?;
    }
  }

  /** Reading such items leaves the receive loop with their content. */
  lemma {:induction false} OpenRead(items: seq<Item>, started: Option<nat>, acc: bytes, op: nat, rest: bytes,
                                    lim: Limits,
                                    sends: nat, autoPong: bool, ending: Ending)
    requires Fit(items, lim) && IsData(op) && started in {None, Some(op)}
    requires |acc + Content(items)| <= lim.maxMessage && |Answers(items, autoPong)| <= sends
    ensures Receive(OpenBytes(items, started.Some?, op, lim) + rest, sends, autoPong, lim, ending, started, acc)
         == After(Answers(items, autoPong),
                  Receive(rest, sends - |Answers(items, autoPong)|, autoPong, lim, ending,
                          if HasFragment(items) then Some(op) else started, acc + Content(items)))
    decreases |items|
  {
    hide ParseFrame, WireFrame, Receive, OnFrame, AccAfter, HasFragment, FrameOf;
    if items == [] {
      NoItems(acc, lim, op, started.Some?, rest, autoPong);
    } else {
      var item, later := items[0], items[1..];
      assert items == [item] + later;
      OpenStep(item, later, started, acc, op, autoPong);
      OpenFrame(item, started, acc, op, lim, sends, autoPong);
      ReadOpen(items, started, acc, op, rest, lim, sends, autoPong, ending);
      var left := sends - |Answers([item], autoPong)|;
      OpenRead(later, CurAfter(item, started, op), AccAfter(item, acc), op, rest, lim, left, autoPong, ending);
      AfterAfter(Answers([item], autoPong), Answers(later, autoPong),
                 Receive(rest, sends - |Answers(items, autoPong)|, autoPong, lim, ending,
                         if HasFragment(items) then Some(op) else started, acc + Content(items)));
    }
  }

  lemma NoItems(acc: bytes, lim: Limits, op: nat, started: bool, rest: bytes, autoPong: bool)
    requires op < 16
    ensures OpenBytes([], started, op, lim) + rest == rest && acc + Content([]) == acc
    ensures Answers([], autoPong) == [] && !HasFragment([])
    ensures forall x: Received :: After([], x) == x
  {
    assert forall x: Received :: [] + x.replies == x.replies;
  }

  /** The first of the items is read by one turn of the loop. */
  lemma ReadOpen(items: seq<Item>, started: Option<nat>, acc: bytes, op: nat, rest: bytes, lim: Limits,
                 sends: nat, autoPong: bool, ending: Ending)
    requires Fit(items, lim) && items != [] && IsData(op)
    requires |Answers([items[0]], autoPong)| <= sends
    requires OnFrame(FrameOf(items[0], false, started.Some?, op), sends, autoPong, lim, started, acc)
          == More(CurAfter(items[0], started, op), AccAfter(items[0], acc), Answers([items[0]], autoPong))
    ensures var cur := CurAfter(items[0], started, op);
            Receive(OpenBytes(items, started.Some?, op, lim) + rest, sends, autoPong, lim, ending, started, acc)
            == After(Answers([items[0]], autoPong),
                     Receive(OpenBytes(items[1..], cur.Some?, op, lim) + rest, sends - |Answers([items[0]], autoPong)|,
                             autoPong, lim, ending, cur, AccAfter(items[0], acc)))
  {
    hide ParseFrame, WireFrame, Receive, OnFrame, AccAfter, Answers;
    var item := items[0];
    var f := FrameOf(item, false, started.Some?, op);
    var more := OpenBytes(items[1..], started.Some? || item.Fragment?, op, lim) + rest;
    var s := OpenBytes(items, started.Some?, op, lim) + rest;
    assert s == WireFrame(f.fin, f.opcode, f.payload, item.key) + more;
    FrameRoundTrip(f.fin, f.opcode, f.payload, item.key, more, lim.maxFrame);
    ReceiveFrame(s, f, more, sends, autoPong, lim, ending, started, acc);
  }

  /** Continuations without a start are an error, after any PINGs before them. */
  lemma {:induction false} StrayContinuation(items: seq<Item>, op: nat, tail: bytes, lim: Limits,
                                             sends: nat, autoPong: bool, ending: Ending)
    requires Sendable(items, lim) && op < 16 && |Answers(items, autoPong)| <= sends
    ensures Receive(Bytes(items, true, op, lim) + tail, sends, autoPong, lim, ending, None,
                    []).event == Err(UnexpectedContinuation)
    decreases |items|
  {
    hide ParseFrame, WireFrame, Receive, OnFrame;
    var item := items[0];
    var f := FrameOf(item, |items| == 1, true, op);
    var more := (if |items| == 1 then [] else Bytes(items[1..], true, op, lim)) + tail;
    var s := Bytes(items, true, op, lim) + tail;
    StrayBytes(items, op, tail, lim);
    FrameRoundTrip(f.fin, f.opcode, f.payload, item.key, more, lim.maxFrame);
    ReceiveFrame(s, f, more, sends, autoPong, lim, ending, None, []);
    StrayFrame(items, op, lim, sends, autoPong);
    if item.PingItem? {
      StrayContinuation(items[1..], op, tail, lim, sends - |Answers([item], autoPong)|, autoPong, ending);
    }
  }

  lemma StrayBytes(items: seq<Item>, op: nat, tail: bytes, lim: Limits)
    requires Sendable(items, lim) && op < 16
    ensures var f := FrameOf(items[0], |items| == 1, true, op);
            Bytes(items, true, op, lim) + tail
            == WireFrame(f.fin, f.opcode, f.payload, items[0].key)
               + ((if |items| == 1 then [] else Bytes(items[1..], true, op, lim)) + tail)
  {
    hide WireFrame;
  }

  lemma StrayFrame(items: seq<Item>, op: nat, lim: Limits, sends: nat, autoPong: bool)
    requires Sendable(items, lim) && |Answers(items, autoPong)| <= sends
    ensures var x := OnFrame(FrameOf(items[0], |items| == 1, true, op), sends, autoPong, lim, None, []);
            if items[0].Fragment? then x == Fail(UnexpectedContinuation)
            else
              && x == More(None, [], Answers([items[0]], autoPong)) && Sendable(items[1..], lim)
              && |Answers([items[0]], autoPong)| + |Answers(items[1..], autoPong)| == |Answers(items, autoPong)|
  {
    assert [items[0]][1..] == [] && PongsFor([]) == [];
  }

  /** Section 5.4 lets a peer send a PONG among the fragments of a message. The connector
      returns the PONG at once; the call after it receives the message if and only if no
      fragment came before the PONG. Otherwise the fragments read are forgotten and the
      next one is an error. */
  lemma PongAmongFragments(before: seq<Item>, pong: bytes, key: Key, after: seq<Item>, op: nat, tail: bytes,
                           lim: Limits,
                           sends: nat, again: nat, autoPong: bool, ending: Ending)
    requires Fit(before, lim) && Sendable(after, lim) && IsData(op) && |Content(before + after)| <= lim.maxMessage
    requires |pong| <= MAX_CONTROL && |pong| <= lim.maxFrame
    requires |Answers(before, autoPong)| <= sends && |Answers(after, autoPong)| <= again
    ensures var rest := Bytes(after, HasFragment(before), op, lim) + tail;
            var s := OpenBytes(before, false, op, lim) + (WireFrame(true, OP_PONG, pong, key) + rest);
            var first := Receive(s, sends, autoPong, lim, ending, None, []);
            var second := Receive(first.rest, again, autoPong, lim, ending, None, []);
            && first == Received(Ok(Pong(pong)), rest, Answers(before, autoPong))
            && (second.event == Ok(Message(op, Content(before + after))) <==> !HasFragment(before))
            && (HasFragment(before) ==> second.event == Err(UnexpectedContinuation))
  {
    hide ParseFrame, WireFrame, Sendable, Answers, HasFragment, Content, Receive, Bytes, OpenBytes, Fit;
    var rest := Bytes(after, HasFragment(before), op, lim) + tail;
    var middle := WireFrame(true, OP_PONG, pong, key) + rest;
    ContentConcat(before, after);
    FrameRoundTrip(true, OP_PONG, pong, key, rest, lim.maxFrame);
    OpenRead(before, None, [], op, middle, lim, sends, autoPong, ending);
    ReceiveFrame(middle, Frame(true, OP_PONG, |key| == 4, pong), rest, sends - |Answers(before, autoPong)|, autoPong,
                 lim, ending,
                 if HasFragment(before) then Some(op) else None, [] + Content(before));
    assert Answers(before, autoPong) + [] == Answers(before, autoPong);
    if HasFragment(before) {
      StrayContinuation(after, op, tail, lim, again, autoPong, ending);
    } else {
      AnswersArePongs(after, autoPong);
      assert [] + Content(after) == Content(after);
      FragmentedRoundTrip(after, op, lim, tail, again, autoPong, ending);
    }
  }

  lemma AnswersArePongs(items: seq<Item>, autoPong: bool)
    ensures Answers(items, autoPong) == if autoPong then PongsFor(items) else []
  {
  }

  lemma {:induction false} ContentConcat(a: seq<Item>, b: seq<Item>)
    ensures Content(a + b) == Content(a) + Content(b)
    ensures !HasFragment(a) ==> Content(a) == []
  {
    if a == [] {
      assert a + b == b;
    } else {
      assert (a + b)[1..] == a[1..] + b;
      ContentConcat(a[1..], b);
      if !HasFragment(a) {
        assert forall i :: 0 <= i < |a[1..]| ==> a[1..][i] == a[i + 1];
      }
    }
  }
}
