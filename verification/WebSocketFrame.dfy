/** The frame codec of the WebSocket connector (sections 5.2 and 5.3 of RFC 6455). */
module WebSocketFrame {
  import opened Wire

  const OP_CONT := 0
  const OP_TEXT := 1
  const OP_BIN := 2
  const OP_CLOSE := 8
  const OP_PING := 9
  const OP_PONG := 10

  datatype Frame = Frame(fin: bool, opcode: nat, masked: bool, payload: bytes)

  /** Four mask bytes, or none for a frame that is not masked. */
  type Key = k: bytes | |k| == 4 || |k| == 0

  // ----- masking --------------------------------------------------------------------

  function Masked(payload: bytes, key: bytes): (r: bytes)
    requires |key| == 4
    ensures |r| == |payload|
  {
    seq(|payload|, i requires 0 <= i < |payload| => XorByte(payload[i], key[i % 4]))
  }

  /** Masking is an involution: the receiver undoes it with the same key. */
  lemma MaskTwice(payload: bytes, key: bytes)
    requires |key| == 4
    ensures Masked(Masked(payload, key), key) == payload
  {
    forall i | 0 <= i < |payload|
      ensures Masked(Masked(payload, key), key)[i] == payload[i]
    {
      XorTwice(payload[i], key[i % 4]);
    }
  }

  /** `_mask_payload`, in place on a copy of the payload. */
  method MaskPayload(payload: bytes, key: bytes) returns (r: bytes)
    requires |key| == 4
    ensures r == Masked(payload, key)
  {
    var out := new byte[|payload|](i requires 0 <= i < |payload| => payload[i]);
    for i := 0 to out.Length
      invariant forall k :: 0 <= k < i ==> out[k] == XorByte(payload[k], key[k % 4])
      invariant forall k :: i <= k < out.Length ==> out[k] == payload[k]
    {
      out[i] := XorByte(out[i], key[i % 4]);
    }
    r := out[..];
  }

  // ----- building -------------------------------------------------------------------

  const MAX_LENGTH: nat := 0xFFFF_FFFF_FFFF_FFFF

  /** The second header byte and the extended length, in the shortest of the three forms. */
  function LengthField(n: nat, mask: bool): (r: bytes)
    requires n <= MAX_LENGTH
    ensures |r| == if n < 126 then 1 else if n <= 0xFFFF then 3 else 9
  {
    var maskBit := if mask then 0x80 else 0;
    Widths();
    if n < 126 then [maskBit + n]
    else if n <= 0xFFFF then [maskBit + 126] + ToBig(n, 2)
    else [maskBit + 127] + ToBig(n, 8)
  }

  lemma Widths()
    ensures Pow256(2) == 0x1_0000
    ensures Pow256(8) == MAX_LENGTH + 1
  {
    assert Pow256(4) == 0x1_0000_0000;
  }

  function Shown(payload: bytes, key: Key): (r: bytes)
    ensures |r| == |payload|
  {
    if |key| == 4 then Masked(payload, key) else payload
  }

  function FirstByte(fin: bool, opcode: int): (b: byte)
    ensures (b >= 0x80) == fin && b % 16 == opcode % 16
  {
    (if fin then 0x80 else 0) + opcode % 16
  }

  /** One frame on the wire, masked when a key is given. */
  function WireFrame(fin: bool, opcode: int, payload: bytes, key: Key): bytes
    requires |payload| <= MAX_LENGTH
  {
    [FirstByte(fin, opcode)]
    + LengthField(|payload|, |key| == 4)
    + key
    + Shown(payload, key)
  }

  /** `_build_frame`: a client frame, always masked. The key is the four random bytes. */
  function BuildFrame(opcode: int, payload: bytes, fin: bool, key: bytes): bytes
    requires |payload| <= MAX_LENGTH && |key| == 4
  {
    WireFrame(fin, opcode, payload, key)
  }

  // ----- parsing --------------------------------------------------------------------

  /** The three ends of reading one frame from `s`. */
  datatype Parsed =
    | Parsed(frame: Frame, rest: bytes)
    | Short
    | TooLarge(rest: bytes)

  /** The first byte, the mask bit and the payload length, and the bytes after them. */
  datatype Header = Header(first: byte, masked: bool, length: nat, body: bytes) | NoHeader

  function ParseHeader(s: bytes): (r: Header)
    ensures r.Header? ==> |r.body| + 2 <= |s|
  {
    if |s| < 2 then NoHeader else
    var ext := ExtendedBytes(s[1]);
    if |s| < 2 + ext then NoHeader
    else Header(s[0], s[1] >= 0x80, if ext == 0 then s[1] % 0x80 else FromBig(s[2..2 + ext]), s[2 + ext..])
  }

  /** How many bytes of extended length the second header byte announces. */
  function ExtendedBytes(second: byte): nat {
    var low := second % 0x80;
    if low == 126 then 2 else if low == 127 then 8 else 0
  }

  /** The frame at the front of `s`, as `_read_frame` reads it. */
  function ParseFrame(s: bytes, maxFrame: int): (r: Parsed)
    ensures r.Parsed? ==> |r.rest| + 2 <= |s| && |r.frame.payload| <= maxFrame && r.frame.opcode < 16
  {
    match ParseHeader(s)
    case NoHeader => Short
    case Header(first, masked, n, body) => ParseBody(first, masked, n, body, maxFrame)
  }

  /** The rest of a frame once its length is known: the limit check comes before
      the mask key and the payload are read. */
  function ParseBody(first: byte, masked: bool, n: nat, body: bytes, maxFrame: int): (r: Parsed)
    ensures r.Parsed? ==> |r.rest| + n <= |body| && |r.frame.payload| == n <= maxFrame && r.frame.opcode < 16
  {
    if n > maxFrame then TooLarge(body) else
    var k := if masked then 4 else 0;
    if |body| < k + n then Short else
    var raw := body[k..k + n];
    var payload := if masked then Masked(raw, body[..4]) else raw;
    Parsed(Frame(first >= 0x80, first % 16, masked, payload), body[k + n..])
  }

  lemma HeaderReadsBack(first: byte, field: bytes, body: bytes)
    requires |field| >= 1 && |field| - 1 == ExtendedBytes(field[0])
    ensures ParseHeader([first] + field + body)
         == Header(first, field[0] >= 0x80, if |field| == 1 then field[0] % 0x80 else FromBig(field[1..]), body)
  {
    var s := [first] + field + body;
    assert s[2..1 + |field|] == field[1..];
    assert s[1 + |field|..] == body;
  }

  /** The extended length bytes of a length field, and what its low seven bits say. */
  lemma LengthReadsBack(n: nat, mask: bool)
    requires n <= MAX_LENGTH
    ensures var field := LengthField(n, mask);
            && (field[0] >= 0x80) == mask
            && |field| - 1 == ExtendedBytes(field[0])
            && n == (if |field| == 1 then field[0] % 0x80 else FromBig(field[1..]))
  {
    hide FromBig, ToBig;
    Widths();
    var field := LengthField(n, mask);
    if 126 <= n <= 0xFFFF {
      assert field[1..] == ToBig(n, 2);
      FromToBig(n, 2);
    } else if n > 0xFFFF {
      assert field[1..] == ToBig(n, 8);
      FromToBig(n, 8);
    }
  }

  lemma WireLayout(fin: bool, opcode: int, payload: bytes, key: Key, tail: bytes)
    requires |payload| <= MAX_LENGTH
    ensures WireFrame(fin, opcode, payload, key) + tail
         == [FirstByte(fin, opcode)] + LengthField(|payload|, |key| == 4) + (key + Shown(payload, key) + tail)
  {
    var a, b, c, d := [FirstByte(fin, opcode)], LengthField(|payload|, |key| == 4), key, Shown(payload, key);
    assert a + b + c + d + tail == a + b + (c + d + tail);
  }

  lemma BodyReadsBack(first: byte, payload: bytes, key: Key, tail: bytes, maxFrame: int)
    requires |payload| <= maxFrame
    ensures ParseBody(first, |key| == 4, |payload|, key + Shown(payload, key) + tail, maxFrame)
         == Parsed(Frame(first >= 0x80, first % 16, |key| == 4, payload), tail)
  {
    var shown := Shown(payload, key);
    var body := key + shown + tail;
    assert body[|key|..|key| + |payload|] == shown;
    assert body[|key| + |payload|..] == tail;
    if |key| == 4 {
      assert body[..4] == key;
      MaskTwice(payload, key);
    }
  }

  /** Reading a wire frame gives back its parts and leaves what follows it
      untouched; a payload over the limit is refused. */
  lemma FrameRoundTrip(fin: bool, opcode: int, payload: bytes, key: Key, tail: bytes, maxFrame: int)
    requires |payload| <= MAX_LENGTH
    ensures ParseFrame(WireFrame(fin, opcode, payload, key) + tail, maxFrame)
         == if |payload| <= maxFrame
            then Parsed(Frame(fin, opcode % 16, |key| == 4, payload), tail)
            else TooLarge(key + Shown(payload, key) + tail)
  {
    var first := FirstByte(fin, opcode);
    var field := LengthField(|payload|, |key| == 4);
    var body := key + Shown(payload, key) + tail;
    LengthReadsBack(|payload|, |key| == 4);
    HeaderReadsBack(first, field, body);
    WireLayout(fin, opcode, payload, key, tail);
    if |payload| <= maxFrame {
      BodyReadsBack(first, payload, key, tail, maxFrame);
    }
  }

  /** No accepted encoding of a frame is shorter than the one built for it. */
  lemma ShortestForm(s: bytes, maxFrame: int, key: Key)
    requires ParseFrame(s, maxFrame).Parsed?
    requires ParseFrame(s, maxFrame).frame.masked == (|key| == 4)
    ensures var p := ParseFrame(s, maxFrame);
            && |p.frame.payload| <= MAX_LENGTH
            && |WireFrame(p.frame.fin, p.frame.opcode, p.frame.payload, key)| <= |s| - |p.rest|
  {
    Widths();
  }
}
