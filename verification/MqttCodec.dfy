/** The MQTT 3.1.1 wire format: Remaining Length, strings and packets. */
module MqttCodec {
  import opened Wrappers
  import opened Wire
  import Utf8
  import Text

  const CONNECT := 1
  const PUBLISH := 3
  const SUBSCRIBE := 8
  const SUBACK := 9

  const MAX_TOPIC_LEN := 512

  datatype MqttError =
    | ConnectionClosed | RecvTimeout | RecvFailed | SendFailed
    | NegativeLength | LengthTooLarge | LengthMalformed | PacketTooLarge
    | StringTooLong | ShortStringLength | ShortString | NotUtf8
    | TopicMissing | TopicControl | TopicWildcard | TopicTooLong
    | QosUnsupported | TimeoutRange | KeepAliveRange | ShortSuback | ExpectedSuback | SubackIdMismatch

  // ----- Remaining Length (section 2.2.3) ----------------------------------------------

  function Pow128(k: nat): (p: nat)
    ensures p >= 1
  {
    if k == 0 then 1 else 128 * Pow128(k - 1)
  }

  function EncodeVarint(n: nat): (b: bytes)
    ensures |b| >= 1
  {
    if n < 128 then [n] else [n % 128 + 128] + EncodeVarint(n / 128)
  }

  /** `k` bytes are enough exactly below 128^k. */
  lemma {:induction false} VarintLength(n: nat, k: nat)
    requires k >= 1
    ensures |EncodeVarint(n)| <= k <==> n < Pow128(k)
    decreases k
  {
    if n >= 128 && k > 1 {
      VarintLength(n / 128, k - 1);
    } else if n >= 128 {
      assert Pow128(1) == 128;
    } else {
      assert Pow128(k) == 128 * Pow128(k - 1);
    }
  }

  /** `_encode_varint`: its guard lets five bytes through, so it refuses from 128^5 on. */
  method BuildVarint(n: int) returns (r: Result<bytes, MqttError>)
    ensures r == VarintOf(n)
  {
    if n < 0 { return Err(NegativeLength); }
    var out: bytes := [];
    var x: nat := n;
    while true
      invariant |out| <= 4
      invariant EncodeVarint(n) == out + EncodeVarint(x)
      decreases x
    {
      var digit := x % 128;
      ghost var before := x;
      x := x / 128;
      if x > 0 { digit := digit + 0x80; }
      assert EncodeVarint(before) == [digit] + if x > 0 then EncodeVarint(x) else [];
      assert out + ([digit] + EncodeVarint(x)) == (out + [digit]) + EncodeVarint(x);
      out := out + [digit];
      VarintLength(n, 5);
      if x == 0 { return Ok(out); }
      if |out| > 4 { return Err(LengthTooLarge); }
    }
  }

  function VarintOf(n: int): Result<bytes, MqttError> {
    if n < 0 then Err(NegativeLength)
    else if n >= Pow128(5) then Err(LengthTooLarge)
    else Ok(EncodeVarint(n))
  }

  datatype Length = Length(n: nat, rest: bytes) | LengthCut | LengthBad(rest: bytes)

  /** The Remaining Length at the front of `s`, in at most `left` bytes. */
  function ParseVarint(s: bytes, left: nat): Length {
    if left == 0 then LengthBad(s)
    else if s == [] then LengthCut
    else if s[0] < 128 then Length(s[0], s[1..])
    else
      match ParseVarint(s[1..], left - 1)
      case Length(n, rest) => Length(s[0] - 128 + 128 * n, rest)
      case LengthCut => LengthCut
      case LengthBad(rest) => LengthBad(rest)
  }

  /** What an encoding reads back as: itself, with the rest of the stream untouched,
      when it is within the byte limit, and malformed otherwise. */
  lemma {:induction false} VarintReadsBack(n: nat, tail: bytes, left: nat)
    ensures var r := ParseVarint(EncodeVarint(n) + tail, left);
            if |EncodeVarint(n)| <= left then r == Length(n, tail) else r.LengthBad?
    decreases left
  {
    var b := EncodeVarint(n);
    if left > 0 {
      if n < 128 {
        assert ([n] + tail)[1..] == tail;
      } else {
        assert (b + tail)[1..] == EncodeVarint(n / 128) + tail;
        VarintReadsBack(n / 128, tail, left - 1);
      }
    }
  }

  /** Whatever is accepted in `k` bytes is below 128^k and has no shorter encoding
      than the one the encoder builds. */
  lemma {:induction false} VarintMinimal(s: bytes, left: nat)
    requires ParseVarint(s, left).Length?
    ensures var r := ParseVarint(s, left);
            && r.n < Pow128(left)
            && |EncodeVarint(r.n)| <= |s| - |r.rest| <= left
    decreases left
  {
    if s[0] >= 128 {
      VarintMinimal(s[1..], left - 1);
      var r := ParseVarint(s[1..], left - 1);
      if r.n > 0 {
        assert ParseVarint(s, left).n / 128 == r.n;
      }
    }
  }

  /** The code is prefix-free: from the bytes alone the number and the rest are determined. */
  lemma {:induction false} VarintPrefixFree(m: nat, n: nat, a: bytes, b: bytes)
    requires EncodeVarint(m) + a == EncodeVarint(n) + b
    ensures m == n && a == b
  {
    var k := |EncodeVarint(m)| + |EncodeVarint(n)|;
    VarintReadsBack(m, a, k);
    VarintReadsBack(n, b, k);
  }

  /** The round trip of the connector holds exactly below 128^4. From there up to
      128^5 the encoder still accepts the length and the decoder never does. */
  lemma VarintBoundary(n: nat, tail: bytes)
    ensures VarintOf(n).Ok? <==> n < Pow128(5)
    ensures VarintOf(n).Ok? ==>
              var r := ParseVarint(VarintOf(n).value + tail, 4);
              && (r == Length(n, tail) <==> n < Pow128(4))
              && (r.LengthBad? <==> n >= Pow128(4))
  {
    VarintLength(n, 4);
    VarintReadsBack(n, tail, 4);
  }

  // ----- reading from the socket -----------------------------------------------------------

  function EndingError(e: Ending): MqttError {
    match e
    case Closed => ConnectionClosed
    case TimedOut => RecvTimeout
    case Broken => RecvFailed
  }

  /** `_decode_varint`, one byte at a time. */
  method ReadVarint(sock: Socket) returns (r: Result<nat, MqttError>)
    requires sock.Valid()
    modifies sock`chunks
    ensures sock.Valid()
    ensures match ParseVarint(old(sock.Pending()), 4)
            case Length(n, rest) => r == Ok(n) && sock.Pending() == rest
            case LengthCut => r == Err(EndingError(sock.ending)) && sock.Pending() == []
            case LengthBad(rest) => r == Err(LengthMalformed) && sock.Pending() == rest
  {
    hide ParseVarint;
    var multiplier: nat := 1;
    var value: nat := 0;
    ghost var goal := ParseVarint(sock.Pending(), 4);
    NoDigits(sock.Pending(), 4);
    for i := 0 to 4
      invariant sock.Valid()
      invariant goal == Scaled(value, multiplier, ParseVarint(sock.Pending(), 4 - i))
    {
      ghost var s := sock.Pending();
      DigitStep(s, 4 - i, value, multiplier);
      var b := sock.RecvExact(1);
      if b.Err? { return Err(EndingError(b.error)); }
      var digit := b.value[0];
      assert digit == s[0] && sock.Pending() == s[1..];
      value := value + digit % 128 * multiplier;
      multiplier := multiplier * 128;
      if digit < 128 { return Ok(value); }
    }
    NoDigits(sock.Pending(), 0);
    r := Err(LengthMalformed);
  }

  /** The digits still to come, on top of those already summed. */
  function Scaled(value: nat, multiplier: nat, later: Length): Length {
    match later
    case Length(n, rest) => Length(value + multiplier * n, rest)
    case _ => later
  }

  lemma NoDigits(s: bytes, left: nat)
    ensures Scaled(0, 1, ParseVarint(s, left)) == ParseVarint(s, left)
    ensures ParseVarint(s, 0) == LengthBad(s)
  {
  }

  lemma DigitStep(s: bytes, left: nat, value: nat, multiplier: nat)
    requires left > 0
    ensures Scaled(value, multiplier, ParseVarint(s, left))
         == if s == [] then LengthCut
            else if s[0] < 128 then Length(value + s[0] % 128 * multiplier, s[1..])
            else Scaled(value + s[0] % 128 * multiplier, multiplier * 128, ParseVarint(s[1..], left - 1))
  {
    if s != [] && s[0] >= 128 {
      var later := ParseVarint(s[1..], left - 1);
      if later.Length? {
        Distribute(multiplier, s[0] % 128, later.n);
      }
    }
  }

  lemma Distribute(m: nat, d: nat, n: nat)
    ensures m * (d + 128 * n) == d * m + m * 128 * n
  {
  }

  datatype Packet = Packet(kind: nat, flags: nat, body: bytes)

  datatype PacketRead = Got(packet: Packet, rest: bytes) | Cut | Malformed(rest: bytes) | TooBig(rest: bytes)

  function ParsePacket(s: bytes, maxPacket: int): (r: PacketRead) {
    if s == [] then Cut else
    match ParseVarint(s[1..], 4)
    case LengthCut => Cut
    case LengthBad(rest) => Malformed(rest)
    case Length(n, rest) =>
      if n > maxPacket then TooBig(rest)
      else if |rest| < n then Cut
      else Got(Packet(s[0] / 16, s[0] % 16, rest[..n]), rest[n..])
  }

  /** `_read_packet`. */
  method ReadPacket(sock: Socket, maxPacket: int) returns (r: Result<Packet, MqttError>)
    requires sock.Valid()
    modifies sock`chunks
    ensures sock.Valid()
    ensures match ParsePacket(old(sock.Pending()), maxPacket)
            case Got(p, rest) => r == Ok(p) && sock.Pending() == rest
            case Cut => r == Err(EndingError(sock.ending)) && sock.Pending() == []
            case Malformed(rest) => r == Err(LengthMalformed) && sock.Pending() == rest
            case TooBig(rest) => r == Err(PacketTooLarge) && sock.Pending() == rest
  {
    var first := sock.RecvExact(1);
    if first.Err? { return Err(EndingError(first.error)); }
    var b0 := first.value[0];
    var n := ReadVarint(sock);
    if n.Err? { return Err(n.error); }
    if n.value > maxPacket { return Err(PacketTooLarge); }
    var body: bytes := [];
    if n.value != 0 {
      var b := sock.RecvExact(n.value);
      if b.Err? { return Err(EndingError(b.error)); }
      body := b.value;
    }
    r := Ok(Packet(b0 / 16, b0 % 16, body));
  }

  // ----- packets on the wire ------------------------------------------------------------------

  predicate IsPacket(p: Packet) {
    p.kind < 16 && p.flags < 16
  }

  /** The fixed header and the body. */
  function PacketBytes(p: Packet): bytes
    requires IsPacket(p)
  {
    [p.kind * 16 + p.flags] + EncodeVarint(|p.body|) + p.body
  }

  /** A packet reads back as itself and the stream goes on after it, if its length is
      below 128^4 and within the limit. */
  lemma PacketRoundTrip(p: Packet, tail: bytes, maxPacket: int)
    requires IsPacket(p) && |p.body| < Pow128(4) && |p.body| <= maxPacket
    ensures ParsePacket(PacketBytes(p) + tail, maxPacket) == Got(p, tail)
  {
    var s := PacketBytes(p) + tail;
    assert s[1..] == EncodeVarint(|p.body|) + (p.body + tail);
    VarintBoundary(|p.body|, p.body + tail);
    assert (p.body + tail)[..|p.body|] == p.body && (p.body + tail)[|p.body|..] == tail;
  }

  function StreamBytes(ps: seq<Packet>): bytes
    requires forall i :: 0 <= i < |ps| ==> IsPacket(ps[i])
  {
    if ps == [] then [] else PacketBytes(ps[0]) + StreamBytes(ps[1..])
  }

  /** `count` packets read one after the other, and the bytes left. */
  function ReadMany(s: bytes, maxPacket: int, count: nat): Option<(seq<Packet>, bytes)>
    decreases count
  {
    if count == 0 then Some(([], s)) else
    match ParsePacket(s, maxPacket)
    case Got(p, rest) =>
      (match ReadMany(rest, maxPacket, count - 1)
       case Some((ps, end)) => Some(([p] + ps, end))
       case None => None)
    case _ => None
  }

  /** A whole stream of packets is read back as exactly those packets. */
  lemma {:induction false} StreamRoundTrip(ps: seq<Packet>, tail: bytes, maxPacket: int)
    requires forall i :: 0 <= i < |ps| ==> IsPacket(ps[i]) && |ps[i].body| < Pow128(4) && |ps[i].body| <= maxPacket
    ensures ReadMany(StreamBytes(ps) + tail, maxPacket, |ps|) == Some((ps, tail))
  {
    hide ParsePacket, PacketBytes, Pow128;
    if ps == [] {
      assert [] + tail == tail;
    } else {
      var later := StreamBytes(ps[1..]) + tail;
      assert StreamBytes(ps) + tail == PacketBytes(ps[0]) + later;
      PacketRoundTrip(ps[0], later, maxPacket);
      StreamRoundTrip(ps[1..], tail, maxPacket);
      assert [ps[0]] + ps[1..] == ps;
    }
  }

  // ----- strings ---------------------------------------------------------------------------------

  /** `_enc_utf8`: a two-byte length, then the UTF-8 bytes. */
  function EncodeString(s: string): Result<bytes, MqttError> {
    var b := Utf8.Encode(s);
    if |b| > 0xFFFF then Err(StringTooLong) else Ok([|b| / 256, |b| % 256] + b)
  }

  /** `_dec_utf8`: the string at `off` and the offset after it. */
  function DecodeString(buf: bytes, off: nat): (r: Result<(string, nat), MqttError>)
    ensures r.Ok? ==> off + 2 <= r.value.1 <= |buf|
  {
    if off + 2 > |buf| then Err(ShortStringLength) else
    var n := Join16(buf[off], buf[off + 1]);
    if off + 2 + n > |buf| then Err(ShortString) else
    match Utf8.Decode(buf[off + 2..off + 2 + n])
    case None => Err(NotUtf8)
    case Some(s) => Ok((s, off + 2 + n))
  }

  /** A string reads back where it was written, whatever stands before and after. */
  lemma StringRoundTrip(s: string, before: bytes, after: bytes)
    requires EncodeString(s).Ok?
    ensures var e := EncodeString(s).value;
            DecodeString(before + e + after, |before|) == Ok((s, |before| + |e|))
  {
    var e, b := EncodeString(s).value, Utf8.Encode(s);
    var buf := before + e + after;
    assert buf[|before|] == |b| / 256 && buf[|before| + 1] == |b| % 256;
    assert buf[|before| + 2..|before| + 2 + |b|] == b;
    Utf8.DecodeEncode(s);
  }

  // ----- topics ------------------------------------------------------------------------------------

  predicate HasControl(t: string) {
    '\0' in t || '\r' in t || '\n' in t
  }

  /** `normalize_mqtt_topic_filter`. */
  function NormalizeFilter(filter: string): Result<string, MqttError> {
    var t := Text.Strip(filter);
    if t == "" then Err(TopicMissing)
    else if HasControl(t) then Err(TopicControl)
    else if |t| > MAX_TOPIC_LEN then Err(TopicTooLong)
    else Ok(t)
  }

  /** `normalize_mqtt_topic`. */
  function NormalizeTopic(topic: string): Result<string, MqttError> {
    var t := Text.Strip(topic);
    if t == "" then Err(TopicMissing)
    else if HasControl(t) then Err(TopicControl)
    else if '+' in t || '#' in t then Err(TopicWildcard)
    else if |t| > MAX_TOPIC_LEN then Err(TopicTooLong)
    else Ok(t)
  }

  /** A normalised topic or filter always fits its length field. */
  lemma TopicFits(t: string)
    requires |t| <= MAX_TOPIC_LEN
    ensures EncodeString(t).Ok? && |EncodeString(t).value| <= 2 + 4 * MAX_TOPIC_LEN
  {
    Utf8.EncodedLength(t);
  }

  // ----- builders -------------------------------------------------------------------------------------

  function Framed(kind: nat, flags: nat, body: bytes): Result<bytes, MqttError>
    requires kind < 16 && flags < 16
  {
    match VarintOf(|body|)
    case Err(e) => Err(e)
    case Ok(length) => Ok([kind * 16 + flags] + length + body)
  }

  function BuildPublish(topic: string, payload: bytes, retain: bool, qos: int): Result<bytes, MqttError> {
    if qos != 0 then Err(QosUnsupported) else
    match NormalizeTopic(topic)
    case Err(e) => Err(e)
    case Ok(t) =>
      match EncodeString(t)
      case Err(e) => Err(e)
      case Ok(name) => Framed(PUBLISH, if retain then 1 else 0, name + payload)
  }

  function BuildSubscribe(packetId: nat, filter: string, qos: int): Result<bytes, MqttError> {
    if qos != 0 then Err(QosUnsupported) else
    match NormalizeFilter(filter)
    case Err(e) => Err(e)
    case Ok(tf) =>
      match EncodeString(tf)
      case Err(e) => Err(e)
      case Ok(name) => Framed(SUBSCRIBE, 2, [packetId / 256 % 256, packetId % 256] + name + [0])
  }

  /** An optional string of the CONNECT payload. */
  function EncodeOptional(s: Option<string>): Result<bytes, MqttError> {
    match s
    case None => Ok([])
    case Some(t) => EncodeString(t)
  }

  function BuildConnect(clientId: string, keepAlive: int, clean: bool,
                        username: Option<string>, password: Option<string>): Result<bytes, MqttError> {
    if !(0 <= keepAlive <= 0xFFFF) then Err(KeepAliveRange) else
    match EncodeString(clientId)
    case Err(e) => Err(e)
    case Ok(id) =>
      match EncodeOptional(username)
      case Err(e) => Err(e)
      case Ok(user) =>
        match EncodeOptional(password)
        case Err(e) => Err(e)
        case Ok(secret) => Framed(CONNECT, 0,
                                  ConnectHeader(ConnectFlags(clean, username.Some?, password.Some?),
                                                keepAlive) + id + user + secret)
  }

  function ConnectFlags(clean: bool, user: bool, secret: bool): byte {
    (if clean then 2 else 0) + (if user then 0x80 else 0) + (if secret then 0x40 else 0)
  }

  function ConnectHeader(flags: byte, keepAlive: nat): (b: bytes)
    requires keepAlive <= 0xFFFF
    ensures |b| == 10
  {
    [0, 4, 0x4D, 0x51, 0x54, 0x54, 4, flags, keepAlive / 256, keepAlive % 256]
  }

  /** `_decode_publish`: the topic is read before the QoS is refused. */
  function DecodePublish(flags: nat, body: bytes): Result<(string, bytes, nat, bool), MqttError> {
    match DecodeString(body, 0)
    case Err(e) => Err(e)
    case Ok((topic, off)) =>
      if flags / 2 % 4 != 0 then Err(QosUnsupported)
      else Ok((topic, body[off..], 0, flags % 2 == 1))
  }

  function DecodeSuback(body: bytes): Result<(nat, bytes), MqttError> {
    if |body| < 3 then Err(ShortSuback) else Ok((Join16(body[0], body[1]), body[2..]))
  }

  /** Anything framed is a packet; it is readable exactly when its length is below 128^4. */
  lemma FramedIsPacket(kind: nat, flags: nat, body: bytes)
    requires kind < 16 && flags < 16
    ensures var r := Framed(kind, flags, body);
            && (r.Ok? <==> |body| < Pow128(5))
            && (r.Ok? ==> r.value == PacketBytes(Packet(kind, flags, body)))
  {
  }

  /** A PUBLISH is read back as the normalised topic, the payload, QoS 0 and the
      retain flag, if its size is within the limits. */
  lemma PublishRoundTrip(topic: string, payload: bytes, retain: bool, tail: bytes, maxPacket: int)
    requires BuildPublish(topic, payload, retain, 0).Ok?
    ensures var t := NormalizeTopic(topic);
            && t.Ok? && EncodeString(t.value).Ok?
            && var body := EncodeString(t.value).value + payload;
               (|body| < Pow128(4) && |body| <= maxPacket ==>
                  && ParsePacket(BuildPublish(topic, payload, retain, 0).value + tail, maxPacket)
                     == Got(Packet(PUBLISH, if retain then 1 else 0, body), tail)
                  && DecodePublish(if retain then 1 else 0, body) == Ok((t.value, payload, 0, retain)))
  {
    hide DecodeString, ParsePacket, PacketBytes, VarintOf, Pow128, Text.Strip, Utf8.Encode;
    var t := NormalizeTopic(topic).value;
    var name := EncodeString(t).value;
    var body := name + payload;
    var flags := if retain then 1 else 0;
    FramedIsPacket(PUBLISH, flags, body);
    if |body| < Pow128(4) && |body| <= maxPacket {
      PacketRoundTrip(Packet(PUBLISH, flags, body), tail, maxPacket);
    }
    StringRoundTrip(t, [], payload);
    assert [] + name + payload == body;
    assert body[|name|..] == payload;
  }
}
