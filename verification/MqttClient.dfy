/** The MQTT connector's state and its exchanges with a broker: packet ids,
    CONNECT and SUBSCRIBE as a broker reads them, and the SUBSCRIBE exchange. */
module MqttClient {
  import opened Wrappers
  import opened Wire
  import opened MqttCodec
  import Text
  import Utf8

  // ----- packet ids (section 2.3.1) --------------------------------------------------------

  type Id = n: nat | n <= 0xFFFF

  function NextId(id: Id): (r: Id)
    ensures r != 0
  {
    var n := (id + 1) % 0x1_0000;
    if n == 0 then 1 else n
  }

  function IdAfter(id: Id, calls: nat): Id {
    if calls == 0 then id else NextId(IdAfter(id, calls - 1))
  }

  /** `_PacketId`. */
  class PacketId {
    var pid: Id

    constructor ()
      ensures pid == 0
    {
      pid := 0;
    }

    method Next() returns (r: Id)
      modifies this
      ensures r == pid == NextId(old(pid))
    {
      var n := (pid + 1) % 0x1_0000;
      if n == 0 { n := 1; }
      pid := n;
      r := pid;
    }
  }

  lemma NextResidue(x: nat)
    ensures NextId(x % 0xFFFF + 1) == (x + 1) % 0xFFFF + 1
  {
    var r := x % 0xFFFF;
    assert (x + 1) % 0xFFFF == if r == 0xFFFE then 0 else r + 1;
  }

  lemma {:induction false} IdAfterClosed(id: Id, calls: nat)
    requires calls > 0
    ensures IdAfter(id, calls) == (id + calls - 1) % 0xFFFF + 1
  {
    if calls > 1 {
      hide NextId;
      IdAfterClosed(id, calls - 1);
      NextResidue(id + calls - 2);
    } else {
      assert IdAfter(id, 0) == id;
      assert NextId(id) == if id == 0xFFFF then 1 else id + 1;
    }
  }

  lemma SameResidue(a: nat, b: nat)
    requires a <= b
    ensures a % 0xFFFF == b % 0xFFFF <==> (b - a) % 0xFFFF == 0
  {
    assert a == 0xFFFF * (a / 0xFFFF) + a % 0xFFFF;
    assert b == 0xFFFF * (b / 0xFFFF) + b % 0xFFFF;
    assert b - a == 0xFFFF * ((b - a) / 0xFFFF) + (b - a) % 0xFFFF;
  }

  /** No id is zero, and two ids are equal exactly when a multiple of 65535 calls lies
      between them: any 65535 in a row are distinct. */
  lemma IdsDistinct(id: Id, i: nat, j: nat)
    requires 0 < i <= j
    ensures IdAfter(id, i) != 0
    ensures IdAfter(id, i) == IdAfter(id, j) <==> (j - i) % 0xFFFF == 0
  {
    hide IdAfter;
    IdAfterClosed(id, i);
    IdAfterClosed(id, j);
    SameResidue(id + i - 1, id + j - 1);
  }

  // ----- what a broker reads ---------------------------------------------------------------

  datatype ConnectView = ConnectView(clientId: string, clean: bool, keepAlive: nat,
                                     username: Option<string>, password: Option<string>)

  function BrokerOptional(body: bytes, off: nat, present: bool): Option<(Option<string>, nat)> {
    if !present then Some((None, off)) else
    match DecodeString(body, off)
    case Err(_) => None
    case Ok((s, end)) => Some((Some(s), end))
  }

  /** A CONNECT body without a will, read as section 3.1 of MQTT 3.1.1 lays it out; a
      password without a user name is a protocol violation. */
  function BrokerConnect(body: bytes): Option<ConnectView> {
    if |body| < 10 || body[..7] != [0, 4, 0x4D, 0x51, 0x54, 0x54, 4] then None else
    var flags := body[7];
    var user, secret := flags / 0x80 == 1, flags / 0x40 % 2 == 1;
    if flags % 2 != 0 || flags / 4 % 16 != 0 || (secret && !user) then None else
    match DecodeString(body, 10)
    case Err(_) => None
    case Ok((id, off)) =>
      match BrokerOptional(body, off, user)
      case None => None
      case Some((username, off')) =>
        match BrokerOptional(body, off', secret)
        case None => None
        case Some((password, end)) =>
          if end != |body| then None
          else Some(ConnectView(id, flags / 2 % 2 == 1, Join16(body[8], body[9]), username, password))
  }

  lemma OptionalReadsBack(s: Option<string>, before: bytes, after: bytes)
    requires EncodeOptional(s).Ok?
    ensures var e := EncodeOptional(s).value;
            BrokerOptional(before + e + after, |before|, s.Some?) == Some((s, |before| + |e|))
  {
    if s.Some? {
      StringRoundTrip(s.value, before, after);
    }
  }

  lemma FlagsReadBack(clean: bool, user: bool, secret: bool)
    ensures var flags := ConnectFlags(clean, user, secret);
            && (flags / 0x80 == 1) == user && (flags / 0x40 % 2 == 1) == secret && (flags / 2 % 2 == 1) == clean
            && flags % 2 == 0 && flags / 4 % 16 == 0
  {
  }

  lemma HeaderReadsBack(flags: byte, keepAlive: nat, rest: bytes)
    requires keepAlive <= 0xFFFF
    ensures var body := ConnectHeader(flags, keepAlive) + rest;
            && |body| >= 10 && body[..7] == [0, 4, 0x4D, 0x51, 0x54, 0x54, 4]
            && body[7] == flags && Join16(body[8], body[9]) == keepAlive
  {
  }

  /** The body of the CONNECT packet. */
  function ConnectBody(clientId: string, keepAlive: nat, clean: bool, username: Option<string>,
                       password: Option<string>): bytes
    requires keepAlive <= 0xFFFF
    requires EncodeString(clientId).Ok? && EncodeOptional(username).Ok? && EncodeOptional(password).Ok?
  {
    ConnectHeader(ConnectFlags(clean, username.Some?, password.Some?), keepAlive)
    + EncodeString(clientId).value + EncodeOptional(username).value + EncodeOptional(password).value
  }

  /** CONNECT is built exactly for a keep-alive in range and strings that fit their length fields. */
  lemma ConnectBuilds(clientId: string, keepAlive: int, clean: bool, username: Option<string>, password: Option<string>)
    ensures BuildConnect(clientId, keepAlive, clean, username, password).Ok? <==>
              && 0 <= keepAlive <= 0xFFFF
              && EncodeString(clientId).Ok? && EncodeOptional(username).Ok? && EncodeOptional(password).Ok?
    ensures BuildConnect(clientId, keepAlive, clean, username, password).Ok? ==>
              BuildConnect(clientId, keepAlive, clean, username, password).value
              == PacketBytes(Packet(CONNECT, 0, ConnectBody(clientId, keepAlive, clean, username, password)))
  {
    hide Utf8.Encode;
    if && 0 <= keepAlive <= 0xFFFF
       && EncodeString(clientId).Ok? && EncodeOptional(username).Ok? && EncodeOptional(password).Ok? {
      var body := ConnectBody(clientId, keepAlive, clean, username, password);
      FramedIsPacket(CONNECT, 0, body);
      assert Pow128(5) > 0x4_0000 by { assert Pow128(3) == 128 * 16384; }
    }
  }

  /** A broker reads the CONNECT body as what was configured, exactly when a password
      comes with a user name; without one it must reject the packet. */
  lemma ConnectReadsBack(clientId: string, keepAlive: nat, clean: bool, username: Option<string>,
                         password: Option<string>)
    requires keepAlive <= 0xFFFF
    requires EncodeString(clientId).Ok? && EncodeOptional(username).Ok? && EncodeOptional(password).Ok?
    ensures BrokerConnect(ConnectBody(clientId, keepAlive, clean, username, password))
         == if password.Some? && username.None? then None
            else Some(ConnectView(clientId, clean, keepAlive, username, password))
  {
    hide DecodeString, EncodeString, EncodeOptional, BrokerOptional, ConnectFlags, ConnectHeader;
    var flags := ConnectFlags(clean, username.Some?, password.Some?);
    var head := ConnectHeader(flags, keepAlive);
    var id, user, secret := EncodeString(clientId).value, EncodeOptional(username).value,
      EncodeOptional(password).value;
    var body := ConnectBody(clientId, keepAlive, clean, username, password);
    assert head + id + (user + secret) == body && head + (id + user + secret) == body && body + [] == body;
    FlagsReadBack(clean, username.Some?, password.Some?);
    HeaderReadsBack(flags, keepAlive, id + user + secret);
    StringRoundTrip(clientId, head, user + secret);
    OptionalReadsBack(username, head + id, secret);
    OptionalReadsBack(password, head + id + user, []);
  }

  /** From the configuration to the broker, on the wire: any CONNECT that is built and fits
      is read back as configured, or rejected for a password without a user name. */
  lemma ConnectRoundTrip(clientId: string, keepAlive: int, clean: bool, username: Option<string>,
                         password: Option<string>,
                         tail: bytes, maxPacket: int)
    requires BuildConnect(clientId, keepAlive, clean, username, password).Ok?
    requires |BuildConnect(clientId, keepAlive, clean, username, password).value| < Pow128(4)
    requires |BuildConnect(clientId, keepAlive, clean, username, password).value| <= maxPacket
    ensures var r := ParsePacket(BuildConnect(clientId, keepAlive, clean, username, password).value + tail, maxPacket);
            && r.Got? && r.rest == tail && r.packet.kind == CONNECT
            && BrokerConnect(r.packet.body)
               == if password.Some? && username.None? then None
                  else Some(ConnectView(clientId, clean, keepAlive, username, password))
  {
    hide BuildConnect, ParsePacket, BrokerConnect, ConnectBody, EncodeString, EncodeOptional;
    ConnectBuilds(clientId, keepAlive, clean, username, password);
    ConnectReadsBack(clientId, keepAlive, clean, username, password);
    PacketRoundTrip(Packet(CONNECT, 0, ConnectBody(clientId, keepAlive, clean, username, password)), tail, maxPacket);
  }

  /** A SUBSCRIBE body with one filter, as section 3.8 lays it out. */
  function BrokerSubscribe(p: Packet): Option<(nat, string, nat)> {
    if p.kind != SUBSCRIBE || p.flags != 2 || |p.body| < 2 || Join16(p.body[0], p.body[1]) == 0 then None else
    match DecodeString(p.body, 2)
    case Err(_) => None
    case Ok((filter, off)) =>
      if off + 1 != |p.body| || p.body[off] > 2 then None
      else Some((Join16(p.body[0], p.body[1]), filter, p.body[off]))
  }

  /** A broker reads a SUBSCRIBE packet as its non-zero id, the normalised filter and QoS 0. */
  lemma SubscribeReadsBack(id: Id, filter: string, tail: bytes, maxPacket: int)
    requires id != 0 && BuildSubscribe(id, filter, 0).Ok? && maxPacket >= 3000
    ensures NormalizeFilter(filter).Ok?
    ensures var r := ParsePacket(BuildSubscribe(id, filter, 0).value + tail, maxPacket);
            && r.Got? && r.rest == tail
            && BrokerSubscribe(r.packet) == Some((id, NormalizeFilter(filter).value, 0))
  {
    hide DecodeString, EncodeString, Utf8.Encode, PacketBytes, ParsePacket, Text.Strip;
    var tf := NormalizeFilter(filter).value;
    TopicFits(tf);
    var head: bytes := [id / 256 % 256, id % 256];
    var name := EncodeString(tf).value;
    var body := head + name + [0];
    FramedIsPacket(SUBSCRIBE, 2, body);
    assert Pow128(4) > 3000 by { assert Pow128(2) == 16384; }
    PacketRoundTrip(Packet(SUBSCRIBE, 2, body), tail, maxPacket);
    StringRoundTrip(tf, head, [0]);
    assert Join16(body[0], body[1]) == id;
  }

  // ----- the SUBSCRIBE exchange ---------------------------------------------------------------

  datatype Subscribed =
    | Received(topic: string, payload: bytes, retain: bool)
    | Acknowledged(codes: bytes)
    | Refused(codes: bytes)
    | NotPublish(kind: nat)

  /** The outcome of an exchange, the bytes left unread and the error a cut stream gives. */
  datatype Exchanged = Exchanged(result: Result<Subscribed, MqttError>, rest: bytes)

  /** The packet at the front of the stream, or how reading it fails. */
  function TakePacket(s: bytes, maxPacket: int, ending: Ending): (Result<Packet, MqttError>, bytes) {
    match ParsePacket(s, maxPacket)
    case Got(p, rest) => (Ok(p), rest)
    case Cut => (Err(EndingError(ending)), [])
    case Malformed(rest) => (Err(LengthMalformed), rest)
    case TooBig(rest) => (Err(PacketTooLarge), rest)
  }

  /** The replies to a SUBSCRIBE with packet id `id`: a SUBACK, then, if one is waited
      for, one PUBLISH. */
  function AwaitReplies(s: bytes, id: Id, wait: bool, maxPacket: int, ending: Ending): Exchanged {
    var (first, rest) := TakePacket(s, maxPacket, ending);
    if first.Err? then Exchanged(Err(first.error), rest)
    else if first.value.kind != SUBACK then Exchanged(Err(ExpectedSuback), rest)
    else
      match DecodeSuback(first.value.body)
      case Err(e) => Exchanged(Err(e), rest)
      case Ok((got, codes)) =>
        if got != id then Exchanged(Err(SubackIdMismatch), rest)
        else if 0x80 in codes then Exchanged(Ok(Refused(codes)), rest)
        else if !wait then Exchanged(Ok(Acknowledged(codes)), rest)
        else
          var (second, end) := TakePacket(rest, maxPacket, ending);
          if second.Err? then Exchanged(Err(second.error), end)
          else if second.value.kind != PUBLISH then Exchanged(Ok(NotPublish(second.value.kind)), end)
          else
            match DecodePublish(second.value.flags, second.value.body)
            case Err(e) => Exchanged(Err(e), end)
            case Ok((topic, payload, _, retain)) => Exchanged(Ok(Received(topic, payload, retain)), end)
  }

  method NextPacket(sock: Socket, maxPacket: int) returns (r: Result<Packet, MqttError>)
    requires sock.Valid()
    modifies sock`chunks
    ensures sock.Valid()
    ensures (r, sock.Pending()) == TakePacket(old(sock.Pending()), maxPacket, sock.ending)
  {
    r := ReadPacket(sock, maxPacket);
  }

  class Client {
    const maxPacket: int
    const sock: Socket
    const ids: PacketId

    constructor (sock: Socket, maxPacket: int)
      ensures this.sock == sock && this.maxPacket == maxPacket && fresh(ids) && ids.pid == 0
    {
      this.sock, this.maxPacket := sock, maxPacket;
      ids := new PacketId();
    }

    /** The SUBSCRIBE branch of `_handle_verb`: nothing is sent for a bad filter, QoS or
        timeout; otherwise the next packet id is used, one packet written, and the replies
        read. */
    method Subscribe(filter: string, qos: int, wait: bool, timeout: real) returns (r: Result<Subscribed, MqttError>)
      requires sock.Valid()
      modifies sock, ids
      ensures sock.Valid()
      ensures var id := NextId(old(ids.pid));
              var tf := NormalizeFilter(filter);
              if tf.Err? || qos != 0 || timeout <= 0.0 then
                && r == Err(if tf.Err? then tf.error else if qos != 0 then QosUnsupported else TimeoutRange)
                && ids.pid == old(ids.pid) && sock.sent == old(sock.sent) && sock.Pending() == old(sock.Pending())
              else
                var built := BuildSubscribe(id, tf.value, 0);
                && ids.pid == id && built.Ok?
                && if old(sock.sendsLeft) == 0 then
                     r == Err(SendFailed) && sock.sent == old(sock.sent) && sock.Pending() == old(sock.Pending())
                   else
                     var x := AwaitReplies(old(sock.Pending()), id, wait, maxPacket, sock.ending);
                     && r == x.result && sock.Pending() == x.rest
                     && sock.sent == old(sock.sent) + [built.value]
    {
      hide ParsePacket, DecodePublish, DecodeSuback, Text.Strip, EncodeString, VarintOf;
      var tf := NormalizeFilter(filter);
      if tf.Err? { return Err(tf.error); }
      if qos != 0 { return Err(QosUnsupported); }
      if timeout <= 0.0 { return Err(TimeoutRange); }
      var id := ids.Next();
      SubscribeBuilds(id, filter);
      var built := BuildSubscribe(id, tf.value, 0);
      var ok := sock.SendAll(built.value);
      if !ok { return Err(SendFailed); }
      r := ReadReplies(id, wait);
    }

    method ReadReplies(id: Id, wait: bool) returns (r: Result<Subscribed, MqttError>)
      requires sock.Valid()
      modifies sock`chunks
      ensures sock.Valid()
      ensures Exchanged(r, sock.Pending()) == AwaitReplies(old(sock.Pending()), id, wait, maxPacket, sock.ending)
    {
      hide ParsePacket, DecodePublish, DecodeSuback, TakePacket;
      var first := NextPacket(sock, maxPacket);
      if first.Err? { return Err(first.error); }
      if first.value.kind != SUBACK { return Err(ExpectedSuback); }
      var ack := DecodeSuback(first.value.body);
      if ack.Err? { return Err(ack.error); }
      var (got, codes) := ack.value;
      if got != id { return Err(SubackIdMismatch); }
      if 0x80 in codes { return Ok(Refused(codes)); }
      if !wait { return Ok(Acknowledged(codes)); }
      var second := NextPacket(sock, maxPacket);
      if second.Err? { return Err(second.error); }
      if second.value.kind != PUBLISH { return Ok(NotPublish(second.value.kind)); }
      var msg := DecodePublish(second.value.flags, second.value.body);
      if msg.Err? { return Err(msg.error); }
      r := Ok(Received(msg.value.0, msg.value.1, msg.value.3));
    }
  }

  /** A normalised filter always builds, and builds the same packet as the filter given. */
  lemma SubscribeBuilds(id: Id, filter: string)
    requires NormalizeFilter(filter).Ok?
    ensures var tf := NormalizeFilter(filter).value;
            BuildSubscribe(id, tf, 0).Ok? && BuildSubscribe(id, filter, 0) == BuildSubscribe(id, tf, 0)
  {
    hide Text.Strip, EncodeString, VarintOf;
    var tf := NormalizeFilter(filter).value;
    Text.StripTwice(filter);
    TopicFits(tf);
    var body := [id / 256 % 256, id % 256] + EncodeString(tf).value + [0];
    FramedIsPacket(SUBSCRIBE, 2, body);
    assert Pow128(5) > 3000 by { assert Pow128(3) == 128 * 16384; }
  }

  /** A broker that acknowledges the subscription and then publishes a message has it
      delivered unchanged, and nothing after it is read. */
  lemma SubscribeDelivers(id: Id, topic: string, payload: bytes, retain: bool, tail: bytes, maxPacket: int,
                          ending: Ending)
    requires BuildPublish(topic, payload, retain, 0).Ok? && maxPacket >= 3
    requires var body := EncodeString(NormalizeTopic(topic).value).value + payload;
             |body| < Pow128(4) && |body| <= maxPacket
    ensures var suback := PacketBytes(Packet(SUBACK, 0, [id / 256, id % 256, 0]));
            AwaitReplies(suback + (BuildPublish(topic, payload, retain, 0).value + tail), id, true, maxPacket, ending)
            == Exchanged(Ok(Received(NormalizeTopic(topic).value, payload, retain)), tail)
  {
    hide ParsePacket, DecodePublish, PacketBytes, BuildPublish, NormalizeTopic, EncodeString;
    var ack: bytes := [id / 256, id % 256, 0];
    assert Pow128(4) > 3 by { assert Pow128(2) == 16384; }
    PacketRoundTrip(Packet(SUBACK, 0, ack), BuildPublish(topic, payload, retain, 0).value + tail, maxPacket);
    PublishRoundTrip(topic, payload, retain, tail, maxPacket);
    assert Join16(ack[0], ack[1]) == id && ack[2..] == [0];
  }

  /** Section 3.8.4 lets a broker publish before it acknowledges; the connector then
      fails whatever follows, and the message is lost. */
  lemma EarlyPublishFails(id: Id, wait: bool, flags: nat, body: bytes, tail: bytes, maxPacket: int, ending: Ending)
    requires flags < 16 && |body| < Pow128(4) && |body| <= maxPacket
    ensures AwaitReplies(PacketBytes(Packet(PUBLISH, flags, body)) + tail, id, wait, maxPacket, ending)
         == Exchanged(Err(ExpectedSuback), tail)
  {
    hide ParsePacket, PacketBytes;
    PacketRoundTrip(Packet(PUBLISH, flags, body), tail, maxPacket);
  }

  /** PUBLISH packets that the connector could read. */
  predicate AreEarly(ps: seq<Packet>, maxPacket: int) {
    forall i :: 0 <= i < |ps| ==>
      IsPacket(ps[i]) && ps[i].kind == PUBLISH && |ps[i].body| < Pow128(4) && |ps[i].body| <= maxPacket
  }

  /** Against any broker that may publish before it acknowledges, the exchange succeeds if
      and only if nothing was published first; then the message comes through unchanged. */
  lemma SubscribeSucceedsExactly(early: seq<Packet>, id: Id, topic: string, payload: bytes, retain: bool, tail: bytes,
                                 maxPacket: int, ending: Ending)
    requires AreEarly(early, maxPacket) && BuildPublish(topic, payload, retain, 0).Ok? && maxPacket >= 3
    requires var body := EncodeString(NormalizeTopic(topic).value).value + payload;
             |body| < Pow128(4) && |body| <= maxPacket
    ensures var suback := PacketBytes(Packet(SUBACK, 0, [id / 256, id % 256, 0]));
            var publish := BuildPublish(topic, payload, retain, 0).value;
            var x := AwaitReplies(StreamBytes(early) + (suback + (publish + tail)), id, true, maxPacket, ending);
            && (x.result.Ok? <==> early == [])
            && (x.result.Ok? ==> x == Exchanged(Ok(Received(NormalizeTopic(topic).value, payload, retain)), tail))
            && (x.result.Err? ==> x.result.error == ExpectedSuback)
  {
    hide AwaitReplies, BuildPublish, NormalizeTopic, EncodeString, PacketBytes;
    var suback := PacketBytes(Packet(SUBACK, 0, [id / 256, id % 256, 0]));
    var rest := suback + (BuildPublish(topic, payload, retain, 0).value + tail);
    if early == [] {
      assert StreamBytes(early) + rest == rest;
      SubscribeDelivers(id, topic, payload, retain, tail, maxPacket, ending);
    } else {
      var first, others := early[0], StreamBytes(early[1..]);
      assert StreamBytes(early) + rest == PacketBytes(first) + (others + rest);
      EarlyPublishFails(id, true, first.flags, first.body, others + rest, maxPacket, ending);
    }
  }
}
