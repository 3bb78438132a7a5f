/** Request and response PDUs, the Modbus TCP frame around them, and the exchange. */
module ModbusPdu {
  import opened Wrappers
  import opened Wire
  import opened ModbusCodec

  datatype Scalar = Flag(b: bool) | Number(n: int)

  /** The `values` field of a request. */
  datatype Values = Absent | One(value: Scalar) | Many(items: seq<Scalar>) | Raw(data: bytes)

  datatype Request = Request(function_: nat, unit: byte, address: Option<int>, quantity: Option<int>, values: Values)

  /** What the constructor of a request checks. */
  predicate ValidRequest(req: Request) {
    1 <= req.function_ <= 127
  }

  function AsBool(v: Scalar): bool {
    match v
    case Flag(b) => b
    case Number(n) => n != 0
  }

  function AsInt(v: Scalar): int {
    match v
    case Flag(b) => Bit(b)
    case Number(n) => n
  }

  function Bools(items: seq<Scalar>): seq<bool> {
    seq(|items|, i requires 0 <= i < |items| => AsBool(items[i]))
  }

  function Ints(items: seq<Scalar>): seq<int> {
    seq(|items|, i requires 0 <= i < |items| => AsInt(items[i]))
  }

  function NormalizeAddress(address: int, oneBased: bool): (r: Result<Word, ModbusError>)
    ensures r.Ok? ==> r.value + (if oneBased then 1 else 0) == address
  {
    var a := if oneBased then address - 1 else address;
    if 0 <= a <= 0xFFFF then Ok(a) else Err(AddressRange)
  }

  function NormalizeQuantity(quantity: int, maxAllowed: nat): (r: Result<nat, ModbusError>)
    ensures r.Ok? <==> 1 <= quantity <= maxAllowed
    ensures r.Ok? ==> r.value == quantity
  {
    if quantity <= 0 || quantity > maxAllowed then Err(QuantityRange) else Ok(quantity)
  }

  predicate IsRead(fc: nat) {
    READ_COILS <= fc <= READ_INPUT_REGISTERS
  }

  predicate IsWrite(fc: nat) {
    || fc == WRITE_SINGLE_COIL || fc == WRITE_SINGLE_REGISTER
    || fc == WRITE_MULTIPLE_COILS || fc == WRITE_MULTIPLE_REGISTERS
  }

  function MaxPerRead(fc: nat): nat {
    if fc <= READ_DISCRETE_INPUTS then MAX_COILS_PER_READ else MAX_REGS_PER_READ
  }

  /** What follows the address in a write request. */
  function WriteData(fc: nat, values: Values): Result<bytes, ModbusError> {
    if fc == WRITE_SINGLE_COIL then
      if values.One? then Ok(U16(if AsBool(values.value) then 0xFF00 else 0)) else Err(BadValues)
    else if fc == WRITE_SINGLE_REGISTER then
      if !values.One? then Err(BadValues)
      else if 0 <= AsInt(values.value) <= 0xFFFF then Ok(U16(AsInt(values.value)))
      else Err(RegisterRange)
    else if !values.Many? then Err(BadValues)
    else if fc == WRITE_MULTIPLE_COILS then
      match NormalizeQuantity(|values.items|, MAX_COILS_PER_WRITE)
      case Err(e) => Err(e)
      case Ok(q) =>
        var packed := BitBytes(Bools(values.items));
        Ok(U16(q) + [|packed|] + packed)
    else
      match NormalizeQuantity(|values.items|, MAX_REGS_PER_WRITE)
      case Err(e) => Err(e)
      case Ok(q) =>
        if !AreWords(Ints(values.items)) then Err(RegisterRange)
        else
          var payload := RegisterBytes(Words(Ints(values.items)));
          Ok(U16(q) + [|payload|] + payload)
  }

  /** `_build_pdu`. */
  function BuildPdu(req: Request, oneBased: bool): Result<bytes, ModbusError>
    requires ValidRequest(req)
  {
    var fc := req.function_;
    if IsRead(fc) then
      if req.address.None? || req.quantity.None? then Err(MissingField) else
      match NormalizeAddress(req.address.value, oneBased)
      case Err(e) => Err(e)
      case Ok(a) =>
        match NormalizeQuantity(req.quantity.value, MaxPerRead(fc))
        case Err(e) => Err(e)
        case Ok(q) => Ok([fc] + U16(a) + U16(q))
    else if IsWrite(fc) then
      if req.address.None? then Err(MissingField) else
      match NormalizeAddress(req.address.value, oneBased)
      case Err(e) => Err(e)
      case Ok(a) =>
        match WriteData(fc, req.values)
        case Err(e) => Err(e)
        case Ok(data) => Ok([fc] + U16(a) + data)
    else if req.values.Raw? then
      if |req.values.data| > 252 then Err(RawTooLarge) else Ok([fc] + req.values.data)
    else Err(Unsupported)
  }

  datatype Response =
    | Exception(code: byte)
    | Bits(bits: seq<bool>)
    | Registers(registers: seq<Word>)
    | WroteOne(address: Word, value: Word)
    | WroteMany(address: Word, quantity: Word)
    | Trailing(data: bytes)

  /** `_decode_pdu`. */
  function DecodePdu(req: Request, pdu: bytes): Result<Response, ModbusError> {
    if pdu == [] then Err(EmptyPdu)
    else if pdu[0] >= 0x80 then
      if |pdu| < 2 then Err(ShortPdu) else Ok(Exception(pdu[1]))
    else if pdu[0] != req.function_ then Err(FunctionMismatch)
    else if IsRead(pdu[0]) then
      if |pdu| < 2 || |pdu| - 2 < pdu[1] then Err(ShortPdu)
      else
        var data := pdu[2..2 + pdu[1]];
        var quantity := if req.quantity.Some? then req.quantity.value else 0;
        if pdu[0] <= READ_DISCRETE_INPUTS then Ok(Bits(BitsOf(data, quantity)))
        else
          match RegistersOf(data, quantity)
          case Err(e) => Err(e)
          case Ok(r) => Ok(Registers(r))
    else if IsWrite(pdu[0]) then
      if |pdu| < 5 then Err(ShortPdu)
      else
        var a, v := Join16(pdu[1], pdu[2]), Join16(pdu[3], pdu[4]);
        Ok(if pdu[0] <= WRITE_SINGLE_REGISTER then WroteOne(a, v) else WroteMany(a, v))
    else Ok(Trailing(pdu[1..]))
  }

  // ----- sizes -------------------------------------------------------------------------------

  /** Every request PDU fits the 253 bytes of the specification, and the byte count of
      a multiple write says how many bytes follow it. */
  lemma PduFits(req: Request, oneBased: bool)
    requires ValidRequest(req) && BuildPdu(req, oneBased).Ok?
    ensures var pdu := BuildPdu(req, oneBased).value;
            && 1 <= |pdu| <= 253
            && (req.function_ == WRITE_MULTIPLE_COILS || req.function_ == WRITE_MULTIPLE_REGISTERS ==>
                  |pdu| >= 6 && pdu[5] == |pdu| - 6)
  {
  }

  // ----- transaction ids and frames ---------------------------------------------------------

  function NextTid(tid: Word): Word {
    (tid + 1) % 0x1_0000
  }

  function TidAfter(tid: Word, calls: nat): Word {
    if calls == 0 then tid else NextTid(TidAfter(tid, calls - 1))
  }

  /** `_TransactionId`. */
  class TransactionId {
    var tid: Word

    constructor ()
      ensures tid == 0
    {
      tid := 0;
    }

    method Next() returns (r: Word)
      modifies this
      ensures r == tid == NextTid(old(tid))
    {
      tid := (tid + 1) % 0x1_0000;
      r := tid;
    }
  }

  lemma NextResidue(x: nat)
    ensures NextTid(x % 0x1_0000) == (x + 1) % 0x1_0000
  {
    var r := x % 0x1_0000;
    assert (x + 1) % 0x1_0000 == if r == 0xFFFF then 0 else r + 1;
  }

  lemma {:induction false} TidAfterClosed(tid: Word, calls: nat)
    ensures TidAfter(tid, calls) == (tid + calls) % 0x1_0000
  {
    hide NextTid;
    if calls > 0 {
      TidAfterClosed(tid, calls - 1);
      NextResidue(tid + calls - 1);
    }
  }

  /** Two transaction ids are equal exactly when a multiple of 65536 calls lies between
      them: any 65536 in a row are distinct. */
  lemma TidsDistinct(tid: Word, i: nat, j: nat)
    requires i <= j
    ensures TidAfter(tid, i) == TidAfter(tid, j) <==> (j - i) % 0x1_0000 == 0
  {
    hide TidAfter;
    TidAfterClosed(tid, i);
    TidAfterClosed(tid, j);
    var a, b := tid + i, tid + j;
    assert a == 0x1_0000 * (a / 0x1_0000) + a % 0x1_0000;
    assert b == 0x1_0000 * (b / 0x1_0000) + b % 0x1_0000;
    assert b - a == 0x1_0000 * ((b - a) / 0x1_0000) + (b - a) % 0x1_0000;
  }

  /** The MBAP header and the PDU. */
  function Adu(tid: Word, unit: byte, pdu: bytes): bytes
    requires |pdu| < 0xFFFF
  {
    U16(tid) + [0, 0] + U16(1 + |pdu|) + [unit] + pdu
  }

  function EndingError(e: Ending): ModbusError {
    match e
    case Closed => ConnectionClosed
    case TimedOut => RecvTimeout
    case Broken => RecvFailed
  }

  /** What the exchange makes of the bytes that answer transaction `tid`: the unit and
      the PDU, or the first check that fails. */
  function ReadAdu(s: bytes, tid: Word, maxAdu: int, ending: Ending): Result<(byte, bytes), ModbusError> {
    if |s| < 7 then Err(EndingError(ending)) else
    var got, proto, n := Join16(s[0], s[1]), Join16(s[2], s[3]), Join16(s[4], s[5]);
    if proto != 0 then Err(InvalidProtocol)
    else if n <= 1 then Err(InvalidLength)
    else if n - 1 > maxAdu - 7 then Err(ResponseTooLarge)
    else if |s| < 7 + (n - 1) then Err(EndingError(ending))
    else if got != tid then Err(TransactionMismatch)
    else Ok((s[6], s[7..7 + (n - 1)]))
  }

  /** A frame is read as its unit and PDU, whatever follows, exactly when it fits the
      limit and answers this transaction. */
  lemma AduRoundTrip(tid: Word, other: Word, unit: byte, pdu: bytes, tail: bytes, maxAdu: int, ending: Ending)
    requires 1 <= |pdu| < 0xFFFF
    ensures ReadAdu(Adu(other, unit, pdu) + tail, tid, maxAdu, ending)
         == if 7 + |pdu| > maxAdu then Err(ResponseTooLarge)
            else if other != tid then Err(TransactionMismatch)
            else Ok((unit, pdu))
  {
    hide Adu, Join16;
    AduLayout(other, unit, pdu, tail);
  }

  lemma AduLayout(tid: Word, unit: byte, pdu: bytes, tail: bytes)
    requires 1 <= |pdu| < 0xFFFF
    ensures var s := Adu(tid, unit, pdu) + tail;
            && |s| >= 7 + |pdu| && s[6] == unit && s[7..7 + |pdu|] == pdu
            && Join16(s[0], s[1]) == tid && Join16(s[2], s[3]) == 0 && Join16(s[4], s[5]) == 1 + |pdu|
  {
    hide Join16, U16;
    var n := 1 + |pdu|;
    var s := Adu(tid, unit, pdu) + tail;
    SplitWord(tid);
    SplitWord(n);
    assert s[..2] == U16(tid) && s[2] == 0 && s[3] == 0 && s[4..6] == U16(n);
  }

  /** `_modbus_tcp_exchange` on a connection of its own: one frame out, one in. There is
      no socket when connecting fails. */
  method ExchangeAdu(sock: Socket?, ids: TransactionId, unit: byte, pdu: bytes, maxAdu: int)
    returns (r: Result<(byte, bytes), ModbusError>)
    requires sock != null ==> sock.Valid()
    modifies sock, ids
    ensures ids.tid == NextTid(old(ids.tid))
    ensures if |pdu| >= 0xFFFF || 7 + |pdu| > maxAdu then
              r == Err(AduTooLarge) && (sock != null ==> sock.sent == old(sock.sent))
            else if sock == null then r == Err(ConnectFailed)
            else if old(sock.sendsLeft) == 0 then r == Err(SendFailed) && sock.sent == old(sock.sent)
            else
              && sock.sent == old(sock.sent) + [Adu(NextTid(old(ids.tid)), unit, pdu)]
              && r == ReadAdu(old(sock.Pending()), NextTid(old(ids.tid)), maxAdu, sock.ending)
  {
    hide ReadAdu;
    var tid := ids.Next();
    if 1 + |pdu| > 0xFFFF { return Err(AduTooLarge); }
    var adu := Adu(tid, unit, pdu);
    if |adu| > maxAdu { return Err(AduTooLarge); }
    if sock == null { return Err(ConnectFailed); }
    var ok := sock.SendAll(adu);
    if !ok { return Err(SendFailed); }
    r := ReceiveAdu(sock, tid, maxAdu);
  }

  method ReceiveAdu(sock: Socket, tid: Word, maxAdu: int) returns (r: Result<(byte, bytes), ModbusError>)
    requires sock.Valid()
    modifies sock`chunks
    ensures r == ReadAdu(old(sock.Pending()), tid, maxAdu, sock.ending)
  {
    ghost var s := sock.Pending();
    var mbap := sock.RecvExact(7);
    if mbap.Err? { return Err(EndingError(mbap.error)); }
    var h := mbap.value;
    var n := Join16(h[4], h[5]);
    if Join16(h[2], h[3]) != 0 { return Err(InvalidProtocol); }
    if n <= 1 { return Err(InvalidLength); }
    if n - 1 > maxAdu - 7 { return Err(ResponseTooLarge); }
    var body := sock.RecvExact(n - 1);
    if body.Err? { return Err(EndingError(body.error)); }
    assert body.value == s[7..7 + (n - 1)];
    if Join16(h[0], h[1]) != tid { return Err(TransactionMismatch); }
    r := Ok((h[6], body.value));
  }

  /** What the bytes that answer a request come to. */
  function Answered(req: Request, s: bytes, tid: Word, maxAdu: int, ending: Ending): Result<Response, ModbusError> {
    match ReadAdu(s, tid, maxAdu, ending)
    case Err(e) => Err(e)
    case Ok((_, pdu)) => DecodePdu(req, pdu)
  }

  /** One attempt of `request`: build, exchange, decode. No id is used and nothing sent for
      a request that does not build. */
  method Transact(sock: Socket?, ids: TransactionId, req: Request, oneBased: bool, maxAdu: int)
    returns (r: Result<Response, ModbusError>)
    requires ValidRequest(req) && (sock != null ==> sock.Valid())
    modifies sock, ids
    ensures var pdu, tid := BuildPdu(req, oneBased), NextTid(old(ids.tid));
            if pdu.Err? then
              r == Err(pdu.error) && ids.tid == old(ids.tid) && (sock != null ==> sock.sent == old(sock.sent))
            else
              && ids.tid == tid
              && if 7 + |pdu.value| > maxAdu then r == Err(AduTooLarge)
                 else if sock == null then r == Err(ConnectFailed)
                 else if old(sock.sendsLeft) == 0 then r == Err(SendFailed)
                 else
                   && sock.sent == old(sock.sent) + [Adu(tid, req.unit, pdu.value)]
                   && r == Answered(req, old(sock.Pending()), tid, maxAdu, sock.ending)
  {
    hide BuildPdu, DecodePdu, ReadAdu, Adu;
    var pdu := BuildPdu(req, oneBased);
    if pdu.Err? { return Err(pdu.error); }
    PduFits(req, oneBased);
    var got := ExchangeAdu(sock, ids, req.unit, pdu.value, maxAdu);
    if got.Err? { return Err(got.error); }
    r := DecodePdu(req, got.value.1);
  }
}
