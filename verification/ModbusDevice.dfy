/** A Modbus device as sections 6.1 to 6.6, 6.11 and 6.12 of the MODBUS Application
    Protocol Specification V1.1b3 describe it, and the connector against it. */
module ModbusDevice {
  import opened Wrappers
  import opened Wire
  import opened ModbusCodec
  import opened ModbusPdu

  datatype Device = Device(coils: seq<bool>, inputs: seq<bool>, holding: seq<Word>, inputRegisters: seq<Word>)

  /** A request as the device understands it. */
  datatype Op =
    | ReadBits(function_: nat, address: Word, quantity: nat)
    | ReadRegisters(function_: nat, address: Word, quantity: nat)
    | WriteCoil(address: Word, on: bool)
    | WriteRegister(address: Word, word: Word)
    | WriteCoils(address: Word, bits: seq<bool>)
    | WriteRegisters(address: Word, words: seq<Word>)

  const ILLEGAL_FUNCTION: byte := 1
  const ILLEGAL_ADDRESS: byte := 2
  const ILLEGAL_VALUE: byte := 3

  function CoilsIn(data: bytes, n: nat): seq<bool>
    requires |data| == (n + 7) / 8
  {
    seq(n, i requires 0 <= i < n => BitAt(data[i / 8], i % 8))
  }

  function RegistersIn(data: bytes, n: nat): (words: seq<Word>)
    requires |data| == 2 * n
    ensures |words| == n
  {
    seq(n, i requires 0 <= i < n => Join16(data[2 * i], data[2 * i + 1]))
  }

  /** The request bytes, field by field; the exception code a malformed one deserves. */
  function ParseRequest(pdu: bytes): Result<Op, byte> {
    if pdu == [] || !(IsRead(pdu[0]) || IsWrite(pdu[0])) then Err(ILLEGAL_FUNCTION)
    else if |pdu| < 5 then Err(ILLEGAL_VALUE)
    else
      var fc, a, v := pdu[0], Join16(pdu[1], pdu[2]), Join16(pdu[3], pdu[4]);
      if fc == 1 || fc == 2 then
        if |pdu| == 5 && 1 <= v <= 0x7D0 then Ok(ReadBits(fc, a, v)) else Err(ILLEGAL_VALUE)
      else if fc == 3 || fc == 4 then
        if |pdu| == 5 && 1 <= v <= 0x7D then Ok(ReadRegisters(fc, a, v)) else Err(ILLEGAL_VALUE)
      else if fc == 5 then
        if |pdu| == 5 && (v == 0xFF00 || v == 0) then Ok(WriteCoil(a, v == 0xFF00)) else Err(ILLEGAL_VALUE)
      else if fc == 6 then
        if |pdu| == 5 then Ok(WriteRegister(a, v)) else Err(ILLEGAL_VALUE)
      else if fc == 15 then
        if 1 <= v <= 0x7B0 && |pdu| >= 6 && pdu[5] == (v + 7) / 8 == |pdu| - 6 then
          Ok(WriteCoils(a, CoilsIn(pdu[6..], v)))
        else Err(ILLEGAL_VALUE)
      else
        if 1 <= v <= 0x7B && |pdu| >= 6 && pdu[5] == 2 * v == |pdu| - 6 then
          Ok(WriteRegisters(a, RegistersIn(pdu[6..], v)))
        else Err(ILLEGAL_VALUE)
  }

  /** How many cells, from which address, in which table. */
  function Quantity(op: Op): nat {
    match op
    case ReadBits(_, _, q) => q
    case ReadRegisters(_, _, q) => q
    case WriteCoils(_, bits) => |bits|
    case WriteRegisters(_, words) => |words|
    case _ => 1
  }

  function TableSize(d: Device, op: Op): nat {
    match op
    case ReadBits(fc, _, _) => if fc == 1 then |d.coils| else |d.inputs|
    case ReadRegisters(fc, _, _) => if fc == 3 then |d.holding| else |d.inputRegisters|
    case WriteCoil(_, _) => |d.coils|
    case WriteCoils(_, _) => |d.coils|
    case WriteRegister(_, _) => |d.holding|
    case WriteRegisters(_, _) => |d.holding|
  }

  predicate InRange(d: Device, op: Op) {
    op.address + Quantity(op) <= TableSize(d, op)
  }

  function Overwrite<T>(table: seq<T>, address: nat, cells: seq<T>): (r: seq<T>)
    requires address + |cells| <= |table|
    ensures |r| == |table|
    ensures r[address..address + |cells|] == cells
    ensures forall i :: 0 <= i < |table| && !(address <= i < address + |cells|) ==> r[i] == table[i]
  {
    table[..address] + cells + table[address + |cells|..]
  }

  /** The device after a request. */
  function Perform(d: Device, op: Op): Device
    requires InRange(d, op)
  {
    match op
    case WriteCoil(a, on) => d.(coils := Overwrite(d.coils, a, [on]))
    case WriteCoils(a, bits) => d.(coils := Overwrite(d.coils, a, bits))
    case WriteRegister(a, w) => d.(holding := Overwrite(d.holding, a, [w]))
    case WriteRegisters(a, ws) => d.(holding := Overwrite(d.holding, a, ws))
    case _ => d
  }

  function BitCells(d: Device, fc: nat): seq<bool> {
    if fc == 1 then d.coils else d.inputs
  }

  function WordCells(d: Device, fc: nat): seq<Word> {
    if fc == 3 then d.holding else d.inputRegisters
  }

  /** Cell `i` as a binary digit; cells that do not exist count as zero. */
  function Digit(bits: seq<bool>, i: nat): (d: nat)
    ensures d < 2
  {
    if i < |bits| && bits[i] then 1 else 0
  }

  /** Byte `j` of packed bits, by its eight positions; unused ones are zero. */
  function StatusByte(bits: seq<bool>, j: nat): (b: byte)
  {
    Digit(bits, 8 * j) + 2 * Digit(bits, 8 * j + 1) + 4 * Digit(bits, 8 * j + 2) + 8 * Digit(bits, 8 * j + 3)
    + 16 * Digit(bits, 8 * j + 4) + 32 * Digit(bits, 8 * j + 5)
    + 64 * Digit(bits, 8 * j + 6) + 128 * Digit(bits, 8 * j + 7)
  }

  function StatusBytes(bits: seq<bool>): bytes {
    seq((|bits| + 7) / 8, j requires 0 <= j < (|bits| + 7) / 8 => StatusByte(bits, j))
  }

  /** High byte then low byte of each register. */
  function RegisterData(words: seq<Word>): bytes {
    seq(2 * |words|, i requires 0 <= i < 2 * |words| => if i % 2 == 0 then words[i / 2] / 256 else words[i / 2] % 256)
  }

  /** The response PDU. */
  function Reply(d: Device, op: Op): bytes
    requires InRange(d, op) && 1 <= Quantity(op) <= 2000 && (op.ReadRegisters? ==> op.quantity <= 125)
    requires op.ReadBits? || op.ReadRegisters? ==> op.function_ < 0x80
  {
    match op
    case ReadBits(fc, a, q) =>
      var data := StatusBytes(BitCells(d, fc)[a..a + q]);
      [fc, |data|] + data
    case ReadRegisters(fc, a, q) =>
      var data := RegisterData(WordCells(d, fc)[a..a + q]);
      [fc, |data|] + data
    case WriteCoil(a, on) => [5] + U16(a) + U16(if on then 0xFF00 else 0)
    case WriteRegister(a, w) => [6] + U16(a) + U16(w)
    case WriteCoils(a, bits) => [15] + U16(a) + U16(|bits|)
    case WriteRegisters(a, words) => [16] + U16(a) + U16(|words|)
  }

  /** The device's whole behaviour: the response and the new state. */
  function Serve(d: Device, pdu: bytes): (bytes, Device)
    requires pdu != [] && pdu[0] < 0x80
  {
    match ParseRequest(pdu)
    case Err(code) => ([pdu[0] + 0x80, code], d)
    case Ok(op) =>
      if !InRange(d, op) then ([pdu[0] + 0x80, ILLEGAL_ADDRESS], d)
      else (Reply(d, op), Perform(d, op))
  }

  // ----- the device understands what the connector builds ----------------------------------

  /** What a request asks for. */
  function Meant(req: Request, oneBased: bool): Op
    requires ValidRequest(req) && BuildPdu(req, oneBased).Ok? && (IsRead(req.function_) || IsWrite(req.function_))
  {
    var a := NormalizeAddress(req.address.value, oneBased).value;
    var fc := req.function_;
    if fc <= 2 then ReadBits(fc, a, req.quantity.value)
    else if fc <= 4 then ReadRegisters(fc, a, req.quantity.value)
    else if fc == 5 then WriteCoil(a, AsBool(req.values.value))
    else if fc == 6 then WriteRegister(a, AsInt(req.values.value))
    else if fc == 15 then WriteCoils(a, Bools(req.values.items))
    else WriteRegisters(a, Words(Ints(req.values.items)))
  }

  lemma CoilsReadBack(bits: seq<bool>)
    ensures CoilsIn(BitBytes(bits), |bits|) == bits
  {
    hide BitBytes, BitAt;
    forall i | 0 <= i < |bits|
      ensures BitAt(BitBytes(bits)[i / 8], i % 8) == bits[i]
    {
      PackedBit(bits, i);
    }
  }

  lemma RegisterIn(data: bytes, n: nat, i: nat)
    requires |data| == 2 * n && i < n
    ensures RegistersIn(data, n)[i] == Join16(data[2 * i], data[2 * i + 1])
  {
    hide Join16;
  }

  lemma RegistersReadBack(words: seq<Word>)
    ensures RegistersIn(RegisterBytes(words), |words|) == words
  {
    hide RegisterBytes, Join16, RegistersIn;
    var read := RegistersIn(RegisterBytes(words), |words|);
    forall i | 0 <= i < |words| ensures read[i] == words[i] {
      RegisterIn(RegisterBytes(words), |words|, i);
      RegisterAt(words, i);
    }
  }

  /** The fields of a write request with a byte count. */
  lemma WriteLayout(fc: byte, a: Word, n: Word, data: bytes)
    requires |data| < 256
    ensures var pdu := [fc] + U16(a) + (U16(n) + [|data|] + data);
            && |pdu| == 6 + |data| && pdu[0] == fc && pdu[5] == |data| && pdu[6..] == data
            && Join16(pdu[1], pdu[2]) == a && Join16(pdu[3], pdu[4]) == n
  {
    hide U16, Join16;
    SplitWord(a);
    SplitWord(n);
    var pdu := [fc] + U16(a) + (U16(n) + [|data|] + data);
    assert pdu[1..3] == U16(a) && pdu[3..5] == U16(n);
  }

  lemma CoilsUnderstood(a: Word, bits: seq<bool>)
    requires 1 <= |bits| <= MAX_COILS_PER_WRITE
    ensures var packed := BitBytes(bits);
            ParseRequest([15] + U16(a) + (U16(|bits|) + [|packed|] + packed)) == Ok(WriteCoils(a, bits))
  {
    hide BitBytes, CoilsIn, U16, Join16;
    WriteLayout(15, a, |bits|, BitBytes(bits));
    CoilsReadBack(bits);
  }

  lemma RegistersUnderstood(a: Word, words: seq<Word>)
    requires 1 <= |words| <= MAX_REGS_PER_WRITE
    ensures var payload := RegisterBytes(words);
            ParseRequest([16] + U16(a) + (U16(|words|) + [|payload|] + payload)) == Ok(WriteRegisters(a, words))
  {
    hide RegisterBytes, RegistersIn, U16, Join16;
    WriteLayout(16, a, |words|, RegisterBytes(words));
    RegistersReadBack(words);
  }

  /** A device reads from every PDU built for the eight functions exactly the function,
      address, quantity and values that were meant. */
  lemma RequestUnderstood(req: Request, oneBased: bool)
    requires ValidRequest(req) && BuildPdu(req, oneBased).Ok? && (IsRead(req.function_) || IsWrite(req.function_))
    ensures ParseRequest(BuildPdu(req, oneBased).value) == Ok(Meant(req, oneBased))
  {
    hide BitBytes, RegisterBytes, BitAt, Join16, U16;
    var a := NormalizeAddress(req.address.value, oneBased).value;
    if req.function_ == WRITE_MULTIPLE_COILS {
      CoilsUnderstood(a, Bools(req.values.items));
    } else if req.function_ == WRITE_MULTIPLE_REGISTERS {
      RegistersUnderstood(a, Words(Ints(req.values.items)));
    } else if IsRead(req.function_) {
      FiveBytes(req.function_, a, req.quantity.value);
    } else if req.function_ == WRITE_SINGLE_COIL {
      FiveBytes(req.function_, a, if AsBool(req.values.value) then 0xFF00 else 0);
    } else {
      FiveBytes(req.function_, a, AsInt(req.values.value));
    }
  }

  lemma FiveBytes(fc: byte, a: Word, v: Word)
    ensures var pdu := [fc] + U16(a) + U16(v);
            |pdu| == 5 && pdu[0] == fc && Join16(pdu[1], pdu[2]) == a && Join16(pdu[3], pdu[4]) == v
  {
  }

  // ----- the connector understands what the device replies ------------------------------------

  lemma HigherBit(low: nat, rest: nat, k: nat)
    requires low < 2 && k > 0
    ensures BitAt(low + 2 * rest, k) == BitAt(rest, k - 1)
  {
  }

  lemma LowestBit(low: nat, rest: nat)
    requires low < 2
    ensures BitAt(low + 2 * rest, 0) == (low == 1)
  {
  }

  /** The value of binary digits, least significant first. */
  function Binary(digits: seq<nat>): nat {
    if digits == [] then 0 else digits[0] + 2 * Binary(digits[1..])
  }

  lemma {:induction false} BinaryBit(digits: seq<nat>, k: nat)
    requires k < |digits| && forall i :: 0 <= i < |digits| ==> digits[i] < 2
    ensures BitAt(Binary(digits), k) == (digits[k] == 1)
  {
    hide BitAt;
    if k == 0 {
      LowestBit(digits[0], Binary(digits[1..]));
    } else {
      HigherBit(digits[0], Binary(digits[1..]), k);
      BinaryBit(digits[1..], k - 1);
    }
  }

  lemma BinaryStep(digit: nat, rest: seq<nat>)
    ensures Binary([digit] + rest) == digit + 2 * Binary(rest)
  {
    assert ([digit] + rest)[1..] == rest;
  }

  lemma EightDigits(a: nat, b: nat, c: nat, d: nat, e: nat, f: nat, g: nat, h: nat)
    ensures Binary([a, b, c, d, e, f, g, h]) == a + 2 * b + 4 * c + 8 * d + 16 * e + 32 * f + 64 * g + 128 * h
  {
    hide Binary;
    BinaryStep(a, [b, c, d, e, f, g, h]);
    BinaryStep(b, [c, d, e, f, g, h]);
    BinaryStep(c, [d, e, f, g, h]);
    BinaryStep(d, [e, f, g, h]);
    BinaryStep(e, [f, g, h]);
    BinaryStep(f, [g, h]);
    BinaryStep(g, [h]);
    BinaryStep(h, []);
    assert [a] + [b, c, d, e, f, g, h] == [a, b, c, d, e, f, g, h] && [b] + [c, d, e, f, g, h] == [b, c, d, e, f, g, h];
    assert [c] + [d, e, f, g, h] == [c, d, e, f, g, h] && [d] + [e, f, g, h] == [d, e, f, g, h];
    assert [e] + [f, g, h] == [e, f, g, h] && [f] + [g, h] == [f, g, h] && [g] + [h] == [g, h] && [h] + [] == [h];
    NoDigits();
  }

  lemma NoDigits()
    ensures Binary([]) == 0
  {
  }

  lemma StatusBit(bits: seq<bool>, j: nat, k: nat)
    requires k < 8
    ensures BitAt(StatusByte(bits, j), k) == (8 * j + k < |bits| && bits[8 * j + k])
  {
    hide BitAt, Binary, Digit;
    var digits := [Digit(bits, 8 * j), Digit(bits, 8 * j + 1), Digit(bits, 8 * j + 2), Digit(bits, 8 * j + 3),
                   Digit(bits, 8 * j + 4), Digit(bits, 8 * j + 5), Digit(bits, 8 * j + 6), Digit(bits, 8 * j + 7)];
    EightDigits(digits[0], digits[1], digits[2], digits[3], digits[4], digits[5], digits[6], digits[7]);
    BinaryBit(digits, k);
    assert digits[k] == Digit(bits, 8 * j + k);
    DigitSet(bits, 8 * j + k);
  }

  lemma DigitSet(bits: seq<bool>, i: nat)
    ensures Digit(bits, i) == 1 <==> i < |bits| && bits[i]
  {
  }

  lemma StatusBytesRead(bits: seq<bool>)
    requires bits != []
    ensures BitsOf(StatusBytes(bits), |bits|) == bits
  {
    hide BitAt, StatusByte;
    var data := StatusBytes(bits);
    forall i | 0 <= i < |bits|
      ensures AllBits(data)[i] == bits[i]
    {
      StatusBit(bits, i / 8, i % 8);
    }
  }

  lemma RegisterDataAt(words: seq<Word>, i: nat)
    requires i < |words|
    ensures Join16(RegisterData(words)[2 * i], RegisterData(words)[2 * i + 1]) == words[i]
  {
    hide Join16;
    assert (2 * i) / 2 == i && (2 * i) % 2 == 0 && (2 * i + 1) / 2 == i && (2 * i + 1) % 2 == 1;
    SplitWord(words[i]);
  }

  lemma RegisterDataRead(words: seq<Word>)
    ensures RegistersOf(RegisterData(words), |words|) == Ok(words)
  {
    hide RegisterData, Join16;
    RegisterDataSize(words);
    var data := RegisterData(words);
    forall i | 0 <= i < |words|
      ensures Join16(data[2 * i], data[2 * i + 1]) == words[i]
    {
      RegisterDataAt(words, i);
    }
    assert RegistersOf(data, |words|).value == words;
  }

  /** What the caller should see. */
  function Seen(d: Device, op: Op): Response
    requires InRange(d, op)
  {
    match op
    case ReadBits(fc, a, q) => Bits(BitCells(d, fc)[a..a + q])
    case ReadRegisters(fc, a, q) => Registers(WordCells(d, fc)[a..a + q])
    case WriteCoil(a, on) => WroteOne(a, if on then 0xFF00 else 0)
    case WriteRegister(a, w) => WroteOne(a, w)
    case WriteCoils(a, bits) => WroteMany(a, if |bits| <= 0xFFFF then |bits| else 0)
    case WriteRegisters(a, words) => WroteMany(a, if |words| <= 0xFFFF then |words| else 0)
  }

  lemma ReplyUnderstood(d: Device, req: Request, oneBased: bool)
    requires ValidRequest(req) && BuildPdu(req, oneBased).Ok? && (IsRead(req.function_) || IsWrite(req.function_))
    requires InRange(d, Meant(req, oneBased))
    ensures DecodePdu(req, Reply(d, Meant(req, oneBased))) == Ok(Seen(d, Meant(req, oneBased)))
  {
    hide BitsOf, RegistersOf, StatusBytes, RegisterData, BitBytes, RegisterBytes;
    var op := Meant(req, oneBased);
    var pdu := Reply(d, op);
    match op
    case ReadBits(fc, a, q) =>
      var cells := BitCells(d, fc)[a..a + q];
      StatusBytesSize(cells);
      assert pdu[2..2 + pdu[1]] == StatusBytes(cells);
      StatusBytesRead(cells);
    case ReadRegisters(fc, a, q) =>
      var cells := WordCells(d, fc)[a..a + q];
      RegisterDataSize(cells);
      assert pdu[2..2 + pdu[1]] == RegisterData(cells);
      RegisterDataRead(cells);
    case _ =>
      assert Join16(pdu[1], pdu[2]) == op.address;
  }

  lemma StatusBytesSize(bits: seq<bool>)
    ensures |StatusBytes(bits)| == (|bits| + 7) / 8
  {
  }

  lemma RegisterDataSize(words: seq<Word>)
    ensures |RegisterData(words)| == 2 * |words|
  {
  }

  /** The round trip through any device, for every request of the eight functions: the
      device does what was meant and the caller sees it, exactly when the cells exist;
      otherwise the device is unchanged and the caller sees "illegal data address". */
  lemma RoundTrip(d: Device, req: Request, oneBased: bool)
    requires ValidRequest(req) && BuildPdu(req, oneBased).Ok? && (IsRead(req.function_) || IsWrite(req.function_))
    ensures var op := Meant(req, oneBased);
            var (reply, d') := Serve(d, BuildPdu(req, oneBased).value);
            if InRange(d, op) then DecodePdu(req, reply) == Ok(Seen(d, op)) && d' == Perform(d, op)
            else DecodePdu(req, reply) == Ok(Exception(ILLEGAL_ADDRESS)) && d' == d
  {
    hide ParseRequest, BitBytes, RegisterBytes, BitsOf, RegistersOf;
    RequestUnderstood(req, oneBased);
    if InRange(d, Meant(req, oneBased)) {
      hide Meant, BuildPdu, DecodePdu, Reply;
      ReplyUnderstood(d, req, oneBased);
    }
  }

  lemma ReplySize(d: Device, req: Request, oneBased: bool)
    requires ValidRequest(req) && BuildPdu(req, oneBased).Ok? && (IsRead(req.function_) || IsWrite(req.function_))
    requires InRange(d, Meant(req, oneBased))
    ensures 1 <= |Reply(d, Meant(req, oneBased))| <= 252
  {
    hide StatusBytes, RegisterData, BitBytes, RegisterBytes;
    match Meant(req, oneBased)
    case ReadBits(fc, a, q) => StatusBytesSize(BitCells(d, fc)[a..a + q]);
    case ReadRegisters(fc, a, q) => RegisterDataSize(WordCells(d, fc)[a..a + q]);
    case _ =>
  }

  /** The whole transaction, for every request of the eight functions and every limit of
      at least 260 bytes: the request is never too large to send, the device's framed
      reply never too large to take, and the caller sees what the device did, exactly
      when the cells exist. */
  lemma TransactionRoundTrip(d: Device, req: Request, oneBased: bool, tid: Word, unit: byte, tail: bytes, maxAdu: int,
                             ending: Ending)
    requires ValidRequest(req) && BuildPdu(req, oneBased).Ok? && (IsRead(req.function_) || IsWrite(req.function_))
    requires maxAdu >= 260
    ensures var pdu, op := BuildPdu(req, oneBased).value, Meant(req, oneBased);
            var (reply, d') := Serve(d, pdu);
            && 7 + |pdu| <= maxAdu && 1 <= |reply| <= 252
            && var r := Answered(req, Adu(tid, unit, reply) + tail, tid, maxAdu, ending);
               if InRange(d, op) then r == Ok(Seen(d, op)) && d' == Perform(d, op)
               else r == Ok(Exception(ILLEGAL_ADDRESS)) && d' == d
  {
    hide DecodePdu, ReadAdu, Adu, ParseRequest, BitBytes, RegisterBytes;
    PduFits(req, oneBased);
    RoundTrip(d, req, oneBased);
    RequestUnderstood(req, oneBased);
    if InRange(d, Meant(req, oneBased)) {
      ReplySize(d, req, oneBased);
    }
    AduRoundTrip(tid, tid, unit, Serve(d, BuildPdu(req, oneBased).value).0, tail, maxAdu, ending);
  }

  /** Registers written are the registers read back from the same place, and no other
      register, coil or input changes. */
  lemma WriteThenRead(d: Device, write: Request, read: Request, oneBased: bool)
    requires ValidRequest(write) && write.function_ == WRITE_MULTIPLE_REGISTERS && BuildPdu(write, oneBased).Ok?
    requires ValidRequest(read) && read.function_ == READ_HOLDING_REGISTERS && BuildPdu(read, oneBased).Ok?
    requires read.address == write.address && read.quantity == Some(|write.values.items|)
    requires InRange(d, Meant(write, oneBased))
    ensures var d' := Serve(d, BuildPdu(write, oneBased).value).1;
            && DecodePdu(read, Serve(d', BuildPdu(read, oneBased).value).0)
               == Ok(Registers(Words(Ints(write.values.items))))
            && d'.coils == d.coils && d'.inputs == d.inputs && d'.inputRegisters == d.inputRegisters
            && |d'.holding| == |d.holding|
            && var a := Meant(write, oneBased).address;
               forall i :: 0 <= i < |d.holding| && !(a <= i < a + |write.values.items|)
                 ==> d'.holding[i] == d.holding[i]
  {
    hide ParseRequest, DecodePdu, Reply, RegisterBytes;
    RoundTrip(d, write, oneBased);
    RoundTrip(Perform(d, Meant(write, oneBased)), read, oneBased);
  }
}
