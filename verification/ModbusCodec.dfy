/** The Modbus PDU codec: bit and register packing, request PDUs, response PDUs. */
module ModbusCodec {
  import opened Wrappers
  import opened Wire

  const READ_COILS := 1
  const READ_DISCRETE_INPUTS := 2
  const READ_HOLDING_REGISTERS := 3
  const READ_INPUT_REGISTERS := 4
  const WRITE_SINGLE_COIL := 5
  const WRITE_SINGLE_REGISTER := 6
  const WRITE_MULTIPLE_COILS := 15
  const WRITE_MULTIPLE_REGISTERS := 16

  const MAX_COILS_PER_READ := 2000
  const MAX_REGS_PER_READ := 125
  const MAX_REGS_PER_WRITE := 123
  const MAX_COILS_PER_WRITE := 1968

  type Word = n: nat | n <= 0xFFFF

  datatype ModbusError =
    | MissingField | AddressRange | QuantityRange | BadValues | RegisterRange | RawTooLarge | Unsupported
    | EmptyPdu | ShortPdu | FunctionMismatch
    | AduTooLarge | ConnectFailed | ConnectionClosed | RecvTimeout | RecvFailed | SendFailed
    | InvalidProtocol | InvalidLength | ResponseTooLarge | TransactionMismatch

  // ----- registers -----------------------------------------------------------------------

  /** `_u16`. */
  function U16(n: Word): (b: bytes)
    ensures |b| == 2
  {
    [n / 256, n % 256]
  }

  lemma SplitWord(w: Word)
    ensures Join16(U16(w)[0], U16(w)[1]) == w
    ensures Join16(0, 0) == 0
  {
  }

  function RegisterBytes(values: seq<Word>): (b: bytes)
    ensures |b| == 2 * |values|
  {
    if values == [] then [] else U16(values[0]) + RegisterBytes(values[1..])
  }

  lemma {:induction false} RegisterBytesSnoc(values: seq<Word>, v: Word)
    ensures RegisterBytes(values + [v]) == RegisterBytes(values) + U16(v)
  {
    if values == [] {
      assert values + [v] == [v] && [v][1..] == [];
    } else {
      assert (values + [v])[1..] == values[1..] + [v];
      RegisterBytesSnoc(values[1..], v);
    }
  }

  /** Register `i` of a payload is its bytes `2i` and `2i + 1`. */
  lemma {:induction false} RegisterAt(values: seq<Word>, i: nat)
    requires i < |values|
    ensures Join16(RegisterBytes(values)[2 * i], RegisterBytes(values)[2 * i + 1]) == values[i]
  {
    if i > 0 {
      RegisterAt(values[1..], i - 1);
      var later := RegisterBytes(values[1..]);
      assert RegisterBytes(values)[2 * i] == later[2 * (i - 1)];
      assert RegisterBytes(values)[2 * i + 1] == later[2 * (i - 1) + 1];
    }
  }

  predicate AreWords(values: seq<int>) {
    forall i :: 0 <= i < |values| ==> 0 <= values[i] <= 0xFFFF
  }

  function Words(values: seq<int>): (w: seq<Word>)
    requires AreWords(values)
    ensures |w| == |values| && forall i :: 0 <= i < |w| ==> w[i] == values[i]
  {
    seq(|values|, i requires 0 <= i < |values| => values[i])
  }

  /** `_pack_registers`: big-endian, refusing the first value out of range. */
  method PackRegisters(values: seq<int>) returns (r: Result<bytes, ModbusError>)
    ensures r == if AreWords(values) then Ok(RegisterBytes(Words(values))) else Err(RegisterRange)
  {
    var out: bytes := [];
    ghost var done: seq<Word> := [];
    for i := 0 to |values|
      invariant |done| == i && (forall k :: 0 <= k < i ==> done[k] == values[k])
      invariant out == RegisterBytes(done)
    {
      var v := values[i];
      if !(0 <= v <= 0xFFFF) { return Err(RegisterRange); }
      RegisterBytesSnoc(done, v);
      done := done + [v];
      out := out + U16(v);
    }
    assert done == Words(values);
    r := Ok(out);
  }

  /** `_unpack_registers`. */
  method UnpackRegisters(data: bytes, count: int) returns (r: Result<seq<Word>, ModbusError>)
    ensures r == RegistersOf(data, count)
  {
    if |data| < count * 2 { return Err(ShortPdu); }
    var out: seq<Word> := [];
    var i := 0;
    while i < count
      invariant i == |out| && (i <= count || i == 0)
      invariant forall k :: 0 <= k < i ==> out[k] == Join16(data[2 * k], data[2 * k + 1])
    {
      out := out + [Join16(data[2 * i], data[2 * i + 1])];
      i := i + 1;
    }
    assert out == RegistersOf(data, count).value;
    r := Ok(out);
  }

  function RegistersOf(data: bytes, count: int): Result<seq<Word>, ModbusError> {
    if |data| < count * 2 then Err(ShortPdu)
    else Ok(seq(if count < 0 then 0 else count, k requires 0 <= k < count => Join16(data[2 * k], data[2 * k + 1])))
  }

  // ----- bits ------------------------------------------------------------------------------

  function Bit(b: bool): nat {
    if b then 1 else 0
  }

  /** Up to eight bits as a byte, least significant first. */
  function ByteOf(bits: seq<bool>): (n: nat)
    ensures n < Pow2(|bits|)
  {
    if bits == [] then 0 else Bit(bits[0]) + 2 * ByteOf(bits[1..])
  }

  lemma Pow2Eight()
    ensures Pow2(8) == 256
  {
    assert Pow2(4) == 16;
  }

  lemma {:induction false} ByteOfWidth(bits: seq<bool>)
    requires |bits| <= 8
    ensures ByteOf(bits) < 256
  {
    Pow2Eight();
    Pow2Mono(|bits|, 8);
  }

  lemma {:induction false} Pow2Mono(a: nat, b: nat)
    requires a <= b
    ensures Pow2(a) <= Pow2(b)
  {
    if a < b {
      Pow2Mono(a, b - 1);
    }
  }

  lemma ByteOfEmpty()
    ensures ByteOf([]) == 0
  {
  }

  lemma {:induction false} ByteOfSnoc(bits: seq<bool>, b: bool)
    ensures ByteOf(bits + [b]) == ByteOf(bits) + (if b then Pow2(|bits|) else 0)
  {
    if bits == [] {
      assert bits + [b] == [b] && [b][1..] == [];
    } else {
      assert (bits + [b])[1..] == bits[1..] + [b];
      ByteOfSnoc(bits[1..], b);
    }
  }

  function BitBytes(bits: seq<bool>): (r: bytes)
    ensures |r| == (|bits| + 7) / 8
  {
    if bits == [] then []
    else if |bits| <= 8 then (ByteOfWidth(bits); [ByteOf(bits)])
    else (ByteOfWidth(bits[..8]); [ByteOf(bits[..8])] + BitBytes(bits[8..]))
  }

  lemma {:induction false} BitBytesConcat(a: seq<bool>, b: seq<bool>)
    requires |a| % 8 == 0
    ensures BitBytes(a + b) == BitBytes(a) + BitBytes(b)
    decreases |a|
  {
    if a == [] {
      assert a + b == b;
    } else {
      assert (a + b)[..8] == a[..8] && (a + b)[8..] == a[8..] + b;
      BitBytesConcat(a[8..], b);
      if |a| == 8 {
        assert a[..8] == a && a[8..] == [] && [] + b == b;
        if b == [] {
          assert a + b == a;
        }
      }
    }
  }

  /** `_pack_bits`: eight bits to a byte, least significant first. */
  method PackBits(values: seq<bool>) returns (out: bytes)
    ensures out == BitBytes(values)
  {
    hide ByteOf, Pow2;
    ByteOfEmpty();
    out := [];
    var acc: nat := 0;
    var bit := 0;
    ghost var full: seq<bool>, part: seq<bool> := [], [];
    for i := 0 to |values|
      invariant values[..i] == full + part
      invariant |full| % 8 == 0 && bit == |part| < 8
      invariant out == BitBytes(full) && acc == ByteOf(part)
    {
      ByteOfSnoc(part, values[i]);
      assert values[..i + 1] == full + (part + [values[i]]);
      if values[i] { acc := acc + Pow2(bit); }
      part := part + [values[i]];
      bit := bit + 1;
      ByteOfWidth(part);
      if bit == 8 {
        BitBytesConcat(full, part);
        assert values[..i + 1] == (full + part) + [];
        out := out + [acc];
        full, part := full + part, [];
        acc := 0;
        bit := 0;
      }
    }
    assert values == full + part by { assert values[..|values|] == values; }
    BitBytesConcat(full, part);
    ByteOfWidth(part);
    if bit != 0 {
      out := out + [acc];
    }
  }

  /** Bit `k` of a byte: `byte & (1 << k)`. */
  predicate BitAt(b: nat, k: nat) {
    if k == 0 then b % 2 == 1 else BitAt(b / 2, k - 1)
  }

  lemma {:induction false} BitOfByte(bits: seq<bool>, k: nat)
    requires |bits| <= 8 && k < 8
    ensures ByteOf(bits) < 256
    ensures BitAt(ByteOf(bits), k) == (k < |bits| && bits[k])
    decreases k
  {
    ByteOfWidth(bits);
    if bits != [] && k > 0 {
      BitOfByte(bits[1..], k - 1);
      assert ByteOf(bits) / 2 == ByteOf(bits[1..]);
    } else if k > 0 {
      BitOfByte([], k - 1);
    }
  }

  /** Bit `i` of packed bits is in byte `i / 8`, at position `i % 8`; padding is zero. */
  lemma {:induction false} PackedBit(bits: seq<bool>, i: nat)
    requires i < 8 * |BitBytes(bits)|
    ensures BitAt(BitBytes(bits)[i / 8], i % 8) == (i < |bits| && bits[i])
    decreases |bits|
  {
    var first := if |bits| <= 8 then bits else bits[..8];
    if i < 8 {
      BitOfByte(first, i);
    } else {
      PackedBit(bits[8..], i - 8);
      assert BitBytes(bits)[i / 8] == BitBytes(bits[8..])[(i - 8) / 8];
    }
  }

  /** All the bits of `data`, least significant first. */
  function AllBits(data: bytes): (r: seq<bool>)
    ensures |r| == 8 * |data|
  {
    seq(8 * |data|, i requires 0 <= i < 8 * |data| => BitAt(data[i / 8], i % 8))
  }

  /** What `_unpack_bits` returns: at least one bit, if there is one, even for a count
      of zero or less. */
  function BitsOf(data: bytes, count: int): seq<bool> {
    var n := if count < 1 then 1 else count;
    if n <= 8 * |data| then AllBits(data)[..n] else AllBits(data)
  }

  /** `_unpack_bits`. */
  method UnpackBits(data: bytes, count: int) returns (out: seq<bool>)
    ensures out == BitsOf(data, count)
  {
    hide BitAt;
    out := [];
    for j := 0 to |data|
      invariant |out| == 8 * j && (j > 0 ==> |out| < count)
      invariant out == AllBits(data)[..|out|]
    {
      for bit := 0 to 8
        invariant |out| == 8 * j + bit && (|out| > 0 ==> |out| < count)
        invariant out == AllBits(data)[..|out|]
      {
        var b := BitAt(data[j], bit);
        assert b == AllBits(data)[|out|] by { assert |out| / 8 == j && |out| % 8 == bit; }
        out := out + [b];
        if |out| >= count { return; }
      }
    }
  }

  /** Unpacking `count` bits gives the first `count` bits exactly when `count` is
      positive or there is no data: for a count of 0 it still returns one bit. */
  lemma UnpackIsPrefix(data: bytes, count: nat)
    requires count <= 8 * |data|
    ensures BitsOf(data, count) == AllBits(data)[..count] <==> count >= 1 || data == []
  {
  }

  /** Unpacking what was packed gives the bits back. */
  lemma UnpackPack(bits: seq<bool>)
    ensures BitsOf(BitBytes(bits), |bits|) == bits
  {
    forall i | 0 <= i < |bits|
      ensures AllBits(BitBytes(bits))[i] == bits[i]
    {
      PackedBit(bits, i);
    }
  }
}
