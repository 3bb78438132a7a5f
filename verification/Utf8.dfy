/** Strict UTF-8 (section 3 of RFC 3629), as `str.encode` and `bytes.decode` apply it. */
module Utf8 {
  import opened Wrappers
  import opened Wire

  function EncodeChar(c: char): (b: bytes)
    ensures 1 <= |b| <= 4
  {
    var n := c as int;
    var q := n / 64;
    var p := q / 64;
    if n < 0x80 then [n]
    else if n < 0x800 then [0xC0 + q, 0x80 + n % 64]
    else if n < 0x1_0000 then [0xE0 + p, 0x80 + q % 64, 0x80 + n % 64]
    else [0xF0 + p / 64, 0x80 + p % 64, 0x80 + q % 64, 0x80 + n % 64]
  }

  function Encode(s: string): bytes {
    if s == "" then [] else EncodeChar(s[0]) + Encode(s[1..])
  }

  predicate Continues(b: byte) {
    0x80 <= b < 0xC0
  }

  /** Six more bits from a continuation byte. */
  function Shift(n: int, b: byte): int {
    64 * n + (b as int - 0x80)
  }

  /** The scalar value of a sequence of 1 to 4 bytes, before the range checks. */
  function Scalar(b: bytes): int
    requires 1 <= |b| <= 4
  {
    var lead := b[0] as int;
    if |b| == 1 then lead
    else if |b| == 2 then Shift(lead - 0xC0, b[1])
    else if |b| == 3 then Shift(Shift(lead - 0xE0, b[1]), b[2])
    else Shift(Shift(Shift(lead - 0xF0, b[1]), b[2]), b[3])
  }

  /** Length of the sequence a lead byte announces; 0 for a byte that cannot lead. */
  function Announced(lead: byte): nat {
    if lead < 0x80 then 1
    else if lead < 0xC0 then 0
    else if lead < 0xE0 then 2
    else if lead < 0xF0 then 3
    else if lead < 0xF8 then 4
    else 0
  }

  /** Whether `b` is exactly one character: right length, continuation bytes, not
      overlong, not a surrogate, not above U+10FFFF. */
  predicate IsSequence(b: bytes) {
    && 1 <= |b| <= 4
    && |b| == Announced(b[0])
    && (forall i :: 1 <= i < |b| ==> Continues(b[i]))
    && var n := Scalar(b);
       if |b| == 1 then true
       else if |b| == 2 then n >= 0x80
       else if |b| == 3 then n >= 0x800 && !(0xD800 <= n < 0xE000)
       else 0x1_0000 <= n < 0x11_0000
  }

  function Decode(b: bytes): Option<string> {
    if b == [] then Some("") else
    var k := Announced(b[0]);
    if k == 0 || k > |b| || !IsSequence(b[..k]) then None else
    var c := Scalar(b[..k]) as char;
    match Decode(b[k..])
    case None => None
    case Some(s) => Some([c] + s)
  }

  lemma CharRoundTrip(c: char)
    ensures IsSequence(EncodeChar(c)) && Scalar(EncodeChar(c)) == c as int
  {
    var n := c as int;
    var q := n / 64;
    var p := q / 64;
    assert n == 64 * q + n % 64 && q == 64 * p + q % 64 && p == 64 * (p / 64) + p % 64;
    var b := EncodeChar(c);
    if |b| == 3 {
      assert Shift(Shift(p, b[1]), b[2]) == n;
    } else if |b| == 4 {
      assert Shift(Shift(Shift(p / 64, b[1]), b[2]), b[3]) == n;
    }
  }

  lemma SequenceRoundTrip(b: bytes)
    requires IsSequence(b)
    ensures EncodeChar(Scalar(b) as char) == b
  {
    var n := Scalar(b);
    var q := n / 64;
    var p := q / 64;
    if |b| == 2 {
      assert q == b[0] as int - 0xC0;
    } else if |b| == 3 {
      assert q == Shift(b[0] as int - 0xE0, b[1]);
      assert p == b[0] as int - 0xE0;
    } else if |b| == 4 {
      assert q == Shift(Shift(b[0] as int - 0xF0, b[1]), b[2]);
      assert p == Shift(b[0] as int - 0xF0, b[1]);
    }
  }

  lemma SequenceLength(b: bytes)
    requires IsSequence(b)
    ensures 1 <= |b| == Announced(b[0])
  {
  }

  lemma DecodeStep(first: bytes, tail: bytes)
    requires IsSequence(first)
    ensures Decode(first + tail)
         == match Decode(tail) case None => None case Some(s) => Some([Scalar(first) as char] + s)
  {
    hide Scalar, IsSequence;
    SequenceLength(first);
    var b := first + tail;
    assert b[..|first|] == first && b[|first|..] == tail;
  }

  /** Decoding what was encoded gives the string back. */
  lemma {:induction false} DecodeEncode(s: string)
    ensures Decode(Encode(s)) == Some(s)
  {
    hide Decode, Scalar, EncodeChar, IsSequence;
    if s == "" {
      DecodeEmpty();
    } else {
      CharRoundTrip(s[0]);
      DecodeStep(EncodeChar(s[0]), Encode(s[1..]));
      DecodeEncode(s[1..]);
      assert s == [s[0]] + s[1..];
    }
  }

  lemma DecodeEmpty()
    ensures Decode([]) == Some("")
  {
  }

  /** The decoder accepts nothing but encodings: each string has one byte form. */
  lemma {:induction false} EncodeDecode(b: bytes)
    requires Decode(b).Some?
    ensures Encode(Decode(b).value) == b
  {
    hide Scalar, EncodeChar;
    if b != [] {
      var k := Announced(b[0]);
      SequenceRoundTrip(b[..k]);
      EncodeDecode(b[k..]);
      assert b == b[..k] + b[k..];
      assert Decode(b).value[1..] == Decode(b[k..]).value;
    }
  }

  /** At most four bytes a character. */
  lemma {:induction false} EncodedLength(s: string)
    ensures |s| <= |Encode(s)| <= 4 * |s|
  {
    if s != "" {
      EncodedLength(s[1..]);
    }
  }
}
