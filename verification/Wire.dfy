/** Bytes on the wire: big-endian integers, exclusive-or, and the socket every
    connector reads through. */
module Wire {
  import opened Wrappers

  type byte = b: int | 0 <= b < 256

  type bytes = seq<byte>

  // ----- big-endian integers ---------------------------------------------------

  function Pow256(k: nat): (p: nat)
    ensures p >= 1
  {
    if k == 0 then 1 else 256 * Pow256(k - 1)
  }

  /** `n.to_bytes(width, "big")`. */
  function ToBig(n: nat, width: nat): (b: bytes)
    requires n < Pow256(width)
    ensures |b| == width
  {
    if width == 0 then [] else ToBig(n / 256, width - 1) + [n % 256]
  }

  /** `int.from_bytes(b, "big")`. */
  function FromBig(b: bytes): (n: nat)
    ensures n < Pow256(|b|)
  {
    if b == [] then 0 else 256 * FromBig(b[..|b| - 1]) + b[|b| - 1]
  }

  lemma {:induction false} FromToBig(n: nat, width: nat)
    requires n < Pow256(width)
    ensures FromBig(ToBig(n, width)) == n
  {
    if width > 0 {
      FromToBig(n / 256, width - 1);
      assert ToBig(n, width)[..width - 1] == ToBig(n / 256, width - 1);
    }
  }

  lemma {:induction false} ToFromBig(b: bytes)
    ensures ToBig(FromBig(b), |b|) == b
  {
    if b != [] {
      ToFromBig(b[..|b| - 1]);
      assert b == b[..|b| - 1] + [b[|b| - 1]];
    }
  }

  /** Two bytes, most significant first. */
  function Join16(high: byte, low: byte): (n: nat)
    ensures n <= 0xFFFF
  {
    256 * (high as int) + low
  }

  // ----- exclusive-or ------------------------------------------------------------

  /** Bitwise exclusive-or, one bit at a time. */
  function Xor(a: nat, b: nat): nat {
    if a == 0 && b == 0 then 0 else 2 * Xor(a / 2, b / 2) + (a + b) % 2
  }

  function Pow2(k: nat): (p: nat)
    ensures p >= 1
  {
    if k == 0 then 1 else 2 * Pow2(k - 1)
  }

  /** Exclusive-or stays within the width of its operands. */
  lemma {:induction false} XorWidth(a: nat, b: nat, k: nat)
    requires a < Pow2(k) && b < Pow2(k)
    ensures Xor(a, b) < Pow2(k)
  {
    if a != 0 || b != 0 {
      XorWidth(a / 2, b / 2, k - 1);
    }
  }

  lemma XorStep(p: nat, q: nat, i: nat, j: nat)
    requires i < 2 && j < 2
    ensures Xor(2 * p + i, 2 * q + j) == 2 * Xor(p, q) + (i + j) % 2
  {
    assert (2 * p + i) / 2 == p && (2 * q + j) / 2 == q;
    assert (2 * p + i + 2 * q + j) % 2 == (i + j) % 2;
  }

  lemma XorZero()
    ensures Xor(0, 0) == 0
  {
  }

  /** Exclusive-or with the same key twice gives the operand back. */
  lemma {:induction false} XorTwice(a: nat, b: nat)
    ensures Xor(Xor(a, b), b) == a
    decreases a + b
  {
    hide Xor;
    XorZero();
    if a != 0 || b != 0 {
      var p, q, i, j := a / 2, b / 2, a % 2, b % 2;
      XorStep(p, q, i, j);
      XorTwice(p, q);
      XorStep(Xor(p, q), q, (i + j) % 2, j);
    }
  }

  function XorByte(a: byte, b: byte): byte {
    assert Pow2(8) == 256 by { assert Pow2(4) == 16; }
    XorWidth(a, b, 8);
    Xor(a, b)
  }

  // ----- sockets ------------------------------------------------------------------

  function Flatten(chunks: seq<bytes>): bytes {
    if chunks == [] then [] else chunks[0] + Flatten(chunks[1..])
  }

  /** What a read meets once the peer's bytes are used up: an orderly close, a
      timeout, or another socket error. */
  datatype Ending = Closed | TimedOut | Broken

  /** A connected socket. The peer's bytes arrive in `chunks` of any sizes, and
      then `ending` happens; `sendsLeft` writes succeed before writes fail.
      `sent` lists the buffers written. */
  class Socket {
    var chunks: seq<bytes>
    var sendsLeft: nat
    var sent: seq<bytes>
    const ending: Ending
    const origin: bytes

    ghost predicate Valid()
      reads this
    {
      forall i :: 0 <= i < |chunks| ==> chunks[i] != []
    }

    ghost function Pending(): bytes
      reads this
    {
      Flatten(chunks)
    }

    constructor (chunks: seq<bytes>, ending: Ending, sendsLeft: nat)
      requires forall i :: 0 <= i < |chunks| ==> chunks[i] != []
      ensures Valid() && Pending() == origin == Flatten(chunks)
      ensures this.ending == ending && this.sendsLeft == sendsLeft && sent == []
    {
      this.chunks, this.ending, this.sendsLeft := chunks, ending, sendsLeft;
      this.origin := Flatten(chunks);
      sent := [];
    }

    /** `sock.recv(n)`: some of the bytes that have arrived, at most `n`. */
    method Recv(n: nat) returns (r: Result<bytes, Ending>)
      requires Valid() && n > 0
      modifies this`chunks
      ensures Valid()
      ensures old(Pending()) != [] ==> r.Ok? && 0 < |r.value| <= n && old(Pending()) == r.value + Pending()
      ensures old(Pending()) == [] ==> Pending() == []
      ensures old(Pending()) == [] ==> r == if ending == Closed then Ok([]) else Err(ending)
    {
      if chunks == [] {
        r := if ending == Closed then Ok([]) else Err(ending);
      } else if |chunks[0]| <= n {
        r := Ok(chunks[0]);
        chunks := chunks[1..];
      } else {
        ghost var first, others := chunks[0], chunks[1..];
        r := Ok(chunks[0][..n]);
        chunks := [chunks[0][n..]] + chunks[1..];
        assert first == first[..n] + first[n..];
        assert chunks[1..] == others;
      }
    }

    /** `_recv_exact`: the next `n` bytes whatever the chunk sizes, or the error
        the peer's bytes end with (the bytes read up to then are lost). */
    method RecvExact(n: nat) returns (r: Result<bytes, Ending>)
      requires Valid()
      modifies this`chunks
      ensures Valid()
      ensures n <= |old(Pending())| ==> r == Ok(old(Pending())[..n]) && Pending() == old(Pending())[n..]
      ensures n > |old(Pending())| ==> r == Err(ending) && Pending() == []
    {
      var buf: bytes := [];
      while |buf| < n
        invariant Valid() && |buf| <= n
        invariant old(Pending()) == buf + Pending()
      {
        var chunk := Recv(n - |buf|);
        if chunk.Err? {
          return Err(chunk.error);
        }
        if chunk.value == [] {
          return Err(Closed);
        }
        buf := buf + chunk.value;
      }
      r := Ok(buf);
    }

    /** `_send_all`: writes the whole buffer or raises. */
    method SendAll(data: bytes) returns (ok: bool)
      modifies this`sendsLeft, this`sent
      ensures ok == (old(sendsLeft) > 0)
      ensures ok ==> sendsLeft == old(sendsLeft) - 1 && sent == old(sent) + [data]
      ensures !ok ==> sendsLeft == old(sendsLeft) && sent == old(sent)
    {
      ok := sendsLeft > 0;
      if ok {
        sendsLeft := sendsLeft - 1;
        sent := sent + [data];
      }
    }
  }
}
