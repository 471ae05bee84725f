/** Byte strings and fixed-width integers (`BinaryData`). */
module Bytes {
  newtype byte = x: int | 0 <= x < 256

  type Bytes = seq<byte>

  type u8 = n: nat | n < 0x100
  type u32 = n: nat | n < 0x1_0000_0000
  type u64 = n: nat | n < 0x1_0000_0000_0000_0000

  /** Concatenation of a list of byte strings. */
  function Join(parts: seq<Bytes>): Bytes {
    if parts == [] then [] else Join(parts[..|parts| - 1]) + parts[|parts| - 1]
  }

  // ----- Integers of a fixed width ------------------------------------------

  /** 256 to the power of k: how many values k bytes can hold. */
  function Span(k: nat): (s: nat)
    ensures s >= 1
  {
    if k == 0 then 1 else 256 * Span(k - 1)
  }

  /** The k low bytes of n, the lowest last. */
  function BigEndian(n: nat, k: nat): (b: Bytes)
    ensures |b| == k
  {
    if k == 0 then [] else BigEndian(n / 256, k - 1) + [(n % 256) as byte]
  }

  function FromBigEndian(b: Bytes): nat {
    if b == [] then 0 else 256 * FromBigEndian(b[..|b| - 1]) + b[|b| - 1] as nat
  }

  /** The k low bytes of n, the lowest first. */
  function LittleEndian(n: nat, k: nat): (b: Bytes)
    ensures |b| == k
  {
    if k == 0 then [] else [(n % 256) as byte] + LittleEndian(n / 256, k - 1)
  }

  function FromLittleEndian(b: Bytes): nat {
    if b == [] then 0 else b[0] as nat + 256 * FromLittleEndian(b[1..])
  }

  lemma SplitByte(low: nat, high: nat)
    requires low < 256
    ensures (low + 256 * high) % 256 == low && (low + 256 * high) / 256 == high
  {
  }

  lemma {:induction false} LittleEndianWritesBack(b: Bytes)
    ensures LittleEndian(FromLittleEndian(b), |b|) == b
  {
    if b != [] {
      LittleEndianWritesBack(b[1..]);
      SplitByte(b[0] as nat, FromLittleEndian(b[1..]));
      assert b == [b[0]] + b[1..];
    }
  }

  lemma {:induction false} BigEndianReadsBack(n: nat, k: nat)
    requires n < Span(k)
    ensures FromBigEndian(BigEndian(n, k)) == n
  {
    if k > 0 {
      BigEndianReadsBack(n / 256, k - 1);
      var b := BigEndian(n, k);
      assert b[..k - 1] == BigEndian(n / 256, k - 1);
    }
  }

  lemma {:induction false} FromBigEndianWritesBack(b: Bytes)
    ensures FromBigEndian(b) < Span(|b|)
    ensures BigEndian(FromBigEndian(b), |b|) == b
  {
    if b != [] {
      FromBigEndianWritesBack(b[..|b| - 1]);
    }
  }

  lemma {:induction false} LittleEndianReadsBack(n: nat, k: nat)
    requires n < Span(k)
    ensures FromLittleEndian(LittleEndian(n, k)) == n
  {
    if k > 0 {
      LittleEndianReadsBack(n / 256, k - 1);
      var b := LittleEndian(n, k);
      assert b[1..] == LittleEndian(n / 256, k - 1);
    }
  }

  lemma {:induction false} FromLittleEndianBound(b: Bytes)
    ensures FromLittleEndian(b) < Span(|b|)
  {
    if b != [] {
      FromLittleEndianBound(b[1..]);
    }
  }

  lemma Spans()
    ensures Span(1) == 0x100 && Span(2) == 0x1_0000 && Span(4) == 0x1_0000_0000 && Span(8) == 0x1_0000_0000_0000_0000
  {
    assert Span(2) == 256 * Span(1);
    assert Span(3) == 256 * Span(2);
    assert Span(4) == 256 * Span(3);
    assert Span(5) == 256 * Span(4);
    assert Span(6) == 256 * Span(5);
    assert Span(7) == 256 * Span(6);
    assert Span(8) == 256 * Span(7);
  }
}
