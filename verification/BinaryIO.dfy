/**
 The writer and the reader that all records go through (`BinaryWriter`, `BinaryRefReader`).

 A writer function puts a value in front of what is written after it; a reader function
 returns the value and what is left to read, or None where the reader throws.
 */
module BinaryIO {
  import opened Wrappers
  import opened Bytes


  function PutByte(n: nat, rest: Bytes): (b: Bytes)
    requires n < 256
    ensures |b| == 1 + |rest|
  {
    [n as byte] + rest
  }

  function PutU32(n: nat, rest: Bytes): (b: Bytes)
    ensures |b| == 4 + |rest|
  {
    LittleEndian(n, 4) + rest
  }

  function VarIntSize(n: nat): nat {
    if n < 0xFD then 1 else if n <= 0xFFFF then 3 else if n <= 0xFFFF_FFFF then 5 else 9
  }

  function PutVarInt(n: nat, rest: Bytes): (b: Bytes)
    ensures |b| == VarIntSize(n) + |rest|
  {
    if n < 0xFD then [n as byte] + rest
    else if n <= 0xFFFF then [0xFD] + (LittleEndian(n, 2) + rest)
    else if n <= 0xFFFF_FFFF then [0xFE] + (LittleEndian(n, 4) + rest)
    else [0xFF] + (LittleEndian(n, 8) + rest)
  }

  /** A byte string behind its length. */
  function PutBlob(data: Bytes, rest: Bytes): (b: Bytes)
    ensures |b| == VarIntSize(|data|) + |data| + |rest|
  {
    PutVarInt(|data|, data + rest)
  }

  function GetByte(b: Bytes): Option<(nat, Bytes)> {
    if b == [] then None else Some((b[0] as nat, b[1..]))
  }

  function GetInt(b: Bytes, k: nat): Option<(nat, Bytes)> {
    if |b| < k then None else Some((FromLittleEndian(b[..k]), b[k..]))
  }

  function GetU32(b: Bytes): Option<(nat, Bytes)> { GetInt(b, 4) }

  function GetVarInt(b: Bytes): (r: Option<(nat, Bytes)>)
    ensures r.Some? ==> |r.value.1| < |b|
  {
    if b == [] then None
    else if b[0] < 0xFD then Some((b[0] as nat, b[1..]))
    else GetInt(b[1..], if b[0] == 0xFD then 2 else if b[0] == 0xFE then 4 else 8)
  }

  /** The length is a 32-bit parameter, so a longer one is cut. */
  function GetBytes(b: Bytes, n: nat): (r: Option<(Bytes, Bytes)>)
    ensures r.Some? ==> |r.value.1| <= |b|
  {
    var m := n % 0x1_0000_0000;
    if |b| < m then None else Some((b[..m], b[m..]))
  }

  function GetBlob(b: Bytes): Option<(Bytes, Bytes)> {
    var (n, rest) :- GetVarInt(b);
    GetBytes(rest, n)
  }

  // ----- Reading what was written -------------------------------------------

  lemma IntReadsBack(n: nat, k: nat, rest: Bytes)
    requires n < Span(k)
    ensures GetInt(LittleEndian(n, k) + rest, k) == Some((n, rest))
  {
    LittleEndianReadsBack(n, k);
    var b := LittleEndian(n, k) + rest;
    assert b[..k] == LittleEndian(n, k) && b[k..] == rest;
  }

  lemma ByteReadsBack(n: nat, rest: Bytes)
    requires n < 256
    ensures GetByte(PutByte(n, rest)) == Some((n, rest))
  {
  }

  lemma U32ReadsBack(n: nat, rest: Bytes)
    requires n < 0x1_0000_0000
    ensures GetU32(PutU32(n, rest)) == Some((n, rest))
  {
    Spans();
    IntReadsBack(n, 4, rest);
  }

  lemma VarIntReadsBack(n: nat, rest: Bytes)
    requires n < 0x1_0000_0000_0000_0000
    ensures GetVarInt(PutVarInt(n, rest)) == Some((n, rest))
  {
    Spans();
    if n >= 0xFD {
      var k := if n <= 0xFFFF then 2 else if n <= 0xFFFF_FFFF then 4 else 8;
      IntReadsBack(n, k, rest);
      assert PutVarInt(n, rest)[1..] == LittleEndian(n, k) + rest;
    }
  }

  lemma BytesReadBack(data: Bytes, rest: Bytes)
    requires |data| < 0x1_0000_0000
    ensures GetBytes(data + rest, |data|) == Some((data, rest))
  {
    assert (data + rest)[..|data|] == data && (data + rest)[|data|..] == rest;
  }

  /** A blob reads back exactly when its length fits in 32 bits. */
  lemma BlobReadsBack(data: Bytes, rest: Bytes)
    requires |data| < 0x1_0000_0000_0000_0000
    ensures GetBlob(PutBlob(data, rest)) == Some((data, rest)) <==> |data| < 0x1_0000_0000
  {
    VarIntReadsBack(|data|, data + rest);
    if |data| < 0x1_0000_0000 {
      BytesReadBack(data, rest);
    } else {
      var m := |data| % 0x1_0000_0000;
      assert m < |data| && |(data + rest)[..m]| == m;
    }
  }

  // ----- Big-endian integers, byte by byte ----------------------------------

  /** n shifted right by i bytes. */
  function ShiftedBy(n: nat, i: nat): nat {
    if i == 0 then n else ShiftedBy(n, i - 1) / 256
  }

  lemma {:induction false} ShiftFirst(n: nat, i: nat)
    ensures ShiftedBy(n / 256, i) == ShiftedBy(n, i + 1)
  {
    if i > 0 {
      ShiftFirst(n, i - 1);
    }
  }

  /** One more byte goes in front. */
  lemma {:induction false} BigEndianGrows(n: nat, k: nat)
    ensures BigEndian(n, k + 1) == [(ShiftedBy(n, k) % 256) as byte] + BigEndian(n, k)
  {
    if k > 0 {
      BigEndianGrows(n / 256, k - 1);
      ShiftFirst(n, k - 1);
    }
  }

  /** `IntToStrBE`: fills a buffer from its end. */
  method IntToStrBE(val: nat, size: nat) returns (out: Bytes)
    ensures out == BigEndian(val, size)
  {
    var buffer := new byte[size];
    var v := val;
    for i := 0 to size
      invariant buffer[size - i..] == BigEndian(val, i)
      invariant v == ShiftedBy(val, i)
    {
      buffer[size - 1 - i] := (v % 256) as byte;
      BigEndianGrows(val, i);
      assert buffer[size - 1 - i..] == [(v % 256) as byte] + buffer[size - i..];
      v := v / 256;
    }
    out := buffer[..];
    assert out == buffer[0..];
  }

  lemma OneByteMore(b: Bytes, i: nat, k: nat)
    requires i < |b|
    ensures FromBigEndian(b[..i]) * Span(k + 1) + b[i] as nat * Span(k) == FromBigEndian(b[..i + 1]) * Span(k)
  {
    assert b[..i + 1][..i] == b[..i];
    var high, s := FromBigEndian(b[..i]), Span(k);
    calc {
      high * (256 * s) + b[i] as nat * s;
      (256 * high) * s + b[i] as nat * s;
      (256 * high + b[i] as nat) * s;
    }
  }

  /** `StrToIntBE`: each byte shifted to its place; zero when the size is wrong. */
  method StrToIntBE(b: Bytes, size: nat) returns (n: nat)
    ensures n == if |b| == size then FromBigEndian(b) else 0
  {
    if |b| != size {
      return 0;
    }
    n := 0;
    for i := 0 to size
      invariant n == FromBigEndian(b[..i]) * Span(size - i)
    {
      OneByteMore(b, i, size - 1 - i);
      n := n + b[i] as nat * Span(size - 1 - i);
    }
    assert b[..size] == b;
  }
}
