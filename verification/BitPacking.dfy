/** Values packed into the bits of one word, highest first (`BitPacker`, `BitUnpacker`). */
module BitPacking {
  import opened Bytes
  import opened BinaryIO

  function Pow2(n: nat): (p: nat)
    ensures p >= 1
  {
    if n == 0 then 1 else 2 * Pow2(n - 1)
  }

  datatype Field = Field(value: nat, width: nat)

  /** `putBits`: the low bits of the value go right below the bits already used. */
  function Put(word: nat, size: nat, used: nat, f: Field): nat
    requires used + f.width <= size
  {
    if used == 0 && f.width == size then f.value
    else word + f.value % Pow2(f.width) * Pow2(size - (used + f.width))
  }

  /** `getBits`. */
  function Get(word: nat, size: nat, read: nat, width: nat): nat
    requires read + width <= size
  {
    if read == 0 && width == size then word
    else word / Pow2(size - (read + width)) % Pow2(width)
  }

  function Width(fields: seq<Field>): nat {
    if fields == [] then 0 else fields[0].width + Width(fields[1..])
  }

  /** The word after packing all fields, from a word in use. */
  function Packed(word: nat, size: nat, used: nat, fields: seq<Field>): nat
    requires used + Width(fields) <= size
    decreases |fields|
  {
    if fields == [] then word
    else Packed(Put(word, size, used, fields[0]), size, used + fields[0].width, fields[1..])
  }

  /** What unpacking with the fields' widths yields. */
  function Unpacked(word: nat, size: nat, read: nat, fields: seq<Field>): seq<nat>
    requires read + Width(fields) <= size
    decreases |fields|
  {
    if fields == [] then []
    else [Get(word, size, read, fields[0].width)] + Unpacked(word, size, read + fields[0].width, fields[1..])
  }

  /** The values cut to their widths. */
  function Cut(fields: seq<Field>): seq<nat> {
    if fields == [] then [] else [fields[0].value % Pow2(fields[0].width)] + Cut(fields[1..])
  }

  class BitPacker {
    const size: nat
    var intVal: nat
    var bitsUsed: nat

    constructor (bytes: nat)
      ensures size == 8 * bytes && intVal == 0 && bitsUsed == 0
    {
      size, intVal, bitsUsed := 8 * bytes, 0, 0;
    }

    method PutBits(val: nat, bitWidth: nat)
      requires bitsUsed + bitWidth <= size
      modifies this
      ensures intVal == Put(old(intVal), size, old(bitsUsed), Field(val, bitWidth))
      ensures bitsUsed == old(bitsUsed) + bitWidth
    {
      if bitsUsed == 0 && bitWidth == size {
        bitsUsed := size;
        intVal := val;
        return;
      }
      var shiftAmt := size - (bitsUsed + bitWidth);
      intVal := intVal + val % Pow2(bitWidth) * Pow2(shiftAmt);
      bitsUsed := bitsUsed + bitWidth;
    }

    method GetBinaryData() returns (b: Bytes)
      ensures b == BigEndian(intVal, size / 8)
    {
      b := IntToStrBE(intVal, size / 8);
    }
  }

  class BitUnpacker {
    const size: nat
    var intVal: nat
    var bitsRead: nat

    constructor (bytes: Bytes)
      ensures size == 8 * |bytes| && intVal == FromBigEndian(bytes) && bitsRead == 0
    {
      var n := StrToIntBE(bytes, |bytes|);
      size, intVal, bitsRead := 8 * |bytes|, n, 0;
    }

    method GetBits(bitWidth: nat) returns (val: nat)
      requires bitsRead + bitWidth <= size
      modifies this
      ensures val == Get(old(intVal), size, old(bitsRead), bitWidth)
      ensures intVal == old(intVal) && bitsRead == old(bitsRead) + bitWidth
    {
      if bitsRead == 0 && bitWidth == size {
        bitsRead := bitWidth;
        return intVal;
      }
      var shiftAmt := size - (bitsRead + bitWidth);
      bitsRead := bitsRead + bitWidth;
      val := intVal / Pow2(shiftAmt) % Pow2(bitWidth);
    }
  }

  // ----- Round trip ---------------------------------------------------------

  lemma {:induction false} PowSum(m: nat, n: nat)
    ensures Pow2(m + n) == Pow2(m) * Pow2(n)
  {
    if m > 0 {
      PowSum(m - 1, n);
    }
  }

  lemma MulAtLeast(k: int, d: nat)
    requires k >= 1
    ensures k * d >= d
  {
    assert k * d == (k - 1) * d + d;
  }

  lemma DivBy(a: nat, b: nat, d: nat)
    requires b < d
    ensures (a * d + b) / d == a
  {
    var n := a * d + b;
    var q, r := n / d, n % d;
    assert n == q * d + r;
    assert (a - q) * d == r - b && (q - a) * d == b - r;
    if a - q >= 1 {
      MulAtLeast(a - q, d);
      assert false;
    } else if q - a >= 1 {
      MulAtLeast(q - a, d);
      assert false;
    }
  }

  lemma ModBy(a: nat, b: nat, d: nat)
    requires b < d
    ensures (a * d + b) % d == b
  {
    DivBy(a, b, d);
    var n := a * d + b;
    assert n == n / d * d + n % d;
  }

  predicate Fits(fields: seq<Field>, size: nat) { forall i :: 0 <= i < |fields| ==> fields[i].value < Pow2(size) }

  /** What is packed below the bits in use: the word gets a multiple of the rest's room plus less than it. */
  lemma {:induction false} PackedBelow(word: nat, size: nat, used: nat, fields: seq<Field>)
    requires used + Width(fields) <= size && Fits(fields, size) && (used == 0 ==> word == 0)
    ensures word <= Packed(word, size, used, fields) < word + Pow2(size - used)
    decreases |fields|
  {
    if fields != [] {
      var f := fields[0];
      var room, left := size - used, size - (used + f.width);
      var next := Put(word, size, used, f);
      PowSum(f.width, left);
      PutBelow(word, size, used, f);
      if used + f.width == 0 {
        assert f.value % 1 == 0;
      }
      PackedBelow(next, size, used + f.width, fields[1..]);
    }
  }

  lemma PowZero()
    ensures Pow2(0) == 1
  {
  }

  lemma PutIsSum(word: nat, size: nat, used: nat, f: Field)
    requires used + f.width <= size && f.value < Pow2(size) && (used == 0 ==> word == 0)
    ensures Put(word, size, used, f) == word + f.value % Pow2(f.width) * Pow2(size - (used + f.width))
  {
    hide Pow2;
    if used == 0 && f.width == size {
      ModBy(0, f.value, Pow2(size));
      PowZero();
    }
  }

  lemma PutBelow(word: nat, size: nat, used: nat, f: Field)
    requires used + f.width <= size && f.value < Pow2(size) && (used == 0 ==> word == 0)
    ensures word <= Put(word, size, used, f)
    ensures Put(word, size, used, f) + Pow2(size - (used + f.width)) <= word + Pow2(size - used)
  {
    hide Put, Pow2;
    PutIsSum(word, size, used, f);
    PowSum(f.width, size - (used + f.width));
    RoomFor(f.value % Pow2(f.width), Pow2(f.width), Pow2(size - (used + f.width)));
  }

  lemma RoomFor(v: nat, w: nat, l: nat)
    requires v < w
    ensures v * l + l <= w * l && v * l >= 0
  {
    assert w * l == v * l + l + (w - v - 1) * l;
  }

  /** A field right above `low` reads out on its own. */
  lemma GetField(high: nat, v: nat, low: nat, size: nat, used: nat, width: nat)
    requires used + width <= size && (used == 0 ==> high == 0)
    requires v < Pow2(width) && low < Pow2(size - (used + width))
    ensures Get((high * Pow2(width) + v) * Pow2(size - (used + width)) + low, size, used, width) == v
  {
    var q, p := Pow2(width), Pow2(size - (used + width));
    DivBy(high * q + v, low, p);
    ModBy(high, v, q);
    if used == 0 && width == size {
      assert p == 1 && low == 0;
    }
  }

  /** Unpacking what was packed below full higher bits. */
  lemma {:induction false} UnpacksRest(high: nat, size: nat, used: nat, fields: seq<Field>)
    requires used + Width(fields) <= size && Fits(fields, size) && (used == 0 ==> high == 0)
    ensures Unpacked(Packed(high * Pow2(size - used), size, used, fields), size, used, fields) == Cut(fields)
    decreases |fields|
  {
    hide Pow2, Put, Get;
    if fields != [] {
      var f, tail := fields[0], fields[1..];
      PowZero();
      assert f.value < Pow2(size);
      var mid := used + f.width;
      var v, q, p := f.value % Pow2(f.width), Pow2(f.width), Pow2(size - mid);
      FirstField(high, size, used, f);
      if mid == 0 {
        assert q == 1;
      }
      var next := (high * q + v) * p;
      PackedBelow(next, size, mid, tail);
      GetField(high, v, Packed(next, size, mid, tail) - next, size, used, f.width);
      UnpacksRest(high * q + v, size, mid, tail);
    }
  }

  lemma FirstField(high: nat, size: nat, used: nat, f: Field)
    requires used + f.width <= size && f.value < Pow2(size) && (used == 0 ==> high == 0)
    ensures Put(high * Pow2(size - used), size, used, f) ==
            (high * Pow2(f.width) + f.value % Pow2(f.width)) * Pow2(size - (used + f.width))
  {
    hide Put, Pow2;
    var v, q, p := f.value % Pow2(f.width), Pow2(f.width), Pow2(size - (used + f.width));
    PutIsSum(high * Pow2(size - used), size, used, f);
    PowSum(f.width, size - (used + f.width));
    assert high * (q * p) == (high * q) * p;
  }

  lemma {:induction false} SpanIsPow2(k: nat)
    ensures Span(k) == Pow2(8 * k)
  {
    if k > 0 {
      SpanIsPow2(k - 1);
      PowSum(8, 8 * (k - 1));
      assert Pow2(8) == 256 by { PowSum(4, 4); }
    }
  }

  /**
   For any fields whose widths fit in the word: packed, written big-endian, read big-endian and
   unpacked, each value comes back cut to its width.
   */
  lemma PackedFieldsReadBack(bytes: nat, fields: seq<Field>)
    requires Width(fields) <= 8 * bytes && Fits(fields, 8 * bytes)
    ensures var size := 8 * bytes;
            var stored := BigEndian(Packed(0, size, 0, fields), bytes);
            Unpacked(FromBigEndian(stored), size, 0, fields) == Cut(fields)
  {
    var size := 8 * bytes;
    PackedBelow(0, size, 0, fields);
    SpanIsPow2(bytes);
    BigEndianReadsBack(Packed(0, size, 0, fields), bytes);
    UnpacksRest(0, size, 0, fields);
  }
}
