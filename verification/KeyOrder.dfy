/** The byte order of database keys (`BinaryData::operator<`), and a map's keys walked in it. */
module KeyOrder {
  import opened Bytes

  predicate Below(a: Bytes, b: Bytes) {
    b != [] && (a == [] || a[0] < b[0] || (a[0] == b[0] && Below(a[1..], b[1..])))
  }

  predicate StartsWith(key: Bytes, prefix: Bytes) { prefix <= key }

  /** `operator<`, as the loop that it is. */
  method Less(a: Bytes, b: Bytes) returns (r: bool)
    ensures r == Below(a, b)
  {
    var i := 0;
    while i < |a| && i < |b|
      invariant i <= |a| && i <= |b|
      invariant Below(a, b) == Below(a[i..], b[i..])
    {
      if a[i] != b[i] {
        return a[i] < b[i];
      }
      i := i + 1;
    }
    return |a| < |b|;
  }

  lemma {:induction false} BelowIrreflexive(a: Bytes)
    ensures !Below(a, a)
  {
    if a != [] {
      BelowIrreflexive(a[1..]);
    }
  }

  lemma {:induction false} BelowTransitive(a: Bytes, b: Bytes, c: Bytes)
    requires Below(a, b) && Below(b, c)
    ensures Below(a, c)
  {
    if a != [] && a[0] == b[0] && b[0] == c[0] {
      BelowTransitive(a[1..], b[1..], c[1..]);
    }
  }

  lemma {:induction false} BelowTotal(a: Bytes, b: Bytes)
    requires a != b
    ensures Below(a, b) || Below(b, a)
  {
    if a != [] && b != [] && a[0] == b[0] {
      assert a == [a[0]] + a[1..] && b == [b[0]] + b[1..];
      BelowTotal(a[1..], b[1..]);
    }
  }

  lemma {:induction false} BelowUnderPrefix(p: Bytes, a: Bytes, b: Bytes)
    ensures Below(p + a, p + b) == Below(a, b)
  {
    if p == [] {
      assert p + a == a && p + b == b;
    } else {
      BelowUnderPrefix(p[1..], a, b);
      assert (p + a)[1..] == p[1..] + a && (p + b)[1..] == p[1..] + b;
    }
  }

  /** Strings of one length are ordered by their front, and then by their last byte. */
  lemma {:induction false} BelowByLast(a: Bytes, x: byte, b: Bytes, y: byte)
    requires |a| == |b|
    ensures Below(a + [x], b + [y]) <==> Below(a, b) || (a == b && x < y)
  {
    if a == [] {
      assert a + [x] == [x] && b + [y] == [y];
    } else {
      BelowByLast(a[1..], x, b[1..], y);
      assert (a + [x])[1..] == a[1..] + [x] && (b + [y])[1..] == b[1..] + [y];
      assert a == [a[0]] + a[1..] && b == [b[0]] + b[1..];
    }
  }

  /** Big-endian integers of one width are in byte order exactly when they are in numeric order. */
  lemma {:induction false} BigEndianOrder(m: nat, n: nat, k: nat)
    requires m < Span(k) && n < Span(k)
    ensures Below(BigEndian(m, k), BigEndian(n, k)) <==> m < n
  {
    if k > 0 {
      var a, b := BigEndian(m / 256, k - 1), BigEndian(n / 256, k - 1);
      BigEndianOrder(m / 256, n / 256, k - 1);
      BelowByLast(a, (m % 256) as byte, b, (n % 256) as byte);
      BigEndianReadsBack(m / 256, k - 1);
      BigEndianReadsBack(n / 256, k - 1);
    }
  }

  /** A key with the prefix is not below it, and nothing without it comes between. */
  lemma {:induction false} PrefixRange(prefix: Bytes, key: Bytes, other: Bytes)
    requires StartsWith(key, prefix) && !Below(other, prefix) && Below(other, key)
    ensures StartsWith(other, prefix)
  {
    if prefix != [] {
      assert key[0] == prefix[0] && other != [];
      PrefixRange(prefix[1..], key[1..], other[1..]);
      assert prefix == [prefix[0]] + prefix[1..] && other == [other[0]] + other[1..];
    }
  }

  lemma {:induction false} PrefixNotAbove(prefix: Bytes, key: Bytes)
    requires StartsWith(key, prefix)
    ensures !Below(key, prefix)
  {
    if prefix != [] {
      PrefixNotAbove(prefix[1..], key[1..]);
    }
  }

  // ----- Keys in order ------------------------------------------------------

  ghost predicate IsLeast(x: Bytes, s: set<Bytes>) { x in s && forall y :: y in s && y != x ==> Below(x, y) }

  lemma {:induction false} LeastExists(s: set<Bytes>) returns (x: Bytes)
    requires s != {}
    ensures IsLeast(x, s)
  {
    var y :| y in s;
    if s == {y} {
      return y;
    }
    var t := s - {y};
    var z := LeastExists(t);
    BelowTotal(y, z);
    if Below(y, z) {
      forall w | w in s && w != y ensures Below(y, w) {
        if w != z {
          BelowTransitive(y, z, w);
        }
      }
      return y;
    }
    return z;
  }

  /** The keys as an ordered map's iterator meets them. */
  ghost function InOrder(s: set<Bytes>): (keys: seq<Bytes>)
    ensures forall k :: k in keys <==> k in s
    ensures |keys| == |s|
  {
    if s == {} then [] else
      (var x0 := LeastWitness(s);
       [x0] + InOrder(s - {x0}))
  }

  ghost function LeastWitness(s: set<Bytes>): (x: Bytes)
    requires s != {}
    ensures IsLeast(x, s)
  {
    LeastIsThere(s);
    var x :| IsLeast(x, s);
    x
  }

  lemma LeastIsThere(s: set<Bytes>)
    requires s != {}
    ensures exists x :: IsLeast(x, s)
  {
    var x := LeastExists(s);
  }

  predicate Distinct(keys: seq<Bytes>) {
    keys == [] || (keys[0] !in keys[1..] && Distinct(keys[1..]))
  }

  lemma {:induction false} InOrderDistinct(s: set<Bytes>)
    ensures Distinct(InOrder(s))
  {
    if s != {} {
      var x := LeastWitness(s);
      InOrderDistinct(s - {x});
      assert InOrder(s)[1..] == InOrder(s - {x});
    }
  }

  predicate Ascending(keys: seq<Bytes>) { forall i, j :: 0 <= i < j < |keys| ==> Below(keys[i], keys[j]) }

  lemma {:induction false} InOrderSorted(s: set<Bytes>)
    ensures Ascending(InOrder(s))
  {
    if s != {} {
      var x := LeastWitness(s);
      var keys, rest := InOrder(s), InOrder(s - {x});
      InOrderSorted(s - {x});
      forall i, j | 0 <= i < j < |keys| ensures Below(keys[i], keys[j]) {
        assert keys[j] == rest[j - 1] && rest[j - 1] in s - {x};
        if i > 0 {
          assert keys[i] == rest[i - 1];
        }
      }
    }
  }

  /** The keys of an ordered map, the least first. */
  method KeysInOrder(s: set<Bytes>) returns (keys: seq<Bytes>)
    ensures keys == InOrder(s)
  {
    keys := [];
    var todo := s;
    while todo != {}
      invariant keys + InOrder(todo) == InOrder(s)
      decreases |todo|
    {
      LeastIsThere(todo);
      var x :| x in todo && forall y :: y in todo && y != x ==> Below(x, y);
      LeastIsUnique(todo, x, LeastWitness(todo));
      assert keys + ([x] + InOrder(todo - {x})) == (keys + [x]) + InOrder(todo - {x});
      keys := keys + [x];
      todo := todo - {x};
    }
  }

  lemma LeastIsUnique(s: set<Bytes>, x: Bytes, y: Bytes)
    requires IsLeast(x, s) && IsLeast(y, s)
    ensures x == y
  {
    if x != y {
      BelowTransitive(x, y, x);
      BelowIrreflexive(x);
      assert false;
    }
  }
}
