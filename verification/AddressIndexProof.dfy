/** The incremental index is the one built from scratch, after every run. */
module AddressIndexProof {
  import opened Bytes
  import opened KeyOrder
  import opened AssetChain
  import opened AssetChainProof
  import opened AddressIndex

  // ----- Asset ids in order -------------------------------------------------

  /** The ids of assets from to end - 1, in numeric order. */
  function Ids(id: Bytes, from: nat, end: nat): (r: seq<Bytes>)
    requires from <= end
    ensures |r| == end - from
    ensures forall j :: 0 <= j < |r| ==> r[j] == AssetId(id, from + j)
    decreases end - from
  {
    if from == end then [] else [AssetId(id, from)] + Ids(id, from + 1, end)
  }

  lemma AssetIdOrder(id: Bytes, i: nat, j: nat)
    requires i < 0x1_0000_0000 && j < 0x1_0000_0000
    ensures Below(AssetId(id, i), AssetId(id, j)) <==> i < j
  {
    Spans();
    BelowUnderPrefix(id, BigEndian(i, 4), BigEndian(j, 4));
    BigEndianOrder(i, j, 4);
  }

  lemma AssetIdsDiffer(id: Bytes, i: nat, j: nat)
    requires i < 0x1_0000_0000 && j < 0x1_0000_0000 && i != j
    ensures AssetId(id, i) != AssetId(id, j)
  {
    hide AssetId;
    AssetIdOrder(id, i, j);
    AssetIdOrder(id, j, i);
    BelowIrreflexive(AssetId(id, i));
  }

  /** Two ascending lists of the same keys are the same list. */
  lemma {:induction false} AscendingIsUnique(a: seq<Bytes>, b: seq<Bytes>)
    requires Ascending(a) && Ascending(b) && forall k :: k in a <==> k in b
    ensures a == b
    decreases |a|
  {
    SameEmpty(a, b);
    if a != [] {
      LeadsAscending(a, b);
      LeadsAscending(b, a);
      SameTail(a, b);
      AscendingIsUnique(a[1..], b[1..]);
      assert a == [a[0]] + a[1..] && b == [b[0]] + b[1..];
    }
  }

  lemma SameEmpty(a: seq<Bytes>, b: seq<Bytes>)
    requires forall k :: k in a <==> k in b
    ensures a == [] <==> b == []
  {
    if |a| > 0 {
      assert a[0] in a;
    }
    if |b| > 0 {
      assert b[0] in b;
    }
  }

  /** The first of one list is not below the first of the other. */
  lemma LeadsAscending(a: seq<Bytes>, b: seq<Bytes>)
    requires Ascending(b) && a != [] && b != [] && forall k :: k in a ==> k in b
    ensures a[0] == b[0] || Below(b[0], a[0])
  {
    assert a[0] in a;
    var j :| 0 <= j < |b| && b[j] == a[0];
  }

  lemma SameTail(a: seq<Bytes>, b: seq<Bytes>)
    requires Ascending(a) && Ascending(b) && a != [] && b != [] && (forall k :: k in a <==> k in b)
    requires a[0] == b[0] || Below(b[0], a[0])
    requires b[0] == a[0] || Below(a[0], b[0])
    ensures a[0] == b[0] && forall k :: k in a[1..] <==> k in b[1..]
  {
    if a[0] != b[0] {
      BelowTransitive(a[0], b[0], a[0]);
      BelowIrreflexive(a[0]);
      assert false;
    }
    HeadOnce(a);
    HeadOnce(b);
  }

  lemma HeadOnce(a: seq<Bytes>)
    requires Ascending(a) && a != []
    ensures forall k :: k in a[1..] <==> k in a && k != a[0]
  {
    forall j | 0 < j < |a| ensures a[j] != a[0] {
      BelowIrreflexive(a[0]);
    }
    assert a == [a[0]] + a[1..];
  }

  ghost predicate KeysAre(hashes: map<Bytes, map<AddrType, Bytes>>, id: Bytes, m: nat) {
    forall k :: k in hashes <==> k in Ids(id, 0, m)
  }

  /** Lexicographic order on the ids is numeric order on the indices. */
  lemma InOrderIsNumeric(hashes: map<Bytes, map<AddrType, Bytes>>, id: Bytes, m: nat)
    requires KeysAre(hashes, id, m) && m <= 0x8000_0000
    ensures InOrder(hashes.Keys) == Ids(id, 0, m)
  {
    hide InOrder, Ids, AssetId;
    InOrderSorted(hashes.Keys);
    var ids := Ids(id, 0, m);
    forall i, j | 0 <= i < j < |ids| ensures Below(ids[i], ids[j]) {
      AssetIdOrder(id, i, j);
    }
    AscendingIsUnique(InOrder(hashes.Keys), ids);
  }

  lemma {:induction false} AfterKeyIs(id: Bytes, from: nat, end: nat, last: nat)
    requires from <= last < end <= 0x8000_0000
    ensures AfterKey(Ids(id, from, end), AssetId(id, last)) == Ids(id, last + 1, end)
    decreases last - from
  {
    hide AssetId;
    var ids := Ids(id, from, end);
    assert ids[1..] == Ids(id, from + 1, end);
    if from < last {
      AssetIdsDiffer(id, from, last);
      AfterKeyIs(id, from + 1, end, last);
    }
  }

  // ----- One asset account --------------------------------------------------

  /** Exactly the first m assets are hashed, each for all types. */
  ghost predicate Hashed(h: Hasher, types: set<AddrType>, sub: Sub, m: nat) {
    && m <= |sub.acc.assets| && sub.lastHashed == Unsigned(m - 1)
    && KeysAre(sub.hashes, sub.id, m)
    && (forall i :: 0 <= i < m ==> HashedAt(h, types, sub, i))
  }

  ghost predicate HashedAt(h: Hasher, types: set<AddrType>, sub: Sub, i: nat) {
    && i in sub.acc.assets && AssetId(sub.id, i) in sub.hashes
    && sub.hashes[AssetId(sub.id, i)] == TypeHashes(h, sub.acc.assets[i].entry.pub, types)
  }

  lemma HashOneMore(h: Hasher, types: set<AddrType>, sub: Sub, m: nat)
    requires Hashed(h, types, sub, m) && m in sub.acc.assets && m < |sub.acc.assets| <= 0x8000_0000
    ensures Hashed(h, types, HashOne(h, types, sub, m), m + 1)
  {
    hide TypeHashes, AssetId, KeysAre, Ids;
    var id, r := AssetId(sub.id, m), HashOne(h, types, sub, m);
    KeysGrow(sub.hashes, sub.id, m, r.hashes[id]);
    forall i | 0 <= i < m ensures HashedAt(h, types, r, i) {
      assert HashedAt(h, types, sub, i);
      AssetIdsDiffer(sub.id, i, m);
    }
    var hashes := TypeHashes(h, sub.acc.assets[m].entry.pub, types);
    assert hashes + map[] == hashes;
  }

  /** Hashing an asset adds a hash for each type that it has none for; a hash that is there stays, right or wrong. */
  lemma HashOneKeeps(h: Hasher, types: set<AddrType>, sub: Sub, i: u32, t: AddrType)
    requires i in sub.acc.assets
    ensures var id, r := AssetId(sub.id, i), HashOne(h, types, sub, i);
            var had := if id in sub.hashes then sub.hashes[id] else map[];
            && id in r.hashes && r.lastHashed == i && r.hashes[id].Keys == types + had.Keys
            && (t in had ==> r.hashes[id][t] == had[t])
            && (t in types && t !in had ==> r.hashes[id][t] == h(sub.acc.assets[i].entry.pub, t))
            && (forall other :: other != id ==> (other in r.hashes <==> other in sub.hashes))
            && (forall other :: other != id && other in sub.hashes ==> r.hashes[other] == sub.hashes[other])
  {
  }

  lemma KeysGrow(hashes: map<Bytes, map<AddrType, Bytes>>, id: Bytes, m: nat, v: map<AddrType, Bytes>)
    requires KeysAre(hashes, id, m) && m < 0x8000_0000
    ensures AssetId(id, m) !in hashes && KeysAre(hashes[AssetId(id, m) := v], id, m + 1)
  {
    hide AssetId;
    forall i | 0 <= i < m ensures AssetId(id, i) != AssetId(id, m) {
      AssetIdsDiffer(id, i, m);
    }
    assert AssetId(id, m) !in Ids(id, 0, m);
    var r := hashes[AssetId(id, m) := v];
    forall k ensures k in r <==> k in Ids(id, 0, m + 1) {
      IdsGrow(id, m, k);
    }
  }

  lemma IdsGrow(id: Bytes, m: nat, k: Bytes)
    ensures k in Ids(id, 0, m + 1) <==> k in Ids(id, 0, m) || k == AssetId(id, m)
  {
    hide AssetId;
    var a, b := Ids(id, 0, m), Ids(id, 0, m + 1);
    assert b[m] == AssetId(id, m);
    forall j | 0 <= j < m ensures a[j] == b[j] {
    }
    if k in b {
      var j :| 0 <= j < m + 1 && b[j] == k;
    }
    if k in a {
      var j :| 0 <= j < m && a[j] == k;
      assert b[j] == k;
    }
  }

  lemma {:induction false} HashesToEnd(h: Hasher, types: set<AddrType>, sub: Sub, m: nat, end: nat)
    requires Hashed(h, types, sub, m) && Contiguous(sub.acc.assets, |sub.acc.assets|) && |sub.acc.assets| <= 0x8000_0000
    requires |sub.acc.assets| <= end <= 0x1_0000_0000
    ensures Hashed(h, types, HashFrom(h, types, sub, m, end), |sub.acc.assets|)
    decreases end - m
  {
    hide Hashed, HashOne;
    if m < |sub.acc.assets| {
      HashOneMore(h, types, sub, m);
      HashOneSame(h, types, sub, m);
      HashesToEnd(h, types, HashOne(h, types, sub, m), m + 1, end);
    } else {
      HashedBound(h, types, sub, m);
      NothingToHash(h, types, sub, m, end);
    }
  }

  lemma HashedBound(h: Hasher, types: set<AddrType>, sub: Sub, m: nat)
    requires Hashed(h, types, sub, m)
    ensures m <= |sub.acc.assets|
  {
  }

  lemma HashOneSame(h: Hasher, types: set<AddrType>, sub: Sub, i: u32)
    requires i in sub.acc.assets
    ensures var r := HashOne(h, types, sub, i); r.acc == sub.acc && r.id == sub.id
  {
  }

  lemma {:induction false} NothingToHash(h: Hasher, types: set<AddrType>, sub: Sub, i: nat, end: nat)
    requires (forall j :: i <= j < end ==> j !in sub.acc.assets) && end <= 0x1_0000_0000
    ensures HashFrom(h, types, sub, i, end) == sub
    decreases end - i
  {
    if i < end {
      NothingToHash(h, types, sub, i + 1, end);
    }
  }

  /** Whatever was hashed before, now everything is. */
  lemma UpdateHashesAll(h: Hasher, types: set<AddrType>, sub: Sub, m: nat)
    requires Hashed(h, types, sub, m) && Contiguous(sub.acc.assets, |sub.acc.assets|) && |sub.acc.assets| <= 0x8000_0000
    ensures Hashed(h, types, UpdateHashes(h, types, sub), |sub.acc.assets|)
  {
    hide HashFrom, KeysAre, TypeHashes;
    assert (if sub.lastHashed in sub.acc.assets then sub.lastHashed + 1 else 0) == m;
    HashesToEnd(h, types, sub, m, 0x1_0000_0000);
  }

  // ----- Adding to the index ------------------------------------------------

  /** The entry is that of an asset and type with this hash. */
  ghost predicate Truthful(h: Hasher, x: AddressAccount, hash: Bytes, entry: (Bytes, AddrType)) {
    exists acc, i ::
      && acc in x.subs && i in x.subs[acc].acc.assets && entry.0 == AssetId(x.subs[acc].id, i)
      && entry.1 in x.types && h(x.subs[acc].acc.assets[i].entry.pub, entry.1) == hash
  }

  /** Of the assets and types of this account with this hash, the one with the lowest index, then the lowest type. */
  ghost predicate EarliestAt(h: Hasher, types: set<AddrType>, sub: Sub, hash: Bytes, i: nat, t: AddrType) {
    && i in sub.acc.assets && t in types && h(sub.acc.assets[i].entry.pub, t) == hash
    && (forall u :: u in types && h(sub.acc.assets[i].entry.pub, u) == hash ==> t <= u)
    && (forall j, u :: j in sub.acc.assets && u in types && h(sub.acc.assets[j].entry.pub, u) == hash ==> i <= j)
  }

  /** The entry is the earliest with this hash of some account. */
  ghost predicate Earliest(h: Hasher, x: AddressAccount, hash: Bytes, entry: (Bytes, AddrType)) {
    exists acc, i ::
      acc in x.subs && entry.0 == AssetId(x.subs[acc].id, i) && EarliestAt(h, x.types, x.subs[acc], hash, i, entry.1)
  }

  lemma EarliestIsTrue(h: Hasher, x: AddressAccount, hash: Bytes, entry: (Bytes, AddrType))
    requires Earliest(h, x, hash, entry)
    ensures Truthful(h, x, hash, entry)
  {
    hide AssetId;
  }

  predicate Rising(types: seq<AddrType>) { forall i, j :: 0 <= i < j < |types| ==> types[i] < types[j] }

  lemma {:induction false} TypesRise(s: set<AddrType>)
    ensures Rising(AscendingTypes(s))
  {
    if s != {} {
      TypesRise(s - {Highest(s)});
      var front := AscendingTypes(s - {Highest(s)});
      forall i | 0 <= i < |front| ensures front[i] < Highest(s) {
        assert front[i] in front;
      }
    }
  }

  lemma {:induction false} AddedTypes(index: map<Bytes, (Bytes, AddrType)>, id: Bytes, m: map<AddrType, Bytes>,
                                      types: seq<AddrType>, hash: Bytes)
    requires (forall t :: t in types ==> t in m) && Rising(types)
    ensures var r := AddTypes(index, id, m, types);
            && (hash in index ==> hash in r && r[hash] == index[hash])
            && (hash in r && hash !in index ==> r[hash].0 == id && r[hash].1 in types && m[r[hash].1] == hash)
            && (hash in r && hash !in index ==> forall t :: t in types && m[t] == hash ==> r[hash].1 <= t)
            && (forall t :: t in types ==> m[t] in r)
    decreases |types|
  {
    if types != [] {
      assert types == [types[0]] + types[1..] && Rising(types[1..]);
      var first := m[types[0]];
      var next := if first in index then index else index[first := (id, types[0])];
      AddedTypes(next, id, m, types[1..], hash);
      AddedTypes(next, id, m, types[1..], first);
    }
  }

  /** The entry is the first of the ids with this hash, and the first type of that id. */
  ghost predicate FirstOf(hashes: map<Bytes, map<AddrType, Bytes>>, ids: seq<Bytes>, hash: Bytes,
                          entry: (Bytes, AddrType), k: nat)
    requires forall id :: id in ids ==> id in hashes
  {
    && k < |ids| && entry.0 == ids[k] && entry.1 in hashes[ids[k]] && hashes[ids[k]][entry.1] == hash
    && (forall t :: t in hashes[ids[k]] && hashes[ids[k]][t] == hash ==> entry.1 <= t)
    && (forall j, t :: 0 <= j < k && t in hashes[ids[j]] ==> hashes[ids[j]][t] != hash)
  }

  /** One id added: what was there stays, and an entry that is new is the first of this id. */
  lemma AddedId(index: map<Bytes, (Bytes, AddrType)>, id: Bytes, m: map<AddrType, Bytes>, hash: Bytes)
    ensures var r := AddTypes(index, id, m, AscendingTypes(m.Keys));
            && (hash in index ==> hash in r && r[hash] == index[hash])
            && (hash in r && hash !in index ==> r[hash].0 == id && r[hash].1 in m && m[r[hash].1] == hash)
            && (hash in r && hash !in index ==> forall t :: t in m && m[t] == hash ==> r[hash].1 <= t)
            && (forall t :: t in m ==> m[t] in r)
  {
    hide AddTypes, AscendingTypes;
    TypesRise(m.Keys);
    AddedTypes(index, id, m, AscendingTypes(m.Keys), hash);
  }

  /** Adding a list of ids keeps what is there, and adds only their hashes, each for the first id that has it. */
  lemma {:induction false} AddedIds(index: map<Bytes, (Bytes, AddrType)>, hashes: map<Bytes, map<AddrType, Bytes>>,
                                    ids: seq<Bytes>, hash: Bytes)
    requires forall id :: id in ids ==> id in hashes
    ensures var r := AddIds(index, hashes, ids);
            && (hash in index ==> hash in r && r[hash] == index[hash])
            && (hash in r && hash !in index ==> exists k: nat :: FirstOf(hashes, ids, hash, r[hash], k))
    decreases |ids|
  {
    hide AddTypes, AscendingTypes;
    if ids != [] {
      var id, rest := ids[0], ids[1..];
      var next := AddTypes(index, id, hashes[id], AscendingTypes(hashes[id].Keys));
      var r := AddIds(index, hashes, ids);
      AddedId(index, id, hashes[id], hash);
      AddedIds(next, hashes, rest, hash);
      if hash in r && hash !in index {
        if hash in next {
          assert FirstOf(hashes, ids, hash, r[hash], 0);
        } else {
          var k: nat :| FirstOf(hashes, rest, hash, r[hash], k);
          FirstAfter(hashes, ids, hash, r[hash], k);
        }
      }
    }
  }

  lemma FirstAfter(hashes: map<Bytes, map<AddrType, Bytes>>, ids: seq<Bytes>, hash: Bytes,
                   entry: (Bytes, AddrType), k: nat)
    requires (forall id :: id in ids ==> id in hashes) && ids != []
    requires FirstOf(hashes, ids[1..], hash, entry, k)
    requires forall t :: t in hashes[ids[0]] ==> hashes[ids[0]][t] != hash
    ensures FirstOf(hashes, ids, hash, entry, k + 1)
  {
    forall j, t | 0 <= j < k + 1 && t in hashes[ids[j]] ensures hashes[ids[j]][t] != hash {
      if j > 0 {
        assert ids[1..][j - 1] == ids[j];
      }
    }
  }

  lemma {:induction false} AddsAll(index: map<Bytes, (Bytes, AddrType)>, hashes: map<Bytes, map<AddrType, Bytes>>,
                                   ids: seq<Bytes>, id: Bytes, t: AddrType)
    requires (forall k :: k in ids ==> k in hashes) && id in ids && t in hashes[id]
    ensures hashes[id][t] in AddIds(index, hashes, ids)
    decreases |ids|
  {
    hide AddTypes, AscendingTypes;
    var next := AddTypes(index, ids[0], hashes[ids[0]], AscendingTypes(hashes[ids[0]].Keys));
    if ids[0] == id {
      AddedId(index, id, hashes[id], hashes[id][t]);
      AddedIds(next, hashes, ids[1..], hashes[id][t]);
    } else {
      AddsAll(next, hashes, ids[1..], id, t);
    }
  }

  // ----- Invariant ----------------------------------------------------------

  /** How many assets of each account are in the index. */
  ghost predicate IndexedTo(h: Hasher, x: AddressAccount, acc: Bytes, m: nat)
    requires acc in x.subs
  {
    var sub := x.subs[acc];
    && (m == 0 <==> acc !in x.top) && (m > 0 ==> acc in x.top && x.top[acc] == AssetId(sub.id, m - 1))
    && forall i, t :: 0 <= i < m && t in x.types ==> i in sub.acc.assets && h(sub.acc.assets[i].entry.pub, t) in x.index
  }

  ghost predicate Known(h: Hasher, x: AddressAccount, acc: Bytes)
    requires acc in x.subs
  {
    exists m: nat, n: nat :: m <= n && IndexedTo(h, x, acc, m) && Hashed(h, x.types, x.subs[acc], n)
  }

  ghost predicate IndexInv(h: Hasher, x: AddressAccount) {
    && (forall acc :: acc in x.subs ==> Chain(x.subs[acc].scheme, x.subs[acc].acc) && Known(h, x, acc))
    && (forall hash :: hash in x.index ==> Earliest(h, x, hash, x.index[hash]))
  }

  /** Every asset and type of this account is in the index. */
  ghost predicate Complete(h: Hasher, x: AddressAccount, acc: Bytes)
    requires acc in x.subs
  {
    forall i, t :: i in x.subs[acc].acc.assets && t in x.types ==> h(x.subs[acc].acc.assets[i].entry.pub, t) in x.index
  }

  // ----- Updating one account -----------------------------------------------

  lemma HashedIds(h: Hasher, types: set<AddrType>, sub: Sub, m: nat, n: nat)
    requires Hashed(h, types, sub, n) && m <= n
    ensures forall id :: id in Ids(sub.id, m, n) ==> id in sub.hashes
    ensures sub.hashes == map[] <==> n == 0
  {
    hide AssetId, TypeHashes;
    if n > 0 {
      assert HashedAt(h, types, sub, 0);
    }
    forall id | id in Ids(sub.id, m, n) ensures id in sub.hashes {
      var j :| 0 <= j < n - m && Ids(sub.id, m, n)[j] == id;
      assert HashedAt(h, types, sub, m + j);
    }
  }

  /** What is added is what was not yet in the index, in order. */
  lemma UpdateOneNews(h: Hasher, x: AddressAccount, acc: Bytes, m: nat, k: nat)
    requires acc in x.subs && Chain(x.subs[acc].scheme, x.subs[acc].acc)
    requires m <= k && IndexedTo(h, x, acc, m) && Hashed(h, x.types, x.subs[acc], k)
    ensures var sub := UpdateHashes(h, x.types, x.subs[acc]);
            var n := |sub.acc.assets|;
            && m <= n <= 0x8000_0000 && Hashed(h, x.types, sub, n)
            && (forall id :: id in Ids(sub.id, m, n) ==> id in sub.hashes)
            && UpdateOne(h, x, acc) ==
               (if m == n then x.(subs := x.subs[acc := sub])
                else x.(subs := x.subs[acc := sub], index := AddIds(x.index, sub.hashes, Ids(sub.id, m, n)),
                        top := x.top[acc := AssetId(sub.id, n - 1)]))
  {
    hide UpdateHashes, Linked, KeyedFirst, InOrder, Ids, AddIds, AssetId, AfterKey, HashedAt;
    UpdateHashesAll(h, x.types, x.subs[acc], k);
    var sub := UpdateHashes(h, x.types, x.subs[acc]);
    var n := |sub.acc.assets|;
    HashedIds(h, x.types, sub, m, n);
    InOrderIsNumeric(sub.hashes, sub.id, n);
    if m > 0 {
      AfterKeyIs(sub.id, 0, n, m - 1);
    }
  }

  /** The two have the same accounts with the same chains. */
  ghost predicate SameChains(x: AddressAccount, y: AddressAccount) {
    && y.subs.Keys == x.subs.Keys && y.types == x.types
    && forall acc :: acc in x.subs ==> SameChain(x.subs[acc], y.subs[acc])
  }

  ghost predicate SameChain(x: Sub, y: Sub) { y.acc == x.acc && y.id == x.id && y.scheme == x.scheme }

  /** Nothing that is in the index is changed. */
  predicate Extends(x: AddressAccount, y: AddressAccount) {
    forall hash :: hash in x.index ==> hash in y.index && y.index[hash] == x.index[hash]
  }

  lemma UpdateOneExtends(h: Hasher, x: AddressAccount, acc: Bytes)
    requires IndexInv(h, x) && acc in x.subs
    ensures var y := UpdateOne(h, x, acc);
            && SameChains(x, y) && Extends(x, y)
            && (forall b :: b in x.subs && b != acc ==>
                  && y.subs[b] == x.subs[b] && (b in y.top <==> b in x.top)
                  && (b in x.top ==> y.top[b] == x.top[b]))
  {
    hide UpdateHashes, Ids, AddIds, AssetId, Chain, UpdateOne, IndexedTo, Hashed, Earliest;
    var m: nat, k: nat :| m <= k && IndexedTo(h, x, acc, m) && Hashed(h, x.types, x.subs[acc], k);
    UpdateOneNews(h, x, acc, m, k);
    var sub, y := UpdateHashes(h, x.types, x.subs[acc]), UpdateOne(h, x, acc);
    forall hash | hash in x.index ensures hash in y.index && y.index[hash] == x.index[hash] {
      AddedIds(x.index, sub.hashes, Ids(sub.id, m, |sub.acc.assets|), hash);
    }
  }

  lemma UpdateOneCompletes(h: Hasher, x: AddressAccount, acc: Bytes)
    requires IndexInv(h, x) && acc in x.subs
    ensures var y := UpdateOne(h, x, acc);
            acc in y.subs && Complete(h, y, acc) && Known(h, y, acc)
  {
    hide UpdateHashes, Ids, AddIds, AssetId, UpdateOne, Hashed, Chain, Earliest;
    var m: nat, k: nat :| m <= k && IndexedTo(h, x, acc, m) && Hashed(h, x.types, x.subs[acc], k);
    UpdateOneNews(h, x, acc, m, k);
    var sub, y := UpdateHashes(h, x.types, x.subs[acc]), UpdateOne(h, x, acc);
    var n := |sub.acc.assets|;
    if m < n {
      AllIndexed(h, x, sub, m);
    }
    assert IndexedTo(h, y, acc, n) && Hashed(h, y.types, y.subs[acc], n);
    IndexedIsComplete(h, y, acc);
  }

  lemma AllIndexed(h: Hasher, x: AddressAccount, sub: Sub, m: nat)
    requires var n := |sub.acc.assets|; m < n <= 0x8000_0000 && Hashed(h, x.types, sub, n)
    requires forall id :: id in Ids(sub.id, m, |sub.acc.assets|) ==> id in sub.hashes
    requires forall i, t :: 0 <= i < m && t in x.types ==>
               i in sub.acc.assets && h(sub.acc.assets[i].entry.pub, t) in x.index
    ensures var index := AddIds(x.index, sub.hashes, Ids(sub.id, m, |sub.acc.assets|));
            forall i, t :: 0 <= i < |sub.acc.assets| && t in x.types ==>
              i in sub.acc.assets && h(sub.acc.assets[i].entry.pub, t) in index
  {
    hide AddIds, Ids, Hashed;
    var index := AddIds(x.index, sub.hashes, Ids(sub.id, m, |sub.acc.assets|));
    forall i, t | 0 <= i < |sub.acc.assets| && t in x.types
      ensures i in sub.acc.assets && h(sub.acc.assets[i].entry.pub, t) in index
    {
      IndexHas(h, x, sub, m, i, t);
    }
  }

  lemma IndexedIsComplete(h: Hasher, x: AddressAccount, acc: Bytes)
    requires acc in x.subs && Chain(x.subs[acc].scheme, x.subs[acc].acc)
    requires IndexedTo(h, x, acc, |x.subs[acc].acc.assets|)
    ensures Complete(h, x, acc)
  {
    hide Linked, KeyedFirst, Filed, AssetId;
  }

  lemma IndexHas(h: Hasher, x: AddressAccount, sub: Sub, m: nat, i: nat, t: AddrType)
    requires var n := |sub.acc.assets|; i < n && m < n <= 0x8000_0000 && Hashed(h, x.types, sub, n) && t in x.types
    requires forall id :: id in Ids(sub.id, m, |sub.acc.assets|) ==> id in sub.hashes
    requires i < m ==> i in sub.acc.assets && h(sub.acc.assets[i].entry.pub, t) in x.index
    ensures i in sub.acc.assets
    ensures h(sub.acc.assets[i].entry.pub, t) in AddIds(x.index, sub.hashes, Ids(sub.id, m, |sub.acc.assets|))
  {
    hide AddIds, AssetId;
    var n := |sub.acc.assets|;
    assert HashedAt(h, x.types, sub, i);
    if i < m {
      AddedIds(x.index, sub.hashes, Ids(sub.id, m, n), h(sub.acc.assets[i].entry.pub, t));
    } else {
      assert Ids(sub.id, m, n)[i - m] == AssetId(sub.id, i);
      AddsAll(x.index, sub.hashes, Ids(sub.id, m, n), AssetId(sub.id, i), t);
    }
  }

  lemma UpdateOneEarliest(h: Hasher, x: AddressAccount, acc: Bytes)
    requires IndexInv(h, x) && acc in x.subs
    ensures var y := UpdateOne(h, x, acc);
            forall hash :: hash in y.index ==> Earliest(h, y, hash, y.index[hash])
  {
    hide UpdateHashes, Ids, AddIds, AssetId, UpdateOne, Hashed, Chain, TypeHashes, Earliest;
    var m: nat, k: nat :| m <= k && IndexedTo(h, x, acc, m) && Hashed(h, x.types, x.subs[acc], k);
    UpdateOneNews(h, x, acc, m, k);
    UpdateOneExtends(h, x, acc);
    var sub, y := UpdateHashes(h, x.types, x.subs[acc]), UpdateOne(h, x, acc);
    forall hash | hash in y.index ensures Earliest(h, y, hash, y.index[hash]) {
      if hash in x.index {
        EarliestAcross(h, x, y, hash, x.index[hash]);
      } else {
        ChainContiguous(sub);
        AddedIsEarliest(h, x, sub, m, hash);
        EarliestHere(h, y, acc, hash);
      }
    }
  }

  lemma ChainContiguous(sub: Sub)
    requires Chain(sub.scheme, sub.acc)
    ensures Contiguous(sub.acc.assets, |sub.acc.assets|)
  {
  }

  lemma EarliestAcross(h: Hasher, x: AddressAccount, y: AddressAccount, hash: Bytes, e: (Bytes, AddrType))
    requires SameChains(x, y) && Earliest(h, x, hash, e)
    ensures Earliest(h, y, hash, e)
  {
    hide AssetId;
    var acc, i :| acc in x.subs && e.0 == AssetId(x.subs[acc].id, i)
                  && EarliestAt(h, x.types, x.subs[acc], hash, i, e.1);
    assert SameChain(x.subs[acc], y.subs[acc]);
    assert EarliestAt(h, y.types, y.subs[acc], hash, i, e.1);
  }

  /** The entry is the earliest with this hash of this account. */
  ghost predicate EarliestOf(h: Hasher, types: set<AddrType>, sub: Sub, hash: Bytes, entry: (Bytes, AddrType)) {
    exists i :: entry.0 == AssetId(sub.id, i) && EarliestAt(h, types, sub, hash, i, entry.1)
  }

  /** What is added under a hash that was not in the index is the earliest of the account with this hash. */
  lemma AddedIsEarliest(h: Hasher, x: AddressAccount, sub: Sub, m: nat, hash: Bytes)
    requires var n := |sub.acc.assets|; m <= n <= 0x8000_0000 && Hashed(h, x.types, sub, n)
    requires Contiguous(sub.acc.assets, |sub.acc.assets|)
    requires forall id :: id in Ids(sub.id, m, |sub.acc.assets|) ==> id in sub.hashes
    requires forall i, t :: 0 <= i < m && t in x.types ==>
               i in sub.acc.assets && h(sub.acc.assets[i].entry.pub, t) in x.index
    ensures var r := AddIds(x.index, sub.hashes, Ids(sub.id, m, |sub.acc.assets|));
            hash in r && hash !in x.index ==> EarliestOf(h, x.types, sub, hash, r[hash])
  {
    hide AddIds, AssetId, FirstOf, Hashed;
    var ids := Ids(sub.id, m, |sub.acc.assets|);
    var r := AddIds(x.index, sub.hashes, ids);
    AddedIds(x.index, sub.hashes, ids, hash);
    if hash in r && hash !in x.index {
      var k: nat :| FirstOf(sub.hashes, ids, hash, r[hash], k);
      FirstIsEarliest(h, x, sub, m, hash, r[hash], k);
    }
  }

  lemma FirstIsEarliest(h: Hasher, x: AddressAccount, sub: Sub, m: nat, hash: Bytes, entry: (Bytes, AddrType), k: nat)
    requires var n := |sub.acc.assets|; m <= n <= 0x8000_0000 && Hashed(h, x.types, sub, n)
    requires Contiguous(sub.acc.assets, |sub.acc.assets|) && hash !in x.index
    requires forall id :: id in Ids(sub.id, m, |sub.acc.assets|) ==> id in sub.hashes
    requires forall i, t :: 0 <= i < m && t in x.types ==>
               i in sub.acc.assets && h(sub.acc.assets[i].entry.pub, t) in x.index
    requires FirstOf(sub.hashes, Ids(sub.id, m, |sub.acc.assets|), hash, entry, k)
    ensures EarliestOf(h, x.types, sub, hash, entry)
  {
    hide AssetId;
    var ids, i := Ids(sub.id, m, |sub.acc.assets|), m + k;
    assert HashedAt(h, x.types, sub, i) && ids[k] == AssetId(sub.id, i);
    forall u | u in x.types && h(sub.acc.assets[i].entry.pub, u) == hash ensures entry.1 <= u {
      assert sub.hashes[ids[k]][u] == hash;
    }
    forall j, u | j in sub.acc.assets && u in x.types && h(sub.acc.assets[j].entry.pub, u) == hash ensures i <= j {
      assert HashedAt(h, x.types, sub, j);
      if m <= j {
        assert ids[j - m] == AssetId(sub.id, j);
        assert sub.hashes[ids[j - m]][u] == hash;
      }
    }
    assert EarliestAt(h, x.types, sub, hash, i, entry.1);
  }

  lemma EarliestHere(h: Hasher, y: AddressAccount, acc: Bytes, hash: Bytes)
    requires acc in y.subs && hash in y.index && EarliestOf(h, y.types, y.subs[acc], hash, y.index[hash])
    ensures Earliest(h, y, hash, y.index[hash])
  {
    hide AssetId, EarliestAt;
  }

  // ----- Runs ---------------------------------------------------------------

  lemma KnownMoves(h: Hasher, x: AddressAccount, y: AddressAccount, acc: Bytes)
    requires acc in x.subs && acc in y.subs && Known(h, x, acc) && Extends(x, y) && y.types == x.types
    requires y.subs[acc] == x.subs[acc]
    requires (acc in y.top <==> acc in x.top) && (acc in x.top ==> y.top[acc] == x.top[acc])
    ensures Known(h, y, acc)
  {
    hide AssetId, Hashed;
    var m: nat, k: nat :| m <= k && IndexedTo(h, x, acc, m) && Hashed(h, x.types, x.subs[acc], k);
    assert IndexedTo(h, y, acc, m) && Hashed(h, y.types, y.subs[acc], k);
  }

  lemma UpdateOneKeeps(h: Hasher, x: AddressAccount, acc: Bytes)
    requires IndexInv(h, x) && acc in x.subs
    ensures IndexInv(h, UpdateOne(h, x, acc))
  {
    hide UpdateOne, Known, Earliest, Chain;
    var y := UpdateOne(h, x, acc);
    UpdateOneExtends(h, x, acc);
    UpdateOneEarliest(h, x, acc);
    UpdateOneCompletes(h, x, acc);
    forall b | b in y.subs ensures Chain(y.subs[b].scheme, y.subs[b].acc) && Known(h, y, b) {
      if b != acc {
        KnownMoves(h, x, y, b);
      }
    }
  }

  lemma CompleteMoves(h: Hasher, x: AddressAccount, y: AddressAccount, acc: Bytes)
    requires acc in x.subs && Complete(h, x, acc) && SameChains(x, y) && Extends(x, y)
    ensures Complete(h, y, acc)
  {
  }

  lemma {:induction false} UpdateEachKeeps(h: Hasher, x: AddressAccount, accs: seq<Bytes>)
    requires IndexInv(h, x) && forall a :: a in accs ==> a in x.subs
    ensures var y := UpdateEach(h, x, accs);
            && IndexInv(h, y) && SameChains(x, y) && Extends(x, y)
            && (forall a :: a in accs ==> Complete(h, y, a))
    decreases |accs|
  {
    hide UpdateOne, IndexInv, Complete, SameChain;
    if accs == [] {
      ItselfExtends(x);
    } else {
      var a := accs[0];
      var x1 := UpdateOne(h, x, a);
      UpdateOneExtends(h, x, a);
      UpdateOneKeeps(h, x, a);
      UpdateOneCompletes(h, x, a);
      UpdateEachKeeps(h, x1, accs[1..]);
      var y := UpdateEach(h, x, accs);
      CompleteMoves(h, x1, y, a);
      ChainsTransitive(x, x1, y);
    }
  }

  lemma ItselfExtends(x: AddressAccount)
    ensures SameChains(x, x) && Extends(x, x)
  {
  }

  lemma ChainsTransitive(x: AddressAccount, y: AddressAccount, z: AddressAccount)
    requires SameChains(x, y) && SameChains(y, z)
    ensures SameChains(x, z)
  {
  }

  /** A lookup first completes the index. */
  lemma UpdateKeeps(h: Hasher, x: AddressAccount)
    requires IndexInv(h, x)
    ensures var y := Update(h, x);
            IndexInv(h, y) && SameChains(x, y) && Extends(x, y) && forall a :: a in y.subs ==> Complete(h, y, a)
  {
    hide IndexInv, Complete, InOrder, UpdateEach, SameChain;
    UpdateEachKeeps(h, x, InOrder(x.subs.Keys));
  }

  /** A chain operation on one account leaves what is hashed and indexed as it was. */
  lemma ChainStepKeeps(h: Hasher, x: AddressAccount, acc: Bytes, act: Action)
    requires IndexInv(h, x) && acc in x.subs
    ensures IndexInv(h, IndexNext(h, x, OnChain(acc, act)))
  {
    hide Chain, Next, AssetId, TypeHashes, Earliest, Known;
    var y, sub := IndexNext(h, x, OnChain(acc, act)), x.subs[acc];
    NextKeeps(sub.scheme, sub.acc, act);
    GrowsCounts(sub.scheme, sub.acc, y.subs[acc].acc);
    forall hash | hash in y.index ensures Earliest(h, y, hash, y.index[hash]) {
      EarliestGrows(h, x, y, acc, hash);
    }
    forall b | b in y.subs ensures Known(h, y, b) {
      if b == acc {
        KnownGrows(h, x, y, acc);
      } else {
        KnownMoves(h, x, y, b);
      }
    }
  }

  /** Assets that a chain gains come after all others, so an earliest entry stays one. */
  lemma EarliestGrows(h: Hasher, x: AddressAccount, y: AddressAccount, acc: Bytes, hash: Bytes)
    requires acc in x.subs && acc in y.subs && Grows(x.subs[acc].acc, y.subs[acc].acc)
    requires y.subs[acc].id == x.subs[acc].id && Chain(x.subs[acc].scheme, x.subs[acc].acc)
    requires y.subs == x.subs[acc := y.subs[acc]] && y.types == x.types && y.index == x.index
    requires hash in x.index && Earliest(h, x, hash, x.index[hash])
    ensures Earliest(h, y, hash, y.index[hash])
  {
    hide AssetId, Linked, KeyedFirst, Filed, Founded;
    var entry := x.index[hash];
    var b, i :| b in x.subs && entry.0 == AssetId(x.subs[b].id, i)
                && EarliestAt(h, x.types, x.subs[b], hash, i, entry.1);
    var was, now := x.subs[b].acc.assets, y.subs[b].acc.assets;
    forall j, u | j in now && u in y.types && h(now[j].entry.pub, u) == hash ensures i <= j {
      if j in was {
        assert h(was[j].entry.pub, u) == hash;
      }
    }
    assert EarliestAt(h, y.types, y.subs[b], hash, i, entry.1);
  }

  lemma KnownGrows(h: Hasher, x: AddressAccount, y: AddressAccount, acc: Bytes)
    requires acc in x.subs && acc in y.subs && Grows(x.subs[acc].acc, y.subs[acc].acc) && Known(h, x, acc)
    requires y.subs[acc] == x.subs[acc].(acc := y.subs[acc].acc) && |x.subs[acc].acc.assets| <= |y.subs[acc].acc.assets|
    requires y.types == x.types && y.index == x.index && y.top == x.top
    ensures Known(h, y, acc)
  {
    hide AssetId, KeysAre, TypeHashes;
    var m: nat, k: nat :| m <= k && IndexedTo(h, x, acc, m) && Hashed(h, x.types, x.subs[acc], k);
    forall i | 0 <= i < k ensures HashedAt(h, y.types, y.subs[acc], i) {
      assert HashedAt(h, x.types, x.subs[acc], i);
    }
    assert IndexedTo(h, y, acc, m) && Hashed(h, y.types, y.subs[acc], k);
  }

  lemma HashStepKeeps(h: Hasher, x: AddressAccount, acc: Bytes)
    requires IndexInv(h, x) && acc in x.subs
    ensures IndexInv(h, IndexNext(h, x, HashAccount(acc)))
  {
    hide Chain, Earliest, Known, UpdateHashes;
    var y := IndexNext(h, x, HashAccount(acc));
    forall hash | hash in y.index ensures Earliest(h, y, hash, y.index[hash]) {
      EarliestAcross(h, x, y, hash, x.index[hash]);
    }
    forall b | b in y.subs ensures Known(h, y, b) {
      if b == acc {
        KnownHashes(h, x, y, acc);
      } else {
        KnownMoves(h, x, y, b);
      }
    }
  }

  lemma KnownHashes(h: Hasher, x: AddressAccount, y: AddressAccount, acc: Bytes)
    requires acc in x.subs && acc in y.subs && Known(h, x, acc) && Chain(x.subs[acc].scheme, x.subs[acc].acc)
    requires y.subs[acc] == UpdateHashes(h, x.types, x.subs[acc])
    requires y.types == x.types && y.index == x.index && y.top == x.top
    ensures Known(h, y, acc)
  {
    hide AssetId, UpdateHashes, Linked, KeyedFirst, HashedAt, KeysAre;
    var m: nat, k: nat :| m <= k && IndexedTo(h, x, acc, m) && Hashed(h, x.types, x.subs[acc], k);
    UpdateHashesAll(h, x.types, x.subs[acc], k);
    assert IndexedTo(h, y, acc, m) && Hashed(h, y.types, y.subs[acc], |y.subs[acc].acc.assets|);
  }

  lemma {:induction false} RunKeepsIndex(h: Hasher, x: AddressAccount, acts: seq<IndexAction>)
    requires IndexInv(h, x)
    ensures IndexInv(h, IndexRun(h, x, acts))
  {
    hide IndexInv, Update, UpdateHashes, Next;
    if acts != [] {
      var front, a := acts[..|acts| - 1], acts[|acts| - 1];
      var y := IndexRun(h, x, front);
      RunKeepsIndex(h, x, front);
      match a {
        case OnChain(acc, act) => if acc in y.subs { ChainStepKeeps(h, y, acc, act); }
        case HashAccount(acc) => if acc in y.subs { HashStepKeeps(h, y, acc); }
        case LookUp => UpdateKeeps(h, y);
      }
    }
  }

  // ----- Main result --------------------------------------------------------

  /** Accounts just built or loaded: nothing is hashed. */
  ghost predicate FreshAccounts(x: AddressAccount) {
    x == Unhashed(x) && forall acc :: acc in x.subs ==> Chain(x.subs[acc].scheme, x.subs[acc].acc)
  }

  lemma FreshIsInv(h: Hasher, x: AddressAccount)
    requires FreshAccounts(x)
    ensures IndexInv(h, x)
  {
    hide Chain;
    forall acc | acc in x.subs ensures Known(h, x, acc) {
      assert x.subs[acc] == Unhashed(x).subs[acc];
      assert Hashed(h, x.types, x.subs[acc], 0) && IndexedTo(h, x, acc, 0);
    }
  }

  /** No two asset accounts share a hash; within one account assets and types may. */
  ghost predicate HashesApart(h: Hasher, x: AddressAccount) {
    forall a, b, i, j, t, u ::
      && a in x.subs && i in x.subs[a].acc.assets && t in x.types
      && b in x.subs && j in x.subs[b].acc.assets && u in x.types
      && h(x.subs[a].acc.assets[i].entry.pub, t) == h(x.subs[b].acc.assets[j].entry.pub, u)
      ==> a == b
  }

  /**
   After every run of chain operations and lookups, a lookup finds an index whose hashes are exactly
   those of all assets and types, each entry truthful and the earliest of its account with that hash;
   and it is the index built from scratch, unless two asset accounts share a hash.
   */
  lemma IndexIsTheOneFromScratch(h: Hasher, x: AddressAccount, acts: seq<IndexAction>)
    requires FreshAccounts(x)
    ensures var y := IndexRun(h, x, acts);
            var z := Update(h, y);
            && (forall hash :: hash in z.index ==> Truthful(h, y, hash, z.index[hash]))
            && (forall hash :: hash in z.index ==> Earliest(h, y, hash, z.index[hash]))
            && (forall hash, e :: Truthful(h, y, hash, e) ==> hash in z.index)
            && (HashesApart(h, y) ==> z.index == Update(h, Unhashed(y)).index)
            && (|x.subs| <= 1 ==> z.index == Update(h, Unhashed(y)).index)
  {
    hide IndexInv, Update, Unhashed, HashesApart, Truthful, Earliest, Chain;
    FreshIsInv(h, x);
    RunKeepsIndex(h, x, acts);
    var y := IndexRun(h, x, acts);
    UnhashedIsInv(h, y);
    UpdateIsExact(h, y, y);
    UpdateIsExact(h, y, Unhashed(y));
    forall hash | hash in Update(h, y).index ensures Truthful(h, y, hash, Update(h, y).index[hash]) {
      EarliestIsTrue(h, y, hash, Update(h, y).index[hash]);
    }
    if |x.subs| <= 1 {
      RunKeepsAccounts(h, x, acts);
      OneIsApart(h, y);
    }
    if HashesApart(h, y) {
      ExactIsUnique(h, y, Update(h, y).index, Update(h, Unhashed(y)).index);
    }
  }

  lemma {:induction false} RunKeepsAccounts(h: Hasher, x: AddressAccount, acts: seq<IndexAction>)
    requires IndexInv(h, x)
    ensures IndexRun(h, x, acts).subs.Keys == x.subs.Keys
  {
    hide IndexInv, Update, UpdateHashes, Next;
    if acts != [] {
      var front := acts[..|acts| - 1];
      RunKeepsAccounts(h, x, front);
      RunKeepsIndex(h, x, front);
      UpdateKeeps(h, IndexRun(h, x, front));
    }
  }

  lemma OneIsApart(h: Hasher, x: AddressAccount)
    requires |x.subs.Keys| <= 1
    ensures HashesApart(h, x)
  {
    forall a, b | a in x.subs && b in x.subs ensures a == b {
      if a != b {
        assert {a, b} <= x.subs.Keys && |{a, b}| == 2;
        SubsetIsSmaller({a, b}, x.subs.Keys);
      }
    }
  }

  lemma {:induction false} SubsetIsSmaller(a: set<Bytes>, b: set<Bytes>)
    requires a <= b
    ensures |a| <= |b|
  {
    assert b == a + (b - a) && a !! (b - a);
  }

  lemma UnhashedIsInv(h: Hasher, x: AddressAccount)
    requires IndexInv(h, x)
    ensures IndexInv(h, Unhashed(x)) && SameChains(x, Unhashed(x))
  {
    hide Chain, Known, Earliest;
    assert Unhashed(Unhashed(x)) == Unhashed(x);
    FreshIsInv(h, Unhashed(x));
  }

  ghost predicate Exact(h: Hasher, x: AddressAccount, index: map<Bytes, (Bytes, AddrType)>) {
    && (forall hash :: hash in index ==> Earliest(h, x, hash, index[hash]))
    && (forall hash, e :: Truthful(h, x, hash, e) ==> hash in index)
  }

  /** Updating from any state of the same accounts gives an exact index. */
  lemma UpdateIsExact(h: Hasher, y: AddressAccount, x: AddressAccount)
    requires IndexInv(h, x) && SameChains(y, x)
    ensures Exact(h, y, Update(h, x).index)
  {
    hide Update, Truthful, Earliest, Known, Chain, Complete, SameChains;
    UpdateKeeps(h, x);
    var z := Update(h, x);
    SameChainsBoth(y, x, z);
    forall hash | hash in z.index ensures Earliest(h, y, hash, z.index[hash]) {
      EarliestAcross(h, z, y, hash, z.index[hash]);
    }
    forall hash, e | Truthful(h, y, hash, e) ensures hash in z.index {
      TruthAcross(h, y, z, hash, e);
      CompleteHas(h, z, hash, e);
    }
  }

  lemma SameChainsBoth(x: AddressAccount, y: AddressAccount, z: AddressAccount)
    requires SameChains(x, y) && SameChains(y, z)
    ensures SameChains(x, z) && SameChains(z, x)
  {
  }

  lemma TruthAcross(h: Hasher, x: AddressAccount, y: AddressAccount, hash: Bytes, e: (Bytes, AddrType))
    requires SameChains(x, y) && Truthful(h, x, hash, e)
    ensures Truthful(h, y, hash, e)
  {
    hide AssetId;
    var acc, i :| && acc in x.subs && i in x.subs[acc].acc.assets && e.0 == AssetId(x.subs[acc].id, i)
                  && e.1 in x.types && h(x.subs[acc].acc.assets[i].entry.pub, e.1) == hash;
    assert acc in y.subs && i in y.subs[acc].acc.assets;
  }

  lemma CompleteHas(h: Hasher, x: AddressAccount, hash: Bytes, e: (Bytes, AddrType))
    requires Truthful(h, x, hash, e) && forall a :: a in x.subs ==> Complete(h, x, a)
    ensures hash in x.index
  {
    hide AssetId;
    var acc, i :| && acc in x.subs && i in x.subs[acc].acc.assets && e.0 == AssetId(x.subs[acc].id, i)
                  && e.1 in x.types && h(x.subs[acc].acc.assets[i].entry.pub, e.1) == hash;
    assert Complete(h, x, acc);
  }

  lemma EarliestIsUnique(h: Hasher, x: AddressAccount, hash: Bytes, e: (Bytes, AddrType), f: (Bytes, AddrType))
    requires Earliest(h, x, hash, e) && Earliest(h, x, hash, f) && HashesApart(h, x)
    ensures e == f
  {
    hide AssetId;
    var a, i :| a in x.subs && e.0 == AssetId(x.subs[a].id, i) && EarliestAt(h, x.types, x.subs[a], hash, i, e.1);
    var b, j :| b in x.subs && f.0 == AssetId(x.subs[b].id, j) && EarliestAt(h, x.types, x.subs[b], hash, j, f.1);
    assert a == b && i == j && e.1 == f.1;
  }

  lemma ExactIsUnique(h: Hasher, x: AddressAccount, a: map<Bytes, (Bytes, AddrType)>,
                      b: map<Bytes, (Bytes, AddrType)>)
    requires Exact(h, x, a) && Exact(h, x, b) && HashesApart(h, x)
    ensures a == b
  {
    hide Truthful, Earliest, HashesApart;
    forall hash ensures hash in a <==> hash in b {
      if hash in a {
        EarliestIsTrue(h, x, hash, a[hash]);
      }
      if hash in b {
        EarliestIsTrue(h, x, hash, b[hash]);
      }
    }
    forall hash | hash in a ensures a[hash] == b[hash] {
      EarliestIsUnique(h, x, hash, a[hash], b[hash]);
    }
  }
}
