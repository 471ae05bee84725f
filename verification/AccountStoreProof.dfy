/** The store mirrors the account over every run, and loading it gives the account back. */
module AccountStoreProof {
  import opened Wrappers
  import opened Bytes
  import opened BinaryIO
  import opened KeyOrder
  import opened Records
  import opened RecordsProof
  import opened AssetChain
  import opened AssetChainProof
  import opened AccountStore

  // ----- Keys ---------------------------------------------------------------

  lemma AssetKeyReads(id: Bytes, i: nat)
    requires i < 0x1_0000_0000
    ensures var k := AssetKey(id, i);
            StartsWith(k, AssetPrefix(id)) && k != AssetPrefix(id) && |k| >= 5 && IndexIn(k) == i
  {
    Spans();
    BigEndianReadsBack(i, 4);
    var k := AssetKey(id, i);
    assert k[|k| - 4..] == BigEndian(i, 4);
  }

  lemma AssetKeysDiffer(id: Bytes, i: nat, j: nat)
    requires i < 0x1_0000_0000 && j < 0x1_0000_0000 && i != j
    ensures AssetKey(id, i) != AssetKey(id, j)
  {
    AssetKeyReads(id, i);
    AssetKeyReads(id, j);
  }

  lemma OtherKeysApart(id: Bytes)
    ensures !StartsWith(AccountKey(id), AssetPrefix(id))
    ensures !StartsWith(CountKey(id), AssetPrefix(id)) && !StartsWith(TopKey(id), AssetPrefix(id))
    ensures AccountKey(id) != CountKey(id) && AccountKey(id) != TopKey(id) && CountKey(id) != TopKey(id)
  {
    assert AccountKey(id)[0] == 0xE1 && CountKey(id)[0] == 0xE2 && TopKey(id)[0] == 0xE3 && AssetPrefix(id)[0] == 0x8A;
  }

  /** All that an account with another id of the same length writes is outside. */
  lemma OtherAccountsKeepOut(id: Bytes, other: Bytes, i: nat)
    requires |id| == |other| && id != other && i < 0x1_0000_0000
    ensures Outside(id, AssetKey(other, i))
    ensures Outside(id, AccountKey(other)) && Outside(id, CountKey(other)) && Outside(id, TopKey(other))
  {
    var p, q := AssetPrefix(id), AssetPrefix(other);
    assert p[1..] == id && q[1..] == other;
    assert AssetKey(other, i)[..|q|] == q;
    assert AssetKey(other, i)[0] == 0x8A;
    assert AccountKey(other)[0] == 0xE1 && CountKey(other)[0] == 0xE2 && TopKey(other)[0] == 0xE3;
    assert AccountKey(other)[1..] == other && CountKey(other)[1..] == other && TopKey(other)[1..] == other;
    assert AccountKey(id)[1..] == id && CountKey(id)[1..] == id && TopKey(id)[1..] == id;
    assert AccountKey(id)[0] == 0xE1 && CountKey(id)[0] == 0xE2 && TopKey(id)[0] == 0xE3;
  }

  // ----- Invariant ----------------------------------------------------------

  /** An entry that reads back as it was written. */
  ghost predicate Storable(curve: Curve, e: Entry) { ReadEntry(curve, WriteEntry(e)) == Some(e) }

  ghost predicate Holds(curve: Curve, disk: Disk, id: Bytes, x: Asset) {
    && !x.dirty && Storable(curve, x.entry)
    && AssetKey(id, Unsigned(x.index)) in disk && disk[AssetKey(id, Unsigned(x.index))] == WriteEntry(x.entry)
  }

  /** Whose key this is. */
  ghost predicate OwnKey(id: Bytes, a: Account, key: Bytes) {
    || (a.root.Some? && key == AssetKey(id, ROOT_INDEX))
    || (exists i :: i in a.assets && key == AssetKey(id, i))
  }

  ghost predicate AllHeld(curve: Curve, id: Bytes, a: Account, disk: Disk) {
    && (a.root.Some? ==> Holds(curve, disk, id, a.root.value))
    && (forall i :: i in a.assets ==> Holds(curve, disk, id, a.assets[i]))
  }

  ghost predicate NoStrays(id: Bytes, a: Account, disk: Disk) {
    forall key :: key in disk && StartsWith(key, AssetPrefix(id)) ==> OwnKey(id, a, key)
  }

  ghost predicate Mirrors(curve: Curve, id: Bytes, a: Account, disk: Disk) {
    AllHeld(curve, id, a, disk) && NoStrays(id, a, disk)
  }

  ghost predicate Headed(meta: Meta, a: Account, disk: Disk) {
    && Fetch(disk, AccountKey(meta.id)) == (if meta.kind < 256 then AccountData(meta) else [])
    && Fetch(disk, CountKey(meta.id)) == PutVarInt(|a.assets|, [])
    && Fetch(disk, TopKey(meta.id)) == PutVarInt(a.lastUsed, [])
    && a.lookup == Lookup(meta.kind)
  }

  predicate ValidMeta(meta: Meta) {
    && meta.kind <= 1 && meta.parentLen <= |meta.id| < 0x1_0000_0000_0000_0000
    && |meta.schemeData| < 0x1_0000_0000 && Unwrap(meta.schemeData).Some?
  }

  ghost predicate Synced(curve: Curve, scheme: Scheme, meta: Meta, w: Wallet) {
    Chain(scheme, w.acc) && Mirrors(curve, meta.id, w.acc, w.disk) && Headed(meta, w.acc, w.disk)
  }

  // ----- Loading ------------------------------------------------------------

  lemma HeadReadsBack(meta: Meta, a: Account, disk: Disk)
    requires ValidMeta(meta) && Headed(meta, a, disk) && |a.assets| < 0x1_0000_0000
    ensures LoadHead(disk, meta.id) == Some((meta, |a.assets|, a.lastUsed))
  {
    hide PutByte, GetByte, PutVarInt, GetVarInt, PutBlob, GetBlob, Unwrap;
    var b2 := PutBlob(meta.schemeData, []);
    var b1 := PutVarInt(meta.parentLen, b2);
    ByteReadsBack(meta.kind, b1);
    VarIntReadsBack(meta.parentLen, b2);
    BlobReadsBack(meta.schemeData, []);
    VarIntReadsBack(|a.assets|, []);
    VarIntReadsBack(a.lastUsed, []);
  }

  /** Each asset is either collected or still ahead. */
  ghost predicate Partway(id: Bytes, a: Account, keys: seq<Bytes>, root: Option<Asset>, assets: map<nat, Asset>) {
    && (forall i :: i in assets ==> i in a.assets && assets[i] == a.assets[i])
    && (forall i :: i in a.assets ==> i in assets || AssetKey(id, i) in keys)
    && (root == a.root || (root.None? && AssetKey(id, ROOT_INDEX) in keys))
  }

  lemma KeyParses(curve: Curve, id: Bytes, disk: Disk, x: Asset)
    requires Holds(curve, disk, id, x) && -1 <= x.index < 0x8000_0000
    ensures ParseAsset(curve, AssetKey(id, Unsigned(x.index)), disk[AssetKey(id, Unsigned(x.index))]) == Some(x)
  {
    hide ReadEntry, WriteEntry, AssetKey;
    AssetKeyReads(id, Unsigned(x.index));
  }

  lemma {:induction false} CollectsAll(curve: Curve, id: Bytes, a: Account, disk: Disk, keys: seq<Bytes>,
                                       root: Option<Asset>, assets: map<nat, Asset>)
    requires Mirrors(curve, id, a, disk) && Filed(a.assets) && (forall i :: i in a.assets ==> i < 0x8000_0000)
    requires a.root.Some? ==> a.root.value.index == -1
    requires Ascending(keys) && (forall k :: k in keys ==> k in disk && !Below(k, AssetPrefix(id)))
    requires Partway(id, a, keys, root, assets)
    ensures Collect(curve, disk, AssetPrefix(id), keys, root, assets) == Collected(a.root, a.assets)
    decreases |keys|
  {
    hide ParseAsset, AssetKey, AssetPrefix, Holds;
    var prefix := AssetPrefix(id);
    if keys == [] || !StartsWith(keys[0], prefix) {
      NothingAhead(id, a, keys);
      assert assets == a.assets;
    } else {
      var key, rest := keys[0], keys[1..];
      NotAgain(keys);
      assert OwnKey(id, a, key);
      if a.root.Some? && key == AssetKey(id, ROOT_INDEX) {
        CollectsRoot(curve, id, a, disk, keys, root, assets);
        CollectsAll(curve, id, a, disk, rest, a.root, assets);
      } else {
        var i :| i in a.assets && key == AssetKey(id, i);
        CollectsAsset(curve, id, a, disk, keys, root, assets, i);
        CollectsAll(curve, id, a, disk, rest, root, assets[i := a.assets[i]]);
      }
    }
  }

  lemma NotAgain(keys: seq<Bytes>)
    requires Ascending(keys) && keys != []
    ensures keys[0] !in keys[1..] && Ascending(keys[1..])
    ensures forall k :: k in keys <==> k == keys[0] || k in keys[1..]
  {
    if keys[0] in keys[1..] {
      BelowIrreflexive(keys[0]);
    }
    assert keys == [keys[0]] + keys[1..];
  }

  /** Past the last key with the prefix no asset is ahead. */
  lemma NothingAhead(id: Bytes, a: Account, keys: seq<Bytes>)
    requires Ascending(keys) && (forall k :: k in keys ==> !Below(k, AssetPrefix(id)))
    requires keys == [] || !StartsWith(keys[0], AssetPrefix(id))
    ensures forall i :: 0 <= i < 0x1_0000_0000 ==> AssetKey(id, i) !in keys
  {
    hide AssetPrefix, AssetKey, Below;
    forall i | 0 <= i < 0x1_0000_0000 ensures AssetKey(id, i) !in keys {
      AssetKeyReads(id, i);
      var key := AssetKey(id, i);
      if key in keys && key != keys[0] {
        var j :| 0 < j < |keys| && keys[j] == key;
        PrefixRange(AssetPrefix(id), key, keys[0]);
      }
    }
  }

  lemma CollectsRoot(curve: Curve, id: Bytes, a: Account, disk: Disk, keys: seq<Bytes>, root: Option<Asset>,
                     assets: map<nat, Asset>)
    requires a.root.Some? && a.root.value.index == -1 && Holds(curve, disk, id, a.root.value)
    requires keys != [] && keys[0] == AssetKey(id, ROOT_INDEX) && (forall k :: k in keys ==> k in disk)
    requires Partway(id, a, keys, root, assets) && (forall i :: i in a.assets ==> i < 0x8000_0000)
    ensures Partway(id, a, keys[1..], a.root, assets)
    ensures Collect(curve, disk, AssetPrefix(id), keys, root, assets) ==
            Collect(curve, disk, AssetPrefix(id), keys[1..], a.root, assets)
  {
    hide ParseAsset, AssetKey, AssetPrefix, Holds;
    KeyParses(curve, id, disk, a.root.value);
    AssetKeyReads(id, ROOT_INDEX);
    assert keys == [keys[0]] + keys[1..];
    forall i | i in a.assets ensures i in assets || AssetKey(id, i) in keys[1..] {
      AssetKeysDiffer(id, i, ROOT_INDEX);
    }
  }

  lemma CollectsAsset(curve: Curve, id: Bytes, a: Account, disk: Disk, keys: seq<Bytes>, root: Option<Asset>,
                      assets: map<nat, Asset>, i: nat)
    requires i in a.assets && a.assets[i].index == i < 0x8000_0000 && Holds(curve, disk, id, a.assets[i])
    requires keys != [] && keys[0] == AssetKey(id, i) && (forall k :: k in keys ==> k in disk)
    requires Partway(id, a, keys, root, assets) && (forall j :: j in a.assets ==> j < 0x8000_0000)
    ensures Partway(id, a, keys[1..], root, assets[i := a.assets[i]])
    ensures Collect(curve, disk, AssetPrefix(id), keys, root, assets) ==
            Collect(curve, disk, AssetPrefix(id), keys[1..], root, assets[i := a.assets[i]])
  {
    hide ParseAsset, AssetKey, AssetPrefix, Holds;
    KeyParses(curve, id, disk, a.assets[i]);
    AssetKeyReads(id, i);
    AssetKeysDiffer(id, i, ROOT_INDEX);
    assert keys == [keys[0]] + keys[1..];
    assert i in assets ==> assets[i := a.assets[i]] == assets;
    forall j | j in a.assets && j != i ensures j in assets || AssetKey(id, j) in keys[1..] {
      AssetKeysDiffer(id, j, i);
    }
  }

  lemma {:induction false} SeekFacts(keys: seq<Bytes>, prefix: Bytes)
    requires Ascending(keys)
    ensures Ascending(Seek(keys, prefix))
    ensures forall k :: k in keys ==> (k in Seek(keys, prefix) <==> !Below(k, prefix))
  {
    if keys != [] {
      if Below(keys[0], prefix) {
        assert keys == [keys[0]] + keys[1..];
        SeekFacts(keys[1..], prefix);
      } else {
        forall k | k in keys ensures !Below(k, prefix) {
          var j :| 0 <= j < |keys| && keys[j] == k;
          if j > 0 && Below(k, prefix) {
            BelowTransitive(keys[0], k, prefix);
          }
        }
      }
    }
  }

  /** Loading a store that mirrors an account gives back the same root, assets and cursor. */
  lemma LoadsBack(curve: Curve, scheme: Scheme, meta: Meta, w: Wallet)
    requires ValidMeta(meta) && Synced(curve, scheme, meta, w)
    ensures Load(curve, w.disk, AccountKey(meta.id)) == Loaded(meta, w.acc)
  {
    hide Collect, LoadHead, Seek, InOrder, AssetPrefix, Chain, Mirrors, Headed, ValidMeta;
    assert AccountKey(meta.id)[1..] == meta.id;
    CollectsMirror(curve, scheme, meta.id, w.acc, w.disk);
    HeadReadsBack(meta, w.acc, w.disk);
    assert meta.kind <= 1 && w.acc.lookup == Lookup(meta.kind) by { KindFits(meta, w); }
  }

  lemma KindFits(meta: Meta, w: Wallet)
    requires ValidMeta(meta) && Headed(meta, w.acc, w.disk)
    ensures meta.kind <= 1 && w.acc.lookup == Lookup(meta.kind)
  {
  }

  lemma CollectsMirror(curve: Curve, scheme: Scheme, id: Bytes, a: Account, disk: Disk)
    requires Chain(scheme, a) && Mirrors(curve, id, a, disk)
    ensures |a.assets| < 0x1_0000_0000
    ensures Collect(curve, disk, AssetPrefix(id), Seek(InOrder(disk.Keys), AssetPrefix(id)), None, map[]) ==
            Collected(a.root, a.assets)
  {
    hide Collect, Seek, InOrder, AssetPrefix, AllHeld, NoStrays, Linked, KeyedFirst, Partway;
    InOrderSorted(disk.Keys);
    SeekFacts(InOrder(disk.Keys), AssetPrefix(id));
    AllAhead(curve, id, a, disk);
    CollectsAll(curve, id, a, disk, Seek(InOrder(disk.Keys), AssetPrefix(id)), None, map[]);
  }

  lemma AllAhead(curve: Curve, id: Bytes, a: Account, disk: Disk)
    requires AllHeld(curve, id, a, disk) && Filed(a.assets) && (forall i :: i in a.assets ==> i < 0x8000_0000)
    requires a.root.Some? ==> a.root.value.index == -1
    ensures Partway(id, a, Seek(InOrder(disk.Keys), AssetPrefix(id)), None, map[])
  {
    hide Seek, InOrder, AssetPrefix, AssetKey, Holds;
    forall i | i in a.assets ensures AssetKey(id, i) in Seek(InOrder(disk.Keys), AssetPrefix(id)) {
      HeldKey(curve, id, disk, a.assets[i]);
      KeyAhead(disk, id, i);
    }
    if a.root.Some? {
      HeldKey(curve, id, disk, a.root.value);
      KeyAhead(disk, id, ROOT_INDEX);
    }
  }

  lemma HeldKey(curve: Curve, id: Bytes, disk: Disk, x: Asset)
    requires Holds(curve, disk, id, x) && -1 <= x.index < 0x8000_0000
    ensures AssetKey(id, if x.index < 0 then ROOT_INDEX else x.index) in disk
  {
    hide Storable, WriteEntry, AssetKey;
  }

  lemma KeyAhead(disk: Disk, id: Bytes, i: nat)
    requires i < 0x1_0000_0000 && AssetKey(id, i) in disk
    ensures AssetKey(id, i) in Seek(InOrder(disk.Keys), AssetPrefix(id))
  {
    hide Seek, InOrder, AssetPrefix, AssetKey, Below, StartsWith;
    InOrderSorted(disk.Keys);
    SeekFacts(InOrder(disk.Keys), AssetPrefix(id));
    AssetKeyReads(id, i);
    PrefixNotAbove(AssetPrefix(id), AssetKey(id, i));
  }

  /** Loading never ends exactly when the account's asset prefix is itself a key, and the rest can be read. */
  lemma DivergesIff(curve: Curve, disk: Disk, id: Bytes)
    ensures Load(curve, disk, AccountKey(id)).LoadDiverges? <==> LoadHead(disk, id).Some? && AssetPrefix(id) in disk
  {
    hide LoadHead, Seek, InOrder, AssetPrefix;
    assert AccountKey(id)[1..] == id;
    var prefix := AssetPrefix(id);
    var keys := Seek(InOrder(disk.Keys), prefix);
    InOrderSorted(disk.Keys);
    SeekFacts(InOrder(disk.Keys), prefix);
    if prefix in disk {
      BelowIrreflexive(prefix);
      FirstIsLeast(keys, prefix);
    } else {
      NeverDiverges(curve, disk, prefix, keys, None, map[]);
    }
  }

  lemma FirstIsLeast(keys: seq<Bytes>, x: Bytes)
    requires Ascending(keys) && x in keys && forall k :: k in keys ==> !Below(k, x)
    ensures keys[0] == x
  {
    forall j: nat | 0 < j < |keys| ensures keys[j] != x {
      FirstIsBelow(keys, j);
    }
  }

  lemma FirstIsBelow(keys: seq<Bytes>, j: nat)
    requires Ascending(keys) && 0 < j < |keys|
    ensures Below(keys[0], keys[j])
  {
  }

  lemma {:induction false} NeverDiverges(curve: Curve, disk: Disk, prefix: Bytes, keys: seq<Bytes>,
                                         root: Option<Asset>, assets: map<nat, Asset>)
    requires (forall k :: k in keys ==> k in disk) && prefix !in disk
    ensures !Collect(curve, disk, prefix, keys, root, assets).Diverges?
    decreases |keys|
  {
    hide ParseAsset;
    if keys != [] && StartsWith(keys[0], prefix) && ParseAsset(curve, keys[0], disk[keys[0]]).Some? {
      var x := ParseAsset(curve, keys[0], disk[keys[0]]).value;
      var i := Unsigned(x.index);
      NeverDiverges(curve, disk, prefix, keys[1..], Some(x), assets);
      NeverDiverges(curve, disk, prefix, keys[1..], root, if i in assets then assets else assets[i := x]);
    }
  }

  // ----- Writing keeps the mirror -------------------------------------------

  /** A derived asset, flagged to be written. */
  ghost predicate IsNew(scheme: Scheme, x: Asset, i: nat) {
    exists from, iv :: x == NewAsset(scheme, Step(scheme, from, i), i, iv)
  }

  /** Every asset is as before or derived anew. */
  ghost predicate SameOrNew(scheme: Scheme, a: Account, b: Account) {
    && b.root == a.root && b.lookup == a.lookup
    && (forall i :: i in a.assets ==> i in b.assets)
    && (forall i :: i in b.assets ==> (i in a.assets && b.assets[i] == a.assets[i]) || IsNew(scheme, b.assets[i], i))
  }

  lemma ExtendedSameOrNew(scheme: Scheme, a: Account, origin: Option<Asset>, count: nat, iv: Option<nat>)
    ensures var b := OrElse(Extended(scheme, a, origin, count, iv), a);
            SameOrNew(scheme, a, b) && b.lastUsed == a.lastUsed
  {
    hide Derived, Inserted;
    var b := OrElse(Extended(scheme, a, origin, count, iv), a);
    if b != a {
      var index := if origin.None? then -1 else origin.value.index;
      var start, end := Unsigned(index + 1), Unsigned(index + count);
      var source := if scheme.legacy then origin else a.root;
      InsertedSameOrNew(scheme, a, source.value.entry.pub, start, end - start + 1, iv);
    }
  }

  lemma InsertedSameOrNew(scheme: Scheme, a: Account, from: PublicKey, start: nat, n: nat, iv: Option<nat>)
    ensures SameOrNew(scheme, a, a.(assets := Inserted(a.assets, Derived(scheme, from, start, n, iv), iv.Some?)))
  {
    hide Derived, Inserted;
    var news := Derived(scheme, from, start, n, iv);
    var b := Inserted(a.assets, news, iv.Some?);
    forall i | i in a.assets ensures i in b {
      InsertedAt(a.assets, news, start, iv.Some?, i);
    }
    forall i | i in b ensures (i in a.assets && b[i] == a.assets[i]) || IsNew(scheme, b[i], i) {
      InsertedAt(a.assets, news, start, iv.Some?, i);
      if start <= i < start + n {
        DerivedKeys(scheme, from, start, n, iv, i - start);
      }
    }
  }

  lemma AfterSameOrNew(scheme: Scheme, a: Account, act: Action)
    ensures SameOrNew(scheme, a, After(scheme, a, act))
    ensures !Writes(scheme, a, act) ==> After(scheme, a, act) == Started(a, act)
  {
    hide Ask, Extended, IsNew;
    var b := Started(a, act);
    var q := Ask(b, act);
    if q.Some? {
      ExtendedSameOrNew(scheme, b, q.value.origin, q.value.count, q.value.iv);
      NothingAsked(scheme, b, q.value);
    }
  }

  lemma NothingAsked(scheme: Scheme, a: Account, q: Request)
    ensures q.count == 0 ==> Answer(scheme, a, q) == Some(a)
  {
  }

  /** The store with the flagged assets below n written. */
  lemma {:induction false} WrittenAssets(disk: Disk, id: Bytes, assets: map<nat, Asset>, n: nat, key: Bytes)
    requires Filed(assets) && n <= 0x8000_0000
    ensures var d := WriteAssets(disk, id, assets, n);
            && (forall i :: i in assets && i < n && assets[i].dirty ==>
                  AssetKey(id, i) in d && d[AssetKey(id, i)] == WriteEntry(assets[i].entry))
            && ((forall i :: i in assets && i < n && assets[i].dirty ==> key != AssetKey(id, i)) ==>
                  (key in d <==> key in disk) && (key in d ==> d[key] == disk[key]))
            && (key in d && key !in disk ==> exists i :: i in assets && key == AssetKey(id, i))
  {
    hide AssetKey, WriteEntry;
    if n > 0 {
      WrittenAssets(disk, id, assets, n - 1, key);
      forall i: nat | i < n - 1 ensures AssetKey(id, i) != AssetKey(id, n - 1) {
        AssetKeysDiffer(id, i, n - 1);
      }
    }
  }

  /** What a scheme derives fits in a record. */
  ghost predicate Recordable(scheme: Scheme) {
    forall from, i, iv ::
      var e := NewAsset(scheme, Step(scheme, from, i), i, iv).entry;
      ValidEntry(e) && |EntryBody(e)| < 0x1_0000_0000
  }

  lemma NewIsStorable(curve: Curve, scheme: Scheme, x: Asset, i: nat)
    requires Recordable(scheme) && IsNew(scheme, x, i)
    ensures Storable(curve, x.entry) && x.dirty && x.index == i
  {
    hide ValidEntry, EntryBody, ReadEntry, WriteEntry;
    var from, iv :| x == NewAsset(scheme, Step(scheme, from, i), i, iv);
    EntryReadsBack(curve, x.entry);
  }

  lemma KeyUntouched(disk: Disk, id: Bytes, b: Account, key: Bytes)
    requires Filed(b.assets) && (forall i :: i in b.assets ==> i < 0x8000_0000)
    requires key != CountKey(id) && forall i :: i in b.assets && b.assets[i].dirty ==> key != AssetKey(id, i)
    ensures var d := UpdateOnDisk(disk, id, b); (key in d <==> key in disk) && (key in d ==> d[key] == disk[key])
  {
    hide WriteAssets, AssetKey;
    WrittenAssets(disk, id, b.assets, End(b.assets), key);
  }

  lemma AssetWritten(disk: Disk, id: Bytes, b: Account, i: nat)
    requires Filed(b.assets) && (forall j :: j in b.assets ==> j < 0x8000_0000)
    requires i in b.assets && b.assets[i].dirty
    ensures var d := UpdateOnDisk(disk, id, b);
            AssetKey(id, i) in d && d[AssetKey(id, i)] == WriteEntry(b.assets[i].entry)
  {
    hide WriteAssets, AssetKey, WriteEntry, AssetPrefix;
    WrittenAssets(disk, id, b.assets, End(b.assets), AssetKey(id, i));
    AssetKeyReads(id, i);
    OtherKeysApart(id);
  }

  lemma UpdateHolds(curve: Curve, scheme: Scheme, id: Bytes, a: Account, b: Account, disk: Disk)
    requires AllHeld(curve, id, a, disk) && SameOrNew(scheme, a, b) && Recordable(scheme)
    requires Filed(b.assets) && (forall j :: j in b.assets ==> j < 0x8000_0000)
    requires a.root.Some? ==> a.root.value.index == -1
    ensures AllHeld(curve, id, Cleaned(b), UpdateOnDisk(disk, id, b))
  {
    hide UpdateOnDisk, AssetKey, WriteEntry, Storable, IsNew;
    var d := UpdateOnDisk(disk, id, b);
    forall i | i in b.assets ensures Holds(curve, d, id, Cleaned(b).assets[i]) {
      if b.assets[i].dirty {
        assert IsNew(scheme, b.assets[i], i) by { HeldIsClean(curve, id, a, disk, i); }
        NewIsStorable(curve, scheme, b.assets[i], i);
        AssetWritten(disk, id, b, i);
      } else {
        CleanIsSame(curve, scheme, a, b, i);
        KeyStays(disk, id, b, i);
      }
    }
    if b.root.Some? {
      KeyStays(disk, id, b, ROOT_INDEX);
    }
  }

  lemma HeldIsClean(curve: Curve, id: Bytes, a: Account, disk: Disk, i: nat)
    requires AllHeld(curve, id, a, disk)
    ensures i in a.assets ==> !a.assets[i].dirty
  {
    hide Storable, AssetKey, WriteEntry;
  }

  lemma CleanIsSame(curve: Curve, scheme: Scheme, a: Account, b: Account, i: nat)
    requires SameOrNew(scheme, a, b) && Recordable(scheme) && i in b.assets && !b.assets[i].dirty
    ensures i in a.assets && b.assets[i] == a.assets[i]
  {
    hide Recordable, IsNew;
    if IsNew(scheme, b.assets[i], i) {
      NewIsStorable(curve, scheme, b.assets[i], i);
    }
  }

  /** A key of an index that is not flagged keeps its value. */
  lemma KeyStays(disk: Disk, id: Bytes, b: Account, i: nat)
    requires Filed(b.assets) && (forall j :: j in b.assets ==> j < 0x8000_0000)
    requires i < 0x1_0000_0000 && (i in b.assets ==> !b.assets[i].dirty)
    ensures var d, key := UpdateOnDisk(disk, id, b), AssetKey(id, i);
            (key in d <==> key in disk) && (key in d ==> d[key] == disk[key])
  {
    hide UpdateOnDisk, AssetKey, AssetPrefix;
    forall j | j in b.assets && b.assets[j].dirty ensures AssetKey(id, j) != AssetKey(id, i) {
      AssetKeysDiffer(id, j, i);
    }
    AssetKeyReads(id, i);
    OtherKeysApart(id);
    KeyUntouched(disk, id, b, AssetKey(id, i));
  }

  lemma UpdateNoStrays(scheme: Scheme, id: Bytes, a: Account, b: Account, disk: Disk)
    requires NoStrays(id, a, disk) && SameOrNew(scheme, a, b)
    requires Filed(b.assets) && (forall j :: j in b.assets ==> j < 0x8000_0000)
    ensures NoStrays(id, Cleaned(b), UpdateOnDisk(disk, id, b))
  {
    hide WriteAssets, AssetKey, AssetPrefix, IsNew, StartsWith;
    var d := UpdateOnDisk(disk, id, b);
    OtherKeysApart(id);
    forall key | key in d && StartsWith(key, AssetPrefix(id)) ensures OwnKey(id, Cleaned(b), key) {
      WrittenAssets(disk, id, b.assets, End(b.assets), key);
      if key in disk {
        assert OwnKey(id, a, key);
      } else {
        var i :| i in b.assets && key == AssetKey(id, i);
        assert i in Cleaned(b).assets;
      }
    }
  }

  // ----- Every step keeps the mirror ----------------------------------------

  /** The two stores agree on the asset keys of this account. */
  ghost predicate SameAssetKeys(id: Bytes, d: Disk, e: Disk) {
    forall key :: StartsWith(key, AssetPrefix(id)) ==> (key in e <==> key in d) && (key in e ==> e[key] == d[key])
  }

  lemma MirrorMoves(curve: Curve, id: Bytes, a: Account, d: Disk, e: Disk)
    requires Mirrors(curve, id, a, d) && SameAssetKeys(id, d, e)
    ensures Mirrors(curve, id, a, e)
  {
    hide AssetKey, AssetPrefix, StartsWith, Storable, WriteEntry, OwnKey;
    if a.root.Some? {
      AssetKeyReads(id, Unsigned(a.root.value.index));
    }
    forall i | i in a.assets ensures Holds(curve, e, id, a.assets[i]) {
      AssetKeyReads(id, Unsigned(a.assets[i].index));
    }
  }

  lemma TopMoves(id: Bytes, d: Disk, a: Account)
    ensures SameAssetKeys(id, d, WriteTop(d, id, a))
  {
    OtherKeysApart(id);
  }

  lemma ChainStepMirrors(curve: Curve, scheme: Scheme, id: Bytes, w: Wallet, c: Action)
    requires Chain(scheme, w.acc) && Mirrors(curve, id, w.acc, w.disk) && Recordable(scheme)
    ensures var x := StoreNext(scheme, id, w, OnChain(c)); Mirrors(curve, id, x.acc, x.disk)
  {
    hide After, Writes, WriteTop, UpdateOnDisk, AllHeld, NoStrays, Recordable, Linked, KeyedFirst, SameAssetKeys;
    var b := After(scheme, w.acc, c);
    var d := if c.GetNew? then WriteTop(w.disk, id, b) else w.disk;
    AfterKeeps(scheme, w.acc, c);
    AfterSameOrNew(scheme, w.acc, c);
    if c.GetNew? {
      TopMoves(id, w.disk, b);
      MirrorMoves(curve, id, w.acc, w.disk, d);
    }
    if !Writes(scheme, w.acc, c) {
      MirrorStays(curve, id, w.acc, b, d);
    } else {
      UpdateHolds(curve, scheme, id, w.acc, b, d);
      UpdateNoStrays(scheme, id, w.acc, b, d);
    }
  }

  lemma MirrorStays(curve: Curve, id: Bytes, a: Account, b: Account, disk: Disk)
    requires Mirrors(curve, id, a, disk) && b.assets == a.assets && b.root == a.root
    ensures Mirrors(curve, id, b, disk)
  {
    hide Storable, AssetKey, WriteEntry, StartsWith;
    forall key | key in disk && StartsWith(key, AssetPrefix(id)) ensures OwnKey(id, b, key) {
      assert OwnKey(id, a, key);
    }
  }

  lemma ChainStepHeaded(curve: Curve, scheme: Scheme, meta: Meta, w: Wallet, c: Action)
    requires Chain(scheme, w.acc) && Headed(meta, w.acc, w.disk)
    ensures var x := StoreNext(scheme, meta.id, w, OnChain(c)); Headed(meta, x.acc, x.disk)
  {
    hide After, Writes, UpdateOnDisk, Chain, AccountData, PutVarInt, AccountKey, CountKey, TopKey;
    var id, b := meta.id, After(scheme, w.acc, c);
    var d := if c.GetNew? then WriteTop(w.disk, id, b) else w.disk;
    AfterKeeps(scheme, w.acc, c);
    CleanKeeps(scheme, b);
    AfterSameOrNew(scheme, w.acc, c);
    OtherKeysApart(id);
    if Writes(scheme, w.acc, c) {
      UpdateHead(scheme, id, b, d);
    }
  }

  lemma UpdateHead(scheme: Scheme, id: Bytes, b: Account, disk: Disk)
    requires Chain(scheme, b)
    ensures var d := UpdateOnDisk(disk, id, b);
            && Fetch(d, CountKey(id)) == PutVarInt(|b.assets|, [])
            && Fetch(d, AccountKey(id)) == Fetch(disk, AccountKey(id))
            && Fetch(d, TopKey(id)) == Fetch(disk, TopKey(id))
  {
    hide WriteAssets, AssetKey, AssetPrefix, AccountKey, CountKey, TopKey, PutVarInt, Linked, KeyedFirst;
    OtherKeysApart(id);
    forall i | i in b.assets ensures AssetKey(id, i) != AccountKey(id) && AssetKey(id, i) != TopKey(id) {
      AssetKeyReads(id, i);
    }
    KeyUntouched(disk, id, b, AccountKey(id));
    KeyUntouched(disk, id, b, TopKey(id));
  }

  lemma StepKeepsSynced(curve: Curve, scheme: Scheme, meta: Meta, w: Wallet, act: StoreAction)
    requires Recordable(scheme) && Synced(curve, scheme, meta, w)
    ensures Synced(curve, scheme, meta, StoreNext(scheme, meta.id, w, act))
  {
    hide Chain, Mirrors, Headed, Recordable, Next;
    match act {
      case OnChain(c) =>
        ChainStepMirrors(curve, scheme, meta.id, w, c);
        ChainStepHeaded(curve, scheme, meta, w, c);
        NextKeeps(scheme, w.acc, c);
        StepIsNext(scheme, meta.id, w, c);
      case Other(key, value) =>
        if Outside(meta.id, key) {
          OtherMoves(meta.id, w.disk, key, value);
          var e := StoreNext(scheme, meta.id, w, act).disk;
          MirrorMoves(curve, meta.id, w.acc, w.disk, e);
          OtherHeaded(meta, w.acc, w.disk, key, value);
        }
    }
  }

  lemma StepIsNext(scheme: Scheme, id: Bytes, w: Wallet, c: Action)
    ensures StoreNext(scheme, id, w, OnChain(c)).acc == Next(scheme, w.acc, c)
  {
  }

  lemma OtherMoves(id: Bytes, disk: Disk, key: Bytes, value: Option<Bytes>)
    requires Outside(id, key)
    ensures SameAssetKeys(id, disk, PutOrErase(disk, key, value))
  {
  }

  lemma OtherHeaded(meta: Meta, a: Account, disk: Disk, key: Bytes, value: Option<Bytes>)
    requires Headed(meta, a, disk) && Outside(meta.id, key)
    ensures Headed(meta, a, PutOrErase(disk, key, value))
  {
    hide AccountData, PutVarInt;
  }

  lemma {:induction false} RunKeepsSynced(curve: Curve, scheme: Scheme, meta: Meta, w: Wallet, acts: seq<StoreAction>)
    requires Recordable(scheme) && Synced(curve, scheme, meta, w)
    ensures Synced(curve, scheme, meta, StoreRun(scheme, meta.id, w, acts))
  {
    hide Synced, StoreNext, Recordable;
    if acts != [] {
      var front := acts[..|acts| - 1];
      RunKeepsSynced(curve, scheme, meta, w, front);
      StepKeepsSynced(curve, scheme, meta, StoreRun(scheme, meta.id, w, front), acts[|acts| - 1]);
    }
  }

  // ----- The first commit ---------------------------------------------------

  /** All is flagged and storable, and the store has no key under the account's asset prefix. */
  ghost predicate Uncommitted(curve: Curve, id: Bytes, a: Account, disk: Disk) {
    && (a.root.Some? ==> a.root.value.dirty && Storable(curve, a.root.value.entry))
    && (forall i :: i in a.assets ==> a.assets[i].dirty && Storable(curve, a.assets[i].entry))
    && (forall key :: key in disk ==> !StartsWith(key, AssetPrefix(id)))
  }

  lemma CommitMirrors(curve: Curve, scheme: Scheme, meta: Meta, a: Account, disk: Disk)
    requires Chain(scheme, a) && meta.kind < 256 && Uncommitted(curve, meta.id, a, disk)
    ensures Mirrors(curve, meta.id, Committed(a), Commit(disk, meta, a))
  {
    hide WriteAssets, AssetKey, AssetPrefix, WriteEntry, Storable, StartsWith, AccountKey, CountKey, TopKey,
         AccountData, PutVarInt, Linked, KeyedFirst;
    var id := meta.id;
    var d0 := if a.root.Some? then WriteAsset(disk, id, a.root.value) else disk;
    var d1 := WriteAssets(d0, id, a.assets, End(a.assets));
    var d := Commit(disk, meta, a);
    assert SameAssetKeys(id, d1, d) by { OtherKeysApart(id); }
    CommitAssets(curve, scheme, id, a, disk);
    MirrorMoves(curve, id, Committed(a), d1, d);
  }

  lemma CommitAssets(curve: Curve, scheme: Scheme, id: Bytes, a: Account, disk: Disk)
    requires Chain(scheme, a) && Uncommitted(curve, id, a, disk)
    ensures var d0 := if a.root.Some? then WriteAsset(disk, id, a.root.value) else disk;
            Mirrors(curve, id, Committed(a), WriteAssets(d0, id, a.assets, End(a.assets)))
  {
    hide WriteAssets, AssetKey, AssetPrefix, WriteEntry, Storable, StartsWith, Linked, KeyedFirst;
    var d0 := if a.root.Some? then WriteAsset(disk, id, a.root.value) else disk;
    var d := WriteAssets(d0, id, a.assets, End(a.assets));
    var b := Committed(a);
    forall i | i in a.assets ensures AssetKey(id, i) != AssetKey(id, ROOT_INDEX) {
      AssetKeysDiffer(id, i, ROOT_INDEX);
    }
    WrittenAssets(d0, id, a.assets, End(a.assets), AssetKey(id, ROOT_INDEX));
    forall key | key in d && StartsWith(key, AssetPrefix(id)) ensures OwnKey(id, b, key) {
      WrittenAssets(d0, id, a.assets, End(a.assets), key);
      if key !in d0 {
        var i :| i in a.assets && key == AssetKey(id, i);
        assert i in b.assets;
      }
    }
  }

  lemma CommitHeaded(scheme: Scheme, meta: Meta, a: Account, disk: Disk)
    requires Chain(scheme, a) && meta.kind < 256 && a.lookup == Lookup(meta.kind)
    ensures Headed(meta, Committed(a), Commit(disk, meta, a))
  {
    hide WriteAssets, AccountData, PutVarInt, AccountKey, CountKey, TopKey, Linked, KeyedFirst;
    OtherKeysApart(meta.id);
    assert Committed(a).assets.Keys == a.assets.Keys;
    ContiguousCount(Committed(a).assets, |a.assets|);
  }

  lemma CommittedChain(scheme: Scheme, a: Account)
    requires Chain(scheme, a)
    ensures Chain(scheme, Committed(a))
  {
    var b := a.(root := if a.root.Some? then Some(a.root.value.(dirty := false)) else None);
    forall i | i in b.assets ensures LinkedAt(scheme, b, i) {
      assert LinkedAt(scheme, a, i);
    }
    CleanKeeps(scheme, b);
  }

  // ----- Main result --------------------------------------------------------

  /**
   After the first commit, however the chain was extended, keys filled, the cursor moved and other
   keys of the store written or erased since: loading the account ends and gives back the same
   root, asset map and last-used index.
   */
  lemma LoadsBackAfterEveryRun(curve: Curve, scheme: Scheme, meta: Meta, a: Account, disk: Disk, acts: seq<StoreAction>)
    requires Recordable(scheme) && ValidMeta(meta) && Chain(scheme, a) && a.lookup == Lookup(meta.kind)
    requires Uncommitted(curve, meta.id, a, disk)
    ensures var w := StoreRun(scheme, meta.id, Wallet(Committed(a), Commit(disk, meta, a)), acts);
            Load(curve, w.disk, AccountKey(meta.id)) == Loaded(meta, w.acc)
  {
    hide Recordable, Chain, Mirrors, Headed, Uncommitted, Commit, Committed, StoreRun, Load;
    var w := Wallet(Committed(a), Commit(disk, meta, a));
    CommittedChain(scheme, a);
    CommitMirrors(curve, scheme, meta, a, disk);
    CommitHeaded(scheme, meta, a, disk);
    RunKeepsSynced(curve, scheme, meta, w, acts);
    LoadsBack(curve, scheme, meta, StoreRun(scheme, meta.id, w, acts));
  }

  /** The premises can be met: a fresh legacy account with a root, over an empty store. */
  lemma SomeAccountQualifies() returns (curve: Curve, scheme: Scheme, meta: Meta, a: Account)
    ensures Recordable(scheme) && ValidMeta(meta) && Chain(scheme, a) && a.lookup == Lookup(meta.kind)
    ensures Uncommitted(curve, meta.id, a, map[])
  {
    var key := PublicKey(seq(65, i => 4), seq(33, i => 2));
    var priv := PrivateKey([], CipherData([1], Cipher([], [], seq(16, i => 0))));
    curve := Curve(b => key.compressed, b => key.uncompressed);
    scheme := Scheme(true, k => key, (k, i) => key, (k, i, iv) => priv);
    meta := Meta([0, 0, 0, 1], 0, 0, [0]);
    var root := Asset(-1, LegacyRoot(key, None, []), true);
    a := Account(Some(root), map[], 0xFFFF_FFFF, 100);
    SmallEntry(Single(key, None));
    SmallEntry(Single(key, Some(priv)));
    SmallEntry(root.entry);
    EntryReadsBack(curve, root.entry);
    assert Unwrap([0]) == Some([]) by { UnwrapsNothing(); }
  }

  lemma UnwrapsNothing()
    ensures Unwrap([0]) == Some([])
  {
  }

  lemma SmallEntry(e: Entry)
    requires ValidPublic(e.pub) && (e.Single? || (e.LegacyRoot? && e.chaincode == []))
    requires e.priv.Some? ==> |e.priv.value.id| < 200 && |PutCipherData(e.priv.value.data)| < 200
    ensures |EntryBody(e)| < 0x1_0000_0000
  {
  }
}
