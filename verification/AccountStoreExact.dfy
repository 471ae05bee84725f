/** What an operation leaves alone in the store, and what loading notices. */
module AccountStoreExact {
  import opened Wrappers
  import opened Bytes
  import opened KeyOrder
  import opened Records
  import opened AssetChain
  import opened AssetChainProof
  import opened AccountStore
  import opened AccountStoreProof

  // ----- What is left alone -------------------------------------------------

  ghost predicate SameAt(d: Disk, e: Disk, key: Bytes) { (key in d <==> key in e) && (key in d ==> d[key] == e[key]) }

  /** A chain operation touches no record but those of its own account. */
  lemma WritesOwnKeysOnly(scheme: Scheme, id: Bytes, w: Wallet, c: Action, key: Bytes)
    requires Chain(scheme, w.acc) && Outside(id, key)
    ensures SameAt(StoreNext(scheme, id, w, OnChain(c)).disk, w.disk, key)
  {
    hide Chain, UpdateOnDisk, AssetKey, AssetPrefix, StartsWith, After, Writes, Next, Linked, KeyedFirst;
    AfterKeeps(scheme, w.acc, c);
    var b := After(scheme, w.acc, c);
    var d := if c.GetNew? then WriteTop(w.disk, id, b) else w.disk;
    ChainIndices(scheme, b);
    forall i | i in b.assets ensures key != AssetKey(id, i) {
      AssetKeyReads(id, i);
    }
    KeyUntouched(d, id, b, key);
  }

  lemma ChainIndices(scheme: Scheme, a: Account)
    requires Chain(scheme, a)
    ensures Filed(a.assets) && forall i :: i in a.assets ==> i < 0x8000_0000
  {
  }

  /** Whether the operation goes through: it asks for an extension, and that does not throw. */
  predicate GoesThrough(scheme: Scheme, a: Account, c: Action) {
    var b := Started(a, c);
    Ask(b, c).Some? && Answer(scheme, b, Ask(b, c).value).Some?
  }

  /** One that asks for nothing or throws leaves account and store as they are, but for the cursor of `getNewAsset`. */
  lemma ThrowsLeavesAlone(scheme: Scheme, id: Bytes, w: Wallet, c: Action)
    requires !GoesThrough(scheme, w.acc, c)
    ensures var v := StoreNext(scheme, id, w, OnChain(c));
            && v.acc == (if c.GetNew? then Bumped(w.acc) else w.acc)
            && v.disk == (if c.GetNew? then WriteTop(w.disk, id, Bumped(w.acc)) else w.disk)
  {
    hide Ask, Answer, WriteTop, UpdateOnDisk;
  }

  // ----- What loading notices -----------------------------------------------

  /** A record under the prefix that cannot be read stops the collection. */
  lemma {:induction false} UnreadableStops(curve: Curve, disk: Disk, prefix: Bytes, keys: seq<Bytes>,
                                           root: Option<Asset>, assets: map<nat, Asset>, key: Bytes)
    requires Ascending(keys) && (forall k :: k in keys ==> k in disk && !Below(k, prefix))
    requires key in keys && StartsWith(key, prefix) && ParseAsset(curve, key, disk[key]).None?
    ensures !Collect(curve, disk, prefix, keys, root, assets).Collected?
    decreases |keys|
  {
    hide ParseAsset, StartsWith, Below;
    var first, rest := keys[0], keys[1..];
    assert keys == [first] + rest;
    if first != key {
      var j :| 0 < j < |keys| && keys[j] == key;
      assert Below(first, key);
      PrefixRange(prefix, key, first);
      var x := ParseAsset(curve, first, disk[first]);
      if first != prefix && x.Some? {
        var i := Unsigned(x.value.index);
        if i == ROOT_INDEX {
          UnreadableStops(curve, disk, prefix, rest, x, assets, key);
        } else {
          UnreadableStops(curve, disk, prefix, rest, root, if i in assets then assets else assets[i := x.value], key);
        }
      }
    }
  }

  /** An account with any record under its prefix that cannot be read is not loaded, whatever else is in the store. */
  lemma UnreadableIsNoticed(curve: Curve, disk: Disk, id: Bytes, key: Bytes)
    requires key in disk && StartsWith(key, AssetPrefix(id)) && ParseAsset(curve, key, disk[key]).None?
    ensures !Load(curve, disk, AccountKey(id)).Loaded?
  {
    hide Collect, LoadHead, Seek, InOrder, AssetPrefix, ParseAsset, StartsWith, Below;
    assert AccountKey(id)[1..] == id;
    InOrderSorted(disk.Keys);
    SeekFacts(InOrder(disk.Keys), AssetPrefix(id));
    PrefixNotAbove(AssetPrefix(id), key);
    UnreadableStops(curve, disk, AssetPrefix(id), Seek(InOrder(disk.Keys), AssetPrefix(id)), None, map[], key);
  }

  /** An asset that is lost from a store in sync is noticed by the count. */
  lemma LostAssetIsNoticed(curve: Curve, scheme: Scheme, meta: Meta, w: Wallet, i: nat)
    requires ValidMeta(meta) && Synced(curve, scheme, meta, w) && i in w.acc.assets
    ensures Load(curve, w.disk - {AssetKey(meta.id, i)}, AccountKey(meta.id)) == LoadThrows
  {
    hide Collect, LoadHead, Seek, InOrder, AssetPrefix, AssetKey, Mirrors, Headed, ValidMeta, Chain;
    var id, a, disk := meta.id, w.acc, w.disk - {AssetKey(meta.id, i)};
    ChainIndices(scheme, a);
    ChainCount(scheme, a);
    HeadStays(meta, a, w.disk, i);
    HeadReadsBack(meta, a, disk);
    CollectsFewer(curve, scheme, id, a, w.disk, i);
    assert AccountKey(id)[1..] == id;
    assert a.assets.Keys == (a.assets - {i}).Keys + {i};
  }

  lemma ChainCount(scheme: Scheme, a: Account)
    requires Chain(scheme, a)
    ensures |a.assets| < 0x1_0000_0000 && (a.root.Some? ==> a.root.value.index == -1)
  {
  }

  lemma CollectsFewer(curve: Curve, scheme: Scheme, id: Bytes, a: Account, disk: Disk, i: nat)
    requires Chain(scheme, a) && Mirrors(curve, id, a, disk) && i in a.assets
    ensures var d, prefix := disk - {AssetKey(id, i)}, AssetPrefix(id);
            Collect(curve, d, prefix, Seek(InOrder(d.Keys), prefix), None, map[]) == Collected(a.root, a.assets - {i})
  {
    hide Collect, Seek, InOrder, AssetPrefix, AssetKey, Mirrors, Partway, Chain, Filed, Below;
    var b, d := a.(assets := a.assets - {i}), disk - {AssetKey(id, i)};
    ChainIndices(scheme, a);
    ChainCount(scheme, a);
    FewerMirrored(curve, id, a, disk, i);
    InOrderSorted(d.Keys);
    SeekFacts(InOrder(d.Keys), AssetPrefix(id));
    MirrorHolds(curve, id, b, d);
    AllAhead(curve, id, b, d);
    CollectsAll(curve, id, b, d, Seek(InOrder(d.Keys), AssetPrefix(id)), None, map[]);
  }

  lemma MirrorHolds(curve: Curve, id: Bytes, a: Account, disk: Disk)
    requires Mirrors(curve, id, a, disk)
    ensures AllHeld(curve, id, a, disk)
  {
  }

  lemma FewerMirrored(curve: Curve, id: Bytes, a: Account, disk: Disk, i: nat)
    requires Mirrors(curve, id, a, disk) && Filed(a.assets) && i in a.assets
    requires forall j :: j in a.assets ==> j < 0x8000_0000
    requires a.root.Some? ==> a.root.value.index == -1
    ensures var b := a.(assets := a.assets - {i});
            Mirrors(curve, id, b, disk - {AssetKey(id, i)}) && Filed(b.assets)
  {
    hide AssetKey, WriteEntry, Storable, StartsWith, AssetPrefix;
    var b, d := a.(assets := a.assets - {i}), disk - {AssetKey(id, i)};
    forall j | j in b.assets ensures Holds(curve, d, id, b.assets[j]) {
      assert Holds(curve, disk, id, a.assets[j]);
      AssetKeysDiffer(id, j, i);
    }
    AssetKeysDiffer(id, ROOT_INDEX, i);
    forall key | key in d && StartsWith(key, AssetPrefix(id)) ensures OwnKey(id, b, key) {
      assert OwnKey(id, a, key);
      if !(a.root.Some? && key == AssetKey(id, ROOT_INDEX)) {
        var j :| j in a.assets && key == AssetKey(id, j);
        assert j in b.assets;
      }
    }
  }

  lemma HeadStays(meta: Meta, a: Account, disk: Disk, i: nat)
    requires Headed(meta, a, disk) && i < 0x1_0000_0000
    ensures Headed(meta, a, disk - {AssetKey(meta.id, i)})
  {
    hide AssetPrefix, StartsWith, AccountData;
    OtherKeysApart(meta.id);
    AssetKeyReads(meta.id, i);
  }

  // ----- What is loaded -----------------------------------------------------

  /** The asset is what a record under the prefix says, and the record's key ends with its index. */
  ghost predicate OnRecord(curve: Curve, disk: Disk, prefix: Bytes, i: nat, x: Asset) {
    exists key :: && key in disk && StartsWith(key, prefix) && |key| >= 5 && IndexIn(key) == i
                  && ReadEntry(curve, disk[key]) == Some(x.entry) && x.index == Signed(i) && !x.dirty
  }

  ghost predicate AllOnRecord(curve: Curve, disk: Disk, prefix: Bytes, root: Option<Asset>, assets: map<nat, Asset>) {
    && (root.Some? ==> OnRecord(curve, disk, prefix, ROOT_INDEX, root.value))
    && (forall i :: i in assets ==> i != ROOT_INDEX && OnRecord(curve, disk, prefix, i, assets[i]))
  }

  lemma ParsedIsOnRecord(curve: Curve, disk: Disk, prefix: Bytes, key: Bytes)
    requires key in disk && StartsWith(key, prefix) && ParseAsset(curve, key, disk[key]).Some?
    ensures var x := ParseAsset(curve, key, disk[key]).value; OnRecord(curve, disk, prefix, Unsigned(x.index), x)
  {
    hide ReadEntry, StartsWith;
    Spans();
    FromBigEndianWritesBack(key[|key| - 4..]);
  }

  lemma {:induction false} CollectedIsOnRecord(curve: Curve, disk: Disk, prefix: Bytes, keys: seq<Bytes>,
                                               root: Option<Asset>, assets: map<nat, Asset>)
    requires (forall k :: k in keys ==> k in disk) && AllOnRecord(curve, disk, prefix, root, assets)
    ensures var r := Collect(curve, disk, prefix, keys, root, assets);
            r.Collected? ==> AllOnRecord(curve, disk, prefix, r.root, r.assets)
    decreases |keys|
  {
    hide ParseAsset, StartsWith, OnRecord, Unsigned;
    if keys != [] && keys[0] != prefix && StartsWith(keys[0], prefix) {
      var x := ParseAsset(curve, keys[0], disk[keys[0]]);
      if x.Some? {
        ParsedIsOnRecord(curve, disk, prefix, keys[0]);
        var i := Unsigned(x.value.index);
        if i == ROOT_INDEX {
          CollectedIsOnRecord(curve, disk, prefix, keys[1..], x, assets);
        } else {
          var more := if i in assets then assets else assets[i := x.value];
          CollectedIsOnRecord(curve, disk, prefix, keys[1..], root, more);
        }
      }
    }
  }

  /**
   What is loaded from any store at all: an account of a known kind, whose assets are as many as the count
   record says and each what a record of its own index says, with the cursor on record and the look-up of its kind.
   */
  lemma LoadIsSound(curve: Curve, disk: Disk, key: Bytes)
    ensures Load(curve, disk, key).Loaded? ==>
              var Loaded(meta, a) := Load(curve, disk, key);
              && key != [] && key[0] == 0xE1 && LoadHead(disk, key[1..]) == Some((meta, |a.assets|, a.lastUsed))
              && AllOnRecord(curve, disk, AssetPrefix(key[1..]), a.root, a.assets)
              && ((meta.kind == 0 && a.lookup == 100) || (meta.kind == 1 && a.lookup == 1))
  {
    hide LoadHead, Collect, Seek, InOrder, AssetPrefix, OnRecord;
    if Load(curve, disk, key).Loaded? {
      var prefix := AssetPrefix(key[1..]);
      CollectedIsOnRecord(curve, disk, prefix, Seek(InOrder(disk.Keys), prefix), None, map[]);
    }
  }
}
