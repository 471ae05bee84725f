/** The asset account as the object it is: its operations, in place, with their loops (`AssetAccount`). */
module AssetAccount {
  import opened Wrappers
  import opened Bytes
  import opened BinaryIO
  import opened KeyOrder
  import opened Records
  import opened AssetChain
  import opened AssetChainProof
  import opened AccountStore
  import Index = AddressIndex

  class AssetAccount {
    const scheme: Scheme
    const id: Bytes
    const lookup: u32
    var root: Option<Asset>
    var assets: map<nat, Asset>
    var lastUsedIndex: u32
    var disk: Disk
    var addrHashMap: map<Bytes, map<Index.AddrType, Bytes>>
    var lastHashedAsset: u32

    function View(): Account
      reads this
    {
      Account(root, assets, lastUsedIndex, lookup)
    }

    function HashView(): Index.Sub
      reads this
    {
      Index.Sub(id, scheme, View(), addrHashMap, lastHashedAsset)
    }

    constructor (scheme: Scheme, id: Bytes, lookup: u32, root: Option<Asset>, disk: Disk)
      ensures View() == Account(root, map[], 0xFFFF_FFFF, lookup) && this.disk == disk
      ensures HashView() == Index.Sub(id, scheme, View(), map[], 0xFFFF_FFFF)
    {
      this.scheme, this.id, this.lookup, this.root, this.disk := scheme, id, lookup, root, disk;
      assets, lastUsedIndex, addrHashMap, lastHashedAsset := map[], 0xFFFF_FFFF, map[], 0xFFFF_FFFF;
    }

    // ----- Writing ----------------------------------------------------------

    /** Flagged assets are written, in order, and no longer flagged. */
    method WriteAssetEntries()
      modifies `assets, `disk
      ensures disk == WriteAssets(old(disk), id, old(assets), End(old(assets)))
      ensures View() == Cleaned(old(View()))
    {
      hide WriteEntry, AssetKey;
      for i := 0 to End(assets)
        invariant disk == WriteAssets(old(disk), id, old(assets), i)
        invariant assets.Keys == old(assets).Keys
        invariant forall j :: j in assets ==>
                    assets[j] == if j < i then old(assets)[j].(dirty := false) else old(assets)[j]
      {
        if i in assets && assets[i].dirty {
          disk := disk[AssetKey(id, Unsigned(assets[i].index)) := WriteEntry(assets[i].entry)];
          assets := assets[i := assets[i].(dirty := false)];
        }
      }
      assert assets == Cleaned(old(View())).assets;
    }

    method UpdateAssetCount()
      modifies `disk
      ensures disk == WriteCount(old(disk), id, View())
    {
      disk := disk[CountKey(id) := PutVarInt(|assets|, [])];
    }

    method UpdateOnDiskAssets()
      modifies `assets, `disk
      ensures disk == UpdateOnDisk(old(disk), id, old(View()))
      ensures View() == Cleaned(old(View()))
    {
      hide WriteAssets, PutVarInt;
      WriteAssetEntries();
      CleanedCount(old(View()));
      UpdateAssetCount();
    }

    lemma CleanedCount(a: Account)
      ensures |Cleaned(a).assets| == |a.assets|
    {
      assert Cleaned(a).assets.Keys == a.assets.Keys;
    }

    method CommitAccount(meta: Meta)
      requires meta.id == id && meta.kind < 256
      modifies `root, `assets, `disk
      ensures disk == Commit(old(disk), meta, old(View()))
      ensures View() == Committed(old(View()))
    {
      hide WriteAssets, PutVarInt, WriteEntry, AssetKey, AccountData;
      if root.Some? {
        if root.value.dirty {
          disk := disk[AssetKey(id, Unsigned(root.value.index)) := WriteEntry(root.value.entry)];
        }
        root := Some(root.value.(dirty := false));
      }
      WriteAssetEntries();
      disk := disk[AccountKey(id) := AccountData(meta)];
      CleanedCount(old(View()));
      UpdateAssetCount();
      UpdateHighestUsedIndex();
    }

    method UpdateHighestUsedIndex()
      modifies `disk
      ensures disk == WriteTop(old(disk), id, View())
    {
      disk := disk[TopKey(id) := PutVarInt(lastUsedIndex, [])];
    }

    // ----- Extending --------------------------------------------------------

    /** The derivation loop; a legacy key is read from the asset before. */
    method Derive(from: PublicKey, start: nat, n: nat, iv: Option<nat>) returns (news: seq<Asset>)
      ensures news == Derived(scheme, from, start, n, iv)
    {
      hide Derived;
      news := [];
      var source := from;
      ghost var all := Derived(scheme, from, start, n, iv);
      for j := 0 to n
        invariant news == all[..j]
        invariant source == if scheme.legacy && j > 0 then all[j - 1].entry.pub else from
      {
        DerivedKeys(scheme, from, start, n, iv, j);
        var key := Step(scheme, source, start + j);
        news := news + [NewAsset(scheme, key, start + j, iv)];
        if scheme.legacy {
          source := key;
        }
      }
    }

    method Insert(news: seq<Asset>, private: bool)
      requires forall j :: 0 <= j < |news| ==> news[j].index >= 0
      modifies `assets
      ensures assets == Inserted(old(assets), news, private)
    {
      assert news[0..] == news;
      for j := 0 to |news|
        invariant Inserted(old(assets), news, private) == Inserted(assets, news[j..], private)
      {
        assert news[j..][1..] == news[j + 1..];
        var i := news[j].index;
        if !(i in assets && (private ==> HasKey(assets[i]))) {
          assets := assets[i := news[j]];
        }
      }
    }

    /** Nothing is touched when it throws; else all that is flagged is written, unless nothing was asked for. */
    method ExtendChain(origin: Option<Asset>, count: u32, iv: Option<nat>) returns (ok: bool)
      modifies `assets, `disk
      ensures var r := Extended(scheme, old(View()), origin, count, iv);
              && ok == r.Some?
              && View() == (if r.None? then old(View()) else if count == 0 then r.value else Cleaned(r.value))
              && disk == if r.None? || count == 0 then old(disk) else UpdateOnDisk(old(disk), id, r.value)
    {
      hide Derived, Inserted, UpdateOnDisk, Unsigned;
      if count == 0 {
        return true;
      }
      if origin.None? && (iv.None? || scheme.legacy) {
        return false;
      }
      if !scheme.legacy && iv.Some? && root.None? {
        return false;
      }
      var index := if origin.None? then -1 else origin.value.index;
      var start, end := Unsigned(index + 1), Unsigned(index + count);
      if start <= end {
        if end > 0x7FFF_FFFF {
          return false;
        }
        var source := if scheme.legacy then origin else root;
        if source.None? || (iv.Some? && !HasKey(source.value)) {
          return false;
        }
        var news := Derive(source.value.entry.pub, start, end - start + 1, iv);
        Insert(news, iv.Some?);
      }
      UpdateOnDiskAssets();
      return true;
    }

    /** From the highest index below the bound down to the first private key. */
    method GetLastAssetWithPrivateKey(bound: nat) returns (r: Option<Asset>)
      ensures r == LastKeyed(assets, bound)
    {
      var i := if bound < End(assets) then bound else End(assets);
      assert forall j :: j in assets ==> j < End(assets);
      while i > 0
        invariant forall j :: j in assets && i <= j < bound ==> !HasKey(assets[j])
        invariant i <= bound
      {
        i := i - 1;
        if i in assets && HasKey(assets[i]) {
          assert i in KeyedBelow(assets, bound);
          return Some(assets[i]);
        }
      }
      return None;
    }

    // Each operation is a step of the account with its store.

    method ExtendPublicChain(count: u32)
      modifies this
      ensures Wallet(View(), disk) == StoreNext(scheme, id, Wallet(old(View()), old(disk)), OnChain(PublicBy(count)))
      ensures addrHashMap == old(addrHashMap) && lastHashedAsset == old(lastHashedAsset)
    {
      hide Extended, UpdateOnDisk;
      var ok := ExtendChain(LastAsset(View()), count, None);
    }

    method ExtendPublicChainToIndex(count: u32)
      modifies this
      ensures Wallet(View(), disk) == StoreNext(scheme, id, Wallet(old(View()), old(disk)), OnChain(PublicTo(count)))
      ensures addrHashMap == old(addrHashMap) && lastHashedAsset == old(lastHashedAsset)
    {
      hide Extended, UpdateOnDisk;
      var last := LastComputed(View());
      if last <= count {
        var ok := ExtendChain(LastAsset(View()), count - last, None);
      }
    }

    method ExtendPrivateChain(count: u32, iv: nat)
      modifies this
      ensures Wallet(View(), disk) ==
              StoreNext(scheme, id, Wallet(old(View()), old(disk)), OnChain(PrivateBy(count, iv)))
      ensures addrHashMap == old(addrHashMap) && lastHashedAsset == old(lastHashedAsset)
    {
      hide Extended, UpdateOnDisk, LastKeyed;
      var top := GetLastAssetWithPrivateKey(ALL);
      var ok := ExtendChain(top, count, Some(iv));
    }

    method ExtendPrivateChainToIndex(index: u32, iv: nat)
      modifies this
      ensures Wallet(View(), disk) ==
              StoreNext(scheme, id, Wallet(old(View()), old(disk)), OnChain(PrivateTo(index, iv)))
      ensures addrHashMap == old(addrHashMap) && lastHashedAsset == old(lastHashedAsset)
    {
      hide Extended, UpdateOnDisk, LastKeyed;
      var top := GetLastAssetWithPrivateKey(ALL);
      var topIndex := if top.Some? then top.value.index else 0;
      if 0 <= topIndex < index {
        var ok := ExtendChain(top, index - topIndex, Some(iv));
      }
    }

    method FillPrivateKey(index: u32, iv: nat) returns (ok: bool)
      modifies this
      ensures ok == AssetChain.FillPrivateKey(scheme, old(View()), index, iv).Some?
      ensures Wallet(View(), disk) == StoreNext(scheme, id, Wallet(old(View()), old(disk)), OnChain(Fill(index, iv)))
      ensures addrHashMap == old(addrHashMap) && lastHashedAsset == old(lastHashedAsset)
    {
      hide Extended, UpdateOnDisk, LastKeyed;
      if index !in assets {
        return false;
      }
      if HasKey(assets[index]) {
        return true;
      }
      var keyed := GetLastAssetWithPrivateKey(index);
      var prev := if keyed.Some? then keyed else root;
      if prev.None? {
        return false;
      }
      ok := ExtendChain(prev, Unsigned(index - prev.value.index), Some(iv));
    }

    /** The cursor moves and is written before the asset is looked for. */
    method GetNewAsset() returns (r: Option<Asset>)
      modifies this
      ensures r == NewAssetOf(scheme, old(View()))
      ensures Wallet(View(), disk) == StoreNext(scheme, id, Wallet(old(View()), old(disk)), OnChain(GetNew))
      ensures addrHashMap == old(addrHashMap) && lastHashedAsset == old(lastHashedAsset)
    {
      hide Extended, UpdateOnDisk, PutVarInt, LastAsset;
      lastUsedIndex := (lastUsedIndex + 1) % 0x1_0000_0000;
      UpdateHighestUsedIndex();
      if lastUsedIndex !in assets {
        var ok := ExtendChain(LastAsset(View()), lookup, None);
        if lastUsedIndex !in assets {
          return None;
        }
      }
      return Some(assets[lastUsedIndex]);
    }

    method PeekNextAsset() returns (r: Option<Asset>)
      modifies this
      ensures Wallet(View(), disk) == StoreNext(scheme, id, Wallet(old(View()), old(disk)), OnChain(Peek))
      ensures var i := Bumped(old(View())).lastUsed; r == if i in assets then Some(assets[i]) else None
      ensures addrHashMap == old(addrHashMap) && lastHashedAsset == old(lastHashedAsset)
    {
      hide Extended, UpdateOnDisk, LastAsset;
      var index := (lastUsedIndex + 1) % 0x1_0000_0000;
      if index !in assets {
        var ok := ExtendChain(LastAsset(View()), lookup, None);
        if index !in assets {
          return None;
        }
      }
      return Some(assets[index]);
    }

    // ----- Hashing ----------------------------------------------------------

    method UpdateAddressHashMap(h: Index.Hasher, types: set<Index.AddrType>)
      requires forall i :: i in assets ==> i < 0x1_0000_0000
      modifies `addrHashMap, `lastHashedAsset
      ensures HashView() == Index.UpdateHashes(h, types, old(HashView()))
    {
      hide Index.HashOne, Index.HashFrom;
      var i := if lastHashedAsset in assets then lastHashedAsset + 1 else 0;
      var end := End(assets);
      assert forall j :: j in assets ==> j < end;
      ghost var goal := Index.UpdateHashes(h, types, HashView());
      assert goal == Index.HashFrom(h, types, HashView(), i, 0x1_0000_0000);
      hide Index.UpdateHashes;
      while i < end
        invariant goal == Index.HashFrom(h, types, HashView(), i, 0x1_0000_0000)
      {
        HashNext(h, types, HashView(), i);
        if i in assets {
          HashAsset(h, types, i);
        }
        i := i + 1;
      }
      NothingLeft(h, types, HashView(), i, 0x1_0000_0000);
    }

    lemma HashNext(h: Index.Hasher, types: set<Index.AddrType>, sub: Index.Sub, i: nat)
      requires i < 0x1_0000_0000
      ensures Index.HashFrom(h, types, sub, i, 0x1_0000_0000) ==
              Index.HashFrom(h, types, if i in sub.acc.assets then Index.HashOne(h, types, sub, i) else sub, i + 1,
                             0x1_0000_0000)
    {
    }

    method HashAsset(h: Index.Hasher, types: set<Index.AddrType>, i: u32)
      requires i in assets
      modifies `addrHashMap, `lastHashedAsset
      ensures HashView() == Index.HashOne(h, types, old(HashView()), i)
    {
      var assetId := Index.AssetId(id, i);
      if assetId !in addrHashMap {
        addrHashMap := addrHashMap[assetId := map[]];
      }
      var hashes, todo := addrHashMap[assetId], types;
      while todo != {}
        invariant todo <= types
        invariant hashes == (map t | t in types && t !in todo :: h(assets[i].entry.pub, t)) + addrHashMap[assetId]
        decreases |todo|
      {
        var t :| t in todo;
        if t !in hashes {
          hashes := hashes[t := h(assets[i].entry.pub, t)];
        }
        todo := todo - {t};
      }
      assert hashes == Index.TypeHashes(h, assets[i].entry.pub, types) + addrHashMap[assetId];
      assert addrHashMap[assetId := hashes] == old(addrHashMap)[assetId := hashes];
      addrHashMap := addrHashMap[assetId := hashes];
      lastHashedAsset := i;
    }

    lemma NothingLeft(h: Index.Hasher, types: set<Index.AddrType>, sub: Index.Sub, i: nat, end: nat)
      requires (forall j :: j in sub.acc.assets ==> j < i) && end <= 0x1_0000_0000
      ensures Index.HashFrom(h, types, sub, i, end) == sub
      decreases end - i
    {
      if i < end {
        NothingLeft(h, types, sub, i + 1, end);
      }
    }
  }

  // ----- Loading ------------------------------------------------------------

  /** The loop of `loadFromDisk` over the keys from the prefix on. */
  method CollectAssets(curve: Curve, disk: Disk, prefix: Bytes, keys: seq<Bytes>) returns (r: Collection)
    requires forall k :: k in keys ==> k in disk
    ensures r == Collect(curve, disk, prefix, keys, None, map[])
  {
    hide ParseAsset;
    var root: Option<Asset>, assets: map<nat, Asset>, i: nat := None, map[], 0;
    assert keys[0..] == keys;
    while i < |keys|
      invariant i <= |keys|
      invariant Collect(curve, disk, prefix, keys, None, map[]) == Collect(curve, disk, prefix, keys[i..], root, assets)
    {
      var key := keys[i];
      assert keys[i..][1..] == keys[i + 1..];
      if key == prefix {
        return Diverges;
      }
      if !(prefix <= key) {
        return Collected(root, assets);
      }
      var x := ParseAsset(curve, key, disk[key]);
      if x.None? {
        return Throws;
      }
      var index := Unsigned(x.value.index);
      if index == ROOT_INDEX {
        root := x;
      } else if index !in assets {
        assets := assets[index := x.value];
      }
      i := i + 1;
    }
    return Collected(root, assets);
  }

  method LoadFromDisk(curve: Curve, disk: Disk, key: Bytes) returns (r: LoadResult)
    ensures r == Load(curve, disk, key)
  {
    hide LoadHead, Collect, InOrder;
    if |key| == 0 || key[0] != 0xE1 {
      return LoadThrows;
    }
    var id := key[1..];
    var head := LoadHead(disk, id);
    if head.None? {
      return LoadThrows;
    }
    var (meta, count, top) := head.value;
    var prefix := AssetPrefix(id);
    var keys := KeysInOrder(disk.Keys);
    var at := 0;
    assert keys[0..] == keys;
    while at < |keys| && Below(keys[at], prefix)
      invariant at <= |keys| && Seek(keys, prefix) == Seek(keys[at..], prefix)
    {
      at := at + 1;
    }
    var found := CollectAssets(curve, disk, prefix, keys[at..]);
    match found {
      case Diverges => return LoadDiverges;
      case Throws => return LoadThrows;
      case Collected(root, assets) =>
        if count != |assets| || meta.kind > 1 {
          return LoadThrows;
        }
        return Loaded(meta, Account(root, assets, top, Lookup(meta.kind)));
    }
  }
}
