/** The address account as the object it is: hash index, new addresses and addresses in use (`AddressAccount`). */
module AddressAccount {
  import opened Wrappers
  import opened Bytes
  import opened KeyOrder
  import opened AssetChain
  import opened UsedAddresses
  import Index = AddressIndex

  method TypesInOrder(s: set<Index.AddrType>) returns (types: seq<Index.AddrType>)
    ensures types == Index.AscendingTypes(s)
  {
    types := [];
    var todo := s;
    while todo != {}
      invariant Index.AscendingTypes(todo) + types == Index.AscendingTypes(s)
      decreases |todo|
    {
      var x := Highest(todo);
      var rest := todo - {x};
      assert (Index.AscendingTypes(rest) + [x]) + types == Index.AscendingTypes(rest) + ([x] + types);
      types := [x] + types;
      todo := rest;
    }
  }

  /**
   The asset accounts are values here, so that one map is the whole state of the index. The source holds
   shared pointers and hands them out; what is done to an account through such a pointer is, in the runs
   of `AddressIndex`, a step of its own (`OnChain`, `HashAccount`). The methods of `AssetAccount`, on
   objects, are proved against the functions used here.
   */
  class AddressAccount {
    const types: set<u32>
    const defaultType: u32
    var assetAccounts: map<Bytes, Index.Sub>
    var topHashedAssetId: map<Bytes, Bytes>
    var addressHashes: map<Bytes, (Bytes, Index.AddrType)>
    var addresses: map<Bytes, u32>
    ghost var log: seq<(Bytes, u32)>

    function IndexView(): Index.AddressAccount
      reads this
    {
      Index.AddressAccount(assetAccounts, types, topHashedAssetId, addressHashes)
    }

    ghost function BookView(): Book
      reads this
    {
      Book(map a | a in assetAccounts :: KeeperOf(assetAccounts[a]), types, defaultType, addresses, log)
    }

    constructor (types: set<u32>, defaultType: u32, accounts: map<Bytes, Index.Sub>)
      ensures IndexView() == Index.AddressAccount(accounts, types, map[], map[])
      ensures this.defaultType == defaultType && addresses == map[] && log == []
    {
      this.types, this.defaultType, assetAccounts := types, defaultType, accounts;
      topHashedAssetId, addressHashes, addresses, log := map[], map[], map[], [];
    }

    // ----- Hash index -------------------------------------------------------

    method AddAsset(id: Bytes, hashes: map<Index.AddrType, Bytes>)
      modifies `addressHashes
      ensures addressHashes == Index.AddTypes(old(addressHashes), id, hashes, Index.AscendingTypes(hashes.Keys))
    {
      var order := TypesInOrder(hashes.Keys);
      assert order[0..] == order;
      for i := 0 to |order|
        invariant Index.AddTypes(old(addressHashes), id, hashes, order) ==
                  Index.AddTypes(addressHashes, id, hashes, order[i..])
      {
        assert order[i..][1..] == order[i + 1..];
        var hash := hashes[order[i]];
        if hash !in addressHashes {
          addressHashes := addressHashes[hash := (id, order[i])];
        }
      }
    }

    method AddAssets(hashes: map<Bytes, map<Index.AddrType, Bytes>>, ids: seq<Bytes>)
      requires forall id :: id in ids ==> id in hashes
      modifies `addressHashes
      ensures addressHashes == Index.AddIds(old(addressHashes), hashes, ids)
    {
      hide Index.AddTypes, Index.AscendingTypes;
      assert ids[0..] == ids;
      for i := 0 to |ids|
        invariant Index.AddIds(old(addressHashes), hashes, ids) == Index.AddIds(addressHashes, hashes, ids[i..])
      {
        assert ids[i..][1..] == ids[i + 1..];
        AddAsset(ids[i], hashes[ids[i]]);
      }
    }

    /** One asset account: hash what is new in it, and add what comes after its last indexed asset. */
    method UpdateAccount(h: Index.Hasher, acc: Bytes)
      requires acc in assetAccounts
      modifies `assetAccounts, `topHashedAssetId, `addressHashes
      ensures IndexView() == Index.UpdateOne(h, old(IndexView()), acc)
    {
      hide Index.UpdateHashes, Index.AddIds, Index.AfterKey, InOrder;
      var sub := Index.UpdateHashes(h, types, assetAccounts[acc]);
      assetAccounts := assetAccounts[acc := sub];
      if sub.hashes == map[] {
        return;
      }
      var ids := KeysInOrder(sub.hashes.Keys);
      var news := if acc in topHashedAssetId then Index.AfterKey(ids, topHashedAssetId[acc]) else ids;
      if news == [] {
        return;
      }
      AddAssets(sub.hashes, news);
      topHashedAssetId := topHashedAssetId[acc := ids[|ids| - 1]];
    }

    method UpdateAddressHashMap(h: Index.Hasher)
      modifies `assetAccounts, `topHashedAssetId, `addressHashes
      ensures IndexView() == Index.Update(h, old(IndexView()))
    {
      hide Index.UpdateOne, InOrder, Index.UpdateEach;
      var accs := KeysInOrder(assetAccounts.Keys);
      assert accs[0..] == accs;
      for i := 0 to |accs|
        invariant assetAccounts.Keys == old(assetAccounts).Keys
        invariant Index.Update(h, old(IndexView())) == Index.UpdateEach(h, IndexView(), accs[i..])
      {
        assert accs[i..][1..] == accs[i + 1..];
        ghost var before := IndexView();
        EachStep(h, before, accs[i..]);
        UpdateAccount(h, accs[i]);
        SameAccounts(h, before, accs[i]);
      }
      EachStep(h, IndexView(), []);
    }

    lemma EachStep(h: Index.Hasher, x: Index.AddressAccount, accs: seq<Bytes>)
      requires forall a :: a in accs ==> a in x.subs
      ensures accs == [] ==> Index.UpdateEach(h, x, accs) == x
      ensures accs != [] ==>
                && Index.UpdateOne(h, x, accs[0]).subs.Keys == x.subs.Keys
                && Index.UpdateEach(h, x, accs) == Index.UpdateEach(h, Index.UpdateOne(h, x, accs[0]), accs[1..])
    {
      hide Index.UpdateOne;
      if accs != [] {
        SameAccounts(h, x, accs[0]);
      }
    }

    lemma SameAccounts(h: Index.Hasher, x: Index.AddressAccount, acc: Bytes)
      requires acc in x.subs
      ensures Index.UpdateOne(h, x, acc).subs.Keys == x.subs.Keys
    {
    }

    // ----- Addresses --------------------------------------------------------

    method UpdateInstantiatedAddressType(id: Bytes, w: u32)
      modifies `addresses
      ensures addresses == Recorded(old(addresses), defaultType, id, w)
    {
      if id in addresses {
        if addresses[id] == w {
          return;
        }
        if w == defaultType {
          addresses := addresses - {id};
          return;
        }
      }
      addresses := addresses[id := w];
    }

    /** Whether an address is returned, the account's cursor has moved once its type is known. */
    method GetNewAddress(account: Bytes, asked: u32) returns (r: Option<Address>)
      modifies `assetAccounts, `addresses, `log
      ensures BookView() == NewAddress(old(BookView()), account, asked)
      ensures r.Some? <==> |log| > |old(log)|
      ensures r.Some? ==> log[|log| - 1].1 in types && r == Instantiate(log[|log| - 1].1)
    {
      hide Next, NewAssetOf, Instantiate, TypeOf, Recorded, Index.AssetId;
      if account !in assetAccounts {
        return None;
      }
      var w := if asked == 0 then defaultType else asked;
      if w !in types {
        return None;
      }
      var sub := assetAccounts[account];
      var asset := NewAssetOf(sub.scheme, sub.acc);
      assetAccounts := assetAccounts[account := sub.(acc := Next(sub.scheme, sub.acc, GetNew))];
      assert BookView().accounts ==
             old(BookView()).accounts[account := KeeperOf(sub).(acc := Next(sub.scheme, sub.acc, GetNew))];
      var address := Instantiate(w);
      if asset.None? || address.None? {
        return None;
      }
      var id := Index.AssetId(sub.id, Unsigned(asset.value.index));
      log := log + [(id, w)];
      if w != defaultType {
        TypeMakesAddressAgain(w);
        UpdateInstantiatedAddressType(id, TypeOf(address.value));
      }
      return address;
    }

    /** The addresses in use of one account, added to those found; None where it throws. */
    method UsedOfAccount(sub: Index.Sub, found: map<Bytes, Address>) returns (r: Option<map<Bytes, Address>>)
      requires OnFileAll(found)
      ensures r.Some? <==> AllFindable(sub)
      ensures r.Some? ==> OnFileAll(r.value) && forall id :: id in r.value <==> id in found || IsUsed(sub, id)
    {
      hide Instantiate, Index.AssetId, UsedCount;
      var result := found;
      for i := 0 to UsedCount(KeeperOf(sub))
        invariant forall j: nat :: j < i ==> Findable(sub, j)
        invariant forall id :: id in result <==> id in found || exists j: nat :: j < i && id == Index.AssetId(sub.id, j)
        invariant OnFileAll(result)
      {
        var id := Index.AssetId(sub.id, i);
        var address := Instantiate(OnFile(id));
        if i !in sub.acc.assets || address.None? {
          assert !Findable(sub, i);
          return None;
        }
        if id !in result {
          result := result[id := address.value];
        }
      }
      return Some(result);
    }

    method GetUsedAddressMap() returns (r: Option<map<Bytes, Address>>)
      ensures r == UsedMap(BookView())
    {
      hide Instantiate, Index.AssetId, UsedCount, UsedMap, Findable;
      var result := map[];
      var todo := assetAccounts.Keys;
      while todo != {}
        invariant todo <= assetAccounts.Keys
        invariant forall a :: a in assetAccounts && a !in todo ==> AllFindable(assetAccounts[a])
        invariant forall id :: id in result <==>
                    exists a :: a in assetAccounts && a !in todo && IsUsed(assetAccounts[a], id)
        invariant OnFileAll(result)
        decreases |todo|
      {
        var a :| a in todo;
        var more := UsedOfAccount(assetAccounts[a], result);
        if more.None? {
          Throws(a);
          return None;
        }
        result := more.value;
        todo := todo - {a};
      }
      FoundAll(result);
      return Some(result);
    }

    lemma Throws(a: Bytes)
      requires a in assetAccounts && !AllFindable(assetAccounts[a])
      ensures UsedMap(BookView()) == None
    {
      hide Instantiate, Index.AssetId, UsedCount;
      var b, sub := BookView(), assetAccounts[a];
      var i: nat :| i < UsedCount(KeeperOf(sub)) && !Findable(sub, i);
      assert a in b.accounts && b.accounts[a] == KeeperOf(sub);
      if i in sub.acc.assets {
        assert Index.AssetId(b.accounts[a].id, i) in UsedIds(b);
      }
    }

    lemma FoundAll(result: map<Bytes, Address>)
      requires forall a :: a in assetAccounts ==> AllFindable(assetAccounts[a])
      requires forall id :: id in result <==> exists a :: a in assetAccounts && IsUsed(assetAccounts[a], id)
      requires OnFileAll(result)
      ensures UsedMap(BookView()) == Some(result)
    {
      hide Instantiate, Index.AssetId, UsedCount;
      var b := BookView();
      forall a, i: nat | a in b.accounts && i < UsedCount(b.accounts[a]) ensures i in b.accounts[a].acc.assets {
        assert Findable(assetAccounts[a], i);
      }
      forall id ensures id in UsedIds(b) <==> id in result {
        UsedSomewhere(id);
      }
      forall id | id in UsedIds(b) ensures Instantiate(TypeOnRecord(b, id)) == Some(result[id]) {
        assert TypeOnRecord(b, id) == OnFile(id);
      }
      assert (map id | id in UsedIds(b) :: Instantiate(TypeOnRecord(b, id)).value) == result;
    }

    lemma UsedSomewhere(id: Bytes)
      ensures id in UsedIds(BookView()) <==> exists a :: a in assetAccounts && IsUsed(assetAccounts[a], id)
    {
      hide Index.AssetId, UsedCount;
      var b := BookView();
      if id in UsedIds(b) {
        var a, i: nat :| a in b.accounts && i < UsedCount(b.accounts[a]) && id == Index.AssetId(b.accounts[a].id, i);
        assert IsUsed(assetAccounts[a], id);
      }
      if a :| a in assetAccounts && IsUsed(assetAccounts[a], id) {
        assert b.accounts[a] == KeeperOf(assetAccounts[a]);
      }
    }

    predicate OnFileAll(found: map<Bytes, Address>)
      reads this
    {
      forall id :: id in found ==> Instantiate(OnFile(id)) == Some(found[id])
    }

    predicate AllFindable(sub: Index.Sub)
      reads this
    {
      forall i: nat :: i < UsedCount(KeeperOf(sub)) ==> Findable(sub, i)
    }

    predicate IsUsed(sub: Index.Sub, id: Bytes) {
      exists i: nat :: i < UsedCount(KeeperOf(sub)) && id == Index.AssetId(sub.id, i)
    }

    function OnFile(id: Bytes): u32
      reads this
    {
      if id in addresses then addresses[id] else defaultType
    }

    predicate Findable(sub: Index.Sub, i: nat)
      reads this
    {
      i in sub.acc.assets && Instantiate(OnFile(Index.AssetId(sub.id, i))).Some?
    }
  }

  function KeeperOf(sub: Index.Sub): Keeper { Keeper(sub.id, sub.scheme, sub.acc) }
}
