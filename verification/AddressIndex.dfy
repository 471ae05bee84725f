/**
 The index from address hashes to assets, kept up to date as the chains grow
 (`AssetAccount::updateAddressHashMap`, `AddressAccount::updateAddressHashMap`).
 */
module AddressIndex {
  import opened Bytes
  import opened KeyOrder
  import opened Records
  import opened AssetChain

  type AddrType = nat

  /** The prefixed hash of an asset's address of some type. */
  type Hasher = (PublicKey, AddrType) -> Bytes

  /** An asset account with its own hash map; `id` is the full account id. */
  datatype Sub = Sub(
    id: Bytes, scheme: Scheme, acc: Account,
    hashes: map<Bytes, map<AddrType, Bytes>>, lastHashed: u32)

  datatype AddressAccount = AddressAccount(
    subs: map<Bytes, Sub>, types: set<AddrType>,
    top: map<Bytes, Bytes>, index: map<Bytes, (Bytes, AddrType)>)

  function AssetId(id: Bytes, i: nat): Bytes { id + BigEndian(i, 4) }

  // ----- One asset account --------------------------------------------------

  function TypeHashes(h: Hasher, key: PublicKey, types: set<AddrType>): map<AddrType, Bytes> {
    map t | t in types :: h(key, t)
  }

  /** Hashes that are there already stay. */
  function HashOne(h: Hasher, types: set<AddrType>, sub: Sub, i: u32): Sub
    requires i in sub.acc.assets
  {
    var id := AssetId(sub.id, i);
    var had := if id in sub.hashes then sub.hashes[id] else map[];
    sub.(hashes := sub.hashes[id := TypeHashes(h, sub.acc.assets[i].entry.pub, types) + had], lastHashed := i)
  }

  /** The assets from index i on, in order. */
  function HashFrom(h: Hasher, types: set<AddrType>, sub: Sub, i: nat, end: nat): (r: Sub)
    requires end <= 0x1_0000_0000
    ensures r.acc == sub.acc && r.id == sub.id && r.scheme == sub.scheme
    decreases end - i
  {
    if i >= end then sub
    else HashFrom(h, types, if i in sub.acc.assets then HashOne(h, types, sub, i) else sub, i + 1, end)
  }

  /** On from the last asset hashed, if there is one. */
  function UpdateHashes(h: Hasher, types: set<AddrType>, sub: Sub): (r: Sub)
    ensures r.acc == sub.acc && r.id == sub.id && r.scheme == sub.scheme
  {
    HashFrom(h, types, sub, if sub.lastHashed in sub.acc.assets then sub.lastHashed + 1 else 0, 0x1_0000_0000)
  }

  // ----- All accounts -------------------------------------------------------

  ghost function AscendingTypes(s: set<AddrType>): (r: seq<AddrType>)
    ensures forall t :: t in r <==> t in s
  {
    if s == {} then [] else AscendingTypes(s - {Highest(s)}) + [Highest(s)]
  }

  /** `emplace`: a hash that is there already keeps its entry. */
  function AddTypes(index: map<Bytes, (Bytes, AddrType)>, id: Bytes, m: map<AddrType, Bytes>,
                    types: seq<AddrType>): map<Bytes, (Bytes, AddrType)>
    requires forall t :: t in types ==> t in m
    decreases |types|
  {
    if types == [] then index else
    var hash := m[types[0]];
    AddTypes(if hash in index then index else index[hash := (id, types[0])], id, m, types[1..])
  }

  ghost function AddIds(index: map<Bytes, (Bytes, AddrType)>, hashes: map<Bytes, map<AddrType, Bytes>>,
                        ids: seq<Bytes>): map<Bytes, (Bytes, AddrType)>
    requires forall id :: id in ids ==> id in hashes
    decreases |ids|
  {
    if ids == [] then index
    else AddIds(AddTypes(index, ids[0], hashes[ids[0]], AscendingTypes(hashes[ids[0]].Keys)), hashes, ids[1..])
  }

  /** What an iterator meets after the given key. */
  function AfterKey(keys: seq<Bytes>, key: Bytes): (r: seq<Bytes>)
    ensures forall k :: k in r ==> k in keys
  {
    if keys == [] then [] else if keys[0] == key then keys[1..] else AfterKey(keys[1..], key)
  }

  ghost function UpdateOne(h: Hasher, x: AddressAccount, acc: Bytes): AddressAccount
    requires acc in x.subs
  {
    var sub := UpdateHashes(h, x.types, x.subs[acc]);
    var y := x.(subs := x.subs[acc := sub]);
    if sub.hashes == map[] then y else
    var ids := InOrder(sub.hashes.Keys);
    var news := if acc in x.top then AfterKey(ids, x.top[acc]) else ids;
    if news == [] then y
    else y.(index := AddIds(x.index, sub.hashes, news), top := x.top[acc := ids[|ids| - 1]])
  }

  ghost function UpdateEach(h: Hasher, x: AddressAccount, accs: seq<Bytes>): AddressAccount
    requires forall a :: a in accs ==> a in x.subs
    decreases |accs|
  {
    if accs == [] then x else UpdateEach(h, UpdateOne(h, x, accs[0]), accs[1..])
  }

  /** `updateAddressHashMap`, which every lookup calls first. */
  ghost function Update(h: Hasher, x: AddressAccount): AddressAccount { UpdateEach(h, x, InOrder(x.subs.Keys)) }

  // ----- Runs ---------------------------------------------------------------

  datatype IndexAction =
    | OnChain(acc: Bytes, act: Action)
    | HashAccount(acc: Bytes)                   // `getAddressHashMap` of one asset account
    | LookUp

  ghost function IndexNext(h: Hasher, x: AddressAccount, a: IndexAction): AddressAccount {
    match a
    case OnChain(acc, act) =>
      if acc !in x.subs then x else
      x.(subs := x.subs[acc := x.subs[acc].(acc := Next(x.subs[acc].scheme, x.subs[acc].acc, act))])
    case HashAccount(acc) =>
      if acc !in x.subs then x else x.(subs := x.subs[acc := UpdateHashes(h, x.types, x.subs[acc])])
    case LookUp => Update(h, x)
  }

  ghost function IndexRun(h: Hasher, x: AddressAccount, acts: seq<IndexAction>): AddressAccount {
    if acts == [] then x else IndexNext(h, IndexRun(h, x, acts[..|acts| - 1]), acts[|acts| - 1])
  }

  /** The same accounts with nothing hashed. */
  function Unhashed(x: AddressAccount): AddressAccount {
    AddressAccount(map a | a in x.subs :: x.subs[a].(hashes := map[], lastHashed := 0xFFFF_FFFF), x.types, map[], map[])
  }
}
