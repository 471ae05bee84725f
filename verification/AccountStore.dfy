/**
 The mirror of an asset account in the wallet's key/value store: what `commit`,
 `updateOnDiskAssets` and `updateHighestUsedIndex` write, and `loadFromDisk`.
 */
module AccountStore {
  import opened Wrappers
  import opened Bytes
  import opened BinaryIO
  import opened KeyOrder
  import opened Records
  import opened AssetChain

  type Disk = map<Bytes, Bytes>

  /** `id` is the full id; the scheme is kept as the packet it serialises to. */
  datatype Meta = Meta(id: Bytes, parentLen: nat, kind: nat, schemeData: Bytes)

  datatype Wallet = Wallet(acc: Account, disk: Disk)

  // ----- Keys ---------------------------------------------------------------

  function AssetPrefix(id: Bytes): Bytes { [0x8A] + id }

  function AssetKey(id: Bytes, index: nat): Bytes { AssetPrefix(id) + BigEndian(index, 4) }

  const ROOT_INDEX: nat := 0xFFFF_FFFF

  function AccountKey(id: Bytes): Bytes { [0xE1] + id }

  function CountKey(id: Bytes): Bytes { [0xE2] + id }

  function TopKey(id: Bytes): Bytes { [0xE3] + id }

  /** The index at the end of an asset key. */
  function IndexIn(key: Bytes): nat
    requires |key| >= 4
  {
    FromBigEndian(key[|key| - 4..])
  }

  function Signed(n: nat): (r: int)
    ensures n < 0x1_0000_0000 ==> -0x8000_0000 <= r < 0x8000_0000 && (r - n) % 0x1_0000_0000 == 0
  {
    if n < 0x8000_0000 then n else n - 0x1_0000_0000
  }

  // ----- Writing ------------------------------------------------------------

  /** `writeAssetEntry`: only what is flagged is written. */
  function WriteAsset(disk: Disk, id: Bytes, x: Asset): Disk {
    if x.dirty then disk[AssetKey(id, Unsigned(x.index)) := WriteEntry(x.entry)] else disk
  }

  function WriteAssets(disk: Disk, id: Bytes, assets: map<nat, Asset>, n: nat): Disk {
    if n == 0 then disk
    else
      var d := WriteAssets(disk, id, assets, n - 1);
      if n - 1 in assets then WriteAsset(d, id, assets[n - 1]) else d
  }

  /** One more than the highest index. */
  function End(assets: map<nat, Asset>): nat { if assets == map[] then 0 else Highest(assets.Keys) + 1 }

  function WriteCount(disk: Disk, id: Bytes, a: Account): Disk { disk[CountKey(id) := PutVarInt(|a.assets|, [])] }

  function WriteTop(disk: Disk, id: Bytes, a: Account): Disk { disk[TopKey(id) := PutVarInt(a.lastUsed, [])] }

  function UpdateOnDisk(disk: Disk, id: Bytes, a: Account): Disk {
    WriteCount(WriteAssets(disk, id, a.assets, End(a.assets)), id, a)
  }

  function AccountData(meta: Meta): Bytes
    requires meta.kind < 256
  {
    PutByte(meta.kind, PutVarInt(meta.parentLen, PutBlob(meta.schemeData, [])))
  }

  function Commit(disk: Disk, meta: Meta, a: Account): Disk
    requires meta.kind < 256
  {
    var d := if a.root.Some? then WriteAsset(disk, meta.id, a.root.value) else disk;
    var d1 := WriteAssets(d, meta.id, a.assets, End(a.assets));
    var d2 := d1[AccountKey(meta.id) := AccountData(meta)];
    WriteTop(WriteCount(d2, meta.id, a), meta.id, a)
  }

  /** After a commit nothing is flagged, the root included. */
  function Committed(a: Account): Account {
    Cleaned(a.(root := if a.root.Some? then Some(a.root.value.(dirty := false)) else None))
  }

  // ----- Reading ------------------------------------------------------------

  datatype Collection =
    | Collected(root: Option<Asset>, assets: map<nat, Asset>)
    | Throws
    | Diverges                                  // the iterator is not advanced: the loop never ends

  datatype LoadResult = Loaded(meta: Meta, acc: Account) | LoadThrows | LoadDiverges

  /** `AssetEntry::deserialize`. */
  function ParseAsset(curve: Curve, key: Bytes, value: Bytes): Option<Asset> {
    if |key| < 5 then None else
    var e :- ReadEntry(curve, value);
    Some(Asset(Signed(IndexIn(key)), e, false))
  }

  function Collect(curve: Curve, disk: Disk, prefix: Bytes, keys: seq<Bytes>, root: Option<Asset>,
                   assets: map<nat, Asset>): Collection
    requires forall k :: k in keys ==> k in disk
    decreases |keys|
  {
    if keys == [] then Collected(root, assets)
    else if keys[0] == prefix then Diverges
    else if !StartsWith(keys[0], prefix) then Collected(root, assets)
    else
      match ParseAsset(curve, keys[0], disk[keys[0]])
      case None => Throws
      case Some(x) =>
        if Unsigned(x.index) == ROOT_INDEX then Collect(curve, disk, prefix, keys[1..], Some(x), assets)
        else
          var i := Unsigned(x.index);
          Collect(curve, disk, prefix, keys[1..], root, if i in assets then assets else assets[i := x])
  }

  /** `seek`: the first key that is not below the prefix, and all after it. */
  function Seek(keys: seq<Bytes>, prefix: Bytes): (r: seq<Bytes>)
    ensures forall k :: k in r ==> k in keys
  {
    if keys == [] || !Below(keys[0], prefix) then keys else Seek(keys[1..], prefix)
  }

  /** A missing value reads as an empty one. */
  function Fetch(disk: Disk, key: Bytes): Bytes { if key in disk then disk[key] else [] }

  function Lookup(kind: nat): u32 { if kind == 0 then 100 else 1 }

  /** The account record, the count and the cursor; a parent id longer than the whole leaves the ids empty. */
  function LoadHead(disk: Disk, id: Bytes): Option<(Meta, nat, u32)> {
    var (kind, b1) :- GetByte(Fetch(disk, AccountKey(id)));
    var (parentLen, b2) :- GetVarInt(b1);
    var (schemeData, _) :- GetBlob(b2);
    var _ :- Unwrap(schemeData);
    var (count, _) :- GetVarInt(Fetch(disk, CountKey(id)));
    var (top, _) :- GetVarInt(Fetch(disk, TopKey(id)));
    Some((Meta(if parentLen <= |id| then id else [], parentLen, kind, schemeData), count, top % 0x1_0000_0000))
  }

  ghost function Load(curve: Curve, disk: Disk, key: Bytes): LoadResult {
    if key == [] || key[0] != 0xE1 then LoadThrows
    else
      var id := key[1..];
      match LoadHead(disk, id)
      case None => LoadThrows
      case Some((meta, count, top)) =>
        match Collect(curve, disk, AssetPrefix(id), Seek(InOrder(disk.Keys), AssetPrefix(id)), None, map[])
        case Diverges => LoadDiverges
        case Throws => LoadThrows
        case Collected(root, assets) =>
          if count != |assets| || meta.kind > 1 then LoadThrows
          else Loaded(meta, Account(root, assets, top, Lookup(meta.kind)))
  }

  // ----- Runs ---------------------------------------------------------------

  /** A chain operation, or another writer's put (Some) or erase (None). */
  datatype StoreAction = OnChain(act: Action) | Other(key: Bytes, value: Option<Bytes>)

  /** Keys that no record of this account has. */
  predicate Outside(id: Bytes, key: Bytes) {
    !StartsWith(key, AssetPrefix(id)) && key != AccountKey(id) && key != CountKey(id) && key != TopKey(id)
  }

  function PutOrErase(disk: Disk, key: Bytes, value: Option<Bytes>): Disk {
    if value.Some? then disk[key := value.value] else disk - {key}
  }

  function StoreNext(scheme: Scheme, id: Bytes, w: Wallet, act: StoreAction): Wallet {
    match act
    case OnChain(c) =>
      var b := After(scheme, w.acc, c);
      var d := if c.GetNew? then WriteTop(w.disk, id, b) else w.disk;
      Wallet(Next(scheme, w.acc, c), if Writes(scheme, w.acc, c) then UpdateOnDisk(d, id, b) else d)
    case Other(key, value) =>
      if !Outside(id, key) then w else Wallet(w.acc, PutOrErase(w.disk, key, value))
  }

  function StoreRun(scheme: Scheme, id: Bytes, w: Wallet, acts: seq<StoreAction>): Wallet {
    if acts == [] then w else StoreNext(scheme, id, StoreRun(scheme, id, w, acts[..|acts| - 1]), acts[|acts| - 1])
  }
}
