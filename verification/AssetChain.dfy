/**
 The derivation chain of an asset account: public and private extension, key filling and
 the last-used cursor (`AssetAccount`).

 Key derivation and encryption are functions of the scheme; the randomness of one private
 extension has a name, `iv`, so that a key record derived anew differs from the old one.
 */
module AssetChain {
  import opened Wrappers
  import opened Bytes
  import opened Records

  datatype Scheme = Scheme(
    legacy: bool,                                   // each key from the one before; else from the root
    chain: PublicKey -> PublicKey,
    child: (PublicKey, nat) -> PublicKey,
    seal: (PublicKey, nat, nat) -> PrivateKey)      // key pair, index, randomness

  datatype Asset = Asset(index: int, entry: Entry, dirty: bool)

  datatype Account = Account(
    root: Option<Asset>, assets: map<nat, Asset>, lastUsed: u32, lookup: u32)

  predicate HasKey(x: Asset) { x.entry.priv.Some? }

  function Unsigned(i: int): nat { i % 0x1_0000_0000 }

  // ----- The highest index with a property ----------------------------------

  predicate IsHighest(m: nat, s: set<nat>) { m in s && forall i :: i in s ==> i <= m }

  lemma {:induction false} FindHighest(s: set<nat>) returns (m: nat)
    requires s != {}
    ensures IsHighest(m, s)
  {
    var x :| x in s;
    var t := s - {x};
    if t == {} {
      assert s == {x};
      return x;
    }
    var y := FindHighest(t);
    m := if x > y then x else y;
    assert s == t + {x};
  }

  lemma HighestExists(s: set<nat>)
    requires s != {}
    ensures exists m :: IsHighest(m, s)
  {
    var m := FindHighest(s);
  }

  /** `rbegin` of an ordered set. */
  function Highest(s: set<nat>): (m: nat)
    requires s != {}
    ensures IsHighest(m, s)
  {
    HighestExists(s);
    var m :| IsHighest(m, s);
    m
  }

  function KeyedBelow(assets: map<nat, Asset>, bound: nat): set<nat> {
    set i | i in assets && i < bound && HasKey(assets[i])
  }

  /** The closest asset below the bound that has a private key. */
  function LastKeyed(assets: map<nat, Asset>, bound: nat): Option<Asset> {
    var s := KeyedBelow(assets, bound);
    if s == {} then None else Some(assets[Highest(s)])
  }

  // ----- Extension ----------------------------------------------------------

  function Step(scheme: Scheme, from: PublicKey, index: nat): PublicKey {
    if scheme.legacy then scheme.chain(from) else scheme.child(from, index)
  }

  function NewAsset(scheme: Scheme, key: PublicKey, index: nat, iv: Option<nat>): Asset {
    Asset(index, Single(key, if iv.Some? then Some(scheme.seal(key, index, iv.value)) else None), true)
  }

  /** n assets from index start on; a legacy key is the source of the next. */
  function Derived(scheme: Scheme, from: PublicKey, start: nat, n: nat, iv: Option<nat>): (assets: seq<Asset>)
    ensures |assets| == n
    ensures forall j :: 0 <= j < n ==> assets[j].index == start + j
    decreases n
  {
    if n == 0 then [] else
    var key := Step(scheme, from, start);
    [NewAsset(scheme, key, start, iv)]
    + Derived(scheme, if scheme.legacy then key else from, start + 1, n - 1, iv)
  }

  /** An asset in the way stays, unless a private extension finds it without a private key. */
  predicate Stays(assets: map<nat, Asset>, i: nat, private: bool) {
    i in assets && (private ==> HasKey(assets[i]))
  }

  function Inserted(assets: map<nat, Asset>, news: seq<Asset>, private: bool): map<nat, Asset>
    requires forall j :: 0 <= j < |news| ==> news[j].index >= 0
    decreases |news|
  {
    if news == [] then assets else
    var i := news[0].index;
    Inserted(if Stays(assets, i, private) then assets else assets[i := news[0]], news[1..], private)
  }

  /**
   `extendPublicChain(assetPtr, count)`, or with randomness `extendPrivateChain(ddc, assetPtr, count)`.
   None where the source throws or has no asset to read: nothing has changed then.
   */
  function Extended(scheme: Scheme, a: Account, origin: Option<Asset>, count: nat, iv: Option<nat>): Option<Account> {
    if count == 0 then Some(a)
    else if origin.None? && (iv.None? || scheme.legacy) then None
    else if !scheme.legacy && iv.Some? && a.root.None? then None
    else
      var index := if origin.None? then -1 else origin.value.index;
      var start, end := Unsigned(index + 1), Unsigned(index + count);
      if start > end then Some(a)
      else if end > 0x7FFF_FFFF then None
      else
        var source := if scheme.legacy then origin else a.root;
        if source.None? || (iv.Some? && !HasKey(source.value)) then None
        else
          var news := Derived(scheme, source.value.entry.pub, start, end - start + 1, iv);
          Some(a.(assets := Inserted(a.assets, news, iv.Some?)))
  }

  /** The last asset, or the root of an empty chain. */
  function LastAsset(a: Account): Option<Asset> {
    if a.assets == map[] then a.root else Some(a.assets[Highest(a.assets.Keys)])
  }

  function ExtendPublic(scheme: Scheme, a: Account, count: nat): Option<Account> {
    Extended(scheme, a, LastAsset(a), count, None)
  }

  const ALL: nat := 0x1_0000_0000

  function ExtendPrivate(scheme: Scheme, a: Account, count: nat, iv: nat): Option<Account> {
    Extended(scheme, a, LastKeyed(a.assets, ALL), count, Some(iv))
  }

  // ----- Operations ---------------------------------------------------------

  datatype Action =
    | PublicBy(count: u32)                  // extendPublicChain
    | PublicTo(count: u32)                  // extendPublicChainToIndex
    | PrivateBy(count: u32, iv: nat)        // extendPrivateChain
    | PrivateTo(id: u32, iv: nat)           // extendPrivateChainToIndex
    | Fill(id: u32, iv: nat)                // fillPrivateKey
    | GetNew                                // getNewAsset
    | Peek                                  // peekNextAsset

  /** The extension that an operation asks for. */
  datatype Request = Request(origin: Option<Asset>, count: u32, iv: Option<nat>)

  /** Index of the last computed asset, zero for none. */
  function LastComputed(a: Account): nat { if a.assets == map[] then 0 else Highest(a.assets.Keys) }

  function AskFill(a: Account, id: u32, iv: nat): Option<Request> {
    if id !in a.assets || HasKey(a.assets[id]) then None else
    var keyed := LastKeyed(a.assets, id);
    var prev := if keyed.Some? then keyed else a.root;
    if prev.None? then None else Some(Request(prev, Unsigned(id - prev.value.index), Some(iv)))
  }

  /** The chain is made to reach an index. */
  function AskReach(a: Account, index: u32): Option<Request> {
    if index in a.assets then None else Some(Request(LastAsset(a), a.lookup, None))
  }

  function Ask(a: Account, act: Action): Option<Request> {
    match act
    case PublicBy(count) => Some(Request(LastAsset(a), count, None))
    case PublicTo(count) =>
      if LastComputed(a) > count then None else Some(Request(LastAsset(a), count - LastComputed(a), None))
    case PrivateBy(count, iv) => Some(Request(LastKeyed(a.assets, ALL), count, Some(iv)))
    case PrivateTo(id, iv) =>
      var top := LastKeyed(a.assets, ALL);
      var topIndex := if top.Some? then top.value.index else 0;
      if 0 <= topIndex < id then Some(Request(top, id - topIndex, Some(iv))) else None
    case Fill(id, iv) => AskFill(a, id, iv)
    case GetNew => AskReach(a, a.lastUsed)
    case Peek => AskReach(a, (a.lastUsed + 1) % 0x1_0000_0000)
  }

  function Answer(scheme: Scheme, a: Account, q: Request): Option<Account> {
    Extended(scheme, a, q.origin, q.count, q.iv)
  }

  /** `getNewAsset` moves the cursor first, whatever happens next. */
  function Bumped(a: Account): Account { a.(lastUsed := (a.lastUsed + 1) % 0x1_0000_0000) }

  function Started(a: Account, act: Action): Account { if act.GetNew? then Bumped(a) else a }

  function OrElse(r: Option<Account>, a: Account): Account { if r.Some? then r.value else a }

  /** The account after an operation, before its assets are written. */
  function After(scheme: Scheme, a: Account, act: Action): Account {
    var b := Started(a, act);
    match Ask(b, act)
    case None => b
    case Some(q) => OrElse(Answer(scheme, b, q), b)
  }

  /** Whether the operation goes on to write the assets. */
  predicate Writes(scheme: Scheme, a: Account, act: Action) {
    var b := Started(a, act);
    match Ask(b, act)
    case None => false
    case Some(q) => q.count != 0 && Answer(scheme, b, q).Some?
  }

  /** Written assets are no longer dirty. */
  function Cleaned(a: Account): Account {
    a.(assets := map i | i in a.assets :: a.assets[i].(dirty := false))
  }

  function Next(scheme: Scheme, a: Account, act: Action): Account {
    if Writes(scheme, a, act) then Cleaned(After(scheme, a, act)) else After(scheme, a, act)
  }

  function Run(scheme: Scheme, a: Account, acts: seq<Action>): Account {
    if acts == [] then a else Next(scheme, Run(scheme, a, acts[..|acts| - 1]), acts[|acts| - 1])
  }

  // ----- Results ------------------------------------------------------------

  /** None where `fillPrivateKey` throws. */
  function FillPrivateKey(scheme: Scheme, a: Account, id: u32, iv: nat): Option<Account> {
    match AskFill(a, id, iv)
    case None => if id in a.assets && HasKey(a.assets[id]) then Some(a) else None
    case Some(q) => Answer(scheme, a, q)
  }

  /** What `getNewAsset` returns, None where it throws. */
  function NewAssetOf(scheme: Scheme, a: Account): Option<Asset> {
    var b, c := Bumped(a), Next(scheme, a, GetNew);
    if b.lastUsed in c.assets then Some(c.assets[b.lastUsed]) else None
  }

  /** The assets handed out in a run, in order. */
  function HandedOut(scheme: Scheme, a: Account, acts: seq<Action>): seq<Option<Asset>> {
    if acts == [] then [] else
    var front := acts[..|acts| - 1];
    HandedOut(scheme, a, front)
    + if acts[|acts| - 1] == GetNew then [NewAssetOf(scheme, Run(scheme, a, front))] else []
  }
}
