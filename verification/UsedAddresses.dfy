/**
 Addresses handed out and found again: `AddressAccount::getNewAddress`, the record of address
 types that differ from the default, and `getUsedAddressMap`; with `AddressEntry::instantiate`.
 */
module UsedAddresses {
  import opened Wrappers
  import opened Bytes
  import opened AssetChain
  import opened AssetChainProof
  import opened AddressIndex

  // ----- Address types ------------------------------------------------------

  /*
   An address type is a 32-bit word: the base type in the low 28 bits, then the uncompressed
   flag, a bit without a meaning, and two bits for nesting.
   */

  function Base(w: u32): nat { w % 0x1000_0000 }

  predicate Uncompressed(w: u32) { w / 0x1000_0000 % 2 == 1 }

  function Nested(w: u32): nat { w / 0x4000_0000 }

  datatype Address = Address(base: nat, compressed: bool, nested: nat)

  /** For an asset with a single key; None where the source throws. */
  function Instantiate(w: u32): Option<Address> {
    if Base(w) !in {1, 2, 3} || Nested(w) == 3 || (Base(w) == 3 && Nested(w) == 2) then None
    else Some(Address(Base(w), Base(w) == 3 || !Uncompressed(w), Nested(w)))
  }

  /** `getType` of an address: base type and nesting. */
  function TypeOf(a: Address): nat { a.base + a.nested * 0x4000_0000 }

  /** The type of an address makes the same address again exactly when the key is compressed. */
  lemma TypeMakesAddressAgain(w: u32)
    requires Instantiate(w).Some?
    ensures TypeOf(Instantiate(w).value) < 0x1_0000_0000
    ensures Instantiate(TypeOf(Instantiate(w).value)) == Instantiate(w) <==> Instantiate(w).value.compressed
    ensures Instantiate(TypeOf(Instantiate(w).value)).Some?
  {
    var a := Instantiate(w).value;
    var t := TypeOf(a);
    assert t % 0x1000_0000 == a.base && t / 0x4000_0000 == a.nested && t / 0x1000_0000 % 2 == 0;
  }

  /** A type without its flags: the base type with the nesting. */
  function Bare(w: u32): nat { Base(w) + Nested(w) * 0x4000_0000 }

  /** P2PKH, P2PK and P2WPKH, each also in P2SH, and the first two in P2WSH. */
  const ADDRESS_TYPES: set<nat> := {1, 2, 3, 0x4000_0001, 0x4000_0002, 0x4000_0003, 0x8000_0001, 0x8000_0002}

  /**
   Which words make an address, and which one: the address has the type asked for, flags aside, and
   an uncompressed key only if the flag asks for it and the base type is not P2WPKH.
   */
  lemma TypeNamesAddress(w: u32)
    ensures Instantiate(w).Some? <==> Bare(w) in ADDRESS_TYPES
    ensures Instantiate(w).Some? ==> TypeOf(Instantiate(w).value) == Bare(w)
    ensures Instantiate(w).Some? ==> (Instantiate(w).value.compressed <==> !Uncompressed(w) || Bare(w) % 4 == 3)
    ensures w / 0x1000_0000 % 4 == 0 ==> Bare(w) == w
  {
    TypeParts(w);
    BareParts(Base(w), Nested(w));
  }

  lemma TypeParts(w: u32)
    ensures Base(w) < 0x1000_0000 && Nested(w) < 4
    ensures w == Base(w) + w / 0x1000_0000 % 4 * 0x1000_0000 + Nested(w) * 0x4000_0000
  {
  }

  lemma BareParts(base: nat, nested: nat)
    requires base < 0x1000_0000 && nested < 4
    ensures base + nested * 0x4000_0000 in ADDRESS_TYPES <==>
            1 <= base <= 3 && nested <= 2 && !(base == 3 && nested == 2)
    ensures 1 <= base <= 3 ==> ((base + nested * 0x4000_0000) % 4 == 3 <==> base == 3)
  {
    match nested {
      case 0 =>
      case 1 =>
      case 2 =>
      case _ =>
    }
  }

  /** Two types make the same address exactly if they differ in flags only, and in no flag that counts. */
  lemma SameAddress(v: u32, w: u32)
    requires Instantiate(v).Some? && Instantiate(w).Some?
    ensures Instantiate(v) == Instantiate(w) <==>
            Bare(v) == Bare(w) && (Uncompressed(v) == Uncompressed(w) || Bare(v) % 4 == 3)
  {
    TypeNamesAddress(v);
    TypeNamesAddress(w);
    TypeParts(v);
    TypeParts(w);
  }

  // ----- Handing out --------------------------------------------------------

  datatype Keeper = Keeper(id: Bytes, scheme: Scheme, acc: Account)

  /** `addresses` holds the types on record; `log` what was handed out. */
  datatype Book = Book(
    accounts: map<Bytes, Keeper>, types: set<u32>, standard: u32,
    addresses: map<Bytes, u32>, log: seq<(Bytes, u32)>)

  /** `updateInstantiatedAddressType`. */
  function Recorded(addresses: map<Bytes, u32>, standard: u32, id: Bytes, w: u32): map<Bytes, u32> {
    if id in addresses && addresses[id] == w then addresses
    else if id in addresses && w == standard then addresses - {id}
    else addresses[id := w]
  }

  /**
   After a type is recorded it is the one found for the id, whatever was on record before; the types of
   other ids stay, and the default is not left on record for an id that had another one.
   */
  lemma RecordedIsFound(addresses: map<Bytes, u32>, standard: u32, id: Bytes, w: u32, other: Bytes)
    ensures var r := Recorded(addresses, standard, id, w);
            && (if id in r then r[id] else standard) == w
            && (other != id ==> (other in r <==> other in addresses))
            && (other != id && other in addresses ==> r[other] == addresses[other])
            && (id in addresses && addresses[id] != standard && w == standard ==> id !in r)
  {
  }

  /** `getNewAddress`: the cursor of the account moves even if there is no asset or no such address. */
  function NewAddress(b: Book, acc: Bytes, asked: u32): Book {
    var w := if asked == 0 then b.standard else asked;
    if acc !in b.accounts || w !in b.types then b
    else
      var k := b.accounts[acc];
      var asset := NewAssetOf(k.scheme, k.acc);
      var b1 := b.(accounts := b.accounts[acc := k.(acc := Next(k.scheme, k.acc, GetNew))]);
      if asset.None? || Instantiate(w).None? then b1
      else
        var id := AssetId(k.id, Unsigned(asset.value.index));
        var b2 := b1.(log := b.log + [(id, w)]);
        if w == b.standard then b2
        else
          TypeMakesAddressAgain(w);
          b2.(addresses := Recorded(b.addresses, b.standard, id, TypeOf(Instantiate(w).value)))
  }

  /** How many assets of an account are in use. */
  function UsedCount(k: Keeper): nat { if k.acc.lastUsed == 0xFFFF_FFFF then 0 else k.acc.lastUsed + 1 }

  function UsedIds(b: Book): set<Bytes> {
    set acc, i: nat | acc in b.accounts && i < UsedCount(b.accounts[acc]) :: AssetId(b.accounts[acc].id, i)
  }

  function TypeOnRecord(b: Book, id: Bytes): u32 { if id in b.addresses then b.addresses[id] else b.standard }

  /** `getUsedAddressMap`; None where an asset is missing or a type makes no address. */
  function UsedMap(b: Book): Option<map<Bytes, Address>> {
    if exists acc, i: nat ::
         acc in b.accounts && i < UsedCount(b.accounts[acc]) && i !in b.accounts[acc].acc.assets
    then None
    else if exists id :: id in UsedIds(b) && Instantiate(TypeOnRecord(b, id)).None? then None
    else Some(map id | id in UsedIds(b) :: Instantiate(TypeOnRecord(b, id)).value)
  }

  datatype BookAction = HandOut(acc: Bytes, asked: u32) | Extend(acc: Bytes, act: Action)

  /** The cursor is moved by handing out alone. */
  function BookNext(b: Book, a: BookAction): Book {
    match a
    case HandOut(acc, asked) => NewAddress(b, acc, asked)
    case Extend(acc, act) =>
      if acc !in b.accounts || act.GetNew? then b else
      var k := b.accounts[acc];
      b.(accounts := b.accounts[acc := k.(acc := Next(k.scheme, k.acc, act))])
  }

  function BookRun(b: Book, acts: seq<BookAction>): Book {
    if acts == [] then b else BookNext(BookRun(b, acts[..|acts| - 1]), acts[|acts| - 1])
  }

  // ----- Invariant ----------------------------------------------------------

  ghost predicate Apart(b: Book) {
    forall a, c :: a in b.accounts && c in b.accounts && a != c ==>
      b.accounts[a].id != b.accounts[c].id && |b.accounts[a].id| == |b.accounts[c].id|
  }

  predicate Usable(b: Book) {
    b.standard in b.types && b.standard != 0 && forall w :: w in b.types ==> Instantiate(w).Some?
  }

  /** There is room for one more look-up on every chain. */
  ghost predicate Roomy(b: Book) {
    forall acc :: acc in b.accounts ==>
      b.accounts[acc].acc.lookup >= 1 && |b.accounts[acc].acc.assets| + b.accounts[acc].acc.lookup <= 0x8000_0000
  }

  ghost predicate Sound(b: Book) {
    forall acc :: acc in b.accounts ==>
      Chain(b.accounts[acc].scheme, b.accounts[acc].acc) && UsedCount(b.accounts[acc]) <= |b.accounts[acc].acc.assets|
  }

  ghost predicate Logged(b: Book) {
    && (forall id :: id in UsedIds(b) <==> exists j :: 0 <= j < |b.log| && b.log[j].0 == id)
    && (forall i, j :: 0 <= i < j < |b.log| ==> b.log[i].0 != b.log[j].0)
    && (forall j :: 0 <= j < |b.log| ==> OnRecord(b, b.log[j].0, b.log[j].1))
    && (forall id :: id in b.addresses ==> id in UsedIds(b))
  }

  /** A default type is not recorded; another one is, without its uncompressed flag. */
  predicate OnRecord(b: Book, id: Bytes, w: u32) {
    && w in b.types && Instantiate(w).Some?
    && if w == b.standard then id !in b.addresses
       else id in b.addresses && b.addresses[id] == TypeOf(Instantiate(w).value)
  }

  ghost predicate BookInv(b: Book) { Apart(b) && Usable(b) && Sound(b) && Logged(b) }
}
