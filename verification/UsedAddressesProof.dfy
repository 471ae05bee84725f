/** The addresses in use are exactly those handed out. */
module UsedAddressesProof {
  import opened Bytes
  import opened AssetChain
  import opened AssetChainProof
  import opened AddressIndex
  import opened AddressIndexProof
  import opened UsedAddresses

  /** Cursors of an account and of the chain operations. */
  lemma CountAfter(k: Keeper, act: Action)
    requires Chain(k.scheme, k.acc) && UsedCount(k) <= |k.acc.assets|
    ensures var k1 := k.(acc := Next(k.scheme, k.acc, act));
            && Chain(k1.scheme, k1.acc) && |k.acc.assets| <= |k1.acc.assets| && k1.acc.lookup == k.acc.lookup
            && UsedCount(k1) == UsedCount(k) + if act.GetNew? then 1 else 0
  {
    hide Next, Linked, KeyedFirst;
    NextKeeps(k.scheme, k.acc, act);
    GrowsCounts(k.scheme, k.acc, Next(k.scheme, k.acc, act));
    CursorMoves(k.scheme, k.acc, act);
  }

  lemma FoundNext(k: Keeper)
    requires Chain(k.scheme, k.acc) && UsedCount(k) <= |k.acc.assets|
    requires k.acc.lookup >= 1 && |k.acc.assets| + k.acc.lookup <= 0x8000_0000
    ensures var r := NewAssetOf(k.scheme, k.acc);
            r.Some? && Unsigned(r.value.index) == UsedCount(k) < |Next(k.scheme, k.acc, GetNew).assets|
  {
    hide Next, NewAssetOf, Linked, KeyedFirst;
    NewAssetFound(k.scheme, k.acc);
  }

  lemma NewIdIsNew(b: Book, acc: Bytes)
    requires Apart(b) && Sound(b) && acc in b.accounts && UsedCount(b.accounts[acc]) < 0x8000_0000
    ensures AssetId(b.accounts[acc].id, UsedCount(b.accounts[acc])) !in UsedIds(b)
  {
    hide UsedCount, Chain;
    var k := b.accounts[acc];
    var id := AssetId(k.id, UsedCount(k));
    forall a, i: nat | a in b.accounts && i < UsedCount(b.accounts[a]) ensures AssetId(b.accounts[a].id, i) != id {
      if a == acc {
        AssetIdsDiffer(k.id, i, UsedCount(k));
      } else {
        assert AssetId(b.accounts[a].id, i)[..|k.id|] == b.accounts[a].id && id[..|k.id|] == k.id;
      }
    }
  }

  /** One account's cursor moves by one: one id more is in use. */
  lemma UsedIdsGrow(b: Book, c: Book, acc: Bytes, id: Bytes)
    requires acc in b.accounts && acc in c.accounts && c.accounts == b.accounts[acc := c.accounts[acc]]
    requires c.accounts[acc].id == b.accounts[acc].id && UsedCount(c.accounts[acc]) == UsedCount(b.accounts[acc]) + 1
    ensures id in UsedIds(c) <==> id in UsedIds(b) || id == AssetId(b.accounts[acc].id, UsedCount(b.accounts[acc]))
  {
    hide UsedCount, AssetId;
    if id in UsedIds(c) {
      var a, i: nat :| a in c.accounts && i < UsedCount(c.accounts[a]) && id == AssetId(c.accounts[a].id, i);
      assert a in b.accounts && ((a == acc && i == UsedCount(b.accounts[acc])) || i < UsedCount(b.accounts[a]));
    }
    if id in UsedIds(b) {
      var a, i: nat :| a in b.accounts && i < UsedCount(b.accounts[a]) && id == AssetId(b.accounts[a].id, i);
      assert a in c.accounts && i < UsedCount(c.accounts[a]);
    }
    assert AssetId(b.accounts[acc].id, UsedCount(b.accounts[acc])) in UsedIds(c);
  }

  lemma UsedIdsStay(b: Book, c: Book)
    requires c.accounts.Keys == b.accounts.Keys
    requires forall a :: a in b.accounts ==>
               c.accounts[a].id == b.accounts[a].id && UsedCount(c.accounts[a]) == UsedCount(b.accounts[a])
    ensures UsedIds(c) == UsedIds(b)
  {
    hide UsedCount, AssetId;
  }

  lemma ExtendKeeps(b: Book, acc: Bytes, act: Action)
    requires BookInv(b)
    ensures BookInv(BookNext(b, Extend(acc, act)))
  {
    hide Chain, Next, UsedCount, AssetId, Instantiate, UsedIds, Logged;
    if acc in b.accounts && !act.GetNew? {
      var c := BookNext(b, Extend(acc, act));
      CountAfter(b.accounts[acc], act);
      UsedIdsStay(b, c);
      LogStays(b, c);
    }
  }

  lemma LogStays(b: Book, c: Book)
    requires Logged(b) && UsedIds(c) == UsedIds(b) && c.log == b.log && c.addresses == b.addresses
    requires c.types == b.types && c.standard == b.standard
    ensures Logged(c)
  {
    hide UsedIds, Instantiate, TypeOf;
    forall j | 0 <= j < |c.log| ensures OnRecord(c, c.log[j].0, c.log[j].1) {
      assert OnRecord(b, b.log[j].0, b.log[j].1);
    }
  }

  lemma HandOutKeeps(b: Book, acc: Bytes, asked: u32)
    requires BookInv(b) && Roomy(b)
    ensures BookInv(NewAddress(b, acc, asked))
  {
    hide Chain, Next, NewAddress, Logged, UsedCount, Instantiate, AssetId, TypeOf;
    var w := if asked == 0 then b.standard else asked;
    if acc in b.accounts && w in b.types {
      CountAfter(b.accounts[acc], GetNew);
      FoundNext(b.accounts[acc]);
      HandOutForm(b, acc, asked);
      HandOutLogged(b, acc, asked);
    } else {
      NothingHandedOut(b, acc, asked);
    }
  }

  lemma NothingHandedOut(b: Book, acc: Bytes, asked: u32)
    requires acc !in b.accounts || (if asked == 0 then b.standard else asked) !in b.types
    ensures NewAddress(b, acc, asked) == b
  {
  }

  lemma HandOutForm(b: Book, acc: Bytes, asked: u32)
    requires BookInv(b) && Roomy(b) && acc in b.accounts && (if asked == 0 then b.standard else asked) in b.types
    ensures var w := if asked == 0 then b.standard else asked;
            var k, c := b.accounts[acc], NewAddress(b, acc, asked);
            var id := AssetId(k.id, UsedCount(k));
            && Instantiate(w).Some? && TypeOf(Instantiate(w).value) < 0x1_0000_0000
            && c.accounts == b.accounts[acc := k.(acc := Next(k.scheme, k.acc, GetNew))]
            && c.types == b.types && c.standard == b.standard && c.log == b.log + [(id, w)]
            && c.addresses == if w == b.standard then b.addresses
                              else Recorded(b.addresses, b.standard, id, TypeOf(Instantiate(w).value))
  {
    hide Chain, Next, NewAssetOf, AssetId, Instantiate, TypeOf, Recorded, Logged, Apart, UsedCount;
    FoundNext(b.accounts[acc]);
    TypeMakesAddressAgain(if asked == 0 then b.standard else asked);
  }

  lemma HandOutLogged(b: Book, acc: Bytes, asked: u32)
    requires BookInv(b) && Roomy(b) && acc in b.accounts && (if asked == 0 then b.standard else asked) in b.types
    ensures Logged(NewAddress(b, acc, asked))
  {
    hide Chain, Next, NewAddress, AssetId, Instantiate, UsedIds, TypeOf, UsedCount, Logged, Recorded;
    var k, c := b.accounts[acc], NewAddress(b, acc, asked);
    var w := if asked == 0 then b.standard else asked;
    var id := AssetId(k.id, UsedCount(k));
    CountAfter(k, GetNew);
    HandOutForm(b, acc, asked);
    CountBound(k);
    NewIdIsNew(b, acc);
    forall x ensures x in UsedIds(c) <==> x in UsedIds(b) || x == id {
      UsedIdsGrow(b, c, acc, x);
    }
    LogGrows(b, c, id, w);
  }

  lemma CountBound(k: Keeper)
    requires Chain(k.scheme, k.acc) && UsedCount(k) <= |k.acc.assets|
    requires |k.acc.assets| + k.acc.lookup <= 0x8000_0000 && k.acc.lookup >= 1
    ensures UsedCount(k) < 0x8000_0000
  {
  }

  lemma LogGrows(b: Book, c: Book, id: Bytes, w: u32)
    requires Logged(b) && Usable(b) && id !in UsedIds(b) && c.log == b.log + [(id, w)] && w in b.types
    requires c.types == b.types && c.standard == b.standard
    requires forall x :: x in UsedIds(c) <==> x in UsedIds(b) || x == id
    requires Instantiate(w).Some? && TypeOf(Instantiate(w).value) < 0x1_0000_0000
    requires c.addresses == if w == b.standard then b.addresses
                            else Recorded(b.addresses, b.standard, id, TypeOf(Instantiate(w).value))
    ensures Logged(c)
  {
    hide Instantiate, TypeOf, UsedIds;
    var n := |b.log|;
    assert c.log[n] == (id, w);
    forall j | 0 <= j < n ensures c.log[j] == b.log[j] && c.log[j].0 != id {
      assert b.log[j].0 in UsedIds(b);
    }
    forall x ensures x in UsedIds(c) <==> exists j :: 0 <= j < |c.log| && c.log[j].0 == x {
      if x in UsedIds(b) {
        var j :| 0 <= j < |b.log| && b.log[j].0 == x;
        assert c.log[j].0 == x;
      }
    }
    forall j | 0 <= j < |c.log| ensures OnRecord(c, c.log[j].0, c.log[j].1) {
      if j < n {
        assert OnRecord(b, b.log[j].0, b.log[j].1);
      }
    }
  }

  // ----- Runs ---------------------------------------------------------------

  /** Chains stay chains; the cursor may leave one that runs out of room. */
  ghost predicate Chains(b: Book) {
    forall acc :: acc in b.accounts ==> Chain(b.accounts[acc].scheme, b.accounts[acc].acc)
  }

  lemma ChainsStep(b: Book, a: BookAction)
    requires Chains(b)
    ensures var c := BookNext(b, a);
            && Chains(c) && (Roomy(c) ==> Roomy(b))
  {
    hide Chain, Next, NewAssetOf, Instantiate, TypeOf, Recorded, AssetId, Unsigned;
    var c := BookNext(b, a);
    forall acc | acc in b.accounts
      ensures acc in c.accounts && Chain(c.accounts[acc].scheme, c.accounts[acc].acc)
      ensures |b.accounts[acc].acc.assets| <= |c.accounts[acc].acc.assets|
      ensures c.accounts[acc].acc.lookup == b.accounts[acc].acc.lookup
    {
      var k := b.accounts[acc];
      if c.accounts[acc] != k {
        var act := if a.HandOut? then GetNew else a.act;
        NextKeeps(k.scheme, k.acc, act);
        GrowsCounts(k.scheme, k.acc, Next(k.scheme, k.acc, act));
      }
    }
  }

  lemma {:induction false} RunKeepsChains(b: Book, acts: seq<BookAction>)
    requires Chains(b)
    ensures Chains(BookRun(b, acts))
    decreases |acts|
  {
    hide Chains, BookNext;
    if acts != [] {
      RunKeepsChains(b, acts[..|acts| - 1]);
      ChainsStep(BookRun(b, acts[..|acts| - 1]), acts[|acts| - 1]);
    }
  }

  lemma {:induction false} RunKeepsBook(b: Book, acts: seq<BookAction>)
    requires BookInv(b) && Roomy(BookRun(b, acts))
    ensures BookInv(BookRun(b, acts))
    decreases |acts|
  {
    hide BookInv, Roomy, Chains, NewAddress, Next;
    SoundIsChains(b);
    if acts != [] {
      var front, a := acts[..|acts| - 1], acts[|acts| - 1];
      var x := BookRun(b, front);
      RunKeepsChains(b, front);
      ChainsStep(x, a);
      RunKeepsBook(b, front);
      if a.HandOut? {
        HandOutKeeps(x, a.acc, a.asked);
      } else {
        ExtendKeeps(x, a.acc, a.act);
      }
    }
  }

  lemma SoundIsChains(b: Book)
    requires BookInv(b)
    ensures Chains(b)
  {
  }

  // ----- Main result --------------------------------------------------------

  /** Nothing handed out yet. */
  ghost predicate NewBook(b: Book) {
    && Apart(b) && Usable(b) && Chains(b) && b.addresses == map[] && b.log == []
    && forall acc :: acc in b.accounts ==> b.accounts[acc].acc.lastUsed == 0xFFFF_FFFF
  }

  lemma NewBookIsInv(b: Book)
    requires NewBook(b)
    ensures BookInv(b)
  {
    hide Chain, Instantiate, AssetId;
  }

  /**
   After any run of handing out addresses of any types, interleaved with chain extensions, the
   assets in use are exactly those handed out; and an address is found again as it was handed out
   exactly when its type is the default or its key is compressed. It always has the type asked for,
   flags aside.
   */
  lemma UsedIsHandedOut(b: Book, acts: seq<BookAction>)
    requires NewBook(b) && Roomy(BookRun(b, acts))
    ensures var c := BookRun(b, acts);
            && UsedMap(c).Some?
            && (forall id :: id in UsedMap(c).value <==> exists j :: 0 <= j < |c.log| && c.log[j].0 == id)
            && (forall j :: 0 <= j < |c.log| ==> Instantiate(c.log[j].1).Some?)
            && (forall j :: 0 <= j < |c.log| ==>
                  (UsedMap(c).value[c.log[j].0] == Instantiate(c.log[j].1).value <==>
                   c.log[j].1 == c.standard || Instantiate(c.log[j].1).value.compressed))
            && (forall j :: 0 <= j < |c.log| ==> TypeOf(UsedMap(c).value[c.log[j].0]) == Bare(c.log[j].1))
  {
    hide BookRun, Instantiate, Roomy, NewBook, BookInv, UsedMap;
    NewBookIsInv(b);
    RunKeepsBook(b, acts);
    var c := BookRun(b, acts);
    UsedMapIs(c);
    forall j | 0 <= j < |c.log|
      ensures Instantiate(c.log[j].1).Some? && TypeOf(UsedMap(c).value[c.log[j].0]) == Bare(c.log[j].1)
      ensures UsedMap(c).value[c.log[j].0] == Instantiate(c.log[j].1).value <==>
              c.log[j].1 == c.standard || Instantiate(c.log[j].1).value.compressed
    {
      FoundAgain(c, j);
    }
  }

  lemma UsedMapIs(b: Book)
    requires BookInv(b)
    ensures UsedMap(b).Some? && UsedMap(b).value.Keys == UsedIds(b)
    ensures forall id :: id in UsedIds(b) <==> exists j :: 0 <= j < |b.log| && b.log[j].0 == id
    ensures forall id :: id in UsedIds(b) ==>
              Instantiate(TypeOnRecord(b, id)).Some? && UsedMap(b).value[id] == Instantiate(TypeOnRecord(b, id)).value
  {
    hide Instantiate, TypeOf, UsedIds, Linked, KeyedFirst, UsedCount;
    forall id | id in UsedIds(b) ensures Instantiate(TypeOnRecord(b, id)).Some? {
      var j :| 0 <= j < |b.log| && b.log[j].0 == id;
      assert OnRecord(b, b.log[j].0, b.log[j].1);
      TypeMakesAddressAgain(b.log[j].1);
    }
  }

  lemma FoundAgain(b: Book, j: nat)
    requires BookInv(b) && j < |b.log|
    ensures var (id, w) := b.log[j];
            && Instantiate(w).Some? && id in UsedIds(b) && Instantiate(TypeOnRecord(b, id)).Some?
            && TypeOf(Instantiate(TypeOnRecord(b, id)).value) == Bare(w)
            && (Instantiate(TypeOnRecord(b, id)) == Instantiate(w) <==>
                  w == b.standard || Instantiate(w).value.compressed)
  {
    hide Instantiate, TypeOf, UsedIds, Sound, Apart, Bare;
    var (id, w) := b.log[j];
    assert OnRecord(b, b.log[j].0, b.log[j].1);
    TypeMakesAddressAgain(w);
    TypeNamesAddress(w);
    TypeNamesAddress(TypeOnRecord(b, id));
    BareIsBare(w);
  }

  lemma BareIsBare(w: u32)
    ensures Bare(w) < 0x1_0000_0000 && Bare(Bare(w)) == Bare(w)
  {
    TypeParts(w);
  }

  /** The addresses in use are found exactly if every asset in use is there and has a type that makes an address. */
  lemma UsedMapExact(b: Book)
    ensures UsedMap(b).Some? <==>
              forall acc, i: nat {:trigger AssetId(b.accounts[acc].id, i)} ::
                acc in b.accounts && i < UsedCount(b.accounts[acc]) ==>
                  && i in b.accounts[acc].acc.assets
                  && Instantiate(TypeOnRecord(b, AssetId(b.accounts[acc].id, i))).Some?
  {
    hide Instantiate, TypeOnRecord, UsedCount, AssetId;
    if UsedMap(b).Some? {
      forall acc, i: nat | acc in b.accounts && i < UsedCount(b.accounts[acc])
        ensures Instantiate(TypeOnRecord(b, AssetId(b.accounts[acc].id, i))).Some?
      {
        assert AssetId(b.accounts[acc].id, i) in UsedIds(b);
      }
    } else if exists id :: id in UsedIds(b) && Instantiate(TypeOnRecord(b, id)).None? {
      var id :| id in UsedIds(b) && Instantiate(TypeOnRecord(b, id)).None?;
      var acc, i: nat :| acc in b.accounts && i < UsedCount(b.accounts[acc]) && id == AssetId(b.accounts[acc].id, i);
      assert Instantiate(TypeOnRecord(b, AssetId(b.accounts[acc].id, i))).None?;
    } else {
      var acc, i: nat :| acc in b.accounts && i < UsedCount(b.accounts[acc]) && i !in b.accounts[acc].acc.assets;
      var id := AssetId(b.accounts[acc].id, i);
    }
  }

  /**
   When a new address is handed out, and what stays if none is: the type must be one of the account's, the
   asset must be found, and the type must make an address; the cursor has moved unless the first is missing.
   */
  lemma NewAddressExact(b: Book, acc: Bytes, asked: u32)
    ensures var c, w := NewAddress(b, acc, asked), if asked == 0 then b.standard else asked;
            var known := acc in b.accounts && w in b.types;
            && (c.log != b.log <==>
                  known && NewAssetOf(b.accounts[acc].scheme, b.accounts[acc].acc).Some? && Bare(w) in ADDRESS_TYPES)
            && (c.log == b.log ==> c.addresses == b.addresses) && (!known ==> c == b)
            && (forall a :: a in b.accounts ==> a in c.accounts && c.accounts[a].id == b.accounts[a].id)
            && (forall a :: a in b.accounts ==>
                  c.accounts[a].acc == if known && a == acc then Next(b.accounts[a].scheme, b.accounts[a].acc, GetNew)
                                       else b.accounts[a].acc)
  {
    hide Next, NewAssetOf, Instantiate, TypeOf, AssetId, Recorded, Bare;
    var w: u32 := if asked == 0 then b.standard else asked;
    TypeNamesAddress(w);
    forall e: (Bytes, u32) ensures b.log + [e] != b.log {
      assert |b.log + [e]| != |b.log|;
    }
  }

  /** Such a type is one an account really has: uncompressed P2PKH next to another default. */
  lemma UncompressedIsLost()
    ensures var w: u32 := 0x1000_0001;
            Instantiate(w).Some? && Instantiate(TypeOf(Instantiate(w).value)) != Instantiate(w)
  {
    TypeMakesAddressAgain(0x1000_0001);
  }
}
