/** What every run of chain extensions, key fills and cursor moves keeps. */
module AssetChainProof {
  import opened Wrappers
  import opened Bytes
  import opened Records
  import opened AssetChain

  // ----- Invariant ----------------------------------------------------------

  /** The indices are exactly 0 to n - 1. */
  ghost predicate Contiguous(assets: map<nat, Asset>, n: nat) { forall i :: i in assets <==> 0 <= i < n }

  lemma {:induction false} ContiguousCount(assets: map<nat, Asset>, n: nat)
    requires Contiguous(assets, n)
    ensures |assets| == n
  {
    if n == 0 {
      assert assets == map[];
    } else {
      var rest := assets - {n - 1};
      ContiguousCount(rest, n - 1);
      assert assets.Keys == rest.Keys + {n - 1};
    }
  }

  predicate Filed(assets: map<nat, Asset>) {
    forall i :: i in assets ==> assets[i].index == i && assets[i].entry.Single?
  }

  /** Every key is derived from the one before, or from the root. */
  predicate Linked(scheme: Scheme, a: Account) {
    forall i {:trigger LinkedAt(scheme, a, i)} :: i in a.assets ==> LinkedAt(scheme, a, i)
  }

  predicate LinkedAt(scheme: Scheme, a: Account, i: nat)
    requires i in a.assets
  {
    if !scheme.legacy then a.root.Some? && a.assets[i].entry.pub == scheme.child(a.root.value.entry.pub, i)
    else if i == 0 then a.root.Some? ==> a.assets[0].entry.pub == scheme.chain(a.root.value.entry.pub)
    else i - 1 in a.assets && a.assets[i].entry.pub == scheme.chain(a.assets[i - 1].entry.pub)
  }

  /** The private keys are those of an initial segment. */
  predicate KeyedFirst(assets: map<nat, Asset>) {
    forall i, j :: i in assets && j in assets && i < j && HasKey(assets[j]) ==> HasKey(assets[i])
  }

  /** There is a root, or a first asset that the chain started from. */
  predicate Founded(scheme: Scheme, a: Account) {
    && (a.root.Some? ==> a.root.value.index == -1)
    && (a.root.None? ==> scheme.legacy && 0 in a.assets && HasKey(a.assets[0]))
  }

  ghost predicate Chain(scheme: Scheme, a: Account) {
    && Contiguous(a.assets, |a.assets|) && |a.assets| <= 0x8000_0000
    && Filed(a.assets) && Linked(scheme, a) && KeyedFirst(a.assets) && Founded(scheme, a)
  }

  /** Nothing is lost and no private key is replaced. */
  predicate Grows(a: Account, b: Account) {
    && b.root == a.root && b.lookup == a.lookup
    && forall i :: i in a.assets ==>
         && i in b.assets && b.assets[i].entry.pub == a.assets[i].entry.pub
         && (HasKey(a.assets[i]) ==> b.assets[i].entry == a.assets[i].entry)
  }

  // ----- Insertion ----------------------------------------------------------

  predicate Consecutive(news: seq<Asset>, start: nat) { forall j :: 0 <= j < |news| ==> news[j].index == start + j }

  /** Where index i stands after an insertion of consecutive assets. */
  function AfterInsert(assets: map<nat, Asset>, news: seq<Asset>, start: nat, private: bool, i: nat): Option<Asset> {
    if start <= i < start + |news| && !Stays(assets, i, private) then Some(news[i - start])
    else if i in assets then Some(assets[i])
    else None
  }

  lemma {:induction false} InsertedAt(assets: map<nat, Asset>, news: seq<Asset>, start: nat, private: bool, i: nat)
    requires Consecutive(news, start)
    ensures var r := Inserted(assets, news, private);
            var e := AfterInsert(assets, news, start, private, i);
            (i in r <==> e.Some?) && (i in r ==> r[i] == e.value)
    decreases |news|
  {
    if news != [] {
      var next := if Stays(assets, start, private) then assets else assets[start := news[0]];
      InsertedAt(next, news[1..], start + 1, private, i);
    }
  }

  // ----- Derived keys agree with the chain ----------------------------------

  lemma {:induction false} DerivedKeys(scheme: Scheme, from: PublicKey, start: nat, n: nat, iv: Option<nat>, j: nat)
    requires j < n
    ensures var v := Derived(scheme, from, start, n, iv);
            v[j] ==
            NewAsset(scheme, Step(scheme, if scheme.legacy && j > 0 then v[j - 1].entry.pub else from, start + j),
                     start + j, iv)
    decreases n
  {
    if j > 0 {
      var key := Step(scheme, from, start);
      DerivedKeys(scheme, if scheme.legacy then key else from, start + 1, n - 1, iv, j - 1);
    }
  }

  /** The key that derivation from `origin` starts at. */
  predicate StartsFrom(scheme: Scheme, a: Account, from: PublicKey, start: nat) {
    if !scheme.legacy then a.root.Some? && from == a.root.value.entry.pub
    else if start == 0 then a.root.Some? && from == a.root.value.entry.pub
    else start - 1 in a.assets && from == a.assets[start - 1].entry.pub
  }

  /** A key derived over an existing asset is the asset's own. */
  lemma {:induction false} DerivedAgrees(scheme: Scheme, a: Account, from: PublicKey, start: nat, n: nat,
                                         iv: Option<nat>, j: nat)
    requires Linked(scheme, a) && StartsFrom(scheme, a, from, start) && j < n && start + j in a.assets
    ensures Derived(scheme, from, start, n, iv)[j].entry.pub == a.assets[start + j].entry.pub
    decreases j
  {
    hide Derived;
    DerivedKeys(scheme, from, start, n, iv, j);
    assert LinkedAt(scheme, a, start + j);
    if scheme.legacy && j > 0 {
      DerivedAgrees(scheme, a, from, start, n, iv, j - 1);
    }
  }

  // ----- Extension keeps the chain ------------------------------------------

  /** Where an extension may start: at the root, or at an asset of the chain. */
  predicate OriginOf(a: Account, origin: Option<Asset>) {
    origin == a.root || (origin.Some? && origin.value.index in a.assets && origin.value == a.assets[origin.value.index])
  }

  lemma InsertKeepsChain(scheme: Scheme, a: Account, from: PublicKey, start: nat, n: nat, iv: Option<nat>)
    requires Chain(scheme, a) && StartsFrom(scheme, a, from, start)
    requires start <= |a.assets| && start + n <= 0x8000_0000
    requires iv.Some? && start > 0 ==> HasKey(a.assets[start - 1])
    ensures var b := a.(assets := Inserted(a.assets, Derived(scheme, from, start, n, iv), iv.Some?));
            Chain(scheme, b) && Grows(a, b) && |b.assets| == if start + n > |a.assets| then start + n else |a.assets|
  {
    hide Derived, Inserted, Linked, KeyedFirst, StartsFrom;
    InsertCounts(a.assets, Derived(scheme, from, start, n, iv), start, iv.Some?);
    InsertFiles(scheme, a, from, start, n, iv);
    InsertLinks(scheme, a, from, start, n, iv);
    InsertKeys(scheme, a, from, start, n, iv);
  }

  lemma InsertCounts(assets: map<nat, Asset>, news: seq<Asset>, start: nat, private: bool)
    requires Contiguous(assets, |assets|) && start <= |assets| && Consecutive(news, start)
    ensures var m := if start + |news| > |assets| then start + |news| else |assets|;
            Contiguous(Inserted(assets, news, private), m) && |Inserted(assets, news, private)| == m
  {
    hide Inserted;
    var b := Inserted(assets, news, private);
    var m := if start + |news| > |assets| then start + |news| else |assets|;
    forall i: nat ensures i in b <==> i < m {
      InsertedAt(assets, news, start, private, i);
    }
    ContiguousCount(b, m);
  }

  lemma InsertFiles(scheme: Scheme, a: Account, from: PublicKey, start: nat, n: nat, iv: Option<nat>)
    requires Filed(a.assets) && Linked(scheme, a) && StartsFrom(scheme, a, from, start)
    ensures var assets := Inserted(a.assets, Derived(scheme, from, start, n, iv), iv.Some?);
            && Filed(assets)
            && forall i :: i in a.assets && i in assets ==> assets[i].entry.pub == a.assets[i].entry.pub
  {
    hide Derived, Inserted, Linked, StartsFrom;
    var assets := Inserted(a.assets, Derived(scheme, from, start, n, iv), iv.Some?);
    forall i | i in assets
      ensures assets[i].index == i && assets[i].entry.Single?
      ensures i in a.assets ==> assets[i].entry.pub == a.assets[i].entry.pub
    {
      InsertedEntry(scheme, a, from, start, n, iv, i);
    }
  }

  /** An asset after the insertion: an old one, or a derived one that agrees with the old one in its place. */
  lemma InsertedEntry(scheme: Scheme, a: Account, from: PublicKey, start: nat, n: nat, iv: Option<nat>, i: nat)
    requires Filed(a.assets) && Linked(scheme, a) && StartsFrom(scheme, a, from, start)
    ensures var news := Derived(scheme, from, start, n, iv);
            var assets := Inserted(a.assets, news, iv.Some?);
            i in assets ==>
              && assets[i].index == i && assets[i].entry.Single?
              && (i in a.assets ==> assets[i].entry.pub == a.assets[i].entry.pub)
              && (start <= i < start + n ==> assets[i].entry.pub == news[i - start].entry.pub)
  {
    hide Derived, Inserted;
    var news := Derived(scheme, from, start, n, iv);
    InsertedAt(a.assets, news, start, iv.Some?, i);
    if start <= i < start + n {
      DerivedKeys(scheme, from, start, n, iv, i - start);
      if i in a.assets {
        DerivedAgrees(scheme, a, from, start, n, iv, i - start);
      }
    }
  }

  lemma InsertLinks(scheme: Scheme, a: Account, from: PublicKey, start: nat, n: nat, iv: Option<nat>)
    requires Filed(a.assets) && Linked(scheme, a) && StartsFrom(scheme, a, from, start) && Founded(scheme, a)
    requires Contiguous(a.assets, |a.assets|) && start <= |a.assets|
    ensures Linked(scheme, a.(assets := Inserted(a.assets, Derived(scheme, from, start, n, iv), iv.Some?)))
  {
    var news := Derived(scheme, from, start, n, iv);
    var b := a.(assets := Inserted(a.assets, news, iv.Some?));
    forall i | i in b.assets ensures LinkedAt(scheme, b, i) {
      InsertLinksAt(scheme, a, from, start, n, iv, i);
    }
  }

  lemma InsertLinksAt(scheme: Scheme, a: Account, from: PublicKey, start: nat, n: nat, iv: Option<nat>, i: nat)
    requires Filed(a.assets) && Linked(scheme, a) && StartsFrom(scheme, a, from, start) && Founded(scheme, a)
    requires Contiguous(a.assets, |a.assets|) && start <= |a.assets|
    ensures var b := a.(assets := Inserted(a.assets, Derived(scheme, from, start, n, iv), iv.Some?));
            i in b.assets ==> LinkedAt(scheme, b, i)
  {
    hide Derived, Inserted;
    var news := Derived(scheme, from, start, n, iv);
    var b := a.(assets := Inserted(a.assets, news, iv.Some?));
    if i in b.assets {
      InsertedEntry(scheme, a, from, start, n, iv, i);
      InsertedAt(a.assets, news, start, iv.Some?, i);
      if i > 0 {
        InsertedEntry(scheme, a, from, start, n, iv, i - 1);
        InsertedAt(a.assets, news, start, iv.Some?, i - 1);
      }
      if i in a.assets {
        assert LinkedAt(scheme, a, i);
      } else {
        DerivedKeys(scheme, from, start, n, iv, i - start);
      }
    }
  }

  lemma InsertKeys(scheme: Scheme, a: Account, from: PublicKey, start: nat, n: nat, iv: Option<nat>)
    requires Contiguous(a.assets, |a.assets|) && KeyedFirst(a.assets) && start <= |a.assets|
    requires iv.Some? && start > 0 ==> HasKey(a.assets[start - 1])
    ensures var b := a.(assets := Inserted(a.assets, Derived(scheme, from, start, n, iv), iv.Some?));
            && KeyedFirst(b.assets)
            && (forall i :: i in a.assets && HasKey(a.assets[i]) ==> i in b.assets && b.assets[i] == a.assets[i])
            && (iv.Some? ==> forall i :: 0 <= i < start + n ==> i in b.assets && HasKey(b.assets[i]))
  {
    hide Derived, Inserted;
    var news := Derived(scheme, from, start, n, iv);
    var b := a.(assets := Inserted(a.assets, news, iv.Some?));
    forall i: nat
      ensures i in b.assets <==> (i in a.assets || start <= i < start + n)
      ensures i in b.assets ==>
                HasKey(b.assets[i]) == ((i in a.assets && HasKey(a.assets[i])) || (iv.Some? && start <= i < start + n))
      ensures i in a.assets && HasKey(a.assets[i]) ==> b.assets[i] == a.assets[i]
    {
      InsertedAt(a.assets, news, start, iv.Some?, i);
      if start <= i < start + n {
        DerivedKeys(scheme, from, start, n, iv, i - start);
      }
    }
  }

  /** An extension from the root or a chain asset, a private one below which all have keys. */
  lemma ExtendedKeepsChain(scheme: Scheme, a: Account, origin: Option<Asset>, count: nat, iv: Option<nat>)
    requires Chain(scheme, a) && (OriginOf(a, origin) || (origin.None? && iv.Some?)) && count < 0x1_0000_0000
    requires iv.Some? && origin.Some? && origin.value.index >= 0 ==> HasKey(origin.value)
    ensures Extended(scheme, a, origin, count, iv).Some? ==>
              && Chain(scheme, Extended(scheme, a, origin, count, iv).value)
              && Grows(a, Extended(scheme, a, origin, count, iv).value)
  {
    hide Derived, Inserted, Chain, StartsFrom, OriginOf, Grows;
    var r := Extended(scheme, a, origin, count, iv);
    GrowsItself(a);
    if r.Some? && r.value != a {
      var index := if origin.None? then -1 else origin.value.index;
      var start, end := Unsigned(index + 1), Unsigned(index + count);
      OriginInRange(scheme, a, origin, iv);
      var source := if scheme.legacy then origin else a.root;
      InsertKeepsChain(scheme, a, source.value.entry.pub, start, end - start + 1, iv);
    }
  }

  lemma OriginInRange(scheme: Scheme, a: Account, origin: Option<Asset>, iv: Option<nat>)
    requires Chain(scheme, a) && (OriginOf(a, origin) || (origin.None? && iv.Some?))
    requires iv.Some? && origin.Some? && origin.value.index >= 0 ==> HasKey(origin.value)
    requires !(origin.None? && scheme.legacy) && (!scheme.legacy ==> a.root.Some?)
    ensures var index := if origin.None? then -1 else origin.value.index;
            && -1 <= index < |a.assets| && Unsigned(index + 1) == index + 1
            && StartsFrom(scheme, a, (if scheme.legacy then origin else a.root).value.entry.pub, index + 1)
            && (iv.Some? && index >= 0 ==> HasKey(a.assets[index]))
  {
  }

  // ----- Every operation keeps the chain ------------------------------------

  lemma LastIsOrigin(scheme: Scheme, a: Account)
    requires Chain(scheme, a)
    ensures OriginOf(a, LastAsset(a))
    ensures a.assets != map[] ==> LastComputed(a) == |a.assets| - 1 && LastAsset(a) == Some(a.assets[|a.assets| - 1])
  {
    if a.assets != map[] {
      var m := Highest(a.assets.Keys);
      assert |a.assets| - 1 in a.assets.Keys;
    }
  }

  lemma LastKeyedIsOrigin(a: Account, bound: nat)
    requires Filed(a.assets)
    ensures var r := LastKeyed(a.assets, bound);
            r.Some? ==>
              && r.value.index in a.assets && r.value == a.assets[r.value.index]
              && HasKey(r.value) && 0 <= r.value.index < bound
  {
  }

  /** An operation asks for an extension from the root or a chain asset, a private one from a keyed asset. */
  lemma AsksFromChain(scheme: Scheme, a: Account, act: Action)
    requires Chain(scheme, a)
    ensures var r := Ask(a, act);
            r.Some? ==>
              && (OriginOf(a, r.value.origin) || (r.value.origin.None? && r.value.iv.Some?))
              && (r.value.iv.Some? && r.value.origin.Some? && r.value.origin.value.index >= 0 ==>
                    HasKey(r.value.origin.value))
  {
    hide LastAsset, LastKeyed, Linked, KeyedFirst, Unsigned;
    LastIsOrigin(scheme, a);
    LastKeyedIsOrigin(a, ALL);
    if act.Fill? {
      LastKeyedIsOrigin(a, act.id);
    }
  }

  lemma AfterKeeps(scheme: Scheme, a: Account, act: Action)
    requires Chain(scheme, a)
    ensures var b := After(scheme, a, act);
            Chain(scheme, b) && Grows(a, b) && b.lastUsed == Started(a, act).lastUsed
  {
    hide Chain, Ask, Extended, Grows;
    var b := Started(a, act);
    BumpKeeps(scheme, a);
    GrowsItself(a);
    AsksFromChain(scheme, b, act);
    var q := Ask(b, act);
    if q.Some? {
      ExtendedKeepsChain(scheme, b, q.value.origin, q.value.count, q.value.iv);
      ExtendedKeepsCursor(scheme, b, q.value);
      if Answer(scheme, b, q.value).Some? {
        GrowsTransitive(a, b, After(scheme, a, act));
      }
    }
  }

  lemma ExtendedKeepsCursor(scheme: Scheme, a: Account, q: Request)
    ensures var r := Answer(scheme, a, q); r.Some? ==> r.value.lastUsed == a.lastUsed
  {
  }

  lemma BumpKeeps(scheme: Scheme, a: Account)
    requires Chain(scheme, a)
    ensures Chain(scheme, Bumped(a)) && Grows(a, Bumped(a))
  {
    var b := Bumped(a);
    forall i | i in b.assets ensures LinkedAt(scheme, b, i) {
      assert LinkedAt(scheme, a, i);
    }
  }

  lemma CleanKeeps(scheme: Scheme, a: Account)
    requires Chain(scheme, a)
    ensures Chain(scheme, Cleaned(a)) && Grows(a, Cleaned(a)) && |Cleaned(a).assets| == |a.assets|
  {
    var b := Cleaned(a);
    assert b.assets.Keys == a.assets.Keys;
    ContiguousCount(b.assets, |a.assets|);
    forall i | i in b.assets ensures LinkedAt(scheme, b, i) {
      assert LinkedAt(scheme, a, i);
    }
  }

  lemma GrowsTransitive(a: Account, b: Account, c: Account)
    requires Grows(a, b) && Grows(b, c)
    ensures Grows(a, c)
  {
  }

  lemma NextKeeps(scheme: Scheme, a: Account, act: Action)
    requires Chain(scheme, a)
    ensures Chain(scheme, Next(scheme, a, act)) && Grows(a, Next(scheme, a, act))
  {
    hide Chain, After, Writes, Grows;
    AfterKeeps(scheme, a, act);
    CleanKeeps(scheme, After(scheme, a, act));
    GrowsTransitive(a, After(scheme, a, act), Cleaned(After(scheme, a, act)));
  }

  // ----- Main results -------------------------------------------------------

  /**
   Over every run of extensions, fills and lookups the indices stay 0 to n - 1, the assets with a
   private key an initial segment, every key derived from its source; nothing is lost and no
   private key is replaced.
   */
  lemma {:induction false} RunKeepsChain(scheme: Scheme, a: Account, acts: seq<Action>)
    requires Chain(scheme, a)
    ensures Chain(scheme, Run(scheme, a, acts)) && Grows(a, Run(scheme, a, acts))
  {
    hide Chain, Next, Grows;
    if acts == [] {
      GrowsItself(a);
    } else {
      var front := acts[..|acts| - 1];
      RunKeepsChain(scheme, a, front);
      NextKeeps(scheme, Run(scheme, a, front), acts[|acts| - 1]);
      GrowsTransitive(a, Run(scheme, a, front), Run(scheme, a, acts));
    }
  }

  lemma GrowsItself(a: Account)
    ensures Grows(a, a)
  {
  }

  /** The number of assets with a private key. */
  ghost predicate KeyCount(a: Account, p: nat) {
    p <= |a.assets| && forall i :: i in a.assets ==> (HasKey(a.assets[i]) <==> i < p)
  }

  /**
   A public extension of an n-asset chain by count: count assets more while the chain fits below
   index 2^31; nothing at all when the 32-bit end index wraps around; else it throws.
   */
  lemma ExtendPublicExact(scheme: Scheme, a: Account, count: u32)
    requires Chain(scheme, a)
    ensures var n, r := |a.assets|, ExtendPublic(scheme, a, count);
            && (count == 0 || n + count > 0x1_0000_0000 ==> r == Some(a))
            && (0 < count <= 0x8000_0000 - n ==>
                  r.Some? && Chain(scheme, r.value) && Grows(a, r.value) && |r.value.assets| == n + count)
            && (0x8000_0000 - n < count <= 0x1_0000_0000 - n ==> r.None?)
  {
    hide Linked, KeyedFirst, Derived, Inserted;
    var n := |a.assets|;
    LastIsOrigin(scheme, a);
    if 0 < count <= 0x8000_0000 - n {
      PublicForm(scheme, a, count);
      InsertKeepsChain(scheme, a, SourceKey(scheme, a, n), n, count, None);
    } else if n + count > 0x1_0000_0000 {
      assert LastAsset(a).value.index == n - 1;
    }
  }

  /** The key that index n derives from. */
  function SourceKey(scheme: Scheme, a: Account, n: nat): PublicKey
    requires !scheme.legacy || n == 0 ==> a.root.Some?
    requires scheme.legacy && n > 0 ==> n - 1 in a.assets
  {
    if scheme.legacy && n > 0 then a.assets[n - 1].entry.pub else a.root.value.entry.pub
  }

  lemma PublicForm(scheme: Scheme, a: Account, count: nat)
    requires Chain(scheme, a) && 0 < count <= 0x8000_0000 - |a.assets|
    ensures var n := |a.assets|;
            && (!scheme.legacy || n == 0 ==> a.root.Some?) && (scheme.legacy && n > 0 ==> n - 1 in a.assets)
            && StartsFrom(scheme, a, SourceKey(scheme, a, n), n)
            && ExtendPublic(scheme, a, count) ==
               Some(a.(assets := Inserted(a.assets, Derived(scheme, SourceKey(scheme, a, n), n, count, None), false)))
  {
    hide Linked, KeyedFirst, Derived, Inserted, LastAsset, Unsigned;
    LastIsOrigin(scheme, a);
    EmptyChain(a);
    var n := |a.assets|;
    UnsignedSpan(n - 1, n - 1 + count);
  }

  lemma EmptyChain(a: Account)
    ensures a.assets == map[] ==> LastAsset(a) == a.root
  {
  }

  // ----- Two extensions in a row --------------------------------------------

  lemma {:induction false} DerivedAdds(scheme: Scheme, from: PublicKey, start: nat, x: nat, y: nat, iv: Option<nat>)
    requires x > 0
    ensures var v := Derived(scheme, from, start, x, iv);
            Derived(scheme, from, start, x + y, iv) ==
            v + Derived(scheme, if scheme.legacy then v[x - 1].entry.pub else from, start + x, y, iv)
    decreases x
  {
    hide Derived;
    var key := Step(scheme, from, start);
    var next, head := if scheme.legacy then key else from, NewAsset(scheme, key, start, iv);
    var w := Derived(scheme, next, start + 1, x - 1, iv);
    DerivedUnfolds(scheme, from, start, x, iv);
    DerivedUnfolds(scheme, from, start, x + y, iv);
    if x == 1 {
      assert w == [];
    } else {
      DerivedAdds(scheme, next, start + 1, x - 1, y, iv);
      Prepend(head, w, Derived(scheme, if scheme.legacy then w[x - 2].entry.pub else from, start + x, y, iv));
    }
  }

  lemma DerivedUnfolds(scheme: Scheme, from: PublicKey, start: nat, n: nat, iv: Option<nat>)
    requires n > 0
    ensures var key := Step(scheme, from, start);
            Derived(scheme, from, start, n, iv) ==
            [NewAsset(scheme, key, start, iv)]
            + Derived(scheme, if scheme.legacy then key else from, start + 1, n - 1, iv)
  {
  }

  lemma Prepend(head: Asset, v: seq<Asset>, w: seq<Asset>)
    ensures [head] + (v + w) == ([head] + v) + w
  {
  }

  lemma {:induction false} InsertedAdds(assets: map<nat, Asset>, v: seq<Asset>, w: seq<Asset>, private: bool)
    requires forall j :: 0 <= j < |v| ==> v[j].index >= 0
    requires forall j :: 0 <= j < |w| ==> w[j].index >= 0
    ensures Inserted(assets, v + w, private) == Inserted(Inserted(assets, v, private), w, private)
    decreases |v|
  {
    if v == [] {
      assert v + w == w;
    } else {
      var i := v[0].index;
      InsertedAdds(if Stays(assets, i, private) then assets else assets[i := v[0]], v[1..], w, private);
      assert (v + w)[1..] == v[1..] + w;
    }
  }

  /** The step behind both: from index start on, x assets and then y are x + y assets. */
  lemma InsertionAdds(scheme: Scheme, a: Account, from: PublicKey, start: nat, x: nat, y: nat, iv: Option<nat>)
    requires x > 0 && Chain(scheme, a) && StartsFrom(scheme, a, from, start)
    ensures var b := Inserted(a.assets, Derived(scheme, from, start, x, iv), iv.Some?);
            && start + x - 1 in b
            && Inserted(a.assets, Derived(scheme, from, start, x + y, iv), iv.Some?) ==
               Inserted(b,
                        Derived(scheme, if scheme.legacy then b[start + x - 1].entry.pub else from, start + x, y, iv),
                        iv.Some?)
  {
    hide Derived, Inserted;
    var v := Derived(scheme, from, start, x, iv);
    var next := if scheme.legacy then v[x - 1].entry.pub else from;
    DerivedAdds(scheme, from, start, x, y, iv);
    InsertedAdds(a.assets, v, Derived(scheme, next, start + x, y, iv), iv.Some?);
    InsertedAt(a.assets, v, start, iv.Some?, start + x - 1);
    InsertedEntry(scheme, a, from, start, x, iv, start + x - 1);
  }

  /** Extending by x and then by y is extending by x + y. */
  lemma PublicAdds(scheme: Scheme, a: Account, x: nat, y: nat)
    requires Chain(scheme, a) && |a.assets| + x + y <= 0x8000_0000
    ensures var b := ExtendPublic(scheme, a, x);
            b.Some? && ExtendPublic(scheme, b.value, y) == ExtendPublic(scheme, a, x + y)
  {
    hide Chain, Grows, StartsFrom, Derived, Inserted, ExtendPublic;
    ExtendPublicExact(scheme, a, x);
    if x > 0 && y > 0 {
      var n := |a.assets|;
      PublicForm(scheme, a, x);
      PublicForm(scheme, a, x + y);
      PublicForm(scheme, ExtendPublic(scheme, a, x).value, y);
      InsertionAdds(scheme, a, SourceKey(scheme, a, n), n, x, y, None);
    } else if y == 0 {
      PublicByNothing(scheme, ExtendPublic(scheme, a, x).value);
    }
  }

  lemma PublicByNothing(scheme: Scheme, a: Account)
    ensures ExtendPublic(scheme, a, 0) == Some(a)
  {
  }

  // ----- Private extension and filling --------------------------------------

  /** The asset that private derivation reads has a private key. */
  predicate CanSeal(scheme: Scheme, a: Account, p: nat) {
    if scheme.legacy then p > 0 else a.root.Some? && HasKey(a.root.value)
  }

  lemma LastKeyedIs(a: Account, p: nat, bound: nat)
    requires Contiguous(a.assets, |a.assets|) && KeyCount(a, p) && p <= bound
    ensures LastKeyed(a.assets, bound) == if p == 0 then None else Some(a.assets[p - 1])
  {
    if p > 0 {
      assert p - 1 in KeyedBelow(a.assets, bound);
    }
  }

  /** A derivation of keys for p to p + count - 1. */
  function Keyed(scheme: Scheme, a: Account, p: nat, count: nat, iv: nat): Account
    requires scheme.legacy && p > 0 ==> p - 1 in a.assets
    requires !scheme.legacy || p == 0 ==> a.root.Some?
  {
    a.(assets := Inserted(a.assets, Derived(scheme, SourceKey(scheme, a, p), p, count, Some(iv)), true))
  }

  lemma KeyedFacts(scheme: Scheme, a: Account, p: nat, count: nat, iv: nat)
    requires Chain(scheme, a) && KeyCount(a, p) && p + count <= 0x8000_0000
    requires !scheme.legacy || p == 0 ==> a.root.Some?
    ensures var b := Keyed(scheme, a, p, count, iv);
            && Chain(scheme, b) && Grows(a, b) && KeyCount(b, p + count)
            && |b.assets| == if p + count > |a.assets| then p + count else |a.assets|
  {
    hide Linked, KeyedFirst, Filed, Derived, Inserted;
    var b := Keyed(scheme, a, p, count, iv);
    InsertKeepsChain(scheme, a, SourceKey(scheme, a, p), p, count, Some(iv));
    InsertKeys(scheme, a, SourceKey(scheme, a, p), p, count, Some(iv));
    KeysAbove(scheme, a, p, count, iv);
  }

  lemma KeysAbove(scheme: Scheme, a: Account, p: nat, count: nat, iv: nat)
    requires KeyCount(a, p) && (scheme.legacy && p > 0 ==> p - 1 in a.assets)
    requires (!scheme.legacy || p == 0 ==> a.root.Some?)
    ensures var b := Keyed(scheme, a, p, count, iv);
            forall i :: i in b.assets && i >= p + count ==> !HasKey(b.assets[i])
  {
    hide Derived, Inserted;
    var b := Keyed(scheme, a, p, count, iv);
    forall i | i in b.assets && i >= p + count ensures !HasKey(b.assets[i]) {
      InsertedAt(a.assets, Derived(scheme, SourceKey(scheme, a, p), p, count, Some(iv)), p, true, i);
    }
  }

  /**
   A private extension of a chain with p keyed assets by count gives keys to p .. p + count - 1,
   under the same 32-bit bounds as a public one, and only if the source of derivation has a key.
   */
  lemma ExtendPrivateExact(scheme: Scheme, a: Account, p: nat, count: u32, iv: nat)
    requires Chain(scheme, a) && KeyCount(a, p)
    ensures var r := ExtendPrivate(scheme, a, count, iv);
            if count == 0 then r == Some(a)
            else if scheme.legacy && p == 0 then r.None?
            else if p + count > 0x1_0000_0000 then r == Some(a)
            else if p + count > 0x8000_0000 || !CanSeal(scheme, a, p) then r.None?
            else r == Some(Keyed(scheme, a, p, count, iv))
  {
    hide Linked, KeyedFirst, Derived, Inserted, LastKeyed;
    LastKeyedIs(a, p, ALL);
  }

  lemma PrivateAdds(scheme: Scheme, a: Account, p: nat, x: nat, y: nat, iv: nat)
    requires Chain(scheme, a) && KeyCount(a, p) && CanSeal(scheme, a, p) && p + x + y <= 0x8000_0000
    ensures var b := ExtendPrivate(scheme, a, x, iv);
            b.Some? && ExtendPrivate(scheme, b.value, y, iv) == ExtendPrivate(scheme, a, x + y, iv)
  {
    hide Chain, Grows, KeyCount, Derived, Inserted, ExtendPrivate;
    ExtendPrivateExact(scheme, a, p, x, iv);
    ExtendPrivateExact(scheme, a, p, x + y, iv);
    if x > 0 {
      var b := ExtendPrivate(scheme, a, x, iv).value;
      SourceReady(scheme, a, p);
      KeyedFacts(scheme, a, p, x, iv);
      ExtendPrivateExact(scheme, b, p + x, y, iv);
      InsertionAdds(scheme, a, SourceKey(scheme, a, p), p, x, y, Some(iv));
    }
  }

  lemma SourceReady(scheme: Scheme, a: Account, p: nat)
    requires Chain(scheme, a) && KeyCount(a, p) && CanSeal(scheme, a, p)
    ensures (scheme.legacy && p > 0 ==> p - 1 in a.assets) && (!scheme.legacy || p == 0 ==> a.root.Some?)
    ensures StartsFrom(scheme, a, SourceKey(scheme, a, p), p)
  {
  }

  /** Where a fill finds its first private key. */
  predicate CanFill(scheme: Scheme, a: Account, p: nat) {
    (scheme.legacy && p > 0) || (a.root.Some? && HasKey(a.root.value))
  }

  /**
   Filling the key of an asset without one succeeds exactly when there is a key to derive from,
   and then gives a key to it and to every asset before it, and to no other.
   */
  lemma FillExact(scheme: Scheme, a: Account, p: nat, id: u32, iv: nat)
    requires Chain(scheme, a) && KeyCount(a, p) && p <= id && id in a.assets
    ensures var r := FillPrivateKey(scheme, a, id, iv);
            && (r.Some? <==> CanFill(scheme, a, p))
            && (r.Some? ==>
                  && Chain(scheme, r.value) && Grows(a, r.value)
                  && |r.value.assets| == |a.assets| && KeyCount(r.value, id + 1))
  {
    hide Chain, KeyCount, Grows, FillPrivateKey, Keyed;
    FillForm(scheme, a, p, id, iv);
    if CanFill(scheme, a, p) {
      KeyedFacts(scheme, a, p, id + 1 - p, iv);
    }
  }

  lemma FillForm(scheme: Scheme, a: Account, p: nat, id: u32, iv: nat)
    requires Chain(scheme, a) && KeyCount(a, p) && p <= id && id in a.assets
    ensures CanFill(scheme, a, p) ==>
              && (scheme.legacy && p > 0 ==> p - 1 in a.assets) && (!scheme.legacy || p == 0 ==> a.root.Some?)
              && id + 1 <= |a.assets| <= 0x8000_0000
              && FillPrivateKey(scheme, a, id, iv) == Some(Keyed(scheme, a, p, id + 1 - p, iv))
    ensures !CanFill(scheme, a, p) ==> FillPrivateKey(scheme, a, id, iv).None?
  {
    hide Linked, KeyedFirst, Derived, Inserted, LastKeyed, Unsigned;
    LastKeyedIs(a, p, id);
    UnsignedSpan(p - 1, id);
  }

  lemma UnsignedSpan(from: int, to: nat)
    requires -1 <= from < to < 0x8000_0000
    ensures Unsigned(to - from) == to - from && Unsigned(from + 1) == from + 1 && Unsigned(from + (to - from)) == to
  {
  }

  // ----- New assets ---------------------------------------------------------

  lemma GrowsCounts(scheme: Scheme, a: Account, b: Account)
    requires Chain(scheme, a) && Chain(scheme, b) && Grows(a, b)
    ensures |a.assets| <= |b.assets|
  {
    if |a.assets| > 0 {
      assert |a.assets| - 1 in a.assets;
    }
  }

  /** With the cursor inside the chain and room to grow, the next asset is found. */
  lemma NewAssetFound(scheme: Scheme, a: Account)
    requires Chain(scheme, a) && a.lookup >= 1 && |a.assets| + a.lookup <= 0x8000_0000
    requires Bumped(a).lastUsed <= |a.assets|
    ensures var i := Bumped(a).lastUsed;
            && NewAssetOf(scheme, a).Some? && NewAssetOf(scheme, a).value.index == i
            && i < |Next(scheme, a, GetNew).assets|
  {
    hide Chain, Grows, Ask, Extended;
    BumpKeeps(scheme, a);
    var b := Bumped(a);
    ReachHas(scheme, b, b.lastUsed);
    AskNew(b);
    CleanKeeps(scheme, After(scheme, a, GetNew));
  }

  lemma AskNew(a: Account)
    ensures Ask(a, GetNew) == AskReach(a, a.lastUsed)
  {
  }

  lemma ReachHas(scheme: Scheme, a: Account, i: u32)
    requires Chain(scheme, a) && a.lookup >= 1 && |a.assets| + a.lookup <= 0x8000_0000 && i <= |a.assets|
    ensures var q := AskReach(a, i);
            var r := if q.None? then Some(a) else Answer(scheme, a, q.value);
            && r.Some? && Chain(scheme, r.value)
            && i in r.value.assets && i < |r.value.assets| && r.value.assets[i].index == i
  {
    hide Extended, Linked, KeyedFirst;
    ExtendPublicExact(scheme, a, a.lookup);
  }

  /** The n-th asset handed out has index n - 1; none is refused while the chain has room for a look-up. */
  lemma {:induction false} HandedOutInOrder(scheme: Scheme, a: Account, acts: seq<Action>)
    requires Chain(scheme, a) && a.lookup >= 1 && a.lastUsed == 0xFFFF_FFFF
    requires |Run(scheme, a, acts).assets| + a.lookup <= 0x8000_0000
    ensures var out, b := HandedOut(scheme, a, acts), Run(scheme, a, acts);
            && (forall j :: 0 <= j < |out| ==> out[j].Some? && out[j].value.index == j)
            && b.lastUsed == Unsigned(|out| - 1) && |out| <= |b.assets|
  {
    hide Chain, Next, Grows, NewAssetOf, Bumped, Unsigned;
    if acts == [] {
      CursorStarts();
    } else {
      var front, act := acts[..|acts| - 1], acts[|acts| - 1];
      var x, y := Run(scheme, a, front), Run(scheme, a, acts);
      RunKeepsChain(scheme, a, front);
      NextKeeps(scheme, x, act);
      GrowsCounts(scheme, x, y);
      HandedOutInOrder(scheme, a, front);
      CursorMoves(scheme, x, act);
      LookupStays(scheme, a, front);
      if act == GetNew {
        CursorSteps(x, |HandedOut(scheme, a, front)|);
        NewAssetFound(scheme, x);
      }
    }
  }

  lemma CursorStarts()
    ensures Unsigned(-1) == 0xFFFF_FFFF
  {
  }

  lemma CursorSteps(a: Account, k: nat)
    requires a.lastUsed == Unsigned(k - 1) && k < 0x8000_0000
    ensures Bumped(a).lastUsed == (a.lastUsed + 1) % 0x1_0000_0000 == k == Unsigned(k)
  {
  }

  lemma CursorMoves(scheme: Scheme, a: Account, act: Action)
    requires Chain(scheme, a)
    ensures Next(scheme, a, act).lastUsed == if act.GetNew? then (a.lastUsed + 1) % 0x1_0000_0000 else a.lastUsed
  {
    hide After, Writes;
    AfterKeeps(scheme, a, act);
  }

  lemma LookupStays(scheme: Scheme, a: Account, acts: seq<Action>)
    requires Chain(scheme, a)
    ensures Run(scheme, a, acts).lookup == a.lookup
  {
    RunKeepsChain(scheme, a, acts);
  }
}
