/** How far each operation takes the chain, and which keys it seals. */
module AssetChainExact {
  import opened Wrappers
  import opened Bytes
  import opened AssetChain
  import opened AssetChainProof

  // ----- Public operations --------------------------------------------------

  /** The size of a chain of n assets after an attempt to add count more: 2^31 is the limit. */
  function Grown(n: nat, count: nat): nat { if n + count <= 0x8000_0000 then n + count else n }

  /** Entries are as they were; only the dirty marks may differ. */
  ghost predicate SameEntries(a: Account, b: Account) {
    forall i :: i in a.assets ==> i in b.assets && b.assets[i].entry == a.assets[i].entry
  }

  /** What a public extension from the end of the chain leaves. */
  lemma PublicGrows(scheme: Scheme, a: Account, count: u32)
    requires Chain(scheme, a)
    ensures var b := OrElse(ExtendPublic(scheme, a, count), a);
            |b.assets| == Grown(|a.assets|, count) && SameEntries(a, b)
  {
    hide Chain, ExtendPublic, Grows, Inserted, Derived;
    ExtendPublicExact(scheme, a, count);
    var n := |a.assets|;
    ChainFits(scheme, a);
    if 0 < count <= 0x8000_0000 - n {
      PublicForm(scheme, a, count);
      var news := Derived(scheme, SourceKey(scheme, a, n), n, count, None);
      var assets := Inserted(a.assets, news, false);
      forall i | i in a.assets ensures i in assets && assets[i] == a.assets[i] {
        InsertedAt(a.assets, news, n, false, i);
      }
    }
  }

  lemma ChainFits(scheme: Scheme, a: Account)
    requires Chain(scheme, a)
    ensures |a.assets| <= 0x8000_0000 && forall i :: i in a.assets <==> 0 <= i < |a.assets|
  {
  }

  /** An operation that asks for a public extension from the end of the chain, or for nothing. */
  lemma PublicStep(scheme: Scheme, a: Account, act: Action, count: u32)
    requires Chain(scheme, a)
    requires var q := Ask(Started(a, act), act); q == None || q == Some(Request(LastAsset(a), count, None))
    ensures var b := Next(scheme, a, act);
            && |b.assets| == (if Ask(Started(a, act), act).None? then |a.assets| else Grown(|a.assets|, count))
            && SameEntries(a, b)
  {
    hide Chain, Extended, Ask, LastAsset, Grown, Grows;
    var s := Started(a, act);
    BumpKeeps(scheme, a);
    LastAssetStays(a);
    PublicGrows(scheme, s, count);
    AfterKeeps(scheme, a, act);
    CleanKeeps(scheme, After(scheme, a, act));
  }

  lemma LastAssetStays(a: Account)
    ensures LastAsset(Bumped(a)) == LastAsset(a)
  {
  }

  /**
   `extendPublicChainToIndex`: an empty chain gets count assets, one with assets is made to reach index
   count, and one that reaches it stays; where that goes beyond the limit nothing changes.
   */
  lemma PublicToExact(scheme: Scheme, a: Account, count: u32)
    requires Chain(scheme, a)
    ensures var n, b := |a.assets|, Next(scheme, a, PublicTo(count));
            && SameEntries(a, b)
            && |b.assets| == (if n == 0 then Grown(0, count)
                              else if count < n then n
                              else if count < 0x8000_0000 then count + 1 else n)
  {
    hide Next, Linked, KeyedFirst, LastAsset, LastComputed;
    LastIsOrigin(scheme, a);
    EmptyLast(a);
    var last := LastComputed(a);
    PublicStep(scheme, a, PublicTo(count), if last > count then 0 else count - last);
  }

  lemma EmptyLast(a: Account)
    ensures |a.assets| == 0 ==> LastComputed(a) == 0
    ensures |a.assets| > 0 ==> a.assets != map[]
  {
  }

  /**
   `getNewAsset` and `peekNextAsset` look up the asset behind the cursor, and add one look-up of assets
   if it is not there; the asset is found exactly if it is there then.
   */
  lemma ReachExact(scheme: Scheme, a: Account, act: Action)
    requires Chain(scheme, a) && (act.GetNew? || act.Peek?)
    ensures var n, i, b := |a.assets|, Bumped(a).lastUsed, Next(scheme, a, act);
            && SameEntries(a, b)
            && |b.assets| == (if i < n then n else Grown(n, a.lookup))
            && (i in b.assets <==> i < |b.assets|)
            && b.lastUsed == if act.GetNew? then i else a.lastUsed
  {
    hide Next, LastAsset, Grown, Chain, SameEntries;
    ChainFits(scheme, a);
    LastAssetStays(a);
    PublicStep(scheme, a, act, a.lookup);
    NextKeeps(scheme, a, act);
    ChainFits(scheme, Next(scheme, a, act));
    CursorMoves(scheme, a, act);
  }

  // ----- Private operations -------------------------------------------------

  lemma PrivateStep(scheme: Scheme, a: Account, act: Action, p: nat, count: u32, iv: nat)
    requires Chain(scheme, a) && KeyCount(a, p) && !act.GetNew?
    requires Ask(a, act) == Some(Request(LastKeyed(a.assets, ALL), count, Some(iv)))
    ensures var m := p + if CanSeal(scheme, a, p) && p + count <= 0x8000_0000 then count else 0;
            var b := Next(scheme, a, act);
            KeyCount(b, m) && |b.assets| == if m > |a.assets| then m else |a.assets|
  {
    hide Chain, Extended, Ask, LastKeyed, Grows, KeyCount, Keyed;
    ExtendPrivateExact(scheme, a, p, count, iv);
    KeysFit(scheme, a, p);
    if 0 < count && CanSeal(scheme, a, p) && p + count <= 0x8000_0000 {
      SourceReady(scheme, a, p);
      KeyedFacts(scheme, a, p, count, iv);
    }
    AfterKeeps(scheme, a, act);
    CleanKeeps(scheme, After(scheme, a, act));
    CleanKeys(After(scheme, a, act));
  }

  lemma KeysFit(scheme: Scheme, a: Account, p: nat)
    requires Chain(scheme, a) && KeyCount(a, p)
    ensures p <= |a.assets| <= 0x8000_0000
  {
  }

  lemma CleanKeys(a: Account)
    ensures forall p :: KeyCount(a, p) && |Cleaned(a).assets| == |a.assets| ==> KeyCount(Cleaned(a), p)
  {
  }

  /**
   `extendPrivateChainToIndex`: with no private keys yet, id assets get one; else all up to index id do.
   Nothing changes if they have it, if there is no key to derive from, or beyond the limit.
   */
  lemma PrivateToExact(scheme: Scheme, a: Account, p: nat, id: u32, iv: nat)
    requires Chain(scheme, a) && KeyCount(a, p)
    ensures var want := if p == 0 then id else if id < p then p else id + 1;
            var m := if CanSeal(scheme, a, p) && want <= 0x8000_0000 then want else p;
            var b := Next(scheme, a, PrivateTo(id, iv));
            KeyCount(b, m) && |b.assets| == if m > |a.assets| then m else |a.assets|
  {
    hide Next, LastKeyed, Linked, KeyedFirst, CanSeal;
    LastKeyedIs(a, p, ALL);
    if (if p == 0 then 0 else p - 1) < id {
      PrivateStep(scheme, a, PrivateTo(id, iv), p, if p == 0 then id else id - (p - 1), iv);
    } else {
      assert Next(scheme, a, PrivateTo(id, iv)) == a by { AsksNothing(scheme, a, PrivateTo(id, iv)); }
    }
  }

  lemma AsksNothing(scheme: Scheme, a: Account, act: Action)
    requires Ask(a, act).None? && !act.GetNew?
    ensures Next(scheme, a, act) == a
  {
    hide Ask;
  }

  /** `fillPrivateKey` of an asset that has its key changes nothing, and of one that is not there throws. */
  lemma FillOthers(scheme: Scheme, a: Account, id: u32, iv: nat)
    ensures id in a.assets && HasKey(a.assets[id]) ==> FillPrivateKey(scheme, a, id, iv) == Some(a)
    ensures id !in a.assets ==> FillPrivateKey(scheme, a, id, iv) == None
  {
  }

  // ----- Which keys are sealed ----------------------------------------------

  function Randomness(act: Action): Option<nat> {
    match act
    case PrivateBy(_, iv) => Some(iv)
    case PrivateTo(_, iv) => Some(iv)
    case Fill(_, iv) => Some(iv)
    case _ => None
  }

  /** The private key is the one of this asset: its own key pair, index and this randomness. */
  predicate SealedBy(scheme: Scheme, x: Asset, i: nat, iv: nat) {
    x.entry.priv == Some(scheme.seal(x.entry.pub, i, iv))
  }

  lemma ExtendedSeals(scheme: Scheme, a: Account, q: Request, i: nat)
    requires var r := Answer(scheme, a, q); r.Some? && i in r.value.assets
    ensures var b := Answer(scheme, a, q).value;
            || (i in a.assets && b.assets[i] == a.assets[i])
            || (b.assets[i].entry.priv.None? && q.iv.None?)
            || (q.iv.Some? && SealedBy(scheme, b.assets[i], i, q.iv.value))
  {
    hide Derived, Inserted, Unsigned;
    var b := Answer(scheme, a, q).value;
    if b != a {
      var index := if q.origin.None? then -1 else q.origin.value.index;
      var start, end := Unsigned(index + 1), Unsigned(index + q.count);
      var source := if scheme.legacy then q.origin else a.root;
      var news := Derived(scheme, source.value.entry.pub, start, end - start + 1, q.iv);
      InsertedAt(a.assets, news, start, q.iv.Some?, i);
      if start <= i <= end {
        DerivedKeys(scheme, source.value.entry.pub, start, end - start + 1, q.iv, i - start);
      }
    }
  }

  lemma AskRandomness(a: Account, act: Action)
    ensures Ask(a, act).Some? ==> Ask(a, act).value.iv == Randomness(act)
  {
  }

  /** After a step every private key is one from before, or was sealed for its asset with this step's randomness. */
  lemma StepSeals(scheme: Scheme, a: Account, act: Action, i: nat)
    requires var b := Next(scheme, a, act); i in b.assets && HasKey(b.assets[i])
    ensures var b := Next(scheme, a, act);
            || (i in a.assets && b.assets[i].entry == a.assets[i].entry)
            || (Randomness(act).Some? && SealedBy(scheme, b.assets[i], i, Randomness(act).value))
  {
    hide Answer, Ask;
    var s := Started(a, act);
    AskRandomness(s, act);
    var q := Ask(s, act);
    if q.Some? && Answer(scheme, s, q.value).Some? {
      ExtendedSeals(scheme, s, q.value, i);
    }
  }

  /**
   In every run each private key is one that was there at the start, or was sealed for the public key and
   index of its own asset, with the randomness of one of the private operations of the run.
   */
  lemma {:induction false} RunSeals(scheme: Scheme, a: Account, acts: seq<Action>, i: nat)
    requires var b := Run(scheme, a, acts); i in b.assets && HasKey(b.assets[i])
    ensures var b := Run(scheme, a, acts);
            || (i in a.assets && b.assets[i].entry == a.assets[i].entry)
            || exists k: nat :: k < |acts| && Randomness(acts[k]).Some?
                                && SealedBy(scheme, b.assets[i], i, Randomness(acts[k]).value)
  {
    hide Next, Randomness;
    if acts != [] {
      var n := |acts| - 1;
      var x, y := Run(scheme, a, acts[..n]), Run(scheme, a, acts);
      StepSeals(scheme, x, acts[n], i);
      if i in x.assets && y.assets[i].entry == x.assets[i].entry {
        RunSeals(scheme, a, acts[..n], i);
        if !(i in a.assets && x.assets[i].entry == a.assets[i].entry) {
          var k: nat :| k < n && Randomness(acts[..n][k]).Some?
                        && SealedBy(scheme, x.assets[i], i, Randomness(acts[..n][k]).value);
          assert acts[k] == acts[..n][k];
        }
      }
    }
  }
}
