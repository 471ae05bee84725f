/** What the readers of stored records accept: nothing but known versions and types, whole and without repetition. */
module RecordsAccepted {
  import opened Wrappers
  import opened Bytes
  import opened BinaryIO
  import opened Records
  import opened RecordsProof

  // ----- Torn records -------------------------------------------------------

  /** What follows a length does not change it. */
  lemma VarIntExtends(b: Bytes, more: Bytes)
    requires GetVarInt(b).Some?
    ensures GetVarInt(b + more) == Some((GetVarInt(b).value.0, GetVarInt(b).value.1 + more))
  {
    hide FromLittleEndian;
    var k := if b[0] < 0xFD then 0 else if b[0] == 0xFD then 2 else if b[0] == 0xFE then 4 else 8;
    assert (b + more)[1..] == b[1..] + more;
    assert (b[1..] + more)[..k] == b[1..][..k] && (b[1..] + more)[k..] == b[1..][k..] + more;
  }

  /** Only a packet whose length counts exactly what follows is unwrapped. */
  lemma UnwrapsOnlyWhole(body: Bytes, n: nat, more: Bytes)
    requires |body| < 0x1_0000_0000_0000_0000
    ensures n < |PutBlob(body, [])| ==> Unwrap(PutBlob(body, [])[..n]) == None
    ensures more != [] ==> Unwrap(PutBlob(body, []) + more) == None
  {
    hide PutVarInt, GetVarInt, GetBytes;
    var w := PutBlob(body, []);
    assert body + [] == body;
    VarIntReadsBack(|body|, body);
    VarIntExtends(w, more);
    if n < |w| && GetVarInt(w[..n]).Some? {
      VarIntExtends(w[..n], w[n..]);
      assert w[..n] + w[n..] == w;
    }
  }

  /** A stored entry that lost its end, or got more bytes at it, is refused. */
  lemma TornEntryIsRefused(curve: Curve, e: Entry, n: nat, more: Bytes)
    requires |EntryBody(e)| < 0x1_0000_0000_0000_0000
    ensures n < |WriteEntry(e)| ==> ReadEntry(curve, WriteEntry(e)[..n]) == None
    ensures more != [] ==> ReadEntry(curve, WriteEntry(e) + more) == None
  {
    hide Unwrap, PutBlob, EntryBody, GetEntry;
    UnwrapsOnlyWhole(EntryBody(e), n, more);
  }

  lemma TornEncryptedIsRefused(x: Encrypted, n: nat, more: Bytes)
    requires |EncryptedBody(x)| + |more| < 0x1_0000_0000
    ensures n < |WriteEncrypted(x)| ==> ReadEncrypted(WriteEncrypted(x)[..n]) == None
    ensures more != [] ==> ReadEncrypted(WriteEncrypted(x) + more) == None
  {
    hide PutVarInt, GetVarInt, EncryptedBody, GetEncrypted;
    var body := EncryptedBody(x);
    var w := WriteEncrypted(x);
    assert body + [] == body;
    VarIntReadsBack(|body|, body);
    VarIntExtends(w, more);
    if more != [] {
      EncryptedIsWhole(w + more);
    }
    if n < |w| && GetVarInt(w[..n]).Some? {
      VarIntExtends(w[..n], w[n..]);
      assert w[..n] + w[n..] == w;
      EncryptedIsWhole(w[..n]);
    }
  }

  lemma EncryptedIsWhole(b: Bytes)
    requires GetVarInt(b).Some? && GetVarInt(b).value.0 != |GetVarInt(b).value.1| < 0x1_0000_0000
    ensures ReadEncrypted(b) == None
  {
    hide GetVarInt;
    var rest := GetVarInt(b).value.1;
    assert rest[..|rest|] == rest;
  }

  // ----- Versions and types -------------------------------------------------

  /** The record starts with this version and this type. */
  predicate Heads(b: Bytes, version: nat, code: nat) {
    |b| >= 5 && FromLittleEndian(b[..4]) == version && b[4] as nat == code
  }

  lemma HeadRead(b: Bytes)
    ensures GetU32(b).Some? && GetByte(GetU32(b).value.1).Some? ==>
              Heads(b, GetU32(b).value.0, GetByte(GetU32(b).value.1).value.0)
  {
    hide FromLittleEndian;
  }

  /** A cipher that is read is of version 1, of the known type, and has an initialisation vector of 16 bytes. */
  lemma CipherIsKnown(b: Bytes)
    ensures GetCipher(b).Some? ==>
              Heads(b, 1, 0xB2) && |b| >= 6 && b[5] == 0 && ValidCipher(GetCipher(b).value.0)
  {
    hide GetBlob, FromLittleEndian;
    HeadRead(b);
  }

  /** Cipher data that is read is of version 1 and not empty; the two lengths do not go past the end. */
  lemma CipherDataIsKnown(b: Bytes)
    ensures GetCipherData(b).Some? ==>
              && |b| >= 4 && FromLittleEndian(b[..4]) == 1 && ValidCipherData(GetCipherData(b).value)
              && GetVarInt(b[4..]).Some?
              && var (len, rest) := GetVarInt(b[4..]).value;
                 len <= |rest| && (len < 0x1_0000_0000 ==> GetCipherData(b).value.text == rest[..len])
  {
    hide GetCipher, FromLittleEndian, GetVarInt;
    if GetCipherData(b).Some? {
      var (text, b2) := GetChecked(b[4..]).value;
      var (len, b3) := GetVarInt(b2).value;
      CipherIsKnown(b3);
    }
  }

  function TypeCode(x: Encrypted): nat {
    match x
    case Private(_) => 0x82
    case EncryptionKey(_, _) => 0x83
    case Seed(_) => 0x84
  }

  lemma {:induction false} EntriesAreValid(b: Bytes, count: nat, acc: map<Bytes, CipherData>)
    requires forall k :: k in acc ==> ValidCipherData(acc[k])
    ensures GetEntries(b, count, acc).Some? ==>
              forall k :: k in GetEntries(b, count, acc).value ==> ValidCipherData(GetEntries(b, count, acc).value[k])
    decreases count
  {
    hide GetChecked, GetCipherData;
    if count > 0 && GetChecked(b).Some? {
      var (packet, rest) := GetChecked(b).value;
      CipherDataIsKnown(packet);
      if GetCipherData(packet).Some? {
        var data := GetCipherData(packet).value;
        EntriesAreValid(rest, count - 1, if data.cipher.keyId in acc then acc else acc[data.cipher.keyId := data]);
      }
    }
  }

  /** Encrypted data that is read is whole, of version 1, of the type its code names, and valid. */
  lemma EncryptedIsKnown(totalLen: nat, b: Bytes)
    ensures GetEncrypted(totalLen, b).Some? ==>
              var x := GetEncrypted(totalLen, b).value;
              && totalLen == |b| && Heads(b, 1, TypeCode(x)) && ValidEncrypted(x)
              && (x.EncryptionKey? ==> Keyed(x.entries))
  {
    hide GetBlob, GetVarInt, GetChecked, GetCipherData, GetEntries, FromLittleEndian;
    HeadRead(b);
    if GetEncrypted(totalLen, b).Some? {
      var b2 := b[4..][1..];
      if b[4] == 0x83 {
        var b4 := GetVarInt(GetBlob(b2).value.1).value;
        EntriesAreValid(b4.1, b4.0, map[]);
        EntriesAreKeyed(b4.1, b4.0, map[]);
      } else {
        var packet := GetChecked(if b[4] == 0x82 then GetBlob(b2).value.1 else b2).value.0;
        CipherDataIsKnown(packet);
      }
    }
  }

  // ----- The key records of an entry ----------------------------------------

  function CodeOf(r: (nat, Bytes)): nat { if |r.1| >= 5 then r.1[4] as nat else 0 }

  datatype Piece = Public(key: Bytes) | Secret(priv: PrivateKey)

  /** A record of version 1 with a public key of either form and of its size, or with a private key. */
  function PieceOf(r: (nat, Bytes)): Option<Piece> {
    if !Heads(r.1, 1, CodeOf(r)) then None
    else if (CodeOf(r) == 0x80 && r.0 == 70) || (CodeOf(r) == 0x81 && r.0 == 38) then Some(Public(r.1[5..]))
    else if CodeOf(r) == 0x82 then
      match GetEncrypted(r.0, r.1)
      case Some(Private(k)) => Some(Secret(k))
      case _ => None
    else None
  }

  /** What the keys have for a code. */
  function Part(keys: Keys, code: nat): Option<Piece> {
    if code == 0x80 && keys.uncompressed != [] then Some(Public(keys.uncompressed))
    else if code == 0x81 && keys.compressed != [] then Some(Public(keys.compressed))
    else if code == 0x82 && keys.priv.Some? then Some(Secret(keys.priv.value))
    else None
  }

  predicate Measured(rs: seq<(nat, Bytes)>) { forall i :: 0 <= i < |rs| ==> rs[i].0 == |rs[i].1| }

  predicate NoRepeats(rs: seq<(nat, Bytes)>) { forall i, j :: 0 <= i < j < |rs| ==> CodeOf(rs[i]) != CodeOf(rs[j]) }

  predicate AllNew(keys: Keys, rs: seq<(nat, Bytes)>) {
    forall i :: 0 <= i < |rs| ==> PieceOf(rs[i]).Some? && Part(keys, CodeOf(rs[i])).None?
  }

  lemma OneKeyAdded(keys: Keys, r: (nat, Bytes))
    requires r.0 == |r.1|
    ensures AddKey(keys, r.0, r.1).Some? <==> PieceOf(r).Some? && Part(keys, CodeOf(r)).None?
    ensures AddKey(keys, r.0, r.1).Some? ==>
              forall code :: Part(AddKey(keys, r.0, r.1).value, code) ==
                             if code == CodeOf(r) then PieceOf(r) else Part(keys, code)
  {
    hide GetEncrypted, FromLittleEndian;
    HeadRead(r.1);
    assert |r.1| >= 5 ==> r.1[4..][1..] == r.1[5..];
  }

  /** Which part a list of records gives for a code: that of the record with the code, or the one from before. */
  ghost predicate PartIs(keys: Keys, rs: seq<(nat, Bytes)>, more: Keys, code: nat) {
    && (forall i :: 0 <= i < |rs| && CodeOf(rs[i]) == code ==> Part(more, code) == PieceOf(rs[i]))
    && ((forall i :: 0 <= i < |rs| ==> CodeOf(rs[i]) != code) ==> Part(more, code) == Part(keys, code))
  }

  /**
   A list of records is accepted exactly if each is a key record and no two have the same code; the keys
   then have exactly what is in the records, in whatever order they stand.
   */
  lemma {:induction false} KeysAreTheRecords(keys: Keys, rs: seq<(nat, Bytes)>)
    requires Measured(rs)
    ensures AddKeys(keys, rs).Some? <==> AllNew(keys, rs) && NoRepeats(rs)
    ensures AddKeys(keys, rs).Some? ==> forall code :: PartIs(keys, rs, AddKeys(keys, rs).value, code)
    decreases |rs|
  {
    hide PieceOf, AddKey, Part, CodeOf, PartIs;
    if rs == [] {
      forall code ensures PartIs(keys, rs, keys, code) {
        NoRecords(keys, code);
      }
    } else {
      OneKeyAdded(keys, rs[0]);
      var first := AddKey(keys, rs[0].0, rs[0].1);
      if first.Some? {
        KeysAreTheRecords(first.value, rs[1..]);
        RestIsNew(keys, first.value, rs);
        if AddKeys(first.value, rs[1..]).Some? {
          forall code ensures PartIs(keys, rs, AddKeys(keys, rs).value, code) {
            PartMoves(keys, first.value, rs, AddKeys(keys, rs).value, code);
          }
        }
      }
    }
  }

  lemma NoRecords(keys: Keys, code: nat)
    ensures PartIs(keys, [], keys, code)
  {
  }

  lemma RestIsNew(keys: Keys, first: Keys, rs: seq<(nat, Bytes)>)
    requires rs != [] && PieceOf(rs[0]).Some? && Part(keys, CodeOf(rs[0])).None?
    requires forall code :: Part(first, code) == if code == CodeOf(rs[0]) then PieceOf(rs[0]) else Part(keys, code)
    ensures AllNew(first, rs[1..]) && NoRepeats(rs[1..]) <==> AllNew(keys, rs) && NoRepeats(rs)
  {
    hide PieceOf, Part, CodeOf;
    var rest := rs[1..];
    assert forall i :: 0 < i < |rs| ==> rs[i] == rest[i - 1];
    if AllNew(first, rest) && NoRepeats(rest) {
      forall i | 0 < i < |rs| ensures CodeOf(rs[i]) != CodeOf(rs[0]) && Part(keys, CodeOf(rs[i])).None? {
        assert rs[i] == rest[i - 1];
      }
    }
    if AllNew(keys, rs) && NoRepeats(rs) {
      forall i | 0 <= i < |rest| ensures PieceOf(rest[i]).Some? && Part(first, CodeOf(rest[i])).None? {
        assert rest[i] == rs[i + 1];
      }
    }
  }

  lemma PartMoves(keys: Keys, first: Keys, rs: seq<(nat, Bytes)>, more: Keys, code: nat)
    requires rs != [] && NoRepeats(rs) && PartIs(first, rs[1..], more, code)
    requires Part(first, code) == if code == CodeOf(rs[0]) then PieceOf(rs[0]) else Part(keys, code)
    ensures PartIs(keys, rs, more, code)
  {
    hide PieceOf, Part, CodeOf;
    var rest := rs[1..];
    forall i | 0 < i < |rs| ensures rs[i] == rest[i - 1] {
    }
  }

  // ----- Entries ------------------------------------------------------------

  /** The version and type that an entry of each kind can have on file. */
  predicate Filed(e: Entry, version: nat, kind: nat) {
    match e
    case Single(_, _) => version == 1 && kind == 1
    case Bip32Root(_, _, _, _, _, _, seed, path) =>
      kind == 3 && (version == 2 || (version == 1 && seed == 0xFFFF_FFFF && path == []))
    case LegacyRoot(_, _, _) => version == 1 && kind == 4
  }

  /** An entry that is read has a version and type of its kind; the high half of the type byte does not count. */
  lemma EntryIsKnown(curve: Curve, b: Bytes)
    ensures GetEntry(curve, b).Some? ==>
              && |b| >= 5 && Filed(GetEntry(curve, b).value, FromLittleEndian(b[..4]), b[4] as nat % 16)
              && (GetEntry(curve, b).value.Single? ==> ValidPublic(GetEntry(curve, b).value.pub))
  {
    hide GetKeys, GetBlob, FromLittleEndian, PublicFrom;
    HeadRead(b);
  }

  // ----- Roots of version 1 -------------------------------------------------

  /** The body of a root entry before seed fingerprints and paths were kept. */
  function OldRootBody(e: Entry): Bytes
    requires e.Bip32Root?
  {
    PutU32(1, PutByte(3, PutByte(e.depth, PutU32(e.leaf, PutU32(e.fingerprint,
      PutBlob(e.chaincode, PutKeys(e.pub, e.priv)))))))
  }

  /** An old root reads as one without a path, and with the fingerprint that stands for none. */
  lemma OldRootReads(curve: Curve, e: Entry)
    requires e.Bip32Root? && ValidEntry(e) && |OldRootBody(e)| < 0x1_0000_0000 && OnCurve(curve, e.pub)
    ensures ReadEntry(curve, PutBlob(OldRootBody(e), [])) == Some(e.(seedFingerprint := 0xFFFF_FFFF, path := []))
  {
    hide PutU32, GetU32, PutByte, GetByte, PutBlob, GetBlob, PutVarInt, GetVarInt, PutKeys, GetKeys, Unwrap;
    var keys := PutKeys(e.pub, e.priv);
    var b2 := PutBlob(e.chaincode, keys);
    var b1 := PutU32(e.fingerprint, b2);
    var b0 := PutByte(e.depth, PutU32(e.leaf, b1));
    UnwrapsBack(OldRootBody(e));
    U32ReadsBack(1, PutByte(3, b0));
    ByteReadsBack(3, b0);
    ByteReadsBack(e.depth, PutU32(e.leaf, b1));
    U32ReadsBack(e.leaf, b1);
    U32ReadsBack(e.fingerprint, b2);
    BlobReadsBack(e.chaincode, keys);
    KeysReadBack(e.pub, e.priv);
  }

  // ----- Entries with one form of the public key ----------------------------

  predicate SomeForms(p: PublicKey) { |p.uncompressed| in {0, 65} && |p.compressed| in {0, 33} }

  /** The records of an entry, for any forms of its public key. */
  function RecordsFor(p: PublicKey, priv: Option<PrivateKey>): seq<(nat, Bytes)> {
    (if |p.uncompressed| == 65 then [(70, PutU32(1, PutByte(0x80, p.uncompressed)))] else [])
    + ((if |p.compressed| == 33 then [(38, PutU32(1, PutByte(0x81, p.compressed)))] else [])
       + if priv.None? then [] else [(|PrivateBody(priv.value)|, PrivateBody(priv.value))])
  }

  lemma FormsSplit(p: PublicKey, priv: Option<PrivateKey>)
    requires |PutKeys(p, priv)| < 0x1_0000_0000
    ensures SplitRecords(PutKeys(p, priv)) == Some(RecordsFor(p, priv))
    ensures priv.Some? ==> |PrivateBody(priv.value)| < 0x1_0000_0000
  {
    hide PutU32, PutByte, PutBlob, PrivateBody, SplitRecords;
    PrivateSplits(priv);
    var b := PutPrivate(priv);
    var compressed := PutU32(1, PutByte(0x81, p.compressed));
    var c := if |p.compressed| == 33 then PutBlob(compressed, b) else b;
    var secret := if priv.None? then [] else [(|PrivateBody(priv.value)|, PrivateBody(priv.value))];
    var r2 := (if |p.compressed| == 33 then [(38, compressed)] else []) + secret;
    if |p.compressed| == 33 {
      SplitOne(compressed, b);
    } else {
      assert r2 == secret;
    }
    assert SplitRecords(c) == Some(r2);
    if |p.uncompressed| == 65 {
      SplitOne(PutU32(1, PutByte(0x80, p.uncompressed)), c);
    } else {
      assert RecordsFor(p, priv) == [] + r2 == r2;
    }
  }

  lemma AddFirst(keys: Keys, r: (nat, Bytes), rest: seq<(nat, Bytes)>, more: Keys)
    requires AddKey(keys, r.0, r.1) == Some(more)
    ensures AddKeys(keys, [r] + rest) == AddKeys(more, rest)
  {
    hide AddKey;
    assert ([r] + rest)[1..] == rest;
  }

  /** Whichever forms of the public key are written, those are the ones that are read. */
  lemma FormsReadBack(p: PublicKey, priv: Option<PrivateKey>)
    requires SomeForms(p) && (priv.Some? ==> ValidCipherData(priv.value.data)) && |PutKeys(p, priv)| < 0x1_0000_0000
    ensures GetKeys(PutKeys(p, priv)) == Some(Keys(p.uncompressed, p.compressed, priv))
  {
    hide PutU32, GetU32, PutByte, GetByte, PutBlob, PrivateBody, AddKey, PutKeys, SplitRecords, AddKeys;
    FormsSplit(p, priv);
    var secret := if priv.None? then [] else [(|PrivateBody(priv.value)|, PrivateBody(priv.value))];
    var compressed := (38, PutU32(1, PutByte(0x81, p.compressed)));
    var r2 := (if |p.compressed| == 33 then [compressed] else []) + secret;
    var k1 := Keys(p.uncompressed, [], None);
    var k2 := Keys(p.uncompressed, p.compressed, None);
    if |p.uncompressed| == 65 {
      UncompressedAdded(NO_KEYS, p.uncompressed);
      AddFirst(NO_KEYS, (70, PutU32(1, PutByte(0x80, p.uncompressed))), r2, k1);
    } else {
      assert RecordsFor(p, priv) == r2 && k1 == NO_KEYS;
    }
    if |p.compressed| == 33 {
      CompressedAdded(k1, p.compressed);
      AddFirst(k1, compressed, secret, k2);
    } else {
      assert r2 == secret && k2 == k1;
    }
    SecretAdded(k2, priv);
  }

  lemma SecretAdded(keys: Keys, priv: Option<PrivateKey>)
    requires keys.priv.None?
    requires priv.Some? ==> ValidCipherData(priv.value.data) && |PrivateBody(priv.value)| < 0x1_0000_0000
    ensures var secret := if priv.None? then [] else [(|PrivateBody(priv.value)|, PrivateBody(priv.value))];
            AddKeys(keys, secret) == Some(keys.(priv := priv))
  {
    hide PrivateBody, AddKey;
    if priv.Some? {
      var r := (|PrivateBody(priv.value)|, PrivateBody(priv.value));
      PrivateAdded(keys, priv.value);
      AddFirst(keys, r, [], keys.(priv := priv));
      assert [r] + [] == [r];
    }
  }

  function FromCompressed(curve: Curve, p: PublicKey): PublicKey {
    PublicKey(curve.uncompress(p.compressed), p.compressed)
  }

  function FromUncompressed(curve: Curve, p: PublicKey): PublicKey {
    PublicKey(p.uncompressed, curve.compress(p.uncompressed))
  }

  /** What a reader makes of an entry by the forms of its public key: a root computes the form it lacks. */
  function FormsRead(curve: Curve, e: Entry): Option<Entry> {
    var p := e.pub;
    match e
    case Single(_, _) => if p.uncompressed != [] && p.compressed != [] then Some(e) else None
    case Bip32Root(_, priv, chaincode, depth, leaf, fingerprint, seed, path) =>
      if p.compressed == [] && p.uncompressed == [] then None else
      var q := if p.compressed != [] then FromCompressed(curve, p) else FromUncompressed(curve, p);
      Some(Bip32Root(q, priv, chaincode, depth, leaf, fingerprint, seed, path))
    case LegacyRoot(_, priv, chaincode) =>
      if p.compressed != [] then Some(LegacyRoot(FromCompressed(curve, p), priv, chaincode)) else None
  }

  predicate ValidForms(e: Entry) {
    && SomeForms(e.pub) && (e.priv.Some? ==> ValidCipherData(e.priv.value.data))
    && (e.Bip32Root? ==>
          && e.leaf < 0x1_0000_0000 && e.fingerprint < 0x1_0000_0000 && e.seedFingerprint < 0x1_0000_0000
          && forall i :: 0 <= i < |e.path| ==> e.path[i] < 0x1_0000_0000)
  }

  /** An entry with both forms of its public key, either of them, or none, read back: exactly what comes out. */
  lemma EveryFormReads(curve: Curve, e: Entry)
    requires ValidForms(e) && |EntryBody(e)| < 0x1_0000_0000
    ensures ReadEntry(curve, WriteEntry(e)) == FormsRead(curve, e)
  {
    hide Unwrap, PutBlob, EntryBody, GetEntry, ValidForms, FormsRead;
    UnwrapsBack(EntryBody(e));
    match e
    case Single(_, _) => SingleForms(curve, e);
    case Bip32Root(_, _, _, _, _, _, _, _) => Bip32Forms(curve, e);
    case LegacyRoot(_, _, _) => LegacyForms(curve, e);
  }

  lemma SingleForms(curve: Curve, e: Entry)
    requires e.Single? && ValidForms(e) && |EntryBody(e)| < 0x1_0000_0000
    ensures GetEntry(curve, EntryBody(e)) == FormsRead(curve, e)
  {
    hide PutU32, GetU32, PutByte, GetByte, PutBlob, GetBlob, PutKeys, GetKeys;
    var keys := PutKeys(e.pub, e.priv);
    U32ReadsBack(1, PutByte(1, keys));
    ByteReadsBack(1, keys);
    FormsReadBack(e.pub, e.priv);
  }

  lemma LegacyForms(curve: Curve, e: Entry)
    requires e.LegacyRoot? && ValidForms(e) && |EntryBody(e)| < 0x1_0000_0000
    ensures GetEntry(curve, EntryBody(e)) == FormsRead(curve, e)
  {
    hide PutU32, GetU32, PutByte, GetByte, PutBlob, GetBlob, PutVarInt, GetVarInt, PutKeys, GetKeys;
    var keys := PutKeys(e.pub, e.priv);
    var b := PutBlob(e.chaincode, keys);
    U32ReadsBack(1, PutByte(4, b));
    ByteReadsBack(4, b);
    BlobReadsBack(e.chaincode, keys);
    FormsReadBack(e.pub, e.priv);
  }

  lemma Bip32Forms(curve: Curve, e: Entry)
    requires e.Bip32Root? && ValidForms(e) && |EntryBody(e)| < 0x1_0000_0000
    ensures GetEntry(curve, EntryBody(e)) == FormsRead(curve, e)
  {
    hide PutU32, GetU32, PutByte, GetByte, PutBlob, GetBlob, PutVarInt, GetVarInt, PutPath, PutKeys, GetKeys,
         GetDerivation;
    var keys := PutKeys(e.pub, e.priv);
    var b4 := PutVarInt(|e.path|, PutPath(e.path, keys));
    var b3 := PutU32(e.seedFingerprint, b4);
    var b2 := PutBlob(e.chaincode, b3);
    var b1 := PutU32(e.fingerprint, b2);
    var b0 := PutByte(e.depth, PutU32(e.leaf, b1));
    U32ReadsBack(2, PutByte(3, b0));
    ByteReadsBack(3, b0);
    ByteReadsBack(e.depth, PutU32(e.leaf, b1));
    U32ReadsBack(e.leaf, b1);
    U32ReadsBack(e.fingerprint, b2);
    BlobReadsBack(e.chaincode, b3);
    DerivationReadsBack(e.seedFingerprint, e.path, keys);
    FormsReadBack(e.pub, e.priv);
  }
}
