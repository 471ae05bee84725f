/** Every stored record reads back as it was written. */
module RecordsProof {
  import opened Wrappers
  import opened Bytes
  import opened BinaryIO
  import opened KeyOrder
  import opened Records

  // ----- Ciphers ------------------------------------------------------------

  lemma CipherReadsBack(c: Cipher, rest: Bytes)
    requires ValidCipher(c) && |c.kdfId| < 0x1_0000_0000 && |c.keyId| < 0x1_0000_0000
    ensures GetCipher(PutCipher(c, rest)) == Some((c, rest))
  {
    hide PutU32, GetU32, PutByte, GetByte, PutBlob, GetBlob, PutVarInt, GetVarInt;
    var b6 := PutBlob(c.iv, rest);
    var b5 := PutBlob(c.keyId, b6);
    var b4 := PutBlob(c.kdfId, b5);
    BlobReadsBack(c.iv, rest);
    BlobReadsBack(c.keyId, b6);
    BlobReadsBack(c.kdfId, b5);
    ByteReadsBack(0, b4);
    ByteReadsBack(0xB2, PutByte(0, b4));
    U32ReadsBack(1, PutByte(0xB2, PutByte(0, b4)));
  }

  lemma CheckedReadsBack(data: Bytes, rest: Bytes)
    requires |data| < 0x1_0000_0000
    ensures GetChecked(PutBlob(data, rest)) == Some((data, rest))
  {
    hide PutVarInt, GetVarInt, GetBytes;
    VarIntReadsBack(|data|, data + rest);
    BytesReadBack(data, rest);
  }

  lemma CipherDataReadsBack(d: CipherData)
    requires ValidCipherData(d) && |PutCipherData(d)| < 0x1_0000_0000
    ensures GetCipherData(PutCipherData(d)) == Some(d)
  {
    hide PutU32, GetU32, PutVarInt, GetVarInt, GetChecked, PutCipher, GetCipher;
    var c := PutCipher(d.cipher, []);
    var b := PutBlob(c, []);
    U32ReadsBack(1, PutBlob(d.text, b));
    CheckedReadsBack(d.text, b);
    VarIntReadsBack(|c|, c + []);
    assert c + [] == c;
    CipherReadsBack(d.cipher, []);
  }

  // ----- Encrypted data -----------------------------------------------------

  /** Each entry is filed under the key id of its own cipher. */
  predicate Keyed(m: map<Bytes, CipherData>) { forall k :: k in m ==> m[k].cipher.keyId == k }

  lemma {:induction false} EntriesAreKeyed(b: Bytes, count: nat, acc: map<Bytes, CipherData>)
    requires Keyed(acc)
    ensures GetEntries(b, count, acc).Some? ==> Keyed(GetEntries(b, count, acc).value)
    decreases count
  {
    hide GetChecked, GetCipherData;
    if count > 0 && GetChecked(b).Some? && GetCipherData(GetChecked(b).value.0).Some? {
      var (packet, rest) := GetChecked(b).value;
      var data := GetCipherData(packet).value;
      EntriesAreKeyed(rest, count - 1, if data.cipher.keyId in acc then acc else acc[data.cipher.keyId := data]);
    }
  }

  lemma EntryStep(data: CipherData, rest: Bytes, n: nat, acc: map<Bytes, CipherData>)
    requires ValidCipherData(data) && |PutCipherData(data)| < 0x1_0000_0000 && data.cipher.keyId !in acc
    ensures GetEntries(PutBlob(PutCipherData(data), rest), n + 1, acc) ==
            GetEntries(rest, n, acc[data.cipher.keyId := data])
  {
    hide GetChecked, GetCipherData, PutBlob, PutCipherData;
    CheckedReadsBack(PutCipherData(data), rest);
    CipherDataReadsBack(data);
  }

  function Restrict(m: map<Bytes, CipherData>, keys: seq<Bytes>): map<Bytes, CipherData>
    requires forall k :: k in keys ==> k in m
  {
    map k | k in keys :: m[k]
  }

  lemma RestrictStep(m: map<Bytes, CipherData>, keys: seq<Bytes>, acc: map<Bytes, CipherData>)
    requires keys != [] && forall k :: k in keys ==> k in m
    requires keys[0] !in keys[1..] && keys[0] !in acc
    ensures acc[keys[0] := m[keys[0]]] + Restrict(m, keys[1..]) == acc + Restrict(m, keys)
  {
    assert keys == [keys[0]] + keys[1..];
  }

  lemma {:induction false} EntriesReadBack(m: map<Bytes, CipherData>, keys: seq<Bytes>, acc: map<Bytes, CipherData>)
    requires forall k :: k in keys ==> k in m && ValidCipherData(m[k]) && k !in acc
    requires Distinct(keys) && Keyed(m) && |PutEntries(m, keys)| < 0x1_0000_0000
    ensures GetEntries(PutEntries(m, keys), |keys|, acc) == Some(acc + Restrict(m, keys))
    decreases |keys|
  {
    hide PutBlob, PutCipherData, GetChecked, GetCipherData, ValidCipherData;
    if keys == [] {
      assert acc + Restrict(m, keys) == acc;
    } else {
      var k, rest := keys[0], keys[1..];
      EntryStep(m[k], PutEntries(m, rest), |rest|, acc);
      EntriesReadBack(m, rest, acc[k := m[k]]);
      RestrictStep(m, keys, acc);
    }
  }

  lemma EncryptionKeyReadsBack(x: Encrypted)
    requires x.EncryptionKey? && ValidEncrypted(x) && |EncryptedBody(x)| < 0x1_0000_0000
    ensures GetEncrypted(|EncryptedBody(x)|, EncryptedBody(x)) == Some(x) <==> Keyed(x.entries)
  {
    hide EncryptedBody, GetEncrypted, GetEntries, PutEntries, InOrder;
    EncryptionKeyHead(x);
    var keys := InOrder(x.entries.Keys);
    if Keyed(x.entries) {
      InOrderDistinct(x.entries.Keys);
      EntriesReadBack(x.entries, keys, map[]);
      assert map[] + Restrict(x.entries, keys) == x.entries;
    } else {
      EntriesAreKeyed(PutEntries(x.entries, keys), |x.entries|, map[]);
    }
  }

  lemma EncryptionKeyHead(x: Encrypted)
    requires x.EncryptionKey? && |EncryptedBody(x)| < 0x1_0000_0000
    ensures var b := PutEntries(x.entries, InOrder(x.entries.Keys));
            && |b| < 0x1_0000_0000
            && GetEncrypted(|EncryptedBody(x)|, EncryptedBody(x)) ==
               match GetEntries(b, |x.entries|, map[]) {
                 case None => None
                 case Some(m) => Some(EncryptionKey(x.id, m))
               }
  {
    hide PutU32, GetU32, PutByte, GetByte, PutBlob, GetBlob, PutVarInt, GetVarInt, GetEntries, PutEntries, InOrder;
    var keys := InOrder(x.entries.Keys);
    var b4 := PutEntries(x.entries, keys);
    var b3 := PutVarInt(|x.entries|, b4);
    var b2 := PutBlob(x.id, b3);
    U32ReadsBack(1, PutByte(0x83, b2));
    ByteReadsBack(0x83, b2);
    BlobReadsBack(x.id, b3);
    EntriesCounted(x.entries, keys);
    VarIntReadsBack(|x.entries|, b4);
  }

  lemma {:induction false} EntriesCounted(m: map<Bytes, CipherData>, keys: seq<Bytes>)
    requires forall k :: k in keys ==> k in m
    ensures |keys| <= |PutEntries(m, keys)|
    decreases |keys|
  {
    if keys != [] {
      EntriesCounted(m, keys[1..]);
    }
  }

  lemma PrivateReadsBack(k: PrivateKey)
    requires ValidCipherData(k.data) && |PrivateBody(k)| < 0x1_0000_0000
    ensures GetEncrypted(|PrivateBody(k)|, PrivateBody(k)) == Some(Private(k))
  {
    hide PutU32, GetU32, PutByte, GetByte, PutBlob, GetBlob, PutVarInt, GetVarInt, GetChecked, PutCipherData,
         GetCipherData;
    var packet := PutCipherData(k.data);
    var b3 := PutBlob(packet, []);
    U32ReadsBack(1, PutByte(0x82, PutBlob(k.id, b3)));
    ByteReadsBack(0x82, PutBlob(k.id, b3));
    BlobReadsBack(k.id, b3);
    CheckedReadsBack(packet, []);
    CipherDataReadsBack(k.data);
  }

  lemma SeedReadsBack(d: CipherData)
    requires ValidCipherData(d) && |EncryptedBody(Seed(d))| < 0x1_0000_0000
    ensures GetEncrypted(|EncryptedBody(Seed(d))|, EncryptedBody(Seed(d))) == Some(Seed(d))
  {
    hide PutU32, GetU32, PutByte, GetByte, PutBlob, GetBlob, PutVarInt, GetVarInt, GetChecked, PutCipherData,
         GetCipherData;
    var packet := PutCipherData(d);
    U32ReadsBack(1, PutByte(0x84, PutBlob(packet, [])));
    ByteReadsBack(0x84, PutBlob(packet, []));
    CheckedReadsBack(packet, []);
    CipherDataReadsBack(d);
  }

  /**
   Private keys, seeds, and encryption keys with any number of cipher entries read back as they
   were written; an encryption key does so exactly when its entries are filed under their own ids.
   */
  lemma EncryptedReadsBack(x: Encrypted)
    requires ValidEncrypted(x) && |EncryptedBody(x)| < 0x1_0000_0000
    ensures ReadEncrypted(WriteEncrypted(x)) == Some(x) <==> (x.EncryptionKey? ==> Keyed(x.entries))
  {
    hide PutVarInt, GetVarInt, GetBytes, EncryptedBody, GetEncrypted, ValidEncrypted, Keyed;
    var body := EncryptedBody(x);
    assert body + [] == body;
    VarIntReadsBack(|body|, body);
    BytesReadBack(body, []);
    BodyReadsBack(x);
  }

  lemma BodyReadsBack(x: Encrypted)
    requires ValidEncrypted(x) && |EncryptedBody(x)| < 0x1_0000_0000
    ensures GetEncrypted(|EncryptedBody(x)|, EncryptedBody(x)) == Some(x) <==> (x.EncryptionKey? ==> Keyed(x.entries))
  {
    hide PutU32, PutByte, PutBlob, PutVarInt, PutCipherData, PutEntries, PrivateBody, GetEncrypted;
    match x
    case Private(k) => PrivateReadsBack(k);
    case EncryptionKey(_, _) => EncryptionKeyReadsBack(x);
    case Seed(d) => SeedReadsBack(d);
  }

  // ----- Asset entries ------------------------------------------------------

  /** The records of an entry: uncompressed key, compressed key, private key if there is one. */
  function RecordsOf(p: PublicKey, priv: Option<PrivateKey>): seq<(nat, Bytes)> {
    [(70, PutU32(1, PutByte(0x80, p.uncompressed))), (38, PutU32(1, PutByte(0x81, p.compressed)))]
    + if priv.None? then [] else [(|PrivateBody(priv.value)|, PrivateBody(priv.value))]
  }

  lemma SplitOne(data: Bytes, rest: Bytes)
    requires |data| < 0x1_0000_0000
    ensures SplitRecords(PutBlob(data, rest)) ==
            if SplitRecords(rest).None? then None else Some([(|data|, data)] + SplitRecords(rest).value)
  {
    hide PutVarInt, GetVarInt, GetBytes;
    VarIntReadsBack(|data|, data + rest);
    BytesReadBack(data, rest);
  }

  lemma PrivateSplits(priv: Option<PrivateKey>)
    requires |PutPrivate(priv)| < 0x1_0000_0000
    ensures SplitRecords(PutPrivate(priv)) ==
            Some(if priv.None? then [] else [(|PrivateBody(priv.value)|, PrivateBody(priv.value))])
  {
    hide PutBlob, PrivateBody;
    if priv.Some? {
      SplitOne(PrivateBody(priv.value), []);
      var record := (|PrivateBody(priv.value)|, PrivateBody(priv.value));
      assert SplitRecords([]) == Some([]) && [record] + [] == [record];
    }
  }

  lemma KeysSplit(p: PublicKey, priv: Option<PrivateKey>)
    requires ValidPublic(p) && |PutKeys(p, priv)| < 0x1_0000_0000
    ensures SplitRecords(PutKeys(p, priv)) == Some(RecordsOf(p, priv))
    ensures priv.Some? ==> |PrivateBody(priv.value)| < 0x1_0000_0000
  {
    hide PutU32, PutByte, PutBlob, PrivateBody, SplitRecords;
    PrivateSplits(priv);
    var b := PutPrivate(priv);
    var compressed := PutU32(1, PutByte(0x81, p.compressed));
    SplitOne(compressed, b);
    SplitOne(PutU32(1, PutByte(0x80, p.uncompressed)), PutBlob(compressed, b));
    var r := RecordsOf(p, priv);
    assert r == [r[0]] + ([r[1]] + r[2..]);
  }

  lemma UncompressedAdded(keys: Keys, key: Bytes)
    requires |key| == 65 && keys.uncompressed == []
    ensures AddKey(keys, 70, PutU32(1, PutByte(0x80, key))) == Some(keys.(uncompressed := key))
  {
    hide PutU32, GetU32, PutByte, GetByte, PutBlob, GetBlob, PutVarInt, GetVarInt, GetEncrypted;
    U32ReadsBack(1, PutByte(0x80, key));
    ByteReadsBack(0x80, key);
  }

  lemma CompressedAdded(keys: Keys, key: Bytes)
    requires |key| == 33 && keys.compressed == []
    ensures AddKey(keys, 38, PutU32(1, PutByte(0x81, key))) == Some(keys.(compressed := key))
  {
    hide PutU32, GetU32, PutByte, GetByte, PutBlob, GetBlob, PutVarInt, GetVarInt, GetEncrypted;
    U32ReadsBack(1, PutByte(0x81, key));
    ByteReadsBack(0x81, key);
  }

  lemma PrivateAdded(keys: Keys, k: PrivateKey)
    requires keys.priv.None? && ValidCipherData(k.data) && |PrivateBody(k)| < 0x1_0000_0000
    ensures AddKey(keys, |PrivateBody(k)|, PrivateBody(k)) == Some(keys.(priv := Some(k)))
  {
    hide PutU32, GetU32, PutByte, GetByte, PutBlob, GetBlob, PutVarInt, GetVarInt, GetEncrypted, PutCipherData;
    var b := PutBlob(k.id, PutBlob(PutCipherData(k.data), []));
    U32ReadsBack(1, PutByte(0x82, b));
    ByteReadsBack(0x82, b);
    PrivateReadsBack(k);
  }

  lemma KeysReadBack(p: PublicKey, priv: Option<PrivateKey>)
    requires ValidPublic(p) && (priv.Some? ==> ValidCipherData(priv.value.data)) && |PutKeys(p, priv)| < 0x1_0000_0000
    ensures GetKeys(PutKeys(p, priv)) == Some(Keys(p.uncompressed, p.compressed, priv))
  {
    hide PutU32, GetU32, PutByte, GetByte, PutBlob, GetBlob, PutVarInt, GetVarInt, PrivateBody, AddKey, PutKeys,
         SplitRecords;
    KeysSplit(p, priv);
    var r := RecordsOf(p, priv);
    UncompressedAdded(NO_KEYS, p.uncompressed);
    var k1 := Keys(p.uncompressed, [], None);
    CompressedAdded(k1, p.compressed);
    var k2 := Keys(p.uncompressed, p.compressed, None);
    assert AddKeys(NO_KEYS, r) == AddKeys(k1, r[1..]) == AddKeys(k2, r[1..][1..]);
    if priv.Some? {
      PrivateAdded(k2, priv.value);
      var r2 := r[1..][1..];
      assert r2 == [(|PrivateBody(priv.value)|, PrivateBody(priv.value))];
      assert AddKeys(k2, r2) == AddKeys(k2.(priv := priv), r2[1..]);
    }
  }

  lemma {:induction false} PathReadsBack(path: seq<nat>, rest: Bytes)
    requires forall i :: 0 <= i < |path| ==> path[i] < 0x1_0000_0000
    ensures GetPath(PutPath(path, rest), |path|) == Some((path, rest))
    decreases |path|
  {
    hide PutU32, GetU32;
    if path != [] {
      U32ReadsBack(path[0], PutPath(path[1..], rest));
      PathReadsBack(path[1..], rest);
      assert path == [path[0]] + path[1..];
    }
  }

  /** The root constructors keep one form of the key and compute the other. */
  predicate OnCurve(curve: Curve, p: PublicKey) { p.uncompressed == curve.uncompress(p.compressed) }

  lemma Bip32RootReadsBack(curve: Curve, e: Entry)
    requires e.Bip32Root? && ValidEntry(e) && |EntryBody(e)| < 0x1_0000_0000
    ensures GetEntry(curve, EntryBody(e)) == Some(e) <==> OnCurve(curve, e.pub)
  {
    hide PutU32, GetU32, PutByte, GetByte, PutBlob, GetBlob, PutVarInt, GetVarInt, PutPath, PutKeys, GetKeys,
         GetDerivation;
    var keys := PutKeys(e.pub, e.priv);
    var b5 := PutPath(e.path, keys);
    var b4 := PutVarInt(|e.path|, b5);
    var b3 := PutU32(e.seedFingerprint, b4);
    var b2 := PutBlob(e.chaincode, b3);
    var b1 := PutU32(e.fingerprint, b2);
    var b0 := PutByte(e.depth, PutU32(e.leaf, b1));
    U32ReadsBack(2, PutByte(3, b0));
    ByteReadsBack(3, b0);
    ByteReadsBack(e.depth, PutU32(e.leaf, b1));
    U32ReadsBack(e.leaf, b1);
    U32ReadsBack(e.fingerprint, b2);
    BlobReadsBack(e.chaincode, b3);
    DerivationReadsBack(e.seedFingerprint, e.path, keys);
    KeysReadBack(e.pub, e.priv);
  }

  lemma DerivationReadsBack(seed: nat, path: seq<nat>, rest: Bytes)
    requires seed < 0x1_0000_0000 && |path| < 0x1_0000_0000 && forall i :: 0 <= i < |path| ==> path[i] < 0x1_0000_0000
    ensures GetDerivation(2, PutU32(seed, PutVarInt(|path|, PutPath(path, rest)))) == Some(((seed, path), rest))
  {
    hide PutU32, GetU32, PutByte, GetByte, PutBlob, GetBlob, PutVarInt, GetVarInt, PutPath, GetPath;
    var b := PutPath(path, rest);
    U32ReadsBack(seed, PutVarInt(|path|, b));
    VarIntReadsBack(|path|, b);
    PathReadsBack(path, rest);
  }

  lemma LegacyRootReadsBack(curve: Curve, e: Entry)
    requires e.LegacyRoot? && ValidEntry(e) && |EntryBody(e)| < 0x1_0000_0000
    ensures GetEntry(curve, EntryBody(e)) == Some(e) <==> OnCurve(curve, e.pub)
  {
    hide PutU32, GetU32, PutByte, GetByte, PutBlob, GetBlob, PutVarInt, GetVarInt, PutKeys, GetKeys;
    var keys := PutKeys(e.pub, e.priv);
    var b := PutBlob(e.chaincode, keys);
    U32ReadsBack(1, PutByte(4, b));
    ByteReadsBack(4, b);
    BlobReadsBack(e.chaincode, keys);
    KeysReadBack(e.pub, e.priv);
  }

  lemma SingleReadsBack(curve: Curve, e: Entry)
    requires e.Single? && ValidEntry(e) && |EntryBody(e)| < 0x1_0000_0000
    ensures GetEntry(curve, EntryBody(e)) == Some(e)
  {
    hide PutU32, GetU32, PutByte, GetByte, PutBlob, GetBlob, PutVarInt, GetVarInt, PutKeys, GetKeys;
    var keys := PutKeys(e.pub, e.priv);
    U32ReadsBack(1, PutByte(1, keys));
    ByteReadsBack(1, keys);
    KeysReadBack(e.pub, e.priv);
  }

  /**
   Every asset entry reads back as it was written. The two root entries store both forms of the
   public key but read only the compressed one, so they read back exactly when the other form is
   the one computed from it.
   */
  lemma EntryReadsBack(curve: Curve, e: Entry)
    requires ValidEntry(e) && |EntryBody(e)| < 0x1_0000_0000
    ensures ReadEntry(curve, WriteEntry(e)) == Some(e) <==> (e.Single? || OnCurve(curve, e.pub))
  {
    hide Unwrap, PutBlob, EntryBody, GetEntry, ValidEntry, OnCurve;
    UnwrapsBack(EntryBody(e));
    EntryBodyReadsBack(curve, e);
  }

  lemma UnwrapsBack(body: Bytes)
    requires |body| < 0x1_0000_0000
    ensures Unwrap(PutBlob(body, [])) == Some(body)
  {
    hide PutVarInt, GetVarInt, GetBytes;
    assert body + [] == body;
    VarIntReadsBack(|body|, body);
    BytesReadBack(body, []);
  }

  lemma EntryBodyReadsBack(curve: Curve, e: Entry)
    requires ValidEntry(e) && |EntryBody(e)| < 0x1_0000_0000
    ensures GetEntry(curve, EntryBody(e)) == Some(e) <==> (e.Single? || OnCurve(curve, e.pub))
  {
    hide EntryBody, GetEntry, ValidEntry, OnCurve;
    match e
    case Single(_, _) => SingleReadsBack(curve, e);
    case Bip32Root(_, _, _, _, _, _, _, _) => Bip32RootReadsBack(curve, e);
    case LegacyRoot(_, _, _) => LegacyRootReadsBack(curve, e);
  }
}
