/**
 The wallet's stored records: asset entries with their public and private keys, and
 encrypted data with its ciphers (`AssetEntry`, `Asset_EncryptedData`, `CipherData`, `Cipher`).
 */
module Records {
  import opened Wrappers
  import opened Bytes
  import opened BinaryIO
  import opened KeyOrder

  datatype Cipher = Cipher(kdfId: Bytes, keyId: Bytes, iv: Bytes)

  datatype CipherData = CipherData(text: Bytes, cipher: Cipher)

  datatype PrivateKey = PrivateKey(id: Bytes, data: CipherData)

  datatype PublicKey = PublicKey(uncompressed: Bytes, compressed: Bytes)

  datatype Encrypted =
    | Private(key: PrivateKey)
    | EncryptionKey(id: Bytes, entries: map<Bytes, CipherData>)
    | Seed(data: CipherData)

  datatype Entry =
    | Single(pub: PublicKey, priv: Option<PrivateKey>)
    | Bip32Root(pub: PublicKey, priv: Option<PrivateKey>, chaincode: Bytes,
                depth: u8, leaf: nat, fingerprint: nat, seedFingerprint: nat, path: seq<nat>)
    | LegacyRoot(pub: PublicKey, priv: Option<PrivateKey>, chaincode: Bytes)

  /** `CompressPoint` and `UncompressPoint`. */
  datatype Curve = Curve(compress: Bytes -> Bytes, uncompress: Bytes -> Bytes)

  // What the constructors and the fields' types enforce.

  predicate ValidCipher(c: Cipher) { |c.iv| == 16 }

  predicate ValidCipherData(d: CipherData) { d.text != [] && ValidCipher(d.cipher) }

  predicate ValidPublic(p: PublicKey) { |p.uncompressed| == 65 && |p.compressed| == 33 }

  predicate ValidEncrypted(x: Encrypted) {
    match x
    case Private(k) => ValidCipherData(k.data)
    case EncryptionKey(_, entries) => forall k :: k in entries ==> ValidCipherData(entries[k])
    case Seed(d) => ValidCipherData(d)
  }

  predicate ValidEntry(e: Entry) {
    && ValidPublic(e.pub) && (e.priv.Some? ==> ValidCipherData(e.priv.value.data))
    && (e.Bip32Root? ==>
          && e.leaf < 0x1_0000_0000 && e.fingerprint < 0x1_0000_0000 && e.seedFingerprint < 0x1_0000_0000
          && forall i :: 0 <= i < |e.path| ==> e.path[i] < 0x1_0000_0000)
  }

  // ----- Writing ------------------------------------------------------------

  function PutCipher(c: Cipher, rest: Bytes): (b: Bytes)
    ensures |b| == |rest| + CipherSize(c)
  {
    PutU32(1, PutByte(0xB2, PutByte(0, PutBlob(c.kdfId, PutBlob(c.keyId, PutBlob(c.iv, rest))))))
  }

  function CipherSize(c: Cipher): nat {
    6 + VarIntSize(|c.kdfId|) + |c.kdfId| + VarIntSize(|c.keyId|) + |c.keyId| + VarIntSize(|c.iv|) + |c.iv|
  }

  function PutCipherData(d: CipherData): (b: Bytes)
    ensures |b| >= |d.text| + CipherSize(d.cipher)
  {
    PutU32(1, PutBlob(d.text, PutBlob(PutCipher(d.cipher, []), [])))
  }

  function PutEntries(m: map<Bytes, CipherData>, keys: seq<Bytes>): Bytes
    requires forall k :: k in keys ==> k in m
  {
    if keys == [] then [] else PutBlob(PutCipherData(m[keys[0]]), PutEntries(m, keys[1..]))
  }

  ghost function EncryptedBody(x: Encrypted): Bytes {
    match x
    case Private(k) => PrivateBody(k)
    case EncryptionKey(id, m) =>
      PutU32(1, PutByte(0x83, PutBlob(id, PutVarInt(|m|, PutEntries(m, InOrder(m.Keys))))))
    case Seed(d) => PutU32(1, PutByte(0x84, PutBlob(PutCipherData(d), [])))
  }

  function PrivateBody(k: PrivateKey): Bytes {
    PutU32(1, PutByte(0x82, PutBlob(k.id, PutBlob(PutCipherData(k.data), []))))
  }

  ghost function WriteEncrypted(x: Encrypted): Bytes { PutBlob(EncryptedBody(x), []) }

  function PutKeyRecord(code: nat, key: Bytes, rest: Bytes): Bytes
    requires code < 256
  {
    PutBlob(PutU32(1, PutByte(code, key)), rest)
  }

  function PutPrivate(priv: Option<PrivateKey>): Bytes {
    if priv.None? then [] else PutBlob(PrivateBody(priv.value), [])
  }

  /** A key of any other size is left out. */
  function PutKeys(p: PublicKey, priv: Option<PrivateKey>): Bytes {
    var b := PutPrivate(priv);
    var c := if |p.compressed| == 33 then PutKeyRecord(0x81, p.compressed, b) else b;
    if |p.uncompressed| == 65 then PutKeyRecord(0x80, p.uncompressed, c) else c
  }

  function PutPath(path: seq<nat>, rest: Bytes): (b: Bytes)
    ensures |b| == 4 * |path| + |rest|
  {
    if path == [] then rest else PutU32(path[0], PutPath(path[1..], rest))
  }

  function EntryBody(e: Entry): Bytes {
    var keys := PutKeys(e.pub, e.priv);
    match e
    case Single(_, _) => PutU32(1, PutByte(1, keys))
    case Bip32Root(_, _, chaincode, depth, leaf, fingerprint, seed, path) =>
      PutU32(2, PutByte(3, PutByte(depth, PutU32(leaf, PutU32(fingerprint,
        PutBlob(chaincode, PutU32(seed, PutVarInt(|path|, PutPath(path, keys)))))))))
    case LegacyRoot(_, _, chaincode) => PutU32(1, PutByte(4, PutBlob(chaincode, keys)))
  }

  function WriteEntry(e: Entry): Bytes { PutBlob(EntryBody(e), []) }

  // ----- Reading ------------------------------------------------------------

  function GetCipher(b: Bytes): Option<(Cipher, Bytes)> {
    var (version, b1) :- GetU32(b);
    if version != 1 then None else
    var (prefix, b2) :- GetByte(b1);
    if prefix != 0xB2 then None else
    var (kind, b3) :- GetByte(b2);
    var (kdfId, b4) :- GetBlob(b3);
    var (keyId, b5) :- GetBlob(b4);
    var (iv, b6) :- GetBlob(b5);
    if kind != 0 || |iv| != 16 then None else Some((Cipher(kdfId, keyId, iv), b6))
  }

  /** The length in front must not go past the end. */
  function GetChecked(b: Bytes): Option<(Bytes, Bytes)> {
    var (len, rest) :- GetVarInt(b);
    if len > |rest| then None else GetBytes(rest, len)
  }

  /** The cipher is read from the stream itself; its length is only checked. */
  function GetCipherData(b: Bytes): Option<CipherData> {
    var (version, b1) :- GetU32(b);
    if version != 1 then None else
    var (text, b2) :- GetChecked(b1);
    var (len, b3) :- GetVarInt(b2);
    if len > |b3| then None else
    var (cipher, _) :- GetCipher(b3);
    if text == [] then None else Some(CipherData(text, cipher))
  }

  function GetEntries(b: Bytes, count: nat, acc: map<Bytes, CipherData>): Option<map<Bytes, CipherData>> {
    if count == 0 then Some(acc) else
    var (packet, rest) :- GetChecked(b);
    var data :- GetCipherData(packet);
    GetEntries(rest, count - 1, if data.cipher.keyId in acc then acc else acc[data.cipher.keyId := data])
  }

  function GetEncrypted(totalLen: nat, b: Bytes): Option<Encrypted> {
    if totalLen != |b| then None else
    var (version, b1) :- GetU32(b);
    var (prefix, b2) :- GetByte(b1);
    if version != 1 then None
    else if prefix == 0x82 then
      var (id, b3) :- GetBlob(b2);
      var (packet, _) :- GetChecked(b3);
      var data :- GetCipherData(packet);
      Some(Private(PrivateKey(id, data)))
    else if prefix == 0x83 then
      var (id, b3) :- GetBlob(b2);
      var (count, b4) :- GetVarInt(b3);
      var entries :- GetEntries(b4, count, map[]);
      Some(EncryptionKey(id, entries))
    else if prefix == 0x84 then
      var (packet, _) :- GetChecked(b2);
      var data :- GetCipherData(packet);
      Some(Seed(data))
    else None
  }

  function ReadEncrypted(b: Bytes): Option<Encrypted> {
    var (totalLen, rest) :- GetVarInt(b);
    var (data, _) :- GetBytes(rest, |rest|);
    GetEncrypted(totalLen, data)
  }

  /** The records of an entry as they are met: length as written, and data. */
  function SplitRecords(b: Bytes): Option<seq<(nat, Bytes)>>
    decreases |b|
  {
    if b == [] then Some([]) else
    var (len, rest) :- GetVarInt(b);
    var (data, rest2) :- GetBytes(rest, len);
    var tail :- SplitRecords(rest2);
    Some([(len, data)] + tail)
  }

  datatype Keys = Keys(uncompressed: Bytes, compressed: Bytes, priv: Option<PrivateKey>)

  /** One key more; None for an unknown one, one of a wrong size, or a second one of its kind. */
  function AddKey(keys: Keys, len: nat, data: Bytes): Option<Keys> {
    var (version, d1) :- GetU32(data);
    var (code, d2) :- GetByte(d1);
    if version != 1 then None
    else if code == 0x80 then
      if len != 70 || keys.uncompressed != [] then None else Some(keys.(uncompressed := d2))
    else if code == 0x81 then
      if len != 38 || keys.compressed != [] then None else Some(keys.(compressed := d2))
    else if code == 0x82 then
      if keys.priv.Some? then None else
      var x :- GetEncrypted(len, data);
      if x.Private? then Some(keys.(priv := Some(x.key))) else None
    else None
  }

  function AddKeys(keys: Keys, records: seq<(nat, Bytes)>): Option<Keys>
    decreases |records|
  {
    if records == [] then Some(keys) else
    var k :- AddKey(keys, records[0].0, records[0].1);
    AddKeys(k, records[1..])
  }

  const NO_KEYS := Keys([], [], None)

  function GetKeys(b: Bytes): Option<Keys> {
    var records :- SplitRecords(b);
    AddKeys(NO_KEYS, records)
  }

  function GetPath(b: Bytes, count: nat): Option<(seq<nat>, Bytes)> {
    if count == 0 then Some(([], b)) else
    var (step, rest) :- GetU32(b);
    var (path, rest2) :- GetPath(rest, count - 1);
    Some(([step] + path, rest2))
  }

  /** `Asset_PublicKey` from one form of the key. */
  function PublicFrom(curve: Curve, key: Bytes): Option<PublicKey> {
    if |key| == 33 then Some(PublicKey(curve.uncompress(key), key))
    else if |key| == 65 then Some(PublicKey(key, curve.compress(key)))
    else None
  }

  function GetSingle(b: Bytes): Option<Entry> {
    var k :- GetKeys(b);
    var p := PublicKey(k.uncompressed, k.compressed);
    if ValidPublic(p) then Some(Single(p, k.priv)) else None
  }

  /** Version 1 has neither seed fingerprint nor path. */
  function GetBip32Root(curve: Curve, version: nat, b: Bytes): Option<Entry> {
    var (depth, b1) :- GetByte(b);
    var (leaf, b2) :- GetU32(b1);
    var (fingerprint, b3) :- GetU32(b2);
    var (chaincode, b4) :- GetBlob(b3);
    var ((seed, path), b5) :- GetDerivation(version, b4);
    var k :- GetKeys(b5);
    var p :- PublicFrom(curve, if k.compressed != [] then k.compressed else k.uncompressed);
    Some(Bip32Root(p, k.priv, chaincode, depth, leaf, fingerprint, seed, path))
  }

  function GetDerivation(version: nat, b: Bytes): Option<((nat, seq<nat>), Bytes)> {
    if version < 2 then Some(((0xFFFF_FFFF, []), b)) else
    var (seed, b1) :- GetU32(b);
    var (count, b2) :- GetVarInt(b1);
    var (path, b3) :- GetPath(b2, count);
    Some(((seed, path), b3))
  }

  function GetLegacyRoot(curve: Curve, b: Bytes): Option<Entry> {
    var (chaincode, b1) :- GetBlob(b);
    var k :- GetKeys(b1);
    var p :- PublicFrom(curve, k.compressed);
    Some(LegacyRoot(p, k.priv, chaincode))
  }

  /** `deserDBValue`: the type is in the low four bits. */
  function GetEntry(curve: Curve, b: Bytes): Option<Entry> {
    var (version, b1) :- GetU32(b);
    var (code, b2) :- GetByte(b1);
    var kind := code % 16;
    if kind == 1 && version == 1 then GetSingle(b2)
    else if kind == 3 && 1 <= version <= 2 then GetBip32Root(curve, version, b2)
    else if kind == 4 && version == 1 then GetLegacyRoot(curve, b2)
    else None
  }

  /** `getDataRefForPacket`: what follows a length that counts all of it. */
  function Unwrap(packet: Bytes): Option<Bytes> {
    var (len, rest) :- GetVarInt(packet);
    if len != |rest| then None else
    var (data, _) :- GetBytes(rest, |rest|);
    Some(data)
  }

  function ReadEntry(curve: Curve, packet: Bytes): Option<Entry> {
    var b :- Unwrap(packet);
    GetEntry(curve, b)
  }

  // ----- The reading loops --------------------------------------------------

  /** What is read of the rest, with `head` in front. */
  function Before<T>(head: seq<T>, tail: Option<seq<T>>): Option<seq<T>> {
    if tail.None? then None else Some(head + tail.value)
  }

  /** All records are cut out first, and then looked into. */
  method ReadKeys(b: Bytes) returns (r: Option<Keys>)
    ensures r == GetKeys(b)
  {
    hide GetVarInt, GetBytes, AddKey;
    var rest, records: seq<(nat, Bytes)> := b, [];
    assert forall tail: seq<(nat, Bytes)> :: [] + tail == tail;
    while |rest| > 0
      invariant SplitRecords(b) == Before(records, SplitRecords(rest))
      decreases |rest|
    {
      var head := GetVarInt(rest);
      if head.None? {
        return None;
      }
      var data := GetBytes(head.value.1, head.value.0);
      if data.None? {
        return None;
      }
      ghost var tail := SplitRecords(data.value.1);
      var record := (head.value.0, data.value.0);
      assert tail.Some? ==> records + ([record] + tail.value) == (records + [record]) + tail.value;
      records := records + [record];
      rest := data.value.1;
    }
    assert records + [] == records;
    var keys := NO_KEYS;
    assert records[0..] == records;
    for i := 0 to |records|
      invariant AddKeys(NO_KEYS, records) == AddKeys(keys, records[i..])
    {
      var more := AddKey(keys, records[i].0, records[i].1);
      assert records[i..][1..] == records[i + 1..];
      if more.None? {
        return None;
      }
      keys := more.value;
    }
    return Some(keys);
  }

  method ReadPath(b: Bytes, count: nat) returns (r: Option<(seq<nat>, Bytes)>)
    ensures r == GetPath(b, count)
  {
    hide GetU32;
    var rest, path: seq<nat> := b, [];
    assert forall tail: seq<nat> :: [] + tail == tail;
    for i := 0 to count
      invariant GetPath(b, count) ==
                match GetPath(rest, count - i) { case None => None case Some((p, end)) => Some((path + p, end)) }
    {
      var step := GetU32(rest);
      if step.None? {
        return None;
      }
      ghost var tail := GetPath(step.value.1, count - i - 1);
      assert tail.Some? ==> path + ([step.value.0] + tail.value.0) == (path + [step.value.0]) + tail.value.0;
      path := path + [step.value.0];
      rest := step.value.1;
    }
    assert path + [] == path;
    return Some((path, rest));
  }

  method ReadEntries(b: Bytes, count: nat) returns (r: Option<map<Bytes, CipherData>>)
    ensures r == GetEntries(b, count, map[])
  {
    hide GetChecked, GetCipherData;
    var rest, entries := b, map[];
    for i := 0 to count
      invariant GetEntries(b, count, map[]) == GetEntries(rest, count - i, entries)
    {
      var packet := GetChecked(rest);
      if packet.None? {
        return None;
      }
      var data := GetCipherData(packet.value.0);
      if data.None? {
        return None;
      }
      if data.value.cipher.keyId !in entries {
        entries := entries[data.value.cipher.keyId := data.value];
      }
      rest := packet.value.1;
    }
    return Some(entries);
  }
}
