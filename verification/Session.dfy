/**
 BIP 151 sessions: one direction of an encrypted link (`BIP151Session`).

 The functions on `Session` values say what each operation computes; the class
 performs it in place and is proved to agree with them.
 */
module Bip151 {
  import opened Wrappers
  import opened Symbolic

  datatype Cipher = ChaCha20Poly1305 | InvalidCipher

  /** Maximum number of bytes sent under one key set. */
  const MAX_BYTES: nat := 1_000_000_000
  const MAC_LEN: nat := 16

  /** `keys` is the stored HKDF key set, `ctx` the key set loaded in the AEAD context. */
  datatype Session = Session(
    outgoing: bool, priv: Option<Name>, cipher: Cipher, sid: SessionId,
    keys: KeySet, ctx: KeySet, bytes: nat, num: nat, encinit: bool, encack: bool)
  {
    predicate Complete() { encinit && encack }
  }

  function NewSession(outgoing: bool, priv: Name): Session {
    Session(outgoing, Some(priv), InvalidCipher, NoId, NO_KEYS, NO_KEYS, 0, 0, false, false)
  }

  function InitialKeys(secret: Shared): KeySet {
    KeySet(Hkdf(secret, K2), Hkdf(secret, K1))
  }

  /** ECDH with the peer's point succeeds for a valid point and an unerased private key. */
  predicate CanDerive(s: Session, peer: Point) {
    s.cipher.ChaCha20Poly1305? && peer.Pub? && s.priv.Some?
  }

  function Derived(s: Session, peer: Point): Session
    requires CanDerive(s, peer)
  {
    var secret := Dh(s.priv.value, peer.name);
    s.(keys := InitialKeys(secret), ctx := InitialKeys(secret), sid := Sid(secret),
       priv := if s.outgoing then None else s.priv)
  }

  function Rehashed(sid: SessionId, k: KeySet): KeySet {
    KeySet(Hash151(sid, k.poly), Hash151(sid, k.chacha))
  }

  function Rekeyed151(s: Session): Session {
    if s.cipher.InvalidCipher? then s else
    var k := Rehashed(s.sid, s.keys);
    s.(keys := k, ctx := k, bytes := 0)
  }

  function Crossed(sid: SessionId, k: KeySet, opposite: KeySet, req: Point, res: Point): KeySet {
    KeySet(Hash150(sid, k.poly, opposite.poly, req, res), Hash150(sid, k.chacha, opposite.chacha, req, res))
  }

  function Rekeyed150(s: Session, req: Point, res: Point, opposite: KeySet): Session {
    if s.cipher.InvalidCipher? then s else
    var k := Crossed(s.sid, s.keys, opposite, req, res);
    s.(keys := k, ctx := k, bytes := 0)
  }

  function Counted(s: Session, size: nat): Session {
    s.(num := (s.num + 1) % WORD, bytes := (s.bytes + size) % WORD)
  }

  /** Size in clear of a packet that carries no message id: length, type, body. */
  function PacketSize(b: Body): nat { BodySize(b) + 5 }

  /** The only packet an in-session accepts: sealed under its keys and sequence number. */
  predicate Opens(s: Session, w: Wire) {
    w.Sealed? && w.keys == s.ctx && w.num == s.num
  }

  /** A length that is more than this packet holds, MAC and length field left aside; 32-bit arithmetic. */
  predicate TooLong(w: Wire, length: nat) {
    (length + MAC_LEN + 4) % WORD > PacketSize(w.body) + MAC_LEN
  }

  /** The length of the packet itself, type included, is the longest that fits. */
  lemma OwnLengthFits(w: Wire, more: nat)
    requires BodySize(w.body) + 1 + more + MAC_LEN + 4 < WORD
    ensures TooLong(w, BodySize(w.body) + 1 + more) <==> more > 0
  {
  }

  /** A 32-bit value returned as an `int`. */
  function Signed(n: nat): (r: int)
    requires n < 0x1_0000_0000
    ensures -0x8000_0000 <= r < 0x8000_0000 && (r - n) % 0x1_0000_0000 == 0
  {
    if n < 0x8000_0000 then n else n - 0x1_0000_0000
  }

  predicate IsRekeyMarker(b: Body) {
    b == PointBody(ZeroPoint)
  }

  class BIP151Session {
    const isOutgoing: bool
    var genSymECDHPrivKey: Option<Name>
    var cipherType: Cipher
    var sessionID: SessionId
    var hkdfKeySet: KeySet
    var sessionCTX: KeySet
    var bytesOnCurKeys: nat
    var seqNum: nat
    var encinit: bool
    var encack: bool

    function View(): Session
      reads this
    {
      Session(isOutgoing, genSymECDHPrivKey, cipherType, sessionID, hkdfKeySet, sessionCTX,
              bytesOnCurKeys, seqNum, encinit, encack)
    }

    constructor (priv: Name, sessOut: bool)
      ensures View() == NewSession(sessOut, priv)
    {
      isOutgoing := sessOut;
      genSymECDHPrivKey := Some(priv);
      cipherType, sessionID := InvalidCipher, NoId;
      hkdfKeySet, sessionCTX := NO_KEYS, NO_KEYS;
      bytesOnCurKeys, seqNum := 0, 0;
      encinit, encack := false, false;
    }

    method SetCipherType(code: nat) returns (ok: bool)
      modifies this
      ensures ok == (code == 0)
      ensures View() == if ok then old(View()).(cipher := ChaCha20Poly1305) else old(View())
    {
      ok := code == 0;
      if ok {
        cipherType := ChaCha20Poly1305;
      }
    }

    method GenSymKeys(peer: Point) returns (ok: bool)
      modifies this
      ensures ok == CanDerive(old(View()), peer)
      ensures !ok ==> View() == old(View())
      ensures ok ==> View() == Derived(old(View()), peer).(priv := old(View()).priv)
    {
      if cipherType.InvalidCipher? || !peer.Pub? || genSymECDHPrivKey.None? {
        return false;
      }
      var ecdh := Dh(genSymECDHPrivKey.value, peer.name);
      hkdfKeySet := KeySet(Hkdf(ecdh, K2), Hkdf(ecdh, K1));
      sessionCTX := hkdfKeySet;
      sessionID := Sid(ecdh);
      return true;
    }

    method SymKeySetup(peer: Point) returns (ok: bool)
      modifies this
      ensures ok == CanDerive(old(View()), peer)
      ensures View() == if ok then Derived(old(View()), peer) else old(View())
    {
      ok := GenSymKeys(peer);
      if ok && isOutgoing {
        genSymECDHPrivKey := None;
      }
    }

    method SessionRekey(bip151Rekey: bool, req: Point, res: Point, opposite: KeySet)
      modifies this
      ensures View() == if bip151Rekey then Rekeyed151(old(View()))
                        else Rekeyed150(old(View()), req, res, opposite)
    {
      if cipherType.InvalidCipher? {
        return;
      }
      var poly, chacha := hkdfKeySet.poly, hkdfKeySet.chacha;
      if bip151Rekey {
        poly := Hash151(sessionID, poly);
        chacha := Hash151(sessionID, chacha);
      } else {
        poly := Hash150(sessionID, poly, opposite.poly, req, res);
        chacha := Hash150(sessionID, chacha, opposite.chacha, req, res);
      }
      hkdfKeySet := KeySet(poly, chacha);
      sessionCTX := hkdfKeySet;
      bytesOnCurKeys := 0;
    }

    method EncPayload(kind: MsgType, body: Body) returns (w: Wire)
      modifies this
      ensures w == Sealed(old(sessionCTX), old(seqNum), kind, body)
      ensures View() == Counted(old(View()), PacketSize(body))
    {
      w := Sealed(sessionCTX, seqNum, kind, body);
      seqNum := (seqNum + 1) % WORD;
      bytesOnCurKeys := (bytesOnCurKeys + PacketSize(body)) % WORD;
    }

    /**
     The packet is whole and `plainSize` the room for it. `garbled` is what the length field of a packet
     that is not for this session's keys and number decrypts to: the source returns it, before
     counting, if no packet of that length would fit in this one.
     */
    method DecPayload(w: Wire, plainSize: nat, garbled: nat) returns (r: int)
      requires w.Sealed? && garbled < WORD
      modifies this
      ensures r == 0 <==> PacketSize(w.body) <= plainSize && Opens(old(View()), w)
      ensures r != 0 ==>
                r == if PacketSize(w.body) <= plainSize && TooLong(w, garbled) then Signed(garbled) else -1
      ensures View() == if PacketSize(w.body) <= plainSize && (Opens(old(View()), w) || !TooLong(w, garbled))
                        then Counted(old(View()), plainSize) else old(View())
    {
      r := -1;
      var cipherSize := PacketSize(w.body) + MAC_LEN;
      if cipherSize > plainSize + MAC_LEN {
        return;
      }
      var opens := w.keys == sessionCTX && w.num == seqNum;
      if !opens && TooLong(w, garbled) {
        return Signed(garbled);
      }
      if opens {
        r := 0;
      }
      seqNum := (seqNum + 1) % WORD;
      bytesOnCurKeys := (bytesOnCurKeys + plainSize) % WORD;
    }

    method GetEncinitData() returns (ok: bool, body: Body)
      modifies this
      ensures View() == old(View()).(cipher := ChaCha20Poly1305)
      ensures ok == genSymECDHPrivKey.Some?
      ensures ok ==> body == EncInitBody(Pub(genSymECDHPrivKey.value), 0)
    {
      var _ := SetCipherType(0);
      if genSymECDHPrivKey.None? {
        return false, AppBody(0, 34);
      }
      return true, EncInitBody(Pub(genSymECDHPrivKey.value), 0);
    }

    method GetEncackData() returns (ok: bool, body: Body)
      modifies this
      ensures ok == (encinit && old(genSymECDHPrivKey).Some?)
      ensures View() == if ok then old(View()).(priv := None) else old(View())
      ensures ok ==> body == PointBody(Pub(old(genSymECDHPrivKey).value))
    {
      if !encinit || genSymECDHPrivKey.None? {
        return false, AppBody(0, 33);
      }
      body := PointBody(Pub(genSymECDHPrivKey.value));
      genSymECDHPrivKey := None;
      return true, body;
    }

    method RekeyNeeded(size: nat) returns (needed: bool)
      ensures needed == (View().bytes + size >= MAX_BYTES)
    {
      needed := bytesOnCurKeys + size >= MAX_BYTES;
    }
  }
}
