/**
 Symbolic cryptography for the BIP 150/151 layer.

 Every hash, key derivation and signature is a free constructor, so two results
 are equal exactly when they were computed from equal inputs. ECDH is an
 unordered pair of key names. A private key and its public point share a name.
 Byte strings that no honest computation yields are the `Opaque` values, so that
 every string of the right size is some value of these types.
 */
module Symbolic {
  type Name = nat

  const WORD: nat := 0x1_0000_0000

  /** The ECDH product of two key pairs, whichever side computes it. */
  datatype Shared = Shared(lo: Name, hi: Name)

  function Dh(a: Name, b: Name): Shared {
    Shared(if a <= b then a else b, if a <= b then b else a)
  }

  datatype SessionId = NoId | Sid(secret: Shared)

  /** A string of 33 bytes, read as a compressed public key. */
  datatype Point =
    | Pub(name: Name)
    | StandIn                                   // 33 bytes of 0xFF
    | ZeroPoint                                 // 33 zero bytes
    | SigPrefix(signer: Name, sid: SessionId)   // the head of a signature
    | OpaquePoint(id: nat)

  datatype Tag = TagI | TagP | TagR

  /** A string of 32 bytes, read as an authentication hash. */
  datatype Hash = AuthHash(sid: SessionId, tag: Tag, key: Point) | OpaqueHash(id: nat)

  /** A string of 64 bytes, read as an AUTHREPLY body. */
  datatype AuthReply =
    | Signature(signer: Name, sid: SessionId)
    | KeyReply(name: Name)                      // a public key padded with zeros
    | OpaqueReply(id: nat, der: bool)

  /** Whether the compact signature converts to DER. */
  predicate DerOk(r: AuthReply) {
    r.OpaqueReply? ==> r.der
  }

  function Prefix33(r: AuthReply): Point {
    match r
    case Signature(n, sid) => SigPrefix(n, sid)
    case KeyReply(n) => Pub(n)
    case OpaqueReply(id, _) => OpaquePoint(id)
  }

  predicate Verifies(key: Point, sid: SessionId, r: AuthReply) {
    r.Signature? && key == Pub(r.signer) && r.sid == sid
  }

  datatype Info = K1 | K2

  datatype CipherKey =
    | ZeroKey
    | Hkdf(secret: Shared, info: Info)
    | Hash151(sid: SessionId, prev: CipherKey)
    | Hash150(sid: SessionId, prev: CipherKey, opposite: CipherKey, req: Point, res: Point)

  datatype KeySet = KeySet(poly: CipherKey, chacha: CipherKey)

  const NO_KEYS := KeySet(ZeroKey, ZeroKey)

  /** A message body, told apart by its size and read as its size demands. */
  datatype Body =
    | EncInitBody(key: Point, cipher: nat)      // 34 bytes
    | PointBody(key: Point)                     // 33 bytes
    | HashBody(hash: Hash)                      // 32 bytes
    | ReplyBody(reply: AuthReply)               // 64 bytes
    | AppBody(data: nat, size: nat)             // any other size

  function BodySize(b: Body): nat {
    match b
    case EncInitBody(_, _) => 34
    case PointBody(_) => 33
    case HashBody(_) => 32
    case ReplyBody(_) => 64
    case AppBody(_, n) => n
  }

  datatype MsgType =
    | Start | PresentPubKey | EncInit | EncAck | Rekey
    | Challenge | Reply | Propose
    | App | OtherType(code: nat)

  /** What travels on the socket: a packet in clear, or one sealed by an AEAD. */
  datatype Wire =
    | Plain(kind: MsgType, body: Body)
    | Sealed(keys: KeySet, num: nat, kind: MsgType, body: Body)
}
