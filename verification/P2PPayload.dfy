/** The payloads of the peer-to-peer protocol and their bytes (`Payload_Ping`, `Payload_Inv`, ...). */
module P2PPayload {
  import opened Wrappers
  import opened Bytes
  import opened BinaryIO

  const NO_NONCE: u64 := 0xFFFF_FFFF_FFFF_FFFF
  const INV_MAX: nat := 50000

  datatype InvEntry = InvEntry(kind: u32, hash: Bytes)

  /** `Foreign` stands for version and reject messages, whose contents are not looked into. */
  datatype Payload =
    | Verack
    | Ping(nonce: u64)
    | Pong(nonce: u64)
    | Inv(entries: seq<InvEntry>)
    | GetData(entries: seq<InvEntry>)
    | Tx(raw: Bytes)
    | Unknown(data: Bytes)
    | Foreign(name: Bytes, data: Bytes)

  // The names, as bytes.
  const VERACK: Bytes := [118, 101, 114, 97, 99, 107]
  const PING: Bytes := [112, 105, 110, 103]
  const PONG: Bytes := [112, 111, 110, 103]
  const INV: Bytes := [105, 110, 118]
  const GETDATA: Bytes := [103, 101, 116, 100, 97, 116, 97]
  const TX: Bytes := [116, 120]
  const UNKNOWN: Bytes := [117, 110, 107, 110, 111, 119, 110]
  const VERSION: Bytes := [118, 101, 114, 115, 105, 111, 110]
  const REJECT: Bytes := [114, 101, 106, 101, 99, 116]

  function TypeStr(p: Payload): Bytes {
    match p
    case Verack => VERACK
    case Ping(_) => PING
    case Pong(_) => PONG
    case Inv(_) => INV
    case GetData(_) => GETDATA
    case Tx(_) => TX
    case Unknown(_) => UNKNOWN
    case Foreign(name, _) => name
  }

  // ----- Writing ------------------------------------------------------------

  function PutEntries(entries: seq<InvEntry>): Bytes {
    if entries == [] then [] else PutU32(entries[0].kind, entries[0].hash + PutEntries(entries[1..]))
  }

  /** `serialize_inner`: a missing nonce is written as nothing. */
  function Encode(p: Payload): Bytes {
    match p
    case Verack => []
    case Ping(n) => if n == NO_NONCE then [] else LittleEndian(n, 8)
    case Pong(n) => if n == NO_NONCE then [] else LittleEndian(n, 8)
    case Inv(entries) => PutVarInt(|entries|, PutEntries(entries))
    case GetData(entries) => PutVarInt(|entries|, PutEntries(entries))
    case Tx(raw) => raw
    case Unknown(data) => data
    case Foreign(_, data) => data
  }

  // ----- Reading ------------------------------------------------------------

  /** The witness flag of a getdata entry does not count. */
  predicate KindOk(kind: nat, segwit: bool) {
    (if segwit then kind % 0x4000_0000 + kind / 0x8000_0000 * 0x8000_0000 else kind) <= 3
  }

  function GetEntries(b: Bytes, count: nat, segwit: bool): Option<seq<InvEntry>> {
    if count == 0 then Some([])
    else if |b| < 36 then None
    else
      var kind := FromLittleEndian(b[..4]);
      if !KindOk(kind, segwit) || kind >= 0x1_0000_0000 then None else
      var tail :- GetEntries(b[36..], count - 1, segwit);
      Some([InvEntry(kind, b[4..36])] + tail)
  }

  /** A value, a `PayloadDeserError`, which the parser passes over, or an exception that nothing catches there. */
  datatype Outcome<T> = Made(value: T) | PassedOver | Escapes

  /** A count that is cut short is no `PayloadDeserError`. */
  function GetInv(b: Bytes, segwit: bool): Outcome<seq<InvEntry>> {
    match GetVarInt(b)
    case None => Escapes
    case Some((count, rest)) =>
      if count > INV_MAX then PassedOver else
      match GetEntries(rest, count, segwit)
      case None => PassedOver
      case Some(entries) => Made(entries)
  }

  function Map<T, U>(r: Outcome<T>, f: T -> U): Outcome<U> {
    match r
    case Made(x) => Made(f(x))
    case PassedOver => PassedOver
    case Escapes => Escapes
  }

  /** What the payload's constructor makes of the bytes. */
  function Decode(name: Bytes, b: Bytes): Outcome<Payload> {
    if name == VERACK then Made(Verack)
    else if name == PING then
      if b == [] then Made(Ping(NO_NONCE))
      else if |b| != 8 then PassedOver
      else FromLittleEndianBound(b); Spans(); Made(Ping(FromLittleEndian(b)))
    else if name == PONG then
      if |b| != 8 then PassedOver else FromLittleEndianBound(b); Spans(); Made(Pong(FromLittleEndian(b)))
    else if name == INV then Map(GetInv(b, false), entries => Inv(entries))
    else if name == GETDATA then Map(GetInv(b, true), entries => GetData(entries))
    else if name == TX then Made(Tx(b))
    else if name == VERSION || name == REJECT then Made(Foreign(name, b))
    else Made(Unknown(b))
  }

  // ----- Round trip ---------------------------------------------------------

  predicate EntriesOk(entries: seq<InvEntry>, segwit: bool) {
    |entries| <= INV_MAX && forall i :: 0 <= i < |entries| ==> KindOk(entries[i].kind, segwit)
  }

  /** What the types of the fields demand. */
  predicate WellTyped(p: Payload) {
    && (p.Inv? || p.GetData? ==> forall i :: 0 <= i < |p.entries| ==> |p.entries[i].hash| == 32)
    && (p.Inv? || p.GetData? ==> |p.entries| < 0x1_0000_0000_0000_0000)
    && (p.Foreign? ==> p.name == VERSION || p.name == REJECT)
  }

  /** No missing nonce in a pong, no more than the maximum of entries, of known kinds. */
  predicate Readable(p: Payload) {
    match p
    case Pong(n) => n != NO_NONCE
    case Inv(entries) => EntriesOk(entries, false)
    case GetData(entries) => EntriesOk(entries, true)
    case _ => true
  }

  lemma EntryStep(e: InvEntry, rest: Bytes, n: nat, segwit: bool)
    requires |e.hash| == 32
    ensures var r := GetEntries(PutU32(e.kind, e.hash + rest), n + 1, segwit);
            var t := GetEntries(rest, n, segwit);
            if KindOk(e.kind, segwit) && t.Some? then r == Some([e] + t.value) else r == None
  {
    hide KindOk, LittleEndian, FromLittleEndian;
    Spans();
    LittleEndianReadsBack(e.kind, 4);
    var b := PutU32(e.kind, e.hash + rest);
    assert b[..4] == LittleEndian(e.kind, 4) && b[4..36] == e.hash && b[36..] == rest;
  }

  lemma {:induction false} EntriesReadBack(entries: seq<InvEntry>, segwit: bool)
    requires forall i :: 0 <= i < |entries| ==> |entries[i].hash| == 32
    ensures GetEntries(PutEntries(entries), |entries|, segwit) ==
            if forall i :: 0 <= i < |entries| ==> KindOk(entries[i].kind, segwit) then Some(entries) else None
    decreases |entries|
  {
    hide KindOk, PutU32;
    if entries != [] {
      var e, tail := entries[0], entries[1..];
      EntryStep(e, PutEntries(tail), |tail|, segwit);
      EntriesReadBack(tail, segwit);
      assert entries == [e] + tail;
      assert (forall i :: 0 <= i < |entries| ==> KindOk(entries[i].kind, segwit)) <==>
             KindOk(e.kind, segwit) && forall i :: 0 <= i < |tail| ==> KindOk(tail[i].kind, segwit);
    }
  }

  lemma InvReadsBack(entries: seq<InvEntry>, segwit: bool)
    requires (forall i :: 0 <= i < |entries| ==> |entries[i].hash| == 32) && |entries| < 0x1_0000_0000_0000_0000
    ensures GetInv(PutVarInt(|entries|, PutEntries(entries)), segwit) ==
            if EntriesOk(entries, segwit) then Made(entries) else PassedOver
  {
    hide PutVarInt, GetVarInt, GetEntries, PutEntries, KindOk;
    VarIntReadsBack(|entries|, PutEntries(entries));
    EntriesReadBack(entries, segwit);
  }

  /** A payload reads back exactly when it is a readable one, and is passed over when it is not. */
  lemma PayloadReadsBack(p: Payload)
    requires WellTyped(p)
    ensures Decode(TypeStr(p), Encode(p)) == if Readable(p) then Made(p) else PassedOver
  {
    hide PutVarInt, GetInv, PutEntries, KindOk, LittleEndian, FromLittleEndian;
    match p {
      case Inv(entries) => InvReadsBack(entries, false);
      case GetData(entries) => InvReadsBack(entries, true);
      case Ping(n) => NonceReadsBack(n);
      case Pong(n) => NonceReadsBack(n);
      case _ =>
    }
  }

  lemma NonceReadsBack(n: u64)
    ensures FromLittleEndian(LittleEndian(n, 8)) == n
  {
    Spans();
    LittleEndianReadsBack(n, 8);
  }

  /** Names are short and have no zero byte. */
  lemma TypeStrFits(p: Payload)
    requires WellTyped(p)
    ensures 0 < |TypeStr(p)| < 12 && forall i :: 0 <= i < |TypeStr(p)| ==> TypeStr(p)[i] != 0
  {
  }

  /** The size that a payload announces before it is written. */
  function EncodedSize(p: Payload): nat {
    match p
    case Verack => 0
    case Ping(n) => if n == NO_NONCE then 0 else 8
    case Pong(n) => if n == NO_NONCE then 0 else 8
    case Inv(entries) => VarIntSize(|entries|) + 36 * |entries|
    case GetData(entries) => VarIntSize(|entries|) + 36 * |entries|
    case Tx(raw) => |raw|
    case Unknown(data) => |data|
    case Foreign(_, data) => |data|
  }

  lemma {:induction false} EntriesSize(entries: seq<InvEntry>)
    requires forall i :: 0 <= i < |entries| ==> |entries[i].hash| == 32
    ensures |PutEntries(entries)| == 36 * |entries|
    decreases |entries|
  {
    hide LittleEndian;
    if entries != [] {
      EntriesSize(entries[1..]);
    }
  }

  /** What is written has the size announced: the two passes over a payload agree. */
  lemma SizeIsAnnounced(p: Payload)
    requires WellTyped(p)
    ensures |Encode(p)| == EncodedSize(p)
  {
    hide PutEntries, LittleEndian, PutVarInt;
    if p.Inv? || p.GetData? {
      EntriesSize(p.entries);
    }
  }

  // ----- Reading any bytes --------------------------------------------------

  const KNOWN: set<Bytes> := {VERACK, PING, PONG, INV, GETDATA, TX, VERSION, REJECT}

  /** The kinds of an inv are 0 to 3, those of a getdata also with the witness flag. */
  lemma KindsAre(kind: nat)
    requires kind < 0x1_0000_0000
    ensures KindOk(kind, false) <==> kind in {0, 1, 2, 3}
    ensures KindOk(kind, true) <==>
            kind in {0, 1, 2, 3, 0x4000_0000, 0x4000_0001, 0x4000_0002, 0x4000_0003}
  {
    if 0x4000_0000 <= kind < 0x8000_0000 {
      assert kind % 0x4000_0000 == kind - 0x4000_0000;
    }
  }

  lemma {:induction false} EntriesAreThere(b: Bytes, count: nat, segwit: bool)
    ensures GetEntries(b, count, segwit).Some? ==>
              var entries := GetEntries(b, count, segwit).value;
              && |entries| == count && PutEntries(entries) <= b
              && (forall i :: 0 <= i < count ==> |entries[i].hash| == 32 && KindOk(entries[i].kind, segwit))
    decreases count
  {
    hide KindOk, FromLittleEndian, LittleEndian;
    if count > 0 && GetEntries(b, count, segwit).Some? {
      var kind := FromLittleEndian(b[..4]);
      var entries, tail := GetEntries(b, count, segwit).value, GetEntries(b[36..], count - 1, segwit).value;
      EntriesAreThere(b[36..], count - 1, segwit);
      assert LittleEndian(kind, 4) == b[..4] by { LittleEndianWritesBack(b[..4]); }
      assert entries[1..] == tail;
      assert PutEntries(entries) == b[..4] + (b[4..36] + PutEntries(tail));
      assert b == b[..4] + (b[4..36] + b[36..]);
    }
  }

  /** The payload holds what the bytes say; what follows the entries of an inv is not looked at. */
  predicate Says(p: Payload, b: Bytes) {
    match p
    case Verack => true
    case Ping(n) => (b == [] && n == NO_NONCE) || b == LittleEndian(n, 8)
    case Pong(n) => b == LittleEndian(n, 8)
    case Inv(entries) => Lists(entries, b, false)
    case GetData(entries) => Lists(entries, b, true)
    case Tx(raw) => raw == b
    case Unknown(data) => data == b
    case Foreign(_, data) => data == b
  }

  predicate Lists(entries: seq<InvEntry>, b: Bytes, segwit: bool) {
    && EntriesOk(entries, segwit) && (forall i :: 0 <= i < |entries| ==> |entries[i].hash| == 32)
    && GetVarInt(b).Some?
    && GetVarInt(b).value.0 == |entries| && PutEntries(entries) <= GetVarInt(b).value.1
  }

  lemma NoEntries(b: Bytes, segwit: bool)
    ensures GetEntries(b, 0, segwit) == Some([])
  {
  }

  ghost predicate ListsSome(b: Bytes, segwit: bool) { exists entries :: Lists(entries, b, segwit) }

  lemma EntriesUnfold(entries: seq<InvEntry>, rest: Bytes)
    requires entries != []
    ensures PutEntries(entries) + rest == PutU32(entries[0].kind, entries[0].hash + (PutEntries(entries[1..]) + rest))
  {
    hide LittleEndian;
  }

  /** Entries in front of anything are read. */
  lemma {:induction false} EntriesRead(entries: seq<InvEntry>, rest: Bytes, segwit: bool)
    requires forall i :: 0 <= i < |entries| ==> |entries[i].hash| == 32 && KindOk(entries[i].kind, segwit)
    ensures GetEntries(PutEntries(entries) + rest, |entries|, segwit) == Some(entries)
    decreases |entries|
  {
    hide KindOk, PutU32, PutEntries, GetEntries;
    if entries == [] {
      NoEntries(PutEntries([]) + rest, segwit);
    } else {
      var e, tail := entries[0], entries[1..];
      EntryStep(e, PutEntries(tail) + rest, |tail|, segwit);
      EntriesRead(tail, rest, segwit);
      EntriesUnfold(entries, rest);
      assert entries == [e] + tail;
    }
  }

  /** A list is made exactly if the bytes list some entries, and it is those. */
  lemma InvSays(b: Bytes, segwit: bool)
    ensures forall entries :: GetInv(b, segwit) == Made(entries) <==> Lists(entries, b, segwit)
    ensures GetInv(b, segwit).Escapes? <==> GetVarInt(b).None?
  {
    hide GetVarInt, GetEntries, PutEntries, KindOk;
    if GetVarInt(b).Some? {
      var (count, rest) := GetVarInt(b).value;
      EntriesAreThere(rest, count, segwit);
      forall entries | Lists(entries, b, segwit) ensures GetInv(b, segwit) == Made(entries) {
        var tail := rest[|PutEntries(entries)|..];
        EntriesRead(entries, tail, segwit);
        assert rest == PutEntries(entries) + tail;
      }
    }
  }

  lemma ListMade(b: Bytes, segwit: bool)
    requires forall entries :: GetInv(b, segwit) == Made(entries) <==> Lists(entries, b, segwit)
    ensures GetInv(b, segwit).Made? <==> ListsSome(b, segwit)
  {
    hide GetInv, Lists;
    if GetInv(b, segwit).Made? {
      assert GetInv(b, segwit) == Made(GetInv(b, segwit).value);
    }
  }

  /**
   Any bytes under any name: a payload that is made is of the kind the name says, unknown for a name
   that is not in the table, and holds what is in the bytes. An exception escapes exactly from a list whose
   count is cut short; and what is passed over is exactly a nonce of a wrong size and a list that lists nothing.
   */
  lemma DecodeSays(name: Bytes, b: Bytes)
    ensures var r := Decode(name, b);
            && (r.Made? ==> Says(r.value, b) && if name in KNOWN then TypeStr(r.value) == name else r.value.Unknown?)
            && (r.Escapes? <==> (name == INV || name == GETDATA) && GetVarInt(b).None?)
            && (r.PassedOver? <==>
                  || (name == PING && |b| !in {0, 8}) || (name == PONG && |b| != 8)
                  || (name in {INV, GETDATA} && GetVarInt(b).Some?
                      && !ListsSome(b, name == GETDATA)))
  {
    hide GetVarInt, GetInv, FromLittleEndian, LittleEndian, Lists;
    InvSays(b, false);
    InvSays(b, true);
    ListMade(b, name == GETDATA);
    if |b| == 8 {
      LittleEndianWritesBack(b);
    }
  }
}
