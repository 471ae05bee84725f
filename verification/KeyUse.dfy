/**
 The use of a session's keys: packets sealed and rekeys, and the messages that the sockets send
 (`WebSocketServer::prepareWriteThread`, `WebSocketClient::writeService`), which ask before each
 message whether to rekey.
 */
module KeyUse {
  import opened Bytes
  import opened Symbolic
  import opened Bip151
  import opened PartialMessage

  // ----- Nonce use ----------------------------------------------------------

  /** One use of an out-session: seal a packet, or rekey. */
  datatype Use = SealUse(size: nat) | RekeyUse

  function AfterUses(s: Session, us: seq<Use>): Session {
    if us == [] then s else
    var t := AfterUses(s, us[..|us| - 1]);
    match us[|us| - 1]
    case SealUse(n) => Counted(t, n)
    case RekeyUse => Rekeyed151(t)
  }

  function Seals(us: seq<Use>): nat {
    if us == [] then 0 else Seals(us[..|us| - 1]) + if us[|us| - 1].SealUse? then 1 else 0
  }

  function Rekeys(us: seq<Use>): nat {
    if us == [] then 0 else Rekeys(us[..|us| - 1]) + if us[|us| - 1].RekeyUse? then 1 else 0
  }

  function Depth(k: CipherKey): nat {
    match k
    case Hash151(_, prev) => 1 + Depth(prev)
    case _ => 0
  }

  lemma {:induction false} UsesCount(s: Session, us: seq<Use>)
    requires s.cipher.ChaCha20Poly1305? && s.ctx == s.keys && s.num < WORD
    ensures var t := AfterUses(s, us);
            && t.num == (s.num + Seals(us)) % WORD
            && t.cipher == s.cipher && t.ctx == t.keys
            && Depth(t.ctx.chacha) == Depth(s.ctx.chacha) + Rekeys(us)
            && (Rekeys(us) == 0 ==> t.ctx == s.ctx)
            && (us != [] && us[|us| - 1].RekeyUse? ==> t.bytes == 0)
  {
    if us != [] {
      var n := |us| - 1;
      UsesCount(s, us[..n]);
      var t := AfterUses(s, us[..n]);
      if us[n].SealUse? {
        WrapsOnce(s.num + Seals(us[..n]));
      }
    }
  }

  /**
   Two packets sealed by one session, with the uses `us` from the first (included) to the second,
   share keys and sequence number exactly when no rekey came between and the number of packets
   is a multiple of 2^32: a rekey never resets the sequence number.
   */
  lemma NonceReuse(s: Session, us: seq<Use>)
    requires s.cipher.ChaCha20Poly1305? && s.ctx == s.keys && s.num < WORD
    ensures (AfterUses(s, us).ctx == s.ctx && AfterUses(s, us).num == s.num)
       <==> (Rekeys(us) == 0 && Seals(us) % WORD == 0)
  {
    UsesCount(s, us);
    WrapsAround(s.num, Seals(us));
  }

  lemma WrapsAround(a: nat, m: nat)
    requires a < 0x1_0000_0000
    ensures (a + m) % 0x1_0000_0000 == a <==> m % 0x1_0000_0000 == 0
  {
  }

  lemma WrapsOnce(a: nat)
    ensures (a % 0x1_0000_0000 + 1) % 0x1_0000_0000 == (a + 1) % 0x1_0000_0000
  {
  }

  // ----- Lists of uses ------------------------------------------------------

  lemma {:induction false} UsesAppend(s: Session, a: seq<Use>, b: seq<Use>)
    ensures AfterUses(s, a + b) == AfterUses(AfterUses(s, a), b)
    decreases |b|
  {
    hide Counted, Rekeyed151;
    if b == [] {
      assert a + b == a;
    } else {
      UsesAppend(s, a, b[..|b| - 1]);
      assert (a + b)[..|a + b| - 1] == a + b[..|b| - 1];
    }
  }

  /** Every packet counts at least one byte, and the 32-bit count of bytes does not wrap. */
  ghost predicate Metered(s: Session, us: seq<Use>) {
    us != [] ==>
      var n := |us| - 1;
      && Metered(s, us[..n])
      && (us[n].SealUse? ==> us[n].size > 0 && AfterUses(s, us[..n]).bytes + us[n].size < 0x1_0000_0000)
  }

  lemma {:induction false} MeteredAppend(s: Session, a: seq<Use>, b: seq<Use>)
    ensures Metered(s, a + b) <==> Metered(s, a) && Metered(AfterUses(s, a), b)
    decreases |b|
  {
    hide AfterUses;
    if b == [] {
      assert a + b == a;
    } else {
      var n := |b| - 1;
      MeteredAppend(s, a, b[..n]);
      UsesAppend(s, a, b[..n]);
      assert (a + b)[..|a + b| - 1] == a + b[..n];
    }
  }

  /** Without a rekey, metered packets are no more than the bytes they count. */
  lemma {:induction false} MeteredSeals(s: Session, us: seq<Use>)
    requires Metered(s, us) && Rekeys(us) == 0 && s.bytes < 0x1_0000_0000
    ensures s.bytes + Seals(us) <= AfterUses(s, us).bytes < 0x1_0000_0000
  {
    if us != [] {
      MeteredSeals(s, us[..|us| - 1]);
    }
  }

  lemma {:induction false} BytesFit(s: Session, us: seq<Use>)
    requires s.bytes < 0x1_0000_0000
    ensures AfterUses(s, us).bytes < 0x1_0000_0000
  {
    if us != [] {
      BytesFit(s, us[..|us| - 1]);
    }
  }

  /** In a metered list no two packets are sealed under the same keys with the same number. */
  lemma MeteredNeverReuses(s: Session, us: seq<Use>, i: nat, j: nat)
    requires s.cipher.ChaCha20Poly1305? && s.ctx == s.keys && s.num < WORD && s.bytes < WORD
    requires Metered(s, us) && i < j < |us| && us[i].SealUse? && us[j].SealUse?
    ensures var a, b := AfterUses(s, us[..i]), AfterUses(s, us[..j]);
            a.ctx != b.ctx || a.num != b.num
  {
    hide AfterUses;
    var a, between := AfterUses(s, us[..i]), us[i..j];
    assert us[..j] == us[..i] + between && us == us[..j] + us[j..];
    UsesAppend(s, us[..i], between);
    MeteredAppend(s, us[..j], us[j..]);
    MeteredAppend(s, us[..i], between);
    UsesCount(s, us[..i]);
    BytesFit(s, us[..i]);
    NonceReuse(a, between);
    if Rekeys(between) == 0 {
      MeteredSeals(a, between);
      FirstSeals(between);
    }
  }

  lemma {:induction false} FirstSeals(us: seq<Use>)
    requires us != [] && us[0].SealUse?
    ensures Seals(us) >= 1
    decreases |us|
  {
    if |us| > 1 {
      FirstSeals(us[..|us| - 1]);
    }
  }

  // ----- A message ----------------------------------------------------------

  /** The size in clear of a message packet: length, type, message id, count or index, body. */
  function PlainSize(p: Packet): (n: nat)
    ensures n >= 9
  {
    match p
    case Single(_, body) => 9 + |body|
    case Header(_, _, body) => 11 + |body|
    case Fragment(_, index, body) => (if index < 253 then 10 else 12) + |body|
    case _ => 9
  }

  /** A message to send; `due` says that the keys have been in use for ten minutes. */
  datatype Outgoing = Outgoing(id: MsgId, payload: Bytes, due: bool)

  predicate NeedsRekey(s: Session, m: Outgoing) { s.bytes + |m.payload| >= MAX_BYTES || m.due }

  function SealUses(packets: seq<Packet>): (us: seq<Use>)
    ensures |us| == |packets|
  {
    if packets == [] then [] else
    var n := |packets| - 1;
    SealUses(packets[..n]) + [SealUse(PlainSize(packets[n]))]
  }

  /** The rekey packet is 33 zero bytes with length and type. */
  function SendUses(s: Session, m: Outgoing): seq<Use> {
    (if NeedsRekey(s, m) then [SealUse(38), RekeyUse] else []) + SealUses(PacketsOf(m.id, m.payload))
  }

  /** What is sealed for packets, one after the other; `name` stands for their bytes. */
  function SealedPackets(s: Session, packets: seq<Packet>, name: Packet -> nat): seq<Wire> {
    if packets == [] then [] else
    var n := |packets| - 1;
    var t := AfterUses(s, SealUses(packets[..n]));
    SealedPackets(s, packets[..n], name)
    + [Sealed(t.ctx, t.num, App, AppBody(name(packets[n]), PlainSize(packets[n]) - 5))]
  }

  const REKEY_PACKET: Body := PointBody(ZeroPoint)

  /** The packets of a message, after a rekey packet if one is needed. */
  function Sent(s: Session, m: Outgoing, name: Packet -> nat): seq<Wire> {
    var packets := PacketsOf(m.id, m.payload);
    if NeedsRekey(s, m) then
      [Sealed(s.ctx, s.num, Rekey, REKEY_PACKET)]
      + SealedPackets(AfterUses(s, [SealUse(38), RekeyUse]), packets, name)
    else SealedPackets(s, packets, name)
  }

  /** One more packet sealed. */
  lemma SealStep(s: Session, packets: seq<Packet>, i: nat, name: Packet -> nat)
    requires i < |packets|
    ensures var t, size := AfterUses(s, SealUses(packets[..i])), PlainSize(packets[i]);
            && AfterUses(s, SealUses(packets[..i + 1])) == Counted(t, size)
            && SealedPackets(s, packets[..i + 1], name) ==
               SealedPackets(s, packets[..i], name) + [Sealed(t.ctx, t.num, App, AppBody(name(packets[i]), size - 5))]
  {
    hide PlainSize, Counted;
    var us := SealUses(packets[..i + 1]);
    assert packets[..i + 1][..i] == packets[..i];
    assert us[..i] == SealUses(packets[..i]);
  }

  /** The body of the write loops: rekey if needed, then seal the packets of the message. */
  method WriteMessage(session: BIP151Session, m: Outgoing, name: Packet -> nat) returns (sent: seq<Wire>)
    modifies session
    ensures session.View() == AfterUses(old(session.View()), SendUses(old(session.View()), m))
    ensures sent == Sent(old(session.View()), m, name)
  {
    hide PacketsOf, AfterUses, Counted, Rekeyed151, SealUses, SealedPackets, PlainSize;
    ghost var s := session.View();
    sent := [];
    var needed := session.RekeyNeeded(|m.payload|);
    if needed || m.due {
      var w := session.EncPayload(Rekey, REKEY_PACKET);
      session.SessionRekey(true, ZeroPoint, ZeroPoint, NO_KEYS);
      sent := [w];
    }
    RekeyUses(s);
    ghost var t, before := session.View(), sent;
    var packets := Serialize(m.id, m.payload);
    NothingSealed(t, name);
    for i := 0 to |packets|
      invariant session.View() == AfterUses(t, SealUses(packets[..i]))
      invariant sent == before + SealedPackets(t, packets[..i], name)
    {
      SealStep(t, packets, i, name);
      var w := session.EncPayload(App, AppBody(name(packets[i]), PlainSize(packets[i]) - 5));
      sent := sent + [w];
    }
    assert packets[..|packets|] == packets;
    UsesAppend(s, if NeedsRekey(s, m) then [SealUse(38), RekeyUse] else [], SealUses(packets));
  }

  lemma NothingSealed(s: Session, name: Packet -> nat)
    ensures AfterUses(s, SealUses([])) == s && SealedPackets(s, [], name) == []
  {
  }

  lemma RekeyUses(s: Session)
    ensures AfterUses(s, []) == s && AfterUses(s, [SealUse(38), RekeyUse]) == Rekeyed151(Counted(s, 38))
  {
    var us := [SealUse(38), RekeyUse];
    assert us[..1] == [SealUse(38)] && us[..1][..0] == [];
    assert AfterUses(s, us[..1]) == Counted(s, 38);
  }

  // ----- How many bytes a message adds --------------------------------------

  function BodySizes(packets: seq<Packet>): nat {
    if packets == [] then 0 else
    var p := packets[|packets| - 1];
    BodySizes(packets[..|packets| - 1]) + if HasId(p) && !p.Malformed? then |p.body| else 0
  }

  function AtMost(x: nat, bound: nat): nat { if x < bound then x else bound }

  /** The bodies of the first k packets of a split payload are its bytes up to where packet k starts. */
  lemma {:induction false} SplitSizes(id: MsgId, payload: Bytes, n: nat, k: nat)
    requires |payload| > 1459 && k <= |SplitPackets(id, payload, n)|
    ensures BodySizes(SplitPackets(id, payload, n)[..k]) == AtMost(StartOf(k), |payload|)
  {
    hide StartOf, FragmentCount;
    var all := SplitPackets(id, payload, n);
    FirstStarts();
    if k > 0 {
      SplitSizes(id, payload, n, k - 1);
      assert all[..k][..k - 1] == all[..k - 1];
      if k == 1 {
        assert all[0] == Header(id, n, payload[..1457]);
      } else {
        StartStep(k - 1);
        assert all[k - 1] == SplitFragment(id, payload, k - 1);
      }
    }
  }

  lemma FirstStarts()
    ensures StartOf(0) == 0 && StartOf(1) == 1457
  {
  }

  /** A message is at most 65535 packets, with bodies no longer than its payload, and below 2^27 bytes in all. */
  lemma MessageSizes(id: MsgId, payload: Bytes)
    ensures var packets := PacketsOf(id, payload);
            && 1 <= |packets| <= 65535
            && (|payload| > 1459 && FragmentCount(|payload|) > 0 ==> |packets| == FragmentCount(|payload|))
            && (|payload| > 1459 && FragmentCount(|payload|) == 0 ==> |packets| == 1)
            && BodySizes(packets) <= |payload| && BodySizes(packets) < 0x800_0000
  {
    var packets := PacketsOf(id, payload);
    if |payload| <= 1459 {
      assert packets[..0] == [];
    } else {
      var n := FragmentCount(|payload|);
      SplitSizes(id, payload, n, |packets|);
      assert packets[..|packets|] == packets;
      StartIsMonotone(|packets|, 65535);
    }
  }

  /** What is sent as one packet: the clear size with the MAC and what the socket library keeps in front. */
  function SentSize(p: Packet): nat { LWS_PRE + PlainSize(p) + PartialMessage.MAC_LEN }

  /** No packet is longer than 1500 bytes, and all but the last one of a message within the limit are exactly that. */
  lemma PacketsFill(id: MsgId, payload: Bytes, i: nat)
    requires i < |PacketsOf(id, payload)|
    ensures SentSize(PacketsOf(id, payload)[i]) <= PACKET_SIZE
    ensures i + 1 < |PacketsOf(id, payload)| && StartOf(i + 1) <= |payload| ==>
              SentSize(PacketsOf(id, payload)[i]) == PACKET_SIZE
  {
    hide FragmentCount;
    var packets := PacketsOf(id, payload);
    if |payload| > 1459 && i > 0 {
      assert packets[i] == SplitFragment(id, payload, i);
      StartStep(i);
    }
  }

  /** Sealing packets adds their bodies and at most twelve bytes each, without wrapping around. */
  lemma {:induction false} SealsMeter(s: Session, packets: seq<Packet>)
    requires s.bytes + BodySizes(packets) + 12 * |packets| < 0x1_0000_0000
    ensures Metered(s, SealUses(packets))
    ensures AfterUses(s, SealUses(packets)).bytes <= s.bytes + BodySizes(packets) + 12 * |packets|
  {
    hide AfterUses, Counted, Metered, PlainSize;
    if packets == [] {
      NothingMetered(s);
    } else {
      var n := |packets| - 1;
      SealsMeter(s, packets[..n]);
      PlainBound(packets[n]);
      OneSealed(s, SealUses(packets[..n]), PlainSize(packets[n]));
    }
  }

  lemma NothingMetered(s: Session)
    ensures Metered(s, []) && AfterUses(s, []) == s
  {
  }

  lemma PlainBound(p: Packet)
    ensures 0 < PlainSize(p) <= 12 + if HasId(p) && !p.Malformed? then |p.body| else 0
  {
  }

  lemma OneSealed(s: Session, us: seq<Use>, size: nat)
    requires Metered(s, us) && size > 0 && AfterUses(s, us).bytes + size < 0x1_0000_0000
    ensures Metered(s, us + [SealUse(size)])
    ensures AfterUses(s, us + [SealUse(size)]).bytes == AfterUses(s, us).bytes + size
  {
    assert (us + [SealUse(size)])[..|us|] == us;
  }

  /** What the count of bytes stays below: the limit, and the headers of one message. */
  const MOST_BYTES: nat := 1_000_786_420

  lemma SendMeters(s: Session, m: Outgoing)
    requires s.bytes < MOST_BYTES && s.cipher.ChaCha20Poly1305?
    ensures Metered(s, SendUses(s, m)) && AfterUses(s, SendUses(s, m)).bytes < MOST_BYTES
  {
    hide PacketsOf, AfterUses, Counted, Metered;
    var packets := PacketsOf(m.id, m.payload);
    var first := if NeedsRekey(s, m) then [SealUse(38), RekeyUse] else [];
    MessageSizes(m.id, m.payload);
    RekeyMeters(s);
    UsesAppend(s, first, SealUses(packets));
    MeteredAppend(s, first, SealUses(packets));
    SealsMeter(AfterUses(s, first), packets);
  }

  lemma RekeyMeters(s: Session)
    requires s.bytes < MOST_BYTES && s.cipher.ChaCha20Poly1305?
    ensures Metered(s, []) && AfterUses(s, []) == s
    ensures Metered(s, [SealUse(38), RekeyUse]) && AfterUses(s, [SealUse(38), RekeyUse]).bytes == 0
  {
    var us := [SealUse(38), RekeyUse];
    assert us[..1] == [SealUse(38)] && us[..1][..0] == [];
    RekeyUses(s);
  }

  // ----- Any list of messages -----------------------------------------------

  /** The uses of an out-session by messages sent one after the other. */
  function RunUses(s: Session, ms: seq<Outgoing>): seq<Use> {
    if ms == [] then [] else
    var us := RunUses(s, ms[..|ms| - 1]);
    us + SendUses(AfterUses(s, us), ms[|ms| - 1])
  }

  predicate Keyed(s: Session) { s.cipher.ChaCha20Poly1305? && s.ctx == s.keys && s.num < WORD && s.bytes < MOST_BYTES }

  lemma {:induction false} RunMeters(s: Session, ms: seq<Outgoing>)
    requires Keyed(s)
    ensures Metered(s, RunUses(s, ms)) && AfterUses(s, RunUses(s, ms)).bytes < MOST_BYTES
  {
    hide AfterUses, Metered, SendUses;
    if ms == [] {
      RekeyMeters(s);
    } else {
      var before := ms[..|ms| - 1];
      RunMeters(s, before);
      var us := RunUses(s, before);
      UsesCount(s, us);
      var t, m := AfterUses(s, us), ms[|ms| - 1];
      SendMeters(t, m);
      UsesAppend(s, us, SendUses(t, m));
      MeteredAppend(s, us, SendUses(t, m));
    }
  }

  /**
   Whatever messages are sent, and whenever keys are due by time: the count of bytes under one set of
   keys is exact, stays below the limit and the headers of one message, and no two packets are sealed
   under the same keys with the same number.
   */
  lemma SendsNeverReuseANonce(s: Session, ms: seq<Outgoing>)
    requires Keyed(s)
    ensures AfterUses(s, RunUses(s, ms)).bytes < MAX_BYTES + 12 * 65535
    ensures var us := RunUses(s, ms);
            && (forall i: nat :: i < |us| && us[i].SealUse? ==>
                  AfterUses(s, us[..i + 1]).bytes == AfterUses(s, us[..i]).bytes + us[i].size < WORD)
            && (forall i: nat, j: nat :: i < j < |us| && us[i].SealUse? && us[j].SealUse? ==>
                  var a, b := AfterUses(s, us[..i]), AfterUses(s, us[..j]);
                  a.ctx != b.ctx || a.num != b.num)
  {
    hide RunUses, AfterUses, Metered;
    var us := RunUses(s, ms);
    RunMeters(s, ms);
    forall i: nat | i < |us| && us[i].SealUse?
      ensures AfterUses(s, us[..i + 1]).bytes == AfterUses(s, us[..i]).bytes + us[i].size < WORD
    {
      MeteredAt(s, us, i);
    }
    forall i: nat, j: nat | i < j < |us| && us[i].SealUse? && us[j].SealUse?
      ensures var a, b := AfterUses(s, us[..i]), AfterUses(s, us[..j]); a.ctx != b.ctx || a.num != b.num
    {
      MeteredNeverReuses(s, us, i, j);
    }
  }

  lemma MeteredAt(s: Session, us: seq<Use>, i: nat)
    requires Metered(s, us) && i < |us| && us[i].SealUse?
    ensures AfterUses(s, us[..i + 1]).bytes == AfterUses(s, us[..i]).bytes + us[i].size < WORD
  {
    assert us == us[..i + 1] + us[i + 1..] && us[..i + 1][..i] == us[..i];
    MeteredAppend(s, us[..i + 1], us[i + 1..]);
  }
}
