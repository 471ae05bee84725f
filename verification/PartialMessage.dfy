/**
 Messages split over packets and put together again
 (`WebSocketMessageCodec::serialize`, `WebSocketMessagePartial`).
 */
module PartialMessage {
  import opened Wrappers
  import opened Bytes

  const UINT32_MAX: nat := 0xFFFF_FFFF
  const UINT16_MAX: nat := 0xFFFF

  /** An id that a packet can carry; UINT32_MAX stands for "none". */
  type MsgId = n: nat | n < UINT32_MAX

  /** A packet, by what the parser makes of its bytes. */
  datatype Packet =
    | NoData                                                // no bytes: a flag
    | Unidentified                                          // bytes without a message id
    | Malformed(id: MsgId)                                  // an id, but a wrong packet length
    | Single(id: MsgId, body: Bytes)
    | Header(id: MsgId, count: nat, body: Bytes)            // count is 16 bits wide
    | Fragment(id: MsgId, index: nat, body: Bytes)          // so is the index

  predicate WellFormed(p: Packet) {
    (p.Header? ==> p.count <= UINT16_MAX) && (p.Fragment? ==> p.index <= UINT16_MAX)
  }

  predicate HasId(p: Packet) { !p.NoData? && !p.Unidentified? }

  datatype Partial = Partial(id: nat, count: nat, parts: map<nat, Bytes>)

  const EMPTY := Partial(UINT32_MAX, UINT32_MAX, map[])

  predicate Ready(m: Partial) { |m.parts| == m.count }

  /** `std::map::emplace`: an existing entry stays. */
  function Emplace(m: map<nat, Bytes>, i: nat, b: Bytes): map<nat, Bytes> {
    if i in m then m else m[i := b]
  }

  /** None when the packet cannot belong to this message. */
  function Parse(m: Partial, p: Packet): Option<Partial> {
    match p
    case Single(id, body) =>
      if m.id != UINT32_MAX then None else Some(Partial(id, 1, Emplace(m.parts, 0, body)))
    case Header(id, count, body) =>
      if m.id != UINT32_MAX && m.id != id then None else Some(Partial(id, count, Emplace(m.parts, 0, body)))
    case Fragment(id, index, body) =>
      if m.id != UINT32_MAX && m.id != id then None else Some(m.(id := id, parts := Emplace(m.parts, index, body)))
    case _ => None
  }

  /** The parts below n, in index order, as one string. */
  function Gather(parts: map<nat, Bytes>, n: nat): Bytes {
    if n == 0 then [] else Gather(parts, n - 1) + if n - 1 in parts then parts[n - 1] else []
  }

  /** The message body: the fragment map walked in key order. */
  function Content(m: Partial): Bytes { Gather(m.parts, UINT16_MAX + 1) }

  /** Where a packet's body goes. */
  function IndexOf(p: Packet): nat { if p.Fragment? then p.index else 0 }

  /**
   What any packet, planned or not, does to any message: one of another message, and a single packet for a
   message that was begun, is refused; else its body is filed under its index, unless there is one already.
   */
  lemma ParseEffect(m: Partial, p: Packet)
    ensures Parse(m, p).Some? <==>
              (p.Single? || p.Header? || p.Fragment?) && (m.id == UINT32_MAX || (m.id == p.id && !p.Single?))
    ensures Parse(m, p).Some? ==>
              var r := Parse(m, p).value;
              && r.id == p.id && r.parts.Keys == m.parts.Keys + {IndexOf(p)}
              && (forall i :: i in m.parts ==> r.parts[i] == m.parts[i])
              && (IndexOf(p) !in m.parts ==> r.parts[IndexOf(p)] == p.body)
              && r.count == if p.Single? then 1 else if p.Header? then p.count else m.count
  {
  }

  // ----- Planned messages ---------------------------------------------------

  /** The packets that carry `parts` under an id: one single packet, or a header and fragments. */
  function PlannedPacket(id: MsgId, parts: seq<Bytes>, i: nat): Packet
    requires i < |parts|
  {
    if |parts| == 1 then Single(id, parts[0])
    else if i == 0 then Header(id, |parts|, parts[0])
    else Fragment(id, i, parts[i])
  }

  predicate Plannable(parts: seq<Bytes>) { 1 <= |parts| <= UINT16_MAX }

  /** What is held of a planned message once the packets with indices in `seen` were parsed. */
  function Collected(id: MsgId, parts: seq<Bytes>, seen: set<nat>): Partial
    requires forall i :: i in seen ==> i < |parts|
  {
    if seen == {} then EMPTY else
    Partial(id, if 0 in seen then |parts| else UINT32_MAX, map i | i in seen :: parts[i])
  }

  lemma ParseCollects(id: MsgId, parts: seq<Bytes>, seen: set<nat>, i: nat)
    requires Plannable(parts) && i < |parts| && forall j :: j in seen ==> j < |parts|
    ensures var r := Parse(Collected(id, parts, seen), PlannedPacket(id, parts, i));
            if r.Some? then r.value == Collected(id, parts, seen + {i}) else i in seen && |parts| == 1
  {
    var m, p := Collected(id, parts, seen), PlannedPacket(id, parts, i);
    var r := Parse(m, p);
    if r.Some? {
      assert r.value.parts == Collected(id, parts, seen + {i}).parts;
    }
  }

  lemma {:induction false} SetBelow(seen: set<nat>, n: nat)
    requires forall i :: i in seen ==> i < n
    ensures |seen| <= n
    ensures |seen| == n <==> forall i: nat :: i < n ==> i in seen
  {
    if n > 0 {
      if n - 1 in seen {
        SetBelow(seen - {n - 1}, n - 1);
      } else {
        SetBelow(seen, n - 1);
      }
    }
  }

  /** A planned message is ready exactly when all of its packets were parsed. */
  lemma CollectedReady(id: MsgId, parts: seq<Bytes>, seen: set<nat>)
    requires Plannable(parts) && forall j :: j in seen ==> j < |parts|
    ensures Ready(Collected(id, parts, seen)) <==> forall i: nat :: i < |parts| ==> i in seen
  {
    SetBelow(seen, |parts|);
    if seen != {} {
      var m := Collected(id, parts, seen);
      assert m.parts.Keys == seen;
    }
  }

  lemma {:induction false} GatherPlanned(m: map<nat, Bytes>, parts: seq<Bytes>, n: nat)
    requires forall i :: i in m <==> 0 <= i < |parts|
    requires forall i :: 0 <= i < |parts| ==> m[i] == parts[i]
    ensures Gather(m, n) == Join(parts[..if n < |parts| then n else |parts|])
  {
    if n > 0 {
      GatherPlanned(m, parts, n - 1);
      if n <= |parts| {
        assert parts[..n][..n - 1] == parts[..n - 1];
      }
    }
  }

  /** Whatever order and however often its packets came, a ready planned message reads back whole. */
  lemma ReadyReadsBack(id: MsgId, parts: seq<Bytes>, seen: set<nat>)
    requires Plannable(parts) && forall j :: j in seen ==> j < |parts|
    requires Ready(Collected(id, parts, seen))
    ensures Content(Collected(id, parts, seen)) == Join(parts)
  {
    CollectedReady(id, parts, seen);
    var m := Collected(id, parts, seen);
    assert forall i :: i in m.parts <==> 0 <= i < |parts|;
    GatherPlanned(m.parts, parts, UINT16_MAX + 1);
    assert parts[..|parts|] == parts;
  }

  // ----- Splitting a payload ------------------------------------------------

  /*
   A packet has 1500 bytes, of which 16 are reserved by the socket library, 16 for the MAC and
   9 for length, type and message id. That leaves 1459 for the body; a header spends 2 of them on
   the fragment count, a fragment 1 (index below 253) or 3 on its index.
   */
  const PACKET_SIZE: nat := 1500
  const LWS_PRE: nat := 16
  const MAC_LEN: nat := 16

  /** Where in the payload fragment i starts. */
  function StartOf(i: nat): nat {
    if i == 0 then 0
    else if i <= 253 then 1457 + (i - 1) * 1458
    else 1457 + 252 * 1458 + (i - 253) * 1456
  }

  /** The longest payload that 65535 fragments can carry. */
  const MAX_PAYLOAD: nat := StartOf(UINT16_MAX)

  /** `fragment_count`, a 16-bit variable, as it is computed. */
  function FragmentCount(len: nat): (n: nat)
    requires len > 1459
    ensures n <= UINT16_MAX
  {
    var left := len - 1457;
    var n := (left / 1458 + 1) % 0x10000;
    if n < 253 then (n + if left % 1458 != 0 then 1 else 0) % 0x10000
    else
      assert left / 1458 >= 252;
      var rest := left - 252 * 1458;
      ((253 + rest / 1456) % 0x10000 + if rest % 1456 != 0 then 1 else 0) % 0x10000
  }

  function Ceiling(a: nat, b: nat): nat
    requires b > 0
  {
    a / b + if a % b != 0 then 1 else 0
  }

  /**
   The count in closed form, cut to 16 bits once: a header and fragments of 1458 bytes, or, from the first
   guess of 253 on, fragments of 1456 bytes behind the first 252. The guess is cut to 16 bits itself.
   */
  lemma CountInClosedForm(len: nat)
    requires len > 1459
    ensures var left := len - 1457;
            FragmentCount(len) == if (left / 1458 + 1) % 0x10000 < 253 then (1 + Ceiling(left, 1458)) % 0x10000
                                  else (253 + Ceiling(left - 252 * 1458, 1456)) % 0x10000
  {
    var left := len - 1457;
    if (left / 1458 + 1) % 0x10000 < 253 {
      CutOnce(left / 1458 + 1, if left % 1458 != 0 then 1 else 0);
    } else {
      var rest := left - 252 * 1458;
      CutOnce(253 + rest / 1456, if rest % 1456 != 0 then 1 else 0);
    }
  }

  lemma CutOnce(a: nat, b: nat)
    ensures (a % 0x10000 + b) % 0x10000 == (a + b) % 0x10000
  {
  }

  /** The bytes of the payload from `from` up to `to`, as far as there are any. */
  function Slice(b: Bytes, from: nat, to: nat): Bytes {
    if from >= |b| then [] else if to >= |b| then b[from..] else if from <= to then b[from..to] else []
  }

  function FragmentsOf(payload: Bytes, n: nat): (parts: seq<Bytes>)
    ensures |parts| == n
    ensures forall i :: 0 <= i < n ==> parts[i] == Slice(payload, StartOf(i), StartOf(i + 1))
  {
    if n == 0 then [] else FragmentsOf(payload, n - 1) + [Slice(payload, StartOf(n - 1), StartOf(n))]
  }

  /** The bodies of the packets that a payload is sent in. */
  function PartsOf(payload: Bytes): seq<Bytes> {
    if |payload| <= 1459 then [payload]
    else FragmentsOf(payload, FragmentCount(|payload|))
  }

  /** A header with count n and its fragments; the header goes out even if the count wrapped to zero. */
  function SplitPackets(id: MsgId, payload: Bytes, n: nat): seq<Packet>
    requires |payload| > 1459
  {
    [Header(id, n, payload[..1457])]
    + seq(if n == 0 then 0 else n - 1, i requires 0 <= i => SplitFragment(id, payload, i + 1))
  }

  function SplitFragment(id: MsgId, payload: Bytes, i: nat): Packet {
    Fragment(id, i, Slice(payload, StartOf(i), StartOf(i + 1)))
  }

  function PacketsOf(id: MsgId, payload: Bytes): seq<Packet> {
    if |payload| <= 1459 then [Single(id, payload)] else SplitPackets(id, payload, FragmentCount(|payload|))
  }

  lemma StartIsMonotone(i: nat, j: nat)
    requires i <= j
    ensures StartOf(i) <= StartOf(j)
  {
    if 0 < i && j <= 253 {
      assert (i - 1) * 1458 <= (j - 1) * 1458;
    } else if i > 253 {
      assert (i - 253) * 1456 <= (j - 253) * 1456;
    } else if i > 0 {
      assert (i - 1) * 1458 <= 252 * 1458;
    }
  }

  lemma StartStep(i: nat)
    requires i >= 1
    ensures StartOf(i + 1) == StartOf(i) + if i <= 252 then 1458 else 1456
  {
    if i <= 252 {
      assert i * 1458 == (i - 1) * 1458 + 1458;
    } else {
      assert (i + 1 - 253) * 1456 == (i - 253) * 1456 + 1456;
    }
  }

  /** Within the limit the count is the right one: the last fragment holds the payload's last byte. */
  lemma CountCovers(len: nat)
    requires 1459 < len <= MAX_PAYLOAD
    ensures var n := FragmentCount(len); n >= 2 && StartOf(n - 1) < len <= StartOf(n)
  {
    var left := len - 1457;
    if left / 1458 + 1 < 253 {
      FewCover(left);
    } else {
      ManyCover(left - 252 * 1458);
    }
  }

  lemma FewCover(left: nat)
    requires 3 <= left && left / 1458 < 252
    ensures var n := FragmentCount(left + 1457); n >= 2 && StartOf(n - 1) < left + 1457 <= StartOf(n)
  {
    var q, r := left / 1458, left % 1458;
    assert left == q * 1458 + r;
    var n := FragmentCount(left + 1457);
    assert n == q + 1 + if r != 0 then 1 else 0;
    assert StartOf(n) == 1457 + (n - 1) * 1458;
    StartStep(n - 1);
  }

  lemma ManyCount(rest: nat, q: nat, r: nat)
    requires rest == q * 1456 + r && r < 1456
    requires q <= UINT16_MAX - 253 && (q == UINT16_MAX - 253 ==> r == 0)
    ensures FragmentCount(rest + 252 * 1458 + 1457) == 253 + q + if r != 0 then 1 else 0
  {
    var left := rest + 252 * 1458;
    var first := left / 1458 + 1;
    assert left == (first - 1) * 1458 + left % 1458;
    assert 253 <= first < 0x10000;
    assert rest / 1456 == q && rest % 1456 == r;
  }

  lemma ManyCover(rest: nat)
    requires rest <= (UINT16_MAX - 253) * 1456
    ensures var len := rest + 252 * 1458 + 1457;
            var n := FragmentCount(len); n >= 2 && StartOf(n - 1) < len <= StartOf(n)
  {
    var q, r := rest / 1456, rest % 1456;
    assert rest == q * 1456 + r;
    ManyCount(rest, q, r);
    var n := 253 + q + if r != 0 then 1 else 0;
    assert StartOf(n) == 1457 + 252 * 1458 + (n - 253) * 1456;
    StartStep(n - 1);
  }

  lemma SliceJoins(b: Bytes, x: nat, y: nat)
    requires x <= y
    ensures Slice(b, 0, x) + Slice(b, x, y) == Slice(b, 0, y)
  {
  }

  lemma NextSliceJoins(b: Bytes, n: nat)
    requires n > 0
    ensures Slice(b, 0, StartOf(n - 1)) + Slice(b, StartOf(n - 1), StartOf(n)) == Slice(b, 0, StartOf(n))
  {
    StartIsMonotone(n - 1, n);
    SliceJoins(b, StartOf(n - 1), StartOf(n));
  }

  lemma {:induction false} JoinFragments(payload: Bytes, n: nat)
    ensures Join(FragmentsOf(payload, n)) == Slice(payload, 0, StartOf(n))
  {
    if n == 0 {
      assert Slice(payload, 0, 0) == [];
    } else {
      JoinFragments(payload, n - 1);
      var f := FragmentsOf(payload, n);
      assert f[..n - 1] == FragmentsOf(payload, n - 1);
      NextSliceJoins(payload, n);
    }
  }

  /**
   A payload is carried whole by the packets it is split into exactly when it is no longer than
   65535 fragments can hold. (The count being 16 bits wide, the guard meant to refuse longer
   payloads never fires.)
   */
  lemma CarriedWholeIffWithinLimit(payload: Bytes)
    ensures Join(PartsOf(payload)) == payload <==> |payload| <= MAX_PAYLOAD
  {
    var len := |payload|;
    if len <= 1459 {
      assert PartsOf(payload)[..0] == [];
    } else {
      var n := FragmentCount(len);
      JoinFragments(payload, n);
      if len <= MAX_PAYLOAD {
        CountCovers(len);
      } else {
        StartIsMonotone(n, UINT16_MAX);
      }
    }
  }

  lemma SplitIsPlanned(id: MsgId, payload: Bytes, n: nat, i: nat)
    requires |payload| > 1459 && i < n && 2 <= n
    ensures |SplitPackets(id, payload, n)| == |FragmentsOf(payload, n)| == n
    ensures SplitPackets(id, payload, n)[i] == PlannedPacket(id, FragmentsOf(payload, n), i)
  {
    if i == 0 {
      assert StartOf(1) == 1457;
      assert FragmentsOf(payload, n)[0] == payload[..1457];
    } else {
      assert SplitPackets(id, payload, n)[i] == SplitFragment(id, payload, i);
    }
  }

  /** Within the limit, the packets are those planned for the parts. */
  lemma PacketsArePlanned(id: MsgId, payload: Bytes)
    requires |payload| <= MAX_PAYLOAD
    ensures Plannable(PartsOf(payload)) && |PacketsOf(id, payload)| == |PartsOf(payload)|
    ensures forall i :: 0 <= i < |PartsOf(payload)| ==>
              PacketsOf(id, payload)[i] == PlannedPacket(id, PartsOf(payload), i)
  {
    if |payload| > 1459 {
      CountCovers(|payload|);
      var n := FragmentCount(|payload|);
      SplitIsPlanned(id, payload, n, 0);
      forall i | 0 <= i < n
        ensures SplitPackets(id, payload, n)[i] == PlannedPacket(id, FragmentsOf(payload, n), i)
      {
        SplitIsPlanned(id, payload, n, i);
      }
    }
  }

  method Serialize(id: MsgId, payload: Bytes) returns (packets: seq<Packet>)
    ensures packets == PacketsOf(id, payload)
  {
    var len := |payload|;
    if len <= 1459 {
      return [Single(id, payload)];
    }
    var count := FragmentCount(len);
    var pos := 1457;
    packets := [Header(id, count, payload[..pos])];
    var overhead := 10 + LWS_PRE + MAC_LEN;
    var i := 1;
    ghost var all := SplitPackets(id, payload, count);
    assert StartOf(1) == 1457;
    hide FragmentCount, StartOf, SplitFragment;
    while i < count
      invariant 1 <= i <= |all|
      invariant overhead == (if i <= 253 then 10 else 12) + LWS_PRE + MAC_LEN
      invariant pos == if StartOf(i) < len then StartOf(i) else len
      invariant packets == all[..i]
    {
      if i == 253 {
        overhead := overhead + 2;
      }
      var size := PACKET_SIZE - overhead;
      if len - pos < size {
        size := len - pos;
      }
      NextFragment(id, payload, i, pos, PACKET_SIZE - overhead, size);
      assert all[i] == SplitFragment(id, payload, i);
      packets := packets + [Fragment(id, i, payload[pos..pos + size])];
      pos := pos + size;
      i := i + 1;
    }
    assert packets == all;
  }

  lemma NextFragment(id: MsgId, payload: Bytes, i: nat, pos: nat, room: nat, size: nat)
    requires i >= 1 && room == if i <= 252 then 1458 else 1456
    requires pos == if StartOf(i) < |payload| then StartOf(i) else |payload|
    requires size == if |payload| - pos < room then |payload| - pos else room
    ensures pos + size == if StartOf(i + 1) < |payload| then StartOf(i + 1) else |payload|
    ensures SplitFragment(id, payload, i) == Fragment(id, i, payload[pos..pos + size])
  {
    StartStep(i);
  }
}
