/**
 A stream of frames cut into reads: what one read yields, which frames fall behind or are lost, and
 exactly when all of them come out.
 */
module P2PReads {
  import opened Wrappers
  import opened Bytes
  import opened P2PPayload
  import opened P2PFraming
  import opened P2PStream

  // ----- One read -----------------------------------------------------------

  /** The offset is where a frame starts. */
  predicate IsStart(net: Net, ps: seq<Payload>, i: nat) {
    ps != [] && (i == 0 || (i >= |Wire(net, ps[0])| && IsStart(net, ps[1..], i - |Wire(net, ps[0])|)))
  }

  /** The magic word stands at frame starts and nowhere else. */
  ghost predicate Clean(net: Net, ps: seq<Payload>, data: Bytes) {
    forall i: nat :: i < |data| && Word(data, i) == net.magic ==> IsStart(net, ps, i)
  }

  /** The bytes that are kept between reads. */
  predicate Holding(spill: Spill, held: Bytes) {
    if held == [] then spill == NoSpill else spill.Spill? && spill.at <= |spill.data| && spill.data[spill.at..] == held
  }

  /**
   A read `data` after the part `part` of a frame: the two together are the frames `done` and the
   tail of what comes next.
   */
  ghost predicate Splits(net: Net, part: Bytes, data: Bytes, done: seq<Payload>, next: seq<Payload>, tail: Bytes) {
    && data != [] && AllSendable(done) && AllSendable(next)
    && IsTail(net, done + next, part) && IsTail(net, next, tail)
    && part + data == Stream(net, done) + tail
    && Clean(net, done + next, part + data)
  }

  /** The read starts less than four bytes before a frame's end and holds the whole next frame. */
  predicate Late(net: Net, have: nat, done: seq<Payload>) {
    have > 0 && |done| >= 2 && |Wire(net, done[0])| - have < 4
  }

  /**
   Of the frames `done` that a read completes, after `have` bytes of the first, those that the scan
   finds: it does not see the one that was begun, and in a late read it passes over one more.
   */
  function Found(net: Net, have: nat, done: seq<Payload>): (found: seq<Payload>)
    ensures |found| <= |done| && found == done[|done| - |found|..]
    ensures found != [] ==> (have == 0 <==> |found| == |done|)
  {
    if have == 0 then done
    else if |done| <= 1 then []
    else if Late(net, have, done) then done[2..]
    else done[1..]
  }

  /**
   With frames `lag` held back whole, what a read yields and which frames it then holds back. Only
   the first frame held is parsed again, and not at all if the read starts with a frame; where the
   scan finds frames the rest of what was held is dropped.
   */
  function Yield(net: Net, lag: seq<Payload>, have: nat, done: seq<Payload>): (seq<Payload>, seq<Payload>) {
    var all, found := lag + done, Found(net, have, done);
    if lag == [] && have == 0 then (done, [])
    else if found == [] then (if all == [] then ([], []) else ([all[0]], all[1..]))
    else if have == 0 then (done, [])
    else ([all[0]] + found, [])
  }

  lemma StartsEmpty(net: Net, ps: seq<Payload>, offset: nat)
    ensures Starts(net, ps, offset) == [] <==> ps == []
    ensures ps != [] ==> Starts(net, ps, offset)[0] == offset
  {
  }

  /** Fewer than 24 bytes hold no frame. */
  lemma ShortRead(net: Net, done: seq<Payload>, tail: Bytes)
    ensures |Stream(net, done) + tail| < 24 ==> done == []
  {
    hide Wire;
  }

  /** A read that starts with a frame: all whole frames are found. */
  lemma BoundaryScan(net: Net, data: Bytes, done: seq<Payload>, next: seq<Payload>, tail: Bytes)
    requires Splits(net, [], data, done, next, tail)
    ensures data == Stream(net, done) + tail && ProcessPacket(net, data) == Starts(net, done, 0)
  {
    hide Wire, Sendable, Scan, Stream, IsPart, Clean;
    assert [] + data == data && data[0..] == data;
    ScanStream(net, data, 0, done, next, tail);
    ShortRead(net, done, tail);
    StartsEmpty(net, done, 0);
  }

  // ----- The scan of a read that starts inside a frame ----------------------

  /** Where the frame that was begun ends in the read. */
  function EndOf(net: Net, part: Bytes, done: seq<Payload>): int
    requires done != []
  {
    |Wire(net, done[0])| - |part|
  }

  lemma DataParts(net: Net, part: Bytes, data: Bytes, done: seq<Payload>, next: seq<Payload>, tail: Bytes)
    requires Splits(net, part, data, done, next, tail) && done != [] && part != []
    ensures var e := EndOf(net, part, done);
            && 0 < e <= |data| && part + data[..e] == Wire(net, done[0])
            && data[e..] == Stream(net, done[1..]) + tail
  {
    hide Wire, Stream, Clean, AllSendable;
    StreamSplits(net, done, tail);
    var rest := Stream(net, done[1..]) + tail;
    var all, b := part + data, Wire(net, done[0]);
    assert (done + next)[0] == done[0];
    var e := |b| - |part|;
    assert all[..|b|] == b && all[|b|..] == rest;
    assert all[..|b|] == part + data[..e] && all[|b|..] == data[e..];
  }

  /** Inside the first frame there is no start; after it the next ones are at its end or behind the second. */
  lemma StartsApart(net: Net, ps: seq<Payload>, i: nat)
    requires ps != [] && IsStart(net, ps, i) && i > 0
    ensures i >= |Wire(net, ps[0])| && |ps| >= 2
    ensures i == |Wire(net, ps[0])| || i >= |Wire(net, ps[0])| + |Wire(net, ps[1])|
  {
    hide Wire;
  }

  /** A magic word in the read is a start in part and read together. */
  lemma MagicInRead(net: Net, part: Bytes, data: Bytes, ps: seq<Payload>, i: nat)
    requires Clean(net, ps, part + data) && part != [] && ps != []
    requires i < |data| && Word(data, i) == net.magic
    ensures |part| + i >= |Wire(net, ps[0])| && |ps| >= 2
    ensures |part| + i == |Wire(net, ps[0])| || |part| + i >= |Wire(net, ps[0])| + |Wire(net, ps[1])|
  {
    hide Wire, IsStart;
    var all := part + data;
    assert all[|part| + i..|part| + i + 4] == data[i..i + 4];
    assert Word(all, |part| + i) == net.magic;
    StartsApart(net, ps, |part| + i);
  }

  lemma {:induction false} SearchFinds(net: Net, data: Bytes, from: nat, to: nat)
    requires from <= to <= |data| && (forall i: nat :: from <= i < to ==> Word(data, i) != net.magic)
    requires to == |data| || Word(data, to) == net.magic
    ensures Search(net, data, from) == to
    decreases |data| - from
  {
    hide Word;
    if from < to {
      SearchFinds(net, data, from + 1, to);
    }
  }

  /** Without a magic word at its start, the scan goes on at the next one. */
  lemma ScanFromInside(net: Net, data: Bytes, to: nat)
    requires |data| >= 24 && 4 <= to <= |data| && Word(data, 0) != net.magic
    requires forall i: nat :: 4 <= i < to ==> Word(data, i) != net.magic
    requires to == |data| || Word(data, to) == net.magic
    ensures ProcessPacket(net, data) == Scan(net, data, to)
  {
    hide Word;
    SearchFinds(net, data, 4, to);
  }

  /** Nothing of a next frame is in the read: no offsets. */
  lemma NoMagicNoFrames(net: Net, data: Bytes)
    requires Word(data, 0) != net.magic && forall i: nat :: 4 <= i < |data| ==> Word(data, i) != net.magic
    ensures ProcessPacket(net, data) == []
  {
    hide Word;
    if |data| >= 24 {
      ScanFromInside(net, data, |data|);
    }
  }

  /** The scan of a read that starts and ends inside the same frame. */
  lemma NothingWhole(net: Net, part: Bytes, data: Bytes, next: seq<Payload>, tail: Bytes)
    requires Splits(net, part, data, [], next, tail) && part != []
    ensures ProcessPacket(net, data) == []
  {
    hide Word, Wire, Stream, Clean, AllSendable;
    assert [] + next == next;
    StreamSplits(net, [], tail);
    forall i: nat | i < |data| ensures Word(data, i) != net.magic {
      if Word(data, i) == net.magic {
        MagicInRead(net, part, data, next, i);
      }
    }
    WordPastEnd(data);
    NoMagicNoFrames(net, data);
  }

  lemma WordPastEnd(data: Bytes)
    ensures forall i: nat :: i + 4 > |data| ==> Word(data, i) == -1
  {
  }

  /** The scan of a read that ends inside the next frame. */
  lemma OneWhole(net: Net, part: Bytes, data: Bytes, done: seq<Payload>, next: seq<Payload>, tail: Bytes)
    requires Splits(net, part, data, done, next, tail) && part != [] && |done| == 1
    ensures ProcessPacket(net, data) == []
  {
    hide Word, Wire, Clean, Sendable, Scan;
    var ps, e := done + next, EndOf(net, part, done);
    DataParts(net, part, data, done, next, tail);
    assert done[1..] == [] && data[e..] == tail;
    assert tail != [] ==> ps[1] == next[0];
    forall i: nat | i < |data| && i != e ensures Word(data, i) != net.magic {
      if Word(data, i) == net.magic {
        MagicInRead(net, part, data, ps, i);
      }
    }
    WordPastEnd(data);
    if e >= 4 && |data| >= 24 && e + 4 <= |data| {
      PartAt(net, data, e, next[0]);
      ScanFromInside(net, data, e);
    } else if |data| >= 24 {
      NoMagicNoFrames(net, data);
    }
  }

  /** The scan of a read with the frame's end and more whole frames, not late. */
  lemma FramesBehind(net: Net, part: Bytes, data: Bytes, done: seq<Payload>, next: seq<Payload>, tail: Bytes)
    requires Splits(net, part, data, done, next, tail) && part != [] && |done| >= 2 && EndOf(net, part, done) >= 4
    ensures ProcessPacket(net, data) == Starts(net, done[1..], EndOf(net, part, done))
  {
    hide Word, Wire, Clean, Scan, Starts, Stream, Sendable;
    var ps, e := done + next, EndOf(net, part, done);
    DataParts(net, part, data, done, next, tail);
    StreamSplits(net, done[1..], tail);
    forall i: nat | i < e ensures Word(data, i) != net.magic {
      if Word(data, i) == net.magic {
        MagicInRead(net, part, data, ps, i);
      }
    }
    FirstFrame(net, data, e, done[1], Stream(net, done[1..][1..]) + tail);
    ScanFromInside(net, data, e);
    ScanStream(net, data, e, done[1..], next, tail);
  }

  /** The scan of a late read: the first whole frame is passed over. */
  lemma FramesMissed(net: Net, part: Bytes, data: Bytes, done: seq<Payload>, next: seq<Payload>, tail: Bytes)
    requires Splits(net, part, data, done, next, tail) && Late(net, |part|, done)
    ensures var s := EndOf(net, part, done) + |Wire(net, done[1])|;
            0 < s <= |data| && data[s..] == Stream(net, done[2..]) + tail
            && ProcessPacket(net, data) == Starts(net, done[2..], s)
  {
    hide Word, Wire, Clean, Scan, Starts, Stream, Sendable, IsPart;
    var ps, e := done + next, EndOf(net, part, done);
    DataParts(net, part, data, done, next, tail);
    StreamSplits(net, done[1..], tail);
    assert done[1..][1..] == done[2..];
    var s := e + |Wire(net, done[1])|;
    var rest := Stream(net, done[2..]) + tail;
    assert data[e..] == Wire(net, done[1]) + rest;
    assert data[s..] == data[e..][|Wire(net, done[1])|..] == rest;
    assert ps[1] == done[1];
    forall i: nat | i < |data| && i != e && i < s ensures Word(data, i) != net.magic {
      if Word(data, i) == net.magic {
        MagicInRead(net, part, data, ps, i);
      }
    }
    ScanStream(net, data, s, done[2..], next, tail);
    ScanPast(net, data, done, next, tail, s);
  }

  /** From the fourth byte on the scan of a late read comes to the frame behind the one it passes over. */
  lemma ScanPast(net: Net, data: Bytes, done: seq<Payload>, next: seq<Payload>, tail: Bytes, s: nat)
    requires AllSendable(done) && AllSendable(next) && IsTail(net, next, tail) && |done| >= 2
    requires 24 <= s <= |data| && data[s..] == Stream(net, done[2..]) + tail && Word(data, 0) != net.magic
    requires forall i: nat :: 4 <= i < s ==> Word(data, i) != net.magic
    ensures ProcessPacket(net, data) == Scan(net, data, s)
  {
    hide Word, Wire, Scan, Starts, Stream, Sendable, IsPart;
    StreamSplits(net, done[2..], tail);
    if |done| > 2 {
      FirstFrame(net, data, s, done[2], Stream(net, done[2..][1..]) + tail);
      ScanFromInside(net, data, s);
    } else if tail != [] {
      PartAt(net, data, s, next[0]);
      if s + 4 <= |data| {
        ScanFromInside(net, data, s);
      } else {
        WordPastEnd(data);
        NoMagicNoFrames(net, data);
      }
    } else {
      ScanFromInside(net, data, s);
    }
  }

  /** Where the frames that the scan finds begin in the read. */
  function FoundAt(net: Net, have: nat, done: seq<Payload>): int {
    |Stream(net, done[..|done| - |Found(net, have, done)|])| - have
  }

  /** The scan of any read finds the frames `Found`, and nothing else. */
  lemma ReadScan(net: Net, part: Bytes, data: Bytes, done: seq<Payload>, next: seq<Payload>, tail: Bytes)
    requires Splits(net, part, data, done, next, tail)
    ensures var found, s := Found(net, |part|, done), FoundAt(net, |part|, done);
            if found == [] then ProcessPacket(net, data) == [] else
              && 0 <= s <= |data| && (s == 0 <==> part == [])
              && part + data[..s] == Stream(net, done[..|done| - |found|]) && data[s..] == Stream(net, found) + tail
              && ProcessPacket(net, data) == Starts(net, found, s)
  {
    hide Wire, Sendable, ProcessPacket, Stream, IsPart, Clean, Starts, IsTail;
    var found, s := Found(net, |part|, done), FoundAt(net, |part|, done);
    StartsEmpty(net, found, if s < 0 then 0 else s);
    if part == [] {
      BoundaryScan(net, data, done, next, tail);
      StreamSplits(net, [], []);
      assert done[..0] == [];
    } else if done == [] {
      NothingWhole(net, part, data, next, tail);
    } else if |done| == 1 {
      OneWhole(net, part, data, done, next, tail);
    } else {
      SplitAt(net, part, data, done, next, tail);
      if Late(net, |part|, done) {
        FramesMissed(net, part, data, done, next, tail);
      } else {
        FramesBehind(net, part, data, done, next, tail);
      }
    }
  }

  /** The ends of the first two frames in a read. */
  lemma SplitAt(net: Net, part: Bytes, data: Bytes, done: seq<Payload>, next: seq<Payload>, tail: Bytes)
    requires Splits(net, part, data, done, next, tail) && part != [] && |done| >= 2
    ensures var e := EndOf(net, part, done);
            var s := e + |Wire(net, done[1])|;
            && |Stream(net, done[..1])| == |part| + e && |Stream(net, done[..2])| == |part| + s
            && 0 < e < s <= |data|
            && part + data[..e] == Stream(net, done[..1]) && data[e..] == Stream(net, done[1..]) + tail
            && part + data[..s] == Stream(net, done[..2])
  {
    hide Wire, Sendable, Stream, IsPart, Clean, Splits;
    var e := EndOf(net, part, done);
    var s := e + |Wire(net, done[1])|;
    DataParts(net, part, data, done, next, tail);
    assert done[..1] == [done[0]] && done[..2] == [done[0], done[1]];
    OneFrame(net, done[0]);
    TwoFrames(net, done[0], done[1]);
    StreamSplits(net, done[1..], tail);
    assert data[e..s] == data[e..][..s - e] == Wire(net, done[1]);
    assert data[..s] == data[..e] + data[e..s];
  }

  lemma OneFrame(net: Net, p: Payload)
    ensures Stream(net, [p]) == Wire(net, p)
  {
    hide Wire;
    assert [p][1..] == [];
  }

  lemma TwoFrames(net: Net, p: Payload, q: Payload)
    ensures Stream(net, [p, q]) == Wire(net, p) + Wire(net, q)
  {
    hide Wire;
    assert [p, q][1..] == [q];
    OneFrame(net, q);
  }

  lemma {:induction false} StreamAppends(net: Net, a: seq<Payload>, b: seq<Payload>)
    ensures Stream(net, a + b) == Stream(net, a) + Stream(net, b)
    decreases |a|
  {
    hide Wire;
    if a == [] {
      assert a + b == b;
    } else {
      StreamAppends(net, a[1..], b);
      assert (a + b)[1..] == a[1..] + b;
    }
  }

  // ----- What a read yields -------------------------------------------------

  /** The first frame held, parsed with what the read adds to it. */
  lemma PatchedFrame(net: Net, spill: Spill, held: Bytes, more: Bytes, p: Payload, rest: Bytes)
    requires held != [] && Holding(spill, held) && Sendable(p) && held + more == Wire(net, p) + rest
    ensures var whole := spill.data + more;
            && ParseFrom(whole, [spill.at], 0) == Some(([p], spill.at + |Wire(net, p)|))
            && spill.at + |Wire(net, p)| <= |whole| && whole[spill.at + |Wire(net, p)|..] == rest
  {
    hide Wire, Word, PayloadAt, Look, Sendable, ParseFrom;
    var whole := spill.data + more;
    assert whole[spill.at..] == spill.data[spill.at..] + more;
    FirstFrame(net, whole, spill.at, p, rest);
    var end := spill.at + |Wire(net, p)|;
    ParseGoesOn(whole, [spill.at], 0, p);
    assert [spill.at][1..] == [] && [p] + [] == [p];
    ParseStep(whole, [], end);
  }

  lemma PatchedPart(net: Net, spill: Spill, part: Bytes, more: Bytes, p: Payload)
    requires part != [] && Holding(spill, part) && Sendable(p) && IsPart(net, p, part + more)
    ensures var whole := spill.data + more;
            ParseFrom(whole, [spill.at], 0) == Some(([], spill.at)) && Holding(Leftover(whole, spill.at), part + more)
  {
    hide Wire, Word, PayloadAt, Look, Sendable, ParseFrom, Scan, IsPart;
    var whole := spill.data + more;
    assert whole[spill.at..] == spill.data[spill.at..] + more == part + more;
    PartAt(net, whole, spill.at, p);
    ParseStep(whole, [spill.at], 0);
    LeftoverHolds(whole, spill.at, part + more);
  }

  lemma LeftoverHolds(data: Bytes, at: nat, tail: Bytes)
    requires at <= |data| && data[at..] == tail
    ensures Holding(Leftover(data, at), tail)
  {
  }

  /** The spill is left alone: a read that starts with a frame. */
  lemma BoundaryRead(net: Net, spill: Spill, data: Bytes, done: seq<Payload>, next: seq<Payload>, tail: Bytes)
    requires Splits(net, [], data, done, next, tail) && (spill == NoSpill || done != [])
    ensures var r := Deserialize(net, data, spill);
            r.Some? && r.value.0 == done && Holding(r.value.1, tail)
  {
    hide Wire, Sendable, ProcessPacket, ParseFrom, Stream, Starts, Splits;
    BoundaryScan(net, data, done, next, tail);
    StartsEmpty(net, done, 0);
    assert data[0..] == data && AllSendable(done) by { SplitsSends(net, [], data, done, next, tail); }
    ParseStream(net, data, 0, done, tail, 0);
    StreamSplits(net, done, tail);
    var end := if done == [] then 0 else |Stream(net, done)|;
    assert data[end..] == tail;
    LeftoverHolds(data, end, tail);
  }

  lemma SplitsSends(net: Net, part: Bytes, data: Bytes, done: seq<Payload>, next: seq<Payload>, tail: Bytes)
    requires Splits(net, part, data, done, next, tail)
    ensures data != [] && AllSendable(done) && AllSendable(next) && part + data == Stream(net, done) + tail
    ensures done == [] && part != [] ==> next != [] && tail == part + data && IsPart(net, next[0], tail)
  {
    hide Sendable, IsPart, Clean;
    StreamSplits(net, [], tail);
  }

  /** Without frames in the read, all of it goes to what is held. */
  lemma QuietDeserialize(net: Net, spill: Spill, data: Bytes, first: seq<Payload>, used: nat)
    requires data != [] && spill.Spill? && ProcessPacket(net, data) == []
    requires ParseFrom(spill.data + data, [spill.at], 0) == Some((first, used))
    ensures Deserialize(net, data, spill) == Some((first, Leftover(spill.data + data, used)))
  {
    hide ProcessPacket, ParseFrom;
    assert data[..|data|] == data;
    ParseStep(data, [], used + |data|);
  }

  lemma HeldAndRead(net: Net, lag: seq<Payload>, part: Bytes, data: Bytes, done: seq<Payload>, tail: Bytes)
    requires part + data == Stream(net, done) + tail
    ensures Stream(net, lag) + part + data == Stream(net, lag + done) + tail
  {
    hide Stream;
    StreamAppends(net, lag, done);
    assert Stream(net, lag) + part + data == Stream(net, lag) + (part + data);
  }

  /** The scan finds nothing: the first frame held comes out, if it is whole now. */
  lemma QuietRead(net: Net, spill: Spill, lag: seq<Payload>, part: Bytes, data: Bytes, done: seq<Payload>,
                  next: seq<Payload>, tail: Bytes)
    requires Splits(net, part, data, done, next, tail) && AllSendable(lag) && (lag != [] || part != [])
    requires Holding(spill, Stream(net, lag) + part) && Found(net, |part|, done) == []
    ensures var all := lag + done;
            var r := Deserialize(net, data, spill);
            && r.Some? && r.value.0 == (if all == [] then [] else [all[0]])
            && Holding(r.value.1, Stream(net, if all == [] then [] else all[1..]) + tail)
  {
    hide Wire, Sendable, ProcessPacket, ParseFrom, Stream, Splits, Found, Deserialize, Leftover, IsPart;
    ReadScan(net, part, data, done, next, tail);
    SplitsSends(net, part, data, done, next, tail);
    var all, held := lag + done, Stream(net, lag) + part;
    StreamSplits(net, lag, part);
    HeldAndRead(net, lag, part, data, done, tail);
    StreamSplits(net, all, tail);
    if all == [] {
      PatchedPart(net, spill, part, data, next[0]);
      QuietDeserialize(net, spill, data, [], spill.at);
    } else {
      var rest, used := Stream(net, all[1..]) + tail, spill.at + |Wire(net, all[0])|;
      PatchedFrame(net, spill, held, data, all[0], rest);
      QuietDeserialize(net, spill, data, [all[0]], used);
      LeftoverHolds(spill.data + data, used, rest);
    }
  }

  /** With frames in the read, what stands before the first goes to what is held, and the rest of that is dropped. */
  lemma FoundDeserialize(net: Net, spill: Spill, data: Bytes, s: nat, first: seq<Payload>, used: nat,
                         payloads: seq<Payload>, end: nat)
    requires spill.Spill? && 0 < s <= |data| && (payloads == [] ==> end < |data|)
    requires var offsets := ProcessPacket(net, data);
             offsets != [] && offsets[0] == s && ParseFrom(data, offsets, used + s) == Some((payloads, end))
    requires ParseFrom(spill.data + data[..s], [spill.at], 0) == Some((first, used))
    ensures Deserialize(net, data, spill) == Some((first + payloads, Leftover(data, end)))
  {
    hide ProcessPacket, ParseFrom;
  }

  /** The scan finds frames behind the one that was begun: one held frame comes out, and the frames found. */
  lemma FramesRead(net: Net, spill: Spill, lag: seq<Payload>, part: Bytes, data: Bytes, done: seq<Payload>,
                   next: seq<Payload>, tail: Bytes)
    requires Splits(net, part, data, done, next, tail) && AllSendable(lag) && part != []
    requires Holding(spill, Stream(net, lag) + part) && Found(net, |part|, done) != []
    ensures var found := Found(net, |part|, done);
            var r := Deserialize(net, data, spill);
            r.Some? && r.value.0 == [(lag + done)[0]] + found && Holding(r.value.1, tail)
  {
    hide Wire, Sendable, ProcessPacket, ParseFrom, Stream, Splits, Starts, Found, Deserialize, Leftover, IsPart;
    var found, s := Found(net, |part|, done), FoundAt(net, |part|, done);
    ReadScan(net, part, data, done, next, tail);
    SplitsSends(net, part, data, done, next, tail);
    StartsEmpty(net, found, s);
    var begun, held := done[..|done| - |found|], Stream(net, lag) + part;
    var all := lag + begun;
    HeldAndBegun(net, lag, part, data[..s], begun);
    StreamSplits(net, all, []);
    assert all[0] == (lag + done)[0];
    PatchedFrame(net, spill, held, data[..s], all[0], Stream(net, all[1..]) + []);
    var used, end := spill.at + |Wire(net, all[0])|, s + |Stream(net, found)|;
    ParseStream(net, data, s, found, tail, used + s);
    FoundDeserialize(net, spill, data, s, [all[0]], used, found, end);
    assert data[end..] == data[s..][|Stream(net, found)|..] == tail;
    LeftoverHolds(data, end, tail);
  }

  lemma HeldAndBegun(net: Net, lag: seq<Payload>, part: Bytes, more: Bytes, begun: seq<Payload>)
    requires part + more == Stream(net, begun)
    ensures Stream(net, lag) + part + more == Stream(net, lag + begun) + []
  {
    hide Stream;
    StreamAppends(net, lag, begun);
    assert Stream(net, lag) + part + more == Stream(net, lag) + (part + more);
  }

  /**
   Every read: with the frames `lag` held back and part of one more, what comes out and what is held
   after is given by `Yield`.
   */
  lemma ReadYields(net: Net, spill: Spill, lag: seq<Payload>, part: Bytes, data: Bytes, done: seq<Payload>,
                   next: seq<Payload>, tail: Bytes)
    requires Splits(net, part, data, done, next, tail) && AllSendable(lag)
    requires Holding(spill, Stream(net, lag) + part)
    ensures var (out, behind) := Yield(net, lag, |part|, done);
            var r := Deserialize(net, data, spill);
            r.Some? && r.value.0 == out && Holding(r.value.1, Stream(net, behind) + tail)
  {
    hide Wire, Sendable, Deserialize, Splits, Stream, Found;
    assert Stream(net, []) + tail == tail by { StreamSplits(net, [], tail); }
    if lag == [] && part == [] {
      assert Stream(net, []) + part == part by { StreamSplits(net, [], part); }
      BoundaryRead(net, spill, data, done, next, tail);
    } else if Found(net, |part|, done) == [] {
      QuietRead(net, spill, lag, part, data, done, next, tail);
    } else if part == [] {
      FoundAtBoundary(net, done);
      BoundaryRead(net, spill, data, done, next, tail);
    } else {
      FramesRead(net, spill, lag, part, data, done, next, tail);
    }
  }

  lemma FoundAtBoundary(net: Net, done: seq<Payload>)
    ensures Found(net, 0, done) == done
  {
  }

  /** A read loses no frame: the scan finds none, or no frame is held back and it passes over none. */
  predicate KeepsUp(net: Net, lag: nat, have: nat, done: seq<Payload>) {
    Found(net, have, done) == [] || (lag == 0 && !Late(net, have, done))
  }

  /** What comes out and what is held back are all the frames, in order, exactly if the read keeps up. */
  lemma YieldLoses(net: Net, lag: seq<Payload>, have: nat, done: seq<Payload>)
    ensures var (out, behind) := Yield(net, lag, have, done);
            if KeepsUp(net, |lag|, have, done) then out + behind == lag + done
            else |out| + |behind| < |lag| + |done|
  {
    hide Wire;
    var all, found := lag + done, Found(net, have, done);
    if all != [] {
      assert all == [all[0]] + all[1..];
    }
    if lag == [] {
      assert all == done;
    }
  }

  /**
   With nothing held back, a read yields exactly the frames it completes, and keeps the rest of what
   it holds, if and only if it is not late. A late read holds back the frame it passes over, if that
   is the last one it completes, and else drops it.
   */
  lemma ReadIsFaithfulUnlessLate(net: Net, spill: Spill, part: Bytes, data: Bytes, done: seq<Payload>,
                                 next: seq<Payload>, tail: Bytes)
    requires Splits(net, part, data, done, next, tail) && Holding(spill, part)
    ensures Deserialize(net, data, spill).Some?
    ensures var (ps, left) := Deserialize(net, data, spill).value;
            && (ps == done && Holding(left, tail) <==> !Late(net, |part|, done))
            && (Late(net, |part|, done) && |done| == 2 ==> ps == [done[0]] && Holding(left, Wire(net, done[1]) + tail))
            && (Late(net, |part|, done) && |done| > 2 ==> ps == [done[0]] + done[2..] && Holding(left, tail))
  {
    hide Wire, Sendable, Deserialize, Splits, IsPart, Stream, Holding;
    assert Stream(net, []) + part == part by { StreamSplits(net, [], part); }
    assert Stream(net, []) + tail == tail by { StreamSplits(net, [], tail); }
    ReadYields(net, spill, [], part, data, done, next, tail);
    assert [] + done == done;
    if Late(net, |part|, done) {
      assert |[done[0]] + done[2..]| != |done|;
      if |done| == 2 {
        assert done[1..] == [done[1]];
        OneFrame(net, done[1]);
      }
    } else if part != [] && done != [] {
      assert done == [done[0]] + done[1..];
    }
  }
}
