/** A stream of frames, however it is cut into reads: when every frame comes out, and when at once. */
module P2PCuts {
  import opened Wrappers
  import opened Bytes
  import opened P2PPayload
  import opened P2PFraming
  import opened P2PStream
  import opened P2PReads

  function Glue(chunks: seq<Bytes>): Bytes { if chunks == [] then [] else chunks[0] + Glue(chunks[1..]) }

  /** No read is empty. */
  predicate NonEmpty(chunks: seq<Bytes>) { forall i :: 0 <= i < |chunks| ==> chunks[i] != [] }

  // ----- Counting bytes -----------------------------------------------------

  /** How many frames the first n bytes hold whole. */
  function Whole(net: Net, ps: seq<Payload>, n: nat): (m: nat)
    ensures m <= |ps|
  {
    if ps == [] || n < |Wire(net, ps[0])| then 0 else 1 + Whole(net, ps[1..], n - |Wire(net, ps[0])|)
  }

  /** How many of the first n bytes come after those frames. */
  function Rest(net: Net, ps: seq<Payload>, n: nat): nat {
    if ps == [] || n < |Wire(net, ps[0])| then n else Rest(net, ps[1..], n - |Wire(net, ps[0])|)
  }

  lemma {:induction false} WholeFits(net: Net, ps: seq<Payload>, n: nat)
    ensures var m := Whole(net, ps, n);
            && n == |Stream(net, ps[..m])| + Rest(net, ps, n)
            && (m < |ps| ==> Rest(net, ps, n) < |Wire(net, ps[m])|)
            && |Stream(net, ps)| == |Stream(net, ps[..m])| + |Stream(net, ps[m..])|
    decreases |ps|
  {
    hide Wire;
    var m := Whole(net, ps, n);
    assert ps == ps[..m] + ps[m..];
    StreamAppends(net, ps[..m], ps[m..]);
    if m > 0 {
      WholeFits(net, ps[1..], n - |Wire(net, ps[0])|);
      assert ps[..m][1..] == ps[1..][..m - 1];
    }
  }

  /** A read of the stream splits into whole frames and a tail. */
  lemma ReadSplits(net: Net, ps: seq<Payload>, part: Bytes, data: Bytes, rest: Bytes)
    requires AllSendable(ps) && IsTail(net, ps, part) && data != []
    requires Stream(net, ps) == part + data + rest && Clean(net, ps, Stream(net, ps))
    ensures var n := |part| + |data|;
            var m := Whole(net, ps, n);
            var done, next, d := ps[..m], ps[m..], n - Rest(net, ps, n);
            && AllSendable(done) && AllSendable(next) && 0 <= d <= n
            && var tail := (part + data)[d..];
               && |tail| == Rest(net, ps, n)
               && Splits(net, part, data, done, next, tail) && IsTail(net, next, tail)
               && Stream(net, next) == tail + rest && (next != [] ==> Clean(net, next, Stream(net, next)))
  {
    hide Wire, Stream, IsStart, Word, Whole, Rest, Sendable, IsPart;
    var all, n := Stream(net, ps), |part| + |data|;
    WholeFits(net, ps, n);
    var m := Whole(net, ps, n);
    var done, next, d := ps[..m], ps[m..], n - Rest(net, ps, n);
    assert ps == done + next;
    StreamAppends(net, done, next);
    var tail := (part + data)[d..];
    assert all[..n] == part + data && all[d..] == Stream(net, next);
    assert all[d..] == tail + rest;
    assert part + data == Stream(net, done) + tail;
    CleanParts(net, done, next, part + data);
    StreamSplits(net, next, []);
    if next != [] {
      TailIsPart(net, next, tail, rest);
    }
  }

  lemma TailIsPart(net: Net, next: seq<Payload>, tail: Bytes, rest: Bytes)
    requires next != [] && Stream(net, next) == tail + rest && |tail| < |Wire(net, next[0])|
    ensures IsTail(net, next, tail)
  {
    hide Wire;
    var b := Wire(net, next[0]);
    assert Stream(net, next)[..|b|] == b;
    assert tail == (tail + rest)[..|tail|] == b[..|tail|];
  }

  lemma {:induction false} StartShifts(net: Net, a: seq<Payload>, b: seq<Payload>, i: nat)
    requires IsStart(net, a + b, |Stream(net, a)| + i) && b != []
    ensures IsStart(net, b, i)
    decreases |a|
  {
    hide Wire;
    if a == [] {
      assert a + b == b;
    } else {
      assert (a + b)[1..] == a[1..] + b;
      StartShifts(net, a[1..], b, i);
    }
  }

  lemma WordInside(data: Bytes, from: nat, part: Bytes, i: nat)
    requires from + |part| <= |data| && data[from..from + |part|] == part && i + 4 <= |part|
    ensures Word(part, i) == Word(data, from + i)
  {
    SliceOf(data, from, |part|, i, i + 4);
  }

  /** A suffix of a clean stream is clean, and so is a prefix. */
  lemma CleanParts(net: Net, done: seq<Payload>, next: seq<Payload>, head: Bytes)
    requires Clean(net, done + next, Stream(net, done + next)) && head <= Stream(net, done + next)
    ensures Clean(net, done + next, head)
    ensures next != [] ==> Clean(net, next, Stream(net, next))
  {
    hide Wire, Stream, IsStart, Word;
    var all, n := Stream(net, done + next), |Stream(net, done)|;
    StreamAppends(net, done, next);
    forall i: nat | i < |head| && Word(head, i) == net.magic ensures IsStart(net, done + next, i) {
      WordPastEnd(head);
      WordInside(all, 0, head, i);
    }
    if next != [] {
      var b := Stream(net, next);
      assert all[n..n + |b|] == b;
      forall i: nat | i < |b| && Word(b, i) == net.magic ensures IsStart(net, next, i) {
        WordPastEnd(b);
        WordInside(all, n, b, i);
        StartShifts(net, done, next, i);
      }
    }
  }

  // ----- What comes out of a list of reads ----------------------------------

  /**
   From `have` bytes of the first of the frames `ps` on, with the frames `lag` held back: the frames
   that come out and those held back at the end, read by read.
   */
  function Deliver(net: Net, lag: seq<Payload>, ps: seq<Payload>, have: nat, chunks: seq<Bytes>):
    (seq<Payload>, seq<Payload>)
    decreases |chunks|
  {
    if chunks == [] then ([], lag) else
    var n := have + |chunks[0]|;
    var m := Whole(net, ps, n);
    var (out, behind) := Yield(net, lag, have, ps[..m]);
    var (more, end) := Deliver(net, behind, ps[m..], Rest(net, ps, n), chunks[1..]);
    (out + more, end)
  }

  lemma YieldSends(net: Net, lag: seq<Payload>, have: nat, done: seq<Payload>)
    requires AllSendable(lag) && AllSendable(done)
    ensures AllSendable(Yield(net, lag, have, done).1)
  {
    hide Wire, Sendable;
  }

  /** Feeding the reads of a clean stream does what `Deliver` says. */
  lemma {:induction false} FeedDelivers(net: Net, lag: seq<Payload>, ps: seq<Payload>, part: Bytes, spill: Spill,
                                        chunks: seq<Bytes>, future: Bytes)
    requires AllSendable(lag) && AllSendable(ps) && IsTail(net, ps, part) && Holding(spill, Stream(net, lag) + part)
    requires Stream(net, ps) == part + Glue(chunks) + future && (ps != [] ==> Clean(net, ps, Stream(net, ps)))
    requires NonEmpty(chunks)
    ensures var (out, behind) := Deliver(net, lag, ps, |part|, chunks);
            var (got, left) := Feed(net, chunks, spill);
            got == out && left.Some? && (future == [] ==> Holding(left.value, Stream(net, behind)))
    decreases |chunks|
  {
    hide Wire, Stream, Clean, Sendable, Deserialize, Whole, Rest, IsPart, Splits, Yield, Holding;
    if chunks == [] {
      assert part + [] + future == part + future;
      if future == [] {
        EndOfStream(net, ps, part);
        assert Stream(net, lag) + [] == Stream(net, lag);
      }
    } else {
      var data, rest := chunks[0], chunks[1..];
      var n := |part| + |data|;
      var m := Whole(net, ps, n);
      assert part + (data + Glue(rest)) + future == part + data + (Glue(rest) + future);
      NotAtEnd(net, ps, part, data, Glue(rest) + future);
      ReadSplits(net, ps, part, data, Glue(rest) + future);
      var done, next, tail := ps[..m], ps[m..], (part + data)[n - Rest(net, ps, n)..];
      ReadYields(net, spill, lag, part, data, done, next, tail);
      YieldSends(net, lag, |part|, done);
      var (ps1, left) := Deserialize(net, data, spill).value;
      assert tail + Glue(rest) + future == tail + (Glue(rest) + future);
      FeedDelivers(net, Yield(net, lag, |part|, done).1, next, tail, left, rest, future);
    }
  }

  lemma EndOfStream(net: Net, ps: seq<Payload>, part: Bytes)
    requires IsTail(net, ps, part) && Stream(net, ps) == part
    ensures ps == [] && part == []
  {
    hide Wire;
    StreamSplits(net, ps, []);
  }

  lemma NotAtEnd(net: Net, ps: seq<Payload>, part: Bytes, data: Bytes, rest: Bytes)
    requires data != [] && Stream(net, ps) == part + data + rest
    ensures ps != []
  {
    hide Wire;
  }

  // ----- When nothing is lost -----------------------------------------------

  /** How many frames are held back after a read. */
  function Behind(net: Net, lag: nat, have: nat, done: seq<Payload>): nat {
    if Found(net, have, done) != [] || lag + |done| == 0 then 0 else lag + |done| - 1
  }

  lemma BehindCounts(net: Net, lag: seq<Payload>, have: nat, done: seq<Payload>)
    ensures |Yield(net, lag, have, done).1| == Behind(net, |lag|, have, done)
  {
    hide Wire;
  }

  /** By the sizes of frames and reads alone: every read keeps up, and at the end none is held back. */
  predicate NoneLost(net: Net, lag: nat, ps: seq<Payload>, have: nat, chunks: seq<Bytes>)
    decreases |chunks|
  {
    if chunks == [] then lag == 0 else
    var n := have + |chunks[0]|;
    var m := Whole(net, ps, n);
    && KeepsUp(net, lag, have, ps[..m])
    && NoneLost(net, Behind(net, lag, have, ps[..m]), ps[m..], Rest(net, ps, n), chunks[1..])
  }

  lemma {:induction false} DeliverLoses(net: Net, lag: seq<Payload>, ps: seq<Payload>, have: nat, chunks: seq<Bytes>)
    requires have + |Glue(chunks)| == |Stream(net, ps)| && (ps != [] ==> have < |Wire(net, ps[0])|)
    ensures if NoneLost(net, |lag|, ps, have, chunks) then Deliver(net, lag, ps, have, chunks) == (lag + ps, [])
            else |Deliver(net, lag, ps, have, chunks).0| < |lag| + |ps|
    decreases |chunks|
  {
    hide Wire, Stream, Whole, Rest, Yield, KeepsUp, Behind;
    StreamSplits(net, ps, []);
    if chunks != [] {
      var n := have + |chunks[0]|;
      var m := Whole(net, ps, n);
      var done, next := ps[..m], ps[m..];
      var (out, behind) := Yield(net, lag, have, done);
      WholeFits(net, ps, n);
      YieldLoses(net, lag, have, done);
      BehindCounts(net, lag, have, done);
      DeliverLoses(net, behind, next, Rest(net, ps, n), chunks[1..]);
      assert lag + ps == (lag + done) + next;
      assert out + (behind + next) == (out + behind) + next;
    }
  }

  /**
   A clean stream, cut into reads that are not empty, yields its payloads in order, all of them and
   nothing left over, if and only if no read finds a frame while others are held back or passes one
   over on the way, and none is held back at the end. No read ever throws.
   */
  lemma EveryCutYieldsTheSame(net: Net, ps: seq<Payload>, chunks: seq<Bytes>)
    requires AllSendable(ps) && Clean(net, ps, Stream(net, ps))
    requires Glue(chunks) == Stream(net, ps) && NonEmpty(chunks)
    ensures Feed(net, chunks, NoSpill).1.Some?
    ensures Feed(net, chunks, NoSpill).0 == ps <==> NoneLost(net, 0, ps, 0, chunks)
    ensures Feed(net, chunks, NoSpill).0 == ps ==> Feed(net, chunks, NoSpill).1 == Some(NoSpill)
  {
    hide Wire, Stream, Clean, Sendable, Feed, NoneLost, Deliver;
    assert [] + Glue(chunks) + [] == Glue(chunks) && [] + ps == ps;
    assert Stream(net, []) + [] == [] && Stream(net, []) == [] by { StreamSplits(net, [], []); }
    FeedDelivers(net, [], ps, [], NoSpill, chunks, []);
    DeliverLoses(net, [], ps, 0, chunks);
  }

  // ----- When nothing is late -----------------------------------------------

  predicate NeverLate(net: Net, ps: seq<Payload>, have: nat, chunks: seq<Bytes>)
    decreases |chunks|
  {
    chunks != [] ==>
      var n := have + |chunks[0]|;
      var m := Whole(net, ps, n);
      !Late(net, have, ps[..m]) && NeverLate(net, ps[m..], Rest(net, ps, n), chunks[1..])
  }

  lemma YieldPrompt(net: Net, have: nat, done: seq<Payload>)
    ensures !Late(net, have, done) ==> Yield(net, [], have, done) == (done, [])
    ensures Late(net, have, done) ==> |Yield(net, [], have, done).0| < |done|
  {
    hide Wire;
    assert [] + done == done;
    if |done| == 1 {
      assert done[1..] == [] && done == [done[0]];
    } else if done != [] {
      assert done == [done[0]] + done[1..];
    }
  }

  /** After every number of reads, exactly the frames read whole have come out. */
  ghost predicate Prompt(net: Net, ps: seq<Payload>, have: nat, chunks: seq<Bytes>) {
    forall k: nat {:trigger chunks[..k]} :: k <= |chunks| ==>
      Deliver(net, [], ps, have, chunks[..k]).0 == ps[..Whole(net, ps, have + |Glue(chunks[..k])|)]
  }

  lemma {:induction false} WholeAdds(net: Net, ps: seq<Payload>, n: nat, k: nat)
    ensures var m := Whole(net, ps, n);
            Whole(net, ps, n + k) == m + Whole(net, ps[m..], Rest(net, ps, n) + k)
    decreases |ps|
  {
    hide Wire;
    var m := Whole(net, ps, n);
    if m > 0 {
      WholeAdds(net, ps[1..], n - |Wire(net, ps[0])|, k);
      assert ps[1..][m - 1..] == ps[m..];
    } else {
      assert ps[0..] == ps;
    }
  }

  /** The frames of a list of reads after the first one. */
  lemma PromptStep(net: Net, ps: seq<Payload>, have: nat, chunks: seq<Bytes>, k: nat)
    requires chunks != [] && 0 < k <= |chunks|
    ensures var n := have + |chunks[0]|;
            var m := Whole(net, ps, n);
            var (out, behind) := Yield(net, [], have, ps[..m]);
            var rest, left := chunks[1..][..k - 1], Rest(net, ps, n);
            var whole := Whole(net, ps[m..], left + |Glue(rest)|);
            && Deliver(net, [], ps, have, chunks[..k]).0 == out + Deliver(net, behind, ps[m..], left, rest).0
            && ps[..Whole(net, ps, have + |Glue(chunks[..k])|)] == ps[..m] + ps[m..][..whole]
  {
    hide Wire, Whole, Rest, Yield;
    var n := have + |chunks[0]|;
    assert chunks[..k][1..] == chunks[1..][..k - 1];
    WholeAdds(net, ps, n, |Glue(chunks[1..][..k - 1])|);
  }

  lemma {:induction false} PromptIffNeverLate(net: Net, ps: seq<Payload>, have: nat, chunks: seq<Bytes>)
    requires ps != [] ==> have < |Wire(net, ps[0])|
    ensures Prompt(net, ps, have, chunks) <==> NeverLate(net, ps, have, chunks)
    decreases |chunks|
  {
    hide Wire, Rest, Yield, Late, Deliver;
    assert chunks[..0] == [];
    assert Deliver(net, [], ps, have, []).0 == [] && Whole(net, ps, have) == 0 by { NoReads(net, ps, have); }
    if chunks != [] {
      var n := have + |chunks[0]|;
      var m := Whole(net, ps, n);
      WholeFits(net, ps, n);
      PromptIffNeverLate(net, ps[m..], Rest(net, ps, n), chunks[1..]);
      YieldPrompt(net, have, ps[..m]);
      if Late(net, have, ps[..m]) {
        PromptStep(net, ps, have, chunks, 1);
        FirstReadLate(net, ps, have, chunks);
      } else {
        PromptRest(net, ps, have, chunks);
      }
    }
  }

  lemma NoReads(net: Net, ps: seq<Payload>, have: nat)
    requires ps != [] ==> have < |Wire(net, ps[0])|
    ensures Deliver(net, [], ps, have, []).0 == [] && Whole(net, ps, have) == 0
  {
  }

  lemma FirstReadLate(net: Net, ps: seq<Payload>, have: nat, chunks: seq<Bytes>)
    requires chunks != [] && Late(net, have, ps[..Whole(net, ps, have + |chunks[0]|)])
    ensures !Prompt(net, ps, have, chunks)
  {
    hide Wire, Rest, Yield, Late, Whole;
    var n := have + |chunks[0]|;
    var m := Whole(net, ps, n);
    PromptStep(net, ps, have, chunks, 1);
    YieldPrompt(net, have, ps[..m]);
    var one := chunks[..1];
    assert one[1..] == [] && Glue(one) == one[0] + [] == chunks[0];
    assert Deliver(net, [], ps, have, one).0 == Yield(net, [], have, ps[..m]).0 + [];
  }

  lemma PromptRest(net: Net, ps: seq<Payload>, have: nat, chunks: seq<Bytes>)
    requires chunks != [] && !Late(net, have, ps[..Whole(net, ps, have + |chunks[0]|)])
    requires ps != [] ==> have < |Wire(net, ps[0])|
    ensures var n := have + |chunks[0]|;
            var m := Whole(net, ps, n);
            Prompt(net, ps, have, chunks) <==> Prompt(net, ps[m..], Rest(net, ps, n), chunks[1..])
  {
    hide Wire, Rest, Yield, Late, Whole, Deliver, Glue;
    var n := have + |chunks[0]|;
    var m := Whole(net, ps, n);
    var next, left, rest := ps[m..], Rest(net, ps, n), chunks[1..];
    YieldPrompt(net, have, ps[..m]);
    forall k: nat | 0 < k <= |chunks|
      ensures Deliver(net, [], ps, have, chunks[..k]).0 == ps[..Whole(net, ps, have + |Glue(chunks[..k])|)] <==>
              Deliver(net, [], next, left, rest[..k - 1]).0 == next[..Whole(net, next, left + |Glue(rest[..k - 1])|)]
    {
      PromptStep(net, ps, have, chunks, k);
      Cancel(ps[..m], Deliver(net, [], next, left, rest[..k - 1]).0,
             next[..Whole(net, next, left + |Glue(rest[..k - 1])|)]);
    }
    if Prompt(net, ps, have, chunks) {
      forall k: nat | k <= |rest|
        ensures Deliver(net, [], next, left, rest[..k]).0 == next[..Whole(net, next, left + |Glue(rest[..k])|)]
      {
        var up := k + 1;
        assert chunks[..up] == chunks[..up];
      }
    }
    if Prompt(net, next, left, rest) {
      forall k: nat | k <= |chunks|
        ensures Deliver(net, [], ps, have, chunks[..k]).0 == ps[..Whole(net, ps, have + |Glue(chunks[..k])|)]
      {
        if k == 0 {
          assert chunks[..0] == [];
          NoReads(net, ps, have);
          GlueNothing();
        } else {
          assert rest[..k - 1] == rest[..k - 1];
        }
      }
    }
  }

  lemma GlueNothing()
    ensures Glue([]) == []
  {
  }

  lemma Cancel(a: seq<Payload>, b: seq<Payload>, c: seq<Payload>)
    ensures a + b == a + c <==> b == c
  {
    if a + b == a + c {
      assert b == (a + b)[|a|..] == (a + c)[|a|..] == c;
    }
  }

  /**
   After every number of reads exactly the frames read whole so far have come out, if and only if no
   read is late.
   */
  lemma CutsArePromptUnlessLate(net: Net, ps: seq<Payload>, chunks: seq<Bytes>)
    requires AllSendable(ps) && Clean(net, ps, Stream(net, ps))
    requires Glue(chunks) == Stream(net, ps) && NonEmpty(chunks)
    ensures (forall k: nat {:trigger chunks[..k]} :: k <= |chunks| ==>
               Feed(net, chunks[..k], NoSpill).0 == ps[..Whole(net, ps, |Glue(chunks[..k])|)])
            <==> NeverLate(net, ps, 0, chunks)
  {
    hide Wire, Stream, Clean, Sendable, Feed, Deliver, NeverLate, Whole;
    PromptIffNeverLate(net, ps, 0, chunks);
    assert Stream(net, []) + [] == [] by { StreamSplits(net, [], []); }
    forall k: nat | k <= |chunks|
      ensures Feed(net, chunks[..k], NoSpill).0 == Deliver(net, [], ps, 0, chunks[..k]).0
    {
      var future := Glue(chunks[k..]);
      GlueSplits(chunks, k);
      assert [] + Glue(chunks[..k]) + future == Glue(chunks);
      FeedDelivers(net, [], ps, [], NoSpill, chunks[..k], future);
    }
  }

  lemma {:induction false} GlueSplits(chunks: seq<Bytes>, k: nat)
    requires k <= |chunks|
    ensures Glue(chunks) == Glue(chunks[..k]) + Glue(chunks[k..])
  {
    if k == 0 {
      assert chunks[0..] == chunks;
    } else {
      GlueSplits(chunks[1..], k - 1);
      assert chunks[..k][1..] == chunks[1..][..k - 1] && chunks[1..][k - 1..] == chunks[k..];
    }
  }

  // ----- A frame that never comes out ---------------------------------------

  /** Three frames, cut three bytes before the end of the first and at the end of the second. */
  function ThreeReads(net: Net, p: Payload, q: Payload, r: Payload): seq<Bytes> {
    var all, cut, end := Stream(net, [p, q, r]), |Wire(net, p)| - 3, |Wire(net, p)| + |Wire(net, q)|;
    ThreeFrames(net, p, q, r);
    [all[..cut], all[cut..end], all[end..]]
  }

  lemma ThreeFrames(net: Net, p: Payload, q: Payload, r: Payload)
    ensures Stream(net, [p, q, r]) == Wire(net, p) + Wire(net, q) + Wire(net, r)
  {
    hide Wire;
    assert [p, q, r] == [p, q] + [r];
    StreamAppends(net, [p, q], [r]);
    TwoFrames(net, p, q);
    OneFrame(net, r);
  }

  /** The second of the three frames is dropped. */
  lemma CutBeforeTheEndDropsAFrame(net: Net, p: Payload, q: Payload, r: Payload)
    requires AllSendable([p, q, r]) && Clean(net, [p, q, r], Stream(net, [p, q, r]))
    ensures Glue(ThreeReads(net, p, q, r)) == Stream(net, [p, q, r])
    ensures Feed(net, ThreeReads(net, p, q, r), NoSpill) == ([p, r], Some(NoSpill))
  {
    hide Wire, Stream, Clean, Sendable, Feed, Deliver;
    var ps, chunks := [p, q, r], ThreeReads(net, p, q, r);
    ThreeFrames(net, p, q, r);
    GlueThree(chunks[0], chunks[1], chunks[2]);
    assert [] + Glue(chunks) + [] == Stream(net, ps);
    assert Stream(net, []) + [] == [] && Stream(net, []) == [] by { StreamSplits(net, [], []); }
    FeedDelivers(net, [], ps, [], NoSpill, chunks, []);
    ThreeDeliver(net, p, q, r, chunks);
  }

  lemma GlueThree(a: Bytes, b: Bytes, c: Bytes)
    ensures Glue([a, b, c]) == a + b + c
  {
    assert [a, b, c][1..] == [b, c] && [b, c][1..] == [c] && [c][1..] == [];
    assert Glue([c]) == c && Glue([b, c]) == b + c;
  }

  lemma DeliverStep(net: Net, lag: seq<Payload>, ps: seq<Payload>, have: nat, chunks: seq<Bytes>, m: nat, left: nat)
    requires chunks != [] && m == Whole(net, ps, have + |chunks[0]|) && left == Rest(net, ps, have + |chunks[0]|)
    ensures var (out, behind) := Yield(net, lag, have, ps[..m]);
            var (more, end) := Deliver(net, behind, ps[m..], left, chunks[1..]);
            Deliver(net, lag, ps, have, chunks) == (out + more, end)
  {
  }

  lemma ThreeCounts(net: Net, p: Payload, q: Payload, r: Payload)
    ensures var ps, n := [p, q, r], |Wire(net, p)| + |Wire(net, q)|;
            && Whole(net, ps, |Wire(net, p)| - 3) == 0 && Rest(net, ps, |Wire(net, p)| - 3) == |Wire(net, p)| - 3
            && Whole(net, ps, n) == 2 && Rest(net, ps, n) == 0
            && Whole(net, [r], |Wire(net, r)|) == 1 && Rest(net, [r], |Wire(net, r)|) == 0
  {
    hide Wire;
    assert [p, q, r][1..] == [q, r] && [q, r][1..] == [r];
    assert Whole(net, [q, r], |Wire(net, q)|) == 1 && Rest(net, [q, r], |Wire(net, q)|) == 0;
  }

  /** The second read is late and holds the second frame back; the third starts with a frame, and drops it. */
  lemma ThreeYields(net: Net, p: Payload, q: Payload, r: Payload)
    ensures Yield(net, [], 0, []) == ([], [])
    ensures Yield(net, [], |Wire(net, p)| - 3, [p, q]) == ([p], [q])
    ensures Yield(net, [q], 0, [r]) == ([r], [])
  {
    hide Wire;
    assert [] + [p, q] == [p, q] && [p, q][1..] == [q] && [p, q][2..] == [];
  }

  lemma ThreeDeliver(net: Net, p: Payload, q: Payload, r: Payload, chunks: seq<Bytes>)
    requires |chunks| == 3 && |chunks[0]| == |Wire(net, p)| - 3
    requires |chunks[1]| == 3 + |Wire(net, q)| && |chunks[2]| == |Wire(net, r)|
    ensures Deliver(net, [], [p, q, r], 0, chunks) == ([p, r], [])
  {
    hide Wire, Whole, Rest, Yield, Deliver;
    var ps, have := [p, q, r], |chunks[0]|;
    ThreeCounts(net, p, q, r);
    ThreeYields(net, p, q, r);
    assert ps[..0] == [] && ps[0..] == ps && ps[..2] == [p, q] && ps[2..] == [r] && [r][..1] == [r] && [r][1..] == [];
    assert chunks[1..][1..] == chunks[2..] && chunks[2..][1..] == [];
    DeliverStep(net, [], ps, 0, chunks, 0, have);
    DeliverStep(net, [], ps, have, chunks[1..], 2, 0);
    DeliverStep(net, [q], [r], 0, chunks[2..], 1, 0);
    NoReadsLeft(net);
    assert [r] + [] == [r] && [p] + [r] == [p, r] && [] + [p, r] == [p, r];
  }

  lemma NoReadsLeft(net: Net)
    ensures Deliver(net, [], [], 0, []) == ([], [])
  {
  }
}
