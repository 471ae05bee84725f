/** Frames in one buffer: any buffer, and one that starts with whole frames. */
module P2PStream {
  import opened Wrappers
  import opened Bytes
  import opened P2PPayload
  import opened P2PFraming

  // ----- Headers ------------------------------------------------------------

  /** A payload that fits a frame. Reject messages, which the source parses twice over, are left out. */
  predicate Frameable(p: Payload) {
    WellTyped(p) && |Encode(p)| + 24 < 0x1_0000_0000 && (p.Foreign? ==> p.name == VERSION)
  }

  /** One that its reader takes. */
  predicate Sendable(p: Payload) { Frameable(p) && Readable(p) }

  predicate AllSendable(ps: seq<Payload>) { forall i :: 0 <= i < |ps| ==> Sendable(ps[i]) }

  lemma Short(p: Payload)
    requires Frameable(p)
    ensures |TypeStr(p)| <= 12
  {
    TypeStrFits(p);
  }

  lemma WordIs(data: Bytes, i: nat, n: u32)
    requires i + 4 <= |data| && data[i..i + 4] == LittleEndian(n, 4)
    ensures Word(data, i) == n
  {
    Spans();
    LittleEndianReadsBack(n, 4);
  }

  lemma {:induction false} NameIs(data: Bytes, i: nat, n: nat, name: Bytes)
    requires i + n <= |data| && |name| < n && data[i..i + |name|] == name && data[i + |name|] == 0
    requires forall j :: 0 <= j < |name| ==> name[j] != 0
    ensures NameAt(data, i, n) == Some(name)
    decreases n
  {
    if name != [] {
      assert data[i] == data[i..i + |name|][0];
      assert data[i + 1..i + 1 + |name[1..]|] == data[i..i + |name|][1..];
      NameIs(data, i + 1, n - 1, name[1..]);
      assert name == [name[0]] + name[1..];
    }
  }

  predicate HeaderAt(net: Net, data: Bytes, offset: nat, p: Payload)
    requires |TypeStr(p)| <= 12
  {
    offset + 24 <= |data| && data[offset..offset + 24] == Header(net, p)
  }

  lemma HeaderReads(net: Net, data: Bytes, offset: nat, p: Payload)
    requires Frameable(p) && |TypeStr(p)| <= 12 && HeaderAt(net, data, offset, p)
    ensures Word(data, offset) == net.magic && NameAt(data, offset + 4, 12) == Some(TypeStr(p))
    ensures Word(data, offset + 16) == |Encode(p)| && Word(data, offset + 20) == net.checksum(Encode(p))
  {
    hide LittleEndian, Encode, TypeStr, Word, NameAt, Readable, WellTyped;
    var h := Header(net, p);
    HeaderParts(net, data, offset, p);
    WordIs(data, offset, net.magic);
    WordIs(data, offset + 16, |Encode(p)|);
    WordIs(data, offset + 20, net.checksum(Encode(p)));
    TypeStrFits(p);
    var name := TypeStr(p);
    var field := data[offset + 4..offset + 16];
    assert field == name + Zeros(12 - |name|);
    assert data[offset + 4..offset + 4 + |name|] == field[..|name|] == name;
    assert data[offset + 4 + |name|] == field[|name|] == 0;
    NameIs(data, offset + 4, 12, name);
  }

  lemma HeaderParts(net: Net, data: Bytes, offset: nat, p: Payload)
    requires |TypeStr(p)| <= 12 && HeaderAt(net, data, offset, p)
    ensures data[offset..offset + 4] == LittleEndian(net.magic, 4)
    ensures data[offset + 4..offset + 16] == NameField(TypeStr(p))
    ensures data[offset + 16..offset + 20] == LittleEndian(|Encode(p)|, 4)
    ensures data[offset + 20..offset + 24] == LittleEndian(net.checksum(Encode(p)), 4)
  {
    hide LittleEndian, Encode, TypeStr, NameField;
    var h, d := Header(net, p), data[offset..offset + 24];
    SliceOf(data, offset, 24, 0, 4);
    SliceOf(data, offset, 24, 4, 16);
    SliceOf(data, offset, 24, 16, 20);
    SliceOf(data, offset, 24, 20, 24);
  }

  lemma SliceOf(data: Bytes, offset: nat, n: nat, i: nat, j: nat)
    requires offset + n <= |data| && i <= j <= n
    ensures data[offset..offset + n][i..j] == data[offset + i..offset + j]
  {
    var whole := data[offset..offset + n];
    forall k | 0 <= k < j - i ensures whole[i..j][k] == data[offset + i..offset + j][k] {
      assert whole[i..j][k] == whole[i + k];
    }
  }

  predicate FrameAt(net: Net, data: Bytes, offset: nat, p: Payload)
    requires |TypeStr(p)| <= 12
  {
    offset + |Frame(net, p)| <= |data| && data[offset..offset + |Frame(net, p)|] == Frame(net, p)
  }

  lemma FrameHasHeader(net: Net, data: Bytes, offset: nat, p: Payload)
    requires |TypeStr(p)| <= 12 && FrameAt(net, data, offset, p)
    ensures HeaderAt(net, data, offset, p) && data[offset + 24..offset + 24 + |Encode(p)|] == Encode(p)
  {
    hide Header, Encode, TypeStr;
    var f, d := Frame(net, p), data[offset..offset + |Frame(net, p)|];
    assert f[..24] == Header(net, p) && f[24..] == Encode(p);
    assert data[offset..offset + 24] == d[..24] && data[offset + 24..offset + 24 + |Encode(p)|] == d[24..];
  }

  /** A whole frame is found good, and its payload reads back, or is passed over if it cannot be read. */
  lemma FrameIsGood(net: Net, data: Bytes, offset: nat, p: Payload)
    requires Frameable(p) && |TypeStr(p)| <= 12 && FrameAt(net, data, offset, p)
    ensures Word(data, offset) == net.magic && Look(net, data, offset) == Good(|Encode(p)|)
    ensures Word(data, offset + 16) == |Encode(p)| && offset + 24 + |Encode(p)| <= |data|
    ensures PayloadAt(data, offset, |Encode(p)|) == if Readable(p) then Made(p) else PassedOver
  {
    hide Header, Encode, TypeStr, Word, NameAt, Readable, WellTyped, Decode;
    FrameHasHeader(net, data, offset, p);
    HeaderReads(net, data, offset, p);
    PayloadReadsBack(p);
  }

  /** A header whose frame is longer than the data does not fit. */
  lemma PartDoesNotFit(net: Net, data: Bytes, offset: nat, p: Payload)
    requires Sendable(p) && |TypeStr(p)| <= 12
    requires HeaderAt(net, data, offset, p) && |data| < offset + |Frame(net, p)|
    ensures Word(data, offset) == net.magic && Look(net, data, offset) == DoesNotFit
    ensures Word(data, offset + 16) == |Encode(p)|
  {
    hide Header, Encode, TypeStr, Word, NameAt;
    HeaderReads(net, data, offset, p);
  }

  // ----- Any buffer ---------------------------------------------------------

  /** The frames of any buffer: in increasing order, disjoint, each with magic word, name, and checksum. */
  ghost predicate SoundFrom(net: Net, data: Bytes, found: seq<nat>, from: nat) {
    found != [] ==>
      && found[0] >= from && Word(data, found[0]) == net.magic && Look(net, data, found[0]).Good?
      && SoundFrom(net, data, found[1..], found[0] + 24 + Look(net, data, found[0]).length)
  }

  lemma {:induction false} ScanIsSound(net: Net, data: Bytes, offset: nat)
    ensures SoundFrom(net, data, Scan(net, data, offset), offset)
    decreases |data| - offset
  {
    hide Look, Word;
    if offset < |data| {
      if Word(data, offset) != net.magic {
        var next := Search(net, data, offset + 4);
        ScanIsSound(net, data, next);
      } else {
        match Look(net, data, offset) {
          case DoesNotFit =>
          case BadName => ScanIsSound(net, data, offset + 4);
          case BadChecksum => ScanIsSound(net, data, offset + 4);
          case Good(len) =>
            ScanIsSound(net, data, offset + 24 + len);
            assert Scan(net, data, offset)[1..] == Scan(net, data, offset + 24 + len);
        }
      }
    }
  }

  /** Any two frames found are disjoint, and what is found good is a frame with its checksum. */
  lemma {:induction false} SoundIsDisjoint(net: Net, data: Bytes, found: seq<nat>, from: nat, i: nat, j: nat)
    requires SoundFrom(net, data, found, from) && i < j < |found|
    ensures Look(net, data, found[i]).Good? && found[i] + 24 + Look(net, data, found[i]).length <= found[j]
    decreases |found|
  {
    hide Look, Word;
    var rest := found[1..];
    if i > 0 {
      SoundIsDisjoint(net, data, rest, found[0] + 24 + Look(net, data, found[0]).length, i - 1, j - 1);
    } else {
      SoundStarts(net, data, rest, found[0] + 24 + Look(net, data, found[0]).length, j - 1);
    }
  }

  lemma {:induction false} SoundStarts(net: Net, data: Bytes, found: seq<nat>, from: nat, j: nat)
    requires SoundFrom(net, data, found, from) && j < |found|
    ensures found[j] >= from && Word(data, found[j]) == net.magic && Look(net, data, found[j]).Good?
    decreases |found|
  {
    hide Look, Word;
    if j > 0 {
      SoundStarts(net, data, found[1..], found[0] + 24 + Look(net, data, found[0]).length, j - 1);
    }
  }

  /** On any buffer the frames found increase, are disjoint, fit, and have magic word, name and checksum. */
  lemma FoundFramesAreSound(net: Net, data: Bytes)
    ensures var found := ProcessPacket(net, data);
            && (forall i :: 0 <= i < |found| ==>
                  && Word(data, found[i]) == net.magic && NameAt(data, found[i] + 4, 12).Some?
                  && Look(net, data, found[i]).Good?
                  && var len := Look(net, data, found[i]).length;
                     found[i] + 24 + len <= |data| && len == Word(data, found[i] + 16)
                     && net.checksum(data[found[i] + 24..found[i] + 24 + len]) == Word(data, found[i] + 20))
            && (forall i, j :: 0 <= i < j < |found| ==> found[i] + 24 + Look(net, data, found[i]).length <= found[j])
  {
    hide Word, NameAt;
    var found := ProcessPacket(net, data);
    if |data| >= 24 {
      ScanIsSound(net, data, 0);
      forall i | 0 <= i < |found| ensures Word(data, found[i]) == net.magic && Look(net, data, found[i]).Good? {
        SoundStarts(net, data, found, 0, i);
      }
      forall i, j | 0 <= i < j < |found| ensures found[i] + 24 + Look(net, data, found[i]).length <= found[j] {
        SoundIsDisjoint(net, data, found, 0, i, j);
      }
    }
  }

  // ----- Streams ------------------------------------------------------------

  function Wire(net: Net, p: Payload): (f: Bytes)
    ensures |f| >= 24
    ensures Sendable(p) ==> |TypeStr(p)| <= 12 && f == Frame(net, p)
  {
    if Sendable(p) then Short(p); Frame(net, p) else Zeros(24)
  }

  function Stream(net: Net, ps: seq<Payload>): Bytes {
    if ps == [] then [] else Wire(net, ps[0]) + Stream(net, ps[1..])
  }

  function Starts(net: Net, ps: seq<Payload>, offset: nat): seq<nat> {
    if ps == [] then [] else [offset] + Starts(net, ps[1..], offset + |Wire(net, ps[0])|)
  }

  /** Some of a frame, from its first byte on, but not the whole of it. */
  predicate IsPart(net: Net, p: Payload, part: Bytes) {
    0 < |part| < |Wire(net, p)| && part == Wire(net, p)[..|part|]
  }

  /** What may follow the last whole frame: nothing, or part of one more. */
  predicate IsTail(net: Net, next: seq<Payload>, tail: Bytes) {
    tail == [] || (next != [] && IsPart(net, next[0], tail))
  }

  /** Part of a frame at the end of the data is no frame for the scan and none for the parser. */
  lemma PartAt(net: Net, data: Bytes, offset: nat, p: Payload)
    requires Sendable(p) && offset <= |data| && IsPart(net, p, data[offset..])
    ensures Scan(net, data, offset) == []
    ensures offset + 4 <= |data| ==> Word(data, offset) == net.magic
    ensures offset + 24 <= |data| ==> |data| < offset + 24 + Word(data, offset + 16)
  {
    hide Encode, TypeStr, Header, FromLittleEndian, LittleEndian, NameAt, Frameable;
    Short(p);
    var part, f := data[offset..], Frame(net, p);
    if |part| >= 24 {
      assert f[..24] == Header(net, p);
      assert data[offset..offset + 24] == part[..24] == f[..|part|][..24] == f[..24];
      PartDoesNotFit(net, data, offset, p);
    } else if |part| >= 4 {
      FrameStartsWithMagic(net, p);
      assert data[offset..offset + 4] == part[..4] == f[..|part|][..4] == f[..4];
      WordIs(data, offset, net.magic);
    } else {
      ScanStops(net, data, offset);
    }
  }

  lemma FrameStartsWithMagic(net: Net, p: Payload)
    requires |TypeStr(p)| <= 12
    ensures Frame(net, p)[..4] == LittleEndian(net.magic, 4)
  {
    hide Encode, TypeStr, LittleEndian, NameField;
  }

  /** Fewer than four bytes before the end there is no magic word, and the scan ends. */
  lemma ScanStops(net: Net, data: Bytes, offset: nat)
    requires offset <= |data| < offset + 4
    ensures Scan(net, data, offset) == []
  {
    assert Search(net, data, offset + 4) == offset + 4;
  }

  lemma FirstFrame(net: Net, data: Bytes, offset: nat, p: Payload, rest: Bytes)
    requires Sendable(p) && offset <= |data| && data[offset..] == Wire(net, p) + rest
    ensures Word(data, offset) == net.magic && Look(net, data, offset) == Good(|Wire(net, p)| - 24)
    ensures Word(data, offset + 16) == |Wire(net, p)| - 24 && offset + |Wire(net, p)| <= |data|
    ensures PayloadAt(data, offset, |Wire(net, p)| - 24) == Made(p)
    ensures data[offset + |Wire(net, p)|..] == rest
  {
    hide Encode, TypeStr, Word, Look, PayloadAt, Frame;
    Short(p);
    var f := Wire(net, p);
    assert |f| == 24 + |Encode(p)| by { FrameSize(net, p); }
    assert data[offset..offset + |f|] == data[offset..][..|f|] == f;
    assert data[offset + |f|..] == data[offset..][|f|..] == rest;
    FrameIsGood(net, data, offset, p);
  }

  lemma FrameSize(net: Net, p: Payload)
    requires Sendable(p)
    ensures |Wire(net, p)| == 24 + |Encode(p)|
  {
  }

  lemma StreamSplits(net: Net, ps: seq<Payload>, tail: Bytes)
    ensures ps == [] ==> Stream(net, ps) == [] && Stream(net, ps) + tail == tail
    ensures ps != [] ==>
              && Stream(net, ps) + tail == Wire(net, ps[0]) + (Stream(net, ps[1..]) + tail)
              && |Stream(net, ps)| == |Wire(net, ps[0])| + |Stream(net, ps[1..])|
  {
  }

  lemma ParseStep(data: Bytes, offsets: seq<nat>, consumed: nat)
    ensures offsets == [] ==> ParseFrom(data, offsets, consumed) == Some(([], consumed))
    ensures offsets != [] ==>
              var offset, len := offsets[0], Word(data, offsets[0] + 16);
              offset + 24 > |data| || offset + 24 + len > |data| ==>
                ParseFrom(data, offsets, consumed) == Some(([], offset))
  {
    hide Word, PayloadAt;
  }

  lemma ParseGoesOn(data: Bytes, offsets: seq<nat>, consumed: nat, p: Payload)
    requires offsets != []
    requires var offset, len := offsets[0], Word(data, offsets[0] + 16);
             0 <= len && offset + 24 + len <= |data| && PayloadAt(data, offset, len) == Made(p)
    ensures var more := ParseFrom(data, offsets[1..], offsets[0] + 24 + Word(data, offsets[0] + 16));
            more.Some? ==> ParseFrom(data, offsets, consumed) == Some(([p] + more.value.0, more.value.1))
  {
    hide Word, PayloadAt;
  }

  lemma StartsStep(net: Net, ps: seq<Payload>, offset: nat)
    ensures ps == [] ==> Starts(net, ps, offset) == []
    ensures ps != [] ==> Starts(net, ps, offset) == [offset] + Starts(net, ps[1..], offset + |Wire(net, ps[0])|)
  {
    hide Wire;
  }

  /** A scan that comes to a frame start finds all whole frames from there. */
  lemma {:induction false} ScanStream(net: Net, data: Bytes, offset: nat, ps: seq<Payload>, next: seq<Payload>,
                                      tail: Bytes)
    requires AllSendable(ps) && AllSendable(next) && IsTail(net, next, tail)
    requires offset <= |data| && data[offset..] == Stream(net, ps) + tail
    ensures Scan(net, data, offset) == Starts(net, ps, offset)
    decreases |ps|
  {
    hide Wire, Look, Word, Sendable, IsPart, Scan, Stream, PayloadAt, Starts;
    ScanStep(net, data, offset);
    StreamSplits(net, ps, tail);
    StartsStep(net, ps, offset);
    if ps != [] {
      var rest := Stream(net, ps[1..]) + tail;
      FirstFrame(net, data, offset, ps[0], rest);
      ScanStream(net, data, offset + |Wire(net, ps[0])|, ps[1..], next, tail);
    } else if tail != [] {
      PartAt(net, data, offset, next[0]);
    }
  }

  /** The steps of a scan at a frame start, and at the end. */
  lemma ScanStep(net: Net, data: Bytes, offset: nat)
    ensures offset >= |data| ==> Scan(net, data, offset) == []
    ensures offset < |data| && Word(data, offset) == net.magic && Look(net, data, offset).Good? ==>
              Scan(net, data, offset) == [offset] + Scan(net, data, offset + 24 + Look(net, data, offset).length)
  {
    hide Look, Word;
  }

  lemma {:induction false} ParseStream(net: Net, data: Bytes, offset: nat, ps: seq<Payload>, tail: Bytes,
                                       consumed: nat)
    requires AllSendable(ps) && offset <= |data| && data[offset..] == Stream(net, ps) + tail
    ensures ParseFrom(data, Starts(net, ps, offset), consumed) ==
            Some((ps, if ps == [] then consumed else offset + |Stream(net, ps)|))
    decreases |ps|
  {
    hide Wire, Look, Word, Sendable, PayloadAt, Stream, ParseFrom;
    StreamSplits(net, ps, tail);
    var starts := Starts(net, ps, offset);
    ParseStep(data, starts, consumed);
    if ps != [] {
      FirstFrame(net, data, offset, ps[0], Stream(net, ps[1..]) + tail);
      ParseGoesOn(data, starts, consumed, ps[0]);
      var end := offset + |Wire(net, ps[0])|;
      ParseStream(net, data, end, ps[1..], tail, end);
      StreamSplits(net, ps[1..], tail);
      assert starts[1..] == Starts(net, ps[1..], end);
      assert ps == [ps[0]] + ps[1..];
    }
  }

  /** Any serialised payloads, one after the other: the scan returns exactly their offsets, which parse back. */
  lemma ConcatenationReadsBack(net: Net, ps: seq<Payload>)
    requires AllSendable(ps)
    ensures var data := Stream(net, ps);
            && ProcessPacket(net, data) == Starts(net, ps, 0)
            && Deserialize(net, data, NoSpill) == Some((ps, NoSpill))
  {
    hide Wire, Sendable;
    var data := Stream(net, ps);
    assert data[0..] == data + [];
    ScanStream(net, data, 0, ps, [], []);
    ParseStream(net, data, 0, ps, [], 0);
    if ps == [] {
      assert data == [];
    }
  }
}
