/** What the scan finds in a buffer that also holds garbage, and what is read then. */
module P2PScan {
  import opened Wrappers
  import opened Bytes
  import opened BinaryIO
  import opened P2PPayload
  import opened P2PFraming
  import opened P2PStream

  // ----- Any buffer ---------------------------------------------------------

  predicate IsBad(r: Probe) { r.BadName? || r.BadChecksum? }

  predicate MagicAt(net: Net, data: Bytes, i: nat) { Word(data, i) == net.magic }

  /** Why the scan can miss a good frame, or that it does not. */
  datatype Reason =
    | IsFound
    | Inside(f: nat)                            // of a frame that is found
    | Behind(b: nat)                            // a header that does not fit
    | Near(s: nat)                              // less than four bytes after a place the scan leaves by four

  /**
   The scan leaves a place by four bytes if it holds a bad header, or if it comes to it without finding
   the magic word there: at the start, at the end of a frame, or right after leaving a bad header.
   */
  predicate Leaves(net: Net, data: Bytes, from: nat, found: seq<nat>, s: nat) {
    || (MagicAt(net, data, s) && IsBad(Look(net, data, s)))
    || (!MagicAt(net, data, s) &&
        (s == from || EndsAt(net, data, found, s)
         || (s >= 4 && MagicAt(net, data, s - 4) && IsBad(Look(net, data, s - 4)))))
  }

  predicate EndsAt(net: Net, data: Bytes, found: seq<nat>, s: nat) {
    exists f :: f in found && Look(net, data, f).Good? && s == f + 24 + Look(net, data, f).length
  }

  predicate Explains(net: Net, data: Bytes, from: nat, found: seq<nat>, o: nat, r: Reason) {
    match r
    case IsFound => o in found
    case Inside(f) => f in found && Look(net, data, f).Good? && f < o < f + 24 + Look(net, data, f).length
    case Behind(b) => from <= b < o && MagicAt(net, data, b) && Look(net, data, b) == DoesNotFit
    case Near(s) => from <= s < o < s + 4 && Leaves(net, data, from, found, s)
  }

  lemma {:induction false} SearchStops(net: Net, data: Bytes, from: nat, o: nat)
    requires from <= o < |data| && MagicAt(net, data, o)
    ensures var at := Search(net, data, from); at <= o && MagicAt(net, data, at)
    decreases |data| - from
  {
    hide Word;
    if from < o {
      if Word(data, from) != net.magic {
        SearchStops(net, data, from + 1, o);
      }
    }
  }

  /** The scan steps at a place before the end. */
  lemma ScanUnfolds(net: Net, data: Bytes, i: nat)
    requires i < |data|
    ensures !MagicAt(net, data, i) ==> Scan(net, data, i) == Scan(net, data, Search(net, data, i + 4))
    ensures MagicAt(net, data, i) && IsBad(Look(net, data, i)) ==> Scan(net, data, i) == Scan(net, data, i + 4)
    ensures MagicAt(net, data, i) && Look(net, data, i).Good? ==>
              Scan(net, data, i) == [i] + Scan(net, data, i + 24 + Look(net, data, i).length)
  {
    hide Look, Word;
  }

  /** What explains a miss of the rest of a scan explains one of the scan. */
  lemma ExplainsMoves(net: Net, data: Bytes, from: nat, found: seq<nat>, next: nat, rest: seq<nat>, o: nat, r: Reason)
    requires Explains(net, data, next, rest, o, r) && from <= next && forall f :: f in rest ==> f in found
    requires MagicAt(net, data, next) || EndsAt(net, data, found, next)
             || (next >= 4 && MagicAt(net, data, next - 4) && IsBad(Look(net, data, next - 4)))
    ensures Explains(net, data, from, found, o, r)
  {
    hide Look, Word;
  }

  lemma {:induction false} WhyMissed(net: Net, data: Bytes, from: nat, o: nat) returns (r: Reason)
    requires from <= o && MagicAt(net, data, o) && Look(net, data, o).Good?
    ensures Explains(net, data, from, Scan(net, data, from), o, r)
    decreases |data| - from
  {
    hide Look, Word, Scan, Search, MagicAt;
    GoodIsInside(net, data, o);
    ScanUnfolds(net, data, from);
    var found := Scan(net, data, from);
    if !MagicAt(net, data, from) {
      if o < from + 4 {
        return Near(from);
      }
      SearchStops(net, data, from + 4, o);
      var next := Search(net, data, from + 4);
      r := WhyMissed(net, data, next, o);
      ExplainsMoves(net, data, from, found, next, Scan(net, data, next), o, r);
    } else {
      match Look(net, data, from) {
        case DoesNotFit => return Behind(from);
        case Good(len) =>
          var next := from + 24 + len;
          var rest := Scan(net, data, next);
          assert found == [from] + rest && from in found;
          if o == from {
            return IsFound;
          } else if o < next {
            return Inside(from);
          }
          r := WhyMissed(net, data, next, o);
          assert EndsAt(net, data, found, next);
          ExplainsMoves(net, data, from, found, next, rest, o, r);
        case _ =>
          if o < from + 4 {
            return Near(from);
          }
          r := WhyMissed(net, data, from + 4, o);
          ExplainsMoves(net, data, from, found, from + 4, Scan(net, data, from + 4), o, r);
      }
    }
  }

  lemma GoodIsInside(net: Net, data: Bytes, o: nat)
    requires Look(net, data, o).Good?
    ensures o + 24 <= |data|
  {
  }

  /**
   On any buffer a frame with magic word, name and checksum is found, unless it starts inside a frame
   that is found, behind a header that does not fit, or less than four bytes after a place that the scan
   leaves by four: a bad header, or one without the magic word at the start, behind a frame, or four
   bytes after a bad header.
   */
  lemma GoodFramesAreFound(net: Net, data: Bytes, o: nat)
    requires MagicAt(net, data, o) && Look(net, data, o).Good?
    ensures exists r :: Explains(net, data, 0, ProcessPacket(net, data), o, r)
  {
    hide Explains, Look, Scan, MagicAt;
    GoodIsInside(net, data, o);
    var r := WhyMissed(net, data, 0, o);
    assert Explains(net, data, 0, ProcessPacket(net, data), o, r);
  }

  // ----- Streams with garbage -----------------------------------------------

  /** A frame as it was sent, or one that is damaged: no name, or a checksum that fails. */
  datatype Item = Intact(p: Payload) | Damaged(bytes: Bytes)

  predicate ValidItem(net: Net, item: Item) {
    match item
    case Intact(p) => Frameable(p)
    case Damaged(b) => |b| >= 24 && MagicAt(net, b, 0) && IsBad(Look(net, b, 0))
  }

  function ItemBytes(net: Net, item: Item): (b: Bytes)
    requires ValidItem(net, item)
    ensures |b| >= 24
  {
    match item
    case Intact(p) => Short(p); Frame(net, p)
    case Damaged(b) => b
  }

  predicate ValidItems(net: Net, items: seq<Item>) { forall i :: 0 <= i < |items| ==> ValidItem(net, items[i]) }

  function ItemStream(net: Net, items: seq<Item>): Bytes
    requires ValidItems(net, items)
  {
    if items == [] then [] else ItemBytes(net, items[0]) + ItemStream(net, items[1..])
  }

  /** Where the items start, and where the intact ones do. */
  function ItemStarts(net: Net, items: seq<Item>, offset: nat): (starts: seq<nat>)
    requires ValidItems(net, items)
    ensures forall s :: s in starts ==> s >= offset
  {
    if items == [] then [] else [offset] + ItemStarts(net, items[1..], offset + |ItemBytes(net, items[0])|)
  }

  function IntactStarts(net: Net, items: seq<Item>, offset: nat): seq<nat>
    requires ValidItems(net, items)
  {
    if items == [] then [] else
    (if items[0].Intact? then [offset] else []) + IntactStarts(net, items[1..], offset + |ItemBytes(net, items[0])|)
  }

  /** The payloads that can be read, in order. */
  function Readables(items: seq<Item>): seq<Payload> {
    if items == [] then [] else
    (if items[0].Intact? && Readable(items[0].p) then [items[0].p] else []) + Readables(items[1..])
  }

  /** How far the data counts as consumed: to the end of the last intact frame, or its start if it cannot be read. */
  function ConsumedTo(net: Net, items: seq<Item>, offset: nat, consumed: nat): nat
    requires ValidItems(net, items)
  {
    if items == [] then consumed else
    var end := offset + |ItemBytes(net, items[0])|;
    ConsumedTo(net, items[1..], end,
               if items[0].Damaged? then consumed else if Readable(items[0].p) then end else offset)
  }

  /** From an offset on the magic word stands at the starts of items only. */
  ghost predicate ClearFrom(net: Net, data: Bytes, items: seq<Item>, offset: nat)
    requires ValidItems(net, items)
  {
    forall i: nat :: offset <= i < |data| && MagicAt(net, data, i) ==> i in ItemStarts(net, items, offset)
  }

  /** A field reads the same wherever the bytes around it stand. */
  lemma WordAnywhere(data: Bytes, offset: nat, b: Bytes, i: nat)
    requires offset + |b| <= |data| && data[offset..offset + |b|] == b && i + 4 <= |b|
    ensures Word(data, offset + i) == Word(b, i)
  {
    hide FromLittleEndian;
    SliceOf(data, offset, |b|, i, i + 4);
  }

  /** A damaged frame is one wherever it stands. */
  lemma DamagedAnywhere(net: Net, data: Bytes, offset: nat, b: Bytes)
    requires offset + |b| <= |data| && data[offset..offset + |b|] == b && ValidItem(net, Damaged(b))
    ensures MagicAt(net, data, offset) && Look(net, data, offset) == Look(net, b, 0)
  {
    hide Word, NameAt;
    WordAnywhere(data, offset, b, 0);
    WordAnywhere(data, offset, b, 16);
    WordAnywhere(data, offset, b, 20);
    NameAnywhere(data, offset, b, 4, 12);
    var len := Word(b, 16);
    if 0 <= len && 24 + len <= |b| {
      SliceOf(data, offset, |b|, 24, 24 + len);
    }
  }

  lemma {:induction false} NameAnywhere(data: Bytes, offset: nat, b: Bytes, i: nat, n: nat)
    requires offset + |b| <= |data| && data[offset..offset + |b|] == b && i + n <= |b|
    ensures NameAt(data, offset + i, n) == NameAt(b, i, n)
    decreases n
  {
    if n > 0 {
      assert data[offset + i] == data[offset..offset + |b|][i];
      NameAnywhere(data, offset, b, i + 1, n - 1);
    }
  }

  lemma FirstItem(net: Net, data: Bytes, offset: nat, items: seq<Item>)
    requires items != [] && ValidItems(net, items) && offset <= |data| && data[offset..] == ItemStream(net, items)
    ensures var b := ItemBytes(net, items[0]);
            && offset + |b| <= |data| && data[offset..offset + |b|] == b
            && data[offset + |b|..] == ItemStream(net, items[1..])
  {
    hide ItemBytes, ValidItem;
    var b := ItemBytes(net, items[0]);
    assert data[offset..][..|b|] == b && data[offset..][|b|..] == ItemStream(net, items[1..]);
  }

  /** Every item starts with the magic word, and is found good or bad as it is. */
  lemma ItemLooks(net: Net, data: Bytes, offset: nat, item: Item)
    requires ValidItem(net, item)
    requires var b := ItemBytes(net, item); offset + |b| <= |data| && data[offset..offset + |b|] == b
    ensures MagicAt(net, data, offset)
    ensures item.Damaged? ==> IsBad(Look(net, data, offset))
    ensures item.Intact? ==>
              var len := |ItemBytes(net, item)| - 24;
              && Look(net, data, offset) == Good(len) && Word(data, offset + 16) == len
              && PayloadAt(data, offset, len) == if Readable(item.p) then Made(item.p) else PassedOver
  {
    hide Look, Word, PayloadAt, Readable, WellTyped, Encode, TypeStr, Header;
    match item {
      case Intact(p) =>
        Short(p);
        FrameIsGood(net, data, offset, p);
      case Damaged(b) => DamagedAnywhere(net, data, offset, b);
    }
  }

  lemma ClearMoves(net: Net, data: Bytes, items: seq<Item>, offset: nat)
    requires items != [] && ValidItems(net, items) && ClearFrom(net, data, items, offset)
    ensures var end := offset + |ItemBytes(net, items[0])|;
            && ClearFrom(net, data, items[1..], end)
            && forall i: nat :: offset < i < end && i < |data| ==> !MagicAt(net, data, i)
  {
    hide MagicAt, ItemBytes, ValidItem;
    var end := offset + |ItemBytes(net, items[0])|;
    var starts, rest := ItemStarts(net, items, offset), ItemStarts(net, items[1..], end);
    assert starts == [offset] + rest;
    forall i: nat | offset < i < |data| && MagicAt(net, data, i) ensures i in rest && i >= end {
      assert i in starts;
    }
  }

  /** A search through a stretch without the magic word comes to its end. */
  lemma {:induction false} SearchThrough(net: Net, data: Bytes, from: nat, to: nat)
    requires from <= to <= |data| && (to == |data| || MagicAt(net, data, to))
    requires forall i: nat :: from <= i < to ==> !MagicAt(net, data, i)
    ensures Search(net, data, from) == to
    decreases |data| - from
  {
    hide Word;
    if from < to {
      assert !MagicAt(net, data, from);
      SearchThrough(net, data, from + 1, to);
    }
  }

  /** Past a damaged frame the scan goes on at the next item. */
  lemma ScanSkips(net: Net, data: Bytes, offset: nat, end: nat)
    requires offset + 24 <= end <= |data| && (end == |data| || MagicAt(net, data, end))
    requires MagicAt(net, data, offset) && IsBad(Look(net, data, offset))
    requires forall i: nat :: offset < i < end ==> !MagicAt(net, data, i)
    ensures Scan(net, data, offset) == Scan(net, data, end)
  {
    hide MagicAt, Look, Scan;
    ScanUnfolds(net, data, offset);
    ScanUnfolds(net, data, offset + 4);
    SearchThrough(net, data, offset + 8, end);
  }

  /** The scan at an item: one that is intact is found, and from there or past it the scan goes on at the next. */
  lemma ScanItem(net: Net, data: Bytes, offset: nat, items: seq<Item>)
    requires items != [] && ValidItems(net, items) && offset <= |data| && data[offset..] == ItemStream(net, items)
    requires ClearFrom(net, data, items, offset)
    ensures var end := offset + |ItemBytes(net, items[0])|;
            && end <= |data| && data[end..] == ItemStream(net, items[1..]) && ClearFrom(net, data, items[1..], end)
            && Scan(net, data, offset) == (if items[0].Intact? then [offset] else []) + Scan(net, data, end)
  {
    hide MagicAt, Look, ItemBytes, ValidItem, Scan, ClearFrom, PayloadAt, Word, ItemStream, Readable;
    var item, rest := items[0], items[1..];
    var end := offset + |ItemBytes(net, item)|;
    FirstItem(net, data, offset, items);
    ItemLooks(net, data, offset, item);
    ClearMoves(net, data, items, offset);
    if item.Intact? {
      ScanUnfolds(net, data, offset);
    } else {
      NextItem(net, data, end, rest);
      ScanSkips(net, data, offset, end);
    }
  }

  /** Behind an item is the next one, with its magic word, or the end. */
  lemma NextItem(net: Net, data: Bytes, end: nat, rest: seq<Item>)
    requires ValidItems(net, rest) && end <= |data| && data[end..] == ItemStream(net, rest)
    ensures end == |data| || MagicAt(net, data, end)
  {
    hide MagicAt, Look, ItemBytes, ValidItem, PayloadAt, Word, Readable;
    if rest != [] {
      FirstItem(net, data, end, rest);
      ItemLooks(net, data, end, rest[0]);
    }
  }

  lemma {:induction false} ScanItems(net: Net, data: Bytes, offset: nat, items: seq<Item>)
    requires ValidItems(net, items) && offset <= |data| && data[offset..] == ItemStream(net, items)
    requires ClearFrom(net, data, items, offset)
    ensures Scan(net, data, offset) == IntactStarts(net, items, offset)
    decreases |items|
  {
    hide ItemBytes, ValidItem, Scan, ClearFrom;
    if items == [] {
      ScanEnds(net, data, offset);
    } else {
      ScanItem(net, data, offset, items);
      ScanItems(net, data, offset + |ItemBytes(net, items[0])|, items[1..]);
    }
  }

  lemma ScanEnds(net: Net, data: Bytes, offset: nat)
    requires offset >= |data|
    ensures Scan(net, data, offset) == []
  {
  }

  lemma {:induction false} ParseItems(net: Net, data: Bytes, offset: nat, items: seq<Item>, consumed: nat)
    requires ValidItems(net, items) && offset <= |data| && data[offset..] == ItemStream(net, items)
    ensures ParseFrom(data, IntactStarts(net, items, offset), consumed) ==
            Some((Readables(items), ConsumedTo(net, items, offset, consumed)))
    decreases |items|
  {
    hide Look, ItemBytes, ValidItem, PayloadAt, Word, Readable, MagicAt, ParseFrom;
    var starts := IntactStarts(net, items, offset);
    if items == [] {
      ParseStep(data, [], consumed);
    } else {
      var item, rest := items[0], items[1..];
      var end := offset + |ItemBytes(net, item)|;
      FirstItem(net, data, offset, items);
      ItemLooks(net, data, offset, item);
      if item.Intact? {
        assert starts[1..] == IntactStarts(net, rest, end);
        ParseItems(net, data, end, rest, if Readable(item.p) then end else offset);
        if Readable(item.p) {
          ParseGoesOn(data, starts, consumed, item.p);
        } else {
          assert Readables(items) == Readables(rest);
          ParsePasses(data, starts, consumed);
        }
      } else {
        assert starts == IntactStarts(net, rest, end) && Readables(items) == Readables(rest);
        ParseItems(net, data, end, rest, consumed);
      }
    }
  }

  lemma ParsePasses(data: Bytes, offsets: seq<nat>, consumed: nat)
    requires offsets != []
    requires var offset, len := offsets[0], Word(data, offsets[0] + 16);
             0 <= len && offset + 24 + len <= |data| && PayloadAt(data, offset, len) == PassedOver
    ensures ParseFrom(data, offsets, consumed) == ParseFrom(data, offsets[1..], offsets[0])
  {
    hide Word, PayloadAt;
  }

  /**
   Intact and damaged frames, in any order, with the magic word at their starts only: exactly the starts
   of the intact ones are found, and exactly the payloads among them that can be read come out, in order.
   */
  lemma DamageIsSkipped(net: Net, items: seq<Item>)
    requires ValidItems(net, items) && ClearFrom(net, ItemStream(net, items), items, 0)
    ensures var data := ItemStream(net, items);
            && ProcessPacket(net, data) == IntactStarts(net, items, 0)
            && Deserialize(net, data, NoSpill) ==
               Some((Readables(items), Leftover(data, ConsumedTo(net, items, 0, 0))))
  {
    hide ItemBytes, ValidItem, ClearFrom, Scan, ParseFrom, Readables, ConsumedTo;
    var data := ItemStream(net, items);
    assert data[0..] == data;
    ScanItems(net, data, 0, items);
    ParseItems(net, data, 0, items, 0);
  }

  // ----- When the reader ends -----------------------------------------------

  /** The frame that the header at an offset announces is all there. */
  predicate FitsAt(data: Bytes, offset: nat) {
    var len := Word(data, offset + 16);
    offset + 24 <= |data| && 0 <= len && offset + 24 + len <= |data|
  }

  predicate EscapesAt(data: Bytes, offset: nat) {
    FitsAt(data, offset) && PayloadAt(data, offset, Word(data, offset + 16)).Escapes?
  }

  /** One of the offsets throws for good, and all before it are of frames that are there. */
  ghost predicate SomeEscapes(data: Bytes, offsets: seq<nat>) {
    exists k: nat :: k < |offsets| && EscapesAt(data, offsets[k]) && forall j :: 0 <= j < k ==> FitsAt(data, offsets[j])
  }

  lemma {:induction false} ParseEscapes(data: Bytes, offsets: seq<nat>, consumed: nat)
    ensures ParseFrom(data, offsets, consumed).None? <==> SomeEscapes(data, offsets)
    decreases |offsets|
  {
    hide PayloadAt, Word;
    if offsets != [] {
      var first, rest := offsets[0], offsets[1..];
      if EscapesAt(data, first) {
        assert EscapesAt(data, offsets[0]);
      } else if FitsAt(data, first) {
        var p := PayloadAt(data, first, Word(data, first + 16));
        ParseEscapes(data, rest, if p.Made? then first + 24 + Word(data, first + 16) else first);
        EscapesMoves(data, offsets);
      }
    }
  }

  lemma EscapesMoves(data: Bytes, offsets: seq<nat>)
    requires offsets != [] && FitsAt(data, offsets[0]) && !EscapesAt(data, offsets[0])
    ensures SomeEscapes(data, offsets) <==> SomeEscapes(data, offsets[1..])
  {
    hide FitsAt, EscapesAt;
    var rest := offsets[1..];
    if SomeEscapes(data, offsets) {
      var k: nat :| k < |offsets| && EscapesAt(data, offsets[k]) && forall j :: 0 <= j < k ==> FitsAt(data, offsets[j]);
      assert rest[k - 1] == offsets[k];
      assert forall j :: 0 <= j < k - 1 ==> FitsAt(data, rest[j]) by {
        forall j | 0 <= j < k - 1 ensures FitsAt(data, rest[j]) {
          assert rest[j] == offsets[j + 1];
        }
      }
    }
    if SomeEscapes(data, rest) {
      var k: nat :| k < |rest| && EscapesAt(data, rest[k]) && forall j :: 0 <= j < k ==> FitsAt(data, rest[j]);
      assert offsets[k + 1] == rest[k];
      forall j | 0 <= j < k + 1 ensures FitsAt(data, offsets[j]) {
        if j > 0 {
          assert offsets[j] == rest[j - 1];
        }
      }
    }
  }

  /**
   Exactly when a read ends the reader, with nothing held from before: one of the frames found is an inv or
   a getdata whose count is cut short.
   */
  lemma ReaderEndsIff(net: Net, data: Bytes)
    ensures Deserialize(net, data, NoSpill).None? <==>
              exists f :: && f in ProcessPacket(net, data) && FitsAt(data, f)
                          && NameAt(data, f + 4, 12) in {Some(INV), Some(GETDATA)}
                          && GetVarInt(data[f + 24..f + 24 + Word(data, f + 16)]).None?
  {
    hide PayloadAt, Word, NameAt, ParseFrom, ProcessPacket, GetVarInt, Decode;
    var found := ProcessPacket(net, data);
    ParseEscapes(data, found, 0);
    FoundFit(net, data);
    forall f | f in found
      ensures FitsAt(data, f)
      ensures EscapesAt(data, f) <==>
                && NameAt(data, f + 4, 12) in {Some(INV), Some(GETDATA)}
                && GetVarInt(data[f + 24..f + 24 + Word(data, f + 16)]).None?
    {
      FoundEscapes(data, f);
    }
  }

  lemma FoundFit(net: Net, data: Bytes)
    ensures forall f :: f in ProcessPacket(net, data) ==> FitsAt(data, f) && NameAt(data, f + 4, 12).Some?
  {
    hide ProcessPacket, Word, NameAt;
    FoundFramesAreSound(net, data);
  }

  lemma FoundEscapes(data: Bytes, f: nat)
    requires FitsAt(data, f) && NameAt(data, f + 4, 12).Some?
    ensures EscapesAt(data, f) <==>
              && NameAt(data, f + 4, 12) in {Some(INV), Some(GETDATA)}
              && GetVarInt(data[f + 24..f + 24 + Word(data, f + 16)]).None?
  {
    hide Word, NameAt, Decode, GetVarInt;
    DecodeSays(NameAt(data, f + 4, 12).value, data[f + 24..f + 24 + Word(data, f + 16)]);
  }
}
