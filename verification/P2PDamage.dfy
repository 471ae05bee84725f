/** A read that ends a frame held from before, and then holds intact and damaged frames. */
module P2PDamage {
  import opened Wrappers
  import opened Bytes
  import opened P2PPayload
  import opened P2PFraming
  import opened P2PStream
  import opened P2PScan
  import opened P2PReads

  predicate SomeIntact(items: seq<Item>) { exists i :: 0 <= i < |items| && items[i].Intact? }

  /** The first intact frame is the first found. */
  lemma {:induction false} FirstIntact(net: Net, items: seq<Item>, offset: nat)
    requires ValidItems(net, items) && SomeIntact(items)
    ensures var starts := IntactStarts(net, items, offset);
            && starts != [] && offset <= starts[0] && starts[0] + 24 <= offset + |ItemStream(net, items)|
    decreases |items|
  {
    hide ItemBytes, ValidItem;
    if items[0].Damaged? {
      var i :| 0 <= i < |items| && items[i].Intact?;
      assert items[1..][i - 1].Intact?;
      FirstIntact(net, items[1..], offset + |ItemBytes(net, items[0])|);
    }
  }

  /** With an intact frame among the items, what counts as consumed before does not matter. */
  lemma {:induction false} ConsumedByItems(net: Net, items: seq<Item>, offset: nat, a: nat, b: nat)
    requires ValidItems(net, items) && SomeIntact(items)
    ensures ConsumedTo(net, items, offset, a) == ConsumedTo(net, items, offset, b)
    decreases |items|
  {
    hide ItemBytes, ValidItem, Readable;
    if items[0].Damaged? {
      var i :| 0 <= i < |items| && items[i].Intact?;
      assert items[1..][i - 1].Intact?;
      ConsumedByItems(net, items[1..], offset + |ItemBytes(net, items[0])|, a, b);
    }
  }

  /** If none of the intact frames can be read, the last of them is left over. */
  lemma {:induction false} UnreadIsLeft(net: Net, items: seq<Item>, offset: nat, consumed: nat)
    requires ValidItems(net, items) && Readables(items) == []
    requires SomeIntact(items) || consumed < offset + |ItemStream(net, items)|
    ensures ConsumedTo(net, items, offset, consumed) < offset + |ItemStream(net, items)|
    decreases |items|
  {
    hide ItemBytes, ValidItem, Readable;
    if items != [] {
      var end := offset + |ItemBytes(net, items[0])|;
      if items[0].Damaged? && SomeIntact(items) {
        var i :| 0 <= i < |items| && items[i].Intact?;
        assert items[1..][i - 1].Intact?;
      }
      UnreadIsLeft(net, items[1..], end, if items[0].Damaged? then consumed else offset);
    }
  }

  lemma ScanAfterEnd(net: Net, data: Bytes, items: seq<Item>, e: nat)
    requires ValidItems(net, items) && items != [] && 4 <= e <= |data| && data[e..] == ItemStream(net, items)
    requires ClearFrom(net, data, items, e) && forall i: nat :: i < e ==> !MagicAt(net, data, i)
    ensures ProcessPacket(net, data) == IntactStarts(net, items, e)
  {
    hide MagicAt, Look, ItemBytes, ValidItem, Scan, ClearFrom, PayloadAt, Word, IntactStarts;
    FirstItem(net, data, e, items);
    ItemLooks(net, data, e, items[0]);
    SearchThrough(net, data, 4, e);
    ScanUnfolds(net, data, 0);
    ScanItems(net, data, e, items);
  }

  /**
   The frame that was begun comes out, then the payloads of the intact frames that can be read; what is left
   over starts behind the last intact frame, or with it if it cannot be read.
   */
  lemma BegunThenDamage(net: Net, spill: Spill, part: Bytes, data: Bytes, p: Payload, items: seq<Item>)
    requires part != [] && Holding(spill, part) && Sendable(p) && ValidItems(net, items) && SomeIntact(items)
    requires var e := |Wire(net, p)| - |part|;
             && 4 <= e <= |data| && part + data[..e] == Wire(net, p) && data[e..] == ItemStream(net, items)
             && ClearFrom(net, data, items, e) && forall i: nat :: i < e ==> !MagicAt(net, data, i)
    ensures var e := |Wire(net, p)| - |part|;
            Deserialize(net, data, spill) ==
            Some(([p] + Readables(items), Leftover(data, ConsumedTo(net, items, e, 0))))
  {
    hide Wire, Sendable, MagicAt, ValidItem, ItemBytes, ClearFrom, ProcessPacket, ParseFrom, IntactStarts, ItemStream,
         Deserialize, ConsumedTo, Readables;
    var e := |Wire(net, p)| - |part|;
    FirstIntact(net, items, e);
    ScanAfterEnd(net, data, items, e);
    var s := IntactStarts(net, items, e)[0];
    assert part + data[..s] == Wire(net, p) + data[e..s] by {
      assert data[..s] == data[..e] + data[e..s];
    }
    PatchedFrame(net, spill, part, data[..s], p, data[e..s]);
    var used := spill.at + |Wire(net, p)|;
    ParseItems(net, data, e, items, used + s);
    ConsumedByItems(net, items, e, used + s, 0);
    var end := ConsumedTo(net, items, e, used + s);
    if Readables(items) == [] {
      UnreadIsLeft(net, items, e, 0);
    }
    FoundDeserialize(net, spill, data, s, [p], used, Readables(items), end);
  }
}
