/**
 Frames of the peer-to-peer protocol: `Payload::serialize`, the scan for frames in a read
 (`processPacket`) and the stitching of frames split over reads (`deserialize`).

 A read of header fields past the end of the buffer is taken as a header that does not fit.
 */
module P2PFraming {
  import opened Wrappers
  import opened Bytes
  import opened P2PPayload

  datatype Net = Net(magic: u32, checksum: Bytes -> u32)

  // ----- Writing ------------------------------------------------------------

  function Zeros(n: nat): (z: Bytes)
    ensures |z| == n && forall i :: 0 <= i < n ==> z[i] == 0
  {
    if n == 0 then [] else [0] + Zeros(n - 1)
  }

  /** The name in a field of twelve bytes. */
  function NameField(name: Bytes): (f: Bytes)
    requires |name| <= 12
    ensures |f| == 12
  {
    name + Zeros(12 - |name|)
  }

  /** Magic word, name, length and checksum: 24 bytes. */
  function Header(net: Net, p: Payload): (h: Bytes)
    requires |TypeStr(p)| <= 12
    ensures |h| == 24
  {
    LittleEndian(net.magic, 4) + NameField(TypeStr(p))
    + LittleEndian(|Encode(p)|, 4) + LittleEndian(net.checksum(Encode(p)), 4)
  }

  function Frame(net: Net, p: Payload): (f: Bytes)
    requires |TypeStr(p)| <= 12
    ensures |f| == 24 + |Encode(p)|
  {
    Header(net, p) + Encode(p)
  }

  /** `memcpy` into a buffer. */
  method CopyInto(buffer: array<byte>, at: nat, data: Bytes)
    requires at + |data| <= buffer.Length
    modifies buffer
    ensures forall k :: 0 <= k < buffer.Length ==>
              buffer[k] == if at <= k < at + |data| then data[k - at] else old(buffer[k])
  {
    for i := 0 to |data|
      invariant forall k :: 0 <= k < buffer.Length ==>
                  buffer[k] == if at <= k < at + i then data[k - at] else old(buffer[k])
    {
      buffer[at + i] := data[i];
    }
  }

  /** The payload goes in first, then the header in front of it. */
  method Serialize(net: Net, p: Payload) returns (msg: Bytes)
    requires |TypeStr(p)| <= 12
    ensures msg == Frame(net, p)
  {
    hide LittleEndian, Encode, TypeStr, NameField;
    var payload := Encode(p);
    var magic, name := LittleEndian(net.magic, 4), NameField(TypeStr(p));
    var length, checksum := LittleEndian(|payload|, 4), LittleEndian(net.checksum(payload), 4);
    var buffer := new byte[24 + |payload|](i => 0);
    CopyInto(buffer, 24, payload);
    CopyInto(buffer, 0, magic);
    CopyInto(buffer, 4, name);
    CopyInto(buffer, 16, length);
    CopyInto(buffer, 20, checksum);
    msg := buffer[..];
    assert msg == magic + name + length + checksum + payload;
  }

  // ----- Scanning -----------------------------------------------------------

  /** A 32-bit field, or -1 past the end. */
  function Word(data: Bytes, i: nat): int {
    if i + 4 <= |data| then FromLittleEndian(data[i..i + 4]) else -1
  }

  /** The bytes before the first zero among the next n. */
  function NameAt(data: Bytes, i: nat, n: nat): Option<Bytes>
    decreases n
  {
    if n == 0 || i >= |data| then None
    else if data[i] == 0 then Some([])
    else
      var rest :- NameAt(data, i + 1, n - 1);
      Some([data[i]] + rest)
  }

  /** The next place with the magic word, from here on. */
  function Search(net: Net, data: Bytes, from: nat): (at: nat)
    ensures at >= from
    decreases |data| - from
  {
    if from >= |data| || Word(data, from) == net.magic then from else Search(net, data, from + 1)
  }

  /** What is found at an offset that has the magic word. */
  datatype Probe = DoesNotFit | BadName | BadChecksum | Good(length: nat)

  function Look(net: Net, data: Bytes, offset: nat): (r: Probe)
    ensures r.Good? ==> offset + 24 + r.length <= |data|
  {
    if offset + 24 > |data| then DoesNotFit
    else if NameAt(data, offset + 4, 12).None? then BadName
    else
      var len := Word(data, offset + 16);
      if len < 0 || offset + 24 + len > |data| then DoesNotFit
      else if net.checksum(data[offset + 24..offset + 24 + len]) != Word(data, offset + 20) then BadChecksum
      else Good(len)
  }

  /** Offsets of the frames from an offset on; the scan ends at a frame that is longer than the data. */
  function Scan(net: Net, data: Bytes, offset: nat): (found: seq<nat>)
    ensures forall k :: 0 <= k < |found| ==> offset <= found[k] <= |data|
    decreases |data| - offset
  {
    if offset >= |data| then []
    else if Word(data, offset) != net.magic then Scan(net, data, Search(net, data, offset + 4))
    else
      match Look(net, data, offset)
      case DoesNotFit => []
      case BadName => Scan(net, data, offset + 4)
      case BadChecksum => Scan(net, data, offset + 4)
      case Good(len) => [offset] + Scan(net, data, offset + 24 + len)
  }

  function ProcessPacket(net: Net, data: Bytes): (found: seq<nat>)
    ensures forall k :: 0 <= k < |found| ==> found[k] <= |data|
  {
    if |data| < 24 then [] else Scan(net, data, 0)
  }

  method FindFrames(net: Net, data: Bytes) returns (found: seq<nat>)
    ensures found == ProcessPacket(net, data)
  {
    hide Look, Word;
    found := [];
    if |data| < 24 {
      return;
    }
    var offset := 0;
    while offset < |data|
      invariant Scan(net, data, 0) == found + Scan(net, data, offset)
      decreases |data| - offset
    {
      if Word(data, offset) != net.magic {
        var i := 4;
        while offset + i < |data| && Word(data, offset + i) != net.magic
          invariant Search(net, data, offset + 4) == Search(net, data, offset + i)
          invariant i >= 4
        {
          i := i + 1;
        }
        offset := offset + i;
      } else {
        var probe := Look(net, data, offset);
        match probe {
          case DoesNotFit => return;
          case BadName => offset := offset + 4;
          case BadChecksum => offset := offset + 4;
          case Good(len) =>
            ghost var rest := Scan(net, data, offset + 24 + len);
            assert found + ([offset] + rest) == (found + [offset]) + rest;
            found := found + [offset];
            offset := offset + 24 + len;
        }
      }
    }
  }

  // ----- Parsing ------------------------------------------------------------

  datatype Spill = NoSpill | Spill(data: Bytes, at: nat)

  function PayloadAt(data: Bytes, offset: nat, len: nat): Outcome<Payload>
    requires offset + 24 + len <= |data|
  {
    var name := NameAt(data, offset + 4, 12);
    Decode(if name.Some? then name.value else data[offset + 4..offset + 16], data[offset + 24..offset + 24 + len])
  }

  /**
   The payloads at the offsets, and how many bytes count as consumed; a payload that is malformed is
   passed over, and None stands for an exception that escapes.
   */
  function ParseFrom(data: Bytes, offsets: seq<nat>, consumed: nat): Option<(seq<Payload>, nat)>
    decreases |offsets|
  {
    if offsets == [] then Some(([], consumed))
    else
      var offset := offsets[0];
      var len := Word(data, offset + 16);
      if offset + 24 > |data| || len < 0 || offset + 24 + len > |data| then Some(([], offset))
      else
        match PayloadAt(data, offset, len)
        case Escapes => None
        case PassedOver => ParseFrom(data, offsets[1..], offset)
        case Made(p) =>
          var (rest, end) :- ParseFrom(data, offsets[1..], offset + 24 + len);
          Some(([p] + rest, end))
  }

  /** More payloads in front. */
  function After(payloads: seq<Payload>, more: Option<(seq<Payload>, nat)>): Option<(seq<Payload>, nat)> {
    var (rest, end) :- more;
    Some((payloads + rest, end))
  }

  method ParsePayloads(data: Bytes, offsets: seq<nat>, consumed: nat) returns (r: Option<(seq<Payload>, nat)>)
    ensures r == ParseFrom(data, offsets, consumed)
  {
    hide Word, PayloadAt;
    var payloads: seq<Payload>, end: nat := [], consumed;
    assert offsets[0..] == offsets;
    assert forall rest: seq<Payload> :: [] + rest == rest && rest + [] == rest;
    ghost var all := ParseFrom(data, offsets, consumed);
    assert all.Some? ==> [] + all.value.0 == all.value.0;
    for y := 0 to |offsets|
      invariant ParseFrom(data, offsets, consumed) == After(payloads, ParseFrom(data, offsets[y..], end))
    {
      var offset := offsets[y];
      assert offsets[y..][1..] == offsets[y + 1..];
      end := offset;
      var len := Word(data, offset + 16);
      if offset + 24 > |data| || len < 0 || offset + 24 + len > |data| {
        return Some((payloads, end));
      }
      match PayloadAt(data, offset, len) {
        case Escapes => return None;
        case PassedOver =>
        case Made(p) =>
          end := end + 24 + len;
          ghost var rest := ParseFrom(data, offsets[y + 1..], end);
          assert rest.Some? ==> payloads + ([p] + rest.value.0) == (payloads + [p]) + rest.value.0;
          payloads := payloads + [p];
      }
    }
    return Some((payloads, end));
  }

  function Leftover(data: Bytes, consumed: nat): Spill {
    if consumed < |data| then Spill(data, consumed) else NoSpill
  }

  /** How much of a read belongs to the frame left over from before. */
  function SpillSize(data: Bytes, offsets: seq<nat>): nat { if offsets == [] then |data| else offsets[0] }

  /**
   `deserialize`: the payloads of a read and what is left over. The count of consumed bytes is one
   variable: what completing the old frame leaves in it is where a read without frames starts from.
   */
  function Deserialize(net: Net, data: Bytes, prev: Spill): Option<(seq<Payload>, Spill)>
  {
    var offsets := ProcessPacket(net, data);
    var size := SpillSize(data, offsets);
    if prev.NoSpill? || size == 0 then
      var (payloads, end) :- ParseFrom(data, offsets, 0);
      Some((payloads, Leftover(data, end)))
    else
      var whole := prev.data + data[..size];
      var (first, used) :- ParseFrom(whole, [prev.at], 0);
      var (payloads, end) :- ParseFrom(data, offsets, used + size);
      if payloads == [] && Leftover(data, end).NoSpill? then Some((first, Leftover(whole, used)))
      else Some((first + payloads, Leftover(data, end)))
  }

  /** Reads one after the other, what is left over handed on; None at the end if an exception ended it. */
  function Feed(net: Net, chunks: seq<Bytes>, spill: Spill): (seq<Payload>, Option<Spill>) {
    if chunks == [] then ([], Some(spill)) else
    match Deserialize(net, chunks[0], spill)
    case None => ([], None)
    case Some((ps, left)) =>
      var (more, end) := Feed(net, chunks[1..], left);
      (ps + more, end)
  }

  /** The reading side: what is left over from one read is kept for the next. */
  class BitcoinP2P {
    const net: Net
    var packet: Spill
    // The thread's loop has not been left by an exception.
    var reading: bool

    constructor (net: Net)
      ensures this.net == net && packet == NoSpill && reading
    {
      this.net, packet, reading := net, NoSpill, true;
    }

    /** One round of `processDataStackThread`; an exception ends it for good, with nothing handed on. */
    method ProcessData(data: Bytes) returns (payloads: seq<Payload>)
      requires reading
      modifies this
      ensures reading == Deserialize(net, data, old(packet)).Some?
      ensures reading ==> Deserialize(net, data, old(packet)) == Some((payloads, packet))
      ensures !reading ==> payloads == [] && packet == NoSpill
    {
      hide ParseFrom, ProcessPacket;
      var prev := packet;
      packet := NoSpill;
      var offsets := FindFrames(net, data);
      var consumed, first, extra := 0, [], NoSpill;
      var size := SpillSize(data, offsets);
      var patched := prev.Spill? && size != 0;
      if patched {
        var whole := prev.data + data[..size];
        var spilled := ParsePayloads(whole, [prev.at], 0);
        if spilled.None? {
          reading := false;
          return [];
        }
        first, consumed := spilled.value.0, spilled.value.1;
        extra := Leftover(whole, consumed);
        consumed := consumed + size;
      }
      var parsed := ParsePayloads(data, offsets, consumed);
      if parsed.None? {
        reading := false;
        return [];
      }
      payloads, consumed := parsed.value.0, parsed.value.1;
      packet := Leftover(data, consumed);
      if patched {
        if payloads == [] && packet.NoSpill? {
          packet := extra;
          assert first + payloads == first;
        }
        payloads := first + payloads;
      }
    }

    /** `processDataStackThread`: all payloads handed on, read by read. */
    method ProcessDataStack(chunks: seq<Bytes>) returns (payloads: seq<Payload>)
      requires reading
      modifies this
      ensures payloads == Feed(net, chunks, old(packet)).0
      ensures Feed(net, chunks, old(packet)).1 == if reading then Some(packet) else None
    {
      hide Deserialize;
      payloads := [];
      var i := 0;
      assert chunks[0..] == chunks;
      ghost var all := Feed(net, chunks, packet);
      while i < |chunks| && reading
        invariant i <= |chunks|
        invariant reading ==> var (more, end) := Feed(net, chunks[i..], packet);
                              all.0 == payloads + more && all.1 == end
        invariant !reading ==> all.0 == payloads && all.1 == None
      {
        assert chunks[i..][1..] == chunks[i + 1..];
        ghost var before := packet;
        var ps := ProcessData(chunks[i]);
        if reading {
          ghost var more := Feed(net, chunks[i + 1..], packet).0;
          assert Feed(net, chunks[i..], before).0 == ps + more;
          assert payloads + (ps + more) == (payloads + ps) + more;
        }
        payloads := payloads + ps;
        i := i + 1;
      }
    }
  }
}
