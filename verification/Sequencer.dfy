/**
 The message sequencer: a pool of parser threads that share one packet queue and
 must execute each client's commands in id order, each once
 (`BDV_Server_Object::processPayload`, `Clients::messageParserThread`).

 The parser threads are a transition system over their atomic steps. The queue is a
 multiset, so a run may take packets from it in any order.
 */
module Sequencer {
  import opened Wrappers
  import opened Bytes
  import opened PartialMessage

  // ----- One client ---------------------------------------------------------

  /** `pending` is messageMap_, `last` is lastValidMessageId_. */
  datatype Bdv = Bdv(pending: map<nat, Partial>, last: nat)

  datatype Outcome = NotReady | Failure | Consumed(id: nat, content: Bytes)

  function NextId(last: nat): nat { (last + 1) % 0x1_0000_0000 }

  predicate NextReady(b: Bdv) {
    NextId(b.last) in b.pending && Ready(b.pending[NextId(b.last)])
  }

  /** Takes the next message out of the map and hands it on. */
  function Consume(b: Bdv): (Bdv, Outcome) {
    var next := NextId(b.last);
    if !NextReady(b) then (b, NotReady)
    else (Bdv(b.pending - {next}, next), Consumed(next, Content(b.pending[next])))
  }

  function Held(b: Bdv, id: nat): Partial { if id in b.pending then b.pending[id] else EMPTY }

  function ProcessPayload(b: Bdv, p: Packet): (Bdv, Outcome) {
    if !HasId(p) then Consume(b) else
    match Parse(Held(b, p.id), p)
    case None => (b.(pending := b.pending[p.id := Held(b, p.id)]), Failure)
    case Some(m) =>
      var b1 := b.(pending := b.pending[p.id := m]);
      if Ready(m) && p.id == NextId(b.last) then Consume(b1) else (b1, NotReady)
  }

  class BDV_Server_Object {
    var messageMap: map<nat, Partial>
    var lastValidMessageId: nat

    function View(): Bdv
      reads this
    {
      Bdv(messageMap, lastValidMessageId)
    }

    constructor ()
      ensures View() == Bdv(map[], 0)
    {
      messageMap, lastValidMessageId := map[], 0;
    }

    /** The tail of processPayload: move the next message out, if it is complete. */
    method ConsumeNext() returns (result: Outcome)
      modifies this
      ensures (View(), result) == Consume(old(View()))
    {
      var nextId := (lastValidMessageId + 1) % 0x1_0000_0000;
      if nextId !in messageMap || !Ready(messageMap[nextId]) {
        return NotReady;
      }
      var msg := messageMap[nextId];
      messageMap := messageMap - {nextId};
      lastValidMessageId := nextId;
      return Consumed(nextId, Content(msg));
    }

    method ProcessPacket(p: Packet) returns (result: Outcome)
      modifies this
      ensures (View(), result) == ProcessPayload(old(View()), p)
    {
      if HasId(p) {
        var id := p.id;
        if id !in messageMap {
          messageMap := messageMap[id := EMPTY];
        }
        ghost var held := messageMap;
        assert held == old(messageMap)[id := Held(old(View()), id)];
        var parsed := Parse(messageMap[id], p);
        if parsed.None? {
          return Failure;
        }
        messageMap := messageMap[id := parsed.value];
        assert messageMap == old(messageMap)[id := parsed.value];
        if !Ready(messageMap[id]) || id != NextId(lastValidMessageId) {
          return NotReady;
        }
      }
      result := ConsumeNext();
    }
  }

  // ----- The thread pool ----------------------------------------------------

  type ClientId = nat
  type ThreadId = nat

  datatype Payload = Payload(client: ClientId, packet: Packet)

  /** A reply on its way out, with the id it will carry and what it answers. */
  datatype Answer = Answer(client: ClientId, id: nat, content: Bytes)

  /** Where a parser thread stands in its loop. */
  datatype Thread =
    | Idle
    | Popped(p: Payload)                                  // before the compare-and-swap
    | Locked(p: Payload)                                  // lock taken, payload not processed yet
    | Processed(client: ClientId, ans: Option<Answer>)    // payload processed, lock held
    | Flagged(client: ClientId, ans: Option<Answer>)      // next message looked for, lock held
    | Released(ans: Option<Answer>)                       // lock given back, reply not written yet

  /** `log` lists what was consumed; `submitted` and `processed` what was queued and processed. */
  datatype Client = Client(
    bdv: Bdv, locked: bool, log: seq<Outcome>, submitted: set<Packet>, processed: set<Packet>)

  datatype System = System(
    clients: map<ClientId, Client>, queue: multiset<Payload>, threads: map<ThreadId, Thread>, replies: seq<Answer>)

  /** The atomic steps of the pool, and the arrival of a packet. */
  datatype Action =
    | Submit(client: ClientId, packet: Packet)
    | Pop(t: ThreadId, p: Payload)
    | TryLock(t: ThreadId, spurious: bool)                // a weak compare-and-swap may fail at will
    | Process(t: ThreadId, replies: bool)                 // whether the command has a reply
    | PostFlag(t: ThreadId)
    | Release(t: ThreadId)
    | WriteReply(t: ThreadId)

  function NewClient(): Client { Client(Bdv(map[], 0), false, [], {}, {}) }

  predicate Initial(x: System) {
    && (forall c :: c in x.clients ==> x.clients[c] == NewClient())
    && (forall t :: t in x.threads ==> x.threads[t] == Idle)
    && x.queue == multiset{} && x.replies == []
  }

  function SetThread(x: System, t: ThreadId, th: Thread): System { x.(threads := x.threads[t := th]) }

  function SetClient(x: System, c: ClientId, cl: Client): System { x.(clients := x.clients[c := cl]) }

  function At(x: System, t: ThreadId): Thread { if t in x.threads then x.threads[t] else Idle }

  function DoSubmit(x: System, c: ClientId, p: Packet): System
    requires c in x.clients
  {
    SetClient(x, c, x.clients[c].(submitted := x.clients[c].submitted + {p}))
      .(queue := x.queue + multiset{Payload(c, p)})
  }

  function DoTryLock(x: System, t: ThreadId, spurious: bool): System
    requires At(x, t).Popped? && At(x, t).p.client in x.clients
  {
    var p := At(x, t).p;
    if x.clients[p.client].locked || spurious then SetThread(x, t, Idle).(queue := x.queue + multiset{p})
    else SetThread(SetClient(x, p.client, x.clients[p.client].(locked := true)), t, Locked(p))
  }

  function DoProcess(x: System, t: ThreadId, replies: bool): System
    requires At(x, t).Locked? && At(x, t).p.client in x.clients
  {
    var p := At(x, t).p;
    var cl := x.clients[p.client];
    var (b, o) := ProcessPayload(cl.bdv, p.packet);
    var ans := if o.Consumed? && replies then Some(Answer(p.client, o.id, o.content)) else None;
    var cl1 := cl.(bdv := b, log := if o.Consumed? then cl.log + [o] else cl.log,
                   processed := cl.processed + {p.packet});
    SetThread(SetClient(x, p.client, cl1), t, Processed(p.client, ans))
  }

  function DoPostFlag(x: System, t: ThreadId): System
    requires At(x, t).Processed? && At(x, t).client in x.clients
  {
    var th := At(x, t);
    SetThread(x, t, Flagged(th.client, th.ans)).(
      queue := if NextReady(x.clients[th.client].bdv)
               then x.queue + multiset{Payload(th.client, NoData)} else x.queue)
  }

  function Next(x: System, a: Action): System {
    match a
    case Submit(c, p) => if c in x.clients && WellFormed(p) then DoSubmit(x, c, p) else x
    case Pop(t, p) =>
      if t in x.threads && x.threads[t].Idle? && p in x.queue
      then SetThread(x, t, Popped(p)).(queue := x.queue - multiset{p}) else x
    case TryLock(t, spurious) =>
      if At(x, t).Popped? && At(x, t).p.client in x.clients then DoTryLock(x, t, spurious) else x
    case Process(t, replies) =>
      if At(x, t).Locked? && At(x, t).p.client in x.clients then DoProcess(x, t, replies) else x
    case PostFlag(t) =>
      if At(x, t).Processed? && At(x, t).client in x.clients then DoPostFlag(x, t) else x
    case Release(t) =>
      if At(x, t).Flagged? && At(x, t).client in x.clients
      then var th := At(x, t);
           SetThread(SetClient(x, th.client, x.clients[th.client].(locked := false)), t, Released(th.ans))
      else x
    case WriteReply(t) =>
      if At(x, t).Released?
      then SetThread(x, t, Idle).(replies := x.replies + match At(x, t).ans { case None => [] case Some(r) => [r] })
      else x
  }

  function Run(x: System, acts: seq<Action>): System {
    if acts == [] then x else Next(Run(x, acts[..|acts| - 1]), acts[|acts| - 1])
  }
}
