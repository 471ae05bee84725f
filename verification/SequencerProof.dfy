/** What the sequencer keeps over every run of its thread pool. */
module SequencerProof {
  import opened Wrappers
  import opened Bytes
  import opened PartialMessage
  import opened Sequencer

  // ----- Invariant ----------------------------------------------------------

  /** The thread is between taking and giving back the lock of client c. */
  predicate Inside(th: Thread, c: ClientId) {
    match th
    case Locked(p) => p.client == c
    case Processed(d, _) => d == c
    case Flagged(d, _) => d == c
    case _ => false
  }

  function Pending(th: Thread): Option<Answer> {
    match th
    case Processed(_, ans) => ans
    case Flagged(_, ans) => ans
    case Released(ans) => ans
    case _ => None
  }

  /** The consumed ids are exactly 1, 2, 3, ... */
  ghost predicate Counting(cl: Client) {
    && |cl.log| == cl.bdv.last < UINT32_MAX
    && (forall i :: 0 <= i < |cl.log| ==> cl.log[i].Consumed? && cl.log[i].id == i + 1)
    && (forall id :: id in cl.bdv.pending ==> id < UINT32_MAX)
  }

  ghost predicate Exclusive(x: System) {
    && (forall t, c :: t in x.threads && Inside(x.threads[t], c) ==> c in x.clients && x.clients[c].locked)
    && (forall t, u, c :: t in x.threads && u in x.threads && t != u && Inside(x.threads[t], c) ==>
          !Inside(x.threads[u], c))
    && (forall c :: c in x.clients && x.clients[c].locked ==> exists t :: t in x.threads && Inside(x.threads[t], c))
  }

  /** The reply carries the id of the message it answers. */
  predicate Truthful(x: System, a: Answer) {
    && a.client in x.clients
    && 1 <= a.id <= |x.clients[a.client].log|
    && x.clients[a.client].log[a.id - 1] == Consumed(a.id, a.content)
  }

  predicate Key(a: Answer, b: Answer) { a.client == b.client && a.id == b.id }

  /** Replies, written or about to be, are truthful, and no message has two. */
  ghost predicate Answered(x: System) {
    && (forall i :: 0 <= i < |x.replies| ==> Truthful(x, x.replies[i]))
    && (forall i, j :: 0 <= i < j < |x.replies| ==> !Key(x.replies[i], x.replies[j]))
    && (forall t :: t in x.threads && Pending(x.threads[t]).Some? ==> Truthful(x, Pending(x.threads[t]).value))
    && (forall t, i :: t in x.threads && Pending(x.threads[t]).Some? && 0 <= i < |x.replies| ==>
          !Key(Pending(x.threads[t]).value, x.replies[i]))
    && (forall t, u :: t in x.threads && u in x.threads && t != u && Pending(x.threads[t]).Some? ==>
          Pending(x.threads[u]).Some? ==> !Key(Pending(x.threads[t]).value, Pending(x.threads[u]).value))
  }

  /** A packet for c is queued, or popped by a thread that has yet to try the lock. */
  ghost predicate Available(x: System, c: ClientId) {
    || (exists p :: p in x.queue && p.client == c)
    || (exists t :: t in x.threads && x.threads[t].Popped? && x.threads[t].p.client == c)
  }

  /** No thread is inside for c, or the one inside has already looked for the next message. */
  ghost predicate Settled(x: System, c: ClientId) {
    forall t :: t in x.threads && Inside(x.threads[t], c) ==> x.threads[t].Flagged?
  }

  ghost predicate NoStall(x: System) {
    forall c :: c in x.clients && Settled(x, c) && NextReady(x.clients[c].bdv) ==> Available(x, c)
  }

  ghost predicate OnTheWay(x: System, c: ClientId, p: Packet) {
    || Payload(c, p) in x.queue
    || exists t :: t in x.threads && (x.threads[t].Popped? || x.threads[t].Locked?) && x.threads[t].p == Payload(c, p)
  }

  /** Nothing submitted is lost, nothing is made up but flags. */
  ghost predicate Conserved(x: System) {
    && (forall c, p :: c in x.clients && p in x.clients[c].submitted ==>
          p in x.clients[c].processed || OnTheWay(x, c, p))
    && (forall c, p :: c in x.clients && (p in x.clients[c].processed || OnTheWay(x, c, p)) ==>
          p in x.clients[c].submitted || p == NoData)
  }

  ghost predicate Inv(x: System) {
    && (forall c :: c in x.clients ==> Counting(x.clients[c]))
    && Exclusive(x) && Answered(x) && NoStall(x) && Conserved(x)
  }

  // ----- One client's step --------------------------------------------------

  /** A packet only adds its own id to the map, and what is consumed is the next id, if it is there. */
  lemma ProcessEffect(b: Bdv, p: Packet)
    ensures var (b1, o) := ProcessPayload(b, p);
            && (forall id :: id in b1.pending ==> id in b.pending || (HasId(p) && id == p.id))
            && (if o.Consumed? then
                  && o.id == b1.last == NextId(b.last)
                  && (o.id in b.pending || (HasId(p) && o.id == p.id))
                else b1.last == b.last)
  {
  }

  /** Processing any packet keeps the count and, if it consumes a message, consumes the next id. */
  lemma ProcessCounts(cl: Client, p: Packet)
    requires Counting(cl)
    ensures var (b, o) := ProcessPayload(cl.bdv, p);
            && Counting(cl.(bdv := b, log := if o.Consumed? then cl.log + [o] else cl.log))
            && (o.Consumed? ==> o.id == |cl.log| + 1)
  {
    hide ProcessPayload;
    ProcessEffect(cl.bdv, p);
  }

  // ----- Each part is kept by each step -------------------------------------

  lemma CountingKept(x: System, a: Action)
    requires forall c :: c in x.clients ==> Counting(x.clients[c])
    ensures forall c :: c in Next(x, a).clients ==> Counting(Next(x, a).clients[c])
  {
    hide ProcessPayload;
    var y := Next(x, a);
    if a.Process? {
      if At(x, a.t).Locked? && At(x, a.t).p.client in x.clients {
        var p := At(x, a.t).p;
        ProcessCounts(x.clients[p.client], p.packet);
        assert y.clients == x.clients[p.client := y.clients[p.client]];
      }
    } else {
      forall c | c in y.clients ensures Counting(y.clients[c]) {
        SameClients(x, a);
        OthersUnmoved(x, a, c);
      }
    }
  }

  /** A step that moves thread t without taking it across a lock. */
  lemma SameInsideKeeps(x: System, y: System, t: ThreadId)
    requires Exclusive(x) && t in x.threads && t in y.threads && y.threads == x.threads[t := y.threads[t]]
    requires forall c :: Inside(y.threads[t], c) == Inside(x.threads[t], c)
    requires y.clients.Keys == x.clients.Keys
    requires forall c :: c in x.clients ==> y.clients[c].locked == x.clients[c].locked
    ensures Exclusive(y)
  {
    assert forall u, c :: u in x.threads ==> Inside(y.threads[u], c) == Inside(x.threads[u], c);
    forall c | c in y.clients && y.clients[c].locked
      ensures exists u :: u in y.threads && Inside(y.threads[u], c)
    {
      var u :| u in x.threads && Inside(x.threads[u], c);
      assert Inside(y.threads[u], c);
    }
  }

  lemma LockTakenKeeps(x: System, t: ThreadId, spurious: bool)
    requires Exclusive(x) && At(x, t).Popped? && At(x, t).p.client in x.clients
    requires !x.clients[At(x, t).p.client].locked && !spurious
    ensures Exclusive(Next(x, TryLock(t, spurious)))
  {
    hide ProcessPayload;
    var y := Next(x, TryLock(t, spurious));
    var mine := At(x, t).p.client;
    assert y.threads == x.threads[t := Locked(At(x, t).p)];
    forall c | c in y.clients && y.clients[c].locked
      ensures exists u :: u in y.threads && Inside(y.threads[u], c)
    {
      if c == mine {
        assert Inside(y.threads[t], c);
      } else {
        var u :| u in x.threads && Inside(x.threads[u], c);
        assert Inside(y.threads[u], c);
      }
    }
  }

  lemma LockReleasedKeeps(x: System, t: ThreadId)
    requires Exclusive(x) && At(x, t).Flagged? && At(x, t).client in x.clients
    ensures Exclusive(Next(x, Release(t)))
  {
    hide ProcessPayload;
    var y := Next(x, Release(t));
    var mine := At(x, t).client;
    assert Inside(x.threads[t], mine);
    forall c | c in y.clients && y.clients[c].locked
      ensures exists u :: u in y.threads && Inside(y.threads[u], c)
    {
      assert c != mine;
      var u :| u in x.threads && Inside(x.threads[u], c);
      assert Inside(y.threads[u], c);
    }
  }

  lemma SubmitKeeps(x: System, c: ClientId, p: Packet)
    requires Exclusive(x)
    ensures Exclusive(Next(x, Submit(c, p)))
  {
    var y := Next(x, Submit(c, p));
    assert y.threads == x.threads;
    forall d | d in y.clients ensures d in x.clients && y.clients[d].locked == x.clients[d].locked {
    }
  }

  lemma ExclusiveKept(x: System, a: Action)
    requires Exclusive(x)
    ensures Exclusive(Next(x, a))
  {
    hide ProcessPayload, Exclusive;
    var y := Next(x, a);
    match a {
      case Submit(c, p) => SubmitKeeps(x, c, p);
      case TryLock(t, spurious) =>
        if At(x, t).Popped? && At(x, t).p.client in x.clients {
          if x.clients[At(x, t).p.client].locked || spurious {
            SameInsideKeeps(x, y, t);
          } else {
            LockTakenKeeps(x, t, spurious);
          }
        }
      case Release(t) =>
        if At(x, t).Flagged? && At(x, t).client in x.clients {
          LockReleasedKeeps(x, t);
        }
      case _ =>
        if y != x {
          SameInsideKeeps(x, y, a.t);
        }
    }
  }

  /** Clients only ever append to their logs, so a truthful reply stays truthful. */
  lemma TruthfulKept(x: System, a: Action, ans: Answer)
    requires Truthful(x, ans)
    ensures Truthful(Next(x, a), ans)
  {
    hide ProcessPayload;
  }

  /** A step that leaves every pending reply where it is. */
  lemma SamePendingKeeps(x: System, a: Action)
    requires Answered(x) && Next(x, a).replies == x.replies && Next(x, a).threads.Keys == x.threads.Keys
    requires forall t :: t in x.threads ==> Pending(Next(x, a).threads[t]) == Pending(x.threads[t])
    ensures Answered(Next(x, a))
  {
    hide ProcessPayload;
    forall ans | Truthful(x, ans) ensures Truthful(Next(x, a), ans) {
      TruthfulKept(x, a, ans);
    }
  }

  lemma ProcessAnswers(x: System, t: ThreadId, replies: bool)
    requires Answered(x) && At(x, t).Locked? && At(x, t).p.client in x.clients
    requires Counting(x.clients[At(x, t).p.client])
    ensures Answered(Next(x, Process(t, replies)))
  {
    hide ProcessPayload;
    var a := Process(t, replies);
    var y := Next(x, a);
    assert y.replies == x.replies && y.threads == x.threads[t := y.threads[t]];
    forall ans | Truthful(x, ans) ensures Truthful(y, ans) {
      TruthfulKept(x, a, ans);
    }
    var p := At(x, t).p;
    ProcessCounts(x.clients[p.client], p.packet);
    if Pending(y.threads[t]).Some? {
      var latest := Pending(y.threads[t]).value;
      assert latest.id == |x.clients[p.client].log| + 1;
      assert Truthful(y, latest);
      assert forall ans :: Truthful(x, ans) ==> !Key(latest, ans) && !Key(ans, latest);
    }
  }

  lemma WriteAnswers(x: System, t: ThreadId)
    requires Answered(x) && At(x, t).Released?
    ensures Answered(Next(x, WriteReply(t)))
  {
    hide ProcessPayload;
    var y := Next(x, WriteReply(t));
    assert y.threads == x.threads[t := Idle] && y.clients == x.clients;
    assert forall ans :: Truthful(x, ans) ==> Truthful(y, ans);
    var ans := At(x, t).ans;
    if ans.Some? {
      assert Pending(x.threads[t]) == ans;
      assert y.replies == x.replies + [ans.value];
    }
  }

  lemma AnsweredKept(x: System, a: Action)
    requires Inv(x)
    ensures Answered(Next(x, a))
  {
    match a {
      case Process(t, replies) =>
        if At(x, t).Locked? && At(x, t).p.client in x.clients {
          ProcessAnswers(x, t, replies);
        }
      case WriteReply(t) =>
        if At(x, t).Released? {
          WriteAnswers(x, t);
        }
      case _ =>
        PendingUnmoved(x, a);
        SamePendingKeeps(x, a);
    }
  }

  lemma PendingUnmoved(x: System, a: Action)
    requires !a.Process? && !a.WriteReply?
    ensures Next(x, a).replies == x.replies && Next(x, a).threads.Keys == x.threads.Keys
    ensures forall t :: t in x.threads ==> Pending(Next(x, a).threads[t]) == Pending(x.threads[t])
  {
    hide ProcessPayload;
    var y := Next(x, a);
    if y != x && !a.Submit? {
      assert y.threads == x.threads[a.t := y.threads[a.t]];
      assert Pending(y.threads[a.t]) == Pending(x.threads[a.t]);
    }
  }

  // ----- No stall -----------------------------------------------------------

  lemma NoStallKept(x: System, a: Action)
    requires NoStall(x)
    ensures NoStall(Next(x, a))
  {
    hide ProcessPayload;
    var y := Next(x, a);
    SameClients(x, a);
    forall c | c in y.clients && Settled(y, c) && NextReady(y.clients[c].bdv)
      ensures Available(y, c)
    {
      if a.PostFlag? && y != x && At(x, a.t).client == c {
        assert Payload(c, NoData) in y.queue;
      } else {
        SettledBefore(x, a, c);
        AvailableKept(x, a, c);
      }
    }
  }

  /** Unless the step posts the flag for c, c was settled and its next message ready before. */
  lemma SettledBefore(x: System, a: Action, c: ClientId)
    requires c in x.clients && c in Next(x, a).clients
    requires Settled(Next(x, a), c) && NextReady(Next(x, a).clients[c].bdv)
    requires a.PostFlag? && Next(x, a) != x ==> At(x, a.t).client != c
    ensures Settled(x, c) && NextReady(x.clients[c].bdv)
  {
    hide Next;
    if Processes(x, a, c) {
      StillInside(x, a, c);
      assert false;
    }
    OthersUnmoved(x, a, c);
    forall t | t in x.threads && Inside(x.threads[t], c) ensures x.threads[t].Flagged? {
      if !x.threads[t].Flagged? {
        StaysInside(x, a, c, t);
      }
    }
  }

  /** The step processes a packet of client c. */
  predicate Processes(x: System, a: Action, c: ClientId) {
    a.Process? && At(x, a.t).Locked? && At(x, a.t).p.client == c
  }

  lemma StillInside(x: System, a: Action, c: ClientId)
    requires c in x.clients && Processes(x, a, c)
    ensures !Settled(Next(x, a), c)
  {
    hide ProcessPayload;
    assert a.t in Next(x, a).threads && Inside(Next(x, a).threads[a.t], c);
  }

  /** A thread inside that has yet to post its flag is moved by processing or posting alone. */
  lemma StaysInside(x: System, a: Action, c: ClientId, t: ThreadId)
    requires c in x.clients && t in x.threads && Inside(x.threads[t], c) && !x.threads[t].Flagged?
    requires !Processes(x, a, c) && (a.PostFlag? && Next(x, a) != x ==> At(x, a.t).client != c)
    ensures t in Next(x, a).threads && Next(x, a).threads[t] == x.threads[t]
  {
    hide ProcessPayload;
  }

  lemma AvailableKept(x: System, a: Action, c: ClientId)
    requires c in x.clients && Settled(Next(x, a), c) && Available(x, c)
    ensures Available(Next(x, a), c)
  {
    hide ProcessPayload;
    var y := Next(x, a);
    if p :| p in x.queue && p.client == c {
      QueuedStaysAvailable(x, a, p);
    } else {
      var t :| t in x.threads && x.threads[t].Popped? && x.threads[t].p.client == c;
      if y == x || a.Submit? || a.t != t {
        assert y.threads[t] == x.threads[t];
      } else if y.threads[t].Idle? {
        assert x.threads[t].p in y.queue;
      }
    }
  }

  lemma QueuedStaysAvailable(x: System, a: Action, p: Payload)
    requires p in x.queue
    ensures Available(Next(x, a), p.client)
  {
    hide ProcessPayload;
    var y := Next(x, a);
    if a.Pop? && a.p == p && y != x {
      assert y.threads[a.t] == Popped(p);
    } else {
      assert p in y.queue;
    }
  }

  // ----- Conservation -------------------------------------------------------

  lemma StaysOnTheWay(x: System, a: Action, c: ClientId, p: Packet)
    requires c in x.clients && OnTheWay(x, c, p)
    ensures OnTheWay(Next(x, a), c, p) || p in Next(x, a).clients[c].processed
  {
    hide ProcessPayload;
    var y := Next(x, a);
    if y != x {
      if Payload(c, p) in x.queue {
        if a.Pop? && a.p == Payload(c, p) {
          assert y.threads[a.t].p == Payload(c, p);
        } else {
          assert Payload(c, p) in y.queue;
        }
      } else {
        var t :| t in x.threads && (x.threads[t].Popped? || x.threads[t].Locked?) && x.threads[t].p == Payload(c, p);
        CarriedOn(x, a, t);
      }
    }
  }

  lemma CarriedOn(x: System, a: Action, t: ThreadId)
    requires t in x.threads && (x.threads[t].Popped? || x.threads[t].Locked?) && x.threads[t].p.client in x.clients
    ensures var p := x.threads[t].p;
            OnTheWay(Next(x, a), p.client, p.packet) || p.packet in Next(x, a).clients[p.client].processed
  {
    hide ProcessPayload;
    var y := Next(x, a);
    var p := x.threads[t].p;
    assert p == Payload(p.client, p.packet);
    if y == x || a.Submit? || a.t != t {
      assert y.threads[t] == x.threads[t];
    } else if a.TryLock? {
      assert p in y.queue || y.threads[t] == Locked(p);
    } else {
      assert a.Process?;
    }
  }

  lemma CameFromTheWay(x: System, a: Action, c: ClientId, p: Packet)
    requires c in x.clients && OnTheWay(Next(x, a), c, p)
    ensures OnTheWay(x, c, p) || p == NoData || p in Next(x, a).clients[c].submitted
  {
    hide ProcessPayload;
    var y := Next(x, a);
    if Payload(c, p) in y.queue {
      QueuedFrom(x, a, c, p);
    } else {
      var t :| t in y.threads && (y.threads[t].Popped? || y.threads[t].Locked?) && y.threads[t].p == Payload(c, p);
      if y == x || a.Submit? || a.t != t {
        assert y.threads[t] == x.threads[t];
      } else if a.Pop? {
        assert Payload(c, p) in x.queue;
      } else {
        assert x.threads[t] == Popped(Payload(c, p));
      }
    }
  }

  lemma QueuedFrom(x: System, a: Action, c: ClientId, p: Packet)
    requires c in x.clients && Payload(c, p) in Next(x, a).queue
    ensures OnTheWay(x, c, p) || p == NoData || p in Next(x, a).clients[c].submitted
  {
    hide ProcessPayload;
    if a.TryLock? && Payload(c, p) !in x.queue {
      assert x.threads[a.t] == Popped(Payload(c, p));
    }
  }

  lemma ProcessedGrows(x: System, a: Action, c: ClientId)
    requires c in x.clients
    ensures c in Next(x, a).clients
    ensures x.clients[c].processed <= Next(x, a).clients[c].processed
    ensures x.clients[c].submitted <= Next(x, a).clients[c].submitted
    ensures forall p :: p in Next(x, a).clients[c].processed ==> p in x.clients[c].processed || OnTheWay(x, c, p)
    ensures forall p :: p in Next(x, a).clients[c].submitted ==>
              p in x.clients[c].submitted || OnTheWay(Next(x, a), c, p)
  {
    hide ProcessPayload;
  }

  lemma ConservedKept(x: System, a: Action)
    requires Inv(x)
    ensures Conserved(Next(x, a))
  {
    hide ProcessPayload;
    var y := Next(x, a);
    forall c, p | c in y.clients && p in y.clients[c].submitted
      ensures p in y.clients[c].processed || OnTheWay(y, c, p)
    {
      ProcessedGrows(x, a, c);
      if OnTheWay(x, c, p) {
        StaysOnTheWay(x, a, c, p);
      }
    }
    forall c, p | c in y.clients && (p in y.clients[c].processed || OnTheWay(y, c, p))
      ensures p in y.clients[c].submitted || p == NoData
    {
      ProcessedGrows(x, a, c);
      if OnTheWay(y, c, p) {
        CameFromTheWay(x, a, c, p);
      }
    }
  }

  lemma {:induction false} RunKeepsInv(x: System, acts: seq<Action>)
    requires Initial(x)
    ensures Inv(Run(x, acts))
  {
    if acts != [] {
      var n := |acts| - 1;
      RunKeepsInv(x, acts[..n]);
      StepKeepsInv(Run(x, acts[..n]), acts[n]);
    }
  }

  lemma StepKeepsInv(x: System, a: Action)
    requires Inv(x)
    ensures Inv(Next(x, a))
  {
    CountingKept(x, a);
    ExclusiveKept(x, a);
    AnsweredKept(x, a);
    NoStallKept(x, a);
    ConservedKept(x, a);
  }

  // ----- Main results: any packets at all -----------------------------------

  /** At any moment of any run, at most one thread is between taking and giving back a client's lock. */
  lemma AtMostOneInside(x: System, acts: seq<Action>, c: ClientId, t: ThreadId, u: ThreadId)
    requires Initial(x)
    requires t in Run(x, acts).threads && Inside(Run(x, acts).threads[t], c)
    requires u in Run(x, acts).threads && Inside(Run(x, acts).threads[u], c)
    ensures t == u
  {
    RunKeepsInv(x, acts);
  }

  /**
   In any run a client's messages are consumed with ids exactly 1, 2, 3, ..., and the replies
   written answer consumed messages, each under its own id and none twice.
   */
  lemma ConsumedInOrderOnce(x: System, acts: seq<Action>)
    requires Initial(x)
    ensures var y := Run(x, acts);
            && (forall c :: c in y.clients ==>
                  && y.clients[c].bdv.last == |y.clients[c].log|
                  && forall i :: 0 <= i < |y.clients[c].log| ==>
                       y.clients[c].log[i].Consumed? && y.clients[c].log[i].id == i + 1)
            && (forall i :: 0 <= i < |y.replies| ==> Truthful(y, y.replies[i]))
            && (forall i, j :: 0 <= i < j < |y.replies| ==> !Key(y.replies[i], y.replies[j]))
  {
    RunKeepsInv(x, acts);
  }

  /** If the next message is ready and no thread is inside, a packet for the client is queued or just popped. */
  lemma NeverStalls(x: System, acts: seq<Action>, c: ClientId)
    requires Initial(x) && c in Run(x, acts).clients && !Run(x, acts).clients[c].locked
    requires NextReady(Run(x, acts).clients[c].bdv)
    ensures Available(Run(x, acts), c)
  {
    RunKeepsInv(x, acts);
  }

  // ----- Honest packets -----------------------------------------------------

  /** Which parts each message is split into. */
  type Plan = MsgId -> seq<Bytes>

  ghost predicate GoodPlan(plan: Plan) { forall id: MsgId :: Plannable(plan(id)) }

  predicate Planned(plan: Plan, p: Packet) {
    HasId(p) ==> exists i: nat :: i < |plan(p.id)| && p == PlannedPacket(p.id, plan(p.id), i)
  }

  function Seen(processed: set<Packet>, id: MsgId, parts: seq<Bytes>): set<nat> {
    set i: nat | i < |parts| && PlannedPacket(id, parts, i) in processed
  }

  predicate FullyIn(packets: set<Packet>, id: MsgId, parts: seq<Bytes>) {
    forall i: nat :: i < |parts| ==> PlannedPacket(id, parts, i) in packets
  }

  /** What is held of every message to come is what was processed of it. */
  ghost predicate Faithful(plan: Plan, cl: Client) {
    && (forall id: MsgId :: id > cl.bdv.last ==>
          Held(cl.bdv, id) == Collected(id, plan(id), Seen(cl.processed, id, plan(id))))
    && (forall id: MsgId :: 1 <= id <= |cl.log| ==>
          FullyIn(cl.processed, id, plan(id)) && cl.log[id - 1] == Consumed(id, Join(plan(id))))
  }

  lemma SeenGrows(processed: set<Packet>, id: MsgId, parts: seq<Bytes>, p: Packet, i: nat)
    requires i < |parts| && p == PlannedPacket(id, parts, i)
    ensures Seen(processed + {p}, id, parts) == Seen(processed, id, parts) + {i}
  {
  }

  lemma SeenUnmoved(processed: set<Packet>, id: MsgId, parts: seq<Bytes>, p: Packet)
    requires HasId(p) ==> p.id != id
    ensures Seen(processed + {p}, id, parts) == Seen(processed, id, parts)
  {
  }

  lemma SeenReady(processed: set<Packet>, id: MsgId, parts: seq<Bytes>)
    requires Plannable(parts)
    ensures Ready(Collected(id, parts, Seen(processed, id, parts))) <==> FullyIn(processed, id, parts)
  {
    var seen := Seen(processed, id, parts);
    CollectedReady(id, parts, seen);
    forall i: nat | i < |parts| ensures i in seen <==> PlannedPacket(id, parts, i) in processed {
    }
  }

  /** Consuming keeps the faith: the message taken out is whole and reads as planned. */
  lemma ConsumeKeepsFaith(plan: Plan, cl: Client)
    requires GoodPlan(plan) && Counting(cl) && Faithful(plan, cl)
    ensures var (b, o) := Consume(cl.bdv);
            Faithful(plan, cl.(bdv := b, log := if o.Consumed? then cl.log + [o] else cl.log))
  {
    if NextReady(cl.bdv) {
      var next: MsgId := cl.bdv.last + 1;
      var seen := Seen(cl.processed, next, plan(next));
      ReadyReadsBack(next, plan(next), seen);
      SeenReady(cl.processed, next, plan(next));
      var cl1 := cl.(bdv := Consume(cl.bdv).0, log := cl.log + [Consume(cl.bdv).1]);
      forall id: MsgId | id > cl1.bdv.last ensures Held(cl1.bdv, id) == Held(cl.bdv, id) {
      }
    }
  }

  /** Parsing a planned packet of a message to come adds exactly its index. */
  lemma ParseKeepsFaith(plan: Plan, cl: Client, p: Packet)
    requires GoodPlan(plan) && Counting(cl) && Faithful(plan, cl) && HasId(p) && Planned(plan, p)
    ensures var m := Parse(Held(cl.bdv, p.id), p);
            Faithful(plan, cl.(processed := cl.processed + {p},
                               bdv := cl.bdv.(pending :=
                                 cl.bdv.pending[p.id := if m.Some? then m.value else Held(cl.bdv, p.id)])))
  {
    var m := Parse(Held(cl.bdv, p.id), p);
    var cl1 := cl.(processed := cl.processed + {p},
                   bdv := cl.bdv.(pending :=
                                 cl.bdv.pending[p.id := if m.Some? then m.value else Held(cl.bdv, p.id)]));
    var i: nat :| i < |plan(p.id)| && p == PlannedPacket(p.id, plan(p.id), i);
    forall id: MsgId | id > cl.bdv.last
      ensures Held(cl1.bdv, id) == Collected(id, plan(id), Seen(cl1.processed, id, plan(id)))
    {
      if id == p.id {
        var seen := Seen(cl.processed, id, plan(id));
        SeenGrows(cl.processed, id, plan(id), p, i);
        ParseCollects(id, plan(id), seen, i);
        assert i in seen ==> seen + {i} == seen;
      } else {
        SeenUnmoved(cl.processed, id, plan(id), p);
      }
    }
  }

  lemma ProcessKeepsFaith(plan: Plan, cl: Client, p: Packet)
    requires GoodPlan(plan) && Counting(cl) && Faithful(plan, cl) && Planned(plan, p)
    ensures var (b, o) := ProcessPayload(cl.bdv, p);
            Faithful(plan, cl.(bdv := b, log := if o.Consumed? then cl.log + [o] else cl.log,
                               processed := cl.processed + {p}))
  {
    if !HasId(p) {
      var cl1 := cl.(processed := cl.processed + {p});
      forall id: MsgId ensures Seen(cl1.processed, id, plan(id)) == Seen(cl.processed, id, plan(id)) {
        SeenUnmoved(cl.processed, id, plan(id), p);
      }
      ConsumeKeepsFaith(plan, cl1);
    } else {
      ParseKeepsFaith(plan, cl, p);
      var m := Parse(Held(cl.bdv, p.id), p);
      if m.Some? {
        var cl1 := cl.(processed := cl.processed + {p},
                       bdv := cl.bdv.(pending := cl.bdv.pending[p.id := m.value]));
        ConsumeKeepsFaith(plan, cl1);
      }
    }
  }

  /**
   Exactly when processing a packet consumes a message: a flag when the next message is complete, a packet
   when it is one of the next message and completes it; only a single packet that comes again does not count.
   */
  lemma ConsumedAtOnce(plan: Plan, cl: Client, p: Packet)
    requires GoodPlan(plan) && Counting(cl) && Faithful(plan, cl) && Planned(plan, p)
    ensures ProcessPayload(cl.bdv, p).1.Consumed? <==>
              var next := cl.bdv.last + 1;
              && next < UINT32_MAX && FullyIn(cl.processed + {p}, next, plan(next))
              && (HasId(p) ==> p.id == next && !(|plan(next)| == 1 && p in cl.processed))
  {
    hide Faithful, Counting, FullyIn, Seen;
    var next := cl.bdv.last + 1;
    NextIsNext(cl);
    if next < UINT32_MAX {
      HeldIs(plan, cl, next);
      if !HasId(p) {
        SeenUnmoved(cl.processed, next, plan(next), p);
        SeenReady(cl.processed + {p}, next, plan(next));
      } else if p.id == next {
        ParsedIs(plan, cl, p);
        SeenReady(cl.processed + {p}, next, plan(next));
      }
    }
  }

  lemma NextIsNext(cl: Client)
    requires Counting(cl)
    ensures NextId(cl.bdv.last) == cl.bdv.last + 1 <= UINT32_MAX
    ensures UINT32_MAX !in cl.bdv.pending
  {
  }

  lemma HeldIs(plan: Plan, cl: Client, id: MsgId)
    requires Faithful(plan, cl) && id > cl.bdv.last
    ensures Held(cl.bdv, id) == Collected(id, plan(id), Seen(cl.processed, id, plan(id)))
    ensures id in cl.bdv.pending && Ready(cl.bdv.pending[id]) <==> Ready(Held(cl.bdv, id))
  {
  }

  lemma ParsedIs(plan: Plan, cl: Client, p: Packet)
    requires GoodPlan(plan) && Faithful(plan, cl) && HasId(p) && Planned(plan, p) && p.id > cl.bdv.last
    ensures var parts, r := plan(p.id), Parse(Held(cl.bdv, p.id), p);
            if |parts| == 1 && p in cl.processed then r.None?
            else r == Some(Collected(p.id, parts, Seen(cl.processed + {p}, p.id, parts)))
  {
    var id, parts := p.id, plan(p.id);
    var i: nat :| i < |parts| && p == PlannedPacket(id, parts, i);
    var seen := Seen(cl.processed, id, parts);
    SeenGrows(cl.processed, id, parts, p, i);
    ParseCollects(id, parts, seen, i);
    assert i in seen <==> p in cl.processed;
  }

  ghost predicate AllPlanned(plan: Plan, packets: set<Packet>) { forall p :: p in packets ==> Planned(plan, p) }

  lemma {:induction false} RunKeepsFaith(plan: Plan, x: System, acts: seq<Action>, c: ClientId)
    requires Initial(x) && GoodPlan(plan) && c in Run(x, acts).clients
    requires AllPlanned(plan, Run(x, acts).clients[c].submitted)
    ensures Faithful(plan, Run(x, acts).clients[c])
  {
    if acts != [] {
      var n := |acts| - 1;
      var y := Run(x, acts[..n]);
      SameClients(y, acts[n]);
      ProcessedGrows(y, acts[n], c);
      RunKeepsFaith(plan, x, acts[..n], c);
      RunKeepsInv(x, acts[..n]);
      StepKeepsFaith(plan, y, acts[n], c);
    }
  }

  lemma SameClients(x: System, a: Action)
    ensures Next(x, a).clients.Keys == x.clients.Keys
  {
    hide ProcessPayload;
  }

  lemma StepKeepsFaith(plan: Plan, x: System, a: Action, c: ClientId)
    requires Conserved(x) && GoodPlan(plan) && c in x.clients && Counting(x.clients[c]) && Faithful(plan, x.clients[c])
    requires AllPlanned(plan, x.clients[c].submitted)
    ensures c in Next(x, a).clients && Faithful(plan, Next(x, a).clients[c])
  {
    if a.Process? && At(x, a.t).Locked? && At(x, a.t).p.client == c {
      var p := At(x, a.t).p.packet;
      assert OnTheWay(x, c, p);
      assert Planned(plan, p);
      ProcessKeepsFaith(plan, x.clients[c], p);
      assert Next(x, a) == DoProcess(x, a.t, a.replies);
    } else {
      OthersUnmoved(x, a, c);
    }
  }

  /** Only processing one of its packets touches a client's messages. */
  lemma OthersUnmoved(x: System, a: Action, c: ClientId)
    requires c in x.clients && !Processes(x, a, c)
    ensures c in Next(x, a).clients
    ensures var cl, cl1 := x.clients[c], Next(x, a).clients[c];
            cl1.bdv == cl.bdv && cl1.log == cl.log && cl1.processed == cl.processed
  {
    hide ProcessPayload;
    var y := Next(x, a);
    match a {
      case Submit(d, p) => assert y == x || y == DoSubmit(x, d, p);
      case Pop(t, p) => assert y.clients == x.clients;
      case TryLock(t, spurious) => assert y == x || y == DoTryLock(x, t, spurious);
      case Process(t, replies) =>
        if y != x {
          assert y.clients == x.clients[At(x, t).p.client := y.clients[At(x, t).p.client]];
        }
      case PostFlag(t) => assert y.clients == x.clients;
      case Release(t) =>
        if y != x {
          assert y.clients == x.clients[At(x, t).client := x.clients[At(x, t).client].(locked := false)];
        }
      case WriteReply(t) => assert y.clients == x.clients;
    }
  }

  // ----- Main results: honest packets ---------------------------------------

  /** Nothing of client c is queued or held by a thread, and no thread is inside. */
  ghost predicate Drained(x: System, c: ClientId) {
    && c in x.clients && !x.clients[c].locked
    && (forall p :: p in x.queue ==> p.client != c)
    && (forall t :: t in x.threads && x.threads[t].Popped? ==> x.threads[t].p.client != c)
  }

  /**
   Whatever the order, duplication and interleaving, every message consumed so far reads exactly
   as it was sent; and once the client's packets are drained, the messages consumed are the longest
   prefix 1..n that was received in full.
   */
  lemma DrainedIsLongestPrefix(plan: Plan, x: System, acts: seq<Action>, c: ClientId)
    requires Initial(x) && GoodPlan(plan) && c in Run(x, acts).clients
    requires AllPlanned(plan, Run(x, acts).clients[c].submitted)
    ensures var cl := Run(x, acts).clients[c];
            && (forall id: MsgId :: 1 <= id <= |cl.log| ==> cl.log[id - 1] == Consumed(id, Join(plan(id))))
            && (forall id: MsgId :: 1 <= id <= cl.bdv.last ==> FullyIn(cl.submitted, id, plan(id)))
            && (Drained(Run(x, acts), c) && cl.bdv.last + 1 < UINT32_MAX ==>
                  !FullyIn(cl.submitted, cl.bdv.last + 1, plan(cl.bdv.last + 1)))
  {
    hide *;
    RunKeepsInv(x, acts);
    RunKeepsFaith(plan, x, acts, c);
    FaithfulPrefix(plan, Run(x, acts), c);
    DrainedPrefix(plan, Run(x, acts), c);
  }

  lemma FaithfulPrefix(plan: Plan, x: System, c: ClientId)
    requires Inv(x) && c in x.clients && Faithful(plan, x.clients[c])
    ensures var cl := x.clients[c];
            && (forall id: MsgId :: 1 <= id <= |cl.log| ==> cl.log[id - 1] == Consumed(id, Join(plan(id))))
            && (forall id: MsgId :: 1 <= id <= cl.bdv.last ==> FullyIn(cl.submitted, id, plan(id)))
  {
    var cl := x.clients[c];
    forall id: MsgId | 1 <= id <= cl.bdv.last ensures FullyIn(cl.submitted, id, plan(id)) {
      ProcessedWasSubmitted(x, c, id, plan(id));
    }
  }

  lemma DrainedPrefix(plan: Plan, x: System, c: ClientId)
    requires Inv(x) && GoodPlan(plan) && c in x.clients && Faithful(plan, x.clients[c])
    ensures var cl := x.clients[c];
            Drained(x, c) && cl.bdv.last + 1 < UINT32_MAX ==>
              !FullyIn(cl.submitted, cl.bdv.last + 1, plan(cl.bdv.last + 1))
  {
    var cl := x.clients[c];
    if Drained(x, c) && cl.bdv.last + 1 < UINT32_MAX {
      var next: MsgId := cl.bdv.last + 1;
      DrainedIsProcessed(x, c);
      assert Settled(x, c) && !Available(x, c);
      SeenReady(cl.processed, next, plan(next));
      assert !Ready(Held(cl.bdv, next));
    }
  }

  lemma ProcessedWasSubmitted(x: System, c: ClientId, id: MsgId, parts: seq<Bytes>)
    requires Conserved(x) && c in x.clients && FullyIn(x.clients[c].processed, id, parts)
    ensures FullyIn(x.clients[c].submitted, id, parts)
  {
  }

  lemma DrainedIsProcessed(x: System, c: ClientId)
    requires Exclusive(x) && Conserved(x) && Drained(x, c)
    ensures x.clients[c].submitted <= x.clients[c].processed
  {
    forall t | t in x.threads && x.threads[t].Locked? ensures x.threads[t].p.client != c {
      assert Inside(x.threads[t], x.threads[t].p.client);
    }
    forall p ensures !OnTheWay(x, c, p) {
    }
  }

  /**
   End to end: if all that a client submits are packets of payloads split by `Serialize`, in any
   order and any number of times, the messages consumed are those payloads, 1, 2, 3, ...; and when
   the client is drained, some packet of the next payload has not been submitted.
   */
  lemma SentPayloadsAreConsumed(payloads: MsgId -> Bytes, x: System, acts: seq<Action>, c: ClientId)
    requires Initial(x) && c in Run(x, acts).clients && forall id: MsgId :: |payloads(id)| <= MAX_PAYLOAD
    requires forall p :: p in Run(x, acts).clients[c].submitted && HasId(p) ==> p in PacketsOf(p.id, payloads(p.id))
    ensures var cl := Run(x, acts).clients[c];
            && (forall id: MsgId :: 1 <= id <= |cl.log| ==> cl.log[id - 1] == Consumed(id, payloads(id)))
            && (Drained(Run(x, acts), c) && cl.bdv.last + 1 < UINT32_MAX ==>
                  exists p :: p in PacketsOf(cl.bdv.last + 1, payloads(cl.bdv.last + 1)) && p !in cl.submitted)
  {
    hide Run, PacketsOf, PartsOf, Drained;
    var plan: Plan := (id: MsgId) => PartsOf(payloads(id));
    var cl := Run(x, acts).clients[c];
    forall id: MsgId ensures Plannable(plan(id)) && Join(plan(id)) == payloads(id) {
      PacketsArePlanned(id, payloads(id));
      CarriedWholeIffWithinLimit(payloads(id));
    }
    forall p | p in cl.submitted ensures Planned(plan, p) {
      if HasId(p) {
        SplitIsPlan(p, payloads(p.id));
      }
    }
    DrainedIsLongestPrefix(plan, x, acts, c);
    if Drained(Run(x, acts), c) && cl.bdv.last + 1 < UINT32_MAX {
      var next: MsgId := cl.bdv.last + 1;
      PacketsArePlanned(next, payloads(next));
      var i: nat :| i < |plan(next)| && PlannedPacket(next, plan(next), i) !in cl.submitted;
      assert PacketsOf(next, payloads(next))[i] !in cl.submitted;
    }
  }

  lemma SplitIsPlan(p: Packet, payload: Bytes)
    requires HasId(p) && |payload| <= MAX_PAYLOAD && p in PacketsOf(p.id, payload)
    ensures exists i: nat :: i < |PartsOf(payload)| && p == PlannedPacket(p.id, PartsOf(payload), i)
  {
    hide PacketsOf, PartsOf;
    PacketsArePlanned(p.id, payload);
    var packets := PacketsOf(p.id, payload);
    var i: nat :| i < |packets| && packets[i] == p;
  }
}
