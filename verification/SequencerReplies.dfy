/** Every message that has a reply is answered: the replies written are exactly those that a run owes. */
module SequencerReplies {
  import opened Wrappers
  import opened Bytes
  import opened PartialMessage
  import opened Sequencer
  import opened SequencerProof

  /** The answer owed after a step: to the message it consumed, if that has a reply. */
  function Due(x: System, a: Action): Option<Answer> {
    if !a.Process? || !a.replies || !At(x, a.t).Locked? || At(x, a.t).p.client !in x.clients then None else
    var c := At(x, a.t).p.client;
    var y := Next(x, a);
    if c !in y.clients || |y.clients[c].log| <= |x.clients[c].log| then None else
    var last := y.clients[c].log[|y.clients[c].log| - 1];
    if last.Consumed? then Some(Answer(c, last.id, last.content)) else None
  }

  /** The answers owed by a run, in the order in which their messages were consumed. */
  function Owed(x: System, acts: seq<Action>): seq<Answer> {
    if acts == [] then [] else
    var front := acts[..|acts| - 1];
    var due := Due(Run(x, front), acts[|acts| - 1]);
    Owed(x, front) + if due.Some? then [due.value] else []
  }

  /** A thread still has to write this answer. */
  ghost predicate InHand(x: System, ans: Answer) {
    exists t :: t in x.threads && Pending(x.threads[t]) == Some(ans)
  }

  lemma ProcessOwes(x: System, t: ThreadId, replies: bool, ans: Answer)
    requires At(x, t).Locked? && At(x, t).p.client in x.clients
    ensures var y := Next(x, Process(t, replies));
            && y.replies == x.replies
            && (InHand(y, ans) <==> InHand(x, ans) || Due(x, Process(t, replies)) == Some(ans))
  {
    hide ProcessPayload;
    var y := Next(x, Process(t, replies));
    assert y.threads == x.threads[t := y.threads[t]] && Pending(x.threads[t]) == None;
    assert Pending(y.threads[t]) == Due(x, Process(t, replies));
    if InHand(x, ans) {
      var u :| u in x.threads && Pending(x.threads[u]) == Some(ans);
      assert Pending(y.threads[u]) == Some(ans);
    }
  }

  lemma WriteOwes(x: System, t: ThreadId, ans: Answer)
    requires At(x, t).Released?
    ensures var y := Next(x, WriteReply(t));
            ans in y.replies || InHand(y, ans) <==> ans in x.replies || InHand(x, ans)
  {
    hide ProcessPayload;
    var y := Next(x, WriteReply(t));
    assert y.threads == x.threads[t := Idle];
    assert Pending(x.threads[t]) == x.threads[t].ans && Pending(y.threads[t]) == None;
    if InHand(x, ans) {
      var u :| u in x.threads && Pending(x.threads[u]) == Some(ans);
      if u != t {
        assert Pending(y.threads[u]) == Some(ans);
      }
    }
  }

  /** A step adds the answer it owes, and nothing else, to those written or in hand. */
  lemma StepOwes(x: System, a: Action, ans: Answer)
    ensures var y := Next(x, a);
            ans in y.replies || InHand(y, ans) <==>
              ans in x.replies || InHand(x, ans) || Due(x, a) == Some(ans)
  {
    hide ProcessPayload, InHand;
    if a.Process? {
      if At(x, a.t).Locked? && At(x, a.t).p.client in x.clients {
        ProcessOwes(x, a.t, a.replies, ans);
      }
    } else if a.WriteReply? {
      if At(x, a.t).Released? {
        WriteOwes(x, a.t, ans);
      }
    } else {
      PendingUnmoved(x, a);
      SameInHand(x, Next(x, a), ans);
    }
  }

  lemma SameInHand(x: System, y: System, ans: Answer)
    requires y.threads.Keys == x.threads.Keys
    requires forall t :: t in x.threads ==> Pending(y.threads[t]) == Pending(x.threads[t])
    ensures InHand(y, ans) <==> InHand(x, ans)
  {
  }

  /** What is written or in hand is exactly what is owed. */
  lemma {:induction false} RunOwes(x: System, acts: seq<Action>, ans: Answer)
    requires Initial(x)
    ensures var y := Run(x, acts);
            ans in y.replies || InHand(y, ans) <==> ans in Owed(x, acts)
  {
    hide Next, Due;
    if acts != [] {
      var front := acts[..|acts| - 1];
      RunOwes(x, front, ans);
      StepOwes(Run(x, front), acts[|acts| - 1], ans);
    }
  }

  /** Answers to messages that were consumed, no message having two. */
  ghost predicate Apart(x: System, answers: seq<Answer>) {
    && (forall i :: 0 <= i < |answers| ==> Truthful(x, answers[i]))
    && (forall i, j :: 0 <= i < j < |answers| ==> !Key(answers[i], answers[j]))
  }

  /** A message is owed at most one answer: ids go up with every message that is consumed. */
  lemma {:induction false} OwedOnce(x: System, acts: seq<Action>)
    requires Initial(x)
    ensures Apart(Run(x, acts), Owed(x, acts))
  {
    hide Next, Due, Apart;
    if acts == [] {
      NothingOwed(x);
    } else {
      var front, a := acts[..|acts| - 1], acts[|acts| - 1];
      OwedOnce(x, front);
      RunKeepsInv(x, front);
      OneMoreOwed(Run(x, front), a, Owed(x, front));
    }
  }

  lemma NothingOwed(x: System)
    ensures Apart(x, [])
  {
  }

  lemma OneMoreOwed(x: System, a: Action, owed: seq<Answer>)
    requires Inv(x) && Apart(x, owed)
    ensures Apart(Next(x, a), owed + if Due(x, a).Some? then [Due(x, a).value] else [])
  {
    hide Next, Due;
    forall i | 0 <= i < |owed| ensures Truthful(Next(x, a), owed[i]) {
      TruthfulKept(x, a, owed[i]);
    }
    if Due(x, a).Some? {
      DueIsNew(x, a);
    }
  }

  /** The answer owed after a step is to the message just logged, which no earlier answer was to. */
  lemma DueIsNew(x: System, a: Action)
    requires Inv(x) && Due(x, a).Some?
    ensures Truthful(Next(x, a), Due(x, a).value)
    ensures forall ans :: Truthful(x, ans) ==> !Key(ans, Due(x, a).value)
  {
    hide ProcessPayload;
    var p := At(x, a.t).p;
    ProcessCounts(x.clients[p.client], p.packet);
  }

  lemma {:induction false} CountOnce(s: seq<Answer>, ans: Answer)
    requires forall i, j :: 0 <= i < j < |s| ==> !Key(s[i], s[j])
    ensures multiset(s)[ans] == if ans in s then 1 else 0
  {
    if s != [] {
      var n := |s| - 1;
      CountOnce(s[..n], ans);
      assert s == s[..n] + [s[n]];
    }
  }

  /**
   In every run, each step that consumes a message with a reply puts the answer, with the id and content
   logged for it, among those written or in a thread's hand; and once no thread has one in hand the
   replies written are exactly the answers owed, each once.
   */
  lemma EveryReplyIsWritten(x: System, acts: seq<Action>)
    requires Initial(x)
    ensures var y, owed := Run(x, acts), Owed(x, acts);
            && (forall ans :: ans in owed <==> ans in y.replies || InHand(y, ans))
            && ((forall t :: t in y.threads ==> y.threads[t].Idle?) ==> multiset(y.replies) == multiset(owed))
  {
    hide Initial;
    var y, owed := Run(x, acts), Owed(x, acts);
    forall ans ensures ans in owed <==> ans in y.replies || InHand(y, ans) {
      RunOwes(x, acts, ans);
    }
    if forall t :: t in y.threads ==> y.threads[t].Idle? {
      OwedOnce(x, acts);
      RunKeepsInv(x, acts);
      forall ans ensures multiset(y.replies)[ans] == multiset(owed)[ans] {
        CountOnce(y.replies, ans);
        CountOnce(owed, ans);
      }
    }
  }

  // ----- A run that serves everyone -----------------------------------------

  /** One packet taken through the whole loop by one thread. */
  function Serve(c: ClientId, t: ThreadId, p: Packet): seq<Action> {
    [Submit(c, p), Pop(t, Payload(c, p)), TryLock(t, false), Process(t, true), PostFlag(t), Release(t), WriteReply(t)]
  }

  function ServeAll(c: ClientId, t: ThreadId, bodies: seq<Bytes>): seq<Action>
    requires |bodies| < UINT32_MAX
  {
    if bodies == [] then [] else
    ServeAll(c, t, bodies[..|bodies| - 1]) + Serve(c, t, Single(|bodies|, bodies[|bodies| - 1]))
  }

  lemma {:induction false} RunAppends(x: System, a: seq<Action>, b: seq<Action>)
    ensures Run(x, a + b) == Run(Run(x, a), b)
    decreases |b|
  {
    hide Next;
    if b == [] {
      assert a + b == a;
    } else {
      RunAppends(x, a, b[..|b| - 1]);
      assert (a + b)[..|a + b| - 1] == a + b[..|b| - 1];
    }
  }

  lemma {:induction false} RunFirst(x: System, a: seq<Action>)
    requires a != []
    ensures Run(x, a) == Run(Next(x, a[0]), a[1..])
  {
    hide Next;
    assert a == [a[0]] + a[1..] && [a[0]][..0] == [];
    RunAppends(x, [a[0]], a[1..]);
    assert Run(x, [a[0]]) == Next(Run(x, []), a[0]);
  }

  /** The thread and the client are free and nothing is queued; n messages were consumed. */
  ghost predicate AtRest(x: System, c: ClientId, t: ThreadId, n: nat) {
    && c in x.clients && t in x.threads && x.threads[t] == Idle && x.queue == multiset{}
    && !x.clients[c].locked && x.clients[c].bdv == Bdv(map[], n) && n < UINT32_MAX
  }

  /** From rest, the steps of one thread that take the next message all the way. */
  lemma ServeSteps(x: System, c: ClientId, t: ThreadId, n: nat, body: Bytes)
    requires AtRest(x, c, t, n) && n + 1 < UINT32_MAX
    ensures var y := Run(x, Serve(c, t, Single(n + 1, body)));
            && AtRest(y, c, t, n + 1)
            && y.clients[c].log == x.clients[c].log + [Consumed(n + 1, body)]
            && y.replies == x.replies + [Answer(c, n + 1, body)]
  {
    hide Next, Run;
    var p := Single(n + 1, body);
    var s := Serve(c, t, p);
    var x1 := Next(x, s[0]);
    var x2 := Next(x1, s[1]);
    var x3 := Next(x2, s[2]);
    var x4 := Next(x3, s[3]);
    var x5 := Next(x4, s[4]);
    var x6 := Next(x5, s[5]);
    var x7 := Next(x6, s[6]);
    SevenSteps(x, s);
    SubmitPop(x, c, t, p);
    LockStep(x2, c, t, p);
    ProcessStep(x3, c, t, n, body);
    RestStep(x4, c, t, Answer(c, n + 1, body));
  }

  lemma SevenSteps(x: System, s: seq<Action>)
    requires |s| == 7
    ensures Run(x, s) == Next(Next(Next(Next(Next(Next(Next(x, s[0]), s[1]), s[2]), s[3]), s[4]), s[5]), s[6])
  {
    hide Next;
    RunFirst(x, s);
    var x1 := Next(x, s[0]);
    RunFirst(x1, s[1..]);
    var x2 := Next(x1, s[1]);
    assert s[1..][1..] == s[2..];
    RunFirst(x2, s[2..]);
    var x3 := Next(x2, s[2]);
    assert s[2..][1..] == s[3..];
    RunFirst(x3, s[3..]);
    var x4 := Next(x3, s[3]);
    assert s[3..][1..] == s[4..];
    RunFirst(x4, s[4..]);
    var x5 := Next(x4, s[4]);
    assert s[4..][1..] == s[5..];
    RunFirst(x5, s[5..]);
    var x6 := Next(x5, s[5]);
    assert s[5..][1..] == s[6..];
    RunFirst(x6, s[6..]);
    assert s[6..][1..] == [];
  }

  lemma SubmitPop(x: System, c: ClientId, t: ThreadId, p: Packet)
    requires c in x.clients && t in x.threads && x.threads[t] == Idle && x.queue == multiset{} && WellFormed(p)
    ensures var y := Next(Next(x, Submit(c, p)), Pop(t, Payload(c, p)));
            && y.threads == x.threads[t := Popped(Payload(c, p))] && y.queue == multiset{} && y.replies == x.replies
            && y.clients == x.clients[c := x.clients[c].(submitted := x.clients[c].submitted + {p})]
  {
    hide ProcessPayload;
    var x1 := Next(x, Submit(c, p));
    assert x1.queue == multiset{Payload(c, p)};
  }

  lemma LockStep(x: System, c: ClientId, t: ThreadId, p: Packet)
    requires c in x.clients && !x.clients[c].locked && t in x.threads && x.threads[t] == Popped(Payload(c, p))
    ensures var y := Next(x, TryLock(t, false));
            && y.threads == x.threads[t := Locked(Payload(c, p))] && y.queue == x.queue && y.replies == x.replies
            && y.clients == x.clients[c := x.clients[c].(locked := true)]
  {
    hide ProcessPayload;
  }

  lemma ProcessStep(x: System, c: ClientId, t: ThreadId, n: nat, body: Bytes)
    requires n + 1 < UINT32_MAX && c in x.clients && t in x.threads
    requires x.threads[t] == Locked(Payload(c, Single(n + 1, body))) && x.clients[c].bdv == Bdv(map[], n)
    ensures var y := Next(x, Process(t, true));
            && c in y.clients && y.threads == x.threads[t := Processed(c, Some(Answer(c, n + 1, body)))]
            && y.queue == x.queue && y.replies == x.replies
            && y.clients[c].bdv == Bdv(map[], n + 1) && y.clients[c].locked == x.clients[c].locked
            && y.clients[c].log == x.clients[c].log + [Consumed(n + 1, body)]
  {
    SingleIsConsumed(n, body);
  }

  lemma SingleIsConsumed(n: nat, body: Bytes)
    requires n + 1 < UINT32_MAX
    ensures ProcessPayload(Bdv(map[], n), Single(n + 1, body)) == (Bdv(map[], n + 1), Consumed(n + 1, body))
  {
    hide Content;
    var m := Partial(n + 1, 1, map[0 := body]);
    SingleReads(n + 1, body);
    var b1 := Bdv(map[n + 1 := m], n);
    assert b1.pending - {n + 1} == map[];
    assert NextId(n) == n + 1;
  }

  lemma SingleReads(id: MsgId, body: Bytes)
    ensures var m := Partial(id, 1, map[0 := body]);
            Parse(EMPTY, Single(id, body)) == Some(m) && Ready(m) && Content(m) == body
  {
    hide Content;
    var m := Partial(id, 1, map[0 := body]);
    assert Collected(id, [body], {0}) == m && m.parts.Keys == {0};
    ReadyReadsBack(id, [body], {0});
    JoinOne(body);
  }

  lemma RestStep(x: System, c: ClientId, t: ThreadId, ans: Answer)
    requires c in x.clients && t in x.threads && x.threads[t] == Processed(c, Some(ans))
    requires x.clients[c].bdv.pending == map[]
    ensures var y := Next(Next(Next(x, PostFlag(t)), Release(t)), WriteReply(t));
            && y.threads == x.threads[t := Idle] && y.queue == x.queue && y.replies == x.replies + [ans]
            && y.clients == x.clients[c := x.clients[c].(locked := false)]
  {
    hide ProcessPayload;
    var x1 := Next(x, PostFlag(t));
    assert x1.threads == x.threads[t := Flagged(c, Some(ans))] && x1.queue == x.queue;
    var x2 := Next(x1, Release(t));
    assert x2.threads == x1.threads[t := Released(Some(ans))];
  }

  lemma JoinOne(b: Bytes)
    ensures Join([b]) == b
  {
    assert [b][..0] == [] && [b][1..] == [];
  }

  /** The messages with these bodies were consumed and answered, and no others. */
  ghost predicate Served(x: System, c: ClientId, bodies: seq<Bytes>) {
    && c in x.clients && |x.clients[c].log| == |x.replies| == |bodies|
    && forall i :: 0 <= i < |bodies| ==>
         x.clients[c].log[i] == Consumed(i + 1, bodies[i]) && x.replies[i] == Answer(c, i + 1, bodies[i])
  }

  lemma ServedMore(x: System, y: System, c: ClientId, bodies: seq<Bytes>, body: Bytes)
    requires Served(x, c, bodies) && c in y.clients
    requires y.clients[c].log == x.clients[c].log + [Consumed(|bodies| + 1, body)]
    requires y.replies == x.replies + [Answer(c, |bodies| + 1, body)]
    ensures Served(y, c, bodies + [body])
  {
  }

  lemma StartsAtRest(x: System, c: ClientId, t: ThreadId)
    requires Initial(x) && c in x.clients && t in x.threads
    ensures AtRest(x, c, t, 0) && Served(x, c, [])
  {
  }

  lemma RestsThere(x: System, c: ClientId, t: ThreadId, n: nat)
    requires AtRest(x, c, t, n)
    ensures c in x.clients
  {
  }

  /**
   The steps can be taken: one thread alone serves any number of messages of a client, one after the other;
   all are consumed, all are answered, in order, and all is at rest again.
   */
  lemma {:induction false} ServedInTurn(x: System, c: ClientId, t: ThreadId, bodies: seq<Bytes>)
    requires Initial(x) && c in x.clients && t in x.threads && |bodies| < UINT32_MAX
    ensures var y := Run(x, ServeAll(c, t, bodies)); AtRest(y, c, t, |bodies|) && Served(y, c, bodies)
  {
    hide Run, Serve, AtRest, Served, Initial;
    if bodies == [] {
      StartsAtRest(x, c, t);
      NoActions(x);
    } else {
      var n := |bodies| - 1;
      var front, s := ServeAll(c, t, bodies[..n]), Serve(c, t, Single(n + 1, bodies[n]));
      ServedInTurn(x, c, t, bodies[..n]);
      RunAppends(x, front, s);
      var y := Run(x, front);
      ServeSteps(y, c, t, n, bodies[n]);
      RestsThere(Run(y, s), c, t, n + 1);
      ServedMore(y, Run(y, s), c, bodies[..n], bodies[n]);
      assert bodies[..n] + [bodies[n]] == bodies;
    }
  }

  lemma NoActions(x: System)
    ensures Run(x, []) == x
  {
  }
}
