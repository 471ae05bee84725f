/**
 Two honest parties over a FIFO link, from the first packet on.

 A run is any interleaving of deliveries, application sends and rekeys. The main
 invariant fixes both parties and both queues at each phase of the handshake, and
 once a side is authenticated says that the packets in flight, opened in order,
 carry the receiver's in-session to the sender's out-session.
 */
module HonestRun {
  import opened Wrappers
  import opened Symbolic
  import opened Bip151
  import opened Bip150
  import opened Handshake
  import KeyUse
  import opened PeerSafety

  datatype Party = Party(conn: Conn, up: bool, got: seq<Body>)

  /** `cSent` and `sSent` log the application messages each side was asked to send. */
  datatype System = System(
    c: Party, s: Party, c2s: seq<Wire>, s2c: seq<Wire>, cSent: seq<Body>, sSent: seq<Body>)

  /** Everything chosen before the run: auth keys, peer tables, modes, ephemeral keys. */
  datatype Setup = Setup(cp: Peers, sp: Peers, servName: string, ci: Name, co: Name, si: Name, so: Name)

  datatype Action =
    | DeliverToClient | DeliverToServer
    | ClientSend(data: Body) | ServerSend(data: Body)
    | ClientRekey | ServerRekey

  // ----- What a socket does with a packet -----------------------------------

  function Dispatch(k: Setup, atClient: bool, p: Party, kind: MsgType, body: Body): (Party, seq<Wire>) {
    if kind == App then
      if p.conn.st == Success then (p.(got := p.got + [body]), []) else (p.(up := false), [])
    else
      var r := if atClient then ClientStep(k.cp, k.servName, p.conn, kind, body)
               else ServerStep(k.sp, p.conn, kind, body);
      (p.(conn := r.conn, up := r.status.Ok()), r.outs)
  }

  function Opened(c: Conn, body: Body): Conn {
    c.(inS := Counted(c.inS, PacketSize(body) + MAC_LEN))
  }

  function Receive(k: Setup, atClient: bool, p: Party, w: Wire): (Party, seq<Wire>) {
    if !p.up then (p, [])
    else if p.conn.Complete() then
      if Opens(p.conn.inS, w) then Dispatch(k, atClient, p.(conn := Opened(p.conn, w.body)), w.kind, w.body)
      else (p.(up := false), [])
    else if w.Plain? then Dispatch(k, atClient, p, w.kind, w.body)
    else (p.(up := false), [])
  }

  const REKEY_BODY: Body := PointBody(ZeroPoint)

  function AfterRekey(c: Conn): Conn {
    var d := AfterSeal(c, REKEY_BODY);
    d.(outS := Rekeyed151(d.outS))
  }

  predicate CanSend(p: Party) { p.up && p.conn.st == Success }

  function Next(k: Setup, x: System, a: Action): System {
    match a
    case DeliverToClient =>
      if x.s2c == [] then x else
      var (p, outs) := Receive(k, true, x.c, x.s2c[0]);
      x.(c := p, s2c := x.s2c[1..], c2s := x.c2s + outs)
    case DeliverToServer =>
      if x.c2s == [] then x else
      var (p, outs) := Receive(k, false, x.s, x.c2s[0]);
      x.(s := p, c2s := x.c2s[1..], s2c := x.s2c + outs)
    case ClientSend(data) =>
      if !CanSend(x.c) then x else
      x.(c := x.c.(conn := AfterSeal(x.c.conn, data)), c2s := x.c2s + [Seal(x.c.conn, App, data)],
         cSent := x.cSent + [data])
    case ServerSend(data) =>
      if !CanSend(x.s) then x else
      x.(s := x.s.(conn := AfterSeal(x.s.conn, data)), s2c := x.s2c + [Seal(x.s.conn, App, data)],
         sSent := x.sSent + [data])
    case ClientRekey =>
      if !CanSend(x.c) then x else
      x.(c := x.c.(conn := AfterRekey(x.c.conn)), c2s := x.c2s + [Seal(x.c.conn, Rekey, REKEY_BODY)])
    case ServerRekey =>
      if !CanSend(x.s) then x else
      x.(s := x.s.(conn := AfterRekey(x.s.conn)), s2c := x.s2c + [Seal(x.s.conn, Rekey, REKEY_BODY)])
  }

  /** Both sides connected and the server told to start. */
  function Init(k: Setup): System {
    var r := ServerStep(k.sp, NewConn(k.si, k.so), Start, AppBody(0, 0));
    System(Party(NewConn(k.ci, k.co), true, []), Party(r.conn, true, []), [], r.outs, [], [])
  }

  function Run(k: Setup, x: System, acts: seq<Action>): System {
    if acts == [] then x else Next(k, Run(k, x, acts[..|acts| - 1]), acts[|acts| - 1])
  }

  // ----- Setups -------------------------------------------------------------

  predicate Registered(k: Setup) {
    && k.servName in k.cp.names && k.cp.names[k.servName] == Pub(k.sp.own)
    && k.sp.hasPriv && (k.cp.oneWay || k.cp.hasPriv)
  }

  function ProposedKey(k: Setup): Point { if k.cp.oneWay then StandIn else Pub(k.cp.own) }

  /** The server takes the key the client proposes. */
  predicate Accepts(k: Setup) {
    if k.sp.oneWay then ProposedKey(k) == StandIn else ProposedKey(k) in k.sp.authorized
  }

  predicate Matched(k: Setup) {
    Registered(k) && k.cp.oneWay == k.sp.oneWay && (!k.sp.oneWay ==> Pub(k.cp.own) in k.sp.authorized)
  }

  // ----- The handshake, phase by phase --------------------------------------

  function Keyed(outgoing: bool, secret: Shared, num: nat, bytes: nat): Session {
    Session(outgoing, None, ChaCha20Poly1305, Sid(secret), InitialKeys(secret), InitialKeys(secret),
            bytes, num, true, true)
  }

  function Offered(priv: Name): Session {
    NewSession(true, priv).(encinit := true, cipher := ChaCha20Poly1305)
  }

  function Down(k: Setup): Shared { Dh(k.so, k.ci) }
  function Up(k: Setup): Shared { Dh(k.co, k.si) }

  function Server1(k: Setup): Conn { Conn(NewSession(false, k.si), Offered(k.so), Inactive, ZeroPoint) }
  function Client1(k: Setup): Conn { Conn(Keyed(false, Down(k), 0, 0), Offered(k.co), Inactive, ZeroPoint) }
  function Server2(k: Setup): Conn { Conn(NewSession(false, k.si), Keyed(true, Down(k), 0, 0), Inactive, ZeroPoint) }
  function Server3(k: Setup): Conn { Server2(k).(inS := Keyed(false, Up(k), 0, 0)) }

  function Client2(k: Setup): Conn {
    Conn(Keyed(false, Down(k), 0, 0), Keyed(true, Up(k), 1, 37), Challenge1, Pub(k.sp.own))
  }
  function Server4(k: Setup): Conn {
    Conn(Keyed(false, Up(k), 1, 53), Keyed(true, Down(k), 1, 69), Reply1, ZeroPoint)
  }
  function Client3(k: Setup): Conn {
    Conn(Keyed(false, Down(k), 1, 85), Keyed(true, Up(k), 2, 74), Proposed, Pub(k.sp.own))
  }
  function Server5(k: Setup): Conn {
    Conn(Keyed(false, Up(k), 2, 106), Keyed(true, Down(k), 2, 106), Challenge2,
         if k.sp.oneWay then ZeroPoint else ProposedKey(k))
  }
  function Client4(k: Setup): Conn {
    HandshakeRekey(k.cp, Conn(Keyed(false, Down(k), 2, 138), Keyed(true, Up(k), 3, 143), Reply2, Pub(k.sp.own)))
  }
  function Server6(k: Setup): Conn {
    HandshakeRekey(k.sp, Conn(Keyed(false, Up(k), 3, 191), Keyed(true, Down(k), 2, 106), Reply2, Pub(k.cp.own)))
  }

  function SealedBy(secret: Shared, num: nat, kind: MsgType, body: Body): Wire {
    Sealed(InitialKeys(secret), num, kind, body)
  }

  function W1(k: Setup): Wire { Plain(EncInit, EncInitBody(Pub(k.so), 0)) }
  function W2(k: Setup): Wire { Plain(EncAck, PointBody(Pub(k.ci))) }
  function W3(k: Setup): Wire { Plain(EncInit, EncInitBody(Pub(k.co), 0)) }
  function W4(k: Setup): Wire { Plain(EncAck, PointBody(Pub(k.si))) }
  function W5(k: Setup): Wire { SealedBy(Up(k), 0, Challenge, HashBody(AuthHash(Sid(Up(k)), TagI, Pub(k.sp.own)))) }
  function W6(k: Setup): Wire { SealedBy(Down(k), 0, Reply, ReplyBody(Signature(k.sp.own, Sid(Down(k))))) }
  function W7(k: Setup): Wire { SealedBy(Up(k), 1, Propose, HashBody(AuthHash(Sid(Up(k)), TagP, ProposedKey(k)))) }
  function W8(k: Setup): Wire { SealedBy(Down(k), 1, Challenge, HashBody(AuthHash(Sid(Down(k)), TagR,
              ProposedKey(k)))) }
  function W9(k: Setup): Wire {
    SealedBy(Up(k), 2, Reply,
             ReplyBody(if k.cp.oneWay then KeyReply(k.cp.own) else Signature(k.cp.own, Sid(Up(k)))))
  }

  lemma ClientGetsEncInit(k: Setup)
    ensures Receive(k, true, Party(NewConn(k.ci, k.co), true, []), W1(k))
         == (Party(Client1(k), true, []), [W2(k), W3(k)])
  {
  }

  lemma ServerGetsEncAck(k: Setup)
    ensures Receive(k, false, Party(Server1(k), true, []), W2(k)) == (Party(Server2(k), true, []), [])
  {
  }

  lemma ServerGetsEncInit(k: Setup)
    ensures Receive(k, false, Party(Server2(k), true, []), W3(k)) == (Party(Server3(k), true, []), [W4(k)])
  {
  }

  lemma ClientGetsEncAck(k: Setup)
    requires Registered(k)
    ensures Receive(k, true, Party(Client1(k), true, []), W4(k)) == (Party(Client2(k), true, []), [W5(k)])
  {
  }

  lemma ServerGetsChallenge(k: Setup)
    requires Registered(k)
    ensures Receive(k, false, Party(Server3(k), true, []), W5(k)) == (Party(Server4(k), true, []), [W6(k)])
  {
  }

  lemma ClientGetsReply(k: Setup)
    ensures Receive(k, true, Party(Client2(k), true, []), W6(k)) == (Party(Client3(k), true, []), [W7(k)])
  {
  }

  lemma ServerGetsPropose(k: Setup)
    requires Accepts(k)
    ensures Receive(k, false, Party(Server4(k), true, []), W7(k)) == (Party(Server5(k), true, []), [W8(k)])
  {
  }

  lemma ClientGetsChallenge(k: Setup)
    requires Registered(k) && Accepts(k)
    ensures Receive(k, true, Party(Client3(k), true, []), W8(k)) == (Party(Client4(k), true, []), [W9(k)])
  {
  }

  lemma ServerGetsReply(k: Setup)
    requires Matched(k)
    ensures Receive(k, false, Party(Server5(k), true, []), W9(k)) == (Party(Server6(k), true, []), [])
  {
  }

  // ----- Packets in flight --------------------------------------------------

  /** What a sender and a receiver must agree on. */
  datatype Link = Link(keys: KeySet, sid: SessionId, num: nat)

  function LinkOf(s: Session): Link { Link(s.ctx, s.sid, s.num) }

  function Past(l: Link, kind: MsgType): Link {
    l.(num := (l.num + 1) % WORD, keys := if kind == Rekey then Rehashed(l.sid, l.keys) else l.keys)
  }

  /**
   Opened one after the other from link `from`, every packet of q is under exactly the keys
   and sequence number its receiver holds by then, and the last one leaves the receiver at `to`.
   */
  predicate Carries(q: seq<Wire>, from: Link, to: Link) {
    if q == [] then from == to else
      && q[0].Sealed? && q[0].keys == from.keys && q[0].num == from.num
      && (q[0].kind == App || (q[0].kind == Rekey && q[0].body == REKEY_BODY))
      && Carries(q[1..], Past(from, q[0].kind), to)
  }

  function Apps(q: seq<Wire>): seq<Body> {
    if q == [] then [] else (if q[0].kind == App then [q[0].body] else []) + Apps(q[1..])
  }

  lemma {:induction false} CarriesOneMore(q: seq<Wire>, from: Link, to: Link, w: Wire)
    requires Carries(q, from, to) && Carries([w], to, Past(to, w.kind))
    ensures Carries(q + [w], from, Past(to, w.kind))
    ensures Apps(q + [w]) == Apps(q) + (if w.kind == App then [w.body] else [])
  {
    if q == [] {
      assert q + [w] == [w];
    } else {
      assert (q + [w])[1..] == q[1..] + [w];
      CarriesOneMore(q[1..], Past(from, q[0].kind), to, w);
    }
  }

  /** An authenticated connection: AEAD contexts loaded with the stored keys. */
  predicate Ready(c: Conn) {
    && c.Complete() && c.st == Success
    && c.inS.ctx == c.inS.keys && c.outS.ctx == c.outS.keys
    && c.inS.cipher.ChaCha20Poly1305? && c.outS.cipher.ChaCha20Poly1305?
  }

  /** The crossed rekey meets in the middle: each side's new out-link is the other's new in-link. */
  lemma CrossedRekeyAgrees(k: Setup)
    requires Matched(k)
    ensures Ready(Client4(k)) && Ready(Server6(k))
    ensures LinkOf(Client4(k).outS) == LinkOf(Server6(k).inS)
    ensures LinkOf(Server6(k).outS) == LinkOf(Client4(k).inS)
  {
  }

  // ----- The invariant ------------------------------------------------------

  function Quiet(c: Conn, s: Conn, c2s: seq<Wire>, s2c: seq<Wire>): System {
    System(Party(c, true, []), Party(s, true, []), c2s, s2c, [], [])
  }

  /** The system after n - 1 deliveries; nothing but deliveries can happen up to phase 8. */
  function At(k: Setup, n: nat): System {
    match n
    case 1 => Quiet(NewConn(k.ci, k.co), Server1(k), [], [W1(k)])
    case 2 => Quiet(Client1(k), Server1(k), [W2(k), W3(k)], [])
    case 3 => Quiet(Client1(k), Server2(k), [W3(k)], [])
    case 4 => Quiet(Client1(k), Server3(k), [], [W4(k)])
    case 5 => Quiet(Client2(k), Server3(k), [W5(k)], [])
    case 6 => Quiet(Client2(k), Server4(k), [], [W6(k)])
    case 7 => Quiet(Client3(k), Server4(k), [W7(k)], [])
    case 8 => Quiet(Client3(k), Server5(k), [], [W8(k)])
    case 9 => Quiet(Client4(k), Server5(k), [W9(k)], [])
    case _ => Quiet(Client4(k), Server6(k), [], [])
  }

  function Turn(n: nat): Action {
    if n in {1, 4, 6, 8} then DeliverToClient else DeliverToServer
  }

  lemma PhaseStep(k: Setup, n: nat)
    requires Registered(k) && 1 <= n <= 9
    requires n >= 7 ==> Accepts(k)
    requires n == 9 ==> Matched(k)
    ensures Next(k, At(k, n), Turn(n)) == At(k, n + 1)
  {
    match n {
      case 1 => ClientGetsEncInit(k);
      case 2 => ServerGetsEncAck(k);
      case 3 => ServerGetsEncInit(k);
      case 4 => ClientGetsEncAck(k);
      case 5 => ServerGetsChallenge(k);
      case 6 => ClientGetsReply(k);
      case 7 => ServerGetsPropose(k);
      case 8 => ClientGetsChallenge(k);
      case _ => ServerGetsReply(k);
    }
  }

  lemma PhaseFacts(k: Setup, n: nat)
    requires 1 <= n <= 8
    ensures At(k, n).c.conn.st != Success && At(k, n).s.conn.st != Success
    ensures At(k, n).c2s != [] || At(k, n).s2c != []
    ensures Init(k) == At(k, 1)
  {
  }

  predicate Handshaking(k: Setup, x: System) {
    exists n :: 1 <= n <= 8 && x == At(k, n)
  }

  /** The client is done; its reply and whatever it sent since are on their way. */
  predicate ClientDone(k: Setup, x: System) {
    && Ready(x.c.conn) && x.s.conn == Server5(k) && x.s2c == []
    && |x.c2s| > 0 && x.c2s[0] == W9(k)
    && Carries(x.c2s[1..], LinkOf(Server6(k).inS), LinkOf(x.c.conn.outS))
    && LinkOf(x.c.conn.inS) == LinkOf(Server6(k).outS)
    && x.c.got == [] && x.s.got == [] && x.sSent == [] && Apps(x.c2s[1..]) == x.cSent
  }

  predicate BothDone(x: System) {
    && Ready(x.c.conn) && Ready(x.s.conn)
    && Carries(x.c2s, LinkOf(x.s.conn.inS), LinkOf(x.c.conn.outS))
    && Carries(x.s2c, LinkOf(x.c.conn.inS), LinkOf(x.s.conn.outS))
    && x.s.got + Apps(x.c2s) == x.cSent && x.c.got + Apps(x.s2c) == x.sSent
  }

  predicate Inv(k: Setup, x: System) {
    x.c.up && x.s.up && (Handshaking(k, x) || ClientDone(k, x) || BothDone(x))
  }

  lemma HandshakingStep(k: Setup, n: nat, a: Action)
    requires Matched(k) && 1 <= n <= 8
    ensures Inv(k, Next(k, At(k, n), a))
  {
    hide Receive, ServerStep, ClientStep, BothDone;
    var x := At(k, n);
    if a == Turn(n) {
      PhaseStep(k, n);
      if n == 8 {
        CrossedRekeyAgrees(k);
        assert [W9(k)][1..] == [];
        assert ClientDone(k, At(k, 9));
      } else {
        assert Handshaking(k, At(k, n + 1));
      }
    } else {
      assert x.c.conn.st != Success && x.s.conn.st != Success;
      assert Next(k, x, a) == x;
      assert Handshaking(k, x);
    }
  }

  lemma SendKeepsReady(c: Conn, body: Body)
    requires Ready(c)
    ensures Ready(AfterSeal(c, body)) && LinkOf(AfterSeal(c, body).outS) == Past(LinkOf(c.outS), App)
    ensures Ready(AfterRekey(c)) && LinkOf(AfterRekey(c).outS) == Past(LinkOf(c.outS), Rekey)
    ensures AfterSeal(c, body).inS == c.inS == AfterRekey(c).inS
  {
  }

  lemma RekeyMessageRekeys(k: Setup, c: Conn)
    requires Ready(c)
    ensures ServerStep(k.sp, c, Rekey, REKEY_BODY) == Step(c.(inS := Rekeyed151(c.inS)), StepSuccessful, [])
    ensures ClientStep(k.cp, k.servName, c, Rekey, REKEY_BODY)
         == Step(c.(inS := Rekeyed151(c.inS)), RekeySuccessful, [])
    ensures Ready(c.(inS := Rekeyed151(c.inS)))
  {
  }

  /** A packet at the head of a carrying queue is opened and moves the in-link past it. */
  lemma ReceiveFromQueue(k: Setup, atClient: bool, p: Party, q: seq<Wire>, to: Link)
    requires p.up && Ready(p.conn) && q != [] && Carries(q, LinkOf(p.conn.inS), to)
    ensures var (r, outs) := Receive(k, atClient, p, q[0]);
            && r.up && Ready(r.conn) && outs == []
            && r.conn.outS == p.conn.outS && LinkOf(r.conn.inS) == Past(LinkOf(p.conn.inS), q[0].kind)
            && r.got + Apps(q[1..]) == p.got + Apps(q)
  {
    var d := Opened(p.conn, q[0].body);
    assert Ready(d) && d.outS == p.conn.outS && LinkOf(d.inS) == Past(LinkOf(p.conn.inS), App);
    assert Receive(k, atClient, p, q[0]) == Dispatch(k, atClient, p.(conn := d), q[0].kind, q[0].body);
    if q[0].kind == App {
      assert Apps(q) == [q[0].body] + Apps(q[1..]);
    } else {
      RekeyMessageRekeys(k, d);
    }
  }

  lemma ClientDoneStep(k: Setup, x: System, a: Action)
    requires Matched(k) && x.c.up && x.s.up && ClientDone(k, x)
    ensures Inv(k, Next(k, x, a))
  {
    match a {
      case DeliverToServer =>
        ServerGetsReply(k);
        CrossedRekeyAgrees(k);
        assert x.s == Party(Server5(k), true, []);
        assert x.s2c + [] == [];
        assert BothDone(Next(k, x, a));
      case ClientSend(data) =>
        SendKeepsReady(x.c.conn, data);
        ClientAppends(x, Seal(x.c.conn, App, data), LinkOf(Server6(k).inS));
        assert ClientDone(k, Next(k, x, a));
      case ClientRekey =>
        SendKeepsReady(x.c.conn, REKEY_BODY);
        ClientAppends(x, Seal(x.c.conn, Rekey, REKEY_BODY), LinkOf(Server6(k).inS));
        assert ClientDone(k, Next(k, x, a));
      case _ => assert Next(k, x, a) == x;
    }
  }

  lemma ClientAppends(x: System, w: Wire, from: Link)
    requires |x.c2s| > 0 && Carries(x.c2s[1..], from, LinkOf(x.c.conn.outS))
    requires Carries([w], LinkOf(x.c.conn.outS), Past(LinkOf(x.c.conn.outS), w.kind))
    ensures (x.c2s + [w])[0] == x.c2s[0]
    ensures Carries((x.c2s + [w])[1..], from, Past(LinkOf(x.c.conn.outS), w.kind))
    ensures Apps((x.c2s + [w])[1..]) == Apps(x.c2s[1..]) + (if w.kind == App then [w.body] else [])
  {
    assert (x.c2s + [w])[1..] == x.c2s[1..] + [w];
    CarriesOneMore(x.c2s[1..], from, LinkOf(x.c.conn.outS), w);
  }

  lemma BothDoneDelivers(k: Setup, x: System, a: Action)
    requires x.c.up && x.s.up && BothDone(x) && (a == DeliverToClient || a == DeliverToServer)
    ensures Inv(k, Next(k, x, a))
  {
    if a == DeliverToServer && x.c2s != [] {
      ReceiveFromQueue(k, false, x.s, x.c2s, LinkOf(x.c.conn.outS));
      assert x.s2c + [] == x.s2c;
    } else if a == DeliverToClient && x.s2c != [] {
      ReceiveFromQueue(k, true, x.c, x.s2c, LinkOf(x.s.conn.outS));
      assert x.c2s + [] == x.c2s;
    }
    assert BothDone(Next(k, x, a));
  }

  lemma BothDoneSends(k: Setup, x: System, a: Action)
    requires x.c.up && x.s.up && BothDone(x) && a != DeliverToClient && a != DeliverToServer
    ensures Inv(k, Next(k, x, a))
  {
    var c, s := x.c.conn, x.s.conn;
    match a {
      case ClientSend(data) =>
        SendKeepsReady(c, data);
        CarriesOneMore(x.c2s, LinkOf(s.inS), LinkOf(c.outS), Seal(c, App, data));
      case ClientRekey =>
        SendKeepsReady(c, REKEY_BODY);
        CarriesOneMore(x.c2s, LinkOf(s.inS), LinkOf(c.outS), Seal(c, Rekey, REKEY_BODY));
      case ServerSend(data) =>
        SendKeepsReady(s, data);
        CarriesOneMore(x.s2c, LinkOf(c.inS), LinkOf(s.outS), Seal(s, App, data));
      case ServerRekey =>
        SendKeepsReady(s, REKEY_BODY);
        CarriesOneMore(x.s2c, LinkOf(c.inS), LinkOf(s.outS), Seal(s, Rekey, REKEY_BODY));
    }
    assert BothDone(Next(k, x, a));
  }

  lemma {:induction false} RunKeepsInv(k: Setup, acts: seq<Action>)
    requires Matched(k)
    ensures Inv(k, Run(k, Init(k), acts))
  {
    if acts == [] {
      assert Init(k) == At(k, 1);
      assert Handshaking(k, Init(k));
    } else {
      var a := acts[|acts| - 1];
      RunKeepsInv(k, acts[..|acts| - 1]);
      var x := Run(k, Init(k), acts[..|acts| - 1]);
      if Handshaking(k, x) {
        var n :| 1 <= n <= 8 && x == At(k, n);
        HandshakingStep(k, n, a);
      } else if ClientDone(k, x) {
        ClientDoneStep(k, x, a);
      } else if a == DeliverToClient || a == DeliverToServer {
        BothDoneDelivers(k, x, a);
      } else {
        BothDoneSends(k, x, a);
      }
    }
  }

  // ----- Main results -------------------------------------------------------

  /**
   In every run of a matched setup no side ever closes; what a side was given is what the other
   sent, in order, bar what is still in flight; and a link with nothing left in flight has both
   sides authenticated, with each out-session's keys, id and sequence number equal to the
   peer's in-session.
   */
  lemma HonestRunsAgree(k: Setup, acts: seq<Action>)
    requires Matched(k)
    ensures var x := Run(k, Init(k), acts);
            && x.c.up && x.s.up
            && x.s.got <= x.cSent && x.c.got <= x.sSent
            && (x.c2s == [] && x.s2c == [] ==>
                  && x.c.conn.st == Success && x.s.conn.st == Success
                  && x.s.got == x.cSent && x.c.got == x.sSent
                  && LinkOf(x.c.conn.outS) == LinkOf(x.s.conn.inS)
                  && LinkOf(x.s.conn.outS) == LinkOf(x.c.conn.inS))
  {
    RunKeepsInv(k, acts);
    var x := Run(k, Init(k), acts);
    if Handshaking(k, x) {
      var n :| 1 <= n <= 8 && x == At(k, n);
      PhaseFacts(k, n);
    }
  }

  /**
   Once both sides are authenticated, whatever was sent, rekeyed and delivered since, each packet
   in flight is under exactly the keys and sequence number its receiver will hold on reaching it.
   */
  lemma InFlightPacketsWillOpen(k: Setup, acts: seq<Action>)
    requires Matched(k)
    ensures var x := Run(k, Init(k), acts);
            x.c.conn.st == Success && x.s.conn.st == Success ==>
              && Carries(x.c2s, LinkOf(x.s.conn.inS), LinkOf(x.c.conn.outS))
              && Carries(x.s2c, LinkOf(x.c.conn.inS), LinkOf(x.s.conn.outS))
  {
    RunKeepsInv(k, acts);
    var x := Run(k, Init(k), acts);
    if Handshaking(k, x) {
      var n :| 1 <= n <= 8 && x == At(k, n);
      PhaseFacts(k, n);
    }
  }

  function Deliveries(n: nat): seq<Action> {
    if n == 0 then [] else Deliveries(n - 1) + [Turn(n)]
  }

  lemma StartsAtFirstPhase(k: Setup)
    ensures Init(k) == At(k, 1)
  {
  }

  lemma {:induction false} DeliveriesReach(k: Setup, n: nat)
    requires Registered(k) && n <= 9
    requires n >= 7 ==> Accepts(k)
    requires n == 9 ==> Matched(k)
    ensures Run(k, Init(k), Deliveries(n)) == At(k, n + 1)
  {
    hide Next, At, Init, Turn, Registered, Accepts;
    if n == 0 {
      StartsAtFirstPhase(k);
    } else {
      DeliveriesReach(k, n - 1);
      assert Deliveries(n)[..|Deliveries(n)| - 1] == Deliveries(n - 1);
      var x := Run(k, Init(k), Deliveries(n - 1));
      assert Run(k, Init(k), Deliveries(n)) == Next(k, x, Turn(n));
      PhaseStep(k, n);
    }
  }

  /** The nine deliveries of the handshake authenticate both sides and leave nothing in flight. */
  lemma HonestHandshakeCompletes(k: Setup)
    requires Matched(k)
    ensures var x := Run(k, Init(k), Deliveries(9));
            x.c.conn.st == Success && x.s.conn.st == Success && x.c2s == [] && x.s2c == []
            && x.c.conn.chosen == Pub(k.sp.own) && x.s.conn.chosen == Pub(k.cp.own)
            && x.c.conn.outS.ctx == x.s.conn.inS.ctx == AuthenticatedKeys(Up(k), Down(k), k.cp.own, k.sp.own)
            && x.s.conn.outS.ctx == x.c.conn.inS.ctx == AuthenticatedKeys(Down(k), Up(k), k.sp.own, k.cp.own)
            && KeyUse.Keyed(x.c.conn.outS) && KeyUse.Keyed(x.s.conn.outS)
            && x.c.conn.outS.bytes == x.c.conn.inS.bytes == x.s.conn.outS.bytes == x.s.conn.inS.bytes == 0
  {
    DeliveriesReach(k, 9);
  }

  /** What the driver reports on the packet at the head of a link, once it is opened. */
  function Reported(k: Setup, atClient: bool, p: Party, w: Wire): Status {
    var c := if p.conn.Complete() then Opened(p.conn, w.body) else p.conn;
    if atClient then ClientStep(k.cp, k.servName, c, w.kind, w.body).status
    else ServerStep(k.sp, c, w.kind, w.body).status
  }

  /** Of the nine steps of an honest handshake all succeed, and the last one of either side reports completion. */
  lemma HonestStepsReport(k: Setup, n: nat)
    requires Matched(k) && 1 <= n <= 9
    ensures var x := Run(k, Init(k), Deliveries(n - 1));
            var q := if Turn(n).DeliverToClient? then x.s2c else x.c2s;
            && q != []
            && Reported(k, Turn(n).DeliverToClient?, if Turn(n).DeliverToClient? then x.c else x.s, q[0]) ==
               if n >= 8 then Completed else StepSuccessful
  {
    hide Reported, Run, Init, At, Turn, Matched;
    MatchedSetup(k);
    DeliveriesReach(k, n - 1);
    PhaseReports(k, n);
  }

  lemma MatchedSetup(k: Setup)
    requires Matched(k)
    ensures Registered(k) && Accepts(k)
  {
  }

  lemma PhaseReports(k: Setup, n: nat)
    requires Matched(k) && 1 <= n <= 9
    ensures var x := At(k, n);
            var q := if Turn(n).DeliverToClient? then x.s2c else x.c2s;
            && q != []
            && Reported(k, Turn(n).DeliverToClient?, if Turn(n).DeliverToClient? then x.c else x.s, q[0]) ==
               if n >= 8 then Completed else StepSuccessful
  {
    hide Reported, Matched;
    ServerPhasesReport(k);
    ServerLastPhasesReport(k);
    ClientPhasesReport(k);
    ClientLastPhasesReport(k);
  }

  lemma ServerPhasesReport(k: Setup)
    requires Matched(k)
    ensures Reported(k, false, At(k, 2).s, W2(k)) == StepSuccessful
    ensures Reported(k, false, At(k, 3).s, W3(k)) == StepSuccessful
    ensures Reported(k, false, At(k, 5).s, W5(k)) == StepSuccessful
  {
    hide ServerStep, ClientStep;
    ServerReports(k.sp, Server1(k), EncAck, W2(k).body);
    ServerReports(k.sp, Server2(k), EncInit, W3(k).body);
    ServerReports(k.sp, Opened(Server3(k), W5(k).body), Challenge, W5(k).body);
  }

  lemma ServerLastPhasesReport(k: Setup)
    requires Matched(k)
    ensures Reported(k, false, At(k, 7).s, W7(k)) == StepSuccessful
    ensures Reported(k, false, At(k, 9).s, W9(k)) == Completed
  {
    hide ServerStep, ClientStep;
    ServerReports(k.sp, Opened(Server4(k), W7(k).body), Propose, W7(k).body);
    ServerReports(k.sp, Opened(Server5(k), W9(k).body), Reply, W9(k).body);
  }

  lemma ClientPhasesReport(k: Setup)
    requires Matched(k)
    ensures Reported(k, true, At(k, 1).c, W1(k)) == StepSuccessful
    ensures Reported(k, true, At(k, 4).c, W4(k)) == StepSuccessful
  {
    hide ServerStep, ClientStep;
    ClientReports(k.cp, k.servName, NewConn(k.ci, k.co), EncInit, W1(k).body);
    ClientReports(k.cp, k.servName, Client1(k), EncAck, W4(k).body);
  }

  lemma ClientLastPhasesReport(k: Setup)
    requires Matched(k)
    ensures Reported(k, true, At(k, 6).c, W6(k)) == StepSuccessful
    ensures Reported(k, true, At(k, 8).c, W8(k)) == Completed
  {
    hide ServerStep, ClientStep;
    ClientReports(k.cp, k.servName, Opened(Client2(k), W6(k).body), Reply, W6(k).body);
    ClientReports(k.cp, k.servName, Opened(Client3(k), W8(k).body), Challenge, W8(k).body);
  }

  /** Each key hashes the session id, its own old key, the opposite channel's, sender's and receiver's auth keys. */
  function AuthenticatedKeys(mine: Shared, other: Shared, from: Name, to: Name): KeySet {
    KeySet(Hash150(Sid(mine), Hkdf(mine, K2), Hkdf(other, K2), Pub(from), Pub(to)),
           Hash150(Sid(mine), Hkdf(mine, K1), Hkdf(other, K1), Pub(from), Pub(to)))
  }

  // ----- Mismatched modes ---------------------------------------------------

  /** Only proposals of the client's own key travel up, and no challenge travels down. */
  predicate MixInv(k: Setup, x: System) {
    && x.c.conn.st !in {Success, Challenge2, Reply2} && x.s.conn.st !in {Success, Challenge2, Reply2}
    && (forall w :: w in x.c2s && w.kind == Propose ==>
          w.body.HashBody? && w.body.hash.AuthHash? && w.body.hash.key == ProposedKey(k))
    && (forall w :: w in x.s2c ==> w.kind != Challenge)
  }

  lemma ClientSendsOwnProposal(k: Setup, p: Party, w: Wire)
    requires p.conn.st !in {Success, Challenge2, Reply2} && w.kind != Challenge
    ensures var (r, outs) := Receive(k, true, p, w);
            && r.conn.st !in {Success, Challenge2, Reply2}
            && (forall o :: o in outs && o.kind == Propose ==>
                  o.body.HashBody? && o.body.hash.AuthHash? && o.body.hash.key == ProposedKey(k))
  {
    match w.kind {
      case EncInit =>
      case EncAck =>
      case Reply =>
      case _ =>
    }
  }

  lemma ServerNeverChallenges(k: Setup, p: Party, w: Wire)
    requires !Accepts(k)
    requires p.conn.st !in {Success, Challenge2, Reply2}
    requires w.kind == Propose ==>
               w.body.HashBody? && w.body.hash.AuthHash? && w.body.hash.key == ProposedKey(k)
    ensures var (r, outs) := Receive(k, false, p, w);
            && r.conn.st !in {Success, Challenge2, Reply2}
            && (forall o :: o in outs ==> o.kind != Challenge)
  {
    match w.kind {
      case Propose =>
      case Challenge =>
      case Reply =>
      case _ =>
    }
  }

  lemma MixStep(k: Setup, x: System, a: Action)
    requires !Accepts(k) && MixInv(k, x)
    ensures MixInv(k, Next(k, x, a))
  {
    if a == DeliverToClient && x.s2c != [] {
      ClientSendsOwnProposal(k, x.c, x.s2c[0]);
    } else if a == DeliverToServer && x.c2s != [] {
      ServerNeverChallenges(k, x.s, x.c2s[0]);
    }
  }

  /**
   When the server does not take the key the client proposes, and in particular when one side is
   one-way and the other two-way, no run authenticates either side.
   */
  lemma {:induction false} UnacceptedProposalNeverSucceeds(k: Setup, acts: seq<Action>)
    requires !Accepts(k)
    ensures MixInv(k, Run(k, Init(k), acts))
  {
    if acts != [] {
      UnacceptedProposalNeverSucceeds(k, acts[..|acts| - 1]);
      MixStep(k, Run(k, Init(k), acts[..|acts| - 1]), acts[|acts| - 1]);
    }
  }

  /**
   Mismatched modes: the client can be brought to SUCCESS exactly when the server is the two-way
   side and the 0xFF stand-in is among its authorised keys.
   */
  lemma MixedModesSucceedOnlyByStandIn(k: Setup)
    requires Registered(k) && k.cp.oneWay != k.sp.oneWay
    ensures (exists acts :: Run(k, Init(k), acts).c.conn.st == Success)
       <==> (!k.sp.oneWay && StandIn in k.sp.authorized)
  {
    if Accepts(k) {
      DeliveriesReach(k, 8);
      assert Run(k, Init(k), Deliveries(8)).c.conn.st == Success;
    } else {
      forall acts ensures Run(k, Init(k), acts).c.conn.st != Success {
        UnacceptedProposalNeverSucceeds(k, acts);
      }
    }
  }

  predicate IsSignature(b: Body) { b.ReplyBody? && b.reply.Signature? }

  /** A one-way client signs nothing, so a two-way server is never given a signature. */
  lemma {:induction false} OneWayClientSignsNothing(k: Setup, acts: seq<Action>)
    requires k.cp.oneWay && !k.sp.oneWay
    ensures var x := Run(k, Init(k), acts);
            x.s.conn.st != Success && forall w :: w in x.c2s && w.kind == Reply ==> !IsSignature(w.body)
  {
    if acts != [] {
      var n := |acts| - 1;
      OneWayClientSignsNothing(k, acts[..n]);
      var x := Run(k, Init(k), acts[..n]);
      if acts[n] == DeliverToClient && x.s2c != [] {
        OneWayClientReplies(k, x.c, x.s2c[0]);
      } else if acts[n] == DeliverToServer && x.c2s != [] {
        TwoWayServerNeedsSignature(k, x.s, x.c2s[0]);
      }
    }
  }

  lemma OneWayClientReplies(k: Setup, p: Party, w: Wire)
    requires k.cp.oneWay
    ensures forall o :: o in Receive(k, true, p, w).1 && o.kind == Reply ==> !IsSignature(o.body)
  {
  }

  lemma TwoWayServerNeedsSignature(k: Setup, p: Party, w: Wire)
    requires !k.sp.oneWay && p.conn.st != Success && (w.kind == Reply ==> !IsSignature(w.body))
    ensures Receive(k, false, p, w).0.conn.st != Success
  {
  }

  /** With mismatched modes the server never authenticates, whatever keys it holds. */
  lemma MixedModesNeverCompleteServer(k: Setup, acts: seq<Action>)
    requires k.cp.oneWay != k.sp.oneWay
    ensures Run(k, Init(k), acts).s.conn.st != Success
  {
    if k.sp.oneWay {
      UnacceptedProposalNeverSucceeds(k, acts);
    } else {
      OneWayClientSignsNothing(k, acts);
    }
  }
}
