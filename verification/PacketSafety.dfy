/**
 What a socket takes from the wire, whoever writes to it: any sequence of packets, in clear or sealed under
 any keys, is handed to one side.
 */
module PacketSafety {
  import opened Symbolic
  import opened Bip151
  import opened Bip150
  import opened Handshake
  import opened PeerSafety
  import opened HonestRun
  import KeyUse
  import opened PartialMessage

  // ----- One side, any packets ----------------------------------------------

  function ReceiveAll(k: Setup, atClient: bool, p: Party, ws: seq<Wire>): Party {
    if ws == [] then p else Receive(k, atClient, ReceiveAll(k, atClient, p, ws[..|ws| - 1]), ws[|ws| - 1]).0
  }

  /** Where the sessions must be complete. */
  predicate Staged(c: Conn) {
    && Disciplined(c)
    && (c.st in {Reply1, Challenge2, Proposed, Success} ==> c.outS.Complete())
    && (c.st in {Challenge2, Success} ==> c.inS.Complete())
  }

  /** A client offers its own key only once the server's is in. */
  predicate StagedClient(c: Conn) {
    Staged(c) && (c.outS.encinit ==> c.inS.Complete()) && c.st !in {Reply1, Challenge2}
  }

  predicate StagedServer(c: Conn) { Staged(c) && c.st !in {Challenge1, Proposed} }

  lemma ServerStaged(p: Peers, c: Conn, m: Msg)
    requires StagedServer(c)
    ensures StagedServer(ServerStep(p, c, m.kind, m.body).conn)
  {
    ServerStepDisciplined(p, c, m);
    ServerMoves(p, c, m.kind, m.body);
    ServerReports(p, c, m.kind, m.body);
    CompleteStays(p, "", c, m);
  }

  lemma ClientStaged(p: Peers, servName: string, c: Conn, m: Msg)
    requires StagedClient(c)
    ensures StagedClient(ClientStep(p, servName, c, m.kind, m.body).conn)
  {
    ClientStepDisciplined(p, servName, c, m);
    ClientMoves(p, servName, c, m.kind, m.body);
    ClientReports(p, servName, c, m.kind, m.body);
    CompleteStays(p, servName, c, m);
    ClientOffers(p, servName, c, m);
  }

  /** A complete session stays complete. */
  lemma CompleteStays(p: Peers, servName: string, c: Conn, m: Msg)
    ensures var d := ServerStep(p, c, m.kind, m.body).conn;
            (c.inS.Complete() ==> d.inS.Complete()) && (c.outS.Complete() ==> d.outS.Complete())
    ensures var d := ClientStep(p, servName, c, m.kind, m.body).conn;
            (c.inS.Complete() ==> d.inS.Complete()) && (c.outS.Complete() ==> d.outS.Complete())
  {
    ServerCompleteStays(p, c, m);
    ClientCompleteStays(p, servName, c, m);
  }

  lemma ServerCompleteStays(p: Peers, c: Conn, m: Msg)
    ensures var d := ServerStep(p, c, m.kind, m.body).conn;
            (c.inS.Complete() ==> d.inS.Complete()) && (c.outS.Complete() ==> d.outS.Complete())
  {
  }

  lemma ClientCompleteStays(p: Peers, servName: string, c: Conn, m: Msg)
    ensures var d := ClientStep(p, servName, c, m.kind, m.body).conn;
            (c.inS.Complete() ==> d.inS.Complete()) && (c.outS.Complete() ==> d.outS.Complete())
  {
  }

  lemma ClientOffers(p: Peers, servName: string, c: Conn, m: Msg)
    requires StagedClient(c)
    ensures var d := ClientStep(p, servName, c, m.kind, m.body).conn;
            d.outS.encinit ==> d.inS.Complete()
  {
    EncStepDisciplined(c, m.body);
  }

  lemma OpenedStaged(c: Conn, body: Body)
    ensures StagedServer(c) ==> StagedServer(Opened(c, body))
    ensures StagedClient(c) ==> StagedClient(Opened(c, body))
  {
  }

  predicate StagedParty(atClient: bool, p: Party) { if atClient then StagedClient(p.conn) else StagedServer(p.conn) }

  lemma ReceiveStaged(k: Setup, atClient: bool, p: Party, w: Wire)
    requires StagedParty(atClient, p)
    ensures StagedParty(atClient, Receive(k, atClient, p, w).0)
  {
    hide StagedClient, StagedServer, ClientStep, ServerStep;
    OpenedStaged(p.conn, w.body);
    var c := if p.conn.Complete() then Opened(p.conn, w.body) else p.conn;
    if atClient {
      ClientStaged(k.cp, k.servName, c, Msg(w.kind, w.body));
    } else {
      ServerStaged(k.sp, c, Msg(w.kind, w.body));
    }
  }

  /**
   What one packet does to what was taken and to the connection. Data is taken exactly from a packet that
   opens under the keys and number of an authenticated side; a packet that does not open, and data before
   the handshake is done, closes the connection, and nothing is taken or sent after that.
   */
  lemma ReceiveTakes(k: Setup, atClient: bool, p: Party, w: Wire)
    requires StagedParty(atClient, p)
    ensures var (q, outs) := Receive(k, atClient, p, w);
            var taken := p.up && p.conn.st == Success && w.kind == App && Opens(p.conn.inS, w);
            && q.got == p.got + (if taken then [w.body] else [])
            && (p.up && p.conn.Complete() && !Opens(p.conn.inS, w) ==> !q.up && outs == [])
            && (p.up && !p.conn.Complete() && w.Sealed? ==> !q.up && outs == [])
            && (p.up && p.conn.st != Success && w.kind == App ==> !q.up && outs == [])
            && (!p.up ==> q == p && outs == [])
            && (taken ==> q.up && outs == [])
  {
    hide ClientStep, ServerStep;
    assert p.got + [] == p.got;
  }

  /** The side as it starts: the server has been told to start. */
  function Fresh(k: Setup, atClient: bool): Party { if atClient then Init(k).c else Init(k).s }

  lemma FreshStaged(k: Setup, atClient: bool)
    ensures StagedParty(atClient, Fresh(k, atClient)) && Fresh(k, atClient).got == []
  {
  }

  lemma {:induction false} AllStaged(k: Setup, atClient: bool, ws: seq<Wire>)
    ensures StagedParty(atClient, ReceiveAll(k, atClient, Fresh(k, atClient), ws))
  {
    hide Receive, StagedParty, Fresh;
    if ws == [] {
      FreshStaged(k, atClient);
    } else {
      AllStaged(k, atClient, ws[..|ws| - 1]);
      ReceiveStaged(k, atClient, ReceiveAll(k, atClient, Fresh(k, atClient), ws[..|ws| - 1]), ws[|ws| - 1]);
    }
  }

  /** The bodies of the data packets that opened when they came, at an authenticated side. */
  function Authentic(k: Setup, atClient: bool, ws: seq<Wire>): seq<Body> {
    if ws == [] then [] else
    var front, w := ws[..|ws| - 1], ws[|ws| - 1];
    var p := ReceiveAll(k, atClient, Fresh(k, atClient), front);
    Authentic(k, atClient, front)
    + if p.up && p.conn.st == Success && w.kind == App && Opens(p.conn.inS, w) then [w.body] else []
  }

  /** Whatever is written to a side, it takes exactly the authentic data, in order. */
  lemma {:induction false} TakesAuthenticOnly(k: Setup, atClient: bool, ws: seq<Wire>)
    ensures ReceiveAll(k, atClient, Fresh(k, atClient), ws).got == Authentic(k, atClient, ws)
  {
    hide Receive, StagedParty, Fresh;
    if ws == [] {
      FreshStaged(k, atClient);
    } else {
      var front := ws[..|ws| - 1];
      TakesAuthenticOnly(k, atClient, front);
      AllStaged(k, atClient, front);
      ReceiveTakes(k, atClient, ReceiveAll(k, atClient, Fresh(k, atClient), front), ws[|ws| - 1]);
    }
  }

  /** The keys in use are the stored ones. */
  predicate Loaded(s: Session) { s.ctx == s.keys && s.cipher.ChaCha20Poly1305? }

  /** A packet opens only in one place: not again after it was counted, and not under keys that were hashed on. */
  lemma OpensOnce(s: Session, w: Wire, size: nat)
    requires Opens(s, w) && Loaded(s) && s.num < WORD
    ensures !Opens(Counted(s, size), w) && !Opens(Rekeyed151(s), w)
  {
    assert KeyUse.Depth(Rekeyed151(s).ctx.chacha) == KeyUse.Depth(s.ctx.chacha) + 1;
  }

  /** Data that comes a second time closes the connection, and is not taken again. */
  lemma ReplayCloses(k: Setup, atClient: bool, p: Party, w: Wire)
    requires StagedParty(atClient, p) && p.conn.inS.num < WORD
    requires p.up && p.conn.st == Success && w.kind == App && Opens(p.conn.inS, w)
    ensures var q := Receive(k, atClient, p, w).0;
            var r := Receive(k, atClient, q, w).0;
            q.got == p.got + [w.body] && r.got == q.got && !r.up
  {
    hide ClientStep, ServerStep;
    ReceiveTakes(k, atClient, p, w);
    ReceiveStaged(k, atClient, p, w);
  }

  // ----- What a message sends -----------------------------------------------

  lemma {:induction false} CarriesJoins(a: seq<Wire>, b: seq<Wire>, from: Link, mid: Link, to: Link)
    requires Carries(a, from, mid) && Carries(b, mid, to)
    ensures Carries(a + b, from, to)
    decreases |a|
  {
    hide Past;
    if a == [] {
      assert a + b == b;
    } else {
      var ab := a + b;
      assert ab[0] == a[0] && ab[1..] == a[1..] + b;
      CarriesJoins(a[1..], b, Past(from, a[0].kind), mid, to);
    }
  }

  lemma AppsAfterRekey(w: Wire, b: seq<Wire>)
    requires w.kind == Rekey
    ensures Apps([w] + b) == Apps(b)
  {
    assert ([w] + b)[1..] == b;
  }

  lemma CountedLink(s: Session, size: nat)
    requires Loaded(s)
    ensures Loaded(Counted(s, size)) && LinkOf(Counted(s, size)) == Past(LinkOf(s), App)
  {
  }

  lemma {:induction false} SealedCarry(s: Session, packets: seq<Packet>, name: Packet -> nat)
    requires Loaded(s)
    ensures var t := KeyUse.AfterUses(s, KeyUse.SealUses(packets));
            && Loaded(t) && Carries(KeyUse.SealedPackets(s, packets, name), LinkOf(s), LinkOf(t))
            && |Apps(KeyUse.SealedPackets(s, packets, name))| == |packets|
            && forall i :: 0 <= i < |packets| ==>
                 Apps(KeyUse.SealedPackets(s, packets, name))[i] ==
                 AppBody(name(packets[i]), KeyUse.PlainSize(packets[i]) - 5)
  {
    hide KeyUse.PlainSize, Counted, LinkOf, Loaded, Past;
    if packets == [] {
      KeyUse.NothingSealed(s, name);
    } else {
      var n := |packets| - 1;
      SealedCarry(s, packets[..n], name);
      KeyUse.SealStep(s, packets, n, name);
      assert packets[..n + 1] == packets;
      var t := KeyUse.AfterUses(s, KeyUse.SealUses(packets[..n]));
      var w := Sealed(t.ctx, t.num, App, AppBody(name(packets[n]), KeyUse.PlainSize(packets[n]) - 5));
      CountedLink(t, KeyUse.PlainSize(packets[n]));
      OneCarries(t, w);
      CarriesOneMore(KeyUse.SealedPackets(s, packets[..n], name), LinkOf(s), LinkOf(t), w);
    }
  }

  lemma OneCarries(t: Session, w: Wire)
    requires w.Sealed? && w.keys == t.ctx && w.num == t.num
    requires w.kind == App || (w.kind == Rekey && w.body == REKEY_BODY)
    ensures Carries([w], LinkOf(t), Past(LinkOf(t), w.kind))
  {
    assert [w][1..] == [];
  }

  /**
   What is written for a message opens at the other end, packet by packet, the rekey included, and leaves it
   at the writer's keys and number; the data that comes out is the message's packets in order.
   */
  lemma SentOpens(s: Session, m: KeyUse.Outgoing, name: Packet -> nat)
    requires Loaded(s)
    ensures var t, ws := KeyUse.AfterUses(s, KeyUse.SendUses(s, m)), KeyUse.Sent(s, m, name);
            var packets := PacketsOf(m.id, m.payload);
            && Loaded(t) && Carries(ws, LinkOf(s), LinkOf(t)) && |Apps(ws)| == |packets|
            && (forall i :: 0 <= i < |packets| ==>
                  Apps(ws)[i] == AppBody(name(packets[i]), KeyUse.PlainSize(packets[i]) - 5))
            && (m.due || s.bytes + |m.payload| >= MAX_BYTES <==> |ws| > |packets|)
  {
    hide KeyUse.SealedPackets, KeyUse.SealUses, KeyUse.AfterUses, KeyUse.PlainSize, PacketsOf, LinkOf, Counted,
         Rekeyed151;
    var packets := PacketsOf(m.id, m.payload);
    var first := if KeyUse.NeedsRekey(s, m) then [KeyUse.SealUse(38), KeyUse.RekeyUse] else [];
    var u := KeyUse.AfterUses(s, first);
    KeyUse.RekeyUses(s);
    RekeyLink(s);
    KeyUse.UsesAppend(s, first, KeyUse.SealUses(packets));
    SealedCarry(u, packets, name);
    SealedSize(u, packets, name);
    if KeyUse.NeedsRekey(s, m) {
      var w := Sealed(s.ctx, s.num, Rekey, REKEY_BODY);
      OneCarries(s, w);
      AppsAfterRekey(w, KeyUse.SealedPackets(u, packets, name));
      CarriesJoins([w], KeyUse.SealedPackets(u, packets, name), LinkOf(s), LinkOf(u),
                   LinkOf(KeyUse.AfterUses(u, KeyUse.SealUses(packets))));
    }
  }

  lemma {:induction false} SealedSize(s: Session, packets: seq<Packet>, name: Packet -> nat)
    ensures |KeyUse.SealedPackets(s, packets, name)| == |packets|
  {
    hide KeyUse.AfterUses;
    if packets != [] {
      SealedSize(s, packets[..|packets| - 1], name);
    }
  }

  lemma RekeyLink(s: Session)
    requires Loaded(s)
    ensures var u := Rekeyed151(Counted(s, 38)); Loaded(u) && LinkOf(u) == Past(LinkOf(s), Rekey)
  {
  }
}
