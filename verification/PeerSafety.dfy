/**
 What holds of one side of the handshake whatever the other side sends.

 A run is any sequence of messages, of any type and body, in any order, handed to
 the driver one after the other (also after it reported an error).
 */
module PeerSafety {
  import opened Wrappers
  import opened Symbolic
  import opened Bip151
  import opened Bip150
  import opened Handshake

  datatype Msg = Msg(kind: MsgType, body: Body)

  function ServerRun(p: Peers, c: Conn, ms: seq<Msg>): Conn {
    if ms == [] then c else
    var m := ms[|ms| - 1];
    ServerStep(p, ServerRun(p, c, ms[..|ms| - 1]), m.kind, m.body).conn
  }

  function ClientRun(p: Peers, servName: string, c: Conn, ms: seq<Msg>): Conn {
    if ms == [] then c else
    var m := ms[|ms| - 1];
    ClientStep(p, servName, ClientRun(p, servName, c, ms[..|ms| - 1]), m.kind, m.body).conn
  }

  // ----- Key discipline -----------------------------------------------------

  /** The HKDF output a cipher key descends from. */
  function Root(k: CipherKey): Option<CipherKey> {
    match k
    case ZeroKey => None
    case Hkdf(_, _) => Some(k)
    case Hash151(_, prev) => Root(prev)
    case Hash150(_, prev, _, _, _) => Root(prev)
  }

  /** Both cipher keys descend from the secret that the session id names. */
  predicate Rooted(s: Session) {
    match s.sid
    case NoId => true
    case Sid(secret) =>
      Root(s.keys.poly) == Some(Hkdf(secret, K2)) && Root(s.keys.chacha) == Some(Hkdf(secret, K1))
  }

  predicate DisciplinedSession(s: Session) {
    && (s.encack ==> s.encinit)
    && (s.Complete() ==> s.priv.None? && s.sid.Sid?)
    && (!s.Complete() ==> s.sid == NoId)
    && s.ctx == s.keys
    && Rooted(s)
  }

  predicate Disciplined(c: Conn) {
    DisciplinedSession(c.inS) && DisciplinedSession(c.outS) && (c.inS.encinit ==> c.inS.encack)
    && !c.inS.outgoing && c.outS.outgoing
  }

  /** A session id, once set, is never set again. */
  predicate SameIds(c: Conn, d: Conn) {
    && (c.inS.sid != NoId ==> d.inS.sid == c.inS.sid)
    && (c.outS.sid != NoId ==> d.outS.sid == c.outS.sid)
  }

  /** Counting a packet and rekeying keep a session's discipline and its id. */
  lemma SessionOpsDisciplined(s: Session, size: nat, req: Point, res: Point, opposite: KeySet)
    requires DisciplinedSession(s)
    ensures DisciplinedSession(Counted(s, size)) && Counted(s, size).sid == s.sid
    ensures DisciplinedSession(Rekeyed151(s)) && Rekeyed151(s).sid == s.sid
    ensures DisciplinedSession(Rekeyed150(s, req, res, opposite)) && Rekeyed150(s, req, res, opposite).sid == s.sid
  {
  }

  /** Authentication steps, before the final rekey, leave both sessions alone. */
  predicate SameSessions(c: Conn, d: Conn) {
    d.inS == c.inS && d.outS == c.outS
  }

  lemma AuthKeepsSessions(p: Peers, c: Conn, body: Body, target: string, first: bool)
    ensures SameSessions(c, GetAuthchallenge(p, c, target, first).conn)
    ensures SameSessions(c, GetAuthreply(p, c, first).conn)
    ensures SameSessions(c, GetAuthpropose(p, c).conn)
    ensures SameSessions(c, ProcessAuthchallenge(p, c, body, first).0)
    ensures SameSessions(c, ProcessAuthreply(p, c, body, first).0)
    ensures SameSessions(c, ProcessAuthpropose(p, c, body).0)
  {
  }

  lemma SealDisciplined(c: Conn, body: Body)
    requires Disciplined(c)
    ensures Disciplined(AfterSeal(c, body)) && SameIds(c, AfterSeal(c, body))
  {
    SessionOpsDisciplined(c.outS, PacketSize(body), ZeroPoint, ZeroPoint, NO_KEYS);
  }

  lemma HandshakeRekeyDisciplined(p: Peers, c: Conn)
    requires Disciplined(c)
    ensures Disciplined(HandshakeRekey(p, c)) && SameIds(c, HandshakeRekey(p, c))
  {
    SessionOpsDisciplined(c.outS, 0, Pub(p.own), c.chosen, c.inS.keys);
    SessionOpsDisciplined(c.inS, 0, c.chosen, Pub(p.own), c.outS.keys);
  }

  /** Steps of the encryption layer, server and client alike. */
  lemma EncStepDisciplined(c: Conn, body: Body)
    requires Disciplined(c)
    ensures Disciplined(GetEncinit(c).conn) && SameIds(c, GetEncinit(c).conn)
    ensures forall out :: Disciplined(ProcessEncack(c, body, out).0) && SameIds(c, ProcessEncack(c, body, out).0)
    ensures var (d, code) := ProcessEncinit(c, body);
            if code == 0
            then GetEncack(d).code == 0 && Disciplined(GetEncack(d).conn) && SameIds(c, GetEncack(d).conn)
                 && GetEncack(d).conn.inS.Complete() && GetEncack(d).conn.(inS := c.inS) == c
            else Disciplined(d) && SameIds(c, d) && d.(inS := d.inS.(cipher := c.inS.cipher)) == c
  {
    SessionOpsDisciplined(c.inS, 0, ZeroPoint, ZeroPoint, NO_KEYS);
  }

  /** What a step does, up to the state and key chosen by the authentication layer. */
  lemma ServerStepDisciplined(p: Peers, c: Conn, m: Msg)
    requires Disciplined(c)
    ensures Disciplined(ServerStep(p, c, m.kind, m.body).conn)
    ensures SameIds(c, ServerStep(p, c, m.kind, m.body).conn)
  {
    if AuthKind(m.kind) {
      ServerAuthDisciplined(p, c, m);
    } else {
      EncStepDisciplined(c, m.body);
    }
  }

  lemma ServerAuthDisciplined(p: Peers, c: Conn, m: Msg)
    requires Disciplined(c) && AuthKind(m.kind)
    ensures Disciplined(ServerStep(p, c, m.kind, m.body).conn)
    ensures SameIds(c, ServerStep(p, c, m.kind, m.body).conn)
  {
    match m.kind {
      case Challenge =>
        AuthKeepsSessions(p, c, m.body, "", true);
        var c1 := ProcessAuthchallenge(p, c, m.body, true).0;
        AuthKeepsSessions(p, c1, m.body, "", true);
        var r := GetAuthreply(p, c1, true);
        SealDisciplined(r.conn, r.body);
      case Propose =>
        AuthKeepsSessions(p, c, m.body, "", true);
        var c1 := ProcessAuthpropose(p, c, m.body).0;
        AuthKeepsSessions(p, c1, m.body, "", false);
        var r := GetAuthchallenge(p, c1, "", false);
        SealDisciplined(r.conn, r.body);
      case Reply =>
        AuthKeepsSessions(p, c, m.body, "", false);
        HandshakeRekeyDisciplined(p, ProcessAuthreply(p, c, m.body, false).0);
    }
  }

  lemma ClientStepDisciplined(p: Peers, servName: string, c: Conn, m: Msg)
    requires Disciplined(c)
    ensures Disciplined(ClientStep(p, servName, c, m.kind, m.body).conn)
    ensures SameIds(c, ClientStep(p, servName, c, m.kind, m.body).conn)
  {
    if m.kind == EncAck || m.kind == Reply || m.kind == Challenge {
      ClientAuthDisciplined(p, servName, c, m);
    } else {
      EncStepDisciplined(c, m.body);
      if m.kind == EncInit && ProcessEncinit(c, m.body).1 == 0 {
        EncStepDisciplined(GetEncack(ProcessEncinit(c, m.body).0).conn, m.body);
      }
    }
  }

  lemma ClientAuthDisciplined(p: Peers, servName: string, c: Conn, m: Msg)
    requires Disciplined(c) && m.kind in {EncAck, Reply, Challenge}
    ensures Disciplined(ClientStep(p, servName, c, m.kind, m.body).conn)
    ensures SameIds(c, ClientStep(p, servName, c, m.kind, m.body).conn)
  {
    match m.kind {
      case EncAck =>
        EncStepDisciplined(c, m.body);
        var c1 := ProcessEncack(c, m.body, true).0;
        AuthKeepsSessions(p, c1, m.body, servName, true);
        var r := GetAuthchallenge(p, c1, servName, true);
        SealDisciplined(r.conn, r.body);
      case Reply =>
        AuthKeepsSessions(p, c, m.body, "", true);
        var c1 := ProcessAuthreply(p, c, m.body, true).0;
        AuthKeepsSessions(p, c1, m.body, "", true);
        var r := GetAuthpropose(p, c1);
        SealDisciplined(r.conn, r.body);
      case Challenge =>
        AuthKeepsSessions(p, c, m.body, "", false);
        var c1 := ProcessAuthchallenge(p, c, m.body, false).0;
        AuthKeepsSessions(p, c1, m.body, "", false);
        var r := GetAuthreply(p, c1, false);
        SealDisciplined(r.conn, r.body);
        HandshakeRekeyDisciplined(p, AfterSeal(r.conn, r.body));
    }
  }

  /** In every server run, and from every point of it on, keys are derived at most once per session. */
  lemma {:induction false} ServerDerivesOnce(p: Peers, inPriv: Name, outPriv: Name, ms: seq<Msg>, n: nat)
    requires n <= |ms|
    ensures Disciplined(ServerRun(p, NewConn(inPriv, outPriv), ms))
    ensures SameIds(ServerRun(p, NewConn(inPriv, outPriv), ms[..n]), ServerRun(p, NewConn(inPriv, outPriv), ms))
  {
    if n == |ms| {
      assert ms[..n] == ms;
      if ms != [] {
        ServerDerivesOnce(p, inPriv, outPriv, ms[..n - 1], n - 1);
        ServerStepDisciplined(p, ServerRun(p, NewConn(inPriv, outPriv), ms[..n - 1]), ms[n - 1]);
      }
    } else {
      var before := ms[..|ms| - 1];
      assert before[..n] == ms[..n];
      ServerDerivesOnce(p, inPriv, outPriv, before, n);
      ServerStepDisciplined(p, ServerRun(p, NewConn(inPriv, outPriv), before), ms[|ms| - 1]);
    }
  }

  lemma {:induction false} ClientDerivesOnce(p: Peers, servName: string, inPriv: Name, outPriv: Name, ms: seq<Msg>,
                                             n: nat)
    requires n <= |ms|
    ensures Disciplined(ClientRun(p, servName, NewConn(inPriv, outPriv), ms))
    ensures SameIds(ClientRun(p, servName, NewConn(inPriv, outPriv), ms[..n]),
                    ClientRun(p, servName, NewConn(inPriv, outPriv), ms))
  {
    if n == |ms| {
      assert ms[..n] == ms;
      if ms != [] {
        ClientDerivesOnce(p, servName, inPriv, outPriv, ms[..n - 1], n - 1);
        ClientStepDisciplined(p, servName, ClientRun(p, servName, NewConn(inPriv, outPriv), ms[..n - 1]), ms[n - 1]);
      }
    } else {
      var before := ms[..|ms| - 1];
      assert before[..n] == ms[..n];
      ClientDerivesOnce(p, servName, inPriv, outPriv, before, n);
      ClientStepDisciplined(p, servName, ClientRun(p, servName, NewConn(inPriv, outPriv), before), ms[|ms| - 1]);
    }
  }

  // ----- The server ---------------------------------------------------------

  predicate AuthKind(k: MsgType) {
    k == Challenge || k == Propose || k == Reply
  }

  /** No authentication message arrived at or after `from`, bar those in `but`. */
  ghost predicate QuietAfter(ms: seq<Msg>, from: nat, but: set<nat>) {
    forall n: nat :: from <= n < |ms| && n !in but ==> !AuthKind(ms[n].kind)
  }

  /** Message i is a good step 1 challenge; its session may still have been keyless. */
  predicate ChallengeSeen(p: Peers, c: Conn, ms: seq<Msg>, i: nat) {
    && i < |ms| && ms[i].kind == Challenge
    && (ms[i].body == HashBody(AuthHash(c.inS.sid, TagI, Pub(p.own)))
        || ms[i].body == HashBody(AuthHash(NoId, TagI, Pub(p.own))))
  }

  /** Message j proposed the client key that the server then chose (stand-in value in one-way mode). */
  predicate ProposeSeen(p: Peers, c: Conn, ms: seq<Msg>, j: nat, key: Point) {
    && j < |ms| && ms[j].kind == Propose
    && ms[j].body == HashBody(AuthHash(c.inS.sid, TagP, key))
    && (if p.oneWay then key == StandIn else key in p.authorized)
  }

  /** Message k proved possession of the chosen key (or, in one-way mode, just named it). */
  predicate ReplySeen(p: Peers, c: Conn, ms: seq<Msg>, k: nat) {
    && k < |ms| && ms[k].kind == Reply && ms[k].body.ReplyBody?
    && (if p.oneWay then c.chosen == Prefix33(ms[k].body.reply)
        else Verifies(c.chosen, c.inS.sid, ms[k].body.reply))
  }

  ghost predicate ProposalEvidence(p: Peers, c: Conn, ms: seq<Msg>, i: nat, j: nat) {
    && i < j
    && ChallengeSeen(p, c, ms, i)
    && ProposeSeen(p, c, ms, j, if p.oneWay then StandIn else c.chosen)
    && QuietAfter(ms, i + 1, {j})
  }

  ghost predicate ServerEvidence(p: Peers, c: Conn, ms: seq<Msg>, i: nat, j: nat, k: nat) {
    && i < j < k
    && ChallengeSeen(p, c, ms, i)
    && ProposeSeen(p, c, ms, j, if p.oneWay then StandIn else c.chosen)
    && ReplySeen(p, c, ms, k)
    && QuietAfter(ms, i + 1, {j, k})
  }

  ghost predicate ServerInv(p: Peers, ms: seq<Msg>, c: Conn) {
    && Disciplined(c)
    && match c.st {
         case Inactive => true
         case ErrState => true
         case Reply1 => c.outS.Complete() && exists i: nat :: ChallengeSeen(p, c, ms, i) && QuietAfter(ms, i + 1, {})
         case Challenge2 =>
           c.Complete() && exists i: nat, j: nat :: ProposalEvidence(p, c, ms, i, j)
         case Success => c.Complete() && exists i: nat, j: nat, k: nat :: ServerEvidence(p, c, ms, i, j, k)
         case _ => false
       }
  }

  lemma ServerStepKeeps(p: Peers, ms: seq<Msg>, c: Conn, m: Msg)
    requires ServerInv(p, ms, c)
    ensures ServerInv(p, ms + [m], ServerStep(p, c, m.kind, m.body).conn)
  {
    match m.kind {
      case Challenge => ServerChallengeKeeps(p, ms, c, m.body);
      case Propose => ServerProposeKeeps(p, ms, c, m.body);
      case Reply => ServerReplyKeeps(p, ms, c, m.body);
      case _ => ServerOtherKeeps(p, ms, c, m);
    }
  }

  lemma ServerChallengeKeeps(p: Peers, ms: seq<Msg>, c: Conn, body: Body)
    requires ServerInv(p, ms, c)
    ensures ServerInv(p, ms + [Msg(Challenge, body)], ServerStep(p, c, Challenge, body).conn)
  {
    var m := Msg(Challenge, body);
    ServerAuthDisciplined(p, c, m);
    var d := ServerStep(p, c, Challenge, body).conn;
    assert d.st == Reply1 || d.st == ErrState;
    if d.st == Reply1 {
      assert (ms + [m])[|ms|] == m;
      assert ChallengeSeen(p, d, ms + [m], |ms|) && QuietAfter(ms + [m], |ms| + 1, {});
    }
  }

  lemma ServerProposeKeeps(p: Peers, ms: seq<Msg>, c: Conn, body: Body)
    requires ServerInv(p, ms, c)
    ensures ServerInv(p, ms + [Msg(Propose, body)], ServerStep(p, c, Propose, body).conn)
  {
    var m := Msg(Propose, body);
    ServerAuthDisciplined(p, c, m);
    var d := ServerStep(p, c, Propose, body).conn;
    assert d.st == Challenge2 || d.st == ErrState;
    if d.st == Challenge2 {
      var ns := ms + [m];
      assert ns[|ms|] == m;
      assert c.st == Reply1;
      var i: nat :| ChallengeSeen(p, c, ms, i) && QuietAfter(ms, i + 1, {});
      assert ns[i] == ms[i];
      assert ProposalEvidence(p, d, ns, i, |ms|);
    }
  }

  lemma ServerReplyKeeps(p: Peers, ms: seq<Msg>, c: Conn, body: Body)
    requires ServerInv(p, ms, c)
    ensures ServerInv(p, ms + [Msg(Reply, body)], ServerStep(p, c, Reply, body).conn)
  {
    var m := Msg(Reply, body);
    ServerAuthDisciplined(p, c, m);
    var d := ServerStep(p, c, Reply, body).conn;
    assert d.st == Success || d.st == ErrState;
    if d.st == Success {
      var ns := ms + [m];
      assert ns[|ms|] == m;
      assert c.st == Challenge2;
      var i: nat, j: nat :| ProposalEvidence(p, c, ms, i, j);
      assert ns[i] == ms[i] && ns[j] == ms[j];
      assert ServerEvidence(p, d, ns, i, j, |ms|);
    }
  }

  /** Messages of the encryption layer leave the evidence as it is. */
  lemma ServerOtherKeeps(p: Peers, ms: seq<Msg>, c: Conn, m: Msg)
    requires ServerInv(p, ms, c) && !AuthKind(m.kind)
    ensures ServerInv(p, ms + [m], ServerStep(p, c, m.kind, m.body).conn)
  {
    ServerStepDisciplined(p, c, m);
    var d := ServerStep(p, c, m.kind, m.body).conn;
    var ns := ms + [m];
    assert ns[|ms|] == m && forall n: nat :: n < |ms| ==> ns[n] == ms[n];
    assert d.st == c.st && d.chosen == c.chosen;
    match c.st {
      case Reply1 =>
        var i: nat :| ChallengeSeen(p, c, ms, i) && QuietAfter(ms, i + 1, {});
        assert ChallengeSeen(p, d, ns, i) && QuietAfter(ns, i + 1, {});
      case Challenge2 =>
        var i: nat, j: nat :| ProposalEvidence(p, c, ms, i, j);
        assert ProposalEvidence(p, d, ns, i, j);
      case Success =>
        var i: nat, j: nat, k: nat :| ServerEvidence(p, c, ms, i, j, k);
        assert ServerEvidence(p, d, ns, i, j, k);
      case _ =>
    }
  }

  lemma {:induction false} ServerRunKeeps(p: Peers, inPriv: Name, outPriv: Name, ms: seq<Msg>)
    ensures ServerInv(p, ms, ServerRun(p, NewConn(inPriv, outPriv), ms))
  {
    if ms != [] {
      var n := |ms| - 1;
      ServerRunKeeps(p, inPriv, outPriv, ms[..n]);
      ServerStepKeeps(p, ms[..n], ServerRun(p, NewConn(inPriv, outPriv), ms[..n]), ms[n]);
      assert ms == ms[..n] + [ms[n]];
    }
  }

  /**
   A server that reached SUCCESS was given, since its last reset and in this order, a good
   challenge, a proposal of an authorised key and that key's signature over the in-session id.
   */
  lemma ServerSuccessIsEarned(p: Peers, inPriv: Name, outPriv: Name, ms: seq<Msg>)
    requires ServerRun(p, NewConn(inPriv, outPriv), ms).st == Success
    ensures ServerRun(p, NewConn(inPriv, outPriv), ms).Complete()
    ensures exists i: nat, j: nat, k: nat ::
              ServerEvidence(p, ServerRun(p, NewConn(inPriv, outPriv), ms), ms, i, j, k)
  {
    ServerRunKeeps(p, inPriv, outPriv, ms);
  }

  // ----- The client ---------------------------------------------------------

  predicate ClientAuthKind(k: MsgType) {
    k == Challenge || k == Reply
  }

  ghost predicate ClientQuietAfter(ms: seq<Msg>, from: nat, but: set<nat>) {
    forall n: nat :: from <= n < |ms| && n !in but ==> !ClientAuthKind(ms[n].kind)
  }

  predicate ServerKnown(p: Peers, servName: string, c: Conn) {
    servName in p.names && c.chosen == p.names[servName]
  }

  /** Message i is the server's signature over the client's in-session id. */
  predicate ServerProved(c: Conn, ms: seq<Msg>, i: nat) {
    && i < |ms| && ms[i].kind == Reply && ms[i].body.ReplyBody?
    && Verifies(c.chosen, c.inS.sid, ms[i].body.reply)
  }

  /** Message j shows that the server accepted the key this client proposed. */
  predicate ChallengeBack(p: Peers, c: Conn, ms: seq<Msg>, j: nat) {
    && j < |ms| && ms[j].kind == Challenge
    && ms[j].body == HashBody(AuthHash(c.inS.sid, TagR, if p.oneWay then StandIn else Pub(p.own)))
  }

  ghost predicate ClientEvidence(p: Peers, servName: string, c: Conn, ms: seq<Msg>, i: nat, j: nat) {
    && i < j
    && ServerKnown(p, servName, c)
    && ServerProved(c, ms, i)
    && ChallengeBack(p, c, ms, j)
    && ClientQuietAfter(ms, i + 1, {j})
  }

  ghost predicate ClientInv(p: Peers, servName: string, ms: seq<Msg>, c: Conn) {
    && Disciplined(c)
    && (c.outS.encinit ==> c.inS.Complete())
    && match c.st {
         case Inactive => true
         case ErrState => true
         case Challenge1 => c.Complete() && ServerKnown(p, servName, c)
         case Proposed =>
           c.Complete() && ServerKnown(p, servName, c)
           && exists i: nat :: ServerProved(c, ms, i) && ClientQuietAfter(ms, i + 1, {})
         case Success => c.Complete() && exists i: nat, j: nat :: ClientEvidence(p, servName, c, ms, i, j)
         case _ => false
       }
  }

  lemma ClientStepKeeps(p: Peers, servName: string, ms: seq<Msg>, c: Conn, m: Msg)
    requires ClientInv(p, servName, ms, c)
    ensures ClientInv(p, servName, ms + [m], ClientStep(p, servName, c, m.kind, m.body).conn)
  {
    match m.kind {
      case Reply => ClientReplyKeeps(p, servName, ms, c, m.body);
      case Challenge => ClientChallengeKeeps(p, servName, ms, c, m.body);
      case _ => ClientOtherKeeps(p, servName, ms, c, m);
    }
  }

  lemma ClientReplyKeeps(p: Peers, servName: string, ms: seq<Msg>, c: Conn, body: Body)
    requires ClientInv(p, servName, ms, c)
    ensures ClientInv(p, servName, ms + [Msg(Reply, body)], ClientStep(p, servName, c, Reply, body).conn)
  {
    var m := Msg(Reply, body);
    ClientAuthDisciplined(p, servName, c, m);
    var d := ClientStep(p, servName, c, Reply, body).conn;
    assert d.st == Proposed || d.st == ErrState;
    if d.st == Proposed {
      assert (ms + [m])[|ms|] == m;
      assert c.st == Challenge1;
      assert ServerProved(d, ms + [m], |ms|) && ClientQuietAfter(ms + [m], |ms| + 1, {});
    }
  }

  lemma ClientChallengeKeeps(p: Peers, servName: string, ms: seq<Msg>, c: Conn, body: Body)
    requires ClientInv(p, servName, ms, c)
    ensures ClientInv(p, servName, ms + [Msg(Challenge, body)], ClientStep(p, servName, c, Challenge, body).conn)
  {
    var m := Msg(Challenge, body);
    ClientAuthDisciplined(p, servName, c, m);
    var d := ClientStep(p, servName, c, Challenge, body).conn;
    assert d.st == Success || d.st == ErrState;
    if d.st == Success {
      var ns := ms + [m];
      assert ns[|ms|] == m;
      assert c.st == Proposed;
      var i: nat :| ServerProved(c, ms, i) && ClientQuietAfter(ms, i + 1, {});
      assert ns[i] == ms[i];
      assert ClientEvidence(p, servName, d, ns, i, |ms|);
    }
  }

  lemma ClientOtherKeeps(p: Peers, servName: string, ms: seq<Msg>, c: Conn, m: Msg)
    requires ClientInv(p, servName, ms, c) && !ClientAuthKind(m.kind)
    ensures ClientInv(p, servName, ms + [m], ClientStep(p, servName, c, m.kind, m.body).conn)
  {
    ClientStepDisciplined(p, servName, c, m);
    var d := ClientStep(p, servName, c, m.kind, m.body).conn;
    var ns := ms + [m];
    assert ns[|ms|] == m && forall n: nat :: n < |ms| ==> ns[n] == ms[n];
    if m.kind == EncAck && ProcessEncack(c, m.body, true).1 == 0 {
      assert d.st == Challenge1 || d.st == ErrState;
    } else {
      assert d.st == c.st && d.chosen == c.chosen;
      if c.st == Proposed {
        var i: nat :| ServerProved(c, ms, i) && ClientQuietAfter(ms, i + 1, {});
        assert ServerProved(d, ns, i) && ClientQuietAfter(ns, i + 1, {});
      } else if c.st == Success {
        var i: nat, j: nat :| ClientEvidence(p, servName, c, ms, i, j);
        assert ClientEvidence(p, servName, d, ns, i, j);
      }
    }
  }

  lemma {:induction false} ClientRunKeeps(p: Peers, servName: string, inPriv: Name, outPriv: Name, ms: seq<Msg>)
    ensures ClientInv(p, servName, ms, ClientRun(p, servName, NewConn(inPriv, outPriv), ms))
  {
    if ms != [] {
      var n := |ms| - 1;
      ClientRunKeeps(p, servName, inPriv, outPriv, ms[..n]);
      ClientStepKeeps(p, servName, ms[..n], ClientRun(p, servName, NewConn(inPriv, outPriv), ms[..n]), ms[n]);
      assert ms == ms[..n] + [ms[n]];
    }
  }

  /**
   A client that reached SUCCESS, in either mode, holds the key registered for the server's
   name as its peer key and was given that key's signature over its in-session id.
   */
  lemma ClientSuccessIsEarned(p: Peers, servName: string, inPriv: Name, outPriv: Name, ms: seq<Msg>)
    requires ClientRun(p, servName, NewConn(inPriv, outPriv), ms).st == Success
    ensures ClientRun(p, servName, NewConn(inPriv, outPriv), ms).Complete()
    ensures exists i: nat, j: nat ::
              ClientEvidence(p, servName, ClientRun(p, servName, NewConn(inPriv, outPriv), ms), ms, i, j)
  {
    ClientRunKeeps(p, servName, inPriv, outPriv, ms);
  }

  // ----- What the drivers report --------------------------------------------

  /** The body is the hash of this key under the in-session's id, with the tag of the step. */
  predicate Hashes(c: Conn, body: Body, tag: Tag, key: Point) { body == HashBody(AuthHash(c.inS.sid, tag, key)) }

  /** An encinit that keys the in-session. */
  predicate GoodEncinit(c: Conn, body: Body) {
    !c.inS.encinit && c.inS.priv.Some? && body.EncInitBody? && body.key.Pub? && body.cipher == 0
  }

  /** An encack that keys the out-session, which has offered a key. */
  predicate GoodEncack(c: Conn, body: Body) {
    c.outS.encinit && c.outS.cipher.ChaCha20Poly1305? && c.outS.priv.Some? && body.PointBody? && body.key.Pub?
  }

  /** A proposal that the server takes: the stand-in, or an authorised key. */
  predicate GoodProposal(p: Peers, c: Conn, body: Body) {
    c.st == Reply1 &&
    if p.oneWay then Hashes(c, body, TagP, StandIn) else exists key :: key in p.authorized && Hashes(c, body, TagP, key)
  }

  /** A signature by the chosen key over the in-session id; a one-way server takes any reply that can be read. */
  predicate GoodReply(p: Peers, c: Conn, body: Body, atClient: bool) {
    && c.st == (if atClient then Challenge1 else Challenge2) && body.ReplyBody? && DerOk(body.reply)
    && ((p.oneWay && !atClient) || Verifies(c.chosen, c.inS.sid, body.reply))
  }

  /** The server has a key to sign with and a session to send its reply in. */
  predicate CanSign(p: Peers, c: Conn) { c.outS.Complete() && p.hasPriv }

  /**
   What the server answers to each message, in terms of the message and the state it finds.
   */
  lemma ServerReports(p: Peers, c: Conn, kind: MsgType, body: Body)
    ensures ServerStep(p, c, kind, body).status ==
            match kind
            case Start => if c.outS.priv.Some? then StepSuccessful else ErrorGetEncInit
            case Rekey =>
              if c.st != Success then Error
              else if body == PointBody(ZeroPoint) then StepSuccessful else ErrorProcessEncAck
            case EncInit =>
              if !GoodEncinit(c, body) then ErrorProcessEncInit
              else if c.inS.outgoing then ErrorGetEncAck else StepSuccessful
            case EncAck => if GoodEncack(c, body) then StepSuccessful else ErrorProcessEncAck
            case Challenge =>
              if !Hashes(c, body, TagI, Pub(p.own)) then ErrorProcessAuthChallenge
              else if CanSign(p, c) then StepSuccessful else ErrorGetAuthReply
            case Propose =>
              if !GoodProposal(p, c, body) then ErrorProcessAuthPropose
              else if c.inS.Complete() then StepSuccessful else ErrorGetAuthChallenge
            case Reply => if GoodReply(p, c, body, false) then Completed else ErrorProcessAuthReply
            case _ => Error
  {
    match kind {
      case EncInit => EncinitTaken(c, body);
      case EncAck => EncackTaken(c, body);
      case Propose => ProposalTaken(p, c, body);
      case _ =>
    }
  }

  lemma EncinitTaken(c: Conn, body: Body)
    ensures GoodEncinit(c, body) <==> ProcessEncinit(c, body).1 == 0
    ensures GoodEncinit(c, body) ==> (GetEncack(ProcessEncinit(c, body).0).code == 0 <==> !c.inS.outgoing)
  {
  }

  lemma EncackTaken(c: Conn, body: Body)
    ensures GoodEncack(c, body) <==> ProcessEncack(c, body, true).1 == 0
    ensures ProcessEncack(c, body, true).1 in {0, -1}
  {
  }

  lemma ProposalTaken(p: Peers, c: Conn, body: Body)
    ensures GoodProposal(p, c, body) <==> ProcessAuthpropose(p, c, body).1 != -1
  {
  }

  /** The same for the client. */
  lemma ClientReports(p: Peers, servName: string, c: Conn, kind: MsgType, body: Body)
    ensures ClientStep(p, servName, c, kind, body).status ==
            match kind
            case EncInit =>
              if !GoodEncinit(c, body) then ErrorProcessEncInit
              else if c.inS.outgoing then ErrorGetEncAck
              else if c.outS.priv.Some? then StepSuccessful else ErrorGetEncInit
            case EncAck =>
              if !GoodEncack(c, body) then ErrorProcessEncAck
              else if servName in p.names then StepSuccessful else ErrorGetAuthChallenge
            case Rekey =>
              if c.st != Success then Error
              else if body == PointBody(ZeroPoint) then RekeySuccessful else ErrorProcessEncAck
            case Reply =>
              if !GoodReply(p, c, body, true) then ErrorProcessAuthReply
              else if c.outS.Complete() then StepSuccessful else ErrorGetAuthPropose
            case Challenge =>
              if c.st != Proposed || !Hashes(c, body, TagR, if p.oneWay then StandIn else Pub(p.own))
              then ErrorProcessAuthChallenge
              else if c.outS.Complete() && (p.oneWay || p.hasPriv) then Completed else ErrorGetAuthReply
            case _ => Error
  {
    match kind {
      case EncInit => EncinitTaken(c, body);
      case EncAck => EncackTaken(c, body);
      case _ =>
    }
  }

  /**
   Either driver reports completion exactly on the step that brings its machine to SUCCESS, and an
   error in the authentication always leaves the machine reset.
   */
  lemma CompletedIsSuccess(p: Peers, servName: string, c: Conn, kind: MsgType, body: Body)
    ensures var r := ServerStep(p, c, kind, body);
            && (r.status == Completed <==> c.st != Success && r.conn.st == Success)
            && (AuthKind(kind) ==> (r.status.Ok() <==> r.conn.st != ErrState))
    ensures var r := ClientStep(p, servName, c, kind, body);
            && (r.status == Completed <==> c.st != Success && r.conn.st == Success)
            && (ClientAuthKind(kind) ==> (r.status.Ok() <==> r.conn.st != ErrState))
  {
    ServerMoves(p, c, kind, body);
    ClientMoves(p, servName, c, kind, body);
  }

  lemma ServerMoves(p: Peers, c: Conn, kind: MsgType, body: Body)
    ensures var r := ServerStep(p, c, kind, body);
            r.conn.st == match kind
                         case Challenge => if r.status.Ok() then Reply1 else ErrState
                         case Propose => if r.status.Ok() then Challenge2 else ErrState
                         case Reply => if r.status == Completed then Success else ErrState
                         case _ => c.st
    ensures var r := ServerStep(p, c, kind, body);
            r.status == Completed ==> kind == Reply && c.st == Challenge2
  {
  }

  lemma ClientMoves(p: Peers, servName: string, c: Conn, kind: MsgType, body: Body)
    ensures var r := ClientStep(p, servName, c, kind, body);
            r.conn.st == match kind
                         case EncAck =>
                           if r.status.Ok() then Challenge1
                           else if r.status == ErrorGetAuthChallenge then ErrState else c.st
                         case Reply => if r.status.Ok() then Proposed else ErrState
                         case Challenge => if r.status == Completed then Success else ErrState
                         case _ => c.st
    ensures var r := ClientStep(p, servName, c, kind, body);
            r.status == Completed ==> kind == Challenge && c.st == Proposed
  {
  }

  // ----- What the drivers send ----------------------------------------------

  /** A packet under the keys and number that the out-session has before the step. */
  function Under(c: Conn, kind: MsgType, body: Body): Wire { Sealed(c.outS.ctx, c.outS.num, kind, body) }

  /** The key that a taken proposal is about. */
  function ProposedBy(p: Peers, body: Body): Point
    requires body.HashBody? && body.hash.AuthHash?
  {
    if p.oneWay then StandIn else body.hash.key
  }

  /** What the server sends in answer to each message: something exactly if the step succeeds, and what. */
  lemma ServerSends(p: Peers, c: Conn, kind: MsgType, body: Body)
    ensures var r := ServerStep(p, c, kind, body);
            r.outs == if !r.status.Ok() then [] else
                      match kind
                      case Start => [Plain(EncInit, EncInitBody(Pub(c.outS.priv.value), 0))]
                      case EncInit => [Plain(EncAck, PointBody(Pub(c.inS.priv.value)))]
                      case Challenge => [Under(c, Reply, ReplyBody(Signature(p.own, c.outS.sid)))]
                      case Propose =>
                        [Under(c, Challenge, HashBody(AuthHash(c.outS.sid, TagR, ProposedBy(p, body))))]
                      case _ => []
  {
  }

  /**
   The same for the client, which answers a challenge even where it is not the right one: with its key in
   one-way mode, with a signature in two-way mode, and with an empty reply if it has none to give.
   */
  lemma ClientSends(p: Peers, servName: string, c: Conn, kind: MsgType, body: Body)
    ensures var r := ClientStep(p, servName, c, kind, body);
            r.outs == match kind
                      case EncInit =>
                        if r.status.Ok()
                        then [Plain(EncAck, PointBody(Pub(c.inS.priv.value))),
                              Plain(EncInit, EncInitBody(Pub(c.outS.priv.value), 0))]
                        else if r.status == ErrorGetEncInit then [Plain(EncAck, PointBody(Pub(c.inS.priv.value)))]
                        else []
                      case EncAck =>
                        if !r.status.Ok() then [] else
                        [Sealed(Derived(c.outS, body.key).ctx, c.outS.num, Challenge,
                                HashBody(AuthHash(Derived(c.outS, body.key).sid, TagI, p.names[servName])))]
                      case Reply =>
                        if !r.status.Ok() then [] else
                        [Under(c, Propose,
                               HashBody(AuthHash(c.outS.sid, TagP, if p.oneWay then StandIn else Pub(p.own))))]
                      case Challenge =>
                        [Under(c, Reply, if !r.status.Ok() then AppBody(0, 0)
                                         else if p.oneWay then ReplyBody(KeyReply(p.own))
                                         else ReplyBody(Signature(p.own, c.outS.sid)))]
                      case _ => []
  {
  }

  function SealedCount(outs: seq<Wire>): nat {
    if outs == [] then 0 else SealedCount(outs[1..]) + if outs[0].Sealed? then 1 else 0
  }

  /** A step of either driver moves the out-session's number by the packets it sealed, and not the in-session's. */
  lemma StepCounts(p: Peers, servName: string, c: Conn, kind: MsgType, body: Body)
    requires c.outS.num < WORD
    ensures var r := ServerStep(p, c, kind, body);
            r.conn.inS.num == c.inS.num && r.conn.outS.num == (c.outS.num + SealedCount(r.outs)) % WORD
    ensures var r := ClientStep(p, servName, c, kind, body);
            r.conn.inS.num == c.inS.num && r.conn.outS.num == (c.outS.num + SealedCount(r.outs)) % WORD
  {
    ServerCounts(p, c, kind, body);
    ClientCounts(p, servName, c, kind, body);
  }

  lemma FewSealed(outs: seq<Wire>)
    ensures outs == [] ==> SealedCount(outs) == 0
    ensures |outs| == 1 ==> SealedCount(outs) == if outs[0].Sealed? then 1 else 0
    ensures |outs| == 2 && outs[0].Plain? && outs[1].Plain? ==> SealedCount(outs) == 0
  {
    if |outs| == 1 {
      assert outs[1..] == [];
    } else if |outs| == 2 {
      assert outs[1..] == [outs[1]] && [outs[1]][1..] == [];
    }
  }

  lemma ServerCounts(p: Peers, c: Conn, kind: MsgType, body: Body)
    requires c.outS.num < WORD
    ensures var r := ServerStep(p, c, kind, body);
            r.conn.inS.num == c.inS.num && r.conn.outS.num == (c.outS.num + SealedCount(r.outs)) % WORD
  {
    hide SealedCount;
    FewSealed(ServerStep(p, c, kind, body).outs);
  }

  lemma ClientCounts(p: Peers, servName: string, c: Conn, kind: MsgType, body: Body)
    requires c.outS.num < WORD
    ensures var r := ClientStep(p, servName, c, kind, body);
            r.conn.inS.num == c.inS.num && r.conn.outS.num == (c.outS.num + SealedCount(r.outs)) % WORD
  {
    hide SealedCount;
    FewSealed(ClientStep(p, servName, c, kind, body).outs);
  }

  /** The codes that the operations of the state machine return, and what tells them apart. */
  lemma ResultCodes(p: Peers, c: Conn, body: Body, target: string, first: bool)
    ensures GetAuthchallenge(p, c, target, first).code in {0, -1} && GetAuthreply(p, c, first).code in {0, -1}
    ensures GetAuthpropose(p, c).code in {0, -1} && ProcessAuthchallenge(p, c, body, first).1 in {0, -1}
    ensures GetEncinit(c).code == (if c.outS.priv.Some? then 0 else -1)
    ensures GetEncack(c).code == (if c.inS.encinit && c.inS.priv.Some? then 0 else -1)
    ensures ProcessEncinit(c, body).1 == (if GoodEncinit(c, body) then 0 else -1)
    ensures ProcessEncack(c, body, true).1 == (if GoodEncack(c, body) then 0 else -1)
    ensures ProcessEncack(c, body, false).1 == (if body == PointBody(ZeroPoint) then 0 else -1)
    ensures ProcessAuthpropose(p, c, body).1 ==
            if !GoodProposal(p, c, body) then -1 else if p.oneWay then 1 else 0
    ensures ProcessAuthreply(p, c, body, first).1 ==
            if GoodReply(p, c, body, first) then 0
            else if body.ReplyBody? && c.st == (if first then Challenge1 else Challenge2) then 1 else -1
  {
    ProposalTaken(p, c, body);
    EncinitTaken(c, body);
    EncackTaken(c, body);
  }
}
