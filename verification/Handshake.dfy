/**
 The two handshake drivers (`BIP15x_Handshake`), and what a socket does around
 them: seal on write, open and dispatch on read, rekey and send once authenticated.
 */
module Handshake {
  import opened Symbolic
  import opened Bip151
  import opened Bip150

  datatype Status =
    | Error | ErrorGetEncInit | ErrorProcessEncInit | ErrorGetEncAck | ErrorProcessEncAck
    | ErrorGetAuthChallenge | ErrorProcessAuthChallenge | ErrorGetAuthReply | ErrorProcessAuthReply
    | ErrorGetAuthPropose | ErrorProcessAuthPropose
    | StepSuccessful | RekeySuccessful | Completed
  {
    predicate Ok() { StepSuccessful? || RekeySuccessful? || Completed? }
  }

  /** `outs` lists what the write callback was given, in order. */
  datatype Step = Step(conn: Conn, status: Status, outs: seq<Wire>)

  function Seal(c: Conn, kind: MsgType, body: Body): Wire {
    Sealed(c.outS.ctx, c.outS.num, kind, body)
  }

  function AfterSeal(c: Conn, body: Body): Conn {
    c.(outS := Counted(c.outS, PacketSize(body)))
  }

  function ServerStep(p: Peers, c: Conn, kind: MsgType, body: Body): Step {
    match kind
    case Start =>
      var r := GetEncinit(c);
      if r.code != 0 then Step(r.conn, ErrorGetEncInit, [])
      else Step(r.conn, StepSuccessful, [Plain(EncInit, r.body)])
    case Rekey =>
      if c.st != Success then Step(c, Error, []) else
      var (c1, code) := ProcessEncack(c, body, false);
      Step(c1, if code != 0 then ErrorProcessEncAck else StepSuccessful, [])
    case EncInit =>
      var (c1, code) := ProcessEncinit(c, body);
      if code != 0 then Step(c1, ErrorProcessEncInit, []) else
      var r := GetEncack(c1);
      if r.code != 0 then Step(r.conn, ErrorGetEncAck, [])
      else Step(r.conn, StepSuccessful, [Plain(EncAck, r.body)])
    case EncAck =>
      var (c1, code) := ProcessEncack(c, body, true);
      Step(c1, if code != 0 then ErrorProcessEncAck else StepSuccessful, [])
    case Challenge =>
      var (c1, code) := ProcessAuthchallenge(p, c, body, true);
      if code == -1 then Step(c1, ErrorProcessAuthChallenge, []) else
      var r := GetAuthreply(p, c1, true);
      if r.code == -1 then Step(r.conn, ErrorGetAuthReply, [])
      else Step(AfterSeal(r.conn, r.body), StepSuccessful, [Seal(r.conn, Reply, r.body)])
    case Propose =>
      var (c1, code) := ProcessAuthpropose(p, c, body);
      if code == -1 then Step(c1, ErrorProcessAuthPropose, []) else
      var r := GetAuthchallenge(p, c1, "", false);
      if r.code == -1 then Step(r.conn, ErrorGetAuthChallenge, [])
      else Step(AfterSeal(r.conn, r.body), StepSuccessful, [Seal(r.conn, Challenge, r.body)])
    case Reply =>
      var (c1, code) := ProcessAuthreply(p, c, body, false);
      if code != 0 then Step(c1, ErrorProcessAuthReply, [])
      else Step(HandshakeRekey(p, c1), Completed, [])
    case _ => Step(c, Error, [])
  }

  function ClientStep(p: Peers, servName: string, c: Conn, kind: MsgType, body: Body): Step {
    match kind
    case EncInit =>
      var (c1, code) := ProcessEncinit(c, body);
      if code != 0 then Step(c1, ErrorProcessEncInit, []) else
      var r := GetEncack(c1);
      if r.code != 0 then Step(r.conn, ErrorGetEncAck, []) else
      var q := GetEncinit(r.conn);
      if q.code != 0 then Step(q.conn, ErrorGetEncInit, [Plain(EncAck, r.body)])
      else Step(q.conn, StepSuccessful, [Plain(EncAck, r.body), Plain(EncInit, q.body)])
    case EncAck =>
      var (c1, code) := ProcessEncack(c, body, true);
      if code == -1 then Step(c1, ErrorProcessEncAck, []) else
      var r := GetAuthchallenge(p, c1, servName, true);
      if r.code != 0 then Step(r.conn, ErrorGetAuthChallenge, [])
      else Step(AfterSeal(r.conn, r.body), StepSuccessful, [Seal(r.conn, Challenge, r.body)])
    case Rekey =>
      if c.st != Success then Step(c, Error, []) else
      var (c1, code) := ProcessEncack(c, body, false);
      Step(c1, if code == -1 then ErrorProcessEncAck else RekeySuccessful, [])
    case Reply =>
      var (c1, code) := ProcessAuthreply(p, c, body, true);
      if code != 0 then Step(c1, ErrorProcessAuthReply, []) else
      var r := GetAuthpropose(p, c1);
      if r.code != 0 then Step(r.conn, ErrorGetAuthPropose, [])
      else Step(AfterSeal(r.conn, r.body), StepSuccessful, [Seal(r.conn, Propose, r.body)])
    case Challenge =>
      // a reply leaves even when the challenge is bad
      var (c1, code) := ProcessAuthchallenge(p, c, body, false);
      var r := GetAuthreply(p, c1, false);
      var c2 := AfterSeal(r.conn, r.body);
      var outs := [Seal(r.conn, Reply, r.body)];
      if code == -1 then Step(c2, ErrorProcessAuthChallenge, outs)
      else if r.code != 0 then Step(c2, ErrorGetAuthReply, outs)
      else Step(HandshakeRekey(p, c2), Completed, outs)
    case _ => Step(c, Error, [])
  }

  method Write(conn: BIP151Connection, kind: MsgType, body: Body, encrypt: bool) returns (w: Wire)
    requires conn.Valid()
    modifies conn.outSes
    ensures conn.View() == if encrypt then AfterSeal(old(conn.View()), body) else old(conn.View())
    ensures w == if encrypt then Seal(old(conn.View()), kind, body) else Plain(kind, body)
  {
    if encrypt {
      w := conn.outSes.EncPayload(kind, body);
    } else {
      w := Plain(kind, body);
    }
  }

  method ServerSideHandshake(conn: BIP151Connection, kind: MsgType, msg: Body)
    returns (status: Status, outs: seq<Wire>)
    requires conn.Valid()
    modifies conn.bip150SM, conn.inSes, conn.outSes
    ensures Step(conn.View(), status, outs) == ServerStep(conn.Keys(), old(conn.View()), kind, msg)
  {
    match kind {
      case Start =>
        var code, body := conn.GetEncinitData();
        if code != 0 { return ErrorGetEncInit, []; }
        var w := Write(conn, EncInit, body, false);
        return StepSuccessful, [w];
      case Rekey =>
        if conn.bip150SM.curState != Success { return Error, []; }
        var code := conn.ProcessEncackMsg(msg, false);
        if code != 0 { return ErrorProcessEncAck, []; }
        return StepSuccessful, [];
      case EncInit =>
        var code := conn.ProcessEncinitMsg(msg);
        if code != 0 { return ErrorProcessEncInit, []; }
        var ret, body := conn.GetEncackData();
        if ret != 0 { return ErrorGetEncAck, []; }
        var w := Write(conn, EncAck, body, false);
        return StepSuccessful, [w];
      case EncAck =>
        var code := conn.ProcessEncackMsg(msg, true);
        if code != 0 { return ErrorProcessEncAck, []; }
        return StepSuccessful, [];
      case Challenge =>
        var code := conn.bip150SM.ProcessAuthchallengeMsg(msg, true);
        if code == -1 { return ErrorProcessAuthChallenge, []; }
        var ret, body := conn.bip150SM.GetAuthreplyData(true);
        if ret == -1 { return ErrorGetAuthReply, []; }
        var w := Write(conn, Reply, body, true);
        return StepSuccessful, [w];
      case Propose =>
        var code := conn.bip150SM.ProcessAuthproposeMsg(msg);
        if code == -1 { return ErrorProcessAuthPropose, []; }
        var ret, body := conn.bip150SM.GetAuthchallengeData("", false);
        if ret == -1 { return ErrorGetAuthChallenge, []; }
        var w := Write(conn, Challenge, body, true);
        return StepSuccessful, [w];
      case Reply =>
        var code := conn.bip150SM.ProcessAuthreplyMsg(msg, false);
        if code != 0 { return ErrorProcessAuthReply, []; }
        conn.bip150SM.Rekey();
        return Completed, [];
      case _ => return Error, [];
    }
  }

  method ClientSideHandshake(conn: BIP151Connection, servName: string, kind: MsgType, msg: Body)
    returns (status: Status, outs: seq<Wire>)
    requires conn.Valid()
    modifies conn.bip150SM, conn.inSes, conn.outSes
    ensures Step(conn.View(), status, outs) == ClientStep(conn.Keys(), servName, old(conn.View()), kind, msg)
  {
    match kind {
      case EncInit =>
        var code := conn.ProcessEncinitMsg(msg);
        if code != 0 { return ErrorProcessEncInit, []; }
        var ret, ack := conn.GetEncackData();
        if ret != 0 { return ErrorGetEncAck, []; }
        var w := Write(conn, EncAck, ack, false);
        var ret1, ini := conn.GetEncinitData();
        if ret1 != 0 { return ErrorGetEncInit, [w]; }
        var w1 := Write(conn, EncInit, ini, false);
        return StepSuccessful, [w, w1];
      case EncAck =>
        var code := conn.ProcessEncackMsg(msg, true);
        if code == -1 { return ErrorProcessEncAck, []; }
        var ret, body := conn.bip150SM.GetAuthchallengeData(servName, true);
        if ret != 0 { return ErrorGetAuthChallenge, []; }
        var w := Write(conn, Challenge, body, true);
        return StepSuccessful, [w];
      case Rekey =>
        if conn.bip150SM.curState != Success { return Error, []; }
        var code := conn.ProcessEncackMsg(msg, false);
        if code == -1 { return ErrorProcessEncAck, []; }
        return RekeySuccessful, [];
      case Reply =>
        var code := conn.bip150SM.ProcessAuthreplyMsg(msg, true);
        if code != 0 { return ErrorProcessAuthReply, []; }
        var ret, body := conn.bip150SM.GetAuthproposeData();
        if ret != 0 { return ErrorGetAuthPropose, []; }
        var w := Write(conn, Propose, body, true);
        return StepSuccessful, [w];
      case Challenge =>
        var code := conn.bip150SM.ProcessAuthchallengeMsg(msg, false);
        var ret, body := conn.bip150SM.GetAuthreplyData(false);
        var w := Write(conn, Reply, body, true);
        if code == -1 { return ErrorProcessAuthChallenge, [w]; }
        if ret != 0 { return ErrorGetAuthReply, [w]; }
        conn.bip150SM.Rekey();
        return Completed, [w];
      case _ => return Error, [];
    }
  }
}
