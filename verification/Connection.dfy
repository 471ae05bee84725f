/**
 BIP 150 peer authentication (`BIP150StateMachine`) over a pair of BIP 151
 sessions (`BIP151Connection`).

 `Conn` is the value of a whole connection. The functions compute each operation
 on that value; the classes perform it in place on shared session objects.
 */
module Bip150 {
  import opened Wrappers
  import opened Symbolic
  import opened Bip151

  datatype AuthState =
    | Inactive | Challenge1 | Reply1 | Proposed | Challenge2 | Reply2 | Success | ErrState

  /** What the authentication lambdas give access to, and the auth mode. */
  datatype Peers = Peers(
    own: Name, hasPriv: bool, names: map<string, Point>, authorized: set<Point>, oneWay: bool)

  datatype Conn = Conn(inS: Session, outS: Session, st: AuthState, chosen: Point)
  {
    predicate Complete() { inS.Complete() && outS.Complete() }
  }

  function NewConn(inPriv: Name, outPriv: Name): Conn {
    Conn(NewSession(false, inPriv), NewSession(true, outPriv), Inactive, ZeroPoint)
  }

  /** Outcome of an operation: -1 failure, 0 success, 1 the operation's third answer. */
  datatype Res = Res(conn: Conn, code: int, body: Body)

  function Failed(c: Conn, code: int): Res {
    Res(c.(st := ErrState, chosen := ZeroPoint), code, AppBody(0, 0))
  }

  // ----- BIP 151 part -------------------------------------------------------

  function ProcessEncinit(c: Conn, body: Body): (Conn, int) {
    if !body.EncInitBody? || c.inS.encinit || body.cipher != 0 then (c, -1) else
    var s := c.inS.(cipher := ChaCha20Poly1305);
    if !CanDerive(s, body.key) then (c.(inS := s), -1) else
    (c.(inS := Derived(s, body.key).(encinit := true)), 0)
  }

  function ProcessEncack(c: Conn, body: Body, outDir: bool): (Conn, int) {
    if !body.PointBody? then (c, -1) else
    if outDir then
      if !c.outS.encinit || IsRekeyMarker(body) || !CanDerive(c.outS, body.key) then (c, -1)
      else (c.(outS := Derived(c.outS, body.key).(encack := true)), 0)
    else
      if !IsRekeyMarker(body) then (c, -1) else (c.(inS := Rekeyed151(c.inS)), 0)
  }

  function GetEncinit(c: Conn): Res {
    var s := c.outS.(encinit := true, cipher := ChaCha20Poly1305);
    if s.priv.None? then Res(c.(outS := s), -1, AppBody(0, 34))
    else Res(c.(outS := s), 0, EncInitBody(Pub(s.priv.value), 0))
  }

  function GetEncack(c: Conn): Res {
    var s := c.inS.(encack := true);
    if !s.encinit || s.priv.None? then Res(c.(inS := s), -1, AppBody(0, 33))
    else Res(c.(inS := s.(priv := None)), 0, PointBody(Pub(s.priv.value)))
  }

  // ----- BIP 150 part -------------------------------------------------------

  function TagOf(st: AuthState): Option<Tag> {
    match st
    case Challenge1 => Some(TagI)
    case Proposed => Some(TagP)
    case Challenge2 => Some(TagR)
    case _ => None
  }

  function BuildHash(c: Conn, key: Point, willSend: bool): Option<Hash> {
    match TagOf(c.st)
    case None => None
    case Some(tag) => Some(AuthHash(if willSend then c.outS.sid else c.inS.sid, tag, key))
  }

  function SendHash(c: Conn, key: Point): Res {
    match BuildHash(c, key, true)
    case None => Failed(c, -1)
    case Some(h) => Res(c, 0, HashBody(h))
  }

  function GetAuthchallenge(p: Peers, c: Conn, target: string, requester: bool): Res {
    if requester then
      var c1 := c.(st := Challenge1, chosen := ZeroPoint);
      if !c.outS.Complete() || target !in p.names then Failed(c1, -1)
      else SendHash(c1.(chosen := p.names[target]), p.names[target])
    else if c.st != Proposed || !c.inS.Complete() then Failed(c, -1)
    else SendHash(c.(st := Challenge2), if p.oneWay then StandIn else c.chosen)
  }

  function GetAuthreply(p: Peers, c: Conn, responder: bool): Res {
    if c.st != (if responder then Challenge1 else Challenge2) then Failed(c, -1) else
    var c1 := c.(st := if responder then Reply1 else Reply2);
    if !c.outS.Complete() then Failed(c1, -1)
    else if !responder && p.oneWay then Res(c1, 0, ReplyBody(KeyReply(p.own)))
    else if !p.hasPriv then Failed(c1, -1)
    else Res(c1, 0, ReplyBody(Signature(p.own, c.outS.sid)))
  }

  function GetAuthpropose(p: Peers, c: Conn): Res {
    if c.st != Reply1 || !c.outS.Complete() then Failed(c, -1)
    else SendHash(c.(st := Proposed), if p.oneWay then StandIn else Pub(p.own))
  }

  function ProcessAuthchallenge(p: Peers, c: Conn, body: Body, requester: bool): (Conn, int) {
    if !body.HashBody? then (Failed(c, -1).conn, -1) else
    if !requester && c.st != Proposed then (Failed(c, -1).conn, -1) else
    var c1 := if requester then c.(st := Challenge1, chosen := ZeroPoint) else c.(st := Challenge2);
    var key := if !requester && p.oneWay then StandIn else Pub(p.own);
    if Some(body.hash) == BuildHash(c1, key, false) then (c1, 0) else (Failed(c1, -1).conn, -1)
  }

  function ProcessAuthreply(p: Peers, c: Conn, body: Body, responder: bool): (Conn, int) {
    if !body.ReplyBody? then (Failed(c, -1).conn, -1) else
    if c.st != (if responder then Challenge1 else Challenge2) then (Failed(c, -1).conn, -1) else
    var c1 := c.(st := if responder then Reply1 else Reply2);
    if !DerOk(body.reply) then (Failed(c1, 1).conn, 1)
    else if p.oneWay && !responder then (c1.(chosen := Prefix33(body.reply)), 0)
    else if Verifies(c.chosen, c.inS.sid, body.reply) then (c1, 0)
    else (Failed(c1, 1).conn, 1)
  }

  function ProcessAuthpropose(p: Peers, c: Conn, body: Body): (Conn, int) {
    if !body.HashBody? || c.st != Reply1 then (Failed(c, -1).conn, -1) else
    var c1 := c.(st := Proposed);
    if p.oneWay then
      if Some(body.hash) == BuildHash(c1, StandIn, false) then (c1, 1) else (Failed(c1, -1).conn, -1)
    else if body.hash.AuthHash? && body.hash.key in p.authorized
            && Some(body.hash) == BuildHash(c1, body.hash.key, false) then
      (c1.(chosen := body.hash.key), 0)
    else (Failed(c1, -1).conn, -1)
  }

  /** The crossed rekey: each session mixes in the other's old keys. */
  function HandshakeRekey(p: Peers, c: Conn): Conn {
    c.(outS := Rekeyed150(c.outS, Pub(p.own), c.chosen, c.inS.keys),
       inS := Rekeyed150(c.inS, c.chosen, Pub(p.own), c.outS.keys),
       st := Success)
  }

  class BIP150StateMachine {
    const inSes: BIP151Session
    const outSes: BIP151Session
    const authKeys: Peers
    var curState: AuthState
    var chosenAuthPeerKey: Point

    predicate Valid() { inSes != outSes }

    function View(): Conn
      reads this, inSes, outSes
    {
      Conn(inSes.View(), outSes.View(), curState, chosenAuthPeerKey)
    }

    constructor (incoming: BIP151Session, outgoing: BIP151Session, keys: Peers)
      requires incoming != outgoing
      ensures Valid() && inSes == incoming && outSes == outgoing && authKeys == keys
      ensures View() == Conn(incoming.View(), outgoing.View(), Inactive, ZeroPoint)
    {
      inSes, outSes, authKeys := incoming, outgoing, keys;
      curState, chosenAuthPeerKey := Inactive, ZeroPoint;
    }

    method ErrorSM(code: int) returns (ret: int)
      modifies this
      ensures ret == code && View() == Failed(old(View()), code).conn
    {
      curState, chosenAuthPeerKey := ErrState, ZeroPoint;
      ret := code;
    }

    method ResetSM()
      modifies this
      ensures View() == old(View()).(st := Inactive, chosen := ZeroPoint)
    {
      curState, chosenAuthPeerKey := Inactive, ZeroPoint;
    }

    method BuildHashData(key: Point, willSend: bool) returns (ok: bool, h: Hash)
      ensures ok == BuildHash(View(), key, willSend).Some?
      ensures ok ==> h == BuildHash(View(), key, willSend).value
    {
      var sid;
      if willSend {
        sid := outSes.sessionID;
      } else {
        sid := inSes.sessionID;
      }
      match curState {
        case Challenge1 => return true, AuthHash(sid, TagI, key);
        case Proposed => return true, AuthHash(sid, TagP, key);
        case Challenge2 => return true, AuthHash(sid, TagR, key);
        case _ => return false, OpaqueHash(0);
      }
    }

    method GetAuthchallengeData(target: string, requester: bool) returns (code: int, body: Body)
      modifies this
      ensures Res(View(), code, body) == GetAuthchallenge(authKeys, old(View()), target, requester)
    {
      body := AppBody(0, 0);
      if requester {
        ResetSM();
        curState := Challenge1;
        if !(outSes.encinit && outSes.encack) {
          code := ErrorSM(-1);
          return;
        }
        if target !in authKeys.names {
          code := ErrorSM(-1);
          return;
        }
        chosenAuthPeerKey := authKeys.names[target];
      } else {
        if curState != Proposed {
          code := ErrorSM(-1);
          return;
        }
        curState := Challenge2;
        if !(inSes.encinit && inSes.encack) {
          code := ErrorSM(-1);
          return;
        }
      }
      var hashKey := chosenAuthPeerKey;
      if !requester && authKeys.oneWay {
        hashKey := StandIn;
      }
      var ok, h := BuildHashData(hashKey, true);
      if !ok {
        code := ErrorSM(-1);
        return;
      }
      return 0, HashBody(h);
    }

    method GetAuthreplyData(responder: bool) returns (code: int, body: Body)
      modifies this
      ensures Res(View(), code, body) == GetAuthreply(authKeys, old(View()), responder)
    {
      body := AppBody(0, 0);
      if responder {
        if curState != Challenge1 {
          code := ErrorSM(-1);
          return;
        }
        curState := Reply1;
      } else {
        if curState != Challenge2 {
          code := ErrorSM(-1);
          return;
        }
        curState := Reply2;
      }
      if !(outSes.encinit && outSes.encack) {
        code := ErrorSM(-1);
        return;
      }
      if !responder && authKeys.oneWay {
        return 0, ReplyBody(KeyReply(authKeys.own));
      }
      if !authKeys.hasPriv {
        code := ErrorSM(-1);
        return;
      }
      return 0, ReplyBody(Signature(authKeys.own, outSes.sessionID));
    }

    method GetAuthproposeData() returns (code: int, body: Body)
      modifies this
      ensures Res(View(), code, body) == GetAuthpropose(authKeys, old(View()))
    {
      body := AppBody(0, 0);
      if curState != Reply1 {
        code := ErrorSM(-1);
        return;
      }
      curState := Proposed;
      if !(outSes.encinit && outSes.encack) {
        code := ErrorSM(-1);
        return;
      }
      var key := if authKeys.oneWay then StandIn else Pub(authKeys.own);
      var ok, h := BuildHashData(key, true);
      if !ok {
        code := ErrorSM(-1);
        return;
      }
      return 0, HashBody(h);
    }

    method ProcessAuthchallengeMsg(body: Body, requester: bool) returns (code: int)
      modifies this
      ensures (View(), code) == ProcessAuthchallenge(authKeys, old(View()), body, requester)
    {
      if !body.HashBody? {
        code := ErrorSM(-1);
        return;
      }
      if requester {
        ResetSM();
        curState := Challenge1;
      } else {
        if curState != Proposed {
          code := ErrorSM(-1);
          return;
        }
        curState := Challenge2;
      }
      var key := Pub(authKeys.own);
      if !requester && authKeys.oneWay {
        key := StandIn;
      }
      var ok, h := BuildHashData(key, false);
      if !ok || h != body.hash {
        code := ErrorSM(-1);
        return;
      }
      return 0;
    }

    method ProcessAuthreplyMsg(body: Body, responder: bool) returns (code: int)
      modifies this
      ensures (View(), code) == ProcessAuthreply(authKeys, old(View()), body, responder)
    {
      if !body.ReplyBody? {
        code := ErrorSM(-1);
        return;
      }
      if responder {
        if curState != Challenge1 {
          code := ErrorSM(-1);
          return;
        }
        curState := Reply1;
      } else {
        if curState != Challenge2 {
          code := ErrorSM(-1);
          return;
        }
        curState := Reply2;
      }
      if !DerOk(body.reply) {
        code := ErrorSM(1);
        return;
      }
      if authKeys.oneWay && !responder {
        chosenAuthPeerKey := Prefix33(body.reply);
        return 0;
      }
      if !Verifies(chosenAuthPeerKey, inSes.sessionID, body.reply) {
        code := ErrorSM(1);
        return;
      }
      return 0;
    }

    /** Tries the hash of every authorised key until one matches. */
    method FindProposed(h: Hash) returns (found: Option<Point>)
      requires curState == Proposed
      ensures found.Some? ==> found.value in authKeys.authorized
                              && BuildHash(View(), found.value, false) == Some(h)
      ensures found.None? ==> forall k :: k in authKeys.authorized ==> BuildHash(View(), k, false) != Some(h)
    {
      var rest := authKeys.authorized;
      while rest != {}
        invariant rest <= authKeys.authorized
        invariant forall k :: k in authKeys.authorized - rest ==> BuildHash(View(), k, false) != Some(h)
        decreases rest
      {
        var k :| k in rest;
        var ok, mine := BuildHashData(k, false);
        if ok && mine == h {
          return Some(k);
        }
        rest := rest - {k};
      }
      return None;
    }

    method ProcessAuthproposeMsg(body: Body) returns (code: int)
      modifies this
      ensures (View(), code) == ProcessAuthpropose(authKeys, old(View()), body)
    {
      if !body.HashBody? || curState != Reply1 {
        code := ErrorSM(-1);
        return;
      }
      curState := Proposed;
      if authKeys.oneWay {
        var ok, h := BuildHashData(StandIn, false);
        if !ok || h != body.hash {
          code := ErrorSM(-1);
          return;
        }
        return 1;
      }
      var found := FindProposed(body.hash);
      if found.None? {
        code := ErrorSM(-1);
        return;
      }
      chosenAuthPeerKey := found.value;
      return 0;
    }

    method Rekey()
      requires Valid()
      modifies this, inSes, outSes
      ensures View() == HandshakeRekey(authKeys, old(View()))
    {
      var own := Pub(authKeys.own);
      var outSesOldKey := outSes.hkdfKeySet;
      outSes.SessionRekey(false, own, chosenAuthPeerKey, inSes.hkdfKeySet);
      inSes.SessionRekey(false, chosenAuthPeerKey, own, outSesOldKey);
      curState := Success;
    }
  }

  class BIP151Connection {
    const inSes: BIP151Session
    const outSes: BIP151Session
    const bip150SM: BIP150StateMachine

    predicate Valid() {
      bip150SM.Valid() && bip150SM.inSes == inSes && bip150SM.outSes == outSes
    }

    function View(): Conn
      reads bip150SM, bip150SM.inSes, bip150SM.outSes
    {
      bip150SM.View()
    }

    function Keys(): Peers { bip150SM.authKeys }

    constructor (inPriv: Name, outPriv: Name, keys: Peers)
      ensures Valid() && fresh(bip150SM) && fresh(inSes) && fresh(outSes)
      ensures Keys() == keys && View() == NewConn(inPriv, outPriv)
    {
      var i := new BIP151Session(inPriv, false);
      var o := new BIP151Session(outPriv, true);
      inSes, outSes := i, o;
      bip150SM := new BIP150StateMachine(i, o, keys);
    }

    method ProcessEncinitMsg(body: Body) returns (code: int)
      requires Valid()
      modifies inSes
      ensures (View(), code) == ProcessEncinit(old(View()), body)
    {
      if !body.EncInitBody? || inSes.encinit {
        return -1;
      }
      var ok := inSes.SetCipherType(body.cipher);
      if !ok {
        return -1;
      }
      ok := inSes.SymKeySetup(body.key);
      if !ok {
        return -1;
      }
      inSes.encinit := true;
      return 0;
    }

    method ProcessEncackMsg(body: Body, outDir: bool) returns (code: int)
      requires Valid()
      modifies inSes, outSes
      ensures (View(), code) == ProcessEncack(old(View()), body, outDir)
    {
      if !body.PointBody? {
        return -1;
      }
      if outDir {
        if !outSes.encinit || body.key == ZeroPoint {
          return -1;
        }
        var ok := outSes.SymKeySetup(body.key);
        if !ok {
          return -1;
        }
        outSes.encack := true;
        return 0;
      }
      if body.key != ZeroPoint {
        return -1;
      }
      inSes.SessionRekey(true, ZeroPoint, ZeroPoint, NO_KEYS);
      return 0;
    }

    method GetEncinitData() returns (code: int, body: Body)
      requires Valid()
      modifies outSes
      ensures Res(View(), code, body) == GetEncinit(old(View()))
    {
      outSes.encinit := true;
      var ok;
      ok, body := outSes.GetEncinitData();
      if !ok {
        return -1, AppBody(0, 34);
      }
      return 0, body;
    }

    method GetEncackData() returns (code: int, body: Body)
      requires Valid()
      modifies inSes
      ensures Res(View(), code, body) == GetEncack(old(View()))
    {
      inSes.encack := true;
      var ok;
      ok, body := inSes.GetEncackData();
      if !ok {
        return -1, AppBody(0, 33);
      }
      return 0, body;
    }
  }
}
