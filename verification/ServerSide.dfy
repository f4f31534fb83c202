/** The server's client table: admission, registration and rotation, delivery,
    keep-alive and expiry. */
module ServerSide {
  import opened Encoding
  import opened Wrappers
  import opened Cipher
  import opened ReplayWindow
  import opened Sessions
  import opened Channels
  import opened Handshake
  import opened TokenBuckets
  import opened IPLimiters
  import opened HandshakeGates

  datatype Addr = Addr(ip: string, port: nat)

  /** Two minutes, in nanoseconds. */
  const CLIENT_TIMEOUT: int := 120_000_000_000

  datatype Client = Client(channel: ChannelState, lastSeen: int)

  type Table = map<Addr, Client>

  /** A handshake's session goes to the table: the address's channel rotates, or
      the address is registered with a new one. */
  function Seated(t: Table, addr: Addr, s: SessionState, rotateAt: int, seenAt: int): Table {
    var held := if addr in t then Some(t[addr].channel) else None;
    t[addr := Client(TakenUp(held, s, rotateAt), seenAt)]
  }

  function ChannelsOf(t: Table): map<Addr, ChannelState> {
    map k | k in t :: t[k].channel
  }

  lemma SeatedInstalls(t: Table, addr: Addr, s: SessionState, rotateAt: int, seenAt: int)
    ensures ChannelsOf(Seated(t, addr, s, rotateAt, seenAt)) == Install(ChannelsOf(t), addr, s, rotateAt)
  {
    hide TakenUp;
  }

  function Touched(t: Table, addr: Addr, now: int): Table {
    if addr in t then t[addr := t[addr].(lastSeen := now)] else t
  }

  /** A data frame from `addr`: what is written to the tunnel, and the table. */
  function Received(a: Aead, t: Table, addr: Addr, frame: seq<byte>, now: int, seenAt: int)
    : (Table, Option<seq<byte>>)
  {
    if addr !in t then (t, None)
    else
      var (c, r) := ChannelDecrypted(a, t[addr].channel, frame, now);
      (t[addr := Client(c, if r.Ok? then seenAt else t[addr].lastSeen)], if r.Ok? then Some(r.value) else None)
  }

  /** One cleanup pass keeps precisely the entries seen within the last two
      minutes, each by the reading taken when it was looked at. */
  function Cleaned(t: Table, clockAt: Addr -> int): Table {
    map k | k in t && clockAt(k) - t[k].lastSeen <= CLIENT_TIMEOUT :: t[k]
  }

  /** A data frame in closed form. A known client's is written exactly when its
      channel opens it: sealed for the current session and fresh there; or sealed
      for the previous one only, before the deadline, and fresh there. Exactly
      then the client is noted as seen, and no other client is touched. */
  lemma DataIsWrittenExactly(a: Aead, t: Table, addr: Addr, frame: seq<byte>, now: int, seenAt: int, p: seq<byte>)
    requires Authentic(a)
    ensures var (u, out) := Received(a, t, addr, frame, now, seenAt);
      && u.Keys == t.Keys
      && (forall k | k in t && k != addr :: u[k] == t[k])
      && (addr in t ==> u[addr].lastSeen == if out.Some? then seenAt else t[addr].lastSeen)
      && (addr !in t ==> out == None)
      && (addr in t ==>
            var c := t[addr].channel;
            (out == Some(p) <==>
              if SealedFor(a, c.current.recvKey, frame) then
                SealedAs(a, c.current.recvKey, frame, p) && Fresh(c.current.accepted, Counter(frame))
              else
                && c.previous.Some? && now < c.prevUntil
                && SealedAs(a, c.previous.value.recvKey, frame, p)
                && Fresh(c.previous.value.accepted, Counter(frame))))
  {
    hide ChannelDecrypted, SealedAs, Fresh, Counter;
    if addr in t {
      ChannelDecryptedExactly(a, t[addr].channel, frame, now, p);
    }
  }

  predicate Authorised(allowlist: set<nat>, key: nat) {
    allowlist == {} || key in allowlist
  }

  /** What a handshake payload is answered with, once it passed the gates: only
      a first message for this server from an authorised client is, and then it
      seats a session with the fresh ephemeral `eph`. */
  predicate Answerable(identity: nat, allowlist: set<nat>, payload: Payload) {
    payload.Msg1? && payload.responderStatic == identity && Authorised(allowlist, payload.initiatorStatic)
  }

  /** The rows of the table are held by value: a row's channel is changed by the
      step functions that the channel object is proved to carry out. */
  class Server {
    const identity: nat
    const allowlist: set<nat>
    const allowAny: bool
    var clients: Table
    const handshakeGlobal: TokenBucket
    const handshakePerIP: IPLimiter

    ghost predicate Valid()
      reads this, handshakePerIP, handshakePerIP.Repr
    {
      && allowAny == (allowlist == {})
      && handshakePerIP.Valid()
      && this !in handshakePerIP.Repr && handshakeGlobal !in handshakePerIP.Repr
    }

    constructor (identity: nat, allowlist: set<nat>, started: real)
      ensures Valid() && fresh(handshakeGlobal) && fresh(handshakePerIP.Repr)
      ensures this.identity == identity && this.allowlist == allowlist && clients == map[]
      ensures GateState() == ServerGates(started)
    {
      this.identity, this.allowlist, this.allowAny := identity, allowlist, allowlist == {};
      clients := map[];
      handshakeGlobal := new TokenBucket(100.0, 200.0, started);
      handshakePerIP := new IPLimiter(5.0, 10.0, 4096);
    }

    ghost function GateState(): Gates
      reads handshakeGlobal, handshakePerIP
    {
      Gates(handshakeGlobal.State(), handshakePerIP.State())
    }

    /** The two gates, in order. */
    method PassGates(ip: string, at: real, r: Reading) returns (ok: bool, ghost victim: string)
      requires Valid()
      modifies handshakeGlobal, handshakePerIP.Repr
      ensures Valid() && fresh(handshakePerIP.Repr - old(handshakePerIP.Repr))
      ensures (GateState(), ok) == GatesAsked(old(GateState()), Attempt(ip, at, r, victim))
      ensures Crowded(old(GateState()), ip, at) ==> IsOldest(old(handshakePerIP.State().buckets), victim)
    {
      hide Allowed, IsOldest, NeedsRoom, LimiterAllowed;
      victim := "";
      ok := handshakeGlobal.Allow(at);
      if ok {
        ok, victim := handshakePerIP.Allow(ip, r);
      }
    }

    /** Runs the responder on a payload that passed the gates, and seats the
        session before the reply is sent. */
    method AnswerHandshake(payload: Payload, addr: Addr, eph: nat, rotateAt: int, seenAt: int)
      returns (reply: Option<Payload>)
      requires allowAny == (allowlist == {})
      modifies this`clients
      ensures reply.Some? <==>
        && payload.Msg1? && payload.responderStatic == identity
        && (allowlist == {} || payload.initiatorStatic in allowlist)
      ensures reply.Some? <==> Answerable(identity, allowlist, payload)
      ensures reply.Some? ==> reply.value == Msg2(payload.initiatorEph, eph, identity)
      ensures clients == if reply.Some?
                         then Seated(old(clients), addr, ResponderSession(payload.initiatorEph, eph), rotateAt, seenAt)
                         else old(clients)
    {
      var resp := new Responder(eph, identity);
      var clientStatic := resp.ReadMsg1(payload);
      if clientStatic == None {
        return None;
      }
      if !allowAny && clientStatic.value !in allowlist {
        return None;
      }
      var session := ResponderSession(payload.initiatorEph, eph);
      var msg2, made := resp.WriteMsg2();
      assert made.State() == session;
      if addr in clients {
        clients := clients[addr := Client(Rotated(clients[addr].channel, session, rotateAt), seenAt)];
      } else {
        clients := clients[addr := Client(Established(session, DEFAULT_REKEY_GRACE), seenAt)];
      }
      return Some(msg2);
    }

    /** A handshake packet: nothing is done for one the gates drop. */
    method HandleHandshake(payload: Payload, addr: Addr, at: real, r: Reading, eph: nat, rotateAt: int, seenAt: int)
      returns (reply: Option<Payload>, ghost victim: string)
      requires Valid()
      modifies this`clients, handshakeGlobal, handshakePerIP.Repr
      ensures Valid()
      ensures GateState() == GatesAsked(old(GateState()), Attempt(addr.ip, at, r, victim)).0
      ensures reply.Some? <==>
        && GatesAsked(old(GateState()), Attempt(addr.ip, at, r, victim)).1
        && payload.Msg1? && payload.responderStatic == identity
        && (allowlist == {} || payload.initiatorStatic in allowlist)
      ensures Crowded(old(GateState()), addr.ip, at) ==> IsOldest(old(handshakePerIP.State().buckets), victim)
      ensures reply.Some? ==>
        && reply.value == Msg2(payload.initiatorEph, eph, identity)
        && clients == Seated(old(clients), addr, ResponderSession(payload.initiatorEph, eph), rotateAt, seenAt)
      ensures reply.None? ==> clients == old(clients)
    {
      hide GatesAsked, Crowded, IsOldest, Seated;
      var passed: bool;
      passed, victim := PassGates(addr.ip, at, r);
      if !passed {
        return None, victim;
      }
      reply := AnswerHandshake(payload, addr, eph, rotateAt, seenAt);
    }

    /** A data frame: what is written to the tunnel, if anything is. */
    method HandleData(a: Aead, frame: seq<byte>, addr: Addr, now: int, seenAt: int) returns (written: Option<seq<byte>>)
      modifies this`clients
      ensures (clients, written) == Received(a, old(clients), addr, frame, now, seenAt)
    {
      if addr !in clients {
        return None;
      }
      var (channel, r) := ChannelDecrypted(a, clients[addr].channel, frame, now);
      clients := clients[addr := clients[addr].(channel := channel)];
      if r.Err? {
        return None;
      }
      clients := clients[addr := clients[addr].(lastSeen := seenAt)];
      assert clients == old(clients)[addr := Client(channel, seenAt)];
      return Some(r.value);
    }

    method HandlePing(addr: Addr, now: int)
      modifies this`clients
      ensures clients == Touched(old(clients), addr, now)
    {
      if addr in clients {
        clients := clients[addr := clients[addr].(lastSeen := now)];
      }
    }

    /** Deletes expired rows while going through the table in any order. */
    method CleanupClients(clockAt: Addr -> int)
      modifies this`clients
      ensures clients == Cleaned(old(clients), clockAt)
      ensures forall k :: k in clients <==>
        k in old(clients) && clockAt(k) - old(clients)[k].lastSeen <= 120_000_000_000
      ensures forall k | k in clients :: clients[k] == old(clients)[k]
    {
      ghost var was := clients;
      var left := clients.Keys;
      while left != {}
        invariant left <= clients.Keys <= was.Keys
        invariant forall k | k in clients :: clients[k] == was[k]
        invariant forall k | k in was && k !in left ::
          k in clients <==> clockAt(k) - was[k].lastSeen <= CLIENT_TIMEOUT
        invariant forall k | k in left :: k in clients
        decreases |left|
      {
        var key :| key in left;
        left := left - {key};
        if clockAt(key) - clients[key].lastSeen > CLIENT_TIMEOUT {
          clients := clients - {key};
        }
      }
    }
  }
}
