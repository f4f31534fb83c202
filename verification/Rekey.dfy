/** One client and one server rehandshaking over a network that loses, reorders
    and duplicates packets. A packet that was sent can arrive any number of
    times, including never. Each lock region of the client, and the server's
    table update and its reply, are separate events. */
module Rekey {
  import opened Encoding
  import opened Wrappers
  import opened Cipher
  import opened Sessions
  import opened Channels
  import opened Handshake

  datatype ClientPhase =
    | Booting
    | Awaiting(eph: nat)
    | Running(channel: ChannelState)
    | Stopped

  /** The goroutine that starts rehandshakes. */
  datatype Starter = Resting | Made(eph: nat) | Stored(eph: nat)

  /** The goroutine that receives packets. */
  datatype Receiver = Listening | Read(i: nat, r: nat) | Cleared(i: nat, r: nat)

  datatype Pair = Pair(i: nat, r: nat)

  /** A frame the client sealed. */
  datatype Sealing = Sealing(key: Key, counter: uint64, frame: seq<byte>, plaintext: seq<byte>)

  /** What the server opened for an address, by the session of that receive key. */
  datatype Delivery = Delivery(addr: nat, key: Key, frame: seq<byte>, plaintext: seq<byte>)

  /** A session the server made for an address: the clock reading, and whether
      the address had a channel then, which was rotated. */
  datatype Installation = Installation(addr: nat, pair: Pair, at: int, rotated: bool)

  datatype State = State(
    client: ClientPhase,
    pending: Option<nat>,
    starter: Starter,
    receiver: Receiver,
    table: map<nat, ChannelState>,
    reply: Option<Pair>,
    msg1s: set<nat>,
    msg2s: set<Pair>,
    ownEphs: set<nat>,
    foreignEphs: set<nat>,
    responderEphs: set<nat>,
    installs: seq<Installation>,
    follows: seq<Pair>,
    sealed: seq<Sealing>,
    deliveries: seq<Delivery>)

  datatype Event =
    | Boot(i: nat)
    | BootReply(answer: Option<Pair>)
    | Make(i: nat)
    | Store
    | Send
    | Receive(packet: Pair)
    | Clear
    | Follow(at: int)
    | Handle(i: nat, addr: nat, r: nat, at: int)
    | Reply
    | Cleanup(addr: nat)
    | ClientSeals(plaintext: seq<byte>)
    | ClientOpens(frame: seq<byte>, now: int)
    | ServerSeals(addr: nat, plaintext: seq<byte>)
    | ServerOpens(addr: nat, frame: seq<byte>, now: int)

  predicate Enabled(s: State, e: Event) {
    match e
    case Boot(i) => s.client.Booting? && i !in s.ownEphs + s.foreignEphs
    case BootReply(answer) => s.client.Awaiting? && (answer.Some? ==> answer.value in s.msg2s)
    case Make(i) => s.client.Running? && s.starter.Resting? && i !in s.ownEphs + s.foreignEphs
    case Store => s.starter.Made?
    case Send => s.starter.Stored?
    case Receive(p) => s.client.Running? && s.receiver.Listening? && p in s.msg2s && s.pending == Some(p.i)
    case Clear => s.receiver.Read?
    case Follow(_) => s.receiver.Cleared? && s.client.Running?
    case Handle(i, _, r, _) => s.reply.None? && (i in s.msg1s || i !in s.ownEphs) && r !in s.responderEphs
    case Reply => s.reply.Some?
    case Cleanup(addr) => addr in s.table
    case ClientSeals(_) => s.client.Running?
    case ClientOpens(_, _) => s.client.Running?
    case ServerSeals(addr, _) => addr in s.table
    case ServerOpens(addr, _, _) => addr in s.table
  }

  function Next(a: Aead, s: State, e: Event): State {
    if !Enabled(s, e) then s
    else
      match e
      case Boot(i) => s.(client := Awaiting(i), ownEphs := s.ownEphs + {i}, msg1s := s.msg1s + {i})
      case BootReply(answer) =>
        if answer.Some? && answer.value.i == s.client.eph then
          s.(client := Running(Established(InitiatorSession(answer.value.i, answer.value.r), DEFAULT_REKEY_GRACE)),
             follows := s.follows + [answer.value])
        else s.(client := Stopped)
      case Make(i) => s.(starter := Made(i), ownEphs := s.ownEphs + {i})
      case Store => s.(starter := Stored(s.starter.eph), pending := Some(s.starter.eph))
      case Send => s.(starter := Resting, msg1s := s.msg1s + {s.starter.eph})
      case Receive(p) => s.(receiver := Read(p.i, p.r))
      case Clear => s.(receiver := Cleared(s.receiver.i, s.receiver.r), pending := None)
      case Follow(at) =>
        s.(receiver := Listening,
           client := Running(Rotated(s.client.channel, InitiatorSession(s.receiver.i, s.receiver.r), at)),
           follows := s.follows + [Pair(s.receiver.i, s.receiver.r)])
      case Handle(i, addr, r, at) =>
        s.(table := Install(s.table, addr, ResponderSession(i, r), at),
           reply := Some(Pair(i, r)),
           foreignEphs := if i in s.ownEphs then s.foreignEphs else s.foreignEphs + {i},
           responderEphs := s.responderEphs + {r},
           installs := s.installs + [Installation(addr, Pair(i, r), at, addr in s.table)])
      case Reply => s.(reply := None, msg2s := s.msg2s + {s.reply.value})
      case Cleanup(addr) => s.(table := s.table - {addr})
      case ClientSeals(p) =>
        var (c, r) := ChannelEncrypted(a, s.client.channel, p);
        var sender := s.client.channel.current;
        s.(client := Running(c),
           sealed := if r.Ok? then s.sealed + [Sealing(sender.sendKey, sender.sendNonce, r.value, p)] else s.sealed)
      case ClientOpens(f, now) => s.(client := Running(ChannelDecrypted(a, s.client.channel, f, now).0))
      case ServerSeals(addr, p) => s.(table := s.table[addr := ChannelEncrypted(a, s.table[addr], p).0])
      case ServerOpens(addr, f, now) =>
        var (c, r) := ChannelDecrypted(a, s.table[addr], f, now);
        s.(table := s.table[addr := c],
           deliveries := if r.Ok?
                         then s.deliveries + [Delivery(addr, Deliverer(a, s.table[addr], f, now).value, f, r.value)]
                         else s.deliveries)
  }

  const START: State :=
    State(Booting, None, Resting, Listening, map[], None, {}, {}, {}, {}, {}, [], [], [], [])

  function Run(a: Aead, s: State, events: seq<Event>): State
    decreases |events|
  {
    if events == [] then s else Run(a, Next(a, s, events[0]), events[1..])
  }

  function ClientSession(p: Pair): SessionState {
    InitiatorSession(p.i, p.r)
  }

  function ServerSession(p: Pair): SessionState {
    ResponderSession(p.i, p.r)
  }

  // ---------- channels and their keys ----------

  /** Sealing and opening never change which sessions a channel holds. */
  lemma TrafficKeepsKeys(a: Aead, c: ChannelState, p: seq<byte>, f: seq<byte>, now: int)
    ensures SameHold(c, ChannelEncrypted(a, c, p).0)
    ensures SameHold(c, ChannelDecrypted(a, c, f, now).0)
  {}

  predicate SameHold(c: ChannelState, d: ChannelState) {
    && SameKeys(c.current, d.current)
    && (c.previous.Some? <==> d.previous.Some?)
    && (c.previous.Some? ==> SameKeys(c.previous.value, d.previous.value))
    && c.prevUntil == d.prevUntil && c.grace == d.grace
  }

  // ---------- safety ----------

  /** The installs at one address, oldest first. */
  function InstallsAt(installs: seq<Installation>, addr: nat): seq<Installation> {
    if installs == [] then []
    else
      var n := |installs| - 1;
      InstallsAt(installs[..n], addr) + (if installs[n].addr == addr then [installs[n]] else [])
  }

  predicate Listed(installs: seq<Installation>, p: Pair) {
    exists k :: 0 <= k < |installs| && installs[k].pair == p
  }

  predicate Installed(s: State, p: Pair) {
    Listed(s.installs, p)
  }

  /** Every second message, sent or about to be sent, answers an installed session. */
  ghost predicate AnswersInstalled(s: State) {
    && (forall p | p in s.msg2s :: Installed(s, p))
    && (s.reply.Some? ==> Installed(s, s.reply.value))
    && (s.receiver.Read? || s.receiver.Cleared? ==> Installed(s, Pair(s.receiver.i, s.receiver.r)))
    && (forall k | 0 <= k < |s.follows| :: Installed(s, s.follows[k]))
  }

  /** Each responder ephemeral made one session; each install is of known ephemerals. */
  ghost predicate InstallsDistinct(s: State) {
    && (forall k | 0 <= k < |s.installs| ::
          s.installs[k].pair.r in s.responderEphs && s.installs[k].pair.i in s.ownEphs + s.foreignEphs)
    && (forall k, l | 0 <= k < l < |s.installs| :: s.installs[k].pair.r != s.installs[l].pair.r)
    && s.msg1s <= s.ownEphs
  }

  /** An initiator the client has already followed, or is about to, is never
      pending again. */
  ghost predicate ConsumedOnce(s: State) {
    && (forall k | 0 <= k < |s.follows| :: Spent(s, s.follows[k].i))
    && (forall k, l | 0 <= k < l < |s.follows| :: s.follows[k].i != s.follows[l].i)
    && (s.receiver.Read? || s.receiver.Cleared? ==>
          && s.receiver.i in s.ownEphs
          && s.starter != Made(s.receiver.i)
          && forall k | 0 <= k < |s.follows| :: s.follows[k].i != s.receiver.i)
    && (s.receiver.Cleared? ==> s.pending != Some(s.receiver.i))
    && (s.starter.Made? ==> s.starter.eph in s.ownEphs && s.pending != Some(s.starter.eph))
    && (s.starter.Stored? ==> s.starter.eph in s.ownEphs)
    && (s.pending.Some? ==> s.pending.value in s.ownEphs)
    && (s.client.Awaiting? ==> s.client.eph in s.ownEphs)
    && (!s.client.Running? ==> s.starter.Resting? && s.receiver.Listening? && s.pending.None? && s.follows == [])
  }

  ghost predicate Spent(s: State, i: nat) {
    i in s.ownEphs && s.pending != Some(i) && s.starter != Made(i)
  }

  /** The client's channel is on the session it followed last; the server's, at
      each address, on the last it installed there, with the one before as
      previous. */
  ghost predicate ChannelsAgree(s: State) {
    && (s.client.Running? ==>
          && s.follows != []
          && SameKeys(s.client.channel.current, ClientSession(s.follows[|s.follows| - 1])))
    && (forall addr | addr in s.table :: HoldsLast(s.table[addr], InstallsAt(s.installs, addr)))
  }

  /** The previous session is the one of the install before, and is there if the
      last install rotated; it is honoured for thirty seconds from that reading. */
  predicate HoldsLast(c: ChannelState, at: seq<Installation>) {
    && at != []
    && var last := at[|at| - 1];
      && SameKeys(c.current, ServerSession(last.pair))
      && c.grace == 30_000_000_000
      && (c.previous.Some? <==> last.rotated)
      && (last.rotated ==>
            && |at| >= 2
            && SameKeys(c.previous.value, ServerSession(at[|at| - 2].pair))
            && c.prevUntil == last.at + 30_000_000_000)
  }

  ghost predicate Inv(s: State) {
    AnswersInstalled(s) && InstallsDistinct(s) && ConsumedOnce(s) && ChannelsAgree(s)
  }

  lemma AnswersStep(a: Aead, s: State, e: Event)
    requires AnswersInstalled(s)
    ensures AnswersInstalled(Next(a, s, e))
  {
    hide ChannelDecrypted, ChannelEncrypted, Install;
    var end := Next(a, s, e);
    forall p | Installed(s, p) ensures Installed(end, p) {
      var k :| 0 <= k < |s.installs| && s.installs[k].pair == p;
      assert end.installs[k].pair == p;
    }
    if Enabled(s, e) && e.Handle? {
      assert end.installs[|s.installs|].pair == Pair(e.i, e.r);
    }
  }

  lemma DistinctStep(a: Aead, s: State, e: Event)
    requires InstallsDistinct(s)
    requires s.starter.Made? || s.starter.Stored? ==> s.starter.eph in s.ownEphs
    ensures InstallsDistinct(Next(a, s, e))
  {
    hide ChannelDecrypted, ChannelEncrypted, Install;
  }

  lemma ConsumedStep(a: Aead, s: State, e: Event)
    requires ConsumedOnce(s)
    ensures ConsumedOnce(Next(a, s, e))
  {
    hide ChannelDecrypted, ChannelEncrypted, Install;
  }

  lemma StillHolds(c: ChannelState, d: ChannelState, at: seq<Installation>)
    requires SameHold(c, d) && HoldsLast(c, at)
    ensures HoldsLast(d, at)
  {}

  lemma InstallHolds(table: map<nat, ChannelState>, i: Installation, at: seq<Installation>)
    requires i.rotated == (i.addr in table)
    requires i.addr in table ==> HoldsLast(table[i.addr], at)
    ensures HoldsLast(Install(table, i.addr, ServerSession(i.pair), i.at)[i.addr], at + [i])
  {}

  lemma InstallsAtNext(installs: seq<Installation>, i: Installation, k: nat)
    ensures InstallsAt(installs + [i], k) == InstallsAt(installs, k) + (if k == i.addr then [i] else [])
  {
    assert (installs + [i])[..|installs|] == installs;
  }

  lemma AgreeStep(a: Aead, s: State, e: Event)
    requires ChannelsAgree(s)
    ensures ChannelsAgree(Next(a, s, e))
  {
    hide ChannelDecrypted, ChannelEncrypted, SameHold, HoldsLast, InstallsAt;
    if Enabled(s, e) {
      match e
      case ClientSeals(p) => ClientStillAgrees(a, s, p, [], 0);
      case ClientOpens(f, now) => ClientStillAgrees(a, s, [], f, now);
      case ServerSeals(addr, p) =>
        TrafficKeepsKeys(a, s.table[addr], p, [], 0);
        StillHolds(s.table[addr], ChannelEncrypted(a, s.table[addr], p).0, InstallsAt(s.installs, addr));
      case ServerOpens(addr, f, now) =>
        TrafficKeepsKeys(a, s.table[addr], [], f, now);
        StillHolds(s.table[addr], ChannelDecrypted(a, s.table[addr], f, now).0, InstallsAt(s.installs, addr));
      case Handle(i, addr, r, at) => HandleAgrees(a, s, e);
      case _ =>
    }
  }

  lemma ClientStillAgrees(a: Aead, s: State, p: seq<byte>, f: seq<byte>, now: int)
    requires s.client.Running?
    ensures SameKeys(s.client.channel.current, ChannelEncrypted(a, s.client.channel, p).0.current)
    ensures SameKeys(s.client.channel.current, ChannelDecrypted(a, s.client.channel, f, now).0.current)
  {
    TrafficKeepsKeys(a, s.client.channel, p, f, now);
  }

  lemma HandleAgrees(a: Aead, s: State, e: Event)
    requires ChannelsAgree(s) && Enabled(s, e) && e.Handle?
    ensures ChannelsAgree(Next(a, s, e))
  {
    hide Install, HoldsLast, InstallsAt, ResponderSession, SameKeys;
    var p, end := Pair(e.i, e.r), Next(a, s, e);
    var i := Installation(e.addr, p, e.at, e.addr in s.table);
    InstallHolds(s.table, i, InstallsAt(s.installs, e.addr));
    forall k | k in end.table ensures HoldsLast(end.table[k], InstallsAt(end.installs, k)) {
      InstallsAtNext(s.installs, i, k);
      OthersUntouched(s.table, e.addr, ServerSession(p), e.at, k);
      assert k != e.addr ==> InstallsAt(end.installs, k) == InstallsAt(s.installs, k);
    }
  }

  lemma OthersUntouched(table: map<nat, ChannelState>, addr: nat, made: SessionState, at: int, k: nat)
    ensures var t := Install(table, addr, made, at);
      addr in t && (k != addr ==> (k in t <==> k in table) && (k in t ==> t[k] == table[k]))
  {}

  lemma EventKeepsInv(a: Aead, s: State, e: Event)
    requires Inv(s)
    ensures Inv(Next(a, s, e))
  {
    AnswersStep(a, s, e);
    DistinctStep(a, s, e);
    ConsumedStep(a, s, e);
    AgreeStep(a, s, e);
  }

  lemma {:induction false} RunKeepsInv(a: Aead, s: State, events: seq<Event>)
    requires Inv(s)
    ensures Inv(Run(a, s, events))
    decreases |events|
  {
    if events != [] {
      EventKeepsInv(a, s, events[0]);
      RunKeepsInv(a, Next(a, s, events[0]), events[1..]);
    }
  }

  lemma {:induction false} RunSplits(a: Aead, s: State, u: seq<Event>, v: seq<Event>)
    ensures Run(a, s, u + v) == Run(a, Run(a, s, u), v)
    decreases |u|
  {
    if u == [] {
      assert u + v == v;
    } else {
      assert (u + v)[1..] == u[1..] + v;
      RunSplits(a, Next(a, s, u[0]), u[1..], v);
    }
  }

  /** Rekey safety: whenever an event makes the client take up a session, the
      server had installed the session with the same ephemerals before that
      event, and the two have send and receive keys crossed. */
  lemma FollowsAnEarlierInstall(a: Aead, events: seq<Event>, n: nat)
    requires n < |events|
    ensures var before := Run(a, START, events[..n]);
      var after := Run(a, START, events[..n + 1]);
      before.follows != after.follows ==>
        && |after.follows| == |before.follows| + 1
        && var p := after.follows[|before.follows|];
        && after.client.Running?
        && SameKeys(after.client.channel.current, ClientSession(p))
        && (exists k :: 0 <= k < |before.installs| && before.installs[k].pair == p)
        && Matched(ClientSession(p), ServerSession(p))
  {
    hide Inv, AnswersInstalled, InstallsDistinct, ConsumedOnce, ChannelsAgree;
    var before := Run(a, START, events[..n]);
    var after := Run(a, START, events[..n + 1]);
    assert events[..n + 1] == events[..n] + [events[n]];
    RunSplits(a, START, events[..n], [events[n]]);
    assert Inv(START) by { InvAtStart(); }
    RunKeepsInv(a, START, events[..n]);
    assert after == Next(a, before, events[n]);
    if before.follows != after.follows {
      FollowStep(a, before, events[n]);
    }
  }

  lemma InvAtStart()
    ensures Inv(START)
  {}

  lemma FollowStep(a: Aead, s: State, e: Event)
    requires Inv(s) && Next(a, s, e).follows != s.follows
    ensures var end := Next(a, s, e);
      && end.client.Running?
      && |end.follows| == |s.follows| + 1 && Installed(s, end.follows[|s.follows|])
      && SameKeys(end.client.channel.current, ClientSession(end.follows[|s.follows|]))
  {
    hide ChannelDecrypted, ChannelEncrypted, Install;
  }

  /** No initiator rotates the client twice, whatever is duplicated or
      unsolicited; and no two installs of the server share a key. */
  lemma EachHandshakeOnce(a: Aead, events: seq<Event>)
    ensures var s := Run(a, START, events);
      && (forall k, l | 0 <= k < l < |s.follows| :: s.follows[k].i != s.follows[l].i)
      && (forall k, l | 0 <= k < l < |s.installs| ::
            ServerSession(s.installs[k].pair).recvKey != ServerSession(s.installs[l].pair).recvKey)
  {
    InvAtStart();
    RunKeepsInv(a, START, events);
  }

  // ---------- one goroutine on its own ----------

  lemma ThreeEvents(a: Aead, s: State, d: Event, e: Event, f: Event)
    ensures Run(a, s, [d, e, f]) == Next(a, Next(a, Next(a, s, d), e), f)
  {
    hide Next;
    assert [d, e, f][1..] == [e, f] && [e, f][1..] == [f] && [f][1..] == [];
    assert Run(a, Next(a, s, d), [e, f]) == Run(a, Next(a, Next(a, s, d), e), [f]);
  }

  /** Undisturbed, the client's reading, clearing and rotating add up to
      completing a rehandshake, and to nothing for a reply nobody waits for. */
  lemma UninterruptedIsComplete(a: Aead, s: State, p: Pair, at: int)
    requires s.client.Running? && s.receiver.Listening? && p in s.msg2s
    ensures Run(a, s, [Receive(p), Clear, Follow(at)]) ==
      if s.pending == Some(p.i) then
        s.(pending := None,
           client := Running(Rotated(s.client.channel, InitiatorSession(p.i, p.r), at)),
           follows := s.follows + [p])
      else s
  {
    ThreeEvents(a, s, Receive(p), Clear, Follow(at));
    hide ChannelDecrypted, ChannelEncrypted, Install, Rotated, Run;
  }

  /** Undisturbed, making, storing and sending add up to starting a rehandshake:
      whatever was pending is forgotten. */
  lemma UninterruptedIsStart(a: Aead, s: State, i: nat)
    requires s.client.Running? && s.starter.Resting? && i !in s.ownEphs + s.foreignEphs
    ensures Run(a, s, [Make(i), Store, Send]) ==
      s.(pending := Some(i), ownEphs := s.ownEphs + {i}, msg1s := s.msg1s + {i})
  {
    ThreeEvents(a, s, Make(i), Store, Send);
    hide ChannelDecrypted, ChannelEncrypted, Install, Run;
  }

  /** Undisturbed, the server's table update and its reply add up to answering a
      handshake. */
  lemma UninterruptedIsAnswer(a: Aead, s: State, i: nat, addr: nat, r: nat, at: int)
    requires Enabled(s, Handle(i, addr, r, at))
    ensures Run(a, s, [Handle(i, addr, r, at), Reply]) ==
      s.(table := Install(s.table, addr, ResponderSession(i, r), at),
         msg2s := s.msg2s + {Pair(i, r)},
         foreignEphs := if i in s.ownEphs then s.foreignEphs else s.foreignEphs + {i},
         responderEphs := s.responderEphs + {r},
         installs := s.installs + [Installation(addr, Pair(i, r), at, addr in s.table)])
  {
    hide ChannelDecrypted, ChannelEncrypted, Install;
    assert [Handle(i, addr, r, at), Reply][1..] == [Reply] && [Reply][1..] == [];
    assert Run(a, Next(a, s, Handle(i, addr, r, at)), [Reply]) == Next(a, Next(a, s, Handle(i, addr, r, at)), Reply);
  }
}
