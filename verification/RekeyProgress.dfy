/** What a complete exchange achieves, from whatever state it starts, and what
    a client may rely on while exchanges follow one another in order. */
module RekeyProgress {
  import opened Wrappers
  import opened Cipher
  import opened Sessions
  import opened Channels
  import opened Handshake
  import opened Rekey

  /** How far the exchange of initiator `i`, answered by `r`, has got: 0 not
      begun, 1 made, 2 stored as pending, 3 sent, 4 installed by the server,
      5 answered, 6 read by the client, 7 pending cleared, 8 followed. The first
      handshake goes from 0 to 3 at once, and ends when its answer is read. */
  datatype Progress = Progress(first: bool, step: nat, i: nat, r: nat)

  const FIRST_NOT_BEGUN := Progress(true, 0, 0, 0)

  const NOT_BEGUN := Progress(false, 0, 0, 0)

  /** The exchange's next event, if `e` is it; `me` is the client's address. */
  function Advance(p: Progress, e: Event, me: nat): Option<Progress> {
    match e
    case Boot(i) => if p.first && p.step == 0 then Some(Progress(true, 3, i, 0)) else None
    case BootReply(answer) =>
      if p.first && p.step == 5 && answer == Some(Pair(p.i, p.r)) then Some(NOT_BEGUN) else None
    case Make(i) => if !p.first && p.step == 0 then Some(Progress(false, 1, i, 0)) else None
    case Store => if p.step == 1 then Some(p.(step := 2)) else None
    case Send => if p.step == 2 then Some(p.(step := 3)) else None
    case Handle(i, addr, r, _) =>
      if p.step == 3 && i == p.i && addr == me then Some(p.(step := 4, r := r)) else None
    case Reply => if p.step == 4 then Some(p.(step := 5)) else None
    case Receive(q) => if !p.first && p.step == 5 && q == Pair(p.i, p.r) then Some(p.(step := 6)) else None
    case Clear => if p.step == 6 then Some(p.(step := 7)) else None
    case Follow(_) => if p.step == 7 then Some(p.(step := 8)) else None
    case _ => None
  }

  /** Events that leave the exchange alone: traffic, replies to others, handshakes
      of others, and removals. The client's own address may be removed, and other
      first messages handled there, until the server has installed the new session. */
  predicate Quiet(p: Progress, e: Event, me: nat) {
    match e
    case Handle(i, addr, _, _) => (addr != me || p.step < 4) && (p.step > 0 ==> i != p.i)
    case Reply => p.step != 4
    case Cleanup(addr) => addr != me || p.step < 4
    case ClientSeals(_) => true
    case ClientOpens(_, _) => true
    case ServerSeals(_, _) => true
    case ServerOpens(_, _, _) => true
    case _ => false
  }

  /** The run carries out one whole exchange, with quiet events in between. */
  predicate OneExchange(a: Aead, s: State, p: Progress, me: nat, events: seq<Event>)
    decreases |events|
  {
    if events == [] then p.step == 8
    else if !Enabled(s, events[0]) then OneExchange(a, s, p, me, events[1..])
    else
      var next := Next(a, s, events[0]);
      match Advance(p, events[0], me)
      case Some(q) => OneExchange(a, next, q, me, events[1..])
      case None => Quiet(p, events[0], me) && OneExchange(a, next, p, me, events[1..])
  }

  ghost predicate StageHolds(s: State, p: Progress, me: nat) {
    && p.step <= 8
    && (if p.first then
          (p.step == 0 || 3 <= p.step <= 5) && s.client == (if p.step == 0 then Booting else Awaiting(p.i))
        else s.client.Running?)
    && s.starter == (if p.step == 1 then Made(p.i) else if p.step == 2 then Stored(p.i) else Resting)
    && s.receiver == (if p.step == 6 then Read(p.i, p.r) else if p.step == 7 then Cleared(p.i, p.r) else Listening)
    && (!p.first && 2 <= p.step <= 5 ==> s.pending == Some(p.i))
    && (7 <= p.step ==> s.pending == None)
    && (1 <= p.step ==> p.i in s.ownEphs && OnlyAnswer(s, p))
    && (4 <= p.step ==> me in s.table && SameKeys(s.table[me].current, ResponderSession(p.i, p.r)))
    && (p.step == 4 ==> s.reply == Some(Pair(p.i, p.r)))
    && (4 <= p.step < 8 ==> forall k | 0 <= k < |s.follows| :: s.follows[k].i != p.i)
    && (p.step == 8 ==> SameKeys(s.client.channel.current, InitiatorSession(p.i, p.r)))
  }

  /** The only answer to this initiator anywhere is the one the server gave it. */
  ghost predicate OnlyAnswer(s: State, p: Progress) {
    && (forall q | q in s.msg2s && q.i == p.i :: 5 <= p.step && q.r == p.r)
    && (s.reply.Some? && s.reply.value.i == p.i ==> p.step == 4)
  }

  lemma AdvanceStep(a: Aead, s: State, p: Progress, e: Event, me: nat)
    requires Inv(s) && StageHolds(s, p, me) && Enabled(s, e) && Advance(p, e, me).Some?
    ensures StageHolds(Next(a, s, e), Advance(p, e, me).value, me)
  {
    hide ChannelDecrypted, ChannelEncrypted, InstallsDistinct, ChannelsAgree, AnswersInstalled;
    if e.Make? || e.Boot? {
      NoAnswerYet(s, e.i);
    }
  }

  lemma NoAnswerYet(s: State, i: nat)
    requires Inv(s) && i !in s.ownEphs + s.foreignEphs
    ensures forall q | q in s.msg2s :: q.i != i
    ensures s.reply.Some? ==> s.reply.value.i != i
  {}

  lemma QuietStep(a: Aead, s: State, p: Progress, e: Event, me: nat)
    requires StageHolds(s, p, me) && Enabled(s, e) && Quiet(p, e, me)
    ensures StageHolds(Next(a, s, e), p, me)
  {
    hide ChannelDecrypted, ChannelEncrypted;
    TrafficStep(a, s, e);
  }

  /** Traffic changes no session's keys and nothing of the handshake's state. */
  lemma TrafficStep(a: Aead, s: State, e: Event)
    requires Enabled(s, e)
    ensures e.ClientSeals? || e.ClientOpens? ==>
      var end := Next(a, s, e);
      end == s.(client := end.client, sealed := end.sealed)
      && end.client.Running? && SameHold(s.client.channel, end.client.channel)
    ensures e.ServerSeals? || e.ServerOpens? ==>
      var end := Next(a, s, e);
      end == s.(table := s.table[e.addr := end.table[e.addr]], deliveries := end.deliveries)
      && SameHold(s.table[e.addr], end.table[e.addr])
  {
    hide ChannelDecrypted, ChannelEncrypted;
    match e
    case ClientSeals(p) => TrafficKeepsKeys(a, s.client.channel, p, [], 0);
    case ClientOpens(f, now) => TrafficKeepsKeys(a, s.client.channel, [], f, now);
    case ServerSeals(addr, p) => TrafficKeepsKeys(a, s.table[addr], p, [], 0);
    case ServerOpens(addr, f, now) => TrafficKeepsKeys(a, s.table[addr], [], f, now);
    case _ =>
  }

  ghost predicate InStep(s: State, me: nat) {
    && s.client.Running? && me in s.table
    && Matched(s.client.channel.current, s.table[me].current)
  }

  lemma {:induction false} ExchangeEndsMatched(a: Aead, s: State, p: Progress, me: nat, events: seq<Event>)
    requires Inv(s) && StageHolds(s, p, me) && OneExchange(a, s, p, me, events)
    ensures InStep(Run(a, s, events), me)
    decreases |events|
  {
    hide Inv, StageHolds, Enabled, Next, Quiet, Advance;
    if events == [] {
      assert InStep(s, me) by { FollowedIsMatched(s, p, me); }
    } else {
      var e := events[0];
      EventKeepsInv(a, s, e);
      if !Enabled(s, e) {
        DisabledStays(a, s, e);
        ExchangeEndsMatched(a, s, p, me, events[1..]);
      } else if Advance(p, e, me).Some? {
        AdvanceStep(a, s, p, e, me);
        ExchangeEndsMatched(a, Next(a, s, e), Advance(p, e, me).value, me, events[1..]);
      } else {
        QuietStep(a, s, p, e, me);
        ExchangeEndsMatched(a, Next(a, s, e), p, me, events[1..]);
      }
    }
  }

  lemma DisabledStays(a: Aead, s: State, e: Event)
    requires !Enabled(s, e)
    ensures Next(a, s, e) == s
  {}

  lemma FollowedIsMatched(s: State, p: Progress, me: nat)
    requires StageHolds(s, p, me) && p.step == 8
    ensures InStep(s, me)
  {}

  /** Convergence: from any state the two can reach, with whatever was lost,
      left pending or cleaned up before, one undisturbed exchange leaves the
      two current sessions matched. */
  lemma UndisturbedExchangeConverges(a: Aead, history: seq<Event>, me: nat, events: seq<Event>)
    requires var s := Run(a, START, history);
      && s.client.Running? && s.starter.Resting? && s.receiver.Listening?
      && OneExchange(a, s, NOT_BEGUN, me, events)
    ensures InStep(Run(a, START, history + events), me)
  {
    InvAtStart();
    RunKeepsInv(a, START, history);
    RunSplits(a, START, history, events);
    ExchangeEndsMatched(a, Run(a, START, history), NOT_BEGUN, me, events);
  }

  // ---------- continuity ----------

  /** Exchanges follow one another: a new one begins only after the last was
      followed, each first message is handled once, and the client's address is
      not removed and used by no other. */
  predicate Orderly(a: Aead, s: State, p: Progress, me: nat, events: seq<Event>)
    decreases |events|
  {
    if events == [] then true
    else if !Enabled(s, events[0]) then Orderly(a, s, p, me, events[1..])
    else
      var next := Next(a, s, events[0]);
      match Advance(p, events[0], me)
      case Some(q) => Orderly(a, next, Continued(q), me, events[1..])
      case None => QuietElsewhere(p, events[0], me) && Orderly(a, next, p, me, events[1..])
  }

  function Continued(p: Progress): Progress {
    if p.step == 8 then NOT_BEGUN else p
  }

  predicate QuietElsewhere(p: Progress, e: Event, me: nat) {
    Quiet(p, e, me) && e != Cleanup(me) && !(e.Handle? && e.addr == me)
  }

  /** The session the client sends on is the server's current one until the
      server installs the next, and then its previous one until the client follows. */
  ghost predicate LinedUp(s: State, p: Progress, me: nat) {
    !p.first ==>
      && s.client.Running? && me in s.table
      && (if 4 <= p.step < 8 then
            && s.table[me].previous.Some?
            && Matched(s.client.channel.current, s.table[me].previous.value)
          else Matched(s.client.channel.current, s.table[me].current))
  }

  ghost predicate Continuous(s: State, p: Progress, me: nat) {
    StageHolds(s, p, me) && LinedUp(s, p, me)
  }

  lemma AdvanceContinues(a: Aead, s: State, p: Progress, e: Event, me: nat)
    requires Inv(s) && Continuous(s, p, me) && Enabled(s, e) && Advance(p, e, me).Some?
    ensures Continuous(Next(a, s, e), Continued(Advance(p, e, me).value), me)
  {
    AdvanceStep(a, s, p, e, me);
    AdvanceLinesUp(a, s, p, e, me);
    StageContinues(Next(a, s, e), Advance(p, e, me).value, me);
    hide *;
    Continues(Next(a, s, e), Continued(Advance(p, e, me).value), me);
  }

  lemma StageContinues(s: State, p: Progress, me: nat)
    requires StageHolds(s, p, me)
    ensures StageHolds(s, Continued(p), me)
  {}

  lemma Continues(s: State, p: Progress, me: nat)
    requires StageHolds(s, p, me) && LinedUp(s, p, me)
    ensures Continuous(s, p, me)
  {}

  lemma AdvanceLinesUp(a: Aead, s: State, p: Progress, e: Event, me: nat)
    requires StageHolds(s, p, me) && LinedUp(s, p, me) && Enabled(s, e) && Advance(p, e, me).Some?
    ensures LinedUp(Next(a, s, e), Continued(Advance(p, e, me).value), me)
  {
    hide ChannelDecrypted, ChannelEncrypted, Install, OnlyAnswer;
    if e.Handle? {
      Installs(s.table, me, ResponderSession(e.i, e.r), e.at);
    }
  }

  lemma Installs(table: map<nat, ChannelState>, addr: nat, made: SessionState, at: int)
    ensures var t := Install(table, addr, made, at);
      && addr in t && t[addr].current == made
      && (addr in table ==> t[addr].previous == Some(table[addr].current))
  {}

  lemma QuietContinues(a: Aead, s: State, p: Progress, e: Event, me: nat)
    requires Continuous(s, p, me) && Enabled(s, e) && QuietElsewhere(p, e, me)
    ensures Continuous(Next(a, s, e), p, me)
  {
    QuietStep(a, s, p, e, me);
    TrafficStep(a, s, e);
    hide ChannelDecrypted, ChannelEncrypted, StageHolds;
  }

  /** The session the client seals under is one the server holds: its current
      one, or its previous one, and then the client never sealed under the
      server's current one. */
  ghost predicate ClientHeard(s: State, me: nat) {
    && s.client.Running? && me in s.table
    && var server := s.table[me];
      || Matched(s.client.channel.current, server.current)
      || (&& server.previous.Some? && Matched(s.client.channel.current, server.previous.value)
          && !Followed(s, server.current.recvKey))
  }

  /** The client took up the session it seals under this key. */
  ghost predicate Followed(s: State, key: Key) {
    exists k :: 0 <= k < |s.follows| && ClientSession(s.follows[k]).sendKey == key
  }

  lemma {:induction false} OrderlyStaysContinuous(a: Aead, s: State, p: Progress, me: nat, events: seq<Event>)
    requires Inv(s) && Continuous(s, p, me) && Orderly(a, s, p, me, events)
    ensures var t := Run(a, s, events); t.client.Running? ==> ClientHeard(t, me)
    decreases |events|
  {
    hide Inv, Continuous, Enabled, Next, QuietElsewhere, Advance, Continued, ClientHeard;
    if events == [] {
      if s.client.Running? {
        ContinuousIsHeard(s, p, me);
      }
    } else {
      var e := events[0];
      EventKeepsInv(a, s, e);
      if !Enabled(s, e) {
        DisabledStays(a, s, e);
        OrderlyStaysContinuous(a, s, p, me, events[1..]);
      } else if Advance(p, e, me).Some? {
        AdvanceContinues(a, s, p, e, me);
        OrderlyStaysContinuous(a, Next(a, s, e), Continued(Advance(p, e, me).value), me, events[1..]);
      } else {
        QuietContinues(a, s, p, e, me);
        OrderlyStaysContinuous(a, Next(a, s, e), p, me, events[1..]);
      }
    }
  }

  lemma ContinuousIsHeard(s: State, p: Progress, me: nat)
    requires Continuous(s, p, me) && s.client.Running?
    ensures ClientHeard(s, me)
  {
    hide Matched;
  }

  /** A run in which exchanges follow one another: from the very start, the first
      handshake included, or from any moment at which the two are in step again
      and at rest, whatever was lost, duplicated or removed before. */
  ghost predicate OrderlyAfter(a: Aead, history: seq<Event>, me: nat, events: seq<Event>) {
    var s := Run(a, START, history);
    || (history == [] && Orderly(a, s, FIRST_NOT_BEGUN, me, events))
    || (InStep(s, me) && s.starter.Resting? && s.receiver.Listening? && Orderly(a, s, NOT_BEGUN, me, events))
  }

  /** Continuity, client to server: at every point of such a run, a client that is
      running sends on the server's current or previous session. */
  lemma ClientIsAlwaysHeard(a: Aead, me: nat, history: seq<Event>, events: seq<Event>)
    requires OrderlyAfter(a, history, me, events)
    ensures var s := Run(a, START, history + events); s.client.Running? ==> ClientHeard(s, me)
  {
    hide ClientHeard;
    var s := Run(a, START, history);
    InvAtStart();
    RunKeepsInv(a, START, history);
    RunSplits(a, START, history, events);
    var p := if history == [] && Orderly(a, s, FIRST_NOT_BEGUN, me, events) then FIRST_NOT_BEGUN else NOT_BEGUN;
    OrderlyStaysContinuous(a, s, p, me, events);
  }

  function PlainFirst(me: nat, i: nat, r: nat, at: int): seq<Event> {
    [Boot(i), Handle(i, me, r, at), Reply, BootReply(Some(Pair(i, r)))]
  }

  /** The bare first handshake begins such a run, and leaves the two in step. */
  lemma PlainFirstIsOrderly(a: Aead, me: nat, i: nat, r: nat, at: int)
    ensures OrderlyAfter(a, [], me, PlainFirst(me, i, r, at))
    ensures InStep(Run(a, START, PlainFirst(me, i, r, at)), me)
  {
    hide ChannelDecrypted, ChannelEncrypted;
    var es := PlainFirst(me, i, r, at);
    var s1 := Next(a, START, es[0]);
    var s2 := Next(a, s1, es[1]);
    var s3 := Next(a, s2, es[2]);
    var s4 := Next(a, s3, es[3]);
    assert es[1..][1..] == es[2..] && es[2..][1..] == es[3..] && es[3..][1..] == [];
    assert Run(a, s3, es[3..]) == s4;
    assert Run(a, s2, es[2..]) == s4;
    assert Run(a, s1, es[1..]) == s4;
    assert Orderly(a, s3, Progress(true, 5, i, r), me, es[3..]);
    assert Orderly(a, s2, Progress(true, 4, i, r), me, es[2..]);
    assert Orderly(a, s1, Progress(true, 3, i, 0), me, es[1..]);
  }

  /** The bare exchange is one: from any reachable state at rest, eight events
      with fresh ephemerals carry it out. */
  lemma PlainExchangeIsOne(a: Aead, history: seq<Event>, me: nat, i: nat, r: nat, at: int)
    requires var s := Run(a, START, history);
      && s.client.Running? && s.starter.Resting? && s.receiver.Listening? && s.reply.None?
      && i !in s.ownEphs + s.foreignEphs && r !in s.responderEphs
    ensures OneExchange(a, Run(a, START, history), NOT_BEGUN, me, PlainExchange(me, i, r, at))
  {
    hide ChannelDecrypted, ChannelEncrypted, Install;
    var s0 := Run(a, START, history);
    var es := PlainExchange(me, i, r, at);
    var s1 := Next(a, s0, es[0]);
    var s2 := Next(a, s1, es[1]);
    var s3 := Next(a, s2, es[2]);
    var s4 := Next(a, s3, es[3]);
    var s5 := Next(a, s4, es[4]);
    var s6 := Next(a, s5, es[5]);
    var s7 := Next(a, s6, es[6]);
    var s8 := Next(a, s7, es[7]);
    assert OneExchange(a, s8, Progress(false, 8, i, r), me, es[8..]);
    assert OneExchange(a, s7, Progress(false, 7, i, r), me, es[7..]) by { assert es[7..][1..] == es[8..]; }
    assert OneExchange(a, s6, Progress(false, 6, i, r), me, es[6..]) by { assert es[6..][1..] == es[7..]; }
    assert OneExchange(a, s5, Progress(false, 5, i, r), me, es[5..]) by { assert es[5..][1..] == es[6..]; }
    assert OneExchange(a, s4, Progress(false, 4, i, r), me, es[4..]) by { assert es[4..][1..] == es[5..]; }
    assert OneExchange(a, s3, Progress(false, 3, i, 0), me, es[3..]) by { assert es[3..][1..] == es[4..]; }
    assert OneExchange(a, s2, Progress(false, 2, i, 0), me, es[2..]) by { assert es[2..][1..] == es[3..]; }
    assert OneExchange(a, s1, Progress(false, 1, i, 0), me, es[1..]) by { assert es[1..][1..] == es[2..]; }
  }

  function PlainExchange(me: nat, i: nat, r: nat, at: int): seq<Event> {
    [Make(i), Store, Send, Handle(i, me, r, at), Reply, Receive(Pair(i, r)), Clear, Follow(at)]
  }
}
