/** One channel shared by any number of goroutines. Every critical section of
    the code is one event: the snapshot under the channel's lock, sealing under
    the send lock, authentication under the receive lock, acceptance under the
    replay filter's own lock, and rotation. Events of different goroutines
    interleave freely. */
module ConcurrentChannel {
  import opened Encoding
  import opened Wrappers
  import opened Cipher
  import opened ReplayWindow
  import opened Sessions
  import opened Channels
  import opened Maps

  /** Where a goroutine stands between two critical sections. Sessions are held
      by reference, so a goroutine can act on one the channel no longer holds. */
  datatype Pc =
    | Idle
    | ToSeal(session: nat, plaintext: seq<byte>)
    | ToAuthenticate(session: nat, fallback: Option<nat>, frame: seq<byte>)
    | ToAccept(session: nat, frame: seq<byte>, plaintext: seq<byte>)

  datatype Sealing = Sealing(session: nat, key: Key, counter: uint64)

  datatype Delivery = Delivery(session: nat, frame: seq<byte>, plaintext: seq<byte>)

  datatype State = State(
    sessions: map<nat, SessionState>,
    current: nat,
    previous: Option<nat>,
    prevUntil: int,
    grace: int,
    threads: map<nat, Pc>,
    sealings: seq<Sealing>,
    deliveries: seq<Delivery>)

  datatype Event =
    | StartEncrypt(thread: nat, plaintext: seq<byte>)
    | Seal(thread: nat)
    | StartDecrypt(thread: nat, frame: seq<byte>, now: int)
    | Authenticate(thread: nat)
    | Accept(thread: nat)
    | Rotate(id: nat, next: SessionState, at: int)

  function PcOf(s: State, t: nat): Pc {
    if t in s.threads then s.threads[t] else Idle
  }

  function At(s: State, t: nat, pc: Pc): State {
    s.(threads := s.threads[t := pc])
  }

  /** A session just out of a handshake: new keys, nothing sent or accepted. */
  predicate Brand(s: map<nat, SessionState>, id: nat, next: SessionState) {
    && id !in s
    && next.sendNonce == 0 && next.accepted == {}
    && forall i | i in s :: s[i].sendKey != next.sendKey && s[i].recvKey != next.recvKey
  }

  predicate Enabled(s: State, e: Event) {
    match e
    case StartEncrypt(t, _) => PcOf(s, t) == Idle
    case Seal(t) => PcOf(s, t).ToSeal? && PcOf(s, t).session in s.sessions
    case StartDecrypt(t, _, _) => PcOf(s, t) == Idle
    case Authenticate(t) => PcOf(s, t).ToAuthenticate? && PcOf(s, t).session in s.sessions
    case Accept(t) => PcOf(s, t).ToAccept? && PcOf(s, t).session in s.sessions
    case Rotate(id, next, _) => Brand(s.sessions, id, next)
  }

  /** One critical section. An event that cannot happen now changes nothing. */
  function Next(a: Aead, s: State, e: Event): State {
    if !Enabled(s, e) then s
    else
      match e
      case StartEncrypt(t, p) => At(s, t, ToSeal(s.current, p))
      case Seal(t) =>
        var id := PcOf(s, t).session;
        var (x, r) := Encrypted(a, s.sessions[id], PcOf(s, t).plaintext);
        var done := At(s, t, Idle).(sessions := s.sessions[id := x]);
        if r.Ok? then
          done.(sealings := s.sealings + [Sealing(id, s.sessions[id].sendKey, s.sessions[id].sendNonce)])
        else done
      case StartDecrypt(t, f, now) =>
        At(s, t, ToAuthenticate(s.current, if now < s.prevUntil then s.previous else None, f))
      case Authenticate(t) =>
        var pc := PcOf(s, t);
        var x := s.sessions[pc.session];
        var tried := s.(sessions := s.sessions[pc.session := x.(recvNonce := NonceAfter(a, x, pc.frame))]);
        (match Opened(a, x.recvKey, pc.frame)
         case Ok(p) => At(tried, t, ToAccept(pc.session, pc.frame, p))
         case Err(_) =>
           At(tried, t, if pc.fallback.Some? then ToAuthenticate(pc.fallback.value, None, pc.frame) else Idle))
      case Accept(t) =>
        var pc := PcOf(s, t);
        var x := s.sessions[pc.session];
        if Fresh(x.accepted, Counter(pc.frame)) then
          At(s, t, Idle).(
            sessions := s.sessions[pc.session := x.(accepted := x.accepted + {Counter(pc.frame)})],
            deliveries := s.deliveries + [Delivery(pc.session, pc.frame, pc.plaintext)])
        else At(s, t, Idle)
      case Rotate(id, next, at) =>
        s.(sessions := s.sessions[id := next], current := id, previous := Some(s.current), prevUntil := at + s.grace)
  }

  function Run(a: Aead, s: State, events: seq<Event>): State {
    if events == [] then s else Next(a, Run(a, s, events[..|events| - 1]), events[|events| - 1])
  }

  predicate Start(s: State) {
    && s.sessions.Keys == {s.current}
    && s.sessions[s.current].sendNonce == 0 && s.sessions[s.current].accepted == {}
    && s.previous == None && s.threads == map[] && s.sealings == [] && s.deliveries == []
  }

  // ---------- what every interleaving keeps ----------

  ghost predicate SessionsApart(s: State) {
    forall i, j | i in s.sessions && j in s.sessions && i != j ::
      s.sessions[i].sendKey != s.sessions[j].sendKey && s.sessions[i].recvKey != s.sessions[j].recvKey
  }

  ghost predicate ReferencesLive(s: State) {
    && s.current in s.sessions
    && (s.previous.Some? ==> s.previous.value in s.sessions)
    && forall t | t in s.threads :: PcLive(s, s.threads[t])
  }

  ghost predicate PcLive(s: State, pc: Pc) {
    && (!pc.Idle? ==> pc.session in s.sessions)
    && (pc.ToAuthenticate? && pc.fallback.Some? ==> pc.fallback.value in s.sessions)
  }

  /** Between authentication and acceptance a goroutine holds a genuine frame. */
  ghost predicate PcGenuine(a: Aead, s: State, pc: Pc) {
    pc.ToAccept? && pc.session in s.sessions ==>
      SealedAs(a, s.sessions[pc.session].recvKey, pc.frame, pc.plaintext)
  }

  ghost predicate SealingsBelow(s: State) {
    forall i | 0 <= i < |s.sealings| ::
      var l := s.sealings[i];
      l.session in s.sessions && l.key == s.sessions[l.session].sendKey && l.counter < s.sessions[l.session].sendNonce
  }

  ghost predicate SealingsDistinct(s: State) {
    forall i, j | 0 <= i < j < |s.sealings| ::
      (s.sealings[i].key, s.sealings[i].counter) != (s.sealings[j].key, s.sealings[j].counter)
  }

  ghost predicate DeliveriesGenuine(a: Aead, s: State) {
    forall i | 0 <= i < |s.deliveries| ::
      var d := s.deliveries[i];
      && d.session in s.sessions
      && SealedAs(a, s.sessions[d.session].recvKey, d.frame, d.plaintext)
      && Counter(d.frame) in s.sessions[d.session].accepted
  }

  ghost predicate DeliveriesDistinct(s: State) {
    forall i, j | 0 <= i < j < |s.deliveries| ::
      (s.deliveries[i].session, Counter(s.deliveries[i].frame))
        != (s.deliveries[j].session, Counter(s.deliveries[j].frame))
  }

  ghost predicate Inv(a: Aead, s: State) {
    && SessionsApart(s) && ReferencesLive(s)
    && (forall t | t in s.threads :: PcGenuine(a, s, s.threads[t]))
    && SealingsBelow(s) && SealingsDistinct(s)
    && DeliveriesGenuine(a, s) && DeliveriesDistinct(s)
  }

  /** Sessions keep their keys; their nonces and filters only grow. */
  ghost predicate Extends(s: State, end: State) {
    forall i | i in s.sessions ::
      && i in end.sessions
      && s.sessions[i].sendKey == end.sessions[i].sendKey && s.sessions[i].recvKey == end.sessions[i].recvKey
      && s.sessions[i].sendNonce <= end.sessions[i].sendNonce
      && s.sessions[i].accepted <= end.sessions[i].accepted
  }

  lemma SessionsExtend(a: Aead, s: State, e: Event)
    ensures Extends(s, Next(a, s, e))
  {
    hide Fresh, Opened, NonceAfter, Counter, Frame, PcOf;
  }

  lemma SessionsStayApart(a: Aead, s: State, e: Event)
    requires SessionsApart(s)
    ensures SessionsApart(Next(a, s, e))
  {
    if Enabled(s, e) && e.Rotate? {
    } else {
      SessionsExtend(a, s, e);
      assert Next(a, s, e).sessions.Keys == s.sessions.Keys by {
        hide Fresh, Opened, NonceAfter, Counter, Frame, PcOf;
      }
      hide Next;
    }
  }

  lemma ReferencesStayLive(a: Aead, s: State, e: Event)
    requires ReferencesLive(s)
    ensures ReferencesLive(Next(a, s, e))
  {
    hide Fresh, SealedAs, Opened, NonceAfter, Counter, Frame;
  }

  lemma ThreadsStayGenuine(a: Aead, s: State, e: Event)
    requires Authentic(a) && SessionsApart(s) && ReferencesLive(s)
    requires forall t | t in s.threads :: PcGenuine(a, s, s.threads[t])
    ensures var end := Next(a, s, e);
      forall t | t in end.threads :: PcGenuine(a, end, end.threads[t])
  {
    hide Next, SessionsApart, SealedAs, Counter;
    var end := Next(a, s, e);
    SessionsExtend(a, s, e);
    forall t | t in end.threads ensures PcGenuine(a, end, end.threads[t]) {
      if end.threads[t] != PcOf(s, t) {
        NewPcGenuine(a, s, e, t);
      }
    }
  }

  lemma NewPcGenuine(a: Aead, s: State, e: Event, t: nat)
    requires Authentic(a) && ReferencesLive(s)
    requires t in Next(a, s, e).threads && Next(a, s, e).threads[t] != PcOf(s, t)
    ensures PcGenuine(a, Next(a, s, e), Next(a, s, e).threads[t])
  {
    hide Fresh, SealedAs, Opened, NonceAfter, Counter, Frame;
    if e.Authenticate? {
      var pc := PcOf(s, t);
      var r := Opened(a, s.sessions[pc.session].recvKey, pc.frame);
      if r.Ok? {
        OpensExactlySealed(a, s.sessions[pc.session].recvKey, pc.frame, r.value);
      }
    }
  }

  /** An event seals at most one frame, with the nonce its session had. */
  lemma SealingsStep(a: Aead, s: State, e: Event)
    requires SealingsBelow(s) && SealingsDistinct(s) && SessionsApart(s)
    ensures SealingsBelow(Next(a, s, e)) && SealingsDistinct(Next(a, s, e))
  {
    SessionsExtend(a, s, e);
    if Enabled(s, e) && e.Seal? {
      SealStep(a, s, e.thread);
    } else {
      assert Next(a, s, e).sealings == s.sealings;
      hide Next;
    }
  }

  lemma SealStep(a: Aead, s: State, t: nat)
    requires SealingsBelow(s) && SealingsDistinct(s) && SessionsApart(s) && Enabled(s, Seal(t))
    ensures SealingsBelow(Next(a, s, Seal(t))) && SealingsDistinct(Next(a, s, Seal(t)))
  {
    hide Frame;
    var end := Next(a, s, Seal(t));
    var id := PcOf(s, t).session;
    forall i | 0 <= i < |s.sealings|
      ensures (s.sealings[i].key, s.sealings[i].counter) != (s.sessions[id].sendKey, s.sessions[id].sendNonce)
    {
      assert s.sealings[i].session != id ==> s.sealings[i].key != s.sessions[id].sendKey;
    }
  }

  /** An event delivers at most one frame: a genuine one, whose counter its
      session had not accepted. */
  lemma DeliveriesStep(a: Aead, s: State, e: Event)
    requires Inv(a, s)
    ensures DeliveriesGenuine(a, Next(a, s, e)) && DeliveriesDistinct(Next(a, s, e))
  {
    SessionsExtend(a, s, e);
    if Enabled(s, e) && e.Accept? {
      AcceptStep(a, s, e.thread);
    } else {
      hide SealedAs, Counter, Opened, NonceAfter, Fresh;
      assert Next(a, s, e).deliveries == s.deliveries;
      hide Next;
    }
  }

  lemma AcceptStep(a: Aead, s: State, t: nat)
    requires Inv(a, s) && Enabled(s, Accept(t))
    ensures DeliveriesGenuine(a, Next(a, s, Accept(t))) && DeliveriesDistinct(Next(a, s, Accept(t)))
  {
    hide Fresh, SealedAs, Counter, SessionsApart, SealingsBelow, SealingsDistinct;
    FreshIsNew(s.sessions[PcOf(s, t).session].accepted, Counter(PcOf(s, t).frame));
    assert PcGenuine(a, s, PcOf(s, t));
  }

  lemma EventKeepsInv(a: Aead, s: State, e: Event)
    requires Authentic(a) && Inv(a, s)
    ensures Inv(a, Next(a, s, e))
  {
    hide Next, SessionsApart, ReferencesLive, PcGenuine;
    hide SealingsBelow, SealingsDistinct, DeliveriesGenuine, DeliveriesDistinct;
    SessionsStayApart(a, s, e);
    ReferencesStayLive(a, s, e);
    ThreadsStayGenuine(a, s, e);
    SealingsStep(a, s, e);
    DeliveriesStep(a, s, e);
  }

  lemma {:induction false} RunKeepsInv(a: Aead, s: State, events: seq<Event>)
    requires Authentic(a) && Start(s)
    ensures Inv(a, Run(a, s, events))
  {
    if events != [] {
      RunKeepsInv(a, s, events[..|events| - 1]);
      EventKeepsInv(a, Run(a, s, events[..|events| - 1]), events[|events| - 1]);
    }
  }

  /** Under every interleaving, each counter of each session is handed up at
      most once, and only as the plaintext that was sealed for that session. */
  lemma DeliveredAtMostOnce(a: Aead, s: State, events: seq<Event>, i: nat, j: nat)
    requires Authentic(a) && Start(s)
    requires i < |Run(a, s, events).deliveries| && j < |Run(a, s, events).deliveries|
    ensures var end := Run(a, s, events);
      var d, e := end.deliveries[i], end.deliveries[j];
      && d.session in end.sessions && e.session in end.sessions
      && SealedAs(a, end.sessions[d.session].recvKey, d.frame, d.plaintext)
      && (end.sessions[d.session].recvKey == end.sessions[e.session].recvKey && Counter(d.frame) == Counter(e.frame)
          ==> i == j)
  {
    RunKeepsInv(a, s, events);
  }

  /** Under every interleaving of sealing and rotation, no key is ever used
      twice with the same nonce, even by a goroutine that picked its session up
      before a rotation and seals after it. */
  lemma NonceNeverReused(a: Aead, s: State, events: seq<Event>, i: nat, j: nat)
    requires Authentic(a) && Start(s)
    requires i < j < |Run(a, s, events).sealings|
    ensures var ls := Run(a, s, events).sealings;
      ls[i].key != ls[j].key || ls[i].counter != ls[j].counter
  {
    RunKeepsInv(a, s, events);
  }

  // ---------- one goroutine on its own ----------

  /** Authenticating and then accepting is Session.Decrypt on that session. */
  lemma TwoSectionsAreDecrypt(a: Aead, s: State, t: nat)
    requires PcOf(s, t).ToAuthenticate? && PcOf(s, t).session in s.sessions
    ensures var pc := PcOf(s, t);
      var (x, r) := Decrypted(a, s.sessions[pc.session], pc.frame);
      Next(a, Next(a, s, Authenticate(t)), Accept(t)) ==
        At(s, t, if r.Err? && r.error != Replay && pc.fallback.Some?
                 then ToAuthenticate(pc.fallback.value, None, pc.frame) else Idle).(
          sessions := s.sessions[pc.session := x],
          deliveries := s.deliveries + (if r.Ok? then [Delivery(pc.session, pc.frame, r.value)] else []))
  {
    hide Fresh, Opened, NonceAfter, Counter;
    var pc := PcOf(s, t);
    var x := s.sessions[pc.session];
    var tried := x.(recvNonce := NonceAfter(a, x, pc.frame));
    var mid := Next(a, s, Authenticate(t));
    OpenedIsNotReplay(a, x.recvKey, pc.frame);
    match Opened(a, x.recvKey, pc.frame)
    case Err(_) =>
      assert !Enabled(mid, Accept(t));
    case Ok(p) =>
      assert PcOf(mid, t) == ToAccept(pc.session, pc.frame, p) && mid.sessions[pc.session] == tried;
      Overwrite(s.threads, t, ToAccept(pc.session, pc.frame, p), Idle);
      Overwrite(s.sessions, pc.session, tried, tried.(accepted := x.accepted + {Counter(pc.frame)}));
  }

  lemma IdleWaits(a: Aead, s: State, t: nat)
    requires PcOf(s, t) == Idle
    ensures Next(a, s, Authenticate(t)) == s && Next(a, s, Accept(t)) == s
  {}

  /** What the channel object holds. */
  function View(s: State): ChannelState
    requires s.current in s.sessions && (s.previous.Some? ==> s.previous.value in s.sessions)
  {
    ChannelState(
      s.sessions[s.current],
      if s.previous.Some? then Some(s.sessions[s.previous.value]) else None,
      s.prevUntil, s.grace)
  }

  /** Undisturbed, the critical sections of one opening add up to
      Channel.Decrypt. */
  lemma UninterruptedIsDecrypt(a: Aead, s: State, t: nat, f: seq<byte>, now: int)
    requires PcOf(s, t) == Idle && s.current in s.sessions
    requires s.previous.Some? ==> s.previous.value in s.sessions && s.previous.value != s.current
    ensures var s1 := Next(a, s, StartDecrypt(t, f, now));
      var s2 := Next(a, Next(a, s1, Authenticate(t)), Accept(t));
      var s3 := Next(a, Next(a, s2, Authenticate(t)), Accept(t));
      var (c, r) := ChannelDecrypted(a, View(s), f, now);
      && s3.current == s.current && s3.previous == s.previous && s3.sessions.Keys == s.sessions.Keys
      && View(s3) == c && PcOf(s3, t) == Idle
      && |s3.deliveries| == |s.deliveries| + (if r.Ok? then 1 else 0)
      && (r.Ok? ==> s3.deliveries[|s.deliveries|].plaintext == r.value)
  {
    hide Decrypted, Opened;
    var s1 := Next(a, s, StartDecrypt(t, f, now));
    TwoSectionsAreDecrypt(a, s1, t);
    var s2 := Next(a, Next(a, s1, Authenticate(t)), Accept(t));
    if PcOf(s2, t).ToAuthenticate? {
      TwoSectionsAreDecrypt(a, s2, t);
    } else {
      IdleWaits(a, s2, t);
      assert s2.sessions == s.sessions[s.current := Decrypted(a, s.sessions[s.current], f).0];
    }
  }

  /** The snapshot and the sealing of one undisturbed call add up to
      Channel.Encrypt. */
  lemma UninterruptedIsEncrypt(a: Aead, s: State, t: nat, p: seq<byte>)
    requires PcOf(s, t) == Idle && s.current in s.sessions
    requires s.previous.Some? ==> s.previous.value in s.sessions && s.previous.value != s.current
    ensures var end := Next(a, Next(a, s, StartEncrypt(t, p)), Seal(t));
      var (c, r) := ChannelEncrypted(a, View(s), p);
      && end.current == s.current && end.previous == s.previous && end.sessions.Keys == s.sessions.Keys
      && View(end) == c && PcOf(end, t) == Idle
      && (r.Err? ==> end.sealings == s.sealings)
      && (r.Ok? ==>
            && |end.sealings| == |s.sealings| + 1 && end.sealings[..|s.sealings|] == s.sealings
            && var l := end.sealings[|s.sealings|];
               l.session == s.current && r.value == Frame(a, l.key, l.counter, p))
  {
    hide Frame;
  }

  /** The one critical section of a rotation is Channel.Rotate. */
  lemma RotateIsRotated(a: Aead, s: State, id: nat, next: SessionState, at: int)
    requires Enabled(s, Rotate(id, next, at)) && s.current in s.sessions
    requires s.previous.Some? ==> s.previous.value in s.sessions
    ensures View(Next(a, s, Rotate(id, next, at))) == Rotated(View(s), next, at)
  {}
}
