/** What traffic does while the two ends rekey: which frames the server opens, in
    terms of what the client sealed and the server opened before. */
module RekeyTraffic {
  import opened Encoding
  import opened Wrappers
  import opened Cipher
  import opened ReplayWindow
  import opened Sessions
  import opened Channels
  import opened Handshake
  import opened Rekey
  import opened RekeyProgress

  /** The client sealed this text into this frame under this key. */
  ghost predicate SealedUnder(s: State, key: Key, frame: seq<byte>, plaintext: seq<byte>) {
    exists n :: 0 <= n < |s.sealed| && s.sealed[n].key == key && s.sealed[n].frame == frame
      && s.sealed[n].plaintext == plaintext
  }

  ghost predicate WasSealed(s: State, key: Key, frame: seq<byte>) {
    exists n :: 0 <= n < |s.sealed| && s.sealed[n].key == key && s.sealed[n].frame == frame
  }

  /** The frame is no forgery for the server's sessions at this address: if it is
      sealed for one, the client sealed it there. It may come late, in any order
      and any number of times, and it may be garbage. */
  ghost predicate Unforged(a: Aead, s: State, addr: nat, frame: seq<byte>) {
    addr in s.table ==>
      forall k | k in RecvKeys(s.table[addr]) && SealedFor(a, k, frame) :: WasSealed(s, k, frame)
  }

  /** Nothing the server opens for the client's address in the run is a forgery. */
  ghost predicate UnforgedRun(a: Aead, s: State, me: nat, events: seq<Event>)
    decreases |events|
  {
    events != [] ==>
      && (events[0].ServerOpens? && events[0].addr == me ==> Unforged(a, s, me, events[0].frame))
      && UnforgedRun(a, Next(a, s, events[0]), me, events[1..])
  }

  /** The counters the server delivered for an address under a key. */
  function DeliveredAt(ds: seq<Delivery>, addr: nat, key: Key): set<uint64> {
    if ds == [] then {}
    else
      var d := ds[|ds| - 1];
      DeliveredAt(ds[..|ds| - 1], addr, key) + (if d.addr == addr && d.key == key then {Counter(d.frame)} else {})
  }

  // ---------- what the client seals ----------

  /** Every sealing is of a session the client took up, and those of the session
      it is on lie below that session's next counter. */
  ghost predicate SealedInOrder(a: Aead, s: State) {
    forall n | 0 <= n < |s.sealed| :: SealingInOrder(a, s, s.sealed[n])
  }

  ghost predicate SealingInOrder(a: Aead, s: State, l: Sealing) {
    && l.counter <= MAX_NONCE && l.frame == Frame(a, l.key, l.counter, l.plaintext)
    && Followed(s, l.key)
    && (s.client.Running? && l.key == s.client.channel.current.sendKey ==>
          l.counter < s.client.channel.current.sendNonce)
  }

  lemma SealedStep(a: Aead, s: State, e: Event)
    requires Inv(s) && SealedInOrder(a, s)
    ensures SealedInOrder(a, Next(a, s, e))
  {
    hide Frame, AnswersInstalled, InstallsDistinct, ChannelDecrypted, Deliverer, Install, SealingInOrder, Followed;
    hide ChannelEncrypted;
    var t := Next(a, s, e);
    forall n | 0 <= n < |t.sealed| ensures SealingInOrder(a, t, t.sealed[n]) {
      if n < |s.sealed| {
        assert t.sealed[n] == s.sealed[n];
        OldSealing(a, s, e, s.sealed[n]);
      } else {
        NewSealing(a, s, e.plaintext);
      }
    }
  }

  lemma OldSealing(a: Aead, s: State, e: Event, l: Sealing)
    requires Inv(s) && SealingInOrder(a, s, l)
    ensures SealingInOrder(a, Next(a, s, e), l)
  {
    hide Frame, AnswersInstalled, InstallsDistinct, ChannelsAgree, ChannelDecrypted, Deliverer, Install;
    var t := Next(a, s, e);
    var k :| 0 <= k < |s.follows| && ClientSession(s.follows[k]).sendKey == l.key;
    assert t.follows[k] == s.follows[k];
    if Enabled(s, e) && e.ClientOpens? {
      TrafficKeepsSender(a, s.client.channel, e.frame, e.now);
    }
  }

  lemma TrafficKeepsSender(a: Aead, c: ChannelState, f: seq<byte>, now: int)
    ensures var d := ChannelDecrypted(a, c, f, now).0;
      d.current.sendKey == c.current.sendKey && d.current.sendNonce == c.current.sendNonce
  {}

  lemma NewSealing(a: Aead, s: State, p: seq<byte>)
    requires Inv(s) && s.client.Running? && ChannelEncrypted(a, s.client.channel, p).1.Ok?
    ensures var t := Next(a, s, ClientSeals(p));
      |t.sealed| == |s.sealed| + 1 && SealingInOrder(a, t, t.sealed[|s.sealed|])
  {
    hide Frame, AnswersInstalled, InstallsDistinct, ConsumedOnce;
    var t := Next(a, s, ClientSeals(p));
    assert t.follows == s.follows;
    var last := |s.follows| - 1;
    assert ClientSession(s.follows[last]).sendKey == s.client.channel.current.sendKey;
  }

  // ---------- what the server opens ----------

  /** The filters of the server's sessions are the history of its deliveries. */
  ghost predicate FiltersAreHistory(s: State) {
    && (forall n | 0 <= n < |s.deliveries| :: s.deliveries[n].key.responderEph in s.responderEphs)
    && (forall addr | addr in s.table :: RowIsHistory(s.table[addr], s.deliveries, s.responderEphs, addr))
  }

  ghost predicate RowIsHistory(c: ChannelState, ds: seq<Delivery>, ephs: set<nat>, addr: nat) {
    && DistinctKeys(c)
    && forall k | k in RecvKeys(c) :: k.responderEph in ephs && AcceptedUnder(c, k) == DeliveredAt(ds, addr, k)
  }

  lemma {:induction false} NothingDelivered(ds: seq<Delivery>, addr: nat, key: Key)
    requires forall n | 0 <= n < |ds| :: ds[n].key != key
    ensures DeliveredAt(ds, addr, key) == {}
  {
    if ds != [] {
      NothingDelivered(ds[..|ds| - 1], addr, key);
    }
  }

  lemma DeliveredNext(ds: seq<Delivery>, d: Delivery, addr: nat, key: Key)
    ensures DeliveredAt(ds + [d], addr, key)
      == DeliveredAt(ds, addr, key) + (if d.addr == addr && d.key == key then {Counter(d.frame)} else {})
  {
    assert (ds + [d])[..|ds|] == ds;
  }

  lemma HistoryStep(a: Aead, s: State, e: Event)
    requires FiltersAreHistory(s)
    ensures FiltersAreHistory(Next(a, s, e))
  {
    hide ChannelDecrypted, ChannelEncrypted, Deliverer, Install, RowIsHistory, DeliveredAt;
    if Enabled(s, e) {
      match e
      case Handle(i, addr, r, at) => HandleHistory(a, s, e);
      case ServerSeals(addr, p) => SealHistory(a, s.table[addr], p, s.deliveries, s.responderEphs, addr);
      case ServerOpens(addr, f, now) => OpenHistory(a, s, addr, f, now);
      case _ =>
    }
  }

  lemma SealHistory(a: Aead, c: ChannelState, p: seq<byte>, ds: seq<Delivery>, ephs: set<nat>, addr: nat)
    requires RowIsHistory(c, ds, ephs, addr)
    ensures RowIsHistory(ChannelEncrypted(a, c, p).0, ds, ephs, addr)
  {
    hide DeliveredAt;
    var d := ChannelEncrypted(a, c, p).0;
    assert RecvKeys(d) == RecvKeys(c);
    assert forall k :: AcceptedUnder(d, k) == AcceptedUnder(c, k);
  }

  lemma HandleHistory(a: Aead, s: State, e: Event)
    requires FiltersAreHistory(s) && Enabled(s, e) && e.Handle?
    ensures FiltersAreHistory(Next(a, s, e))
  {
    hide DeliveredAt, RowIsHistory;
    var t := Next(a, s, e);
    var made := ResponderSession(e.i, e.r);
    NothingDelivered(s.deliveries, e.addr, made.recvKey);
    forall k | k in t.table ensures RowIsHistory(t.table[k], t.deliveries, t.responderEphs, k) {
      if k == e.addr {
        var held := if k in s.table then Some(s.table[k]) else None;
        TakenUpHistory(held, made, e.at, s.deliveries, s.responderEphs, k);
      } else {
        MoreEphs(s.table[k], s.deliveries, s.responderEphs, t.responderEphs, k);
      }
    }
  }

  lemma MoreEphs(c: ChannelState, ds: seq<Delivery>, ephs: set<nat>, more: set<nat>, addr: nat)
    requires RowIsHistory(c, ds, ephs, addr) && ephs <= more
    ensures RowIsHistory(c, ds, more, addr)
  {}

  lemma TakenUpHistory(held: Option<ChannelState>, made: SessionState, at: int,
                       ds: seq<Delivery>, ephs: set<nat>, addr: nat)
    requires held.Some? ==> RowIsHistory(held.value, ds, ephs, addr)
    requires made.recvKey.responderEph !in ephs && made.accepted == {}
    requires DeliveredAt(ds, addr, made.recvKey) == {}
    ensures RowIsHistory(TakenUp(held, made, at), ds, ephs + {made.recvKey.responderEph}, addr)
  {
    hide DeliveredAt;
  }

  lemma OpenHistory(a: Aead, s: State, addr: nat, f: seq<byte>, now: int)
    requires FiltersAreHistory(s) && addr in s.table
    ensures FiltersAreHistory(Next(a, s, ServerOpens(addr, f, now)))
  {
    hide ChannelDecrypted, Deliverer, DeliveredAt, RowIsHistory;
    var t := Next(a, s, ServerOpens(addr, f, now));
    var c := s.table[addr];
    if ChannelDecrypted(a, c, f, now).1.Ok? {
      DelivererIsHeld(a, c, f, now);
      assert RowIsHistory(c, s.deliveries, s.responderEphs, addr);
      HeldIsAnswered(c, s.deliveries, s.responderEphs, addr, Deliverer(a, c, f, now).value);
    }
    forall k | k in t.table ensures RowIsHistory(t.table[k], t.deliveries, t.responderEphs, k) {
      if k == addr {
        OpenedRow(a, c, f, now, s.deliveries, s.responderEphs, addr);
      } else if t.deliveries != s.deliveries {
        OtherRow(s.table[k], s.deliveries, t.deliveries[|s.deliveries|], s.responderEphs, k);
      }
    }
  }

  lemma DelivererIsHeld(a: Aead, c: ChannelState, f: seq<byte>, now: int)
    requires Deliverer(a, c, f, now).Some?
    ensures Deliverer(a, c, f, now).value in RecvKeys(c)
  {
    hide Decrypted;
  }

  lemma HeldIsAnswered(c: ChannelState, ds: seq<Delivery>, ephs: set<nat>, addr: nat, k: Key)
    requires RowIsHistory(c, ds, ephs, addr) && k in RecvKeys(c)
    ensures k.responderEph in ephs
  {}

  lemma OtherRow(c: ChannelState, ds: seq<Delivery>, d: Delivery, ephs: set<nat>, addr: nat)
    requires RowIsHistory(c, ds, ephs, addr) && d.addr != addr
    ensures RowIsHistory(c, ds + [d], ephs, addr)
  {
    hide DeliveredAt;
    forall k | k in RecvKeys(c) ensures DeliveredAt(ds + [d], addr, k) == DeliveredAt(ds, addr, k) {
      DeliveredNext(ds, d, addr, k);
    }
  }

  lemma OpenedRow(a: Aead, c: ChannelState, f: seq<byte>, now: int, ds: seq<Delivery>, ephs: set<nat>, addr: nat)
    requires RowIsHistory(c, ds, ephs, addr)
    ensures var (d, r) := ChannelDecrypted(a, c, f, now);
      RowIsHistory(d,
        if r.Ok? then ds + [Delivery(addr, Deliverer(a, c, f, now).value, f, r.value)] else ds, ephs, addr)
  {
    hide ChannelDecrypted, Deliverer, DeliveredAt, AcceptedUnder, Counter;
    var (d, r) := ChannelDecrypted(a, c, f, now);
    TrafficKeepsKeys(a, c, [], f, now);
    forall k | k in RecvKeys(c)
      ensures RecvKeys(d) == RecvKeys(c)
      ensures AcceptedUnder(d, k) == DeliveredAt(
        if r.Ok? then ds + [Delivery(addr, Deliverer(a, c, f, now).value, f, r.value)] else ds, addr, k)
    {
      ChannelDecryptedRecords(a, c, f, now, k);
      if r.Ok? {
        DeliveredNext(ds, Delivery(addr, Deliverer(a, c, f, now).value, f, r.value), addr, k);
      }
    }
  }

  // ---------- no forgery comes through ----------

  /** Whatever was delivered for this address is what the client sealed, under
      the key it was delivered under. */
  ghost predicate DeliveriesSealed(s: State, me: nat) {
    forall n | 0 <= n < |s.deliveries| && s.deliveries[n].addr == me ::
      SealedUnder(s, s.deliveries[n].key, s.deliveries[n].frame, s.deliveries[n].plaintext)
  }

  lemma StillSealed(a: Aead, s: State, e: Event, key: Key, frame: seq<byte>, plaintext: seq<byte>)
    requires SealedUnder(s, key, frame, plaintext)
    ensures SealedUnder(Next(a, s, e), key, frame, plaintext)
  {
    hide ChannelDecrypted, ChannelEncrypted, Deliverer, Install;
    var n :| 0 <= n < |s.sealed| && s.sealed[n].key == key && s.sealed[n].frame == frame
      && s.sealed[n].plaintext == plaintext;
    assert Next(a, s, e).sealed[n] == s.sealed[n];
  }

  /** A frame that is sealed for a key and was sealed by the client under it says
      what the client put in. */
  lemma SaysWhatWasSealed(a: Aead, s: State, key: Key, frame: seq<byte>, p: seq<byte>)
    requires Authentic(a) && SealedInOrder(a, s) && WasSealed(s, key, frame)
    ensures SealedAs(a, key, frame, p) <==> SealedUnder(s, key, frame, p)
  {
    forall n | 0 <= n < |s.sealed| && s.sealed[n].key == key && s.sealed[n].frame == frame
      ensures SealedAs(a, key, frame, s.sealed[n].plaintext)
    {
      SealingIsSealed(a, s, n);
    }
    hide SealedAs, SealingInOrder;
    var n :| 0 <= n < |s.sealed| && s.sealed[n].key == key && s.sealed[n].frame == frame;
    if SealedAs(a, key, frame, p) {
      SealedAsOne(a, key, frame, p, s.sealed[n].plaintext);
    }
  }

  lemma SealingIsSealed(a: Aead, s: State, n: nat)
    requires Authentic(a) && SealedInOrder(a, s) && n < |s.sealed|
    ensures var l := s.sealed[n];
      SealedAs(a, l.key, l.frame, l.plaintext) && Counter(l.frame) == l.counter
  {
    var l := s.sealed[n];
    assert SealingInOrder(a, s, l);
    FrameParts(a, l.key, l.counter, l.plaintext);
  }

  lemma DeliveriesStep(a: Aead, s: State, e: Event, me: nat)
    requires Authentic(a) && SealedInOrder(a, s) && FiltersAreHistory(s) && DeliveriesSealed(s, me)
    requires e.ServerOpens? && e.addr == me ==> Unforged(a, s, me, e.frame)
    ensures DeliveriesSealed(Next(a, s, e), me)
  {
    var t := Next(a, s, e);
    forall n | 0 <= n < |t.deliveries| && t.deliveries[n].addr == me
      ensures SealedUnder(t, t.deliveries[n].key, t.deliveries[n].frame, t.deliveries[n].plaintext)
    {
      if n < |s.deliveries| {
        DeliveriesGrow(a, s, e);
        hide Next;
        StillSealed(a, s, e, t.deliveries[n].key, t.deliveries[n].frame, t.deliveries[n].plaintext);
      } else {
        NewDelivery(a, s, e, me);
      }
    }
  }

  lemma DeliveriesGrow(a: Aead, s: State, e: Event)
    ensures s.deliveries <= Next(a, s, e).deliveries && |Next(a, s, e).deliveries| <= |s.deliveries| + 1
  {
    hide ChannelDecrypted, ChannelEncrypted, Deliverer, Install;
  }

  lemma NewDelivery(a: Aead, s: State, e: Event, me: nat)
    requires Authentic(a) && SealedInOrder(a, s) && FiltersAreHistory(s)
    requires |Next(a, s, e).deliveries| > |s.deliveries| && Next(a, s, e).deliveries[|s.deliveries|].addr == me
    requires e.ServerOpens? && e.addr == me ==> Unforged(a, s, me, e.frame)
    ensures var t := Next(a, s, e);
      var d := t.deliveries[|s.deliveries|];
      |t.deliveries| == |s.deliveries| + 1 && SealedUnder(t, d.key, d.frame, d.plaintext)
  {
    hide ChannelDecrypted, ChannelEncrypted, Deliverer, Install, SealedInOrder, SealedAs, DeliveredAt;
    assert e.ServerOpens? && Enabled(s, e);
    var c, t := s.table[me], Next(a, s, e);
    assert RowIsHistory(c, s.deliveries, s.responderEphs, me);
    DeliveryIsNew(a, c, e.frame, e.now);
    var k := Deliverer(a, c, e.frame, e.now).value;
    var p := ChannelDecrypted(a, c, e.frame, e.now).1.value;
    assert SealedFor(a, k, e.frame);
    SaysWhatWasSealed(a, s, k, e.frame, p);
    assert t.sealed == s.sealed;
  }

  // ---------- no frame comes through twice ----------

  ghost predicate DeliveredOnce(ds: seq<Delivery>) {
    forall i, j | 0 <= i < j < |ds| :: !SameDelivery(ds[i], ds[j])
  }

  predicate SameDelivery(d: Delivery, e: Delivery) {
    d.addr == e.addr && d.key == e.key && Counter(d.frame) == Counter(e.frame)
  }

  lemma {:induction false} CountsAsDelivered(ds: seq<Delivery>, n: nat)
    requires n < |ds|
    ensures Counter(ds[n].frame) in DeliveredAt(ds, ds[n].addr, ds[n].key)
  {
    if n < |ds| - 1 {
      CountsAsDelivered(ds[..|ds| - 1], n);
    }
  }

  lemma {:induction false} DeliveredBy(ds: seq<Delivery>, addr: nat, key: Key, m: uint64)
    requires m in DeliveredAt(ds, addr, key)
    ensures exists n :: 0 <= n < |ds| && ds[n].addr == addr && ds[n].key == key && Counter(ds[n].frame) == m
  {
    var last := |ds| - 1;
    if m in DeliveredAt(ds[..last], addr, key) {
      DeliveredBy(ds[..last], addr, key, m);
      var n :| 0 <= n < last && ds[..last][n].addr == addr && ds[..last][n].key == key
        && Counter(ds[..last][n].frame) == m;
      assert ds[n] == ds[..last][n];
    } else {
      assert ds[last].addr == addr && ds[last].key == key && Counter(ds[last].frame) == m;
    }
  }

  lemma OnceStep(a: Aead, s: State, e: Event)
    requires Authentic(a) && FiltersAreHistory(s) && DeliveredOnce(s.deliveries)
    ensures DeliveredOnce(Next(a, s, e).deliveries)
  {
    hide ChannelDecrypted, ChannelEncrypted, Deliverer, Install, DeliveredAt, Counter, SealedAs, AcceptedUnder;
    var t := Next(a, s, e);
    if t.deliveries != s.deliveries {
      assert Enabled(s, e) && e.ServerOpens?;
      var c := s.table[e.addr];
      assert RowIsHistory(c, s.deliveries, s.responderEphs, e.addr);
      DeliveryIsNew(a, c, e.frame, e.now);
      forall n | 0 <= n < |s.deliveries|
        ensures Counter(s.deliveries[n].frame) in DeliveredAt(s.deliveries, s.deliveries[n].addr, s.deliveries[n].key)
      {
        CountsAsDelivered(s.deliveries, n);
      }
    }
  }

  // ---------- whole runs ----------

  ghost predicate TrafficInv(a: Aead, s: State, me: nat) {
    && Inv(s) && SealedInOrder(a, s) && FiltersAreHistory(s)
    && DeliveriesSealed(s, me) && DeliveredOnce(s.deliveries)
  }

  lemma {:induction false} RunKeepsTraffic(a: Aead, s: State, me: nat, events: seq<Event>)
    requires Authentic(a) && TrafficInv(a, s, me) && UnforgedRun(a, s, me, events)
    ensures TrafficInv(a, Run(a, s, events), me)
    decreases |events|
  {
    if events != [] {
      hide Next, Inv, SealedInOrder, FiltersAreHistory, DeliveriesSealed, DeliveredOnce, Unforged;
      var e := events[0];
      EventKeepsInv(a, s, e);
      SealedStep(a, s, e);
      HistoryStep(a, s, e);
      DeliveriesStep(a, s, e, me);
      OnceStep(a, s, e);
      RunKeepsTraffic(a, Next(a, s, e), me, events[1..]);
    }
  }

  lemma RunFromStart(a: Aead, me: nat, events: seq<Event>)
    requires Authentic(a) && UnforgedRun(a, START, me, events)
    ensures TrafficInv(a, Run(a, START, events), me)
  {
    InvAtStart();
    RunKeepsTraffic(a, START, me, events);
  }

  /** While nobody forges, the server hands up for the client's address only what
      the client sealed, and no counter of a session twice. */
  lemma OnlySealedFramesArriveOnce(a: Aead, me: nat, events: seq<Event>)
    requires Authentic(a) && UnforgedRun(a, START, me, events)
    ensures var s := Run(a, START, events);
      && (forall n | 0 <= n < |s.deliveries| && s.deliveries[n].addr == me ::
            SealedUnder(s, s.deliveries[n].key, s.deliveries[n].frame, s.deliveries[n].plaintext))
      && (forall i, j | 0 <= i < j < |s.deliveries| :: !SameDelivery(s.deliveries[i], s.deliveries[j]))
  {
    hide SealedUnder, Inv, SealedInOrder, FiltersAreHistory, SameDelivery;
    RunFromStart(a, me, events);
  }

  /** The last install at an address, and the key of the one before. */
  function LastInstall(s: State, me: nat): Installation
    requires InstallsAt(s.installs, me) != []
  {
    var at := InstallsAt(s.installs, me);
    at[|at| - 1]
  }

  function LastKey(s: State, me: nat): Key
    requires InstallsAt(s.installs, me) != []
  {
    ServerSession(LastInstall(s, me).pair).recvKey
  }

  function KeyBefore(s: State, me: nat): Key
    requires |InstallsAt(s.installs, me)| > 1
  {
    var at := InstallsAt(s.installs, me);
    ServerSession(at[|at| - 2].pair).recvKey
  }

  lemma HeldKeys(s: State, addr: nat)
    requires Inv(s) && addr in s.table
    ensures InstallsAt(s.installs, addr) != [] && s.table[addr].current.recvKey == LastKey(s, addr)
    ensures s.table[addr].previous.Some? <==> LastInstall(s, addr).rotated
    ensures LastInstall(s, addr).rotated ==>
      && |InstallsAt(s.installs, addr)| > 1 && s.table[addr].previous.value.recvKey == KeyBefore(s, addr)
      && s.table[addr].prevUntil == LastInstall(s, addr).at + 30_000_000_000
  {
    hide InstallsAt, AnswersInstalled, InstallsDistinct, ConsumedOnce;
    assert HoldsLast(s.table[addr], InstallsAt(s.installs, addr));
  }

  /** In every run, a row has a previous session exactly when the last install at
      its address rotated, and then honours it until thirty seconds after the
      reading of that install. */
  lemma GraceIsThirtySeconds(a: Aead, events: seq<Event>, addr: nat, now: int)
    requires addr in Run(a, START, events).table
    ensures var s := Run(a, START, events);
      && InstallsAt(s.installs, addr) != []
      && (PreviousUsable(s.table[addr], now) <==>
            LastInstall(s, addr).rotated && now < LastInstall(s, addr).at + 30_000_000_000)
  {
    InvAtStart();
    RunKeepsInv(a, START, events);
    hide Run, Inv, LastInstall, LastKey, KeyBefore;
    HeldKeys(Run(a, START, events), addr);
  }

  /** The two sessions of a row have different keys. */
  lemma ServerKeysDistinct(a: Aead, events: seq<Event>, addr: nat)
    requires addr in Run(a, START, events).table
    ensures DistinctKeys(Run(a, START, events).table[addr])
  {
    RunKeepsHistory(a, START, events);
    hide Run, Inv;
    var s := Run(a, START, events);
    assert RowIsHistory(s.table[addr], s.deliveries, s.responderEphs, addr);
  }

  lemma {:induction false} RunKeepsHistory(a: Aead, s: State, events: seq<Event>)
    requires FiltersAreHistory(s)
    ensures FiltersAreHistory(Run(a, s, events))
    decreases |events|
  {
    if events != [] {
      hide Next, FiltersAreHistory;
      HistoryStep(a, s, events[0]);
      RunKeepsHistory(a, Next(a, s, events[0]), events[1..]);
    }
  }

  /** In every run, forgeries or not, a frame comes out at an address exactly
      when it is sealed for the session installed there last; or, if it is not
      sealed for that one, for the one before while the server still honours it,
      so that a second rotation ends a session; and its counter is fresh among
      those delivered under that key. */
  lemma OpensExactlyLastTwo(a: Aead, events: seq<Event>, addr: nat, frame: seq<byte>, p: seq<byte>, now: int)
    requires Authentic(a) && addr in Run(a, START, events).table
    ensures var s := Run(a, START, events);
      var c := s.table[addr];
      && InstallsAt(s.installs, addr) != []
      && (LastInstall(s, addr).rotated ==> |InstallsAt(s.installs, addr)| > 1)
      && (ChannelDecrypted(a, c, frame, now).1 == Ok(p) <==>
            if SealedFor(a, LastKey(s, addr), frame) then
              && SealedAs(a, LastKey(s, addr), frame, p)
              && Fresh(DeliveredAt(s.deliveries, addr, LastKey(s, addr)), Counter(frame))
            else
              && LastInstall(s, addr).rotated && now < LastInstall(s, addr).at + 30_000_000_000
              && SealedAs(a, KeyBefore(s, addr), frame, p)
              && Fresh(DeliveredAt(s.deliveries, addr, KeyBefore(s, addr)), Counter(frame)))
  {
    InvAtStart();
    RunKeepsInv(a, START, events);
    RunKeepsHistory(a, START, events);
    hide Run, Inv, ChannelDecrypted, SealedAs, Fresh, Counter, DeliveredAt;
    hide LastInstall, LastKey, KeyBefore, InstallsAt;
    var s := Run(a, START, events);
    HeldKeys(s, addr);
    assert RowIsHistory(s.table[addr], s.deliveries, s.responderEphs, addr);
    ChannelDecryptedExactly(a, s.table[addr], frame, now, p);
  }

  /** In every run without forgeries, a frame comes out at the client's address
      exactly as the history of sealings and deliveries says: as the client
      sealed it under the session installed there last, or, if it sealed no such
      frame there, under the one before while the server still honours it; and
      only if its counter is fresh among those delivered under that key. */
  lemma OpensExactlyByHistory(a: Aead, me: nat, events: seq<Event>, frame: seq<byte>, p: seq<byte>, now: int)
    requires Authentic(a) && UnforgedRun(a, START, me, events)
    requires var s := Run(a, START, events); me in s.table && Unforged(a, s, me, frame)
    ensures var s := Run(a, START, events);
      && InstallsAt(s.installs, me) != []
      && (LastInstall(s, me).rotated ==> |InstallsAt(s.installs, me)| > 1)
      && (ChannelDecrypted(a, s.table[me], frame, now).1 == Ok(p) <==>
            if WasSealed(s, LastKey(s, me), frame) then
              && SealedUnder(s, LastKey(s, me), frame, p)
              && Fresh(DeliveredAt(s.deliveries, me, LastKey(s, me)), Counter(frame))
            else
              && LastInstall(s, me).rotated && now < LastInstall(s, me).at + 30_000_000_000
              && SealedUnder(s, KeyBefore(s, me), frame, p)
              && Fresh(DeliveredAt(s.deliveries, me, KeyBefore(s, me)), Counter(frame)))
  {
    hide Run, Inv, SealedInOrder, DeliveriesSealed;
    hide ChannelDecrypted, SealedAs, Fresh, Counter, DeliveredAt;
    hide LastInstall, LastKey, KeyBefore, InstallsAt, WasSealed, SealedUnder;
    var s := Run(a, START, events);
    RunFromStart(a, me, events);
    HeldKeys(s, me);
    var c := s.table[me];
    assert RowIsHistory(c, s.deliveries, s.responderEphs, me);
    ChannelDecryptedExactly(a, c, frame, now, p);
    UnforgedIsSealed(a, s, me, c.current.recvKey, frame, p);
    if c.previous.Some? {
      UnforgedIsSealed(a, s, me, c.previous.value.recvKey, frame, p);
    }
  }

  lemma UnforgedIsSealed(a: Aead, s: State, me: nat, k: Key, frame: seq<byte>, p: seq<byte>)
    requires Authentic(a) && SealedInOrder(a, s) && me in s.table && Unforged(a, s, me, frame)
    requires k in RecvKeys(s.table[me])
    ensures SealedFor(a, k, frame) <==> WasSealed(s, k, frame)
    ensures SealedAs(a, k, frame, p) <==> SealedUnder(s, k, frame, p)
  {
    hide SealedAs, SealingInOrder, RecvKeys;
    assert SealedAs(a, k, frame, p) ==> SealedFor(a, k, frame);
    if WasSealed(s, k, frame) {
      var n :| 0 <= n < |s.sealed| && s.sealed[n].key == k && s.sealed[n].frame == frame;
      SealingIsSealed(a, s, n);
      SaysWhatWasSealed(a, s, k, frame, p);
    }
  }

  // ---------- continuity ----------

  /** What the client seals next is fresh at the server. */
  lemma NextIsFresh(a: Aead, s: State, me: nat)
    requires Authentic(a) && TrafficInv(a, s, me) && s.client.Running?
    ensures var c := s.client.channel.current;
      Fresh(DeliveredAt(s.deliveries, me, c.sendKey), c.sendNonce)
  {
    hide Inv, FiltersAreHistory, DeliveredOnce, DeliveredAt, Counter;
    var c := s.client.channel.current;
    forall m | m in DeliveredAt(s.deliveries, me, c.sendKey) ensures m < c.sendNonce {
      DeliveredBy(s.deliveries, me, c.sendKey, m);
      var n :| 0 <= n < |s.deliveries| && s.deliveries[n].addr == me && s.deliveries[n].key == c.sendKey
        && Counter(s.deliveries[n].frame) == m;
      var d := s.deliveries[n];
      assert SealedUnder(s, d.key, d.frame, d.plaintext);
      var l :| 0 <= l < |s.sealed| && s.sealed[l].key == d.key && s.sealed[l].frame == d.frame
        && s.sealed[l].plaintext == d.plaintext;
      SealingIsSealed(a, s, l);
      assert SealingInOrder(a, s, s.sealed[l]);
    }
  }

  /** The state in which the client has just sealed its next frame. */
  function AfterSealing(a: Aead, s: State, plaintext: seq<byte>): State {
    Next(a, s, ClientSeals(plaintext))
  }

  lemma SealingAppends(a: Aead, s: State, plaintext: seq<byte>)
    requires s.client.Running? && s.client.channel.current.sendNonce <= MAX_NONCE
    ensures var t, c := AfterSealing(a, s, plaintext), s.client.channel.current;
      && t == s.(client := t.client, sealed := t.sealed)
      && t.sealed == s.sealed
           + [Sealing(c.sendKey, c.sendNonce, Frame(a, c.sendKey, c.sendNonce, plaintext), plaintext)]
  {
    hide Frame;
  }

  /** If the client's session is current at the server, or previous there, the
      deadline has not come and the frame is no forgery of the current one's,
      then what it seals next comes out as what it put in. */
  ghost predicate NextArrives(a: Aead, s: State, me: nat, plaintext: seq<byte>, now: int)
    requires s.client.Running? && me in s.table
  {
    var t := AfterSealing(a, s, plaintext);
    && t.table == s.table && |t.sealed| == |s.sealed| + 1 && InstallsAt(s.installs, me) != []
    && var f := t.sealed[|s.sealed|].frame;
      && (Matched(s.client.channel.current, s.table[me].current) ==>
            ChannelDecrypted(a, t.table[me], f, now).1 == Ok(plaintext))
      && (now < LastInstall(s, me).at + 30_000_000_000 && Unforged(a, t, me, f) ==>
            ChannelDecrypted(a, t.table[me], f, now).1 == Ok(plaintext))
  }

  lemma NextFrameArrives(a: Aead, s: State, me: nat, plaintext: seq<byte>, now: int)
    requires Authentic(a) && TrafficInv(a, s, me) && ClientHeard(s, me)
    requires s.client.channel.current.sendNonce <= MAX_NONCE
    ensures NextArrives(a, s, me, plaintext, now)
  {
    hide Inv, DeliveredAt, Counter, Fresh, SealedAs, Frame, ChannelDecrypted, AfterSealing;
    hide DeliveredOnce, DeliveriesSealed, LastInstall, LastKey, KeyBefore, InstallsAt;
    var t, c, server := AfterSealing(a, s, plaintext), s.client.channel.current, s.table[me];
    SealingAppends(a, s, plaintext);
    NextIsFresh(a, s, me);
    HeldKeys(s, me);
    assert RowIsHistory(server, s.deliveries, s.responderEphs, me);
    var f := t.sealed[|s.sealed|].frame;
    FreshlySealed(a, c.sendKey, c.sendNonce, plaintext);
    assert SealedFor(a, c.sendKey, f);
    ChannelDecryptedExactly(a, server, f, now, plaintext);
    CurrentIsHeld(server);
    if !Matched(c, server.current) && Unforged(a, t, me, f) {
      NeverSealedThere(a, s, t, server.current.recvKey, f);
    }
  }

  lemma FreshlySealed(a: Aead, key: Key, n: uint64, p: seq<byte>)
    requires Authentic(a) && n <= MAX_NONCE
    ensures var f := Frame(a, key, n, p); SealedAs(a, key, f, p) && Counter(f) == n
  {
    FrameParts(a, key, n, p);
  }

  lemma NeverSealedThere(a: Aead, s: State, t: State, key: Key, f: seq<byte>)
    requires SealedInOrder(a, s) && s.client.Running? && !Followed(s, key) && |t.sealed| == |s.sealed| + 1
    requires t.sealed[..|s.sealed|] == s.sealed && t.sealed[|s.sealed|].key != key
    ensures !WasSealed(t, key, f)
  {
    forall n | 0 <= n < |t.sealed| ensures t.sealed[n].key != key {
      if n < |s.sealed| {
        assert t.sealed[n] == s.sealed[n];
        assert SealingInOrder(a, s, s.sealed[n]);
      }
    }
  }

  /** An earlier frame comes out, as what the client put in, exactly when its
      counter is still fresh among those delivered, while its session is the
      last installed for the client; or the one before, and still honoured. */
  ghost predicate EarlierArrives(a: Aead, s: State, me: nat, n: nat, now: int)
    requires me in s.table && n < |s.sealed|
  {
    var l, server := s.sealed[n], s.table[me];
    var arrives := ChannelDecrypted(a, server, l.frame, now).1 == Ok(l.plaintext);
    var unseen := Fresh(DeliveredAt(s.deliveries, me, l.key), l.counter);
    && InstallsAt(s.installs, me) != []
    && (LastInstall(s, me).rotated ==> |InstallsAt(s.installs, me)| > 1)
    && (l.key == LastKey(s, me) ==> (arrives <==> unseen))
    && (LastInstall(s, me).rotated && l.key == KeyBefore(s, me) && now < LastInstall(s, me).at + 30_000_000_000 ==>
          Unforged(a, s, me, l.frame) && !WasSealed(s, LastKey(s, me), l.frame) ==> (arrives <==> unseen))
  }

  lemma EarlierFrameArrives(a: Aead, s: State, me: nat, n: nat, now: int)
    requires Authentic(a) && TrafficInv(a, s, me) && me in s.table && n < |s.sealed|
    ensures EarlierArrives(a, s, me, n, now)
  {
    hide Inv, DeliveredAt, Counter, Fresh, SealedAs, ChannelDecrypted;
    hide LastInstall, LastKey, KeyBefore, InstallsAt, WasSealed;
    var l, c := s.sealed[n], s.table[me];
    HeldKeys(s, me);
    assert RowIsHistory(c, s.deliveries, s.responderEphs, me);
    SealingIsSealed(a, s, n);
    assert SealedFor(a, l.key, l.frame);
    ChannelDecryptedExactly(a, c, l.frame, now, l.plaintext);
    CurrentIsHeld(c);
  }

  /** Continuity, client to server, over whole runs: exchanges follow one another
      from the start, or from a moment when the two were in step, and nobody
      forges. Then a running client's next frame arrives, and so does every
      earlier one that still can. */
  lemma Continuity(a: Aead, me: nat, history: seq<Event>, events: seq<Event>)
    requires Authentic(a) && OrderlyAfter(a, history, me, events) && UnforgedRun(a, START, me, history + events)
    requires Run(a, START, history + events).client.Running?
    ensures var s := Run(a, START, history + events);
      && ClientHeard(s, me)
      && (s.client.channel.current.sendNonce <= MAX_NONCE ==>
            forall plaintext, now :: NextArrives(a, s, me, plaintext, now))
      && (forall n, now | 0 <= n < |s.sealed| :: EarlierArrives(a, s, me, n, now))
  {
    hide Run, TrafficInv, NextArrives, EarlierArrives, Unforged, OrderlyAfter, UnforgedRun;
    ClientIsAlwaysHeard(a, me, history, events);
    RunFromStart(a, me, history + events);
    var s := Run(a, START, history + events);
    forall plaintext, now | s.client.channel.current.sendNonce <= MAX_NONCE
      ensures NextArrives(a, s, me, plaintext, now)
    {
      NextFrameArrives(a, s, me, plaintext, now);
    }
    forall n, now | 0 <= n < |s.sealed| ensures EarlierArrives(a, s, me, n, now) {
      EarlierFrameArrives(a, s, me, n, now);
    }
  }
}
