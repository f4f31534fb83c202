/** The whole server over its life: handshakes, data, pings, sealing and
    cleanup, with the cleanup goroutine free to run between any two lock regions
    of the packet handler. Rows are held by reference: the handler may go on
    with one that cleanup has already dropped from the table. */
module ServerRuns {
  import opened Encoding
  import opened Wrappers
  import opened Cipher
  import opened Sessions
  import opened Channels
  import opened Handshake
  import opened ServerSide

  /** Where the packet handler stands with a data frame. */
  datatype Handler =
    | Idle
    | Looked(row: nat, frame: seq<byte>)
    | Opened(row: nat, written: Written)
    | Stamped(written: Written)

  /** A frame handed up, and the receive key of the session that delivered it. */
  datatype Written = Written(key: Key, frame: seq<byte>, plaintext: seq<byte>)

  /** A session the server made: its receive key, and whose static key asked. */
  datatype Install = Install(key: Key, client: nat)

  datatype State = State(
    identity: nat,
    allowlist: set<nat>,
    table: map<Addr, nat>,
    rows: map<nat, Client>,
    handler: Handler,
    tunnel: seq<Written>,
    ephs: set<nat>,
    installs: seq<Install>)

  datatype Event =
    | Handshake(payload: Payload, from: Addr, passed: bool, eph: nat, id: nat, rotateAt: int, seenAt: int)
    | Lookup(from: Addr, frame: seq<byte>)
    | Open(now: int)
    | Stamp(now: int)
    | Write
    | Ping(from: Addr, now: int)
    | Cleanup(clockAt: Addr -> int)
    | Seal(id: nat, plaintext: seq<byte>)

  predicate Enabled(s: State, e: Event) {
    match e
    case Handshake(p, _, passed, eph, id, _, _) =>
      s.handler.Idle? && passed && Answerable(s.identity, s.allowlist, p) && eph !in s.ephs && id !in s.rows
    case Lookup(from, _) => s.handler.Idle? && from in s.table
    case Open(_) => s.handler.Looked? && s.handler.row in s.rows
    case Stamp(_) => s.handler.Opened? && s.handler.row in s.rows
    case Write => s.handler.Stamped?
    case Ping(from, _) => s.handler.Idle? && from in s.table && s.table[from] in s.rows
    case Cleanup(_) => s.table.Values <= s.rows.Keys
    case Seal(id, _) => id in s.rows
  }

  /** The row a handshake from this address goes to. */
  function RowFor(s: State, from: Addr, id: nat): nat {
    if from in s.table then s.table[from] else id
  }

  function SeatedRow(s: State, row: nat, made: SessionState, rotateAt: int, seenAt: int): Client {
    var held := if row in s.rows then Some(s.rows[row].channel) else None;
    Client(TakenUp(held, made, rotateAt), seenAt)
  }

  function Next(a: Aead, s: State, e: Event): State {
    if !Enabled(s, e) then s
    else
      match e
      case Handshake(p, from, _, eph, id, rotateAt, seenAt) =>
        var made := ResponderSession(p.initiatorEph, eph);
        var row := RowFor(s, from, id);
        s.(rows := s.rows[row := SeatedRow(s, row, made, rotateAt, seenAt)],
           table := s.table[from := row],
           ephs := s.ephs + {eph},
           installs := s.installs + [Install(made.recvKey, p.initiatorStatic)])
      case Lookup(from, f) => s.(handler := Looked(s.table[from], f))
      case Open(now) =>
        var row, f := s.handler.row, s.handler.frame;
        var (c, r) := ChannelDecrypted(a, s.rows[row].channel, f, now);
        s.(rows := s.rows[row := s.rows[row].(channel := c)],
           handler := if r.Ok?
                      then Opened(row, Written(Deliverer(a, s.rows[row].channel, f, now).value, f, r.value))
                      else Idle)
      case Stamp(now) =>
        s.(rows := s.rows[s.handler.row := s.rows[s.handler.row].(lastSeen := now)],
           handler := Stamped(s.handler.written))
      case Write => s.(tunnel := s.tunnel + [s.handler.written], handler := Idle)
      case Ping(from, now) => s.(rows := s.rows[s.table[from] := s.rows[s.table[from]].(lastSeen := now)])
      case Cleanup(clockAt) =>
        s.(table := map k | k in s.table && s.table[k] in s.rows
                          && clockAt(k) - s.rows[s.table[k]].lastSeen <= CLIENT_TIMEOUT :: s.table[k])
      case Seal(id, p) =>
        s.(rows := s.rows[id := s.rows[id].(channel := ChannelEncrypted(a, s.rows[id].channel, p).0)])
  }

  function Run(a: Aead, s: State, events: seq<Event>): State {
    if |events| == 0 then s else Next(a, Run(a, s, events[..|events| - 1]), events[|events| - 1])
  }

  function Start(identity: nat, allowlist: set<nat>): State {
    State(identity, allowlist, map[], map[], Idle, [], {}, [])
  }

  // ---------- every session was asked for by an authorised client ----------

  ghost predicate InstallsAuthorised(s: State) {
    forall i | 0 <= i < |s.installs| :: Authorised(s.allowlist, s.installs[i].client)
  }

  function KeysOf(installs: seq<Install>): set<Key> {
    if installs == [] then {} else KeysOf(installs[..|installs| - 1]) + {installs[|installs| - 1].key}
  }

  ghost predicate RowsInstalled(s: State) {
    forall i | i in s.rows :: RecvKeys(s.rows[i].channel) <= KeysOf(s.installs)
  }

  ghost predicate ReferencesLive(s: State) {
    && (forall k | k in s.table :: s.table[k] in s.rows)
    && (s.handler.Looked? || s.handler.Opened? ==> s.handler.row in s.rows)
  }

  lemma OpenKeepsKeys(a: Aead, c: ChannelState, f: seq<byte>, now: int)
    ensures RecvKeys(ChannelDecrypted(a, c, f, now).0) == RecvKeys(c)
    ensures DistinctKeys(c) ==> DistinctKeys(ChannelDecrypted(a, c, f, now).0)
  {}

  lemma SealKeepsFilters(a: Aead, c: ChannelState, p: seq<byte>)
    ensures var d := ChannelEncrypted(a, c, p).0;
      && RecvKeys(d) == RecvKeys(c) && (DistinctKeys(c) ==> DistinctKeys(d))
      && forall k :: AcceptedUnder(d, k) == AcceptedUnder(c, k)
  {}

  lemma KeysOfNext(installs: seq<Install>, i: Install)
    ensures KeysOf(installs + [i]) == KeysOf(installs) + {i.key}
  {
    assert (installs + [i])[..|installs|] == installs;
  }

  lemma AuthorisedStep(a: Aead, s: State, e: Event)
    requires InstallsAuthorised(s) && RowsInstalled(s) && ReferencesLive(s)
    ensures InstallsAuthorised(Next(a, s, e)) && RowsInstalled(Next(a, s, e)) && ReferencesLive(Next(a, s, e))
  {
    hide ChannelDecrypted, ChannelEncrypted, KeysOf;
    if Enabled(s, e) {
      match e
      case Handshake(p, from, _, eph, id, _, _) =>
        KeysOfNext(s.installs, Install(ResponderSession(p.initiatorEph, eph).recvKey, p.initiatorStatic));
      case Open(now) => OpenKeepsKeys(a, s.rows[s.handler.row].channel, s.handler.frame, now);
      case Seal(id, p) => SealKeepsFilters(a, s.rows[id].channel, p);
      case _ =>
    }
  }

  // ---------- no frame is written twice ----------

  /** Everything handed up so far, whether already written or still with the handler. */
  function Handed(s: State): seq<Written> {
    s.tunnel + (if s.handler.Opened? || s.handler.Stamped? then [s.handler.written] else [])
  }

  /** Every key in use has a responder ephemeral of its own, and all are recorded. */
  ghost predicate KeysUsed(s: State) {
    && (forall k | k in KeysOf(s.installs) :: k.toResponder && k.responderEph in s.ephs)
    && (forall k, l | k in KeysOf(s.installs) && l in KeysOf(s.installs) && k != l :: k.responderEph != l.responderEph)
  }

  /** No two sessions of the server receive with the same key. */
  ghost predicate RowsApart(s: State) {
    && (forall i | i in s.rows :: DistinctKeys(s.rows[i].channel))
    && (forall i, j | i in s.rows && j in s.rows && i != j ::
          RecvKeys(s.rows[i].channel) !! RecvKeys(s.rows[j].channel))
  }

  ghost predicate Genuine(a: Aead, installs: seq<Install>, w: Written) {
    w.key in KeysOf(installs) && SealedAs(a, w.key, w.frame, w.plaintext)
  }

  /** The session that delivered a frame, if this row still has it, has the
      frame's counter on record. */
  ghost predicate Recorded(c: ChannelState, w: Written) {
    w.key in RecvKeys(c) ==> Counter(w.frame) in AcceptedUnder(c, w.key)
  }

  ghost predicate HandedOnce(a: Aead, s: State) {
    && (forall w | w in Handed(s) :: Genuine(a, s.installs, w))
    && (forall w, i | w in Handed(s) && i in s.rows :: Recorded(s.rows[i].channel, w))
    && (forall i, j | 0 <= i < j < |Handed(s)| :: !SameCounter(Handed(s)[i], Handed(s)[j]))
  }

  predicate SameCounter(v: Written, w: Written) {
    v.key == w.key && Counter(v.frame) == Counter(w.frame)
  }

  /** What the rows and keys satisfy, whatever was handed up. */
  ghost predicate Sound(s: State) {
    InstallsAuthorised(s) && RowsInstalled(s) && ReferencesLive(s) && KeysUsed(s) && RowsApart(s)
  }

  ghost predicate Inv(a: Aead, s: State) {
    Sound(s) && HandedOnce(a, s)
  }

  lemma UsedStep(a: Aead, s: State, e: Event)
    requires KeysUsed(s)
    ensures KeysUsed(Next(a, s, e))
  {
    hide ChannelDecrypted, ChannelEncrypted, KeysOf, SeatedRow, Deliverer;
    if Enabled(s, e) && e.Handshake? {
      var made := ResponderSession(e.payload.initiatorEph, e.eph);
      KeysOfNext(s.installs, Install(made.recvKey, e.payload.initiatorStatic));
    }
  }

  /** Only the row a step works on changes, and it holds the keys it held, or
      one more that no session had. */
  lemma ApartStep(a: Aead, s: State, e: Event)
    requires KeysUsed(s) && RowsApart(s) && RowsInstalled(s)
    ensures RowsApart(Next(a, s, e))
  {
    hide ChannelDecrypted, ChannelEncrypted, KeysOf, SeatedRow, RecvKeys, DistinctKeys;
    if Enabled(s, e) {
      match e
      case Handshake(p, from, _, eph, id, rotateAt, seenAt) =>
        var made := ResponderSession(p.initiatorEph, eph);
        assert made.recvKey !in KeysOf(s.installs);
        SeatedRowKeys(s, RowFor(s, from, id), made, rotateAt, seenAt);
      case Open(now) => OpenKeepsKeys(a, s.rows[s.handler.row].channel, s.handler.frame, now);
      case Seal(id, p) => SealKeepsFilters(a, s.rows[id].channel, p);
      case _ =>
    }
  }

  lemma SeatedRowKeys(s: State, row: nat, made: SessionState, rotateAt: int, seenAt: int)
    requires row in s.rows ==> made.recvKey !in RecvKeys(s.rows[row].channel)
    ensures var c := SeatedRow(s, row, made, rotateAt, seenAt).channel;
      && DistinctKeys(c)
      && RecvKeys(c) <= {made.recvKey} + (if row in s.rows then RecvKeys(s.rows[row].channel) else {})
  {}

  lemma SoundStep(a: Aead, s: State, e: Event)
    requires Sound(s)
    ensures Sound(Next(a, s, e))
  {
    AuthorisedStep(a, s, e);
    UsedStep(a, s, e);
    ApartStep(a, s, e);
  }

  /** Seating a new session keeps every record: what was handed up came under
      older keys. */
  lemma SeatingKeepsRecord(s: State, row: nat, made: SessionState, rotateAt: int, seenAt: int, w: Written)
    requires row in s.rows ==> Recorded(s.rows[row].channel, w)
    requires w.key != made.recvKey
    ensures Recorded(SeatedRow(s, row, made, rotateAt, seenAt).channel, w)
  {}

  lemma OpeningKeepsRecord(a: Aead, c: ChannelState, f: seq<byte>, now: int, w: Written)
    requires DistinctKeys(c) && Recorded(c, w)
    ensures Recorded(ChannelDecrypted(a, c, f, now).0, w)
  {
    hide ChannelDecrypted, Deliverer, Counter, AcceptedUnder, RecvKeys;
    OpenKeepsKeys(a, c, f, now);
    if w.key in RecvKeys(c) {
      ChannelDecryptedRecords(a, c, f, now, w.key);
    }
  }

  /** A frame a row delivers was not handed up before by the session that now
      delivers it, and is on record afterwards. */
  lemma NewlyHanded(a: Aead, s: State, now: int)
    requires Authentic(a) && Inv(a, s) && Enabled(s, Open(now))
    requires ChannelDecrypted(a, s.rows[s.handler.row].channel, s.handler.frame, now).1.Ok?
    ensures var c, f := s.rows[s.handler.row].channel, s.handler.frame;
      var (d, r) := ChannelDecrypted(a, c, f, now);
      var w := Written(Deliverer(a, c, f, now).value, f, r.value);
      && Genuine(a, s.installs, w) && Recorded(d, w)
      && (forall v | v in Handed(s) :: !SameCounter(v, w))
      && (forall i | i in s.rows && i != s.handler.row :: Recorded(s.rows[i].channel, w))
  {
    hide ChannelDecrypted, Deliverer, SealedAs, Counter, KeysOf, RecvKeys, AcceptedUnder, DistinctKeys;
    hide InstallsAuthorised, KeysUsed;
    DeliveryIsNew(a, s.rows[s.handler.row].channel, s.handler.frame, now);
    forall v | v in Handed(s) ensures Recorded(s.rows[s.handler.row].channel, v) {}
  }

  lemma OpenStep(a: Aead, s: State, now: int)
    requires Authentic(a) && Inv(a, s) && Enabled(s, Open(now))
    ensures HandedOnce(a, Next(a, s, Open(now)))
  {
    hide ChannelDecrypted, Deliverer, KeysOf, SealedAs, Counter, Recorded, Genuine, SameCounter;
    var row, f := s.handler.row, s.handler.frame;
    var c := s.rows[row].channel;
    var end := Next(a, s, Open(now));
    forall w | w in Handed(s) ensures Recorded(end.rows[row].channel, w) {
      OpeningKeepsRecord(a, c, f, now, w);
    }
    var r := ChannelDecrypted(a, c, f, now).1;
    if r.Ok? {
      NewlyHanded(a, s, now);
      assert Handed(end) == Handed(s) + [Written(Deliverer(a, c, f, now).value, f, r.value)];
      forall i | 0 <= i < |Handed(s)| ensures Handed(s)[i] in Handed(s) {}
    } else {
      assert Handed(end) == Handed(s);
    }
  }

  lemma HandshakeStep(a: Aead, s: State, e: Event)
    requires Inv(a, s) && Enabled(s, e) && e.Handshake?
    ensures HandedOnce(a, Next(a, s, e))
  {
    hide KeysOf, SealedAs, Counter, Recorded, InstallsAuthorised, KeysUsed, RowsApart, RowsInstalled, SeatedRow;
    var made := ResponderSession(e.payload.initiatorEph, e.eph);
    var i := Install(made.recvKey, e.payload.initiatorStatic);
    KeysOfNext(s.installs, i);
    NewKeyIsUnused(s, e.payload.initiatorEph, e.eph);
    var end := Next(a, s, e);
    assert end.installs == s.installs + [i];
    assert Handed(end) == Handed(s);
    hide ResponderSession;
    var row := RowFor(s, e.from, e.id);
    forall w | w in Handed(s) ensures Recorded(end.rows[row].channel, w) {
      assert Genuine(a, s.installs, w);
      SeatingKeepsRecord(s, row, made, e.rotateAt, e.seenAt, w);
    }
  }

  lemma NewKeyIsUnused(s: State, i: nat, r: nat)
    requires KeysUsed(s) && r !in s.ephs
    ensures ResponderSession(i, r).recvKey !in KeysOf(s.installs)
  {
    hide KeysOf;
  }

  lemma OtherStep(a: Aead, s: State, e: Event)
    requires Inv(a, s) && Enabled(s, e) && !e.Handshake? && !e.Open?
    ensures HandedOnce(a, Next(a, s, e))
  {
    hide ChannelEncrypted, KeysOf, SealedAs, Counter, Genuine, SameCounter;
    hide InstallsAuthorised, KeysUsed, RowsApart, RowsInstalled;
    var end := Next(a, s, e);
    assert Handed(end) == Handed(s) && end.installs == s.installs;
    forall w, i | w in Handed(s) && i in end.rows ensures Recorded(end.rows[i].channel, w) {
      assert i in s.rows && Recorded(s.rows[i].channel, w);
      if e.Seal? {
        SealKeepsFilters(a, s.rows[e.id].channel, e.plaintext);
      }
    }
  }

  lemma EventKeepsInv(a: Aead, s: State, e: Event)
    requires Authentic(a) && Inv(a, s)
    ensures Inv(a, Next(a, s, e))
  {
    SoundStep(a, s, e);
    if Enabled(s, e) {
      if e.Handshake? {
        HandshakeStep(a, s, e);
      } else if e.Open? {
        OpenStep(a, s, e.now);
      } else {
        OtherStep(a, s, e);
      }
    }
  }

  lemma {:induction false} RunKeepsInv(a: Aead, s: State, events: seq<Event>)
    requires Authentic(a) && Inv(a, s)
    ensures Inv(a, Run(a, s, events))
  {
    if |events| > 0 {
      hide Inv, Next;
      RunKeepsInv(a, s, events[..|events| - 1]);
      EventKeepsInv(a, Run(a, s, events[..|events| - 1]), events[|events| - 1]);
    }
  }

  lemma StartInv(a: Aead, identity: nat, allowlist: set<nat>)
    ensures Inv(a, Start(identity, allowlist))
  {}

  /** Two different keys of sessions the server could make sealed the frame. */
  ghost predicate SealedTwice(a: Aead, frame: seq<byte>) {
    exists k, l ::
      && SealedFor(a, k, frame) && SealedFor(a, l, frame)
      && k.toResponder && l.toResponder && k.responderEph != l.responderEph
  }

  /** Whatever registrations, rotations, removals and re-registrations happen,
      what is written to the tunnel is what was sealed for a session the server
      made, and no session's counter is written twice; so a frame that is
      written twice was sealed for two of its sessions. */
  lemma WrittenAtMostOnce(a: Aead, identity: nat, allowlist: set<nat>, events: seq<Event>)
    requires Authentic(a)
    ensures var s := Run(a, Start(identity, allowlist), events);
      && (forall i | 0 <= i < |s.tunnel| :: Genuine(a, s.installs, s.tunnel[i]))
      && (forall i, j | 0 <= i < j < |s.tunnel| ::
            s.tunnel[i].key != s.tunnel[j].key || Counter(s.tunnel[i].frame) != Counter(s.tunnel[j].frame))
      && (forall i, j | 0 <= i < j < |s.tunnel| && s.tunnel[i].frame == s.tunnel[j].frame ::
            s.tunnel[i].key != s.tunnel[j].key && SealedTwice(a, s.tunnel[i].frame))
  {
    hide KeysOf, Recorded, SealedTwice, SealedAs;
    var s := Run(a, Start(identity, allowlist), events);
    StartInv(a, identity, allowlist);
    RunKeepsInv(a, Start(identity, allowlist), events);
    assert forall i | 0 <= i < |s.tunnel| :: Handed(s)[i] == s.tunnel[i];
    assert forall i | 0 <= i < |s.tunnel| :: Handed(s)[i] in Handed(s);
    forall i, j | 0 <= i < j < |s.tunnel| && s.tunnel[i].frame == s.tunnel[j].frame
      ensures s.tunnel[i].key != s.tunnel[j].key && SealedTwice(a, s.tunnel[i].frame)
    {
      assert !SameCounter(Handed(s)[i], Handed(s)[j]);
      TwoKeysTwice(a, s, s.tunnel[i], s.tunnel[j]);
    }
  }

  lemma TwoKeysTwice(a: Aead, s: State, v: Written, w: Written)
    requires KeysUsed(s) && Genuine(a, s.installs, v) && Genuine(a, s.installs, w)
    requires v.key != w.key && v.frame == w.frame
    ensures SealedTwice(a, v.frame)
  {
    hide KeysOf, SealedAs;
    assert SealedFor(a, v.key, v.frame) && SealedFor(a, w.key, v.frame);
  }

  /** Every session in the table, at any time, was made for a client whose static
      key is on the allowlist, or the allowlist is empty. */
  lemma OnlyAuthorisedSessions(a: Aead, identity: nat, allowlist: set<nat>, events: seq<Event>)
    ensures var s := Run(a, Start(identity, allowlist), events);
      && s.allowlist == allowlist && s.identity == identity
      && (forall n | 0 <= n < |s.installs| :: allowlist == {} || s.installs[n].client in allowlist)
      && (forall k | k in s.table :: s.table[k] in s.rows)
      && (forall i, k | i in s.rows && k in RecvKeys(s.rows[i].channel) ::
            exists n ::
              && 0 <= n < |s.installs| && s.installs[n].key == k
              && (allowlist == {} || s.installs[n].client in allowlist))
  {
    var s := Run(a, Start(identity, allowlist), events);
    RunStaysSound(a, Start(identity, allowlist), events);
    forall i, k | i in s.rows && k in RecvKeys(s.rows[i].channel)
      ensures exists n ::
        && 0 <= n < |s.installs| && s.installs[n].key == k
        && (allowlist == {} || s.installs[n].client in allowlist)
    {
      KeyHasInstall(s.installs, k);
    }
  }

  lemma {:induction false} RunStaysSound(a: Aead, s: State, events: seq<Event>)
    requires Sound(s)
    ensures var t := Run(a, s, events); Sound(t) && t.allowlist == s.allowlist && t.identity == s.identity
  {
    if |events| > 0 {
      var n := |events| - 1;
      RunStaysSound(a, s, events[..n]);
      SameServer(a, Run(a, s, events[..n]), events[n]);
      hide Next, Sound;
      SoundStep(a, Run(a, s, events[..n]), events[n]);
    }
  }

  lemma {:induction false} RunSplits(a: Aead, s: State, u: seq<Event>, v: seq<Event>)
    ensures Run(a, s, u + v) == Run(a, Run(a, s, u), v)
  {
    if v == [] {
      assert u + v == u;
    } else {
      var n := |v| - 1;
      assert (u + v)[..|u + v| - 1] == u + v[..n];
      RunSplits(a, s, u, v[..n]);
    }
  }

  lemma SameServer(a: Aead, s: State, e: Event)
    ensures Next(a, s, e).identity == s.identity && Next(a, s, e).allowlist == s.allowlist
  {
    hide ChannelDecrypted, ChannelEncrypted;
  }

  lemma {:induction false} KeyHasInstall(installs: seq<Install>, k: Key)
    requires k in KeysOf(installs)
    ensures exists n :: 0 <= n < |installs| && installs[n].key == k
  {
    var last := |installs| - 1;
    if installs[last].key != k {
      KeyHasInstall(installs[..last], k);
      var n :| 0 <= n < last && installs[..last][n].key == k;
      assert installs[n].key == k;
    }
  }
}
