/** What a server's run looks like from outside: its steps carry out the table
    operations, and a client stays in the table exactly as long as it is heard. */
module ServerExpiry {
  import opened Encoding
  import opened Wrappers
  import opened Cipher
  import opened Sessions
  import opened Channels
  import opened Handshake
  import opened ServerSide
  import opened ServerRuns

  // ---------- a client is removed exactly when it has been silent ----------

  /** The step notes that the client held in this row was heard. */
  predicate Hears(s: State, e: Event, row: nat) {
    Enabled(s, e) &&
    match e
    case Handshake(_, from, _, _, _, _, _) => from in s.table && s.table[from] == row
    case Stamp(_) => s.handler.row == row
    case Ping(from, _) => s.table[from] == row
    case _ => false
  }

  function HeardAt(e: Event): int
    requires e.Handshake? || e.Stamp? || e.Ping?
  {
    match e
    case Handshake(_, _, _, _, _, _, seenAt) => seenAt
    case Stamp(now) => now
    case Ping(_, now) => now
  }

  /** The reading at which the client of this row was last heard in the run. */
  function LastHeard(a: Aead, s: State, events: seq<Event>, row: nat): int
    requires row in s.rows
  {
    if events == [] then s.rows[row].lastSeen
    else
      var n := |events| - 1;
      if Hears(Run(a, s, events[..n]), events[n], row) then HeardAt(events[n])
      else LastHeard(a, s, events[..n], row)
  }

  /** No cleanup pass of the run came more than the timeout after the client of
      this row was last heard. */
  predicate KeepsInTouch(a: Aead, s: State, events: seq<Event>, me: Addr, row: nat)
    requires row in s.rows
  {
    events != [] ==>
      var n := |events| - 1;
      && KeepsInTouch(a, s, events[..n], me, row)
      && (events[n].Cleanup? ==>
            events[n].clockAt(me) - LastHeard(a, s, events[..n], row) <= 120_000_000_000)
  }

  predicate Holds(s: State, me: Addr, row: nat) {
    me in s.table && s.table[me] == row
  }

  lemma RowStep(a: Aead, s: State, e: Event, row: nat)
    requires ReferencesLive(s) && row in s.rows
    ensures var t := Next(a, s, e);
      && ReferencesLive(t) && row in t.rows
      && t.rows[row].lastSeen == (if Hears(s, e, row) then HeardAt(e) else s.rows[row].lastSeen)
  {
    hide ChannelDecrypted, ChannelEncrypted, Rotated, Established;
  }

  lemma PlaceStep(a: Aead, s: State, e: Event, me: Addr, row: nat)
    requires ReferencesLive(s) && row in s.rows
    ensures Holds(Next(a, s, e), me, row) <==>
      && Holds(s, me, row)
      && (e.Cleanup? ==> e.clockAt(me) - s.rows[row].lastSeen <= 120_000_000_000)
  {
    hide ChannelDecrypted, ChannelEncrypted, Rotated, Established;
  }

  lemma {:induction false} RowLives(a: Aead, s: State, events: seq<Event>, row: nat)
    requires ReferencesLive(s) && row in s.rows
    ensures var t := Run(a, s, events);
      ReferencesLive(t) && row in t.rows && t.rows[row].lastSeen == LastHeard(a, s, events, row)
  {
    if events != [] {
      var n := |events| - 1;
      RowLives(a, s, events[..n], row);
      hide Next, ReferencesLive, Hears, HeardAt;
      RowStep(a, Run(a, s, events[..n]), events[n], row);
    }
  }

  /** A client keeps its place in the table, with the channel and the replay
      state it has there, if and only if no cleanup pass finds that it was last
      heard more than two minutes before. */
  lemma {:induction false} KeptIffInTouch(a: Aead, s: State, events: seq<Event>, me: Addr)
    requires ReferencesLive(s) && me in s.table
    ensures Holds(Run(a, s, events), me, s.table[me]) <==> KeepsInTouch(a, s, events, me, s.table[me])
  {
    if events != [] {
      var n := |events| - 1;
      var row := s.table[me];
      KeptIffInTouch(a, s, events[..n], me);
      RowLives(a, s, events[..n], row);
      hide Next, ReferencesLive, Holds, LastHeard;
      PlaceStep(a, Run(a, s, events[..n]), events[n], me, row);
    }
  }

  // ---------- what it keeps there ----------

  lemma KeysOnlyGrow(a: Aead, s: State, e: Event)
    ensures KeysOf(s.installs) <= KeysOf(Next(a, s, e).installs)
  {
    hide ChannelDecrypted, ChannelEncrypted, KeysOf, SeatedRow, Deliverer;
    if Enabled(s, e) && e.Handshake? {
      var made := ResponderSession(e.payload.initiatorEph, e.eph);
      KeysOfNext(s.installs, Install(made.recvKey, e.payload.initiatorStatic));
    }
  }

  /** A step gives a row no old key back, and forgets no counter of one it keeps. */
  lemma RowForgetsNothing(a: Aead, s: State, e: Event, row: nat, k: Key)
    requires Sound(s) && row in s.rows && k in KeysOf(s.installs)
    ensures var t := Next(a, s, e);
      row in t.rows &&
      (k in RecvKeys(t.rows[row].channel) ==>
        k in RecvKeys(s.rows[row].channel)
        && AcceptedUnder(s.rows[row].channel, k) <= AcceptedUnder(t.rows[row].channel, k))
  {
    hide ChannelDecrypted, ChannelEncrypted, KeysOf, SeatedRow, Deliverer, RecvKeys, DistinctKeys;
    hide AcceptedUnder, Counter, InstallsAuthorised;
    var c := s.rows[row].channel;
    if Enabled(s, e) {
      match e
      case Handshake(p, from, _, eph, id, rotateAt, seenAt) =>
        SeatingForgetsNothing(s, row, ResponderSession(p.initiatorEph, eph), rotateAt, seenAt, k);
      case Open(now) =>
        OpenKeepsKeys(a, c, s.handler.frame, now);
        if k in RecvKeys(c) {
          ChannelDecryptedRecords(a, c, s.handler.frame, now, k);
        }
      case Seal(_, p) => SealKeepsFilters(a, c, p);
      case _ =>
    }
  }

  lemma SeatingForgetsNothing(s: State, row: nat, made: SessionState, rotateAt: int, seenAt: int, k: Key)
    requires row in s.rows && made.recvKey != k
    ensures var c, d := s.rows[row].channel, SeatedRow(s, row, made, rotateAt, seenAt).channel;
      k in RecvKeys(d) ==> k in RecvKeys(c) && AcceptedUnder(c, k) <= AcceptedUnder(d, k)
  {}

  lemma {:induction false} RunForgetsNothing(a: Aead, s: State, events: seq<Event>, row: nat, k: Key)
    requires Sound(s) && row in s.rows && k in RecvKeys(s.rows[row].channel)
    ensures var t := Run(a, s, events);
      row in t.rows && k in KeysOf(t.installs) &&
      (k in RecvKeys(t.rows[row].channel) ==>
        AcceptedUnder(s.rows[row].channel, k) <= AcceptedUnder(t.rows[row].channel, k))
  {
    if events != [] {
      var n := |events| - 1;
      RunForgetsNothing(a, s, events[..n], row, k);
      RunStaysSound(a, s, events[..n]);
      hide Next, Sound, RecvKeys, AcceptedUnder, KeysOf;
      KeysOnlyGrow(a, Run(a, s, events[..n]), events[n]);
      RowForgetsNothing(a, Run(a, s, events[..n]), events[n], row, k);
    }
  }

  /** A client that keeps in touch keeps its row, and with it every counter that
      was accepted under a key the row still has. */
  lemma KeptWithReplayState(a: Aead, identity: nat, allowlist: set<nat>, history: seq<Event>,
                            events: seq<Event>, me: Addr)
    requires var s := Run(a, Start(identity, allowlist), history);
      && me in s.table && s.table[me] in s.rows && KeepsInTouch(a, s, events, me, s.table[me])
    ensures var s := Run(a, Start(identity, allowlist), history);
      var t := Run(a, s, events);
      var row := s.table[me];
      && Holds(t, me, row) && row in t.rows
      && forall k | k in RecvKeys(s.rows[row].channel) && k in RecvKeys(t.rows[row].channel) ::
           AcceptedUnder(s.rows[row].channel, k) <= AcceptedUnder(t.rows[row].channel, k)
  {
    hide KeepsInTouch, Next, RecvKeys, AcceptedUnder;
    var s := Run(a, Start(identity, allowlist), history);
    var row := s.table[me];
    StartIsSound(identity, allowlist);
    RunStaysSound(a, Start(identity, allowlist), history);
    KeptIffInTouch(a, s, events, me);
    RowLives(a, s, events, row);
    var t := Run(a, s, events);
    forall k | k in RecvKeys(s.rows[row].channel) && k in RecvKeys(t.rows[row].channel)
      ensures AcceptedUnder(s.rows[row].channel, k) <= AcceptedUnder(t.rows[row].channel, k)
    {
      RunForgetsNothing(a, s, events, row, k);
    }
  }

  lemma StartIsSound(identity: nat, allowlist: set<nat>)
    ensures Sound(Start(identity, allowlist))
  {}

  // ---------- what a client has to do for it ----------

  /** The clock reading an event brings, as far as this client is concerned. */
  function ReadingOf(e: Event, me: Addr): Option<int> {
    match e
    case Handshake(_, _, _, _, _, _, seenAt) => Some(seenAt)
    case Stamp(now) => Some(now)
    case Ping(_, now) => Some(now)
    case Cleanup(clockAt) => Some(clockAt(me))
    case _ => None
  }

  /** The readings never go back, and none is after `end`. */
  predicate NeverBack(events: seq<Event>, me: Addr, end: int) {
    events != [] ==>
      var n := |events| - 1;
      match ReadingOf(events[n], me)
      case None => NeverBack(events[..n], me, end)
      case Some(at) => at <= end && NeverBack(events[..n], me, at)
  }

  /** The client is heard again, or `end` comes, at most the timeout after it was
      last heard. */
  predicate HeardRegularly(a: Aead, s: State, events: seq<Event>, row: nat, end: int)
    requires row in s.rows
  {
    if events == [] then end - s.rows[row].lastSeen <= 120_000_000_000
    else
      var n := |events| - 1;
      if Hears(Run(a, s, events[..n]), events[n], row) then
        end - HeardAt(events[n]) <= 120_000_000_000 && HeardRegularly(a, s, events[..n], row, HeardAt(events[n]))
      else HeardRegularly(a, s, events[..n], row, end)
  }

  lemma {:induction false} RegularEarlier(a: Aead, s: State, events: seq<Event>, row: nat, end: int, earlier: int)
    requires row in s.rows && earlier <= end && HeardRegularly(a, s, events, row, end)
    ensures HeardRegularly(a, s, events, row, earlier)
    ensures end - LastHeard(a, s, events, row) <= 120_000_000_000
  {
    if events != [] {
      var n := |events| - 1;
      if !Hears(Run(a, s, events[..n]), events[n], row) {
        RegularEarlier(a, s, events[..n], row, end, earlier);
      }
    }
  }

  lemma {:induction false} RegularKeepsInTouch(a: Aead, s: State, events: seq<Event>, me: Addr, row: nat, end: int)
    requires row in s.rows && NeverBack(events, me, end) && HeardRegularly(a, s, events, row, end)
    ensures KeepsInTouch(a, s, events, me, row)
  {
    if events != [] {
      var n := |events| - 1;
      var earlier := if ReadingOf(events[n], me).Some? then ReadingOf(events[n], me).value else end;
      if !Hears(Run(a, s, events[..n]), events[n], row) {
        RegularEarlier(a, s, events[..n], row, end, earlier);
      }
      RegularKeepsInTouch(a, s, events[..n], me, row, earlier);
      if events[n].Cleanup? {
        RegularEarlier(a, s, events[..n], row, earlier, earlier);
      }
    }
  }

  /** While the clock does not go back, a client whose handshakes, authenticated
      frames or pings arrive at gaps of at most two minutes is never removed. */
  lemma RegularClientIsNeverRemoved(a: Aead, s: State, events: seq<Event>, me: Addr, end: int)
    requires ReferencesLive(s) && me in s.table
    requires NeverBack(events, me, end) && HeardRegularly(a, s, events, s.table[me], end)
    ensures Holds(Run(a, s, events), me, s.table[me])
  {
    RegularKeepsInTouch(a, s, events, me, s.table[me], end);
    KeptIffInTouch(a, s, events, me);
  }

  // ---------- the steps carry out the table operations ----------

  function Joined(table: map<Addr, nat>, rows: map<nat, Client>): Table {
    map k | k in table && table[k] in rows :: rows[table[k]]
  }

  function Contents(s: State): Table {
    Joined(s.table, s.rows)
  }

  /** No two addresses share a row. */
  ghost predicate Unshared(s: State) {
    forall j, k | j in s.table && k in s.table && j != k :: s.table[j] != s.table[k]
  }

  lemma UnsharedStep(a: Aead, s: State, e: Event)
    requires ReferencesLive(s) && Unshared(s)
    ensures ReferencesLive(Next(a, s, e)) && Unshared(Next(a, s, e))
  {
    hide ChannelDecrypted, ChannelEncrypted, Rotated, Established;
  }

  lemma {:induction false} AlwaysUnshared(a: Aead, identity: nat, allowlist: set<nat>, events: seq<Event>)
    ensures var s := Run(a, Start(identity, allowlist), events); ReferencesLive(s) && Unshared(s)
  {
    if events != [] {
      AlwaysUnshared(a, identity, allowlist, events[..|events| - 1]);
      hide Next, ReferencesLive, Unshared;
      UnsharedStep(a, Run(a, Start(identity, allowlist), events[..|events| - 1]), events[|events| - 1]);
    }
  }

  /** A handshake, a ping and a cleanup pass do to the table what the server's
      methods are proved to do. */
  lemma HandshakeIsSeated(a: Aead, s: State, e: Event)
    requires ReferencesLive(s) && Unshared(s) && Enabled(s, e) && e.Handshake?
    ensures var made := ResponderSession(e.payload.initiatorEph, e.eph);
      Contents(Next(a, s, e)) == Seated(Contents(s), e.from, made, e.rotateAt, e.seenAt)
  {
    var made := ResponderSession(e.payload.initiatorEph, e.eph);
    RowIsSeated(s, e.from, e.id, made, e.rotateAt, e.seenAt);
    var seated := Seated(Contents(s), e.from, made, e.rotateAt, e.seenAt);
    RowSet(s.table, s.rows, e.from, RowFor(s, e.from, e.id), seated[e.from]);
    hide ChannelDecrypted, ChannelEncrypted, SeatedRow, ResponderSession, Joined, TakenUp, Answerable;
  }

  /** Setting the row of one address sets what the table holds for it, and for no
      other. */
  lemma RowSet(table: map<Addr, nat>, rows: map<nat, Client>, from: Addr, row: nat, c: Client)
    requires forall k | k in table :: table[k] in rows
    requires forall j, k | j in table && k in table && j != k :: table[j] != table[k]
    requires if from in table then table[from] == row else row !in rows
    ensures Joined(table[from := row], rows[row := c]) == Joined(table, rows)[from := c]
  {}

  lemma RowIsSeated(s: State, from: Addr, id: nat, made: SessionState, rotateAt: int, seenAt: int)
    requires ReferencesLive(s) && id !in s.rows
    ensures SeatedRow(s, RowFor(s, from, id), made, rotateAt, seenAt)
      == Seated(Contents(s), from, made, rotateAt, seenAt)[from]
  {
    hide Rotated, Established;
  }

  lemma PingIsTouched(a: Aead, s: State, from: Addr, now: int)
    requires ReferencesLive(s) && Unshared(s) && s.handler.Idle?
    ensures Contents(Next(a, s, Ping(from, now))) == Touched(Contents(s), from, now)
  {
    hide ChannelDecrypted, ChannelEncrypted;
  }

  lemma CleanupIsCleaned(a: Aead, s: State, clockAt: Addr -> int)
    requires ReferencesLive(s)
    ensures Contents(Next(a, s, Cleanup(clockAt))) == Cleaned(Contents(s), clockAt)
  {
    hide ChannelDecrypted, ChannelEncrypted;
  }

  /** The handler's steps for one data frame. */
  function Handling(from: Addr, frame: seq<byte>, now: int, seenAt: int): seq<Event> {
    [Lookup(from, frame), Open(now), Stamp(seenAt), Write]
  }

  /** What the tunnel got: nothing, or the frame's plaintext. */
  predicate Appended(was: seq<Written>, now: seq<Written>, frame: seq<byte>, out: Option<seq<byte>>) {
    if out.None? then now == was
    else
      && |now| == |was| + 1 && now[..|was|] == was
      && now[|was|].frame == frame && now[|was|].plaintext == out.value
  }

  function ThreeSteps(a: Aead, s: State, now: int, seenAt: int): State {
    Next(a, Next(a, Next(a, s, Open(now)), Stamp(seenAt)), Write)
  }

  lemma HandlingUnrolls(a: Aead, s: State, from: Addr, frame: seq<byte>, now: int, seenAt: int)
    ensures Run(a, s, Handling(from, frame, now, seenAt)) == ThreeSteps(a, Next(a, s, Lookup(from, frame)), now, seenAt)
  {
    hide Next;
    var es := Handling(from, frame, now, seenAt);
    assert es[..4] == es && es[..3][..2] == es[..2] && es[..2][..1] == es[..1] && es[..1][..0] == [];
    assert Run(a, s, es[..1]) == Next(a, s, es[0]);
    assert Run(a, s, es[..2]) == Next(a, Run(a, s, es[..1]), es[1]);
    assert Run(a, s, es[..3]) == Next(a, Run(a, s, es[..2]), es[2]);
  }

  lemma OpenedFrame(a: Aead, s: State, from: Addr, frame: seq<byte>, now: int, seenAt: int)
    requires ReferencesLive(s) && Unshared(s) && from in s.table && s.handler == Looked(s.table[from], frame)
    ensures var t := ThreeSteps(a, s, now, seenAt);
      var (table, out) := Received(a, Contents(s), from, frame, now, seenAt);
      && t.handler.Idle?
      && Contents(t) == table
      && Appended(s.tunnel, t.tunnel, frame, out)
  {
    hide ChannelDecrypted, Deliverer;
  }

  /** A data frame handled without interruption has exactly the effect the
      server's method for it is proved to have, on the table and on the tunnel. */
  lemma UninterruptedIsReceived(a: Aead, s: State, from: Addr, frame: seq<byte>, now: int, seenAt: int)
    requires ReferencesLive(s) && Unshared(s) && s.handler.Idle?
    ensures var t := Run(a, s, Handling(from, frame, now, seenAt));
      var (table, out) := Received(a, Contents(s), from, frame, now, seenAt);
      && t.handler.Idle?
      && Contents(t) == table
      && Appended(s.tunnel, t.tunnel, frame, out)
  {
    HandlingUnrolls(a, s, from, frame, now, seenAt);
    if from in s.table {
      hide ChannelDecrypted, ThreeSteps, Received;
      OpenedFrame(a, Next(a, s, Lookup(from, frame)), from, frame, now, seenAt);
    }
  }
}
