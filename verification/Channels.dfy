/** The channel around a session: the current session, and for a grace period
    after a rotation the previous one, which can only decrypt. */
module Channels {
  import opened Encoding
  import opened Wrappers
  import opened Cipher
  import opened ReplayWindow
  import opened Sessions

  /** Thirty seconds, in nanoseconds. */
  const DEFAULT_REKEY_GRACE: int := 30_000_000_000

  datatype ChannelState = ChannelState(
    current: SessionState,
    previous: Option<SessionState>,
    prevUntil: int,
    grace: int)

  /** Channel.Encrypt, one step. */
  function ChannelEncrypted(a: Aead, c: ChannelState, plaintext: seq<byte>)
    : (ChannelState, Result<seq<byte>, Error>)
  {
    var (s, r) := Encrypted(a, c.current, plaintext);
    (c.(current := s), r)
  }

  predicate PreviousUsable(c: ChannelState, now: int) {
    c.previous.Some? && now < c.prevUntil
  }

  /** Channel.Decrypt, one step. */
  function ChannelDecrypted(a: Aead, c: ChannelState, frame: seq<byte>, now: int)
    : (ChannelState, Result<seq<byte>, Error>)
  {
    var (cur, r) := Decrypted(a, c.current, frame);
    var tried := c.(current := cur);
    if r.Ok? || r.error == Replay || !PreviousUsable(c, now) then (tried, r)
    else
      var (prev, r2) := Decrypted(a, c.previous.value, frame);
      (tried.(previous := Some(prev)), if r2.Ok? then r2 else r)
  }

  /** Channel.Rotate, one step. */
  function Rotated(c: ChannelState, next: SessionState, now: int): ChannelState {
    ChannelState(next, Some(c.current), now + c.grace, c.grace)
  }

  function Established(s: SessionState, grace: int): ChannelState {
    ChannelState(s, None, 0, if grace <= 0 then DEFAULT_REKEY_GRACE else grace)
  }

  /** What a new session does to an address: rotates the channel that is there,
      or makes the first one. */
  function TakenUp(held: Option<ChannelState>, next: SessionState, now: int): ChannelState {
    if held.Some? then Rotated(held.value, next, now) else Established(next, DEFAULT_REKEY_GRACE)
  }

  /** The same in a table of channels by address. */
  function Install<K(==)>(table: map<K, ChannelState>, addr: K, next: SessionState, now: int): map<K, ChannelState> {
    table[addr := TakenUp(if addr in table then Some(table[addr]) else None, next, now)]
  }

  // ---------- what the steps mean ----------

  /** The receive key of the session that delivers the frame, if one does. */
  function Deliverer(a: Aead, c: ChannelState, frame: seq<byte>, now: int): (k: Option<Key>)
    ensures k.Some? <==> ChannelDecrypted(a, c, frame, now).1.Ok?
  {
    if ChannelDecrypted(a, c, frame, now).1.Err? then None
    else if Decrypted(a, c.current, frame).1.Ok? then Some(c.current.recvKey)
    else Some(c.previous.value.recvKey)
  }

  /** The counters the channel has accepted under a key it still holds. */
  function AcceptedUnder(c: ChannelState, key: Key): set<uint64> {
    if key == c.current.recvKey then c.current.accepted
    else if c.previous.Some? && key == c.previous.value.recvKey then c.previous.value.accepted
    else {}
  }

  function RecvKeys(c: ChannelState): set<Key> {
    {c.current.recvKey} + (if c.previous.Some? then {c.previous.value.recvKey} else {})
  }

  lemma CurrentIsHeld(c: ChannelState)
    ensures c.current.recvKey in RecvKeys(c)
    ensures c.previous.Some? ==> c.previous.value.recvKey in RecvKeys(c)
  {}

  predicate DistinctKeys(c: ChannelState) {
    c.previous.Some? ==> c.current.recvKey != c.previous.value.recvKey
  }

  /** Channel.Decrypt in closed form. A frame sealed for the current session is
      its to judge: it comes out exactly when its counter is fresh there. Any
      other comes out exactly when the previous session is still honoured, the
      frame was sealed for that one, and its counter is fresh there. */
  lemma ChannelDecryptedExactly(a: Aead, c: ChannelState, frame: seq<byte>, now: int, p: seq<byte>)
    requires Authentic(a)
    ensures ChannelDecrypted(a, c, frame, now).1 == Ok(p) <==>
      if SealedFor(a, c.current.recvKey, frame) then
        SealedAs(a, c.current.recvKey, frame, p) && Fresh(c.current.accepted, Counter(frame))
      else
        && PreviousUsable(c, now)
        && SealedAs(a, c.previous.value.recvKey, frame, p) && Fresh(c.previous.value.accepted, Counter(frame))
  {
    hide Decrypted, Fresh, SealedAs;
    DecryptedExactly(a, c.current, frame);
    if PreviousUsable(c, now) {
      DecryptedExactly(a, c.previous.value, frame);
    }
    if SealedAs(a, c.current.recvKey, frame, p) {
      assert SealedFor(a, c.current.recvKey, frame);
    }
  }

  /** The errors in closed form: the first one is kept, whatever the previous
      session says. Too short exactly below 24 bytes; a replay exactly when the
      current session sealed the frame and its counter is not fresh there; and a
      failed authentication for every other frame that does not come out. */
  lemma ChannelRefusedExactly(a: Aead, c: ChannelState, frame: seq<byte>, now: int)
    requires Authentic(a)
    ensures var r := ChannelDecrypted(a, c, frame, now).1;
      && (r == Err(TooShort) <==> |frame| < 24)
      && (r == Err(Replay) <==>
            SealedFor(a, c.current.recvKey, frame) && !Fresh(c.current.accepted, Counter(frame)))
      && (r == Err(CipherFailed) <==>
            && |frame| >= 24 && !SealedFor(a, c.current.recvKey, frame)
            && !(c.previous.Some? && now < c.prevUntil && SealedFor(a, c.previous.value.recvKey, frame)
                 && Fresh(c.previous.value.accepted, Counter(frame))))
  {
    hide Decrypted, Fresh, SealedFor, Counter;
    RefusedExactly(a, c.current, frame);
    if PreviousUsable(c, now) {
      RefusedExactly(a, c.previous.value, frame);
    }
  }

  /** A channel honours the session it rotated away from for its grace, which is
      thirty seconds unless it was made with one of its own. */
  lemma GraceIsHonoured(a: Aead, s: SessionState, grace: int, next: SessionState, at: int,
                        frame: seq<byte>, p: seq<byte>, now: int)
    requires Authentic(a) && SealedAs(a, s.recvKey, frame, p) && !SealedFor(a, next.recvKey, frame)
    requires Fresh(s.accepted, Counter(frame))
    ensures ChannelDecrypted(a, Rotated(Established(s, grace), next, at), frame, now).1 == Ok(p) <==>
      now < at + (if grace <= 0 then 30_000_000_000 else grace)
  {
    hide Decrypted, Fresh, SealedAs, Counter, ChannelDecrypted;
    ChannelDecryptedExactly(a, Rotated(Established(s, grace), next, at), frame, now, p);
  }

  /** The session that delivers, in the same terms. */
  lemma DelivererExactly(a: Aead, c: ChannelState, frame: seq<byte>, now: int)
    requires Authentic(a)
    ensures Deliverer(a, c, frame, now) ==
      if SealedFor(a, c.current.recvKey, frame) then
        if Fresh(c.current.accepted, Counter(frame)) then Some(c.current.recvKey) else None
      else if && PreviousUsable(c, now) && SealedFor(a, c.previous.value.recvKey, frame)
              && Fresh(c.previous.value.accepted, Counter(frame)) then Some(c.previous.value.recvKey)
      else None
  {
    hide Fresh, SealedAs, Opened;
    OpensExactlySealed(a, c.current.recvKey, frame, []);
    OpenedIsNotReplay(a, c.current.recvKey, frame);
    if PreviousUsable(c, now) {
      OpensExactlySealed(a, c.previous.value.recvKey, frame, []);
    }
  }

  /** A delivery adds its counter to the filter of the session that made it, and
      nothing else ever changes a filter. */
  lemma ChannelDecryptedRecords(a: Aead, c: ChannelState, frame: seq<byte>, now: int, k: Key)
    requires DistinctKeys(c) && k in RecvKeys(c)
    ensures var d := ChannelDecrypted(a, c, frame, now).0;
      && RecvKeys(d) == RecvKeys(c)
      && AcceptedUnder(d, k) ==
         if Deliverer(a, c, frame, now) == Some(k) then AcceptedUnder(c, k) + {Counter(frame)} else AcceptedUnder(c, k)
  {
    hide Opened, Fresh, Counter;
    OpenedIsNotReplay(a, c.current.recvKey, frame);
  }

  /** What a channel delivers was sealed for the session that delivers it, whose
      filter did not have it and now does. */
  lemma DeliveryIsNew(a: Aead, c: ChannelState, frame: seq<byte>, now: int)
    requires Authentic(a) && DistinctKeys(c) && Deliverer(a, c, frame, now).Some?
    ensures var (d, r) := ChannelDecrypted(a, c, frame, now);
      var k := Deliverer(a, c, frame, now).value;
      && k in RecvKeys(c) && SealedAs(a, k, frame, r.value)
      && Counter(frame) !in AcceptedUnder(c, k) && Counter(frame) in AcceptedUnder(d, k)
  {
    hide Decrypted, Fresh, SealedAs, Counter;
    var k := Deliverer(a, c, frame, now).value;
    DecryptedExactly(a, c.current, frame);
    if PreviousUsable(c, now) {
      DecryptedExactly(a, c.previous.value, frame);
    }
    FreshIsNew(AcceptedUnder(c, k), Counter(frame));
    ChannelDecryptedRecords(a, c, frame, now, k);
  }

  // ---------- the channel object ----------

  class Channel {
    var current: Session
    var previous: Session?
    var prevUntil: int
    const grace: int

    ghost function Repr(): set<object>
      reads this, current, if previous == null then {} else {previous}
    {
      {this} + current.Repr() + (if previous == null then {} else previous.Repr())
    }

    ghost predicate Valid()
      reads this, current, if previous == null then {} else {previous}
      reads Repr()
    {
      && grace > 0
      && this !in current.Repr() && current.Valid()
      && (previous != null ==>
        this !in previous.Repr() && previous.Repr() !! current.Repr() && previous.Valid())
    }

    ghost function State(): ChannelState
      reads this, current, if previous == null then {} else {previous}
      reads Repr()
    {
      ChannelState(current.State(), if previous == null then None else Some(previous.State()), prevUntil, grace)
    }

    constructor (initial: Session, grace: int)
      requires initial.Valid()
      ensures Valid() && Repr() == {this} + initial.Repr()
      ensures State() == Established(initial.State(), grace)
    {
      this.current := initial;
      this.previous := null;
      this.prevUntil := 0;
      this.grace := if grace <= 0 then DEFAULT_REKEY_GRACE else grace;
    }

    method Encrypt(a: Aead, plaintext: seq<byte>) returns (r: Result<seq<byte>, Error>)
      requires Valid()
      modifies Repr() - {this}
      ensures Valid() && Repr() == old(Repr())
      ensures (State(), r) == ChannelEncrypted(a, old(State()), plaintext)
    {
      r := current.Encrypt(a, plaintext);
    }

    method Decrypt(a: Aead, frame: seq<byte>, now: int) returns (r: Result<seq<byte>, Error>)
      requires Valid()
      modifies Repr() - {this}
      ensures Valid() && Repr() == old(Repr())
      ensures (State(), r) == ChannelDecrypted(a, old(State()), frame, now)
    {
      hide Session.Valid, Decrypted;
      var cur, prev := current, previous;
      var prevValid := prev != null && now < prevUntil;
      r := cur.Decrypt(a, frame);
      if r.Ok? || r.error == Replay {
        return;
      }
      if prevValid {
        var r2 := prev.Decrypt(a, frame);
        if r2.Ok? {
          return r2;
        }
      }
    }

    method Rotate(next: Session, now: int)
      requires Valid() && next.Valid() && next.Repr() !! Repr()
      modifies this
      ensures Valid() && Repr() <= old(Repr()) + next.Repr()
      ensures State() == Rotated(old(State()), next.State(), now)
    {
      previous := current;
      prevUntil := now + grace;
      current := next;
    }
  }
}
