/** Whole runs of one channel: any interleaving of sealing, opening, rotation to
    fresh sessions and clock readings. */
module ChannelRuns {
  import opened Encoding
  import opened Wrappers
  import opened Cipher
  import opened ReplayWindow
  import opened Sessions
  import opened Channels

  datatype Op =
    | Encrypt(plaintext: seq<byte>)
    | Decrypt(frame: seq<byte>, now: int)
    | Rotate(next: SessionState, at: int)

  datatype Outcome =
    | Sealing(sealing: Result<seq<byte>, Error>)
    | Opening(opening: Result<seq<byte>, Error>)
    | Rotation

  function Step(a: Aead, c: ChannelState, op: Op): (ChannelState, Outcome) {
    match op
    case Encrypt(p) => var (d, r) := ChannelEncrypted(a, c, p); (d, Sealing(r))
    case Decrypt(f, now) => var (d, r) := ChannelDecrypted(a, c, f, now); (d, Opening(r))
    case Rotate(next, at) => (Rotated(c, next, at), Rotation)
  }

  function After(a: Aead, c: ChannelState, ops: seq<Op>): ChannelState {
    if ops == [] then c else Step(a, After(a, c, ops[..|ops| - 1]), ops[|ops| - 1]).0
  }

  function OutcomeAt(a: Aead, c: ChannelState, ops: seq<Op>, i: nat): Outcome
    requires i < |ops|
  {
    Step(a, After(a, c, ops[..i]), ops[i]).1
  }

  // ---------- the ideal channel, read off the history alone ----------

  /** The receive key installed last. */
  function CurrentKey(c: ChannelState, ops: seq<Op>): Key {
    if ops == [] then c.current.recvKey
    else
      match ops[|ops| - 1]
      case Rotate(next, _) => next.recvKey
      case _ => CurrentKey(c, ops[..|ops| - 1])
  }

  /** The receive key that was current before the last rotation, and when that
      rotation stops honouring it. */
  function PreviousKey(c: ChannelState, ops: seq<Op>): Option<(Key, int)> {
    if ops == [] then None
    else
      var before := ops[..|ops| - 1];
      match ops[|ops| - 1]
      case Rotate(_, at) => Some((CurrentKey(c, before), at + c.grace))
      case _ => PreviousKey(c, before)
  }

  function KeysUsed(c: ChannelState, ops: seq<Op>): (keys: set<Key>)
    ensures CurrentKey(c, ops) in keys
  {
    if ops == [] then {c.current.recvKey}
    else
      var before := KeysUsed(c, ops[..|ops| - 1]);
      if ops[|ops| - 1].Rotate? then before + {ops[|ops| - 1].next.recvKey} else before
  }

  /** The run starts on a new session and every rotation brings one whose key
      was not used before, with nothing accepted yet. */
  ghost predicate FreshSessions(c: ChannelState, ops: seq<Op>) {
    && c.current.accepted == {} && c.previous == None
    && forall i | 0 <= i < |ops| && ops[i].Rotate? ::
         ops[i].next.accepted == {} && ops[i].next.recvKey !in KeysUsed(c, ops[..i])
  }

  /** Which key's session delivers the frame of an opening: the one installed
      last, if it sealed the frame; otherwise the one before, while it is
      honoured; and either only if the counter is fresh among those it delivered. */
  ghost function IdealDeliverer(a: Aead, c: ChannelState, history: seq<Op>, op: Op): Option<Key>
    requires op.Decrypt?
    decreases |history|, 1
  {
    var current := CurrentKey(c, history);
    if SealedFor(a, current, op.frame) then
      if Fresh(Delivered(a, c, history, current), Counter(op.frame)) then Some(current) else None
    else
      match PreviousKey(c, history)
      case None => None
      case Some((previous, until)) =>
        if && op.now < until && SealedFor(a, previous, op.frame)
           && Fresh(Delivered(a, c, history, previous), Counter(op.frame)) then Some(previous)
        else None
  }

  /** The counters delivered under `k` in the ideal channel's own history. */
  ghost function Delivered(a: Aead, c: ChannelState, history: seq<Op>, k: Key): set<uint64>
    decreases |history|, 0
  {
    if history == [] then {}
    else
      var before, op := history[..|history| - 1], history[|history| - 1];
      Delivered(a, c, before, k)
        + (if op.Decrypt? && IdealDeliverer(a, c, before, op) == Some(k) then {Counter(op.frame)} else {})
  }

  ghost predicate IdealDelivers(a: Aead, c: ChannelState, history: seq<Op>, op: Op, p: seq<byte>)
    requires op.Decrypt?
  {
    var k := IdealDeliverer(a, c, history, op);
    k.Some? && SealedAs(a, k.value, op.frame, p)
  }

  // ---------- the channel refines it ----------

  /** Which key's session delivers at operation `i`. */
  function DelivererAt(a: Aead, c: ChannelState, ops: seq<Op>, i: nat): Option<Key>
    requires i < |ops|
  {
    if ops[i].Decrypt? then Deliverer(a, After(a, c, ops[..i]), ops[i].frame, ops[i].now) else None
  }

  ghost predicate Refines(a: Aead, c: ChannelState, ops: seq<Op>) {
    var d := After(a, c, ops);
    && d.grace == c.grace
    && d.current.recvKey == CurrentKey(c, ops)
    && (d.previous.Some? <==> PreviousKey(c, ops).Some?)
    && (d.previous.Some? ==> PreviousKey(c, ops).value == (d.previous.value.recvKey, d.prevUntil))
    && DistinctKeys(d)
    && (forall k | k in RecvKeys(d) :: AcceptedUnder(d, k) == Delivered(a, c, ops, k))
  }

  lemma FreshPrefix(c: ChannelState, ops: seq<Op>, n: nat)
    requires FreshSessions(c, ops) && n <= |ops|
    ensures FreshSessions(c, ops[..n])
  {
    forall i | 0 <= i < n && ops[..n][i].Rotate?
      ensures ops[..n][i].next.recvKey !in KeysUsed(c, ops[..n][..i])
    {
      assert ops[..n][..i] == ops[..i];
    }
  }

  /** Nothing was delivered under a key that was never installed. */
  lemma {:induction false} UnusedKey(a: Aead, c: ChannelState, ops: seq<Op>, k: Key)
    requires k !in KeysUsed(c, ops)
    ensures Delivered(a, c, ops, k) == {}
  {
    if ops != [] {
      var n := |ops| - 1;
      UnusedKey(a, c, ops[..n], k);
      HeldKeysUsed(c, ops[..n]);
    }
  }

  lemma {:induction false} RunRefines(a: Aead, c: ChannelState, ops: seq<Op>)
    requires Authentic(a) && FreshSessions(c, ops)
    ensures Refines(a, c, ops)
  {
    if ops != [] {
      var n := |ops| - 1;
      FreshPrefix(c, ops, n);
      RunRefines(a, c, ops[..n]);
      hide Refines;
      match ops[n]
      case Encrypt(p) => EncryptRefines(a, c, ops);
      case Rotate(next, at) => RotateRefines(a, c, ops);
      case Decrypt(f, now) => DecryptRefines(a, c, ops);
    }
  }

  lemma OthersDeliverNothing(a: Aead, c: ChannelState, ops: seq<Op>, k: Key)
    requires ops != [] && !ops[|ops| - 1].Decrypt?
    ensures Delivered(a, c, ops, k) == Delivered(a, c, ops[..|ops| - 1], k)
  {
    assert Delivered(a, c, ops, k) == Delivered(a, c, ops[..|ops| - 1], k) + {};
  }

  lemma EncryptRefines(a: Aead, c: ChannelState, ops: seq<Op>)
    requires ops != [] && ops[|ops| - 1].Encrypt? && Refines(a, c, ops[..|ops| - 1])
    ensures Refines(a, c, ops)
  {
    hide ChannelEncrypted, Delivered;
    EncryptKeeps(a, After(a, c, ops[..|ops| - 1]), ops[|ops| - 1].plaintext);
    forall k ensures Delivered(a, c, ops, k) == Delivered(a, c, ops[..|ops| - 1], k) {
      OthersDeliverNothing(a, c, ops, k);
    }
  }

  lemma RotateRefines(a: Aead, c: ChannelState, ops: seq<Op>)
    requires ops != [] && ops[|ops| - 1].Rotate? && Refines(a, c, ops[..|ops| - 1]) && FreshSessions(c, ops)
    ensures Refines(a, c, ops)
  {
    hide Delivered;
    var n := |ops| - 1;
    UnusedKey(a, c, ops[..n], ops[n].next.recvKey);
    HeldKeysUsed(c, ops[..n]);
    forall k ensures Delivered(a, c, ops, k) == Delivered(a, c, ops[..n], k) {
      OthersDeliverNothing(a, c, ops, k);
    }
  }

  lemma DecryptRefines(a: Aead, c: ChannelState, ops: seq<Op>)
    requires Authentic(a) && ops != [] && ops[|ops| - 1].Decrypt? && Refines(a, c, ops[..|ops| - 1])
    ensures Refines(a, c, ops)
  {
    hide ChannelDecrypted, IdealDeliverer, Deliverer, Counter, AcceptedUnder, RecvKeys;
    var n := |ops| - 1;
    var before, f, now := After(a, c, ops[..n]), ops[n].frame, ops[n].now;
    DecryptKeeps(a, before, f, now);
    DeliversAlike(a, c, ops[..n], ops[n]);
    forall k | k in RecvKeys(before)
      ensures var d := ChannelDecrypted(a, before, f, now).0;
        && RecvKeys(d) == RecvKeys(before)
        && AcceptedUnder(d, k) ==
          if Deliverer(a, before, f, now) == Some(k) then AcceptedUnder(before, k) + {Counter(f)}
          else AcceptedUnder(before, k)
    {
      ChannelDecryptedRecords(a, before, f, now, k);
    }
    CurrentIsHeld(before);
  }

  /** A channel that agrees with the ideal one lets the same session deliver. */
  lemma DeliversAlike(a: Aead, c: ChannelState, ops: seq<Op>, op: Op)
    requires Authentic(a) && op.Decrypt? && Refines(a, c, ops)
    ensures Deliverer(a, After(a, c, ops), op.frame, op.now) == IdealDeliverer(a, c, ops, op)
  {
    hide Fresh, SealedFor, Counter, Deliverer, After, Delivered;
    DelivererExactly(a, After(a, c, ops), op.frame, op.now);
  }

  lemma EncryptKeeps(a: Aead, c: ChannelState, p: seq<byte>)
    ensures var d := ChannelEncrypted(a, c, p).0;
      && d == c.(current := d.current)
      && d.current == c.current.(sendNonce := d.current.sendNonce)
  {}

  lemma DecryptKeeps(a: Aead, c: ChannelState, f: seq<byte>, now: int)
    ensures var d := ChannelDecrypted(a, c, f, now).0;
      && d.grace == c.grace && d.prevUntil == c.prevUntil
      && d.current.recvKey == c.current.recvKey
      && (d.previous.Some? <==> c.previous.Some?)
      && (d.previous.Some? ==> d.previous.value.recvKey == c.previous.value.recvKey)
  {}

  /** The refinement, operation by operation: in every run, an opening yields a
      plaintext exactly when the ideal channel, which knows only its own history,
      delivers it, and the same key's session does it. */
  lemma ChannelRefinesIdeal(a: Aead, c: ChannelState, ops: seq<Op>, i: nat, p: seq<byte>)
    requires Authentic(a) && FreshSessions(c, ops)
    requires i < |ops| && ops[i].Decrypt?
    ensures OutcomeAt(a, c, ops, i) == Opening(Ok(p)) <==> IdealDelivers(a, c, ops[..i], ops[i], p)
    ensures DelivererAt(a, c, ops, i) == IdealDeliverer(a, c, ops[..i], ops[i])
  {
    hide Fresh, SealedAs, ChannelDecrypted, Deliverer, IdealDeliverer, Refines, After;
    FreshPrefix(c, ops, i);
    RunRefines(a, c, ops[..i]);
    DeliversAlike(a, c, ops[..i], ops[i]);
    PlaintextIsSealed(a, c, ops[..i], ops[i], p);
  }

  lemma PlaintextIsSealed(a: Aead, c: ChannelState, ops: seq<Op>, op: Op, p: seq<byte>)
    requires Authentic(a) && op.Decrypt? && Refines(a, c, ops)
    ensures var d := After(a, c, ops);
      ChannelDecrypted(a, d, op.frame, op.now).1 == Ok(p) <==>
        var k := Deliverer(a, d, op.frame, op.now); k.Some? && SealedAs(a, k.value, op.frame, p)
  {
    hide Fresh, SealedAs, Counter, After, ChannelDecrypted, Deliverer;
    var d := After(a, c, ops);
    ChannelDecryptedExactly(a, d, op.frame, op.now, p);
    DelivererExactly(a, d, op.frame, op.now);
    if d.previous.Some? && SealedAs(a, d.previous.value.recvKey, op.frame, p) {
      assert SealedFor(a, d.previous.value.recvKey, op.frame);
    }
    if SealedAs(a, d.current.recvKey, op.frame, p) {
      assert SealedFor(a, d.current.recvKey, op.frame);
    }
  }

  lemma {:induction false} HeldKeysUsed(c: ChannelState, ops: seq<Op>)
    ensures CurrentKey(c, ops) in KeysUsed(c, ops)
    ensures PreviousKey(c, ops).Some? ==> PreviousKey(c, ops).value.0 in KeysUsed(c, ops)
  {
    if ops != [] {
      HeldKeysUsed(c, ops[..|ops| - 1]);
    }
  }

  /** Exactly-once delivery across rotations: no session delivers a counter
      twice in a run, whatever the frames that carry it. */
  lemma DeliveredOnce(a: Aead, c: ChannelState, ops: seq<Op>, i: nat, j: nat, k: Key)
    requires Authentic(a) && FreshSessions(c, ops) && i < j < |ops|
    requires DelivererAt(a, c, ops, i) == Some(k) && DelivererAt(a, c, ops, j) == Some(k)
    ensures Counter(ops[i].frame) != Counter(ops[j].frame)
  {
    hide Fresh, FreshSessions, After, Step, DelivererAt;
    DeliverersDecrypt(a, c, ops, i);
    DeliverersDecrypt(a, c, ops, j);
    ChannelRefinesIdeal(a, c, ops, i, []);
    ChannelRefinesIdeal(a, c, ops, j, []);
    assert ops[..j][..i] == ops[..i];
    StaysDelivered(a, c, ops[..j], i, k);
    FreshIsNew(Delivered(a, c, ops[..j], k), Counter(ops[j].frame));
  }

  lemma DeliverersDecrypt(a: Aead, c: ChannelState, ops: seq<Op>, i: nat)
    requires i < |ops| && DelivererAt(a, c, ops, i).Some?
    ensures ops[i].Decrypt?
  {}

  lemma {:induction false} StaysDelivered(a: Aead, c: ChannelState, ops: seq<Op>, i: nat, k: Key)
    requires i < |ops| && ops[i].Decrypt? && IdealDeliverer(a, c, ops[..i], ops[i]) == Some(k)
    ensures Counter(ops[i].frame) in Delivered(a, c, ops, k)
  {
    hide IdealDeliverer;
    var n := |ops| - 1;
    if i < n {
      assert ops[..n][..i] == ops[..i];
      StaysDelivered(a, c, ops[..n], i, k);
    }
  }

  // ---------- refused frames leave no trace ----------

  function Outcomes(a: Aead, c: ChannelState, ops: seq<Op>): (os: seq<Outcome>)
    ensures |os| == |ops|
  {
    if ops == [] then []
    else Outcomes(a, c, ops[..|ops| - 1]) + [OutcomeAt(a, c, ops, |ops| - 1)]
  }

  /** The elements of `s` whose flag in `keep` is set. */
  function Kept<T>(s: seq<T>, keep: seq<bool>): seq<T>
    requires |s| == |keep|
  {
    if s == [] then []
    else
      var n := |s| - 1;
      Kept(s[..n], keep[..n]) + (if keep[n] then [s[n]] else [])
  }

  function ForgetNonce(s: SessionState): SessionState {
    s.(recvNonce := 0)
  }

  /** Equal but for the receive ciphers' nonces. */
  predicate SameButNonces(c: ChannelState, d: ChannelState) {
    && ForgetNonce(c.current) == ForgetNonce(d.current)
    && (c.previous.Some? <==> d.previous.Some?)
    && (c.previous.Some? ==> ForgetNonce(c.previous.value) == ForgetNonce(d.previous.value))
    && c.prevUntil == d.prevUntil && c.grace == d.grace
  }

  lemma StepIgnoresNonces(a: Aead, c: ChannelState, d: ChannelState, op: Op)
    requires SameButNonces(c, d)
    ensures Step(a, c, op).1 == Step(a, d, op).1
    ensures SameButNonces(Step(a, c, op).0, Step(a, d, op).0)
  {
    hide Opened, Fresh;
  }

  lemma RefusalOnlyMovesNonces(a: Aead, c: ChannelState, frame: seq<byte>, now: int)
    requires ChannelDecrypted(a, c, frame, now).1.Err?
    ensures SameButNonces(ChannelDecrypted(a, c, frame, now).0, c)
  {
    hide Opened, Fresh;
  }

  /** Deleting any of the refused frames from any run changes nothing else: the
      remaining operations have the same outcomes, although every refused frame
      had overwritten the nonce of one or two receive ciphers. */
  lemma {:induction false} RefusedFramesAreInvisible(a: Aead, c: ChannelState, ops: seq<Op>, keep: seq<bool>)
    requires |keep| == |ops|
    requires forall i | 0 <= i < |ops| && !keep[i] ::
      ops[i].Decrypt? && OutcomeAt(a, c, ops, i).Opening? && OutcomeAt(a, c, ops, i).opening.Err?
    ensures Outcomes(a, c, Kept(ops, keep)) == Kept(Outcomes(a, c, ops), keep)
    ensures SameButNonces(After(a, c, Kept(ops, keep)), After(a, c, ops))
    decreases |ops|
  {
    if ops != [] {
      var n := |ops| - 1;
      forall i | 0 <= i < n ensures OutcomeAt(a, c, ops[..n], i) == OutcomeAt(a, c, ops, i) {
        assert ops[..n][..i] == ops[..i];
      }
      RefusedFramesAreInvisible(a, c, ops[..n], keep[..n]);
      LastKept(a, c, ops, keep);
    }
  }

  lemma LastKept(a: Aead, c: ChannelState, ops: seq<Op>, keep: seq<bool>)
    requires |keep| == |ops| && ops != []
    requires var n := |ops| - 1;
      && Outcomes(a, c, Kept(ops[..n], keep[..n])) == Kept(Outcomes(a, c, ops[..n]), keep[..n])
      && SameButNonces(After(a, c, Kept(ops[..n], keep[..n])), After(a, c, ops[..n]))
      && (!keep[n] ==> ops[n].Decrypt? && OutcomeAt(a, c, ops, n).Opening? && OutcomeAt(a, c, ops, n).opening.Err?)
    ensures Outcomes(a, c, Kept(ops, keep)) == Kept(Outcomes(a, c, ops), keep)
    ensures SameButNonces(After(a, c, Kept(ops, keep)), After(a, c, ops))
  {
    hide ChannelDecrypted, ChannelEncrypted;
    var n := |ops| - 1;
    var shorter := Kept(ops[..n], keep[..n]);
    var all := Outcomes(a, c, ops);
    assert all[..n] == Outcomes(a, c, ops[..n]);
    if keep[n] {
      var longer := Kept(ops, keep);
      assert longer == shorter + [ops[n]];
      assert longer[..|longer| - 1] == shorter;
      StepIgnoresNonces(a, After(a, c, shorter), After(a, c, ops[..n]), ops[n]);
    } else {
      assert Kept(ops, keep) == shorter;
      RefusalOnlyMovesNonces(a, After(a, c, ops[..n]), ops[n].frame, ops[n].now);
    }
  }
}
