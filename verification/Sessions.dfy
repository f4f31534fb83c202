/** A transport session: frames carry an explicit counter that is the cipher
    nonce, and the receiver filters replays after authentication. */
module Sessions {
  import opened Encoding
  import opened Wrappers
  import opened Cipher
  import opened ReplayWindow

  const SEQ_SIZE: nat := 8

  datatype Error = TooShort | CipherFailed | Replay

  /** A session as its callers see it: the replay filter is the set of counters
      it accepted. */
  datatype SessionState = SessionState(
    sendKey: Key, sendNonce: uint64,
    recvKey: Key, recvNonce: uint64,
    accepted: set<uint64>)

  /** What a sealed frame is: eight bytes of counter, then the sealed text. */
  function Frame(a: Aead, key: Key, n: uint64, plaintext: seq<byte>): seq<byte> {
    BigEndian(n, SEQ_SIZE) + a.seal(key, n, plaintext)
  }

  function Counter(frame: seq<byte>): uint64 {
    if |frame| < SEQ_SIZE then 0 else Uint64At(frame)
  }

  /** `frame` is the sealing of `plaintext` under `key`, with a usable nonce. */
  predicate SealedAs(a: Aead, key: Key, frame: seq<byte>, plaintext: seq<byte>) {
    Counter(frame) <= MAX_NONCE && frame == Frame(a, key, Counter(frame), plaintext)
  }

  ghost predicate SealedFor(a: Aead, key: Key, frame: seq<byte>) {
    exists p :: SealedAs(a, key, frame, p)
  }

  /** Session.Encrypt, one step. */
  function Encrypted(a: Aead, s: SessionState, plaintext: seq<byte>): (SessionState, Result<seq<byte>, Error>) {
    if s.sendNonce > MAX_NONCE then (s, Err(CipherFailed))
    else (s.(sendNonce := s.sendNonce + 1), Ok(Frame(a, s.sendKey, s.sendNonce, plaintext)))
  }

  /** The authentication half of Session.Decrypt: what the receive cipher, with
      its nonce overwritten by the frame's counter, makes of the frame. */
  function Opened(a: Aead, key: Key, frame: seq<byte>): Result<seq<byte>, Error> {
    if |frame| < SEQ_SIZE + TAG_SIZE then Err(TooShort)
    else
      var n := Uint64At(frame);
      if n > MAX_NONCE then Err(CipherFailed)
      else
        match a.open(key, n, frame[SEQ_SIZE..])
        case Some(p) => Ok(p)
        case None => Err(CipherFailed)
  }

  /** The receive cipher's nonce after it was tried on the frame. */
  function NonceAfter(a: Aead, s: SessionState, frame: seq<byte>): uint64 {
    if |frame| < SEQ_SIZE + TAG_SIZE then s.recvNonce
    else
      var n := Uint64At(frame);
      if Opened(a, s.recvKey, frame).Ok? then n + 1 else n
  }

  /** Session.Decrypt, one step. */
  function Decrypted(a: Aead, s: SessionState, frame: seq<byte>): (SessionState, Result<seq<byte>, Error>) {
    var tried := s.(recvNonce := NonceAfter(a, s, frame));
    var auth := Opened(a, s.recvKey, frame);
    if auth.Err? then (tried, auth)
    else if Fresh(s.accepted, Counter(frame)) then
      (tried.(accepted := s.accepted + {Counter(frame)}), auth)
    else (tried, Err(Replay))
  }

  // ---------- what the steps mean ----------

  /** The cipher opens exactly the frames sealed for its key. */
  lemma OpensExactlySealed(a: Aead, key: Key, frame: seq<byte>, p: seq<byte>)
    requires Authentic(a)
    ensures Opened(a, key, frame) == Ok(p) <==> SealedAs(a, key, frame, p)
    ensures Opened(a, key, frame).Ok? <==> SealedFor(a, key, frame)
  {
    if Opened(a, key, frame).Ok? {
      var q := Opened(a, key, frame).value;
      assert frame == frame[..SEQ_SIZE] + frame[SEQ_SIZE..];
      assert SealedAs(a, key, frame, q);
    }
    forall q | SealedAs(a, key, frame, q) ensures Opened(a, key, frame) == Ok(q) {
      FrameParts(a, key, Counter(frame), q);
    }
  }

  lemma FrameParts(a: Aead, key: Key, n: uint64, p: seq<byte>)
    requires Authentic(a)
    ensures var f := Frame(a, key, n, p);
      |f| == 24 + |p| && Counter(f) == n && f[..8] == BigEndian(n, 8) && f[8..] == a.seal(key, n, p)
  {
    var f := Frame(a, key, n, p);
    Uint64RoundTrip(n, a.seal(key, n, p));
    assert f[SEQ_SIZE..] == a.seal(key, n, p);
  }

  /** Decrypting in closed form: it yields a plaintext exactly when the frame is
      that plaintext sealed for this session and its counter is fresh; a sealed
      frame whose counter is not fresh is a replay; and only a delivery changes
      the filter. */
  lemma DecryptedExactly(a: Aead, s: SessionState, frame: seq<byte>)
    requires Authentic(a)
    ensures var (t, r) := Decrypted(a, s, frame);
      && (forall p :: r == Ok(p) <==> SealedAs(a, s.recvKey, frame, p) && Fresh(s.accepted, Counter(frame)))
      && (r == Err(Replay) <==> SealedFor(a, s.recvKey, frame) && !Fresh(s.accepted, Counter(frame)))
      && t.accepted == (if r.Ok? then s.accepted + {Counter(frame)} else s.accepted)
      && t == s.(recvNonce := t.recvNonce, accepted := t.accepted)
  {
    forall p ensures Opened(a, s.recvKey, frame) == Ok(p) <==> SealedAs(a, s.recvKey, frame, p) {
      OpensExactlySealed(a, s.recvKey, frame, p);
    }
    OpensExactlySealed(a, s.recvKey, frame, []);
  }

  /** The errors in closed form: too short exactly below 24 bytes; a replay
      exactly when the frame is sealed for this session and not fresh; and a
      failed authentication exactly for the rest. */
  lemma RefusedExactly(a: Aead, s: SessionState, frame: seq<byte>)
    requires Authentic(a)
    ensures var r := Decrypted(a, s, frame).1;
      && (r == Err(TooShort) <==> |frame| < 24)
      && (r == Err(Replay) <==> SealedFor(a, s.recvKey, frame) && !Fresh(s.accepted, Counter(frame)))
      && (r == Err(CipherFailed) <==> |frame| >= 24 && !SealedFor(a, s.recvKey, frame))
      && (r.Ok? <==> SealedFor(a, s.recvKey, frame) && Fresh(s.accepted, Counter(frame)))
  {
    hide Fresh, SealedAs;
    DecryptedExactly(a, s, frame);
    OpensExactlySealed(a, s.recvKey, frame, []);
  }

  /** What the receive cipher's nonce is left at: untouched by a frame that is too
      short, overwritten by any other, and one more if the frame authenticates. */
  lemma NonceIsOverwritten(a: Aead, s: SessionState, frame: seq<byte>)
    requires Authentic(a)
    ensures Decrypted(a, s, frame).0.recvNonce ==
      if |frame| < 24 then s.recvNonce
      else FromBigEndian(frame[..8]) + (if SealedFor(a, s.recvKey, frame) then 1 else 0)
  {
    hide Fresh, SealedAs;
    OpensExactlySealed(a, s.recvKey, frame, []);
  }

  function AfterSealing(a: Aead, s: SessionState, texts: seq<seq<byte>>): SessionState {
    if texts == [] then s else Encrypted(a, AfterSealing(a, s, texts[..|texts| - 1]), texts[|texts| - 1]).0
  }

  /** The n-th frame a session seals carries the n-th counter from where it
      stands, and there are none past the last but one of 2^64. */
  lemma {:induction false} CountersAreConsecutive(a: Aead, s: SessionState, texts: seq<seq<byte>>, p: seq<byte>)
    requires Authentic(a) && s.sendNonce + |texts| <= 18446744073709551615
    ensures var t := AfterSealing(a, s, texts);
      var r := Encrypted(a, t, p).1;
      && t == s.(sendNonce := s.sendNonce + |texts|)
      && (r.Ok? <==> s.sendNonce + |texts| <= 18446744073709551614)
      && (r.Ok? ==> Counter(r.value) == s.sendNonce + |texts| && SealedAs(a, s.sendKey, r.value, p))
      && (r.Err? ==> r == Err(CipherFailed))
  {
    hide Frame, Counter, SealedAs;
    if texts != [] {
      CountersAreConsecutive(a, s, texts[..|texts| - 1], texts[|texts| - 1]);
    }
    if s.sendNonce + |texts| <= MAX_NONCE {
      SealingCounts(a, s.sendKey, s.sendNonce + |texts|, p);
    }
  }

  lemma SealingCounts(a: Aead, key: Key, n: uint64, p: seq<byte>)
    requires Authentic(a) && n <= MAX_NONCE
    ensures var f := Frame(a, key, n, p); Counter(f) == n && SealedAs(a, key, f, p)
  {
    FrameParts(a, key, n, p);
  }

  /** A frame sealed by one side opens at the matched side to the same bytes,
      once, whenever the receiver finds its counter fresh. */
  lemma RoundTrip(a: Aead, sender: SessionState, receiver: SessionState, plaintext: seq<byte>)
    requires Authentic(a) && sender.sendKey == receiver.recvKey && sender.sendNonce <= MAX_NONCE
    requires Fresh(receiver.accepted, sender.sendNonce)
    ensures var (_, sent) := Encrypted(a, sender, plaintext);
      && sent.Ok?
      && var (after, got) := Decrypted(a, receiver, sent.value);
      && got == Ok(plaintext)
      && Decrypted(a, after, sent.value).1 == Err(Replay)
  {
    var f := Frame(a, sender.sendKey, sender.sendNonce, plaintext);
    FrameParts(a, sender.sendKey, sender.sendNonce, plaintext);
    assert SealedAs(a, receiver.recvKey, f, plaintext);
    DecryptedExactly(a, receiver, f);
    DecryptedExactly(a, Decrypted(a, receiver, f).0, f);
  }

  /** A frame says one thing under one key. */
  lemma SealedAsOne(a: Aead, key: Key, frame: seq<byte>, p: seq<byte>, q: seq<byte>)
    requires Authentic(a) && SealedAs(a, key, frame, p) && SealedAs(a, key, frame, q)
    ensures p == q
  {
    OpensExactlySealed(a, key, frame, p);
    OpensExactlySealed(a, key, frame, q);
  }

  lemma OpenedIsNotReplay(a: Aead, key: Key, frame: seq<byte>)
    ensures Opened(a, key, frame) != Err(Replay)
  {}

  // ---------- the session object ----------

  class Session {
    const send: CipherState
    const recv: CipherState
    const replay: Window

    ghost function Repr(): set<object>
      reads this
    {
      {this, send, recv, replay, replay.bitmap}
    }

    ghost predicate Valid()
      reads Repr()
    {
      send != recv && replay.Valid()
    }

    ghost function State(): SessionState
      reads Repr()
    {
      SessionState(send.key, send.nonce, recv.key, recv.nonce, replay.accepted)
    }

    constructor (send: CipherState, recv: CipherState)
      requires send != recv
      ensures Valid() && fresh(Repr() - {send, recv})
      ensures this.send == send && this.recv == recv
      ensures State() == SessionState(send.key, send.nonce, recv.key, recv.nonce, {})
    {
      this.send := send;
      this.recv := recv;
      this.replay := new Window();
    }

    method Encrypt(a: Aead, plaintext: seq<byte>) returns (r: Result<seq<byte>, Error>)
      requires Valid()
      modifies send
      ensures Valid()
      ensures (State(), r) == Encrypted(a, old(State()), plaintext)
    {
      var counter := send.nonce;
      var ct := send.Encrypt(a, plaintext);
      if ct == None {
        return Err(CipherFailed);
      }
      return Ok(BigEndian(counter, SEQ_SIZE) + ct.value);
    }

    method Decrypt(a: Aead, frame: seq<byte>) returns (r: Result<seq<byte>, Error>)
      requires Valid()
      modifies recv, replay, replay.bitmap
      ensures Valid()
      ensures (State(), r) == Decrypted(a, old(State()), frame)
    {
      hide Window.Valid, Fresh, Pow256, BigEndian, FromBigEndian;
      if |frame| < SEQ_SIZE + TAG_SIZE {
        return Err(TooShort);
      }
      var counter := Uint64At(frame);
      recv.SetNonce(counter);
      var pt := recv.Decrypt(a, frame[SEQ_SIZE..]);
      if pt == None {
        return Err(CipherFailed);
      }
      var ok := replay.Accept(counter);
      if !ok {
        return Err(Replay);
      }
      return Ok(pt.value);
    }
  }
}
