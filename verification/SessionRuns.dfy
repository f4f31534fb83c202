/** Delivery orders of the frames of one session. */
module SessionRuns {
  import opened Encoding
  import opened Wrappers
  import opened Cipher
  import opened ReplayWindow
  import opened ReplayRuns
  import opened Sessions

  function StateAfter(a: Aead, s: SessionState, frames: seq<seq<byte>>): SessionState {
    if frames == [] then s
    else Decrypted(a, StateAfter(a, s, frames[..|frames| - 1]), frames[|frames| - 1]).0
  }

  /** The plaintexts handed up, in order. */
  function Delivered(a: Aead, s: SessionState, frames: seq<seq<byte>>): seq<seq<byte>> {
    if frames == [] then []
    else
      var n := |frames| - 1;
      var r := Decrypted(a, StateAfter(a, s, frames[..n]), frames[n]).1;
      Delivered(a, s, frames[..n]) + (if r.Ok? then [r.value] else [])
  }

  function Counters(frames: seq<seq<byte>>): (cs: seq<uint64>)
    ensures |cs| == |frames| && forall i | 0 <= i < |cs| :: cs[i] == Counter(frames[i])
  {
    if frames == [] then []
    else Counters(frames[..|frames| - 1]) + [Counter(frames[|frames| - 1])]
  }

  /** What the sender had sealed in a frame. */
  ghost function PlaintextOf(a: Aead, key: Key, frame: seq<byte>): (p: seq<byte>)
    ensures SealedFor(a, key, frame) ==> SealedAs(a, key, frame, p)
  {
    if p :| SealedAs(a, key, frame, p) then p else []
  }

  ghost function Plaintexts(a: Aead, key: Key, frames: seq<seq<byte>>): seq<seq<byte>> {
    if frames == [] then []
    else
      var n := |frames| - 1;
      Plaintexts(a, key, frames[..n]) + [PlaintextOf(a, key, frames[n])]
  }

  /** On frames that were sealed for it, a new session's filter is the replay
      filter run on their counters. */
  lemma {:induction false} FilterFollowsCounters(a: Aead, s: SessionState, frames: seq<seq<byte>>)
    requires Authentic(a) && s.accepted == {}
    requires forall f | f in frames :: SealedFor(a, s.recvKey, f)
    ensures StateAfter(a, s, frames).recvKey == s.recvKey
    ensures StateAfter(a, s, frames).accepted == AcceptedAfter(Counters(frames))
  {
    if frames != [] {
      var n := |frames| - 1;
      FilterFollowsCounters(a, s, frames[..n]);
      assert Counters(frames)[..n] == Counters(frames[..n]);
      assert SealedFor(a, s.recvKey, frames[n]);
      DecryptedExactly(a, StateAfter(a, s, frames[..n]), frames[n]);
      OpensExactlySealed(a, s.recvKey, frames[n], []);
    }
  }

  /** Bounded reordering loses nothing: whatever the order, all frames come out,
      each once, with the plaintexts the sender put in. */
  lemma {:induction false} BoundedReorderingDeliversAll(a: Aead, s: SessionState, frames: seq<seq<byte>>)
    requires Authentic(a) && s.accepted == {}
    requires forall f | f in frames :: SealedFor(a, s.recvKey, f)
    requires BoundedReordering(Counters(frames))
    ensures Delivered(a, s, frames) == Plaintexts(a, s.recvKey, frames)
  {
    if frames != [] {
      var n := |frames| - 1;
      assert Counters(frames)[..n] == Counters(frames[..n]);
      BoundedPrefix(Counters(frames), n);
      BoundedReorderingDeliversAll(a, s, frames[..n]);
      LastFrameDelivered(a, s, frames);
    }
  }

  lemma LastFrameDelivered(a: Aead, s: SessionState, frames: seq<seq<byte>>)
    requires Authentic(a) && s.accepted == {} && frames != []
    requires forall f | f in frames :: SealedFor(a, s.recvKey, f)
    requires BoundedReordering(Counters(frames))
    ensures var n := |frames| - 1;
      Decrypted(a, StateAfter(a, s, frames[..n]), frames[n]).1 == Ok(PlaintextOf(a, s.recvKey, frames[n]))
  {
    hide Decrypted, Fresh, SealedAs, SealedFor, AcceptedAfter, StateAfter;
    var n := |frames| - 1;
    assert Counters(frames)[..n] == Counters(frames[..n]);
    FilterFollowsCounters(a, s, frames[..n]);
    AcceptsClosedForm(Counters(frames), n);
    assert SealedFor(a, s.recvKey, frames[n]);
    DecryptedExactly(a, StateAfter(a, s, frames[..n]), frames[n]);
  }

  ghost function Texts(a: Aead, key: Key, frames: seq<seq<byte>>): multiset<seq<byte>> {
    multiset(Plaintexts(a, key, frames))
  }

  lemma {:induction false} TextsAppend(a: Aead, key: Key, u: seq<seq<byte>>, v: seq<seq<byte>>)
    ensures Texts(a, key, u + v) == Texts(a, key, u) + Texts(a, key, v)
  {
    if v == [] {
      assert u + v == u;
    } else {
      var m := |v| - 1;
      assert (u + v)[..|u + v| - 1] == u + v[..m];
      TextsAppend(a, key, u, v[..m]);
    }
  }

  lemma WithoutOne<T>(init: seq<T>, f: T, u: seq<T>, v: seq<T>)
    requires multiset(init + [f]) == multiset(u + ([f] + v))
    ensures multiset(init) == multiset(u + v)
  {
    assert multiset(init) + multiset{f} == multiset(u) + multiset{f} + multiset(v);
    assert multiset(init) == multiset(init) + multiset{f} - multiset{f};
    assert multiset(u) + multiset(v) == multiset(u) + multiset{f} + multiset(v) - multiset{f};
  }

  /** Two orders of the same frames carry the same plaintexts. */
  lemma {:induction false} SameFramesSameTexts(a: Aead, key: Key, xs: seq<seq<byte>>, ys: seq<seq<byte>>)
    requires multiset(xs) == multiset(ys)
    ensures Texts(a, key, xs) == Texts(a, key, ys)
    decreases |xs|
  {
    if xs == [] {
      assert |multiset(ys)| == |ys|;
    } else {
      var n := |xs| - 1;
      var f := xs[n];
      assert xs == xs[..n] + [f];
      assert f in multiset(ys);
      var i :| 0 <= i < |ys| && ys[i] == f;
      var u, v := ys[..i], ys[i + 1..];
      assert ys == u + ([f] + v);
      WithoutOne(xs[..n], f, u, v);
      SameFramesSameTexts(a, key, xs[..n], u + v);
      TextsAppend(a, key, u, [f] + v);
      TextsAppend(a, key, [f], v);
      TextsAppend(a, key, u, v);
      TextsAppend(a, key, xs[..n], [f]);
    }
  }

  /** Any two bounded orders of the same frames deliver the same multiset of
      plaintexts. */
  lemma OrderDoesNotMatter(a: Aead, s: SessionState, xs: seq<seq<byte>>, ys: seq<seq<byte>>)
    requires Authentic(a) && s.accepted == {}
    requires forall f | f in xs :: SealedFor(a, s.recvKey, f)
    requires multiset(xs) == multiset(ys)
    requires BoundedReordering(Counters(xs)) && BoundedReordering(Counters(ys))
    ensures multiset(Delivered(a, s, xs)) == multiset(Delivered(a, s, ys))
  {
    hide SealedFor;
    forall f | f in ys ensures SealedFor(a, s.recvKey, f) {
      assert f in multiset(xs);
    }
    BoundedReorderingDeliversAll(a, s, xs);
    BoundedReorderingDeliversAll(a, s, ys);
    SameFramesSameTexts(a, s.recvKey, xs, ys);
  }
}
