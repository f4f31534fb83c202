/** Exactly which frames a server can write twice. The cipher's laws do not say
    that a text opens under one key only, and neither does the server. */
module DoubleWrites {
  import opened Encoding
  import opened Wrappers
  import opened Cipher
  import opened Sessions
  import opened Channels
  import opened Handshake
  import opened ServerSide
  import opened ServerRuns
  import opened ServerExpiry

  ghost predicate WritesTwice(s: State, frame: seq<byte>) {
    exists i, j :: 0 <= i < j < |s.tunnel| && s.tunnel[i].frame == frame && s.tunnel[j].frame == frame
  }

  ghost predicate CanBeWrittenTwice(a: Aead, identity: nat, allowlist: set<nat>, frame: seq<byte>) {
    exists events :: WritesTwice(Run(a, Start(identity, allowlist), events), frame)
  }

  /** A client hands in the first message of key `k`, and then the frame. */
  function Serving(s: State, k: Key, client: nat, id: nat, from: Addr, frame: seq<byte>): seq<Event> {
    [Handshake(Msg1(k.initiatorEph, client, s.identity), from, true, k.responderEph, id, 0, 0)]
      + Handling(from, frame, 0, 0)
  }

  ghost predicate Ready(s: State) {
    ReferencesLive(s) && Unshared(s) && s.handler.Idle?
  }

  lemma HandlingKeeps(a: Aead, s: State, from: Addr, frame: seq<byte>)
    requires Ready(s) && from in s.table
    ensures var t := Run(a, s, Handling(from, frame, 0, 0));
      Ready(t) && t.ephs == s.ephs && t.rows.Keys == s.rows.Keys
      && t.identity == s.identity && t.allowlist == s.allowlist
  {
    hide ChannelDecrypted, Deliverer;
    HandlingUnrolls(a, s, from, frame, 0, 0);
  }

  /** Whatever came before, the frame is then written once more. */
  lemma ServedOnce(a: Aead, s: State, k: Key, client: nat, id: nat, from: Addr, frame: seq<byte>, p: seq<byte>)
    requires Authentic(a) && Ready(s) && Authorised(s.allowlist, client)
    requires k.toResponder && k.responderEph !in s.ephs && id !in s.rows && SealedAs(a, k, frame, p)
    ensures var t := Run(a, s, Serving(s, k, client, id, from, frame));
      && Ready(t) && t.ephs == s.ephs + {k.responderEph} && t.rows.Keys <= s.rows.Keys + {id}
      && t.identity == s.identity && t.allowlist == s.allowlist
      && Appended(s.tunnel, t.tunnel, frame, Some(p))
  {
    var e := Serving(s, k, client, id, from, frame)[0];
    var mid := Next(a, s, e);
    assert Run(a, s, [e]) == mid by { assert [e][..0] == []; }
    RunSplits(a, s, [e], Handling(from, frame, 0, 0));
    UnsharedStep(a, s, e);
    HandshakeIsSeated(a, s, e);
    FirstFrameOpens(a, Contents(s), from, k, frame, p);
    hide ChannelDecrypted, SealedAs, Seated, Received;
    UninterruptedIsReceived(a, mid, from, frame, 0, 0);
    HandlingKeeps(a, mid, from, frame);
  }

  lemma FirstFrameOpens(a: Aead, t: Table, from: Addr, k: Key, frame: seq<byte>, p: seq<byte>)
    requires Authentic(a) && k.toResponder && SealedAs(a, k, frame, p)
    ensures var seated := Seated(t, from, ResponderSession(k.initiatorEph, k.responderEph), 0, 0);
      Received(a, seated, from, frame, 0, 0).1 == Some(p)
  {
    var seated := Seated(t, from, ResponderSession(k.initiatorEph, k.responderEph), 0, 0);
    assert seated[from].channel.current.recvKey == k && seated[from].channel.current.accepted == {};
    hide ChannelDecrypted, SealedAs, Seated;
    assert SealedFor(a, k, frame);
    ChannelDecryptedExactly(a, seated[from].channel, frame, 0, p);
  }

  /** A frame sealed for two sessions is written twice when the server rotates
      from one to the other in between. */
  lemma ServedTwice(a: Aead, identity: nat, allowlist: set<nat>, k: Key, l: Key, frame: seq<byte>)
    requires Authentic(a) && SealedFor(a, k, frame) && SealedFor(a, l, frame)
    requires k.toResponder && l.toResponder && k.responderEph != l.responderEph
    ensures CanBeWrittenTwice(a, identity, allowlist, frame)
  {
    hide SealedAs, Serving, Run, Ready;
    var p :| SealedAs(a, k, frame, p);
    var q :| SealedAs(a, l, frame, q);
    var client := if allowlist == {} then 0 else var c :| c in allowlist; c;
    var from := Addr("", 0);
    var s0 := Start(identity, allowlist);
    assert Ready(s0) by { StartIsReady(identity, allowlist); }
    var u := Serving(s0, k, client, 0, from, frame);
    ServedOnce(a, s0, k, client, 0, from, frame, p);
    var s1 := Run(a, s0, u);
    var v := Serving(s1, l, client, 1, from, frame);
    ServedOnce(a, s1, l, client, 1, from, frame, q);
    RunSplits(a, s0, u, v);
    var s2 := Run(a, s1, v);
    assert s2.tunnel[..1] == s1.tunnel;
    assert s2.tunnel[0].frame == frame && s2.tunnel[1].frame == frame;
    assert WritesTwice(Run(a, s0, u + v), frame);
  }

  lemma StartIsReady(identity: nat, allowlist: set<nat>)
    ensures Ready(Start(identity, allowlist))
  {}

  lemma DoubleWriteTells(a: Aead, identity: nat, allowlist: set<nat>, events: seq<Event>, frame: seq<byte>)
    requires Authentic(a) && WritesTwice(Run(a, Start(identity, allowlist), events), frame)
    ensures SealedTwice(a, frame)
  {
    hide SealedTwice, Genuine, SameCounter, Next, Start;
    var t := Run(a, Start(identity, allowlist), events).tunnel;
    WrittenAtMostOnce(a, identity, allowlist, events);
    var i, j :| 0 <= i < j < |t| && t[i].frame == frame && t[j].frame == frame;
  }

  /** The exact condition: a server can write a frame twice if and only if two
      keys with different responder ephemerals sealed it. */
  lemma WrittenTwiceIffSealedTwice(a: Aead, identity: nat, allowlist: set<nat>, frame: seq<byte>)
    requires Authentic(a)
    ensures CanBeWrittenTwice(a, identity, allowlist, frame) <==> SealedTwice(a, frame)
  {
    if CanBeWrittenTwice(a, identity, allowlist, frame) {
      var events :| WritesTwice(Run(a, Start(identity, allowlist), events), frame);
      DoubleWriteTells(a, identity, allowlist, events, frame);
    }
    if SealedTwice(a, frame) {
      var k, l :| SealedFor(a, k, frame) && SealedFor(a, l, frame)
        && k.toResponder && l.toResponder && k.responderEph != l.responderEph;
      ServedTwice(a, identity, allowlist, k, l, frame);
    }
  }

  /** There are ciphers within the laws for which such a frame exists. */
  lemma SomeFrameIsWrittenTwice(identity: nat, allowlist: set<nat>)
    ensures CanBeWrittenTwice(KEY_BLIND, identity, allowlist, Frame(KEY_BLIND, Key(0, 0, true), 0, []))
  {
    hide CanBeWrittenTwice;
    KeyBlindIsAuthentic();
    var k, l := Key(0, 0, true), Key(0, 1, true);
    var f := Frame(KEY_BLIND, k, 0, []);
    FrameParts(KEY_BLIND, k, 0, []);
    FrameParts(KEY_BLIND, l, 0, []);
    assert f == Frame(KEY_BLIND, l, 0, []);
    assert SealedAs(KEY_BLIND, k, f, []) && SealedAs(KEY_BLIND, l, f, []);
    ServedTwice(KEY_BLIND, identity, allowlist, k, l, f);
  }
}
