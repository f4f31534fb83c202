/** The two-message handshake, symbolically. A message is what it authenticates:
    which ephemeral and static keys it was made from and for. The Noise library
    itself is not part of this model. */
module Handshake {
  import opened Wrappers
  import opened Cipher
  import opened Sessions

  datatype Payload =
    | Msg1(initiatorEph: nat, initiatorStatic: nat, responderStatic: nat)
    | Msg2(answeredEph: nat, responderEph: nat, signedBy: nat)
    | Garbage

  /** The initiator sends with the first cipher state and receives with the second. */
  function InitiatorSession(i: nat, r: nat): SessionState {
    SessionState(Key(i, r, true), 0, Key(i, r, false), 0, {})
  }

  /** The responder uses the same two the other way round. */
  function ResponderSession(i: nat, r: nat): SessionState {
    SessionState(Key(i, r, false), 0, Key(i, r, true), 0, {})
  }

  /** Each side receives with the key the other sends with. */
  predicate Matched(x: SessionState, y: SessionState) {
    x.sendKey == y.recvKey && x.recvKey == y.sendKey
  }

  predicate SameKeys(x: SessionState, y: SessionState) {
    x.sendKey == y.sendKey && x.recvKey == y.recvKey
  }

  class Initiator {
    const eph: nat
    const identity: nat
    const serverStatic: nat
    var finished: bool

    constructor (eph: nat, identity: nat, serverStatic: nat)
      ensures this.eph == eph && this.identity == identity && this.serverStatic == serverStatic && !finished
    {
      this.eph, this.identity, this.serverStatic := eph, identity, serverStatic;
      finished := false;
    }

    method WriteMsg1() returns (msg: Payload)
      ensures msg == Msg1(eph, identity, serverStatic)
    {
      msg := Msg1(eph, identity, serverStatic);
    }

    /** The payload completes this handshake: it answers this initiator's own
        first message, and only the pinned server could have made it. A finished
        handshake reads nothing more; a failed read leaves it reusable. */
    predicate Completes(msg: Payload)
      reads this
    {
      !finished && msg.Msg2? && msg.answeredEph == eph && msg.signedBy == serverStatic
    }

    method ReadMsg2(msg: Payload) returns (s: Session?)
      modifies this
      ensures s != null <==>
        old(!finished) && msg.Msg2? && msg.answeredEph == eph && msg.signedBy == serverStatic
      ensures finished == (old(finished) || s != null)
      ensures s != null ==> s.Valid() && fresh(s.Repr()) && s.State() == InitiatorSession(eph, msg.responderEph)
    {
      if finished || !msg.Msg2? || msg.answeredEph != eph || msg.signedBy != serverStatic {
        return null;
      }
      finished := true;
      var cs1 := new CipherState(Key(eph, msg.responderEph, true));
      var cs2 := new CipherState(Key(eph, msg.responderEph, false));
      s := new Session(cs1, cs2);
    }
  }

  class Responder {
    const eph: nat
    const identity: nat
    var peer: Option<(nat, nat)>

    constructor (eph: nat, identity: nat)
      ensures this.eph == eph && this.identity == identity && peer == None
    {
      this.eph, this.identity := eph, identity;
      peer := None;
    }

    /** Reads a first message addressed to this server's static key, and learns
        the client's. */
    method ReadMsg1(msg: Payload) returns (client: Option<nat>)
      requires peer == None
      modifies this
      ensures client == if msg.Msg1? && msg.responderStatic == identity then Some(msg.initiatorStatic) else None
      ensures peer == if client.Some? then Some((msg.initiatorEph, msg.initiatorStatic)) else None
    {
      if !msg.Msg1? || msg.responderStatic != identity {
        return None;
      }
      peer := Some((msg.initiatorEph, msg.initiatorStatic));
      return Some(msg.initiatorStatic);
    }

    method WriteMsg2() returns (msg: Payload, s: Session)
      requires peer.Some?
      ensures msg == Msg2(peer.value.0, eph, identity)
      ensures s.Valid() && fresh(s.Repr()) && s.State() == ResponderSession(peer.value.0, eph)
    {
      msg := Msg2(peer.value.0, eph, identity);
      var cs1 := new CipherState(Key(peer.value.0, eph, true));
      var cs2 := new CipherState(Key(peer.value.0, eph, false));
      s := new Session(cs2, cs1);
    }
  }

  /** A whole handshake between a client that pins `pinned` and a server whose
      identity is `server`: it completes exactly when the pin is right, and then
      the two sessions are matched and the server has learnt the client's key. */
  method RunHandshake(i: nat, r: nat, client: nat, pinned: nat, server: nat)
    returns (c: Session?, s: Session?, learnt: Option<nat>)
    ensures c != null <==> pinned == server
    ensures s != null <==> pinned == server
    ensures learnt == if pinned == server then Some(client) else None
    ensures c != null ==> s != null && c.Valid() && s.Valid() && Matched(c.State(), s.State())
  {
    c, s := null, null;
    var ini := new Initiator(i, client, pinned);
    var resp := new Responder(r, server);
    var m1 := ini.WriteMsg1();
    learnt := resp.ReadMsg1(m1);
    if learnt == None {
      return;
    }
    var m2, made := resp.WriteMsg2();
    c := ini.ReadMsg2(m2);
    s := made;
  }
}
