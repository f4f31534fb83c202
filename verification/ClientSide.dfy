/** The client's side of the periodic rehandshake: at most one pending
    initiator, and the channel it will rotate. */
module ClientSide {
  import opened Wrappers
  import opened Channels
  import opened Handshake

  class Client {
    const identity: nat
    const serverStatic: nat
    var channel: Channel?
    var pending: Initiator?

    ghost predicate Valid()
      reads this, if channel == null then {} else {channel}
      reads if channel == null then {} else channel.Repr()
      reads if pending == null then {} else {pending}
    {
      && (channel != null ==> this !in channel.Repr() && pending !in channel.Repr() && channel.Valid())
      && (pending != null ==> !pending.finished && pending.serverStatic == serverStatic)
    }

    constructor (identity: nat, serverStatic: nat)
      ensures Valid() && channel == null && pending == null
      ensures this.identity == identity && this.serverStatic == serverStatic
    {
      this.identity, this.serverStatic := identity, serverStatic;
      channel, pending := null, null;
    }

    /** The blocking first handshake, given the fresh ephemeral key drawn for it
        and the payload of the first packet that came back, if any did. */
    method Handshake(eph: nat, reply: Option<Payload>) returns (sent: Payload, ok: bool)
      requires Valid() && channel == null
      modifies this
      ensures Valid() && pending == old(pending)
      ensures sent == Msg1(eph, identity, serverStatic)
      ensures ok <==> reply.Some? && reply.value.Msg2? && reply.value.answeredEph == eph
                      && reply.value.signedBy == serverStatic
      ensures !ok ==> channel == null
      ensures ok ==> channel != null && fresh(channel.Repr())
                     && channel.State() ==
                          Established(InitiatorSession(eph, reply.value.responderEph), DEFAULT_REKEY_GRACE)
    {
      var ini := new Initiator(eph, identity, serverStatic);
      sent := ini.WriteMsg1();
      if reply == None {
        return sent, false;
      }
      var s := ini.ReadMsg2(reply.value);
      if s == null {
        return sent, false;
      }
      channel := new Channel(s, DEFAULT_REKEY_GRACE);
      ok := true;
    }

    /** Starts a rehandshake; an initiator still pending is forgotten. */
    method StartRehandshake(eph: nat) returns (sent: Payload)
      requires Valid()
      modifies this`pending
      ensures Valid() && channel == old(channel)
      ensures pending != null && fresh(pending) && pending.eph == eph
      ensures sent == Msg1(eph, identity, serverStatic)
    {
      var ini := new Initiator(eph, identity, serverStatic);
      sent := ini.WriteMsg1();
      pending := ini;
    }

    /** Completes the rehandshake the payload answers: exactly then the pending
        initiator is consumed and the channel rotates to the new session. */
    method CompleteRehandshake(msg: Payload, now: int)
      requires Valid() && channel != null
      modifies this`pending, pending, channel
      ensures Valid() && channel == old(channel)
      ensures var done := && old(pending) != null && msg.Msg2?
                          && msg.answeredEph == old(pending).eph && msg.signedBy == serverStatic;
        && pending == (if done then null else old(pending))
        && channel.State() ==
             (if done then Rotated(old(channel.State()), InitiatorSession(old(pending).eph, msg.responderEph), now)
              else old(channel.State()))
    {
      var ini := pending;
      if ini == null {
        return;
      }
      var s := ini.ReadMsg2(msg);
      if s == null {
        return;
      }
      pending := null;
      channel.Rotate(s, now);
    }
  }
}
