/** A plaintext through the whole pipeline: sealed by one channel, packed,
    unpacked, and opened by the matched channel. */
module EndToEnd {
  import opened Encoding
  import opened Wrappers
  import opened Cipher
  import opened ReplayWindow
  import opened Sessions
  import opened Channels
  import opened Handshake
  import opened Packets

  /** For every plaintext of at most 65255 bytes and every choice of random
      bytes, what the matched peer reads is the plaintext, if it finds the
      counter fresh; a larger plaintext is refused when it is packed. */
  method Deliver(a: Aead, sender: Channel, receiver: Channel, plaintext: seq<byte>, random: seq<byte>, now: int)
    returns (r: Option<Result<seq<byte>, Error>>)
    requires Authentic(a) && |random| == RANDOM_SIZE
    requires sender.Valid() && receiver.Valid() && sender.Repr() !! receiver.Repr()
    requires sender.State().current.sendNonce <= MAX_NONCE
    modifies sender.Repr() - {sender}, receiver.Repr() - {receiver}
    ensures r.Some? <==> |plaintext| <= 65255
    ensures r.Some? && Matched(old(sender.State()).current, old(receiver.State()).current) ==>
      r.value == if Fresh(old(receiver.State()).current.accepted, old(sender.State()).current.sendNonce)
                 then Ok(plaintext) else Err(Replay)
  {
    hide Decrypted, ChannelDecrypted, Fresh, Frame, Session.Valid;
    ghost var from, receiving := sender.State().current, receiver.State();
    FrameParts(a, from.sendKey, from.sendNonce, plaintext);
    var frame := sender.Encrypt(a, plaintext);
    assert frame == Ok(Frame(a, from.sendKey, from.sendNonce, plaintext));
    assert receiver.State() == receiving;
    MatchedOpens(a, receiving, frame.value, plaintext, now);
    hide *;
    var packet := NewDataPacket(frame.value);
    var arrived, ok := Packets.RoundTrip(packet, random);
    if !ok {
      return None;
    }
    var got := receiver.Decrypt(a, arrived.payload, now);
    r := Some(got);
  }

  lemma MatchedOpens(a: Aead, c: ChannelState, frame: seq<byte>, plaintext: seq<byte>, now: int)
    requires Authentic(a)
    ensures SealedAs(a, c.current.recvKey, frame, plaintext) ==>
      ChannelDecrypted(a, c, frame, now).1 ==
        if Fresh(c.current.accepted, Counter(frame)) then Ok(plaintext) else Err(Replay)
  {
    if SealedAs(a, c.current.recvKey, frame, plaintext) {
      DecryptedExactly(a, c.current, frame);
      assert SealedFor(a, c.current.recvKey, frame);
    }
  }
}
