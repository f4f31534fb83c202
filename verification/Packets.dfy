/** The outer packet: eight random bytes, the type, the payload's length, the
    payload, and up to 64 bytes of random padding. */
module Packets {
  import opened Encoding
  import opened Wrappers

  const TYPE_HANDSHAKE: byte := 0x01
  const TYPE_DATA: byte := 0x02
  const TYPE_PING: byte := 0x03

  const MAX_PACKET_SIZE: nat := 65535
  const MAX_PADDING_SIZE: nat := 64
  const HEADER_SIZE: nat := 11
  const RANDOM_SIZE: nat := 73

  datatype UnmarshalError = TooSmall | BadLength

  function PaddingSize(random: seq<byte>): (n: nat)
    requires |random| == RANDOM_SIZE
    ensures n <= MAX_PADDING_SIZE
  {
    random[8] % (MAX_PADDING_SIZE + 1)
  }

  /** The layout, as a byte string. */
  function Layout(typ: byte, payload: seq<byte>, random: seq<byte>): seq<byte>
    requires |random| == RANDOM_SIZE
  {
    random[..8] + [typ] + BigEndian(|payload|, 2) + payload + random[9..9 + PaddingSize(random)]
  }

  method Copy(dst: array<byte>, at: nat, src: seq<byte>)
    requires at + |src| <= dst.Length
    modifies dst
    ensures dst[..] == old(dst[..at]) + src + old(dst[at + |src|..])
  {
    forall i | 0 <= i < |src| {
      dst[at + i] := src[i];
    }
  }

  class Packet {
    var typ: byte
    var payload: seq<byte>

    constructor (typ: byte, payload: seq<byte>)
      ensures this.typ == typ && this.payload == payload
    {
      this.typ, this.payload := typ, payload;
    }

    /** Serialises the packet with the 73 random bytes drawn for it, unless the
        payload is larger than the format allows. */
    method Marshal(random: seq<byte>) returns (r: Option<array<byte>>)
      requires |random| == RANDOM_SIZE
      ensures r.None? <==> |payload| > 65279
      ensures r.Some? ==> fresh(r.value) && r.value[..] == Layout(typ, payload, random)
    {
      var payloadLen := |payload|;
      if payloadLen > MAX_PACKET_SIZE - 256 {
        return None;
      }
      var paddingSize := PaddingSize(random);
      var data := new byte[8 + 1 + 2 + payloadLen + paddingSize](_ => 0);
      Copy(data, 0, random[..8]);
      data[8] := typ;
      assert data[..9] == random[..8] + [typ];
      Copy(data, 9, BigEndian(payloadLen, 2));
      assert data[..11] == random[..8] + [typ] + BigEndian(payloadLen, 2);
      Copy(data, 11, payload);
      assert data[..11 + payloadLen] == random[..8] + [typ] + BigEndian(payloadLen, 2) + payload;
      if paddingSize > 0 {
        Copy(data, 11 + payloadLen, random[9..9 + paddingSize]);
      }
      assert data[..] == data[..11 + payloadLen] + data[11 + payloadLen..];
      return Some(data);
    }

    /** Reads a packet back. A length that does not fit is reported after the
        type was already assigned; the payload is then left alone. */
    method Unmarshal(data: seq<byte>) returns (r: Option<UnmarshalError>)
      modifies this
      ensures r == UnmarshalResult(data)
      ensures r == Some(TooSmall) <==> |data| < 11
      ensures r == Some(BadLength) <==> 11 <= |data| < 11 + data[9] as int * 256 + data[10] as int
      ensures typ == if |data| < HEADER_SIZE then old(typ) else data[8]
      ensures payload == if r.Some? then old(payload) else data[11..11 + ClaimedLength(data)]
    {
      if |data| < HEADER_SIZE {
        return Some(TooSmall);
      }
      TwoBytes(data[9..11]);
      typ := data[8];
      var payloadLen := FromBigEndian(data[9..11]);
      if |data| < 11 + payloadLen {
        return Some(BadLength);
      }
      payload := data[11..11 + payloadLen];
      return None;
    }
  }

  method NewHandshakePacket(publicKey: seq<byte>) returns (p: Packet)
    ensures fresh(p) && p.typ == 1 && p.payload == publicKey
  {
    p := new Packet(TYPE_HANDSHAKE, publicKey);
  }

  method NewDataPacket(data: seq<byte>) returns (p: Packet)
    ensures fresh(p) && p.typ == 2 && p.payload == data
  {
    p := new Packet(TYPE_DATA, data);
  }

  /** Its payload spells "ping". */
  method NewPingPacket() returns (p: Packet)
    ensures fresh(p) && p.typ == 3 && p.payload == [112, 105, 110, 103]
  {
    p := new Packet(TYPE_PING, [112, 105, 110, 103]);
  }

  function ClaimedLength(data: seq<byte>): nat
    requires |data| >= HEADER_SIZE
  {
    FromBigEndian(data[9..11])
  }

  function UnmarshalResult(data: seq<byte>): (r: Option<UnmarshalError>)
    ensures r.None? ==> |data| >= HEADER_SIZE && |data| >= HEADER_SIZE + ClaimedLength(data)
  {
    if |data| < HEADER_SIZE then Some(TooSmall)
    else if |data| < HEADER_SIZE + ClaimedLength(data) then Some(BadLength)
    else None
  }

  lemma TwoBytes(s: seq<byte>)
    requires |s| == 2
    ensures FromBigEndian(s) == s[0] as int * 256 + s[1] as int
  {
    assert FromBigEndian(s[..1]) == FromBigEndian(s[..1][..0]) * 256 + s[0];
  }

  /** Where the parts of a marshalled packet are; nothing was truncated. */
  lemma LayoutParts(typ: byte, payload: seq<byte>, random: seq<byte>)
    requires |random| == RANDOM_SIZE && |payload| <= MAX_PACKET_SIZE - 256
    ensures var data := Layout(typ, payload, random);
      && |data| == 11 + |payload| + random[8] % 65
      && data[..8] == random[..8]
      && data[8] == typ
      && data[9] as int * 256 + data[10] as int == |payload| == ClaimedLength(data)
      && data[11..11 + |payload|] == payload
      && data[11 + |payload|..] == random[9..9 + random[8] % 65]
  {
    hide BigEndian, FromBigEndian, Pow256;
    var data := Layout(typ, payload, random);
    assert data[9..11] == BigEndian(|payload|, 2);
    TwoBytes(data[9..11]);
    DecodeEncode(|payload|, 2);
    Pow256Values();
    assert data[11..11 + |payload|] == payload;
  }

  /** Every datagram is between 11 and 75 bytes longer than its payload, and so
      always fits the receive buffer. */
  lemma DatagramBounds(typ: byte, payload: seq<byte>, random: seq<byte>)
    requires |random| == RANDOM_SIZE && |payload| <= MAX_PACKET_SIZE - 256
    ensures var n := |Layout(typ, payload, random)|;
      |payload| + 11 <= n <= |payload| + 75 && n <= 65354 && n <= MAX_PACKET_SIZE
  {
    LayoutParts(typ, payload, random);
  }

  /** Unmarshalling what Marshal produced gives back type and payload, whatever
      the random bytes were. */
  method RoundTrip(p: Packet, random: seq<byte>) returns (q: Packet, ok: bool)
    requires |random| == RANDOM_SIZE
    ensures ok <==> |p.payload| <= MAX_PACKET_SIZE - 256
    ensures ok ==> q.typ == p.typ && q.payload == p.payload
  {
    q := new Packet(0, []);
    var data := p.Marshal(random);
    if data == None {
      return q, false;
    }
    LayoutParts(p.typ, p.payload, random);
    var err := q.Unmarshal(data.value[..]);
    ok := err == None;
  }
}
