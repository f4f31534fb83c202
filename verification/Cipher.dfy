/** The transport cipher the Noise library hands out, seen symbolically: an AEAD
    whose laws are stated here, and the library's CipherState as a key with a
    counter. The library's own code is not part of this model. */
module Cipher {
  import opened Encoding
  import opened Wrappers

  /** One direction of the key pair a handshake produces. A handshake is
      identified by the two ephemeral keys that took part in it. */
  datatype Key = Key(initiatorEph: nat, responderEph: nat, toResponder: bool)

  const TAG_SIZE: nat := 16

  /** The last nonce is reserved (Noise Protocol Framework, section 5.1). */
  const MAX_NONCE: nat := UINT64_LIMIT - 2

  datatype Aead = Aead(
    seal: (Key, uint64, seq<byte>) -> seq<byte>,
    open: (Key, uint64, seq<byte>) -> Option<seq<byte>>)

  /** Opening undoes sealing, opens nothing else, and a sealed text is one tag
      longer than its plaintext. */
  ghost predicate Authentic(a: Aead) {
    && (forall k, n, p :: a.open(k, n, a.seal(k, n, p)) == Some(p))
    && (forall k, n, c :: a.open(k, n, c).Some? ==> c == a.seal(k, n, a.open(k, n, c).value))
    && (forall k, n, p :: |a.seal(k, n, p)| == |p| + TAG_SIZE)
  }

  /** The laws can be met, and by ciphers of opposite kinds. This one writes the key's
      identity into the tag, so that no text is sealed under two keys. */
  const TRANSPARENT: Aead := Aead(TransparentSeal, TransparentOpen)

  const EPH_LIMIT: nat := 0x1_0000_0000

  function KeyTag(k: Key): (tag: seq<byte>)
    ensures |tag| == TAG_SIZE
  {
    BigEndian(k.initiatorEph * 2 + (if k.toResponder then 1 else 0), 8) + BigEndian(k.responderEph, 8)
  }

  function TransparentSeal(k: Key, n: uint64, p: seq<byte>): seq<byte> {
    p + KeyTag(k)
  }

  function TransparentOpen(k: Key, n: uint64, c: seq<byte>): Option<seq<byte>> {
    if |c| >= TAG_SIZE && c[|c| - TAG_SIZE..] == KeyTag(k) then Some(c[..|c| - TAG_SIZE]) else None
  }

  lemma SameParts<T>(a: seq<T>, b: seq<T>, c: seq<T>, d: seq<T>)
    requires a + b == c + d && |a| == |c|
    ensures a == c && b == d
  {
    assert a == (a + b)[..|a|] && c == (c + d)[..|c|];
    assert b == (a + b)[|a|..] && d == (c + d)[|c|..];
  }

  lemma KeyTagInjective(k: Key, l: Key)
    requires k.initiatorEph < EPH_LIMIT && k.responderEph < EPH_LIMIT
    requires l.initiatorEph < EPH_LIMIT && l.responderEph < EPH_LIMIT
    requires KeyTag(k) == KeyTag(l)
    ensures k == l
  {
    var x := k.initiatorEph * 2 + (if k.toResponder then 1 else 0);
    var y := l.initiatorEph * 2 + (if l.toResponder then 1 else 0);
    SameParts(BigEndian(x, 8), BigEndian(k.responderEph, 8), BigEndian(y, 8), BigEndian(l.responderEph, 8));
    Uint64Injective(x, y);
    Uint64Injective(k.responderEph, l.responderEph);
  }

  lemma TransparentIsAuthentic()
    ensures Authentic(TRANSPARENT)
  {
    var a := TRANSPARENT;
    forall k, n, p ensures a.open(k, n, a.seal(k, n, p)) == Some(p) {
      var c := p + KeyTag(k);
      assert c[..|c| - TAG_SIZE] == p && c[|c| - TAG_SIZE..] == KeyTag(k);
    }
    forall k, n, c | a.open(k, n, c).Some?
      ensures c == a.seal(k, n, a.open(k, n, c).value)
    {
      assert c == c[..|c| - TAG_SIZE] + c[|c| - TAG_SIZE..];
    }
  }

  lemma TransparentTellsKeys(k: Key, l: Key, n: uint64, p: seq<byte>, q: seq<byte>)
    requires k.initiatorEph < EPH_LIMIT && k.responderEph < EPH_LIMIT
    requires l.initiatorEph < EPH_LIMIT && l.responderEph < EPH_LIMIT
    requires TRANSPARENT.seal(k, n, p) == TRANSPARENT.seal(l, n, q)
    ensures k == l && p == q
  {
    assert |p + KeyTag(k)| == |q + KeyTag(l)|;
    SameParts(p, KeyTag(k), q, KeyTag(l));
    KeyTagInjective(k, l);
  }

  /** This one ignores the key, as far from committing to it as a cipher can be:
      the laws do not rule out texts that open under several keys. */
  const KEY_BLIND: Aead := Aead(BlindSeal, BlindOpen)

  const BLIND_TAG: seq<byte> := BigEndian(0, TAG_SIZE)

  function BlindSeal(k: Key, n: uint64, p: seq<byte>): seq<byte> {
    p + BLIND_TAG
  }

  function BlindOpen(k: Key, n: uint64, c: seq<byte>): Option<seq<byte>> {
    if |c| >= TAG_SIZE && c[|c| - TAG_SIZE..] == BLIND_TAG then Some(c[..|c| - TAG_SIZE]) else None
  }

  lemma KeyBlindIsAuthentic()
    ensures Authentic(KEY_BLIND)
  {
    var a := KEY_BLIND;
    forall k, n, p ensures a.open(k, n, a.seal(k, n, p)) == Some(p) {
      var c := p + BLIND_TAG;
      assert c[..|c| - TAG_SIZE] == p && c[|c| - TAG_SIZE..] == BLIND_TAG;
    }
    forall k, n, c | a.open(k, n, c).Some?
      ensures c == a.seal(k, n, a.open(k, n, c).value)
    {
      assert c == c[..|c| - TAG_SIZE] + c[|c| - TAG_SIZE..];
    }
  }

  /** flynn/noise's CipherState: encrypting uses and advances the counter;
      decrypting uses it and advances it only on success. */
  class CipherState {
    const key: Key
    var nonce: uint64

    constructor (key: Key)
      ensures this.key == key && nonce == 0
    {
      this.key := key;
      nonce := 0;
    }

    method Encrypt(a: Aead, plaintext: seq<byte>) returns (r: Option<seq<byte>>)
      modifies this
      ensures old(nonce) > 18446744073709551614 ==> r == None && nonce == old(nonce)
      ensures old(nonce) <= 18446744073709551614 ==>
        r == Some(a.seal(key, old(nonce), plaintext)) && nonce == old(nonce) + 1
    {
      if nonce > MAX_NONCE {
        return None;
      }
      r := Some(a.seal(key, nonce, plaintext));
      nonce := nonce + 1;
    }

    method SetNonce(n: uint64)
      modifies this
      ensures nonce == n
    {
      nonce := n;
    }

    method Decrypt(a: Aead, ciphertext: seq<byte>) returns (r: Option<seq<byte>>)
      modifies this
      ensures r == if old(nonce) > MAX_NONCE then None else a.open(key, old(nonce), ciphertext)
      ensures nonce == if r.Some? then old(nonce) + 1 else old(nonce)
    {
      if nonce > MAX_NONCE {
        return None;
      }
      r := a.open(key, nonce, ciphertext);
      if r.Some? {
        nonce := nonce + 1;
      }
    }
  }
}
