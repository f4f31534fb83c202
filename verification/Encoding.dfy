/** Bytes, fixed-width unsigned integers and the big-endian encoding that both
    the outer packet and the transport frame use for their numeric fields. */
module Encoding {

  type byte = b: int | 0 <= b < 256

  const UINT64_LIMIT: nat := 0x1_0000_0000_0000_0000

  /** Go's uint64: every arithmetic result stored in one is proved to fit. */
  type uint64 = n: nat | n < 0x1_0000_0000_0000_0000

  function Pow256(width: nat): (p: nat)
    ensures p > 0
  {
    if width == 0 then 1 else 256 * Pow256(width - 1)
  }

  /** The low `width` bytes of `v`, most significant first. */
  function BigEndian(v: nat, width: nat): (s: seq<byte>)
    ensures |s| == width
  {
    if width == 0 then [] else BigEndian(v / 256, width - 1) + [v % 256]
  }

  function FromBigEndian(s: seq<byte>): (v: nat)
    ensures v < Pow256(|s|)
  {
    if s == [] then 0 else FromBigEndian(s[..|s| - 1]) * 256 + s[|s| - 1]
  }

  /** Decoding recovers exactly the low bytes: a value that does not fit is
      truncated, as Go's integer conversions do. */
  lemma {:induction false} DecodeEncode(v: nat, width: nat)
    ensures FromBigEndian(BigEndian(v, width)) == v % Pow256(width)
  {
    if width > 0 {
      var s := BigEndian(v, width);
      assert s[..|s| - 1] == BigEndian(v / 256, width - 1);
      DecodeEncode(v / 256, width - 1);
      var p := Pow256(width - 1);
      SplitByte(v, p);
    }
  }

  lemma SplitByte(v: nat, p: nat)
    requires p > 0
    ensures v / 256 / p == v / (256 * p)
    ensures (v / 256) % p * 256 + v % 256 == v % (256 * p)
  {
    var q, r := v / 256 / p, v / 256 % p;
    var rest := r * 256 + v % 256;
    assert v == q * (256 * p) + rest by {
      assert v / 256 == q * p + r;
      assert v == (q * p + r) * 256 + v % 256;
      assert (q * p) * 256 == q * (256 * p);
    }
    DivModUnique(v, 256 * p, q, rest);
  }

  lemma DivModUnique(v: nat, m: nat, q: nat, r: nat)
    requires m > 0 && r < m && v == q * m + r
    ensures v / m == q && v % m == r
  {
    var d := v / m - q;
    assert v % m - r == -(d * m) by {
      assert v == (v / m) * m + v % m;
      assert (v / m) * m - q * m == d * m;
    }
  }

  /** The byte order: byte `i` counts multiples of 256 to the power of the number
      of bytes after it. */
  lemma {:induction false} BigEndianAt(v: nat, width: nat, i: nat)
    requires i < width
    ensures BigEndian(v, width)[i] == v / Pow256(width - 1 - i) % 256
  {
    if i < width - 1 {
      BigEndianAt(v / 256, width - 1, i);
      SplitByte(v, Pow256(width - 2 - i));
    }
  }

  /** A byte string is the encoding of its own value. */
  lemma {:induction false} EncodeDecode(s: seq<byte>)
    ensures BigEndian(FromBigEndian(s), |s|) == s
  {
    if s != [] {
      EncodeDecode(s[..|s| - 1]);
    }
  }

  lemma Pow256Values()
    ensures Pow256(2) == 0x1_0000
    ensures Pow256(8) == UINT64_LIMIT
  {
    assert Pow256(2) == 256 * Pow256(1);
    assert Pow256(4) == 256 * (256 * Pow256(2));
    assert Pow256(6) == 256 * (256 * Pow256(4));
    assert Pow256(8) == 256 * (256 * Pow256(6));
  }

  /** binary.BigEndian.Uint64 over the first eight bytes. */
  function Uint64At(s: seq<byte>): (v: uint64)
    requires |s| >= 8
    ensures BigEndian(v, 8) == s[..8]
  {
    Pow256Values();
    EncodeDecode(s[..8]);
    FromBigEndian(s[..8])
  }

  lemma BigEndianInjective(v: nat, w: nat, width: nat)
    requires v < Pow256(width) && w < Pow256(width)
    requires BigEndian(v, width) == BigEndian(w, width)
    ensures v == w
  {
    DecodeEncode(v, width);
    DecodeEncode(w, width);
  }

  lemma Uint64Injective(v: uint64, w: uint64)
    requires BigEndian(v, 8) == BigEndian(w, 8)
    ensures v == w
  {
    Pow256Values();
    BigEndianInjective(v, w, 8);
  }

  lemma Uint64RoundTrip(v: uint64, rest: seq<byte>)
    ensures Uint64At(BigEndian(v, 8) + rest) == v
  {
    Pow256Values();
    DecodeEncode(v, 8);
    assert (BigEndian(v, 8) + rest)[..8] == BigEndian(v, 8);
  }
}
