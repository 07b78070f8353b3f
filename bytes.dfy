/** Fixed-width big-endian integers over a byte string: what Python's
    `struct.unpack` does for the '>' formats 'h', 'H', 'l', 'L', 'B' and 'I'. */
module Bytes {

  /** One octet of the file. */
  type Byte = x: int | 0 <= x < 256

  /** 256^n, the number of distinct n-byte patterns. */
  function Pow256(n: nat): (r: nat)
    ensures r >= 1
  {
    if n == 0 then 1 else 256 * Pow256(n - 1)
  }

  /** 2^(8n-1): the first unsigned n-byte value whose sign bit is set. */
  function HalfRange(n: nat): (r: nat)
    requires n >= 1
    ensures 2 * r == Pow256(n)
  {
    128 * Pow256(n - 1)
  }

  /** The unsigned integer that `s` spells, most-significant byte first. */
  function BigEndian(s: seq<Byte>): (r: nat)
    ensures r < Pow256(|s|)
  {
    if |s| == 0 then 0 else BigEndian(s[..|s| - 1]) * 256 + s[|s| - 1]
  }

  /** The n bytes that spell `v` most-significant byte first: the reference
      encoder that `BigEndian` inverts. */
  function ToBigEndian(v: nat, n: nat): (s: seq<Byte>)
    requires v < Pow256(n)
    ensures |s| == n
  {
    if n == 0 then [] else ToBigEndian(v / 256, n - 1) + [v % 256]
  }

  /** Reading back what was written gives the value again. */
  lemma {:induction false} BigEndianOfToBigEndian(v: nat, n: nat)
    requires v < Pow256(n)
    ensures BigEndian(ToBigEndian(v, n)) == v
  {
    if n > 0 {
      var s := ToBigEndian(v, n);
      assert s[..n - 1] == ToBigEndian(v / 256, n - 1);
      BigEndianOfToBigEndian(v / 256, n - 1);
    }
  }

  /** Writing back what was read gives the same bytes: decoding loses nothing. */
  lemma {:induction false} ToBigEndianOfBigEndian(s: seq<Byte>)
    ensures ToBigEndian(BigEndian(s), |s|) == s
  {
    if |s| > 0 {
      var init := s[..|s| - 1];
      ToBigEndianOfBigEndian(init);
      assert BigEndian(s) / 256 == BigEndian(init);
      assert BigEndian(s) % 256 == s[|s| - 1];
    }
  }

  /** The first byte carries weight 256^(n-1): the view of `BigEndian` from the front. */
  lemma {:induction false} BigEndianFront(s: seq<Byte>)
    requires |s| >= 1
    ensures BigEndian(s) == s[0] * Pow256(|s| - 1) + BigEndian(s[1..])
  {
    var n := |s|;
    if n == 1 {
      assert s[..0] == [] && s[1..] == [];
    } else {
      var init, rest := s[..n - 1], s[1..];
      BigEndianFront(init);
      assert init[1..] == rest[..n - 2];
      assert init[0] == s[0] && rest[n - 2] == s[n - 1];
      assert BigEndian(rest) == BigEndian(init[1..]) * 256 + s[n - 1];
      Regroup(s[0], Pow256(n - 2), BigEndian(init[1..]), s[n - 1]);
    }
  }

  /** (a*p + r)*256 + x == a*(256p) + (256r + x). */
  lemma Regroup(a: int, p: int, r: int, x: int)
    ensures (a * p + r) * 256 + x == a * (256 * p) + (r * 256 + x)
  {
  }

  /** The n-byte unsigned pattern that holds the signed value `v` (two's complement). */
  function FromTwosComplement(v: int, n: nat): (u: nat)
    requires n >= 1 && -(HalfRange(n) as int) <= v < HalfRange(n)
    ensures u < Pow256(n)
    ensures v >= 0 <==> u < HalfRange(n)
  {
    if v < 0 then v + Pow256(n) else v
  }

  /** The signed reading of an n-byte unsigned value `u` (two's complement): the
      one value in [-2^(8n-1), 2^(8n-1)) whose n-byte pattern is `u`. */
  function TwosComplement(u: nat, n: nat): (v: int)
    requires n >= 1 && u < Pow256(n)
    ensures -(HalfRange(n) as int) <= v < HalfRange(n)
    ensures FromTwosComplement(v, n) == u
    ensures v < 0 <==> u >= HalfRange(n)
  {
    if u < HalfRange(n) then u else u - Pow256(n)
  }

  /** Scaling both sides of `a <= b` by the same natural number keeps the order. */
  lemma MulMonotone(a: nat, b: nat, c: nat)
    requires a <= b
    ensures a * c <= b * c
  {
  }

  /** A signed big-endian value is negative exactly when bit 7 of its first byte is set. */
  lemma SignedNegativeIffTopBit(s: seq<Byte>)
    requires |s| >= 1
    ensures TwosComplement(BigEndian(s), |s|) < 0 <==> s[0] >= 128
  {
    var n := |s|;
    BigEndianFront(s);
    var rest := BigEndian(s[1..]);
    assert rest < Pow256(n - 1);
    if s[0] >= 128 {
      MulMonotone(128, s[0], Pow256(n - 1));
    } else {
      MulMonotone(s[0], 127, Pow256(n - 1));
    }
  }
}
