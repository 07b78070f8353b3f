/** IBM System/360 single-precision floating point, the sample format SEG-Y
    traditionally uses: bit 31 is the sign, bits 24-30 a base-16 exponent biased
    by 64, and bits 0-23 a fraction in [0, 1). The value is
    (-1)^sign * 16^(exponent-64) * fraction / 2^24. */
module IbmFloat {
  import opened Wrappers
  import opened Bytes
  import opened Values

  /** An unsigned 32-bit word, as struct's '>I' format yields it. */
  type Word32 = w: int | 0 <= w < 0x1_0000_0000

  /** Bit 31. */
  function SignBit(w: Word32): nat
  {
    w / 0x8000_0000
  }

  /** (i >> 24) & 0x7f: the biased exponent. */
  function Characteristic(w: Word32): nat
  {
    (w / 0x100_0000) % 0x80
  }

  /** ((i >> 24) & 0x7f) - 64: the unbiased base-16 exponent. */
  function Exponent(w: Word32): int
  {
    Characteristic(w) - 64
  }

  /** i & 0xffffff: the fraction's 24 bits. */
  function Fraction(w: Word32): nat
  {
    w % 0x100_0000
  }

  /** The word with the given sign bit, characteristic and fraction: the
      reference encoder that the three field extractors invert. */
  function IbmWord(sign: nat, characteristic: nat, fraction: nat): (w: Word32)
    requires sign < 2 && characteristic < 0x80 && fraction < 0x100_0000
    ensures SignBit(w) == sign && Characteristic(w) == characteristic && Fraction(w) == fraction
  {
    sign * 0x8000_0000 + characteristic * 0x100_0000 + fraction
  }

  /** Splitting a word into its fields and putting them back gives the word. */
  lemma IbmWordOfFields(w: Word32)
    ensures IbmWord(SignBit(w), Characteristic(w), Fraction(w)) == w
  {
    var top := w / 0x100_0000;
    assert w == top * 0x100_0000 + Fraction(w);
    assert top == SignBit(w) * 0x80 + Characteristic(w);
  }

  /** 16^n. */
  function Pow16Nat(n: nat): (r: nat)
    ensures r >= 1
  {
    if n == 0 then 1 else 16 * Pow16Nat(n - 1)
  }

  /** 16^k for any integer k, as Python's 16**k gives it. */
  function Pow16(k: int): (r: real)
    ensures r > 0.0
  {
    if k >= 0 then Pow16Nat(k) as real else 1.0 / (Pow16Nat(-k) as real)
  }

  /** One more power of sixteen is sixteen times as much. */
  lemma {:induction false} Pow16Step(k: int)
    ensures Pow16(k) == 16.0 * Pow16(k - 1)
  {
    if k < 0 {
      assert Pow16Nat(-k + 1) == 16 * Pow16Nat(-k);
    } else if k == 0 {
      assert Pow16Nat(1) == 16;
    }
  }

  /** Powers of sixteen grow with the exponent. */
  lemma {:induction false} Pow16Monotone(a: int, b: int)
    requires a <= b
    ensures Pow16(a) <= Pow16(b)
    decreases b - a
  {
    if a < b {
      Pow16Monotone(a, b - 1);
      Pow16Step(b);
    }
  }

  /** 2^24 = 16^6, the scale of the fraction field. */
  const FractionScale: real := 16777216.0

  /** A positive scale times a number in [0, 1) stays below the scale. */
  lemma ScaledBelow(p: real, q: real)
    requires p > 0.0 && 0.0 <= q < 1.0
    ensures 0.0 <= p * q < p
    ensures p * q == 0.0 <==> q == 0.0
  {
  }

  /** (i & 0xffffff)/float(0x1000000L): a 24-bit fraction as a number in [0, 1). */
  function FractionValue(fraction: nat): (q: real)
    requires fraction < 0x100_0000
    ensures 0.0 <= q < 1.0
    ensures q == 0.0 <==> fraction == 0
  {
    fraction as real / FractionScale
  }

  /** 16**exponent*fraction: the magnitude an unbiased exponent and a fraction
      field denote. */
  function Magnitude(exponent: int, fraction: nat): (m: real)
    requires fraction < 0x100_0000
    ensures 0.0 <= m < Pow16(exponent)
    ensures m == 0.0 <==> fraction == 0
  {
    var p := Pow16(exponent);
    var q := FractionValue(fraction);
    ScaledBelow(p, q);
    p * q
  }

  /** The value an IBM word denotes. Every such value is a power of two times a
      24-bit integer with exponent between -280 and 228, so an IEEE double holds
      it exactly and the real number is what Python computes. */
  function IbmToReal(w: Word32): (r: real)
    ensures r == 0.0 <==> Fraction(w) == 0
    ensures r < 0.0 <==> SignBit(w) == 1 && Fraction(w) != 0
    ensures -Pow16(Exponent(w)) < r < Pow16(Exponent(w))
  {
    var m := Magnitude(Exponent(w), Fraction(w));
    if SignBit(w) == 1 then -m else m
  }

  /** Whatever the word, its value lies strictly between -16^63 and 16^63, the
      bound the largest characteristic, 127, sets. */
  lemma IbmBound(w: Word32)
    ensures -Pow16(63) < IbmToReal(w) < Pow16(63)
  {
    Pow16Monotone(Exponent(w), 63);
  }

  /** Dividing out the power of sixteen and multiplying by 2^24 recovers the
      24-bit fraction: the magnitude is a scaled integer. */
  lemma MagnitudeScaled(exponent: int, fraction: nat)
    requires fraction < 0x100_0000
    ensures Magnitude(exponent, fraction) / Pow16(exponent) * FractionScale == fraction as real
  {
  }

  /** A normalised word has a non-zero leading hexadecimal digit in its fraction. */
  predicate Normalized(w: Word32)
  {
    Fraction(w) >= 0x10_0000
  }

  /** With a non-zero leading hexadecimal digit the magnitude lies in
      [16^(e-1), 16^e). */
  lemma NormalizedMagnitude(e: int, fraction: nat)
    requires 0x10_0000 <= fraction < 0x100_0000
    ensures Pow16(e - 1) <= Magnitude(e, fraction) < Pow16(e)
  {
    Pow16Step(e);
    SixteenthBelow(Pow16(e - 1), FractionValue(fraction));
    assert Pow16(e) == 16.0 * Pow16(e - 1);
    assert Magnitude(e, fraction) == Pow16(e) * FractionValue(fraction);
    assert Pow16(e - 1) <= (16.0 * Pow16(e - 1)) * FractionValue(fraction);
    assert Pow16(e - 1) <= Pow16(e) * FractionValue(fraction);
  }

  /** A number in [1/16, 1) scales sixteen times `b` to between `b` and 16b. */
  lemma SixteenthBelow(b: real, q: real)
    requires b > 0.0 && 0.0625 <= q
    ensures b <= (16.0 * b) * q
  {
    ScaleMonotone(16.0 * b, 0.0625, q);
  }

  /** Scaling by a positive number keeps the order. */
  lemma ScaleMonotone(p: real, a: real, b: real)
    requires p > 0.0 && a <= b
    ensures p * a <= p * b
  {
  }

  /** A product with a non-zero factor determines the other factor. */
  lemma MulCancel(p: real, x: real, y: real)
    requires p != 0.0 && p * x == p * y
    ensures x == y
  {
  }

  /** With normalised fractions, a smaller exponent means a smaller magnitude. */
  lemma MagnitudeOrdered(e1: int, f1: nat, e2: int, f2: nat)
    requires 0x10_0000 <= f1 < 0x100_0000 && 0x10_0000 <= f2 < 0x100_0000
    requires e1 < e2
    ensures Magnitude(e1, f1) < Magnitude(e2, f2)
  {
    NormalizedMagnitude(e1, f1);
    NormalizedMagnitude(e2, f2);
    Pow16Monotone(e1, e2 - 1);
  }

  /** Normalised fields with the same magnitude are the same fields. */
  lemma MagnitudeInjective(e1: int, f1: nat, e2: int, f2: nat)
    requires 0x10_0000 <= f1 < 0x100_0000 && 0x10_0000 <= f2 < 0x100_0000
    requires Magnitude(e1, f1) == Magnitude(e2, f2)
    ensures e1 == e2 && f1 == f2
  {
    if e1 < e2 {
      MagnitudeOrdered(e1, f1, e2, f2);
    } else if e2 < e1 {
      MagnitudeOrdered(e2, f2, e1, f1);
    } else {
      var p := Pow16(e1);
      assert p * FractionValue(f1) == p * FractionValue(f2);
      MulCancel(p, FractionValue(f1), FractionValue(f2));
      assert f1 as real == FractionValue(f1) * FractionScale;
    }
  }

  /** Distinct normalised words denote distinct numbers. */
  lemma NormalizedInjective(v: Word32, w: Word32)
    requires Normalized(v) && Normalized(w)
    requires IbmToReal(v) == IbmToReal(w)
    ensures v == w
  {
    assert SignBit(v) == SignBit(w);
    MagnitudeInjective(Exponent(v), Fraction(v), Exponent(w), Fraction(w));
    IbmWordOfFields(v);
    IbmWordOfFields(w);
  }

  /** struct.unpack('>I', s): exactly four bytes make one unsigned big-endian word. */
  function UnpackWord(b: seq<Byte>): (r: Result<Word32, Error>)
    ensures r.Success? <==> |b| == 4
    ensures r.Success? ==> ToBigEndian(r.value, 4) == b
  {
    if |b| != 4 then Failure(TruncatedData(0, 4, |b|))
    else
      assert Pow256(4) == 0x1_0000_0000;
      ToBigEndianOfBigEndian(b);
      Success(BigEndian(b))
  }

  /** ibm2ieee with its evident intent: unpack all four bytes as one big-endian
      unsigned word and evaluate it; anything but four bytes is a struct.error. */
  function Ibm2Ieee(buf: seq<Byte>): (r: Result<real, Error>)
    ensures r.Success? <==> |buf| == 4
    ensures r.Success? ==> exists w: Word32 :: ToBigEndian(w, 4) == buf && r.value == IbmToReal(w)
  {
    match UnpackWord(buf)
    case Failure(e) => Failure(e)
    case Success(w) => Success(IbmToReal(w))
  }

  /** ibm2ieee's unpack as written: struct.unpack('>I', ibm_float[0]) is handed
      the first character alone (an IndexError when there is none). */
  function IbmUnpackAsWritten(buf: seq<Byte>): (r: Result<Word32, Error>)
    ensures r.Failure?
    ensures r.error.IndexOutOfRange? <==> |buf| == 0
  {
    if |buf| == 0 then Failure(IndexOutOfRange(0, 0)) else UnpackWord([buf[0]])
  }

  /** ibm2ieee's arithmetic as written: the sign is taken from bit 32
      (mask 0x100000000L), which a 32-bit word never has set. */
  function IbmToRealAsWritten(i: Word32): (r: real)
    ensures r == IbmToReal(i) || r == -IbmToReal(i)
  {
    var m := Magnitude(Exponent(i), Fraction(i));
    if (i / 0x1_0000_0000) % 2 == 1 then -m else m
  }

  /** The bit-32 mask ignores the sign: every word reads as its magnitude, which
      differs from the intended value exactly for the negative ones. */
  lemma IbmSignIgnoredAsWritten(i: Word32)
    ensures IbmToRealAsWritten(i) == Magnitude(Exponent(i), Fraction(i)) >= 0.0
    ensures IbmToRealAsWritten(i) == IbmToReal(i) <==> SignBit(i) == 0 || Fraction(i) == 0
  {
    assert i / 0x1_0000_0000 == 0;
  }

  /** The IBM encoding of -1.0, 0xC1100000 (sign set, exponent 1, fraction 1/16),
      reads as 1.0 as written. */
  lemma MinusOneAsWritten()
    ensures IbmToReal(0xC110_0000) == -1.0
    ensures IbmToRealAsWritten(0xC110_0000) == 1.0
  {
    var w: Word32 := 0xC110_0000;
    assert SignBit(w) == 1 && Exponent(w) == 1 && Fraction(w) == 0x10_0000;
    assert Pow16(1) == 16.0;
    assert FractionValue(0x10_0000) == 0.0625;
    assert Magnitude(1, 0x10_0000) == 1.0;
    IbmSignIgnoredAsWritten(w);
  }

  /** No input gets past the unpack as written, while every four-byte input
      makes the corrected reader succeed. */
  lemma IbmUnpackAsWrittenFails(buf: seq<Byte>)
    ensures IbmUnpackAsWritten(buf).Failure?
    ensures |buf| == 4 ==> Ibm2Ieee(buf).Success?
  {
  }
}
