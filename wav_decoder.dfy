/**
 * Conversion of one raw WAV sample into a normalised value: linear PCM at
 * 8, 16 and 24 bits, and the A-law and mu-law companded encodings of
 * ITU-T G.711 with this decoder's own scaling and offset.
 *
 * Every decoder is an integer numerator divided by a power of two; the
 * numerators fit the float mantissa, so the division is exact and the
 * model uses `real`.
 */
module WavDecoder {
  import opened Common

  /** A byte of the file as the code uses it after `& 0xff`. */
  type Byte = b: int | 0 <= b < 256

  const FORMAT_ID_LINEAR_PCM := 1
  const FORMAT_ID_ALAW := 6
  const FORMAT_ID_MLAW := 7

  datatype Decoder = Linear8 | Linear16 | Linear24 | ALaw | MuLaw

  /** Number of bytes a decoder reads at its offset. */
  function Width(d: Decoder): nat
  {
    match d
    case Linear16 => 2
    case Linear24 => 3
    case _ => 1
  }

  /** The divisor that normalises a decoder's numerator. */
  function Scale(d: Decoder): (r: nat)
    ensures r >= 1
  {
    match d
    case Linear8 => 0x80
    case Linear16 => 0x8000
    case Linear24 => 0x80_0000
    case ALaw => 4096
    case MuLaw => 8192
  }

  /**
   * Every divisor is a power of two: the full scale of a signed sample of
   * the decoder's width for linear PCM, 2^12 for A-law and 2^13 for µ-law.
   */
  lemma ScaleIsPow2(d: Decoder)
    ensures Scale(d) == Pow2(if IsLinear(d) then 8 * Width(d) - 1 else if d == ALaw then 12 else 13)
  {
    Pow2Small();
    Pow2Values();
    Pow2Add(8, 4);
    Pow2Add(8, 5);
  }

  predicate IsLinear(d: Decoder)
  {
    d == Linear8 || d == Linear16 || d == Linear24
  }

  /**
   * The decoder for a format id and a byte count per sample; None stands
   * for the unsupported-format exception.
   */
  function GetDecoder(formatId: int, bytes: int): (r: Option<Decoder>)
    ensures r.Some? <==>
              (formatId == FORMAT_ID_LINEAR_PCM && 1 <= bytes <= 3)
              || formatId == FORMAT_ID_ALAW || formatId == FORMAT_ID_MLAW
    ensures r.Some? && formatId == FORMAT_ID_LINEAR_PCM ==>
              IsLinear(r.value) && Width(r.value) == bytes
    ensures formatId == FORMAT_ID_ALAW ==> r == Some(ALaw)
    ensures formatId == FORMAT_ID_MLAW ==> r == Some(MuLaw)
  {
    if formatId == FORMAT_ID_LINEAR_PCM then
      if bytes == 1 then Some(Linear8)
      else if bytes == 2 then Some(Linear16)
      else if bytes == 3 then Some(Linear24)
      else None
    else if formatId == FORMAT_ID_ALAW then Some(ALaw)
    else if formatId == FORMAT_ID_MLAW then Some(MuLaw)
    else None
  }

  /** The value of a Java `byte`: bytes from 0x80 up are negative. */
  function Signed(b: Byte): int
  {
    if b < 0x80 then b else b - 0x100
  }

  /** The n-bit two's-complement reading of an unsigned value u < 2^n. */
  function TwosComplement(u: nat, n: nat): int
    requires n >= 1
  {
    if u < Pow2(n - 1) then u else u - Pow2(n)
  }

  /**
   * A-law segment magnitude: segment 0 is linear, segment e > 0 starts at
   * 33 << (e - 1) and has step 2 << (e - 1).
   */
  function ALawMagnitude(expo: int, frac: int): int
    requires 0 <= expo < 8 && 0 <= frac < 16
  {
    if expo == 0 then 2 * frac + 1 else (2 * frac + 33) * Pow2(expo - 1)
  }

  /**
   * The A-law numerator of a code. The Java code XORs the sign-extended
   * byte with 0x55 and only looks at its low eight bits, so the eight-bit
   * XOR is the same.
   */
  function ALawNumerator(code: bv8): int
  {
    var src := code ^ 0x55;
    var isMinus := src & 0x80 != 0;
    var frac := (src & 0x0f) as int;
    var expo := ((src & 0x70) >> 4) as int;
    ALawValue(isMinus, expo, frac)
  }

  /** The signed A-law numerator of a sign and a segment magnitude: negative exactly when the sign bit is set. */
  function ALawValue(minus: bool, expo: int, frac: int): (n: int)
    requires 0 <= expo < 8 && 0 <= frac < 16
    ensures n < 0 <==> minus
    ensures -4032 <= n <= 4031
  {
    ALawMagnitudeRange(expo, frac);
    var mag := ALawMagnitude(expo, frac);
    if minus then -mag else mag - 1
  }

  /** mu-law segment magnitude: ((2m + 33) << e) - 33. */
  function MuLawMagnitude(expo: int, frac: int): int
    requires 0 <= expo < 8 && 0 <= frac < 16
  {
    (2 * frac + 33) * Pow2(expo) - 33
  }

  /** The mu-law numerator of a code (after XOR with 0xff). */
  function MuLawNumerator(code: bv8): int
  {
    var src := code ^ 0xff;
    var isMinus := src & 0x80 != 0;
    var expo := ((src & 0x70) >> 4) as int;
    var frac := (src & 0x0f) as int;
    MuLawValue(isMinus, expo, frac)
  }

  /** The signed mu-law numerator of a sign and a segment magnitude: negative exactly when the sign bit is set. */
  function MuLawValue(minus: bool, expo: int, frac: int): (n: int)
    requires 0 <= expo < 8 && 0 <= frac < 16
    ensures n < 0 <==> minus
    ensures -8032 <= n <= 8031
  {
    MuLawMagnitudeRange(expo, frac);
    var mag := MuLawMagnitude(expo, frac);
    if minus then -mag - 1 else mag
  }

  /**
   * The integer that `decode` divides by Scale(d). For 16 and 24 bits the
   * Java expression ORs a sign-extended high byte shifted left with the
   * lower bytes; the shifted part has its low bits clear, so the OR is a sum.
   */
  function Numerator(d: Decoder, buf: seq<Byte>, off: nat): int
    requires off + Width(d) <= |buf|
  {
    match d
    case Linear8 => buf[off] - 0x80
    case Linear16 => Signed(buf[off + 1]) * 0x100 + buf[off]
    case Linear24 => Signed(buf[off + 2]) * 0x1_0000 + (buf[off + 1] as int) * 0x100 + buf[off]
    case ALaw => ALawNumerator(buf[off] as bv8)
    case MuLaw => MuLawNumerator(buf[off] as bv8)
  }

  /**
   * `decode(buf, off)`: the numerator over the decoder's scale, written out
   * per decoder. Every decoded sample lies in [-1, 1).
   */
  function Decode(d: Decoder, buf: seq<Byte>, off: nat): (r: real)
    requires off + Width(d) <= |buf|
    ensures -1.0 <= r < 1.0
  {
    NumeratorRange(d, buf, off);
    var n := Numerator(d, buf, off) as real;
    match d
    case Linear8 => n / 128.0
    case Linear16 => n / 32768.0
    case Linear24 => n / 8388608.0
    case ALaw => n / 4096.0
    case MuLaw => n / 8192.0
  }

  /** Every decoded sample is its numerator scaled down exactly: the per-decoder divisors are Scale(d). */
  lemma DecodeScaled(d: Decoder, buf: seq<Byte>, off: nat)
    requires off + Width(d) <= |buf|
    ensures Decode(d, buf, off) * Scale(d) as real == Numerator(d, buf, off) as real
  {
  }

  /** `decode(buf, off)` looks at the Width(d) bytes from off and at nothing else. */
  lemma DecodeLocal(d: Decoder, s: seq<Byte>, o: nat, t: seq<Byte>, p: nat)
    requires o + Width(d) <= |s| && p + Width(d) <= |t|
    requires forall i :: o <= i < o + Width(d) ==> s[i] == t[p + (i - o)]
    ensures Decode(d, s, o) == Decode(d, t, p)
  {
    assert s[o] == t[p];
    if Width(d) >= 2 {
      assert s[o + 1] == t[p + 1];
    }
    if Width(d) >= 3 {
      assert s[o + 2] == t[p + 2];
    }
  }

  // ---------------------------------------------------------------------
  // Linear PCM

  lemma Linear8Facts(b: Byte)
    ensures -128 <= Numerator(Linear8, [b], 0) <= 127
    ensures b == 0x80 ==> Decode(Linear8, [b], 0) == 0.0
    ensures b == 0x00 ==> Decode(Linear8, [b], 0) == -1.0
  {
  }

  /** The 16-bit numerator is the little-endian two's-complement value. */
  lemma Linear16IsTwosComplement(buf: seq<Byte>, off: nat)
    requires off + 2 <= |buf|
    ensures Numerator(Linear16, buf, off) == TwosComplement(buf[off] + 0x100 * (buf[off + 1] as int), 16)
    ensures -0x8000 <= Numerator(Linear16, buf, off) < 0x8000
  {
    Pow2Values();
  }

  /** The 24-bit numerator is the little-endian two's-complement value. */
  lemma Linear24IsTwosComplement(buf: seq<Byte>, off: nat)
    requires off + 3 <= |buf|
    ensures Numerator(Linear24, buf, off)
            == TwosComplement(buf[off] + 0x100 * (buf[off + 1] as int) + 0x1_0000 * (buf[off + 2] as int), 24)
    ensures -0x80_0000 <= Numerator(Linear24, buf, off) < 0x80_0000
  {
    Pow2Values();
  }

  /** Little-endian bytes of a 16-bit two's-complement sample. */
  function Encode16(v: int): (r: seq<Byte>)
    requires -0x8000 <= v < 0x8000
    ensures |r| == 2
  {
    var u := if v < 0 then v + 0x1_0000 else v;
    [u % 0x100, u / 0x100]
  }

  /** Encoding a 16-bit sample and decoding it gives the sample back over 2^15. */
  lemma Linear16RoundTrip(v: int)
    requires -0x8000 <= v < 0x8000
    ensures Numerator(Linear16, Encode16(v), 0) == v
    ensures Decode(Linear16, Encode16(v), 0) == v as real / 32768.0
  {
  }

  /** Little-endian bytes of a 24-bit two's-complement sample. */
  function Encode24(v: int): (r: seq<Byte>)
    requires -0x80_0000 <= v < 0x80_0000
    ensures |r| == 3
  {
    var u := if v < 0 then v + 0x100_0000 else v;
    [u % 0x100, (u / 0x100) % 0x100, u / 0x1_0000]
  }

  lemma Linear24RoundTrip(v: int)
    requires -0x80_0000 <= v < 0x80_0000
    ensures Numerator(Linear24, Encode24(v), 0) == v
    ensures Decode(Linear24, Encode24(v), 0) == v as real / 8388608.0
  {
  }

  // ---------------------------------------------------------------------
  // A-law and mu-law

  lemma ALawMagnitudeRange(expo: int, frac: int)
    requires 0 <= expo < 8 && 0 <= frac < 16
    ensures 1 <= ALawMagnitude(expo, frac) <= 4032
  {
    Pow2Small();
  }

  lemma MuLawMagnitudeRange(expo: int, frac: int)
    requires 0 <= expo < 8 && 0 <= frac < 16
    ensures 0 <= MuLawMagnitude(expo, frac) <= 8031
  {
    Pow2Small();
  }

  /**
   * The A-law segment table of G.711: segment e starts at a fixed base and
   * advances by a fixed step per mantissa unit.
   */
  function ALawSegment(expo: int, frac: int): int
    requires 0 <= expo < 8 && 0 <= frac < 16
  {
    match expo
    case 0 => 2 * frac + 1
    case 1 => 2 * frac + 33
    case 2 => 4 * frac + 66
    case 3 => 8 * frac + 132
    case 4 => 16 * frac + 264
    case 5 => 32 * frac + 528
    case 6 => 64 * frac + 1056
    case _ => 128 * frac + 2112
  }

  /** The mu-law segment table of G.711 (biased by 33, as the code computes it). */
  function MuLawSegment(expo: int, frac: int): int
    requires 0 <= expo < 8 && 0 <= frac < 16
  {
    match expo
    case 0 => 2 * frac
    case 1 => 4 * frac + 33
    case 2 => 8 * frac + 99
    case 3 => 16 * frac + 231
    case 4 => 32 * frac + 495
    case 5 => 64 * frac + 1023
    case 6 => 128 * frac + 2079
    case _ => 256 * frac + 4191
  }

  /** The shift-based A-law expansion agrees with the segment table. */
  lemma ALawMagnitudeIsSegment(expo: int, frac: int)
    requires 0 <= expo < 8 && 0 <= frac < 16
    ensures ALawMagnitude(expo, frac) == ALawSegment(expo, frac)
  {
    Pow2Small();
  }

  /** The shift-based mu-law expansion agrees with the segment table. */
  lemma MuLawMagnitudeIsSegment(expo: int, frac: int)
    requires 0 <= expo < 8 && 0 <= frac < 16
    ensures MuLawMagnitude(expo, frac) == MuLawSegment(expo, frac)
  {
    Pow2Small();
  }

  /** The A-law numerator lies in [-4032, 4031]; code 0x55 decodes to 0. */
  lemma ALawRange(code: bv8)
    ensures -4032 <= ALawNumerator(code) <= 4031
    ensures code == 0x55 ==> ALawNumerator(code) == 0
  {
    var minus, expo, frac := ALawFields(code);
    ALawMagnitudeRange(expo, frac);
  }

  /** The mu-law numerator lies in [-8032, 8031]; code 0xff decodes to 0. */
  lemma MuLawRange(code: bv8)
    ensures -8032 <= MuLawNumerator(code) <= 8031
    ensures code == 0xff ==> MuLawNumerator(code) == 0
  {
    var minus, expo, frac := MuLawFields(code);
    MuLawMagnitudeRange(expo, frac);
  }

  /** Flipping bit 7 of an A-law code maps numerator n to -n-1. */
  lemma ALawSignSymmetry(code: bv8)
    ensures ALawNumerator(code ^ 0x80) == -ALawNumerator(code) - 1
  {
    var s1 := code ^ 0x55;
    var s2 := (code ^ 0x80) ^ 0x55;
    assert s2 & 0x0f == s1 & 0x0f;
    assert s2 & 0x70 == s1 & 0x70;
    assert (s2 & 0x80 != 0) == !(s1 & 0x80 != 0);
  }

  /** Flipping bit 7 of a mu-law code maps numerator n to -n-1. */
  lemma MuLawSignSymmetry(code: bv8)
    ensures MuLawNumerator(code ^ 0x80) == -MuLawNumerator(code) - 1
  {
    var s1 := code ^ 0xff;
    var s2 := (code ^ 0x80) ^ 0xff;
    assert s2 & 0x0f == s1 & 0x0f;
    assert s2 & 0x70 == s1 & 0x70;
    assert (s2 & 0x80 != 0) == !(s1 & 0x80 != 0);
  }

  /**
   * The A-law magnitude grows strictly with the seven-bit code
   * 16 * expo + frac: the segments neither overlap nor leave the order.
   */
  lemma ALawMagnitudeMonotone(e1: int, f1: int, e2: int, f2: int)
    requires 0 <= e1 < 8 && 0 <= f1 < 16 && 0 <= e2 < 8 && 0 <= f2 < 16
    requires 16 * e1 + f1 < 16 * e2 + f2
    ensures ALawMagnitude(e1, f1) < ALawMagnitude(e2, f2)
  {
    ALawMagnitudeIsSegment(e1, f1);
    ALawMagnitudeIsSegment(e2, f2);
  }

  /** The mu-law magnitude grows strictly with the seven-bit code 16 * expo + frac. */
  lemma MuLawMagnitudeMonotone(e1: int, f1: int, e2: int, f2: int)
    requires 0 <= e1 < 8 && 0 <= f1 < 16 && 0 <= e2 < 8 && 0 <= f2 < 16
    requires 16 * e1 + f1 < 16 * e2 + f2
    ensures MuLawMagnitude(e1, f1) < MuLawMagnitude(e2, f2)
  {
    MuLawMagnitudeIsSegment(e1, f1);
    MuLawMagnitudeIsSegment(e2, f2);
  }

  /** An A-law code is determined by its sign bit and its seven low bits after the XOR with 0x55. */
  lemma ALawCodeOfFields(c1: bv8, c2: bv8)
    ensures ((c1 ^ 0x55) & 0x80 != 0) == ((c2 ^ 0x55) & 0x80 != 0) && (c1 ^ 0x55) & 0x7f == (c2 ^ 0x55) & 0x7f ==> c1 == c2
  {
  }

  lemma ByteValueInjective(k1: bv8, k2: bv8)
    ensures k1 as int == k2 as int ==> k1 == k2
  {
  }

  /** The sign, segment and mantissa of an A-law code, as the decoder extracts them. */
  lemma ALawFields(code: bv8) returns (minus: bool, expo: int, frac: int)
    ensures 0 <= expo < 8 && 0 <= frac < 16
    ensures minus == (code >= 0x80) && minus == ((code ^ 0x55) & 0x80 != 0)
    ensures ((code ^ 0x55) & 0x7f) as int == expo * 16 + frac
    ensures ALawNumerator(code) == ALawValue(minus, expo, frac)
  {
    var src := code ^ 0x55;
    minus := src & 0x80 != 0;
    expo := ((src & 0x70) >> 4) as int;
    frac := (src & 0x0f) as int;
  }

  /** A mu-law code is determined by its sign bit and its seven low bits after the XOR with 0xff. */
  lemma MuLawCodeOfFields(c1: bv8, c2: bv8)
    ensures ((c1 ^ 0xff) & 0x80 != 0) == ((c2 ^ 0xff) & 0x80 != 0) && (c1 ^ 0xff) & 0x7f == (c2 ^ 0xff) & 0x7f ==> c1 == c2
  {
  }

  /** The sign, segment and mantissa of a mu-law code, as the decoder extracts them. */
  lemma MuLawFields(code: bv8) returns (minus: bool, expo: int, frac: int)
    ensures 0 <= expo < 8 && 0 <= frac < 16
    ensures minus == (code < 0x80) && minus == ((code ^ 0xff) & 0x80 != 0)
    ensures ((code ^ 0xff) & 0x7f) as int == expo * 16 + frac
    ensures MuLawNumerator(code) == MuLawValue(minus, expo, frac)
  {
    var src := code ^ 0xff;
    minus := src & 0x80 != 0;
    expo := ((src & 0x70) >> 4) as int;
    frac := (src & 0x0f) as int;
  }

  /** Two A-law fields that differ in sign or in seven-bit code give different numerators. */
  lemma ALawValueInjective(m1: bool, e1: int, f1: int, m2: bool, e2: int, f2: int)
    requires 0 <= e1 < 8 && 0 <= f1 < 16 && 0 <= e2 < 8 && 0 <= f2 < 16
    requires m1 != m2 || 16 * e1 + f1 != 16 * e2 + f2
    ensures ALawValue(m1, e1, f1) != ALawValue(m2, e2, f2)
  {
    ALawMagnitudeRange(e1, f1);
    ALawMagnitudeRange(e2, f2);
    if m1 == m2 {
      if 16 * e1 + f1 < 16 * e2 + f2 {
        ALawMagnitudeMonotone(e1, f1, e2, f2);
      } else {
        ALawMagnitudeMonotone(e2, f2, e1, f1);
      }
    }
  }

  /** Two mu-law fields that differ in sign or in seven-bit code give different numerators. */
  lemma MuLawValueInjective(m1: bool, e1: int, f1: int, m2: bool, e2: int, f2: int)
    requires 0 <= e1 < 8 && 0 <= f1 < 16 && 0 <= e2 < 8 && 0 <= f2 < 16
    requires m1 != m2 || 16 * e1 + f1 != 16 * e2 + f2
    ensures MuLawValue(m1, e1, f1) != MuLawValue(m2, e2, f2)
  {
    MuLawMagnitudeRange(e1, f1);
    MuLawMagnitudeRange(e2, f2);
    if m1 == m2 {
      if 16 * e1 + f1 < 16 * e2 + f2 {
        MuLawMagnitudeMonotone(e1, f1, e2, f2);
      } else {
        MuLawMagnitudeMonotone(e2, f2, e1, f1);
      }
    }
  }

  /**
   * A-law decoding is injective: within one sign by the magnitude order,
   * across signs because one numerator is negative and the other is not.
   */
  lemma ALawInjective(c1: bv8, c2: bv8)
    requires c1 != c2
    ensures ALawNumerator(c1) != ALawNumerator(c2)
  {
    var m1, e1, f1 := ALawFields(c1);
    var m2, e2, f2 := ALawFields(c2);
    ALawCodeOfFields(c1, c2);
    ByteValueInjective((c1 ^ 0x55) & 0x7f, (c2 ^ 0x55) & 0x7f);
    ALawValueInjective(m1, e1, f1, m2, e2, f2);
  }

  /** mu-law decoding is injective. */
  lemma MuLawInjective(c1: bv8, c2: bv8)
    requires c1 != c2
    ensures MuLawNumerator(c1) != MuLawNumerator(c2)
  {
    var m1, e1, f1 := MuLawFields(c1);
    var m2, e2, f2 := MuLawFields(c2);
    MuLawCodeOfFields(c1, c2);
    ByteValueInjective((c1 ^ 0xff) & 0x7f, (c2 ^ 0xff) & 0x7f);
    MuLawValueInjective(m1, e1, f1, m2, e2, f2);
  }

  /** Every numerator lies in [-Scale, Scale), so every decoded value in [-1, 1). */
  lemma NumeratorRange(d: Decoder, buf: seq<Byte>, off: nat)
    requires off + Width(d) <= |buf|
    ensures -(Scale(d) as int) <= Numerator(d, buf, off) < Scale(d) as int
  {
    match d
    case Linear8 =>
    case Linear16 => Linear16IsTwosComplement(buf, off);
    case Linear24 => Linear24IsTwosComplement(buf, off);
    case ALaw => ALawRange(buf[off] as bv8);
    case MuLaw => MuLawRange(buf[off] as bv8);
  }
}
