/** Conversion between binary32 and binary16 (sections 3.4 and 4.3.1 of
    IEEE 754-2019), with words as natural numbers. */
module Half {
  import opened Bits

  type Word32 = x: nat | x < 0x1_0000_0000
  type Word16 = x: nat | x < 0x1_0000

  // ---- what the words mean -----------------------------------------------------

  const INFINITY32 := 0x7F80_0000
  const INFINITY16 := 0x7C00

  function Negative32(x: Word32): bool { x >= 0x8000_0000 }
  function Magnitude32(x: Word32): nat { x % 0x8000_0000 }
  function Negative16(h: Word16): bool { h >= 0x8000 }
  function Magnitude16(h: Word16): nat { h % 0x8000 }

  /** The exponent field is full and the fraction is not zero. */
  predicate IsNaN32(x: Word32): (b: bool)
    ensures b <==> x / 0x80_0000 % 0x100 == 255 && x % 0x80_0000 != 0
  {
    Magnitude32(x) > INFINITY32
  }

  predicate IsNaN16(h: Word16): (b: bool)
    ensures b <==> h / 0x400 % 0x20 == 31 && h % 0x400 != 0
  {
    Magnitude16(h) > INFINITY16
  }

  /** The value of a finite magnitude in units of 2^-149.  The encoding after the
      largest finite one (infinity) gets the value rounding gives it, 2^16 for
      binary16. */
  function Value32(x: nat): nat {
    if x < 0x80_0000 then x else Shl(0x80_0000 + x % 0x80_0000, x / 0x80_0000 - 1)
  }

  function Value16(h: nat): nat {
    Shl(if h < 0x400 then h else Shl(0x400 + h % 0x400, h / 0x400 - 1), 125)
  }

  function Distance(a: nat, b: nat): nat { if a < b then b - a else a - b }

  /** Round to nearest, ties to even, in binary16. */
  predicate Nearest(v: nat, h: nat) {
    && h <= INFINITY16
    && forall g: nat :: g <= INFINITY16 && g != h ==>
         Distance(v, Value16(h)) < Distance(v, Value16(g))
         || (Distance(v, Value16(h)) == Distance(v, Value16(g)) && h % 2 == 0)
  }

  /** What floatToHalf promises; above the range it rounds to infinity, and NaN
      becomes infinity. */
  predicate Rounds(x: Word32, h: Word16) {
    && Negative16(h) == Negative32(x)
    && (Magnitude32(x) >= INFINITY32 || Value32(Magnitude32(x)) >= Value16(INFINITY16) ==> Magnitude16(h) == INFINITY16)
    && (Magnitude32(x) < INFINITY32 && Value32(Magnitude32(x)) < Value16(INFINITY16) ==>
          Nearest(Value32(Magnitude32(x)), Magnitude16(h)))
  }

  /** What halfToFloat promises: the same sign and value, infinity for infinity,
      and a NaN with the same payload for a NaN. */
  predicate Widens(h: Word16, x: Word32) {
    && Negative32(x) == Negative16(h)
    && (Magnitude16(h) < INFINITY16 ==>
          Magnitude32(x) < INFINITY32 && Value32(Magnitude32(x)) == Value16(Magnitude16(h)))
    && (Magnitude16(h) >= INFINITY16 ==>
          Magnitude32(x) == INFINITY32 + 0x2000 * (Magnitude16(h) - INFINITY16))
  }

  // ---- both scales are strictly increasing -----------------------------------------

  lemma {:induction false} NextValue16(h: nat)
    requires h < INFINITY16
    ensures Value16(h + 1) == Value16(h) + Shl(1, if h < 0x400 then 125 else 124 + h / 0x400)
  {
    if h < 0x3FF {
      ShlAdd(h, 1, 125);
    } else if h == 0x3FF {
      assert Shl(0x400, 0) == 0x400;
      ShlAdd(h, 1, 125);
    } else {
      var e := h / 0x400 - 1;
      var m := 0x400 + h % 0x400;
      ShlAdd(m, 1, e);
      ShlAdd(Shl(m, e), Shl(1, e), 125);
      ShlTwice(1, e, 125);
      if h % 0x400 == 0x3FF {
        assert (h + 1) / 0x400 - 1 == e + 1 && (h + 1) % 0x400 == 0;
        ShlTwice(0x400, 1, e);
        assert Shl(0x400, 1) == 0x800;
      } else {
        assert (h + 1) / 0x400 - 1 == e && (h + 1) % 0x400 == h % 0x400 + 1;
      }
    }
  }

  lemma {:induction false} Increasing16(g: nat, h: nat)
    requires g < h <= INFINITY16
    ensures Value16(g) < Value16(h)
  {
    NextValue16(h - 1);
    ShlPositive(1, if h - 1 < 0x400 then 125 else 124 + (h - 1) / 0x400);
    if g < h - 1 { Increasing16(g, h - 1); }
  }

  lemma {:induction false} Increasing32(x: nat, y: nat)
    requires x < y
    ensures Value32(x) < Value32(y)
  {
    var ex, ey := x / 0x80_0000, y / 0x80_0000;
    var mx, my := x % 0x80_0000, y % 0x80_0000;
    if ex == 0 {
      if ey > 0 { ShlPositive(0x80_0000 + my, ey - 1); }
    } else if ex == ey {
      ShlLess(0x80_0000 + mx, 0x80_0000 + my, ex - 1);
    } else {
      ShlLess(0x80_0000 + mx, 0x100_0000, ex - 1);
      assert Shl(0x80_0000, 1) == 0x100_0000;
      ShlTwice(0x80_0000, 1, ex - 1);
      ShlMoreBits(0x80_0000, ex, ey - 1);
      if my > 0 { ShlLess(0x80_0000, 0x80_0000 + my, ey - 1); }
    }
  }

  // ---- rounding one step of the scale ------------------------------------------------

  /** h is the encoding below v, `rest` of `gap` above it; then the upper half,
      and a tie at an odd h, goes to h + 1. */
  lemma {:induction false} NearestOfTwo(v: nat, h: nat, rest: nat, gap: nat, up: bool)
    requires h < INFINITY16 && v == Value16(h) + rest && rest < gap && Value16(h + 1) == Value16(h) + gap
    requires up <==> 2 * rest > gap || (2 * rest == gap && h % 2 == 1)
    ensures Nearest(v, if up then h + 1 else h)
  {
    var r := if up then h + 1 else h;
    forall g: nat | g <= INFINITY16 && g != r
      ensures Distance(v, Value16(r)) < Distance(v, Value16(g))
              || (Distance(v, Value16(r)) == Distance(v, Value16(g)) && r % 2 == 0)
    {
      if g < h { Increasing16(g, h); }
      if g > h + 1 { Increasing16(h + 1, g); }
    }
  }

  /** Dropping the low k bits of m: the round bit and the sticky bits say which
      half of the gap they are in. */
  lemma {:induction false} RoundBits(m: nat, k: nat)
    requires k > 0
    ensures Shl(1, k) > 0 && And(m, Shl(1, k) - 1) < Shl(1, k)
    ensures var half := Shl(1, k - 1); var rest := And(m, Shl(1, k) - 1);
            && half > 0
            && (And(m, half) != 0 <==> 2 * rest >= Shl(1, k))
            && (And(m, half) != 0 && And(m, half - 1) != 0 <==> 2 * rest > Shl(1, k))
  {
    var half := Shl(1, k - 1);
    Cut(m, k);
    Cut(m, k - 1);
    AndBit(m, k - 1);
    ShrOneMore(m, k - 1);
    var q := Shr(m, k - 1);
    assert q == 2 * Shr(m, k) + q % 2;
    ShlAdd(2 * Shr(m, k), q % 2, k - 1);
    ShlDouble(Shr(m, k), k - 1);
    if q % 2 == 0 { ShlZero(k - 1); }
    Halves(half, q % 2, And(m, half - 1), And(m, Shl(1, k) - 1), And(m, half));
  }

  /** The bit worth `half`, and the bits below it. */
  lemma {:induction false} Halves(half: nat, bit: nat, low: nat, rest: nat, masked: nat)
    requires low < half && bit < 2 && masked == (if bit == 1 then half else 0) && rest == masked + low
    ensures masked != 0 <==> 2 * rest >= 2 * half
    ensures masked != 0 && low != 0 <==> 2 * rest > 2 * half
  {
  }

  lemma {:induction false} ShlZero(k: nat)
    ensures Shl(0, k) == 0
  {
    if k > 0 { ShlZero(k - 1); }
  }

  lemma {:induction false} ShlDouble(x: nat, k: nat)
    ensures Shl(2 * x, k) == Shl(x, k + 1)
  {
    ShlAdd(x, x, k);
  }

  lemma {:induction false} ShrOneMore(x: nat, k: nat)
    ensures Shr(x, k + 1) == Shr(x, k) / 2
  {
    if k > 0 { ShrOneMore(x / 2, k - 1); } else { assert Shr(x, 1) == Shr(x / 2, 0); }
  }

  // ---- floatToHalf -----------------------------------------------------------------

  function FloatToHalf(x: Word32): Word16 {
    Encoded(And(Shr(x, 16), 0x8000), And(Shr(x, 23), 0xFF) - 127 + 15, And(x, 0x7F_FFFF)) % 0x1_0000
  }

  function Encoded(sign: nat, exp: int, mant: nat): nat {
    if exp >= 31 then Or(sign, 0x7C00)
    else if exp > 0 then Normal(sign, exp, mant)
    else if exp < -10 then sign
    else Or(sign, Rounded(Or(mant, 0x80_0000), 14 - exp))
  }

  /** The normal branch; a carry may run into the exponent. */
  function Normal(sign: nat, exp: nat, mant: nat): nat {
    var roundBit := And(mant, 0x1000) != 0;
    var sticky := And(mant, 0xFFF) != 0;
    var q := Or(Or(Shl(exp, 10), Shr(mant, 13)), sign);
    if roundBit && (sticky || And(q, 1) != 0) then q + 1 else q
  }

  /** The subnormal branch: shift the significand right, rounding. */
  function Rounded(m: nat, shift: nat): nat
    requires shift > 0
  {
    var half := Shl(1, shift - 1);
    var roundBit := And(m, half) != 0;
    ShlPositive(1, shift - 1);
    var sticky := And(m, half - 1) != 0;
    var q := Shr(m, shift);
    if roundBit && (sticky || And(q, 1) != 0) then q + 1 else q
  }

  lemma {:induction false} OddBit(q: nat)
    ensures And(q, 1) != 0 <==> q % 2 == 1
  {
    AndBit(q, 0);
  }

  lemma {:induction false} SignField(x: Word32)
    ensures And(Shr(x, 16), 0x8000) == if Negative32(x) then 0x8000 else 0
  {
    Power16();
    CutIsDivision(x, 16, 0x1_0000);
    Bit15(x / 0x1_0000);
  }

  lemma {:induction false} Bit15(y: nat)
    requires y < 0x1_0000
    ensures And(y, 0x8000) == if y >= 0x8000 then 0x8000 else 0
  {
    Power16();
    AndBit(y, 15);
    CutIsDivision(y, 15, 0x8000);
  }

  lemma {:induction false} ExponentField(x: Word32)
    ensures And(Shr(x, 23), 0xFF) == Magnitude32(x) / 0x80_0000
  {
    var top := x / 0x80_0000;
    assert Shr(x, 23) == top by {
      Power23();
      CutIsDivision(x, 23, 0x80_0000);
    }
    assert And(top, 0xFF) == top % 256 by {
      Power8();
      CutIsDivision(top, 8, 256);
    }
    TopBits(x);
  }

  lemma {:induction false} TopBits(x: Word32)
    ensures x / 0x80_0000 % 256 == Magnitude32(x) / 0x80_0000
  {
    var s, r := x / 0x8000_0000, x % 0x8000_0000;
    assert x == 256 * 0x80_0000 * s + r;
    assert x / 0x80_0000 == 256 * s + r / 0x80_0000;
  }

  lemma {:induction false} MantissaField(x: Word32)
    ensures And(x, 0x7F_FFFF) == Magnitude32(x) % 0x80_0000
  {
    Power23();
    CutIsDivision(x, 23, 0x80_0000);
    LowBits(x);
  }

  lemma {:induction false} LowBits(x: Word32)
    ensures x % 0x80_0000 == Magnitude32(x) % 0x80_0000
  {
  }

  /** Below half of the smallest subnormal. */
  lemma {:induction false} TinyRounds(x: nat)
    requires x / 0x80_0000 < 102
    ensures Nearest(Value32(x), 0)
  {
    TinyValue(x);
    NextValue16(0);
    ShlZero(125);
    NearestOfTwo(Value32(x), 0, Value32(x), Shl(1, 125), false);
  }

  lemma {:induction false} TinyValue(x: nat)
    requires x / 0x80_0000 < 102
    ensures 2 * Value32(x) < Shl(1, 125)
  {
    var e, top: nat := x / 0x80_0000, 0x100_0000;
    assert top == Shl(1, 24) by { Power23(); }
    ShlTwice(1, 24, 100);
    if e > 0 {
      ShlLess(0x80_0000 + x % 0x80_0000, top, e - 1);
      ShlMoreBits(top, e - 1, 100);
    } else {
      ShlPositive(top, 100);
    }
  }

  lemma {:induction false} SubnormalRounds(x: nat)
    requires 102 <= x / 0x80_0000 <= 112
    ensures var r := Rounded(0x80_0000 + x % 0x80_0000, 126 - x / 0x80_0000);
            r <= 0x400 && Nearest(Value32(x), r)
  {
    var e := x / 0x80_0000;
    var m := 0x80_0000 + x % 0x80_0000;
    var k := 126 - e;
    RoundBits(m, k);
    Cut(m, k);
    var q, rest := Shr(m, k), And(m, Shl(1, k) - 1);
    OddBit(q);
    SmallQuotient(m, k);
    // Scale m == q * 2^k + rest by 2^(e - 1).
    ShlAdd(Shl(q, k), rest, e - 1);
    ShlTwice(q, k, e - 1);
    ShlTwice(1, k, e - 1);
    ShlLess(rest, Shl(1, k), e - 1);
    ShlDouble(rest, e - 1);
    ShlLess(2 * rest, Shl(1, k), e - 1);
    ShlLess(Shl(1, k), 2 * rest, e - 1);
    NextValue16(q);
    NearestOfTwo(Value32(x), q, Shl(rest, e - 1), Shl(1, 125), Rounded(m, k) == q + 1);
  }

  lemma {:induction false} SmallQuotient(m: nat, k: nat)
    requires m < 0x100_0000 && k >= 14
    ensures Shr(m, k) < 0x400
  {
    assert Shl(1, 14) == 0x4000 by { Power13(); }
    if k == 14 {
      CutIsDivision(m, 14, 0x4000);
    } else {
      SmallQuotient(m, k - 1);
      ShrOneMore(m, k - 1);
    }
  }

  /** 2^23 + mant is top * 2^13 + rest, scaled by 2^(exp + 111). */
  lemma {:induction false} NormalValue(x: nat)
    requires 113 <= x / 0x80_0000 <= 142
    ensures var exp, mant := x / 0x80_0000 - 112, x % 0x80_0000;
            var q, rest := 0x400 * exp + mant / 0x2000, mant % 0x2000;
            && q < INFINITY16 && Value32(x) == Value16(q) + Shl(rest, exp + 111)
            && Value16(q + 1) == Value16(q) + Shl(0x2000, exp + 111)
  {
    var exp, mant := x / 0x80_0000 - 112, x % 0x80_0000;
    var q, rest := 0x400 * exp + mant / 0x2000, mant % 0x2000;
    var top := 0x400 + mant / 0x2000;
    Power13();
    ShlTimes(top, 13);
    ShlAdd(Shl(top, 13), rest, exp + 111);
    ShlTwice(top, 13, exp + 111);
    ShlTwice(top, exp - 1, 125);
    assert q / 0x400 == exp && q % 0x400 == mant / 0x2000;
    ShlTwice(1, 13, exp + 111);
    NextValue16(q);
  }

  lemma {:induction false} NormalNearest(x: nat, exp: nat, q: nat, rest: nat, up: bool, r: nat)
    requires 113 <= x / 0x80_0000 <= 142 && exp == x / 0x80_0000 - 112
    requires q == 0x400 * exp + x % 0x80_0000 / 0x2000 && rest == x % 0x80_0000 % 0x2000
    requires up <==> 2 * rest > 0x2000 || (2 * rest == 0x2000 && q % 2 == 1)
    requires r == if up then q + 1 else q
    ensures q < INFINITY16 && Nearest(Value32(x), r)
  {
    NormalValue(x);
    ShlLess(rest, 0x2000, exp + 111);
    ShlDouble(rest, exp + 111);
    ShlLess(2 * rest, 0x2000, exp + 111);
    ShlLess(0x2000, 2 * rest, exp + 111);
    NearestOfTwo(Value32(x), q, Shl(rest, exp + 111), Shl(0x2000, exp + 111), up);
  }

  lemma {:induction false} NormalBits(exp: nat, mant: nat)
    requires mant < 0x80_0000
    ensures var q, rest := 0x400 * exp + mant / 0x2000, mant % 0x2000;
            && Or(Shl(exp, 10), Shr(mant, 13)) == q
            && (And(mant, 0x1000) != 0 <==> 2 * rest >= 0x2000)
            && (And(mant, 0x1000) != 0 && And(mant, 0xFFF) != 0 <==> 2 * rest > 0x2000)
  {
    Power10();
    Power13();
    CutIsDivision(mant, 13, 0x2000);
    ShlTimes(exp, 10);
    OrFields(exp, mant / 0x2000, 10);
    RoundBits(mant, 13);
  }

  lemma {:induction false} LargeValues(x: nat)
    ensures x / 0x80_0000 >= 143 <==> Value32(x) >= Value16(INFINITY16)
  {
    ShlTwice(0x400, 30, 125);
    ShlTwice(0x400, 13, 142);
    assert Shl(0x400, 13) == 0x80_0000;
    var first := 143 * 0x80_0000;
    assert Value32(first) == Value16(INFINITY16);
    if x < first { Increasing32(x, first); }
    if x > first { Increasing32(first, x); }
  }

  function SignBit(negative: bool): nat { if negative then 0x8000 else 0 }

  lemma {:induction false} FromSubnormal(negative: bool, e: nat, mant: nat)
    requires 102 <= e <= 112 && mant < 0x80_0000 && Rounded(0x80_0000 + mant, 126 - e) <= 0x400
    ensures Encoded(SignBit(negative), e - 112, mant) == SignBit(negative) + Rounded(0x80_0000 + mant, 126 - e)
  {
    Power23();
    OrFields(1, mant, 23);
    WithSign(negative, Rounded(0x80_0000 + mant, 126 - e));
  }

  lemma {:induction false} FromNormal(negative: bool, exp: nat, mant: nat)
    requires 1 <= exp <= 30 && mant < 0x80_0000
    ensures var q, rest := 0x400 * exp + mant / 0x2000, mant % 0x2000;
            var up := 2 * rest > 0x2000 || (2 * rest == 0x2000 && q % 2 == 1);
            Normal(SignBit(negative), exp, mant) == SignBit(negative) + if up then q + 1 else q
  {
    var q := 0x400 * exp + mant / 0x2000;
    NormalBits(exp, mant);
    WithSign(negative, q);
    NormalByFields(SignBit(negative), exp, mant, q, mant % 0x2000);
  }

  lemma {:induction false} NormalByFields(sign: nat, exp: nat, mant: nat, q: nat, rest: nat)
    requires sign % 2 == 0 && Or(Shl(exp, 10), Shr(mant, 13)) == q && Or(q, sign) == sign + q
    requires And(mant, 0x1000) != 0 <==> 2 * rest >= 0x2000
    requires And(mant, 0x1000) != 0 && And(mant, 0xFFF) != 0 <==> 2 * rest > 0x2000
    ensures var up := 2 * rest > 0x2000 || (2 * rest == 0x2000 && q % 2 == 1);
            Normal(sign, exp, mant) == sign + if up then q + 1 else q
  {
    OddBit(sign + q);
    EvenSum(sign, q);
  }

  lemma {:induction false} EvenSum(sign: nat, q: nat)
    requires sign % 2 == 0
    ensures (sign + q) % 2 == q % 2
  {
  }

  function Exponent(mag: int): int { mag / 0x80_0000 - 112 }

  lemma {:induction false} SubnormalCase(mag: nat, negative: bool) returns (r: nat)
    requires 102 <= mag / 0x80_0000 <= 112
    ensures Encoded(SignBit(negative), Exponent(mag), mag % 0x80_0000) == SignBit(negative) + r
    ensures r <= INFINITY16 && Nearest(Value32(mag), r)
  {
    SubnormalRounds(mag);
    FromSubnormal(negative, mag / 0x80_0000, mag % 0x80_0000);
    r := Rounded(0x80_0000 + mag % 0x80_0000, 126 - mag / 0x80_0000);
  }

  lemma {:induction false} NormalCase(mag: nat, negative: bool) returns (r: nat)
    requires 113 <= mag / 0x80_0000 <= 142
    ensures Encoded(SignBit(negative), Exponent(mag), mag % 0x80_0000) == SignBit(negative) + r
    ensures r <= INFINITY16 && Nearest(Value32(mag), r)
  {
    var exp, mant := mag / 0x80_0000 - 112, mag % 0x80_0000;
    var q, rest := 0x400 * exp + mant / 0x2000, mant % 0x2000;
    var up := 2 * rest > 0x2000 || (2 * rest == 0x2000 && q % 2 == 1);
    r := if up then q + 1 else q;
    NormalNearest(mag, exp, q, rest, up, r);
    FromNormal(negative, exp, mant);
  }

  lemma {:induction false} MagnitudeRounds(mag: nat, negative: bool) returns (r: nat)
    ensures Encoded(SignBit(negative), Exponent(mag), mag % 0x80_0000) == SignBit(negative) + r && r <= INFINITY16
    ensures if mag / 0x80_0000 >= 143 then r == INFINITY16 else Nearest(Value32(mag), r)
  {
    var e := mag / 0x80_0000;
    if e >= 143 {
      WithSign(negative, INFINITY16);
      r := INFINITY16;
    } else if e < 102 {
      TinyRounds(mag);
      r := 0;
    } else if e <= 112 {
      r := SubnormalCase(mag, negative);
    } else {
      r := NormalCase(mag, negative);
    }
  }

  lemma {:induction false} SignedHalf(negative: bool, r: nat)
    requires r < 0x8000
    ensures var h := SignBit(negative) + r;
            h % 0x1_0000 == h < 0x1_0000 && Negative16(h) == negative && Magnitude16(h) == r
  {
  }

  lemma {:induction false} CodeRounds(x: Word32, r: nat, h: Word16)
    requires r <= INFINITY16 && Negative16(h) == Negative32(x) && Magnitude16(h) == r
    requires if Magnitude32(x) / 0x80_0000 >= 143 then r == INFINITY16 else Nearest(Value32(Magnitude32(x)), r)
    ensures Rounds(x, h)
  {
    LargeValues(Magnitude32(x));
  }

  lemma {:induction false} FloatToHalfByFields(x: Word32)
    ensures var mag := Magnitude32(x);
            FloatToHalf(x) == Encoded(SignBit(Negative32(x)), Exponent(mag), mag % 0x80_0000) % 0x1_0000
  {
    SignField(x);
    ExponentField(x);
    MantissaField(x);
  }

  /** Every input but NaN gets the nearest binary16 value, ties to even; beyond
      the range, infinity. */
  lemma {:induction false} FloatToHalfRounds(x: Word32)
    ensures Rounds(x, FloatToHalf(x))
  {
    FloatToHalfByFields(x);
    var r := MagnitudeRounds(Magnitude32(x), Negative32(x));
    SignedHalf(Negative32(x), r);
    CodeRounds(x, r, FloatToHalf(x));
  }

  lemma {:induction false} WithSign(negative: bool, h: nat)
    requires h < 0x8000
    ensures var sign := if negative then 0x8000 else 0;
            Or(sign, h) == sign + h && Or(h, sign) == sign + h
  {
    Power16();
    if negative { OrFields(1, h, 15); } else { OrZero(h); }
  }

  // ---- halfToFloat ------------------------------------------------------------------

  function Word(sign: nat, exponent: nat, mant: nat): nat { Or(Or(sign, exponent), Shl(mant, 13)) }

  /** A subnormal is shifted until its leading one is the implicit bit. */
  method HalfToFloat(h: Word16) returns (f: Word32)
    ensures Widens(h, f)
  {
    var sign := Shl(And(h, 0x8000), 16);
    var exp := And(Shr(h, 10), 0x1F);
    var mant := And(h, 0x3FF);
    HalfSign(h);
    HalfFields(h);
    if exp == 0 {
      if mant == 0 {
        f := sign;
        ZeroWidens(h);
      } else {
        f := WidenSubnormal(h, sign, mant);
      }
    } else if exp == 31 {
      FieldsWiden(h, 255, mant);
      f := Word(sign, 0x7F80_0000, mant);
    } else {
      NormalWidens(exp, mant);
      FieldsWiden(h, exp + 112, mant);
      f := Word(sign, Shl(exp + 127 - 15, 23), mant);
    }
  }

  method WidenSubnormal(h: Word16, sign: nat, m: nat) returns (f: Word32)
    requires Magnitude16(h) == m && 0 < m < 0x400 && sign == if Negative16(h) then 0x8000_0000 else 0
    ensures Widens(h, f)
  {
    var e, top := Normalize(m);
    var mant := And(top, 0x3FF);
    LeadingBit(top);
    FieldsWiden(h, 112 - e, mant);
    f := Word(sign, Shl(127 - 15 - e, 23), mant);
  }

  /** The shift loop: mant * 2^e has its leading one at bit 10. */
  method Normalize(m: nat) returns (e: nat, mant: nat)
    requires 0 < m < 0x400
    ensures e < 10 && 0x400 <= mant < 0x800
    ensures Value32((112 - e) * 0x80_0000 + 0x2000 * (mant - 0x400)) == Value16(m)
  {
    ShlOne(m);
    e, mant := 0, Shl(m, 1);
    while And(mant, 0x400) == 0
      invariant Shl(m, e + 1) == mant && 0 < mant < 0x800
      decreases 0x800 - mant
    {
      LeadingBit(mant);
      ShlOne(mant);
      mant := Shl(mant, 1);
      e := e + 1;
    }
    LeadingBit(mant);
    Normalized(m, e, mant);
  }

  lemma {:induction false} ZeroWidens(h: Word16)
    requires Magnitude16(h) == 0
    ensures Widens(h, if Negative16(h) then 0x8000_0000 else 0)
  {
    ShlZero(125);
  }

  lemma {:induction false} HalfFields(h: Word16)
    ensures And(Shr(h, 10), 0x1F) == Magnitude16(h) / 0x400
    ensures And(h, 0x3FF) == Magnitude16(h) % 0x400
  {
    Power10();
    CutIsDivision(h, 10, 0x400);
    LowFive(h / 0x400);
    TopBits16(h);
  }

  lemma {:induction false} TopBits16(h: Word16)
    ensures h / 0x400 % 32 == Magnitude16(h) / 0x400 && h % 0x400 == Magnitude16(h) % 0x400
  {
  }

  lemma {:induction false} LowFive(x: nat)
    ensures And(x, 0x1F) == x % 32
  {
    assert Shl(1, 5) == 32;
    CutIsDivision(x, 5, 32);
  }

  lemma {:induction false} HalfSign(h: Word16)
    ensures Shl(And(h, 0x8000), 16) == if Negative16(h) then 0x8000_0000 else 0
  {
    Power16();
    AndBit(h, 15);
    CutIsDivision(h, 15, 0x8000);
    ShlZero(16);
    ShlTimes(0x8000, 16);
  }

  lemma {:induction false} LeadingBit(mant: nat)
    requires mant < 0x800
    ensures And(mant, 0x400) == 0 <==> mant < 0x400
    ensures mant >= 0x400 ==> And(mant, 0x3FF) == mant - 0x400
  {
    Power10();
    AndBit(mant, 10);
    CutIsDivision(mant, 10, 0x400);
  }

  lemma {:induction false} ShiftsFit(m: nat, k: nat)
    requires m > 0 && Shl(m, k) < 0x800
    ensures k < 11
  {
    if k >= 11 {
      ShlMoreBits(m, 11, k);
      Power10();
      ShlTwice(1, 10, 1);
      ShlTimes(m, 11);
    }
  }

  lemma {:induction false} Normalized(m: nat, e: nat, mant: nat)
    requires m < 0x400 && Shl(m, e + 1) == mant && 0x400 <= mant < 0x800
    ensures e < 10 && Value32((112 - e) * 0x80_0000 + 0x2000 * (mant - 0x400)) == Value16(m)
  {
    ShlZero(e + 1);
    ShiftsFit(m, e + 1);
    ShlTwice(m, e + 1, 13);
    Power13();
    ShlTimes(mant, 13);
    ShlTwice(m, e + 14, 111 - e);
  }

  lemma {:induction false} NormalWidens(exp: nat, mant: nat)
    requires 0 < exp < 31 && mant < 0x400
    ensures Value32((exp + 112) * 0x80_0000 + 0x2000 * mant) == Value16(0x400 * exp + mant)
  {
    Power13();
    ShlTimes(0x400 + mant, 13);
    ShlTwice(0x400 + mant, 13, exp + 111);
    ShlTwice(0x400 + mant, exp - 1, 125);
  }

  /** The three fields of a binary32 word. */
  lemma {:induction false} Assembled(negative: bool, exp: nat, mant: nat)
    requires exp < 256 && mant < 0x400
    ensures Word(if negative then 0x8000_0000 else 0, Shl(exp, 23), mant)
         == (if negative then 0x8000_0000 else 0) + exp * 0x80_0000 + 0x2000 * mant
    ensures exp == 255 ==> Shl(exp, 23) == 0x7F80_0000
  {
    Power13();
    Power23();
    ShlTimes(exp, 23);
    ShlTimes(mant, 13);
    assert Or(if negative then 0x8000_0000 else 0, Shl(exp, 23)) == (if negative then 0x8000_0000 else 0) + Shl(exp,
                                                                                                                23) by {
      if negative {
        ShlTwice(1, 23, 8);
        ShlTimes(0x80_0000, 8);
        Power8();
        OrFields(1, Shl(exp, 23), 31);
      } else {
        OrZero(Shl(exp, 23));
      }
    }
    var top := if negative then 256 + exp else exp;
    ShlTimes(top, 23);
    OrFields(top, Shl(mant, 13), 23);
  }

  lemma {:induction false} FieldsWiden(h: Word16, exp: nat, mant: nat)
    requires exp < 256 && mant < 0x400
    requires Magnitude16(h) < INFINITY16 ==>
               exp < 255 && Value32(exp * 0x80_0000 + 0x2000 * mant) == Value16(Magnitude16(h))
    requires Magnitude16(h) >= INFINITY16 ==> exp == 255 && mant == Magnitude16(h) - INFINITY16
    ensures var f := Word(if Negative16(h) then 0x8000_0000 else 0, Shl(exp, 23), mant);
            f < 0x1_0000_0000 && Widens(h, f)
    ensures exp == 255 ==> Shl(exp, 23) == 0x7F80_0000
  {
    var mag := exp * 0x80_0000 + 0x2000 * mant;
    Assembled(Negative16(h), exp, mant);
    SignedWord(Negative16(h), mag);
    WordWidens(h, exp, mant, mag, Word(if Negative16(h) then 0x8000_0000 else 0, Shl(exp, 23), mant));
  }

  lemma {:induction false} WordWidens(h: Word16, exp: nat, mant: nat, mag: nat, f: nat)
    requires f < 0x1_0000_0000 && Magnitude32(f) == mag && Negative32(f) == Negative16(h)
    requires mag == exp * 0x80_0000 + 0x2000 * mant && mant < 0x400
    requires Magnitude16(h) < INFINITY16 ==> exp < 255 && Value32(mag) == Value16(Magnitude16(h))
    requires Magnitude16(h) >= INFINITY16 ==> exp == 255 && mant == Magnitude16(h) - INFINITY16
    ensures Widens(h, f)
  {
  }

  lemma {:induction false} SignedWord(negative: bool, mag: nat)
    requires mag < 0x8000_0000
    ensures var f := (if negative then 0x8000_0000 else 0) + mag;
            f < 0x1_0000_0000 && Magnitude32(f) == mag && Negative32(f) == negative
  {
  }
}
