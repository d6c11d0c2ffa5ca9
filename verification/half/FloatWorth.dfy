/** What a binary32 word is worth, by its fields: sign, exponent and fraction
    (section 3.4 of IEEE 754-2019). */
module FloatWorth {
  import opened Bits
  import opened Half

  /** Two to the power of `k`. */
  function Pow2(k: int): real
    decreases if k < 0 then -k else k
  {
    if k == 0 then 1.0 else if k > 0 then 2.0 * Pow2(k - 1) else Pow2(k + 1) / 2.0
  }

  lemma {:induction false} Pow2Next(k: int)
    ensures Pow2(k + 1) == 2.0 * Pow2(k)
  {
  }

  /** The sign, the exponent field and the fraction. */
  datatype FieldsOf32 = FieldsOf32(negative: bool, exponent: nat, fraction: nat)

  /** The word with these fields. */
  predicate HasFields(x: Word32, w: FieldsOf32) {
    && w.exponent < 256 && w.fraction < 8388608
    && x == (if w.negative then 2147483648 else 0) + 8388608 * w.exponent + w.fraction
  }

  /** A normal number has a leading one; a subnormal has none and the smallest exponent. */
  function Size(w: FieldsOf32): real {
    if w.exponent == 0 then w.fraction as real * Pow2(w.exponent - 149)
    else (8388608 + w.fraction) as real * Pow2(w.exponent - 150)
  }

  function Worth(w: FieldsOf32): real { if w.negative then -Size(w) else Size(w) }

  lemma {:induction false} SameSize(v: FieldsOf32, w: FieldsOf32)
    requires v.exponent == w.exponent && v.fraction == w.fraction
    ensures Size(v) == Size(w)
  {
  }

  function Fields(x: Word32): (w: FieldsOf32)
    ensures HasFields(x, w)
  {
    var rest := x % 2147483648;
    FieldsOf32(x >= 2147483648, rest / 8388608, rest % 8388608)
  }

  /** The scaled value of a magnitude, as a real number. */
  lemma {:induction false} UnitsAreWorth(k: nat)
    ensures Shl(1, k) as real == Pow2(k)
  {
    if k > 0 {
      UnitsAreWorth(k - 1);
    }
  }

  lemma {:induction false} PowersCancel(k: nat)
    ensures Pow2(k) * Pow2(0 - k) == 1.0
  {
    if k > 0 {
      PowersCancel(k - 1);
      assert Pow2(0 - k) == Pow2(1 - k) / 2.0;
      Halved(Pow2(k - 1), Pow2(1 - k));
    }
  }

  lemma {:induction false} Halved(a: real, b: real)
    ensures (2.0 * a) * (b / 2.0) == a * b
  {
  }

  lemma {:induction false} PowersAdd(j: nat, k: int)
    ensures Pow2(k + j) == Pow2(j) * Pow2(k)
  {
    if j > 0 {
      PowersAdd(j - 1, k);
      Pow2Next(k + j - 1);
      Moved(Pow2(j - 1), Pow2(k));
    }
  }

  lemma {:induction false} Moved(a: real, b: real)
    ensures 2.0 * (a * b) == (2.0 * a) * b
  {
  }

  /** The value in units of 2^-149 is the worth in those units. */
  lemma {:induction false} SizeOfValue(w: FieldsOf32, v: nat, unit: real, k: int, size: real)
    requires v == if w.exponent == 0 then w.fraction else Shl(8388608 + w.fraction, w.exponent - 1)
    requires k == -149 && unit == Pow2(k) && size == Size(w)
    ensures v as real * unit == size
  {
    if w.exponent > 0 {
      NormalSize(8388608 + w.fraction, w.exponent - 1, v, k, unit, Pow2(w.exponent - 150));
    }
  }

  lemma {:induction false} NormalSize(m: nat, e: nat, v: nat, k: int, q: real, r: real)
    requires v == Shl(m, e) && q == Pow2(k) && r == Pow2(k + e)
    ensures v as real * q == m as real * r
  {
    var s, p := Shl(1, e), Pow2(e);
    ShlTimes(m, e);
    UnitsAreWorth(e);
    PowersAdd(e, k);
    Times(m, s, v, p, q, r);
  }

  lemma {:induction false} FieldsRead(x: Word32, w: FieldsOf32)
    requires HasFields(x, w) && w.exponent < 255
    ensures Magnitude32(x) < INFINITY32 && Negative32(x) == w.negative
    ensures Value32(Magnitude32(x)) == if w.exponent == 0 then w.fraction
                                       else Shl(8388608 + w.fraction, w.exponent - 1)
  {
    var mag := 8388608 * w.exponent + w.fraction;
    assert Magnitude32(x) == mag;
    QuotientIs(mag, w.exponent, w.fraction);
  }

  lemma {:induction false} QuotientIs(mag: nat, e: nat, m: nat)
    requires mag == 8388608 * e + m && m < 8388608
    ensures mag / 0x80_0000 == e && mag % 0x80_0000 == m
  {
  }

  lemma {:induction false} Times(m: nat, s: nat, v: nat, p: real, q: real, r: real)
    requires v == m * s && s as real == p && r == p * q
    ensures v as real * q == m as real * r
  {
    assert v as real == m as real * p;
    assert (m as real * p) * q == m as real * (p * q);
  }

  // ---- some words ------------------------------------------------------------------

  /** Every integer up to 2^24 has an encoding that is worth exactly it: the leading one at 2^e, the
      other bits behind it. */
  lemma {:induction false} IntegerIsExact(n: nat, e: nat) returns (w: FieldsOf32)
    requires e <= 23 && Shl(1, e) <= n < 2 * Shl(1, e)
    ensures w.exponent == 127 + e && !w.negative && w.fraction == n * Shl(1, 23 - e) - 8388608 < 8388608
    ensures Size(w) == n as real && Worth(w) == n as real
  {
    var up := Shl(1, 23 - e);
    BlocksFill(e, up);
    InBlock(n, Shl(1, e), up);
    w := FieldsOf32(false, 127 + e, n * up - 8388608);
    SizeOfInteger(w, n, 23 - e, up);
  }

  lemma {:induction false} SizeOfInteger(w: FieldsOf32, n: nat, k: nat, up: nat)
    requires up == Shl(1, k) && 8388608 + w.fraction == n * up && w.exponent + k == 150 && k < 150
    ensures Size(w) == n as real
  {
    var p, q := Pow2(k), Pow2(w.exponent - 150);
    UnitsAreWorth(k);
    PowersCancel(k);
    assert w.exponent - 150 == 0 - k;
    PowerOut(n, up, p, q);
  }

  lemma {:induction false} BlocksFill(e: nat, up: nat)
    requires e <= 23 && up == Shl(1, 23 - e)
    ensures up * Shl(1, e) == 8388608
  {
    ShlTwice(1, 23 - e, e);
    ShlTimes(up, e);
    Power2To23();
  }

  lemma {:induction false} Power2To23()
    ensures Shl(1, 23) == 8388608
  {
    assert Shl(1, 8) == 256;
    assert Shl(1, 16) == 65536;
    assert Shl(1, 20) == 1048576;
  }

  lemma {:induction false} InBlock(n: nat, low: nat, up: nat)
    requires low <= n < 2 * low && up * low == 8388608
    ensures 8388608 <= n * up < 16777216
  {
    assert (n - low) * up >= 0 && (2 * low - n - 1) * up >= 0 && up > 0;
    assert n * up == (n - low) * up + low * up;
    assert 2 * low * up - n * up == (2 * low - n) * up;
    assert (2 * low - n) * up == (2 * low - n - 1) * up + up;
  }

  lemma {:induction false} PowerOut(n: nat, up: nat, p: real, q: real)
    requires up as real == p && p * q == 1.0
    ensures (n * up) as real * q == n as real
  {
    assert (n * up) as real == n as real * p;
    assert (n as real * p) * q == n as real * (p * q);
  }
}
