/** Scale-offset quantization, in exact real arithmetic. */
module Quantization {

  /** floatToTfN for one element: scale to [0, top], clamp, truncate. */
  function Quantize(x: real, offset: int, scale: real, top: nat): nat
    requires scale > 0.0 && top > 0
  {
    var encodingMin := offset as real * scale;
    var encodingMax := (top as real + offset as real) * scale;
    RangeIsPositive(offset, scale, top);
    Clamp(Scaled(x, top, encodingMin, encodingMax - encodingMin), top)
  }

  function Scaled(x: real, top: nat, low: real, range: real): real
    requires range > 0.0
  {
    top as real * (x - low) / range
  }

  function Clamp(q: real, top: nat): nat {
    if q < 0.0 then 0 else if q > top as real then top else q.Floor
  }

  lemma {:induction false} QuantizeIs(x: real, offset: int, scale: real, top: nat, low: real, range: real)
    requires scale > 0.0 && top > 0 && low == offset as real * scale
    requires range == (top as real + offset as real) * scale - low && range > 0.0
    ensures Quantize(x, offset, scale, top) == Clamp(Scaled(x, top, low, range), top)
  {
    RangeIsPositive(offset, scale, top);
  }

  /** tfNToFloat for one element, before it is rounded to a float. */
  function Dequantize(q: nat, offset: int, scale: real): real {
    (q as real + offset as real) * scale
  }

  lemma {:induction false} RangeIsPositive(offset: int, scale: real, top: nat)
    requires scale > 0.0 && top > 0
    ensures (top as real + offset as real) * scale - offset as real * scale == top as real * scale > 0.0
  {
    assert (top as real + offset as real) * scale == top as real * scale + offset as real * scale;
  }

  /** The scaled value is the number of steps above the lower end. */
  function Steps(x: real, offset: int, scale: real): real
    requires scale > 0.0
  {
    x / scale - offset as real
  }

  lemma {:induction false} Cancel(t: real, d: real)
    requires d > 0.0
    ensures t * d / d == t
  {
  }

  lemma {:induction false} StepsScaled(x: real, offset: int, scale: real)
    requires scale > 0.0
    ensures Steps(x, offset, scale) * scale == x - offset as real * scale
  {
    var r := x / scale;
    assert r * scale == x;
    assert (r - offset as real) * scale == r * scale - offset as real * scale;
  }

  lemma {:induction false} QuantizeBySteps(x: real, offset: int, scale: real, top: nat)
    requires scale > 0.0 && top > 0
    ensures var s := Steps(x, offset, scale);
            Quantize(x, offset, scale, top) == Clamp(s, top)
  {
    var s := Steps(x, offset, scale);
    var d := top as real * scale;
    RangeIsPositive(offset, scale, top);
    StepsScaled(x, offset, scale);
    var low := offset as real * scale;
    SameProduct(top as real, x - low, s, scale);
    var den := (top as real + offset as real) * scale - low;
    assert top as real * (x - low) / den == s * d / d == s by { Cancel(s, d); }
    var q := Scaled(x, top, offset as real * scale, den);
    assert q == s;
    assert Quantize(x, offset, scale, top) == Clamp(q, top);
  }

  lemma {:induction false} SameProduct(t: real, y: real, s: real, scale: real)
    requires y == s * scale
    ensures t * y == s * (t * scale)
  {
  }

  lemma {:induction false} Ordered(a: real, b: real, scale: real)
    requires scale > 0.0
    ensures a < b <==> a * scale < b * scale
  {
    assert (b - a) * scale == b * scale - a * scale;
    if a < b { assert (b - a) * scale > 0.0; }
    if a > b { assert (a - b) * scale > 0.0; }
  }

  /** A value in range comes back from below, less than one step away; a value
      out of range comes back as the nearer end. */
  lemma {:induction false} RoundTripBound(x: real, offset: int, scale: real, top: nat)
    requires scale > 0.0 && top > 0
    ensures var low, high := Dequantize(0, offset, scale), Dequantize(top, offset, scale);
            var q := Quantize(x, offset, scale, top);
            var v := Dequantize(q, offset, scale);
            && q <= top
            && (low <= x <= high ==> 0.0 <= x - v < scale)
            && (x < low ==> v == low)
            && (x > high ==> v == high)
  {
    var s := Steps(x, offset, scale);
    QuantizeBySteps(x, offset, scale, top);
    StepsScaled(x, offset, scale);
    ScaledSum(0, offset, scale);
    ScaledSum(top, offset, scale);
    ScaledSum(Quantize(x, offset, scale, top), offset, scale);
    var q := Quantize(x, offset, scale, top);
    Floored(s, q, scale, top, s * scale, q as real * scale, top as real * scale);
  }

  /** The same, with the lower end moved to zero. */
  lemma {:induction false} Floored(s: real, q: nat, scale: real, top: nat, y: real, v: real, high: real)
    requires scale > 0.0 && q == Clamp(s, top)
    requires y == s * scale && v == q as real * scale && high == top as real * scale
    ensures q <= top
    ensures 0.0 <= y <= high ==> 0.0 <= y - v < scale
    ensures y < 0.0 ==> q == 0
    ensures y > high ==> q == top
  {
    OrderedZero(s, scale);
    Ordered(top as real, s, scale);
    if 0.0 <= s <= top as real {
      assert q as real <= s < q as real + 1.0;
      Between(q as real, s, scale, y, v);
    }
  }

  lemma {:induction false} OrderedZero(s: real, scale: real)
    requires scale > 0.0
    ensures s < 0.0 <==> s * scale < 0.0
  {
    Ordered(s, 0.0, scale);
  }

  lemma {:induction false} Between(q: real, s: real, scale: real, y: real, v: real)
    requires scale > 0.0 && q <= s < q + 1.0 && y == s * scale && v == q * scale
    ensures 0.0 <= y - v < scale
  {
    var next := q + 1.0;
    assert next * scale == v + scale by { Distribute(q, scale); }
    Ordered(s, q, scale);
    Ordered(s, next, scale);
    assert y < next * scale;
  }

  lemma {:induction false} Distribute(q: real, scale: real)
    ensures (q + 1.0) * scale == q * scale + scale
  {
  }

  lemma {:induction false} ScaledSum(q: nat, offset: int, scale: real)
    ensures Dequantize(q, offset, scale) == q as real * scale + offset as real * scale
  {
  }

  lemma {:induction false} QuantizeMonotone(x: real, y: real, offset: int, scale: real, top: nat)
    requires scale > 0.0 && top > 0 && x <= y
    ensures Quantize(x, offset, scale, top) <= Quantize(y, offset, scale, top)
  {
    QuantizeBySteps(x, offset, scale, top);
    QuantizeBySteps(y, offset, scale, top);
    StepsScaled(x, offset, scale);
    StepsScaled(y, offset, scale);
    Ordered(Steps(y, offset, scale), Steps(x, offset, scale), scale);
    ClampMonotone(Steps(x, offset, scale), Steps(y, offset, scale), top);
  }

  lemma {:induction false} ClampMonotone(a: real, b: real, top: nat)
    requires a <= b
    ensures Clamp(a, top) <= Clamp(b, top)
  {
  }

  /** Every code is a fixed point. */
  lemma {:induction false} QuantizeDequantize(q: nat, offset: int, scale: real, top: nat)
    requires scale > 0.0 && q <= top && top > 0
    ensures Quantize(Dequantize(q, offset, scale), offset, scale, top) == q
  {
    var x := Dequantize(q, offset, scale);
    QuantizeBySteps(x, offset, scale, top);
    Cancel(q as real + offset as real, scale);
    assert Steps(x, offset, scale) == q as real;
  }
}
