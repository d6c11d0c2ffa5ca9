/** What the two conversions mean for each other and for the order of values,
    and the loops that apply them to arrays. */
module HalfArrays {
  import opened Bits
  import opened Half

  function Signed32(x: Word32): int {
    var v: int := Value32(Magnitude32(x));
    if Negative32(x) then -v else v
  }

  function Signed16(h: Word16): int {
    var v: int := Value16(Magnitude16(h));
    if Negative16(h) then -v else v
  }

  lemma {:induction false} NearestMonotone(v: nat, w: nat, g: nat, h: nat)
    requires v <= w && Nearest(v, g) && Nearest(w, h)
    ensures g <= h
  {
    if g > h {
      Increasing16(h, g);
      if g > h + 1 {
        assert Distance(v, Value16(g)) <= Distance(v, Value16(h + 1));
        Increasing16(h, h + 1);
        Increasing16(h + 1, g);
      }
    }
  }

  /** The two cases of Rounds in one: infinity is nearest from its value on. */
  lemma {:induction false} RoundsToInfinity(v: nat)
    requires v >= Value16(INFINITY16)
    ensures Nearest(v, INFINITY16)
  {
    forall g: nat | g < INFINITY16 ensures Value16(g) < Value16(INFINITY16) { Increasing16(g, INFINITY16); }
  }

  lemma {:induction false} RoundsNearest(x: Word32, h: Word16)
    requires Rounds(x, h)
    ensures Nearest(Value32(Magnitude32(x)), Magnitude16(h))
  {
    var mag := Magnitude32(x);
    LargeValues(mag);
    if Value32(mag) >= Value16(INFINITY16) { RoundsToInfinity(Value32(mag)); }
  }

  lemma {:induction false} SameHalf(g: Word16, h: Word16)
    requires Negative16(g) == Negative16(h) && Magnitude16(g) == Magnitude16(h)
    ensures g == h
  {
  }

  /** floatToHalf is determined by what it promises. */
  lemma {:induction false} RoundsUnique(x: Word32, g: Word16, h: Word16)
    requires Rounds(x, g) && Rounds(x, h)
    ensures g == h
  {
    RoundsNearest(x, g);
    RoundsNearest(x, h);
    var v := Value32(Magnitude32(x));
    NearestMonotone(v, v, Magnitude16(g), Magnitude16(h));
    NearestMonotone(v, v, Magnitude16(h), Magnitude16(g));
    SameHalf(g, h);
  }

  /** Widening a half and rounding it back gives the same bits. */
  lemma {:induction false} RoundTrip(h: Word16, x: Word32, back: Word16)
    requires !IsNaN16(h) && Widens(h, x) && Rounds(x, back)
    ensures back == h
  {
    var m, r := Magnitude16(h), Magnitude16(back);
    if m < INFINITY16 {
      RoundsNearest(x, back);
      NearestOfExact(Value32(Magnitude32(x)), m, r);
    }
    SameHalf(back, h);
  }

  lemma {:induction false} NearestOfExact(v: nat, m: nat, r: nat)
    requires m <= INFINITY16 && v == Value16(m) && Nearest(v, r)
    ensures r == m
  {
    if r < m { Increasing16(r, m); }
    if m < r { Increasing16(m, r); }
  }

  /** Equal or larger values round to equal or larger values. */
  lemma {:induction false} RoundsMonotone(x: Word32, y: Word32, g: Word16, h: Word16)
    requires !IsNaN32(x) && !IsNaN32(y) && Rounds(x, g) && Rounds(y, h)
    requires Signed32(x) <= Signed32(y)
    ensures Signed16(g) <= Signed16(h)
  {
    RoundsNearest(x, g);
    RoundsNearest(y, h);
    if Negative32(x) && Negative32(y) {
      RoundsOrdered(y, x, h, g);
    } else if !Negative32(x) && !Negative32(y) {
      RoundsOrdered(x, y, g, h);
    } else if Negative32(y) {
      ZeroRounds(Value32(Magnitude32(x)), Magnitude16(g));
      ZeroRounds(Value32(Magnitude32(y)), Magnitude16(h));
    }
  }

  lemma {:induction false} RoundsOrdered(x: Word32, y: Word32, g: Word16, h: Word16)
    requires Nearest(Value32(Magnitude32(x)), Magnitude16(g)) && Nearest(Value32(Magnitude32(y)), Magnitude16(h))
    requires Value32(Magnitude32(x)) <= Value32(Magnitude32(y))
    ensures Value16(Magnitude16(g)) <= Value16(Magnitude16(h))
  {
    NearestMonotone(Value32(Magnitude32(x)), Value32(Magnitude32(y)), Magnitude16(g), Magnitude16(h));
    if Magnitude16(g) < Magnitude16(h) { Increasing16(Magnitude16(g), Magnitude16(h)); }
  }

  lemma {:induction false} ZeroRounds(v: nat, h: nat)
    requires v == 0 && Nearest(v, h)
    ensures Value16(h) == 0
  {
    ShlZero(125);
    if h > 0 { Increasing16(0, h); }
  }

  /** The overflow threshold is 65520, half way between the largest half, 65504,
      and 65536. */
  lemma {:induction false} OverflowsFrom65520(x: Word32, h: Word16)
    requires Rounds(x, h) && Magnitude32(x) < INFINITY32
    ensures Magnitude16(h) == INFINITY16 <==> Value32(Magnitude32(x)) >= Shl(65520, 149)
  {
    RoundsNearest(x, h);
    OverflowMidpoint(Value32(Magnitude32(x)), Magnitude16(h), 0x7BFF, 65520);
  }

  lemma {:induction false} OverflowMidpoint(v: nat, h: nat, last: nat, limit: nat)
    requires Nearest(v, h) && last == 0x7BFF && limit == 65520
    ensures h == INFINITY16 <==> v >= Shl(limit, 149)
  {
    Increasing16(last, last + 1);
    HalfWay(last, limit);
    if h < last { Increasing16(h, last); }
    assert h == INFINITY16 ==> Distance(v, Value16(h)) <= Distance(v, Value16(last));
  }

  lemma {:induction false} HalfWay(last: nat, limit: nat)
    requires last == 0x7BFF && limit == 65520
    ensures 2 * Shl(limit, 149) == Value16(last) + Value16(last + 1)
  {
    Thousands(last, 0x7FF, 29, 5, 65504);
    Thousands(last + 1, 0x400, 30, 6, 65536);
    ShlTimes(limit, 149);
  }

  lemma {:induction false} Thousands(h: nat, m: nat, e: nat, j: nat, value: nat)
    requires h >= 0x400 && m == 0x400 + h % 0x400 && e == h / 0x400 - 1 && e == j + 24
    requires j <= 6 && m * Shl(1, j) == value
    ensures Value16(h) == value * Shl(1, 149)
  {
    ShlTwice(m, e, 125);
    ShlTwice(m, j, 149);
    ShlTimes(m, j);
    ShlTimes(value, 149);
  }

  // ---- the loops over arrays ---------------------------------------------------------

  method Narrow(x: Word32) returns (h: Word16)
    ensures h == FloatToHalf(x) && Rounds(x, h)
  {
    FloatToHalfRounds(x);
    h := FloatToHalf(x);
  }

  method FloatToFloat16(out: array<Word16>, input: array<Word32>, n: nat)
    requires n <= out.Length && n <= input.Length
    modifies out
    ensures forall i :: 0 <= i < n ==> Rounds(input[i], out[i])
    ensures forall i :: n <= i < out.Length ==> out[i] == old(out[i])
  {
    for i := 0 to n
      invariant AllRound(input[..i], out[..i])
      invariant out[i..] == old(out[i..])
    {
      ghost var done := out[..i];
      var h := Narrow(input[i]);
      out[i] := h;
      AllRoundMore(input[..i], done, input[i], h);
      assert input[..i + 1] == input[..i] + [input[i]] && out[..i + 1] == done + [h];
    }
    RoundEach(input[..n], out[..n]);
  }

  /** Every half is what its word rounds to. */
  ghost predicate AllRound(xs: seq<Word32>, hs: seq<Word16>) {
    |xs| == |hs| && forall i :: 0 <= i < |xs| ==> Rounds(xs[i], hs[i])
  }

  lemma {:induction false} AllRoundMore(xs: seq<Word32>, hs: seq<Word16>, x: Word32, h: Word16)
    requires AllRound(xs, hs) && Rounds(x, h)
    ensures AllRound(xs + [x], hs + [h])
  {
    forall i | 0 <= i < |xs| + 1 ensures Rounds((xs + [x])[i], (hs + [h])[i]) {
      if i < |xs| {
        assert Rounds(xs[i], hs[i]);
      }
    }
  }

  lemma {:induction false} RoundEach(xs: seq<Word32>, hs: seq<Word16>)
    requires AllRound(xs, hs)
    ensures forall i :: 0 <= i < |xs| ==> Rounds(xs[i], hs[i])
  {
  }

  method Float16ToFloat(out: array<Word32>, input: array<Word16>, n: nat)
    requires n <= out.Length && n <= input.Length
    modifies out
    ensures forall i :: 0 <= i < n ==> Widens(input[i], out[i])
    ensures forall i :: n <= i < out.Length ==> out[i] == old(out[i])
  {
    for i := 0 to n
      invariant forall k :: 0 <= k < i ==> Widens(input[k], out[k])
      invariant forall k :: i <= k < out.Length ==> out[k] == old(out[k])
    {
      out[i] := HalfToFloat(input[i]);
    }
  }
}
