/** The bitwise operators of C on unsigned words, bit by bit, and what they mean
    arithmetically. */
module Bits {

  function Shl(x: nat, k: nat): nat { if k == 0 then x else 2 * Shl(x, k - 1) }

  function Shr(x: nat, k: nat): nat
    decreases k
  {
    if k == 0 then x else Shr(x / 2, k - 1)
  }

  function And(x: nat, y: nat): nat {
    if x == 0 || y == 0 then 0 else 2 * And(x / 2, y / 2) + if x % 2 == 1 && y % 2 == 1 then 1 else 0
  }

  function Or(x: nat, y: nat): nat
    decreases x + y
  {
    if x == 0 && y == 0 then 0 else 2 * Or(x / 2, y / 2) + if x % 2 == 1 || y % 2 == 1 then 1 else 0
  }

  lemma {:induction false} ShlPositive(x: nat, k: nat)
    ensures Shl(x, k) >= x && (x > 0 ==> Shl(x, k) > 0)
  {
    if k > 0 { ShlPositive(x, k - 1); }
  }

  lemma {:induction false} ShlAdd(x: nat, y: nat, k: nat)
    ensures Shl(x + y, k) == Shl(x, k) + Shl(y, k)
  {
    if k > 0 { ShlAdd(x, y, k - 1); }
  }

  lemma {:induction false} ShlTwice(x: nat, j: nat, k: nat)
    ensures Shl(Shl(x, j), k) == Shl(x, j + k)
  {
    if k > 0 { ShlTwice(x, j, k - 1); }
  }

  lemma {:induction false} ShlOne(x: nat)
    ensures Shl(x, 1) == 2 * x
  {
    assert Shl(x, 0) == x;
  }

  lemma {:induction false} ShlTimes(x: nat, k: nat)
    ensures Shl(x, k) == x * Shl(1, k)
  {
    if k > 0 { ShlTimes(x, k - 1); }
  }

  lemma {:induction false} ShlLess(x: nat, y: nat, k: nat)
    ensures x < y <==> Shl(x, k) < Shl(y, k)
  {
    if k > 0 { ShlLess(x, y, k - 1); }
  }

  lemma {:induction false} ShlMoreBits(x: nat, j: nat, k: nat)
    requires j <= k
    ensures Shl(x, j) <= Shl(x, k)
  {
    if j < k { ShlMoreBits(x, j, k - 1); }
  }

  /** A shift and a mask cut a word in two. */
  lemma {:induction false} Cut(x: nat, k: nat)
    ensures Shl(1, k) > 0
    ensures x == Shl(Shr(x, k), k) + And(x, Shl(1, k) - 1) && And(x, Shl(1, k) - 1) < Shl(1, k)
  {
    if k > 0 {
      Cut(x / 2, k - 1);
      assert (Shl(1, k) - 1) / 2 == Shl(1, k - 1) - 1;
      assert (Shl(1, k) - 1) % 2 == 1;
    } else {
      assert And(x, 0) == 0;
    }
  }

  lemma {:induction false} CutIsDivision(x: nat, k: nat, unit: nat)
    requires unit == Shl(1, k)
    ensures unit > 0 && Shr(x, k) == x / unit && And(x, unit - 1) == x % unit
  {
    Cut(x, k);
    ShlTimes(Shr(x, k), k);
    Quotient(x, unit, Shr(x, k), And(x, unit - 1));
  }

  lemma {:induction false} Quotient(x: nat, unit: nat, q: nat, r: nat)
    requires unit > 0 && x == q * unit + r && r < unit
    ensures q == x / unit && r == x % unit
  {
    var d := x / unit - q;
    assert x == (x / unit) * unit + x % unit;
    assert d * unit == r - x % unit;
    SmallMultiple(d, unit);
  }

  lemma {:induction false} SmallMultiple(d: int, unit: int)
    requires 0 < unit && -unit < d * unit < unit
    ensures d == 0
  {
  }

  lemma {:induction false} AndZero(x: nat)
    ensures And(x, 0) == 0 && And(0, x) == 0
  {
  }

  /** Testing one bit. */
  lemma {:induction false} AndBit(x: nat, k: nat)
    ensures And(x, Shl(1, k)) == if Shr(x, k) % 2 == 1 then Shl(1, k) else 0
  {
    ShlPositive(1, k);
    if k > 0 {
      AndBit(x / 2, k - 1);
    } else {
      AndZero(x / 2);
    }
    if x == 0 { ShrZero(k); }
  }

  lemma {:induction false} ShrZero(k: nat)
    ensures Shr(0, k) == 0
  {
    if k > 0 { ShrZero(k - 1); }
  }

  lemma {:induction false} OrZero(x: nat)
    ensures Or(x, 0) == x && Or(0, x) == x
  {
    if x > 0 { OrZero(x / 2); }
  }

  /** Fields that do not overlap are put together by addition. */
  lemma {:induction false} OrFields(x: nat, y: nat, k: nat)
    requires y < Shl(1, k)
    ensures Or(Shl(x, k), y) == Shl(x, k) + y && Or(y, Shl(x, k)) == Shl(x, k) + y
  {
    if k > 0 {
      OrFields(x, y / 2, k - 1);
    } else {
      OrZero(x);
    }
  }

  /** The powers of two that the formats use. */
  lemma {:induction false} Power8()
    ensures Shl(1, 8) == 256
  {
  }

  lemma {:induction false} Power10()
    ensures Shl(1, 10) == 0x400
  {
    Power8();
  }

  lemma {:induction false} Power13()
    ensures Shl(1, 12) == 0x1000 && Shl(1, 13) == 0x2000
  {
    Power10();
    assert Shl(1, 11) == 0x800;
  }

  lemma {:induction false} Power16()
    ensures Shl(1, 15) == 0x8000 && Shl(1, 16) == 0x1_0000
  {
    Power13();
    assert Shl(1, 14) == 0x4000;
  }

  lemma {:induction false} Power23()
    ensures Shl(1, 23) == 0x80_0000
  {
    Power16();
    ShlTwice(1, 16, 7);
    assert Shl(0x1_0000, 7) == 0x80_0000;
  }
}
