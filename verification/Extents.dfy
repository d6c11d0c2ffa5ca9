/** Offsets of blocks laid end to end. */
module Extents {

  /** The extent of `n` consecutive blocks of `size` items: the product `n * size`,
      written as a sum so that offsets stay linear for the verifier. */
  function Extent(size: nat, n: nat): (e: nat)
    ensures n > 0 ==> e >= size
  {
    if n == 0 then 0 else Extent(size, n - 1) + size
  }

  lemma {:induction false} ExtentIsProduct(size: nat, n: nat)
    ensures Extent(size, n) == n * size
  {
    if n != 0 {
      ExtentIsProduct(size, n - 1);
    }
  }

  lemma {:induction false} ExtentSum(size: nat, m: nat, n: nat)
    ensures Extent(size, m + n) == Extent(size, m) + Extent(size, n)
  {
    if n != 0 {
      ExtentSum(size, m, n - 1);
    }
  }

  /** Blocks do not overlap: a later block starts where an earlier one has ended. */
  lemma {:induction false} ExtentApart(size: nat, m: nat, n: nat)
    requires m < n
    ensures Extent(size, m) + size <= Extent(size, n)
  {
    ExtentSum(size, m, n - m);
  }

  lemma {:induction false} ExtentOrdered(size: nat, m: nat, n: nat)
    requires m <= n
    ensures Extent(size, m) <= Extent(size, n)
  {
    ExtentSum(size, m, n - m);
  }

  lemma {:induction false} ExtentWider(size: nat, bigger: nat, n: nat)
    requires size <= bigger
    ensures Extent(size, n) <= Extent(bigger, n)
  {
    if n != 0 {
      ExtentWider(size, bigger, n - 1);
    }
  }
}
