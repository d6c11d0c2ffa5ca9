/** Strided key/value buffers.

    A tensor holds `rows` rows of `stride` units, a unit being the bytes of one
    token in one row: one element of a key row `[H, 1, hd, len]`, or one
    head-dimension vector of a value head `[H, 1, len, hd]`.
 */
module KvLayout {
  import opened Bytes
  import opened Extents

  // ----- bytes and units -----

  /** The `u`-th of the `n` units at the front of a buffer. */
  function UnitAt<T>(buf: seq<T>, unit: nat, n: nat, u: nat): (b: seq<T>)
    requires u < n && Extent(unit, n) <= |buf|
    ensures |b| == unit
  {
    ExtentApart(unit, u, n);
    buf[Extent(unit, u)..Extent(unit, u) + unit]
  }

  /** The `n` units at the front of a buffer. */
  function Units<T>(buf: seq<T>, unit: nat, n: nat): (us: seq<seq<T>>)
    requires Extent(unit, n) <= |buf|
    ensures |us| == n
    ensures forall u :: 0 <= u < n ==> us[u] == UnitAt(buf, unit, n, u)
  {
    seq(n, u requires 0 <= u < n => UnitAt(buf, unit, n, u))
  }

  /** One list with `n` items from `s` of another laid over its own items from `d` on. */
  function Splice<T>(before: seq<T>, d: nat, src: seq<T>, s: nat, n: nat): (after: seq<T>)
    requires d + n <= |before| && s + n <= |src|
    ensures |after| == |before|
    ensures forall u {:trigger after[u]} :: 0 <= u < |after| ==>
              after[u] == if d <= u < d + n then src[s + (u - d)] else before[u]
  {
    seq(|before|, u requires 0 <= u < |before| => if d <= u < d + n then src[s + (u - d)] else before[u])
  }

  lemma {:induction false} SpliceAt<T>(before: seq<T>, d: nat, src: seq<T>, s: nat, n: nat, i: nat)
    requires d + n <= |before| && s + n <= |src| && i < n
    ensures Splice(before, d, src, s, n)[d + i] == src[s + i]
  {
  }

  lemma {:induction false} SpliceSlice<T>(before: seq<T>, d: nat, src: seq<T>, s: nat, n: nat, lo: nat, hi: nat)
    requires d + n <= |before| && s + n <= |src| && lo <= hi <= |before|
    ensures hi <= d || d + n <= lo ==> Splice(before, d, src, s, n)[lo..hi] == before[lo..hi]
    ensures d <= lo && hi <= d + n ==> Splice(before, d, src, s, n)[lo..hi] == src[s + lo - d..s + hi - d]
  {
    var after := Splice(before, d, src, s, n);
    forall u | 0 <= u < hi - lo ensures after[lo..hi][u] == after[lo + u] {
    }
    if hi <= d || d + n <= lo {
      assert forall u :: 0 <= u < hi - lo ==> after[lo..hi][u] == before[lo..hi][u];
      assert after[lo..hi] == before[lo..hi];
    }
    if d <= lo && hi <= d + n {
      var from := src[s + lo - d..s + hi - d];
      assert forall u :: 0 <= u < hi - lo ==> after[lo..hi][u] == from[u];
      assert after[lo..hi] == from;
    }
  }

  /** Where the bytes of unit `u` lie relative to `n` units from `d` on, copied from `s`. */
  lemma {:induction false} UnitLies(unit: nat, d: nat, s: nat, n: nat, u: nat)
    ensures u < d ==> Extent(unit, u) + unit <= Extent(unit, d)
    ensures d + n <= u ==> Extent(unit, d) + Extent(unit, n) <= Extent(unit, u)
    ensures d <= u < d + n ==>
              && Extent(unit, d) <= Extent(unit, u)
              && Extent(unit, u) + unit <= Extent(unit, d) + Extent(unit, n)
              && Extent(unit, s) + Extent(unit, u) - Extent(unit, d) == Extent(unit, s + (u - d))
  {
    if u < d {
      ExtentApart(unit, u, d);
    } else if d + n <= u {
      ExtentOrdered(unit, d + n, u);
      ExtentSum(unit, d, n);
    } else {
      ExtentSum(unit, d, u - d);
      ExtentSum(unit, s, u - d);
      ExtentApart(unit, u - d, n);
    }
  }

  /** Copying whole units byte by byte is copying units. */
  lemma {:induction false} SplicedUnit(before: seq<byte>, d: nat, src: seq<byte>, s: nat, n: nat, unit: nat,
                                       total: nat, srcTotal: nat, u: nat, at: nat, from: nat, len: nat)
    requires d + n <= total && s + n <= srcTotal && u < total
    requires at == Extent(unit, d) && from == Extent(unit, s) && len == Extent(unit, n)
    requires Extent(unit, total) <= |before| && Extent(unit, srcTotal) <= |src|
    requires at + len <= |before| && from + len <= |src|
    ensures UnitAt(Splice(before, at, src, from, len), unit, total, u)
         == if d <= u < d + n then UnitAt(src, unit, srcTotal, s + (u - d)) else UnitAt(before, unit, total, u)
  {
    var after, lo := Splice(before, at, src, from, len), Extent(unit, u);
    ExtentApart(unit, u, total);
    SpliceSlice(before, at, src, from, len, lo, lo + unit);
    UnitLies(unit, d, s, n, u);
    assert UnitAt(after, unit, total, u) == after[lo..lo + unit];
    if d <= u < d + n {
      SourceUnit(src, unit, srcTotal, s + (u - d), from + lo - at);
    } else {
      assert UnitAt(before, unit, total, u) == before[lo..lo + unit];
    }
  }

  lemma {:induction false} SourceUnit(src: seq<byte>, unit: nat, n: nat, u: nat, lo: nat)
    requires u < n && Extent(unit, n) <= |src| && lo == Extent(unit, u)
    ensures lo + unit <= |src| && UnitAt(src, unit, n, u) == src[lo..lo + unit]
  {
    ExtentApart(unit, u, n);
  }

  /** `memcpy` or `memmove` of `n` units: unit `s + i` of the source, as it was before
      the call, becomes unit `d + i`; no other byte changes. */
  method CopyUnits(dst: array<byte>, d: nat, src: seq<byte>, s: nat, n: nat, unit: nat,
                   ghost total: nat, ghost srcTotal: nat)
    requires d + n <= total && s + n <= srcTotal
    requires Extent(unit, total) <= dst.Length && Extent(unit, srcTotal) <= |src|
    modifies dst
    ensures Units(dst[..], unit, total) == Splice(old(Units(dst[..], unit, total)), d, Units(src, unit, srcTotal), s, n)
    ensures dst[Extent(unit, total)..] == old(dst[Extent(unit, total)..])
  {
    ghost var before := dst[..];
    ExtentOrdered(unit, d + n, total);
    ExtentSum(unit, d, n);
    ExtentOrdered(unit, s + n, srcTotal);
    ExtentSum(unit, s, n);
    var at, from, len := Extent(unit, d), Extent(unit, s), Extent(unit, n);
    forall b | 0 <= b < len {
      dst[at + b] := src[from + b];
    }
    assert dst[..] == Splice(before, at, src, from, len);
    forall u | 0 <= u < total
      ensures Units(dst[..], unit, total)[u] == Splice(Units(before, unit, total), d, Units(src, unit, srcTotal), s,
                                                       n)[u]
    {
      SplicedUnit(before, d, src, s, n, unit, total, srcTotal, u, at, from, len);
    }
  }

  // ----- rows and columns -----

  /** The item of row `r` and column `c` of a grid with `stride` columns. */
  function Cell<T>(us: seq<T>, rows: nat, stride: nat, r: nat, c: nat): T
    requires r < rows && c < stride && Extent(stride, rows) <= |us|
  {
    ExtentApart(stride, r, rows);
    us[Extent(stride, r) + c]
  }

  /** What splicing a run of columns into row `q` does to one cell. */
  lemma {:induction false} SplicedCell<T>(before: seq<T>, rows: nat, stride: nat, q: nat, dest: nat,
                                             src: seq<T>, srcStride: nat, srcCol: nat, n: nat, r: nat, c: nat)
    requires q < rows && dest + n <= stride && srcCol + n <= srcStride && r < rows && c < stride
    requires |before| == Extent(stride, rows) && |src| == Extent(srcStride, rows)
    requires Extent(stride, q) + dest + n <= |before| && Extent(srcStride, q) + srcCol + n <= |src|
    ensures Cell(Splice(before, Extent(stride, q) + dest, src, Extent(srcStride, q) + srcCol, n), rows, stride, r, c)
         == if r == q && dest <= c < dest + n then Cell(src, rows, srcStride, r, srcCol + (c - dest))
            else Cell(before, rows, stride, r, c)
  {
    ExtentApart(stride, r, rows);
    if r < q {
      ExtentApart(stride, r, q);
    } else if q < r {
      ExtentApart(stride, q, r);
    }
  }
}
