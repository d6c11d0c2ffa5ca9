/** The copies the decode loop makes between strided key/value buffers. */
module KvCopy {
  import opened Extents
  import opened Bytes
  import opened KvLayout

  // ----- selected positions and coalesced runs -----

  /** The selected positions below `n`, in ascending order. */
  function PositionsUpTo(selected: seq<bool>, n: nat): (ps: seq<nat>)
    requires n <= |selected|
  {
    if n == 0 then [] else
      PositionsUpTo(selected, n - 1) + if selected[n - 1] then [n - 1] else []
  }

  function Positions(selected: seq<bool>): seq<nat>
  {
    PositionsUpTo(selected, |selected|)
  }

  /** The list of positions is exactly the selected set, in ascending order. */
  lemma {:induction false} PositionsAreSelected(selected: seq<bool>, n: nat)
    requires n <= |selected|
    ensures forall p :: p in PositionsUpTo(selected, n) <==> 0 <= p < n && selected[p]
    ensures Ascending(PositionsUpTo(selected, n))
  {
    if n != 0 {
      PositionsAreSelected(selected, n - 1);
      var before := PositionsUpTo(selected, n - 1);
      forall p ensures p in PositionsUpTo(selected, n) <==> 0 <= p < n && selected[p] {
        assert p in PositionsUpTo(selected, n) <==> p in before || (p == n - 1 && selected[n - 1]);
      }
      forall k | 0 <= k < |before| ensures before[k] < n - 1 {
        assert before[k] in before;
      }
    }
  }

  ghost predicate Ascending(ps: seq<nat>)
  {
    forall j, k :: 0 <= j < k < |ps| ==> ps[j] < ps[k]
  }

  lemma {:induction false} AscendingInit(ps: seq<nat>, p: nat)
    requires Ascending(ps) && ps != []
    ensures Ascending(ps[..|ps| - 1])
    ensures p in ps[..|ps| - 1] <==> p in ps && p < ps[|ps| - 1]
  {
    var last := |ps| - 1;
    if p in ps && p < ps[last] {
      var j :| 0 <= j < |ps| && ps[j] == p;
      assert ps[..last][j] == p;
    }
  }

  /** An ascending list is determined by its members. */
  lemma {:induction false} AscendingUnique(a: seq<nat>, b: seq<nat>)
    requires Ascending(a) && Ascending(b) && forall p :: p in a <==> p in b
    ensures a == b
    decreases |a|
  {
    assert b != [] ==> b[0] in b;
    if a != [] {
      var m, n := |a| - 1, |b| - 1;
      assert a[m] in a && a[m] in b;
      assert b[n] in b && b[n] in a;
      assert a[m] == b[n];
      forall p ensures p in a[..m] <==> p in b[..n] {
        if p in a[..m] || p in b[..n] {
          AscendingInit(a, p);
          AscendingInit(b, p);
        }
      }
      AscendingInit(a, 0);
      AscendingInit(b, 0);
      AscendingUnique(a[..m], b[..n]);
      assert a == a[..m] + [a[m]] && b == b[..n] + [b[n]];
    }
  }

  datatype CopyRun = CopyRun(srcStart: nat, count: nat)

  function Range(start: nat, count: nat): (r: seq<nat>)
    ensures |r| == count && forall i :: 0 <= i < count ==> r[i] == start + i
  {
    seq(count, i requires 0 <= i => start + i)
  }

  /** The positions covered by the first `k` runs, in order. */
  function Expand(runs: seq<CopyRun>, k: nat): (r: seq<nat>)
    requires k <= |runs|
  {
    if k == 0 then [] else Expand(runs, k - 1) + Range(runs[k - 1].srcStart, runs[k - 1].count)
  }

  lemma {:induction false} ExpandAgree(a: seq<CopyRun>, b: seq<CopyRun>, k: nat)
    requires k <= |a| && k <= |b| && forall i :: 0 <= i < k ==> a[i] == b[i]
    ensures Expand(a, k) == Expand(b, k)
  {
    if k != 0 {
      ExpandAgree(a, b, k - 1);
    }
  }

  lemma {:induction false} ExpandPrefix(runs: seq<CopyRun>, j: nat, k: nat)
    requires j <= k <= |runs|
    ensures Expand(runs, j) <= Expand(runs, k)
    decreases k
  {
    if j < k {
      ExpandPrefix(runs, j, k - 1);
    }
  }

  /** Gathers the selected positions into maximal runs of consecutive positions. */
  method CoalesceRuns(selected: seq<bool>) returns (runs: seq<CopyRun>)
    ensures Expand(runs, |runs|) == Positions(selected)
    ensures forall k :: 0 <= k < |runs| ==> runs[k].count > 0
    ensures forall k :: 0 < k < |runs| ==> runs[k - 1].srcStart + runs[k - 1].count < runs[k].srcStart
  {
    runs := [];
    for pos := 0 to |selected|
      invariant Expand(runs, |runs|) == PositionsUpTo(selected, pos)
      invariant forall k :: 0 <= k < |runs| ==> runs[k].count > 0 && runs[k].srcStart + runs[k].count <= pos
      invariant forall k :: 0 < k < |runs| ==> runs[k - 1].srcStart + runs[k - 1].count < runs[k].srcStart
    {
      if selected[pos] {
        var n := |runs|;
        if n != 0 && runs[n - 1].srcStart + runs[n - 1].count == pos {
          ExpandGrown(runs);
          runs := runs[n - 1 := runs[n - 1].(count := runs[n - 1].count + 1)];
        } else {
          ExpandAgree(runs, runs + [CopyRun(pos, 1)], n);
          assert Range(pos, 1) == [pos];
          runs := runs + [CopyRun(pos, 1)];
        }
      }
    }
  }

  lemma {:induction false} ExpandGrown(runs: seq<CopyRun>)
    requires runs != []
    ensures var n := |runs|; var last := runs[n - 1];
            Expand(runs[n - 1 := last.(count := last.count + 1)], n) == Expand(runs, n) + [last.srcStart + last.count]
  {
    var n := |runs|;
    var last := runs[n - 1];
    var grown := last.(count := last.count + 1);
    ExpandAgree(runs, runs[n - 1 := grown], n - 1);
    assert Range(grown.srcStart, grown.count) == Range(last.srcStart, last.count) + [last.srcStart + last.count];
  }

  // ----- gathering columns -----

  /** The geometry of one copy between two tensors with the same rows and unit size. */
  datatype Geometry = Geometry(rows: nat, unit: nat, inStride: nat, outStride: nat)
  {
    function InUnits(): nat { Extent(inStride, rows) }
    function OutUnits(): nat { Extent(outStride, rows) }

    ghost predicate Fits(dst: seq<byte>, src: seq<byte>)
    {
      Extent(unit, InUnits()) <= |dst| && Extent(unit, OutUnits()) <= |src|
    }
  }

  /** Columns `dest`, `dest + 1`, ... of `after` are columns `picks[0]`, `picks[1]`, ... of
      `src` in the first `done` rows; every other cell is that of `before`. */
  ghost predicate CellsGathered<T>(g: Geometry, after: seq<T>, before: seq<T>, src: seq<T>,
                                   dest: nat, picks: seq<nat>, done: nat)
  {
    && |after| == |before| == g.InUnits() && |src| == g.OutUnits()
    && dest + |picks| <= g.inStride
    && (forall k :: 0 <= k < |picks| ==> picks[k] < g.outStride)
    && (forall r, c :: 0 <= r < g.rows && 0 <= c < g.inStride ==>
          Cell(after, g.rows, g.inStride, r, c)
          == if r < done && dest <= c < dest + |picks| then Cell(src, g.rows, g.outStride, r, picks[c - dest])
             else Cell(before, g.rows, g.inStride, r, c))
  }

  /** The byte-level statement: whole columns are gathered and every other byte is unchanged. */
  ghost predicate Gathered(g: Geometry, after: seq<byte>, before: seq<byte>, src: seq<byte>,
                           dest: nat, picks: seq<nat>)
  {
    && |after| == |before| && g.Fits(before, src)
    && CellsGathered(g, Units(after, g.unit, g.InUnits()), Units(before, g.unit, g.InUnits()),
                     Units(src, g.unit, g.OutUnits()), dest, picks, g.rows)
    && after[Extent(g.unit, g.InUnits())..] == before[Extent(g.unit, g.InUnits())..]
  }

  lemma {:induction false} CellsCompose<T>(g: Geometry, after: seq<T>, middle: seq<T>, before: seq<T>, src: seq<T>,
                                           dest: nat, picks: seq<nat>, more: seq<nat>)
    requires CellsGathered(g, middle, before, src, dest, picks, g.rows)
    requires CellsGathered(g, after, middle, src, dest + |picks|, more, g.rows)
    ensures CellsGathered(g, after, before, src, dest, picks + more, g.rows)
  {
    var all := picks + more;
    forall r, c | 0 <= r < g.rows && 0 <= c < g.inStride
      ensures Cell(after, g.rows, g.inStride, r, c)
           == if dest <= c < dest + |all| then Cell(src, g.rows, g.outStride, r, all[c - dest])
              else Cell(before, g.rows, g.inStride, r, c)
    {
      assert Cell(middle, g.rows, g.inStride, r, c)
          == if dest <= c < dest + |picks| then Cell(src, g.rows, g.outStride, r, picks[c - dest])
             else Cell(before, g.rows, g.inStride, r, c);
    }
  }

  lemma {:induction false} NothingGathered<T>(g: Geometry, us: seq<T>, src: seq<T>, dest: nat, picks: seq<nat>,
                                              done: nat)
    requires |us| == g.InUnits() && |src| == g.OutUnits() && dest + |picks| <= g.inStride
    requires forall k :: 0 <= k < |picks| ==> picks[k] < g.outStride
    requires done == 0 || picks == []
    ensures CellsGathered(g, us, us, src, dest, picks, done)
  {
  }

  /** One run, row by row: a `memcpy` of `count` units per row. */
  method CopyRows(dst: array<byte>, src: seq<byte>, g: Geometry, dstCol: nat, run: CopyRun)
    requires g.Fits(dst[..], src)
    requires dstCol + run.count <= g.inStride && run.srcStart + run.count <= g.outStride
    modifies dst
    ensures Gathered(g, dst[..], old(dst[..]), src, dstCol, Range(run.srcStart, run.count))
  {
    ghost var picks := Range(run.srcStart, run.count);
    ghost var inUnits, outUnits := g.InUnits(), g.OutUnits();
    ghost var before, srcUnits := Units(dst[..], g.unit, inUnits), Units(src, g.unit, outUnits);
    ghost var tail := dst[Extent(g.unit, inUnits)..];
    NothingGathered(g, before, srcUnits, dstCol, picks, 0);
    for row := 0 to g.rows
      invariant CellsGathered(g, Units(dst[..], g.unit, inUnits), before, srcUnits, dstCol, picks, row)
      invariant dst[Extent(g.unit, inUnits)..] == tail
    {
      ghost var middle := Units(dst[..], g.unit, inUnits);
      ExtentApart(g.inStride, row, g.rows);
      ExtentApart(g.outStride, row, g.rows);
      var at, from := Extent(g.inStride, row) + dstCol, Extent(g.outStride, row) + run.srcStart;
      CopyUnits(dst, at, src, from, run.count, g.unit, inUnits, outUnits);
      NextRowGathered(g, Units(dst[..], g.unit, inUnits), middle, before, srcUnits, dstCol, run, picks, row, at, from);
    }
  }

  lemma {:induction false} NextRowGathered<T>(g: Geometry, after: seq<T>, middle: seq<T>, before: seq<T>, src: seq<T>,
                                              dest: nat, run: CopyRun, picks: seq<nat>, row: nat, at: nat, from: nat)
    requires row < g.rows && run.srcStart + run.count <= g.outStride && picks == Range(run.srcStart, run.count)
    requires CellsGathered(g, middle, before, src, dest, picks, row)
    requires at == Extent(g.inStride, row) + dest && from == Extent(g.outStride, row) + run.srcStart
    requires at + run.count <= |middle| && from + run.count <= |src|
    requires after == Splice(middle, at, src, from, run.count)
    ensures CellsGathered(g, after, before, src, dest, picks, row + 1)
  {
    ExtentApart(g.inStride, row, g.rows);
    ExtentApart(g.outStride, row, g.rows);
    forall r, c | 0 <= r < g.rows && 0 <= c < g.inStride
      ensures Cell(after, g.rows, g.inStride, r, c)
           == if r < row + 1 && dest <= c < dest + |picks| then Cell(src, g.rows, g.outStride, r, picks[c - dest])
              else Cell(before, g.rows, g.inStride, r, c)
    {
      SplicedCell(middle, g.rows, g.inStride, row, dest, src, g.outStride, run.srcStart, run.count, r, c);
    }
  }

  /** All selected positions of one tensor, run by run, into columns from `dest` on. */
  method CopySelected(dst: array<byte>, src: seq<byte>, g: Geometry, dest: nat, runs: seq<CopyRun>)
    requires g.Fits(dst[..], src)
    requires forall k :: 0 <= k < |runs| ==> runs[k].count > 0
    requires dest + |Expand(runs, |runs|)| <= g.inStride
    requires forall k :: 0 <= k < |Expand(runs, |runs|)| ==> Expand(runs, |runs|)[k] < g.outStride
    modifies dst
    ensures Gathered(g, dst[..], old(dst[..]), src, dest, Expand(runs, |runs|))
  {
    ghost var inUnits, srcUnits := g.InUnits(), Units(src, g.unit, g.OutUnits());
    ghost var before := Units(dst[..], g.unit, inUnits);
    NothingGathered(g, before, srcUnits, dest, [], g.rows);
    var dstCol := dest;
    for k := 0 to |runs|
      invariant dstCol == dest + |Expand(runs, k)|
      invariant CellsGathered(g, Units(dst[..], g.unit, inUnits), before, srcUnits, dest, Expand(runs, k), g.rows)
      invariant dst[Extent(g.unit, inUnits)..] == old(dst[Extent(g.unit, inUnits)..])
    {
      ghost var middle := Units(dst[..], g.unit, inUnits);
      RunInside(runs, k, g.outStride);
      CopyRows(dst, src, g, dstCol, runs[k]);
      CellsCompose(g, Units(dst[..], g.unit, inUnits), middle, before, srcUnits, dest,
                   Expand(runs, k), Range(runs[k].srcStart, runs[k].count));
      dstCol := dstCol + runs[k].count;
    }
  }

  lemma {:induction false} RunInside(runs: seq<CopyRun>, k: nat, bound: nat)
    requires k < |runs| && runs[k].count > 0
    requires forall i :: 0 <= i < |Expand(runs, |runs|)| ==> Expand(runs, |runs|)[i] < bound
    ensures |Expand(runs, k)| + runs[k].count <= |Expand(runs, |runs|)|
    ensures runs[k].srcStart + runs[k].count <= bound
  {
    var all, upto := Expand(runs, |runs|), Expand(runs, k + 1);
    ExpandPrefix(runs, k + 1, |runs|);
    var last := |Expand(runs, k)| + runs[k].count - 1;
    assert upto[last] == runs[k].srcStart + runs[k].count - 1;
    assert all[last] == upto[last];
  }
}
