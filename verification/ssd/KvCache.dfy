/** The key/value cache seen as a sequence of entries, one per column: the units
    that a token occupies in every row of every key and value tensor.
 */
module KvCache {
  import opened Extents
  import opened Bytes
  import opened KvLayout
  import opened KvCopy
  import opened KvReshape
  import opened TensorSpec

  /** A tensor's rows, the bytes of one token in a row, and its element type. */
  datatype TensorShape = TensorShape(rows: nat, unit: nat, dtype: DType)

  type Shape = s: TensorShape | WholeElements(s.unit, s.dtype) witness TensorShape(0, 0, UInt8)

  type Entry = seq<seq<seq<byte>>>

  ghost predicate EntryFits(shapes: seq<Shape>, e: Entry)
  {
    |e| == |shapes| && forall t :: 0 <= t < |shapes| ==> ColumnFits(shapes[t], e[t])
  }

  ghost predicate ColumnFits(shape: Shape, column: seq<seq<byte>>)
  {
    |column| == shape.rows && forall r :: 0 <= r < shape.rows ==> |column[r]| == shape.unit
  }

  /** A buffer is long enough for its tensor at a given stride. */
  predicate Room(shape: Shape, buf: seq<byte>, stride: nat)
  {
    Extent(shape.unit, Extent(stride, shape.rows)) <= |buf|
  }

  ghost predicate Rooms(shapes: seq<Shape>, bufs: seq<seq<byte>>, stride: nat)
  {
    |bufs| == |shapes| && forall t :: 0 <= t < |shapes| ==> Room(shapes[t], bufs[t], stride)
  }

  /** Column `c` of one tensor. */
  function ColumnAt(shape: Shape, buf: seq<byte>, stride: nat, c: nat): (column: seq<seq<byte>>)
    requires Room(shape, buf, stride) && c < stride
    ensures |column| == shape.rows
  {
    var us := Units(buf, shape.unit, Extent(stride, shape.rows));
    seq(shape.rows, r requires 0 <= r < shape.rows => Cell(us, shape.rows, stride, r, c))
  }

  /** Column `c` of every tensor. */
  function EntryAt(shapes: seq<Shape>, bufs: seq<seq<byte>>, stride: nat, c: nat): (e: Entry)
    requires Rooms(shapes, bufs, stride) && c < stride
    ensures |e| == |shapes|
  {
    seq(|shapes|, t requires 0 <= t < |shapes| => ColumnAt(shapes[t], bufs[t], stride, c))
  }

  /** All columns, in order. */
  function Columns(shapes: seq<Shape>, bufs: seq<seq<byte>>, stride: nat): (cols: seq<Entry>)
    requires Rooms(shapes, bufs, stride)
    ensures |cols| == stride
    ensures forall c :: 0 <= c < stride ==> cols[c] == EntryAt(shapes, bufs, stride, c)
  {
    seq(stride, c requires 0 <= c < stride => EntryAt(shapes, bufs, stride, c))
  }

  /** Where the bytes of a column lie: byte `b` of row `r` of column `c` is at `(r * stride + c) * unit + b`. */
  lemma {:induction false} ColumnBytes(shape: Shape, buf: seq<byte>, stride: nat, c: nat, r: nat, b: nat)
    requires Room(shape, buf, stride) && c < stride && r < shape.rows && b < shape.unit
    ensures |ColumnAt(shape, buf, stride, c)[r]| == shape.unit
    ensures 0 <= (r * stride + c) * shape.unit + b < |buf|
    ensures ColumnAt(shape, buf, stride, c)[r][b] == buf[(r * stride + c) * shape.unit + b]
  {
    var n, u := Extent(stride, shape.rows), Extent(stride, r) + c;
    ExtentApart(stride, r, shape.rows);
    ExtentApart(shape.unit, u, n);
    ExtentIsProduct(stride, r);
    ExtentIsProduct(shape.unit, u);
    assert UnitAt(buf, shape.unit, n, u)[b] == buf[Extent(shape.unit, u) + b];
  }

  function GeometryOf(shape: Shape, inStride: nat, outStride: nat): Geometry
  {
    Geometry(shape.rows, shape.unit, inStride, outStride)
  }

  /** Every tensor has gathered the picked output columns from `dest` on. */
  ghost predicate AllGathered(shapes: seq<Shape>, after: seq<seq<byte>>, before: seq<seq<byte>>, outs: seq<seq<byte>>,
                              inStride: nat, outStride: nat, dest: nat, picks: seq<nat>)
  {
    && |shapes| == |after| == |before| == |outs|
    && forall t :: 0 <= t < |shapes| ==>
         Gathered(GeometryOf(shapes[t], inStride, outStride), after[t], before[t], outs[t], dest, picks)
  }

  lemma {:induction false} GatheredColumn(shape: Shape, after: seq<byte>, before: seq<byte>, src: seq<byte>,
                                          inStride: nat, outStride: nat, dest: nat, picks: seq<nat>, c: nat)
    requires Gathered(GeometryOf(shape, inStride, outStride), after, before, src, dest, picks) && c < inStride
    ensures ColumnAt(shape, after, inStride, c)
         == if dest <= c < dest + |picks| then ColumnAt(shape, src, outStride, picks[c - dest])
            else ColumnAt(shape, before, inStride, c)
  {
  }

  /** Gathering in every tensor gathers whole entries. */
  lemma {:induction false} GatheredEntry(shapes: seq<Shape>, after: seq<seq<byte>>, before: seq<seq<byte>>,
                                         outs: seq<seq<byte>>, inStride: nat, outStride: nat, dest: nat,
                                         picks: seq<nat>, c: nat)
    requires AllGathered(shapes, after, before, outs, inStride, outStride, dest, picks)
    requires Rooms(shapes, after, inStride) && Rooms(shapes, before, inStride) && Rooms(shapes, outs, outStride)
    requires c < inStride && dest + |picks| <= inStride
    requires forall k :: 0 <= k < |picks| ==> picks[k] < outStride
    ensures EntryAt(shapes, after, inStride, c)
         == if dest <= c < dest + |picks| then EntryAt(shapes, outs, outStride, picks[c - dest])
            else EntryAt(shapes, before, inStride, c)
  {
    forall t | 0 <= t < |shapes|
      ensures EntryAt(shapes, after, inStride, c)[t]
           == if dest <= c < dest + |picks| then EntryAt(shapes, outs, outStride, picks[c - dest])[t]
              else EntryAt(shapes, before, inStride, c)[t]
    {
      GatheredColumn(shapes[t], after[t], before[t], outs[t], inStride, outStride, dest, picks, c);
    }
  }

  lemma {:induction false} FrontUnit(buf: seq<byte>, unit: nat, n: nat, total: nat, stride: nat, rows: nat, r: nat,
                                     c: nat)
    requires n <= total && Extent(unit, n) <= |buf| && Extent(unit, total) <= |buf|
    requires n == Extent(stride, rows) && r < rows && c < stride
    ensures Extent(stride, r) + c < n
    ensures Cell(Units(buf, unit, n), rows, stride, r, c) == Units(buf, unit, total)[Extent(stride, r) + c]
  {
    ExtentApart(stride, r, rows);
  }

  /** A stride change of one tensor keeps its first columns. */
  lemma {:induction false} ReshapedColumn(shape: Shape, after: seq<byte>, before: seq<byte>, w: Restride, c: nat)
    requires w.Valid() && w.rows == shape.rows && c < w.keep
    requires Extent(shape.unit, w.Total()) <= |after| == |before|
    requires Room(shape, after, w.newStride) && Room(shape, before, w.oldStride)
    requires RowsMoved(w, Units(after, shape.unit, w.Total()), Units(before, shape.unit, w.Total()), 0, w.rows)
    ensures ColumnAt(shape, after, w.newStride, c) == ColumnAt(shape, before, w.oldStride, c)
  {
    var now, was := Units(after, shape.unit, w.Total()), Units(before, shape.unit, w.Total());
    InTotal(w);
    forall r | 0 <= r < w.rows
      ensures ColumnAt(shape, after, w.newStride, c)[r] == ColumnAt(shape, before, w.oldStride, c)[r]
    {
      assert Moved(w, now, was, r, c);
      ColumnUnit(shape, after, w.newStride, w.Total(), r, c);
      ColumnUnit(shape, before, w.oldStride, w.Total(), r, c);
    }
  }

  lemma {:induction false} ColumnUnit(shape: Shape, buf: seq<byte>, stride: nat, total: nat, r: nat, c: nat)
    requires Room(shape, buf, stride) && r < shape.rows && c < stride
    requires Extent(stride, shape.rows) <= total && Extent(shape.unit, total) <= |buf|
    ensures Extent(stride, r) + c < total
    ensures ColumnAt(shape, buf, stride, c)[r] == Units(buf, shape.unit, total)[Extent(stride, r) + c]
  {
    FrontUnit(buf, shape.unit, Extent(stride, shape.rows), total, stride, shape.rows, r, c);
  }

  /** Gathering after the valid columns appends the gathered entries to them. */
  lemma {:induction false} GatheredAppends(shapes: seq<Shape>, after: seq<seq<byte>>, before: seq<seq<byte>>,
                                           outs: seq<seq<byte>>, inStride: nat, outStride: nat, lo: nat, dest: nat,
                                           picks: seq<nat>, added: seq<Entry>)
    requires AllGathered(shapes, after, before, outs, inStride, outStride, dest, picks)
    requires Rooms(shapes, after, inStride) && Rooms(shapes, before, inStride) && Rooms(shapes, outs, outStride)
    requires lo <= dest && dest + |picks| <= inStride && |added| == |picks|
    requires forall k :: 0 <= k < |picks| ==> picks[k] < outStride && EntryAt(shapes, outs, outStride,
                                                                              picks[k]) == added[k]
    ensures Columns(shapes, after, inStride)[lo..dest + |picks|] == Columns(shapes, before, inStride)[lo..dest] + added
  {
    var now, was := Columns(shapes, after, inStride), Columns(shapes, before, inStride);
    forall c | lo <= c < dest + |picks|
      ensures now[c] == if c < dest then was[c] else added[c - dest]
    {
      GatheredEntry(shapes, after, before, outs, inStride, outStride, dest, picks, c);
    }
    forall i | 0 <= i < dest + |picks| - lo
      ensures now[lo..dest + |picks|][i] == (was[lo..dest] + added)[i]
    {
      assert now[lo + i] == if lo + i < dest then was[lo + i] else added[lo + i - dest];
    }
  }

  // ----- laying out the outputs of a pass -----

  /** A list of equally long pieces laid end to end. */
  function Flatten<T>(pieces: seq<seq<T>>, unit: nat, n: nat): (flat: seq<T>)
    requires n <= |pieces| && forall u :: 0 <= u < n ==> |pieces[u]| == unit
    ensures |flat| == Extent(unit, n)
  {
    if n == 0 then [] else Flatten(pieces, unit, n - 1) + pieces[n - 1]
  }

  lemma {:induction false} FlattenUnit<T>(pieces: seq<seq<T>>, unit: nat, n: nat, u: nat)
    requires n <= |pieces| && (forall i :: 0 <= i < n ==> |pieces[i]| == unit) && u < n
    ensures Extent(unit, u) + unit <= Extent(unit, n)
    ensures Flatten(pieces, unit, n)[Extent(unit, u)..Extent(unit, u) + unit] == pieces[u]
    decreases n
  {
    if u < n - 1 {
      FlattenUnit(pieces, unit, n - 1, u);
    }
  }

  /** The units of a grid, row by row, from its columns. */
  function Grid<T>(columns: seq<seq<T>>, rows: nat): (us: seq<T>)
    requires forall c :: 0 <= c < |columns| ==> rows <= |columns[c]|
    ensures |us| == Extent(|columns|, rows)
  {
    if rows == 0 then [] else
      Grid(columns, rows - 1) + seq(|columns|, c requires 0 <= c < |columns| => columns[c][rows - 1])
  }

  lemma {:induction false} GridCell<T>(columns: seq<seq<T>>, rows: nat, r: nat, c: nat)
    requires (forall i :: 0 <= i < |columns| ==> rows <= |columns[i]|) && r < rows && c < |columns|
    ensures Extent(|columns|, r) + c < Extent(|columns|, rows)
    ensures Grid(columns, rows)[Extent(|columns|, r) + c] == columns[c][r]
    decreases rows
  {
    if r < rows - 1 {
      GridCell(columns, rows - 1, r, c);
    }
  }

  lemma {:induction false} GridUnits(shape: Shape, columns: seq<seq<seq<byte>>>, rows: nat)
    requires forall c :: 0 <= c < |columns| ==> rows <= |columns[c]|
    requires rows <= shape.rows && forall c :: 0 <= c < |columns| ==> ColumnFits(shape, columns[c])
    ensures forall u :: 0 <= u < Extent(|columns|, rows) ==> |Grid(columns, rows)[u]| == shape.unit
  {
    if rows != 0 {
      GridUnits(shape, columns, rows - 1);
    }
  }

  /** The bytes of one tensor whose columns are given. */
  function Encode(shape: Shape, columns: seq<seq<seq<byte>>>): (buf: seq<byte>)
    requires forall c :: 0 <= c < |columns| ==> ColumnFits(shape, columns[c])
    ensures Room(shape, buf, |columns|)
  {
    assert forall c :: 0 <= c < |columns| ==> ColumnFits(shape, columns[c]) ==> |columns[c]| == shape.rows;
    GridUnits(shape, columns, shape.rows);
    Flatten(Grid(columns, shape.rows), shape.unit, Extent(|columns|, shape.rows))
  }

  lemma {:induction false} EncodeColumn(shape: Shape, columns: seq<seq<seq<byte>>>, c: nat)
    requires (forall i :: 0 <= i < |columns| ==> ColumnFits(shape, columns[i])) && c < |columns|
    ensures ColumnAt(shape, Encode(shape, columns), |columns|, c) == columns[c]
  {
    GridUnits(shape, columns, shape.rows);
    var stride, n := |columns|, Extent(|columns|, shape.rows);
    var grid, buf := Grid(columns, shape.rows), Encode(shape, columns);
    forall r | 0 <= r < shape.rows ensures ColumnAt(shape, buf, stride, c)[r] == columns[c][r] {
      GridCell(columns, shape.rows, r, c);
      FlattenUnit(grid, shape.unit, n, Extent(stride, r) + c);
    }
  }

  function BlankColumn(shape: Shape): (column: seq<seq<byte>>)
    ensures ColumnFits(shape, column)
  {
    seq(shape.rows, _ => seq(shape.unit, _ => 0))
  }

  function TensorColumn(shapes: seq<Shape>, e: Entry, t: nat): (column: seq<seq<byte>>)
    requires t < |shapes| && EntryFits(shapes, e)
    ensures ColumnFits(shapes[t], column)
  {
    e[t]
  }

  /** The columns of one tensor: the given entries, then padding up to `n` columns. */
  function PaddedColumns(shapes: seq<Shape>, entries: seq<Entry>, n: nat, t: nat): (columns: seq<seq<seq<byte>>>)
    requires t < |shapes| && |entries| <= n && forall c :: 0 <= c < |entries| ==> EntryFits(shapes, entries[c])
    ensures |columns| == n && forall c :: 0 <= c < n ==> ColumnFits(shapes[t], columns[c])
    ensures forall c :: 0 <= c < |entries| ==> columns[c] == TensorColumn(shapes, entries[c], t)
  {
    seq(n, c requires 0 <= c < n =>
      if c < |entries| then TensorColumn(shapes, entries[c], t) else BlankColumn(shapes[t]))
  }

  /** Output buffers that hold the given entries in their first columns. */
  function EncodeAll(shapes: seq<Shape>, entries: seq<Entry>, n: nat): (bufs: seq<seq<byte>>)
    requires |entries| <= n && forall c :: 0 <= c < |entries| ==> EntryFits(shapes, entries[c])
    ensures Rooms(shapes, bufs, n)
  {
    seq(|shapes|, t requires 0 <= t < |shapes| => Encode(shapes[t], PaddedColumns(shapes, entries, n, t)))
  }

  lemma {:induction false} EncodeAllEntry(shapes: seq<Shape>, entries: seq<Entry>, n: nat, c: nat)
    requires |entries| <= n && forall i :: 0 <= i < |entries| ==> EntryFits(shapes, entries[i])
    requires c < |entries|
    ensures EntryAt(shapes, EncodeAll(shapes, entries, n), n, c) == entries[c]
  {
    assert EntryFits(shapes, entries[c]);
    forall t | 0 <= t < |shapes| ensures EntryAt(shapes, EncodeAll(shapes, entries, n), n, c)[t] == entries[c][t] {
      EncodeColumn(shapes[t], PaddedColumns(shapes, entries, n, t), c);
    }
  }
}
