/** Changing the stride of a key/value buffer in place. */
module KvReshape {
  import opened Extents
  import opened Bytes
  import opened KvLayout
  import opened Options
  import opened Quantization
  import opened TensorSpec

  // ----- the encoded zero -----

  /** What new columns are filled with: nothing, one byte, or a two-byte word. */
  datatype EncodedZero = NoZero | ByteZero(value: byte) | WideZero(low: byte, high: byte)
  {
    /** Whole words fit in a unit. */
    predicate Fits(unit: nat) { WideZero? ==> unit % 2 == 0 }

    /** Byte `b` of the filled area. */
    function At(b: nat): byte
      requires !NoZero?
    {
      if ByteZero? then value else if b % 2 == 0 then low else high
    }

    /** One filled unit. */
    function Unit(unit: nat): (b: Option<seq<byte>>) {
      if NoZero? then None else Some(seq(unit, b requires 0 <= b < unit => At(b)))
    }
  }

  /** Unsigned types are centred on the midpoint of their range; for the others zero is all zero bytes.
      Types of eight bytes and unknown ones have no encoded zero. */
  function EncodedZeroOf(dtype: DType): EncodedZero {
    match dtype
    case UFixed8 => ByteZero(0x80) case UInt8 => ByteZero(0x80)
    case SFixed8 => ByteZero(0) case Int8 => ByteZero(0) case Bool8 => ByteZero(0)
    case UFixed16 => WideZero(0, 0x80) case UInt16 => WideZero(0, 0x80)
    case SFixed16 => WideZero(0, 0) case Int16 => WideZero(0, 0) case Float16 => WideZero(0, 0)
    case Float32 => ByteZero(0) case Int32 => ByteZero(0) case UInt32 => ByteZero(0)
    case SFixed32 => ByteZero(0) case UFixed32 => ByteZero(0)
    case _ => NoZero
  }

  /** Half the range of an unsigned type, where its zero lies; no offset for the others. */
  function Midpoint(dtype: DType): int {
    if dtype.UFixed8? || dtype.UInt8? then 128 else if dtype.UFixed16? || dtype.UInt16? then 32768 else 0
  }

  /** The encoded zero of an element reads as zero, at any scale, under the offset that centres the range;
      exactly the types of eight bytes and unknown types have none. */
  lemma {:induction false} EncodedZeroIsZero(dtype: DType, scale: real)
    ensures EncodedZeroOf(dtype).NoZero? <==> DTypeBytes(dtype) == None || DTypeBytes(dtype) == Some(8)
    ensures !EncodedZeroOf(dtype).NoZero? ==>
              var element := EncodedZeroOf(dtype).Unit(DTypeBytes(dtype).value).value;
              Dequantize(Loaded(element), -Midpoint(dtype), scale) == 0.0
  {
    var zero := EncodedZeroOf(dtype);
    if !zero.NoZero? {
      var n := DTypeBytes(dtype).value;
      var element := zero.Unit(n).value;
      LoadedFilled(zero, element, n);
      assert Loaded(element) == Midpoint(dtype);
    }
  }

  lemma {:induction false} LoadedFilled(zero: EncodedZero, element: seq<byte>, n: nat)
    requires !zero.NoZero? && element == zero.Unit(n).value && 0 < n <= 4
    ensures n == 1 ==> Loaded(element) == zero.At(0) as nat
    ensures n == 2 ==> Loaded(element) == zero.At(0) as nat + 256 * zero.At(1) as nat
    ensures zero == ByteZero(0) ==> Loaded(element) == 0
  {
    assert Loaded([]) == 0;
    if zero == ByteZero(0) { LoadedZeros(element); }
    if n == 1 { assert element[1..] == []; }
    if n == 2 {
      assert element[1..][1..] == [];
      assert Loaded(element[1..]) == zero.At(1) as nat;
    }
  }

  lemma {:induction false} LoadedZeros(bytes: seq<byte>)
    requires forall b :: 0 <= b < |bytes| ==> bytes[b] == 0
    ensures Loaded(bytes) == 0
  {
    if bytes != [] { LoadedZeros(bytes[1..]); }
  }

  /** A unit is made of whole elements. */
  predicate WholeElements(unit: nat, dtype: DType) {
    DTypeBytes(dtype).Some? && unit % DTypeBytes(dtype).value == 0
  }

  // ----- rows in place -----

  /** One tensor's stride change: each row keeps its first `keep` units. */
  datatype Restride = Restride(rows: nat, oldStride: nat, newStride: nat, keep: nat)
  {
    ghost predicate Valid() { keep <= oldStride && keep <= newStride }
    function Total(): nat { if oldStride < newStride then Extent(newStride, rows) else Extent(oldStride, rows) }
  }

  function Blank<T>(fill: T, n: nat): (b: seq<T>)
    ensures |b| == n && forall i :: 0 <= i < n ==> b[i] == fill
  {
    seq(n, _ => fill)
  }

  /** Cell `c` of row `r` is in its new place. */
  ghost predicate Moved<T>(w: Restride, now: seq<T>, before: seq<T>, r: nat, c: nat)
  {
    && Extent(w.newStride, r) + c < |now|
    && Extent(w.oldStride, r) + c < |before|
    && now[Extent(w.newStride, r) + c] == before[Extent(w.oldStride, r) + c]
  }

  /** The kept cells of rows `from` up to `to` are in their new place. */
  ghost predicate RowsMoved<T>(w: Restride, now: seq<T>, before: seq<T>, from: nat, to: nat)
  {
    forall r, c :: from <= r < to && 0 <= c < w.keep ==> Moved(w, now, before, r, c)
  }

  /** The new columns of rows `from` up to `to` hold the encoded zero. */
  ghost predicate RowsBlank<T>(w: Restride, now: seq<T>, fill: Option<T>, from: nat, to: nat)
  {
    forall r, c :: from <= r < to && w.keep <= c < w.newStride ==> BlankCell(w, now, fill, r, c)
  }

  ghost predicate BlankCell<T>(w: Restride, now: seq<T>, fill: Option<T>, r: nat, c: nat)
  {
    Extent(w.newStride, r) + c < |now| && (fill.Some? ==> now[Extent(w.newStride, r) + c] == fill.value)
  }

  /** The cells from `lo` up to `hi` have not been touched. */
  ghost predicate Intact<T>(now: seq<T>, before: seq<T>, lo: nat, hi: nat)
  {
    |now| == |before| && forall u :: lo <= u < hi && u < |now| ==> now[u] == before[u]
  }

  lemma {:induction false} InTotal(w: Restride)
    ensures Extent(w.oldStride, w.rows) <= w.Total() && Extent(w.newStride, w.rows) <= w.Total()
  {
    if w.oldStride < w.newStride {
      ExtentWider(w.oldStride, w.newStride, w.rows);
    } else {
      ExtentWider(w.newStride, w.oldStride, w.rows);
    }
  }

  /** A list with `n` copies of `fill`, if there is one, laid over its items from `d` on. */
  function Filled<T>(before: seq<T>, d: nat, n: nat, fill: Option<T>): (after: seq<T>)
    requires d + n <= |before|
    ensures |after| == |before|
    ensures forall u {:trigger after[u]} :: 0 <= u < |after| ==>
              after[u] == if fill.Some? && d <= u < d + n then fill.value else before[u]
  {
    if fill.None? then before else Splice(before, d, Blank(fill.value, n), 0, n)
  }

  lemma {:induction false} MovedHere<T>(w: Restride, now: seq<T>, before: seq<T>, row: nat, c: nat)
    requires c < w.keep && |now| == |before|
    requires Extent(w.newStride, row) + w.keep <= |now| && Extent(w.oldStride, row) + w.keep <= |now|
    requires now[Extent(w.oldStride, row) + c] == before[Extent(w.oldStride, row) + c]
    ensures Moved(w, Splice(now, Extent(w.newStride, row), now, Extent(w.oldStride, row), w.keep), before, row, c)
  {
    SpliceAt(now, Extent(w.newStride, row), now, Extent(w.oldStride, row), w.keep, c);
  }

  /** A list in which row `row` has been moved to its wider place and its new columns blanked. */
  function Widened<T>(w: Restride, now: seq<T>, row: nat, fill: Option<T>): seq<T>
    requires w.Valid() && Extent(w.newStride, row) + w.newStride <= |now| && Extent(w.oldStride, row) + w.keep <= |now|
  {
    var moved := Splice(now, Extent(w.newStride, row), now, Extent(w.oldStride, row), w.keep);
    Filled(moved, Extent(w.newStride, row) + w.keep, w.newStride - w.keep, fill)
  }

  lemma {:induction false} WidenedAt<T>(w: Restride, now: seq<T>, row: nat, fill: Option<T>, u: nat)
    requires w.Valid() && Extent(w.newStride, row) + w.newStride <= |now| && Extent(w.oldStride, row) + w.keep <= |now|
    requires u < |now|
    ensures Widened(w, now, row, fill)[u]
         == if Extent(w.newStride, row) <= u < Extent(w.newStride, row) + w.keep
            then now[Extent(w.oldStride, row) + (u - Extent(w.newStride, row))]
            else if fill.Some? && Extent(w.newStride, row) <= u < Extent(w.newStride, row) + w.newStride then fill.value
            else now[u]
  {
  }

  lemma {:induction false} ExpandCell<T>(w: Restride, now: seq<T>, before: seq<T>, row: nat, fill: Option<T>, r: nat,
                                         c: nat)
    requires w.Valid() && w.oldStride < w.newStride && row <= r < w.rows && c < w.keep && |now| == w.Total()
    requires Extent(w.newStride, row) + w.newStride <= |now| && Extent(w.oldStride, row) + w.keep <= |now|
    requires r > row ==> Moved(w, now, before, r, c)
    requires Intact(now, before, 0, Extent(w.oldStride, row + 1))
    ensures Moved(w, Widened(w, now, row, fill), before, r, c)
  {
    if r > row {
      ExtentApart(w.newStride, row, r);
    }
    WidenedAt(w, now, row, fill, Extent(w.newStride, r) + c);
  }

  /** Moving row `row` to its wider place and blanking its new columns disturbs neither
      the rows already moved nor the ones still to be read. */
  lemma {:induction false} ExpandStep<T>(w: Restride, now: seq<T>, before: seq<T>, row: nat, fill: Option<T>)
    requires w.Valid() && w.oldStride < w.newStride && row < w.rows
    requires |now| == w.Total()
    requires RowsMoved(w, now, before, row + 1, w.rows)
    requires Intact(now, before, 0, Extent(w.oldStride, row + 1))
    ensures Extent(w.newStride, row) + w.newStride <= |now| && Extent(w.oldStride, row) + w.keep <= |now|
    ensures RowsMoved(w, Widened(w, now, row, fill), before, row, w.rows)
    ensures Intact(Widened(w, now, row, fill), before, 0, Extent(w.oldStride, row))
  {
    ExtentApart(w.newStride, row, w.rows);
    ExtentWider(w.oldStride, w.newStride, row);
    var next := Widened(w, now, row, fill);
    forall r, c | row <= r < w.rows && 0 <= c < w.keep ensures Moved(w, next, before, r, c) {
      if r > row {
        assert Moved(w, now, before, r, c);
      }
      ExpandCell(w, now, before, row, fill, r, c);
    }
    forall u | 0 <= u < Extent(w.oldStride, row) ensures next[u] == before[u] {
      WidenedAt(w, now, row, fill, u);
    }
  }

  lemma {:induction false} ExpandStepBlanks<T>(w: Restride, now: seq<T>, row: nat, fill: Option<T>)
    requires w.Valid() && row < w.rows && Extent(w.newStride, w.rows) <= |now|
    requires Extent(w.newStride, row) + w.newStride <= |now| && Extent(w.oldStride, row) + w.keep <= |now|
    requires RowsBlank(w, now, fill, row + 1, w.rows)
    ensures RowsBlank(w, Widened(w, now, row, fill), fill, row, w.rows)
  {
    var next := Widened(w, now, row, fill);
    forall r, c | row <= r < w.rows && w.keep <= c < w.newStride ensures BlankCell(w, next, fill, r, c) {
      ExtentApart(w.newStride, r, w.rows);
      if r > row {
        ExtentApart(w.newStride, row, r);
        assert BlankCell(w, now, fill, r, c);
      }
      WidenedAt(w, now, row, fill, Extent(w.newStride, r) + c);
    }
  }

  /** Moving row `row` to its narrower place leaves the rows after it still to be read. */
  lemma {:induction false} ContractStep<T>(w: Restride, now: seq<T>, before: seq<T>, row: nat)
    requires w.Valid() && w.newStride < w.oldStride && row < w.rows
    requires |now| == w.Total()
    requires RowsMoved(w, now, before, 0, row)
    requires Intact(now, before, Extent(w.oldStride, row), |now|)
    ensures Extent(w.newStride, row) + w.keep <= |now| && Extent(w.oldStride, row) + w.keep <= |now|
    ensures var next := Splice(now, Extent(w.newStride, row), now, Extent(w.oldStride, row), w.keep);
            RowsMoved(w, next, before, 0, row + 1) && Intact(next, before, Extent(w.oldStride, row + 1), |next|)
  {
    ExtentApart(w.oldStride, row, w.rows);
    ExtentWider(w.newStride, w.oldStride, row);
    var lo := Extent(w.newStride, row);
    var next := Splice(now, lo, now, Extent(w.oldStride, row), w.keep);
    forall r, c | 0 <= r < row + 1 && 0 <= c < w.keep ensures Moved(w, next, before, r, c) {
      if r < row {
        ExtentApart(w.newStride, r, row);
        assert Moved(w, now, before, r, c);
      } else {
        MovedHere(w, now, before, row, c);
      }
    }
  }

  /** `reshapeKV` on one tensor: a wider stride is filled from the last row down, a
      narrower one from the first row up, so that no row is overwritten unread. */
  method Reshape(buf: array<byte>, unit: nat, w: Restride, dtype: DType)
    requires w.Valid() && w.oldStride != w.newStride && Extent(unit, w.Total()) <= buf.Length
    requires WholeElements(unit, dtype)
    modifies buf
    ensures RowsMoved(w, Units(buf[..], unit, w.Total()), old(Units(buf[..], unit, w.Total())), 0, w.rows)
    ensures w.oldStride < w.newStride ==>
              RowsBlank(w, Units(buf[..], unit, w.Total()), EncodedZeroOf(dtype).Unit(unit), 0, w.rows)
    ensures buf[Extent(unit, w.Total())..] == old(buf[Extent(unit, w.Total())..])
  {
    var zero := EncodedZeroOf(dtype);
    ghost var total := w.Total();
    ghost var before := Units(buf[..], unit, total);
    ghost var tail := buf[Extent(unit, total)..];
    InTotal(w);
    if w.oldStride < w.newStride {
      for row := w.rows downto 0
        invariant RowsMoved(w, Units(buf[..], unit, total), before, row, w.rows)
        invariant RowsBlank(w, Units(buf[..], unit, total), zero.Unit(unit), row, w.rows)
        invariant Intact(Units(buf[..], unit, total), before, 0, Extent(w.oldStride, row))
        invariant buf[Extent(unit, total)..] == tail
      {
        ghost var now := Units(buf[..], unit, total);
        ExpandStep(w, now, before, row, zero.Unit(unit));
        ExpandStepBlanks(w, now, row, zero.Unit(unit));
        CopyUnits(buf, Extent(w.newStride, row), buf[..], Extent(w.oldStride, row), w.keep, unit, total, total);
        FillUnits(buf, Extent(w.newStride, row) + w.keep, w.newStride - w.keep, unit, zero, total);
        assert Units(buf[..], unit, total) == Widened(w, now, row, zero.Unit(unit));
      }
    } else {
      for row := 0 to w.rows
        invariant RowsMoved(w, Units(buf[..], unit, total), before, 0, row)
        invariant Intact(Units(buf[..], unit, total), before, Extent(w.oldStride, row), total)
        invariant buf[Extent(unit, total)..] == tail
      {
        ghost var now := Units(buf[..], unit, total);
        ContractStep(w, now, before, row);
        CopyUnits(buf, Extent(w.newStride, row), buf[..], Extent(w.oldStride, row), w.keep, unit, total, total);
      }
    }
  }

  /** Writes the encoded zero, if there is one, over `n` units. */
  method FillUnits(buf: array<byte>, d: nat, n: nat, unit: nat, zero: EncodedZero, ghost total: nat)
    requires d + n <= total && Extent(unit, total) <= buf.Length && zero.Fits(unit)
    modifies buf
    ensures Units(buf[..], unit, total) == Filled(old(Units(buf[..], unit, total)), d, n, zero.Unit(unit))
    ensures buf[Extent(unit, total)..] == old(buf[Extent(unit, total)..])
  {
    if zero.NoZero? {
      return;
    }
    var zeros := seq(Extent(unit, n), b requires 0 <= b < Extent(unit, n) => zero.At(b));
    CopyUnits(buf, d, zeros, 0, n, unit, total, n);
    ZeroUnits(zero, unit, n, zeros);
    assert Units(zeros, unit, n) == Blank(zero.Unit(unit).value, n);
  }

  /** The filled area is made of filled units. */
  lemma {:induction false} ZeroUnits(zero: EncodedZero, unit: nat, n: nat, zeros: seq<byte>)
    requires !zero.NoZero? && zero.Fits(unit) && |zeros| == Extent(unit, n)
    requires forall b :: 0 <= b < |zeros| ==> zeros[b] == zero.At(b)
    ensures forall u :: 0 <= u < n ==> Units(zeros, unit, n)[u] == zero.Unit(unit).value
  {
    forall u | 0 <= u < n ensures Units(zeros, unit, n)[u] == zero.Unit(unit).value {
      ZeroUnit(zero, unit, n, zeros, u, UnitAt(zeros, unit, n, u), zero.Unit(unit).value);
    }
  }

  lemma {:induction false} ZeroUnit(zero: EncodedZero, unit: nat, n: nat, zeros: seq<byte>, u: nat, here: seq<byte>,
                                    one: seq<byte>)
    requires !zero.NoZero? && zero.Fits(unit) && |zeros| == Extent(unit, n) && u < n
    requires forall b :: 0 <= b < |zeros| ==> zeros[b] == zero.At(b)
    requires here == UnitAt(zeros, unit, n, u) && one == zero.Unit(unit).value
    ensures here == one
  {
    var lo := Extent(unit, u);
    ExtentApart(unit, u, n);
    forall b | 0 <= b < unit ensures here[b] == one[b] {
      assert here[b] == zeros[lo + b];
      if zero.WideZero? {
        ExtentDoubled(unit / 2, u);
        SameParity(Extent(unit / 2, u), b);
      }
    }
  }

  lemma {:induction false} ExtentDoubled(size: nat, n: nat)
    ensures Extent(2 * size, n) == 2 * Extent(size, n)
  {
    if n > 0 {
      ExtentDoubled(size, n - 1);
    }
  }

  lemma {:induction false} SameParity(a: nat, b: nat)
    ensures (2 * a + b) % 2 == b % 2
  {
  }
}
