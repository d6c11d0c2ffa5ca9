/** Tensors, their element types, and how an element is stored and read back. */
module TensorSpec {
  import opened Options
  import opened Bytes
  import opened Extents
  import opened Bits
  import opened Half
  import opened FloatWorth
  import opened Quantization
  import HalfArrays

  datatype DType =
    | Int8 | UInt8 | SFixed8 | UFixed8 | Bool8
    | Int16 | UInt16 | Float16 | SFixed16 | UFixed16
    | Int32 | UInt32 | Float32 | SFixed32 | UFixed32
    | Int64 | UInt64 | Float64
    | OtherType

  datatype Quant = Quant(scale: real, offset: int)

  /** `quant` is None unless the encoding is scale-offset. */
  datatype Tensor = Tensor(dtype: DType, dims: seq<nat>, quant: Option<Quant>)

  predicate Sound(t: Tensor) { t.quant.Some? ==> t.quant.value.scale > 0.0 }

  function DTypeBytes(d: DType): Option<nat> {
    match d
    case OtherType => None
    case Int8 => Some(1) case UInt8 => Some(1) case SFixed8 => Some(1) case UFixed8 => Some(1) case Bool8 => Some(1)
    case Int16 => Some(2) case UInt16 => Some(2) case Float16 => Some(2)
    case SFixed16 => Some(2) case UFixed16 => Some(2)
    case Int64 => Some(8) case UInt64 => Some(8) case Float64 => Some(8)
    case _ => Some(4)
  }

  function Product(dims: seq<nat>): nat {
    if dims == [] then 1 else Product(dims[..|dims| - 1]) * dims[|dims| - 1]
  }

  /** The bytes of a tensor; None where the source throws. */
  function ByteSize(t: Tensor): Option<nat> {
    match DTypeBytes(t.dtype)
    case None => None
    case Some(b) => Some(Extent(b, Product(t.dims)))
  }

  /** One, two, four or eight bytes for every element; an unknown type throws. */
  method TensorByteSize(t: Tensor) returns (size: Option<nat>)
    ensures size == ByteSize(t)
    ensures size.None? <==> t.dtype == OtherType
    ensures t.dtype in {Int8, UInt8, SFixed8, UFixed8, Bool8} ==> size == Some(Product(t.dims))
    ensures t.dtype in {Int16, UInt16, Float16, SFixed16, UFixed16} ==> size == Some(Product(t.dims) * 2)
    ensures t.dtype in {Int32, UInt32, Float32, SFixed32, UFixed32} ==> size == Some(Product(t.dims) * 4)
    ensures t.dtype in {Int64, UInt64, Float64} ==> size == Some(Product(t.dims) * 8)
  {
    var n := 1;
    for d := 0 to |t.dims|
      invariant n == Product(t.dims[..d])
    {
      assert t.dims[..d + 1][..d] == t.dims[..d];
      n := n * t.dims[d];
    }
    assert t.dims[..|t.dims|] == t.dims;
    match DTypeBytes(t.dtype) {
      case None => size := None;
      case Some(bytes) =>
        ExtentIsProduct(bytes, n);
        size := Some(n * bytes);
    }
  }

  /** The element types that write and read convert. */
  predicate Converts(d: DType) { d.Float32? || d.Float16? || Fixed(d) || d.Int32? }

  /** elem_bytes of writeFloatLike. */
  function Width(d: DType): nat {
    if d.Float32? || d.Int32? then 4 else if d.Float16? || d.UFixed16? then 2 else 1
  }

  /** The bytes of an element written are those the type has. */
  lemma {:induction false} WidthIsBytes(d: DType)
    requires Converts(d)
    ensures DTypeBytes(d) == Some(Width(d))
  {
  }

  /** All elements of a tensor fill it exactly. */
  lemma {:induction false} ElementsFill(t: Tensor)
    requires Converts(t.dtype)
    ensures ByteSize(t) == Some(Product(t.dims) * Width(t.dtype))
  {
    WidthIsBytes(t.dtype);
    ExtentIsProduct(Width(t.dtype), Product(t.dims));
  }

  /** The number of elements: that of the outer times that of the inner dimensions. */
  lemma {:induction false} ProductJoin(a: seq<nat>, b: seq<nat>)
    ensures Product(a + b) == Product(a) * Product(b)
    ensures |a| == 1 ==> Product(a) == a[0]
  {
    if |a| == 1 { assert a[..0] == [] && Product([]) == 1; }
    if b == [] {
      assert a + b == a;
    } else {
      var n := |b| - 1;
      assert (a + b)[..|a + b| - 1] == a + b[..n];
      ProductJoin(a, b[..n]);
      Regrouped(Product(a), Product(b[..n]), b[n]);
    }
  }

  lemma {:induction false} Regrouped(a: nat, b: nat, c: nat)
    ensures a * b * c == a * (b * c)
  {
  }

  predicate Fixed(d: DType) { d.UFixed16? || d.UFixed8? }

  predicate Finite(x: Word32) { Magnitude32(x) < INFINITY32 }

  function Top(d: DType): nat { if d.UFixed16? then 0xFFFF else 0xFF }

  // ---- one element -------------------------------------------------------------

  function Real32(x: Word32): real
    requires Finite(x)
  {
    ShlPositive(1, 149);
    HalfArrays.Signed32(x) as real / Shl(1, 149) as real
  }

  /** The value of a finite float is what its sign, exponent and fraction are worth. */
  lemma {:induction false} Real32IsWorth(x: Word32, w: FieldsOf32)
    requires HasFields(x, w) && w.exponent < 255
    ensures Finite(x) && Real32(x) == Worth(w)
  {
    var v, d := Value32(Magnitude32(x)), Shl(1, 149);
    FieldsRead(x, w);
    UnitInverse(d, 149, Pow2(0 - 149));
    ValueInUnits(w, v, d, Pow2(0 - 149), 0 - 149, Size(w));
    Negated(v, d);
  }

  lemma {:induction false} ValueInUnits(w: FieldsOf32, v: nat, d: nat, u: real, k: int, size: real)
    requires v == if w.exponent == 0 then w.fraction else Shl(8388608 + w.fraction, w.exponent - 1)
    requires k == -149 && u == Pow2(k) && d > 0 && d as real * u == 1.0 && size == Size(w)
    ensures v as real / d as real == size
  {
    SizeOfValue(w, v, u, k, size);
    Divided(v as real, d as real, u, size);
  }

  lemma {:induction false} UnitInverse(d: nat, n: nat, u: real)
    requires d == Shl(1, n) && u == Pow2(0 - n)
    ensures d > 0 && d as real * u == 1.0
  {
    ShlPositive(1, n);
    UnitsAreWorth(n);
    PowersCancel(n);
  }

  lemma {:induction false} Divided(v: real, d: real, u: real, s: real)
    requires d > 0.0 && d * u == 1.0 && v * u == s
    ensures v / d == s
  {
    assert s * d == v * (d * u) == v;
    Cancel(s, d);
  }

  lemma {:induction false} Negated(v: nat, d: nat)
    requires d > 0
    ensures (-(v as int)) as real / d as real == -(v as real / d as real)
  {
  }

  /** Every integer up to 2^24 is the value of a float, sign included. */
  lemma {:induction false} IntegerFloat(n: nat, e: nat, negative: bool) returns (x: Word32, w: FieldsOf32)
    requires e <= 23 && Shl(1, e) <= n < 2 * Shl(1, e)
    ensures HasFields(x, w) && w.negative == negative && w.exponent == 127 + e
    ensures Finite(x) && Real32(x) == if negative then -(n as real) else n as real
  {
    var plus := IntegerIsExact(n, e);
    x := WordOf(plus, negative);
    w := plus.(negative := negative);
    SameSize(plus, w);
    Real32IsWorth(x, w);
  }

  lemma {:induction false} WordOf(w: FieldsOf32, negative: bool) returns (x: Word32)
    requires w.exponent < 255 && w.fraction < 8388608
    ensures HasFields(x, w.(negative := negative))
  {
    x := (if negative then 2147483648 else 0) + 8388608 * w.exponent + w.fraction;
  }

  function Truncate(x: real): int { if x >= 0.0 then x.Floor else -((-x).Floor) }

  /** The values whose conversion C++ defines: a cast must land in range, and a
      NaN is not quantized. */
  predicate Storable(t: Tensor, x: Word32) {
    if t.dtype.Int32? then Finite(x) && -0x8000_0000 <= Truncate(Real32(x)) < 0x8000_0000
    else if !Fixed(t.dtype) then true
    else if t.quant.Some? then !IsNaN32(x)
    else Finite(x) && 0 <= Truncate(Real32(x)) <= Top(t.dtype)
  }

  /** In terms of what the float is worth: a cast is defined for what truncates into the range of the
      type, quantization for everything but a NaN, and the float types for every word. */
  lemma {:induction false} StorableIff(t: Tensor, x: Word32)
    requires Converts(t.dtype)
    ensures t.dtype.Float32? || t.dtype.Float16? ==> Storable(t, x)
    ensures Fixed(t.dtype) && t.quant.Some? ==> (Storable(t, x) <==> !IsNaN32(x))
    ensures t.dtype.Int32? ==>
              (Storable(t, x) <==> Finite(x) && -2147483649.0 < Worth(Fields(x)) < 2147483648.0)
    ensures t.dtype.UFixed8? && t.quant.None? ==> (Storable(t, x) <==> Finite(x) && -1.0 < Worth(Fields(x)) < 256.0)
    ensures t.dtype.UFixed16? && t.quant.None? ==>
              (Storable(t, x) <==> Finite(x) && -1.0 < Worth(Fields(x)) < 65536.0)
  {
    if Finite(x) {
      FiniteFields(x);
      Real32IsWorth(x, Fields(x));
    }
  }

  /** Infinities are clamped like any other value out of range. */
  function QuantizeFloat(x: Word32, quant: Quant, top: nat): nat
    requires quant.scale > 0.0 && top > 0 && !IsNaN32(x)
  {
    if Magnitude32(x) == INFINITY32 then (if Negative32(x) then 0 else top)
    else Quantize(Real32(x), quant.offset, quant.scale, top)
  }

  /** The number an element of the tensor holds for x. */
  function Code(t: Tensor, x: Word32): nat
    requires Sound(t) && Converts(t.dtype) && Storable(t, x)
  {
    if t.dtype.Float32? then x
    else if t.dtype.Float16? then FloatToHalf(x)
    else if t.dtype.Int32? then
      var v := Truncate(Real32(x));
      if v < 0 then v + 0x1_0000_0000 else v
    else if t.quant.Some? then QuantizeFloat(x, t.quant.value, Top(t.dtype))
    else Truncate(Real32(x))
  }

  lemma {:induction false} CodeFits(t: Tensor, x: Word32)
    requires Sound(t) && Converts(t.dtype) && Storable(t, x)
    ensures Code(t, x) < Capacity(Width(t.dtype))
  {
    CapacityIs(t.dtype);
    if Fixed(t.dtype) && t.quant.Some? && Finite(x) {
      RoundTripBound(Real32(x), t.quant.value.offset, t.quant.value.scale, Top(t.dtype));
    }
  }

  lemma {:induction false} CapacityIs(d: DType)
    requires Converts(d)
    ensures Capacity(Width(d)) == if Width(d) == 4 then 0x1_0000_0000 else if Width(d) == 2 then 0x1_0000 else 0x100
  {
    assert Capacity(1) == 0x100 && Capacity(2) == 0x1_0000;
  }

  /** What reading an element that holds `code` may give; `round` is the rounding
      of a real to a float. */
  predicate ReadsAs(t: Tensor, round: real -> Word32, code: nat, out: Word32)
    requires Converts(t.dtype)
  {
    if t.dtype.Float32? then out == code
    else if t.dtype.Float16? then code < 0x1_0000 && Widens(code, out)
    else if t.dtype.Int32? then out == round((if code >= 0x8000_0000 then code - 0x1_0000_0000 else code) as real)
    else if t.quant.Some? then out == round(Dequantize(code, t.quant.value.offset, t.quant.value.scale))
    else out == round(code as real)
  }

  // ---- elements in a buffer -------------------------------------------------------

  function Element(bytes: seq<byte>, width: nat, k: nat): (e: seq<byte>)
    requires Extent(width, k) + width <= |bytes|
    ensures |e| == width
  {
    bytes[Extent(width, k)..Extent(width, k) + width]
  }

  /** The first n elements hold src, the rest is as before. */
  ghost predicate Written(t: Tensor, src: seq<Word32>, n: nat, before: seq<byte>, after: seq<byte>)
    requires Sound(t) && Converts(t.dtype) && n <= |src|
    requires forall k :: 0 <= k < n ==> Storable(t, src[k])
  {
    var w := Width(t.dtype);
    && |after| == |before| && Extent(w, n) <= |after|
    && (forall k :: 0 <= k < n ==>
          Extent(w, k) + w <= |after| && Element(after, w, k) == Stored(Code(t, src[k]), w))
    && after[Extent(w, n)..] == before[Extent(w, n)..]
  }

  /** One element more. */
  lemma {:induction false} PutElement(w: nat, n: nat, at: nat, mid: seq<byte>, e: seq<byte>, after: seq<byte>)
    requires at == Extent(w, n) && |e| == w && at + w <= |mid|
    requires after == mid[..at] + e + mid[at + w..]
    ensures |after| == |mid| && Element(after, w, n) == e
    ensures forall k :: 0 <= k < n ==> Extent(w, k) + w <= |mid| && Element(after, w, k) == Element(mid, w, k)
    ensures Extent(w, n + 1) == at + w && after[at + w..] == mid[at..][w..]
  {
    forall k | 0 <= k < n ensures Extent(w, k) + w <= |mid| && Element(after, w, k) == Element(mid, w, k) {
      ExtentApart(w, k, n);
    }
  }

  lemma {:induction false} WriteNext(t: Tensor, src: seq<Word32>, n: nat, before: seq<byte>, mid: seq<byte>,
                                     after: seq<byte>)
    requires Sound(t) && Converts(t.dtype) && n < |src|
    requires forall k :: 0 <= k <= n ==> Storable(t, src[k])
    requires Written(t, src, n, before, mid) && Extent(Width(t.dtype), n + 1) <= |before|
    requires var w := Width(t.dtype);
             after == mid[..Extent(w, n)] + Stored(Code(t, src[n]), w) + mid[Extent(w, n) + w..]
    ensures Written(t, src, n + 1, before, after)
  {
    var w := Width(t.dtype);
    var at, e := Extent(w, n), Stored(Code(t, src[n]), w);
    PutElement(w, n, at, mid, e, after);
    forall k | 0 <= k < n + 1
      ensures Extent(w, k) + w <= |after| && Element(after, w, k) == Stored(Code(t, src[k]), w)
    {
      if k < n {
        assert Element(mid, w, k) == Stored(Code(t, src[k]), w);
      }
    }
    assert before[at..][w..] == before[at + w..];
  }

  /** Write, copy the bytes, read at any element offset: floats come back
      unchanged, through half precision they are rounded once, quantized values
      lose less than one step, or are clamped to the nearer end of the range,
      before the final rounding to a float. */
  lemma {:induction false} WriteThenRead(t: Tensor, round: real -> Word32, src: seq<Word32>, n: nat,
                                         before: seq<byte>, after: seq<byte>, k: nat, out: Word32) returns (v: real)
    requires Sound(t) && Converts(t.dtype) && k < n <= |src|
    requires forall i :: 0 <= i < n ==> Storable(t, src[i])
    requires Written(t, src, n, before, after)
    requires ReadsAs(t, round, Loaded(Element(after, Width(t.dtype), k)), out)
    ensures t.dtype.Float32? ==> out == src[k]
    ensures t.dtype.Float16? ==> exists h: Word16 :: Rounds(src[k], h) && Widens(h, out)
    ensures t.dtype.Int32? || Fixed(t.dtype) ==> out == round(v)
    ensures t.dtype.Int32? || (Fixed(t.dtype) && t.quant.None?) ==>
              TowardZero(Worth(Fields(src[k])), v)
    ensures t.dtype.UFixed8? && t.quant.Some? ==> Approximates(src[k], t.quant.value, 255, v)
    ensures t.dtype.UFixed16? && t.quant.Some? ==> Approximates(src[k], t.quant.value, 65535, v)
  {
    var x := src[k];
    StoredIsLoadedCode(t, x);
    assert Element(after, Width(t.dtype), k) == Stored(Code(t, x), Width(t.dtype));
    v := NumberBack(t, round, x, out);
    if t.dtype.Float32? || t.dtype.Float16? {
      FloatBack(t, round, x, out);
    }
  }

  lemma {:induction false} FloatBack(t: Tensor, round: real -> Word32, x: Word32, out: Word32)
    requires Sound(t) && (t.dtype.Float32? || t.dtype.Float16?) && ReadsAs(t, round, Code(t, x), out)
    ensures t.dtype.Float32? ==> out == x
    ensures t.dtype.Float16? ==> exists h: Word16 :: Rounds(x, h) && Widens(h, out)
  {
    if t.dtype.Float16? {
      FloatToHalfRounds(x);
    }
  }

  lemma {:induction false} NumberBack(t: Tensor, round: real -> Word32, x: Word32, out: Word32) returns (v: real)
    requires Sound(t) && Converts(t.dtype) && Storable(t, x) && ReadsAs(t, round, Code(t, x), out)
    ensures t.dtype.Int32? || Fixed(t.dtype) ==> out == round(v)
    ensures t.dtype.Int32? || (Fixed(t.dtype) && t.quant.None?) ==> TowardZero(Worth(Fields(x)), v)
    ensures Fixed(t.dtype) && t.quant.Some? ==> Approximates(x, t.quant.value, Top(t.dtype), v)
  {
    v := if t.quant.Some? && !t.dtype.Int32? then Dequantize(Code(t, x), t.quant.value.offset, t.quant.value.scale)
         else if Finite(x) then Truncate(Real32(x)) as real else 0.0;
    if Fixed(t.dtype) && t.quant.Some? {
      QuantizedBack(x, t.quant.value, Top(t.dtype), v);
    } else if Fixed(t.dtype) || t.dtype.Int32? {
      TruncatedBack(x, v);
    }
  }

  lemma {:induction false} QuantizedBack(x: Word32, quant: Quant, top: nat, v: real)
    requires quant.scale > 0.0 && top > 0 && !IsNaN32(x)
    requires v == Dequantize(QuantizeFloat(x, quant, top), quant.offset, quant.scale)
    ensures Approximates(x, quant, top, v)
  {
    var low, high := quant.offset as real * quant.scale, (top + quant.offset) as real * quant.scale;
    Ends(quant.offset, quant.scale, top, low, high);
    if Finite(x) {
      FiniteBack(Real32(x), quant.offset, quant.scale, top, low, high, v);
      FiniteFields(x);
      Real32IsWorth(x, Fields(x));
    }
  }

  /** The first code stands for `offset` steps, the last for `top + offset`. */
  lemma {:induction false} Ends(offset: int, scale: real, top: nat, low: real, high: real)
    requires low == offset as real * scale && high == (top + offset) as real * scale
    ensures Dequantize(0, offset, scale) == low && Dequantize(top, offset, scale) == high
  {
    assert top as real + offset as real == (top + offset) as real;
  }

  lemma {:induction false} FiniteBack(r: real, offset: int, scale: real, top: nat, low: real, high: real, v: real)
    requires scale > 0.0 && top > 0 && v == Dequantize(Quantize(r, offset, scale, top), offset, scale)
    requires Dequantize(0, offset, scale) == low && Dequantize(top, offset, scale) == high
    ensures Near(r, low, high, scale, v)
  {
    RoundTripBound(r, offset, scale, top);
  }

  lemma {:induction false} TruncatedBack(x: Word32, v: real)
    requires Finite(x) && v == Truncate(Real32(x)) as real
    ensures TowardZero(Worth(Fields(x)), v)
  {
    FiniteFields(x);
    Real32IsWorth(x, Fields(x));
    Truncated(Real32(x), v);
  }

  lemma {:induction false} Truncated(r: real, v: real)
    requires v == Truncate(r) as real
    ensures TowardZero(r, v)
  {
  }

  lemma {:induction false} FiniteFields(x: Word32)
    requires Finite(x)
    ensures Fields(x).exponent < 255
  {
  }

  /** `v` is `r` without its fraction. */
  predicate TowardZero(r: real, v: real) {
    v.Floor as real == v && if r >= 0.0 then v <= r < v + 1.0 else v - 1.0 < r <= v
  }

  /** Less than one step is lost; what lies outside the range comes back as its nearer end. */
  predicate Approximates(x: Word32, quant: Quant, top: nat, v: real) {
    var low, high := quant.offset as real * quant.scale, (top + quant.offset) as real * quant.scale;
    if !Finite(x) then v == if Negative32(x) then low else high
    else Near(Worth(Fields(x)), low, high, quant.scale, v)
  }

  predicate Near(r: real, low: real, high: real, step: real, v: real) {
    && (low <= r <= high ==> 0.0 <= r - v < step)
    && (r < low ==> v == low)
    && (r > high ==> v == high)
  }

  lemma {:induction false} StoredIsLoadedCode(t: Tensor, x: Word32)
    requires Sound(t) && Converts(t.dtype) && Storable(t, x)
    ensures Loaded(Stored(Code(t, x), Width(t.dtype))) == Code(t, x)
  {
    CodeFits(t, x);
    StoredIsLoaded(Code(t, x), Width(t.dtype));
  }
}
