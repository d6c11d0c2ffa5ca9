/** Typed input and output of a graph: Graph::write for floats and
    Graph::read(float*), over byte buffers. */
module GraphIo {
  import opened Options
  import opened Bytes
  import opened Extents
  import opened Half
  import opened FloatWorth
  import opened Quantization
  import opened TensorSpec

  /** What a call does: return, or throw std::out_of_range for an unknown name,
      or throw std::runtime_error. */
  datatype Outcome = Done | NoTensor | Overflow | Unsupported

  method StoreElement(buf: array<byte>, at: nat, width: nat, code: nat)
    requires at + width <= buf.Length
    modifies buf
    ensures buf[..] == old(buf[..at]) + Stored(code, width) + old(buf[at + width..])
  {
    ghost var before := buf[..];
    var rest := code;
    for k := 0 to width
      invariant buf[at..at + k] + Stored(rest, width - k) == Stored(code, width)
      invariant forall i :: 0 <= i < at || at + k <= i < buf.Length ==> buf[i] == before[i]
    {
      ghost var done := buf[at..at + k];
      buf[at + k] := (rest % 256) as byte;
      assert buf[at..at + k + 1] == done + [buf[at + k]];
      rest := rest / 256;
    }
    assert buf[at..at + width] + [] == buf[at..at + width];
    Laid(buf[..], before, at, width);
  }

  lemma {:induction false} Laid(after: seq<byte>, before: seq<byte>, at: nat, width: nat)
    requires |after| == |before| && at + width <= |after|
    requires forall i :: 0 <= i < at || at + width <= i < |after| ==> after[i] == before[i]
    ensures after == before[..at] + after[at..at + width] + before[at + width..]
  {
  }

  method LoadElement(buf: array<byte>, at: nat, width: nat) returns (code: nat)
    requires at + width <= buf.Length
    ensures code == Loaded(buf[at..at + width])
  {
    code := 0;
    var k := width;
    while k > 0
      invariant 0 <= k <= width
      invariant code == Loaded(buf[at + k..at + width])
    {
      k := k - 1;
      assert buf[at + k..at + width][1..] == buf[at + k + 1..at + width];
      code := buf[at + k] as nat + 256 * code;
    }
  }

  // ---- the kernels behind write ---------------------------------------------------

  /** The element i of the buffer becomes the code of src[i]. */
  method StoreNext(buf: array<byte>, t: Tensor, src: seq<Word32>, i: nat, n: nat, code: nat, ghost before: seq<byte>)
    requires Sound(t) && Converts(t.dtype) && i < n <= |src| && Extent(Width(t.dtype), n) <= buf.Length
    requires forall k :: 0 <= k < n ==> Storable(t, src[k])
    requires Written(t, src, i, before, buf[..]) && code == Code(t, src[i])
    modifies buf
    ensures Written(t, src, i + 1, before, buf[..])
  {
    var w := Width(t.dtype);
    ExtentOrdered(w, i + 1, n);
    var at := Extent(w, i);
    ghost var mid := buf[..];
    StoreElement(buf, at, w, code);
    assert buf[..] == mid[..at] + Stored(code, w) + mid[at + w..];
    WriteNext(t, src, i, before, mid, buf[..]);
  }

  /** The body of the loop in floatToTfN: scale, clamp, truncate. */
  method ScaleAndClamp(x: Word32, quant: Quant, top: nat, encodingMin: real, range: real) returns (code: nat)
    requires !IsNaN32(x) && quant.scale > 0.0 && top > 0
    requires encodingMin == quant.offset as real * quant.scale
    requires range == (top as real + quant.offset as real) * quant.scale - encodingMin && range > 0.0
    ensures code == QuantizeFloat(x, quant, top)
  {
    if !Finite(x) { return if Negative32(x) then 0 else top; }
    QuantizeIs(Real32(x), quant.offset, quant.scale, top, encodingMin, range);
    code := ClampAndTruncate(Scaled(Real32(x), top, encodingMin, range), top);
  }

  method ClampAndTruncate(scaled: real, top: nat) returns (code: nat)
    ensures code == Clamp(scaled, top)
  {
    var q := scaled;
    if q < 0.0 {
      q := 0.0;
    } else if q > top as real {
      q := top as real;
    }
    code := q.Floor;
  }

  method FloatToTfN(buf: array<byte>, t: Tensor, src: seq<Word32>, n: nat)
    requires Sound(t) && Fixed(t.dtype) && t.quant.Some? && n <= |src| && Extent(Width(t.dtype), n) <= buf.Length
    requires forall k :: 0 <= k < n ==> Storable(t, src[k])
    modifies buf
    ensures Written(t, src, n, old(buf[..]), buf[..])
    ensures buf[Extent(Width(t.dtype), n)..] == old(buf[Extent(Width(t.dtype), n)..])
  {
    var quant, top := t.quant.value, Top(t.dtype);
    var encodingMin := quant.offset as real * quant.scale;
    var encodingMax := (top as real + quant.offset as real) * quant.scale;
    var range := encodingMax - encodingMin;
    RangeIsPositive(quant.offset, quant.scale, top);
    for i := 0 to n
      invariant Written(t, src, i, old(buf[..]), buf[..])
    {
      var code := ScaleAndClamp(src[i], quant, top, encodingMin, range);
      StoreNext(buf, t, src, i, n, code, old(buf[..]));
    }
  }

  method CastFromFloat(buf: array<byte>, t: Tensor, src: seq<Word32>, n: nat)
    requires Sound(t) && (t.dtype.Int32? || (Fixed(t.dtype) && t.quant.None?))
    requires n <= |src| && Extent(Width(t.dtype), n) <= buf.Length
    requires forall k :: 0 <= k < n ==> Storable(t, src[k])
    modifies buf
    ensures Written(t, src, n, old(buf[..]), buf[..])
    ensures buf[Extent(Width(t.dtype), n)..] == old(buf[Extent(Width(t.dtype), n)..])
  {
    for i := 0 to n
      invariant Written(t, src, i, old(buf[..]), buf[..])
    {
      var v := Truncate(Real32(src[i]));
      StoreNext(buf, t, src, i, n, if v < 0 then v + 0x1_0000_0000 else v, old(buf[..]));
    }
  }

  /** floatToFloat16, or the copy of floats as they are. */
  method StoreFloats(buf: array<byte>, t: Tensor, src: seq<Word32>, n: nat)
    requires Sound(t) && (t.dtype.Float32? || t.dtype.Float16?)
    requires n <= |src| && Extent(Width(t.dtype), n) <= buf.Length
    modifies buf
    ensures Written(t, src, n, old(buf[..]), buf[..])
    ensures buf[Extent(Width(t.dtype), n)..] == old(buf[Extent(Width(t.dtype), n)..])
  {
    for i := 0 to n
      invariant Written(t, src, i, old(buf[..]), buf[..])
    {
      StoreNext(buf, t, src, i, n, if t.dtype.Float32? then src[i] else FloatToHalf(src[i]), old(buf[..]));
    }
  }

  // ---- the kernels behind read ----------------------------------------------------------

  /** x is what the element k of the buffer reads as. */
  ghost predicate Reads(t: Tensor, round: real -> Word32, bytes: seq<byte>, k: nat, x: Word32)
    requires Converts(t.dtype)
  {
    Extent(Width(t.dtype), k) + Width(t.dtype) <= |bytes|
    && ReadsAs(t, round, Loaded(Element(bytes, Width(t.dtype), k)), x)
  }

  ghost predicate Fetched(t: Tensor, round: real -> Word32, bytes: seq<byte>, offset: nat, n: nat, out: seq<Word32>)
    requires Converts(t.dtype) && n <= |out|
  {
    forall k :: 0 <= k < n ==> Reads(t, round, bytes, offset + k, out[k])
  }

  /** All but the FLOAT_16 kernel: dequantize, cast, or copy. */
  function Converted(t: Tensor, round: real -> Word32, code: nat): Word32
    requires Converts(t.dtype) && !t.dtype.Float16? && (t.dtype.Float32? ==> code < 0x1_0000_0000)
  {
    if t.dtype.Float32? then code
    else if t.dtype.Int32? then round((if code >= 0x8000_0000 then code - 0x1_0000_0000 else code) as real)
    else if t.quant.Some? then round(Dequantize(code, t.quant.value.offset, t.quant.value.scale))
    else round(code as real)
  }

  lemma {:induction false} LoadedFits(bytes: seq<byte>)
    ensures Loaded(bytes) < Capacity(|bytes|)
  {
    if bytes != [] { LoadedFits(bytes[1..]); }
  }

  method FetchNext(buf: array<byte>, t: Tensor, round: real -> Word32, offset: nat, i: nat, n: nat) returns (x: Word32)
    requires Converts(t.dtype) && i < n && Extent(Width(t.dtype), offset + n) <= buf.Length
    ensures Reads(t, round, buf[..], offset + i, x)
  {
    var w := Width(t.dtype);
    ExtentApart(w, offset + i, offset + n);
    var at := Extent(w, offset + i);
    var code := LoadElement(buf, at, w);
    assert buf[at..at + w] == Element(buf[..], w, offset + i);
    LoadedFits(buf[at..at + w]);
    CapacityIs(t.dtype);
    if t.dtype.Float16? {
      x := HalfToFloat(code);
    } else {
      x := Converted(t, round, code);
    }
  }

  method FetchFloats(buf: array<byte>, t: Tensor, round: real -> Word32, dst: array<Word32>, n: nat, offset: nat)
    requires Converts(t.dtype) && n <= dst.Length && Extent(Width(t.dtype), offset + n) <= buf.Length
    modifies dst
    ensures Fetched(t, round, buf[..], offset, n, dst[..])
    ensures dst[n..] == old(dst[n..])
  {
    ghost var bytes := buf[..];
    for i := 0 to n
      invariant buf[..] == bytes
      invariant forall k :: 0 <= k < i ==> Reads(t, round, bytes, offset + k, dst[k])
      invariant dst[n..] == old(dst[n..])
    {
      var x := FetchNext(buf, t, round, offset, i, n);
      dst[i] := x;
    }
  }

  /** Through a graph that copies its input to its output: what is written comes
      back at any element offset as WriteThenRead says. */
  lemma {:induction false} ReadBack(t: Tensor, round: real -> Word32, src: seq<Word32>, n: nat, before: seq<byte>,
                                    bytes: seq<byte>, offset: nat, m: nat, out: seq<Word32>, k: nat) returns (v: real)
    requires Sound(t) && Converts(t.dtype) && n <= |src| && m <= |out| && k < m && offset + k < n
    requires forall i :: 0 <= i < n ==> Storable(t, src[i])
    requires Written(t, src, n, before, bytes) && Fetched(t, round, bytes, offset, m, out)
    ensures t.dtype.Float32? ==> out[k] == src[offset + k]
    ensures t.dtype.Float16? ==> exists h: Word16 :: Rounds(src[offset + k], h) && Widens(h, out[k])
    ensures t.dtype.Int32? || Fixed(t.dtype) ==> out[k] == round(v)
    ensures t.dtype.Int32? || (Fixed(t.dtype) && t.quant.None?) ==> TowardZero(Worth(Fields(src[offset + k])), v)
    ensures t.dtype.UFixed8? && t.quant.Some? ==> Approximates(src[offset + k], t.quant.value, 255, v)
    ensures t.dtype.UFixed16? && t.quant.Some? ==> Approximates(src[offset + k], t.quant.value, 65535, v)
  {
    assert Reads(t, round, bytes, offset + k, out[k]);
    v := WriteThenRead(t, round, src, n, before, bytes, offset + k, out[k]);
  }

  lemma {:induction false} WholeFits(t: Tensor, n: nat)
    ensures Converts(t.dtype) && n <= Product(t.dims) ==>
              ByteSize(t).Some? && n * Width(t.dtype) <= ByteSize(t).value
  {
    if Converts(t.dtype) && n <= Product(t.dims) {
      ElementsFill(t);
      assert (Product(t.dims) - n) * Width(t.dtype) >= 0;
    }
  }

  // ---- the graph ---------------------------------------------------------------------------

  class Graph {
    const inputs: map<string, Tensor>
    const inputBuffers: map<string, array<byte>>
    const outputs: map<string, Tensor>
    const outputBuffers: map<string, array<byte>>
    /** The rounding of a real to a float. */
    const round: real -> Word32

    constructor (inputs: map<string, Tensor>, inputBuffers: map<string, array<byte>>,
                 outputs: map<string, Tensor>, outputBuffers: map<string, array<byte>>, round: real -> Word32)
      requires Sized(inputs, inputBuffers) && Sized(outputs, outputBuffers)
      ensures this.inputs == inputs && this.inputBuffers == inputBuffers
      ensures this.outputs == outputs && this.outputBuffers == outputBuffers && this.round == round
    {
      this.inputs, this.inputBuffers := inputs, inputBuffers;
      this.outputs, this.outputBuffers := outputs, outputBuffers;
      this.round := round;
    }

    /** Every tensor has a buffer of its byte size. */
    static predicate Sized(tensors: map<string, Tensor>, buffers: map<string, array<byte>>) {
      tensors.Keys == buffers.Keys
      && forall name :: name in tensors ==>
           Sound(tensors[name]) && ByteSize(tensors[name]) == Some(buffers[name].Length)
    }

    predicate Valid() { Sized(inputs, inputBuffers) && Sized(outputs, outputBuffers) }

    /** Graph::write for floats: never past the buffer, and nothing is written
        unless the elements fit and the type converts. */
    method Write(name: string, src: seq<Word32>, n: nat) returns (r: Outcome)
      requires Valid() && n <= |src|
      requires name in inputs ==> forall k :: 0 <= k < n ==> Storable(inputs[name], src[k])
      modifies if name in inputBuffers then {inputBuffers[name]} else {}
      ensures r == NoTensor <==> name !in inputs
      ensures name in inputs ==>
                var t, buf := inputs[name], inputBuffers[name];
                var w := if t.dtype in {Float32, Int32} then 4 else if t.dtype in {Float16, UFixed16} then 2 else 1;
                && (r == Overflow <==> n * w > buf.Length)
                && (r == Unsupported <==>
                      n * w <= buf.Length && t.dtype !in {Float32, Float16, UFixed16, UFixed8, Int32})
                && (r == Done ==> Extent(Width(t.dtype), n) <= buf.Length && Written(t, src, n, old(buf[..]), buf[..]))
                && (r == Done ==> buf[n * w..] == old(buf[n * w..]))
                && (r != Done ==> buf[..] == old(buf[..]))
                && (t.dtype in {Float32, Float16, UFixed16, UFixed8, Int32} && n <= Product(t.dims) ==> r == Done)
    {
      if name !in inputs { return NoTensor; }
      var t, buf := inputs[name], inputBuffers[name];
      var size := TensorByteSize(t);
      if size.None? { return Unsupported; }
      var w := Width(t.dtype);
      ExtentIsProduct(w, n);
      WholeFits(t, n);
      if n * w > size.value { return Overflow; }
      if t.dtype.Float32? || t.dtype.Float16? {
        StoreFloats(buf, t, src, n);
      } else if Fixed(t.dtype) && t.quant.Some? {
        FloatToTfN(buf, t, src, n);
      } else if Fixed(t.dtype) || t.dtype.Int32? {
        CastFromFloat(buf, t, src, n);
      } else {
        return Unsupported;
      }
      return Done;
    }

    /** Graph::read(float*): the caller keeps to the buffer. */
    method Read(name: string, dst: array<Word32>, n: nat, offset: nat) returns (r: Outcome)
      requires Valid() && n <= dst.Length
      requires name in outputs && Converts(outputs[name].dtype) ==>
                 Extent(Width(outputs[name].dtype), offset + n) <= outputBuffers[name].Length
      modifies dst
      ensures r == NoTensor <==> name !in outputs
      ensures r == Unsupported <==>
                name in outputs && outputs[name].dtype !in {Float32, Float16, UFixed16, UFixed8, Int32}
      ensures r == NoTensor || r == Unsupported || r == Done
      ensures r == Done ==> Fetched(outputs[name], round, outputBuffers[name][..], offset, n, dst[..])
      ensures r == Done ==> dst[n..] == old(dst[n..])
      ensures r != Done ==> dst[..] == old(dst[..])
    {
      if name !in outputs { return NoTensor; }
      var t, buf := outputs[name], outputBuffers[name];
      if !Converts(t.dtype) { return Unsupported; }
      FetchFloats(buf, t, round, dst, n, offset);
      return Done;
    }
  }
}
