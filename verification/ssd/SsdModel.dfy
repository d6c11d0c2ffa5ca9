/** Tree-based self-speculative decoding: the model object, its key/value cache, and generation. */
module SsdModel {
  import opened Acceptance
  import opened Decoding
  import opened DraftTree
  import opened Extents
  import opened FirstDraft
  import opened ForwardPass
  import opened KvCache
  import opened KvCopy
  import opened Bytes
  import opened KvLayout
  import opened KvReshape
  import opened Sampling
  import opened SampleTree
  import opened Redraft
  import opened TreeMask
  import opened Callback
  import opened SsdFacts
  import opened SsdRun
  import opened SsdSpec

  /** No two tensors share a buffer. */
  predicate Separate(bufs: seq<array<byte>>) { forall s, t :: 0 <= s < t < |bufs| ==> bufs[s] != bufs[t] }

  class SsdModel {
    const spec: Spec
    const bufs: seq<array<byte>>  // key/value input buffers, shared by the prefill and decode graphs

    // the draft tree
    var numDraftNodes: nat
    var attentionMap: seq<int>
    var samplesPerDraftLevel: seq<nat>
    var nodesPerDraftLevel: seq<nat>

    // the cache position, and the outputs of the last pass
    var nPast: nat
    var outs: seq<seq<byte>>
    var logits: seq<real>

    // the entries of the forecast prefix
    ghost var prefix: seq<Entry>

    /** The contents of the first `n` input buffers. */
    function BufsUpTo(n: nat): (bs: seq<seq<byte>>)
      requires n <= |bufs|
      reads bufs
      ensures |bs| == n
    {
      if n == 0 then [] else BufsUpTo(n - 1) + [bufs[n - 1][..]]
    }

    function Bufs(): (bs: seq<seq<byte>>)
      reads bufs
      ensures |bs| == |bufs|
    {
      BufsUpTo(|bufs|)
    }

    lemma {:induction false} BufsUpToAt(n: nat, t: nat)
      requires t < n <= |bufs|
      ensures BufsUpTo(n)[t] == bufs[t][..]
    {
      if t < n - 1 {
        BufsUpToAt(n - 1, t);
      }
    }

    lemma {:induction false} BufsAre()
      ensures forall t :: 0 <= t < |bufs| ==> Bufs()[t] == bufs[t][..]
    {
      forall t | 0 <= t < |bufs| ensures Bufs()[t] == bufs[t][..] {
        BufsUpToAt(|bufs|, t);
      }
    }

    /** The tensors have separate input buffers that fit the model, and the draft tree is built. */
    ghost predicate Ready()
      reads this, bufs
    {
      && Separate(bufs)
      && spec.BuffersFit(Bufs())
      && spec.TreeReady(numDraftNodes, attentionMap, samplesPerDraftLevel, nodesPerDraftLevel)
    }

    ghost predicate Holds(stride: nat, ctx: seq<Token>)
      reads this, bufs
    {
      spec.CacheHolds(Bufs(), nPast, stride, prefix, ctx)
    }

    /** Builds the draft tree; the prefix occupies the first `fp` cache slots. */
    constructor (spec: Spec, bufs: seq<array<byte>>)
      requires spec.Valid() && |bufs| == |spec.shapes|
      requires Separate(bufs)
      requires forall t :: 0 <= t < |bufs| ==>
                 && Room(spec.shapes[t], bufs[t][..], spec.PrefillKv())
                 && Room(spec.shapes[t], bufs[t][..], spec.DecodeKv())
      ensures this.spec == spec && this.bufs == bufs && Ready() && nPast == spec.fp
      ensures spec.fp <= spec.PrefillKv() ==> Holds(spec.PrefillKv(), [])
      ensures spec.fp <= spec.PrefillKv() ==> prefix == Columns(spec.shapes, Bufs(), spec.PrefillKv())[..spec.fp]
    {
      this.spec := spec;
      this.bufs := bufs;
      nPast := spec.fp;
      outs, logits := [], [];
      numDraftNodes, attentionMap, samplesPerDraftLevel, nodesPerDraftLevel := 0, [], [], [];
      prefix := [];
      new;
      attentionMap, numDraftNodes, samplesPerDraftLevel, nodesPerDraftLevel := GenAttentionMap(spec.branches);
      BufsAre();
      if spec.fp <= spec.PrefillKv() {
        prefix := Columns(spec.shapes, Bufs(), spec.PrefillKv())[..spec.fp];
        assert prefix + [] == prefix;
      }
    }

    // ----- device pass -----

    /** One graph execution: every slot's cache entry and logits go to the output buffers. */
    method Execute(p: Pass<Entry>)
      requires Ready() && p.Shaped() && p.Causal()
      modifies this`outs, this`logits
      ensures spec.OutputsHold(outs, logits, p.seqLen, Run(spec.forward, p, |p.tokens|))
    {
      var results := Run(spec.forward, p, |p.tokens|);
      RunWellShaped(spec.forward, spec.vocab, spec.shapes, p, |p.tokens|);
      outs := EncodeAll(spec.shapes, Kvs(results), p.seqLen);
      var rows := seq(p.seqLen, i requires 0 <= i < p.seqLen =>
        if i < |results| then results[i].logits else seq(spec.vocab, _ => 0.0));
      logits := Flatten(rows, spec.vocab, p.seqLen);
      forall i | 0 <= i < |results|
        ensures EntryAt(spec.shapes, outs, p.seqLen, i) == results[i].kv
        ensures UnitAt(logits, spec.vocab, p.seqLen, i) == results[i].logits
      {
        EncodeAllEntry(spec.shapes, Kvs(results), p.seqLen, i);
        FlattenUnit(rows, spec.vocab, p.seqLen, i);
      }
    }

    // ----- key/value updates -----

    /** `memcpy` of the first `n` output columns of every tensor to columns `dstOff` on. */
    method UpdateKV(inStride: nat, outStride: nat, dstOff: nat, n: nat)
      requires Ready() && Rooms(spec.shapes, Bufs(), inStride) && Rooms(spec.shapes, outs, outStride)
      requires dstOff + n <= inStride && n <= outStride
      modifies bufs
      ensures Ready() && Rooms(spec.shapes, Bufs(), inStride)
      ensures AllGathered(spec.shapes, Bufs(), old(Bufs()), outs, inStride, outStride, dstOff, Range(0, n))
    {
      ghost var before := Bufs();
      BufsAre();
      CopyTensors(bufs, outs, spec.shapes, inStride, outStride, dstOff, n, before);
      BufsAre();
      RoomsKept(spec, before, Bufs());
    }

    /** The loop of `UpdateKV` over the tensors. */
    static method CopyTensors(bufs: seq<array<byte>>, outs: seq<seq<byte>>, shapes: seq<Shape>, inStride: nat,
                              outStride: nat, dstOff: nat, n: nat, ghost before: seq<seq<byte>>)
      requires Separate(bufs) && |bufs| == |before| && forall t :: 0 <= t < |bufs| ==> bufs[t][..] == before[t]
      requires Rooms(shapes, before, inStride) && Rooms(shapes, outs, outStride)
      requires dstOff + n <= inStride && n <= outStride
      modifies bufs
      ensures forall t :: 0 <= t < |bufs| ==>
                Gathered(GeometryOf(shapes[t], inStride, outStride), bufs[t][..], before[t], outs[t], dstOff,
                         Range(0, n))
    {
      for t := 0 to |bufs|
        invariant forall s :: 0 <= s < t ==>
                    Gathered(GeometryOf(shapes[s], inStride, outStride), bufs[s][..], before[s], outs[s], dstOff,
                             Range(0, n))
        invariant forall s :: t <= s < |bufs| ==> bufs[s][..] == before[s]
      {
        assert Room(shapes[t], before[t], inStride) && Room(shapes[t], outs[t], outStride);
        CopyRows(bufs[t], outs[t], GeometryOf(shapes[t], inStride, outStride), dstOff, CopyRun(0, n));
      }
    }

    /** Copies the selected output columns, in ascending order and in coalesced runs, to the
        cache columns from `nPast` on. */
    method SelectiveKVUpdate(selected: seq<bool>)
      requires Ready() && Rooms(spec.shapes, outs, spec.seqLenDecode)
      requires |selected| <= spec.seqLenDecode
      requires nPast + |Positions(selected)| <= spec.DecodeKv()
      modifies bufs
      ensures Ready()
      ensures AllGathered(spec.shapes, Bufs(), old(Bufs()), outs, spec.DecodeKv(), spec.seqLenDecode, nPast,
                          Positions(selected))
    {
      var runs := CoalesceRuns(selected);
      ghost var before, picks := Bufs(), Positions(selected);
      BufsAre();
      forall k | 0 <= k < |picks| ensures picks[k] < spec.seqLenDecode {
        PositionsAreSelected(selected, |selected|);
        assert picks[k] in picks;
      }
      GatherTensors(bufs, outs, spec.shapes, spec.DecodeKv(), spec.seqLenDecode, nPast, runs, before);
      BufsAre();
      RoomsKept(spec, before, Bufs());
    }

    /** The loop of `SelectiveKVUpdate` over the tensors. */
    static method GatherTensors(bufs: seq<array<byte>>, outs: seq<seq<byte>>, shapes: seq<Shape>, inStride: nat,
                                outStride: nat, dest: nat, runs: seq<CopyRun>, ghost before: seq<seq<byte>>)
      requires Separate(bufs) && |bufs| == |before| && forall t :: 0 <= t < |bufs| ==> bufs[t][..] == before[t]
      requires Rooms(shapes, before, inStride) && Rooms(shapes, outs, outStride)
      requires forall k :: 0 <= k < |runs| ==> runs[k].count > 0
      requires dest + |Expand(runs, |runs|)| <= inStride
      requires forall k :: 0 <= k < |Expand(runs, |runs|)| ==> Expand(runs, |runs|)[k] < outStride
      modifies bufs
      ensures forall t :: 0 <= t < |bufs| ==>
                Gathered(GeometryOf(shapes[t], inStride, outStride), bufs[t][..], before[t], outs[t], dest,
                         Expand(runs, |runs|))
    {
      for t := 0 to |bufs|
        invariant forall s :: 0 <= s < t ==>
                    Gathered(GeometryOf(shapes[s], inStride, outStride), bufs[s][..], before[s], outs[s], dest,
                             Expand(runs, |runs|))
        invariant forall s :: t <= s < |bufs| ==> bufs[s][..] == before[s]
      {
        assert Room(shapes[t], before[t], inStride) && Room(shapes[t], outs[t], outStride);
        CopySelected(bufs[t], outs[t], GeometryOf(shapes[t], inStride, outStride), dest, runs);
      }
    }

    /** Changes the stride of one tensor in place. */
    static method ReshapeTensor(buf: array<byte>, shape: Shape, oldKvLen: nat, newKvLen: nat, copyLen: nat)
      requires copyLen <= oldKvLen && copyLen <= newKvLen && oldKvLen != newKvLen
      requires Room(shape, buf[..], oldKvLen) && Room(shape, buf[..], newKvLen)
      modifies buf
      ensures ColumnsKept(shape, buf[..], old(buf[..]), oldKvLen, newKvLen, copyLen)
    {
      ghost var before := buf[..];
      var w := Restride(shape.rows, oldKvLen, newKvLen, copyLen);
      Reshape(buf, shape.unit, w, shape.dtype);
      ReshapedColumns(shape, buf[..], before, w);
    }

    /** Changes the stride of every tensor in place; the first `min(nValid, strides)` columns survive. */
    method ReshapeKV(oldKvLen: nat, newKvLen: nat, nValid: nat)
      requires Ready() && Rooms(spec.shapes, Bufs(), oldKvLen) && Rooms(spec.shapes, Bufs(), newKvLen)
      modifies bufs
      ensures Ready() && Rooms(spec.shapes, Bufs(), newKvLen)
      ensures forall c :: 0 <= c < nValid && c < oldKvLen && c < newKvLen ==>
                EntryAt(spec.shapes, Bufs(), newKvLen, c) == old(EntryAt(spec.shapes, Bufs(), oldKvLen, c))
    {
      if oldKvLen == newKvLen {
        return;
      }
      var least := if oldKvLen < newKvLen then oldKvLen else newKvLen;
      var copyLen := if nValid < least then nValid else least;
      ghost var before := Bufs();
      BufsAre();
      ReshapeTensors(bufs, spec.shapes, oldKvLen, newKvLen, copyLen, before);
      BufsAre();
      RoomsKept(spec, before, Bufs());
      KeptEntries(spec.shapes, Bufs(), before, oldKvLen, newKvLen, copyLen);
    }

    /** The loop of `ReshapeKV` over the tensors. */
    static method ReshapeTensors(bufs: seq<array<byte>>, shapes: seq<Shape>, oldKvLen: nat, newKvLen: nat, copyLen: nat,
                                 ghost before: seq<seq<byte>>)
      requires copyLen <= oldKvLen && copyLen <= newKvLen && oldKvLen != newKvLen
      requires Separate(bufs) && |bufs| == |before| && forall t :: 0 <= t < |bufs| ==> bufs[t][..] == before[t]
      requires Rooms(shapes, before, oldKvLen) && Rooms(shapes, before, newKvLen)
      modifies bufs
      ensures forall t :: 0 <= t < |bufs| ==>
                && |bufs[t][..]| == |before[t]|
                && ColumnsKept(shapes[t], bufs[t][..], before[t], oldKvLen, newKvLen, copyLen)
    {
      for t := 0 to |bufs|
        invariant forall s :: 0 <= s < t ==>
                    ColumnsKept(shapes[s], bufs[s][..], before[s], oldKvLen, newKvLen, copyLen)
        invariant forall s :: t <= s < |bufs| ==> bufs[s][..] == before[s]
      {
        assert Room(shapes[t], before[t], oldKvLen) && Room(shapes[t], before[t], newKvLen);
        ReshapeTensor(bufs[t], shapes[t], oldKvLen, newKvLen, copyLen);
      }
    }

    // ----- decoding -----

    /** One decode pass over a tree-shaped block: slots below `kvPrefixOffset` skip the forecast prefix. */
    method RunShardsWithTreeMask(tokens: seq<Token>, kvPrefixOffset: nat) returns (ghost p: Pass<Entry>)
      requires Ready() && Rooms(spec.shapes, Bufs(), spec.DecodeKv())
      requires |tokens| <= |attentionMap| && spec.fp <= nPast <= spec.DecodeKv()
      modifies this`outs, this`logits
      ensures p.cols == Columns(spec.shapes, Bufs(), spec.DecodeKv()) && p.tokens == tokens
      ensures TreePass(p, attentionMap, spec.fp, nPast, kvPrefixOffset)
      ensures |p.cols| + p.seqLen == spec.contextLength && p.seqLen == spec.seqLenDecode
      ensures |p.mask| == Extent(spec.contextLength, spec.seqLenDecode)
      ensures AddsByTree(p.mask, attentionMap, spec.fp, nPast, |tokens|, spec.contextLength - spec.seqLenDecode,
                         spec.seqLenDecode, kvPrefixOffset)
      ensures spec.OutputsHold(outs, logits, spec.seqLenDecode, Run(spec.forward, p, |tokens|))
    {
      LayoutIsTree(spec.branches, attentionMap);
      var kvLen, seqLen := spec.DecodeKv(), spec.seqLenDecode;
      var mask := BuildTreeAttentionMask(attentionMap, spec.fp, nPast, |tokens|, seqLen, kvLen, kvPrefixOffset);
      var treePos := ComputeTreePositionIds(attentionMap, spec.fp, nPast, |tokens|);
      var pass := Pass(Columns(spec.shapes, Bufs(), kvLen), tokens, treePos, mask[..], seqLen);
      MaskedPassIsTreePass(pass, attentionMap, spec.fp, nPast, kvPrefixOffset);
      TreePassIsCausal(pass, attentionMap, spec.fp, nPast, kvPrefixOffset);
      Execute(pass);
      p := pass;
    }

    /** A pass over the draft and its forecast slots, and greedy verification of the draft. */
    method DraftPass(draft: seq<Token>, forecast: seq<Token>, ghost ctx: seq<Token>)
        returns (tokens: seq<Token>, ids: seq<nat>, ghost added: seq<Entry>)
      requires Ready() && Holds(spec.DecodeKv(), ctx)
      requires |draft| == numDraftNodes && forecast == ForecastTokens(spec.vocab, |spec.branches|, numDraftNodes)
      modifies this`outs, this`logits
      ensures spec.Accepted(outs, draft[0], ctx, tokens, ids, added)
      ensures Accepts(spec, attentionMap, draft, ctx, tokens)
      ensures spec.ForecastHeld(logits, ForecastSlot(spec.branches, ids[|ids| - 1], 0), prefix,
                                ctx + ([draft[0]] + tokens[..|tokens| - 1]))
    {
      var block := draft + forecast;
      LayoutIsTree(spec.branches, attentionMap);
      ghost var p := RunShardsWithTreeMask(block, numDraftNodes);
      tokens, ids := VerifyDraftTree(attentionMap, numDraftNodes, draft, logits, spec.vocab, spec.seqLenDecode,
                                     spec.eos);
      added := DraftVerified(spec, attentionMap, draft, p, nPast, prefix, ctx, outs, logits, tokens, ids);
    }

    /** Compacts the accepted columns to the end of the cache and moves the cache position. */
    method CommitAccepted(n: nat, ids: seq<nat>, ghost root: Token, ghost ctx: seq<Token>, ghost tokens: seq<Token>,
                          ghost added: seq<Entry>)
      requires Ready() && Holds(spec.DecodeKv(), ctx) && spec.Accepted(outs, root, ctx, tokens, ids, added)
      requires numDraftNodes <= n <= spec.seqLenDecode
      requires nPast + |ids| <= spec.DecodeKv()
      modifies this`nPast, bufs
      ensures Ready() && nPast == old(nPast) + |ids|
      ensures Holds(spec.DecodeKv(), ctx + ([root] + tokens[..|tokens| - 1]))
    {
      ghost var before := Bufs();
      var selected := Select(n, ids);
      SelectiveKVUpdate(selected);
      Appended(spec, Bufs(), before, outs, spec.DecodeKv(), spec.seqLenDecode, nPast, prefix, ctx,
               ctx + ([root] + tokens[..|tokens| - 1]), ids, added);
      nPast := nPast + |ids|;
    }

    // ----- prefill -----

    /** One prefill pass: a causal pass over a chunk that skips the forecast prefix, at consecutive positions. */
    method PrefillPass(chunk: seq<Token>) returns (ghost p: Pass<Entry>)
      requires Ready() && Rooms(spec.shapes, Bufs(), spec.PrefillKv())
      requires 0 < |chunk| <= spec.seqLenPrefill && spec.fp <= nPast <= spec.PrefillKv()
      modifies this`outs, this`logits
      ensures p.cols == Columns(spec.shapes, Bufs(), spec.PrefillKv()) && p.tokens == chunk
      ensures TreePass(p, ChainMap(|chunk|), spec.fp, nPast, |chunk|)
      ensures |p.cols| + p.seqLen == spec.contextLength && p.seqLen == spec.seqLenPrefill
      ensures |p.mask| == Extent(spec.contextLength, spec.seqLenPrefill)
      ensures AddsByOrder(p.mask, spec.fp, nPast, |chunk|, spec.contextLength - spec.seqLenPrefill, spec.seqLenPrefill)
      ensures |p.pos| == |chunk| && forall i :: 0 <= i < |chunk| ==> p.pos[i] == nPast - spec.fp + i
      ensures spec.OutputsHold(outs, logits, spec.seqLenPrefill, Run(spec.forward, p, |chunk|))
    {
      var kvLen, seqLen, n := spec.PrefillKv(), spec.seqLenPrefill, |chunk|;
      var mask := BuildPrefillMask(spec.fp, nPast, n, seqLen, kvLen);
      var ropeNPast := nPast - spec.fp;
      var prefillPos := seq(n, i requires 0 <= i => ropeNPast + i);
      var pass := Pass(Columns(spec.shapes, Bufs(), kvLen), chunk, prefillPos, mask[..], seqLen);
      CausalPassIsTreePass(pass, spec.fp, nPast);
      TreePassIsCausal(pass, ChainMap(n), spec.fp, nPast, n);
      Execute(pass);
      p := pass;
    }

    /** One chunk of the prompt: a prefill pass, then all its columns go to the cache. */
    method PrefillChunk(chunk: seq<Token>, ghost ctx: seq<Token>)
      requires Ready() && Holds(spec.PrefillKv(), ctx)
      requires 0 < |chunk| <= spec.seqLenPrefill && nPast + |chunk| <= spec.PrefillKv()
      modifies this`outs, this`logits, this`nPast, bufs
      ensures Ready() && Holds(spec.PrefillKv(), ctx + chunk)
      ensures spec.LogitsFollow(logits, spec.seqLenPrefill, |chunk| - 1, ctx + chunk)
    {
      ghost var p := PrefillPass(chunk);
      ChunkFollows(spec, p, nPast, prefix, ctx, outs, logits);
      AppendColumns(spec.PrefillKv(), spec.seqLenPrefill, |chunk|, ctx, ctx + chunk,
                    Kvs(Run(spec.forward, p, |chunk|)));
    }

    /** Appends the first `n` output columns to the cache. */
    method AppendColumns(kvLen: nat, seqLen: nat, n: nat, ghost ctx: seq<Token>, ghost ctx': seq<Token>,
                         ghost added: seq<Entry>)
      requires Ready() && Holds(kvLen, ctx) && Rooms(spec.shapes, outs, seqLen)
      requires nPast + n <= kvLen && n <= seqLen && |added| == n
      requires forall k :: 0 <= k < n ==> EntryAt(spec.shapes, outs, seqLen, k) == added[k]
      requires Entries(spec.forward, ctx') == Entries(spec.forward, ctx) + added
      modifies this`nPast, bufs
      ensures Ready() && nPast == old(nPast) + n && Holds(kvLen, ctx')
    {
      ghost var before := Bufs();
      UpdateKV(kvLen, seqLen, nPast, n);
      Appended(spec, Bufs(), before, outs, kvLen, seqLen, nPast, prefix, ctx, ctx', Range(0, n), added);
      nPast := nPast + n;
    }

    /** Cuts the next chunk off the prompt and feeds it, if it fits below the prefill stride. */
    method FeedNextChunk(prompt: seq<Token>, processed: nat, ghost chunks: nat, ghost fed: seq<Token>,
                         ghost all: seq<Token>) returns (ok: bool, size: nat, next: nat, ghost fed': seq<Token>)
      requires Ready() && Holds(spec.PrefillKv(), fed)
      requires processed < |prompt| && processed == Extent(spec.seqLenPrefill, chunks)
      requires fed + prompt[processed..] == all
      modifies this`outs, this`logits, this`nPast, bufs
      ensures Ready() && 0 < size && next == processed + size <= |prompt|
      ensures |fed'| == |fed| + size && fed' + prompt[next..] == all
      ensures next < |prompt| ==> next == Extent(spec.seqLenPrefill, chunks + 1)
      ensures next == |prompt| ==> size == LastChunk(|prompt|, spec.seqLenPrefill)
      ensures ok <==> spec.fp + |fed'| + spec.seqLenPrefill <= spec.contextLength
      ensures ok ==> Holds(spec.PrefillKv(), fed')
      ensures ok ==> spec.LogitsFollow(logits, spec.seqLenPrefill, size - 1, fed')
    {
      var chunk := NextChunk(prompt, processed, spec.seqLenPrefill, chunks, fed, all);
      size, next, fed' := |chunk|, processed + |chunk|, fed + chunk;
      ok := nPast + size <= spec.PrefillKv();
      if ok {
        PrefillChunk(chunk, fed);
      }
    }

    /** Feeds the prompt in chunks of at most `seqLenPrefill` tokens.  `fits` is false when a
        chunk would not fit below the prefill stride. */
    method Prefill(prompt: seq<Token>, ghost ctx: seq<Token>) returns (fits: bool, lastChunkSize: nat)
      requires Ready() && Holds(spec.PrefillKv(), ctx) && prompt != []
      modifies this`outs, this`logits, this`nPast, bufs
      ensures Ready() && (fits <==> spec.fp + |ctx| + |prompt| + spec.seqLenPrefill <= spec.contextLength)
      ensures fits ==> lastChunkSize == LastChunk(|prompt|, spec.seqLenPrefill) > 0
      ensures fits ==> Holds(spec.PrefillKv(), ctx + prompt)
      ensures fits ==> spec.LogitsFollow(logits, spec.seqLenPrefill, lastChunkSize - 1, ctx + prompt)
    {
      var processed := 0;
      ghost var chunks := 0;
      fits, lastChunkSize := true, 0;
      ghost var fed, all := ctx, ctx + prompt;
      while processed < |prompt|
        invariant processed <= |prompt| && |fed| == |ctx| + processed && fed + prompt[processed..] == all
        invariant Ready() && Holds(spec.PrefillKv(), fed)
        invariant processed < |prompt| ==> processed == Extent(spec.seqLenPrefill, chunks)
        invariant processed == |prompt| ==> lastChunkSize == LastChunk(|prompt|, spec.seqLenPrefill) > 0
        invariant processed > 0 ==>
                    lastChunkSize > 0 && spec.LogitsFollow(logits, spec.seqLenPrefill, lastChunkSize - 1, fed)
        decreases |prompt| - processed
      {
        var next;
        ghost var fed';
        fits, lastChunkSize, next, fed' := FeedNextChunk(prompt, processed, chunks, fed, all);
        if !fits {
          break;
        }
        processed, fed, chunks := next, fed', chunks + 1;
      }
      if fits {
        assert fed + prompt[processed..] == fed;
      }
    }

    /** Switches between the prefill and decode strides; the context survives if it fits. */
    method SwitchStride(oldKvLen: nat, newKvLen: nat, ghost ctx: seq<Token>)
      requires Ready() && Holds(oldKvLen, ctx) && Rooms(spec.shapes, Bufs(), newKvLen)
      modifies bufs
      ensures Ready() && (nPast <= newKvLen ==> Holds(newKvLen, ctx))
    {
      ghost var before := Bufs();
      ReshapeKV(oldKvLen, newKvLen, nPast);
      if nPast <= newKvLen {
        ghost var now, was := Columns(spec.shapes, Bufs(), newKvLen), Columns(spec.shapes, before, oldKvLen);
        forall i | 0 <= i < nPast ensures now[..nPast][i] == was[..nPast][i] {
          assert now[i] == was[i];
        }
        assert now[..nPast] == was[..nPast];
      }
    }

    /** The first decode pass: the first token and a forecast block; only the token's column is kept. */
    method InitialPass(first: Token, ghost ctx: seq<Token>) returns (ghost results: seq<Out<Entry>>)
      requires Ready() && Holds(spec.DecodeKv(), ctx) && nPast + 1 <= spec.DecodeKv()
      modifies this`outs, this`logits, this`nPast, bufs
      ensures Ready() && Holds(spec.DecodeKv(), ctx + [first])
      ensures |spec.branches| < spec.seqLenDecode && Extent(spec.vocab, spec.seqLenDecode) <= |logits|
      ensures FirstOuts(spec, attentionMap, prefix, ctx, first, results)
      ensures ForecastRows(logits, spec.vocab, spec.seqLenDecode, 1, |spec.branches|)
           == FirstRows(|spec.branches|, results)
      ensures Narrow(spec.branches) ==> FirstRows(|spec.branches|, results) == spec.RowsForetold(prefix, ctx + [first])
    {
      LayoutIsTree(spec.branches, attentionMap);
      BlockFits(spec.branches);
      var initTokens := FirstBlock(spec, first);
      ghost var p := RunShardsWithTreeMask(initTokens, 1);
      results := Run(spec.forward, p, |initTokens|);
      HeldParts(p.cols, prefix, Entries(spec.forward, ctx), spec.fp, nPast);
      FirstRowsHeld(spec, p, attentionMap, nPast, prefix, ctx, first, outs, logits);
      if Narrow(spec.branches) {
        NarrowRows(spec, attentionMap, prefix, ctx, first, results);
      }
      ghost var added := RootEntry(spec.forward, p, attentionMap, spec.fp, nPast, ctx);
      AppendColumns(spec.DecodeKv(), spec.seqLenDecode, 1, ctx, ctx + [first], added);
    }

    // ----- generation -----

    /** Hands the accepted tokens over one by one, up to an end-of-sequence token or a refusal. */
    method Emit(tokens: seq<Token>, before: seq<Token>, listener: Listener?, ghost start: seq<Token>)
        returns (output: seq<Token>, n: nat, hitEos: bool, userStop: bool)
      requires before != [] && (listener != null ==> listener.Told(start, before[1..], false))
      modifies listener
      ensures n <= |tokens| && output == before + tokens[..n]
      ensures forall k :: 0 <= k < n ==> tokens[k] !in spec.eos
      ensures hitEos ==> n < |tokens| && tokens[n] in spec.eos && !userStop
      ensures userStop ==> 0 < n && listener != null
      ensures !hitEos && !userStop ==> n == |tokens|
      ensures listener != null ==> listener.Told(start, output[1..], userStop)
    {
      output, n, hitEos, userStop := before, 0, false, false;
      while n < |tokens|
        invariant n <= |tokens| && output == before + tokens[..n]
        invariant forall k :: 0 <= k < n ==> tokens[k] !in spec.eos
        invariant listener != null ==> listener.Told(start, output[1..], false)
      {
        if tokens[n] in spec.eos {
          hitEos := true;
          return;
        }
        assert tokens[..n + 1] == tokens[..n] + [tokens[n]];
        assert (output + [tokens[n]])[1..] == output[1..] + [tokens[n]];
        output := output + [tokens[n]];
        n := n + 1;
        if listener != null {
          ghost var told := listener.heard;
          var go := listener.Call(tokens[n - 1]);
          AgreedSnoc(listener.keepsGoing, told, |start|, tokens[n - 1]);
          if !go {
            userStop := true;
            return;
          }
        }
      }
    }

    /** Builds the draft for the next pass from the forecast rows starting at `startOffset`. */
    method DraftFrom(last: Token, startOffset: nat) returns (draft: seq<Token>, ghost tops: seq<seq<Token>>)
      requires Ready() && startOffset + |spec.branches| <= spec.seqLenDecode
      requires Extent(spec.vocab, spec.seqLenDecode) <= |logits|
      ensures IsDraft(spec.branches, attentionMap,
                      ForecastRows(logits, spec.vocab, spec.seqLenDecode, startOffset,
                                   |spec.branches|), tops, last, draft)
    {
      draft, tops := BuildSampleTree(spec.branches, attentionMap, samplesPerDraftLevel, nodesPerDraftLevel, last,
                                     logits, spec.vocab, spec.seqLenDecode, startOffset);
    }

    /** A draft pass followed by compaction.  `fits` is false where the accepted columns would
        not fit below the stride; the cache is then left as it was. */
    method Speculate(draft: seq<Token>, forecast: seq<Token>, ghost ctx: seq<Token>)
        returns (tokens: seq<Token>, last: nat, fits: bool, ghost ctx': seq<Token>)
      requires Ready() && Holds(spec.DecodeKv(), ctx)
      requires |draft| == numDraftNodes && forecast == ForecastTokens(spec.vocab, |spec.branches|, numDraftNodes)
      modifies this`outs, this`logits, this`nPast, bufs
      ensures Ready() && Holds(spec.DecodeKv(), ctx') && last < numDraftNodes
      ensures 1 <= |tokens| <= |spec.branches| + 1 && Accepts(spec, attentionMap, draft, ctx, tokens)
      ensures forall k :: 0 <= k < |tokens| - 1 ==> tokens[k] !in spec.eos
      ensures fits <==> spec.fp + |ctx| + |tokens| + spec.seqLenDecode <= spec.contextLength
      ensures fits ==> spec.ForecastHeld(logits, ForecastSlot(spec.branches, last, 0), prefix, ctx')
      ensures ctx' == if fits then ctx + ([draft[0]] + tokens[..|tokens| - 1]) else ctx
    {
      var ids;
      ghost var added;
      tokens, ids, added := DraftPass(draft, forecast, ctx);
      last := ids[|ids| - 1];
      fits := nPast + |ids| <= spec.DecodeKv();
      ctx' := ctx;
      if fits {
        CommitAccepted(|draft + forecast|, ids, draft[0], ctx, tokens, added);
        ctx' := ctx + ([draft[0]] + tokens[..|tokens| - 1]);
      }
    }

    /** Delivers the accepted tokens and, if generation goes on, drafts the next tree. */
    method Deliver(output: seq<Token>, draft: seq<Token>, tokens: seq<Token>, last: nat, maxTokens: int,
                   listener: Listener?, ghost start: seq<Token>, ghost ctx: seq<Token>, ghost ctx': seq<Token>)
        returns (output': seq<Token>, draft': seq<Token>, ending: Ending)
      requires Ready() && Holds(spec.DecodeKv(), ctx') && last < numDraftNodes
      requires output != [] && |draft| == numDraftNodes > 0 && tokens != []
      requires listener != null ==> listener.Told(start, output[1..], false)
      requires forall k :: 0 <= k < |tokens| - 1 ==> tokens[k] !in spec.eos
      requires ctx' == Committed(Head(output, draft, ctx), tokens)
      requires spec.ForecastHeld(logits, ForecastSlot(spec.branches, last, 0), prefix, ctx')
      modifies listener
      ensures Ready() && Holds(spec.DecodeKv(), ctx') && |draft'| == numDraftNodes && output <= output'
      ensures Delivers(spec, attentionMap, prefix, Head(output, draft, ctx), tokens, Head(output', draft', ctx'),
                       ending, maxTokens)
      ensures ending == Refused ==> listener != null
      ensures listener != null ==> listener.Told(start, output'[1..], ending == Refused)
    {
      var n, hitEos, userStop;
      output', n, hitEos, userStop := Emit(tokens, output, listener, start);
      draft' := draft;
      if hitEos {
        ending := Eos;
      } else if userStop {
        ending := Refused;
      } else if |output'| >= maxTokens {
        ending := TokenLimit;
      } else {
        ending := GoOn;
        ChainInBlock(spec.branches, last);
        ghost var tops;
        draft', tops := DraftFrom(tokens[|tokens| - 1], ForecastSlot(spec.branches, last, 0));
      }
    }

    /** One iteration of the decode loop: speculation, delivery, and the next draft.  It ends
        with `CacheFull` where the accepted columns would not fit below the stride. */
    method Iterate(output: seq<Token>, draft: seq<Token>, forecast: seq<Token>, maxTokens: int, listener: Listener?,
                   ghost start: seq<Token>, ghost ctx: seq<Token>)
        returns (output': seq<Token>, draft': seq<Token>, ending: Ending, ghost ctx': seq<Token>,
                 ghost accepted: seq<Token>)
      requires Ready() && Holds(spec.DecodeKv(), ctx) && output != [] && |draft| == numDraftNodes
      requires forecast == ForecastTokens(spec.vocab, |spec.branches|, numDraftNodes)
      requires listener != null ==> listener.Told(start, output[1..], false)
      modifies this`outs, this`logits, this`nPast, bufs, listener
      ensures Ready() && Holds(spec.DecodeKv(), ctx') && |draft'| == numDraftNodes && output <= output'
      ensures StepTo(spec, attentionMap, prefix, Head(output, draft, ctx), accepted, Head(output', draft', ctx'),
                     ending, maxTokens)
      ensures old(nPast) + |spec.branches| + 1 + spec.seqLenDecode <= spec.contextLength ==> ending != CacheFull
      ensures ending == Refused ==> listener != null
      ensures listener != null ==> listener.Told(start, output'[1..], ending == Refused)
    {
      var last, fits;
      accepted := [];
      var tokens;
      tokens, last, fits, ctx' := Speculate(draft, forecast, ctx);
      accepted := tokens;
      if fits {
        output', draft', ending := Deliver(output, draft, tokens, last, maxTokens, listener, start, ctx, ctx');
      } else {
        output', draft', ending := output, draft, CacheFull;
      }
    }

    /** One iteration, as the loop sees it. */
    method Advance(output: seq<Token>, draft: seq<Token>, forecast: seq<Token>, maxTokens: int, listener: Listener?,
                   ghost told: seq<Token>, ghost fed: seq<Token>, ghost heads: seq<Head>, ghost start: Head,
                   ghost step: nat)
        returns (output': seq<Token>, draft': seq<Token>, ending: Ending, ghost fed': seq<Token>,
                 ghost accepted: seq<Token>)
      requires Ready() && Holds(spec.DecodeKv(), fed) && output != [] && |draft| == numDraftNodes
      requires AtHead(spec, attentionMap, prefix, heads, maxTokens, start, Head(output, draft, fed), step)
      requires step < maxTokens
      requires forecast == ForecastTokens(spec.vocab, |spec.branches|, numDraftNodes)
      requires listener != null ==> listener.Told(told, output[1..], false)
      modifies this`outs, this`logits, this`nPast, bufs, listener
      ensures Ready() && Holds(spec.DecodeKv(), fed') && output' != [] && |draft'| == numDraftNodes
      ensures if ending == GoOn then
                AtHead(spec, attentionMap, prefix, heads + [Head(output', draft', fed')], maxTokens, start,
                       Head(output', draft', fed'), step + 1)
              else
                RanFrom(spec, attentionMap, prefix, Trace(heads, accepted, Head(output', draft', fed')), ending,
                        maxTokens,
                        start)
      ensures ending == Refused ==> listener != null
      ensures listener != null ==> listener.Told(told, output'[1..], ending == Refused)
    {
      output', draft', ending, fed', accepted := Iterate(output, draft, forecast, maxTokens, listener, told, fed);
      RunGoesOn(spec, attentionMap, prefix, heads, maxTokens, start, Head(output, draft, fed), step, accepted,
                Head(output', draft', fed'), ending);
    }

    /** The decode loop: at most `maxTokens` iterations, guarded by the context limit. */
    method DecodeLoop(root: seq<Token>, forecast: seq<Token>, maxTokens: int, listener: Listener?,
                      ghost told: seq<Token>, ghost start: Head)
        returns (output: seq<Token>, ending: Ending, ghost trace: Trace)
      requires Ready() && Holds(spec.DecodeKv(), start.fed) && root == start.draft && |root| == numDraftNodes > 0
      requires start.output == [root[0]]
      requires forecast == ForecastTokens(spec.vocab, |spec.branches|, numDraftNodes)
      requires listener != null ==> listener.Told(told, [], false)
      modifies this`outs, this`logits, this`nPast, bufs, listener
      ensures Ready() && Holds(spec.DecodeKv(), trace.final.fed) && output == trace.final.output && output != []
      ensures RanFrom(spec, attentionMap, prefix, trace, ending, maxTokens, start)
      ensures ending == Refused ==> listener != null
      ensures listener != null ==> listener.Told(told, output[1..], ending == Refused)
    {
      var draft, total := root, numDraftNodes + |forecast|;
      output := [root[0]];
      ghost var fed, heads, accepted := start.fed, [start], [];
      RunBegins(spec, attentionMap, prefix, start, maxTokens);
      var step := 0;
      while step < maxTokens
        invariant Ready() && Holds(spec.DecodeKv(), fed) && output != [] && |draft| == numDraftNodes
        invariant AtHead(spec, attentionMap, prefix, heads, maxTokens, start, Head(output, draft, fed), step)
        invariant step <= PassLimitOf(maxTokens)
        invariant listener != null ==> listener.Told(told, output[1..], false)
      {
        if nPast + total > spec.contextLength {
          ending, trace := ContextLimit, Trace(heads, [], Head(output, draft, fed));
          return;
        }
        output, draft, ending, fed, accepted :=
          Advance(output, draft, forecast, maxTokens, listener, told, fed, heads, start, step);
        if ending != GoOn {
          trace := Trace(heads, accepted, Head(output, draft, fed));
          return;
        }
        heads := heads + [Head(output, draft, fed)];
        step := step + 1;
      }
      RunOut(spec, attentionMap, prefix, heads, maxTokens, start, Head(output, draft, fed), step);
      ending, trace := PassLimit, Trace(heads, [], Head(output, draft, fed));
    }

    /** The first draft and the decode loop. */
    method Decode(first: Token, maxTokens: int, listener: Listener?, ghost start: seq<Token>, ghost ctx: seq<Token>,
                  ghost results: seq<Out<Entry>>)
        returns (output: seq<Token>, ending: Ending, ghost trace: Trace)
      requires Ready() && Holds(spec.DecodeKv(), ctx + [first])
      requires |spec.branches| < spec.seqLenDecode && Extent(spec.vocab, spec.seqLenDecode) <= |logits|
      requires FirstOuts(spec, attentionMap, prefix, ctx, first, results)
      requires ForecastRows(logits, spec.vocab, spec.seqLenDecode, 1, |spec.branches|)
            == FirstRows(|spec.branches|, results)
      requires listener != null ==> listener.Told(start, [], false)
      modifies this`outs, this`logits, this`nPast, bufs, listener
      ensures Ready() && Holds(spec.DecodeKv(), trace.final.fed) && output == trace.final.output && output != []
      ensures LoopRun(spec, attentionMap, prefix, trace, ending, maxTokens)
      ensures Starts(spec, attentionMap, prefix, ctx, first, trace.heads[0]) && [first] <= output
      ensures Narrow(spec.branches) ==> spec.DraftedOn(attentionMap, prefix, ctx + [first], trace.heads[0].draft)
      ensures ending == Refused ==> listener != null
      ensures listener != null ==> listener.Told(start, output[1..], ending == Refused)
    {
      ghost var tops;
      var draft;
      draft, tops := DraftFrom(first, 1);
      var forecast := ForecastTokens(spec.vocab, |spec.branches|, numDraftNodes);
      ghost var head := Head([first], draft, ctx + [first]);
      if Narrow(spec.branches) {
        FirstDraftOn(spec, attentionMap, prefix, ctx, first, head);
      }
      output, ending, trace := DecodeLoop(draft, forecast, maxTokens, listener, start, head);
    }

    /** The first token: the pick after the whole prompt, sampled from the last chunk's last row. */
    method SampleFirst(lastRow: nat, ghost ctx: seq<Token>) returns (first: Token)
      requires Ready() && spec.LogitsFollow(logits, spec.seqLenPrefill, lastRow, ctx)
      ensures first == NextToken(spec.forward, spec.vocab, ctx)
    {
      first := ArgmaxLogits(UnitAt(logits, spec.vocab, spec.seqLenPrefill, lastRow));
    }

    /** From the first token on: its delivery, the initial pass, and the decode loop, all at the
        decode stride. */
    method Continue(first: Token, maxTokens: int, listener: Listener?, ghost start: seq<Token>, ghost ctx: seq<Token>)
        returns (output: seq<Token>, ending: Ending, ghost trace: Trace)
      requires Ready() && nPast == spec.fp + |ctx| && (nPast <= spec.DecodeKv() ==> Holds(spec.DecodeKv(), ctx))
      requires listener != null ==> listener.heard == start
      modifies this`outs, this`logits, this`nPast, bufs, listener
      ensures Ready() && nPast == spec.fp + |trace.final.fed|
      ensures nPast <= spec.DecodeKv() ==> Holds(spec.DecodeKv(), trace.final.fed)
      ensures output == trace.final.output
      ensures Continues(spec, attentionMap, prefix, ctx, first, maxTokens, trace, ending)
      ensures ending == Refused ==> listener != null
      ensures listener != null ==> listener.Told(start, output, ending == Refused)
    {
      output, trace := [first], Trace([], [], Head([first], [], ctx));
      if listener != null {
        var go := listener.Call(first);
        AgreedSnoc(listener.keepsGoing, start, |start|, first);
        if !go {
          ending := Refused;
          return;
        }
      }
      if nPast + 1 > spec.DecodeKv() {
        ending := CacheFull;
        return;
      }
      ghost var results := InitialPass(first, ctx);
      output, ending, trace := Decode(first, maxTokens, listener, start + [first], ctx, results);
      if listener != null {
        ToldFirst(listener.keepsGoing, start, first, output, listener.heard, ending == Refused);
      }
    }

    /** Prefill, the switch to the decode stride, and the first token. */
    method Begin(prompt: seq<Token>, ghost history: seq<Token>) returns (fits: bool, first: Token)
      requires Ready() && Holds(spec.PrefillKv(), history) && prompt != []
      modifies this`outs, this`logits, this`nPast, bufs
      ensures Ready() && (fits <==> spec.fp + |history| + |prompt| + spec.seqLenPrefill <= spec.contextLength)
      ensures fits ==> nPast == spec.fp + |history + prompt|
      ensures fits ==> first == NextToken(spec.forward, spec.vocab, history + prompt)
      ensures fits && nPast <= spec.DecodeKv() ==> Holds(spec.DecodeKv(), history + prompt)
    {
      var lastChunkSize;
      fits, lastChunkSize := Prefill(prompt, history);
      if !fits {
        return false, 0;
      }
      SwitchStride(spec.PrefillKv(), spec.DecodeKv(), history + prompt);
      first := SampleFirst(lastChunkSize - 1, history + prompt);
    }

    /** Back to the prefill stride, for the next call. */
    method RestoreStride(ghost fed: seq<Token>)
      requires Ready() && (nPast <= spec.DecodeKv() ==> Holds(spec.DecodeKv(), fed))
      modifies bufs
      ensures Ready()
      ensures nPast <= spec.DecodeKv() && nPast <= spec.PrefillKv() ==> Holds(spec.PrefillKv(), fed)
    {
      if nPast <= spec.DecodeKv() {
        SwitchStride(spec.DecodeKv(), spec.PrefillKv(), fed);
      } else {
        ReshapeKV(spec.DecodeKv(), spec.PrefillKv(), nPast);
      }
    }

    /** Ends at once if the first token ends the sequence. */
    method FromFirst(first: Token, maxTokens: int, listener: Listener?, ghost start: seq<Token>, ghost ctx: seq<Token>)
        returns (output: seq<Token>, ending: Ending, ghost trace: Trace)
      requires Ready() && ctx != [] && nPast == spec.fp + |ctx| <= spec.PrefillKv()
      requires nPast <= spec.DecodeKv() ==> Holds(spec.DecodeKv(), ctx)
      requires first == NextToken(spec.forward, spec.vocab, ctx)
      requires listener != null ==> listener.heard == start
      modifies this`outs, this`logits, this`nPast, bufs, listener
      ensures Ready() && nPast == spec.fp + |trace.final.fed| && output == trace.final.output
      ensures nPast <= spec.DecodeKv() ==> Holds(spec.DecodeKv(), trace.final.fed)
      ensures Outcome(spec, attentionMap, prefix, ctx, maxTokens, trace, ending)
      ensures ending == Refused ==> listener != null
      ensures listener != null ==> listener.Told(start, output, ending == Refused)
    {
      if first in spec.eos {
        output, ending, trace := [], FirstIsEos, Trace([], [], Head([], [], ctx));
      } else {
        output, ending, trace := Continue(first, maxTokens, listener, start, ctx);
      }
    }

    /** From the first token on, and back to the prefill stride. */
    method FromFirstBack(first: Token, maxTokens: int, listener: Listener?, ghost start: seq<Token>,
                         ghost ctx: seq<Token>) returns (output: seq<Token>, ending: Ending, ghost trace: Trace)
      requires Ready() && ctx != [] && nPast == spec.fp + |ctx| <= spec.PrefillKv()
      requires nPast <= spec.DecodeKv() ==> Holds(spec.DecodeKv(), ctx)
      requires first == NextToken(spec.forward, spec.vocab, ctx)
      requires listener != null ==> listener.heard == start
      modifies this`outs, this`logits, this`nPast, bufs, listener
      ensures Ready() && nPast == spec.fp + |trace.final.fed| && output == trace.final.output
      ensures nPast <= spec.DecodeKv() && nPast <= spec.PrefillKv() ==> Holds(spec.PrefillKv(), trace.final.fed)
      ensures Outcome(spec, attentionMap, prefix, ctx, maxTokens, trace, ending)
      ensures ending == Refused ==> listener != null
      ensures listener != null ==> listener.Told(start, output, ending == Refused)
    {
      output, ending, trace := FromFirst(first, maxTokens, listener, start, ctx);
      RestoreStride(trace.final.fed);
    }

    /** The phases of generation: prefill and first token, decode loop, back to the prefill stride. */
    method Produce(prompt: seq<Token>, maxTokens: int, listener: Listener?, ghost history: seq<Token>,
                   ghost ctx: seq<Token>) returns (output: seq<Token>, ending: Ending, ghost trace: Trace)
      requires Ready() && Holds(spec.PrefillKv(), history) && prompt != [] && ctx == history + prompt
      modifies this`outs, this`logits, this`nPast, bufs, listener
      ensures Ready() && output == trace.final.output
      ensures Outcome(spec, attentionMap, prefix, ctx, maxTokens, trace, ending)
      ensures ending == Refused ==> listener != null
      ensures listener != null ==> listener.Told(old(listener.heard), output, ending == Refused)
      ensures spec.fp + |ctx| <= spec.PrefillKv() ==>
                && nPast == spec.fp + |trace.final.fed|
                && (nPast <= spec.DecodeKv() && nPast <= spec.PrefillKv() ==> Holds(spec.PrefillKv(), trace.final.fed))
    {
      ghost var start := if listener != null then listener.heard else [];
      var fits, first := Begin(prompt, history);
      if fits {
        output, ending, trace := FromFirstBack(first, maxTokens, listener, start, ctx);
      } else {
        output, ending, trace := [], CacheFull, Trace([], [], Head([], [], ctx));
        NotBegun(spec, attentionMap, prefix, ctx, maxTokens, trace);
      }
    }

    /** Generation.  The trace says how the loop went; `Delivered` what that means for the output and
        the cache; with room for the whole call the cache never fills up, and with room at both strides
        it is as good for the next call, whatever the model. */
    method Generate(prompt: seq<Token>, maxTokens: int, listener: Listener?, ghost history: seq<Token>)
        returns (output: seq<Token>, ending: Ending, ghost trace: Trace)
      requires Ready() && Holds(spec.PrefillKv(), history) && prompt != []
      modifies this`outs, this`logits, this`nPast, bufs, listener
      ensures Ready() && output == trace.final.output
      ensures Outcome(spec, attentionMap, prefix, history + prompt, maxTokens, trace, ending)
      ensures trace.heads != [] ==>
                var first := NextToken(spec.forward, spec.vocab, history + prompt);
                first !in spec.eos && Delivered(spec, history + prompt + [first], first, trace, ending, maxTokens)
      ensures Roomy(spec, |history + prompt|, maxTokens) ==> ending != CacheFull
      ensures ending == Refused ==> listener != null
      ensures listener != null ==> listener.Told(old(listener.heard), output, ending == Refused)
      ensures spec.fp + |history + prompt| <= spec.PrefillKv() ==>
                && nPast == spec.fp + |trace.final.fed|
                && (nPast <= spec.DecodeKv() && nPast <= spec.PrefillKv() ==> Holds(spec.PrefillKv(), trace.final.fed))
      ensures RoomyAfter(spec, |history + prompt|, maxTokens) ==> Holds(spec.PrefillKv(), trace.final.fed)
    {
      output, ending, trace := Produce(prompt, maxTokens, listener, history, history + prompt);
      CallFacts(spec, attentionMap, prefix, history + prompt, maxTokens, trace, ending);
    }
  }
}
