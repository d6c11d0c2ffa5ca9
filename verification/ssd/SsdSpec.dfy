/** The static description of a self-speculative model, and what its buffers mean. */
module SsdSpec {
  import opened Acceptance
  import opened Decoding
  import opened DraftTree
  import opened Extents
  import opened ForwardPass
  import opened KvCache
  import opened KvCopy
  import opened Bytes
  import opened KvLayout
  import opened KvReshape
  import opened Sampling

  ghost predicate WellShaped(f: Forward<Entry>, shapes: seq<Shape>)
  {
    forall seen: seq<Entry>, t: Token, p: int :: EntryFits(shapes, f(seen, t, p).kv)
  }

  lemma {:induction false} EntryWellShaped(f: Forward<Entry>, shapes: seq<Shape>, seen: seq<Entry>, t: Token, p: int)
    requires WellShaped(f, shapes)
    ensures EntryFits(shapes, f(seen, t, p).kv)
  {
  }

  /** The outputs of any pass have the shapes of the model. */
  lemma {:induction false} RunWellShaped(f: Forward<Entry>, vocab: nat, shapes: seq<Shape>, p: Pass<Entry>, n: nat)
    requires WellShaped(f, shapes) && HasVocab(f, vocab) && p.Shaped() && n <= |p.tokens|
    ensures forall i :: 0 <= i < n ==> EntryFits(shapes, Run(f, p, n)[i].kv) && |Run(f, p, n)[i].logits| == vocab
  {
    forall i | 0 <= i < n
      ensures EntryFits(shapes, Run(f, p, n)[i].kv) && |Run(f, p, n)[i].logits| == vocab
    {
      RunAt(f, p, i, n);
      var before, c := Run(f, p, i), |p.cols|;
      var seen := Pick(p.Row(i, 0, c), p.cols) + Pick(p.Row(i, c, c + i), Kvs(before));
      EntryWellShaped(f, shapes, seen, p.tokens[i], p.pos[i]);
      RowHasVocab(f, vocab, seen, p.tokens[i], p.pos[i]);
    }
  }

  /** The static description of the model and of its device buffers. */
  datatype Spec = Spec(branches: seq<nat>, fp: nat, vocab: nat, eos: set<Token>, contextLength: nat,
                       seqLenPrefill: nat, seqLenDecode: nat, shapes: seq<Shape>, forward: Forward<Entry>)
  {
    /** Everything fed to the cache after `base` is greedy decoding from `base` and the first token. */
    ghost predicate FedGreedily(base: seq<Token>, first: Token, fed: seq<Token>)
      requires Valid()
    {
      |base| <= |fed| && fed == Greedy(forward, vocab, base + [first], |fed| - |base|)[..|fed|]
    }

    /** The output starts with `first`, continues by greedy decoding from `base` and `first`, and
        has no end-of-sequence token. */
    ghost predicate Decoded(base: seq<Token>, first: Token, output: seq<Token>)
      requires Valid()
    {
      && output != [] && output[0] == first
      && base + output == Greedy(forward, vocab, base + [first], |output| - 1)
      && forall k :: 0 <= k < |output| ==> output[k] !in eos
    }

    /** The strides of the cache: with the block of a pass they fill the context length. */
    function PrefillKv(): (n: nat)
      requires seqLenPrefill <= contextLength
      ensures n + seqLenPrefill == contextLength
    {
      contextLength - seqLenPrefill
    }

    function DecodeKv(): (n: nat)
      requires seqLenDecode <= contextLength
      ensures n + seqLenDecode == contextLength
    {
      contextLength - seqLenDecode
    }

    /** The input buffers are long enough for both strides. */
    ghost predicate BuffersFit(bufs: seq<seq<byte>>)
    {
      Valid() && Rooms(shapes, bufs, PrefillKv()) && Rooms(shapes, bufs, DecodeKv())
    }

    /** The draft tree is the one the branching factors describe. */
    ghost predicate TreeReady(numDraftNodes: nat, attentionMap: seq<int>, samplesPerLevel: seq<nat>,
                              nodesPerLevel: seq<nat>)
    {
      && IsLayout(branches, attentionMap) && numDraftNodes == NodeCount(branches)
      && |samplesPerLevel| == |nodesPerLevel| == |branches|
      && (forall d :: 0 <= d < |branches| ==> samplesPerLevel[d] == branches[d] + 1)
      && (forall d :: 0 <= d < |branches| ==> nodesPerLevel[d] == LevelSize(branches, d + 1))
    }

    /** At the given stride, the cache holds the forecast prefix and then the entries of `ctx`. */
    ghost predicate CacheHolds(bufs: seq<seq<byte>>, nPast: nat, stride: nat, prefix: seq<Entry>, ctx: seq<Token>)
    {
      && nPast == fp + |ctx| <= stride && |prefix| == fp && Rooms(shapes, bufs, stride)
      && Columns(shapes, bufs, stride)[..nPast] == prefix + Entries(forward, ctx)
    }

    /** The output buffers of a graph with `seqLen` slots hold the given results. */
    ghost predicate OutputsHold(outs: seq<seq<byte>>, logits: seq<real>, seqLen: nat, results: seq<Out<Entry>>)
    {
      && |results| <= seqLen
      && Rooms(shapes, outs, seqLen) && Extent(vocab, seqLen) <= |logits|
      && forall i :: 0 <= i < |results| ==>
           && EntryAt(shapes, outs, seqLen, i) == results[i].kv
           && UnitAt(logits, vocab, seqLen, i) == results[i].logits
    }

    /** The accepted tokens continue greedy decoding, and the accepted columns hold their entries. */
    ghost predicate Accepted(outs: seq<seq<byte>>, root: Token, ctx: seq<Token>, tokens: seq<Token>, ids: seq<nat>,
                             added: seq<Entry>)
      requires Valid()
    {
      && |tokens| == |ids| == |added| && 1 <= |ids| <= |branches| + 1
      && Ascending(ids) && (forall k :: 0 <= k < |ids| ==> ids[k] < NodeCount(branches))
      && (forall k :: 0 <= k < |tokens| - 1 ==> tokens[k] !in eos)
      && ctx + [root] + tokens == Greedy(forward, vocab, ctx + [root], |tokens|)
      && Entries(forward, ctx + ([root] + tokens[..|tokens| - 1])) == Entries(forward, ctx) + added
      && Rooms(shapes, outs, seqLenDecode)
      && forall k :: 0 <= k < |ids| ==> EntryAt(shapes, outs, seqLenDecode, ids[k]) == added[k]
    }

    /** The logits rows of the forecast on top of a context. */
    function RowsForetold(prefix: seq<Entry>, ctx: seq<Token>): (rows: seq<seq<real>>)
      ensures |rows| == |branches|
    {
      var foretold := Foretold(forward, prefix, ctx, vocab, |branches|);
      seq(|branches|, d requires 0 <= d < |branches| => foretold[d].logits)
    }

    /** The logits rows from `start` on are the forecast on top of `ctx`. */
    ghost predicate ForecastHeld(logits: seq<real>, start: nat, prefix: seq<Entry>, ctx: seq<Token>)
    {
      && start + |branches| <= seqLenDecode && Extent(vocab, seqLenDecode) <= |logits|
      && ForecastRows(logits, vocab, seqLenDecode, start, |branches|) == RowsForetold(prefix, ctx)
    }

    /** The draft was filled from the forecast on top of `ctx`. */
    ghost predicate DraftedOn(attentionMap: seq<int>, prefix: seq<Entry>, ctx: seq<Token>, draft: seq<Token>)
    {
      exists tops: seq<seq<Token>> ::
        draft != [] && IsDraft(branches, attentionMap, RowsForetold(prefix, ctx), tops, draft[0], draft)
    }

    /** Row `row` of the logits of a graph with `seqLen` slots is what follows `ctx`. */
    ghost predicate LogitsFollow(logits: seq<real>, seqLen: nat, row: nat, ctx: seq<Token>)
    {
      && ctx != [] && row < seqLen && Extent(vocab, seqLen) <= |logits|
      && UnitAt(logits, vocab, seqLen, row) == Feed(forward, ctx).logits
    }

    ghost predicate Valid()
    {
      && GoodBranches(branches) && 0 < vocab
      && (forall d :: 0 <= d < |branches| ==> branches[d] + 1 <= vocab)
      && HasVocab(forward, vocab) && WellShaped(forward, shapes)
      && 0 < seqLenPrefill <= contextLength
      && SlotCount(branches) <= seqLenDecode <= contextLength
    }
  }

  /** Writing into buffers of unchanged length keeps their room. */
  lemma {:induction false} RoomsKept(spec: Spec, before: seq<seq<byte>>, after: seq<seq<byte>>)
    requires spec.Valid() && |before| == |after| && forall t :: 0 <= t < |before| ==> |before[t]| == |after[t]|
    ensures spec.BuffersFit(before) ==> spec.BuffersFit(after)
    ensures forall stride :: Rooms(spec.shapes, before, stride) ==> Rooms(spec.shapes, after, stride)
  {
  }

  /** A node's whole forecast chain lies in the block. */
  lemma {:induction false} ChainInBlock(branches: seq<nat>, i: nat)
    requires i < NodeCount(branches)
    ensures ForecastSlot(branches, i, 0) + |branches| <= SlotCount(branches)
  {
    ExtentApart(|branches|, i, NodeCount(branches));
  }

  /** The delivered tokens extend the greedy output. */
  lemma {:induction false} DeliveredGreedily(f: Forward<Entry>, vocab: nat, base: seq<Token>, first: Token,
                                             output: seq<Token>, tokens: seq<Token>, n: nat)
    requires 0 < vocab && HasVocab(f, vocab) && output != [] && n <= |tokens|
    requires base + output == Greedy(f, vocab, base + [first], |output| - 1)
    requires base + output + tokens == Greedy(f, vocab, base + output, |tokens|)
    ensures base + (output + tokens[..n]) == Greedy(f, vocab, base + [first], |output| + n - 1)
    ensures n < |tokens| ==> tokens[n] == NextToken(f, vocab, base + (output + tokens[..n]))
  {
    GreedyExtends(f, vocab, base + [first], |output| - 1, tokens, n);
    assert base + output + tokens[..n] == base + (output + tokens[..n]);
  }

  /** What the cache has been fed stays one token behind the greedy run. */
  lemma {:induction false} FedFurther(f: Forward<Entry>, vocab: nat, base: seq<Token>, first: Token, output: seq<Token>,
                                      root: Token, ctx: seq<Token>, tokens: seq<Token>)
    requires 0 < vocab && HasVocab(f, vocab) && output != [] && tokens != []
    requires base + output == ctx + [root]
    requires base + output == Greedy(f, vocab, base + [first], |output| - 1)
    requires ctx + [root] + tokens == Greedy(f, vocab, ctx + [root], |tokens|)
    ensures var fed := ctx + ([root] + tokens[..|tokens| - 1]);
              && |base| <= |fed| && fed == Greedy(f, vocab, base + [first], |fed| - |base|)[..|fed|]
              && base + (output + tokens) == fed + [tokens[|tokens| - 1]]
  {
    DeliveredGreedily(f, vocab, base, first, output, tokens, |tokens|);
    assert tokens[..|tokens|] == tokens;
    var fed, last := ctx + ([root] + tokens[..|tokens| - 1]), tokens[|tokens| - 1];
    assert fed + [last] == base + (output + tokens) by {
      assert tokens == tokens[..|tokens| - 1] + [last];
      assert fed + [last] == ctx + [root] + tokens;
    }
    assert (fed + [last])[..|fed|] == fed;
  }

  /** The state of the output before the first iteration. */
  lemma {:induction false} StartDecoded(spec: Spec, base: seq<Token>, first: Token)
    requires spec.Valid() && first !in spec.eos
    ensures spec.Decoded(base, first, [first]) && spec.FedGreedily(base, first, base)
  {
    assert (base + [first])[..|base|] == base;
  }

  /** The two parts of a cache. */
  lemma {:induction false} HeldParts(cols: seq<Entry>, prefix: seq<Entry>, held: seq<Entry>, fp: nat, nPast: nat)
    requires fp == |prefix| <= nPast <= |cols| && cols[..nPast] == prefix + held
    ensures cols[..fp] == prefix && cols[fp..nPast] == held
  {
    assert cols[..fp] == cols[..nPast][..fp];
    assert cols[fp..nPast] == cols[..nPast][fp..];
  }

  /** Gathering the entries of what was fed brings the cache up to date. */
  lemma {:induction false} Appended(spec: Spec, after: seq<seq<byte>>, before: seq<seq<byte>>, outs: seq<seq<byte>>,
                                    stride: nat, seqLen: nat, nPast: nat, prefix: seq<Entry>, ctx: seq<Token>,
                                    ctx': seq<Token>, picks: seq<nat>, added: seq<Entry>)
    requires spec.CacheHolds(before, nPast, stride, prefix, ctx) && nPast + |picks| <= stride && |added| == |picks|
    requires AllGathered(spec.shapes, after, before, outs, stride, seqLen, nPast, picks)
    requires Rooms(spec.shapes, after, stride) && Rooms(spec.shapes, outs, seqLen)
    requires forall k :: 0 <= k < |picks| ==>
               picks[k] < seqLen && EntryAt(spec.shapes, outs, seqLen, picks[k]) == added[k]
    requires Entries(spec.forward, ctx') == Entries(spec.forward, ctx) + added
    ensures spec.CacheHolds(after, nPast + |picks|, stride, prefix, ctx')
  {
    GatheredAppends(spec.shapes, after, before, outs, stride, seqLen, 0, nPast, picks, added);
    var now, was := Columns(spec.shapes, after, stride), Columns(spec.shapes, before, stride);
    assert now[..nPast + |picks|] == now[0..nPast + |picks|] && was[..nPast] == was[0..nPast];
    assert |Entries(spec.forward, ctx')| == |ctx'|;
  }

  /** What delivering the first `n` accepted tokens establishes. */
  lemma {:induction false} DeliveryFacts(spec: Spec, base: seq<Token>, first: Token, output: seq<Token>,
                                         root: Token, ctx: seq<Token>, tokens: seq<Token>, n: nat)
    requires spec.Valid() && spec.Decoded(base, first, output) && tokens != [] && n <= |tokens|
    requires base + output == ctx + [root]
    requires ctx + [root] + tokens == Greedy(spec.forward, spec.vocab, ctx + [root], |tokens|)
    requires forall k :: 0 <= k < n ==> tokens[k] !in spec.eos
    ensures spec.Decoded(base, first, output + tokens[..n])
    ensures spec.FedGreedily(base, first, ctx + ([root] + tokens[..|tokens| - 1]))
    ensures n < |tokens| ==> tokens[n] == NextToken(spec.forward, spec.vocab, base + (output + tokens[..n]))
    ensures n == |tokens| ==>
              base + (output + tokens[..n]) == ctx + ([root] + tokens[..|tokens| - 1]) + [tokens[|tokens| - 1]]
  {
    DeliveredGreedily(spec.forward, spec.vocab, base, first, output, tokens, n);
    FedFurther(spec.forward, spec.vocab, base, first, output, root, ctx, tokens);
    if n == |tokens| {
      assert tokens[..n] == tokens;
    }
  }

  /** The size of the last of the chunks of at most `chunk` tokens that make up `total` tokens. */
  function LastChunk(total: nat, chunk: nat): (n: nat)
    requires 0 < total && 0 < chunk
    ensures 0 < n <= chunk
  {
    if total <= chunk then total else LastChunk(total - chunk, chunk)
  }

  /** The row sampled after prefill: the last row of the last chunk. */
  lemma {:induction false} LastChunkIsRemainder(total: nat, chunk: nat)
    requires 0 < total && 0 < chunk
    ensures LastChunk(total, chunk) - 1 == (total - 1) % chunk
  {
    if total > chunk {
      LastChunkIsRemainder(total - chunk, chunk);
      BlockShift(total - 1, chunk);
    }
  }

  lemma {:induction false} BlockShift(x: nat, b: nat)
    requires 0 < b <= x
    ensures (x - b) % b == x % b
  {
    var k, c := (x - b) / b, (x - b) % b;
    ExtentIsProduct(b, k);
    QuotientOf(k + 1, b, c);
  }

  lemma {:induction false} LastChunkAfter(chunk: nat, before: nat, last: nat)
    requires 0 < last <= chunk
    ensures LastChunk(Extent(chunk, before) + last, chunk) == last
  {
    if before > 0 {
      LastChunkAfter(chunk, before - 1, last);
    }
  }

  /** The next chunk of the prompt: whatever remains, at most `size` tokens. */
  method NextChunk(prompt: seq<Token>, processed: nat, size: nat, ghost before: nat, ghost fed: seq<Token>,
                   ghost all: seq<Token>) returns (chunk: seq<Token>)
    requires processed < |prompt| && 0 < size && processed == Extent(size, before)
    requires fed + prompt[processed..] == all
    ensures 0 < |chunk| <= size && processed + |chunk| <= |prompt|
    ensures fed + chunk + prompt[processed + |chunk|..] == all
    ensures processed + |chunk| < |prompt| ==> processed + |chunk| == Extent(size, before + 1)
    ensures processed + |chunk| == |prompt| ==> |chunk| == LastChunk(|prompt|, size)
  {
    var remaining := |prompt| - processed;
    var chunkSize := if remaining < size then remaining else size;
    chunk := prompt[processed..processed + chunkSize];
    LastChunkAfter(size, before, chunkSize);
    assert chunk + prompt[processed + chunkSize..] == prompt[processed..];
  }

  /** `repeat` copies of the forecast token ids, which start at the vocabulary size. */
  function ForecastTokens(vocab: nat, levels: nat, repeat: nat): (ts: seq<Token>)
    ensures |ts| == Extent(levels, repeat)
    ensures forall i :: 0 <= i < |ts| ==> ts[i] >= vocab
  {
    if repeat == 0 then [] else
      ForecastTokens(vocab, levels, repeat - 1) + seq(levels, d requires 0 <= d => vocab + d)
  }

  /** The root and one forecast slot per level fit into a block. */
  lemma {:induction false} BlockFits(branches: seq<nat>)
    requires GoodBranches(branches)
    ensures 1 <= NodeCount(branches) && |branches| + 1 <= SlotCount(branches)
    ensures Extent(|branches|, 1) == |branches|
  {
    LevelStartMonotone(branches, 1, |branches| + 1);
    ExtentOrdered(|branches|, 1, NodeCount(branches));
  }

  /** After a tree pass over a cache that holds `ctx`, the verifier's trial sees sequential decoding. */
  lemma {:induction false} PassIsTrial(f: Forward<Entry>, vocab: nat, w: Trial, p: Pass<Entry>, fp: nat, nPast: nat,
                                       ctx: seq<Token>)
    requires w.Valid() && 0 < vocab && HasVocab(f, vocab)
    requires TreePass(p, w.parents, fp, nPast, w.nodes) && p.tokens == w.block
    requires p.cols[fp..nPast] == Entries(f, ctx)
    requires forall i :: 0 <= i < w.nodes ==>
               |Run(f, p, |w.block|)[i].logits| == vocab && w.picks[i] == Argmax(Run(f, p, |w.block|)[i].logits)
    ensures AllFed(f, w, ctx, Run(f, p, |w.block|)) && PicksOf(w, Run(f, p, |w.block|), vocab)
  {
    forall i | 0 <= i < w.nodes ensures Fed(f, w.parents, w.block, ctx, Run(f, p, |w.block|), i) {
      TreePassIsSequential(f, p, w.parents, fp, nPast, w.nodes, ctx, i);
    }
  }

  /** Everything the decode loop relies on about one verified pass. */
  lemma {:induction false} AcceptedResults(f: Forward<Entry>, vocab: nat, branches: seq<nat>, w: Trial, p: Pass<Entry>,
                                           fp: nat, nPast: nat, ctx: seq<Token>, tokens: seq<Token>, ids: seq<nat>)
      returns (added: seq<Entry>)
    requires w.Valid() && 0 < vocab && HasVocab(f, vocab)
    requires GoodBranches(branches) && IsLayout(branches, w.parents) && w.nodes == NodeCount(branches)
    requires TreePass(p, w.parents, fp, nPast, w.nodes) && p.tokens == w.block
    requires p.cols[fp..nPast] == Entries(f, ctx)
    requires forall i :: 0 <= i < w.nodes ==>
               |Run(f, p, |w.block|)[i].logits| == vocab && w.picks[i] == Argmax(Run(f, p, |w.block|)[i].logits)
    requires w.IsAcceptance(tokens, ids)
    ensures |added| == |ids| == |tokens| && 1 <= |ids| <= |branches| + 1
    ensures Ascending(ids) && forall k :: 0 <= k < |ids| ==> ids[k] < w.nodes
    ensures forall k :: 0 <= k < |tokens| - 1 ==> tokens[k] !in w.eos
    ensures ctx + [w.block[0]] + tokens == Greedy(f, vocab, ctx + [w.block[0]], |tokens|)
    ensures Entries(f, ctx + ([w.block[0]] + tokens[..|tokens| - 1])) == Entries(f, ctx) + added
    ensures forall k :: 0 <= k < |ids| ==> added[k] == Run(f, p, |w.block|)[ids[k]].kv
    ensures PathTokens(w.parents, w.block, ids[|ids| - 1]) == [w.block[0]] + tokens[..|tokens| - 1]
  {
    var results := Run(f, p, |w.block|);
    PassIsTrial(f, vocab, w, p, fp, nPast, ctx);
    StepIsLossless(f, vocab, w, ctx, results, tokens, ids);
    AcceptedEntries(f, w, ctx, results, tokens, ids);
    AcceptedLength(branches, w, tokens, ids);
    AcceptedFacts(w, tokens, ids);
    AcceptedPathTokens(w, tokens, ids, |ids| - 1);
    added := Along(Kvs(results), ids);
  }

  /** What the generation loop relies on about accepted lists. */
  lemma {:induction false} AcceptedFacts(w: Trial, tokens: seq<Token>, ids: seq<nat>)
    requires w.Valid() && w.IsAcceptedPath(tokens, ids)
    ensures Ascending(ids) && forall k :: 0 <= k < |ids| ==> ids[k] < w.nodes
    ensures forall k :: 0 <= k < |tokens| - 1 ==> tokens[k] !in w.eos
  {
    forall j, k | 0 <= j < k < |ids| ensures ids[j] < ids[k] {
      AcceptedAscend(w, tokens, ids, j, k);
    }
    forall k | 0 <= k < |ids| ensures ids[k] < w.nodes {
      assert w.Verified(tokens, ids, k);
    }
    forall k | 0 <= k < |tokens| - 1 ensures tokens[k] !in w.eos {
      assert w.Linked(tokens, ids, k + 1);
    }
  }

  /** The selection vector of the accepted slots; read in order, it gives the slots back. */
  method Select(n: nat, ids: seq<nat>) returns (selected: seq<bool>)
    requires Ascending(ids) && forall k :: 0 <= k < |ids| ==> ids[k] < n
    ensures |selected| == n && Positions(selected) == ids
  {
    selected := seq(n, _ => false);
    for k := 0 to |ids|
      invariant |selected| == n
      invariant forall p :: 0 <= p < n ==> (selected[p] <==> p in ids[..k])
    {
      assert ids[..k + 1] == ids[..k] + [ids[k]];
      selected := selected[ids[k] := true];
    }
    assert ids[..|ids|] == ids;
    PositionsAreSelected(selected, n);
    AscendingUnique(Positions(selected), ids);
  }

  /** One tensor keeps its first `keep` columns across a stride change. */
  ghost predicate ColumnsKept(shape: Shape, after: seq<byte>, before: seq<byte>, oldStride: nat, newStride: nat,
                              keep: nat)
  {
    && |after| == |before| && keep <= oldStride && keep <= newStride
    && Room(shape, after, newStride) && Room(shape, before, oldStride)
    && forall c :: 0 <= c < keep ==> ColumnAt(shape, after, newStride, c) == ColumnAt(shape, before, oldStride, c)
  }

  lemma {:induction false} ReshapedColumns(shape: Shape, after: seq<byte>, before: seq<byte>, w: Restride)
    requires w.Valid() && w.rows == shape.rows
    requires Extent(shape.unit, w.Total()) <= |after| == |before|
    requires Room(shape, after, w.newStride) && Room(shape, before, w.oldStride)
    requires RowsMoved(w, Units(after, shape.unit, w.Total()), Units(before, shape.unit, w.Total()), 0, w.rows)
    ensures ColumnsKept(shape, after, before, w.oldStride, w.newStride, w.keep)
  {
    forall c | 0 <= c < w.keep ensures ColumnAt(shape, after, w.newStride, c) == ColumnAt(shape, before, w.oldStride,
                                                                                          c) {
      ReshapedColumn(shape, after, before, w, c);
    }
  }

  lemma {:induction false} KeptEntries(shapes: seq<Shape>, after: seq<seq<byte>>, before: seq<seq<byte>>,
                                       oldStride: nat, newStride: nat, keep: nat)
    requires |shapes| == |after| == |before| && keep <= oldStride && keep <= newStride
    requires forall t :: 0 <= t < |shapes| ==>
               ColumnsKept(shapes[t], after[t], before[t], oldStride, newStride, keep)
    ensures Rooms(shapes, after, newStride) && Rooms(shapes, before, oldStride)
    ensures forall c :: 0 <= c < keep ==>
              EntryAt(shapes, after, newStride, c) == EntryAt(shapes, before, oldStride, c)
  {
    forall t | 0 <= t < |shapes| ensures Room(shapes[t], after[t], newStride) && Room(shapes[t], before[t], oldStride) {
      assert ColumnsKept(shapes[t], after[t], before[t], oldStride, newStride, keep);
    }
    forall c | 0 <= c < keep
      ensures EntryAt(shapes, after, newStride, c) == EntryAt(shapes, before, oldStride, c)
    {
      forall t | 0 <= t < |shapes|
        ensures ColumnAt(shapes[t], after[t], newStride, c) == ColumnAt(shapes[t], before[t], oldStride, c)
      {
        assert ColumnsKept(shapes[t], after[t], before[t], oldStride, newStride, keep);
      }
    }
  }
}
