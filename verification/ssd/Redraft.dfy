/** A decode pass leaves, in the forecast rows of every draft node, the forecast on top of the
    context extended by that node's root path. */
module Redraft {
  import opened Acceptance
  import opened Bytes
  import opened Decoding
  import opened DraftTree
  import opened Extents
  import opened Forecast
  import opened ForwardPass
  import opened KvCache
  import opened KvCopy
  import opened KvLayout
  import opened Sampling
  import opened SsdRun
  import opened SsdSpec
  import opened TreeMask

  /** The root's column extends the context by the root. */
  lemma {:induction false} RootEntry(f: Forward<Entry>, p: Pass<Entry>, parents: seq<int>, fp: nat, nPast: nat,
                                     ctx: seq<Token>) returns (added: seq<Entry>)
    requires TreePass(p, parents, fp, nPast, 1) && p.tokens != []
    requires p.cols[fp..nPast] == Entries(f, ctx)
    ensures added == [Run(f, p, |p.tokens|)[0].kv]
    ensures Entries(f, ctx + [p.tokens[0]]) == Entries(f, ctx) + added
  {
    var results := Run(f, p, |p.tokens|);
    TreePassIsSequential(f, p, parents, fp, nPast, 1, ctx, 0);
    EntriesAlongPath(f, parents, p.tokens, ctx, results, 0);
    AlongStep(parents, p.tokens, 0);
    AlongStep(parents, Kvs(results), 0);
    added := [results[0].kv];
  }

  lemma {:induction false} ForecastTokenAt(vocab: nat, levels: nat, repeat: nat, i: nat, d: nat)
    requires i < repeat && d < levels
    ensures Extent(levels, i) + d < Extent(levels, repeat)
    ensures ForecastTokens(vocab, levels, repeat)[Extent(levels, i) + d] == vocab + d
  {
    ExtentApart(levels, i, repeat);
    if i < repeat - 1 {
      ForecastTokenAt(vocab, levels, repeat - 1, i, d);
    }
  }

  lemma {:induction false} BlockCarriesForecast(branches: seq<nat>, draft: seq<Token>, vocab: nat)
    requires |draft| == NodeCount(branches)
    ensures CarriesForecast(branches, draft + ForecastTokens(vocab, |branches|, NodeCount(branches)), vocab)
  {
    var forecast := ForecastTokens(vocab, |branches|, NodeCount(branches));
    forall i, d {:trigger ForecastSlot(branches, i, d)} | 0 <= i < NodeCount(branches) && 0 <= d < |branches|
      ensures ForecastSlot(branches, i, d) < |draft + forecast|
      ensures (draft + forecast)[ForecastSlot(branches, i, d)] == vocab + d
    {
      ForecastTokenAt(vocab, |branches|, NodeCount(branches), i, d);
    }
  }

  /** The forecast rows of node `i`, in the logits of a pass. */
  lemma {:induction false} PassForetells(spec: Spec, p: Pass<Entry>, parents: seq<int>, nPast: nat, ctx: seq<Token>,
                                         outs: seq<seq<byte>>, logits: seq<real>, i: nat)
    requires spec.Valid() && IsLayout(spec.branches, parents) && |p.tokens| == |parents|
    requires TreePass(p, parents, spec.fp, nPast, NodeCount(spec.branches))
    requires p.cols[spec.fp..nPast] == Entries(spec.forward, ctx)
    requires CarriesForecast(spec.branches, p.tokens, spec.vocab) && i < NodeCount(spec.branches)
    requires spec.OutputsHold(outs, logits, spec.seqLenDecode, Run(spec.forward, p, |p.tokens|))
    ensures i < |p.tokens|
    ensures spec.ForecastHeld(logits, ForecastSlot(spec.branches, i, 0), p.cols[..spec.fp],
                              ctx + PathTokens(parents, p.tokens, i))
  {
    var b, n := spec.branches, |spec.branches|;
    var results := Run(spec.forward, p, |p.tokens|);
    ChainIsForetold(spec.forward, p, b, parents, spec.fp, nPast, ctx, spec.vocab, i, n);
    var extended := ctx + PathTokens(parents, p.tokens, i);
    ChainParent(b, parents, i, n - 1);
    HeldRows(spec, results, p.cols[..spec.fp], extended, outs, logits, i);
  }

  lemma {:induction false} HeldRows(spec: Spec, results: seq<Out<Entry>>, prefix: seq<Entry>, ctx: seq<Token>,
                                    outs: seq<seq<byte>>, logits: seq<real>, i: nat)
    requires spec.OutputsHold(outs, logits, spec.seqLenDecode, results) && 0 < |spec.branches|
    requires ForecastSlot(spec.branches, i, |spec.branches| - 1) < |results|
    requires forall k :: 0 <= k < |spec.branches| ==> Chain(spec.branches, i, |spec.branches|)[k] < |results|
    requires AreForetold(spec.forward, prefix, ctx, spec.vocab,
                         Along(results, Chain(spec.branches, i, |spec.branches|)))
    ensures spec.ForecastHeld(logits, ForecastSlot(spec.branches, i, 0), prefix, ctx)
  {
    var n, start := |spec.branches|, ForecastSlot(spec.branches, i, 0);
    var chain := Chain(spec.branches, i, n);
    var rows := ForecastRows(logits, spec.vocab, spec.seqLenDecode, start, n);
    forall d | 0 <= d < n ensures rows[d] == spec.RowsForetold(prefix, ctx)[d] {
      assert chain[d] == start + d;
      assert Along(results, chain)[d] == results[start + d];
    }
  }

  /** The initial pass leaves the rows the first draft is filled from. */
  lemma {:induction false} FirstRowsHeld(spec: Spec, p: Pass<Entry>, parents: seq<int>, nPast: nat, prefix: seq<Entry>,
                                         ctx: seq<Token>, first: Token, outs: seq<seq<byte>>, logits: seq<real>)
    requires spec.Valid() && IsLayout(spec.branches, parents) && |prefix| == spec.fp
    requires TreePass(p, parents, spec.fp, nPast, 1) && p.tokens == FirstBlock(spec, first)
    requires p.cols[..nPast] == prefix + Entries(spec.forward, ctx)
    requires spec.OutputsHold(outs, logits, spec.seqLenDecode, Run(spec.forward, p, |p.tokens|))
    ensures |spec.branches| < spec.seqLenDecode && Extent(spec.vocab, spec.seqLenDecode) <= |logits|
    ensures var results := Run(spec.forward, p, |p.tokens|);
            FirstOuts(spec, parents, prefix, ctx, first, results)
            && ForecastRows(logits, spec.vocab, spec.seqLenDecode, 1, |spec.branches|)
               == FirstRows(|spec.branches|, results)
  {
    var n := |spec.branches|;
    BlockFits(spec.branches);
    RunIsRooted(spec.forward, p, parents, spec.fp, nPast, prefix, ctx);
    var rows := ForecastRows(logits, spec.vocab, spec.seqLenDecode, 1, n);
    forall d | 0 <= d < n ensures rows[d] == FirstRows(n, Run(spec.forward, p, |p.tokens|))[d] {
      assert rows[d] == UnitAt(logits, spec.vocab, spec.seqLenDecode, 1 + d);
    }
  }

  /** One verified pass: what it accepts, and the entries of the accepted slots. */
  lemma {:induction false} VerifiedPass(spec: Spec, parents: seq<int>, draft: seq<Token>, block: seq<Token>,
                                        p: Pass<Entry>, nPast: nat, ctx: seq<Token>, picks: seq<Token>,
                                        tokens: seq<Token>, ids: seq<nat>) returns (added: seq<Entry>)
    requires spec.Valid() && IsLayout(spec.branches, parents) && |block| == |parents|
    requires |draft| == NodeCount(spec.branches) == |picks| && 0 < |draft| <= |block| && draft == block[..|draft|]
    requires TreePass(p, parents, spec.fp, nPast, |draft|) && p.tokens == block
    requires p.cols[spec.fp..nPast] == Entries(spec.forward, ctx)
    requires forall i :: 0 <= i < |draft| ==>
               && |Run(spec.forward, p, |block|)[i].logits| == spec.vocab
               && picks[i] == Argmax(Run(spec.forward, p, |block|)[i].logits)
    requires IsTree(parents) && Trial(parents, |draft|, draft, picks, spec.eos).IsAcceptance(tokens, ids)
    ensures Accepts(spec, parents, draft, ctx, tokens)
    ensures |added| == |ids| == |tokens| && 1 <= |ids| <= |spec.branches| + 1
    ensures Ascending(ids) && forall k :: 0 <= k < |ids| ==> ids[k] < |draft|
    ensures forall k :: 0 <= k < |tokens| - 1 ==> tokens[k] !in spec.eos
    ensures ctx + [draft[0]] + tokens == Greedy(spec.forward, spec.vocab, ctx + [draft[0]], |tokens|)
    ensures Entries(spec.forward, ctx + ([draft[0]] + tokens[..|tokens| - 1])) == Entries(spec.forward, ctx) + added
    ensures forall k :: 0 <= k < |ids| ==> added[k] == Run(spec.forward, p, |block|)[ids[k]].kv
    ensures PathTokens(parents, block, ids[|ids| - 1]) == [draft[0]] + tokens[..|tokens| - 1]
  {
    var w := Trial(parents, |draft|, block, picks, spec.eos);
    AcceptanceOfBlock(w.(block := draft), block, tokens, ids);
    PassIsTrial(spec.forward, spec.vocab, w, p, spec.fp, nPast, ctx);
    PassAccepts(spec, parents, draft, block, ctx, Run(spec.forward, p, |block|), picks, tokens, ids);
    added := AcceptedResults(spec.forward, spec.vocab, spec.branches, w, p, spec.fp, nPast, ctx, tokens, ids);
  }

  /** What a draft pass and its verification leave for the loop. */
  lemma {:induction false} DraftVerified(spec: Spec, parents: seq<int>, draft: seq<Token>, p: Pass<Entry>, nPast: nat,
                                         prefix: seq<Entry>, ctx: seq<Token>, outs: seq<seq<byte>>, logits: seq<real>,
                                         tokens: seq<Token>, ids: seq<nat>) returns (added: seq<Entry>)
    requires spec.Valid() && IsLayout(spec.branches, parents) && |draft| == NodeCount(spec.branches) > 0
    requires p.tokens == draft + ForecastTokens(spec.vocab, |spec.branches|, |draft|) && |p.tokens| == |parents|
    requires TreePass(p, parents, spec.fp, nPast, |draft|) && |prefix| == spec.fp
    requires p.cols[..nPast] == prefix + Entries(spec.forward, ctx)
    requires spec.OutputsHold(outs, logits, spec.seqLenDecode, Run(spec.forward, p, |p.tokens|))
    requires Trial(parents, |draft|, draft, Picks(logits, spec.vocab, spec.seqLenDecode, |draft|), spec.eos)
             .IsAcceptance(tokens, ids)
    ensures spec.Accepted(outs, draft[0], ctx, tokens, ids, added)
    ensures Accepts(spec, parents, draft, ctx, tokens)
    ensures spec.ForecastHeld(logits, ForecastSlot(spec.branches, ids[|ids| - 1], 0), prefix,
                              ctx + ([draft[0]] + tokens[..|tokens| - 1]))
  {
    HeldParts(p.cols, prefix, Entries(spec.forward, ctx), spec.fp, nPast);
    RunWellShaped(spec.forward, spec.vocab, spec.shapes, p, |p.tokens|);
    added := VerifiedPass(spec, parents, draft, p.tokens, p, nPast, ctx,
                          Picks(logits, spec.vocab, spec.seqLenDecode, |draft|), tokens, ids);
    BlockCarriesForecast(spec.branches, draft, spec.vocab);
    PassForetells(spec, p, parents, nPast, ctx, outs, logits, ids[|ids| - 1]);
  }

  /** What a prefill pass leaves: the entries of its chunk, and the row that follows it. */
  lemma {:induction false} ChunkFollows(spec: Spec, p: Pass<Entry>, nPast: nat, prefix: seq<Entry>, ctx: seq<Token>,
                                        outs: seq<seq<byte>>, logits: seq<real>)
    requires spec.Valid() && p.tokens != [] && |prefix| == spec.fp && |p.tokens| <= spec.seqLenPrefill
    requires TreePass(p, ChainMap(|p.tokens|), spec.fp, nPast, |p.tokens|)
    requires p.cols[..nPast] == prefix + Entries(spec.forward, ctx)
    requires spec.OutputsHold(outs, logits, spec.seqLenPrefill, Run(spec.forward, p, |p.tokens|))
    ensures spec.LogitsFollow(logits, spec.seqLenPrefill, |p.tokens| - 1, ctx + p.tokens)
    ensures Entries(spec.forward, ctx + p.tokens) == Entries(spec.forward, ctx) + Kvs(Run(spec.forward, p, |p.tokens|))
  {
    var n := |p.tokens|;
    HeldParts(p.cols, prefix, Entries(spec.forward, ctx), spec.fp, nPast);
    ChunkSlotIsSequential(spec.forward, p, spec.fp, nPast, ctx, n - 1);
    ChunkEntriesAreSequential(spec.forward, p, spec.fp, nPast, ctx);
    assert p.tokens[..n] == p.tokens;
  }
}
