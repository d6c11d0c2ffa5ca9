/** What the forecast slots of a draft pass compute: the rows the next draft is built from. */
module Forecast {
  import opened Decoding
  import opened DraftTree
  import opened ForwardPass

  lemma {:induction false} AlongJoin<E>(items: seq<E>, a: seq<nat>, b: seq<nat>)
    requires forall k :: 0 <= k < |a| ==> a[k] < |items|
    requires forall k :: 0 <= k < |b| ==> b[k] < |items|
    ensures forall k :: 0 <= k < |a + b| ==> (a + b)[k] < |items|
    ensures Along(items, a + b) == Along(items, a) + Along(items, b)
  {
  }

  /** The slots before forecast slot `d` of node `i`, root first. */
  lemma {:induction false} ForecastAncestors(branches: seq<nat>, parents: seq<int>, i: nat, d: nat)
    requires GoodBranches(branches) && IsLayout(branches, parents) && IsTree(parents)
    requires i < NodeCount(branches) && d < |branches|
    ensures 0 < ForecastSlot(branches, i, d) < |parents| && i < |parents|
    ensures Path(parents, parents[ForecastSlot(branches, i, d)]) == Path(parents, i) + Chain(branches, i, d)
    ensures Depth(parents, ForecastSlot(branches, i, d)) == Depth(parents, i) + 1 + d
    ensures forall k :: 0 <= k < d ==> Chain(branches, i, d)[k] < ForecastSlot(branches, i, d)
  {
    ChainParent(branches, parents, i, d);
    ForecastPath(branches, parents, i, d);
    if d == 0 {
      assert Path(parents, i) + Chain(branches, i, 0) == Path(parents, i);
    } else {
      ForecastPath(branches, parents, i, d - 1);
    }
  }

  /** Forecast slot `d` of draft node `i` sees the forecast prefix, the context extended by the
      node's own root path, and the node's earlier forecast slots; its position follows on. */
  lemma {:induction false} ForecastSlotSees<E>(f: Forward<E>, p: Pass<E>, branches: seq<nat>, parents: seq<int>,
                                               fp: nat, nPast: nat, ctx: seq<Token>, i: nat, d: nat)
      returns (seen: seq<E>, pos: nat)
    requires GoodBranches(branches) && IsLayout(branches, parents)
    requires TreePass(p, parents, fp, nPast, NodeCount(branches)) && |p.tokens| == |parents|
    requires p.cols[fp..nPast] == Entries(f, ctx)
    requires i < NodeCount(branches) && d < |branches|
    ensures i < ForecastSlot(branches, i, d) < |parents|
    ensures forall k :: 0 <= k < d ==> Chain(branches, i, d)[k] < |p.tokens|
    ensures pos == |ctx| + Depth(parents, i) + 1 + d
    ensures Gives(f, Run(f, p, |p.tokens|)[ForecastSlot(branches, i, d)], seen, p.tokens[ForecastSlot(branches, i, d)],
                  pos)
    ensures seen == p.cols[..fp] + Entries(f, ctx + PathTokens(parents, p.tokens, i))
                    + Along(Kvs(Run(f, p, |p.tokens|)), Chain(branches, i, d))
  {
    ForecastPosition(f, p, branches, parents, fp, nPast, ctx, i, d);
    seen := ForecastSeen(f, p, branches, parents, fp, nPast, ctx, i, d);
    pos := |ctx| + Depth(parents, i) + 1 + d;
    LateSlotSees(f, p, parents, fp, nPast, NodeCount(branches), ForecastSlot(branches, i, d), seen, pos);
  }

  lemma {:induction false} ForecastPosition<E>(f: Forward<E>, p: Pass<E>, branches: seq<nat>, parents: seq<int>,
                                               fp: nat, nPast: nat, ctx: seq<Token>, i: nat, d: nat)
    requires GoodBranches(branches) && IsLayout(branches, parents)
    requires TreePass(p, parents, fp, nPast, NodeCount(branches)) && |p.tokens| == |parents|
    requires p.cols[fp..nPast] == Entries(f, ctx)
    requires i < NodeCount(branches) && d < |branches|
    ensures NodeCount(branches) <= ForecastSlot(branches, i, d) < |parents|
    ensures 0 < ForecastSlot(branches, i, d)
    ensures p.pos[ForecastSlot(branches, i, d)] == |ctx| + Depth(parents, i) + 1 + d
  {
    ForecastAncestors(branches, parents, i, d);
    TreePosition(f, p, parents, fp, nPast, NodeCount(branches), ctx, ForecastSlot(branches, i, d));
  }

  lemma {:induction false} ForecastSeen<E>(f: Forward<E>, p: Pass<E>, branches: seq<nat>, parents: seq<int>,
                                           fp: nat, nPast: nat, ctx: seq<Token>, i: nat, d: nat) returns (seen: seq<E>)
    requires GoodBranches(branches) && IsLayout(branches, parents)
    requires TreePass(p, parents, fp, nPast, NodeCount(branches)) && |p.tokens| == |parents|
    requires p.cols[fp..nPast] == Entries(f, ctx)
    requires i < NodeCount(branches) && d < |branches|
    ensures i < ForecastSlot(branches, i, d) < |parents|
    ensures forall k :: 0 <= k < d ==> Chain(branches, i, d)[k] < |p.tokens|
    ensures seen == p.cols[..fp] + Entries(f, ctx + PathTokens(parents, p.tokens, i))
                    + Along(Kvs(Run(f, p, |p.tokens|)), Chain(branches, i, d))
    ensures seen == p.cols[0..nPast] + Along(Kvs(Run(f, p, |p.tokens|)),
                                             Path(parents, parents[ForecastSlot(branches, i, d)]))
  {
    var kvs := Kvs(Run(f, p, |p.tokens|));
    ChainParent(branches, parents, i, d);
    ForecastAncestors(branches, parents, i, d);
    NodeEntries(f, p, parents, fp, nPast, NodeCount(branches), ctx, i);
    AlongJoin(kvs, Path(parents, i), Chain(branches, i, d));
    SeenJoin(p.cols, fp, nPast, Along(kvs, Path(parents, i)), Along(kvs, Chain(branches, i, d)));
    seen := p.cols[0..nPast] + Along(kvs, Path(parents, parents[ForecastSlot(branches, i, d)]));
  }

  /** A slot that does not skip the prefix sees all of the valid cache and its proper ancestors. */
  lemma {:induction false} LateSlotSees<E>(f: Forward<E>, p: Pass<E>, parents: seq<int>, fp: nat, nPast: nat,
                                           skipping: nat, s: nat, seen: seq<E>, pos: nat)
    requires TreePass(p, parents, fp, nPast, skipping) && 0 < s < |p.tokens| && skipping <= s
    requires seen == p.cols[0..nPast] + Along(Kvs(Run(f, p, |p.tokens|)), Path(parents, parents[s]))
    requires pos == p.pos[s]
    ensures Gives(f, Run(f, p, |p.tokens|)[s], seen, p.tokens[s], pos)
  {
    SeenBefore(f, p, parents, fp, nPast, skipping, s, seen);
    SlotSees(f, p, parents, fp, nPast, skipping, s, seen, pos);
  }

  lemma {:induction false} SeenBefore<E>(f: Forward<E>, p: Pass<E>, parents: seq<int>, fp: nat, nPast: nat,
                                         skipping: nat, s: nat, seen: seq<E>)
    requires TreePass(p, parents, fp, nPast, skipping) && 0 < s < |p.tokens| && skipping <= s
    requires seen == p.cols[0..nPast] + Along(Kvs(Run(f, p, |p.tokens|)), Path(parents, parents[s]))
    ensures seen == Seen(p, parents, fp, nPast, skipping, Run(f, p, s))
  {
    RunPrefix(f, p, s, |p.tokens|);
    AncestryInAll(parents, Run(f, p, |p.tokens|), Run(f, p, s));
  }

  /** The ancestors of a slot are computed before it. */
  lemma {:induction false} AncestryInAll<E>(parents: seq<int>, all: seq<Out<E>>, before: seq<Out<E>>)
    requires IsTree(parents) && 0 < |before| <= |all| && |before| < |parents| && before == all[..|before|]
    ensures forall k :: 0 <= k < |Path(parents, parents[|before|])| ==> Path(parents, parents[|before|])[k] < |all|
    ensures Ancestry(parents, before) == Along(Kvs(all), Path(parents, parents[|before|]))
  {
  }

  lemma {:induction false} SeenJoin<E>(cols: seq<E>, fp: nat, nPast: nat, path: seq<E>, chain: seq<E>)
    requires fp <= nPast <= |cols|
    ensures cols[0..nPast] + (path + chain) == cols[..fp] + (cols[fp..nPast] + path) + chain
  {
  }

  /** The context extended by the root path of a draft node, as the pass computes it. */
  lemma {:induction false} NodeEntries<E>(f: Forward<E>, p: Pass<E>, parents: seq<int>, fp: nat, nPast: nat,
                                          skipping: nat, ctx: seq<Token>, i: nat)
    requires TreePass(p, parents, fp, nPast, skipping)
    requires p.cols[fp..nPast] == Entries(f, ctx) && i < skipping && i < |p.tokens|
    ensures Entries(f, ctx + PathTokens(parents, p.tokens, i))
         == Entries(f, ctx) + Along(Kvs(Run(f, p, |p.tokens|)), Path(parents, i))
  {
    forall k | 0 <= k <= i ensures Fed(f, parents, p.tokens, ctx, Run(f, p, |p.tokens|), k) {
      TreePassIsSequential(f, p, parents, fp, nPast, skipping, ctx, k);
    }
    EntriesAlongPath(f, parents, p.tokens, ctx, Run(f, p, |p.tokens|), i);
  }

  // ----- the chain as a continuation -----

  /** Every forecast slot of the block carries the forecast token of its depth in the chain. */
  ghost predicate CarriesForecast(branches: seq<nat>, tokens: seq<Token>, vocab: nat)
  {
    forall i, d {:trigger ForecastSlot(branches, i, d)} :: 0 <= i < NodeCount(branches) && 0 <= d < |branches| ==>
      ForecastSlot(branches, i, d) < |tokens| && tokens[ForecastSlot(branches, i, d)] == vocab + d
  }

  /** The chain of a draft node computes the forecast on top of the context extended by the
      node's root path. */
  lemma {:induction false} ChainIsForetold<E>(f: Forward<E>, p: Pass<E>, branches: seq<nat>, parents: seq<int>,
                                              fp: nat, nPast: nat, ctx: seq<Token>, vocab: nat, i: nat, n: nat)
    requires GoodBranches(branches) && IsLayout(branches, parents)
    requires TreePass(p, parents, fp, nPast, NodeCount(branches)) && |p.tokens| == |parents|
    requires p.cols[fp..nPast] == Entries(f, ctx) && CarriesForecast(branches, p.tokens, vocab)
    requires i < NodeCount(branches) && n <= |branches|
    ensures i < |p.tokens| && forall k :: 0 <= k < n ==> Chain(branches, i, n)[k] < |p.tokens|
    ensures AreForetold(f, p.cols[..fp], ctx + PathTokens(parents, p.tokens, i), vocab,
                        Along(Run(f, p, |p.tokens|), Chain(branches, i, n)))
  {
    if n == 0 {
      ChainParent(branches, parents, i, 0);
    } else {
      ChainIsForetold(f, p, branches, parents, fp, nPast, ctx, vocab, i, n - 1);
      ChainStep(f, p, branches, parents, fp, nPast, ctx, vocab, i, n - 1, n);
    }
  }

  lemma {:induction false} ChainStep<E>(f: Forward<E>, p: Pass<E>, branches: seq<nat>, parents: seq<int>,
                                        fp: nat, nPast: nat, ctx: seq<Token>, vocab: nat, i: nat, d: nat, n: nat)
    requires GoodBranches(branches) && IsLayout(branches, parents)
    requires TreePass(p, parents, fp, nPast, NodeCount(branches)) && |p.tokens| == |parents|
    requires p.cols[fp..nPast] == Entries(f, ctx) && CarriesForecast(branches, p.tokens, vocab)
    requires i < NodeCount(branches) && n == d + 1 <= |branches| && i < |p.tokens|
    requires forall k :: 0 <= k < d ==> Chain(branches, i, d)[k] < |p.tokens|
    requires AreForetold(f, p.cols[..fp], ctx + PathTokens(parents, p.tokens, i), vocab,
                         Along(Run(f, p, |p.tokens|), Chain(branches, i, d)))
    ensures forall k :: 0 <= k < n ==> Chain(branches, i, n)[k] < |p.tokens|
    ensures AreForetold(f, p.cols[..fp], ctx + PathTokens(parents, p.tokens, i), vocab,
                        Along(Run(f, p, |p.tokens|), Chain(branches, i, n)))
  {
    var outs := Run(f, p, |p.tokens|);
    var seen, t, pos := ForecastOnPath(f, p, branches, parents, fp, nPast, ctx, vocab, i, d);
    AlongChainStep(outs, branches, i, d, n);
    SlotForetold(f, outs[ForecastSlot(branches, i, d)], p.cols[..fp], ctx + PathTokens(parents, p.tokens, i), vocab,
                 Along(outs, Chain(branches, i, d)), seen, t, pos, Along(outs, Chain(branches, i, n)));
  }

  /** Forecast slot `d` of node `i`, on top of the context extended by the node's root path. */
  lemma {:induction false} ForecastOnPath<E>(f: Forward<E>, p: Pass<E>, branches: seq<nat>, parents: seq<int>,
                                             fp: nat, nPast: nat, ctx: seq<Token>, vocab: nat, i: nat, d: nat)
      returns (seen: seq<E>, t: Token, pos: nat)
    requires GoodBranches(branches) && IsLayout(branches, parents)
    requires TreePass(p, parents, fp, nPast, NodeCount(branches)) && |p.tokens| == |parents|
    requires p.cols[fp..nPast] == Entries(f, ctx) && CarriesForecast(branches, p.tokens, vocab)
    requires i < NodeCount(branches) && d < |branches|
    ensures i < ForecastSlot(branches, i, d) < |parents|
    ensures forall k :: 0 <= k < d ==> Chain(branches, i, d)[k] < |p.tokens|
    ensures t == vocab + d && pos == |ctx + PathTokens(parents, p.tokens, i)| + d
    ensures Gives(f, Run(f, p, |p.tokens|)[ForecastSlot(branches, i, d)], seen, t, pos)
    ensures seen == p.cols[..fp] + Entries(f, ctx + PathTokens(parents, p.tokens, i))
                    + Along(Kvs(Run(f, p, |p.tokens|)), Chain(branches, i, d))
  {
    var s := ForecastSlot(branches, i, d);
    seen, pos := ForecastSlotSees(f, p, branches, parents, fp, nPast, ctx, i, d);
    t := p.tokens[s];
    PathLength(parents, p.tokens, i);
  }

  lemma {:induction false} PathLength(parents: seq<int>, tokens: seq<Token>, i: nat)
    requires IsTree(parents) && i < |tokens| <= |parents|
    ensures |PathTokens(parents, tokens, i)| == Depth(parents, i) + 1
  {
  }

  lemma {:induction false} AlongChainStep<E>(outs: seq<Out<E>>, branches: seq<nat>, i: nat, d: nat, n: nat)
    requires n == d + 1 && ForecastSlot(branches, i, d) < |outs|
    ensures forall k :: 0 <= k < n ==> Chain(branches, i, n)[k] < |outs|
    ensures Along(outs, Chain(branches, i, n)) == Along(outs,
                                                        Chain(branches, i, d)) + [outs[ForecastSlot(branches, i, d)]]
    ensures Kvs(Along(outs, Chain(branches, i, d))) == Along(Kvs(outs), Chain(branches, i, d))
  {
  }

  lemma {:induction false} SlotForetold<E>(f: Forward<E>, out: Out<E>, prefix: seq<E>, ctx: seq<Token>, vocab: nat,
                                           before: seq<Out<E>>, seen: seq<E>, t: Token, pos: nat, all: seq<Out<E>>)
    requires AreForetold(f, prefix, ctx, vocab, before) && all == before + [out]
    requires seen == prefix + Entries(f, ctx) + Kvs(before) && t == vocab + |before| && pos == |ctx| + |before|
    requires Gives(f, out, seen, t, pos)
    ensures AreForetold(f, prefix, ctx, vocab, all)
  {
  }

  // ----- the initial pass -----

  /** What a slot sees in a block in which only the root skips the prefix. */
  function RootedSeen<E>(f: Forward<E>, prefix: seq<E>, ctx: seq<Token>, parents: seq<int>, before: seq<Out<E>>): seq<E>
    requires IsTree(parents) && |before| < |parents|
  {
    (if |before| == 0 then [] else prefix) + Entries(f, ctx) + Ancestry(parents, before)
  }

  /** The position of a slot on top of a context. */
  function RootedPos(ctx: seq<Token>, parents: seq<int>, i: nat): nat
    requires IsTree(parents) && i < |parents|
  {
    |ctx| + Depth(parents, i)
  }

  ghost predicate RootedAt<E>(f: Forward<E>, prefix: seq<E>, ctx: seq<Token>, parents: seq<int>, tokens: seq<Token>,
                              outs: seq<Out<E>>, i: nat)
    requires IsTree(parents) && i < |outs| <= |tokens| <= |parents|
  {
    Gives(f, outs[i], RootedSeen(f, prefix, ctx, parents, outs[..i]), tokens[i], RootedPos(ctx, parents, i))
  }

  /** The outputs of a tree block on top of a context in which only the root skips the prefix: every
      other slot sees the prefix, the context and its proper ancestors. */
  ghost predicate AreRooted<E>(f: Forward<E>, prefix: seq<E>, ctx: seq<Token>, parents: seq<int>, tokens: seq<Token>,
                               outs: seq<Out<E>>)
  {
    && IsTree(parents) && |outs| <= |tokens| <= |parents|
    && forall i :: 0 <= i < |outs| ==> RootedAt(f, prefix, ctx, parents, tokens, outs, i)
  }

  lemma {:induction false} RunIsRooted<E>(f: Forward<E>, p: Pass<E>, parents: seq<int>, fp: nat, nPast: nat,
                                          prefix: seq<E>, ctx: seq<Token>)
    requires TreePass(p, parents, fp, nPast, 1) && |prefix| == fp
    requires p.cols[..nPast] == prefix + Entries(f, ctx)
    ensures AreRooted(f, prefix, ctx, parents, p.tokens, Run(f, p, |p.tokens|))
  {
    var outs := Run(f, p, |p.tokens|);
    forall i | 0 <= i < |p.tokens| ensures RootedAt(f, prefix, ctx, parents, p.tokens, outs, i) {
      RunPrefix(f, p, i, |p.tokens|);
      var seen, pos := SlotIsRooted(f, p, parents, fp, nPast, prefix, ctx, i, outs);
      AtRoot(f, prefix, ctx, parents, p.tokens, outs, i, seen, pos);
    }
  }

  lemma {:induction false} AtRoot<E>(f: Forward<E>, prefix: seq<E>, ctx: seq<Token>, parents: seq<int>,
                                     tokens: seq<Token>, outs: seq<Out<E>>, i: nat, seen: seq<E>, pos: nat)
    requires IsTree(parents) && i < |outs| <= |tokens| <= |parents|
    requires seen == RootedSeen(f, prefix, ctx, parents, outs[..i]) && pos == RootedPos(ctx, parents, i)
    requires Gives(f, outs[i], seen, tokens[i], pos)
    ensures RootedAt(f, prefix, ctx, parents, tokens, outs, i)
  {
  }

  lemma {:induction false} SlotIsRooted<E>(f: Forward<E>, p: Pass<E>, parents: seq<int>, fp: nat, nPast: nat,
                                           prefix: seq<E>, ctx: seq<Token>, i: nat, outs: seq<Out<E>>)
      returns (seen: seq<E>, pos: nat)
    requires TreePass(p, parents, fp, nPast, 1) && |prefix| == fp && i < |p.tokens|
    requires p.cols[..nPast] == prefix + Entries(f, ctx)
    requires outs == Run(f, p, |p.tokens|) && outs[..i] == Run(f, p, i)
    ensures seen == RootedSeen(f, prefix, ctx, parents, outs[..i]) && pos == RootedPos(ctx, parents, i)
    ensures Gives(f, outs[i], seen, p.tokens[i], pos)
  {
    seen, pos := RootedSeen(f, prefix, ctx, parents, outs[..i]), RootedPos(ctx, parents, i);
    RootedSlot(f, p, parents, fp, nPast, prefix, ctx, Run(f, p, i));
    SlotSees(f, p, parents, fp, nPast, 1, i, seen, pos);
  }

  lemma {:induction false} RootedSlot<E>(f: Forward<E>, p: Pass<E>, parents: seq<int>, fp: nat, nPast: nat,
                                         prefix: seq<E>, ctx: seq<Token>, before: seq<Out<E>>)
    requires TreePass(p, parents, fp, nPast, 1) && |before| < |p.tokens| && |prefix| == fp
    requires p.cols[..nPast] == prefix + Entries(f, ctx)
    ensures Seen(p, parents, fp, nPast, 1, before) == RootedSeen(f, prefix, ctx, parents, before)
    ensures p.pos[|before|] == |ctx| + Depth(parents, |before|)
  {
    assert p.cols[fp..nPast] == p.cols[..nPast][fp..] == Entries(f, ctx);
    TreePosition(f, p, parents, fp, nPast, 1, ctx, |before|);
    if |before| == 0 {
      assert [] + Entries(f, ctx) == Entries(f, ctx);
    } else {
      assert p.cols[0..nPast] == p.cols[..nPast];
    }
  }
}
