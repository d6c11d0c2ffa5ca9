/** One masked forward pass over a block of tokens, and what it computes when the
    mask is the ancestor relation of a tree.
 */
module ForwardPass {
  import opened Decoding
  import opened DraftTree
  import opened Extents

  const OPEN: real := 0.0
  const BLOCKED: real := -1000000000.0

  /** The inputs of a pass: the cache columns, the block of tokens with their
      positions, and the additive mask, one row of `|cols| + seqLen` cells per slot. */
  datatype Pass<+E> = Pass(cols: seq<E>, tokens: seq<Token>, pos: seq<int>, mask: seq<real>, seqLen: nat)
  {
    function RowLen(): nat { |cols| + seqLen }

    predicate Shaped()
    {
      |pos| == |tokens| <= seqLen && |mask| == Extent(RowLen(), seqLen)
    }

    function Cell(i: nat, j: nat): real
      requires Shaped() && i < seqLen && j < RowLen()
    {
      ExtentApart(RowLen(), i, seqLen);
      mask[Extent(RowLen(), i) + j]
    }

    /** Each token sees itself and nothing that comes later in the block. */
    ghost predicate Causal()
      requires Shaped()
    {
      forall i, j :: 0 <= i < |tokens| && |cols| + i <= j < RowLen() ==> (Cell(i, j) == OPEN <==> j == |cols| + i)
    }

    function Row(i: nat, lo: nat, hi: nat): (r: seq<real>)
      requires Shaped() && i < seqLen && lo <= hi <= RowLen()
      ensures |r| == hi - lo
      ensures forall j :: 0 <= j < hi - lo ==> r[j] == Cell(i, lo + j)
    {
      seq(hi - lo, j requires 0 <= j < hi - lo => Cell(i, lo + j))
    }
  }

  /** The items whose cell is open, in column order. */
  function Pick<E>(row: seq<real>, items: seq<E>): (r: seq<E>)
    requires |row| == |items|
  {
    if items == [] then [] else
      var n := |items| - 1;
      Pick(row[..n], items[..n]) + if row[n] == OPEN then [items[n]] else []
  }

  /** The outputs of the first `n` slots.  A slot sees the open cache columns, then
      the open earlier slots of the block. */
  function Run<E>(f: Forward<E>, p: Pass<E>, n: nat): (outs: seq<Out<E>>)
    requires p.Shaped() && n <= |p.tokens|
    ensures |outs| == n
  {
    if n == 0 then [] else
      var before := Run(f, p, n - 1);
      before + [Slot(f, p, before)]
  }

  function Slot<E>(f: Forward<E>, p: Pass<E>, before: seq<Out<E>>): Out<E>
    requires p.Shaped() && |before| < |p.tokens|
  {
    var i := |before|;
    var c := |p.cols|;
    f(Pick(p.Row(i, 0, c), p.cols) + Pick(p.Row(i, c, c + i), Kvs(before)), p.tokens[i], p.pos[i])
  }

  lemma {:induction false} RunPrefix<E>(f: Forward<E>, p: Pass<E>, m: nat, n: nat)
    requires p.Shaped() && m <= n <= |p.tokens|
    ensures Run(f, p, m) == Run(f, p, n)[..m]
    decreases n
  {
    if m < n {
      RunPrefix(f, p, m, n - 1);
    }
  }

  lemma {:induction false} RunAt<E>(f: Forward<E>, p: Pass<E>, i: nat, n: nat)
    requires p.Shaped() && i < n <= |p.tokens|
    ensures Run(f, p, n)[i] == Slot(f, p, Run(f, p, i))
  {
    RunPrefix(f, p, i + 1, n);
    assert Run(f, p, i + 1)[i] == Slot(f, p, Run(f, p, i));
  }

  // ----- picking columns -----

  lemma {:induction false} PickNothing<E>(row: seq<real>, items: seq<E>)
    requires |row| == |items|
    requires forall j :: 0 <= j < |row| ==> row[j] != OPEN
    ensures Pick(row, items) == []
  {
    if items != [] {
      PickNothing(row[..|row| - 1], items[..|row| - 1]);
    }
  }

  /** A row that is open exactly on an interval picks that interval. */
  lemma {:induction false} PickInterval<E>(row: seq<real>, items: seq<E>, lo: nat, hi: nat)
    requires |row| == |items| && lo <= hi <= |row|
    requires forall j :: 0 <= j < |row| ==> (row[j] == OPEN <==> lo <= j < hi)
    ensures Pick(row, items) == items[lo..hi]
    decreases |row|
  {
    var n := |row| - 1;
    if lo == hi {
      PickNothing(row, items);
    } else if hi == |row| {
      PickInterval(row[..n], items[..n], lo, hi - 1);
      assert items[..n][lo..n] + [items[n]] == items[lo..hi];
    } else {
      PickInterval(row[..n], items[..n], lo, hi);
      assert items[..n][lo..hi] == items[lo..hi];
    }
  }

  function Along<E>(items: seq<E>, idx: seq<nat>): (r: seq<E>)
    requires forall k :: 0 <= k < |idx| ==> idx[k] < |items|
    ensures |r| == |idx| && forall k :: 0 <= k < |idx| ==> r[k] == items[idx[k]]
  {
    seq(|idx|, k requires 0 <= k < |idx| => items[idx[k]])
  }

  /** A row that is open exactly on the ancestors of `i` picks the items along its root path. */
  lemma {:induction false} PickAncestors<E>(parents: seq<int>, row: seq<real>, items: seq<E>, i: nat)
    requires IsTree(parents) && i < |parents| && i < |row| == |items|
    requires forall j :: 0 <= j < |row| ==> (row[j] == OPEN <==> OnPath(parents, j, i))
    ensures Pick(row, items) == Along(items, Path(parents, i))
    decreases i, |row|
  {
    var n := |row| - 1;
    if i < n {
      assert row[n] != OPEN by {
        if OnPath(parents, n, i) { OnPathBounds(parents, n, i); }
      }
      PickAncestors(parents, row[..n], items[..n], i);
      assert Along(items[..n], Path(parents, i)) == Along(items, Path(parents, i));
    } else if i == 0 {
      PickInterval(row, items, 0, 1);
    } else {
      PickAncestors(parents, row[..n], items[..n], parents[i]);
      PickSelf(parents, row, items, i);
    }
  }

  lemma {:induction false} PickSelf<E>(parents: seq<int>, row: seq<real>, items: seq<E>, i: nat)
    requires IsTree(parents) && 0 < i < |parents| && |row| == |items| == i + 1 && row[i] == OPEN
    requires Pick(row[..i], items[..i]) == Along(items[..i], Path(parents, parents[i]))
    ensures Pick(row, items) == Along(items, Path(parents, i))
  {
    AlongFront(items, i, Path(parents, parents[i]));
    AlongStep(parents, items, i);
    PickLast(row, items, i);
  }

  lemma {:induction false} PickLast<E>(row: seq<real>, items: seq<E>, i: nat)
    requires |row| == |items| == i + 1 && row[i] == OPEN
    ensures Pick(row, items) == Pick(row[..i], items[..i]) + [items[i]]
  {
  }

  lemma {:induction false} AlongFront<E>(items: seq<E>, n: nat, idx: seq<nat>)
    requires n <= |items| && forall k :: 0 <= k < |idx| ==> idx[k] < n
    ensures Along(items[..n], idx) == Along(items, idx)
  {
  }

  lemma {:induction false} AlongStep<E>(parents: seq<int>, items: seq<E>, i: nat)
    requires IsTree(parents) && i < |items| <= |parents|
    ensures Along(items, Path(parents, i))
         == if i == 0 then [items[0]] else Along(items, Path(parents, parents[i])) + [items[i]]
  {
    if i != 0 {
      assert Path(parents, i) == Path(parents, parents[i]) + [i];
    }
  }

  // ----- tree passes -----

  /** A cell the tree mask opens: for slot `i`, the cache columns from `lo(i)` up to
      `nPast`, and the slots on its root path. */
  predicate TreeOpen(parents: seq<int>, fp: nat, nPast: nat, kvLen: nat, skipping: nat, i: nat, j: nat)
    requires IsTree(parents) && i < |parents|
  {
    if j < kvLen then (if i < skipping then fp else 0) <= j < nPast
    else OnPath(parents, j - kvLen, i)
  }

  /** A pass whose mask and positions are those of a tree over a cache that is valid up to `nPast`. */
  ghost predicate TreePass<E>(p: Pass<E>, parents: seq<int>, fp: nat, nPast: nat, skipping: nat)
  {
    && p.Shaped()
    && IsTree(parents) && |p.tokens| <= |parents|
    && fp <= nPast <= |p.cols|
    && (forall i, j :: 0 <= i < |p.tokens| && 0 <= j < p.RowLen() ==>
          (p.Cell(i, j) == OPEN <==> TreeOpen(parents, fp, nPast, |p.cols|, skipping, i, j)))
    && (forall i :: 0 <= i < |p.tokens| ==> p.pos[i] == nPast - fp + Depth(parents, i))
  }

  lemma {:induction false} TreePassIsCausal<E>(p: Pass<E>, parents: seq<int>, fp: nat, nPast: nat, skipping: nat)
    requires TreePass(p, parents, fp, nPast, skipping)
    ensures p.Causal()
  {
    forall i, j | 0 <= i < |p.tokens| && |p.cols| + i <= j < p.RowLen()
      ensures p.Cell(i, j) == OPEN <==> j == |p.cols| + i
    {
      if OnPath(parents, j - |p.cols|, i) {
        OnPathBounds(parents, j - |p.cols|, i);
      }
    }
  }

  /** The entries of the proper ancestors of the next slot, root first. */
  function Ancestry<E>(parents: seq<int>, before: seq<Out<E>>): seq<E>
    requires IsTree(parents) && |before| < |parents|
  {
    if |before| == 0 then [] else Along(Kvs(before), Path(parents, parents[|before|]))
  }

  function Seen<E>(p: Pass<E>, parents: seq<int>, fp: nat, nPast: nat, skipping: nat, before: seq<Out<E>>): seq<E>
    requires IsTree(parents) && |before| < |parents| && fp <= nPast <= |p.cols|
  {
    p.cols[(if |before| < skipping then fp else 0)..nPast] + Ancestry(parents, before)
  }

  /** What a slot of a tree pass attends to: its share of the cache, then its proper ancestors. */
  lemma {:induction false} TreeSlotSees<E>(f: Forward<E>, p: Pass<E>, parents: seq<int>, fp: nat, nPast: nat,
                                           skipping: nat,
                        before: seq<Out<E>>)
    requires TreePass(p, parents, fp, nPast, skipping) && |before| < |p.tokens|
    ensures Slot(f, p, before) == f(Seen(p, parents, fp, nPast, skipping, before), p.tokens[|before|], p.pos[|before|])
  {
    var i, c := |before|, |p.cols|;
    var lo := if i < skipping then fp else 0;
    forall j | 0 <= j < c ensures p.Row(i, 0, c)[j] == OPEN <==> lo <= j < nPast {
      assert p.Row(i, 0, c)[j] == p.Cell(i, j);
    }
    PickInterval(p.Row(i, 0, c), p.cols, lo, nPast);
    var row := p.Row(i, c, c + i);
    if i == 0 {
      assert p.cols[lo..nPast] + [] == p.cols[lo..nPast];
    } else {
      forall j | 0 <= j < i ensures row[j] == OPEN <==> OnPath(parents, j, parents[i]) {
        assert row[j] == p.Cell(i, c + j);
        assert TreeOpen(parents, fp, nPast, c, skipping, i, c + j) <==> OnPath(parents, j, i);
      }
      PickAncestors(parents, row, Kvs(before), parents[i]);
    }
  }

  /** The same, of the outputs of the whole pass. */
  lemma {:induction false} SlotSees<E>(f: Forward<E>, p: Pass<E>, parents: seq<int>, fp: nat, nPast: nat, skipping: nat,
                                       s: nat, seen: seq<E>, pos: nat)
    requires TreePass(p, parents, fp, nPast, skipping) && s < |p.tokens|
    requires seen == Seen(p, parents, fp, nPast, skipping, Run(f, p, s)) && pos == p.pos[s]
    ensures Gives(f, Run(f, p, |p.tokens|)[s], seen, p.tokens[s], pos)
  {
    RunAt(f, p, s, |p.tokens|);
    TreeSlotSees(f, p, parents, fp, nPast, skipping, Run(f, p, s));
  }

  /** The tokens from the root down to slot `i`. */
  function PathTokens(parents: seq<int>, tokens: seq<Token>, i: nat): seq<Token>
    requires IsTree(parents) && i < |tokens| <= |parents|
  {
    Along(tokens, Path(parents, i))
  }

  /** Slot `k` was computed as if its root path had been fed one token at a time. */
  ghost predicate Fed<E>(f: Forward<E>, parents: seq<int>, tokens: seq<Token>, ctx: seq<Token>,
                         outs: seq<Out<E>>, k: nat)
    requires IsTree(parents) && |outs| <= |tokens| <= |parents| && k < |outs|
  {
    Follows(f, outs[k], ctx + PathTokens(parents, tokens, k))
  }

  /** If every slot on a root path is computed as if its path had been fed one token
      at a time, their cache entries extend those of the context. */
  lemma {:induction false} EntriesAlongPath<E>(f: Forward<E>, parents: seq<int>, tokens: seq<Token>,
                                               ctx: seq<Token>, outs: seq<Out<E>>, i: nat)
    requires IsTree(parents) && i < |outs| <= |tokens| <= |parents|
    requires forall k :: 0 <= k <= i ==> Fed(f, parents, tokens, ctx, outs, k)
    ensures Entries(f, ctx + PathTokens(parents, tokens, i))
         == Entries(f, ctx) + Along(Kvs(outs), Path(parents, i))
    decreases i
  {
    if i != 0 {
      EntriesAlongPath(f, parents, tokens, ctx, outs, parents[i]);
    }
    assert Fed(f, parents, tokens, ctx, outs, i);
    EntriesStep(f, parents, tokens, ctx, outs, i);
  }

  /** The tokens above slot `i`, root first. */
  function Above(parents: seq<int>, tokens: seq<Token>, i: nat): seq<Token>
    requires IsTree(parents) && i < |tokens| <= |parents|
  {
    if i == 0 then [] else PathTokens(parents, tokens, parents[i])
  }

  lemma {:induction false} FeedSlot<E>(f: Forward<E>, parents: seq<int>, tokens: seq<Token>, ctx: seq<Token>, i: nat)
    requires IsTree(parents) && i < |tokens| <= |parents|
    ensures var out := Feed(f, ctx + PathTokens(parents, tokens, i));
            && out == f(Entries(f, ctx + Above(parents, tokens, i)), tokens[i], |ctx| + |Above(parents, tokens, i)|)
            && Entries(f, ctx + PathTokens(parents, tokens, i)) == Entries(f,
                                                                           ctx + Above(parents, tokens, i)) + [out.kv]
  {
    AlongStep(parents, tokens, i);
    assert PathTokens(parents, tokens, i) == Above(parents, tokens, i) + [tokens[i]];
    FeedOnTop(f, ctx, Above(parents, tokens, i), tokens[i]);
  }

  lemma {:induction false} EntriesStep<E>(f: Forward<E>, parents: seq<int>, tokens: seq<Token>,
                                          ctx: seq<Token>, outs: seq<Out<E>>, i: nat)
    requires IsTree(parents) && i < |outs| <= |tokens| <= |parents| && Fed(f, parents, tokens, ctx, outs, i)
    requires i != 0 ==>
               Entries(f, ctx + PathTokens(parents, tokens, parents[i]))
               == Entries(f, ctx) + Along(Kvs(outs), Path(parents, parents[i]))
    ensures Entries(f, ctx + PathTokens(parents, tokens, i))
         == Entries(f, ctx) + Along(Kvs(outs), Path(parents, i))
  {
    var kvs, held, kv := Kvs(outs), Entries(f, ctx), outs[i].kv;
    FeedSlot(f, parents, tokens, ctx, i);
    AlongStep(parents, kvs, i);
    if i == 0 {
      assert ctx + [] == ctx;
    } else {
      Regrouped(held, Along(kvs, Path(parents, parents[i])), kv, Along(kvs, Path(parents, i)));
    }
  }

  lemma {:induction false} Regrouped<E>(held: seq<E>, path: seq<E>, kv: E, longer: seq<E>)
    requires longer == path + [kv]
    ensures held + path + [kv] == held + longer
  {
  }

  /** A slot computed on top of the context and its proper ancestors follows its root path. */
  lemma {:induction false} FedOnPath<E>(f: Forward<E>, parents: seq<int>, tokens: seq<Token>, ctx: seq<Token>,
                                        before: seq<Out<E>>, out: Out<E>, seen: seq<E>, pos: nat)
    requires IsTree(parents) && |before| < |tokens| <= |parents|
    requires forall k :: 0 <= k < |before| ==> Fed(f, parents, tokens, ctx, before, k)
    requires seen == Entries(f, ctx) + Ancestry(parents, before) && pos == |ctx| + Depth(parents, |before|)
    requires Gives(f, out, seen, tokens[|before|], pos)
    ensures Follows(f, out, ctx + PathTokens(parents, tokens, |before|))
  {
    var i := |before|;
    AncestryIsAbove(f, parents, tokens, ctx, before);
    FollowsSlot(f, parents, tokens, ctx, i, out, seen, pos);
  }

  lemma {:induction false} AncestryIsAbove<E>(f: Forward<E>, parents: seq<int>, tokens: seq<Token>, ctx: seq<Token>,
                                              before: seq<Out<E>>)
    requires IsTree(parents) && |before| < |tokens| <= |parents|
    requires forall k :: 0 <= k < |before| ==> Fed(f, parents, tokens, ctx, before, k)
    ensures Entries(f, ctx) + Ancestry(parents, before) == Entries(f, ctx + Above(parents, tokens, |before|))
    ensures Depth(parents, |before|) == |Above(parents, tokens, |before|)|
  {
    var i := |before|;
    DepthAbove(parents, tokens, i);
    if i == 0 {
      assert ctx + [] == ctx && Entries(f, ctx) + [] == Entries(f, ctx);
    } else {
      EntriesAlongPath(f, parents, tokens, ctx, before, parents[i]);
    }
  }

  lemma {:induction false} FollowsSlot<E>(f: Forward<E>, parents: seq<int>, tokens: seq<Token>, ctx: seq<Token>, i: nat,
                                          out: Out<E>, seen: seq<E>, pos: nat)
    requires IsTree(parents) && i < |tokens| <= |parents|
    requires seen == Entries(f, ctx + Above(parents, tokens, i)) && pos == |ctx| + |Above(parents, tokens, i)|
    requires Gives(f, out, seen, tokens[i], pos)
    ensures Follows(f, out, ctx + PathTokens(parents, tokens, i))
  {
    FeedSlot(f, parents, tokens, ctx, i);
  }

  lemma {:induction false} DepthAbove(parents: seq<int>, tokens: seq<Token>, i: nat)
    requires IsTree(parents) && i < |tokens| <= |parents|
    ensures |Above(parents, tokens, i)| == Depth(parents, i)
  {
  }

  lemma {:induction false} TreePosition<E>(f: Forward<E>, p: Pass<E>, parents: seq<int>, fp: nat, nPast: nat,
                                           skipping: nat, ctx: seq<Token>, i: nat)
    requires TreePass(p, parents, fp, nPast, skipping) && i < |p.tokens|
    requires p.cols[fp..nPast] == Entries(f, ctx)
    ensures p.pos[i] == |ctx| + Depth(parents, i)
  {
    assert |Entries(f, ctx)| == nPast - fp;
  }

  lemma {:induction false} SeenOnContext<E>(f: Forward<E>, p: Pass<E>, parents: seq<int>, fp: nat, nPast: nat,
                                            skipping: nat, ctx: seq<Token>, before: seq<Out<E>>)
    requires TreePass(p, parents, fp, nPast, skipping)
    requires p.cols[fp..nPast] == Entries(f, ctx)
    requires |before| < skipping && |before| < |p.tokens|
    ensures Seen(p, parents, fp, nPast, skipping, before) == Entries(f, ctx) + Ancestry(parents, before)
    ensures p.pos[|before|] == |ctx| + Depth(parents, |before|)
  {
    TreePosition(f, p, parents, fp, nPast, skipping, ctx, |before|);
  }

  lemma {:induction false} TreeSlotFollows<E>(f: Forward<E>, p: Pass<E>, parents: seq<int>, fp: nat, nPast: nat,
                                              skipping: nat, ctx: seq<Token>, i: nat)
    requires TreePass(p, parents, fp, nPast, skipping)
    requires p.cols[fp..nPast] == Entries(f, ctx)
    requires i < skipping && i < |p.tokens|
    requires forall k :: 0 <= k < i ==> Fed(f, parents, p.tokens, ctx, Run(f, p, i), k)
    ensures Follows(f, Run(f, p, |p.tokens|)[i], ctx + PathTokens(parents, p.tokens, i))
  {
    var before := Run(f, p, i);
    var seen, pos := Entries(f, ctx) + Ancestry(parents, before), |ctx| + Depth(parents, i);
    SeenOnContext(f, p, parents, fp, nPast, skipping, ctx, before);
    SlotSees(f, p, parents, fp, nPast, skipping, i, seen, pos);
    FedOnPath(f, parents, p.tokens, ctx, before, Run(f, p, |p.tokens|)[i], seen, pos);
  }

  /** One pass over a tree evaluates every root path at once: each slot that skips the
      prefix gets exactly what feeding its root path one token at a time would give. */
  lemma {:induction false} TreePassIsSequential<E>(f: Forward<E>, p: Pass<E>, parents: seq<int>, fp: nat,
                                                   nPast: nat, skipping: nat, ctx: seq<Token>, i: nat)
    requires TreePass(p, parents, fp, nPast, skipping)
    requires p.cols[fp..nPast] == Entries(f, ctx)
    requires i < skipping && i < |p.tokens|
    ensures Fed(f, parents, p.tokens, ctx, Run(f, p, |p.tokens|), i)
    decreases i
  {
    RunPrefix(f, p, i, |p.tokens|);
    forall k | 0 <= k < i ensures Fed(f, parents, p.tokens, ctx, Run(f, p, i), k) {
      TreePassIsSequential(f, p, parents, fp, nPast, skipping, ctx, k);
      assert Run(f, p, i)[k] == Run(f, p, |p.tokens|)[k];
    }
    TreeSlotFollows(f, p, parents, fp, nPast, skipping, ctx, i);
  }
}
