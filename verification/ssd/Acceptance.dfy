/** What the greedy verifier accepts from a draft tree, and why that is plain greedy decoding. */
module Acceptance {
  import opened Decoding
  import opened DraftTree
  import opened Extents
  import opened ForwardPass
  import opened KvLayout

  /** One pass to verify: the tree, the block of tokens whose first `nodes` are the draft,
      the token the model picks after each draft node, and the end-of-sequence tokens. */
  datatype Trial = Trial(parents: seq<int>, nodes: nat, block: seq<Token>, picks: seq<Token>, eos: set<Token>)
  {
    ghost predicate Valid()
    {
      IsTree(parents) && 0 < nodes == |picks| <= |block| <= |parents|
    }

    /** No child of `node` strictly between `lo` and `hi` carries `t`. */
    ghost predicate NoMatch(node: nat, t: Token, lo: nat, hi: nat)
      requires Valid() && hi <= nodes
    {
      forall c :: lo < c < hi ==> !(parents[c] == node && block[c] == t)
    }

    /** The `k`-th accepted node is the first child of the one before it that carries the
        token verified there, which did not end the sequence. */
    ghost predicate Linked(tokens: seq<Token>, ids: seq<nat>, k: nat)
      requires Valid() && |tokens| == |ids| && 0 < k < |ids|
    {
      && ids[k - 1] < ids[k] < nodes
      && parents[ids[k]] == ids[k - 1]
      && block[ids[k]] == tokens[k - 1]
      && tokens[k - 1] !in eos
      && NoMatch(ids[k - 1], tokens[k - 1], ids[k - 1], ids[k])
    }

    /** The token verified after the `k`-th accepted node is the model's pick there. */
    ghost predicate Verified(tokens: seq<Token>, ids: seq<nat>, k: nat)
      requires Valid() && |tokens| == |ids| && k < |ids|
    {
      ids[k] < nodes && tokens[k] == picks[ids[k]]
    }

    /** A root path of accepted nodes with the tokens verified along it. */
    ghost predicate IsAcceptedPath(tokens: seq<Token>, ids: seq<nat>)
      requires Valid()
    {
      && |tokens| == |ids| > 0 && ids[0] == 0
      && (forall k :: 0 < k < |ids| ==> Linked(tokens, ids, k))
      && (forall k :: 0 <= k < |ids| ==> Verified(tokens, ids, k))
    }

    /** An accepted path that cannot be extended. */
    ghost predicate IsAcceptance(tokens: seq<Token>, ids: seq<nat>)
      requires Valid()
    {
      && IsAcceptedPath(tokens, ids)
      && var last := |ids| - 1;
         tokens[last] in eos || NoMatch(ids[last], tokens[last], ids[last], nodes)
    }
  }

  /** The accepted nodes are the root path of the last one. */
  lemma {:induction false} AcceptedIsPath(w: Trial, tokens: seq<Token>, ids: seq<nat>, k: nat)
    requires w.Valid() && w.IsAcceptedPath(tokens, ids) && k < |ids|
    ensures ids[k] < w.nodes
    ensures Path(w.parents, ids[k]) == ids[..k + 1]
  {
    assert w.Verified(tokens, ids, k);
    if k == 0 {
      assert ids[..1] == [0];
    } else {
      assert w.Linked(tokens, ids, k);
      AcceptedIsPath(w, tokens, ids, k - 1);
      assert ids[..k + 1] == ids[..k] + [ids[k]];
    }
  }

  /** Accepted nodes come in ascending order, so cache order is path order. */
  lemma {:induction false} AcceptedAscend(w: Trial, tokens: seq<Token>, ids: seq<nat>, j: nat, k: nat)
    requires w.Valid() && w.IsAcceptedPath(tokens, ids) && j < k < |ids|
    ensures ids[j] < ids[k]
    decreases k
  {
    assert w.Linked(tokens, ids, k);
    if j < k - 1 {
      AcceptedAscend(w, tokens, ids, j, k - 1);
    }
  }

  /** No pass accepts more tokens than the tree has levels, plus one. */
  lemma {:induction false} AcceptedLength(branches: seq<nat>, w: Trial, tokens: seq<Token>, ids: seq<nat>)
    requires w.Valid() && w.IsAcceptedPath(tokens, ids)
    requires GoodBranches(branches) && IsLayout(branches, w.parents) && w.nodes == NodeCount(branches)
    ensures 1 <= |ids| <= |branches| + 1
  {
    AcceptedIsPath(w, tokens, ids, |ids| - 1);
    DraftDepth(branches, w.parents, ids[|ids| - 1]);
  }

  /** An end-of-sequence token can only be the last one. */
  lemma {:induction false} EosIsLast(w: Trial, tokens: seq<Token>, ids: seq<nat>, k: nat)
    requires w.Valid() && w.IsAcceptedPath(tokens, ids) && k < |tokens| && tokens[k] in w.eos
    ensures k == |tokens| - 1
  {
    assert k + 1 < |tokens| ==> w.Linked(tokens, ids, k + 1);
  }

  /** Two accepted paths agree as far as both go. */
  lemma {:induction false} PathsAgree(w: Trial, tokens: seq<Token>, ids: seq<nat>,
                                      tokens': seq<Token>, ids': seq<nat>, k: nat)
    requires w.Valid() && w.IsAcceptedPath(tokens, ids) && w.IsAcceptedPath(tokens', ids')
    requires k < |ids| && k < |ids'|
    ensures ids[k] == ids'[k] && tokens[k] == tokens'[k]
  {
    assert w.Verified(tokens, ids, k) && w.Verified(tokens', ids', k);
    if k > 0 {
      PathsAgree(w, tokens, ids, tokens', ids', k - 1);
      assert w.Linked(tokens, ids, k) && w.Linked(tokens', ids', k);
    }
  }

  /** The verifier has no freedom: a pass has exactly one acceptance. */
  lemma {:induction false} AcceptanceUnique(w: Trial, tokens: seq<Token>, ids: seq<nat>,
                                            tokens': seq<Token>, ids': seq<nat>)
    requires w.Valid() && w.IsAcceptance(tokens, ids) && w.IsAcceptance(tokens', ids')
    ensures tokens == tokens' && ids == ids'
  {
    NotLonger(w, tokens, ids, tokens', ids');
    NotLonger(w, tokens', ids', tokens, ids);
    forall k | 0 <= k < |ids| ensures ids[k] == ids'[k] && tokens[k] == tokens'[k] {
      PathsAgree(w, tokens, ids, tokens', ids', k);
    }
  }

  lemma {:induction false} NotLonger(w: Trial, tokens: seq<Token>, ids: seq<nat>,
                                     tokens': seq<Token>, ids': seq<nat>)
    requires w.Valid() && w.IsAcceptance(tokens, ids) && w.IsAcceptedPath(tokens', ids')
    ensures |ids'| <= |ids|
  {
    var n := |ids|;
    if |ids'| > n {
      assert w.Linked(tokens', ids', n);
      PathsAgree(w, tokens, ids, tokens', ids', n - 1);
    }
  }

  // ----- losslessness of one step -----

  /** The picks of a trial are the arguments of the maxima of the draft slots' logits. */
  ghost predicate PicksOf<E(!new)>(w: Trial, outs: seq<Out<E>>, vocab: nat)
    requires w.Valid()
  {
    && 0 < vocab && w.nodes <= |outs|
    && forall i :: 0 <= i < w.nodes ==> Picked(w, outs, vocab, i)
  }

  ghost predicate Picked<E(!new)>(w: Trial, outs: seq<Out<E>>, vocab: nat, i: nat)
    requires w.Valid() && 0 < vocab && i < w.nodes <= |outs|
  {
    |outs[i].logits| == vocab && w.picks[i] == Argmax(outs[i].logits)
  }

  /** Every draft slot was computed as if its root path had been fed sequentially. */
  ghost predicate AllFed<E(!new)>(f: Forward<E>, w: Trial, ctx: seq<Token>, outs: seq<Out<E>>)
    requires w.Valid()
  {
    && w.nodes <= |outs| <= |w.block|
    && forall i :: 0 <= i < w.nodes ==> Fed(f, w.parents, w.block, ctx, outs, i)
  }

  /** Along an accepted path, the tokens fed are the root and the tokens verified so far. */
  lemma {:induction false} AcceptedPathTokens(w: Trial, tokens: seq<Token>, ids: seq<nat>, k: nat)
    requires w.Valid() && w.IsAcceptedPath(tokens, ids) && k < |ids|
    ensures ids[k] < w.nodes
    ensures PathTokens(w.parents, w.block, ids[k]) == [w.block[0]] + tokens[..k]
  {
    AcceptedIsPath(w, tokens, ids, k);
    AlongStep(w.parents, w.block, ids[k]);
    if k == 0 {
      assert [w.block[0]] + tokens[..0] == [w.block[0]];
    } else {
      assert w.Linked(tokens, ids, k);
      var before := PathTokens(w.parents, w.block, ids[k - 1]);
      assert PathTokens(w.parents, w.block, ids[k]) == before + [tokens[k - 1]];
      AcceptedPathTokens(w, tokens, ids, k - 1);
      OneMore([w.block[0]], tokens, k, before);
    }
  }

  lemma {:induction false} OneMore(root: seq<Token>, tokens: seq<Token>, k: nat, before: seq<Token>)
    requires 0 < k <= |tokens| && before == root + tokens[..k - 1]
    ensures before + [tokens[k - 1]] == root + tokens[..k]
  {
    assert tokens[..k] == tokens[..k - 1] + [tokens[k - 1]];
  }

  lemma {:induction false} AcceptedIsNext<E(!new)>(f: Forward<E>, vocab: nat, w: Trial, ctx: seq<Token>,
                                                   outs: seq<Out<E>>, tokens: seq<Token>, ids: seq<nat>, k: nat)
    requires 0 < vocab && HasVocab(f, vocab)
    requires w.Valid() && AllFed(f, w, ctx, outs) && PicksOf(w, outs, vocab)
    requires w.IsAcceptedPath(tokens, ids) && k < |ids|
    ensures tokens[k] == NextToken(f, vocab, ctx + ([w.block[0]] + tokens[..k]))
  {
    AcceptedPathTokens(w, tokens, ids, k);
    assert Fed(f, w.parents, w.block, ctx, outs, ids[k]);
    assert Picked(w, outs, vocab, ids[k]);
    assert w.Verified(tokens, ids, k);
  }

  /** Losslessness of a step: whatever was drafted, the accepted tokens are exactly the
      tokens that greedy decoding appends to the context and the root. */
  lemma {:induction false} StepIsLossless<E(!new)>(f: Forward<E>, vocab: nat, w: Trial, ctx: seq<Token>,
                                                   outs: seq<Out<E>>, tokens: seq<Token>, ids: seq<nat>)
    requires 0 < vocab && HasVocab(f, vocab)
    requires w.Valid() && AllFed(f, w, ctx, outs) && PicksOf(w, outs, vocab)
    requires w.IsAcceptedPath(tokens, ids)
    ensures ctx + [w.block[0]] + tokens == Greedy(f, vocab, ctx + [w.block[0]], |tokens|)
  {
    var start := ctx + [w.block[0]];
    var all := start + tokens;
    forall j {:trigger all[..j]} | |start| <= j < |all| ensures all[j] == NextToken(f, vocab, all[..j]) {
      var k := j - |start|;
      AcceptedIsNext(f, vocab, w, ctx, outs, tokens, ids, k);
      assert all[..j] == ctx + ([w.block[0]] + tokens[..k]);
    }
    assert all[..|start|] == start;
    GreedyUnique(f, vocab, start, all);
  }

  /** The cache entries of the accepted slots extend the context by the root and all but
      the last accepted token. */
  lemma {:induction false} AcceptedEntries<E(!new)>(f: Forward<E>, w: Trial, ctx: seq<Token>,
                                                    outs: seq<Out<E>>, tokens: seq<Token>, ids: seq<nat>)
    requires w.Valid() && AllFed(f, w, ctx, outs) && w.IsAcceptedPath(tokens, ids)
    ensures forall k :: 0 <= k < |ids| ==> ids[k] < |outs|
    ensures Entries(f, ctx + ([w.block[0]] + tokens[..|tokens| - 1])) == Entries(f, ctx) + Along(Kvs(outs), ids)
  {
    var last := |ids| - 1;
    AcceptedIsPath(w, tokens, ids, last);
    assert ids[..last + 1] == ids;
    AcceptedPathTokens(w, tokens, ids, last);
    EntriesAlongPath(f, w.parents, w.block, ctx, outs, ids[last]);
    forall k | 0 <= k < |ids| ensures ids[k] < |outs| {
      assert w.Verified(tokens, ids, k);
    }
  }

  // ----- the verifier -----

  /** The model's pick after each of the first `nodes` slots, from a flat buffer of logits rows. */
  ghost function Picks(logits: seq<real>, vocab: nat, rows: nat, nodes: nat): (ts: seq<Token>)
    requires 0 < vocab && nodes <= rows && Extent(vocab, rows) <= |logits|
    ensures |ts| == nodes
    ensures forall i :: 0 <= i < nodes ==> ts[i] == Argmax(UnitAt(logits, vocab, rows, i))
  {
    seq(nodes, i requires 0 <= i < nodes => Argmax(UnitAt(logits, vocab, rows, i)))
  }

  /** One scan over the draft nodes, extending the accepted path whenever a node hangs
      below its last node and carries its last token. */
  method VerifyDraftTree(parents: seq<int>, numDraftNodes: nat, draft: seq<Token>, logits: seq<real>, vocab: nat,
                         rows: nat, eos: set<Token>) returns (tokens: seq<Token>, ids: seq<nat>)
    requires IsTree(parents) && 0 < numDraftNodes == |draft| <= |parents|
    requires 0 < vocab && numDraftNodes <= rows && Extent(vocab, rows) <= |logits|
    ensures Trial(parents, numDraftNodes, draft, Picks(logits, vocab, rows, numDraftNodes), eos).IsAcceptance(tokens,
                                                                                                              ids)
  {
    ghost var w := Trial(parents, numDraftNodes, draft, Picks(logits, vocab, rows, numDraftNodes), eos);
    ids := [0];
    var first := ArgmaxLogits(UnitAt(logits, vocab, rows, 0));
    tokens := [first];
    if tokens[0] in eos {
      return;
    }
    for cur := 1 to numDraftNodes
      invariant w.IsAcceptedPath(tokens, ids)
      invariant ids[|ids| - 1] < cur && tokens[|ids| - 1] !in eos
      invariant w.NoMatch(ids[|ids| - 1], tokens[|ids| - 1], ids[|ids| - 1], cur)
    {
      var last := |ids| - 1;
      if parents[cur] == ids[last] && draft[cur] == tokens[last] {
        var verified := ArgmaxLogits(UnitAt(logits, vocab, rows, cur));
        ExtendAccepted(w, tokens, ids, verified, cur);
        tokens := tokens + [verified];
        ids := ids + [cur];
        if verified in eos {
          return;
        }
      }
    }
  }

  lemma {:induction false} ExtendAccepted(w: Trial, tokens: seq<Token>, ids: seq<nat>, t: Token, c: nat)
    requires w.Valid() && w.IsAcceptedPath(tokens, ids) && tokens[|ids| - 1] !in w.eos
    requires ids[|ids| - 1] < c < w.nodes && t == w.picks[c]
    requires w.parents[c] == ids[|ids| - 1] && w.block[c] == tokens[|ids| - 1]
    requires w.NoMatch(ids[|ids| - 1], tokens[|ids| - 1], ids[|ids| - 1], c)
    ensures w.IsAcceptedPath(tokens + [t], ids + [c])
  {
    var tokens', ids' := tokens + [t], ids + [c];
    forall k | 0 < k < |ids'| ensures w.Linked(tokens', ids', k) {
      if k < |ids| {
        assert w.Linked(tokens, ids, k);
      }
    }
    forall k | 0 <= k < |ids'| ensures w.Verified(tokens', ids', k) {
      if k < |ids| {
        assert w.Verified(tokens, ids, k);
      }
    }
  }

  /** Only the draft nodes of a block matter to the verifier. */
  lemma {:induction false} AcceptanceOfBlock(w: Trial, block: seq<Token>, tokens: seq<Token>, ids: seq<nat>)
    requires w.Valid() && w.IsAcceptance(tokens, ids)
    requires w.nodes <= |block| <= |w.parents| && forall i :: 0 <= i < w.nodes ==> block[i] == w.block[i]
    ensures w.(block := block).Valid() && w.(block := block).IsAcceptance(tokens, ids)
  {
    var v := w.(block := block);
    forall k | 0 < k < |ids| ensures v.Linked(tokens, ids, k) {
      assert w.Linked(tokens, ids, k);
    }
    forall k | 0 <= k < |ids| ensures v.Verified(tokens, ids, k) {
      assert w.Verified(tokens, ids, k);
    }
  }
}
