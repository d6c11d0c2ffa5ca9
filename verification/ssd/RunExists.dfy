/** Every step of generation can be taken: drafts, acceptances and whole runs exist. */
module RunExists {
  import opened Acceptance
  import opened Callback
  import opened Decoding
  import opened DraftTree
  import opened FirstDraft
  import opened Forecast
  import opened KvCache
  import opened Sampling
  import opened SsdFacts
  import opened SsdRun
  import opened SsdSpec

  // ----- drafts -----

  /** The best token that is not among the first `n` samples. */
  lemma {:induction false} BestOther(row: seq<real>, s: seq<Token>, n: nat) returns (t: Token)
    requires n <= |row| && exists u :: 0 <= u < n && u !in s
    ensures 0 <= t < n && t !in s
    ensures forall u {:trigger u in s} :: 0 <= u < n && u !in s ==> row[t] >= row[u]
  {
    var u :| 0 <= u < n && u !in s;
    if exists v :: 0 <= v < n - 1 && v !in s {
      t := BestOther(row, s, n - 1);
      if n - 1 !in s && row[n - 1] > row[t] {
        t := n - 1;
      }
    } else {
      t := n - 1;
    }
  }

  lemma {:induction false} TopKExists(row: seq<real>, k: nat) returns (s: seq<Token>)
    requires k <= |row|
    ensures IsTopK(row, k, s)
  {
    if k == 0 {
      s := [];
    } else {
      var before := TopKExists(row, k - 1);
      if forall u :: 0 <= u < |row| ==> u in before {
        Pigeonhole(before, |row|);
      }
      var t := BestOther(row, before, |row|);
      s := before + [t];
      forall i, j | 0 <= i < j < k ensures s[i] != s[j] && row[s[i]] >= row[s[j]] {
        if j == k - 1 {
          assert before[i] in before;
          if i < k - 2 { assert row[before[i]] >= row[before[k - 2]]; }
        }
      }
    }
  }

  lemma {:induction false} TopsExist(branches: seq<nat>, rows: seq<seq<real>>, n: nat) returns (tops: seq<seq<Token>>)
    requires n <= |branches| <= |rows| && forall d :: 0 <= d < |branches| ==> branches[d] + 1 <= |rows[d]|
    ensures |tops| == n && forall d :: 0 <= d < n ==> IsTopK(rows[d], branches[d] + 1, tops[d])
  {
    if n == 0 {
      tops := [];
    } else {
      var before := TopsExist(branches, rows, n - 1);
      var top := TopKExists(rows[n - 1], branches[n - 1] + 1);
      tops := before + [top];
    }
  }

  /** Slot `i` is drafted, whichever way its level and offset are written. */
  ghost predicate SlotDrafted(branches: seq<nat>, parents: seq<int>, tops: seq<seq<Token>>, tree: seq<Token>, i: nat)
    requires |tops| == |branches|
  {
    forall d, off {:trigger NodeDrafted(branches, parents, tree, d, tops[d], off)} ::
      0 <= d < |branches| && 0 <= off < LevelSize(branches, d + 1) && LevelStart(branches, d + 1) + off == i ==>
        NodeDrafted(branches, parents, tree, d, tops[d], off)
  }

  lemma {:induction false} SlotKept(branches: seq<nat>, parents: seq<int>, tops: seq<seq<Token>>, tree: seq<Token>,
                                    longer: seq<Token>, i: nat)
    requires |tops| == |branches| && tree <= longer && i < |tree| && SlotDrafted(branches, parents, tops, tree, i)
    ensures SlotDrafted(branches, parents, tops, longer, i)
  {
    forall d, off {:trigger NodeDrafted(branches, parents, longer, d, tops[d], off)} |
      0 <= d < |branches| && 0 <= off < LevelSize(branches, d + 1) && LevelStart(branches, d + 1) + off == i
      ensures NodeDrafted(branches, parents, longer, d, tops[d], off)
    {
      assert NodeDrafted(branches, parents, tree, d, tops[d], off);
    }
  }

  lemma {:induction false} NextSlot(branches: seq<nat>, parents: seq<int>, tops: seq<seq<Token>>, tree: seq<Token>)
      returns (t: Token)
    requires GoodBranches(branches) && IsLayout(branches, parents) && |tops| == |branches|
    requires forall d :: 0 <= d < |branches| ==> |tops[d]| == branches[d] + 1
    requires 0 < |tree| < NodeCount(branches)
    ensures SlotDrafted(branches, parents, tops, tree + [t], |tree|)
  {
    var i := |tree|;
    var d, off := DraftParent(branches, parents, i);
    t := NthOther(tops[d], tree[parents[i]], off % branches[d]);
    var longer := tree + [t];
    forall e, x {:trigger NodeDrafted(branches, parents, longer, e, tops[e], x)} |
      0 <= e < |branches| && 0 <= x < LevelSize(branches, e + 1) && LevelStart(branches, e + 1) + x == i
      ensures NodeDrafted(branches, parents, longer, e, tops[e], x)
    {
      LevelUnique(branches, d + 1, off, e + 1, x);
    }
  }

  lemma {:induction false} TreeExists(branches: seq<nat>, parents: seq<int>, tops: seq<seq<Token>>, last: Token, n: nat)
      returns (tree: seq<Token>)
    requires GoodBranches(branches) && IsLayout(branches, parents) && |tops| == |branches|
    requires forall d :: 0 <= d < |branches| ==> |tops[d]| == branches[d] + 1
    requires 0 < n <= NodeCount(branches)
    ensures |tree| == n && tree[0] == last
    ensures forall i :: 0 < i < n ==> SlotDrafted(branches, parents, tops, tree, i)
  {
    if n == 1 {
      tree := [last];
    } else {
      var before := TreeExists(branches, parents, tops, last, n - 1);
      var t := NextSlot(branches, parents, tops, before);
      tree := before + [t];
      forall i | 0 < i < n ensures SlotDrafted(branches, parents, tops, tree, i) {
        if i < n - 1 {
          SlotKept(branches, parents, tops, before, tree, i);
        }
      }
    }
  }

  /** From any forecast rows and root, a draft can be filled. */
  lemma {:induction false} DraftExists(branches: seq<nat>, parents: seq<int>, rows: seq<seq<real>>, last: Token)
      returns (tops: seq<seq<Token>>, tree: seq<Token>)
    requires GoodBranches(branches) && IsLayout(branches, parents) && |rows| == |branches|
    requires forall d :: 0 <= d < |branches| ==> branches[d] + 1 <= |rows[d]|
    ensures IsDraft(branches, parents, rows, tops, last, tree)
  {
    tops := TopsExist(branches, rows, |branches|);
    LevelStartMonotone(branches, 1, |branches| + 1);
    tree := TreeExists(branches, parents, tops, last, NodeCount(branches));
    BlockFits(branches);
    SlotsCoverNodes(branches);
    forall d | 0 <= d < |branches|
      ensures LevelDrafted(branches, parents, tree, d, tops[d], LevelSize(branches, d + 1))
    {
      forall off | 0 <= off < LevelSize(branches, d + 1)
        ensures NodeDrafted(branches, parents, tree, d, tops[d], off)
      {
        LevelStartMonotone(branches, 1, d + 1);
        LevelStartMonotone(branches, d + 2, |branches| + 1);
        assert SlotDrafted(branches, parents, tops, tree, LevelStart(branches, d + 1) + off);
      }
    }
  }

  lemma {:induction false} SlotsCoverNodes(branches: seq<nat>)
    ensures NodeCount(branches) <= SlotCount(branches)
  {
  }

  // ----- acceptances -----

  /** Greedy verification always accepts something. */
  lemma {:induction false} AcceptanceExists(w: Trial) returns (tokens: seq<Token>, ids: seq<nat>)
    requires w.Valid()
    ensures w.IsAcceptance(tokens, ids)
  {
    tokens, ids := [w.picks[0]], [0];
    var cur := 1;
    while cur < w.nodes && tokens[|ids| - 1] !in w.eos
      invariant 0 < cur <= w.nodes && w.IsAcceptedPath(tokens, ids) && ids[|ids| - 1] < cur
      invariant tokens[|ids| - 1] in w.eos || w.NoMatch(ids[|ids| - 1], tokens[|ids| - 1], ids[|ids| - 1], cur)
    {
      var last := |ids| - 1;
      if w.parents[cur] == ids[last] && w.block[cur] == tokens[last] {
        ExtendAccepted(w, tokens, ids, w.picks[cur], cur);
        tokens, ids := tokens + [w.picks[cur]], ids + [cur];
      }
      cur := cur + 1;
    }
  }

  lemma {:induction false} AcceptsSome(spec: Spec, parents: seq<int>, draft: seq<Token>, fed: seq<Token>)
      returns (tokens: seq<Token>)
    requires spec.Valid() && IsTree(parents) && 0 < |draft| <= |parents|
    ensures tokens != [] && Accepts(spec, parents, draft, fed, tokens)
  {
    var ids;
    tokens, ids := AcceptanceExists(TrialOf(spec, parents, draft, fed));
  }

  // ----- runs -----

  lemma {:induction false} RowsAreWide(spec: Spec, prefix: seq<Entry>, fed: seq<Token>)
    requires spec.Valid()
    ensures forall d :: 0 <= d < |spec.branches| ==> spec.branches[d] + 1 <= |spec.RowsForetold(prefix, fed)[d]|
  {
    forall d | 0 <= d < |spec.branches| ensures |spec.RowsForetold(prefix, fed)[d]| == spec.vocab {
      ForetoldWide(spec.forward, prefix, fed, spec.vocab, d, |spec.branches|);
    }
  }

  lemma {:induction false} ForetoldWide<E(!new)>(f: Forward<E>, prefix: seq<E>, ctx: seq<Token>, vocab: nat, d: nat,
                                                 n: nat)
    requires d < n && HasVocab(f, vocab)
    ensures |Foretold(f, prefix, ctx, vocab, n)[d].logits| == vocab
  {
    if d < n - 1 {
      ForetoldWide(f, prefix, ctx, vocab, d, n - 1);
    } else {
      var before := Foretold(f, prefix, ctx, vocab, n - 1);
      RowHasVocab(f, vocab, prefix + Entries(f, ctx) + Kvs(before), vocab + d, |ctx| + d);
    }
  }

  /** From any head an iteration can be made that nobody refuses. */
  lemma {:induction false} StepExists(spec: Spec, parents: seq<int>, prefix: seq<Entry>, h: Head, maxTokens: int)
      returns (accepted: seq<Token>, next: Head, ending: Ending)
    requires spec.Valid() && IsLayout(spec.branches, parents) && |h.draft| == NodeCount(spec.branches)
    ensures StepTo(spec, parents, prefix, h, accepted, next, ending, maxTokens)
    ensures ending in {GoOn, Eos, TokenLimit, CacheFull}
    ensures ending == GoOn ==> |next.draft| == NodeCount(spec.branches)
  {
    LayoutIsTree(spec.branches, parents);
    BlockFits(spec.branches);
    SlotsCoverNodes(spec.branches);
    accepted := AcceptsSome(spec, parents, h.draft, h.fed);
    AcceptedGreedily(spec, parents, h.draft, h.fed, accepted);
    var m := |accepted|;
    var fed := Committed(h, accepted);
    if !Fits(spec, h, accepted) {
      next, ending := h, CacheFull;
    } else if accepted[m - 1] in spec.eos {
      next, ending := Head(h.output + accepted[..m - 1], h.draft, fed), Eos;
    } else if |h.output + accepted| >= maxTokens {
      assert accepted[..m] == accepted;
      next, ending := Head(h.output + accepted, h.draft, fed), TokenLimit;
    } else {
      var draft := RedraftExists(spec, parents, prefix, fed, accepted[m - 1]);
      assert accepted[..m] == accepted;
      next, ending := Head(h.output + accepted, draft, fed), GoOn;
    }
  }

  lemma {:induction false} RedraftExists(spec: Spec, parents: seq<int>, prefix: seq<Entry>, fed: seq<Token>,
                                         root: Token) returns (draft: seq<Token>)
    requires spec.Valid() && IsLayout(spec.branches, parents)
    ensures |draft| == NodeCount(spec.branches) && draft != [] && draft[0] == root
    ensures spec.DraftedOn(parents, prefix, fed, draft)
  {
    LayoutIsTree(spec.branches, parents);
    BlockFits(spec.branches);
    SlotsCoverNodes(spec.branches);
    RowsAreWide(spec, prefix, fed);
    var tops;
    tops, draft := DraftExists(spec.branches, parents, spec.RowsForetold(prefix, fed), root);
  }

  lemma {:induction false} RunExists(spec: Spec, parents: seq<int>, prefix: seq<Entry>, heads: seq<Head>,
                                     maxTokens: int)
      returns (trace: Trace, ending: Ending)
    requires spec.Valid() && IsLayout(spec.branches, parents) && AllGoOn(spec, parents, prefix, heads, maxTokens)
    requires |heads[|heads| - 1].draft| == NodeCount(spec.branches)
    ensures LoopRun(spec, parents, prefix, trace, ending, maxTokens) && trace.heads[0] == heads[0] && ending != Refused
    decreases PassLimitOf(maxTokens) - |heads|
  {
    var last := heads[|heads| - 1];
    if |heads| - 1 == PassLimitOf(maxTokens) {
      trace, ending := Trace(heads, [], last), PassLimit;
    } else {
      var accepted, next;
      accepted, next, ending := StepExists(spec, parents, prefix, last, maxTokens);
      if ending == GoOn {
        Longer(spec, parents, prefix, heads, accepted, next, maxTokens);
        trace, ending := RunExists(spec, parents, prefix, heads + [next], maxTokens);
      } else {
        trace := Trace(heads, accepted, next);
      }
    }
  }

  lemma {:induction false} StartExists(spec: Spec, parents: seq<int>, prefix: seq<Entry>, ctx: seq<Token>, first: Token)
      returns (h: Head)
    requires spec.Valid() && IsLayout(spec.branches, parents)
    ensures Starts(spec, parents, prefix, ctx, first, h) && |h.draft| == NodeCount(spec.branches)
  {
    LayoutIsTree(spec.branches, parents);
    BlockFits(spec.branches);
    var n := |spec.branches|;
    var outs := RootedExist(spec.forward, prefix, ctx, parents, FirstBlock(spec, first), n + 1);
    forall d | 0 <= d < n ensures |FirstRows(n, outs)[d]| == spec.vocab {
      RootedWide(spec.forward, spec.vocab, prefix, ctx, parents, FirstBlock(spec, first), outs, d + 1);
    }
    var tops, draft := DraftExists(spec.branches, parents, FirstRows(n, outs), first);
    h := Head([first], draft, ctx + [first]);
  }

  lemma {:induction false} RootedWide<E(!new)>(f: Forward<E>, vocab: nat, prefix: seq<E>, ctx: seq<Token>,
                                               parents: seq<int>, tokens: seq<Token>, outs: seq<Out<E>>, i: nat)
    requires HasVocab(f, vocab) && AreRooted(f, prefix, ctx, parents, tokens, outs) && i < |outs|
    ensures |outs[i].logits| == vocab
  {
    var seen, pos := RootedSeen(f, prefix, ctx, parents, outs[..i]), RootedPos(ctx, parents, i);
    assert RootedAt(f, prefix, ctx, parents, tokens, outs, i);
    RowHasVocab(f, vocab, seen, tokens[i], pos);
  }

  /** Whatever the context, generation has an outcome that nobody refused. */
  lemma {:induction false} OutcomeExists(spec: Spec, parents: seq<int>, prefix: seq<Entry>, ctx: seq<Token>,
                                         maxTokens: int) returns (trace: Trace, ending: Ending)
    requires spec.Valid() && ctx != [] && IsLayout(spec.branches, parents)
    ensures Outcome(spec, parents, prefix, ctx, maxTokens, trace, ending) && ending != Refused
  {
    var first := NextToken(spec.forward, spec.vocab, ctx);
    trace := Trace([], [], Head([], [], ctx));
    if spec.fp + |ctx| > spec.PrefillKv() {
      ending := CacheFull;
    } else if first in spec.eos {
      ending := FirstIsEos;
    } else if spec.fp + |ctx| + 1 > spec.DecodeKv() {
      trace, ending := Trace([], [], Head([first], [], ctx)), CacheFull;
    } else {
      var h := StartExists(spec, parents, prefix, ctx, first);
      trace, ending := RunExists(spec, parents, prefix, [h], maxTokens);
    }
  }
}
