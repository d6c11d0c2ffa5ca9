/** What every run of the decode loop keeps, and when it has room. */
module SsdFacts {
  import opened Acceptance
  import opened Callback
  import opened Decoding
  import opened DraftTree
  import opened KvCache
  import opened SsdRun
  import opened SsdSpec

  /** Accepted tokens are the next greedy tokens after the root; there are at most as many as levels,
      plus one, and only the last may end the sequence. */
  lemma {:induction false} AcceptedGreedily(spec: Spec, parents: seq<int>, draft: seq<Token>, fed: seq<Token>,
                                            tokens: seq<Token>)
    requires spec.Valid() && IsLayout(spec.branches, parents) && |draft| == NodeCount(spec.branches)
    requires Accepts(spec, parents, draft, fed, tokens)
    ensures 1 <= |tokens| <= |spec.branches| + 1
    ensures forall k :: 0 <= k < |tokens| - 1 ==> tokens[k] !in spec.eos
    ensures fed + [draft[0]] + tokens == Greedy(spec.forward, spec.vocab, fed + [draft[0]], |tokens|)
  {
    var w := TrialOf(spec, parents, draft, fed);
    var ids :| w.IsAcceptance(tokens, ids);
    AcceptedLength(spec.branches, w, tokens, ids);
    AcceptedFacts(w, tokens, ids);
    PathIsGreedy(spec, parents, draft, fed, tokens, ids);
  }

  lemma {:induction false} PathIsGreedy(spec: Spec, parents: seq<int>, draft: seq<Token>, fed: seq<Token>,
                                        tokens: seq<Token>, ids: seq<nat>)
    requires spec.Valid() && IsTree(parents) && 0 < |draft| <= |parents|
    requires TrialOf(spec, parents, draft, fed).IsAcceptedPath(tokens, ids)
    ensures fed + [draft[0]] + tokens == Greedy(spec.forward, spec.vocab, fed + [draft[0]], |tokens|)
  {
    var start := fed + [draft[0]];
    var all := start + tokens;
    forall j {:trigger all[..j]} | |start| <= j < |all|
      ensures all[j] == NextToken(spec.forward, spec.vocab, all[..j])
    {
      PickIsNext(spec, parents, draft, fed, tokens, ids, j - |start|);
      assert all[..j] == fed + ([draft[0]] + tokens[..j - |start|]);
    }
    assert all[..|start|] == start;
    GreedyUnique(spec.forward, spec.vocab, start, all);
  }

  lemma {:induction false} PickIsNext(spec: Spec, parents: seq<int>, draft: seq<Token>, fed: seq<Token>,
                                      tokens: seq<Token>, ids: seq<nat>, k: nat)
    requires spec.Valid() && IsTree(parents) && 0 < |draft| <= |parents|
    requires TrialOf(spec, parents, draft, fed).IsAcceptedPath(tokens, ids) && k < |ids|
    ensures tokens[k] == NextToken(spec.forward, spec.vocab, fed + ([draft[0]] + tokens[..k]))
  {
    var w := TrialOf(spec, parents, draft, fed);
    AcceptedPathTokens(w, tokens, ids, k);
    assert w.Verified(tokens, ids, k);
  }

  /** Verification leaves no freedom. */
  lemma {:induction false} AcceptsOne(spec: Spec, parents: seq<int>, draft: seq<Token>, fed: seq<Token>,
                                      tokens: seq<Token>, tokens': seq<Token>)
    requires spec.Valid() && Accepts(spec, parents, draft, fed, tokens) && Accepts(spec, parents, draft, fed, tokens')
    ensures tokens == tokens'
  {
    var w := TrialOf(spec, parents, draft, fed);
    var ids :| w.IsAcceptance(tokens, ids);
    var ids' :| w.IsAcceptance(tokens', ids');
    AcceptanceUnique(w, tokens, ids, tokens', ids');
  }

  lemma {:induction false} StepFacts(spec: Spec, parents: seq<int>, prefix: seq<Entry>, base: seq<Token>, first: Token,
                                     h: Head, accepted: seq<Token>, next: Head, ending: Ending, maxTokens: int)
    requires spec.Valid() && IsLayout(spec.branches, parents) && HeadHolds(spec, base, first, h)
    requires StepTo(spec, parents, prefix, h, accepted, next, ending, maxTokens)
    ensures spec.Decoded(base, first, next.output) && spec.FedGreedily(base, first, next.fed)
    ensures h.output <= next.output && |next.output| <= |h.output| + |spec.branches| + 1
    ensures ending == GoOn ==> HeadHolds(spec, base, first, next) && |h.output| < |next.output| < maxTokens
    ensures ending == Eos ==> NextToken(spec.forward, spec.vocab, base + next.output) in spec.eos
    ensures ending == TokenLimit || ending == Refused ==> |h.output| < |next.output|
    ensures ending == TokenLimit ==> |next.output| >= maxTokens
    ensures ending in {GoOn, Eos, Refused, TokenLimit, CacheFull}
    ensures ending == CacheFull <==> !Fits(spec, h, accepted)
    ensures CacheFollows(base, next, ending, Unseen(h, accepted, next, ending))
  {
    AcceptedGreedily(spec, parents, h.draft, h.fed, accepted);
    if Fits(spec, h, accepted) {
      DeliversFacts(spec, parents, prefix, base, first, h, accepted, next, ending, maxTokens);
    } else {
      RootIsLast(base, h);
    }
  }

  /** The root is the last output token. */
  lemma {:induction false} RootIsLast(base: seq<Token>, h: Head)
    requires h.draft != [] && h.output != [] && base + h.output == h.fed + [h.draft[0]]
    ensures h.fed + [h.output[|h.output| - 1]] == base + h.output
  {
    assert (h.fed + [h.draft[0]])[|h.fed|] == h.draft[0];
    assert (base + h.output)[|base| + |h.output| - 1] == h.output[|h.output| - 1];
  }

  lemma {:induction false} DeliversFacts(spec: Spec, parents: seq<int>, prefix: seq<Entry>, base: seq<Token>,
                                         first: Token,
                                         h: Head, accepted: seq<Token>, next: Head, ending: Ending, maxTokens: int)
    requires spec.Valid() && HeadHolds(spec, base, first, h) && 1 <= |accepted| <= |spec.branches| + 1
    requires forall k :: 0 <= k < |accepted| - 1 ==> accepted[k] !in spec.eos
    requires h.fed + [h.draft[0]] + accepted
          == Greedy(spec.forward, spec.vocab, h.fed + [h.draft[0]], |accepted|)
    requires Delivers(spec, parents, prefix, h, accepted, next, ending, maxTokens)
    ensures spec.Decoded(base, first, next.output) && spec.FedGreedily(base, first, next.fed)
    ensures h.output <= next.output && |next.output| <= |h.output| + |spec.branches| + 1
    ensures ending == GoOn ==> HeadHolds(spec, base, first, next) && |h.output| < |next.output| < maxTokens
    ensures ending == Eos ==> NextToken(spec.forward, spec.vocab, base + next.output) in spec.eos
    ensures CacheFollows(base, next, ending, Unseen(h, accepted, next, ending))
  {
    DeliversGreedily(spec, parents, prefix, base, first, h, accepted, next, ending, maxTokens);
    DeliversFollows(spec, parents, prefix, base, h, accepted, next, ending, maxTokens);
    if ending == GoOn {
      DeliversHead(spec, parents, prefix, base, first, h, accepted, next, maxTokens);
    }
  }

  lemma {:induction false} DeliversGreedily(spec: Spec, parents: seq<int>, prefix: seq<Entry>, base: seq<Token>,
                                            first: Token, h: Head, accepted: seq<Token>, next: Head, ending: Ending,
                                            maxTokens: int)
    requires spec.Valid() && h.draft != [] && accepted != []
    requires base + h.output == h.fed + [h.draft[0]] && spec.Decoded(base, first, h.output)
    requires h.fed + [h.draft[0]] + accepted
          == Greedy(spec.forward, spec.vocab, h.fed + [h.draft[0]], |accepted|)
    requires Delivers(spec, parents, prefix, h, accepted, next, ending, maxTokens)
    ensures spec.Decoded(base, first, next.output) && spec.FedGreedily(base, first, next.fed)
    ensures ending == Eos ==> NextToken(spec.forward, spec.vocab, base + next.output) in spec.eos
  {
    DeliveryFacts(spec, base, first, h.output, h.draft[0], h.fed, accepted, |next.output| - |h.output|);
  }

  lemma {:induction false} DeliversHead(spec: Spec, parents: seq<int>, prefix: seq<Entry>, base: seq<Token>,
                                        first: Token, h: Head, accepted: seq<Token>, next: Head, maxTokens: int)
    requires spec.Valid() && h.draft != [] && h.output != [] && base + h.output == h.fed + [h.draft[0]]
    requires accepted != [] && Delivers(spec, parents, prefix, h, accepted, next, GoOn, maxTokens)
    requires spec.Decoded(base, first, next.output) && spec.FedGreedily(base, first, next.fed)
    ensures HeadHolds(spec, base, first, next) && |h.output| < |next.output| < maxTokens
  {
    DeliveredFollows(base, h, accepted, next, |accepted|);
  }

  lemma {:induction false} DeliversFollows(spec: Spec, parents: seq<int>, prefix: seq<Entry>, base: seq<Token>,
                                           h: Head, accepted: seq<Token>, next: Head, ending: Ending, maxTokens: int)
    requires spec.Valid() && h.draft != [] && h.output != [] && base + h.output == h.fed + [h.draft[0]]
    requires accepted != [] && Delivers(spec, parents, prefix, h, accepted, next, ending, maxTokens)
    ensures CacheFollows(base, next, ending, Unseen(h, accepted, next, ending))
  {
    DeliveredFollows(base, h, accepted, next, |next.output| - |h.output|);
  }

  lemma {:induction false} DeliveredFollows(base: seq<Token>, h: Head, accepted: seq<Token>, next: Head, n: nat)
    requires h.draft != [] && accepted != [] && h.output != [] && base + h.output == h.fed + [h.draft[0]]
    requires n <= |accepted| && next.output == h.output + accepted[..n] && next.fed == Committed(h, accepted)
    ensures n == |accepted| ==> next.fed + [next.output[|next.output| - 1]] == base + next.output
    ensures n < |accepted| ==> next.fed == base + next.output + accepted[n..][..|accepted| - n - 1]
    ensures n == |accepted| - 1 ==> next.fed == base + next.output
  {
    if n < |accepted| {
      PartFollows(base, h, accepted, n);
      assert n == |accepted| - 1 ==> accepted[n..][..0] == [];
    } else {
      assert accepted == accepted[..n - 1] + [accepted[n - 1]];
      assert next.fed == base + h.output + accepted[..n - 1];
    }
  }

  lemma {:induction false} PartFollows(base: seq<Token>, h: Head, accepted: seq<Token>, n: nat)
    requires h.draft != [] && n < |accepted| && base + h.output == h.fed + [h.draft[0]]
    ensures Committed(h, accepted) == base + (h.output + accepted[..n]) + accepted[n..][..|accepted| - n - 1]
  {
    var m := |accepted| - 1;
    assert accepted[..m] == accepted[..n] + accepted[n..][..m - n];
    assert Committed(h, accepted) == base + h.output + accepted[..m];
  }

  lemma {:induction false} StartHolds(spec: Spec, parents: seq<int>, prefix: seq<Entry>, ctx: seq<Token>, first: Token,
                                      h: Head)
    requires spec.Valid() && IsLayout(spec.branches, parents) && first !in spec.eos
    requires Starts(spec, parents, prefix, ctx, first, h)
    ensures HeadHolds(spec, ctx + [first], first, h)
  {
    StartDecoded(spec, ctx + [first], first);
  }

  lemma {:induction false} HeadGoesOn(spec: Spec, parents: seq<int>, prefix: seq<Entry>, base: seq<Token>,
                                      first: Token, heads: seq<Head>, maxTokens: int, k: nat, h: Head, next: Head)
    requires spec.Valid() && IsLayout(spec.branches, parents) && AllGoOn(spec, parents, prefix, heads, maxTokens)
    requires k + 1 < |heads| && h == heads[k] && next == heads[k + 1] && HeadHolds(spec, base, first, h)
    ensures HeadHolds(spec, base, first, next) && |h.output| < |next.output| < maxTokens
  {
    assert GoesOn(spec, parents, prefix, heads, k, maxTokens);
    StepFacts(spec, parents, prefix, base, first, h, Gained(h, next), next, GoOn, maxTokens);
  }

  /** At every head of the loop the invariant holds, and the output has grown with each iteration
      but is still below the limit. */
  lemma {:induction false} HeadsHold(spec: Spec, parents: seq<int>, prefix: seq<Entry>, base: seq<Token>, first: Token,
                                     heads: seq<Head>, maxTokens: int, k: nat)
    requires spec.Valid() && IsLayout(spec.branches, parents) && AllGoOn(spec, parents, prefix, heads, maxTokens)
    requires HeadHolds(spec, base, first, heads[0]) && |heads[0].output| == 1 && k < |heads|
    ensures HeadHolds(spec, base, first, heads[k])
    ensures k < |heads[k].output| && if k == 0 then |heads[k].output| == 1 else |heads[k].output| < maxTokens
  {
    if k > 0 {
      HeadsHold(spec, parents, prefix, base, first, heads, maxTokens, k - 1);
      HeadGoesOn(spec, parents, prefix, base, first, heads, maxTokens, k - 1, heads[k - 1], heads[k]);
    }
  }

  lemma {:induction false} RunDelivers(spec: Spec, parents: seq<int>, prefix: seq<Entry>, base: seq<Token>,
                                       first: Token,
                                       trace: Trace, ending: Ending, maxTokens: int)
    requires spec.Valid() && IsLayout(spec.branches, parents) && LoopRun(spec, parents, prefix, trace, ending,
                                                                         maxTokens)
    requires HeadHolds(spec, base, first, trace.heads[0]) && |trace.heads[0].output| == 1
    ensures Delivered(spec, base, first, trace, ending, maxTokens)
  {
    var k := |trace.heads| - 1;
    var last := trace.heads[k];
    HeadsHold(spec, parents, prefix, base, first, trace.heads, maxTokens, k);
    if ending == PassLimit {
      PassLimitDelivers(spec, base, first, trace, maxTokens);
    } else {
      StepFacts(spec, parents, prefix, base, first, last, trace.accepted, trace.final, ending, maxTokens);
      LastStepDelivers(spec, base, first, trace, ending, maxTokens);
    }
  }

  lemma {:induction false} PassLimitDelivers(spec: Spec, base: seq<Token>, first: Token, trace: Trace, maxTokens: int)
    requires spec.Valid() && trace.heads != [] && |trace.heads| - 1 == PassLimitOf(maxTokens)
    requires trace.final == trace.heads[|trace.heads| - 1] && HeadHolds(spec, base, first, trace.final)
    requires |trace.heads| <= |trace.final.output|
    requires if |trace.heads| == 1 then |trace.final.output| == 1 else |trace.final.output| < maxTokens
    ensures Delivered(spec, base, first, trace, PassLimit, maxTokens)
  {
    RootIsLast(base, trace.final);
  }

  lemma {:induction false} LastStepDelivers(spec: Spec, base: seq<Token>, first: Token, trace: Trace, ending: Ending,
                                            maxTokens: int)
    requires spec.Valid() && trace.heads != [] && |trace.heads| - 1 < maxTokens
    requires var last, end := trace.heads[|trace.heads| - 1], trace.final;
             && |trace.heads| <= |last.output| <= |end.output| <= |last.output| + |spec.branches| + 1
             && (if |trace.heads| == 1 then |last.output| == 1 else |last.output| < maxTokens)
             && spec.Decoded(base, first, end.output) && spec.FedGreedily(base, first, end.fed)
             && CacheFollows(base, end, ending, Unseen(last, trace.accepted, end, ending))
             && (ending == TokenLimit || ending == Refused ==> |last.output| < |end.output|)
             && (ending == TokenLimit ==> |end.output| >= maxTokens)
             && (ending == Eos ==> NextToken(spec.forward, spec.vocab, base + end.output) in spec.eos)
    requires ending in {Eos, Refused, TokenLimit, CacheFull}
    ensures Delivered(spec, base, first, trace, ending, maxTokens)
  {
  }

  /** Generation is greedy decoding: the first token is the greedy choice after the context, and the
      rest follows the context and two copies of it. */
  lemma {:induction false} OutcomeDelivers(spec: Spec, parents: seq<int>, prefix: seq<Entry>, ctx: seq<Token>,
                                           maxTokens: int, trace: Trace, ending: Ending)
    requires spec.Valid() && ctx != [] && Outcome(spec, parents, prefix, ctx, maxTokens, trace, ending)
    ensures trace.heads != [] ==>
              var first := NextToken(spec.forward, spec.vocab, ctx);
              first !in spec.eos && Delivered(spec, ctx + [first], first, trace, ending, maxTokens)
  {
    if trace.heads != [] {
      var first := NextToken(spec.forward, spec.vocab, ctx);
      StartHolds(spec, parents, prefix, ctx, first, trace.heads[0]);
      RunDelivers(spec, parents, prefix, ctx + [first], first, trace, ending, maxTokens);
    }
  }

  lemma {:induction false} LeftOver(base: seq<Token>, next: Head, ending: Ending, unseen: seq<Token>)
    requires CacheFollows(base, next, ending, unseen)
    ensures |next.fed| > |base + next.output| <==> |unseen| >= 2
  {
    if ending != Eos && unseen == [] {
      assert |next.fed + [next.output[|next.output| - 1]]| == |next.fed| + 1;
    }
  }

  /** The cache keeps tokens the caller never saw exactly if a refusal leaves at least two of the
      accepted tokens undelivered. */
  lemma {:induction false} KeepsUnseenIff(spec: Spec, parents: seq<int>, prefix: seq<Entry>, ctx: seq<Token>,
                                          maxTokens: int, trace: Trace, ending: Ending)
    requires spec.Valid() && ctx != [] && Outcome(spec, parents, prefix, ctx, maxTokens, trace, ending)
    requires trace.heads != []
    ensures var base := ctx + [NextToken(spec.forward, spec.vocab, ctx)];
            var last := trace.heads[|trace.heads| - 1];
            |trace.final.fed| > |base + trace.final.output| <==>
              ending == Refused && |trace.final.output| + 2 <= |last.output| + |trace.accepted|
  {
    OutcomeDelivers(spec, parents, prefix, ctx, maxTokens, trace, ending);
    if ending == Refused {
      RefusedWithin(spec, parents, prefix, trace, maxTokens);
    }
    KeptUnseen(ctx + [NextToken(spec.forward, spec.vocab, ctx)], trace, ending);
  }

  lemma {:induction false} KeptUnseen(base: seq<Token>, trace: Trace, ending: Ending)
    requires trace.heads != [] && CacheFollows(base, trace.final, ending, Withheld(trace, ending))
    requires ending == Refused ==>
               var n := |trace.final.output| - |trace.heads[|trace.heads| - 1].output|; 0 <= n <= |trace.accepted|
    ensures var last := trace.heads[|trace.heads| - 1];
            |trace.final.fed| > |base + trace.final.output| <==>
              ending == Refused && |trace.final.output| + 2 <= |last.output| + |trace.accepted|
  {
    LeftOver(base, trace.final, ending, Withheld(trace, ending));
  }

  lemma {:induction false} RefusedWithin(spec: Spec, parents: seq<int>, prefix: seq<Entry>, trace: Trace,
                                         maxTokens: int)
    requires spec.Valid() && LoopRun(spec, parents, prefix, trace, Refused, maxTokens)
    ensures var n := |trace.final.output| - |trace.heads[|trace.heads| - 1].output|; 0 <= n <= |trace.accepted|
  {
  }

  /** The last time the loop was entered. */
  lemma {:induction false} LastHead(spec: Spec, parents: seq<int>, prefix: seq<Entry>, ctx: seq<Token>,
                                    maxTokens: int, trace: Trace, ending: Ending) returns (last: Head)
    requires spec.Valid() && ctx != [] && Outcome(spec, parents, prefix, ctx, maxTokens, trace, ending)
    requires trace.heads != []
    ensures last == trace.heads[|trace.heads| - 1] && |last.fed| == |ctx| + |last.output|
    ensures |last.draft| == NodeCount(spec.branches)
    ensures if |trace.heads| == 1 then |last.output| == 1 else 1 < |last.output| < maxTokens
  {
    var first := NextToken(spec.forward, spec.vocab, ctx);
    var k := |trace.heads| - 1;
    last := trace.heads[k];
    StartHolds(spec, parents, prefix, ctx, first, trace.heads[0]);
    HeadsHold(spec, parents, prefix, ctx + [first], first, trace.heads, maxTokens, k);
    OneMoreFed(ctx, first, last);
  }

  lemma {:induction false} OneMoreFed(ctx: seq<Token>, first: Token, h: Head)
    requires h.draft != [] && ctx + [first] + h.output == h.fed + [h.draft[0]]
    ensures |h.fed| == |ctx| + |h.output|
  {
    assert |ctx + [first] + h.output| == |h.fed + [h.draft[0]]|;
  }

  /** How much a call can feed. */
  lemma {:induction false} FedAtMost(spec: Spec, parents: seq<int>, prefix: seq<Entry>, ctx: seq<Token>,
                                     maxTokens: int, trace: Trace, ending: Ending)
    requires spec.Valid() && ctx != [] && Outcome(spec, parents, prefix, ctx, maxTokens, trace, ending)
    requires spec.fp + |ctx| <= spec.PrefillKv()
    ensures |trace.final.fed| <= |ctx| + Ahead(|spec.branches|, maxTokens)
  {
    if trace.heads != [] {
      var last := LastHead(spec, parents, prefix, ctx, maxTokens, trace, ending);
      if ending != PassLimit {
        StepFeeds(spec, parents, prefix, last, trace.accepted, trace.final, ending, maxTokens);
      }
    }
  }

  lemma {:induction false} StepFeeds(spec: Spec, parents: seq<int>, prefix: seq<Entry>, h: Head, accepted: seq<Token>,
                                     next: Head, ending: Ending, maxTokens: int)
    requires spec.Valid() && IsLayout(spec.branches, parents) && |h.draft| == NodeCount(spec.branches)
    requires StepTo(spec, parents, prefix, h, accepted, next, ending, maxTokens)
    ensures |next.fed| <= |h.fed| + |spec.branches| + 1
  {
    AcceptedGreedily(spec, parents, h.draft, h.fed, accepted);
  }

  /** With room at both strides, the cache is as good for the next call. */
  lemma {:induction false} RoomKeepsAll(spec: Spec, parents: seq<int>, prefix: seq<Entry>, ctx: seq<Token>,
                                        maxTokens: int, trace: Trace, ending: Ending)
    requires spec.Valid() && ctx != [] && Outcome(spec, parents, prefix, ctx, maxTokens, trace, ending)
    requires RoomyAfter(spec, |ctx|, maxTokens)
    ensures KeepsAll(spec, trace, ending)
  {
    RoomSuffices(spec, parents, prefix, ctx, maxTokens, trace, ending);
    FedAtMost(spec, parents, prefix, ctx, maxTokens, trace, ending);
  }

  /** With room for the whole call, no pass overflows the cache. */
  lemma {:induction false} RoomSuffices(spec: Spec, parents: seq<int>, prefix: seq<Entry>, ctx: seq<Token>,
                                        maxTokens: int, trace: Trace, ending: Ending)
    requires spec.Valid() && ctx != [] && Outcome(spec, parents, prefix, ctx, maxTokens, trace, ending)
    requires Roomy(spec, |ctx|, maxTokens)
    ensures ending != CacheFull
  {
    if trace.heads != [] && ending != PassLimit {
      var last := LastHead(spec, parents, prefix, ctx, maxTokens, trace, ending);
      AcceptedGreedily(spec, parents, last.draft, last.fed, trace.accepted);
    }
  }

  /** What a call promises. */
  lemma {:induction false} CallFacts(spec: Spec, parents: seq<int>, prefix: seq<Entry>, ctx: seq<Token>,
                                     maxTokens: int, trace: Trace, ending: Ending)
    requires spec.Valid() && ctx != [] && Outcome(spec, parents, prefix, ctx, maxTokens, trace, ending)
    ensures trace.heads != [] ==>
              var first := NextToken(spec.forward, spec.vocab, ctx);
              first !in spec.eos && Delivered(spec, ctx + [first], first, trace, ending, maxTokens)
    ensures Roomy(spec, |ctx|, maxTokens) ==> ending != CacheFull
    ensures RoomyAfter(spec, |ctx|, maxTokens) ==> KeepsAll(spec, trace, ending)
  {
    OutcomeDelivers(spec, parents, prefix, ctx, maxTokens, trace, ending);
    if Roomy(spec, |ctx|, maxTokens) {
      RoomSuffices(spec, parents, prefix, ctx, maxTokens, trace, ending);
    }
    if RoomyAfter(spec, |ctx|, maxTokens) {
      RoomKeepsAll(spec, parents, prefix, ctx, maxTokens, trace, ending);
    }
  }
}
