/** Exact conditions under which expectations about the generation loop hold. */
module Findings {
  import opened Callback
  import opened Decoding
  import opened DraftTree
  import opened KvCache
  import opened Overflow
  import opened RunExists
  import opened SsdFacts
  import opened SsdRun
  import opened SsdSpec

  // ----- room in the cache -----

  /** No model of the given sizes ever fills the cache up exactly if there is room for the whole call.
      The loop's own guard is no help: it admits every pass that starts within the cache, and the loop
      of the model never ends with `ContextLimit`. */
  lemma {:induction false} NeverFullIff(spec: Spec, parents: seq<int>, prefix: seq<Entry>, ctx: seq<Token>,
                                        maxTokens: int)
    requires spec.Valid() && ctx != [] && IsLayout(spec.branches, parents)
    ensures (forall f: Forward<Entry>, eos: set<Token>, trace: Trace, ending: Ending ::
               spec.(forward := f, eos := eos).Valid()
               && Outcome(spec.(forward := f, eos := eos), parents, prefix, ctx, maxTokens, trace, ending) ==>
                 ending != CacheFull)
       <==> Roomy(spec, |ctx|, maxTokens)
  {
    if Roomy(spec, |ctx|, maxTokens) {
      forall f: Forward<Entry>, eos: set<Token>, trace: Trace, ending: Ending
        | spec.(forward := f, eos := eos).Valid()
          && Outcome(spec.(forward := f, eos := eos), parents, prefix, ctx, maxTokens, trace, ending)
        ensures ending != CacheFull
      {
        RoomSuffices(spec.(forward := f, eos := eos), parents, prefix, ctx, maxTokens, trace, ending);
      }
    } else {
      var e := spec.forward([], 0, 0).kv;
      TrapIsSpec(spec, e, |ctx|, maxTokens);
      var f := Trap(e, spec.vocab, |ctx|, |ctx| + 1 + Slack(maxTokens));
      var trap := spec.(forward := f, eos := {});
      var trace, ending := OutcomeExists(trap, parents, prefix, ctx, maxTokens);
      TrapOverflows(trap, e, parents, prefix, ctx, maxTokens, trace, ending);
    }
  }

  /** Every call leaves the cache whole, whatever the model of the given sizes, exactly if there is room
      at both strides. */
  lemma {:induction false} KeepsAllIff(spec: Spec, parents: seq<int>, prefix: seq<Entry>, ctx: seq<Token>,
                                       maxTokens: int)
    requires spec.Valid() && ctx != [] && IsLayout(spec.branches, parents)
    ensures (forall f: Forward<Entry>, eos: set<Token>, trace: Trace, ending: Ending ::
               spec.(forward := f, eos := eos).Valid()
               && Outcome(spec.(forward := f, eos := eos), parents, prefix, ctx, maxTokens, trace, ending) ==>
                 KeepsAll(spec.(forward := f, eos := eos), trace, ending))
       <==> RoomyAfter(spec, |ctx|, maxTokens)
  {
    if RoomyAfter(spec, |ctx|, maxTokens) {
      forall f: Forward<Entry>, eos: set<Token>, trace: Trace, ending: Ending
        | spec.(forward := f, eos := eos).Valid()
          && Outcome(spec.(forward := f, eos := eos), parents, prefix, ctx, maxTokens, trace, ending)
        ensures KeepsAll(spec.(forward := f, eos := eos), trace, ending)
      {
        RoomKeepsAll(spec.(forward := f, eos := eos), parents, prefix, ctx, maxTokens, trace, ending);
      }
    } else {
      var f, trace, ending := TrapLoses(spec, parents, prefix, ctx, maxTokens);
    }
  }

  /** Otherwise the trap loses a column. */
  lemma {:induction false} TrapLoses(spec: Spec, parents: seq<int>, prefix: seq<Entry>, ctx: seq<Token>, maxTokens: int)
      returns (f: Forward<Entry>, trace: Trace, ending: Ending)
    requires spec.Valid() && ctx != [] && IsLayout(spec.branches, parents) && !RoomyAfter(spec, |ctx|, maxTokens)
    ensures spec.(forward := f, eos := {}).Valid()
    ensures Outcome(spec.(forward := f, eos := {}), parents, prefix, ctx, maxTokens, trace, ending)
    ensures !KeepsAll(spec.(forward := f, eos := {}), trace, ending)
  {
    var e := spec.forward([], 0, 0).kv;
    TrapIsSpec(spec, e, |ctx|, maxTokens);
    f := Trap(e, spec.vocab, |ctx|, |ctx| + 1 + Slack(maxTokens));
    var trap := spec.(forward := f, eos := {});
    trace, ending := OutcomeExists(trap, parents, prefix, ctx, maxTokens);
    if Roomy(spec, |ctx|, maxTokens) {
      TrapFeedsAll(trap, e, parents, prefix, ctx, maxTokens, trace, ending);
    } else {
      TrapOverflows(trap, e, parents, prefix, ctx, maxTokens, trace, ending);
    }
  }

  // ----- the first token is fed twice -----

  /** The first `n` tokens that plain greedy decoding appends to a prompt. */
  ghost function Plain<E(!new)>(f: Forward<E>, vocab: nat, ctx: seq<Token>, n: nat): (ts: seq<Token>)
    requires ctx != [] && 0 < vocab && HasVocab(f, vocab)
  {
    Greedy(f, vocab, ctx, n)[|ctx|..]
  }

  /** The first `n` tokens of self-speculative generation: its first token goes into the cache
      once by itself and once more as the root of the first draft. */
  ghost function Replayed<E(!new)>(f: Forward<E>, vocab: nat, ctx: seq<Token>, n: nat): (ts: seq<Token>)
    requires ctx != [] && 0 < vocab && HasVocab(f, vocab)
  {
    if n == 0 then [] else
      var first := NextToken(f, vocab, ctx);
      [first] + Greedy(f, vocab, ctx + [first, first], n - 1)[|ctx| + 2..]
  }

  lemma {:induction false} GreedyOne<E(!new)>(f: Forward<E>, vocab: nat, ctx: seq<Token>, n: nat)
    requires ctx != [] && 0 < vocab && HasVocab(f, vocab) && 0 < n
    ensures Greedy(f, vocab, ctx, n)[|ctx|] == NextToken(f, vocab, ctx)
  {
    var next := Choice(f, vocab);
    RolloutPrefix(next, ctx, 1, n);
    assert Rollout(next, ctx, 1) == Rollout(next, ctx, 0) + [next(ctx)];
    assert Rollout(next, ctx, 1)[|ctx|] == Rollout(next, ctx, n)[|ctx|];
  }

  lemma {:induction false} GreedyTwo<E(!new)>(f: Forward<E>, vocab: nat, ctx: seq<Token>, n: nat)
    requires ctx != [] && 0 < vocab && HasVocab(f, vocab) && 1 < n
    ensures Greedy(f, vocab, ctx, n)[|ctx| + 1] == NextToken(f, vocab, ctx + [NextToken(f, vocab, ctx)])
  {
    var next := Choice(f, vocab);
    RolloutPrefix(next, ctx, 2, n);
    assert Rollout(next, ctx, 1) == ctx + [next(ctx)];
    assert Rollout(next, ctx, 2) == Rollout(next, ctx, 1) + [next(Rollout(next, ctx, 1))];
    assert Rollout(next, ctx, 2)[|ctx| + 1] == Rollout(next, ctx, n)[|ctx| + 1];
  }

  /** What generation returns is the replayed continuation, for as many tokens as it returns. */
  lemma {:induction false} OutcomeIsReplayed(spec: Spec, parents: seq<int>, prefix: seq<Entry>, ctx: seq<Token>,
                                             maxTokens: int, trace: Trace, ending: Ending)
    requires spec.Valid() && ctx != [] && Outcome(spec, parents, prefix, ctx, maxTokens, trace, ending)
    ensures trace.final.output == Replayed(spec.forward, spec.vocab, ctx, |trace.final.output|)
  {
    var first, output := NextToken(spec.forward, spec.vocab, ctx), trace.final.output;
    if trace.heads != [] {
      OutcomeDelivers(spec, parents, prefix, ctx, maxTokens, trace, ending);
      DecodedIsReplayed(spec, ctx, first, output);
    } else if output != [] {
      assert Greedy(spec.forward, spec.vocab, ctx + [first, first], 0)[|ctx| + 2..] == [];
    }
  }

  lemma {:induction false} DecodedIsReplayed(spec: Spec, ctx: seq<Token>, first: Token, output: seq<Token>)
    requires spec.Valid() && ctx != [] && first == NextToken(spec.forward, spec.vocab, ctx)
    requires spec.Decoded(ctx + [first], first, output)
    ensures output == Replayed(spec.forward, spec.vocab, ctx, |output|)
  {
    assert ctx + [first] + [first] == ctx + [first, first];
    assert (ctx + [first] + output)[|ctx| + 2..] == output[1..];
    assert output == [first] + output[1..];
  }

  /** One token is the same either way. */
  lemma {:induction false} ShortIsPlain<E(!new)>(f: Forward<E>, vocab: nat, ctx: seq<Token>, n: nat)
    requires ctx != [] && 0 < vocab && HasVocab(f, vocab) && n <= 1
    ensures Replayed(f, vocab, ctx, n) == Plain(f, vocab, ctx, n)
  {
    if n == 1 {
      GreedyOne(f, vocab, ctx, 1);
    }
  }

  /** Generation reaches a pass and one more column fits. */
  predicate ReachesPass(spec: Spec, n: nat, maxTokens: int)
    requires spec.seqLenPrefill <= spec.contextLength && spec.seqLenDecode <= spec.contextLength
  {
    1 <= maxTokens && spec.fp + n <= spec.PrefillKv() && spec.fp + n + 2 <= spec.DecodeKv()
  }

  lemma {:induction false} FirstStepFits(spec: Spec, parents: seq<int>, prefix: seq<Entry>, heads: seq<Head>,
                                         maxTokens: int)
    requires spec.Valid() && AllGoOn(spec, parents, prefix, heads, maxTokens) && |heads| > 1
    ensures spec.fp + |heads[0].fed| + 1 <= spec.DecodeKv()
  {
    assert GoesOn(spec, parents, prefix, heads, 0, maxTokens);
  }

  lemma {:induction false} NoPassNoSecond(spec: Spec, parents: seq<int>, prefix: seq<Entry>, ctx: seq<Token>,
                                          maxTokens: int, trace: Trace, ending: Ending)
    requires spec.Valid() && ctx != [] && Outcome(spec, parents, prefix, ctx, maxTokens, trace, ending)
    requires !ReachesPass(spec, |ctx|, maxTokens)
    ensures |trace.final.output| <= 1
  {
    if |trace.heads| > 1 {
      FirstStepFits(spec, parents, prefix, trace.heads, maxTokens);
    }
  }

  /** A model that prefers token 1 at position `p` and token 0 elsewhere. */
  function Blip<E>(e: E, vocab: nat, p: int): Forward<E>
    requires 2 <= vocab
  {
    (seen, t, pos) => Out(e, if pos == p then OneHot(vocab, 1) else OneHot(vocab, 0))
  }

  lemma {:induction false} BlipPicks<E(!new)>(e: E, vocab: nat, p: int, ctx: seq<Token>)
    requires 2 <= vocab && ctx != []
    ensures HasVocab(Blip(e, vocab, p), vocab)
    ensures NextToken(Blip(e, vocab, p), vocab, ctx) == if |ctx| - 1 == p then 1 else 0
  {
    var f := Blip(e, vocab, p);
    forall seen: seq<E>, t: Token, pos: int ensures |f(seen, t, pos).logits| == vocab {
      assert f(seen, t, pos).logits == if pos == p then OneHot(vocab, 1) else OneHot(vocab, 0);
    }
    var k := if |ctx| - 1 == p then 1 else 0;
    assert Feed(f, ctx).logits == OneHot(vocab, k);
    OneHotPicks(vocab, k);
  }

  lemma {:induction false} BlipIsSpec(spec: Spec, e: Entry, p: int)
    requires spec.Valid() && e == spec.forward([], 0, 0).kv
    ensures 2 <= spec.vocab && spec.(forward := Blip(e, spec.vocab, p), eos := {}).Valid()
  {
    assert spec.branches[0] + 1 <= spec.vocab;
    BlipPicks(e, spec.vocab, p, [0]);
    EntryWellShaped(spec.forward, spec.shapes, [], 0, 0);
    var f := Blip(e, spec.vocab, p);
    forall seen: seq<Entry>, t: Token, pos: int ensures EntryFits(spec.shapes, f(seen, t, pos).kv) {
      assert f(seen, t, pos).kv == e;
    }
  }

  /** The first pass of that model accepts exactly one token. */
  lemma {:induction false} BlipDelivers(spec: Spec, e: Entry, parents: seq<int>, prefix: seq<Entry>, ctx: seq<Token>,
                                        maxTokens: int, trace: Trace, ending: Ending)
    requires spec.Valid() && 2 <= spec.vocab && ctx != [] && ReachesPass(spec, |ctx|, maxTokens)
    requires spec.forward == Blip(e, spec.vocab, |ctx|) && spec.eos == {}
    requires Outcome(spec, parents, prefix, ctx, maxTokens, trace, ending) && ending != Refused
    ensures |trace.final.output| >= 2
  {
    BlipPicks(e, spec.vocab, |ctx|, ctx);
    OutcomeDelivers(spec, parents, prefix, ctx, maxTokens, trace, ending);
    OneOrMore(spec, ctx + [0], trace, ending, maxTokens);
    if ending == CacheFull && |trace.heads| == 1 {
      BlipAcceptsOne(spec, e, parents, prefix, ctx, trace.heads[0], trace.accepted);
    }
  }

  lemma {:induction false} OneOrMore(spec: Spec, base: seq<Token>, trace: Trace, ending: Ending, maxTokens: int)
    requires spec.Valid() && spec.eos == {} && maxTokens >= 1 && trace.heads != [] && ending != Refused
    requires Delivered(spec, base, 0, trace, ending, maxTokens)
    ensures |trace.final.output| >= 2 || (ending == CacheFull && |trace.heads| == 1)
  {
  }

  lemma {:induction false} BlipAcceptsOne(spec: Spec, e: Entry, parents: seq<int>, prefix: seq<Entry>,
                                          ctx: seq<Token>, h: Head, accepted: seq<Token>)
    requires spec.Valid() && 2 <= spec.vocab && IsLayout(spec.branches, parents)
    requires spec.forward == Blip(e, spec.vocab, |ctx|) && Starts(spec, parents, prefix, ctx, 0, h)
    requires Accepts(spec, parents, h.draft, h.fed, accepted)
    ensures |accepted| == 1
  {
    var outs, tops :|
      FirstOuts(spec, parents, prefix, ctx, 0, outs)
      && Sampling.IsDraft(spec.branches, parents, FirstRows(|spec.branches|, outs), tops, 0, h.draft);
    BlipPicks(e, spec.vocab, |ctx|, h.fed + [0]);
    OneAccepted(spec, parents, FirstRows(|spec.branches|, outs), tops, h.draft, h.fed, accepted);
  }

  /** Feeding the first token twice goes unnoticed by every model exactly if the call cannot come to a
      pass: without a token limit of at least one, or without room for one more column. */
  lemma {:induction false} ReplayHarmlessIff(spec: Spec, parents: seq<int>, prefix: seq<Entry>, ctx: seq<Token>,
                                             maxTokens: int)
    requires spec.Valid() && ctx != [] && IsLayout(spec.branches, parents)
    ensures (forall f: Forward<Entry>, eos: set<Token>, trace: Trace, ending: Ending ::
               spec.(forward := f, eos := eos).Valid()
               && Outcome(spec.(forward := f, eos := eos), parents, prefix, ctx, maxTokens, trace, ending) ==>
                 trace.final.output == Plain(f, spec.vocab, ctx, |trace.final.output|))
       <==> !ReachesPass(spec, |ctx|, maxTokens)
  {
    if !ReachesPass(spec, |ctx|, maxTokens) {
      forall f: Forward<Entry>, eos: set<Token>, trace: Trace, ending: Ending
        | spec.(forward := f, eos := eos).Valid()
          && Outcome(spec.(forward := f, eos := eos), parents, prefix, ctx, maxTokens, trace, ending)
        ensures trace.final.output == Plain(f, spec.vocab, ctx, |trace.final.output|)
      {
        var s := spec.(forward := f, eos := eos);
        NoPassNoSecond(s, parents, prefix, ctx, maxTokens, trace, ending);
        OutcomeIsReplayed(s, parents, prefix, ctx, maxTokens, trace, ending);
        ShortIsPlain(f, spec.vocab, ctx, |trace.final.output|);
      }
    } else {
      var f, trace, ending := ReplayShows(spec, parents, prefix, ctx, maxTokens);
    }
  }

  /** A generated run whose output is not the plain greedy one. */
  lemma {:induction false} ReplayShows(spec: Spec, parents: seq<int>, prefix: seq<Entry>, ctx: seq<Token>,
                                       maxTokens: int)
      returns (f: Forward<Entry>, trace: Trace, ending: Ending)
    requires spec.Valid() && ctx != [] && IsLayout(spec.branches, parents) && ReachesPass(spec, |ctx|, maxTokens)
    ensures spec.(forward := f, eos := {}).Valid()
    ensures Outcome(spec.(forward := f, eos := {}), parents, prefix, ctx, maxTokens, trace, ending)
    ensures trace.final.output != Plain(f, spec.vocab, ctx, |trace.final.output|)
  {
    var e := spec.forward([], 0, 0).kv;
    BlipIsSpec(spec, e, |ctx|);
    f := Blip(e, spec.vocab, |ctx|);
    var s := spec.(forward := f, eos := {});
    trace, ending := OutcomeExists(s, parents, prefix, ctx, maxTokens);
    BlipDelivers(s, e, parents, prefix, ctx, maxTokens, trace, ending);
    OutcomeIsReplayed(s, parents, prefix, ctx, maxTokens, trace, ending);
    BlipDiffers(e, spec.vocab, ctx, |trace.final.output|);
  }

  lemma {:induction false} BlipDiffers<E(!new)>(e: E, vocab: nat, ctx: seq<Token>, n: nat)
    requires 2 <= vocab && ctx != [] && n >= 2
    ensures HasVocab(Blip(e, vocab, |ctx|), vocab)
    ensures Replayed(Blip(e, vocab, |ctx|), vocab, ctx, n) != Plain(Blip(e, vocab, |ctx|), vocab, ctx, n)
  {
    var f := Blip(e, vocab, |ctx|);
    BlipPicks(e, vocab, |ctx|, ctx);
    BlipPicks(e, vocab, |ctx|, ctx + [0]);
    BlipPicks(e, vocab, |ctx|, ctx + [0, 0]);
    GreedyTwo(f, vocab, ctx, n);
    GreedyOne(f, vocab, ctx + [0, 0], n - 1);
    assert Plain(f, vocab, ctx, n)[1] == 1;
    assert Replayed(f, vocab, ctx, n)[1] == 0;
  }
}
