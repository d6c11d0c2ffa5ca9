/** What a run of the decode loop is, without passes, masks and buffers: which tokens an iteration
    accepts, how the output, the draft and the cache follow from them, and when the loop ends. */
module SsdRun {
  import opened Acceptance
  import opened Callback
  import opened Decoding
  import opened DraftTree
  import opened Forecast
  import opened ForwardPass
  import opened KvCache
  import opened Sampling
  import opened SsdSpec

  // ----- what an iteration accepts -----

  /** The model's pick after each draft node, fed on top of `fed` along its root path. */
  ghost function PicksAfter(spec: Spec, parents: seq<int>, draft: seq<Token>, fed: seq<Token>): (picks: seq<Token>)
    requires spec.Valid() && IsTree(parents) && |draft| <= |parents|
    ensures |picks| == |draft|
    ensures forall i :: 0 <= i < |draft| ==>
              picks[i] == NextToken(spec.forward, spec.vocab, fed + PathTokens(parents, draft, i))
  {
    seq(|draft|, i requires 0 <= i < |draft| =>
      NextToken(spec.forward, spec.vocab, fed + PathTokens(parents, draft, i)))
  }

  ghost function TrialOf(spec: Spec, parents: seq<int>, draft: seq<Token>, fed: seq<Token>): (w: Trial)
    requires spec.Valid() && IsTree(parents) && 0 < |draft| <= |parents|
    ensures w.Valid()
  {
    Trial(parents, |draft|, draft, PicksAfter(spec, parents, draft, fed), spec.eos)
  }

  /** The tokens greedy verification of `draft` accepts on top of `fed`. */
  ghost predicate Accepts(spec: Spec, parents: seq<int>, draft: seq<Token>, fed: seq<Token>, tokens: seq<Token>)
    requires spec.Valid()
  {
    && IsTree(parents) && 0 < |draft| <= |parents|
    && exists ids :: TrialOf(spec, parents, draft, fed).IsAcceptance(tokens, ids)
  }

  /** Verification by the logits of a pass is verification by the model's picks. */
  lemma {:induction false} PassAccepts(spec: Spec, parents: seq<int>, draft: seq<Token>, block: seq<Token>,
                                       fed: seq<Token>, outs: seq<Out<Entry>>, picks: seq<Token>, tokens: seq<Token>,
                                       ids: seq<nat>)
    requires spec.Valid() && IsTree(parents) && 0 < |draft| <= |block| <= |parents| && draft == block[..|draft|]
    requires |picks| == |draft| <= |outs| <= |block|
    requires forall i :: 0 <= i < |draft| ==>
               && Fed(spec.forward, parents, block, fed, outs, i) && |outs[i].logits| == spec.vocab
               && picks[i] == Argmax(outs[i].logits)
    requires Trial(parents, |draft|, draft, picks, spec.eos).IsAcceptance(tokens, ids)
    ensures Accepts(spec, parents, draft, fed, tokens)
  {
    var w := TrialOf(spec, parents, draft, fed);
    forall i | 0 <= i < |draft| ensures picks[i] == w.picks[i] {
      AlongFront(block, |draft|, Path(parents, i));
      assert PathTokens(parents, draft, i) == PathTokens(parents, block, i);
      assert Fed(spec.forward, parents, block, fed, outs, i);
    }
    assert picks == w.picks;
  }

  // ----- one iteration -----

  /** The output, the draft and what the cache has been fed, at the head of the loop. */
  datatype Head = Head(output: seq<Token>, draft: seq<Token>, fed: seq<Token>)

  /** The accepted columns are those of the root and of all accepted tokens but the last. */
  function Committed(h: Head, accepted: seq<Token>): seq<Token>
    requires h.draft != [] && accepted != []
  {
    h.fed + ([h.draft[0]] + accepted[..|accepted| - 1])
  }

  /** The accepted columns fit below the stride. */
  predicate Fits(spec: Spec, h: Head, accepted: seq<Token>)
    requires spec.seqLenDecode <= spec.contextLength
  {
    spec.fp + |h.fed| + |accepted| <= spec.DecodeKv()
  }

  /** One iteration.  If the accepted columns do not fit it ends with `CacheFull` and changes nothing.
      Otherwise they go to the cache, and the accepted tokens to the output up to an end-of-sequence
      token or a refusal; if the loop goes on, the next draft has the last of them at its root and was
      filled from the forecast on top of everything fed. */
  ghost predicate StepTo(spec: Spec, parents: seq<int>, prefix: seq<Entry>, h: Head, accepted: seq<Token>, next: Head,
                         ending: Ending, maxTokens: int)
    requires spec.Valid()
  {
    && Accepts(spec, parents, h.draft, h.fed, accepted) && accepted != []
    && if !Fits(spec, h, accepted) then ending == CacheFull && next == h
       else Delivers(spec, parents, prefix, h, accepted, next, ending, maxTokens)
  }

  ghost predicate Delivers(spec: Spec, parents: seq<int>, prefix: seq<Entry>, h: Head, accepted: seq<Token>, next: Head,
                           ending: Ending, maxTokens: int)
    requires spec.Valid() && h.draft != [] && accepted != []
  {
    var n := |next.output| - |h.output|;
    && 0 <= n <= |accepted| && next.output == h.output + accepted[..n] && next.fed == Committed(h, accepted)
    && (forall k :: 0 <= k < n ==> accepted[k] !in spec.eos)
    && (ending == Eos ==> n == |accepted| - 1 && accepted[n] in spec.eos)
    && (ending == Refused ==> 0 < n)
    && (ending == TokenLimit ==> n == |accepted| && |next.output| >= maxTokens)
    && (ending == GoOn ==>
          && n == |accepted| && |next.output| < maxTokens
          && next.draft != [] && next.draft[0] == accepted[n - 1]
          && spec.DraftedOn(parents, prefix, next.fed, next.draft))
    && ending in {Eos, Refused, TokenLimit, GoOn}
  }

  // ----- a whole run -----

  /** The iterations that went on, the tokens accepted by the last one, and where it ended. */
  datatype Trace = Trace(heads: seq<Head>, accepted: seq<Token>, final: Head)

  function PassLimitOf(maxTokens: int): nat { if maxTokens < 0 then 0 else maxTokens }

  /** The tokens an iteration that went on accepted. */
  function Gained(h: Head, next: Head): seq<Token> {
    if |h.output| <= |next.output| then next.output[|h.output|..] else []
  }

  ghost predicate GoesOn(spec: Spec, parents: seq<int>, prefix: seq<Entry>, heads: seq<Head>, k: nat, maxTokens: int)
    requires spec.Valid() && k + 1 < |heads|
  {
    StepTo(spec, parents, prefix, heads[k], Gained(heads[k], heads[k + 1]), heads[k + 1], GoOn, maxTokens)
  }

  ghost predicate AllGoOn(spec: Spec, parents: seq<int>, prefix: seq<Entry>, heads: seq<Head>, maxTokens: int)
    requires spec.Valid()
  {
    && heads != [] && |heads| - 1 <= PassLimitOf(maxTokens)
    && forall k :: 0 <= k < |heads| - 1 ==> GoesOn(spec, parents, prefix, heads, k, maxTokens)
  }

  /** The loop ends by itself after `maxTokens` iterations, or in an iteration that does not go on. */
  ghost predicate LoopRun(spec: Spec, parents: seq<int>, prefix: seq<Entry>, trace: Trace, ending: Ending,
                          maxTokens: int)
    requires spec.Valid()
  {
    && AllGoOn(spec, parents, prefix, trace.heads, maxTokens)
    && var last := trace.heads[|trace.heads| - 1];
       if ending == PassLimit then |trace.heads| - 1 == PassLimitOf(maxTokens) && trace.final == last
       else
         && ending != GoOn && |trace.heads| - 1 < maxTokens
         && StepTo(spec, parents, prefix, last, trace.accepted, trace.final, ending, maxTokens)
  }

  /** One more iteration that went on. */
  lemma {:induction false} Longer(spec: Spec, parents: seq<int>, prefix: seq<Entry>, heads: seq<Head>,
                                  accepted: seq<Token>, next: Head, maxTokens: int)
    requires spec.Valid() && AllGoOn(spec, parents, prefix, heads, maxTokens) && |heads| <= PassLimitOf(maxTokens)
    requires StepTo(spec, parents, prefix, heads[|heads| - 1], accepted, next, GoOn, maxTokens)
    ensures AllGoOn(spec, parents, prefix, heads + [next], maxTokens)
  {
    var all := heads + [next];
    var last := heads[|heads| - 1];
    assert accepted[..|accepted|] == accepted;
    assert Gained(last, next) == accepted;
    forall k | 0 <= k < |all| - 1 ensures GoesOn(spec, parents, prefix, all, k, maxTokens) {
      if k < |heads| - 1 {
        assert GoesOn(spec, parents, prefix, heads, k, maxTokens);
      }
    }
  }

  /** The loop, begun at `start`, is at `now` after `step` iterations. */
  ghost predicate AtHead(spec: Spec, parents: seq<int>, prefix: seq<Entry>, heads: seq<Head>, maxTokens: int,
                         start: Head,
                         now: Head, step: nat)
    requires spec.Valid()
  {
    && AllGoOn(spec, parents, prefix, heads, maxTokens) && |heads| == step + 1
    && heads[0] == start && heads[step] == now && start.output <= now.output
  }

  /** The loop, begun at `start`, has ended. */
  ghost predicate RanFrom(spec: Spec, parents: seq<int>, prefix: seq<Entry>, trace: Trace, ending: Ending,
                          maxTokens: int,
                          start: Head)
    requires spec.Valid()
  {
    && LoopRun(spec, parents, prefix, trace, ending, maxTokens) && trace.heads[0] == start
    && start.output <= trace.final.output
  }

  lemma {:induction false} RunBegins(spec: Spec, parents: seq<int>, prefix: seq<Entry>, head: Head, maxTokens: int)
    requires spec.Valid()
    ensures AtHead(spec, parents, prefix, [head], maxTokens, head, head, 0)
  {
  }

  /** An iteration leads to the next head or ends the run. */
  lemma {:induction false} RunGoesOn(spec: Spec, parents: seq<int>, prefix: seq<Entry>, heads: seq<Head>,
                                     maxTokens: int,
                                     start: Head, now: Head, step: nat, accepted: seq<Token>, next: Head,
                                     ending: Ending)
    requires spec.Valid() && AtHead(spec, parents, prefix, heads, maxTokens, start, now, step) && step < maxTokens
    requires StepTo(spec, parents, prefix, now, accepted, next, ending, maxTokens) && ending != PassLimit
    ensures if ending == GoOn then AtHead(spec, parents, prefix, heads + [next], maxTokens, start, next, step + 1)
            else RanFrom(spec, parents, prefix, Trace(heads, accepted, next), ending, maxTokens, start)
  {
    if ending == GoOn {
      Longer(spec, parents, prefix, heads, accepted, next, maxTokens);
    }
  }

  lemma {:induction false} RunOut(spec: Spec, parents: seq<int>, prefix: seq<Entry>, heads: seq<Head>, maxTokens: int,
                                  start: Head, now: Head, step: nat)
    requires spec.Valid() && AtHead(spec, parents, prefix, heads, maxTokens, start, now, step)
    requires step == PassLimitOf(maxTokens)
    ensures RanFrom(spec, parents, prefix, Trace(heads, [], now), PassLimit, maxTokens, start)
  {
  }

  /** How many iterations were begun. */
  function Passes(trace: Trace, ending: Ending): nat {
    if trace.heads == [] then 0 else |trace.heads| - if ending == PassLimit then 1 else 0
  }

  /** The block of the initial pass: the first token and one forecast token per level. */
  function FirstBlock(spec: Spec, first: Token): (tokens: seq<Token>)
    ensures tokens != []
  {
    [first] + ForecastTokens(spec.vocab, |spec.branches|, 1)
  }

  /** `outs` are the outputs of the initial pass. */
  ghost predicate FirstOuts(spec: Spec, parents: seq<int>, prefix: seq<Entry>, ctx: seq<Token>, first: Token,
                            outs: seq<Out<Entry>>)
  {
    && |outs| == |spec.branches| + 1
    && AreRooted(spec.forward, prefix, ctx, parents, FirstBlock(spec, first), outs)
  }

  /** The logits rows of slots `1..L`, which the first draft is filled from. */
  function FirstRows(levels: nat, outs: seq<Out<Entry>>): (rows: seq<seq<real>>)
    requires |outs| == levels + 1
    ensures |rows| == levels
  {
    seq(levels, d requires 0 <= d < levels => outs[d + 1].logits)
  }

  /** The head of the loop after the initial pass. */
  ghost predicate Starts(spec: Spec, parents: seq<int>, prefix: seq<Entry>, ctx: seq<Token>, first: Token, h: Head)
    requires spec.Valid() && IsLayout(spec.branches, parents)
  {
    && h.output == [first] && h.fed == ctx + [first]
    && exists outs, tops ::
         FirstOuts(spec, parents, prefix, ctx, first, outs)
         && IsDraft(spec.branches, parents, FirstRows(|spec.branches|, outs), tops, first, h.draft)
  }

  /** Everything generation may do from the first token on.  With an empty trace the loop was not
      reached. */
  ghost predicate Continues(spec: Spec, parents: seq<int>, prefix: seq<Entry>, ctx: seq<Token>, first: Token,
                            maxTokens: int, trace: Trace, ending: Ending)
    requires spec.Valid() && IsLayout(spec.branches, parents)
  {
    if trace.heads == [] then
      && trace.final.output == [first] && trace.final.fed == ctx
      && (ending == Refused || (ending == CacheFull && spec.fp + |ctx| + 1 > spec.DecodeKv()))
    else
      && spec.fp + |ctx| + 1 <= spec.DecodeKv()
      && Starts(spec, parents, prefix, ctx, first, trace.heads[0])
      && LoopRun(spec, parents, prefix, trace, ending, maxTokens)
  }

  /** Everything generation may do after the context `ctx` of history and prompt. */
  ghost predicate Outcome(spec: Spec, parents: seq<int>, prefix: seq<Entry>, ctx: seq<Token>, maxTokens: int,
                          trace: Trace, ending: Ending)
    requires spec.Valid() && ctx != []
  {
    var first, end := NextToken(spec.forward, spec.vocab, ctx), trace.final;
    && IsLayout(spec.branches, parents)
    && if spec.fp + |ctx| > spec.PrefillKv() then trace.heads == [] && end.output == [] && ending == CacheFull
       else if first in spec.eos then trace.heads == [] && end.output == [] && end.fed == ctx && ending == FirstIsEos
       else Continues(spec, parents, prefix, ctx, first, maxTokens, trace, ending)
  }

  lemma {:induction false} NotBegun(spec: Spec, parents: seq<int>, prefix: seq<Entry>, ctx: seq<Token>, maxTokens: int,
                                    trace: Trace)
    requires spec.Valid() && ctx != [] && IsLayout(spec.branches, parents) && spec.fp + |ctx| > spec.PrefillKv()
    requires trace.heads == [] && trace.final.output == []
    ensures Outcome(spec, parents, prefix, ctx, maxTokens, trace, CacheFull)
  {
  }

  // ----- what every run keeps -----

  /** The draft's root is the last output token, the cache has been fed everything before it, and
      both follow greedy decoding from `base` and the first token. */
  ghost predicate HeadHolds(spec: Spec, base: seq<Token>, first: Token, h: Head)
    requires spec.Valid()
  {
    && |h.draft| == NodeCount(spec.branches) > 0 && base + h.output == h.fed + [h.draft[0]]
    && spec.Decoded(base, first, h.output) && spec.FedGreedily(base, first, h.fed)
  }

  /** How the cache stands to the output when generation ends.  It holds everything up to an
      end-of-sequence token; otherwise everything but the last token; after a refusal, also the
      accepted tokens the caller has not seen, except the last. */
  ghost predicate CacheFollows(base: seq<Token>, next: Head, ending: Ending, unseen: seq<Token>)
  {
    && next.output != []
    && if ending == Eos then next.fed == base + next.output && unseen == []
       else if unseen == [] then next.fed + [next.output[|next.output| - 1]] == base + next.output
       else ending == Refused && next.fed == base + next.output + unseen[..|unseen| - 1]
  }

  /** The accepted tokens that were not delivered because of a refusal. */
  function Unseen(h: Head, accepted: seq<Token>, next: Head, ending: Ending): seq<Token> {
    var n := |next.output| - |h.output|;
    if ending == Refused && 0 <= n <= |accepted| then accepted[n..] else []
  }

  /** The accepted tokens that the cache got and the caller did not, up to the last accepted one. */
  function Withheld(trace: Trace, ending: Ending): seq<Token> {
    if trace.heads == [] || ending == PassLimit then []
    else Unseen(trace.heads[|trace.heads| - 1], trace.accepted, trace.final, ending)
  }

  /** What a run of the loop delivers. */
  ghost predicate Delivered(spec: Spec, base: seq<Token>, first: Token, trace: Trace, ending: Ending, maxTokens: int)
    requires spec.Valid()
  {
    var end, passes := trace.final, Passes(trace, ending);
    && spec.Decoded(base, first, end.output) && spec.FedGreedily(base, first, end.fed)
    && CacheFollows(base, end, ending, Withheld(trace, ending))
    && ending in {Eos, Refused, TokenLimit, PassLimit, CacheFull}
    && (ending == Eos ==> base + end.output != [] && NextToken(spec.forward, spec.vocab, base + end.output) in spec.eos)
    && (ending == TokenLimit ==> |end.output| >= maxTokens)
    && (ending == PassLimit ==> passes == PassLimitOf(maxTokens) && passes < |end.output|)
    && passes <= PassLimitOf(maxTokens) && passes <= |end.output| && (passes == 0 ==> |end.output| == 1)
    && (ending in {TokenLimit, Refused} ==> |end.output| >= 2)
    && |end.output| <= 1 + PassLimitOf(maxTokens) + |spec.branches|
  }

  // ----- room in the cache -----

  /** How many columns beyond the context a call may need. */
  function Ahead(levels: nat, maxTokens: int): nat {
    if maxTokens <= 0 then 1 else if maxTokens == 1 then levels + 2 else levels + maxTokens
  }

  /** The prompt fits at the prefill stride, and whatever follows it at the decode stride. */
  predicate Roomy(spec: Spec, n: nat, maxTokens: int)
    requires spec.seqLenPrefill <= spec.contextLength && spec.seqLenDecode <= spec.contextLength
  {
    spec.fp + n <= spec.PrefillKv() && spec.fp + n + Ahead(|spec.branches|, maxTokens) <= spec.DecodeKv()
  }

  /** Whatever the call feeds fits at the prefill stride, too. */
  predicate RoomyAfter(spec: Spec, n: nat, maxTokens: int)
    requires spec.seqLenPrefill <= spec.contextLength && spec.seqLenDecode <= spec.contextLength
  {
    Roomy(spec, n, maxTokens) && spec.fp + n + Ahead(|spec.branches|, maxTokens) <= spec.PrefillKv()
  }

  /** No column was lost: the cache never filled up, and all that was fed fits at both strides. */
  predicate KeepsAll(spec: Spec, trace: Trace, ending: Ending)
    requires spec.seqLenPrefill <= spec.contextLength && spec.seqLenDecode <= spec.contextLength
  {
    ending != CacheFull && spec.fp + |trace.final.fed| <= spec.DecodeKv()
    && spec.fp + |trace.final.fed| <= spec.PrefillKv()
  }
}
