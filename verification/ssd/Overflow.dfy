/** The room check of `RoomSuffices` is exact: without the room, some model fills the cache up. */
module Overflow {
  import opened Acceptance
  import opened Callback
  import opened Decoding
  import opened DraftTree
  import opened Extents
  import opened Forecast
  import opened ForwardPass
  import opened KvCache
  import opened Redraft
  import opened Sampling
  import opened SsdRun
  import opened SsdSpec

  /** A row of logits that picks token `k`. */
  function OneHot(vocab: nat, k: nat): (row: seq<real>)
    requires k < vocab
    ensures |row| == vocab
  {
    seq(vocab, i => if i == k then 1.0 else 0.0)
  }

  lemma {:induction false} OneHotPicks(vocab: nat, k: nat)
    requires k < vocab
    ensures Argmax(OneHot(vocab, k)) == k
  {
    var row := OneHot(vocab, k);
    assert row[k] <= row[Argmax(row)];
  }

  lemma {:induction false} OneHotTop(vocab: nat, k: nat, n: nat, top: seq<Token>)
    requires k < vocab && 0 < n && IsTopK(OneHot(vocab, k), n, top)
    ensures top[0] == k
  {
    var row := OneHot(vocab, k);
    if k in top {
      var i :| 0 <= i < n && top[i] == k;
      assert row[top[0]] >= row[top[i]];
    }
  }

  /** Token 0 everywhere before position `turn`; from there on tokens 1 and 0 in turn. */
  function Zigzag(turn: int, pos: int): nat { if pos < turn then 0 else (pos - turn + 1) % 2 }

  lemma {:induction false} ZigzagTurns(turn: int, pos: int)
    ensures pos < turn ==> Zigzag(turn, pos) == 0
    ensures pos >= turn ==> Zigzag(turn, pos) != Zigzag(turn, pos - 1)
  {
  }

  /** A model that repeats token 0 until the cache is fed up to `turn`, and then alternates; fed a
      forecast token from position `n` on, it tells what it will pick from `turn` on. */
  function Trap<E>(e: E, vocab: nat, n: int, turn: int): Forward<E>
    requires 2 <= vocab
  {
    (seen, t, pos) =>
      Out(e, OneHot(vocab, Zigzag(turn, if t >= vocab && pos >= n then turn + (t - vocab) else pos)))
  }

  lemma {:induction false} TrapIsModel<E(!new)>(e: E, vocab: nat, n: int, turn: int)
    requires 2 <= vocab
    ensures HasVocab(Trap(e, vocab, n, turn), vocab)
  {
    forall seen: seq<E>, t: Token, pos: int ensures |Trap(e, vocab, n, turn)(seen, t, pos).logits| == vocab {
      assert Trap(e, vocab, n, turn)(seen, t, pos).logits
          == OneHot(vocab, Zigzag(turn, if t >= vocab && pos >= n then turn + (t - vocab) else pos));
    }
  }

  /** What the trap picks after a context that ends in a vocabulary token, or is not longer than `n`. */
  lemma {:induction false} TrapPicks<E(!new)>(e: E, vocab: nat, n: int, turn: int, ctx: seq<Token>)
    requires 2 <= vocab && ctx != [] && (ctx[|ctx| - 1] < vocab || |ctx| <= n)
    ensures HasVocab(Trap(e, vocab, n, turn), vocab)
    ensures NextToken(Trap(e, vocab, n, turn), vocab, ctx) == Zigzag(turn, |ctx| - 1)
  {
    TrapIsModel(e, vocab, n, turn);
    var f := Trap(e, vocab, n, turn);
    assert Feed(f, ctx).logits == OneHot(vocab, Zigzag(turn, |ctx| - 1));
    OneHotPicks(vocab, Zigzag(turn, |ctx| - 1));
  }

  // ----- children of a draft node -----

  /** A child never repeats its parent's token. */
  lemma {:induction false} ChildDiffers(branches: seq<nat>, parents: seq<int>, rows: seq<seq<real>>,
                                        tops: seq<seq<Token>>, last: Token, tree: seq<Token>, c: nat)
    requires GoodBranches(branches) && IsLayout(branches, parents) && IsDraft(branches, parents, rows, tops, last, tree)
    requires 0 < c < |tree|
    ensures 0 <= parents[c] < c && tree[c] != tree[parents[c]]
    ensures exists d :: 0 <= d < |rows| && 0 <= tree[c] < |rows[d]|
  {
    var d, off := DraftParent(branches, parents, c);
    assert NodeDrafted(branches, parents, tree, d, tops[d], off);
    var s, k := tops[d], off % branches[d];
    NotAvoided(rows[d], s, tree[parents[c]], k);
    assert tree[c] == s[k] || tree[c] == s[k + 1];
  }

  /** The first child of a node carries the best token of its level, unless the node itself does. */
  lemma {:induction false} FirstChild(branches: seq<nat>, parents: seq<int>, rows: seq<seq<real>>,
                                      tops: seq<seq<Token>>, last: Token, tree: seq<Token>, i: nat, d: nat)
      returns (c: nat)
    requires GoodBranches(branches) && IsLayout(branches, parents) && IsDraft(branches, parents, rows, tops, last, tree)
    requires IsTree(parents) && i < |tree| && d < |branches| && Depth(parents, i) == d
    ensures i < c < |tree| && parents[c] == i
    ensures tree[i] != tops[d][0] ==> tree[c] == tops[d][0]
  {
    var off;
    c, off := ChildOf(branches, parents, i, d);
    assert NodeDrafted(branches, parents, tree, d, tops[d], off);
    if tree[i] != tops[d][0] {
      assert tops[d][..1] == [tops[d][0]];
    }
  }

  /** The first child of a node, and its place in its level. */
  lemma {:induction false} ChildOf(branches: seq<nat>, parents: seq<int>, i: nat, d: nat) returns (c: nat, off: nat)
    requires GoodBranches(branches) && IsLayout(branches, parents) && IsTree(parents)
    requires i < NodeCount(branches) && d < |branches| && Depth(parents, i) == d
    ensures i < c < NodeCount(branches) && parents[c] == i
    ensures off < LevelSize(branches, d + 1) && c == LevelStart(branches, d + 1) + off && off % branches[d] == 0
  {
    var e, x := LevelOf(branches, i, |branches|);
    LevelDepth(branches, parents, e, x);
    var b := branches[d];
    off := Extent(b, x);
    QuotientOf(x, b, 0);
    ExtentApart(b, x, LevelSize(branches, d));
    LevelStartMonotone(branches, d + 2, |branches| + 1);
    c := LevelStart(branches, d + 1) + off;
    assert LevelAt(branches, parents, d);
    assert parents[c] == LevelStart(branches, d) + off / b == i;
  }

  // ----- what the trap accepts -----

  /** Where the model repeats the root, only the root's own pick is accepted. */
  lemma {:induction false} OneAccepted(spec: Spec, parents: seq<int>, rows: seq<seq<real>>, tops: seq<seq<Token>>,
                                       draft: seq<Token>, fed: seq<Token>, tokens: seq<Token>)
    requires spec.Valid() && IsLayout(spec.branches, parents) && draft != []
    requires IsDraft(spec.branches, parents, rows, tops, draft[0], draft)
    requires Accepts(spec, parents, draft, fed, tokens)
    requires NextToken(spec.forward, spec.vocab, fed + [draft[0]]) == draft[0]
    ensures tokens == [draft[0]]
  {
    var w := TrialOf(spec, parents, draft, fed);
    var ids :| w.IsAcceptance(tokens, ids);
    AcceptedPathTokens(w, tokens, ids, 0);
    assert w.Verified(tokens, ids, 0);
    assert PathTokens(parents, draft, 0) == [draft[0]];
    if |ids| > 1 {
      assert w.Linked(tokens, ids, 1);
      ChildDiffers(spec.branches, parents, rows, tops, draft[0], draft, ids[1]);
    }
  }

  /** The rows the trap drafts from tell its picks from `turn` on. */
  ghost predicate Foresees(spec: Spec, turn: nat, rows: seq<seq<real>>) {
    && |rows| == |spec.branches| && 2 <= spec.vocab
    && forall d :: 0 <= d < |rows| ==> rows[d] == OneHot(spec.vocab, Zigzag(turn, turn + d))
  }

  /** At the turn, a whole path of the draft is accepted. */
  lemma {:induction false} AllAccepted(spec: Spec, e: Entry, n: nat, turn: nat, parents: seq<int>, rows: seq<seq<real>>,
                                       tops: seq<seq<Token>>, draft: seq<Token>, fed: seq<Token>, tokens: seq<Token>)
    requires spec.Valid() && IsLayout(spec.branches, parents) && draft != [] && draft[0] == 0 && 2 <= spec.vocab
    requires spec.forward == Trap(e, spec.vocab, n, turn) && spec.eos == {} && |fed| == turn
    requires IsDraft(spec.branches, parents, rows, tops, 0, draft) && Foresees(spec, turn, rows)
    requires Accepts(spec, parents, draft, fed, tokens)
    ensures |tokens| == |spec.branches| + 1
  {
    var w := TrialOf(spec, parents, draft, fed);
    var ids :| w.IsAcceptance(tokens, ids);
    AcceptedLength(spec.branches, w, tokens, ids);
    var j := |ids| - 1;
    if j < |spec.branches| {
      var i := ids[j];
      AcceptedIsPath(w, tokens, ids, j);
      PicksZigzag(spec, e, n, turn, parents, rows, tops, draft, fed, w, tokens, ids, j);
      OneHotTop(spec.vocab, Zigzag(turn, turn + j), spec.branches[j] + 1, tops[j]);
      ZigzagTurns(turn, turn + j);
      var c := FirstChild(spec.branches, parents, rows, tops, 0, draft, i, j);
      assert false;
    }
  }

  /** Along an accepted path the tokens zigzag. */
  lemma {:induction false} PicksZigzag(spec: Spec, e: Entry, n: nat, turn: nat, parents: seq<int>, rows: seq<seq<real>>,
                                       tops: seq<seq<Token>>, draft: seq<Token>, fed: seq<Token>, w: Trial,
                                       tokens: seq<Token>, ids: seq<nat>, k: nat)
    requires spec.Valid() && IsLayout(spec.branches, parents) && draft != [] && draft[0] == 0 && 2 <= spec.vocab
    requires spec.forward == Trap(e, spec.vocab, n, turn) && |fed| == turn
    requires IsDraft(spec.branches, parents, rows, tops, 0, draft) && Foresees(spec, turn, rows)
    requires IsTree(parents) && w == TrialOf(spec, parents, draft, fed) && w.IsAcceptedPath(tokens, ids) && k < |ids|
    ensures ids[k] < |draft| && draft[ids[k]] == Zigzag(turn, turn + k - 1)
    ensures tokens[k] == Zigzag(turn, turn + k)
  {
    var i := ids[k];
    assert w.Verified(tokens, ids, k);
    if k > 0 {
      PicksZigzag(spec, e, n, turn, parents, rows, tops, draft, fed, w, tokens, ids, k - 1);
      assert w.Linked(tokens, ids, k);
    }
    AcceptedIsPath(w, tokens, ids, k);
    var ctx := fed + PathTokens(parents, draft, i);
    assert ctx[|ctx| - 1] == draft[i];
    TrapPicks(e, spec.vocab, n, turn, ctx);
  }

  // ----- the run of the trap -----

  /** How many tokens the loop can deliver before its last pass. */
  function Slack(maxTokens: int): nat { if maxTokens <= 2 then 0 else maxTokens - 2 }

  /** The trap's rows in the initial pass, and on top of any context. */
  lemma {:induction false} FirstRowsForesee(spec: Spec, e: Entry, n: nat, turn: nat, parents: seq<int>,
                                            prefix: seq<Entry>, ctx: seq<Token>, first: Token, outs: seq<Out<Entry>>)
    requires spec.Valid() && 2 <= spec.vocab && |ctx| == n && spec.forward == Trap(e, spec.vocab, n, turn)
    requires FirstOuts(spec, parents, prefix, ctx, first, outs)
    ensures Foresees(spec, turn, FirstRows(|spec.branches|, outs))
  {
    var rows := FirstRows(|spec.branches|, outs);
    forall d | 0 <= d < |rows| ensures rows[d] == OneHot(spec.vocab, Zigzag(turn, turn + d)) {
      FirstRowForesees(spec, e, n, turn, parents, prefix, ctx, first, outs, d);
    }
  }

  lemma {:induction false} FirstRowForesees(spec: Spec, e: Entry, n: nat, turn: nat, parents: seq<int>,
                                            prefix: seq<Entry>, ctx: seq<Token>, first: Token, outs: seq<Out<Entry>>,
                                            d: nat)
    requires spec.Valid() && 2 <= spec.vocab && |ctx| == n && spec.forward == Trap(e, spec.vocab, n, turn)
    requires FirstOuts(spec, parents, prefix, ctx, first, outs) && d < |spec.branches|
    ensures outs[d + 1].logits == OneHot(spec.vocab, Zigzag(turn, turn + d))
  {
    var block := FirstBlock(spec, first);
    ForecastTokenAt(spec.vocab, |spec.branches|, 1, 0, d);
    TrapRooted(spec.forward, e, spec.vocab, n, turn, parents, prefix, ctx, block, outs, d + 1, d);
  }

  lemma {:induction false} TrapRooted<E>(f: Forward<E>, e: E, vocab: nat, n: int, turn: int, parents: seq<int>,
                                         prefix: seq<E>, ctx: seq<Token>, tokens: seq<Token>, outs: seq<Out<E>>,
                                         i: nat, d: nat)
    requires 2 <= vocab && f == Trap(e, vocab, n, turn) && |ctx| == n
    requires AreRooted(f, prefix, ctx, parents, tokens, outs) && i < |outs| && tokens[i] == vocab + d
    ensures outs[i].logits == OneHot(vocab, Zigzag(turn, turn + d))
  {
    var seen, pos := RootedSeen(f, prefix, ctx, parents, outs[..i]), RootedPos(ctx, parents, i);
    assert RootedAt(f, prefix, ctx, parents, tokens, outs, i);
    TrapForetells(e, vocab, n, turn, outs[i], seen, tokens[i], d, pos);
  }

  /** What the trap gives for the `d`-th forecast token. */
  lemma {:induction false} TrapForetells<E>(e: E, vocab: nat, n: int, turn: int, out: Out<E>, seen: seq<E>,
                                            t: Token, d: nat, pos: nat)
    requires 2 <= vocab && pos >= n && t == vocab + d && Gives(Trap(e, vocab, n, turn), out, seen, t, pos)
    ensures out.logits == OneHot(vocab, Zigzag(turn, turn + d))
  {
  }

  lemma {:induction false} ForetoldRowsForesee(spec: Spec, e: Entry, n: nat, turn: nat, prefix: seq<Entry>,
                                               fed: seq<Token>)
    requires spec.Valid() && 2 <= spec.vocab && n <= |fed|
    requires spec.forward == Trap(e, spec.vocab, n, turn)
    ensures Foresees(spec, turn, spec.RowsForetold(prefix, fed))
  {
    var rows := spec.RowsForetold(prefix, fed);
    forall d | 0 <= d < |rows| ensures rows[d] == OneHot(spec.vocab, Zigzag(turn, turn + d)) {
      var seen, t, pos := ForetoldAt(spec.forward, prefix, fed, spec.vocab, d, |rows|);
      TrapForetells(e, spec.vocab, n, turn, Foretold(spec.forward, prefix, fed, spec.vocab, |rows|)[d], seen, t, d,
                    pos);
    }
  }

  lemma {:induction false} ForetoldAt<E>(f: Forward<E>, prefix: seq<E>, ctx: seq<Token>, vocab: nat, d: nat, n: nat)
      returns (seen: seq<E>, t: Token, pos: nat)
    requires d < n
    ensures t == vocab + d && pos == |ctx| + d && Gives(f, Foretold(f, prefix, ctx, vocab, n)[d], seen, t, pos)
  {
    if d < n - 1 {
      seen, t, pos := ForetoldAt(f, prefix, ctx, vocab, d, n - 1);
    } else {
      seen, t, pos := prefix + Entries(f, ctx) + Kvs(Foretold(f, prefix, ctx, vocab, d)), vocab + d, |ctx| + d;
    }
  }

  /** The trap, set for a context of `n` tokens and a token limit. */
  ghost predicate IsTrap(spec: Spec, e: Entry, n: nat, maxTokens: int) {
    && spec.Valid() && 2 <= spec.vocab && spec.eos == {}
    && spec.forward == Trap(e, spec.vocab, n, n + 1 + Slack(maxTokens))
  }

  lemma {:induction false} TrapIsSpec(spec: Spec, e: Entry, n: nat, maxTokens: int)
    requires spec.Valid() && e == spec.forward([], 0, 0).kv
    ensures 2 <= spec.vocab
    ensures IsTrap(spec.(forward := Trap(e, spec.vocab, n, n + 1 + Slack(maxTokens)), eos := {}), e, n, maxTokens)
  {
    assert spec.branches[0] + 1 <= spec.vocab;
    TrapIsModel(e, spec.vocab, n, n + 1 + Slack(maxTokens));
    EntryWellShaped(spec.forward, spec.shapes, [], 0, 0);
    var f := Trap(e, spec.vocab, n, n + 1 + Slack(maxTokens));
    forall seen: seq<Entry>, t: Token, p: int ensures EntryFits(spec.shapes, f(seen, t, p).kv) {
      assert f(seen, t, p).kv == e;
    }
  }

  /** At each head the trap has fed one token per iteration, the root is token 0, and the draft was
      filled from rows that foresee the turn. */
  ghost predicate TrapHead(spec: Spec, parents: seq<int>, n: nat, maxTokens: int, h: Head, k: nat)
    requires spec.Valid()
  {
    && |h.output| == k + 1 && |h.fed| == n + 1 + k && k <= Slack(maxTokens)
    && h.draft != [] && h.draft[0] == 0
    && exists rows, tops ::
         IsDraft(spec.branches, parents, rows, tops, 0, h.draft) && Foresees(spec, n + 1 + Slack(maxTokens), rows)
  }

  /** Before the turn, an iteration delivers one token or overflows; at the turn it feeds as much as a
      call ever can, or overflows. */
  lemma {:induction false} TrapStep(spec: Spec, e: Entry, parents: seq<int>, prefix: seq<Entry>, n: nat, maxTokens: int,
                                    h: Head, k: nat, accepted: seq<Token>, next: Head, ending: Ending)
    requires IsTrap(spec, e, n, maxTokens) && IsLayout(spec.branches, parents) && maxTokens >= 1
    requires TrapHead(spec, parents, n, maxTokens, h, k)
    requires StepTo(spec, parents, prefix, h, accepted, next, ending, maxTokens) && ending != Refused
    ensures k < Slack(maxTokens) ==>
              ending == CacheFull || (ending == GoOn && TrapHead(spec, parents, n, maxTokens, next, k + 1))
    ensures k == Slack(maxTokens) ==>
              ending == CacheFull || (ending == TokenLimit && |next.fed| == n + Ahead(|spec.branches|, maxTokens))
    ensures k == Slack(maxTokens) && spec.fp + n + Ahead(|spec.branches|, maxTokens) > spec.DecodeKv() ==>
              ending == CacheFull
  {
    if k == Slack(maxTokens) {
      TrapTurns(spec, e, parents, n, maxTokens, h, k, accepted);
    } else {
      TrapWaits(spec, e, parents, n, maxTokens, h, k, accepted);
      if ending == GoOn {
        NextTrapHead(spec, e, parents, prefix, n, maxTokens, h, k, accepted, next);
      }
    }
  }

  lemma {:induction false} TrapTurns(spec: Spec, e: Entry, parents: seq<int>, n: nat, maxTokens: int, h: Head, k: nat,
                                     accepted: seq<Token>)
    requires IsTrap(spec, e, n, maxTokens) && IsLayout(spec.branches, parents) && k == Slack(maxTokens)
    requires TrapHead(spec, parents, n, maxTokens, h, k) && Accepts(spec, parents, h.draft, h.fed, accepted)
    ensures |accepted| == |spec.branches| + 1
  {
    var turn := n + 1 + Slack(maxTokens);
    var rows, tops :| IsDraft(spec.branches, parents, rows, tops, 0, h.draft) && Foresees(spec, turn, rows);
    AllAccepted(spec, e, n, turn, parents, rows, tops, h.draft, h.fed, accepted);
  }

  lemma {:induction false} TrapWaits(spec: Spec, e: Entry, parents: seq<int>, n: nat, maxTokens: int, h: Head, k: nat,
                                     accepted: seq<Token>)
    requires IsTrap(spec, e, n, maxTokens) && IsLayout(spec.branches, parents) && k < Slack(maxTokens)
    requires TrapHead(spec, parents, n, maxTokens, h, k) && Accepts(spec, parents, h.draft, h.fed, accepted)
    ensures accepted == [0]
  {
    var turn := n + 1 + Slack(maxTokens);
    var rows, tops :| IsDraft(spec.branches, parents, rows, tops, 0, h.draft) && Foresees(spec, turn, rows);
    TrapPicks(e, spec.vocab, n, turn, h.fed + [0]);
    OneAccepted(spec, parents, rows, tops, h.draft, h.fed, accepted);
  }

  lemma {:induction false} NextTrapHead(spec: Spec, e: Entry, parents: seq<int>, prefix: seq<Entry>, n: nat,
                                        maxTokens: int, h: Head, k: nat, accepted: seq<Token>, next: Head)
    requires IsTrap(spec, e, n, maxTokens) && k < Slack(maxTokens) && h.draft != [] && accepted == [0]
    requires |h.output| == k + 1 && |h.fed| == n + 1 + k
    requires Delivers(spec, parents, prefix, h, accepted, next, GoOn, maxTokens)
    ensures TrapHead(spec, parents, n, maxTokens, next, k + 1)
  {
    ForetoldRowsForesee(spec, e, n, n + 1 + Slack(maxTokens), prefix, next.fed);
  }

  lemma {:induction false} FirstHead(spec: Spec, e: Entry, parents: seq<int>, prefix: seq<Entry>, ctx: seq<Token>,
                                     maxTokens: int, h: Head)
    requires IsTrap(spec, e, |ctx|, maxTokens) && IsLayout(spec.branches, parents)
    requires Starts(spec, parents, prefix, ctx, 0, h)
    ensures TrapHead(spec, parents, |ctx|, maxTokens, h, 0)
  {
    var outs, tops :|
      FirstOuts(spec, parents, prefix, ctx, 0, outs)
      && IsDraft(spec.branches, parents, FirstRows(|spec.branches|, outs), tops, 0, h.draft);
    FirstRowsForesee(spec, e, |ctx|, |ctx| + 1 + Slack(maxTokens), parents, prefix, ctx, 0, outs);
  }

  lemma {:induction false} TrapHeads(spec: Spec, e: Entry, parents: seq<int>, prefix: seq<Entry>, n: nat,
                                     maxTokens: int, heads: seq<Head>, k: nat)
    requires IsTrap(spec, e, n, maxTokens) && IsLayout(spec.branches, parents) && maxTokens >= 1
    requires AllGoOn(spec, parents, prefix, heads, maxTokens) && k < |heads|
    requires TrapHead(spec, parents, n, maxTokens, heads[0], 0)
    ensures TrapHead(spec, parents, n, maxTokens, heads[k], k)
  {
    if k > 0 {
      TrapHeads(spec, e, parents, prefix, n, maxTokens, heads, k - 1);
      assert GoesOn(spec, parents, prefix, heads, k - 1, maxTokens);
      TrapStep(spec, e, parents, prefix, n, maxTokens, heads[k - 1], k - 1, Gained(heads[k - 1], heads[k]), heads[k],
               GoOn);
    }
  }

  /** Without room for the whole call, every run of the trap that is not refused fills the cache. */
  lemma {:induction false} TrapOverflows(spec: Spec, e: Entry, parents: seq<int>, prefix: seq<Entry>, ctx: seq<Token>,
                                         maxTokens: int, trace: Trace, ending: Ending)
    requires ctx != [] && IsTrap(spec, e, |ctx|, maxTokens) && !Roomy(spec, |ctx|, maxTokens)
    requires Outcome(spec, parents, prefix, ctx, maxTokens, trace, ending) && ending != Refused
    ensures ending == CacheFull
  {
    if spec.fp + |ctx| <= spec.PrefillKv() && trace.heads != [] {
      var n, turn := |ctx|, |ctx| + 1 + Slack(maxTokens);
      var k := |trace.heads| - 1;
      TrapPicks(e, spec.vocab, n, turn, ctx);
      FirstHead(spec, e, parents, prefix, ctx, maxTokens, trace.heads[0]);
      TrapHeads(spec, e, parents, prefix, n, maxTokens, trace.heads, k);
      if ending != PassLimit {
        TrapStep(spec, e, parents, prefix, n, maxTokens, trace.heads[k], k, trace.accepted, trace.final, ending);
      }
    }
  }

  /** A run of the trap that is not refused feeds as much as a call ever can, or fills the cache up. */
  lemma {:induction false} TrapFeedsAll(spec: Spec, e: Entry, parents: seq<int>, prefix: seq<Entry>, ctx: seq<Token>,
                                        maxTokens: int, trace: Trace, ending: Ending)
    requires ctx != [] && IsTrap(spec, e, |ctx|, maxTokens) && spec.fp + |ctx| <= spec.PrefillKv()
    requires Outcome(spec, parents, prefix, ctx, maxTokens, trace, ending) && ending != Refused
    ensures ending == CacheFull || |trace.final.fed| == |ctx| + Ahead(|spec.branches|, maxTokens)
  {
    var n := |ctx|;
    TrapPicks(e, spec.vocab, n, n + 1 + Slack(maxTokens), ctx);
    if trace.heads != [] {
      var k := |trace.heads| - 1;
      FirstHead(spec, e, parents, prefix, ctx, maxTokens, trace.heads[0]);
      if maxTokens >= 1 {
        TrapHeads(spec, e, parents, prefix, n, maxTokens, trace.heads, k);
        TrapStep(spec, e, parents, prefix, n, maxTokens, trace.heads[k], k, trace.accepted, trace.final, ending);
      }
    }
  }
}
