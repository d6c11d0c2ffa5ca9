/** When the initial pass forecasts what it is meant to: rows `1..L` of the draft tree are the
    forecast on top of the first token exactly if they form a chain below it. */
module FirstDraft {
  import opened Decoding
  import opened DraftTree
  import opened Extents
  import opened Forecast
  import opened ForwardPass
  import opened KvCache
  import opened Overflow
  import opened Redraft
  import opened Sampling
  import opened SsdRun
  import opened SsdSpec

  /** Every level but the last branches once. */
  predicate Narrow(branches: seq<nat>) { forall d :: 0 <= d < |branches| - 1 ==> branches[d] == 1 }

  // ----- the first slots of the tree -----

  lemma {:induction false} UnitLevels(branches: seq<nat>, d: nat)
    requires d <= |branches| && forall e :: 0 <= e < d ==> branches[e] == 1
    ensures LevelSize(branches, d) == 1 && LevelStart(branches, d) == d
  {
    if d > 0 {
      UnitLevels(branches, d - 1);
      assert Extent(1, 1) == Extent(1, 0) + 1;
    }
  }

  lemma {:induction false} UnitLevelParent(branches: seq<nat>, parents: seq<int>, i: nat)
    requires GoodBranches(branches) && IsLayout(branches, parents) && 1 <= i <= |branches|
    requires forall e :: 0 <= e < i - 1 ==> branches[e] == 1
    ensures i < |parents| && parents[i] == i - 1
    ensures branches[i - 1] > 1 ==> i + 1 < |parents| && parents[i + 1] == i - 1
  {
    UnitLevels(branches, i - 1);
    assert LevelAt(branches, parents, i - 1);
    assert LevelSize(branches, i) == Extent(branches[i - 1], 1);
    assert Extent(branches[i - 1], 1) == Extent(branches[i - 1], 0) + branches[i - 1];
    assert LevelStart(branches, i) == i;
    assert parents[LevelStart(branches, i) + 0] == LevelStart(branches, i - 1) + 0 / branches[i - 1];
    if branches[i - 1] > 1 {
      assert parents[LevelStart(branches, i) + 1] == LevelStart(branches, i - 1) + 1 / branches[i - 1];
    }
  }

  /** In a narrow tree the first slots are a chain. */
  lemma {:induction false} NarrowPath(branches: seq<nat>, parents: seq<int>, i: nat)
    requires GoodBranches(branches) && IsLayout(branches, parents) && IsTree(parents) && Narrow(branches)
    requires i <= |branches| < |parents|
    ensures Depth(parents, i) == i && Path(parents, i) == seq(i + 1, k => k)
  {
    if i > 0 {
      UnitLevelParent(branches, parents, i);
      NarrowPath(branches, parents, i - 1);
      assert seq(i + 1, k => k) == seq(i, k => k) + [i];
    }
  }

  lemma {:induction false} FirstWide(branches: seq<nat>) returns (d: nat)
    requires GoodBranches(branches) && !Narrow(branches)
    ensures d < |branches| - 1 && branches[d] > 1 && forall e :: 0 <= e < d ==> branches[e] == 1
  {
    d := 0;
    while branches[d] == 1
      invariant d < |branches| - 1 && forall e :: 0 <= e < d ==> branches[e] == 1
      decreases |branches| - d
    {
      d := d + 1;
    }
  }

  /** The slots `1..L` hang below each other exactly in a narrow tree. */
  lemma {:induction false} InitialForecastIsChainIff(branches: seq<nat>, parents: seq<int>)
    requires GoodBranches(branches) && IsLayout(branches, parents) && |branches| < |parents|
    ensures (forall i :: 1 <= i <= |branches| ==> parents[i] == i - 1) <==> Narrow(branches)
  {
    if Narrow(branches) {
      forall i | 1 <= i <= |branches| ensures parents[i] == i - 1 {
        UnitLevelParent(branches, parents, i);
      }
    } else {
      var d := FirstWide(branches);
      UnitLevelParent(branches, parents, d + 1);
      assert parents[d + 2] == d;
    }
  }

  // ----- in a narrow tree -----

  lemma {:induction false} NarrowSeen(spec: Spec, parents: seq<int>, prefix: seq<Entry>, ctx: seq<Token>, first: Token,
                                      outs: seq<Out<Entry>>, s: nat)
    requires spec.Valid() && IsLayout(spec.branches, parents) && Narrow(spec.branches)
    requires FirstOuts(spec, parents, prefix, ctx, first, outs) && 0 < s < |outs|
    ensures RootedSeen(spec.forward, prefix, ctx, parents, outs[..s])
         == prefix + Entries(spec.forward, ctx + [first]) + Kvs(outs[1..s])
  {
    NarrowPath(spec.branches, parents, s - 1);
    UnitLevelParent(spec.branches, parents, s);
    AncestryIsAll(parents, outs[..s]);
    RootFed(spec, parents, prefix, ctx, first, outs);
    KvsSplit(outs, s);
    Regroup(prefix, Entries(spec.forward, ctx), outs[0].kv, Kvs(outs[1..s]));
  }

  lemma {:induction false} AncestryIsAll<E>(parents: seq<int>, before: seq<Out<E>>)
    requires IsTree(parents) && 0 < |before| < |parents| && parents[|before|] == |before| - 1
    requires Path(parents, |before| - 1) == seq(|before|, k => k)
    ensures Ancestry(parents, before) == Kvs(before)
  {
  }

  lemma {:induction false} KvsSplit<E>(outs: seq<Out<E>>, s: nat)
    requires 0 < s <= |outs|
    ensures Kvs(outs[..s]) == [outs[0].kv] + Kvs(outs[1..s])
  {
  }

  lemma {:induction false} Regroup<E>(prefix: seq<E>, held: seq<E>, kv: E, rest: seq<E>)
    ensures prefix + held + ([kv] + rest) == prefix + (held + [kv]) + rest
  {
  }

  lemma {:induction false} RootFed(spec: Spec, parents: seq<int>, prefix: seq<Entry>, ctx: seq<Token>, first: Token,
                                   outs: seq<Out<Entry>>)
    requires FirstOuts(spec, parents, prefix, ctx, first, outs)
    ensures Entries(spec.forward, ctx + [first]) == Entries(spec.forward, ctx) + [outs[0].kv]
  {
    assert RootedAt(spec.forward, prefix, ctx, parents, FirstBlock(spec, first), outs, 0);
    assert [] + Entries(spec.forward, ctx) + [] == Entries(spec.forward, ctx);
    FeedOnTop(spec.forward, ctx, [], first);
    assert ctx + ([] + [first]) == ctx + [first] && ctx + [] == ctx;
  }

  /** In a narrow tree the initial pass gives the forecast on top of the first token. */
  lemma {:induction false} NarrowForetold(spec: Spec, parents: seq<int>, prefix: seq<Entry>, ctx: seq<Token>,
                                          first: Token, outs: seq<Out<Entry>>, n: nat)
    requires spec.Valid() && IsLayout(spec.branches, parents) && Narrow(spec.branches)
    requires FirstOuts(spec, parents, prefix, ctx, first, outs) && n < |outs|
    ensures AreForetold(spec.forward, prefix, ctx + [first], spec.vocab, outs[1..n + 1])
  {
    if n > 0 {
      NarrowForetold(spec, parents, prefix, ctx, first, outs, n - 1);
      var seen, t, pos := NarrowSlot(spec, parents, prefix, ctx, first, outs, n);
      assert outs[1..n + 1] == outs[1..n] + [outs[n]];
      SlotForetold(spec.forward, outs[n], prefix, ctx + [first], spec.vocab, outs[1..n], seen, t, pos,
                   outs[1..n + 1]);
    }
  }

  lemma {:induction false} NarrowSlot(spec: Spec, parents: seq<int>, prefix: seq<Entry>, ctx: seq<Token>, first: Token,
                                      outs: seq<Out<Entry>>, s: nat) returns (seen: seq<Entry>, t: Token, pos: nat)
    requires spec.Valid() && IsLayout(spec.branches, parents) && Narrow(spec.branches)
    requires FirstOuts(spec, parents, prefix, ctx, first, outs) && 0 < s < |outs|
    ensures seen == prefix + Entries(spec.forward, ctx + [first]) + Kvs(outs[1..s])
    ensures t == spec.vocab + (s - 1) && pos == |ctx| + s && Gives(spec.forward, outs[s], seen, t, pos)
  {
    seen, t, pos := RootedSeen(spec.forward, prefix, ctx, parents, outs[..s]), spec.vocab + (s - 1), |ctx| + s;
    NarrowSeen(spec, parents, prefix, ctx, first, outs, s);
    NarrowPath(spec.branches, parents, s);
    FirstBlockAt(spec, first, s);
    RootedGives(spec.forward, prefix, ctx, parents, FirstBlock(spec, first), outs, s, seen, t, pos);
  }

  lemma {:induction false} FirstBlockAt(spec: Spec, first: Token, s: nat)
    requires 0 < s <= |spec.branches|
    ensures s < |FirstBlock(spec, first)| && FirstBlock(spec, first)[s] == spec.vocab + (s - 1)
  {
    ForecastTokenAt(spec.vocab, |spec.branches|, 1, 0, s - 1);
  }

  lemma {:induction false} RootedGives<E>(f: Forward<E>, prefix: seq<E>, ctx: seq<Token>, parents: seq<int>,
                                          tokens: seq<Token>, outs: seq<Out<E>>, s: nat, seen: seq<E>, t: Token,
                                          pos: nat)
    requires AreRooted(f, prefix, ctx, parents, tokens, outs) && s < |outs|
    requires seen == RootedSeen(f, prefix, ctx, parents, outs[..s])
    requires t == tokens[s] && pos == RootedPos(ctx, parents, s)
    ensures Gives(f, outs[s], seen, t, pos)
  {
    assert RootedAt(f, prefix, ctx, parents, tokens, outs, s);
  }

  lemma {:induction false} NarrowRows(spec: Spec, parents: seq<int>, prefix: seq<Entry>, ctx: seq<Token>, first: Token,
                                      outs: seq<Out<Entry>>)
    requires spec.Valid() && IsLayout(spec.branches, parents) && Narrow(spec.branches)
    requires FirstOuts(spec, parents, prefix, ctx, first, outs)
    ensures FirstRows(|spec.branches|, outs) == spec.RowsForetold(prefix, ctx + [first])
  {
    NarrowForetold(spec, parents, prefix, ctx, first, outs, |spec.branches|);
  }

  // ----- in a wide tree -----

  /** The outputs of the initial pass exist. */
  lemma {:induction false} RootedExist<E>(f: Forward<E>, prefix: seq<E>, ctx: seq<Token>, parents: seq<int>,
                                          tokens: seq<Token>, n: nat) returns (outs: seq<Out<E>>)
    requires IsTree(parents) && n <= |tokens| <= |parents|
    ensures |outs| == n && AreRooted(f, prefix, ctx, parents, tokens, outs)
  {
    if n == 0 {
      outs := [];
    } else {
      var before := RootedExist(f, prefix, ctx, parents, tokens, n - 1);
      outs := RootedOneMore(f, prefix, ctx, parents, tokens, before,
                            RootedSeen(f, prefix, ctx, parents, before), RootedPos(ctx, parents, n - 1));
    }
  }

  lemma {:induction false} RootedOneMore<E>(f: Forward<E>, prefix: seq<E>, ctx: seq<Token>, parents: seq<int>,
                                            tokens: seq<Token>, before: seq<Out<E>>, seen: seq<E>, pos: nat)
      returns (outs: seq<Out<E>>)
    requires AreRooted(f, prefix, ctx, parents, tokens, before) && |before| < |tokens| <= |parents|
    requires seen == RootedSeen(f, prefix, ctx, parents, before) && pos == RootedPos(ctx, parents, |before|)
    ensures |outs| == |before| + 1 && AreRooted(f, prefix, ctx, parents, tokens, outs)
  {
    var n := |before|;
    outs := before + [f(seen, tokens[n], pos)];
    assert outs[..n] == before;
    AtRoot(f, prefix, ctx, parents, tokens, outs, n, seen, pos);
    RootedBefore(f, prefix, ctx, parents, tokens, before, outs);
  }

  lemma {:induction false} RootedBefore<E>(f: Forward<E>, prefix: seq<E>, ctx: seq<Token>, parents: seq<int>,
                                           tokens: seq<Token>, before: seq<Out<E>>, outs: seq<Out<E>>)
    requires AreRooted(f, prefix, ctx, parents, tokens, before) && |before| <= |outs| <= |tokens| <= |parents|
    requires before == outs[..|before|]
    ensures forall i :: 0 <= i < |before| ==> RootedAt(f, prefix, ctx, parents, tokens, outs, i)
  {
    forall i | 0 <= i < |before| ensures RootedAt(f, prefix, ctx, parents, tokens, outs, i) {
      RootedLonger(f, prefix, ctx, parents, tokens, before, outs, i, RootedSeen(f, prefix, ctx, parents, before[..i]));
    }
  }

  lemma {:induction false} RootedLonger<E>(f: Forward<E>, prefix: seq<E>, ctx: seq<Token>, parents: seq<int>,
                                           tokens: seq<Token>, before: seq<Out<E>>, outs: seq<Out<E>>, i: nat,
                                           seen: seq<E>)
    requires AreRooted(f, prefix, ctx, parents, tokens, before) && i < |before| <= |outs| <= |tokens| <= |parents|
    requires before == outs[..|before|] && seen == RootedSeen(f, prefix, ctx, parents, before[..i])
    ensures RootedAt(f, prefix, ctx, parents, tokens, outs, i)
  {
    var pos := RootedPos(ctx, parents, i);
    RootedGives(f, prefix, ctx, parents, tokens, before, i, seen, tokens[i], pos);
    assert before[..i] == outs[..i];
    AtRoot(f, prefix, ctx, parents, tokens, outs, i, seen, pos);
  }

  /** A wide tree misleads a model that goes by positions: the second slot below a branching node is
      one position short. */
  lemma {:induction false} WideMisleads(spec: Spec, parents: seq<int>, prefix: seq<Entry>, ctx: seq<Token>,
                                        first: Token)
      returns (f: Forward<Entry>, outs: seq<Out<Entry>>)
    requires spec.Valid() && IsLayout(spec.branches, parents) && !Narrow(spec.branches)
    ensures spec.(forward := f).Valid() && FirstOuts(spec.(forward := f), parents, prefix, ctx, first, outs)
    ensures FirstRows(|spec.branches|, outs) != spec.(forward := f).RowsForetold(prefix, ctx + [first])
  {
    LayoutIsTree(spec.branches, parents);
    BlockFits(spec.branches);
    var d := FirstWide(spec.branches);
    UnitLevelParent(spec.branches, parents, d + 1);
    DepthBelow(spec.branches, parents, d);
    var e := spec.forward([], 0, 0).kv;
    f := SwitchModel(spec, e, |ctx| + d + 2);
    var s := spec.(forward := f);
    outs := RootedExist(f, prefix, ctx, parents, FirstBlock(s, first), |spec.branches| + 1);
    assert RootedAt(f, prefix, ctx, parents, FirstBlock(s, first), outs, d + 2);
    var seen, t, pos := ForetoldAt(f, prefix, ctx + [first], spec.vocab, d + 1, |spec.branches|);
    assert FirstRows(|spec.branches|, outs)[d + 1] == OneHot(spec.vocab, 0);
    assert s.RowsForetold(prefix, ctx + [first])[d + 1] == OneHot(spec.vocab, 1);
    assert OneHot(spec.vocab, 0)[0] != OneHot(spec.vocab, 1)[0];
  }

  lemma {:induction false} DepthBelow(branches: seq<nat>, parents: seq<int>, d: nat)
    requires GoodBranches(branches) && IsLayout(branches, parents) && IsTree(parents)
    requires d < |branches| - 1 && branches[d] > 1 && forall e :: 0 <= e < d ==> branches[e] == 1
    ensures d + 2 < |parents| && Depth(parents, d + 2) == d + 1
  {
    UnitLevelParent(branches, parents, d + 1);
    UnitLevels(branches, d);
    LevelDepth(branches, parents, d, 0);
  }

  /** A model that prefers token 0 before position `p` and token 1 from there on. */
  function Switch<E>(e: E, vocab: nat, p: int): Forward<E>
    requires 2 <= vocab
  {
    (seen, t, pos) => Out(e, if pos < p then OneHot(vocab, 0) else OneHot(vocab, 1))
  }

  lemma {:induction false} SwitchModel(spec: Spec, e: Entry, p: int) returns (f: Forward<Entry>)
    requires spec.Valid() && e == spec.forward([], 0, 0).kv
    ensures 2 <= spec.vocab && f == Switch(e, spec.vocab, p)
    ensures spec.(forward := f).Valid() && spec.(forward := f, eos := {}).Valid()
  {
    assert spec.branches[0] + 1 <= spec.vocab;
    EntryWellShaped(spec.forward, spec.shapes, [], 0, 0);
    f := Switch(e, spec.vocab, p);
    forall seen: seq<Entry>, t: Token, pos: int
      ensures |f(seen, t, pos).logits| == spec.vocab && EntryFits(spec.shapes, f(seen, t, pos).kv)
    {
      assert f(seen, t, pos).kv == e;
      assert f(seen, t, pos).logits == if pos < p then OneHot(spec.vocab, 0) else OneHot(spec.vocab, 1);
    }
  }

  /** For every model the initial pass forecasts on top of the first token, exactly if every level but
      the last branches once. */
  lemma {:induction false} InitialForecastIff(spec: Spec, parents: seq<int>, prefix: seq<Entry>, ctx: seq<Token>,
                                              first: Token)
    requires spec.Valid() && IsLayout(spec.branches, parents)
    ensures (forall f: Forward<Entry>, outs: seq<Out<Entry>> ::
               spec.(forward := f).Valid() && FirstOuts(spec.(forward := f), parents, prefix, ctx, first, outs) ==>
                 FirstRows(|spec.branches|, outs) == spec.(forward := f).RowsForetold(prefix, ctx + [first]))
       <==> Narrow(spec.branches)
  {
    if Narrow(spec.branches) {
      forall f: Forward<Entry>, outs: seq<Out<Entry>>
        | spec.(forward := f).Valid() && FirstOuts(spec.(forward := f), parents, prefix, ctx, first, outs)
        ensures FirstRows(|spec.branches|, outs) == spec.(forward := f).RowsForetold(prefix, ctx + [first])
      {
        NarrowRows(spec.(forward := f), parents, prefix, ctx, first, outs);
      }
    } else {
      var f, outs := WideMisleads(spec, parents, prefix, ctx, first);
    }
  }

  /** In a narrow tree the first draft, too, is filled from the forecast on top of everything fed. */
  lemma {:induction false} FirstDraftOn(spec: Spec, parents: seq<int>, prefix: seq<Entry>, ctx: seq<Token>,
                                        first: Token,
                                        h: Head)
    requires spec.Valid() && IsLayout(spec.branches, parents) && Narrow(spec.branches)
    requires Starts(spec, parents, prefix, ctx, first, h)
    ensures spec.DraftedOn(parents, prefix, h.fed, h.draft)
  {
    var outs, tops :|
      FirstOuts(spec, parents, prefix, ctx, first, outs)
      && IsDraft(spec.branches, parents, FirstRows(|spec.branches|, outs), tops, first, h.draft);
    NarrowRows(spec, parents, prefix, ctx, first, outs);
  }
}
