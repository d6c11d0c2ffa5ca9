/** Plain one-token-at-a-time greedy decoding over an arbitrary forward function.

    This is the reference that self-speculative decoding is measured against.  A
    forward function maps the cache entries a token attends to (in position
    order), the token and its position to the token's own cache entry and its row
    of logits.  Nothing else is known about it.
 */
module Decoding {

  type Token = int

  datatype Out<+E> = Out(kv: E, logits: seq<real>)

  type Forward<!E> = (seq<E>, Token, int) -> Out<E>

  /** Every row of logits has one entry per vocabulary item. */
  ghost predicate HasVocab<E(!new)>(f: Forward<E>, vocab: nat)
  {
    forall seen: seq<E>, t: Token, p: int :: |f(seen, t, p).logits| == vocab
  }

  /** `k` is the first position of a maximal element among the first `n`. */
  ghost predicate FirstMax(row: seq<real>, n: nat, k: nat)
  {
    && k < n <= |row|
    && (forall j :: 0 <= j < n ==> row[j] <= row[k])
    && (forall j :: 0 <= j < k ==> row[j] < row[k])
  }

  lemma {:induction false} FirstMaxExists(row: seq<real>, n: nat)
    requires 0 < n <= |row|
    ensures exists k: nat :: FirstMax(row, n, k)
  {
    if n == 1 {
      assert FirstMax(row, 1, 0);
    } else {
      FirstMaxExists(row, n - 1);
      var k: nat :| FirstMax(row, n - 1, k);
      assert FirstMax(row, n, if row[n - 1] > row[k] then n - 1 else k);
    }
  }

  /** The token picked from a row of logits. */
  ghost function Argmax(row: seq<real>): (k: nat)
    requires row != []
    ensures FirstMax(row, |row|, k)
  {
    FirstMaxExists(row, |row|);
    var k: nat :| FirstMax(row, |row|, k);
    k
  }

  /** `argmaxLogits`: a scan for the first largest logit. */
  method ArgmaxLogits(row: seq<real>) returns (k: nat)
    requires row != []
    ensures k == Argmax(row)
  {
    k := 0;
    for j := 1 to |row|
      invariant FirstMax(row, j, k)
    {
      if row[j] > row[k] {
        k := j;
      }
    }
    ghost var best := Argmax(row);
    assert row[k] <= row[best] && row[best] <= row[k];
  }

  /** The cache entries of the first `n` tokens of a context, each computed from those before it. */
  function EntriesUpTo<E>(f: Forward<E>, ctx: seq<Token>, n: nat): (es: seq<E>)
    requires n <= |ctx|
    ensures |es| == n
  {
    if n == 0 then [] else
      var before := EntriesUpTo(f, ctx, n - 1);
      before + [f(before, ctx[n - 1], n - 1).kv]
  }

  function Entries<E>(f: Forward<E>, ctx: seq<Token>): (es: seq<E>)
    ensures |es| == |ctx|
  {
    EntriesUpTo(f, ctx, |ctx|)
  }

  /** The result of feeding the last token of a context after all the others. */
  function Feed<E>(f: Forward<E>, ctx: seq<Token>): Out<E>
    requires ctx != []
  {
    f(EntriesUpTo(f, ctx, |ctx| - 1), ctx[|ctx| - 1], |ctx| - 1)
  }

  lemma {:induction false} RowHasVocab<E(!new)>(f: Forward<E>, vocab: nat, seen: seq<E>, t: Token, p: int)
    requires HasVocab(f, vocab)
    ensures |f(seen, t, p).logits| == vocab
  {
  }

  lemma {:induction false} FeedHasVocab<E(!new)>(f: Forward<E>, vocab: nat, ctx: seq<Token>)
    requires ctx != [] && HasVocab(f, vocab)
    ensures |Feed(f, ctx).logits| == vocab
  {
    RowHasVocab(f, vocab, EntriesUpTo(f, ctx, |ctx| - 1), ctx[|ctx| - 1], |ctx| - 1);
  }

  ghost function NextToken<E(!new)>(f: Forward<E>, vocab: nat, ctx: seq<Token>): Token
    requires ctx != [] && 0 < vocab && HasVocab(f, vocab)
  {
    FeedHasVocab(f, vocab, ctx);
    Argmax(Feed(f, ctx).logits)
  }

  /** A context followed by the next `n` tokens, each chosen from all that precedes it. */
  ghost function Rollout(next: seq<Token> -> Token, ctx: seq<Token>, n: nat): (all: seq<Token>)
    ensures |all| == |ctx| + n
  {
    if n == 0 then ctx else
      var before := Rollout(next, ctx, n - 1);
      before + [next(before)]
  }

  /** The choice that greedy decoding makes after a non-empty context. */
  ghost function Choice<E(!new)>(f: Forward<E>, vocab: nat): seq<Token> -> Token
    requires 0 < vocab && HasVocab(f, vocab)
  {
    ctx => if ctx == [] then 0 else NextToken(f, vocab, ctx)
  }

  /** A context followed by the `n` tokens that one-at-a-time greedy decoding appends to it. */
  ghost function Greedy<E(!new)>(f: Forward<E>, vocab: nat, ctx: seq<Token>, n: nat): (all: seq<Token>)
    requires ctx != [] && 0 < vocab && HasVocab(f, vocab)
    ensures |all| == |ctx| + n
  {
    Rollout(Choice(f, vocab), ctx, n)
  }

  lemma {:induction false} EntriesAgree<E>(f: Forward<E>, a: seq<Token>, b: seq<Token>, n: nat)
    requires n <= |a| && n <= |b|
    requires forall k :: 0 <= k < n ==> a[k] == b[k]
    ensures EntriesUpTo(f, a, n) == EntriesUpTo(f, b, n)
  {
    if n != 0 {
      EntriesAgree(f, a, b, n - 1);
    }
  }

  function Kvs<E>(outs: seq<Out<E>>): (kvs: seq<E>)
    ensures |kvs| == |outs|
    ensures forall i :: 0 <= i < |outs| ==> kvs[i] == outs[i].kv
  {
    seq(|outs|, i requires 0 <= i < |outs| => outs[i].kv)
  }

  /** An output is that of a token at a position over the given entries. */
  ghost predicate Gives<E>(f: Forward<E>, out: Out<E>, seen: seq<E>, t: Token, pos: nat) {
    out == f(seen, t, pos)
  }

  /** An output is that of the last of the given tokens, fed one at a time. */
  ghost predicate Follows<E>(f: Forward<E>, out: Out<E>, ts: seq<Token>)
    requires ts != []
  {
    out == Feed(f, ts)
  }

  /** The outputs of the first `n` forecast tokens fed on top of a prefix and a context: each
      sees both, and the forecast tokens before it. */
  function Foretold<E>(f: Forward<E>, prefix: seq<E>, ctx: seq<Token>, vocab: nat, n: nat): (outs: seq<Out<E>>)
    ensures |outs| == n
  {
    if n == 0 then [] else
      var before := Foretold(f, prefix, ctx, vocab, n - 1);
      before + [f(prefix + Entries(f, ctx) + Kvs(before), vocab + (n - 1), |ctx| + (n - 1))]
  }

  ghost predicate AreForetold<E>(f: Forward<E>, prefix: seq<E>, ctx: seq<Token>, vocab: nat, outs: seq<Out<E>>) {
    outs == Foretold(f, prefix, ctx, vocab, |outs|)
  }

  /** Feeding one more token on top of a context and a path. */
  lemma {:induction false} FeedOnTop<E>(f: Forward<E>, ctx: seq<Token>, path: seq<Token>, t: Token)
    ensures Feed(f, ctx + (path + [t])) == f(Entries(f, ctx + path), t, |ctx| + |path|)
    ensures Entries(f, ctx + (path + [t])) == Entries(f, ctx + path) + [Feed(f, ctx + (path + [t])).kv]
  {
    EntriesAgree(f, ctx + path, ctx + (path + [t]), |ctx| + |path|);
  }

  /** Decoding can be stopped after any number of tokens and resumed. */
  lemma {:induction false} RolloutResumes(next: seq<Token> -> Token, ctx: seq<Token>, m: nat, n: nat)
    ensures Rollout(next, ctx, m + n) == Rollout(next, Rollout(next, ctx, m), n)
    decreases n
  {
    if n != 0 {
      RolloutResumes(next, ctx, m, n - 1);
    }
  }

  /** Asking for fewer tokens gives a prefix. */
  lemma {:induction false} RolloutPrefix(next: seq<Token> -> Token, ctx: seq<Token>, m: nat, n: nat)
    requires m <= n
    ensures Rollout(next, ctx, m) == Rollout(next, ctx, n)[..|ctx| + m]
    decreases n
  {
    if m < n {
      RolloutPrefix(next, ctx, m, n - 1);
    }
  }

  /** A continuation in which every token is the choice after what precedes it is the rollout. */
  lemma {:induction false} RolloutUnique(next: seq<Token> -> Token, ctx: seq<Token>, all: seq<Token>)
    requires |ctx| <= |all| && all[..|ctx|] == ctx
    requires forall k {:trigger all[..k]} :: |ctx| <= k < |all| ==> all[k] == next(all[..k])
    ensures all == Rollout(next, ctx, |all| - |ctx|)
    decreases |all|
  {
    if |all| > |ctx| {
      var n := |all| - 1;
      var init := all[..n];
      assert init[..|ctx|] == ctx;
      forall k {:trigger init[..k]} | |ctx| <= k < n ensures init[k] == next(init[..k]) {
        assert init[..k] == all[..k];
      }
      RolloutUnique(next, ctx, init);
      assert all == init + [all[n]];
    } else {
      assert all == ctx;
    }
  }

  /** Part of a further stretch extends a rollout; what comes next in the stretch is the next choice. */
  lemma {:induction false} RolloutExtends(next: seq<Token> -> Token, ctx: seq<Token>, m: nat, more: seq<Token>, n: nat)
    requires n <= |more|
    requires Rollout(next, ctx, m) + more == Rollout(next, Rollout(next, ctx, m), |more|)
    ensures Rollout(next, ctx, m) + more[..n] == Rollout(next, ctx, m + n)
    ensures n < |more| ==> more[n] == next(Rollout(next, ctx, m) + more[..n])
  {
    var all := Rollout(next, ctx, m);
    RolloutResumes(next, ctx, m, n);
    RolloutPrefix(next, all, n, |more|);
    assert (all + more)[..|all| + n] == all + more[..n];
    if n < |more| {
      RolloutPrefix(next, all, n + 1, |more|);
      assert (all + more)[..|all| + n + 1] == all + more[..n] + [more[n]];
      var before := Rollout(next, all, n);
      assert before == all + more[..n];
      assert Rollout(next, all, n + 1) == before + [next(before)];
      assert (before + [next(before)])[|before|] == (before + [more[n]])[|before|];
    }
  }

  /** A continuation in which every token is the greedy choice after what precedes it is greedy decoding. */
  lemma {:induction false} GreedyUnique<E(!new)>(f: Forward<E>, vocab: nat, ctx: seq<Token>, all: seq<Token>)
    requires ctx != [] && 0 < vocab && HasVocab(f, vocab) && |ctx| <= |all| && all[..|ctx|] == ctx
    requires forall k {:trigger all[..k]} :: |ctx| <= k < |all| ==> all[k] == NextToken(f, vocab, all[..k])
    ensures all == Greedy(f, vocab, ctx, |all| - |ctx|)
  {
    RolloutUnique(Choice(f, vocab), ctx, all);
  }

  /** Part of a further greedy stretch extends a greedy run; what comes next is the next token. */
  lemma {:induction false} GreedyExtends<E(!new)>(f: Forward<E>, vocab: nat, ctx: seq<Token>, m: nat,
                                                  more: seq<Token>, n: nat)
    requires ctx != [] && 0 < vocab && HasVocab(f, vocab) && n <= |more|
    requires Greedy(f, vocab, ctx, m) + more == Greedy(f, vocab, Greedy(f, vocab, ctx, m), |more|)
    ensures Greedy(f, vocab, ctx, m) + more[..n] == Greedy(f, vocab, ctx, m + n)
    ensures n < |more| ==> more[n] == NextToken(f, vocab, Greedy(f, vocab, ctx, m) + more[..n])
  {
    RolloutExtends(Choice(f, vocab), ctx, m, more, n);
  }
}
