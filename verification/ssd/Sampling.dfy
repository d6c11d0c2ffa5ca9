/** How a draft tree is filled from forecast logits, and what makes it a good draft. */
module Sampling {
  import opened Decoding
  import opened DraftTree
  import opened Extents
  import opened KvLayout

  /** `s` lists `k` distinct tokens with the largest logits, best first. */
  ghost predicate IsTopK(row: seq<real>, k: nat, s: seq<Token>)
  {
    && |s| == k
    && (forall i :: 0 <= i < k ==> 0 <= s[i] < |row|)
    && (forall i, j :: 0 <= i < j < k ==> s[i] != s[j] && row[s[i]] >= row[s[j]])
    && (forall t {:trigger t in s} :: 0 <= t < |row| && t !in s && 0 < k ==> row[s[k - 1]] >= row[t])
  }

  /** `partial_sort` with the logits in descending order, keeping the first `k` indices. */
  method TopKLogits(row: seq<real>, k: nat) returns (s: seq<Token>)
    ensures IsTopK(row, if k > |row| then |row| else k, s)
  {
    var n := if k > |row| then |row| else k;
    s := [];
    while |s| < n
      invariant |s| <= n && IsTopK(row, |s|, s)
    {
      var best := FirstUnused(row, s);
      for t := best + 1 to |row|
        invariant 0 <= best < t && best !in s
        invariant forall u :: 0 <= u < t && u !in s ==> row[u] <= row[best]
      {
        if t !in s && row[t] > row[best] {
          best := t;
        }
      }
      s := s + [best];
    }
  }

  /** A list that contains every number below `n` has at least `n` elements. */
  lemma {:induction false} Pigeonhole(s: seq<Token>, n: nat)
    requires forall u :: 0 <= u < n ==> u in s
    ensures |s| >= n
  {
    if n != 0 {
      assert n - 1 in s;
      var k :| 0 <= k < |s| && s[k] == n - 1;
      var rest := s[..k] + s[k + 1..];
      forall u | 0 <= u < n - 1 ensures u in rest {
        assert u in s;
        var j :| 0 <= j < |s| && s[j] == u;
        assert rest[if j < k then j else j - 1] == u;
      }
      Pigeonhole(rest, n - 1);
    }
  }

  /** The first token that has not been listed yet. */
  method FirstUnused(row: seq<real>, s: seq<Token>) returns (t: nat)
    requires |s| < |row|
    ensures t < |row| && t !in s && forall u :: 0 <= u < t ==> u in s
  {
    t := 0;
    while t < |row| && t in s
      invariant t <= |row| && forall u :: 0 <= u < t ==> u in s
    {
      t := t + 1;
    }
    Pigeonhole(s, t);
  }

  // ----- sibling tokens -----

  /** The `c`-th sample, passing over `avoid`. */
  function NthOther(samples: seq<Token>, avoid: Token, c: nat): Token
    requires c + 1 < |samples|
  {
    if avoid in samples[..c + 1] then samples[c + 1] else samples[c]
  }

  /** Node `off` of level `d + 1` holds its parent's next sample, the parent's own token passed over. */
  ghost predicate NodeDrafted(branches: seq<nat>, parents: seq<int>, tree: seq<Token>, d: nat, samples: seq<Token>,
                              off: nat)
    requires d < |branches|
  {
    var i := LevelStart(branches, d + 1) + off;
    && i < |tree| && i < |parents| && 0 <= parents[i] < i
    && branches[d] >= 1 && off % branches[d] + 1 < |samples|
    && tree[i] == NthOther(samples, tree[parents[i]], off % branches[d])
  }

  /** The first `n` nodes of level `d + 1` are drafted from the level's samples. */
  ghost predicate LevelDrafted(branches: seq<nat>, parents: seq<int>, tree: seq<Token>, d: nat, samples: seq<Token>,
                               n: nat)
    requires d < |branches|
  {
    forall off :: 0 <= off < n ==> NodeDrafted(branches, parents, tree, d, samples, off)
  }

  /** The first `n` levels are drafted from the best `branches[d] + 1` tokens of their rows of logits. */
  ghost predicate LevelsDrafted(branches: seq<nat>, parents: seq<int>, rows: seq<seq<real>>, tops: seq<seq<Token>>,
                                tree: seq<Token>, n: nat)
    requires n <= |branches| && n <= |rows| && n <= |tops|
  {
    forall d :: 0 <= d < n ==>
      && IsTopK(rows[d], branches[d] + 1, tops[d])
      && LevelDrafted(branches, parents, tree, d, tops[d], LevelSize(branches, d + 1))
  }

  /** A full draft: the last accepted token at the root and every level drafted from the
      forecast logits. */
  ghost predicate IsDraft(branches: seq<nat>, parents: seq<int>, rows: seq<seq<real>>, tops: seq<seq<Token>>,
                          last: Token, tree: seq<Token>)
  {
    && |tree| == NodeCount(branches) <= |parents| && 0 < |tree| && tree[0] == last
    && |rows| == |tops| == |branches|
    && LevelsDrafted(branches, parents, rows, tops, tree, |branches|)
  }

  /** Skipping leaves the samples distinct, in order, and never equal to what is skipped. */
  lemma {:induction false} NthOtherDistinct(row: seq<real>, samples: seq<Token>, avoid: Token, c: nat, e: nat)
    requires IsTopK(row, |samples|, samples) && c < e && e + 1 < |samples|
    ensures NthOther(samples, avoid, c) != avoid && NthOther(samples, avoid, e) != avoid
    ensures NthOther(samples, avoid, c) != NthOther(samples, avoid, e)
    ensures 0 <= NthOther(samples, avoid, c) < |row| && 0 <= NthOther(samples, avoid, e) < |row|
    ensures row[NthOther(samples, avoid, c)] >= row[NthOther(samples, avoid, e)]
  {
    NotAvoided(row, samples, avoid, c);
    NotAvoided(row, samples, avoid, e);
    var i := if avoid in samples[..c + 1] then c + 1 else c;
    var j := if avoid in samples[..e + 1] then e + 1 else e;
    if avoid in samples[..c + 1] {
      var k :| 0 <= k < c + 1 && samples[k] == avoid;
      assert samples[..e + 1][k] == avoid;
    }
    assert i < j;
  }

  lemma {:induction false} NotAvoided(row: seq<real>, samples: seq<Token>, avoid: Token, c: nat)
    requires IsTopK(row, |samples|, samples) && c + 1 < |samples|
    ensures NthOther(samples, avoid, c) != avoid
  {
    if avoid in samples[..c + 1] {
      var k :| 0 <= k < c + 1 && samples[k] == avoid;
      assert samples[k] != samples[c + 1];
    } else {
      assert samples[..c + 1][c] == samples[c];
    }
  }

  /** Siblings sit in one level, below one parent. */
  lemma {:induction false} SiblingLevel(branches: seq<nat>, parents: seq<int>, i: nat, j: nat)
      returns (d: nat, x: nat, y: nat)
    requires GoodBranches(branches) && IsLayout(branches, parents)
    requires 0 < i < j < NodeCount(branches) <= |parents| && parents[i] == parents[j]
    ensures d < |branches| && x < y < LevelSize(branches, d + 1)
    ensures i == LevelStart(branches, d + 1) + x && j == LevelStart(branches, d + 1) + y
    ensures x / branches[d] == y / branches[d] && x % branches[d] < y % branches[d]
  {
    var e;
    d, x := DraftParent(branches, parents, i);
    e, y := DraftParent(branches, parents, j);
    LevelUnique(branches, d, x / branches[d], e, y / branches[e]);
    SameQuotient(x, y, branches[d]);
  }

  lemma {:induction false} SameQuotient(x: nat, y: nat, b: nat)
    requires b >= 1 && x < y && x / b == y / b
    ensures x % b < y % b
  {
  }

  lemma {:induction false} LevelUnique(branches: seq<nat>, d: nat, x: nat, e: nat, y: nat)
    requires d <= |branches| && e <= |branches|
    requires x < LevelSize(branches, d) && y < LevelSize(branches, e)
    requires LevelStart(branches, d) + x == LevelStart(branches, e) + y
    ensures d == e
  {
    if d < e {
      LevelStartMonotone(branches, d + 1, e);
    } else if e < d {
      LevelStartMonotone(branches, e + 1, d);
    }
  }

  /** Siblings carry distinct tokens, better logits first, and none repeats its parent's token. */
  lemma {:induction false} SiblingsDistinct(branches: seq<nat>, parents: seq<int>, rows: seq<seq<real>>,
                                            tops: seq<seq<Token>>, last: Token, tree: seq<Token>, i: nat, j: nat)
      returns (d: nat)
    requires GoodBranches(branches) && IsLayout(branches, parents) && IsDraft(branches, parents, rows, tops, last, tree)
    requires 0 < i < j < |tree| && parents[i] == parents[j]
    ensures 0 <= parents[i] < i && tree[i] != tree[j]
    ensures tree[i] != tree[parents[i]] && tree[j] != tree[parents[i]]
    ensures d < |rows| && 0 <= tree[i] < |rows[d]| && 0 <= tree[j] < |rows[d]|
    ensures rows[d][tree[i]] >= rows[d][tree[j]]
  {
    var x, y;
    d, x, y := SiblingLevel(branches, parents, i, j);
    assert NodeDrafted(branches, parents, tree, d, tops[d], x);
    assert NodeDrafted(branches, parents, tree, d, tops[d], y);
    NthOtherDistinct(rows[d], tops[d], tree[parents[i]], x % branches[d], y % branches[d]);
  }

  /** At most one child of a node can match a verified token. */
  lemma {:induction false} OneChildMatches(branches: seq<nat>, parents: seq<int>, rows: seq<seq<real>>,
                                           tops: seq<seq<Token>>, last: Token, tree: seq<Token>,
                                           node: nat, t: Token, i: nat, j: nat)
    requires GoodBranches(branches) && IsLayout(branches, parents) && IsDraft(branches, parents, rows, tops, last, tree)
    requires 0 < i < |tree| && 0 < j < |tree|
    requires parents[i] == node == parents[j] && tree[i] == t == tree[j]
    ensures i == j
  {
    if i < j {
      var d := SiblingsDistinct(branches, parents, rows, tops, last, tree, i, j);
    } else if j < i {
      var d := SiblingsDistinct(branches, parents, rows, tops, last, tree, j, i);
    }
  }

  // ----- building the draft -----

  function ForecastRows(logits: seq<real>, vocab: nat, rows: nat, start: nat, n: nat): (rs: seq<seq<real>>)
    requires start + n <= rows && Extent(vocab, rows) <= |logits|
    ensures |rs| == n && forall d :: 0 <= d < n ==> rs[d] == UnitAt(logits, vocab, rows, start + d)
  {
    seq(n, d requires 0 <= d < n => UnitAt(logits, vocab, rows, start + d))
  }

  /** Where the scan stands: node `off` of level `d + 1` is next, with the sample index
      `sampleIdx` for the children of the current parent. */
  ghost predicate Scan(branches: seq<nat>, parents: seq<int>, tree: seq<Token>, d: nat, off: nat,
                       samples: seq<Token>, sampleIdx: nat)
    requires d < |branches|
  {
    var c := if branches[d] >= 1 then off % branches[d] else 0;
    && LevelDrafted(branches, parents, tree, d, samples, off)
    && (c > 0 ==>
         var i := LevelStart(branches, d + 1) + off;
         && i < |parents| && 0 <= parents[i] < |tree| && c < |samples|
         && sampleIdx == if tree[parents[i]] in samples[..c] then c + 1 else c)
  }

  lemma {:induction false} SameParent(branches: seq<nat>, parents: seq<int>, d: nat, off: nat)
    requires GoodBranches(branches) && IsLayout(branches, parents) && d < |branches|
    requires off < LevelSize(branches, d + 1)
    ensures LevelStart(branches, d + 1) + off < |parents| && LevelStart(branches, d + 1) > 0
    ensures LevelStart(branches, d + 1) + off < NodeCount(branches)
    ensures 0 <= parents[LevelStart(branches, d + 1) + off] < LevelStart(branches, d + 1)
    ensures parents[LevelStart(branches, d + 1) + off] == parents[LevelStart(branches, d + 1) + off - 1]
       <==> off % branches[d] != 0
  {
    var b, start := branches[d], LevelStart(branches, d + 1);
    assert LevelAt(branches, parents, d);
    LevelStartMonotone(branches, 1, d + 1);
    LevelStartMonotone(branches, d + 2, |branches| + 1);
    BlockOf(off, LevelSize(branches, d), b);
    if off > 0 {
      QuotientStep(off, b);
    } else if d > 0 {
      assert LevelAt(branches, parents, d - 1);
      LevelSizePositive(branches, d);
      var last := LevelSize(branches, d) - 1;
      BlockOf(last, LevelSize(branches, d - 1), branches[d - 1]);
      assert start - 1 == LevelStart(branches, d) + last;
    }
  }

  lemma {:induction false} QuotientStep(off: nat, b: nat)
    requires off > 0 && b >= 1
    ensures off % b != 0 ==> off / b == (off - 1) / b && off % b == (off - 1) % b + 1
    ensures off % b == 0 ==> off / b == (off - 1) / b + 1
  {
    var q, r := off / b, off % b;
    ExtentIsProduct(b, q);
    if r != 0 {
      QuotientOf(q, b, r - 1);
    } else {
      assert off == Extent(b, q) && q > 0;
      QuotientOf(q - 1, b, b - 1);
    }
  }

  lemma {:induction false} ScanStart(branches: seq<nat>, parents: seq<int>, tree: seq<Token>, d: nat,
                                     samples: seq<Token>, sampleIdx: nat)
    requires GoodBranches(branches) && d < |branches|
    ensures Scan(branches, parents, tree, d, 0, samples, sampleIdx)
  {
    assert 0 % branches[d] == 0;
  }

  lemma {:induction false} LevelDraftedKept(branches: seq<nat>, parents: seq<int>, before: seq<Token>,
                                            after: seq<Token>, d: nat, samples: seq<Token>, n: nat)
    requires d < |branches| && LevelDrafted(branches, parents, before, d, samples, n) && before <= after
    ensures LevelDrafted(branches, parents, after, d, samples, n)
  {
    forall off | 0 <= off < n ensures NodeDrafted(branches, parents, after, d, samples, off) {
      assert NodeDrafted(branches, parents, before, d, samples, off);
    }
  }

  /** The sample index to use for the next node, before and after passing over the parent's token. */
  lemma {:induction false} PassOver(row: seq<real>, samples: seq<Token>, avoid: Token, c: nat)
    requires IsTopK(row, |samples|, samples) && c + 1 < |samples|
    ensures var idx := if avoid in samples[..c] then c + 1 else c;
              (if samples[idx] == avoid then idx + 1 else idx) == if avoid in samples[..c + 1] then c + 1 else c
  {
    assert samples[..c + 1] == samples[..c] + [samples[c]];
    if avoid in samples[..c] {
      var k :| 0 <= k < c && samples[..c][k] == avoid;
      assert samples[k] != samples[c + 1];
    }
  }

  /** Drafting node `off` advances the scan. */
  lemma {:induction false} ScanStep(branches: seq<nat>, parents: seq<int>, row: seq<real>, tree: seq<Token>,
                                    d: nat, off: nat, samples: seq<Token>, sampleIdx: nat, idx: nat, t: Token)
    requires GoodBranches(branches) && IsLayout(branches, parents) && d < |branches|
    requires off < LevelSize(branches, d + 1) && |tree| == LevelStart(branches, d + 1) + off
    requires IsTopK(row, branches[d] + 1, samples) && Scan(branches, parents, tree, d, off, samples, sampleIdx)
    requires LevelStart(branches, d + 1) + off < |parents| && 0 <= parents[|tree|] < |tree|
    requires var c := off % branches[d];
               && idx == (if tree[parents[|tree|]] in samples[..c + 1] then c + 1 else c)
               && t == samples[idx]
    ensures LevelDrafted(branches, parents, tree + [t], d, samples, off + 1)
    ensures off + 1 < LevelSize(branches, d + 1) ==>
              Scan(branches, parents, tree + [t], d, off + 1, samples, idx + 1)
  {
    var c, b := off % branches[d], branches[d];
    LevelDraftedKept(branches, parents, tree, tree + [t], d, samples, off);
    assert NodeDrafted(branches, parents, tree + [t], d, samples, off);
    if off + 1 < LevelSize(branches, d + 1) {
      SameParent(branches, parents, d, off + 1);
      QuotientStep(off + 1, b);
    }
  }

  lemma {:induction false} LevelsDraftedKept(branches: seq<nat>, parents: seq<int>, rows: seq<seq<real>>,
                                             tops: seq<seq<Token>>, before: seq<Token>, after: seq<Token>, n: nat)
    requires n <= |branches| && n <= |rows| && n <= |tops| && before <= after
    requires LevelsDrafted(branches, parents, rows, tops, before, n)
    ensures LevelsDrafted(branches, parents, rows, tops, after, n)
  {
    forall e | 0 <= e < n
      ensures LevelDrafted(branches, parents, after, e, tops[e], LevelSize(branches, e + 1))
    {
      LevelDraftedKept(branches, parents, before, after, e, tops[e], LevelSize(branches, e + 1));
    }
  }

  lemma {:induction false} LevelsDraftedNext(branches: seq<nat>, parents: seq<int>, rows: seq<seq<real>>,
                                             tops: seq<seq<Token>>, tree: seq<Token>, samples: seq<Token>)
    requires |tops| < |branches| && |tops| < |rows|
    requires LevelsDrafted(branches, parents, rows, tops, tree, |tops|)
    requires IsTopK(rows[|tops|], branches[|tops|] + 1, samples)
    requires LevelDrafted(branches, parents, tree, |tops|, samples, LevelSize(branches, |tops| + 1))
    ensures LevelsDrafted(branches, parents, rows, tops + [samples], tree, |tops| + 1)
  {
  }

  /** Reads one row of logits and takes its best `k` tokens. */
  method TopKAt(logits: seq<real>, vocab: nat, rows: nat, position: nat, k: nat) returns (s: seq<Token>)
    requires k <= vocab && position < rows && Extent(vocab, rows) <= |logits|
    ensures IsTopK(UnitAt(logits, vocab, rows, position), k, s)
  {
    s := TopKLogits(UnitAt(logits, vocab, rows, position), k);
  }

  /** Picks the token of the next draft node: resets the sample index under a new parent,
      reads the level's samples at its first node, passes over the parent's token. */
  method DraftNode(branches: seq<nat>, parents: seq<int>, tree: seq<Token>, draftLevel: nat, draftNodeIdx: nat,
                   samples: seq<Token>, sampleIdx: nat, samplesNeeded: nat,
                   logits: seq<real>, vocab: nat, rows: nat, position: nat)
      returns (t: Token, used: seq<Token>, nextIdx: nat)
    requires GoodBranches(branches) && IsLayout(branches, parents) && draftLevel < |branches|
    requires draftNodeIdx < LevelSize(branches, draftLevel + 1)
    requires |tree| == LevelStart(branches, draftLevel + 1) + draftNodeIdx
    requires samplesNeeded == branches[draftLevel] + 1 <= vocab
    requires position < rows && Extent(vocab, rows) <= |logits|
    requires draftNodeIdx > 0 ==> IsTopK(UnitAt(logits, vocab, rows, position), samplesNeeded, samples)
    requires draftNodeIdx > 0 ==> Scan(branches, parents, tree, draftLevel, draftNodeIdx, samples, sampleIdx)
    ensures IsTopK(UnitAt(logits, vocab, rows, position), samplesNeeded, used)
    ensures LevelDrafted(branches, parents, tree + [t], draftLevel, used, draftNodeIdx + 1)
    ensures draftNodeIdx + 1 < LevelSize(branches, draftLevel + 1) ==>
              Scan(branches, parents, tree + [t], draftLevel, draftNodeIdx + 1, used, nextIdx)
  {
    SameParent(branches, parents, draftLevel, draftNodeIdx);
    used := samples;
    var parentIdx, idx := parents[|tree|], sampleIdx;
    if parentIdx != parents[|tree| - 1] {
      idx := 0;
    }
    if draftNodeIdx == 0 {
      used := TopKAt(logits, vocab, rows, position, samplesNeeded);
      ScanStart(branches, parents, tree, draftLevel, used, sampleIdx);
    }
    ghost var row := UnitAt(logits, vocab, rows, position);
    PassOver(row, used, tree[parentIdx], draftNodeIdx % branches[draftLevel]);
    if used[idx] == tree[parentIdx] {
      idx := idx + 1;
    }
    t := used[idx];
    ScanStep(branches, parents, row, tree, draftLevel, draftNodeIdx, used, sampleIdx, idx, t);
    nextIdx := idx + 1;
  }

  /** The state of the filling loop: levels below `level` are complete, node `node` of the
      next one is to be drafted, its samples and sample index are at hand unless it is the first. */
  ghost predicate Filling(branches: seq<nat>, parents: seq<int>, fc: seq<seq<real>>, tops: seq<seq<Token>>,
                          tree: seq<Token>, level: nat, node: nat, samples: seq<Token>, sampleIdx: nat)
  {
    && |fc| == |branches| && level == |tops| < |branches|
    && node < LevelSize(branches, level + 1) && |tree| == LevelStart(branches, level + 1) + node
    && LevelsDrafted(branches, parents, fc, tops, tree, level)
    && (node > 0 ==>
         && IsTopK(fc[level], branches[level] + 1, samples)
         && Scan(branches, parents, tree, level, node, samples, sampleIdx))
  }

  lemma {:induction false} FillingNextNode(branches: seq<nat>, parents: seq<int>, fc: seq<seq<real>>,
                                           tops: seq<seq<Token>>, tree: seq<Token>, level: nat, node: nat,
                                           t: Token, samples: seq<Token>, sampleIdx: nat)
    requires |fc| == |branches| && level == |tops| < |branches|
    requires node + 1 < LevelSize(branches, level + 1) && |tree| == LevelStart(branches, level + 1) + node
    requires LevelsDrafted(branches, parents, fc, tops, tree, level)
    requires IsTopK(fc[level], branches[level] + 1, samples)
    requires Scan(branches, parents, tree + [t], level, node + 1, samples, sampleIdx)
    ensures Filling(branches, parents, fc, tops, tree + [t], level, node + 1, samples, sampleIdx)
  {
    LevelsDraftedKept(branches, parents, fc, tops, tree, tree + [t], level);
  }

  lemma {:induction false} FillingNextLevel(branches: seq<nat>, parents: seq<int>, fc: seq<seq<real>>,
                                            tops: seq<seq<Token>>, tree: seq<Token>, level: nat, node: nat,
                                            t: Token, samples: seq<Token>, sampleIdx: nat)
    requires GoodBranches(branches) && |fc| == |branches| && level == |tops| < |branches|
    requires node + 1 == LevelSize(branches, level + 1) && |tree| == LevelStart(branches, level + 1) + node
    requires LevelsDrafted(branches, parents, fc, tops, tree, level)
    requires IsTopK(fc[level], branches[level] + 1, samples)
    requires LevelDrafted(branches, parents, tree + [t], level, samples, node + 1)
    ensures LevelsDrafted(branches, parents, fc, tops + [samples], tree + [t], level + 1)
    ensures level + 1 < |branches| ==>
              Filling(branches, parents, fc, tops + [samples], tree + [t], level + 1, 0, samples, sampleIdx)
    ensures level + 1 == |branches| ==> |tree + [t]| == NodeCount(branches)
  {
    LevelsDraftedKept(branches, parents, fc, tops, tree, tree + [t], level);
    LevelsDraftedNext(branches, parents, fc, tops, tree + [t], samples);
    if level + 1 < |branches| {
      LevelSizePositive(branches, level + 2);
    }
  }
}
