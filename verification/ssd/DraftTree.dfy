/** The static draft tree: a parent-index array holding the draft nodes breadth
    first, followed by one chain of forecast slots per draft node.
 */
module DraftTree {
  import opened Extents

  /** Slot 0 is the root; every other slot's parent comes before it. */
  ghost predicate IsTree(parents: seq<int>)
  {
    && 0 < |parents|
    && parents[0] == -1
    && forall i :: 0 < i < |parents| ==> 0 <= parents[i] < i
  }

  function Depth(parents: seq<int>, i: nat): nat
    requires IsTree(parents) && i < |parents|
  {
    if i == 0 then 0 else 1 + Depth(parents, parents[i])
  }

  /** `a` lies on the path from the root to `i`, both ends included. */
  predicate OnPath(parents: seq<int>, a: int, i: nat)
    requires IsTree(parents) && i < |parents|
  {
    a == i || (i != 0 && OnPath(parents, a, parents[i]))
  }

  /** The path from the root to `i`, in order. */
  function Path(parents: seq<int>, i: nat): (p: seq<nat>)
    requires IsTree(parents) && i < |parents|
    ensures |p| == Depth(parents, i) + 1 && p[0] == 0 && p[|p| - 1] == i
    ensures forall k :: 0 <= k < |p| ==> p[k] <= i
  {
    if i == 0 then [0] else Path(parents, parents[i]) + [i]
  }

  lemma {:induction false} OnPathBounds(parents: seq<int>, a: int, i: nat)
    requires IsTree(parents) && i < |parents| && OnPath(parents, a, i)
    ensures 0 <= a <= i
  {
    if a != i {
      OnPathBounds(parents, a, parents[i]);
    }
  }

  /** The path lists exactly the ancestors, in ascending order and linked by the parent array. */
  lemma {:induction false} PathIsAncestors(parents: seq<int>, i: nat)
    requires IsTree(parents) && i < |parents|
    ensures forall a :: a in Path(parents, i) <==> OnPath(parents, a, i)
    ensures forall k :: 0 < k < |Path(parents, i)| ==>
              Path(parents, i)[k - 1] < Path(parents, i)[k] && parents[Path(parents, i)[k]] == Path(parents, i)[k - 1]
  {
    if i != 0 {
      var before := Path(parents, parents[i]);
      PathIsAncestors(parents, parents[i]);
      assert Path(parents, i) == before + [i];
      forall a ensures a in Path(parents, i) <==> OnPath(parents, a, i) {
        assert a in Path(parents, i) <==> a in before || a == i;
      }
    }
  }

  /** Where `k` steps up the parent array lead from slot `i`; -1 is above the root. */
  function Up(parents: seq<int>, i: nat, k: nat): (a: int)
    requires IsTree(parents) && i < |parents|
    ensures -1 <= a < |parents|
  {
    if k == 0 then i else
      var a := Up(parents, i, k - 1);
      if a < 0 then -1 else parents[a]
  }

  ghost predicate ReachedUp(parents: seq<int>, i: nat, a: int)
    requires IsTree(parents) && i < |parents|
  {
    a >= 0 && exists k: nat :: Up(parents, i, k) == a
  }

  lemma {:induction false} UpIsPath(parents: seq<int>, i: nat, k: nat)
    requires IsTree(parents) && i < |parents|
    ensures var p := Path(parents, i); Up(parents, i, k) == if k < |p| then p[|p| - 1 - k] else -1
  {
    PathIsAncestors(parents, i);
    if k > 0 {
      UpIsPath(parents, i, k - 1);
    }
  }

  /** The ancestors of a slot are the slots reached by going up. */
  lemma {:induction false} OnPathIsReached(parents: seq<int>, a: int, i: nat)
    requires IsTree(parents) && i < |parents|
    ensures OnPath(parents, a, i) <==> ReachedUp(parents, i, a)
  {
    var p := Path(parents, i);
    PathIsAncestors(parents, i);
    if OnPath(parents, a, i) {
      OnPathBounds(parents, a, i);
      var k :| 0 <= k < |p| && p[k] == a;
      UpIsPath(parents, i, |p| - 1 - k);
    }
    if a >= 0 && exists k: nat :: Up(parents, i, k) == a {
      var k: nat :| Up(parents, i, k) == a;
      UpIsPath(parents, i, k);
      assert a in p;
    }
  }

  // ----- the layout of the map -----

  ghost predicate GoodBranches(branches: seq<nat>)
  {
    |branches| >= 1 && forall d :: 0 <= d < |branches| ==> 1 <= branches[d]
  }

  /** The number of nodes in level `d`: the product of the first `d` branching factors. */
  function LevelSize(branches: seq<nat>, d: nat): nat
    requires d <= |branches|
  {
    if d == 0 then 1 else Extent(branches[d - 1], LevelSize(branches, d - 1))
  }

  /** The index of the first node of level `d`. */
  function LevelStart(branches: seq<nat>, d: nat): nat
    requires d <= |branches| + 1
  {
    if d == 0 then 0 else LevelStart(branches, d - 1) + LevelSize(branches, d - 1)
  }

  /** The number of draft nodes, root included. */
  function NodeCount(branches: seq<nat>): nat
  {
    LevelStart(branches, |branches| + 1)
  }

  /** The length of the whole map: the draft nodes and one chain of `|branches|` slots for each. */
  function SlotCount(branches: seq<nat>): (n: nat)
    ensures n >= NodeCount(branches)
  {
    NodeCount(branches) + Extent(|branches|, NodeCount(branches))
  }

  lemma {:induction false} SlotCountIsProduct(branches: seq<nat>)
    ensures SlotCount(branches) == NodeCount(branches) * (|branches| + 1)
  {
    ExtentIsProduct(|branches|, NodeCount(branches));
  }

  /** Forecast slot `d` of draft node `i`. */
  function ForecastSlot(branches: seq<nat>, i: nat, d: nat): nat
  {
    NodeCount(branches) + Extent(|branches|, i) + d
  }

  /** The first `n` slots of node `i`'s forecast chain. */
  function Chain(branches: seq<nat>, i: nat, n: nat): (slots: seq<nat>)
    ensures |slots| == n
  {
    seq(n, k requires 0 <= k => ForecastSlot(branches, i, k))
  }

  /** Draft level `d + 1` hangs breadth-first below level `d`. */
  ghost predicate LevelAt(branches: seq<nat>, parents: seq<int>, d: nat)
    requires d < |branches|
  {
    var start := LevelStart(branches, d + 1);
    && start + LevelSize(branches, d + 1) <= |parents|
    && (branches[d] > 0 ==>
         forall off :: 0 <= off < LevelSize(branches, d + 1) ==>
           parents[start + off] == LevelStart(branches, d) + off / branches[d])
  }

  /** Node `i` owns the forecast chain in slots `N + i*L .. N + i*L + L`. */
  ghost predicate ChainAt(branches: seq<nat>, parents: seq<int>, i: nat)
  {
    forall d :: 0 <= d < |branches| ==>
      && ForecastSlot(branches, i, d) < |parents|
      && parents[ForecastSlot(branches, i, d)] == if d == 0 then i else ForecastSlot(branches, i, d - 1)
  }

  /** The closed form of the whole attention map. */
  ghost predicate IsLayout(branches: seq<nat>, parents: seq<int>)
  {
    && |parents| == SlotCount(branches)
    && 0 < |parents|
    && parents[0] == -1
    && (forall d :: 0 <= d < |branches| ==> LevelAt(branches, parents, d))
    && (forall i :: 0 <= i < NodeCount(branches) ==> ChainAt(branches, parents, i))
  }

  lemma {:induction false} LevelSizePositive(branches: seq<nat>, d: nat)
    requires GoodBranches(branches) && d <= |branches|
    ensures LevelSize(branches, d) >= 1
  {
    if d != 0 {
      LevelSizePositive(branches, d - 1);
    }
  }

  lemma {:induction false} LevelStartMonotone(branches: seq<nat>, d: nat, e: nat)
    requires d <= e <= |branches| + 1
    ensures LevelStart(branches, d) <= LevelStart(branches, e)
    decreases e
  {
    if d < e {
      LevelStartMonotone(branches, d, e - 1);
    }
  }

  /** Every draft node other than the root has a level and an offset within it. */
  lemma {:induction false} LevelOf(branches: seq<nat>, i: nat, top: nat) returns (d: nat, off: nat)
    requires top <= |branches| && i < LevelStart(branches, top + 1)
    ensures d <= top && i == LevelStart(branches, d) + off && off < LevelSize(branches, d)
    decreases top
  {
    if LevelStart(branches, top) <= i {
      d, off := top, i - LevelStart(branches, top);
    } else {
      d, off := LevelOf(branches, i, top - 1);
    }
  }

  /** Division by the block size gives the block. */
  lemma {:induction false} BlockOf(off: nat, size: nat, b: nat)
    requires b >= 1 && off < Extent(b, size)
    ensures 0 <= off / b < size && off == Extent(b, off / b) + off % b
  {
    var q := off / b;
    ExtentIsProduct(b, q);
    assert off == q * b + off % b;
    if size <= q {
      ExtentOrdered(b, size, q);
    }
  }

  lemma {:induction false} QuotientOf(k: nat, b: nat, c: nat)
    requires c < b
    ensures (Extent(b, k) + c) / b == k && (Extent(b, k) + c) % b == c
  {
    var x := Extent(b, k) + c;
    BlockOf(x, k + 1, b);
    if x / b < k {
      ExtentApart(b, x / b, k);
    }
  }

  /** In the closed form, parents come first, so the map is a tree. */
  lemma {:induction false} LayoutIsTree(branches: seq<nat>, parents: seq<int>)
    requires GoodBranches(branches) && IsLayout(branches, parents)
    ensures IsTree(parents)
  {
    forall i | 0 < i < |parents| ensures 0 <= parents[i] < i {
      if i < NodeCount(branches) {
        var d, off := DraftParent(branches, parents, i);
      } else {
        var j, d := ChainOf(branches, i);
        ChainParent(branches, parents, j, d);
      }
    }
  }

  lemma {:induction false} DraftParent(branches: seq<nat>, parents: seq<int>, i: nat) returns (d: nat, off: nat)
    requires GoodBranches(branches) && IsLayout(branches, parents) && 0 < i < NodeCount(branches)
    ensures d < |branches| && i == LevelStart(branches, d + 1) + off && off < LevelSize(branches, d + 1)
    ensures i < |parents|
    ensures parents[i] == LevelStart(branches, d) + off / branches[d]
    ensures 0 <= off / branches[d] < LevelSize(branches, d)
    ensures 0 <= parents[i] < i
  {
    var e;
    e, off := LevelOf(branches, i, |branches|);
    d := e - 1;
    assert LevelAt(branches, parents, d);
    BlockOf(off, LevelSize(branches, d), branches[d]);
  }

  lemma {:induction false} ChainParent(branches: seq<nat>, parents: seq<int>, i: nat, d: nat)
    requires IsLayout(branches, parents) && i < NodeCount(branches) && d < |branches|
    ensures i < ForecastSlot(branches, i, d) < |parents|
    ensures d > 0 ==> ForecastSlot(branches, i, d) == ForecastSlot(branches, i, d - 1) + 1
    ensures parents[ForecastSlot(branches, i, d)] == if d == 0 then i else ForecastSlot(branches, i, d - 1)
  {
    assert ChainAt(branches, parents, i);
  }

  /** Every slot past the draft nodes is some node's forecast slot. */
  lemma {:induction false} ChainOf(branches: seq<nat>, i: nat) returns (j: nat, d: nat)
    requires GoodBranches(branches)
    requires NodeCount(branches) <= i < SlotCount(branches)
    ensures j < NodeCount(branches) && d < |branches| && i == ForecastSlot(branches, j, d)
  {
    var n, l := NodeCount(branches), |branches|;
    var off := i - n;
    BlockOf(off, n, l);
    j, d := off / l, off % l;
  }

  /** Depth is the level number for draft nodes, and counts on along the forecast chain. */
  lemma {:induction false} LevelDepth(branches: seq<nat>, parents: seq<int>, d: nat, off: nat)
    requires GoodBranches(branches) && IsLayout(branches, parents) && IsTree(parents)
    requires d <= |branches| && off < LevelSize(branches, d)
    ensures LevelStart(branches, d) + off < NodeCount(branches) <= |parents|
    ensures Depth(parents, LevelStart(branches, d) + off) == d
    decreases d
  {
    LevelStartMonotone(branches, d + 1, |branches| + 1);
    if d != 0 {
      assert LevelAt(branches, parents, d - 1);
      LevelSizePositive(branches, d - 1);
      LevelStartMonotone(branches, 0, d - 1);
      var i := LevelStart(branches, d) + off;
      var b := branches[d - 1];
      BlockOf(off, LevelSize(branches, d - 1), b);
      LevelDepth(branches, parents, d - 1, off / b);
      assert parents[i] == LevelStart(branches, d - 1) + off / b;
    }
  }

  lemma {:induction false} DraftDepth(branches: seq<nat>, parents: seq<int>, i: nat)
    requires GoodBranches(branches) && IsLayout(branches, parents) && IsTree(parents)
    requires i < NodeCount(branches)
    ensures i < |parents| && Depth(parents, i) <= |branches|
  {
    var d, off := LevelOf(branches, i, |branches|);
    LevelDepth(branches, parents, d, off);
  }

  /** The root path of a forecast slot is its node's path followed by the chain down to it. */
  lemma {:induction false} ForecastPath(branches: seq<nat>, parents: seq<int>, i: nat, d: nat)
    requires GoodBranches(branches) && IsLayout(branches, parents) && IsTree(parents)
    requires i < NodeCount(branches) && d < |branches|
    ensures i < |parents| && ForecastSlot(branches, i, d) < |parents|
    ensures Path(parents, ForecastSlot(branches, i, d)) == Path(parents, i) + Chain(branches, i, d + 1)
    decreases d
  {
    ChainParent(branches, parents, i, d);
    if d != 0 {
      ForecastPath(branches, parents, i, d - 1);
      assert Chain(branches, i, d + 1) == Chain(branches, i, d) + [ForecastSlot(branches, i, d)];
    }
  }

  /** The closed form leaves no freedom: it determines every cell. */
  lemma {:induction false} LayoutUnique(branches: seq<nat>, a: seq<int>, b: seq<int>)
    requires GoodBranches(branches) && IsLayout(branches, a) && IsLayout(branches, b)
    ensures a == b
  {
    forall i | 0 <= i < |a| ensures a[i] == b[i] {
      if i == 0 {
      } else if i < NodeCount(branches) {
        var d, off := DraftParent(branches, a, i);
        assert LevelAt(branches, b, d);
      } else {
        var j, d := ChainOf(branches, i);
        ChainParent(branches, a, j, d);
        ChainParent(branches, b, j, d);
      }
    }
  }

  /** In plain numbers: a draft node of depth `d` has `branches[d]` children, next to each other, and the
      nodes of the last level none. */
  lemma {:induction false} ChildrenAre(branches: seq<nat>, parents: seq<int>, i: nat) returns (first: nat)
    requires GoodBranches(branches) && IsLayout(branches, parents) && IsTree(parents) && i < NodeCount(branches)
    ensures i < |parents| && Depth(parents, i) <= |branches|
    ensures Depth(parents, i) < |branches| ==>
              && i < first && first + branches[Depth(parents, i)] <= NodeCount(branches)
              && forall c :: 0 < c < NodeCount(branches) ==>
                   (parents[c] == i <==> first <= c < first + branches[Depth(parents, i)])
    ensures Depth(parents, i) == |branches| ==> forall c :: 0 < c < NodeCount(branches) ==> parents[c] != i
  {
    var d, x := LevelOf(branches, i, |branches|);
    LevelDepth(branches, parents, d, x);
    first := 0;
    if d < |branches| {
      var b := branches[d];
      first := LevelStart(branches, d + 1) + Extent(b, x);
      ExtentApart(b, x, LevelSize(branches, d));
      LevelStartMonotone(branches, d + 2, |branches| + 1);
      LevelStartMonotone(branches, d, d + 1);
      forall c | 0 < c < NodeCount(branches) ensures parents[c] == i <==> first <= c < first + b {
        ChildIff(branches, parents, d, x, i, c);
      }
    } else {
      forall c | 0 < c < NodeCount(branches) ensures parents[c] != i {
        var e, off := DraftParent(branches, parents, c);
        LevelDepth(branches, parents, e, off / branches[e]);
      }
    }
  }

  lemma {:induction false} ChildIff(branches: seq<nat>, parents: seq<int>, d: nat, x: nat, i: nat, c: nat)
    requires GoodBranches(branches) && IsLayout(branches, parents) && IsTree(parents)
    requires d < |branches| && x < LevelSize(branches, d) && i == LevelStart(branches, d) + x
    requires 0 < c < NodeCount(branches)
    ensures var first := LevelStart(branches, d + 1) + Extent(branches[d], x);
            c < |parents| && (parents[c] == i <==> first <= c < first + branches[d])
  {
    var b, first := branches[d], LevelStart(branches, d + 1) + Extent(branches[d], x);
    if first <= c < first + b {
      ExtentApart(b, x, LevelSize(branches, d));
      QuotientOf(x, b, c - first);
      assert LevelAt(branches, parents, d);
      assert parents[LevelStart(branches, d + 1) + (c - LevelStart(branches, d + 1))] == i;
    } else {
      NoChild(branches, parents, d, x, i, c);
    }
  }

  lemma {:induction false} NoChild(branches: seq<nat>, parents: seq<int>, d: nat, x: nat, i: nat, c: nat)
    requires GoodBranches(branches) && IsLayout(branches, parents) && IsTree(parents)
    requires d < |branches| && x < LevelSize(branches, d) && i == LevelStart(branches, d) + x
    requires 0 < c < NodeCount(branches)
    requires var first := LevelStart(branches, d + 1) + Extent(branches[d], x); !(first <= c < first + branches[d])
    ensures c < |parents| && parents[c] != i
  {
    var e, off := DraftParent(branches, parents, c);
    if parents[c] == i {
      LevelDepth(branches, parents, d, x);
      LevelDepth(branches, parents, e, off / branches[e]);
      BlockOf(off, LevelSize(branches, e), branches[e]);
    }
  }

  /** Behind the draft nodes, `|branches|` slots for each of them in turn: the first hangs below the node,
      every other below the slot before it. */
  lemma {:induction false} ChainsAre(branches: seq<nat>, parents: seq<int>, i: nat, d: nat)
    requires IsLayout(branches, parents) && i < NodeCount(branches) && d < |branches|
    ensures var s := NodeCount(branches) + i * |branches| + d;
            0 < s < |parents| && parents[s] == if d == 0 then i else s - 1
    ensures |parents| == NodeCount(branches) + NodeCount(branches) * |branches|
  {
    ChainParent(branches, parents, i, d);
    ExtentIsProduct(|branches|, i);
    ExtentIsProduct(|branches|, NodeCount(branches));
  }

  // ----- generating the map -----

  /** Builds the attention map level by level, then the forecast chains; also the number
      of draft nodes and, per level, the samples needed and the nodes to fill. */
  method GenAttentionMap(branches: seq<nat>)
      returns (tree: seq<int>, numDraftNodes: nat, samplesPerLevel: seq<nat>, nodesPerLevel: seq<nat>)
    requires GoodBranches(branches)
    ensures IsLayout(branches, tree) && numDraftNodes == NodeCount(branches)
    ensures |samplesPerLevel| == |nodesPerLevel| == |branches|
    ensures forall d :: 0 <= d < |branches| ==> samplesPerLevel[d] == branches[d] + 1
    ensures forall d :: 0 <= d < |branches| ==> nodesPerLevel[d] == LevelSize(branches, d + 1)
  {
    tree := [-1];
    samplesPerLevel, nodesPerLevel := [], [];
    var startIdx := 0;
    for d := 0 to |branches|
      invariant startIdx == LevelStart(branches, d) && |tree| == LevelStart(branches, d + 1)
      invariant 0 < |tree| && tree[0] == -1
      invariant forall e :: 0 <= e < d ==> LevelAt(branches, tree, e)
      invariant |samplesPerLevel| == |nodesPerLevel| == d
      invariant forall e :: 0 <= e < d ==> samplesPerLevel[e] == branches[e] + 1
      invariant forall e :: 0 <= e < d ==> nodesPerLevel[e] == LevelSize(branches, e + 1)
    {
      var endIdx, branchCount := |tree|, branches[d];
      samplesPerLevel := samplesPerLevel + [branchCount + 1];
      ghost var before := tree;
      tree := AddLevel(branches, tree, d, startIdx, endIdx);
      forall e | 0 <= e < d ensures LevelAt(branches, tree, e) {
        LevelAtKept(branches, before, tree, e);
      }
      nodesPerLevel := nodesPerLevel + [|tree| - endIdx];
      startIdx := endIdx;
    }
    numDraftNodes := |tree|;
    tree := AddChains(branches, tree);
  }

  lemma {:induction false} LevelAtKept(branches: seq<nat>, before: seq<int>, after: seq<int>, d: nat)
    requires d < |branches| && LevelAt(branches, before, d) && before <= after
    ensures LevelAt(branches, after, d)
  {
  }

  /** One level: `branches[d]` children below every node of the level before it. */
  method AddLevel(branches: seq<nat>, before: seq<int>, d: nat, startIdx: nat, endIdx: nat) returns (tree: seq<int>)
    requires GoodBranches(branches) && d < |branches|
    requires startIdx == LevelStart(branches, d) && endIdx == LevelStart(branches, d + 1) == |before|
    ensures before <= tree && |tree| == LevelStart(branches, d + 2) && LevelAt(branches, tree, d)
  {
    tree := before;
    var b := branches[d];
    for nodeIdx := startIdx to endIdx
      invariant before <= tree && |tree| == endIdx + Extent(b, nodeIdx - startIdx)
      invariant forall off :: 0 <= off < Extent(b, nodeIdx - startIdx) ==> tree[endIdx + off] == startIdx + off / b
    {
      ghost var k := nodeIdx - startIdx;
      for c := 0 to b
        invariant before <= tree && |tree| == endIdx + Extent(b, k) + c
        invariant forall off :: 0 <= off < Extent(b, k) + c ==> tree[endIdx + off] == startIdx + off / b
      {
        QuotientOf(k, b, c);
        tree := tree + [nodeIdx];
      }
    }
  }

  /** The forecast chains: one chain of `|branches|` slots per draft node. */
  method AddChains(branches: seq<nat>, draft: seq<int>) returns (tree: seq<int>)
    requires GoodBranches(branches) && |draft| == NodeCount(branches)
    requires 0 < |draft| && draft[0] == -1
    requires forall d :: 0 <= d < |branches| ==> LevelAt(branches, draft, d)
    ensures IsLayout(branches, tree)
  {
    tree := draft;
    for nodeIdx := 0 to |draft|
      invariant draft <= tree && |tree| == ForecastSlot(branches, nodeIdx, 0)
      invariant forall i :: 0 <= i < nodeIdx ==> ChainAt(branches, tree, i)
    {
      ghost var before := tree;
      tree := AddChain(branches, tree, nodeIdx);
      forall i | 0 <= i < nodeIdx ensures ChainAt(branches, tree, i) {
        ChainAtKept(branches, before, tree, i);
      }
      NextChainStart(branches, nodeIdx);
    }
    forall d | 0 <= d < |branches| ensures LevelAt(branches, tree, d) {
      LevelAtKept(branches, draft, tree, d);
    }
  }

  lemma {:induction false} ChainAtKept(branches: seq<nat>, before: seq<int>, after: seq<int>, i: nat)
    requires ChainAt(branches, before, i) && before <= after
    ensures ChainAt(branches, after, i)
  {
  }

  /** One node's chain: the first forecast slot hangs below the node, each later one below the last. */
  method AddChain(branches: seq<nat>, before: seq<int>, nodeIdx: nat) returns (tree: seq<int>)
    requires GoodBranches(branches) && |before| == ForecastSlot(branches, nodeIdx, 0)
    ensures before <= tree && |tree| == ForecastSlot(branches, nodeIdx, |branches|)
    ensures ChainAt(branches, tree, nodeIdx)
  {
    ghost var base := |before|;
    tree := before + [nodeIdx];
    for d := 1 to |branches|
      invariant before <= tree && |tree| == base + d
      invariant forall s :: base <= s < base + d ==> tree[s] == if s == base then nodeIdx else s - 1
    {
      tree := tree + [|tree| - 1];
    }
    forall d | 0 <= d < |branches|
      ensures ForecastSlot(branches, nodeIdx, d) == base + d
    {
    }
  }

  lemma {:induction false} NextChainStart(branches: seq<nat>, i: nat)
    ensures ForecastSlot(branches, i + 1, 0) == ForecastSlot(branches, i, |branches|)
    ensures ForecastSlot(branches, NodeCount(branches), 0) == SlotCount(branches)
  {
  }
}
