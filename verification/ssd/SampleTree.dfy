/** The draft tree filled from forecast logits. */
module SampleTree {
  import opened Extents
  import opened KvLayout
  import opened Decoding
  import opened DraftTree
  import opened Sampling

  /** Fills the draft tree from `|branches|` rows of forecast logits starting at `startOffset`. */
  method BuildSampleTree(branches: seq<nat>, parents: seq<int>, samplesPerLevel: seq<nat>, nodesPerLevel: seq<nat>,
                         lastToken: Token, logits: seq<real>, vocab: nat, rows: nat, startOffset: nat)
      returns (tree: seq<Token>, ghost tops: seq<seq<Token>>)
    requires GoodBranches(branches) && IsLayout(branches, parents)
    requires |samplesPerLevel| == |nodesPerLevel| == |branches|
    requires forall d :: 0 <= d < |branches| ==> samplesPerLevel[d] == branches[d] + 1 <= vocab
    requires forall d :: 0 <= d < |branches| ==> nodesPerLevel[d] == LevelSize(branches, d + 1)
    requires startOffset + |branches| <= rows && Extent(vocab, rows) <= |logits|
    ensures IsDraft(branches, parents, ForecastRows(logits, vocab, rows, startOffset, |branches|), tops, lastToken,
                    tree)
  {
    ghost var fc := ForecastRows(logits, vocab, rows, startOffset, |branches|);
    tree, tops := [lastToken], [];
    var draftLevel, draftNodeIdx := 0, 0;
    var samples: seq<Token>, sampleIdx := [], 0;
    LevelSizePositive(branches, 1);
    while draftLevel < |branches|
      invariant draftLevel == |tops| <= |branches|
      invariant 0 < |tree| && tree[0] == lastToken
      invariant draftLevel < |branches| ==>
                  Filling(branches, parents, fc, tops, tree, draftLevel, draftNodeIdx, samples, sampleIdx)
      invariant draftLevel == |branches| ==>
                  |tree| == NodeCount(branches) && LevelsDrafted(branches, parents, fc, tops, tree, draftLevel)
      decreases |branches| - draftLevel,
                if draftLevel < |branches| then LevelSize(branches, draftLevel + 1) - draftNodeIdx else 0
    {
      var t;
      t, samples, sampleIdx := NextNode(branches, parents, tree, draftLevel, draftNodeIdx, samples, sampleIdx,
                                        samplesPerLevel[draftLevel], logits, vocab, rows, startOffset + draftLevel, fc,
                                        tops);
      tree := tree + [t];
      if draftNodeIdx + 1 < nodesPerLevel[draftLevel] {
        draftNodeIdx := draftNodeIdx + 1;
      } else {
        tops := tops + [samples];
        draftLevel := draftLevel + 1;
        draftNodeIdx := 0;
      }
    }
  }

  /** Drafts the next node, and brings the state of the loop up to date. */
  method NextNode(branches: seq<nat>, parents: seq<int>, tree: seq<Token>, level: nat, node: nat,
                  samples: seq<Token>, sampleIdx: nat, samplesNeeded: nat, logits: seq<real>, vocab: nat, rows: nat,
                  position: nat, ghost fc: seq<seq<real>>, ghost tops: seq<seq<Token>>)
      returns (t: Token, used: seq<Token>, nextIdx: nat)
    requires GoodBranches(branches) && IsLayout(branches, parents)
    requires Filling(branches, parents, fc, tops, tree, level, node, samples, sampleIdx)
    requires samplesNeeded == branches[level] + 1 <= vocab
    requires position < rows && Extent(vocab, rows) <= |logits| && fc[level] == UnitAt(logits, vocab, rows, position)
    ensures node + 1 < LevelSize(branches, level + 1) ==>
              Filling(branches, parents, fc, tops, tree + [t], level, node + 1, used, nextIdx)
    ensures node + 1 == LevelSize(branches, level + 1) ==>
              && LevelsDrafted(branches, parents, fc, tops + [used], tree + [t], level + 1)
              && (level + 1 < |branches| ==>
                    Filling(branches, parents, fc, tops + [used], tree + [t], level + 1, 0, used, nextIdx))
              && (level + 1 == |branches| ==> |tree + [t]| == NodeCount(branches))
  {
    t, used, nextIdx := DraftNode(branches, parents, tree, level, node, samples, sampleIdx, samplesNeeded, logits,
                                  vocab, rows, position);
    if node + 1 < LevelSize(branches, level + 1) {
      FillingNextNode(branches, parents, fc, tops, tree, level, node, t, used, nextIdx);
    } else {
      FillingNextLevel(branches, parents, fc, tops, tree, level, node, t, used, nextIdx);
    }
  }
}
