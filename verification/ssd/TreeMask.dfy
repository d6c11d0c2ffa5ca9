/** The additive attention mask and the position ids of a tree-shaped block of tokens. */
module TreeMask {
  import opened Decoding
  import opened DraftTree
  import opened Extents
  import opened ForwardPass

  /** Row `i` of the mask, starting at `base`, opens exactly the cells of the tree relation. */
  ghost predicate RowMasked(mask: seq<real>, base: nat, parents: seq<int>, fp: nat, nPast: nat, kvLen: nat, seqLen: nat,
                            kvPrefixOffset: nat, i: nat)
    requires IsTree(parents) && i < |parents| && base + kvLen + seqLen <= |mask|
  {
    forall j :: 0 <= j < kvLen + seqLen ==>
      mask[base + j] == if TreeOpen(parents, fp, nPast, kvLen, kvPrefixOffset, i, j) then OPEN else BLOCKED
  }

  ghost predicate RowDone(mask: seq<real>, parents: seq<int>, fp: nat, nPast: nat, kvLen: nat, seqLen: nat,
                          kvPrefixOffset: nat, i: nat)
    requires IsTree(parents) && i < |parents|
  {
    && Extent(kvLen + seqLen, i) + kvLen + seqLen <= |mask|
    && RowMasked(mask, Extent(kvLen + seqLen, i), parents, fp, nPast, kvLen, seqLen, kvPrefixOffset, i)
  }

  ghost predicate Blocked(mask: seq<real>, lo: nat, hi: nat)
    requires lo <= hi <= |mask|
  {
    forall u :: lo <= u < hi ==> mask[u] == BLOCKED
  }

  /** One row: the visible part of the cache, the slot itself, and the walk up its ancestors. */
  method OpenRow(mask: array<real>, base: nat, parents: seq<int>, fp: nat, nPast: nat, kvLen: nat, seqLen: nat,
                 kvPrefixOffset: nat, i: nat)
    requires IsTree(parents) && i < |parents| && i < seqLen && nPast <= kvLen
    requires base + kvLen + seqLen <= mask.Length
    requires Blocked(mask[..], base, base + kvLen + seqLen)
    modifies mask
    ensures RowMasked(mask[..], base, parents, fp, nPast, kvLen, seqLen, kvPrefixOffset, i)
    ensures forall u :: 0 <= u < mask.Length && !(base <= u < base + kvLen + seqLen) ==> mask[u] == old(mask[u])
  {
    var from := if i < kvPrefixOffset then fp else 0;
    var j := from;
    while j < nPast
      invariant from <= j && (from <= nPast ==> j <= nPast)
      invariant forall u :: 0 <= u < mask.Length ==>
                  mask[u] == if base + from <= u < base + j && u < base + nPast then OPEN else old(mask[u])
    {
      mask[base + j] := OPEN;
      j := j + 1;
    }
    mask[base + kvLen + i] := OPEN;
    var ancestor := parents[i];
    forall a | 0 <= a < seqLen ensures Opened(parents, a, ancestor, i) <==> a == i {
      if ancestor >= 0 && OnPath(parents, i, ancestor) {
        OnPathBounds(parents, i, ancestor);
      }
    }
    while ancestor >= 0
      invariant -1 <= ancestor < i
      invariant ancestor >= 0 ==> OnPath(parents, ancestor, i) && PathContains(parents, ancestor, i)
      invariant forall u :: 0 <= u < mask.Length && !(base <= u < base + kvLen + seqLen) ==> mask[u] == old(mask[u])
      invariant forall u :: base <= u < base + kvLen ==>
                  mask[u] == if from <= u - base < nPast then OPEN else BLOCKED
      invariant forall u :: base + kvLen <= u < base + kvLen + seqLen ==>
                  mask[u] == if Opened(parents, u - base - kvLen, ancestor, i) then OPEN else BLOCKED
      decreases ancestor
    {
      mask[base + kvLen + ancestor] := OPEN;
      PathContainsUp(parents, ancestor, i);
      forall a | 0 <= a < seqLen
        ensures Opened(parents, a, parents[ancestor], i) <==> a == ancestor || Opened(parents, a, ancestor, i)
      {
        if parents[ancestor] >= 0 && a == ancestor && OnPath(parents, a, parents[ancestor]) {
          OnPathBounds(parents, a, parents[ancestor]);
        }
      }
      ancestor := parents[ancestor];
    }
  }

  /** Everything on the path to `a` is on the path to `i`. */
  ghost predicate PathContains(parents: seq<int>, a: nat, i: nat)
    requires IsTree(parents) && a < |parents| && i < |parents|
  {
    forall x :: OnPath(parents, x, a) ==> OnPath(parents, x, i)
  }

  lemma {:induction false} PathContainsUp(parents: seq<int>, a: nat, i: nat)
    requires IsTree(parents) && a < |parents| && i < |parents|
    requires OnPath(parents, a, i) && PathContains(parents, a, i)
    ensures parents[a] >= 0 ==> OnPath(parents, parents[a], i) && PathContains(parents, parents[a], i)
  {
    if parents[a] >= 0 {
      forall x | OnPath(parents, x, parents[a]) ensures OnPath(parents, x, i) {
        assert OnPath(parents, x, a);
      }
      assert OnPath(parents, parents[a], parents[a]);
    }
  }

  /** The ancestors of `i` already opened when the walk has reached `ancestor`. */
  ghost predicate Opened(parents: seq<int>, a: int, ancestor: int, i: nat)
    requires IsTree(parents) && ancestor < |parents| && i < |parents|
  {
    OnPath(parents, a, i) && (ancestor < 0 || !OnPath(parents, a, ancestor))
  }

  /** Opening a later row leaves a finished one alone. */
  lemma {:induction false} RowDoneKept(before: seq<real>, after: seq<real>, parents: seq<int>, fp: nat, nPast: nat,
                                       kvLen: nat, seqLen: nat, kvPrefixOffset: nat, k: nat, i: nat)
    requires IsTree(parents) && k < i && k < |parents| && |before| == |after|
    requires Extent(kvLen + seqLen, i) <= |before|
    requires RowDone(before, parents, fp, nPast, kvLen, seqLen, kvPrefixOffset, k)
    requires before[..Extent(kvLen + seqLen, i)] == after[..Extent(kvLen + seqLen, i)]
    ensures RowDone(after, parents, fp, nPast, kvLen, seqLen, kvPrefixOffset, k)
  {
    ExtentApart(kvLen + seqLen, k, i);
    var base, upto := Extent(kvLen + seqLen, k), Extent(kvLen + seqLen, i);
    forall u | base <= u < base + kvLen + seqLen ensures after[u] == before[u] {
      assert after[u] == after[..upto][u];
    }
  }

  /** The whole mask: the rows of the block's tokens, then fully blocked padding rows. */
  method BuildTreeAttentionMask(parents: seq<int>, fp: nat, nPast: nat, numTokens: nat, seqLen: nat, kvLen: nat,
                                kvPrefixOffset: nat) returns (mask: array<real>)
    requires IsTree(parents) && numTokens <= |parents| && numTokens <= seqLen && nPast <= kvLen
    ensures mask.Length == Extent(kvLen + seqLen, seqLen)
    ensures forall i :: 0 <= i < numTokens ==>
              RowDone(mask[..], parents, fp, nPast, kvLen, seqLen, kvPrefixOffset, i)
    ensures Extent(kvLen + seqLen, numTokens) <= mask.Length
    ensures Blocked(mask[..], Extent(kvLen + seqLen, numTokens), mask.Length)
    ensures AddsByTree(mask[..], parents, fp, nPast, numTokens, kvLen, seqLen, kvPrefixOffset)
  {
    var rowLen := kvLen + seqLen;
    mask := new real[Extent(rowLen, seqLen)](_ => BLOCKED);
    ExtentOrdered(rowLen, numTokens, seqLen);
    for i := 0 to numTokens
      invariant forall k :: 0 <= k < i ==>
                  RowDone(mask[..], parents, fp, nPast, kvLen, seqLen, kvPrefixOffset, k)
      invariant Extent(rowLen, i) <= mask.Length && Blocked(mask[..], Extent(rowLen, i), mask.Length)
    {
      ExtentApart(rowLen, i, seqLen);
      ghost var before := mask[..];
      OpenRow(mask, Extent(rowLen, i), parents, fp, nPast, kvLen, seqLen, kvPrefixOffset, i);
      forall k | 0 <= k < i
        ensures RowDone(mask[..], parents, fp, nPast, kvLen, seqLen, kvPrefixOffset, k)
      {
        RowDoneKept(before, mask[..], parents, fp, nPast, kvLen, seqLen, kvPrefixOffset, k, i);
      }
    }
    MaskAddsByTree(mask[..], parents, fp, nPast, numTokens, kvLen, seqLen, kvPrefixOffset);
  }

  // ----- what a mask does to the scores -----

  /** Slot `i` may attend to cell `j`: a valid cache column, without the prefix for the first slots, or a
      slot of the block that going up from `i` leads to. */
  ghost predicate Attends(parents: seq<int>, fp: nat, nPast: nat, kvLen: nat, kvPrefixOffset: nat, i: nat, j: nat)
    requires IsTree(parents) && i < |parents|
  {
    if j < kvLen then j < nPast && (i >= kvPrefixOffset || fp <= j) else ReachedUp(parents, i, j - kvLen)
  }

  /** Added to a score, a visible cell changes nothing, and any other, those of the padding rows included,
      takes off at least 10^9. */
  ghost predicate AddsByTree(mask: seq<real>, parents: seq<int>, fp: nat, nPast: nat, numTokens: nat, kvLen: nat,
                             seqLen: nat, kvPrefixOffset: nat)
    requires IsTree(parents) && numTokens <= |parents|
  {
    && (forall i :: 0 <= i < numTokens ==> AddsInRow(mask, parents, fp, nPast, kvLen, seqLen, kvPrefixOffset, i))
    && (forall u :: Extent(kvLen + seqLen, numTokens) <= u < |mask| ==> mask[u] <= -1000000000.0)
  }

  ghost predicate AddsInRow(mask: seq<real>, parents: seq<int>, fp: nat, nPast: nat, kvLen: nat, seqLen: nat,
                            kvPrefixOffset: nat, i: nat)
    requires IsTree(parents) && i < |parents|
  {
    var base := Extent(kvLen + seqLen, i);
    && base + kvLen + seqLen <= |mask|
    && forall j :: 0 <= j < kvLen + seqLen ==>
         if Attends(parents, fp, nPast, kvLen, kvPrefixOffset, i, j) then mask[base + j] == 0.0
         else mask[base + j] <= -1000000000.0
  }

  lemma {:induction false} MaskAddsByTree(mask: seq<real>, parents: seq<int>, fp: nat, nPast: nat, numTokens: nat,
                                          kvLen: nat, seqLen: nat, kvPrefixOffset: nat)
    requires IsTree(parents) && numTokens <= |parents| && nPast <= kvLen && Extent(kvLen + seqLen, numTokens) <= |mask|
    requires forall i :: 0 <= i < numTokens ==>
               RowDone(mask, parents, fp, nPast, kvLen, seqLen, kvPrefixOffset, i)
    requires Blocked(mask, Extent(kvLen + seqLen, numTokens), |mask|)
    ensures AddsByTree(mask, parents, fp, nPast, numTokens, kvLen, seqLen, kvPrefixOffset)
  {
    forall i | 0 <= i < numTokens ensures AddsInRow(mask, parents, fp, nPast, kvLen, seqLen, kvPrefixOffset, i) {
      assert RowDone(mask, parents, fp, nPast, kvLen, seqLen, kvPrefixOffset, i);
      RowAddsByTree(mask, parents, fp, nPast, kvLen, seqLen, kvPrefixOffset, i);
    }
  }

  lemma {:induction false} RowAddsByTree(mask: seq<real>, parents: seq<int>, fp: nat, nPast: nat, kvLen: nat,
                                         seqLen: nat, kvPrefixOffset: nat, i: nat)
    requires IsTree(parents) && i < |parents| && nPast <= kvLen
    requires RowDone(mask, parents, fp, nPast, kvLen, seqLen, kvPrefixOffset, i)
    ensures AddsInRow(mask, parents, fp, nPast, kvLen, seqLen, kvPrefixOffset, i)
  {
    forall j | 0 <= j < kvLen + seqLen
      ensures Attends(parents, fp, nPast, kvLen, kvPrefixOffset, i, j)
         <==> TreeOpen(parents, fp, nPast, kvLen, kvPrefixOffset, i, j)
    {
      if j >= kvLen { OnPathIsReached(parents, j - kvLen, i); }
    }
  }

  /** Position ids: the root at `nPast - fp`, every other slot one after its parent. */
  method ComputeTreePositionIds(parents: seq<int>, fp: nat, nPast: nat, numTokens: nat) returns (posIds: seq<int>)
    requires IsTree(parents) && numTokens <= |parents| && fp <= nPast
    ensures |posIds| == numTokens
    ensures forall i :: 0 <= i < numTokens ==> posIds[i] == nPast - fp + Depth(parents, i)
  {
    posIds := seq(numTokens, _ => 0);
    for i := 0 to numTokens
      invariant |posIds| == numTokens
      invariant forall k :: 0 <= k < i ==> posIds[k] == nPast - fp + Depth(parents, k)
    {
      if parents[i] < 0 {
        posIds := posIds[i := nPast - fp];
      } else {
        posIds := posIds[i := posIds[parents[i]] + 1];
      }
    }
  }

  // ----- chunked prefill -----

  /** A chunk of prompt tokens is the tree in which every slot hangs below the one before it. */
  function ChainMap(n: nat): (parents: seq<int>)
    ensures |parents| == n && forall i :: 0 <= i < n ==> parents[i] == i - 1
  {
    seq(n, i requires 0 <= i => i - 1)
  }

  lemma {:induction false} ChainIsTree(n: nat)
    requires n > 0
    ensures IsTree(ChainMap(n))
  {
  }

  /** In a chunk, everything up to a slot is on its path, and its depth is its index. */
  lemma {:induction false} ChainPath(n: nat, a: int, i: nat)
    requires i < n && IsTree(ChainMap(n))
    ensures OnPath(ChainMap(n), a, i) <==> 0 <= a <= i
    ensures Depth(ChainMap(n), i) == i
    ensures Path(ChainMap(n), i) == seq(i + 1, k requires 0 <= k => k)
    decreases i
  {
    if i > 0 {
      ChainPath(n, a, i - 1);
    }
  }

  /** Row `i` of a prefill mask: the cache after the prefix, then the chunk up to `i`. */
  ghost predicate CausalRow(mask: seq<real>, base: nat, fp: nat, nPast: nat, kvLen: nat, seqLen: nat, i: nat)
    requires base + kvLen + seqLen <= |mask|
  {
    forall u :: base <= u < base + kvLen + seqLen ==>
      mask[u] == if fp <= u - base < nPast || kvLen <= u - base <= kvLen + i then OPEN else BLOCKED
  }

  ghost predicate CausalRowDone(mask: seq<real>, fp: nat, nPast: nat, kvLen: nat, seqLen: nat, i: nat)
  {
    && Extent(kvLen + seqLen, i) + kvLen + seqLen <= |mask|
    && CausalRow(mask, Extent(kvLen + seqLen, i), fp, nPast, kvLen, seqLen, i)
  }

  method OpenCausalRow(mask: array<real>, base: nat, fp: nat, nPast: nat, kvLen: nat, seqLen: nat, i: nat)
    requires i < seqLen && nPast <= kvLen && base + kvLen + seqLen <= mask.Length
    requires Blocked(mask[..], base, base + kvLen + seqLen)
    modifies mask
    ensures CausalRow(mask[..], base, fp, nPast, kvLen, seqLen, i)
    ensures forall u :: 0 <= u < mask.Length && !(base <= u < base + kvLen + seqLen) ==> mask[u] == old(mask[u])
  {
    var col := fp;
    while col < nPast
      invariant fp <= col && (fp <= nPast ==> col <= nPast)
      invariant forall u :: 0 <= u < mask.Length ==>
                  mask[u] == if base + fp <= u < base + col && u < base + nPast then OPEN else old(mask[u])
    {
      mask[base + col] := OPEN;
      col := col + 1;
    }
    for own := 0 to i + 1
      invariant forall u :: 0 <= u < mask.Length ==>
                  mask[u] == if base + fp <= u < base + nPast || base + kvLen <= u < base + kvLen + own then OPEN
                             else old(mask[u])
    {
      mask[base + kvLen + own] := OPEN;
    }
  }

  /** The causal mask of one prompt chunk, which skips the forecast prefix. */
  method BuildPrefillMask(fp: nat, nPast: nat, chunkSize: nat, seqLen: nat, kvLen: nat) returns (mask: array<real>)
    requires chunkSize <= seqLen && nPast <= kvLen
    ensures mask.Length == Extent(kvLen + seqLen, seqLen)
    ensures forall i :: 0 <= i < chunkSize ==> CausalRowDone(mask[..], fp, nPast, kvLen, seqLen, i)
    ensures AddsByOrder(mask[..], fp, nPast, chunkSize, kvLen, seqLen)
  {
    var rowLen := kvLen + seqLen;
    mask := new real[Extent(rowLen, seqLen)](_ => BLOCKED);
    ExtentOrdered(rowLen, chunkSize, seqLen);
    for i := 0 to chunkSize
      invariant forall k :: 0 <= k < i ==> CausalRowDone(mask[..], fp, nPast, kvLen, seqLen, k)
      invariant Extent(rowLen, i) <= mask.Length && Blocked(mask[..], Extent(rowLen, i), mask.Length)
    {
      ExtentApart(rowLen, i, seqLen);
      ghost var before := mask[..];
      OpenCausalRow(mask, Extent(rowLen, i), fp, nPast, kvLen, seqLen, i);
      forall k | 0 <= k < i ensures CausalRowDone(mask[..], fp, nPast, kvLen, seqLen, k) {
        CausalRowKept(before, mask[..], fp, nPast, kvLen, seqLen, k, i);
      }
    }
    MaskAddsByOrder(mask[..], fp, nPast, chunkSize, kvLen, seqLen);
  }

  /** Token `i` of a chunk may attend to cell `j`: a valid column after the prefix, or the chunk up to `i`. */
  predicate AttendsInOrder(fp: nat, nPast: nat, kvLen: nat, i: nat, j: nat) {
    if j < kvLen then fp <= j < nPast else j - kvLen <= i
  }

  ghost predicate AddsByOrder(mask: seq<real>, fp: nat, nPast: nat, chunkSize: nat, kvLen: nat, seqLen: nat) {
    && (forall i :: 0 <= i < chunkSize ==> AddsInOrder(mask, fp, nPast, kvLen, seqLen, i))
    && (forall u :: Extent(kvLen + seqLen, chunkSize) <= u < |mask| ==> mask[u] <= -1000000000.0)
  }

  ghost predicate AddsInOrder(mask: seq<real>, fp: nat, nPast: nat, kvLen: nat, seqLen: nat, i: nat) {
    var base := Extent(kvLen + seqLen, i);
    && base + kvLen + seqLen <= |mask|
    && forall j :: 0 <= j < kvLen + seqLen ==>
         if AttendsInOrder(fp, nPast, kvLen, i, j) then mask[base + j] == 0.0 else mask[base + j] <= -1000000000.0
  }

  lemma {:induction false} MaskAddsByOrder(mask: seq<real>, fp: nat, nPast: nat, chunkSize: nat, kvLen: nat,
                                           seqLen: nat)
    requires nPast <= kvLen && Extent(kvLen + seqLen, chunkSize) <= |mask|
    requires forall i :: 0 <= i < chunkSize ==> CausalRowDone(mask, fp, nPast, kvLen, seqLen, i)
    requires Blocked(mask, Extent(kvLen + seqLen, chunkSize), |mask|)
    ensures AddsByOrder(mask, fp, nPast, chunkSize, kvLen, seqLen)
  {
    forall i | 0 <= i < chunkSize ensures AddsInOrder(mask, fp, nPast, kvLen, seqLen, i) {
      assert CausalRowDone(mask, fp, nPast, kvLen, seqLen, i);
    }
  }

  lemma {:induction false} CausalRowKept(before: seq<real>, after: seq<real>, fp: nat, nPast: nat, kvLen: nat,
                                         seqLen: nat, k: nat, i: nat)
    requires k < i && |before| == |after| && Extent(kvLen + seqLen, i) <= |before|
    requires CausalRowDone(before, fp, nPast, kvLen, seqLen, k)
    requires before[..Extent(kvLen + seqLen, i)] == after[..Extent(kvLen + seqLen, i)]
    ensures CausalRowDone(after, fp, nPast, kvLen, seqLen, k)
  {
    ExtentApart(kvLen + seqLen, k, i);
    var base, upto := Extent(kvLen + seqLen, k), Extent(kvLen + seqLen, i);
    forall u | base <= u < base + kvLen + seqLen ensures after[u] == before[u] {
      assert after[u] == after[..upto][u];
    }
  }

  // ----- the passes these masks make -----

  /** A pass with a tree mask and tree position ids is a tree pass. */
  lemma {:induction false} MaskedPassIsTreePass<E>(p: Pass<E>, parents: seq<int>, fp: nat, nPast: nat, skipping: nat)
    requires IsTree(parents) && p.Shaped() && |p.tokens| <= |parents| && fp <= nPast <= |p.cols|
    requires forall i :: 0 <= i < |p.tokens| ==>
               RowDone(p.mask, parents, fp, nPast, |p.cols|, p.seqLen, skipping, i)
    requires forall i :: 0 <= i < |p.tokens| ==> p.pos[i] == nPast - fp + Depth(parents, i)
    ensures TreePass(p, parents, fp, nPast, skipping)
  {
    forall i, j | 0 <= i < |p.tokens| && 0 <= j < p.RowLen()
      ensures p.Cell(i, j) == OPEN <==> TreeOpen(parents, fp, nPast, |p.cols|, skipping, i, j)
    {
      assert RowDone(p.mask, parents, fp, nPast, |p.cols|, p.seqLen, skipping, i);
    }
  }

  /** A pass with a prefill mask and consecutive positions is the pass of a chain. */
  lemma {:induction false} CausalPassIsTreePass<E>(p: Pass<E>, fp: nat, nPast: nat)
    requires p.Shaped() && 0 < |p.tokens| && fp <= nPast <= |p.cols|
    requires forall i :: 0 <= i < |p.tokens| ==> CausalRowDone(p.mask, fp, nPast, |p.cols|, p.seqLen, i)
    requires forall i :: 0 <= i < |p.tokens| ==> p.pos[i] == nPast - fp + i
    ensures TreePass(p, ChainMap(|p.tokens|), fp, nPast, |p.tokens|)
  {
    var n := |p.tokens|;
    ChainIsTree(n);
    forall i, j | 0 <= i < n && 0 <= j < p.RowLen()
      ensures p.Cell(i, j) == OPEN <==> TreeOpen(ChainMap(n), fp, nPast, |p.cols|, n, i, j)
    {
      ChainPath(n, j - |p.cols|, i);
      assert CausalRowDone(p.mask, fp, nPast, |p.cols|, p.seqLen, i);
    }
    forall i | 0 <= i < n ensures p.pos[i] == nPast - fp + Depth(ChainMap(n), i) {
      ChainPath(n, 0, i);
    }
  }

  lemma {:induction false} ChunkFed<E>(f: Forward<E>, p: Pass<E>, fp: nat, nPast: nat, ctx: seq<Token>)
    requires 0 < |p.tokens| && TreePass(p, ChainMap(|p.tokens|), fp, nPast, |p.tokens|)
    requires p.cols[fp..nPast] == Entries(f, ctx)
    ensures forall i :: 0 <= i < |p.tokens| ==>
              Fed(f, ChainMap(|p.tokens|), p.tokens, ctx, Run(f, p, |p.tokens|), i)
  {
    forall i | 0 <= i < |p.tokens| ensures Fed(f, ChainMap(|p.tokens|), p.tokens, ctx, Run(f, p, |p.tokens|), i) {
      TreePassIsSequential(f, p, ChainMap(|p.tokens|), fp, nPast, |p.tokens|, ctx, i);
    }
  }

  /** Slot `i` of a chunk pass computes what feeding the chunk up to `i` one token at a time would. */
  lemma {:induction false} ChunkSlotIsSequential<E>(f: Forward<E>, p: Pass<E>, fp: nat, nPast: nat, ctx: seq<Token>,
                                                    i: nat)
    requires i < |p.tokens| && TreePass(p, ChainMap(|p.tokens|), fp, nPast, |p.tokens|)
    requires p.cols[fp..nPast] == Entries(f, ctx)
    ensures Run(f, p, |p.tokens|)[i] == Feed(f, ctx + p.tokens[..i + 1])
  {
    ChunkFed(f, p, fp, nPast, ctx);
    assert Fed(f, ChainMap(|p.tokens|), p.tokens, ctx, Run(f, p, |p.tokens|), i);
    ChainTokens(p.tokens, i);
  }

  /** The entries of a chunk pass are those of feeding the chunk one token at a time. */
  lemma {:induction false} ChunkEntriesAreSequential<E>(f: Forward<E>, p: Pass<E>, fp: nat, nPast: nat, ctx: seq<Token>)
    requires 0 < |p.tokens| && TreePass(p, ChainMap(|p.tokens|), fp, nPast, |p.tokens|)
    requires p.cols[fp..nPast] == Entries(f, ctx)
    ensures Entries(f, ctx + p.tokens) == Entries(f, ctx) + Kvs(Run(f, p, |p.tokens|))
  {
    var n := |p.tokens|;
    var results := Run(f, p, n);
    ChunkFed(f, p, fp, nPast, ctx);
    EntriesAlongPath(f, ChainMap(n), p.tokens, ctx, results, n - 1);
    ChainTokens(p.tokens, n - 1);
    assert p.tokens[..n] == p.tokens;
    ChainPath(n, 0, n - 1);
    assert Along(Kvs(results), Path(ChainMap(n), n - 1)) == Kvs(results);
  }

  lemma {:induction false} ChainTokens(tokens: seq<Token>, i: nat)
    requires i < |tokens| && IsTree(ChainMap(|tokens|))
    ensures PathTokens(ChainMap(|tokens|), tokens, i) == tokens[..i + 1]
  {
    ChainPath(|tokens|, 0, i);
  }
}
