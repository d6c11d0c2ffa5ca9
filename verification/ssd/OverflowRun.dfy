/** Runs of the model object that fill the cache up. */
module OverflowRun {
  import opened Bytes
  import opened Callback
  import opened Decoding
  import opened DraftTree
  import opened Extents
  import opened KvCache
  import opened Overflow
  import opened SsdModel
  import opened SsdRun
  import opened SsdSpec

  /** Fresh input buffers, long enough for both strides. */
  method FreshBuffers(spec: Spec) returns (bufs: seq<array<byte>>)
    requires spec.Valid()
    ensures |bufs| == |spec.shapes| && fresh(bufs)
    ensures forall s, t :: 0 <= s < t < |bufs| ==> bufs[s] != bufs[t]
    ensures forall t :: 0 <= t < |bufs| ==>
              && Room(spec.shapes[t], bufs[t][..], spec.PrefillKv())
              && Room(spec.shapes[t], bufs[t][..], spec.DecodeKv())
  {
    bufs := [];
    for t := 0 to |spec.shapes|
      invariant |bufs| == t && fresh(bufs)
      invariant forall s, u :: 0 <= s < u < |bufs| ==> bufs[s] != bufs[u]
      invariant forall s :: 0 <= s < t ==>
                  && Room(spec.shapes[s], bufs[s][..], spec.PrefillKv())
                  && Room(spec.shapes[s], bufs[s][..], spec.DecodeKv())
    {
      var shape := spec.shapes[t];
      var buf := new byte[Extent(shape.unit, Extent(spec.PrefillKv(), shape.rows))
                          + Extent(shape.unit, Extent(spec.DecodeKv(), shape.rows))];
      bufs := bufs + [buf];
    }
  }

  /** Whenever a call lacks room, a model of the same sizes fills the cache up in it. */
  method FillUp(spec: Spec, prompt: seq<Token>, maxTokens: int)
      returns (trap: Spec, ending: Ending, ghost parents: seq<int>, ghost prefix: seq<Entry>, ghost trace: Trace)
    requires spec.Valid() && prompt != [] && spec.fp <= spec.PrefillKv() && !Roomy(spec, |prompt|, maxTokens)
    ensures trap.Valid() && trap == spec.(forward := trap.forward, eos := {})
    ensures Outcome(trap, parents, prefix, prompt, maxTokens, trace, ending) && ending == CacheFull
  {
    var e := spec.forward([], 0, 0).kv;
    var f := Trap(e, spec.vocab, |prompt|, |prompt| + 1 + Slack(maxTokens));
    trap := spec.(forward := f, eos := {});
    TrapIsSpec(spec, e, |prompt|, maxTokens);
    var bufs := FreshBuffers(trap);
    var model := new SsdModel(trap, bufs);
    var output;
    output, ending, trace := model.Generate(prompt, maxTokens, null, []);
    assert [] + prompt == prompt;
    parents, prefix := model.attentionMap, model.prefix;
    TrapOverflows(trap, e, parents, prefix, prompt, maxTokens, trace, ending);
  }

  /** One level of one branch, a context of eight tokens, four of them for a block. */
  function Small(): Spec {
    Spec([1], 0, 2, {}, 8, 4, 4, [TensorShape(1, 1, TensorSpec.UInt8)],
         (seen: seq<Entry>, t: Token, pos: int) => Out([[[0]]], OneHot(2, 0)))
  }

  lemma {:induction false} SmallIsValid()
    ensures Small().Valid() && !Roomy(Small(), 1, 10)
  {
    var spec := Small();
    forall seen: seq<Entry>, t: Token, p: int
      ensures |spec.forward(seen, t, p).logits| == 2 && EntryFits(spec.shapes, spec.forward(seen, t, p).kv)
    {
      assert spec.forward(seen, t, p) == Out([[[0]]], OneHot(2, 0));
    }
    SlotCountIsProduct([1]);
    assert LevelSize([1], 0) == 1 && LevelSize([1], 1) == Extent(1, 1) == 1;
    assert LevelStart([1], 1) == 1 && LevelStart([1], 2) == 2;
  }

  /** A one-token prompt and a limit of ten tokens fill it up. */
  method FillUpSmall() returns (ending: Ending, ghost parents: seq<int>, ghost trap: Spec, ghost prefix: seq<Entry>,
                                ghost trace: Trace)
    ensures trap.Valid() && trap == Small().(forward := trap.forward)
    ensures Outcome(trap, parents, prefix, [0], 10, trace, ending) && ending == CacheFull
  {
    SmallIsValid();
    var t;
    t, ending, parents, prefix, trace := FillUp(Small(), [0], 10);
    trap := t;
  }
}
