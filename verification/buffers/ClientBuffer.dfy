/** The buffer allocator on tensor objects; the memory of a set of tensors is a
    BufferSpec.Memory. */
module ClientBuffer {
  import opened Options
  import opened BufferSpec

  class Tensor {
    var memType: MemType
    var data: Pointer
    var size: nat

    constructor ()
      ensures data.Null?
    {
      memType, data, size := Undefined, Null, 0;
    }

    ghost function State(): Fields
      reads this
    {
      Fields(memType, data, size)
    }
  }

  ghost function Arg(t: Tensor?): Option<Tensor> {
    if t == null then None else var some: Tensor := t; Some(some)
  }

  class ClientBuffer {
    var sameMemoryFreeTensors: set<Tensor>
    ghost var live: set<nat>

    constructor ()
      ensures sameMemoryFreeTensors == {} && live == {}
    {
      sameMemoryFreeTensors, live := {}, {};
    }

    /** The memory of the tensors in ts, which contains every tensor used. */
    ghost function View(ts: set<Tensor>): Memory<Tensor>
      reads this, ts
    {
      Memory(map t | t in ts :: t.State(), sameMemoryFreeTensors, live)
    }

    /** `block` is what malloc returns. */
    method AllocateTensorBuffer(t: Tensor?, size: nat, block: Option<nat>, ghost ts: set<Tensor>) returns (ok: bool)
      requires (t != null ==> t in ts) && (block.Some? ==> block.value !in live)
      modifies this`live, t
      ensures View(ts) == Apply(old(View(ts)), Allocate(Arg(t), size, block))
      ensures ok == Succeeds(Allocate(Arg(t), size, block))
      ensures ok <==> t != null && block.Some?
      ensures ok ==> t.memType == Raw && t.data == Block(block.value) && t.size == size
      ensures ok ==> live == old(live) + {block.value}
      ensures !ok && t != null ==> t.memType == Raw && t.data == old(t.data) && t.size == old(t.size)
      ensures !ok ==> live == old(live)
    {
      if t == null { return false; }
      t.memType := Raw;
      if block.None? { return false; }
      live := live + {block.value};
      t.data := Block(block.value);
      t.size := size;
      return true;
    }

    method FreeTensorBuffer(t: Tensor?, ghost ts: set<Tensor>) returns (ok: bool)
      requires t != null ==> t in ts
      modifies this`live, t
      ensures View(ts) == Apply(old(View(ts)), Free(Arg(t)))
      ensures ok == Succeeds(Free(Arg(t)))
      ensures ok <==> t != null
      ensures ok && !old(t.data).Null? ==> t.memType == Undefined && t.data == Null && t.size == 0
      ensures ok && old(t.data).Null? ==> t.State() == old(t.State())
      ensures live == if ok && t !in sameMemoryFreeTensors && old(t.data).Block? then old(live) - {old(t.data).id}
                      else old(live)
    {
      if t == null { return false; }
      if !t.data.Null? {
        if t !in sameMemoryFreeTensors {
          ghost var p := t.data;
          if p.Block? { live := live - {p.id}; }
        }
        t.data := Null;
        t.size := 0;
        t.memType := Undefined;
      }
      return true;
    }

    method UseSameMemory(dest: Tensor?, src: Tensor?, ghost ts: set<Tensor>) returns (ok: bool)
      requires (dest != null ==> dest in ts) && (src != null ==> src in ts)
      modifies this, dest
      ensures View(ts) == Apply(old(View(ts)), UseSame(Arg(dest), Arg(src)))
      ensures ok == Succeeds(UseSame(Arg(dest), Arg(src)))
      ensures ok <==> dest != null && src != null
      ensures ok && dest != src ==>
                && dest.memType == old(src.memType) && dest.data == old(src.data) && dest.size == old(src.size)
                && src.State() == old(src.State())
      ensures ok && dest == src ==>
                dest.State() == if old(dest.data).Null? then old(dest.State()) else Fields(Undefined, Null, 0)
      ensures sameMemoryFreeTensors == old(sameMemoryFreeTensors) + if ok then {dest} else {}
      ensures live == if ok && dest !in old(sameMemoryFreeTensors) && old(dest.data).Block?
                      then old(live) - {old(dest.data).id} else old(live)
      ensures !ok && dest != null ==> dest.State() == old(dest.State())
      ensures forall t: Tensor :: t in ts && t != dest ==> t.State() == old(t.State())
    {
      if dest == null || src == null { return false; }
      ok := FreeTensorBuffer(dest, ts);
      if !ok { return false; }
      dest.memType := src.memType;
      dest.data := src.data;
      dest.size := src.size;
      sameMemoryFreeTensors := sameMemoryFreeTensors + {dest};
    }

    method UseExternalMemory(dest: Tensor?, ext: Option<nat>, ghost ts: set<Tensor>) returns (ok: bool)
      requires dest != null ==> dest in ts
      modifies this, dest
      ensures View(ts) == Apply(old(View(ts)), UseExternal(Arg(dest), ext))
      ensures ok == Succeeds(UseExternal(Arg(dest), ext))
      ensures ok <==> dest != null && ext.Some?
      ensures ok ==> dest.memType == Raw && dest.data == External(ext.value) && dest.size == old(dest.size)
      ensures sameMemoryFreeTensors == old(sameMemoryFreeTensors) + if ok then {dest} else {}
      ensures live == if ok && dest !in old(sameMemoryFreeTensors) && old(dest.data).Block?
                      then old(live) - {old(dest.data).id} else old(live)
      ensures !ok && dest != null ==> dest.State() == old(dest.State())
      ensures forall t: Tensor :: t in ts && t != dest ==> t.State() == old(t.State())
    {
      if dest == null || ext.None? { return false; }
      var size := dest.size;
      ok := FreeTensorBuffer(dest, ts);
      if !ok { return false; }
      dest.memType := Raw;
      dest.data := External(ext.value);
      dest.size := size;
      sameMemoryFreeTensors := sameMemoryFreeTensors + {dest};
    }
  }
}
