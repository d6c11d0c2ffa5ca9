/** Who owns which block: the buffer operations on tensors as steps on a memory,
    over every sequence of operations. */
module BufferSpec {
  import opened Options

  datatype Pointer = Null | Block(id: nat) | External(id: nat)

  datatype MemType = Undefined | Raw | Handle

  datatype Fields = Fields(memType: MemType, data: Pointer, size: nat)

  /** `aliased` is m_sameMemoryFreeTensors; `live` are the blocks malloc has
      handed out and free has not taken back. */
  datatype Memory<T> = Memory(tensors: map<T, Fields>, aliased: set<T>, live: set<nat>)

  /** None stands for a null argument; an allocation carries what malloc returned. */
  datatype Action<T> =
    | Allocate(t: Option<T>, size: nat, block: Option<nat>)
    | Free(t: Option<T>)
    | UseSame(dest: Option<T>, src: Option<T>)
    | UseExternal(dest: Option<T>, ext: Option<nat>)

  ghost predicate Known<T>(m: Memory<T>, t: Option<T>) { t.Some? ==> t.value in m.tensors }

  /** The arguments are tensors, and malloc returns no block that is in use. */
  ghost predicate Enabled<T>(m: Memory<T>, a: Action<T>) {
    match a
    case Allocate(t, _, block) => Known(m, t) && (block.Some? ==> block.value !in m.live)
    case Free(t) => Known(m, t)
    case UseSame(dest, src) => Known(m, dest) && Known(m, src)
    case UseExternal(dest, _) => Known(m, dest)
  }

  /** What the operation returns. */
  ghost predicate Succeeds<T>(a: Action<T>) {
    match a
    case Allocate(t, _, block) => t.Some? && block.Some?
    case Free(t) => t.Some?
    case UseSame(dest, src) => dest.Some? && src.Some?
    case UseExternal(dest, ext) => dest.Some? && ext.Some?
  }

  ghost function Set<T>(m: Memory<T>, t: T, f: Fields): Memory<T> { m.(tensors := m.tensors[t := f]) }

  /** The pointer that freeing t passes to free(). */
  ghost function Released<T>(m: Memory<T>, t: T): Pointer
    requires t in m.tensors
  {
    if t in m.aliased then Null else m.tensors[t].data
  }

  ghost function Freed<T>(m: Memory<T>, t: T): Memory<T>
    requires t in m.tensors
  {
    if m.tensors[t].data.Null? then m
    else
      var p := Released(m, t);
      Set(m.(live := if p.Block? then m.live - {p.id} else m.live), t, Fields(Undefined, Null, 0))
  }

  ghost function Apply<T>(m: Memory<T>, a: Action<T>): Memory<T>
    requires Enabled(m, a)
  {
    match a
    case Allocate(t, size, block) =>
      if t.None? then m
      else if block.None? then Set(m, t.value, m.tensors[t.value].(memType := Raw))
      else Set(m.(live := m.live + {block.value}), t.value, Fields(Raw, Block(block.value), size))
    case Free(t) => if t.None? then m else Freed(m, t.value)
    case UseSame(dest, src) =>
      if dest.None? || src.None? then m
      else
        var n := Freed(m, dest.value);
        Set(n, dest.value, n.tensors[src.value]).(aliased := n.aliased + {dest.value})
    case UseExternal(dest, ext) =>
      if dest.None? || ext.None? then m
      else
        var n := Freed(m, dest.value);
        Set(n, dest.value,
            Fields(Raw, External(ext.value), m.tensors[dest.value].size)).(aliased := n.aliased + {dest.value})
  }

  // ---- ownership ----------------------------------------------------------------

  ghost predicate Owns<T>(m: Memory<T>, t: T) {
    t in m.tensors && t !in m.aliased && !m.tensors[t].data.Null?
  }

  /** A tensor outside the alias set points at a live block of its own, or at
      nothing. */
  ghost predicate Inv<T>(m: Memory<T>) {
    && (forall t :: t in m.tensors && Owns(m, t) ==> m.tensors[t].data.Block? && m.tensors[t].data.id in m.live)
    && (forall t, u :: t in m.tensors && u in m.tensors && Owns(m, t) && Owns(m, u) && t != u ==>
          m.tensors[t].data != m.tensors[u].data)
  }

  lemma {:induction false} FreedKeepsInv<T>(m: Memory<T>, t: T)
    requires Inv(m) && t in m.tensors
    ensures Inv(Freed(m, t))
  {
    assert Owns(m, t) ==> m.tensors[t].data == Released(m, t);
  }

  lemma {:induction false} StepKeepsInv<T>(m: Memory<T>, a: Action<T>)
    requires Inv(m) && Enabled(m, a)
    ensures Inv(Apply(m, a)) && Apply(m, a).tensors.Keys == m.tensors.Keys
  {
    match a
    case Allocate(_, _, _) =>
    case Free(t) => if t.Some? { FreedKeepsInv(m, t.value); }
    case UseSame(dest, src) => if dest.Some? { FreedKeepsInv(m, dest.value); }
    case UseExternal(dest, ext) => if dest.Some? { FreedKeepsInv(m, dest.value); }
  }

  /** The tensor a step frees before anything else. */
  ghost function Target<T>(a: Action<T>): Option<T> {
    match a
    case Allocate(_, _, _) => None
    case Free(t) => t
    case UseSame(dest, src) => if src.Some? then dest else None
    case UseExternal(dest, ext) => if ext.Some? then dest else None
  }

  /** Whatever a step passes to free() is a live block, which is then no longer
      live; nothing else leaves the live blocks. */
  lemma {:induction false} FreesAreSound<T>(m: Memory<T>, a: Action<T>)
    requires Inv(m) && Enabled(m, a)
    ensures var t := Target(a);
            if t.Some? && !Released(m, t.value).Null? then
              Released(m, t.value).Block? && Released(m, t.value).id in m.live
              && Apply(m, a).live == m.live - {Released(m, t.value).id}
            else m.live <= Apply(m, a).live
  {
    var t := Target(a);
    if t.Some? { assert !Released(m, t.value).Null? ==> Owns(m, t.value); }
  }

  // ---- runs ------------------------------------------------------------------------

  ghost predicate Allowed<T>(m: Memory<T>, acts: seq<Action<T>>)
    decreases |acts|
  {
    acts == [] || (Enabled(m, acts[0]) && Allowed(Apply(m, acts[0]), acts[1..]))
  }

  ghost function Run<T>(m: Memory<T>, acts: seq<Action<T>>): Memory<T>
    requires Allowed(m, acts)
    decreases |acts|
  {
    if acts == [] then m else Run(Apply(m, acts[0]), acts[1..])
  }

  lemma {:induction false} RunKeepsInv<T>(m: Memory<T>, acts: seq<Action<T>>)
    requires Inv(m) && Allowed(m, acts)
    ensures Inv(Run(m, acts)) && Run(m, acts).tensors.Keys == m.tensors.Keys
    decreases |acts|
  {
    if acts != [] {
      StepKeepsInv(m, acts[0]);
      RunKeepsInv(Apply(m, acts[0]), acts[1..]);
    }
  }

  /** A successful allocation for a tensor that was aliased once, or that still
      owns a block. */
  ghost predicate Loses<T>(m: Memory<T>, a: Action<T>)
    requires Enabled(m, a)
  {
    a.Allocate? && Succeeds(a) && (a.t.value in m.aliased || !m.tensors[a.t.value].data.Null?)
  }

  ghost function Losses<T>(m: Memory<T>, acts: seq<Action<T>>): nat
    requires Allowed(m, acts)
    decreases |acts|
  {
    if acts == [] then 0 else (if Loses(m, acts[0]) then 1 else 0) + Losses(Apply(m, acts[0]), acts[1..])
  }

  ghost function Owners<T>(m: Memory<T>): set<T> { set t | t in m.tensors.Keys && Owns(m, t) }

  lemma {:induction false} FreedOwners<T>(m: Memory<T>, t: T)
    requires Inv(m) && t in m.tensors
    ensures Owners(Freed(m, t)) == Owners(m) - {t}
    ensures |Freed(m, t).live| == |m.live| - if Owns(m, t) then 1 else 0
  {
    assert Owns(m, t) ==> m.tensors[t].data.id in m.live;
  }

  lemma {:induction false} AllocateOwners<T>(m: Memory<T>, a: Action<T>)
    requires Inv(m) && Enabled(m, a) && a.Allocate? && Succeeds(a)
    ensures Owners(Apply(m, a)) == if a.t.value in m.aliased then Owners(m) else Owners(m) + {a.t.value}
    ensures |Apply(m, a).live| == |m.live| + 1
  {
    var n, t := Apply(m, a), a.t.value;
    forall u | u in m.tensors.Keys && u != t ensures Owns(n, u) <==> Owns(m, u) {}
  }

  /** Once freed, a tensor put into the alias set owns nothing, whatever it
      points at. */
  lemma {:induction false} AliasOwners<T>(m: Memory<T>, t: T, f: Fields)
    requires Inv(m) && t in m.tensors
    ensures var n := Freed(m, t); Owners(Set(n, t, f).(aliased := n.aliased + {t})) == Owners(m) - {t}
  {
    FreedOwners(m, t);
    var n := Freed(m, t);
    assert Owners(Set(n, t, f).(aliased := n.aliased + {t})) == Owners(n);
  }

  lemma {:induction false} StepOwners<T>(m: Memory<T>, a: Action<T>)
    requires Inv(m) && Enabled(m, a)
    ensures var n := Apply(m, a);
            |n.live| - |Owners(n)| == |m.live| - |Owners(m)| + if Loses(m, a) then 1 else 0
  {
    var t := Target(a);
    if t.Some? { FreedOwners(m, t.value); }
    match a
    case Allocate(t, _, _) =>
      if Succeeds(a) {
        AllocateOwners(m, a);
        if t.value in Owners(m) { assert Owners(m) + {t.value} == Owners(m); }
      } else {
        assert Owners(Apply(m, a)) == Owners(m);
      }
    case Free(t) =>
    case UseSame(dest, src) =>
      if dest.Some? && src.Some? { AliasOwners(m, dest.value, Freed(m, dest.value).tensors[src.value]); }
    case UseExternal(dest, ext) =>
      if dest.Some? && ext.Some? {
        AliasOwners(m, dest.value, Fields(Raw, External(ext.value), m.tensors[dest.value].size));
      }
  }

  /** Over every run, the live blocks without an owner are exactly the losses. */
  lemma {:induction false} LiveAreOwnedOrLost<T>(m: Memory<T>, acts: seq<Action<T>>)
    requires Inv(m) && Allowed(m, acts)
    ensures var n := Run(m, acts); |n.live| - |Owners(n)| == |m.live| - |Owners(m)| + Losses(m, acts)
    decreases |acts|
  {
    if acts != [] {
      StepOwners(m, acts[0]);
      StepKeepsInv(m, acts[0]);
      LiveAreOwnedOrLost(Apply(m, acts[0]), acts[1..]);
    }
  }

  // ---- freeing everything ---------------------------------------------------------

  ghost function FreeEach<T>(m: Memory<T>, ts: seq<T>): Memory<T>
    requires forall k :: 0 <= k < |ts| ==> ts[k] in m.tensors
    decreases |ts|
  {
    if ts == [] then m else FreeEach(Freed(m, ts[0]), ts[1..])
  }

  lemma {:induction false} FreeEachOwners<T>(m: Memory<T>, ts: seq<T>)
    requires Inv(m) && forall k :: 0 <= k < |ts| ==> ts[k] in m.tensors
    ensures var n := FreeEach(m, ts);
            && (forall t :: t in Owners(n) ==> t in Owners(m) && t !in ts)
            && |n.live| - |Owners(n)| == |m.live| - |Owners(m)|
    decreases |ts|
  {
    if ts != [] {
      FreedOwners(m, ts[0]);
      FreedKeepsInv(m, ts[0]);
      FreeEachOwners(Freed(m, ts[0]), ts[1..]);
    }
  }

  /** No tensor has memory yet. */
  ghost predicate Initial<T>(m: Memory<T>) {
    m.aliased == {} && m.live == {} && forall t :: t in m.tensors ==> m.tensors[t].data.Null?
  }

  /** After any run, freeing every tensor leaves no live block if and only if
      every successful allocation was for an empty tensor never aliased before. */
  lemma {:induction false} NoLeakIff<T>(m: Memory<T>, acts: seq<Action<T>>, ts: seq<T>)
    requires Initial(m) && Allowed(m, acts)
    requires forall t :: t in m.tensors <==> t in ts
    ensures Run(m, acts).tensors.Keys == m.tensors.Keys
    ensures FreeEach(Run(m, acts), ts).live == {} <==> Losses(m, acts) == 0
  {
    var n := Run(m, acts);
    assert Owners(m) == {};
    RunKeepsInv(m, acts);
    LiveAreOwnedOrLost(m, acts);
    FreeEachOwners(n, ts);
    var end := FreeEach(n, ts);
    assert forall t :: t in Owners(n) ==> t in n.tensors.Keys;
    assert Owners(end) == {};
    assert |end.live| == Losses(m, acts);
  }

  /** No tensor ever leaves the alias set... */
  lemma {:induction false} AliasedForEver<T>(m: Memory<T>, acts: seq<Action<T>>)
    requires Allowed(m, acts)
    ensures m.aliased <= Run(m, acts).aliased
    decreases |acts|
  {
    if acts != [] { AliasedForEver(Apply(m, acts[0]), acts[1..]); }
  }

  /** ... so a block allocated for a tensor that was aliased before stays live
      when the tensor is freed, and no tensor owns it. */
  lemma {:induction false} AllocatedForAliased<T>(m: Memory<T>, t: T, size: nat, block: nat)
    requires Inv(m) && t in m.tensors && t in m.aliased && block !in m.live
    ensures var n := Freed(Apply(m, Allocate(Some(t), size, Some(block))), t);
            n.live == m.live + {block} && n.tensors[t].data.Null?
            && forall u :: u in n.tensors && Owns(n, u) ==> n.tensors[u].data != Block(block)
  {
    var n := Freed(Apply(m, Allocate(Some(t), size, Some(block))), t);
    forall u | u in n.tensors && Owns(n, u) ensures n.tensors[u].data != Block(block) {
      assert Owns(m, u);
    }
  }

  // ---- sharing --------------------------------------------------------------------

  /** Two tensors use the same memory, and only the source owns it. */
  lemma {:induction false} SharesMemory<T>(m: Memory<T>, dest: T, src: T)
    requires Inv(m) && dest in m.tensors && src in m.tensors && dest != src
    ensures var n := Apply(m, UseSame(Some(dest), Some(src)));
            && n.tensors[dest] == n.tensors[src] == m.tensors[src]
            && dest in n.aliased && !Owns(n, dest) && (Owns(n, src) <==> Owns(m, src))
            && (Owns(m, src) ==> m.tensors[src].data.id in n.live)
  {
    if Owns(m, src) && Owns(m, dest) { assert m.tensors[dest].data != m.tensors[src].data; }
  }

  /** The step frees the tensor or gives it memory of its own. */
  ghost predicate Touches<T>(a: Action<T>, t: T) { Target(a) == Some(t) || (a.Allocate? && a.t == Some(t)) }

  lemma {:induction false} StepLeaves<T>(m: Memory<T>, a: Action<T>, src: T)
    requires Inv(m) && Enabled(m, a) && Owns(m, src) && !Touches(a, src)
    ensures Owns(Apply(m, a), src) && Apply(m, a).tensors[src] == m.tensors[src]
    ensures m.tensors[src].data.id in Apply(m, a).live
  {
    var t := Target(a);
    if t.Some? && Owns(m, t.value) { assert m.tensors[t.value].data != m.tensors[src].data; }
  }

  /** Shared memory stays valid over every run that leaves its source alone, whatever is done with the
      tensors that share it. */
  lemma {:induction false} SharedStays<T>(m: Memory<T>, acts: seq<Action<T>>, src: T)
    requires Inv(m) && Allowed(m, acts) && Owns(m, src) && forall k :: 0 <= k < |acts| ==> !Touches(acts[k], src)
    ensures Owns(Run(m, acts), src) && Run(m, acts).tensors[src] == m.tensors[src]
    ensures m.tensors[src].data.id in Run(m, acts).live
    decreases |acts|
  {
    if acts != [] {
      StepLeaves(m, acts[0], src);
      StepKeepsInv(m, acts[0]);
      SharedStays(Apply(m, acts[0]), acts[1..], src);
    }
  }
}
