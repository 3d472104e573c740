/**
 Executing a plan of primitives over memories.  A memory has a descriptor (its layout) and
 raw contents; what a primitive computes is known only on logical tensors, so the contents
 of a memory mean something only to a primitive that expects its layout.  The primitives
 themselves are parameters: any functions on tensors will do.
 */
module Execution {

  type Tensor(!new, 0)
  type Raw(!new, 0)
  type Layout(!new, ==, 0)

  /** The library, as far as the examples rely on it. */
  datatype Library = Library(
    encode: (Layout, Tensor) -> Raw,
    decode: (Layout, Raw) -> Tensor,
    conv: (Tensor, Tensor, Tensor) -> Tensor,
    relu: Tensor -> Tensor,
    lrn: Tensor -> Tensor,
    lrnWs: Tensor -> Tensor,
    pool: Tensor -> Tensor,
    poolWs: Tensor -> Tensor,
    poolBwd: (Tensor, Tensor) -> Tensor,
    lrnBwd: (Tensor, Tensor, Tensor) -> Tensor,
    reluBwd: (Tensor, Tensor) -> Tensor,
    convBwdWeights: (Tensor, Tensor) -> Tensor,
    convBwdBias: (Tensor, Tensor) -> Tensor)

  /** Storing a tensor in a layout loses nothing. */
  ghost predicate Faithful(lib: Library) {
    forall l, t :: lib.decode(l, lib.encode(l, t)) == t
  }

  /** The memories of the two example networks, by what they hold. */
  datatype Mem =
    | UserSrc | UserWeights | UserBias | UserDst
    | ConvSrc | ConvWeights | ConvDst | ReluDst | LrnDst | LrnWs | PoolDst | PoolWs
    | UserDiffDst | PoolDiffDst | PoolDiffSrc | LrnDiffSrc | ReluDiffSrc
    | BwdSrc | BwdDiffDst | BwdDiffWeights | UserDiffWeights | DiffBias

  /** An argument: a memory, and the layout the primitive was created for. */
  datatype Arg = Arg(mem: Mem, layout: Layout) {
    predicate Fits(desc: Mem -> Layout) { desc(mem) == layout }
  }

  datatype Prim =
    | Reorder(from: Arg, to: Arg)
    | Conv(src: Arg, weights: Arg, bias: Arg, dst: Arg)
    | Relu(src: Arg, dst: Arg)
    | Lrn(src: Arg, dst: Arg, ws: Arg)
    | Pool(src: Arg, dst: Arg, ws: Arg)
    | PoolBwd(diffDst: Arg, ws: Arg, diffSrc: Arg)
    | LrnBwd(src: Arg, diffDst: Arg, ws: Arg, diffSrc: Arg)
    | ReluBwd(src: Arg, diffDst: Arg, diffSrc: Arg)
    | ConvBwdWeights(src: Arg, diffDst: Arg, diffWeights: Arg, diffBias: Arg)
  {
    /** Everything it reads is there. */
    predicate Ready(d: set<Mem>) {
      match this
      case Reorder(from, _) => from.mem in d
      case Conv(src, weights, bias, _) => src.mem in d && weights.mem in d && bias.mem in d
      case Relu(src, _) => src.mem in d
      case Lrn(src, _, _) => src.mem in d
      case Pool(src, _, _) => src.mem in d
      case PoolBwd(diffDst, ws, _) => diffDst.mem in d && ws.mem in d
      case LrnBwd(src, diffDst, ws, _) => src.mem in d && diffDst.mem in d && ws.mem in d
      case ReluBwd(src, diffDst, _) => src.mem in d && diffDst.mem in d
      case ConvBwdWeights(src, diffDst, _, _) => src.mem in d && diffDst.mem in d
    }

    function Written(): set<Mem> {
      match this
      case Reorder(_, to) => {to.mem}
      case Conv(_, _, _, dst) => {dst.mem}
      case Relu(_, dst) => {dst.mem}
      case Lrn(_, dst, ws) => {dst.mem, ws.mem}
      case Pool(_, dst, ws) => {dst.mem, ws.mem}
      case PoolBwd(_, _, diffSrc) => {diffSrc.mem}
      case LrnBwd(_, _, _, diffSrc) => {diffSrc.mem}
      case ReluBwd(_, _, diffSrc) => {diffSrc.mem}
      case ConvBwdWeights(_, _, diffWeights, diffBias) => {diffWeights.mem, diffBias.mem}
    }

    /** Every argument has the descriptor the primitive requires. */
    predicate Typed(desc: Mem -> Layout) {
      match this
      case Reorder(from, to) => from.Fits(desc) && to.Fits(desc)
      case Conv(src, weights, bias, dst) => src.Fits(desc) && weights.Fits(desc) && bias.Fits(desc) && dst.Fits(desc)
      case Relu(src, dst) => src.Fits(desc) && dst.Fits(desc)
      case Lrn(src, dst, ws) => src.Fits(desc) && dst.Fits(desc) && ws.Fits(desc)
      case Pool(src, dst, ws) => src.Fits(desc) && dst.Fits(desc) && ws.Fits(desc)
      case PoolBwd(diffDst, ws, diffSrc) => diffDst.Fits(desc) && ws.Fits(desc) && diffSrc.Fits(desc)
      case LrnBwd(src, diffDst, ws, diffSrc) =>
        src.Fits(desc) && diffDst.Fits(desc) && ws.Fits(desc) && diffSrc.Fits(desc)
      case ReluBwd(src, diffDst, diffSrc) => src.Fits(desc) && diffDst.Fits(desc) && diffSrc.Fits(desc)
      case ConvBwdWeights(src, diffDst, diffWeights, diffBias) =>
        src.Fits(desc) && diffDst.Fits(desc) && diffWeights.Fits(desc) && diffBias.Fits(desc)
    }
  }

  type Store = map<Mem, Raw>
  type Tensors = map<Mem, Tensor>

  /** Reading and writing a raw memory through an argument. */
  function Get(lib: Library, s: Store, a: Arg): Tensor
    requires a.mem in s
  {
    lib.decode(a.layout, s[a.mem])
  }

  function Put(lib: Library, s: Store, a: Arg, x: Tensor): Store {
    s[a.mem := lib.encode(a.layout, x)]
  }

  /** dnnl_primitive_execute on raw memories.  A reorder changes the layout only. */
  function Exec(lib: Library, s: Store, p: Prim): (r: Store)
    requires p.Ready(s.Keys)
    ensures r.Keys == s.Keys + p.Written()
  {
    match p
    case Reorder(from, to) => Put(lib, s, to, Get(lib, s, from))
    case Conv(src, weights, bias, dst) =>
      Put(lib, s, dst, lib.conv(Get(lib, s, src), Get(lib, s, weights), Get(lib, s, bias)))
    case Relu(src, dst) => Put(lib, s, dst, lib.relu(Get(lib, s, src)))
    case Lrn(src, dst, ws) => Put(lib, Put(lib, s, dst, lib.lrn(Get(lib, s, src))), ws, lib.lrnWs(Get(lib, s, src)))
    case Pool(src, dst, ws) => Put(lib, Put(lib, s, dst, lib.pool(Get(lib, s, src))), ws, lib.poolWs(Get(lib, s, src)))
    case PoolBwd(diffDst, ws, diffSrc) => Put(lib, s, diffSrc, lib.poolBwd(Get(lib, s, diffDst), Get(lib, s, ws)))
    case LrnBwd(src, diffDst, ws, diffSrc) =>
      Put(lib, s, diffSrc, lib.lrnBwd(Get(lib, s, src), Get(lib, s, diffDst), Get(lib, s, ws)))
    case ReluBwd(src, diffDst, diffSrc) => Put(lib, s, diffSrc, lib.reluBwd(Get(lib, s, src), Get(lib, s, diffDst)))
    case ConvBwdWeights(src, diffDst, dw, db) =>
      Put(lib, Put(lib, s, dw, lib.convBwdWeights(Get(lib, s, src), Get(lib, s, diffDst))),
        db, lib.convBwdBias(Get(lib, s, src), Get(lib, s, diffDst)))
  }

  /** The same on logical tensors, layouts forgotten. */
  function LExec(lib: Library, t: Tensors, p: Prim): (r: Tensors)
    requires p.Ready(t.Keys)
    ensures r.Keys == t.Keys + p.Written()
  {
    match p
    case Reorder(from, to) => t[to.mem := t[from.mem]]
    case Conv(src, weights, bias, dst) => t[dst.mem := lib.conv(t[src.mem], t[weights.mem], t[bias.mem])]
    case Relu(src, dst) => t[dst.mem := lib.relu(t[src.mem])]
    case Lrn(src, dst, ws) => t[dst.mem := lib.lrn(t[src.mem])][ws.mem := lib.lrnWs(t[src.mem])]
    case Pool(src, dst, ws) => t[dst.mem := lib.pool(t[src.mem])][ws.mem := lib.poolWs(t[src.mem])]
    case PoolBwd(diffDst, ws, diffSrc) => t[diffSrc.mem := lib.poolBwd(t[diffDst.mem], t[ws.mem])]
    case LrnBwd(src, diffDst, ws, diffSrc) => t[diffSrc.mem := lib.lrnBwd(t[src.mem], t[diffDst.mem], t[ws.mem])]
    case ReluBwd(src, diffDst, diffSrc) => t[diffSrc.mem := lib.reluBwd(t[src.mem], t[diffDst.mem])]
    case ConvBwdWeights(src, diffDst, dw, db) =>
      t[dw.mem := lib.convBwdWeights(t[src.mem], t[diffDst.mem])][db.mem := lib.convBwdBias(t[src.mem], t[diffDst.mem])]
  }

  /** What the memories hold, each decoded by its own descriptor. */
  function Logical(lib: Library, desc: Mem -> Layout, s: Store): Tensors {
    map m | m in s :: lib.decode(desc(m), s[m])
  }

  lemma GetIsLogical(lib: Library, desc: Mem -> Layout, s: Store, a: Arg)
    requires a.Fits(desc) && a.mem in s
    ensures Get(lib, s, a) == Logical(lib, desc, s)[a.mem]
  {
  }

  lemma PutIsLogical(lib: Library, desc: Mem -> Layout, s: Store, a: Arg, x: Tensor)
    requires Faithful(lib) && a.Fits(desc)
    ensures Logical(lib, desc, Put(lib, s, a, x)) == Logical(lib, desc, s)[a.mem := x]
  {
  }

  /** With matching descriptors, executing and then decoding is decoding and then computing. */
  lemma ExecIsLogical(lib: Library, desc: Mem -> Layout, s: Store, p: Prim)
    requires Faithful(lib) && p.Typed(desc) && p.Ready(s.Keys)
    ensures p.Ready(Logical(lib, desc, s).Keys)
    ensures Logical(lib, desc, Exec(lib, s, p)) == LExec(lib, Logical(lib, desc, s), p)
  {
    forall a: Arg | a.Fits(desc) && a.mem in s ensures Get(lib, s, a) == Logical(lib, desc, s)[a.mem] {
      GetIsLogical(lib, desc, s, a);
    }
    forall a: Arg, x, s' | a.Fits(desc)
      ensures Logical(lib, desc, Put(lib, s', a, x)) == Logical(lib, desc, s')[a.mem := x]
    {
      PutIsLogical(lib, desc, s', a, x);
    }
  }

  // ---- plans ----

  /** Every primitive reads only what was there at the start or an earlier primitive wrote. */
  ghost predicate DefinedBeforeUse(plan: seq<Prim>, defined: set<Mem>) {
    |plan| > 0 ==> plan[0].Ready(defined) && DefinedBeforeUse(plan[1..], defined + plan[0].Written())
  }

  ghost predicate AllTyped(plan: seq<Prim>, desc: Mem -> Layout) {
    forall i :: 0 <= i < |plan| ==> plan[i].Typed(desc)
  }

  ghost function RunPlan(lib: Library, s: Store, plan: seq<Prim>): Store
    requires DefinedBeforeUse(plan, s.Keys)
    decreases |plan|
  {
    if |plan| == 0 then s
    else
      RunPlan(lib, Exec(lib, s, plan[0]), plan[1..])
  }

  ghost function LRunPlan(lib: Library, t: Tensors, plan: seq<Prim>): Tensors
    requires DefinedBeforeUse(plan, t.Keys)
    decreases |plan|
  {
    if |plan| == 0 then t
    else
      LRunPlan(lib, LExec(lib, t, plan[0]), plan[1..])
  }

  lemma RunStep(lib: Library, s: Store, plan: seq<Prim>)
    requires |plan| > 0 && DefinedBeforeUse(plan, s.Keys)
    ensures plan[0].Ready(s.Keys) && DefinedBeforeUse(plan[1..], Exec(lib, s, plan[0]).Keys)
    ensures RunPlan(lib, s, plan) == RunPlan(lib, Exec(lib, s, plan[0]), plan[1..])
  {
  }

  /** A typed plan computes on raw memories what it computes on tensors, whatever the layouts. */
  lemma {:induction false} PlanIsLogical(lib: Library, desc: Mem -> Layout, s: Store, plan: seq<Prim>)
    requires Faithful(lib) && AllTyped(plan, desc) && DefinedBeforeUse(plan, s.Keys)
    ensures DefinedBeforeUse(plan, Logical(lib, desc, s).Keys)
    ensures Logical(lib, desc, RunPlan(lib, s, plan)) == LRunPlan(lib, Logical(lib, desc, s), plan)
    decreases |plan|
  {
    assert Logical(lib, desc, s).Keys == s.Keys;
    if |plan| > 0 {
      var p := plan[0];
      ExecIsLogical(lib, desc, s, p);
      PlanIsLogical(lib, desc, Exec(lib, s, p), plan[1..]);
    }
  }

  // ---- runs, put together piece by piece ----

  /** The tensors before, between and after the primitives of a plan. */
  ghost predicate Trace(lib: Library, plan: seq<Prim>, states: seq<Tensors>) {
    && |states| == |plan| + 1
    && forall i :: 0 <= i < |plan| ==> plan[i].Ready(states[i].Keys) && states[i + 1] == LExec(lib, states[i], plan[i])
  }

  /** The plan takes t to r without ever reading something undefined. */
  ghost predicate Runs(lib: Library, t: Tensors, plan: seq<Prim>, r: Tensors) {
    exists states :: Trace(lib, plan, states) && states[0] == t && states[|plan|] == r
  }

  lemma RunsNone(lib: Library, t: Tensors)
    ensures Runs(lib, t, [], t)
  {
    assert Trace(lib, [], [t]);
  }

  lemma RunsOne(lib: Library, t: Tensors, p: Prim)
    requires p.Ready(t.Keys)
    ensures Runs(lib, t, [p], LExec(lib, t, p))
  {
    assert Trace(lib, [p], [t, LExec(lib, t, p)]);
  }

  /** Step i of a trace, on its own. */
  ghost predicate StepOf(lib: Library, t: Tensors, p: Prim, r: Tensors) {
    p.Ready(t.Keys) && r == LExec(lib, t, p)
  }

  lemma TraceStep(lib: Library, plan: seq<Prim>, states: seq<Tensors>, i: nat)
    requires Trace(lib, plan, states) && i < |plan|
    ensures StepOf(lib, states[i], plan[i], states[i + 1])
  {
  }

  lemma TraceOf(lib: Library, plan: seq<Prim>, states: seq<Tensors>)
    requires |states| == |plan| + 1 && forall i: nat :: i < |plan| ==> StepOf(lib, states[i], plan[i], states[i + 1])
    ensures Trace(lib, plan, states)
  {
    forall i: nat | i < |plan| ensures plan[i].Ready(states[i].Keys) && states[i + 1] == LExec(lib, states[i], plan[i]) {
      assert StepOf(lib, states[i], plan[i], states[i + 1]);
    }
  }

  lemma TraceAppend(lib: Library, a: seq<Prim>, x: seq<Tensors>, b: seq<Prim>, y: seq<Tensors>)
    requires Trace(lib, a, x) && Trace(lib, b, y) && x[|a|] == y[0]
    ensures Trace(lib, a + b, x + y[1..])
  {
    var z := x + y[1..];
    forall i: nat | i < |a + b| ensures StepOf(lib, z[i], (a + b)[i], z[i + 1]) {
      if i < |a| {
        TraceStep(lib, a, x, i);
      } else {
        TraceStep(lib, b, y, i - |a|);
      }
    }
    TraceOf(lib, a + b, z);
  }

  lemma RunsAppend(lib: Library, t: Tensors, a: seq<Prim>, r: Tensors, b: seq<Prim>, r': Tensors)
    requires Runs(lib, t, a, r) && Runs(lib, r, b, r')
    ensures Runs(lib, t, a + b, r')
  {
    var x: seq<Tensors> :| Trace(lib, a, x) && x[0] == t && x[|a|] == r;
    var y: seq<Tensors> :| Trace(lib, b, y) && y[0] == r && y[|b|] == r';
    TraceAppend(lib, a, x, b, y);
  }

  lemma {:induction false} RunsIsRunPlan(lib: Library, t: Tensors, plan: seq<Prim>, r: Tensors)
    requires Runs(lib, t, plan, r)
    ensures DefinedBeforeUse(plan, t.Keys) && LRunPlan(lib, t, plan) == r
    decreases |plan|
  {
    var x: seq<Tensors> :| Trace(lib, plan, x) && x[0] == t && x[|plan|] == r;
    if |plan| > 0 {
      var y := x[1..];
      assert Trace(lib, plan[1..], y) by {
        forall i | 0 <= i < |plan| - 1
          ensures plan[1..][i].Ready(y[i].Keys) && y[i + 1] == LExec(lib, y[i], plan[1..][i])
        {
          assert plan[1..][i] == plan[i + 1] && y[i] == x[i + 1] && y[i + 1] == x[i + 1 + 1];
        }
      }
      RunsIsRunPlan(lib, x[1], plan[1..], r);
    }
  }

  // ---- a net: primitives in numbered slots ----

  datatype Slot = Empty | Filled(prim: Prim)

  /** Slot i when the plan comes first, then a free slot, then what was prepared ahead. */
  function SlotAround(plan: seq<Prim>, ahead: seq<Prim>, i: nat): Slot {
    if i < |plan| then Filled(plan[i])
    else if |plan| < i <= |plan| + |ahead| then Filled(ahead[i - |plan| - 1])
    else Empty
  }

  /** The arrays net and net_args with their counter. */
  class Net {
    const slots: array<Slot>
    var n: nat

    constructor (capacity: nat)
      ensures fresh(slots) && slots.Length == capacity && Holds([])
    {
      slots := new Slot[capacity](_ => Empty);
      n := 0;
    }

    /** Exactly the primitives of the plan, in the first slots, each slot used once. */
    ghost predicate Holds(plan: seq<Prim>)
      reads this, slots
    {
      && n == |plan| <= slots.Length
      && forall i :: 0 <= i < slots.Length ==> slots[i] == if i < |plan| then Filled(plan[i]) else Empty
    }

    /** net[n] = p; n++.  The slot must not have been filled before. */
    method Append(p: Prim)
      requires n < slots.Length && slots[n].Empty?
      modifies this, slots
      ensures n == old(n) + 1 && slots[..] == old(slots[..])[old(n) := Filled(p)]
    {
      slots[n] := Filled(p);
      n := n + 1;
    }

    /** prepare_reorder: a reorder between user and internal memory, only if the descriptors differ. */
    method PrepareReorder(user: Arg, want: Layout, internal: Mem, userToPrim: bool) returns (created: bool)
      requires user.layout != want ==> n < slots.Length && slots[n].Empty?
      modifies this, slots
      ensures created == (user.layout != want)
      ensures !created ==> n == old(n) && slots[..] == old(slots[..])
      ensures created ==> n == old(n) + 1 && slots[..] == old(slots[..])[old(n) := Filled(
        if userToPrim then Reorder(user, Arg(internal, want)) else Reorder(Arg(internal, want), user))]
    {
      if user.layout != want {
        if userToPrim {
          Append(Reorder(user, Arg(internal, want)));
        } else {
          Append(Reorder(Arg(internal, want), user));
        }
        return true;
      }
      return false;
    }

    /** The plan in the first slots, one slot left free, and behind it what was prepared ahead. */
    ghost predicate HoldsAround(plan: seq<Prim>, ahead: seq<Prim>)
      reads this, slots
    {
      && n == |plan| && n + 1 + |ahead| <= slots.Length
      && forall i :: 0 <= i < slots.Length ==> slots[i] == SlotAround(plan, ahead, i)
    }

    /** The reorder behind a primitive is prepared one slot ahead, before it is known where the primitive writes. */
    method ReserveBeforeReorder(ghost plan: seq<Prim>, user: Arg, want: Layout, internal: Mem) returns (created: bool)
      requires Holds(plan) && n + 2 <= slots.Length
      modifies this, slots
      ensures created == (user.layout != want) && HoldsAround(plan, Outward(user, want, internal))
    {
      n := n + 1;
      created := PrepareReorder(user, want, internal, false);
      n := n - if created then 2 else 1;
    }

    /** The primitive goes into the slot kept free for it. */
    method FillReserved(ghost plan: seq<Prim>, ghost ahead: seq<Prim>, p: Prim, created: bool)
      requires HoldsAround(plan, ahead) && |ahead| == if created then 1 else 0
      modifies this, slots
      ensures Holds(plan + [p] + ahead)
    {
      Append(p);
      if created {
        n := n + 1;
      }
    }

    /** The loop over dnnl_primitive_execute. */
    method Execute(lib: Library, s: Store, ghost plan: seq<Prim>) returns (r: Store)
      requires Holds(plan) && DefinedBeforeUse(plan, s.Keys)
      ensures r == RunPlan(lib, s, plan)
    {
      r := s;
      for i := 0 to n
        invariant DefinedBeforeUse(plan[i..], r.Keys)
        invariant RunPlan(lib, r, plan[i..]) == RunPlan(lib, s, plan)
      {
        assert plan[i..][0] == plan[i] && plan[i..][1..] == plan[i + 1..];
        RunStep(lib, r, plan[i..]);
        r := Exec(lib, r, slots[i].prim);
      }
    }
  }

  /** The reorders prepare_reorder makes in either direction. */
  function Inward(user: Arg, want: Layout, internal: Mem): seq<Prim> {
    if user.layout == want then [] else [Reorder(user, Arg(internal, want))]
  }

  function Outward(user: Arg, want: Layout, internal: Mem): seq<Prim> {
    if user.layout == want then [] else [Reorder(Arg(internal, want), user)]
  }

  /**
   What the primitive is then given: the internal memory if there is a reorder, else the user's.
   It reads or writes that memory in the layout it asked for, whatever the memory is.
   */
  function Chosen(user: Arg, want: Layout, internal: Mem): Arg {
    Arg(if user.layout == want then user.mem else internal, want)
  }
}
