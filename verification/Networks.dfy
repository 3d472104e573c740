/**
 The networks of examples/cnn_inference_f32.c and examples/cpu_cnn_training_f32.c.  The
 layouts are whatever the primitive descriptors answer when they are queried; the plans say
 which reorders that makes necessary.
 */
module Networks {
  import opened Execution

  /** User layouts, then the layouts the primitive descriptors chose. */
  datatype Layouts = Layouts(
    nchw: Layout, oihw: Layout, x: Layout,
    convSrc: Layout, convWeights: Layout, convDst: Layout,
    reluDst: Layout, lrnDst: Layout, lrnWs: Layout, poolDst: Layout, poolWs: Layout,
    lrnDiffSrc: Layout, reluDiffSrc: Layout,
    bwdSrc: Layout, bwdDiffDst: Layout, bwdDiffWeights: Layout, diffBias: Layout)
  {
    /** The descriptor every memory is created with. */
    function Desc(m: Mem): Layout {
      match m
      case UserSrc => nchw
      case UserWeights => oihw
      case UserBias => x
      case UserDst => nchw
      case ConvSrc => convSrc
      case ConvWeights => convWeights
      case ConvDst => convDst
      case ReluDst => reluDst
      case LrnDst => lrnDst
      case LrnWs => lrnWs
      case PoolDst => poolDst
      case PoolWs => poolWs
      case UserDiffDst => nchw
      case PoolDiffDst => poolDst
      case PoolDiffSrc => lrnDst
      case LrnDiffSrc => lrnDiffSrc
      case ReluDiffSrc => reluDiffSrc
      case BwdSrc => bwdSrc
      case BwdDiffDst => bwdDiffDst
      case BwdDiffWeights => bwdDiffWeights
      case UserDiffWeights => oihw
      case DiffBias => diffBias
    }

    function SrcArg(): Arg { Chosen(Arg(UserSrc, nchw), convSrc, ConvSrc) }
    function WeightsArg(): Arg { Chosen(Arg(UserWeights, oihw), convWeights, ConvWeights) }
    function DstArg(): Arg { Chosen(Arg(UserDst, nchw), poolDst, PoolDst) }

    function ConvPrim(): Prim { Conv(SrcArg(), WeightsArg(), Arg(UserBias, x), Arg(ConvDst, convDst)) }
    function ReluPrim(): Prim { Relu(Arg(ConvDst, convDst), Arg(ReluDst, reluDst)) }
    function LrnPrim(): Prim { Lrn(Arg(ReluDst, reluDst), Arg(LrnDst, lrnDst), Arg(LrnWs, lrnWs)) }
    function PoolPrim(): Prim { Pool(Arg(LrnDst, lrnDst), DstArg(), Arg(PoolWs, poolWs)) }

    function ConvPart(): seq<Prim> {
      Inward(Arg(UserSrc, nchw), convSrc, ConvSrc) + Inward(Arg(UserWeights, oihw), convWeights, ConvWeights) + [ConvPrim()]
    }
    function NormPart(): seq<Prim> { [ReluPrim()] + [LrnPrim()] }
    function PoolPart(): seq<Prim> { [PoolPrim()] + Outward(Arg(UserDst, nchw), poolDst, PoolDst) }

    /** Forward: reorders in, convolution, relu, lrn, pooling, reorder out. */
    function Forward(): seq<Prim> { ConvPart() + NormPart() + PoolPart() }
  }

  /** What the forward net is for. */
  function Prediction(lib: Library, src: Tensor, weights: Tensor, bias: Tensor): Tensor {
    lib.pool(lib.lrn(lib.relu(lib.conv(src, weights, bias))))
  }

  /**
   The descriptors the primitive descriptors answer with, argument by argument: what each primitive
   takes the contents of its memories to be.  A reorder stands only between different layouts.
   */
  predicate Required(l: Layouts, p: Prim) {
    match p
    case Reorder(from, to) => from.layout != to.layout
    case Conv(src, weights, bias, dst) =>
      src.layout == l.convSrc && weights.layout == l.convWeights && bias.layout == l.x && dst.layout == l.convDst
    case Relu(src, dst) => src.layout == l.convDst && dst.layout == l.reluDst
    case Lrn(src, dst, ws) => src.layout == l.reluDst && dst.layout == l.lrnDst && ws.layout == l.lrnWs
    case Pool(src, dst, ws) => src.layout == l.lrnDst && dst.layout == l.poolDst && ws.layout == l.poolWs
    case PoolBwd(diffDst, ws, diffSrc) =>
      diffDst.layout == l.poolDst && ws.layout == l.poolWs && diffSrc.layout == l.lrnDst
    case LrnBwd(src, diffDst, ws, diffSrc) =>
      src.layout == l.reluDst && diffDst.layout == l.lrnDst && ws.layout == l.lrnWs && diffSrc.layout == l.lrnDiffSrc
    case ReluBwd(src, diffDst, diffSrc) =>
      src.layout == l.convDst && diffDst.layout == l.lrnDiffSrc && diffSrc.layout == l.reluDiffSrc
    case ConvBwdWeights(src, diffDst, diffWeights, diffBias) =>
      && src.layout == l.bwdSrc && diffDst.layout == l.bwdDiffDst
      && diffWeights.layout == l.bwdDiffWeights && diffBias.layout == l.diffBias
  }

  ghost predicate AllRequired(l: Layouts, plan: seq<Prim>) {
    forall i :: 0 <= i < |plan| ==> Required(l, plan[i])
  }

  /** simple_net of the inference example up to its execution loop; also the memory the convolution reads. */
  method BuildForward(l: Layouts) returns (net: Net, convSrc: Arg)
    ensures fresh(net) && fresh(net.slots) && net.slots.Length == 10 && net.Holds(l.Forward())
    ensures convSrc == l.SrcArg()
  {
    net := new Net(10);
    convSrc := BuildConv(l, net);
    net.Append(Relu(Arg(ConvDst, l.convDst), Arg(ReluDst, l.reluDst)));
    net.Append(Lrn(Arg(ReluDst, l.reluDst), Arg(LrnDst, l.lrnDst), Arg(LrnWs, l.lrnWs)));
    ghost var plan := l.ConvPart() + l.NormPart();
    assert net.Holds(plan);
    BuildPool(l, net, plan);
  }

  /** The reorders in front of the convolution, and the convolution. */
  method BuildConv(l: Layouts, net: Net) returns (convSrc: Arg)
    requires net.Holds([]) && net.slots.Length == 10
    modifies net, net.slots
    ensures net.Holds(l.ConvPart()) && convSrc == l.SrcArg()
  {
    var reorderSrc := net.PrepareReorder(Arg(UserSrc, l.nchw), l.convSrc, ConvSrc, true);
    var reorderWeights := net.PrepareReorder(Arg(UserWeights, l.oihw), l.convWeights, ConvWeights, true);
    convSrc := Arg(if reorderSrc then ConvSrc else UserSrc, l.convSrc);
    var convWeights := Arg(if reorderWeights then ConvWeights else UserWeights, l.convWeights);
    net.Append(Conv(convSrc, convWeights, Arg(UserBias, l.x), Arg(ConvDst, l.convDst)));
  }

  /** The pooling primitive, whose destination depends on whether a reorder follows it. */
  method BuildPool(l: Layouts, net: Net, ghost plan: seq<Prim>)
    requires net.Holds(plan) && net.n + 2 <= net.slots.Length
    modifies net, net.slots
    ensures net.Holds(plan + l.PoolPart())
  {
    var created := net.ReserveBeforeReorder(plan, Arg(UserDst, l.nchw), l.poolDst, PoolDst);
    var dst := Arg(if created then PoolDst else UserDst, l.poolDst);
    ghost var ahead := Outward(Arg(UserDst, l.nchw), l.poolDst, PoolDst);
    net.FillReserved(plan, ahead, Pool(Arg(LrnDst, l.lrnDst), dst, Arg(PoolWs, l.poolWs)), created);
    assert plan + [l.PoolPrim()] + ahead == plan + l.PoolPart();
  }

  // ---- what the plans compute ----

  /** Everything but the memories named is as it was. */
  ghost predicate Keeps(t: Tensors, t': Tensors, changed: set<Mem>) {
    forall m :: m in t && m !in changed ==> m in t' && t'[m] == t[m]
  }

  /** m holds x. */
  ghost predicate Has(t: Tensors, m: Mem, x: Tensor) {
    m in t && t[m] == x
  }

  lemma One(lib: Library, t: Tensors, p: Prim) returns (r: Tensors)
    requires p.Ready(t.Keys)
    ensures Runs(lib, t, [p], r) && r == LExec(lib, t, p)
  {
    RunsOne(lib, t, p);
    r := LExec(lib, t, p);
  }

  /** A reorder in, if needed: the chosen memory holds what the user's holds. */
  lemma ReorderIn(lib: Library, t: Tensors, user: Arg, want: Layout, internal: Mem) returns (r: Tensors)
    requires user.mem in t && user.mem != internal
    ensures Runs(lib, t, Inward(user, want, internal), r) && Keeps(t, r, {internal})
    ensures Has(r, Chosen(user, want, internal).mem, t[user.mem])
  {
    if user.layout == want {
      RunsNone(lib, t);
      r := t;
    } else {
      r := One(lib, t, Reorder(user, Arg(internal, want)));
    }
  }

  /** A reorder out, if needed: the user's memory gets what the chosen one holds. */
  lemma ReorderOut(lib: Library, t: Tensors, user: Arg, want: Layout, internal: Mem) returns (r: Tensors)
    requires Chosen(user, want, internal).mem in t
    ensures Runs(lib, t, Outward(user, want, internal), r) && Keeps(t, r, {user.mem})
    ensures Has(r, user.mem, t[Chosen(user, want, internal).mem])
  {
    if user.layout == want {
      RunsNone(lib, t);
      r := t;
    } else {
      r := One(lib, t, Reorder(Arg(internal, want), user));
    }
  }

  /** The tensors of one forward pass. */
  datatype Pass = Pass(src: Tensor, weights: Tensor, bias: Tensor) {
    function Conv(lib: Library): Tensor { lib.conv(src, weights, bias) }
    function Relu(lib: Library): Tensor { lib.relu(Conv(lib)) }
    function Lrn(lib: Library): Tensor { lib.lrn(Relu(lib)) }
    function Dst(lib: Library): Tensor { lib.pool(Lrn(lib)) }
  }

  ghost predicate Given(t: Tensors, a: Pass) {
    Has(t, UserSrc, a.src) && Has(t, UserWeights, a.weights) && Has(t, UserBias, a.bias)
  }

  /** Reorders and convolution done. */
  ghost predicate Convolved(lib: Library, l: Layouts, a: Pass, r: Tensors) {
    Has(r, l.SrcArg().mem, a.src) && Has(r, ConvDst, a.Conv(lib))
  }

  /** Relu and lrn done as well. */
  ghost predicate Normalised(lib: Library, l: Layouts, a: Pass, r: Tensors) {
    && Convolved(lib, l, a, r) && Has(r, ReluDst, a.Relu(lib))
    && Has(r, LrnDst, a.Lrn(lib)) && Has(r, LrnWs, lib.lrnWs(a.Relu(lib)))
  }

  /** What the forward net leaves behind, for the user and for the backward net. */
  ghost predicate ForwardDone(lib: Library, l: Layouts, a: Pass, r: Tensors) {
    && Normalised(lib, l, a, r) && Has(r, PoolWs, lib.poolWs(a.Lrn(lib)))
    && Has(r, UserDst, Prediction(lib, a.src, a.weights, a.bias))
  }

  lemma ConvolutionComputes(lib: Library, l: Layouts, a: Pass, t: Tensors) returns (r: Tensors)
    requires Given(t, a)
    ensures Runs(lib, t, l.ConvPart(), r)
    ensures Convolved(lib, l, a, r) && Keeps(t, r, {ConvSrc, ConvWeights, ConvDst})
  {
    var src, wei := Arg(UserSrc, l.nchw), Arg(UserWeights, l.oihw);
    var r1 := ReorderIn(lib, t, src, l.convSrc, ConvSrc);
    var r2 := ReorderIn(lib, r1, wei, l.convWeights, ConvWeights);
    assert Has(r2, l.SrcArg().mem, a.src) && Has(r2, l.WeightsArg().mem, a.weights) && Has(r2, UserBias, a.bias);
    r := One(lib, r2, l.ConvPrim());
    var i1, i2 := Inward(src, l.convSrc, ConvSrc), Inward(wei, l.convWeights, ConvWeights);
    RunsAppend(lib, t, i1, r1, i2, r2);
    RunsAppend(lib, t, i1 + i2, r2, [l.ConvPrim()], r);
  }

  lemma NormalisationComputes(lib: Library, l: Layouts, a: Pass, t: Tensors) returns (r: Tensors)
    requires Convolved(lib, l, a, t)
    ensures Runs(lib, t, l.NormPart(), r)
    ensures Normalised(lib, l, a, r) && Keeps(t, r, {ReluDst, LrnDst, LrnWs})
  {
    var r1 := One(lib, t, l.ReluPrim());
    assert Has(r1, ReluDst, a.Relu(lib));
    r := One(lib, r1, l.LrnPrim());
    RunsAppend(lib, t, [l.ReluPrim()], r1, [l.LrnPrim()], r);
  }

  lemma PoolingComputes(lib: Library, l: Layouts, a: Pass, t: Tensors) returns (r: Tensors)
    requires Normalised(lib, l, a, t)
    ensures Runs(lib, t, l.PoolPart(), r)
    ensures ForwardDone(lib, l, a, r) && Keeps(t, r, {UserDst, PoolDst, PoolWs})
  {
    var r1 := One(lib, t, l.PoolPrim());
    assert Has(r1, l.DstArg().mem, a.Dst(lib));
    r := ReorderOut(lib, r1, Arg(UserDst, l.nchw), l.poolDst, PoolDst);
    RunsAppend(lib, t, [l.PoolPrim()], r1, Outward(Arg(UserDst, l.nchw), l.poolDst, PoolDst), r);
  }

  const FORWARD_OUTPUTS: set<Mem> := {UserDst, ConvSrc, ConvWeights, ConvDst, ReluDst, LrnDst, LrnWs, PoolDst, PoolWs}

  /** For every choice of layouts the forward plan computes the prediction from the user's three tensors. */
  lemma ForwardComputes(lib: Library, l: Layouts, a: Pass, t: Tensors) returns (r: Tensors)
    requires Given(t, a)
    ensures Runs(lib, t, l.Forward(), r) && ForwardDone(lib, l, a, r) && Keeps(t, r, FORWARD_OUTPUTS)
  {
    var r1 := ConvolutionComputes(lib, l, a, t);
    var r2 := NormalisationComputes(lib, l, a, r1);
    r := PoolingComputes(lib, l, a, r2);
    RunsAppend(lib, t, l.ConvPart(), r1, l.NormPart(), r2);
    RunsAppend(lib, t, l.ConvPart() + l.NormPart(), r2, l.PoolPart(), r);
  }

  lemma JoinTyped(l: Layouts, a: seq<Prim>, b: seq<Prim>)
    requires AllTyped(a, l.Desc) && AllTyped(b, l.Desc)
    ensures AllTyped(a + b, l.Desc)
  {
  }

  lemma ThenTyped(l: Layouts, a: seq<Prim>, p: Prim)
    requires AllTyped(a, l.Desc) && p.Typed(l.Desc)
    ensures AllTyped(a + [p], l.Desc)
  {
  }

  lemma ForwardPrimsTyped(l: Layouts)
    ensures l.ConvPrim().Typed(l.Desc) && l.ReluPrim().Typed(l.Desc)
    ensures l.LrnPrim().Typed(l.Desc) && l.PoolPrim().Typed(l.Desc)
  {
  }

  /** Every argument of every forward primitive has the descriptor the primitive was created for. */
  lemma ForwardTyped(l: Layouts)
    ensures AllTyped(l.Forward(), l.Desc)
    ensures AllRequired(l, l.Forward())
  {
    ForwardRequired(l);
    ForwardPrimsTyped(l);
    var src, wei, dst := Arg(UserSrc, l.nchw), Arg(UserWeights, l.oihw), Arg(UserDst, l.nchw);
    var i1, i2, o := Inward(src, l.convSrc, ConvSrc), Inward(wei, l.convWeights, ConvWeights), Outward(dst, l.poolDst, PoolDst);
    InwardTyped(l, src, l.convSrc, ConvSrc);
    InwardTyped(l, wei, l.convWeights, ConvWeights);
    OutwardTyped(l, dst, l.poolDst, PoolDst);
    JoinTyped(l, i1, i2);
    ThenTyped(l, i1 + i2, l.ConvPrim());
    ThenTyped(l, [l.ReluPrim()], l.LrnPrim());
    JoinTyped(l, [l.PoolPrim()], o);
    JoinTyped(l, l.ConvPart(), l.NormPart());
    JoinTyped(l, l.ConvPart() + l.NormPart(), l.PoolPart());
  }

  /** Every primitive of the forward plan is given what its descriptor asked for. */
  lemma ForwardRequired(l: Layouts)
    ensures AllRequired(l, l.Forward())
  {
  }

  /** A memory does not fit where another layout is asked for. */
  lemma OtherLayout(l: Layouts, user: Arg, want: Layout)
    requires l.Desc(user.mem) == user.layout
    ensures Arg(user.mem, want).Fits(l.Desc) <==> user.layout == want
  {
  }

  /** What would be built without prepare_reorder. */
  function PlainForward(l: Layouts): seq<Prim> {
    [Conv(Arg(UserSrc, l.convSrc), Arg(UserWeights, l.convWeights), Arg(UserBias, l.x), Arg(ConvDst, l.convDst)),
     l.ReluPrim(), l.LrnPrim(), Pool(Arg(LrnDst, l.lrnDst), Arg(UserDst, l.poolDst), Arg(PoolWs, l.poolWs))]
  }

  ghost predicate ForwardAgrees(l: Layouts) {
    l.nchw == l.convSrc && l.oihw == l.convWeights && l.nchw == l.poolDst
  }

  /** The forward reorders are made exactly where they are needed: without them some memory has the wrong layout, unless all agree. */
  lemma ForwardReordersNeeded(l: Layouts)
    ensures AllTyped(PlainForward(l), l.Desc) <==> ForwardAgrees(l)
    ensures l.Forward() == PlainForward(l) <==> ForwardAgrees(l)
  {
    ForwardPlainTyped(l);
    if ForwardAgrees(l) {
      assert l.Forward() == PlainForward(l);
    } else if l.Forward() == PlainForward(l) {
      ForwardTyped(l);
    }
  }

  lemma ForwardPlainTyped(l: Layouts)
    ensures AllTyped(PlainForward(l), l.Desc) <==> ForwardAgrees(l)
  {
    ForwardPrimsTyped(l);
    OtherLayout(l, Arg(UserSrc, l.nchw), l.convSrc);
    OtherLayout(l, Arg(UserWeights, l.oihw), l.convWeights);
    OtherLayout(l, Arg(UserDst, l.nchw), l.poolDst);
    var plan := PlainForward(l);
    assert plan[0].Typed(l.Desc) <==> l.nchw == l.convSrc && l.oihw == l.convWeights;
    assert plan[1].Typed(l.Desc) && plan[2].Typed(l.Desc);
    assert plan[3].Typed(l.Desc) <==> l.nchw == l.poolDst;
  }

  lemma InwardTyped(l: Layouts, user: Arg, want: Layout, internal: Mem)
    requires l.Desc(user.mem) == user.layout && l.Desc(internal) == want
    ensures AllTyped(Inward(user, want, internal), l.Desc)
  {
  }

  lemma OutwardTyped(l: Layouts, user: Arg, want: Layout, internal: Mem)
    requires l.Desc(user.mem) == user.layout && l.Desc(internal) == want
    ensures AllTyped(Outward(user, want, internal), l.Desc)
  {
  }

  /** The forward net on raw memories, whatever else they hold. */
  lemma ForwardOnStore(lib: Library, l: Layouts, a: Pass, s: Store)
    requires Faithful(lib) && Given(Logical(lib, l.Desc, s), a)
    ensures DefinedBeforeUse(l.Forward(), s.Keys)
    ensures ForwardDone(lib, l, a, Logical(lib, l.Desc, RunPlan(lib, s, l.Forward())))
    ensures Keeps(Logical(lib, l.Desc, s), Logical(lib, l.Desc, RunPlan(lib, s, l.Forward())), FORWARD_OUTPUTS)
  {
    var t := Logical(lib, l.Desc, s);
    assert t.Keys == s.Keys;
    var r := ForwardComputes(lib, l, a, t);
    RunsIsRunPlan(lib, t, l.Forward(), r);
    ForwardTyped(l);
    PlanIsLogical(lib, l.Desc, s, l.Forward());
  }

  /** init_data_memory for the user's tensors. */
  function UserData(lib: Library, l: Layouts, a: Pass, blank: Tensor): Store {
    map[UserSrc := lib.encode(l.nchw, a.src), UserWeights := lib.encode(l.oihw, a.weights),
        UserBias := lib.encode(l.x, a.bias), UserDst := lib.encode(l.nchw, blank)]
  }

  lemma UserDataGiven(lib: Library, l: Layouts, a: Pass, blank: Tensor)
    requires Faithful(lib)
    ensures Given(Logical(lib, l.Desc, UserData(lib, l, a, blank)), a)
  {
  }

  lemma HasDecoded(lib: Library, l: Layouts, s: Store, m: Mem, x: Tensor)
    requires Has(Logical(lib, l.Desc, s), m, x)
    ensures m in s && Get(lib, s, Arg(m, l.Desc(m))) == x
  {
  }

  lemma PredictionInUserDst(lib: Library, l: Layouts, a: Pass, s: Store)
    requires ForwardDone(lib, l, a, Logical(lib, l.Desc, s))
    ensures UserDst in s
    ensures Get(lib, s, Arg(UserDst, l.nchw)) == lib.pool(lib.lrn(lib.relu(lib.conv(a.src, a.weights, a.bias))))
  {
    HasDecoded(lib, l, s, UserDst, Prediction(lib, a.src, a.weights, a.bias));
  }

  /**
   The inference example from user data to user data: whatever layouts the primitives
   choose, the user's destination ends up with the prediction.
   */
  method Infer(lib: Library, l: Layouts, a: Pass, blank: Tensor) returns (dst: Tensor)
    requires Faithful(lib)
    ensures dst == lib.pool(lib.lrn(lib.relu(lib.conv(a.src, a.weights, a.bias))))
  {
    var net, _ := BuildForward(l);
    var s := UserData(lib, l, a, blank);
    UserDataGiven(lib, l, a, blank);
    ForwardOnStore(lib, l, a, s);
    var r := net.Execute(lib, s, l.Forward());
    PredictionInUserDst(lib, l, a, r);
    dst := Get(lib, r, Arg(UserDst, l.nchw));
  }
}
