/**
 The training example, examples/cpu_cnn_training_f32.c: the forward net again, a backward
 net that shares its activations and workspaces, and the loop that runs both.
 */
module Training {
  import opened Execution
  import opened Networks

  function DiffDstArg(l: Layouts): Arg { Chosen(Arg(UserDiffDst, l.nchw), l.poolDst, PoolDiffDst) }
  function BwdSrcArg(l: Layouts): Arg { Chosen(l.SrcArg(), l.bwdSrc, BwdSrc) }
  function BwdDiffDstArg(l: Layouts): Arg { Chosen(Arg(ReluDiffSrc, l.reluDiffSrc), l.bwdDiffDst, BwdDiffDst) }
  function DiffWeightsArg(l: Layouts): Arg { Chosen(Arg(UserDiffWeights, l.oihw), l.bwdDiffWeights, BwdDiffWeights) }

  function PoolBwdPrim(l: Layouts): Prim {
    PoolBwd(DiffDstArg(l), Arg(PoolWs, l.poolWs), Arg(PoolDiffSrc, l.lrnDst))
  }
  function LrnBwdPrim(l: Layouts): Prim {
    LrnBwd(Arg(ReluDst, l.reluDst), Arg(PoolDiffSrc, l.lrnDst), Arg(LrnWs, l.lrnWs), Arg(LrnDiffSrc, l.lrnDiffSrc))
  }
  function ReluBwdPrim(l: Layouts): Prim {
    ReluBwd(Arg(ConvDst, l.convDst), Arg(LrnDiffSrc, l.lrnDiffSrc), Arg(ReluDiffSrc, l.reluDiffSrc))
  }
  function ConvBwdPrim(l: Layouts): Prim {
    ConvBwdWeights(BwdSrcArg(l), BwdDiffDstArg(l), DiffWeightsArg(l), Arg(DiffBias, l.diffBias))
  }

  /** The first four steps: from the user's gradient to the gradient before the relu. */
  function BackwardToRelu(l: Layouts): seq<Prim> {
    Inward(Arg(UserDiffDst, l.nchw), l.poolDst, PoolDiffDst)
    + [PoolBwdPrim(l)] + [LrnBwdPrim(l)] + [ReluBwdPrim(l)]
  }

  /** The two reorders into the weights gradient. */
  function ConvBwdReorders(l: Layouts): seq<Prim> {
    Inward(l.SrcArg(), l.bwdSrc, BwdSrc) + Inward(Arg(ReluDiffSrc, l.reluDiffSrc), l.bwdDiffDst, BwdDiffDst)
  }

  /** The weights gradient and the reorder out. */
  function ConvBwdPart(l: Layouts): seq<Prim> {
    [ConvBwdPrim(l)] + Outward(Arg(UserDiffWeights, l.oihw), l.bwdDiffWeights, BwdDiffWeights)
  }

  /** Backward: pooling, lrn, relu, then the weights gradient with its reorders. */
  function Backward(l: Layouts): seq<Prim> {
    BackwardToRelu(l) + ConvBwdReorders(l) + ConvBwdPart(l)
  }

  /** simple_net: the backward half of the construction, given the memory the convolution reads. */
  method BuildBackward(l: Layouts, convSrc: Arg) returns (net: Net)
    requires convSrc == l.SrcArg()
    ensures fresh(net) && fresh(net.slots) && net.slots.Length == 10 && net.Holds(Backward(l))
  {
    net := new Net(10);
    var reorderDiffDst := net.PrepareReorder(Arg(UserDiffDst, l.nchw), l.poolDst, PoolDiffDst, true);
    var diffDst := Arg(if reorderDiffDst then PoolDiffDst else UserDiffDst, l.poolDst);
    var poolDiffSrc, lrnDiffSrc := Arg(PoolDiffSrc, l.lrnDst), Arg(LrnDiffSrc, l.lrnDiffSrc);
    net.Append(PoolBwd(diffDst, Arg(PoolWs, l.poolWs), poolDiffSrc));
    net.Append(LrnBwd(Arg(ReluDst, l.reluDst), poolDiffSrc, Arg(LrnWs, l.lrnWs), lrnDiffSrc));
    net.Append(ReluBwd(Arg(ConvDst, l.convDst), lrnDiffSrc, Arg(ReluDiffSrc, l.reluDiffSrc)));
    assert net.Holds(BackwardToRelu(l));
    BuildConvBwd(l, convSrc, net);
  }

  /** The weights gradient with its reorders: two in front, one behind. */
  method BuildConvBwd(l: Layouts, convSrc: Arg, net: Net)
    requires convSrc == l.SrcArg() && net.slots.Length == 10 && net.Holds(BackwardToRelu(l))
    modifies net, net.slots
    ensures net.Holds(Backward(l))
  {
    ghost var plan := BackwardToRelu(l) + ConvBwdReorders(l);
    var src, diffDst := PrepareConvBwd(l, convSrc, net);
    var created := net.ReserveBeforeReorder(plan, Arg(UserDiffWeights, l.oihw), l.bwdDiffWeights, BwdDiffWeights);
    var diffWeights := Arg(if created then BwdDiffWeights else UserDiffWeights, l.bwdDiffWeights);
    ghost var ahead := Outward(Arg(UserDiffWeights, l.oihw), l.bwdDiffWeights, BwdDiffWeights);
    net.FillReserved(plan, ahead, ConvBwdWeights(src, diffDst, diffWeights, Arg(DiffBias, l.diffBias)), created);
    assert plan + [ConvBwdPrim(l)] + ahead == Backward(l);
  }

  /** The two reorders in front of the weights gradient, and what it then reads. */
  method PrepareConvBwd(l: Layouts, convSrc: Arg, net: Net) returns (src: Arg, diffDst: Arg)
    requires convSrc == l.SrcArg() && net.slots.Length == 10 && net.Holds(BackwardToRelu(l))
    modifies net, net.slots
    ensures net.Holds(BackwardToRelu(l) + ConvBwdReorders(l)) && net.n <= 6
    ensures src == BwdSrcArg(l) && diffDst == BwdDiffDstArg(l)
  {
    var reorderSrc := net.PrepareReorder(convSrc, l.bwdSrc, BwdSrc, true);
    src := Arg(if reorderSrc then BwdSrc else convSrc.mem, l.bwdSrc);
    var reorderDiffDst := net.PrepareReorder(Arg(ReluDiffSrc, l.reluDiffSrc), l.bwdDiffDst, BwdDiffDst, true);
    diffDst := Arg(if reorderDiffDst then BwdDiffDst else ReluDiffSrc, l.bwdDiffDst);
  }

  // ---- what the backward plan computes ----

  /** The gradients of one backward pass. */
  datatype Gradients = Gradients(a: Pass, diffDst: Tensor) {
    function Pool(lib: Library): Tensor { lib.poolBwd(diffDst, lib.poolWs(a.Lrn(lib))) }
    function Lrn(lib: Library): Tensor { lib.lrnBwd(a.Relu(lib), Pool(lib), lib.lrnWs(a.Relu(lib))) }
    function Relu(lib: Library): Tensor { lib.reluBwd(a.Conv(lib), Lrn(lib)) }
    function Weights(lib: Library): Tensor { lib.convBwdWeights(a.src, Relu(lib)) }
    function Bias(lib: Library): Tensor { lib.convBwdBias(a.src, Relu(lib)) }
  }

  /** What the backward net takes from the user and from the forward net. */
  ghost predicate BackwardReady(lib: Library, l: Layouts, g: Gradients, t: Tensors) {
    && Has(t, UserDiffDst, g.diffDst) && Has(t, l.SrcArg().mem, g.a.src)
    && Has(t, ConvDst, g.a.Conv(lib)) && Has(t, ReluDst, g.a.Relu(lib))
    && Has(t, LrnWs, lib.lrnWs(g.a.Relu(lib))) && Has(t, PoolWs, lib.poolWs(g.a.Lrn(lib)))
  }

  ghost predicate AtRelu(lib: Library, l: Layouts, g: Gradients, r: Tensors) {
    Has(r, ReluDiffSrc, g.Relu(lib)) && Has(r, l.SrcArg().mem, g.a.src)
  }

  lemma PoolBwdComputes(lib: Library, l: Layouts, g: Gradients, t: Tensors) returns (r: Tensors)
    requires BackwardReady(lib, l, g, t)
    ensures Runs(lib, t, Inward(Arg(UserDiffDst, l.nchw), l.poolDst, PoolDiffDst) + [PoolBwdPrim(l)], r)
    ensures BackwardReady(lib, l, g, r) && Has(r, PoolDiffSrc, g.Pool(lib)) && Keeps(t, r, {PoolDiffDst, PoolDiffSrc})
  {
    var dd := Arg(UserDiffDst, l.nchw);
    var r1 := ReorderIn(lib, t, dd, l.poolDst, PoolDiffDst);
    r := One(lib, r1, PoolBwdPrim(l));
    RunsAppend(lib, t, Inward(dd, l.poolDst, PoolDiffDst), r1, [PoolBwdPrim(l)], r);
  }

  lemma ReluBwdComputes(lib: Library, l: Layouts, g: Gradients, t: Tensors) returns (r: Tensors)
    requires BackwardReady(lib, l, g, t) && Has(t, PoolDiffSrc, g.Pool(lib))
    ensures Runs(lib, t, [LrnBwdPrim(l)] + [ReluBwdPrim(l)], r)
    ensures AtRelu(lib, l, g, r) && Keeps(t, r, {LrnDiffSrc, ReluDiffSrc})
  {
    var r1 := One(lib, t, LrnBwdPrim(l));
    assert Has(r1, LrnDiffSrc, g.Lrn(lib));
    r := One(lib, r1, ReluBwdPrim(l));
    RunsAppend(lib, t, [LrnBwdPrim(l)], r1, [ReluBwdPrim(l)], r);
  }

  lemma BackwardToReluComputes(lib: Library, l: Layouts, g: Gradients, t: Tensors) returns (r: Tensors)
    requires BackwardReady(lib, l, g, t)
    ensures Runs(lib, t, BackwardToRelu(l), r)
    ensures AtRelu(lib, l, g, r) && Keeps(t, r, {PoolDiffDst, PoolDiffSrc, LrnDiffSrc, ReluDiffSrc})
  {
    var r1 := PoolBwdComputes(lib, l, g, t);
    r := ReluBwdComputes(lib, l, g, r1);
    var p1 := Inward(Arg(UserDiffDst, l.nchw), l.poolDst, PoolDiffDst) + [PoolBwdPrim(l)];
    RunsAppend(lib, t, p1, r1, [LrnBwdPrim(l)] + [ReluBwdPrim(l)], r);
    assert BackwardToRelu(l) == p1 + ([LrnBwdPrim(l)] + [ReluBwdPrim(l)]);
  }

  lemma ConvBwdInputs(lib: Library, l: Layouts, g: Gradients, t: Tensors) returns (r: Tensors)
    requires AtRelu(lib, l, g, t)
    ensures Runs(lib, t, ConvBwdReorders(l), r) && Keeps(t, r, {BwdSrc, BwdDiffDst})
    ensures Has(r, BwdSrcArg(l).mem, g.a.src) && Has(r, BwdDiffDstArg(l).mem, g.Relu(lib))
  {
    var rd := Arg(ReluDiffSrc, l.reluDiffSrc);
    var r1 := ReorderIn(lib, t, l.SrcArg(), l.bwdSrc, BwdSrc);
    r := ReorderIn(lib, r1, rd, l.bwdDiffDst, BwdDiffDst);
    RunsAppend(lib, t, Inward(l.SrcArg(), l.bwdSrc, BwdSrc), r1, Inward(rd, l.bwdDiffDst, BwdDiffDst), r);
  }

  /** What the user finds after the backward net. */
  ghost predicate BackwardDone(lib: Library, g: Gradients, r: Tensors) {
    Has(r, UserDiffWeights, g.Weights(lib)) && Has(r, DiffBias, g.Bias(lib))
  }

  lemma ConvBwdComputes(lib: Library, l: Layouts, g: Gradients, t: Tensors) returns (r: Tensors)
    requires Has(t, BwdSrcArg(l).mem, g.a.src) && Has(t, BwdDiffDstArg(l).mem, g.Relu(lib))
    ensures Runs(lib, t, ConvBwdPart(l), r)
    ensures BackwardDone(lib, g, r) && Keeps(t, r, {BwdDiffWeights, UserDiffWeights, DiffBias})
  {
    var dw := Arg(UserDiffWeights, l.oihw);
    var r1 := One(lib, t, ConvBwdPrim(l));
    assert Has(r1, DiffWeightsArg(l).mem, g.Weights(lib));
    r := ReorderOut(lib, r1, dw, l.bwdDiffWeights, BwdDiffWeights);
    RunsAppend(lib, t, [ConvBwdPrim(l)], r1, Outward(dw, l.bwdDiffWeights, BwdDiffWeights), r);
  }

  const BACKWARD_OUTPUTS: set<Mem> :=
    {PoolDiffDst, PoolDiffSrc, LrnDiffSrc, ReluDiffSrc, BwdSrc, BwdDiffDst, BwdDiffWeights, UserDiffWeights, DiffBias}

  /** For every choice of layouts the backward plan computes the gradients of weights and bias. */
  lemma BackwardComputes(lib: Library, l: Layouts, g: Gradients, t: Tensors) returns (r: Tensors)
    requires BackwardReady(lib, l, g, t)
    ensures Runs(lib, t, Backward(l), r) && BackwardDone(lib, g, r) && Keeps(t, r, BACKWARD_OUTPUTS)
  {
    var r1 := BackwardToReluComputes(lib, l, g, t);
    var r2 := ConvBwdInputs(lib, l, g, r1);
    r := ConvBwdComputes(lib, l, g, r2);
    RunsAppend(lib, t, BackwardToRelu(l), r1, ConvBwdReorders(l), r2);
    RunsAppend(lib, t, BackwardToRelu(l) + ConvBwdReorders(l), r2, ConvBwdPart(l), r);
  }

  lemma PoolBwdTyped(l: Layouts)
    ensures PoolBwdPrim(l).Typed(l.Desc) && LrnBwdPrim(l).Typed(l.Desc)
  {
  }

  lemma ConvBwdTyped(l: Layouts)
    ensures ReluBwdPrim(l).Typed(l.Desc) && ConvBwdPrim(l).Typed(l.Desc)
  {
  }

  lemma BackwardToReluTyped(l: Layouts)
    ensures AllTyped(BackwardToRelu(l), l.Desc)
  {
    PoolBwdTyped(l);
    ConvBwdTyped(l);
    var i := Inward(Arg(UserDiffDst, l.nchw), l.poolDst, PoolDiffDst);
    InwardTyped(l, Arg(UserDiffDst, l.nchw), l.poolDst, PoolDiffDst);
    ThenTyped(l, i, PoolBwdPrim(l));
    ThenTyped(l, i + [PoolBwdPrim(l)], LrnBwdPrim(l));
    ThenTyped(l, i + [PoolBwdPrim(l)] + [LrnBwdPrim(l)], ReluBwdPrim(l));
  }

  lemma ConvBwdReordersTyped(l: Layouts)
    ensures AllTyped(ConvBwdReorders(l), l.Desc)
  {
    var rd := Arg(ReluDiffSrc, l.reluDiffSrc);
    InwardTyped(l, l.SrcArg(), l.bwdSrc, BwdSrc);
    InwardTyped(l, rd, l.bwdDiffDst, BwdDiffDst);
    JoinTyped(l, Inward(l.SrcArg(), l.bwdSrc, BwdSrc), Inward(rd, l.bwdDiffDst, BwdDiffDst));
  }

  lemma ConvBwdPartTyped(l: Layouts)
    ensures AllTyped(ConvBwdPart(l), l.Desc)
  {
    var dw := Arg(UserDiffWeights, l.oihw);
    ConvBwdTyped(l);
    OutwardTyped(l, dw, l.bwdDiffWeights, BwdDiffWeights);
    JoinTyped(l, [ConvBwdPrim(l)], Outward(dw, l.bwdDiffWeights, BwdDiffWeights));
  }

  /** Every argument of every backward primitive has the descriptor the primitive was created for. */
  lemma BackwardTyped(l: Layouts)
    ensures AllTyped(Backward(l), l.Desc)
    ensures AllRequired(l, Backward(l))
  {
    BackwardRequired(l);
    BackwardToReluTyped(l);
    ConvBwdReordersTyped(l);
    ConvBwdPartTyped(l);
    JoinTyped(l, BackwardToRelu(l), ConvBwdReorders(l));
    JoinTyped(l, BackwardToRelu(l) + ConvBwdReorders(l), ConvBwdPart(l));
  }

  /** Every primitive of the backward plan is given what its descriptor asked for. */
  lemma BackwardRequired(l: Layouts)
    ensures AllRequired(l, Backward(l))
  {
  }

  /** What would be built without prepare_reorder. */
  function PlainBackward(l: Layouts): seq<Prim> {
    [PoolBwd(Arg(UserDiffDst, l.poolDst), Arg(PoolWs, l.poolWs), Arg(PoolDiffSrc, l.lrnDst)), LrnBwdPrim(l), ReluBwdPrim(l),
     ConvBwdWeights(Arg(l.SrcArg().mem, l.bwdSrc), Arg(ReluDiffSrc, l.bwdDiffDst),
       Arg(UserDiffWeights, l.bwdDiffWeights), Arg(DiffBias, l.diffBias))]
  }

  ghost predicate BackwardAgrees(l: Layouts) {
    l.nchw == l.poolDst && l.convSrc == l.bwdSrc && l.reluDiffSrc == l.bwdDiffDst && l.oihw == l.bwdDiffWeights
  }

  /** The backward reorders are made exactly where they are needed. */
  lemma BackwardReordersNeeded(l: Layouts)
    ensures AllTyped(PlainBackward(l), l.Desc) <==> BackwardAgrees(l)
    ensures Backward(l) == PlainBackward(l) <==> BackwardAgrees(l)
  {
    BackwardPlainTyped(l);
    if BackwardAgrees(l) {
      assert Backward(l) == PlainBackward(l);
    } else if Backward(l) == PlainBackward(l) {
      BackwardTyped(l);
    }
  }

  lemma BackwardPlainTyped(l: Layouts)
    ensures AllTyped(PlainBackward(l), l.Desc) <==> BackwardAgrees(l)
  {
    PoolBwdTyped(l);
    ConvBwdTyped(l);
    var plan := PlainBackward(l);
    assert plan[0].Typed(l.Desc) <==> l.nchw == l.poolDst;
    assert plan[1].Typed(l.Desc) && plan[2].Typed(l.Desc);
    PlainConvTyped(l, plan[3]);
  }

  lemma PlainConvTyped(l: Layouts, p: Prim)
    requires p == ConvBwdWeights(Arg(l.SrcArg().mem, l.bwdSrc), Arg(ReluDiffSrc, l.bwdDiffDst),
                                 Arg(UserDiffWeights, l.bwdDiffWeights), Arg(DiffBias, l.diffBias))
    ensures p.Typed(l.Desc) <==> l.convSrc == l.bwdSrc && l.reluDiffSrc == l.bwdDiffDst && l.oihw == l.bwdDiffWeights
  {
    OtherLayout(l, l.SrcArg(), l.bwdSrc);
    OtherLayout(l, Arg(ReluDiffSrc, l.reluDiffSrc), l.bwdDiffDst);
    OtherLayout(l, Arg(UserDiffWeights, l.oihw), l.bwdDiffWeights);
  }

  lemma BackwardOnStore(lib: Library, l: Layouts, g: Gradients, s: Store)
    requires Faithful(lib) && BackwardReady(lib, l, g, Logical(lib, l.Desc, s))
    ensures DefinedBeforeUse(Backward(l), s.Keys)
    ensures BackwardDone(lib, g, Logical(lib, l.Desc, RunPlan(lib, s, Backward(l))))
    ensures Keeps(Logical(lib, l.Desc, s), Logical(lib, l.Desc, RunPlan(lib, s, Backward(l))), BACKWARD_OUTPUTS)
  {
    var t := Logical(lib, l.Desc, s);
    assert t.Keys == s.Keys;
    var r := BackwardComputes(lib, l, g, t);
    RunsIsRunPlan(lib, t, Backward(l), r);
    BackwardTyped(l);
    PlanIsLogical(lib, l.Desc, s, Backward(l));
  }

  // ---- the training loop ----

  /** What the user does between the passes: update the gradient of the output, then weights and bias. */
  datatype User = User(
    diffDst: (Tensor, Tensor) -> Tensor,
    weights: (Tensor, Tensor) -> Tensor,
    bias: (Tensor, Tensor) -> Tensor)

  /** The tensors that live from one iteration to the next. */
  datatype Model = Model(a: Pass, diffDst: Tensor)

  /** One iteration of training, as mathematics. */
  function Iterate(lib: Library, user: User, m: Model): Model {
    var d := user.diffDst(m.diffDst, m.a.Dst(lib));
    var g := Gradients(m.a, d);
    Model(Pass(m.a.src, user.weights(m.a.weights, g.Weights(lib)), user.bias(m.a.bias, g.Bias(lib))), d)
  }

  /** The user's tensors are in the user's memories. */
  ghost predicate Loaded(m: Model, t: Tensors) {
    Given(t, m.a) && Has(t, UserDiffDst, m.diffDst)
  }

  /** The user's update of the output gradient, from the prediction. */
  function UpdateDiffDst(lib: Library, l: Layouts, user: User, s: Store): Store
    requires UserDiffDst in s && UserDst in s
  {
    Put(lib, s, Arg(UserDiffDst, l.nchw),
      user.diffDst(Get(lib, s, Arg(UserDiffDst, l.nchw)), Get(lib, s, Arg(UserDst, l.nchw))))
  }

  /** The user's update of weights and bias, from their gradients. */
  function UpdateWeights(lib: Library, l: Layouts, user: User, s: Store): Store
    requires {UserWeights, UserBias, UserDiffWeights, DiffBias} <= s.Keys
  {
    var w := user.weights(Get(lib, s, Arg(UserWeights, l.oihw)), Get(lib, s, Arg(UserDiffWeights, l.oihw)));
    var b := user.bias(Get(lib, s, Arg(UserBias, l.x)), Get(lib, s, Arg(DiffBias, l.diffBias)));
    Put(lib, Put(lib, s, Arg(UserWeights, l.oihw), w), Arg(UserBias, l.x), b)
  }

  /** After the forward pass and the user's first update everything the backward pass reads is in place. */
  lemma HandOver(lib: Library, l: Layouts, user: User, m: Model, s: Store, s1: Store)
    requires Faithful(lib) && Loaded(m, Logical(lib, l.Desc, s)) && ForwardDone(lib, l, m.a, Logical(lib, l.Desc, s1))
    requires Keeps(Logical(lib, l.Desc, s), Logical(lib, l.Desc, s1), FORWARD_OUTPUTS)
    ensures UserDiffDst in s1 && UserDst in s1
    ensures var t := Logical(lib, l.Desc, UpdateDiffDst(lib, l, user, s1)); var d := user.diffDst(m.diffDst, m.a.Dst(lib));
      BackwardReady(lib, l, Gradients(m.a, d), t) && Given(t, m.a)
  {
    HasDecoded(lib, l, s1, UserDst, m.a.Dst(lib));
    HasDecoded(lib, l, s1, UserDiffDst, m.diffDst);
    var d := user.diffDst(m.diffDst, m.a.Dst(lib));
    PutIsLogical(lib, l.Desc, s1, Arg(UserDiffDst, l.nchw), d);
  }

  lemma UpdateIsLogical(lib: Library, l: Layouts, user: User, s: Store, g: Gradients)
    requires Faithful(lib) && BackwardDone(lib, g, Logical(lib, l.Desc, s))
    requires Has(Logical(lib, l.Desc, s), UserWeights, g.a.weights) && Has(Logical(lib, l.Desc, s), UserBias, g.a.bias)
    ensures {UserWeights, UserBias, UserDiffWeights, DiffBias} <= s.Keys
    ensures Logical(lib, l.Desc, UpdateWeights(lib, l, user, s)) == Logical(lib, l.Desc, s)
      [UserWeights := user.weights(g.a.weights, g.Weights(lib))][UserBias := user.bias(g.a.bias, g.Bias(lib))]
  {
    UpdateReads(lib, l, user, s, g);
    var w, b := user.weights(g.a.weights, g.Weights(lib)), user.bias(g.a.bias, g.Bias(lib));
    PutIsLogical(lib, l.Desc, s, Arg(UserWeights, l.oihw), w);
    PutIsLogical(lib, l.Desc, Put(lib, s, Arg(UserWeights, l.oihw), w), Arg(UserBias, l.x), b);
  }

  lemma UpdateReads(lib: Library, l: Layouts, user: User, s: Store, g: Gradients)
    requires BackwardDone(lib, g, Logical(lib, l.Desc, s))
    requires Has(Logical(lib, l.Desc, s), UserWeights, g.a.weights) && Has(Logical(lib, l.Desc, s), UserBias, g.a.bias)
    ensures {UserWeights, UserBias, UserDiffWeights, DiffBias} <= s.Keys
    ensures UpdateWeights(lib, l, user, s) ==
      Put(lib, Put(lib, s, Arg(UserWeights, l.oihw), user.weights(g.a.weights, g.Weights(lib))),
        Arg(UserBias, l.x), user.bias(g.a.bias, g.Bias(lib)))
  {
    HasDecoded(lib, l, s, UserWeights, g.a.weights);
    HasDecoded(lib, l, s, UserBias, g.a.bias);
    HasDecoded(lib, l, s, UserDiffWeights, g.Weights(lib));
    HasDecoded(lib, l, s, DiffBias, g.Bias(lib));
  }

  /** After the backward pass and the user's second update the memories hold the next model. */
  lemma NextModel(lib: Library, l: Layouts, user: User, m: Model, s2: Store, s3: Store)
    requires Faithful(lib)
    requires var d := user.diffDst(m.diffDst, m.a.Dst(lib));
      && Given(Logical(lib, l.Desc, s2), m.a) && Has(Logical(lib, l.Desc, s2), UserDiffDst, d)
      && BackwardDone(lib, Gradients(m.a, d), Logical(lib, l.Desc, s3))
    requires Keeps(Logical(lib, l.Desc, s2), Logical(lib, l.Desc, s3), BACKWARD_OUTPUTS)
    ensures {UserWeights, UserBias, UserDiffWeights, DiffBias} <= s3.Keys
    ensures Loaded(Iterate(lib, user, m), Logical(lib, l.Desc, UpdateWeights(lib, l, user, s3)))
  {
    var d := user.diffDst(m.diffDst, m.a.Dst(lib));
    var t := Logical(lib, l.Desc, s3);
    assert Given(t, m.a) && Has(t, UserDiffDst, d);
    UpdateIsLogical(lib, l, user, s3, Gradients(m.a, d));
  }

  /** One turn of the training loop. */
  method TrainOnce(lib: Library, l: Layouts, user: User, ghost m: Model, s: Store, fwd: Net, bwd: Net) returns (r: Store)
    requires Faithful(lib) && Loaded(m, Logical(lib, l.Desc, s))
    requires fwd.Holds(l.Forward()) && bwd.Holds(Backward(l))
    ensures Loaded(Iterate(lib, user, m), Logical(lib, l.Desc, r))
  {
    ForwardOnStore(lib, l, m.a, s);
    var s1 := fwd.Execute(lib, s, l.Forward());
    HandOver(lib, l, user, m, s, s1);
    var s2 := UpdateDiffDst(lib, l, user, s1);
    BackwardOnStore(lib, l, Gradients(m.a, user.diffDst(m.diffDst, m.a.Dst(lib))), s2);
    var s3 := bwd.Execute(lib, s2, Backward(l));
    NextModel(lib, l, user, m, s2, s3);
    r := UpdateWeights(lib, l, user, s3);
  }

  /** The models before, between and after the turns of the loop. */
  lemma Models(lib: Library, user: User, m: Model, iterations: nat) returns (ms: seq<Model>)
    ensures |ms| == iterations + 1 && ms[0] == m && forall k :: 0 <= k < iterations ==> ms[k + 1] == Iterate(lib, user, ms[k])
  {
    ms := [m];
    for k := 0 to iterations
      invariant |ms| == k + 1 && ms[0] == m && forall i :: 0 <= i < k ==> ms[i + 1] == Iterate(lib, user, ms[i])
    {
      ms := ms + [Iterate(lib, user, ms[k])];
    }
  }

  /** The loop: if the memories hold the first of a sequence of models, each the iteration of the one before, they end up holding the last. */
  method TrainLoop(lib: Library, l: Layouts, user: User, ghost ms: seq<Model>, s0: Store, iterations: nat, fwd: Net, bwd: Net)
    returns (s: Store)
    requires |ms| == iterations + 1 && forall k :: 0 <= k < iterations ==> ms[k + 1] == Iterate(lib, user, ms[k])
    requires Faithful(lib) && Loaded(ms[0], Logical(lib, l.Desc, s0))
    requires fwd.Holds(l.Forward()) && bwd.Holds(Backward(l))
    ensures Loaded(ms[iterations], Logical(lib, l.Desc, s))
  {
    s := s0;
    for k := 0 to iterations
      invariant Loaded(ms[k], Logical(lib, l.Desc, s))
    {
      s := TrainOnce(lib, l, user, ms[k], s, fwd, bwd);
    }
  }

  /** init_data_memory for the tensors of the model; the other user memories start with anything. */
  function TrainingData(lib: Library, l: Layouts, m: Model, blank: Tensor): Store {
    UserData(lib, l, m.a, blank)
      [UserDiffDst := lib.encode(l.nchw, m.diffDst)][UserDiffWeights := lib.encode(l.oihw, blank)]
  }

  lemma TrainingDataLoaded(lib: Library, l: Layouts, m: Model, blank: Tensor)
    requires Faithful(lib)
    ensures Loaded(m, Logical(lib, l.Desc, TrainingData(lib, l, m, blank)))
  {
    UserDataGiven(lib, l, m.a, blank);
  }

  /** One iteration, written out in the primitives and the user's updates. */
  lemma IterateIs(lib: Library, user: User, m: Model)
    ensures var conv := lib.conv(m.a.src, m.a.weights, m.a.bias);
      var relu := lib.relu(conv);
      var lrn := lib.lrn(relu);
      var diffDst := user.diffDst(m.diffDst, lib.pool(lrn));
      var diffLrn := lib.poolBwd(diffDst, lib.poolWs(lrn));
      var diffConv := lib.reluBwd(conv, lib.lrnBwd(relu, diffLrn, lib.lrnWs(relu)));
      var weights := user.weights(m.a.weights, lib.convBwdWeights(m.a.src, diffConv));
      var bias := user.bias(m.a.bias, lib.convBwdBias(m.a.src, diffConv));
      Iterate(lib, user, m) == Model(Pass(m.a.src, weights, bias), diffDst)
  {
  }

  /**
   The training example from user data to user data: for every choice of layouts, every user and
   any number of iterations, the memories go through the models that the mathematics says, one per
   iteration.  Nothing undefined is ever read, and nothing stale: each depends on the one before only.
   */
  method Train(lib: Library, l: Layouts, user: User, m: Model, blank: Tensor, iterations: nat)
    returns (weights: Tensor, bias: Tensor, ghost ms: seq<Model>)
    requires Faithful(lib)
    ensures |ms| == iterations + 1 && ms[0] == m
    ensures forall k :: 0 <= k < iterations ==> ms[k + 1] == Iterate(lib, user, ms[k])
    ensures weights == ms[iterations].a.weights && bias == ms[iterations].a.bias
    ensures iterations == 1 ==>
      var conv := lib.conv(m.a.src, m.a.weights, m.a.bias);
      var relu := lib.relu(conv);
      var diffLrn := lib.poolBwd(user.diffDst(m.diffDst, lib.pool(lib.lrn(relu))), lib.poolWs(lib.lrn(relu)));
      var diffConv := lib.reluBwd(conv, lib.lrnBwd(relu, diffLrn, lib.lrnWs(relu)));
      && weights == user.weights(m.a.weights, lib.convBwdWeights(m.a.src, diffConv))
      && bias == user.bias(m.a.bias, lib.convBwdBias(m.a.src, diffConv))
  {
    var fwd, convSrc := BuildForward(l);
    var bwd := BuildBackward(l, convSrc);
    TrainingDataLoaded(lib, l, m, blank);
    ms := Models(lib, user, m, iterations);
    var s := TrainLoop(lib, l, user, ms, TrainingData(lib, l, m, blank), iterations, fwd, bwd);
    HasDecoded(lib, l, s, UserWeights, ms[iterations].a.weights);
    HasDecoded(lib, l, s, UserBias, ms[iterations].a.bias);
    weights, bias := Get(lib, s, Arg(UserWeights, l.oihw)), Get(lib, s, Arg(UserBias, l.x));
    IterateIs(lib, user, m);
  }
}
