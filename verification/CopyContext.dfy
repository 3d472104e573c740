/**
 copy_context of examples/cpu_rnn_inference_f32.cpp: the context half of the first layer's states
 is copied to every other layer, by loops whose iterations may run in parallel.
 */
module CopyContext {

  import Grid
  import opened States

  datatype Shape = Shape(layers: nat, batch: nat, features: nat)

  /** Layer and batch item share the row index. */
  function Row(sh: Shape, layer: nat, item: nat): nat { Grid.Cell(layer, sh.batch, item) }

  function Rows(sh: Shape): nat { sh.layers * sh.batch }

  function Cells(sh: Shape): nat { Start(Rows(sh), sh.features) }

  datatype Iteration = Iteration(layer: nat, item: nat, feature: nat)

  predicate Valid(sh: Shape, it: Iteration) {
    1 <= it.layer < sh.layers && it.item < sh.batch && it.feature < sh.features
  }

  function Target(sh: Shape, it: Iteration): nat { Context(Row(sh, it.layer, it.item), sh.features, it.feature) }

  function Source(sh: Shape, it: Iteration): nat { Context(it.item, sh.features, it.feature) }

  /** Every layer's context half is the first layer's, and no hidden half changed. */
  ghost predicate Copied(sh: Shape, now: seq<real>, was: seq<real>)
    requires |was| == Cells(sh)
  {
    && |now| == |was|
    && (forall k: nat, j: nat, c: nat :: k < sh.layers && j < sh.batch && c < sh.features ==>
          && Context(Row(sh, k, j), sh.features, c) < |was| && Context(j, sh.features, c) < |was|
          && now[Context(Row(sh, k, j), sh.features, c)] == was[Context(j, sh.features, c)])
    && forall r: nat, c: nat :: r < Rows(sh) && c < sh.features ==>
          Hidden(r, sh.features, c) < |was| && now[Hidden(r, sh.features, c)] == was[Hidden(r, sh.features, c)]
  }

  // ---- cells ----

  lemma RowInBounds(sh: Shape, layer: nat, item: nat, c: nat)
    requires layer < sh.layers && item < sh.batch && c < sh.features
    ensures Row(sh, layer, item) < Rows(sh) && item < Rows(sh)
    ensures Context(Row(sh, layer, item), sh.features, c) < Cells(sh)
    ensures Context(item, sh.features, c) < Cells(sh)
  {
    Grid.InBounds(layer, sh.layers, sh.batch, item);
    Grid.InBounds(0, sh.layers, sh.batch, item);
    Ordered(Row(sh, layer, item), Rows(sh), sh.features);
    Ordered(item, Rows(sh), sh.features);
  }

  lemma HiddenInBounds(sh: Shape, r: nat, c: nat)
    requires r < Rows(sh) && c < sh.features
    ensures Hidden(r, sh.features, c) < Cells(sh)
  {
    Ordered(r, Rows(sh), sh.features);
  }

  /** No two iterations write the same cell. */
  lemma TargetsDiffer(sh: Shape, a: Iteration, b: Iteration)
    requires Valid(sh, a) && Valid(sh, b) && Target(sh, a) == Target(sh, b)
    ensures a == b
  {
    ContextsDiffer(sh.features, Row(sh, a.layer, a.item), a.feature, Row(sh, b.layer, b.item), b.feature);
    Grid.Injective(sh.batch, a.layer, a.item, b.layer, b.item);
  }

  /** No iteration writes a cell of the first layer, which is all that iterations read. */
  lemma TargetsAreNotRead(sh: Shape, a: Iteration, item: nat, c: nat)
    requires Valid(sh, a) && item < sh.batch && c < sh.features
    ensures Target(sh, a) != Context(item, sh.features, c)
  {
    if Target(sh, a) == Context(item, sh.features, c) {
      ContextsDiffer(sh.features, Row(sh, a.layer, a.item), a.feature, item, c);
      Grid.Injective(sh.batch, a.layer, a.item, 0, item);
    }
  }

  lemma TargetsAreNotHidden(sh: Shape, a: Iteration, r: nat, c: nat)
    requires Valid(sh, a) && c < sh.features
    ensures Target(sh, a) != Hidden(r, sh.features, c)
  {
    HalvesDiffer(sh.features, r, c, Row(sh, a.layer, a.item), a.feature);
  }

  /** The result is determined by the input. */
  lemma CopiedIsUnique(sh: Shape, a: seq<real>, b: seq<real>, was: seq<real>)
    requires |was| == Cells(sh) && Copied(sh, a, was) && Copied(sh, b, was)
    ensures a == b
  {
    forall x | 0 <= x < |was| ensures a[x] == b[x] {
      var r, c := Cover(Rows(sh), sh.features, x);
      if x == Context(r, sh.features, c) {
        var k, j := Grid.Cover(sh.layers, sh.batch, r);
        assert Row(sh, k, j) == r;
      }
    }
  }

  // ---- any order of the iterations' loads and stores ----

  datatype Event = Load(it: Iteration) | Store(it: Iteration)

  datatype Machine = Machine(cells: seq<real>, registers: map<Iteration, real>)

  /** A store without a load, which no schedule has, would do nothing. */
  function Apply(sh: Shape, m: Machine, e: Event): (n: Machine)
    requires |m.cells| == Cells(sh) && Valid(sh, e.it)
    ensures |n.cells| == Cells(sh)
  {
    RowInBounds(sh, e.it.layer, e.it.item, e.it.feature);
    match e
    case Load(it) => m.(registers := m.registers[it := m.cells[Source(sh, it)]])
    case Store(it) => if it in m.registers then m.(cells := m.cells[Target(sh, it) := m.registers[it]]) else m
  }

  /** A schedule of iterations of these loops, in which each loads before it stores. */
  ghost predicate Schedule(sh: Shape, es: seq<Event>)
  {
    forall p :: 0 <= p < |es| ==> Valid(sh, es[p].it) && (es[p].Store? ==> Load(es[p].it) in es[..p])
  }

  /** What holds after any part of a schedule. */
  ghost predicate Inv(sh: Shape, done: seq<Event>, was: seq<real>, m: Machine)
    requires |was| == Cells(sh)
  {
    && |m.cells| == |was|
    && (forall it :: Valid(sh, it) && Load(it) in done ==> it in m.registers)
    && (forall it :: it in m.registers ==> Valid(sh, it) && Source(sh, it) < |was| && m.registers[it] == was[Source(sh, it)])
    && (forall it :: Valid(sh, it) && Store(it) in done ==>
          Target(sh, it) < |was| && Source(sh, it) < |was| && m.cells[Target(sh, it)] == was[Source(sh, it)])
    && (forall j: nat, c: nat :: j < sh.batch && c < sh.features && Context(j, sh.features, c) < |was| ==>
          m.cells[Context(j, sh.features, c)] == was[Context(j, sh.features, c)])
    && (forall r: nat, c: nat :: c < sh.features && Hidden(r, sh.features, c) < |was| ==>
          m.cells[Hidden(r, sh.features, c)] == was[Hidden(r, sh.features, c)])
  }

  /** The events done after one more. */
  ghost predicate OneMoreDone(done: seq<Event>, e: Event, after: seq<Event>) {
    forall d :: d in after <==> d in done || d == e
  }

  lemma LoadKeeps(sh: Shape, done: seq<Event>, after: seq<Event>, was: seq<real>, m: Machine, it: Iteration)
    requires |was| == Cells(sh) && Inv(sh, done, was, m) && Valid(sh, it) && OneMoreDone(done, Load(it), after)
    ensures Inv(sh, after, was, Apply(sh, m, Load(it)))
  {
    RowInBounds(sh, it.layer, it.item, it.feature);
  }

  lemma StoreKeeps(sh: Shape, done: seq<Event>, after: seq<Event>, was: seq<real>, m: Machine, it: Iteration)
    requires |was| == Cells(sh) && Inv(sh, done, was, m) && Valid(sh, it) && it in m.registers && OneMoreDone(done, Store(it), after)
    ensures Inv(sh, after, was, Apply(sh, m, Store(it)))
  {
    RowInBounds(sh, it.layer, it.item, it.feature);
    forall a | Valid(sh, a) && Target(sh, a) == Target(sh, it) ensures a == it { TargetsDiffer(sh, a, it); }
    forall j: nat, c: nat | j < sh.batch && c < sh.features ensures Context(j, sh.features, c) != Target(sh, it) {
      TargetsAreNotRead(sh, it, j, c);
    }
    forall r: nat, c: nat | c < sh.features ensures Hidden(r, sh.features, c) != Target(sh, it) {
      TargetsAreNotHidden(sh, it, r, c);
    }
  }

  /** Every load and every store that has loaded keeps it. */
  lemma Keeps(sh: Shape, done: seq<Event>, after: seq<Event>, was: seq<real>, m: Machine, e: Event)
    requires |was| == Cells(sh) && Inv(sh, done, was, m) && OneMoreDone(done, e, after)
    requires Valid(sh, e.it) && (e.Store? ==> Load(e.it) in done)
    ensures Inv(sh, after, was, Apply(sh, m, e))
  {
    match e
    case Load(it) => LoadKeeps(sh, done, after, was, m, it);
    case Store(it) => StoreKeeps(sh, done, after, was, m, it);
  }

  lemma InvAtStart(sh: Shape, was: seq<real>)
    requires |was| == Cells(sh)
    ensures Inv(sh, [], was, Machine(was, map[]))
  {
  }

  lemma ScheduleFront(sh: Shape, es: seq<Event>)
    requires Schedule(sh, es) && |es| > 0
    ensures Schedule(sh, es[..|es| - 1]) && Valid(sh, es[|es| - 1].it)
    ensures es[|es| - 1].Store? ==> Load(es[|es| - 1].it) in es[..|es| - 1]
    ensures OneMoreDone(es[..|es| - 1], es[|es| - 1], es)
  {
    var front := es[..|es| - 1];
    assert es == front + [es[|es| - 1]];
    forall p | 0 <= p < |front| ensures Valid(sh, front[p].it) && (front[p].Store? ==> Load(front[p].it) in front[..p]) {
      assert front[p] == es[p] && front[..p] == es[..p];
    }
  }

  ghost function Execute(sh: Shape, es: seq<Event>, was: seq<real>): (m: Machine)
    requires |was| == Cells(sh) && forall p :: 0 <= p < |es| ==> Valid(sh, es[p].it)
    ensures |m.cells| == Cells(sh)
  {
    if |es| == 0 then Machine(was, map[])
    else Apply(sh, Execute(sh, es[..|es| - 1], was), es[|es| - 1])
  }

  /** After any part of any schedule. */
  lemma {:induction false} EveryOrderKeeps(sh: Shape, es: seq<Event>, was: seq<real>)
    requires |was| == Cells(sh) && Schedule(sh, es)
    ensures Inv(sh, es, was, Execute(sh, es, was))
  {
    if |es| == 0 {
      InvAtStart(sh, was);
    } else {
      var front, last := es[..|es| - 1], es[|es| - 1];
      ScheduleFront(sh, es);
      EveryOrderKeeps(sh, front, was);
      Keeps(sh, front, es, was, Execute(sh, front, was), last);
    }
  }

  lemma ContextAfter(sh: Shape, es: seq<Event>, was: seq<real>, m: Machine, k: nat, j: nat, c: nat)
    requires |was| == Cells(sh) && Inv(sh, es, was, m) && k < sh.layers && j < sh.batch && c < sh.features
    requires forall it :: Valid(sh, it) ==> Store(it) in es
    ensures Context(Row(sh, k, j), sh.features, c) < |was| && Context(j, sh.features, c) < |was|
    ensures m.cells[Context(Row(sh, k, j), sh.features, c)] == was[Context(j, sh.features, c)]
  {
    RowInBounds(sh, k, j, c);
    if k > 0 { assert Valid(sh, Iteration(k, j, c)); }
  }

  lemma HiddenAfter(sh: Shape, es: seq<Event>, was: seq<real>, m: Machine, r: nat, c: nat)
    requires |was| == Cells(sh) && Inv(sh, es, was, m) && r < Rows(sh) && c < sh.features
    ensures Hidden(r, sh.features, c) < |was| && m.cells[Hidden(r, sh.features, c)] == was[Hidden(r, sh.features, c)]
  {
    HiddenInBounds(sh, r, c);
  }

  lemma InvCopies(sh: Shape, es: seq<Event>, was: seq<real>, m: Machine)
    requires |was| == Cells(sh) && Inv(sh, es, was, m) && forall it :: Valid(sh, it) ==> Store(it) in es
    ensures Copied(sh, m.cells, was)
  {
    forall k: nat, j: nat, c: nat | k < sh.layers && j < sh.batch && c < sh.features
      ensures && Context(Row(sh, k, j), sh.features, c) < |was| && Context(j, sh.features, c) < |was|
              && m.cells[Context(Row(sh, k, j), sh.features, c)] == was[Context(j, sh.features, c)]
    {
      ContextAfter(sh, es, was, m, k, j, c);
    }
    forall r: nat, c: nat | r < Rows(sh) && c < sh.features
      ensures Hidden(r, sh.features, c) < |was| && m.cells[Hidden(r, sh.features, c)] == was[Hidden(r, sh.features, c)]
    {
      HiddenAfter(sh, es, was, m, r, c);
    }
  }

  /** Whatever the interleaving, once every iteration has stored the copy is done. */
  lemma EveryOrderCopies(sh: Shape, es: seq<Event>, was: seq<real>)
    requires |was| == Cells(sh) && Schedule(sh, es)
    requires forall it :: Valid(sh, it) ==> Store(it) in es
    ensures Copied(sh, Execute(sh, es, was).cells, was)
  {
    EveryOrderKeeps(sh, es, was);
    InvCopies(sh, es, was, Execute(sh, es, was));
  }

  /** The copy in numbers: context cells of every layer come from the first layer, hidden cells are unchanged. */
  lemma CopiedInNumbers(sh: Shape, now: seq<real>, was: seq<real>, k: nat, j: nat, c: nat)
    requires |was| == Cells(sh) && Copied(sh, now, was) && k < sh.layers && j < sh.batch && c < sh.features
    ensures var row, first, f := (k * sh.batch + j) * (sh.features + sh.features), j * (sh.features + sh.features), sh.features;
      && |now| == |was| && row + f + c < |was| && first + f + c < |was|
      && now[row + f + c] == was[first + f + c] && now[row + c] == was[row + c]
  {
    RowInBounds(sh, k, j, c);
    HalvesAre(Row(sh, k, j), sh.features, c);
    HalvesAre(j, sh.features, c);
    assert Row(sh, k, j) == k * sh.batch + j;
  }

  /** So all complete schedules leave the same cells. */
  lemma OrderDoesNotMatter(sh: Shape, a: seq<Event>, b: seq<Event>, was: seq<real>)
    requires |was| == Cells(sh) && Schedule(sh, a) && Schedule(sh, b)
    requires forall it :: Valid(sh, it) ==> Store(it) in a && Store(it) in b
    ensures Execute(sh, a, was).cells == Execute(sh, b, was).cells
  {
    EveryOrderCopies(sh, a, was);
    EveryOrderCopies(sh, b, was);
    CopiedIsUnique(sh, Execute(sh, a, was).cells, Execute(sh, b, was).cells, was);
  }

  // ---- the loops in program order ----

  /** The iterations before (layer, item, feature) in program order. */
  predicate Before(sh: Shape, it: Iteration, layer: nat, item: nat, feature: nat) {
    Valid(sh, it) && (it.layer < layer || (it.layer == layer && (it.item < item || (it.item == item && it.feature < feature))))
  }

  /** A schedule made of the iterations before this point, each loading and storing in turn. */
  ghost predicate UpTo(sh: Shape, es: seq<Event>, layer: nat, item: nat, feature: nat) {
    Schedule(sh, es) && forall it :: Before(sh, it, layer, item, feature) ==> Store(it) in es
  }

  lemma {:induction false} ScheduleOneMore(sh: Shape, es: seq<Event>, e: Event)
    requires Schedule(sh, es) && Valid(sh, e.it) && (e.Store? ==> Load(e.it) in es)
    ensures Schedule(sh, es + [e])
  {
    var one := es + [e];
    assert one[..|es|] == es;
    forall p | 0 <= p < |one| ensures Valid(sh, one[p].it) && (one[p].Store? ==> Load(one[p].it) in one[..p]) {
      if p < |es| { assert one[p] == es[p] && one[..p] == es[..p]; }
    }
  }

  /** One more event of a schedule does what it says. */
  lemma {:induction false} ExecuteOneMore(sh: Shape, es: seq<Event>, e: Event, was: seq<real>)
    requires |was| == Cells(sh) && Schedule(sh, es) && Valid(sh, e.it) && (e.Store? ==> Load(e.it) in es)
    ensures Schedule(sh, es + [e])
    ensures Execute(sh, es + [e], was) == Apply(sh, Execute(sh, es, was), e)
  {
    ScheduleOneMore(sh, es, e);
    assert (es + [e])[..|es|] == es && (es + [e])[|es|] == e;
  }

  lemma {:induction false} OneIteration(sh: Shape, es: seq<Event>, it: Iteration, was: seq<real>)
    requires |was| == Cells(sh) && Schedule(sh, es) && Valid(sh, it)
    ensures Schedule(sh, es + [Load(it), Store(it)]) && Source(sh, it) < |was| && Target(sh, it) < |was|
    ensures var cells := Execute(sh, es, was).cells;
      Execute(sh, es + [Load(it), Store(it)], was).cells == cells[Target(sh, it) := cells[Source(sh, it)]]
  {
    RowInBounds(sh, it.layer, it.item, it.feature);
    ExecuteOneMore(sh, es, Load(it), was);
    ExecuteOneMore(sh, es + [Load(it)], Store(it), was);
    assert es + [Load(it)] + [Store(it)] == es + [Load(it), Store(it)];
  }

  /** The cells when the loops arrive at this point, as the result of a schedule. */
  ghost predicate Reached(sh: Shape, cells: seq<real>, was: seq<real>, layer: nat, item: nat, feature: nat)
    requires |was| == Cells(sh)
  {
    exists es :: UpTo(sh, es, layer, item, feature) && cells == Execute(sh, es, was).cells
  }

  lemma AtStart(sh: Shape, was: seq<real>)
    requires |was| == Cells(sh)
    ensures Reached(sh, was, was, 1, 0, 0)
  {
    assert UpTo(sh, [], 1, 0, 0) && was == Execute(sh, [], was).cells;
  }

  lemma NextFeature(sh: Shape, cells: seq<real>, was: seq<real>, it: Iteration)
    requires |cells| == |was| == Cells(sh) && Valid(sh, it) && Reached(sh, cells, was, it.layer, it.item, it.feature)
    ensures Source(sh, it) < |cells| && Target(sh, it) < |cells|
    ensures Reached(sh, cells[Target(sh, it) := cells[Source(sh, it)]], was, it.layer, it.item, it.feature + 1)
  {
    var es :| UpTo(sh, es, it.layer, it.item, it.feature) && cells == Execute(sh, es, was).cells;
    OneIteration(sh, es, it, was);
    OneMore(sh, es, it);
  }

  lemma OneMore(sh: Shape, es: seq<Event>, it: Iteration)
    requires UpTo(sh, es, it.layer, it.item, it.feature) && Schedule(sh, es + [Load(it), Store(it)])
    ensures UpTo(sh, es + [Load(it), Store(it)], it.layer, it.item, it.feature + 1)
  {
    forall a | Before(sh, a, it.layer, it.item, it.feature + 1) ensures Store(a) in es + [Load(it), Store(it)] {
      if a != it { assert Before(sh, a, it.layer, it.item, it.feature); }
    }
  }

  lemma NextItem(sh: Shape, cells: seq<real>, was: seq<real>, layer: nat, item: nat)
    requires |was| == Cells(sh) && Reached(sh, cells, was, layer, item, sh.features)
    ensures Reached(sh, cells, was, layer, item + 1, 0)
  {
    var es :| UpTo(sh, es, layer, item, sh.features) && cells == Execute(sh, es, was).cells;
    assert UpTo(sh, es, layer, item + 1, 0);
  }

  lemma NextLayer(sh: Shape, cells: seq<real>, was: seq<real>, layer: nat)
    requires |was| == Cells(sh) && Reached(sh, cells, was, layer, sh.batch, 0)
    ensures Reached(sh, cells, was, layer + 1, 0, 0)
  {
    var es :| UpTo(sh, es, layer, sh.batch, 0) && cells == Execute(sh, es, was).cells;
    assert UpTo(sh, es, layer + 1, 0, 0);
  }

  lemma AtEnd(sh: Shape, cells: seq<real>, was: seq<real>, layer: nat)
    requires |was| == Cells(sh) && layer >= sh.layers && Reached(sh, cells, was, layer, 0, 0)
    ensures Copied(sh, cells, was)
  {
    var es :| UpTo(sh, es, layer, 0, 0) && cells == Execute(sh, es, was).cells;
    EveryOrderCopies(sh, es, was);
  }

  method CopyCell(srcIter: array<real>, sh: Shape, it: Iteration)
    requires srcIter.Length == Cells(sh) && Valid(sh, it)
    modifies srcIter
    ensures Source(sh, it) < srcIter.Length && Target(sh, it) < srcIter.Length
    ensures srcIter[..] == old(srcIter[..])[Target(sh, it) := old(srcIter[..])[Source(sh, it)]]
  {
    RowInBounds(sh, it.layer, it.item, it.feature);
    var width := sh.features + sh.features;
    srcIter[(it.layer * sh.batch + it.item) * width + sh.features + it.feature] := srcIter[it.item * width + sh.features + it.feature];
  }

  method CopyContext(srcIter: array<real>, layers: nat, batch: nat, features: nat)
    requires srcIter.Length == Cells(Shape(layers, batch, features))
    modifies srcIter
    ensures Copied(Shape(layers, batch, features), srcIter[..], old(srcIter[..]))
  {
    ghost var sh, was := Shape(layers, batch, features), srcIter[..];
    AtStart(sh, was);
    var k := 1;
    while k < layers
      invariant Reached(sh, srcIter[..], was, k, 0, 0)
    {
      for j := 0 to batch
        invariant Reached(sh, srcIter[..], was, k, j, 0)
      {
        for i := 0 to features
          invariant Reached(sh, srcIter[..], was, k, j, i)
        {
          NextFeature(sh, srcIter[..], was, Iteration(k, j, i));
          CopyCell(srcIter, Shape(layers, batch, features), Iteration(k, j, i));
        }
        NextItem(sh, srcIter[..], was, k, j);
      }
      NextLayer(sh, srcIter[..], was, k);
      k := k + 1;
    }
    AtEnd(sh, srcIter[..], was, k);
  }
}
