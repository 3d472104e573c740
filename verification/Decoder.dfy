/**
 The decoder loop of examples/cpu_rnn_inference_f32.cpp.  One output buffer serves all iterations:
 the source handle follows the destination handle through it, one window behind.  Each iteration
 runs the attention and the copy of the context on the recurrent states before its LSTM cell.
 */
module Decoder {

  import opened Grid
  import opened ContextStep
  import CopyContext
  import States

  /**
   The parts of an iteration that the library computes: the alignment scores from the source
   window, and the cell, which writes the destination window, the hidden halves of the states
   (through a view without the contexts) and the cell states.
   */
  datatype Lstm<!S> = Lstm(
    score: (seq<real>, nat) -> real,
    out: (seq<real>, seq<real>, S, nat) -> real,
    hidden: (seq<real>, seq<real>, S, nat) -> real,
    next: (seq<real>, seq<real>, S) -> S)

  datatype Network<!S> = Network(a: Annotated, sh: CopyContext.Shape, lstm: Lstm<S>)

  // ---- the recurrence ----

  /** What lives from one iteration to the next besides the windows. */
  datatype Recurrent<S> = Recurrent(states: seq<real>, cells: S)

  ghost predicate Fit<S>(n: Network<S>) { ContextStep.Fits(n.a, n.sh) }

  function Scores<S>(n: Network<S>, input: seq<real>): (s: seq<real>)
    ensures |s| == n.a.steps * n.sh.batch
  {
    seq(n.a.steps * n.sh.batch, x requires 0 <= x < n.a.steps * n.sh.batch => n.lstm.score(input, x))
  }

  /** The states as the cell sees them: with the contexts for this input. */
  ghost function Seen<S>(n: Network<S>, input: seq<real>, states: seq<real>): (p: seq<real>)
    requires Fit(n)
    ensures |p| == |states|
  {
    Prepared(n.a, n.sh, states, Scores(n, input))
  }

  ghost function Renewed<S>(n: Network<S>, input: seq<real>, p: seq<real>, cells: S): (r: seq<real>)
    ensures |r| == |p|
    ensures forall x :: 0 <= x < |p| ==> r[x] == if IsHidden(n.sh, x) then n.lstm.hidden(input, p, cells, x) else p[x]
  {
    seq(|p|, x requires 0 <= x < |p| => if IsHidden(n.sh, x) then n.lstm.hidden(input, p, cells, x) else p[x])
  }

  function Outs<S>(n: Network<S>, input: seq<real>, p: seq<real>, cells: S, size: nat): (w: seq<real>)
    ensures |w| == size && forall j :: 0 <= j < size ==> w[j] == n.lstm.out(input, p, cells, j)
  {
    seq(size, j requires 0 <= j < size => n.lstm.out(input, p, cells, j))
  }

  ghost function Window<S>(n: Network<S>, input: seq<real>, s: Recurrent<S>, size: nat): (w: seq<real>)
    requires Fit(n)
    ensures |w| == size
  {
    Outs(n, input, Seen(n, input, s.states), s.cells, size)
  }

  ghost function Next<S>(n: Network<S>, input: seq<real>, s: Recurrent<S>): (r: Recurrent<S>)
    requires Fit(n)
    ensures |r.states| == |s.states|
  {
    var p := Seen(n, input, s.states);
    Recurrent(Renewed(n, input, p, s.cells), n.lstm.next(input, p, s.cells))
  }

  /** What iteration i takes in: the end-of-sequence embedding first, then the previous output. */
  ghost function Input<S>(n: Network<S>, s0: Recurrent<S>, size: nat, i: nat): (w: seq<real>)
    requires Fit(n)
    ensures |w| == size
    decreases i, 0
  {
    if i == 0 then seq(size, _ => 0.0) else Output(n, s0, size, i - 1)
  }

  ghost function State<S>(n: Network<S>, s0: Recurrent<S>, size: nat, i: nat): Recurrent<S>
    requires Fit(n)
    decreases i, 0
  {
    if i == 0 then s0 else Next(n, Input(n, s0, size, i - 1), State(n, s0, size, i - 1))
  }

  ghost function Output<S>(n: Network<S>, s0: Recurrent<S>, size: nat, i: nat): (w: seq<real>)
    requires Fit(n)
    ensures |w| == size
    decreases i, 1
  {
    Window(n, Input(n, s0, size, i), State(n, s0, size, i), size)
  }

  /** One iteration: what goes in, the scores, the states before, as the cell sees them and after, and what comes out. */
  datatype Turn<S> = Turn(input: seq<real>, scores: seq<real>, before: Recurrent<S>, seen: seq<real>,
                          output: seq<real>, after: Recurrent<S>)

  /** The turn that the recurrence makes of an input and states. */
  ghost function TurnOf<S>(n: Network<S>, input: seq<real>, s: Recurrent<S>, size: nat): Turn<S>
    requires Fit(n)
  {
    Turn(input, Scores(n, input), s, Seen(n, input, s.states), Window(n, input, s, size), Next(n, input, s))
  }

  /** The attention and the copy have run: the scores are those of the input, contexts come from them, hidden halves from before. */
  ghost predicate Attended<S>(n: Network<S>, t: Turn<S>)
    requires Fit(n)
  {
    && |t.scores| == n.a.steps * n.sh.batch && (forall x :: 0 <= x < |t.scores| ==> t.scores[x] == n.lstm.score(t.input, x))
    && ContextEverywhere(n.a, n.sh, t.seen, t.scores) && HiddenEverywhere(n.sh, t.seen, t.before.states)
  }

  /** The cell has run on what it saw: window, hidden halves and cell states are its, context halves stay. */
  ghost predicate CellRan<S>(n: Network<S>, t: Turn<S>, size: nat) {
    && |t.output| == size && (forall j :: 0 <= j < size ==> t.output[j] == n.lstm.out(t.input, t.seen, t.before.cells, j))
    && t.after.cells == n.lstm.next(t.input, t.seen, t.before.cells)
    && |t.after.states| == |t.seen|
    && (forall r: nat, c: nat :: r < CopyContext.Rows(n.sh) && c < n.sh.features ==>
          var x := States.Hidden(r, n.sh.features, c);
          x < |t.seen| && t.after.states[x] == n.lstm.hidden(t.input, t.seen, t.before.cells, x))
    && (forall r: nat, c: nat :: r < CopyContext.Rows(n.sh) && c < n.sh.features ==>
          var x := States.Context(r, n.sh.features, c);
          x < |t.seen| && t.after.states[x] == t.seen[x])
  }

  /** What every turn of the recurrence is, in terms of the attention, the copy and the cell. */
  lemma TurnIs<S>(n: Network<S>, input: seq<real>, s: Recurrent<S>, size: nat)
    requires Fit(n) && |s.states| == CopyContext.Cells(n.sh)
    ensures Attended(n, TurnOf(n, input, s, size)) && CellRan(n, TurnOf(n, input, s, size), size)
  {
    PreparedHas(n.a, n.sh, s.states, Scores(n, input));
    forall r: nat, c: nat | r < CopyContext.Rows(n.sh) && c < n.sh.features
      ensures States.Hidden(r, n.sh.features, c) < |s.states| && IsHidden(n.sh, States.Hidden(r, n.sh.features, c))
      ensures States.Context(r, n.sh.features, c) < |s.states| && !IsHidden(n.sh, States.Context(r, n.sh.features, c))
    {
      CopyContext.HiddenInBounds(n.sh, r, c);
      HiddenPlace(n.sh, r, c);
      ContextOfRow(n.sh, r, c);
    }
  }

  lemma ContextOfRow(sh: CopyContext.Shape, r: nat, c: nat)
    requires r < CopyContext.Rows(sh) && c < sh.features
    ensures States.Context(r, sh.features, c) < CopyContext.Cells(sh) && !IsHidden(sh, States.Context(r, sh.features, c))
  {
    var k, j := Cover(sh.layers, sh.batch, r);
    CopyContext.RowInBounds(sh, k, j, c);
    ContextPlace(sh, k, j, c);
  }

  /** Where an iteration read and wrote. */
  datatype Access = Access(from: array<real>, read: nat, to: array<real>, wrote: nat, input: seq<real>)

  /** Iteration i writes window i of the output, from what iteration i-1 wrote. */
  ghost predicate Proper(a: Access, input: seq<real>, output: array<real>, size: nat, i: nat) {
    && a.to == output && a.wrote == Cell(i, size, 0) && a.input == input
    && (if i == 0 then a.from != output else a.from == output && a.read == Cell(i - 1, size, 0))
  }

  ghost predicate Holds(buffer: seq<real>, start: nat, w: seq<real>) {
    start + |w| <= |buffer| && buffer[start..start + |w|] == w
  }

  /** w was written at start, and nothing else. */
  ghost predicate Spliced(after: seq<real>, before: seq<real>, start: nat, w: seq<real>) {
    && |after| == |before| && Holds(after, start, w)
    && forall x :: 0 <= x < |after| && !(start <= x < start + |w|) ==> after[x] == before[x]
  }

  /** The first windows of the buffer hold the first outputs. */
  ghost predicate Written(buffer: seq<real>, outputs: seq<seq<real>>, size: nat, count: nat)
    requires count <= |outputs|
  {
    forall k: nat :: k < count ==> Holds(buffer, Cell(k, size, 0), outputs[k])
  }

  ghost predicate Traced(trace: seq<Access>, inputs: seq<seq<real>>, output: array<real>, size: nat) {
    |trace| <= |inputs| && forall k :: 0 <= k < |trace| ==> Proper(trace[k], inputs[k], output, size, k)
  }

  class Decoder<!S> {
    const size: nat                  // batch * feature_size
    const srcIter: array<real>       // dec_dst_iter_memory: hidden and context halves
    const alignments: array<real>
    const sums: array<real>          // exp_sums
    var source: array<real>          // dec_src_layer_memory
    var sourceOffset: nat
    var target: array<real>          // user_dec_dst_layer_memory
    var targetOffset: nat
    var cells: S                     // dec_dst_iter_c_memory

    constructor (n: Network<S>, size: nat, source: array<real>, target: array<real>, srcIter: array<real>, cells: S)
      ensures this.size == size && this.source == source && this.target == target
      ensures this.srcIter == srcIter && this.cells == cells && sourceOffset == 0 && targetOffset == 0
      ensures fresh(alignments) && fresh(sums) && alignments != sums
      ensures alignments.Length == n.a.steps * n.sh.batch && sums.Length == n.sh.batch
    {
      this.size, this.srcIter := size, srcIter;
      alignments, sums := new real[n.a.steps * n.sh.batch](_ => 1.0), new real[n.sh.batch](_ => 1.0);
      this.source, this.sourceOffset := source, 0;
      this.target, this.targetOffset := target, 0;
      this.cells := cells;
    }

    /** The buffers have the sizes of the network and do not overlap, except that source may be target. */
    ghost predicate Equipped(n: Network<S>)
      reads this
    {
      && Fit(n) && srcIter.Length == CopyContext.Cells(n.sh)
      && alignments.Length == n.a.steps * n.sh.batch && sums.Length == n.sh.batch
      && srcIter != alignments && srcIter != sums && alignments != sums
      && source !in {srcIter, alignments, sums} && target !in {srcIter, alignments, sums}
    }

    /** Both windows lie in their buffers and do not overlap. */
    ghost predicate Ready()
      reads this
    {
      && sourceOffset + size <= source.Length && targetOffset + size <= target.Length
      && (source == target ==> sourceOffset + size <= targetOffset)
    }

    ghost function Now(): Recurrent<S>
      reads this, srcIter
    {
      Recurrent(srcIter[..], cells)
    }

    ghost function SourceWindow(): (w: seq<real>)
      requires sourceOffset + size <= source.Length
      reads this, source
      ensures |w| == size
    {
      source[sourceOffset..sourceOffset + size]
    }

    /** memset of the source window. */
    method ClearSource()
      requires sourceOffset + size <= source.Length
      modifies source
      ensures Holds(source[..], sourceOffset, seq(size, _ => 0.0))
    {
      for j := 0 to size
        invariant forall x :: sourceOffset <= x < sourceOffset + j ==> source[x] == 0.0
      {
        source[sourceOffset + j] := 0.0;
      }
    }

    /** The scores that the attention starts from. */
    method Score(n: Network<S>)
      requires Equipped(n) && Ready()
      modifies alignments
      ensures alignments[..] == Scores(n, SourceWindow())
    {
      var input := source[sourceOffset..sourceOffset + size];
      for x := 0 to alignments.Length
        invariant forall k :: 0 <= k < x ==> alignments[k] == n.lstm.score(input, k)
      {
        alignments[x] := n.lstm.score(input, x);
      }
    }

    /** The cell fills the target window; it reads the source window and the states throughout. */
    method Fire(n: Network<S>)
      requires Equipped(n) && Ready()
      modifies target
      ensures Spliced(target[..], old(target[..]), targetOffset, Outs(n, old(SourceWindow()), old(srcIter[..]), cells, size))
    {
      ghost var before, input, p := target[..], SourceWindow(), srcIter[..];
      ghost var w := Outs(n, input, p, cells, size);
      for j := 0 to size
        invariant forall x :: targetOffset <= x < targetOffset + j ==> target[x] == w[x - targetOffset]
        invariant forall x :: 0 <= x < target.Length && !(targetOffset <= x < targetOffset + j) ==> target[x] == before[x]
        invariant SourceWindow() == input && srcIter[..] == p
      {
        target[targetOffset + j] := n.lstm.out(source[sourceOffset..sourceOffset + size], srcIter[..], cells, j);
      }
    }

    /** The cell writes the hidden halves, and only them. */
    method Renew(n: Network<S>, input: seq<real>, p: seq<real>)
      requires srcIter[..] == p
      modifies srcIter
      ensures srcIter[..] == Renewed(n, input, p, cells)
    {
      for x := 0 to srcIter.Length
        invariant forall k :: 0 <= k < x ==> srcIter[k] == if IsHidden(n.sh, k) then n.lstm.hidden(input, p, cells, k) else p[k]
        invariant forall k :: x <= k < srcIter.Length ==> srcIter[k] == p[k]
      {
        if IsHidden(n.sh, x) {
          srcIter[x] := n.lstm.hidden(input, p, cells, x);
        }
      }
    }

    /** Attention and copy of the context. */
    method Prepare(n: Network<S>) returns (ghost scores: seq<real>)
      requires Equipped(n) && Ready()
      modifies srcIter, alignments, sums
      ensures |scores| == n.a.steps * n.sh.batch && forall x :: 0 <= x < |scores| ==> scores[x] == n.lstm.score(SourceWindow(), x)
      ensures ContextEverywhere(n.a, n.sh, srcIter[..], scores) && HiddenEverywhere(n.sh, srcIter[..], old(srcIter[..]))
      ensures srcIter[..] == Seen(n, SourceWindow(), old(srcIter[..]))
    {
      Score(n);
      scores := alignments[..];
      PrepareStates(n.a, srcIter, alignments, sums, n.sh);
    }

    /** The cell, in place. */
    method RunCell(n: Network<S>)
      requires Equipped(n) && Ready()
      modifies this`cells, target, srcIter
      ensures Spliced(target[..], old(target[..]), targetOffset, Outs(n, old(SourceWindow()), old(srcIter[..]), old(cells), size))
      ensures srcIter[..] == Renewed(n, old(SourceWindow()), old(srcIter[..]), old(cells))
      ensures cells == n.lstm.next(old(SourceWindow()), old(srcIter[..]), old(cells))
    {
      var input, p := source[sourceOffset..sourceOffset + size], srcIter[..];
      Fire(n);
      Renew(n, input, p);
      cells := n.lstm.next(input, p, cells);
    }

    /** Attention, copy of the context, and the cell. */
    method Compute(n: Network<S>)
      requires Equipped(n) && Ready()
      modifies this`cells, target, srcIter, alignments, sums
      ensures Spliced(target[..], old(target[..]), targetOffset, Window(n, old(SourceWindow()), old(Now()), size))
      ensures Now() == Next(n, old(SourceWindow()), old(Now()))
    {
      ghost var scores := Prepare(n);
      RunCell(n);
    }

    /** One pass of the loop body. */
    method Step(n: Network<S>)
      requires Equipped(n) && Ready()
      modifies this, target, srcIter, alignments, sums
      ensures target == old(target) && Equipped(n)
      ensures Spliced(target[..], old(target[..]), old(targetOffset), Window(n, old(SourceWindow()), old(Now()), size))
      ensures Now() == Next(n, old(SourceWindow()), old(Now()))
      ensures source == old(target) && sourceOffset == old(targetOffset) && targetOffset == old(targetOffset) + size
    {
      Compute(n);
      source, sourceOffset := target, targetOffset;
      targetOffset := targetOffset + size;
    }

    /** The whole loop, with room for exactly its windows. */
    method Run(n: Network<S>, count: nat) returns (ghost trace: seq<Access>, ghost turns: seq<Turn<S>>)
      requires Equipped(n) && source != target && sourceOffset == 0 && targetOffset == 0
      requires source.Length == size && target.Length == count * size
      modifies this, source, target, srcIter, alignments, sums
      ensures target == old(target) && targetOffset == target.Length
      ensures |trace| == count && forall i :: 0 <= i < count ==> Proper(trace[i], Input(n, old(Now()), size, i), target, size, i)
      ensures forall i: nat :: i < count ==> Holds(target[..], Cell(i, size, 0), Output(n, old(Now()), size, i))
      ensures Now() == State(n, old(Now()), size, count)
      ensures |turns| == count && forall i :: 0 <= i < count ==> Attended(n, turns[i]) && CellRan(n, turns[i], size)
      ensures forall i :: 0 <= i < count ==> turns[i].input == if i == 0 then seq(size, _ => 0.0) else turns[i - 1].output
      ensures forall i :: 0 <= i < count ==> turns[i].before == if i == 0 then old(Now()) else turns[i - 1].after
      ensures forall i :: 0 <= i < count ==> Holds(target[..], Cell(i, size, 0), turns[i].output)
      ensures Now() == if count == 0 then old(Now()) else turns[count - 1].after
    {
      ghost var r := Unroll(n, Now(), size, count);
      ClearSource();
      trace := Loop(n, count, r);
      turns := Turns(r, n, size, count);
      forall i | 0 < i < count ensures turns[i].input == turns[i - 1].output && turns[i].before == turns[i - 1].after {
        TurnsFollow(r, turns, i);
      }
    }

    /** Before iteration i: the handles, the input, and the outputs so far. */
    ghost predicate At(r: Recurrence<S>, output: array<real>, i: nat)
      requires i < |r.inputs| && i < |r.states| && i <= |r.outputs|
      reads this, source, output, srcIter
    {
      && target == output && targetOffset == Cell(i, size, 0)
      && Holds(source[..], sourceOffset, r.inputs[i]) && Now() == r.states[i]
      && (if i == 0 then source != output else source == output && sourceOffset == Cell(i - 1, size, 0))
      && Written(output[..], r.outputs, size, i)
    }

    method Iterate(n: Network<S>, count: nat, ghost r: Recurrence<S>, i: nat) returns (ghost access: Access)
      requires Equipped(n) && i < count && Chained(r, n, size, count) && At(r, target, i) && target.Length == Cell(count, size, 0)
      modifies this, target, srcIter, alignments, sums
      ensures target == old(target) && source == target && Equipped(n) && At(r, target, i + 1)
      ensures Proper(access, r.inputs[i], target, size, i)
    {
      ghost var output := target;
      Neighbours(i, count, size);
      assert Link(r, n, size, i);
      assert SourceWindow() == r.inputs[i];
      access := Access(source, sourceOffset, target, targetOffset, SourceWindow());
      ghost var before := output[..];
      Step(n);
      OneMoreWindow(before, output[..], r.outputs, size, i);
    }

    method Loop(n: Network<S>, count: nat, ghost r: Recurrence<S>) returns (ghost trace: seq<Access>)
      requires Equipped(n) && Chained(r, n, size, count) && At(r, target, 0) && target.Length == Cell(count, size, 0)
      modifies this, target, srcIter, alignments, sums
      ensures target == old(target) && At(r, target, count)
      ensures |trace| == count && Traced(trace, r.inputs, target, size)
    {
      trace := [];
      for i := 0 to count
        invariant target == old(target) && Equipped(n) && At(r, target, i)
        invariant |trace| == i && Traced(trace, r.inputs, target, size)
      {
        ghost var access := Iterate(n, count, r, i);
        TraceGrows(trace, access, r.inputs, target, size);
        trace := trace + [access];
      }
    }
  }

  /** The first iterations of the recurrence, side by side. */
  datatype Recurrence<!S> = Recurrence(inputs: seq<seq<real>>, states: seq<Recurrent<S>>, outputs: seq<seq<real>>)

  ghost predicate Link<S>(r: Recurrence<S>, n: Network<S>, size: nat, i: nat)
    requires Fit(n)
  {
    && i + 1 < |r.inputs| && i + 1 < |r.states| && i < |r.outputs|
    && |r.inputs[i]| == size && r.outputs[i] == Window(n, r.inputs[i], r.states[i], size)
    && r.inputs[i + 1] == r.outputs[i] && r.states[i + 1] == Next(n, r.inputs[i], r.states[i])
  }

  ghost predicate Chained<S>(r: Recurrence<S>, n: Network<S>, size: nat, count: nat)
    requires Fit(n)
  {
    && |r.inputs| == |r.states| == count + 1 && |r.outputs| == count
    && (forall k :: 0 <= k <= count ==> |r.inputs[k]| == size) && (forall k :: 0 <= k < count ==> |r.outputs[k]| == size)
    && forall i: nat :: i < count ==> Link(r, n, size, i)
  }

  /** The tables of the recurrence. */
  ghost predicate Tabulates<S>(r: Recurrence<S>, n: Network<S>, s0: Recurrent<S>, size: nat, count: nat)
    requires Fit(n)
  {
    && |r.inputs| == |r.states| == count + 1 && |r.outputs| == count
    && (forall i :: 0 <= i <= count ==> r.inputs[i] == Input(n, s0, size, i) && r.states[i] == State(n, s0, size, i))
    && (forall i :: 0 <= i < count ==> r.outputs[i] == Output(n, s0, size, i))
  }

  lemma TableLinks<S>(r: Recurrence<S>, n: Network<S>, s0: Recurrent<S>, size: nat, count: nat, i: nat)
    requires Fit(n) && Tabulates(r, n, s0, size, count) && i < count
    ensures Link(r, n, size, i)
  {
    assert r.inputs[i] == Input(n, s0, size, i) && r.states[i] == State(n, s0, size, i);
    assert r.inputs[i + 1] == Input(n, s0, size, i + 1) && r.states[i + 1] == State(n, s0, size, i + 1);
  }

  lemma Unroll<S>(n: Network<S>, s0: Recurrent<S>, size: nat, count: nat) returns (r: Recurrence<S>)
    requires Fit(n)
    ensures Chained(r, n, size, count) && Tabulates(r, n, s0, size, count) && r.inputs[0] == seq(size, _ => 0.0)
  {
    r := Recurrence(
      seq(count + 1, i requires 0 <= i <= count => Input(n, s0, size, i)),
      seq(count + 1, i requires 0 <= i <= count => State(n, s0, size, i)),
      seq(count, i requires 0 <= i < count => Output(n, s0, size, i)));
    forall i: nat | i < count ensures Link(r, n, size, i) {
      TableLinks(r, n, s0, size, count, i);
    }
  }

  lemma {:induction false} StatesKeepSize<S>(r: Recurrence<S>, n: Network<S>, size: nat, count: nat, i: nat)
    requires Fit(n) && Chained(r, n, size, count) && i <= count
    ensures |r.states[i].states| == |r.states[0].states|
  {
    if i > 0 {
      StatesKeepSize(r, n, size, count, i - 1);
      assert Link(r, n, size, i - 1);
    }
  }

  /** A turn at its place in the recurrence. */
  ghost predicate TurnAt<S>(r: Recurrence<S>, t: Turn<S>, i: nat) {
    && i + 1 < |r.inputs| && i + 1 < |r.states| && i < |r.outputs|
    && t.input == r.inputs[i] && t.output == r.outputs[i] == r.inputs[i + 1]
    && t.before == r.states[i] && t.after == r.states[i + 1]
  }

  /** The turns of the recurrence. */
  lemma Turns<S>(r: Recurrence<S>, n: Network<S>, size: nat, count: nat) returns (turns: seq<Turn<S>>)
    requires Fit(n) && Chained(r, n, size, count) && |r.states[0].states| == CopyContext.Cells(n.sh)
    ensures |turns| == count
    ensures forall i :: 0 <= i < count ==> Attended(n, turns[i]) && CellRan(n, turns[i], size) && TurnAt(r, turns[i], i)
  {
    turns := seq(count, i requires 0 <= i < count => TurnOf(n, r.inputs[i], r.states[i], size));
    forall i | 0 <= i < count ensures Attended(n, turns[i]) && CellRan(n, turns[i], size) && TurnAt(r, turns[i], i) {
      assert Link(r, n, size, i);
      StatesKeepSize(r, n, size, count, i);
      TurnIs(n, r.inputs[i], r.states[i], size);
    }
  }

  /** So each turn starts from where the one before it ended. */
  lemma TurnsFollow<S>(r: Recurrence<S>, turns: seq<Turn<S>>, i: nat)
    requires 0 < i < |turns| && TurnAt(r, turns[i - 1], i - 1) && TurnAt(r, turns[i], i)
    ensures turns[i].input == turns[i - 1].output && turns[i].before == turns[i - 1].after
  {
  }

  lemma TraceGrows(trace: seq<Access>, a: Access, inputs: seq<seq<real>>, output: array<real>, size: nat)
    requires Traced(trace, inputs, output, size) && |trace| < |inputs| && Proper(a, inputs[|trace|], output, size, |trace|)
    ensures Traced(trace + [a], inputs, output, size)
  {}

  lemma Neighbours(i: nat, count: nat, size: nat)
    requires i < count
    ensures Cell(i, size, 0) + size == Cell(i + 1, size, 0) <= Cell(count, size, 0)
    ensures i > 0 ==> Cell(i - 1, size, 0) + size == Cell(i, size, 0)
  {
    RowEnd(i, count, size);
  }

  lemma Behind(i: nat, size: nat)
    ensures forall k: nat :: k < i ==> Cell(k, size, 0) + size <= Cell(i, size, 0)
  {
    forall k: nat | k < i ensures Cell(k, size, 0) + size <= Cell(i, size, 0) { RowEnd(k, i, size); }
  }

  /** Windows before the one written keep what they hold. */
  lemma OneMoreWindow(before: seq<real>, after: seq<real>, outputs: seq<seq<real>>, size: nat, i: nat)
    requires i < |outputs| && forall k :: 0 <= k < |outputs| ==> |outputs[k]| == size
    requires Written(before, outputs, size, i) && Spliced(after, before, Cell(i, size, 0), outputs[i])
    ensures Written(after, outputs, size, i + 1)
  {
    Behind(i, size);
    forall k: nat | k < i ensures Holds(after, Cell(k, size, 0), outputs[k]) {
      var at := Cell(k, size, 0);
      assert Holds(before, at, outputs[k]);
      assert after[at..at + size] == before[at..at + size];
    }
  }
}
