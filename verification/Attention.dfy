/**
 The attention of examples/cpu_rnn_inference_f32.cpp, in exact reals: alignments are turned into
 weights per batch item, and the annotations are mixed with them.
 */
module Attention {

  import opened Grid
  import opened States

  // ---- weights ----

  /** All that is needed of the exponential is that it is positive. */
  type PosReal = x: real | x > 0.0 witness 1.0
  type Exp = real -> PosReal

  function Times(a: real, b: real): real { a * b }

  function Sum(c: seq<real>): real {
    if |c| == 0 then 0.0 else Sum(c[..|c| - 1]) + c[|c| - 1]
  }

  ghost predicate IsScaled(m: seq<real>, c: seq<real>, k: real) {
    |m| == |c| && forall i :: 0 <= i < |c| ==> m[i] == Times(k, c[i])
  }

  ghost predicate AreProducts(m: seq<real>, a: seq<real>, b: seq<real>) {
    |m| == |a| == |b| && forall i :: 0 <= i < |m| ==> m[i] == Times(a[i], b[i])
  }

  ghost predicate AllPositive(c: seq<real>) {
    forall i :: 0 <= i < |c| ==> c[i] > 0.0
  }

  lemma {:induction false} SumPositive(c: seq<real>)
    requires |c| > 0 && AllPositive(c)
    ensures Sum(c) > 0.0
  {
    if |c| > 1 { SumPositive(c[..|c| - 1]); }
  }

  lemma {:induction false} SumScaled(m: seq<real>, c: seq<real>, k: real)
    requires IsScaled(m, c, k)
    ensures Sum(m) == Times(k, Sum(c))
  {
    if |c| > 0 {
      SumScaled(m[..|c| - 1], c[..|c| - 1], k);
    }
  }

  /** w are the shares of e in its total. */
  ghost predicate Shares(w: seq<real>, e: seq<real>) {
    |w| == |e| && (|e| > 0 ==> Sum(e) > 0.0) && forall i :: 0 <= i < |e| ==> w[i] == e[i] / Sum(e)
  }

  ghost function SharesOf(e: seq<real>): (w: seq<real>)
    requires |e| > 0 ==> Sum(e) > 0.0
    ensures Shares(w, e)
  {
    seq(|e|, i requires 0 <= i < |e| => e[i] / Sum(e))
  }

  /** The weights are positive and add up to one. */
  lemma SharesSumToOne(w: seq<real>, e: seq<real>)
    requires |e| > 0 && AllPositive(e) && Shares(w, e)
    ensures Sum(w) == 1.0 && AllPositive(w)
  {
    var k := 1.0 / Sum(e);
    forall i | 0 <= i < |e| ensures w[i] == Times(k, e[i]) && w[i] > 0.0 { ShareIsScaled(e[i], Sum(e)); }
    SumScaled(w, e, k);
    WholeShare(Sum(e));
  }

  lemma ShareIsScaled(x: real, total: real)
    requires x > 0.0 && total > 0.0
    ensures x / total == Times(1.0 / total, x) > 0.0
  {}

  lemma WholeShare(total: real)
    requires total > 0.0
    ensures Times(1.0 / total, total) == 1.0
  {}

  /** They are the only numbers in the proportions of e that do. */
  lemma SharesAreUnique(p: seq<real>, e: seq<real>)
    requires |p| == |e| > 0 && AllPositive(e) && Sum(p) == 1.0
    requires forall i, k :: 0 <= i < |e| && 0 <= k < |e| ==> Times(p[i], e[k]) == Times(e[i], p[k])
    ensures Shares(p, e)
  {
    SumPositive(e);
    forall i | 0 <= i < |e| ensures p[i] == e[i] / Sum(e) {
      ShareOf(p, e, i);
      Quotient(p[i], Sum(e), e[i]);
    }
  }

  lemma ShareOf(p: seq<real>, e: seq<real>, i: nat)
    requires |p| == |e| && i < |e|
    requires forall k :: 0 <= k < |e| ==> Times(p[i], e[k]) == Times(e[i], p[k])
    ensures Times(p[i], Sum(e)) == Times(e[i], Sum(p))
  {
    var m := seq(|e|, k requires 0 <= k < |e| => Times(p[i], e[k]));
    SumScaled(m, e, p[i]);
    SumScaled(m, p, e[i]);
  }

  lemma Quotient(p: real, s: real, e: real)
    requires s > 0.0 && Times(p, s) == Times(e, 1.0)
    ensures p == e / s
  {}

  lemma {:induction false} MixBetween(m: seq<real>, w: seq<real>, a: seq<real>, lo: real, hi: real)
    requires AreProducts(m, w, a) && forall i :: 0 <= i < |w| ==> w[i] >= 0.0 && lo <= a[i] <= hi
    ensures Times(lo, Sum(w)) <= Sum(m) <= Times(hi, Sum(w))
  {
    if |w| > 0 {
      var n := |w| - 1;
      MixBetween(m[..n], w[..n], a[..n], lo, hi);
      ProductBetween(w[n], a[n], lo, hi);
      Distribute(lo, Sum(w[..n]), w[n]);
      Distribute(hi, Sum(w[..n]), w[n]);
    }
  }

  lemma ProductBetween(w: real, a: real, lo: real, hi: real)
    requires w >= 0.0 && lo <= a <= hi
    ensures Times(lo, w) <= Times(w, a) <= Times(hi, w)
  {}

  lemma Distribute(k: real, x: real, y: real)
    ensures Times(k, x + y) == Times(k, x) + Times(k, y)
  {}

  // ---- the loops ----

  /** Column col of a matrix with the given width. */
  function Column(s: seq<real>, rows: nat, width: nat, col: nat): (c: seq<real>)
    requires |s| == rows * width && col < width
    ensures |c| == rows
    ensures forall i :: 0 <= i < rows ==> Cell(i, width, col) < |s| && c[i] == s[Cell(i, width, col)]
  {
    ColumnInBounds(rows, width, col);
    seq(rows, i requires 0 <= i < rows => s[Cell(i, width, col)])
  }

  lemma ColumnInBounds(rows: nat, width: nat, col: nat)
    requires col < width
    ensures forall i: nat {:trigger Cell(i, width, col)} :: i < rows ==> Cell(i, width, col) < rows * width
  {
    forall i: nat | i < rows ensures Cell(i, width, col) < rows * width { InBounds(i, rows, width, col); }
  }

  function Exps(exp: Exp, c: seq<real>): (e: seq<real>)
    ensures |e| == |c| && AllPositive(e) && forall i :: 0 <= i < |c| ==> e[i] == exp(c[i])
  {
    seq(|c|, i requires 0 <= i < |c| => exp(c[i]))
  }

  method ExpRow(exp: Exp, alignments: array<real>, sums: array<real>, base: nat, batch: nat)
    requires base + batch <= alignments.Length && batch <= sums.Length && alignments != sums
    modifies alignments, sums
    ensures forall x :: base <= x < base + batch ==> alignments[x] == exp(old(alignments[x]))
    ensures forall x :: 0 <= x < alignments.Length && !(base <= x < base + batch) ==> alignments[x] == old(alignments[x])
    ensures forall j :: 0 <= j < batch ==> sums[j] == old(sums[j]) + exp(old(alignments[base + j]))
  {
    for j := 0 to batch
      invariant forall x :: base <= x < base + j ==> alignments[x] == exp(old(alignments[x]))
      invariant forall x :: 0 <= x < alignments.Length && !(base <= x < base + j) ==> alignments[x] == old(alignments[x])
      invariant forall k :: 0 <= k < j ==> sums[k] == old(sums[k]) + exp(old(alignments[base + k]))
      invariant forall k :: j <= k < sums.Length ==> sums[k] == old(sums[k])
    {
      alignments[base + j] := exp(alignments[base + j]);
      sums[j] := sums[j] + alignments[base + j];
    }
  }

  method DivideRow(alignments: array<real>, sums: array<real>, base: nat, batch: nat)
    requires base + batch <= alignments.Length && batch <= sums.Length && alignments != sums
    requires forall j :: 0 <= j < batch ==> sums[j] > 0.0
    modifies alignments
    ensures forall j :: 0 <= j < batch ==> alignments[base + j] == old(alignments[base + j]) / sums[j]
    ensures forall x :: 0 <= x < alignments.Length && !(base <= x < base + batch) ==> alignments[x] == old(alignments[x])
  {
    for j := 0 to batch
      invariant forall k :: 0 <= k < j ==> alignments[base + k] == old(alignments[base + k]) / sums[k]
      invariant forall x :: 0 <= x < alignments.Length && !(base <= x < base + j) ==> alignments[x] == old(alignments[x])
    {
      alignments[base + j] := alignments[base + j] / sums[j];
    }
  }

  lemma SumIs(x: real)
    ensures Sum([]) == 0.0 && Sum([x]) == x
  {
    assert [x][..0] == [];
  }

  lemma SumStep(c: seq<real>, i: nat)
    requires i < |c|
    ensures Sum(c[..i + 1]) == Sum(c[..i]) + c[i]
  {
    assert c[..i + 1][..i] == c[..i];
  }

  /** sums[j][i] is what column j adds up to before row i. */
  ghost predicate Running(sums: seq<seq<real>>, exp: Exp, scores: seq<real>, steps: nat, batch: nat) {
    && |scores| == steps * batch && |sums| == batch
    && forall j :: 0 <= j < batch ==>
        && |sums[j]| == steps + 1 && sums[j][0] == 0.0
        && sums[j][steps] == Sum(Exps(exp, Column(scores, steps, batch, j)))
  }

  ghost predicate RunsOn(sums: seq<seq<real>>, exp: Exp, scores: seq<real>, batch: nat, i: nat, base: nat) {
    && |sums| == batch && base + batch <= |scores|
    && forall j :: 0 <= j < batch ==> |sums[j]| > i + 1 && sums[j][i + 1] == sums[j][i] + exp(scores[base + j])
  }

  lemma RunningSums(exp: Exp, scores: seq<real>, steps: nat, batch: nat) returns (sums: seq<seq<real>>)
    requires |scores| == steps * batch
    ensures Running(sums, exp, scores, steps, batch)
    ensures forall i: nat :: i < steps ==> RunsOn(sums, exp, scores, batch, i, Cell(i, batch, 0))
  {
    var es := seq(batch, j requires 0 <= j < batch => Exps(exp, Column(scores, steps, batch, j)));
    sums := seq(batch, j requires 0 <= j < batch => seq(steps + 1, i requires 0 <= i <= steps => Sum(es[j][..i])));
    assert forall j :: 0 <= j < batch ==> es[j][..steps] == es[j];
    forall i: nat | i < steps ensures RunsOn(sums, exp, scores, batch, i, Cell(i, batch, 0)) {
      RowEnd(i, steps, batch);
      forall j | 0 <= j < batch ensures sums[j][i + 1] == sums[j][i] + exp(scores[Cell(i, batch, 0) + j]) {
        SumStep(es[j], i);
        assert Cell(i, batch, j) == Cell(i, batch, 0) + j;
      }
    }
  }

  /** Lines 119-129: exponentials and their sums. */
  method Exponentiate(exp: Exp, alignments: array<real>, sums: array<real>, steps: nat, batch: nat)
    requires alignments.Length == steps * batch && sums.Length == batch && alignments != sums
    modifies alignments, sums
    ensures forall x :: 0 <= x < alignments.Length ==> alignments[x] == exp(old(alignments[x]))
    ensures forall j :: 0 <= j < batch ==> sums[j] == Sum(Exps(exp, Column(old(alignments[..]), steps, batch, j)))
  {
    ghost var scores := alignments[..];
    ghost var running := RunningSums(exp, scores, steps, batch);
    for j := 0 to batch
      invariant alignments[..] == scores && forall k :: 0 <= k < j ==> sums[k] == 0.0
    {
      sums[j] := 0.0;
    }
    for i := 0 to steps
      invariant Cell(i, batch, 0) <= |scores| == alignments.Length
      invariant forall x :: 0 <= x < Cell(i, batch, 0) ==> alignments[x] == exp(scores[x])
      invariant forall x :: Cell(i, batch, 0) <= x < |scores| ==> alignments[x] == scores[x]
      invariant forall j :: 0 <= j < batch ==> sums[j] == running[j][i]
    {
      RowEnd(i, steps, batch);
      assert RunsOn(running, exp, scores, batch, i, Cell(i, batch, 0));
      ghost var base := Cell(i, batch, 0);
      ExpRow(exp, alignments, sums, i * batch, batch);
      assert Cell(i + 1, batch, 0) == base + batch;
    }
  }

  /** Lines 131-134. */
  method Normalize(alignments: array<real>, sums: array<real>, steps: nat, batch: nat)
    requires alignments.Length == steps * batch && sums.Length == batch && alignments != sums
    requires steps > 0 ==> forall j :: 0 <= j < batch ==> sums[j] > 0.0
    modifies alignments
    ensures forall i: nat, j: nat :: i < steps && j < batch ==>
      Cell(i, batch, j) < alignments.Length && alignments[Cell(i, batch, j)] == old(alignments[..])[Cell(i, batch, j)] / sums[j]
  {
    ghost var exps := alignments[..];
    for i := 0 to steps
      invariant Cell(i, batch, 0) <= |exps| == alignments.Length
      invariant forall x :: Cell(i, batch, 0) <= x < |exps| ==> alignments[x] == exps[x]
      invariant forall r: nat, j: nat :: r < i && j < batch ==>
        Cell(r, batch, j) < Cell(i, batch, 0) && alignments[Cell(r, batch, j)] == exps[Cell(r, batch, j)] / sums[j]
    {
      RowEnd(i, steps, batch);
      ghost var base := Cell(i, batch, 0);
      DivideRow(alignments, sums, i * batch, batch);
      assert Cell(i + 1, batch, 0) == base + batch;
      forall r: nat, j: nat | r < i + 1 && j < batch
        ensures Cell(r, batch, j) < Cell(i + 1, batch, 0) && alignments[Cell(r, batch, j)] == exps[Cell(r, batch, j)] / sums[j]
      {
        if r == i { assert Cell(r, batch, j) == base + j; }
      }
    }
  }

  /** The softmax: each batch item's column becomes the shares of its exponentials. */
  method Softmax(exp: Exp, alignments: array<real>, sums: array<real>, steps: nat, batch: nat)
    requires alignments.Length == steps * batch && sums.Length == batch && alignments != sums
    modifies alignments, sums
    ensures forall j :: 0 <= j < batch ==>
      Shares(Column(alignments[..], steps, batch, j), Exps(exp, Column(old(alignments[..]), steps, batch, j)))
    ensures forall i: nat, j: nat :: i < steps && j < batch ==>
      var total := Sum(Exps(exp, Column(old(alignments[..]), steps, batch, j)));
      && Cell(i, batch, j) < alignments.Length && total > 0.0
      && alignments[Cell(i, batch, j)] == exp(old(alignments[..])[Cell(i, batch, j)]) / total
  {
    Exponentiate(exp, alignments, sums, steps, batch);
    ghost var scores, exps := old(alignments[..]), alignments[..];
    forall j | 0 <= j < batch && steps > 0 ensures sums[j] > 0.0 {
      SumPositive(Exps(exp, Column(scores, steps, batch, j)));
    }
    Normalize(alignments, sums, steps, batch);
    forall j | 0 <= j < batch ensures Shares(Column(alignments[..], steps, batch, j), Exps(exp, Column(scores, steps, batch, j))) {
      ShareColumn(exp, scores, exps, alignments[..], steps, batch, j, sums[j]);
    }
  }

  lemma ShareColumn(exp: Exp, scores: seq<real>, exps: seq<real>, weights: seq<real>, steps: nat, batch: nat, j: nat, sum: real)
    requires |scores| == |exps| == |weights| == steps * batch && j < batch
    requires forall x :: 0 <= x < |exps| ==> exps[x] == exp(scores[x])
    requires sum == Sum(Exps(exp, Column(scores, steps, batch, j))) && (steps > 0 ==> sum > 0.0)
    requires forall i: nat :: i < steps ==> Cell(i, batch, j) < |weights| && weights[Cell(i, batch, j)] == exps[Cell(i, batch, j)] / sum
    ensures Shares(Column(weights, steps, batch, j), Exps(exp, Column(scores, steps, batch, j)))
  {
  }

  // ---- the context vectors ----

  /** What is annotated at feature j of a batch item, step by step. */
  function Track(annotations: seq<real>, steps: nat, batch: nat, features: nat, item: nat, j: nat): (a: seq<real>)
    requires |annotations| == (steps * batch) * features && item < batch && j < features
    ensures |a| == steps
    ensures forall k :: 0 <= k < steps ==>
      Cell(Cell(k, batch, item), features, j) < |annotations| && a[k] == annotations[Cell(Cell(k, batch, item), features, j)]
  {
    TrackInBounds(steps, batch, features, item, j);
    seq(steps, k requires 0 <= k < steps => annotations[Cell(Cell(k, batch, item), features, j)])
  }

  lemma TrackInBounds(steps: nat, batch: nat, features: nat, item: nat, j: nat)
    requires item < batch && j < features
    ensures forall k: nat {:trigger Cell(k, batch, item)} :: k < steps ==>
      Cell(Cell(k, batch, item), features, j) < (steps * batch) * features
  {
    forall k: nat | k < steps ensures Cell(Cell(k, batch, item), features, j) < (steps * batch) * features {
      InBounds(k, steps, batch, item);
      InBounds(Cell(k, batch, item), steps * batch, features, j);
    }
  }

  function Products(w: seq<real>, a: seq<real>): (m: seq<real>)
    requires |w| == |a|
    ensures |m| == |w| && forall i :: 0 <= i < |m| ==> m[i] == Times(w[i], a[i])
  {
    seq(|w|, i requires 0 <= i < |w| => Times(w[i], a[i]))
  }

  /** The annotations of feature j mixed with the weights of a batch item. */
  function Mixture(weights: seq<real>, annotations: seq<real>, steps: nat, batch: nat, features: nat, item: nat, j: nat): real
    requires |weights| == steps * batch && |annotations| == (steps * batch) * features && item < batch && j < features
  {
    Sum(Products(Column(weights, steps, batch, item), Track(annotations, steps, batch, features, item, j)))
  }

  /** Adding up to a mixture, for all features of a batch item: sums[j][k] is the sum before step k. */
  ghost predicate MixesOn(sums: seq<seq<real>>, weight: real, annotations: seq<real>, features: nat, k: nat, base: nat) {
    && |sums| == features && base + features <= |annotations|
    && forall j :: 0 <= j < features ==> |sums[j]| > k + 1 && sums[j][k + 1] == sums[j][k] + Times(weight, annotations[base + j])
  }

  ghost predicate Mixing(sums: seq<seq<real>>, weights: seq<real>, annotations: seq<real>, steps: nat, batch: nat, features: nat, item: nat)
    requires |weights| == steps * batch && |annotations| == (steps * batch) * features && item < batch
  {
    && |sums| == features
    && forall j :: 0 <= j < features ==>
        && |sums[j]| == steps + 1 && sums[j][0] == 0.0
        && sums[j][steps] == Mixture(weights, annotations, steps, batch, features, item, j)
  }

  lemma MixingSums(weights: seq<real>, annotations: seq<real>, steps: nat, batch: nat, features: nat, item: nat)
    returns (sums: seq<seq<real>>)
    requires |weights| == steps * batch && |annotations| == (steps * batch) * features && item < batch
    ensures Mixing(sums, weights, annotations, steps, batch, features, item)
    ensures forall k: nat :: k < steps ==>
      && Cell(k, batch, item) < |weights|
      && MixesOn(sums, weights[Cell(k, batch, item)], annotations, features, k, Cell(Cell(k, batch, item), features, 0))
  {
    ghost var w := Column(weights, steps, batch, item);
    ghost var ms := seq(features, j requires 0 <= j < features => Products(w, Track(annotations, steps, batch, features, item, j)));
    sums := seq(features, j requires 0 <= j < features => seq(steps + 1, k requires 0 <= k <= steps => Sum(ms[j][..k])));
    assert forall j :: 0 <= j < features ==> ms[j][..steps] == ms[j];
    forall k: nat | k < steps
      ensures Cell(k, batch, item) < |weights|
      ensures MixesOn(sums, weights[Cell(k, batch, item)], annotations, features, k, Cell(Cell(k, batch, item), features, 0))
    {
      InBounds(k, steps, batch, item);
      var row := Cell(k, batch, item);
      RowEnd(row, steps * batch, features);
      forall j | 0 <= j < features ensures sums[j][k + 1] == sums[j][k] + Times(weights[row], annotations[Cell(row, features, 0) + j]) {
        MixStep(weights, annotations, steps, batch, features, item, k, j);
      }
    }
  }

  lemma MixStep(weights: seq<real>, annotations: seq<real>, steps: nat, batch: nat, features: nat, item: nat, k: nat, j: nat)
    requires |weights| == steps * batch && |annotations| == (steps * batch) * features
    requires item < batch && k < steps && j < features
    ensures var row := Cell(k, batch, item);
      var m := Products(Column(weights, steps, batch, item), Track(annotations, steps, batch, features, item, j));
      && row < |weights| && Cell(row, features, 0) + j < |annotations|
      && Sum(m[..k + 1]) == Sum(m[..k]) + Times(weights[row], annotations[Cell(row, features, 0) + j])
  {
    InBounds(k, steps, batch, item);
    InBounds(Cell(k, batch, item), steps * batch, features, j);
    SumStep(Products(Column(weights, steps, batch, item), Track(annotations, steps, batch, features, item, j)), k);
    assert Cell(Cell(k, batch, item), features, j) == Cell(Cell(k, batch, item), features, 0) + j;
  }

  /** Where step k keeps the weight and the annotations of a batch item. */
  method Offsets(k: nat, batch: nat, item: nat, features: nat) returns (x: nat, row: nat)
    ensures x == Cell(k, batch, item) && row == Cell(Cell(k, batch, item), features, 0)
  {
    x, row := k * batch + item, features * (item + batch * k);
    assert (k * batch + item) * features == features * (item + batch * k);
  }

  method ClearRow(context: array<real>, base: nat, features: nat)
    requires base + features <= context.Length
    modifies context
    ensures forall x :: base <= x < base + features ==> context[x] == 0.0
    ensures forall x :: 0 <= x < context.Length && !(base <= x < base + features) ==> context[x] == old(context[x])
  {
    for j := 0 to features
      invariant forall x :: base <= x < base + j ==> context[x] == 0.0
      invariant forall x :: 0 <= x < context.Length && !(base <= x < base + j) ==> context[x] == old(context[x])
    {
      context[base + j] := 0.0;
    }
  }

  method AddRow(context: array<real>, base: nat, weight: real, annotations: seq<real>, row: nat, features: nat)
    requires base + features <= context.Length && row + features <= |annotations|
    modifies context
    ensures forall x :: base <= x < base + features ==> context[x] == old(context[x]) + Times(weight, annotations[x - base + row])
    ensures forall x :: 0 <= x < context.Length && !(base <= x < base + features) ==> context[x] == old(context[x])
  {
    for j := 0 to features
      invariant forall x :: base <= x < base + j ==> context[x] == old(context[x]) + Times(weight, annotations[x - base + row])
      invariant forall x :: 0 <= x < context.Length && !(base <= x < base + j) ==> context[x] == old(context[x])
    {
      context[base + j] := context[base + j] + Times(weight, annotations[row + j]);
    }
  }

  /** The two inner loops of lines 145-151, for one batch item. */
  method MixItem(context: array<real>, weights: array<real>, annotations: seq<real>, steps: nat, batch: nat, features: nat, item: nat, base: nat)
    requires weights.Length == steps * batch && |annotations| == (steps * batch) * features && item < batch
    requires base + features <= context.Length && context != weights
    requires forall x :: base <= x < base + features ==> context[x] == 0.0
    modifies context
    ensures forall j :: 0 <= j < features ==> context[base + j] == Mixture(weights[..], annotations, steps, batch, features, item, j)
    ensures forall x :: 0 <= x < context.Length && !(base <= x < base + features) ==> context[x] == old(context[x])
  {
    ghost var w := weights[..];
    ghost var sums := MixingSums(w, annotations, steps, batch, features, item);
    for k := 0 to steps
      invariant weights[..] == w
      invariant forall j :: 0 <= j < features ==> context[base + j] == sums[j][k]
      invariant forall x :: 0 <= x < context.Length && !(base <= x < base + features) ==> context[x] == old(context[x])
    {
      var x, row := Offsets(k, batch, item, features);
      assert MixesOn(sums, w[x], annotations, features, k, row);
      AddRow(context, base, weights[x], annotations, row, features);
    }
  }

  /** The hidden halves of the first rows, and all that comes after those rows, are as they were. */
  ghost predicate HiddenKept(now: seq<real>, was: seq<real>, rows: nat, features: nat) {
    && |now| == |was|
    && (forall r: nat, c: nat :: r < rows && c < features && Hidden(r, features, c) < |was| ==>
          now[Hidden(r, features, c)] == was[Hidden(r, features, c)])
    && forall x :: Start(rows, features) <= x < |was| ==> now[x] == was[x]
  }

  ghost predicate Cleared(now: seq<real>, rows: nat, features: nat) {
    forall r: nat, j: nat :: r < rows && j < features && Context(r, features, j) < |now| ==> now[Context(r, features, j)] == 0.0
  }

  ghost predicate Mixed(now: seq<real>, weights: seq<real>, annotations: seq<real>, steps: nat, batch: nat, features: nat, rows: nat)
    requires |weights| == steps * batch && |annotations| == (steps * batch) * features && rows <= batch
  {
    forall r: nat, j: nat :: r < rows && j < features && Context(r, features, j) < |now| ==>
      now[Context(r, features, j)] == Mixture(weights, annotations, steps, batch, features, r, j)
  }

  /** Only the context half of row r was written. */
  ghost predicate OnlyRow(now: seq<real>, was: seq<real>, r: nat, features: nat) {
    && |now| == |was| && Start(r + 1, features) <= |was|
    && forall x :: 0 <= x < |was| && !(Context(r, features, 0) <= x < Start(r + 1, features)) ==> now[x] == was[x]
  }

  /** That leaves the earlier rows and its own hidden half alone. */
  lemma OtherRows(now: seq<real>, was: seq<real>, r: nat, features: nat)
    requires OnlyRow(now, was, r, features)
    ensures forall k: nat, c: nat :: k < r && c < features ==>
      Context(k, features, c) < |was| && now[Context(k, features, c)] == was[Context(k, features, c)]
    ensures forall k: nat, c: nat :: k <= r && c < features ==>
      Hidden(k, features, c) < |was| && now[Hidden(k, features, c)] == was[Hidden(k, features, c)]
  {
    Next(r, features);
    forall k: nat | k < r ensures Start(k, features) + features + features <= Start(r, features) {
      Ordered(k, r, features);
    }
  }

  lemma KeptOneMore(now: seq<real>, was: seq<real>, start: seq<real>, r: nat, features: nat)
    requires OnlyRow(now, was, r, features) && HiddenKept(was, start, r, features)
    ensures HiddenKept(now, start, r + 1, features)
  {
    OtherRows(now, was, r, features);
    Next(r, features);
  }

  /** Lines 137-142. */
  method ClearContext(context: array<real>, batch: nat, features: nat)
    requires Start(batch, features) <= context.Length
    modifies context
    ensures Cleared(context[..], batch, features) && HiddenKept(context[..], old(context[..]), batch, features)
  {
    ghost var before := context[..];
    for i := 0 to batch
      invariant Cleared(context[..], i, features) && HiddenKept(context[..], before, i, features)
    {
      Next(i, features);
      Ordered(i, batch, features);
      ghost var was := context[..];
      ClearRow(context, i * (features + features) + features, features);
      OtherRows(context[..], was, i, features);
      KeptOneMore(context[..], was, before, i, features);
    }
  }

  /** Lines 144-151. */
  method MixContext(context: array<real>, weights: array<real>, annotations: seq<real>, steps: nat, batch: nat, features: nat)
    requires weights.Length == steps * batch && |annotations| == (steps * batch) * features
    requires Start(batch, features) <= context.Length && context != weights
    requires Cleared(context[..], batch, features)
    modifies context
    ensures Mixed(context[..], weights[..], annotations, steps, batch, features, batch)
    ensures HiddenKept(context[..], old(context[..]), batch, features)
  {
    ghost var before, w := context[..], weights[..];
    for i := 0 to batch
      invariant weights[..] == w && Mixed(context[..], w, annotations, steps, batch, features, i)
      invariant HiddenKept(context[..], before, i, features)
    {
      Next(i, features);
      Ordered(i, batch, features);
      ghost var was := context[..];
      RowIsClear(was, before, i, batch, features);
      MixItem(context, weights, annotations, steps, batch, features, i, i * (features + features) + features);
      OtherRows(context[..], was, i, features);
      KeptOneMore(context[..], was, before, i, features);
    }
  }

  lemma RowIsClear(was: seq<real>, before: seq<real>, i: nat, batch: nat, features: nat)
    requires i < batch && Start(batch, features) <= |before| && Cleared(before, batch, features) && HiddenKept(was, before, i, features)
    ensures Context(i, features, 0) + features <= |was|
    ensures forall x :: Context(i, features, 0) <= x < Context(i, features, 0) + features ==> was[x] == 0.0
  {
    Ordered(i, batch, features);
    forall x | Context(i, features, 0) <= x < Context(i, features, 0) + features ensures was[x] == 0.0 {
      assert x == Context(i, features, x - Context(i, features, 0));
    }
  }

  /** v lies between the least and the greatest element of a. */
  ghost predicate Within(v: real, a: seq<real>) {
    && (exists p :: 0 <= p < |a| && a[p] <= v)
    && exists q :: 0 <= q < |a| && v <= a[q]
  }

  lemma {:induction false} Extremes(a: seq<real>) returns (p: nat, q: nat)
    requires |a| > 0
    ensures p < |a| && q < |a| && forall i :: 0 <= i < |a| ==> a[p] <= a[i] <= a[q]
  {
    p, q := 0, 0;
    for n := 1 to |a|
      invariant p < |a| && q < |a| && forall i :: 0 <= i < n ==> a[p] <= a[i] <= a[q]
    {
      if a[n] < a[p] { p := n; }
      if a[n] > a[q] { q := n; }
    }
  }

  /** Weights that are shares keep every mixture within what it mixes. */
  lemma MixtureWithin(e: seq<real>, w: seq<real>, a: seq<real>)
    requires |e| == |w| == |a| > 0 && AllPositive(e) && Shares(w, e)
    ensures Within(Sum(Products(w, a)), a)
  {
    SharesSumToOne(w, e);
    var p, q := Extremes(a);
    MixBetween(Products(w, a), w, a, a[p], a[q]);
  }

  lemma RowsFit(batch: nat, features: nat)
    ensures forall i: nat, j: nat :: i < batch && j < features ==> Context(i, features, j) < Start(batch, features)
    ensures forall i: nat, j: nat :: i < batch && j < features ==> Hidden(i, features, j) < Start(batch, features)
  {
    forall i: nat, j: nat | i < batch && j < features
      ensures Context(i, features, j) < Start(batch, features) && Hidden(i, features, j) < Start(batch, features)
    {
      Ordered(i, batch, features);
    }
  }

  /**
   compute_attention from line 118 on.  Every batch item's weights are its softmax, every context
   entry is the annotations mixed with them, and lies within those annotations.
   */
  method Attend(exp: Exp, context: array<real>, alignments: array<real>, sums: array<real>, annotations: seq<real>,
                steps: nat, batch: nat, features: nat)
    requires alignments.Length == steps * batch && |annotations| == (steps * batch) * features
    requires sums.Length == batch && Start(batch, features) <= context.Length
    requires alignments != sums && context != alignments && context != sums
    modifies context, alignments, sums
    ensures forall i :: 0 <= i < batch ==>
      Shares(Column(alignments[..], steps, batch, i), Exps(exp, Column(old(alignments[..]), steps, batch, i)))
    ensures steps > 0 ==> forall i :: 0 <= i < batch ==> Sum(Column(alignments[..], steps, batch, i)) == 1.0
    ensures forall i: nat, j: nat :: i < steps && j < batch ==>
      var total := Sum(Exps(exp, Column(old(alignments[..]), steps, batch, j)));
      && Cell(i, batch, j) < alignments.Length && total > 0.0
      && alignments[Cell(i, batch, j)] == exp(old(alignments[..])[Cell(i, batch, j)]) / total
    ensures Mixed(context[..], alignments[..], annotations, steps, batch, features, batch)
    ensures forall i: nat, j: nat :: i < batch && j < features ==>
      && Context(i, features, j) < context.Length
      && context[Context(i, features, j)] == Mixture(alignments[..], annotations, steps, batch, features, i, j)
    ensures forall i: nat, j: nat :: i < batch && j < features ==>
      && Hidden(i, features, j) < context.Length && context[Hidden(i, features, j)] == old(context[..])[Hidden(i, features, j)]
    ensures steps > 0 ==> forall i: nat, j: nat :: i < batch && j < features ==>
      Context(i, features, j) < context.Length
      && Within(context[Context(i, features, j)], Track(annotations, steps, batch, features, i, j))
    ensures HiddenKept(context[..], old(context[..]), batch, features)
  {
    ghost var scores := alignments[..];
    Softmax(exp, alignments, sums, steps, batch);
    ghost var w := alignments[..];
    ClearContext(context, batch, features);
    MixContext(context, alignments, annotations, steps, batch, features);
    RowsFit(batch, features);
    if steps > 0 {
      forall i | 0 <= i < batch ensures Sum(Column(w, steps, batch, i)) == 1.0 {
        SharesSumToOne(Column(w, steps, batch, i), Exps(exp, Column(scores, steps, batch, i)));
      }
      forall i: nat, j: nat | i < batch && j < features
        ensures Context(i, features, j) < context.Length
          && Within(context[Context(i, features, j)], Track(annotations, steps, batch, features, i, j))
      {
        MixtureWithin(Exps(exp, Column(scores, steps, batch, i)), Column(w, steps, batch, i), Track(annotations, steps, batch, features, i, j));
      }
    }
  }
}
