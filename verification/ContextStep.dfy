/** What a decoder iteration does before it runs its cell: attention for the first layer, then the copy to all others. */
module ContextStep {

  import Grid
  import MixedRadix
  import opened States
  import opened CopyContext
  import Attention

  lemma FirstLayerFits(sh: Shape)
    requires sh.layers >= 1
    ensures Start(sh.batch, sh.features) <= Cells(sh)
  {
    Grid.RowEnd(0, sh.layers, sh.batch);
    if sh.batch < Rows(sh) { Ordered(sh.batch, Rows(sh), sh.features); }
  }

  /** Row r of any layer keeps its hidden half through both steps. */
  lemma HiddenThroughBoth(sh: Shape, now: seq<real>, mid: seq<real>, was: seq<real>, r: nat, c: nat)
    requires |was| == |mid| == Cells(sh) && Attention.HiddenKept(mid, was, sh.batch, sh.features) && Copied(sh, now, mid)
    requires r < Rows(sh) && c < sh.features
    ensures Hidden(r, sh.features, c) < |was| && now[Hidden(r, sh.features, c)] == was[Hidden(r, sh.features, c)]
  {
    HiddenInBounds(sh, r, c);
    if r > sh.batch { Ordered(sh.batch, r, sh.features); }
  }

  /** What the attention computes from: the exponential, the annotations and how many steps there are. */
  datatype Annotated = Annotated(exp: Attention.Exp, annotations: seq<real>, steps: nat)

  ghost predicate Fits(a: Annotated, sh: Shape) {
    sh.layers >= 1 && |a.annotations| == (a.steps * sh.batch) * sh.features
  }

  /** Feature c of a batch item's context: its annotations mixed with the softmax of its scores. */
  ghost function ContextOf(a: Annotated, sh: Shape, scores: seq<real>, item: nat, c: nat): real
    requires Fits(a, sh) && |scores| == a.steps * sh.batch && item < sh.batch && c < sh.features
  {
    var e := Attention.Exps(a.exp, Attention.Column(scores, a.steps, sh.batch, item));
    if |e| > 0 then Attention.SumPositive(e); MixOf(a, sh, e, item, c) else MixOf(a, sh, e, item, c)
  }

  ghost function MixOf(a: Annotated, sh: Shape, e: seq<real>, item: nat, c: nat): real
    requires Fits(a, sh) && |e| == a.steps && item < sh.batch && c < sh.features && (|e| > 0 ==> Attention.Sum(e) > 0.0)
  {
    Attention.Sum(Attention.Products(Attention.SharesOf(e), Attention.Track(a.annotations, a.steps, sh.batch, sh.features, item, c)))
  }

  /** A cell lies in the hidden half of its row, or there are no rows. */
  predicate IsHidden(sh: Shape, x: nat) {
    sh.features == 0 || sh.batch == 0 || x % (sh.features + sh.features) < sh.features
  }

  ghost function PreparedCell(a: Annotated, sh: Shape, was: seq<real>, scores: seq<real>, x: nat): real
    requires Fits(a, sh) && |scores| == a.steps * sh.batch && x < |was|
  {
    if IsHidden(sh, x) then was[x]
    else
      var width := sh.features + sh.features;
      ContextOf(a, sh, scores, (x / width) % sh.batch, x % width - sh.features)
  }

  /** The states with every layer's context half replaced. */
  ghost function Prepared(a: Annotated, sh: Shape, was: seq<real>, scores: seq<real>): (now: seq<real>)
    requires Fits(a, sh) && |scores| == a.steps * sh.batch
    ensures |now| == |was| && forall x :: 0 <= x < |was| ==> now[x] == PreparedCell(a, sh, was, scores, x)
  {
    seq(|was|, x requires 0 <= x < |was| => PreparedCell(a, sh, was, scores, x))
  }

  lemma HiddenPlace(sh: Shape, r: nat, c: nat)
    requires c < sh.features
    ensures IsHidden(sh, Hidden(r, sh.features, c))
  {
    MixedRadix.UniqueDivMod(Hidden(r, sh.features, c), r, sh.features + sh.features, c);
  }

  lemma ContextPlace(sh: Shape, k: nat, j: nat, c: nat)
    requires j < sh.batch && c < sh.features
    ensures var x, width := Context(Row(sh, k, j), sh.features, c), sh.features + sh.features;
      !IsHidden(sh, x) && (x / width) % sh.batch == j && x % width == sh.features + c
  {
    var r := Row(sh, k, j);
    MixedRadix.UniqueDivMod(Context(r, sh.features, c), r, sh.features + sh.features, sh.features + c);
    MixedRadix.UniqueDivMod(r, k, sh.batch, j);
  }

  /** Every layer sees the same mixture for a batch item. */
  ghost predicate ContextEverywhere(a: Annotated, sh: Shape, now: seq<real>, scores: seq<real>)
    requires Fits(a, sh) && |scores| == a.steps * sh.batch
  {
    forall k: nat, j: nat, c: nat :: k < sh.layers && j < sh.batch && c < sh.features ==>
      && Context(Row(sh, k, j), sh.features, c) < |now|
      && now[Context(Row(sh, k, j), sh.features, c)] == ContextOf(a, sh, scores, j, c)
  }

  ghost predicate HiddenEverywhere(sh: Shape, now: seq<real>, was: seq<real>) {
    |now| == |was| && forall r: nat, c: nat :: r < Rows(sh) && c < sh.features ==>
      Hidden(r, sh.features, c) < |was| && now[Hidden(r, sh.features, c)] == was[Hidden(r, sh.features, c)]
  }

  /** Contexts and hidden halves are all there is. */
  lemma PreparedIs(a: Annotated, sh: Shape, now: seq<real>, was: seq<real>, scores: seq<real>)
    requires Fits(a, sh) && |scores| == a.steps * sh.batch && |was| == Cells(sh)
    requires ContextEverywhere(a, sh, now, scores) && HiddenEverywhere(sh, now, was)
    ensures now == Prepared(a, sh, was, scores)
  {
    forall x | 0 <= x < |was| ensures now[x] == PreparedCell(a, sh, was, scores, x) {
      var r, c := Cover(Rows(sh), sh.features, x);
      if x == Hidden(r, sh.features, c) {
        HiddenPlace(sh, r, c);
      } else {
        var k, j := Grid.Cover(sh.layers, sh.batch, r);
        assert r == Row(sh, k, j);
        ContextPlace(sh, k, j, c);
      }
    }
  }

  /** And they have both. */
  lemma PreparedHas(a: Annotated, sh: Shape, was: seq<real>, scores: seq<real>)
    requires Fits(a, sh) && |scores| == a.steps * sh.batch && |was| == Cells(sh)
    ensures ContextEverywhere(a, sh, Prepared(a, sh, was, scores), scores)
    ensures HiddenEverywhere(sh, Prepared(a, sh, was, scores), was)
  {
    var now := Prepared(a, sh, was, scores);
    forall k: nat, j: nat, c: nat | k < sh.layers && j < sh.batch && c < sh.features
      ensures Context(Row(sh, k, j), sh.features, c) < |now|
      ensures now[Context(Row(sh, k, j), sh.features, c)] == ContextOf(a, sh, scores, j, c)
    {
      RowInBounds(sh, k, j, c);
      ContextPlace(sh, k, j, c);
    }
    forall r: nat, c: nat | r < Rows(sh) && c < sh.features
      ensures Hidden(r, sh.features, c) < |was| && now[Hidden(r, sh.features, c)] == was[Hidden(r, sh.features, c)]
    {
      HiddenInBounds(sh, r, c);
      HiddenPlace(sh, r, c);
    }
  }

  /** The mixtures with the softmax weights are the contexts. */
  lemma MixturesAreContexts(a: Annotated, sh: Shape, scores: seq<real>, weights: seq<real>, j: nat, c: nat)
    requires Fits(a, sh) && |scores| == |weights| == a.steps * sh.batch && j < sh.batch && c < sh.features
    requires Attention.Shares(Attention.Column(weights, a.steps, sh.batch, j),
                              Attention.Exps(a.exp, Attention.Column(scores, a.steps, sh.batch, j)))
    ensures Attention.Mixture(weights, a.annotations, a.steps, sh.batch, sh.features, j, c) == ContextOf(a, sh, scores, j, c)
  {
    var e := Attention.Exps(a.exp, Attention.Column(scores, a.steps, sh.batch, j));
    assert Attention.Column(weights, a.steps, sh.batch, j) == Attention.SharesOf(e);
  }

  /**
   After both steps the context half of every layer is the mixture, and no hidden half has changed;
   which says what every cell of the states is.
   */
  method PrepareStates(a: Annotated, srcIter: array<real>, alignments: array<real>, sums: array<real>, sh: Shape)
    requires Fits(a, sh) && srcIter.Length == Cells(sh)
    requires alignments.Length == a.steps * sh.batch && sums.Length == sh.batch
    requires alignments != sums && srcIter != alignments && srcIter != sums
    modifies srcIter, alignments, sums
    ensures ContextEverywhere(a, sh, srcIter[..], old(alignments[..]))
    ensures HiddenEverywhere(sh, srcIter[..], old(srcIter[..]))
    ensures srcIter[..] == Prepared(a, sh, old(srcIter[..]), old(alignments[..]))
  {
    ghost var was, scores := srcIter[..], alignments[..];
    FirstLayerFits(sh);
    Attention.Attend(a.exp, srcIter, alignments, sums, a.annotations, a.steps, sh.batch, sh.features);
    ghost var mid, weights := srcIter[..], alignments[..];
    CopyContext.CopyContext(srcIter, sh.layers, sh.batch, sh.features);
    assert sh == Shape(sh.layers, sh.batch, sh.features);
    BothSteps(a, sh, srcIter[..], mid, was, scores, weights);
    PreparedIs(a, sh, srcIter[..], was, scores);
  }

  lemma BothSteps(a: Annotated, sh: Shape, now: seq<real>, mid: seq<real>, was: seq<real>, scores: seq<real>, weights: seq<real>)
    requires Fits(a, sh) && |scores| == |weights| == a.steps * sh.batch && |was| == |mid| == Cells(sh)
    requires forall i :: 0 <= i < sh.batch ==>
      Attention.Shares(Attention.Column(weights, a.steps, sh.batch, i),
                       Attention.Exps(a.exp, Attention.Column(scores, a.steps, sh.batch, i)))
    requires Attention.Mixed(mid, weights, a.annotations, a.steps, sh.batch, sh.features, sh.batch)
    requires Attention.HiddenKept(mid, was, sh.batch, sh.features) && Copied(sh, now, mid)
    ensures ContextEverywhere(a, sh, now, scores) && HiddenEverywhere(sh, now, was)
  {
    forall k: nat, j: nat, c: nat | k < sh.layers && j < sh.batch && c < sh.features
      ensures Context(Row(sh, k, j), sh.features, c) < |now|
      ensures now[Context(Row(sh, k, j), sh.features, c)] == ContextOf(a, sh, scores, j, c)
    {
      RowInBounds(sh, k, j, c);
      MixturesAreContexts(a, sh, scores, weights, j, c);
    }
    forall r: nat, c: nat | r < Rows(sh) && c < sh.features
      ensures Hidden(r, sh.features, c) < |was| && now[Hidden(r, sh.features, c)] == was[Hidden(r, sh.features, c)]
    {
      HiddenThroughBoth(sh, now, mid, was, r, c);
    }
  }
}
