/**
 The reference the iterators of dev/thr.cpp are measured against: the plain loop nest
 `for(lo0..hi0) for(lo1..hi1) ...` as the list of coordinate vectors its body sees.
 */
module NestedLoops {
  import opened MixedRadix

  datatype Range = Range(lo: nat, hi: nat) {
    /** A loop from lo to hi makes this many turns (none when hi <= lo). */
    function Span(): nat { if lo <= hi then hi - lo else 0 }
  }

  function Spans(r: seq<Range>): (s: seq<nat>)
    ensures |s| == |r|
  {
    seq(|r|, d requires 0 <= d < |r| => r[d].Span())
  }

  /** Runs the loop nest: the first range is the outermost loop. */
  ghost function Nest(r: seq<Range>): seq<seq<nat>>
    decreases |r|, 1, 0
  {
    if |r| == 0 then [[]] else NestFrom(r[0].lo, r)
  }

  /** The turns x, x+1, ... of the outermost loop. */
  ghost function NestFrom(x: nat, r: seq<Range>): seq<seq<nat>>
    requires |r| > 0
    decreases |r|, 0, if x < r[0].hi then r[0].hi - x else 0
  {
    if x >= r[0].hi then [] else Under(x, Nest(r[1..])) + NestFrom(x + 1, r)
  }

  ghost function Under(x: nat, body: seq<seq<nat>>): seq<seq<nat>> {
    seq(|body|, i requires 0 <= i < |body| => [x] + body[i])
  }

  /** The coordinates the div/mod chain gives to linear position p. */
  function At(r: seq<Range>, p: nat): (c: seq<nat>)
    requires Positive(Spans(r))
    ensures |c| == |r|
  {
    Shifted(r, Digits(Spans(r), p))
  }

  function Shifted(r: seq<Range>, g: seq<nat>): (c: seq<nat>)
    requires |g| == |r|
    ensures |c| == |r|
  {
    seq(|r|, d requires 0 <= d < |r| => r[d].lo + g[d])
  }

  lemma ShiftedFront(r: seq<Range>, g: seq<nat>)
    requires |g| == |r| > 0
    ensures Shifted(r, g) == [r[0].lo + g[0]] + Shifted(r[1..], g[1..])
  {
  }

  lemma {:induction false} NestFromIsTail(x: nat, r: seq<Range>)
    requires |r| > 0
    ensures var n := |Nest(r[1..])|; var turns := if x < r[0].hi then r[0].hi - x else 0;
      |NestFrom(x, r)| == turns * n
    decreases if x < r[0].hi then r[0].hi - x else 0
  {
    if x < r[0].hi {
      NestFromIsTail(x + 1, r);
      var n, t := |Nest(r[1..])|, r[0].hi - x;
      assert n + (t - 1) * n == t * n;
    }
  }

  /** A loop nest runs its body once for every cell of the box. */
  lemma {:induction false} NestLength(r: seq<Range>)
    ensures |Nest(r)| == Product(Spans(r))
  {
    if |r| > 0 {
      NestLength(r[1..]);
      NestFromIsTail(r[0].lo, r);
      ProductFront(Spans(r));
      assert Spans(r)[1..] == Spans(r[1..]);
    }
  }

  /** Turn j of the outer loop occupies positions j*n .. (j+1)*n of the list. */
  lemma {:induction false} NestFromAt(x: nat, r: seq<Range>, j: nat, k: nat)
    requires |r| > 0 && x + j < r[0].hi && k < |Nest(r[1..])|
    ensures 0 <= j * |Nest(r[1..])| + k < |NestFrom(x, r)|
    ensures NestFrom(x, r)[j * |Nest(r[1..])| + k] == [x + j] + Nest(r[1..])[k]
    decreases j
  {
    var n := |Nest(r[1..])|;
    if j > 0 {
      NestFromAt(x + 1, r, j - 1, k);
      assert j * n + k == n + ((j - 1) * n + k);
    }
  }

  lemma NestAt(r: seq<Range>, p: nat, j: nat, k: nat)
    requires |r| > 0 && j < r[0].Span() && k < |Nest(r[1..])| && p == j * |Nest(r[1..])| + k
    ensures p < |Nest(r)| && Nest(r)[p] == [r[0].lo + j] + Nest(r[1..])[k]
  {
    NestFromAt(r[0].lo, r, j, k);
  }

  /** Decoding splits like the loop: outer turn p / n, inner position p % n. */
  lemma AtFront(r: seq<Range>, p: nat) returns (j: nat, k: nat)
    requires |r| > 0 && Positive(Spans(r)) && p < Product(Spans(r))
    ensures Positive(Spans(r[1..]))
    ensures j < r[0].Span() && k < Product(Spans(r[1..])) && p == j * Product(Spans(r[1..])) + k
    ensures At(r, p) == [r[0].lo + j] + At(r[1..], k)
  {
    assert Spans(r)[1..] == Spans(r[1..]);
    j, k := DigitsSplit(Spans(r), p);
    var g := Digits(Spans(r), p);
    assert g[1..] == Digits(Spans(r[1..]), k);
    ShiftedFront(r, g);
  }

  /**
   The div/mod chain and the loop nest agree at every position: the p-th body execution of
   the nest sees exactly the coordinates decoded from p.
   */
  lemma {:induction false} NestIsDecode(r: seq<Range>, p: nat)
    requires p < |Nest(r)|
    ensures Positive(Spans(r)) && Nest(r)[p] == At(r, p)
  {
    NestLength(r);
    ProductPositive(Spans(r));
    if |r| > 0 {
      var j, k := AtFront(r, p);
      NestLength(r[1..]);
      NestAt(r, p, j, k);
      NestIsDecode(r[1..], k);
    }
  }

  ghost predicate FirstDifference(a: seq<nat>, b: seq<nat>, d: nat) {
    d < |a| == |b| && a[d] < b[d] && forall e :: 0 <= e < d ==> a[e] == b[e]
  }

  ghost predicate LexLess(a: seq<nat>, b: seq<nat>) {
    exists d :: FirstDifference(a, b, d)
  }

  /** Body execution p is inner execution k of outer turn j. */
  lemma NestSplit(r: seq<Range>, p: nat) returns (j: nat, k: nat)
    requires |r| > 0 && p < |Nest(r)|
    ensures j < r[0].Span() && k < |Nest(r[1..])| && p == j * |Nest(r[1..])| + k
    ensures |Nest(r)| == r[0].Span() * |Nest(r[1..])|
    ensures Nest(r)[p] == [r[0].lo + j] + Nest(r[1..])[k]
  {
    NestLength(r);
    NestLength(r[1..]);
    ProductPositive(Spans(r));
    ProductFront(Spans(r));
    assert Spans(r)[1..] == Spans(r[1..]);
    j, k := AtFront(r, p);
    NestAt(r, p, j, k);
  }

  lemma TurnOrder(j: nat, k: nat, j': nat, k': nat, m: nat)
    requires k < m && k' < m && j * m + k < j' * m + k'
    ensures j < j' || (j == j' && k < k')
  {
    if j > j' {
      MulMonotone(j' + 1, j, m);
    }
  }

  lemma {:induction false} NestDifference(r: seq<Range>, p: nat, q: nat) returns (d: nat)
    requires p < q < |Nest(r)|
    ensures FirstDifference(Nest(r)[p], Nest(r)[q], d)
  {
    assert |r| > 0;
    NestIsDecode(r, p);
    NestIsDecode(r, q);
    var j, k := NestSplit(r, p);
    var j', k' := NestSplit(r, q);
    TurnOrder(j, k, j', k', |Nest(r[1..])|);
    if j < j' {
      d := 0;
    } else {
      var e := NestDifference(r[1..], k, k');
      d := e + 1;
    }
  }

  /** The nest visits coordinates in strictly increasing lexicographic order, hence never twice. */
  lemma NestIsOrdered(r: seq<Range>, p: nat, q: nat)
    requires p < q < |Nest(r)|
    ensures LexLess(Nest(r)[p], Nest(r)[q]) && Nest(r)[p] != Nest(r)[q]
  {
    var d := NestDifference(r, p, q);
  }
}
