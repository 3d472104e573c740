/**
 Odometers: counters that step through a loop nest by increment and carry instead of by
 division.  my_nd_iterator_step of dev/thr.cpp is one; the iter_init fills are two more.
 */
module Odometer {
  import opened MixedRadix
  import opened NestedLoops

  ghost predicate Nonempty(r: seq<Range>) {
    forall d :: 0 <= d < |r| ==> r[d].lo < r[d].hi
  }

  /** One turn: the innermost counter moves, a counter that reaches its limit restarts and carries. */
  function Advance(r: seq<Range>, c: seq<nat>): (next: (seq<nat>, bool))
    requires |c| == |r|
    ensures |next.0| == |r|
  {
    if |r| == 0 then ([], true)
    else
      var (inner, carried) := Advance(r[1..], c[1..]);
      if !carried then ([c[0]] + inner, false)
      else if c[0] + 1 >= r[0].hi then ([r[0].lo] + inner, true)
      else ([c[0] + 1] + inner, false)
  }

  function Start(r: seq<Range>): (c: seq<nat>)
    ensures |c| == |r|
  {
    seq(|r|, d requires 0 <= d < |r| => r[d].lo)
  }

  /** The counters after i turns from the start. */
  function Turns(r: seq<Range>, i: nat): (c: seq<nat>)
    ensures |c| == |r|
  {
    if i == 0 then Start(r) else Advance(r, Turns(r, i - 1)).0
  }

  lemma NonemptyNest(r: seq<Range>)
    requires Nonempty(r)
    ensures Positive(Spans(r)) && |Nest(r)| > 0
  {
    NestLength(r);
    ProductPositive(Spans(r));
  }

  /** Counter sums: cell j*m + k of the nest has its successor at j*m + (k+1), or starts turn j+1. */
  lemma Successor(j: nat, k: nat, a: nat, m: nat)
    requires j < a && k < m
    ensures j * m + k < a * m
    ensures k + 1 < m ==> j * m + (k + 1) == j * m + k + 1 < a * m
    ensures k + 1 == m ==> (j + 1) * m == j * m + k + 1
    ensures k + 1 == m && j + 1 < a ==> (j + 1) * m < a * m
    ensures k + 1 == m && j + 1 == a ==> j * m + k + 1 == a * m
  {
    MulMonotone(j + 1, a, m);
    if j + 1 < a {
      MulMonotone(j + 2, a, m);
    }
  }

  lemma NextExecution(r: seq<Range>, p: nat, j: nat, k: nat)
    requires |r| > 0 && j < r[0].Span() && k < |Nest(r[1..])| && p == j * |Nest(r[1..])| + k
    requires |Nest(r)| == r[0].Span() * |Nest(r[1..])|
    ensures k + 1 < |Nest(r[1..])| ==>
      p + 1 < |Nest(r)| && Nest(r)[p + 1] == [r[0].lo + j] + Nest(r[1..])[k + 1]
    ensures k + 1 == |Nest(r[1..])| && j + 1 < r[0].Span() ==>
      p + 1 < |Nest(r)| && Nest(r)[p + 1] == [r[0].lo + j + 1] + Nest(r[1..])[0]
    ensures k + 1 == |Nest(r[1..])| && j + 1 == r[0].Span() ==>
      p + 1 == |Nest(r)| && Nest(r)[0] == [r[0].lo] + Nest(r[1..])[0]
  {
    Successor(j, k, r[0].Span(), |Nest(r[1..])|);
    if k + 1 < |Nest(r[1..])| {
      NestAt(r, p + 1, j, k + 1);
    } else if j + 1 < r[0].Span() {
      NestAt(r, p + 1, j + 1, 0);
    } else {
      NestAt(r, 0, 0, 0);
    }
  }

  /** One turn moves from each body execution of the nest to the next, and from the last to the first. */
  lemma {:induction false} AdvanceInNest(r: seq<Range>, p: nat)
    requires Nonempty(r) && p < |Nest(r)|
    ensures |Nest(r)[p]| == |r|
    ensures p + 1 == |Nest(r)| ==> Advance(r, Nest(r)[p]) == (Nest(r)[0], true)
    ensures p + 1 < |Nest(r)| ==> Advance(r, Nest(r)[p]) == (Nest(r)[p + 1], false)
  {
    if |r| > 0 {
      var j, k := NestSplit(r, p);
      AdvanceInNest(r[1..], k);
      assert Nest(r)[p][1..] == Nest(r[1..])[k];
      NextExecution(r, p, j, k);
    }
  }

  lemma {:induction false} StartIsFirst(r: seq<Range>)
    requires Nonempty(r)
    ensures |Nest(r)| > 0 && Start(r) == Nest(r)[0]
  {
    NonemptyNest(r);
    if |r| > 0 {
      StartIsFirst(r[1..]);
      NestAt(r, 0, 0, 0);
      assert Start(r) == [r[0].lo] + Start(r[1..]);
    }
  }

  lemma NextRemainder(i: nat, n: nat)
    requires n > 0
    ensures (i + 1) % n == if i % n + 1 == n then 0 else i % n + 1
  {
    var q, m := i / n, i % n;
    if m + 1 == n {
      assert i + 1 == (q + 1) * n;
      UniqueDivMod(i + 1, q + 1, n, 0);
    } else {
      UniqueDivMod(i + 1, q, n, m + 1);
    }
  }

  /**
   k turns from the start give the div/mod decode of k, and turn k+1 reports a wrap exactly
   when it brings the counters back to the start.
   */
  lemma {:induction false} TurnsDecode(r: seq<Range>, k: nat)
    requires Nonempty(r)
    ensures Positive(Spans(r)) && |Nest(r)| > 0
    ensures Turns(r, k) == Nest(r)[k % |Nest(r)|] == At(r, k)
    ensures Advance(r, Turns(r, k)).1 <==> (k + 1) % |Nest(r)| == 0
    ensures Advance(r, Turns(r, k)).1 <==> Turns(r, k + 1) == Start(r)
  {
    NonemptyNest(r);
    StartIsFirst(r);
    NestLength(r);
    var n := |Nest(r)|;
    TurnsFollowNest(r, k);
    NestIsDecode(r, k % n);
    DigitsPeriodic(Spans(r), k);
    AdvanceInNest(r, k % n);
    NextRemainder(k, n);
    if k % n + 1 < n {
      NestIsOrdered(r, 0, k % n + 1);
    }
  }

  lemma {:induction false} TurnsFollowNest(r: seq<Range>, k: nat)
    requires Nonempty(r)
    ensures |Nest(r)| > 0 && Turns(r, k) == Nest(r)[k % |Nest(r)|]
  {
    StartIsFirst(r);
    if k > 0 {
      TurnsFollowNest(r, k - 1);
      AdvanceInNest(r, (k - 1) % |Nest(r)|);
      NextRemainder(k - 1, |Nest(r)|);
    }
  }

  /** A limit of 0 behaves like a limit of 1: the counter is reset as soon as it moves. */
  function Bounds(limits: seq<nat>): (r: seq<Range>)
    ensures |r| == |limits|
  {
    seq(|limits|, d requires 0 <= d < |limits| => Range(0, if limits[d] == 0 then 1 else limits[d]))
  }

  /** All counters from e on are about to reach their limits, so whatever stands before them receives a carry. */
  predicate Carries(limits: seq<nat>, c: seq<nat>, e: nat) {
    forall k :: e <= k < |limits| && k < |c| ==> c[k] + 1 >= limits[k]
  }

  /** What one step makes of counter e. */
  function Stepped(limits: seq<nat>, c: seq<nat>, e: nat): nat
    requires e < |limits| == |c|
  {
    if !Carries(limits, c, e + 1) then c[e] else if c[e] + 1 >= limits[e] then 0 else c[e] + 1
  }

  /** One step in terms of the limits: counter by counter, and when it reports a wrap. */
  lemma {:induction false} AdvanceByLimits(limits: seq<nat>, c: seq<nat>, d: nat)
    requires d <= |limits| == |c|
    ensures Advance(Bounds(limits)[d..], c[d..]).1 <==> Carries(limits, c, d)
    ensures forall e :: d <= e < |limits| ==> Advance(Bounds(limits)[d..], c[d..]).0[e - d] == Stepped(limits, c, e)
    decreases |limits| - d
  {
    if d < |limits| {
      AdvanceByLimits(limits, c, d + 1);
      assert Bounds(limits)[d..][1..] == Bounds(limits)[d + 1..] && c[d..][1..] == c[d + 1..];
      assert Carries(limits, c, d) <==> Carries(limits, c, d + 1) && c[d] + 1 >= limits[d];
      var inner := Advance(Bounds(limits)[d + 1..], c[d + 1..]);
      forall e | d < e < |limits| ensures Advance(Bounds(limits)[d..], c[d..]).0[e - d] == Stepped(limits, c, e) {
        assert Advance(Bounds(limits)[d..], c[d..]).0[e - d] == inner.0[e - (d + 1)];
      }
    }
  }

  /** The recursion over the (counter, limit) argument pairs d, d+1, ... */
  method StepCounters(x: array<nat>, limits: seq<nat>, d: nat) returns (wrapped: bool)
    requires d <= x.Length == |limits|
    modifies x
    ensures x[..d] == old(x[..d])
    ensures (x[d..], wrapped) == Advance(Bounds(limits)[d..], old(x[d..]))
    decreases x.Length - d
  {
    if d == x.Length {
      assert x[d..] == [];
      return true;
    }
    ghost var c := x[d..];
    assert c[1..] == x[d + 1..];
    assert Bounds(limits)[d..][1..] == Bounds(limits)[d + 1..];
    wrapped := StepCounters(x, limits, d + 1);
    assert x[d] == x[..d + 1][d] == c[0];
    ghost var inner := x[d + 1..];
    if wrapped {
      x[d] := x[d] + 1;
      wrapped := false;
      if x[d] >= limits[d] {
        x[d] := 0;
        wrapped := true;
      }
    }
    assert x[d..] == [x[d]] + inner;
  }

  /**
   my_nd_iterator_step from pair d on.  A counter moves if all behind it carry, restarts at its limit,
   and the step reports whether all carry.  So counters below their limits stay below them, and a
   counter with limit 0 stays 0 and passes every carry on.
   */
  method NdIteratorStep(x: array<nat>, limits: seq<nat>, d: nat) returns (wrapped: bool)
    requires d <= x.Length == |limits|
    modifies x
    ensures x[..d] == old(x[..d])
    ensures (x[d..], wrapped) == Advance(Bounds(limits)[d..], old(x[d..]))
    ensures wrapped <==> Carries(limits, old(x[..]), d)
    ensures forall e :: d <= e < |limits| ==> x[e] == Stepped(limits, old(x[..]), e)
  {
    ghost var all := x[..];
    assert all[d..] == x[d..];
    wrapped := StepCounters(x, limits, d);
    assert x[..][d..] == x[d..];
    ByLimits(limits, all, d, x[..], wrapped);
  }

  lemma ByLimits(limits: seq<nat>, c: seq<nat>, d: nat, now: seq<nat>, wrapped: bool)
    requires d <= |limits| == |c| == |now| && (now[d..], wrapped) == Advance(Bounds(limits)[d..], c[d..])
    ensures wrapped <==> Carries(limits, c, d)
    ensures forall e :: d <= e < |limits| ==> now[e] == Stepped(limits, c, e)
  {
    AdvanceByLimits(limits, c, d);
    forall e | d <= e < |limits| ensures now[e] == Stepped(limits, c, e) {
      assert now[d..][e - d] == now[e];
    }
  }

  /** The rules of one step, in numbers. */
  lemma SteppedIs(limits: seq<nat>, c: seq<nat>, e: nat)
    requires e < |limits| == |c|
    ensures Carries(limits, c, e) <==> forall k :: e <= k < |limits| ==> c[k] + 1 >= limits[k]
    ensures (exists k :: e < k < |limits| && c[k] + 1 < limits[k]) ==> Stepped(limits, c, e) == c[e]
    ensures (forall k :: e < k < |limits| ==> c[k] + 1 >= limits[k]) && c[e] + 1 < limits[e] ==> Stepped(limits, c, e) == c[e] + 1
    ensures Carries(limits, c, e) ==> Stepped(limits, c, e) == 0
    ensures c[e] < limits[e] ==> Stepped(limits, c, e) < limits[e]
    ensures limits[e] == 0 && c[e] == 0 ==> Stepped(limits, c, e) == 0 && (Carries(limits, c, e) <==> Carries(limits, c, e + 1))
  {
  }

  lemma Distribute(w: nat, n: nat)
    ensures (w + 1) * n == w * n + n
  {
  }

  /** How many of the first k turns reported a wrap. */
  ghost function Wraps(r: seq<Range>, k: nat): nat {
    if k == 0 then 0 else Wraps(r, k - 1) + if Advance(r, Turns(r, k - 1)).1 then 1 else 0
  }

  /** Turns are never lost: whole passes and the position in the current pass add up to k. */
  lemma {:induction false} WrapsCount(r: seq<Range>, k: nat)
    requires Nonempty(r)
    ensures |Nest(r)| > 0 && k == Wraps(r, k) * |Nest(r)| + k % |Nest(r)|
  {
    NonemptyNest(r);
    var n := |Nest(r)|;
    if k == 0 {
      UniqueDivMod(0, 0, n, 0);
    } else {
      WrapsCount(r, k - 1);
      TurnsDecode(r, k - 1);
      NextRemainder(k - 1, n);
      Distribute(Wraps(r, k - 1), n);
    }
  }

  /** The steps of NdIterate. */
  method TakeSteps(limits: seq<nat>, k: nat) returns (c: seq<nat>, wraps: nat)
    ensures c == Turns(Bounds(limits), k) && wraps == Wraps(Bounds(limits), k)
  {
    ghost var r := Bounds(limits);
    var x := new nat[|limits|](_ => 0);
    wraps := 0;
    assert x[..] == Start(r);
    for i := 0 to k
      invariant x[..] == Turns(r, i)
      invariant wraps == Wraps(r, i)
    {
      assert r[0..] == r && x[0..] == x[..];
      var w := NdIteratorStep(x, limits, 0);
      assert x[0..] == x[..];
      if w {
        wraps := wraps + 1;
      }
    }
    c := x[..];
  }

  /** k steps from all zeros, as the loops in main take them. */
  method NdIterate(limits: seq<nat>, k: nat) returns (c: seq<nat>, wraps: nat)
    ensures Positive(limits) ==> Product(limits) > 0 && c == Digits(limits, k) && wraps == k / Product(limits)
    ensures |c| == |limits| && forall d :: 0 <= d < |limits| ==> if limits[d] == 0 then c[d] == 0 else c[d] < limits[d]
    ensures Positive(Spans(Bounds(limits))) && c == Digits(Spans(Bounds(limits)), k)
    ensures Product(Spans(Bounds(limits))) > 0 && wraps == k / Product(Spans(Bounds(limits)))
  {
    c, wraps := TakeSteps(limits, k);
    StepsDecode(Bounds(limits), k);
    AtZero(Bounds(limits), k);
    SpansOfBounds(limits);
  }

  lemma AtZero(r: seq<Range>, k: nat)
    requires Positive(Spans(r)) && forall d :: 0 <= d < |r| ==> r[d].lo == 0
    ensures At(r, k) == Digits(Spans(r), k)
  {
  }

  /** Positive limits are the spans; a limit of 0 counts as 1. */
  lemma SpansOfBounds(limits: seq<nat>)
    ensures forall d :: 0 <= d < |limits| ==> Spans(Bounds(limits))[d] == if limits[d] == 0 then 1 else limits[d]
    ensures Positive(limits) ==> Spans(Bounds(limits)) == limits
  {
  }

  /** With limits 3 and 2, two steps from zero reach (1, 0), and six are back at zero with one wrap. */
  method NdIterateExample() returns (two: (seq<nat>, nat), six: (seq<nat>, nat))
    ensures two == ([1, 0], 0) && six == ([0, 0], 1)
  {
    var limits := [3, 2];
    assert limits[..1] == [3] && limits[..1][..0] == [];
    assert Product([3]) == 3 && Product(limits) == 6;
    var c, w := NdIterate(limits, 2);
    DigitsOf32(2);
    two := (c, w);
    c, w := NdIterate(limits, 6);
    DigitsOf32(6);
    six := (c, w);
  }

  lemma DigitsOf32(k: nat)
    ensures Digits([3, 2], k) == [k / 2 % 3, k % 2]
  {
    assert [3, 2][..1] == [3] && [3][..0] == [];
    assert Digits([3], k / 2) == [k / 2 % 3];
  }

  lemma StepsDecode(r: seq<Range>, k: nat)
    requires Nonempty(r)
    ensures Positive(Spans(r)) && Product(Spans(r)) > 0
    ensures Turns(r, k) == At(r, k) && Wraps(r, k) == k / Product(Spans(r))
  {
    NestLength(r);
    NonemptyNest(r);
    TurnsDecode(r, k);
    WrapsCount(r, k);
    var n := |Nest(r)|;
    UniqueDivMod(k, Wraps(r, k), n, k % n);
  }
}
