/**
 Mixed-radix positional numbers.  A list of spans s[0], s[1], ... names the sizes of
 nested dimensions, the last one varying fastest.  The batch iterators of dev/thr.cpp and
 the offset arithmetic of dev/v.cpp are two uses of the same division chain.
 */
module MixedRadix {

  function Product(s: seq<nat>): nat {
    if |s| == 0 then 1 else Product(s[..|s| - 1]) * s[|s| - 1]
  }

  ghost predicate Positive(s: seq<nat>) {
    forall d :: 0 <= d < |s| ==> s[d] > 0
  }

  /** c names a cell: every coordinate is below its span. */
  ghost predicate InRange(s: seq<nat>, c: seq<nat>) {
    |c| == |s| && forall d :: 0 <= d < |s| ==> c[d] < s[d]
  }

  /** The coordinates of linear position p, the innermost by remainder, the others by quotient. */
  function Digits(s: seq<nat>, p: nat): (c: seq<nat>)
    requires Positive(s)
    ensures InRange(s, c)
  {
    if |s| == 0 then []
    else
      var last := s[|s| - 1];
      Digits(s[..|s| - 1], p / last) + [p % last]
  }

  /** The linear position of coordinates c (Horner form). */
  function Number(s: seq<nat>, c: seq<nat>): nat
    requires |c| == |s|
  {
    if |s| == 0 then 0
    else Number(s[..|s| - 1], c[..|c| - 1]) * s[|s| - 1] + c[|c| - 1]
  }

  /** What the division chain carries when dimensions d, d+1, ... have been divided out of p. */
  ghost function Carry(s: seq<nat>, d: nat, p: nat): nat
    requires d <= |s| && Positive(s)
    decreases |s| - d
  {
    if d == |s| then p else Carry(s, d + 1, p) / s[d]
  }

  /**
   The division chain of one position, written out: rest[d] is left when dimensions d, d+1, ...
   are done, and digit[d] is what dimension d takes, counted from its lower bound.
   */
  datatype Chain = Chain(rest: seq<nat>, digit: seq<nat>) {
    ghost predicate StepAt(d: nat, lo: nat, span: nat) {
      && d < |digit| == |rest| - 1 && span > 0
      && digit[d] == lo + rest[d + 1] % span && rest[d] == rest[d + 1] / span
    }
  }

  // ---- division facts ----

  lemma TimesAtLeast(k: int, d: int)
    requires d > 0
    ensures k >= 1 ==> k * d >= d
  {
    if k > 1 {
      assert (k - 1) * d >= 0;
    }
  }

  lemma UniqueDivMod(x: int, q: int, d: int, r: int)
    requires 0 <= r < d && x == q * d + r
    ensures x / d == q && x % d == r
  {
    var q', r' := x / d, x % d;
    assert (q - q') * d == r' - r;
    TimesAtLeast(q - q', d);
    TimesAtLeast(q' - q, d);
  }

  lemma MulMonotone(x: nat, y: nat, k: nat)
    requires x <= y
    ensures x * k <= y * k
  {
    assert (y - x) * k >= 0;
  }

  lemma NestedSum(p: nat, a: nat, b: nat, k: nat, m: nat, r: nat)
    requires a > 0 && b > 0 && k == p / b / a && m == p / b % a && r == p % b
    ensures p == k * (a * b) + (m * b + r)
  {
    var q := p / b;
    assert p == q * b + r;
    assert q == k * a + m;
    assert (k * a + m) * b == k * (a * b) + m * b;
  }

  lemma NestedBound(a: nat, b: nat, m: nat, r: nat)
    requires m < a && r < b
    ensures 0 <= m * b + r < a * b
  {
    MulMonotone(m + 1, a, b);
    assert (m + 1) * b == m * b + b;
  }

  /** Dividing by b and then by a is dividing by a*b; remainders nest. */
  lemma NestedDiv(p: nat, a: nat, b: nat)
    requires a > 0 && b > 0
    ensures a * b > 0
    ensures p / (a * b) == (p / b) / a
    ensures p % (a * b) == ((p / b) % a) * b + p % b
    ensures (p % (a * b)) / b == (p / b) % a
    ensures (p % (a * b)) % b == p % b
  {
    var k, m, r := p / b / a, p / b % a, p % b;
    NestedSum(p, a, b, k, m, r);
    NestedBound(a, b, m, r);
    UniqueDivMod(p, k, a * b, m * b + r);
    UniqueDivMod(m * b + r, m, b, r);
  }

  // ---- blocks ----

  /** How many blocks of size b cover n. */
  function Blocks(n: nat, b: nat): nat
    requires b > 0
  {
    n / b + if n % b != 0 then 1 else 0
  }

  lemma BlocksBounds(n: nat, b: nat)
    requires b > 0
    ensures n <= Blocks(n, b) * b < n + b
  {
    var q, r := n / b, n % b;
    assert n == q * b + r;
    assert (q + 1) * b == q * b + b;
  }

  lemma BlocksAre(n: nat, b: nat, k: nat)
    requires b > 0 && k > 0 && (k - 1) * b < n <= k * b
    ensures Blocks(n, b) == k
  {
    if n == k * b {
      UniqueDivMod(n, k, b, 0);
    } else {
      assert k * b == (k - 1) * b + b;
      UniqueDivMod(n, k - 1, b, n - (k - 1) * b);
    }
  }

  // ---- 64-bit words ----

  const TWO64: nat := 0x1_0000_0000_0000_0000

  lemma SameRemainder(x: nat, m: nat)
    ensures (x + m * TWO64) % TWO64 == x % TWO64
  {
    UniqueDivMod(x + m * TWO64, x / TWO64 + m, TWO64, x % TWO64);
  }

  /** Wrapping a factor before the product only loses multiples of 2^64. */
  lemma WrapTimes(x: nat, y: nat)
    ensures (x % TWO64) * y % TWO64 == x * y % TWO64
  {
    var q := x / TWO64;
    assert x * y == (x % TWO64) * y + (q * y) * TWO64;
    SameRemainder((x % TWO64) * y, q * y);
  }

  // ---- products ----

  lemma {:induction false} ProductPositive(s: seq<nat>)
    ensures Positive(s) <==> Product(s) > 0
  {
    if |s| > 0 {
      var i := |s| - 1;
      ProductPositive(s[..i]);
      assert Product(s[..i]) > 0 && s[i] > 0 ==> Product(s[..i]) * s[i] > 0;
      assert Positive(s) <==> Positive(s[..i]) && s[i] > 0;
    }
  }

  lemma {:induction false} ProductFront(s: seq<nat>)
    requires |s| > 0
    ensures Product(s) == s[0] * Product(s[1..])
  {
    var i := |s| - 1;
    if i > 0 {
      ProductFront(s[..i]);
      assert s[..i][1..] == s[1..][..i - 1];
      assert Product(s) == s[0] * Product(s[1..][..i - 1]) * s[i];
      assert Product(s[1..]) == Product(s[1..][..i - 1]) * s[i];
    } else {
      assert s[..0] == [] && s[1..] == [];
    }
  }

  // ---- Digits and Number are inverse to each other ----

  lemma {:induction false} NumberOfDigits(s: seq<nat>, p: nat)
    requires Positive(s)
    ensures Product(s) > 0
    ensures Number(s, Digits(s, p)) == p % Product(s)
  {
    ProductPositive(s);
    if |s| > 0 {
      var i := |s| - 1;
      NumberOfDigits(s[..i], p / s[i]);
      assert Digits(s, p)[..i] == Digits(s[..i], p / s[i]);
      NestedDiv(p, Product(s[..i]), s[i]);
    }
  }

  lemma {:induction false} NumberBound(s: seq<nat>, c: seq<nat>)
    requires InRange(s, c)
    ensures Number(s, c) < Product(s)
  {
    if |s| > 0 {
      var i := |s| - 1;
      NumberBound(s[..i], c[..i]);
      var n, q := Number(s[..i], c[..i]), Product(s[..i]);
      calc {
        n * s[i] + c[i];
      <  n * s[i] + s[i];
      == (n + 1) * s[i];
      <= { MulMonotone(n + 1, q, s[i]); }
        q * s[i];
      }
    }
  }

  lemma {:induction false} DigitsOfNumber(s: seq<nat>, c: seq<nat>)
    requires InRange(s, c)
    ensures Positive(s) && Digits(s, Number(s, c)) == c
  {
    if |s| > 0 {
      var i := |s| - 1;
      DigitsOfNumber(s[..i], c[..i]);
      UniqueDivMod(Number(s, c), Number(s[..i], c[..i]), s[i], c[i]);
      assert c == c[..i] + [c[i]];
    }
  }

  /** Positions that differ by a multiple of the product have the same digits. */
  lemma {:induction false} DigitsPeriodic(s: seq<nat>, p: nat)
    requires Positive(s)
    ensures Product(s) > 0 && Digits(s, p % Product(s)) == Digits(s, p)
  {
    NumberOfDigits(s, p);
    DigitsOfNumber(s, Digits(s, p));
  }

  // ---- the division chain read from either end ----

  lemma {:induction false} CarryDropsLast(s: seq<nat>, d: nat, p: nat)
    requires d < |s| && Positive(s)
    ensures Carry(s, d, p) == Carry(s[..|s| - 1], d, p / s[|s| - 1])
    decreases |s| - d
  {
    if d + 1 < |s| {
      CarryDropsLast(s, d + 1, p);
    }
  }

  /** The loop over dimensions reads digit d off the carry left by dimensions d+1, d+2, ... */
  lemma {:induction false} DigitFromCarry(s: seq<nat>, d: nat, p: nat)
    requires d < |s| && Positive(s)
    ensures Digits(s, p)[d] == Carry(s, d + 1, p) % s[d]
  {
    if d < |s| - 1 {
      CarryDropsLast(s, d + 1, p);
      DigitFromCarry(s[..|s| - 1], d, p / s[|s| - 1]);
    }
  }

  /** The outermost digit first: the form in which a nested loop unfolds. */
  lemma {:induction false} DigitsFront(s: seq<nat>, p: nat)
    requires |s| > 0 && Positive(s)
    ensures Product(s[1..]) > 0
    ensures Digits(s, p) == [(p / Product(s[1..])) % s[0]] + Digits(s[1..], p)
  {
    var i := |s| - 1;
    ProductPositive(s[1..]);
    if i > 0 {
      DigitsFront(s[..i], p / s[i]);
      assert s[..i][1..] == s[1..][..i - 1];
      NestedDiv(p, Product(s[1..][..i - 1]), s[i]);
    } else {
      assert s[1..] == [];
    }
  }

  lemma OuterTurn(p: nat, a: nat, n: nat)
    requires n > 0 && p < a * n
    ensures p / n < a && (p / n) % a == p / n && p == (p / n) * n + p % n
  {
    if p / n >= a {
      MulMonotone(a, p / n, n);
    }
    UniqueDivMod(p / n, 0, a, p / n);
  }

  lemma DigitsSplit(s: seq<nat>, p: nat) returns (j: nat, k: nat)
    requires |s| > 0 && Positive(s) && p < Product(s)
    ensures Positive(s[1..]) && j < s[0] && k < Product(s[1..]) && p == j * Product(s[1..]) + k
    ensures Digits(s, p) == [j] + Digits(s[1..], k)
  {
    ProductFront(s);
    ProductPositive(s[1..]);
    j, k := p / Product(s[1..]), p % Product(s[1..]);
    OuterTurn(p, s[0], Product(s[1..]));
    DigitsFront(s, p);
    DigitsPeriodic(s[1..], p);
  }
}
