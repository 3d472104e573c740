/**
 The fast inverse square root of dev/vrsqrt.cpp: an integer subtraction on the bit pattern
 gives a first guess, Newton steps refine it.  The bit trick is modelled on the integer
 encodings of section 3.4 of IEEE 754-2008; the Newton steps are taken over exact reals.
 */
module InvSqrt {
  import MixedRadix

  /** An interchange format: m mantissas per binade, exponent bias, and the subtrahend constant. */
  datatype Format = Format(m: nat, bias: nat, magic: nat)

  const SINGLE := Format(0x80_0000, 127, 0x5f3759df)
  const DOUBLE := Format(0x10_0000_0000_0000, 1023, 0x5fe6eb50c7b537a9)

  /**
   What both instances share: even m, odd bias, and a constant whose exponent field is
   (3*bias - 1)/2 and whose mantissa field is close to 0.43245 of the range.
   */
  ghost predicate Usable(f: Format) {
    && f.m >= 0x80_0000 && f.m % 2 == 0 && f.bias >= 127 && f.bias % 2 == 1
    && f.magic / f.m == (3 * f.bias - 1) / 2
    && 4324 * f.m <= 10000 * (f.magic % f.m) <= 4325 * f.m
  }

  lemma FormatsAreUsable()
    ensures Usable(SINGLE) && Usable(DOUBLE)
    ensures SINGLE == Format(0x80_0000, 127, 0x5f3759df) && DOUBLE == Format(0x10_0000_0000_0000, 1023, 0x5fe6eb50c7b537a9)
  {
  }

  /** Finite and not negative. */
  predicate Finite(f: Format, bits: int) {
    0 <= bits < (2 * f.bias + 1) * f.m
  }

  predicate Normal(f: Format, bits: int) {
    f.m <= bits < (2 * f.bias + 1) * f.m
  }

  /** u times 2 to the power e. */
  function Scale(u: real, e: int): real
    decreases if e < 0 then -e else e
  {
    if e == 0 then u else if e > 0 then 2.0 * Scale(u, e - 1) else Scale(u, e + 1) / 2.0
  }

  function Mantissa(f: Format, m: nat): real
    requires f.m > 0
  {
    1.0 + m as real / f.m as real
  }

  /** The number a bit pattern stands for; without the implied leading one below the normal range. */
  function Value(f: Format, bits: nat): real
    requires f.m > 0
  {
    if bits < f.m then Scale(bits as real / f.m as real, 1 - f.bias)
    else Scale(Mantissa(f, bits % f.m), bits / f.m - f.bias)
  }

  function Guess(f: Format, bits: nat): int {
    f.magic - bits / 2
  }

  // ---- powers of two ----

  lemma ScaleNext(u: real, e: int)
    ensures Scale(u, e + 1) == 2.0 * Scale(u, e)
  {
  }

  lemma {:induction false} ScaleTwice(u: real, e: int, f: int)
    ensures Scale(Scale(u, e), f) == Scale(u, e + f)
    decreases if f < 0 then -f else f
  {
    if f > 0 {
      ScaleTwice(u, e, f - 1);
      ScaleNext(u, e + f - 1);
    } else if f < 0 {
      ScaleTwice(u, e, f + 1);
      ScaleNext(u, e + f);
    }
  }

  lemma Twice(x: real, t: real, s: real)
    requires t == 2.0 * s
    ensures Times(x, t) == 2.0 * Times(x, s)
  {
  }

  lemma {:induction false} ScaleFactor(x: real, u: real, e: int)
    ensures Times(x, Scale(u, e)) == Scale(Times(x, u), e)
    decreases if e < 0 then -e else e
  {
    if e > 0 {
      ScaleFactor(x, u, e - 1);
      Twice(x, Scale(u, e), Scale(u, e - 1));
    } else if e < 0 {
      ScaleFactor(x, u, e + 1);
      Twice(x, Scale(u, e + 1), Scale(u, e));
    }
  }

  function Times(x: real, y: real): real { x * y }

  lemma Commutes(x: real, y: real)
    ensures Times(x, y) == Times(y, x)
  {
  }

  lemma ScaleProduct(u: real, e: int, v: real, f: int)
    ensures Times(Scale(u, e), Scale(v, f)) == Scale(Times(u, v), e + f)
  {
    calc {
      Times(Scale(u, e), Scale(v, f));
      { ScaleFactor(Scale(u, e), v, f); }
      Scale(Times(Scale(u, e), v), f);
      { Commutes(Scale(u, e), v); }
      Scale(Times(v, Scale(u, e)), f);
      { ScaleFactor(v, u, e); }
      Scale(Scale(Times(v, u), e), f);
      { Commutes(v, u); }
      Scale(Scale(Times(u, v), e), f);
      { ScaleTwice(Times(u, v), e, f); }
      Scale(Times(u, v), e + f);
    }
  }

  lemma {:induction false} ScaleSum(u: real, v: real, e: int)
    ensures Scale(u + v, e) == Scale(u, e) + Scale(v, e)
    decreases if e < 0 then -e else e
  {
    if e > 0 {
      ScaleSum(u, v, e - 1);
    } else if e < 0 {
      ScaleSum(u, v, e + 1);
    }
  }

  // ---- what the patterns stand for ----

  /** The distance from a pattern to the next: one unit of the last mantissa place in its binade. */
  function Unit(f: Format, bits: nat): real
    requires f.m > 0
  {
    Scale(1.0 / f.m as real, (if bits < f.m then 1 else bits / f.m) - f.bias)
  }

  lemma Fraction(a: nat, m: nat)
    requires m > 0
    ensures (a + 1) as real / m as real == a as real / m as real + 1.0 / m as real
    ensures m as real / m as real == 1.0
  {
  }

  lemma NextField(bits: nat, m: nat)
    requires m > 0
    ensures bits % m + 1 < m ==> (bits + 1) / m == bits / m && (bits + 1) % m == bits % m + 1
    ensures bits % m + 1 == m ==> (bits + 1) / m == bits / m + 1 && (bits + 1) % m == 0
  {
    var e, r := bits / m, bits % m;
    if r + 1 < m {
      MixedRadix.UniqueDivMod(bits + 1, e, m, r + 1);
    } else {
      assert bits + 1 == (e + 1) * m;
      MixedRadix.UniqueDivMod(bits + 1, e + 1, m, 0);
    }
  }

  lemma BelowNormal(bits: nat, m: nat)
    requires m > 0
    ensures bits < m ==> bits / m == 0 && bits % m == bits
    ensures m / m == 1 && m % m == 0
  {
    if bits < m { MixedRadix.UniqueDivMod(bits, 0, m, bits); }
    MixedRadix.UniqueDivMod(m, 1, m, 0);
  }

  lemma SubnormalStep(f: Format, bits: nat)
    requires f.m > 0 && bits < f.m
    ensures Value(f, bits + 1) == Value(f, bits) + Unit(f, bits)
  {
    Fraction(bits, f.m);
    ScaleSum(bits as real / f.m as real, 1.0 / f.m as real, 1 - f.bias);
    BelowNormal(bits, f.m);
  }

  /** Adding one to a mantissa: within the binade, or on to the first pattern of the next. */
  lemma MantissaStep(f: Format, r: nat, e: int)
    requires r < f.m
    ensures r + 1 < f.m ==> Scale(Mantissa(f, r + 1), e) == Scale(Mantissa(f, r), e) + Scale(1.0 / f.m as real, e)
    ensures r + 1 == f.m ==> Scale(Mantissa(f, 0), e + 1) == Scale(Mantissa(f, r), e) + Scale(1.0 / f.m as real, e)
  {
    Fraction(r, f.m);
    ScaleSum(Mantissa(f, r), 1.0 / f.m as real, e);
    ScaleSum(1.0, 1.0, e);
    ScaleNext(1.0, e);
  }

  lemma NormalStep(f: Format, bits: nat)
    requires f.m > 0 && bits >= f.m
    ensures Value(f, bits + 1) == Value(f, bits) + Unit(f, bits)
  {
    NextField(bits, f.m);
    MantissaStep(f, bits % f.m, bits / f.m - f.bias);
  }

  /** Counting up from zero, every pattern adds the unit of its binade, across binades too. */
  lemma ValueStep(f: Format, bits: nat)
    requires f.m > 0
    ensures Value(f, 0) == 0.0
    ensures Value(f, bits + 1) == Value(f, bits) + Unit(f, bits)
  {
    ScaleZero(1 - f.bias);
    if bits < f.m { SubnormalStep(f, bits); } else { NormalStep(f, bits); }
  }

  /** Equal steps within a binade. */
  lemma EqualSteps(f: Format, bits: nat)
    requires f.m > 0 && bits / f.m == (bits + 1) / f.m
    ensures Value(f, bits + 2) - Value(f, bits + 1) == Value(f, bits + 1) - Value(f, bits)
  {
    ValueStep(f, bits);
    ValueStep(f, bits + 1);
    BelowNormal(bits, f.m);
    BelowNormal(bits + 1, f.m);
    if bits + 1 == f.m { NextField(bits, f.m); }
  }

  /** The pattern with the bias in its exponent field and no mantissa stands for one. */
  lemma ValueOne(f: Format)
    requires f.m > 0 && f.bias > 0
    ensures Value(f, f.bias * f.m) == 1.0
  {
    MixedRadix.MulMonotone(1, f.bias, f.m);
    MixedRadix.UniqueDivMod(f.bias * f.m, f.bias, f.m, 0);
  }

  /** One more in the exponent field doubles. */
  lemma ValueDoubles(f: Format, bits: nat)
    requires 0 < f.m <= bits
    ensures Value(f, bits + f.m) == 2.0 * Value(f, bits)
  {
    var e, r := bits / f.m, bits % f.m;
    assert bits + f.m == (e + 1) * f.m + r;
    MixedRadix.UniqueDivMod(bits + f.m, e + 1, f.m, r);
    ScaleNext(Mantissa(f, r), e - f.bias);
  }

  /** Larger patterns stand for larger numbers, subnormal ones included. */
  lemma {:induction false} ValueIncreases(f: Format, a: nat, b: nat)
    requires f.m > 0 && a < b
    ensures Value(f, a) < Value(f, b)
    decreases b
  {
    ValueStep(f, b - 1);
    ScalePositive(1.0 / f.m as real, (if b - 1 < f.m then 1 else (b - 1) / f.m) - f.bias);
    if a < b - 1 { ValueIncreases(f, a, b - 1); }
  }

  lemma {:induction false} ScaleZero(e: int)
    ensures Scale(0.0, e) == 0.0
    decreases if e < 0 then -e else e
  {
    if e > 0 { ScaleZero(e - 1); } else if e < 0 { ScaleZero(e + 1); }
  }

  // ---- bounds on u*v*v for mantissas with a fixed sum u + 2v ----

  lemma Product(x: real, y: real)
    requires x >= 0.0 && y >= 0.0
    ensures x * y >= 0.0
  {
  }

  lemma Scaled(x: real, y: real, k: real)
    requires x <= y && k >= 0.0
    ensures x * k <= y * k
  {
    Product(y - x, k);
    assert (y - x) * k == y * k - x * k;
  }

  lemma CubeExpanded(u: real, v: real)
    ensures (u + 2.0 * v) * (u + 2.0 * v) * (u + 2.0 * v) - 27.0 * (u * v * v) == ((u - v) * (u - v)) * (u + 8.0 * v)
  {
    var uu, uv, vv := u * u, u * v, v * v;
    assert (u - v) * (u - v) == uu - 2.0 * uv + vv;
    assert (u + 2.0 * v) * (u + 2.0 * v) == uu + 4.0 * uv + 4.0 * vv;
    var uuu, uuv, uvv, vvv := uu * u, uu * v, uv * v, vv * v;
    assert uv * u == uuv && vv * u == uvv;
    calc {
      (uu + 4.0 * uv + 4.0 * vv) * (u + 2.0 * v);
      uuu + 2.0 * uuv + 4.0 * uuv + 8.0 * uvv + 4.0 * uvv + 8.0 * vvv;
    }
    calc {
      (uu - 2.0 * uv + vv) * (u + 8.0 * v);
      uuu + 8.0 * uuv - 2.0 * uuv - 16.0 * uvv + uvv + 8.0 * vvv;
    }
  }

  /** The geometric mean of u, v, v does not exceed their arithmetic mean. */
  lemma MeanBound(u: real, v: real, s: real)
    requires u >= 0.0 && v >= 0.0 && u + 2.0 * v <= s
    ensures 27.0 * (u * v * v) <= s * s * s
  {
    var w := u + 2.0 * v;
    CubeExpanded(u, v);
    Product((u - v) * (u - v), u + 8.0 * v);
    Scaled(w, s, w);
    Scaled(w, s, s);
    Scaled(w * w, s * s, w);
    Product(s, s);
    Scaled(w, s, s * s);
  }

  /** With u + 2v == s, u*v*v exceeds its value at u == 1 while v stays above the turning point. */
  lemma OddLow(u: real, v: real)
    requires 1.0 <= u <= 2.0 && 4.8648 <= u + 2.0 * v <= 4.8652
    ensures u * v * v >= 3.72
  {
    var h := (u + 2.0 * v - 1.0) / 2.0;  // the value of v at u == 1
    assert h - v == (u - 1.0) / 2.0 >= 0.0 && 1.4324 <= v <= 1.9326 && 1.9324 <= h <= 1.9326;
    var vv := v * v;
    assert vv >= 1.4324 * 1.4324 by { Scaled(1.4324, v, 1.4324); Scaled(1.4324, v, v); }
    calc {
      u * v * v;
      u * vv;
      (1.0 + 2.0 * (h - v)) * vv;
      vv + 2.0 * ((h - v) * vv);
      h * h - (h - v) * (h + v) + 2.0 * ((h - v) * vv);
      h * h + (h - v) * (2.0 * vv - v - h);
    }
    Product(h - v, 2.0 * vv - v - h);
    Scaled(1.9324, h, 1.9324);
    Scaled(1.9324, h, h);
  }

  /** The same at v == 1 ... */
  lemma EvenLow(u: real, v: real)
    requires 1.0 <= u && 1.0 <= v && 3.8648 <= u + 2.0 * v <= 3.8652
    ensures u * v * v >= 1.86
  {
    var s, vv := u + 2.0 * v, v * v;
    assert v <= 1.4326;
    Product(v - 1.0, 1.4326 - v);
    assert vv <= 2.4326 * v - 1.4326;
    calc {
      u * v * v;
      u * vv;
      (s - 2.0 * v) * vv;
      (s - 2.0) + (v - 1.0) * (s * (v + 1.0) - 2.0 * (vv + v + 1.0));
    }
    Scaled(3.8648, s, v + 1.0);
    Product(v - 1.0, s * (v + 1.0) - 2.0 * (vv + v + 1.0));
  }

  /** ... and at v == 2, after a borrow from the exponent field. */
  lemma BorrowLow(u: real, v: real)
    requires u <= 2.0 && v <= 2.0 && 5.8648 <= u + 2.0 * v <= 5.8652
    ensures u * v * v >= 7.44
  {
    var w := 2.0 - v;
    var b := u - 2.0 * w;
    assert 0.0 <= w <= 0.0676 && 1.8648 <= b <= 1.8652;
    assert v * v == (4.0 - 4.0 * w) + w * w;
    Product(w, w);
    Scaled(4.0 - 4.0 * w, v * v, u);
    assert u * v * v == v * v * u;
    Product(w, 8.1 - 4.0 * b - 8.0 * w);
    calc {
      (4.0 - 4.0 * w) * u;
      (4.0 - 4.0 * w) * (b + 2.0 * w);
      4.0 * b + w * (8.1 - 4.0 * b - 8.0 * w) - 0.1 * w;
    }
  }

  // ---- the guess, field by field ----

  /** The fields of a bit pattern, its exponent split into 2*k + r. */
  datatype Fields = Fields(k: nat, r: nat, m: nat)

  lemma Split(q: nat, bits: nat) returns (x: Fields)
    requires q > 0 && q % 2 == 0
    ensures x.r <= 1 && x.m < q && bits / q == 2 * x.k + x.r && bits % q == x.m
    ensures bits / 2 == x.k * q + (x.m / 2 + x.r * (q / 2))
  {
    var e, m := bits / q, bits % q;
    Reassemble(bits, q, e, m);
    x := Fields(e / 2, e % 2, m);
    HalfBits(q, e / 2, e % 2, m, bits);
  }

  lemma Reassemble(bits: nat, q: nat, e: int, m: int)
    requires q > 0 && e == bits / q && m == bits % q
    ensures 0 <= e && 0 <= m < q && bits == (2 * (e / 2) + e % 2) * q + m
  {
    assert 2 * (e / 2) + e % 2 == e;
  }

  lemma HalfBits(q: nat, k: nat, r: nat, m: nat, bits: nat)
    requires q % 2 == 0 && r <= 1 && bits == (2 * k + r) * q + m
    ensures bits / 2 == k * q + (m / 2 + r * (q / 2))
  {
    assert (2 * k + r) * q == 2 * (k * q) + r * q;
    if r == 0 {
      assert r * q == 0 && r * (q / 2) == 0;
    } else {
      assert r * q == q && r * (q / 2) == q / 2;
    }
  }

  /** A difference of two numbers with fields of size q, field by field. */
  lemma SubtractFields(q: nat, g: int, c: nat, k: nat, t: nat, y: int)
    requires q > 0 && c < q && t < q && y == (g * q + c) - (k * q + t)
    ensures t <= c ==> y / q == g - k && y % q == c - t
    ensures t > c ==> y / q == g - k - 1 && y % q == c - t + q
  {
    assert (g - k) * q == g * q - k * q;
    assert (g - k - 1) * q == g * q - k * q - q;
    if t <= c {
      MixedRadix.UniqueDivMod(y, g - k, q, c - t);
    } else {
      MixedRadix.UniqueDivMod(y, g - k - 1, q, c - t + q);
    }
  }

  lemma NormalByExponent(f: Format, y: int)
    requires f.m > 0 && 1 <= y / f.m <= 2 * f.bias
    ensures Normal(f, y)
  {
    var e, m := y / f.m, y % f.m;
    assert y == e * f.m + m;
    MixedRadix.MulMonotone(1, e, f.m);
    MixedRadix.MulMonotone(e + 1, 2 * f.bias + 1, f.m);
    assert (e + 1) * f.m == e * f.m + f.m;
  }

  /** The subtraction, field by field: it borrows from the exponent exactly when t exceeds the constant's mantissa. */
  lemma GuessFields(f: Format, bits: nat, k: nat, t: nat)
    requires Usable(f) && bits / 2 == k * f.m + t && t < f.m && k <= f.bias
    ensures var g, c, y := (3 * f.bias - 1) / 2, f.magic % f.m, Guess(f, bits);
      && Normal(f, y)
      && (t <= c ==> y / f.m == g - k && y % f.m == c - t)
      && (t > c ==> y / f.m == g - k - 1 && y % f.m == c - t + f.m)
  {
    var g, c, y := f.magic / f.m, f.magic % f.m, Guess(f, bits);
    SubtractFields(f.m, g, c, k, t, y);
    NormalByExponent(f, y);
  }

  lemma Ratio(p: real, q: real, lo: real, hi: real)
    requires q > 0.0 && lo * q <= p <= hi * q
    ensures lo <= p / q <= hi
  {
    var r := p / q;
    assert r * q == p;
    assert (lo - r) * q == lo * q - p <= 0.0;
    assert (r - hi) * q == p - hi * q <= 0.0;
    assert lo - r > 0.0 ==> (lo - r) * q > 0.0;
    assert r - hi > 0.0 ==> (r - hi) * q > 0.0;
  }

  lemma SumOfShares(m: nat, n: nat, q: nat)
    requires q > 0
    ensures (m + 2 * n) as real / q as real == m as real / q as real + 2.0 * (n as real / q as real)
  {
  }

  lemma SumRange(m: nat, n: nat, q: nat, c: nat, j: nat, jq: nat)
    requires q >= 0x80_0000 && 4324 * q <= 10000 * c <= 4325 * q && jq as real == j as real * q as real
    requires 2 * c + jq <= m + 2 * n <= 2 * c + jq + 1
    ensures (0.8648 + j as real) * q as real <= (m + 2 * n) as real <= (0.8652 + j as real) * q as real
  {
    assert 10000 * (m + 2 * n) >= 8648 * q + 10000 * jq;
    assert 10000 * (m + 2 * n) <= 8652 * q + 10000 * jq;
  }

  /** The mantissas of x and of its guess have nearly the same weighted sum for every x of one class. */
  lemma MantissaSum(f: Format, m: nat, n: nat, c: nat, j: nat)
    requires f.m >= 0x80_0000 && 4324 * f.m <= 10000 * c <= 4325 * f.m && j <= 2
    requires 2 * c + j * f.m <= m + 2 * n <= 2 * c + j * f.m + 1
    ensures 3.8648 + j as real <= Mantissa(f, m) + 2.0 * Mantissa(f, n) <= 3.8652 + j as real
  {
    SumRange(m, n, f.m, c, j, j * f.m);
    Ratio((m + 2 * n) as real, f.m as real, 0.8648 + j as real, 0.8652 + j as real);
    SumOfShares(m, n, f.m);
  }

  /** x*y*y, which is 1 exactly when y is an inverse square root of x. */
  function Fit(x: real, y: real): real { x * y * y }

  /** x*y*y for x == u*2^e and y == v*2^g, when the exponents nearly cancel. */
  lemma ScaledFit(u: real, e: int, v: real, g: int, j: nat)
    requires e + 2 * g == -1 - j && j <= 2
    ensures Fit(Scale(u, e), Scale(v, g)) ==
      Fit(u, v) / (if j == 0 then 2.0 else if j == 1 then 4.0 else 8.0)
  {
    ScaleProduct(u, e, v, g);
    ScaleProduct(Times(u, v), e + g, v, g);
    FitIsTimes(Scale(u, e), Scale(v, g));
    FitIsTimes(u, v);
    Halved(Fit(u, v));
  }

  lemma FitIsTimes(x: real, y: real)
    ensures Fit(x, y) == Times(Times(x, y), y)
  {
  }

  lemma Halved(w: real)
    ensures Scale(w, -1) == w / 2.0 && Scale(w, -2) == w / 4.0 && Scale(w, -3) == w / 8.0
  {
    assert Scale(w, -1) == w / 2.0;
    assert Scale(w, -2) == Scale(w, -1) / 2.0;
    assert Scale(w, -3) == Scale(w, -2) / 2.0;
  }

  lemma Quality(u: real, e: int, v: real, g: int, j: nat)
    requires 1.0 <= u <= 2.0 && 1.0 <= v <= 2.0 && j <= 2 && e + 2 * g == -1 - j
    requires 3.8648 + j as real <= u + 2.0 * v <= 3.8652 + j as real
    ensures 0.93 <= Fit(Scale(u, e), Scale(v, g)) <= 1.07
    ensures Scale(v, g) > 0.0
  {
    CubeRange(u, v, j);
    ScaledFit(u, e, v, g, j);
    ScalePositive(v, g);
  }

  lemma CubeRange(u: real, v: real, j: nat)
    requires 1.0 <= u <= 2.0 && 1.0 <= v <= 2.0 && j <= 2
    requires 3.8648 + j as real <= u + 2.0 * v <= 3.8652 + j as real
    ensures j == 0 ==> 1.86 <= Fit(u, v) <= 2.14
    ensures j == 1 ==> 3.72 <= Fit(u, v) <= 4.28
    ensures j == 2 ==> 7.44 <= Fit(u, v) <= 8.56
  {
    MeanBound(u, v, 3.8652 + j as real);
    if j == 0 {
      EvenLow(u, v);
    } else if j == 1 {
      OddLow(u, v);
    } else {
      BorrowLow(u, v);
    }
  }

  lemma MantissaRange(f: Format, m: nat)
    requires m < f.m
    ensures 1.0 <= Mantissa(f, m) <= 2.0
  {
    Ratio(m as real, f.m as real, 0.0, 1.0);
  }

  /** Every finite pattern has a normal positive guess. */
  lemma GuessIsNormal(f: Format, bits: nat) returns (a: Fields, t: nat)
    requires Usable(f) && Finite(f, bits)
    ensures Normal(f, Guess(f, bits))
    ensures a.r <= 1 && a.m < f.m && bits / f.m == 2 * a.k + a.r <= 2 * f.bias && bits % f.m == a.m
    ensures t == a.m / 2 + (if a.r == 1 then f.m / 2 else 0) && bits / 2 == a.k * f.m + t
  {
    a := Split(f.m, bits);
    MixedRadix.OuterTurn(bits, 2 * f.bias + 1, f.m);
    t := a.m / 2 + if a.r == 1 then f.m / 2 else 0;
    assert a.r * (f.m / 2) == if a.r == 1 then f.m / 2 else 0;
    GuessFields(f, bits, a.k, t);
  }

  lemma {:induction false} ScalePositive(u: real, e: int)
    requires u > 0.0
    ensures Scale(u, e) > 0.0
    decreases if e < 0 then -e else e
  {
    if e > 0 {
      ScalePositive(u, e - 1);
    } else if e < 0 {
      ScalePositive(u, e + 1);
    }
  }

  /** Mantissa sums of the three classes: no borrow, a borrow at an odd exponent, a borrow at an even one. */
  lemma MantissaClass(q: nat, c: nat, m: nat, r: nat, t: nat, n: int, j: nat)
    requires q >= 0x80_0000 && q % 2 == 0 && r <= 1 && 4324 * q <= 10000 * c <= 4325 * q
    requires t == m / 2 + (if r == 1 then q / 2 else 0) && n == if t <= c then c - t else c - t + q
    requires j == if t <= c then 0 else if r == 1 then 1 else 2
    ensures 2 * c + Multiple(j, q) <= m + 2 * n <= 2 * c + Multiple(j, q) + 1
    ensures r == 1 ==> t > c
  {
  }

  /** Exponent e and mantissa m of x, exponent y and mantissa n of its guess, for a constant with fields g and c. */
  datatype Parts = Parts(e: int, m: nat, y: int, n: nat, g: int, c: nat)

  /** What the subtraction does to the fields, where e == 2*k + r and t is the lower field of half the pattern. */
  ghost predicate Subtracted(p: Parts, q: nat, k: nat, r: nat, t: nat) {
    && r <= 1 && p.e == 2 * k + r && t == p.m / 2 + (if r == 1 then q / 2 else 0)
    && p.y == p.g - k - (if t <= p.c then 0 else 1) && p.n == p.c - t + (if t <= p.c then 0 else q)
  }

  ghost predicate PartsOf(f: Format, bits: nat, p: Parts)
    requires f.m > 0
  {
    var y := Guess(f, bits);
    p == Parts(bits / f.m, bits % f.m, y / f.m, y % f.m, f.magic / f.m, f.magic % f.m)
  }

  lemma GuessParts(f: Format, bits: nat) returns (p: Parts, k: nat, r: nat, t: nat)
    requires Usable(f) && Finite(f, bits)
    ensures Normal(f, Guess(f, bits)) && PartsOf(f, bits, p) && Subtracted(p, f.m, k, r, t)
  {
    var a;
    a, t := GuessIsNormal(f, bits);
    k, r := a.k, a.r;
    GuessFields(f, bits, k, t);
    var y := Guess(f, bits);
    p := Parts(bits / f.m, bits % f.m, y / f.m, y % f.m, f.magic / f.m, f.magic % f.m);
  }

  /** Exponents and mantissa sum of the three classes of inputs. */
  ghost predicate InClass(p: Parts, q: nat, bias: nat, j: nat) {
    && j <= 2 && p.e - bias + 2 * (p.y - bias) == -1 - j
    && 2 * p.c + Multiple(j, q) <= p.m + 2 * p.n <= 2 * p.c + Multiple(j, q) + 1
  }

  /** q taken j times, for j up to two. */
  function Multiple(j: nat, q: nat): nat {
    if j == 0 then 0 else if j == 1 then q else 2 * q
  }

  lemma PartsClass(p: Parts, q: nat, bias: nat, k: nat, r: nat, t: nat) returns (j: nat)
    requires q >= 0x80_0000 && q % 2 == 0 && 4324 * q <= 10000 * p.c <= 4325 * q
    requires bias % 2 == 1 && p.g == (3 * bias - 1) / 2 && Subtracted(p, q, k, r, t)
    ensures InClass(p, q, bias, j)
  {
    j := if t <= p.c then 0 else if r == 1 then 1 else 2;
    MantissaClass(q, p.c, p.m, r, t, p.n, j);
    ExponentClass(bias, p.g, k, r, if t <= p.c then 0 else 1);
  }

  lemma ExponentClass(bias: nat, g: int, k: nat, r: nat, borrow: nat)
    requires bias % 2 == 1 && g == (3 * bias - 1) / 2
    ensures 2 * k + r - bias + 2 * (g - k - borrow - bias) == r - 1 - 2 * borrow
  {
  }

  lemma SmallMultiple(j: nat, q: nat)
    requires j <= 2
    ensures j * q == Multiple(j, q)
  {
  }

  /** Every positive normal pattern falls into one of the classes. */
  lemma GuessClass(f: Format, bits: nat) returns (p: Parts, j: nat)
    requires Usable(f) && Normal(f, bits)
    ensures Normal(f, Guess(f, bits)) && PartsOf(f, bits, p) && InClass(p, f.m, f.bias, j)
  {
    var k, r, t;
    p, k, r, t := GuessParts(f, bits);
    j := PartsClass(p, f.m, f.bias, k, r, t);
  }

  /** The guess is a normal number, and its square is within seven per cent of 1/x. */
  lemma GuessQuality(f: Format, bits: nat)
    requires Usable(f) && Normal(f, bits)
    ensures Normal(f, Guess(f, bits)) && Value(f, Guess(f, bits)) > 0.0
    ensures 0.93 <= Fit(Value(f, bits), Value(f, Guess(f, bits))) <= 1.07
  {
    var p, j := GuessClass(f, bits);
    SmallMultiple(j, f.m);
    MantissaSum(f, p.m, p.n, p.c, j);
    MantissaRange(f, p.m);
    MantissaRange(f, p.n);
    Quality(Mantissa(f, p.m), p.e - f.bias, Mantissa(f, p.n), p.y - f.bias, j);
  }

  // ---- Newton's iteration over exact reals ----

  function Refined(x2: real, y: real): real { y * (1.5 - (x2 * y * y)) }

  /** One step squares the error: 1 - Fit becomes h*h*(3 + h)/4 for h == 1 - Fit. */
  lemma NewtonStep(x: real, y: real)
    ensures var z, h := Refined(x * 0.5, y), 1.0 - Fit(x, y);
      1.0 - Fit(x, z) == h * h * (3.0 + h) / 4.0 && (y > 0.0 && h > -1.0 ==> z > 0.0)
  {
    var p := x * y * y;
    var z := y * (1.5 - ((x * 0.5) * y * y));
    assert z == y * (1.5 - 0.5 * p);
    var q := 1.5 - 0.5 * p;
    assert x * z * z == p * (q * q) by {
      assert x * (y * q) * (y * q) == (x * y * y) * (q * q);
    }
  }

  lemma ErrorShrinks(h: real, bound: real)
    requires -bound <= h <= bound && 0.0 <= bound <= 0.1
    ensures 0.0 <= h * h * (3.0 + h) / 4.0 <= bound * bound * (3.0 + bound) / 4.0
  {
    var b := bound;
    assert h * h <= b * b by {
      assert b * b - h * h == (b - h) * (b + h);
      Product(b - h, b + h);
    }
    Product(h * h, 3.0 + h);
    Product(b, b);
    Scaled(h * h, b * b, 3.0 + h);
    Scaled(3.0 + h, 3.0 + b, b * b);
  }

  lemma Refines(x: real, y: real, bound: real, next: real)
    requires y > 0.0 && -bound <= 1.0 - Fit(x, y) <= bound && 0.0 <= bound <= 0.1
    requires bound * bound * (3.0 + bound) / 4.0 <= next
    ensures Refined(x * 0.5, y) > 0.0 && 0.0 <= 1.0 - Fit(x, Refined(x * 0.5, y)) <= next
  {
    NewtonStep(x, y);
    ErrorShrinks(1.0 - Fit(x, y), bound);
  }

  /** The error that one step leaves of an error h. */
  function NextError(h: real): real { h * h * (3.0 + h) / 4.0 }

  /** Both in numbers: the fit is x*y*y, and the error left is of the order of the square. */
  lemma FitAndErrorAre(x: real, y: real, h: real)
    ensures Fit(x, y) == x * y * y && 4.0 * NextError(h) == 3.0 * h * h + h * h * h
  {
  }

  /** The refinement: the error of the result is exact for every guess, and small for one within seven per cent. */
  method Newton(x: real, guess: real, iterations: nat) returns (y: real)
    requires 1 <= iterations <= 2
    ensures var e := NextError(1.0 - Fit(x, guess)); 1.0 - Fit(x, y) == if iterations == 1 then e else NextError(e)
    ensures guess > 0.0 && 0.93 <= Fit(x, guess) <= 1.07 ==> y > 0.0
    ensures guess > 0.0 && 0.93 <= Fit(x, guess) <= 1.07 ==>
      0.0 <= 1.0 - Fit(x, y) <= if iterations == 1 then 0.004 else 0.0000125
  {
    y := guess;
    var x2 := x * 0.5;
    NewtonStep(x, y);
    NewtonStep(x, Refined(x2, y));
    if guess > 0.0 && 0.93 <= Fit(x, guess) <= 1.07 {
      Refines(x, y, 0.07, 0.004);
      Refines(x, Refined(x2, y), 0.004, 0.0000125);
    }
    y := Refined(x2, y);
    if iterations == 2 {
      y := Refined(x2, y);
    }
  }

  /**
   inv_sqrt<T, iterations> on a finite bit pattern that is not negative.  For every positive
   normal input the result is below 1/sqrt(x) and its square is within 0.4% (one step) or
   0.00125% (two steps) of 1/x.
   */
  method InvSqrt(f: Format, bits: nat, iterations: nat) returns (y: real)
    requires Usable(f) && Finite(f, bits) && 1 <= iterations <= 2
    ensures Normal(f, bits) ==> y > 0.0
    ensures Normal(f, bits) ==> 0.0 <= 1.0 - Fit(Value(f, bits), y) <= if iterations == 1 then 0.004 else 0.0000125
    ensures f.magic - bits / 2 >= 0
    ensures var x, g := Value(f, bits), Value(f, f.magic - bits / 2); var e := NextError(1.0 - Fit(x, g));
      1.0 - Fit(x, y) == if iterations == 1 then e else NextError(e)
  {
    ghost var _, _ := GuessIsNormal(f, bits);
    var i := f.magic - bits / 2;
    if Normal(f, bits) {
      GuessQuality(f, bits);
    }
    y := Newton(Value(f, bits), Value(f, i), iterations);
  }

  /** Four, as a float: the guess is 0x3ef759df, and two steps come within 0.0001 of one half, from below. */
  method FourExample() returns (guess: int, y: real)
    ensures Value(SINGLE, 0x4080_0000) == 4.0 && guess == Guess(SINGLE, 0x4080_0000) == 0x3ef7_59df
    ensures 0.4999 <= y <= 0.5
  {
    FormatsAreUsable();
    ValueFour();
    guess := SINGLE.magic - 0x4080_0000 / 2;
    y := InvSqrt(SINGLE, 0x4080_0000, 2);
    FitAndErrorAre(4.0, y, 0.0);
    if y < 0.4999 {
      Scaled(y, 0.4999, y);
      Scaled(y, 0.4999, 0.4999);
    }
    if y > 0.5 {
      Scaled(0.5, y, 0.5);
      Scaled(0.5, y, y);
    }
  }

  lemma ValueFour()
    ensures Value(SINGLE, 0x4080_0000) == 4.0
  {
    ValueOne(SINGLE);
    ValueDoubles(SINGLE, 0x3f80_0000);
    ValueDoubles(SINGLE, 0x4000_0000);
  }
}
