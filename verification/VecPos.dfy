/**
 VecPos of dev/v.cpp: logical offsets to coordinate vectors (l2pos) and back to offsets
 (vpos2phys), lane by lane, in wrapping 64-bit arithmetic.
 */
module VecPos {
  import opened MixedRadix

  /** Every tensor dimension is a nonzero 64-bit number. */
  ghost predicate Tensor(t: seq<nat>) {
    forall d :: 0 <= d < |t| ==> 0 < t[d] < TWO64
  }

  ghost predicate Words(s: seq<nat>) {
    forall i :: 0 <= i < |s| ==> s[i] < TWO64
  }

  /** The product of dimensions d, d+1, ... without wrap-around. */
  ghost function Stride(t: seq<nat>, d: nat): nat
    requires d <= |t|
    decreases |t| - d
  {
    if d == |t| then 1 else Stride(t, d + 1) * t[d]
  }

  /** What dimensions d, d+1, ... of coordinates c contribute to the offset, without wrap-around. */
  ghost function Offset(t: seq<nat>, c: seq<nat>, d: nat): nat
    requires d <= |t| == |c|
    decreases |t| - d
  {
    if d == |t| then 0 else Offset(t, c, d + 1) + c[d] * Stride(t, d + 1)
  }

  lemma {:induction false} StrideDropsLast(t: seq<nat>, d: nat)
    requires d < |t|
    ensures Stride(t, d) == Stride(t[..|t| - 1], d) * t[|t| - 1]
    decreases |t| - d
  {
    var i := |t| - 1;
    if d < i {
      StrideDropsLast(t, d + 1);
      var x := Stride(t[..i], d + 1);
      assert (x * t[i]) * t[d] == (x * t[d]) * t[i];
    }
  }

  lemma Regroup(o: nat, k: nat, last: nat, x: nat, s: nat)
    ensures (o * k + last) + x * (s * k) == (o + x * s) * k + last
  {
    assert x * (s * k) == (x * s) * k;
  }

  lemma {:induction false} OffsetDropsLast(t: seq<nat>, c: seq<nat>, d: nat)
    requires d < |t| == |c|
    ensures Offset(t, c, d) == Offset(t[..|t| - 1], c[..|t| - 1], d) * t[|t| - 1] + c[|t| - 1]
    decreases |t| - d
  {
    var i := |t| - 1;
    if d < i {
      OffsetDropsLast(t, c, d + 1);
      StrideDropsLast(t, d + 1);
      Regroup(Offset(t[..i], c[..i], d + 1), t[i], c[i], c[d], Stride(t[..i], d + 1));
    }
  }

  /** The sum of coordinate times stride is the Horner form. */
  lemma {:induction false} OffsetIsNumber(t: seq<nat>, c: seq<nat>)
    requires |t| == |c|
    ensures Offset(t, c, 0) == Number(t, c)
  {
    if |t| > 0 {
      OffsetDropsLast(t, c, 0);
      OffsetIsNumber(t[..|t| - 1], c[..|t| - 1]);
    }
  }

  /** Wrapping the sum, and the stride in it, only loses multiples of 2^64. */
  lemma WrapStep(p: nat, x: nat, s: nat)
    ensures (p % TWO64 + x * (s % TWO64)) % TWO64 == (p + x * s) % TWO64
  {
    var a, b := p / TWO64, s / TWO64;
    assert p + x * s == (p % TWO64 + x * (s % TWO64)) + (a + x * b) * TWO64;
    SameRemainder(p % TWO64 + x * (s % TWO64), a + x * b);
  }

  class VecPos {
    const maxd: nat
    const mvl: nat
    const vp: array2<nat>  // vp[dim][pos]
    var npos: nat
    var dims: nat

    ghost predicate Valid()
      reads this
    {
      vp.Length0 == maxd && vp.Length1 == mvl && npos <= mvl && dims <= maxd
    }

    constructor (maxd: nat, mvl: nat, npos: nat, dims: nat)
      requires npos <= mvl && dims <= maxd
      ensures Valid() && fresh(vp) && this.maxd == maxd && this.mvl == mvl && this.npos == npos && this.dims == dims
    {
      this.maxd, this.mvl, this.npos, this.dims := maxd, mvl, npos, dims;
      vp := new nat[maxd, mvl]((_, _) => 0);
    }

    /** The coordinate vector of position p. */
    function Position(p: nat): (c: seq<nat>)
      requires Valid() && p < npos
      reads this, vp
      ensures |c| == dims && forall d :: 0 <= d < dims ==> c[d] == vp[d, p]
    {
      var n := dims;
      seq(n, d requires 0 <= d < n <= vp.Length0 && p < vp.Length1 reads vp => vp[d, p])
    }

    /** coords: position p padded with zeros to maxd entries. */
    method Coords(p: nat) returns (ret: array<nat>)
      requires Valid() && p < npos
      ensures fresh(ret) && ret[..] == Position(p) + seq(maxd - dims, _ => 0)
    {
      ret := new nat[maxd](_ => 0);
      for i := 0 to dims
        invariant forall d :: 0 <= d < i ==> ret[d] == vp[d, p]
      {
        ret[i] := vp[i, p];
      }
      for i := dims to maxd
        invariant forall d :: 0 <= d < dims ==> ret[d] == vp[d, p]
        invariant forall d :: dims <= d < i ==> ret[d] == 0
      {
        ret[i] := 0;
      }
    }

    /** Logical offsets to coordinates: remainders and quotients, innermost dimension first. */
    method L2Pos(t: seq<nat>, loff: seq<nat>)
      requires Valid() && 0 < |t| <= maxd && 0 < |loff| <= mvl && Tensor(t) && Words(loff)
      modifies this`npos, this`dims, vp
      ensures Valid() && npos == |loff| && dims == |t|
      ensures forall l :: 0 <= l < npos ==> Position(l) == Digits(t, loff[l])
    {
      dims, npos := |t|, |loff|;
      var off := new nat[mvl](_ => 0);
      for i := 0 to npos
        modifies off
        invariant forall l :: 0 <= l < i ==> off[l] == loff[l]
      {
        off[i] := loff[i];
      }
      ghost var a := Divisions(t, loff);
      for d := 0 to dims
        modifies vp, off
        invariant forall l :: 0 <= l < npos ==> off[l] == a[l].rest[dims - d]
        invariant forall l, e :: 0 <= l < npos && dims - d <= e < dims ==> vp[e, l] == a[l].digit[e]
      {
        var rd := dims - 1 - d;
        DivideLanes(vp, rd, npos, t[rd], off, t, a);
      }
      forall l | 0 <= l < npos ensures Position(l) == Digits(t, loff[l]) {
        DigitsOfRest(a[l], t);
        assert Position(l) == a[l].digit;
      }
    }

    /** Coordinates back to offsets: coordinate times a running stride, both modulo 2^64. */
    method Vpos2Phys(t: seq<nat>) returns (poff: seq<nat>)
      requires Valid() && |t| >= dims && Words(t)
      requires forall l :: 0 <= l < npos ==> Words(Position(l))
      ensures |poff| == npos
      ensures forall l :: 0 <= l < npos ==> poff[l] == Number(t[..dims], Position(l)) % TWO64
    {
      var phys := new nat[mvl](_ => 0);
      for l := 0 to npos
        invariant forall m :: 0 <= m < l ==> phys[m] == 0
      {
        phys[l] := 0;
      }
      ghost var w := t[..dims];
      ghost var strides := Strides(w);
      ghost var c := seq(npos, l requires 0 <= l < npos && Valid() reads this, vp => Position(l));
      ghost var a := AllSums(w, strides, c);
      var stride: nat := 1;
      var d: nat := dims;
      while d > 0
        invariant d <= dims && stride == strides[d]
        invariant forall l :: 0 <= l < npos ==> phys[l] == a[l][d]
      {
        d := d - 1;
        AddLanes(vp, d, npos, stride, phys, w, strides, c, a);
        stride := stride * t[d] % TWO64;
      }
      poff := phys[..npos];
    }
  }

  /** One dimension of vpos2phys: every lane adds its coordinate times the stride. */
  method AddLanes(vp: array2<nat>, d: nat, n: nat, stride: nat, phys: array<nat>,
                  ghost t: seq<nat>, ghost strides: seq<nat>, ghost c: seq<seq<nat>>, ghost a: seq<seq<nat>>)
    requires d < |t| <= vp.Length0 && n == |c| == |a| <= vp.Length1 && n <= phys.Length
    requires |strides| == |t| + 1 && stride == strides[d + 1]
    requires forall l :: 0 <= l < n ==> |c[l]| == |t| && c[l][d] == vp[d, l]
    requires forall l :: 0 <= l < n ==> |a[l]| == |t| + 1 && AddsUp(t, strides, c[l], a[l])
    requires forall l :: 0 <= l < n ==> phys[l] == a[l][d + 1]
    modifies phys
    ensures forall l :: 0 <= l < n ==> phys[l] == a[l][d]
  {
    for l := 0 to n
      invariant forall m :: 0 <= m < l ==> phys[m] == a[m][d]
      invariant forall m :: l <= m < n ==> phys[m] == a[m][d + 1]
    {
      assert AddsUp(t, strides, c[l], a[l]);
      phys[l] := (phys[l] + vp[d, l] * stride) % TWO64;
    }
  }

  /** The running stride, as it wraps. */
  ghost function Strides(t: seq<nat>): (s: seq<nat>)
    ensures |s| == |t| + 1 && s[|t|] == 1
    ensures forall d :: 0 <= d < |t| ==> s[d] == s[d + 1] * t[d] % TWO64
  {
    var s := seq(|t| + 1, d requires 0 <= d <= |t| => Stride(t, d) % TWO64);
    assert forall d :: 0 <= d < |t| ==> s[d] == s[d + 1] * t[d] % TWO64 by {
      forall d | 0 <= d < |t| ensures s[d] == s[d + 1] * t[d] % TWO64 {
        WrapTimes(Stride(t, d + 1), t[d]);
      }
    }
    s
  }

  ghost predicate AddsUp(t: seq<nat>, strides: seq<nat>, c: seq<nat>, a: seq<nat>)
    requires |t| == |c| && |strides| == |t| + 1
  {
    && |a| == |t| + 1 && a[|t|] == 0
    && forall d :: 0 <= d < |t| ==> a[d] == (a[d + 1] + c[d] * strides[d + 1]) % TWO64
  }

  lemma SumStep(t: seq<nat>, c: seq<nat>, d: nat)
    requires |t| == |c| && d < |t|
    ensures Offset(t, c, d) % TWO64 == (Offset(t, c, d + 1) % TWO64 + c[d] * Strides(t)[d + 1]) % TWO64
  {
    WrapStep(Offset(t, c, d + 1), c[d], Stride(t, d + 1));
  }

  /** The running sums of every lane, as they wrap; they end at the offsets. */
  lemma AllSums(t: seq<nat>, strides: seq<nat>, c: seq<seq<nat>>) returns (a: seq<seq<nat>>)
    requires strides == Strides(t) && forall l :: 0 <= l < |c| ==> |c[l]| == |t|
    ensures |a| == |c|
    ensures forall l :: 0 <= l < |c| ==> AddsUp(t, strides, c[l], a[l]) && a[l][0] == Number(t, c[l]) % TWO64
  {
    a := seq(|c|, l requires 0 <= l < |c| => Sums(t, c[l]));
    forall l | 0 <= l < |c| ensures AddsUp(t, strides, c[l], a[l]) && a[l][0] == Number(t, c[l]) % TWO64 {
      forall d | 0 <= d < |t| ensures a[l][d] == (a[l][d + 1] + c[l][d] * strides[d + 1]) % TWO64 {
        SumStep(t, c[l], d);
      }
      OffsetIsNumber(t, c[l]);
    }
  }

  ghost function Sums(t: seq<nat>, c: seq<nat>): (a: seq<nat>)
    requires |t| == |c|
  {
    seq(|t| + 1, d requires 0 <= d <= |t| => Offset(t, c, d) % TWO64)
  }

  ghost predicate Divides(a: Chain, t: seq<nat>) {
    && |a.digit| == |t| && |a.rest| == |t| + 1 && Positive(t)
    && forall d: nat :: d < |t| ==> a.StepAt(d, 0, t[d])
  }

  lemma {:induction false} RestIsCarry(a: Chain, t: seq<nat>, d: nat)
    requires Divides(a, t) && d <= |t|
    ensures a.rest[d] == Carry(t, d, a.rest[|t|])
    decreases |t| - d
  {
    if d < |t| {
      RestIsCarry(a, t, d + 1);
      assert a.StepAt(d, 0, t[d]);
    }
  }

  lemma DigitsOfRest(a: Chain, t: seq<nat>)
    requires Divides(a, t)
    ensures a.digit == Digits(t, a.rest[|t|])
  {
    forall d | 0 <= d < |t| ensures a.digit[d] == Digits(t, a.rest[|t|])[d] {
      assert a.StepAt(d, 0, t[d]);
      RestIsCarry(a, t, d + 1);
      DigitFromCarry(t, d, a.rest[|t|]);
    }
  }

  lemma Divisions(t: seq<nat>, loff: seq<nat>) returns (a: seq<Chain>)
    requires Positive(t)
    ensures |a| == |loff|
    ensures forall l :: 0 <= l < |a| ==> Divides(a[l], t) && a[l].rest[|t|] == loff[l]
  {
    a := seq(|loff|, l requires 0 <= l < |loff| => Chain(
      seq(|t| + 1, d requires 0 <= d <= |t| => Carry(t, d, loff[l])),
      seq(|t|, d requires 0 <= d < |t| => Carry(t, d + 1, loff[l]) % t[d])));
  }

  /** One dimension of l2pos: every lane stores its remainder and keeps its quotient. */
  method DivideLanes(vp: array2<nat>, rd: nat, n: nat, curDim: nat, off: array<nat>,
                     ghost t: seq<nat>, ghost a: seq<Chain>)
    requires rd < |t| <= vp.Length0 && n == |a| <= vp.Length1 && n <= off.Length && curDim == t[rd] > 0
    requires forall l :: 0 <= l < n ==> |a[l].rest| == |t| + 1 && |a[l].digit| == |t| && Divides(a[l], t)
    requires forall l :: 0 <= l < n ==> off[l] == a[l].rest[rd + 1]
    modifies vp, off
    ensures forall l :: 0 <= l < n ==> off[l] == a[l].rest[rd] && vp[rd, l] == a[l].digit[rd]
    ensures forall e, l :: 0 <= e < vp.Length0 && 0 <= l < vp.Length1 && e != rd ==> vp[e, l] == old(vp[e, l])
  {
    for l := 0 to n
      invariant forall m :: 0 <= m < l ==> off[m] == a[m].rest[rd] && vp[rd, m] == a[m].digit[rd]
      invariant forall m :: l <= m < n ==> off[m] == a[m].rest[rd + 1]
      invariant forall e, m :: 0 <= e < vp.Length0 && 0 <= m < vp.Length1 && e != rd ==> vp[e, m] == old(vp[e, m])
    {
      assert a[l].StepAt(rd, 0, t[rd]);
      var rem := off[l] % curDim;
      off[l] := off[l] / curDim;
      vp[rd, l] := rem;
    }
  }

  /**
   The round trip: for every 64-bit offset and all nonzero dimensions, even when the product
   of the dimensions exceeds 2^64, going to coordinates and back gives the offset modulo
   the true product, hence the offset itself when it is in range.
   */
  method RoundTrip(maxd: nat, mvl: nat, t: seq<nat>, loff: seq<nat>) returns (poff: seq<nat>)
    requires 0 < |t| <= maxd && 0 < |loff| <= mvl && Tensor(t) && Words(loff)
    ensures |poff| == |loff| && Product(t) > 0
    ensures forall l :: 0 <= l < |loff| ==> poff[l] == loff[l] % Product(t)
    ensures forall l :: 0 <= l < |loff| && loff[l] < Product(t) ==> poff[l] == loff[l]
  {
    var v := new VecPos(maxd, mvl, |loff|, |t|);
    v.L2Pos(t, loff);
    ProductPositive(t);
    assert forall l :: 0 <= l < |loff| ==> Words(v.Position(l)) by {
      forall l | 0 <= l < |loff| ensures Words(v.Position(l)) {
        assert v.Position(l) == Digits(t, loff[l]) && InRange(t, Digits(t, loff[l]));
      }
    }
    poff := v.Vpos2Phys(t);
    assert t[..|t|] == t;
    forall l | 0 <= l < |loff|
      ensures poff[l] == loff[l] % Product(t) && (loff[l] < Product(t) ==> poff[l] == loff[l])
    {
      Recovered(t, loff[l]);
    }
  }

  lemma Remainder(p: nat, n: nat)
    requires n > 0 && p < TWO64
    ensures (p % n) % TWO64 == p % n
    ensures p < n ==> p % n == p
  {
    if p >= n {
      assert (p / n) * n >= 0;
    } else {
      UniqueDivMod(p, 0, n, p);
    }
  }

  lemma Recovered(t: seq<nat>, p: nat)
    requires Tensor(t) && p < TWO64
    ensures Positive(t) && Product(t) > 0 && Number(t, Digits(t, p)) % TWO64 == p % Product(t)
    ensures p < Product(t) ==> p % Product(t) == p
  {
    NumberOfDigits(t, p);
    Remainder(p, Product(t));
  }

  /** The other way round: all coordinates survive a trip through their offset exactly when every offset fits a word. */
  lemma CoordinatesRecovered(t: seq<nat>)
    requires Positive(t)
    ensures (forall c :: InRange(t, c) ==> Digits(t, Number(t, c) % TWO64) == c) <==> Product(t) <= TWO64
  {
    if Product(t) <= TWO64 {
      forall c | InRange(t, c) ensures Digits(t, Number(t, c) % TWO64) == c {
        NumberBound(t, c);
        Remainder(Number(t, c), TWO64);
        DigitsOfNumber(t, c);
      }
    } else {
      CoordinatesLost(t);
    }
  }

  /** Beyond that, the coordinates of offset 2^64 come back as those of offset 0. */
  lemma CoordinatesLost(t: seq<nat>)
    requires Positive(t) && Product(t) > TWO64
    ensures var c := Digits(t, TWO64); InRange(t, c) && Digits(t, Number(t, c) % TWO64) == Digits(t, 0) != c
  {
    NumberOfDigits(t, TWO64);
    NumberOfDigits(t, 0);
    UniqueDivMod(TWO64, 0, Product(t), TWO64);
    UniqueDivMod(0, 0, Product(t), 0);
  }
}
