/**
 The batch iterator of dev/thr.cpp.  CoordsVP, CoordsForNd and CoordsFor keep the same
 fields and run the same set/step code; class Coords models them once.  Positions are
 64-bit (size_t) and coordinates 32-bit (unsigned); sums and products wrap explicitly.
 */
module Coords {
  import opened MixedRadix
  import opened NestedLoops
  import opened Odometer

  const TWO32: nat := 0x1_0000_0000

  ghost predicate Loopable(r: seq<Range>) {
    forall d :: 0 <= d < |r| ==> r[d].lo <= r[d].hi < TWO32
  }

  /** The loop count as size_t arithmetic computes it. */
  ghost function Size(r: seq<Range>): (n: nat)
    ensures n <= |Nest(r)|
    ensures n > 0 ==> Positive(Spans(r))
  {
    NestLength(r);
    ProductPositive(Spans(r));
    Product(Spans(r)) % TWO64
  }

  class Coords {
    const mvl: nat
    const maxDims: nat
    const ilo: array<nat>
    const ihi: array<nat>
    const vp: array2<nat>
    var dim: nat
    var vl: nat
    var sz: nat
    var pos: nat
    ghost var ranges: seq<Range>  // what ilo and ihi hold below dim

    ghost predicate Shaped()
      reads this, ilo, ihi
    {
      && 0 < mvl < TWO32
      && ilo.Length == ihi.Length == vp.Length0 == maxDims && vp.Length1 == mvl
      && ilo != ihi
      && |ranges| == dim <= maxDims
      && forall d :: 0 <= d < dim ==> ranges[d] == Range(ilo[d], ihi[d])
    }

    /** The ranges are set up and sz positions of their nest are to be visited (none at first). */
    ghost predicate Configured()
      reads this, ilo, ihi
    {
      && Shaped()
      && Loopable(ranges)
      && sz <= |Nest(ranges)| && sz < TWO64
    }

    /** The object invariant. */
    ghost predicate Valid()
      reads this, ilo, ihi
    {
      Configured() && pos <= sz && vl <= mvl
    }

    /** What the assert at the head of a step demands: a current batch, unless exhausted. */
    ghost predicate Steppable()
      reads this
    {
      pos < sz ==> vl > 0
    }

    /** The sums of a step do not wrap: neither the next position nor, if there is a next batch, the end it could have. */
    ghost predicate Roomy()
      reads this
    {
      pos < sz ==> pos + vl < TWO64 && (pos + vl < sz ==> pos + vl + mvl < TWO64)
    }

    /** Lane i of the register file as one coordinate vector. */
    function Lane(i: nat): (c: seq<nat>)
      requires dim <= vp.Length0 && i < vp.Length1
      reads this`dim, vp
      ensures |c| == dim && forall d :: 0 <= d < dim ==> c[d] == vp[d, i]
    {
      var n := dim;
      seq(n, d requires 0 <= d < n <= vp.Length0 && i < vp.Length1 reads vp => vp[d, i])
    }

    /** Lanes at .. at+n hold body executions first .. first+n of the loop nest. */
    ghost predicate Holds(at: nat, n: nat, first: nat)
      requires dim <= vp.Length0 && at + n <= vp.Length1 && first + n <= |Nest(ranges)|
      reads this`dim, this`ranges, vp
    {
      forall i :: at <= i < at + n ==> Lane(i) == Nest(ranges)[first + (i - at)]
    }

    /** Lanes at .. at+n hold what the division chain gives for the positions from first on, as 64-bit sums. */
    ghost predicate Decoded(at: nat, n: nat, first: nat)
      requires dim <= vp.Length0 && at + n <= vp.Length1
      reads this`dim, this`ranges, vp
    {
      Positive(Spans(ranges)) && forall i :: at <= i < at + n ==> Lane(i) == At(ranges, Word(first, i - at))
    }

    /** Inside the nest that is the nest. */
    lemma DecodedInNest(at: nat, n: nat, first: nat)
      requires Configured() && at + n <= mvl && first + n <= sz && Decoded(at, n, first)
      ensures Holds(at, n, first)
    {
      forall i | at <= i < at + n ensures Lane(i) == Nest(ranges)[first + (i - at)] {
        NestIsDecode(ranges, first + (i - at));
      }
    }

    /** With something left to visit no span is zero. */
    lemma NoEmptySpan()
      requires Configured() && sz > 0
      ensures Positive(Spans(ranges))
    {
      NestLength(ranges);
      ProductPositive(Spans(ranges));
    }

    /** Cells outside dimensions 0 .. dim and lanes at .. at+n are as they were. */
    twostate predicate OnlyLanes(at: nat, n: nat)
      reads this, vp
    {
      forall d, i :: 0 <= d < vp.Length0 && 0 <= i < vp.Length1 && !(d < dim && at <= i < at + n) ==>
        vp[d, i] == old(vp[d, i])
    }

    /** Nothing is set up yet. */
    constructor (mvl: nat, maxDims: nat)
      requires 0 < mvl < TWO32
      ensures Valid() && Steppable() && fresh(ilo) && fresh(ihi) && fresh(vp)
      ensures this.mvl == mvl && this.maxDims == maxDims && dim == vl == sz == pos == 0
    {
      this.mvl, this.maxDims := mvl, maxDims;
      ilo, ihi, vp := new nat[maxDims](_ => 0), new nat[maxDims](_ => 0), new nat[maxDims, mvl]((_, _) => 0);
      dim, vl, sz, pos, ranges := 0, 0, 0, 0, [];
    }

    /**
     The constructor with dim and vl arguments.  Its clamps assign the parameters, which
     shadow the fields, so the fields keep whatever was passed: the object invariant holds
     exactly when the caller stayed within both limits.
     */
    constructor Sized(mvl: nat, maxDims: nat, d: nat, v: nat)
      requires 0 < mvl < TWO32
      ensures this.mvl == mvl && this.maxDims == maxDims && dim == d && vl == v && sz == pos == 0
      ensures fresh(ilo) && fresh(ihi) && fresh(vp)
      ensures Valid() <==> d <= maxDims && v <= mvl
    {
      this.mvl, this.maxDims := mvl, maxDims;
      ilo, ihi, vp := new nat[maxDims](_ => 0), new nat[maxDims](_ => 0), new nat[maxDims, mvl]((_, _) => 0);
      dim, vl, sz, pos, ranges := d, v, 0, 0, seq(d, _ => Range(0, 0));
      var dimArgument, vlArgument := d, v;
      if dimArgument > maxDims {
        dimArgument := maxDims;
      }
      if vlArgument > mvl {
        vlArgument := mvl;
      }
    }

    /** Stores the ranges (iter_range). */
    method SetRanges(r: seq<Range>)
      requires Shaped() && |r| <= maxDims
      modifies this`dim, this`ranges, ilo, ihi
      ensures Shaped() && ranges == r
    {
      for d := 0 to |r|
        invariant forall e :: 0 <= e < d ==> Range(ilo[e], ihi[e]) == r[e]
      {
        ilo[d] := r[d].lo;
        ihi[d] := r[d].hi;
      }
      dim := |r|;
      ranges := r;
    }

    /** The product of the spans in wrapping size_t arithmetic. */
    method TotalSize() returns (n: nat)
      requires Shaped() && Loopable(ranges)
      ensures n == Size(ranges)
    {
      n := 1;
      ghost var s := Spans(ranges);
      for d := 0 to dim
        invariant n == Product(s[..d]) % TWO64
      {
        assert s[..d + 1][..d] == s[..d];
        WrapTimes(Product(s[..d]), s[d]);
        n := n * (ihi[d] - ilo[d]) % TWO64;
      }
      assert s[..dim] == s;
    }

    /**
     The vectorised fill: dimensions outermost, lanes innermost, one carry per lane.
     No span is zero, because some position is left to decode.
     */
    method FillByDimension(first: nat)
      requires Valid() && 0 < vl && 0 < sz && first < TWO64
      modifies vp
      ensures Decoded(0, vl, first) && OnlyLanes(0, vl)
    {
      NoEmptySpan();
      ghost var t := Division(ranges, first, vl);
      var carry := new nat[mvl](_ => 0);
      for i := 0 to vl
        modifies carry
        invariant forall j :: 0 <= j < i ==> carry[j] == Word(first, j)
      {
        carry[i] := Word(first, i);
      }
      var d: nat := dim;
      while d > 0
        invariant d <= dim
        invariant forall j :: 0 <= j < vl ==> carry[j] == t[j].rest[d]
        invariant forall e, j :: d <= e < dim && 0 <= j < vl ==> vp[e, j] == t[j].digit[e]
        invariant OnlyLanes(0, vl)
      {
        d := d - 1;
        FillDimension(vp, d, vl, Range(ilo[d], ihi[d]), carry, ranges, first, t);
      }
      LanesDecoded(0, first, t);
    }

    /** Lanes that hold the digits of the chains hold the coordinates of the positions. */
    lemma LanesDecoded(at: nat, first: nat, t: seq<Chain>)
      requires dim <= vp.Length0 && at + |t| <= vp.Length1 && Positive(Spans(ranges))
      requires forall i, d :: 0 <= i < |t| && 0 <= d < dim ==> d < |t[i].digit| && vp[d, at + i] == t[i].digit[d]
      requires forall i {:trigger Computes(t[i], ranges, first, i)} :: 0 <= i < |t| ==> Computes(t[i], ranges, first, i)
      requires |ranges| == dim
      ensures Decoded(at, |t|, first)
    {
      forall i | at <= i < at + |t| ensures Lane(i) == At(ranges, Word(first, i - at)) {
        assert Computes(t[i - at], ranges, first, i - at);
        assert Lane(i) == t[i - at].digit;
      }
    }

    /** One lane of the scalar fill. */
    method FillLane(i: nat, p: nat)
      requires Valid() && i < mvl && 0 < sz && p < TWO64
      modifies vp
      ensures Positive(Spans(ranges)) && Lane(i) == At(ranges, p) && OnlyLanes(i, 1)
    {
      NoEmptySpan();
      ghost var t := ChainOf(ranges, p);
      DivideLane(i, p, t);
      assert Lane(i) == t.digit;
    }

    /** Its loop over the dimensions. */
    method DivideLane(i: nat, p: nat, ghost t: Chain)
      requires Valid() && i < mvl && Dividing(t, ranges) && t.rest[dim] == p
      modifies vp
      ensures OnlyLanes(i, 1) && forall d :: 0 <= d < dim ==> vp[d, i] == t.digit[d]
    {
      var carry := p;
      var d: nat := dim;
      while d > 0
        invariant d <= dim
        invariant carry == t.rest[d]
        invariant forall e :: d <= e < dim ==> vp[e, i] == t.digit[e]
        invariant OnlyLanes(i, 1)
      {
        d := d - 1;
        assert Divides(t, ranges, d);
        var coord;
        coord, carry := TakeDigit(Range(ilo[d], ihi[d]), carry, t, ranges, d);
        vp[d, i] := coord;
      }
    }

    /** The scalar fill: one lane after the other, one carry variable. */
    method FillByLane(at: nat, n: nat, first: nat)
      requires Valid() && at + n <= mvl && 0 < sz && first < TWO64
      modifies vp
      ensures Decoded(at, n, first) && OnlyLanes(at, n)
    {
      NoEmptySpan();
      ghost var t := Division(ranges, first, n);
      for i := 0 to n
        invariant forall j, d :: 0 <= j < i && 0 <= d < dim ==> vp[d, at + j] == t[j].digit[d]
        invariant OnlyLanes(at, n)
      {
        DivideLane(at + i, Word(first, i), t[i]);
      }
      LanesDecoded(at, first, t);
    }

    /** The state every positioning call leaves: the lanes decoded from lin on, or exhaustion. */
    ghost predicate AtPlace(lin: nat)
      requires Valid()
      reads this, vp, ilo, ihi
    {
      if lin >= sz then pos == sz && vl == 0
      else pos == lin && vl == BatchLength(sz, mvl, lin) && Decoded(0, vl, lin)
    }

    /** What it should be: the batch of the nest that starts at lin, or exhaustion. */
    ghost predicate AtBatch(lin: nat)
      requires Valid()
      reads this, vp, ilo, ihi
    {
      if lin >= sz then pos == sz && vl == 0
      else pos == lin && vl == (if sz - lin < mvl then sz - lin else mvl) && Holds(0, vl, lin)
    }

    /**
     Positions the batch (pos and vl) at lin without touching the registers.  The batch ends within
     the nest exactly when pos + vl does not wrap, which it cannot when sz + mvl fits.
     */
    method Place(lin: nat) returns (more: bool)
      requires Shaped() && sz < TWO64 && lin < TWO64
      modifies this`pos, this`vl
      ensures Steppable() && more == (lin < sz) == (vl > 0)
      ensures lin >= sz ==> pos == sz && vl == 0
      ensures lin < sz ==> pos == lin && (pos + vl <= sz <==> lin + mvl < TWO64)
      ensures lin < sz ==> vl == BatchLength(sz, mvl, lin)
      ensures old(Configured()) ==> Valid()
    {
      if lin >= sz {
        pos := sz;
        vl := 0;
        return false;
      }
      pos := lin;
      vl := mvl;
      if Word(pos, vl) > sz {
        vl := sz - pos;
      }
      return true;
    }

    /** Without a wrap the place is the batch. */
    lemma PlaceIsBatch(lin: nat)
      requires Valid() && AtPlace(lin) && (lin < sz ==> lin + mvl < TWO64)
      ensures AtBatch(lin)
    {
      if lin < sz {
        DecodedInNest(0, vl, lin);
      }
    }

    /** init_nd (CoordsForNd), init (CoordsFor), iter_set_nd (CoordsVP): decode a batch at lin. */
    method InitNd(lin: nat) returns (more: bool)
      requires Configured() && lin < TWO64
      modifies this`pos, this`vl, vp
      ensures Valid() && Steppable() && AtPlace(lin) && more == (lin < sz) == (vl > 0)
      ensures (lin < sz ==> lin + mvl < TWO64) ==> AtBatch(lin)
      ensures OnlyLanes(0, vl)
    {
      more := Place(lin);
      if more {
        FillByDimension(pos);
      }
      if lin < sz ==> lin + mvl < TWO64 {
        PlaceIsBatch(lin);
      }
    }

    /** The same decode with the loops exchanged (the variant marked unvectorizable). */
    method InitByLane(lin: nat) returns (more: bool)
      requires Configured() && lin < TWO64
      modifies this`pos, this`vl, vp
      ensures Valid() && Steppable() && AtPlace(lin) && more == (lin < sz) == (vl > 0)
      ensures (lin < sz ==> lin + mvl < TWO64) ==> AtBatch(lin)
      ensures OnlyLanes(0, vl)
    {
      more := Place(lin);
      if more {
        FillByLane(0, vl, pos);
      }
      if lin < sz ==> lin + mvl < TWO64 {
        PlaceIsBatch(lin);
      }
    }

    /** Sets up the loop nest r and decodes its first batch at position p. */
    method InitAt(p: nat, r: seq<Range>) returns (more: bool)
      requires Shaped() && 0 < |r| <= maxDims && Loopable(r) && p < TWO64
      modifies this, ilo, ihi, vp
      ensures Valid() && Steppable() && ranges == r && sz == Size(r)
      ensures AtPlace(p) && more == (p < sz) == (vl > 0)
      ensures (p < sz ==> p + mvl < TWO64) ==> AtBatch(p)
    {
      SetRanges(r);
      sz := TotalSize();
      more := InitNd(p);
    }

    /**
     The next batch.  An exhausted iterator stays as it is.  A step goes back, to positions visited
     before, exactly if pos + vl wraps.
     */
    method Step() returns (more: bool)
      requires Valid() && Steppable()
      modifies this`pos, this`vl, vp
      ensures Valid() && Steppable() && more == (vl > 0 && old(pos) < sz)
      ensures old(pos) < sz ==> AtPlace(Word(old(pos), old(vl)))
      ensures old(pos) < sz && old(Roomy()) ==> AtBatch(old(pos) + old(vl))
      ensures pos < old(pos) <==> old(pos) < sz && old(pos) + old(vl) >= TWO64
      ensures old(pos) == sz ==> !more && pos == old(pos) && vl == old(vl) && OnlyLanes(0, 0)
    {
      if pos < sz {
        more := InitNd(Word(pos, vl));
      } else {
        more := false;
      }
    }

    /** The current batch, lane by lane. */
    method Batch() returns (b: seq<seq<nat>>)
      requires Valid()
      ensures |b| == vl && forall i :: 0 <= i < vl ==> b[i] == Lane(i)
    {
      b := [];
      for i := 0 to vl
        invariant |b| == i && forall j :: 0 <= j < i ==> b[j] == Lane(j)
      {
        b := b + [Lane(i)];
      }
    }

    /** One turn of the client loop: hands out the current batch and steps. */
    method TakeBatch() returns (b: seq<seq<nat>>)
      requires Valid() && pos < sz && vl > 0 && AtBatch(pos)
      modifies this`pos, this`vl, vp
      ensures b == Nest(ranges)[old(pos)..old(pos) + old(vl)]
      ensures Valid() && Steppable() && AtPlace(Word(old(pos), old(vl)))
      ensures old(Roomy()) ==> pos == old(pos) + old(vl) && AtBatch(pos)
    {
      b := Batch();
      assert b == Nest(ranges)[pos..pos + vl];
      var more := Step();
    }

    /** The client loop has handed out the nest from start up to pos, cut into these batches. */
    ghost predicate HandedOut(start: nat, lanes: seq<seq<nat>>, batches: seq<nat>)
      requires Valid()
      reads this, ilo, ihi
    {
      start <= pos && lanes == Nest(ranges)[start..pos] && CutInto(sz - start, mvl, pos - start, batches)
    }

    method HandOutOne(ghost start: nat, lanes: seq<seq<nat>>, batches: seq<nat>)
      returns (lanes': seq<seq<nat>>, batches': seq<nat>)
      requires Valid() && vl > 0 && AtBatch(pos) && Roomy() && HandedOut(start, lanes, batches)
      modifies this`pos, this`vl, vp
      ensures Valid() && AtBatch(pos) && pos == old(pos) + old(vl) && HandedOut(start, lanes', batches')
    {
      CutNext(sz - start, mvl, pos - start, batches, vl);
      batches' := batches + [vl];
      var batch := TakeBatch();
      lanes' := lanes + batch;
    }

    /** The client loop: hands out every remaining batch. */
    method Drain() returns (lanes: seq<seq<nat>>, batches: seq<nat>)
      requires Valid() && AtBatch(pos) && AllFit(sz, mvl, pos)
      modifies this`pos, this`vl, vp
      ensures Valid() && pos == sz && vl == 0
      ensures lanes == Nest(ranges)[old(pos)..sz]
      ensures CutInto(sz - old(pos), mvl, sz - old(pos), batches)
    {
      lanes, batches := [], [];
      BatchCount(0, mvl, 0);
      while vl > 0
        invariant Valid() && AtBatch(pos) && HandedOut(old(pos), lanes, batches)
        invariant AllFit(sz, mvl, pos)
        decreases sz - pos
      {
        lanes, batches := HandOutOne(old(pos), lanes, batches);
      }
    }

    /** The one-dimensional educational variant of the fill. */
    method Fill1d(first: nat)
      requires Valid() && dim == 1 && 0 < vl && 0 < sz && first < TWO64
      modifies vp
      ensures Decoded(0, vl, first) && OnlyLanes(0, vl)
    {
      NoEmptySpan();
      ghost var t := Division(ranges, first, vl);
      for i := 0 to vl
        invariant forall j :: 0 <= j < i ==> vp[0, j] == t[j].digit[0]
        invariant OnlyLanes(0, vl)
      {
        assert Divides(t[i], ranges, 0);
        var coord, _ := TakeDigit(Range(ilo[0], ihi[0]), Word(first, i), t[i], ranges, 0);
        vp[0, i] := coord;
      }
      LanesDecoded(0, first, t);
    }

    /** One lane of the two-dimensional educational variant. */
    method FillLane2d(i: nat, p: nat, ghost t: Chain)
      requires Valid() && dim == 2 && i < mvl && Dividing(t, ranges) && t.rest[2] == p
      modifies vp
      ensures OnlyLanes(i, 1) && vp[0, i] == t.digit[0] && vp[1, i] == t.digit[1]
    {
      assert Divides(t, ranges, 0) && Divides(t, ranges, 1);
      var coord, carry := TakeDigit(Range(ilo[1], ihi[1]), p, t, ranges, 1);
      vp[1, i] := coord;
      coord, carry := TakeDigit(Range(ilo[0], ihi[0]), carry, t, ranges, 0);
      vp[0, i] := coord;
    }

    /** The two-dimensional educational variant of the fill. */
    method Fill2d(first: nat)
      requires Valid() && dim == 2 && 0 < sz && first < TWO64
      modifies vp
      ensures Decoded(0, vl, first) && OnlyLanes(0, vl)
    {
      NoEmptySpan();
      ghost var t := Division(ranges, first, vl);
      for i := 0 to vl
        invariant forall j :: 0 <= j < i ==> vp[0, j] == t[j].digit[0] && vp[1, j] == t[j].digit[1]
        invariant OnlyLanes(0, vl)
      {
        FillLane2d(i, Word(first, i), t[i]);
      }
      LanesDecoded(0, first, t);
    }

    /** Appends coordinates from position lin behind the lanes already filled, up to mvl in all. */
    method Extend(lin: nat) returns (added: bool)
      requires Valid() && lin < TWO64 && (lin < sz && vl < mvl ==> vl + (sz - lin) < TWO64)
      modifies this`pos, this`vl, vp
      ensures Valid() && added == (lin < sz && old(vl) < mvl)
      ensures !added ==> pos == old(pos) && vl == old(vl) && OnlyLanes(0, 0)
      ensures added ==> pos == lin && vl == (if old(vl) + (sz - lin) < mvl then old(vl) + (sz - lin) else mvl)
      ensures added ==> Holds(old(vl), vl - old(vl), lin) && OnlyLanes(old(vl), vl - old(vl))
    {
      if lin >= sz || vl >= mvl {
        return false;
      }
      pos := lin;
      var addvl := sz - lin;
      if (vl + addvl) % TWO64 >= mvl {
        addvl := mvl - vl;
      }
      FillByLane(vl, addvl, pos);
      DecodedInNest(vl, addvl, pos);
      vl := vl + addvl;
      return true;
    }

    /**
     A step after an extend does not always go on where the extend stopped: it adds the old
     lanes to the new position as well.  It is gap-free exactly when there were no old lanes
     or the extend reached the end of the nest.
     */
    method ExtendThenStep(lin: nat) returns (more: bool)
      requires Valid() && lin < sz && vl < mvl && sz + mvl <= TWO64
      modifies this`pos, this`vl, vp
      ensures Valid() && AtBatch(lin + old(vl) + Appended(sz, mvl, old(vl), lin))
      ensures AtBatch(lin + Appended(sz, mvl, old(vl), lin)) <==> old(vl) == 0 || sz - lin <= mvl - old(vl)
    {
      ghost var next, gapFree := lin + vl + Appended(sz, mvl, vl, lin), lin + Appended(sz, mvl, vl, lin);
      var added := Extend(lin);
      more := StepTo(next);
      BatchIsPlace(next, gapFree);
    }

    method StepTo(ghost next: nat) returns (more: bool)
      requires Valid() && Steppable() && Roomy() && pos < sz && next == pos + vl
      modifies this`pos, this`vl, vp
      ensures Valid() && AtBatch(next) && more == (vl > 0)
    {
      more := Step();
    }

    /** The batch an iterator is at is known from where it is, except that all exhausted places are the same. */
    lemma BatchIsPlace(a: nat, b: nat)
      requires Valid() && AtBatch(a)
      ensures AtBatch(b) <==> a == b || (a >= sz && b >= sz)
    {
    }

    /** Sets up a nest of one or two ranges without decoding anything; vl is left as it is. */
    method Configure(r: seq<Range>)
      requires Shaped() && 0 < |r| <= maxDims && Loopable(r) && vl <= mvl
      modifies this`dim, this`ranges, this`sz, this`pos, ilo, ihi
      ensures Shaped() && ranges == r && sz == Size(r) && pos == 0 && vl == old(vl)
      ensures Valid()
    {
      SetRanges(r);
      sz := TotalSize();
      pos := 0;
    }

    /** The odometer fill for one loop.  The counter starts one below lo, wrapping when lo is 0. */
    method Odometer1d(lo: nat, hi: nat)
      requires Shaped() && maxDims >= 1 && lo <= hi < TWO32 && vl <= mvl
      modifies this`dim, this`ranges, this`sz, this`pos, ilo, ihi, vp
      ensures Valid() && ranges == [Range(lo, hi)] && pos == 0 && vl == old(vl) && sz == hi - lo
      ensures lo < hi ==> forall i :: 0 <= i < vl ==> Lane(i) == Nest(ranges)[i % sz]
    {
      Size1d(lo, hi);
      Configure([Range(lo, hi)]);
      ghost var w := CountAll1d(lo, hi);
      if lo < hi {
        forall i | 0 <= i < vl ensures Lane(i) == Nest(ranges)[i % sz] {
          Followed1d(lo, hi, w, i);
        }
      }
    }

    /** Its loop over the lanes. */
    method CountAll1d(lo: nat, hi: nat) returns (ghost w: seq<nat>)
      requires Shaped() && lo <= hi < TWO32 && vl <= mvl && ranges == [Range(lo, hi)]
      modifies vp
      ensures |w| == vl && forall j :: 0 <= j < vl ==> vp[0, j] == w[j]
      ensures lo < hi ==> Follow1d(lo, hi, w)
    {
      w := [];
      assert ilo[0] == lo && ihi[0] == hi;
      var cnt0 := (ilo[0] + (TWO32 - 1)) % TWO32;
      for i := 0 to vl
        invariant 0 <= cnt0 < TWO32
        invariant i == 0 ==> Increment(cnt0) == lo
        invariant |w| == i && forall j :: 0 <= j < i ==> vp[0, j] == w[j]
        invariant lo < hi ==> Follow1d(lo, hi, w)
        invariant i > 0 ==> cnt0 == w[i - 1]
      {
        cnt0 := Increment(cnt0);
        if cnt0 >= ihi[0] {
          cnt0 := ilo[0];
        }
        vp[0, i] := cnt0;
        if lo < hi {
          Extend1d(lo, hi, w, cnt0);
        }
        w := w + [cnt0];
      }
    }

    /** The odometer fill for two nested loops. */
    method Odometer2d(lo0: nat, hi0: nat, lo1: nat, hi1: nat)
      requires Shaped() && maxDims >= 2 && lo0 <= hi0 < TWO32 && lo1 <= hi1 < TWO32 && vl <= mvl
      modifies this`dim, this`ranges, this`sz, this`pos, ilo, ihi, vp
      ensures Shaped() && ranges == [Range(lo0, hi0), Range(lo1, hi1)] && pos == 0 && vl == old(vl) <= mvl
      ensures Valid() && sz == |Nest(ranges)|
      ensures lo0 < hi0 && lo1 < hi1 ==> sz > 0 && forall i :: 0 <= i < vl ==> Lane(i) == Nest(ranges)[i % sz]
    {
      var r := [Range(lo0, hi0), Range(lo1, hi1)];
      Size2d(r);
      Configure(r);
      ghost var w := CountAll2d(lo0, hi0, lo1, hi1);
      if lo0 < hi0 && lo1 < hi1 {
        forall i | 0 <= i < vl ensures Lane(i) == Nest(ranges)[i % sz] {
          Followed2d(lo0, hi0, lo1, hi1, w, i);
        }
      }
    }

    /** Its loop over the lanes. */
    method CountAll2d(lo0: nat, hi0: nat, lo1: nat, hi1: nat) returns (ghost w: seq<(nat, nat)>)
      requires Shaped() && lo0 <= hi0 < TWO32 && lo1 <= hi1 < TWO32 && vl <= mvl
      requires ranges == [Range(lo0, hi0), Range(lo1, hi1)]
      modifies vp
      ensures |w| == vl && forall j :: 0 <= j < vl ==> w[j] == (vp[0, j], vp[1, j])
      ensures lo0 < hi0 && lo1 < hi1 ==> Follow2d(lo0, hi0, lo1, hi1, w)
    {
      w := [];
      assert ilo[0] == lo0 && ihi[0] == hi0 && ilo[1] == lo1 && ihi[1] == hi1;
      var cnt0 := ilo[0];
      var cnt1 := (ilo[1] + (TWO32 - 1)) % TWO32;
      for i := 0 to vl
        invariant 0 <= cnt0 < TWO32 && 0 <= cnt1 < TWO32
        invariant i == 0 ==> cnt0 == lo0 && Increment(cnt1) == lo1
        invariant |w| == i && forall j :: 0 <= j < i ==> w[j] == (vp[0, j], vp[1, j])
        invariant lo0 < hi0 && lo1 < hi1 ==> Follow2d(lo0, hi0, lo1, hi1, w)
        invariant i > 0 ==> w[i - 1] == (cnt0, cnt1)
      {
        cnt0, cnt1 := CountUp2d(Range(ilo[0], ihi[0]), Range(ilo[1], ihi[1]), cnt0, cnt1);
        vp[1, i] := cnt1;
        vp[0, i] := cnt0;
        if lo0 < hi0 && lo1 < hi1 {
          Extend2d(lo0, hi0, lo1, hi1, w, cnt0, cnt1);
        }
        w := w + [(cnt0, cnt1)];
      }
    }
  }

  /** One division of the chain, at one range. */
  ghost predicate Divides(t: Chain, r: seq<Range>, d: nat) {
    d < |r| && r[d].lo < r[d].hi && t.StepAt(d, r[d].lo, r[d].hi - r[d].lo)
  }

  /** The 64-bit sum of two words. */
  function Word(first: nat, i: nat): nat {
    if first + i < TWO64 then first + i else first + i - TWO64
  }

  lemma WordIsSum(first: nat, i: nat)
    requires first < TWO64 && i < TWO64
    ensures Word(first, i) == (first + i) % TWO64
  {
    if first + i >= TWO64 {
      UniqueDivMod(first + i, 1, TWO64, first + i - TWO64);
    }
  }

  /** The lanes of a batch at lin: cut at sz, unless the sum that should show it wraps. */
  function BatchLength(sz: nat, mvl: nat, lin: nat): nat
    requires lin < sz
  {
    if lin + mvl < TWO64 && sz - lin < mvl then sz - lin else mvl
  }

  /** All divisions of the chain. */
  ghost predicate Dividing(t: Chain, r: seq<Range>) {
    |t.digit| == |r| && |t.rest| == |r| + 1 && forall d: nat :: d < |r| ==> Divides(t, r, d)
  }

  /** The digits of the chain are the coordinates of position i after first. */
  ghost predicate Computes(t: Chain, r: seq<Range>, first: nat, i: nat) {
    Positive(Spans(r)) && t.digit == At(r, Word(first, i))
  }

  lemma DigitStep(r: seq<Range>, d: nat, p: nat)
    requires Positive(Spans(r)) && d < |r|
    ensures var c, span := Carry(Spans(r), d + 1, p), Spans(r)[d];
      At(r, p)[d] == r[d].lo + c % span && Carry(Spans(r), d, p) == c / span
  {
    DigitFromCarry(Spans(r), d, p);
  }

  ghost function ChainOf(r: seq<Range>, p: nat): (t: Chain)
    requires Positive(Spans(r))
    ensures Dividing(t, r) && t.rest[|r|] == p && t.digit == At(r, p)
  {
    var s := Spans(r);
    var t := Chain(seq(|r| + 1, d requires 0 <= d <= |r| => Carry(s, d, p)), At(r, p));
    assert forall d: nat :: d < |r| ==> Divides(t, r, d) by {
      forall d: nat | d < |r| ensures Divides(t, r, d) {
        DigitStep(r, d, p);
        assert s[d] == r[d].Span() > 0;
      }
    }
    t
  }

  /** The chains of the positions from first on. */
  ghost predicate Chains(r: seq<Range>, first: nat, t: seq<Chain>) {
    forall j :: 0 <= j < |t| ==> Dividing(t[j], r) && t[j].rest[|r|] == Word(first, j)
  }

  lemma Division(r: seq<Range>, first: nat, n: nat) returns (t: seq<Chain>)
    requires Positive(Spans(r))
    ensures |t| == n && Chains(r, first, t)
    ensures forall j {:trigger Computes(t[j], r, first, j)} :: 0 <= j < n ==> Computes(t[j], r, first, j)
  {
    t := seq(n, j requires 0 <= j < n => ChainOf(r, Word(first, j)));
    forall j | 0 <= j < n
      ensures Dividing(t[j], r) && t[j].rest[|r|] == Word(first, j) && Computes(t[j], r, first, j)
    {
      assert t[j] == ChainOf(r, Word(first, j));
    }
  }

  /** The two divisions every fill makes at one dimension of one position. */
  method TakeDigit(range: Range, carry: nat, ghost t: Chain, ghost r: seq<Range>, ghost d: nat)
    returns (coord: nat, rest: nat)
    requires d < |r| == |t.digit| && |t.rest| == |r| + 1 && Divides(t, r, d)
    requires range == r[d] && carry == t.rest[d + 1]
    ensures coord == t.digit[d] && rest == t.rest[d]
  {
    var span := range.hi - range.lo;
    coord := range.lo + carry % span;
    rest := carry / span;
  }

  /** One dimension of the vectorised fill: every lane takes its digit and divides its carry. */
  method FillDimension(vp: array2<nat>, d: nat, vl: nat, range: Range, carry: array<nat>,
                       ghost r: seq<Range>, ghost first: nat, ghost t: seq<Chain>)
    requires d < |r| <= vp.Length0 && 0 < vl == |t| <= vp.Length1 && vl <= carry.Length && range == r[d]
    requires Chains(r, first, t)
    requires forall j :: 0 <= j < vl ==> carry[j] == t[j].rest[d + 1]
    modifies vp, carry
    ensures forall j :: 0 <= j < vl ==> carry[j] == t[j].rest[d]
    ensures forall j :: 0 <= j < vl ==> vp[d, j] == t[j].digit[d]
    ensures forall e, j :: 0 <= e < vp.Length0 && 0 <= j < vp.Length1 && !(e == d && j < vl) ==> vp[e, j] == old(vp[e, j])
  {
    for i := 0 to vl
      invariant forall j :: 0 <= j < i ==> carry[j] == t[j].rest[d]
      invariant forall j :: i <= j < vl ==> carry[j] == t[j].rest[d + 1]
      invariant forall j :: 0 <= j < i ==> vp[d, j] == t[j].digit[d]
      invariant forall e, j :: 0 <= e < vp.Length0 && 0 <= j < vp.Length1 && !(e == d && j < i) ==> vp[e, j] == old(vp[e, j])
    {
      assert Divides(t[i], r, d);
      var coord, rest := TakeDigit(range, carry[i], t[i], r, d);
      vp[d, i] := coord;
      carry[i] := rest;
    }
  }

  function Appended(sz: nat, mvl: nat, vl: nat, lin: nat): nat
    requires lin <= sz && vl <= mvl
  {
    if sz - lin < mvl - vl then sz - lin else mvl - vl
  }

  lemma Size1d(lo: nat, hi: nat)
    requires lo <= hi < TWO32
    ensures Size([Range(lo, hi)]) == hi - lo
  {
    var s := Spans([Range(lo, hi)]);
    assert s == [hi - lo] && s[..0] == [];
    assert Product(s) == hi - lo;
  }

  lemma ProductOfTwo(s: seq<nat>)
    requires |s| == 2
    ensures Product(s) == s[0] * s[1]
  {
    assert s[..1][..0] == [];
    assert Product(s[..1]) == 1 * s[0];
  }

  /** Two 32-bit spans never wrap. */
  lemma Size2d(r: seq<Range>)
    requires |r| == 2 && Loopable(r)
    ensures Size(r) == |Nest(r)|
    ensures |Nest(r)| > 0 <==> r[0].lo < r[0].hi && r[1].lo < r[1].hi
  {
    NestLength(r);
    ProductOfTwo(Spans(r));
    ProductPositive(Spans(r));
    MulMonotone(r[0].Span(), TWO32 - 1, r[1].Span());
    MulMonotone(r[1].Span(), TWO32 - 1, TWO32 - 1);
  }

  /** ++ on an unsigned. */
  function Increment(x: nat): (y: nat)
    requires x < TWO32
    ensures y < TWO32 && (y == x + 1 || (x == TWO32 - 1 && y == 0))
  {
    (x + 1) % TWO32
  }

  /** The counter values a one-loop odometer shows, from its start on. */
  ghost predicate Follow1d(lo: nat, hi: nat, w: seq<nat>) {
    && (forall i :: 0 <= i < |w| ==> lo <= w[i] < hi)
    && (|w| > 0 ==> w[0] == lo)
    && forall i :: 0 < i < |w| ==> w[i] == if w[i - 1] + 1 >= hi then lo else w[i - 1] + 1
  }

  lemma Extend1d(lo: nat, hi: nat, w: seq<nat>, c: nat)
    requires lo < hi && Follow1d(lo, hi, w)
    requires |w| == 0 ==> c == lo
    requires |w| > 0 ==> c == if w[|w| - 1] + 1 >= hi then lo else w[|w| - 1] + 1
    ensures Follow1d(lo, hi, w + [c])
  {
  }

  lemma {:induction false} Followed1d(lo: nat, hi: nat, w: seq<nat>, i: nat)
    requires lo < hi && i < |w| && Follow1d(lo, hi, w)
    ensures var r := [Range(lo, hi)]; |Nest(r)| == hi - lo && [w[i]] == Nest(r)[i % (hi - lo)]
  {
    var r := [Range(lo, hi)];
    NestLength(r);
    assert Spans(r) == [hi - lo] && [hi - lo][..0] == [];
    Follows1d(lo, hi, w, i);
    TurnsFollowNest(r, i);
  }

  lemma {:induction false} Follows1d(lo: nat, hi: nat, w: seq<nat>, i: nat)
    requires lo < hi && i < |w| && Follow1d(lo, hi, w)
    ensures [w[i]] == Turns([Range(lo, hi)], i)
  {
    if i > 0 {
      Follows1d(lo, hi, w, i - 1);
      Turn1d(lo, hi, w[i - 1]);
    }
  }

  lemma Turn1d(lo: nat, hi: nat, c: nat)
    ensures Advance([Range(lo, hi)], [c]).0 == if c + 1 >= hi then [lo] else [c + 1]
  {
    assert [Range(lo, hi)][1..] == [] && [c][1..] == [];
    assert Advance([], []) == ([], true);
  }

  function Next2d(lo0: nat, hi0: nat, lo1: nat, hi1: nat, c: nat, d: nat): (nat, nat) {
    if d + 1 < hi1 then (c, d + 1) else if c + 1 < hi0 then (c + 1, lo1) else (lo0, lo1)
  }

  /** The counter update inside the two-loop fill. */
  method CountUp2d(r0: Range, r1: Range, c0: nat, c1: nat) returns (n0: nat, n1: nat)
    requires r0.hi < TWO32 && r1.hi < TWO32 && r0.lo < TWO32 && r1.lo < TWO32 && c0 < TWO32 && c1 < TWO32
    ensures n0 < TWO32 && n1 < TWO32
    ensures r0.lo <= c0 < r0.hi && r1.lo <= c1 < r1.hi ==> (n0, n1) == Next2d(r0.lo, r0.hi, r1.lo, r1.hi, c0, c1)
    ensures Increment(c1) == r1.lo < r1.hi ==> (n0, n1) == (c0, r1.lo)
  {
    n0, n1 := c0, Increment(c1);
    if n1 >= r1.hi {
      n1 := r1.lo;
      n0 := Increment(n0);
      if n0 >= r0.hi {
        n0 := r0.lo;
      }
    }
  }

  /** The counter pairs a two-loop odometer shows, from its start on. */
  ghost predicate Follow2d(lo0: nat, hi0: nat, lo1: nat, hi1: nat, w: seq<(nat, nat)>) {
    && (forall i :: 0 <= i < |w| ==> lo0 <= w[i].0 < hi0 && lo1 <= w[i].1 < hi1)
    && (|w| > 0 ==> w[0] == (lo0, lo1))
    && forall i :: 0 < i < |w| ==> w[i] == Next2d(lo0, hi0, lo1, hi1, w[i - 1].0, w[i - 1].1)
  }

  lemma Extend2d(lo0: nat, hi0: nat, lo1: nat, hi1: nat, w: seq<(nat, nat)>, c: nat, d: nat)
    requires lo0 < hi0 && lo1 < hi1 && Follow2d(lo0, hi0, lo1, hi1, w)
    requires |w| == 0 ==> (c, d) == (lo0, lo1)
    requires |w| > 0 ==> (c, d) == Next2d(lo0, hi0, lo1, hi1, w[|w| - 1].0, w[|w| - 1].1)
    ensures Follow2d(lo0, hi0, lo1, hi1, w + [(c, d)])
  {
  }

  lemma {:induction false} Followed2d(lo0: nat, hi0: nat, lo1: nat, hi1: nat, w: seq<(nat, nat)>, i: nat)
    requires lo0 < hi0 && lo1 < hi1 && i < |w| && Follow2d(lo0, hi0, lo1, hi1, w)
    ensures var r := [Range(lo0, hi0), Range(lo1, hi1)];
      |Nest(r)| > 0 && [w[i].0, w[i].1] == Nest(r)[i % |Nest(r)|]
  {
    var r := [Range(lo0, hi0), Range(lo1, hi1)];
    Follows2d(lo0, hi0, lo1, hi1, w, i);
    TurnsFollowNest(r, i);
  }

  lemma {:induction false} Follows2d(lo0: nat, hi0: nat, lo1: nat, hi1: nat, w: seq<(nat, nat)>, i: nat)
    requires lo0 < hi0 && lo1 < hi1 && i < |w| && Follow2d(lo0, hi0, lo1, hi1, w)
    ensures [w[i].0, w[i].1] == Turns([Range(lo0, hi0), Range(lo1, hi1)], i)
  {
    if i > 0 {
      Follows2d(lo0, hi0, lo1, hi1, w, i - 1);
      Turn2d(lo0, hi0, lo1, hi1, w[i - 1].0, w[i - 1].1);
    }
  }

  lemma Turn2d(lo0: nat, hi0: nat, lo1: nat, hi1: nat, c: nat, d: nat)
    ensures Advance([Range(lo0, hi0), Range(lo1, hi1)], [c, d]).0 ==
      if d + 1 < hi1 then [c, d + 1] else if c + 1 < hi0 then [c + 1, lo1] else [lo0, lo1]
  {
    var r, inner := [Range(lo0, hi0), Range(lo1, hi1)], [Range(lo1, hi1)];
    assert r[1..] == inner && [c, d][1..] == [d];
    assert Advance(inner[1..], [d][1..]) == ([], true);
    assert [lo1] + [] == [lo1] && [d + 1] + [] == [d + 1];
    assert Advance(inner, [d]) == if d + 1 >= hi1 then ([lo1], true) else ([d + 1], false);
  }

  /**
   A whole run: `for(c = mk at p; c; ++c)` over the nest r, collecting every lane of every
   batch.  The run visits exactly the body executions p, p+1, ... of the nest, in order, in
   full batches except for the last; it visits all of them exactly when the 64-bit loop
   count did not wrap.
   */
  method Collect(mvl: nat, maxDims: nat, p: nat, r: seq<Range>) returns (lanes: seq<seq<nat>>, batches: seq<nat>)
    requires 0 < mvl < TWO32 && 0 < |r| <= maxDims && Loopable(r) && p < TWO64
    requires Unwrapped(Size(r), mvl, p)
    ensures lanes == if p < Size(r) then Nest(r)[p..Size(r)] else []
    ensures p <= Size(r) ==> (lanes == Nest(r)[p..] <==> Product(Spans(r)) < TWO64)
    ensures |batches| == Blocks(if p < Size(r) then Size(r) - p else 0, mvl)
    ensures forall b :: 0 <= b < |batches| ==> 0 < batches[b] <= mvl
    ensures forall b :: 0 <= b < |batches| - 1 ==> batches[b] == mvl
  {
    var c := new Coords(mvl, maxDims);
    UnwrappedFits(Size(r), mvl, p);
    var more := c.InitAt(p, r);
    WholeNest(r, c.pos);
    lanes, batches := c.Drain();
  }

  /**
   The gap is real: over [0, 10) with at most 7 lanes, the batch at 8 has two lanes, extending it at
   0 appends 0 .. 4, and the next step goes on at 7: 5 and 6 are never visited.
   */
  method GapExample() returns (appended: nat, resumed: seq<nat>)
    ensures appended == 5 && resumed == [7]
  {
    var r := [Range(0, 10)];
    Size1d(0, 10);
    var c := new Coords(7, 1);
    var more := c.InitAt(8, r);
    appended := c.vl;
    more := c.Extend(0);
    appended := c.vl - appended;
    more := c.Step();
    resumed := c.Lane(0);
    Element1d(7);
  }

  lemma Element1d(p: nat)
    requires p < 10
    ensures |Nest([Range(0, 10)])| == 10 && Nest([Range(0, 10)])[p] == [p]
  {
    var r := [Range(0, 10)];
    NestLength(r);
    ProductOfOne(Spans(r));
    NestIsDecode(r, p);
    assert Digits(Spans(r), p)[0] == p % 10;
  }

  lemma ProductOfOne(s: seq<nat>)
    requires |s| == 1
    ensures Product(s) == s[0]
  {
    assert s[..0] == [];
  }

  lemma ProductOfThree(s: seq<nat>)
    requires |s| == 3
    ensures Product(s) == s[0] * s[1] * s[2]
  {
    assert s[..2][..1][..0] == [];
    assert Product(s[..2][..1]) == 1 * s[0];
  }

  /** The wrap is real: three spans whose product is 2^64 make a nest of that length and a size of zero, so a run visits nothing. */
  lemma WrappedNest(r: seq<Range>)
    requires r == [Range(0, 0x8000_0000), Range(0, 0x8000_0000), Range(0, 4)]
    ensures Loopable(r) && |Nest(r)| == TWO64 && Size(r) == 0
  {
    NestLength(r);
    ProductOfThree(Spans(r));
  }

  lemma AlmostWrapped(r: seq<Range>)
    requires r == [Range(0, 0xffff_ffff), Range(0, 641), Range(0, 6700417)]
    ensures Loopable(r) && Size(r) == TWO64 - 1
  {
    ProductOfThree(Spans(r));
  }

  /**
   Batches do leave the nest: three spans have the product 2^64 - 1, and the batch of seven lanes at
   its last position stays at seven lanes, after which the step goes back to position 5.
   */
  method OverrunExample() returns (left: nat, lanes: nat, next: nat)
    ensures left == 1 && lanes == 7 && next == 5
  {
    var r := [Range(0, 0xffff_ffff), Range(0, 641), Range(0, 6700417)];
    AlmostWrapped(r);
    left, lanes, next := Overrun(r, 7);
  }

  /** Any nest of 2^64 - 1 executions and any batch of two lanes or more do. */
  method Overrun(r: seq<Range>, mvl: nat) returns (left: nat, lanes: nat, next: nat)
    requires 1 < mvl < TWO32 && 0 < |r| && Loopable(r) && Size(r) == TWO64 - 1
    ensures left == 1 && lanes == mvl && next == mvl - 2
  {
    var c := new Coords(mvl, |r|);
    var more := c.InitAt(TWO64 - 2, r);
    left, lanes := c.sz - c.pos, c.vl;
    next := StepBack(c);
  }

  /** A step whose sum wraps starts over near the front of the nest. */
  method StepBack(c: Coords) returns (next: nat)
    requires c.Valid() && c.Steppable() && c.pos < c.sz && c.pos + c.vl >= TWO64
    modifies c`pos, c`vl, c.vp
    ensures next == c.pos == old(c.pos) + old(c.vl) - TWO64 && next < old(c.pos) && next < c.mvl
    ensures c.Valid() && c.AtPlace(next)
  {
    var more := c.Step();
    next := c.pos;
  }

  lemma WholeNest(r: seq<Range>, p: nat)
    requires p <= Size(r)
    ensures Nest(r)[p..Size(r)] == Nest(r)[p..] <==> Product(Spans(r)) < TWO64
  {
    NestLength(r);
    assert |Nest(r)[p..Size(r)]| == Size(r) - p;
    if Product(Spans(r)) < TWO64 {
      assert Size(r) == |Nest(r)|;
    }
  }

  /** No batch of a run from p on has an end, even when it is not yet cut at sz, that leaves 64 bits. */
  predicate Unwrapped(sz: nat, mvl: nat, p: nat)
    requires mvl > 0
  {
    p < sz ==> p + Blocks(sz - p, mvl) * mvl < TWO64
  }

  lemma UnwrappedNext(sz: nat, mvl: nat, p: nat)
    requires mvl > 0 && p < sz && Unwrapped(sz, mvl, p)
    ensures p + mvl < TWO64 && Unwrapped(sz, mvl, p + mvl)
  {
    var k := Blocks(sz - p, mvl);
    BlocksBounds(sz - p, mvl);
    assert k >= 1;
    assert k * mvl == (k - 1) * mvl + mvl;
    if p + mvl < sz {
      assert k >= 2;
      assert (k - 1) * mvl == (k - 2) * mvl + mvl;
      BlocksAre(sz - p - mvl, mvl, k - 1);
    }
  }

  /** The same, batch by batch. */
  ghost predicate AllFit(sz: nat, mvl: nat, p: nat)
    requires mvl > 0
    decreases if p < sz then sz - p else 0
  {
    p < sz ==> p + mvl < TWO64 && AllFit(sz, mvl, p + mvl)
  }

  lemma {:induction false} UnwrappedFits(sz: nat, mvl: nat, p: nat)
    requires mvl > 0 && Unwrapped(sz, mvl, p)
    ensures AllFit(sz, mvl, p)
    decreases if p < sz then sz - p else 0
  {
    if p < sz {
      UnwrappedNext(sz, mvl, p);
      UnwrappedFits(sz, mvl, p + mvl);
    }
  }

  /** That is exactly what keeps every batch of the run inside the nest: a batch start whose sum wraps keeps a full batch. */
  lemma UnwrappedExactly(sz: nat, mvl: nat, p: nat)
    requires mvl > 0
    ensures Unwrapped(sz, mvl, p) <==> forall k: nat :: p + BatchStart(mvl, k) < sz ==> p + BatchStart(mvl, k) + mvl < TWO64
  {
    if p < sz {
      var n := Blocks(sz - p, mvl);
      BlocksBounds(sz - p, mvl);
      assert n >= 1;
      assert BatchStart(mvl, n - 1) + mvl == n * mvl;
      if Unwrapped(sz, mvl, p) {
        forall k: nat | p + BatchStart(mvl, k) < sz ensures p + BatchStart(mvl, k) + mvl < TWO64 {
          if k >= n { MulMonotone(n, k, mvl); }
          MulMonotone(k + 1, n, mvl);
          assert (k + 1) * mvl == k * mvl + mvl;
        }
      }
    }
  }

  /** Where batch k of a run starts, counted from the start of the run. */
  function BatchStart(mvl: nat, k: nat): nat { k * mvl }

  /** The first done of n positions have been cut into batches: full ones, except that the last may be short. */
  ghost predicate CutInto(n: nat, mvl: nat, done: nat, batches: seq<nat>)
    requires mvl > 0
  {
    && (forall b :: 0 <= b < |batches| ==> 0 < batches[b] <= mvl)
    && (forall b :: 0 <= b < |batches| - 1 ==> batches[b] == mvl)
    && (done < n ==> done == |batches| * mvl && forall b :: 0 <= b < |batches| ==> batches[b] == mvl)
    && (done == n ==> |batches| == Blocks(n, mvl))
  }

  lemma CutNext(n: nat, mvl: nat, done: nat, batches: seq<nat>, v: nat)
    requires mvl > 0 && done < n && CutInto(n, mvl, done, batches) && v == if n - done < mvl then n - done else mvl
    ensures CutInto(n, mvl, done + v, batches + [v])
  {
    BatchCount(n, mvl, |batches| + 1);
  }

  lemma BatchCount(n: nat, mvl: nat, k: nat)
    requires mvl > 0
    ensures k > 0 && (k - 1) * mvl < n <= k * mvl ==> Blocks(n, mvl) == k
    ensures Blocks(0, mvl) == 0
    ensures k > 0 ==> (k - 1) * mvl + mvl == k * mvl
  {
    if k > 0 && (k - 1) * mvl < n <= k * mvl {
      BlocksAre(n, mvl, k);
    }
    UniqueDivMod(0, 0, mvl, 0);
  }
}
