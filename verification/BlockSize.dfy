/**
 stack_friendly_blksz of dev/stack_friendly_blksz.cpp: splits hi channels into blocks that
 fit a stack buffer.  Sums are 64-bit and wrap.
 */
module BlockSize {
  import opened MixedRadix

  const STACK_CHANNELS: nat := 16384

  /** What is left for the last block. */
  function LastBlock(n: nat, b: nat): nat
    requires b > 0
  {
    if n % b == 0 then b else n % b
  }

  /** The remainder of the naive split is small, so the split is evened out. */
  predicate Evened(hi: nat) {
    hi > STACK_CHANNELS && hi % STACK_CHANNELS < STACK_CHANNELS / 4
  }

  /** The rounding sum of the equal split leaves 64 bits. */
  predicate Wraps(hi: nat) {
    Evened(hi) && hi + Blocks(hi, STACK_CHANNELS) - 1 >= TWO64
  }

  /**
   The block size fits the buffer (so the "ohoh" report is unreachable) and needs no more
   blocks than the largest size would.  When the split is evened out, no size smaller by
   mvl or more needs so few blocks.  It is usable exactly when the rounding sum does not wrap.
   */
  method StackFriendlyBlksz(hi: nat, mvl: nat) returns (ret: nat)
    requires hi < TWO64 && 0 < mvl <= STACK_CHANNELS
    ensures ret > 0 <==> hi > 0 && !Wraps(hi)
    ensures ret > 0 ==> Fits(hi, mvl, ret)
    ensures !Evened(hi) ==> ret == if hi > STACK_CHANNELS then STACK_CHANNELS else hi
    ensures hi <= 16384 ==> ret == hi
    ensures hi > 16384 && hi % 16384 >= 4096 ==> ret == 16384
    ensures ret > 0 && hi > 16384 && 0 < hi % 16384 < 4096 ==>
      8192 < ret <= 16384 && forall b :: 0 < b <= ret - mvl ==> Blocks(hi, b) > hi / 16384 + 1
  {
    ret := hi;
    if hi > STACK_CHANNELS {
      ret := STACK_CHANNELS;
      var nFull := hi / STACK_CHANNELS;
      var rem := hi % STACK_CHANNELS;
      if rem < STACK_CHANNELS / 4 {
        var nLoops := nFull + if rem != 0 then 1 else 0;
        ghost var even := EqualSplit(hi, nLoops);
        ret := (hi + nLoops - 1) % TWO64 / nLoops;
        if ret < STACK_CHANNELS - mvl {
          RoundUp(ret, mvl);
          ret := (ret + mvl - 1) / mvl * mvl;
        }
        if !Wraps(hi) {
          EvenedFits(hi, mvl, even, ret);
        }
      } else {
        NaiveFits(hi, mvl);
      }
    } else if hi > 0 {
      SmallFits(hi, mvl);
    }
  }

  /** What a block size has to satisfy. */
  ghost predicate Fits(hi: nat, mvl: nat, ret: nat) {
    && 0 < ret <= STACK_CHANNELS
    && Blocks(hi, ret) == Blocks(hi, STACK_CHANNELS)
    && (hi > STACK_CHANNELS ==> ret > STACK_CHANNELS / 2 && LastBlock(hi, ret) >= LastBlock(hi, STACK_CHANNELS))
    && (Evened(hi) ==> NoSmaller(hi, ret - mvl, Blocks(hi, ret)))
    && (Evened(hi) ==> ret % mvl == 0 || STACK_CHANNELS - mvl <= ret)
  }

  ghost predicate NoSmaller(hi: nat, limit: int, k: nat) {
    forall b :: 0 < b <= limit ==> Blocks(hi, b) > k
  }

  lemma SmallFits(hi: nat, mvl: nat)
    requires 0 < hi <= STACK_CHANNELS
    ensures Fits(hi, mvl, hi)
  {
    BlocksAre(hi, hi, 1);
    BlocksAre(hi, STACK_CHANNELS, 1);
  }

  lemma NaiveFits(hi: nat, mvl: nat)
    requires hi > STACK_CHANNELS && !Evened(hi)
    ensures Fits(hi, mvl, STACK_CHANNELS)
  {
  }

  lemma EvenedFits(hi: nat, mvl: nat, e: nat, ret: nat)
    requires mvl > 0 && Evened(hi) && STACK_CHANNELS / 2 < e <= ret <= STACK_CHANNELS
    requires hi <= e * Blocks(hi, STACK_CHANNELS) < hi + Blocks(hi, STACK_CHANNELS)
    requires ret < e + mvl && (ret % mvl == 0 || STACK_CHANNELS - mvl <= ret)
    ensures Fits(hi, mvl, ret)
  {
    var k := Blocks(hi, STACK_CHANNELS);
    MulMonotone(e, ret, k);
    SameBlocks(hi, ret);
    EqualSplitIsLeast(hi, k, e, ret - mvl);
  }

  lemma LastBlockIs(n: nat, b: nat)
    requires b > 0
    ensures n > 0 ==> Blocks(n, b) > 0 && LastBlock(n, b) == n - (Blocks(n, b) - 1) * b
  {
    var q, r := n / b, n % b;
    assert n == q * b + r;
    assert (q - 1) * b == q * b - b;
  }

  /** Fewer channels per block never mean fewer blocks; the largest size is optimal. */
  lemma BlocksMonotone(n: nat, b: nat, c: nat)
    requires 0 < b <= c
    ensures Blocks(n, c) <= Blocks(n, b)
  {
    BlocksBounds(n, b);
    BlocksBounds(n, c);
    var k, m := Blocks(n, b), Blocks(n, c);
    MulMonotone(b, c, k);
    if m > k {
      MulMonotone(k + 1, m, c);
    }
  }

  /** The equal split: the smallest size that needs only k blocks, unless the sum wraps. */
  lemma EqualSplit(hi: nat, k: nat) returns (e: nat)
    requires hi < TWO64 && Evened(hi) && k == Blocks(hi, STACK_CHANNELS)
    ensures k >= 2 && hi <= e * k < hi + k && STACK_CHANNELS / 2 < e <= STACK_CHANNELS
    ensures (hi + k - 1) % TWO64 / k == if Wraps(hi) then 0 else e
  {
    BlocksBounds(hi, STACK_CHANNELS);
    var sum := hi + k - 1;
    e := sum / k;
    assert sum == e * k + sum % k;
    assert e <= STACK_CHANNELS by {
      if e > STACK_CHANNELS {
        MulMonotone(STACK_CHANNELS + 1, e, k);
      }
    }
    assert e > STACK_CHANNELS / 2 by {
      if e <= STACK_CHANNELS / 2 {
        MulMonotone(e, STACK_CHANNELS / 2, k);
      }
    }
    if Wraps(hi) {
      UniqueDivMod(sum, 1, TWO64, sum - TWO64);
      UniqueDivMod(sum - TWO64, 0, k, sum - TWO64);
    } else {
      UniqueDivMod(sum, 0, TWO64, sum);
    }
  }

  lemma RoundUp(x: nat, m: nat)
    requires m > 0
    ensures var y := (x + m - 1) / m * m; x <= y < x + m && y % m == 0 && (x == 0 ==> y == 0)
  {
    var q := (x + m - 1) / m;
    UniqueDivMod(q * m, q, m, 0);
    if x == 0 {
      UniqueDivMod(m - 1, 0, m, m - 1);
    }
  }

  lemma EqualSplitIsLeast(hi: nat, k: nat, e: nat, limit: int)
    requires hi > 0 && k > 0 && e * k < hi + k && limit < e
    ensures NoSmaller(hi, limit, k)
  {
    forall b | 0 < b <= limit ensures Blocks(hi, b) > k {
      SmallerNeedsMore(hi, k, e, b);
    }
  }

  lemma SmallerNeedsMore(hi: nat, k: nat, e: nat, b: nat)
    requires k > 0 && e * k < hi + k && 0 < b < e
    ensures Blocks(hi, b) > k
  {
    BlocksBounds(hi, b);
    MulMonotone(b, e - 1, k);
    assert (e - 1) * k == e * k - k;
    var n := Blocks(hi, b);
    if n <= k { MulMonotone(n, k, b); }
  }

  /** Any size between the equal split and the buffer size gives the same number of blocks. */
  lemma SameBlocks(hi: nat, ret: nat)
    requires hi > STACK_CHANNELS && 0 < ret <= STACK_CHANNELS
    requires hi <= ret * Blocks(hi, STACK_CHANNELS)
    ensures Blocks(hi, ret) == Blocks(hi, STACK_CHANNELS)
    ensures LastBlock(hi, ret) >= LastBlock(hi, STACK_CHANNELS)
  {
    BlocksBounds(hi, STACK_CHANNELS);
    LastBlockIs(hi, STACK_CHANNELS);
    var k := Blocks(hi, STACK_CHANNELS);
    MulMonotone(ret, STACK_CHANNELS, k - 1);
    BlocksAre(hi, ret, k);
    BlocksBounds(hi, ret);
    LastBlockIs(hi, ret);
  }

  /** No block size that fits the buffer needs fewer blocks than the one chosen. */
  method BestBlocks(hi: nat, mvl: nat) returns (ret: nat)
    requires 0 < hi < TWO64 && 0 < mvl <= STACK_CHANNELS && !Wraps(hi)
    ensures 0 < ret <= STACK_CHANNELS
    ensures forall b :: 0 < b <= STACK_CHANNELS ==> Blocks(hi, ret) <= Blocks(hi, b)
  {
    ret := StackFriendlyBlksz(hi, mvl);
    forall b | 0 < b <= STACK_CHANNELS ensures Blocks(hi, ret) <= Blocks(hi, b) {
      BlocksMonotone(hi, b, STACK_CHANNELS);
    }
  }

  /** One channel too many: two blocks of half the size instead of a full one and a single channel. */
  method OneTooMany() returns (ret: nat)
    ensures ret == 8224 && Blocks(16385, ret) == 2 && LastBlock(16385, ret) == 8161
  {
    ret := StackFriendlyBlksz(16385, 32);
    EvenedExample(ret);
  }

  lemma EvenedExample(ret: nat)
    requires 8192 < ret <= 16384 && (ret % 32 == 0 || 16384 - 32 <= ret)
    requires forall b :: 0 < b <= ret - 32 ==> Blocks(16385, b) > 2
    ensures ret == 8224 && Blocks(16385, ret) == 2 && LastBlock(16385, ret) == 8161
  {
    assert Blocks(16385, 8193) == 2;
  }

  /** The wrap is real: for this size the computed block size is zero. */
  lemma WrapExample()
    ensures Wraps(TWO64 - STACK_CHANNELS)
  {
    var hi, k := TWO64 - STACK_CHANNELS, 0x4_0000_0000_0000 - 1;
    assert hi == k * STACK_CHANNELS;
    UniqueDivMod(hi, k, STACK_CHANNELS, 0);
  }
}
