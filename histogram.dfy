/** Rebuilding a Prometheus histogram from a ZFS power-of-two bucket array.
    ZFS exports only the per-bucket counts, so the cumulative counts are
    prefix sums and the sum of observations is approximated from each
    bucket's midpoint, the way `zpool iostat` does. */
module Histogram {
  import opened Types

  function Pow2(i: nat): (p: nat)
    ensures p >= 1
  {
    if i == 0 then 1 else 2 * Pow2(i - 1)
  }

  const MinInt64: int := -0x8000_0000_0000_0000

  /** Go's `1 << i` when the constant 1 is typed as a 64-bit `int`: the bit
      reaches the sign at i = 63 and is shifted out beyond it. */
  function ShiftOne(i: nat): int
  {
    if i < 63 then Pow2(i) else if i == 63 then MinInt64 else 0
  }

  /** Go's integer division by a positive divisor, truncating toward zero. */
  function Quo(x: int, y: int): int
    requires y > 0
  {
    if x >= 0 then x / y else -((-x) / y)
  }

  /** Two's-complement wrap-around of a Go `int` (64 bits). */
  function WrapInt64(x: int): int
  {
    (x - MinInt64) % TwoTo64 + MinInt64
  }

  lemma {:induction false} Pow2Add(a: nat, b: nat)
    ensures Pow2(a + b) == Pow2(a) * Pow2(b)
  {
    if a > 0 { Pow2Add(a - 1, b); }
  }

  lemma {:induction false} Pow2Monotone(a: nat, b: nat)
    requires a <= b
    ensures Pow2(a) <= Pow2(b)
  {
    if a < b { Pow2Monotone(a, b - 1); }
  }

  lemma Pow2Of16()
    ensures Pow2(16) == 0x1_0000
  {
    assert Pow2(4) == 16;
    Pow2Add(4, 4);
    Pow2Add(8, 8);
  }

  lemma Pow2Of61()
    ensures Pow2(61) == 0x2000_0000_0000_0000
  {
    Pow2Of16();
    Pow2Add(16, 16);
    assert Pow2(32) == 0x1_0000_0000;
    Pow2Add(32, 16);
    assert Pow2(48) == 0x1_0000_0000_0000;
    Pow2Add(48, 13);
    assert Pow2(13) == 0x2000 by { Pow2Add(4, 4); Pow2Add(8, 5); assert Pow2(5) == 32; }
  }

  /** The value of Go's `(1 << i) + ((1 << i) / 2)` for every bucket index:
      1 for bucket 0 (the half is truncated away), 1.5 * 2^i for buckets 1
      to 62, and the wrapped-around values 2^62 and 0 past the 64-bit int. */
  lemma MidpointValue(i: nat)
    ensures i == 0 ==> Midpoint(i) == 1
    ensures 1 <= i <= 62 ==> 2 * Midpoint(i) == 3 * Pow2(i) && Midpoint(i) == 3 * Pow2(i - 1)
    ensures i == 63 ==> Midpoint(i) == 0x4000_0000_0000_0000
    ensures i >= 64 ==> Midpoint(i) == 0
  {
    if 1 <= i <= 62 {
      Pow2Monotone(i - 1, 61);
      Pow2Of61();
      assert ShiftOne(i) == 2 * Pow2(i - 1);
      assert Quo(ShiftOne(i), 2) == Pow2(i - 1);
    }
  }

  /** The midpoint the source assigns to bucket i, computed in Go's `int`. */
  function Midpoint(i: nat): (m: int)
  {
    WrapInt64(ShiftOne(i) + Quo(ShiftOne(i), 2))
  }

  function MidpointNat(i: nat): nat
  {
    MidpointValue(i);
    Midpoint(i)
  }

  /** The `zpool iostat` convention the midpoint follows takes bucket i to
      hold values from 2^i up to 2^(i+1); up to bucket 62 the midpoint lies in
      that range (and is its lower end for bucket 0). This is not the bound
      the exported histogram gives the bucket: that is 2^i, its upper bound
      (see BoundSum). */
  lemma MidpointInBucket(i: nat)
    requires i <= 62
    ensures Pow2(i) <= Midpoint(i) < Pow2(i + 1)
  {
    MidpointValue(i);
  }

  /** Go's `uint64` addition, which wraps around at 2^64. */
  function AddU64(a: U64, b: U64): U64
  {
    if a + b < TwoTo64 then a + b else a + b - TwoTo64
  }

  /** Exact sum of the bucket counts. */
  function Sum(h: seq<U64>): nat
  {
    if h == [] then 0 else Sum(h[..|h| - 1]) + h[|h| - 1]
  }

  /** The running `uint64` count after adding every bucket of `h` in order. */
  function RunningCount(h: seq<U64>): U64
  {
    if h == [] then 0 else AddU64(RunningCount(h[..|h| - 1]), h[|h| - 1])
  }

  /** Numerator of the approximate sum: each bucket's count times its midpoint. */
  function Weighted(h: seq<U64>): nat
  {
    if h == [] then 0 else Weighted(h[..|h| - 1]) + h[|h| - 1] * MidpointNat(|h| - 1)
  }

  /** The sum if every observation of bucket i sat at 2^i, the upper bound
      the exported histogram publishes for that bucket: the greatest sum the
      published histogram allows. It is also the least sum of the range the
      midpoint convention assumes. */
  function BoundSum(h: seq<U64>): nat
  {
    if h == [] then 0 else BoundSum(h[..|h| - 1]) + h[|h| - 1] * Pow2(|h| - 1)
  }

  /** The sum if every observation of bucket i sat at 2^(i+1), the top of
      the range the midpoint convention assumes. */
  function RangeTopSum(h: seq<U64>): nat
  {
    if h == [] then 0 else RangeTopSum(h[..|h| - 1]) + h[|h| - 1] * Pow2(|h|)
  }

  /** Divisor of the bucket bounds and of the sum: 37-bucket arrays are
      latencies in nanoseconds, reported in seconds. */
  function Divisor(scaled: bool): nat
  {
    if scaled then 1_000_000_000 else 1
  }

  /** Only a 37-bucket array is scaled from nanoseconds to seconds; every
      other length keeps its bounds and sum unscaled. */
  lemma DivisorIff(h: seq<U64>)
    ensures Divisor(Reconstruct(h).scaled) == 1_000_000_000 <==> |h| == 37
    ensures Divisor(Reconstruct(h).scaled) == 1 <==> |h| != 37
  {
  }

  /** What the reconstruction yields for `h`. */
  function Reconstruct(h: seq<U64>): HistoData
  {
    HistoData(RunningCount(h), Weighted(h), |h| == 37,
      seq(|h|, i requires 0 <= i < |h| => Bucket(i, RunningCount(h[..i + 1]))))
  }

  /** The source's loop: accumulate the count, record it at each bucket
      bound, and add count times midpoint to the sum. */
  method ReconstructHistogram(h: seq<U64>) returns (hd: HistoData)
    ensures hd == Reconstruct(h)
  {
    var count: U64 := 0;
    var acc: nat := 0;
    var buckets: seq<Bucket> := [];
    var scaled := |h| == 37;
    for i := 0 to |h|
      invariant count == RunningCount(h[..i])
      invariant acc == Weighted(h[..i])
      invariant |buckets| == i
      invariant forall k :: 0 <= k < i ==> buckets[k] == Bucket(k, RunningCount(h[..k + 1]))
    {
      PrefixStep(h, i);
      count := AddU64(count, h[i]);
      buckets := buckets + [Bucket(i, count)];
      acc := acc + h[i] * MidpointNat(i);
    }
    assert h[..|h|] == h;
    hd := HistoData(count, acc, scaled, buckets);
  }

  /** Extending the prefix by one bucket adds that bucket to the running
      count and the weighted sum. */
  lemma PrefixStep(h: seq<U64>, i: nat)
    requires i < |h|
    ensures RunningCount(h[..i + 1]) == AddU64(RunningCount(h[..i]), h[i])
    ensures Weighted(h[..i + 1]) == Weighted(h[..i]) + h[i] * MidpointNat(i)
  {
    assert h[..i + 1][..i] == h[..i];
  }

  lemma ModStep(s: nat, v: nat)
    ensures (s % TwoTo64 + v) % TwoTo64 == (s + v) % TwoTo64
  {
    var q := s / TwoTo64;
    assert s == q * TwoTo64 + s % TwoTo64;
  }

  /** The running count is the exact sum modulo 2^64. */
  lemma {:induction false} RunningCountIsSum(h: seq<U64>)
    ensures RunningCount(h) == Sum(h) % TwoTo64
  {
    if h != [] {
      var init := h[..|h| - 1];
      RunningCountIsSum(init);
      ModStep(Sum(init), h[|h| - 1]);
    }
  }

  lemma {:induction false} SumPrefixMonotone(h: seq<U64>, i: nat, j: nat)
    requires i <= j <= |h|
    ensures Sum(h[..i]) <= Sum(h[..j])
  {
    if i < j {
      SumPrefixMonotone(h, i, j - 1);
      assert h[..j][..j - 1] == h[..j - 1];
    }
  }

  /** The histogram's count is the total of all buckets (modulo 2^64, as in
      the source's uint64 arithmetic), and the last cumulative bucket
      carries that same count. */
  lemma HistogramCount(h: seq<U64>)
    ensures Reconstruct(h).count == Sum(h) % TwoTo64
    ensures Sum(h) < TwoTo64 ==> Reconstruct(h).count == Sum(h)
    ensures |h| > 0 ==> Reconstruct(h).buckets[|h| - 1].cumulative == Reconstruct(h).count
  {
    RunningCountIsSum(h);
    assert h[..|h|] == h;
  }

  /** Without overflow, the running count after each prefix is the prefix's
      exact sum. */
  lemma PrefixCountExact(h: seq<U64>, n: nat)
    requires Sum(h) < TwoTo64
    requires n <= |h|
    ensures RunningCount(h[..n]) == Sum(h[..n])
  {
    assert h[..|h|] == h;
    SumPrefixMonotone(h, n, |h|);
    RunningCountIsSum(h[..n]);
  }

  /** Without overflow, the value recorded at bucket i is the number of
      observations in buckets 0..i, so it never decreases along the buckets. */
  lemma CumulativeIsPrefixSum(h: seq<U64>, i: nat, j: nat)
    requires Sum(h) < TwoTo64
    requires i <= j < |h|
    ensures Reconstruct(h).buckets[i].cumulative == Sum(h[..i + 1])
    ensures Reconstruct(h).buckets[i].cumulative <= Reconstruct(h).buckets[j].cumulative
  {
    BucketAt(h, i);
    BucketAt(h, j);
    assert RunningCount(h[..i + 1]) == Sum(h[..i + 1]) by { PrefixCountExact(h, i + 1); }
    assert RunningCount(h[..j + 1]) == Sum(h[..j + 1]) by { PrefixCountExact(h, j + 1); }
    SumPrefixMonotone(h, i + 1, j + 1);
  }

  lemma BucketAt(h: seq<U64>, i: nat)
    requires i < |h|
    ensures Reconstruct(h).buckets[i].cumulative == RunningCount(h[..i + 1])
  {
  }

  /** The per-bucket count recovered from a cumulative histogram. */
  function BucketCount(bs: seq<Bucket>, i: nat): int
    requires i < |bs|
  {
    if i == 0 then bs[0].cumulative else bs[i].cumulative - bs[i - 1].cumulative
  }

  /** Without overflow the cumulative buckets lose nothing: the original
      counts come back as differences of neighbouring buckets. */
  lemma BucketsRoundTrip(h: seq<U64>)
    requires Sum(h) < TwoTo64
    ensures forall i :: 0 <= i < |h| ==> BucketCount(Reconstruct(h).buckets, i) == h[i]
  {
    forall i | 0 <= i < |h| ensures BucketCount(Reconstruct(h).buckets, i) == h[i] {
      CumulativeIsPrefixSum(h, i, i);
      assert h[..i + 1][..i] == h[..i];
      if i > 0 {
        CumulativeIsPrefixSum(h, i - 1, i);
      } else {
        assert h[..1][..0] == [];
      }
    }
  }

  predicate AllZero(h: seq<U64>) { forall i :: 0 <= i < |h| ==> h[i] == 0 }

  lemma {:induction false} ZeroSums(h: seq<U64>)
    requires AllZero(h)
    ensures Sum(h) == 0 && Weighted(h) == 0
  {
    if h != [] {
      ZeroSums(h[..|h| - 1]);
    }
  }

  /** An all-zero bucket array gives count 0, sum 0 and 0 at every bound. */
  lemma ZeroHistogram(h: seq<U64>)
    requires AllZero(h)
    ensures Reconstruct(h).count == 0 && Reconstruct(h).sumNumerator == 0
    ensures forall i :: 0 <= i < |h| ==> Reconstruct(h).buckets[i].cumulative == 0
  {
    ZeroSums(h);
    RunningCountIsSum(h);
    forall i | 0 <= i < |h| ensures Reconstruct(h).buckets[i].cumulative == 0 {
      assert AllZero(h[..i + 1]);
      ZeroSums(h[..i + 1]);
      RunningCountIsSum(h[..i + 1]);
    }
  }

  /** A single observation in bucket 0 gives count 1 and a sum of exactly
      1/divisor: the source's integer midpoint of bucket 0 is 1, not 1.5. */
  lemma OneInBucketZero(h: seq<U64>)
    requires |h| > 0 && h[0] == 1 && AllZero(h[1..])
    ensures Reconstruct(h).count == 1 && Reconstruct(h).sumNumerator == 1
  {
    OneInBucketZeroSums(h);
    RunningCountIsSum(h);
  }

  lemma {:induction false} OneInBucketZeroSums(h: seq<U64>)
    requires |h| > 0 && h[0] == 1 && AllZero(h[1..])
    ensures Sum(h) == 1 && Weighted(h) == 1
  {
    if |h| == 1 {
      MidpointValue(0);
      assert h[..0] == [];
    } else {
      var init := h[..|h| - 1];
      assert init[1..] == h[1..|h| - 1];
      OneInBucketZeroSums(init);
      assert h[|h| - 1] == h[1..][|h| - 2];
    }
  }

  /** For arrays of up to 63 buckets, the approximate sum's numerator lies
      within the range the midpoint convention assumes: between the sum at
      the buckets' lower ends and the sum at their tops. */
  lemma {:induction false} WeightedWithinBounds(h: seq<U64>)
    requires |h| <= 63
    ensures BoundSum(h) <= Weighted(h) <= RangeTopSum(h)
  {
    if h != [] {
      var i := |h| - 1;
      WeightedWithinBounds(h[..i]);
      MidpointInBucket(i);
      var v := h[i];
      assert v * Pow2(i) <= v * MidpointNat(i) <= v * Pow2(i + 1) by {
        MulMonotone(v, Pow2(i), MidpointNat(i));
        MulMonotone(v, MidpointNat(i), Pow2(i + 1));
      }
    }
  }

  /** The published histogram and its sum disagree: as soon as a bucket
      other than bucket 0 holds an observation, the approximate sum exceeds
      the greatest sum the published upper bounds allow. */
  lemma {:induction false} WeightedExceedsBounds(h: seq<U64>)
    requires |h| <= 63
    requires exists i :: 1 <= i < |h| && h[i] > 0
    ensures Weighted(h) > BoundSum(h)
  {
    var i := |h| - 1;
    var v := h[i];
    WeightedWithinBounds(h[..i]);
    MidpointValue(i);
    if i >= 1 && v > 0 {
      assert v * Pow2(i) < v * MidpointNat(i) by {
        Pow2Add(1, i - 1);
        StrictMul(v, Pow2(i), MidpointNat(i));
      }
    } else {
      var k :| 1 <= k < |h| && h[k] > 0;
      assert k < i;
      assert h[..i][k] == h[k];
      WeightedExceedsBounds(h[..i]);
      if i >= 1 {
        MidpointInBucket(i);
        MulMonotone(v, Pow2(i), MidpointNat(i));
      }
    }
  }

  /** One observation in bucket 1: the published histogram puts it at or
      below 2, while the approximate sum reports 3. */
  lemma BucketOneExample()
    ensures Reconstruct([0, 1]).count == 1
    ensures Reconstruct([0, 1]).buckets[1] == Bucket(1, 1)
    ensures Reconstruct([0, 1]).sumNumerator == 3 && BoundSum([0, 1]) == 2
  {
    var h: seq<U64> := [0, 1];
    assert h[..1] == [0] && h[..2] == h && [0][..0] == [];
    MidpointValue(0);
    MidpointValue(1);
    assert Weighted([0]) == 0;
    assert BoundSum([0]) == 0;
    assert Pow2(1) == 2;
  }

  lemma StrictMul(v: nat, a: nat, b: nat)
    requires v > 0 && a < b
    ensures v * a < v * b
  {
  }

  lemma MulMonotone(v: nat, a: nat, b: nat)
    requires a <= b
    ensures v * a <= v * b
  {
  }
}
