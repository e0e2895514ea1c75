/** Pause histogram: 66 power-of-two buckets against the exact order statistics of what was recorded. */
module GcPauses {
  import opened Options

  const BUCKETS: nat := 66
  const U64_MAX: nat := 0xFFFF_FFFF_FFFF_FFFF
  const U128_MAX: nat := 0xFFFF_FFFF_FFFF_FFFF_FFFF_FFFF_FFFF_FFFF

  function Min(a: nat, b: nat): nat { if a < b then a else b }
  function Max(a: nat, b: nat): nat { if a < b then b else a }

  function Power(k: nat): (p: nat)
    ensures p >= 1
  {
    if k == 0 then 1 else 2 * Power(k - 1)
  }

  /** Bits needed to write `n`: 64 minus its leading zeros. */
  function BitLength(n: nat): (k: nat)
    ensures n < Power(k)
    ensures n > 0 ==> k > 0 && Power(k - 1) <= n
  {
    if n == 0 then 0 else BitLength(n / 2) + 1
  }

  /** Zero has its own bucket; a positive pause goes to the bucket of its rounded-up logarithm. */
  function BucketIndex(nanos: nat): (i: nat)
    ensures i < BUCKETS
  {
    if nanos == 0 then 0 else Min(BitLength(nanos - 1) + 1, BUCKETS - 1)
  }

  function BucketUpperBound(i: nat): nat {
    if i == 0 then 0 else if i <= 64 then Power(i - 1) else U64_MAX
  }

  // ----- Buckets -----

  lemma {:induction false} PowerGrows(a: nat, b: nat)
    requires a <= b
    ensures Power(a) <= Power(b)
  {
    if a < b {
      PowerGrows(a, b - 1);
    }
  }

  lemma {:induction false} BitLengthGrows(m: nat, n: nat)
    requires m <= n
    ensures BitLength(m) <= BitLength(n)
  {
    if m > 0 {
      BitLengthGrows(m / 2, n / 2);
    }
  }

  lemma BitLengthFits(n: nat)
    requires n <= U64_MAX
    ensures BitLength(n) <= 64
  {
    PowerOf64();
    if BitLength(n) > 64 {
      PowerGrows(64, BitLength(n) - 1);
    }
  }

  lemma PowerOf64()
    ensures Power(64) == U64_MAX + 1 && Power(63) == 0x8000_0000_0000_0000
  {
    PowerOf8();
    hide Power;
    PowerSum(8, 8);
    PowerSum(16, 16);
    PowerSum(32, 32);
    PowerStep(63);
  }

  lemma PowerOf8()
    ensures Power(8) == 256
  {
  }

  lemma PowerStep(k: nat)
    ensures Power(k + 1) == 2 * Power(k)
  {
  }

  lemma {:induction false} PowerSum(a: nat, b: nat)
    ensures Power(a + b) == Power(a) * Power(b)
  {
    if b > 0 {
      PowerSum(a, b - 1);
      assert Power(a + b) == 2 * Power(a + (b - 1));
    }
  }

  lemma BucketsOrdered(m: nat, n: nat)
    requires m <= n
    ensures BucketIndex(m) <= BucketIndex(n)
  {
    if m > 0 {
      BitLengthGrows(m - 1, n - 1);
    }
  }

  /** A bucket's bound is never below its pauses, exact at zero, and less than twice any positive one. */
  lemma BucketBrackets(n: nat)
    requires n <= U64_MAX
    ensures n <= BucketUpperBound(BucketIndex(n))
    ensures BucketUpperBound(BucketIndex(n)) == 0 <==> n == 0
    ensures n > 0 ==> BucketUpperBound(BucketIndex(n)) < 2 * n
  {
    if n > 0 {
      BitLengthFits(n - 1);
      PowerOf64();
      var k := BitLength(n - 1);
      assert n - 1 < Power(k);
      if k > 0 {
        assert Power(k) == 2 * Power(k - 1) && Power(k - 1) <= n - 1;
      }
    }
  }

  lemma {:induction false} BoundsOrdered(i: nat, j: nat)
    requires i <= j < BUCKETS
    ensures BucketUpperBound(i) <= BucketUpperBound(j)
  {
    PowerOf64();
    if 0 < i && j <= 64 {
      PowerGrows(i - 1, j - 1);
    } else if 0 < i <= 64 {
      PowerGrows(i - 1, 63);
    }
  }

  // ----- Order statistics -----

  function CountBelow(s: seq<nat>, v: nat): (n: nat)
    ensures n <= |s|
  {
    if s == [] then 0 else CountBelow(s[..|s| - 1], v) + if s[|s| - 1] < v then 1 else 0
  }

  /** `v` is the `k`-th smallest sample, counting from one. */
  predicate IsOrderStatistic(s: seq<nat>, k: nat, v: nat) { CountBelow(s, v) < k <= CountBelow(s, v + 1) }

  lemma {:induction false} CountGrows(s: seq<nat>, v: nat, w: nat)
    requires v <= w
    ensures CountBelow(s, v) <= CountBelow(s, w)
  {
    if s != [] {
      CountGrows(s[..|s| - 1], v, w);
    }
  }

  lemma OrderStatisticsOrdered(s: seq<nat>, j: nat, k: nat, v: nat, w: nat)
    requires j <= k && IsOrderStatistic(s, j, v) && IsOrderStatistic(s, k, w)
    ensures v <= w
    ensures j == k ==> v == w
  {
    if w < v {
      CountGrows(s, w + 1, v);
    }
    if v < w {
      CountGrows(s, v + 1, w);
    }
  }

  lemma {:induction false} OrderStatisticBelow(s: seq<nat>, k: nat, bound: nat)
    requires 1 <= k <= CountBelow(s, bound)
    ensures exists v: nat :: v < bound && IsOrderStatistic(s, k, v)
  {
    NothingBelowZero(s);
    if CountBelow(s, bound - 1) < k {
      assert IsOrderStatistic(s, k, bound - 1);
    } else {
      OrderStatisticBelow(s, k, bound - 1);
    }
  }

  lemma {:induction false} NothingBelowZero(s: seq<nat>)
    ensures CountBelow(s, 0) == 0
  {
    if s != [] {
      NothingBelowZero(s[..|s| - 1]);
    }
  }

  lemma {:induction false} AllBelow(s: seq<nat>, bound: nat)
    requires forall i | 0 <= i < |s| :: s[i] < bound
    ensures CountBelow(s, bound) == |s|
  {
    if s != [] {
      AllBelow(s[..|s| - 1], bound);
    }
  }

  /** In a sorted list the `k`-th smallest sample is element `k - 1`. */
  lemma {:induction false} SortedOrderStatistic(s: seq<nat>, k: nat)
    requires 1 <= k <= |s| && forall i, j | 0 <= i <= j < |s| :: s[i] <= s[j]
    ensures IsOrderStatistic(s, k, s[k - 1])
  {
    SortedCount(s, |s|, k, s[k - 1]);
    assert s[..|s|] == s;
  }

  lemma {:induction false} SortedCount(s: seq<nat>, n: nat, k: nat, v: nat)
    requires n <= |s| && 1 <= k <= |s| && v == s[k - 1]
    requires forall i, j | 0 <= i <= j < |s| :: s[i] <= s[j]
    ensures CountBelow(s[..n], v) < k
    ensures Min(n, k) <= CountBelow(s[..n], v + 1)
  {
    if n > 0 {
      SortedCount(s, n - 1, k, v);
      assert s[..n][..n - 1] == s[..n - 1];
    }
  }

  // ----- The histogram as it runs -----

  /** Recorded pauses in bucket `i`, and in buckets up to `i`. */
  function CountIn(s: seq<nat>, i: nat): (n: nat)
    ensures n <= |s|
  {
    if s == [] then 0 else CountIn(s[..|s| - 1], i) + if BucketIndex(s[|s| - 1]) == i then 1 else 0
  }

  function CountUpTo(s: seq<nat>, i: int): (n: nat)
    ensures n <= |s|
  {
    if s == [] then 0 else CountUpTo(s[..|s| - 1], i) + if BucketIndex(s[|s| - 1]) <= i then 1 else 0
  }

  function Total(s: seq<nat>): nat { if s == [] then 0 else Total(s[..|s| - 1]) + s[|s| - 1] }

  function Longest(s: seq<nat>): nat { if s == [] then 0 else Max(Longest(s[..|s| - 1]), s[|s| - 1]) }

  lemma {:induction false} CountsAdd(s: seq<nat>, i: nat)
    ensures CountUpTo(s, i) == CountUpTo(s, i - 1) + CountIn(s, i)
  {
    if s != [] {
      CountsAdd(s[..|s| - 1], i);
    }
  }

  lemma {:induction false} CountUpToEnds(s: seq<nat>)
    ensures CountUpTo(s, -1) == 0 && CountUpTo(s, BUCKETS - 1) == |s|
  {
    if s != [] {
      CountUpToEnds(s[..|s| - 1]);
    }
  }

  /** Pauses in the buckets up to that of `v` include every pause up to `v`; those in lower buckets are below `v`. */
  lemma {:induction false} BucketsBracketSample(s: seq<nat>, i: int, v: nat)
    ensures BucketIndex(v) <= i ==> CountBelow(s, v + 1) <= CountUpTo(s, i)
    ensures i < BucketIndex(v) ==> CountUpTo(s, i) <= CountBelow(s, v)
  {
    if s != [] {
      var last := s[|s| - 1];
      BucketsBracketSample(s[..|s| - 1], i, v);
      if last <= v {
        BucketsOrdered(last, v);
      } else {
        BucketsOrdered(v, last);
      }
    }
  }

  /** The first bucket whose cumulative count reaches the rank is the bucket of the exact statistic. */
  lemma RankBucket(s: seq<nat>, rank: nat, i: nat, v: nat)
    requires IsOrderStatistic(s, rank, v) && CountUpTo(s, i - 1) < rank <= CountUpTo(s, i)
    ensures i == BucketIndex(v)
  {
    BucketsBracketSample(s, i, v);
    BucketsBracketSample(s, i - 1, v);
  }

  /** `n` samples at percentile `p`: the rank, rounded up. */
  function Rank(n: nat, percentile: nat): (rank: nat)
    ensures n * percentile <= rank * 100 < n * percentile + 100
  {
    (n * percentile + 99) / 100
  }

  lemma RankBounds(n: nat, percentile: nat)
    ensures percentile == 0 ==> Rank(n, percentile) == 0
    ensures n > 0 && percentile > 0 ==> Rank(n, percentile) >= 1
    ensures percentile <= 100 ==> Rank(n, percentile) <= n
    ensures n > 0 && percentile > 100 ==> Rank(n, percentile) > n
  {
    if n > 0 && percentile > 0 {
      assert n * percentile >= n;
    }
    if percentile <= 100 {
      assert n * (100 - percentile) >= 0;
    } else {
      assert n * (percentile - 100) >= n;
    }
  }

  lemma RanksOrdered(n: nat, p: nat, q: nat)
    requires p <= q
    ensures Rank(n, p) <= Rank(n, q)
  {
    assert n * (q - p) >= 0;
  }

  /** The exact answer a histogram answer stands for. */
  ghost predicate Approximates(answer: nat, exact: nat) {
    && exact <= answer
    && (answer == 0 <==> exact == 0)
    && (exact > 0 ==> answer < 2 * exact)
  }

  class PauseHistogram {
    const buckets: array<nat>
    var samples: nat
    var totalNanos: nat
    var maxNanos: nat
    /** Every recorded pause, each saturated to 64 bits. */
    ghost var recorded: seq<nat>

    ghost predicate Valid()
      reads this, buckets
    {
      && buckets.Length == BUCKETS
      && (forall i | 0 <= i < BUCKETS :: buckets[i] == Min(CountIn(recorded, i), U64_MAX))
      && samples == Min(|recorded|, U64_MAX)
      && totalNanos == Min(Total(recorded), U128_MAX)
      && maxNanos == Longest(recorded)
      && forall i | 0 <= i < |recorded| :: recorded[i] <= U64_MAX
    }

    constructor ()
      ensures Valid() && recorded == [] && fresh(buckets)
    {
      buckets := new nat[BUCKETS](_ => 0);
      samples, totalNanos, maxNanos, recorded := 0, 0, 0, [];
    }

    /** Adds one elapsed time; every counter saturates. */
    method Record(elapsed: nat)
      requires Valid()
      modifies this, buckets
      ensures Valid() && recorded == old(recorded) + [Min(elapsed, U64_MAX)]
    {
      var nanos := Min(elapsed, U64_MAX);
      var bucket := BucketIndex(nanos);
      buckets[bucket] := Min(buckets[bucket] + 1, U64_MAX);
      samples := Min(samples + 1, U64_MAX);
      totalNanos := Min(totalNanos + nanos, U128_MAX);
      maxNanos := Max(maxNanos, nanos);
      recorded := recorded + [nanos];
      assert recorded[..|recorded| - 1] == old(recorded);
    }

    /** One pass over the buckets, compared with the exact order statistic of everything recorded. */
    method PercentileUpper(percentile: nat) returns (answer: Option<nat>)
      requires Valid() && percentile <= 255
      ensures answer.None? <==> recorded == []
      ensures recorded != [] && percentile == 0 ==> answer == Some(0)
      ensures 0 < |recorded| <= U64_MAX && percentile > 100 ==> answer == Some(U64_MAX)
      ensures 0 < |recorded| <= U64_MAX && 1 <= percentile <= 100 ==>
        exists exact: nat ::
          && IsOrderStatistic(recorded, Rank(|recorded|, percentile), exact) && exact in recorded
          && answer == Some(BucketUpperBound(BucketIndex(exact))) && Approximates(answer.value, exact)
    {
      if samples == 0 { return None; }
      var rank := Rank(samples, percentile);
      RankBounds(samples, percentile);
      CountUpToEnds(recorded);
      var cumulative := 0;
      for i := 0 to BUCKETS
        invariant |recorded| <= U64_MAX ==> cumulative == CountUpTo(recorded, i - 1)
        invariant i > 0 ==> cumulative < rank
      {
        CountsAdd(recorded, i);
        cumulative := cumulative + buckets[i];
        if cumulative >= rank {
          if |recorded| <= U64_MAX && 1 <= percentile <= 100 {
            FirstBucketReached(recorded, rank, i);
          }
          return Some(BucketUpperBound(i));
        }
      }
      return Some(U64_MAX);
    }
  }

  lemma FirstBucketReached(s: seq<nat>, rank: nat, i: nat)
    requires forall j | 0 <= j < |s| :: s[j] <= U64_MAX
    requires 1 <= rank <= |s| && i < BUCKETS && CountUpTo(s, i - 1) < rank <= CountUpTo(s, i)
    ensures exists exact: nat ::
              && IsOrderStatistic(s, rank, exact) && exact in s
              && i == BucketIndex(exact) && Approximates(BucketUpperBound(i), exact)
  {
    AllBelow(s, U64_MAX + 1);
    OrderStatisticBelow(s, rank, U64_MAX + 1);
    var exact: nat :| exact < U64_MAX + 1 && IsOrderStatistic(s, rank, exact);
    OrderStatisticIn(s, rank, exact);
    RankBucket(s, rank, i, exact);
    BucketBrackets(exact);
  }

  lemma OrderStatisticIn(s: seq<nat>, k: nat, v: nat)
    requires IsOrderStatistic(s, k, v)
    ensures v in s
  {
    if v !in s {
      NoneEqual(s, v);
    }
  }

  lemma {:induction false} NoneEqual(s: seq<nat>, v: nat)
    requires v !in s
    ensures CountBelow(s, v + 1) == CountBelow(s, v)
  {
    if s != [] {
      NoneEqual(s[..|s| - 1], v);
    }
  }

  /** The reported percentiles never cross. */
  lemma PercentilesOrdered(s: seq<nat>, p: nat, q: nat, v: nat, w: nat)
    requires 1 <= p <= q && IsOrderStatistic(s, Rank(|s|, p), v) && IsOrderStatistic(s, Rank(|s|, q), w)
    ensures BucketUpperBound(BucketIndex(v)) <= BucketUpperBound(BucketIndex(w))
  {
    RanksOrdered(|s|, p, q);
    OrderStatisticsOrdered(s, Rank(|s|, p), Rank(|s|, q), v, w);
    BucketsOrdered(v, w);
    BoundsOrdered(BucketIndex(v), BucketIndex(w));
  }
}
