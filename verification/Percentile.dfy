/** The bucketed percentile estimate (agent/analysis/percentile.go) against the exact
    order statistic; floats are modelled as reals. */
module Percentile {
  const BOUNDARIES: seq<real> :=
    [1.0, 2.0, 4.0, 8.0, 16.0, 32.0, 64.0, 128.0, 256.0, 512.0, 1024.0, 2048.0, 4096.0]

  const LAST: nat := 13

  /** The upper boundary of a bounded bucket, and the lower one (0 for the first). */
  function Upper(i: nat): real
    requires i < LAST
  {
    BOUNDARIES[i]
  }

  function Lower(i: nat): real
    requires i <= LAST
  {
    if i == 0 then 0.0 else BOUNDARIES[i - 1]
  }

  /** Bucket `i` holds exactly the values above its lower and up to its upper boundary;
      the first has no lower boundary and the last no upper one. */
  predicate InBucket(v: real, i: nat) {
    i <= LAST && (i == 0 || v > BOUNDARIES[i - 1]) && (i == LAST || v <= BOUNDARIES[i])
  }

  lemma BoundariesGrow(i: nat, j: nat)
    requires i < j < LAST
    ensures BOUNDARIES[i] < BOUNDARIES[j]
    ensures j == i + 1 ==> BOUNDARIES[j] == 2.0 * BOUNDARIES[i]
  {
  }

  lemma OneBucket(v: real, i: nat, j: nat)
    requires InBucket(v, i) && InBucket(v, j)
    ensures i == j
  {
    if i < j {
      if i < j - 1 { BoundariesGrow(i, j - 1); }
    } else if j < i {
      if j < i - 1 { BoundariesGrow(j, i - 1); }
    }
  }

  /** `findBucket` */
  method FindBucket(v: real) returns (i: nat)
    ensures InBucket(v, i)
  {
    i := 0;
    while i < |BOUNDARIES|
      invariant 0 <= i <= |BOUNDARIES|
      invariant i > 0 ==> v > BOUNDARIES[i - 1]
    {
      if v <= BOUNDARIES[i] {
        return;
      }
      i := i + 1;
    }
  }

  // ----- counting -----

  /** How many values are at most `x`, and below `x`. */
  function AtMost(values: seq<real>, x: real): (n: nat)
    ensures n <= |values|
  {
    if values == [] then 0 else (if values[0] <= x then 1 else 0) + AtMost(values[1..], x)
  }

  function Below(values: seq<real>, x: real): (n: nat)
    ensures n <= AtMost(values, x)
  {
    if values == [] then 0 else (if values[0] < x then 1 else 0) + Below(values[1..], x)
  }

  /** `x` is the r-th smallest of the values. */
  ghost predicate IsRank(values: seq<real>, x: real, r: nat) {
    x in values && Below(values, x) < r <= AtMost(values, x)
  }

  /** Values up to the end of bucket `i`. */
  ghost function UpTo(values: seq<real>, i: int): nat
    requires -1 <= i <= LAST
  {
    if i < 0 then 0 else if i == LAST then |values| else AtMost(values, BOUNDARIES[i])
  }

  /** The counts of the first `i` buckets. */
  function Sum(buckets: seq<nat>, i: nat): (n: nat)
    requires i <= |buckets|
  {
    if i == 0 then 0 else Sum(buckets, i - 1) + buckets[i - 1]
  }

  /** The buckets count the values: cumulatively, each boundary has the right number of
      values at or below it. */
  ghost predicate Counts(buckets: seq<nat>, values: seq<real>) {
    |buckets| == LAST + 1 && forall i :: 0 <= i <= LAST ==> Sum(buckets, i + 1) == UpTo(values, i)
  }

  lemma {:induction false} AtMostAppend(values: seq<real>, v: real, x: real)
    ensures AtMost(values + [v], x) == AtMost(values, x) + if v <= x then 1 else 0
  {
    if values == [] {
      assert values + [v] == [v];
      assert AtMost([v], x) == (if v <= x then 1 else 0) + AtMost([], x);
    } else {
      assert (values + [v])[1..] == values[1..] + [v];
      AtMostAppend(values[1..], v, x);
    }
  }

  lemma {:induction false} SumAfterAdd(buckets: seq<nat>, b: nat, i: nat)
    requires b < |buckets| && i <= |buckets|
    ensures Sum(buckets[b := buckets[b] + 1], i) == Sum(buckets, i) + if b < i then 1 else 0
  {
    if i > 0 { SumAfterAdd(buckets, b, i - 1); }
  }

  lemma BucketAtMost(v: real, b: nat, i: nat)
    requires InBucket(v, b) && i < LAST
    ensures v <= BOUNDARIES[i] <==> b <= i
  {
    if b < i { BoundariesGrow(b, i); }
    if i < b - 1 { BoundariesGrow(i, b - 1); }
  }

  lemma AddKeepsCounts(buckets: seq<nat>, values: seq<real>, v: real, b: nat)
    requires Counts(buckets, values) && InBucket(v, b)
    ensures Counts(buckets[b := buckets[b] + 1], values + [v])
  {
    forall i | 0 <= i <= LAST
      ensures Sum(buckets[b := buckets[b] + 1], i + 1) == UpTo(values + [v], i)
    {
      SumAfterAdd(buckets, b, i + 1);
      assert Sum(buckets, i + 1) == UpTo(values, i);
      if i < LAST {
        AtMostAppend(values, v, BOUNDARIES[i]);
        BucketAtMost(v, b, i);
      }
    }
  }

  // ----- the estimate -----

  /** `int(math.Ceil(x))` */
  function Ceil(x: real): int {
    -((-x).Floor)
  }

  function Target(line: real, n: nat): int {
    Ceil(line * n as real)
  }

  /** `x` is the exact percentile: the ceil(line * n)-th smallest value. */
  ghost predicate IsTarget(values: seq<real>, x: real, line: real) {
    Target(line, |values|) >= 0 && IsRank(values, x, Target(line, |values|))
  }

  /** Bucket `i` is where the running count first reaches `target`. */
  ghost predicate Hit(buckets: seq<nat>, target: int, i: nat) {
    i < |buckets| && Sum(buckets, i) < target <= Sum(buckets, i + 1)
  }

  /** The value returned from the bucket hit. */
  function Estimate(buckets: seq<nat>, target: int, i: nat): real
    requires i < |buckets| == LAST + 1 && buckets[i] > 0
  {
    if i == LAST then BOUNDARIES[LAST - 1] * 2.0
    else Interpolated(Sum(buckets, i + 1) - target, buckets[i], Lower(i), Upper(i))
  }

  /** With `left` of `count` ranks still to go in a bucket from `lo` to `hi`. */
  function Interpolated(left: int, count: nat, lo: real, hi: real): real
    requires count > 0
  {
    var percent := 1.0 - left as real / count as real;
    percent * (hi - lo) + lo
  }

  /** `r` is the estimate for a line: the value taken from the bucket its target falls in. */
  ghost predicate IsEstimate(buckets: seq<nat>, n: nat, line: real, r: real)
    requires |buckets| == LAST + 1
  {
    exists i: nat :: Hit(buckets, Target(line, n), i) && buckets[i] > 0 && r == Estimate(buckets, Target(line, n), i)
  }

  /** The computation once the bucket is found. */
  method Interpolate(buckets: seq<nat>, percentileIndex: int, i: nat, count: nat) returns (r: real)
    requires i < |buckets| == LAST + 1 && buckets[i] > 0 && count == Sum(buckets, i + 1)
    ensures r == Estimate(buckets, percentileIndex, i)
  {
    if i == |BOUNDARIES| {
      return BOUNDARIES[|BOUNDARIES| - 1] * 2.0;
    }
    var percent := 1.0 - (count - percentileIndex) as real / buckets[i] as real;
    var prevBoundary := 0.0;
    if i > 0 {
      prevBoundary := BOUNDARIES[i - 1];
    }
    return percent * (BOUNDARIES[i] - prevBoundary) + prevBoundary;
  }

  class PercentileCalculator {
    var buckets: seq<nat>
    var totalValues: nat
    ghost var values: seq<real> // everything added so far

    constructor ()
      ensures Valid() && values == []
    {
      buckets := seq(LAST + 1, _ => 0);
      totalValues, values := 0, [];
      new;
      ZeroCounts(buckets);
    }

    ghost predicate Valid()
      reads this
    {
      Counts(buckets, values) && totalValues == |values|
    }

    method AddValue(v: real)
      requires Valid()
      modifies this
      ensures Valid() && values == old(values) + [v]
    {
      var bucketIndex := FindBucket(v);
      AddKeepsCounts(buckets, values, v, bucketIndex);
      buckets := buckets[bucketIndex := buckets[bucketIndex] + 1];
      totalValues := totalValues + 1;
      values := values + [v];
    }

    /** Without data, or above the top of the scale, the answer is zero; otherwise it
        is taken from the bucket the target falls in. A line of zero or less could
        divide zero by zero and is not asked for. */
    method CalculatePercentile(line: real) returns (r: real)
      requires Valid() && line > 0.0
      ensures values == [] || line > 1.0 ==> r == 0.0
      ensures values != [] && line <= 1.0 ==>
        |buckets| == LAST + 1 && IsEstimate(buckets, |values|, line, r)
      ensures values != [] && line <= 1.0 ==> forall x, b: nat ::
        InBucket(x, b) && IsTarget(values, x, line) ==> InBucket(r, b)
    {
      if totalValues == 0 {
        return 0.0;
      }
      var percentileIndex := Target(line, totalValues);
      TargetRange(line, totalValues);
      assert Sum(buckets, LAST + 1) == UpTo(values, LAST);
      var count := 0;
      var i := 0;
      while i < |buckets|
        invariant 0 <= i <= |buckets|
        invariant count == Sum(buckets, i) < percentileIndex
      {
        var bucketCount := buckets[i];
        count := count + bucketCount;
        if count >= percentileIndex {
          SumGrows(buckets, i + 1, LAST + 1);
          assert Hit(buckets, percentileIndex, i);
          r := Interpolate(buckets, percentileIndex, i, count);
          forall x, b: nat | line <= 1.0 && InBucket(x, b) && IsTarget(values, x, line) ensures InBucket(r, b) {
            EstimateAccurate(buckets, values, line, i, x);
            OneBucket(x, b, i);
          }
          return;
        }
        i := i + 1;
      }
      return 0.0;
    }
  }

  lemma ZeroCounts(buckets: seq<nat>)
    requires |buckets| == LAST + 1 && forall i :: 0 <= i < |buckets| ==> buckets[i] == 0
    ensures Counts(buckets, [])
  {
    forall i | 0 <= i <= LAST ensures Sum(buckets, i + 1) == UpTo([], i) { ZeroSum(buckets, i + 1); }
  }

  lemma {:induction false} ZeroSum(buckets: seq<nat>, i: nat)
    requires i <= |buckets| && forall j :: 0 <= j < |buckets| ==> buckets[j] == 0
    ensures Sum(buckets, i) == 0
  {
    if i > 0 { ZeroSum(buckets, i - 1); }
  }

  lemma {:induction false} SumGrows(buckets: seq<nat>, i: nat, j: nat)
    requires i <= j <= |buckets|
    ensures Sum(buckets, i) <= Sum(buckets, j)
    decreases j
  {
    if i < j { SumGrows(buckets, i, j - 1); }
  }

  lemma TargetRange(line: real, n: nat)
    requires line > 0.0 && n > 0
    ensures Target(line, n) >= 1
    ensures line <= 1.0 <==> Target(line, n) <= n
  {
    var x := line * n as real;
    assert x > 0.0;
    if line <= 1.0 {
      assert x <= n as real;
    } else {
      assert x > n as real;
    }
  }

  // ----- accuracy -----

  lemma HitUnique(buckets: seq<nat>, target: int, i: nat, j: nat)
    requires Hit(buckets, target, i) && Hit(buckets, target, j)
    ensures i == j
  {
    if i < j { SumGrows(buckets, i + 1, j); }
    if j < i { SumGrows(buckets, j + 1, i); }
  }

  /** A part `a` of `b`, less than all of it, leaves a share in (0, 1]. */
  lemma Share(a: int, b: int)
    requires 0 <= a < b
    ensures 0.0 < 1.0 - a as real / b as real <= 1.0
  {
  }

  /** The estimate lies inside the bucket hit. */
  lemma EstimateInBucket(buckets: seq<nat>, target: int, i: nat)
    requires |buckets| == LAST + 1 && Hit(buckets, target, i)
    ensures buckets[i] > 0 && InBucket(Estimate(buckets, target, i), i)
    ensures i < LAST ==> Lower(i) < Estimate(buckets, target, i) <= Upper(i)
  {
    if i < LAST {
      var percent := 1.0 - (Sum(buckets, i + 1) - target) as real / buckets[i] as real;
      Share(Sum(buckets, i + 1) - target, buckets[i]);
      Scaled(percent, Upper(i) - Lower(i));
      assert Upper(i) - Lower(i) > 0.0;
    }
  }

  lemma Scaled(p: real, w: real)
    requires 0.0 < p <= 1.0 && w > 0.0
    ensures 0.0 < p * w <= w
  {
  }

  lemma {:induction false} AtMostMonotone(values: seq<real>, x: real, y: real)
    requires x <= y
    ensures AtMost(values, x) <= AtMost(values, y)
  {
    if values != [] { AtMostMonotone(values[1..], x, y); }
  }

  lemma {:induction false} AtMostBelow(values: seq<real>, x: real, y: real)
    requires x < y
    ensures AtMost(values, x) <= Below(values, y)
  {
    if values != [] { AtMostBelow(values[1..], x, y); }
  }

  /** The bucket of the r-th smallest value is the bucket the count r falls in. */
  lemma RankBucket(buckets: seq<nat>, values: seq<real>, x: real, r: nat, i: nat)
    requires Counts(buckets, values) && IsRank(values, x, r) && InBucket(x, i)
    ensures Hit(buckets, r, i)
  {
    assert Sum(buckets, i + 1) == UpTo(values, i);
    if i < LAST { AtMostMonotone(values, x, BOUNDARIES[i]); }
    if i > 0 {
      assert Sum(buckets, i - 1 + 1) == UpTo(values, i - 1);
      AtMostBelow(values, BOUNDARIES[i - 1], x);
    }
  }

  /** The largest value below `x`, when there is one. */
  lemma {:induction false} MaxBelow(values: seq<real>, x: real) returns (y: real)
    requires Below(values, x) > 0
    ensures y in values && y < x && AtMost(values, y) == Below(values, x)
  {
    var rest := values[1..];
    assert values == [values[0]] + rest;
    if Below(rest, x) == 0 {
      y := values[0];
      NoneBelow(rest, x, y);
    } else {
      y := MaxBelow(rest, x);
      if values[0] < x {
        if values[0] > y {
          y := values[0];
          NoneBetween(rest, y, x);
        }
      }
    }
  }

  lemma {:induction false} NoneBelow(values: seq<real>, x: real, y: real)
    requires Below(values, x) == 0 && y < x
    ensures AtMost(values, y) == 0
  {
    if values != [] { NoneBelow(values[1..], x, y); }
  }

  lemma {:induction false} NoneBetween(values: seq<real>, y: real, x: real)
    requires y < x && exists m :: m <= y && AtMost(values, m) == Below(values, x)
    ensures AtMost(values, y) == Below(values, x)
  {
    var m :| m <= y && AtMost(values, m) == Below(values, x);
    AtMostMonotone(values, m, y);
    AtMostBelow(values, y, x);
  }

  /** Every rank from 1 to n has a value: the order statistic exists. */
  lemma {:induction false} RankFrom(values: seq<real>, x: real, r: nat) returns (y: real)
    requires x in values && 1 <= r <= AtMost(values, x)
    ensures IsRank(values, y, r)
    decreases Below(values, x)
  {
    if Below(values, x) < r {
      y := x;
    } else {
      var z := MaxBelow(values, x);
      FewerBelow(values, z, x);
      y := RankFrom(values, z, r);
    }
  }

  lemma {:induction false} FewerBelow(values: seq<real>, z: real, x: real)
    requires z in values && z < x
    ensures Below(values, z) < Below(values, x)
  {
    var rest := values[1..];
    if z in rest {
      FewerBelow(rest, z, x);
    } else {
      BelowMonotone(rest, z, x);
    }
  }

  lemma {:induction false} BelowMonotone(values: seq<real>, z: real, x: real)
    requires z <= x
    ensures Below(values, z) <= Below(values, x)
  {
    if values != [] { BelowMonotone(values[1..], z, x); }
  }

  lemma {:induction false} Maximum(values: seq<real>) returns (x: real)
    requires values != []
    ensures x in values && AtMost(values, x) == |values|
  {
    if |values| == 1 {
      x := values[0];
      assert values[1..] == [];
    } else {
      x := Maximum(values[1..]);
      if values[0] > x {
        AtMostMonotone(values[1..], x, values[0]);
        x := values[0];
      }
    }
  }

  lemma OrderStatistic(values: seq<real>, r: nat) returns (x: real)
    requires 1 <= r <= |values|
    ensures IsRank(values, x, r)
  {
    var top := Maximum(values);
    x := RankFrom(values, top, r);
  }

  /** Percentile accuracy: for a line in (0, 1] on non-empty data the estimate lies in
      the same bucket as the exact ceil(line * n)-th smallest value, whatever value that
      is, and within a factor of two of it when it is in (1, 4096]. */
  lemma EstimateAccurate(buckets: seq<nat>, values: seq<real>, line: real, i: nat, x: real)
    requires Counts(buckets, values) && 0.0 < line <= 1.0 && values != []
    requires Hit(buckets, Target(line, |values|), i)
    requires IsTarget(values, x, line)
    ensures buckets[i] > 0 && InBucket(x, i) && InBucket(Estimate(buckets, Target(line, |values|), i), i)
    ensures 1.0 < x <= 4096.0 ==>
      var e := Estimate(buckets, Target(line, |values|), i); e < 2.0 * x && x < 2.0 * e
  {
    var t := Target(line, |values|);
    EstimateInBucket(buckets, t, i);
    var j := BucketOf(x);
    RankBucket(buckets, values, x, t, j);
    HitUnique(buckets, t, i, j);
    if 1.0 < x <= 4096.0 {
      assert 0 < i < LAST;
      BoundariesGrow(i - 1, i);
    }
  }

  lemma BucketOf(x: real) returns (j: nat)
    ensures InBucket(x, j)
  {
    j := 0;
    while j < LAST && x > BOUNDARIES[j]
      invariant 0 <= j <= LAST && (j > 0 ==> x > BOUNDARIES[j - 1])
    {
      j := j + 1;
    }
  }

  lemma TargetMonotone(a: real, b: real, n: nat)
    requires a <= b
    ensures Target(a, n) <= Target(b, n)
  {
    assert a * n as real <= b * n as real;
  }

  /** The target is the least whole number not below line * n. */
  lemma TargetIsCeil(line: real, n: nat)
    ensures (Target(line, n) - 1) as real < line * n as real <= Target(line, n) as real
  {
  }

  /** Inside a bounded bucket equal steps in rank are equal steps in value, and the last
      rank of the bucket gives its upper boundary. */
  lemma EstimateLinear(buckets: seq<nat>, t: int, i: nat)
    requires i < LAST && |buckets| == LAST + 1 && buckets[i] > 0
    ensures Estimate(buckets, Sum(buckets, i + 1), i) == Upper(i)
    ensures Estimate(buckets, t + 1, i) - Estimate(buckets, t, i) == (Upper(i) - Lower(i)) / buckets[i] as real
  {
    InterpolatedEnd(buckets[i], Lower(i), Upper(i));
    InterpolatedStep(Sum(buckets, i + 1) - t, buckets[i], Lower(i), Upper(i));
  }

  /** Above the scale the answer is twice its top. */
  lemma EstimateTop(buckets: seq<nat>, t: int)
    requires |buckets| == LAST + 1 && buckets[LAST] > 0
    ensures Estimate(buckets, t, LAST) == 8192.0
  {
  }

  lemma InterpolatedEnd(count: nat, lo: real, hi: real)
    requires count > 0
    ensures Interpolated(0, count, lo, hi) == hi
  {
  }

  lemma InterpolatedStep(left: int, count: nat, lo: real, hi: real)
    requires count > 0
    ensures Interpolated(left - 1, count, lo, hi) - Interpolated(left, count, lo, hi) == (hi - lo) / count as real
  {
    var b, w, x := count as real, hi - lo, (left - 1) as real;
    assert left as real == x + 1.0;
    assert (x + 1.0) / b == x / b + 1.0 / b;
    assert (1.0 - x / b) * w - (1.0 - (x / b + 1.0 / b)) * w == (1.0 / b) * w;
  }

  /** The percentile is monotone in the line: for two calls on the same data, the higher
      line never gets the lower answer. */
  lemma PercentileMonotone(buckets: seq<nat>, n: nat, a: real, b: real)
    requires |buckets| == LAST + 1 && a <= b
    ensures forall r, q :: IsEstimate(buckets, n, a, r) && IsEstimate(buckets, n, b, q) ==> r <= q
  {
    forall r, q | IsEstimate(buckets, n, a, r) && IsEstimate(buckets, n, b, q) ensures r <= q {
      var i: nat :| Hit(buckets, Target(a, n), i) && buckets[i] > 0 && r == Estimate(buckets, Target(a, n), i);
      var j: nat :| Hit(buckets, Target(b, n), j) && buckets[j] > 0 && q == Estimate(buckets, Target(b, n), j);
      TargetMonotone(a, b, n);
      EstimateMonotone(buckets, Target(a, n), Target(b, n), i, j);
    }
  }

  /** A higher target never gives a lower estimate. */
  lemma EstimateMonotone(buckets: seq<nat>, s: int, t: int, i: nat, j: nat)
    requires |buckets| == LAST + 1 && s <= t && Hit(buckets, s, i) && Hit(buckets, t, j)
    ensures buckets[i] > 0 && buckets[j] > 0 && Estimate(buckets, s, i) <= Estimate(buckets, t, j)
  {
    EstimateInBucket(buckets, s, i);
    EstimateInBucket(buckets, t, j);
    if i == j {
      if i < LAST { SameBucketMonotone(buckets, s, t, i); }
    } else if j < i {
      SumGrows(buckets, j + 1, i);
      assert false;
    } else if j < LAST {
      if i < j - 1 { BoundariesGrow(i, j - 1); }
    } else {
      if i < LAST - 1 { BoundariesGrow(i, LAST - 1); }
    }
  }

  lemma SameBucketMonotone(buckets: seq<nat>, s: int, t: int, i: nat)
    requires i < LAST && |buckets| == LAST + 1 && buckets[i] > 0 && s <= t
    ensures Estimate(buckets, s, i) <= Estimate(buckets, t, i)
  {
    var c, b := Sum(buckets, i + 1), buckets[i];
    Divided(c - t, c - s, b);
    var p, q, w := 1.0 - (c - s) as real / b as real, 1.0 - (c - t) as real / b as real, Upper(i) - Lower(i);
    assert w > 0.0;
    ScaledMonotone(p, q, w);
  }

  lemma Divided(a: int, c: int, b: int)
    requires a <= c && b > 0
    ensures a as real / b as real <= c as real / b as real
  {
  }

  lemma ScaledMonotone(p: real, q: real, w: real)
    requires p <= q && w > 0.0
    ensures p * w <= q * w
  {
  }
}
