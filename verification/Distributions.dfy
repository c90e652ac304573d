/** Prometheus histograms as scraped, and their conversion to distributions by
    prometheus-to-sd (prometheus-to-sd/translator/translator.go). */
module PromConvert {
  import opened Basics
  import opened Histograms

  datatype UpperBound = Finite(value: real) | PosInf
  datatype Bucket = Bucket(upper: UpperBound, cumulative: uint64)
  datatype PromHistogram = PromHistogram(sampleCount: uint64, sampleSum: real, buckets: seq<Bucket>)

  function FiniteBounds(buckets: seq<Bucket>): seq<real>
  {
    if buckets == [] then [] else
    var last := buckets[|buckets| - 1];
    FiniteBounds(buckets[..|buckets| - 1]) + if last.upper.Finite? then [last.upper.value] else []
  }

  /** The cumulative count of the last bucket. */
  function LastCount(buckets: seq<Bucket>): uint64
  {
    if buckets == [] then 0 else buckets[|buckets| - 1].cumulative
  }

  /** What each bucket adds to the one before it. */
  function Increments(buckets: seq<Bucket>): (r: seq<int64>)
    ensures |r| == |buckets|
  {
    if buckets == [] then [] else
    var rest := buckets[..|buckets| - 1];
    Increments(rest) + [Int64Diff(LastCount(buckets), LastCount(rest))]
  }

  ghost predicate HasInf(buckets: seq<Bucket>)
  {
    exists i :: 0 <= i < |buckets| && buckets[i].upper.PosInf?
  }

  /** The overflow bucket a histogram without a +Inf bucket leaves implicit. */
  ghost function Overflow(h: PromHistogram): seq<int64>
  {
    var count := Int64Diff(h.sampleCount, 0);
    var last := Int64Diff(LastCount(h.buckets), 0);
    if !HasInf(h.buckets) && count > last then [Int64Sub(count, last)] else []
  }

  ghost function Convert(h: PromHistogram): Distribution
  {
    var count := Int64Diff(h.sampleCount, 0);
    Distribution(count,
                 if count > 0 then h.sampleSum / count as real else 0.0,
                 Explicit(FiniteBounds(h.buckets)),
                 Increments(h.buckets) + Overflow(h))
  }

  /** Where the next bucket begins. */
  function LowerOf(buckets: seq<Bucket>): UpperBound
  {
    if buckets == [] then Finite(0.0) else buckets[|buckets| - 1].upper
  }

  /** The middle of the last bucket; of a last +Inf bucket, its lower end. */
  function Middle(buckets: seq<Bucket>): real
    requires buckets != [] && LowerOf(buckets[..|buckets| - 1]).Finite?
  {
    var lower, last := LowerOf(buckets[..|buckets| - 1]).value, buckets[|buckets| - 1];
    (lower + if last.upper.Finite? then last.upper.value else lower) / 2.0
  }

  /** The sum of squared deviations from the mean, each value taken to be in the
      middle of its bucket. No number if a bucket begins at infinity. */
  function Deviation(buckets: seq<Bucket>, mean: real): Option<real>
  {
    if buckets == [] then Some(0.0) else
    var rest := buckets[..|buckets| - 1];
    var before := Deviation(rest, mean);
    if before.None? || LowerOf(rest).PosInf? then None
    else Some(before.value + Weight(Increments(buckets)[|rest|], Middle(buckets) - mean))
  }

  function Weight(increment: int64, off: real): real
  {
    Uint64(increment) as real * off * off
  }

  lemma NoBuckets(buckets: seq<Bucket>, mean: real)
    ensures FiniteBounds(buckets[..0]) == [] && Increments(buckets[..0]) == [] && LastCount(buckets[..0]) == 0
    ensures !HasInf(buckets[..0]) && LowerOf(buckets[..0]) == Finite(0.0) && Deviation(buckets[..0], mean) == Some(0.0)
  {}

  lemma OneBucketMore(buckets: seq<Bucket>, i: nat, mean: real)
    requires i < |buckets|
    ensures var before, lower, b := Deviation(buckets[..i], mean), LowerOf(buckets[..i]), buckets[i];
      Deviation(buckets[..i + 1], mean) ==
        if before.Some? && lower.Finite? then
          var upper := if b.upper.Finite? then b.upper.value else lower.value;
          Some(before.value + Weight(Int64Diff(b.cumulative, LastCount(buckets[..i])), (lower.value + upper) / 2.0 - mean))
        else None
    ensures FiniteBounds(buckets[..i + 1]) == FiniteBounds(buckets[..i]) + if buckets[i].upper.Finite? then [buckets[i].upper.value] else []
    ensures Increments(buckets[..i + 1]) == Increments(buckets[..i]) + [Int64Diff(buckets[i].cumulative, LastCount(buckets[..i]))]
    ensures LastCount(buckets[..i + 1]) == buckets[i].cumulative && LowerOf(buckets[..i + 1]) == buckets[i].upper
    ensures HasInf(buckets[..i + 1]) <==> HasInf(buckets[..i]) || buckets[i].upper.PosInf?
  {
    hide Weight;
    assert buckets[..i + 1][..i] == buckets[..i];
    if buckets[i].upper.PosInf? {
      assert buckets[..i + 1][i].upper.PosInf?;
    }
    forall j | 0 <= j < i
      ensures buckets[..i + 1][j] == buckets[..i][j]
    {}
  }

  method ConvertToDistributionValue(h: PromHistogram) returns (d: Distribution, dev: Option<real>)
    ensures d == Convert(h)
    ensures dev == Deviation(h.buckets, d.mean)
  {
    hide Weight, Deviation, Middle, FiniteBounds, Increments, HasInf, LowerOf, LastCount, Int64Diff;
    var count := Int64Diff(h.sampleCount, 0);
    var mean := 0.0;
    var bounds: seq<real> := [];
    var values: seq<int64> := [];
    if count > 0 {
      mean := h.sampleSum / count as real;
    }
    var prevVal: uint64 := 0;
    var infSeen := false;
    var lower := Finite(0.0);
    dev := Some(0.0);
    NoBuckets(h.buckets, mean);
    for i := 0 to |h.buckets|
      invariant bounds == FiniteBounds(h.buckets[..i])
      invariant values == Increments(h.buckets[..i])
      invariant prevVal == LastCount(h.buckets[..i])
      invariant infSeen <==> HasInf(h.buckets[..i])
      invariant lower == LowerOf(h.buckets[..i])
      invariant dev == Deviation(h.buckets[..i], mean)
    {
      var b := h.buckets[i];
      OneBucketMore(h.buckets, i, mean);
      if b.upper.Finite? {
        bounds := bounds + [b.upper.value];
      } else {
        infSeen := true;
      }
      values := values + [Int64Diff(b.cumulative, prevVal)];
      if dev.Some? && lower.Finite? {
        var upper := if b.upper.Finite? then b.upper.value else lower.value;
        dev := Some(dev.value + Weight(Int64Diff(b.cumulative, prevVal), (lower.value + upper) / 2.0 - mean));
      } else {
        dev := None;
      }
      lower := b.upper;
      prevVal := b.cumulative;
    }
    assert h.buckets[..|h.buckets|] == h.buckets;
    if !infSeen && count > Int64Diff(prevVal, 0) {
      values := values + [Int64Sub(count, Int64Diff(prevVal, 0))];
    }
    d := Distribution(count, mean, Explicit(bounds), values);
  }

  lemma Product(a: real, b: real)
    ensures a * b == 0.0 <==> a == 0.0 || b == 0.0
    ensures a >= 0.0 && b >= 0.0 ==> a * b >= 0.0
    ensures a == b ==> a * b >= 0.0
  {}

  lemma WeightIsZeroIff(increment: int64, off: real)
    ensures Weight(increment, off) >= 0.0
    ensures Weight(increment, off) == 0.0 <==> increment == 0 || off == 0.0
  {
    var n := Uint64(increment);
    assert n == 0 <==> increment == 0;
    Product(n as real, off * off);
    Product(off, off);
    assert n as real * off * off == n as real * (off * off);
  }

  /** A bucket with values has its middle at the mean. */
  ghost predicate AtMean(buckets: seq<Bucket>, i: nat, mean: real)
    requires 0 < i <= |buckets|
  {
    Increments(buckets)[i - 1] != 0 ==> LowerOf(buckets[..i - 1]).Finite? && Middle(buckets[..i]) == mean
  }

  lemma AtMeanBefore(buckets: seq<Bucket>, i: nat, mean: real)
    requires 0 < i < |buckets|
    ensures AtMean(buckets, i, mean) <==> AtMean(buckets[..|buckets| - 1], i, mean)
  {
    var rest := buckets[..|buckets| - 1];
    assert rest[..i] == buckets[..i] && rest[..i - 1] == buckets[..i - 1];
  }

  /** The deviation is a number unless a bucket follows a +Inf bucket, it is
      never negative, and it is zero exactly if every bucket with values has its
      middle at the mean. */
  lemma {:induction false} DeviationIsZeroIff(buckets: seq<Bucket>, mean: real)
    ensures Deviation(buckets, mean).Some? <==> forall i :: 0 <= i < |buckets| - 1 ==> buckets[i].upper.Finite?
    ensures Deviation(buckets, mean).Some? ==>
      && Deviation(buckets, mean).value >= 0.0
      && (Deviation(buckets, mean).value == 0.0 <==> forall i :: 0 < i <= |buckets| ==> AtMean(buckets, i, mean))
  {
    if buckets != [] {
      var n := |buckets|;
      var rest := buckets[..n - 1];
      DeviationIsZeroIff(rest, mean);
      if Deviation(buckets, mean).Some? {
        LastWeight(buckets, mean);
        forall i | 0 < i < n
          ensures AtMean(buckets, i, mean) <==> AtMean(rest, i, mean)
        {
          AtMeanBefore(buckets, i, mean);
        }
      }
      hide AtMean, Middle, Weight;
    }
  }

  lemma LastWeight(buckets: seq<Bucket>, mean: real)
    requires buckets != [] && LowerOf(buckets[..|buckets| - 1]).Finite?
    ensures var w := Weight(Increments(buckets)[|buckets| - 1], Middle(buckets) - mean);
      w >= 0.0 && (w == 0.0 <==> AtMean(buckets, |buckets|, mean))
  {
    hide Weight, Middle, Increments;
    assert buckets[..|buckets|] == buckets;
    WeightIsZeroIff(Increments(buckets)[|buckets| - 1], Middle(buckets) - mean);
  }

  // -------------------------------------------------- the deviation by moments

  /** How many values a bucket holds, and where its middle is. */
  function Holds(b: seq<Bucket>, i: nat): int
    requires i < |b|
  {
    b[i].cumulative - if i == 0 then 0 else b[i - 1].cumulative
  }

  function MiddleAt(b: seq<Bucket>, i: nat): real
    requires i < |b| && forall j :: 0 <= j < i ==> b[j].upper.Finite?
  {
    var lower := if i == 0 then 0.0 else b[i - 1].upper.value;
    (lower + match b[i].upper case Finite(v) => v case PosInf => lower) / 2.0
  }

  function Times(a: real, b: real): real
  {
    a * b
  }

  /** The sum of the values of the first `n` buckets, each in its middle, and the
      sum of their squares. */
  function SumOfValues(b: seq<Bucket>, n: nat): real
    requires n <= |b| && forall j :: 0 <= j < n - 1 ==> b[j].upper.Finite?
  {
    if n == 0 then 0.0 else SumOfValues(b, n - 1) + Times(Holds(b, n - 1) as real, MiddleAt(b, n - 1))
  }

  function SumOfSquares(b: seq<Bucket>, n: nat): real
    requires n <= |b| && forall j :: 0 <= j < n - 1 ==> b[j].upper.Finite?
  {
    if n == 0 then 0.0 else SumOfSquares(b, n - 1) + Times(Holds(b, n - 1) as real, Times(MiddleAt(b, n - 1), MiddleAt(b, n - 1)))
  }

  /** Cumulative counts, and bounds that are numbers except perhaps the last. */
  ghost predicate Cumulative(b: seq<Bucket>)
  {
    && (forall i, j :: 0 <= i <= j < |b| ==> b[i].cumulative <= b[j].cumulative)
    && (forall i :: 0 <= i < |b| - 1 ==> b[i].upper.Finite?)
  }

  lemma SquareOfDifference(c: real, x: real, m: real)
    ensures c * (x - m) * (x - m) == c * (x * x) - 2.0 * m * (c * x) + m * m * c
  {
    assert c * (x - m) == c * x - c * m;
    assert (c * x - c * m) * (x - m) == (c * x) * x - (c * x) * m - (c * m) * x + (c * m) * m;
    assert (c * x) * x == c * (x * x);
    assert (c * m) * x == m * (c * x) && (c * m) * m == m * m * c;
  }

  lemma WeightOf(increment: int64, count: int, x: real, m: real)
    requires Uint64(increment) == count
    ensures Weight(increment, x - m) ==
      Times(count as real, Times(x, x)) - 2.0 * Times(m, Times(count as real, x)) + Times(Times(m, m), count as real)
  {
    SquareOfDifference(count as real, x, m);
    assert 2.0 * m * (count as real * x) == 2.0 * Times(m, Times(count as real, x));
  }

  lemma WrappedDifference(a: uint64, b: uint64)
    requires b <= a
    ensures Uint64(Int64Diff(a, b)) == a - b
  {}

  /** The sum of squared distances from `mean` of values with this sum of
      squares, sum and number. */
  function Spread(squares: real, values: real, count: real, mean: real): real
  {
    squares - 2.0 * Times(mean, values) + Times(Times(mean, mean), count)
  }

  /** The deviation from any mean is the sum of squares, less twice the mean times
      the sum, plus the square of the mean times the number of values: the sums
      being those of values in the middle of their buckets. */
  lemma {:induction false} DeviationByMoments(b: seq<Bucket>, n: nat, mean: real)
    requires n <= |b| && Cumulative(b)
    ensures Deviation(b[..n], mean) == Some(Spread(SumOfSquares(b, n), SumOfValues(b, n), LastCount(b[..n]) as real, mean))
  {
    if n == 0 {
      NoBuckets(b, mean);
    } else {
      DeviationByMoments(b, n - 1, mean);
      hide Deviation, Spread, SumOfSquares, SumOfValues, LastCount, Weight;
      LastBucketAdds(b, n, mean);
      MomentsAdd(b, n, mean);
    }
  }

  lemma LastBucketAdds(b: seq<Bucket>, n: nat, mean: real)
    requires 0 < n <= |b| && Cumulative(b) && Deviation(b[..n - 1], mean).Some?
    ensures Deviation(b[..n], mean)
      == Some(Deviation(b[..n - 1], mean).value + Weight(Int64Diff(b[n - 1].cumulative, LastCount(b[..n - 1])), MiddleAt(b, n - 1) - mean))
  {
    hide Deviation, Weight, Int64Diff, LastCount;
    LastLower(b, n - 1);
    OneBucketMore(b, n - 1, mean);
  }

  lemma LastLower(b: seq<Bucket>, n: nat)
    requires n < |b| && forall j :: 0 <= j < n ==> b[j].upper.Finite?
    ensures LowerOf(b[..n]) == Finite(if n == 0 then 0.0 else b[n - 1].upper.value)
  {}

  lemma MomentsAdd(b: seq<Bucket>, n: nat, mean: real)
    requires 0 < n <= |b| && Cumulative(b)
    ensures Spread(SumOfSquares(b, n), SumOfValues(b, n), LastCount(b[..n]) as real, mean)
      == Spread(SumOfSquares(b, n - 1), SumOfValues(b, n - 1), LastCount(b[..n - 1]) as real, mean)
       + Weight(Int64Diff(b[n - 1].cumulative, LastCount(b[..n - 1])), MiddleAt(b, n - 1) - mean)
  {
    var total := LastCount(b[..n - 1]);
    WrappedDifference(b[n - 1].cumulative, total);
    OneMoment(SumOfSquares(b, n - 1), SumOfValues(b, n - 1), total, Holds(b, n - 1),
              Int64Diff(b[n - 1].cumulative, total), MiddleAt(b, n - 1), mean);
    hide Spread, Weight, Int64Diff, MiddleAt, Times;
  }

  lemma OneMoment(squares: real, values: real, total: int, count: int, increment: int64, x: real, mean: real)
    requires Uint64(increment) == count
    ensures Spread(squares + Times(count as real, Times(x, x)), values + Times(count as real, x), (total + count) as real, mean)
      == Spread(squares, values, total as real, mean) + Weight(increment, x - mean)
  {
    WeightOf(increment, count, x, mean);
    SpreadAdds(squares, values, total as real, count as real, x, mean);
    hide Spread, Weight, Times;
  }

  lemma SpreadAdds(squares: real, values: real, total: real, count: real, x: real, mean: real)
    ensures Spread(squares + Times(count, Times(x, x)), values + Times(count, x), total + count, mean)
      == Spread(squares, values, total, mean) + (Times(count, Times(x, x)) - 2.0 * Times(mean, Times(count, x)) + Times(Times(mean, mean), count))
  {
    Distributes(mean, values, Times(count, x));
    Distributes(Times(mean, mean), total, count);
    hide Times;
  }

  lemma Distributes(a: real, b: real, c: real)
    ensures Times(a, b + c) == Times(a, b) + Times(a, c)
  {}

  /** What a shift of the mean does: so the deviation is least at the true mean. */
  lemma DeviationShifts(b: seq<Bucket>, m1: real, m2: real)
    requires Cumulative(b)
    ensures Deviation(b, m1).Some? && Deviation(b, m2).Some?
    ensures var n, sum := LastCount(b) as real, SumOfValues(b, |b|);
      && Deviation(b, m2).value - Deviation(b, m1).value == n * (m2 * m2 - m1 * m1) - 2.0 * (m2 - m1) * sum
      && (n * m1 == sum ==> Deviation(b, m2).value >= Deviation(b, m1).value)
  {
    hide Deviation, SumOfSquares, SumOfValues, LastCount, Spread;
    assert b[..|b|] == b;
    DeviationByMoments(b, |b|, m1);
    DeviationByMoments(b, |b|, m2);
    SpreadShifts(SumOfSquares(b, |b|), SumOfValues(b, |b|), LastCount(b) as real, m1, m2);
  }

  lemma SpreadShifts(squares: real, values: real, count: real, m1: real, m2: real)
    requires count >= 0.0
    ensures Spread(squares, values, count, m2) - Spread(squares, values, count, m1)
      == count * (m2 * m2 - m1 * m1) - 2.0 * (m2 - m1) * values
    ensures count * m1 == values ==> Spread(squares, values, count, m2) >= Spread(squares, values, count, m1)
  {
    assert count * (m2 * m2 - m1 * m1) == Times(Times(m2, m2), count) - Times(Times(m1, m1), count);
    assert 2.0 * (m2 - m1) * values == 2.0 * Times(m2, values) - 2.0 * Times(m1, values);
    if count * m1 == values {
      var d := m2 - m1;
      assert count * (d * d) >= 0.0;
      assert count * (d * d) == count * (m2 * m2 - m1 * m1) - 2.0 * d * (count * m1);
    }
  }

  /** Two values up to 4 and one up to 8, around their mean 4. */
  lemma DeviationOfThree()
    ensures Deviation([Bucket(Finite(4.0), 2), Bucket(Finite(8.0), 3)], 4.0) == Some(12.0)
  {
    var b := [Bucket(Finite(4.0), 2), Bucket(Finite(8.0), 3)];
    assert b[..2] == b;
    DeviationByMoments(b, 2, 4.0);
    assert SumOfValues(b, 1) == 4.0 && SumOfValues(b, 2) == 10.0;
    assert SumOfSquares(b, 1) == 8.0 && SumOfSquares(b, 2) == 44.0;
  }

  /** A histogram as the exposition format promises it: counts
      never fall and never exceed the sample count, and +Inf can only be the
      last bucket, where it equals the sample count. */
  ghost predicate WellFormedProm(h: PromHistogram)
  {
    var b := h.buckets;
    && (forall i, j :: 0 <= i <= j < |b| ==> b[i].cumulative <= b[j].cumulative)
    && (forall i :: 0 <= i < |b| ==> b[i].cumulative <= h.sampleCount)
    && (forall i :: 0 <= i < |b| - 1 ==> b[i].upper.Finite?)
    && (|b| > 0 && b[|b| - 1].upper.PosInf? ==> b[|b| - 1].cumulative == h.sampleCount)
  }

  /** The buckets with a finite bound. */
  ghost function FiniteCount(h: PromHistogram): nat
  {
    var n := |h.buckets|;
    if n > 0 && h.buckets[n - 1].upper.PosInf? then n - 1 else n
  }

  lemma {:induction false} FiniteBoundsAt(buckets: seq<Bucket>)
    requires forall i :: 0 <= i < |buckets| ==> buckets[i].upper.Finite?
    ensures |FiniteBounds(buckets)| == |buckets|
    ensures forall i :: 0 <= i < |buckets| ==> FiniteBounds(buckets)[i] == buckets[i].upper.value
  {
    if buckets != [] {
      FiniteBoundsAt(buckets[..|buckets| - 1]);
    }
  }

  lemma FiniteBoundsOf(h: PromHistogram)
    requires WellFormedProm(h)
    ensures |FiniteBounds(h.buckets)| == FiniteCount(h)
    ensures forall i :: 0 <= i < FiniteCount(h) ==> FiniteBounds(h.buckets)[i] == h.buckets[i].upper.value
  {
    var n := FiniteCount(h);
    FiniteBoundsAt(h.buckets[..n]);
    if n == |h.buckets| {
      assert h.buckets[..n] == h.buckets;
    }
  }

  /** The counts of the converted histogram telescope. */
  lemma {:induction false} IncrementsTelescope(buckets: seq<Bucket>, raw: seq<nat>)
    requires forall i, j :: 0 <= i <= j < |buckets| ==> buckets[i].cumulative <= buckets[j].cumulative
    requires |buckets| <= |raw|
    requires forall i :: 0 <= i < |buckets| ==> raw[i] == Uint64(Increments(buckets)[i])
    ensures PrefixSum(raw, |buckets|) == LastCount(buckets)
  {
    var n := |buckets|;
    if n > 0 {
      var rest := buckets[..n - 1];
      assert forall i :: 0 <= i < n - 1 ==> Increments(buckets)[i] == Increments(rest)[i];
      IncrementsTelescope(rest, raw);
    }
  }

  /** Increments of a prefix of the buckets. */
  lemma {:induction false} IncrementsPrefix(buckets: seq<Bucket>, k: nat)
    requires k <= |buckets|
    ensures Increments(buckets[..k]) == Increments(buckets)[..k]
  {
    if k == |buckets| {
      assert buckets[..k] == buckets;
    } else {
      var rest := buckets[..|buckets| - 1];
      IncrementsPrefix(rest, k);
      assert rest[..k] == buckets[..k];
    }
  }

  /** The padded counts of the converted histogram, summed up to a bucket. */
  lemma RawCountsTelescope(h: PromHistogram, raw: seq<nat>, k: nat)
    requires WellFormedProm(h)
    requires k <= |h.buckets| && k <= |raw|
    requires raw == RawCounts(Convert(h).bucketCounts, |raw|)
    ensures PrefixSum(raw, k) == LastCount(h.buckets[..k])
  {
    IncrementsPrefix(h.buckets, k);
    var front := h.buckets[..k];
    assert forall i :: 0 <= i < k ==> Increments(front)[i] == Convert(h).bucketCounts[i];
    IncrementsTelescope(front, raw);
  }

  lemma DivideThenMultiply(sum: real, count: nat)
    requires count > 0
    ensures sum / count as real * count as real == sum
  {}

  lemma MultiplyThenDivide(mean: real, sum: real, count: nat)
    requires count > 0 && sum == mean * count as real
    ensures sum / count as real == mean
  {}

  /** The sum survives unless nothing (or more than an int64 holds) was
      observed, when the mean is written as 0. */
  lemma RoundTripSum(h: PromHistogram)
    ensures Convert(h).mean * Convert(h).count as real == if 0 < h.sampleCount < TWO_63 then h.sampleSum else 0.0
  {
    if 0 < h.sampleCount < TWO_63 {
      DivideThenMultiply(h.sampleSum, h.sampleCount);
    }
  }

  /** Converting back gives the scraped histogram: same bounds, same cumulative
      counts, same count, and the same sum as far as RoundTripSum says. It is
      refused exactly when there is no finite bucket. */
  lemma RoundTrip(h: PromHistogram)
    requires WellFormedProm(h)
    ensures ToHistogram(Convert(h)).None? <==> FiniteCount(h) == 0
    ensures FiniteCount(h) > 0 ==>
      var r := ToHistogram(Convert(h)).value;
      && r.count == h.sampleCount
      && r.sum == (if 0 < h.sampleCount < TWO_63 then h.sampleSum else 0.0)
      && |r.upperBounds| == |r.cumCounts| == FiniteCount(h)
      && (forall i :: 0 <= i < FiniteCount(h) ==>
        r.upperBounds[i] == h.buckets[i].upper.value && r.cumCounts[i] == h.buckets[i].cumulative)
      && WellFormed(r)
  {
    FiniteBoundsOf(h);
    if FiniteCount(h) > 0 {
      RoundTripSum(h);
      RoundTripCounts(h);
      hide Convert, RawCounts, FiniteBounds, Cumulate;
    }
  }

  lemma RoundTripCounts(h: PromHistogram)
    requires WellFormedProm(h) && FiniteCount(h) > 0
    ensures ToHistogram(Convert(h)).Some?
    ensures var r := ToHistogram(Convert(h)).value;
      && r.count == h.sampleCount && r.sum == Convert(h).mean * Convert(h).count as real
      && |r.upperBounds| == |r.cumCounts| == FiniteCount(h)
      && r.upperBounds == FiniteBounds(h.buckets)
      && forall i :: 0 <= i < FiniteCount(h) ==> r.cumCounts[i] == h.buckets[i].cumulative
  {
    FiniteBoundsOf(h);
    var n := FiniteCount(h);
    forall i | 0 <= i < n
      ensures PrefixSum(RawCounts(Convert(h).bucketCounts, n + 1), i + 1) == h.buckets[i].cumulative
    {
      CountAt(h, n, i);
    }
    hide RawCounts, PrefixSum, Increments, Overflow, FiniteBounds, WellFormedProm;
  }

  lemma CountAt(h: PromHistogram, n: nat, i: nat)
    requires WellFormedProm(h) && i < n <= |h.buckets|
    ensures PrefixSum(RawCounts(Convert(h).bucketCounts, n + 1), i + 1) == h.buckets[i].cumulative
  {
    RawCountsTelescope(h, RawCounts(Convert(h).bucketCounts, n + 1), i + 1);
    hide RawCounts, PrefixSum, Increments, Overflow;
  }

  lemma {:induction false} IncrementsSumUp(buckets: seq<Bucket>)
    requires forall i, j :: 0 <= i <= j < |buckets| ==> buckets[i].cumulative <= buckets[j].cumulative
    requires forall i :: 0 <= i < |buckets| ==> buckets[i].cumulative < TWO_63
    ensures SumUp(Increments(buckets)) == LastCount(buckets)
  {
    if buckets != [] {
      IncrementsSumUp(buckets[..|buckets| - 1]);
      assert Increments(buckets)[..|buckets| - 1] == Increments(buckets[..|buckets| - 1]);
    }
  }

  /** The bucket counts written, the overflow included, are not negative and add
      up to the count, whatever buckets there are: also with none, or with only
      the +Inf bucket. */
  lemma CountsAddUp(h: PromHistogram)
    requires WellFormedProm(h) && h.sampleCount < TWO_63
    ensures var d := Convert(h);
      && SumUp(d.bucketCounts) == d.count == h.sampleCount
      && (forall i :: 0 <= i < |d.bucketCounts| ==> d.bucketCounts[i] >= 0)
      && |d.bucketCounts| <= |FiniteBounds(h.buckets)| + 1
  {
    IncrementsNonNegative(h.buckets);
    IncrementsSumUp(h.buckets);
    OverflowIsTheRest(h);
    FiniteBoundsOf(h);
    SumUpConcat(Increments(h.buckets), Overflow(h));
    hide Increments, Overflow, SumUp, FiniteBounds;
  }

  lemma SumUpConcat(counts: seq<int64>, more: seq<int64>)
    requires |more| <= 1
    ensures SumUp(counts + more) == SumUp(counts) + if more == [] then 0 else more[0]
  {
    if more == [] {
      assert counts + more == counts;
    } else {
      assert (counts + more)[..|counts|] == counts;
    }
  }

  lemma OverflowIsTheRest(h: PromHistogram)
    requires WellFormedProm(h) && h.sampleCount < TWO_63
    ensures Overflow(h) == if LastCount(h.buckets) < h.sampleCount then [h.sampleCount - LastCount(h.buckets)] else []
    ensures LastCount(h.buckets) <= h.sampleCount
    ensures |h.buckets| + |Overflow(h)| <= FiniteCount(h) + 1
  {
    var n := |h.buckets|;
    if n > 0 && h.buckets[n - 1].upper.PosInf? {
      assert HasInf(h.buckets);
    } else {
      assert !HasInf(h.buckets);
    }
  }

  lemma {:induction false} IncrementsNonNegative(buckets: seq<Bucket>)
    requires forall i, j :: 0 <= i <= j < |buckets| ==> buckets[i].cumulative <= buckets[j].cumulative
    requires forall i :: 0 <= i < |buckets| ==> buckets[i].cumulative < TWO_63
    ensures forall i :: 0 <= i < |buckets| ==> Increments(buckets)[i] >= 0
  {
    if buckets != [] {
      IncrementsNonNegative(buckets[..|buckets| - 1]);
    }
  }

  /** Where there is a finite bucket, so that the layout can be read back, what
      prometheus-to-sd writes is a consistent distribution. */
  lemma ConvertIsConsistent(h: PromHistogram)
    requires WellFormedProm(h) && h.sampleCount < TWO_63 && FiniteCount(h) > 0
    ensures Consistent(Convert(h))
  {
    FiniteBoundsOf(h);
    CountsAddUp(h);
  }

  // ----------------------------------------------------------- the other way

  /** The first `k` buckets of a served histogram, as scraped. */
  function ScrapedBuckets(h: HistValue, k: nat): (b: seq<Bucket>)
    requires WellFormed(h) && h.count < TWO_64 && k <= |h.cumCounts|
    ensures |b| == k
    ensures forall i :: 0 <= i < k ==> b[i] == Bucket(Finite(h.upperBounds[i]), h.cumCounts[i])
  {
    if k == 0 then [] else ScrapedBuckets(h, k - 1) + [Bucket(Finite(h.upperBounds[k - 1]), h.cumCounts[k - 1])]
  }

  /** A served histogram, as scraped: the text format adds the +Inf bucket, the
      protobuf format leaves it out. */
  function Scraped(h: HistValue, withInf: bool): PromHistogram
    requires WellFormed(h) && h.count < TWO_64
  {
    PromHistogram(h.count, h.sum, ScrapedBuckets(h, |h.cumCounts|) + if withInf then [Bucket(PosInf, h.count)] else [])
  }

  /** Differences of cumulative counts are the counts. */
  lemma {:induction false} IncrementsOfCumulate(buckets: seq<Bucket>, raw: seq<nat>)
    requires |buckets| <= |raw|
    requires forall i :: 0 <= i < |buckets| ==> buckets[i].cumulative == PrefixSum(raw, i + 1)
    requires forall i :: 0 <= i < |buckets| ==> raw[i] < TWO_63
    ensures forall i :: 0 <= i < |buckets| ==> Increments(buckets)[i] == raw[i]
  {
    if buckets != [] {
      var n := |buckets| - 1;
      var rest := buckets[..n];
      IncrementsOfCumulate(rest, raw);
      assert forall i :: 0 <= i < n ==> Increments(buckets)[i] == Increments(rest)[i];
      assert LastCount(rest) == PrefixSum(raw, n);
      assert PrefixSum(raw, n + 1) == PrefixSum(raw, n) + raw[n];
    }
  }

  /** Each count of a consistent distribution is at most its total. */
  lemma {:induction false} CountsBelowTotal(raw: seq<nat>, k: nat, total: nat)
    requires k <= |raw| && PrefixSum(raw, k) <= total
    ensures forall i :: 0 <= i < k ==> raw[i] <= total
  {
    if k > 0 {
      CountsBelowTotal(raw, k - 1, total);
    }
  }

  lemma ScrapedIncrements(d: Distribution, withInf: bool)
    requires Consistent(d) && WellFormed(ToHistogram(d).value)
    ensures var s := Scraped(ToHistogram(d).value, withInf);
      var n := |Bounds(d.options).value|;
      var raw := RawCounts(d.bucketCounts, n + 1);
      && |s.buckets| == (if withInf then n + 1 else n)
      && forall i :: 0 <= i < |s.buckets| ==> Increments(s.buckets)[i] == raw[i]
  {
    var h := ToHistogram(d).value;
    var n := |Bounds(d.options).value|;
    var raw := RawCounts(d.bucketCounts, n + 1);
    ConsistentAddsUp(d);
    CountsBelowTotal(raw, n + 1, d.count);
    IncrementsOfCumulate(Scraped(h, withInf).buckets, raw);
  }

  lemma ScrapedCounts(d: Distribution, withInf: bool)
    requires Consistent(d) && WellFormed(ToHistogram(d).value)
    ensures var counts := Convert(Scraped(ToHistogram(d).value, withInf)).bucketCounts;
      var n := |Bounds(d.options).value|;
      |counts| <= n + 1 && RawCounts(counts, n + 1) == RawCounts(d.bucketCounts, n + 1)
  {
    ScrapedIncrements(d, withInf);
    var s := Scraped(ToHistogram(d).value, withInf);
    var n := |Bounds(d.options).value|;
    var raw := RawCounts(d.bucketCounts, n + 1);
    BoundsAscend(d.options);
    var counts := Convert(s).bucketCounts;
    OverflowIsLast(d, withInf);
    forall i | 0 <= i < n + 1
      ensures RawCounts(counts, n + 1)[i] == raw[i]
    {
      if i < |s.buckets| {
        assert counts[i] == Increments(s.buckets)[i];
      }
    }
  }

  lemma OverflowIsLast(d: Distribution, withInf: bool)
    requires Consistent(d) && WellFormed(ToHistogram(d).value)
    ensures var s := Scraped(ToHistogram(d).value, withInf);
      var n := |Bounds(d.options).value|;
      var last := RawCounts(d.bucketCounts, n + 1)[n];
      Overflow(s) == if withInf || last == 0 then [] else [last]
  {
    var s := Scraped(ToHistogram(d).value, withInf);
    var n := |Bounds(d.options).value|;
    var raw := RawCounts(d.bucketCounts, n + 1);
    BoundsAscend(d.options);
    hide RawCounts;
    if withInf {
      assert s.buckets[n].upper.PosInf?;
    } else {
      ConsistentAddsUp(d);
      assert LastCount(s.buckets) == PrefixSum(raw, n);
    }
  }

  lemma ScrapedBounds(d: Distribution, withInf: bool)
    requires Consistent(d) && WellFormed(ToHistogram(d).value)
    ensures Bounds(Convert(Scraped(ToHistogram(d).value, withInf)).options) == Bounds(d.options)
  {
    var h := ToHistogram(d).value;
    var s := Scraped(h, withInf);
    BoundsAscend(d.options);
    hide RawCounts, Increments, Overflow;
    FiniteBoundsOf(s);
    assert FiniteBounds(s.buckets) == h.upperBounds;
  }

  /** Back the other way: serving a consistent distribution as a histogram and
      converting the scrape gives the distribution back, up to the way its
      bounds are written and trailing zero buckets. */
  lemma RoundTripBack(d: Distribution, withInf: bool)
    requires Consistent(d)
    ensures WellFormed(ToHistogram(d).value)
    ensures var d' := Convert(Scraped(ToHistogram(d).value, withInf));
      var n := |Bounds(d.options).value|;
      && Bounds(d'.options) == Bounds(d.options)
      && RawCounts(d'.bucketCounts, n + 1) == RawCounts(d.bucketCounts, n + 1)
      && |d'.bucketCounts| <= n + 1
      && d'.count == d.count
      && d'.mean == if d.count > 0 then d.mean else 0.0
  {
    ConsistentIsWellFormed(d);
    ScrapedCounts(d, withInf);
    ScrapedBounds(d, withInf);
    ScrapedMean(d, withInf);
    hide Convert, Scraped, ToHistogram, RawCounts, WellFormed;
  }

  lemma ScrapedMean(d: Distribution, withInf: bool)
    requires Consistent(d) && WellFormed(ToHistogram(d).value)
    ensures var d' := Convert(Scraped(ToHistogram(d).value, withInf));
      d'.count == d.count && d'.mean == if d.count > 0 then d.mean else 0.0
  {
    hide RawCounts, Increments, Overflow, FiniteBounds, Cumulate;
    var s := Scraped(ToHistogram(d).value, withInf);
    var count: nat := d.count;
    assert Int64Diff(s.sampleCount, 0) == count && s.sampleSum == d.mean * count as real;
    if count > 0 {
      MultiplyThenDivide(d.mean, s.sampleSum, count);
    }
  }
}
