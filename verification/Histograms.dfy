/** Distributions of Cloud Monitoring and the classic Prometheus histograms the
    proxy derives from them (internal/translate/hist.go). */
module Histograms {
  import opened Basics

  datatype BucketOptions =
    | Explicit(bounds: seq<real>)
    | Linear(numFinite: nat, width: real, offset: real)
    | Exponential(numFinite: nat, growth: real, scale: real)
    | Unspecified

  datatype Distribution = Distribution(count: int64, mean: real, options: BucketOptions, bucketCounts: seq<int64>)

  /** The value of a Prometheus histogram: the +Inf bucket is `count`. */
  datatype HistValue = HistValue(count: nat, sum: real, upperBounds: seq<real>, cumCounts: seq<nat>)

  /** Every bound has its count, counts never fall from one bound to the next
      and none exceeds the total. */
  predicate WellFormed(h: HistValue)
  {
    && |h.cumCounts| == |h.upperBounds|
    && (forall i, j :: 0 <= i <= j < |h.cumCounts| ==> h.cumCounts[i] <= h.cumCounts[j])
    && (forall i :: 0 <= i < |h.cumCounts| ==> h.cumCounts[i] <= h.count)
  }

  // ---------------------------------------------------------------- bounds

  function Pow(b: real, n: nat): real
  {
    if n == 0 then 1.0 else Pow(b, n - 1) * b
  }

  function LinearBound(width: real, offset: real, i: nat): real
  {
    offset + i as real * width
  }

  function ExponentialBound(growth: real, scale: real, i: nat): real
  {
    scale * Pow(growth, i)
  }

  /** The finite upper bounds of a bucket layout; None where the proxy does not
      support it. An explicit layout without bounds is indistinguishable from a
      missing one. */
  function Bounds(opts: BucketOptions): Option<seq<real>>
  {
    match opts
    case Explicit(bounds) => if bounds == [] then None else Some(bounds)
    case Linear(n, width, offset) => Some(seq(n + 1, i requires 0 <= i => LinearBound(width, offset, i)))
    case Exponential(n, growth, scale) => Some(seq(n + 1, i requires 0 <= i => ExponentialBound(growth, scale, i)))
    case Unspecified => None
  }

  method DistBounds(opts: BucketOptions) returns (bounds: Option<seq<real>>)
    ensures bounds == Bounds(opts)
  {
    match opts {
      case Explicit(bs) =>
        bounds := if bs == [] then None else Some(bs);
      case Linear(n, width, offset) =>
        var out: seq<real> := [];
        for i := 0 to n + 1
          invariant |out| == i && forall j :: 0 <= j < i ==> out[j] == LinearBound(width, offset, j)
        {
          out := out + [LinearBound(width, offset, i)];
        }
        assert out == Bounds(opts).value;
        bounds := Some(out);
      case Exponential(n, growth, scale) =>
        var out: seq<real> := [];
        for i := 0 to n + 1
          invariant |out| == i && forall j :: 0 <= j < i ==> out[j] == ExponentialBound(growth, scale, j)
        {
          out := out + [ExponentialBound(growth, scale, i)];
        }
        assert out == Bounds(opts).value;
        bounds := Some(out);
      case Unspecified =>
        bounds := None;
    }
  }

  predicate StrictlyIncreasing(s: seq<real>)
  {
    forall i, j :: 0 <= i < j < |s| ==> s[i] < s[j]
  }

  lemma {:induction false} PowGrows(b: real, i: nat, j: nat)
    requires b > 1.0 && i < j
    ensures 0.0 < Pow(b, i) < Pow(b, j)
    decreases j
  {
    PowStep(b, j - 1);
    if i < j - 1 {
      PowGrows(b, i, j - 1);
    }
  }

  lemma PowStep(b: real, n: nat)
    requires b > 1.0
    ensures 0.0 < Pow(b, n) < Pow(b, n + 1)
  {
    PowPositive(b, n);
    ProductGrows(Pow(b, n), b, Pow(b, n + 1));
  }

  lemma ProductGrows(p: real, b: real, q: real)
    requires p > 0.0 && b > 1.0 && q == p * b
    ensures p < q
  {
    assert q - p == p * (b - 1.0);
  }

  lemma {:induction false} PowPositive(b: real, n: nat)
    requires b > 0.0
    ensures Pow(b, n) > 0.0
  {
    if n > 0 {
      PowPositive(b, n - 1);
    }
  }

  /** A layout of `n` finite buckets has `n + 1` bounds: linear ones start at
      the offset and are a width apart, exponential ones start at the scale and
      grow by the factor. */
  lemma {:induction false} BoundsOfLayout(opts: BucketOptions)
    requires opts.Linear? || opts.Exponential?
    ensures Bounds(opts).Some?
    ensures var s := Bounds(opts).value;
      && |s| == opts.numFinite + 1
      && s[0] == (if opts.Linear? then opts.offset else opts.scale)
      && forall i, j :: 0 <= i < j < |s| && j == i + 1 ==>
        s[j] == if opts.Linear? then s[i] + opts.width else s[i] * opts.growth
  {
    var s := Bounds(opts).value;
    forall i, j | 0 <= i < j < |s| && j == i + 1
      ensures s[j] == if opts.Linear? then s[i] + opts.width else s[i] * opts.growth
    {
      if opts.Linear? {
        assert j as real * opts.width == i as real * opts.width + opts.width;
      } else {
        ScaledPow(opts.growth, opts.scale, i);
      }
    }
  }

  lemma ScaledPow(growth: real, scale: real, i: nat)
    ensures ExponentialBound(growth, scale, i + 1) == ExponentialBound(growth, scale, i) * growth
  {
    assert scale * (Pow(growth, i) * growth) == (scale * Pow(growth, i)) * growth;
  }

  /** A supported layout always has a bound, and the bounds of linear and
      exponential layouts with sensible parameters ascend. */
  lemma BoundsAscend(opts: BucketOptions)
    requires Bounds(opts).Some?
    ensures |Bounds(opts).value| > 0
    ensures opts.Linear? && opts.width > 0.0 ==> StrictlyIncreasing(Bounds(opts).value)
    ensures opts.Exponential? && opts.growth > 1.0 && opts.scale > 0.0 ==> StrictlyIncreasing(Bounds(opts).value)
  {
    var s := Bounds(opts).value;
    if opts.Linear? && opts.width > 0.0 {
      forall i, j | 0 <= i < j < |s|
        ensures s[i] < s[j]
      {
        assert LinearBound(opts.width, opts.offset, j) - LinearBound(opts.width, opts.offset, i) == (j - i) as real * opts.width;
      }
    } else if opts.Exponential? && opts.growth > 1.0 && opts.scale > 0.0 {
      forall i, j | 0 <= i < j < |s|
        ensures s[i] < s[j]
      {
        PowGrows(opts.growth, i, j);
        assert s[j] - s[i] == opts.scale * (Pow(opts.growth, j) - Pow(opts.growth, i));
      }
    }
  }

  // ---------------------------------------------------------------- counts

  /** Per-bucket counts, padded with zeros or cut to `n` buckets. */
  function RawCounts(counts: seq<int64>, n: nat): (raw: seq<nat>)
    ensures |raw| == n
  {
    seq(n, i requires 0 <= i => if i < |counts| then Uint64(counts[i]) else 0)
  }

  method RawBucketCounts(counts: seq<int64>, nBuckets: nat) returns (raw: array<nat>)
    ensures fresh(raw)
    ensures raw[..] == RawCounts(counts, nBuckets)
  {
    raw := new nat[nBuckets](_ => 0);
    var i := 0;
    while i < |counts| && i < nBuckets
      invariant 0 <= i <= nBuckets
      invariant forall j :: 0 <= j < nBuckets ==> raw[j] == if j < i then RawCounts(counts, nBuckets)[j] else 0
      invariant i <= |counts|
    {
      raw[i] := Uint64(counts[i]);
      i := i + 1;
    }
    assert forall j :: i <= j < nBuckets ==> RawCounts(counts, nBuckets)[j] == 0;
  }

  /** The total of the first `k` buckets. */
  function PrefixSum(raw: seq<nat>, k: nat): nat
    requires k <= |raw|
  {
    if k == 0 then 0 else PrefixSum(raw, k - 1) + raw[k - 1]
  }

  /** Cumulative counts at the first `n` bounds. */
  function Cumulate(raw: seq<nat>, n: nat): (cum: seq<nat>)
    requires n <= |raw|
    ensures |cum| == n
  {
    seq(n, i requires 0 <= i < n => PrefixSum(raw, i + 1))
  }

  lemma {:induction false} PrefixSumMonotone(raw: seq<nat>, i: nat, j: nat)
    requires i <= j <= |raw|
    ensures PrefixSum(raw, i) <= PrefixSum(raw, j)
    decreases j
  {
    if i < j {
      PrefixSumMonotone(raw, i, j - 1);
    }
  }

  /** Prefix sums look only at the prefix. */
  lemma {:induction false} PrefixSumLocal(a: seq<nat>, b: seq<nat>, k: nat)
    requires k <= |a| && k <= |b|
    requires forall i :: 0 <= i < k ==> a[i] == b[i]
    ensures PrefixSum(a, k) == PrefixSum(b, k)
  {
    if k > 0 {
      PrefixSumLocal(a, b, k - 1);
    }
  }

  // ------------------------------------------------- one distribution point

  /** The histogram of one distribution point. */
  function ToHistogram(d: Distribution): Option<HistValue>
  {
    match Bounds(d.options)
    case None => None
    case Some(bounds) =>
      Some(HistValue(Uint64(d.count), d.mean * d.count as real, bounds,
                     Cumulate(RawCounts(d.bucketCounts, |bounds| + 1), |bounds|)))
  }

  /** A histogram handed to the cache. It lives on the heap because the cache
      keeps a reference to it while later polls go on accumulating. */
  class HistogramValue {
    const count: nat
    const sum: real
    const upperBounds: seq<real>
    const cumCounts: array<nat>

    constructor (count: nat, sum: real, upperBounds: seq<real>, cumCounts: array<nat>)
      ensures this.count == count && this.sum == sum && this.upperBounds == upperBounds
      ensures this.cumCounts == cumCounts
    {
      this.count := count;
      this.sum := sum;
      this.upperBounds := upperBounds;
      this.cumCounts := cumCounts;
    }

    ghost function View(): HistValue
      reads cumCounts
    {
      HistValue(count, sum, upperBounds, cumCounts[..])
    }
  }

  /** Running totals of the first `n` per-bucket counts, in a new array. */
  method CumulativeCounts(raw: array<nat>, n: nat) returns (cumCounts: array<nat>)
    requires n <= raw.Length
    ensures fresh(cumCounts)
    ensures cumCounts[..] == Cumulate(raw[..], n)
  {
    cumCounts := new nat[n];
    var cum: nat := 0;
    for i := 0 to n
      invariant cum == PrefixSum(raw[..], i)
      invariant forall j :: 0 <= j < i ==> cumCounts[j] == PrefixSum(raw[..], j + 1)
    {
      cum := cum + raw[i];
      cumCounts[i] := cum;
    }
  }

  method DistToHistogram(d: Option<Distribution>) returns (hv: HistogramValue?)
    ensures hv == null <==> d.None? || Bounds(d.value.options).None?
    ensures hv != null ==> fresh(hv) && fresh(hv.cumCounts) && ToHistogram(d.value) == Some(hv.View())
  {
    if d.None? {
      return null;
    }
    var bounds := DistBounds(d.value.options);
    if bounds.None? {
      return null;
    }
    var n := |bounds.value|;
    var raw := RawBucketCounts(d.value.bucketCounts, n + 1);
    var cum := CumulativeCounts(raw, n);
    assert raw[..] == RawCounts(d.value.bucketCounts, n + 1);
    ghost var counts := cum[..];
    hv := new HistogramValue(Uint64(d.value.count), d.value.mean * d.value.count as real, bounds.value, cum);
    assert hv.cumCounts[..] == counts;
    assert hv.sum == ToHistogram(d.value).value.sum;
    assert ToHistogram(d.value).value.cumCounts == counts;
  }

  /** What the API promises of a distribution: non-negative counts, one per
      bucket at most, adding up to the total. */
  ghost predicate Consistent(d: Distribution)
  {
    && Bounds(d.options).Some?
    && |d.bucketCounts| <= |Bounds(d.options).value| + 1
    && (forall i :: 0 <= i < |d.bucketCounts| ==> d.bucketCounts[i] >= 0)
    && d.count >= 0
    && SumUp(d.bucketCounts) == d.count
  }

  function SumUp(counts: seq<int64>): int
  {
    if counts == [] then 0 else SumUp(counts[..|counts| - 1]) + counts[|counts| - 1]
  }

  /** Counts that are cut off at their last non-zero bucket add up all the same. */
  lemma {:induction false} RawCountsAddUp(counts: seq<int64>, n: nat)
    requires |counts| <= n && forall i :: 0 <= i < |counts| ==> counts[i] >= 0
    ensures PrefixSum(RawCounts(counts, n), n) == SumUp(counts)
  {
    if n > |counts| {
      RawCountsAddUp(counts, n - 1);
      PrefixSumLocal(RawCounts(counts, n), RawCounts(counts, n - 1), n - 1);
    } else if n > 0 {
      var front := counts[..n - 1];
      RawCountsAddUp(front, n - 1);
      PrefixSumLocal(RawCounts(counts, n), RawCounts(front, n - 1), n - 1);
    }
  }

  lemma ConsistentAddsUp(d: Distribution)
    requires Consistent(d)
    ensures var n := |Bounds(d.options).value|; PrefixSum(RawCounts(d.bucketCounts, n + 1), n + 1) == d.count
  {
    RawCountsAddUp(d.bucketCounts, |Bounds(d.options).value| + 1);
  }

  /** What the counts of a histogram come to: at the first bound the count of the
      first bucket, from bound to bound the count of one bucket more, and level
      where the service has cut off empty buckets. Negative counts, which no
      service sends, wrap around. */
  lemma CumulativeCountsOf(d: Distribution)
    requires Bounds(d.options).Some?
    ensures var h, c := ToHistogram(d).value, d.bucketCounts;
      && |h.cumCounts| == |h.upperBounds| == |Bounds(d.options).value|
      && forall i :: 0 <= i < |h.cumCounts| ==>
        h.cumCounts[i] - (if i == 0 then 0 else h.cumCounts[i - 1]) ==
          if i >= |c| then 0 else if c[i] >= 0 then c[i] as int else c[i] as int + 0x1_0000_0000_0000_0000
  {
    var n := |Bounds(d.options).value|;
    var raw := RawCounts(d.bucketCounts, n + 1);
    forall i | 0 <= i < n
      ensures Cumulate(raw, n)[i] - (if i == 0 then 0 else Cumulate(raw, n)[i - 1]) == raw[i]
    {
      assert PrefixSum(raw, i + 1) == PrefixSum(raw, i) + raw[i];
    }
  }

  /** An empty bucket more, where one was cut off, changes nothing. */
  lemma TrailingZerosDoNotMatter(d: Distribution)
    requires Bounds(d.options).Some? && |d.bucketCounts| <= |Bounds(d.options).value|
    ensures ToHistogram(d.(bucketCounts := d.bucketCounts + [0])) == ToHistogram(d)
  {
    var n := |Bounds(d.options).value|;
    var longer := d.(bucketCounts := d.bucketCounts + [0]);
    assert RawCounts(longer.bucketCounts, n + 1) == RawCounts(d.bucketCounts, n + 1);
    assert ToHistogram(longer).value == ToHistogram(d).value;
  }

  /** Consistent distributions give well-formed histograms. */
  lemma ConsistentIsWellFormed(d: Distribution)
    requires Consistent(d)
    ensures WellFormed(ToHistogram(d).value)
  {
    var n := |Bounds(d.options).value|;
    var raw := RawCounts(d.bucketCounts, n + 1);
    ConsistentAddsUp(d);
    CumulateIsWellFormed(raw, n, d.count);
  }

  lemma CumulateIsWellFormed(raw: seq<nat>, n: nat, total: nat)
    requires n <= |raw| && PrefixSum(raw, |raw|) <= total
    ensures forall i, j :: 0 <= i <= j < n ==> Cumulate(raw, n)[i] <= Cumulate(raw, n)[j]
    ensures forall i :: 0 <= i < n ==> Cumulate(raw, n)[i] <= total
  {
    forall i, j | 0 <= i <= j < n
      ensures Cumulate(raw, n)[i] <= Cumulate(raw, n)[j]
    {
      PrefixSumMonotone(raw, i + 1, j + 1);
    }
    forall i | 0 <= i < n
      ensures Cumulate(raw, n)[i] <= total
    {
      PrefixSumMonotone(raw, i + 1, |raw|);
    }
  }
}
