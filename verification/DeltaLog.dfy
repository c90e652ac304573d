/** What the per-series accumulator of internal/translate/translate.go and
    hist.go counts, as a theory of the log of points it accepted. */
module DeltaLog {
  import opened Basics
  import opened Histograms

  datatype TypedValue =
    | DoubleValue(d: real)
    | Int64Value(i: int)
    | BoolValue(b: bool)
    | DistributionValue(dist: Distribution)
    | OtherValue

  datatype Point = Point(end: Time, value: TypedValue)

  function ScalarValue(p: Point): Option<real>
  {
    match p.value
    case DoubleValue(d) => Some(d)
    case Int64Value(i) => Some(i as real)
    case BoolValue(b) => Some(if b then 1.0 else 0.0)
    case _ => None
  }

  /** The distribution of a point, if the proxy supports its bucket layout. */
  function DistValue(p: Point): Option<Distribution>
  {
    if p.value.DistributionValue? && Bounds(p.value.dist.options).Some? then Some(p.value.dist) else None
  }

  datatype Payload = Scalar | Dist

  /** A point the accumulator can read. */
  predicate Readable(kind: Payload, p: Point)
  {
    match kind
    case Scalar => ScalarValue(p).Some?
    case Dist => DistValue(p).Some?
  }

  // ------------------------------------------------------- accepted points

  /** The points one response adds, oldest first. A response lists its points
      newest first; it is walked from its end, points not after the watermark
      are skipped, and the first unreadable point stops the walk. */
  function Taken(kind: Payload, w: Time, points: seq<Point>): seq<Point>
    decreases points
  {
    if points == [] then [] else
    var p, newer := points[|points| - 1], points[..|points| - 1];
    if p.end <= w then Taken(kind, w, newer)
    else if !Readable(kind, p) then []
    else [p] + Taken(kind, p.end, newer)
  }

  /** Whether the walk reaches the newest point. */
  predicate Clean(kind: Payload, w: Time, points: seq<Point>)
    decreases points
  {
    points == [] ||
    var p, newer := points[|points| - 1], points[..|points| - 1];
    if p.end <= w then Clean(kind, w, newer)
    else Readable(kind, p) && Clean(kind, p.end, newer)
  }

  /** The end of the last accepted point. */
  function Watermark(w: Time, log: seq<Point>): Time
  {
    if log == [] then w else log[|log| - 1].end
  }

  predicate Ascending(log: seq<Point>)
  {
    forall i, j :: 0 <= i < j < |log| ==> log[i].end < log[j].end
  }

  /** Accepted points are readable points of the response beyond the watermark. */
  lemma {:induction false} TakenMember(kind: Payload, w: Time, points: seq<Point>, q: Point)
    requires q in Taken(kind, w, points)
    ensures q.end > w && q in points && Readable(kind, q)
    decreases points
  {
    var p, newer := points[|points| - 1], points[..|points| - 1];
    if p.end <= w {
      TakenMember(kind, w, newer, q);
    } else if q != p {
      TakenMember(kind, p.end, newer, q);
    }
  }

  /** They are accepted at strictly increasing ends. */
  lemma {:induction false} TakenAscending(kind: Payload, w: Time, points: seq<Point>)
    ensures Ascending(Taken(kind, w, points))
    ensures Watermark(w, Taken(kind, w, points)) >= w
    decreases points
  {
    if points != [] {
      var p, newer := points[|points| - 1], points[..|points| - 1];
      if p.end <= w {
        TakenAscending(kind, w, newer);
      } else if Readable(kind, p) {
        TakenAscending(kind, p.end, newer);
        var rest := Taken(kind, p.end, newer);
        forall i | 0 <= i < |rest|
          ensures rest[i].end > p.end
        {
          TakenMember(kind, p.end, newer, rest[i]);
        }
      }
    }
  }

  /** A clean walk leaves no point beyond the watermark. */
  lemma {:induction false} CleanExhausts(kind: Payload, w: Time, points: seq<Point>)
    requires Clean(kind, w, points)
    ensures forall p :: p in points ==> p.end <= Watermark(w, Taken(kind, w, points))
    decreases points
  {
    if points != [] {
      var p, newer := points[|points| - 1], points[..|points| - 1];
      var w' := if p.end <= w then w else p.end;
      TakenAscending(kind, w', newer);
      CleanExhausts(kind, w', newer);
      forall q | q in points
        ensures q.end <= Watermark(w, Taken(kind, w, points))
      {
        assert q == p || q in newer;
      }
    }
  }

  // ------------------------------------------------------------ accumulator

  /** A running histogram: per-bucket counts, overflow last. */
  datatype HistAcc = HistAcc(bounds: seq<real>, raw: seq<nat>, count: nat, sum: real)

  predicate ValidHistAcc(h: HistAcc)
  {
    |h.raw| == |h.bounds| + 1
  }

  function AddRaw(a: seq<nat>, b: seq<nat>): (c: seq<nat>)
    requires |a| == |b|
    ensures |c| == |a| && forall i :: 0 <= i < |c| ==> c[i] == a[i] + b[i]
  {
    seq(|a|, i requires 0 <= i < |a| => a[i] + b[i])
  }

  function EmptyHist(bounds: seq<real>): (h: HistAcc)
    ensures ValidHistAcc(h)
  {
    HistAcc(bounds, seq(|bounds| + 1, _ => 0), 0, 0.0)
  }

  /** Whether a point with these bounds restarts the running histogram. */
  predicate Restarts(h: Option<HistAcc>, bounds: seq<real>)
  {
    h.None? || h.value.bounds != bounds
  }

  function AddDist(h: Option<HistAcc>, d: Distribution): (r: HistAcc)
    requires Bounds(d.options).Some?
    requires h.Some? ==> ValidHistAcc(h.value)
    ensures ValidHistAcc(r)
  {
    var bounds := Bounds(d.options).value;
    var base := if Restarts(h, bounds) then EmptyHist(bounds) else h.value;
    HistAcc(bounds,
            AddRaw(base.raw, RawCounts(d.bucketCounts, |bounds| + 1)),
            base.count + Uint64(d.count),
            base.sum + d.mean * d.count as real)
  }

  /** The histogram published for a running histogram. */
  function Published(h: HistAcc): HistValue
    requires ValidHistAcc(h)
  {
    HistValue(h.count, h.sum, h.bounds, Cumulate(h.raw, |h.bounds|))
  }

  /** The state of one DELTA series. */
  datatype Acc = Acc(lastEnd: Time, lastSeen: Time, sum: real, hist: Option<HistAcc>)

  const NEW_ACC := Acc(ZERO_TIME, ZERO_TIME, 0.0, None)

  predicate ValidAcc(a: Acc)
  {
    a.hist.Some? ==> ValidHistAcc(a.hist.value)
  }

  /** One response of a scalar series; false when an unreadable point stopped
      the walk. */
  function FoldScalar(a: Acc, points: seq<Point>): (r: (Acc, bool))
    ensures r.0.lastSeen == a.lastSeen && r.0.hist == a.hist
    decreases points
  {
    if points == [] then (a, true) else
    var p, newer := points[|points| - 1], points[..|points| - 1];
    if p.end <= a.lastEnd then FoldScalar(a, newer)
    else match ScalarValue(p)
      case None => (a, false)
      case Some(v) => FoldScalar(a.(sum := a.sum + v, lastEnd := p.end), newer)
  }

  /** One accepted distribution. */
  function AcceptDist(a: Acc, end: Time, d: Distribution): (r: Acc)
    requires ValidAcc(a) && Bounds(d.options).Some?
    ensures ValidAcc(r)
  {
    a.(hist := Some(AddDist(a.hist, d)), lastEnd := end)
  }

  /** 1 if a distribution changes the layout of a running histogram. */
  function ResetBy(h: Option<HistAcc>, d: Distribution): nat
    requires Bounds(d.options).Some?
  {
    if h.Some? && Restarts(h, Bounds(d.options).value) then 1 else 0
  }

  /** One response of a distribution series: state, bucket resets, and false
      when an unreadable point stopped the walk. */
  function FoldDist(a: Acc, points: seq<Point>): (r: (Acc, nat, bool))
    requires ValidAcc(a)
    ensures ValidAcc(r.0)
    ensures r.0.lastSeen == a.lastSeen && r.0.sum == a.sum
    decreases points
  {
    if points == [] then (a, 0, true) else
    var p, newer := points[|points| - 1], points[..|points| - 1];
    if p.end <= a.lastEnd then FoldDist(a, newer)
    else match DistValue(p)
      case None => (a, 0, false)
      case Some(d) =>
        var rest := FoldDist(AcceptDist(a, p.end, d), newer);
        (rest.0, ResetBy(a.hist, d) + rest.1, rest.2)
  }

  // ------------------------------------------- what the accumulator holds

  function Total(log: seq<Point>): real
  {
    if log == [] then 0.0 else
    Total(log[..|log| - 1]) + ScalarValue(log[|log| - 1]).GetOr(0.0)
  }

  function Replay(log: seq<Point>): (h: Option<HistAcc>)
    ensures h.Some? ==> ValidHistAcc(h.value)
  {
    if log == [] then None else
    var h := Replay(log[..|log| - 1]);
    match DistValue(log[|log| - 1])
    case None => h
    case Some(d) => Some(AddDist(h, d))
  }

  lemma Assoc(log: seq<Point>, p: Point, more: seq<Point>)
    ensures log + ([p] + more) == (log + [p]) + more
  {}

  lemma TotalSnoc(log: seq<Point>, p: Point)
    ensures Total(log + [p]) == Total(log) + ScalarValue(p).GetOr(0.0)
  {
    assert (log + [p])[..|log|] == log;
  }

  lemma ReplaySnoc(log: seq<Point>, p: Point)
    requires DistValue(p).Some?
    ensures Replay(log + [p]) == Some(AddDist(Replay(log), DistValue(p).value))
  {
    assert (log + [p])[..|log|] == log;
  }

  /** A scalar accumulator is the total of its log, before and after a response. */
  lemma {:induction false} FoldScalarFollowsLog(a: Acc, log: seq<Point>, points: seq<Point>)
    requires a.sum == Total(log)
    ensures var (b, ok) := FoldScalar(a, points);
      && b.sum == Total(log + Taken(Scalar, a.lastEnd, points))
      && b.lastEnd == Watermark(a.lastEnd, Taken(Scalar, a.lastEnd, points))
      && (ok <==> Clean(Scalar, a.lastEnd, points))
    decreases points
  {
    assert log + [] == log;
    if points != [] {
      var p, newer := points[|points| - 1], points[..|points| - 1];
      if p.end <= a.lastEnd {
        FoldScalarFollowsLog(a, log, newer);
      } else if ScalarValue(p).Some? {
        TotalSnoc(log, p);
        FoldScalarFollowsLog(a.(sum := a.sum + ScalarValue(p).value, lastEnd := p.end), log + [p], newer);
        Assoc(log, p, Taken(Scalar, p.end, newer));
      }
    }
  }

  /** Adjacent accepted points with different bucket layouts. */
  function LayoutChanges(log: seq<Point>): nat
  {
    if |log| < 2 then 0 else
    LayoutChanges(log[..|log| - 1]) + if LayoutOf(log[|log| - 2]) != LayoutOf(log[|log| - 1]) then 1 else 0
  }

  function LayoutOf(p: Point): Option<seq<real>>
  {
    match DistValue(p)
    case None => None
    case Some(d) => Bounds(d.options)
  }

  predicate AllReadable(kind: Payload, log: seq<Point>)
  {
    forall i :: 0 <= i < |log| ==> Readable(kind, log[i])
  }

  /** The replayed bounds are those of the last point. */
  lemma ReplayBounds(log: seq<Point>)
    requires AllReadable(Dist, log)
    ensures Replay(log).Some? <==> log != []
    ensures log != [] ==> LayoutOf(log[|log| - 1]) == Some(Replay(log).value.bounds)
  {}

  lemma LayoutChangesSnoc(log: seq<Point>, p: Point)
    requires AllReadable(Dist, log) && DistValue(p).Some?
    ensures LayoutChanges(log + [p]) == LayoutChanges(log) + ResetBy(Replay(log), DistValue(p).value)
  {
    ReplayBounds(log);
    assert (log + [p])[..|log|] == log;
  }

  /** A distribution accumulator is the replay of its log, before and after a
      response. */
  lemma {:induction false} FoldDistFollowsLog(a: Acc, log: seq<Point>, points: seq<Point>)
    requires ValidAcc(a)
    requires a.hist == Replay(log)
    ensures FoldDist(a, points).0.hist == Replay(log + Taken(Dist, a.lastEnd, points))
    ensures FoldDist(a, points).0.lastEnd == Watermark(a.lastEnd, Taken(Dist, a.lastEnd, points))
    ensures FoldDist(a, points).2 <==> Clean(Dist, a.lastEnd, points)
    decreases points
  {
    assert log + [] == log;
    if points != [] {
      var p, newer := points[|points| - 1], points[..|points| - 1];
      if p.end <= a.lastEnd {
        FoldDistFollowsLog(a, log, newer);
      } else if DistValue(p).Some? {
        ReplaySnoc(log, p);
        FoldDistFollowsLog(AcceptDist(a, p.end, DistValue(p).value), log + [p], newer);
        Assoc(log, p, Taken(Dist, p.end, newer));
      }
    }
  }

  /** The resets a response counts are the layout changes it adds to the log. */
  lemma {:induction false} ResetsFollowLog(a: Acc, log: seq<Point>, points: seq<Point>)
    requires ValidAcc(a) && AllReadable(Dist, log)
    requires a.hist == Replay(log)
    ensures LayoutChanges(log + Taken(Dist, a.lastEnd, points)) == LayoutChanges(log) + FoldDist(a, points).1
    decreases points
  {
    assert log + [] == log;
    if points != [] {
      var p, newer := points[|points| - 1], points[..|points| - 1];
      if p.end <= a.lastEnd {
        ResetsFollowLog(a, log, newer);
      } else if DistValue(p).Some? {
        ReplaySnoc(log, p);
        LayoutChangesSnoc(log, p);
        ResetsFollowLog(AcceptDist(a, p.end, DistValue(p).value), log + [p], newer);
        Assoc(log, p, Taken(Dist, p.end, newer));
      }
    }
  }

  // --------------------------------------- the histogram is a pointwise sum

  /** The accepted points since the last change of bucket layout. */
  function SinceLayoutChange(log: seq<Point>): seq<Point>
  {
    if |log| < 2 then log else
    var front, last := log[..|log| - 1], log[|log| - 1];
    if LayoutOf(front[|front| - 1]) == LayoutOf(last) then SinceLayoutChange(front) + [last] else [last]
  }

  /** It is the longest suffix with one layout. */
  lemma {:induction false} SinceLayoutChangeIsSuffix(log: seq<Point>, last: Point)
    requires log != [] && log[|log| - 1] == last
    ensures 0 < |SinceLayoutChange(log)| <= |log|
    ensures SinceLayoutChange(log) == log[|log| - |SinceLayoutChange(log)|..]
    ensures forall p :: p in SinceLayoutChange(log) ==> LayoutOf(p) == LayoutOf(last)
    ensures |SinceLayoutChange(log)| < |log| ==> LayoutOf(log[|log| - |SinceLayoutChange(log)| - 1]) != LayoutOf(last)
  {
    if |log| >= 2 {
      var front := log[..|log| - 1];
      if LayoutOf(front[|front| - 1]) == LayoutOf(last) {
        SinceLayoutChangeIsSuffix(front, front[|front| - 1]);
        hide LayoutOf;
        var k := |front| - |SinceLayoutChange(front)|;
        assert SinceLayoutChange(log) == SinceLayoutChange(front) + [last];
        assert log[k..] == front[k..] + [last];
      }
    }
  }

  /** The histogram of one readable distribution point. */
  function PointHist(p: Point): HistValue
    requires Readable(Dist, p)
  {
    ToHistogram(DistValue(p).value).value
  }

  function SumCounts(log: seq<Point>): nat
    requires AllReadable(Dist, log)
  {
    if log == [] then 0 else SumCounts(log[..|log| - 1]) + PointHist(log[|log| - 1]).count
  }

  function SumSums(log: seq<Point>): real
    requires AllReadable(Dist, log)
  {
    if log == [] then 0.0 else SumSums(log[..|log| - 1]) + PointHist(log[|log| - 1]).sum
  }

  /** The sum of the cumulative counts at bound i. */
  function SumCum(log: seq<Point>, i: nat): nat
    requires AllReadable(Dist, log)
    requires forall p :: p in log ==> i < |PointHist(p).cumCounts|
  {
    if log == [] then 0 else SumCum(log[..|log| - 1], i) + PointHist(log[|log| - 1]).cumCounts[i]
  }

  lemma {:induction false} PrefixSumAdds(a: seq<nat>, b: seq<nat>, k: nat)
    requires |a| == |b| && k <= |a|
    ensures PrefixSum(AddRaw(a, b), k) == PrefixSum(a, k) + PrefixSum(b, k)
  {
    if k > 0 {
      PrefixSumAdds(a, b, k - 1);
    }
  }

  lemma {:induction false} PrefixSumEmpty(bounds: seq<real>, k: nat)
    requires k <= |bounds| + 1
    ensures PrefixSum(EmptyHist(bounds).raw, k) == 0
  {
    if k > 0 {
      PrefixSumEmpty(bounds, k - 1);
    }
  }

  lemma CumulateAdds(a: seq<nat>, b: seq<nat>, n: nat)
    requires |a| == |b| && n <= |a|
    ensures forall i :: 0 <= i < n ==> Cumulate(AddRaw(a, b), n)[i] == Cumulate(a, n)[i] + Cumulate(b, n)[i]
  {
    forall i | 0 <= i < n
      ensures Cumulate(AddRaw(a, b), n)[i] == Cumulate(a, n)[i] + Cumulate(b, n)[i]
    {
      PrefixSumAdds(a, b, i + 1);
    }
  }

  lemma CumulateEmpty(bounds: seq<real>)
    ensures forall i :: 0 <= i < |bounds| ==> Cumulate(EmptyHist(bounds).raw, |bounds|)[i] == 0
  {
    forall i | 0 <= i < |bounds|
      ensures Cumulate(EmptyHist(bounds).raw, |bounds|)[i] == 0
    {
      PrefixSumEmpty(bounds, i + 1);
    }
  }

  /** Adding one distribution adds its histogram to the published one, or
      starts over with it. */
  lemma AddDistPublishes(h: Option<HistAcc>, p: Point)
    requires Readable(Dist, p)
    requires h.Some? ==> ValidHistAcc(h.value)
    ensures var r := Published(AddDist(h, DistValue(p).value));
      var q := PointHist(p);
      var restarts := Restarts(h, q.upperBounds);
      && r.upperBounds == q.upperBounds && |r.cumCounts| == |q.cumCounts| == |q.upperBounds|
      && r.count == (if restarts then 0 else h.value.count) + q.count
      && r.sum == (if restarts then 0.0 else h.value.sum) + q.sum
      && forall i :: 0 <= i < |r.cumCounts| ==>
        r.cumCounts[i] == (if restarts then 0 else Published(h.value).cumCounts[i]) + q.cumCounts[i]
  {
    var d := DistValue(p).value;
    var bounds := Bounds(d.options).value;
    var base := if Restarts(h, bounds) then EmptyHist(bounds) else h.value;
    CumulateEmpty(bounds);
    CumulateAdds(base.raw, RawCounts(d.bucketCounts, |bounds| + 1), |bounds|);
  }

  /** The published histogram is the pointwise sum of the histograms of exactly
      the points accepted since the last change of bucket layout. */
  lemma {:induction false} PublishedIsPointwiseSum(log: seq<Point>)
    requires AllReadable(Dist, log) && log != []
    ensures Replay(log).Some? && AllReadable(Dist, SinceLayoutChange(log))
    ensures var h, s := Published(Replay(log).value), SinceLayoutChange(log);
      && (forall p :: p in s ==> PointHist(p).upperBounds == h.upperBounds && |PointHist(p).cumCounts| == |h.upperBounds|)
      && |h.cumCounts| == |h.upperBounds|
      && h.count == SumCounts(s)
      && h.sum == SumSums(s)
      && forall i :: 0 <= i < |h.cumCounts| ==> h.cumCounts[i] == SumCum(s, i)
  {
    var front, p := log[..|log| - 1], log[|log| - 1];
    var s := SinceLayoutChange(log);
    ReplayBounds(front);
    AddDistPublishes(Replay(front), p);
    if |log| >= 2 {
      PublishedIsPointwiseSum(front);
      if LayoutOf(front[|front| - 1]) == LayoutOf(p) {
        assert s[..|s| - 1] == SinceLayoutChange(front);
      }
    }
    assert s[|s| - 1] == p;
  }

  // ----------------------------------------------------- runs of one series

  /** One response for the series, committed at `now`. */
  datatype Poll = Poll(now: Time, points: seq<Point>)

  /** The state after a response; a response without points is not looked at. */
  function Commit(kind: Payload, a: Acc, poll: Poll): (b: Acc)
    requires ValidAcc(a)
    ensures ValidAcc(b)
  {
    if poll.points == [] then a else
    var seen := a.(lastSeen := poll.now);
    match kind
    case Scalar => FoldScalar(seen, poll.points).0
    case Dist => FoldDist(seen, poll.points).0
  }

  function AccAfter(kind: Payload, polls: seq<Poll>): (a: Acc)
    ensures ValidAcc(a)
  {
    if polls == [] then NEW_ACC else Commit(kind, AccAfter(kind, polls[..|polls| - 1]), polls[|polls| - 1])
  }

  /** Every point accepted in a run, in order. */
  function LogAfter(kind: Payload, polls: seq<Poll>): seq<Point>
  {
    if polls == [] then [] else
    var log := LogAfter(kind, polls[..|polls| - 1]);
    log + Taken(kind, Watermark(ZERO_TIME, log), polls[|polls| - 1].points)
  }

  lemma LogAfterSnoc(kind: Payload, polls: seq<Poll>, poll: Poll)
    ensures var log := LogAfter(kind, polls);
      LogAfter(kind, polls + [poll]) == log + Taken(kind, Watermark(ZERO_TIME, log), poll.points)
  {
    assert (polls + [poll])[..|polls|] == polls;
  }

  /** Bucket resets counted in a run. */
  function ResetsAfter(polls: seq<Poll>): nat
  {
    if polls == [] then 0 else
    ResetsAfter(polls[..|polls| - 1]) + FoldDist(AccAfter(Dist, polls[..|polls| - 1]), polls[|polls| - 1].points).1
  }

  lemma AscendingConcat(log: seq<Point>, more: seq<Point>)
    requires Ascending(log) && Ascending(more)
    requires forall p :: p in more ==> p.end > Watermark(ZERO_TIME, log)
    ensures Ascending(log + more)
  {
    var both := log + more;
    forall i, j | 0 <= i < j < |both|
      ensures both[i].end < both[j].end
    {
      if i < |log| <= j {
        assert both[j] in more;
        assert log[i].end <= log[|log| - 1].end;
      }
    }
  }

  /** No matter which responses arrive in which order, the points counted have
      strictly increasing ends: no end is counted twice. */
  lemma {:induction false} CountedAtMostOnce(kind: Payload, polls: seq<Poll>)
    ensures Ascending(LogAfter(kind, polls))
  {
    if polls != [] {
      var front, poll := polls[..|polls| - 1], polls[|polls| - 1];
      CountedAtMostOnce(kind, front);
      var log := LogAfter(kind, front);
      var more := Taken(kind, Watermark(ZERO_TIME, log), poll.points);
      TakenAscending(kind, Watermark(ZERO_TIME, log), poll.points);
      forall p | p in more
        ensures p.end > Watermark(ZERO_TIME, log)
      {
        TakenMember(kind, Watermark(ZERO_TIME, log), poll.points, p);
      }
      AscendingConcat(log, more);
    }
  }

  /** Only readable points of some response, after time zero, are counted. */
  lemma {:induction false} CountedWereReturned(kind: Payload, polls: seq<Poll>, p: Point)
    requires p in LogAfter(kind, polls)
    ensures Readable(kind, p) && p.end > ZERO_TIME
    ensures exists k :: 0 <= k < |polls| && p in polls[k].points
  {
    var front, poll := polls[..|polls| - 1], polls[|polls| - 1];
    var log := LogAfter(kind, front);
    if p in log {
      CountedWereReturned(kind, front, p);
      var k :| 0 <= k < |front| && p in front[k].points;
      assert p in polls[k].points;
    } else {
      TakenMember(kind, Watermark(ZERO_TIME, log), poll.points, p);
      LogAfterZero(kind, front);
      assert p in polls[|polls| - 1].points;
    }
  }

  lemma {:induction false} LogAfterZero(kind: Payload, polls: seq<Poll>)
    ensures Watermark(ZERO_TIME, LogAfter(kind, polls)) >= ZERO_TIME
  {
    if polls != [] {
      var front, poll := polls[..|polls| - 1], polls[|polls| - 1];
      LogAfterZero(kind, front);
      TakenAscending(kind, Watermark(ZERO_TIME, LogAfter(kind, front)), poll.points);
    }
  }

  lemma AllReadableLog(kind: Payload, polls: seq<Poll>)
    ensures AllReadable(kind, LogAfter(kind, polls))
  {
    forall i | 0 <= i < |LogAfter(kind, polls)|
      ensures Readable(kind, LogAfter(kind, polls)[i])
    {
      CountedWereReturned(kind, polls, LogAfter(kind, polls)[i]);
    }
  }

  /** A scalar accumulator holds the total of its log and its watermark. */
  lemma {:induction false} ScalarAccumulatorFollowsLog(polls: seq<Poll>)
    ensures AccAfter(Scalar, polls).sum == Total(LogAfter(Scalar, polls))
    ensures AccAfter(Scalar, polls).lastEnd == Watermark(ZERO_TIME, LogAfter(Scalar, polls))
  {
    if polls != [] {
      var front, poll := polls[..|polls| - 1], polls[|polls| - 1];
      ScalarAccumulatorFollowsLog(front);
      var a, log := AccAfter(Scalar, front), LogAfter(Scalar, front);
      if poll.points == [] {
        assert log + [] == log;
      } else {
        FoldScalarFollowsLog(a.(lastSeen := poll.now), log, poll.points);
      }
    }
  }

  /** A distribution accumulator holds the replay of its log and its watermark,
      and the resets counted are the layout changes in the log. */
  lemma {:induction false} DistAccumulatorFollowsLog(polls: seq<Poll>)
    ensures AccAfter(Dist, polls).hist == Replay(LogAfter(Dist, polls))
    ensures AccAfter(Dist, polls).lastEnd == Watermark(ZERO_TIME, LogAfter(Dist, polls))
    ensures ResetsAfter(polls) == LayoutChanges(LogAfter(Dist, polls))
  {
    if polls != [] {
      var front, poll := polls[..|polls| - 1], polls[|polls| - 1];
      DistAccumulatorFollowsLog(front);
      var a, log := AccAfter(Dist, front), LogAfter(Dist, front);
      if poll.points == [] {
        assert log + [] == log;
      } else {
        AllReadableLog(Dist, front);
        FoldDistFollowsLog(a.(lastSeen := poll.now), log, poll.points);
        ResetsFollowLog(a, log, poll.points);
      }
    }
  }

  /** Non-negative increments never lower a sum, whatever the response. */
  lemma {:induction false} NonNegativeNeverFalls(a: Acc, points: seq<Point>)
    requires forall p :: p in points && ScalarValue(p).Some? ==> ScalarValue(p).value >= 0.0
    ensures FoldScalar(a, points).0.sum >= a.sum
    ensures FoldScalar(a, points).0.lastEnd >= a.lastEnd
    decreases points
  {
    if points != [] {
      var p, newer := points[|points| - 1], points[..|points| - 1];
      assert p in points;
      if p.end <= a.lastEnd {
        NonNegativeNeverFalls(a, newer);
      } else if ScalarValue(p).Some? {
        NonNegativeNeverFalls(a.(sum := a.sum + ScalarValue(p).value, lastEnd := p.end), newer);
      }
    }
  }
}
