/** What one translation of a poll result does to the accumulators of a metric
    type and which samples it yields (internal/translate/translate.go). */
module TranslateSpec {
  import opened Basics
  import opened Histograms
  import opened DeltaLog

  datatype MetricKind = UnspecifiedKind | GaugeKind | DeltaKind | CumulativeKind
  datatype ValueType = UnspecifiedType | BoolType | Int64Type | DoubleType | StringType | DistributionType | MoneyType
  datatype Kind = KindGauge | KindCounter | KindHistogram

  /** A descriptor; without timing metadata its ingest delay and sample period
      are zero. */
  datatype MetricDescriptor = MetricDescriptor(
    typ: string, description: string, metricKind: MetricKind, valueType: ValueType, ingestDelay: Time, samplePeriod: Time)

  /** A series as returned by a poll, its labels already flattened. */
  datatype TimeSeries = TimeSeries(labels: Labels, metricKind: MetricKind, valueType: ValueType, points: seq<Point>)

  datatype Sample<+H> = Sample(labels: Labels, value: real, hist: H, pointEnd: Time)
  datatype FamilyUpdate<+H> = FamilyUpdate(name: string, help: string, kind: Kind, samples: seq<Sample<H>>)
  datatype Stats = Stats(droppedValueType: nat, noPoints: nat, bucketReset: nat)

  const NO_STATS := Stats(0, 0, 0)

  function FamilyKind(md: MetricDescriptor): Kind
  {
    if md.valueType.DistributionType? then KindHistogram
    else if md.metricKind.CumulativeKind? || md.metricKind.DeltaKind? then KindCounter
    else KindGauge
  }

  function EffectiveType(md: MetricDescriptor, ts: TimeSeries): ValueType
  {
    if ts.valueType.UnspecifiedType? then md.valueType else ts.valueType
  }

  predicate SupportedValueType(md: MetricDescriptor, ts: TimeSeries)
  {
    var vt := EffectiveType(md, ts);
    vt.BoolType? || vt.Int64Type? || vt.DoubleType? || vt.DistributionType?
  }

  function EffectiveKind(md: MetricDescriptor, ts: TimeSeries): MetricKind
  {
    if ts.metricKind.UnspecifiedKind? then md.metricKind else ts.metricKind
  }

  predicate IsDist(md: MetricDescriptor, ts: TimeSeries)
  {
    EffectiveType(md, ts).DistributionType?
  }

  predicate IsDelta(md: MetricDescriptor, ts: TimeSeries)
  {
    EffectiveKind(md, ts).DeltaKind?
  }

  /** Series the translation looks at. */
  predicate Considered(md: MetricDescriptor, ts: TimeSeries)
  {
    ts.points != [] && SupportedValueType(md, ts)
  }

  // ----------------------------------------------------------- accumulators

  datatype DeltaKey = DeltaKey(metricType: string, labelsHash: Hash)
  type Accs = accs: map<DeltaKey, Acc> | forall k :: k in accs ==> ValidAcc(accs[k])

  /** The state of a key, created on first sight, marked as seen. */
  function Seen(accs: Accs, k: DeltaKey, now: Time): (a: Acc)
    ensures ValidAcc(a) && a.lastSeen == now
  {
    (if k in accs then accs[k] else NEW_ACC).(lastSeen := now)
  }

  /** What one considered series leaves behind: accumulators, the sample if
      there is one, and what it adds to the statistics. */
  datatype Outcome = Outcome(accs: Accs, sample: Option<Sample<Option<HistValue>>>, stats: Stats)

  const DROPPED := Stats(1, 0, 0)

  function TranslateSeries(accs: Accs, k: DeltaKey, md: MetricDescriptor, ts: TimeSeries, now: Time): Outcome
    requires Considered(md, ts)
  {
    var latest := ts.points[0];
    if IsDist(md, ts) && IsDelta(md, ts) then
      var (a, resets, ok) := FoldDist(Seen(accs, k, now), ts.points);
      if !ok then Outcome(accs[k := a], None, Stats(1, 0, resets))
      else if a.hist.None? then Outcome(accs[k := a], None, Stats(0, 0, resets))
      else Outcome(accs[k := a], Some(Sample(ts.labels, 0.0, Some(Published(a.hist.value)), latest.end)), Stats(0, 0, resets))
    else if IsDist(md, ts) then
      match DistValue(latest)
      case None => Outcome(accs, None, DROPPED)
      case Some(d) => Outcome(accs, Some(Sample(ts.labels, 0.0, ToHistogram(d), latest.end)), NO_STATS)
    else if IsDelta(md, ts) then
      var (a, ok) := FoldScalar(Seen(accs, k, now), ts.points);
      if !ok then Outcome(accs[k := a], None, DROPPED)
      else Outcome(accs[k := a], Some(Sample(ts.labels, a.sum, None, a.lastEnd)), NO_STATS)
    else
      match ScalarValue(latest)
      case None => Outcome(accs, None, DROPPED)
      case Some(v) => Outcome(accs, Some(Sample(ts.labels, v, None, latest.end)), NO_STATS)
  }

  function AddStats(a: Stats, b: Stats): Stats
  {
    Stats(a.droppedValueType + b.droppedValueType, a.noPoints + b.noPoints, a.bucketReset + b.bucketReset)
  }

  /** Skipped series only count in the statistics. */
  function SeriesOutcome(hash: Labels -> Hash, accs: Accs, md: MetricDescriptor, ts: TimeSeries, now: Time): Outcome
  {
    if ts.points == [] then Outcome(accs, None, Stats(0, 1, 0))
    else if !SupportedValueType(md, ts) then Outcome(accs, None, DROPPED)
    else TranslateSeries(accs, DeltaKey(md.typ, hash(ts.labels)), md, ts, now)
  }

  datatype Translation = Translation(accs: Accs, samples: seq<Sample<Option<HistValue>>>, stats: Stats)

  /** A whole response, series by series. */
  function Translate(hash: Labels -> Hash, accs: Accs, md: MetricDescriptor, series: seq<TimeSeries>, now: Time): Translation
  {
    if series == [] then Translation(accs, [], NO_STATS) else
    var before := Translate(hash, accs, md, series[..|series| - 1], now);
    var out := SeriesOutcome(hash, before.accs, md, series[|series| - 1], now);
    Translation(out.accs,
                before.samples + (match out.sample case None => [] case Some(s) => [s]),
                AddStats(before.stats, out.stats))
  }

  lemma TranslateSnoc(hash: Labels -> Hash, accs: Accs, md: MetricDescriptor, series: seq<TimeSeries>, ts: TimeSeries, now: Time)
    ensures var before := Translate(hash, accs, md, series, now);
      var out := SeriesOutcome(hash, before.accs, md, ts, now);
      Translate(hash, accs, md, series + [ts], now) == Translation(out.accs,
        before.samples + (match out.sample case None => [] case Some(s) => [s]), AddStats(before.stats, out.stats))
  {
    assert (series + [ts])[..|series|] == series;
  }

  /** Accumulators left by a staleness sweep. */
  function Swept(accs: Accs, cutoff: Time): Accs
  {
    map k | k in accs && accs[k].lastSeen >= cutoff :: accs[k]
  }

  // ------------------------------------------------------------- properties

  /** A series yields a sample or counts as dropped or empty, never two of
      these; it does none only if it is a delta distribution whose points are
      all old and which has no histogram yet. */
  lemma SeriesAccountedFor(hash: Labels -> Hash, accs: Accs, md: MetricDescriptor, ts: TimeSeries, now: Time)
    ensures var out := SeriesOutcome(hash, accs, md, ts, now);
      var n := (if out.sample.Some? then 1 else 0) + out.stats.droppedValueType + out.stats.noPoints;
      var k := DeltaKey(md.typ, hash(ts.labels));
      && n <= 1
      && (n == 0 ==> IsDist(md, ts) && IsDelta(md, ts) && k in out.accs && out.accs[k].hist.None?)
  {}

  /** What a series that is not a DELTA shows does not depend on any
      accumulator, and it leaves all of them alone. */
  lemma OnlyDeltasRemember(hash: Labels -> Hash, a: Accs, b: Accs, md: MetricDescriptor, ts: TimeSeries, now: Time)
    requires !IsDelta(md, ts)
    ensures var x, y := SeriesOutcome(hash, a, md, ts, now), SeriesOutcome(hash, b, md, ts, now);
      && x.sample == y.sample && x.stats == y.stats && x.accs == a && y.accs == b
      && (x.sample.Some? ==>
          var s := x.sample.value;
          && s.pointEnd == ts.points[0].end
          && if IsDist(md, ts) then DistValue(ts.points[0]).Some? && s.hist == ToHistogram(DistValue(ts.points[0]).value)
             else ScalarValue(ts.points[0]) == Some(s.value))
  {}

  /** A sample carries a histogram exactly if its series is a distribution. It
      agrees with the kind of its family unless the series states a value type
      of its own that disagrees with the descriptor. */
  lemma HistIffDistribution(hash: Labels -> Hash, accs: Accs, md: MetricDescriptor, ts: TimeSeries, now: Time)
    requires SeriesOutcome(hash, accs, md, ts, now).sample.Some?
    ensures var s := SeriesOutcome(hash, accs, md, ts, now).sample.value;
      && (s.hist.Some? <==> IsDist(md, ts))
      && ((s.hist.Some? <==> FamilyKind(md).KindHistogram?) <==>
          ts.valueType.UnspecifiedType? || (ts.valueType.DistributionType? <==> md.valueType.DistributionType?))
  {
    hide FoldScalar, FoldDist, Published;
  }

  /** And it can disagree: a double in a family of histograms. */
  lemma HistogramFamilyWithoutHistogram(hash: Labels -> Hash, accs: Accs, name: string, labels: Labels, end: Time, v: real, now: Time)
    ensures var md := MetricDescriptor(name, "", GaugeKind, DistributionType, 0, 0);
      var ts := TimeSeries(labels, GaugeKind, DoubleType, [Point(end, DoubleValue(v))]);
      && FamilyKind(md) == KindHistogram
      && SeriesOutcome(hash, accs, md, ts, now).sample == Some(Sample(labels, v, None, end))
  {}

  function AccOf(accs: Accs, k: DeltaKey): (a: Acc)
    ensures ValidAcc(a)
  {
    if k in accs then accs[k] else NEW_ACC
  }

  /** A considered DELTA series commits its response to its own accumulator;
      nothing else happens to any accumulator. */
  lemma SeriesCommits(hash: Labels -> Hash, accs: Accs, md: MetricDescriptor, ts: TimeSeries, now: Time, k: DeltaKey)
    ensures var out := SeriesOutcome(hash, accs, md, ts, now);
      if Considered(md, ts) && IsDelta(md, ts) && k == DeltaKey(md.typ, hash(ts.labels)) then
        k in out.accs && out.accs[k] == Commit(if IsDist(md, ts) then Dist else Scalar, AccOf(accs, k), Poll(now, ts.points))
      else
        (k in out.accs <==> k in accs) && AccOf(out.accs, k) == AccOf(accs, k)
  {
    var own := DeltaKey(md.typ, hash(ts.labels));
    if Considered(md, ts) && IsDelta(md, ts) && k == own {
      assert Seen(accs, k, now) == AccOf(accs, k).(lastSeen := now);
    }
  }

  /** A sample has the labels of its series. */
  lemma SampleOfSeries(hash: Labels -> Hash, accs: Accs, md: MetricDescriptor, ts: TimeSeries, now: Time)
    ensures var out := SeriesOutcome(hash, accs, md, ts, now);
      out.sample.Some? ==> out.sample.value.labels == ts.labels && Considered(md, ts)
  {
    hide FoldScalar, FoldDist, Published;
  }

  /** Accumulators of other metric types are untouched, and no key disappears. */
  lemma {:induction false} TranslateFrame(hash: Labels -> Hash, accs: Accs, md: MetricDescriptor, series: seq<TimeSeries>, now: Time, k: DeltaKey)
    requires k in accs
    ensures k in Translate(hash, accs, md, series, now).accs
    ensures k.metricType != md.typ ==> Translate(hash, accs, md, series, now).accs[k] == accs[k]
  {
    if series != [] {
      var front := series[..|series| - 1];
      TranslateFrame(hash, accs, md, front, now, k);
      SeriesCommits(hash, Translate(hash, accs, md, front, now).accs, md, series[|series| - 1], now, k);
    }
  }

  lemma SeriesHasCountPerBound(hash: Labels -> Hash, accs: Accs, md: MetricDescriptor, ts: TimeSeries, now: Time)
    ensures var out := SeriesOutcome(hash, accs, md, ts, now);
      out.sample.Some? && out.sample.value.hist.Some? ==> |out.sample.value.hist.value.cumCounts| == |out.sample.value.hist.value.upperBounds|
  {
    hide FoldScalar, FoldDist;
  }

  /** The histogram invariant the exposition relies on: a sample of a
      histogram family that carries a histogram has one count per bound. */
  lemma {:induction false} SamplesHaveCountPerBound(hash: Labels -> Hash, accs: Accs, md: MetricDescriptor, series: seq<TimeSeries>, now: Time)
    ensures forall s :: s in Translate(hash, accs, md, series, now).samples && s.hist.Some? ==>
      |s.hist.value.cumCounts| == |s.hist.value.upperBounds|
  {
    if series != [] {
      var front := series[..|series| - 1];
      SamplesHaveCountPerBound(hash, accs, md, front, now);
      SeriesHasCountPerBound(hash, Translate(hash, accs, md, front, now).accs, md, series[|series| - 1], now);
      hide SeriesOutcome;
    }
  }

  // ---------------------------------------- what a series comes to, written out

  /** The kind of a family: a distribution makes a histogram whatever its metric
      kind, counters are the other CUMULATIVE and DELTA metrics. */
  lemma FamilyKindOf(md: MetricDescriptor)
    ensures FamilyKind(md) == KindHistogram <==> md.valueType == DistributionType
    ensures FamilyKind(md) == KindCounter <==> md.valueType != DistributionType && md.metricKind in {DeltaKind, CumulativeKind}
    ensures FamilyKind(md) == KindGauge <==> md.valueType != DistributionType && md.metricKind in {GaugeKind, UnspecifiedKind}
  {}

  /** What a series states of itself goes before what the descriptor states. */
  ghost predicate Of(md: MetricDescriptor, ts: TimeSeries, kind: MetricKind, typ: ValueType)
  {
    && (if ts.metricKind == UnspecifiedKind then md.metricKind == kind else ts.metricKind == kind)
    && (if ts.valueType == UnspecifiedType then md.valueType == typ else ts.valueType == typ)
  }

  /** A scalar series that is not a DELTA shows its newest value: a double as it
      is, an integer as that number, true as one and false as zero. Any other
      value is dropped. */
  lemma ScalarShows(hash: Labels -> Hash, accs: Accs, md: MetricDescriptor, ts: TimeSeries, kind: MetricKind, typ: ValueType, now: Time)
    requires ts.points != [] && Of(md, ts, kind, typ) && kind != DeltaKind && typ in {BoolType, Int64Type, DoubleType}
    ensures var out, latest := SeriesOutcome(hash, accs, md, ts, now), ts.points[0];
      && out.accs == accs
      && match latest.value
         case DoubleValue(x) => out.sample == Some(Sample(ts.labels, x, None, latest.end)) && out.stats == Stats(0, 0, 0)
         case Int64Value(i) => out.sample == Some(Sample(ts.labels, i as real, None, latest.end)) && out.stats == Stats(0, 0, 0)
         case BoolValue(b) => out.sample == Some(Sample(ts.labels, if b then 1.0 else 0.0, None, latest.end)) && out.stats == Stats(0, 0, 0)
         case _ => out.sample == None && out.stats == Stats(1, 0, 0)
  {}

  /** A distribution series that is not a DELTA shows its newest distribution if
      its layout is supported: explicit with bounds, linear or exponential. */
  lemma DistributionShows(hash: Labels -> Hash, accs: Accs, md: MetricDescriptor, ts: TimeSeries, kind: MetricKind, now: Time)
    requires ts.points != [] && Of(md, ts, kind, DistributionType) && kind != DeltaKind
    ensures var out, latest := SeriesOutcome(hash, accs, md, ts, now), ts.points[0];
      && out.accs == accs
      && if latest.value.DistributionValue? && latest.value.dist.options != Unspecified && latest.value.dist.options != Explicit([]) then
           && out.sample.Some? && out.sample.value.labels == ts.labels && out.sample.value.pointEnd == latest.end
           && out.sample.value.hist.Some? && out.stats == Stats(0, 0, 0)
           && out.sample.value.hist.value.sum == latest.value.dist.mean * latest.value.dist.count as real
           && (latest.value.dist.count >= 0 ==> out.sample.value.hist.value.count == latest.value.dist.count)
           && (latest.value.dist.options.Explicit? ==> out.sample.value.hist.value.upperBounds == latest.value.dist.options.bounds)
         else out.sample == None && out.stats == Stats(1, 0, 0)
  {}

  /** A series of any other type is dropped, one without points is counted as
      empty, and neither touches an accumulator. */
  lemma OthersAreSkipped(hash: Labels -> Hash, accs: Accs, md: MetricDescriptor, ts: TimeSeries, kind: MetricKind, typ: ValueType, now: Time)
    requires Of(md, ts, kind, typ) && (ts.points == [] || typ in {UnspecifiedType, StringType, MoneyType})
    ensures var out := SeriesOutcome(hash, accs, md, ts, now);
      out.accs == accs && out.sample == None && out.stats == if ts.points == [] then Stats(0, 1, 0) else Stats(1, 0, 0)
  {}

  /** A DELTA series with one point not counted yet adds exactly that value and
      shows the new sum; a value that is no scalar adds nothing and is dropped. */
  lemma OneNewPointCounts(hash: Labels -> Hash, accs: Accs, md: MetricDescriptor, ts: TimeSeries, typ: ValueType, p: Point, now: Time)
    requires Of(md, ts, DeltaKind, typ) && typ in {BoolType, Int64Type, DoubleType} && ts.points == [p]
    requires p.end > AccOf(accs, DeltaKey(md.typ, hash(ts.labels))).lastEnd
    ensures var out, k := SeriesOutcome(hash, accs, md, ts, now), DeltaKey(md.typ, hash(ts.labels));
      && k in out.accs && out.accs[k].lastSeen == now && out.accs[k].hist == AccOf(accs, k).hist
      && match p.value
         case DoubleValue(x) => Counted(out, k, ts.labels, AccOf(accs, k).sum + x, p.end)
         case Int64Value(i) => Counted(out, k, ts.labels, AccOf(accs, k).sum + i as real, p.end)
         case BoolValue(b) => Counted(out, k, ts.labels, AccOf(accs, k).sum + if b then 1.0 else 0.0, p.end)
         case _ =>
           && out.accs[k].sum == AccOf(accs, k).sum && out.accs[k].lastEnd == AccOf(accs, k).lastEnd
           && out.sample == None && out.stats == Stats(1, 0, 0)
  {
    var k := DeltaKey(md.typ, hash(ts.labels));
    assert Seen(accs, k, now) == AccOf(accs, k).(lastSeen := now);
    FoldOne(Seen(accs, k, now), p);
  }

  lemma FoldOne(a: Acc, p: Point)
    requires p.end > a.lastEnd
    ensures FoldScalar(a, [p]) == match ScalarValue(p) case None => (a, false) case Some(v) => (a.(sum := a.sum + v, lastEnd := p.end), true)
  {
    assert [p][..0] == [];
  }

  ghost predicate Counted(out: Outcome, k: DeltaKey, labels: Labels, sum: real, end: Time)
  {
    && k in out.accs && out.accs[k].sum == sum && out.accs[k].lastEnd == end
    && out.sample == Some(Sample(labels, sum, None, end)) && out.stats == Stats(0, 0, 0)
  }

  /** What a DELTA series shows after any response is what it has accumulated,
      unless an unreadable point stopped the walk, which counts as dropped. The
      end shown is that of the last point counted for a scalar, and of the newest
      point of the response for a distribution. */
  lemma DeltaShows(hash: Labels -> Hash, accs: Accs, md: MetricDescriptor, ts: TimeSeries, now: Time)
    requires Considered(md, ts) && IsDelta(md, ts)
    ensures var out, k := SeriesOutcome(hash, accs, md, ts, now), DeltaKey(md.typ, hash(ts.labels));
      var kind := if IsDist(md, ts) then Dist else Scalar;
      && k in out.accs && out.stats.noPoints == 0
      && out.stats.droppedValueType == (if Clean(kind, AccOf(accs, k).lastEnd, ts.points) then 0 else 1)
      && out.stats.bucketReset == (if kind.Dist? then FoldDist(AccOf(accs, k), ts.points).1 else 0)
      && out.sample ==
         if out.stats.droppedValueType == 1 then None
         else if kind.Scalar? then Some(Sample(ts.labels, out.accs[k].sum, None, out.accs[k].lastEnd))
         else if out.accs[k].hist.None? then None
         else Some(Sample(ts.labels, 0.0, Some(Published(out.accs[k].hist.value)), ts.points[0].end))
  {
    var k := DeltaKey(md.typ, hash(ts.labels));
    var a := AccOf(accs, k);
    assert Seen(accs, k, now) == a.(lastSeen := now);
    if IsDist(md, ts) {
      DistWalk(a, now, ts.points);
    } else {
      ScalarWalk(a, now, ts.points);
    }
    hide FoldDist, FoldScalar, Clean, Published;
  }

  /** The walk stops early exactly at an unreadable point, whenever the series
      was seen. */
  lemma {:induction false} ScalarWalk(a: Acc, now: Time, points: seq<Point>)
    requires ValidAcc(a)
    ensures FoldScalar(a.(lastSeen := now), points).1 <==> Clean(Scalar, a.lastEnd, points)
    decreases points
  {
    if points != [] {
      var p, newer := points[|points| - 1], points[..|points| - 1];
      if p.end <= a.lastEnd {
        ScalarWalk(a, now, newer);
      } else if ScalarValue(p).Some? {
        ScalarWalk(a.(sum := a.sum + ScalarValue(p).value, lastEnd := p.end), now, newer);
      }
    }
  }

  lemma {:induction false} DistWalk(a: Acc, now: Time, points: seq<Point>)
    requires ValidAcc(a)
    ensures FoldDist(a.(lastSeen := now), points).2 <==> Clean(Dist, a.lastEnd, points)
    ensures FoldDist(a.(lastSeen := now), points).1 == FoldDist(a, points).1
    decreases points
  {
    if points != [] {
      var p, newer := points[|points| - 1], points[..|points| - 1];
      if p.end <= a.lastEnd {
        DistWalk(a, now, newer);
      } else if DistValue(p).Some? {
        DistWalk(AcceptDist(a, p.end, DistValue(p).value), now, newer);
        assert AcceptDist(a.(lastSeen := now), p.end, DistValue(p).value) == AcceptDist(a, p.end, DistValue(p).value).(lastSeen := now);
      }
    }
  }

  /** What the series at a position of a response comes to. */
  function OutcomeAt(hash: Labels -> Hash, accs: Accs, md: MetricDescriptor, series: seq<TimeSeries>, i: nat, now: Time): Outcome
    requires i < |series|
  {
    SeriesOutcome(hash, Translate(hash, accs, md, series[..i], now).accs, md, series[i], now)
  }

  /** The sample it shows, if any, and the bucket resets it counts. */
  function SampleAt(hash: Labels -> Hash, accs: Accs, md: MetricDescriptor, series: seq<TimeSeries>, i: nat, now: Time): Option<Sample<Option<HistValue>>>
    requires i < |series|
  {
    OutcomeAt(hash, accs, md, series, i, now).sample
  }

  function ResetsAt(hash: Labels -> Hash, accs: Accs, md: MetricDescriptor, series: seq<TimeSeries>, i: nat, now: Time): nat
    requires i < |series|
  {
    OutcomeAt(hash, accs, md, series, i, now).stats.bucketReset
  }

  /** Bucket resets of a response, series by series. */
  function ResetsOf(hash: Labels -> Hash, accs: Accs, md: MetricDescriptor, series: seq<TimeSeries>, n: nat, now: Time): nat
    requires n <= |series|
  {
    if n == 0 then 0 else ResetsOf(hash, accs, md, series, n - 1, now) + ResetsAt(hash, accs, md, series, n - 1, now)
  }

  /** The series without points, those dropped and those that show a sample, by
      their position in the response. */
  function EmptySeries(series: seq<TimeSeries>): set<nat>
  {
    set i | 0 <= i < |series| && series[i].points == []
  }

  predicate Drops(hash: Labels -> Hash, accs: Accs, md: MetricDescriptor, series: seq<TimeSeries>, i: nat, now: Time)
    requires i < |series|
  {
    OutcomeAt(hash, accs, md, series, i, now).stats.droppedValueType != 0
  }

  predicate ShowsOne(hash: Labels -> Hash, accs: Accs, md: MetricDescriptor, series: seq<TimeSeries>, i: nat, now: Time)
    requires i < |series|
  {
    SampleAt(hash, accs, md, series, i, now).Some?
  }

  function DroppedSeries(hash: Labels -> Hash, accs: Accs, md: MetricDescriptor, series: seq<TimeSeries>, now: Time): set<nat>
  {
    set i | 0 <= i < |series| && Drops(hash, accs, md, series, i, now)
  }

  function ShownSeries(hash: Labels -> Hash, accs: Accs, md: MetricDescriptor, series: seq<TimeSeries>, now: Time): set<nat>
  {
    set i | 0 <= i < |series| && ShowsOne(hash, accs, md, series, i, now)
  }

  /** The statistics of a response: how many series had no points, how many were
      dropped, how many samples there are, and the resets of all of them. */
  lemma {:induction false} TranslateCounts(hash: Labels -> Hash, accs: Accs, md: MetricDescriptor, series: seq<TimeSeries>, now: Time)
    ensures var t := Translate(hash, accs, md, series, now);
      && t.stats.noPoints == |EmptySeries(series)|
      && t.stats.droppedValueType == |DroppedSeries(hash, accs, md, series, now)|
      && |t.samples| == |ShownSeries(hash, accs, md, series, now)|
      && t.stats.bucketReset == ResetsOf(hash, accs, md, series, |series|, now)
  {
    if series == [] {
      assert EmptySeries(series) == {} && DroppedSeries(hash, accs, md, series, now) == {} && ShownSeries(hash, accs, md, series, now) == {};
    } else {
      TranslateCounts(hash, accs, md, series[..|series| - 1], now);
      LastCounts(hash, accs, md, series, now);
      FrontCounts(hash, accs, md, series, now);
      hide *;
      EmptyGrows(series);
      DroppedGrows(hash, accs, md, series, now);
      ShownGrows(hash, accs, md, series, now);
    }
  }

  /** The samples are those of the series that show one, in their order: that of
      a series stands after as many as there are such series before it. */
  lemma {:induction false} SamplesInOrder(hash: Labels -> Hash, accs: Accs, md: MetricDescriptor, series: seq<TimeSeries>, i: nat, now: Time)
    requires i < |series| && SampleAt(hash, accs, md, series, i, now).Some?
    ensures StandsAt(Translate(hash, accs, md, series, now).samples, |ShownSeries(hash, accs, md, series[..i], now)|, SampleAt(hash, accs, md, series, i, now))
    decreases |series|
  {
    hide *;
    var n := |series| - 1;
    var front := Translate(hash, accs, md, series[..n], now).samples;
    LastSample(hash, accs, md, series, now);
    if i == n {
      TranslateCounts(hash, accs, md, series[..n], now);
      StandsLast(front, SampleAt(hash, accs, md, series, n, now));
    } else {
      OutcomeInFront(hash, accs, md, series, n, i, now);
      SamplesInOrder(hash, accs, md, series[..n], i, now);
      StandsStill(front, SampleAt(hash, accs, md, series, n, now), |ShownSeries(hash, accs, md, series[..i], now)|, SampleAt(hash, accs, md, series, i, now));
    }
  }

  predicate StandsAt<T(==)>(samples: seq<T>, at: nat, s: Option<T>)
  {
    at < |samples| && Some(samples[at]) == s
  }

  function IfAny<T>(s: Option<T>): seq<T>
  {
    match s
    case None => []
    case Some(x) => [x]
  }

  lemma StandsLast<T>(samples: seq<T>, s: Option<T>)
    requires s.Some?
    ensures StandsAt(samples + IfAny(s), |samples|, s)
  {}

  lemma StandsStill<T>(samples: seq<T>, more: Option<T>, at: nat, s: Option<T>)
    requires StandsAt(samples, at, s)
    ensures StandsAt(samples + IfAny(more), at, s)
  {}

  lemma OutcomeInFront(hash: Labels -> Hash, accs: Accs, md: MetricDescriptor, series: seq<TimeSeries>, n: nat, i: nat, now: Time)
    requires i < n <= |series|
    ensures series[..n][..i] == series[..i]
    ensures Drops(hash, accs, md, series[..n], i, now) == Drops(hash, accs, md, series, i, now)
    ensures ShowsOne(hash, accs, md, series[..n], i, now) == ShowsOne(hash, accs, md, series, i, now)
    ensures SampleAt(hash, accs, md, series[..n], i, now) == SampleAt(hash, accs, md, series, i, now)
    ensures ResetsAt(hash, accs, md, series[..n], i, now) == ResetsAt(hash, accs, md, series, i, now)
  {
    assert series[..n][..i] == series[..i];
    hide Translate, SeriesOutcome;
  }

  lemma LastSample(hash: Labels -> Hash, accs: Accs, md: MetricDescriptor, series: seq<TimeSeries>, now: Time)
    requires series != []
    ensures var n := |series| - 1;
      Translate(hash, accs, md, series, now).samples == Translate(hash, accs, md, series[..n], now).samples + IfAny(SampleAt(hash, accs, md, series, n, now))
  {
    hide SeriesOutcome;
  }

  lemma LastCounts(hash: Labels -> Hash, accs: Accs, md: MetricDescriptor, series: seq<TimeSeries>, now: Time)
    requires series != []
    ensures var front := series[..|series| - 1];
      var before, t := Translate(hash, accs, md, front, now), Translate(hash, accs, md, series, now);
      && t.stats.noPoints == before.stats.noPoints + (if series[|series| - 1].points == [] then 1 else 0)
      && t.stats.droppedValueType == before.stats.droppedValueType + (if Drops(hash, accs, md, series, |series| - 1, now) then 1 else 0)
      && |t.samples| == |before.samples| + if ShowsOne(hash, accs, md, series, |series| - 1, now) then 1 else 0
  {
    SeriesCounts(hash, Translate(hash, accs, md, series[..|series| - 1], now).accs, md, series[|series| - 1], now);
    hide SeriesOutcome;
  }

  lemma OneMoreIndex(all: set<nat>, before: set<nat>, n: nat, more: bool)
    requires n !in before && all == before + if more then {n} else {}
    ensures |all| == |before| + if more then 1 else 0
  {}

  lemma EmptyGrows(series: seq<TimeSeries>)
    requires series != []
    ensures var n := |series| - 1; |EmptySeries(series)| == |EmptySeries(series[..n])| + if series[n].points == [] then 1 else 0
  {
    var n := |series| - 1;
    OneMoreIndex(EmptySeries(series), EmptySeries(series[..n]), n, series[n].points == []);
  }

  lemma DroppedGrows(hash: Labels -> Hash, accs: Accs, md: MetricDescriptor, series: seq<TimeSeries>, now: Time)
    requires series != []
    requires forall i :: 0 <= i < |series| - 1 ==> Drops(hash, accs, md, series, i, now) == Drops(hash, accs, md, series[..|series| - 1], i, now)
    ensures var n := |series| - 1;
      |DroppedSeries(hash, accs, md, series, now)| == |DroppedSeries(hash, accs, md, series[..n], now)|
        + if Drops(hash, accs, md, series, n, now) then 1 else 0
  {
    hide Drops;
    var n := |series| - 1;
    OneMoreIndex(DroppedSeries(hash, accs, md, series, now), DroppedSeries(hash, accs, md, series[..n], now),
                 n, Drops(hash, accs, md, series, n, now));
  }

  lemma ShownGrows(hash: Labels -> Hash, accs: Accs, md: MetricDescriptor, series: seq<TimeSeries>, now: Time)
    requires series != []
    requires forall i :: 0 <= i < |series| - 1 ==> ShowsOne(hash, accs, md, series, i, now) == ShowsOne(hash, accs, md, series[..|series| - 1], i, now)
    ensures var n := |series| - 1;
      |ShownSeries(hash, accs, md, series, now)| == |ShownSeries(hash, accs, md, series[..n], now)|
        + if ShowsOne(hash, accs, md, series, n, now) then 1 else 0
  {
    hide ShowsOne;
    var n := |series| - 1;
    OneMoreIndex(ShownSeries(hash, accs, md, series, now), ShownSeries(hash, accs, md, series[..n], now),
                 n, ShowsOne(hash, accs, md, series, n, now));
  }

  /** One series counts at most once as empty, and at most once as dropped. */
  lemma SeriesCounts(hash: Labels -> Hash, accs: Accs, md: MetricDescriptor, ts: TimeSeries, now: Time)
    ensures var out := SeriesOutcome(hash, accs, md, ts, now);
      && out.stats.noPoints == (if ts.points == [] then 1 else 0)
      && out.stats.droppedValueType <= 1
  {
    hide FoldScalar, FoldDist, Published;
  }

  lemma FrontCounts(hash: Labels -> Hash, accs: Accs, md: MetricDescriptor, series: seq<TimeSeries>, now: Time)
    requires series != []
    ensures var front := series[..|series| - 1];
      && (forall i :: 0 <= i < |front| ==> Drops(hash, accs, md, series, i, now) == Drops(hash, accs, md, front, i, now))
      && (forall i :: 0 <= i < |front| ==> ShowsOne(hash, accs, md, series, i, now) == ShowsOne(hash, accs, md, front, i, now))
      && Translate(hash, accs, md, series, now).stats.bucketReset
          == Translate(hash, accs, md, front, now).stats.bucketReset + ResetsAt(hash, accs, md, series, |front|, now)
      && ResetsOf(hash, accs, md, series, |series|, now)
          == ResetsOf(hash, accs, md, front, |front|, now) + ResetsAt(hash, accs, md, series, |front|, now)
  {
    var front := series[..|series| - 1];
    LastResets(hash, accs, md, series, now);
    LastResetsOf(hash, accs, md, series, |front|, now);
    hide *;
    FrontOutcomes(hash, accs, md, series, now);
    SameResets(hash, accs, md, series, front, |front|, now);
  }

  lemma FrontOutcomes(hash: Labels -> Hash, accs: Accs, md: MetricDescriptor, series: seq<TimeSeries>, now: Time)
    requires series != []
    ensures var front := series[..|series| - 1];
      forall i :: 0 <= i < |front| ==>
        && Drops(hash, accs, md, series, i, now) == Drops(hash, accs, md, front, i, now)
        && ShowsOne(hash, accs, md, series, i, now) == ShowsOne(hash, accs, md, front, i, now)
        && ResetsAt(hash, accs, md, series, i, now) == ResetsAt(hash, accs, md, front, i, now)
  {
    hide *;
    var front := series[..|series| - 1];
    forall i | 0 <= i < |front|
      ensures Drops(hash, accs, md, series, i, now) == Drops(hash, accs, md, front, i, now)
      ensures ShowsOne(hash, accs, md, series, i, now) == ShowsOne(hash, accs, md, front, i, now)
      ensures ResetsAt(hash, accs, md, series, i, now) == ResetsAt(hash, accs, md, front, i, now)
    {
      OutcomeInFront(hash, accs, md, series, |front|, i, now);
    }
  }

  lemma LastResets(hash: Labels -> Hash, accs: Accs, md: MetricDescriptor, series: seq<TimeSeries>, now: Time)
    requires series != []
    ensures var n := |series| - 1;
      Translate(hash, accs, md, series, now).stats.bucketReset
        == Translate(hash, accs, md, series[..n], now).stats.bucketReset + ResetsAt(hash, accs, md, series, n, now)
  {
    hide SeriesOutcome;
  }

  lemma LastResetsOf(hash: Labels -> Hash, accs: Accs, md: MetricDescriptor, series: seq<TimeSeries>, n: nat, now: Time)
    requires n < |series|
    ensures ResetsOf(hash, accs, md, series, n + 1, now) == ResetsOf(hash, accs, md, series, n, now) + ResetsAt(hash, accs, md, series, n, now)
  {
    hide ResetsAt;
  }

  lemma {:induction false} SameResets(hash: Labels -> Hash, accs: Accs, md: MetricDescriptor, a: seq<TimeSeries>, b: seq<TimeSeries>, n: nat, now: Time)
    requires n <= |a| && n <= |b| && forall i :: 0 <= i < n ==> ResetsAt(hash, accs, md, a, i, now) == ResetsAt(hash, accs, md, b, i, now)
    ensures ResetsOf(hash, accs, md, a, n, now) == ResetsOf(hash, accs, md, b, n, now)
  {
    hide ResetsAt;
    if n > 0 {
      SameResets(hash, accs, md, a, b, n - 1, now);
    }
  }
}
