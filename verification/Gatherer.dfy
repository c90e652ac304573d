/** The exposition of the cache (internal/export/gatherer.go and the ordered
    reads of internal/cache/cache.go). */
module Exposition {
  import opened Basics
  import opened Histograms
  import opened TranslateSpec
  import opened CacheSpec
  import opened Ordering
  import Cache

  type Hist = Option<HistValue>

  datatype MetricType = COUNTER | HISTOGRAM | GAUGE
  datatype HistogramDto = HistogramDto(sampleCount: nat, sampleSum: real, buckets: seq<(real, nat)>)
  datatype MetricValue = CounterValue(value: real) | HistogramValue(histogram: HistogramDto) | GaugeValue(value: real)
  datatype Metric = Metric(labels: Labels, value: MetricValue, timestampMs: Option<int>)
  datatype MetricFamily = MetricFamily(name: string, help: string, typ: MetricType, metrics: seq<Metric>)

  /** The Unix epoch, in nanoseconds since the year 1. */
  const UNIX_EPOCH: Time := 62_135_596_800 * SECOND

  function UnixMilli(t: Time): int
  {
    (t - UNIX_EPOCH) / 1_000_000
  }

  function FamilyType(kind: Kind): MetricType
  {
    match kind
    case KindCounter => COUNTER
    case KindHistogram => HISTOGRAM
    case KindGauge => GAUGE
  }

  /** The exposition indexes a count for every bound. */
  predicate Indexable(h: Hist)
  {
    h.Some? ==> |h.value.upperBounds| <= |h.value.cumCounts|
  }

  function Buckets(h: HistValue, n: nat): (b: seq<(real, nat)>)
    requires n <= |h.upperBounds| <= |h.cumCounts|
    ensures |b| == n
  {
    if n == 0 then [] else Buckets(h, n - 1) + [(h.upperBounds[n - 1], h.cumCounts[n - 1])]
  }

  function ToDto(h: Hist): HistogramDto
    requires Indexable(h)
  {
    match h
    case None => HistogramDto(0, 0.0, [])
    case Some(v) => HistogramDto(v.count, v.sum, Buckets(v, |v.upperBounds|))
  }

  method HistogramToDto(h: Hist) returns (dto: HistogramDto)
    requires Indexable(h)
    ensures dto == ToDto(h)
  {
    if h.None? {
      return HistogramDto(0, 0.0, []);
    }
    var buckets: seq<(real, nat)> := [];
    for i := 0 to |h.value.upperBounds|
      invariant buckets == Buckets(h.value, i)
    {
      buckets := buckets + [(h.value.upperBounds[i], h.value.cumCounts[i])];
    }
    dto := HistogramDto(h.value.count, h.value.sum, buckets);
  }

  /** What one series contributes to a scrape. */
  function MetricOf(kind: Kind, sr: Series<Hist>, withTimestamps: bool): Metric
    requires Indexable(sr.hist)
  {
    Metric(sr.labels,
           match kind
           case KindCounter => CounterValue(sr.value)
           case KindHistogram => HistogramValue(ToDto(sr.hist))
           case KindGauge => GaugeValue(sr.value),
           if withTimestamps && sr.pointEnd != ZERO_TIME then Some(UnixMilli(sr.pointEnd)) else None)
  }

  // ------------------------------------------------------ what a scrape shows

  ghost predicate HistsIndexable(st: State<Hist>)
  {
    forall n, h :: n in st.families && h in st.families[n].series ==> Indexable(st.families[n].series[h].hist)
  }

  predicate MetricLess(a: Metric, b: Metric)
  {
    LabelsLess(a.labels, b.labels)
  }

  predicate FamilyLess(a: MetricFamily, b: MetricFamily)
  {
    StringLess(a.name, b.name)
  }

  /** A list of metrics shows every series of a family once, in label order. */
  ghost predicate ShowsSeries(f: Family<Hist>, withTimestamps: bool, metrics: seq<Metric>)
    requires forall h :: h in f.series ==> Indexable(f.series[h].hist)
  {
    && Ascending(MetricLess, metrics)
    && (forall h :: h in f.series ==> MetricOf(f.kind, f.series[h], withTimestamps) in metrics)
    && (forall i :: 0 <= i < |metrics| ==> exists h :: h in f.series && metrics[i] == MetricOf(f.kind, f.series[h], withTimestamps))
  }

  ghost predicate ShowsFamily(st: State<Hist>, withTimestamps: bool, mf: MetricFamily)
    requires HistsIndexable(st)
  {
    && mf.name in st.families
    && var f := st.families[mf.name];
    f.series != map[] && mf.help == f.help && mf.typ == FamilyType(f.kind) && ShowsSeries(f, withTimestamps, mf.metrics)
  }

  /** The exposition: every family with a series, once, in name order. */
  ghost predicate Exposes(st: State<Hist>, withTimestamps: bool, out: seq<MetricFamily>)
    requires HistsIndexable(st)
  {
    && Ascending(FamilyLess, out)
    && (forall i :: 0 <= i < |out| ==> ShowsFamily(st, withTimestamps, out[i]))
    && (forall n :: n in st.families && st.families[n].series != map[] ==> exists i :: 0 <= i < |out| && out[i].name == n)
  }

  lemma MetricOrder()
    ensures StrictOrder(MetricLess) && StrictOrder(FamilyLess)
  {
    LabelsOrder();
    StringOrder();
    hide LabelsLess, StringLess;
  }

  lemma SeriesShownOneWay(f: Family<Hist>, withTimestamps: bool, a: seq<Metric>, b: seq<Metric>)
    requires forall h :: h in f.series ==> Indexable(f.series[h].hist)
    requires ShowsSeries(f, withTimestamps, a) && ShowsSeries(f, withTimestamps, b)
    ensures a == b
  {
    MetricOrder();
    hide MetricLess, MetricOf;
    AscendingIsUnique(MetricLess, a, b);
  }

  /** A store has one exposition: it does not depend on the order in which the
      maps are iterated. */
  lemma ExpositionIsUnique(st: State<Hist>, withTimestamps: bool, a: seq<MetricFamily>, b: seq<MetricFamily>)
    requires HistsIndexable(st)
    requires Exposes(st, withTimestamps, a) && Exposes(st, withTimestamps, b)
    ensures a == b
  {
    MetricOrder();
    FamiliesShownAgain(st, withTimestamps, a, b);
    FamiliesShownAgain(st, withTimestamps, b, a);
    hide FamilyLess;
    AscendingIsUnique(FamilyLess, a, b);
  }

  lemma FamiliesShownAgain(st: State<Hist>, withTimestamps: bool, a: seq<MetricFamily>, b: seq<MetricFamily>)
    requires HistsIndexable(st)
    requires Exposes(st, withTimestamps, a) && Exposes(st, withTimestamps, b)
    ensures forall i :: 0 <= i < |a| ==> a[i] in b
  {
    hide ShowsSeries, FamilyType;
    forall i | 0 <= i < |a|
      ensures a[i] in b
    {
      var n := a[i].name;
      assert ShowsFamily(st, withTimestamps, a[i]);
      var j :| 0 <= j < |b| && b[j].name == n;
      assert ShowsFamily(st, withTimestamps, b[j]);
      SeriesShownOneWay(st.families[n], withTimestamps, a[i].metrics, b[j].metrics);
      assert a[i] == b[j];
    }
  }

  // ------------------------------------------- what a scrape says, written out

  /** Midnight of the first of January of a year, in nanoseconds since that of
      the year 1, with the leap days in between. */
  function NewYear(year: int): Time
    requires year >= 1
  {
    var years := year - 1;
    (365 * years + years / 4 - years / 100 + years / 400) * 24 * 60 * 60 * 1_000_000_000
  }

  /** A metric says this of a series: the value of a counter or a gauge as such,
      a histogram with its count, sum and the count at every bound, and if asked
      for, the milliseconds since 1970 at which its newest point ends. */
  ghost predicate Says(kind: Kind, sr: Series<Hist>, withTimestamps: bool, m: Metric)
  {
    && m.labels == sr.labels
    && (kind == KindCounter ==> m.value == CounterValue(sr.value))
    && (kind == KindGauge ==> m.value == GaugeValue(sr.value))
    && (kind == KindHistogram ==> m.value.HistogramValue? && SaysHistogram(sr.hist, m.value.histogram))
    && (m.timestampMs.Some? <==> withTimestamps && sr.pointEnd != 0)
    && (m.timestampMs.Some? ==> 0 <= sr.pointEnd - NewYear(1970) - m.timestampMs.value * 1_000_000 < 1_000_000)
  }

  ghost predicate SaysHistogram(h: Hist, dto: HistogramDto)
  {
    if h.None? then dto.sampleCount == 0 && dto.sampleSum == 0.0 && dto.buckets == []
    else
      && dto.sampleCount == h.value.count && dto.sampleSum == h.value.sum
      && |dto.buckets| == |h.value.upperBounds| <= |h.value.cumCounts|
      && forall i :: 0 <= i < |dto.buckets| ==> dto.buckets[i] == (h.value.upperBounds[i], h.value.cumCounts[i])
  }

  /** A scrape announces a family as what it is stored as, and says of each of its
      series what it stores, of nothing else anything. */
  ghost predicate SaysFamily(f: Family<Hist>, withTimestamps: bool, mf: MetricFamily)
  {
    && mf.help == f.help
    && (mf.typ == COUNTER <==> f.kind == KindCounter)
    && (mf.typ == HISTOGRAM <==> f.kind == KindHistogram)
    && (mf.typ == GAUGE <==> f.kind == KindGauge)
    && (forall m :: m in mf.metrics ==> SaysOfSome(f, withTimestamps, m))
    && (forall h :: h in f.series ==> exists m :: m in mf.metrics && Says(f.kind, f.series[h], withTimestamps, m))
  }

  ghost predicate SaysOfSome(f: Family<Hist>, withTimestamps: bool, m: Metric)
  {
    exists h :: h in f.series && Says(f.kind, f.series[h], withTimestamps, m)
  }

  lemma {:induction false} BucketAt(h: HistValue, n: nat, i: nat)
    requires i < n <= |h.upperBounds| <= |h.cumCounts|
    ensures Buckets(h, n)[i] == (h.upperBounds[i], h.cumCounts[i])
  {
    if i < n - 1 {
      BucketAt(h, n - 1, i);
    }
  }

  lemma DtoSays(h: Hist)
    requires Indexable(h)
    ensures SaysHistogram(h, ToDto(h))
  {
    if h.Some? {
      forall i | 0 <= i < |h.value.upperBounds|
        ensures Buckets(h.value, |h.value.upperBounds|)[i] == (h.value.upperBounds[i], h.value.cumCounts[i])
      {
        BucketAt(h.value, |h.value.upperBounds|, i);
      }
    }
  }

  lemma MetricSays(kind: Kind, sr: Series<Hist>, withTimestamps: bool)
    requires Indexable(sr.hist)
    ensures Says(kind, sr, withTimestamps, MetricOf(kind, sr, withTimestamps))
  {
    DtoSays(sr.hist);
    hide SaysHistogram, ToDto;
  }

  lemma FamilySays(f: Family<Hist>, withTimestamps: bool, mf: MetricFamily)
    requires forall h :: h in f.series ==> Indexable(f.series[h].hist)
    requires mf.help == f.help && mf.typ == FamilyType(f.kind) && ShowsSeries(f, withTimestamps, mf.metrics)
    ensures SaysFamily(f, withTimestamps, mf)
  {
    forall m | m in mf.metrics
      ensures SaysOfSome(f, withTimestamps, m)
    {
      var i :| 0 <= i < |mf.metrics| && mf.metrics[i] == m;
      SaysSome(f, withTimestamps, mf.metrics, i);
    }
    forall h | h in f.series
      ensures exists m :: m in mf.metrics && Says(f.kind, f.series[h], withTimestamps, m)
    {
      MetricSays(f.kind, f.series[h], withTimestamps);
      assert MetricOf(f.kind, f.series[h], withTimestamps) in mf.metrics;
    }
  }

  lemma SaysSome(f: Family<Hist>, withTimestamps: bool, metrics: seq<Metric>, i: nat)
    requires forall h :: h in f.series ==> Indexable(f.series[h].hist)
    requires ShowsSeries(f, withTimestamps, metrics) && i < |metrics|
    ensures SaysOfSome(f, withTimestamps, metrics[i])
  {
    var m := metrics[i];
    assert exists h :: h in f.series && m == MetricOf(f.kind, f.series[h], withTimestamps);
    var h :| h in f.series && m == MetricOf(f.kind, f.series[h], withTimestamps);
    MetricSays(f.kind, f.series[h], withTimestamps);
  }

  /** What an exposition says: every family with a series is there once, in the
      order of names, and says what is stored. */
  lemma ExpositionSays(st: State<Hist>, withTimestamps: bool, out: seq<MetricFamily>)
    requires HistsIndexable(st) && Exposes(st, withTimestamps, out)
    ensures forall i :: 0 <= i < |out| ==>
      out[i].name in st.families && st.families[out[i].name].series != map[] && SaysFamily(st.families[out[i].name], withTimestamps, out[i])
  {
    hide FamilyLess, ShowsSeries, SaysFamily, Indexable;
    forall i | 0 <= i < |out|
      ensures out[i].name in st.families && st.families[out[i].name].series != map[] && SaysFamily(st.families[out[i].name], withTimestamps, out[i])
    {
      assert ShowsFamily(st, withTimestamps, out[i]);
      FamilySays(st.families[out[i].name], withTimestamps, out[i]);
    }
  }

  // ----------------------------------------------------------------- reading

  predicate SeriesLess(a: Series<Hist>, b: Series<Hist>)
  {
    LabelsLess(a.labels, b.labels)
  }

  predicate NameLess(a: Family<Hist>, b: Family<Hist>)
  {
    StringLess(a.name, b.name)
  }

  /** Different hashes have different labels. */
  ghost predicate DistinctLabels(f: Family<Hist>)
  {
    forall g, h :: g in f.series && h in f.series && g != h ==> f.series[g].labels != f.series[h].labels
  }

  lemma InvSeparatesLabels(hash: Labels -> Hash, st: State<Hist>, n: string)
    requires Inv(hash, st) && n in st.families
    ensures DistinctLabels(st.families[n])
  {
    forall h | h in st.families[n].series
      ensures hash(st.families[n].series[h].labels) == h
    {
      assert PoolAgrees(hash, st, h);
      assert n in Holders(st, h);
    }
  }

  lemma ReadOrders()
    ensures StrictOrder(SeriesLess) && StrictOrder(NameLess)
    ensures forall a: Series<Hist>, b: Series<Hist> :: a.labels != b.labels ==> SeriesLess(a, b) || SeriesLess(b, a)
    ensures forall a: Family<Hist>, b: Family<Hist> :: a.name != b.name ==> NameLess(a, b) || NameLess(b, a)
  {
    LabelsOrder();
    StringOrder();
    hide LabelsLess, StringLess;
  }

  /** A list has every series of a family once. */
  ghost predicate ListsSeries(f: Family<Hist>, list: seq<Series<Hist>>)
  {
    && |list| == |f.series|
    && (forall h :: h in f.series ==> f.series[h] in list)
    && (forall i :: 0 <= i < |list| ==> exists h :: h in f.series && f.series[h] == list[i])
  }

  /** The series of a family, in the order the map gives them. */
  method SeriesList(f: Family<Hist>) returns (list: seq<Series<Hist>>)
    requires DistinctLabels(f)
    ensures ListsSeries(f, list)
    ensures forall i, j :: 0 <= i < j < |list| ==> list[i].labels != list[j].labels
  {
    list := [];
    var todo := f.series.Keys;
    ghost var hashes: seq<Hash> := [];
    while todo != {}
      invariant todo <= f.series.Keys && |list| + |todo| == |f.series.Keys|
      invariant |hashes| == |list|
      invariant forall i :: 0 <= i < |list| ==> hashes[i] in f.series && hashes[i] !in todo && f.series[hashes[i]] == list[i]
      invariant forall i, j :: 0 <= i < j < |list| ==> list[i].labels != list[j].labels
      invariant forall h :: h in f.series && h !in todo ==> f.series[h] in list
      decreases |todo|
    {
      var h :| h in todo;
      list := list + [f.series[h]];
      hashes := hashes + [h];
      todo := todo - {h};
    }
    assert |f.series.Keys| == |f.series|;
  }

  /** The series of a family in label order. */
  method SortedSeries(f: Family<Hist>) returns (out: seq<Series<Hist>>)
    requires DistinctLabels(f)
    ensures Ascending(SeriesLess, out) && ListsSeries(f, out)
  {
    var list := SeriesList(f);
    ReadOrders();
    hide SeriesLess, DistinctLabels, ListsSeries;
    SortSorts(SeriesLess, list);
    out := Sort(SeriesLess, list);
    SameMembersListed(f, list, out);
  }

  lemma SameMembersListed(f: Family<Hist>, a: seq<Series<Hist>>, b: seq<Series<Hist>>)
    requires ListsSeries(f, a) && |a| == |b| && SameMembers(b, a)
    ensures ListsSeries(f, b)
  {
    forall h | h in f.series
      ensures f.series[h] in b
    {
      var i :| 0 <= i < |a| && a[i] == f.series[h];
      assert a[i] in b;
    }
  }

  /** All families in name order. */
  method SortedFamilies(families: map<string, Family<Hist>>) returns (out: seq<Family<Hist>>)
    requires forall n :: n in families ==> families[n].name == n
    ensures Ascending(NameLess, out)
    ensures forall f :: f in out <==> f.name in families && families[f.name] == f
  {
    var list: seq<Family<Hist>> := [];
    var todo := families.Keys;
    while todo != {}
      invariant todo <= families.Keys
      invariant forall i :: 0 <= i < |list| ==> list[i].name in families && list[i].name !in todo && families[list[i].name] == list[i]
      invariant forall i, j :: 0 <= i < j < |list| ==> list[i].name != list[j].name
      invariant forall n :: n in families && n !in todo ==> families[n] in list
      decreases |todo|
    {
      var n :| n in todo;
      list := list + [families[n]];
      todo := todo - {n};
    }
    ReadOrders();
    hide NameLess;
    SortSorts(NameLess, list);
    out := Sort(NameLess, list);
    forall f
      ensures f in out <==> f in list
    {
      SortMembers(NameLess, list, f);
    }
  }

  /** The metrics of one family. */
  method FamilyMetrics(f: Family<Hist>, withTimestamps: bool) returns (metrics: seq<Metric>)
    requires DistinctLabels(f) && forall h :: h in f.series ==> Indexable(f.series[h].hist)
    ensures ShowsSeries(f, withTimestamps, metrics) && |metrics| == |f.series|
  {
    var sorted := SortedSeries(f);
    metrics := [];
    for i := 0 to |sorted|
      invariant |metrics| == i
      invariant forall j :: 0 <= j < i ==> Indexable(sorted[j].hist) && metrics[j] == MetricOf(f.kind, sorted[j], withTimestamps)
    {
      var sr := sorted[i];
      assert sr in sorted;
      var value: MetricValue;
      match f.kind {
        case KindCounter =>
          value := CounterValue(sr.value);
        case KindHistogram =>
          var dto := HistogramToDto(sr.hist);
          value := HistogramValue(dto);
        case KindGauge =>
          value := GaugeValue(sr.value);
      }
      var timestamp := None;
      if withTimestamps && sr.pointEnd != ZERO_TIME {
        timestamp := Some(UnixMilli(sr.pointEnd));
      }
      metrics := metrics + [Metric(sr.labels, value, timestamp)];
    }
    MetricsShowSeries(f, withTimestamps, sorted, metrics);
  }

  /** The metrics are those of the listed series, one by one. */
  ghost predicate MetricsOf(f: Family<Hist>, withTimestamps: bool, sorted: seq<Series<Hist>>, metrics: seq<Metric>)
  {
    && |metrics| == |sorted|
    && forall j :: 0 <= j < |sorted| ==> Indexable(sorted[j].hist) && metrics[j] == MetricOf(f.kind, sorted[j], withTimestamps)
  }

  lemma MetricsAscend(f: Family<Hist>, withTimestamps: bool, sorted: seq<Series<Hist>>, metrics: seq<Metric>)
    requires Ascending(SeriesLess, sorted) && MetricsOf(f, withTimestamps, sorted, metrics)
    ensures Ascending(MetricLess, metrics)
  {
    forall i, j | 0 <= i < j < |metrics|
      ensures MetricLess(metrics[i], metrics[j])
    {
      assert SeriesLess(sorted[i], sorted[j]);
    }
  }

  lemma MetricComesFrom(f: Family<Hist>, withTimestamps: bool, sorted: seq<Series<Hist>>, metrics: seq<Metric>, i: nat)
    requires ListsSeries(f, sorted) && MetricsOf(f, withTimestamps, sorted, metrics) && i < |metrics|
    ensures exists h :: h in f.series && Indexable(f.series[h].hist) && metrics[i] == MetricOf(f.kind, f.series[h], withTimestamps)
  {
    var h :| h in f.series && f.series[h] == sorted[i];
    assert metrics[i] == MetricOf(f.kind, f.series[h], withTimestamps);
  }

  lemma SeriesIsListed(f: Family<Hist>, withTimestamps: bool, sorted: seq<Series<Hist>>, metrics: seq<Metric>, h: Hash)
    requires ListsSeries(f, sorted) && MetricsOf(f, withTimestamps, sorted, metrics) && h in f.series && Indexable(f.series[h].hist)
    ensures MetricOf(f.kind, f.series[h], withTimestamps) in metrics
  {
    var i :| 0 <= i < |sorted| && sorted[i] == f.series[h];
    assert metrics[i] == MetricOf(f.kind, f.series[h], withTimestamps);
  }

  lemma MetricsShowSeries(f: Family<Hist>, withTimestamps: bool, sorted: seq<Series<Hist>>, metrics: seq<Metric>)
    requires forall h :: h in f.series ==> Indexable(f.series[h].hist)
    requires Ascending(SeriesLess, sorted) && ListsSeries(f, sorted) && MetricsOf(f, withTimestamps, sorted, metrics)
    ensures ShowsSeries(f, withTimestamps, metrics)
  {
    MetricsAscend(f, withTimestamps, sorted, metrics);
    forall i | 0 <= i < |metrics|
      ensures exists h :: h in f.series && metrics[i] == MetricOf(f.kind, f.series[h], withTimestamps)
    {
      MetricComesFrom(f, withTimestamps, sorted, metrics, i);
    }
    forall h | h in f.series
      ensures MetricOf(f.kind, f.series[h], withTimestamps) in metrics
    {
      SeriesIsListed(f, withTimestamps, sorted, metrics, h);
    }
  }

  /** What the scrape has so far of the first `k` families; `from` tells which
      family each part comes from. */
  ghost predicate ExposesSome(st: State<Hist>, withTimestamps: bool, fs: seq<Family<Hist>>, k: nat, from: seq<nat>, out: seq<MetricFamily>)
    requires HistsIndexable(st) && k <= |fs|
  {
    && |from| == |out|
    && (forall i :: 0 <= i < |out| ==> from[i] < k && out[i].name == fs[from[i]].name)
    && (forall i, j :: 0 <= i < j < |out| ==> from[i] < from[j])
    && (forall i :: 0 <= i < |out| ==> ShowsFamily(st, withTimestamps, out[i]) && |out[i].metrics| == |st.families[out[i].name].series|)
    && (forall l :: 0 <= l < k && fs[l].series != map[] ==> exists i :: 0 <= i < |out| && out[i].name == fs[l].name)
  }

  lemma ExposesOneMore(st: State<Hist>, withTimestamps: bool, fs: seq<Family<Hist>>, k: nat, from: seq<nat>, out: seq<MetricFamily>, mf: MetricFamily)
    requires HistsIndexable(st) && k < |fs| && ExposesSome(st, withTimestamps, fs, k, from, out)
    requires mf.name == fs[k].name && ShowsFamily(st, withTimestamps, mf) && |mf.metrics| == |st.families[mf.name].series|
    ensures ExposesSome(st, withTimestamps, fs, k + 1, from + [k], out + [mf])
  {
    hide ShowsFamily, HistsIndexable;
    var more := out + [mf];
    forall l | 0 <= l <= k && fs[l].series != map[]
      ensures exists i :: 0 <= i < |more| && more[i].name == fs[l].name
    {
      if l < k {
        var i :| 0 <= i < |out| && out[i].name == fs[l].name;
        assert more[i].name == fs[l].name;
      } else {
        assert more[|out|].name == fs[l].name;
      }
    }
  }

  lemma ExposesAll(st: State<Hist>, withTimestamps: bool, fs: seq<Family<Hist>>, from: seq<nat>, out: seq<MetricFamily>)
    requires HistsIndexable(st) && ExposesSome(st, withTimestamps, fs, |fs|, from, out)
    requires Ascending(NameLess, fs) && forall n :: n in st.families ==> st.families[n].name == n && st.families[n] in fs
    ensures Exposes(st, withTimestamps, out)
  {
    hide ShowsFamily, HistsIndexable, StringLess;
    forall i, j | 0 <= i < j < |out|
      ensures FamilyLess(out[i], out[j])
    {
      assert NameLess(fs[from[i]], fs[from[j]]);
    }
  }

  /** A scrape. */
  method Gather(store: Cache.Store<Hist>, withTimestamps: bool) returns (out: seq<MetricFamily>)
    requires store.Valid() && HistsIndexable(store.View())
    ensures Exposes(store.View(), withTimestamps, out)
    ensures forall i :: 0 <= i < |out| ==>
      && out[i].name in store.families && |out[i].metrics| == |store.families[out[i].name].series|
      && SaysFamily(store.families[out[i].name], withTimestamps, out[i])
  {
    hide Indexable, ShowsSeries, DistinctLabels, NameLess, PoolAgrees, ExposesSome, Exposes, SaysFamily;
    ghost var st := store.View();
    var fs := SortedFamilies(store.families);
    out := [];
    ghost var from: seq<nat> := [];
    NothingExposed(st, withTimestamps, fs);
    for k := 0 to |fs|
      invariant ExposesSome(st, withTimestamps, fs, k, from, out)
    {
      var f := fs[k];
      assert f in fs;
      InvSeparatesLabels(store.hash, st, f.name);
      var metrics := FamilyMetrics(f, withTimestamps);
      if |metrics| > 0 {
        var mf := MetricFamily(f.name, f.help, FamilyType(f.kind), metrics);
        ExposesOneMore(st, withTimestamps, fs, k, from, out, mf);
        out := out + [mf];
        from := from + [k];
      } else {
        ExposesNoMore(st, withTimestamps, fs, k, from, out);
      }
    }
    ExposesAll(st, withTimestamps, fs, from, out);
    ExposedSizes(st, withTimestamps, fs, from, out);
    ExpositionSays(st, withTimestamps, out);
  }

  lemma NothingExposed(st: State<Hist>, withTimestamps: bool, fs: seq<Family<Hist>>)
    requires HistsIndexable(st)
    ensures ExposesSome(st, withTimestamps, fs, 0, [], [])
  {}

  lemma ExposesNoMore(st: State<Hist>, withTimestamps: bool, fs: seq<Family<Hist>>, k: nat, from: seq<nat>, out: seq<MetricFamily>)
    requires HistsIndexable(st) && k < |fs| && ExposesSome(st, withTimestamps, fs, k, from, out)
    requires fs[k].series == map[]
    ensures ExposesSome(st, withTimestamps, fs, k + 1, from, out)
  {
    hide ShowsFamily, HistsIndexable;
  }

  lemma ExposedSizes(st: State<Hist>, withTimestamps: bool, fs: seq<Family<Hist>>, from: seq<nat>, out: seq<MetricFamily>)
    requires HistsIndexable(st) && ExposesSome(st, withTimestamps, fs, |fs|, from, out)
    ensures forall i :: 0 <= i < |out| ==>
      out[i].name in st.families && |out[i].metrics| == |st.families[out[i].name].series|
  {
    hide ShowsSeries, HistsIndexable;
  }
}
