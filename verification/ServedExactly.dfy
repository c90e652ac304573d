/** What a scrape shows after a commit is exactly what the service has shown so
    far: from the accumulator, under the mutex, into the cache
    (internal/poll/manager.go and internal/cache). */
module ServedExactly {
  import opened Basics
  import opened Histograms
  import opened DeltaLog
  import opened TranslateSpec
  import opened PollManager
  import opened Counters
  import opened Staleness
  import opened Pipeline
  import CacheSpec
  import CacheRuns
  import GapFree
  import Overlap

  /** A value or histogram is what an accumulator holds. */
  ghost predicate Exact(kind: Payload, value: real, hist: Option<HistValue>, a: Acc)
    requires ValidAcc(a)
  {
    match kind
    case Scalar => value == a.sum
    case Dist => a.hist.Some? && hist == Some(Published(a.hist.value))
  }

  ghost predicate SamplesExact(hash: Labels -> Hash, kind: Payload, k: DeltaKey, samples: Samples, accs: Accs)
  {
    forall s :: s in samples && hash(s.labels) == k.labelsHash ==> Exact(kind, s.value, s.hist, AccOf(accs, k))
  }

  /** While the mutex is held an update waiting to be applied shows exactly what
      the accumulator holds. */
  ghost predicate PendingExact(hash: Labels -> Hash, kind: Payload, m: Manager, k: DeltaKey)
  {
    forall w :: Pending(m, w, k.metricType) ==> SamplesExact(hash, kind, k, m.workers[w].job.upd.samples, m.accs)
  }

  lemma SeriesIsExact(hash: Labels -> Hash, kind: Payload, k: DeltaKey, accs: Accs, md: MetricDescriptor, ts: TimeSeries, now: Time)
    requires Concerns(hash, k, md, ts) && IsDelta(md, ts) && (IsDist(md, ts) <==> kind.Dist?)
    ensures var out := SeriesOutcome(hash, accs, md, ts, now);
      out.sample.Some? ==> Exact(kind, out.sample.value.value, out.sample.value.hist, AccOf(out.accs, k))
  {
    hide FoldScalar, FoldDist, Published;
  }

  lemma FrontIsUnconcerned(hash: Labels -> Hash, k: DeltaKey, md: MetricDescriptor, series: seq<TimeSeries>, points: seq<Point>, i: nat)
    requires i < |series| && ListsAt(hash, k, md, series, points, i)
    ensures forall ts :: ts in series[..i] ==> !Concerns(hash, k, md, ts)
  {
    hide Concerns;
  }

  /** A response that shows the key once yields its accumulator as the sample. */
  lemma {:induction false} OneIsExact(hash: Labels -> Hash, kind: Payload, k: DeltaKey, accs: Accs, md: MetricDescriptor, series: seq<TimeSeries>, points: seq<Point>, i: nat, now: Time)
    requires md.typ == k.metricType && i < |series| && ListsAt(hash, k, md, series, points, i)
    requires IsDist(md, series[i]) <==> kind.Dist?
    ensures var t := TranslateSpec.Translate(hash, accs, md, series, now); SamplesExact(hash, kind, k, t.samples, t.accs)
  {
    var n := |series| - 1;
    var front, ts := series[..n], series[n];
    var before := TranslateSpec.Translate(hash, accs, md, front, now);
    SampleOfSeries(hash, before.accs, md, ts, now);
    if i == n {
      FrontIsUnconcerned(hash, k, md, series, points, n);
      NothingSampled(hash, k, accs, md, front, now);
      SeriesIsExact(hash, kind, k, before.accs, md, ts, now);
    } else {
      OneIsExact(hash, kind, k, accs, md, front, points, i, now);
      SeriesCommits(hash, before.accs, md, ts, now, k);
    }
    hide Exact, SeriesOutcome;
  }

  lemma TranslatesExactly(hash: Labels -> Hash, kind: Payload, k: DeltaKey, accs: Accs, md: MetricDescriptor, series: seq<TimeSeries>, points: seq<Point>, now: Time)
    requires md.typ == k.metricType && Lists(hash, k, md, series, points) && OfKind(hash, kind, k, md, series)
    ensures var t := TranslateSpec.Translate(hash, accs, md, series, now); SamplesExact(hash, kind, k, t.samples, t.accs)
  {
    if points == [] {
      NothingSampled(hash, k, accs, md, series, now);
    } else {
      var i :| 0 <= i < |series| && ListsAt(hash, k, md, series, points, i);
      assert series[i] in series;
      OneIsExact(hash, kind, k, accs, md, series, points, i, now);
    }
  }

  /** A response for another metric type leaves the accumulator as it is. */
  lemma {:induction false} OtherTypeKeeps(hash: Labels -> Hash, k: DeltaKey, accs: Accs, md: MetricDescriptor, series: seq<TimeSeries>, now: Time)
    requires md.typ != k.metricType
    ensures AccOf(TranslateSpec.Translate(hash, accs, md, series, now).accs, k) == AccOf(accs, k)
  {
    if series != [] {
      var front, ts := series[..|series| - 1], series[|series| - 1];
      OtherTypeKeeps(hash, k, accs, md, front, now);
      SeriesCommits(hash, TranslateSpec.Translate(hash, accs, md, front, now).accs, md, ts, now, k);
    }
  }

  /** Nothing new waits, and the accumulator stays while something does. */
  lemma WaitsAsBefore(hash: Labels -> Hash, kind: Payload, m: Manager, m': Manager, k: DeltaKey)
    requires PendingExact(hash, kind, m, k) && LessPending(m, m', k.metricType)
    requires (exists w :: Pending(m', w, k.metricType)) ==> AccOf(m'.accs, k) == AccOf(m.accs, k)
    ensures PendingExact(hash, kind, m', k)
  {
    hide Exact;
  }

  lemma TranslateKeepsExact(hash: Labels -> Hash, kind: Payload, m: Manager, w: WorkerId, k: DeltaKey, src: Source)
    requires Enabled(m, Action.Translate(w)) && InFlight(hash, m, k, src) && PendingExact(hash, kind, m, k)
    requires OfKind(hash, kind, k, m.workers[w].job.md, m.workers[w].job.series)
    ensures PendingExact(hash, kind, Do(hash, m, Action.Translate(w)), k)
  {
    var job := m.workers[w].job;
    hide TranslateSpec.Translate, Exact, Lists, Answer, OfKind;
    if job.md.typ == k.metricType {
      TranslatesExactly(hash, kind, k, m.accs, job.md, job.series, Answer(src, job.at, job.served), m.clock);
      OnlyPending(hash, m, w, k);
    } else {
      OtherTypeKeeps(hash, k, m.accs, job.md, job.series, m.clock);
      WaitsAsBefore(hash, kind, m, Do(hash, m, Action.Translate(w)), k);
    }
  }

  lemma StepKeepsExact(hash: Labels -> Hash, kind: Payload, m: Manager, a: Action, k: DeltaKey)
    requires Enabled(m, a) && !a.Translate? && PendingExact(hash, kind, m, k)
    ensures PendingExact(hash, kind, Do(hash, m, a), k)
  {
    hide Exact, SamplesExact, Applied, CacheRuns.Sweep, PendingExact;
    var m' := Do(hash, m, a);
    if a.SweepType? {
      assert forall v :: Pending(m', v, k.metricType) ==> Pending(m, v, k.metricType);
      if a.metricType != k.metricType {
        assert AccOf(m'.accs, k) == AccOf(m.accs, k);
      } else {
        assert forall v :: !Pending(m, v, k.metricType);
      }
    }
    WaitsAsBefore(hash, kind, m, m', k);
  }

  lemma {:induction false} PendingExactInRun(hash: Labels -> Hash, ms: seq<Manager>, acts: seq<Action>, k: DeltaKey, src: Source, i: nat)
    requires Run(hash, ms, acts) && ms[0] == INITIAL && i < |ms|
    requires AlwaysOfKind(hash, ms, acts, src.kind, k) && AlwaysAnswered(hash, ms, acts, k, src)
    ensures PendingExact(hash, src.kind, ms[i], k)
  {
    if i > 0 {
      PendingExactInRun(hash, ms, acts, k, src, i - 1);
      RunStep(hash, ms, acts, i - 1);
      InFlightInRun(hash, ms, acts, k, src, i - 1);
      hide PendingExact, InFlight, Do, Enabled, AlwaysAnswered;
      if acts[i - 1].Translate? {
        TranslateKeepsExact(hash, src.kind, ms[i - 1], acts[i - 1].w, k, src);
      } else {
        StepKeepsExact(hash, src.kind, ms[i - 1], acts[i - 1], k);
      }
    }
  }

  /** An accepted update with a sample for the series shows one of its samples. */
  lemma RefreshShows(hash: Labels -> Hash, m: Manager, a: Action, n: string, k: DeltaKey)
    requires Enabled(m, a) && CacheSpec.Inv(hash, m.store) && Refreshes(hash, m, a, n, k)
    requires Shows(Do(hash, m, a).store, n, k)
    ensures var sr := Do(hash, m, a).store.families[n].series[k.labelsHash];
      exists s :: s in m.workers[a.w].job.upd.samples && hash(s.labels) == k.labelsHash && sr.value == s.value && sr.hist == s.hist
  {
    var job := m.workers[a.w].job;
    var s :| s in job.upd.samples && hash(s.labels) == k.labelsHash;
    LatestExists(hash, job.upd.samples, s);
    LatestIsSample(hash, job.upd.samples, k.labelsHash);
    AppliedShowsLatest(hash, m.store, job.metricType, job.upd, m.workers[a.w].cfg.maxSeries, job.stamp.value, k);
    hide CacheSpec.Inv, CacheSpec.Apply;
  }

  lemma AppliedShowsLatest(hash: Labels -> Hash, store: StoreState, metricType: string, upd: Update, maxSeries: int, now: Time, k: DeltaKey)
    requires CacheSpec.Inv(hash, store) && metricType == k.metricType && CacheRuns.Latest(hash, upd.samples, k.labelsHash).Some?
    requires Shows(CacheSpec.Apply(hash, store, metricType, upd, maxSeries, now).0, upd.name, k)
    ensures var sr := CacheSpec.Apply(hash, store, metricType, upd, maxSeries, now).0.families[upd.name].series[k.labelsHash];
      CacheRuns.SeriesShows(sr, CacheRuns.Latest(hash, upd.samples, k.labelsHash).value, now)
  {
    hide CacheSpec.Inv;
    CacheRuns.ApplyAccounts(hash, store, metricType, upd, maxSeries, now);
    var put := CacheSpec.Put(store, upd.name, CacheSpec.Opened(store, metricType, upd));
    CacheRuns.ApplySamplesEffect(hash, put, upd.name, upd.samples, maxSeries, now, k.labelsHash);
  }

  /** Once an update for the series is applied and the series is served, what is
      served is exactly what the accumulator holds. */
  lemma ServedIsHeld(hash: Labels -> Hash, ms: seq<Manager>, acts: seq<Action>, k: DeltaKey, src: Source, n: string, i: nat)
    requires Run(hash, ms, acts) && ms[0] == INITIAL && i < |acts| && Enabled(ms[i], acts[i])
    requires AlwaysOfKind(hash, ms, acts, src.kind, k) && AlwaysAnswered(hash, ms, acts, k, src)
    requires Refreshes(hash, ms[i], acts[i], n, k) && Shows(ms[i + 1].store, n, k)
    ensures var sr := ms[i + 1].store.families[n].series[k.labelsHash];
      Exact(src.kind, sr.value, sr.hist, AccOf(ms[i + 1].accs, k))
  {
    RunStep(hash, ms, acts, i);
    PoolAgreesInRun(hash, ms, acts, i);
    PendingExactInRun(hash, ms, acts, k, src, i);
    RefreshShows(hash, ms[i], acts[i], n, k);
    ApplyKeepsAccs(hash, ms[i], acts[i], n, k);
    hide Do, Enabled, Exact, Run, AlwaysOfKind, AlwaysAnswered, CacheSpec.Inv;
  }

  lemma ApplyKeepsAccs(hash: Labels -> Hash, m: Manager, a: Action, n: string, k: DeltaKey)
    requires Enabled(m, a) && Refreshes(hash, m, a, n, k)
    ensures Do(hash, m, a).accs == m.accs && Pending(m, a.w, k.metricType)
  {
    hide Applied;
  }

  /** From the service to the scrape: when an update for the series has been
      applied, what is served is the total, or the histogram published from the
      replay, of a log that has exactly the points visible to the query that
      sees most, each once, under the schedule of PipelineIsGapFree. */
  lemma ServedIsExact(hash: Labels -> Hash, ms: seq<Manager>, acts: seq<Action>, k: DeltaKey, src: Source, n: string, i: nat)
      returns (best: GapFree.Query, log: seq<Point>)
    requires Run(hash, ms, acts) && ms[0] == INITIAL && i + 1 < |ms| && ValidSource(src)
    requires AlwaysOfKind(hash, ms, acts, src.kind, k) && AlwaysAnswered(hash, ms, acts, k, src)
    requires var queries := QueriesSince(hash, ms, acts, k, i + 1);
      queries != [] && Overlap.OverlapSchedule(queries, Gap(src))
    requires Enabled(ms[i], acts[i]) && Refreshes(hash, ms[i], acts[i], n, k) && Shows(ms[i + 1].store, n, k)
    ensures CountedExactly(src, QueriesSince(hash, ms, acts, k, i + 1), best, log)
    ensures var sr := ms[i + 1].store.families[n].series[k.labelsHash];
      if src.kind.Scalar? then sr.value == Total(log)
      else Replay(log).Some? && sr.hist == Some(Published(Replay(log).value))
  {
    ServedIsHeld(hash, ms, acts, k, src, n, i);
    hide Run, AlwaysOfKind, AlwaysAnswered, QueriesSince, CountedExactly, Refreshes, Published, Total, Replay;
    best, log := PipelineIsGapFree(hash, ms, acts, k, src, i + 1);
  }
}
