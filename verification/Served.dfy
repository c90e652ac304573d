/** What every scrape of a running proxy can rely on: each histogram it serves
    has a count for every bound, and is well formed if the distributions polled
    are consistent (internal/translate/hist.go, internal/export/gatherer.go). */
module Served {
  import opened Basics
  import opened Histograms
  import opened DeltaLog
  import opened TranslateSpec
  import opened PollManager
  import CacheSpec
  import CacheRuns
  import Counters
  import Staleness
  import Exposition

  type Hist = Option<HistValue>

  // -------------------------------------------- from samples to the whole store

  ghost predicate SamplesGood(good: Hist -> bool, samples: Counters.Samples)
  {
    forall s :: s in samples ==> good(s.hist)
  }

  ghost predicate StoreGood(good: Hist -> bool, store: StoreState)
  {
    forall n, h :: n in store.families && h in store.families[n].series ==> good(store.families[n].series[h].hist)
  }

  ghost predicate PendingGood(good: Hist -> bool, m: Manager)
  {
    forall w :: w in m.workers && m.workers[w].job.Translated? ==> SamplesGood(good, m.workers[w].job.upd.samples)
  }

  lemma ApplyKeepsGood(hash: Labels -> Hash, good: Hist -> bool, store: StoreState, metricType: string, upd: Update, maxSeries: int, now: Time)
    requires CacheSpec.Inv(hash, store) && StoreGood(good, store) && SamplesGood(good, upd.samples)
    ensures StoreGood(good, CacheSpec.Apply(hash, store, metricType, upd, maxSeries, now).0)
  {
    var store' := CacheSpec.Apply(hash, store, metricType, upd, maxSeries, now).0;
    hide CacheSpec.Inv;
    CacheRuns.ApplyAccounts(hash, store, metricType, upd, maxSeries, now);
    if !CacheSpec.Collides(store, metricType, upd.name) {
      forall h | h in store'.families[upd.name].series
        ensures good(store'.families[upd.name].series[h].hist)
      {
        var put := CacheSpec.Put(store, upd.name, CacheSpec.Opened(store, metricType, upd));
        CacheRuns.ApplySamplesEffect(hash, put, upd.name, upd.samples, maxSeries, now, h);
        Counters.LatestIsSample(hash, upd.samples, h);
      }
    }
  }

  /** The samples a step translates all carry good histograms. */
  ghost predicate TranslatesGood(hash: Labels -> Hash, good: Hist -> bool, m: Manager, a: Action)
    requires Enabled(m, a)
  {
    a.Translate? ==>
      var job := m.workers[a.w].job;
      SamplesGood(good, TranslateSpec.Translate(hash, m.accs, job.md, job.series, m.clock).samples)
  }

  lemma StepKeepsGood(hash: Labels -> Hash, good: Hist -> bool, m: Manager, a: Action)
    requires Enabled(m, a) && CacheSpec.Inv(hash, m.store)
    requires StoreGood(good, m.store) && PendingGood(good, m) && TranslatesGood(hash, good, m, a)
    ensures StoreGood(good, Do(hash, m, a).store) && PendingGood(good, Do(hash, m, a))
  {
    hide CacheSpec.Inv, CacheSpec.Apply, TranslateSpec.Translate, SweptType, SamplesGood;
    if a.Apply? {
      var job := m.workers[a.w].job;
      ApplyKeepsGood(hash, good, m.store, job.metricType, job.upd, m.workers[a.w].cfg.maxSeries, job.stamp.value);
    } else if a.SweepStore? {
      var swept := CacheRuns.Sweep(m.store, m.workers[a.w].job.cutoff);
      forall n, h | n in swept.families && h in swept.families[n].series
        ensures good(swept.families[n].series[h].hist)
      {
        assert swept.families[n].series[h] == m.store.families[n].series[h];
      }
    }
  }

  lemma {:induction false} GoodInRun(hash: Labels -> Hash, good: Hist -> bool, ms: seq<Manager>, acts: seq<Action>, i: nat)
    requires Run(hash, ms, acts) && ms[0] == INITIAL && i < |ms|
    requires forall x :: 0 <= x < i && Enabled(ms[x], acts[x]) ==> TranslatesGood(hash, good, ms[x], acts[x])
    ensures StoreGood(good, ms[i].store) && PendingGood(good, ms[i])
    decreases i
  {
    if i > 0 {
      hide Do, Enabled, StoreGood, PendingGood, TranslatesGood, CacheSpec.Inv;
      GoodInRun(hash, good, ms, acts, i - 1);
      Staleness.PoolAgreesInRun(hash, ms, acts, i - 1);
      RunStep(hash, ms, acts, i - 1);
      StepKeepsGood(hash, good, ms[i - 1], acts[i - 1]);
    }
  }

  // --------------------------------------------------------- a count per bound

  function CountPerBound(h: Hist): bool
  {
    h.Some? ==> |h.value.cumCounts| == |h.value.upperBounds|
  }

  lemma TranslatesCountPerBound(hash: Labels -> Hash, m: Manager, a: Action)
    requires Enabled(m, a)
    ensures TranslatesGood(hash, CountPerBound, m, a)
  {
    if a.Translate? {
      hide TranslateSpec.Translate;
      SamplesHaveCountPerBound(hash, m.accs, m.workers[a.w].job.md, m.workers[a.w].job.series, m.clock);
    }
  }

  /** In every reachable state a scrape never indexes past the counts of a
      histogram. */
  lemma ScrapesNeverOverrun(hash: Labels -> Hash, ms: seq<Manager>, acts: seq<Action>, i: nat)
    requires Run(hash, ms, acts) && ms[0] == INITIAL && i < |ms|
    ensures Exposition.HistsIndexable(ms[i].store)
    ensures StoreGood(CountPerBound, ms[i].store)
  {
    hide Do, Enabled;
    forall x | 0 <= x < i && Enabled(ms[x], acts[x])
      ensures TranslatesGood(hash, CountPerBound, ms[x], acts[x])
    {
      TranslatesCountPerBound(hash, ms[x], acts[x]);
    }
    GoodInRun(hash, CountPerBound, ms, acts, i);
  }

  // ----------------------------------------------------------- well-formedness

  /** The counts of a running histogram add up. */
  predicate Balanced(h: Option<HistAcc>)
  {
    h.Some? ==> ValidHistAcc(h.value) && PrefixSum(h.value.raw, |h.value.raw|) == h.value.count
  }

  lemma AddDistBalanced(h: Option<HistAcc>, d: Distribution)
    requires Balanced(h) && Consistent(d)
    ensures Balanced(Some(AddDist(h, d)))
  {
    ConsistentAddsUp(d);
    var bounds := Bounds(d.options).value;
    var base := if Restarts(h, bounds) then EmptyHist(bounds) else h.value;
    PrefixSumEmpty(bounds, |bounds| + 1);
    PrefixSumAdds(base.raw, RawCounts(d.bucketCounts, |bounds| + 1), |bounds| + 1);
  }

  lemma BalancedIsWellFormed(h: HistAcc)
    requires Balanced(Some(h))
    ensures WellFormed(Published(h))
  {
    CumulateIsWellFormed(h.raw, |h.bounds|, h.count);
  }

  ghost predicate ConsistentPoints(points: seq<Point>)
  {
    forall p :: p in points && DistValue(p).Some? ==> Consistent(DistValue(p).value)
  }

  lemma {:induction false} FoldDistBalanced(a: Acc, points: seq<Point>)
    requires ValidAcc(a) && Balanced(a.hist) && ConsistentPoints(points)
    ensures Balanced(FoldDist(a, points).0.hist)
    decreases points
  {
    if points != [] {
      var p, newer := points[|points| - 1], points[..|points| - 1];
      assert p in points;
      if p.end <= a.lastEnd {
        FoldDistBalanced(a, newer);
      } else if DistValue(p).Some? {
        hide Balanced, Consistent, AddDist;
        AddDistBalanced(a.hist, DistValue(p).value);
        FoldDistBalanced(AcceptDist(a, p.end, DistValue(p).value), newer);
      }
    }
  }

  ghost predicate AccsBalanced(accs: Accs)
  {
    forall k :: k in accs ==> Balanced(accs[k].hist)
  }

  ghost predicate ConsistentSeries(series: seq<TimeSeries>)
  {
    forall ts :: ts in series ==> ConsistentPoints(ts.points)
  }

  function HistWellFormed(h: Hist): bool
  {
    h.Some? ==> WellFormed(h.value)
  }

  lemma SeriesWellFormed(hash: Labels -> Hash, accs: Accs, md: MetricDescriptor, ts: TimeSeries, now: Time)
    requires AccsBalanced(accs) && ConsistentPoints(ts.points)
    ensures var out := SeriesOutcome(hash, accs, md, ts, now);
      AccsBalanced(out.accs) && (out.sample.Some? ==> HistWellFormed(out.sample.value.hist))
  {
    hide Balanced, Consistent, WellFormed, FoldScalar, FoldDist;
    if Considered(md, ts) {
      var k := DeltaKey(md.typ, hash(ts.labels));
      var a := Seen(accs, k, now);
      assert Balanced(a.hist) by {
        SeenBalanced(accs, k, now);
      }
      if IsDist(md, ts) {
        if IsDelta(md, ts) {
          FoldDistBalanced(a, ts.points);
          if FoldDist(a, ts.points).0.hist.Some? {
            BalancedIsWellFormed(FoldDist(a, ts.points).0.hist.value);
          }
        } else if DistValue(ts.points[0]).Some? {
          assert ts.points[0] in ts.points;
          ConsistentIsWellFormed(DistValue(ts.points[0]).value);
        }
      }
    }
  }

  lemma SeenBalanced(accs: Accs, k: DeltaKey, now: Time)
    requires AccsBalanced(accs)
    ensures Balanced(Seen(accs, k, now).hist)
  {}

  lemma {:induction false} TranslateWellFormed(hash: Labels -> Hash, accs: Accs, md: MetricDescriptor, series: seq<TimeSeries>, now: Time)
    requires AccsBalanced(accs) && ConsistentSeries(series)
    ensures var t := TranslateSpec.Translate(hash, accs, md, series, now);
      AccsBalanced(t.accs) && SamplesGood(HistWellFormed, t.samples)
  {
    if series != [] {
      var front, ts := series[..|series| - 1], series[|series| - 1];
      assert ts in series;
      TranslateWellFormed(hash, accs, md, front, now);
      hide SeriesOutcome, Balanced, ConsistentPoints, HistWellFormed;
      SeriesWellFormed(hash, TranslateSpec.Translate(hash, accs, md, front, now).accs, md, ts, now);
    }
  }

  ghost predicate PollsConsistent(m: Manager, a: Action)
    requires Enabled(m, a)
  {
    a.Translate? ==> ConsistentSeries(m.workers[a.w].job.series)
  }

  ghost predicate AlwaysConsistent(hash: Labels -> Hash, ms: seq<Manager>, acts: seq<Action>)
    requires Run(hash, ms, acts)
  {
    forall i :: 0 <= i < |acts| && Enabled(ms[i], acts[i]) ==> PollsConsistent(ms[i], acts[i])
  }

  lemma StepKeepsBalance(hash: Labels -> Hash, m: Manager, a: Action)
    requires Enabled(m, a) && PollsConsistent(m, a) && AccsBalanced(m.accs)
    ensures AccsBalanced(Do(hash, m, a).accs) && TranslatesGood(hash, HistWellFormed, m, a)
  {
    if a.Translate? {
      hide TranslateSpec.Translate, Balanced;
      TranslateWellFormed(hash, m.accs, m.workers[a.w].job.md, m.workers[a.w].job.series, m.clock);
    }
  }

  lemma {:induction false} BalancedInRun(hash: Labels -> Hash, ms: seq<Manager>, acts: seq<Action>, i: nat)
    requires Run(hash, ms, acts) && ms[0] == INITIAL && i < |ms| && AlwaysConsistent(hash, ms, acts)
    ensures AccsBalanced(ms[i].accs)
    ensures i < |acts| ==> Enabled(ms[i], acts[i]) && TranslatesGood(hash, HistWellFormed, ms[i], acts[i])
  {
    hide Do, Enabled, PollsConsistent, TranslatesGood, Balanced;
    if i > 0 {
      BalancedInRun(hash, ms, acts, i - 1);
      RunStep(hash, ms, acts, i - 1);
      StepKeepsBalance(hash, ms[i - 1], acts[i - 1]);
    }
    if i < |acts| {
      RunStep(hash, ms, acts, i);
      StepKeepsBalance(hash, ms[i], acts[i]);
    }
  }

  /** If all distributions polled are consistent, every histogram served is
      well formed: one count per bound, never falling, at most the total. */
  lemma ServedHistogramsAreWellFormed(hash: Labels -> Hash, ms: seq<Manager>, acts: seq<Action>, i: nat)
    requires Run(hash, ms, acts) && ms[0] == INITIAL && i < |ms| && AlwaysConsistent(hash, ms, acts)
    ensures forall n, h :: n in ms[i].store.families && h in ms[i].store.families[n].series && ms[i].store.families[n].series[h].hist.Some? ==>
      WellFormed(ms[i].store.families[n].series[h].hist.value)
  {
    hide Do, Enabled, WellFormed, AlwaysConsistent, TranslatesGood;
    forall x | 0 <= x < i && Enabled(ms[x], acts[x])
      ensures TranslatesGood(hash, HistWellFormed, ms[x], acts[x])
    {
      BalancedInRun(hash, ms, acts, x);
    }
    GoodInRun(hash, HistWellFormed, ms, acts, i);
  }
}
