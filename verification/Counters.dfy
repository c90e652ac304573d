/** What is served of a DELTA series, be it a counter or the counts of a
    histogram, never goes down, whatever the order in which overlapping polls
    commit, unless a sweep drops its accumulator while the series stays cached
    (internal/poll/manager.go). */
module Counters {
  import opened Basics
  import opened Histograms
  import opened DeltaLog
  import opened TranslateSpec
  import opened PollManager
  import CacheSpec
  import CacheRuns

  type Samples = seq<Sample<Option<HistValue>>>

  function SumOf(accs: Accs, k: DeltaKey): real
  {
    AccOf(accs, k).sum
  }

  /** What is served of a DELTA series and must not fall: the sum of a scalar,
      or, for distributions of one bucket layout, the count or the cumulative
      count at a bound. */
  datatype Measure =
    | Sum
    | Count(bounds: seq<real>)
    | UpTo(bounds: seq<real>, bound: nat)

  function Level(mu: Measure, value: real, hist: Option<HistValue>): real
  {
    match mu
    case Sum => value
    case Count(_) => if hist.Some? then hist.value.count as real else 0.0
    case UpTo(_, i) => if hist.Some? && i < |hist.value.cumCounts| then hist.value.cumCounts[i] as real else 0.0
  }

  function SampleLevel(mu: Measure, s: Sample<Option<HistValue>>): real
  {
    Level(mu, s.value, s.hist)
  }

  /** What an accumulator holds, as it would be published. */
  function AccLevel(mu: Measure, a: Acc): real
    requires ValidAcc(a)
  {
    Level(mu, a.sum, if a.hist.Some? then Some(Published(a.hist.value)) else None)
  }

  function Held(mu: Measure, accs: Accs, k: DeltaKey): real
  {
    AccLevel(mu, AccOf(accs, k))
  }

  /** A histogram has the layout measured. */
  predicate Settled(mu: Measure, hist: Option<HistAcc>)
  {
    mu.Sum? || hist.None? || hist.value.bounds == mu.bounds
  }

  /** A series of a response that reads or writes the accumulator or the cached
      value of a key. */
  predicate Concerns(hash: Labels -> Hash, k: DeltaKey, md: MetricDescriptor, ts: TimeSeries)
  {
    DeltaKey(md.typ, hash(ts.labels)) == k && Considered(md, ts)
  }

  /** A point that cannot lower the measure: an increment that is not negative,
      or a distribution of the layout. */
  predicate Raises(mu: Measure, p: Point)
  {
    if mu.Sum? then ScalarValue(p).Some? ==> ScalarValue(p).value >= 0.0
    else DistValue(p).Some? ==> Bounds(DistValue(p).value.options) == Some(mu.bounds)
  }

  /** Wherever a response concerns the key, it is a DELTA of the payload measured
      whose points do not lower the measure. */
  ghost predicate RaisingDelta(hash: Labels -> Hash, mu: Measure, k: DeltaKey, md: MetricDescriptor, series: seq<TimeSeries>)
  {
    forall ts :: ts in series && Concerns(hash, k, md, ts) ==>
      && IsDelta(md, ts) && (IsDist(md, ts) <==> !mu.Sum?)
      && forall p :: p in ts.points ==> Raises(mu, p)
  }

  /** One distribution more. */
  lemma AcceptRaises(mu: Measure, a: Acc, p: Point)
    requires ValidAcc(a) && !mu.Sum? && Settled(mu, a.hist) && DistValue(p).Some? && Raises(mu, p)
    ensures var b := AcceptDist(a, p.end, DistValue(p).value);
      Settled(mu, b.hist) && b.hist.Some? && AccLevel(mu, b) >= AccLevel(mu, a)
  {
    AddDistPublishes(a.hist, p);
    hide Bounds, RawCounts, AddRaw, Cumulate, DistValue, ToHistogram;
  }

  lemma {:induction false} FoldDistRaises(mu: Measure, a: Acc, points: seq<Point>)
    requires ValidAcc(a) && !mu.Sum? && Settled(mu, a.hist) && forall p :: p in points ==> Raises(mu, p)
    ensures var b := FoldDist(a, points).0;
      Settled(mu, b.hist) && AccLevel(mu, b) >= AccLevel(mu, a)
    decreases points
  {
    if points != [] {
      var p, newer := points[|points| - 1], points[..|points| - 1];
      assert p in points;
      if p.end <= a.lastEnd {
        FoldDistRaises(mu, a, newer);
      } else if DistValue(p).Some? {
        AcceptRaises(mu, a, p);
        FoldDistRaises(mu, AcceptDist(a, p.end, DistValue(p).value), newer);
      }
    }
  }

  /** Committing a response does not lower the measure. */
  lemma CommitRaises(mu: Measure, a: Acc, poll: Poll)
    requires ValidAcc(a) && Settled(mu, a.hist) && forall p :: p in poll.points ==> Raises(mu, p)
    ensures var b := Commit(if mu.Sum? then Scalar else Dist, a, poll);
      Settled(mu, b.hist) && AccLevel(mu, b) >= AccLevel(mu, a)
  {
    hide FoldDist, FoldScalar, Published;
    if poll.points != [] {
      var seen := a.(lastSeen := poll.now);
      if mu.Sum? {
        assert forall p :: p in poll.points ==> Raises(mu, p);
        NonNegativeNeverFalls(seen, poll.points);
      } else {
        FoldDistRaises(mu, seen, poll.points);
      }
    }
  }

  /** The samples for a key show sums between what its accumulator held in
      `before` and what it holds in `after`. */
  ghost predicate Between(hash: Labels -> Hash, mu: Measure, k: DeltaKey, before: Accs, samples: Samples, after: Accs)
  {
    forall s :: s in samples && hash(s.labels) == k.labelsHash ==>
      k in after && Held(mu, before, k) <= SampleLevel(mu, s) <= Held(mu, after, k)
  }

  ghost predicate Grows(mu: Measure, before: Accs, after: Accs, k: DeltaKey)
  {
    (k in before ==> k in after) && Held(mu, before, k) <= Held(mu, after, k) && Settled(mu, AccOf(after, k).hist)
  }

  lemma SeriesGrows(hash: Labels -> Hash, mu: Measure, k: DeltaKey, accs: Accs, md: MetricDescriptor, ts: TimeSeries, now: Time)
    requires RaisingDelta(hash, mu, k, md, [ts]) && Settled(mu, AccOf(accs, k).hist)
    ensures var out := SeriesOutcome(hash, accs, md, ts, now);
      && Grows(mu, accs, out.accs, k)
      && (out.sample.Some? ==> out.sample.value.labels == ts.labels)
      && (out.sample.Some? && DeltaKey(md.typ, hash(ts.labels)) == k ==> k in out.accs && SampleLevel(mu, out.sample.value) == Held(mu, out.accs, k))
  {
    assert ts in [ts];
    SeriesCommits(hash, accs, md, ts, now, k);
    if Concerns(hash, k, md, ts) {
      CommitRaises(mu, AccOf(accs, k), Poll(now, ts.points));
    }
  }

  lemma {:induction false} TranslateGrows(hash: Labels -> Hash, mu: Measure, k: DeltaKey, accs: Accs, md: MetricDescriptor, series: seq<TimeSeries>, now: Time)
    requires RaisingDelta(hash, mu, k, md, series) && Settled(mu, AccOf(accs, k).hist)
    ensures var t := TranslateSpec.Translate(hash, accs, md, series, now);
      Grows(mu, accs, t.accs, k) && (md.typ == k.metricType ==> Between(hash, mu, k, accs, t.samples, t.accs))
  {
    if series != [] {
      var front, ts := series[..|series| - 1], series[|series| - 1];
      assert ts in series;
      TranslateGrows(hash, mu, k, accs, md, front, now);
      SeriesGrows(hash, mu, k, TranslateSpec.Translate(hash, accs, md, front, now).accs, md, ts, now);
    }
  }

  // ----------------------------------------------------------- the invariant

  /** A family of the metric type has a series for the key. */
  predicate Shows(store: StoreState, n: string, k: DeltaKey)
  {
    n in store.families && store.families[n].metricType == k.metricType && k.labelsHash in store.families[n].series
  }

  function Value(mu: Measure, store: StoreState, n: string, k: DeltaKey): real
    requires Shows(store, n, k)
  {
    var sr := store.families[n].series[k.labelsHash];
    Level(mu, sr.value, sr.hist)
  }

  ghost predicate Shown(store: StoreState, k: DeltaKey)
  {
    exists n :: Shows(store, n, k)
  }

  predicate Pending(m: Manager, w: WorkerId, metricType: string)
  {
    w in m.workers && m.workers[w].job.Translated? && m.workers[w].job.metricType == metricType
  }

  /** At most one worker is between translating and applying a metric type. */
  ghost predicate Mutex(m: Manager, metricType: string)
  {
    forall v, w :: Pending(m, v, metricType) && Pending(m, w, metricType) ==> v == w
  }

  /** An update waiting to be applied shows what its accumulator holds or held. */
  ghost predicate PendingSound(hash: Labels -> Hash, mu: Measure, m: Manager, k: DeltaKey)
  {
    forall w, s :: Pending(m, w, k.metricType) && s in m.workers[w].job.upd.samples && hash(s.labels) == k.labelsHash ==>
      k in m.accs && 0.0 <= SampleLevel(mu, s) <= Held(mu, m.accs, k)
  }

  /** What holds of the key whatever is swept. */
  ghost predicate Sound(hash: Labels -> Hash, mu: Measure, m: Manager, k: DeltaKey)
  {
    && CacheSpec.Inv(hash, m.store)
    && Mutex(m, k.metricType) && PendingSound(hash, mu, m, k)
    && Held(mu, m.accs, k) >= 0.0 && Settled(mu, AccOf(m.accs, k).hist)
    && forall n :: Shows(m.store, n, k) ==> Value(mu, m.store, n, k) >= 0.0
  }

  /** No family of the metric type shows more for the key than its accumulator
      holds. */
  ghost predicate CacheBelow(mu: Measure, m: Manager, k: DeltaKey)
  {
    forall n :: Shows(m.store, n, k) ==> k in m.accs && Value(mu, m.store, n, k) <= Held(mu, m.accs, k)
  }

  /** An update waiting to be applied shows at least what is cached. */
  ghost predicate PendingAbove(hash: Labels -> Hash, mu: Measure, m: Manager, k: DeltaKey)
  {
    forall w, s, n ::
      (Pending(m, w, k.metricType) && s in m.workers[w].job.upd.samples && hash(s.labels) == k.labelsHash && Shows(m.store, n, k)) ==>
        Value(mu, m.store, n, k) <= SampleLevel(mu, s)
  }

  ghost predicate Safe(hash: Labels -> Hash, mu: Measure, m: Manager, k: DeltaKey)
  {
    Sound(hash, mu, m, k) && CacheBelow(mu, m, k) && PendingAbove(hash, mu, m, k)
  }

  /** The series is only ever polled as a DELTA that does not lower the measure:
      a scalar without negative increments, or distributions of one layout. */
  ghost predicate PolledAsCounter(hash: Labels -> Hash, mu: Measure, m: Manager, a: Action, k: DeltaKey)
    requires Enabled(m, a)
  {
    a.Translate? ==> RaisingDelta(hash, mu, k, m.workers[a.w].job.md, m.workers[a.w].job.series)
  }

  /** This step does not drop the accumulator of a key that is still cached. */
  ghost predicate SkewFree(m: Manager, a: Action, k: DeltaKey)
    requires Enabled(m, a)
  {
    a.SweepType? && a.metricType == k.metricType && Shown(m.store, k) ==>
      AccOf(m.accs, k).lastSeen >= m.workers[a.w].job.cutoff
  }

  /** No value shown for the key falls at this step. */
  ghost predicate NoneFalls(mu: Measure, m: Manager, m': Manager, k: DeltaKey)
  {
    forall n :: Shows(m.store, n, k) && Shows(m'.store, n, k) ==> Value(mu, m.store, n, k) <= Value(mu, m'.store, n, k)
  }

  /** Nothing new waits to be applied. */
  ghost predicate LessPending(m: Manager, m': Manager, metricType: string)
  {
    forall v :: Pending(m', v, metricType) ==> Pending(m, v, metricType) && m'.workers[v].job.upd == m.workers[v].job.upd
  }

  /** Nothing new is cached for the key. */
  ghost predicate NoneNew(mu: Measure, store: StoreState, store': StoreState, k: DeltaKey)
  {
    forall n :: Shows(store', n, k) ==> Shows(store, n, k) && Value(mu, store', n, k) == Value(mu, store, n, k)
  }

  lemma PendingKeeps(hash: Labels -> Hash, mu: Measure, m: Manager, m': Manager, k: DeltaKey)
    requires LessPending(m, m', k.metricType) && Grows(mu, m.accs, m'.accs, k)
    requires Mutex(m, k.metricType) && PendingSound(hash, mu, m, k)
    ensures Mutex(m', k.metricType) && PendingSound(hash, mu, m', k)
  {
    hide Held, SampleLevel, Settled;
  }

  /** With nothing new waiting or cached the invariant stays as long as the
      accumulator does not shrink. */
  lemma NothingNewKeeps(hash: Labels -> Hash, mu: Measure, m: Manager, m': Manager, k: DeltaKey)
    requires Sound(hash, mu, m, k) && CacheSpec.Inv(hash, m'.store)
    requires LessPending(m, m', k.metricType) && NoneNew(mu, m.store, m'.store, k) && Grows(mu, m.accs, m'.accs, k)
    ensures Sound(hash, mu, m', k) && (Safe(hash, mu, m, k) ==> Safe(hash, mu, m', k) && NoneFalls(mu, m, m', k))
  {
    PendingKeeps(hash, mu, m, m', k);
    hide CacheSpec.Inv, Held, SampleLevel, Settled, Value, PendingSound, Mutex;
  }

  lemma TranslateKeeps(hash: Labels -> Hash, mu: Measure, m: Manager, w: WorkerId, k: DeltaKey)
    requires Sound(hash, mu, m, k) && Enabled(m, Action.Translate(w)) && PolledAsCounter(hash, mu, m, Action.Translate(w), k)
    ensures var m' := Do(hash, m, Action.Translate(w));
      Sound(hash, mu, m', k) && (Safe(hash, mu, m, k) ==> Safe(hash, mu, m', k))
  {
    var job := m.workers[w].job;
    var m' := Do(hash, m, Action.Translate(w));
    hide CacheSpec.Inv, TranslateSpec.Translate, Held, SampleLevel, Value, Settled;
    TranslateGrows(hash, mu, k, m.accs, job.md, job.series, m.clock);
    if job.md.typ == k.metricType {
      OwnTranslateKeeps(hash, mu, m, w, k);
    } else {
      NothingNewKeeps(hash, mu, m, m', k);
    }
  }

  lemma OwnTranslateKeeps(hash: Labels -> Hash, mu: Measure, m: Manager, w: WorkerId, k: DeltaKey)
    requires Sound(hash, mu, m, k) && Enabled(m, Action.Translate(w)) && m.workers[w].job.md.typ == k.metricType
    requires var job := m.workers[w].job;
      var t := TranslateSpec.Translate(hash, m.accs, job.md, job.series, m.clock);
      Grows(mu, m.accs, t.accs, k) && Between(hash, mu, k, m.accs, t.samples, t.accs)
    ensures var m' := Do(hash, m, Action.Translate(w));
      Sound(hash, mu, m', k) && (Safe(hash, mu, m, k) ==> Safe(hash, mu, m', k))
  {
    var job := m.workers[w].job;
    var t := TranslateSpec.Translate(hash, m.accs, job.md, job.series, m.clock);
    var m' := Do(hash, m, Action.Translate(w));
    OnlyPending(hash, m, w, k);
    hide *;
    NewlyPendingKeeps(hash, mu, m, m', w, t, k);
  }

  lemma OnlyPending(hash: Labels -> Hash, m: Manager, w: WorkerId, k: DeltaKey)
    requires Enabled(m, Action.Translate(w)) && m.workers[w].job.md.typ == k.metricType
    ensures var m' := Do(hash, m, Action.Translate(w));
      var job := m.workers[w].job;
      var t := TranslateSpec.Translate(hash, m.accs, job.md, job.series, m.clock);
      && (forall v :: Pending(m', v, k.metricType) ==> v == w && m'.workers[v].job.upd.samples == t.samples)
      && m'.accs == t.accs && m'.store == m.store
  {
    hide TranslateSpec.Translate;
    assert forall v :: !Pending(m, v, k.metricType);
  }

  lemma NewlyPendingKeeps(hash: Labels -> Hash, mu: Measure, m: Manager, m': Manager, w: WorkerId, t: Translation, k: DeltaKey)
    requires Sound(hash, mu, m, k) && m'.accs == t.accs && m'.store == m.store
    requires Grows(mu, m.accs, t.accs, k) && Between(hash, mu, k, m.accs, t.samples, t.accs)
    requires forall v :: Pending(m', v, k.metricType) ==> v == w && m'.workers[v].job.upd.samples == t.samples
    ensures Sound(hash, mu, m', k) && (Safe(hash, mu, m, k) ==> Safe(hash, mu, m', k))
  {
    hide CacheSpec.Inv, Held, SampleLevel, Value, Settled;
  }

  lemma {:induction false} LatestIsSample<H>(hash: Labels -> Hash, samples: seq<Sample<H>>, h: Hash)
    ensures var l := CacheRuns.Latest(hash, samples, h);
      l.Some? ==> l.value in samples && hash(l.value.labels) == h
  {
    if samples != [] {
      LatestIsSample(hash, samples[..|samples| - 1], h);
    }
  }

  /** What applying an update leaves of a key: nothing new except, in the
      family of an accepted update, its last sample. */
  lemma ApplyShows(hash: Labels -> Hash, store: StoreState, metricType: string, upd: Update, maxSeries: int, now: Time, n: string, k: DeltaKey)
    requires CacheSpec.Inv(hash, store)
    ensures var store' := CacheSpec.Apply(hash, store, metricType, upd, maxSeries, now).0;
      && CacheSpec.Inv(hash, store')
      && (Shows(store, n, k) ==> Shows(store', n, k))
      && (Shows(store', n, k) ==>
        || (Shows(store, n, k) && store'.families[n].series[k.labelsHash] == store.families[n].series[k.labelsHash])
        || (metricType == k.metricType && n == upd.name && store'.families[n].series[k.labelsHash].lastSeen == now
            && exists s :: s in upd.samples && hash(s.labels) == k.labelsHash && store'.families[n].series[k.labelsHash].value == s.value
                && store'.families[n].series[k.labelsHash].hist == s.hist))
  {
    hide CacheSpec.Inv;
    CacheRuns.ApplyAccounts(hash, store, metricType, upd, maxSeries, now);
    if n == upd.name && !CacheSpec.Collides(store, metricType, n) {
      var put := CacheSpec.Put(store, n, CacheSpec.Opened(store, metricType, upd));
      CacheRuns.ApplySamplesEffect(hash, put, n, upd.samples, maxSeries, now, k.labelsHash);
      LatestIsSample(hash, upd.samples, k.labelsHash);
      OwnerOfApplied(hash, store, metricType, upd, maxSeries, now);
    }
  }

  lemma OwnerOfApplied(hash: Labels -> Hash, store: StoreState, metricType: string, upd: Update, maxSeries: int, now: Time)
    requires CacheSpec.Inv(hash, store) && !CacheSpec.Collides(store, metricType, upd.name)
    ensures CacheSpec.Apply(hash, store, metricType, upd, maxSeries, now).0.families[upd.name].metricType == metricType
  {
    hide CacheSpec.Inv;
    var f := CacheSpec.Opened(store, metricType, upd);
    CacheSpec.PutKeepsInv(hash, store, upd.name, f);
    CacheSpec.ApplySamplesAccount(hash, CacheSpec.Put(store, upd.name, f), upd.name, upd.samples, maxSeries, now);
  }

  /** ApplyShows for a worker's update. */
  lemma WorkerShows(hash: Labels -> Hash, m: Manager, w: WorkerId, n: string, k: DeltaKey)
    requires CacheSpec.Inv(hash, m.store) && Enabled(m, Action.Apply(w))
    ensures var job, store' := m.workers[w].job, Applied(hash, m, w);
      && CacheSpec.Inv(hash, store')
      && (Shows(m.store, n, k) ==> Shows(store', n, k))
      && (Shows(store', n, k) ==>
        || (Shows(m.store, n, k) && store'.families[n].series[k.labelsHash] == m.store.families[n].series[k.labelsHash])
        || (Pending(m, w, k.metricType) && n == job.upd.name && store'.families[n].series[k.labelsHash].lastSeen == job.stamp.value
            && exists s :: s in job.upd.samples && hash(s.labels) == k.labelsHash && store'.families[n].series[k.labelsHash].value == s.value
                && store'.families[n].series[k.labelsHash].hist == s.hist))
  {
    var job := m.workers[w].job;
    hide CacheSpec.Inv, CacheSpec.Apply;
    ApplyShows(hash, m.store, job.metricType, job.upd, m.workers[w].cfg.maxSeries, job.stamp.value, n, k);
  }

  /** Applying keeps the invariant, and no value shown for the key falls. */
  lemma ApplyIsSafe(hash: Labels -> Hash, mu: Measure, m: Manager, w: WorkerId, k: DeltaKey)
    requires Sound(hash, mu, m, k) && Enabled(m, Action.Apply(w))
    ensures var m' := Do(hash, m, Action.Apply(w));
      && Sound(hash, mu, m', k)
      && (Safe(hash, mu, m, k) ==> Safe(hash, mu, m', k) && NoneFalls(mu, m, m', k))
  {
    var m' := Do(hash, m, Action.Apply(w));
    hide CacheSpec.Inv, Applied, Held, Settled;
    WorkerShows(hash, m, w, "", k);
    forall n
      ensures ShownBy(hash, mu, m, m', w, n, k)
    {
      WorkerShows(hash, m, w, n, k);
    }
    AppliedPending(hash, m, w, k);
    hide *;
    if Pending(m, w, k.metricType) {
      OwnApplyKeeps(hash, mu, m, m', w, k);
    } else {
      OtherApplyShows(hash, mu, m, m', w, k);
      NothingNewKeeps(hash, mu, m, m', k);
    }
  }

  /** What the family shows is what it showed, or a sample of the update that
      was waiting. */
  ghost predicate ShownBy(hash: Labels -> Hash, mu: Measure, m: Manager, m': Manager, w: WorkerId, n: string, k: DeltaKey)
  {
    Shows(m'.store, n, k) ==>
      || (Shows(m.store, n, k) && Value(mu, m'.store, n, k) == Value(mu, m.store, n, k))
      || (Pending(m, w, k.metricType)
          && exists s :: s in m.workers[w].job.upd.samples && hash(s.labels) == k.labelsHash && Value(mu, m'.store, n, k) == SampleLevel(mu, s))
  }

  lemma AppliedPending(hash: Labels -> Hash, m: Manager, w: WorkerId, k: DeltaKey)
    requires Mutex(m, k.metricType) && Enabled(m, Action.Apply(w))
    ensures var m' := Do(hash, m, Action.Apply(w));
      && LessPending(m, m', k.metricType) && m'.accs == m.accs
      && (Pending(m, w, k.metricType) ==> forall v :: !Pending(m', v, k.metricType))
  {
    hide Applied;
  }

  lemma OtherApplyShows(hash: Labels -> Hash, mu: Measure, m: Manager, m': Manager, w: WorkerId, k: DeltaKey)
    requires !Pending(m, w, k.metricType) && m'.accs == m.accs && Settled(mu, AccOf(m.accs, k).hist)
    requires forall n :: ShownBy(hash, mu, m, m', w, n, k)
    ensures NoneNew(mu, m.store, m'.store, k) && Grows(mu, m.accs, m'.accs, k)
  {
    hide Held, Settled, Value;
    forall n | Shows(m'.store, n, k)
      ensures Shows(m.store, n, k) && Value(mu, m'.store, n, k) == Value(mu, m.store, n, k)
    {
      assert ShownBy(hash, mu, m, m', w, n, k);
    }
  }

  lemma OwnApplyKeeps(hash: Labels -> Hash, mu: Measure, m: Manager, m': Manager, w: WorkerId, k: DeltaKey)
    requires Sound(hash, mu, m, k) && CacheSpec.Inv(hash, m'.store) && m'.accs == m.accs
    requires Pending(m, w, k.metricType) && forall v :: !Pending(m', v, k.metricType)
    requires forall n :: ShownBy(hash, mu, m, m', w, n, k)
    ensures Sound(hash, mu, m', k) && (Safe(hash, mu, m, k) ==> Safe(hash, mu, m', k) && NoneFalls(mu, m, m', k))
  {
    hide CacheSpec.Inv, Held, Settled, SampleLevel, Value;
    forall n | Shows(m'.store, n, k)
      ensures || (Shows(m.store, n, k) && Value(mu, m'.store, n, k) == Value(mu, m.store, n, k))
        || exists s :: s in m.workers[w].job.upd.samples && hash(s.labels) == k.labelsHash && Value(mu, m'.store, n, k) == SampleLevel(mu, s)
    {
      assert ShownBy(hash, mu, m, m', w, n, k);
    }
  }

  lemma SweepShows(mu: Measure, store: StoreState, cutoff: Time, n: string, k: DeltaKey)
    requires Shows(CacheRuns.Sweep(store, cutoff), n, k)
    ensures Shows(store, n, k) && Value(mu, CacheRuns.Sweep(store, cutoff), n, k) == Value(mu, store, n, k)
  {}

  lemma SweepStoreKeeps(hash: Labels -> Hash, mu: Measure, m: Manager, w: WorkerId, types: set<string>, k: DeltaKey)
    requires Sound(hash, mu, m, k) && Enabled(m, SweepStore(w, types))
    ensures var m' := Do(hash, m, SweepStore(w, types));
      && Sound(hash, mu, m', k)
      && (Safe(hash, mu, m, k) ==> Safe(hash, mu, m', k) && NoneFalls(mu, m, m', k))
  {
    var m' := Do(hash, m, SweepStore(w, types));
    CacheRuns.SweepKeepsInv(hash, m.store, m.workers[w].job.cutoff);
    hide CacheSpec.Inv, CacheRuns.Sweep, Held, SampleLevel, Settled;
    forall n | Shows(m'.store, n, k)
      ensures Shows(m.store, n, k) && Value(mu, m'.store, n, k) == Value(mu, m.store, n, k)
    {
      SweepShows(mu, m.store, m.workers[w].job.cutoff, n, k);
    }
    NothingNewKeeps(hash, mu, m, m', k);
  }

  /** Sweeping the accumulators of a metric type keeps the invariant exactly if
      it does not drop the accumulator of a key that is still cached. */
  lemma SweepTypeIsSafe(hash: Labels -> Hash, mu: Measure, m: Manager, w: WorkerId, mt: string, k: DeltaKey)
    requires Sound(hash, mu, m, k) && Enabled(m, SweepType(w, mt))
    ensures var m' := Do(hash, m, SweepType(w, mt));
      && Sound(hash, mu, m', k)
      && (Safe(hash, mu, m, k) ==> (Safe(hash, mu, m', k) <==> SkewFree(m, SweepType(w, mt), k)))
  {
    var m' := Do(hash, m, SweepType(w, mt));
    if mt != k.metricType || (k in m.accs ==> k in m'.accs) {
      assert k in m.accs ==> k in m'.accs && m'.accs[k] == m.accs[k];
      assert AccOf(m'.accs, k) == AccOf(m.accs, k);
      hide CacheSpec.Inv, Level, Settled, Value;
      NothingNewKeeps(hash, mu, m, m', k);
    } else {
      DropIsUnsafe(hash, mu, m, w, k);
    }
  }

  lemma DropIsUnsafe(hash: Labels -> Hash, mu: Measure, m: Manager, w: WorkerId, k: DeltaKey)
    requires Sound(hash, mu, m, k) && Enabled(m, SweepType(w, k.metricType))
    requires k in m.accs && k !in Do(hash, m, SweepType(w, k.metricType)).accs
    ensures var m' := Do(hash, m, SweepType(w, k.metricType));
      && Sound(hash, mu, m', k)
      && (Safe(hash, mu, m, k) ==> (Safe(hash, mu, m', k) <==> SkewFree(m, SweepType(w, k.metricType), k)))
  {
    hide CacheSpec.Inv, SampleLevel, Value;
    var m' := Do(hash, m, SweepType(w, k.metricType));
    assert forall v :: Pending(m', v, k.metricType) ==> Pending(m, v, k.metricType);
    assert forall v :: !Pending(m, v, k.metricType);
  }

  lemma OtherStepKeeps(hash: Labels -> Hash, mu: Measure, m: Manager, a: Action, k: DeltaKey)
    requires Sound(hash, mu, m, k) && Enabled(m, a)
    requires !a.Translate? && !a.Apply? && !a.SweepStore? && !a.SweepType?
    ensures Sound(hash, mu, Do(hash, m, a), k) && (Safe(hash, mu, m, k) ==> Safe(hash, mu, Do(hash, m, a), k))
  {
    hide CacheSpec.Inv, Held, SampleLevel, Settled;
    NothingNewKeeps(hash, mu, m, Do(hash, m, a), k);
  }

  /** Every step keeps what holds whatever is swept; without skew it keeps the
      invariant, and no value shown falls. */
  lemma StepIsSafe(hash: Labels -> Hash, mu: Measure, m: Manager, a: Action, k: DeltaKey)
    requires Sound(hash, mu, m, k) && Enabled(m, a) && PolledAsCounter(hash, mu, m, a, k)
    ensures var m' := Do(hash, m, a);
      && Sound(hash, mu, m', k)
      && (Safe(hash, mu, m, k) && SkewFree(m, a, k) ==> Safe(hash, mu, m', k) && NoneFalls(mu, m, m', k))
  {
    hide CacheSpec.Inv, Applied, TranslateSpec.Translate, PendingSound, PendingAbove, CacheBelow, Mutex;
    match a {
      case Translate(w) => TranslateKeeps(hash, mu, m, w, k);
      case Apply(w) => ApplyIsSafe(hash, mu, m, w, k);
      case SweepStore(w, types) => SweepStoreKeeps(hash, mu, m, w, types, k);
      case SweepType(w, mt) => SweepTypeIsSafe(hash, mu, m, w, mt, k);
      case _ => OtherStepKeeps(hash, mu, m, a, k);
    }
  }

  lemma InitialIsSafe(hash: Labels -> Hash, mu: Measure, k: DeltaKey)
    ensures Safe(hash, mu, INITIAL, k) && !Shown(INITIAL.store, k)
  {
    assert forall h :: CacheSpec.PoolAgrees(hash, INITIAL.store, h);
  }

  // -------------------------------------------------------------------- runs

  /** The key is polled as a counter throughout. */
  ghost predicate CounterPolls(hash: Labels -> Hash, mu: Measure, ms: seq<Manager>, acts: seq<Action>, k: DeltaKey)
    requires Run(hash, ms, acts)
  {
    forall i :: 0 <= i < |acts| && Enabled(ms[i], acts[i]) ==> PolledAsCounter(hash, mu, ms[i], acts[i], k)
  }

  lemma CounterAt(hash: Labels -> Hash, mu: Measure, ms: seq<Manager>, acts: seq<Action>, k: DeltaKey, i: nat)
    requires Run(hash, ms, acts) && CounterPolls(hash, mu, ms, acts, k) && i < |acts|
    ensures Enabled(ms[i], acts[i]) && PolledAsCounter(hash, mu, ms[i], acts[i], k)
  {
    hide PolledAsCounter, Do, Enabled;
  }

  lemma {:induction false} SoundInRun(hash: Labels -> Hash, mu: Measure, ms: seq<Manager>, acts: seq<Action>, k: DeltaKey, j: nat)
    requires Run(hash, ms, acts) && CounterPolls(hash, mu, ms, acts, k) && j < |ms|
    requires Sound(hash, mu, ms[0], k)
    ensures Sound(hash, mu, ms[j], k)
  {
    hide *;
    if j > 0 {
      SoundInRun(hash, mu, ms, acts, k, j - 1);
      RunStep(hash, ms, acts, j - 1);
      CounterAt(hash, mu, ms, acts, k, j - 1);
      StepIsSafe(hash, mu, ms[j - 1], acts[j - 1], k);
    }
  }

  /** No sweep from here on drops the accumulator of a cached series. */
  ghost predicate WithoutSkew(hash: Labels -> Hash, ms: seq<Manager>, acts: seq<Action>, k: DeltaKey, i: nat, j: nat)
    requires Run(hash, ms, acts)
  {
    forall x :: i <= x < j && x < |acts| && Enabled(ms[x], acts[x]) ==> SkewFree(ms[x], acts[x], k)
  }

  lemma SkewFreeAt(hash: Labels -> Hash, ms: seq<Manager>, acts: seq<Action>, k: DeltaKey, i: nat, j: nat)
    requires Run(hash, ms, acts) && i < j < |ms| && WithoutSkew(hash, ms, acts, k, i, j)
    ensures WithoutSkew(hash, ms, acts, k, i, j - 1)
    ensures j <= |acts| && Enabled(ms[j - 1], acts[j - 1]) && SkewFree(ms[j - 1], acts[j - 1], k)
  {
    hide SkewFree, Do, Enabled;
  }

  lemma {:induction false} SafeInRun(hash: Labels -> Hash, mu: Measure, ms: seq<Manager>, acts: seq<Action>, k: DeltaKey, i: nat, j: nat)
    requires Run(hash, ms, acts) && CounterPolls(hash, mu, ms, acts, k) && i <= j < |ms|
    requires Safe(hash, mu, ms[i], k) && WithoutSkew(hash, ms, acts, k, i, j)
    ensures Safe(hash, mu, ms[j], k)
    decreases j
  {
    hide *;
    if i < j {
      SkewFreeAt(hash, ms, acts, k, i, j);
      SafeInRun(hash, mu, ms, acts, k, i, j - 1);
      RunStep(hash, ms, acts, j - 1);
      CounterAt(hash, mu, ms, acts, k, j - 1);
      SafeIsSound(hash, mu, ms[j - 1], k);
      StepIsSafe(hash, mu, ms[j - 1], acts[j - 1], k);
    }
  }

  lemma SafeIsSound(hash: Labels -> Hash, mu: Measure, m: Manager, k: DeltaKey)
    requires Safe(hash, mu, m, k)
    ensures Sound(hash, mu, m, k)
  {}

  /** While nothing is cached for the key there is nothing to be below. */
  lemma SafeWhenNotShown(hash: Labels -> Hash, mu: Measure, m: Manager, k: DeltaKey)
    requires Sound(hash, mu, m, k) && !Shown(m.store, k)
    ensures Safe(hash, mu, m, k)
  {}

  ghost predicate ShownThroughout(ms: seq<Manager>, n: string, k: DeltaKey, i: nat, j: nat)
  {
    j < |ms| && forall x :: i <= x <= j ==> Shows(ms[x].store, n, k)
  }

  /** From a safe state on, without skew, no value shown falls while it is
      cached. */
  lemma {:induction false} SafeNeverFalls(hash: Labels -> Hash, mu: Measure, ms: seq<Manager>, acts: seq<Action>, k: DeltaKey, n: string, i: nat, j: nat)
    requires Run(hash, ms, acts) && CounterPolls(hash, mu, ms, acts, k) && i <= j < |ms|
    requires Safe(hash, mu, ms[i], k) && WithoutSkew(hash, ms, acts, k, i, j)
    requires ShownThroughout(ms, n, k, i, j)
    ensures Shows(ms[i].store, n, k) && Shows(ms[j].store, n, k) && Value(mu, ms[i].store, n, k) <= Value(mu, ms[j].store, n, k)
    decreases j
  {
    hide *;
    ShownAtEnds(ms, n, k, i, j);
    if i < j {
      ShownUntil(ms, n, k, i, j);
      SkewFreeAt(hash, ms, acts, k, i, j);
      SafeNeverFalls(hash, mu, ms, acts, k, n, i, j - 1);
      SafeInRun(hash, mu, ms, acts, k, i, j - 1);
      SafeIsSound(hash, mu, ms[j - 1], k);
      RunStep(hash, ms, acts, j - 1);
      CounterAt(hash, mu, ms, acts, k, j - 1);
      StepIsSafe(hash, mu, ms[j - 1], acts[j - 1], k);
      NoneFallsAt(mu, ms[j - 1], ms[j], n, k);
    }
  }

  lemma ShownAtEnds(ms: seq<Manager>, n: string, k: DeltaKey, i: nat, j: nat)
    requires i <= j && ShownThroughout(ms, n, k, i, j)
    ensures Shows(ms[i].store, n, k) && Shows(ms[j].store, n, k)
  {}

  lemma ShownUntil(ms: seq<Manager>, n: string, k: DeltaKey, i: nat, j: nat)
    requires i < j && ShownThroughout(ms, n, k, i, j)
    ensures ShownThroughout(ms, n, k, i, j - 1)
    ensures Shows(ms[i].store, n, k) && Shows(ms[j - 1].store, n, k) && Shows(ms[j].store, n, k)
  {}

  lemma NoneFallsAt(mu: Measure, m: Manager, m': Manager, n: string, k: DeltaKey)
    requires NoneFalls(mu, m, m', k) && Shows(m.store, n, k) && Shows(m'.store, n, k)
    ensures Value(mu, m.store, n, k) <= Value(mu, m'.store, n, k)
  {}

  /** Under every interleaving of polls, sweeps and rewires, what is served of a
      DELTA series never falls while it is cached, also when an older response
      commits after a newer one: neither the value of a scalar without negative
      increments nor, while the bucket layout stays, the count and every
      cumulative count of a histogram; provided that no sweep since a time at
      which the series was not cached dropped its accumulator under it. */
  lemma {:induction false} CounterNeverFalls(hash: Labels -> Hash, mu: Measure, ms: seq<Manager>, acts: seq<Action>, k: DeltaKey, n: string, b: nat, i: nat, j: nat)
    requires Run(hash, ms, acts) && ms[0] == INITIAL && CounterPolls(hash, mu, ms, acts, k) && b <= i <= j < |ms|
    requires !Shown(ms[b].store, k) && WithoutSkew(hash, ms, acts, k, b, j)
    requires ShownThroughout(ms, n, k, i, j)
    ensures Shows(ms[i].store, n, k) && Shows(ms[j].store, n, k) && Value(mu, ms[i].store, n, k) <= Value(mu, ms[j].store, n, k)
  {
    InitialIsSafe(hash, mu, k);
    SoundInRun(hash, mu, ms, acts, k, b);
    SafeWhenNotShown(hash, mu, ms[b], k);
    SafeInRun(hash, mu, ms, acts, k, b, i);
    SafeNeverFalls(hash, mu, ms, acts, k, n, i, j);
  }
}
