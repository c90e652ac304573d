/** Where the condition on sweeps in module Counters comes from: one poll reads
    the clock twice, to stamp its accumulators and to stamp the cached series. */
module Skew {
  import opened Basics
  import opened Histograms
  import opened DeltaLog
  import opened TranslateSpec
  import opened PollManager
  import opened Counters
  import CacheSpec
  import CacheRuns

  // ------------------------------------- one clock reading per poll suffices

  /** The clock stands still while a poll of the metric type is between its two
      readings, and sweeps look into the past. */
  ghost predicate StillClock(m: Manager, a: Action, metricType: string)
  {
    && (a.Tick? && Locked(m, metricType) ==> a.to == m.clock)
    && (a.PlanSweep? && a.w in m.workers ==> m.workers[a.w].cfg.staleAfter >= 0)
  }

  /** Whenever a response translated concerns the key it is a DELTA. */
  ghost predicate DeltaFor(hash: Labels -> Hash, m: Manager, a: Action, k: DeltaKey)
    requires Enabled(m, a)
  {
    a.Translate? ==>
      forall ts :: ts in m.workers[a.w].job.series && Concerns(hash, k, m.workers[a.w].job.md, ts) ==>
        IsDelta(m.workers[a.w].job.md, ts)
  }

  function CachedSeen(store: StoreState, n: string, k: DeltaKey): Time
    requires Shows(store, n, k)
  {
    store.families[n].series[k.labelsHash].lastSeen
  }

  /** The accumulator of a cached series was seen no earlier than the series. */
  ghost predicate SeenTogether(m: Manager, k: DeltaKey)
  {
    forall n :: Shows(m.store, n, k) ==> k in m.accs && CachedSeen(m.store, n, k) <= m.accs[k].lastSeen
  }

  /** A poll between its two readings of the clock reads the same twice. */
  ghost predicate PendingSeenNow(hash: Labels -> Hash, m: Manager, k: DeltaKey)
  {
    && (forall w :: Pending(m, w, k.metricType) && m.workers[w].job.stamp.Some? ==> m.workers[w].job.stamp.value == m.clock)
    && (forall w, s :: Pending(m, w, k.metricType) && s in m.workers[w].job.upd.samples && hash(s.labels) == k.labelsHash ==>
      k in m.accs && m.accs[k].lastSeen == m.clock)
  }

  /** Sweepers look into the past, and one that is through with the store has
      left nothing there from before its cutoff. */
  ghost predicate SweepersBehind(m: Manager, k: DeltaKey)
  {
    forall w :: w in m.workers && (m.workers[w].job.SweepPlanned? || m.workers[w].job.SweepTypes?) ==>
      && m.workers[w].job.cutoff <= m.clock
      && (m.workers[w].job.SweepTypes? ==> forall n :: Shows(m.store, n, k) ==> CachedSeen(m.store, n, k) >= m.workers[w].job.cutoff)
  }

  ghost predicate InStep(hash: Labels -> Hash, m: Manager, k: DeltaKey)
  {
    && CacheSpec.Inv(hash, m.store)
    && SeenTogether(m, k) && PendingSeenNow(hash, m, k) && SweepersBehind(m, k)
  }

  /** After a translation the accumulator behind every sample was seen now; the
      others are as before. */
  lemma {:induction false} TranslateSees(hash: Labels -> Hash, k: DeltaKey, accs: Accs, md: MetricDescriptor, series: seq<TimeSeries>, now: Time)
    requires forall ts :: ts in series && Concerns(hash, k, md, ts) ==> IsDelta(md, ts)
    ensures var t := TranslateSpec.Translate(hash, accs, md, series, now);
      && (k in accs ==> k in t.accs)
      && (AccOf(t.accs, k) == AccOf(accs, k) || (k in t.accs && t.accs[k].lastSeen == now))
      && ((exists ts :: ts in series && Concerns(hash, k, md, ts)) ==> k in t.accs && t.accs[k].lastSeen == now)
      && (md.typ == k.metricType ==>
          forall s :: s in t.samples && hash(s.labels) == k.labelsHash ==> k in t.accs && t.accs[k].lastSeen == now)
  {
    if series != [] {
      var front, ts := series[..|series| - 1], series[|series| - 1];
      assert ts in series;
      TranslateSees(hash, k, accs, md, front, now);
      SeriesSees(hash, k, TranslateSpec.Translate(hash, accs, md, front, now).accs, md, ts, now);
      forall other | other in series && Concerns(hash, k, md, other)
        ensures other == ts || other in front
      {}
    }
  }

  lemma SeriesSees(hash: Labels -> Hash, k: DeltaKey, accs: Accs, md: MetricDescriptor, ts: TimeSeries, now: Time)
    requires Concerns(hash, k, md, ts) ==> IsDelta(md, ts)
    ensures var out := SeriesOutcome(hash, accs, md, ts, now);
      && (if Concerns(hash, k, md, ts) then k in out.accs && out.accs[k].lastSeen == now
          else (k in out.accs <==> k in accs) && AccOf(out.accs, k) == AccOf(accs, k))
      && (out.sample.Some? ==> out.sample.value.labels == ts.labels && Considered(md, ts))
  {
    SeriesCommits(hash, accs, md, ts, now, k);
  }

  lemma StillTranslate(hash: Labels -> Hash, m: Manager, w: WorkerId, k: DeltaKey)
    requires Enabled(m, Action.Translate(w)) && DeltaFor(hash, m, Action.Translate(w), k)
    requires InStep(hash, m, k) && (forall n :: Shows(m.store, n, k) ==> CachedSeen(m.store, n, k) <= m.clock)
    ensures InStep(hash, Do(hash, m, Action.Translate(w)), k)
  {
    var m' := Do(hash, m, Action.Translate(w));
    TranslatedSeen(hash, m, w, k);
    hide CacheSpec.Inv, TranslateSpec.Translate, SeenTogether, PendingSeenNow;
    assert forall v :: v in m'.workers && v != w ==> m'.workers[v] == m.workers[v];
  }

  lemma TranslatedSeen(hash: Labels -> Hash, m: Manager, w: WorkerId, k: DeltaKey)
    requires Enabled(m, Action.Translate(w)) && DeltaFor(hash, m, Action.Translate(w), k)
    requires SeenTogether(m, k) && PendingSeenNow(hash, m, k) && (forall n :: Shows(m.store, n, k) ==> CachedSeen(m.store, n, k) <= m.clock)
    ensures var m' := Do(hash, m, Action.Translate(w)); SeenTogether(m', k) && PendingSeenNow(hash, m', k)
  {
    var job := m.workers[w].job;
    var m' := Do(hash, m, Action.Translate(w));
    hide TranslateSpec.Translate;
    TranslateSees(hash, k, m.accs, job.md, job.series, m.clock);
    TranslateFrames(hash, k, m.accs, job.md, job.series, m.clock);
    assert forall v :: Pending(m', v, k.metricType) ==> (v == w && job.md.typ == k.metricType) || (v != w && Pending(m, v, k.metricType));
    assert forall v :: v in m'.workers && v != w ==> m'.workers[v] == m.workers[v];
    if job.md.typ == k.metricType {
      assert forall v :: !Pending(m, v, k.metricType);
    }
  }

  lemma TranslateFrames(hash: Labels -> Hash, k: DeltaKey, accs: Accs, md: MetricDescriptor, series: seq<TimeSeries>, now: Time)
    ensures k in accs && k.metricType != md.typ ==>
      var after := TranslateSpec.Translate(hash, accs, md, series, now).accs;
      k in after && after[k] == accs[k]
  {
    if k in accs {
      TranslateFrame(hash, accs, md, series, now, k);
    }
  }

  lemma StillApply(hash: Labels -> Hash, m: Manager, w: WorkerId, k: DeltaKey)
    requires Enabled(m, Action.Apply(w)) && InStep(hash, m, k)
    ensures InStep(hash, Do(hash, m, Action.Apply(w)), k)
  {
    var m' := Do(hash, m, Action.Apply(w));
    hide CacheSpec.Inv, Applied;
    WorkerShows(hash, m, w, "", k);
    assert forall v :: v in m'.workers && v != w ==> m'.workers[v] == m.workers[v];
    forall n | Shows(m'.store, n, k)
      ensures k in m.accs && CachedSeen(m'.store, n, k) <= m.accs[k].lastSeen
      ensures CachedSeen(m'.store, n, k) == m.clock || (Shows(m.store, n, k) && CachedSeen(m'.store, n, k) == CachedSeen(m.store, n, k))
    {
      WorkerShows(hash, m, w, n, k);
    }
    assert forall v :: Pending(m', v, k.metricType) ==> v != w && Pending(m, v, k.metricType);
  }

  lemma StillSweep(hash: Labels -> Hash, m: Manager, w: WorkerId, types: set<string>, k: DeltaKey)
    requires Enabled(m, SweepStore(w, types)) && InStep(hash, m, k)
    ensures InStep(hash, Do(hash, m, SweepStore(w, types)), k)
  {
    var m' := Do(hash, m, SweepStore(w, types));
    var cutoff := m.workers[w].job.cutoff;
    CacheRuns.SweepKeepsInv(hash, m.store, cutoff);
    hide CacheSpec.Inv;
    forall n | Shows(m'.store, n, k)
      ensures Shows(m.store, n, k) && CachedSeen(m'.store, n, k) == CachedSeen(m.store, n, k) >= cutoff
    {}
    assert forall v :: v in m'.workers && v != w ==> m'.workers[v] == m.workers[v];
    assert forall v :: Pending(m', v, k.metricType) ==> v != w && Pending(m, v, k.metricType);
  }

  lemma StillTick(hash: Labels -> Hash, m: Manager, to: Time, k: DeltaKey)
    requires Enabled(m, Tick(to)) && StillClock(m, Tick(to), k.metricType) && InStep(hash, m, k)
    ensures InStep(hash, m.(clock := to), k)
  {}

  /** Steps that change neither store, clock nor the pending update. */
  lemma StillJob(hash: Labels -> Hash, m: Manager, w: WorkerId, job: Job, k: DeltaKey)
    requires InStep(hash, m, k) && w in m.workers
    requires job.Translated? ==> m.workers[w].job.Translated? && job == m.workers[w].job.(stamp := Some(m.clock))
    requires job.SweepPlanned? ==> job.cutoff <= m.clock
    requires job.SweepTypes? ==> m.workers[w].job.SweepTypes? && job.cutoff == m.workers[w].job.cutoff
    ensures InStep(hash, SetJob(m, w, job), k)
  {
    var m' := SetJob(m, w, job);
    assert forall v :: v in m'.workers && v != w ==> m'.workers[v] == m.workers[v];
    assert forall v :: Pending(m', v, k.metricType) ==> Pending(m, v, k.metricType) && m'.workers[v].job.upd == m.workers[v].job.upd;
  }

  lemma StillSweepType(hash: Labels -> Hash, m: Manager, w: WorkerId, mt: string, k: DeltaKey)
    requires Enabled(m, SweepType(w, mt)) && InStep(hash, m, k)
    ensures InStep(hash, Do(hash, m, SweepType(w, mt)), k) && SkewFree(m, SweepType(w, mt), k)
  {
    var job := m.workers[w].job;
    StillJob(hash, m, w, job.(todo := job.todo - {mt}), k);
    hide CacheSpec.Inv;
    var m' := SetJob(m, w, job.(todo := job.todo - {mt}));
    if mt == k.metricType {
      assert forall v :: !Pending(m', v, k.metricType);
    }
  }

  lemma StillOther(hash: Labels -> Hash, m: Manager, a: Action, k: DeltaKey)
    requires Enabled(m, a) && StillClock(m, a, k.metricType) && InStep(hash, m, k)
    requires !a.Translate? && !a.Apply? && !a.SweepStore?
    ensures InStep(hash, Do(hash, m, a), k) && SkewFree(m, a, k)
  {
    hide CacheSpec.Inv, SeenTogether, PendingSeenNow, SweepersBehind, Shown;
    if a.Tick? {
      StillTick(hash, m, a.to, k);
    } else if a.SweepType? {
      StillSweepType(hash, m, a.w, a.metricType, k);
    } else if a.Cancel? || a.Exit? || a.Start? {
      CrewChanges(hash, m, Do(hash, m, a), k);
    } else {
      StillJob(hash, m, a.w, Do(hash, m, a).workers[a.w].job, k);
    }
  }

  /** Workers that leave, and idle ones that come. */
  lemma CrewChanges(hash: Labels -> Hash, m: Manager, m': Manager, k: DeltaKey)
    requires InStep(hash, m, k) && m'.clock == m.clock && m'.accs == m.accs && m'.store == m.store
    requires forall w :: w in m'.workers ==> m'.workers[w].job.Idle? || (w in m.workers && m'.workers[w] == m.workers[w])
    ensures InStep(hash, m', k)
  {
    hide CacheSpec.Inv;
    assert forall v :: Pending(m', v, k.metricType) ==> Pending(m, v, k.metricType) && m'.workers[v] == m.workers[v];
  }

  /** Cached series were seen no later than now. */
  ghost predicate SeenInPast(m: Manager, k: DeltaKey)
  {
    && (forall n :: Shows(m.store, n, k) ==> CachedSeen(m.store, n, k) <= m.clock)
    && (forall w :: Pending(m, w, k.metricType) && m.workers[w].job.stamp.Some? ==> m.workers[w].job.stamp.value <= m.clock)
  }

  lemma PastStays(hash: Labels -> Hash, m: Manager, a: Action, k: DeltaKey)
    requires Enabled(m, a) && CacheSpec.Inv(hash, m.store) && SeenInPast(m, k)
    ensures SeenInPast(Do(hash, m, a), k)
  {
    hide CacheSpec.Inv, Applied, TranslateSpec.Translate;
    var m' := Do(hash, m, a);
    if a.Apply? {
      forall n | Shows(m'.store, n, k)
        ensures CachedSeen(m'.store, n, k) <= m.clock
      {
        WorkerShows(hash, m, a.w, n, k);
      }
    } else if a.SweepStore? {
      forall n | Shows(m'.store, n, k)
        ensures Shows(m.store, n, k) && CachedSeen(m'.store, n, k) == CachedSeen(m.store, n, k)
      {}
    }
  }

  /** If the clock stands still inside every poll, every sweep is harmless. */
  lemma {:induction false} StillClockIsSkewFree(hash: Labels -> Hash, ms: seq<Manager>, acts: seq<Action>, k: DeltaKey, j: nat)
    requires Run(hash, ms, acts) && ms[0] == INITIAL && j < |ms|
    requires forall i :: 0 <= i < |acts| ==> DeltaFor(hash, ms[i], acts[i], k) && StillClock(ms[i], acts[i], k.metricType)
    ensures InStep(hash, ms[j], k) && SeenInPast(ms[j], k)
    ensures j < |acts| ==> SkewFree(ms[j], acts[j], k)
  {
    if j == 0 {
      InitialIsSafe(hash, Sum, k);
    } else {
      hide InStep, SeenInPast, Do, SkewFree, StillClock, DeltaFor;
      StillClockIsSkewFree(hash, ms, acts, k, j - 1);
      StillStep(hash, ms[j - 1], acts[j - 1], k);
    }
    if j < |acts| {
      hide Do, DeltaFor;
      if acts[j].SweepType? {
        StillOther(hash, ms[j], acts[j], k);
      }
    }
  }

  lemma StillStep(hash: Labels -> Hash, m: Manager, a: Action, k: DeltaKey)
    requires Enabled(m, a) && DeltaFor(hash, m, a, k) && StillClock(m, a, k.metricType)
    requires InStep(hash, m, k) && SeenInPast(m, k)
    ensures InStep(hash, Do(hash, m, a), k) && SeenInPast(Do(hash, m, a), k)
  {
    hide CacheSpec.Inv, Applied, TranslateSpec.Translate, SeenTogether, PendingSeenNow, SweepersBehind;
    PastStays(hash, m, a, k);
    match a {
      case Translate(w) => StillTranslate(hash, m, w, k);
      case Apply(w) => StillApply(hash, m, w, k);
      case SweepStore(w, types) => StillSweep(hash, m, w, types, k);
      case _ => StillOther(hash, m, a, k);
    }
  }
}
