/** Exactly when a staleness sweep lets a served counter fall
    (internal/poll/manager.go). */
module LostCounts {
  import opened Basics
  import opened DeltaLog
  import opened TranslateSpec
  import opened PollManager
  import opened Counters
  import opened Staleness
  import opened Polling
  import opened Pipeline
  import CacheSpec
  import CacheRuns

  // -------------------------------------------------- what counts as a fall

  /** A fetch is one the service can answer so: the family has the name of the
      metric type, the window opens no earlier than `since`, and every point of
      the response ends in the window. */
  ghost predicate Genuine(promName: string -> string, since: Time, m: Manager, a: Action)
    requires Enabled(m, a)
  {
    a.Fetch? ==>
      var at, window := m.workers[a.w].job.at, PollWindow(m.workers[a.w].role.entry, a.md);
      && a.converted == promName(a.md.typ)
      && since <= at - window
      && forall ts, p :: ts in a.series && p in ts.points ==> at - window < p.end <= at
  }

  /** The series is cached, it is polled as a counter by genuine fetches, and no
      sweep drops its accumulator. */
  ghost function Unskewed(hash: Labels -> Hash, promName: string -> string, since: Time, n: string, k: DeltaKey): Condition
  {
    (m: Manager, a: Action) =>
      && Enabled(m, a) && Shows(m.store, n, k)
      && PolledAsCounter(hash, Sum, m, a, k) && SkewFree(m, a, k) && Genuine(promName, since, m, a)
  }

  /** A run without further skew over which the value shown falls although the
      series stays cached. All its windows open after its beginning, so that
      nothing shown before can be shown again. */
  ghost predicate Falls(hash: Labels -> Hash, promName: string -> string, ms: seq<Manager>, acts: seq<Action>, n: string, k: DeltaKey)
  {
    && |ms| > 0 && RunOf(hash, ms, acts, Unskewed(hash, promName, ms[0].clock, n, k))
    && Shows(ms[0].store, n, k) && Shows(ms[|acts|].store, n, k)
    && Value(Sum, ms[|acts|].store, n, k) < Value(Sum, ms[0].store, n, k)
  }

  ghost predicate CanFall(hash: Labels -> Hash, promName: string -> string, m: Manager, n: string, k: DeltaKey)
  {
    exists ms, acts :: Falls(hash, promName, ms, acts, n, k) && ms[0] == m
  }

  lemma CanFallBy(hash: Labels -> Hash, promName: string -> string, ms: seq<Manager>, acts: seq<Action>, n: string, k: DeltaKey)
    requires |ms| == |acts| + 1 && RunOf(hash, ms, acts, Unskewed(hash, promName, ms[0].clock, n, k))
    requires Shows(ms[0].store, n, k) && Shows(ms[|acts|].store, n, k)
    requires Value(Sum, ms[|acts|].store, n, k) < Value(Sum, ms[0].store, n, k)
    ensures CanFall(hash, promName, ms[0], n, k)
  {
    hide RunOf, Shows, Value, Unskewed;
    assert Falls(hash, promName, ms, acts, n, k);
  }

  lemma UnskewedAt(hash: Labels -> Hash, promName: string -> string, ms: seq<Manager>, acts: seq<Action>, since: Time, n: string, k: DeltaKey, i: nat)
    requires RunOf(hash, ms, acts, Unskewed(hash, promName, since, n, k)) && i < |acts|
    ensures Enabled(ms[i], acts[i]) && Shows(ms[i].store, n, k)
    ensures PolledAsCounter(hash, Sum, ms[i], acts[i], k) && SkewFree(ms[i], acts[i], k)
  {
    hide Do, Enabled, Shows, PolledAsCounter, SkewFree, Genuine, RunOf, Steps;
    StepAt(hash, ms, acts, Unskewed(hash, promName, since, n, k), i);
  }

  lemma FallingRun(hash: Labels -> Hash, promName: string -> string, ms: seq<Manager>, acts: seq<Action>, n: string, k: DeltaKey)
    requires Falls(hash, promName, ms, acts, n, k)
    ensures |ms| == |acts| + 1 && Run(hash, ms, acts) && CounterPolls(hash, Sum, ms, acts, k) && WithoutSkew(hash, ms, acts, k, 0, |acts|)
    ensures ShownThroughout(ms, n, k, 0, |acts|)
  {
    var since := ms[0].clock;
    RunOfIsRun(hash, ms, acts, Unskewed(hash, promName, since, n, k));
    hide Do, Enabled, Shows, PolledAsCounter, SkewFree, Unskewed, RunOf, Run, Value;
    forall i | 0 <= i < |acts|
      ensures Enabled(ms[i], acts[i]) && Shows(ms[i].store, n, k)
      ensures PolledAsCounter(hash, Sum, ms[i], acts[i], k) && SkewFree(ms[i], acts[i], k)
    {
      UnskewedAt(hash, promName, ms, acts, since, n, k, i);
    }
  }

  lemma SafeCannotFall(hash: Labels -> Hash, promName: string -> string, m: Manager, n: string, k: DeltaKey)
    requires Safe(hash, Sum, m, k)
    ensures !CanFall(hash, promName, m, n, k)
  {
    hide Safe, Run, CounterPolls, WithoutSkew, ShownThroughout, RunOf;
    forall ms, acts | Falls(hash, promName, ms, acts, n, k) && ms[0] == m
      ensures false
    {
      FallingRun(hash, promName, ms, acts, n, k);
      SafeNeverFalls(hash, Sum, ms, acts, k, n, 0, |acts|);
    }
  }

  /** Nothing falls below nothing. */
  lemma NothingCannotFall(hash: Labels -> Hash, promName: string -> string, m: Manager, n: string, k: DeltaKey)
    requires Sound(hash, Sum, m, k) && Shows(m.store, n, k) && Value(Sum, m.store, n, k) <= 0.0
    ensures !CanFall(hash, promName, m, n, k)
  {
    hide Run, CounterPolls, WithoutSkew, ShownThroughout, RunOf, CacheSpec.Inv, Mutex, PendingSound;
    forall ms, acts | Falls(hash, promName, ms, acts, n, k) && ms[0] == m
      ensures false
    {
      FallingRun(hash, promName, ms, acts, n, k);
      SoundInRun(hash, Sum, ms, acts, k, |acts|);
    }
  }

  // ------------------------------------------------- a busy poller finishes first

  /** The series is cached with a value and has lost its accumulator. */
  ghost predicate Lost(hash: Labels -> Hash, m: Manager, n: string, k: DeltaKey, value: real)
  {
    CacheSpec.Inv(hash, m.store) && Shows(m.store, n, k) && Value(Sum, m.store, n, k) == value && k !in m.accs
  }

  /** What the poller is in the middle of does not concern the key. */
  ghost predicate Unconcerned(hash: Labels -> Hash, m: Manager, v: WorkerId, k: DeltaKey)
  {
    && v in m.workers
    && match m.workers[v].job
       case Idle => true
       case Asked(_) => true
       case Fetched(_, _, md, series, _) => forall ts :: ts in series ==> !Concerns(hash, k, md, ts)
       case Translated(mt, upd, _) => mt == k.metricType ==> forall s :: s in upd.samples ==> hash(s.labels) != k.labelsHash
       case _ => false
  }

  lemma QuietStep(hash: Labels -> Hash, promName: string -> string, m: Manager, a: Action, since: Time, n: string, k: DeltaKey)
    requires Enabled(m, a) && Shows(m.store, n, k)
    requires Quiet(a) || (a.Translate? && Unconcerned(hash, m, a.w, k))
    ensures Unskewed(hash, promName, since, n, k)(m, a)
  {
    hide Shows, Concerns, Raises;
  }

  /** A worker that holds the mutex applies its update, which does not show the
      key. */
  lemma FinishTranslated(hash: Labels -> Hash, promName: string -> string, m: Manager, u: WorkerId, since: Time, n: string, k: DeltaKey, value: real)
      returns (ms: seq<Manager>, acts: seq<Action>)
    requires Lost(hash, m, n, k, value) && Unconcerned(hash, m, u, k) && m.workers[u].job.Translated?
    ensures RunOf(hash, ms, acts, Unskewed(hash, promName, since, n, k)) && ms[0] == m
    ensures var e := ms[|acts|];
      Lost(hash, e, n, k, value) && e.(store := m.store) == m.(workers := m.workers[u := m.workers[u].(job := Idle)])
  {
    ms, acts := [m], [];
    NoStep(hash, m, Unskewed(hash, promName, since, n, k));
    if m.workers[u].job.stamp.None? {
      StampStep(hash, m, u, n, k, value);
      QuietStep(hash, promName, m, ReadClock(u), since, n, k);
      OneMore(hash, ms, acts, ReadClock(u), Unskewed(hash, promName, since, n, k));
      ms, acts := ms + [Do(hash, m, ReadClock(u))], acts + [ReadClock(u)];
    }
    var stamped := ms[|acts|];
    ApplyStep(hash, stamped, u, n, k, value);
    QuietStep(hash, promName, stamped, Action.Apply(u), since, n, k);
    hide *;
    OneMore(hash, ms, acts, Action.Apply(u), Unskewed(hash, promName, since, n, k));
    ms, acts := ms + [Do(hash, stamped, Action.Apply(u))], acts + [Action.Apply(u)];
  }

  lemma StampStep(hash: Labels -> Hash, m: Manager, u: WorkerId, n: string, k: DeltaKey, value: real)
    requires Lost(hash, m, n, k, value) && Unconcerned(hash, m, u, k) && m.workers[u].job.Translated? && m.workers[u].job.stamp.None?
    ensures var e := Do(hash, m, ReadClock(u));
      && Lost(hash, e, n, k, value) && Unconcerned(hash, e, u, k) && e.workers[u].job.Translated? && e.workers[u].job.stamp.Some?
      && e == m.(workers := e.workers) && e.workers == m.workers[u := e.workers[u]] && e.workers[u].(job := Idle) == m.workers[u].(job := Idle)
  {
    hide CacheSpec.Inv, Shows, Value;
  }

  lemma ApplyStep(hash: Labels -> Hash, m: Manager, u: WorkerId, n: string, k: DeltaKey, value: real)
    requires Lost(hash, m, n, k, value) && Unconcerned(hash, m, u, k) && m.workers[u].job.Translated? && m.workers[u].job.stamp.Some?
    ensures var e := Do(hash, m, Action.Apply(u));
      Lost(hash, e, n, k, value) && e.(store := m.store) == m.(workers := m.workers[u := m.workers[u].(job := Idle)])
  {
    hide CacheSpec.Inv, Applied;
    WorkerShows(hash, m, u, n, k);
  }

  /** Workers that hold a mutex hold it as before. */
  ghost predicate Calmer(m: Manager, e: Manager)
  {
    forall w :: w in e.workers && e.workers[w].job.Translated? ==> w in m.workers && m.workers[w] == e.workers[w]
  }

  /** The poller is idle, and otherwise itself. */
  ghost predicate Rested(m: Manager, e: Manager, v: WorkerId)
  {
    v in m.workers && v in e.workers && e.workers[v] == m.workers[v].(job := Idle)
  }

  lemma TranslateQuietly(hash: Labels -> Hash, m: Manager, v: WorkerId, n: string, k: DeltaKey, value: real)
    requires Lost(hash, m, n, k, value) && Unconcerned(hash, m, v, k) && Enabled(m, Action.Translate(v))
    ensures var e := Do(hash, m, Action.Translate(v));
      && Lost(hash, e, n, k, value) && Unconcerned(hash, e, v, k) && e.workers[v].job.Translated?
      && e.clock == m.clock && e.workers == m.workers[v := e.workers[v]] && e.workers[v].(job := Idle) == m.workers[v].(job := Idle)
  {
    var job := m.workers[v].job;
    NotConcernedNotCreated(hash, k, m.accs, job.md, job.series, m.clock);
    if job.md.typ == k.metricType {
      NothingSampled(hash, k, m.accs, job.md, job.series, m.clock);
    }
    hide CacheSpec.Inv, Shows, Value, TranslateSpec.Translate;
  }

  /** Another worker may hold the mutex the response waits for. */
  lemma FreeMutex(hash: Labels -> Hash, promName: string -> string, m: Manager, metricType: string, v: WorkerId, since: Time, n: string, k: DeltaKey, value: real)
      returns (ms: seq<Manager>, acts: seq<Action>)
    requires Lost(hash, m, n, k, value) && !Locked(m, k.metricType) && Mutex(m, metricType)
    requires v in m.workers && !m.workers[v].job.Translated?
    ensures RunOf(hash, ms, acts, Unskewed(hash, promName, since, n, k)) && ms[0] == m
    ensures var e := ms[|acts|];
      && Lost(hash, e, n, k, value) && e.clock == m.clock && !Locked(e, metricType) && Calmer(m, e)
      && v in e.workers && e.workers[v] == m.workers[v]
  {
    if Locked(m, metricType) {
      var u :| u in m.workers && m.workers[u].job.Translated? && m.workers[u].job.metricType == metricType;
      assert Pending(m, u, metricType);
      HoldsOther(hash, m, u, metricType, k);
      hide Lost, RunOf, Unskewed, Unconcerned;
      ms, acts := FinishTranslated(hash, promName, m, u, since, n, k, value);
      Freed(m, ms[|acts|], u, metricType);
    } else {
      hide Lost, RunOf, Unskewed;
      ms, acts := [m], [];
      NoStep(hash, m, Unskewed(hash, promName, since, n, k));
    }
  }

  lemma Freed(m: Manager, e: Manager, u: WorkerId, metricType: string)
    requires Mutex(m, metricType) && Pending(m, u, metricType)
    requires e.workers == m.workers[u := m.workers[u].(job := Idle)]
    ensures !Locked(e, metricType)
  {
    forall w | w in e.workers && e.workers[w].job.Translated? && e.workers[w].job.metricType == metricType
      ensures false
    {
      assert Pending(m, w, metricType);
    }
  }

  lemma HoldsOther(hash: Labels -> Hash, m: Manager, u: WorkerId, metricType: string, k: DeltaKey)
    requires Pending(m, u, metricType) && !Locked(m, k.metricType)
    ensures Unconcerned(hash, m, u, k)
  {}

  lemma FinishFetched(hash: Labels -> Hash, promName: string -> string, m: Manager, v: WorkerId, since: Time, n: string, k: DeltaKey, value: real)
      returns (ms: seq<Manager>, acts: seq<Action>)
    requires Lost(hash, m, n, k, value) && !Locked(m, k.metricType) && Unconcerned(hash, m, v, k)
    requires m.workers[v].job.Fetched? && Mutex(m, m.workers[v].job.md.typ)
    ensures RunOf(hash, ms, acts, Unskewed(hash, promName, since, n, k)) && ms[0] == m
    ensures var e := ms[|acts|]; Lost(hash, e, n, k, value) && e.clock == m.clock && Rested(m, e, v) && Calmer(m, e)
  {
    var ok := Unskewed(hash, promName, since, n, k);
    ms, acts := FreeMutex(hash, promName, m, m.workers[v].job.md.typ, v, since, n, k, value);
    var free := ms[|acts|];
    TranslateQuietly(hash, free, v, n, k, value);
    QuietStep(hash, promName, free, Action.Translate(v), since, n, k);
    var e := Do(hash, free, Action.Translate(v));
    hide Lost, RunOf, Unskewed, Unconcerned, Do, Enabled;
    OneMore(hash, ms, acts, Action.Translate(v), ok);
    ms, acts := ms + [e], acts + [Action.Translate(v)];
    var ns, more := FinishTranslated(hash, promName, e, v, since, n, k, value);
    ms, acts := Joined(hash, ms, acts, ns, more, ok);
  }

  /** The poller gets through with what it is doing. */
  lemma Finish(hash: Labels -> Hash, promName: string -> string, m: Manager, v: WorkerId, since: Time, n: string, k: DeltaKey, value: real)
      returns (ms: seq<Manager>, acts: seq<Action>)
    requires Lost(hash, m, n, k, value) && !Locked(m, k.metricType) && Unconcerned(hash, m, v, k)
    requires m.workers[v].job.Fetched? ==> Mutex(m, m.workers[v].job.md.typ)
    ensures RunOf(hash, ms, acts, Unskewed(hash, promName, since, n, k)) && ms[0] == m
    ensures var e := ms[|acts|]; Lost(hash, e, n, k, value) && e.clock == m.clock && Rested(m, e, v) && Calmer(m, e)
  {
    match m.workers[v].job {
      case Fetched(_, _, _, _, _) =>
        ms, acts := FinishFetched(hash, promName, m, v, since, n, k, value);
      case Translated(_, _, _) =>
        hide Lost, RunOf, Unskewed, Unconcerned;
        ms, acts := FinishTranslated(hash, promName, m, v, since, n, k, value);
      case Asked(_) =>
        QuietStep(hash, promName, m, FetchFails(v), since, n, k);
        NoStep(hash, m, Unskewed(hash, promName, since, n, k));
        OneMore(hash, [m], [], FetchFails(v), Unskewed(hash, promName, since, n, k));
        hide RunOf, Unskewed, Shows, Value, CacheSpec.Inv;
        ms, acts := [m] + [Do(hash, m, FetchFails(v))], [] + [FetchFails(v)];
      case Idle =>
        hide Lost, RunOf, Unskewed;
        ms, acts := [m], [];
        NoStep(hash, m, Unskewed(hash, promName, since, n, k));
    }
  }

  // ------------------------------------------- the next poll that shows nothing

  /** A window that opens after everything shown so far. */
  function LaterBy(m: Manager, window: Time): Time
  {
    Max(m.clock, ZERO_TIME) + window + 1
  }

  lemma ZeroPollShows(hash: Labels -> Hash, m: Manager, v: WorkerId, n: string, k: DeltaKey, labels: Labels)
    requires v in m.workers && Shows(m.store, n, k) && k !in m.accs && hash(labels) == k.labelsHash && m.clock > ZERO_TIME
    ensures var ms := PollStates(hash, m, v, k.metricType, n, [OneSeries(labels, m.clock, 0.0)], m.clock);
      && |ms| == 7 && ms[0] == m
      && (forall x :: 0 <= x < 7 ==> Shows(ms[x].store, n, k))
      && Value(Sum, ms[6].store, n, k) == 0.0
  {
    OnePointCommits(hash, m.accs, k.metricType, labels, m.clock, 0.0, m.clock);
    OneSampleShows(hash, m.store, k.metricType, n, labels, 0.0, m.clock, m.workers[v].cfg.maxSeries, m.clock);
    PollStores(hash, m, v, k.metricType, n, [OneSeries(labels, m.clock, 0.0)], m.clock);
    hide PollStates, TranslateSpec.Translate, CacheSpec.Apply, UpdateOf, Shows, Value;
  }

  lemma ZeroPollIsUnskewed(hash: Labels -> Hash, promName: string -> string, m: Manager, v: WorkerId, since: Time, n: string, k: DeltaKey, labels: Labels)
      returns (ms: seq<Manager>, acts: seq<Action>)
    requires PollsAs(promName, m, v, k.metricType, n) && IsIdle(m, v) && !Locked(m, k.metricType)
    requires Shows(m.store, n, k) && k !in m.accs && hash(labels) == k.labelsHash && m.clock > ZERO_TIME
    requires var window := PollWindow(m.workers[v].role.entry, CounterOf(k.metricType)); window > 0 && since <= m.clock - window
    ensures RunOf(hash, ms, acts, Unskewed(hash, promName, since, n, k)) && ms[0] == m
    ensures Shows(ms[|acts|].store, n, k) && Value(Sum, ms[|acts|].store, n, k) == 0.0
  {
    var series := [OneSeries(labels, m.clock, 0.0)];
    ms := PollStates(hash, m, v, k.metricType, n, series, m.clock);
    acts := PollActs(promName, m, v, k.metricType, series, m.clock);
    ZeroPollShows(hash, m, v, n, k, labels);
    FetchIsUnskewed(hash, promName, m, v, since, n, k, labels);
    TranslateIsUnskewed(hash, promName, m, v, since, n, k, labels);
    hide Unskewed, PollStates, PollActs, Shows, Value, Do, Enabled, Locked, PollsAs;
    forall e, a | Enabled(e, a) && e.store == m.store && Quiet(a)
      ensures Unskewed(hash, promName, since, n, k)(e, a)
    {
      QuietShows(m.store, e.store, n, k);
      QuietStep(hash, promName, e, a, since, n, k);
    }
    PollMeets(hash, promName, m, v, k.metricType, n, series, m.clock, Unskewed(hash, promName, since, n, k));
  }

  lemma QuietShows(store: StoreState, same: StoreState, n: string, k: DeltaKey)
    requires Shows(store, n, k) && same == store
    ensures Shows(same, n, k)
  {}

  lemma TranslateIsUnskewed(hash: Labels -> Hash, promName: string -> string, m: Manager, v: WorkerId, since: Time, n: string, k: DeltaKey, labels: Labels)
    requires v in m.workers && !Locked(m, k.metricType) && Shows(m.store, n, k)
    ensures var fetched := SetJob(m, v, Fetched(m.clock, m.clock, CounterOf(k.metricType), [OneSeries(labels, m.clock, 0.0)], n));
      Unskewed(hash, promName, since, n, k)(fetched, Action.Translate(v))
  {
    hide Enabled, Do, TranslateSpec.Translate, Unskewed;
    TranslateStep(hash, m, v, k.metricType, n, [OneSeries(labels, m.clock, 0.0)]);
    var fetched := SetJob(m, v, Fetched(m.clock, m.clock, CounterOf(k.metricType), [OneSeries(labels, m.clock, 0.0)], n));
    CommitIsUnskewed(hash, promName, fetched, v, since, n, k, OneSeries(labels, m.clock, 0.0));
  }

  lemma CommitIsUnskewed(hash: Labels -> Hash, promName: string -> string, m: Manager, v: WorkerId, since: Time, n: string, k: DeltaKey, ts: TimeSeries)
    requires Enabled(m, Action.Translate(v)) && Shows(m.store, n, k)
    requires m.workers[v].job.md == CounterOf(k.metricType) && m.workers[v].job.series == [ts] && |ts.points| == 1 && ts == OneSeries(ts.labels, ts.points[0].end, 0.0)
    ensures Unskewed(hash, promName, since, n, k)(m, Action.Translate(v))
  {
    hide Shows;
  }

  lemma FetchIsUnskewed(hash: Labels -> Hash, promName: string -> string, m: Manager, v: WorkerId, since: Time, n: string, k: DeltaKey, labels: Labels)
    requires v in m.workers && m.workers[v].role.Poller? && Serves(m.workers[v].role.entry, k.metricType) && Shows(m.store, n, k)
    requires var window := PollWindow(m.workers[v].role.entry, CounterOf(k.metricType)); window > 0 && since <= m.clock - window
    ensures var asked := SetJob(m, v, Asked(m.clock));
      var fetch := Fetch(v, m.clock, CounterOf(k.metricType), [OneSeries(labels, m.clock, 0.0)], promName(k.metricType));
      Enabled(asked, fetch) && Unskewed(hash, promName, since, n, k)(asked, fetch)
  {}

  /** Without its accumulator a cached series with a positive value falls: the
      poller gets through with what it is doing, and after a while its next poll
      finds one point of nothing for the series. */
  lemma LostAccumulatorFalls(hash: Labels -> Hash, promName: string -> string, m: Manager, v: WorkerId, n: string, k: DeltaKey)
    requires CacheSpec.Inv(hash, m.store) && Shows(m.store, n, k) && Value(Sum, m.store, n, k) > 0.0
    requires k !in m.accs && !Locked(m, k.metricType)
    requires PollsAs(promName, m, v, k.metricType, n) && m.workers[v].role.entry.lookback >= 0 && Unconcerned(hash, m, v, k)
    requires m.workers[v].job.Fetched? ==> Mutex(m, m.workers[v].job.md.typ)
    ensures CanFall(hash, promName, m, n, k)
  {
    var since, value, ok := m.clock, Value(Sum, m.store, n, k), Unskewed(hash, promName, m.clock, n, k);
    var ms, acts := Finish(hash, promName, m, v, since, n, k, value);
    var e := ms[|acts|];
    CalmerIsUnlocked(m, e, k.metricType);
    var window := PollWindow(e.workers[v].role.entry, CounterOf(k.metricType));
    var later := LaterBy(m, window);
    QuietStep(hash, promName, e, Tick(later), since, n, k);
    OneMore(hash, ms, acts, Tick(later), ok);
    var ticked := e.(clock := later);
    ms, acts := ms + [ticked], acts + [Tick(later)];
    var labels := e.store.families[n].series[k.labelsHash].labels;
    LabelsOfShown(hash, e.store, n, k);
    assert !Locked(ticked, k.metricType);
    var ns, more := ZeroPollIsUnskewed(hash, promName, ticked, v, since, n, k, labels);
    hide *;
    ms, acts := Joined(hash, ms, acts, ns, more, ok);
    CanFallBy(hash, promName, ms, acts, n, k);
  }

  lemma CalmerIsUnlocked(m: Manager, e: Manager, metricType: string)
    requires Calmer(m, e) && !Locked(m, metricType)
    ensures !Locked(e, metricType)
  {}

  /** At most one worker holds the mutex of a metric type in every reachable
      state. */
  lemma {:induction false} MutexInRun(hash: Labels -> Hash, ms: seq<Manager>, acts: seq<Action>, metricType: string, j: nat)
    requires Run(hash, ms, acts) && ms[0] == INITIAL && j < |ms|
    ensures Mutex(ms[j], metricType)
  {
    if j > 0 {
      MutexInRun(hash, ms, acts, metricType, j - 1);
      RunStep(hash, ms, acts, j - 1);
      StepKeepsMutex(hash, ms[j - 1], acts[j - 1], metricType);
    }
  }

  lemma StepKeepsMutex(hash: Labels -> Hash, m: Manager, a: Action, metricType: string)
    requires Enabled(m, a) && Mutex(m, metricType)
    ensures Mutex(Do(hash, m, a), metricType)
  {
    hide TranslateSpec.Translate, Applied, CacheRuns.Sweep, SweptType;
    var e := Do(hash, m, a);
    if a.Translate? && m.workers[a.w].job.md.typ == metricType {
      assert forall v :: Pending(e, v, metricType) ==> v == a.w || Pending(m, v, metricType);
    } else {
      assert forall v :: Pending(e, v, metricType) ==> Pending(m, v, metricType);
    }
  }

  /** Exactly when a sweep lets a served counter fall: it drops the accumulator
      of a series that is still cached with a positive value. Then the poller
      that names the family can show less by what the service may well answer,
      as soon as it is through with what it is doing; otherwise no run without
      another such sweep ever does. Only a response in hand that concerns the
      series could still restore the count. */
  lemma CounterCanFallIff(hash: Labels -> Hash, promName: string -> string, m: Manager, w: WorkerId, mt: string, v: WorkerId, n: string, k: DeltaKey)
    requires Safe(hash, Sum, m, k) && Enabled(m, SweepType(w, mt)) && Shows(m.store, n, k)
    requires PollsAs(promName, m, v, k.metricType, n) && m.workers[v].role.entry.lookback >= 0 && Unconcerned(hash, m, v, k)
    requires m.workers[v].job.Fetched? ==> Mutex(m, m.workers[v].job.md.typ)
    ensures CanFall(hash, promName, Do(hash, m, SweepType(w, mt)), n, k) <==>
      !SkewFree(m, SweepType(w, mt), k) && Value(Sum, m.store, n, k) > 0.0
  {
    hide CacheSpec.Inv, CanFall;
    var m' := Do(hash, m, SweepType(w, mt));
    SweepTypeIsSafe(hash, Sum, m, w, mt, k);
    if SkewFree(m, SweepType(w, mt), k) {
      SafeCannotFall(hash, promName, m', n, k);
    } else if Value(Sum, m.store, n, k) <= 0.0 {
      NothingCannotFall(hash, promName, m', n, k);
    } else {
      SweptStillPolls(hash, promName, m, w, mt, v, n, k);
      LostAccumulatorFalls(hash, promName, m', v, n, k);
    }
  }

  lemma SweptStillPolls(hash: Labels -> Hash, promName: string -> string, m: Manager, w: WorkerId, mt: string, v: WorkerId, n: string, k: DeltaKey)
    requires Enabled(m, SweepType(w, mt)) && !SkewFree(m, SweepType(w, mt), k)
    requires PollsAs(promName, m, v, k.metricType, n) && m.workers[v].role.entry.lookback >= 0 && Unconcerned(hash, m, v, k)
    requires m.workers[v].job.Fetched? ==> Mutex(m, m.workers[v].job.md.typ)
    ensures var m' := Do(hash, m, SweepType(w, mt));
      && k !in m'.accs && !Locked(m', k.metricType)
      && PollsAs(promName, m', v, k.metricType, n) && m'.workers[v].role.entry.lookback >= 0 && Unconcerned(hash, m', v, k)
      && (m'.workers[v].job.Fetched? ==> Mutex(m', m'.workers[v].job.md.typ))
  {
    var m' := Do(hash, m, SweepType(w, mt));
    assert forall u, t :: Pending(m', u, t) ==> Pending(m, u, t);
    assert w != v && m'.workers[v] == m.workers[v];
  }
}
