/** A run of the whole pipeline in which a served counter falls: the two clock
    readings of one poll lie on either side of a sweep's cutoff
    (internal/poll/manager.go). */
module LostRun {
  import opened Basics
  import opened DeltaLog
  import opened TranslateSpec
  import opened PollManager
  import opened Counters
  import opened Skew
  import opened Polling
  import opened Pipeline
  import LostCounts
  import CacheSpec
  import CacheRuns
  import GapFree

  const TYPE := "t"

  /** One metric type polled under its converted name, and a sweeper. */
  const CFG := Config([Entry(TYPE, "", "", 0)], 10, 200 * SECOND)

  const READING: Time := 100 * SECOND
  const SWEEPING: Time := READING + 1 + 200 * SECOND

  /** The service counts 5 in the first minute and nothing 250 seconds later, and
      shows both at once. */
  const STREAM: GapFree.Stream := [
    GapFree.StreamPoint(Point(50 * SECOND, DoubleValue(5.0)), 50 * SECOND),
    GapFree.StreamPoint(Point(SWEEPING, DoubleValue(0.0)), SWEEPING)]

  const SOURCE := Source(Scalar, STREAM, DELAY, PERIOD, 0)

  function KeyOf(hash: Labels -> Hash): DeltaKey
  {
    DeltaKey(TYPE, hash([]))
  }

  function Resting(clock: Time, accs: Accs, store: StoreState): (m: Manager)
    ensures 0 in m.workers && 1 in m.workers && m.workers[1] == Worker(1, CFG, Sweeper, Idle)
    ensures m.workers[0] == Worker(1, CFG, Poller(CFG.entries[0]), Idle)
  {
    Manager(clock, 1, false, Crew(1, CFG), accs, store)
  }

  /** Fetches are answered by the service and named by the metric type. */
  ghost function Real(hash: Labels -> Hash, promName: string -> string): Condition
  {
    (m: Manager, a: Action) =>
      && Enabled(m, a) && PolledAsCounter(hash, Sum, m, a, KeyOf(hash)) && Answered(hash, m, a, KeyOf(hash), SOURCE)
      && Named(promName, a)
  }

  predicate Named(promName: string -> string, a: Action)
  {
    a.Fetch? ==> a.converted == promName(a.md.typ)
  }

  /** While the series is cached. */
  ghost function RealAndShown(hash: Labels -> Hash, promName: string -> string): Condition
  {
    (m: Manager, a: Action) => Real(hash, promName)(m, a) && Shows(m.store, promName(TYPE), KeyOf(hash))
  }

  lemma RealStep(hash: Labels -> Hash, promName: string -> string, m: Manager, a: Action)
    requires Enabled(m, a) && !a.Fetch? && !a.Translate?
    ensures Real(hash, promName)(m, a)
    ensures Shows(m.store, promName(TYPE), KeyOf(hash)) ==> RealAndShown(hash, promName)(m, a)
  {
    hide Shows;
  }

  lemma SourceIsValid()
    ensures ValidSource(SOURCE)
  {}

  /** The two polls find one point each. */
  lemma Answers()
    ensures Answer(SOURCE, READING, READING) == [Point(50 * SECOND, DoubleValue(5.0))]
    ensures Answer(SOURCE, SWEEPING, SWEEPING) == [Point(SWEEPING, DoubleValue(0.0))]
  {
    var first := STREAM[..1];
    assert first[..0] == [];
    forall at: Time
      ensures var start, q := at - Window(SOURCE), GapFree.Query(at, at);
        GapFree.Response(STREAM, start, q) ==
          (if GapFree.Shows(start, q, STREAM[1]) then [STREAM[1].point] else []) + (if GapFree.Shows(start, q, STREAM[0]) then [STREAM[0].point] else [])
    {
      var start, q := at - Window(SOURCE), GapFree.Query(at, at);
      assert GapFree.Response(first, start, q) == (if GapFree.Shows(start, q, STREAM[0]) then [STREAM[0].point] else []) + GapFree.Response([], start, q);
    }
  }

  /** A poll at rest that finds the point ending at `end`. */
  lemma RealPoll(hash: Labels -> Hash, promName: string -> string, m: Manager, end: Time, value: real, later: Time)
    requires m == Resting(m.clock, m.accs, m.store) && later >= m.clock && value >= 0.0
    requires Answer(SOURCE, m.clock, m.clock) == [Point(end, DoubleValue(value))]
    ensures RunOf(hash, PollStates(hash, m, 0, TYPE, promName(TYPE), [OneSeries([], end, value)], later),
      PollActs(promName, m, 0, TYPE, [OneSeries([], end, value)], later), Real(hash, promName))
    ensures Shows(m.store, promName(TYPE), KeyOf(hash)) ==>
      RunOf(hash, PollStates(hash, m, 0, TYPE, promName(TYPE), [OneSeries([], end, value)], later),
        PollActs(promName, m, 0, TYPE, [OneSeries([], end, value)], later), RealAndShown(hash, promName))
  {
    assert !Locked(m, TYPE);
    assert PollsAs(promName, m, 0, TYPE, promName(TYPE));
    RealFetch(hash, promName, m, end, value);
    RealCommit(hash, promName, m, end, value);
    hide Real, RealAndShown, Shows, Enabled, Locked, PollStates, PollActs, Resting, PollsAs;
    forall e, a | Enabled(e, a) && e.store == m.store && Quiet(a)
      ensures Real(hash, promName)(e, a)
      ensures Shows(m.store, promName(TYPE), KeyOf(hash)) ==> RealAndShown(hash, promName)(e, a)
    {
      RealStep(hash, promName, e, a);
    }
    PollMeets(hash, promName, m, 0, TYPE, promName(TYPE), [OneSeries([], end, value)], later, Real(hash, promName));
    if Shows(m.store, promName(TYPE), KeyOf(hash)) {
      PollMeets(hash, promName, m, 0, TYPE, promName(TYPE), [OneSeries([], end, value)], later, RealAndShown(hash, promName));
    }
  }

  lemma RealFetch(hash: Labels -> Hash, promName: string -> string, m: Manager, end: Time, value: real)
    requires m == Resting(m.clock, m.accs, m.store)
    requires Answer(SOURCE, m.clock, m.clock) == [Point(end, DoubleValue(value))]
    ensures var asked := SetJob(m, 0, Asked(m.clock));
      var fetch := Fetch(0, m.clock, CounterOf(TYPE), [OneSeries([], end, value)], promName(TYPE));
      && Real(hash, promName)(asked, fetch)
      && (Shows(m.store, promName(TYPE), KeyOf(hash)) ==> RealAndShown(hash, promName)(asked, fetch))
  {
    assert ListsAt(hash, KeyOf(hash), CounterOf(TYPE), [OneSeries([], end, value)], [Point(end, DoubleValue(value))], 0);
    assert Lists(hash, KeyOf(hash), CounterOf(TYPE), [OneSeries([], end, value)], [Point(end, DoubleValue(value))]);
    hide Lists, Answer, Shows;
  }

  lemma RealCommit(hash: Labels -> Hash, promName: string -> string, m: Manager, end: Time, value: real)
    requires m == Resting(m.clock, m.accs, m.store) && value >= 0.0
    ensures var fetched := SetJob(m, 0, Fetched(m.clock, m.clock, CounterOf(TYPE), [OneSeries([], end, value)], promName(TYPE)));
      && Real(hash, promName)(fetched, Action.Translate(0))
      && (Shows(m.store, promName(TYPE), KeyOf(hash)) ==> RealAndShown(hash, promName)(fetched, Action.Translate(0)))
  {
    var series := [OneSeries([], end, value)];
    assert !Locked(m, TYPE);
    hide Enabled, Do, TranslateSpec.Translate, Real, RealAndShown, Shows, Locked;
    TranslateStep(hash, m, 0, TYPE, promName(TYPE), series);
    CommitIsReal(hash, promName, SetJob(m, 0, Fetched(m.clock, m.clock, CounterOf(TYPE), series, promName(TYPE))), end, value);
  }

  lemma CommitIsReal(hash: Labels -> Hash, promName: string -> string, m: Manager, end: Time, value: real)
    requires Enabled(m, Action.Translate(0)) && value >= 0.0
    requires m.workers[0].job.md == CounterOf(TYPE) && m.workers[0].job.series == [OneSeries([], end, value)]
    ensures Real(hash, promName)(m, Action.Translate(0))
    ensures Shows(m.store, promName(TYPE), KeyOf(hash)) ==> RealAndShown(hash, promName)(m, Action.Translate(0))
  {
    hide Shows;
  }

  lemma FirstSampleShows(hash: Labels -> Hash, n: string, value: real, end: Time, now: Time)
    ensures var upd := UpdateOf(n, TYPE, [Sample([], value, None, end)]);
      var store := CacheSpec.Apply(hash, CacheSpec.Empty(), TYPE, upd, 10, now).0;
      Shows(store, n, KeyOf(hash)) && Value(Sum, store, n, KeyOf(hash)) == value && CachedSeen(store, n, KeyOf(hash)) == now
  {
    var upd := UpdateOf(n, TYPE, [Sample([], value, None, end)]);
    var put := CacheSpec.Put(CacheSpec.Empty(), n, CacheSpec.Opened(CacheSpec.Empty(), TYPE, upd));
    assert upd.samples[..0] == [];
    assert CacheSpec.ApplySamples(hash, put, n, [], 10, now).0 == put;
  }

  lemma BeginRun(hash: Labels -> Hash, promName: string -> string) returns (ms: seq<Manager>, acts: seq<Action>)
    ensures RunOf(hash, ms, acts, Real(hash, promName)) && ms[0] == INITIAL && |acts| > 0 && acts[0] == Start(CFG)
    ensures ms[|acts|] == Resting(READING, map[], CacheSpec.Empty())
  {
    var ok := Real(hash, promName);
    var first := Do(hash, INITIAL, Start(CFG));
    NoStep(hash, INITIAL, ok);
    RealStep(hash, promName, INITIAL, Start(CFG));
    RealStep(hash, promName, first, Tick(READING));
    hide Real;
    OneMore(hash, [INITIAL], [], Start(CFG), ok);
    OneMore(hash, [INITIAL] + [first], [] + [Start(CFG)], Tick(READING), ok);
    ms, acts := [INITIAL] + [first] + [Do(hash, first, Tick(READING))], [] + [Start(CFG)] + [Tick(READING)];
  }

  /** The first poll: it reads the clock at READING, and once more a nanosecond
      later. */
  function Polled(hash: Labels -> Hash, promName: string -> string): Manager
  {
    PollStates(hash, Resting(READING, map[], CacheSpec.Empty()), 0, TYPE, promName(TYPE), [OneSeries([], 50 * SECOND, 5.0)], READING + 1)[6]
  }

  lemma PolledShowsFive(hash: Labels -> Hash, promName: string -> string)
    ensures var m, k, n := Polled(hash, promName), KeyOf(hash), promName(TYPE);
      && m == Resting(READING + 1, map[k := Acc(50 * SECOND, READING, 5.0, None)], m.store)
      && Shows(m.store, n, k) && Value(Sum, m.store, n, k) == 5.0 && CachedSeen(m.store, n, k) == READING + 1
  {
    var m := Resting(READING, map[], CacheSpec.Empty());
    PollStores(hash, m, 0, TYPE, promName(TYPE), [OneSeries([], 50 * SECOND, 5.0)], READING + 1);
    OnePointCommits(hash, map[], TYPE, [], 50 * SECOND, 5.0, READING);
    FirstSampleShows(hash, promName(TYPE), 5.0, 50 * SECOND, READING + 1);
    hide PollStates, TranslateSpec.Translate, CacheSpec.Apply;
  }

  /** The states of a sweep. */
  ghost function SweepStates(m: Manager): (ms: seq<Manager>)
    requires 1 in m.workers
    ensures |ms| == 6
  {
    var cutoff := SWEEPING - 200 * SECOND;
    var ticked := m.(clock := SWEEPING);
    var swept := ticked.(store := CacheRuns.Sweep(m.store, cutoff));
    [ m,
      ticked,
      SetJob(ticked, 1, SweepPlanned(cutoff)),
      SetJob(swept, 1, SweepTypes(cutoff, {TYPE})),
      SetJob(swept, 1, SweepTypes(cutoff, {})).(accs := map[]),
      swept.(accs := map[]) ]
  }

  const SWEEP_ACTS: seq<Action> := [Tick(SWEEPING), PlanSweep(1), SweepStore(1, {TYPE}), SweepType(1, TYPE), EndSweep(1)]

  lemma SweepPlans(hash: Labels -> Hash, m: Manager)
    requires m == Resting(m.clock, m.accs, m.store) && m.clock <= SWEEPING
    ensures var ms := SweepStates(m);
      && Enabled(m, Tick(SWEEPING)) && ms[1] == Do(hash, m, Tick(SWEEPING))
      && Enabled(ms[1], PlanSweep(1)) && ms[2] == Do(hash, ms[1], PlanSweep(1))
  {
    hide CacheRuns.Sweep;
  }

  lemma SweepsStore(hash: Labels -> Hash, m: Manager)
    requires 1 in m.workers && MetricTypes(m.accs) <= {TYPE}
    ensures var ms := SweepStates(m);
      Enabled(ms[2], SweepStore(1, {TYPE})) && ms[3] == Do(hash, ms[2], SweepStore(1, {TYPE}))
  {
    hide CacheRuns.Sweep;
  }

  lemma SweepDrops(hash: Labels -> Hash, m: Manager)
    requires m == Resting(m.clock, m.accs, m.store)
    requires forall k :: k in m.accs ==> k.metricType == TYPE && m.accs[k].lastSeen < SWEEPING - 200 * SECOND
    ensures var ms := SweepStates(m);
      && Enabled(ms[3], SweepType(1, TYPE)) && ms[4] == Do(hash, ms[3], SweepType(1, TYPE))
      && Enabled(ms[4], EndSweep(1)) && ms[5] == Do(hash, ms[4], EndSweep(1))
  {
    hide CacheRuns.Sweep;
    var ms := SweepStates(m);
    assert SweptType(m.accs, TYPE, SWEEPING - 200 * SECOND) == map[];
    assert {TYPE} - {TYPE} == {};
    assert !Locked(ms[3], TYPE);
    assert m.workers[1 := m.workers[1].(job := Idle)] == m.workers;
  }

  lemma SeriesSurvives(store: StoreState, cutoff: Time, n: string, k: DeltaKey)
    requires Shows(store, n, k) && CachedSeen(store, n, k) >= cutoff
    ensures var store' := CacheRuns.Sweep(store, cutoff); Shows(store', n, k) && Value(Sum, store', n, k) == Value(Sum, store, n, k)
  {
    CacheRuns.SweepKeepsTheLive(store, cutoff, n, k.labelsHash);
  }

  /** The sweep keeps the series and drops its accumulator. */
  lemma SweepRuns(hash: Labels -> Hash, promName: string -> string, m: Manager) returns (ms: seq<Manager>, acts: seq<Action>)
    requires m == Polled(hash, promName)
    ensures RunOf(hash, ms, acts, RealAndShown(hash, promName)) && ms[0] == m
    ensures var e := ms[|acts|]; e == Resting(SWEEPING, map[], e.store) && Shows(e.store, promName(TYPE), KeyOf(hash))
  {
    var n, k := promName(TYPE), KeyOf(hash);
    PolledShowsFive(hash, promName);
    SeriesSurvives(m.store, SWEEPING - 200 * SECOND, n, k);
    hide Polled, Shows, Value, CachedSeen, CacheRuns.Sweep;
    ms, acts := SweepMeets(hash, promName, m);
  }

  lemma SweepMeets(hash: Labels -> Hash, promName: string -> string, m: Manager) returns (ms: seq<Manager>, acts: seq<Action>)
    requires m == Resting(m.clock, m.accs, m.store) && m.clock <= SWEEPING
    requires forall k :: k in m.accs ==> k.metricType == TYPE && m.accs[k].lastSeen < SWEEPING - 200 * SECOND
    requires Shows(m.store, promName(TYPE), KeyOf(hash))
    requires Shows(CacheRuns.Sweep(m.store, SWEEPING - 200 * SECOND), promName(TYPE), KeyOf(hash))
    ensures RunOf(hash, ms, acts, RealAndShown(hash, promName)) && ms[0] == m
    ensures ms[|acts|] == Resting(SWEEPING, map[], CacheRuns.Sweep(m.store, SWEEPING - 200 * SECOND))
  {
    SweepIsRun(hash, m);
    ms, acts := SweepStates(m), SWEEP_ACTS;
    SweepShown(m, promName(TYPE), KeyOf(hash));
    RestingAfter(m, SWEEPING, map[], CacheRuns.Sweep(m.store, SWEEPING - 200 * SECOND));
    hide *;
    SweepIsReal(hash, promName, ms, acts);
  }

  lemma RestingAfter(m: Manager, clock: Time, accs: Accs, store: StoreState)
    requires m == Resting(m.clock, m.accs, m.store)
    ensures m.(clock := clock, accs := accs, store := store) == Resting(clock, accs, store)
  {}

  lemma SweepIsReal(hash: Labels -> Hash, promName: string -> string, ms: seq<Manager>, acts: seq<Action>)
    requires Run(hash, ms, acts) && acts == SWEEP_ACTS && |ms| == 6
    requires forall i :: 0 <= i < 6 ==> Shows(ms[i].store, promName(TYPE), KeyOf(hash))
    ensures RunOf(hash, ms, acts, RealAndShown(hash, promName))
  {
    hide Shows, Real, RealAndShown, Do, Enabled;
    forall i | 0 <= i < |acts|
      ensures RealAndShown(hash, promName)(ms[i], acts[i])
    {
      RealStep(hash, promName, ms[i], acts[i]);
    }
    RunMeets(hash, ms, acts, RealAndShown(hash, promName));
  }

  lemma SweepIsRun(hash: Labels -> Hash, m: Manager)
    requires m == Resting(m.clock, m.accs, m.store) && m.clock <= SWEEPING
    requires forall k :: k in m.accs ==> k.metricType == TYPE && m.accs[k].lastSeen < SWEEPING - 200 * SECOND
    ensures Run(hash, SweepStates(m), SWEEP_ACTS)
  {
    SweepPlans(hash, m);
    SweepsStore(hash, m);
    SweepDrops(hash, m);
    hide CacheRuns.Sweep, Do, Enabled, SweepStates;
    var ms := SweepStates(m);
    forall i | 0 <= i < |SWEEP_ACTS|
      ensures Enabled(ms[i], SWEEP_ACTS[i]) && ms[i + 1] == Do(hash, ms[i], SWEEP_ACTS[i])
    {}
  }

  lemma SweepShown(m: Manager, n: string, k: DeltaKey)
    requires 1 in m.workers && Shows(m.store, n, k) && Shows(CacheRuns.Sweep(m.store, SWEEPING - 200 * SECOND), n, k)
    ensures forall i :: 0 <= i < 6 ==> Shows(SweepStates(m)[i].store, n, k)
    ensures SweepStates(m)[0] == m
    ensures SweepStates(m)[5] == m.(clock := SWEEPING, accs := map[], store := CacheRuns.Sweep(m.store, SWEEPING - 200 * SECOND))
  {
    hide Shows, CacheRuns.Sweep;
  }

  /** The second poll finds nothing more, and counts from nothing. */
  lemma SecondPollShowsZero(hash: Labels -> Hash, promName: string -> string, m: Manager) returns (ms: seq<Manager>, acts: seq<Action>)
    requires m == Resting(SWEEPING, map[], m.store) && Shows(m.store, promName(TYPE), KeyOf(hash))
    ensures RunOf(hash, ms, acts, RealAndShown(hash, promName)) && ms[0] == m
    ensures var e := ms[|acts|]; Shows(e.store, promName(TYPE), KeyOf(hash)) && Value(Sum, e.store, promName(TYPE), KeyOf(hash)) == 0.0
  {
    Answers();
    assert m.clock == SWEEPING && m.accs == map[];
    hide Answer, Real, RealAndShown, Shows, Value, PollStates, PollActs, Resting, RunOf;
    RealPoll(hash, promName, m, SWEEPING, 0.0, SWEEPING);
    ms := PollStates(hash, m, 0, TYPE, promName(TYPE), [OneSeries([], SWEEPING, 0.0)], m.clock);
    acts := PollActs(promName, m, 0, TYPE, [OneSeries([], SWEEPING, 0.0)], SWEEPING);
    LostCounts.ZeroPollShows(hash, m, 0, promName(TYPE), KeyOf(hash), []);
  }

  lemma ShownWithin(hash: Labels -> Hash, promName: string -> string, ns: seq<Manager>, more: seq<Action>)
    requires RunOf(hash, ns, more, RealAndShown(hash, promName))
    requires Shows(ns[|more|].store, promName(TYPE), KeyOf(hash))
    ensures RunOf(hash, ns, more, Real(hash, promName))
    ensures ShownThroughout(ns, promName(TYPE), KeyOf(hash), 0, |more|)
  {
    hide Do, Enabled, Shows, Real, Steps;
    forall i | 0 <= i < |more|
      ensures Steps(hash, ns[i], more[i], ns[i + 1], Real(hash, promName)) && Shows(ns[i].store, promName(TYPE), KeyOf(hash))
    {
      StepAt(hash, ns, more, RealAndShown(hash, promName), i);
      StepsBy(hash, ns[i], more[i], ns[i + 1], Real(hash, promName));
    }
    RunOfSteps(hash, ns, more, RealAndShown(hash, promName), Real(hash, promName));
  }

  /** What the run says of the service and the names. */
  lemma RealRun(hash: Labels -> Hash, promName: string -> string, ms: seq<Manager>, acts: seq<Action>)
    requires RunOf(hash, ms, acts, Real(hash, promName))
    ensures |ms| == |acts| + 1 && Run(hash, ms, acts)
    ensures AlwaysAnswered(hash, ms, acts, KeyOf(hash), SOURCE) && CounterPolls(hash, Sum, ms, acts, KeyOf(hash))
    ensures forall x :: 0 <= x < |acts| ==> Named(promName, acts[x])
  {
    RunOfIsRun(hash, ms, acts, Real(hash, promName));
    hide Do, Enabled, RunOf, Run, Answered, PolledAsCounter, Named;
    forall i | 0 <= i < |acts|
      ensures Enabled(ms[i], acts[i]) && Answered(hash, ms[i], acts[i], KeyOf(hash), SOURCE)
      ensures PolledAsCounter(hash, Sum, ms[i], acts[i], KeyOf(hash)) && Named(promName, acts[i])
    {
      StepAt(hash, ms, acts, Real(hash, promName), i);
    }
  }

  /** From the second clock reading of the first poll on, the series stays shown,
      and what it shows falls from 5 to nothing. */
  lemma FallingPart(hash: Labels -> Hash, promName: string -> string) returns (ms: seq<Manager>, acts: seq<Action>)
    ensures RunOf(hash, ms, acts, Real(hash, promName)) && ms[0] == Polled(hash, promName)
    ensures ShownThroughout(ms, promName(TYPE), KeyOf(hash), 0, |acts|)
    ensures Value(Sum, ms[0].store, promName(TYPE), KeyOf(hash)) == 5.0
    ensures Value(Sum, ms[|acts|].store, promName(TYPE), KeyOf(hash)) == 0.0
  {
    PolledShowsFive(hash, promName);
    hide Polled, Steps, Real, RealAndShown, Shows, Value, Resting, CachedSeen;
    ms, acts := SweepRuns(hash, promName, Polled(hash, promName));
    var ns, more := SecondPollShowsZero(hash, promName, ms[|acts|]);
    ms, acts := Joined(hash, ms, acts, ns, more, RealAndShown(hash, promName));
    ShownWithin(hash, promName, ms, acts);
  }

  lemma FirstPart(hash: Labels -> Hash, promName: string -> string) returns (ms: seq<Manager>, acts: seq<Action>)
    ensures RunOf(hash, ms, acts, Real(hash, promName)) && ms[0] == INITIAL && |acts| > 0 && acts[0] == Start(CFG)
    ensures ms[|acts|] == Polled(hash, promName)
  {
    var m := Resting(READING, map[], CacheSpec.Empty());
    Answers();
    RealPoll(hash, promName, m, 50 * SECOND, 5.0, READING + 1);
    PollStores(hash, m, 0, TYPE, promName(TYPE), [OneSeries([], 50 * SECOND, 5.0)], READING + 1);
    hide RunOf, Real, RealAndShown, Shows, Answer, Resting, PollStates, TranslateSpec.Translate, CacheSpec.Apply;
    var ns := PollStates(hash, m, 0, TYPE, promName(TYPE), [OneSeries([], 50 * SECOND, 5.0)], READING + 1);
    var more := PollActs(promName, m, 0, TYPE, [OneSeries([], 50 * SECOND, 5.0)], READING + 1);
    ms, acts := BeginRun(hash, promName);
    ms, acts := Joined(hash, ms, acts, ns, more, Real(hash, promName));
  }

  /** A run of the whole pipeline, with a configuration the proxy accepts and
      every fetch answered by one valid stream, over which a served counter
      falls. A poll reads the clock at 100 seconds and once more a nanosecond
      later, and shows 5; a sweep of staleness 200 seconds has its cutoff at the
      later reading, keeps the series and drops its accumulator; the next poll
      finds a point without increments and shows nothing. */
  lemma SkewLosesTheCount(hash: Labels -> Hash, promName: string -> string) returns (ms: seq<Manager>, acts: seq<Action>, i: nat)
    ensures |ms| == |acts| + 1 && Run(hash, ms, acts) && ms[0] == INITIAL
    ensures |acts| > 0 && acts[0] == Start(CFG) && CFG.staleAfter >= 60 * SECOND
    ensures ValidSource(SOURCE) && AlwaysAnswered(hash, ms, acts, KeyOf(hash), SOURCE)
    ensures CounterPolls(hash, Sum, ms, acts, KeyOf(hash)) && forall x :: 0 <= x < |acts| ==> Named(promName, acts[x])
    ensures i <= |acts| && ShownThroughout(ms, promName(TYPE), KeyOf(hash), i, |acts|)
    ensures Shows(ms[i].store, promName(TYPE), KeyOf(hash)) && Value(Sum, ms[i].store, promName(TYPE), KeyOf(hash)) == 5.0
    ensures Shows(ms[|acts|].store, promName(TYPE), KeyOf(hash)) && Value(Sum, ms[|acts|].store, promName(TYPE), KeyOf(hash)) == 0.0
  {
    SourceIsValid();
    hide Steps, Real, Polled, Shows, Value, AlwaysAnswered, CounterPolls, Run, ValidSource;
    var head, before := FirstPart(hash, promName);
    var tail, after := FallingPart(hash, promName);
    ms, acts := Joined(hash, head, before, tail, after, Real(hash, promName));
    RealRun(hash, promName, ms, acts);
    i := |before|;
    JoinedShows(head, tail, i, |after|, promName(TYPE), KeyOf(hash));
  }

  lemma JoinedShows(head: seq<Manager>, tail: seq<Manager>, i: nat, j: nat, n: string, k: DeltaKey)
    requires |head| == i + 1 && |tail| == j + 1 && head[i] == tail[0] && ShownThroughout(tail, n, k, 0, j)
    ensures var all := head + tail[1..];
      && ShownThroughout(all, n, k, i, i + j) && all[i] == tail[0] && all[i + j] == tail[j]
      && Shows(all[i].store, n, k) && Shows(all[i + j].store, n, k)
  {
    hide Shows;
    var all := head + tail[1..];
    assert forall x :: i <= x <= i + j ==> all[x] == tail[x - i];
  }
}
