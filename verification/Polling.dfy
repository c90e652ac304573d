/** Runs of the poll manager put together step by step, and a poll that finds
    one point. */
module Polling {
  import opened Basics
  import opened Histograms
  import opened DeltaLog
  import opened TranslateSpec
  import opened PollManager
  import opened Counters
  import CacheSpec

  type Condition = (Manager, Action) -> bool

  ghost predicate Steps(hash: Labels -> Hash, m: Manager, a: Action, m': Manager, ok: Condition)
  {
    Enabled(m, a) && ok(m, a) && m' == Do(hash, m, a)
  }

  ghost predicate RunOf(hash: Labels -> Hash, ms: seq<Manager>, acts: seq<Action>, ok: Condition)
  {
    |ms| == |acts| + 1 && forall i :: 0 <= i < |acts| ==> Steps(hash, ms[i], acts[i], ms[i + 1], ok)
  }

  lemma NoStep(hash: Labels -> Hash, m: Manager, ok: Condition)
    ensures RunOf(hash, [m], [], ok)
  {}

  /** One step more. */
  lemma OneMore(hash: Labels -> Hash, ms: seq<Manager>, acts: seq<Action>, a: Action, ok: Condition)
    requires RunOf(hash, ms, acts, ok) && Enabled(ms[|acts|], a) && ok(ms[|acts|], a)
    ensures RunOf(hash, ms + [Do(hash, ms[|acts|], a)], acts + [a], ok)
  {
    hide Do, Enabled;
  }

  /** One run after another. */
  lemma Joined(hash: Labels -> Hash, ms: seq<Manager>, acts: seq<Action>, ns: seq<Manager>, more: seq<Action>, ok: Condition)
      returns (all: seq<Manager>, both: seq<Action>)
    requires RunOf(hash, ms, acts, ok) && RunOf(hash, ns, more, ok) && ms[|acts|] == ns[0]
    ensures all == ms + ns[1..] && both == acts + more && RunOf(hash, all, both, ok)
    ensures all[0] == ms[0] && all[|both|] == ns[|more|]
  {
    hide Steps;
    all, both := ms + ns[1..], acts + more;
    assert forall i :: |acts| <= i < |all| ==> all[i] == ns[i - |acts|];
    assert forall i :: |acts| <= i < |both| ==> both[i] == more[i - |acts|];
    forall i | 0 <= i < |both|
      ensures Steps(hash, all[i], both[i], all[i + 1], ok)
    {
      if i >= |acts| {
        assert Steps(hash, ns[i - |acts|], more[i - |acts|], ns[i - |acts| + 1], ok);
      } else {
        assert Steps(hash, ms[i], acts[i], ms[i + 1], ok);
      }
    }
  }

  lemma StepAt(hash: Labels -> Hash, ms: seq<Manager>, acts: seq<Action>, ok: Condition, i: nat)
    requires RunOf(hash, ms, acts, ok) && i < |acts|
    ensures Enabled(ms[i], acts[i]) && ok(ms[i], acts[i]) && ms[i + 1] == Do(hash, ms[i], acts[i])
  {
    hide Do, Enabled;
    assert Steps(hash, ms[i], acts[i], ms[i + 1], ok);
  }

  lemma StepsBy(hash: Labels -> Hash, m: Manager, a: Action, m': Manager, ok: Condition)
    requires Enabled(m, a) && ok(m, a) && m' == Do(hash, m, a)
    ensures Steps(hash, m, a, m', ok)
  {}

  /** The same run under another condition. */
  lemma RunOfSteps(hash: Labels -> Hash, ms: seq<Manager>, acts: seq<Action>, ok: Condition, other: Condition)
    requires RunOf(hash, ms, acts, ok)
    requires forall i :: 0 <= i < |acts| && i + 1 < |ms| ==> Steps(hash, ms[i], acts[i], ms[i + 1], other)
    ensures RunOf(hash, ms, acts, other)
  {
    hide Steps;
  }

  lemma RunOfIsRun(hash: Labels -> Hash, ms: seq<Manager>, acts: seq<Action>, ok: Condition)
    requires RunOf(hash, ms, acts, ok)
    ensures Run(hash, ms, acts)
  {
    hide Do, Enabled;
    forall i | 0 <= i < |acts|
      ensures Enabled(ms[i], acts[i]) && ms[i + 1] == Do(hash, ms[i], acts[i])
    {
      StepAt(hash, ms, acts, ok, i);
    }
  }

  lemma RunMeets(hash: Labels -> Hash, ms: seq<Manager>, acts: seq<Action>, ok: Condition)
    requires Run(hash, ms, acts) && forall i :: 0 <= i < |acts| ==> ok(ms[i], acts[i])
    ensures RunOf(hash, ms, acts, ok)
  {
    hide Do, Enabled;
  }

  // ------------------------------------------------- a poll that finds one point

  const DELAY: Time := 60 * SECOND
  const PERIOD: Time := 60 * SECOND

  function CounterOf(metricType: string): MetricDescriptor
  {
    MetricDescriptor(metricType, "", DeltaKind, DoubleType, DELAY, PERIOD)
  }

  function OneSeries(labels: Labels, end: Time, v: real): TimeSeries
  {
    TimeSeries(labels, DeltaKind, DoubleType, [Point(end, DoubleValue(v))])
  }

  function UpdateOf(name: string, metricType: string, samples: Samples): Update
  {
    FamilyUpdate(name, "", FamilyKind(CounterOf(metricType)), samples)
  }

  lemma OnePointCommits(hash: Labels -> Hash, accs: Accs, metricType: string, labels: Labels, end: Time, v: real, now: Time)
    requires end > AccOf(accs, DeltaKey(metricType, hash(labels))).lastEnd
    ensures var t := TranslateSpec.Translate(hash, accs, CounterOf(metricType), [OneSeries(labels, end, v)], now);
      var k := DeltaKey(metricType, hash(labels));
      var a := AccOf(accs, k);
      && t.accs == accs[k := Acc(end, now, a.sum + v, a.hist)]
      && t.samples == [Sample(labels, a.sum + v, None, end)]
  {
    hide *;
    OneSeriesCommits(hash, accs, metricType, labels, end, v, now);
    NothingTranslates(hash, accs, CounterOf(metricType), now);
    TranslateSnoc(hash, accs, CounterOf(metricType), [], OneSeries(labels, end, v), now);
    assert [] + [OneSeries(labels, end, v)] == [OneSeries(labels, end, v)];
  }

  lemma OneSeriesCommits(hash: Labels -> Hash, accs: Accs, metricType: string, labels: Labels, end: Time, v: real, now: Time)
    requires end > AccOf(accs, DeltaKey(metricType, hash(labels))).lastEnd
    ensures var out := SeriesOutcome(hash, accs, CounterOf(metricType), OneSeries(labels, end, v), now);
      var k := DeltaKey(metricType, hash(labels));
      var a := AccOf(accs, k);
      && out.accs == accs[k := Acc(end, now, a.sum + v, a.hist)]
      && out.sample == Some(Sample(labels, a.sum + v, None, end))
  {
    var k := DeltaKey(metricType, hash(labels));
    var a := Seen(accs, k, now);
    assert a == AccOf(accs, k).(lastSeen := now);
    OnePointFolds(a, end, v);
    hide FoldScalar;
  }

  lemma NothingTranslates(hash: Labels -> Hash, accs: Accs, md: MetricDescriptor, now: Time)
    ensures TranslateSpec.Translate(hash, accs, md, [], now) == Translation(accs, [], NO_STATS)
  {}

  lemma OnePointFolds(a: Acc, end: Time, v: real)
    requires end > a.lastEnd
    ensures FoldScalar(a, [Point(end, DoubleValue(v))]) == (a.(sum := a.sum + v, lastEnd := end), true)
  {
    assert [Point(end, DoubleValue(v))][..0] == [];
  }

  /** A poller that serves the metric type and names its family so. */
  predicate PollsAs(promName: string -> string, m: Manager, v: WorkerId, metricType: string, name: string)
  {
    && v in m.workers && m.workers[v].role.Poller?
    && Serves(m.workers[v].role.entry, metricType) && NameFor(m.workers[v].role.entry, promName(metricType)) == name
  }

  predicate IsIdle(m: Manager, v: WorkerId)
  {
    v in m.workers && m.workers[v].job.Idle?
  }

  function PollActs(promName: string -> string, m: Manager, v: WorkerId, metricType: string, series: seq<TimeSeries>, later: Time): seq<Action>
  {
    [Ask(v), Fetch(v, m.clock, CounterOf(metricType), series, promName(metricType)), Action.Translate(v), Tick(later), ReadClock(v), Action.Apply(v)]
  }

  /** The states of a poll that runs from `m`, its second clock reading at
      `later`. */
  function PollStates(hash: Labels -> Hash, m: Manager, v: WorkerId, metricType: string, name: string, series: seq<TimeSeries>, later: Time): (ms: seq<Manager>)
    requires v in m.workers
    ensures |ms| == 7
  {
    var t := TranslateSpec.Translate(hash, m.accs, CounterOf(metricType), series, m.clock);
    var upd := UpdateOf(name, metricType, t.samples);
    var store := CacheSpec.Apply(hash, m.store, metricType, upd, m.workers[v].cfg.maxSeries, later).0;
    [ m,
      SetJob(m, v, Asked(m.clock)),
      SetJob(m, v, Fetched(m.clock, m.clock, CounterOf(metricType), series, name)),
      SetJob(m, v, Translated(metricType, upd, None)).(accs := t.accs),
      SetJob(m, v, Translated(metricType, upd, None)).(accs := t.accs, clock := later),
      SetJob(m, v, Translated(metricType, upd, Some(later))).(accs := t.accs, clock := later),
      m.(accs := t.accs, clock := later, store := store) ]
  }

  lemma FetchSteps(hash: Labels -> Hash, promName: string -> string, m: Manager, v: WorkerId, metricType: string, name: string, series: seq<TimeSeries>)
    requires PollsAs(promName, m, v, metricType, name) && IsIdle(m, v)
    ensures Enabled(m, Ask(v)) && Do(hash, m, Ask(v)) == SetJob(m, v, Asked(m.clock))
    ensures var asked := SetJob(m, v, Asked(m.clock));
      var fetch := Fetch(v, m.clock, CounterOf(metricType), series, promName(metricType));
      Enabled(asked, fetch) && Do(hash, asked, fetch) == SetJob(m, v, Fetched(m.clock, m.clock, CounterOf(metricType), series, name))
  {}

  lemma TranslateStep(hash: Labels -> Hash, m: Manager, v: WorkerId, metricType: string, name: string, series: seq<TimeSeries>)
    requires v in m.workers && !Locked(m, metricType)
    ensures var fetched := SetJob(m, v, Fetched(m.clock, m.clock, CounterOf(metricType), series, name));
      var t := TranslateSpec.Translate(hash, m.accs, CounterOf(metricType), series, m.clock);
      && Enabled(fetched, Action.Translate(v))
      && Do(hash, fetched, Action.Translate(v)) == SetJob(m, v, Translated(metricType, UpdateOf(name, metricType, t.samples), None)).(accs := t.accs)
  {
    hide TranslateSpec.Translate;
    var fetched := SetJob(m, v, Fetched(m.clock, m.clock, CounterOf(metricType), series, name));
    assert !Locked(fetched, metricType);
  }

  lemma CommitSteps(hash: Labels -> Hash, m: Manager, v: WorkerId, accs: Accs, metricType: string, upd: Update, later: Time)
    requires IsIdle(m, v) && later >= m.clock
    ensures var translated := SetJob(m, v, Translated(metricType, upd, None)).(accs := accs);
      var ticked := translated.(clock := later);
      var stamped := SetJob(m, v, Translated(metricType, upd, Some(later))).(accs := accs, clock := later);
      && Enabled(translated, Tick(later)) && Do(hash, translated, Tick(later)) == ticked
      && Enabled(ticked, ReadClock(v)) && Do(hash, ticked, ReadClock(v)) == stamped
      && Enabled(stamped, Action.Apply(v))
      && Do(hash, stamped, Action.Apply(v)) == m.(accs := accs, clock := later,
        store := CacheSpec.Apply(hash, m.store, metricType, upd, m.workers[v].cfg.maxSeries, later).0)
  {
    hide CacheSpec.Apply;
    assert m.workers[v := m.workers[v].(job := Idle)] == m.workers;
  }

  lemma PollRuns(hash: Labels -> Hash, promName: string -> string, m: Manager, v: WorkerId, metricType: string, name: string, series: seq<TimeSeries>, later: Time)
    requires PollsAs(promName, m, v, metricType, name) && IsIdle(m, v) && !Locked(m, metricType) && later >= m.clock
    ensures Run(hash, PollStates(hash, m, v, metricType, name, series, later), PollActs(promName, m, v, metricType, series, later))
  {
    var ms, acts := PollStates(hash, m, v, metricType, name, series, later), PollActs(promName, m, v, metricType, series, later);
    var t := TranslateSpec.Translate(hash, m.accs, CounterOf(metricType), series, m.clock);
    FetchSteps(hash, promName, m, v, metricType, name, series);
    TranslateStep(hash, m, v, metricType, name, series);
    CommitSteps(hash, m, v, t.accs, metricType, UpdateOf(name, metricType, t.samples), later);
    hide Do, Enabled, TranslateSpec.Translate, CacheSpec.Apply, UpdateOf, PollsAs, Locked;
    forall i | 0 <= i < |acts|
      ensures Enabled(ms[i], acts[i]) && ms[i + 1] == Do(hash, ms[i], acts[i])
    {}
  }

  /** Neither fetches nor commits nor drops anything. */
  predicate Quiet(a: Action)
  {
    !a.Fetch? && !a.Translate? && !a.SweepType?
  }

  /** A condition the fetch and the commit meet, and all quiet steps. */
  lemma PollMeets(hash: Labels -> Hash, promName: string -> string, m: Manager, v: WorkerId, metricType: string, name: string, series: seq<TimeSeries>, later: Time, ok: Condition)
    requires PollsAs(promName, m, v, metricType, name) && IsIdle(m, v) && !Locked(m, metricType) && later >= m.clock
    requires forall e, a :: Enabled(e, a) && e.store == m.store && Quiet(a) ==> ok(e, a)
    requires ok(SetJob(m, v, Asked(m.clock)), Fetch(v, m.clock, CounterOf(metricType), series, promName(metricType)))
    requires ok(SetJob(m, v, Fetched(m.clock, m.clock, CounterOf(metricType), series, name)), Action.Translate(v))
    ensures RunOf(hash, PollStates(hash, m, v, metricType, name, series, later), PollActs(promName, m, v, metricType, series, later), ok)
  {
    var ms, acts := PollStates(hash, m, v, metricType, name, series, later), PollActs(promName, m, v, metricType, series, later);
    PollRuns(hash, promName, m, v, metricType, name, series, later);
    hide Do, Enabled, TranslateSpec.Translate, CacheSpec.Apply, UpdateOf, PollsAs, Locked;
    forall i | 0 <= i < |acts|
      ensures ok(ms[i], acts[i])
    {
      assert Enabled(ms[i], acts[i]) && ms[i].store == m.store;
    }
    RunMeets(hash, ms, acts, ok);
  }

  lemma PollStores(hash: Labels -> Hash, m: Manager, v: WorkerId, metricType: string, name: string, series: seq<TimeSeries>, later: Time)
    requires v in m.workers
    ensures var ms := PollStates(hash, m, v, metricType, name, series, later);
      var t := TranslateSpec.Translate(hash, m.accs, CounterOf(metricType), series, m.clock);
      && ms[0] == m
      && (forall x :: 0 <= x < 6 ==> ms[x].store == m.store)
      && ms[6] == m.(accs := t.accs, clock := later,
        store := CacheSpec.Apply(hash, m.store, metricType, UpdateOf(name, metricType, t.samples), m.workers[v].cfg.maxSeries, later).0)
  {
    hide TranslateSpec.Translate, CacheSpec.Apply, UpdateOf;
  }

  lemma LabelsOfShown(hash: Labels -> Hash, store: StoreState, n: string, k: DeltaKey)
    requires CacheSpec.Inv(hash, store) && Shows(store, n, k)
    ensures hash(store.families[n].series[k.labelsHash].labels) == k.labelsHash
  {
    assert CacheSpec.PoolAgrees(hash, store, k.labelsHash);
    assert n in CacheSpec.Holders(store, k.labelsHash);
  }

  /** Applying one sample for a known series shows it. */
  lemma OneSampleShows(hash: Labels -> Hash, store: StoreState, metricType: string, n: string, labels: Labels, value: real, end: Time, maxSeries: int, now: Time)
    requires Shows(store, n, DeltaKey(metricType, hash(labels)))
    ensures var upd := UpdateOf(n, metricType, [Sample(labels, value, None, end)]);
      var store' := CacheSpec.Apply(hash, store, metricType, upd, maxSeries, now).0;
      Shows(store', n, DeltaKey(metricType, hash(labels))) && Value(Sum, store', n, DeltaKey(metricType, hash(labels))) == value
  {
    var upd := UpdateOf(n, metricType, [Sample(labels, value, None, end)]);
    var put := CacheSpec.Put(store, n, CacheSpec.Opened(store, metricType, upd));
    assert upd.samples[..0] == [];
    assert CacheSpec.ApplySamples(hash, put, n, [], maxSeries, now).0 == put;
  }
}
