/** The poll manager of internal/poll as a step system: pollers fetch outside
    any lock, translate and apply under the mutex of their metric type, while a
    sweeper runs and configuration reloads replace the whole set of workers. */
module PollManager {
  import opened Basics
  import opened Histograms
  import opened DeltaLog
  import opened TranslateSpec
  import CacheSpec
  import CacheRuns

  type Update = FamilyUpdate<Option<HistValue>>
  type StoreState = CacheSpec.State<Option<HistValue>>

  /** What the manager reads of a configuration. */
  datatype Entry = Entry(typ: string, typePrefix: string, rename: string, lookback: Time)
  datatype Config = Config(entries: seq<Entry>, maxSeries: int, staleAfter: Time)

  /** An entry polls one metric type, or all with a prefix. */
  predicate Serves(e: Entry, metricType: string)
  {
    if e.typ != "" then metricType == e.typ else e.typePrefix != "" && e.typePrefix <= metricType
  }

  /** The name of the family: the rename of an entry for one metric type, else
      the converted metric type. */
  function NameFor(e: Entry, converted: string): string
  {
    if e.typ != "" && e.rename != "" then e.rename else converted
  }

  /** What a worker is in the middle of. */
  datatype Job =
    | Idle
    | Asked(at: Time)                                   // the query window ends here
    | Fetched(at: Time, served: Time, md: MetricDescriptor, series: seq<TimeSeries>, name: string)
    | Translated(metricType: string, upd: Update, stamp: Option<Time>)  // holds the mutex of the metric type
    | SweepPlanned(cutoff: Time)
    | SweepTypes(cutoff: Time, todo: set<string>)

  datatype Role = Poller(entry: Entry) | Sweeper
  datatype Worker = Worker(gen: nat, cfg: Config, role: Role, job: Job)
  type WorkerId = nat

  datatype Manager = Manager(
    clock: Time,
    gen: nat,              // the generation of workers started last
    cancelled: bool,       // a rewire has cancelled it and waits for it
    workers: map<WorkerId, Worker>,
    accs: Accs,            // the accumulators of all metric types
    store: StoreState)

  datatype Action =
    | Tick(to: Time)
    | Ask(w: WorkerId)
    | Fetch(w: WorkerId, served: Time, md: MetricDescriptor, series: seq<TimeSeries>, converted: string)
    | FetchFails(w: WorkerId)
    | Translate(w: WorkerId)
    | ReadClock(w: WorkerId)
    | Apply(w: WorkerId)
    | PlanSweep(w: WorkerId)
    | SweepStore(w: WorkerId, types: set<string>)
    | SweepType(w: WorkerId, metricType: string)
    | EndSweep(w: WorkerId)
    | Cancel
    | Exit(w: WorkerId)
    | Start(cfg: Config)

  /** Before the first rewire there is nothing to wait for. */
  const INITIAL := Manager(ZERO_TIME, 0, true, map[], map[], CacheSpec.Empty())

  /** Some worker is between translating and applying this metric type. */
  ghost predicate Locked(m: Manager, metricType: string)
  {
    exists w :: w in m.workers && m.workers[w].job.Translated? && m.workers[w].job.metricType == metricType
  }

  function MetricTypes(accs: Accs): set<string>
  {
    set k | k in accs :: k.metricType
  }

  ghost predicate Enabled(m: Manager, a: Action)
  {
    match a
    case Tick(to) => to >= m.clock
    case Ask(w) => w in m.workers && m.workers[w].job.Idle? && m.workers[w].role.Poller?
    case Fetch(w, served, md, _, _) =>
      && w in m.workers && m.workers[w].job.Asked? && m.workers[w].role.Poller?
      && m.workers[w].job.at <= served <= m.clock && Serves(m.workers[w].role.entry, md.typ)
    case FetchFails(w) => w in m.workers && m.workers[w].job.Asked?
    case Translate(w) => w in m.workers && m.workers[w].job.Fetched? && !Locked(m, m.workers[w].job.md.typ)
    case ReadClock(w) => w in m.workers && m.workers[w].job.Translated? && m.workers[w].job.stamp.None?
    case Apply(w) => w in m.workers && m.workers[w].job.Translated? && m.workers[w].job.stamp.Some?
    case PlanSweep(w) => w in m.workers && m.workers[w].job.Idle? && m.workers[w].role.Sweeper?
    case SweepStore(w, types) => w in m.workers && m.workers[w].job.SweepPlanned? && MetricTypes(m.accs) <= types
    case SweepType(w, mt) =>
      w in m.workers && m.workers[w].job.SweepTypes? && mt in m.workers[w].job.todo && !Locked(m, mt)
    case EndSweep(w) => w in m.workers && m.workers[w].job.SweepTypes? && m.workers[w].job.todo == {}
    case Cancel => !m.cancelled
    case Exit(w) => m.cancelled && w in m.workers && m.workers[w].job.Idle?
    case Start(_) => m.cancelled && m.workers == map[]
  }

  function SetJob(m: Manager, w: WorkerId, job: Job): Manager
    requires w in m.workers
  {
    m.(workers := m.workers[w := m.workers[w].(job := job)])
  }

  /** The accumulators left by sweeping one metric type. */
  function SweptType(accs: Accs, metricType: string, cutoff: Time): Accs
  {
    map k | k in accs && (k.metricType == metricType ==> accs[k].lastSeen >= cutoff) :: accs[k]
  }

  /** One poller for each entry, and one sweeper. */
  function Crew(gen: nat, cfg: Config): map<WorkerId, Worker>
  {
    map w: WorkerId | w <= |cfg.entries| ::
      Worker(gen, cfg, if w < |cfg.entries| then Poller(cfg.entries[w]) else Sweeper, Idle)
  }

  ghost function Do(hash: Labels -> Hash, m: Manager, a: Action): Manager
    requires Enabled(m, a)
  {
    match a
    case Tick(to) => m.(clock := to)
    case Ask(w) => SetJob(m, w, Asked(m.clock))
    case Fetch(w, served, md, series, converted) =>
      SetJob(m, w, Fetched(m.workers[w].job.at, served, md, series, NameFor(m.workers[w].role.entry, converted)))
    case FetchFails(w) => SetJob(m, w, Idle)
    case Translate(w) =>
      var job := m.workers[w].job;
      var t := TranslateSpec.Translate(hash, m.accs, job.md, job.series, m.clock);
      var upd := FamilyUpdate(job.name, job.md.description, FamilyKind(job.md), t.samples);
      SetJob(m, w, Translated(job.md.typ, upd, None)).(accs := t.accs)
    case ReadClock(w) => SetJob(m, w, m.workers[w].job.(stamp := Some(m.clock)))
    case Apply(w) => SetJob(m, w, Idle).(store := Applied(hash, m, w))
    case PlanSweep(w) => SetJob(m, w, SweepPlanned(m.clock - m.workers[w].cfg.staleAfter))
    case SweepStore(w, types) =>
      var cutoff := m.workers[w].job.cutoff;
      SetJob(m, w, SweepTypes(cutoff, types)).(store := CacheRuns.Sweep(m.store, cutoff))
    case SweepType(w, mt) =>
      var job := m.workers[w].job;
      SetJob(m, w, job.(todo := job.todo - {mt})).(accs := SweptType(m.accs, mt, job.cutoff))
    case EndSweep(w) => SetJob(m, w, Idle)
    case Cancel => m.(cancelled := true)
    case Exit(w) => m.(workers := m.workers - {w})
    case Start(cfg) => m.(gen := m.gen + 1, cancelled := false, workers := Crew(m.gen + 1, cfg))
  }

  /** The store after a worker applies its update, within the limit of the
      worker's own configuration. */
  function Applied(hash: Labels -> Hash, m: Manager, w: WorkerId): StoreState
    requires w in m.workers && m.workers[w].job.Translated? && m.workers[w].job.stamp.Some?
  {
    var job := m.workers[w].job;
    CacheSpec.Apply(hash, m.store, job.metricType, job.upd, m.workers[w].cfg.maxSeries, job.stamp.value).0
  }

  /** A run: states joined by enabled actions. */
  ghost predicate Run(hash: Labels -> Hash, ms: seq<Manager>, acts: seq<Action>)
  {
    && |ms| == |acts| + 1
    && forall i :: 0 <= i < |acts| ==> Enabled(ms[i], acts[i]) && ms[i + 1] == Do(hash, ms[i], acts[i])
  }

  lemma RunStep(hash: Labels -> Hash, ms: seq<Manager>, acts: seq<Action>, i: nat)
    requires Run(hash, ms, acts) && i + 1 < |ms|
    ensures i < |acts| && Enabled(ms[i], acts[i]) && ms[i + 1] == Do(hash, ms[i], acts[i])
  {}

  function Actor(a: Action): Option<WorkerId>
  {
    if a.Tick? || a.Cancel? || a.Start? then None else Some(a.w)
  }

  // ------------------------------------------------------------- generations

  /** All workers alive belong to the generation started last. */
  ghost predicate OneGeneration(m: Manager)
  {
    forall w :: w in m.workers ==> m.workers[w].gen == m.gen
  }

  lemma {:induction false} GenerationsInRun(hash: Labels -> Hash, ms: seq<Manager>, acts: seq<Action>, i: nat, j: nat)
    requires Run(hash, ms, acts) && i <= j < |ms|
    requires OneGeneration(ms[i])
    ensures OneGeneration(ms[j]) && ms[i].gen <= ms[j].gen
    decreases j
  {
    hide *;
    if i < j {
      GenerationsInRun(hash, ms, acts, i, j - 1);
      StepKeepsGeneration(hash, ms, acts, j - 1);
    }
  }

  lemma StepKeepsGeneration(hash: Labels -> Hash, ms: seq<Manager>, acts: seq<Action>, i: nat)
    requires Run(hash, ms, acts) && i + 1 < |ms| && OneGeneration(ms[i])
    ensures OneGeneration(ms[i + 1]) && ms[i].gen <= ms[i + 1].gen
  {
    hide TranslateSpec.Translate, Applied, CacheRuns.Sweep, SweptType;
    RunStep(hash, ms, acts, i);
  }

  /** Once a rewire has started a generation, no worker of an earlier one acts
      again, on the store, on an accumulator or otherwise. */
  lemma EarlierGenerationsAreGone(hash: Labels -> Hash, ms: seq<Manager>, acts: seq<Action>, i: nat, j: nat)
    requires Run(hash, ms, acts) && i < j < |acts|
    requires acts[i].Start? && Actor(acts[j]).Some?
    ensures Actor(acts[j]).value in ms[j].workers
    ensures ms[j].workers[Actor(acts[j]).value].gen >= ms[i + 1].gen > ms[i].gen
  {
    assert ms[i + 1] == Do(hash, ms[i], acts[i]);
    GenerationsInRun(hash, ms, acts, i + 1, j);
    assert Enabled(ms[j], acts[j]);
  }

  // ------------------------------------------------- the configuration in force

  /** What a worker does fits its configuration: pollers serve an entry and
      name families by it, sweepers look back by its staleness bound from some
      time between `since` and now. */
  ghost predicate Fits(m: Manager, w: Worker, cfg: Config, since: Time)
  {
    && w.cfg == cfg
    && (w.role.Poller? ==> w.role.entry in cfg.entries)
    && match w.job
       case Idle => true
       case Asked(_) => w.role.Poller?
       case Fetched(_, _, md, _, name) => w.role.Poller? && Serves(w.role.entry, md.typ) && Renames(w.role.entry, name)
       case Translated(mt, upd, _) => w.role.Poller? && Serves(w.role.entry, mt) && Renames(w.role.entry, upd.name)
       case SweepPlanned(cutoff) => w.role.Sweeper? && since - cfg.staleAfter <= cutoff <= m.clock - cfg.staleAfter
       case SweepTypes(cutoff, _) => w.role.Sweeper? && since - cfg.staleAfter <= cutoff <= m.clock - cfg.staleAfter
  }

  predicate Renames(e: Entry, name: string)
  {
    e.typ != "" && e.rename != "" ==> name == e.rename
  }

  ghost predicate AllFit(m: Manager, cfg: Config, since: Time)
  {
    && since <= m.clock
    && forall w :: w in m.workers ==> Fits(m, m.workers[w], cfg, since)
  }

  lemma StepFits(hash: Labels -> Hash, m: Manager, a: Action, cfg: Config, since: Time)
    requires Enabled(m, a) && !a.Start? && AllFit(m, cfg, since)
    ensures AllFit(Do(hash, m, a), cfg, since)
  {
    hide TranslateSpec.Translate, Applied, CacheRuns.Sweep, SweptType;
  }

  lemma StartFits(hash: Labels -> Hash, m: Manager, cfg: Config)
    requires Enabled(m, Start(cfg))
    ensures AllFit(Do(hash, m, Start(cfg)), cfg, m.clock)
  {}

  lemma {:induction false} RewiredCrewFits(hash: Labels -> Hash, ms: seq<Manager>, acts: seq<Action>, i: nat, j: nat)
    requires Run(hash, ms, acts) && i < j < |ms| && acts[i].Start?
    requires forall x :: i < x < j ==> !acts[x].Start?
    ensures AllFit(ms[j], acts[i].cfg, ms[i].clock)
    decreases j
  {
    hide *;
    RunStep(hash, ms, acts, j - 1);
    if j == i + 1 {
      StartFits(hash, ms[i], acts[i].cfg);
    } else {
      RewiredCrewFits(hash, ms, acts, i, j - 1);
      StepFits(hash, ms[j - 1], acts[j - 1], acts[i].cfg, ms[i].clock);
    }
  }

  /** Until the next rewire everything done is done by the configuration given
      to this one: fetches serve one of its entries, updates carry that entry's
      rename and are applied within its limit, and sweeps use its staleness
      bound, counted back from after the rewire. */
  lemma RewiredConfigIsUsed(hash: Labels -> Hash, ms: seq<Manager>, acts: seq<Action>, i: nat, j: nat)
    requires Run(hash, ms, acts) && i < j < |acts| && acts[i].Start?
    requires forall x :: i < x < j ==> !acts[x].Start?
    ensures var cfg := acts[i].cfg;
      match acts[j]
      case Fetch(_, _, md, _, _) => exists e :: e in cfg.entries && Serves(e, md.typ)
      case Apply(w) =>
        && w in ms[j].workers && ms[j].workers[w].job.Translated? && ms[j].workers[w].job.stamp.Some?
        && var job := ms[j].workers[w].job;
        && ms[j + 1].store == CacheSpec.Apply(hash, ms[j].store, job.metricType, job.upd, cfg.maxSeries, job.stamp.value).0
        && exists e :: e in cfg.entries && Serves(e, job.metricType) && Renames(e, job.upd.name)
      case SweepStore(w, _) =>
        && w in ms[j].workers && ms[j].workers[w].role.Sweeper? && ms[j].workers[w].job.SweepPlanned?
        && ms[i].clock <= ms[j].workers[w].job.cutoff + cfg.staleAfter <= ms[j].clock
        && ms[j + 1].store == CacheRuns.Sweep(ms[j].store, ms[j].workers[w].job.cutoff)
      case SweepType(w, mt) =>
        && w in ms[j].workers && ms[j].workers[w].role.Sweeper? && ms[j].workers[w].job.SweepTypes?
        && ms[i].clock <= ms[j].workers[w].job.cutoff + cfg.staleAfter <= ms[j].clock
        && ms[j + 1].accs == SweptType(ms[j].accs, mt, ms[j].workers[w].job.cutoff)
      case _ => true
  {
    hide TranslateSpec.Translate, CacheSpec.Apply, CacheRuns.Sweep, SweptType;
    RewiredCrewFits(hash, ms, acts, i, j);
    RunStep(hash, ms, acts, j);
    if Actor(acts[j]).Some? {
      assert Fits(ms[j], ms[j].workers[acts[j].w], acts[i].cfg, ms[i].clock);
    }
  }

  // --------------------------------------------- from one rewire to the next

  /** The crew a rewire starts stays complete, and nobody joins it, until it is
      cancelled. */
  lemma {:induction false} CrewStays(hash: Labels -> Hash, ms: seq<Manager>, acts: seq<Action>, i: nat, j: nat)
    requires Run(hash, ms, acts) && i < j < |ms| && acts[i].Start?
    requires forall x :: i < x < j ==> !acts[x].Cancel?
    ensures !ms[j].cancelled
    ensures forall w: WorkerId :: w in ms[j].workers <==> w <= |acts[i].cfg.entries|
    decreases j
  {
    hide TranslateSpec.Translate, Applied, CacheRuns.Sweep, SweptType, Run;
    RunStep(hash, ms, acts, j - 1);
    if j > i + 1 {
      CrewStays(hash, ms, acts, i, j - 1);
    }
  }

  lemma CancelBetweenStarts(hash: Labels -> Hash, ms: seq<Manager>, acts: seq<Action>, i: nat, j: nat)
    requires Run(hash, ms, acts) && i < j < |acts| && acts[i].Start? && acts[j].Start?
    ensures exists x :: i < x < j && acts[x].Cancel?
  {
    if forall x :: i < x < j ==> !acts[x].Cancel? {
      CrewStays(hash, ms, acts, i, j);
      RunStep(hash, ms, acts, j);
      assert false;
    }
  }

  /** A worker holds an update it has translated. */
  ghost predicate HoldsUpdate(m: Manager, w: WorkerId, upd: Update)
  {
    w in m.workers && m.workers[w].job.Translated? && m.workers[w].job.upd == upd
  }

  ghost predicate AppliesAt(ms: seq<Manager>, acts: seq<Action>, x: nat, w: WorkerId, upd: Update)
  {
    x < |acts| && x < |ms| && acts[x] == Apply(w) && HoldsUpdate(ms[x], w, upd)
  }

  lemma UpdateStays(hash: Labels -> Hash, m: Manager, a: Action, w: WorkerId, upd: Update)
    requires Enabled(m, a) && HoldsUpdate(m, w, upd) && a != Apply(w)
    ensures HoldsUpdate(Do(hash, m, a), w, upd) && !a.Start?
  {
    hide TranslateSpec.Translate, Applied, CacheRuns.Sweep, SweptType, Crew;
  }

  /** What has been counted is not lost to a rewire: an update translated is held
      by its worker until that worker applies it, which it does before the next
      crew starts. */
  lemma {:induction false} TranslatedIsApplied(hash: Labels -> Hash, ms: seq<Manager>, acts: seq<Action>, i: nat, j: nat, w: WorkerId)
    requires Run(hash, ms, acts) && i < j < |ms| && acts[i] == Translate(w)
    ensures w in ms[i + 1].workers && ms[i + 1].workers[w].job.Translated?
    ensures var upd := ms[i + 1].workers[w].job.upd;
      || (exists x: nat :: i < x < j && AppliesAt(ms, acts, x, w, upd))
      || (HoldsUpdate(ms[j], w, upd) && (j < |acts| ==> !acts[j].Start?))
    decreases j
  {
    TranslatedIsHeld(hash, ms, acts, i, w);
    var upd := ms[i + 1].workers[w].job.upd;
    if j < |acts| {
      RunStep(hash, ms, acts, j);
    }
    RunStep(hash, ms, acts, j - 1);
    hide *;
    if j > i + 1 {
      TranslatedIsApplied(hash, ms, acts, i, j - 1, w);
      if HoldsUpdate(ms[j - 1], w, upd) {
        if acts[j - 1] == Apply(w) {
          AppliesHeld(ms, acts, j - 1, w, upd);
        } else {
          UpdateStays(hash, ms[j - 1], acts[j - 1], w, upd);
        }
      }
    }
    if HoldsUpdate(ms[j], w, upd) && j < |acts| && acts[j] != Apply(w) {
      UpdateStays(hash, ms[j], acts[j], w, upd);
    }
  }

  lemma TranslatedIsHeld(hash: Labels -> Hash, ms: seq<Manager>, acts: seq<Action>, i: nat, w: WorkerId)
    requires Run(hash, ms, acts) && i < |acts| && acts[i] == Translate(w)
    ensures |ms| == |acts| + 1 && w in ms[i + 1].workers && ms[i + 1].workers[w].job.Translated?
    ensures HoldsUpdate(ms[i + 1], w, ms[i + 1].workers[w].job.upd)
  {
    hide TranslateSpec.Translate;
    RunStep(hash, ms, acts, i);
  }

  lemma AppliesHeld(ms: seq<Manager>, acts: seq<Action>, x: nat, w: WorkerId, upd: Update)
    requires x < |acts| && x < |ms| && acts[x] == Apply(w) && HoldsUpdate(ms[x], w, upd)
    ensures AppliesAt(ms, acts, x, w, upd)
  {}

  // --------------------------------------------- pollers and their configuration

  /** What a poller may fetch: the type of its entry, or, if the entry has none,
      any type that begins with its prefix; and the name the family gets: the
      rename of an entry for one type, else the converted one. */
  lemma WhatAPollerFetches(hash: Labels -> Hash, m: Manager, w: WorkerId, served: Time, md: MetricDescriptor, series: seq<TimeSeries>, converted: string)
    requires w in m.workers && m.workers[w].role.Poller? && m.workers[w].job.Asked? && m.workers[w].job.at <= served <= m.clock
    ensures var e, fetch := m.workers[w].role.entry, Fetch(w, served, md, series, converted);
      && (Enabled(m, fetch) <==>
          if e.typ != "" then md.typ == e.typ else e.typePrefix != "" && exists rest: string :: md.typ == e.typePrefix + rest)
      && (Enabled(m, fetch) ==>
          Do(hash, m, fetch).workers[w].job ==
            Fetched(m.workers[w].job.at, served, md, series, if e.typ != "" && e.rename != "" then e.rename else converted))
  {
    var e := m.workers[w].role.entry;
    if e.typePrefix <= md.typ {
      assert md.typ == e.typePrefix + md.typ[|e.typePrefix|..];
    }
  }

  /** What a rewire starts: one idle poller for each entry, one idle sweeper, all
      with the new configuration, and nobody else. */
  lemma StartedCrew(hash: Labels -> Hash, m: Manager, cfg: Config)
    requires Enabled(m, Start(cfg))
    ensures var s := Do(hash, m, Start(cfg));
      && |s.workers| == |cfg.entries| + 1
      && (forall w :: w in s.workers ==> s.workers[w].cfg == cfg && s.workers[w].job == Idle && s.workers[w].gen == m.gen + 1)
      && (forall i :: 0 <= i < |cfg.entries| ==> i in s.workers && s.workers[i].role == Poller(cfg.entries[i]))
      && (exists w :: w in s.workers && s.workers[w].role == Sweeper)
      && s.accs == m.accs && s.store == m.store && s.clock == m.clock
  {
    CrewSize(m.gen + 1, cfg);
    CrewMembers(m.gen + 1, cfg);
    hide Crew;
    assert |cfg.entries| in Do(hash, m, Start(cfg)).workers;
  }

  lemma CrewSize(gen: nat, cfg: Config)
    ensures |Crew(gen, cfg)| == |cfg.entries| + 1
  {
    assert Crew(gen, cfg).Keys == Below(|cfg.entries| + 1);
  }

  lemma CrewMembers(gen: nat, cfg: Config)
    ensures forall w: WorkerId :: w in Crew(gen, cfg) <==> w <= |cfg.entries|
    ensures forall w: WorkerId :: w <= |cfg.entries| ==>
      Crew(gen, cfg)[w] == Worker(gen, cfg, if w < |cfg.entries| then Poller(cfg.entries[w]) else Sweeper, Idle)
  {}

  function Below(n: nat): (ids: set<WorkerId>)
    ensures |ids| == n && forall w: WorkerId :: w in ids <==> w < n
  {
    if n == 0 then {} else Below(n - 1) + {n - 1}
  }

  // ------------------------------------------------ one translator for each type

  /** The accumulators of one metric type, which its own translator keeps. */
  function OfType(accs: Accs, metricType: string): Accs
  {
    map k | k in accs && k.metricType == metricType :: accs[k]
  }

  /** Sweeping one metric type is what its translator does on its own. */
  lemma SweepsItsOwn(accs: Accs, metricType: string, cutoff: Time)
    ensures OfType(SweptType(accs, metricType, cutoff), metricType) == Swept(OfType(accs, metricType), cutoff)
    ensures forall other :: other != metricType ==> OfType(SweptType(accs, metricType, cutoff), other) == OfType(accs, other)
  {}

  /** What a series comes to depends on the accumulator of its key alone, and it
      touches no other. */
  lemma SeriesTouchesOne(hash: Labels -> Hash, a: Accs, b: Accs, md: MetricDescriptor, ts: TimeSeries, now: Time)
    requires var k := DeltaKey(md.typ, hash(ts.labels)); (k in a <==> k in b) && (k in a ==> a[k] == b[k])
    ensures var x, y, k := SeriesOutcome(hash, a, md, ts, now), SeriesOutcome(hash, b, md, ts, now), DeltaKey(md.typ, hash(ts.labels));
      && x.sample == y.sample && x.stats == y.stats
      && (|| (x.accs == a && y.accs == b)
          || (k in x.accs && x.accs == a[k := x.accs[k]] && y.accs == b[k := x.accs[k]]))
  {
    if !Considered(md, ts) {
    } else if !IsDelta(md, ts) {
      OnlyDeltasRemember(hash, a, b, md, ts, now);
    } else {
      DeltaTouchesOne(hash, a, b, md, ts, now);
    }
    hide TranslateSeries;
  }

  lemma DeltaTouchesOne(hash: Labels -> Hash, a: Accs, b: Accs, md: MetricDescriptor, ts: TimeSeries, now: Time)
    requires Considered(md, ts) && IsDelta(md, ts)
    requires var k := DeltaKey(md.typ, hash(ts.labels)); (k in a <==> k in b) && (k in a ==> a[k] == b[k])
    ensures var x, y, k := SeriesOutcome(hash, a, md, ts, now), SeriesOutcome(hash, b, md, ts, now), DeltaKey(md.typ, hash(ts.labels));
      x.sample == y.sample && x.stats == y.stats && k in x.accs && x.accs == a[k := x.accs[k]] && y.accs == b[k := x.accs[k]]
  {
    var k := DeltaKey(md.typ, hash(ts.labels));
    assert AccOf(a, k) == AccOf(b, k);
    DeltaShows(hash, a, md, ts, now);
    DeltaShows(hash, b, md, ts, now);
    SeriesCommits(hash, a, md, ts, now, k);
    SeriesCommits(hash, b, md, ts, now, k);
    OnlyItsOwn(hash, a, md, ts, now);
    OnlyItsOwn(hash, b, md, ts, now);
    SameStats(SeriesOutcome(hash, a, md, ts, now).stats, SeriesOutcome(hash, b, md, ts, now).stats);
    hide SeriesOutcome, Commit, Clean, FoldDist, Published;
  }

  lemma SameStats(a: Stats, b: Stats)
    ensures a == b <==> a.droppedValueType == b.droppedValueType && a.noPoints == b.noPoints && a.bucketReset == b.bucketReset
  {}

  lemma OnlyItsOwn(hash: Labels -> Hash, accs: Accs, md: MetricDescriptor, ts: TimeSeries, now: Time)
    requires Considered(md, ts) && IsDelta(md, ts)
    ensures var out, k := SeriesOutcome(hash, accs, md, ts, now), DeltaKey(md.typ, hash(ts.labels));
      k in out.accs && out.accs == accs[k := out.accs[k]]
  {
    hide FoldScalar, FoldDist, Published;
  }

  lemma SeriesStaysWithItsOwn(hash: Labels -> Hash, accs: Accs, md: MetricDescriptor, ts: TimeSeries, now: Time)
    ensures var all, own := SeriesOutcome(hash, accs, md, ts, now), SeriesOutcome(hash, OfType(accs, md.typ), md, ts, now);
      && OfType(all.accs, md.typ) == own.accs && all.sample == own.sample && all.stats == own.stats
      && forall other :: other != md.typ ==> OfType(all.accs, other) == OfType(accs, other)
  {
    SeriesTouchesOne(hash, accs, OfType(accs, md.typ), md, ts, now);
    hide SeriesOutcome;
    var all, k := SeriesOutcome(hash, accs, md, ts, now), DeltaKey(md.typ, hash(ts.labels));
    if k in all.accs && all.accs == accs[k := all.accs[k]] {
      OneOfType(accs, k, all.accs[k]);
    }
    hide OfType;
  }

  lemma OneOfType(accs: Accs, k: DeltaKey, a: Acc)
    requires ValidAcc(a)
    ensures OfType(accs[k := a], k.metricType) == OfType(accs, k.metricType)[k := a]
    ensures forall other :: other != k.metricType ==> OfType(accs[k := a], other) == OfType(accs, other)
  {
    forall other | other != k.metricType
      ensures OfType(accs[k := a], other) == OfType(accs, other)
    {
      OtherType(accs, k, a, other);
    }
  }

  lemma OtherType(accs: Accs, k: DeltaKey, a: Acc, other: string)
    requires ValidAcc(a) && other != k.metricType
    ensures OfType(accs[k := a], other) == OfType(accs, other)
  {}

  /** Translating a response is what the translator of its metric type does with
      the accumulators it has; those of the others stay as they are. */
  lemma {:induction false} TranslatesItsOwn(hash: Labels -> Hash, accs: Accs, md: MetricDescriptor, series: seq<TimeSeries>, now: Time)
    ensures var all, own := TranslateSpec.Translate(hash, accs, md, series, now), TranslateSpec.Translate(hash, OfType(accs, md.typ), md, series, now);
      && OfType(all.accs, md.typ) == own.accs && all.samples == own.samples && all.stats == own.stats
      && forall other :: other != md.typ ==> OfType(all.accs, other) == OfType(accs, other)
  {
    if series != [] {
      var front := series[..|series| - 1];
      TranslatesItsOwn(hash, accs, md, front, now);
      SeriesStaysWithItsOwn(hash, TranslateSpec.Translate(hash, accs, md, front, now).accs, md, series[|series| - 1], now);
      hide SeriesOutcome, OfType;
    }
  }

  // ------------------------------------------------------- one step, written out

  /** Nothing changes but what a step is for: the clock by ticks, the store by
      applying and sweeping it, accumulators by translating and sweeping them,
      generation and crew by a start, and of the workers only the one that acts,
      which leaves only by its exit. */
  lemma StepFrame(hash: Labels -> Hash, m: Manager, a: Action)
    requires Enabled(m, a)
    ensures var e := Do(hash, m, a);
      && (!a.Tick? ==> e.clock == m.clock) && (a.Tick? ==> e == m.(clock := a.to))
      && (!a.Apply? && !a.SweepStore? ==> e.store == m.store)
      && (!a.Translate? && !a.SweepType? ==> e.accs == m.accs)
      && (e.gen == if a.Start? then m.gen + 1 else m.gen)
      && (e.cancelled <==> a.Cancel? || (m.cancelled && !a.Start?))
      && (Actor(a).None? && !a.Start? ==> e.workers == m.workers)
      && (Actor(a).Some? ==>
          var w := Actor(a).value;
          && w in m.workers && (w in e.workers <==> !a.Exit?)
          && e.workers - {w} == m.workers - {w}
          && (w in e.workers ==> e.workers[w].(job := Idle) == m.workers[w].(job := Idle)))
  {
    hide TranslateSpec.Translate, Applied, CacheRuns.Sweep, SweptType;
  }

  /** A poll, step by step. It asks for a window that ends now; what comes back
      is translated, at the time by then, into an update with the name, the help
      text and the kind of its family and nothing else of the descriptor; the
      clock is read once more for the cache; a failure and the application leave
      the poller idle. */
  lemma PollInSteps(hash: Labels -> Hash, m: Manager, a: Action)
    requires Enabled(m, a)
    ensures var e := Do(hash, m, a);
      match a
      case Ask(w) => e.workers[w].job == Asked(m.clock)
      case Translate(w) =>
        var job := m.workers[w].job;
        var t := TranslateSpec.Translate(hash, m.accs, job.md, job.series, m.clock);
        && e.accs == t.accs
        && e.workers[w].job ==
          Translated(job.md.typ, FamilyUpdate(job.name, job.md.description, FamilyKind(job.md), t.samples), None)
      case ReadClock(w) =>
        e.workers[w].job == Translated(m.workers[w].job.metricType, m.workers[w].job.upd, Some(m.clock))
      case Apply(w) =>
        var job := m.workers[w].job;
        && e.store == CacheSpec.Apply(hash, m.store, job.metricType, job.upd, m.workers[w].cfg.maxSeries, job.stamp.value).0
        && e.workers[w].job == Idle
      case FetchFails(w) => e.workers[w].job == Idle
      case _ => true
  {
    hide TranslateSpec.Translate, CacheSpec.Apply, FamilyKind;
  }

  /** A sweep, step by step: its cutoff is the staleness bound of the worker's own
      configuration ago; it sweeps the store, then every metric type there was by
      then, each once, and is idle again when all are done. */
  lemma SweepInSteps(hash: Labels -> Hash, m: Manager, a: Action)
    requires Enabled(m, a)
    ensures var e := Do(hash, m, a);
      match a
      case PlanSweep(w) => e.workers[w].job.SweepPlanned? && e.workers[w].job.cutoff + m.workers[w].cfg.staleAfter == m.clock
      case SweepStore(w, types) =>
        && e.workers[w].job == SweepTypes(m.workers[w].job.cutoff, types)
        && (forall k :: k in m.accs ==> k.metricType in types)
        && e.store == CacheRuns.Sweep(m.store, m.workers[w].job.cutoff)
      case SweepType(w, mt) =>
        && e.workers[w].job == SweepTypes(m.workers[w].job.cutoff, m.workers[w].job.todo - {mt})
        && mt in m.workers[w].job.todo
        && (forall k :: k in e.accs <==> k in m.accs && (k.metricType == mt ==> m.accs[k].lastSeen >= m.workers[w].job.cutoff))
        && (forall k :: k in e.accs ==> e.accs[k] == m.accs[k])
      case EndSweep(w) => m.workers[w].job.todo == {} && e.workers[w].job == Idle
      case _ => true
  {
    hide TranslateSpec.Translate, Applied, CacheRuns.Sweep;
    if a.SweepStore? {
      forall k | k in m.accs
        ensures k.metricType in a.types
      {
        assert k.metricType in MetricTypes(m.accs);
      }
    }
  }
}
