/** The store of internal/cache refines a plain map from name and labels to the
    latest sample: hashes and the label pool cannot be observed. */
module PlainStore {
  import opened Basics
  import opened TranslateSpec
  import opened CacheSpec
  import opened CacheRuns

  datatype Row<+H> = Row(value: real, hist: H, pointEnd: Time, lastSeen: Time)
  datatype Table<+H> = Table(help: string, kind: Kind, owner: string, rows: map<Labels, Row<H>>)
  type Plain<+H> = map<string, Table<H>>

  function RowOf<H>(sm: Sample<H>, now: Time): Row<H>
  {
    Row(sm.value, sm.hist, sm.pointEnd, now)
  }

  function PlainSample<H>(t: Table<H>, sm: Sample<H>, maxSeries: int, now: Time): (Table<H>, ApplyStats)
  {
    if sm.labels in t.rows then (t.(rows := t.rows[sm.labels := RowOf(sm, now)]), ApplyStats(0, 1, 0, false))
    else if |t.rows| >= maxSeries then (t, ApplyStats(0, 0, 1, false))
    else (t.(rows := t.rows[sm.labels := RowOf(sm, now)]), ApplyStats(1, 0, 0, false))
  }

  function PlainSamples<H>(t: Table<H>, samples: seq<Sample<H>>, maxSeries: int, now: Time): (Table<H>, ApplyStats)
  {
    if samples == [] then (t, ApplyStats(0, 0, 0, false)) else
    var (before, stats) := PlainSamples(t, samples[..|samples| - 1], maxSeries, now);
    var (after, more) := PlainSample(before, samples[|samples| - 1], maxSeries, now);
    (after, AddApplyStats(stats, more))
  }

  function PlainApply<H>(p: Plain<H>, metricType: string, upd: FamilyUpdate<H>, maxSeries: int, now: Time): (Plain<H>, ApplyStats)
  {
    if upd.name in p && p[upd.name].owner != metricType then (p, ApplyStats(0, 0, 0, true)) else
    var open_ := Table(upd.help, upd.kind, metricType, if upd.name in p then p[upd.name].rows else map[]);
    var (t, stats) := PlainSamples(open_, upd.samples, maxSeries, now);
    (p[upd.name := t], stats)
  }

  function PlainLive<H>(t: Table<H>, cutoff: Time): Table<H>
  {
    t.(rows := map l | l in t.rows && t.rows[l].lastSeen >= cutoff :: t.rows[l])
  }

  function PlainSweep<H>(p: Plain<H>, cutoff: Time): Plain<H>
  {
    map n | n in p && PlainLive(p[n], cutoff).rows.Keys != {} :: PlainLive(p[n], cutoff)
  }

  // ------------------------------------------------------------- abstraction

  ghost predicate Injective(hash: Labels -> Hash)
  {
    forall a, b :: hash(a) == hash(b) ==> a == b
  }

  /** Series are filed under the hash of their labels. */
  ghost predicate Filed<H>(hash: Labels -> Hash, f: Family<H>)
  {
    forall h :: h in f.series ==> hash(f.series[h].labels) == h
  }

  lemma InvFiles<H>(hash: Labels -> Hash, st: State<H>, n: string)
    requires Inv(hash, st) && n in st.families
    ensures Filed(hash, st.families[n])
  {
    forall h | h in st.families[n].series
      ensures hash(st.families[n].series[h].labels) == h
    {
      assert PoolAgrees(hash, st, h);
      assert n in Holders(st, h);
    }
  }

  function RowOfSeries<H>(sr: Series<H>): Row<H>
  {
    Row(sr.value, sr.hist, sr.pointEnd, sr.lastSeen)
  }

  ghost function LabelsOf<H>(f: Family<H>): set<Labels>
  {
    set h | h in f.series :: f.series[h].labels
  }

  ghost function AbsFamily<H>(hash: Labels -> Hash, f: Family<H>): Table<H>
    requires Filed(hash, f)
  {
    Table(f.help, f.kind, f.metricType, map l | l in LabelsOf(f) :: RowOfSeries(f.series[hash(l)]))
  }

  ghost function Abs<H>(hash: Labels -> Hash, st: State<H>): Plain<H>
    requires forall n :: n in st.families ==> Filed(hash, st.families[n])
  {
    map n | n in st.families :: AbsFamily(hash, st.families[n])
  }

  /** Label sets filed under different hashes are as many as the hashes. */
  lemma {:induction false} ImageSize<H>(hash: Labels -> Hash, series: map<Hash, Series<H>>, keys: set<Hash>)
    requires keys <= series.Keys && forall h :: h in series ==> hash(series[h].labels) == h
    ensures |set h | h in keys :: series[h].labels| == |keys|
    decreases keys
  {
    var image := set h | h in keys :: series[h].labels;
    if keys != {} {
      var h :| h in keys;
      var rest := keys - {h};
      var image' := set g | g in rest :: series[g].labels;
      ImageSize(hash, series, rest);
      assert series[h].labels !in image';
      assert image == image' + {series[h].labels};
    }
  }

  /** A family has as many rows as series. */
  lemma SameSize<H>(hash: Labels -> Hash, f: Family<H>)
    requires Filed(hash, f)
    ensures |AbsFamily(hash, f).rows| == |f.series|
  {
    ImageSize(hash, f.series, f.series.Keys);
    assert AbsFamily(hash, f).rows.Keys == set h | h in f.series.Keys :: f.series[h].labels;
  }

  /** Looking a label set up by its hash finds its series. */
  lemma Lookup<H>(hash: Labels -> Hash, f: Family<H>, l: Labels)
    requires Filed(hash, f) && Injective(hash)
    ensures l in LabelsOf(f) <==> hash(l) in f.series
  {
    if hash(l) in f.series {
      assert f.series[hash(l)].labels == l;
    }
  }

  /** The row of a label set is the series filed under its hash. */
  lemma RowAt<H>(hash: Labels -> Hash, f: Family<H>, l: Labels)
    requires Injective(hash) && Filed(hash, f)
    ensures l in AbsFamily(hash, f).rows <==> hash(l) in f.series
    ensures hash(l) in f.series ==> AbsFamily(hash, f).rows[l] == RowOfSeries(f.series[hash(l)])
  {
    Lookup(hash, f, l);
    assert AbsFamily(hash, f).rows.Keys == LabelsOf(f);
  }

  /** Filing a series is writing its row. */
  lemma PutSeries<H>(hash: Labels -> Hash, f: Family<H>, sr: Series<H>)
    requires Injective(hash) && Filed(hash, f)
    ensures var f' := f.(series := f.series[hash(sr.labels) := sr]);
      && Filed(hash, f')
      && AbsFamily(hash, f') == AbsFamily(hash, f).(rows := AbsFamily(hash, f).rows[sr.labels := RowOfSeries(sr)])
  {
    var f' := f.(series := f.series[hash(sr.labels) := sr]);
    var want := AbsFamily(hash, f).rows[sr.labels := RowOfSeries(sr)];
    forall l
      ensures l in AbsFamily(hash, f').rows <==> l in want
      ensures l in want ==> AbsFamily(hash, f').rows[l] == want[l]
    {
      hide AbsFamily;
      RowAt(hash, f, l);
      RowAt(hash, f', l);
    }
    assert AbsFamily(hash, f').rows == want;
  }

  lemma SampleRefines<H>(hash: Labels -> Hash, st: State<H>, n: string, sm: Sample<H>, maxSeries: int, now: Time)
    requires Injective(hash) && Inv(hash, st) && n in st.families
    requires Filed(hash, st.families[n])
    ensures var (st', stats) := ApplySample(hash, st, n, sm, maxSeries, now);
      && Filed(hash, st'.families[n])
      && (AbsFamily(hash, st'.families[n]), stats) == PlainSample(AbsFamily(hash, st.families[n]), sm, maxSeries, now)
  {
    hide AbsFamily;
    var f := st.families[n];
    var h := hash(sm.labels);
    assert PoolAgrees(hash, st, h);
    Lookup(hash, f, sm.labels);
    SameSize(hash, f);
    AbsRows(hash, f);
    if h in f.series {
      PutSeries(hash, f, f.series[h].(value := sm.value, hist := sm.hist, pointEnd := sm.pointEnd, lastSeen := now));
    } else if |f.series| < maxSeries {
      PutSeries(hash, f, Series(sm.labels, h, sm.value, sm.hist, sm.pointEnd, now));
    }
  }

  lemma AbsRows<H>(hash: Labels -> Hash, f: Family<H>)
    requires Filed(hash, f)
    ensures AbsFamily(hash, f).rows.Keys == LabelsOf(f)
  {}

  lemma {:induction false} SamplesRefine<H>(hash: Labels -> Hash, st: State<H>, n: string, samples: seq<Sample<H>>, maxSeries: int, now: Time)
    requires Injective(hash) && Inv(hash, st) && n in st.families
    ensures Filed(hash, st.families[n])
    ensures var (st', stats) := ApplySamples(hash, st, n, samples, maxSeries, now);
      && Filed(hash, st'.families[n])
      && (AbsFamily(hash, st'.families[n]), stats) == PlainSamples(AbsFamily(hash, st.families[n]), samples, maxSeries, now)
  {
    hide Inv, AbsFamily, ApplySample, PlainSample;
    InvFiles(hash, st, n);
    if samples != [] {
      var front, sm := samples[..|samples| - 1], samples[|samples| - 1];
      SamplesRefine(hash, st, n, front, maxSeries, now);
      ApplySamplesAccount(hash, st, n, front, maxSeries, now);
      var before := ApplySamples(hash, st, n, front, maxSeries, now).0;
      SampleRefines(hash, before, n, sm, maxSeries, now);
    }
  }

  ghost predicate AllFiled<H>(hash: Labels -> Hash, st: State<H>)
  {
    forall n :: n in st.families ==> Filed(hash, st.families[n])
  }

  lemma InvFilesAll<H>(hash: Labels -> Hash, st: State<H>)
    requires Inv(hash, st)
    ensures AllFiled(hash, st)
  {
    forall n | n in st.families
      ensures Filed(hash, st.families[n])
    {
      InvFiles(hash, st, n);
    }
  }

  /** Apply on the store is Apply on the plain map, statistics included. */
  lemma ApplyRefines<H>(hash: Labels -> Hash, st: State<H>, metricType: string, upd: FamilyUpdate<H>, maxSeries: int, now: Time)
    requires Injective(hash) && Inv(hash, st)
    ensures AllFiled(hash, st) && AllFiled(hash, Apply(hash, st, metricType, upd, maxSeries, now).0)
    ensures var (st', stats) := Apply(hash, st, metricType, upd, maxSeries, now);
      (Abs(hash, st'), stats) == PlainApply(Abs(hash, st), metricType, upd, maxSeries, now)
  {
    hide Inv, ApplySamples, PlainSamples, AbsFamily, Filed;
    InvFilesAll(hash, st);
    if upd.name in st.families {
      AbsOwner(hash, st.families[upd.name]);
    }
    if !Collides(st, metricType, upd.name) {
      var n := upd.name;
      var f := Opened(st, metricType, upd);
      var put := Put(st, n, f);
      PutKeepsInv(hash, st, n, f);
      SamplesRefine(hash, put, n, upd.samples, maxSeries, now);
      ApplySamplesAccount(hash, put, n, upd.samples, maxSeries, now);
      var st' := ApplySamples(hash, put, n, upd.samples, maxSeries, now).0;
      InvFilesAll(hash, st');
      OpenedRefines(hash, st, metricType, upd);
      OneKeyApart(put.families, st'.families, n);
      assert st'.families == st.families[n := st'.families[n]];
      AbsPut(hash, st, n, st');
    }
  }

  lemma AbsOwner<H>(hash: Labels -> Hash, f: Family<H>)
    requires Filed(hash, f)
    ensures AbsFamily(hash, f).owner == f.metricType
  {}

  lemma AbsPut<H>(hash: Labels -> Hash, st: State<H>, n: string, st': State<H>)
    requires AllFiled(hash, st) && AllFiled(hash, st') && n in st'.families
    requires st'.families == st.families[n := st'.families[n]]
    ensures Abs(hash, st') == Abs(hash, st)[n := AbsFamily(hash, st'.families[n])]
  {
    hide AbsFamily, Filed;
  }

  lemma OpenedRefines<H>(hash: Labels -> Hash, st: State<H>, metricType: string, upd: FamilyUpdate<H>)
    requires AllFiled(hash, st)
    ensures var f := Opened(st, metricType, upd);
      Filed(hash, f) && AbsFamily(hash, f) ==
        Table(upd.help, upd.kind, metricType, if upd.name in st.families then Abs(hash, st)[upd.name].rows else map[])
  {
    var f := Opened(st, metricType, upd);
    if upd.name in st.families {
      assert LabelsOf(f) == LabelsOf(st.families[upd.name]);
    } else {
      assert LabelsOf(f) == {};
    }
  }

  lemma LiveRefines<H>(hash: Labels -> Hash, f: Family<H>, cutoff: Time)
    requires Injective(hash) && Filed(hash, f)
    ensures Filed(hash, Live(f, cutoff))
    ensures AbsFamily(hash, Live(f, cutoff)) == PlainLive(AbsFamily(hash, f), cutoff)
    ensures PlainLive(AbsFamily(hash, f), cutoff).rows.Keys == {} <==> Live(f, cutoff).series.Keys == {}
  {
    var g := Live(f, cutoff);
    var want := PlainLive(AbsFamily(hash, f), cutoff).rows;
    forall l
      ensures l in AbsFamily(hash, g).rows <==> l in want
      ensures l in want ==> AbsFamily(hash, g).rows[l] == want[l]
    {
      hide AbsFamily;
      RowAt(hash, f, l);
      RowAt(hash, g, l);
    }
    assert AbsFamily(hash, g).rows == want;
    SameSize(hash, g);
    assert |g.series| == |g.series.Keys| && |want| == |want.Keys|;
  }

  /** A sweep on the store is a sweep on the plain map. */
  lemma SweepRefines<H>(hash: Labels -> Hash, st: State<H>, cutoff: Time)
    requires Injective(hash) && Inv(hash, st)
    ensures AllFiled(hash, st) && AllFiled(hash, Sweep(st, cutoff))
    ensures Abs(hash, Sweep(st, cutoff)) == PlainSweep(Abs(hash, st), cutoff)
  {
    hide Inv, AbsFamily, Filed, PlainLive, Live;
    InvFilesAll(hash, st);
    SweepKeepsInv(hash, st, cutoff);
    InvFilesAll(hash, Sweep(st, cutoff));
    forall n | n in st.families
      ensures Filed(hash, Live(st.families[n], cutoff))
      ensures AbsFamily(hash, Live(st.families[n], cutoff)) == PlainLive(AbsFamily(hash, st.families[n]), cutoff)
      ensures PlainLive(AbsFamily(hash, st.families[n]), cutoff).rows.Keys == {} <==> Live(st.families[n], cutoff).series.Keys == {}
    {
      LiveRefines(hash, st.families[n], cutoff);
    }
  }

  // -------------------------------------------------------------------- runs

  ghost function PlainStep<H>(p: Plain<H>, op: Op<H>): Plain<H>
  {
    match op
    case ApplyOp(mt, upd, maxSeries, now) => PlainApply(p, mt, upd, maxSeries, now).0
    case SweepOp(cutoff) => PlainSweep(p, cutoff)
  }

  ghost function PlainAfter<H>(ops: seq<Op<H>>): Plain<H>
  {
    if ops == [] then map[] else PlainStep(PlainAfter(ops[..|ops| - 1]), ops[|ops| - 1])
  }

  /** Over any run the store shows what the plain map holds. */
  lemma {:induction false} RunRefines<H>(hash: Labels -> Hash, ops: seq<Op<H>>)
    requires Injective(hash)
    ensures AllFiled(hash, After(hash, ops)) && Abs(hash, After(hash, ops)) == PlainAfter(ops)
  {
    hide Inv, Abs, Apply, Sweep, PlainApply, PlainSweep, Filed;
    RunAccounts(hash, ops);
    InvFilesAll(hash, After(hash, ops));
    if ops == [] {
      NothingCached<H>(hash);
    } else {
      var front, op := ops[..|ops| - 1], ops[|ops| - 1];
      RunAccounts(hash, front);
      RunRefines(hash, front);
      match op {
        case ApplyOp(mt, upd, maxSeries, now) => ApplyRefines(hash, After(hash, front), mt, upd, maxSeries, now);
        case SweepOp(cutoff) => SweepRefines(hash, After(hash, front), cutoff);
      }
    }
  }

  lemma NothingCached<H>(hash: Labels -> Hash)
    ensures Abs(hash, Empty<H>()) == map[]
  {}
}
