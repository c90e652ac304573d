/** Staleness sweeps and whole runs of the store of internal/cache. */
module CacheRuns {
  import opened Basics
  import opened TranslateSpec
  import opened CacheSpec

  // ------------------------------------------------------ Apply, accounted for

  /** The last sample of an update for a hash. */
  function Latest<H>(hash: Labels -> Hash, samples: seq<Sample<H>>, h: Hash): Option<Sample<H>>
  {
    if samples == [] then None
    else if hash(samples[|samples| - 1].labels) == h then Some(samples[|samples| - 1])
    else Latest(hash, samples[..|samples| - 1], h)
  }

  predicate SeriesShows<H(==)>(sr: Series<H>, sm: Sample<H>, now: Time)
  {
    sr.value == sm.value && sr.hist == sm.hist && sr.pointEnd == sm.pointEnd && sr.lastSeen == now
  }

  /** What an update does to one series: a series it does not mention stays as
      it is; a known series it mentions shows its last sample and keeps its
      labels; a new one shows its last sample if it got in. */
  lemma {:induction false} ApplySamplesEffect<H>(hash: Labels -> Hash, st: State<H>, n: string, samples: seq<Sample<H>>, maxSeries: int, now: Time, h: Hash)
    requires n in st.families
    ensures var f := st.families[n];
      var f' := ApplySamples(hash, st, n, samples, maxSeries, now).0.families[n];
      && (h in f.series ==> h in f'.series && f'.series[h].labels == f.series[h].labels)
      && match Latest(hash, samples, h)
         case None => (h in f'.series <==> h in f.series) && (h in f.series ==> f'.series[h] == f.series[h])
         case Some(sm) => h in f'.series ==> SeriesShows(f'.series[h], sm, now)
  {
    if samples != [] {
      ApplySamplesEffect(hash, st, n, samples[..|samples| - 1], maxSeries, now, h);
    }
  }

  /** A rejected update changes nothing; an accepted one accounts for every
      sample and leaves every other family and every owner alone. */
  lemma ApplyAccounts<H>(hash: Labels -> Hash, st: State<H>, metricType: string, upd: FamilyUpdate<H>, maxSeries: int, now: Time)
    requires Inv(hash, st)
    ensures var (st', stats) := Apply(hash, st, metricType, upd, maxSeries, now);
      && Inv(hash, st')
      && (stats.collisionRejected <==> Collides(st, metricType, upd.name))
      && (stats.collisionRejected ==> st' == st && stats.added == 0)
      && (!stats.collisionRejected ==> stats.added + stats.updated + stats.droppedLimit == |upd.samples|)
      && |Cached(st')| == |Cached(st)| + stats.added
      && (!stats.collisionRejected ==> upd.name in st'.families && st'.families == st.families[upd.name := st'.families[upd.name]])
      && (forall n :: n in st.families ==> n in st'.families && st'.families[n].metricType == st.families[n].metricType)
  {
    hide Inv, Cached, ApplySamples;
    if !Collides(st, metricType, upd.name) {
      var f := Opened(st, metricType, upd);
      PutKeepsInv(hash, st, upd.name, f);
      var put := Put(st, upd.name, f);
      ApplySamplesAccount(hash, put, upd.name, upd.samples, maxSeries, now);
      var st' := ApplySamples(hash, put, upd.name, upd.samples, maxSeries, now).0;
      OneKeyApart(put.families, st'.families, upd.name);
      assert st'.families == st.families[upd.name := st'.families[upd.name]];
    }
  }

  lemma OneKeyApart<T>(a: map<string, T>, b: map<string, T>, n: string)
    requires a - {n} == b - {n} && n in b
    ensures b == a[n := b[n]]
  {
    forall m | m != n
      ensures m in a <==> m in b
      ensures m in a ==> a[m] == b[m]
    {
      assert m in a <==> m in a - {n};
      assert m in b <==> m in b - {n};
      if m in a {
        assert (a - {n})[m] == (b - {n})[m];
      }
    }
  }

  // ------------------------------------------------- what the statistics count

  /** The samples of an update, by position, whose series is not cached. */
  ghost function Left<H>(hash: Labels -> Hash, after: set<Hash>, samples: seq<Sample<H>>): set<nat>
  {
    set i | 0 <= i < |samples| && hash(samples[i].labels) !in after
  }

  /** A series has come with one of the first `i` samples. */
  ghost predicate Came<H>(hash: Labels -> Hash, samples: seq<Sample<H>>, i: nat, h: Hash)
  {
    exists j :: 0 <= j < i && j < |samples| && hash(samples[j].labels) == h
  }

  /** Those whose series is cached, and was cached before or has come earlier in
      the same update. */
  ghost function Known<H>(hash: Labels -> Hash, before: set<Hash>, after: set<Hash>, samples: seq<Sample<H>>): set<nat>
  {
    set i | 0 <= i < |samples| && hash(samples[i].labels) in after
      && (hash(samples[i].labels) in before || Came(hash, samples, i, hash(samples[i].labels)))
  }

  /** A series that is left out comes after all that got in. */
  ghost predicate FirstComeFirstServed<H>(hash: Labels -> Hash, before: set<Hash>, after: set<Hash>, samples: seq<Sample<H>>)
  {
    forall i, h :: i in Left(hash, after, samples) && h in after && h !in before ==> Came(hash, samples, i, h)
  }

  /** What holds of the series cached before and after an update. */
  ghost predicate Counts<H>(hash: Labels -> Hash, before: set<Hash>, after: set<Hash>, samples: seq<Sample<H>>, maxSeries: int, stats: ApplyStats)
  {
    && before <= after
    && stats.added == |after| - |before|
    && stats.updated == |Known(hash, before, after, samples)|
    && stats.droppedLimit == |Left(hash, after, samples)|
    && (Left(hash, after, samples) != {} ==> |after| >= maxSeries)
    && (forall h :: h in after && h !in before ==> Came(hash, samples, |samples|, h))
    && FirstComeFirstServed(hash, before, after, samples)
  }

  lemma {:induction false} ApplySamplesCount<H>(hash: Labels -> Hash, st: State<H>, n: string, samples: seq<Sample<H>>, maxSeries: int, now: Time)
    requires n in st.families
    ensures var (st', stats) := ApplySamples(hash, st, n, samples, maxSeries, now);
      Counts(hash, st.families[n].series.Keys, st'.families[n].series.Keys, samples, maxSeries, stats)
  {
    var before := st.families[n].series.Keys;
    if samples == [] {
      NoneCount(hash, before, samples, maxSeries);
    } else {
      var front := samples[..|samples| - 1];
      ApplySamplesCount(hash, st, n, front, maxSeries, now);
      LastSample(hash, st, n, samples, maxSeries, now);
      hide *;
      var (mid, stats) := ApplySamples(hash, st, n, front, maxSeries, now);
      OneCounts(hash, before, mid.families[n].series.Keys, samples, maxSeries, stats);
    }
  }

  lemma NoneCount<H>(hash: Labels -> Hash, keys: set<Hash>, samples: seq<Sample<H>>, maxSeries: int)
    requires samples == []
    ensures Counts(hash, keys, keys, samples, maxSeries, ApplyStats(0, 0, 0, false))
  {
    assert Left(hash, keys, samples) == {} && Known(hash, keys, keys, samples) == {};
  }

  lemma OneCounts<H>(hash: Labels -> Hash, before: set<Hash>, keys: set<Hash>, samples: seq<Sample<H>>, maxSeries: int, stats: ApplyStats)
    requires samples != [] && Counts(hash, before, keys, samples[..|samples| - 1], maxSeries, stats)
    ensures var h := hash(samples[|samples| - 1].labels);
      Counts(hash, before, if h in keys || |keys| >= maxSeries then keys else keys + {h}, samples, maxSeries,
        if h in keys then stats.(updated := stats.updated + 1)
        else if |keys| >= maxSeries then stats.(droppedLimit := stats.droppedLimit + 1)
        else stats.(added := stats.added + 1))
  {
    var front, sm := samples[..|samples| - 1], samples[|samples| - 1];
    assert front + [sm] == samples;
    hide Counts;
    if hash(sm.labels) in keys {
      CountsKnown(hash, before, keys, front, sm, maxSeries, stats);
    } else if |keys| >= maxSeries {
      CountsLeft(hash, before, keys, front, sm, maxSeries, stats);
    } else {
      CountsNew(hash, before, keys, front, sm, maxSeries, stats);
    }
  }

  /** What one sample does to the series cached, and how it is counted. */
  lemma SampleKeys<H>(hash: Labels -> Hash, st: State<H>, n: string, sm: Sample<H>, maxSeries: int, now: Time)
    requires n in st.families
    ensures var keys, h := st.families[n].series.Keys, hash(sm.labels);
      var (st', stats) := ApplySample(hash, st, n, sm, maxSeries, now);
      && st'.families[n].series.Keys == (if h in keys || |keys| >= maxSeries then keys else keys + {h})
      && stats == if h in keys then ApplyStats(0, 1, 0, false)
                  else if |keys| >= maxSeries then ApplyStats(0, 0, 1, false)
                  else ApplyStats(1, 0, 0, false)
  {
    assert |st.families[n].series.Keys| == |st.families[n].series|;
  }

  lemma LastSample<H>(hash: Labels -> Hash, st: State<H>, n: string, samples: seq<Sample<H>>, maxSeries: int, now: Time)
    requires n in st.families && samples != []
    ensures var (mid, stats) := ApplySamples(hash, st, n, samples[..|samples| - 1], maxSeries, now);
      var (st', more) := ApplySamples(hash, st, n, samples, maxSeries, now);
      var keys, h := mid.families[n].series.Keys, hash(samples[|samples| - 1].labels);
      && st'.families[n].series.Keys == (if h in keys || |keys| >= maxSeries then keys else keys + {h})
      && more == if h in keys then stats.(updated := stats.updated + 1)
                 else if |keys| >= maxSeries then stats.(droppedLimit := stats.droppedLimit + 1)
                 else stats.(added := stats.added + 1)
  {
    var mid := ApplySamples(hash, st, n, samples[..|samples| - 1], maxSeries, now).0;
    SampleKeys(hash, mid, n, samples[|samples| - 1], maxSeries, now);
    hide ApplySample;
  }

  lemma CountsKnown<H>(hash: Labels -> Hash, before: set<Hash>, keys: set<Hash>, front: seq<Sample<H>>, sm: Sample<H>, maxSeries: int, stats: ApplyStats)
    requires Counts(hash, before, keys, front, maxSeries, stats) && hash(sm.labels) in keys
    ensures Counts(hash, before, keys, front + [sm], maxSeries, stats.(updated := stats.updated + 1))
  {
    hide Came, Left, Known, FirstComeFirstServed;
    CameFront(hash, front, sm);
    LeftSnoc(hash, keys, keys, front, sm);
    KnownSnoc(hash, before, keys, keys, front, sm);
    ServedSnoc(hash, before, keys, front, sm);
  }

  lemma CountsLeft<H>(hash: Labels -> Hash, before: set<Hash>, keys: set<Hash>, front: seq<Sample<H>>, sm: Sample<H>, maxSeries: int, stats: ApplyStats)
    requires Counts(hash, before, keys, front, maxSeries, stats) && hash(sm.labels) !in keys && |keys| >= maxSeries
    ensures Counts(hash, before, keys, front + [sm], maxSeries, stats.(droppedLimit := stats.droppedLimit + 1))
  {
    hide Came, Left, Known, FirstComeFirstServed;
    CameFront(hash, front, sm);
    LeftSnoc(hash, keys, keys, front, sm);
    KnownSnoc(hash, before, keys, keys, front, sm);
    ServedSnoc(hash, before, keys, front, sm);
  }

  lemma CountsNew<H>(hash: Labels -> Hash, before: set<Hash>, keys: set<Hash>, front: seq<Sample<H>>, sm: Sample<H>, maxSeries: int, stats: ApplyStats)
    requires Counts(hash, before, keys, front, maxSeries, stats) && hash(sm.labels) !in keys && |keys| < maxSeries
    ensures Counts(hash, before, keys + {hash(sm.labels)}, front + [sm], maxSeries, stats.(added := stats.added + 1))
  {
    var after := keys + {hash(sm.labels)};
    NotCome(hash, keys, front, sm);
    hide Came, Left, Known, FirstComeFirstServed;
    CameFront(hash, front, sm);
    LeftSnoc(hash, keys, after, front, sm);
    KnownSnoc(hash, before, keys, after, front, sm);
    NobodyLeft(hash, before, after, front + [sm]);
  }

  lemma LeftSnoc<H>(hash: Labels -> Hash, keys: set<Hash>, after: set<Hash>, front: seq<Sample<H>>, sm: Sample<H>)
    requires forall i :: 0 <= i < |front| ==> (hash(front[i].labels) in after <==> hash(front[i].labels) in keys)
    ensures var more := hash(sm.labels) !in after;
      && Left(hash, after, front + [sm]) == Left(hash, keys, front) + (if more then {|front|} else {})
      && |Left(hash, after, front + [sm])| == |Left(hash, keys, front)| + if more then 1 else 0
  {
    var all := front + [sm];
    assert all[|front|] == sm && forall i :: 0 <= i < |front| ==> all[i] == front[i];
    OneMoreIndex(Left(hash, after, all), Left(hash, keys, front), |front|, hash(sm.labels) !in after);
  }

  lemma KnownSnoc<H>(hash: Labels -> Hash, before: set<Hash>, keys: set<Hash>, after: set<Hash>, front: seq<Sample<H>>, sm: Sample<H>)
    requires forall i :: 0 <= i < |front| ==> (hash(front[i].labels) in after <==> hash(front[i].labels) in keys)
    ensures var h := hash(sm.labels);
      |Known(hash, before, after, front + [sm])| == |Known(hash, before, keys, front)|
        + if h in after && (h in before || Came(hash, front, |front|, h)) then 1 else 0
  {
    var all, h := front + [sm], hash(sm.labels);
    CameFront(hash, front, sm);
    hide Came;
    assert all[|front|] == sm && forall i :: 0 <= i < |front| ==> all[i] == front[i];
    OneMoreIndex(Known(hash, before, after, all), Known(hash, before, keys, front), |front|,
                 h in after && (h in before || Came(hash, front, |front|, h)));
  }

  /** Nobody comes before those who came with the samples so far. */
  lemma ServedSnoc<H>(hash: Labels -> Hash, before: set<Hash>, keys: set<Hash>, front: seq<Sample<H>>, sm: Sample<H>)
    requires FirstComeFirstServed(hash, before, keys, front)
    requires forall h :: h in keys && h !in before ==> Came(hash, front, |front|, h)
    ensures FirstComeFirstServed(hash, before, keys, front + [sm])
  {
    CameFront(hash, front, sm);
    LeftSnoc(hash, keys, keys, front, sm);
    hide Came, Left;
    forall i, h | i in Left(hash, keys, front + [sm]) && h in keys && h !in before
      ensures Came(hash, front + [sm], i, h)
    {
      LeftBelow(hash, keys, front);
      assert i in Left(hash, keys, front) || i == |front|;
    }
  }

  lemma LeftBelow<H>(hash: Labels -> Hash, keys: set<Hash>, samples: seq<Sample<H>>)
    ensures forall i :: i in Left(hash, keys, samples) ==> i < |samples|
  {}

  lemma NobodyLeft<H>(hash: Labels -> Hash, before: set<Hash>, after: set<Hash>, samples: seq<Sample<H>>)
    requires Left(hash, after, samples) == {}
    ensures FirstComeFirstServed(hash, before, after, samples)
  {
    hide Left;
  }

  /** What came with the samples before the last. */
  lemma CameFront<H>(hash: Labels -> Hash, front: seq<Sample<H>>, sm: Sample<H>)
    ensures forall i: nat, h :: i <= |front| ==> (Came(hash, front + [sm], i, h) <==> Came(hash, front, i, h))
    ensures forall h :: Came(hash, front + [sm], |front| + 1, h) <==> Came(hash, front, |front|, h) || h == hash(sm.labels)
  {
    var all := front + [sm];
    assert all[|front|] == sm && forall j :: 0 <= j < |front| ==> all[j] == front[j];
    forall h
      ensures Came(hash, all, |front| + 1, h) <==> Came(hash, front, |front|, h) || h == hash(sm.labels)
    {
      if Came(hash, front, |front|, h) {
        var j :| 0 <= j < |front| && hash(front[j].labels) == h;
        assert hash(all[j].labels) == h;
      } else if h == hash(sm.labels) {
        assert hash(all[|front|].labels) == h;
      }
    }
  }

  /** While nothing is left out, what has come is cached. */
  lemma NotCome<H>(hash: Labels -> Hash, keys: set<Hash>, front: seq<Sample<H>>, sm: Sample<H>)
    requires Left(hash, keys, front) == {} && hash(sm.labels) !in keys
    ensures forall i :: 0 <= i < |front| ==> hash(front[i].labels) in keys
    ensures !Came(hash, front, |front|, hash(sm.labels))
  {
    forall i | 0 <= i < |front|
      ensures hash(front[i].labels) in keys
    {
      assert i !in Left(hash, keys, front);
    }
  }

  /** What the statistics of an accepted update count, over its samples and the
      series cached before and after it: `updated` are the samples whose series
      was cached, or had entered with an earlier sample; `droppedLimit` are those
      whose series did not get in, which leaves the family at its limit and takes
      whoever comes first; `added` are the series more. */
  lemma ApplyCounts<H>(hash: Labels -> Hash, st: State<H>, metricType: string, upd: FamilyUpdate<H>, maxSeries: int, now: Time)
    requires !Collides(st, metricType, upd.name)
    ensures var (st', stats) := Apply(hash, st, metricType, upd, maxSeries, now);
      && !stats.collisionRejected && upd.name in st'.families
      && Counts(hash, if upd.name in st.families then st.families[upd.name].series.Keys else {}, st'.families[upd.name].series.Keys,
                upd.samples, maxSeries, stats)
  {
    ApplySamplesCount(hash, Put(st, upd.name, Opened(st, metricType, upd)), upd.name, upd.samples, maxSeries, now);
    NotRejected(hash, Put(st, upd.name, Opened(st, metricType, upd)), upd.name, upd.samples, maxSeries, now);
    hide Counts, ApplySamples;
  }

  lemma {:induction false} NotRejected<H>(hash: Labels -> Hash, st: State<H>, n: string, samples: seq<Sample<H>>, maxSeries: int, now: Time)
    requires n in st.families
    ensures !ApplySamples(hash, st, n, samples, maxSeries, now).1.collisionRejected
  {
    if samples != [] {
      NotRejected(hash, st, n, samples[..|samples| - 1], maxSeries, now);
    }
  }

  // ------------------------------------------------------------------- Sweep

  function Live<H>(f: Family<H>, cutoff: Time): Family<H>
  {
    f.(series := map h | h in f.series && f.series[h].lastSeen >= cutoff :: f.series[h])
  }

  /** The families after a sweep: stale series gone, empty families gone. */
  function SweptFamilies<H>(families: map<string, Family<H>>, cutoff: Time): map<string, Family<H>>
  {
    map n | n in families && Live(families[n], cutoff).series.Keys != {} :: Live(families[n], cutoff)
  }

  /** The pool that goes with some of the families. */
  ghost function Repooled<H>(st: State<H>, families: map<string, Family<H>>): State<H>
  {
    var bare := State(families, map[]);
    State(families, map h | h in st.intern && Holders(bare, h) != {} :: InternEntry(st.intern[h].lbls, |Holders(bare, h)|))
  }

  ghost function Sweep<H>(st: State<H>, cutoff: Time): State<H>
  {
    Repooled(st, SweptFamilies(st.families, cutoff))
  }

  lemma SweepKeepsPool<H>(hash: Labels -> Hash, st: State<H>, cutoff: Time, h: Hash)
    requires PoolAgrees(hash, st, h)
    ensures PoolAgrees(hash, Sweep(st, cutoff), h)
  {
    var st' := Sweep(st, cutoff);
    var bare := State(st'.families, map[]);
    assert Holders(st', h) == Holders(bare, h);
    assert forall n :: n in Holders(st', h) ==> n in Holders(st, h) && st'.families[n].series[h] == st.families[n].series[h];
  }

  lemma SweepKeepsInv<H>(hash: Labels -> Hash, st: State<H>, cutoff: Time)
    requires Inv(hash, st)
    ensures Inv(hash, Sweep(st, cutoff))
  {
    hide PoolAgrees;
    forall h
      ensures PoolAgrees(hash, Sweep(st, cutoff), h)
    {
      SweepKeepsPool(hash, st, cutoff, h);
    }
  }

  /** Whatever order the series are visited in, a state that keeps the
      invariant and has the swept families is the swept state. */
  lemma SweepIsDetermined<H>(hash: Labels -> Hash, st: State<H>, cutoff: Time, st': State<H>)
    requires Inv(hash, st) && Inv(hash, st') && st'.families == SweptFamilies(st.families, cutoff)
    ensures st' == Sweep(st, cutoff)
  {
    SweepKeepsInv(hash, st, cutoff);
    PoolDetermined(hash, st', Sweep(st, cutoff));
  }

  /** After a sweep exactly the series seen at or after the cutoff remain,
      unchanged. */
  lemma SweepKeepsTheLive<H>(st: State<H>, cutoff: Time, n: string, h: Hash)
    ensures (n, h) in Cached(Sweep(st, cutoff)) <==> (n, h) in Cached(st) && st.families[n].series[h].lastSeen >= cutoff
    ensures (n, h) in Cached(Sweep(st, cutoff)) ==>
      Sweep(st, cutoff).families[n].series[h] == st.families[n].series[h]
  {
    if (n, h) in Cached(st) && st.families[n].series[h].lastSeen >= cutoff {
      assert h in Live(st.families[n], cutoff).series.Keys;
    }
  }

  ghost function Evicted<H>(st: State<H>, cutoff: Time): set<(string, Hash)>
  {
    Cached(st) - Cached(Sweep(st, cutoff))
  }

  lemma SweepAccounts<H>(st: State<H>, cutoff: Time)
    ensures |Cached(Sweep(st, cutoff))| == |Cached(st)| - |Evicted(st, cutoff)|
  {
    forall n, h | (n, h) in Cached(Sweep(st, cutoff))
      ensures (n, h) in Cached(st)
    {
      SweepKeepsTheLive(st, cutoff, n, h);
    }
    assert Cached(Sweep(st, cutoff)) <= Cached(st);
  }

  // -------------------------------------------------------------------- runs

  datatype Op<+H> =
    | ApplyOp(metricType: string, upd: FamilyUpdate<H>, maxSeries: int, now: Time)
    | SweepOp(cutoff: Time)

  ghost function Step<H>(hash: Labels -> Hash, st: State<H>, op: Op<H>): State<H>
  {
    match op
    case ApplyOp(mt, upd, maxSeries, now) => Apply(hash, st, mt, upd, maxSeries, now).0
    case SweepOp(cutoff) => Sweep(st, cutoff)
  }

  ghost function After<H>(hash: Labels -> Hash, ops: seq<Op<H>>): State<H>
  {
    if ops == [] then Empty() else Step(hash, After(hash, ops[..|ops| - 1]), ops[|ops| - 1])
  }

  /** Series added, and series evicted, over a run. */
  ghost function TotalAdded<H>(hash: Labels -> Hash, ops: seq<Op<H>>): nat
  {
    if ops == [] then 0 else
    var front, op := ops[..|ops| - 1], ops[|ops| - 1];
    TotalAdded(hash, front) + match op
      case ApplyOp(mt, upd, maxSeries, now) => Apply(hash, After(hash, front), mt, upd, maxSeries, now).1.added
      case SweepOp(_) => 0
  }

  ghost function TotalEvicted<H>(hash: Labels -> Hash, ops: seq<Op<H>>): nat
  {
    if ops == [] then 0 else
    var front, op := ops[..|ops| - 1], ops[|ops| - 1];
    TotalEvicted(hash, front) + match op
      case ApplyOp(_, _, _, _) => 0
      case SweepOp(cutoff) => |Evicted(After(hash, front), cutoff)|
  }

  /** Over any run the pool agrees with the families, and the series cached are
      those added less those evicted. */
  lemma {:induction false} RunAccounts<H>(hash: Labels -> Hash, ops: seq<Op<H>>)
    ensures Inv(hash, After(hash, ops))
    ensures |Cached(After(hash, ops))| == TotalAdded(hash, ops) - TotalEvicted(hash, ops)
  {
    if ops == [] {
      assert forall h :: PoolAgrees(hash, Empty<H>(), h);
      assert Cached(Empty<H>()) == {};
    } else {
      var front, op := ops[..|ops| - 1], ops[|ops| - 1];
      hide Inv, Cached, Apply, Sweep, Evicted;
      RunAccounts(hash, front);
      match op {
        case ApplyOp(mt, upd, maxSeries, now) =>
          ApplyAccounts(hash, After(hash, front), mt, upd, maxSeries, now);
        case SweepOp(cutoff) =>
          SweepKeepsInv(hash, After(hash, front), cutoff);
          SweepAccounts(After(hash, front), cutoff);
      }
    }
  }

  /** A family keeps its owner as long as it exists. */
  lemma OwnersStay<H>(hash: Labels -> Hash, st: State<H>, op: Op<H>, n: string)
    requires Inv(hash, st)
    requires n in st.families && n in Step(hash, st, op).families
    ensures Step(hash, st, op).families[n].metricType == st.families[n].metricType
  {
    if op.ApplyOp? {
      hide Apply, Inv;
      ApplyAccounts(hash, st, op.metricType, op.upd, op.maxSeries, op.now);
    }
  }

  /** With one limit throughout, no family ever exceeds it. */
  lemma {:induction false} LimitHolds<H>(hash: Labels -> Hash, ops: seq<Op<H>>, maxSeries: nat, n: string)
    requires forall op :: op in ops && op.ApplyOp? ==> op.maxSeries == maxSeries
    requires n in After(hash, ops).families
    ensures |After(hash, ops).families[n].series| <= maxSeries
  {
    var front, op := ops[..|ops| - 1], ops[|ops| - 1];
    var st := After(hash, front);
    assert op in ops;
    RunAccounts(hash, front);
    if n in st.families {
      LimitHolds(hash, front, maxSeries, n);
    }
    match op {
      case ApplyOp(mt, upd, limit, now) =>
        hide Inv, Cached;
        if Collides(st, mt, upd.name) {
        } else if n == upd.name {
          PutKeepsInv(hash, st, n, Opened(st, mt, upd));
          ApplySamplesAccount(hash, Put(st, n, Opened(st, mt, upd)), n, upd.samples, limit, now);
        } else {
          hide Apply;
          ApplyAccounts(hash, st, mt, upd, limit, now);
        }
      case SweepOp(cutoff) =>
        SmallerMap(Live(st.families[n], cutoff).series.Keys, st.families[n].series.Keys);
    }
  }

  lemma SmallerMap(a: set<Hash>, b: set<Hash>)
    requires a <= b
    ensures |a| <= |b|
  {
    assert b == a + (b - a);
  }
}
