/** The latest-value store of internal/cache as a state machine on values:
    families keyed by name, series keyed by label hash, and a refcounted pool of
    label sets. H is the type of histogram references. */
module CacheSpec {
  import opened Basics
  import opened TranslateSpec

  datatype Series<+H> = Series(labels: Labels, hash: Hash, value: real, hist: H, pointEnd: Time, lastSeen: Time)
  datatype Family<+H> = Family(name: string, help: string, kind: Kind, metricType: string, series: map<Hash, Series<H>>)
  datatype InternEntry = InternEntry(lbls: Labels, refs: int)
  datatype State<+H> = State(families: map<string, Family<H>>, intern: map<Hash, InternEntry>)
  datatype ApplyStats = ApplyStats(added: nat, updated: nat, droppedLimit: nat, collisionRejected: bool)

  function Empty<H>(): State<H>
  {
    State(map[], map[])
  }

  /** The families holding a series with a given hash. */
  ghost function Holders<H>(st: State<H>, h: Hash): set<string>
  {
    set n | n in st.families && h in st.families[n].series
  }

  /** Every cached series, by family name and hash. */
  ghost function Cached<H>(st: State<H>): set<(string, Hash)>
  {
    set n, h | n in st.families && h in st.families[n].series :: (n, h)
  }

  /** The label pool agrees with the families: an entry exists exactly while
      some family holds its hash, counts the families that do, and carries the
      labels of their series. */
  ghost predicate PoolAgrees<H>(hash: Labels -> Hash, st: State<H>, h: Hash)
  {
    if Holders(st, h) == {} then h !in st.intern
    else
      && h in st.intern
      && st.intern[h].refs == |Holders(st, h)|
      && hash(st.intern[h].lbls) == h
      && forall n :: n in Holders(st, h) ==> st.families[n].series[h].labels == st.intern[h].lbls
  }

  ghost predicate Inv<H>(hash: Labels -> Hash, st: State<H>)
  {
    && (forall n :: n in st.families ==> st.families[n].name == n)
    && (forall n, h :: n in st.families && h in st.families[n].series ==> st.families[n].series[h].hash == h)
    && (forall h :: PoolAgrees(hash, st, h))
  }

  // ------------------------------------------------------------ elementary steps

  function Put<H>(st: State<H>, n: string, f: Family<H>): State<H>
  {
    State(st.families[n := f], st.intern)
  }

  /** A pool entry for one more holder. */
  function InternLabels(intern: map<Hash, InternEntry>, h: Hash, l: Labels): (r: (map<Hash, InternEntry>, Labels))
  {
    if h in intern then (intern[h := intern[h].(refs := intern[h].refs + 1)], intern[h].lbls)
    else (intern[h := InternEntry(l, 1)], l)
  }

  /** A pool entry with one holder less. */
  function ReleaseLabels(intern: map<Hash, InternEntry>, h: Hash): map<Hash, InternEntry>
  {
    if h !in intern then intern
    else if intern[h].refs - 1 <= 0 then intern - {h}
    else intern[h := intern[h].(refs := intern[h].refs - 1)]
  }

  function UpdateSeries<H>(st: State<H>, n: string, h: Hash, sm: Sample<H>, now: Time): State<H>
    requires n in st.families && h in st.families[n].series
  {
    var f := st.families[n];
    var sr := f.series[h].(value := sm.value, hist := sm.hist, pointEnd := sm.pointEnd, lastSeen := now);
    Put(st, n, f.(series := f.series[h := sr]))
  }

  function InsertSeries<H>(st: State<H>, n: string, h: Hash, sm: Sample<H>, now: Time): State<H>
    requires n in st.families && h !in st.families[n].series
  {
    var f := st.families[n];
    var (intern, lbls) := InternLabels(st.intern, h, sm.labels);
    State(st.families[n := f.(series := f.series[h := Series(lbls, h, sm.value, sm.hist, sm.pointEnd, now)])], intern)
  }

  function EvictSeries<H>(st: State<H>, n: string, h: Hash): State<H>
    requires n in st.families && h in st.families[n].series
  {
    var f := st.families[n];
    State(st.families[n := f.(series := f.series - {h})], ReleaseLabels(st.intern, h))
  }

  lemma InsertKeepsPool<H>(hash: Labels -> Hash, st: State<H>, n: string, sm: Sample<H>, now: Time, g: Hash)
    requires PoolAgrees(hash, st, g) && n in st.families && hash(sm.labels) !in st.families[n].series
    ensures PoolAgrees(hash, InsertSeries(st, n, hash(sm.labels), sm, now), g)
  {
    var h := hash(sm.labels);
    var st' := InsertSeries(st, n, h, sm, now);
    if g != h {
      assert Holders(st', g) == Holders(st, g);
    } else if Holders(st, h) == {} {
      InsertOpensPool(hash, st, n, sm, now);
    } else {
      InsertJoinsPool(hash, st, n, sm, now);
    }
  }

  lemma InsertOpensPool<H>(hash: Labels -> Hash, st: State<H>, n: string, sm: Sample<H>, now: Time)
    requires n in st.families && hash(sm.labels) !in st.families[n].series
    requires PoolAgrees(hash, st, hash(sm.labels)) && Holders(st, hash(sm.labels)) == {}
    ensures PoolAgrees(hash, InsertSeries(st, n, hash(sm.labels), sm, now), hash(sm.labels))
  {
    var st' := InsertSeries(st, n, hash(sm.labels), sm, now);
    assert st'.intern[hash(sm.labels)] == InternEntry(sm.labels, 1);
    assert forall m :: m in Holders(st', hash(sm.labels)) ==> m == n || m in Holders(st, hash(sm.labels));
    assert Holders(st', hash(sm.labels)) == {n};
  }

  lemma InsertJoinsPool<H>(hash: Labels -> Hash, st: State<H>, n: string, sm: Sample<H>, now: Time)
    requires n in st.families && hash(sm.labels) !in st.families[n].series
    requires PoolAgrees(hash, st, hash(sm.labels)) && Holders(st, hash(sm.labels)) != {}
    ensures PoolAgrees(hash, InsertSeries(st, n, hash(sm.labels), sm, now), hash(sm.labels))
  {
    var h := hash(sm.labels);
    var st' := InsertSeries(st, n, h, sm, now);
    assert n !in Holders(st, h);
    assert Holders(st', h) == Holders(st, h) + {n};
    assert st'.intern[h] == st.intern[h].(refs := st.intern[h].refs + 1);
  }

  lemma InsertKeepsInv<H>(hash: Labels -> Hash, st: State<H>, n: string, sm: Sample<H>, now: Time)
    requires Inv(hash, st) && n in st.families && hash(sm.labels) !in st.families[n].series
    ensures Inv(hash, InsertSeries(st, n, hash(sm.labels), sm, now))
    ensures Cached(InsertSeries(st, n, hash(sm.labels), sm, now)) == Cached(st) + {(n, hash(sm.labels))}
    ensures |Cached(InsertSeries(st, n, hash(sm.labels), sm, now))| == |Cached(st)| + 1
  {
    hide PoolAgrees;
    assert (n, hash(sm.labels)) !in Cached(st);
    forall g
      ensures PoolAgrees(hash, InsertSeries(st, n, hash(sm.labels), sm, now), g)
    {
      InsertKeepsPool(hash, st, n, sm, now, g);
    }
  }

  lemma UpdateKeepsInv<H>(hash: Labels -> Hash, st: State<H>, n: string, h: Hash, sm: Sample<H>, now: Time)
    requires Inv(hash, st) && n in st.families && h in st.families[n].series
    ensures Inv(hash, UpdateSeries(st, n, h, sm, now))
    ensures Cached(UpdateSeries(st, n, h, sm, now)) == Cached(st)
  {
    var st' := UpdateSeries(st, n, h, sm, now);
    forall g
      ensures PoolAgrees(hash, st', g)
    {
      assert PoolAgrees(hash, st, g);
      assert Holders(st', g) == Holders(st, g);
    }
  }

  lemma EvictKeepsPool<H>(hash: Labels -> Hash, st: State<H>, n: string, h: Hash, g: Hash)
    requires PoolAgrees(hash, st, g) && n in st.families && h in st.families[n].series
    ensures PoolAgrees(hash, EvictSeries(st, n, h), g)
  {
    var st' := EvictSeries(st, n, h);
    if g == h {
      assert n in Holders(st, h);
      assert Holders(st', h) == Holders(st, h) - {n};
      assert |Holders(st', h)| == |Holders(st, h)| - 1;
    } else {
      assert Holders(st', g) == Holders(st, g);
    }
  }

  lemma EvictKeepsInv<H>(hash: Labels -> Hash, st: State<H>, n: string, h: Hash)
    requires Inv(hash, st) && n in st.families && h in st.families[n].series
    ensures Inv(hash, EvictSeries(st, n, h))
    ensures Cached(EvictSeries(st, n, h)) == Cached(st) - {(n, h)}
    ensures |Cached(EvictSeries(st, n, h))| == |Cached(st)| - 1
  {
    hide PoolAgrees;
    assert (n, h) in Cached(st);
    forall g
      ensures PoolAgrees(hash, EvictSeries(st, n, h), g)
    {
      EvictKeepsPool(hash, st, n, h, g);
    }
  }

  /** Opening an empty family, or changing what a family says about itself,
      does not touch the series. */
  lemma PutKeepsInv<H>(hash: Labels -> Hash, st: State<H>, n: string, f: Family<H>)
    requires Inv(hash, st) && f.name == n
    requires f.series == if n in st.families then st.families[n].series else map[]
    ensures Inv(hash, Put(st, n, f)) && Cached(Put(st, n, f)) == Cached(st)
  {
    var st' := Put(st, n, f);
    forall g
      ensures PoolAgrees(hash, st', g)
    {
      assert PoolAgrees(hash, st, g);
      assert Holders(st', g) == Holders(st, g);
    }
  }

  lemma DropKeepsInv<H>(hash: Labels -> Hash, st: State<H>, n: string)
    requires Inv(hash, st) && n in st.families && st.families[n].series == map[]
    ensures Inv(hash, State(st.families - {n}, st.intern))
    ensures Cached(State(st.families - {n}, st.intern)) == Cached(st)
  {
    var st' := State(st.families - {n}, st.intern);
    forall g
      ensures PoolAgrees(hash, st', g)
    {
      assert PoolAgrees(hash, st, g);
      assert Holders(st', g) == Holders(st, g);
    }
  }

  /** The pool is a function of the families, so a state is determined by its
      families; in particular the pool is empty when nothing is cached. */
  lemma PoolDetermined<H>(hash: Labels -> Hash, a: State<H>, b: State<H>)
    requires Inv(hash, a) && Inv(hash, b) && a.families == b.families
    ensures a == b
  {
    forall h
      ensures h in a.intern <==> h in b.intern
      ensures h in a.intern ==> a.intern[h] == b.intern[h]
    {
      assert PoolAgrees(hash, a, h) && PoolAgrees(hash, b, h);
      assert Holders(a, h) == Holders(b, h);
      if h in a.intern {
        var n :| n in Holders(a, h);
      }
    }
  }

  lemma PoolEmptyWithoutSeries<H>(hash: Labels -> Hash, st: State<H>)
    requires Inv(hash, st) && Cached(st) == {}
    ensures st.intern == map[]
  {
    forall h
      ensures h !in st.intern
    {
      assert PoolAgrees(hash, st, h);
      assert forall n :: n in Holders(st, h) ==> (n, h) in Cached(st);
    }
  }

  // ------------------------------------------------------------------- Apply

  /** One sample of a poll result: known series update, new ones enter while
      the family is below its limit. */
  function ApplySample<H>(hash: Labels -> Hash, st: State<H>, n: string, sm: Sample<H>, maxSeries: int, now: Time): (r: (State<H>, ApplyStats))
    requires n in st.families
    ensures n in r.0.families
  {
    var h := hash(sm.labels);
    if h in st.families[n].series then (UpdateSeries(st, n, h, sm, now), ApplyStats(0, 1, 0, false))
    else if |st.families[n].series| >= maxSeries then (st, ApplyStats(0, 0, 1, false))
    else (InsertSeries(st, n, h, sm, now), ApplyStats(1, 0, 0, false))
  }

  function AddApplyStats(a: ApplyStats, b: ApplyStats): ApplyStats
  {
    ApplyStats(a.added + b.added, a.updated + b.updated, a.droppedLimit + b.droppedLimit, a.collisionRejected || b.collisionRejected)
  }

  function ApplySamples<H>(hash: Labels -> Hash, st: State<H>, n: string, samples: seq<Sample<H>>, maxSeries: int, now: Time): (r: (State<H>, ApplyStats))
    requires n in st.families
    ensures n in r.0.families
  {
    if samples == [] then (st, ApplyStats(0, 0, 0, false)) else
    var (before, stats) := ApplySamples(hash, st, n, samples[..|samples| - 1], maxSeries, now);
    var (after, more) := ApplySample(hash, before, n, samples[|samples| - 1], maxSeries, now);
    (after, AddApplyStats(stats, more))
  }

  /** Whether a family name belongs to another metric type. */
  predicate Collides<H>(st: State<H>, metricType: string, n: string)
  {
    n in st.families && st.families[n].metricType != metricType
  }

  /** The family of an update, opened if need be. */
  function Opened<H>(st: State<H>, metricType: string, upd: FamilyUpdate<H>): Family<H>
  {
    Family(upd.name, upd.help, upd.kind, metricType, if upd.name in st.families then st.families[upd.name].series else map[])
  }

  function Apply<H>(hash: Labels -> Hash, st: State<H>, metricType: string, upd: FamilyUpdate<H>, maxSeries: int, now: Time): (State<H>, ApplyStats)
  {
    if Collides(st, metricType, upd.name) then (st, ApplyStats(0, 0, 0, true))
    else ApplySamples(hash, Put(st, upd.name, Opened(st, metricType, upd)), upd.name, upd.samples, maxSeries, now)
  }

  /** Every sample of an accepted update is added, updated or dropped at the
      limit; the number of cached series grows by those added; the family
      stays within its limit; other families and owners are untouched. */
  lemma {:induction false} ApplySamplesAccount<H>(hash: Labels -> Hash, st: State<H>, n: string, samples: seq<Sample<H>>, maxSeries: int, now: Time)
    requires Inv(hash, st) && n in st.families
    ensures var (st', stats) := ApplySamples(hash, st, n, samples, maxSeries, now);
      && Inv(hash, st')
      && stats.added + stats.updated + stats.droppedLimit == |samples| && !stats.collisionRejected
      && |Cached(st')| == |Cached(st)| + stats.added
      && (|st.families[n].series| <= maxSeries ==> |st'.families[n].series| <= maxSeries)
      && st'.families[n].metricType == st.families[n].metricType
      && st'.families - {n} == st.families - {n}
  {
    if samples != [] {
      var front, sm := samples[..|samples| - 1], samples[|samples| - 1];
      ApplySamplesAccount(hash, st, n, front, maxSeries, now);
      var before := ApplySamples(hash, st, n, front, maxSeries, now).0;
      ApplySampleAccounts(hash, before, n, sm, maxSeries, now);
    }
  }

  lemma ApplySampleAccounts<H>(hash: Labels -> Hash, st: State<H>, n: string, sm: Sample<H>, maxSeries: int, now: Time)
    requires Inv(hash, st) && n in st.families
    ensures var (st', stats) := ApplySample(hash, st, n, sm, maxSeries, now);
      && Inv(hash, st')
      && stats.added + stats.updated + stats.droppedLimit == 1 && !stats.collisionRejected
      && |Cached(st')| == |Cached(st)| + stats.added
      && (|st.families[n].series| <= maxSeries ==> |st'.families[n].series| <= maxSeries)
      && st'.families[n].metricType == st.families[n].metricType
      && st'.families - {n} == st.families - {n}
  {
    hide Inv, Cached;
    var h := hash(sm.labels);
    var f := st.families[n];
    if h in f.series {
      UpdateKeepsInv(hash, st, n, h, sm, now);
      var st' := UpdateSeries(st, n, h, sm, now);
      assert st'.families[n].series.Keys == f.series.Keys;
    } else if |f.series| < maxSeries {
      InsertKeepsInv(hash, st, n, sm, now);
      var st' := InsertSeries(st, n, h, sm, now);
      assert st'.families[n].series.Keys == f.series.Keys + {h};
    }
  }
}
