/** The in-memory series store of internal/cache: it updates its maps in place. */
module Cache {
  import opened Basics
  import opened TranslateSpec
  import opened CacheSpec
  import opened CacheRuns

  class Store<H> {
    const hash: Labels -> Hash
    var families: map<string, Family<H>>
    var intern: map<Hash, InternEntry>

    ghost function View(): State<H>
      reads this
    {
      State(families, intern)
    }

    ghost predicate Valid()
      reads this
    {
      Inv(hash, View())
    }

    constructor (hash: Labels -> Hash)
      ensures this.hash == hash && Valid() && View() == Empty()
    {
      this.hash := hash;
      families, intern := map[], map[];
      new;
      assert forall h :: PoolAgrees(hash, View(), h);
    }

    /** Shares one label set between all series with the same hash. */
    method Intern(h: Hash, l: Labels) returns (shared: Labels)
      modifies this`intern
      ensures (intern, shared) == old(InternLabels(intern, h, l))
    {
      if h in intern {
        var e := intern[h];
        intern := intern[h := e.(refs := e.refs + 1)];
        return e.lbls;
      }
      intern := intern[h := InternEntry(l, 1)];
      shared := l;
    }

    method Release(h: Hash)
      modifies this`intern
      ensures intern == old(ReleaseLabels(intern, h))
    {
      if h in intern {
        var e := intern[h].(refs := intern[h].refs - 1);
        if e.refs <= 0 {
          intern := intern - {h};
        } else {
          intern := intern[h := e];
        }
      }
    }

    /** One sample of an accepted update. */
    method ApplyOne(n: string, sm: Sample<H>, maxSeries: int, now: Time) returns (stats: ApplyStats)
      requires n in families
      modifies this
      ensures n in families
      ensures (View(), stats) == old(ApplySample(hash, View(), n, sm, maxSeries, now))
    {
      var h := hash(sm.labels);
      var f := families[n];
      if h in f.series {
        var sr := f.series[h].(value := sm.value, hist := sm.hist, pointEnd := sm.pointEnd, lastSeen := now);
        families := families[n := f.(series := f.series[h := sr])];
        return ApplyStats(0, 1, 0, false);
      }
      if |f.series| >= maxSeries {
        return ApplyStats(0, 0, 1, false);
      }
      var shared := Intern(h, sm.labels);
      families := families[n := f.(series := f.series[h := Series(shared, h, sm.value, sm.hist, sm.pointEnd, now)])];
      stats := ApplyStats(1, 0, 0, false);
    }

    /** Merges one metric type's translated poll result. */
    method Apply(metricType: string, upd: FamilyUpdate<H>, maxSeries: int, now: Time) returns (stats: ApplyStats)
      requires Valid()
      modifies this
      ensures Valid()
      ensures (View(), stats) == old(CacheSpec.Apply(hash, View(), metricType, upd, maxSeries, now))
    {
      hide Inv, CacheSpec.ApplySample;
      ApplyAccounts(hash, View(), metricType, upd, maxSeries, now);
      stats := ApplyStats(0, 0, 0, false);
      var n := upd.name;
      if n in families && families[n].metricType != metricType {
        return stats.(collisionRejected := true);
      }
      var f := if n in families then families[n] else Family(n, "", KindGauge, metricType, map[]);
      families := families[n := f.(name := n, help := upd.help, kind := upd.kind, metricType := metricType)];
      ghost var opened_ := View();
      for i := 0 to |upd.samples|
        invariant n in families
        invariant (View(), stats) == ApplySamples(hash, opened_, n, upd.samples[..i], maxSeries, now)
      {
        var more := ApplyOne(n, upd.samples[i], maxSeries, now);
        assert upd.samples[..i + 1][..i] == upd.samples[..i];
        stats := AddApplyStats(stats, more);
      }
      assert upd.samples[..|upd.samples|] == upd.samples;
    }

    /** Evicts the stale series of one family, in any order. */
    method SweepFamily(n: string, cutoff: Time) returns (evicted: nat)
      requires Valid() && n in families
      modifies this
      ensures Valid()
      ensures families == old(families[n := Live(families[n], cutoff)]) && families.Keys == old(families.Keys)
      ensures evicted == old(|Cached(View())|) - |Cached(View())|
    {
      hide Inv, PoolAgrees, Cached, Pending;
      evicted := 0;
      ghost var f := families[n];
      ghost var others := families;
      var todo := families[n].series.Keys;
      PendingEnds(f, cutoff);
      while todo != {}
        invariant Valid() && n in families
        invariant families == others[n := Pending(f, todo, cutoff)] && todo <= Pending(f, todo, cutoff).series.Keys
        invariant evicted == old(|Cached(View())|) - |Cached(View())|
        decreases todo
      {
        var h :| h in todo;
        PendingStep(f, todo, h, cutoff);
        todo := todo - {h};
        if families[n].series[h].lastSeen < cutoff {
          EvictKeepsInv(hash, View(), n, h);
          Release(h);
          families := families[n := families[n].(series := families[n].series - {h})];
          evicted := evicted + 1;
        }
      }
    }

    /** Evicts series unseen since the cutoff and removes emptied families. */
    method Sweep(cutoff: Time) returns (evictedSeries: nat, evictedFamilies: nat)
      requires Valid()
      modifies this
      ensures Valid()
      ensures View() == old(CacheRuns.Sweep(View(), cutoff))
      ensures evictedSeries == |old(Evicted(View(), cutoff))|
      ensures evictedFamilies == |old(families.Keys)| - |families.Keys|
    {
      hide Inv, PoolAgrees, Cached, Unswept, Live;
      evictedSeries, evictedFamilies := 0, 0;
      ghost var st := View();
      var todo := families.Keys;
      UnsweptEnds(families, cutoff);
      while todo != {}
        invariant Valid()
        invariant families == Unswept(st.families, todo, cutoff) && todo <= families.Keys
        invariant evictedSeries == |Cached(st)| - |Cached(View())|
        invariant evictedFamilies == |st.families.Keys| - |families.Keys|
        decreases todo
      {
        var n :| n in todo;
        UnsweptStep(st.families, todo, n, cutoff);
        todo := todo - {n};
        var evicted := SweepFamily(n, cutoff);
        evictedSeries := evictedSeries + evicted;
        KeyRemoval(families, n);
        if |families[n].series| == 0 {
          DropKeepsInv(hash, View(), n);
          families := families - {n};
          evictedFamilies := evictedFamilies + 1;
        }
      }
      SweepIsDetermined(hash, st, cutoff, View());
      SweepAccounts(st, cutoff);
    }
  }

  // ------------------------------------------------------- sweeps in progress

  lemma KeyRemoval<T>(m: map<string, T>, n: string)
    requires n in m
    ensures |(m - {n}).Keys| == |m.Keys| - 1
  {
    assert (m - {n}).Keys == m.Keys - {n};
  }

  /** A family some of whose series are still to be looked at. */
  ghost function Pending<H>(f: Family<H>, todo: set<Hash>, cutoff: Time): Family<H>
  {
    f.(series := map h | h in f.series && (h in todo || f.series[h].lastSeen >= cutoff) :: f.series[h])
  }

  lemma PendingEnds<H>(f: Family<H>, cutoff: Time)
    ensures Pending(f, f.series.Keys, cutoff) == f
    ensures Pending(f, {}, cutoff) == Live(f, cutoff)
  {
    assert Pending(f, f.series.Keys, cutoff).series == f.series;
  }

  lemma PendingStep<H>(f: Family<H>, todo: set<Hash>, h: Hash, cutoff: Time)
    requires h in todo && todo <= Pending(f, todo, cutoff).series.Keys
    ensures var p, p' := Pending(f, todo, cutoff), Pending(f, todo - {h}, cutoff);
      && todo - {h} <= p'.series.Keys
      && p' == if p.series[h].lastSeen < cutoff then p.(series := p.series - {h}) else p
  {
    var p, p' := Pending(f, todo, cutoff), Pending(f, todo - {h}, cutoff);
    if p.series[h].lastSeen < cutoff {
      assert p'.series == p.series - {h};
    } else {
      assert p'.series == p.series;
    }
  }

  /** Families some of which are still to be swept. */
  ghost function Unswept<H>(families: map<string, Family<H>>, todo: set<string>, cutoff: Time): map<string, Family<H>>
  {
    map n | n in families && (n in todo || Live(families[n], cutoff).series.Keys != {})
      :: if n in todo then families[n] else Live(families[n], cutoff)
  }

  lemma UnsweptEnds<H>(families: map<string, Family<H>>, cutoff: Time)
    ensures Unswept(families, families.Keys, cutoff) == families
    ensures Unswept(families, {}, cutoff) == SweptFamilies(families, cutoff)
  {}

  lemma UnsweptStep<H>(families: map<string, Family<H>>, todo: set<string>, n: string, cutoff: Time)
    requires n in todo && todo <= Unswept(families, todo, cutoff).Keys
    ensures var u, u' := Unswept(families, todo, cutoff), Unswept(families, todo - {n}, cutoff);
      && todo - {n} <= u'.Keys
      && u' == if Live(u[n], cutoff).series == map[] then u[n := Live(u[n], cutoff)] - {n} else u[n := Live(u[n], cutoff)]
  {
    var u, u' := Unswept(families, todo, cutoff), Unswept(families, todo - {n}, cutoff);
    if Live(u[n], cutoff).series.Keys == {} {
      assert u' == u[n := Live(u[n], cutoff)] - {n};
    } else {
      assert u' == u[n := Live(u[n], cutoff)];
    }
  }
}
