/** The translator of internal/translate: it owns the DELTA accumulators on the
    heap and updates them in place. */
module Translators {
  import opened Basics
  import opened Histograms
  import opened DeltaLog
  import opened TranslateSpec

  /** A running histogram whose per-bucket counts are updated in place. */
  class HistAccum {
    const bounds: seq<real>
    const raw: array<nat>
    var count: nat
    var sum: real

    constructor (bounds: seq<real>)
      ensures this.bounds == bounds && fresh(raw)
      ensures Valid() && View() == EmptyHist(bounds)
    {
      this.bounds := bounds;
      raw := new nat[|bounds| + 1](_ => 0);
      count, sum := 0, 0.0;
      new;
      assert raw[..] == EmptyHist(bounds).raw;
    }

    ghost predicate Valid()
    {
      raw.Length == |bounds| + 1
    }

    ghost function View(): HistAcc
      reads this, raw
    {
      HistAcc(bounds, raw[..], count, sum)
    }

    /** Adds one distribution of the same layout. */
    method Add(d: Distribution)
      requires Valid() && Bounds(d.options) == Some(bounds)
      modifies this, raw
      ensures Valid() && View() == old(AddDist(Some(View()), d))
    {
      var counts := RawBucketCounts(d.bucketCounts, |bounds| + 1);
      for j := 0 to raw.Length
        invariant forall i :: 0 <= i < raw.Length ==> raw[i] == old(raw[i]) + if i < j then counts[i] else 0
        invariant count == old(count) && sum == old(sum)
        invariant counts[..] == RawCounts(d.bucketCounts, |bounds| + 1)
      {
        raw[j] := raw[j] + counts[j];
      }
      count := count + Uint64(d.count);
      sum := sum + d.mean * d.count as real;
      assert raw[..] == AddRaw(old(raw[..]), RawCounts(d.bucketCounts, |bounds| + 1));
    }

    /** The histogram published for this state, in memory of its own. */
    method Publish() returns (hv: HistogramValue)
      requires Valid()
      ensures fresh(hv) && fresh(hv.cumCounts)
      ensures hv.View() == Published(View())
    {
      var cum := CumulativeCounts(raw, |bounds|);
      ghost var counts := cum[..];
      hv := new HistogramValue(count, sum, bounds, cum);
      assert hv.cumCounts[..] == counts;
    }
  }

  /** The state of one DELTA series. */
  class DeltaState {
    var lastEnd: Time
    var lastSeen: Time
    var sum: real
    var hist: HistAccum?

    constructor ()
      ensures Valid() && View() == NEW_ACC && Footprint() == {this}
    {
      lastEnd, lastSeen, sum, hist := ZERO_TIME, ZERO_TIME, 0.0, null;
    }

    ghost function Footprint(): set<object>
      reads this
    {
      {this} + if hist == null then {} else {hist, hist.raw}
    }

    ghost predicate Valid()
      reads this
    {
      hist != null ==> hist.Valid()
    }

    ghost function View(): (a: Acc)
      requires Valid()
      reads this, Footprint()
      ensures ValidAcc(a)
    {
      Acc(lastEnd, lastSeen, sum, if hist == null then None else Some(hist.View()))
    }

    ghost predicate Holds(a: Acc)
      reads this, Footprint()
    {
      Valid() && View() == a
    }

    lemma HoldsIffView(a: Acc)
      ensures Holds(a) <==> Valid() && View() == a
    {}

    /** Accumulates the unseen points of a scalar response, oldest first. */
    method AddScalars(points: seq<Point>) returns (ok: bool)
      requires Valid()
      modifies this`sum, this`lastEnd
      ensures Valid() && (View(), ok) == old(FoldScalar(View(), points))
    {
      var i := |points|;
      ghost var whole := FoldScalar(View(), points);
      assert points[..i] == points;
      while i > 0
        invariant 0 <= i <= |points|
        invariant Valid() && FoldScalar(View(), points[..i]) == whole
      {
        i := i - 1;
        var p := points[i];
        assert points[..i + 1][..i] == points[..i];
        if p.end <= lastEnd {
          continue;
        }
        match ScalarValue(p) {
          case None =>
            return false;
          case Some(v) =>
            sum := sum + v;
            lastEnd := p.end;
        }
      }
      ok := true;
    }

    /** Folds one unseen distribution in, starting over when the bucket layout
        changes. */
    method AddDist(d: Distribution, bounds: seq<real>, end: Time) returns (reset: nat)
      requires Valid() && Bounds(d.options) == Some(bounds)
      modifies this`hist, this`lastEnd, Footprint() - {this}
      ensures Valid() && fresh(Footprint() - old(Footprint()))
      ensures View() == old(AcceptDist(View(), end, d))
      ensures reset == old(ResetBy(View().hist, d))
    {
      reset := 0;
      if hist == null || hist.bounds != bounds {
        if hist != null {
          reset := 1;
        }
        hist := new HistAccum(bounds);
        hist.Add(d);
      } else {
        hist.Add(d);
      }
      lastEnd := end;
    }

    /** Accumulates the unseen points of a distribution response, oldest first. */
    method AddDists(points: seq<Point>) returns (resets: nat, ok: bool)
      requires Valid()
      modifies this`hist, this`lastEnd, Footprint() - {this}
      ensures Valid() && fresh(Footprint() - old(Footprint()))
      ensures (View(), resets, ok) == old(FoldDist(View(), points))
    {
      var i := |points|;
      resets := 0;
      ghost var whole := FoldDist(View(), points);
      assert points[..i] == points;
      while i > 0
        invariant 0 <= i <= |points|
        invariant Valid() && fresh(Footprint() - old(Footprint()))
        invariant lastSeen == old(lastSeen) && sum == old(sum)
        invariant var rest := FoldDist(View(), points[..i]); whole == (rest.0, resets + rest.1, rest.2)
      {
        i := i - 1;
        var p := points[i];
        assert points[..i + 1][..i] == points[..i];
        if p.end <= lastEnd {
          continue;
        }
        var bounds: Option<seq<real>> := None;
        if p.value.DistributionValue? {
          bounds := DistBounds(p.value.dist.options);
        }
        if bounds.None? {
          return resets, false;
        }
        var reset := AddDist(p.value.dist, bounds.value, p.end);
        resets := resets + reset;
      }
      ok := true;
    }
  }

  type HeapSample = Sample<HistogramValue?>
  type HeapFamily = FamilyUpdate<HistogramValue?>

  /** A sample with its histogram read from the heap. */
  ghost function SampleView(s: HeapSample): Sample<Option<HistValue>>
    reads if s.hist == null then {} else {s.hist.cumCounts}
  {
    Sample(s.labels, s.value, if s.hist == null then None else Some(s.hist.View()), s.pointEnd)
  }

  /** The memory of the histograms in a list of samples. */
  ghost function HistMemory(ss: seq<HeapSample>): set<object>
  {
    (set s | s in ss && s.hist != null :: s.hist as object) + (set s | s in ss && s.hist != null :: s.hist.cumCounts as object)
  }

  /** Heap samples with the given contents, in order. */
  ghost predicate SamplesShow(ss: seq<HeapSample>, vs: seq<Sample<Option<HistValue>>>)
    reads HistMemory(ss)
  {
    |ss| == |vs| && forall i :: 0 <= i < |ss| ==> SampleView(ss[i]) == vs[i]
  }

  lemma NoSamples()
    ensures HistMemory([]) == {} && SamplesShow([], [])
  {}

  lemma SamplesSnoc(ss: seq<HeapSample>, vs: seq<Sample<Option<HistValue>>>, s: HeapSample)
    requires SamplesShow(ss, vs)
    ensures HistMemory(ss + [s]) == HistMemory(ss) + if s.hist == null then {} else {s.hist, s.hist.cumCounts}
    ensures SamplesShow(ss + [s], vs + [SampleView(s)])
  {
    forall o: object | o in HistMemory(ss)
      ensures o in HistMemory(ss + [s])
    {
      assert forall x :: x in ss ==> x in ss + [s];
    }
    assert s in ss + [s];
  }

  /** Two accumulators that share no memory. */
  ghost predicate Apart(a: DeltaState, b: DeltaState)
    reads a, b
  {
    a.Footprint() !! b.Footprint()
  }

  /** Converts polled series and owns the DELTA accumulators. */
  class Translator {
    const hash: Labels -> Hash
    const promName: string -> string
    var deltas: map<DeltaKey, DeltaState>
    ghost var Contents: map<DeltaKey, Acc>  // the accumulators by value
    ghost var Owned: set<object>            // their memory

    ghost function Repr(): set<object>
      reads this
    {
      {this} + Owned
    }

    ghost predicate Valid()
      reads this, Owned
      ensures Valid() ==> forall k :: k in Contents ==> ValidAcc(Contents[k])
    {
      && this !in Owned
      && deltas.Keys == Contents.Keys
      && (forall k :: k in deltas ==>
        && deltas[k] in Owned && deltas[k].Footprint() <= Owned
        && deltas[k].Holds(Contents[k]))
      && (forall j, k :: j in deltas && k in deltas && j != k ==> Apart(deltas[j], deltas[k]))
    }

    constructor (hash: Labels -> Hash, promName: string -> string)
      ensures Valid() && fresh(Repr()) && Contents == map[]
      ensures this.hash == hash && this.promName == promName
    {
      this.hash, this.promName := hash, promName;
      deltas, Contents, Owned := map[], map[], {};
    }

    /** A new accumulator, which shares no memory with the others. */
    method NewState() returns (s: DeltaState)
      requires Valid()
      ensures Valid() && fresh(s) && s.Footprint() == {s} && s.Holds(NEW_ACC)
      ensures forall j :: j in deltas ==> Apart(s, deltas[j]) && Apart(deltas[j], s)
    {
      s := new DeltaState();
    }

    /** Adds an accumulator for a new key. */
    method Create(k: DeltaKey) returns (s: DeltaState)
      requires Valid() && k !in deltas
      modifies this
      ensures Valid() && fresh(s) && Owned == old(Owned) + {s}
      ensures deltas == old(deltas)[k := s]
      ensures Contents == old(Contents)[k := NEW_ACC]
    {
      s := NewState();
      assert forall j :: j in deltas ==> this !in deltas[j].Footprint() && s != deltas[j];
      deltas, Contents, Owned := deltas[k := s], Contents[k := NEW_ACC], Owned + {s};
    }

    /** Valid, but for the contents and the memory of one accumulator. */
    ghost predicate ValidBut(k: DeltaKey)
      reads this, Owned
    {
      && this !in Owned && k in deltas && deltas[k] in Owned
      && deltas.Keys == Contents.Keys
      && (forall j :: j in deltas && j != k ==>
        && deltas[j] in Owned && deltas[j].Footprint() <= Owned
        && deltas[j].Holds(Contents[j]))
      && (forall i, j :: i in deltas && j in deltas && i != j ==> Apart(deltas[i], deltas[j]))
    }

    /** Records the new memory of one accumulator. */
    ghost method Claim(k: DeltaKey)
      requires ValidBut(k) && this !in deltas[k].Footprint()
      modifies this`Owned
      ensures ValidBut(k) && Owned == old(Owned) + deltas[k].Footprint()
    {
      hide Apart, DeltaState.Holds, DeltaState.Footprint;
      assert forall j :: j in deltas ==> this !in deltas[j].Footprint();
      Owned := Owned + deltas[k].Footprint();
    }

    /** Records the new contents of one accumulator. */
    ghost method Install(k: DeltaKey, a: Acc)
      requires ValidBut(k) && deltas[k].Footprint() <= Owned && deltas[k].Holds(a)
      modifies this`Contents
      ensures Valid() && Contents == old(Contents)[k := a]
    {
      hide Apart, DeltaState.Holds, DeltaState.Footprint;
      assert forall j :: j in deltas ==> this !in deltas[j].Footprint();
      Contents := Contents[k := a];
    }

    /** Marks an accumulator as seen. */
    method Touch(k: DeltaKey, s: DeltaState, now: Time)
      requires Valid() && k in deltas && s == deltas[k]
      modifies s`lastSeen, this`Contents
      ensures Valid() && s.Footprint() <= Owned
      ensures Contents == old(Contents[k := Contents[k].(lastSeen := now)])
    {
      s.HoldsIffView(Contents[k]);
      ghost var a := Contents[k].(lastSeen := now);
      s.lastSeen := now;
      s.HoldsIffView(a);
      Install(k, a);
    }

    /** The accumulator of a key, created on first sight and marked as seen. */
    method State(k: DeltaKey, now: Time) returns (s: DeltaState)
      requires Valid()
      modifies Repr()
      ensures Valid() && fresh(Owned - old(Owned))
      ensures k in deltas && deltas[k] == s && s.Footprint() <= Owned
      ensures Contents == old(Contents[k := Seen(Contents, k, now)])
    {
      assert k in deltas ==> k in Contents && deltas[k] in Owned;
      if k !in deltas {
        s := Create(k);
      } else {
        s := deltas[k];
      }
      Touch(k, s, now);
    }

    /** Folds a scalar response into an accumulator. */
    method FoldScalars(k: DeltaKey, s: DeltaState, points: seq<Point>) returns (ok: bool)
      requires Valid() && k in deltas && s == deltas[k]
      modifies s`sum, s`lastEnd, this`Contents
      ensures Valid()
      ensures Contents == old(Contents[k := FoldScalar(Contents[k], points).0])
      ensures ok == old(FoldScalar(Contents[k], points).1)
      ensures s.sum == Contents[k].sum && s.lastEnd == Contents[k].lastEnd
    {
      hide FoldScalar, DeltaState.Holds;
      s.HoldsIffView(Contents[k]);
      ghost var a := FoldScalar(Contents[k], points).0;
      ok := s.AddScalars(points);
      s.HoldsIffView(a);
      Install(k, a);
    }

    /** Folds a distribution response into an accumulator, whose memory may
        change; the others stay as they are. */
    method FoldDistsAside(k: DeltaKey, s: DeltaState, points: seq<Point>) returns (resets: nat, ok: bool)
      requires ValidBut(k) && s == deltas[k] && s.Holds(Contents[k])
      requires this !in s.Footprint()
      modifies s`hist, s`lastEnd, s.Footprint() - {s}
      ensures ValidBut(k) && s.Holds(FoldDist(Contents[k], points).0)
      ensures resets == FoldDist(Contents[k], points).1 && ok == FoldDist(Contents[k], points).2
      ensures fresh(s.Footprint() - old(s.Footprint())) && this !in s.Footprint()
    {
      hide FoldDist, DeltaState.Holds, DeltaState.View;
      s.HoldsIffView(Contents[k]);
      label Before:
      resets, ok := s.AddDists(points);
      s.HoldsIffView(FoldDist(Contents[k], points).0);
      forall j | j in deltas && j != k
        ensures deltas[j].Holds(Contents[j])
      {
        assert old@Before(Apart(deltas[j], s) && deltas[j].Holds(Contents[j]));
        assert deltas[j].Footprint() !! old@Before(s.Footprint());
        assert deltas[j].Footprint() == old@Before(deltas[j].Footprint());
      }
      assert forall j :: j in deltas && j != k ==> Apart(deltas[j], s) && Apart(s, deltas[j]) by {
        assert forall j :: j in deltas && j != k ==> old@Before(Apart(deltas[j], s));
      }
    }

    /** Folds a distribution response into an accumulator. */
    method FoldDists(k: DeltaKey, s: DeltaState, points: seq<Point>) returns (resets: nat, ok: bool)
      requires Valid() && k in deltas && s == deltas[k]
      modifies s`hist, s`lastEnd, s.Footprint() - {s}, this`Contents, this`Owned
      ensures Valid() && fresh(Owned - old(Owned))
      ensures Contents == old(Contents[k := FoldDist(Contents[k], points).0])
      ensures resets == old(FoldDist(Contents[k], points).1)
      ensures ok == old(FoldDist(Contents[k], points).2)
    {
      hide FoldDist;
      ghost var a := FoldDist(Contents[k], points).0;
      resets, ok := FoldDistsAside(k, s, points);
      Claim(k);
      Install(k, a);
    }

    /** The histogram of an accumulator, if it has one, outside the memory of
        the translator. */
    method Publish(k: DeltaKey, s: DeltaState) returns (hv: HistogramValue?)
      requires Valid() && k in deltas && s == deltas[k]
      ensures hv == null <==> Contents[k].hist.None?
      ensures hv != null ==> fresh(hv) && fresh(hv.cumCounts) && hv.View() == Published(Contents[k].hist.value)
    {
      if s.hist == null {
        return null;
      }
      hv := s.hist.Publish();
    }

    /** Folds the unseen delta-distribution points in and publishes the running
        histogram, if there is one. */
    method AccumulateDeltaDist(k: DeltaKey, points: seq<Point>, now: Time) returns (hv: HistogramValue?, resets: nat, dropped: bool)
      requires Valid()
      modifies Repr()
      ensures Valid() && fresh(Owned - old(Owned))
      ensures hv != null ==> fresh(hv) && fresh(hv.cumCounts) && {hv, hv.cumCounts} !! Repr()
      ensures var (a, n, ok) := old(FoldDist(Seen(Contents, k, now), points));
        && Contents == old(Contents)[k := a]
        && resets == n && dropped == !ok
        && (hv == null <==> !ok || a.hist.None?)
        && (hv != null ==> hv.View() == Published(a.hist.value))
    {
      hide FoldDist, Valid, Published;
      var s := State(k, now);
      var ok;
      resets, ok := FoldDists(k, s, points);
      dropped := !ok;
      hv := null;
      if ok {
        hv := Publish(k, s);
      }
    }

    /** Produces the sample of one series, or none. */
    method TranslateOne(md: MetricDescriptor, ts: TimeSeries, now: Time) returns (sample: Option<HeapSample>, stats: Stats)
      requires Valid() && Considered(md, ts)
      modifies Repr()
      ensures Valid() && fresh(Owned - old(Owned))
      ensures sample.Some? && sample.value.hist != null ==>
        fresh(sample.value.hist) && fresh(sample.value.hist.cumCounts) && {sample.value.hist, sample.value.hist.cumCounts} !! Repr()
      ensures var out := old(TranslateSeries(Contents, DeltaKey(md.typ, hash(ts.labels)), md, ts, now));
        && Contents == out.accs && stats == out.stats
        && sample.Some? == out.sample.Some?
        && (sample.Some? ==> SampleView(sample.value) == out.sample.value)
    {
      hide Valid, FoldDist, FoldScalar, Published;
      var latest := ts.points[0];
      var k := DeltaKey(md.typ, hash(ts.labels));
      if IsDist(md, ts) && IsDelta(md, ts) {
        var hv, resets, dropped := AccumulateDeltaDist(k, ts.points, now);
        stats := Stats(if dropped then 1 else 0, 0, resets);
        sample := if hv == null then None else Some(Sample(ts.labels, 0.0, hv, latest.end));
      } else if IsDist(md, ts) {
        var hv := DistToHistogram(if latest.value.DistributionValue? then Some(latest.value.dist) else None);
        stats := if hv == null then DROPPED else NO_STATS;
        sample := if hv == null then None else Some(Sample(ts.labels, 0.0, hv, latest.end));
      } else if IsDelta(md, ts) {
        var s := State(k, now);
        var ok := FoldScalars(k, s, ts.points);
        stats := if ok then NO_STATS else DROPPED;
        sample := if ok then Some(Sample(ts.labels, s.sum, null, s.lastEnd)) else None;
      } else {
        var v := ScalarValue(latest);
        stats := if v.None? then DROPPED else NO_STATS;
        sample := if v.None? then None else Some(Sample(ts.labels, v.value, null, latest.end));
      }
    }

    /** One step of the translation: skipped series only count. */
    method TranslateNext(md: MetricDescriptor, ts: TimeSeries, now: Time) returns (sample: Option<HeapSample>, stats: Stats)
      requires Valid()
      modifies Repr()
      ensures Valid() && fresh(Owned - old(Owned))
      ensures sample.Some? && sample.value.hist != null ==>
        fresh(sample.value.hist) && fresh(sample.value.hist.cumCounts) && {sample.value.hist, sample.value.hist.cumCounts} !! Repr()
      ensures var out := old(SeriesOutcome(hash, Contents, md, ts, now));
        && Contents == out.accs && stats == out.stats
        && sample.Some? == out.sample.Some?
        && (sample.Some? ==> SampleView(sample.value) == out.sample.value)
    {
      hide Valid, TranslateSeries;
      if ts.points == [] {
        return None, Stats(0, 1, 0);
      }
      if !SupportedValueType(md, ts) {
        return None, DROPPED;
      }
      sample, stats := TranslateOne(md, ts, now);
    }

    method Remove(k: DeltaKey)
      requires Valid() && k in deltas
      modifies this`deltas, this`Contents
      ensures Valid() && deltas.Keys == Contents.Keys
      ensures Contents == old(Contents) - {k}
    {
      hide Apart, DeltaState.Holds, DeltaState.Footprint;
      assert forall j :: j in deltas ==> this !in deltas[j].Footprint();
      deltas := deltas - {k};
      Contents := Contents - {k};
    }

    /** Converts one metric type's series. */
    method Translate(md: MetricDescriptor, series: seq<TimeSeries>, rename: string, now: Time) returns (fam: HeapFamily, stats: Stats)
      requires Valid()
      modifies Repr()
      ensures Valid() && fresh(Owned - old(Owned))
      ensures fresh(HistMemory(fam.samples)) && HistMemory(fam.samples) !! Repr()
      ensures fam.name == (if rename == "" then promName(md.typ) else rename)
      ensures fam.help == md.description && fam.kind == FamilyKind(md)
      ensures var t := old(TranslateSpec.Translate(hash, Contents, md, series, now));
        Contents == t.accs && stats == t.stats && SamplesShow(fam.samples, t.samples)
    {
      hide Valid, SeriesOutcome, HistMemory, SamplesShow, SampleView;
      NoSamples();
      var samples: seq<HeapSample> := [];
      stats := NO_STATS;
      ghost var accs: Accs := Contents;
      ghost var memory: set<object> := {};  // of the samples so far
      for i := 0 to |series|
        invariant Valid() && fresh(Owned - old(Owned))
        invariant memory == HistMemory(samples) && fresh(memory) && memory !! Repr()
        invariant var t := TranslateSpec.Translate(hash, accs, md, series[..i], now);
          Contents == t.accs && stats == t.stats && SamplesShow(samples, t.samples)
      {
        ghost var before := TranslateSpec.Translate(hash, accs, md, series[..i], now);
        var sample, more := TranslateNext(md, series[i], now);
        TranslateSnoc(hash, accs, md, series[..i], series[i], now);
        assert series[..i + 1] == series[..i] + [series[i]];
        assert before.samples + [] == before.samples;
        stats := AddStats(stats, more);
        if sample.Some? {
          SamplesSnoc(samples, before.samples, sample.value);
          samples := samples + [sample.value];
          memory := HistMemory(samples);
        }
      }
      assert series[..|series|] == series;
      fam := FamilyUpdate(if rename == "" then promName(md.typ) else rename, md.description, FamilyKind(md), samples);
    }

    /** Drops accumulators not seen since the cutoff, in any order. */
    method SweepStale(cutoff: Time) returns (removed: nat)
      requires Valid()
      modifies this`deltas, this`Contents
      ensures Valid()
      ensures Contents == old(Swept(Contents, cutoff))
      ensures removed == |old(Stale(Contents, {}, cutoff))|
    {
      KeysAgree();
      hide Valid, Unswept, Swept, Stale;
      removed := 0;
      var keys := deltas.Keys;
      ghost var accs := Contents;
      SweepEnds(accs, cutoff);
      while keys != {}
        invariant Valid() && deltas.Keys == Contents.Keys
        invariant Contents == Unswept(accs, keys, cutoff) && keys <= Contents.Keys
        invariant removed == |Stale(accs, keys, cutoff)|
        decreases keys
      {
        var k :| k in keys;
        SweepStep(accs, keys, k, cutoff);
        var n := SweepKey(k, cutoff);
        keys, removed := keys - {k}, removed + n;
      }
    }

    /** Stale accumulators, leaving out some keys not looked at yet. */
    static ghost function Stale(accs: map<DeltaKey, Acc>, keys: set<DeltaKey>, cutoff: Time): set<DeltaKey>
    {
      set k | k in accs && k !in keys && accs[k].lastSeen < cutoff
    }

    /** Contents with only some keys still to be looked at. */
    static ghost function Unswept(accs: map<DeltaKey, Acc>, keys: set<DeltaKey>, cutoff: Time): map<DeltaKey, Acc>
    {
      map k | k in accs && (k in keys || accs[k].lastSeen >= cutoff) :: accs[k]
    }

    static lemma SweepEnds(accs: Accs, cutoff: Time)
      ensures Unswept(accs, accs.Keys, cutoff) == accs && Stale(accs, accs.Keys, cutoff) == {}
      ensures Unswept(accs, {}, cutoff) == Swept(accs, cutoff)
    {}

    static lemma SweepStep(accs: map<DeltaKey, Acc>, keys: set<DeltaKey>, k: DeltaKey, cutoff: Time)
      requires k in keys && keys <= Unswept(accs, keys, cutoff).Keys
      ensures var m := Unswept(accs, keys, cutoff);
        var m' := Unswept(accs, keys - {k}, cutoff);
        && keys - {k} <= m'.Keys
        && m' == if m[k].lastSeen < cutoff then m - {k} else m
      ensures |Stale(accs, keys - {k}, cutoff)| ==
        |Stale(accs, keys, cutoff)| + if Unswept(accs, keys, cutoff)[k].lastSeen < cutoff then 1 else 0
    {
      var m := Unswept(accs, keys, cutoff);
      if accs[k].lastSeen < cutoff {
        assert Unswept(accs, keys - {k}, cutoff) == m - {k};
        assert Stale(accs, keys - {k}, cutoff) == Stale(accs, keys, cutoff) + {k};
      } else {
        assert Unswept(accs, keys - {k}, cutoff) == m;
        assert Stale(accs, keys - {k}, cutoff) == Stale(accs, keys, cutoff);
      }
    }

    lemma KeysAgree()
      requires Valid()
      ensures deltas.Keys == Contents.Keys
    {}

    /** Drops one accumulator if it is stale. */
    method SweepKey(k: DeltaKey, cutoff: Time) returns (removed: nat)
      requires Valid() && k in deltas
      modifies this`deltas, this`Contents
      ensures Valid() && deltas.Keys == Contents.Keys
      ensures k in old(Contents)
      ensures Contents == old(if Contents[k].lastSeen < cutoff then Contents - {k} else Contents)
      ensures removed == old(if Contents[k].lastSeen < cutoff then 1 else 0)
    {
      KeysAgree();
      hide Valid;
      var seen := LastSeen(k);
      removed := 0;
      if seen < cutoff {
        Remove(k);
        removed := 1;
      }
    }

    method LastSeen(k: DeltaKey) returns (t: Time)
      requires Valid() && k in deltas
      ensures k in Contents && t == Contents[k].lastSeen
    {
      assert deltas[k].Holds(Contents[k]);
      t := deltas[k].lastSeen;
    }
  }

  /** A histogram handed out earlier is not altered by later accumulation. */
  method HistogramsHandedOutStay(tr: Translator, md: MetricDescriptor, series: seq<TimeSeries>, now: Time, hv: HistogramValue)
    requires tr.Valid() && {hv, hv.cumCounts} !! tr.Repr()
    modifies tr.Repr()
    ensures tr.Valid() && {hv, hv.cumCounts} !! tr.Repr()
    ensures hv.View() == old(hv.View())
  {
    hide Translator.Valid;
    var _, _ := tr.Translate(md, series, "", now);
  }
}
