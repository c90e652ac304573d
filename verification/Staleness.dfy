/** What an accumulator holds after any run of the poll manager, and why a
    series polled often enough is never swept (internal/poll/manager.go). */
module Staleness {
  import opened Basics
  import opened Histograms
  import opened DeltaLog
  import opened TranslateSpec
  import opened PollManager
  import opened Counters
  import opened Skew
  import CacheSpec
  import CacheRuns

  // ------------------------------------------- accumulators follow their polls

  /** What a response commits to the accumulator of a key. */
  function ResponsePolls(hash: Labels -> Hash, k: DeltaKey, md: MetricDescriptor, series: seq<TimeSeries>, now: Time): seq<Poll>
  {
    if series == [] then [] else
    var ts := series[|series| - 1];
    ResponsePolls(hash, k, md, series[..|series| - 1], now) +
    if Concerns(hash, k, md, ts) && IsDelta(md, ts) then [Poll(now, ts.points)] else []
  }

  /** Wherever a response is accumulated under the key, it has this payload. */
  ghost predicate OfKind(hash: Labels -> Hash, kind: Payload, k: DeltaKey, md: MetricDescriptor, series: seq<TimeSeries>)
  {
    forall ts :: ts in series && Concerns(hash, k, md, ts) && IsDelta(md, ts) ==> (IsDist(md, ts) <==> kind.Dist?)
  }

  lemma {:induction false} TranslateFollowsPolls(hash: Labels -> Hash, kind: Payload, k: DeltaKey, accs: Accs, polls: seq<Poll>,
                                                 md: MetricDescriptor, series: seq<TimeSeries>, now: Time)
    requires OfKind(hash, kind, k, md, series)
    requires AccOf(accs, k) == AccAfter(kind, polls)
    ensures AccOf(TranslateSpec.Translate(hash, accs, md, series, now).accs, k)
         == AccAfter(kind, polls + ResponsePolls(hash, k, md, series, now))
  {
    if series == [] {
      assert polls + [] == polls;
    } else {
      var front, ts := series[..|series| - 1], series[|series| - 1];
      TranslateFollowsPolls(hash, kind, k, accs, polls, md, front, now);
      var before := polls + ResponsePolls(hash, k, md, front, now);
      SeriesCommits(hash, TranslateSpec.Translate(hash, accs, md, front, now).accs, md, ts, now, k);
      assert ts in series;
      hide AccOf, SeriesOutcome, Commit;
      if Concerns(hash, k, md, ts) && IsDelta(md, ts) {
        var poll := Poll(now, ts.points);
        assert polls + ResponsePolls(hash, k, md, series, now) == before + [poll];
        assert (before + [poll])[..|before|] == before;
      } else {
        assert polls + ResponsePolls(hash, k, md, series, now) == before;
      }
    }
  }

  /** The responses committed to a key, in commit order, since a sweep last
      dropped its accumulator. */
  ghost function PollsSince(hash: Labels -> Hash, ms: seq<Manager>, acts: seq<Action>, k: DeltaKey, i: nat): seq<Poll>
    requires Run(hash, ms, acts) && i < |ms|
  {
    if i == 0 then [] else
    var before := PollsSince(hash, ms, acts, k, i - 1);
    assert Enabled(ms[i - 1], acts[i - 1]);
    match acts[i - 1]
    case Translate(w) =>
      var job := ms[i - 1].workers[w].job;
      before + ResponsePolls(hash, k, job.md, job.series, ms[i - 1].clock)
    case SweepType(_, _) => if k in ms[i - 1].accs && k !in ms[i].accs then [] else before
    case _ => before
  }

  ghost predicate AlwaysOfKind(hash: Labels -> Hash, ms: seq<Manager>, acts: seq<Action>, kind: Payload, k: DeltaKey)
    requires Run(hash, ms, acts)
  {
    forall i :: 0 <= i < |acts| && acts[i].Translate? ==>
      && Enabled(ms[i], acts[i])
      && OfKind(hash, kind, k, ms[i].workers[acts[i].w].job.md, ms[i].workers[acts[i].w].job.series)
  }

  /** An accumulator is what its polls make of it, under every interleaving of
      pollers, sweepers and rewires. */
  lemma {:induction false} AccumulatorFollowsRun(hash: Labels -> Hash, ms: seq<Manager>, acts: seq<Action>, kind: Payload, k: DeltaKey, i: nat)
    requires Run(hash, ms, acts) && ms[0] == INITIAL && i < |ms|
    requires AlwaysOfKind(hash, ms, acts, kind, k)
    ensures AccOf(ms[i].accs, k) == AccAfter(kind, PollsSince(hash, ms, acts, k, i))
  {
    if i > 0 {
      hide AccAfter, TranslateSpec.Translate, Applied, CacheRuns.Sweep;
      AccumulatorFollowsRun(hash, ms, acts, kind, k, i - 1);
      var m, a := ms[i - 1], acts[i - 1];
      var before := PollsSince(hash, ms, acts, k, i - 1);
      NothingPolled(kind);
      assert Enabled(m, a) && ms[i] == Do(hash, m, a);
      if a.Translate? {
        var job := m.workers[a.w].job;
        TranslateFollowsPolls(hash, kind, k, m.accs, before, job.md, job.series, m.clock);
      }
    } else {
      NothingPolled(kind);
    }
  }

  lemma NothingPolled(kind: Payload)
    ensures AccAfter(kind, []) == NEW_ACC
  {}

  /** So a scalar DELTA counts each point end at most once whatever the order
      in which polls commit, and its sum is the total of what it counted. */
  lemma {:induction false} EndsCountedOnce(hash: Labels -> Hash, ms: seq<Manager>, acts: seq<Action>, k: DeltaKey, i: nat)
    requires Run(hash, ms, acts) && ms[0] == INITIAL && i < |ms|
    requires AlwaysOfKind(hash, ms, acts, Scalar, k)
    ensures var log := LogAfter(Scalar, PollsSince(hash, ms, acts, k, i));
      && Ascending(log) && AllReadable(Scalar, log)
      && SumOf(ms[i].accs, k) == Total(log)
      && AccOf(ms[i].accs, k).lastEnd == Watermark(ZERO_TIME, log)
  {
    hide PollsSince, AccAfter, LogAfter, Total, AlwaysOfKind, Run;
    var polls := PollsSince(hash, ms, acts, k, i);
    AccumulatorFollowsRun(hash, ms, acts, Scalar, k, i);
    ScalarAccumulatorFollowsLog(polls);
    CountedAtMostOnce(Scalar, polls);
    AllReadableLog(Scalar, polls);
  }

  /** The same for delta distributions: the histogram published for the key is
      the pointwise sum over the points counted since the last layout change. */
  lemma {:induction false} DistributionsCountedOnce(hash: Labels -> Hash, ms: seq<Manager>, acts: seq<Action>, k: DeltaKey, i: nat)
    requires Run(hash, ms, acts) && ms[0] == INITIAL && i < |ms|
    requires AlwaysOfKind(hash, ms, acts, Dist, k)
    ensures var log := LogAfter(Dist, PollsSince(hash, ms, acts, k, i));
      && Ascending(log) && AllReadable(Dist, log)
      && (AccOf(ms[i].accs, k).hist.Some? <==> log != [])
      && (log != [] ==>
          var h, s := Published(AccOf(ms[i].accs, k).hist.value), SinceLayoutChange(log);
          && AllReadable(Dist, s) && h.count == SumCounts(s) && h.sum == SumSums(s)
          && (forall p :: p in s ==> PointHist(p).upperBounds == h.upperBounds && |PointHist(p).cumCounts| == |h.cumCounts|)
          && forall c :: 0 <= c < |h.cumCounts| ==> h.cumCounts[c] == SumCum(s, c))
  {
    hide PollsSince, AccAfter, LogAfter, AlwaysOfKind, Run, LayoutChanges;
    var polls := PollsSince(hash, ms, acts, k, i);
    AccumulatorFollowsRun(hash, ms, acts, Dist, k, i);
    DistAccumulatorFollowsLog(polls);
    CountedAtMostOnce(Dist, polls);
    AllReadableLog(Dist, polls);
    var log := LogAfter(Dist, polls);
    ReplayBounds(log);
    if log != [] {
      PublishedIsPointwiseSum(log);
    }
  }

  // ------------------------------------------------------ kept across rewires

  /** The step sweeps the accumulator away: it was last seen before the cutoff. */
  ghost predicate Drops(m: Manager, a: Action, k: DeltaKey)
  {
    && a.SweepType? && a.metricType == k.metricType && k in m.accs
    && a.w in m.workers && m.workers[a.w].job.SweepTypes?
    && m.accs[k].lastSeen < m.workers[a.w].job.cutoff
  }

  lemma OnlySweepsDrop(hash: Labels -> Hash, m: Manager, a: Action, k: DeltaKey)
    requires Enabled(m, a) && k in m.accs
    ensures k in Do(hash, m, a).accs <==> !Drops(m, a, k)
  {
    hide TranslateSpec.Translate, Applied, CacheRuns.Sweep;
    if a.Translate? {
      TranslateFrame(hash, m.accs, m.workers[a.w].job.md, m.workers[a.w].job.series, m.clock, k);
    }
  }

  ghost predicate NoSweepDrops(ms: seq<Manager>, acts: seq<Action>, k: DeltaKey, i: nat, j: nat)
    requires j < |ms| && j <= |acts|
  {
    forall x :: i <= x < j ==> !Drops(ms[x], acts[x], k)
  }

  /** Only a sweep drops an accumulator: over any stretch of a run in which none
      does, cancellations, exits and starts included, it is kept and what is
      counted in it only grows. */
  lemma {:induction false} UndroppedStays(hash: Labels -> Hash, ms: seq<Manager>, acts: seq<Action>, k: DeltaKey, i: nat, j: nat)
    requires Run(hash, ms, acts) && i <= j < |ms| && |ms| == |acts| + 1
    requires k in ms[i].accs && NoSweepDrops(ms, acts, k, i, j)
    ensures k in ms[j].accs && PollsSince(hash, ms, acts, k, i) <= PollsSince(hash, ms, acts, k, j)
    decreases j
  {
    hide *;
    if i < j {
      UndroppedUntil(ms, acts, k, i, j);
      UndroppedStays(hash, ms, acts, k, i, j - 1);
      UndroppedStep(hash, ms, acts, k, j - 1);
      PollsGrow(hash, ms, acts, k, i, j - 1);
    }
  }

  lemma UndroppedUntil(ms: seq<Manager>, acts: seq<Action>, k: DeltaKey, i: nat, j: nat)
    requires i < j < |ms| && j <= |acts| && NoSweepDrops(ms, acts, k, i, j)
    ensures NoSweepDrops(ms, acts, k, i, j - 1) && !Drops(ms[j - 1], acts[j - 1], k)
  {}

  lemma UndroppedStep(hash: Labels -> Hash, ms: seq<Manager>, acts: seq<Action>, k: DeltaKey, i: nat)
    requires Run(hash, ms, acts) && i < |acts| && i + 1 < |ms| && k in ms[i].accs && !Drops(ms[i], acts[i], k)
    ensures k in ms[i + 1].accs
  {
    hide Do, Enabled, Drops;
    RunStep(hash, ms, acts, i);
    OnlySweepsDrop(hash, ms[i], acts[i], k);
  }

  /** From the cancellation of one set of workers to the start of the next, a
      key that no sweep drops keeps its accumulator, polls under way still
      count, and the start itself touches no accumulator and no cached series. */
  lemma RewireKeepsAccumulators(hash: Labels -> Hash, ms: seq<Manager>, acts: seq<Action>, k: DeltaKey, i: nat, j: nat)
    requires Run(hash, ms, acts) && i < j < |acts| && acts[i].Cancel? && acts[j].Start?
    requires k in ms[i].accs && NoSweepDrops(ms, acts, k, i, j)
    ensures ms[j + 1].accs == ms[j].accs && ms[j + 1].store == ms[j].store && k in ms[j + 1].accs
    ensures PollsSince(hash, ms, acts, k, i) <= PollsSince(hash, ms, acts, k, j + 1)
  {
    UndroppedStays(hash, ms, acts, k, i, j);
    RunStep(hash, ms, acts, j);
    hide NoSweepDrops;
    assert ms[j + 1].accs == ms[j].accs;
  }

  // ------------------------------------------------- polled often, never swept

  /** No configuration has a smaller staleness bound. */
  ghost predicate SweepsLate(acts: seq<Action>, staleAfter: Time)
  {
    forall i :: 0 <= i < |acts| && acts[i].Start? ==> acts[i].cfg.staleAfter >= staleAfter
  }

  ghost predicate CutoffsBehind(m: Manager, staleAfter: Time)
  {
    forall w :: w in m.workers ==>
      && m.workers[w].cfg.staleAfter >= staleAfter
      && (m.workers[w].job.SweepPlanned? || m.workers[w].job.SweepTypes? ==> m.workers[w].job.cutoff <= m.clock - staleAfter)
  }

  lemma StepStaysBehind(hash: Labels -> Hash, m: Manager, a: Action, staleAfter: Time)
    requires Enabled(m, a) && CutoffsBehind(m, staleAfter) && (a.Start? ==> a.cfg.staleAfter >= staleAfter)
    ensures CutoffsBehind(Do(hash, m, a), staleAfter)
  {
    hide TranslateSpec.Translate, Applied, CacheRuns.Sweep, SweptType;
  }

  lemma {:induction false} CutoffsStayBehind(hash: Labels -> Hash, ms: seq<Manager>, acts: seq<Action>, staleAfter: Time, i: nat)
    requires Run(hash, ms, acts) && ms[0] == INITIAL && i < |ms| && SweepsLate(acts, staleAfter)
    ensures CutoffsBehind(ms[i], staleAfter)
  {
    if i > 0 {
      hide Do, Enabled;
      CutoffsStayBehind(hash, ms, acts, staleAfter, i - 1);
      RunStep(hash, ms, acts, i - 1);
      hide CutoffsBehind;
      StepStaysBehind(hash, ms[i - 1], acts[i - 1], staleAfter);
    }
  }

  /** The step translates a response with the key as a DELTA. */
  ghost predicate Sees(hash: Labels -> Hash, m: Manager, a: Action, k: DeltaKey)
    requires Enabled(m, a)
  {
    a.Translate? && exists ts :: ts in m.workers[a.w].job.series && Concerns(hash, k, m.workers[a.w].job.md, ts)
  }

  /** The clock of the last step before `i` that saw the key. */
  ghost function LastSaw(hash: Labels -> Hash, ms: seq<Manager>, acts: seq<Action>, k: DeltaKey, i: nat): Option<Time>
    requires Run(hash, ms, acts) && i < |ms|
  {
    if i == 0 then None else
    assert Enabled(ms[i - 1], acts[i - 1]);
    if Sees(hash, ms[i - 1], acts[i - 1], k) then Some(ms[i - 1].clock)
    else LastSaw(hash, ms, acts, k, i - 1)
  }

  /** Whenever a response concerns the key it is a DELTA. */
  ghost predicate AlwaysDelta(hash: Labels -> Hash, ms: seq<Manager>, acts: seq<Action>, k: DeltaKey)
    requires Run(hash, ms, acts)
  {
    forall i :: 0 <= i < |acts| && Enabled(ms[i], acts[i]) ==> DeltaFor(hash, ms[i], acts[i], k)
  }

  lemma StepKeepsSeen(hash: Labels -> Hash, m: Manager, a: Action, k: DeltaKey, staleAfter: Time)
    requires Enabled(m, a) && CutoffsBehind(m, staleAfter)
    requires DeltaFor(hash, m, a, k)
    ensures var m' := Do(hash, m, a);
      && (Sees(hash, m, a, k) ==> k in m'.accs && m'.accs[k].lastSeen == m.clock)
      && (k in m.accs && m.clock <= m.accs[k].lastSeen + staleAfter ==> k in m'.accs && m'.accs[k].lastSeen >= Min(m.clock, m.accs[k].lastSeen))
  {
    if a.Translate? {
      var job := m.workers[a.w].job;
      hide TranslateSpec.Translate;
      TranslateSees(hash, k, m.accs, job.md, job.series, m.clock);
    }
  }

  /** Between two steps the clock is never more than `staleAfter` past the last
      response that showed the key. */
  ghost predicate SeenOften(hash: Labels -> Hash, ms: seq<Manager>, acts: seq<Action>, k: DeltaKey, staleAfter: Time, i: nat, j: nat)
    requires Run(hash, ms, acts) && j <= |ms|
  {
    forall x :: i < x < j ==>
      LastSaw(hash, ms, acts, k, x).Some? && ms[x].clock <= LastSaw(hash, ms, acts, k, x).value + staleAfter
  }

  function Min(a: Time, b: Time): Time
  {
    if a < b then a else b
  }

  /** A DELTA key that responses show at most `staleAfter` apart keeps its
      accumulator, whatever sweeps, polls of other series and rewires happen in
      between, and the polls counted in it only grow. */
  lemma {:induction false} AccumulatorStays(hash: Labels -> Hash, ms: seq<Manager>, acts: seq<Action>, k: DeltaKey, staleAfter: Time, i: nat, j: nat)
    requires Run(hash, ms, acts) && ms[0] == INITIAL && i < j < |ms|
    requires SweepsLate(acts, staleAfter) && AlwaysDelta(hash, ms, acts, k)
    requires Enabled(ms[i], acts[i]) && Sees(hash, ms[i], acts[i], k)
    requires SeenOften(hash, ms, acts, k, staleAfter, i, j)
    ensures Kept(hash, ms, acts, k, j)
    ensures PollsSince(hash, ms, acts, k, i) <= PollsSince(hash, ms, acts, k, j)
    decreases j
  {
    hide *;
    RunStep(hash, ms, acts, j - 1);
    CutoffsStayBehind(hash, ms, acts, staleAfter, j - 1);
    SeenOftenShrinks(hash, ms, acts, k, staleAfter, i, j);
    if j > i + 1 {
      AccumulatorStays(hash, ms, acts, k, staleAfter, i, j - 1);
    }
    StaysOneStep(hash, ms, acts, k, staleAfter, j - 1);
    KeptIsThere(hash, ms, acts, k, j);
    PollsGrow(hash, ms, acts, k, i, j - 1);
  }

  lemma SeenOftenShrinks(hash: Labels -> Hash, ms: seq<Manager>, acts: seq<Action>, k: DeltaKey, staleAfter: Time, i: nat, j: nat)
    requires Run(hash, ms, acts) && i < j < |ms| && SeenOften(hash, ms, acts, k, staleAfter, i, j)
    ensures SeenOften(hash, ms, acts, k, staleAfter, i, j - 1)
    ensures i < j - 1 ==>
      LastSaw(hash, ms, acts, k, j - 1).Some? && ms[j - 1].clock <= LastSaw(hash, ms, acts, k, j - 1).value + staleAfter
  {
    hide LastSaw, Do, Enabled;
  }

  /** The accumulator is there and was seen no earlier than by the last response
      that showed the key. */
  ghost predicate Kept(hash: Labels -> Hash, ms: seq<Manager>, acts: seq<Action>, k: DeltaKey, i: nat)
    requires Run(hash, ms, acts) && i < |ms|
  {
    var last := LastSaw(hash, ms, acts, k, i);
    k in ms[i].accs && last.Some? && ms[i].accs[k].lastSeen >= last.value
  }

  lemma StaysOneStep(hash: Labels -> Hash, ms: seq<Manager>, acts: seq<Action>, k: DeltaKey, staleAfter: Time, i: nat)
    requires Run(hash, ms, acts) && i < |acts|
    requires CutoffsBehind(ms[i], staleAfter) && AlwaysDelta(hash, ms, acts, k)
    requires Enabled(ms[i], acts[i])
    requires Sees(hash, ms[i], acts[i], k) || (
      && Kept(hash, ms, acts, k, i)
      && LastSaw(hash, ms, acts, k, i).Some? && ms[i].clock <= LastSaw(hash, ms, acts, k, i).value + staleAfter)
    ensures Kept(hash, ms, acts, k, i + 1)
  {
    hide CutoffsBehind, Do;
    StepKeepsSeen(hash, ms[i], acts[i], k, staleAfter);
    LastSawInPast(hash, ms, acts, k, i);
  }

  lemma KeptIsThere(hash: Labels -> Hash, ms: seq<Manager>, acts: seq<Action>, k: DeltaKey, i: nat)
    requires Run(hash, ms, acts) && i < |ms| && Kept(hash, ms, acts, k, i)
    ensures k in ms[i].accs
  {}

  lemma PollsGrow(hash: Labels -> Hash, ms: seq<Manager>, acts: seq<Action>, k: DeltaKey, first: nat, i: nat)
    requires Run(hash, ms, acts) && first <= i < |acts| && k in ms[i + 1].accs
    requires PollsSince(hash, ms, acts, k, first) <= PollsSince(hash, ms, acts, k, i)
    ensures PollsSince(hash, ms, acts, k, first) <= PollsSince(hash, ms, acts, k, i + 1)
  {
    hide Do, ResponsePolls;
    assert Enabled(ms[i], acts[i]);
  }

  /** The clock never runs backwards. */
  lemma {:induction false} LastSawInPast(hash: Labels -> Hash, ms: seq<Manager>, acts: seq<Action>, k: DeltaKey, i: nat)
    requires Run(hash, ms, acts) && i < |ms|
    ensures LastSaw(hash, ms, acts, k, i).Some? ==> LastSaw(hash, ms, acts, k, i).value <= ms[i].clock
  {
    if i > 0 {
      hide TranslateSpec.Translate, Applied, CacheRuns.Sweep, SweptType;
      LastSawInPast(hash, ms, acts, k, i - 1);
      assert Enabled(ms[i - 1], acts[i - 1]) && ms[i] == Do(hash, ms[i - 1], acts[i - 1]);
    }
  }

  // --------------------------------------------- a served counter is monotone

  lemma {:induction false} NotConcernedNotCreated(hash: Labels -> Hash, k: DeltaKey, accs: Accs, md: MetricDescriptor, series: seq<TimeSeries>, now: Time)
    requires k !in accs && forall ts :: ts in series ==> !Concerns(hash, k, md, ts)
    ensures k !in TranslateSpec.Translate(hash, accs, md, series, now).accs
  {
    if series != [] {
      var front, ts := series[..|series| - 1], series[|series| - 1];
      assert ts in series;
      NotConcernedNotCreated(hash, k, accs, md, front, now);
      SeriesCommits(hash, TranslateSpec.Translate(hash, accs, md, front, now).accs, md, ts, now, k);
    }
  }

  /** Nor is there a sample for it. */
  lemma {:induction false} NothingSampled(hash: Labels -> Hash, k: DeltaKey, accs: Accs, md: MetricDescriptor, series: seq<TimeSeries>, now: Time)
    requires md.typ == k.metricType && forall ts :: ts in series ==> !Concerns(hash, k, md, ts)
    ensures forall s :: s in TranslateSpec.Translate(hash, accs, md, series, now).samples ==> hash(s.labels) != k.labelsHash
  {
    if series != [] {
      var front, ts := series[..|series| - 1], series[|series| - 1];
      assert ts in series;
      NothingSampled(hash, k, accs, md, front, now);
      SampleOfSeries(hash, TranslateSpec.Translate(hash, accs, md, front, now).accs, md, ts, now);
    }
  }

  /** A step that does not see the key creates no accumulator for it and stamps
      the one it has, if at all, with the time. */
  lemma UnseenStep(hash: Labels -> Hash, m: Manager, a: Action, k: DeltaKey)
    requires Enabled(m, a) && DeltaFor(hash, m, a, k) && k in Do(hash, m, a).accs
    ensures if Sees(hash, m, a, k) then Do(hash, m, a).accs[k].lastSeen == m.clock
      else k in m.accs && (Do(hash, m, a).accs[k].lastSeen == m.accs[k].lastSeen || Do(hash, m, a).accs[k].lastSeen == m.clock)
  {
    if a.Translate? {
      hide TranslateSpec.Translate;
      TranslateSees(hash, k, m.accs, m.workers[a.w].job.md, m.workers[a.w].job.series, m.clock);
      if !Sees(hash, m, a, k) && k !in m.accs {
        NotConcernedNotCreated(hash, k, m.accs, m.workers[a.w].job.md, m.workers[a.w].job.series, m.clock);
      }
    }
  }

  /** In every reachable state an accumulator was seen no earlier than by the
      last response that showed its key. */
  lemma {:induction false} AccumulatorsWereSeen(hash: Labels -> Hash, ms: seq<Manager>, acts: seq<Action>, k: DeltaKey, i: nat)
    requires Run(hash, ms, acts) && ms[0] == INITIAL && i < |ms| && AlwaysDelta(hash, ms, acts, k)
    requires k in ms[i].accs
    ensures Kept(hash, ms, acts, k, i)
  {
    if i > 0 {
      RunStep(hash, ms, acts, i - 1);
      LastSawInPast(hash, ms, acts, k, i - 1);
      hide Do, Enabled, Run;
      DeltaAt(hash, ms, acts, k, i - 1);
      UnseenStep(hash, ms[i - 1], acts[i - 1], k);
      if k in ms[i - 1].accs {
        AccumulatorsWereSeen(hash, ms, acts, k, i - 1);
      }
    }
  }

  lemma DeltaAt(hash: Labels -> Hash, ms: seq<Manager>, acts: seq<Action>, k: DeltaKey, i: nat)
    requires Run(hash, ms, acts) && AlwaysDelta(hash, ms, acts, k) && i < |acts| && Enabled(ms[i], acts[i])
    ensures DeltaFor(hash, ms[i], acts[i], k)
  {
    hide DeltaFor, Do, Enabled;
  }

  /** In these states, whenever the key is cached, the clock is at most
      `staleAfter` past the last response that showed it. */
  ghost predicate SeenWhileShown(hash: Labels -> Hash, ms: seq<Manager>, acts: seq<Action>, k: DeltaKey, staleAfter: Time, i: nat, j: nat)
    requires Run(hash, ms, acts) && j <= |ms|
  {
    forall x :: i <= x < j && Shown(ms[x].store, k) ==>
      LastSaw(hash, ms, acts, k, x).Some? && ms[x].clock <= LastSaw(hash, ms, acts, k, x).value + staleAfter
  }

  /** Then no sweep drops the accumulator of the cached series. */
  lemma SeenOftenIsSkewFree(hash: Labels -> Hash, mu: Measure, ms: seq<Manager>, acts: seq<Action>, k: DeltaKey, staleAfter: Time, i: nat)
    requires Run(hash, ms, acts) && ms[0] == INITIAL && i < |acts|
    requires SweepsLate(acts, staleAfter) && AlwaysDelta(hash, ms, acts, k)
    requires SeenWhileShown(hash, ms, acts, k, staleAfter, i, i + 1) && Safe(hash, mu, ms[i], k)
    ensures Enabled(ms[i], acts[i]) && SkewFree(ms[i], acts[i], k)
  {
    RunStep(hash, ms, acts, i);
    CutoffsStayBehind(hash, ms, acts, staleAfter, i);
    if Shown(ms[i].store, k) {
      CachedHasAccumulator(hash, mu, ms[i], k);
      AccumulatorsWereSeen(hash, ms, acts, k, i);
    }
    hide Do, Safe, LastSaw, AlwaysDelta, SweepsLate, Run;
  }

  lemma CachedHasAccumulator(hash: Labels -> Hash, mu: Measure, m: Manager, k: DeltaKey)
    requires Safe(hash, mu, m, k) && Shown(m.store, k)
    ensures k in m.accs
  {
    hide Sound, PendingAbove;
  }

  lemma SeenWhileShownWithin(hash: Labels -> Hash, ms: seq<Manager>, acts: seq<Action>, k: DeltaKey, staleAfter: Time, i: nat, j: nat, x: nat, y: nat)
    requires Run(hash, ms, acts) && i <= x <= y <= j <= |ms| && SeenWhileShown(hash, ms, acts, k, staleAfter, i, j)
    ensures SeenWhileShown(hash, ms, acts, k, staleAfter, x, y)
  {
    hide LastSaw, Do, Enabled, Shown;
  }

  /** From a state in which the key is not cached the invariant holds as long as
      the key is seen often enough while it is cached. */
  lemma {:induction false} SafeWhenSeenOften(hash: Labels -> Hash, mu: Measure, ms: seq<Manager>, acts: seq<Action>, k: DeltaKey, staleAfter: Time, b: nat, i: nat)
    requires Run(hash, ms, acts) && ms[0] == INITIAL && b <= i < |ms|
    requires SweepsLate(acts, staleAfter) && AlwaysDelta(hash, ms, acts, k) && CounterPolls(hash, mu, ms, acts, k)
    requires !Shown(ms[b].store, k) && SeenWhileShown(hash, ms, acts, k, staleAfter, b, i)
    ensures Safe(hash, mu, ms[i], k)
    decreases i
  {
    hide *;
    InitialIsSafe(hash, mu, k);
    SafeIsSound(hash, mu, INITIAL, k);
    if i == b {
      SoundInRun(hash, mu, ms, acts, k, b);
      SafeWhenNotShown(hash, mu, ms[b], k);
    } else {
      SeenWhileShownWithin(hash, ms, acts, k, staleAfter, b, i, b, i - 1);
      SeenWhileShownWithin(hash, ms, acts, k, staleAfter, b, i, i - 1, i);
      SafeWhenSeenOften(hash, mu, ms, acts, k, staleAfter, b, i - 1);
      RunStep(hash, ms, acts, i - 1);
      SeenOftenIsSkewFree(hash, mu, ms, acts, k, staleAfter, i - 1);
      CounterAt(hash, mu, ms, acts, k, i - 1);
      SafeIsSound(hash, mu, ms[i - 1], k);
      StepIsSafe(hash, mu, ms[i - 1], acts[i - 1], k);
    }
  }

  /** The step applies an update with a sample for the series to its family. */
  ghost predicate Refreshes(hash: Labels -> Hash, m: Manager, a: Action, n: string, k: DeltaKey)
    requires Enabled(m, a)
  {
    a.Apply? && m.workers[a.w].job.metricType == k.metricType && m.workers[a.w].job.upd.name == n
    && exists s :: s in m.workers[a.w].job.upd.samples && hash(s.labels) == k.labelsHash
  }

  function Stamp(m: Manager, w: WorkerId): Time
    requires w in m.workers && m.workers[w].job.Translated? && m.workers[w].job.stamp.Some?
  {
    m.workers[w].job.stamp.value
  }

  /** The stamp of the last update before `i` that refreshed the series. */
  ghost function LastRefreshed(hash: Labels -> Hash, ms: seq<Manager>, acts: seq<Action>, n: string, k: DeltaKey, i: nat): Time
    requires Run(hash, ms, acts) && i < |ms|
  {
    if i == 0 then ZERO_TIME else
    assert Enabled(ms[i - 1], acts[i - 1]);
    if Refreshes(hash, ms[i - 1], acts[i - 1], n, k) then Stamp(ms[i - 1], acts[i - 1].w)
    else LastRefreshed(hash, ms, acts, n, k, i - 1)
  }

  ghost predicate CachedAndFresh(hash: Labels -> Hash, ms: seq<Manager>, acts: seq<Action>, n: string, k: DeltaKey, i: nat)
    requires Run(hash, ms, acts) && i < |ms|
  {
    Shows(ms[i].store, n, k) && CachedSeen(ms[i].store, n, k) >= LastRefreshed(hash, ms, acts, n, k, i)
  }

  lemma {:induction false} LatestExists<H>(hash: Labels -> Hash, samples: seq<Sample<H>>, s: Sample<H>)
    requires s in samples
    ensures CacheRuns.Latest(hash, samples, hash(s.labels)).Some?
  {
    var n := |samples| - 1;
    if hash(samples[n].labels) != hash(s.labels) {
      assert s in samples[..n];
      LatestExists(hash, samples[..n], s);
    }
  }

  lemma RefreshStamps(hash: Labels -> Hash, store: StoreState, metricType: string, upd: Update, maxSeries: int, now: Time, n: string, k: DeltaKey)
    requires CacheSpec.Inv(hash, store) && Shows(store, n, k) && metricType == k.metricType && upd.name == n
    requires exists s :: s in upd.samples && hash(s.labels) == k.labelsHash
    ensures var store' := CacheSpec.Apply(hash, store, metricType, upd, maxSeries, now).0;
      Shows(store', n, k) && CachedSeen(store', n, k) == now
  {
    hide CacheSpec.Inv;
    ApplyShows(hash, store, metricType, upd, maxSeries, now, n, k);
    var s :| s in upd.samples && hash(s.labels) == k.labelsHash;
    LatestExists(hash, upd.samples, s);
    var put := CacheSpec.Put(store, n, CacheSpec.Opened(store, metricType, upd));
    CacheRuns.ApplySamplesEffect(hash, put, n, upd.samples, maxSeries, now, k.labelsHash);
  }

  lemma StepKeepsCached(hash: Labels -> Hash, m: Manager, a: Action, n: string, k: DeltaKey, staleAfter: Time)
    requires Enabled(m, a) && CacheSpec.Inv(hash, m.store) && CutoffsBehind(m, staleAfter)
    requires Shows(m.store, n, k) && m.clock <= CachedSeen(m.store, n, k) + staleAfter
    ensures var m' := Do(hash, m, a);
      && Shows(m'.store, n, k)
      && CachedSeen(m'.store, n, k) == if Refreshes(hash, m, a, n, k) then Stamp(m, a.w) else CachedSeen(m.store, n, k)
  {
    hide CacheSpec.Inv, CacheSpec.Apply, TranslateSpec.Translate, CacheRuns.Sweep, SweptType;
    match a {
      case Apply(w) =>
        var job := m.workers[w].job;
        WorkerShows(hash, m, w, n, k);
        if Refreshes(hash, m, a, n, k) {
          RefreshStamps(hash, m.store, job.metricType, job.upd, m.workers[w].cfg.maxSeries, job.stamp.value, n, k);
        }
      case SweepStore(w, types) =>
        SweepKeepsOwner(m.store, m.workers[w].job.cutoff, n, k);
      case _ =>
    }
  }

  lemma SweepKeepsOwner(store: StoreState, cutoff: Time, n: string, k: DeltaKey)
    requires Shows(store, n, k) && CachedSeen(store, n, k) >= cutoff
    ensures Shows(CacheRuns.Sweep(store, cutoff), n, k)
    ensures CacheRuns.Sweep(store, cutoff).families[n].series[k.labelsHash] == store.families[n].series[k.labelsHash]
  {
    CacheRuns.SweepKeepsTheLive(store, cutoff, n, k.labelsHash);
  }

  lemma StepKeepsInv(hash: Labels -> Hash, m: Manager, a: Action)
    requires Enabled(m, a) && CacheSpec.Inv(hash, m.store)
    ensures CacheSpec.Inv(hash, Do(hash, m, a).store)
  {
    hide CacheSpec.Inv, CacheSpec.Apply, TranslateSpec.Translate, CacheRuns.Sweep, SweptType;
    if a.Apply? {
      var job := m.workers[a.w].job;
      CacheRuns.ApplyAccounts(hash, m.store, job.metricType, job.upd, m.workers[a.w].cfg.maxSeries, job.stamp.value);
    } else if a.SweepStore? {
      CacheRuns.SweepKeepsInv(hash, m.store, m.workers[a.w].job.cutoff);
    }
  }

  /** The label pool agrees with the families in every reachable state. */
  lemma {:induction false} PoolAgreesInRun(hash: Labels -> Hash, ms: seq<Manager>, acts: seq<Action>, i: nat)
    requires Run(hash, ms, acts) && ms[0] == INITIAL && i < |ms|
    ensures CacheSpec.Inv(hash, ms[i].store)
  {
    if i == 0 {
      InitialIsSafe(hash, Sum, DeltaKey("", 0));
    } else {
      hide *;
      PoolAgreesInRun(hash, ms, acts, i - 1);
      RunStep(hash, ms, acts, i - 1);
      StepKeepsInv(hash, ms[i - 1], acts[i - 1]);
    }
  }

  /** Between two steps the clock is never more than `staleAfter` past the last
      update of the series. */
  ghost predicate RefreshedOften(hash: Labels -> Hash, ms: seq<Manager>, acts: seq<Action>, n: string, k: DeltaKey, staleAfter: Time, i: nat, j: nat)
    requires Run(hash, ms, acts) && j <= |ms|
  {
    forall x :: i <= x < j ==> ms[x].clock <= LastRefreshed(hash, ms, acts, n, k, x) + staleAfter
  }

  lemma CachedOneStep(hash: Labels -> Hash, ms: seq<Manager>, acts: seq<Action>, n: string, k: DeltaKey, staleAfter: Time, i: nat)
    requires Run(hash, ms, acts) && ms[0] == INITIAL && i + 1 < |ms|
    requires SweepsLate(acts, staleAfter) && CachedAndFresh(hash, ms, acts, n, k, i)
    requires ms[i].clock <= LastRefreshed(hash, ms, acts, n, k, i) + staleAfter
    ensures CachedAndFresh(hash, ms, acts, n, k, i + 1)
  {
    hide CutoffsBehind, SweepsLate, Do, Refreshes, CacheSpec.Inv;
    RunStep(hash, ms, acts, i);
    CutoffsStayBehind(hash, ms, acts, staleAfter, i);
    PoolAgreesInRun(hash, ms, acts, i);
    StepKeepsCached(hash, ms[i], acts[i], n, k, staleAfter);
  }

  /** A cached series that polls refresh at most `staleAfter` apart is never
      evicted. */
  lemma {:induction false} SeriesStays(hash: Labels -> Hash, ms: seq<Manager>, acts: seq<Action>, n: string, k: DeltaKey, staleAfter: Time, i: nat, j: nat)
    requires Run(hash, ms, acts) && ms[0] == INITIAL && i <= j < |ms|
    requires SweepsLate(acts, staleAfter) && CachedAndFresh(hash, ms, acts, n, k, i)
    requires RefreshedOften(hash, ms, acts, n, k, staleAfter, i, j)
    ensures CachedAndFresh(hash, ms, acts, n, k, j)
    decreases j
  {
    hide *;
    if i < j {
      RefreshedOftenShrinks(hash, ms, acts, n, k, staleAfter, i, j);
      SeriesStays(hash, ms, acts, n, k, staleAfter, i, j - 1);
      CachedOneStep(hash, ms, acts, n, k, staleAfter, j - 1);
    }
  }

  lemma RefreshedOftenShrinks(hash: Labels -> Hash, ms: seq<Manager>, acts: seq<Action>, n: string, k: DeltaKey, staleAfter: Time, i: nat, j: nat)
    requires Run(hash, ms, acts) && i < j < |ms| && RefreshedOften(hash, ms, acts, n, k, staleAfter, i, j)
    ensures RefreshedOften(hash, ms, acts, n, k, staleAfter, i, j - 1)
    ensures ms[j - 1].clock <= LastRefreshed(hash, ms, acts, n, k, j - 1) + staleAfter
  {
    hide LastRefreshed, Do, Enabled;
  }

  /** While cached, seen and refreshed at most `staleAfter` apart since it last
      came in, a DELTA series stays in the cache and what is served of it never
      falls, under every interleaving of overlapping polls, sweeps and rewires:
      the value of a non-negative scalar, the counts of a histogram while its
      layout stays. */
  lemma {:induction false} ServedCounterIsMonotone(hash: Labels -> Hash, mu: Measure, ms: seq<Manager>, acts: seq<Action>, n: string, k: DeltaKey, staleAfter: Time, b: nat, i: nat, j: nat)
    requires Run(hash, ms, acts) && ms[0] == INITIAL && b <= i <= j < |ms|
    requires SweepsLate(acts, staleAfter) && AlwaysDelta(hash, ms, acts, k) && CounterPolls(hash, mu, ms, acts, k)
    requires !Shown(ms[b].store, k) && SeenWhileShown(hash, ms, acts, k, staleAfter, b, j)
    requires CachedAndFresh(hash, ms, acts, n, k, i) && RefreshedOften(hash, ms, acts, n, k, staleAfter, i, j)
    ensures Shows(ms[i].store, n, k) && Shows(ms[j].store, n, k)
    ensures Value(mu, ms[i].store, n, k) <= Value(mu, ms[j].store, n, k)
    decreases j
  {
    hide *;
    FreshIsShown(hash, ms, acts, n, k, i);
    if i < j {
      RefreshedOftenShrinks(hash, ms, acts, n, k, staleAfter, i, j);
      SeenWhileShownWithin(hash, ms, acts, k, staleAfter, b, j, b, j - 1);
      SeenWhileShownWithin(hash, ms, acts, k, staleAfter, b, j, j - 1, j);
      ServedCounterIsMonotone(hash, mu, ms, acts, n, k, staleAfter, b, i, j - 1);
      SeriesStays(hash, ms, acts, n, k, staleAfter, i, j - 1);
      CachedOneStep(hash, ms, acts, n, k, staleAfter, j - 1);
      RunStep(hash, ms, acts, j - 1);
      SafeWhenSeenOften(hash, mu, ms, acts, k, staleAfter, b, j - 1);
      SeenOftenIsSkewFree(hash, mu, ms, acts, k, staleAfter, j - 1);
      CounterAt(hash, mu, ms, acts, k, j - 1);
      SafeIsSound(hash, mu, ms[j - 1], k);
      StepIsSafe(hash, mu, ms[j - 1], acts[j - 1], k);
      FreshIsShown(hash, ms, acts, n, k, j);
      NoneFallsAt(mu, ms[j - 1], ms[j], n, k);
    }
  }

  lemma FreshIsShown(hash: Labels -> Hash, ms: seq<Manager>, acts: seq<Action>, n: string, k: DeltaKey, i: nat)
    requires Run(hash, ms, acts) && i < |ms| && CachedAndFresh(hash, ms, acts, n, k, i)
    ensures Shows(ms[i].store, n, k) && n in ms[i].store.families && k.labelsHash in ms[i].store.families[n].series
  {}
}
