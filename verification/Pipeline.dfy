/** The whole way of a DELTA series through the running manager: from what the
    service answers to overlapping fetches to what its accumulator holds
    (internal/poll/manager.go and internal/translate). */
module Pipeline {
  import opened Basics
  import opened DeltaLog
  import opened TranslateSpec
  import opened PollManager
  import opened Counters
  import opened Staleness
  import GapFree
  import Overlap

  /** A response shows a series: its points, under one DELTA series if there are
      any, and nothing else that concerns its key. */
  ghost predicate Lists(hash: Labels -> Hash, k: DeltaKey, md: MetricDescriptor, series: seq<TimeSeries>, points: seq<Point>)
  {
    if points == [] then forall i :: 0 <= i < |series| ==> !Concerns(hash, k, md, series[i])
    else exists i :: 0 <= i < |series| && ListsAt(hash, k, md, series, points, i)
  }

  ghost predicate ListsAt(hash: Labels -> Hash, k: DeltaKey, md: MetricDescriptor, series: seq<TimeSeries>, points: seq<Point>, i: nat)
    requires i < |series|
  {
    && Concerns(hash, k, md, series[i]) && IsDelta(md, series[i]) && series[i].points == points
    && forall j :: 0 <= j < |series| && j != i ==> !Concerns(hash, k, md, series[j])
  }

  /** The response commits nothing to the key, or its points at once. */
  lemma {:induction false} NothingListed(hash: Labels -> Hash, k: DeltaKey, md: MetricDescriptor, series: seq<TimeSeries>, now: Time)
    requires forall i :: 0 <= i < |series| ==> !Concerns(hash, k, md, series[i])
    ensures ResponsePolls(hash, k, md, series, now) == []
  {
    if series != [] {
      NothingListed(hash, k, md, series[..|series| - 1], now);
    }
  }

  lemma {:induction false} OneListed(hash: Labels -> Hash, k: DeltaKey, md: MetricDescriptor, series: seq<TimeSeries>, points: seq<Point>, i: nat, now: Time)
    requires i < |series| && ListsAt(hash, k, md, series, points, i)
    ensures ResponsePolls(hash, k, md, series, now) == [Poll(now, points)]
  {
    var n := |series| - 1;
    if i == n {
      NothingListed(hash, k, md, series[..n], now);
    } else {
      OneListed(hash, k, md, series[..n], points, i, now);
    }
  }

  lemma ListedPolls(hash: Labels -> Hash, k: DeltaKey, md: MetricDescriptor, series: seq<TimeSeries>, points: seq<Point>, now: Time)
    requires Lists(hash, k, md, series, points)
    ensures ResponsePolls(hash, k, md, series, now) == if points == [] then [] else [Poll(now, points)]
  {
    hide ListsAt, Concerns;
    if points == [] {
      NothingListed(hash, k, md, series, now);
    } else {
      var i :| 0 <= i < |series| && ListsAt(hash, k, md, series, points, i);
      OneListed(hash, k, md, series, points, i, now);
    }
  }

  // ------------------------------------------------------ the service's answers

  /** A stream as the service keeps it, the timing its descriptor states, and the
      lookback of the entries that ask for it, zero for none of their own. */
  datatype Source = Source(kind: Payload, stream: GapFree.Stream, ingestDelay: Time, samplePeriod: Time, lookback: Time)

  ghost predicate ValidSource(src: Source)
  {
    src.ingestDelay >= 0 && src.samplePeriod >= 0 && GapFree.ValidStream(src.kind, src.stream, src.ingestDelay)
  }

  /** The length of a poll's window. */
  function PollWindow(e: Entry, md: MetricDescriptor): Time
  {
    GapFree.Lookback(e.lookback, md.ingestDelay, md.samplePeriod)
  }

  /** The window of every poll of the stream. */
  function Window(src: Source): Time
  {
    GapFree.Lookback(src.lookback, src.ingestDelay, src.samplePeriod)
  }

  /** How much later than all before it a poll may ask. */
  function Gap(src: Source): Time
  {
    Window(src) - src.ingestDelay
  }

  /** In numbers: the sample period and 30 seconds; five minutes if the descriptor
      states no timing; or what a lookback of the entries' own exceeds the ingest
      delay by. */
  lemma GapInSeconds(src: Source)
    ensures src.lookback == 0 && (src.ingestDelay != 0 || src.samplePeriod != 0) ==> Gap(src) == src.samplePeriod + 30_000_000_000
    ensures src.lookback == 0 && src.ingestDelay == 0 && src.samplePeriod == 0 ==> Gap(src) == 300_000_000_000
    ensures src.lookback != 0 ==> Gap(src) == src.lookback - src.ingestDelay
  {
    GapFree.LookbackInSeconds(src.lookback, src.ingestDelay, src.samplePeriod);
  }

  function Answer(src: Source, at: Time, served: Time): seq<Point>
  {
    GapFree.Response(src.stream, at - Window(src), GapFree.Query(at, served))
  }

  /** A fetch of the metric type is answered from the stream: the entry has the
      lookback and the descriptor the timing stated, and the response is what the
      window of this poll shows when it is served, at some time between the
      request and now. */
  ghost predicate Answered(hash: Labels -> Hash, m: Manager, a: Action, k: DeltaKey, src: Source)
    requires Enabled(m, a)
  {
    a.Fetch? && a.md.typ == k.metricType ==>
      var e, at := m.workers[a.w].role.entry, m.workers[a.w].job.at;
      && e.lookback == src.lookback && a.md.ingestDelay == src.ingestDelay && a.md.samplePeriod == src.samplePeriod
      && Lists(hash, k, a.md, a.series, GapFree.Response(src.stream, at - PollWindow(e, a.md), GapFree.Query(at, a.served)))
  }

  ghost predicate AlwaysAnswered(hash: Labels -> Hash, ms: seq<Manager>, acts: seq<Action>, k: DeltaKey, src: Source)
    requires Run(hash, ms, acts)
  {
    forall i :: 0 <= i < |acts| && Enabled(ms[i], acts[i]) ==> Answered(hash, ms[i], acts[i], k, src)
  }

  /** Responses not yet translated are answers too. */
  ghost predicate InFlight(hash: Labels -> Hash, m: Manager, k: DeltaKey, src: Source)
  {
    forall w :: w in m.workers && m.workers[w].job.Fetched? && m.workers[w].job.md.typ == k.metricType ==>
      && m.workers[w].job.at <= m.workers[w].job.served
      && Lists(hash, k, m.workers[w].job.md, m.workers[w].job.series, Answer(src, m.workers[w].job.at, m.workers[w].job.served))
  }

  lemma StepInFlight(hash: Labels -> Hash, m: Manager, a: Action, k: DeltaKey, src: Source)
    requires Enabled(m, a) && Answered(hash, m, a, k, src) && InFlight(hash, m, k, src)
    ensures InFlight(hash, Do(hash, m, a), k, src)
  {
    if a.Fetch? && a.md.typ == k.metricType {
      AnswerToFetch(hash, m, a, k, src);
    }
    hide TranslateSpec.Translate, Applied, Lists, Answer, SweptType, GapFree.Response;
  }

  lemma AnswerToFetch(hash: Labels -> Hash, m: Manager, a: Action, k: DeltaKey, src: Source)
    requires Enabled(m, a) && Answered(hash, m, a, k, src) && a.Fetch? && a.md.typ == k.metricType
    ensures Lists(hash, k, a.md, a.series, Answer(src, m.workers[a.w].job.at, a.served))
  {
    hide Lists, GapFree.Response;
  }

  lemma {:induction false} InFlightInRun(hash: Labels -> Hash, ms: seq<Manager>, acts: seq<Action>, k: DeltaKey, src: Source, i: nat)
    requires Run(hash, ms, acts) && ms[0] == INITIAL && i < |ms| && AlwaysAnswered(hash, ms, acts, k, src)
    ensures InFlight(hash, ms[i], k, src)
  {
    if i > 0 {
      RunStep(hash, ms, acts, i - 1);
      hide Do, Enabled, Run, Answered, InFlight;
      InFlightInRun(hash, ms, acts, k, src, i - 1);
      StepInFlight(hash, ms[i - 1], acts[i - 1], k, src);
    }
  }

  // ------------------------------------------------ the queries behind the polls

  /** The queries whose responses were committed, in commit order, since a sweep
      last dropped the accumulator; those that showed nothing for the key too. */
  ghost function QueriesSince(hash: Labels -> Hash, ms: seq<Manager>, acts: seq<Action>, k: DeltaKey, i: nat): seq<GapFree.Query>
    requires Run(hash, ms, acts) && i < |ms|
  {
    if i == 0 then [] else
    var before := QueriesSince(hash, ms, acts, k, i - 1);
    assert Enabled(ms[i - 1], acts[i - 1]);
    match acts[i - 1]
    case Translate(w) =>
      var job := ms[i - 1].workers[w].job;
      if job.md.typ == k.metricType then before + [GapFree.Query(job.at, job.served)] else before
    case SweepType(_, _) => if k in ms[i - 1].accs && k !in ms[i].accs then [] else before
    case _ => before
  }

  /** The same responses, whenever they were committed. */
  ghost predicate SamePoints(a: seq<Poll>, b: seq<Poll>)
  {
    |a| == |b| && forall i :: 0 <= i < |a| ==> a[i].points == b[i].points
  }

  lemma {:induction false} LogIgnoresTime(kind: Payload, a: seq<Poll>, b: seq<Poll>)
    requires SamePoints(a, b)
    ensures LogAfter(kind, a) == LogAfter(kind, b)
  {
    if a != [] {
      LogIgnoresTime(kind, a[..|a| - 1], b[..|b| - 1]);
    }
  }

  /** Responses without points commit nothing. */
  function DropEmpty(polls: seq<Poll>): seq<Poll>
  {
    if polls == [] then [] else
    DropEmpty(polls[..|polls| - 1]) + if polls[|polls| - 1].points == [] then [] else [polls[|polls| - 1]]
  }

  lemma {:induction false} LogDropsEmpty(kind: Payload, polls: seq<Poll>)
    ensures LogAfter(kind, DropEmpty(polls)) == LogAfter(kind, polls)
  {
    if polls != [] {
      var front, poll := polls[..|polls| - 1], polls[|polls| - 1];
      LogDropsEmpty(kind, front);
      if poll.points != [] {
        LogAfterSnoc(kind, DropEmpty(front), poll);
      } else {
        assert DropEmpty(polls) == DropEmpty(front);
        assert LogAfter(kind, front) + [] == LogAfter(kind, front);
      }
    }
  }

  lemma NoConcern(hash: Labels -> Hash, k: DeltaKey, md: MetricDescriptor, series: seq<TimeSeries>, now: Time)
    requires md.typ != k.metricType
    ensures ResponsePolls(hash, k, md, series, now) == []
  {
    NothingListed(hash, k, md, series, now);
  }

  /** One response more on both sides. */
  lemma SamePointsSnoc(src: Source, polls: seq<Poll>, queries: seq<GapFree.Query>, at: Time, served: Time, now: Time)
    requires SamePoints(polls, DropEmpty(GapFree.PollsOf(src.stream, Window(src), queries)))
    ensures var points := Answer(src, at, served);
      SamePoints(polls + (if points == [] then [] else [Poll(now, points)]),
                 DropEmpty(GapFree.PollsOf(src.stream, Window(src), queries + [GapFree.Query(at, served)])))
  {
    var q := GapFree.Query(at, served);
    assert (queries + [q])[..|queries|] == queries;
    var before := GapFree.PollsOf(src.stream, Window(src), queries);
    var last := Poll(served, Answer(src, at, served));
    assert GapFree.PollsOf(src.stream, Window(src), queries + [q]) == before + [last];
    assert (before + [last])[..|before|] == before;
  }

  /** What has been committed to the key is what the stream answered to the
      queries behind it. */
  lemma {:induction false} PollsAreAnswers(hash: Labels -> Hash, ms: seq<Manager>, acts: seq<Action>, k: DeltaKey, src: Source, i: nat)
    requires Run(hash, ms, acts) && ms[0] == INITIAL && i < |ms| && AlwaysAnswered(hash, ms, acts, k, src)
    ensures SamePoints(PollsSince(hash, ms, acts, k, i),
                       DropEmpty(GapFree.PollsOf(src.stream, Window(src), QueriesSince(hash, ms, acts, k, i))))
  {
    if i > 0 {
      PollsAreAnswers(hash, ms, acts, k, src, i - 1);
      RunStep(hash, ms, acts, i - 1);
      InFlightInRun(hash, ms, acts, k, src, i - 1);
      if acts[i - 1].Translate? {
        TranslatedAnswer(hash, ms[i - 1], acts[i - 1].w, k, src, PollsSince(hash, ms, acts, k, i - 1), QueriesSince(hash, ms, acts, k, i - 1));
      }
      hide Do, Run, SamePoints, DropEmpty, GapFree.PollsOf, InFlight, AlwaysAnswered, ResponsePolls;
    }
  }

  lemma TranslatedAnswer(hash: Labels -> Hash, m: Manager, w: WorkerId, k: DeltaKey, src: Source, polls: seq<Poll>, queries: seq<GapFree.Query>)
    requires Enabled(m, Action.Translate(w)) && InFlight(hash, m, k, src)
    requires SamePoints(polls, DropEmpty(GapFree.PollsOf(src.stream, Window(src), queries)))
    ensures var job := m.workers[w].job;
      var more := if job.md.typ == k.metricType then queries + [GapFree.Query(job.at, job.served)] else queries;
      SamePoints(polls + ResponsePolls(hash, k, job.md, job.series, m.clock), DropEmpty(GapFree.PollsOf(src.stream, Window(src), more)))
  {
    var job := m.workers[w].job;
    if job.md.typ == k.metricType {
      ListedPolls(hash, k, job.md, job.series, Answer(src, job.at, job.served), m.clock);
      SamePointsSnoc(src, polls, queries, job.at, job.served, m.clock);
    } else {
      NoConcern(hash, k, job.md, job.series, m.clock);
      assert polls + [] == polls;
    }
    hide SamePoints, DropEmpty, GapFree.PollsOf, Lists, ResponsePolls, Answer;
  }

  lemma AccumulatorHoldsLog(hash: Labels -> Hash, ms: seq<Manager>, acts: seq<Action>, kind: Payload, k: DeltaKey, i: nat)
    requires Run(hash, ms, acts) && ms[0] == INITIAL && i < |ms| && AlwaysOfKind(hash, ms, acts, kind, k)
    ensures var log := LogAfter(kind, PollsSince(hash, ms, acts, k, i));
      if kind.Scalar? then SumOf(ms[i].accs, k) == Total(log) else AccOf(ms[i].accs, k).hist == Replay(log)
  {
    hide PollsSince, AccAfter, LogAfter, Total, Replay, AlwaysOfKind, Run, LayoutChanges, ResetsAfter;
    AccumulatorFollowsRun(hash, ms, acts, kind, k, i);
    if kind.Scalar? {
      ScalarAccumulatorFollowsLog(PollsSince(hash, ms, acts, k, i));
    } else {
      DistAccumulatorFollowsLog(PollsSince(hash, ms, acts, k, i));
    }
  }

  /** From the opening of the first window on, the log has exactly the points
      shown to one query that sees all that any of them sees, each once; and
      nothing older if no window opens before the first. */
  ghost predicate CountedExactly(src: Source, queries: seq<GapFree.Query>, best: GapFree.Query, log: seq<Point>)
    requires queries != []
  {
    var since := queries[0].at - Window(src);
    && best in queries && (forall q :: q in queries ==> Overlap.ReachesAll(src.stream, q, best))
    && Ascending(log) && Overlap.Beyond(log, since) == GapFree.Shown(src.stream, since, best)
    && ((forall j :: 0 <= j < |queries| ==> queries[j].at >= queries[0].at) ==> log == GapFree.Shown(src.stream, since, best))
  }

  lemma Counted(src: Source, queries: seq<GapFree.Query>) returns (best: GapFree.Query)
    requires ValidSource(src) && queries != [] && Overlap.OverlapSchedule(queries, Gap(src))
    ensures CountedExactly(src, queries, best, LogAfter(src.kind, GapFree.PollsOf(src.stream, Window(src), queries)))
  {
    var j := Overlap.OverlappingPollsAreGapFree(src.kind, src.stream, src.ingestDelay, Window(src), Gap(src), queries);
    best := queries[j];
    if forall x :: 0 <= x < |queries| ==> queries[x].at >= queries[0].at {
      Overlap.NothingOlder(src.kind, src.stream, Window(src), queries);
    }
  }

  lemma LogOfRun(hash: Labels -> Hash, ms: seq<Manager>, acts: seq<Action>, k: DeltaKey, src: Source, i: nat)
    requires Run(hash, ms, acts) && ms[0] == INITIAL && i < |ms| && AlwaysAnswered(hash, ms, acts, k, src)
    ensures LogAfter(src.kind, PollsSince(hash, ms, acts, k, i))
         == LogAfter(src.kind, GapFree.PollsOf(src.stream, Window(src), QueriesSince(hash, ms, acts, k, i)))
  {
    var polls, asked := PollsSince(hash, ms, acts, k, i), GapFree.PollsOf(src.stream, Window(src), QueriesSince(hash, ms, acts, k, i));
    PollsAreAnswers(hash, ms, acts, k, src, i);
    LogIgnoresTime(src.kind, polls, DropEmpty(asked));
    LogDropsEmpty(src.kind, asked);
  }

  /** The whole pipeline is gap-free and exactly once. Whatever happens between
      fetch and commit, and in whatever order overlapping polls commit: if none
      asks more than the gap after the latest before it, the accumulator is the total, or the replay, of a log that has exactly
      the points visible to the query that sees most. */
  lemma PipelineIsGapFree(hash: Labels -> Hash, ms: seq<Manager>, acts: seq<Action>, k: DeltaKey, src: Source, i: nat)
      returns (best: GapFree.Query, log: seq<Point>)
    requires Run(hash, ms, acts) && ms[0] == INITIAL && i < |ms| && ValidSource(src)
    requires AlwaysOfKind(hash, ms, acts, src.kind, k) && AlwaysAnswered(hash, ms, acts, k, src)
    requires var queries := QueriesSince(hash, ms, acts, k, i);
      queries != [] && Overlap.OverlapSchedule(queries, Gap(src))
    ensures CountedExactly(src, QueriesSince(hash, ms, acts, k, i), best, log)
    ensures if src.kind.Scalar? then SumOf(ms[i].accs, k) == Total(log) else AccOf(ms[i].accs, k).hist == Replay(log)
  {
    log := LogAfter(src.kind, PollsSince(hash, ms, acts, k, i));
    AccumulatorHoldsLog(hash, ms, acts, src.kind, k, i);
    LogOfRun(hash, ms, acts, k, src, i);
    best := Counted(src, QueriesSince(hash, ms, acts, k, i));
  }
}
