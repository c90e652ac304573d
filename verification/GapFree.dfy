/** Exactly-once counting of a DELTA stream by overlapping poll windows
    (internal/poll/manager.go and internal/translate/translate.go). */
module GapFree {
  import opened Basics
  import opened DeltaLog

  /** A point of the stream and the instant it can first be queried. */
  datatype StreamPoint = StreamPoint(point: Point, visibleAt: Time)
  type Stream = seq<StreamPoint>

  /** One successful poll: the query window ends at `at`, the answer shows what
      is visible at `served`. */
  datatype Query = Query(at: Time, served: Time)

  const LOOKBACK_MARGIN: Time := 30 * SECOND
  const DEFAULT_LOOKBACK: Time := 300 * SECOND

  /** The window length of a poll: an explicit override, else what the metric's
      descriptor suggests. */
  function Lookback(override_: Time, ingestDelay: Time, samplePeriod: Time): Time
  {
    if override_ != 0 then override_
    else if ingestDelay == 0 && samplePeriod == 0 then DEFAULT_LOOKBACK
    else ingestDelay + samplePeriod + LOOKBACK_MARGIN
  }

  /** The windows in numbers: a lookback of an entry's own, if it is not zero, is
      taken as it is; a descriptor without timing gives five minutes; any other
      gives its ingest delay, its sample period and 30 seconds more. */
  lemma LookbackInSeconds(override_: Time, ingestDelay: Time, samplePeriod: Time)
    ensures override_ != 0 ==> Lookback(override_, ingestDelay, samplePeriod) == override_
    ensures override_ == 0 && ingestDelay == 0 && samplePeriod == 0 ==>
      Lookback(override_, ingestDelay, samplePeriod) == 300_000_000_000
    ensures override_ == 0 && (ingestDelay != 0 || samplePeriod != 0) ==>
      Lookback(override_, ingestDelay, samplePeriod) == ingestDelay + samplePeriod + 30_000_000_000
  {}

  /** Points end in order, become visible in that order, and at most
      `ingestDelay` after they end. */
  ghost predicate ValidStream(kind: Payload, stream: Stream, ingestDelay: Time)
  {
    && (forall i, j :: 0 <= i < j < |stream| ==>
      stream[i].point.end < stream[j].point.end && stream[i].visibleAt <= stream[j].visibleAt)
    && (forall i :: 0 <= i < |stream| ==>
      && ZERO_TIME < stream[i].point.end <= stream[i].visibleAt <= stream[i].point.end + ingestDelay
      && Readable(kind, stream[i].point))
  }

  ghost predicate ReadableInOrder(kind: Payload, stream: Stream)
  {
    && (forall i, j :: 0 <= i < j < |stream| ==> stream[i].point.end < stream[j].point.end)
    && (forall i :: 0 <= i < |stream| ==> Readable(kind, stream[i].point))
  }

  /** Whether a query shows a point whose end is after `start`. */
  predicate Shows(start: Time, q: Query, p: StreamPoint)
  {
    start < p.point.end <= q.at && p.visibleAt <= q.served
  }

  /** The points a query shows, oldest first. */
  function Shown(stream: Stream, start: Time, q: Query): seq<Point>
  {
    if stream == [] then [] else
    var last := stream[|stream| - 1];
    Shown(stream[..|stream| - 1], start, q) + if Shows(start, q, last) then [last.point] else []
  }

  /** The response to a query: the same points, newest first. */
  function Response(stream: Stream, start: Time, q: Query): seq<Point>
  {
    if stream == [] then [] else
    var last := stream[|stream| - 1];
    (if Shows(start, q, last) then [last.point] else []) + Response(stream[..|stream| - 1], start, q)
  }

  /** Putting a newer readable point in front of a response adds it last. */
  lemma {:induction false} TakenOfNewer(kind: Payload, w: Time, p: Point, points: seq<Point>)
    requires Readable(kind, p) && forall q :: q in points ==> q.end < p.end && Readable(kind, q)
    ensures Taken(kind, w, [p] + points) == Taken(kind, w, points) + if p.end > w then [p] else []
    decreases points
  {
    if points == [] {
      assert ([p] + points)[..0] == [];
    } else {
      var n := |points| - 1;
      var oldest, newer := points[n], points[..n];
      assert ([p] + points)[..n + 1] == [p] + newer;
      assert oldest in points;
      TakenOfNewer(kind, if oldest.end <= w then w else oldest.end, p, newer);
    }
  }

  lemma {:induction false} ResponseMembers(stream: Stream, start: Time, q: Query, p: Point)
    requires p in Response(stream, start, q)
    ensures exists i :: 0 <= i < |stream| && stream[i].point == p && Shows(start, q, stream[i])
  {
    var n := |stream| - 1;
    if Shows(start, q, stream[n]) && p == stream[n].point {
    } else {
      ResponseMembers(stream[..n], start, q, p);
      var i :| 0 <= i < n && stream[..n][i].point == p && Shows(start, q, stream[..n][i]);
      assert stream[i].point == p;
    }
  }

  /** From a response the accumulator takes exactly what is beyond its watermark. */
  lemma {:induction false} TakenFromResponse(kind: Payload, stream: Stream, start: Time, q: Query, w: Time)
    requires ReadableInOrder(kind, stream)
    ensures Taken(kind, w, Response(stream, start, q)) == Shown(stream, Max(start, w), q)
  {
    if stream != [] {
      var rest, last := stream[..|stream| - 1], stream[|stream| - 1];
      var older := Response(rest, start, q);
      TakenFromResponse(kind, rest, start, q, w);
      if Shows(start, q, last) {
        forall p | p in older
          ensures p.end < last.point.end && Readable(kind, p)
        {
          ResponseMembers(rest, start, q, p);
        }
        TakenOfNewer(kind, w, last.point, older);
      } else {
        assert Response(stream, start, q) == older;
      }
    }
  }

  lemma {:induction false} ShownEmpty(stream: Stream, start: Time, q: Query)
    requires forall i :: 0 <= i < |stream| ==> !Shows(start, q, stream[i])
    ensures Shown(stream, start, q) == []
  {
    if stream != [] {
      ShownEmpty(stream[..|stream| - 1], start, q);
    }
  }

  /** If what a later query shows is what an earlier one showed and then what
      it shows beyond `mid`, the shown sequences concatenate. */
  lemma {:induction false} ShownSplits(stream: Stream, start: Time, q0: Query, mid: Time, q1: Query)
    requires forall i, j :: 0 <= i < j < |stream| ==> stream[i].point.end < stream[j].point.end
    requires forall i :: 0 <= i < |stream| ==>
      (Shows(start, q1, stream[i]) <==> Shows(start, q0, stream[i]) || Shows(mid, q1, stream[i]))
    requires forall i :: 0 <= i < |stream| && Shows(start, q0, stream[i]) ==> stream[i].point.end <= mid
    ensures Shown(stream, start, q1) == Shown(stream, start, q0) + Shown(stream, mid, q1)
  {
    if stream != [] {
      var n := |stream| - 1;
      var rest := stream[..n];
      ShownSplits(rest, start, q0, mid, q1);
      if Shows(start, q0, stream[n]) {
        ShownEmpty(rest, mid, q1);
      }
    }
  }

  lemma {:induction false} ShownMembers(stream: Stream, start: Time, q: Query, i: nat)
    requires i < |stream| && Shows(start, q, stream[i])
    ensures stream[i].point in Shown(stream, start, q)
  {
    var n := |stream| - 1;
    if i < n {
      ShownMembers(stream[..n], start, q, i);
    }
  }

  lemma {:induction false} ShownOrigin(stream: Stream, start: Time, q: Query, p: Point)
    requires p in Shown(stream, start, q)
    ensures exists i :: 0 <= i < |stream| && stream[i].point == p && Shows(start, q, stream[i])
  {
    var n := |stream| - 1;
    if p in Shown(stream[..n], start, q) {
      ShownOrigin(stream[..n], start, q, p);
      var i :| 0 <= i < n && stream[..n][i].point == p && Shows(start, q, stream[..n][i]);
      assert stream[i].point == p;
    }
  }

  lemma {:induction false} ShownAscending(stream: Stream, start: Time, q: Query)
    requires forall i, j :: 0 <= i < j < |stream| ==> stream[i].point.end < stream[j].point.end
    ensures Ascending(Shown(stream, start, q))
  {
    if stream != [] {
      var rest, last := stream[..|stream| - 1], stream[|stream| - 1];
      ShownAscending(rest, start, q);
      forall k | 0 <= k < |Shown(rest, start, q)|
        ensures Shown(rest, start, q)[k].end < last.point.end
      {
        ShownOrigin(rest, start, q, Shown(rest, start, q)[k]);
      }
    }
  }

  /** The watermark after counting what a query showed is the end of the newest
      point shown. */
  lemma WatermarkBounds(stream: Stream, start: Time, q: Query, i: nat)
    requires forall i, j :: 0 <= i < j < |stream| ==> stream[i].point.end < stream[j].point.end
    requires i < |stream| && Shows(start, q, stream[i])
    ensures stream[i].point.end <= Watermark(ZERO_TIME, Shown(stream, start, q))
  {
    ShownMembers(stream, start, q, i);
    ShownAscending(stream, start, q);
  }

  /** One step: the point a later query adds are all beyond the watermark and
      inside its window. */
  lemma NextQueryIsGapFree(kind: Payload, stream: Stream, ingestDelay: Time, lookback: Time, start: Time, q0: Query, q1: Query)
    requires ValidStream(kind, stream, ingestDelay)
    requires q0.at <= q0.served <= q1.served && q0.at <= q1.at && start >= ZERO_TIME
    requires q1.at - q0.at <= lookback - ingestDelay
    ensures var w := Watermark(ZERO_TIME, Shown(stream, start, q0));
      Shown(stream, start, q1) == Shown(stream, start, q0) + Shown(stream, Max(Max(start, q1.at - lookback), w), q1)
  {
    var seen := Shown(stream, start, q0);
    var w := Watermark(ZERO_TIME, seen);
    var mid := Max(Max(start, q1.at - lookback), w);
    if seen != [] {
      ShownOrigin(stream, start, q0, seen[|seen| - 1]);
    }
    forall i | 0 <= i < |stream|
      ensures Shows(start, q1, stream[i]) <==> Shows(start, q0, stream[i]) || Shows(mid, q1, stream[i])
      ensures Shows(start, q0, stream[i]) ==> stream[i].point.end <= mid
    {
      if Shows(start, q0, stream[i]) {
        WatermarkBounds(stream, start, q0, i);
      }
    }
    ShownSplits(stream, start, q0, mid, q1);
  }

  // ------------------------------------------------------------- whole runs

  /** Polls one after the other, at most `gap` apart. */
  ghost predicate ValidSchedule(queries: seq<Query>, gap: Time)
  {
    && (forall i :: 0 <= i < |queries| ==> queries[i].at <= queries[i].served)
    && (forall i, j :: 0 <= i < j < |queries| && j == i + 1 ==>
      queries[i].served <= queries[j].at <= queries[i].at + gap)
  }

  /** The responses the polls commit. */
  function PollsOf(stream: Stream, lookback: Time, queries: seq<Query>): (polls: seq<Poll>)
    ensures |polls| == |queries|
  {
    if queries == [] then [] else
    var q := queries[|queries| - 1];
    PollsOf(stream, lookback, queries[..|queries| - 1]) + [Poll(q.served, Response(stream, q.at - lookback, q))]
  }

  lemma {:induction false} ShownFromZero(kind: Payload, stream: Stream, ingestDelay: Time, start: Time, q: Query)
    requires ValidStream(kind, stream, ingestDelay)
    ensures Shown(stream, Max(start, ZERO_TIME), q) == Shown(stream, start, q)
  {
    if stream != [] {
      ShownFromZero(kind, stream[..|stream| - 1], ingestDelay, start, q);
    }
  }

  /** The queries of a schedule never go back before the first. */
  lemma {:induction false} ScheduleAdvances(queries: seq<Query>, gap: Time)
    requires ValidSchedule(queries, gap) && queries != []
    ensures queries[0].at <= queries[|queries| - 1].at
  {
    if |queries| > 1 {
      ScheduleAdvances(queries[..|queries| - 1], gap);
    }
  }

  /** Counting the response of the next query after what an earlier one showed
      gives what the next one shows. */
  lemma CountingTheNextQuery(kind: Payload, stream: Stream, ingestDelay: Time, lookback: Time, since: Time, q0: Query, q1: Query)
    requires ValidStream(kind, stream, ingestDelay)
    requires q0.at <= q0.served <= q1.served && q0.at <= q1.at && since <= q1.at - lookback
    requires q1.at - q0.at <= lookback - ingestDelay
    ensures var log := Shown(stream, since, q0);
      log + Taken(kind, Watermark(ZERO_TIME, log), Response(stream, q1.at - lookback, q1)) == Shown(stream, since, q1)
  {
    var start := Max(since, ZERO_TIME);
    var log := Shown(stream, since, q0);
    var w := Watermark(ZERO_TIME, log);
    ShownFromZero(kind, stream, ingestDelay, since, q0);
    ShownFromZero(kind, stream, ingestDelay, since, q1);
    TakenFromResponse(kind, stream, q1.at - lookback, q1, w);
    NextQueryIsGapFree(kind, stream, ingestDelay, lookback, start, q0, q1);
    if log != [] {
      ShownOrigin(stream, since, q0, log[|log| - 1]);
    }
    assert Max(q1.at - lookback, w) == Max(Max(start, q1.at - lookback), w);
  }

  /** Gap-free, exactly once: with polls close enough together, what has been
      counted after the last poll is every point it could see that ended after
      the first window opened, each once and in order. */
  lemma {:induction false} GapFreeExactlyOnce(kind: Payload, stream: Stream, ingestDelay: Time, lookback: Time, gap: Time, queries: seq<Query>)
    requires ValidStream(kind, stream, ingestDelay)
    requires ValidSchedule(queries, gap) && gap <= lookback - ingestDelay && queries != []
    ensures LogAfter(kind, PollsOf(stream, lookback, queries))
         == Shown(stream, queries[0].at - lookback, queries[|queries| - 1])
    decreases |queries|
  {
    var n := |queries| - 1;
    var front, q1 := queries[..n], queries[n];
    var since := queries[0].at - lookback;
    if n == 0 {
      FirstQueryCounts(kind, stream, ingestDelay, lookback, queries);
    } else {
      ScheduleStep(queries, gap);
      hide *;
      GapFreeExactlyOnce(kind, stream, ingestDelay, lookback, gap, front);
      ScheduleAdvances(queries, gap);
      CountingTheNextQuery(kind, stream, ingestDelay, lookback, since, queries[n - 1], q1);
      PollsSnoc(kind, stream, lookback, queries);
    }
  }

  lemma FirstQueryCounts(kind: Payload, stream: Stream, ingestDelay: Time, lookback: Time, queries: seq<Query>)
    requires ValidStream(kind, stream, ingestDelay) && |queries| == 1
    ensures LogAfter(kind, PollsOf(stream, lookback, queries)) == Shown(stream, queries[0].at - lookback, queries[0])
  {
    TakenFromResponse(kind, stream, queries[0].at - lookback, queries[0], ZERO_TIME);
    ShownFromZero(kind, stream, ingestDelay, queries[0].at - lookback, queries[0]);
    PollsSnoc(kind, stream, lookback, queries);
    hide Taken, Shown, Response;
  }

  lemma PollsSnoc(kind: Payload, stream: Stream, lookback: Time, queries: seq<Query>)
    requires queries != []
    ensures var q := queries[|queries| - 1];
      var log := LogAfter(kind, PollsOf(stream, lookback, queries[..|queries| - 1]));
      LogAfter(kind, PollsOf(stream, lookback, queries))
        == log + Taken(kind, Watermark(ZERO_TIME, log), Response(stream, q.at - lookback, q))
  {
    var q := queries[|queries| - 1];
    LogAfterSnoc(kind, PollsOf(stream, lookback, queries[..|queries| - 1]), Poll(q.served, Response(stream, q.at - lookback, q)));
    hide Taken, Response;
  }

  lemma ScheduleStep(queries: seq<Query>, gap: Time)
    requires ValidSchedule(queries, gap) && |queries| > 1
    ensures var n := |queries| - 1;
      && ValidSchedule(queries[..n], gap) && queries[..n][0] == queries[0] && queries[..n][n - 1] == queries[n - 1]
      && queries[n - 1].at <= queries[n - 1].served <= queries[n].at <= queries[n].served
      && queries[n].at <= queries[n - 1].at + gap
  {}

  /** A shown sequence has every shown point of the stream and no other. */
  lemma {:induction false} ShownExactly(stream: Stream, start: Time, q: Query, p: Point)
    ensures p in Shown(stream, start, q) <==>
      exists i :: 0 <= i < |stream| && stream[i].point == p && Shows(start, q, stream[i])
  {
    if p in Shown(stream, start, q) {
      ShownOrigin(stream, start, q, p);
    }
    if i :| 0 <= i < |stream| && stream[i].point == p && Shows(start, q, stream[i]) {
      ShownMembers(stream, start, q, i);
    }
  }

  /** With the automatic lookback, successful polls at most the sample period
      and 30 seconds apart lose nothing: the counter is the sum of every visible
      increment since the first window opened. */
  lemma {:induction false} AutomaticLookbackIsGapFree(stream: Stream, ingestDelay: Time, samplePeriod: Time, queries: seq<Query>)
    requires ingestDelay >= 0 && samplePeriod >= 0
    requires ValidStream(Scalar, stream, ingestDelay)
    requires ValidSchedule(queries, samplePeriod + LOOKBACK_MARGIN) && queries != []
    ensures var lookback := Lookback(0, ingestDelay, samplePeriod);
      AccAfter(Scalar, PollsOf(stream, lookback, queries)).sum
      == Total(Shown(stream, queries[0].at - lookback, queries[|queries| - 1]))
  {
    hide Shown, LogAfter, AccAfter, PollsOf, Replay, LayoutChanges, ResetsAfter, Total, ValidStream;
    var lookback := Lookback(0, ingestDelay, samplePeriod);
    GapFreeExactlyOnce(Scalar, stream, ingestDelay, lookback, samplePeriod + LOOKBACK_MARGIN, queries);
    ScalarAccumulatorFollowsLog(PollsOf(stream, lookback, queries));
  }

  /** The same for distributions: the published histogram is the pointwise sum
      over every visible point since the last change of bucket layout. */
  lemma {:induction false} AutomaticLookbackIsGapFreeForDistributions(stream: Stream, ingestDelay: Time, samplePeriod: Time, queries: seq<Query>)
    requires ingestDelay >= 0 && samplePeriod >= 0
    requires ValidStream(Dist, stream, ingestDelay)
    requires ValidSchedule(queries, samplePeriod + LOOKBACK_MARGIN) && queries != []
    ensures var lookback := Lookback(0, ingestDelay, samplePeriod);
      var polls, shown := PollsOf(stream, lookback, queries), Shown(stream, queries[0].at - lookback, queries[|queries| - 1]);
      && AccAfter(Dist, polls).hist == Replay(shown)
      && ResetsAfter(polls) == LayoutChanges(shown)
  {
    hide Shown, LogAfter, AccAfter, PollsOf, Replay, LayoutChanges, ResetsAfter, Total, ValidStream;
    var lookback := Lookback(0, ingestDelay, samplePeriod);
    GapFreeExactlyOnce(Dist, stream, ingestDelay, lookback, samplePeriod + LOOKBACK_MARGIN, queries);
    DistAccumulatorFollowsLog(PollsOf(stream, lookback, queries));
  }

  /** A descriptor without timing says nothing of the delay there is. If it is
      `delay`, the five minutes then taken bridge gaps of what they leave of it. */
  lemma {:induction false} DefaultLookbackIsGapFree(kind: Payload, stream: Stream, delay: Time, queries: seq<Query>)
    requires ValidStream(kind, stream, delay)
    requires ValidSchedule(queries, 300_000_000_000 - delay) && queries != []
    ensures LogAfter(kind, PollsOf(stream, Lookback(0, 0, 0), queries))
         == Shown(stream, queries[0].at - 300_000_000_000, queries[|queries| - 1])
  {
    GapFreeExactlyOnce(kind, stream, delay, Lookback(0, 0, 0), 300_000_000_000 - delay, queries);
  }

  /** A point just outside the later of two windows, visible after the earlier. */
  function LostPoint(ingestDelay: Time, lookback: Time, later: Time): StreamPoint
  {
    StreamPoint(Point(later - lookback, Int64Value(1)), later - lookback + ingestDelay)
  }

  /** The bound on the gap is the best possible: with any larger gap, some point
      is lost although the later query is made after it became visible. */
  lemma LongerGapLosesAPoint(ingestDelay: Time, lookback: Time, gap: Time, at: Time)
    requires 0 <= ingestDelay <= lookback && gap > 0 && at > lookback
    requires gap > lookback - ingestDelay
    ensures var first, later := Query(at, at), Query(at + gap, at + gap);
      var stream := [LostPoint(ingestDelay, lookback, at + gap)];
      && ValidStream(Scalar, stream, ingestDelay)
      && ValidSchedule([first, later], gap)
      && LogAfter(Scalar, PollsOf(stream, lookback, [first, later])) == []
      && Shown(stream, at - lookback, later) == [stream[0].point]
  {
    var first, later := Query(at, at), Query(at + gap, at + gap);
    var lost := LostPoint(ingestDelay, lookback, at + gap);
    OnePointStream(lost, first.at - lookback, first);
    OnePointStream(lost, later.at - lookback, later);
    OnePointStream(lost, at - lookback, later);
    TwoPolls([lost], lookback, first, later);
    EmptyResponses(Scalar, [Poll(first.served, []), Poll(later.served, [])]);
  }

  lemma TwoPolls(stream: Stream, lookback: Time, q0: Query, q1: Query)
    ensures PollsOf(stream, lookback, [q0, q1]) ==
      [Poll(q0.served, Response(stream, q0.at - lookback, q0)), Poll(q1.served, Response(stream, q1.at - lookback, q1))]
  {
    hide Response;
    assert [q0, q1][..1] == [q0] && [q0][..0] == [];
    assert PollsOf(stream, lookback, [q0]) == [Poll(q0.served, Response(stream, q0.at - lookback, q0))];
  }

  lemma OnePointStream(p: StreamPoint, start: Time, q: Query)
    ensures Shown([p], start, q) == Response([p], start, q) == if Shows(start, q, p) then [p.point] else []
  {
    assert [p][..0] == [];
  }

  lemma {:induction false} EmptyResponses(kind: Payload, polls: seq<Poll>)
    requires forall i :: 0 <= i < |polls| ==> polls[i].points == []
    ensures LogAfter(kind, polls) == []
  {
    if polls != [] {
      EmptyResponses(kind, polls[..|polls| - 1]);
    }
  }
}
