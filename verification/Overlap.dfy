/** Exactly-once counting when overlapping pollers commit their responses in any
    order (internal/poll/manager.go and internal/translate/translate.go). */
module Overlap {
  import opened Basics
  import opened DeltaLog
  import opened GapFree
  import Ordering

  /** The point is there to be seen when the query is answered. */
  predicate Reaches(q: Query, p: StreamPoint)
  {
    p.point.end <= q.at && p.visibleAt <= q.served
  }

  ghost predicate SomeReaches(queries: seq<Query>, p: StreamPoint)
  {
    exists j :: 0 <= j < |queries| && Reaches(queries[j], p)
  }

  /** The latest end of a query window. */
  function Latest(queries: seq<Query>): Time
    requires queries != []
  {
    if |queries| == 1 then queries[0].at else Max(Latest(queries[..|queries| - 1]), queries[|queries| - 1].at)
  }

  /** Commits in any order, but none asks more than `gap` after the latest of
      those committed before it. */
  predicate OverlapSchedule(queries: seq<Query>, gap: Time)
  {
    queries == [] ||
    var n := |queries| - 1;
    && OverlapSchedule(queries[..n], gap)
    && queries[n].at <= queries[n].served
    && (n > 0 ==> queries[n].at <= Latest(queries[..n]) + gap)
  }

  lemma {:induction false} LatestIsOne(queries: seq<Query>, gap: Time) returns (j: nat)
    requires queries != [] && OverlapSchedule(queries, gap)
    ensures j < |queries| && queries[j].at == Latest(queries) && queries[j].at <= queries[j].served
  {
    var n := |queries| - 1;
    j := n;
    if n > 0 && queries[n].at < Latest(queries[..n]) {
      j := LatestIsOne(queries[..n], gap);
    }
  }

  lemma ReachesEarlier(kind: Payload, stream: Stream, ingestDelay: Time, q: Query, i: nat, j: nat)
    requires ValidStream(kind, stream, ingestDelay) && i <= j < |stream| && Reaches(q, stream[j])
    ensures Reaches(q, stream[i])
  {}

  /** What the log has, one by one. */
  ghost predicate LogHas(stream: Stream, since: Time, queries: seq<Query>, log: seq<Point>)
  {
    && (forall p :: p in log ==> exists i :: 0 <= i < |stream| && stream[i].point == p && SomeReaches(queries, stream[i]))
    && (forall i :: 0 <= i < |stream| && stream[i].point.end > since ==>
      (stream[i].point in log <==> SomeReaches(queries, stream[i])))
  }

  /** A point no committed query reaches ended late enough for the next window. */
  lemma UnreachedIsInWindow(kind: Payload, stream: Stream, ingestDelay: Time, lookback: Time, gap: Time, front: seq<Query>, q: Query, i: nat)
    requires ValidStream(kind, stream, ingestDelay) && gap <= lookback - ingestDelay && i < |stream|
    requires front != [] && OverlapSchedule(front, gap) && q.at <= Latest(front) + gap
    requires !SomeReaches(front, stream[i])
    ensures stream[i].point.end > q.at - lookback
  {
    var j := LatestIsOne(front, gap);
    assert !Reaches(front[j], stream[i]);
  }

  /** And after everything counted. */
  lemma UnreachedIsNew(kind: Payload, stream: Stream, ingestDelay: Time, since: Time, front: seq<Query>, log: seq<Point>, i: nat)
    requires ValidStream(kind, stream, ingestDelay) && i < |stream|
    requires LogHas(stream, since, front, log) && !SomeReaches(front, stream[i])
    ensures stream[i].point.end > Watermark(ZERO_TIME, log)
  {
    if log != [] {
      var p := log[|log| - 1];
      assert p in log;
      var j :| 0 <= j < |stream| && stream[j].point == p && SomeReaches(front, stream[j]);
      var x :| 0 <= x < |front| && Reaches(front[x], stream[j]);
      if i <= j {
        ReachesEarlier(kind, stream, ingestDelay, front[x], i, j);
      }
    }
  }

  lemma SomeReachesSnoc(front: seq<Query>, q: Query, p: StreamPoint)
    ensures SomeReaches(front + [q], p) <==> SomeReaches(front, p) || Reaches(q, p)
  {
    var all := front + [q];
    assert all[|front|] == q;
    if j :| 0 <= j < |front| && Reaches(front[j], p) {
      assert Reaches(all[j], p);
    }
  }

  /** Committing the response of one more query. */
  lemma OneMoreQuery(kind: Payload, stream: Stream, ingestDelay: Time, lookback: Time, gap: Time, since: Time,
                     front: seq<Query>, q: Query, log: seq<Point>)
    requires ValidStream(kind, stream, ingestDelay) && gap <= lookback - ingestDelay
    requires front != [] && OverlapSchedule(front, gap) && q.at <= Latest(front) + gap
    requires LogHas(stream, since, front, log)
    ensures LogHas(stream, since, front + [q],
                   log + Taken(kind, Watermark(ZERO_TIME, log), Response(stream, q.at - lookback, q)))
  {
    var w := Watermark(ZERO_TIME, log);
    var start := Max(q.at - lookback, w);
    TakenFromResponse(kind, stream, q.at - lookback, q, w);
    var both := log + Shown(stream, start, q);
    forall p | p in both
      ensures exists i :: 0 <= i < |stream| && stream[i].point == p && SomeReaches(front + [q], stream[i])
    {
      var i := WhereFrom(stream, since, front, q, start, log, p);
      SomeReachesSnoc(front, q, stream[i]);
    }
    forall i | 0 <= i < |stream| && stream[i].point.end > since
      ensures stream[i].point in both <==> SomeReaches(front + [q], stream[i])
    {
      OneMorePoint(kind, stream, ingestDelay, lookback, gap, since, front, q, log, i);
    }
    hide Taken, Response, ValidStream, Shown, SomeReaches, OverlapSchedule, Latest;
  }

  lemma OneMorePoint(kind: Payload, stream: Stream, ingestDelay: Time, lookback: Time, gap: Time, since: Time,
                     front: seq<Query>, q: Query, log: seq<Point>, i: nat)
    requires ValidStream(kind, stream, ingestDelay) && gap <= lookback - ingestDelay
    requires front != [] && OverlapSchedule(front, gap) && q.at <= Latest(front) + gap
    requires LogHas(stream, since, front, log) && i < |stream| && stream[i].point.end > since
    ensures stream[i].point in log + Shown(stream, Max(q.at - lookback, Watermark(ZERO_TIME, log)), q) <==> SomeReaches(front + [q], stream[i])
  {
    SomeReachesSnoc(front, q, stream[i]);
    InShown(kind, stream, ingestDelay, Max(q.at - lookback, Watermark(ZERO_TIME, log)), q, i);
    if !SomeReaches(front, stream[i]) {
      UnreachedIsInWindow(kind, stream, ingestDelay, lookback, gap, front, q, i);
      UnreachedIsNew(kind, stream, ingestDelay, since, front, log, i);
    }
    hide ValidStream, Shown, SomeReaches, OverlapSchedule, Latest, Watermark;
  }

  lemma WhereFrom(stream: Stream, since: Time, front: seq<Query>, q: Query, start: Time, log: seq<Point>, p: Point) returns (i: nat)
    requires LogHas(stream, since, front, log) && p in log + Shown(stream, start, q)
    ensures i < |stream| && stream[i].point == p && (SomeReaches(front, stream[i]) || Reaches(q, stream[i]))
  {
    if p in log {
      i :| 0 <= i < |stream| && stream[i].point == p && SomeReaches(front, stream[i]);
    } else {
      ShownExactly(stream, start, q, p);
      i :| 0 <= i < |stream| && stream[i].point == p && GapFree.Shows(start, q, stream[i]);
    }
  }

  /** Points of a stream are told apart by their ends. */
  lemma InShown(kind: Payload, stream: Stream, ingestDelay: Time, start: Time, q: Query, i: nat)
    requires ValidStream(kind, stream, ingestDelay) && i < |stream|
    ensures stream[i].point in Shown(stream, start, q) <==> GapFree.Shows(start, q, stream[i])
  {
    ShownExactly(stream, start, q, stream[i].point);
    if stream[i].point in Shown(stream, start, q) {
      var j :| 0 <= j < |stream| && stream[j].point == stream[i].point && GapFree.Shows(start, q, stream[j]);
      assert stream[i].point.end == stream[j].point.end;
      assert i == j;
    }
  }

  lemma FirstLog(kind: Payload, stream: Stream, ingestDelay: Time, lookback: Time, q: Query)
    requires ValidStream(kind, stream, ingestDelay)
    ensures LogAfter(kind, PollsOf(stream, lookback, [q])) == Shown(stream, q.at - lookback, q)
  {
    var since := q.at - lookback;
    assert [q][..0] == [];
    LogAfterSnoc(kind, [], Poll(q.served, Response(stream, since, q)));
    assert [] + [Poll(q.served, Response(stream, since, q))] == PollsOf(stream, lookback, [q]);
    TakenFromResponse(kind, stream, since, q, ZERO_TIME);
    ShownFromZero(kind, stream, ingestDelay, since, q);
  }

  lemma FirstQuery(kind: Payload, stream: Stream, ingestDelay: Time, q: Query, since: Time)
    requires ValidStream(kind, stream, ingestDelay)
    ensures LogHas(stream, since, [q], Shown(stream, since, q))
  {
    forall p | p in Shown(stream, since, q)
      ensures exists i :: 0 <= i < |stream| && stream[i].point == p && SomeReaches([q], stream[i])
    {
      ShownExactly(stream, since, q, p);
      var i :| 0 <= i < |stream| && stream[i].point == p && GapFree.Shows(since, q, stream[i]);
      OneReaches(q, stream[i]);
    }
    forall i | 0 <= i < |stream| && stream[i].point.end > since
      ensures stream[i].point in Shown(stream, since, q) <==> SomeReaches([q], stream[i])
    {
      InShown(kind, stream, ingestDelay, since, q, i);
      OneReaches(q, stream[i]);
    }
  }

  lemma OneReaches(q: Query, p: StreamPoint)
    ensures SomeReaches([q], p) <==> Reaches(q, p)
  {
    assert [q][0] == q;
  }

  lemma {:induction false} CountedIsReached(kind: Payload, stream: Stream, ingestDelay: Time, lookback: Time, gap: Time, queries: seq<Query>)
    requires ValidStream(kind, stream, ingestDelay) && gap <= lookback - ingestDelay
    requires queries != [] && OverlapSchedule(queries, gap)
    ensures LogHas(stream, queries[0].at - lookback, queries, LogAfter(kind, PollsOf(stream, lookback, queries)))
  {
    var n := |queries| - 1;
    if n == 0 {
      assert queries == [queries[0]];
      FirstLog(kind, stream, ingestDelay, lookback, queries[0]);
      FirstQuery(kind, stream, ingestDelay, queries[0], queries[0].at - lookback);
    } else {
      OverlapSnoc(queries, gap);
      CountedIsReached(kind, stream, ingestDelay, lookback, gap, queries[..n]);
      LogOfSnoc(kind, stream, lookback, queries);
      ReachedSnoc(kind, stream, ingestDelay, lookback, gap, queries[0].at - lookback, queries,
                  LogAfter(kind, PollsOf(stream, lookback, queries[..n])), LogAfter(kind, PollsOf(stream, lookback, queries)));
    }
  }

  /** One query more on the right. */
  lemma ReachedSnoc(kind: Payload, stream: Stream, ingestDelay: Time, lookback: Time, gap: Time, since: Time,
                    queries: seq<Query>, log: seq<Point>, next: seq<Point>)
    requires ValidStream(kind, stream, ingestDelay) && gap <= lookback - ingestDelay
    requires |queries| > 1 && OverlapSchedule(queries, gap)
    requires var n := |queries| - 1;
      && LogHas(stream, since, queries[..n], log)
      && next == log + Taken(kind, Watermark(ZERO_TIME, log), Response(stream, queries[n].at - lookback, queries[n]))
    ensures LogHas(stream, since, queries, next)
  {
    var n := |queries| - 1;
    OverlapSnoc(queries, gap);
    assert queries[..n] + [queries[n]] == queries;
    OneMoreQuery(kind, stream, ingestDelay, lookback, gap, since, queries[..n], queries[n], log);
  }

  lemma OverlapSnoc(queries: seq<Query>, gap: Time)
    requires |queries| > 1 && OverlapSchedule(queries, gap)
    ensures var n := |queries| - 1; OverlapSchedule(queries[..n], gap) && queries[n].at <= Latest(queries[..n]) + gap
  {}

  lemma LogOfSnoc(kind: Payload, stream: Stream, lookback: Time, queries: seq<Query>)
    requires queries != []
    ensures var n := |queries| - 1;
      var log := LogAfter(kind, PollsOf(stream, lookback, queries[..n]));
      LogAfter(kind, PollsOf(stream, lookback, queries))
        == log + Taken(kind, Watermark(ZERO_TIME, log), Response(stream, queries[n].at - lookback, queries[n]))
  {
    var n := |queries| - 1;
    LogAfterSnoc(kind, PollsOf(stream, lookback, queries[..n]), Poll(queries[n].served, Response(stream, queries[n].at - lookback, queries[n])));
    hide LogAfter, Taken, Response;
  }

  // ------------------------------------------------- the query that sees most

  ghost predicate ReachesAll(stream: Stream, a: Query, b: Query)
  {
    forall i :: 0 <= i < |stream| && Reaches(a, stream[i]) ==> Reaches(b, stream[i])
  }

  /** Of two queries one reaches everything the other does. */
  lemma Nested(kind: Payload, stream: Stream, ingestDelay: Time, a: Query, b: Query)
    requires ValidStream(kind, stream, ingestDelay)
    ensures ReachesAll(stream, a, b) || ReachesAll(stream, b, a)
  {
    if i :| 0 <= i < |stream| && Reaches(a, stream[i]) && !Reaches(b, stream[i]) {
      forall j | 0 <= j < |stream| && Reaches(b, stream[j])
        ensures Reaches(a, stream[j])
      {
        if i <= j {
          ReachesEarlier(kind, stream, ingestDelay, b, i, j);
        } else {
          ReachesEarlier(kind, stream, ingestDelay, a, j, i);
        }
      }
    }
  }

  lemma {:induction false} SomeSeesMost(kind: Payload, stream: Stream, ingestDelay: Time, queries: seq<Query>) returns (best: nat)
    requires ValidStream(kind, stream, ingestDelay) && queries != []
    ensures best < |queries| && forall j :: 0 <= j < |queries| ==> ReachesAll(stream, queries[j], queries[best])
  {
    var n := |queries| - 1;
    if n == 0 {
      best := 0;
    } else {
      best := SomeSeesMost(kind, stream, ingestDelay, queries[..n]);
      Nested(kind, stream, ingestDelay, queries[best], queries[n]);
      hide ValidStream;
      var old_ := best;
      if ReachesAll(stream, queries[best], queries[n]) {
        best := n;
      }
      forall j | 0 <= j < |queries|
        ensures ReachesAll(stream, queries[j], queries[best])
      {
        if j < n {
          assert queries[..n][j] == queries[j];
          assert ReachesAll(stream, queries[j], queries[old_]);
        }
      }
    }
  }

  /** The points that ended after an instant. */
  function Beyond(log: seq<Point>, since: Time): seq<Point>
  {
    if log == [] then [] else
    var last := log[|log| - 1];
    Beyond(log[..|log| - 1], since) + if last.end > since then [last] else []
  }

  lemma {:induction false} BeyondMember(log: seq<Point>, since: Time, p: Point)
    ensures p in Beyond(log, since) <==> p in log && p.end > since
  {
    if log != [] {
      BeyondMember(log[..|log| - 1], since, p);
    }
  }

  lemma {:induction false} BeyondAscends(log: seq<Point>, since: Time)
    requires Ascending(log)
    ensures Ascending(Beyond(log, since))
  {
    if log != [] {
      var front, last := log[..|log| - 1], log[|log| - 1];
      BeyondAscends(front, since);
      forall i | 0 <= i < |Beyond(front, since)|
        ensures Beyond(front, since)[i].end < last.end
      {
        BeyondMember(front, since, Beyond(front, since)[i]);
      }
    }
  }

  lemma {:induction false} BeyondAll(log: seq<Point>, since: Time)
    requires forall p :: p in log ==> p.end > since
    ensures Beyond(log, since) == log
  {
    if log != [] {
      BeyondAll(log[..|log| - 1], since);
      assert log == log[..|log| - 1] + [log[|log| - 1]];
    }
  }

  predicate EndsBefore(a: Point, b: Point)
  {
    a.end < b.end
  }

  /** Sequences of points at ascending ends with the same members are the same. */
  lemma SameAscending(a: seq<Point>, b: seq<Point>)
    requires Ascending(a) && Ascending(b) && forall p :: p in a <==> p in b
    ensures a == b
  {
    assert forall i :: 0 <= i < |a| ==> a[i] in a;
    assert forall i :: 0 <= i < |b| ==> b[i] in b;
    Ordering.AscendingIsUnique(EndsBefore, a, b);
  }

  /** Gap-free and exactly once under overlap: whatever the order in which
      responses commit, if none asks more than the gap after the latest before
      it, the points counted from after the first window opened on are exactly
      those that the query that sees most shows, each once and in order. */
  lemma OverlappingPollsAreGapFree(kind: Payload, stream: Stream, ingestDelay: Time, lookback: Time, gap: Time, queries: seq<Query>) returns (best: nat)
    requires ValidStream(kind, stream, ingestDelay) && gap <= lookback - ingestDelay
    requires queries != [] && OverlapSchedule(queries, gap)
    ensures best < |queries| && forall j :: 0 <= j < |queries| ==> ReachesAll(stream, queries[j], queries[best])
    ensures var log, since := LogAfter(kind, PollsOf(stream, lookback, queries)), queries[0].at - lookback;
      Ascending(log) && Beyond(log, since) == Shown(stream, since, queries[best])
  {
    var log, since := LogAfter(kind, PollsOf(stream, lookback, queries)), queries[0].at - lookback;
    best := SomeSeesMost(kind, stream, ingestDelay, queries);
    CountedAtMostOnce(kind, PollsOf(stream, lookback, queries));
    CountedIsReached(kind, stream, ingestDelay, lookback, gap, queries);
    BeyondIsShown(kind, stream, ingestDelay, since, queries, best, log);
  }

  lemma BeyondIsShown(kind: Payload, stream: Stream, ingestDelay: Time, since: Time, queries: seq<Query>, best: nat, log: seq<Point>)
    requires ValidStream(kind, stream, ingestDelay) && Ascending(log) && LogHas(stream, since, queries, log)
    requires best < |queries| && forall j :: 0 <= j < |queries| ==> ReachesAll(stream, queries[j], queries[best])
    ensures Beyond(log, since) == Shown(stream, since, queries[best])
  {
    BeyondAscends(log, since);
    ShownAscending(stream, since, queries[best]);
    hide Shown, Beyond, ValidStream;
    forall p
      ensures p in Beyond(log, since) <==> p in Shown(stream, since, queries[best])
    {
      BeyondMember(log, since, p);
      ShownExactly(stream, since, queries[best], p);
      if p in log {
        var i :| 0 <= i < |stream| && stream[i].point == p && SomeReaches(queries, stream[i]);
        var j :| 0 <= j < |queries| && Reaches(queries[j], stream[i]);
        assert ReachesAll(stream, queries[j], queries[best]);
      }
      if p in Shown(stream, since, queries[best]) {
        var i :| 0 <= i < |stream| && stream[i].point == p && GapFree.Shows(since, queries[best], stream[i]);
        assert Reaches(queries[best], stream[i]);
      }
    }
    SameAscending(Beyond(log, since), Shown(stream, since, queries[best]));
  }

  /** If no window opens before the first, that is everything counted. */
  lemma NothingOlder(kind: Payload, stream: Stream, lookback: Time, queries: seq<Query>)
    requires queries != [] && forall j :: 0 <= j < |queries| ==> queries[j].at >= queries[0].at
    ensures var log, since := LogAfter(kind, PollsOf(stream, lookback, queries)), queries[0].at - lookback;
      Beyond(log, since) == log
  {
    var log, since := LogAfter(kind, PollsOf(stream, lookback, queries)), queries[0].at - lookback;
    forall p | p in log
      ensures p.end > since
    {
      CountedInWindow(kind, stream, lookback, queries, p);
    }
    BeyondAll(log, since);
  }

  lemma CountedInWindow(kind: Payload, stream: Stream, lookback: Time, queries: seq<Query>, p: Point)
    requires p in LogAfter(kind, PollsOf(stream, lookback, queries))
    ensures exists j :: 0 <= j < |queries| && p.end > queries[j].at - lookback
  {
    hide LogAfter, PollsOf;
    CountedWereReturned(kind, PollsOf(stream, lookback, queries), p);
    var j :| 0 <= j < |queries| && p in PollsOf(stream, lookback, queries)[j].points;
    PollsOfAt(stream, lookback, queries, j);
    ResponseMembers(stream, queries[j].at - lookback, queries[j], p);
  }

  lemma {:induction false} PollsOfAt(stream: Stream, lookback: Time, queries: seq<Query>, j: nat)
    requires j < |queries|
    ensures PollsOf(stream, lookback, queries)[j].points == Response(stream, queries[j].at - lookback, queries[j])
  {
    if j < |queries| - 1 {
      PollsOfAt(stream, lookback, queries[..|queries| - 1], j);
    }
  }
}
