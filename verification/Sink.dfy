/** The batching sink of event-exporter/sinks/stackdriver/sink.go as a step
    system: a bounded channel, a growing buffer, one resettable timer, a
    counting semaphore and concurrent writes. */
module Sink {
  import opened Basics

  datatype Config = Config(maxBufferSize: nat, maxConcurrency: nat, flushDelay: Time)

  /** The one timer: not made yet, running, expired and not yet looked at, or
      expired and looked at. */
  datatype Timer = NoTimer | Armed(deadline: Time) | Fired(deadline: Time) | Spent

  /** Where Run is: at its select, waiting for a token with a batch in hand,
      taking all tokens after the stop signal, or back at its caller. */
  datatype Phase<+E> = Selecting | Holding(batch: seq<E>) | Draining(taken: nat) | Returned

  /** A batch is being written, is written, or has also given its token back. */
  datatype Status = Writing | Written | Done

  datatype State<+E> = State(
    clock: Time,
    channel: seq<E>,
    buffer: seq<E>,
    since: Time,               // when the first buffered entry entered the buffer
    timer: Timer,
    phase: Phase<E>,
    batches: seq<seq<E>>,      // in the order in which they got a token
    status: seq<Status>,       // one for each batch
    stopped: bool,
    accepted: seq<E>,          // every entry ever taken by the channel, in order
    delivered: seq<E>)         // every entry ever written, in order of completion

  function Initial<E>(clock: Time): State<E>
  {
    State(clock, [], [], clock, NoTimer, Selecting, [], [], false, [], [])
  }

  datatype Action<+E> =
    | Tick(to: Time)
    | Accept(entry: E)
    | Handoff(entry: E)
    | Receive
    | Expire
    | TimerFlush
    | TakeToken
    | Write(batch: nat)
    | Release(batch: nat)
    | Stop
    | BeginDrain
    | Drain
    | Return

  /** Batches that have not given their token back. */
  function Busy(status: seq<Status>): nat
  {
    if status == [] then 0 else
    Busy(status[..|status| - 1]) + if status[|status| - 1].Done? then 0 else 1
  }

  /** Tokens taken by Run itself; it returns with all of them. */
  function Taken<E>(c: Config, s: State<E>): nat
  {
    match s.phase
    case Draining(taken) => taken
    case Returned => c.maxConcurrency
    case _ => 0
  }

  /** An unbuffered channel hands an entry over only to a waiting receiver. */
  predicate Enabled<E>(c: Config, s: State<E>, a: Action<E>)
  {
    match a
    case Tick(to) => to >= s.clock
    case Accept(_) => |s.channel| < c.maxBufferSize
    case Handoff(_) => c.maxBufferSize == 0 && s.phase.Selecting?
    case Receive => s.phase.Selecting? && s.channel != []
    case Expire => s.timer.Armed? && s.clock >= s.timer.deadline
    case TimerFlush => s.phase.Selecting? && s.timer.Fired?
    case TakeToken => s.phase.Holding? && Busy(s.status) < c.maxConcurrency
    case Write(i) => i < |s.status| && s.status[i].Writing? && i < |s.batches|
    case Release(i) => i < |s.status| && s.status[i].Written?
    case Stop => !s.stopped
    case BeginDrain => s.phase.Selecting? && s.stopped
    case Drain => s.phase.Draining? && s.phase.taken < c.maxConcurrency && Busy(s.status) + s.phase.taken < c.maxConcurrency
    case Return => s.phase.Draining? && s.phase.taken == c.maxConcurrency
  }

  /** Hands the buffer over to be sent. */
  function Flush<E>(s: State<E>): State<E>
  {
    s.(buffer := [], phase := Holding(s.buffer))
  }

  /** One entry enters the buffer. */
  function Buffered<E>(c: Config, s: State<E>, entry: E): State<E>
  {
    var more := s.(buffer := s.buffer + [entry], since := if s.buffer == [] then s.clock else s.since);
    if |more.buffer| >= c.maxBufferSize then Flush(more)
    else if |more.buffer| == 1 then more.(timer := Armed(s.clock + c.flushDelay))
    else more
  }

  function Do<E>(c: Config, s: State<E>, a: Action<E>): State<E>
    requires Enabled(c, s, a)
  {
    match a
    case Tick(to) => s.(clock := to)
    case Accept(entry) => s.(channel := s.channel + [entry], accepted := s.accepted + [entry])
    case Handoff(entry) => Buffered(c, s.(accepted := s.accepted + [entry]), entry)
    case Receive => Buffered(c, s.(channel := s.channel[1..]), s.channel[0])
    case Expire => s.(timer := Fired(s.timer.deadline))
    case TimerFlush => Flush(s.(timer := Spent))
    case TakeToken => s.(phase := Selecting, batches := s.batches + [s.phase.batch], status := s.status + [Writing])
    case Write(i) => s.(status := s.status[i := Written], delivered := s.delivered + s.batches[i])
    case Release(i) => s.(status := s.status[i := Done])
    case Stop => s.(stopped := true)
    case BeginDrain => s.(phase := Draining(0))
    case Drain => s.(phase := Draining(s.phase.taken + 1))
    case Return => s.(phase := Returned)
  }

  ghost predicate Run<E>(c: Config, ss: seq<State<E>>, acts: seq<Action<E>>)
  {
    && |ss| == |acts| + 1
    && ss[0] == Initial(ss[0].clock)
    && forall i :: 0 <= i < |acts| ==> Enabled(c, ss[i], acts[i]) && ss[i + 1] == Do(c, ss[i], acts[i])
  }

  // -------------------------------------------------------------- accounting

  function InHand<E>(s: State<E>): seq<E>
  {
    match s.phase
    case Holding(batch) => batch
    case _ => []
  }

  /** The largest batch. */
  function BatchLimit(c: Config): nat
  {
    if c.maxBufferSize == 0 then 1 else c.maxBufferSize
  }

  /** Entries being written. */
  function InFlight<E>(batches: seq<seq<E>>, status: seq<Status>): multiset<E>
    requires |batches| == |status|
  {
    if status == [] then multiset{} else
    var n := |status| - 1;
    InFlight(batches[..n], status[..n]) + if status[n].Writing? then multiset(batches[n]) else multiset{}
  }

  ghost predicate Conserved<E>(s: State<E>)
  {
    && |s.batches| == |s.status|
    && Flatten(s.batches) + InHand(s) + s.buffer + s.channel == s.accepted
    && multiset(s.delivered) + InFlight(s.batches, s.status) == multiset(Flatten(s.batches))
  }

  ghost predicate Bounded<E>(c: Config, s: State<E>)
  {
    && |s.channel| <= c.maxBufferSize
    && |s.buffer| < BatchLimit(c)
    && |InHand(s)| <= BatchLimit(c)
    && (s.phase.Holding? ==> s.buffer == [])
    && (forall i :: 0 <= i < |s.batches| ==> |s.batches[i]| <= BatchLimit(c))
    && Busy(s.status) + Taken(c, s) <= c.maxConcurrency
  }

  /** While Run waits with something buffered, the timer is running or expired
      since, set for the flush delay after the first buffered entry. */
  ghost predicate TimerLive<E>(c: Config, s: State<E>)
  {
    && s.since <= s.clock
    && (s.buffer != [] ==>
        && (s.timer.Armed? || s.timer.Fired?)
        && s.timer.deadline == s.since + c.flushDelay)
  }

  ghost predicate Inv<E>(c: Config, s: State<E>)
  {
    Conserved(s) && Bounded(c, s) && TimerLive(c, s)
  }

  lemma {:induction false} BusyUpdate(status: seq<Status>, i: nat, t: Status)
    requires i < |status|
    ensures Busy(status[i := t]) == Busy(status) - (if status[i].Done? then 0 else 1) + if t.Done? then 0 else 1
  {
    var n := |status| - 1;
    if i < n {
      BusyUpdate(status[..n], i, t);
      assert status[i := t][..n] == status[..n][i := t];
    } else {
      assert status[i := t][..n] == status[..n];
    }
  }

  lemma {:induction false} InFlightUpdate<E>(batches: seq<seq<E>>, status: seq<Status>, i: nat, t: Status)
    requires |batches| == |status| && i < |status| && !t.Writing?
    ensures InFlight(batches, status[i := t]) + (if status[i].Writing? then multiset(batches[i]) else multiset{}) == InFlight(batches, status)
  {
    var n := |status| - 1;
    if i < n {
      InFlightUpdate(batches[..n], status[..n], i, t);
      assert status[i := t][..n] == status[..n][i := t];
    } else {
      assert status[i := t][..n] == status[..n];
    }
  }

  lemma BusySnoc(status: seq<Status>)
    ensures Busy(status + [Writing]) == Busy(status) + 1
  {
    assert (status + [Writing])[..|status|] == status;
  }

  lemma TokenAccounts<E>(batches: seq<seq<E>>, status: seq<Status>, batch: seq<E>)
    requires |batches| == |status|
    ensures Flatten(batches + [batch]) == Flatten(batches) + batch
    ensures Busy(status + [Writing]) == Busy(status) + 1
    ensures InFlight(batches + [batch], status + [Writing]) == InFlight(batches, status) + multiset(batch)
  {
    FlattenSnoc(batches, batch);
    assert (batches + [batch])[..|batches|] == batches && (status + [Writing])[..|status|] == status;
  }

  lemma ReceiveConserves<E>(c: Config, s: State<E>)
    requires Enabled(c, s, Receive) && Conserved(s)
    ensures Conserved(Do(c, s, Receive))
  {
    hide Flatten, InFlight, Busy;
    BufferedHolds(c, s.(channel := s.channel[1..]), s.channel[0]);
    var s' := Do(c, s, Receive);
    MovesOver(Flatten(s.batches), s.buffer, s.channel, s.channel[0], InHand(s'), s'.buffer);
  }

  lemma MovesOver<E>(out: seq<E>, buffer: seq<E>, channel: seq<E>, entry: E, hand: seq<E>, rest: seq<E>)
    requires channel != [] && entry == channel[0] && hand + rest == buffer + [entry]
    ensures out + hand + rest + channel[1..] == out + [] + buffer + channel
  {
    assert channel == [entry] + channel[1..];
    assert out + hand + rest + channel[1..] == out + (hand + rest) + channel[1..];
  }

  lemma HandoffConserves<E>(c: Config, s: State<E>, entry: E)
    requires Enabled(c, s, Handoff(entry)) && Conserved(s) && s.channel == []
    ensures Conserved(Do(c, s, Handoff(entry)))
  {
    hide Flatten, InFlight, Busy;
    BufferedHolds(c, s.(accepted := s.accepted + [entry]), entry);
    var s' := Do(c, s, Handoff(entry));
    HandedOver(Flatten(s.batches), s.buffer, s.accepted, entry, InHand(s'), s'.buffer);
  }

  lemma HandedOver<E>(out: seq<E>, buffer: seq<E>, accepted: seq<E>, entry: E, hand: seq<E>, rest: seq<E>)
    requires out + [] + buffer + [] == accepted && hand + rest == buffer + [entry]
    ensures out + hand + rest + [] == accepted + [entry]
  {
    assert out + hand + rest + [] == out + (hand + rest);
    assert out + (buffer + [entry]) == out + [] + buffer + [] + [entry];
  }

  /** An entry entering the buffer follows what was in it. */
  lemma BufferedHolds<E>(c: Config, s: State<E>, entry: E)
    requires s.phase.Selecting?
    ensures var s' := Buffered(c, s, entry);
      && InHand(s') + s'.buffer == s.buffer + [entry]
      && s' == s.(buffer := s'.buffer, phase := s'.phase, since := s'.since, timer := s'.timer)
  {}

  lemma TokenConserves<E>(c: Config, s: State<E>)
    requires Enabled(c, s, TakeToken) && Conserved(s)
    ensures Conserved(Do(c, s, TakeToken))
  {
    hide Flatten, InFlight, Busy;
    TokenAccounts(s.batches, s.status, s.phase.batch);
  }

  lemma WriteConserves<E>(c: Config, s: State<E>, i: nat)
    requires Enabled(c, s, Write(i)) && Conserved(s)
    ensures Conserved(Do(c, s, Write(i)))
  {
    hide Flatten, InFlight, Busy;
    InFlightUpdate(s.batches, s.status, i, Written);
  }

  lemma FlushConserves<E>(c: Config, s: State<E>)
    requires Enabled(c, s, TimerFlush) && Conserved(s)
    ensures Conserved(Do(c, s, TimerFlush))
  {
    hide Flatten, InFlight, Busy;
  }

  lemma StepConserves<E>(c: Config, s: State<E>, a: Action<E>)
    requires Enabled(c, s, a) && Conserved(s) && Bounded(c, s)
    ensures Conserved(Do(c, s, a))
  {
    hide Flatten, InFlight, Busy, Buffered, Flush;
    match a {
      case Receive => ReceiveConserves(c, s);
      case Handoff(entry) => HandoffConserves(c, s, entry);
      case TimerFlush => FlushConserves(c, s);
      case TakeToken => TokenConserves(c, s);
      case Write(i) => WriteConserves(c, s, i);
      case Release(i) => InFlightUpdate(s.batches, s.status, i, Done);
      case _ =>
    }
  }

  lemma BufferedBounded<E>(c: Config, s: State<E>, entry: E)
    requires s.phase.Selecting? && Bounded(c, s)
    ensures Bounded(c, Buffered(c, s, entry))
  {
    hide Busy;
  }

  lemma TokenBounded<E>(c: Config, s: State<E>)
    requires Enabled(c, s, TakeToken) && |s.batches| == |s.status| && Bounded(c, s)
    ensures Bounded(c, Do(c, s, TakeToken))
  {
    hide Busy;
    BusySnoc(s.status);
  }

  lemma StepBounded<E>(c: Config, s: State<E>, a: Action<E>)
    requires Enabled(c, s, a) && |s.batches| == |s.status| && Bounded(c, s)
    ensures Bounded(c, Do(c, s, a))
  {
    hide Busy, Buffered;
    match a {
      case Receive => BufferedBounded(c, s.(channel := s.channel[1..]), s.channel[0]);
      case Handoff(entry) => BufferedBounded(c, s.(accepted := s.accepted + [entry]), entry);
      case TakeToken => TokenBounded(c, s);
      case Write(i) => BusyUpdate(s.status, i, Written);
      case Release(i) => BusyUpdate(s.status, i, Done);
      case _ =>
    }
  }

  lemma StepTimer<E>(c: Config, s: State<E>, a: Action<E>)
    requires Enabled(c, s, a) && TimerLive(c, s) && Bounded(c, s)
    ensures TimerLive(c, Do(c, s, a))
  {
    hide Busy;
  }

  lemma StepKeepsInv<E>(c: Config, s: State<E>, a: Action<E>)
    requires Enabled(c, s, a) && Inv(c, s)
    ensures Inv(c, Do(c, s, a))
  {
    hide Do, Enabled, TimerLive, Conserved, Bounded;
    SameLength(s);
    StepConserves(c, s, a);
    StepBounded(c, s, a);
    StepTimer(c, s, a);
  }

  /** Every reachable state accounts for every entry, is within all bounds and
      has a live timer for what is buffered. */
  lemma {:induction false} InvInRun<E>(c: Config, ss: seq<State<E>>, acts: seq<Action<E>>, i: nat)
    requires Run(c, ss, acts) && i < |ss|
    ensures Inv(c, ss[i])
  {
    if i > 0 {
      InvInRun(c, ss, acts, i - 1);
      assert Enabled(c, ss[i - 1], acts[i - 1]) && ss[i] == Do(c, ss[i - 1], acts[i - 1]);
      hide Do, Enabled, Inv;
      StepKeepsInv(c, ss[i - 1], acts[i - 1]);
    }
  }

  lemma SameLength<E>(s: State<E>)
    requires Conserved(s)
    ensures |s.batches| == |s.status|
  {}

  // ------------------------------------------------------------ consequences

  /** What has left the sink is a prefix of what it accepted, cut into batches. */
  lemma BatchesInOrder<E>(c: Config, ss: seq<State<E>>, acts: seq<Action<E>>, i: nat)
    requires Run(c, ss, acts) && i < |ss|
    ensures Flatten(ss[i].batches) <= ss[i].accepted
    ensures forall k :: 0 <= k < |ss[i].batches| ==> |ss[i].batches[k]| <= BatchLimit(c)
    ensures Busy(ss[i].status) <= c.maxConcurrency
  {
    hide Do, Enabled, Flatten, Busy;
    InvInRun(c, ss, acts, i);
  }

  lemma {:induction false} InFlightSize<E>(batches: seq<seq<E>>, status: seq<Status>, limit: nat)
    requires |batches| == |status| && forall i :: 0 <= i < |batches| ==> |batches[i]| <= limit
    ensures |InFlight(batches, status)| <= Busy(status) * limit
  {
    if status != [] {
      var n := |status| - 1;
      InFlightSize(batches[..n], status[..n], limit);
      OneMore(Busy(status[..n]), limit);
    }
  }

  lemma OneMore(busy: nat, limit: nat)
    ensures (busy + 1) * limit == busy * limit + limit
  {}

  lemma Sizes<E>(s: State<E>)
    requires Conserved(s)
    ensures |s.accepted| - |s.delivered| == |InFlight(s.batches, s.status)| + |InHand(s)| + |s.buffer| + |s.channel|
  {
    hide Flatten, InFlight;
    assert |multiset(s.delivered)| == |s.delivered|;
    assert |multiset(Flatten(s.batches))| == |Flatten(s.batches)|;
  }

  /** Entries accepted and not yet written never exceed the channel, one batch
      being collected or held, and one batch for each write allowed. */
  lemma UnwrittenIsBounded<E>(c: Config, ss: seq<State<E>>, acts: seq<Action<E>>, i: nat)
    requires Run(c, ss, acts) && i < |ss| && c.maxBufferSize >= 1
    ensures |ss[i].accepted| - |ss[i].delivered| <= c.maxBufferSize * (c.maxConcurrency + 2)
  {
    InvInRun(c, ss, acts, i);
    var s := ss[i];
    Sizes(s);
    WaitingSize(c, s);
    InFlightSize(s.batches, s.status, c.maxBufferSize);
    TwoMore(Busy(s.status), c.maxConcurrency, c.maxBufferSize);
  }

  lemma WaitingSize<E>(c: Config, s: State<E>)
    requires Bounded(c, s) && c.maxBufferSize >= 1
    ensures |InHand(s)| + |s.buffer| + |s.channel| <= c.maxBufferSize + c.maxBufferSize
  {}

  lemma TwoMore(busy: nat, most: nat, limit: nat)
    requires busy <= most
    ensures busy * limit + limit + limit <= limit * (most + 2)
  {
    assert busy * limit <= most * limit;
  }

  lemma {:induction false} NotBusy<E>(batches: seq<seq<E>>, status: seq<Status>)
    requires |batches| == |status| && Busy(status) == 0
    ensures InFlight(batches, status) == multiset{}
    ensures forall i :: 0 <= i < |status| ==> status[i].Done?
  {
    if status != [] {
      var n := |status| - 1;
      NotBusy(batches[..n], status[..n]);
    }
  }

  /** Run stops taking entries only when it is told to. */
  lemma {:induction false} StopsWhenTold<E>(c: Config, ss: seq<State<E>>, acts: seq<Action<E>>, i: nat)
    requires Run(c, ss, acts) && i < |ss|
    ensures ss[i].stopped <==> exists x :: 0 <= x < i && acts[x].Stop?
    ensures ss[i].phase.Draining? || ss[i].phase.Returned? ==> ss[i].stopped
  {
    if i > 0 {
      StopsWhenTold(c, ss, acts, i - 1);
      assert Enabled(c, ss[i - 1], acts[i - 1]) && ss[i] == Do(c, ss[i - 1], acts[i - 1]);
    }
  }

  /** When Run has returned nothing is being written: what was handed over is
      delivered, and what is not is in the buffer or the channel, fewer than
      two full buffers of the newest entries. */
  lemma ReturnedIsQuiet<E>(c: Config, ss: seq<State<E>>, acts: seq<Action<E>>, i: nat)
    requires Run(c, ss, acts) && i < |ss| && ss[i].phase.Returned?
    ensures ss[i].accepted == Flatten(ss[i].batches) + ss[i].buffer + ss[i].channel
    ensures ReturnedWell(c, ss[i])
  {
    hide Run;
    InvInRun(c, ss, acts, i);
    QuietWhenReturned(c, ss[i]);
  }

  /** Every send is done, everything sent is delivered, and what is not is less
      than two full buffers. */
  ghost predicate ReturnedWell<E>(c: Config, s: State<E>)
  {
    && |s.batches| == |s.status| && (forall k :: 0 <= k < |s.status| ==> s.status[k].Done?)
    && multiset(s.delivered) == multiset(Flatten(s.batches))
    && |s.buffer + s.channel| <= (if c.maxBufferSize == 0 then 0 else 2 * c.maxBufferSize - 1)
    && |s.accepted| - |s.delivered| == |s.buffer + s.channel|
  }

  lemma QuietWhenReturned<E>(c: Config, s: State<E>)
    requires Inv(c, s) && s.phase.Returned?
    ensures s.accepted == Flatten(s.batches) + s.buffer + s.channel
    ensures ReturnedWell(c, s)
  {
    hide Flatten;
    NotBusy(s.batches, s.status);
    Sizes(s);
    assert Flatten(s.batches) + [] == Flatten(s.batches);
  }

  /** Nothing is stranded: while Run waits with entries buffered for the flush
      delay or longer, the flush is on its way. */
  lemma NothingStranded<E>(c: Config, ss: seq<State<E>>, acts: seq<Action<E>>, i: nat)
    requires Run(c, ss, acts) && i < |ss|
    requires ss[i].phase.Selecting? && ss[i].buffer != [] && ss[i].clock >= ss[i].since + c.flushDelay
    ensures Enabled(c, ss[i], TimerFlush) || (Enabled(c, ss[i], Expire) && Enabled(c, Do(c, ss[i], Expire), TimerFlush))
  {
    hide Run, Busy;
    InvInRun(c, ss, acts, i);
  }

  lemma {:induction false} BusyOne(status: seq<Status>) returns (i: nat)
    requires Busy(status) > 0
    ensures i < |status| && !status[i].Done?
  {
    i := |status| - 1;
    if status[i].Done? {
      i := BusyOne(status[..i]);
    }
  }

  /** No deadlock: with a token to give, Run can always be made to go on by
      writes that complete. */
  lemma NeverStuck<E>(c: Config, ss: seq<State<E>>, acts: seq<Action<E>>, i: nat)
    requires Run(c, ss, acts) && i < |ss| && c.maxConcurrency >= 1
    requires ss[i].phase.Holding? || ss[i].phase.Draining?
    ensures Enabled(c, ss[i], TakeToken) || Enabled(c, ss[i], Drain) || Enabled(c, ss[i], Return)
      || exists k: nat :: Enabled(c, ss[i], Write(k)) || Enabled(c, ss[i], Release(k))
  {
    var s := ss[i];
    hide Run;
    InvInRun(c, ss, acts, i);
    SameLength(s);
    if Busy(s.status) > 0 {
      var k := BusyOne(s.status);
      assert Enabled(c, s, Write(k)) || Enabled(c, s, Release(k));
    }
  }

  // ----------------------------------------------- one writer keeps the order

  ghost predicate Sequential<E>(s: State<E>)
  {
    && |s.batches| == |s.status|
    && var n := |s.status|;
    && (forall i :: 0 <= i < n - 1 ==> s.status[i].Done?)
    && s.delivered == Flatten(s.batches[..if n > 0 && s.status[n - 1].Writing? then n - 1 else n])
  }

  lemma TokenSequential<E>(c: Config, s: State<E>)
    requires Enabled(c, s, TakeToken) && Sequential(s) && c.maxConcurrency == 1
    ensures Sequential(Do(c, s, TakeToken))
  {
    var n := |s.status|;
    assert s.batches[..n] == s.batches;
    NotBusy(s.batches, s.status);
    assert (s.batches + [s.phase.batch])[..n] == s.batches;
  }

  lemma WriteSequential<E>(c: Config, s: State<E>, i: nat)
    requires Enabled(c, s, Write(i)) && Sequential(s)
    ensures Sequential(Do(c, s, Write(i)))
  {
    hide Flatten;
    var n := |s.status|;
    FlattenSnoc(s.batches[..n - 1], s.batches[n - 1]);
    assert s.batches[..n] == s.batches[..n - 1] + [s.batches[n - 1]];
  }

  lemma StepSequential<E>(c: Config, s: State<E>, a: Action<E>)
    requires Enabled(c, s, a) && Sequential(s) && c.maxConcurrency == 1
    ensures Sequential(Do(c, s, a))
  {
    hide Flatten, Busy;
    match a {
      case TakeToken => TokenSequential(c, s);
      case Write(i) => WriteSequential(c, s, i);
      case _ =>
    }
  }

  /** With one write at a time, entries are delivered in the order accepted. */
  lemma {:induction false} OneWriterDeliversInOrder<E>(c: Config, ss: seq<State<E>>, acts: seq<Action<E>>, i: nat)
    requires Run(c, ss, acts) && i < |ss| && c.maxConcurrency == 1
    ensures Sequential(ss[i]) && ss[i].delivered <= ss[i].accepted
  {
    InvInRun(c, ss, acts, i);
    if i > 0 {
      OneWriterDeliversInOrder(c, ss, acts, i - 1);
      assert Enabled(c, ss[i - 1], acts[i - 1]) && ss[i] == Do(c, ss[i - 1], acts[i - 1]);
      hide Do, Enabled, Run;
      StepSequential(c, ss[i - 1], acts[i - 1]);
    }
    DeliveredPrefix(ss[i]);
  }

  lemma DeliveredPrefix<E>(s: State<E>)
    requires Sequential(s) && Conserved(s)
    ensures s.delivered <= s.accepted
  {
    var n := |s.batches|;
    assert s.batches[..n] == s.batches;
  }
}
