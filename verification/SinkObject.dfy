/** The sink object of event-exporter/sinks/stackdriver/sink.go, with Run as the
    loop it is. What the other goroutines and the clock do is a script that the
    loop lets happen bit by bit, whenever it chooses and when it is blocked. */
module SinkObject {
  import opened Basics
  import opened Sink

  /** What happens around Run: an entry is added, time passes, a send gets on,
      the stop channel is closed. */
  datatype Event<+E> =
    | Adds(entry: E)
    | Elapses(to: Time)
    | Writes(send: nat)
    | Finishes(send: nat)
    | Stops

  /** The entries added, in order. */
  function Added<E>(events: seq<Event<E>>): seq<E>
  {
    if events == [] then [] else
    var last := events[|events| - 1];
    Added(events[..|events| - 1]) + if last.Adds? then [last.entry] else []
  }

  /** The time by then. */
  function ClockAfter<E>(start: Time, events: seq<Event<E>>): Time
  {
    if events == [] then start else
    var last := events[|events| - 1];
    if last.Elapses? then last.to else ClockAfter(start, events[..|events| - 1])
  }

  /** How far a send is. */
  ghost function StatusAfter<E>(events: seq<Event<E>>, send: nat): Status
  {
    if Event<E>.Finishes(send) in events then Done
    else if Event<E>.Writes(send) in events then Written
    else Writing
  }

  /** The entries written, batch by batch in the order of the writes. */
  function Delivered<E>(events: seq<Event<E>>, batches: seq<seq<E>>): seq<E>
  {
    if events == [] then [] else
    var last := events[|events| - 1];
    Delivered(events[..|events| - 1], batches) + if last.Writes? && last.send < |batches| then batches[last.send] else []
  }

  /** The state is what the events so far make of it, as far as it is up to
      them; they concern sends that were started. */
  ghost predicate Reflects<E>(start: Time, events: seq<Event<E>>, clock: Time, batches: seq<seq<E>>, status: seq<Status>,
                             stopped: bool, accepted: seq<E>, delivered: seq<E>)
  {
    && accepted == Added(events)
    && clock == ClockAfter(start, events)
    && (stopped <==> Event<E>.Stops in events)
    && (forall i :: 0 <= i < |status| ==> status[i] == StatusAfter(events, i))
    && (forall e :: e in events && (e.Writes? || e.Finishes?) ==> e.send < |status|)
    && delivered == Delivered(events, batches)
  }

  ghost predicate StateReflects<E>(start: Time, events: seq<Event<E>>, s: State<E>)
  {
    Reflects(start, events, s.clock, s.batches, s.status, s.stopped, s.accepted, s.delivered)
  }

  /** The step of module Sink that an event is. */
  function StepOf<E>(e: Event<E>): Action<E>
  {
    match e
    case Adds(entry) => Accept(entry)
    case Elapses(to) => Tick(to)
    case Writes(i) => Write(i)
    case Finishes(i) => Release(i)
    case Stops => Action<E>.Stop
  }

  lemma EventReflects<E>(c: Config, start: Time, events: seq<Event<E>>, s: State<E>, e: Event<E>)
    requires StateReflects(start, events, s) && Enabled(c, s, StepOf(e))
    ensures StateReflects(start, events + [e], Do(c, s, StepOf(e)))
  {
    assert (events + [e])[..|events|] == events;
    forall i | 0 <= i < |s.status|
      ensures StatusAfter(events + [e], i) == if e == Event<E>.Finishes(i) then Done
        else if e == Event<E>.Writes(i) && !StatusAfter(events, i).Done? then Written else StatusAfter(events, i)
    {}
  }

  lemma HandoffReflects<E>(start: Time, events: seq<Event<E>>, s: State<E>, entry: E)
    requires StateReflects(start, events, s)
    ensures Reflects(start, events + [Adds(entry)], s.clock, s.batches, s.status, s.stopped, s.accepted + [entry], s.delivered)
  {
    assert (events + [Adds(entry)])[..|events|] == events;
  }

  /** A send that begins has done nothing yet. */
  lemma SendReflects<E>(c: Config, start: Time, events: seq<Event<E>>, s: State<E>, batch: seq<E>)
    requires Good(c, s) && StateReflects(start, events, s)
    ensures Reflects(start, events, s.clock, s.batches + [batch], s.status + [Writing], s.stopped, s.accepted, s.delivered)
  {
    DeliveredStays(events, s.batches, batch);
    forall e | e in events && (e.Writes? || e.Finishes?)
      ensures e.send < |s.status| + 1
    {}
    assert Event<E>.Writes(|s.status|) !in events && Event<E>.Finishes(|s.status|) !in events;
  }

  lemma {:induction false} DeliveredStays<E>(events: seq<Event<E>>, batches: seq<seq<E>>, batch: seq<E>)
    requires forall e :: e in events && e.Writes? ==> e.send < |batches|
    ensures Delivered(events, batches + [batch]) == Delivered(events, batches)
  {
    if events != [] {
      assert events[|events| - 1] in events;
      DeliveredStays(events[..|events| - 1], batches, batch);
    }
  }

  /** The invariant of module Sink, and order with one writer. */
  ghost predicate Good<E>(c: Config, s: State<E>)
  {
    Inv(c, s) && (c.maxConcurrency == 1 ==> Sequential(s))
  }

  lemma StepIsGood<E>(c: Config, s: State<E>, a: Action<E>)
    requires Enabled(c, s, a) && Good(c, s)
    ensures Good(c, Do(c, s, a))
  {
    hide Do, Enabled, Inv, Sequential;
    StepKeepsInv(c, s, a);
    if c.maxConcurrency == 1 {
      StepSequential(c, s, a);
    }
  }

  lemma InitialIsGood<E>(c: Config, clock: Time)
    ensures Good(c, Initial<E>(clock))
  {}

  lemma SendStep<E>(c: Config, s: State<E>)
    requires Good(c, s) && s.phase.Holding? && Busy(s.status) < c.maxConcurrency
    ensures Good(c, s.(phase := Selecting, batches := s.batches + [s.phase.batch], status := s.status + [Writing]))
    ensures Busy(s.status + [Writing]) == Busy(s.status) + 1
  {
    StepIsGood(c, s, TakeToken);
    BusySnoc(s.status);
  }

  lemma StopStep<E>(c: Config, s: State<E>)
    requires Good(c, s) && s.phase.Selecting? && s.stopped
    ensures Good(c, s.(phase := Draining(0)))
  {
    StepIsGood(c, s, BeginDrain);
  }

  lemma TokenStep<E>(c: Config, s: State<E>)
    requires Good(c, s) && s.phase.Draining? && s.phase.taken < c.maxConcurrency && Busy(s.status) + s.phase.taken < c.maxConcurrency
    ensures Good(c, s.(phase := Draining(s.phase.taken + 1)))
  {
    hide Good, Busy;
    StepIsGood(c, s, Drain);
  }

  lemma ExpireStep<E>(c: Config, s: State<E>)
    requires Good(c, s) && s.timer.Armed? && s.clock >= s.timer.deadline
    ensures Good(c, s.(timer := Fired(s.timer.deadline)))
  {
    hide Good, Busy;
    StepIsGood(c, s, Expire);
  }

  lemma ReturnStep<E>(c: Config, s: State<E>)
    requires Good(c, s) && s.phase.Draining? && s.phase.taken == c.maxConcurrency
    ensures Good(c, s.(phase := Returned))
  {
    StepIsGood(c, s, Return);
  }

  class SdSink<E> {
    const config: Config
    ghost const started: Time
    var logEntryChannel: seq<E>
    var currentBuffer: seq<E>
    var timer: Timer
    var concurrencyChannel: nat    // tokens in it
    var sending: seq<seq<E>>       // what each sendEntries goroutine was given
    var status: seq<Status>        // and how far it is
    var clock: Time
    var stopped: bool
    var world: seq<Event<E>>       // what is still to happen around Run
    ghost var happened: seq<Event<E>>
    ghost var phase: Phase<E>      // where Run is
    ghost var since: Time
    ghost var accepted: seq<E>
    ghost var delivered: seq<E>

    ghost function View(): State<E>
      reads this
    {
      State(clock, logEntryChannel, currentBuffer, since, timer, phase, sending, status, stopped, accepted, delivered)
    }

    /** The tokens out are those of unfinished sends and those Run took. */
    ghost predicate Holds()
      reads this
    {
      Good(config, View()) && concurrencyChannel == Busy(status) + Taken(config, View())
    }

    ghost predicate Valid()
      reads this
    {
      Holds() && StateReflects(started, happened, View())
    }

    constructor (config: Config, now: Time, world: seq<Event<E>>)
      ensures this.config == config && this.world == world && happened == []
      ensures Valid() && View() == Initial(now)
    {
      this.config, started := config, now;
      clock, since := now, now;
      logEntryChannel, currentBuffer, timer, concurrencyChannel := [], [], NoTimer, 0;
      sending, status, stopped := [], [], false;
      this.world, happened := world, [];
      phase, accepted, delivered := Selecting, [], [];
      new;
      InitialIsGood<E>(config, now);
    }

    /** The next event can happen now. */
    predicate CanHappen()
      reads this
    {
      world != [] &&
      match world[0]
      case Adds(_) => |logEntryChannel| < config.maxBufferSize
      case Elapses(to) => to >= clock
      case Writes(i) => i < |status| && i < |sending| && status[i].Writing?
      case Finishes(i) => i < |status| && status[i].Written?
      case Stops => !stopped
    }

    /** A timer that is due. */
    predicate Due()
      reads this
    {
      timer.Armed? && clock >= timer.deadline
    }

    // -------------------------------------------- what happens around Run

    method Expire()
      requires Valid() && Due()
      modifies this`timer
      ensures Valid() && timer == Fired(old(timer).deadline)
    {
      hide Good, Busy, Reflects;
      ExpireStep(config, View());
      timer := Fired(timer.deadline);
    }

    /** Lets the next event happen: it is the step of module Sink, and a send
        that finishes gives its token back. */
    method LetHappen()
      requires Valid() && CanHappen()
      modifies this`world, this`happened, this`logEntryChannel, this`accepted, this`clock, this`status, this`delivered,
               this`concurrencyChannel, this`stopped
      ensures Valid() && world == old(world[1..]) && happened == old(happened + [world[0]])
      ensures Enabled(config, old(View()), StepOf(old(world[0]))) && View() == Do(config, old(View()), StepOf(old(world[0])))
      ensures concurrencyChannel == old(concurrencyChannel) - if old(world[0]).Finishes? then 1 else 0
    {
      hide Good, Busy, Taken, Reflects, Do, Enabled;
      CanHappenNow();
      var e := world[0];
      EventReflects(config, started, happened, View(), e);
      Perform(e);
      happened, world := happened + [e], world[1..];
    }

    lemma CanHappenNow()
      requires CanHappen()
      ensures Enabled(config, View(), StepOf(world[0]))
    {}

    method Perform(e: Event<E>)
      requires Holds() && Enabled(config, View(), StepOf(e))
      modifies this`logEntryChannel, this`accepted, this`clock, this`status, this`delivered, this`concurrencyChannel, this`stopped
      ensures Holds() && View() == Do(config, old(View()), StepOf(e))
      ensures concurrencyChannel == old(concurrencyChannel) - if e.Finishes? then 1 else 0
    {
      hide Good, Busy, Taken;
      match e {
        case Adds(entry) => Arrive(entry);
        case Elapses(to) => Pass(to);
        case Writes(i) => CompleteWrite(i);
        case Finishes(i) => ReleaseToken(i);
        case Stops => Stop();
      }
    }

    method Arrive(entry: E)
      requires Holds()
      requires Enabled(config, View(), Accept(entry))
      modifies this`logEntryChannel, this`accepted
      ensures Holds()
      ensures logEntryChannel == old(logEntryChannel) + [entry] && accepted == old(accepted) + [entry]
    {
      StepIsGood(config, View(), Accept(entry));
      hide Good, Busy;
      logEntryChannel := logEntryChannel + [entry];
      accepted := accepted + [entry];
    }

    method Pass(to: Time)
      requires Holds()
      requires Enabled(config, View(), Tick(to))
      modifies this`clock
      ensures Holds()
      ensures clock == to
    {
      StepIsGood(config, View(), Tick(to));
      hide Good, Busy;
      clock := to;
    }

    method Stop()
      requires Holds()
      requires Enabled(config, View(), Action<E>.Stop)
      modifies this`stopped
      ensures Holds()
      ensures stopped
    {
      StepIsGood(config, View(), Action<E>.Stop);
      stopped := true;
    }

    method CompleteWrite(i: nat)
      requires Holds()
      requires Enabled(config, View(), Write(i))
      modifies this`status, this`delivered
      ensures Holds()
      ensures status == old(status[i := Written]) && delivered == old(delivered) + sending[i]
    {
      hide Good, Busy;
      StepIsGood(config, View(), Write(i));
      BusyUpdate(status, i, Written);
      status := status[i := Written];
      delivered := delivered + sending[i];
    }

    method ReleaseToken(i: nat)
      requires Holds()
      requires Enabled(config, View(), Release(i))
      modifies this`status, this`concurrencyChannel
      ensures Holds()
      ensures status == old(status[i := Done]) && concurrencyChannel == old(concurrencyChannel) - 1
    {
      StepIsGood(config, View(), Release(i));
      BusyUpdate(status, i, Done);
      hide Good, Busy;
      concurrencyChannel := concurrencyChannel - 1;
      status := status[i := Done];
    }

    // ------------------------------------------------------------------- Run

    /** Waits until the concurrency channel has room for a token, or for good. */
    method Await() returns (room: bool)
      requires Valid()
      modifies this`world, this`happened, this`logEntryChannel, this`accepted, this`clock, this`status, this`delivered,
               this`concurrencyChannel, this`stopped
      ensures Valid() && happened + world == old(happened + world) && |world| <= |old(world)|
      ensures room <==> concurrencyChannel < config.maxConcurrency
      ensures !room ==> !CanHappen()
      ensures |world| == |old(world)| ==> logEntryChannel == old(logEntryChannel)
      ensures old(stopped) ==> stopped
    {
      hide Valid;
      var more := CanHappen();
      while concurrencyChannel >= config.maxConcurrency && more
        invariant Valid() && happened + world == old(happened + world) && |world| <= |old(world)|
        invariant |world| == |old(world)| ==> logEntryChannel == old(logEntryChannel)
        invariant old(stopped) ==> stopped
        invariant more == CanHappen()
        decreases |world|
      {
        LetHappen();
        more := CanHappen();
      }
      room := concurrencyChannel < config.maxConcurrency;
    }

    method StartSend(entries: seq<E>)
      requires Valid() && phase == Holding(entries) && concurrencyChannel < config.maxConcurrency
      modifies this`concurrencyChannel, this`sending, this`status, this`phase
      ensures Valid() && phase == Selecting
      ensures sending == old(sending) + [entries] && status == old(status) + [Writing] && concurrencyChannel == old(concurrencyChannel) + 1
    {
      hide Good, Busy, Reflects;
      SendStep(config, View());
      SendReflects(config, started, happened, View(), entries);
      concurrencyChannel := concurrencyChannel + 1;
      sending := sending + [entries];
      status := status + [Writing];
      phase := Selecting;
    }

    /** The buffer has been emptied: all of it was sent as one batch, or is held
        for good. */
    ghost predicate Flushed(buffer: seq<E>, batches: seq<seq<E>>, sent: bool, held: seq<E>)
      reads this
    {
      && currentBuffer == []
      && if sent then phase == Selecting && held == [] && sending == batches + [buffer]
         else phase == Holding(held) && held == buffer && sending == batches && !CanHappen()
    }

    /** An entry has been put into the buffer, which is flushed when full. */
    ghost predicate Appended(entry: E, buffer: seq<E>, batches: seq<seq<E>>, sent: bool, held: seq<E>)
      reads this
    {
      if |buffer| + 1 >= config.maxBufferSize then Flushed(buffer + [entry], batches, sent, held)
      else sent && held == [] && phase == Selecting && currentBuffer == buffer + [entry] && sending == batches
    }

    /** Sends the whole buffer, or holds all of it for good. */
    method FlushBuffer() returns (sent: bool, held: seq<E>)
      requires phase.Selecting? && Good(config, Flush(View())) && concurrencyChannel == Busy(status) && StateReflects(started, happened, View())
      modifies this`world, this`happened, this`logEntryChannel, this`accepted, this`clock, this`status, this`delivered,
               this`concurrencyChannel, this`stopped, this`currentBuffer, this`sending, this`phase
      ensures Valid() && happened + world == old(happened + world) && |world| <= |old(world)|
      ensures Flushed(old(currentBuffer), old(sending), sent, held)
      ensures |world| == |old(world)| ==> logEntryChannel == old(logEntryChannel)
      ensures old(stopped) ==> stopped
    {
      hide Good, Busy, Reflects;
      var entries := currentBuffer;
      currentBuffer := [];
      phase := Holding(entries);
      sent := Await();
      held := entries;
      if sent {
        StartSend(entries);
        held := [];
      }
    }

    method SetTimer()
      modifies this`timer
      ensures timer == Armed(clock + config.flushDelay)
    {
      timer := Armed(clock + config.flushDelay);
    }

    /** What Run does with an entry it received. */
    method Append(entry: E) returns (sent: bool, held: seq<E>)
      requires phase.Selecting? && Good(config, Buffered(config, View(), entry))
      requires concurrencyChannel == Busy(status) && StateReflects(started, happened, View())
      modifies this
      ensures Valid() && happened + world == old(happened + world) && |world| <= |old(world)|
      ensures Appended(entry, old(currentBuffer), old(sending), sent, held)
      ensures |world| == |old(world)| ==> logEntryChannel == old(logEntryChannel)
      ensures old(stopped) ==> stopped
    {
      hide Good, Busy, Reflects;
      if |currentBuffer| == 0 {
        since := clock;
      }
      currentBuffer := currentBuffer + [entry];
      sent, held := true, [];
      if |currentBuffer| >= config.maxBufferSize {
        sent, held := FlushBuffer();
      } else if |currentBuffer| == 1 {
        SetTimer();
      }
    }

    /** After the stop signal Run takes all tokens, so that no send has one. */
    method TakeAllTokens() returns (all: bool)
      requires Valid() && phase == Selecting && stopped
      modifies this`world, this`happened, this`logEntryChannel, this`accepted, this`clock, this`status, this`delivered,
               this`concurrencyChannel, this`stopped, this`phase
      ensures Valid() && happened + world == old(happened + world) && |world| <= |old(world)| && stopped
      ensures if all then phase == Returned else phase.Draining? && !CanHappen()
      ensures |world| == |old(world)| ==> logEntryChannel == old(logEntryChannel)
    {
      hide Valid;
      StartDrain();
      for i := 0 to config.maxConcurrency
        invariant Valid() && phase == Draining(i) && stopped
        invariant happened + world == old(happened + world) && |world| <= |old(world)|
        invariant |world| == |old(world)| ==> logEntryChannel == old(logEntryChannel)
      {
        var room := Await();
        if !room {
          return false;
        }
        TakeToken();
      }
      Finish();
      all := true;
    }

    ghost method StartDrain()
      requires Valid() && phase == Selecting && stopped
      modifies this`phase
      ensures Valid() && phase == Draining(0)
    {
      hide Good, Busy, Reflects;
      StopStep(config, View());
      phase := Draining(0);
    }

    method TakeToken()
      requires Valid() && phase.Draining? && phase.taken < config.maxConcurrency && concurrencyChannel < config.maxConcurrency
      modifies this`concurrencyChannel, this`phase
      ensures Valid() && phase == Draining(old(phase.taken) + 1)
    {
      hide Good, Busy, Reflects;
      TokenStep(config, View());
      concurrencyChannel := concurrencyChannel + 1;
      phase := Draining(phase.taken + 1);
    }

    ghost method Finish()
      requires Valid() && phase == Draining(config.maxConcurrency)
      modifies this`phase
      ensures Valid() && phase == Returned
    {
      hide Good, Busy, Reflects;
      ReturnStep(config, View());
      phase := Returned;
    }

    /** Run receives an entry from the channel. */
    method ReceiveEntry() returns (sent: bool, held: seq<E>)
      requires Valid() && phase == Selecting && logEntryChannel != []
      modifies this
      ensures Valid() && happened + world == old(happened + world) && |world| <= |old(world)|
      ensures Appended(old(logEntryChannel[0]), old(currentBuffer), old(sending), sent, held)
      ensures |world| == |old(world)| ==> |logEntryChannel| < |old(logEntryChannel)|
    {
      hide Good, Busy, Reflects, Buffered;
      StepIsGood(config, View(), Receive);
      var entry := logEntryChannel[0];
      logEntryChannel := logEntryChannel[1..];
      sent, held := Append(entry);
    }

    /** Run receives an entry from a sender that waits for it, the channel
        having no space of its own. */
    method ReceiveHandoff() returns (sent: bool, held: seq<E>)
      requires Valid() && phase == Selecting && config.maxBufferSize == 0 && world != [] && world[0].Adds?
      modifies this
      ensures Valid() && happened + world == old(happened + world) && |world| < |old(world)|
      ensures Appended(old(world[0]).entry, old(currentBuffer), old(sending), sent, held)
    {
      hide Good, Busy, Reflects, Buffered;
      var entry := world[0].entry;
      StepIsGood(config, View(), Handoff(entry));
      HandoffReflects(started, happened, View(), entry);
      happened, world := happened + [world[0]], world[1..];
      accepted := accepted + [entry];
      sent, held := Append(entry);
    }

    /** Run finds the timer expired. */
    method TimerExpired() returns (sent: bool, held: seq<E>)
      requires Valid() && phase == Selecting && timer.Fired?
      modifies this
      ensures Valid() && happened + world == old(happened + world) && |world| <= |old(world)|
      ensures Flushed(old(currentBuffer), old(sending), sent, held)
      ensures |world| == |old(world)| ==> logEntryChannel == old(logEntryChannel)
      ensures timer == Spent
    {
      hide Good, Busy, Reflects, Flush;
      StepIsGood(config, View(), TimerFlush);
      timer := Spent;
      sent, held := FlushBuffer();
    }

    /** The loop, choosing freely among the cases that are ready. It ends when it
        returns, or when it is blocked and nothing more can happen around it. */
    method Run() returns (returned: bool, held: seq<E>)
      requires Valid() && phase == Selecting
      modifies this
      ensures Valid() && happened + world == old(happened + world)
      ensures accepted == Added(happened)
      ensures Flatten(sending) + held + currentBuffer + logEntryChannel == accepted
      ensures forall i :: 0 <= i < |sending| ==> |sending[i]| <= BatchLimit(config)
      ensures config.maxConcurrency == 1 ==> delivered <= accepted
      ensures returned ==> stopped && held == [] && ReturnedWell(config, View())
      ensures !returned ==> !CanHappen()
      ensures !returned && phase == Selecting ==>
        && logEntryChannel == [] && !stopped
        && (currentBuffer != [] ==> clock < since + config.flushDelay)
    {
      hide Valid;
      returned, held := false, [];
      var going := true;
      while going
        invariant Valid() && happened + world == old(happened + world)
        invariant if going then phase == Selecting && held == [] && !returned else Over(returned, held)
        decreases |world|, |logEntryChannel|, TimerRank(timer), going
      {
        var some := CanHappen() || Due() || logEntryChannel != [] || timer.Fired? || stopped || Offered();
        if {
          case logEntryChannel != [] => going, held := ReceiveEntry();
          case Offered() => going, held := ReceiveHandoff();
          case timer.Fired? => going, held := TimerExpired();
          case stopped => returned := TakeAllTokens(); going := false;
          case CanHappen() => LetHappen();
          case Due() => Expire();
          case !some => going := false;
        }
      }
      assert Valid();
      WhatIsLeft(this, returned, held);
    }

    /** A sender offers an entry to a channel without space of its own. */
    predicate Offered()
      reads this
    {
      config.maxBufferSize == 0 && world != [] && world[0].Adds?
    }

    /** How Run ends: it returns, or it is blocked for good at its select, with
        a batch waiting for a token, or waiting for the tokens. */
    ghost predicate Over(returned: bool, held: seq<E>)
      reads this
    {
      if returned then phase == Returned && held == [] && stopped
      else
        && !CanHappen()
        && (|| phase == Holding(held)
            || (phase.Draining? && held == [])
            || (phase == Selecting && held == [] && logEntryChannel == [] && !stopped && !timer.Fired? && !Due()))
    }
  }

  function TimerRank(t: Timer): nat
  {
    match t
    case Armed(_) => 2
    case Fired(_) => 1
    case _ => 0
  }

  /** What the invariant says when Run is over. */
  lemma WhatIsLeft<E>(s: SdSink<E>, returned: bool, held: seq<E>)
    requires s.Valid() && s.Over(returned, held)
    ensures s.accepted == Added(s.happened)
    ensures Flatten(s.sending) + held + s.currentBuffer + s.logEntryChannel == s.accepted
    ensures forall i :: 0 <= i < |s.sending| ==> |s.sending[i]| <= BatchLimit(s.config)
    ensures s.config.maxConcurrency == 1 ==> s.delivered <= s.accepted
    ensures returned ==> ReturnedWell(s.config, s.View())
    ensures s.phase == Selecting && s.currentBuffer != [] && !s.timer.Fired? && !s.Due() ==> s.clock < s.since + s.config.flushDelay
  {
    var v := s.View();
    if returned {
      QuietWhenReturned(s.config, v);
    }
    if s.config.maxConcurrency == 1 {
      DeliveredPrefix(v);
    }
  }
}
