/** The loop that turns file events into reloads (Watch in
    internal/config/store.go): events arm a debounce timer, whose callback
    leaves a token, for which the loop reloads. */
module ConfigWatch {
  import opened Basics
  import opened ConfigStore

  type TimerId = nat

  datatype Watch<+D> = Watch(
    file: Attempt<D>,          // what reading the file would give now
    events: nat,               // events not yet received
    timer: Option<TimerId>,    // the variable `timer`
    armed: set<TimerId>,       // timers that are running
    made: nat,                 // timers made so far
    callbacks: nat,            // callbacks started and not through
    token: bool,               // the channel `fire`, of capacity one
    reloading: bool,           // the loop is inside reload, before its read
    attempts: seq<Attempt<D>>) // what reloads have read

  /** The loop starts with whatever the file holds by then: it may have been
      edited since the store loaded it. */
  function Initial<D>(file: Attempt<D>): Watch<D>
  {
    Watch(file, 0, None, {}, 0, 0, false, false, [])
  }

  datatype Action<+D> =
    | Change(content: Attempt<D>)  // also of unrelated files: then the content stays
    | TakeEvent
    | Expire(id: TimerId)
    | Callback
    | TakeToken
    | ReadFile

  predicate Enabled<D>(s: Watch<D>, a: Action<D>)
  {
    match a
    case Change(_) => true
    case TakeEvent => !s.reloading && s.events > 0
    case Expire(id) => id in s.armed
    case Callback => s.callbacks > 0
    case TakeToken => !s.reloading && s.token
    case ReadFile => s.reloading
  }

  function Do<D>(s: Watch<D>, a: Action<D>): Watch<D>
    requires Enabled(s, a)
  {
    match a
    case Change(content) => s.(file := content, events := s.events + 1)
    case TakeEvent =>
      var id := if s.timer.Some? then s.timer.value else s.made;
      s.(events := s.events - 1, timer := Some(id), armed := s.armed + {id}, made := if s.timer.Some? then s.made else s.made + 1)
    case Expire(id) => s.(armed := s.armed - {id}, callbacks := s.callbacks + 1)
    case Callback => s.(callbacks := s.callbacks - 1, token := true)
    case TakeToken => s.(token := false, timer := None, reloading := true)
    case ReadFile => s.(reloading := false, attempts := s.attempts + [s.file])
  }

  ghost predicate Run<D(!new)>(ss: seq<Watch<D>>, acts: seq<Action<D>>)
  {
    && |ss| == |acts| + 1
    && ss[0] == Initial(ss[0].file)
    && forall i :: 0 <= i < |acts| ==> Enabled(ss[i], acts[i]) && ss[i + 1] == Do(ss[i], acts[i])
  }

  /** An event has come since the watch began. */
  ghost predicate Notified<D>(acts: seq<Action<D>>, i: nat)
  {
    exists x :: 0 <= x < i && x < |acts| && acts[x].Change?
  }

  /** What the store last read. */
  function LastRead<D>(raw: D, s: Watch<D>): Attempt<D>
  {
    if s.attempts == [] then Some(raw) else s.attempts[|s.attempts| - 1]
  }

  /** Something that will lead to another read is under way. */
  predicate Busy<D>(s: Watch<D>)
  {
    s.events > 0 || s.armed != {} || s.callbacks > 0 || s.token || s.reloading
  }

  /** An edit not yet read is never forgotten, once the watch has begun: at rest
      the last read is what the file holds exactly if an event has come, or if
      nobody had edited the file between the first load and the watch. */
  lemma {:induction false} NoEditIsLost<D(!new)>(raw: D, ss: seq<Watch<D>>, acts: seq<Action<D>>, i: nat)
    requires Run(ss, acts) && i < |ss|
    ensures !Busy(ss[i]) ==>
      (LastRead(raw, ss[i]) == ss[i].file <==> Notified(acts, i) || ss[0].file == Some(raw))
    ensures !Notified(acts, i) ==> !Busy(ss[i]) && ss[i].file == ss[0].file && LastRead(raw, ss[i]) == Some(raw)
  {
    if Notified(acts, i) {
      NothingForgotten(raw, ss, acts, i);
    } else {
      NothingHappens(ss, acts, i);
    }
  }

  lemma {:induction false} NothingForgotten<D(!new)>(raw: D, ss: seq<Watch<D>>, acts: seq<Action<D>>, i: nat)
    requires Run(ss, acts) && i < |ss| && Notified(acts, i)
    ensures Busy(ss[i]) || LastRead(raw, ss[i]) == ss[i].file
  {
    assert Enabled(ss[i - 1], acts[i - 1]) && ss[i] == Do(ss[i - 1], acts[i - 1]);
    if !acts[i - 1].Change? {
      assert Notified(acts, i - 1);
      NothingForgotten(raw, ss, acts, i - 1);
      if acts[i - 1].TakeEvent? {
        assert ss[i].timer.value in ss[i].armed;
      }
    }
  }

  /** Without an event the loop has nothing to do. */
  lemma {:induction false} NothingHappens<D(!new)>(ss: seq<Watch<D>>, acts: seq<Action<D>>, i: nat)
    requires Run(ss, acts) && i < |ss| && !Notified(acts, i)
    ensures ss[i] == Initial(ss[0].file)
  {
    if i > 0 {
      assert Enabled(ss[i - 1], acts[i - 1]) && ss[i] == Do(ss[i - 1], acts[i - 1]);
      NothingHappens(ss, acts, i - 1);
    }
  }

  /** Every edit is followed by a read that happens after it, or one is on its
      way: also an edit that puts back what was read before. */
  lemma {:induction false} EveryEditIsFollowedByARead<D(!new)>(ss: seq<Watch<D>>, acts: seq<Action<D>>, j: nat, i: nat)
    requires Run(ss, acts) && j < i < |ss| && acts[j].Change?
    ensures Busy(ss[i]) || exists r :: j < r < i && acts[r].ReadFile?
    decreases i
  {
    assert Enabled(ss[i - 1], acts[i - 1]) && ss[i] == Do(ss[i - 1], acts[i - 1]);
    if i > j + 1 {
      EveryEditIsFollowedByARead(ss, acts, j, i - 1);
      if acts[i - 1].TakeEvent? {
        assert ss[i].timer.value in ss[i].armed;
      }
    }
  }

  // ------------------------------------------------- the state and its history

  type Kind<!D> = Action<D> -> bool

  /** The steps of a kind so far. */
  ghost function Steps<D>(acts: seq<Action<D>>, i: nat, what: Kind<D>): set<nat>
  {
    set x: nat | x < i && x < |acts| && what(acts[x])
  }

  /** A step of a kind has been taken since the last one of another. */
  ghost predicate Since<D>(acts: seq<Action<D>>, i: nat, what: Kind<D>, last: Kind<D>)
  {
    exists x: nat :: x < i && x < |acts| && what(acts[x]) && Without(acts, x, i, last)
  }

  ghost predicate Without<D>(acts: seq<Action<D>>, x: nat, i: nat, kind: Kind<D>)
  {
    forall y :: x < y < i && y < |acts| ==> !kind(acts[y])
  }

  lemma OneStepMore<D>(acts: seq<Action<D>>, i: nat, what: Kind<D>)
    requires i < |acts|
    ensures |Steps(acts, i + 1, what)| == |Steps(acts, i, what)| + if what(acts[i]) then 1 else 0
  {
    assert Steps(acts, i + 1, what) == Steps(acts, i, what) + if what(acts[i]) then {i} else {};
  }

  lemma SinceOneMore<D>(acts: seq<Action<D>>, i: nat, what: Kind<D>, last: Kind<D>)
    requires i < |acts|
    ensures Since(acts, i + 1, what, last) <==> what(acts[i]) || (Since(acts, i, what, last) && !last(acts[i]))
  {
    if Since(acts, i, what, last) && !last(acts[i]) {
      var x: nat :| x < i && what(acts[x]) && Without(acts, x, i, last);
      assert Without(acts, x, i + 1, last);
    }
    if what(acts[i]) {
      assert Without(acts, i, i + 1, last);
    }
    if Since(acts, i + 1, what, last) && !what(acts[i]) {
      var x: nat :| x < i + 1 && what(acts[x]) && Without(acts, x, i + 1, last);
      assert !last(acts[i]);
      assert Without(acts, x, i, last);
    }
  }

  function Changes<D>(): Kind<D> { (a: Action<D>) => a.Change? }
  function Events<D>(): Kind<D> { (a: Action<D>) => a.TakeEvent? }
  function Expiries<D>(): Kind<D> { (a: Action<D>) => a.Expire? }
  function Callbacks<D>(): Kind<D> { (a: Action<D>) => a.Callback? }
  function Tokens<D>(): Kind<D> { (a: Action<D>) => a.TakeToken? }
  function Reads<D>(): Kind<D> { (a: Action<D>) => a.ReadFile? }

  /** Events taken first after the start or after a token: those that make a new
      timer rather than reset the one there is. */
  ghost function FirstEvents<D>(acts: seq<Action<D>>, i: nat): set<nat>
  {
    set x: nat | x < i && x < |acts| && acts[x].TakeEvent? && !Since(acts, x, Events(), Tokens())
  }

  ghost predicate Follows<D>(s: Watch<D>, acts: seq<Action<D>>, i: nat)
  {
    && s.events == |Steps(acts, i, Changes())| - |Steps(acts, i, Events())|
    && s.callbacks == |Steps(acts, i, Expiries())| - |Steps(acts, i, Callbacks())|
    && |s.attempts| == |Steps(acts, i, Reads())|
    && (if s.reloading then 1 else 0) == |Steps(acts, i, Tokens())| - |Steps(acts, i, Reads())|
    && (s.token <==> Since(acts, i, Callbacks(), Tokens()))
    && (s.timer.Some? <==> Since(acts, i, Events(), Tokens()))
    && (s.timer.Some? ==> s.timer.value == s.made - 1)
    && s.made == |FirstEvents(acts, i)|
  }

  /** Nothing is forgotten and nothing is made up: what has not been received,
      called back or read is what has come less what has been; a token is there
      exactly if a callback has left one since it was last taken; there is a timer
      exactly if an event has come since then, and each first event made one. */
  lemma {:induction false} StateIsHistory<D(!new)>(ss: seq<Watch<D>>, acts: seq<Action<D>>, i: nat)
    requires Run(ss, acts) && i < |ss|
    ensures Follows(ss[i], acts, i)
  {
    WatchStep(ss, acts, i);
    hide *;
    if i == 0 {
      HistoryStarts(ss[0].file, acts);
    } else {
      StateIsHistory(ss, acts, i - 1);
      HistoryOneMore(ss[i - 1], acts, i - 1);
    }
  }

  lemma WatchStep<D(!new)>(ss: seq<Watch<D>>, acts: seq<Action<D>>, i: nat)
    requires Run(ss, acts) && i < |ss|
    ensures |ss| == |acts| + 1
    ensures if i == 0 then ss[0] == Initial(ss[0].file) else Enabled(ss[i - 1], acts[i - 1]) && ss[i] == Do(ss[i - 1], acts[i - 1])
  {}

  lemma HistoryStarts<D>(file: Attempt<D>, acts: seq<Action<D>>)
    ensures Follows(Initial(file), acts, 0)
  {
    NoHistory(acts);
    hide Steps, Since, FirstEvents;
  }

  lemma HistoryOneMore<D>(s: Watch<D>, acts: seq<Action<D>>, i: nat)
    requires i < |acts| && Enabled(s, acts[i]) && Follows(s, acts, i)
    ensures Follows(Do(s, acts[i]), acts, i + 1)
  {
    OneStepMore(acts, i, Changes());
    OneStepMore(acts, i, Events());
    OneStepMore(acts, i, Expiries());
    OneStepMore(acts, i, Callbacks());
    OneStepMore(acts, i, Tokens());
    OneStepMore(acts, i, Reads());
    SinceOneMore(acts, i, Callbacks(), Tokens());
    SinceOneMore(acts, i, Events(), Tokens());
    FirstOneMore(acts, i);
    hide Steps, Since, FirstEvents;
  }

  lemma FirstOneMore<D>(acts: seq<Action<D>>, i: nat)
    requires i < |acts|
    ensures |FirstEvents(acts, i + 1)| == |FirstEvents(acts, i)| + if acts[i].TakeEvent? && !Since(acts, i, Events(), Tokens()) then 1 else 0
  {
    assert FirstEvents(acts, i + 1) == FirstEvents(acts, i) + if acts[i].TakeEvent? && !Since(acts, i, Events(), Tokens()) then {i} else {};
  }

  /** A timer runs exactly if an event has set it and it has not expired since. */
  ghost predicate SetSince<D>(ss: seq<Watch<D>>, acts: seq<Action<D>>, i: nat, id: TimerId)
    requires |ss| == |acts| + 1
  {
    exists x: nat :: x < i && x < |acts| && acts[x].TakeEvent? && ss[x + 1].timer == Some(id) && Without(acts, x, i, Expires(id))
  }

  function Expires<D>(id: TimerId): Kind<D> { (a: Action<D>) => a.Expire? && a.id == id }

  lemma {:induction false} ArmedExactly<D(!new)>(ss: seq<Watch<D>>, acts: seq<Action<D>>, i: nat, id: TimerId)
    requires Run(ss, acts) && i < |ss|
    ensures id in ss[i].armed <==> SetSince(ss, acts, i, id)
  {
    if i > 0 {
      ArmedExactly(ss, acts, i - 1, id);
      assert Enabled(ss[i - 1], acts[i - 1]) && ss[i] == Do(ss[i - 1], acts[i - 1]);
      SetOneMore(ss, acts, i - 1, id);
      hide SetSince;
    }
  }

  lemma SetOneMore<D>(ss: seq<Watch<D>>, acts: seq<Action<D>>, i: nat, id: TimerId)
    requires |ss| == |acts| + 1 && i < |acts|
    ensures SetSince(ss, acts, i + 1, id) <==>
      (acts[i].TakeEvent? && ss[i + 1].timer == Some(id)) || (SetSince(ss, acts, i, id) && !(acts[i].Expire? && acts[i].id == id))
  {
    if SetSince(ss, acts, i, id) && !(acts[i].Expire? && acts[i].id == id) {
      var x: nat :| x < i && acts[x].TakeEvent? && ss[x + 1].timer == Some(id) && Without(acts, x, i, Expires(id));
      assert Without(acts, x, i + 1, Expires(id));
    }
    if acts[i].TakeEvent? && ss[i + 1].timer == Some(id) {
      assert Without(acts, i, i + 1, Expires(id));
    }
    if SetSince(ss, acts, i + 1, id) && !(acts[i].TakeEvent? && ss[i + 1].timer == Some(id)) {
      var x: nat :| x < i + 1 && acts[x].TakeEvent? && ss[x + 1].timer == Some(id) && Without(acts, x, i + 1, Expires(id));
      assert Without(acts, x, i, Expires(id));
    }
  }

  /** What reads have given: each the file as it was then, which only edits
      change. */
  lemma ReadsAndEdits<D(!new)>(ss: seq<Watch<D>>, acts: seq<Action<D>>, i: nat)
    requires Run(ss, acts) && i < |acts|
    ensures ss[i + 1].attempts == ss[i].attempts + if acts[i].ReadFile? then [ss[i].file] else []
    ensures ss[i + 1].file == if acts[i].Change? then acts[i].content else ss[i].file
  {
    assert Enabled(ss[i], acts[i]) && ss[i + 1] == Do(ss[i], acts[i]);
  }

  lemma NoHistory<D>(acts: seq<Action<D>>)
    ensures Steps(acts, 0, Changes()) == Steps(acts, 0, Events()) == Steps(acts, 0, Expiries()) == {}
    ensures Steps(acts, 0, Callbacks()) == Steps(acts, 0, Tokens()) == Steps(acts, 0, Reads()) == FirstEvents(acts, 0) == {}
    ensures !Since(acts, 0, Callbacks(), Tokens()) && !Since(acts, 0, Events(), Tokens())
  {}

  // ------------------------------------------ every edit is read in bounded time

  /** Steps of the loop, its timers and callbacks still to come if nothing else
      happens, at most. */
  function Ahead<D>(s: Watch<D>): nat
  {
    5 * s.events + 4 * |s.armed| + 3 * s.callbacks + (if s.token then 2 else 0) + (if s.reloading then 1 else 0)
  }

  lemma ArmOne(armed: set<TimerId>, id: TimerId)
    ensures |armed + {id}| <= |armed| + 1
  {
    if id in armed {
      assert armed + {id} == armed;
    }
  }

  /** Each of these steps brings the loop closer to rest, and while it is not at
      rest one of them can be taken. */
  lemma LoopSettles<D>(s: Watch<D>, a: Action<D>)
    requires Enabled(s, a) && !a.Change?
    ensures Ahead(Do(s, a)) < Ahead(s) && Do(s, a).file == s.file
  {
    match a {
      case TakeEvent => ArmOne(s.armed, if s.timer.Some? then s.timer.value else s.made);
      case _ =>
    }
  }

  lemma LoopGoesOn<D>(s: Watch<D>)
    requires Busy(s)
    ensures exists a: Action<D> :: Enabled(s, a) && !a.Change?
  {
    if s.reloading {
      assert Enabled(s, Action<D>.ReadFile);
    } else if s.token {
      assert Enabled(s, Action<D>.TakeToken);
    } else if s.callbacks > 0 {
      assert Enabled(s, Action<D>.Callback);
    } else if s.armed != {} {
      var id :| id in s.armed;
      assert Enabled(s, Action<D>.Expire(id));
    } else {
      assert Enabled(s, Action<D>.TakeEvent);
    }
  }

  /** No edits between two states. */
  ghost predicate Quiet<D>(acts: seq<Action<D>>, i: nat, j: nat)
  {
    j <= |acts| && forall k :: i <= k < j ==> !acts[k].Change?
  }

  lemma QuietUntil<D>(acts: seq<Action<D>>, i: nat, j: nat)
    requires i < j && Quiet(acts, i, j)
    ensures Quiet(acts, i, j - 1) && j <= |acts| && !acts[j - 1].Change?
  {}

  lemma StepSettles<D(!new)>(ss: seq<Watch<D>>, acts: seq<Action<D>>, i: nat)
    requires Run(ss, acts) && i < |acts| && !acts[i].Change?
    ensures i + 1 < |ss| && Ahead(ss[i + 1]) < Ahead(ss[i]) && ss[i + 1].file == ss[i].file
  {
    assert Enabled(ss[i], acts[i]) && ss[i + 1] == Do(ss[i], acts[i]);
    LoopSettles(ss[i], acts[i]);
  }

  /** Once edits stop, after at most as many steps as are ahead the loop rests. */
  lemma {:induction false} QuietRunSettles<D(!new)>(ss: seq<Watch<D>>, acts: seq<Action<D>>, i: nat, j: nat)
    requires Run(ss, acts) && i <= j < |ss| && Quiet(acts, i, j)
    ensures j - i <= Ahead(ss[i]) - Ahead(ss[j])
    ensures ss[j].file == ss[i].file
    decreases j
  {
    if i < j {
      QuietUntil(acts, i, j);
      QuietRunSettles(ss, acts, i, j - 1);
      StepSettles(ss, acts, j - 1);
    }
  }

  // -------------------------------------------------------------- end to end

  /** At rest the store reflects what the file holds: if it parses, its parse is
      current and not stale; if it does not, the store is stale and keeps the
      last config that parsed. Only an edit before the watch began that no later
      event follows goes unseen: then the store still shows the first load. */
  lemma AtRestTheStoreReflectsTheFile<D(!new), C, H>(parse: D -> Option<C>, hash: D -> H, raw: D, ss: seq<Watch<D>>, acts: seq<Action<D>>, i: nat)
    requires Run(ss, acts) && i < |ss| && !Busy(ss[i])
    requires parse(raw).Some? && NoCollision(hash, raw, ss[i].attempts)
    ensures var shown := Reloaded(parse, hash, parse(raw).value, raw, ss[i].attempts).shown;
      && parse(LastParsed(parse, raw, ss[i].attempts)) == Some(shown.current)
      && match if Notified(acts, i) || ss[0].file == Some(raw) then ss[i].file else Some(raw)
         case None => shown.stale
         case Some(content) =>
           match parse(content)
           case None => shown.stale
           case Some(cfg) => !shown.stale && shown.current == cfg
  {
    NoEditIsLost(raw, ss, acts, i);
    ReloadRefinesReparse(parse, hash, raw, ss[i].attempts);
  }
}
