/** The hot-reloading config store of internal/config/store.go: a reload that
    skips unchanged content, and the loop that debounces file events. */
module ConfigStore {
  import opened Basics

  /** One attempt to read the file. */
  type Attempt<+D> = Option<D>

  /** What the store shows, and what it told its subscribers. */
  datatype Shown<+C> = Shown(current: C, stale: bool, loadErrors: nat, told: seq<C>)

  function Fail<C>(s: Shown<C>): Shown<C>
  {
    s.(stale := true, loadErrors := s.loadErrors + 1)
  }

  /** A reload that always parses. */
  function Reparse<D, C>(parse: D -> Option<C>, s: Shown<C>, attempt: Attempt<D>): Shown<C>
  {
    match attempt
    case None => Fail(s)
    case Some(raw) =>
      match parse(raw)
      case None => Fail(s)
      case Some(cfg) => Shown(cfg, false, s.loadErrors, s.told + [cfg])
  }

  /** The store after loading `first` and then always parsing. */
  function Reparsed<D, C>(parse: D -> Option<C>, first: C, attempts: seq<Attempt<D>>): Shown<C>
  {
    if attempts == [] then Shown(first, false, 0, []) else
    Reparse(parse, Reparsed(parse, first, attempts[..|attempts| - 1]), attempts[|attempts| - 1])
  }

  /** The store itself: it also remembers the hash of what it parsed last. */
  datatype State<+C, +H> = State(shown: Shown<C>, lastHash: H)

  function ReloadStep<D, C, H(==)>(parse: D -> Option<C>, hash: D -> H, s: State<C, H>, attempt: Attempt<D>): State<C, H>
  {
    match attempt
    case None => s.(shown := Fail(s.shown))
    case Some(raw) =>
      if hash(raw) == s.lastHash && !s.shown.stale then s
      else match parse(raw)
        case None => s.(shown := Fail(s.shown))
        case Some(cfg) => State(Shown(cfg, false, s.shown.loadErrors, s.shown.told + [cfg]), hash(raw))
  }

  function Reloaded<D, C, H(==)>(parse: D -> Option<C>, hash: D -> H, first: C, firstRaw: D, attempts: seq<Attempt<D>>): State<C, H>
  {
    if attempts == [] then State(Shown(first, false, 0, []), hash(firstRaw)) else
    ReloadStep(parse, hash, Reloaded(parse, hash, first, firstRaw, attempts[..|attempts| - 1]), attempts[|attempts| - 1])
  }

  /** The last content that parsed. */
  function LastParsed<D, C>(parse: D -> Option<C>, firstRaw: D, attempts: seq<Attempt<D>>): D
  {
    if attempts == [] then firstRaw else
    var last := attempts[|attempts| - 1];
    if last.Some? && parse(last.value).Some? then last.value
    else LastParsed(parse, firstRaw, attempts[..|attempts| - 1])
  }

  /** No two different contents of the run have one hash. */
  ghost predicate NoCollision<D(!new), H>(hash: D -> H, firstRaw: D, attempts: seq<Attempt<D>>)
  {
    forall a, b :: Read(firstRaw, attempts, a) && Read(firstRaw, attempts, b) && hash(a) == hash(b) ==> a == b
  }

  ghost predicate Read<D>(firstRaw: D, attempts: seq<Attempt<D>>, raw: D)
  {
    raw == firstRaw || Some(raw) in attempts
  }

  lemma {:induction false} LastParsedWasRead<D, C>(parse: D -> Option<C>, firstRaw: D, attempts: seq<Attempt<D>>)
    requires parse(firstRaw).Some?
    ensures Read(firstRaw, attempts, LastParsed(parse, firstRaw, attempts))
    ensures parse(LastParsed(parse, firstRaw, attempts)).Some?
  {
    if attempts != [] {
      LastParsedWasRead(parse, firstRaw, attempts[..|attempts| - 1]);
      assert attempts[|attempts| - 1] in attempts;
    }
  }

  lemma NoCollisionBefore<D(!new), H>(hash: D -> H, firstRaw: D, attempts: seq<Attempt<D>>)
    requires attempts != [] && NoCollision(hash, firstRaw, attempts)
    ensures NoCollision(hash, firstRaw, attempts[..|attempts| - 1])
  {
    forall a | Read(firstRaw, attempts[..|attempts| - 1], a)
      ensures Read(firstRaw, attempts, a)
    {}
  }

  /** Skipping unchanged content cannot be seen: after any attempts, the store
      shows what always parsing would show, its config is the parse of the last
      content that parsed, and its subscribers last heard of that config. */
  lemma {:induction false} ReloadRefinesReparse<D(!new), C, H>(parse: D -> Option<C>, hash: D -> H, firstRaw: D, attempts: seq<Attempt<D>>)
    requires parse(firstRaw).Some? && NoCollision(hash, firstRaw, attempts)
    ensures var first := parse(firstRaw).value;
      var s, p := Reloaded(parse, hash, first, firstRaw, attempts), Reparsed(parse, first, attempts);
      var last := LastParsed(parse, firstRaw, attempts);
      && s.shown.current == p.current && s.shown.stale == p.stale && s.shown.loadErrors == p.loadErrors
      && s.lastHash == hash(last)
      && parse(last) == Some(s.shown.current)
      && (if s.shown.told == [] then s.shown.current == first else s.shown.told[|s.shown.told| - 1] == s.shown.current)
  {
    if attempts != [] {
      var front, attempt := attempts[..|attempts| - 1], attempts[|attempts| - 1];
      NoCollisionBefore(hash, firstRaw, attempts);
      ReloadRefinesReparse(parse, hash, firstRaw, front);
      LastParsedWasRead(parse, firstRaw, front);
      var before := LastParsed(parse, firstRaw, front);
      assert Read(firstRaw, attempts, before);
      if attempt.Some? {
        assert attempt in attempts && Read(firstRaw, attempts, attempt.value);
      }
    }
  }

  /** The notifications a skip saves carry the config already current, and a
      reload that is not skipped notifies as always parsing would. */
  lemma SkippedNotificationsAreRepeats<D(!new), C, H>(parse: D -> Option<C>, hash: D -> H, firstRaw: D, attempts: seq<Attempt<D>>, attempt: Attempt<D>)
    requires parse(firstRaw).Some? && NoCollision(hash, firstRaw, attempts + [attempt])
    ensures var first := parse(firstRaw).value;
      var s, p := Reloaded(parse, hash, first, firstRaw, attempts), Reparsed(parse, first, attempts);
      var s', p' := ReloadStep(parse, hash, s, attempt), Reparse(parse, p, attempt);
      || (s'.shown.told == s.shown.told && p'.told == p.told)
      || (s'.shown.told == s.shown.told + [s'.shown.current] && p'.told == p.told + [s'.shown.current])
      || (s' == s && p'.told == p.told + [s.shown.current])
  {
    assert (attempts + [attempt])[..|attempts|] == attempts;
    NoCollisionBefore(hash, firstRaw, attempts + [attempt]);
    ReloadRefinesReparse(parse, hash, firstRaw, attempts);
    LastParsedWasRead(parse, firstRaw, attempts);
    var before := LastParsed(parse, firstRaw, attempts);
    assert Read(firstRaw, attempts + [attempt], before);
    if attempt.Some? {
      assert attempt in attempts + [attempt] && Read(firstRaw, attempts + [attempt], attempt.value);
    }
  }

  /** The attempts, by position, that gave no content or content that does not
      parse. */
  ghost function Failures<D, C>(parse: D -> Option<C>, attempts: seq<Attempt<D>>): set<nat>
  {
    set i | 0 <= i < |attempts| && (attempts[i] == None || parse(attempts[i].value) == None)
  }

  /** The store counts exactly the attempts that failed, and is stale exactly
      while the last one is among them. */
  lemma {:induction false} ErrorsAreFailures<D(!new), C, H>(parse: D -> Option<C>, hash: D -> H, firstRaw: D, attempts: seq<Attempt<D>>)
    requires parse(firstRaw).Some? && NoCollision(hash, firstRaw, attempts)
    ensures var s := Reloaded(parse, hash, parse(firstRaw).value, firstRaw, attempts).shown;
      && s.loadErrors == |Failures(parse, attempts)|
      && (s.stale <==> attempts != [] && |attempts| - 1 in Failures(parse, attempts))
  {
    if attempts == [] {
      assert Failures(parse, attempts) == {};
    } else {
      var n := |attempts| - 1;
      var front, attempt := attempts[..n], attempts[n];
      NoCollisionBefore(hash, firstRaw, attempts);
      ErrorsAreFailures(parse, hash, firstRaw, front);
      ReloadRefinesReparse(parse, hash, firstRaw, front);
      LastParsedWasRead(parse, firstRaw, front);
      assert Read(firstRaw, attempts, LastParsed(parse, firstRaw, front));
      if attempt.Some? {
        assert attempt in attempts && Read(firstRaw, attempts, attempt.value);
      }
      OneMoreFailure(parse, attempts);
      hide Failures, Reparsed, NoCollision;
    }
  }

  lemma OneMoreFailure<D, C>(parse: D -> Option<C>, attempts: seq<Attempt<D>>)
    requires attempts != []
    ensures var n := |attempts| - 1;
      var fails := attempts[n] == None || parse(attempts[n].value) == None;
      && (n in Failures(parse, attempts) <==> fails)
      && |Failures(parse, attempts)| == |Failures(parse, attempts[..n])| + if fails then 1 else 0
  {
    var n := |attempts| - 1;
    var fails := attempts[n] == None || parse(attempts[n].value) == None;
    assert Failures(parse, attempts) == Failures(parse, attempts[..n]) + if fails then {n} else {};
  }

  /** Where two contents collide, the second is taken for the first: the config
      stays although always parsing would have replaced it. */
  lemma CollisionHidesAnEdit<D, C, H>(parse: D -> Option<C>, hash: D -> H, a: D, b: D)
    requires parse(a).Some? && parse(b) != parse(a)
    ensures var first := parse(a).value;
      var s, p := Reloaded(parse, hash, first, a, [Some(b)]).shown, Reparsed(parse, first, [Some(b)]);
      (hash(a) == hash(b) <==> s.(told := []) != p.(told := []))
  {
    var attempts: seq<Attempt<D>> := [Some(b)];
    assert attempts[..0] == [];
  }

  /** The store object. */
  class Store<D, C, H(==)> {
    const parse: D -> Option<C>
    const hash: D -> H
    var cur: C
    var stale: bool
    var loadErrs: nat
    var lastHash: H
    ghost var told: seq<C>

    ghost function View(): State<C, H>
      reads this
    {
      State(Shown(cur, stale, loadErrs, told), lastHash)
    }

    /** A store whose initial load succeeded. */
    constructor (parse: D -> Option<C>, hash: D -> H, raw: D)
      requires parse(raw).Some?
      ensures this.parse == parse && this.hash == hash
      ensures View() == Reloaded(parse, hash, parse(raw).value, raw, [])
    {
      this.parse := parse;
      this.hash := hash;
      cur := parse(raw).value;
      stale := false;
      loadErrs := 0;
      lastHash := hash(raw);
      told := [];
    }

    method Reload(attempt: Attempt<D>)
      modifies this
      ensures View() == ReloadStep(parse, hash, old(View()), attempt)
    {
      if attempt.None? {
        loadErrs := loadErrs + 1;
        stale := true;
        return;
      }
      var h := hash(attempt.value);
      if h == lastHash && !stale {
        return;
      }
      var cfg := parse(attempt.value);
      if cfg.None? {
        loadErrs := loadErrs + 1;
        stale := true;
        return;
      }
      lastHash := h;
      cur := cfg.value;
      stale := false;
      told := told + [cfg.value];
    }
  }
}
