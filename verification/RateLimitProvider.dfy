/**
 The rate-limit provider. A call may override the shared fail-open flag of its backend: it sets the
 flag before awaiting the backend and puts the old value back afterwards, so calls that overlap see
 and save each other's overrides.
 */
module RateLimitProvider {
  import opened Wrappers
  import opened RateLimit

  class RateLimiterBackend {
    var failOpen: bool
    const limiter: RedisRateLimiter

    constructor (limiter: RedisRateLimiter, failOpen: bool)
      ensures this.limiter == limiter && this.failOpen == failOpen
    {
      this.limiter, this.failOpen := limiter, failOpen;
    }

    /** `storeFails` says whether the store raises during this call. */
    method IncrementAndCheck(key: string, limit: int, period: int, now: int, storeFails: bool)
      returns (count: int, limited: bool)
      requires period > 0
      modifies limiter`windows
      ensures storeFails ==> count == 0 && limited == !failOpen && limiter.windows == old(limiter.windows)
      ensures !storeFails ==>
        var k := WindowKey(key, WindowStart(now, period));
        && limiter.windows == Bumped(old(limiter.windows), k, 1, period, now)
        && count == Value(old(limiter.windows), k, now) + 1 && limited == (count > limit)
    {
      if storeFails {
        return 0, !failOpen;
      }
      count, limited := limiter.IncrementAndCheck(key, limit, period, now);
    }
  }

  datatype Failure = BackendNotFound(name: string)

  class RateLimiterProvider {
    var backends: map<string, RateLimiterBackend>
    var defaultBackend: Option<string>

    constructor ()
      ensures backends == map[] && defaultBackend == None
    {
      backends, defaultBackend := map[], None;
    }

    method RegisterBackend(name: string, backend: RateLimiterBackend, makeDefault: bool)
      modifies this
      ensures backends == old(backends)[name := backend]
      ensures defaultBackend == if makeDefault || old(defaultBackend).None? then Some(name) else old(defaultBackend)
    {
      backends := backends[name := backend];
      if makeDefault || defaultBackend.None? {
        defaultBackend := Some(name);
      }
    }

    /** An empty name counts as no name, as in `name or self._default_backend`. */
    method GetBackend(name: Option<string>) returns (r: Result<RateLimiterBackend, Failure>)
      ensures name.Some? && name.value != "" ==>
        r == if name.value in backends then Result.Ok(backends[name.value]) else Err(BackendNotFound(name.value))
      ensures (name == None || name == Some("")) && defaultBackend.Some? && defaultBackend.value != "" ==>
        r == if defaultBackend.value in backends then Result.Ok(backends[defaultBackend.value])
             else Err(BackendNotFound(defaultBackend.value))
      ensures (name == None || name == Some("")) && (defaultBackend == None || defaultBackend == Some("")) ==>
        r == Err(BackendNotFound("default"))
    {
      var chosen := "";
      if name.Some? && name.value != "" {
        chosen := name.value;
      } else if defaultBackend.Some? {
        chosen := defaultBackend.value;
      }
      if chosen == "" || chosen !in backends {
        return Err(BackendNotFound(if chosen == "" then "default" else chosen));
      }
      return Result.Ok(backends[chosen]);
    }

    method SetDefaultBackend(name: string) returns (r: Result<(), Failure>)
      modifies this`defaultBackend
      ensures r == if name in backends then Result.Ok(()) else Err(BackendNotFound(name))
      ensures defaultBackend == if name in backends then Some(name) else old(defaultBackend)
    {
      if name !in backends {
        return Err(BackendNotFound(name));
      }
      defaultBackend := Some(name);
      return Result.Ok(());
    }
  }

  /** A call that nothing overlaps: the override decides the answer and leaves no trace. */
  method IncrementAndCheck(backend: RateLimiterBackend, key: string, limit: int, period: int, failOpen: Option<bool>,
        now: int, storeFails: bool)
    returns (count: int, limited: bool)
    requires period > 0
    modifies backend`failOpen, backend.limiter`windows
    ensures backend.failOpen == old(backend.failOpen)
    ensures storeFails ==> count == 0 && limited == !(if failOpen.Some? then failOpen.value else old(backend.failOpen))
    ensures !storeFails ==>
      var k := WindowKey(key, WindowStart(now, period));
      && backend.limiter.windows == Bumped(old(backend.limiter.windows), k, 1, period, now)
      && count == Value(old(backend.limiter.windows), k, now) + 1 && limited == (count > limit)
  {
    var original: Option<bool> := None;
    if failOpen.Some? && failOpen.value != backend.failOpen {
      original := Some(backend.failOpen);
      backend.failOpen := failOpen.value;
    }
    count, limited := backend.IncrementAndCheck(key, limit, period, now, storeFails);
    if original.Some? {
      backend.failOpen := original.value;
    }
  }

  // ------------------------------------------------------------- overlapping calls

  /** A call in flight: what it asked for and what it saved, if it changed the flag. */
  datatype Call = Call(asked: Option<bool>, saved: Option<bool>)

  datatype State = State(flag: bool, calls: map<int, Call>)

  datatype Move = Begin(c: int, asked: Option<bool>) | End(c: int)

  predicate Enabled(s: State, v: Move) {
    if v.Begin? then v.c !in s.calls else v.c in s.calls
  }

  function Moved(s: State, v: Move): State
    requires Enabled(s, v)
  {
    match v
    case Begin(c, asked) =>
      if asked.Some? && asked.value != s.flag
      then State(asked.value, s.calls[c := Call(asked, Some(s.flag))])
      else s.(calls := s.calls[c := Call(asked, None)])
    case End(c) =>
      State(if s.calls[c].saved.Some? then s.calls[c].saved.value else s.flag, s.calls - {c})
  }

  /** A call that nothing overlaps runs with the value it asked for, or the standing one, and leaves no trace. */
  lemma {:induction false} AloneOverride(s: State, c: int, asked: Option<bool>)
    requires c !in s.calls
    ensures var s' := Moved(s, Begin(c, asked));
      && s'.flag == (if asked == None then s.flag else asked.value)
      && c in s'.calls && Moved(s', End(c)) == s
  {
    var s' := Moved(s, Begin(c, asked));
    assert s'.calls - {c} == s.calls;
  }

  ghost predicate IsRun(trace: seq<State>, moves: seq<Move>, original: bool) {
    && |trace| == |moves| + 1
    && trace[0] == State(original, map[])
    && forall i | 0 <= i < |moves| :: Enabled(trace[i], moves[i]) && trace[i + 1] == Moved(trace[i], moves[i])
  }

  /** No two calls in flight ask for different values. */
  ghost predicate Agree(s: State) {
    forall c, d | c in s.calls && d in s.calls && s.calls[c].asked.Some? && s.calls[d].asked.Some? ::
      s.calls[c].asked == s.calls[d].asked
  }

  ghost predicate Holds(s: State, c: int) {
    c in s.calls && s.calls[c].saved.Some?
  }

  /** At most one call holds an override, and the flag is off its original value just while one does. */
  ghost predicate Controlled(s: State, original: bool) {
    && (forall c, d | Holds(s, c) && Holds(s, d) :: c == d)
    && (forall c | Holds(s, c) :: s.calls[c].asked == Some(!original) && s.calls[c].saved == Some(original))
    && (s.flag != original <==> exists c :: Holds(s, c))
  }

  lemma {:induction false} BeginControlled(s: State, v: Move, original: bool)
    requires v.Begin? && Enabled(s, v) && Controlled(s, original) && Agree(Moved(s, v))
    ensures Controlled(Moved(s, v), original)
  {
    var s' := Moved(s, v);
    if v.asked.Some? && v.asked.value != s.flag {
      forall c | c in s.calls
        ensures s'.calls[c] == s.calls[c] && (s.calls[c].asked.Some? ==> s.calls[c].asked == v.asked)
      {
        assert v.c in s'.calls && c in s'.calls;
      }
      forall c | c in s.calls ensures Holds(s', c) <==> Holds(s, c) {
      }
      assert Holds(s', v.c);
    } else {
      forall c ensures Holds(s', c) <==> Holds(s, c) {
      }
    }
  }

  lemma {:induction false} EndControlled(s: State, v: Move, original: bool)
    requires v.End? && Enabled(s, v) && Controlled(s, original)
    ensures Controlled(Moved(s, v), original)
  {
    var s' := Moved(s, v);
    forall c ensures Holds(s', c) <==> Holds(s, c) && c != v.c {
    }
    if Holds(s, v.c) {
      assert s'.flag == original;
    } else if s.flag != original {
      var c :| Holds(s, c);
      assert Holds(s', c);
    }
  }

  lemma {:induction false} RunControlled(trace: seq<State>, moves: seq<Move>, original: bool, i: nat)
    requires IsRun(trace, moves, original) && i < |trace|
    requires forall j | 0 <= j < |trace| :: Agree(trace[j])
    ensures Controlled(trace[i], original)
  {
    if i > 0 {
      RunControlled(trace, moves, original, i - 1);
      assert trace[i] == Moved(trace[i - 1], moves[i - 1]);
      if moves[i - 1].Begin? {
        BeginControlled(trace[i - 1], moves[i - 1], original);
      } else {
        EndControlled(trace[i - 1], moves[i - 1], original);
      }
    }
  }

  /**
   In every interleaving in which overlapping calls agree, at most one call holds an override, the
   flag is off its original value only while it does, and it is back once all calls have ended.
   */
  lemma {:induction false} OverrideRestored(trace: seq<State>, moves: seq<Move>, original: bool, i: nat)
    requires IsRun(trace, moves, original) && i < |trace|
    requires forall j | 0 <= j < |trace| :: Agree(trace[j])
    ensures forall c, d | Holds(trace[i], c) && Holds(trace[i], d) :: c == d
    ensures trace[i].flag != original ==> exists c :: Holds(trace[i], c)
    ensures trace[i].calls == map[] ==> trace[i].flag == original
  {
    RunControlled(trace, moves, original, i);
  }

  /** The moves all belong to the calls with arguments `args`, each under its own number. */
  ghost predicate Schedules(moves: seq<Move>, args: seq<Option<bool>>) {
    forall i | 0 <= i < |moves| && moves[i].Begin? ::
      0 <= moves[i].c < |args| && moves[i].asked == args[moves[i].c]
  }

  ghost predicate AlwaysRestored(args: seq<Option<bool>>, original: bool) {
    forall trace: seq<State>, moves: seq<Move>
      | IsRun(trace, moves, original) && Schedules(moves, args) && trace[|trace| - 1].calls == map[] ::
      trace[|trace| - 1].flag == original
  }

  lemma {:induction false} ScheduledAgree(trace: seq<State>, moves: seq<Move>, args: seq<Option<bool>>,
        original: bool, i: nat)
    requires IsRun(trace, moves, original) && Schedules(moves, args) && i < |trace|
    ensures forall c | c in trace[i].calls :: 0 <= c < |args| && trace[i].calls[c].asked == args[c]
  {
    if i > 0 {
      ScheduledAgree(trace, moves, args, original, i - 1);
      assert trace[i] == Moved(trace[i - 1], moves[i - 1]);
    }
  }

  /** Two overlapping calls that disagree, each ending in the order it began, leave the flag turned around. */
  lemma {:induction false} CrossedOverrides(args: seq<Option<bool>>, original: bool, a: int, b: int)
    requires 0 <= a < |args| && 0 <= b < |args|
    requires args[a] == Some(!original) && args[b] == Some(original)
    ensures !AlwaysRestored(args, original)
  {
    var moves := [Begin(a, args[a]), Begin(b, args[b]), End(a), End(b)];
    var s0 := State(original, map[]);
    var s1 := State(!original, map[a := Call(args[a], Some(original))]);
    var s2 := State(original, map[a := Call(args[a], Some(original)), b := Call(args[b], Some(!original))]);
    var s3 := State(original, map[b := Call(args[b], Some(!original))]);
    var s4 := State(!original, map[]);
    assert Moved(s0, moves[0]) == s1 && Moved(s1, moves[1]) == s2;
    assert Moved(s2, moves[2]) == s3 && Moved(s3, moves[3]) == s4;
    var trace := [s0, s1, s2, s3, s4];
    assert IsRun(trace, moves, original) && Schedules(moves, args);
    assert trace[|trace| - 1].calls == map[] && trace[|trace| - 1].flag != original;
  }

  /** Calls may overlap in every way without losing the flag exactly when no two of them ask for opposite values. */
  lemma {:induction false} RestoredExactly(args: seq<Option<bool>>, original: bool)
    ensures AlwaysRestored(args, original) <==> !(Some(true) in args && Some(false) in args)
  {
    if Some(true) in args && Some(false) in args {
      var a :| 0 <= a < |args| && args[a] == Some(!original);
      var b :| 0 <= b < |args| && args[b] == Some(original);
      CrossedOverrides(args, original, a, b);
    } else {
      forall trace: seq<State>, moves: seq<Move>
        | IsRun(trace, moves, original) && Schedules(moves, args) && trace[|trace| - 1].calls == map[]
        ensures trace[|trace| - 1].flag == original
      {
        forall j | 0 <= j < |trace| ensures Agree(trace[j]) {
          ScheduledAgree(trace, moves, args, original, j);
          forall c, d | c in trace[j].calls && d in trace[j].calls
              && trace[j].calls[c].asked.Some? && trace[j].calls[d].asked.Some?
            ensures trace[j].calls[c].asked == trace[j].calls[d].asked
          {
            var x, y := args[c].value, args[d].value;
            assert args[c] == Some(x) && Some(x) in args;
            assert args[d] == Some(y) && Some(y) in args;
          }
        }
        OverrideRestored(trace, moves, original, |trace| - 1);
      }
    }
  }
}
