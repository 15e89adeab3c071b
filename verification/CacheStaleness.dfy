/**
 The cache decorator with GETs and writes in flight together: a GET may read the database, lose time,
 and store its answer after others have changed or deleted what it read. However the steps
 interleave, the age of a cached answer is bounded.
 */
module CacheStaleness {
  import opened Expiring
  import opened Wrappers
  import CacheDecorator

  /** The answers every key has from time `since` on, as far as the handlers can tell. */
  datatype Version<V> = Version(answers: map<string, V>, since: int)

  /** A GET that missed: when it started and, once the handler has run, what it answered. */
  datatype Call<V> = Call(key: string, started: int, result: Option<V>)

  /** A record of one store: which answer, by a GET started when, at what time. Only for the claims. */
  datatype Stored<V> = Stored(key: string, value: V, started: int, at: int)

  datatype State<V> = State(
    clock: int,
    history: seq<Version<V>>,
    cache: map<string, Entry<V>>,
    calls: map<int, Call<V>>,
    stores: seq<Stored<V>>)

  datatype Move<V> =
    | Tick(span: nat)
    | Write(answers: map<string, V>)
    | Delete(key: string)
    | Start(c: int, key: string)
    | Handle(c: int)
    | Store(c: int)

  ghost predicate Enabled<V>(s: State<V>, v: Move<V>) {
    && s.history != []
    && match v
       case Tick(_) => true
       case Write(_) => true
       case Delete(_) => true
       case Start(c, key) => c !in s.calls
       case Handle(c) =>
         && c in s.calls && s.calls[c].result.None?
         && s.calls[c].key in s.history[|s.history| - 1].answers
       case Store(c) => c in s.calls && s.calls[c].result.Some?
  }

  /**
   `Start` is a GET that finds nothing it can return; `Write` is the database effect of a write,
   whose deletions follow as `Delete` steps at any later time. A hit changes nothing.
   */
  function Moved<V>(s: State<V>, v: Move<V>, expiration: int): State<V>
    requires Enabled(s, v)
  {
    match v
    case Tick(span) => s.(clock := s.clock + span)
    case Write(answers) => s.(history := s.history + [Version(answers, s.clock)])
    case Delete(key) => s.(cache := s.cache - {key})
    case Start(c, key) => s.(calls := s.calls[c := Call(key, s.clock, None)])
    case Handle(c) =>
      var call := s.calls[c];
      s.(calls := s.calls[c := call.(result := Some(s.history[|s.history| - 1].answers[call.key]))])
    case Store(c) =>
      var call := s.calls[c];
      s.(cache := s.cache[call.key := Entry(call.result.value, s.clock + expiration)],
         calls := s.calls - {c},
         stores := s.stores + [Stored(call.key, call.result.value, call.started, s.clock)])
  }

  ghost predicate IsRun<V>(trace: seq<State<V>>, moves: seq<Move<V>>, expiration: int) {
    && |trace| == |moves| + 1
    && |trace[0].history| == 1 && trace[0].history[0].since == trace[0].clock
    && trace[0].cache == map[] && trace[0].calls == map[] && trace[0].stores == []
    && forall i | 0 <= i < |moves| ::
         Enabled(trace[i], moves[i]) && trace[i + 1] == Moved(trace[i], moves[i], expiration)
  }

  /** `v` was what the handler would have answered for `key` at the instant `at`. */
  ghost predicate TrueAt<V>(s: State<V>, key: string, v: V, at: int) {
    exists i :: IsVersion(s, i, key, v, at)
  }

  ghost predicate IsVersion<V>(s: State<V>, i: int, key: string, v: V, at: int) {
    && 0 <= i < |s.history|
    && key in s.history[i].answers && s.history[i].answers[key] == v
    && s.history[i].since <= at <= s.clock
    && (i + 1 < |s.history| ==> at <= s.history[i + 1].since)
  }

  ghost predicate TrueBetween<V>(s: State<V>, key: string, v: V, from: int, to: int) {
    exists at :: from <= at <= to && TrueAt(s, key, v, at)
  }

  /** The most recent store under `key`. */
  function LastStore<V>(stores: seq<Stored<V>>, key: string): Option<Stored<V>> {
    if stores == [] then None
    else if stores[|stores| - 1].key == key then Some(stores[|stores| - 1])
    else LastStore(stores[..|stores| - 1], key)
  }

  /** The last store under `key` filled its entry, and the answer was true at an instant of the GET that made it. */
  ghost predicate Explained<V>(s: State<V>, key: string, expiration: int)
    requires key in s.cache
  {
    var last := LastStore(s.stores, key);
    && last.Some?
    && s.cache[key] == Entry(last.value.value, last.value.at + expiration)
    && TrueBetween(s, key, last.value.value, last.value.started, last.value.at)
  }

  ghost predicate Inv<V>(s: State<V>, expiration: int) {
    && s.history != []
    && s.history[|s.history| - 1].since <= s.clock
    && (forall c | c in s.calls && s.calls[c].result.Some? ::
          TrueBetween(s, s.calls[c].key, s.calls[c].result.value, s.calls[c].started, s.clock))
    && (forall c | c in s.calls :: s.calls[c].started <= s.clock)
    && forall key | key in s.cache :: Explained(s, key, expiration)
  }

  /** Time has gone on, and history may have got one more version. */
  ghost predicate Later<V>(s: State<V>, s': State<V>) {
    && s.clock <= s'.clock
    && |s.history| <= |s'.history| <= |s.history| + 1
    && s'.history[..|s.history|] == s.history
    && (|s'.history| > |s.history| ==> s'.history[|s.history|].since == s.clock)
  }

  /** What was true at an instant stays so as history goes on. */
  lemma {:induction false} TruthStays<V>(s: State<V>, s': State<V>, key: string, v: V, from: int, to: int)
    requires TrueBetween(s, key, v, from, to)
    requires Later(s, s')
    ensures TrueBetween(s', key, v, from, to)
  {
    var at :| from <= at <= to && TrueAt(s, key, v, at);
    var i :| IsVersion(s, i, key, v, at);
    assert s'.history[i] == s'.history[..|s.history|][i];
    assert i + 1 < |s.history| ==> s'.history[i + 1] == s'.history[..|s.history|][i + 1];
    assert IsVersion(s', i, key, v, at);
    assert TrueAt(s', key, v, at);
  }

  lemma {:induction false} ExplainedStays<V>(s: State<V>, s': State<V>, key: string, expiration: int)
    requires key in s.cache && Explained(s, key, expiration)
    requires key in s'.cache && s'.cache[key] == s.cache[key]
    requires Later(s, s') && LastStore(s'.stores, key) == LastStore(s.stores, key)
    ensures Explained(s', key, expiration)
  {
    var r := LastStore(s.stores, key).value;
    TruthStays(s, s', key, r.value, r.started, r.at);
  }

  /** Steps that neither end the handler nor store keep every explanation. */
  lemma {:induction false} QuietMove<V>(s: State<V>, v: Move<V>, expiration: int)
    requires Inv(s, expiration) && Enabled(s, v) && !v.Handle? && !v.Store?
    ensures Inv(Moved(s, v, expiration), expiration)
  {
    var s' := Moved(s, v, expiration);
    assert Later(s, s');
    forall c | c in s'.calls && s'.calls[c].result.Some?
      ensures TrueBetween(s', s'.calls[c].key, s'.calls[c].result.value, s'.calls[c].started, s'.clock)
    {
      TruthStays(s, s', s.calls[c].key, s.calls[c].result.value, s.calls[c].started, s.clock);
    }
    forall key | key in s'.cache ensures Explained(s', key, expiration) {
      ExplainedStays(s, s', key, expiration);
    }
  }

  lemma {:induction false} HandleMove<V>(s: State<V>, v: Move<V>, expiration: int)
    requires Inv(s, expiration) && Enabled(s, v) && v.Handle?
    ensures Inv(Moved(s, v, expiration), expiration)
  {
    var s', call := Moved(s, v, expiration), s.calls[v.c];
    forall c | c in s'.calls && s'.calls[c].result.Some?
      ensures TrueBetween(s', s'.calls[c].key, s'.calls[c].result.value, s'.calls[c].started, s'.clock)
    {
      if c == v.c {
        assert IsVersion(s', |s.history| - 1, call.key, s'.calls[c].result.value, s.clock);
        assert TrueAt(s', call.key, s'.calls[c].result.value, s.clock);
      } else {
        TruthStays(s, s', s.calls[c].key, s.calls[c].result.value, s.calls[c].started, s.clock);
      }
    }
    forall key | key in s'.cache ensures Explained(s', key, expiration) {
      ExplainedStays(s, s', key, expiration);
    }
  }

  lemma {:induction false} StoreMove<V>(s: State<V>, v: Move<V>, expiration: int)
    requires Inv(s, expiration) && Enabled(s, v) && v.Store?
    ensures Inv(Moved(s, v, expiration), expiration)
  {
    var s', call := Moved(s, v, expiration), s.calls[v.c];
    forall c | c in s'.calls && s'.calls[c].result.Some?
      ensures TrueBetween(s', s'.calls[c].key, s'.calls[c].result.value, s'.calls[c].started, s'.clock)
    {
      TruthStays(s, s', s.calls[c].key, s.calls[c].result.value, s.calls[c].started, s.clock);
    }
    assert s'.stores[..|s'.stores| - 1] == s.stores;
    forall key | key in s'.cache ensures Explained(s', key, expiration) {
      if key == call.key {
        TruthStays(s, s', call.key, call.result.value, call.started, s.clock);
      } else {
        ExplainedStays(s, s', key, expiration);
      }
    }
  }

  lemma {:induction false} RunInv<V>(trace: seq<State<V>>, moves: seq<Move<V>>, expiration: int, i: nat)
    requires IsRun(trace, moves, expiration) && i < |trace|
    ensures Inv(trace[i], expiration)
  {
    if i > 0 {
      RunInv(trace, moves, expiration, i - 1);
      var s, v := trace[i - 1], moves[i - 1];
      assert trace[i] == Moved(s, v, expiration);
      match v {
        case Handle(_) => HandleMove(s, v, expiration);
        case Store(_) => StoreMove(s, v, expiration);
        case _ => QuietMove(s, v, expiration);
      }
    }
  }

  /**
   In every reachable state, whatever the cache returns at time `t` is what the last GET to store under
   the key put there, and it was the handler's true answer at some instant later than `t - expiration`
   less the time that GET took.
   */
  lemma {:induction false} StalenessBounded<V>(trace: seq<State<V>>, moves: seq<Move<V>>, expiration: int, i: nat,
        key: string)
    requires IsRun(trace, moves, expiration) && i < |trace|
    requires Fetched(trace[i].cache, key, trace[i].clock).Some?
    ensures var s, last := trace[i], LastStore(trace[i].stores, key);
      && last.Some? && last.value.started <= last.value.at
      && s.cache[key] == Entry(last.value.value, last.value.at + expiration)
      && exists at :: && TrueAt(s, key, last.value.value, at)
                      && s.clock - expiration - (last.value.at - last.value.started) < at
  {
    RunInv(trace, moves, expiration, i);
    var r := LastStore(trace[i].stores, key).value;
    var at :| r.started <= at <= r.at && TrueAt(trace[i], key, r.value, at);
  }

  /** A slow GET overtaken by a write and its deletion, and then a hit in the last instant before its entry expires. */
  function SlowGet(delay: nat, expiration: int): seq<Move<int>> {
    [Start(0, "k"), Handle(0), Write(map["k" := 1]), Delete("k"), Tick(delay), Store(0),
     Tick(if expiration > 1 then expiration - 1 else 0)]
  }

  /** The bound cannot be improved: such a hit returns an answer that was true at no later instant than 0. */
  lemma {:induction false} StalenessReached(delay: nat, expiration: int)
    requires expiration >= 1
    ensures var moves := SlowGet(delay, expiration);
      var s0 := State(0, [Version(map["k" := 0], 0)], map[], map[], []);
      var s1 := Moved(s0, moves[0], expiration);
      var s2 := Moved(s1, moves[1], expiration);
      var s3 := Moved(s2, moves[2], expiration);
      var s4 := Moved(s3, moves[3], expiration);
      var s5 := Moved(s4, moves[4], expiration);
      var s6 := Moved(s5, moves[5], expiration);
      var s7 := Moved(s6, moves[6], expiration);
      && IsRun([s0, s1, s2, s3, s4, s5, s6, s7], moves, expiration)
      && s7.clock == delay + expiration - 1
      && Fetched(s7.cache, "k", s7.clock) == Some(0)
      && LastStore(s7.stores, "k") == Some(Stored("k", 0, 0, delay))
      && forall at | TrueAt(s7, "k", 0, at) :: at <= 0
  {
  }

  // ------------------------------------------------------------- the steps of one request

  /** `s` after a deletion of each of `keys`. */
  function Deleted<V>(s: State<V>, keys: seq<string>, expiration: int): (s': State<V>)
    requires s.history != []
    ensures s'.history == s.history
  {
    if keys == [] then s else Moved(Deleted(s, keys[..|keys| - 1], expiration), Delete(keys[|keys| - 1]), expiration)
  }

  lemma {:induction false} DeletedCache<V>(s: State<V>, keys: seq<string>, expiration: int)
    requires s.history != []
    ensures Deleted(s, keys, expiration) == s.(cache := s.cache - CacheDecorator.KeySet(keys))
  {
    if keys == [] {
      assert s.cache - CacheDecorator.KeySet(keys) == s.cache;
    } else {
      var front, key := keys[..|keys| - 1], keys[|keys| - 1];
      DeletedCache(s, front, expiration);
      assert keys == front + [key];
      assert CacheDecorator.KeySet(keys) == CacheDecorator.KeySet(front) + {key};
      assert s.cache - CacheDecorator.KeySet(front) - {key} == s.cache - CacheDecorator.KeySet(keys);
    }
  }

  /** A read that nothing overlaps and that misses is a start, a handler run and a store at one instant. */
  lemma {:induction false} ReadIsSteps<DB, W, V>(app: CacheDecorator.App<DB, W, V>, db: DB, s: State<V>, c: int,
        key: string, expiration: int)
    requires s.history != [] && c !in s.calls
    requires var answers := s.history[|s.history| - 1].answers; key in answers && answers[key] == app.answer(db, key)
    requires var hit := Fetched(s.cache, key, s.clock); hit.Some? ==> !app.truthy(app.reread(hit.value))
    ensures var s1 := Moved(s, Start(c, key), expiration);
      Enabled(s1, Handle(c)) &&
      var s2 := Moved(s1, Handle(c), expiration);
      Enabled(s2, Store(c)) &&
      var s3 := Moved(s2, Store(c), expiration);
      var request: CacheDecorator.Request<W> := CacheDecorator.Read(key, false, s.clock);
      s3 == s.(cache := CacheDecorator.Handled(app, db, s.cache, request, expiration).1, stores := s3.stores)
  {
    assert s.calls[c := Call(key, s.clock, None)] - {c} == s.calls;
    assert s.calls[c := Call(key, s.clock, Some(app.answer(db, key)))] - {c} == s.calls;
  }

  /** A write that nothing overlaps is its effect followed by its deletions. */
  lemma {:induction false} WriteIsSteps<DB, W, V>(app: CacheDecorator.App<DB, W, V>, db: DB, s: State<V>,
        answers: map<string, V>, w: W, expiration: int)
    requires s.history != []
    ensures var s1 := Moved(s, Write(answers), expiration);
      var request := CacheDecorator.Write(w, s.clock);
      Deleted(s1, [app.ownKey(w)] + app.extraKeys(w), expiration)
      == s1.(cache := CacheDecorator.Handled(app, db, s.cache, request, expiration).1)
  {
    var s1 := Moved(s, Write(answers), expiration);
    DeletedCache(s1, [app.ownKey(w)] + app.extraKeys(w), expiration);
  }
}
