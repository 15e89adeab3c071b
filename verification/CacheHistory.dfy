/**
 What the decorated endpoints answer in sequential runs, said without a cache: a read is answered with
 the result of an earlier read for as long as that is fresh, and by its handler otherwise.
 */
module CacheHistory {
  import opened Wrappers
  import opened Expiring
  import opened CacheDecorator

  // ------------------------------------------------------------- the answers, from the requests alone

  /** The database before request `n`. */
  function DbAt<DB, W, V>(app: App<DB, W, V>, db: DB, reqs: seq<Request<W>>, n: nat): DB
    requires n <= |reqs|
  {
    if n == 0 then db
    else
      var before := DbAt(app, db, reqs, n - 1);
      if reqs[n - 1].Write? then app.apply(before, reqs[n - 1].w) else before
  }

  predicate Reads<W>(reqs: seq<Request<W>>, i: int, key: string) {
    0 <= i < |reqs| && reqs[i].Read? && !reqs[i].misused && reqs[i].key == key
  }

  predicate Kills<DB, W, V>(app: App<DB, W, V>, r: Request<W>, key: string) {
    r.Write? && (key == app.ownKey(r.w) || key in app.extraKeys(r.w))
  }

  predicate Undisturbed<DB, W, V>(app: App<DB, W, V>, reqs: seq<Request<W>>, j: nat, i: nat, key: string)
    requires i <= |reqs|
  {
    forall k | j < k < i :: !Kills(app, reqs[k], key)
  }

  /** The handler's result at a read. */
  function Answered<DB, W, V>(app: App<DB, W, V>, db: DB, reqs: seq<Request<W>>, j: nat): V
    requires j < |reqs| && reqs[j].Read?
  {
    app.answer(DbAt(app, db, reqs, j), reqs[j].key)
  }

  /** `j` and `i` read one key less than the lifetime apart, nothing deletes it in between, and the result counts. */
  predicate Fresh<DB, W, V>(app: App<DB, W, V>, db: DB, reqs: seq<Request<W>>, j: nat, i: nat, expiration: int)
    requires j < i < |reqs|
  {
    && reqs[i].Read? && Reads(reqs, j, reqs[i].key)
    && Undisturbed(app, reqs, j, i, reqs[i].key)
    && reqs[i].now - reqs[j].now < expiration
    && app.truthy(app.reread(Answered(app, db, reqs, j)))
  }

  /** The read `i` runs its handler: no earlier read that did is still fresh. */
  predicate Runs<DB, W, V>(app: App<DB, W, V>, db: DB, reqs: seq<Request<W>>, i: nat, expiration: int)
    requires i < |reqs|
    decreases i
  {
    && reqs[i].Read? && !reqs[i].misused
    && forall j | 0 <= j < i :: !(Fresh(app, db, reqs, j, i, expiration) && Runs(app, db, reqs, j, expiration))
  }

  predicate Serves<DB, W, V>(app: App<DB, W, V>, db: DB, reqs: seq<Request<W>>, j: nat, i: nat, expiration: int)
    requires i < |reqs|
  {
    j < i && Fresh(app, db, reqs, j, i, expiration) && Runs(app, db, reqs, j, expiration)
  }

  ghost predicate Ordered<W>(reqs: seq<Request<W>>) {
    forall i, j | 0 <= i <= j < |reqs| :: reqs[i].now <= reqs[j].now
  }

  // ------------------------------------------------------------- the cache holds that history

  /** Database and cache before request `n`. */
  function Reached<DB, W, V>(app: App<DB, W, V>, db: DB, reqs: seq<Request<W>>, n: nat, expiration: int)
    : (DB, Cache<V>)
    requires n <= |reqs|
  {
    if n == 0 then (db, map[])
    else
      var (d, c) := Reached(app, db, reqs, n - 1, expiration);
      var (d', c', response) := Handled(app, d, c, reqs[n - 1], expiration);
      (d', c')
  }

  /** `j` is the last read of `key` before `n` that ran its handler. */
  ghost predicate LastRun<DB, W, V>(app: App<DB, W, V>, db: DB, reqs: seq<Request<W>>, j: nat, n: nat, key: string,
                                    expiration: int)
    requires n <= |reqs|
  {
    && j < n && Reads(reqs, j, key) && Runs(app, db, reqs, j, expiration)
    && forall k | j < k < n && Reads(reqs, k, key) :: !Runs(app, db, reqs, k, expiration)
  }

  ghost predicate Filled<DB, W, V>(app: App<DB, W, V>, db: DB, reqs: seq<Request<W>>, j: nat, n: nat, key: string,
                                   e: Entry<V>, expiration: int)
    requires n <= |reqs|
  {
    && LastRun(app, db, reqs, j, n, key, expiration) && Undisturbed(app, reqs, j, n, key)
    && e == Entry(Answered(app, db, reqs, j), reqs[j].now + expiration)
  }

  /** What is cached under `key` is the result of its last run; nothing is only after a deletion. */
  ghost predicate Holds<DB, W, V>(app: App<DB, W, V>, db: DB, reqs: seq<Request<W>>, n: nat, c: Cache<V>, key: string,
                                  expiration: int)
    requires n <= |reqs|
  {
    && (key in c ==> exists j :: Filled(app, db, reqs, j, n, key, c[key], expiration))
    && (key !in c ==> forall j | 0 <= j < n && Reads(reqs, j, key) && Runs(app, db, reqs, j, expiration) ::
          !Undisturbed(app, reqs, j, n, key))
  }

  /** Only the last run of a key can serve a later read of it. */
  lemma {:induction false} ServedByLast<DB, W, V>(app: App<DB, W, V>, db: DB, reqs: seq<Request<W>>, j: nat, i: nat,
        last: nat, expiration: int)
    requires Ordered(reqs) && i < |reqs| && reqs[i].Read? && Serves(app, db, reqs, j, i, expiration)
    requires LastRun(app, db, reqs, last, i, reqs[i].key, expiration)
    ensures j == last
  {
    if j < last {
      assert reqs[last].now <= reqs[i].now;
      assert Fresh(app, db, reqs, j, last, expiration);
    }
  }

  /** The cache has a value for the read exactly when an earlier read serves it. */
  lemma {:induction false} HitIsServed<DB, W, V>(app: App<DB, W, V>, db: DB, reqs: seq<Request<W>>, i: nat, c: Cache<V>,
        expiration: int)
    requires Ordered(reqs) && i < |reqs| && reqs[i].Read? && !reqs[i].misused
    requires Holds(app, db, reqs, i, c, reqs[i].key, expiration)
    ensures var hit := Fetched(c, reqs[i].key, reqs[i].now);
      if hit.Some? && app.truthy(app.reread(hit.value))
      then exists j :: Serves(app, db, reqs, j, i, expiration) && hit.value == Answered(app, db, reqs, j)
      else Runs(app, db, reqs, i, expiration)
  {
    var key := reqs[i].key;
    var hit := Fetched(c, key, reqs[i].now);
    if key in c {
      var last: nat :| Filled(app, db, reqs, last, i, key, c[key], expiration);
      if hit.Some? && app.truthy(app.reread(hit.value)) {
        assert Serves(app, db, reqs, last, i, expiration);
      } else {
        forall j: nat | j < i ensures !Serves(app, db, reqs, j, i, expiration) {
          if Serves(app, db, reqs, j, i, expiration) {
            ServedByLast(app, db, reqs, j, i, last, expiration);
          }
        }
      }
    }
  }

  lemma {:induction false} HoldsOn<DB, W, V>(app: App<DB, W, V>, db: DB, reqs: seq<Request<W>>, i: nat, d: DB,
        c: Cache<V>, key: string, expiration: int)
    requires Ordered(reqs) && i < |reqs| && d == DbAt(app, db, reqs, i)
    requires Holds(app, db, reqs, i, c, key, expiration)
    requires reqs[i].Read? ==> Holds(app, db, reqs, i, c, reqs[i].key, expiration)
    ensures Holds(app, db, reqs, i + 1, Handled(app, d, c, reqs[i], expiration).1, key, expiration)
  {
    var c' := Handled(app, d, c, reqs[i], expiration).1;
    if Reads(reqs, i, key) {
      HitIsServed(app, db, reqs, i, c, expiration);
      if Runs(app, db, reqs, i, expiration) {
        RunFills(app, db, reqs, i, c, c', d, expiration);
      } else {
        Unchanged(app, db, reqs, i, c, c', key, expiration);
      }
    } else if !Kills(app, reqs[i], key) {
      Unchanged(app, db, reqs, i, c, c', key, expiration);
    }
  }

  lemma {:induction false} RunFills<DB, W, V>(app: App<DB, W, V>, db: DB, reqs: seq<Request<W>>, i: nat, c: Cache<V>,
        c': Cache<V>, d: DB, expiration: int)
    requires i < |reqs| && Runs(app, db, reqs, i, expiration) && d == DbAt(app, db, reqs, i)
    requires c' == c[reqs[i].key := Entry(app.answer(d, reqs[i].key), reqs[i].now + expiration)]
    ensures Holds(app, db, reqs, i + 1, c', reqs[i].key, expiration)
  {
    assert Filled(app, db, reqs, i, i + 1, reqs[i].key, c'[reqs[i].key], expiration);
  }

  lemma {:induction false} Unchanged<DB, W, V>(app: App<DB, W, V>, db: DB, reqs: seq<Request<W>>, i: nat, c: Cache<V>,
        c': Cache<V>, key: string, expiration: int)
    requires i < |reqs| && Holds(app, db, reqs, i, c, key, expiration)
    requires !Kills(app, reqs[i], key) && (Reads(reqs, i, key) ==> !Runs(app, db, reqs, i, expiration))
    requires (key in c' <==> key in c) && (key in c ==> c'[key] == c[key])
    ensures Holds(app, db, reqs, i + 1, c', key, expiration)
  {
    if key in c {
      var j: nat :| Filled(app, db, reqs, j, i, key, c[key], expiration);
      assert Filled(app, db, reqs, j, i + 1, key, c'[key], expiration);
    }
  }

  lemma {:induction false} ReachedHolds<DB, W, V>(app: App<DB, W, V>, db: DB, reqs: seq<Request<W>>, n: nat,
        key: string, expiration: int)
    requires Ordered(reqs) && n <= |reqs|
    ensures var (d, c) := Reached(app, db, reqs, n, expiration);
      d == DbAt(app, db, reqs, n) && Holds(app, db, reqs, n, c, key, expiration)
  {
    if n > 0 {
      ReachedHolds(app, db, reqs, n - 1, key, expiration);
      if reqs[n - 1].Read? {
        ReachedHolds(app, db, reqs, n - 1, reqs[n - 1].key, expiration);
      }
      var (d, c) := Reached(app, db, reqs, n - 1, expiration);
      HoldsOn(app, db, reqs, n - 1, d, c, key, expiration);
    }
  }

  // ------------------------------------------------------------- what is answered

  /** The response that the history of requests calls for. */
  ghost predicate Due<DB, W, V>(app: App<DB, W, V>, db: DB, reqs: seq<Request<W>>, i: nat,
                                response: Result<V, Failure>, expiration: int)
    requires i < |reqs|
  {
    match reqs[i]
    case Write(w, _) => response == Ok(app.reply(DbAt(app, db, reqs, i), w))
    case Read(key, misused, _) =>
      if misused then response == Err(InvalidRequest)
      else
        && (Runs(app, db, reqs, i, expiration) ==> response == Ok(app.answer(DbAt(app, db, reqs, i), key)))
        && (!Runs(app, db, reqs, i, expiration) ==>
              exists j :: && Serves(app, db, reqs, j, i, expiration)
                          && response == Ok(app.reread(Answered(app, db, reqs, j))))
  }

  lemma {:induction false} HandledDue<DB, W, V>(app: App<DB, W, V>, db: DB, reqs: seq<Request<W>>, i: nat,
        expiration: int)
    requires Ordered(reqs) && i < |reqs|
    ensures var (d, c) := Reached(app, db, reqs, i, expiration);
      Due(app, db, reqs, i, Handled(app, d, c, reqs[i], expiration).2, expiration)
  {
    var key := if reqs[i].Read? then reqs[i].key else "";
    ReachedHolds(app, db, reqs, i, key, expiration);
    if reqs[i].Read? && !reqs[i].misused {
      var (d, c) := Reached(app, db, reqs, i, expiration);
      HitIsServed(app, db, reqs, i, c, expiration);
    }
  }

  lemma {:induction false} ReachedFirst<DB, W, V>(app: App<DB, W, V>, db: DB, c: Cache<V>, done: seq<Request<W>>,
        reqs: seq<Request<W>>, start: DB, i: nat, expiration: int)
    requires i < |reqs| && Reached(app, start, done + reqs, |done|, expiration) == (db, c)
    ensures |Responses(app, db, c, reqs, expiration)| == |reqs|
    ensures var (d', c') := Reached(app, start, done + reqs, |done| + i, expiration);
      Responses(app, db, c, reqs, expiration)[i] == Handled(app, d', c', reqs[i], expiration).2
    decreases |reqs|
  {
    var (db', c', response) := Handled(app, db, c, reqs[0], expiration);
    var all, more := done + reqs, done + [reqs[0]];
    assert all == more + reqs[1..] && all[|done|] == reqs[0];
    assert Reached(app, start, all, |done| + 1, expiration) == (db', c');
    if |reqs| > 1 {
      ReachedFirst(app, db', c', more, reqs[1..], start, if i > 0 then i - 1 else 0, expiration);
    }
  }

  lemma {:induction false} ResponseAt<DB, W, V>(app: App<DB, W, V>, db: DB, reqs: seq<Request<W>>, i: nat,
        expiration: int)
    requires i < |reqs|
    ensures |Responses(app, db, map[], reqs, expiration)| == |reqs|
    ensures var (d, c) := Reached(app, db, reqs, i, expiration);
      Responses(app, db, map[], reqs, expiration)[i] == Handled(app, d, c, reqs[i], expiration).2
  {
    assert [] + reqs == reqs;
    ReachedFirst(app, db, map[], [], reqs, db, i, expiration);
  }

  /**
   Over every sequential run, whatever the application: each read is answered with the handler's
   present result, unless an earlier read of its key that ran its handler is less than the lifetime
   old with no deletion of the key since, and then with that result as the backend gives it back.
   */
  lemma {:induction false} AnswersExactly<DB, W, V>(app: App<DB, W, V>, db: DB, reqs: seq<Request<W>>, i: nat,
        expiration: int)
    requires Ordered(reqs) && i < |reqs|
    ensures |Responses(app, db, map[], reqs, expiration)| == |reqs|
    ensures Due(app, db, reqs, i, Responses(app, db, map[], reqs, expiration)[i], expiration)
  {
    ResponseAt(app, db, reqs, i, expiration);
    HandledDue(app, db, reqs, i, expiration);
  }

  /** At most one read can serve another, so the answer is determined. */
  lemma {:induction false} OneServes<DB, W, V>(app: App<DB, W, V>, db: DB, reqs: seq<Request<W>>, i: nat, j: nat,
        k: nat, expiration: int)
    requires Ordered(reqs) && i < |reqs|
    requires Serves(app, db, reqs, j, i, expiration) && Serves(app, db, reqs, k, i, expiration)
    ensures j == k
  {
    if j < k {
      assert reqs[k].now <= reqs[i].now;
      assert Fresh(app, db, reqs, j, k, expiration);
    } else if k < j {
      assert reqs[j].now <= reqs[i].now;
      assert Fresh(app, db, reqs, k, j, expiration);
    }
  }

  /** No answer is older than the lifetime: it is the handler's result now, or at a request less than that ago. */
  lemma {:induction false} AgeBounded<DB, W, V>(app: App<DB, W, V>, db: DB, reqs: seq<Request<W>>, i: nat,
        expiration: int)
    requires Ordered(reqs) && i < |reqs| && reqs[i].Read? && !reqs[i].misused
    ensures |Responses(app, db, map[], reqs, expiration)| == |reqs|
    ensures var response := Responses(app, db, map[], reqs, expiration)[i];
      || response == Ok(app.answer(DbAt(app, db, reqs, i), reqs[i].key))
      || exists j: nat ::
           && j < i && reqs[i].now - expiration < reqs[j].now
           && response == Ok(app.reread(app.answer(DbAt(app, db, reqs, j), reqs[i].key)))
  {
    AnswersExactly(app, db, reqs, i, expiration);
  }
}
