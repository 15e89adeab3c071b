/**
 The cache decorator: GET endpoints read through the cache, all others delete keys after they ran.
 The application behind it, and what a value looks like after a trip through the backend, are
 parameters.
 */
module CacheDecorator {
  import opened Expiring
  import opened Wrappers

  /**
   `answer` is the encoded result of the GET endpoint that owns a key, `apply` and `reply` are the
   effect and the result of a write, `ownKey` and `extraKeys` the keys a write deletes. `reread` is
   what the backend's `get` makes of a value its `set` stored; `truthy` is Python's truth test.
   */
  datatype App<!DB, !W, !V> = App(
    answer: (DB, string) -> V,
    apply: (DB, W) -> DB,
    reply: (DB, W) -> V,
    ownKey: W -> string,
    extraKeys: W -> seq<string>,
    reread: V -> V,
    truthy: V -> bool)

  type Cache<V> = map<string, Entry<V>>

  /** `misused` marks a GET endpoint that was given keys to invalidate. */
  datatype Request<W> = Read(key: string, misused: bool, now: int) | Write(w: W, now: int)

  datatype Failure = InvalidRequest

  function DeletedKeys<DB, W, V>(app: App<DB, W, V>, w: W): set<string> {
    KeySet([app.ownKey(w)] + app.extraKeys(w))
  }

  function KeySet(keys: seq<string>): set<string> {
    set k | k in keys
  }

  /** One request: database and cache afterwards, and the response. */
  function Handled<DB, W, V>(app: App<DB, W, V>, db: DB, c: Cache<V>, req: Request<W>, expiration: int)
    : (DB, Cache<V>, Result<V, Failure>)
  {
    match req
    case Read(key, misused, now) =>
      if misused then (db, c, Err(InvalidRequest))
      else
        var hit := Fetched(c, key, now);
        if hit.Some? && app.truthy(app.reread(hit.value)) then (db, c, Result.Ok(app.reread(hit.value)))
        else (db, c[key := Entry(app.answer(db, key), now + expiration)], Result.Ok(app.answer(db, key)))
    case Write(w, now) =>
      (app.apply(db, w), c - DeletedKeys(app, w), Result.Ok(app.reply(db, w)))
  }

  /** The same request without the decorator. */
  function PlainHandled<DB, W, V>(app: App<DB, W, V>, db: DB, req: Request<W>): (DB, Result<V, Failure>) {
    match req
    case Read(key, _, _) => (db, Result.Ok(app.answer(db, key)))
    case Write(w, _) => (app.apply(db, w), Result.Ok(app.reply(db, w)))
  }

  class CacheBackend<V> {
    var entries: Cache<V>

    constructor ()
      ensures entries == map[]
    {
      entries := map[];
    }

    method Get(key: string, now: int) returns (found: Option<V>)
      ensures found == Fetched(entries, key, now)
    {
      if key in entries && now < entries[key].deadline {
        return Some(entries[key].data);
      }
      return None;
    }

    method Set(key: string, value: V, expiration: int, now: int)
      modifies this
      ensures entries == old(entries)[key := Entry(value, now + expiration)]
    {
      entries := entries[key := Entry(value, now + expiration)];
    }

    method Delete(key: string)
      modifies this
      ensures entries == old(entries) - {key}
    {
      entries := entries - {key};
    }
  }

  class CachedApp<DB, W, V> {
    const app: App<DB, W, V>
    const backend: CacheBackend?<V>
    const expiration: int
    var db: DB

    constructor (app: App<DB, W, V>, backend: CacheBackend?<V>, expiration: int, db: DB)
      ensures this.app == app && this.backend == backend && this.expiration == expiration && this.db == db
    {
      this.app, this.backend, this.expiration, this.db := app, backend, expiration, db;
    }

    /** `identified` tells whether a resource id was given or could be inferred. */
    method Inner(req: Request<W>, identified: bool) returns (response: Result<V, Failure>)
      modifies this, backend
      ensures backend == null || !identified ==> (db, response) == PlainHandled(app, old(db), req)
      ensures backend != null && !identified ==> backend.entries == old(backend.entries)
      ensures backend != null && identified ==>
        (db, backend.entries, response) == Handled(app, old(db), old(backend.entries), req, expiration)
    {
      if backend == null || !identified {
        response := PlainHandled(app, db, req).1;
        db := PlainHandled(app, db, req).0;
        return;
      }
      match req {
        case Read(key, misused, now) =>
          if misused {
            return Err(InvalidRequest);
          }
          var cached := backend.Get(key, now);
          if cached.Some? && app.truthy(app.reread(cached.value)) {
            return Result.Ok(app.reread(cached.value));
          }
          var result := app.answer(db, key);
          backend.Set(key, result, expiration, now);
          return Result.Ok(result);
        case Write(w, now) =>
          response := Result.Ok(app.reply(db, w));
          db := app.apply(db, w);
          backend.Delete(app.ownKey(w));
          var own, extra := [app.ownKey(w)], app.extraKeys(w);
          for i := 0 to |extra|
            invariant db == app.apply(old(db), w)
            invariant backend.entries == old(backend.entries) - KeySet(own + extra[..i])
          {
            assert KeySet(own + extra[..i + 1]) == KeySet(own + extra[..i]) + {extra[i]};
            backend.Delete(extra[i]);
          }
          assert extra[..|extra|] == extra;
      }
    }
  }

  // ------------------------------------------------------------- whole runs

  /** The responses of a run through the decorated endpoints. */
  function Responses<DB, W, V>(app: App<DB, W, V>, db: DB, c: Cache<V>, reqs: seq<Request<W>>, expiration: int)
    : seq<Result<V, Failure>>
    decreases |reqs|
  {
    if reqs == [] then []
    else
      var (db', c', response) := Handled(app, db, c, reqs[0], expiration);
      [response] + Responses(app, db', c', reqs[1..], expiration)
  }

  /** The responses of the same run without the decorator. */
  function PlainResponses<DB, W, V>(app: App<DB, W, V>, db: DB, reqs: seq<Request<W>>): seq<Result<V, Failure>>
    decreases |reqs|
  {
    if reqs == [] then []
    else
      var (db', response) := PlainHandled(app, db, reqs[0]);
      [response] + PlainResponses(app, db', reqs[1..])
  }

  /** A value that counts as cached comes back from the backend unchanged. */
  ghost predicate Rereads<DB(!new), W, V>(app: App<DB, W, V>) {
    forall db: DB, key: string ::
      var v := app.answer(db, key);
      app.truthy(app.reread(v)) ==> app.reread(v) == v
  }

  /** A write changes no cached answer except under keys that it deletes. */
  ghost predicate WritesCover<DB(!new), W(!new), V>(app: App<DB, W, V>) {
    forall db: DB, w: W, key: string | key != app.ownKey(w) && key !in app.extraKeys(w) ::
      app.truthy(app.reread(app.answer(db, key))) ==> app.answer(app.apply(db, w), key) == app.answer(db, key)
  }

  ghost predicate WellUsed<W>(reqs: seq<Request<W>>) {
    forall i | 0 <= i < |reqs| && reqs[i].Read? :: !reqs[i].misused
  }

  ghost predicate SameResponses<DB, W, V>(app: App<DB, W, V>, db: DB, reqs: seq<Request<W>>, expiration: int) {
    Responses(app, db, map[], reqs, expiration) == PlainResponses(app, db, reqs)
  }

  /**
   Every run, whenever its requests come and so whatever has expired by then, looks the same with
   and without the cache.
   */
  ghost predicate Transparent<DB(!new), W(!new), V(!new)>(app: App<DB, W, V>, expiration: int) {
    forall db: DB, reqs: seq<Request<W>> | WellUsed(reqs) :: SameResponses(app, db, reqs, expiration)
  }

  /** What is cached and counts as cached is the present answer. */
  ghost predicate UpToDate<DB, W, V>(app: App<DB, W, V>, db: DB, c: Cache<V>) {
    forall key | key in c && app.truthy(app.reread(c[key].data)) :: c[key].data == app.answer(db, key)
  }

  lemma {:induction false} RunTransparent<DB(!new), W(!new), V(!new)>(
      app: App<DB, W, V>, db: DB, c: Cache<V>, reqs: seq<Request<W>>, expiration: int)
    requires Rereads(app) && WritesCover(app) && UpToDate(app, db, c) && WellUsed(reqs)
    ensures Responses(app, db, c, reqs, expiration) == PlainResponses(app, db, reqs)
    decreases |reqs|
  {
    if reqs != [] {
      var (db', c', response) := Handled(app, db, c, reqs[0], expiration);
      assert UpToDate(app, db', c');
      RunTransparent(app, db', c', reqs[1..], expiration);
    }
  }

  lemma {:induction false} FirstThenRest<DB, W, V>(
      app: App<DB, W, V>, db: DB, c: Cache<V>, req: Request<W>, rest: seq<Request<W>>, expiration: int)
    ensures var (db', c', response) := Handled(app, db, c, req, expiration);
      Responses(app, db, c, [req] + rest, expiration) == [response] + Responses(app, db', c', rest, expiration)
    ensures var (db', response) := PlainHandled(app, db, req);
      PlainResponses(app, db, [req] + rest) == [response] + PlainResponses(app, db', rest)
  {
  }

  lemma {:induction false} TwoReads<DB(!new), W(!new), V(!new)>(app: App<DB, W, V>, db: DB, key: string,
        expiration: int)
    requires Transparent(app, expiration) && expiration > 0
    ensures var v := app.answer(db, key); app.truthy(app.reread(v)) ==> app.reread(v) == v
  {
    var read: Request<W> := Read(key, false, 0);
    var c1 := map[key := Entry(app.answer(db, key), expiration)];
    FirstThenRest(app, db, map[], read, [read], expiration);
    FirstThenRest(app, db, c1, read, [], expiration);
    assert [read] + [] == [read];
    assert SameResponses(app, db, [read] + [read], expiration);
    assert PlainResponses(app, db, [read] + [read])[1] == PlainResponses(app, db, [read])[0];
    FirstThenRest(app, db, map[], read, [], expiration);
  }

  lemma {:induction false} ReadWriteRead<DB(!new), W(!new), V(!new)>(app: App<DB, W, V>, db: DB, w: W, key: string,
        expiration: int)
    requires Transparent(app, expiration) && expiration > 0 && Rereads(app)
    requires key !in DeletedKeys(app, w) && app.truthy(app.reread(app.answer(db, key)))
    ensures app.answer(app.apply(db, w), key) == app.answer(db, key)
  {
    var read: Request<W>, write: Request<W> := Read(key, false, 0), Write(w, 0);
    var c1, db' := map[key := Entry(app.answer(db, key), expiration)], app.apply(db, w);
    FirstThenRest(app, db, map[], read, [write, read], expiration);
    FirstThenRest(app, db, c1, write, [read], expiration);
    assert c1 - DeletedKeys(app, w) == c1;
    FirstThenRest(app, db', c1, read, [], expiration);
    assert [read] + [] == [read] && [write] + [read] == [write, read];
    var reqs := [read] + [write, read];
    assert SameResponses(app, db, reqs, expiration);
    assert Responses(app, db, map[], reqs, expiration)[2] == Responses(app, db', c1, [read], expiration)[0];
    assert PlainResponses(app, db, reqs)[2] == PlainResponses(app, db', [read])[0];
  }

  /**
   The decorated endpoints answer like the undecorated ones over every run exactly when cached
   values come back unchanged and writes delete every cached key whose answer they change.
   */
  lemma {:induction false} TransparentExactly<DB(!new), W(!new), V(!new)>(app: App<DB, W, V>, expiration: int)
    requires expiration > 0
    ensures Transparent(app, expiration) <==> Rereads(app) && WritesCover(app)
  {
    if Rereads(app) && WritesCover(app) {
      forall db: DB, reqs: seq<Request<W>> | WellUsed(reqs)
        ensures SameResponses(app, db, reqs, expiration)
      {
        RunTransparent(app, db, map[], reqs, expiration);
      }
    }
    if Transparent(app, expiration) {
      forall db: DB, key: string
        ensures var v := app.answer(db, key); app.truthy(app.reread(v)) ==> app.reread(v) == v
      {
        TwoReads(app, db, key, expiration);
      }
      assert Rereads(app);
      forall db: DB, w: W, key: string
        | key != app.ownKey(w) && key !in app.extraKeys(w) && app.truthy(app.reread(app.answer(db, key)))
        ensures app.answer(app.apply(db, w), key) == app.answer(db, key)
      {
        ReadWriteRead(app, db, w, key, expiration);
      }
    }
  }
}
