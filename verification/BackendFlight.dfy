/**
 Creates in flight over Redis or Memcached. Every await of a create ends a step: reading the index,
 fetching each listed session, ending each victim, and storing the session. Redis stores session and
 index in one pipeline; Memcached sets the session, reads the user's list and writes it back, and so
 does the list half of every update. Steps of creates, such rewrites and whole other calls come in
 any order.
 */
module BackendFlight {
  import opened Expiring
  import opened Ordering
  import opened Servers
  import opened SessionModel
  import opened SessionBackends
  import opened BackendCap
  import MemcachedStorage

  /** How far a create has got; `Placed` and `Listing` are for Memcached, where the list is still to be written. */
  datatype Stage =
    | Begun
    | Fetching(rest: seq<string>, found: seq<string>, lastUsed: map<string, int>)
    | Ending(victims: seq<string>)
    | Placed(id: string)
    | Listing(id: string, ids: seq<string>)

  /** `started` becomes the session's last activity; its creation is dated when it is stored. */
  datatype Creating = Creating(user: int, started: int, stage: Stage)

  /** The list half of an update: the list as read, to be written back. */
  datatype Touch = Touch(user: int, ids: seq<string>)

  /** `used` records the ids given out so far. */
  datatype Flight = Flight(m: Manager, creates: map<int, Creating>, touches: map<int, Touch>, clock: int,
        used: set<string>)

  datatype Move =
    | Begin(c: int, user: int, now: int)
    | ReadIndex(c: int, listed: seq<string>, now: int)
    | Fetch(c: int, now: int)
    | Decide(c: int, now: int)
    | EndOne(c: int, now: int)
    | Store(c: int, id: string, origin: string, metadata: map<string, MetaValue>, now: int)
    | ReadList(c: int, now: int)
    | WriteList(c: int, now: int)
    | TouchRead(c: int, user: int, now: int)
    | TouchWrite(c: int, now: int)
    | Other(call: Call)

  function TimeOf(v: Move): int {
    if v.Other? then v.call.e.now else v.now
  }

  /** The move is the next one of the create or rewrite it belongs to. */
  predicate Fits(f: Flight, v: Move) {
    match v
    case Begin(c, _, _) => c !in f.creates
    case ReadIndex(c, _, _) => c in f.creates && f.creates[c].stage.Begun?
    case Fetch(c, _) => c in f.creates && f.creates[c].stage.Fetching? && f.creates[c].stage.rest != []
    case Decide(c, _) => c in f.creates && f.creates[c].stage.Fetching? && f.creates[c].stage.rest == []
    case EndOne(c, _) => c in f.creates && f.creates[c].stage.Ending? && f.creates[c].stage.victims != []
    case Store(c, id, _, _, _) => c in f.creates && f.creates[c].stage == Ending([]) && id !in f.used
    case ReadList(c, _) => c in f.creates && f.creates[c].stage.Placed? && f.m.backend.Memcached?
    case WriteList(c, _) => c in f.creates && f.creates[c].stage.Listing? && f.m.backend.Memcached?
    case TouchRead(c, user, now) =>
      c !in f.touches && f.m.backend.Memcached? && MemcachedStorage.Indexed(f.m.backend.memcached, user, now)
    case TouchWrite(c, _) => c in f.touches && f.m.backend.Memcached?
    case Other(call) => !call.e.Create?
  }

  /** `v` can happen next: the clock does not go back, and a create is told what the index may list. */
  ghost predicate Enabled(f: Flight, v: Move) {
    && f.clock <= TimeOf(v) && Fits(f, v)
    && (v.ReadIndex? ==> MayList(f.m.backend, f.creates[v.c].user, v.now, v.listed))
  }

  /** The stage after the GET of the next listed session. */
  function FetchedNext(es: Entries, s: Stage, now: int): Stage
    requires s.Fetching? && s.rest != []
  {
    var id := s.rest[0];
    if id in Active(es, now)
    then Fetching(s.rest[1..], s.found + [id], s.lastUsed[id := es[id].data.lastActivity])
    else s.(rest := s.rest[1..])
  }

  /** The victims among the active sessions found. */
  function Decided(s: Stage, max: int): Stage
    requires s.Fetching?
  {
    Ending(if forall k | k in s.found :: k in s.lastUsed then Oldest(s.found, s.lastUsed, max) else s.found)
  }

  /** The session of a create is stored: with its index on Redis, as yet unlisted on Memcached. */
  function StoredBy(b: Backend, s: SessionData, now: int, exp: int): Backend {
    match b
    case Redis(_) => Put(b, s, now, exp)
    case Memcached(m) => Memcached(MemcachedStorage.SessionSet(m, s.sessionId, s, now, exp))
  }

  function Rewriting(b: Backend, user: int, ids: seq<string>, now: int, exp: int): Backend
    requires b.Memcached?
  {
    Memcached(MemcachedStorage.ListSet(b.memcached, user, ids, now, exp))
  }

  function WithStage(f: Flight, c: int, s: Stage, now: int): Flight
    requires c in f.creates
  {
    f.(creates := f.creates[c := f.creates[c].(stage := s)], clock := now)
  }

  function WithBackend(f: Flight, b: Backend): Flight {
    f.(m := f.m.(backend := b))
  }

  function Moved(f: Flight, v: Move, cfg: Config): Flight
    requires Fits(f, v)
  {
    var b, exp := f.m.backend, cfg.expiration;
    match v
    case Begin(c, user, now) => f.(creates := f.creates[c := Creating(user, now, Begun)], clock := now)
    case ReadIndex(c, listed, now) => WithStage(f, c, Fetching(listed, [], map[]), now)
    case Fetch(c, now) => WithStage(f, c, FetchedNext(SessionsOf(b), f.creates[c].stage, now), now)
    case Decide(c, now) => WithStage(f, c, Decided(f.creates[c].stage, cfg.maxSessions), now)
    case EndOne(c, now) =>
      var victims := f.creates[c].stage.victims;
      WithStage(WithBackend(f, Terminated(b, victims[0], now, cfg)), c, Ending(victims[1..]), now)
    case Store(c, id, origin, metadata, now) =>
      var s := NewSession(id, f.creates[c].user, origin, metadata, now).(lastActivity := f.creates[c].started);
      var g := WithBackend(f, StoredBy(b, s, now, exp)).(used := f.used + {id}, clock := now);
      if b.Redis? then g.(creates := f.creates - {c}) else WithStage(g, c, Placed(id), now)
    case ReadList(c, now) =>
      var ids := MemcachedStorage.Listed(b.memcached, f.creates[c].user, now);
      WithStage(f, c, Listing(f.creates[c].stage.id, ids), now)
    case WriteList(c, now) =>
      var ids := MemcachedStorage.WithId(f.creates[c].stage.ids, f.creates[c].stage.id);
      WithBackend(f, Rewriting(b, f.creates[c].user, ids, now, exp)).(creates := f.creates - {c}, clock := now)
    case TouchRead(c, user, now) =>
      f.(touches := f.touches[c := Touch(user, MemcachedStorage.Listed(b.memcached, user, now))], clock := now)
    case TouchWrite(c, now) =>
      var touch := f.touches[c];
      WithBackend(f, Rewriting(b, touch.user, touch.ids, now, exp)).(touches := f.touches - {c}, clock := now)
    case Other(call) => f.(m := Step(f.m, call, cfg).0, clock := call.e.now)
  }

  // ------------------------------------------------------------- what a state shows

  function InFlight(f: Flight, user: int): set<int> {
    set c | c in f.creates && f.creates[c].user == user
  }

  /** The creates that have made room and not yet used it. */
  function Pending(f: Flight, user: int): set<int> {
    set c | c in f.creates && f.creates[c].user == user && f.creates[c].stage == Ending([])
  }

  predicate IsUnset(s: Stage) {
    s.Begun? || s.Fetching? || s.Ending?
  }

  /** The creates whose session is not stored yet. */
  function Unset(creates: map<int, Creating>, user: int): set<int> {
    set c | c in creates && creates[c].user == user && IsUnset(creates[c].stage)
  }

  /** The creates whose session is stored and not yet listed. */
  function SetOnly(creates: map<int, Creating>, user: int): set<int> {
    set c | c in creates && creates[c].user == user && !IsUnset(creates[c].stage)
  }

  function IdOf(s: Stage): string {
    if s.Placed? || s.Listing? then s.id else ""
  }

  function Unlisted(creates: map<int, Creating>, user: int): set<string> {
    set c | c in SetOnly(creates, user) :: IdOf(creates[c].stage)
  }

  /** The creates and the touches that are between reading the user's list and writing it. */
  function OpenCreates(f: Flight, user: int): set<int> {
    set c | c in f.creates && f.creates[c].user == user && f.creates[c].stage.Listing?
  }

  function OpenTouches(f: Flight, user: int): set<int> {
    set c | c in f.touches && f.touches[c].user == user
  }

  function ActiveNow(f: Flight, user: int): set<string> {
    ActiveOf(SessionsOf(f.m.backend), user, f.clock)
  }

  // ------------------------------------------------------------- whole runs

  function Start(b: Backend, now: int): Flight {
    Flight(Manager(b, now), map[], map[], now, {})
  }

  function After(f: Flight, moves: seq<Move>, cfg: Config): Flight {
    if moves == [] then f
    else
      var g, v := After(f, moves[..|moves| - 1], cfg), moves[|moves| - 1];
      if Fits(g, v) then Moved(g, v, cfg) else g
  }

  /**
   For one user: never more than `creates` creates in flight, never more than `open` rewrites of the
   list open, and never more than `touches` of those by updates.
   */
  datatype Traffic = Traffic(creates: nat, open: nat, touches: nat)

  ghost predicate Within(f: Flight, user: int, t: Traffic) {
    && |InFlight(f, user)| <= t.creates
    && |OpenCreates(f, user)| + |OpenTouches(f, user)| <= t.open
    && |OpenTouches(f, user)| <= t.touches
  }

  ghost predicate IsRun(f: Flight, moves: seq<Move>, user: int, t: Traffic, cfg: Config)
    decreases |moves|
  {
    && Within(After(f, moves, cfg), user, t)
    && (moves == [] ||
        var before := moves[..|moves| - 1];
        IsRun(f, before, user, t, cfg) && Enabled(After(f, before, cfg), moves[|moves| - 1]))
  }
}
