/**
 What one call of the session manager does to a Redis or a Memcached server. The limit goes by what
 the storage lists for the user, and everything else by single keys.
 */
module SessionBackends {
  import opened Wrappers
  import opened Ordering
  import opened Expiring
  import opened Servers
  import opened SessionModel
  import RedisStorage
  import MemcachedStorage

  datatype Backend = Redis(redis: RedisStorage.Server) | Memcached(memcached: MemcachedStorage.Server)

  function SessionsOf(b: Backend): Entries {
    match b
    case Redis(r) => r.sessions
    case Memcached(m) => m.sessions
  }

  /** `storage.create`. */
  function Put(b: Backend, s: SessionData, now: int, exp: int): Backend {
    match b
    case Redis(r) => Redis(RedisStorage.Created(r, s.sessionId, s, now, exp))
    case Memcached(m) => Memcached(MemcachedStorage.Created(m, s.sessionId, s, now, exp))
  }

  /** `storage.update`. */
  function Rewritten(b: Backend, id: string, s: SessionData, now: int, exp: int): Backend {
    match b
    case Redis(r) => Redis(RedisStorage.Updated(r, id, s, true, now, exp))
    case Memcached(m) => Memcached(MemcachedStorage.Updated(m, id, s, true, now, exp))
  }

  /** `storage.get_user_sessions` may return `ids`: Redis has a set and lists it in any order. */
  ghost predicate MayList(b: Backend, user: int, now: int, ids: seq<string>) {
    match b
    case Redis(r) => NoDup(ids) && Elements(ids) == RedisStorage.Members(r, user, now)
    case Memcached(m) => ids == MemcachedStorage.Listed(m, user, now)
  }

  // ------------------------------------------------------------- the calls

  function Terminated(b: Backend, id: string, now: int, cfg: Config): Backend {
    if !Alive(SessionsOf(b), id, now) then b
    else Rewritten(b, id, Ended(SessionsOf(b)[id].data, now, "manual_termination"), now, cfg.expiration)
  }

  function TerminatedAll(b: Backend, ids: seq<string>, now: int, cfg: Config): Backend {
    if ids == [] then b
    else Terminated(TerminatedAll(b, ids[..|ids| - 1], now, cfg), ids[|ids| - 1], now, cfg)
  }

  function Active(es: Entries, now: int): set<string> {
    set id | id in es && Alive(es, id, now) && es[id].data.isActive
  }

  function LastUsed(es: Entries): map<string, int> {
    map id | id in es :: es[id].data.lastActivity
  }

  /** The index is trusted: unlike the scan, this does not compare owners. */
  function Victims(es: Entries, listed: seq<string>, now: int, max: int): seq<string> {
    KeepMembers(listed, Active(es, now));
    Oldest(Keep(listed, Active(es, now)), LastUsed(es), max)
  }

  function Enforced(b: Backend, listed: seq<string>, now: int, cfg: Config): Backend {
    TerminatedAll(b, Victims(SessionsOf(b), listed, now, cfg.maxSessions), now, cfg)
  }

  function Created(b: Backend, s: SessionData, listed: seq<string>, now: int, cfg: Config): Backend {
    Put(Enforced(b, listed, now, cfg), s, now, cfg.expiration)
  }

  function Validated(b: Backend, id: string, updateActivity: bool, now: int, cfg: Config): (Backend,
        Option<SessionData>) {
    if id == "" || !Alive(SessionsOf(b), id, now) then (b, None)
    else
      var s := SessionsOf(b)[id].data;
      if !s.isActive then (b, None)
      else if now - s.lastActivity > cfg.sessionTimeout then (Terminated(b, id, now, cfg), None)
      else if updateActivity then
        var s' := s.(lastActivity := now);
        (Rewritten(b, id, s', now, cfg.expiration), Some(s'))
      else (b, Some(s))
  }

  function CleanedOne(b: Backend, id: string, now: int, cfg: Config): Backend {
    if !Alive(SessionsOf(b), id, now) then b
    else
      var s := SessionsOf(b)[id].data;
      if TimedOut(s, now, cfg)
      then Rewritten(b, id, Ended(s, now, "session_timeout"), now, cfg.expiration)
      else b
  }

  function CleanedAll(b: Backend, ids: seq<string>, now: int, cfg: Config): Backend {
    if ids == [] then b
    else CleanedOne(CleanedAll(b, ids[..|ids| - 1], now, cfg), ids[|ids| - 1], now, cfg)
  }

  datatype Manager = Manager(backend: Backend, lastCleanup: int)

  /** `scanned` is what the scan came up with; Memcached cannot be scanned. */
  function Cleaned(m: Manager, scanned: seq<string>, now: int, cfg: Config): Manager {
    if now - m.lastCleanup < cfg.cleanupInterval then m
    else Manager(if m.backend.Redis? then CleanedAll(m.backend, scanned, now, cfg) else m.backend, now)
  }

  /** A call together with what the storage listed for it: the user's sessions for a create, the scan for a cleanup. */
  datatype Call = Call(e: Event, listed: seq<string>)

  function Step(m: Manager, c: Call, cfg: Config): (Manager, Option<SessionData>) {
    match c.e
    case Create(id, user, origin, metadata, now) =>
      (m.(backend := Created(m.backend, NewSession(id, user, origin, metadata, now), c.listed, now, cfg)), None)
    case Validate(id, update, now) =>
      var (b, found) := Validated(m.backend, id, update, now, cfg);
      (m.(backend := b), found)
    case Terminate(id, now) => (m.(backend := Terminated(m.backend, id, now, cfg)), None)
    case Cleanup(now) => (Cleaned(m, c.listed, now, cfg), None)
  }

  // ------------------------------------------------------------- what every call keeps

  /** Every live session of a user is listed for that user, and no other is. */
  ghost predicate Lists(es: Entries, user: int, now: int, ids: seq<string>) {
    && NoDup(ids)
    && forall id | Alive(es, id, now) :: id in ids <==> es[id].data.userId == user
  }

  /** The index names only sessions of its user that there are, or were. */
  ghost predicate HonestLists(m: MemcachedStorage.Server) {
    forall user, id | user in m.index && id in m.index[user].ids && id in m.sessions ::
      m.sessions[id].data.userId == user
  }

  ghost predicate IndexInv(b: Backend, now: int, exp: int) {
    match b
    case Redis(r) => RedisStorage.Inv(r, now, exp)
    case Memcached(m) => MemcachedStorage.Inv(m, now, exp) && HonestLists(m)
  }

  /** The ids ever given out are enough to name everything in the storage. */
  ghost predicate Known(b: Backend, used: set<string>) {
    && SessionsOf(b).Keys <= used
    && match b
       case Redis(r) => forall user | user in r.index :: r.index[user].ids <= used
       case Memcached(m) => forall user, id | user in m.index && id in m.index[user].ids :: id in used
  }

  /** What every call keeps, also when others come between its steps. */
  ghost predicate Inv(b: Backend, now: int, cfg: Config, used: set<string>) {
    IndexInv(b, now, cfg.expiration) && Known(b, used)
  }

  ghost predicate IsEmpty(b: Backend) {
    match b
    case Redis(r) => r == RedisStorage.Server(map[], map[])
    case Memcached(m) => m == MemcachedStorage.Server(map[], map[])
  }

  lemma {:induction false} InvLater(b: Backend, now: int, later: int, cfg: Config, used: set<string>)
    requires Inv(b, now, cfg, used) && now <= later
    ensures Inv(b, later, cfg, used)
  {
  }

  /** What the storage lists is exactly the live sessions of the user. */
  lemma {:induction false} MayListLists(b: Backend, user: int, now: int, exp: int, ids: seq<string>)
    requires IndexInv(b, now, exp) && MayList(b, user, now, ids)
    ensures Lists(SessionsOf(b), user, now, ids)
  {
    var es := SessionsOf(b);
    match b
    case Redis(r) =>
      forall id ensures id in ids <==> id in RedisStorage.Members(r, user, now) {
        assert id in Elements(ids) <==> id in ids;
      }
    case Memcached(m) =>
  }

  lemma {:induction false} PutInv(b: Backend, s: SessionData, now: int, cfg: Config, used: set<string>)
    requires Inv(b, now, cfg, used) && s.sessionId !in used
    ensures Inv(Put(b, s, now, cfg.expiration), now, cfg, used + {s.sessionId})
  {
    match b
    case Redis(r) => RedisStorage.CreateInv(r, s.sessionId, s, now, cfg.expiration);
    case Memcached(m) => MemcachedStorage.CreateInv(m, s.sessionId, s, now, cfg.expiration);
  }

  lemma {:induction false} RewrittenInv(b: Backend, id: string, s: SessionData, now: int, cfg: Config,
        used: set<string>)
    requires Inv(b, now, cfg, used) && Alive(SessionsOf(b), id, now)
    requires s.userId == SessionsOf(b)[id].data.userId
    ensures Inv(Rewritten(b, id, s, now, cfg.expiration), now, cfg, used)
    ensures SessionsOf(Rewritten(b, id, s, now, cfg.expiration)) == SessionsOf(b)[id := Entry(s, now + cfg.expiration)]
  {
    match b
    case Redis(r) => RedisStorage.UpdateInv(r, id, s, true, now, cfg.expiration);
    case Memcached(m) => MemcachedStorage.UpdateInv(m, id, s, now, cfg.expiration);
  }

  lemma {:induction false} TerminatedInv(b: Backend, id: string, now: int, cfg: Config, used: set<string>)
    requires Inv(b, now, cfg, used)
    ensures Inv(Terminated(b, id, now, cfg), now, cfg, used)
  {
    if Alive(SessionsOf(b), id, now) {
      RewrittenInv(b, id, Ended(SessionsOf(b)[id].data, now, "manual_termination"), now, cfg, used);
    }
  }

  lemma {:induction false} TerminatedAllInv(b: Backend, ids: seq<string>, now: int, cfg: Config, used: set<string>)
    requires Inv(b, now, cfg, used)
    ensures Inv(TerminatedAll(b, ids, now, cfg), now, cfg, used)
  {
    if ids != [] {
      TerminatedAllInv(b, ids[..|ids| - 1], now, cfg, used);
      TerminatedInv(TerminatedAll(b, ids[..|ids| - 1], now, cfg), ids[|ids| - 1], now, cfg, used);
    }
  }

  lemma {:induction false} CleanedOneInv(b: Backend, id: string, now: int, cfg: Config, used: set<string>)
    requires Inv(b, now, cfg, used)
    ensures Inv(CleanedOne(b, id, now, cfg), now, cfg, used)
  {
    if Alive(SessionsOf(b), id, now) {
      RewrittenInv(b, id, Ended(SessionsOf(b)[id].data, now, "session_timeout"), now, cfg, used);
    }
  }

  lemma {:induction false} CleanedAllInv(b: Backend, ids: seq<string>, now: int, cfg: Config, used: set<string>)
    requires Inv(b, now, cfg, used)
    ensures Inv(CleanedAll(b, ids, now, cfg), now, cfg, used)
  {
    if ids != [] {
      CleanedAllInv(b, ids[..|ids| - 1], now, cfg, used);
      CleanedOneInv(CleanedAll(b, ids[..|ids| - 1], now, cfg), ids[|ids| - 1], now, cfg, used);
    }
  }

  lemma {:induction false} RewrittenEntry(b: Backend, id: string, s: SessionData, now: int, exp: int)
    requires Alive(SessionsOf(b), id, now)
    ensures SessionsOf(Rewritten(b, id, s, now, exp))
         == SessionsOf(b)[id := Entry(s, now + exp)]
  {
  }

  /** The cleanup ends exactly the live timed-out sessions it is shown, however often it is shown them. */
  lemma {:induction false} CleanedAllExactly(b: Backend, ids: seq<string>, now: int, cfg: Config,
        k: string)
    ensures var es, es' := SessionsOf(b), SessionsOf(CleanedAll(b, ids, now, cfg));
      && (k in es' <==> k in es)
      && (k in es ==>
            if k in ids && Alive(es, k, now) && IdleTooLong(es[k].data, now, cfg)
            then EndedAs(es[k].data, es'[k].data, now, "session_timeout") && es'[k].deadline == now + cfg.expiration
            else es'[k] == es[k])
  {
    if ids != [] {
      var front, j := ids[..|ids| - 1], ids[|ids| - 1];
      assert ids == front + [j];
      CleanedAllExactly(b, front, now, cfg, k);
      var mid := CleanedAll(b, front, now, cfg);
      if Alive(SessionsOf(mid), j, now) {
        var s := SessionsOf(mid)[j].data;
        EndedMarks(s, now, "session_timeout");
        RewrittenEntry(mid, j, Ended(s, now, "session_timeout"), now, cfg.expiration);
      }
    }
  }

  lemma {:induction false} ValidatedInv(b: Backend, id: string, update: bool, now: int, cfg: Config, used: set<string>)
    requires Inv(b, now, cfg, used)
    ensures Inv(Validated(b, id, update, now, cfg).0, now, cfg, used)
  {
    if Alive(SessionsOf(b), id, now) {
      TerminatedInv(b, id, now, cfg, used);
      RewrittenInv(b, id, SessionsOf(b)[id].data.(lastActivity := now), now, cfg, used);
    }
  }

  /** Every entry is stored under its own id, and an active one expires `expiration` after its last activity. */
  ghost predicate Punctual(es: Entries, cfg: Config) {
    forall id | id in es ::
      && es[id].data.sessionId == id
      && (es[id].data.isActive ==> es[id].deadline == es[id].data.lastActivity + cfg.expiration)
  }

  lemma {:induction false} TerminatedAllPunctual(b: Backend, ids: seq<string>, now: int, cfg: Config)
    requires Punctual(SessionsOf(b), cfg)
    ensures Punctual(SessionsOf(TerminatedAll(b, ids, now, cfg)), cfg)
  {
    if ids != [] {
      TerminatedAllPunctual(b, ids[..|ids| - 1], now, cfg);
    }
  }

  lemma {:induction false} CleanedAllPunctual(b: Backend, ids: seq<string>, now: int, cfg: Config)
    requires Punctual(SessionsOf(b), cfg)
    ensures Punctual(SessionsOf(CleanedAll(b, ids, now, cfg)), cfg)
  {
    if ids != [] {
      CleanedAllPunctual(b, ids[..|ids| - 1], now, cfg);
    }
  }

  lemma {:induction false} ValidatedPunctual(b: Backend, id: string, update: bool, now: int, cfg: Config)
    requires Punctual(SessionsOf(b), cfg)
    ensures Punctual(SessionsOf(Validated(b, id, update, now, cfg).0), cfg)
  {
    TerminatedAllPunctual(b, [id], now, cfg);
  }

  lemma {:induction false} StepPunctual(m: Manager, c: Call, cfg: Config)
    requires Punctual(SessionsOf(m.backend), cfg)
    ensures Punctual(SessionsOf(Step(m, c, cfg).0.backend), cfg)
  {
    match c.e
    case Create(id, user, origin, metadata, now) =>
      TerminatedAllPunctual(m.backend, Victims(SessionsOf(m.backend), c.listed, now, cfg.maxSessions), now, cfg);
    case Validate(id, update, now) => ValidatedPunctual(m.backend, id, update, now, cfg);
    case Terminate(id, now) => TerminatedAllPunctual(m.backend, [id], now, cfg);
    case Cleanup(now) => CleanedAllPunctual(m.backend, c.listed, now, cfg);
  }

  /**
   Every call keeps the index complete and honest and every deadline in time, whatever order the
   storage lists things in.
   */
  lemma {:induction false} StepInv(m: Manager, c: Call, cfg: Config, used: set<string>)
    requires Inv(m.backend, c.e.now, cfg, used) && Punctual(SessionsOf(m.backend), cfg)
    requires c.e.Create? ==> c.e.id !in used
    ensures Inv(Step(m, c, cfg).0.backend, c.e.now, cfg, if c.e.Create? then used + {c.e.id} else used)
    ensures Punctual(SessionsOf(Step(m, c, cfg).0.backend), cfg)
  {
    StepPunctual(m, c, cfg);
    match c.e
    case Create(id, user, origin, metadata, now) =>
      TerminatedAllInv(m.backend, Victims(SessionsOf(m.backend), c.listed, now, cfg.maxSessions), now, cfg, used);
      PutInv(Enforced(m.backend, c.listed, now, cfg), NewSession(id, user, origin, metadata, now), now, cfg, used);
    case _ => OtherInv(m, c, cfg, used);
  }

  lemma {:induction false} OtherInv(m: Manager, c: Call, cfg: Config, used: set<string>)
    requires Inv(m.backend, c.e.now, cfg, used) && !c.e.Create?
    ensures Inv(Step(m, c, cfg).0.backend, c.e.now, cfg, used)
  {
    match c.e
    case Validate(id, update, now) => ValidatedInv(m.backend, id, update, now, cfg, used);
    case Terminate(id, now) => TerminatedInv(m.backend, id, now, cfg, used);
    case Cleanup(now) => CleanedAllInv(m.backend, c.listed, now, cfg, used);
  }
}
