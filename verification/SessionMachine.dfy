/**
 What one call of the session manager does to the in-memory storage, as functions of the store.
 The class in SessionManager.dfy is proved to compute these functions; SessionReference.dfy
 proves what runs of them mean.
 */
module SessionMachine {
  import opened Wrappers
  import opened Ordering
  import opened Dicts
  import opened MemoryStorage
  import opened SessionModel

  type Sessions = Store<SessionData>

  // ------------------------------------------------------------- terminate

  function Terminated(st: Sessions, id: string, now: int, cfg: Config): Sessions {
    match Lookup(st, id, now)
    case None => Checked(st, id, now)
    case Some(s) => Write(st, id, Ended(s, now, "manual_termination"), now + cfg.expiration)
  }

  function TerminatedAll(st: Sessions, ids: seq<string>, now: int, cfg: Config): Sessions {
    if ids == [] then st
    else Terminated(TerminatedAll(st, ids[..|ids| - 1], now, cfg), ids[|ids| - 1], now, cfg)
  }

  // ------------------------------------------------------------- create

  predicate ActiveFor(st: Sessions, k: string, user: int, now: int) {
    Lookup(st, k, now).Some? && st.data.at[k].userId == user && st.data.at[k].isActive
  }

  function ActiveKeys(st: Sessions, user: int, now: int): set<string> {
    set k | k in st.data.at && ActiveFor(st, k, user, now)
  }

  function Activity(d: Dict<SessionData>): map<string, int> {
    map k | k in d.at :: d.at[k].lastActivity
  }

  function Victims(st: Sessions, user: int, now: int, max: int): seq<string>
    requires Sound(st)
  {
    KeepMembers(st.data.keys, ActiveKeys(st, user, now));
    Oldest(Keep(st.data.keys, ActiveKeys(st, user, now)), Activity(st.data), max)
  }

  function Enforced(st: Sessions, user: int, now: int, cfg: Config): Sessions
    requires Sound(st)
  {
    CheckedSound(st, "", now);
    var seen := View(st, now);
    TerminatedAll(seen, Victims(seen, user, now, cfg.maxSessions), now, cfg)
  }

  function Created(st: Sessions, s: SessionData, now: int, cfg: Config): Sessions
    requires Sound(st)
  {
    Write(Enforced(st, s.userId, now, cfg), s.sessionId, s, now + cfg.expiration)
  }

  // ------------------------------------------------------------- validate

  function Validated(st: Sessions, id: string, updateActivity: bool, now: int, cfg: Config): (Sessions,
        Option<SessionData>) {
    if id == "" then (st, None)
    else match Lookup(st, id, now)
      case None => (Checked(st, id, now), None)
      case Some(s) =>
        if !s.isActive then (st, None)
        else if now - s.lastActivity > cfg.sessionTimeout then (Terminated(st, id, now, cfg), None)
        else if updateActivity then
          var s' := s.(lastActivity := now);
          (Write(st, id, s', now + cfg.expiration), Some(s'))
        else (st, Some(s))
  }

  // ------------------------------------------------------------- cleanup

  function CleanedOne(st: Sessions, k: string, now: int, cfg: Config): Sessions {
    match Lookup(st, k, now)
    case None => Checked(st, k, now)
    case Some(s) =>
      if TimedOut(s, now, cfg)
      then Write(st, k, Ended(s, now, "session_timeout"), now + cfg.expiration)
      else st
  }

  function CleanedAll(st: Sessions, ks: seq<string>, now: int, cfg: Config): Sessions {
    if ks == [] then st
    else CleanedOne(CleanedAll(st, ks[..|ks| - 1], now, cfg), ks[|ks| - 1], now, cfg)
  }

  /** What the manager remembers: its storage and when it last cleaned up. */
  datatype Manager = Manager(store: Sessions, lastCleanup: int)

  function Cleaned(m: Manager, now: int, cfg: Config): Manager {
    if now - m.lastCleanup < cfg.cleanupInterval then m
    else var seen := View(m.store, now);
      Manager(CleanedAll(seen, seen.data.keys, now, cfg), now)
  }

  // ------------------------------------------------------------- runs

  /** One call: the new state, and the session if the call was a validation that found one. */
  function Step(m: Manager, e: Event, cfg: Config): (Manager, Option<SessionData>)
    requires Sound(m.store)
  {
    match e
    case Create(id, user, origin, metadata, now) =>
      (m.(store := Created(m.store, NewSession(id, user, origin, metadata, now), now, cfg)), None)
    case Validate(id, update, now) =>
      var (st, found) := Validated(m.store, id, update, now, cfg);
      (m.(store := st), found)
    case Terminate(id, now) => (m.(store := Terminated(m.store, id, now, cfg)), None)
    case Cleanup(now) => (Cleaned(m, now, cfg), None)
  }

  // ------------------------------------------------------------- every call keeps the invariant

  /** Every entry is stored under its own id, and an active one expires `expiration` after its last activity. */
  ghost predicate Inv(st: Sessions, cfg: Config) {
    && Sound(st)
    && forall k | k in st.data.at ::
         && st.data.at[k].sessionId == k
         && (st.data.at[k].isActive ==> st.expiry[k] == st.data.at[k].lastActivity + cfg.expiration)
  }

  lemma {:induction false} ViewInv(st: Sessions, k: string, now: int, cfg: Config)
    requires Inv(st, cfg)
    ensures Inv(View(st, now), cfg) && Inv(Checked(st, k, now), cfg)
  {
    CheckedSound(st, k, now);
  }

  lemma {:induction false} TerminatedInv(st: Sessions, id: string, now: int, cfg: Config)
    requires Inv(st, cfg)
    ensures Inv(Terminated(st, id, now, cfg), cfg)
    ensures Terminated(st, id, now, cfg).data.at.Keys <= st.data.at.Keys
  {
    ViewInv(st, id, now, cfg);
  }

  lemma {:induction false} TerminatedAllInv(st: Sessions, ids: seq<string>, now: int, cfg: Config)
    requires Inv(st, cfg)
    ensures Inv(TerminatedAll(st, ids, now, cfg), cfg)
    ensures TerminatedAll(st, ids, now, cfg).data.at.Keys <= st.data.at.Keys
  {
    if ids != [] {
      TerminatedAllInv(st, ids[..|ids| - 1], now, cfg);
      TerminatedInv(TerminatedAll(st, ids[..|ids| - 1], now, cfg), ids[|ids| - 1], now, cfg);
    }
  }

  lemma {:induction false} EnforcedInv(st: Sessions, user: int, now: int, cfg: Config)
    requires Inv(st, cfg)
    ensures Inv(Enforced(st, user, now, cfg), cfg)
    ensures Enforced(st, user, now, cfg).data.at.Keys <= st.data.at.Keys
  {
    ViewInv(st, "", now, cfg);
    TerminatedAllInv(View(st, now), Victims(View(st, now), user, now, cfg.maxSessions), now, cfg);
  }

  lemma {:induction false} WriteInv(st: Sessions, s: SessionData, now: int, cfg: Config)
    requires Inv(st, cfg) && (s.isActive ==> s.lastActivity == now)
    ensures Inv(Write(st, s.sessionId, s, now + cfg.expiration), cfg)
  {
  }

  lemma {:induction false} CleanedOneInv(st: Sessions, k: string, now: int, cfg: Config)
    requires Inv(st, cfg)
    ensures Inv(CleanedOne(st, k, now, cfg), cfg)
    ensures CleanedOne(st, k, now, cfg).data.at.Keys <= st.data.at.Keys
  {
    ViewInv(st, k, now, cfg);
  }

  lemma {:induction false} CleanedAllInv(st: Sessions, ks: seq<string>, now: int, cfg: Config)
    requires Inv(st, cfg)
    ensures Inv(CleanedAll(st, ks, now, cfg), cfg)
    ensures CleanedAll(st, ks, now, cfg).data.at.Keys <= st.data.at.Keys
  {
    if ks != [] {
      CleanedAllInv(st, ks[..|ks| - 1], now, cfg);
      CleanedOneInv(CleanedAll(st, ks[..|ks| - 1], now, cfg), ks[|ks| - 1], now, cfg);
    }
  }

  lemma {:induction false} CleanedInv(m: Manager, now: int, cfg: Config)
    requires Inv(m.store, cfg)
    ensures Inv(Cleaned(m, now, cfg).store, cfg)
    ensures Cleaned(m, now, cfg).store.data.at.Keys <= m.store.data.at.Keys
  {
    ViewInv(m.store, "", now, cfg);
    CleanedAllInv(View(m.store, now), View(m.store, now).data.keys, now, cfg);
  }

  lemma {:induction false} ValidatedInv(st: Sessions, id: string, update: bool, now: int, cfg: Config)
    requires Inv(st, cfg)
    ensures Inv(Validated(st, id, update, now, cfg).0, cfg)
    ensures Validated(st, id, update, now, cfg).0.data.at.Keys <= st.data.at.Keys
  {
    match Lookup(st, id, now)
    case None => ViewInv(st, id, now, cfg);
    case Some(s) =>
      TerminatedInv(st, id, now, cfg);
      WriteInv(st, s.(lastActivity := now), now, cfg);
  }

  lemma {:induction false} CleanedOneExactly(st: Sessions, j: string, now: int, cfg: Config, k: string)
    requires Sound(st) && !Expired(st, j, now)
    ensures var st' := CleanedOne(st, j, now, cfg);
      && Sound(st') && (k in st'.data.at <==> k in st.data.at)
      && (k in st.data.at ==> st'.data.at[k] == if k == j then CleanedSession(st.data.at[k], now, cfg)
        else st.data.at[k])
      && (k != j && k in st.expiry ==> k in st'.expiry && st'.expiry[k] == st.expiry[k])
  {
  }

  /** The loop over the scanned keys ends exactly the timed-out sessions among them. */
  lemma {:induction false} CleanedAllExactly(st: Sessions, ks: seq<string>, now: int, cfg: Config, k: string)
    requires Sound(st) && NoDup(ks) && forall j | j in st.expiry :: !Expired(st, j, now)
    ensures var st' := CleanedAll(st, ks, now, cfg);
      && Sound(st') && (k in st'.data.at <==> k in st.data.at)
      && (k in st.data.at ==> st'.data.at[k] == if k in ks then CleanedSession(st.data.at[k], now, cfg)
        else st.data.at[k])
      && (k !in ks && k in st.expiry ==> k in st'.expiry && st'.expiry[k] == st.expiry[k])
  {
    if ks != [] {
      var front, j := ks[..|ks| - 1], ks[|ks| - 1];
      assert ks == front + [j] && j !in front;
      CleanedAllExactly(st, front, now, cfg, k);
      CleanedAllExactly(st, front, now, cfg, j);
      CleanedOneExactly(CleanedAll(st, front, now, cfg), j, now, cfg, k);
    }
  }

  /**
   A cleanup that is due leaves exactly the unexpired sessions in the storage, the timed-out ones
   among them ended and all others as they were; one that is not due changes nothing.
   */
  lemma {:induction false} CleanupExactly(m: Manager, now: int, cfg: Config, k: string)
    requires Sound(m.store)
    ensures var m', found := Cleaned(m, now, cfg), Lookup(m.store, k, now);
      if now - m.lastCleanup < cfg.cleanupInterval then m' == m
      else
        && m'.lastCleanup == now
        && (k in m'.store.data.at <==> found.Some?)
        && (found.Some? && IdleTooLong(found.value, now, cfg) ==>
              EndedAs(found.value, m'.store.data.at[k], now, "session_timeout"))
        && (found.Some? && !IdleTooLong(found.value, now, cfg) ==> m'.store.data.at[k] == found.value)
  {
    CheckedSound(m.store, k, now);
    var seen := View(m.store, now);
    CleanedAllExactly(seen, seen.data.keys, now, cfg, k);
  }

  /** Whatever the call, the two dictionaries keep equal keys and every active entry its deadline. */
  lemma {:induction false} StepInv(m: Manager, e: Event, cfg: Config)
    requires Inv(m.store, cfg)
    ensures Inv(Step(m, e, cfg).0.store, cfg)
    ensures Step(m, e, cfg).0.store.data.at.Keys <= m.store.data.at.Keys + if e.Create? then {e.id} else {}
  {
    match e
    case Create(id, user, origin, metadata, now) =>
      var s := NewSession(id, user, origin, metadata, now);
      EnforcedInv(m.store, user, now, cfg);
      WriteInv(Enforced(m.store, user, now, cfg), s, now, cfg);
    case Validate(id, update, now) => ValidatedInv(m.store, id, update, now, cfg);
    case Terminate(id, now) => TerminatedInv(m.store, id, now, cfg);
    case Cleanup(now) => CleanedInv(m, now, cfg);
  }
}
