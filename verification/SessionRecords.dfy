/**
 What every call makes of every stored record, field by field, and what over whole runs a record
 still tells of the create it stems from. The same for the in-memory storage and for the servers.
 */
module SessionRecords {
  import opened Wrappers
  import opened Ordering
  import opened Expiring
  import opened SessionModel
  import Dicts
  import MemoryStorage
  import SessionMachine
  import Servers
  import SessionBackends

  type Record = Entry<SessionData>

  type Records = map<string, Record>

  const MANUAL := "manual_termination"
  const TIMEOUT := "session_timeout"

  // ------------------------------------------------------------- what a call can do to a record

  /** A record as it is stored by a create. */
  ghost predicate CreatedBy(s: SessionData, e: Event) {
    && e.Create?
    && s.userId == e.user && s.sessionId == e.id && s.origin == e.origin && s.createdAt == e.now
  }

  ghost predicate Uses(e: Event, id: string) {
    e.Validate? && e.id == id && id != "" && e.updateActivity
  }

  /** What the call `e` makes of the live record `r` under `id`, when it ends it for the reason given, if at all. */
  ghost predicate Becomes(e: Event, id: string, r: Record, r': Record, ended: Option<string>, exp: int) {
    match ended
    case Some(reason) => EndedAs(r.data, r'.data, e.now, reason) && r'.deadline == e.now + exp
    case None =>
      if Uses(e, id) && r.data.isActive
      then r'.data == r.data.(lastActivity := e.now) && r'.deadline == e.now + exp
      else r' == r
  }

  /** A record stored just now. */
  ghost predicate StoredNew(e: Event, r: Record, exp: int) {
    && CreatedBy(r.data, e)
    && r.data.lastActivity == e.now && r.data.isActive && r.data.metadata == e.metadata
    && r.deadline == e.now + exp
  }

  /** Why the call ends the session `s` stored under `id`, given the victims of a create and whether a cleanup runs. */
  ghost function EndReason(e: Event, id: string, s: SessionData, victims: seq<string>, cleans: bool, cfg: Config)
    : Option<string>
  {
    match e
    case Create(_, _, _, _, _) => if id in victims then Some(MANUAL) else None
    case Validate(k, _, now) => if k == id && id != "" && IdleTooLong(s, now, cfg) then Some(MANUAL) else None
    case Terminate(k, _) => if k == id then Some(MANUAL) else None
    case Cleanup(now) => if cleans && IdleTooLong(s, now, cfg) then Some(TIMEOUT) else None
  }

  /** Terminating changes the records it ends, if they are live, and no other. */
  ghost predicate Ends(before: Records, after: Records, k: string, live: bool, ended: bool, now: int, exp: int) {
    && (live ==>
          && k in before && k in after
          && (ended ==> EndedAs(before[k].data, after[k].data, now, MANUAL) && after[k].deadline == now + exp)
          && (!ended ==> after[k] == before[k]))
    && (!live && k in after ==> k in before && after[k] == before[k])
  }

  /** Nothing comes back: what is not live is dropped, or stays as it is, or is stored anew by a create. */
  ghost predicate NothingRevives(before: Records, after: Records, e: Event, k: string, live: bool, exp: int) {
    k in after && !live ==>
      (e.Create? && e.id == k && StoredNew(e, after[k], exp)) || (k in before && after[k] == before[k])
  }

  /** What one call makes of every record: of one it stores, of one that is live, and of any other. */
  ghost predicate StepsTo(before: Records, after: Records, e: Event, k: string, live: bool, victims: seq<string>,
                          cleans: bool, cfg: Config)
  {
    && (e.Create? && e.id == k ==> k in after && StoredNew(e, after[k], cfg.expiration))
    && (live && !(e.Create? && e.id == k) ==>
          && k in before && k in after
          && Becomes(e, k, before[k], after[k], EndReason(e, k, before[k].data, victims, cleans, cfg), cfg.expiration))
    && NothingRevives(before, after, e, k, live, cfg.expiration)
  }

  /** A create ends its victims and then stores a record. */
  lemma {:induction false} CreateSteps(before: Records, mid: Records, after: Records, e: Event, k: string, live: bool,
        victims: seq<string>, cfg: Config)
    requires e.Create? && Ends(before, mid, k, live, k in victims, e.now, cfg.expiration)
    requires after == mid[e.id := Entry(NewSession(e.id, e.user, e.origin, e.metadata, e.now), e.now + cfg.expiration)]
    ensures StepsTo(before, after, e, k, live, victims, false, cfg)
  {
  }

  /** A call that does nothing but terminate. */
  lemma {:induction false} EndsSteps(before: Records, after: Records, e: Event, k: string, live: bool,
        ended: bool, cfg: Config)
    requires !e.Create? && Ends(before, after, k, live, ended, e.now, cfg.expiration)
    requires live ==> EndReason(e, k, before[k].data, [], false, cfg) == if ended then Some(MANUAL) else None
    requires live && !ended ==> !(Uses(e, k) && before[k].data.isActive)
    ensures StepsTo(before, after, e, k, live, [], false, cfg)
  {
  }

  lemma {:induction false} TouchSteps(before: Records, after: Records, e: Event, k: string, live: bool, cfg: Config)
    requires e.Validate? && (live ==> k in before)
    requires live && e.id == k && k != "" ==> !IdleTooLong(before[k].data, e.now, cfg)
    requires if live && e.id == k && k != "" && before[k].data.isActive && e.updateActivity
             then after == before[k := Entry(before[k].data.(lastActivity := e.now), e.now + cfg.expiration)]
             else (k in after ==> k in before && after[k] == before[k]) && (live ==> k in after)
    ensures StepsTo(before, after, e, k, live, [], false, cfg)
  {
  }

  // ------------------------------------------------------------- in memory

  ghost function Stored(st: SessionMachine.Sessions): Records {
    map k | k in st.data.at && k in st.expiry :: Entry(st.data.at[k], st.expiry[k])
  }

  lemma {:induction false} WriteStored(st: SessionMachine.Sessions, id: string, s: SessionData, deadline: int)
    requires MemoryStorage.Sound(st)
    ensures Stored(MemoryStorage.Write(st, id, s, deadline)) == Stored(st)[id := Entry(s, deadline)]
  {
  }

  lemma {:induction false} TerminatedStored(st: SessionMachine.Sessions, id: string, now: int, cfg: Config)
    requires MemoryStorage.Sound(st)
    ensures var found, after := MemoryStorage.Lookup(st, id, now), Stored(SessionMachine.Terminated(st, id, now, cfg));
      if found.None? then after == Stored(st) || after == Stored(st) - {id}
      else after == Stored(st)[id := Entry(Ended(found.value, now, MANUAL), now + cfg.expiration)]
  {
  }

  lemma {:induction false} TerminatedRecord(st: SessionMachine.Sessions, id: string, now: int, cfg: Config, k: string)
    requires SessionMachine.Inv(st, cfg)
    ensures var st' := SessionMachine.Terminated(st, id, now, cfg);
      && SessionMachine.Inv(st', cfg)
      && Ends(Stored(st), Stored(st'), k, MemoryStorage.Lookup(st, k, now).Some?, k == id, now, cfg.expiration)
  {
    SessionMachine.TerminatedInv(st, id, now, cfg);
    TerminatedStored(st, id, now, cfg);
    if id in st.data.at {
      EndedMarks(st.data.at[id], now, MANUAL);
    }
  }

  lemma {:induction false} TerminatedAllRecord(st: SessionMachine.Sessions, ids: seq<string>, now: int, cfg: Config,
        k: string)
    requires SessionMachine.Inv(st, cfg) && NoDup(ids)
    ensures var st' := SessionMachine.TerminatedAll(st, ids, now, cfg);
      && SessionMachine.Inv(st', cfg)
      && Ends(Stored(st), Stored(st'), k, MemoryStorage.Lookup(st, k, now).Some?, k in ids, now, cfg.expiration)
  {
    if ids != [] {
      var front, id := ids[..|ids| - 1], ids[|ids| - 1];
      assert ids == front + [id] && id !in front;
      TerminatedAllRecord(st, front, now, cfg, k);
      TerminatedRecord(SessionMachine.TerminatedAll(st, front, now, cfg), id, now, cfg, k);
    }
  }

  /** What the cleanup makes of a record it comes across. */
  ghost predicate CleansTo(r: Record, r': Record, ended: bool, now: int, cfg: Config) {
    if ended && IdleTooLong(r.data, now, cfg)
    then EndedAs(r.data, r'.data, now, TIMEOUT) && r'.deadline == now + cfg.expiration
    else r' == r
  }

  lemma {:induction false} CleanedOneRecord(st: SessionMachine.Sessions, id: string, now: int, cfg: Config, k: string)
    requires SessionMachine.Inv(st, cfg) && !MemoryStorage.Expired(st, id, now)
    ensures var st' := SessionMachine.CleanedOne(st, id, now, cfg);
      && SessionMachine.Inv(st', cfg) && (k in st'.data.at <==> k in st.data.at)
      && (k in st.data.at ==> CleansTo(Stored(st)[k], Stored(st')[k], k == id, now, cfg))
  {
    SessionMachine.CleanedOneInv(st, id, now, cfg);
    if id in st.data.at {
      EndedMarks(st.data.at[id], now, TIMEOUT);
      WriteStored(st, id, Ended(st.data.at[id], now, TIMEOUT), now + cfg.expiration);
    }
  }

  lemma {:induction false} CleanedRecord(st: SessionMachine.Sessions, ids: seq<string>, now: int, cfg: Config,
        k: string)
    requires SessionMachine.Inv(st, cfg) && NoDup(ids)
    requires forall j | j in st.expiry :: !MemoryStorage.Expired(st, j, now)
    ensures var st' := SessionMachine.CleanedAll(st, ids, now, cfg);
      && SessionMachine.Inv(st', cfg) && (k in st'.data.at <==> k in st.data.at)
      && (k in st.data.at ==> CleansTo(Stored(st)[k], Stored(st')[k], k in ids, now, cfg))
  {
    if ids != [] {
      var front, id := ids[..|ids| - 1], ids[|ids| - 1];
      assert ids == front + [id] && id !in front;
      CleanedRecord(st, front, now, cfg, k);
      CleanedRecord(st, front, now, cfg, id);
      CleanedOneRecord(SessionMachine.CleanedAll(st, front, now, cfg), id, now, cfg, k);
    }
  }

  /** The victims of a create in memory, and of no other call. */
  ghost function MemoryVictims(st: SessionMachine.Sessions, e: Event, cfg: Config): seq<string>
    requires MemoryStorage.Sound(st)
  {
    if !e.Create? then []
    else
      MemoryStorage.CheckedSound(st, "", e.now);
      SessionMachine.Victims(MemoryStorage.View(st, e.now), e.user, e.now, cfg.maxSessions)
  }

  lemma {:induction false} EnforcedRecord(st: SessionMachine.Sessions, e: Event, cfg: Config, k: string)
    requires SessionMachine.Inv(st, cfg) && e.Create?
    ensures var mid := SessionMachine.Enforced(st, e.user, e.now, cfg);
      && SessionMachine.Inv(mid, cfg)
      && Ends(Stored(st), Stored(mid), k, MemoryStorage.Lookup(st, k, e.now).Some?, k in MemoryVictims(st, e, cfg),
              e.now, cfg.expiration)
  {
    SessionMachine.EnforcedInv(st, e.user, e.now, cfg);
    SessionMachine.ViewInv(st, "", e.now, cfg);
    var seen := MemoryStorage.View(st, e.now);
    VictimsOnce(seen, e.user, e.now, cfg.maxSessions);
    TerminatedAllRecord(seen, MemoryVictims(st, e, cfg), e.now, cfg, k);
  }

  lemma {:induction false} NewRecord(before: Records, mid: SessionMachine.Sessions, e: Event, cfg: Config, k: string,
        live: bool, victims: seq<string>, after: SessionMachine.Sessions)
    requires MemoryStorage.Sound(mid) && e.Create?
    requires Ends(before, Stored(mid), k, live, k in victims, e.now, cfg.expiration)
    requires after == MemoryStorage.Write(mid, e.id, NewSession(e.id, e.user, e.origin, e.metadata, e.now),
                                          e.now + cfg.expiration)
    ensures StepsTo(before, Stored(after), e, k, live, victims, false, cfg)
  {
    WriteStored(mid, e.id, NewSession(e.id, e.user, e.origin, e.metadata, e.now), e.now + cfg.expiration);
    CreateSteps(before, Stored(mid), Stored(after), e, k, live, victims, cfg);
  }

  lemma {:induction false} CreateWrites(m: SessionMachine.Manager, e: Event, cfg: Config)
    requires MemoryStorage.Sound(m.store) && e.Create?
    ensures SessionMachine.Step(m, e, cfg).0.store
      == MemoryStorage.Write(SessionMachine.Enforced(m.store, e.user, e.now, cfg), e.id,
                             NewSession(e.id, e.user, e.origin, e.metadata, e.now), e.now + cfg.expiration)
  {
  }

  lemma {:induction false} CreateRecord(st: SessionMachine.Sessions, e: Event, cfg: Config, k: string,
        after: SessionMachine.Sessions)
    requires SessionMachine.Inv(st, cfg) && e.Create?
    requires after == MemoryStorage.Write(SessionMachine.Enforced(st, e.user, e.now, cfg), e.id,
                                          NewSession(e.id, e.user, e.origin, e.metadata, e.now), e.now + cfg.expiration)
    ensures StepsTo(Stored(st), Stored(after), e, k, MemoryStorage.Lookup(st, k, e.now).Some?,
                    MemoryVictims(st, e, cfg), false, cfg)
  {
    EnforcedRecord(st, e, cfg, k);
    NewRecord(Stored(st), SessionMachine.Enforced(st, e.user, e.now, cfg), e, cfg, k,
      MemoryStorage.Lookup(st, k, e.now).Some?, MemoryVictims(st, e, cfg), after);
  }

  lemma {:induction false} VictimsOnce(st: SessionMachine.Sessions, user: int, now: int, max: int)
    requires MemoryStorage.Sound(st)
    ensures NoDup(SessionMachine.Victims(st, user, now, max))
  {
    var all, w := Keep(st.data.keys, SessionMachine.ActiveKeys(st, user, now)), SessionMachine.Activity(st.data);
    KeepMembers(st.data.keys, SessionMachine.ActiveKeys(st, user, now));
    KeepNoDup(st.data.keys, SessionMachine.ActiveKeys(st, user, now));
    SortMembers(all, w);
    SortNoDup(all, w);
  }

  lemma {:induction false} CleanupRecord(m: SessionMachine.Manager, e: Event, cfg: Config, k: string)
    requires SessionMachine.Inv(m.store, cfg) && e.Cleanup?
    ensures SessionMachine.Inv(SessionMachine.Step(m, e, cfg).0.store, cfg)
    ensures StepsTo(Stored(m.store), Stored(SessionMachine.Step(m, e, cfg).0.store), e, k,
                    MemoryStorage.Lookup(m.store, k, e.now).Some?, [],
                    e.now - m.lastCleanup >= cfg.cleanupInterval, cfg)
  {
    var seen := MemoryStorage.View(m.store, e.now);
    SessionMachine.CleanedInv(m, e.now, cfg);
    SessionMachine.ViewInv(m.store, "", e.now, cfg);
    CleanedRecord(seen, seen.data.keys, e.now, cfg, k);
  }

  /** A validation ends a session that was idle too long, touches any other active one, and changes no other record. */
  lemma {:induction false} ValidateStored(st: SessionMachine.Sessions, id: string, update: bool, now: int, cfg: Config)
    requires MemoryStorage.Sound(st)
    ensures var found, st' := MemoryStorage.Lookup(st, id, now), SessionMachine.Validated(st, id, update, now, cfg).0;
      if id == "" || found.None? || !found.value.isActive
      then Stored(st') == Stored(st) || (found.None? && Stored(st') == Stored(st) - {id})
      else if IdleTooLong(found.value, now, cfg) then st' == SessionMachine.Terminated(st, id, now, cfg)
      else
        var used := Entry(found.value.(lastActivity := now), now + cfg.expiration);
        Stored(st') == if update then Stored(st)[id := used] else Stored(st)
  {
  }

  lemma {:induction false} ValidateRecord(st: SessionMachine.Sessions, e: Event, cfg: Config, k: string,
        after: SessionMachine.Sessions)
    requires SessionMachine.Inv(st, cfg) && e.Validate?
    requires after == SessionMachine.Validated(st, e.id, e.updateActivity, e.now, cfg).0
    ensures StepsTo(Stored(st), Stored(after), e, k, MemoryStorage.Lookup(st, k, e.now).Some?, [], false, cfg)
  {
    ValidateStored(st, e.id, e.updateActivity, e.now, cfg);
    var found, live := MemoryStorage.Lookup(st, e.id, e.now), MemoryStorage.Lookup(st, k, e.now).Some?;
    if e.id != "" && found.Some? && IdleTooLong(found.value, e.now, cfg) {
      TerminatedRecord(st, e.id, e.now, cfg, k);
      EndsSteps(Stored(st), Stored(after), e, k, live, k == e.id, cfg);
    } else {
      TouchSteps(Stored(st), Stored(after), e, k, live, cfg);
    }
  }

  /**
   One call over the in-memory storage: a create stores the record it was asked for, and each live
   record is ended for the reason that applies to it, touched, or left as it was.
   */
  lemma {:induction false} MemoryStep(m: SessionMachine.Manager, e: Event, cfg: Config, k: string)
    requires SessionMachine.Inv(m.store, cfg)
    ensures SessionMachine.Inv(SessionMachine.Step(m, e, cfg).0.store, cfg)
    ensures StepsTo(Stored(m.store), Stored(SessionMachine.Step(m, e, cfg).0.store), e, k,
                    MemoryStorage.Lookup(m.store, k, e.now).Some?, MemoryVictims(m.store, e, cfg),
                    e.now - m.lastCleanup >= cfg.cleanupInterval, cfg)
    ensures SessionMachine.Step(m, e, cfg).0.lastCleanup
         == if e.Cleanup? && e.now - m.lastCleanup >= cfg.cleanupInterval then e.now else m.lastCleanup
  {
    match e
    case Create(_, _, _, _, _) =>
      SessionMachine.StepInv(m, e, cfg);
      CreateWrites(m, e, cfg);
      CreateRecord(m.store, e, cfg, k, SessionMachine.Step(m, e, cfg).0.store);
    case Validate(id, update, now) =>
      SessionMachine.ValidatedInv(m.store, id, update, now, cfg);
      ValidateRecord(m.store, e, cfg, k, SessionMachine.Validated(m.store, id, update, now, cfg).0);
    case Terminate(id, now) =>
      TerminatedRecord(m.store, id, now, cfg, k);
      var after := Stored(SessionMachine.Terminated(m.store, id, now, cfg));
      EndsSteps(Stored(m.store), after, e, k, MemoryStorage.Lookup(m.store, k, now).Some?, k == id, cfg);
    case Cleanup(_) => CleanupRecord(m, e, cfg, k);
  }

  // ------------------------------------------------------------- on a server

  lemma {:induction false} TerminatedEntry(b: SessionBackends.Backend, id: string, now: int, cfg: Config, k: string)
    ensures var es, es' := SessionBackends.SessionsOf(b),
        SessionBackends.SessionsOf(SessionBackends.Terminated(b, id, now, cfg));
      Ends(es, es', k, Alive(es, k, now), k == id, now, cfg.expiration)
  {
    if Alive(SessionBackends.SessionsOf(b), id, now) {
      var s := SessionBackends.SessionsOf(b)[id].data;
      EndedMarks(s, now, MANUAL);
      SessionBackends.RewrittenEntry(b, id, Ended(s, now, MANUAL), now, cfg.expiration);
    }
  }

  lemma {:induction false} EndsTwice(a: Records, b: Records, c: Records, k: string, live: bool, still: bool,
        first: bool, second: bool, now: int, exp: int)
    requires Ends(a, b, k, live, first, now, exp) && Ends(b, c, k, still, second, now, exp)
    requires (still ==> live) && (live && !first ==> still) && (k in a <==> k in b) && (k in b <==> k in c)
    ensures Ends(a, c, k, live, first || second, now, exp)
  {
  }

  lemma {:induction false} TerminatedAllEntry(b: SessionBackends.Backend, ids: seq<string>, now: int, cfg: Config,
        k: string)
    ensures var es, es' := SessionBackends.SessionsOf(b),
        SessionBackends.SessionsOf(SessionBackends.TerminatedAll(b, ids, now, cfg));
      Ends(es, es', k, Alive(es, k, now), k in ids, now, cfg.expiration) && (k in es <==> k in es')
  {
    if ids != [] {
      var front, id := ids[..|ids| - 1], ids[|ids| - 1];
      assert ids == front + [id];
      TerminatedAllEntry(b, front, now, cfg, k);
      var mid := SessionBackends.TerminatedAll(b, front, now, cfg);
      TerminatedEntry(mid, id, now, cfg, k);
      EndsTwice(SessionBackends.SessionsOf(b), SessionBackends.SessionsOf(mid),
        SessionBackends.SessionsOf(SessionBackends.Terminated(mid, id, now, cfg)), k,
        Alive(SessionBackends.SessionsOf(b), k, now), Alive(SessionBackends.SessionsOf(mid), k, now),
        k in front, k == id, now, cfg.expiration);
    }
  }

  /** The victims of a create on a server, and of no other call. */
  ghost function ServerVictims(es: Servers.Entries, c: SessionBackends.Call, cfg: Config): seq<string> {
    if c.e.Create? then SessionBackends.Victims(es, c.listed, c.e.now, cfg.maxSessions) else []
  }

  /** A cleanup is due and can scan the server, and the scan comes upon `k`. */
  ghost predicate ScanMeets(m: SessionBackends.Manager, c: SessionBackends.Call, k: string, cfg: Config) {
    m.backend.Redis? && c.e.now - m.lastCleanup >= cfg.cleanupInterval && k in c.listed
  }

  lemma {:induction false} ServerCreate(m: SessionBackends.Manager, c: SessionBackends.Call, cfg: Config, k: string)
    requires c.e.Create?
    ensures var es, es' := SessionBackends.SessionsOf(m.backend),
        SessionBackends.SessionsOf(SessionBackends.Step(m, c, cfg).0.backend);
      StepsTo(es, es', c.e, k, Alive(es, k, c.e.now), ServerVictims(es, c, cfg), false, cfg)
  {
    var es, e := SessionBackends.SessionsOf(m.backend), c.e;
    var out := ServerVictims(es, c, cfg);
    TerminatedAllEntry(m.backend, out, e.now, cfg, k);
    CreateSteps(es, SessionBackends.SessionsOf(SessionBackends.TerminatedAll(m.backend, out, e.now, cfg)),
      SessionBackends.SessionsOf(SessionBackends.Step(m, c, cfg).0.backend), e, k, Alive(es, k, e.now), out, cfg);
  }

  lemma {:induction false} ServerValidate(m: SessionBackends.Manager, c: SessionBackends.Call, cfg: Config, k: string)
    requires c.e.Validate?
    ensures var es, es' := SessionBackends.SessionsOf(m.backend),
        SessionBackends.SessionsOf(SessionBackends.Step(m, c, cfg).0.backend);
      StepsTo(es, es', c.e, k, Alive(es, k, c.e.now), [], false, cfg)
  {
    var es, e := SessionBackends.SessionsOf(m.backend), c.e;
    var es' := SessionBackends.SessionsOf(SessionBackends.Step(m, c, cfg).0.backend);
    if e.id != "" && Alive(es, e.id, e.now) && IdleTooLong(es[e.id].data, e.now, cfg) {
      TerminatedEntry(m.backend, e.id, e.now, cfg, k);
      EndsSteps(es, es', e, k, Alive(es, k, e.now), k == e.id, cfg);
    } else {
      if Alive(es, e.id, e.now) {
        SessionBackends.RewrittenEntry(m.backend, e.id, es[e.id].data.(lastActivity := e.now), e.now, cfg.expiration);
      }
      TouchSteps(es, es', e, k, Alive(es, k, e.now), cfg);
    }
  }

  /** One call over a server makes of every record what it would in memory, except that Memcached cleans nothing. */
  lemma {:induction false} ServerStep(m: SessionBackends.Manager, c: SessionBackends.Call, cfg: Config, k: string)
    ensures var es, es' := SessionBackends.SessionsOf(m.backend),
        SessionBackends.SessionsOf(SessionBackends.Step(m, c, cfg).0.backend);
      StepsTo(es, es', c.e, k, Alive(es, k, c.e.now), ServerVictims(es, c, cfg), ScanMeets(m, c, k, cfg), cfg)
    ensures SessionBackends.Step(m, c, cfg).0.lastCleanup
         == if c.e.Cleanup? && c.e.now - m.lastCleanup >= cfg.cleanupInterval then c.e.now else m.lastCleanup
  {
    var es := SessionBackends.SessionsOf(m.backend);
    match c.e
    case Create(_, _, _, _, _) => ServerCreate(m, c, cfg, k);
    case Validate(_, _, _) => ServerValidate(m, c, cfg, k);
    case Terminate(id, now) =>
      TerminatedEntry(m.backend, id, now, cfg, k);
      EndsSteps(es, SessionBackends.SessionsOf(SessionBackends.Step(m, c, cfg).0.backend), c.e, k, Alive(es, k, now),
        k == id, cfg);
    case Cleanup(now) => SessionBackends.CleanedAllExactly(m.backend, c.listed, now, cfg, k);
  }

  // ------------------------------------------------------------- whole runs

  /** The most recent create of a session under `id`. */
  function LastCreate(events: seq<Event>, id: string): Option<Event> {
    if events == [] then None
    else
      var e := events[|events| - 1];
      if e.Create? && e.id == id then Some(e) else LastCreate(events[..|events| - 1], id)
  }

  /**
   The record stems from the last create under its id. An active one still has everything the create
   was given, and lives one lifetime from its last use; an ended one says when and why it was ended.
   */
  ghost predicate Stems(events: seq<Event>, id: string, r: Record, exp: int) {
    var c := LastCreate(events, id);
    && c.Some? && CreatedBy(r.data, c.value)
    && if r.data.isActive then r.data.metadata == c.value.metadata && r.deadline == r.data.lastActivity + exp
       else exists at, reason :: EndMarks(c.value.metadata, r, at, reason, exp)
  }

  ghost predicate EndMarks(original: map<string, MetaValue>, r: Record, at: int, reason: string, exp: int) {
    (reason == MANUAL || reason == TIMEOUT) && Marked(original, r.data.metadata, at, reason) && r.deadline == at + exp
  }

  lemma {:induction false} StemsOn(events: seq<Event>, e: Event, before: Records, after: Records, k: string, live: bool,
        victims: seq<string>, cleans: bool, cfg: Config)
    requires StepsTo(before, after, e, k, live, victims, cleans, cfg)
    requires (k in before ==> Stems(events, k, before[k], cfg.expiration)) && k in after
    ensures Stems(events + [e], k, after[k], cfg.expiration)
  {
    assert (events + [e])[..|events|] == events;
    if live && !(e.Create? && e.id == k) && !after[k].data.isActive {
      var ended := EndReason(e, k, before[k].data, victims, cleans, cfg);
      if ended.Some? {
        assert EndMarks(LastCreate(events, k).value.metadata, after[k], e.now, ended.value, cfg.expiration);
      }
    }
  }

  /** The manager over memory after a run. */
  ghost function After(events: seq<Event>, start: int, cfg: Config): (m: SessionMachine.Manager)
    ensures SessionMachine.Inv(m.store, cfg)
  {
    if events == [] then SessionMachine.Manager(MemoryStorage.Store(Dicts.Empty(), map[]), start)
    else
      var m, e := After(events[..|events| - 1], start, cfg), events[|events| - 1];
      SessionMachine.StepInv(m, e, cfg);
      SessionMachine.Step(m, e, cfg).0
  }

  lemma {:induction false} MemoryStemsOn(m: SessionMachine.Manager, events: seq<Event>, e: Event, cfg: Config,
        k: string)
    requires SessionMachine.Inv(m.store, cfg) && k in Stored(SessionMachine.Step(m, e, cfg).0.store)
    requires k in Stored(m.store) ==> Stems(events, k, Stored(m.store)[k], cfg.expiration)
    ensures Stems(events + [e], k, Stored(SessionMachine.Step(m, e, cfg).0.store)[k], cfg.expiration)
  {
    MemoryStep(m, e, cfg, k);
    StemsOn(events, e, Stored(m.store), Stored(SessionMachine.Step(m, e, cfg).0.store), k,
      MemoryStorage.Lookup(m.store, k, e.now).Some?, MemoryVictims(m.store, e, cfg),
      e.now - m.lastCleanup >= cfg.cleanupInterval, cfg);
  }

  /** After every run over memory, every stored record stems from the last create under its id. */
  lemma {:induction false} MemoryRecords(events: seq<Event>, start: int, cfg: Config, k: string, st: Records)
    requires st == Stored(After(events, start, cfg).store)
    ensures k in st ==> Stems(events, k, st[k], cfg.expiration)
  {
    if events != [] {
      var front, e := events[..|events| - 1], events[|events| - 1];
      var m := After(front, start, cfg);
      MemoryRecords(front, start, cfg, k, Stored(m.store));
      assert events == front + [e];
      if k in st {
        MemoryStemsOn(m, front, e, cfg, k);
      }
    }
  }

  function ServerAfter(b: SessionBackends.Backend, calls: seq<SessionBackends.Call>, start: int, cfg: Config)
    : SessionBackends.Manager
  {
    if calls == [] then SessionBackends.Manager(b, start)
    else SessionBackends.Step(ServerAfter(b, calls[..|calls| - 1], start, cfg), calls[|calls| - 1], cfg).0
  }

  function EventsOf(calls: seq<SessionBackends.Call>): seq<Event> {
    if calls == [] then [] else EventsOf(calls[..|calls| - 1]) + [calls[|calls| - 1].e]
  }

  /** The same after every run from an empty server, whatever it lists. */
  lemma {:induction false} ServerRecords(b: SessionBackends.Backend, calls: seq<SessionBackends.Call>, start: int,
        cfg: Config, k: string)
    requires SessionBackends.IsEmpty(b)
    requires k in SessionBackends.SessionsOf(ServerAfter(b, calls, start, cfg).backend)
    ensures Stems(EventsOf(calls), k, SessionBackends.SessionsOf(ServerAfter(b, calls, start, cfg).backend)[k],
                  cfg.expiration)
  {
    if calls != [] {
      var front, c := calls[..|calls| - 1], calls[|calls| - 1];
      var m := ServerAfter(b, front, start, cfg);
      var es := SessionBackends.SessionsOf(m.backend);
      if k in es {
        ServerRecords(b, front, start, cfg, k);
      }
      ServerStep(m, c, cfg, k);
      StemsOn(EventsOf(front), c.e, es, SessionBackends.SessionsOf(ServerAfter(b, calls, start, cfg).backend), k,
        Alive(es, k, c.e.now), ServerVictims(es, c, cfg), ScanMeets(m, c, k, cfg), cfg);
    }
  }

  /** An answer is active and carries the user, id, origin, time and metadata of the create. */
  ghost predicate Carries(s: SessionData, events: seq<Event>, id: string) {
    var c := LastCreate(events, id);
    c.Some? && c.value.Create? && s.isActive
    && s.userId == c.value.user && s.sessionId == id && s.origin == c.value.origin && s.createdAt == c.value.now
    && s.metadata == c.value.metadata
  }

  /** What a validation answers over memory is the session as it was created, after any run. */
  lemma {:induction false} MemoryAnswers(events: seq<Event>, start: int, cfg: Config, id: string, update: bool,
        now: int)
    ensures var found := SessionMachine.Step(After(events, start, cfg), Validate(id, update, now), cfg).1;
      found.Some? ==> Carries(found.value, events, id)
  {
    if id in After(events, start, cfg).store.data.at {
      MemoryRecords(events, start, cfg, id, Stored(After(events, start, cfg).store));
      LastCreateHasId(events, id);
    }
  }

  lemma {:induction false} LastCreateHasId(events: seq<Event>, id: string)
    ensures var c := LastCreate(events, id); c.Some? ==> c.value.Create? && c.value.id == id && c.value in events
  {
    if events != [] {
      LastCreateHasId(events[..|events| - 1], id);
    }
  }

  lemma {:induction false} ServerAnswers(b: SessionBackends.Backend, calls: seq<SessionBackends.Call>, start: int,
        cfg: Config, id: string, update: bool, now: int)
    requires SessionBackends.IsEmpty(b)
    ensures var c := SessionBackends.Call(Validate(id, update, now), []);
      var found := SessionBackends.Step(ServerAfter(b, calls, start, cfg), c, cfg).1;
      found.Some? ==> Carries(found.value, EventsOf(calls), id)
  {
    if id in SessionBackends.SessionsOf(ServerAfter(b, calls, start, cfg).backend) {
      ServerRecords(b, calls, start, cfg, id);
      LastCreateHasId(EventsOf(calls), id);
    }
  }
}
