/**
 The sessions as a client sees them: a dictionary that knows nothing of storage deadlines, lazy
 expiry, cleanup or deactivated records. A session is there from its creation until it is
 terminated or evicted, and it is valid while it has not been idle longer than the idle limit.
 The machine over the in-memory storage gives the same answers over every run.
 */
module SessionReference {
  import opened Wrappers
  import opened Ordering
  import opened Dicts
  import opened MemoryStorage
  import opened SessionMachine
  import opened SessionModel

  type Clients = Dict<SessionData>

  /** The overlapping timers come down to one: the smaller of storage expiration and session timeout. */
  function IdleLimit(cfg: Config): int {
    if cfg.expiration < cfg.sessionTimeout then cfg.expiration else cfg.sessionTimeout
  }

  function Valid(r: Clients, now: int, cfg: Config): set<string> {
    set k | k in r.at && now - r.at[k].lastActivity <= IdleLimit(cfg)
  }

  function ValidFor(r: Clients, user: int, now: int, cfg: Config): set<string> {
    set k | k in Valid(r, now, cfg) && r.at[k].userId == user
  }

  function RefVictims(r: Clients, user: int, now: int, cfg: Config): seq<string>
    requires Proper(r)
  {
    KeepMembers(r.keys, ValidFor(r, user, now, cfg));
    Oldest(Keep(r.keys, ValidFor(r, user, now, cfg)), Activity(r), cfg.maxSessions)
  }

  /** Only valid sessions count against the limit; the longest idle of them make room. */
  function RefEvicted(r: Clients, user: int, now: int, cfg: Config): Clients
    requires Proper(r)
  {
    Restrict(r, r.at.Keys - Elements(RefVictims(r, user, now, cfg)))
  }

  function RefStep(r: Clients, e: Event, cfg: Config): (Clients, Option<SessionData>)
    requires Proper(r)
  {
    match e
    case Create(id, user, origin, metadata, now) =>
      (Put(RefEvicted(r, user, now, cfg), id, NewSession(id, user, origin, metadata, now)), None)
    case Validate(id, update, now) =>
      if id !in Valid(r, now, cfg) then (r, None)
      else if update then
        var s := r.at[id].(lastActivity := now);
        (Put(r, id, s), Some(s))
      else (r, Some(r.at[id]))
    case Terminate(id, now) => (Remove(r, id), None)
    case Cleanup(now) => (r, None)
  }

  // ------------------------------------------------------------- the abstraction

  /** The stored sessions that are active, unexpired and not timed out. */
  function Live(st: Sessions, now: int, cfg: Config): set<string> {
    set k | k in st.data.at && !Expired(st, k, now)
      && st.data.at[k].isActive && now - st.data.at[k].lastActivity <= cfg.sessionTimeout
  }

  function Seen(st: Sessions, now: int, cfg: Config): Clients {
    Restrict(st.data, Live(st, now, cfg))
  }

  function Shown(r: Clients, now: int, cfg: Config): Clients {
    Restrict(r, Valid(r, now, cfg))
  }

  /** The two machines agree on the sessions that are valid at `now`. */
  ghost predicate Related(st: Sessions, r: Clients, now: int, cfg: Config) {
    && Inv(st, cfg)
    && Proper(r)
    && (forall k | k in r.at :: r.at[k].lastActivity <= now)
    && Seen(st, now, cfg) == Shown(r, now, cfg)
  }

  lemma {:induction false} RelatedKeys(st: Sessions, r: Clients, now: int, cfg: Config)
    requires Related(st, r, now, cfg)
    ensures Live(st, now, cfg) == Valid(r, now, cfg)
    ensures forall k | k in Live(st, now, cfg) :: k in r.at && st.data.at[k] == r.at[k]
  {
    assert Seen(st, now, cfg).at.Keys == Live(st, now, cfg);
    assert Shown(r, now, cfg).at.Keys == Valid(r, now, cfg);
    forall k | k in Live(st, now, cfg) ensures st.data.at[k] == r.at[k] {
      assert Seen(st, now, cfg).at[k] == st.data.at[k];
      assert Shown(r, now, cfg).at[k] == r.at[k];
    }
  }

  /** Agreement at one time is agreement at every later time. */
  lemma {:induction false} RelatedLater(st: Sessions, r: Clients, now: int, later: int, cfg: Config)
    requires Related(st, r, now, cfg) && now <= later
    ensures Related(st, r, later, cfg)
  {
    RelatedKeys(st, r, now, cfg);
    RestrictTwice(st.data, Live(st, now, cfg), Live(st, later, cfg));
    RestrictTwice(r, Valid(r, now, cfg), Live(st, later, cfg));
    assert Live(st, now, cfg) * Live(st, later, cfg) == Live(st, later, cfg);
    assert Valid(r, now, cfg) * Live(st, later, cfg) == Valid(r, later, cfg);
  }

  // ------------------------------------------------------------- dropping and deactivating

  /** Nothing that was not live is seen, so dropping or deactivating it is invisible. */
  lemma {:induction false} SeenAfterDrop(st: Sessions, ks: set<string>, now: int, cfg: Config)
    requires Inv(st, cfg) && Live(st, now, cfg) <= ks
    ensures Seen(RestrictStore(st, ks), now, cfg) == Seen(st, now, cfg)
  {
    var st' := RestrictStore(st, ks);
    assert Live(st', now, cfg) == Live(st, now, cfg);
    RestrictTwice(st.data, ks, Live(st, now, cfg));
    assert ks * Live(st, now, cfg) == Live(st, now, cfg);
  }

  /** Rewriting an entry as inactive takes exactly that session away. */
  lemma {:induction false} SeenAfterEnding(st: Sessions, id: string, s: SessionData, deadline: int, now: int,
        cfg: Config)
    requires Inv(st, cfg) && id in st.data.at && !s.isActive
    ensures Seen(Write(st, id, s, deadline), now, cfg) == Remove(Seen(st, now, cfg), id)
  {
    var live, rest := Live(st, now, cfg), Live(st, now, cfg) - {id};
    assert Live(Write(st, id, s, deadline), now, cfg) == rest;
    RestrictPutOutside(st.data, id, s, rest);
    RestrictTwice(st.data, live, Seen(st, now, cfg).at.Keys - {id});
    assert live * (Seen(st, now, cfg).at.Keys - {id}) == rest;
  }

  lemma {:induction false} RemoveUnseen(st: Sessions, k: string, now: int, cfg: Config)
    requires Inv(st, cfg) && k !in Live(st, now, cfg)
    ensures Remove(Seen(st, now, cfg), k) == Seen(st, now, cfg)
  {
    RestrictProper(st.data, Live(st, now, cfg));
    RestrictAll(Seen(st, now, cfg), Seen(st, now, cfg).at.Keys - {k});
  }

  lemma {:induction false} SeenAfterTerminate(st: Sessions, id: string, now: int, cfg: Config)
    requires Inv(st, cfg)
    ensures Seen(Terminated(st, id, now, cfg), now, cfg) == Remove(Seen(st, now, cfg), id)
  {
    match Lookup(st, id, now)
    case None =>
      SeenAfterDrop(st, st.expiry.Keys - {id}, now, cfg);
      RemoveUnseen(st, id, now, cfg);
    case Some(s) =>
      SeenAfterEnding(st, id, Ended(s, now, "manual_termination"), now + cfg.expiration, now, cfg);
  }

  lemma {:induction false} SeenAfterTerminateAll(st: Sessions, ids: seq<string>, now: int, cfg: Config)
    requires Inv(st, cfg)
    ensures Seen(TerminatedAll(st, ids, now, cfg), now, cfg)
         == Restrict(Seen(st, now, cfg), Seen(st, now, cfg).at.Keys - Elements(ids))
  {
    var d := Seen(st, now, cfg);
    RestrictProper(st.data, Live(st, now, cfg));
    if ids == [] {
      RestrictAll(d, d.at.Keys - Elements(ids));
    } else {
      var front, id := ids[..|ids| - 1], ids[|ids| - 1];
      SeenAfterTerminateAll(st, front, now, cfg);
      TerminatedAllInv(st, front, now, cfg);
      SeenAfterTerminate(TerminatedAll(st, front, now, cfg), id, now, cfg);
      CutMore(d, Elements(front), id);
      ElementsSplit(ids);
    }
  }

  /** A cleanup only deactivates sessions that had timed out, so it is invisible. */
  lemma {:induction false} SeenAfterClean(st: Sessions, ks: seq<string>, now: int, cfg: Config)
    requires Inv(st, cfg)
    ensures Seen(CleanedAll(st, ks, now, cfg), now, cfg) == Seen(st, now, cfg)
  {
    if ks != [] {
      var front, k := ks[..|ks| - 1], ks[|ks| - 1];
      SeenAfterClean(st, front, now, cfg);
      CleanedAllInv(st, front, now, cfg);
      SeenAfterCleanOne(CleanedAll(st, front, now, cfg), k, now, cfg);
    }
  }

  lemma {:induction false} SeenAfterCleanOne(st: Sessions, k: string, now: int, cfg: Config)
    requires Inv(st, cfg)
    ensures Seen(CleanedOne(st, k, now, cfg), now, cfg) == Seen(st, now, cfg)
  {
    match Lookup(st, k, now)
    case None => SeenAfterDrop(st, st.expiry.Keys - {k}, now, cfg);
    case Some(s) =>
      if TimedOut(s, now, cfg) {
        SeenAfterEnding(st, k, Ended(s, now, "session_timeout"), now + cfg.expiration, now, cfg);
        RemoveUnseen(st, k, now, cfg);
      }
  }

  lemma {:induction false} SeenInView(st: Sessions, now: int, cfg: Config)
    requires Inv(st, cfg)
    ensures Inv(View(st, now), cfg)
    ensures Seen(View(st, now), now, cfg) == Seen(st, now, cfg)
  {
    ViewInv(st, "", now, cfg);
    SeenAfterDrop(st, Unexpired(st, now), now, cfg);
  }

  // ------------------------------------------------------------- eviction

  /** Counting timed-out sessions against the limit costs no valid session its place. */
  lemma {:induction false} VictimsShare(dead: seq<string>, alive: seq<string>, max: int)
    ensures var n, m := VictimCount(|dead| + |alive|, max), VictimCount(|alive|, max);
      && (n <= |dead| ==> m == 0)
      && (n > |dead| ==> m == n - |dead|)
      && (dead + alive)[..n] == if n <= |dead| then dead[..n] else dead + alive[..m]
  {
  }

  lemma {:induction false} OldestSplits(all: seq<string>, live: set<string>, rest: set<string>,
        w: map<string, int>, max: int)
    requires Covers(w, all) && TopHeavy(all, live, w) && Covers(w, Keep(all, live)) && Covers(w, Keep(all, rest))
    requires forall k | k in all :: k in rest <==> k !in live
    ensures var dead, n := Sort(Keep(all, rest), w), VictimCount(|all|, max);
      Oldest(all, w, max) == if n <= |dead| then dead[..n] else dead + Oldest(Keep(all, live), w, max)
    ensures var n := VictimCount(|all|, max);
      n <= |Sort(Keep(all, rest), w)| ==> Oldest(Keep(all, live), w, max) == []
  {
    SortSplits(all, live, rest, w);
    SortLength(Keep(all, live), w);
    SortLength(all, w);
    VictimsShare(Sort(Keep(all, rest), w), Sort(Keep(all, live), w), max);
  }

  /**
   `all` are the active sessions of a user, `live` the valid ones. Eviction hits exactly the valid
   sessions it would hit if the others did not exist.
   */
  lemma {:induction false} SameLiveVictims(all: seq<string>, live: set<string>, w: map<string, int>, max: int,
        k: string)
    requires Covers(w, all) && TopHeavy(all, live, w) && Covers(w, Keep(all, live))
    requires k in live
    ensures k in Oldest(all, w, max) <==> k in Oldest(Keep(all, live), w, max)
  {
    var rest := Elements(all) - live;
    KeepMembers(all, rest);
    SortMembers(Keep(all, rest), w);
    OldestSplits(all, live, rest, w, max);
    assert k !in Sort(Keep(all, rest), w);
  }

  /** Storage and reference list the user's valid sessions alike. */
  lemma {:induction false} LiveOfUser(st: Sessions, r: Clients, user: int, now: int, cfg: Config)
    requires Related(st, r, now, cfg)
    ensures Keep(Keep(st.data.keys, ActiveKeys(st, user, now)), Live(st, now, cfg))
         == Keep(r.keys, ValidFor(r, user, now, cfg))
  {
    var live, active, mine := Live(st, now, cfg), ActiveKeys(st, user, now), ValidFor(r, user, now, cfg);
    RelatedKeys(st, r, now, cfg);
    KeepTwice(st.data.keys, active, live);
    KeepTwice(st.data.keys, live, mine);
    KeepTwice(r.keys, Valid(r, now, cfg), mine);
    assert Seen(st, now, cfg).keys == Shown(r, now, cfg).keys;
    assert active * live == live * mine;
    assert Valid(r, now, cfg) * mine == mine;
  }

  lemma {:induction false} RefVictimsMatch(st: Sessions, r: Clients, user: int, now: int, cfg: Config, k: string)
    requires Related(st, r, now, cfg) && k in Live(st, now, cfg)
    ensures k in Victims(st, user, now, cfg.maxSessions) <==> k in RefVictims(r, user, now, cfg)
  {
    var live, active := Live(st, now, cfg), ActiveKeys(st, user, now);
    var all, w := Keep(st.data.keys, active), Activity(st.data);
    KeepMembers(st.data.keys, active);
    KeepMembers(all, live);
    SameLiveVictims(all, live, w, cfg.maxSessions, k);
    RelatedKeys(st, r, now, cfg);
    var mine := ValidFor(r, user, now, cfg);
    LiveOfUser(st, r, user, now, cfg);
    KeepMembers(r.keys, mine);
    SortWeights(Keep(r.keys, mine), w, Activity(r));
  }

  lemma {:induction false} ShownAfterCut(r: Clients, ks: set<string>, now: int, cfg: Config)
    requires Proper(r)
    ensures Proper(Restrict(r, ks))
    ensures Shown(Restrict(r, ks), now, cfg) == Restrict(Shown(r, now, cfg), ks)
  {
    RestrictProper(r, ks);
    var ok, ok' := Valid(r, now, cfg), Valid(Restrict(r, ks), now, cfg);
    RestrictTwice(r, ok, ks);
    RestrictTwice(r, ks, ok');
    assert ok * ks == ks * ok';
  }

  lemma {:induction false} SeenAfterEnforce(st: Sessions, r: Clients, user: int, now: int, cfg: Config)
    requires Related(st, r, now, cfg)
    ensures Related(Enforced(st, user, now, cfg), RefEvicted(r, user, now, cfg), now, cfg)
  {
    EnforcedInv(st, user, now, cfg);
    SeenInView(st, now, cfg);
    var seen := View(st, now);
    var out, refOut := Victims(seen, user, now, cfg.maxSessions), RefVictims(r, user, now, cfg);
    SeenAfterTerminateAll(seen, out, now, cfg);
    ShownAfterCut(r, r.at.Keys - Elements(refOut), now, cfg);
    RelatedKeys(seen, r, now, cfg);
    forall k | k in Live(seen, now, cfg) ensures k in Elements(out) <==> k in Elements(refOut) {
      RefVictimsMatch(seen, r, user, now, cfg, k);
    }
    SameCut(seen, r, Elements(out), Elements(refOut), now, cfg);
  }

  lemma {:induction false} SameCut(st: Sessions, r: Clients, out: set<string>, refOut: set<string>, now: int,
        cfg: Config)
    requires Related(st, r, now, cfg)
    requires forall k | k in Live(st, now, cfg) :: k in out <==> k in refOut
    ensures Restrict(Seen(st, now, cfg), Seen(st, now, cfg).at.Keys - out)
         == Restrict(Shown(r, now, cfg), r.at.Keys - refOut)
  {
    var d := Seen(st, now, cfg);
    RestrictProper(st.data, Live(st, now, cfg));
    RestrictAgree(d, d.at.Keys - out, r.at.Keys - refOut);
  }

  // ------------------------------------------------------------- one call

  /** Storing a session used just now adds it, or touches it, unless nothing can ever be valid. */
  lemma {:induction false} SeenAfterWrite(st: Sessions, s: SessionData, now: int, cfg: Config)
    requires Inv(st, cfg) && s.isActive && s.lastActivity == now
    requires s.sessionId !in st.data.at || s.sessionId in Live(st, now, cfg)
    requires s.sessionId in st.data.at ==> IdleLimit(cfg) >= 0
    ensures Seen(Write(st, s.sessionId, s, now + cfg.expiration), now, cfg)
         == if IdleLimit(cfg) >= 0 then Put(Seen(st, now, cfg), s.sessionId, s) else Seen(st, now, cfg)
  {
    var id := s.sessionId;
    var st', live := Write(st, id, s, now + cfg.expiration), Live(st, now, cfg);
    if IdleLimit(cfg) >= 0 {
      assert Live(st', now, cfg) == live + {id};
      RestrictPutInside(st.data, id, s, live + {id});
      RestrictAgree(st.data, live + {id}, live);
    } else {
      assert Live(st', now, cfg) == live;
      RestrictPutOutside(st.data, id, s, live);
    }
  }

  lemma {:induction false} ShownAfterPut(r: Clients, s: SessionData, now: int, cfg: Config)
    requires Proper(r) && s.lastActivity == now
    requires s.sessionId !in r.at || s.sessionId in Valid(r, now, cfg)
    requires s.sessionId in r.at ==> IdleLimit(cfg) >= 0
    ensures Shown(Put(r, s.sessionId, s), now, cfg)
         == if IdleLimit(cfg) >= 0 then Put(Shown(r, now, cfg), s.sessionId, s) else Shown(r, now, cfg)
  {
    var id := s.sessionId;
    var r', ok := Put(r, id, s), Valid(r, now, cfg);
    if IdleLimit(cfg) >= 0 {
      assert Valid(r', now, cfg) == ok + {id};
      RestrictPutInside(r, id, s, ok + {id});
      RestrictAgree(r, ok + {id}, ok);
    } else {
      assert Valid(r', now, cfg) == ok;
      RestrictPutOutside(r, id, s, ok);
    }
  }

  lemma {:induction false} WriteShown(st: Sessions, r: Clients, s: SessionData, now: int, cfg: Config)
    requires Related(st, r, now, cfg) && s.isActive && s.lastActivity == now
    requires (s.sessionId !in st.data.at && s.sessionId !in r.at) || s.sessionId in Live(st, now, cfg)
    ensures Seen(Write(st, s.sessionId, s, now + cfg.expiration), now, cfg) == Shown(Put(r, s.sessionId, s), now, cfg)
  {
    RelatedKeys(st, r, now, cfg);
    SeenAfterWrite(st, s, now, cfg);
    ShownAfterPut(r, s, now, cfg);
  }

  lemma {:induction false} WriteRelated(st: Sessions, r: Clients, s: SessionData, now: int, cfg: Config)
    requires Related(st, r, now, cfg) && s.isActive && s.lastActivity == now
    requires (s.sessionId !in st.data.at && s.sessionId !in r.at) || s.sessionId in Live(st, now, cfg)
    ensures Related(Write(st, s.sessionId, s, now + cfg.expiration), Put(r, s.sessionId, s), now, cfg)
  {
    WriteInv(st, s, now, cfg);
    PutProper(r, s.sessionId, s);
    WriteShown(st, r, s, now, cfg);
  }

  lemma {:induction false} ValidatedLive(st: Sessions, id: string, update: bool, now: int, cfg: Config)
    requires Inv(st, cfg) && id != "" && id in Live(st, now, cfg)
    ensures var s := st.data.at[id];
      var used := s.(lastActivity := now);
      && s.sessionId == id
      && Validated(st, id, update, now, cfg)
         == if update then (Write(st, id, used, now + cfg.expiration), Some(used)) else (st, Some(s))
  {
  }

  lemma {:induction false} ValidateLive(st: Sessions, r: Clients, id: string, update: bool, now: int, cfg: Config)
    requires Related(st, r, now, cfg) && id != "" && id in Live(st, now, cfg)
    ensures var (st', found) := Validated(st, id, update, now, cfg);
      var (r', refFound) := RefStep(r, Validate(id, update, now), cfg);
      Related(st', r', now, cfg) && found == refFound
  {
    RelatedKeys(st, r, now, cfg);
    ValidatedLive(st, id, update, now, cfg);
    if update {
      WriteRelated(st, r, st.data.at[id].(lastActivity := now), now, cfg);
    }
  }

  lemma {:induction false} ValidateDead(st: Sessions, id: string, update: bool, now: int, cfg: Config)
    requires Inv(st, cfg) && (id == "" || id !in Live(st, now, cfg))
    ensures Seen(Validated(st, id, update, now, cfg).0, now, cfg) == Seen(st, now, cfg)
    ensures Validated(st, id, update, now, cfg).1 == None
  {
    if id != "" {
      SeenAfterDrop(st, st.expiry.Keys - {id}, now, cfg);
      SeenAfterTerminate(st, id, now, cfg);
      RemoveUnseen(st, id, now, cfg);
    }
  }

  lemma {:induction false} ValidateRelated(st: Sessions, r: Clients, id: string, update: bool, now: int, cfg: Config)
    requires Related(st, r, now, cfg) && "" !in r.at
    ensures var (st', found) := Validated(st, id, update, now, cfg);
      var (r', refFound) := RefStep(r, Validate(id, update, now), cfg);
      Related(st', r', now, cfg) && found == refFound
  {
    RelatedKeys(st, r, now, cfg);
    if id in Live(st, now, cfg) {
      ValidateLive(st, r, id, update, now, cfg);
    } else {
      ValidatedInv(st, id, update, now, cfg);
      ValidateDead(st, id, update, now, cfg);
    }
  }

  lemma {:induction false} TerminateRelated(st: Sessions, r: Clients, id: string, now: int, cfg: Config)
    requires Related(st, r, now, cfg)
    ensures Related(Terminated(st, id, now, cfg), Remove(r, id), now, cfg)
  {
    TerminatedInv(st, id, now, cfg);
    SeenAfterTerminate(st, id, now, cfg);
    ShownAfterCut(r, r.at.Keys - {id}, now, cfg);
    SameCut(st, r, {id}, {id}, now, cfg);
  }

  lemma {:induction false} CreateRelated(st: Sessions, r: Clients, s: SessionData, now: int, cfg: Config)
    requires Related(st, r, now, cfg) && s.isActive && s.lastActivity == now
    requires s.sessionId !in st.data.at && s.sessionId !in r.at
    ensures Related(Created(st, s, now, cfg), Put(RefEvicted(r, s.userId, now, cfg), s.sessionId, s), now, cfg)
  {
    SeenAfterEnforce(st, r, s.userId, now, cfg);
    EnforcedInv(st, s.userId, now, cfg);
    var st', r' := Enforced(st, s.userId, now, cfg), RefEvicted(r, s.userId, now, cfg);
    assert Created(st, s, now, cfg) == Write(st', s.sessionId, s, now + cfg.expiration);
    assert s.sessionId !in st'.data.at && s.sessionId !in r'.at;
    WriteRelated(st', r', s, now, cfg);
  }

  lemma {:induction false} CleanupRelated(m: Manager, r: Clients, now: int, cfg: Config)
    requires Related(m.store, r, now, cfg)
    ensures Related(Cleaned(m, now, cfg).store, r, now, cfg)
  {
    SeenInView(m.store, now, cfg);
    CleanedInv(m, now, cfg);
    SeenAfterClean(View(m.store, now), View(m.store, now).data.keys, now, cfg);
  }

  /** One call leads related states to related states and gives the same answer. */
  lemma {:induction false} StepRelated(m: Manager, r: Clients, e: Event, cfg: Config)
    requires Related(m.store, r, e.now, cfg) && "" !in r.at
    requires e.Create? ==> e.id !in m.store.data.at && e.id !in r.at
    ensures Related(Step(m, e, cfg).0.store, RefStep(r, e, cfg).0, e.now, cfg)
    ensures Step(m, e, cfg).1 == RefStep(r, e, cfg).1
  {
    match e
    case Create(id, user, origin, metadata, now) =>
      CreateRelated(m.store, r, NewSession(id, user, origin, metadata, now), now, cfg);
    case Validate(id, update, now) => ValidateRelated(m.store, r, id, update, now, cfg);
    case Terminate(id, now) => TerminateRelated(m.store, r, id, now, cfg);
    case Cleanup(now) => CleanupRelated(m, r, now, cfg);
  }

  // ------------------------------------------------------------- whole runs

  /** Times never go back, and ids given out are non-empty and never given out before. */
  ghost predicate WellTimed(events: seq<Event>, from: int, used: set<string>) {
    events == [] ||
    (&& from <= events[0].now
     && (events[0].Create? ==> events[0].id != "" && events[0].id !in used)
     && WellTimed(events[1..], events[0].now, if events[0].Create? then used + {events[0].id} else used))
  }

  /** What each call of a run answers. */
  ghost function Answers(m: Manager, events: seq<Event>, cfg: Config): seq<Option<SessionData>>
    requires Inv(m.store, cfg)
    decreases |events|
  {
    if events == [] then []
    else
      StepInv(m, events[0], cfg);
      [Step(m, events[0], cfg).1] + Answers(Step(m, events[0], cfg).0, events[1..], cfg)
  }

  ghost function RefAnswers(r: Clients, events: seq<Event>, cfg: Config): seq<Option<SessionData>>
    requires Proper(r)
    decreases |events|
  {
    if events == [] then []
    else
      RefStepProper(r, events[0], cfg);
      [RefStep(r, events[0], cfg).1] + RefAnswers(RefStep(r, events[0], cfg).0, events[1..], cfg)
  }

  lemma {:induction false} RefStepProper(r: Clients, e: Event, cfg: Config)
    requires Proper(r)
    ensures Proper(RefStep(r, e, cfg).0)
    ensures RefStep(r, e, cfg).0.at.Keys <= r.at.Keys + if e.Create? then {e.id} else {}
  {
    match e
    case Create(id, user, origin, metadata, now) =>
      RestrictProper(r, r.at.Keys - Elements(RefVictims(r, user, now, cfg)));
    case Validate(id, update, now) =>
    case Terminate(id, now) => RestrictProper(r, r.at.Keys - {id});
    case Cleanup(now) =>
  }

  lemma {:induction false} RunsAgree(m: Manager, r: Clients, events: seq<Event>, from: int, used: set<string>,
        cfg: Config)
    requires Related(m.store, r, from, cfg)
    requires m.store.data.at.Keys <= used && r.at.Keys <= used && "" !in r.at
    requires WellTimed(events, from, used)
    ensures Answers(m, events, cfg) == RefAnswers(r, events, cfg)
    decreases |events|
  {
    if events != [] {
      var e := events[0];
      RelatedLater(m.store, r, from, e.now, cfg);
      StepRelated(m, r, e, cfg);
      StepInv(m, e, cfg);
      RefStepProper(r, e, cfg);
      RunsAgree(Step(m, e, cfg).0, RefStep(r, e, cfg).0, events[1..], e.now,
        if e.Create? then used + {e.id} else used, cfg);
    }
  }

  /**
   Over every run from an empty storage, validation answers exactly as the reference does,
   whatever the timers, the limit and the cleanup interval are.
   */
  lemma {:induction false} SessionsAreReference(events: seq<Event>, start: int, cfg: Config)
    requires WellTimed(events, start, {})
    ensures var m := Manager(Store(Empty(), map[]), start);
      Answers(m, events, cfg) == RefAnswers(Empty(), events, cfg)
  {
    var st: Sessions := Store(Empty(), map[]);
    RunsAgree(Manager(st, start), Empty(), events, start, {}, cfg);
  }
}
