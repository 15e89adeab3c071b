/**
 The client's view of the session manager over Redis or Memcached: a map of sessions that knows
 nothing of deadlines, indexes, cleanup or deactivated records. It is the view that the in-memory
 storage gives, with an entry's last instant cut off.
 */
module BackendReference {
  import opened Wrappers
  import opened Ordering
  import opened Expiring
  import opened Servers
  import opened SessionModel
  import opened SessionBackends
  import Dicts
  import MemoryStorage
  import RedisStorage
  import MemcachedStorage
  import SessionMachine
  import SessionReference

  type Clients = map<string, SessionData>

  /** Idle for less than the storage expiration and for no more than the session timeout. */
  function Valid(r: Clients, now: int, cfg: Config): set<string> {
    set k | k in r && now - r[k].lastActivity < cfg.expiration && now - r[k].lastActivity <= cfg.sessionTimeout
  }

  function ValidFor(r: Clients, user: int, now: int, cfg: Config): set<string> {
    set k | k in Valid(r, now, cfg) && r[k].userId == user
  }

  function Used(r: Clients): map<string, int> {
    map k | k in r :: r[k].lastActivity
  }

  /** The longest idle of the user's valid sessions make room; `order` only decides between equally idle ones. */
  function RefVictims(r: Clients, user: int, order: seq<string>, now: int, cfg: Config): seq<string> {
    KeepMembers(order, ValidFor(r, user, now, cfg));
    Oldest(Keep(order, ValidFor(r, user, now, cfg)), Used(r), cfg.maxSessions)
  }

  function RefStep(r: Clients, c: Call, cfg: Config): (Clients, Option<SessionData>) {
    match c.e
    case Create(id, user, origin, metadata, now) =>
      ((r - Elements(RefVictims(r, user, c.listed, now, cfg)))[id := NewSession(id, user, origin, metadata, now)], None)
    case Validate(id, update, now) =>
      if id !in Valid(r, now, cfg) then (r, None)
      else if update then
        var s := r[id].(lastActivity := now);
        (r[id := s], Some(s))
      else (r, Some(r[id]))
    case Terminate(id, now) => (r - {id}, None)
    case Cleanup(now) => (r, None)
  }

  // ------------------------------------------------------------- agreement

  function Live(es: Entries, now: int, cfg: Config): set<string> {
    set k | k in es && Alive(es, k, now) && es[k].data.isActive && now - es[k].data.lastActivity <= cfg.sessionTimeout
  }

  /** Storage and reference agree on the sessions that are valid at `now`. */
  ghost predicate Agree(es: Entries, r: Clients, now: int, cfg: Config) {
    && Live(es, now, cfg) == Valid(r, now, cfg)
    && forall k | k in Live(es, now, cfg) :: es[k].data == r[k]
  }

  lemma {:induction false} AgreeLater(es: Entries, r: Clients, now: int, later: int, cfg: Config)
    requires Agree(es, r, now, cfg) && Punctual(es, cfg) && now <= later
    ensures Agree(es, r, later, cfg)
  {
    forall k ensures k in Live(es, later, cfg) <==> k in Valid(r, later, cfg) {
      assert k in Live(es, later, cfg) ==> k in Live(es, now, cfg);
      assert k in Valid(r, later, cfg) ==> k in Valid(r, now, cfg);
    }
  }

  /** Deactivating an entry takes exactly that session away. */
  lemma {:induction false} AgreeEnded(es: Entries, r: Clients, id: string, e: Entry<SessionData>, now: int, cfg: Config)
    requires Agree(es, r, now, cfg) && !e.data.isActive
    ensures Agree(es[id := e], r - {id}, now, cfg)
  {
    assert Live(es[id := e], now, cfg) == Live(es, now, cfg) - {id};
    assert Valid(r - {id}, now, cfg) == Valid(r, now, cfg) - {id};
  }

  lemma {:induction false} AgreeWithoutDead(es: Entries, r: Clients, id: string, now: int, cfg: Config)
    requires id !in Valid(r, now, cfg)
    ensures Agree(es, r - {id}, now, cfg) <==> Agree(es, r, now, cfg)
  {
  }

  /** Storing a session used just now, new or known, is the same on both sides. */
  lemma {:induction false} AgreeUsed(es: Entries, r: Clients, id: string, s: SessionData, now: int, cfg: Config)
    requires Agree(es, r, now, cfg) && s.isActive && s.lastActivity == now
    ensures Agree(es[id := Entry(s, now + cfg.expiration)], r[id := s], now, cfg)
  {
    var es', r' := es[id := Entry(s, now + cfg.expiration)], r[id := s];
    forall k ensures k in Live(es', now, cfg) <==> k in Valid(r', now, cfg) {
      assert k != id ==> (k in Live(es', now, cfg) <==> k in Live(es, now, cfg));
      assert k != id ==> (k in Valid(r', now, cfg) <==> k in Valid(r, now, cfg));
    }
    forall k | k in Live(es', now, cfg) ensures es'[k].data == r'[k] {
      assert k != id ==> k in Live(es, now, cfg);
    }
  }

  lemma {:induction false} TerminateAgrees(b: Backend, r: Clients, id: string, now: int, cfg: Config, used: set<string>)
    requires Inv(b, now, cfg, used) && Agree(SessionsOf(b), r, now, cfg)
    ensures Agree(SessionsOf(Terminated(b, id, now, cfg)), r - {id}, now, cfg)
  {
    var es := SessionsOf(b);
    if Alive(es, id, now) {
      var s := Ended(es[id].data, now, "manual_termination");
      RewrittenInv(b, id, s, now, cfg, used);
      AgreeEnded(es, r, id, Entry(s, now + cfg.expiration), now, cfg);
    } else {
      AgreeWithoutDead(es, r, id, now, cfg);
    }
  }

  lemma {:induction false} TerminateAllAgrees(b: Backend, r: Clients, ids: seq<string>, now: int, cfg: Config,
        used: set<string>)
    requires Inv(b, now, cfg, used) && Agree(SessionsOf(b), r, now, cfg)
    ensures Agree(SessionsOf(TerminatedAll(b, ids, now, cfg)), r - Elements(ids), now, cfg)
  {
    if ids == [] {
      assert r - Elements(ids) == r;
    } else {
      var front, id := ids[..|ids| - 1], ids[|ids| - 1];
      TerminateAllAgrees(b, r, front, now, cfg, used);
      TerminatedAllInv(b, front, now, cfg, used);
      TerminateAgrees(TerminatedAll(b, front, now, cfg), r - Elements(front), id, now, cfg, used);
      ElementsSplit(ids);
      assert r - Elements(front) - {id} == r - Elements(ids);
    }
  }

  /** Of the valid sessions, the index path evicts exactly those the reference evicts. */
  lemma {:induction false} VictimsAgree(es: Entries, r: Clients, user: int, listed: seq<string>, now: int,
        cfg: Config, k: string)
    requires Agree(es, r, now, cfg) && Lists(es, user, now, listed) && k in Live(es, now, cfg)
    ensures k in Victims(es, listed, now, cfg.maxSessions) <==> k in RefVictims(r, user, listed, now, cfg)
  {
    var live, active, mine := Live(es, now, cfg), Active(es, now), ValidFor(r, user, now, cfg);
    var all, w := Keep(listed, active), LastUsed(es);
    KeepMembers(listed, active);
    KeepMembers(all, live);
    SessionReference.SameLiveVictims(all, live, w, cfg.maxSessions, k);
    KeepTwice(listed, active, live);
    KeepAgree(listed, active * live, mine);
    KeepMembers(listed, mine);
    SortWeights(Keep(listed, mine), w, Used(r));
  }

  /** Cutting sets that agree on the valid sessions. */
  lemma {:induction false} SameCut(es: Entries, r: Clients, out: set<string>, refOut: set<string>, now: int,
        cfg: Config)
    requires Agree(es, r - out, now, cfg)
    requires forall k | k in Valid(r, now, cfg) :: k in out <==> k in refOut
    ensures Agree(es, r - refOut, now, cfg)
  {
  }

  lemma {:induction false} CreateAgrees(b: Backend, r: Clients, s: SessionData, listed: seq<string>, now: int,
        cfg: Config, used: set<string>)
    requires Inv(b, now, cfg, used) && Agree(SessionsOf(b), r, now, cfg)
    requires s.isActive && s.lastActivity == now && Lists(SessionsOf(b), s.userId, now, listed)
    ensures Agree(SessionsOf(Created(b, s, listed, now, cfg)),
                  (r - Elements(RefVictims(r, s.userId, listed, now, cfg)))[s.sessionId := s], now, cfg)
  {
    var es := SessionsOf(b);
    var out, refOut := Victims(es, listed, now, cfg.maxSessions), RefVictims(r, s.userId, listed, now, cfg);
    TerminateAllAgrees(b, r, out, now, cfg, used);
    forall k | k in Valid(r, now, cfg) ensures k in Elements(out) <==> k in Elements(refOut) {
      VictimsAgree(es, r, s.userId, listed, now, cfg, k);
    }
    var mid := Enforced(b, listed, now, cfg);
    SameCut(SessionsOf(mid), r, Elements(out), Elements(refOut), now, cfg);
    AgreeUsed(SessionsOf(mid), r - Elements(refOut), s.sessionId, s, now, cfg);
    assert SessionsOf(Put(mid, s, now, cfg.expiration))
        == SessionsOf(mid)[s.sessionId := Entry(s, now + cfg.expiration)];
  }

  lemma {:induction false} ValidateAgrees(b: Backend, r: Clients, id: string, update: bool, now: int, cfg: Config,
        used: set<string>)
    requires Inv(b, now, cfg, used) && Agree(SessionsOf(b), r, now, cfg) && "" !in r
    ensures var (b', found) := Validated(b, id, update, now, cfg);
      var (r', refFound) := RefStep(r, Call(Validate(id, update, now), []), cfg);
      Agree(SessionsOf(b'), r', now, cfg) && found == refFound
  {
    var es := SessionsOf(b);
    if id in Live(es, now, cfg) {
      var s := es[id].data.(lastActivity := now);
      RewrittenInv(b, id, s, now, cfg, used);
      AgreeUsed(es, r, id, s, now, cfg);
    } else {
      TerminateAgrees(b, r, id, now, cfg, used);
      AgreeWithoutDead(SessionsOf(Terminated(b, id, now, cfg)), r, id, now, cfg);
    }
  }

  lemma {:induction false} CleanOneAgrees(b: Backend, r: Clients, id: string, now: int, cfg: Config, used: set<string>)
    requires Inv(b, now, cfg, used) && Agree(SessionsOf(b), r, now, cfg)
    ensures Agree(SessionsOf(CleanedOne(b, id, now, cfg)), r, now, cfg)
  {
  }

  lemma {:induction false} CleanAllAgrees(b: Backend, r: Clients, ids: seq<string>, now: int, cfg: Config,
        used: set<string>)
    requires Inv(b, now, cfg, used) && Agree(SessionsOf(b), r, now, cfg)
    ensures Agree(SessionsOf(CleanedAll(b, ids, now, cfg)), r, now, cfg)
  {
    if ids != [] {
      var front := ids[..|ids| - 1];
      CleanAllAgrees(b, r, front, now, cfg, used);
      CleanedAllInv(b, front, now, cfg, used);
      CleanOneAgrees(CleanedAll(b, front, now, cfg), r, ids[|ids| - 1], now, cfg, used);
    }
  }

  /** One call keeps agreement and gives the same answer. */
  lemma {:induction false} StepAgrees(m: Manager, r: Clients, c: Call, cfg: Config, used: set<string>)
    requires Inv(m.backend, c.e.now, cfg, used) && Agree(SessionsOf(m.backend), r, c.e.now, cfg)
    requires "" !in r && (c.e.Create? ==> MayList(m.backend, c.e.user, c.e.now, c.listed))
    ensures Agree(SessionsOf(Step(m, c, cfg).0.backend), RefStep(r, c, cfg).0, c.e.now, cfg)
    ensures Step(m, c, cfg).1 == RefStep(r, c, cfg).1
  {
    var b := m.backend;
    match c.e
    case Create(id, user, origin, metadata, now) =>
      MayListLists(b, user, now, cfg.expiration, c.listed);
      CreateAgrees(b, r, NewSession(id, user, origin, metadata, now), c.listed, now, cfg, used);
    case Validate(id, update, now) => ValidateAgrees(b, r, id, update, now, cfg, used);
    case Terminate(id, now) => TerminateAgrees(b, r, id, now, cfg, used);
    case Cleanup(now) => CleanAllAgrees(b, r, c.listed, now, cfg, used);
  }

  // ------------------------------------------------------------- whole runs

  function UsedAfter(used: set<string>, e: Event): set<string> {
    if e.Create? then used + {e.id} else used
  }

  /** The clock does not go back, ids are new, and every create is told what the storage may list. */
  ghost predicate WellRun(m: Manager, calls: seq<Call>, from: int, used: set<string>, cfg: Config)
    decreases |calls|
  {
    calls == [] ||
    var c := calls[0];
    && from <= c.e.now
    && (c.e.Create? ==> c.e.id != "" && c.e.id !in used && MayList(m.backend, c.e.user, c.e.now, c.listed))
    && WellRun(Step(m, c, cfg).0, calls[1..], c.e.now, UsedAfter(used, c.e), cfg)
  }

  function Answers(m: Manager, calls: seq<Call>, cfg: Config): seq<Option<SessionData>>
    decreases |calls|
  {
    if calls == [] then [] else [Step(m, calls[0], cfg).1] + Answers(Step(m, calls[0], cfg).0, calls[1..], cfg)
  }

  function RefAnswers(r: Clients, calls: seq<Call>, cfg: Config): seq<Option<SessionData>>
    decreases |calls|
  {
    if calls == [] then [] else [RefStep(r, calls[0], cfg).1] + RefAnswers(RefStep(r, calls[0], cfg).0, calls[1..], cfg)
  }

  /** In the reference's terms: what is listed for a create names every valid session of the user once. */
  ghost predicate Enumerated(r: Clients, calls: seq<Call>, cfg: Config)
    decreases |calls|
  {
    calls == [] ||
    var c := calls[0];
    && (c.e.Create? ==> NoDup(c.listed) && forall k | k in ValidFor(r, c.e.user, c.e.now, cfg) :: k in c.listed)
    && Enumerated(RefStep(r, c, cfg).0, calls[1..], cfg)
  }

  lemma {:induction false} RunsAgree(m: Manager, r: Clients, calls: seq<Call>, from: int, used: set<string>,
        cfg: Config)
    requires Inv(m.backend, from, cfg, used) && Punctual(SessionsOf(m.backend), cfg)
    requires Agree(SessionsOf(m.backend), r, from, cfg)
    requires "" !in r && WellRun(m, calls, from, used, cfg)
    ensures Answers(m, calls, cfg) == RefAnswers(r, calls, cfg)
    ensures Enumerated(r, calls, cfg)
    decreases |calls|
  {
    if calls != [] {
      var c := calls[0];
      InvLater(m.backend, from, c.e.now, cfg, used);
      AgreeLater(SessionsOf(m.backend), r, from, c.e.now, cfg);
      if c.e.Create? {
        MayListLists(m.backend, c.e.user, c.e.now, cfg.expiration, c.listed);
      }
      StepAgrees(m, r, c, cfg, used);
      StepInv(m, c, cfg, used);
      RunsAgree(Step(m, c, cfg).0, RefStep(r, c, cfg).0, calls[1..], c.e.now, UsedAfter(used, c.e), cfg);
    }
  }

  /**
   Over every run from an empty Redis or Memcached, validation answers exactly as the reference does,
   and what the index lists for a create names every valid session of the user once: all the reference
   takes from it is the order of equally idle ones.
   */
  lemma {:induction false} BackendsAreReference(b: Backend, calls: seq<Call>, start: int, cfg: Config)
    requires IsEmpty(b) && WellRun(Manager(b, start), calls, start, {}, cfg)
    ensures Answers(Manager(b, start), calls, cfg) == RefAnswers(map[], calls, cfg)
    ensures Enumerated(map[], calls, cfg)
  {
    RunsAgree(Manager(b, start), map[], calls, start, {}, cfg);
  }

  // ------------------------------------------------------------- the same answers from every storage

  function Events(calls: seq<Call>): seq<Event> {
    if calls == [] then [] else [calls[0].e] + Events(calls[1..])
  }

  /** No user ever has two equally idle valid sessions when a session is created. */
  ghost predicate TieFree(r: Clients, calls: seq<Call>, cfg: Config)
    decreases |calls|
  {
    calls == [] ||
    var c := calls[0];
    && (c.e.Create? ==> NoTies(r, ValidFor(r, c.e.user, c.e.now, cfg)))
    && TieFree(RefStep(r, c, cfg).0, calls[1..], cfg)
  }

  ghost predicate NoTies(r: Clients, ks: set<string>) {
    forall j, k | j in ks && k in ks && j in r && k in r && r[j].lastActivity == r[k].lastActivity :: j == k
  }

  /** Memory keeps an entry through the last instant of its lifetime, so its lifetime is one instant shorter. */
  function Shorter(cfg: Config): Config {
    cfg.(expiration := cfg.expiration - 1)
  }

  lemma {:induction false} SameVictims(r: Clients, d: SessionReference.Clients, user: int, listed: seq<string>,
        now: int, cfg: Config)
    requires d.at == r && Dicts.Proper(d) && NoDup(listed)
    requires forall k | k in ValidFor(r, user, now, cfg) :: k in listed
    requires NoTies(r, ValidFor(r, user, now, cfg))
    ensures SessionReference.RefVictims(d, user, now, Shorter(cfg)) == RefVictims(r, user, listed, now, cfg)
  {
    var mine := ValidFor(r, user, now, cfg);
    assert SessionReference.ValidFor(d, user, now, Shorter(cfg)) == mine;
    var a, b := Keep(d.keys, mine), Keep(listed, mine);
    KeepMembers(d.keys, mine);
    KeepMembers(listed, mine);
    KeepNoDup(d.keys, mine);
    KeepNoDup(listed, mine);
    SortOrderFree(a, b, Used(r));
    NoDupCount(a);
    NoDupCount(b);
    assert Elements(a) == Elements(b);
    assert SessionMachine.Activity(d) == Used(r);
  }

  lemma {:induction false} SameStep(r: Clients, d: SessionReference.Clients, c: Call, cfg: Config)
    requires d.at == r && Dicts.Proper(d)
    requires c.e.Create? ==>
      && NoDup(c.listed) && (forall k | k in ValidFor(r, c.e.user, c.e.now, cfg) :: k in c.listed)
      && NoTies(r, ValidFor(r, c.e.user, c.e.now, cfg))
    ensures var (d', found) := SessionReference.RefStep(d, c.e, Shorter(cfg));
      d'.at == RefStep(r, c, cfg).0 && found == RefStep(r, c, cfg).1
  {
    if c.e.Create? {
      SameVictims(r, d, c.e.user, c.listed, c.e.now, cfg);
    } else {
      assert SessionReference.Valid(d, c.e.now, Shorter(cfg)) == Valid(r, c.e.now, cfg);
    }
  }

  lemma {:induction false} RefsAgree(r: Clients, d: SessionReference.Clients, calls: seq<Call>, cfg: Config)
    requires d.at == r && Dicts.Proper(d)
    requires Enumerated(r, calls, cfg) && TieFree(r, calls, cfg)
    ensures SessionReference.RefAnswers(d, Events(calls), Shorter(cfg)) == RefAnswers(r, calls, cfg)
    decreases |calls|
  {
    if calls != [] {
      var c := calls[0];
      SameStep(r, d, c, cfg);
      SessionReference.RefStepProper(d, c.e, Shorter(cfg));
      RefsAgree(RefStep(r, c, cfg).0, SessionReference.RefStep(d, c.e, Shorter(cfg)).0, calls[1..], cfg);
      assert Events(calls) == [c.e] + Events(calls[1..]);
      assert Events(calls)[1..] == Events(calls[1..]);
    }
  }

  lemma {:induction false} EventsWellTimed(m: Manager, calls: seq<Call>, from: int, used: set<string>, cfg: Config)
    requires WellRun(m, calls, from, used, cfg)
    ensures SessionReference.WellTimed(Events(calls), from, used)
    decreases |calls|
  {
    if calls != [] {
      EventsWellTimed(Step(m, calls[0], cfg).0, calls[1..], calls[0].e.now, UsedAfter(used, calls[0].e), cfg);
      assert Events(calls)[1..] == Events(calls[1..]);
    }
  }

  /**
   The storages are interchangeable: over every run without ties, the manager answers over Redis and
   over Memcached as it does over the in-memory storage with the lifetime one instant shorter.
   */
  lemma {:induction false} StoragesInterchangeable(b: Backend, calls: seq<Call>, start: int, cfg: Config)
    requires IsEmpty(b) && WellRun(Manager(b, start), calls, start, {}, cfg)
    requires TieFree(map[], calls, cfg)
    ensures var memory := SessionMachine.Manager(MemoryStorage.Store(Dicts.Empty(), map[]), start);
      Answers(Manager(b, start), calls, cfg) == SessionReference.Answers(memory, Events(calls), Shorter(cfg))
  {
    RunsAgree(Manager(b, start), map[], calls, start, {}, cfg);
    EventsWellTimed(Manager(b, start), calls, start, {}, cfg);
    RefsAgree(map[], Dicts.Empty(), calls, cfg);
    SessionReference.SessionsAreReference(Events(calls), start, Shorter(cfg));
  }
}
