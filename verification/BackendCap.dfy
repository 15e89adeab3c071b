/** The limit on active sessions per user when it goes by the index of a Redis or Memcached server. */
module BackendCap {
  import opened Ordering
  import opened Expiring
  import opened Servers
  import opened SessionModel
  import opened SessionBackends
  import SessionCap

  function ActiveOf(es: Entries, user: int, now: int): set<string> {
    set id | id in Active(es, now) && es[id].data.userId == user
  }

  lemma {:induction false} TerminateActive(b: Backend, id: string, user: int, now: int, cfg: Config, used: set<string>)
    requires Inv(b, now, cfg, used)
    ensures ActiveOf(SessionsOf(Terminated(b, id, now, cfg)), user, now) == ActiveOf(SessionsOf(b), user, now) - {id}
  {
  }

  lemma {:induction false} TerminateAllActive(b: Backend, ids: seq<string>, user: int, now: int, cfg: Config,
        used: set<string>)
    requires Inv(b, now, cfg, used)
    ensures ActiveOf(SessionsOf(TerminatedAll(b, ids, now, cfg)), user, now)
         == ActiveOf(SessionsOf(b), user, now) - Elements(ids)
  {
    if ids != [] {
      var front := ids[..|ids| - 1];
      TerminateAllActive(b, front, user, now, cfg, used);
      TerminatedAllInv(b, front, now, cfg, used);
      TerminateActive(TerminatedAll(b, front, now, cfg), ids[|ids| - 1], user, now, cfg, used);
      ElementsSplit(ids);
    }
  }

  /** Going by the index, the victims are distinct active sessions of the user, as many as must go. */
  lemma {:induction false} IndexedVictims(es: Entries, user: int, listed: seq<string>, now: int, max: int)
    requires Lists(es, user, now, listed)
    ensures Elements(Victims(es, listed, now, max)) <= ActiveOf(es, user, now)
    ensures |Elements(Victims(es, listed, now, max))| == |Victims(es, listed, now, max)|
    ensures |Victims(es, listed, now, max)| == VictimCount(|ActiveOf(es, user, now)|, max)
  {
    var all, w := Keep(listed, Active(es, now)), LastUsed(es);
    KeepMembers(listed, Active(es, now));
    KeepNoDup(listed, Active(es, now));
    NoDupCount(all);
    assert Elements(all) == ActiveOf(es, user, now);
    SortMembers(all, w);
    SortNoDup(all, w);
    NoDupCount(Sort(all, w)[..VictimCount(|all|, max)]);
  }

  lemma {:induction false} PutActive(b: Backend, s: SessionData, user: int, now: int, cfg: Config, after: Backend)
    requires s.isActive && cfg.expiration > 0 && s.sessionId !in SessionsOf(b)
    requires after == Put(b, s, now, cfg.expiration)
    ensures ActiveOf(SessionsOf(after), user, now)
         == ActiveOf(SessionsOf(b), user, now) + if s.userId == user then {s.sessionId} else {}
  {
  }

  lemma {:induction false} EnforceActive(
      b: Backend, owner: int, listed: seq<string>, user: int, now: int, cfg: Config, used: set<string>)
    requires Inv(b, now, cfg, used) && MayList(b, owner, now, listed)
    ensures var before := ActiveOf(SessionsOf(b), user, now);
      var after := ActiveOf(SessionsOf(Enforced(b, listed, now, cfg)), user, now);
      && (user == owner ==> after <= before && |after| == |before| - VictimCount(|before|, cfg.maxSessions))
      && (user != owner ==> after == before)
  {
    var es, out := SessionsOf(b), Victims(SessionsOf(b), listed, now, cfg.maxSessions);
    MayListLists(b, owner, now, cfg.expiration, listed);
    IndexedVictims(es, owner, listed, now, cfg.maxSessions);
    TerminateAllActive(b, out, user, now, cfg, used);
    if user == owner {
      Difference(ActiveOf(es, user, now), Elements(out));
    } else {
      assert ActiveOf(es, user, now) !! ActiveOf(es, owner, now);
    }
  }

  lemma {:induction false} OneMore(before: set<string>, mid: set<string>, id: string, cfg: Config)
    requires mid <= before && id !in mid && |mid| == |before| - VictimCount(|before|, cfg.maxSessions)
    ensures SessionCap.MadeRoom(before, mid + {id}, id, cfg)
  {
    FullSubset(mid, before);
  }

  /** A create going by the index ends within the cap too, and leaves every other user alone. */
  lemma {:induction false} IndexedCreateKeepsCap(
      b: Backend, s: SessionData, listed: seq<string>, user: int, now: int, cfg: Config, used: set<string>)
    requires Inv(b, now, cfg, used) && s.sessionId !in used
    requires s.isActive && cfg.expiration > 0 && MayList(b, s.userId, now, listed)
    ensures var before := ActiveOf(SessionsOf(b), user, now);
      var after := ActiveOf(SessionsOf(Created(b, s, listed, now, cfg)), user, now);
      if user == s.userId then SessionCap.MadeRoom(before, after, s.sessionId, cfg) else after == before
  {
    var mid := Enforced(b, listed, now, cfg);
    TerminatedAllInv(b, Victims(SessionsOf(b), listed, now, cfg.maxSessions), now, cfg, used);
    EnforceActive(b, s.userId, listed, user, now, cfg, used);
    PutActive(mid, s, user, now, cfg, Created(b, s, listed, now, cfg));
    if user == s.userId {
      OneMore(ActiveOf(SessionsOf(b), user, now), ActiveOf(SessionsOf(mid), user, now), s.sessionId, cfg);
    }
  }
}
