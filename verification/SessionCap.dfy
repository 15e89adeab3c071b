/**
 The limit on active sessions per user over the in-memory storage. None of its methods ever suspends,
 so a create runs alone; creates that interleave are the subject of FlightCap.
 */
module SessionCap {
  import opened Wrappers
  import opened Ordering
  import opened Dicts
  import opened MemoryStorage
  import opened SessionMachine
  import opened SessionModel

  /** The limit that is really kept: a create always leaves its own session behind. */
  function Cap(max: int): int {
    if max < 1 then 1 else max
  }

  lemma {:induction false} ActiveAfterRestrict(st: Sessions, ks: set<string>, user: int, now: int)
    requires Sound(st)
    ensures ActiveKeys(RestrictStore(st, ks), user, now) == ActiveKeys(st, user, now) * ks
  {
  }

  lemma {:induction false} ActiveAfterChecked(st: Sessions, k: string, user: int, now: int)
    requires Sound(st)
    ensures ActiveKeys(Checked(st, k, now), user, now) == ActiveKeys(st, user, now)
    ensures ActiveKeys(View(st, now), user, now) == ActiveKeys(st, user, now)
  {
    ActiveAfterRestrict(st, st.expiry.Keys - {k}, user, now);
    ActiveAfterRestrict(st, Unexpired(st, now), user, now);
  }

  lemma {:induction false} ActiveAfterEnding(st: Sessions, id: string, s: SessionData, deadline: int, user: int,
        now: int)
    requires Sound(st) && id in st.data.at && !s.isActive
    ensures Sound(Write(st, id, s, deadline))
    ensures ActiveKeys(Write(st, id, s, deadline), user, now) == ActiveKeys(st, user, now) - {id}
  {
  }

  lemma {:induction false} ActiveAfterTerminate(st: Sessions, id: string, user: int, now: int, cfg: Config)
    requires Sound(st)
    ensures Sound(Terminated(st, id, now, cfg))
    ensures ActiveKeys(Terminated(st, id, now, cfg), user, now) == ActiveKeys(st, user, now) - {id}
  {
    match Lookup(st, id, now)
    case None =>
      CheckedSound(st, id, now);
      ActiveAfterChecked(st, id, user, now);
    case Some(s) =>
      ActiveAfterEnding(st, id, Ended(s, now, "manual_termination"), now + cfg.expiration, user, now);
  }

  lemma {:induction false} ActiveAfterTerminateAll(st: Sessions, ids: seq<string>, user: int, now: int, cfg: Config)
    requires Sound(st)
    ensures Sound(TerminatedAll(st, ids, now, cfg))
    ensures ActiveKeys(TerminatedAll(st, ids, now, cfg), user, now) == ActiveKeys(st, user, now) - Elements(ids)
  {
    if ids != [] {
      var front := ids[..|ids| - 1];
      ActiveAfterTerminateAll(st, front, user, now, cfg);
      ActiveAfterTerminate(TerminatedAll(st, front, now, cfg), ids[|ids| - 1], user, now, cfg);
      ElementsSplit(ids);
    }
  }

  /** The victims are distinct active sessions of the user, as many as must go. */
  lemma {:induction false} VictimsCount(st: Sessions, user: int, now: int, max: int)
    requires Sound(st)
    ensures Elements(Victims(st, user, now, max)) <= ActiveKeys(st, user, now)
    ensures |Elements(Victims(st, user, now, max))| == VictimCount(|ActiveKeys(st, user, now)|, max)
  {
    var active, w := ActiveKeys(st, user, now), Activity(st.data);
    var all := Keep(st.data.keys, active);
    KeepMembers(st.data.keys, active);
    KeepNoDup(st.data.keys, active);
    NoDupCount(all);
    assert Elements(all) == active;
    SortMembers(all, w);
    SortNoDup(all, w);
    NoDupCount(Sort(all, w)[..VictimCount(|all|, max)]);
  }

  lemma {:induction false} OldestBefore(all: seq<string>, w: map<string, int>, max: int, v: string, k: string)
    requires Covers(w, all) && v in Oldest(all, w, max) && k in all && k !in Oldest(all, w, max)
    ensures v in all && Before(v, k, all, w)
  {
    SortMembers(all, w);
    SortRanks(all, w);
    var sorted, n := Sort(all, w), VictimCount(|all|, max);
    var i :| 0 <= i < n && sorted[i] == v;
    assert sorted == sorted[..n] + sorted[n..];
    assert k in sorted[n..];
    var j :| n <= j < |sorted| && sorted[j] == k;
    assert Before(sorted[i], sorted[j], all, w);
  }

  /** No surviving session was used earlier than a victim; of equally old ones the first created goes first. */
  lemma {:induction false} VictimsAreOldest(st: Sessions, user: int, now: int, max: int, v: string, k: string)
    requires Sound(st)
    requires v in Victims(st, user, now, max)
    requires k in ActiveKeys(st, user, now) && k !in Victims(st, user, now, max)
    ensures v in st.data.at && st.data.at[v].lastActivity <= st.data.at[k].lastActivity
    ensures st.data.at[v].lastActivity == st.data.at[k].lastActivity
      ==> Precedes(Keep(st.data.keys, ActiveKeys(st, user, now)), v, k)
  {
    var active, w := ActiveKeys(st, user, now), Activity(st.data);
    KeepMembers(st.data.keys, active);
    OldestBefore(Keep(st.data.keys, active), w, max, v, k);
  }

  lemma {:induction false} ActiveAfterEnforce(st: Sessions, owner: int, user: int, now: int, cfg: Config)
    requires Sound(st)
    ensures Sound(Enforced(st, owner, now, cfg))
    ensures Enforced(st, owner, now, cfg).data.at.Keys <= st.data.at.Keys
    ensures ActiveKeys(Enforced(st, owner, now, cfg), user, now) <= ActiveKeys(st, user, now)
    ensures user != owner ==> ActiveKeys(Enforced(st, owner, now, cfg), user, now) == ActiveKeys(st, user, now)
    ensures user == owner ==>
      |ActiveKeys(Enforced(st, owner, now, cfg), user, now)|
      == |ActiveKeys(st, user, now)| - VictimCount(|ActiveKeys(st, user, now)|, cfg.maxSessions)
  {
    CheckedSound(st, "", now);
    var seen := View(st, now);
    var out := Victims(seen, owner, now, cfg.maxSessions);
    ActiveAfterChecked(st, "", user, now);
    ActiveAfterTerminateAll(seen, out, user, now, cfg);
    VictimsCount(seen, owner, now, cfg.maxSessions);
    TerminatedAllKeys(seen, out, now, cfg);
    if user != owner {
      assert ActiveKeys(seen, user, now) !! ActiveKeys(seen, owner, now);
    } else {
      Difference(ActiveKeys(seen, user, now), Elements(out));
    }
  }

  lemma {:induction false} TerminatedAllKeys(st: Sessions, ids: seq<string>, now: int, cfg: Config)
    ensures TerminatedAll(st, ids, now, cfg).data.at.Keys <= st.data.at.Keys
  {
    if ids != [] {
      TerminatedAllKeys(st, ids[..|ids| - 1], now, cfg);
    }
  }

  lemma {:induction false} ActiveAfterWrite(st: Sessions, s: SessionData, deadline: int, user: int, now: int)
    requires Sound(st) && s.isActive && s.sessionId !in st.data.at
    ensures Sound(Write(st, s.sessionId, s, deadline))
    ensures ActiveKeys(Write(st, s.sessionId, s, deadline), user, now)
         == ActiveKeys(st, user, now) + if s.userId == user && now <= deadline then {s.sessionId} else {}
  {
    PutProper(st.data, s.sessionId, s);
  }

  /**
   A user's active sessions before and after a create: the new one is there, and of the others all that
   the cap leaves room for.
   */
  ghost predicate MadeRoom(before: set<string>, after: set<string>, id: string, cfg: Config) {
    && id in after && after <= before + {id}
    && (|before| < cfg.maxSessions ==> after == before + {id})
    && |after| <= Cap(cfg.maxSessions)
    && (|before| >= cfg.maxSessions ==> |after| == Cap(cfg.maxSessions))
  }

  lemma {:induction false} StoreWithinCap(mid: Sessions, s: SessionData, before: set<string>, now: int, cfg: Config,
        after: Sessions)
    requires Sound(mid) && s.isActive && s.sessionId !in mid.data.at && cfg.expiration >= 0
    requires ActiveKeys(mid, s.userId, now) <= before
    requires |ActiveKeys(mid, s.userId, now)| == |before| - VictimCount(|before|, cfg.maxSessions)
    requires after == Write(mid, s.sessionId, s, now + cfg.expiration)
    ensures MadeRoom(before, ActiveKeys(after, s.userId, now), s.sessionId, cfg)
  {
    ActiveAfterWrite(mid, s, now + cfg.expiration, s.userId, now);
    FullSubset(ActiveKeys(mid, s.userId, now), before);
  }

  /** A create that runs alone ends within the cap, however many sessions there were before. */
  lemma {:induction false} CreateKeepsCap(st: Sessions, s: SessionData, now: int, cfg: Config)
    requires Sound(st) && s.isActive && s.sessionId !in st.data.at && cfg.expiration >= 0
    ensures MadeRoom(ActiveKeys(st, s.userId, now), ActiveKeys(Created(st, s, now, cfg), s.userId, now),
        s.sessionId, cfg)
  {
    ActiveAfterEnforce(st, s.userId, s.userId, now, cfg);
    StoreWithinCap(Enforced(st, s.userId, now, cfg), s, ActiveKeys(st, s.userId, now), now, cfg,
      Created(st, s, now, cfg));
  }

  lemma {:induction false} EnforceSparesOthers(st: Sessions, owner: int, user: int, now: int, cfg: Config)
    requires Sound(st) && user != owner
    ensures var mid := Enforced(st, owner, now, cfg);
      Sound(mid) && mid.data.at.Keys <= st.data.at.Keys && ActiveKeys(mid, user, now) == ActiveKeys(st, user, now)
  {
    ActiveAfterEnforce(st, owner, user, now, cfg);
  }

  /** A create leaves the active sessions of every other user alone. */
  lemma {:induction false} CreateSparesOthers(st: Sessions, s: SessionData, user: int, now: int, cfg: Config)
    requires Sound(st) && s.isActive && s.sessionId !in st.data.at && user != s.userId
    ensures ActiveKeys(Created(st, s, now, cfg), user, now) == ActiveKeys(st, user, now)
  {
    EnforceSparesOthers(st, s.userId, user, now, cfg);
    var mid := Enforced(st, s.userId, now, cfg);
    StoreForOther(mid, s, now + cfg.expiration, user, now, Created(st, s, now, cfg));
  }

  lemma {:induction false} StoreForOther(
      st: Sessions, s: SessionData, deadline: int, user: int, now: int, after: Sessions)
    requires Sound(st) && s.isActive && s.sessionId !in st.data.at && user != s.userId
    requires after == Write(st, s.sessionId, s, deadline)
    ensures ActiveKeys(after, user, now) == ActiveKeys(st, user, now)
  {
  }
}
