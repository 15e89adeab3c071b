/**
 The session manager over the Redis storage, where the limit reads the user's index and the cleanup
 scans the server, proved to compute the functions of SessionBackends. The order in which the server
 lists a set is not determined; the methods report the order that came up.
 */
module IndexedSessionManagement {
  import opened Wrappers
  import opened Ordering
  import opened Expiring
  import opened Servers
  import opened SessionModel
  import opened SessionBackends
  import RedisStorage

  class IndexedSessionManager {
    const cfg: Config
    const storage: RedisStorage.RedisSessionStorage
    var lastCleanup: int

    function State(): Backend
      reads storage
    {
      Backend.Redis(storage.Snapshot())
    }

    ghost predicate Valid() {
      storage.expiration == cfg.expiration
    }

    constructor (storage: RedisStorage.RedisSessionStorage, maxSessions: int, sessionTimeout: int,
          cleanupInterval: int, now: int)
      ensures Valid() && this.storage == storage && lastCleanup == now
      ensures cfg == Config(maxSessions, sessionTimeout, cleanupInterval, storage.expiration)
    {
      this.cfg := Config(maxSessions, sessionTimeout, cleanupInterval, storage.expiration);
      this.storage := storage;
      this.lastCleanup := now;
    }

    method TerminateSession(id: string, now: int) returns (done: bool)
      requires Valid()
      modifies storage
      ensures done == Alive(old(storage.sessions), id, now)
      ensures State() == Terminated(old(State()), id, now, cfg)
    {
      var found := storage.Get(id, now);
      if found.None? {
        return false;
      }
      done := storage.Update(id, Ended(found.value, now, "manual_termination"), true, None, now);
    }

    /** `listed` and `rest` split `ids`, and nothing is listed twice. */
    static ghost predicate Listing(listed: seq<string>, rest: set<string>, ids: set<string>) {
      NoDup(listed) && Elements(listed) !! rest && Elements(listed) + rest == ids
    }

    static lemma {:induction false} ListingStep(listed: seq<string>, rest: set<string>, ids: set<string>, id: string)
      requires Listing(listed, rest, ids) && id in rest
      ensures Listing(listed + [id], rest - {id}, ids)
    {
    }

    /** Fetches every id of the index and keeps the active sessions. */
    method GetActiveSessionsByIndex(user: int, now: int)
      returns (active: seq<string>, activity: map<string, int>, ghost listed: seq<string>)
      ensures MayList(State(), user, now, listed)
      ensures active == Keep(listed, Active(storage.sessions, now))
      ensures Covers(activity, active)
      ensures forall k | k in active :: k in storage.sessions && activity[k] == storage.sessions[k].data.lastActivity
    {
      var ids := storage.GetUserSessions(user, now);
      var rest := ids;
      active, activity, listed := [], map[], [];
      while rest != {}
        invariant Listing(listed, rest, ids)
        invariant active == Keep(listed, Active(storage.sessions, now))
        invariant Covers(activity, active)
        invariant forall k | k in active ::
          k in storage.sessions && activity[k] == storage.sessions[k].data.lastActivity
        decreases |rest|
      {
        var id :| id in rest;
        ListingStep(listed, rest, ids, id);
        rest := rest - {id};
        KeepAppend(listed, id, Active(storage.sessions, now));
        listed := listed + [id];
        var found := storage.Get(id, now);
        if found.Some? && found.value.isActive {
          active := active + [id];
          activity := activity[id := found.value.lastActivity];
        }
      }
    }

    method TerminateFirst(sorted: seq<string>, excess: nat, now: int)
      requires Valid()
      modifies storage
      ensures State() == TerminatedAll(old(State()), sorted[..if excess < |sorted| then excess else |sorted|], now, cfg)
    {
      for i := 0 to excess
        invariant State() == TerminatedAll(old(State()), sorted[..if i < |sorted| then i else |sorted|], now, cfg)
      {
        if i < |sorted| {
          assert sorted[..i + 1][..i] == sorted[..i];
          var _ := TerminateSession(sorted[i], now);
        }
      }
    }

    lemma {:induction false} VictimsOf(es: Entries, listed: seq<string>, active: seq<string>,
          activity: map<string, int>, now: int)
      requires active == Keep(listed, Active(es, now)) && Covers(activity, active)
      requires forall k | k in active :: k in es && activity[k] == es[k].data.lastActivity
      ensures |Sort(active, activity)| == |active|
      ensures Victims(es, listed, now, cfg.maxSessions)
          == Sort(active, activity)[..VictimCount(|active|, cfg.maxSessions)]
    {
      SortWeights(active, activity, LastUsed(es));
      SortMembers(active, activity);
    }

    method EnforceSessionLimit(user: int, now: int) returns (ghost listed: seq<string>)
      requires Valid()
      modifies storage
      ensures MayList(old(State()), user, now, listed)
      ensures State() == Enforced(old(State()), listed, now, cfg)
    {
      var active, activity;
      active, activity, listed := GetActiveSessionsByIndex(user, now);
      VictimsOf(storage.sessions, listed, active, activity, now);
      if |active| >= cfg.maxSessions {
        TerminateFirst(Sort(active, activity), |active| - cfg.maxSessions + 1, now);
      }
    }

    method CreateSession(client: string, user: int, metadata: map<string, MetaValue>, id: string, now: int)
      returns (ghost listed: seq<string>)
      requires Valid()
      modifies storage
      ensures MayList(old(State()), user, now, listed)
      ensures State() == Created(old(State()), NewSession(id, user, client, metadata, now), listed, now, cfg)
    {
      listed := EnforceSessionLimit(user, now);
      storage.Create(NewSession(id, user, client, metadata, now), id, None, now);
    }

    method ValidateSession(id: string, updateActivity: bool, now: int) returns (found: Option<SessionData>)
      requires Valid()
      modifies storage
      ensures (State(), found) == Validated(old(State()), id, updateActivity, now, cfg)
    {
      if id == "" {
        return None;
      }
      found := storage.Get(id, now);
      if found.None? || !found.value.isActive {
        return None;
      }
      if now - found.value.lastActivity > cfg.sessionTimeout {
        var _ := TerminateSession(id, now);
        return None;
      }
      if updateActivity {
        found := Some(found.value.(lastActivity := now));
        var _ := storage.Update(id, found.value, true, None, now);
      }
    }

    method CleanupSession(id: string, threshold: int, now: int)
      requires Valid() && threshold == now - cfg.sessionTimeout
      modifies storage
      ensures State() == CleanedOne(old(State()), id, now, cfg)
    {
      var found := storage.Get(id, now);
      if found.Some? && found.value.isActive && found.value.lastActivity < threshold {
        var _ := storage.Update(id, Ended(found.value, now, "session_timeout"), true, None, now);
      }
    }

    static ghost function LiveKeys(es: Entries, now: int): set<string> {
      set id | id in es && Alive(es, id, now)
    }

    /** The scan comes up with the keys that were there when it began. */
    method CleanupByScan(threshold: int, now: int) returns (ghost scanned: seq<string>)
      requires Valid() && threshold == now - cfg.sessionTimeout
      modifies storage
      ensures State() == CleanedAll(old(State()), scanned, now, cfg)
      ensures NoDup(scanned) && Elements(scanned) == LiveKeys(old(storage.sessions), now)
    {
      scanned := [];
      ghost var all := LiveKeys(storage.sessions, now);
      var rest := set id | id in storage.sessions && now < storage.sessions[id].deadline;
      while rest != {}
        invariant Listing(scanned, rest, all)
        invariant State() == CleanedAll(old(State()), scanned, now, cfg)
        decreases |rest|
      {
        var id :| id in rest;
        ListingStep(scanned, rest, all, id);
        rest := rest - {id};
        assert (scanned + [id])[..|scanned|] == scanned;
        CleanupSession(id, threshold, now);
        scanned := scanned + [id];
      }
    }

    method CleanupExpiredSessions(now: int) returns (ghost scanned: seq<string>)
      requires Valid()
      modifies this`lastCleanup, storage
      ensures Manager(State(), lastCleanup) == Cleaned(Manager(old(State()), old(lastCleanup)), scanned, now, cfg)
      ensures NoDup(scanned)
      ensures now - old(lastCleanup) >= cfg.cleanupInterval ==>
        Elements(scanned) == LiveKeys(old(storage.sessions), now)
    {
      if now - lastCleanup < cfg.cleanupInterval {
        return [];
      }
      scanned := CleanupByScan(now - cfg.sessionTimeout, now);
      lastCleanup := now;
    }
  }
}
