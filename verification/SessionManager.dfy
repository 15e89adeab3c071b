/** The session manager over in-memory storages, proved to compute the functions of SessionMachine and Csrf. */
module SessionManagement {
  import opened Wrappers
  import opened Ordering
  import opened Dicts
  import opened MemoryStorage
  import opened SessionMachine
  import opened SessionModel
  import opened Csrf

  datatype Failure = InvalidRequestClient

  class SessionManager {
    const cfg: Config
    const storage: MemorySessionStorage<SessionData>
    const csrfStorage: MemorySessionStorage<CsrfToken>
    var lastCleanup: int

    function State(): Manager
      reads this, storage
    {
      Manager(storage.Snapshot(), lastCleanup)
    }

    ghost predicate Valid()
      reads this, storage, csrfStorage
    {
      && storage as object != csrfStorage as object
      && storage.Valid() && storage.expiration == cfg.expiration
      && csrfStorage.Valid() && csrfStorage.expiration == cfg.sessionTimeout
    }

    constructor (storage: MemorySessionStorage<SessionData>, maxSessions: int, sessionTimeout: int,
          cleanupInterval: int, now: int)
      requires storage.Valid()
      ensures Valid() && this.storage == storage && fresh(csrfStorage)
      ensures cfg == Config(maxSessions, sessionTimeout, cleanupInterval, storage.expiration)
      ensures State() == Manager(old(storage.Snapshot()), now)
      ensures csrfStorage.Snapshot() == Store(Empty(), map[])
    {
      this.cfg := Config(maxSessions, sessionTimeout, cleanupInterval, storage.expiration);
      this.storage := storage;
      this.csrfStorage := new MemorySessionStorage<CsrfToken>(sessionTimeout);
      this.lastCleanup := now;
    }

    method TerminateSession(id: string, now: int) returns (done: bool)
      requires Valid()
      modifies storage
      ensures Valid()
      ensures done == Lookup(old(storage.Snapshot()), id, now).Some?
      ensures storage.Snapshot() == Terminated(old(storage.Snapshot()), id, now, cfg)
    {
      var found := storage.Get(id, now);
      if found.None? {
        return false;
      }
      var ended := Ended(found.value, now, "manual_termination");
      done := storage.Update(id, ended, true, None, now);
    }

    static lemma {:induction false} ScanStep(seen: Sessions, keys: seq<string>, i: nat, user: int, now: int)
      requires i < |keys|
      ensures Keep(keys[..i + 1], ActiveKeys(seen, user, now))
           == Keep(keys[..i], ActiveKeys(seen, user, now))
            + if ActiveFor(seen, keys[i], user, now) then [keys[i]] else []
    {
      assert keys[..i + 1] == keys[..i] + [keys[i]];
      KeepAppend(keys[..i], keys[i], ActiveKeys(seen, user, now));
    }

    /** The ids of the user's active sessions, in the order the scan lists them. */
    method GetActiveSessionsByScan(user: int, now: int) returns (active: seq<string>, activity: map<string, int>)
      requires Valid()
      modifies storage
      ensures Valid()
      ensures storage.Snapshot() == View(old(storage.Snapshot()), now)
      ensures active == Keep(storage.data.keys, ActiveKeys(storage.Snapshot(), user, now))
      ensures Covers(activity, active)
      ensures forall k | k in active :: k in storage.data.at && activity[k] == storage.data.at[k].lastActivity
    {
      var keys := storage.ScanIter(now);
      ghost var seen := storage.Snapshot();
      active, activity := [], map[];
      for i := 0 to |keys|
        invariant Valid() && storage.Snapshot() == seen
        invariant active == Keep(keys[..i], ActiveKeys(seen, user, now))
        invariant Covers(activity, active)
        invariant forall k | k in active :: k in seen.data.at && activity[k] == seen.data.at[k].lastActivity
      {
        ScanStep(seen, keys, i, user, now);
        var found := storage.Get(keys[i], now);
        if found.Some? && found.value.userId == user && found.value.isActive {
          active := active + [keys[i]];
          activity := activity[keys[i] := found.value.lastActivity];
        }
      }
      assert keys[..|keys|] == keys;
    }

    lemma {:induction false} VictimsOf(st: Sessions, active: seq<string>, activity: map<string, int>, user: int,
          now: int)
      requires Sound(st)
      requires active == Keep(st.data.keys, ActiveKeys(st, user, now)) && Covers(activity, active)
      requires forall k | k in active :: k in st.data.at && activity[k] == st.data.at[k].lastActivity
      ensures |Sort(active, activity)| == |active|
      ensures Victims(st, user, now, cfg.maxSessions)
          == Sort(active, activity)[..VictimCount(|active|, cfg.maxSessions)]
    {
      KeepMembers(st.data.keys, ActiveKeys(st, user, now));
      SortWeights(active, activity, Activity(st.data));
      SortMembers(active, activity);
    }

    method TerminateFirst(sorted: seq<string>, excess: nat, now: int)
      requires Valid()
      modifies storage
      ensures Valid()
      ensures storage.Snapshot()
           == TerminatedAll(old(storage.Snapshot()), sorted[..if excess < |sorted| then excess else |sorted|], now, cfg)
    {
      for i := 0 to excess
        invariant Valid()
        invariant storage.Snapshot()
               == TerminatedAll(old(storage.Snapshot()), sorted[..if i < |sorted| then i else |sorted|], now, cfg)
      {
        if i < |sorted| {
          assert sorted[..i + 1][..i] == sorted[..i];
          var _ := TerminateSession(sorted[i], now);
        }
      }
    }

    method EnforceSessionLimit(user: int, now: int)
      requires Valid()
      modifies storage
      ensures Valid()
      ensures storage.Snapshot() == Enforced(old(storage.Snapshot()), user, now, cfg)
    {
      var active, activity := GetActiveSessionsByScan(user, now);
      VictimsOf(storage.Snapshot(), active, activity, user, now);
      if |active| >= cfg.maxSessions {
        TerminateFirst(Sort(active, activity), |active| - cfg.maxSessions + 1, now);
      }
    }

    method GenerateCsrfToken(token: string, user: int, id: string, now: int)
      requires Valid()
      modifies csrfStorage
      ensures Valid()
      ensures csrfStorage.Snapshot() == Issued(old(csrfStorage.Snapshot()), token, user, id, now, cfg.sessionTimeout)
    {
      csrfStorage.Create(CsrfToken(token, user, id, now + cfg.sessionTimeout), token, None, now);
    }

    /** `client` is the address of the request, `id` and `token` are the random values drawn on the way. */
    method CreateSession(client: Option<string>, user: int, metadata: map<string, MetaValue>,
                         id: string, token: string, now: int)
      returns (r: Result<(string, string), Failure>)
      requires Valid()
      modifies storage, csrfStorage
      ensures Valid()
      ensures r == if client.Some? then Result.Ok((id, token)) else Err(InvalidRequestClient)
      ensures client.None? ==> unchanged(storage) && unchanged(csrfStorage)
      ensures client.Some? ==>
        && storage.Snapshot() == Created(old(storage.Snapshot()), NewSession(id, user, client.value, metadata, now),
          now, cfg)
        && csrfStorage.Snapshot() == Issued(old(csrfStorage.Snapshot()), token, user, id, now, cfg.sessionTimeout)
    {
      if client.None? {
        return Err(InvalidRequestClient);
      }
      EnforceSessionLimit(user, now);
      storage.Create(NewSession(id, user, client.value, metadata, now), id, None, now);
      assert storage.Snapshot()
          == Created(old(storage.Snapshot()), NewSession(id, user, client.value, metadata, now), now, cfg);
      GenerateCsrfToken(token, user, id, now);
      return Result.Ok((id, token));
    }

    method ValidateSession(id: string, updateActivity: bool, now: int) returns (found: Option<SessionData>)
      requires Valid()
      modifies storage
      ensures Valid()
      ensures (storage.Snapshot(), found) == Validated(old(storage.Snapshot()), id, updateActivity, now, cfg)
    {
      if id == "" {
        return None;
      }
      found := storage.Get(id, now);
      if found.None? || !found.value.isActive {
        return None;
      }
      if now - found.value.lastActivity > cfg.sessionTimeout {
        var _ := TerminateSession(id, now);
        return None;
      }
      if updateActivity {
        found := Some(found.value.(lastActivity := now));
        var _ := storage.Update(id, found.value, true, None, now);
      }
    }

    method CleanupSession(key: string, threshold: int, now: int)
      requires Valid() && threshold == now - cfg.sessionTimeout
      modifies storage
      ensures Valid()
      ensures storage.Snapshot() == CleanedOne(old(storage.Snapshot()), key, now, cfg)
    {
      var found := storage.Get(key, now);
      if found.Some? && found.value.isActive && found.value.lastActivity < threshold {
        var _ := storage.Update(key, Ended(found.value, now, "session_timeout"), true, None, now);
      }
    }

    method CleanupExpiredSessions(now: int)
      requires Valid()
      modifies this`lastCleanup, storage
      ensures Valid()
      ensures State() == Cleaned(old(State()), now, cfg)
    {
      if now - lastCleanup < cfg.cleanupInterval {
        return;
      }
      var threshold := now - cfg.sessionTimeout;
      var keys := storage.ScanIter(now);
      ghost var seen := storage.Snapshot();
      for i := 0 to |keys|
        invariant Valid()
        invariant storage.Snapshot() == CleanedAll(seen, keys[..i], now, cfg)
      {
        assert keys[..i + 1][..i] == keys[..i];
        CleanupSession(keys[i], threshold, now);
      }
      assert keys[..|keys|] == keys;
      lastCleanup := now;
    }

    method ValidateCsrfToken(id: string, token: string, now: int) returns (ok: bool)
      requires Valid()
      modifies csrfStorage
      ensures Valid()
      ensures (csrfStorage.Snapshot(), ok) == CheckedToken(old(csrfStorage.Snapshot()), id, token, now)
    {
      if id == "" || token == "" {
        return false;
      }
      var found := csrfStorage.Get(token, now);
      if found.None? || found.value.sessionId != id {
        return false;
      }
      if found.value.expiry < now {
        var _ := csrfStorage.Delete(token);
        return false;
      }
      return true;
    }
  }
}
