/**
 What is the same over every storage: sessions, the manager's settings and calls, and which
 sessions the limit picks.
 */
module SessionModel {
  import opened Ordering

  datatype MetaValue = Text(text: string) | Instant(time: int)

  /** `origin` stands for the address, user agent and device fields, which are only carried along. */
  datatype SessionData = SessionData(
    userId: int,
    sessionId: string,
    origin: string,
    createdAt: int,
    lastActivity: int,
    isActive: bool,
    metadata: map<string, MetaValue>)

  /** The manager's settings and the lifetime its storage gives every entry. */
  datatype Config = Config(maxSessions: int, sessionTimeout: int, cleanupInterval: int, expiration: int)

  function NewSession(id: string, user: int, origin: string, metadata: map<string, MetaValue>, now: int): SessionData {
    SessionData(user, id, origin, now, now, true, metadata)
  }

  function Ended(s: SessionData, now: int, reason: string): SessionData {
    s.(isActive := false,
       metadata := s.metadata["terminated_at" := Instant(now)]["termination_reason" := Text(reason)])
  }

  // ------------------------------------------------------------- what ending means, field by field

  /** Two more entries, or those two replaced. */
  ghost predicate Marked(before: map<string, MetaValue>, after: map<string, MetaValue>, at: int, reason: string) {
    && after.Keys == before.Keys + {"terminated_at", "termination_reason"}
    && after["terminated_at"] == Instant(at) && after["termination_reason"] == Text(reason)
    && forall k | k in before && k != "terminated_at" && k != "termination_reason" :: after[k] == before[k]
  }

  /** `s'` is `s` ended at `at`: inactive and marked, and otherwise the same. */
  ghost predicate EndedAs(s: SessionData, s': SessionData, at: int, reason: string) {
    && s'.userId == s.userId && s'.sessionId == s.sessionId && s'.origin == s.origin
    && s'.createdAt == s.createdAt && s'.lastActivity == s.lastActivity
    && !s'.isActive && Marked(s.metadata, s'.metadata, at, reason)
  }

  ghost predicate IdleTooLong(s: SessionData, now: int, cfg: Config) {
    s.isActive && now - s.lastActivity > cfg.sessionTimeout
  }

  lemma {:induction false} EndedMarks(s: SessionData, now: int, reason: string)
    ensures EndedAs(s, Ended(s, now, reason), now, reason)
  {
  }

  // ------------------------------------------------------------- cleanup and limit

  /** What a cleanup looks for. */
  predicate TimedOut(s: SessionData, now: int, cfg: Config) {
    s.isActive && s.lastActivity < now - cfg.sessionTimeout
  }

  /** What a cleanup makes of a session it comes across. */
  function CleanedSession(s: SessionData, now: int, cfg: Config): SessionData {
    if TimedOut(s, now, cfg) then Ended(s, now, "session_timeout") else s
  }

  /** How many of `n` active sessions make room for one more: all but `max - 1`, if there are so many. */
  function VictimCount(n: nat, max: int): (c: nat)
    ensures c <= n
  {
    if n < max then 0 else if n - max + 1 < n then n - max + 1 else n
  }

  function Oldest(ids: seq<string>, activity: map<string, int>, max: int): seq<string>
    requires Covers(activity, ids)
  {
    SortMembers(ids, activity);
    Sort(ids, activity)[..VictimCount(|ids|, max)]
  }

  datatype Event =
    | Create(id: string, user: int, origin: string, metadata: map<string, MetaValue>, now: int)
    | Validate(id: string, updateActivity: bool, now: int)
    | Terminate(id: string, now: int)
    | Cleanup(now: int)
}
