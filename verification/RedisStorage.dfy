/**
 The Redis session storage: one key per session and one set of session ids per user, each with a
 deadline of its own. The class holds what the server holds; a pipeline is one atomic step. Times
 are seconds and an entry is alive strictly before its deadline.
 */
module RedisStorage {
  import opened Wrappers
  import opened Expiring
  import opened Servers
  import SessionModel

  type SessionData = SessionModel.SessionData

  datatype UserSet = UserSet(ids: set<string>, deadline: int)

  datatype Server = Server(sessions: Entries, index: map<int, UserSet>)

  predicate Indexed(s: Server, user: int, now: int) {
    user in s.index && now < s.index[user].deadline
  }

  /** SMEMBERS on the user's key. */
  function Members(s: Server, user: int, now: int): set<string> {
    if Indexed(s, user, now) then s.index[user].ids else {}
  }

  /** EXPIRE on the user's key: nothing happens when the key is gone. */
  function Prolonged(s: Server, user: int, now: int, deadline: int): Server {
    if Indexed(s, user, now) then s.(index := s.index[user := s.index[user].(deadline := deadline)]) else s
  }

  function Created(s: Server, id: string, data: SessionData, now: int, exp: int): Server {
    Server(s.sessions[id := Entry(data, now + exp)],
           s.index[data.userId := UserSet(Members(s, data.userId, now) + {id}, now + exp + INDEX_GRACE)])
  }

  function Updated(s: Server, id: string, data: SessionData, reset: bool, now: int, exp: int): Server {
    if !Alive(s.sessions, id, now) then s
    else if reset then
      Prolonged(s.(sessions := s.sessions[id := Entry(data, now + exp)]), data.userId, now, now + exp + INDEX_GRACE)
    else s.(sessions := s.sessions[id := Entry(data, s.sessions[id].deadline)])
  }

  function Deleted(s: Server, id: string, now: int): Server {
    if !Alive(s.sessions, id, now) then s
    else
      var user := s.sessions[id].data.userId;
      var rest := Members(s, user, now) - {id};
      Server(s.sessions - {id},
             if !Indexed(s, user, now) then s.index
             else if rest == {} then s.index - {user}
             else s.index[user := s.index[user].(ids := rest)])
  }

  function Extended(s: Server, id: string, now: int, exp: int): Server {
    if !Alive(s.sessions, id, now) then s
    else
      Prolonged(s.(sessions := s.sessions[id := s.sessions[id].(deadline := now + exp)]),
                s.sessions[id].data.userId, now, now + exp + INDEX_GRACE)
  }

  // ------------------------------------------------------------- the class

  class RedisSessionStorage {
    const expiration: int
    var sessions: Entries
    var index: map<int, UserSet>

    function Snapshot(): Server
      reads this
    {
      Server(sessions, index)
    }

    function Lifetime(custom: Option<int>): int {
      if custom.Some? then custom.value else expiration
    }

    constructor (expiration: int)
      ensures this.expiration == expiration && Snapshot() == Server(map[], map[])
    {
      this.expiration := expiration;
      sessions, index := map[], map[];
    }

    method Sadd(user: int, id: string, now: int)
      modifies this`index
      ensures index == old(index)[user := UserSet(Members(old(Snapshot()), user, now) + {id},
        if Indexed(old(Snapshot()), user, now) then old(index)[user].deadline else now)]
    {
      if user in index && now < index[user].deadline {
        index := index[user := index[user].(ids := index[user].ids + {id})];
      } else {
        assert {id} == {} + {id};
        index := index[user := UserSet({id}, now)];
      }
    }

    method Srem(user: int, id: string, now: int)
      modifies this`index
      ensures index == if !Indexed(old(Snapshot()), user, now) then old(index)
                       else if old(index)[user].ids - {id} == {} then old(index) - {user}
                       else old(index)[user := old(index)[user].(ids := old(index)[user].ids - {id})]
    {
      if user in index && now < index[user].deadline {
        var rest := index[user].ids - {id};
        if rest == {} {
          index := index - {user};
        } else {
          index := index[user := index[user].(ids := rest)];
        }
      }
    }

    method Create(data: SessionData, id: string, custom: Option<int>, now: int)
      modifies this
      ensures Snapshot() == Created(old(Snapshot()), id, data, now,
        if custom.Some? then custom.value else expiration)
    {
      var exp := Lifetime(custom);
      sessions := sessions[id := Entry(data, now + exp)];
      Sadd(data.userId, id, now);
      index := index[data.userId := index[data.userId].(deadline := now + exp + INDEX_GRACE)];
    }

    method Get(id: string, now: int) returns (found: Option<SessionData>)
      ensures found == if Alive(sessions, id, now) then Some(sessions[id].data) else None
    {
      if id in sessions && now < sessions[id].deadline {
        return Some(sessions[id].data);
      }
      return None;
    }

    method Update(id: string, data: SessionData, reset: bool, custom: Option<int>, now: int) returns (done: bool)
      modifies this
      ensures done == Alive(old(sessions), id, now)
      ensures Snapshot() == Updated(old(Snapshot()), id, data, reset, now,
        if custom.Some? then custom.value else expiration)
    {
      if id !in sessions || sessions[id].deadline <= now {
        return false;
      }
      if reset {
        sessions := sessions[id := Entry(data, now + Lifetime(custom))];
        ExpireIndex(data.userId, now + Lifetime(custom) + INDEX_GRACE, now);
      } else {
        var ttl := sessions[id].deadline - now;
        sessions := sessions[id := Entry(data, now + ttl)];
      }
      return true;
    }

    method ExpireIndex(user: int, deadline: int, now: int)
      modifies this`index
      ensures Snapshot() == Prolonged(old(Snapshot()), user, now, deadline)
    {
      if user in index && now < index[user].deadline {
        index := index[user := index[user].(deadline := deadline)];
      }
    }

    method Delete(id: string, now: int) returns (done: bool)
      modifies this
      ensures done == Alive(old(sessions), id, now)
      ensures Snapshot() == Deleted(old(Snapshot()), id, now)
    {
      var found := Get(id, now);
      if found.None? {
        return false;
      }
      sessions := sessions - {id};
      Srem(found.value.userId, id, now);
      return true;
    }

    method Extend(id: string, custom: Option<int>, now: int) returns (done: bool)
      modifies this
      ensures done == Alive(old(sessions), id, now)
      ensures Snapshot() == Extended(old(Snapshot()), id, now,
        if custom.Some? then custom.value else expiration)
    {
      var found := Get(id, now);
      if found.None? {
        return false;
      }
      sessions := sessions[id := sessions[id].(deadline := now + Lifetime(custom))];
      ExpireIndex(found.value.userId, now + Lifetime(custom) + INDEX_GRACE, now);
      return true;
    }

    method GetUserSessions(user: int, now: int) returns (ids: set<string>)
      ensures ids == Members(Snapshot(), user, now)
    {
      ids := if user in index && now < index[user].deadline then index[user].ids else {};
    }
  }

  // ------------------------------------------------------------- runs

  datatype Op =
    | Create(id: string, data: SessionData, now: int)
    | Update(id: string, data: SessionData, reset: bool, now: int)
    | Delete(id: string, now: int)
    | Extend(id: string, now: int)

  function Applied(s: Server, op: Op, exp: int): Server {
    match op
    case Create(id, data, now) => Created(s, id, data, now, exp)
    case Update(id, data, reset, now) => Updated(s, id, data, reset, now, exp)
    case Delete(id, now) => Deleted(s, id, now)
    case Extend(id, now) => Extended(s, id, now, exp)
  }

  function After(ops: seq<Op>, exp: int): Server {
    if ops == [] then Server(map[], map[]) else Applied(After(ops[..|ops| - 1], exp), ops[|ops| - 1], exp)
  }

  ghost predicate Started(ops: seq<Op>, id: string) {
    exists i :: 0 <= i < |ops| && ops[i].Create? && ops[i].id == id
  }

  /** The clock does not go back, ids are given out once, and an update keeps the owner. */
  ghost predicate Lawful(ops: seq<Op>, exp: int)
    decreases |ops|
  {
    ops == [] ||
    var before, op := ops[..|ops| - 1], ops[|ops| - 1];
    && Lawful(before, exp)
    && (before != [] ==> before[|before| - 1].now <= op.now)
    && (op.Create? ==> !Started(before, op.id))
    && (op.Update? && op.id in After(before, exp).sessions ==>
          op.data.userId == After(before, exp).sessions[op.id].data.userId)
  }

  // ------------------------------------------------------------- what one call does to an index

  /** The user in whose index the call is noted, if in any. */
  function Owner(s: Server, op: Op): Option<int> {
    match op
    case Create(_, data, _) => Some(data.userId)
    case Update(id, data, reset, now) => if Alive(s.sessions, id, now) && reset then Some(data.userId) else None
    case Delete(id, now) => if Alive(s.sessions, id, now) then Some(s.sessions[id].data.userId) else None
    case Extend(id, now) => if Alive(s.sessions, id, now) then Some(s.sessions[id].data.userId) else None
  }

  /**
   A create adds its id to the owner's set and a delete that finds its session takes it away; creates,
   resetting updates and extensions give a live set one lifetime and an hour from now. Nothing else
   changes a set that is alive.
   */
  lemma {:induction false} SetStep(s: Server, op: Op, user: int, exp: int)
    requires exp > 0
    ensures var s', mine := Applied(s, op, exp), Owner(s, op) == Some(user);
      && Members(s', user, op.now) == (if mine && op.Create? then Members(s, user, op.now) + {op.id}
                                       else if mine && op.Delete? then Members(s, user, op.now) - {op.id}
                                       else Members(s, user, op.now))
      && (Indexed(s', user, op.now) ==>
            if mine && !op.Delete? then s'.index[user].deadline == op.now + exp + 3600
            else Indexed(s, user, op.now) && s'.index[user].deadline == s.index[user].deadline)
  {
  }

  // ------------------------------------------------------------- the index is complete

  /** Every unexpired session stands in its user's set, which outlives it by the grace period. */
  ghost predicate Complete(s: Server, now: int) {
    forall id | Alive(s.sessions, id, now) ::
      var user := s.sessions[id].data.userId;
      && user in s.index
      && id in s.index[user].ids
      && s.sessions[id].deadline + INDEX_GRACE <= s.index[user].deadline
  }

  /** A user's set names no session of another user. */
  ghost predicate Honest(s: Server) {
    forall user, id | user in s.index && id in s.index[user].ids && id in s.sessions ::
      s.sessions[id].data.userId == user
  }

  /** No deadline is further away than the one lifetime all sessions get. */
  ghost predicate Near(s: Server, now: int, exp: int) {
    forall id | id in s.sessions :: s.sessions[id].deadline <= now + exp
  }

  ghost predicate Inv(s: Server, now: int, exp: int) {
    Complete(s, now) && Honest(s) && Near(s, now, exp)
  }

  lemma {:induction false} InvLater(s: Server, now: int, later: int, exp: int)
    requires Inv(s, now, exp) && now <= later
    ensures Inv(s, later, exp)
  {
  }

  lemma {:induction false} CreateInv(s: Server, id: string, data: SessionData, now: int, exp: int)
    requires Inv(s, now, exp)
    requires id !in s.sessions && forall u | u in s.index :: id !in s.index[u].ids
    ensures Inv(Created(s, id, data, now, exp), now, exp)
  {
  }

  lemma {:induction false} UpdateInv(s: Server, id: string, data: SessionData, reset: bool, now: int, exp: int)
    requires Inv(s, now, exp)
    requires id in s.sessions ==> data.userId == s.sessions[id].data.userId
    ensures Inv(Updated(s, id, data, reset, now, exp), now, exp)
  {
  }

  lemma {:induction false} DeleteInv(s: Server, id: string, now: int, exp: int)
    requires Inv(s, now, exp)
    ensures Inv(Deleted(s, id, now), now, exp)
  {
  }

  lemma {:induction false} ExtendInv(s: Server, id: string, now: int, exp: int)
    requires Inv(s, now, exp)
    ensures Inv(Extended(s, id, now, exp), now, exp)
  {
  }

  /** Only ids that were created are stored or indexed. */
  lemma {:induction false} OnlyStarted(ops: seq<Op>, exp: int)
    ensures var s := After(ops, exp);
      && (forall id | id in s.sessions :: Started(ops, id))
      && (forall u, id | u in s.index && id in s.index[u].ids :: Started(ops, id))
  {
    if ops != [] {
      var before, op := ops[..|ops| - 1], ops[|ops| - 1];
      OnlyStarted(before, exp);
      assert ops[|ops| - 1] == op;
      forall id | Started(before, id) ensures Started(ops, id) {
        var i :| 0 <= i < |before| && before[i].Create? && before[i].id == id;
        assert ops[i].Create? && ops[i].id == id;
      }
    }
  }

  lemma {:induction false} RunInv(ops: seq<Op>, exp: int, now: int)
    requires Lawful(ops, exp)
    requires ops != [] ==> ops[|ops| - 1].now <= now
    ensures Inv(After(ops, exp), now, exp)
  {
    if ops != [] {
      var before, op := ops[..|ops| - 1], ops[|ops| - 1];
      RunInv(before, exp, op.now);
      var s := After(before, exp);
      OnlyStarted(before, exp);
      match op {
        case Create(id, data, t) => CreateInv(s, id, data, t, exp);
        case Update(id, data, reset, t) => UpdateInv(s, id, data, reset, t, exp);
        case Delete(id, t) => DeleteInv(s, id, t, exp);
        case Extend(id, t) => ExtendInv(s, id, t, exp);
      }
      InvLater(After(ops, exp), op.now, now, exp);
    }
  }

  /** What the limit sees by asking the index and fetching each id. */
  function ActiveByIndex(s: Server, user: int, now: int): set<string> {
    set id | id in Members(s, user, now) && Alive(s.sessions, id, now) && s.sessions[id].data.isActive
  }

  /** What it would see by scanning every session key. */
  function ActiveByScan(s: Server, user: int, now: int): set<string> {
    set id | id in s.sessions && Alive(s.sessions, id, now) && s.sessions[id].data.userId == user
      && s.sessions[id].data.isActive
  }

  /** After every lawful run and at every later time, the index shows exactly what the full scan would. */
  lemma {:induction false} IndexEqualsScan(ops: seq<Op>, exp: int, user: int, now: int)
    requires Lawful(ops, exp)
    requires ops != [] ==> ops[|ops| - 1].now <= now
    ensures ActiveByIndex(After(ops, exp), user, now) == ActiveByScan(After(ops, exp), user, now)
    ensures forall id | Alive(After(ops, exp).sessions, id, now) && After(ops, exp).sessions[id].data.userId == user ::
      && id in Members(After(ops, exp), user, now)
      && After(ops, exp).sessions[id].deadline + 3600 <= After(ops, exp).index[user].deadline
  {
    RunInv(ops, exp, now);
  }
}
