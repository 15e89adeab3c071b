/**
 The Memcached session storage: one key per session and, per user, a list of session ids that every
 call reads, changes and writes back with a new deadline. Times are seconds and an entry is alive
 strictly before its deadline.
 */
module MemcachedStorage {
  import opened Wrappers
  import opened Ordering
  import opened Expiring
  import opened Servers
  import SessionModel

  type SessionData = SessionModel.SessionData

  const DELETE_LIFETIME := 3600 * 24

  datatype UserList = UserList(ids: seq<string>, deadline: int)

  datatype Server = Server(sessions: Entries, index: map<int, UserList>)

  predicate Indexed(s: Server, user: int, now: int) {
    user in s.index && now < s.index[user].deadline
  }

  function Listed(s: Server, user: int, now: int): seq<string> {
    if Indexed(s, user, now) then s.index[user].ids else []
  }

  /** `list.remove(id)`: the first occurrence goes. */
  function Without(ids: seq<string>, id: string): seq<string> {
    if ids == [] then [] else if ids[0] == id then ids[1..] else [ids[0]] + Without(ids[1..], id)
  }

  /** Writes an existing list back unchanged with a new deadline. */
  function Rewritten(s: Server, user: int, now: int, deadline: int): Server {
    if Indexed(s, user, now) then s.(index := s.index[user := UserList(s.index[user].ids, deadline)]) else s
  }

  /** A create sets the session, gets the list and sets the list; here are the first and the last of these. */
  function SessionSet(s: Server, id: string, data: SessionData, now: int, exp: int): Server {
    s.(sessions := s.sessions[id := Entry(data, now + exp)])
  }

  function ListSet(s: Server, user: int, ids: seq<string>, now: int, exp: int): Server {
    s.(index := s.index[user := UserList(ids, now + exp + INDEX_GRACE)])
  }

  function WithId(ids: seq<string>, id: string): seq<string> {
    if id in ids then ids else ids + [id]
  }

  function Created(s: Server, id: string, data: SessionData, now: int, exp: int): Server {
    ListSet(SessionSet(s, id, data, now, exp), data.userId, WithId(Listed(s, data.userId, now), id), now, exp)
  }

  /** The session's own deadline is reset whatever `reset` says. */
  function Updated(s: Server, id: string, data: SessionData, reset: bool, now: int, exp: int): Server {
    if !Alive(s.sessions, id, now) then s
    else
      var s' := s.(sessions := s.sessions[id := Entry(data, now + exp)]);
      if reset then Rewritten(s', data.userId, now, now + exp + INDEX_GRACE) else s'
  }

  /** The shortened list gets a fixed day to live, whatever lifetime the sessions have. */
  function Deleted(s: Server, id: string, now: int): Server {
    if !Alive(s.sessions, id, now) then s
    else
      var user := s.sessions[id].data.userId;
      var s' := s.(sessions := s.sessions - {id});
      if id in Listed(s, user, now)
      then s'.(index := s.index[user := UserList(Without(s.index[user].ids, id), now + DELETE_LIFETIME)])
      else s'
  }

  function Extended(s: Server, id: string, now: int, exp: int): Server {
    if !Alive(s.sessions, id, now) then s
    else
      Rewritten(s.(sessions := s.sessions[id := s.sessions[id].(deadline := now + exp)]),
                s.sessions[id].data.userId, now, now + exp + INDEX_GRACE)
  }

  // ------------------------------------------------------------- the class

  class MemcachedSessionStorage {
    const expiration: int
    var sessions: Entries
    var index: map<int, UserList>

    function Snapshot(): Server
      reads this
    {
      Server(sessions, index)
    }

    function Lifetime(custom: Option<int>): int {
      if custom.Some? then custom.value else expiration
    }

    constructor (expiration: int)
      ensures this.expiration == expiration && Snapshot() == Server(map[], map[])
    {
      this.expiration := expiration;
      sessions, index := map[], map[];
    }

    method GetSession(id: string, now: int) returns (found: Option<SessionData>)
      ensures found == if Alive(sessions, id, now) then Some(sessions[id].data) else None
    {
      if id in sessions && now < sessions[id].deadline {
        return Some(sessions[id].data);
      }
      return None;
    }

    method GetList(user: int, now: int) returns (found: Option<seq<string>>)
      ensures found == if Indexed(Snapshot(), user, now) then Some(index[user].ids) else None
    {
      if user in index && now < index[user].deadline {
        return Some(index[user].ids);
      }
      return None;
    }

    method SetSession(id: string, data: SessionData, exp: int, now: int)
      modifies this`sessions
      ensures Snapshot() == SessionSet(old(Snapshot()), id, data, now, exp)
    {
      sessions := sessions[id := Entry(data, now + exp)];
    }

    method SetList(user: int, ids: seq<string>, exp: int, now: int)
      modifies this`index
      ensures Snapshot() == ListSet(old(Snapshot()), user, ids, now, exp)
    {
      index := index[user := UserList(ids, now + exp + INDEX_GRACE)];
    }

    method Create(data: SessionData, id: string, custom: Option<int>, now: int)
      modifies this
      ensures Snapshot() == Created(old(Snapshot()), id, data, now,
        if custom.Some? then custom.value else expiration)
    {
      SetSession(id, data, Lifetime(custom), now);
      var found := GetList(data.userId, now);
      var ids: seq<string>;
      if found.Some? {
        ids := found.value;
        if id !in ids {
          ids := ids + [id];
        }
      } else {
        ids := [id];
        assert ids == [] + [id];
      }
      SetList(data.userId, ids, Lifetime(custom), now);
    }

    method RewriteList(user: int, deadline: int, now: int)
      modifies this`index
      ensures Snapshot() == Rewritten(old(Snapshot()), user, now, deadline)
    {
      var found := GetList(user, now);
      if found.Some? {
        index := index[user := UserList(found.value, deadline)];
      }
    }

    method Update(id: string, data: SessionData, reset: bool, custom: Option<int>, now: int) returns (done: bool)
      modifies this
      ensures done == Alive(old(sessions), id, now)
      ensures Snapshot() == Updated(old(Snapshot()), id, data, reset, now,
        if custom.Some? then custom.value else expiration)
    {
      var found := GetSession(id, now);
      if found.None? {
        return false;
      }
      sessions := sessions[id := Entry(data, now + Lifetime(custom))];
      if reset {
        RewriteList(data.userId, now + Lifetime(custom) + INDEX_GRACE, now);
      }
      return true;
    }

    method RemoveFirst(ids: seq<string>, id: string) returns (rest: seq<string>)
      ensures rest == Without(ids, id)
    {
      var i := 0;
      while i < |ids| && ids[i] != id
        invariant 0 <= i <= |ids|
        invariant Without(ids, id) == ids[..i] + Without(ids[i..], id)
      {
        assert ids[i..][1..] == ids[i + 1..];
        i := i + 1;
      }
      if i == |ids| {
        rest := ids;
      } else {
        rest := ids[..i] + ids[i + 1..];
      }
    }

    method Delete(id: string, now: int) returns (done: bool)
      modifies this
      ensures done == Alive(old(sessions), id, now)
      ensures Snapshot() == Deleted(old(Snapshot()), id, now)
    {
      var session := GetSession(id, now);
      if session.None? {
        return false;
      }
      sessions := sessions - {id};
      var user := session.value.userId;
      var found := GetList(user, now);
      if found.Some? && id in found.value {
        var rest := RemoveFirst(found.value, id);
        index := index[user := UserList(rest, now + DELETE_LIFETIME)];
      }
      return true;
    }

    method Extend(id: string, custom: Option<int>, now: int) returns (done: bool)
      modifies this
      ensures done == Alive(old(sessions), id, now)
      ensures Snapshot() == Extended(old(Snapshot()), id, now,
        if custom.Some? then custom.value else expiration)
    {
      var found := GetSession(id, now);
      if found.None? {
        return false;
      }
      sessions := sessions[id := sessions[id].(deadline := now + Lifetime(custom))];
      RewriteList(found.value.userId, now + Lifetime(custom) + INDEX_GRACE, now);
      return true;
    }

    method GetUserSessions(user: int, now: int) returns (ids: seq<string>)
      ensures ids == Listed(Snapshot(), user, now)
    {
      var found := GetList(user, now);
      ids := if found.Some? then found.value else [];
    }
  }

  // ------------------------------------------------------------- runs

  /** Updates reset the expiration, as the manager's do. */
  datatype Op =
    | Create(id: string, data: SessionData, now: int)
    | Update(id: string, data: SessionData, now: int)
    | Delete(id: string, now: int)
    | Extend(id: string, now: int)

  function Applied(s: Server, op: Op, exp: int): Server {
    match op
    case Create(id, data, now) => Created(s, id, data, now, exp)
    case Update(id, data, now) => Updated(s, id, data, true, now, exp)
    case Delete(id, now) => Deleted(s, id, now)
    case Extend(id, now) => Extended(s, id, now, exp)
  }

  function After(ops: seq<Op>, exp: int): Server {
    if ops == [] then Server(map[], map[]) else Applied(After(ops[..|ops| - 1], exp), ops[|ops| - 1], exp)
  }

  /** The clock does not go back, and an update keeps the owner. */
  ghost predicate Lawful(ops: seq<Op>, exp: int)
    decreases |ops|
  {
    ops == [] ||
    var before, op := ops[..|ops| - 1], ops[|ops| - 1];
    && Lawful(before, exp)
    && (before != [] ==> before[|before| - 1].now <= op.now)
    && (op.Update? && op.id in After(before, exp).sessions ==>
          op.data.userId == After(before, exp).sessions[op.id].data.userId)
  }

  // ------------------------------------------------------------- what one call does to a list

  /** The user whose list the call writes, if any. */
  function Owner(s: Server, op: Op): Option<int> {
    match op
    case Create(_, data, _) => Some(data.userId)
    case Update(id, data, now) => if Alive(s.sessions, id, now) then Some(data.userId) else None
    case Delete(id, now) =>
      if Alive(s.sessions, id, now) && id in Listed(s, s.sessions[id].data.userId, now)
      then Some(s.sessions[id].data.userId) else None
    case Extend(id, now) => if Alive(s.sessions, id, now) then Some(s.sessions[id].data.userId) else None
  }

  /**
   A create puts its id at the end of the owner's list unless it is there; creates, updates and
   extensions give a live list one lifetime and an hour from now. A delete that finds its session
   listed gives the list a day. Nothing else changes a list that is alive.
   */
  lemma {:induction false} ListStep(s: Server, op: Op, user: int, exp: int)
    requires exp > 0
    ensures var s', mine := Applied(s, op, exp), Owner(s, op) == Some(user);
      && (mine && op.Create? ==>
            var ids := Listed(s, user, op.now); Listed(s', user, op.now) == ids + if op.id in ids then [] else [op.id])
      && (!(mine && (op.Create? || op.Delete?)) ==> Listed(s', user, op.now) == Listed(s, user, op.now))
      && (Indexed(s', user, op.now) ==>
            if mine then s'.index[user].deadline == op.now + if op.Delete? then 86400 else exp + 3600
            else Indexed(s, user, op.now) && s'.index[user].deadline == s.index[user].deadline)
  {
  }

  /** Whether or not it resets, an update leaves the ids in every live list; only a resetting one renews the owner's. */
  lemma {:induction false} UpdateStep(s: Server, id: string, data: SessionData, reset: bool, now: int, user: int,
        exp: int)
    requires exp > 0
    ensures var s', mine := Updated(s, id, data, reset, now, exp), reset && Alive(s.sessions, id, now)
        && data.userId == user;
      && Listed(s', user, now) == Listed(s, user, now)
      && (Indexed(s', user, now) ==>
            s'.index[user].deadline == if mine then now + exp + 3600 else s.index[user].deadline)
  {
  }

  /** An update that does not reset lets a session outlive its list, for every lifetime of more than 3601 s. */
  lemma {:induction false} UnresetForgets(a: SessionData, exp: int)
    requires exp > 3601
    ensures var s := Updated(Created(Server(map[], map[]), "a", a, 0, exp), "a", a, false, 3601, exp);
      Alive(s.sessions, "a", exp + 3600) && Listed(s, a.userId, exp + 3600) == []
  {
  }

  /** A delete takes the first occurrence of its id away and leaves the others in their order. */
  lemma {:induction false} DeleteStep(s: Server, id: string, now: int, a: seq<string>, b: seq<string>, exp: int)
    requires Alive(s.sessions, id, now) && id !in a
    requires Listed(s, s.sessions[id].data.userId, now) == a + [id] + b
    ensures var user := s.sessions[id].data.userId; Listed(Applied(s, Delete(id, now), exp), user, now) == a + b
  {
    WithoutFirst(a, id, b);
  }

  lemma {:induction false} WithoutFirst(a: seq<string>, id: string, b: seq<string>)
    requires id !in a
    ensures Without(a + [id] + b, id) == a + b
  {
    if a != [] {
      WithoutFirst(a[1..], id, b);
      assert (a + [id] + b)[1..] == a[1..] + [id] + b;
      assert a[0] in a;
    } else {
      assert [] + [id] + b == [id] + b;
    }
  }

  // ------------------------------------------------------------- the list is complete

  /** Every live session stands in its user's list, and the list does not expire before it. */
  ghost predicate Complete(s: Server, now: int) {
    forall id | Alive(s.sessions, id, now) ::
      var user := s.sessions[id].data.userId;
      && user in s.index
      && id in s.index[user].ids
      && s.sessions[id].deadline <= s.index[user].deadline
  }

  ghost predicate Inv(s: Server, now: int, exp: int) {
    && Complete(s, now)
    && (forall user | user in s.index :: NoDup(s.index[user].ids))
    && forall id | id in s.sessions :: s.sessions[id].deadline <= now + exp
  }

  lemma {:induction false} WithoutMembers(ids: seq<string>, id: string)
    ensures forall x | x in Without(ids, id) :: x in ids
    ensures forall x | x in ids && x != id :: x in Without(ids, id)
    ensures NoDup(ids) ==> NoDup(Without(ids, id)) && id !in Without(ids, id)
  {
    if ids != [] {
      WithoutMembers(ids[1..], id);
      assert ids == [ids[0]] + ids[1..];
      if NoDup(ids) {
        assert NoDup(ids[1..]);
        assert ids[0] !in ids[1..];
      }
    }
  }

  lemma {:induction false} CreateInv(s: Server, id: string, data: SessionData, now: int, exp: int)
    requires Inv(s, now, exp)
    ensures Inv(Created(s, id, data, now, exp), now, exp)
  {
  }

  lemma {:induction false} UpdateInv(s: Server, id: string, data: SessionData, now: int, exp: int)
    requires Inv(s, now, exp)
    requires id in s.sessions ==> data.userId == s.sessions[id].data.userId
    ensures Inv(Updated(s, id, data, true, now, exp), now, exp)
  {
  }

  lemma {:induction false} DeleteInv(s: Server, id: string, now: int, exp: int)
    requires Inv(s, now, exp) && exp <= DELETE_LIFETIME
    ensures Inv(Deleted(s, id, now), now, exp)
  {
    if Alive(s.sessions, id, now) {
      WithoutMembers(s.index[s.sessions[id].data.userId].ids, id);
    }
  }

  lemma {:induction false} ExtendInv(s: Server, id: string, now: int, exp: int)
    requires Inv(s, now, exp)
    ensures Inv(Extended(s, id, now, exp), now, exp)
  {
  }

  lemma {:induction false} RunInv(ops: seq<Op>, exp: int, now: int)
    requires Lawful(ops, exp) && exp <= DELETE_LIFETIME
    requires ops != [] ==> ops[|ops| - 1].now <= now
    ensures Inv(After(ops, exp), now, exp)
  {
    if ops != [] {
      var before, op := ops[..|ops| - 1], ops[|ops| - 1];
      RunInv(before, exp, op.now);
      var s := After(before, exp);
      match op {
        case Create(id, data, t) => CreateInv(s, id, data, t, exp);
        case Update(id, data, t) => UpdateInv(s, id, data, t, exp);
        case Delete(id, t) => DeleteInv(s, id, t, exp);
        case Extend(id, t) => ExtendInv(s, id, t, exp);
      }
    }
  }

  /** After `ops`, and however long one waits, live sessions are listed for their users. */
  ghost predicate ListsAllLive(ops: seq<Op>, exp: int, now: int) {
    forall id | Alive(After(ops, exp).sessions, id, now) ::
      id in Listed(After(ops, exp), After(ops, exp).sessions[id].data.userId, now)
  }

  /** A run in which deleting one session makes the list forget another: nothing but two creates and a delete. */
  function ForgetfulRun(a: SessionData, b: SessionData): seq<Op> {
    [Create("a", a, 0), Create("b", b, 0), Delete("b", 0)]
  }

  lemma {:induction false} ForgetfulRunForgets(a: SessionData, b: SessionData, exp: int)
    requires exp > 86400 && a.userId == b.userId
    ensures Lawful(ForgetfulRun(a, b), exp)
    ensures !ListsAllLive(ForgetfulRun(a, b), exp, 86400)
  {
    var ops := ForgetfulRun(a, b);
    var one, two := [Create("a", a, 0)], [Create("a", a, 0), Create("b", b, 0)];
    assert one[..0] == [] && two[..1] == one && ops[..2] == two;
    assert After([], exp) == Server(map[], map[]);
    assert After(one, exp) == Created(Server(map[], map[]), "a", a, 0, exp);
    assert After(two, exp) == Created(After(one, exp), "b", b, 0, exp);
    assert After(ops, exp) == Deleted(After(two, exp), "b", 0);
    assert Lawful(one, exp) && Lawful(two, exp);
    assert Alive(After(ops, exp).sessions, "a", DELETE_LIFETIME);
    assert After(ops, exp).index[a.userId].deadline == DELETE_LIFETIME;
  }

  /**
   The list is complete over every lawful run exactly when sessions live no longer than the day
   that a delete gives the list.
   */
  lemma {:induction false} IndexCompleteExactly(exp: int, a: SessionData)
    ensures exp <= 86400 <==>
      forall ops: seq<Op>, now: int | Lawful(ops, exp) && (ops != [] ==> ops[|ops| - 1].now <= now) ::
        ListsAllLive(ops, exp, now)
  {
    if exp <= DELETE_LIFETIME {
      forall ops: seq<Op>, now: int | Lawful(ops, exp) && (ops != [] ==> ops[|ops| - 1].now <= now)
        ensures ListsAllLive(ops, exp, now)
      {
        RunInv(ops, exp, now);
      }
    } else {
      ForgetfulRunForgets(a, a, exp);
    }
  }

  /** Within a day, lists have no duplicates and no list expires before a session in it. */
  lemma {:induction false} ListsAreSound(ops: seq<Op>, exp: int, now: int, user: int)
    requires Lawful(ops, exp) && exp <= DELETE_LIFETIME
    requires ops != [] ==> ops[|ops| - 1].now <= now
    ensures NoDup(Listed(After(ops, exp), user, now))
    ensures forall id | Alive(After(ops, exp).sessions, id, now) && After(ops, exp).sessions[id].data.userId == user ::
      && id in Listed(After(ops, exp), user, now)
      && After(ops, exp).sessions[id].deadline <= After(ops, exp).index[user].deadline
  {
    RunInv(ops, exp, now);
  }
}
