/**
 The limit on active sessions per user while creates are in flight. It holds up to the number of
 creates in flight, as long as no two rewrites of the user's list are open at a time.
 */
module FlightCap {
  import opened Expiring
  import opened Ordering
  import opened Servers
  import opened SessionModel
  import opened SessionBackends
  import opened BackendCap
  import opened BackendFlight
  import RedisStorage
  import MemcachedStorage
  import SessionCap

  // ------------------------------------------------------------- the index misses only sessions still being listed

  ghost predicate OnIndex(b: Backend, user: int, id: string, deadline: int) {
    match b
    case Redis(r) => user in r.index && id in r.index[user].ids && deadline + INDEX_GRACE <= r.index[user].deadline
    case Memcached(m) => user in m.index && id in m.index[user].ids && deadline + INDEX_GRACE <= m.index[user].deadline
  }

  predicate Owned(es: Entries, user: int, id: string, now: int) {
    Alive(es, id, now) && es[id].data.userId == user
  }

  /** Every live session of the user is on the index, which outlives it, or in `unlisted`; no deadline is far away. */
  ghost predicate Guarded(b: Backend, user: int, unlisted: set<string>, now: int, exp: int) {
    var es := SessionsOf(b);
    && (forall id | Owned(es, user, id, now) && id !in unlisted :: OnIndex(b, user, id, es[id].deadline))
    && (forall id | id in es :: es[id].deadline <= now + exp)
  }

  /** `ids` names every live session of the user that is not in `unlisted`. */
  ghost predicate Complete(b: Backend, user: int, unlisted: set<string>, now: int, ids: seq<string>) {
    forall id | Owned(SessionsOf(b), user, id, now) && id !in unlisted :: id in ids
  }

  /** No session appears, changes hands, or comes alive or active. */
  ghost predicate Tame(es: Entries, es': Entries, now: int) {
    && es'.Keys == es.Keys
    && forall id | id in es ::
         && es'[id].data.userId == es[id].data.userId
         && (es'[id].data.isActive ==> es[id].data.isActive)
         && (Alive(es', id, now) ==> Alive(es, id, now))
  }

  lemma {:induction false} RewrittenGuarded(b: Backend, id: string, s: SessionData, user: int, unlisted: set<string>,
        now: int, exp: int)
    requires Guarded(b, user, unlisted, now, exp) && Alive(SessionsOf(b), id, now)
    requires s.userId == SessionsOf(b)[id].data.userId && (s.isActive ==> SessionsOf(b)[id].data.isActive)
    ensures var b' := Rewritten(b, id, s, now, exp);
      && Guarded(b', user, unlisted, now, exp) && Tame(SessionsOf(b), SessionsOf(b'), now)
      && SessionsOf(b') == SessionsOf(b)[id := Entry(s, now + exp)]
  {
  }

  lemma {:induction false} TerminatedGuarded(b: Backend, id: string, user: int, unlisted: set<string>, now: int,
        cfg: Config)
    requires Guarded(b, user, unlisted, now, cfg.expiration)
    ensures var b' := Terminated(b, id, now, cfg);
      && Guarded(b', user, unlisted, now, cfg.expiration) && Tame(SessionsOf(b), SessionsOf(b'), now)
      && ActiveOf(SessionsOf(b'), user, now) == ActiveOf(SessionsOf(b), user, now) - {id}
  {
    if Alive(SessionsOf(b), id, now) {
      RewrittenGuarded(b, id, Ended(SessionsOf(b)[id].data, now, "manual_termination"), user, unlisted, now,
        cfg.expiration);
    }
  }

  lemma {:induction false} CleanedGuarded(b: Backend, ids: seq<string>, user: int, unlisted: set<string>, now: int,
        cfg: Config)
    requires Guarded(b, user, unlisted, now, cfg.expiration)
    ensures var b' := CleanedAll(b, ids, now, cfg);
      && Guarded(b', user, unlisted, now, cfg.expiration) && Tame(SessionsOf(b), SessionsOf(b'), now)
      && (b'.Redis? <==> b.Redis?)
  {
    if ids != [] {
      var front, id := ids[..|ids| - 1], ids[|ids| - 1];
      CleanedGuarded(b, front, user, unlisted, now, cfg);
      var mid := CleanedAll(b, front, now, cfg);
      if Alive(SessionsOf(mid), id, now) {
        RewrittenGuarded(mid, id, Ended(SessionsOf(mid)[id].data, now, "session_timeout"), user, unlisted, now,
          cfg.expiration);
      }
    }
  }

  lemma {:induction false} ValidatedGuarded(b: Backend, id: string, update: bool, user: int, unlisted: set<string>,
        now: int, cfg: Config)
    requires Guarded(b, user, unlisted, now, cfg.expiration)
    ensures var b' := Validated(b, id, update, now, cfg).0;
      && Guarded(b', user, unlisted, now, cfg.expiration) && Tame(SessionsOf(b), SessionsOf(b'), now)
      && (b'.Redis? <==> b.Redis?)
  {
    if id != "" && Alive(SessionsOf(b), id, now) {
      var s := SessionsOf(b)[id].data;
      if s.isActive && now - s.lastActivity > cfg.sessionTimeout {
        TerminatedGuarded(b, id, user, unlisted, now, cfg);
      } else {
        RewrittenGuarded(b, id, s.(lastActivity := now), user, unlisted, now, cfg.expiration);
      }
    }
  }

  lemma {:induction false} OtherGuarded(m: Manager, c: Call, user: int, unlisted: set<string>, cfg: Config)
    requires Guarded(m.backend, user, unlisted, c.e.now, cfg.expiration) && !c.e.Create?
    ensures var b' := Step(m, c, cfg).0.backend;
      && Guarded(b', user, unlisted, c.e.now, cfg.expiration)
      && Tame(SessionsOf(m.backend), SessionsOf(b'), c.e.now)
      && (b'.Redis? <==> m.backend.Redis?)
  {
    var b := m.backend;
    match c.e
    case Validate(id, update, now) => ValidatedGuarded(b, id, update, user, unlisted, now, cfg);
    case Terminate(id, now) => TerminatedGuarded(b, id, user, unlisted, now, cfg);
    case Cleanup(now) => CleanedGuarded(b, c.listed, user, unlisted, now, cfg);
  }

  /** What the index lists is then complete. */
  lemma {:induction false} ListingComplete(b: Backend, user: int, unlisted: set<string>, now: int, exp: int,
        ids: seq<string>)
    requires Guarded(b, user, unlisted, now, exp) && MayList(b, user, now, ids)
    ensures Complete(b, user, unlisted, now, ids)
  {
    match b
    case Redis(r) =>
      forall id | id in RedisStorage.Members(r, user, now) ensures id in ids {
        assert id in Elements(ids);
      }
    case Memcached(m) =>
  }

  lemma {:induction false} TameActive(es: Entries, es': Entries, user: int, now: int)
    requires Tame(es, es', now)
    ensures ActiveOf(es', user, now) <= ActiveOf(es, user, now)
  {
  }

  lemma {:induction false} TameComplete(b: Backend, b': Backend, user: int, unlisted: set<string>, now: int,
        ids: seq<string>)
    requires Tame(SessionsOf(b), SessionsOf(b'), now) && Complete(b, user, unlisted, now, ids)
    ensures Complete(b', user, unlisted, now, ids)
  {
  }

  /** A new session, whether it is on the index or to be listed later. */
  lemma {:induction false} StoredGuarded(b: Backend, s: SessionData, user: int, unlisted: set<string>, now: int,
        exp: int)
    requires Guarded(b, user, unlisted, now, exp) && s.sessionId !in SessionsOf(b)
    ensures var b' := StoredBy(b, s, now, exp);
      var more := if b.Memcached? && s.userId == user then {s.sessionId} else {};
      && Guarded(b', user, unlisted + more, now, exp)
      && SessionsOf(b') == SessionsOf(b)[s.sessionId := Entry(s, now + exp)]
      && ActiveOf(SessionsOf(b'), user, now)
         <= ActiveOf(SessionsOf(b), user, now) + if s.userId == user then {s.sessionId} else {}
  {
  }

  /** Writing back a list that names all sessions but those in `missing` leaves only these off the index. */
  lemma {:induction false} RewritingGuarded(b: Backend, owner: int, ids: seq<string>, user: int, unlisted: set<string>,
        missing: set<string>, now: int, exp: int)
    requires Guarded(b, user, unlisted, now, exp) && b.Memcached?
    requires if owner == user then Complete(b, user, missing, now, ids) else missing == unlisted
    ensures Guarded(Rewriting(b, owner, ids, now, exp), user, missing, now, exp)
  {
    var es, b' := SessionsOf(b), Rewriting(b, owner, ids, now, exp);
    assert SessionsOf(b') == es;
    forall id | Owned(es, user, id, now) && id !in missing ensures OnIndex(b', user, id, es[id].deadline) {
      if owner == user {
        assert id in ids;
      } else {
        assert OnIndex(b, user, id, es[id].deadline);
      }
    }
  }

  // ------------------------------------------------------------- what readings of the index account for

  /**
   A reading of the index by `owner`: what of it the owner may yet leave active, the sessions stored
   outside it, and the creates of that time that have still to store.
   */
  datatype Reading = Reading(owner: int, left: set<string>, since: set<string>, waiting: set<int>)

  /** What a create has read and neither kept nor ended. */
  function Remaining(s: Stage): set<string> {
    match s
    case Fetching(rest, found, _) => Elements(rest) + Elements(found)
    case Ending(victims) => Elements(victims)
    case _ => {}
  }

  predicate IsReading(s: Stage) {
    s.Fetching? || (s.Ending? && s.victims != [])
  }

  /** The create is among those that every reading from the one at `q` on waits for. */
  ghost predicate Awaited(l: seq<Reading>, c: int, q: int) {
    forall p | q <= p < |l| && 0 <= p :: c in l[p].waiting
  }

  ghost predicate OwnReading(l: seq<Reading>, c: int, q: int) {
    0 < q < |l| && l[q].owner == c && Awaited(l, c, q)
  }

  /** A reading that is still being worked off covers all active sessions. */
  ghost predicate Pursued(r: Reading, creates: map<int, Creating>, active: set<string>, user: int, cap: int) {
    && r.owner in creates && creates[r.owner].user == user && IsReading(creates[r.owner].stage)
    && active <= r.left + Remaining(creates[r.owner].stage) + r.since
    && (creates[r.owner].stage.Fetching? ==> r.left == {})
    && |r.left| <= cap - 1
  }

  /** The create has its own reading among the later ones, or is older than all of them. */
  ghost predicate InLine(l: seq<Reading>, c: int, s: Stage) {
    Awaited(l, c, 0) || (s != Ending([]) && exists q :: OwnReading(l, c, q))
  }

  /** The first reading is the latest of those worked off; the later ones are under way, in their order. */
  ghost predicate Booked(l: seq<Reading>, creates: map<int, Creating>, active: set<string>, user: int, k: nat,
        cap: int) {
    && l != []
    && (forall p | 0 <= p < |l| :: |l[p].since| + |l[p].waiting| <= k)
    && Covering(l, creates, active, user, cap)
    && Queued(l, creates, user)
  }

  ghost predicate Covering(l: seq<Reading>, creates: map<int, Creating>, active: set<string>, user: int, cap: int)
    requires l != []
  {
    && |l[0].left| <= cap - 1 && active <= l[0].left + l[0].since
    && (forall p | 0 < p < |l| :: Pursued(l[p], creates, active, user, cap))
    && (forall p, q | 0 < p < q < |l| :: l[p].owner != l[q].owner)
  }

  ghost predicate Queued(l: seq<Reading>, creates: map<int, Creating>, user: int) {
    forall c | c in creates && creates[c].user == user && (creates[c].stage.Fetching? || creates[c].stage.Ending?) ::
      InLine(l, c, creates[c].stage)
  }

  /** The bound, read off the first entry. */
  lemma {:induction false} BookedBound(l: seq<Reading>, creates: map<int, Creating>, active: set<string>,
        user: int, k: nat, cap: int,
        pending: set<int>)
    requires Booked(l, creates, active, user, k, cap)
    requires forall c | c in pending :: c in creates && creates[c].user == user && creates[c].stage == Ending([])
    ensures |active| + |pending| <= cap - 1 + k
  {
    forall c | c in pending ensures c in l[0].waiting {
      assert InLine(l, c, creates[c].stage);
    }
    FullSubset(pending, l[0].waiting);
    FullSubset(active, l[0].left + l[0].since);
    UnionSize(l[0].left, l[0].since);
  }

  lemma {:induction false} UnionSize<T>(a: set<T>, b: set<T>)
    ensures |a + b| <= |a| + |b|
  {
    assert a + b == a + (b - a);
    FullSubset(b - a, b);
  }

  /** Fewer active sessions, and creates that change only where no reading looks. */
  lemma {:induction false} BookedQuiet(l: seq<Reading>, creates: map<int, Creating>, active: set<string>,
        creates': map<int, Creating>, active': set<string>, user: int, k: nat, cap: int)
    requires Booked(l, creates, active, user, k, cap) && active' <= active
    requires forall c | c in creates && creates[c].user == user && IsReading(creates[c].stage) ::
      c in creates' && creates'[c] == creates[c]
    requires forall c
      | c in creates' && creates'[c].user == user && (creates'[c].stage.Fetching? || creates'[c].stage.Ending?) ::
      c in creates && creates[c] == creates'[c]
    ensures Booked(l, creates', active', user, k, cap)
  {
    forall p | 0 < p < |l| ensures Pursued(l[p], creates', active', user, cap) {
      assert Pursued(l[p], creates, active, user, cap);
    }
  }

  /** A create reads the index: everything active is listed or stored by a create still under way. */
  lemma {:induction false} BookedRead(l: seq<Reading>, creates: map<int, Creating>, active: set<string>, user: int,
        k: nat, cap: int,
        c: int, listed: seq<string>, creates': map<int, Creating>) returns (l': seq<Reading>)
    requires Booked(l, creates, active, user, k, cap) && cap >= 1
    requires c in creates && creates[c].user == user && creates[c].stage == Begun
    requires creates' == creates[c := creates[c].(stage := Fetching(listed, [], map[]))]
    requires active <= Elements(listed) + Unlisted(creates, user)
    requires |Unlisted(creates, user)| + |Unset(creates, user)| <= k
    ensures Booked(l', creates', active, user, k, cap)
  {
    var r := Reading(c, {}, Unlisted(creates, user), Unset(creates, user));
    l' := l + [r];
    forall p | 0 < p < |l'| ensures Pursued(l'[p], creates', active, user, cap) {
      if p < |l| {
        PursuedElsewhere(l[p], creates, active, user, cap, c, creates'[c]);
      }
    }
    forall d | d in creates' && creates'[d].user == user && (creates'[d].stage.Fetching? || creates'[d].stage.Ending?)
      ensures InLine(l', d, creates'[d].stage)
    {
      if d == c {
        assert OwnReading(l', c, |l|);
      } else {
        InLineLater(l, r, d, creates[d].stage);
      }
    }
  }

  lemma {:induction false} PursuedElsewhere(r: Reading, creates: map<int, Creating>, active: set<string>,
        user: int, cap: int,
        c: int, x: Creating)
    requires Pursued(r, creates, active, user, cap) && c in creates && !IsReading(creates[c].stage)
    ensures Pursued(r, creates[c := x], active, user, cap) && r.owner != c
  {
  }

  lemma {:induction false} InLineLater(l: seq<Reading>, r: Reading, c: int, s: Stage)
    requires InLine(l, c, s) && c in r.waiting
    ensures InLine(l + [r], c, s)
  {
    if Awaited(l, c, 0) {
      assert Awaited(l + [r], c, 0);
    } else {
      var q :| OwnReading(l, c, q);
      assert OwnReading(l + [r], c, q);
    }
  }

  /** Two lists of readings by the same owners that wait for the same creates. */
  ghost predicate SameWaits(l: seq<Reading>, l': seq<Reading>) {
    |l'| == |l| && forall p | 0 <= p < |l| :: l'[p].owner == l[p].owner && l'[p].waiting == l[p].waiting
  }

  lemma {:induction false} InLineSame(l: seq<Reading>, l': seq<Reading>, c: int, s: Stage, s': Stage)
    requires InLine(l, c, s) && SameWaits(l, l') && (s' == Ending([]) ==> s == Ending([]))
    ensures InLine(l', c, s')
  {
    if Awaited(l, c, 0) {
      assert Awaited(l', c, 0);
    } else {
      var q :| OwnReading(l, c, q);
      assert OwnReading(l', c, q);
    }
  }

  /** The step of a create's reading from the stage `s` to `s'`, which settles on keeping `gain`. */
  ghost predicate Progress(s: Stage, s': Stage, gain: set<string>, active: set<string>, cap: int) {
    && IsReading(s) && (s'.Fetching? || s'.Ending?)
    && (forall x | x in active && x in Remaining(s) :: x in gain + Remaining(s'))
    && |gain| <= cap - 1 && (s.Ending? || s'.Fetching? ==> gain == {}) && (s.Ending? ==> s'.Ending?)
  }

  /** What the owner of a reading may leave after that step. */
  function Settled(r: Reading, s: Stage, gain: set<string>): Reading {
    if s.Fetching? then r.(left := gain) else r
  }

  lemma {:induction false} PursuedOn(r: Reading, creates: map<int, Creating>, active: set<string>, user: int, cap: int,
        c: int, s': Stage, gain: set<string>, creates': map<int, Creating>, active': set<string>)
    requires Pursued(r, creates, active, user, cap) && active' <= active
    requires c in creates && IsReading(s') && Progress(creates[c].stage, s', gain, active', cap)
    requires creates' == creates[c := creates[c].(stage := s')]
    ensures var r' := if r.owner == c then Settled(r, creates[c].stage, gain) else r;
      Pursued(r', creates', active', user, cap)
  {
  }

  /** A create goes on with its reading and is not through yet. */
  lemma {:induction false} BookedOn(l: seq<Reading>, creates: map<int, Creating>, active: set<string>, user: int,
        k: nat, cap: int,
        c: int, s': Stage, gain: set<string>, creates': map<int, Creating>, active': set<string>)
          returns (l': seq<Reading>)
    requires Booked(l, creates, active, user, k, cap) && active' <= active
    requires c in creates && creates[c].user == user && IsReading(s')
    requires Progress(creates[c].stage, s', gain, active', cap)
    requires creates' == creates[c := creates[c].(stage := s')]
    ensures Booked(l', creates', active', user, k, cap)
  {
    l' := SettledAll(l, c, creates[c].stage, gain);
    CoveringOn(l, creates, active, user, cap, c, s', gain, creates', active');
    QueuedOn(l, creates, user, c, s', gain);
  }

  function SettledAll(l: seq<Reading>, c: int, s: Stage, gain: set<string>): seq<Reading> {
    seq(|l|, p requires 0 <= p < |l| => if p > 0 && l[p].owner == c then Settled(l[p], s, gain) else l[p])
  }

  lemma {:induction false} CoveringOn(l: seq<Reading>, creates: map<int, Creating>, active: set<string>, user: int,
        cap: int, c: int, s': Stage, gain: set<string>, creates': map<int, Creating>, active': set<string>)
    requires l != [] && Covering(l, creates, active, user, cap) && active' <= active
    requires c in creates && IsReading(s') && Progress(creates[c].stage, s', gain, active', cap)
    requires creates' == creates[c := creates[c].(stage := s')]
    ensures Covering(SettledAll(l, c, creates[c].stage, gain), creates', active', user, cap)
  {
    var l' := SettledAll(l, c, creates[c].stage, gain);
    forall p | 0 < p < |l| ensures Pursued(l'[p], creates', active', user, cap) {
      assert Pursued(l[p], creates, active, user, cap);
      PursuedOn(l[p], creates, active, user, cap, c, s', gain, creates', active');
    }
  }

  lemma {:induction false} QueuedOn(l: seq<Reading>, creates: map<int, Creating>, user: int, c: int, s': Stage,
        gain: set<string>)
    requires Queued(l, creates, user) && c in creates && IsReading(s') && IsReading(creates[c].stage)
    ensures Queued(SettledAll(l, c, creates[c].stage, gain), creates[c := creates[c].(stage := s')], user)
  {
    var l', creates' := SettledAll(l, c, creates[c].stage, gain), creates[c := creates[c].(stage := s')];
    forall d | d in creates' && creates'[d].user == user && (creates'[d].stage.Fetching? || creates'[d].stage.Ending?)
      ensures InLine(l', d, creates'[d].stage)
    {
      InLineSame(l, l', d, creates[d].stage, creates'[d].stage);
    }
  }

  lemma {:induction false} AwaitedFromOwn(l: seq<Reading>, c: int, s: Stage, q: int)
    requires InLine(l, c, s) && 0 < q < |l| && l[q].owner == c
    requires forall p, q | 0 < p < q < |l| :: l[p].owner != l[q].owner
    ensures Awaited(l, c, q)
  {
    if !Awaited(l, c, 0) {
      var q' :| OwnReading(l, c, q');
      assert q' == q;
    }
  }

  lemma {:induction false} InLineCut(l: seq<Reading>, l': seq<Reading>, c: int, s: Stage, q: int)
    requires InLine(l, c, s) && 0 < q < |l| && SameWaits(l[q..], l')
    ensures InLine(l', c, s)
  {
    if own :| OwnReading(l, c, own) && own > q {
      forall p | own - q <= p < |l'| && 0 <= p ensures c in l'[p].waiting {
        assert l[q..][p] == l[q + p];
      }
      assert l[q..][own - q] == l[own];
      assert OwnReading(l', c, own - q);
      if Awaited(l, c, 0) {
        AwaitedCut(l, l', c, 0, q);
      }
    } else if Awaited(l, c, 0) {
      AwaitedCut(l, l', c, 0, q);
    } else {
      var own :| OwnReading(l, c, own);
      AwaitedCut(l, l', c, own, q);
    }
  }

  lemma {:induction false} AwaitedCut(l: seq<Reading>, l': seq<Reading>, c: int, from: int, q: int)
    requires Awaited(l, c, from) && from <= q && 0 < q < |l| && SameWaits(l[q..], l')
    ensures Awaited(l', c, 0)
  {
    forall p | 0 <= p < |l'| ensures c in l'[p].waiting {
      assert l[q..][p] == l[q + p];
    }
  }

  /** A create is through: its reading, if it is a later one, becomes the first. */
  lemma {:induction false} BookedThrough(l: seq<Reading>, creates: map<int, Creating>, active: set<string>,
        user: int, k: nat, cap: int,
        c: int, gain: set<string>, creates': map<int, Creating>, active': set<string>) returns (l': seq<Reading>)
    requires Booked(l, creates, active, user, k, cap) && active' <= active
    requires c in creates && creates[c].user == user
    requires Progress(creates[c].stage, Ending([]), gain, active', cap)
    requires creates' == creates[c := creates[c].(stage := Ending([]))]
    ensures Booked(l', creates', active', user, k, cap)
  {
    assert InLine(l, c, creates[c].stage);
    if q :| 0 < q < |l| && l[q].owner == c {
      l' := CutAt(l, creates, active, user, k, cap, c, gain, creates', active', q);
    } else {
      l' := l;
      forall p | 0 < p < |l| ensures Pursued(l[p], creates', active', user, cap) {
        assert Pursued(l[p], creates, active, user, cap);
      }
      assert Awaited(l, c, 0);
    }
  }

  lemma {:induction false} CutAt(l: seq<Reading>, creates: map<int, Creating>, active: set<string>, user: int,
        k: nat, cap: int,
        c: int, gain: set<string>, creates': map<int, Creating>, active': set<string>, q: int)
          returns (l': seq<Reading>)
    requires Booked(l, creates, active, user, k, cap) && active' <= active
    requires c in creates && creates[c].user == user && 0 < q < |l| && l[q].owner == c
    requires Progress(creates[c].stage, Ending([]), gain, active', cap)
    requires creates' == creates[c := creates[c].(stage := Ending([]))]
    ensures Booked(l', creates', active', user, k, cap)
  {
    l' := l[q..][0 := Settled(l[q], creates[c].stage, gain)];
    assert SameWaits(l[q..], l');
    assert Pursued(l[q], creates, active, user, cap);
    forall p | 0 < p < |l'| ensures Pursued(l'[p], creates', active', user, cap) && l'[p] == l[q + p] {
      assert Pursued(l[q + p], creates, active, user, cap);
      assert l[q + p].owner != l[q].owner;
    }
    AwaitedFromOwn(l, c, creates[c].stage, q);
    AwaitedCut(l, l', c, q, q);
    forall d | d in creates' && creates'[d].user == user && (creates'[d].stage.Fetching? || creates'[d].stage.Ending?)
      ensures InLine(l', d, creates'[d].stage)
    {
      if d != c {
        InLineCut(l, l', d, creates[d].stage, q);
      }
    }
  }

  /** A create stores: every reading waited for it, and now has its session instead. */
  lemma {:induction false} BookedStore(l: seq<Reading>, creates: map<int, Creating>, active: set<string>,
        user: int, k: nat, cap: int,
        c: int, id: string, creates': map<int, Creating>, active': set<string>) returns (l': seq<Reading>)
    requires Booked(l, creates, active, user, k, cap) && active' <= active + {id}
    requires c in creates && creates[c].user == user && creates[c].stage == Ending([])
    requires creates' == creates - {c} || creates' == creates[c := creates[c].(stage := Placed(id))]
    ensures Booked(l', creates', active', user, k, cap)
  {
    l' := seq(|l|, p requires 0 <= p < |l| => l[p].(since := l[p].since + {id}, waiting := l[p].waiting - {c}));
    assert InLine(l, c, creates[c].stage);
    forall p | 0 <= p < |l'| ensures |l'[p].since| + |l'[p].waiting| <= k {
      assert c in l[p].waiting;
    }
    forall p | 0 < p < |l'| ensures Pursued(l'[p], creates', active', user, cap) {
      assert Pursued(l[p], creates, active, user, cap);
    }
    forall d | d in creates' && creates'[d].user == user && (creates'[d].stage.Fetching? || creates'[d].stage.Ending?)
      ensures InLine(l', d, creates'[d].stage)
    {
      InLineElsewhere(l, l', d, creates[d].stage, c);
    }
  }

  lemma {:induction false} InLineElsewhere(l: seq<Reading>, l': seq<Reading>, d: int, s: Stage, c: int)
    requires InLine(l, d, s) && d != c && |l'| == |l|
    requires forall p | 0 <= p < |l| :: l'[p].owner == l[p].owner && l'[p].waiting == l[p].waiting - {c}
    ensures InLine(l', d, s)
  {
    if Awaited(l, d, 0) {
      assert Awaited(l', d, 0);
    } else {
      var q :| OwnReading(l, d, q);
      assert OwnReading(l', d, q);
    }
  }

  // ------------------------------------------------------------- one step

  ghost predicate OpenComplete(f: Flight, user: int) {
    var b, unlisted := f.m.backend, Unlisted(f.creates, user);
    && (forall c | c in OpenCreates(f, user) :: Complete(b, user, unlisted, f.clock, f.creates[c].stage.ids))
    && (forall c | c in OpenTouches(f, user) :: Complete(b, user, unlisted, f.clock, f.touches[c].ids))
  }

  /** The index, and every list read from it and still to be written back, miss only sessions that are being listed. */
  ghost predicate Sound(f: Flight, user: int, cfg: Config) {
    && Guarded(f.m.backend, user, Unlisted(f.creates, user), f.clock, cfg.expiration)
    && SessionsOf(f.m.backend).Keys <= f.used
    && OpenComplete(f, user)
    && (f.m.backend.Redis? ==> OpenCreates(f, user) == {} && OpenTouches(f, user) == {})
  }

  ghost predicate OneOpen(f: Flight, user: int) {
    |OpenCreates(f, user)| + |OpenTouches(f, user)| <= 1
  }

  lemma {:induction false} SoundLater(f: Flight, user: int, cfg: Config, later: int)
    requires Sound(f, user, cfg) && f.clock <= later
    ensures Sound(f.(clock := later), user, cfg)
    ensures ActiveNow(f.(clock := later), user) <= ActiveNow(f, user)
  {
    var g := f.(clock := later);
    assert OpenCreates(g, user) == OpenCreates(f, user) && OpenTouches(g, user) == OpenTouches(f, user);
  }

  /** Steps of creates that leave what is stored and listed alone. */
  lemma {:induction false} StageSound(f: Flight, user: int, cfg: Config, c: int, x: Creating)
    requires Sound(f, user, cfg) && IsUnset(x.stage)
    requires c in f.creates ==> IsUnset(f.creates[c].stage)
    ensures Sound(f.(creates := f.creates[c := x]), user, cfg)
  {
    var g := f.(creates := f.creates[c := x]);
    assert SetOnly(g.creates, user) == SetOnly(f.creates, user);
    assert Unlisted(g.creates, user) == Unlisted(f.creates, user);
    assert OpenCreates(g, user) == OpenCreates(f, user) && OpenTouches(g, user) == OpenTouches(f, user);
  }

  /** Calls that only touch or end sessions. */
  lemma {:induction false} TameSound(f: Flight, user: int, cfg: Config, b: Backend)
    requires Sound(f, user, cfg) && Tame(SessionsOf(f.m.backend), SessionsOf(b), f.clock)
    requires b.Redis? <==> f.m.backend.Redis?
    requires Guarded(b, user, Unlisted(f.creates, user), f.clock, cfg.expiration)
    ensures Sound(WithBackend(f, b), user, cfg)
  {
    var g := WithBackend(f, b);
    assert OpenCreates(g, user) == OpenCreates(f, user) && OpenTouches(g, user) == OpenTouches(f, user);
  }

  lemma {:induction false} UnlistedStored(creates: map<int, Creating>, user: int, c: int, id: string)
    requires c in creates && IsUnset(creates[c].stage)
    ensures Unlisted(creates - {c}, user) == Unlisted(creates, user)
    ensures Unlisted(creates[c := creates[c].(stage := Placed(id))], user)
         == Unlisted(creates, user) + if creates[c].user == user then {id} else {}
  {
    assert SetOnly(creates - {c}, user) == SetOnly(creates, user);
    var creates' := creates[c := creates[c].(stage := Placed(id))];
    assert SetOnly(creates', user) == SetOnly(creates, user) + if creates[c].user == user then {c} else {};
    forall x | x in Unlisted(creates, user) ensures x in Unlisted(creates', user) {
      var d :| d in SetOnly(creates, user) && IdOf(creates[d].stage) == x;
      assert d in SetOnly(creates', user) && IdOf(creates'[d].stage) == x;
    }
    if creates[c].user == user {
      assert c in SetOnly(creates', user) && IdOf(creates'[c].stage) == id;
    }
  }

  lemma {:induction false} StoreSound(f: Flight, v: Move, user: int, cfg: Config)
    requires Sound(f, user, cfg) && v.Store? && Fits(f, v) && f.clock == v.now
    ensures Sound(Moved(f, v, cfg), user, cfg)
    ensures ActiveNow(Moved(f, v, cfg), user) <= ActiveNow(f, user) + if f.creates[v.c].user == user then {v.id} else {}
  {
    var b, x, g := f.m.backend, f.creates[v.c], Moved(f, v, cfg);
    var s := NewSession(v.id, x.user, v.origin, v.metadata, v.now).(lastActivity := x.started);
    UnlistedStored(f.creates, user, v.c, v.id);
    StoredGuarded(b, s, user, Unlisted(f.creates, user), v.now, cfg.expiration);
    assert OpenCreates(g, user) == OpenCreates(f, user) && OpenTouches(g, user) == OpenTouches(f, user);
  }

  lemma {:induction false} UnlistedSame(creates: map<int, Creating>, user: int, c: int, ids: seq<string>)
    requires c in creates && creates[c].stage.Placed?
    ensures Unlisted(creates[c := creates[c].(stage := Listing(creates[c].stage.id, ids))], user)
        == Unlisted(creates, user)
  {
    var creates' := creates[c := creates[c].(stage := Listing(creates[c].stage.id, ids))];
    assert SetOnly(creates', user) == SetOnly(creates, user);
    forall d | d in SetOnly(creates, user) ensures IdOf(creates'[d].stage) == IdOf(creates[d].stage) {
    }
  }

  lemma {:induction false} ReadListSound(f: Flight, v: Move, user: int, cfg: Config)
    requires Sound(f, user, cfg) && v.ReadList? && Fits(f, v) && f.clock == v.now
    ensures Sound(Moved(f, v, cfg), user, cfg)
  {
    var g, x := Moved(f, v, cfg), f.creates[v.c];
    var ids := MemcachedStorage.Listed(f.m.backend.memcached, x.user, v.now);
    UnlistedSame(f.creates, user, v.c, ids);
    if x.user == user {
      ListingComplete(f.m.backend, user, Unlisted(f.creates, user), v.now, cfg.expiration, ids);
    }
    assert OpenCreates(g, user) == OpenCreates(f, user) + if x.user == user then {v.c} else {};
    assert OpenTouches(g, user) == OpenTouches(f, user);
  }

  lemma {:induction false} UnlistedWritten(creates: map<int, Creating>, user: int, c: int)
    requires c in creates && creates[c].stage.Listing?
    ensures Unlisted(creates, user)
         <= Unlisted(creates - {c}, user) + if creates[c].user == user then {creates[c].stage.id} else {}
    ensures creates[c].user != user ==> Unlisted(creates - {c}, user) == Unlisted(creates, user)
  {
    forall x | x in Unlisted(creates, user)
      ensures x in Unlisted(creates - {c}, user) || (creates[c].user == user && x == creates[c].stage.id)
    {
      var d :| d in SetOnly(creates, user) && IdOf(creates[d].stage) == x;
      assert d != c ==> d in SetOnly(creates - {c}, user) && IdOf((creates - {c})[d].stage) == x;
    }
    forall x | x in Unlisted(creates - {c}, user) ensures x in Unlisted(creates, user) {
      var d :| d in SetOnly(creates - {c}, user) && IdOf((creates - {c})[d].stage) == x;
      assert d in SetOnly(creates, user) && IdOf(creates[d].stage) == x;
    }
  }

  lemma {:induction false} WriteListSound(f: Flight, v: Move, user: int, cfg: Config)
    requires Sound(f, user, cfg) && v.WriteList? && Fits(f, v) && f.clock == v.now && OneOpen(f, user)
    ensures Sound(Moved(f, v, cfg), user, cfg)
  {
    var b, g, x := f.m.backend, Moved(f, v, cfg), f.creates[v.c];
    var missing := Unlisted(g.creates, user);
    UnlistedWritten(f.creates, user, v.c);
    if x.user == user {
      assert v.c in OpenCreates(f, user);
      NoOthers(OpenCreates(f, user), OpenTouches(f, user), v.c);
      assert Complete(b, user, missing, v.now, MemcachedStorage.WithId(x.stage.ids, x.stage.id));
    }
    RewritingGuarded(b, x.user, MemcachedStorage.WithId(x.stage.ids, x.stage.id), user, Unlisted(f.creates, user),
      missing,
      v.now, cfg.expiration);
    assert OpenCreates(g, user) == OpenCreates(f, user) - {v.c} && OpenTouches(g, user) == OpenTouches(f, user);
  }

  lemma {:induction false} NoOthers(a: set<int>, b: set<int>, c: int)
    requires |a| + |b| <= 1 && c in a
    ensures a == {c} && b == {}
  {
    assert |a - {c}| == |a| - 1;
    assert a == (a - {c}) + {c};
  }

  lemma {:induction false} TouchReadSound(f: Flight, v: Move, user: int, cfg: Config)
    requires Sound(f, user, cfg) && v.TouchRead? && Fits(f, v) && f.clock == v.now
    ensures Sound(Moved(f, v, cfg), user, cfg)
  {
    var g := Moved(f, v, cfg);
    if v.user == user {
      ListingComplete(f.m.backend, user, Unlisted(f.creates, user), v.now, cfg.expiration, g.touches[v.c].ids);
    }
    assert OpenCreates(g, user) == OpenCreates(f, user);
    assert OpenTouches(g, user) == OpenTouches(f, user) + if v.user == user then {v.c} else {};
  }

  lemma {:induction false} TouchWriteSound(f: Flight, v: Move, user: int, cfg: Config)
    requires Sound(f, user, cfg) && v.TouchWrite? && Fits(f, v) && f.clock == v.now && OneOpen(f, user)
    ensures Sound(Moved(f, v, cfg), user, cfg)
  {
    var g, x, unlisted := Moved(f, v, cfg), f.touches[v.c], Unlisted(f.creates, user);
    if x.user == user {
      assert v.c in OpenTouches(f, user);
      NoOthers(OpenTouches(f, user), OpenCreates(f, user), v.c);
    }
    RewritingGuarded(f.m.backend, x.user, x.ids, user, unlisted, unlisted, v.now, cfg.expiration);
    assert OpenCreates(g, user) == OpenCreates(f, user) && OpenTouches(g, user) == OpenTouches(f, user) - {v.c};
  }

  /** The state is sound and its readings of the index account for every active session. */
  ghost predicate Bounded(f: Flight, user: int, k: nat, cfg: Config) {
    Sound(f, user, cfg) && exists l :: Accounts(l, f, user, k, cfg)
  }

  ghost predicate Accounts(l: seq<Reading>, f: Flight, user: int, k: nat, cfg: Config) {
    Booked(l, f.creates, ActiveNow(f, user), user, k, SessionCap.Cap(cfg.maxSessions))
  }

  lemma {:induction false} UnlistedSize(creates: map<int, Creating>, user: int)
    ensures |Unlisted(creates, user)| <= |SetOnly(creates, user)|
  {
    ImageSize(creates, SetOnly(creates, user), Unlisted(creates, user));
  }

  lemma {:induction false} ImageSize(creates: map<int, Creating>, cs: set<int>, ids: set<string>)
    requires cs <= creates.Keys && ids == set c | c in cs :: IdOf(creates[c].stage)
    ensures |ids| <= |cs|
    decreases |cs|
  {
    if c :| c in cs {
      var rest := set d | d in cs - {c} :: IdOf(creates[d].stage);
      ImageSize(creates, cs - {c}, rest);
      assert ids == rest + {IdOf(creates[c].stage)};
    } else {
      assert ids == {};
    }
  }

  lemma {:induction false} FlightSplits(f: Flight, user: int)
    ensures |Unlisted(f.creates, user)| + |Unset(f.creates, user)| <= |InFlight(f, user)|
  {
    UnlistedSize(f.creates, user);
    assert InFlight(f, user) == Unset(f.creates, user) + SetOnly(f.creates, user);
    assert Unset(f.creates, user) !! SetOnly(f.creates, user);
  }

  lemma {:induction false} ReadAccounts(f: Flight, v: Move, l: seq<Reading>, user: int, k: nat, cfg: Config)
    returns (l': seq<Reading>)
    requires v.ReadIndex? && Enabled(f, v) && f.clock == v.now && Sound(f, user, cfg)
    requires Accounts(l, f, user, k, cfg) && |InFlight(f, user)| <= k
    ensures Accounts(l', Moved(f, v, cfg), user, k, cfg)
  {
    var g, unlisted := Moved(f, v, cfg), Unlisted(f.creates, user);
    if f.creates[v.c].user == user {
      ListingComplete(f.m.backend, user, unlisted, v.now, cfg.expiration, v.listed);
      FlightSplits(f, user);
      l' := BookedRead(l, f.creates, ActiveNow(f, user), user, k, SessionCap.Cap(cfg.maxSessions), v.c, v.listed,
        g.creates);
    } else {
      l' := l;
      BookedQuiet(l, f.creates, ActiveNow(f, user), g.creates, ActiveNow(g, user), user, k,
        SessionCap.Cap(cfg.maxSessions));
    }
  }

  /** A create of the user takes a step of its reading. */
  lemma {:induction false} ProgressAccounts(f: Flight, g: Flight, c: int, s': Stage, gain: set<string>, l: seq<Reading>,
        user: int, k: nat, cfg: Config) returns (l': seq<Reading>)
    requires Accounts(l, f, user, k, cfg) && ActiveNow(g, user) <= ActiveNow(f, user)
    requires c in f.creates && g.creates == f.creates[c := f.creates[c].(stage := s')]
    requires f.creates[c].user == user ==>
      Progress(f.creates[c].stage, s', gain, ActiveNow(g, user), SessionCap.Cap(cfg.maxSessions))
    ensures Accounts(l', g, user, k, cfg)
  {
    var cap := SessionCap.Cap(cfg.maxSessions);
    if f.creates[c].user != user {
      l' := l;
      BookedQuiet(l, f.creates, ActiveNow(f, user), g.creates, ActiveNow(g, user), user, k, cap);
    } else if IsReading(s') {
      l' := BookedOn(l, f.creates, ActiveNow(f, user), user, k, cap, c, s', gain, g.creates, ActiveNow(g, user));
    } else {
      assert s' == Ending([]);
      l' := BookedThrough(l, f.creates, ActiveNow(f, user), user, k, cap, c, gain, g.creates, ActiveNow(g, user));
    }
  }

  lemma {:induction false} FetchProgress(es: Entries, s: Stage, user: int, now: int, cap: int)
    requires s.Fetching? && s.rest != [] && cap >= 1
    ensures Progress(s, FetchedNext(es, s, now), {}, ActiveOf(es, user, now), cap)
  {
    var s' := FetchedNext(es, s, now);
    assert s.rest == [s.rest[0]] + s.rest[1..];
    forall x | x in ActiveOf(es, user, now) && x in Remaining(s) ensures x in Remaining(s') {
      if x == s.rest[0] {
        assert x in s'.found;
      }
    }
  }

  /** Deciding keeps less than the cap. */
  lemma {:induction false} DecideProgress(s: Stage, active: set<string>, max: int) returns (gain: set<string>)
    requires s.Fetching? && s.rest == []
    ensures Progress(s, Decided(s, max), gain, active, SessionCap.Cap(max))
  {
    gain := {};
    if Covers(s.lastUsed, s.found) {
      gain := Youngest(s.found, s.lastUsed, max);
    }
  }

  /** What the limit leaves of the sessions found is less than the cap. */
  lemma {:induction false} Youngest(ids: seq<string>, activity: map<string, int>, max: int) returns (kept: set<string>)
    requires Covers(activity, ids)
    ensures |kept| <= SessionCap.Cap(max) - 1
    ensures forall x | x in ids :: x in kept || x in Oldest(ids, activity, max)
  {
    var sorted, n := Sort(ids, activity), VictimCount(|ids|, max);
    SortMembers(ids, activity);
    kept := Elements(sorted[n..]);
    ElementsSize(sorted[n..]);
    assert sorted == sorted[..n] + sorted[n..];
  }

  lemma {:induction false} ElementsSize<T>(s: seq<T>)
    ensures |Elements(s)| <= |s|
  {
    if s != [] {
      ElementsSize(s[..|s| - 1]);
      ElementsSplit(s);
    }
  }

  lemma {:induction false} EndProgress(s: Stage, active: set<string>, cap: int)
    requires s.Ending? && s.victims != [] && s.victims[0] !in active && cap >= 1
    ensures Progress(s, Ending(s.victims[1..]), {}, active, cap)
  {
    assert s.victims == [s.victims[0]] + s.victims[1..];
  }

  lemma {:induction false} StoreAccounts(f: Flight, v: Move, l: seq<Reading>, user: int, k: nat, cfg: Config)
    returns (l': seq<Reading>)
    requires v.Store? && Fits(f, v) && f.clock == v.now && Sound(f, user, cfg) && Accounts(l, f, user, k, cfg)
    ensures Accounts(l', Moved(f, v, cfg), user, k, cfg)
  {
    var g, cap := Moved(f, v, cfg), SessionCap.Cap(cfg.maxSessions);
    StoreSound(f, v, user, cfg);
    if f.creates[v.c].user == user {
      l' := BookedStore(l, f.creates, ActiveNow(f, user), user, k, cap, v.c, v.id, g.creates, ActiveNow(g, user));
    } else {
      l' := l;
      BookedQuiet(l, f.creates, ActiveNow(f, user), g.creates, ActiveNow(g, user), user, k, cap);
    }
  }

  /** Steps that only put sessions on the list, or have nothing to do with creates. */
  lemma {:induction false} QuietAccounts(f: Flight, v: Move, l: seq<Reading>, user: int, k: nat, cfg: Config)
    requires Fits(f, v) && f.clock == TimeOf(v) && Sound(f, user, cfg) && Accounts(l, f, user, k, cfg)
    requires v.Begin? || v.ReadList? || v.WriteList? || v.TouchRead? || v.TouchWrite? || v.Other?
    ensures Accounts(l, Moved(f, v, cfg), user, k, cfg)
  {
    var g := Moved(f, v, cfg);
    if v.Other? {
      OtherGuarded(f.m, v.call, user, Unlisted(f.creates, user), cfg);
      TameActive(SessionsOf(f.m.backend), SessionsOf(g.m.backend), user, f.clock);
    }
    BookedQuiet(l, f.creates, ActiveNow(f, user), g.creates, ActiveNow(g, user), user, k,
      SessionCap.Cap(cfg.maxSessions));
  }

  lemma {:induction false} MoveAccounts(f: Flight, v: Move, l: seq<Reading>, user: int, k: nat, cfg: Config)
    returns (l': seq<Reading>)
    requires Enabled(f, v) && f.clock == TimeOf(v) && Sound(f, user, cfg)
    requires Accounts(l, f, user, k, cfg) && |InFlight(f, user)| <= k
    ensures Accounts(l', Moved(f, v, cfg), user, k, cfg)
  {
    var g, es, cap := Moved(f, v, cfg), SessionsOf(f.m.backend), SessionCap.Cap(cfg.maxSessions);
    match v {
      case ReadIndex(_, _, _) => l' := ReadAccounts(f, v, l, user, k, cfg);
      case Fetch(c, now) =>
        FetchProgress(es, f.creates[c].stage, user, now, cap);
        l' := ProgressAccounts(f, g, c, g.creates[c].stage, {}, l, user, k, cfg);
      case Decide(c, _) =>
        var gain := DecideProgress(f.creates[c].stage, ActiveNow(f, user), cfg.maxSessions);
        l' := ProgressAccounts(f, g, c, g.creates[c].stage, gain, l, user, k, cfg);
      case EndOne(c, now) =>
        TerminatedGuarded(f.m.backend, f.creates[c].stage.victims[0], user, Unlisted(f.creates, user), now, cfg);
        EndProgress(f.creates[c].stage, ActiveNow(g, user), cap);
        l' := ProgressAccounts(f, g, c, g.creates[c].stage, {}, l, user, k, cfg);
      case Store(_, _, _, _, _) => l' := StoreAccounts(f, v, l, user, k, cfg);
      case _ =>
        l' := l;
        QuietAccounts(f, v, l, user, k, cfg);
    }
  }

  lemma {:induction false} MoveSound(f: Flight, v: Move, user: int, cfg: Config)
    requires Fits(f, v) && f.clock == TimeOf(v) && Sound(f, user, cfg) && OneOpen(f, user)
    ensures Sound(Moved(f, v, cfg), user, cfg)
    ensures Moved(f, v, cfg).m.backend.Redis? <==> f.m.backend.Redis?
  {
    var b, unlisted := f.m.backend, Unlisted(f.creates, user);
    match v
    case Begin(c, owner, now) => StageSound(f, user, cfg, c, Creating(owner, now, Begun));
    case ReadIndex(c, _, _) => StageSound(f, user, cfg, c, Moved(f, v, cfg).creates[c]);
    case Fetch(c, _) => StageSound(f, user, cfg, c, Moved(f, v, cfg).creates[c]);
    case Decide(c, _) => StageSound(f, user, cfg, c, Moved(f, v, cfg).creates[c]);
    case EndOne(c, now) =>
      var b' := Terminated(b, f.creates[c].stage.victims[0], now, cfg);
      TerminatedGuarded(b, f.creates[c].stage.victims[0], user, unlisted, now, cfg);
      TameSound(f, user, cfg, b');
      StageSound(WithBackend(f, b'), user, cfg, c, Moved(f, v, cfg).creates[c]);
    case Store(_, _, _, _, _) => StoreSound(f, v, user, cfg);
    case ReadList(_, _) => ReadListSound(f, v, user, cfg);
    case WriteList(_, _) => WriteListSound(f, v, user, cfg);
    case TouchRead(_, _, _) => TouchReadSound(f, v, user, cfg);
    case TouchWrite(_, _) => TouchWriteSound(f, v, user, cfg);
    case Other(call) =>
      OtherGuarded(f.m, call, user, unlisted, cfg);
      TameSound(f, user, cfg, Step(f.m, call, cfg).0.backend);
      OtherSound(f, call, user, cfg);
  }

  lemma {:induction false} OtherSound(f: Flight, call: Call, user: int, cfg: Config)
    requires f.clock == call.e.now && !call.e.Create?
    requires Sound(WithBackend(f, Step(f.m, call, cfg).0.backend), user, cfg)
    ensures Sound(Moved(f, Other(call), cfg), user, cfg)
  {
    var g, h := Moved(f, Other(call), cfg), WithBackend(f, Step(f.m, call, cfg).0.backend);
    assert OpenCreates(g, user) == OpenCreates(h, user) && OpenTouches(g, user) == OpenTouches(h, user);
  }

  lemma {:induction false} MoveBounded(f: Flight, v: Move, user: int, k: nat, cfg: Config)
    requires Enabled(f, v) && Bounded(f, user, k, cfg) && OneOpen(f, user) && |InFlight(f, user)| <= k
    ensures Bounded(Moved(f, v, cfg), user, k, cfg)
    ensures Moved(f, v, cfg).m.backend.Redis? <==> f.m.backend.Redis?
  {
    var g := f.(clock := TimeOf(v));
    SoundLater(f, user, cfg, TimeOf(v));
    var l :| Accounts(l, f, user, k, cfg);
    BookedQuiet(l, f.creates, ActiveNow(f, user), g.creates, ActiveNow(g, user), user, k,
      SessionCap.Cap(cfg.maxSessions));
    WaitingChangesNothing(f, v, user, cfg);
    MoveSound(g, v, user, cfg);
    var l' := MoveAccounts(g, v, l, user, k, cfg);
  }

  lemma {:induction false} WaitingChangesNothing(f: Flight, v: Move, user: int, cfg: Config)
    requires Enabled(f, v)
    ensures var g := f.(clock := TimeOf(v));
      && Enabled(g, v) && Moved(g, v, cfg) == Moved(f, v, cfg)
      && InFlight(g, user) == InFlight(f, user)
      && OpenCreates(g, user) == OpenCreates(f, user) && OpenTouches(g, user) == OpenTouches(f, user)
  {
  }

  // ------------------------------------------------------------- whole runs

  lemma {:induction false} RunBounded(b: Backend, start: int, moves: seq<Move>, user: int, t: Traffic, cfg: Config)
    requires IsEmpty(b) && IsRun(Start(b, start), moves, user, t, cfg) && (b.Redis? || t.open <= 1)
    ensures Bounded(After(Start(b, start), moves, cfg), user, t.creates, cfg)
    ensures After(Start(b, start), moves, cfg).m.backend.Redis? <==> b.Redis?
    decreases |moves|
  {
    var f := Start(b, start);
    if moves == [] {
      assert ActiveNow(f, user) == {} && Unlisted(f.creates, user) == {};
      assert OpenCreates(f, user) == {} && OpenTouches(f, user) == {};
      assert Accounts([Reading(0, {}, {}, {})], f, user, t.creates, cfg);
    } else {
      var before := moves[..|moves| - 1];
      RunBounded(b, start, before, user, t, cfg);
      MoveBounded(After(f, before, cfg), moves[|moves| - 1], user, t.creates, cfg);
    }
  }

  /**
   Over Redis and Memcached, with at most `k` creates of the user in flight and, on Memcached, no two
   rewrites of the user's list open at a time, the user never has more than `Cap - 1 + k` active
   sessions, places that creates have made and not yet used included.
   */
  lemma {:induction false} CapInFlight(b: Backend, start: int, moves: seq<Move>, user: int, t: Traffic, cfg: Config)
    requires IsEmpty(b) && IsRun(Start(b, start), moves, user, t, cfg) && (b.Redis? || t.open <= 1)
    ensures var f := After(Start(b, start), moves, cfg);
      |ActiveNow(f, user)| + |Pending(f, user)| <= SessionCap.Cap(cfg.maxSessions) - 1 + t.creates
  {
    var f := After(Start(b, start), moves, cfg);
    RunBounded(b, start, moves, user, t, cfg);
    var l :| Accounts(l, f, user, t.creates, cfg);
    BookedBound(l, f.creates, ActiveNow(f, user), user, t.creates, SessionCap.Cap(cfg.maxSessions), Pending(f, user));
  }

  // ------------------------------------------------------------- when no two rewrites can overlap

  /** With so few creates and touches there is never more than one rewrite open. */
  lemma {:induction false} FewNeverOverlap(f: Flight, moves: seq<Move>, user: int, t: Traffic, cfg: Config)
    requires IsRun(f, moves, user, t, cfg) && t.creates + t.touches <= 1
    ensures IsRun(f, moves, user, t.(open := 1), cfg)
    decreases |moves|
  {
    var g := After(f, moves, cfg);
    FullSubset(OpenCreates(g, user), InFlight(g, user));
    if moves != [] {
      FewNeverOverlap(f, moves[..|moves| - 1], user, t, cfg);
    }
  }

  /** Calls other than creates give no user a list. */
  lemma {:induction false} CleanedLists(b: Backend, ids: seq<string>, now: int, cfg: Config)
    requires b.Memcached?
    ensures var b' := CleanedAll(b, ids, now, cfg); b'.Memcached? && b'.memcached.index.Keys == b.memcached.index.Keys
  {
    if ids != [] {
      CleanedLists(b, ids[..|ids| - 1], now, cfg);
    }
  }

  ghost predicate Unheard(f: Flight, user: int) {
    && InFlight(f, user) == {} && OpenTouches(f, user) == {}
    && f.m.backend.Memcached? && user !in f.m.backend.memcached.index
  }

  lemma {:induction false} UnheardStays(f: Flight, v: Move, user: int, cfg: Config)
    requires Unheard(f, user) && Fits(f, v) && InFlight(Moved(f, v, cfg), user) == {}
    ensures Unheard(Moved(f, v, cfg), user)
  {
    var g := Moved(f, v, cfg);
    forall c | c in f.creates ensures f.creates[c].user != user {
      assert c !in InFlight(f, user);
    }
    forall c | c in f.touches ensures f.touches[c].user != user {
      assert c !in OpenTouches(f, user);
    }
    if v.Other? && v.call.e.Cleanup? {
      CleanedLists(f.m.backend, v.call.listed, v.call.e.now, cfg);
    }
    forall c | c in g.touches ensures g.touches[c].user != user {
      assert c in f.touches ==> f.touches[c].user != user;
    }
    assert OpenTouches(g, user) == {};
  }

  /** A user who never creates has no list to rewrite. */
  lemma {:induction false} NoneNeverOverlap(b: Backend, start: int, moves: seq<Move>, user: int, t: Traffic,
        cfg: Config)
    requires IsEmpty(b) && b.Memcached? && IsRun(Start(b, start), moves, user, t, cfg) && t.creates == 0
    ensures IsRun(Start(b, start), moves, user, t.(open := 0), cfg)
    ensures Unheard(After(Start(b, start), moves, cfg), user)
    decreases |moves|
  {
    var f, g := Start(b, start), After(Start(b, start), moves, cfg);
    assert InFlight(g, user) == {};
    if moves == [] {
      assert OpenTouches(f, user) == {};
    } else {
      var before := moves[..|moves| - 1];
      NoneNeverOverlap(b, start, before, user, t, cfg);
      UnheardStays(After(f, before, cfg), moves[|moves| - 1], user, cfg);
    }
    FullSubset(OpenCreates(g, user), InFlight(g, user));
  }
}
