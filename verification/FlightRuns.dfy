/**
 Runs of creates in flight: one that attains the bound of FlightCap, and one that passes every bound
 once two rewrites of a user's list on Memcached may overlap.
 */
module FlightRuns {
  import opened Expiring
  import opened Ordering
  import opened Servers
  import opened SessionModel
  import opened SessionBackends
  import opened BackendCap
  import opened BackendFlight
  import FlightCap
  import RedisStorage
  import MemcachedStorage
  import SessionCap
  import Text

  /** `g` is a state that some run from `f` leads to. */
  ghost predicate Reachable(f: Flight, g: Flight, user: int, t: Traffic, cfg: Config) {
    Within(g, user, t) && exists moves :: Leads(f, moves, g, user, t, cfg)
  }

  ghost predicate Leads(f: Flight, moves: seq<Move>, g: Flight, user: int, t: Traffic, cfg: Config) {
    IsRun(f, moves, user, t, cfg) && After(f, moves, cfg) == g
  }

  lemma {:induction false} Go(f: Flight, g: Flight, v: Move, user: int, t: Traffic, cfg: Config)
    requires Reachable(f, g, user, t, cfg) && Enabled(g, v) && Within(Moved(g, v, cfg), user, t)
    ensures Reachable(f, Moved(g, v, cfg), user, t, cfg)
  {
    var moves :| Leads(f, moves, g, user, t, cfg);
    assert (moves + [v])[..|moves|] == moves;
    assert Leads(f, moves + [v], Moved(g, v, cfg), user, t, cfg);
  }

  lemma {:induction false} Enumerate(s: set<string>) returns (ids: seq<string>)
    ensures NoDup(ids) && Elements(ids) == s
  {
    if s == {} {
      ids := [];
      assert Elements(ids) == {};
    } else {
      var x :| x in s;
      var rest := Enumerate(s - {x});
      ids := rest + [x];
      ElementsSplit(ids);
      assert ids[..|rest|] == rest && x !in Elements(rest);
    }
  }

  lemma {:induction false} SomeListing(b: Backend, user: int, now: int) returns (ids: seq<string>)
    ensures MayList(b, user, now, ids)
  {
    match b
    case Redis(r) => ids := Enumerate(RedisStorage.Members(r, user, now));
    case Memcached(m) => ids := MemcachedStorage.Listed(m, user, now);
  }

  // ------------------------------------------------------------- making room

  /** A create that has not stored moves on: nothing that is counted changes. */
  lemma {:induction false} StageWithin(g: Flight, c: int, s: Stage, user: int, t: Traffic)
    requires c in g.creates && IsUnset(g.creates[c].stage) && IsUnset(s) && Within(g, user, t)
    ensures Within(WithStage(g, c, s, g.clock), user, t)
  {
    var h := WithStage(g, c, s, g.clock);
    assert InFlight(h, user) == InFlight(g, user) && OpenCreates(h, user) == OpenCreates(g, user);
    assert OpenTouches(h, user) == OpenTouches(g, user);
  }

  ghost predicate FoundAmong(s: Stage, ids: set<string>, most: nat) {
    && s.Fetching? && Covers(s.lastUsed, s.found)
    && Elements(s.rest) + Elements(s.found) <= ids && |s.rest| + |s.found| <= most
  }

  /** All listed sessions are fetched, one GET after the other. */
  lemma {:induction false} FetchAll(f: Flight, g: Flight, c: int, ids: set<string>, most: nat, user: int,
        t: Traffic, cfg: Config)
    returns (s: Stage)
    requires Reachable(f, g, user, t, cfg)
    requires c in g.creates && FoundAmong(g.creates[c].stage, ids, most)
    ensures FoundAmong(s, ids, most) && s.rest == []
    ensures Reachable(f, WithStage(g, c, s, g.clock), user, t, cfg)
    decreases |g.creates[c].stage.rest|
  {
    s := g.creates[c].stage;
    if s.rest == [] {
      assert WithStage(g, c, s, g.clock) == g;
    } else {
      var s' := FetchedNext(SessionsOf(g.m.backend), s, g.clock);
      assert s.rest == [s.rest[0]] + s.rest[1..];
      FoundOneMore(s, s', ids, most, SessionsOf(g.m.backend), g.clock);
      StageWithin(g, c, s', user, t);
      Go(f, g, Fetch(c, g.clock), user, t, cfg);
      s := FetchAll(f, WithStage(g, c, s', g.clock), c, ids, most, user, t, cfg);
      assert WithStage(WithStage(g, c, s', g.clock), c, s, g.clock) == WithStage(g, c, s, g.clock);
    }
  }

  lemma {:induction false} FoundOneMore(s: Stage, s': Stage, ids: set<string>, most: nat, es: Entries, now: int)
    requires FoundAmong(s, ids, most) && s.rest != [] && s' == FetchedNext(es, s, now)
    ensures FoundAmong(s', ids, most) && |s'.rest| == |s.rest| - 1
  {
    assert s.rest == [s.rest[0]] + s.rest[1..];
    assert s.rest[0] in Elements(s.rest);
    forall x | x in Elements(s'.rest) + Elements(s'.found) ensures x in ids {
      assert x in Elements(s.rest) + Elements(s.found);
    }
  }

  /** `b'` is `b` after some of the sessions `ids` were ended. */
  ghost predicate Spared(b: Backend, b': Backend, ids: set<string>, user: int, now: int) {
    && b.Memcached? && b'.Memcached?
    && SessionsOf(b').Keys == SessionsOf(b).Keys
    && (forall id | id in SessionsOf(b) && id !in ids :: SessionsOf(b')[id] == SessionsOf(b)[id])
    && MemcachedStorage.Listed(b'.memcached, user, now) == MemcachedStorage.Listed(b.memcached, user, now)
    && (MemcachedStorage.Indexed(b.memcached, user, now) ==> MemcachedStorage.Indexed(b'.memcached, user, now))
  }

  lemma {:induction false} TerminatedSpares(b: Backend, id: string, ids: set<string>, user: int, now: int, cfg: Config)
    requires b.Memcached? && id in ids && cfg.expiration > 0
    ensures Spared(b, Terminated(b, id, now, cfg), ids, user, now)
  {
  }

  /** All victims are ended, one after the other. */
  lemma {:induction false} EndAll(f: Flight, g: Flight, c: int, ids: set<string>, user: int, t: Traffic, cfg: Config)
    returns (b: Backend)
    requires Reachable(f, g, user, t, cfg) && g.m.backend.Memcached? && cfg.expiration > 0
    requires c in g.creates && g.creates[c].stage.Ending? && Elements(g.creates[c].stage.victims) <= ids
    ensures Spared(g.m.backend, b, ids, user, g.clock)
    ensures var h := WithStage(WithBackend(g, b), c, Ending([]), g.clock);
      Reachable(f, h, user, t, cfg)
    decreases |g.creates[c].stage.victims|
  {
    var victims := g.creates[c].stage.victims;
    b := g.m.backend;
    if victims == [] {
      assert WithStage(WithBackend(g, b), c, Ending([]), g.clock) == g;
    } else {
      assert victims == [victims[0]] + victims[1..] && victims[0] in Elements(victims);
      var b1 := Terminated(b, victims[0], g.clock, cfg);
      TerminatedSpares(b, victims[0], ids, user, g.clock, cfg);
      var h := WithStage(WithBackend(g, b1), c, Ending(victims[1..]), g.clock);
      StageWithin(g, c, Ending(victims[1..]), user, t);
      BackendWithin(WithStage(g, c, Ending(victims[1..]), g.clock), b1, user, t);
      Go(f, g, EndOne(c, g.clock), user, t, cfg);
      b := EndAll(f, h, c, ids, user, t, cfg);
      assert WithStage(WithBackend(h, b), c, Ending([]), g.clock)
          == WithStage(WithBackend(g, b), c, Ending([]), g.clock);
    }
  }

  lemma {:induction false} BackendWithin(g: Flight, b: Backend, user: int, t: Traffic)
    requires Within(g, user, t)
    ensures Within(WithBackend(g, b), user, t)
  {
    var h := WithBackend(g, b);
    assert InFlight(h, user) == InFlight(g, user) && OpenCreates(h, user) == OpenCreates(g, user);
    assert OpenTouches(h, user) == OpenTouches(g, user);
  }

  lemma {:induction false} BeginNext(f: Flight, g: Flight, c: int, user: int, t: Traffic, cfg: Config)
    returns (h: Flight)
    requires Reachable(f, g, user, t, cfg) && |InFlight(g, user)| < t.creates && c !in g.creates
    ensures h == g.(creates := g.creates[c := Creating(user, g.clock, Begun)])
    ensures Reachable(f, h, user, t, cfg)
  {
    h := Moved(g, Begin(c, user, g.clock), cfg);
    assert InFlight(h, user) == InFlight(g, user) + {c};
    assert OpenCreates(h, user) == OpenCreates(g, user) && OpenTouches(h, user) == OpenTouches(g, user);
    Go(f, g, Begin(c, user, g.clock), user, t, cfg);
  }

  /** A create that has begun fetches what the index lists, up to its decision. */
  lemma {:induction false} ReadAndFetch(f: Flight, g: Flight, c: int, listed: seq<string>, user: int, t: Traffic,
        cfg: Config)
    returns (s: Stage)
    requires Reachable(f, g, user, t, cfg) && c in g.creates && g.creates[c] == Creating(user, g.clock, Begun)
    requires MayList(g.m.backend, user, g.clock, listed)
    ensures FoundAmong(s, Elements(listed), |listed|) && s.rest == []
    ensures var h := WithStage(g, c, s, g.clock);
      Reachable(f, h, user, t, cfg)
  {
    var s0 := Fetching(listed, [], map[]);
    var h := WithStage(g, c, s0, g.clock);
    StageWithin(g, c, s0, user, t);
    Go(f, g, ReadIndex(c, listed, g.clock), user, t, cfg);
    FoundNothing(listed);
    s := FetchAll(f, h, c, Elements(listed), |listed|, user, t, cfg);
    assert WithStage(h, c, s, g.clock) == WithStage(g, c, s, g.clock);
  }

  lemma {:induction false} FoundNothing(listed: seq<string>)
    ensures FoundAmong(Fetching(listed, [], map[]), Elements(listed), |listed|)
  {
  }

  lemma {:induction false} DecideNext(f: Flight, g: Flight, c: int, ids: set<string>, most: nat, user: int,
        t: Traffic, cfg: Config)
    returns (victims: seq<string>)
    requires Reachable(f, g, user, t, cfg) && c in g.creates
    requires FoundAmong(g.creates[c].stage, ids, most) && g.creates[c].stage.rest == []
    ensures Elements(victims) <= ids && (most < SessionCap.Cap(cfg.maxSessions) ==> victims == [])
    ensures var h := WithStage(g, c, Ending(victims), g.clock);
      Reachable(f, h, user, t, cfg)
  {
    var s := g.creates[c].stage;
    victims := Decided(s, cfg.maxSessions).victims;
    SortMembers(s.found, s.lastUsed);
    forall x | x in victims ensures x in ids {
      assert x in Sort(s.found, s.lastUsed);
      assert x in Elements(s.found);
    }
    StageWithin(g, c, Ending(victims), user, t);
    Go(f, g, Decide(c, g.clock), user, t, cfg);
  }

  lemma {:induction false} DecideFrom(f: Flight, g: Flight, c: int, listed: seq<string>, user: int, t: Traffic,
        cfg: Config)
    returns (victims: seq<string>)
    requires Reachable(f, g, user, t, cfg) && c in g.creates && g.creates[c] == Creating(user, g.clock, Begun)
    requires MayList(g.m.backend, user, g.clock, listed)
    ensures Elements(victims) <= Elements(listed) && (|listed| < SessionCap.Cap(cfg.maxSessions) ==> victims == [])
    ensures Reachable(f, WithStage(g, c, Ending(victims), g.clock), user, t, cfg)
  {
    var s := ReadAndFetch(f, g, c, listed, user, t, cfg);
    var h := WithStage(g, c, s, g.clock);
    victims := DecideNext(f, h, c, Elements(listed), |listed|, user, t, cfg);
    assert WithStage(h, c, Ending(victims), g.clock) == WithStage(g, c, Ending(victims), g.clock);
  }

  /** A create begins, reads the index, fetches and decides. */
  lemma {:induction false} UpToDecision(f: Flight, g: Flight, c: int, listed: seq<string>, user: int, t: Traffic,
        cfg: Config)
    returns (victims: seq<string>)
    requires Reachable(f, g, user, t, cfg) && |InFlight(g, user)| < t.creates && c !in g.creates
    requires MayList(g.m.backend, user, g.clock, listed)
    ensures Elements(victims) <= Elements(listed) && (|listed| < SessionCap.Cap(cfg.maxSessions) ==> victims == [])
    ensures Reachable(f, g.(creates := g.creates[c := Creating(user, g.clock, Ending(victims))]), user, t, cfg)
  {
    var g1 := BeginNext(f, g, c, user, t, cfg);
    victims := DecideFrom(f, g1, c, listed, user, t, cfg);
    assert WithStage(g1, c, Ending(victims), g.clock)
        == g.(creates := g.creates[c := Creating(user, g.clock, Ending(victims))]);
  }

  // ------------------------------------------------------------- storing

  function Ids(n: nat): set<string> {
    set i | 0 <= i < n :: Text.Decimal(i)
  }

  lemma {:induction false} NextId(n: nat)
    ensures Text.Decimal(n) !in Ids(n) && Ids(n + 1) == Ids(n) + {Text.Decimal(n)}
  {
    forall i | 0 <= i < n ensures Text.Decimal(i) != Text.Decimal(n) {
      Text.DecimalInjective(i, n);
    }
  }

  /** On Memcached, a create that has made room sets its session. */
  lemma {:induction false} SetNext(f: Flight, g: Flight, c: int, id: string, user: int, t: Traffic, cfg: Config)
    returns (h: Flight)
    requires Reachable(f, g, user, t, cfg) && g.m.backend.Memcached?
    requires c in g.creates && g.creates[c] == Creating(user, g.clock, Ending([])) && id !in g.used
    ensures var s := NewSession(id, user, "", map[], g.clock);
      h == WithBackend(g, StoredBy(g.m.backend, s, g.clock, cfg.expiration))
        .(used := g.used + {id}, creates := g.creates[c := Creating(user, g.clock, Placed(id))])
    ensures OpenCreates(h, user) == OpenCreates(g, user) && OpenTouches(h, user) == OpenTouches(g, user)
    ensures Reachable(f, h, user, t, cfg)
  {
    var v := Store(c, id, "", map[], g.clock);
    h := Moved(g, v, cfg);
    assert InFlight(h, user) == InFlight(g, user) && OpenCreates(h, user) == OpenCreates(g, user);
    assert OpenTouches(h, user) == OpenTouches(g, user);
    Go(f, g, v, user, t, cfg);
  }

  /** It sets its session and reads the list. */
  lemma {:induction false} PlaceNext(f: Flight, g: Flight, c: int, id: string, user: int, t: Traffic, cfg: Config)
    returns (h: Flight)
    requires Reachable(f, g, user, t, cfg) && g.m.backend.Memcached?
    requires |OpenCreates(g, user)| + |OpenTouches(g, user)| < t.open
    requires c in g.creates && g.creates[c] == Creating(user, g.clock, Ending([])) && id !in g.used
    ensures var s, m := NewSession(id, user, "", map[], g.clock), g.m.backend.memcached;
      h == WithBackend(g, StoredBy(g.m.backend, s, g.clock, cfg.expiration)).(used := g.used + {id},
        creates := g.creates[c := Creating(user, g.clock, Listing(id, MemcachedStorage.Listed(m, user, g.clock)))])
    ensures Reachable(f, h, user, t, cfg)
  {
    var g1 := SetNext(f, g, c, id, user, t, cfg);
    h := Moved(g1, ReadList(c, g.clock), cfg);
    assert InFlight(h, user) == InFlight(g1, user) && OpenCreates(h, user) == OpenCreates(g1, user) + {c};
    assert OpenTouches(h, user) == OpenTouches(g1, user);
    Go(f, g1, ReadList(c, g.clock), user, t, cfg);
  }

  /** It writes the list back. */
  lemma {:induction false} WriteNext(f: Flight, g: Flight, c: int, user: int, t: Traffic, cfg: Config)
    returns (h: Flight)
    requires Reachable(f, g, user, t, cfg) && g.m.backend.Memcached?
    requires c in g.creates && g.creates[c].user == user && g.creates[c].stage.Listing?
    ensures var ids := MemcachedStorage.WithId(g.creates[c].stage.ids, g.creates[c].stage.id);
      h == WithBackend(g, Rewriting(g.m.backend, user, ids, g.clock, cfg.expiration)).(creates := g.creates - {c})
    ensures Reachable(f, h, user, t, cfg)
  {
    h := Moved(g, WriteList(c, g.clock), cfg);
    FullSubset(InFlight(h, user), InFlight(g, user));
    FullSubset(OpenCreates(h, user), OpenCreates(g, user));
    assert OpenTouches(h, user) == OpenTouches(g, user);
    Go(f, g, WriteList(c, g.clock), user, t, cfg);
  }

  // ------------------------------------------------------------- the bound is reached

  /** What the user's index names. */
  ghost predicate Indexes(b: Backend, user: int, now: int, ids: set<string>) {
    match b
    case Redis(r) => RedisStorage.Members(r, user, now) == ids
    case Memcached(m) =>
      NoDup(MemcachedStorage.Listed(m, user, now)) && Elements(MemcachedStorage.Listed(m, user, now)) == ids
  }

  /**
   At the instant `now` the user has `n` active sessions, all of them indexed, and creates from
   `lo` on below `hi` wait to store.
   */
  ghost predicate Stands(g: Flight, now: int, user: int, n: nat, lo: nat, hi: nat) {
    && g.clock == now && g.used == Ids(n) && g.touches == map[] && Holds(g.m.backend, now, user, n)
    && lo <= hi && (forall c :: c in g.creates <==> lo <= c < hi)
    && forall c | c in g.creates :: g.creates[c] == Creating(user, now, Ending([]))
  }

  lemma {:induction false} RangeSize(range: set<int>, lo: nat, hi: nat)
    requires lo <= hi && forall i :: i in range <==> lo <= i < hi
    ensures |range| == hi - lo
    decreases hi
  {
    if lo < hi {
      RangeSize(range - {hi - 1}, lo, hi - 1);
    } else {
      forall i ensures i !in range {
        assert i in range <==> lo <= i < hi;
      }
      assert range == {};
    }
  }

  lemma {:induction false} StandsInFlight(g: Flight, now: int, user: int, n: nat, lo: nat, hi: nat)
    requires Stands(g, now, user, n, lo, hi)
    ensures |InFlight(g, user)| == hi - lo && OpenCreates(g, user) == {} && OpenTouches(g, user) == {}
  {
    forall c | c in g.creates.Keys ensures c in InFlight(g, user) {
      assert g.creates[c] == Creating(user, now, Ending([]));
    }
    assert InFlight(g, user) == g.creates.Keys;
    RangeSize(g.creates.Keys, lo, hi);
  }

  /** One more create begins and makes room, evicting nobody. */
  lemma {:induction false} MakeRoom(f: Flight, g: Flight, now: int, user: int, n: nat, hi: nat, t: Traffic,
        cfg: Config) returns (h: Flight)
    requires Reachable(f, g, user, t, cfg) && Stands(g, now, user, n, 0, hi)
    requires hi < t.creates && n < SessionCap.Cap(cfg.maxSessions)
    ensures Reachable(f, h, user, t, cfg) && Stands(h, now, user, n, 0, hi + 1) && h.m.backend == g.m.backend
  {
    StandsInFlight(g, now, user, n, 0, hi);
    var listed := SomeListing(g.m.backend, user, now);
    NoDupCount(listed);
    var victims := UpToDecision(f, g, hi, listed, user, t, cfg);
    h := g.(creates := g.creates[hi := Creating(user, now, Ending(victims))]);
    RoomMade(g, now, user, n, hi, h);
  }

  lemma {:induction false} RoomMade(g: Flight, now: int, user: int, n: nat, hi: nat, h: Flight)
    requires Stands(g, now, user, n, 0, hi)
    requires h == g.(creates := g.creates[hi := Creating(user, now, Ending([]))])
    ensures Stands(h, now, user, n, 0, hi + 1)
  {
  }

  /** What it comes to when a create that made room stores its session and nothing comes between. */
  function AfterStore(g: Flight, c: int, id: string, user: int, cfg: Config): Flight {
    var s := NewSession(id, user, "", map[], g.clock);
    WithBackend(g, Put(g.m.backend, s, g.clock, cfg.expiration)).(used := g.used + {id}, creates := g.creates - {c})
  }

  lemma {:induction false} StoreOnRedis(f: Flight, g: Flight, c: int, id: string, user: int, t: Traffic, cfg: Config)
    requires Reachable(f, g, user, t, cfg) && g.m.backend.Redis?
    requires c in g.creates && g.creates[c] == Creating(user, g.clock, Ending([])) && id !in g.used
    ensures Reachable(f, AfterStore(g, c, id, user, cfg), user, t, cfg)
  {
    var v := Store(c, id, "", map[], g.clock);
    var h := AfterStore(g, c, id, user, cfg);
    FullSubset(InFlight(h, user), InFlight(g, user));
    FullSubset(OpenCreates(h, user), OpenCreates(g, user));
    assert OpenTouches(h, user) == OpenTouches(g, user);
    assert Moved(g, v, cfg) == h;
    Go(f, g, v, user, t, cfg);
  }

  lemma {:induction false} StoreOnMemcached(f: Flight, g: Flight, c: int, id: string, user: int, t: Traffic,
        cfg: Config)
    requires Reachable(f, g, user, t, cfg) && g.m.backend.Memcached?
    requires |OpenCreates(g, user)| + |OpenTouches(g, user)| < t.open
    requires c in g.creates && g.creates[c] == Creating(user, g.clock, Ending([])) && id !in g.used
    ensures Reachable(f, AfterStore(g, c, id, user, cfg), user, t, cfg)
  {
    var g1 := PlaceNext(f, g, c, id, user, t, cfg);
    var h := WriteNext(f, g1, c, user, t, cfg);
    assert g1.creates - {c} == g.creates - {c};
    assert h == AfterStore(g, c, id, user, cfg);
  }

  /** The first of the waiting creates stores its session. */
  lemma {:induction false} StoreOne(f: Flight, g: Flight, now: int, user: int, n: nat, lo: nat, hi: nat,
        t: Traffic, cfg: Config)
    returns (h: Flight)
    requires Reachable(f, g, user, t, cfg) && Stands(g, now, user, n, lo, hi) && lo < hi
    requires cfg.expiration > 0 && (g.m.backend.Redis? || t.open >= 1)
    ensures Reachable(f, h, user, t, cfg) && Stands(h, now, user, n + 1, lo + 1, hi)
    ensures h.m.backend.Redis? <==> g.m.backend.Redis?
  {
    NextId(n);
    if g.m.backend.Memcached? {
      StandsInFlight(g, now, user, n, lo, hi);
      StoreOnMemcached(f, g, lo, Text.Decimal(n), user, t, cfg);
    } else {
      StoreOnRedis(f, g, lo, Text.Decimal(n), user, t, cfg);
    }
    h := AfterStore(g, lo, Text.Decimal(n), user, cfg);
    StoredOne(g, now, user, n, lo, hi, cfg, h);
  }

  lemma {:induction false} StoredOne(g: Flight, now: int, user: int, n: nat, lo: nat, hi: nat, cfg: Config, h: Flight)
    requires Stands(g, now, user, n, lo, hi) && lo < hi && cfg.expiration > 0
    requires h.clock == now && h.used == Ids(n + 1) && h.touches == map[] && h.creates == g.creates - {lo}
    requires var s := NewSession(Text.Decimal(n), user, "", map[], now);
      h.m.backend == Put(g.m.backend, s, now, cfg.expiration)
    ensures Stands(h, now, user, n + 1, lo + 1, hi)
  {
    NextId(n);
    OneMoreStored(g.m.backend, now, user, n, cfg, h.m.backend);
  }

  /** The sessions stored are those with the first `n` ids, all active and indexed. */
  ghost predicate Holds(b: Backend, now: int, user: int, n: nat) {
    && ActiveOf(SessionsOf(b), user, now) == Ids(n) && |Ids(n)| == n && Indexes(b, user, now, Ids(n))
    && SessionsOf(b).Keys == Ids(n)
  }

  lemma {:induction false} OneMoreStored(b: Backend, now: int, user: int, n: nat, cfg: Config, b': Backend)
    requires Holds(b, now, user, n) && cfg.expiration > 0
    requires b' == Put(b, NewSession(Text.Decimal(n), user, "", map[], now), now, cfg.expiration)
    ensures Holds(b', now, user, n + 1)
  {
    NextId(n);
    var s := NewSession(Text.Decimal(n), user, "", map[], now);
    PutActive(b, s, user, now, cfg, b');
    PutIndexes(b, s, user, now, Ids(n), cfg.expiration);
    assert SessionsOf(b').Keys == SessionsOf(b).Keys + {Text.Decimal(n)};
  }

  lemma {:induction false} Extended(list: seq<string>, id: string)
    requires NoDup(list) && id !in Elements(list)
    ensures id !in list && NoDup(list + [id]) && Elements(list + [id]) == Elements(list) + {id}
  {
    assert forall x | x in list :: x in Elements(list);
    ElementsSplit(list + [id]);
    assert (list + [id])[..|list|] == list;
  }

  lemma {:induction false} PutIndexes(b: Backend, s: SessionData, user: int, now: int, ids: set<string>, exp: int)
    requires Indexes(b, user, now, ids) && s.userId == user && s.sessionId !in ids && exp > 0
    ensures Indexes(Put(b, s, now, exp), user, now, ids + {s.sessionId})
  {
    if b.Memcached? {
      Extended(MemcachedStorage.Listed(b.memcached, user, now), s.sessionId);
    }
  }

  lemma {:induction false} Renumbered(g: Flight, now: int, user: int, n: nat)
    requires Stands(g, now, user, n, 1, 1)
    ensures Stands(g, now, user, n, 0, 0)
  {
  }

  /** Creates one after another bring the user up to `n` sessions. */
  lemma {:induction false} FillUp(b: Backend, now: int, user: int, n: nat, t: Traffic, cfg: Config) returns (g: Flight)
    requires IsEmpty(b) && cfg.expiration > 0 && (b.Redis? || t.open >= 1)
    requires t.creates >= 1 && n < SessionCap.Cap(cfg.maxSessions)
    ensures Reachable(Start(b, now), g, user, t, cfg) && Stands(g, now, user, n, 0, 0)
    ensures g.m.backend.Redis? <==> b.Redis?
  {
    if n == 0 {
      g := Start(b, now);
      StartStands(b, now, user, t, cfg);
    } else {
      g := FillUp(b, now, user, n - 1, t, cfg);
      g := MakeRoom(Start(b, now), g, now, user, n - 1, 0, t, cfg);
      g := StoreOne(Start(b, now), g, now, user, n - 1, 0, 1, t, cfg);
      Renumbered(g, now, user, n);
    }
  }

  lemma {:induction false} StartReachable(b: Backend, now: int, user: int, t: Traffic, cfg: Config)
    ensures Reachable(Start(b, now), Start(b, now), user, t, cfg)
  {
    var f := Start(b, now);
    assert InFlight(f, user) == {} && OpenCreates(f, user) == {} && OpenTouches(f, user) == {};
    assert Leads(f, [], f, user, t, cfg);
  }

  lemma {:induction false} StartStands(b: Backend, now: int, user: int, t: Traffic, cfg: Config)
    requires IsEmpty(b)
    ensures Reachable(Start(b, now), Start(b, now), user, t, cfg) && Stands(Start(b, now), now, user, 0, 0, 0)
  {
    StartReachable(b, now, user, t, cfg);
    assert ActiveNow(Start(b, now), user) == {} && Ids(0) == {};
  }

  lemma {:induction false} AllMakeRoom(f: Flight, g: Flight, now: int, user: int, n: nat, hi: nat, t: Traffic,
        cfg: Config)
    returns (h: Flight)
    requires Reachable(f, g, user, t, cfg) && Stands(g, now, user, n, 0, 0)
    requires hi <= t.creates && n < SessionCap.Cap(cfg.maxSessions)
    ensures Reachable(f, h, user, t, cfg) && Stands(h, now, user, n, 0, hi)
    ensures h.m.backend == g.m.backend
  {
    h := g;
    if hi > 0 {
      h := AllMakeRoom(f, g, now, user, n, hi - 1, t, cfg);
      h := MakeRoom(f, h, now, user, n, hi - 1, t, cfg);
    }
  }

  lemma {:induction false} AllStore(f: Flight, g: Flight, now: int, user: int, n: nat, lo: nat, hi: nat,
        t: Traffic, cfg: Config)
    returns (h: Flight)
    requires Reachable(f, g, user, t, cfg) && Stands(g, now, user, n, lo, hi)
    requires cfg.expiration > 0 && (g.m.backend.Redis? || t.open >= 1)
    ensures Reachable(f, h, user, t, cfg) && Stands(h, now, user, n + (hi - lo), hi, hi)
    decreases hi - lo
  {
    h := g;
    if lo < hi {
      h := StoreOne(f, g, now, user, n, lo, hi, t, cfg);
      h := AllStore(f, h, now, user, n + 1, lo + 1, hi, t, cfg);
    }
  }

  /** The bound of `FlightCap.CapInFlight` is reached: by creates that all make room before any of them stores. */
  lemma {:induction false} CapReached(b: Backend, start: int, user: int, t: Traffic, cfg: Config)
    returns (moves: seq<Move>)
    requires IsEmpty(b) && t.creates >= 1 && cfg.expiration > 0 && (b.Redis? || t.open >= 1)
    ensures IsRun(Start(b, start), moves, user, t, cfg)
    ensures |ActiveNow(After(Start(b, start), moves, cfg), user)| == SessionCap.Cap(cfg.maxSessions) - 1 + t.creates
  {
    var f, full := Start(b, start), SessionCap.Cap(cfg.maxSessions) - 1;
    var g := FillUp(b, start, user, full, t, cfg);
    g := AllMakeRoom(f, g, start, user, full, t.creates, t, cfg);
    g := AllStore(f, g, start, user, full, 0, t.creates, t, cfg);
    moves :| Leads(f, moves, g, user, t, cfg);
  }

  // ------------------------------------------------------------- the bound is lost

  /**
   At the instant `now` over Memcached, the list of the user is `list`, and `lost` are active sessions
   of the user that it does not name.
   */
  ghost predicate Losing(g: Flight, now: int, user: int, creates: map<int, Creating>, touches: map<int, Touch>,
                         lost: set<string>, list: seq<string>, n: nat)
  {
    && g.m.backend.Memcached? && g.clock == now && g.used == Ids(n) && g.creates == creates && g.touches == touches
    && SessionsOf(g.m.backend).Keys <= Ids(n)
    && MemcachedStorage.Listed(g.m.backend.memcached, user, now) == list && Elements(list) <= Ids(n)
    && lost <= ActiveNow(g, user) && lost !! Elements(list)
  }

  lemma {:induction false} SparedLosing(g: Flight, now: int, user: int, creates: map<int, Creating>,
        touches: map<int, Touch>,
        lost: set<string>, list: seq<string>, n: nat, b: Backend, creates': map<int, Creating>)
    requires Losing(g, now, user, creates, touches, lost, list, n)
    requires Spared(g.m.backend, b, Elements(list), user, now)
    ensures Losing(WithBackend(g, b).(creates := creates'), now, user, creates', touches, lost, list, n)
  {
  }

  lemma {:induction false} EndFrom(f: Flight, g: Flight, c: int, victims: seq<string>, ids: set<string>, user: int,
        t: Traffic, cfg: Config) returns (b: Backend)
    requires Reachable(f, g.(creates := g.creates[c := Creating(user, g.clock, Ending(victims))]), user, t, cfg)
    requires g.m.backend.Memcached? && cfg.expiration > 0 && Elements(victims) <= ids
    ensures Spared(g.m.backend, b, ids, user, g.clock)
    ensures var h := WithBackend(g, b).(creates := g.creates[c := Creating(user, g.clock, Ending([]))]);
      Reachable(f, h, user, t, cfg)
  {
    var h := g.(creates := g.creates[c := Creating(user, g.clock, Ending(victims))]);
    b := EndAll(f, h, c, ids, user, t, cfg);
    assert WithStage(WithBackend(h, b), c, Ending([]), g.clock)
        == WithBackend(g, b).(creates := g.creates[c := Creating(user, g.clock, Ending([]))]);
  }

  /** A create begins and makes room; only listed sessions can go. */
  lemma {:induction false} RoomFor(f: Flight, g: Flight, c: int, now: int, user: int, creates: map<int, Creating>,
        touches: map<int, Touch>, lost: set<string>, list: seq<string>, n: nat, t: Traffic, cfg: Config)
          returns (h: Flight)
    requires Reachable(f, g, user, t, cfg) && Losing(g, now, user, creates, touches, lost, list, n)
    requires c !in creates && |InFlight(g, user)| < t.creates && cfg.expiration > 0
    ensures Reachable(f, h, user, t, cfg)
    ensures Losing(h, now, user, creates[c := Creating(user, now, Ending([]))], touches, lost, list, n)
  {
    var victims := UpToDecision(f, g, c, list, user, t, cfg);
    var b := EndFrom(f, g, c, victims, Elements(list), user, t, cfg);
    var creates' := creates[c := Creating(user, now, Ending([]))];
    SparedLosing(g, now, user, creates, touches, lost, list, n, b, creates');
    h := WithBackend(g, b).(creates := creates');
  }

  /** A create that made room sets its session and reads the list. */
  lemma {:induction false} PlacedLosing(g: Flight, c: int, now: int, user: int, creates: map<int, Creating>,
        touches: map<int, Touch>, lost: set<string>, list: seq<string>, n: nat, cfg: Config, h: Flight)
    requires Losing(g, now, user, creates, touches, lost, list, n) && cfg.expiration > 0
    requires c in creates
    requires var id := Text.Decimal(n);
      h == WithBackend(g, StoredBy(g.m.backend, NewSession(id, user, "", map[], now), now, cfg.expiration))
        .(used := g.used + {id}, creates := creates[c := Creating(user, now, Listing(id, list))])
    ensures var creates' := creates[c := Creating(user, now, Listing(Text.Decimal(n), list))];
      Losing(h, now, user, creates', touches, lost, list, n + 1)
    ensures Text.Decimal(n) in ActiveNow(h, user) && Text.Decimal(n) !in lost && Text.Decimal(n) !in list
  {
    NextId(n);
    assert Text.Decimal(n) !in Elements(list);
  }

  /** A list read earlier is written back: what it does not name is lost from then on. */
  lemma {:induction false} RewrittenLosing(g: Flight, now: int, user: int, creates: map<int, Creating>,
        touches: map<int, Touch>,
        lost: set<string>, list: seq<string>, n: nat, cfg: Config, ids: seq<string>, more: set<string>,
        creates': map<int, Creating>, touches': map<int, Touch>)
    requires Losing(g, now, user, creates, touches, lost, list, n) && cfg.expiration > 0
    requires Elements(ids) <= Ids(n) && more <= ActiveNow(g, user) && more !! Elements(ids)
    ensures var b := Rewriting(g.m.backend, user, ids, now, cfg.expiration);
      Losing(WithBackend(g, b).(creates := creates', touches := touches'), now, user, creates', touches', more, ids, n)
  {
  }

  lemma {:induction false} Appended(list: seq<string>, id: string, n: nat)
    requires Elements(list) <= Ids(n) && id in Ids(n) && id !in list
    ensures MemcachedStorage.WithId(list, id) == list + [id]
    ensures Elements(list + [id]) == Elements(list) + {id} && Elements(list + [id]) <= Ids(n)
  {
    ElementsSplit(list + [id]);
    assert (list + [id])[..|list|] == list;
  }

  lemma {:induction false} StillOpen(g: Flight, h: Flight, c: int, user: int)
    requires c !in g.creates && h.touches == g.touches
    requires h.creates == g.creates[c := Creating(user, g.clock, Ending([]))]
    ensures OpenCreates(h, user) == OpenCreates(g, user) && OpenTouches(h, user) == OpenTouches(g, user)
  {
  }

  /** A whole create, up to reading the list. */
  lemma {:induction false} CreateUpToList(f: Flight, g: Flight, c: int, now: int, user: int,
        creates: map<int, Creating>,
        touches: map<int, Touch>, lost: set<string>, list: seq<string>, n: nat, t: Traffic, cfg: Config)
          returns (h: Flight)
    requires Reachable(f, g, user, t, cfg) && Losing(g, now, user, creates, touches, lost, list, n)
    requires c !in creates && |InFlight(g, user)| < t.creates && cfg.expiration > 0
    requires |OpenCreates(g, user)| + |OpenTouches(g, user)| < t.open
    ensures Reachable(f, h, user, t, cfg)
    ensures var creates' := creates[c := Creating(user, now, Listing(Text.Decimal(n), list))];
      Losing(h, now, user, creates', touches, lost, list, n + 1)
    ensures Text.Decimal(n) in ActiveNow(h, user) && Text.Decimal(n) !in lost && Text.Decimal(n) !in list
  {
    NextId(n);
    var g1 := RoomFor(f, g, c, now, user, creates, touches, lost, list, n, t, cfg);
    StillOpen(g, g1, c, user);
    h := PlaceNext(f, g1, c, Text.Decimal(n), user, t, cfg);
    var creates1 := creates[c := Creating(user, now, Ending([]))];
    PlacedLosing(g1, c, now, user, creates1, touches, lost, list, n, cfg, h);
    assert creates1[c := Creating(user, now, Listing(Text.Decimal(n), list))]
        == creates[c := Creating(user, now, Listing(Text.Decimal(n), list))];
  }

  /** A whole create. */
  lemma {:induction false} WholeCreate(f: Flight, g: Flight, c: int, now: int, user: int, creates: map<int, Creating>,
        touches: map<int, Touch>, lost: set<string>, list: seq<string>, n: nat, t: Traffic, cfg: Config)
          returns (h: Flight)
    requires Reachable(f, g, user, t, cfg) && Losing(g, now, user, creates, touches, lost, list, n)
    requires c !in creates && |InFlight(g, user)| < t.creates && cfg.expiration > 0
    requires |OpenCreates(g, user)| + |OpenTouches(g, user)| < t.open
    ensures Reachable(f, h, user, t, cfg)
    ensures Losing(h, now, user, creates, touches, lost, list + [Text.Decimal(n)], n + 1)
    ensures Text.Decimal(n) in ActiveNow(h, user) && Text.Decimal(n) !in lost && Text.Decimal(n) !in list
    ensures MemcachedStorage.Indexed(h.m.backend.memcached, user, now)
  {
    var id := Text.Decimal(n);
    var g1 := CreateUpToList(f, g, c, now, user, creates, touches, lost, list, n, t, cfg);
    NextId(n);
    Appended(list, id, n + 1);
    h := WriteNext(f, g1, c, user, t, cfg);
    ListedLosing(g1, c, now, user, creates, touches, lost, list, id, n + 1, cfg, h);
  }

  /** A create writes the list it read: none is lost. */
  lemma {:induction false} ListedLosing(g: Flight, c: int, now: int, user: int, creates: map<int, Creating>,
        touches: map<int, Touch>, lost: set<string>, list: seq<string>, id: string, n: nat, cfg: Config, h: Flight)
    requires c !in creates && cfg.expiration > 0 && id !in lost && Elements(list + [id]) <= Ids(n)
    requires Elements(list + [id]) == Elements(list) + {id}
    requires Losing(g, now, user, creates[c := Creating(user, now, Listing(id, list))], touches, lost, list, n)
    requires h == WithBackend(g, Rewriting(g.m.backend, user, list + [id], now, cfg.expiration))
      .(creates := g.creates - {c})
    ensures Losing(h, now, user, creates, touches, lost, list + [id], n)
    ensures ActiveNow(h, user) == ActiveNow(g, user)
    ensures MemcachedStorage.Indexed(h.m.backend.memcached, user, now)
  {
    assert g.creates - {c} == creates;
    RewrittenLosing(g, now, user, g.creates, touches, lost, list, n, cfg, list + [id], lost, creates, touches);
  }

  lemma {:induction false} NothingOpen(g: Flight, user: int)
    requires g.creates == map[] && g.touches == map[]
    ensures InFlight(g, user) == {} && OpenCreates(g, user) == {} && OpenTouches(g, user) == {}
  {
    assert InFlight(g, user) == {};
    assert OpenCreates(g, user) == {};
    assert OpenTouches(g, user) == {};
  }

  /** Two creates that overlap in rewriting the list: one more session is lost. */
  lemma {:induction false} LoseByCreate(f: Flight, g: Flight, now: int, user: int, lost: set<string>,
        list: seq<string>, n: nat,
        t: Traffic, cfg: Config) returns (h: Flight, list': seq<string>)
    requires Reachable(f, g, user, t, cfg) && Losing(g, now, user, map[], map[], lost, list, n)
    requires t.creates >= 2 && t.open >= 2 && cfg.expiration > 0
    ensures Reachable(f, h, user, t, cfg)
    ensures exists id :: id !in lost && Losing(h, now, user, map[], map[], lost + {id}, list', n + 2)
  {
    var a, b := Text.Decimal(n), Text.Decimal(n + 1);
    NothingOpen(g, user);
    var g1 := CreateUpToList(f, g, 0, now, user, map[], map[], lost, list, n, t, cfg);
    assert InFlight(g1, user) == {0} && OpenCreates(g1, user) == {0} && OpenTouches(g1, user) == {};
    var g2 := WholeCreate(f, g1, 1, now, user, g1.creates, map[], lost, list, n + 1, t, cfg);
    NextId(n);
    NextId(n + 1);
    assert b !in Elements(list) && b != a && b !in lost;
    h := WriteOver(f, g2, now, user, a, b, lost, list, n + 2, t, cfg);
    list' := list + [a];
  }

  /** The first of two overlapping creates writes the list back over the second's. */
  lemma {:induction false} WriteOver(f: Flight, g: Flight, now: int, user: int, a: string, b: string, lost: set<string>,
        list: seq<string>, n: nat, t: Traffic, cfg: Config) returns (h: Flight)
    requires Reachable(f, g, user, t, cfg) && cfg.expiration > 0
    requires Losing(g, now, user, map[0 := Creating(user, now, Listing(a, list))], map[], lost, list + [b], n)
    requires a in Ids(n) && a !in list && a !in lost && b != a && b !in Elements(list) && b in ActiveNow(g, user)
    ensures Reachable(f, h, user, t, cfg) && Losing(h, now, user, map[], map[], lost + {b}, list + [a], n)
  {
    ElementsSplit(list + [b]);
    assert (list + [b])[..|list|] == list;
    Appended(list, a, n);
    h := WriteNext(f, g, 0, user, t, cfg);
    RewrittenLosing(g, now, user, g.creates, map[], lost, list + [b], n, cfg, list + [a], lost + {b}, map[], map[]);
    assert g.creates - {0} == map[];
    var written := Rewriting(g.m.backend, user, list + [a], now, cfg.expiration);
    assert h == WithBackend(g, written).(creates := map[], touches := map[]);
  }

  /** A create within the list half of an update: its session is lost. */
  lemma {:induction false} LoseByTouch(f: Flight, g: Flight, now: int, user: int, lost: set<string>,
        list: seq<string>, n: nat,
        t: Traffic, cfg: Config) returns (h: Flight)
    requires Reachable(f, g, user, t, cfg) && Losing(g, now, user, map[], map[], lost, list, n)
    requires MemcachedStorage.Indexed(g.m.backend.memcached, user, now)
    requires t.creates >= 1 && t.touches >= 1 && t.open >= 2 && cfg.expiration > 0
    ensures Reachable(f, h, user, t, cfg)
    ensures exists id :: id !in lost && Losing(h, now, user, map[], map[], lost + {id}, list, n + 1)
    ensures MemcachedStorage.Indexed(h.m.backend.memcached, user, now)
  {
    var b := Text.Decimal(n);
    NothingOpen(g, user);
    var g1 := Moved(g, TouchRead(0, user, now), cfg);
    assert InFlight(g1, user) == {} && OpenCreates(g1, user) == {} && OpenTouches(g1, user) == {0};
    Go(f, g, TouchRead(0, user, now), user, t, cfg);
    var g2 := WholeCreate(f, g1, 0, now, user, map[], g1.touches, lost, list, n, t, cfg);
    NextId(n);
    h := Moved(g2, TouchWrite(0, now), cfg);
    RewrittenLosing(g2, now, user, map[], g1.touches, lost, list + [b], n + 1, cfg, list, lost + {b}, map[], map[]);
    assert g1.touches - {0} == map[];
    NothingOpen(h, user);
    Go(f, g2, TouchWrite(0, now), user, t, cfg);
    assert b !in lost;
  }

  /** The start, or where there must be a list to touch, the state after one create. */
  lemma {:induction false} LoseNone(b: Backend, now: int, user: int, t: Traffic, cfg: Config)
    returns (g: Flight, list: seq<string>, n: nat)
    requires IsEmpty(b) && b.Memcached? && cfg.expiration > 0 && t.creates >= 1 && t.open >= 2
    ensures Reachable(Start(b, now), g, user, t, cfg) && Losing(g, now, user, map[], map[], {}, list, n)
    ensures t.creates == 1 ==> MemcachedStorage.Indexed(g.m.backend.memcached, user, now)
  {
    var f := Start(b, now);
    StartReachable(b, now, user, t, cfg);
    g, list, n := f, [], 0;
    assert Elements(list) == {} && Losing(g, now, user, map[], map[], {}, list, n);
    if t.creates == 1 {
      NothingOpen(g, user);
      g := WholeCreate(f, g, 0, now, user, map[], map[], {}, list, n, t, cfg);
      list, n := list + [Text.Decimal(0)], 1;
    }
  }

  lemma {:induction false} LoseOne(f: Flight, g: Flight, now: int, user: int, lost: set<string>, list: seq<string>,
        n: nat,
        t: Traffic, cfg: Config) returns (h: Flight, more: set<string>, list': seq<string>, n': nat)
    requires Reachable(f, g, user, t, cfg) && Losing(g, now, user, map[], map[], lost, list, n)
    requires t.creates == 1 ==> MemcachedStorage.Indexed(g.m.backend.memcached, user, now)
    requires t.creates >= 1 && t.open >= 2 && t.creates + t.touches >= 2 && cfg.expiration > 0
    ensures Reachable(f, h, user, t, cfg) && Losing(h, now, user, map[], map[], more, list', n') && |more| == |lost| + 1
    ensures t.creates == 1 ==> MemcachedStorage.Indexed(h.m.backend.memcached, user, now)
  {
    if t.creates == 1 {
      list', n' := list, n + 1;
      h := LoseByTouch(f, g, now, user, lost, list, n, t, cfg);
    } else {
      n' := n + 2;
      h, list' := LoseByCreate(f, g, now, user, lost, list, n, t, cfg);
    }
    var id :| id !in lost && Losing(h, now, user, map[], map[], lost + {id}, list', n');
    more := lost + {id};
  }

  /** Round after round, `many` sessions are lost. */
  lemma {:induction false} LoseMany(b: Backend, now: int, user: int, many: nat, t: Traffic, cfg: Config)
    returns (g: Flight, lost: set<string>, list: seq<string>, n: nat)
    requires IsEmpty(b) && b.Memcached? && cfg.expiration > 0
    requires t.creates >= 1 && t.open >= 2 && t.creates + t.touches >= 2
    ensures Reachable(Start(b, now), g, user, t, cfg)
    ensures Losing(g, now, user, map[], map[], lost, list, n) && |lost| == many
    ensures t.creates == 1 ==> MemcachedStorage.Indexed(g.m.backend.memcached, user, now)
  {
    if many == 0 {
      lost := {};
      g, list, n := LoseNone(b, now, user, t, cfg);
    } else {
      g, lost, list, n := LoseMany(b, now, user, many - 1, t, cfg);
      g, lost, list, n := LoseOne(Start(b, now), g, now, user, lost, list, n, t, cfg);
    }
  }

  // ------------------------------------------------------------- exactly when the limit holds

  /** Over all runs within the traffic `t` the user stays within the limit, loosened by the creates in flight. */
  ghost predicate KeepsCap(b: Backend, start: int, user: int, t: Traffic, cfg: Config) {
    forall moves | IsRun(Start(b, start), moves, user, t, cfg) ::
      |ActiveNow(After(Start(b, start), moves, cfg), user)| <= SessionCap.Cap(cfg.maxSessions) - 1 + t.creates
  }

  /** The losing runs pass every bound. */
  lemma {:induction false} CapLost(b: Backend, start: int, user: int, t: Traffic, cfg: Config, bound: nat)
    returns (moves: seq<Move>)
    requires IsEmpty(b) && b.Memcached? && cfg.expiration > 0
    requires t.creates >= 1 && t.open >= 2 && t.creates + t.touches >= 2
    ensures IsRun(Start(b, start), moves, user, t, cfg)
    ensures |ActiveNow(After(Start(b, start), moves, cfg), user)| > bound
  {
    var g, lost, list, n := LoseMany(b, start, user, bound + 1, t, cfg);
    FullSubset(lost, ActiveNow(g, user));
    moves :| Leads(Start(b, start), moves, g, user, t, cfg);
  }

  /**
   The bound holds over all runs exactly when the index is not rewritten at all, as on Redis, or no two
   rewrites of the user's list can be open together, one of them a create's.
   */
  lemma {:induction false} CapKeptExactly(b: Backend, start: int, user: int, t: Traffic, cfg: Config)
    requires IsEmpty(b) && cfg.expiration > 0
    ensures KeepsCap(b, start, user, t, cfg)
      <==> b.Redis? || t.open <= 1 || t.creates == 0 || t.creates + t.touches <= 1
  {
    if b.Redis? || t.open <= 1 || t.creates == 0 || t.creates + t.touches <= 1 {
      forall moves | IsRun(Start(b, start), moves, user, t, cfg)
        ensures |ActiveNow(After(Start(b, start), moves, cfg), user)| <= SessionCap.Cap(cfg.maxSessions) - 1 + t.creates
      {
        if b.Redis? || t.open <= 1 {
          FlightCap.CapInFlight(b, start, moves, user, t, cfg);
        } else if t.creates == 0 {
          FlightCap.NoneNeverOverlap(b, start, moves, user, t, cfg);
          FlightCap.CapInFlight(b, start, moves, user, t.(open := 0), cfg);
        } else {
          FlightCap.FewNeverOverlap(Start(b, start), moves, user, t, cfg);
          FlightCap.CapInFlight(b, start, moves, user, t.(open := 1), cfg);
        }
      }
    } else {
      var moves := CapLost(b, start, user, t, cfg, SessionCap.Cap(cfg.maxSessions) - 1 + t.creates);
    }
  }
}
