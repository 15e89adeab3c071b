/**
 A create whose steps nothing comes between is the create of SessionBackends, and the list half of an
 update is likewise that of MemcachedStorage.
 */
module FlightAlone {
  import opened Ordering
  import opened Expiring
  import opened Servers
  import opened SessionModel
  import opened SessionBackends
  import opened BackendFlight
  import MemcachedStorage

  ghost predicate Possible(f: Flight, moves: seq<Move>, cfg: Config)
    decreases |moves|
  {
    moves == [] ||
    (Possible(f, moves[..|moves| - 1], cfg) && Enabled(After(f, moves[..|moves| - 1], cfg), moves[|moves| - 1]))
  }

  /** `moves` lead from `f` to `g`. */
  ghost predicate Path(f: Flight, moves: seq<Move>, g: Flight, cfg: Config) {
    Possible(f, moves, cfg) && After(f, moves, cfg) == g
  }

  lemma {:induction false} OneMore(f: Flight, moves: seq<Move>, g: Flight, v: Move, cfg: Config)
    requires Path(f, moves, g, cfg) && Enabled(g, v)
    ensures Path(f, moves + [v], Moved(g, v, cfg), cfg)
  {
    assert (moves + [v])[..|moves|] == moves;
  }

  /** The sessions found so far are the active ones of those listed so far, with their last activity. */
  ghost predicate FoundSoFar(s: Stage, listed: seq<string>, es: Entries, now: int) {
    && s.Fetching? && |s.rest| <= |listed| && s.rest == listed[|listed| - |s.rest|..]
    && s.found == Keep(listed[..|listed| - |s.rest|], Active(es, now))
    && Covers(s.lastUsed, s.found)
    && forall k | k in s.found :: k in es && s.lastUsed[k] == es[k].data.lastActivity
  }

  lemma {:induction false} FoundNext(s: Stage, listed: seq<string>, es: Entries, now: int)
    requires FoundSoFar(s, listed, es, now) && s.rest != []
    ensures FoundSoFar(FetchedNext(es, s, now), listed, es, now) && |FetchedNext(es, s, now).rest| == |s.rest| - 1
  {
    var n := |listed| - |s.rest|;
    assert listed[n] == s.rest[0] && listed[..n + 1] == listed[..n] + [listed[n]];
    KeepAppend(listed[..n], listed[n], Active(es, now));
  }

  lemma {:induction false} FetchRest(f: Flight, moves: seq<Move>, g: Flight, c: int, listed: seq<string>, cfg: Config)
    returns (more: seq<Move>, s: Stage)
    requires Path(f, moves, g, cfg) && c in g.creates
    requires FoundSoFar(g.creates[c].stage, listed, SessionsOf(g.m.backend), g.clock)
    ensures Path(f, more, WithStage(g, c, s, g.clock), cfg)
    ensures FoundSoFar(s, listed, SessionsOf(g.m.backend), g.clock) && s.rest == []
    decreases |g.creates[c].stage.rest|
  {
    more, s := moves, g.creates[c].stage;
    assert WithStage(g, c, s, g.clock) == g;
    if s.rest != [] {
      var s' := FetchedNext(SessionsOf(g.m.backend), s, g.clock);
      FoundNext(s, listed, SessionsOf(g.m.backend), g.clock);
      OneMore(f, moves, g, Fetch(c, g.clock), cfg);
      var h := WithStage(g, c, s', g.clock);
      more, s := FetchRest(f, moves + [Fetch(c, g.clock)], h, c, listed, cfg);
      assert WithStage(h, c, s, g.clock) == WithStage(g, c, s, g.clock);
    }
  }

  lemma {:induction false} DecidedVictims(s: Stage, listed: seq<string>, es: Entries, now: int, max: int)
    requires FoundSoFar(s, listed, es, now) && s.rest == []
    ensures Decided(s, max) == Ending(Victims(es, listed, now, max))
  {
    assert listed[..|listed|] == listed;
    KeepMembers(listed, Active(es, now));
    SortWeights(s.found, s.lastUsed, LastUsed(es));
  }

  lemma {:induction false} EndRest(f: Flight, moves: seq<Move>, g: Flight, c: int, b: Backend, done: seq<string>,
        victims: seq<string>, cfg: Config)
    returns (more: seq<Move>)
    requires Path(f, moves, g, cfg) && c in g.creates && g.creates[c].stage == Ending(victims)
    requires g.m.backend == TerminatedAll(b, done, g.clock, cfg)
    ensures Path(f, more,
                 WithStage(WithBackend(g, TerminatedAll(b, done + victims, g.clock, cfg)), c, Ending([]), g.clock), cfg)
    decreases |victims|
  {
    more := moves;
    if victims == [] {
      assert done + victims == done;
      assert WithStage(WithBackend(g, g.m.backend), c, Ending([]), g.clock) == g;
    } else {
      var next := done + [victims[0]];
      assert next[..|done|] == done && done + victims == next + victims[1..];
      OneMore(f, moves, g, EndOne(c, g.clock), cfg);
      var b1 := TerminatedAll(b, next, g.clock, cfg);
      var h := WithStage(WithBackend(g, b1), c, Ending(victims[1..]), g.clock);
      more := EndRest(f, moves + [EndOne(c, g.clock)], h, c, b, next, victims[1..], cfg);
      var b2 := TerminatedAll(b, done + victims, g.clock, cfg);
      assert WithStage(WithBackend(h, b2), c, Ending([]), g.clock)
          == WithStage(WithBackend(g, b2), c, Ending([]), g.clock);
    }
  }

  /** A create begins, and reads and fetches what the index lists. */
  lemma {:induction false} Fetched(f: Flight, c: int, user: int, listed: seq<string>, cfg: Config)
    returns (moves: seq<Move>, s: Stage, g: Flight)
    requires c !in f.creates && MayList(f.m.backend, user, f.clock, listed)
    ensures Path(f, moves, g, cfg) && g == f.(creates := f.creates[c := Creating(user, f.clock, s)])
    ensures FoundSoFar(s, listed, SessionsOf(f.m.backend), f.clock) && s.rest == []
  {
    var now := f.clock;
    var g1 := f.(creates := f.creates[c := Creating(user, now, Begun)]);
    OneMore(f, [], f, Begin(c, user, now), cfg);
    assert Moved(f, Begin(c, user, now), cfg) == g1;
    var g2 := WithStage(g1, c, Fetching(listed, [], map[]), now);
    OneMore(f, [] + [Begin(c, user, now)], g1, ReadIndex(c, listed, now), cfg);
    assert listed[..0] == [];
    moves, s := FetchRest(f, [] + [Begin(c, user, now)] + [ReadIndex(c, listed, now)], g2, c, listed, cfg);
    g := WithStage(g2, c, s, now);
    assert g.creates == f.creates[c := Creating(user, now, s)];
  }

  /** It decides and ends its victims. */
  lemma {:induction false} Decides(f: Flight, moves: seq<Move>, g: Flight, c: int, listed: seq<string>, cfg: Config)
    returns (more: seq<Move>)
    requires Path(f, moves, g, cfg) && c in g.creates && g.creates[c].stage.Fetching? && g.creates[c].stage.rest == []
    requires FoundSoFar(g.creates[c].stage, listed, SessionsOf(g.m.backend), g.clock)
    ensures var b := Enforced(g.m.backend, listed, g.clock, cfg);
      Path(f, more, WithStage(WithBackend(g, b), c, Ending([]), g.clock), cfg)
  {
    var b, now := g.m.backend, g.clock;
    var victims := Victims(SessionsOf(b), listed, now, cfg.maxSessions);
    OneMore(f, moves, g, Decide(c, now), cfg);
    DecidedVictims(g.creates[c].stage, listed, SessionsOf(b), now, cfg.maxSessions);
    var h := WithStage(g, c, Ending(victims), now);
    more := EndRest(f, moves + [Decide(c, now)], h, c, b, [], victims, cfg);
    assert [] + victims == victims;
    var b' := Enforced(b, listed, now, cfg);
    assert WithStage(WithBackend(h, b'), c, Ending([]), now) == WithStage(WithBackend(g, b'), c, Ending([]), now);
  }

  /** From the beginning until room is made. */
  lemma {:induction false} RoomMade(f: Flight, c: int, user: int, listed: seq<string>, cfg: Config)
    returns (moves: seq<Move>, g: Flight)
    requires c !in f.creates && MayList(f.m.backend, user, f.clock, listed)
    ensures Path(f, moves, g, cfg)
    ensures g == WithBackend(f, Enforced(f.m.backend, listed, f.clock, cfg))
      .(creates := f.creates[c := Creating(user, f.clock, Ending([]))])
  {
    var s, h := Begun, f;
    moves, s, h := Fetched(f, c, user, listed, cfg);
    moves := Decides(f, moves, h, c, listed, cfg);
    g := WithStage(WithBackend(h, Enforced(f.m.backend, listed, f.clock, cfg)), c, Ending([]), f.clock);
    assert g.creates == f.creates[c := Creating(user, f.clock, Ending([]))];
  }

  /** A create that made room stores its session; on Memcached it reads and writes the list besides. */
  lemma {:induction false} Placed(f: Flight, moves: seq<Move>, g: Flight, c: int, id: string, origin: string,
        metadata: map<string, MetaValue>, creates: map<int, Creating>, cfg: Config)
    returns (more: seq<Move>, h: Flight)
    requires Path(f, moves, g, cfg) && c in g.creates && g.creates[c].stage == Ending([]) && id !in g.used
    requires g.creates[c].started == g.clock && c !in creates && g.creates == creates[c := g.creates[c]]
    ensures Path(f, more, h, cfg)
    ensures var s := NewSession(id, g.creates[c].user, origin, metadata, g.clock);
      h == WithBackend(g, Put(g.m.backend, s, g.clock, cfg.expiration)).(used := g.used + {id}, creates := creates)
  {
    var store := Store(c, id, origin, metadata, g.clock);
    OneMore(f, moves, g, store, cfg);
    more, h := moves + [store], Moved(g, store, cfg);
    assert g.creates - {c} == creates;
    if g.m.backend.Memcached? {
      more, h := ListWritten(f, more, h, c, creates, cfg);
    }
  }

  lemma {:induction false} ListWritten(f: Flight, moves: seq<Move>, g: Flight, c: int, creates: map<int, Creating>,
        cfg: Config)
    returns (more: seq<Move>, h: Flight)
    requires Path(f, moves, g, cfg) && c in g.creates && g.creates[c].stage.Placed? && g.m.backend.Memcached?
    requires c !in creates && g.creates == creates[c := g.creates[c]]
    ensures Path(f, more, h, cfg)
    ensures var m, user := g.m.backend.memcached, g.creates[c].user;
      var ids := MemcachedStorage.WithId(MemcachedStorage.Listed(m, user, g.clock), g.creates[c].stage.id);
      h == WithBackend(g, Rewriting(g.m.backend, user, ids, g.clock, cfg.expiration)).(creates := creates)
  {
    OneMore(f, moves, g, ReadList(c, g.clock), cfg);
    more, h := moves + [ReadList(c, g.clock)], Moved(g, ReadList(c, g.clock), cfg);
    assert h.creates - {c} == creates;
    OneMore(f, more, h, WriteList(c, g.clock), cfg);
    more, h := more + [WriteList(c, g.clock)], Moved(h, WriteList(c, g.clock), cfg);
  }

  /**
   The steps of a create one after the other, at one instant and with nothing in between, are what
   `SessionBackends.Step` takes a create to be.
   */
  lemma {:induction false} AloneIsCreate(f: Flight, c: int, e: Event, listed: seq<string>, cfg: Config)
    returns (moves: seq<Move>, h: Flight)
    requires e.Create? && e.now == f.clock && e.id !in f.used && c !in f.creates
    requires MayList(f.m.backend, e.user, f.clock, listed)
    ensures Path(f, moves, h, cfg)
    ensures h == f.(m := Step(f.m, Call(e, listed), cfg).0, used := f.used + {e.id})
  {
    var g;
    moves, g := RoomMade(f, c, e.user, listed, cfg);
    moves, h := Placed(f, moves, g, c, e.id, e.origin, e.metadata, f.creates, cfg);
  }

  /** Whatever comes between, a create keeps its user and the instant it began. */
  lemma {:induction false} CreateKeepsStart(f: Flight, v: Move, c: int, cfg: Config)
    requires Enabled(f, v)
    ensures var f' := Moved(f, v, cfg);
      if v.Begin? && c == v.c then c in f'.creates && f'.creates[c].user == v.user && f'.creates[c].started == v.now
      else c in f'.creates ==>
        c in f.creates && f'.creates[c].user == f.creates[c].user && f'.creates[c].started == f.creates[c].started
  {
  }

  /** What it stores in the end is dated at the storing, and last used when the create began. */
  lemma {:induction false} StoreCarries(f: Flight, v: Move, cfg: Config)
    requires v.Store? && Enabled(f, v)
    ensures var user, started := f.creates[v.c].user, f.creates[v.c].started;
      var s := SessionData(user, v.id, v.origin, v.now, started, true, v.metadata);
      SessionsOf(Moved(f, v, cfg).m.backend) == SessionsOf(f.m.backend)[v.id := Entry(s, v.now + cfg.expiration)]
  {
  }

  /** Reading the list and writing it back at once is the list half of an update. */
  lemma {:induction false} AloneIsRewrite(f: Flight, c: int, user: int, cfg: Config)
    requires f.m.backend.Memcached? && c !in f.touches
    requires MemcachedStorage.Indexed(f.m.backend.memcached, user, f.clock)
    ensures var moves := [TouchRead(c, user, f.clock), TouchWrite(c, f.clock)];
      var s := f.m.backend.memcached;
      var s' := MemcachedStorage.Rewritten(s, user, f.clock, f.clock + cfg.expiration + 3600);
      Path(f, moves, WithBackend(f, Memcached(s')), cfg)
  {
    var read, write := TouchRead(c, user, f.clock), TouchWrite(c, f.clock);
    OneMore(f, [], f, read, cfg);
    OneMore(f, [read], Moved(f, read, cfg), write, cfg);
    var touch := Touch(user, MemcachedStorage.Listed(f.m.backend.memcached, user, f.clock));
    assert f.touches[c := touch] - {c} == f.touches;
    assert [] + [read] == [read] && [read] + [write] == [read, write];
  }
}
