/**
 The fixed-window rate limiter over Memcached, where reading a counter and writing it back are two
 steps that other calls may come between.
 */
module MemcachedLimiter {
  import opened LostUpdates
  import opened RateLimit

  class MemcachedRateLimiter {
    var windows: map<WindowKey, Counter>
    var counters: map<string, Counter>

    constructor ()
      ensures windows == map[] && counters == map[]
    {
      windows, counters := map[], map[];
    }

    method GetWindow(k: WindowKey, now: int) returns (value: int)
      ensures value == Value(windows, k, now)
    {
      value := if k in windows && now < windows[k].deadline then windows[k].value else 0;
    }

    method SetWindow(k: WindowKey, value: int, exptime: int, now: int)
      modifies this`windows
      ensures windows == old(windows)[k := Counter(value, now + exptime)]
    {
      windows := windows[k := Counter(value, now + exptime)];
    }

    /** One whole call without interference does what the Redis limiter does. */
    method IncrementAndCheck(key: string, limit: int, period: int, now: int) returns (count: int, limited: bool)
      requires period > 0
      modifies this`windows
      ensures windows == Bumped(old(windows), WindowKey(key, WindowStart(now, period)), 1, period, now)
      ensures count == Value(old(windows), WindowKey(key, WindowStart(now, period)), now) + 1
      ensures limited == (count > limit)
    {
      var k := WindowKey(key, now - now % period);
      count := GetWindow(k, now);
      count := count + 1;
      SetWindow(k, count, period, now);
      limited := count > limit;
    }

    method Increment(key: string, amount: int, expiry: int, now: int) returns (count: int)
      modifies this`counters
      ensures counters == Bumped(old(counters), key, amount, expiry, now)
      ensures count == Value(old(counters), key, now) + amount
    {
      var current := if key in counters && now < counters[key].deadline then counters[key].value else 0;
      count := current + amount;
      counters := counters[key := Counter(count, now + expiry)];
    }

    method Delete(key: string)
      modifies this`counters
      ensures counters == old(counters) - {key}
    {
      counters := counters - {key};
    }
  }

  // ------------------------------------------------------------- interleaved calls

  type WindowMove = Move<WindowKey>

  ghost predicate Ordered(moves: seq<WindowMove>) {
    forall i, j | 0 <= i <= j < |moves| :: moves[i].now <= moves[j].now
  }

  /** Every get is on the counter of its own window. */
  ghost predicate Windowed(moves: seq<WindowMove>) {
    forall i | 0 <= i < |moves| && moves[i].GetStep? ::
      moves[i].ttl > 0 && moves[i].k.start == WindowStart(moves[i].now, moves[i].ttl)
  }

  /** All calls on `key` have the same limit and period. */
  ghost predicate OneLimit(moves: seq<WindowMove>, key: string, limit: int, period: int) {
    forall i | 0 <= i < |moves| && moves[i].GetStep? && moves[i].k.key == key ::
      moves[i].limit == limit && moves[i].ttl == period
  }

  ghost predicate Lasting(moves: seq<WindowMove>, k: WindowKey, period: int) {
    var s := Reached(moves);
    && (k in s.counters ==> k.start + period <= s.counters[k].deadline)
    && forall c | c in Open(s, k) :: s.calls[c].ttl == period && moves != [] && k.start <= moves[|moves| - 1].now
  }

  lemma {:induction false} LastingOn(moves: seq<WindowMove>, k: WindowKey, period: int)
    requires moves != [] && Lasting(moves[..|moves| - 1], k, period)
    requires |moves| > 1 ==> moves[|moves| - 2].now <= moves[|moves| - 1].now
    requires var v := moves[|moves| - 1]; v.GetStep? && v.k == k ==> v.ttl == period && k.start <= v.now
    ensures Lasting(moves, k, period)
  {
    var before, v := moves[..|moves| - 1], moves[|moves| - 1];
    assert before != [] ==> before[|before| - 1] == moves[|moves| - 2];
    forall c | c in Open(Reached(moves), k)
      ensures Reached(moves).calls[c].ttl == period && k.start <= v.now
    {
      if !(v.GetStep? && c == v.c) {
        assert c in Open(Reached(before), k);
      }
    }
    if v.SetStep? && v.c in Reached(before).calls && Reached(before).calls[v.c].k == k {
      assert v.c in Open(Reached(before), k);
    }
  }

  /** No counter expires inside its window, however late its sets come. */
  lemma {:induction false} WindowsTimely(moves: seq<WindowMove>, k: WindowKey, limit: int, period: int)
    requires Ordered(moves) && Windowed(moves) && OneLimit(moves, k.key, limit, period)
    ensures Timely(moves, k) && Lasting(moves, k, period)
  {
    if moves != [] {
      WindowsTimely(moves[..|moves| - 1], k, limit, period);
      LastingOn(moves, k, period);
    }
  }

  /** With one call at a time on a window, exactly the first `limit` that complete there are allowed. */
  lemma {:induction false} OneAtATime(moves: seq<WindowMove>, k: WindowKey, limit: int, period: int)
    requires Legal(moves) && Ordered(moves) && Windowed(moves) && OneLimit(moves, k.key, limit, period)
        && AtMostOpen(moves, k, 1)
    ensures Passed(moves, k) == Min(Sets(moves, k), Max(limit, 0))
  {
    WindowsTimely(moves, k, limit, period);
    LostUpdates.OneAtATime(moves, k, limit, period);
  }

  /** After `limit - 1` calls on their own, two that both read before either writes both pass. */
  lemma {:induction false} LostUpdate(key: string, limit: int, period: int) returns (moves: seq<WindowMove>)
    requires limit >= 1 && period > 0
    ensures Legal(moves) && Ordered(moves) && Windowed(moves) && OneLimit(moves, key, limit, period)
    ensures AtMostOpen(moves, WindowKey(key, 0), 2) && Passed(moves, WindowKey(key, 0)) == limit + 1
  {
    moves := LostUpdates.LostUpdate(WindowKey(key, 0), limit, period);
    WindowUnique(0, 0, period);
    forall i | 0 <= i < |moves| ensures OfBurst(moves[i], WindowKey(key, 0), limit, period) {
    }
  }

  /**
   Every run in which at most `n` calls on `key` are open in a window at a time allows at most
   `limit` of them there.
   */
  ghost predicate KeepsWindowLimit(key: string, limit: int, period: int, n: nat) {
    forall moves: seq<WindowMove>, start: int
      | Legal(moves) && Ordered(moves) && Windowed(moves) && OneLimit(moves, key, limit, period)
        && AtMostOpen(moves, WindowKey(key, start), n) ::
      Passed(moves, WindowKey(key, start)) <= Max(limit, 0)
  }

  /** The limit is kept over all runs exactly when calls on a window come one at a time, or none is to be allowed. */
  lemma {:induction false} LimitKeptExactly(key: string, limit: int, period: int, n: nat)
    requires period > 0
    ensures KeepsWindowLimit(key, limit, period, n) <==> n <= 1 || limit <= 0
  {
    if n <= 1 || limit <= 0 {
      forall moves: seq<WindowMove>, start: int
        | Legal(moves) && Ordered(moves) && Windowed(moves) && OneLimit(moves, key, limit, period)
          && AtMostOpen(moves, WindowKey(key, start), n)
        ensures Passed(moves, WindowKey(key, start)) <= Max(limit, 0)
      {
        WindowsTimely(moves, WindowKey(key, start), limit, period);
        Kept(moves, WindowKey(key, start), limit, period, n);
      }
    } else {
      var moves := LostUpdate(key, limit, period);
      AtMostMonotone(moves, WindowKey(key, 0), 2, n);
    }
  }

  // ------------------------------------------------------------- calls one after another

  function WindowGet(r: Request): WindowMove
    requires r.period > 0
  {
    GetStep(0, KeyOf(r), r.limit, r.period, r.now)
  }

  /** The counters after a run in which every get is followed by its own set at once. */
  function AfterSequential(reqs: seq<Request>): State<WindowKey>
    requires forall i | 0 <= i < |reqs| :: reqs[i].period > 0
  {
    if reqs == [] then State(map[], map[])
    else
      var r, s := reqs[|reqs| - 1], AfterSequential(reqs[..|reqs| - 1]);
      Moved(Moved(s, WindowGet(r)), SetStep(0, r.now))
  }

  /** The count the last call of a sequential run computes. */
  function LastSequentialCount(reqs: seq<Request>): int
    requires reqs != [] && forall i | 0 <= i < |reqs| :: reqs[i].period > 0
  {
    Moved(AfterSequential(reqs[..|reqs| - 1]), WindowGet(reqs[|reqs| - 1])).calls[0].read + 1
  }

  /** Without interference the two backends hold the same counters and give the same answers. */
  lemma {:induction false} SequentialEqualsRedis(reqs: seq<Request>)
    requires forall i | 0 <= i < |reqs| :: reqs[i].period > 0
    ensures AfterSequential(reqs) == State(RateLimit.After(reqs), map[])
    ensures reqs != [] ==> LastSequentialCount(reqs) == LastCount(reqs)
  {
    if reqs != [] {
      SequentialEqualsRedis(reqs[..|reqs| - 1]);
    }
  }
}
