/**
 The fixed-window rate limiter over Redis. A counter per key and aligned window, incremented and
 given a new deadline in one atomic pipeline. Times are whole seconds; a counter is alive strictly
 before its deadline.
 */
module RateLimit {
  import opened Text

  /** The stored key `"{key}:{window_start}"`, before it is written out. */
  datatype WindowKey = WindowKey(key: string, start: int)

  function WindowText(k: WindowKey): string
    requires k.start >= 0
  {
    k.key + ":" + Decimal(k.start)
  }

  lemma {:induction false} WindowTextTail(k: WindowKey)
    requires k.start >= 0
    ensures var t, n := WindowText(k), |Decimal(k.start)|;
      && n < |t| && t[..|t| - n - 1] == k.key && t[|t| - n - 1] == ':' && t[|t| - n..] == Decimal(k.start)
      && forall i | |t| - n <= i < |t| :: IsDigit(t[i])
  {
  }

  /** Written out, no two counters share a key, even when the limited keys contain colons and digits. */
  lemma {:induction false} WindowTextInjective(a: WindowKey, b: WindowKey)
    requires a.start >= 0 && b.start >= 0 && WindowText(a) == WindowText(b)
    ensures a == b
  {
    WindowTextTail(a);
    WindowTextTail(b);
    DecimalInjective(a.start, b.start);
    assert |Decimal(a.start)| == |Decimal(b.start)|;
  }

  datatype Counter = Counter(value: int, deadline: int)

  function Value<K>(c: map<K, Counter>, k: K, now: int): int {
    if k in c && now < c[k].deadline then c[k].value else 0
  }

  /** INCRBY followed by EXPIRE. */
  function Bumped<K>(c: map<K, Counter>, k: K, amount: int, ttl: int, now: int): map<K, Counter> {
    c[k := Counter(Value(c, k, now) + amount, now + ttl)]
  }

  function WindowStart(now: int, period: int): (start: int)
    requires period > 0
    ensures start <= now < start + period
  {
    now - now % period
  }

  class RedisRateLimiter {
    var windows: map<WindowKey, Counter>
    var counters: map<string, Counter>

    constructor ()
      ensures windows == map[] && counters == map[]
    {
      windows, counters := map[], map[];
    }

    method IncrementAndCheck(key: string, limit: int, period: int, now: int) returns (count: int, limited: bool)
      requires period > 0
      modifies this`windows
      ensures windows == Bumped(old(windows), WindowKey(key, WindowStart(now, period)), 1, period, now)
      ensures count == Value(old(windows), WindowKey(key, WindowStart(now, period)), now) + 1
      ensures limited == (count > limit)
    {
      var k := WindowKey(key, now - now % period);
      count := 1;
      if k in windows && now < windows[k].deadline {
        count := windows[k].value + 1;
      }
      windows := windows[k := Counter(count, now + period)];
      limited := count > limit;
    }

    method Increment(key: string, amount: int, expiry: int, now: int) returns (count: int)
      modifies this`counters
      ensures counters == Bumped(old(counters), key, amount, expiry, now)
      ensures count == Value(old(counters), key, now) + amount
    {
      count := amount;
      if key in counters && now < counters[key].deadline {
        count := counters[key].value + amount;
      }
      counters := counters[key := Counter(count, now + expiry)];
    }

    method Delete(key: string, now: int) returns (deleted: bool)
      modifies this`counters
      ensures counters == old(counters) - {key}
      ensures deleted == (key in old(counters) && now < old(counters)[key].deadline)
    {
      deleted := key in counters && now < counters[key].deadline;
      counters := counters - {key};
    }
  }

  // ------------------------------------------------------------- runs of calls

  datatype Request = Request(key: string, limit: int, period: int, now: int)

  /** Calls in time order, with one limit and one positive period per key. */
  ghost predicate Regular(reqs: seq<Request>) {
    && (forall i | 0 <= i < |reqs| :: reqs[i].period > 0)
    && (forall i, j | 0 <= i <= j < |reqs| :: reqs[i].now <= reqs[j].now)
    && forall i, j | 0 <= i < |reqs| && 0 <= j < |reqs| && reqs[i].key == reqs[j].key ::
         reqs[i].period == reqs[j].period && reqs[i].limit == reqs[j].limit
  }

  function KeyOf(r: Request): WindowKey
    requires r.period > 0
  {
    WindowKey(r.key, WindowStart(r.now, r.period))
  }

  function After(reqs: seq<Request>): map<WindowKey, Counter>
    requires forall i | 0 <= i < |reqs| :: reqs[i].period > 0
  {
    if reqs == [] then map[]
    else
      var r := reqs[|reqs| - 1];
      Bumped(After(reqs[..|reqs| - 1]), KeyOf(r), 1, r.period, r.now)
  }

  /** The count that the last call of the run is told. */
  function LastCount(reqs: seq<Request>): int
    requires reqs != [] && forall i | 0 <= i < |reqs| :: reqs[i].period > 0
  {
    var r := reqs[|reqs| - 1];
    Value(After(reqs[..|reqs| - 1]), KeyOf(r), r.now) + 1
  }

  predicate LastAllowed(reqs: seq<Request>)
    requires reqs != [] && forall i | 0 <= i < |reqs| :: reqs[i].period > 0
  {
    LastCount(reqs) <= reqs[|reqs| - 1].limit
  }

  /** How many calls on `key` fall into `[lo, hi)`. */
  function Calls(reqs: seq<Request>, key: string, lo: int, hi: int): nat {
    if reqs == [] then 0
    else
      var r := reqs[|reqs| - 1];
      Calls(reqs[..|reqs| - 1], key, lo, hi) + if r.key == key && lo <= r.now < hi then 1 else 0
  }

  /** How many of them are allowed. */
  function Allowed(reqs: seq<Request>, key: string, lo: int, hi: int): nat
    requires forall i | 0 <= i < |reqs| :: reqs[i].period > 0
  {
    if reqs == [] then 0
    else
      var r := reqs[|reqs| - 1];
      Allowed(reqs[..|reqs| - 1], key, lo, hi)
      + if r.key == key && lo <= r.now < hi && LastAllowed(reqs) then 1 else 0
  }

  /** The counters are those of the calls made, and none expires inside its window. */
  ghost predicate Exact(c: map<WindowKey, Counter>, reqs: seq<Request>, key: string, start: int, period: int) {
    var n, k := Calls(reqs, key, start, start + period), WindowKey(key, start);
    && (n == 0 ==> k !in c)
    && (n > 0 ==> k in c && c[k].value == n && start + period <= c[k].deadline)
  }

  lemma {:induction false} TimesMonotone(a: int, b: int, c: nat)
    requires a <= b
    ensures a * c <= b * c
  {
  }

  lemma {:induction false} LessFromProducts(a: int, b: int, c: nat)
    ensures a * c < b * c ==> a < b
  {
  }

  lemma {:induction false} QuotientIs(n: int, q: int, d: int)
    requires d > 0 && q * d <= n < q * d + d
    ensures n / d == q
  {
    var k := n / d;
    assert n == k * d + n % d;
    assert (q + 1) * d == q * d + d && (k + 1) * d == k * d + d;
    LessFromProducts(k, q + 1, d);
    LessFromProducts(q, k + 1, d);
  }

  /** The aligned window number `q` is the one every time in it belongs to. */
  lemma {:induction false} WindowUnique(now: int, q: int, period: int)
    requires period > 0 && q * period <= now < q * period + period
    ensures WindowStart(now, period) == q * period
  {
    QuotientIs(now, q, period);
    assert now == (now / period) * period + now % period;
  }

  lemma {:induction false} StartAligned(now: int, period: int)
    requires period > 0
    ensures WindowStart(now, period) == (now / period) * period
  {
  }

  lemma {:induction false} CountersExact(reqs: seq<Request>, key: string, q: int, period: int)
    requires Regular(reqs) && period > 0
    requires forall i | 0 <= i < |reqs| && reqs[i].key == key :: reqs[i].period == period
    ensures Exact(After(reqs), reqs, key, q * period, period)
  {
    if reqs != [] {
      var before, r := reqs[..|reqs| - 1], reqs[|reqs| - 1];
      CountersExact(before, key, q, period);
      if r.key == key && q * period <= r.now < q * period + period {
        WindowUnique(r.now, q, period);
      }
    }
  }

  /** Every call is told exactly how many calls its key has seen in the current window, itself included. */
  lemma {:induction false} CountIsExact(reqs: seq<Request>)
    requires Regular(reqs) && reqs != []
    ensures var r := reqs[|reqs| - 1];
      var start := WindowStart(r.now, r.period);
      LastCount(reqs) == Calls(reqs, r.key, start, start + r.period)
  {
    var before, r := reqs[..|reqs| - 1], reqs[|reqs| - 1];
    StartAligned(r.now, r.period);
    CountersExact(before, r.key, r.now / r.period, r.period);
  }

  /** A counter lives until one period after the last call on it, and no longer. */
  lemma {:induction false} CounterLasts(reqs: seq<Request>, k: WindowKey)
    requires (forall i | 0 <= i < |reqs| :: reqs[i].period > 0) && k in After(reqs)
    ensures exists i :: LastCallOn(reqs, k, i) && After(reqs)[k].deadline == reqs[i].now + reqs[i].period
  {
    var before, r := reqs[..|reqs| - 1], reqs[|reqs| - 1];
    if KeyOf(r) == k {
      assert LastCallOn(reqs, k, |reqs| - 1);
    } else {
      CounterLasts(before, k);
      var i :| LastCallOn(before, k, i) && After(before)[k].deadline == before[i].now + before[i].period;
      assert LastCallOn(reqs, k, i);
    }
  }

  ghost predicate LastCallOn(reqs: seq<Request>, k: WindowKey, i: int)
    requires forall i | 0 <= i < |reqs| :: reqs[i].period > 0
  {
    0 <= i < |reqs| && KeyOf(reqs[i]) == k && forall j | i < j < |reqs| :: KeyOf(reqs[j]) != k
  }

  function Min(a: int, b: int): int {
    if a < b then a else b
  }

  function Max(a: int, b: int): int {
    if a < b then b else a
  }

  /** Of the calls in an aligned window exactly the first `min(n, limit)` are allowed. */
  lemma {:induction false} WindowAllowsFirst(reqs: seq<Request>, key: string, q: int, limit: int, period: int)
    requires Regular(reqs) && period > 0
    requires forall i | 0 <= i < |reqs| && reqs[i].key == key :: reqs[i].period == period && reqs[i].limit == limit
    ensures var start := q * period;
      Allowed(reqs, key, start, start + period) == Min(Calls(reqs, key, start, start + period), Max(limit, 0))
  {
    if reqs != [] {
      var before, r := reqs[..|reqs| - 1], reqs[|reqs| - 1];
      WindowAllowsFirst(before, key, q, limit, period);
      if r.key == key && q * period <= r.now < q * period + period {
        WindowUnique(r.now, q, period);
        CountIsExact(reqs);
      }
    }
  }

  // ------------------------------------------------------------- any interval

  lemma {:induction false} AllowedSplits(reqs: seq<Request>, key: string, lo: int, mid: int, hi: int)
    requires forall i | 0 <= i < |reqs| :: reqs[i].period > 0
    requires lo <= mid <= hi
    ensures Allowed(reqs, key, lo, hi) == Allowed(reqs, key, lo, mid) + Allowed(reqs, key, mid, hi)
  {
    if reqs != [] {
      AllowedSplits(reqs[..|reqs| - 1], key, lo, mid, hi);
    }
  }

  /** `n` windows in a row allow at most `n` limits. */
  lemma {:induction false} WindowsAllow(reqs: seq<Request>, key: string, q: int, limit: nat, period: int, n: nat)
    requires Regular(reqs) && period > 0
    requires forall i | 0 <= i < |reqs| && reqs[i].key == key :: reqs[i].period == period && reqs[i].limit == limit
    ensures q * period <= (q + n) * period
    ensures Allowed(reqs, key, q * period, (q + n) * period) <= n * limit
    decreases n
  {
    TimesMonotone(q, q + n, period);
    if n == 0 {
      NothingInEmpty(reqs, key, q * period);
    } else {
      WindowsAllow(reqs, key, q + 1, limit, period, n - 1);
      assert q + 1 + (n - 1) == q + n;
      assert (q + 1) * period == q * period + period;
      AllowedSplits(reqs, key, q * period, (q + 1) * period, (q + n) * period);
      WindowAllowsFirst(reqs, key, q, limit, period);
      assert n * limit == limit + (n - 1) * limit;
    }
  }

  lemma {:induction false} NothingInEmpty(reqs: seq<Request>, key: string, at: int)
    requires forall i | 0 <= i < |reqs| :: reqs[i].period > 0
    ensures Allowed(reqs, key, at, at) == 0
  {
    if reqs != [] {
      NothingInEmpty(reqs[..|reqs| - 1], key, at);
    }
  }

  /** How many aligned windows an interval of `length` seconds can touch. */
  function Touched(length: int, period: int): int
    requires length >= 1 && period > 0
  {
    (length + period - 2) / period + 1
  }

  lemma {:induction false} TouchedCovers(from: int, length: int, period: int)
    requires length >= 1 && period > 0
    ensures Touched(length, period) >= 1
    ensures (from / period) * period <= from
    ensures from + length <= (from / period + Touched(length, period)) * period
  {
  }

  lemma {:induction false} TouchedBounds(length: int, period: int)
    requires length >= 1 && period > 0
    ensures Touched(length, period) <= (length - 1) / period + 2
    ensures Touched(period, period) == if period == 1 then 1 else 2
  {
    var a := length - 1;
    var x := a / period;
    assert a == x * period + a % period;
    if a % period == 0 {
      QuotientIs(a + period - 1, x, period);
    } else {
      assert (x + 1) * period == x * period + period;
      QuotientIs(a + period - 1, x + 1, period);
    }
    QuotientIs(period + period - 2, if period == 1 then 0 else 1, period);
  }

  /**
   Any half-open interval of `length` seconds, aligned or not, allows at most the limit once per
   window it can touch; for one whole period that is twice the limit.
   */
  lemma {:induction false} SlidingBound(reqs: seq<Request>, key: string, from: int, length: int, limit: nat,
        period: int)
    requires Regular(reqs) && period > 0 && length >= 1
    requires forall i | 0 <= i < |reqs| && reqs[i].key == key :: reqs[i].period == period && reqs[i].limit == limit
    ensures Allowed(reqs, key, from, from + length) <= Touched(length, period) * limit
    ensures Touched(length, period) <= (length - 1) / period + 2
    ensures Allowed(reqs, key, from, from + period) <= 2 * limit
  {
    StretchBound(reqs, key, from, length, limit, period);
    StretchBound(reqs, key, from, period, limit, period);
    TouchedBounds(length, period);
    TimesMonotone(Touched(period, period), 2, limit);
  }

  lemma {:induction false} StretchBound(reqs: seq<Request>, key: string, from: int, length: int, limit: nat,
        period: int)
    requires Regular(reqs) && period > 0 && length >= 1
    requires forall i | 0 <= i < |reqs| && reqs[i].key == key :: reqs[i].period == period && reqs[i].limit == limit
    ensures Allowed(reqs, key, from, from + length) <= Touched(length, period) * limit
  {
    var q, n := from / period, Touched(length, period);
    TouchedCovers(from, length, period);
    WindowsAllow(reqs, key, q, limit, period, n);
    AllowedSplits(reqs, key, q * period, from, (q + n) * period);
    AllowedSplits(reqs, key, from, from + length, (q + n) * period);
  }

  // ------------------------------------------------------------- the bound is reached

  /** `n` calls on one key at one instant. */
  function Burst(n: nat, key: string, limit: int, period: int, now: int): (reqs: seq<Request>)
    ensures |reqs| == n && forall i | 0 <= i < n :: reqs[i] == Request(key, limit, period, now)
  {
    seq(n, i => Request(key, limit, period, now))
  }

  /** A run that uses up one window in its last second and the next one in its first. */
  function TwoBursts(key: string, limit: nat, period: int): seq<Request> {
    Burst(limit, key, limit, period, period - 1) + Burst(limit, key, limit, period, period)
  }

  lemma {:induction false} CallsAll(reqs: seq<Request>, key: string, lo: int, hi: int)
    requires forall i | 0 <= i < |reqs| :: reqs[i].key == key && lo <= reqs[i].now < hi
    ensures Calls(reqs, key, lo, hi) == |reqs|
  {
    if reqs != [] {
      CallsAll(reqs[..|reqs| - 1], key, lo, hi);
    }
  }

  lemma {:induction false} CallsNone(reqs: seq<Request>, key: string, lo: int, hi: int)
    requires forall i | 0 <= i < |reqs| :: !(lo <= reqs[i].now < hi)
    ensures Calls(reqs, key, lo, hi) == 0
  {
    if reqs != [] {
      CallsNone(reqs[..|reqs| - 1], key, lo, hi);
    }
  }

  lemma {:induction false} CallsConcat(a: seq<Request>, b: seq<Request>, key: string, lo: int, hi: int)
    ensures Calls(a + b, key, lo, hi) == Calls(a, key, lo, hi) + Calls(b, key, lo, hi)
  {
    if b == [] {
      assert a + b == a;
    } else {
      CallsConcat(a, b[..|b| - 1], key, lo, hi);
      assert (a + b)[..|a + b| - 1] == a + b[..|b| - 1];
    }
  }

  lemma {:induction false} NoCallNoneAllowed(reqs: seq<Request>, key: string, lo: int, hi: int)
    requires forall i | 0 <= i < |reqs| :: reqs[i].period > 0
    ensures Allowed(reqs, key, lo, hi) <= Calls(reqs, key, lo, hi)
  {
    if reqs != [] {
      NoCallNoneAllowed(reqs[..|reqs| - 1], key, lo, hi);
    }
  }

  lemma {:induction false} BurstCalls(key: string, limit: nat, period: int)
    requires period >= 2
    ensures var reqs := TwoBursts(key, limit, period);
      && Calls(reqs, key, 0, period) == limit
      && Calls(reqs, key, period, 2 * period) == limit
  {
    var a, b := Burst(limit, key, limit, period, period - 1), Burst(limit, key, limit, period, period);
    CallsAll(a, key, 0, period);
    CallsNone(b, key, 0, period);
    CallsConcat(a, b, key, 0, period);
    CallsNone(a, key, period, 2 * period);
    CallsAll(b, key, period, 2 * period);
    CallsConcat(a, b, key, period, 2 * period);
  }

  lemma {:induction false} NoneOutside(reqs: seq<Request>, key: string, lo: int, hi: int)
    requires forall i | 0 <= i < |reqs| :: reqs[i].period > 0 && !(lo <= reqs[i].now < hi)
    ensures Allowed(reqs, key, lo, hi) == 0
  {
    CallsNone(reqs, key, lo, hi);
    NoCallNoneAllowed(reqs, key, lo, hi);
  }

  lemma {:induction false} BurstShape(key: string, limit: nat, period: int)
    requires period >= 2
    ensures var reqs := TwoBursts(key, limit, period);
      && Regular(reqs)
      && forall i | 0 <= i < |reqs| :: && reqs[i].key == key && reqs[i].period == period && reqs[i].limit == limit
                                       && period - 1 <= reqs[i].now <= period
  {
  }

  /** What is allowed in both windows is allowed in the stretch between their quiet ends. */
  lemma {:induction false} QuietEnds(reqs: seq<Request>, key: string, period: int)
    requires period >= 2
    requires forall i | 0 <= i < |reqs| :: reqs[i].period > 0 && period - 1 <= reqs[i].now <= period
    ensures Allowed(reqs, key, period - 1, period - 1 + period)
         == Allowed(reqs, key, 0, period) + Allowed(reqs, key, period, 2 * period)
  {
    NoneOutside(reqs, key, 0, period - 1);
    NoneOutside(reqs, key, 2 * period - 1, 2 * period);
    AllowedSplits(reqs, key, 0, period, 2 * period);
    AllowedSplits(reqs, key, 0, period - 1, 2 * period);
    AllowedSplits(reqs, key, period - 1, 2 * period - 1, 2 * period);
  }

  /** Twice the limit within one period does happen: the sliding bound cannot be improved. */
  lemma {:induction false} SlidingBoundReached(key: string, limit: nat, period: int)
    requires period >= 2
    ensures Regular(TwoBursts(key, limit, period))
    ensures Allowed(TwoBursts(key, limit, period), key, period - 1, period - 1 + period) == 2 * limit
  {
    var reqs := TwoBursts(key, limit, period);
    BurstShape(key, limit, period);
    BurstCalls(key, limit, period);
    QuietEnds(reqs, key, period);
    WindowAllowsFirst(reqs, key, 0, limit, period);
    WindowAllowsFirst(reqs, key, 1, limit, period);
  }
}
