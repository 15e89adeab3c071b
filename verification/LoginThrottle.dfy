/**
 The login throttle: one counter per address and one per username, both raised by every attempt
 and both deleted by a successful login. Every attempt also gives its counters a new full window.
 */
module LoginThrottle {
  import opened Wrappers
  import opened RateLimit
  import LostUpdates

  function IpKey(ip: string): string {
    "login:ip:" + ip
  }

  function UserKey(user: string): string {
    "login:user:" + user
  }

  /** The two kinds of keys never meet, and different names never share a key. */
  lemma {:induction false} KeysDistinct(ip: string, user: string, other: string)
    ensures IpKey(ip) != UserKey(user)
    ensures UserKey(user) == UserKey(other) ==> user == other
    ensures IpKey(ip) == IpKey(other) ==> ip == other
  {
    assert IpKey(ip)[6] == 'i' && UserKey(user)[6] == 'u';
    assert UserKey(user)[|"login:user:"|..] == user && UserKey(other)[|"login:user:"|..] == other;
    assert IpKey(ip)[|"login:ip:"|..] == ip && IpKey(other)[|"login:ip:"|..] == other;
  }

  type Counters = map<string, Counter>

  /** The counters after an attempt was counted. */
  function Counted(c: Counters, ip: string, user: string, window: int, now: int): Counters {
    Bumped(Bumped(c, IpKey(ip), 1, window, now), UserKey(user), 1, window, now)
  }

  function AttemptCount(c: Counters, ip: string, user: string, now: int): int {
    Max(Value(c, IpKey(ip), now) + 1, Value(c, UserKey(user), now) + 1)
  }

  function Cleared(c: Counters, ip: string, user: string): Counters {
    c - {IpKey(ip)} - {UserKey(user)}
  }

  class LoginManager {
    const maxAttempts: int
    const window: int
    const limiter: RedisRateLimiter?

    constructor (limiter: RedisRateLimiter?, maxAttempts: int, window: int)
      ensures this.limiter == limiter && this.maxAttempts == maxAttempts && this.window == window
    {
      this.limiter, this.maxAttempts, this.window := limiter, maxAttempts, window;
    }

    method TrackLoginAttempt(ip: string, user: string, success: bool, now: int)
      returns (allowed: bool, remaining: Option<int>)
      modifies limiter
      ensures limiter == null ==> allowed && remaining == None
      ensures limiter != null ==> limiter.windows == old(limiter.windows)
      ensures limiter != null && success ==>
        allowed && remaining == None && limiter.counters == Cleared(old(limiter.counters), ip, user)
      ensures limiter != null && !success ==>
        && limiter.counters == Counted(old(limiter.counters), ip, user, window, now)
        && allowed == (AttemptCount(old(limiter.counters), ip, user, now) <= maxAttempts)
        && remaining == Some(Max(0, maxAttempts - AttemptCount(old(limiter.counters), ip, user, now)))
    {
      if limiter == null {
        return true, None;
      }
      KeysDistinct(ip, user, user);
      if success {
        var _ := limiter.Delete(IpKey(ip), now);
        var _ := limiter.Delete(UserKey(user), now);
        return true, None;
      }
      var ipCount := limiter.Increment(IpKey(ip), 1, window, now);
      var userCount := limiter.Increment(UserKey(user), 1, window, now);
      var attempts := if ipCount >= userCount then ipCount else userCount;
      remaining := Some(if maxAttempts - attempts > 0 then maxAttempts - attempts else 0);
      allowed := attempts <= maxAttempts;
    }

    /**
     The login endpoint up to the password check and the clearing of the counters. `authentic` is
     what the password check would say; `checked` tells whether it was made at all.
     */
    method Login(host: Option<string>, user: string, authentic: bool, now: int) returns (checked: bool, loggedIn: bool)
      modifies limiter
      ensures limiter == null ==> checked && loggedIn == authentic
      ensures limiter != null ==>
        var ip := if host.Some? then host.value else "unknown";
        var step := Step(old(limiter.counters), Attempt(ip, user, authentic, now), maxAttempts, window);
        limiter.counters == step.0 && checked == step.1 && loggedIn == (step.1 && authentic)
    {
      var ip := if host.Some? then host.value else "unknown";
      var allowed, _ := TrackLoginAttempt(ip, user, false, now);
      if !allowed {
        return false, false;
      }
      if !authentic {
        return true, false;
      }
      var _, _ := TrackLoginAttempt(ip, user, true, now);
      return true, true;
    }
  }

  // ------------------------------------------------------------- runs of logins

  datatype Attempt = Attempt(ip: string, user: string, authentic: bool, now: int)

  /** One login: the counters afterwards and whether the password was checked. */
  function Step(c: Counters, a: Attempt, max: int, window: int): (Counters, bool) {
    var counted := Counted(c, a.ip, a.user, window, a.now);
    if AttemptCount(c, a.ip, a.user, a.now) > max then (counted, false)
    else if a.authentic then (Cleared(counted, a.ip, a.user), true)
    else (counted, true)
  }

  /** The attempt raises the counter `k`. */
  predicate Touches(a: Attempt, k: string) {
    IpKey(a.ip) == k || UserKey(a.user) == k
  }

  /** How many attempts that touch `k` get as far as the password check. */
  function Checks(c: Counters, attempts: seq<Attempt>, k: string, max: int, window: int): nat
    decreases |attempts|
  {
    if attempts == [] then 0
    else
      var (c', checked) := Step(c, attempts[0], max, window);
      (if Touches(attempts[0], k) && checked then 1 else 0) + Checks(c', attempts[1..], k, max, window)
  }

  /** The attempt logs in and so deletes the counter `k`. */
  predicate Clears(c: Counters, a: Attempt, k: string, max: int, window: int) {
    Touches(a, k) && a.authentic && Step(c, a, max, window).1
  }

  /** Attempts touching `k` come less than the window apart, the first one before `until`, and none clears `k`. */
  ghost predicate Pressed(c: Counters, attempts: seq<Attempt>, k: string, until: Option<int>, max: int, window: int)
    decreases |attempts|
  {
    attempts == [] ||
    var a, c' := attempts[0], Step(c, attempts[0], max, window).0;
    if Touches(a, k)
    then
      && !Clears(c, a, k, max, window)
      && (until.Some? ==> a.now < until.value)
      && Pressed(c', attempts[1..], k, Some(a.now + window), max, window)
    else Pressed(c', attempts[1..], k, until, max, window)
  }

  ghost predicate NonNegative(c: Counters) {
    forall k | k in c :: c[k].value >= 0
  }

  /** The counter `k` stands at `n` or more until `until`. */
  ghost predicate Holds(c: Counters, k: string, n: nat, until: Option<int>) {
    n > 0 ==> until.Some? && k in c && c[k].value >= n && until.value <= c[k].deadline
  }

  lemma {:induction false} StepTouching(c: Counters, a: Attempt, k: string, n: nat, until: Option<int>, max: int,
        window: int)
    requires NonNegative(c) && Touches(a, k) && !Clears(c, a, k, max, window)
    requires Holds(c, k, n, until) && (until.Some? ==> a.now < until.value)
    ensures var (c', checked) := Step(c, a, max, window);
      && NonNegative(c')
      && Holds(c', k, n + 1, Some(a.now + window))
      && (checked ==> n + 1 <= max)
  {
    KeysDistinct(a.ip, a.user, a.user);
  }

  lemma {:induction false} StepElsewhere(c: Counters, a: Attempt, k: string, n: nat, until: Option<int>, max: int,
        window: int)
    requires NonNegative(c) && !Touches(a, k) && Holds(c, k, n, until)
    ensures NonNegative(Step(c, a, max, window).0) && Holds(Step(c, a, max, window).0, k, n, until)
  {
  }

  lemma {:induction false} ChecksBounded(c: Counters, attempts: seq<Attempt>, k: string, n: nat,
        until: Option<int>, max: int, window: int)
    requires NonNegative(c) && Holds(c, k, n, until) && Pressed(c, attempts, k, until, max, window)
    ensures Checks(c, attempts, k, max, window) <= Max(0, max - n)
    decreases |attempts|
  {
    if attempts != [] {
      var a, c' := attempts[0], Step(c, attempts[0], max, window).0;
      if Touches(a, k) {
        StepTouching(c, a, k, n, until, max, window);
        ChecksBounded(c', attempts[1..], k, n + 1, Some(a.now + window), max, window);
      } else {
        StepElsewhere(c, a, k, n, until, max, window);
        ChecksBounded(c', attempts[1..], k, n, until, max, window);
      }
    }
  }

  /**
   While the attempts for a username come less than the window apart and none of them logs in, at
   most `max` passwords are checked for it: from however many addresses they come, and whatever
   others do or succeed at in between.
   */
  lemma {:induction false} UserThrottled(c: Counters, attempts: seq<Attempt>, user: string, max: int, window: int)
    requires NonNegative(c) && Pressed(c, attempts, UserKey(user), None, max, window)
    ensures Checks(c, attempts, UserKey(user), max, window) <= Max(0, max)
    ensures forall a: Attempt :: Touches(a, UserKey(user)) <==> a.user == user
  {
    ChecksBounded(c, attempts, UserKey(user), 0, None, max, window);
    forall a: Attempt ensures Touches(a, UserKey(user)) <==> a.user == user {
      KeysDistinct(a.ip, a.user, user);
      KeysDistinct(a.ip, user, user);
    }
  }

  /** The same per address, however many usernames are tried from it. */
  lemma {:induction false} AddressThrottled(c: Counters, attempts: seq<Attempt>, ip: string, max: int, window: int)
    requires NonNegative(c) && Pressed(c, attempts, IpKey(ip), None, max, window)
    ensures Checks(c, attempts, IpKey(ip), max, window) <= Max(0, max)
    ensures forall a: Attempt :: Touches(a, IpKey(ip)) <==> a.ip == ip
  {
    ChecksBounded(c, attempts, IpKey(ip), 0, None, max, window);
    forall a: Attempt ensures Touches(a, IpKey(ip)) <==> a.ip == ip {
      KeysDistinct(ip, a.user, a.user);
      KeysDistinct(a.ip, a.user, ip);
    }
  }

  // ------------------------------------------------------------- nobody is refused early

  /** The counters after a run of logins from the start. */
  function After(attempts: seq<Attempt>, max: int, window: int): Counters {
    if attempts == [] then map[]
    else Step(After(attempts[..|attempts| - 1], max, window), attempts[|attempts| - 1], max, window).0
  }

  /** How many attempts touched `k` since the last one that cleared it. */
  function Recent(attempts: seq<Attempt>, k: string, max: int, window: int): nat {
    if attempts == [] then 0
    else
      var before, a := attempts[..|attempts| - 1], attempts[|attempts| - 1];
      if Clears(After(before, max, window), a, k, max, window) then 0
      else Recent(before, k, max, window) + if Touches(a, k) then 1 else 0
  }

  lemma {:induction false} CountersRecent(attempts: seq<Attempt>, k: string, max: int, window: int)
    ensures var c := After(attempts, max, window);
      k in c ==> c[k].value <= Recent(attempts, k, max, window)
  {
    if attempts != [] {
      var before, a := attempts[..|attempts| - 1], attempts[|attempts| - 1];
      CountersRecent(before, k, max, window);
      KeysDistinct(a.ip, a.user, a.user);
    }
  }

  /**
   An attempt is refused only after `max` others for its username, or from its address, since a
   success cleared them.
   */
  lemma {:induction false} RefusedOnlyWhenPressed(attempts: seq<Attempt>, a: Attempt, max: int, window: int)
    requires !Step(After(attempts, max, window), a, max, window).1
    ensures Recent(attempts, IpKey(a.ip), max, window) >= max || Recent(attempts, UserKey(a.user), max, window) >= max
  {
    CountersRecent(attempts, IpKey(a.ip), max, window);
    CountersRecent(attempts, UserKey(a.user), max, window);
  }

  /**
   How many attempts in a row touched `k`, the last of them less than the window before `until`, each
   other less than the window before the next, and none of them logging in.
   */
  function Streak(attempts: seq<Attempt>, k: string, until: int, max: int, window: int): nat {
    if attempts == [] then 0
    else
      var before, a := attempts[..|attempts| - 1], attempts[|attempts| - 1];
      if !Touches(a, k) then Streak(before, k, until, max, window)
      else if until - a.now >= window || Clears(After(before, max, window), a, k, max, window) then 0
      else Streak(before, k, a.now, max, window) + 1
  }

  lemma {:induction false} CounterIsStreak(attempts: seq<Attempt>, k: string, until: int, max: int, window: int)
    ensures Value(After(attempts, max, window), k, until) == Streak(attempts, k, until, max, window)
  {
    if attempts != [] {
      var before, a := attempts[..|attempts| - 1], attempts[|attempts| - 1];
      KeysDistinct(a.ip, a.user, a.user);
      CounterIsStreak(before, k, until, max, window);
      CounterIsStreak(before, k, a.now, max, window);
    }
  }

  /**
   After any run an attempt is refused exactly when the streak of its address or that of its username
   has reached `max`.
   */
  lemma {:induction false} RefusedExactly(attempts: seq<Attempt>, a: Attempt, max: int, window: int)
    ensures !Step(After(attempts, max, window), a, max, window).1 <==>
      Streak(attempts, IpKey(a.ip), a.now, max, window) >= max
      || Streak(attempts, UserKey(a.user), a.now, max, window) >= max
  {
    CounterIsStreak(attempts, IpKey(a.ip), a.now, max, window);
    CounterIsStreak(attempts, UserKey(a.user), a.now, max, window);
  }

  lemma {:induction false} QuietNoStreak(attempts: seq<Attempt>, k: string, until: int, max: int, window: int)
    requires forall i | 0 <= i < |attempts| && Touches(attempts[i], k) :: until - attempts[i].now >= window
    ensures Streak(attempts, k, until, max, window) == 0
  {
    if attempts != [] {
      QuietNoStreak(attempts[..|attempts| - 1], k, until, max, window);
    }
  }

  /** By the clock alone: once the window has passed without an attempt on either counter, passwords are checked. */
  lemma {:induction false} WindowEnds(attempts: seq<Attempt>, a: Attempt, max: int, window: int)
    requires max >= 1
    requires forall i | 0 <= i < |attempts| && (attempts[i].ip == a.ip || attempts[i].user == a.user) ::
      a.now - attempts[i].now >= window
    ensures Step(After(attempts, max, window), a, max, window).1
  {
    forall i | 0 <= i < |attempts|
      ensures Touches(attempts[i], IpKey(a.ip)) ==> attempts[i].ip == a.ip
      ensures Touches(attempts[i], UserKey(a.user)) ==> attempts[i].user == a.user
    {
      KeysDistinct(attempts[i].ip, a.user, a.user);
      KeysDistinct(a.ip, attempts[i].user, attempts[i].user);
      KeysDistinct(attempts[i].ip, attempts[i].user, a.user);
      KeysDistinct(attempts[i].ip, attempts[i].user, a.ip);
    }
    QuietNoStreak(attempts, IpKey(a.ip), a.now, max, window);
    QuietNoStreak(attempts, UserKey(a.user), a.now, max, window);
    RefusedExactly(attempts, a, max, window);
  }

  // ------------------------------------------------------------- over Memcached

  /**
   Over Memcached an attempt reads a counter and writes it back in two steps. While no attempt on a
   counter comes after it has expired, or clears it, the bound on it then holds exactly when attempts
   on it come one at a time, or none is to be allowed.
   */
  lemma {:induction false} MemcachedThrottleExactly(ip: string, user: string, max: int, window: int, n: nat)
    requires window > 0
    ensures LostUpdates.KeepsLimit(UserKey(user), max, window, n) <==> n <= 1 || max <= 0
    ensures LostUpdates.KeepsLimit(IpKey(ip), max, window, n) <==> n <= 1 || max <= 0
  {
    LostUpdates.KeptExactly(UserKey(user), max, window, n);
    LostUpdates.KeptExactly(IpKey(ip), max, window, n);
  }
}
