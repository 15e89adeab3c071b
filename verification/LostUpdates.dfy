/**
 Counters that a call reads in one step and writes back in another, as over Memcached. Steps of other
 calls may come between the two, and then updates are lost.
 */
module LostUpdates {
  import opened Ordering
  import opened RateLimit

  /** A call that has read its counter. */
  datatype Call<K> = Call(k: K, limit: int, ttl: int, read: int)

  datatype State<K> = State(counters: map<K, Counter>, calls: map<int, Call<K>>)

  datatype Move<K> =
    | GetStep(c: int, k: K, limit: int, ttl: int, now: int)
    | SetStep(c: int, now: int)

  /** Calls are numbered afresh and set once after their get. */
  predicate Enabled<K>(s: State<K>, v: Move<K>) {
    if v.GetStep? then v.c !in s.calls else v.c in s.calls
  }

  function Moved<K(==)>(s: State<K>, v: Move<K>): State<K> {
    match v
    case GetStep(c, k, limit, ttl, now) =>
      s.(calls := s.calls[c := Call(k, limit, ttl, Value(s.counters, k, now))])
    case SetStep(c, now) =>
      if c !in s.calls then s
      else
        var call := s.calls[c];
        State(s.counters[call.k := Counter(call.read + 1, now + call.ttl)], s.calls - {c})
  }

  function Reached<K(==)>(moves: seq<Move<K>>): State<K> {
    if moves == [] then State(map[], map[]) else Moved(Reached(moves[..|moves| - 1]), moves[|moves| - 1])
  }

  ghost predicate Legal<K>(moves: seq<Move<K>>)
    decreases |moves|
  {
    moves == [] ||
    (Legal(moves[..|moves| - 1]) && Enabled(Reached(moves[..|moves| - 1]), moves[|moves| - 1]))
  }

  /** `v` completes a call on the counter `k`. */
  predicate Completes<K(==)>(s: State<K>, v: Move<K>, k: K) {
    v.SetStep? && v.c in s.calls && s.calls[v.c].k == k
  }

  /** The answer of the call that `v` completes. */
  predicate Refuses<K>(s: State<K>, v: Move<K>) {
    v.SetStep? && v.c in s.calls && s.calls[v.c].read + 1 > s.calls[v.c].limit
  }

  /** How many calls on the counter have completed their set. */
  function Sets<K(==)>(moves: seq<Move<K>>, k: K): nat {
    if moves == [] then 0
    else
      var before, v := moves[..|moves| - 1], moves[|moves| - 1];
      Sets(before, k) + if Completes(Reached(before), v, k) then 1 else 0
  }

  /** How many of them were allowed. */
  function Passed<K(==)>(moves: seq<Move<K>>, k: K): nat {
    if moves == [] then 0
    else
      var before, v := moves[..|moves| - 1], moves[|moves| - 1];
      Passed(before, k) + if Completes(Reached(before), v, k) && !Refuses(Reached(before), v) then 1 else 0
  }

  lemma {:induction false} AppendMove<K>(moves: seq<Move<K>>, v: Move<K>, k: K)
    ensures Reached(moves + [v]) == Moved(Reached(moves), v)
    ensures Legal(moves + [v]) <==> Legal(moves) && Enabled(Reached(moves), v)
    ensures Sets(moves + [v], k) == Sets(moves, k) + if Completes(Reached(moves), v, k) then 1 else 0
    ensures Passed(moves + [v], k)
         == Passed(moves, k) + if Completes(Reached(moves), v, k) && !Refuses(Reached(moves), v) then 1 else 0
  {
    assert (moves + [v])[..|moves|] == moves;
  }

  /** No counter and no value read is negative, or ahead of the sets that were completed. */
  ghost predicate Behind<K(!new)>(moves: seq<Move<K>>) {
    var s := Reached(moves);
    && (forall k | k in s.counters :: 0 <= s.counters[k].value <= Sets(moves, k))
    && forall c | c in s.calls :: 0 <= s.calls[c].read <= Sets(moves, s.calls[c].k)
  }

  lemma {:induction false} RunBehind<K(!new)>(moves: seq<Move<K>>)
    ensures Behind(moves)
  {
    if moves != [] {
      RunBehind(moves[..|moves| - 1]);
    }
  }

  /**
   In every interleaving, whatever the clock does, a stored counter is at most the number of sets
   completed on it, and a call is refused only once more than its limit have completed theirs.
   */
  lemma {:induction false} RefusedOnlyAboveLimit<K(!new)>(moves: seq<Move<K>>, v: Move<K>)
    requires Legal(moves) && Enabled(Reached(moves), v)
    ensures forall k | k in Reached(moves).counters :: Reached(moves).counters[k].value <= Sets(moves, k)
    ensures Refuses(Reached(moves), v) ==>
      var call := Reached(moves).calls[v.c];
      Sets(moves + [v], call.k) > call.limit
  {
    RunBehind(moves);
    if v.SetStep? {
      AppendMove(moves, v, Reached(moves).calls[v.c].k);
    }
  }

  // ------------------------------------------------------------- when the limit is kept

  /** All calls on `k` have the same limit and lifetime. */
  ghost predicate Uniform<K>(moves: seq<Move<K>>, k: K, limit: int, ttl: int) {
    forall i | 0 <= i < |moves| && moves[i].GetStep? && moves[i].k == k ::
      moves[i].limit == limit && moves[i].ttl == ttl
  }

  /** Every get on `k` comes before the counter that was last set has expired. */
  ghost predicate Timely<K>(moves: seq<Move<K>>, k: K)
    decreases |moves|
  {
    moves == [] ||
    var before, v := moves[..|moves| - 1], moves[|moves| - 1];
    && Timely(before, k)
    && (v.GetStep? && v.k == k && k in Reached(before).counters ==> v.now < Reached(before).counters[k].deadline)
  }

  /** The calls that are between their get and their set on the counter. */
  function Open<K(==)>(s: State<K>, k: K): set<int> {
    set c | c in s.calls && s.calls[c].k == k
  }

  /** Never more than `n` calls are open on the counter. */
  ghost predicate AtMostOpen<K>(moves: seq<Move<K>>, k: K, n: nat)
    decreases |moves|
  {
    |Open(Reached(moves), k)| <= n && (moves == [] || AtMostOpen(moves[..|moves| - 1], k, n))
  }

  ghost predicate OpenUniform<K>(s: State<K>, k: K, limit: int, ttl: int) {
    forall c | c in s.calls && s.calls[c].k == k :: s.calls[c].limit == limit && s.calls[c].ttl == ttl
  }

  lemma {:induction false} CallsUniform<K>(moves: seq<Move<K>>, k: K, limit: int, ttl: int)
    requires Uniform(moves, k, limit, ttl)
    ensures OpenUniform(Reached(moves), k, limit, ttl)
  {
    if moves != [] {
      CallsUniform(moves[..|moves| - 1], k, limit, ttl);
    }
  }

  /** Counter and open call agree with the sets completed. */
  ghost predicate InStep<K>(s: State<K>, sets: nat, passed: nat, k: K, limit: int) {
    && (sets == 0 ==> k !in s.counters)
    && (sets > 0 ==> k in s.counters && s.counters[k].value == sets)
    && (forall c | c in Open(s, k) :: s.calls[c].read == sets)
    && passed == Min(sets, Max(limit, 0))
  }

  lemma {:induction false} GetInStep<K>(s: State<K>, v: Move<K>, sets: nat, passed: nat, k: K, limit: int)
    requires InStep(s, sets, passed, k, limit) && v.GetStep?
    requires v.k == k && k in s.counters ==> v.now < s.counters[k].deadline
    ensures InStep(Moved(s, v), sets, passed, k, limit)
  {
    forall c | c in Open(Moved(s, v), k) ensures Moved(s, v).calls[c].read == sets {
      assert c != v.c ==> c in Open(s, k);
    }
  }

  lemma {:induction false} SetInStep<K>(s: State<K>, v: Move<K>, sets: nat, passed: nat, k: K, limit: int, ttl: int)
    requires InStep(s, sets, passed, k, limit) && v.SetStep? && OpenUniform(s, k, limit, ttl)
    requires |Open(s, k)| <= 1
    ensures var done := Completes(s, v, k);
      InStep(Moved(s, v), if done then sets + 1 else sets,
             if done && !Refuses(s, v) then passed + 1 else passed, k, limit)
  {
    var s' := Moved(s, v);
    assert Open(s', k) == Open(s, k) - {v.c};
    if Completes(s, v, k) {
      assert v.c in Open(s, k);
      assert |Open(s, k) - {v.c}| == |Open(s, k)| - 1;
      assert Open(s', k) == {};
    }
  }

  lemma {:induction false} RunInStep<K>(moves: seq<Move<K>>, k: K, limit: int, ttl: int)
    requires Uniform(moves, k, limit, ttl) && Timely(moves, k) && AtMostOpen(moves, k, 1)
    ensures InStep(Reached(moves), Sets(moves, k), Passed(moves, k), k, limit)
  {
    if moves != [] {
      var before, v := moves[..|moves| - 1], moves[|moves| - 1];
      RunInStep(before, k, limit, ttl);
      CallsUniform(before, k, limit, ttl);
      if v.GetStep? {
        GetInStep(Reached(before), v, Sets(before, k), Passed(before, k), k, limit);
      } else {
        SetInStep(Reached(before), v, Sets(before, k), Passed(before, k), k, limit, ttl);
      }
    }
  }

  /**
   With one call at a time on a counter that does not expire between, exactly the first `limit` to
   complete are allowed.
   */
  lemma {:induction false} OneAtATime<K>(moves: seq<Move<K>>, k: K, limit: int, ttl: int)
    requires Legal(moves) && Uniform(moves, k, limit, ttl) && Timely(moves, k) && AtMostOpen(moves, k, 1)
    ensures Passed(moves, k) == Min(Sets(moves, k), Max(limit, 0))
  {
    RunInStep(moves, k, limit, ttl);
  }

  /** A limit of nothing is always kept. */
  lemma {:induction false} NothingPasses<K(!new)>(moves: seq<Move<K>>, k: K, limit: int, ttl: int)
    requires Uniform(moves, k, limit, ttl) && limit <= 0
    ensures Passed(moves, k) == 0
  {
    if moves != [] {
      var before := moves[..|moves| - 1];
      NothingPasses(before, k, limit, ttl);
      CallsUniform(before, k, limit, ttl);
      RunBehind(before);
    }
  }

  lemma {:induction false} AtMostMonotone<K>(moves: seq<Move<K>>, k: K, m: nat, n: nat)
    requires AtMostOpen(moves, k, m) && m <= n
    ensures AtMostOpen(moves, k, n)
    decreases |moves|
  {
    if moves != [] {
      AtMostMonotone(moves[..|moves| - 1], k, m, n);
    }
  }

  /** What keeps every run within its limit, as far as overlapping goes. */
  lemma {:induction false} Kept<K(!new)>(moves: seq<Move<K>>, k: K, limit: int, ttl: int, n: nat)
    requires Legal(moves) && Uniform(moves, k, limit, ttl) && Timely(moves, k) && AtMostOpen(moves, k, n)
    requires n <= 1 || limit <= 0
    ensures Passed(moves, k) <= Max(limit, 0)
  {
    if limit <= 0 {
      NothingPasses(moves, k, limit, ttl);
    } else {
      AtMostMonotone(moves, k, n, 1);
      OneAtATime(moves, k, limit, ttl);
    }
  }

  // ------------------------------------------------------------- when it is not

  /** A run of calls on `k` alone, all at time 0, with at most two open. */
  ghost predicate Burst<K>(moves: seq<Move<K>>, k: K, limit: int, ttl: int) {
    && Legal(moves) && AtMostOpen(moves, k, 2) && Timely(moves, k)
    && forall i | 0 <= i < |moves| :: OfBurst(moves[i], k, limit, ttl)
  }

  ghost predicate OfBurst<K>(v: Move<K>, k: K, limit: int, ttl: int) {
    v.now == 0 && (v.GetStep? ==> v.k == k && v.limit == limit && v.ttl == ttl)
  }

  /** After it, the counter stands at `value`, `passed` calls were allowed, and `calls` are open. */
  ghost predicate Stands<K>(moves: seq<Move<K>>, k: K, limit: int, ttl: int, value: nat, passed: nat,
        calls: map<int, Call<K>>) {
    var s := Reached(moves);
    && Burst(moves, k, limit, ttl) && s.calls == calls && Passed(moves, k) == passed
    && Value(s.counters, k, 0) == value && (k in s.counters ==> 0 < s.counters[k].deadline)
  }

  lemma {:induction false} BurstOn<K>(moves: seq<Move<K>>, v: Move<K>, k: K, limit: int, ttl: int)
    requires Burst(moves, k, limit, ttl) && OfBurst(v, k, limit, ttl) && Enabled(Reached(moves), v)
    requires |Moved(Reached(moves), v).calls.Keys| <= 2
    requires k in Reached(moves).counters ==> 0 < Reached(moves).counters[k].deadline
    ensures Burst(moves + [v], k, limit, ttl)
  {
    AppendMove(moves, v, k);
    var s := Moved(Reached(moves), v);
    FullSubset(Open(s, k), s.calls.Keys);
    assert (moves + [v])[..|moves|] == moves;
  }

  lemma {:induction false} GetNext<K>(moves: seq<Move<K>>, c: int, k: K, limit: int, ttl: int, value: nat, passed: nat,
        calls: map<int, Call<K>>)
    requires Stands(moves, k, limit, ttl, value, passed, calls) && c !in calls
        && |calls[c := Call(k, limit, ttl, value)].Keys| <= 2
    ensures var calls' := calls[c := Call(k, limit, ttl, value)];
      Stands(moves + [GetStep(c, k, limit, ttl, 0)], k, limit, ttl, value, passed, calls')
  {
    var v := GetStep(c, k, limit, ttl, 0);
    AppendMove(moves, v, k);
    BurstOn(moves, v, k, limit, ttl);
  }

  lemma {:induction false} SetNext<K>(moves: seq<Move<K>>, c: int, k: K, limit: int, ttl: int, value: nat, passed: nat,
        calls: map<int, Call<K>>, read: nat)
    requires Stands(moves, k, limit, ttl, value, passed, calls) && ttl > 0
    requires c in calls && calls[c] == Call(k, limit, ttl, read) && read < limit && |(calls - {c}).Keys| <= 2
    ensures Stands(moves + [SetStep(c, 0)], k, limit, ttl, read + 1, passed + 1, calls - {c})
  {
    AppendMove(moves, SetStep(c, 0), k);
    BurstOn(moves, SetStep(c, 0), k, limit, ttl);
  }

  lemma {:induction false} CallAlone<K>(moves: seq<Move<K>>, k: K, limit: int, ttl: int, n: nat)
    returns (more: seq<Move<K>>)
    requires Stands(moves, k, limit, ttl, n, n, map[]) && n < limit && ttl > 0
    ensures Stands(more, k, limit, ttl, n + 1, n + 1, map[])
  {
    var one: map<int, Call<K>> := map[0 := Call(k, limit, ttl, n)];
    assert one.Keys == {0} && one - {0} == map[];
    GetNext(moves, 0, k, limit, ttl, n, n, map[]);
    more := moves + [GetStep(0, k, limit, ttl, 0)];
    SetNext(more, 0, k, limit, ttl, n, n, one, n);
    more := more + [SetStep(0, 0)];
  }

  /** `n` calls one after the other pass. */
  lemma {:induction false} CallsAlone<K>(k: K, limit: int, ttl: int, n: nat) returns (moves: seq<Move<K>>)
    requires n <= limit && ttl > 0
    ensures Stands(moves, k, limit, ttl, n, n, map[])
  {
    moves := [];
    if n > 0 {
      moves := CallsAlone(k, limit, ttl, n - 1);
      moves := CallAlone(moves, k, limit, ttl, n - 1);
    } else {
      assert Open(Reached(moves), k) == {};
    }
  }

  /** After `limit - 1` calls on their own, two that both read before either writes both pass. */
  lemma {:induction false} LostUpdate<K>(k: K, limit: int, ttl: int) returns (moves: seq<Move<K>>)
    requires limit >= 1 && ttl > 0
    ensures Burst(moves, k, limit, ttl) && Passed(moves, k) == limit + 1
  {
    var n := limit - 1;
    var call := Call(k, limit, ttl, n);
    var one: map<int, Call<K>>, last: map<int, Call<K>> := map[0 := call], map[1 := call];
    var two: map<int, Call<K>> := map[0 := call, 1 := call];
    assert one.Keys == {0} && two.Keys == {0, 1} && two - {0} == last && last.Keys == {1} && last - {1} == map[];
    moves := CallsAlone(k, limit, ttl, n);
    GetNext(moves, 0, k, limit, ttl, n, n, map[]);
    moves := moves + [GetStep(0, k, limit, ttl, 0)];
    GetNext(moves, 1, k, limit, ttl, n, n, one);
    moves := moves + [GetStep(1, k, limit, ttl, 0)];
    SetNext(moves, 0, k, limit, ttl, n, n, two, n);
    moves := moves + [SetStep(0, 0)];
    SetNext(moves, 1, k, limit, ttl, n + 1, n + 1, last, n);
    moves := moves + [SetStep(1, 0)];
  }

  lemma {:induction false} BurstUniform<K>(moves: seq<Move<K>>, k: K, limit: int, ttl: int)
    requires Burst(moves, k, limit, ttl)
    ensures Uniform(moves, k, limit, ttl)
  {
    forall i | 0 <= i < |moves| && moves[i].GetStep? && moves[i].k == k
      ensures moves[i].limit == limit && moves[i].ttl == ttl
    {
      assert OfBurst(moves[i], k, limit, ttl);
    }
  }

  /**
   Every run on `k` in which no get finds the counter expired, and at most `n` calls are open at a
   time, allows at most `limit`.
   */
  ghost predicate KeepsLimit<K(!new)>(k: K, limit: int, ttl: int, n: nat) {
    forall moves: seq<Move<K>>
      | Legal(moves) && Uniform(moves, k, limit, ttl) && Timely(moves, k) && AtMostOpen(moves, k, n) ::
      Passed(moves, k) <= Max(limit, 0)
  }

  /**
   A limit on a counter is kept over all such runs exactly when calls come one at a time, or none
   is to be allowed.
   */
  lemma {:induction false} KeptExactly<K(!new)>(k: K, limit: int, ttl: int, n: nat)
    requires ttl > 0
    ensures KeepsLimit(k, limit, ttl, n) <==> n <= 1 || limit <= 0
  {
    if n <= 1 || limit <= 0 {
      forall moves: seq<Move<K>>
        | Legal(moves) && Uniform(moves, k, limit, ttl) && Timely(moves, k) && AtMostOpen(moves, k, n)
        ensures Passed(moves, k) <= Max(limit, 0)
      {
        Kept(moves, k, limit, ttl, n);
      }
    } else {
      var moves := LostUpdate(k, limit, ttl);
      BurstUniform(moves, k, limit, ttl);
      AtMostMonotone(moves, k, 2, n);
    }
  }
}
