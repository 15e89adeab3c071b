/**
 The in-memory session storage: a dictionary of values beside a dictionary of deadlines, from
 which a call drops the expired entries it happens to meet. Times are integers in the clock's
 resolution; every call gets one clock reading `now`.
 */
module MemoryStorage {
  import opened Wrappers
  import opened Ordering
  import opened Dicts

  /** What the two dictionaries hold. */
  datatype Store<+T> = Store(data: Dict<T>, expiry: map<string, int>)

  /** Both dictionaries have the same keys, so no `del` of the source can fail. */
  ghost predicate Sound<T>(st: Store<T>) {
    Proper(st.data) && st.data.at.Keys == st.expiry.Keys
  }

  predicate Expired<T>(st: Store<T>, k: string, now: int) {
    k in st.expiry && now > st.expiry[k]
  }

  function Unexpired<T>(st: Store<T>, now: int): set<string> {
    set k | k in st.expiry && !Expired(st, k, now)
  }

  function RestrictStore<T>(st: Store<T>, ks: set<string>): Store<T> {
    Store(Restrict(st.data, ks), map k | k in st.expiry && k in ks :: st.expiry[k])
  }

  /** What a caller can still see at time `now`: the entries whose deadline has not passed. */
  function View<T>(st: Store<T>, now: int): Store<T> {
    RestrictStore(st, Unexpired(st, now))
  }

  function Lookup<T>(st: Store<T>, k: string, now: int): Option<T> {
    if k in st.data.at && !Expired(st, k, now) then Some(st.data.at[k]) else None
  }

  function Drop<T>(st: Store<T>, k: string): Store<T> {
    RestrictStore(st, st.expiry.Keys - {k})
  }

  /** The store after `_check_expiry(k)`. */
  function Checked<T>(st: Store<T>, k: string, now: int): Store<T> {
    if Expired(st, k, now) then Drop(st, k) else st
  }

  function Write<T>(st: Store<T>, k: string, v: T, deadline: int): Store<T> {
    Store(Put(st.data, k, v), st.expiry[k := deadline])
  }

  /** The store after `update(k, v)` with a reset deadline: only an unexpired entry is rewritten. */
  function Rewritten<T>(st: Store<T>, k: string, v: T, now: int, deadline: int): Store<T> {
    if Lookup(st, k, now).Some? then Write(st, k, v, deadline) else Checked(st, k, now)
  }

  // ------------------------------------------------------------- laws of the store

  lemma {:induction false} RestrictSound<T>(st: Store<T>, ks: set<string>)
    requires Sound(st)
    ensures Sound(RestrictStore(st, ks))
  {
    RestrictProper(st.data, ks);
  }

  lemma {:induction false} CheckedSound<T>(st: Store<T>, k: string, now: int)
    requires Sound(st)
    ensures Sound(Checked(st, k, now)) && Sound(Drop(st, k)) && Sound(View(st, now))
  {
    RestrictSound(st, st.expiry.Keys - {k});
    RestrictSound(st, Unexpired(st, now));
  }

  lemma {:induction false} RestrictStoreTwice<T>(st: Store<T>, a: set<string>, b: set<string>)
    ensures RestrictStore(RestrictStore(st, a), b) == RestrictStore(st, a * b)
  {
    RestrictTwice(st.data, a, b);
  }

  lemma {:induction false} RestrictStoreAgree<T>(st: Store<T>, a: set<string>, b: set<string>)
    requires Sound(st)
    requires forall k | k in st.expiry :: k in a <==> k in b
    ensures RestrictStore(st, a) == RestrictStore(st, b)
  {
    RestrictAgree(st.data, a, b);
  }

  /** Dropping one expired entry early shows at no later time. */
  lemma {:induction false} LazyExpiryInvisible<T>(st: Store<T>, k: string, now: int, later: int)
    requires Sound(st) && now <= later
    ensures View(Checked(st, k, now), later) == View(st, later)
  {
    if Expired(st, k, now) {
      var kept := st.expiry.Keys - {k};
      RestrictStoreTwice(st, kept, Unexpired(Drop(st, k), later));
      assert kept * Unexpired(Drop(st, k), later) == Unexpired(st, later);
    }
  }

  /** Nor does dropping all of them; and what can be looked up is what is in view. */
  lemma {:induction false} ScanInvisible<T>(st: Store<T>, k: string, now: int, later: int)
    requires Sound(st) && now <= later
    ensures View(View(st, now), later) == View(st, later)
    ensures Lookup(View(st, later), k, later) == Lookup(st, k, later)
  {
    var seen := View(st, now);
    RestrictStoreTwice(st, Unexpired(st, now), Unexpired(seen, later));
    assert Unexpired(st, now) * Unexpired(seen, later) == Unexpired(st, later);
  }

  /** The keys left after every expired key of `ks` has been dropped. */
  function Survivors<T>(st: Store<T>, ks: set<string>, now: int): set<string> {
    set k | k in st.expiry && !(k in ks && Expired(st, k, now))
  }

  function Purged<T>(st: Store<T>, ks: set<string>, now: int): Store<T> {
    RestrictStore(st, Survivors(st, ks, now))
  }

  lemma {:induction false} PurgedStep<T>(st: Store<T>, ks: set<string>, k: string, now: int)
    requires Sound(st)
    ensures Checked(Purged(st, ks, now), k, now) == Purged(st, ks + {k}, now)
    ensures k in st.expiry && k !in ks ==> Expired(Purged(st, ks, now), k, now) == Expired(st, k, now)
  {
    var some, more := Survivors(st, ks, now), Survivors(st, ks + {k}, now);
    var mid := RestrictStore(st, some);
    if Expired(mid, k, now) {
      RestrictStoreTwice(st, some, mid.expiry.Keys - {k});
      assert some * (mid.expiry.Keys - {k}) == more;
    } else {
      assert some == more;
    }
  }

  lemma {:induction false} PurgedEnds<T>(st: Store<T>, now: int)
    requires Sound(st)
    ensures Purged(st, {}, now) == st
    ensures Purged(st, Elements(st.data.keys), now) == View(st, now)
  {
    RestrictAll(st.data, Survivors(st, {}, now));
    RestrictStoreAgree(st, Survivors(st, Elements(st.data.keys), now), Unexpired(st, now));
  }

  /** One round of the scan. */
  lemma {:induction false} ScanStep<T>(st: Store<T>, all: seq<string>, i: nat, now: int)
    requires Sound(st) && NoDup(all) && i < |all| && all[i] in st.expiry
    ensures Checked(Purged(st, Elements(all[..i]), now), all[i], now) == Purged(st, Elements(all[..i + 1]), now)
    ensures Expired(Purged(st, Elements(all[..i]), now), all[i], now) == Expired(st, all[i], now)
    ensures Keep(all[..i + 1], Unexpired(st, now))
         == Keep(all[..i], Unexpired(st, now)) + if Expired(st, all[i], now) then [] else [all[i]]
  {
    assert all[..i + 1] == all[..i] + [all[i]];
    assert Elements(all[..i + 1]) == Elements(all[..i]) + {all[i]};
    KeepAppend(all[..i], all[i], Unexpired(st, now));
    PurgedStep(st, Elements(all[..i]), all[i], now);
  }

  // ------------------------------------------------------------- the class

  class MemorySessionStorage<T> {
    const expiration: int
    var data: Dict<T>
    var expiry: map<string, int>

    function Snapshot(): Store<T>
      reads this
    {
      Store(data, expiry)
    }

    ghost predicate Valid()
      reads this
    {
      Sound(Snapshot())
    }

    constructor (expiration: int)
      ensures Valid() && this.expiration == expiration
      ensures Snapshot() == Store(Empty(), map[])
    {
      this.expiration := expiration;
      data := Empty();
      expiry := map[];
    }

    function Lifetime(custom: Option<int>): int {
      if custom.Some? then custom.value else expiration
    }

    method DeleteEntry(key: string)
      requires Valid()
      requires key in data.at
      modifies this
      ensures Valid() && Snapshot() == Drop(old(Snapshot()), key)
    {
      CheckedSound(Snapshot(), key, 0);
      data := Remove(data, key);
      expiry := expiry - {key};
    }

    method CheckExpiry(key: string, now: int) returns (gone: bool)
      requires Valid()
      modifies this
      ensures Valid()
      ensures gone == Expired(old(Snapshot()), key, now)
      ensures Snapshot() == Checked(old(Snapshot()), key, now)
    {
      gone := key in expiry && now > expiry[key];
      if gone {
        DeleteEntry(key);
      }
    }

    method Create(value: T, key: string, custom: Option<int>, now: int)
      requires Valid()
      modifies this
      ensures Valid()
      ensures Snapshot() == Write(old(Snapshot()), key, value,
        now + if custom.Some? then custom.value else expiration)
    {
      data := Put(data, key, value);
      expiry := expiry[key := now + Lifetime(custom)];
    }

    method Get(key: string, now: int) returns (found: Option<T>)
      requires Valid()
      modifies this
      ensures Valid()
      ensures found == Lookup(old(Snapshot()), key, now)
      ensures Snapshot() == Checked(old(Snapshot()), key, now)
    {
      var gone := CheckExpiry(key, now);
      if gone || key !in data.at {
        return None;
      }
      return Some(data.at[key]);
    }

    method Update(key: string, value: T, resetExpiration: bool, custom: Option<int>, now: int) returns (done: bool)
      requires Valid()
      modifies this
      ensures Valid()
      ensures done == Lookup(old(Snapshot()), key, now).Some?
      ensures Snapshot() == Rewritten(old(Snapshot()), key, value, now,
        if !resetExpiration && key in old(expiry) then old(expiry)[key]
        else now + if custom.Some? then custom.value else expiration)
    {
      if key !in data.at {
        return false;
      }
      var gone := CheckExpiry(key, now);
      if gone {
        return false;
      }
      data := Put(data, key, value);
      if resetExpiration {
        expiry := expiry[key := now + Lifetime(custom)];
      }
      return true;
    }

    method Delete(key: string) returns (done: bool)
      requires Valid()
      modifies this
      ensures Valid()
      ensures done == (key in old(data).at)
      ensures Snapshot() == if done then Drop(old(Snapshot()), key) else old(Snapshot())
    {
      done := key in data.at;
      if done {
        DeleteEntry(key);
      }
    }

    method Extend(key: string, custom: Option<int>, now: int) returns (done: bool)
      requires Valid()
      modifies this
      ensures Valid()
      ensures done == Lookup(old(Snapshot()), key, now).Some?
      ensures Snapshot() ==
        if done
        then Write(old(Snapshot()), key, old(data).at[key], now + if custom.Some? then custom.value else expiration)
        else Checked(old(Snapshot()), key, now)
    {
      if key !in data.at {
        return false;
      }
      var gone := CheckExpiry(key, now);
      if !gone {
        expiry := expiry[key := now + Lifetime(custom)];
      }
      return !gone;
    }

    method Exists(key: string, now: int) returns (here: bool)
      requires Valid()
      modifies this
      ensures Valid()
      ensures here == Lookup(old(Snapshot()), key, now).Some?
      ensures Snapshot() == Checked(old(Snapshot()), key, now)
    {
      if key !in data.at {
        return false;
      }
      var gone := CheckExpiry(key, now);
      return !gone;
    }

    /** Lists the unexpired keys in insertion order and drops all the others. */
    method ScanIter(now: int) returns (matching: seq<string>)
      requires Valid()
      modifies this
      ensures Valid()
      ensures Snapshot() == View(old(Snapshot()), now)
      ensures matching == Snapshot().data.keys
    {
      ghost var before := Snapshot();
      var all := data.keys;
      matching := [];
      PurgedEnds(before, now);
      assert Elements(all[..0]) == {};
      for i := 0 to |all|
        invariant Valid()
        invariant Snapshot() == Purged(before, Elements(all[..i]), now)
        invariant matching == Keep(all[..i], Unexpired(before, now))
      {
        ScanStep(before, all, i, now);
        var gone := CheckExpiry(all[i], now);
        if !gone {
          matching := matching + [all[i]];
        }
      }
      assert all[..|all|] == all;
    }

    method Close()
      modifies this
      ensures Valid() && Snapshot() == Store(Empty(), map[])
    {
      data := Empty();
      expiry := map[];
    }
  }
}
