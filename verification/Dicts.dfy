/** Python's `dict` with string keys: a map together with the insertion order of its keys. */
module Dicts {
  import opened Ordering

  datatype Dict<+V> = Dict(keys: seq<string>, at: map<string, V>)

  const EMPTY_KEYS: seq<string> := []

  function Empty<V>(): Dict<V> {
    Dict(EMPTY_KEYS, map[])
  }

  ghost predicate Proper<V>(d: Dict<V>) {
    NoDup(d.keys) && forall k :: k in d.keys <==> k in d.at
  }

  /** `d[k] = v`: a new key goes to the end, an old one stays where it is. */
  function Put<V>(d: Dict<V>, k: string, v: V): Dict<V> {
    Dict(if k in d.at then d.keys else d.keys + [k], d.at[k := v])
  }

  /** The entries whose key lies in `ks`. */
  function Restrict<V>(d: Dict<V>, ks: set<string>): Dict<V> {
    Dict(Keep(d.keys, ks), map k | k in d.at && k in ks :: d.at[k])
  }

  /** `del d[k]`. */
  function Remove<V>(d: Dict<V>, k: string): Dict<V> {
    Restrict(d, d.at.Keys - {k})
  }

  lemma {:induction false} PutProper<V>(d: Dict<V>, k: string, v: V)
    requires Proper(d)
    ensures Proper(Put(d, k, v))
  {
  }

  lemma {:induction false} RestrictProper<V>(d: Dict<V>, ks: set<string>)
    requires Proper(d)
    ensures Proper(Restrict(d, ks))
  {
    KeepNoDup(d.keys, ks);
    KeepMembers(d.keys, ks);
  }

  lemma {:induction false} RestrictTwice<V>(d: Dict<V>, a: set<string>, b: set<string>)
    ensures Restrict(Restrict(d, a), b) == Restrict(d, a * b)
  {
    KeepTwice(d.keys, a, b);
  }

  lemma {:induction false} RestrictAgree<V>(d: Dict<V>, a: set<string>, b: set<string>)
    requires Proper(d)
    requires forall k | k in d.at :: k in a <==> k in b
    ensures Restrict(d, a) == Restrict(d, b)
  {
    KeepAgree(d.keys, a, b);
  }

  lemma {:induction false} RestrictAll<V>(d: Dict<V>, a: set<string>)
    requires Proper(d) && d.at.Keys <= a
    ensures Restrict(d, a) == d
  {
    KeepAll(d.keys, a);
  }

  /** Restricting before or after writing a key outside the restriction makes no difference. */
  lemma {:induction false} RestrictPutOutside<V>(d: Dict<V>, k: string, v: V, ks: set<string>)
    requires Proper(d) && k !in ks
    ensures Restrict(Put(d, k, v), ks) == Restrict(d, ks)
  {
    if k !in d.at {
      KeepAppend(d.keys, k, ks);
    }
  }

  lemma {:induction false} RestrictPutInside<V>(d: Dict<V>, k: string, v: V, ks: set<string>)
    requires Proper(d) && k in ks
    ensures Restrict(Put(d, k, v), ks) == Put(Restrict(d, ks), k, v)
  {
    if k !in d.at {
      KeepAppend(d.keys, k, ks);
    }
  }

  /** Cutting a set of keys and then one more. */
  lemma {:induction false} CutMore<V>(d: Dict<V>, gone: set<string>, k: string)
    ensures Remove(Restrict(d, d.at.Keys - gone), k) == Restrict(d, d.at.Keys - (gone + {k}))
  {
    var cut := Restrict(d, d.at.Keys - gone);
    RestrictTwice(d, d.at.Keys - gone, cut.at.Keys - {k});
    assert (d.at.Keys - gone) * (cut.at.Keys - {k}) == d.at.Keys - (gone + {k});
  }
}
