/**
 Sequences without repetitions, filtering by a set, and Python's stable `list.sort(key=...)`.
 The key of an element is looked up in a weight map, so no member of this module takes a closure.
 */
module Ordering {

  ghost predicate NoDup<T>(s: seq<T>) {
    forall i, j | 0 <= i < j < |s| :: s[i] != s[j]
  }

  function Elements<T(==)>(s: seq<T>): set<T> {
    set x | x in s
  }

  /** The elements of `s` that lie in `keep`, in their order. */
  function Keep<T(==)>(s: seq<T>, keep: set<T>): seq<T> {
    if s == [] then []
    else Keep(s[..|s| - 1], keep) + if s[|s| - 1] in keep then [s[|s| - 1]] else []
  }

  ghost predicate Covers<T>(w: map<T, int>, s: seq<T>) {
    forall x | x in s :: x in w
  }

  /** Puts `x` behind every element that is not heavier. */
  function Insert<T(==)>(s: seq<T>, x: T, w: map<T, int>): (r: seq<T>)
    requires Covers(w, s) && x in w
    ensures Covers(w, r)
  {
    if s == [] then [x]
    else if w[s[|s| - 1]] <= w[x] then s + [x]
    else Insert(s[..|s| - 1], x, w) + [s[|s| - 1]]
  }

  /** The stable sort by increasing weight. */
  function Sort<T(==)>(s: seq<T>, w: map<T, int>): (r: seq<T>)
    requires Covers(w, s)
    ensures Covers(w, r)
  {
    if s == [] then [] else Insert(Sort(s[..|s| - 1], w), s[|s| - 1], w)
  }

  // ---------------------------------------------------------------- Keep

  lemma {:induction false} KeepMembers<T>(s: seq<T>, keep: set<T>)
    ensures forall x :: x in Keep(s, keep) <==> x in s && x in keep
    ensures |Keep(s, keep)| <= |s|
  {
    if s != [] {
      KeepMembers(s[..|s| - 1], keep);
      assert s == s[..|s| - 1] + [s[|s| - 1]];
    }
  }

  lemma {:induction false} KeepNoDup<T>(s: seq<T>, keep: set<T>)
    requires NoDup(s)
    ensures NoDup(Keep(s, keep))
  {
    if s != [] {
      KeepNoDup(s[..|s| - 1], keep);
      KeepMembers(s[..|s| - 1], keep);
    }
  }

  lemma {:induction false} KeepAppend<T>(s: seq<T>, x: T, keep: set<T>)
    ensures Keep(s + [x], keep) == Keep(s, keep) + if x in keep then [x] else []
  {
  }

  lemma {:induction false} KeepConcat<T>(s: seq<T>, t: seq<T>, keep: set<T>)
    ensures Keep(s + t, keep) == Keep(s, keep) + Keep(t, keep)
  {
    if t == [] {
      assert s + t == s;
    } else {
      KeepConcat(s, t[..|t| - 1], keep);
      assert (s + t)[..|s + t| - 1] == s + t[..|t| - 1];
    }
  }

  /** Only membership of the elements of `s` matters. */
  lemma {:induction false} KeepAgree<T>(s: seq<T>, a: set<T>, b: set<T>)
    requires forall x | x in s :: x in a <==> x in b
    ensures Keep(s, a) == Keep(s, b)
  {
    if s != [] {
      KeepAgree(s[..|s| - 1], a, b);
    }
  }

  lemma {:induction false} KeepAll<T>(s: seq<T>, keep: set<T>)
    requires forall x | x in s :: x in keep
    ensures Keep(s, keep) == s
  {
    if s != [] {
      KeepAll(s[..|s| - 1], keep);
    }
  }

  lemma {:induction false} KeepNone<T>(s: seq<T>, keep: set<T>)
    requires forall x | x in s :: x !in keep
    ensures Keep(s, keep) == []
  {
    if s != [] {
      KeepNone(s[..|s| - 1], keep);
    }
  }

  lemma {:induction false} KeepTwice<T>(s: seq<T>, a: set<T>, b: set<T>)
    ensures Keep(Keep(s, a), b) == Keep(s, a * b)
  {
    if s != [] {
      var front, x := s[..|s| - 1], s[|s| - 1];
      KeepTwice(front, a, b);
      KeepConcat(Keep(front, a), if x in a then [x] else [], b);
      KeepAppend([], x, b);
      assert [] + [x] == [x];
    }
  }

  lemma {:induction false} NoDupCount<T>(s: seq<T>)
    requires NoDup(s)
    ensures |Elements(s)| == |s|
  {
    if s != [] {
      var front, x := s[..|s| - 1], s[|s| - 1];
      NoDupCount(front);
      assert Elements(s) == Elements(front) + {x};
      assert x !in front;
    }
  }

  lemma {:induction false} ElementsSplit<T>(s: seq<T>)
    requires s != []
    ensures Elements(s) == Elements(s[..|s| - 1]) + {s[|s| - 1]}
  {
  }

  lemma {:induction false} Difference<T>(a: set<T>, b: set<T>)
    requires b <= a
    ensures |a - b| == |a| - |b|
  {
  }

  lemma {:induction false} FullSubset<T>(a: set<T>, b: set<T>)
    requires a <= b
    ensures |a| <= |b|
    ensures |a| == |b| ==> a == b
  {
    assert b == a + (b - a);
  }

  // ---------------------------------------------------------------- Sort

  lemma {:induction false} InsertMembers<T>(s: seq<T>, x: T, w: map<T, int>)
    requires Covers(w, s) && x in w
    ensures multiset(Insert(s, x, w)) == multiset(s) + multiset{x}
  {
    if s != [] && w[s[|s| - 1]] > w[x] {
      InsertMembers(s[..|s| - 1], x, w);
      assert s == s[..|s| - 1] + [s[|s| - 1]];
    }
  }

  lemma {:induction false} SortPermutes<T>(s: seq<T>, w: map<T, int>)
    requires Covers(w, s)
    ensures multiset(Sort(s, w)) == multiset(s)
  {
    if s != [] {
      SortPermutes(s[..|s| - 1], w);
      InsertMembers(Sort(s[..|s| - 1], w), s[|s| - 1], w);
      assert s == s[..|s| - 1] + [s[|s| - 1]];
    }
  }

  lemma {:induction false} SortMembers<T>(s: seq<T>, w: map<T, int>)
    requires Covers(w, s)
    ensures |Sort(s, w)| == |s|
    ensures forall x :: x in Sort(s, w) <==> x in s
  {
    SortPermutes(s, w);
    assert |multiset(Sort(s, w))| == |multiset(s)|;
    forall x ensures x in Sort(s, w) <==> x in s {
      assert x in multiset(Sort(s, w)) <==> x in multiset(s);
    }
  }

  lemma {:induction false} SortLength<T>(s: seq<T>, w: map<T, int>)
    requires Covers(w, s)
    ensures |Sort(s, w)| == |s|
  {
    SortMembers(s, w);
  }

  /** `a` stands strictly before `b` in `s`. */
  ghost predicate Precedes<T>(s: seq<T>, a: T, b: T) {
    exists i, j :: 0 <= i < j < |s| && s[i] == a && s[j] == b
  }

  /** The order a stable sort establishes: lighter first, equals as they stood in `base`. */
  ghost predicate Ranked<T>(s: seq<T>, base: seq<T>, w: map<T, int>)
    requires Covers(w, s)
  {
    forall i, j | 0 <= i < j < |s| :: Before(s[i], s[j], base, w)
  }

  /** `a` may stand before `b` in the sorted list. */
  ghost predicate Before<T>(a: T, b: T, base: seq<T>, w: map<T, int>)
    requires a in w && b in w
  {
    w[a] < w[b] || (w[a] == w[b] && Precedes(base, a, b))
  }

  lemma {:induction false} InsertRanks<T>(s: seq<T>, x: T, base: seq<T>, w: map<T, int>)
    requires Covers(w, s) && x in w
    requires Ranked(s, base, w)
    requires forall y | y in s :: Precedes(base, y, x)
    ensures Ranked(Insert(s, x, w), base, w)
    ensures forall y :: y in Insert(s, x, w) ==> y == x || y in s
  {
    if s != [] {
      var front, z := s[..|s| - 1], s[|s| - 1];
      if w[z] <= w[x] {
        forall i | 0 <= i < |s| ensures w[s[i]] <= w[x] {
          assert i < |s| - 1 ==> Before(s[i], z, base, w);
        }
      } else {
        InsertRanks(front, x, base, w);
        var t := Insert(front, x, w);
        forall i | 0 <= i < |t| ensures Before(t[i], z, base, w) {
          if t[i] != x {
            assert t[i] in front;
          }
        }
      }
    }
  }

  /** Sorting orders by weight and keeps equally heavy elements in their original order. */
  lemma {:induction false} SortRanks<T>(s: seq<T>, w: map<T, int>)
    requires Covers(w, s)
    ensures Ranked(Sort(s, w), s, w)
  {
    if s != [] {
      var front, x := s[..|s| - 1], s[|s| - 1];
      SortRanks(front, w);
      SortMembers(front, w);
      forall a, b | Precedes(front, a, b) ensures Precedes(s, a, b) {
        var i, j :| 0 <= i < j < |front| && front[i] == a && front[j] == b;
        assert s[i] == a && s[j] == b;
      }
      forall y | y in front ensures Precedes(s, y, x) {
        var i :| 0 <= i < |front| && front[i] == y;
        assert s[i] == y && s[|s| - 1] == x;
      }
      assert Ranked(Sort(front, w), s, w);
      InsertRanks(Sort(front, w), x, s, w);
    }
  }

  /** A duplicate-free list sorts into a duplicate-free list. */
  lemma {:induction false} SortNoDup<T>(s: seq<T>, w: map<T, int>)
    requires Covers(w, s) && NoDup(s)
    ensures NoDup(Sort(s, w))
  {
    SortRanks(s, w);
    var t := Sort(s, w);
    forall i, j | 0 <= i < j < |t| ensures t[i] != t[j] {
      assert Before(t[i], t[j], s, w);
    }
  }

  /** Sorting depends on the weights of the sorted elements only. */
  lemma {:induction false} SortWeights<T>(s: seq<T>, v: map<T, int>, w: map<T, int>)
    requires Covers(v, s) && Covers(w, s)
    requires forall x | x in s :: v[x] == w[x]
    ensures Sort(s, v) == Sort(s, w)
  {
    if s != [] {
      SortWeights(s[..|s| - 1], v, w);
      SortMembers(s[..|s| - 1], v);
      InsertWeights(Sort(s[..|s| - 1], v), s[|s| - 1], v, w);
    }
  }

  lemma {:induction false} InsertWeights<T>(s: seq<T>, x: T, v: map<T, int>, w: map<T, int>)
    requires Covers(v, s) && Covers(w, s) && x in v && x in w
    requires v[x] == w[x] && forall y | y in s :: v[y] == w[y]
    ensures Insert(s, x, v) == Insert(s, x, w)
  {
    if s != [] {
      InsertWeights(s[..|s| - 1], x, v, w);
    }
  }

  /** No two elements weigh the same. */
  ghost predicate Distinct<T>(s: seq<T>, w: map<T, int>)
    requires Covers(w, s)
  {
    forall x, y | x in s && y in s && w[x] == w[y] :: x == y
  }

  ghost predicate Rising<T>(s: seq<T>, w: map<T, int>)
    requires Covers(w, s)
  {
    forall i, j | 0 <= i < j < |s| :: w[s[i]] < w[s[j]]
  }

  lemma {:induction false} RisingFront<T>(s: seq<T>, x: T, w: map<T, int>)
    requires Covers(w, s) && Rising(s, w) && s != []
    ensures x in s ==> w[x] <= w[s[|s| - 1]]
    ensures x in s[..|s| - 1] <==> x in s && x != s[|s| - 1]
  {
  }

  lemma {:induction false} RisingLast<T>(s: seq<T>, t: seq<T>, w: map<T, int>)
    requires Covers(w, s) && Covers(w, t) && Rising(s, w) && Rising(t, w) && s != [] && t != []
    requires forall x :: x in s <==> x in t
    requires Distinct(s, w)
    ensures s[|s| - 1] == t[|t| - 1]
  {
    var x, y := s[|s| - 1], t[|t| - 1];
    assert x in s && x in t && y in t && y in s;
    RisingFront(s, y, w);
    RisingFront(t, x, w);
  }

  lemma {:induction false} RisingFronts<T>(s: seq<T>, t: seq<T>, w: map<T, int>, a: seq<T>, b: seq<T>)
    requires Covers(w, s) && Covers(w, t) && Rising(s, w) && Rising(t, w) && s != [] && t != []
    requires forall x :: x in s <==> x in t
    requires Distinct(s, w)
    requires a == s[..|s| - 1] && b == t[..|t| - 1]
    ensures s[|s| - 1] == t[|t| - 1]
    ensures Covers(w, a) && Covers(w, b) && Rising(a, w) && Rising(b, w) && Distinct(a, w)
    ensures forall x :: x in a <==> x in b
  {
    RisingLast(s, t, w);
    forall x ensures x in a <==> x in b {
      RisingFront(s, x, w);
      RisingFront(t, x, w);
    }
  }

  /** Lists of rising weight with the same elements are the same. */
  lemma {:induction false} RisingUnique<T>(s: seq<T>, t: seq<T>, w: map<T, int>)
    requires Covers(w, s) && Covers(w, t) && Rising(s, w) && Rising(t, w)
    requires forall x :: x in s <==> x in t
    requires Distinct(s, w)
    ensures s == t
    decreases |s|
  {
    assert t != [] ==> t[0] in t && t[0] in s;
    assert s != [] ==> s[0] in s && s[0] in t;
    if s != [] && t != [] {
      var a, b := s[..|s| - 1], t[..|t| - 1];
      RisingFronts(s, t, w, a, b);
      RisingUnique(a, b, w);
      assert s == a + [s[|s| - 1]] && t == b + [t[|t| - 1]];
    }
  }

  lemma {:induction false} SortRises<T>(s: seq<T>, w: map<T, int>)
    requires Covers(w, s) && NoDup(s) && Distinct(s, w)
    ensures Rising(Sort(s, w), w)
  {
    SortRanks(s, w);
    SortNoDup(s, w);
    SortMembers(s, w);
    var t := Sort(s, w);
    forall i, j | 0 <= i < j < |t| ensures w[t[i]] < w[t[j]] {
      assert t[i] in t && t[j] in t && Before(t[i], t[j], s, w);
    }
  }

  /** Without ties, the original order of a list does not show in the sorted one. */
  lemma {:induction false} SortOrderFree<T>(s: seq<T>, t: seq<T>, w: map<T, int>)
    requires Covers(w, s) && Covers(w, t) && NoDup(s) && NoDup(t)
    requires forall x :: x in s <==> x in t
    requires Distinct(s, w)
    ensures Sort(s, w) == Sort(t, w)
  {
    SortRises(s, w);
    SortRises(t, w);
    SortMembers(s, w);
    SortMembers(t, w);
    RisingUnique(Sort(s, w), Sort(t, w), w);
  }

  lemma {:induction false} InsertBelow<T>(low: seq<T>, high: seq<T>, x: T, w: map<T, int>)
    requires Covers(w, low) && Covers(w, high) && x in w
    requires forall b | b in high :: w[x] < w[b]
    ensures Covers(w, low + high)
    ensures Insert(low + high, x, w) == Insert(low, x, w) + high
  {
    if high == [] {
      assert low + high == low;
    } else {
      InsertBelow(low, high[..|high| - 1], x, w);
      assert (low + high)[..|low + high| - 1] == low + high[..|high| - 1];
    }
  }

  lemma {:induction false} InsertAbove<T>(low: seq<T>, high: seq<T>, x: T, w: map<T, int>)
    requires Covers(w, low) && Covers(w, high) && x in w
    requires forall a | a in low :: w[a] < w[x]
    ensures Covers(w, low + high)
    ensures Insert(low + high, x, w) == low + Insert(high, x, w)
  {
    if high == [] {
      assert low + high == low;
    } else {
      InsertAbove(low, high[..|high| - 1], x, w);
      assert (low + high)[..|low + high| - 1] == low + high[..|high| - 1];
    }
  }

  /** Everything of `s` outside `top` is lighter than everything inside. */
  ghost predicate TopHeavy<T>(s: seq<T>, top: set<T>, w: map<T, int>)
    requires Covers(w, s)
  {
    forall a, b | a in s && b in s && a !in top && b in top :: w[a] < w[b]
  }

  /** When everything outside `top` is lighter than everything inside, the two parts sort separately. */
  lemma {:induction false} SortSplits<T>(s: seq<T>, top: set<T>, rest: set<T>, w: map<T, int>)
    requires Covers(w, s) && TopHeavy(s, top, w)
    requires forall x | x in s :: x in rest <==> x !in top
    ensures Covers(w, Keep(s, rest)) && Covers(w, Keep(s, top))
    ensures Sort(s, w) == Sort(Keep(s, rest), w) + Sort(Keep(s, top), w)
  {
    KeepMembers(s, rest);
    KeepMembers(s, top);
    if s != [] {
      var front, x := s[..|s| - 1], s[|s| - 1];
      KeepMembers(front, rest);
      KeepMembers(front, top);
      var low, high := Keep(front, rest), Keep(front, top);
      SortSplits(front, top, rest, w);
      SortSplitsStep(low, high, x, top, w);
      if x in top {
        assert Keep(s, top) == high + [x] && Keep(s, rest) == low;
      } else {
        assert Keep(s, top) == high && Keep(s, rest) == low + [x];
      }
    }
  }

  lemma {:induction false} SortSplitsStep<T>(low: seq<T>, high: seq<T>, x: T, top: set<T>, w: map<T, int>)
    requires Covers(w, low) && Covers(w, high) && x in w
    requires x in top ==> forall a | a in low :: w[a] < w[x]
    requires x !in top ==> forall b | b in high :: w[x] < w[b]
    requires Covers(w, Sort(low, w) + Sort(high, w))
    ensures x in top ==> Insert(Sort(low, w) + Sort(high, w), x, w) == Sort(low, w) + Sort(high + [x], w)
    ensures x !in top ==> Insert(Sort(low, w) + Sort(high, w), x, w) == Sort(low + [x], w) + Sort(high, w)
  {
    SortMembers(low, w);
    SortMembers(high, w);
    if x in top {
      assert (high + [x])[..|high|] == high;
      InsertAbove(Sort(low, w), Sort(high, w), x, w);
    } else {
      assert (low + [x])[..|low|] == low;
      InsertBelow(Sort(low, w), Sort(high, w), x, w);
    }
  }
}
