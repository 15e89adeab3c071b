/** Usage analytics of API keys: totals, the endpoint ranking, the error breakdown and the daily rows. */
module UsageAnalytics {
  import opened Wrappers
  import opened Ordering
  import opened Dicts
  import opened Text

  /**
   An entry of the list handed in: anything, or a record with its fields as far as it has them.
   `day` is the date of a `created_at` that can be read as one, as the number yyyymmdd.
   */
  datatype Usage =
    | NotARecord
    | Record(endpoint: Option<string>, status: Option<int>, tokens: Option<int>, cost: Option<int>, day: Option<int>)

  function OrZero(x: Option<int>): int {
    if x.Some? then x.value else 0
  }

  function EndpointOf(u: Usage): string
    requires u.Record?
  {
    if u.endpoint.Some? then u.endpoint.value else ""
  }

  predicate Succeeded(u: Usage) {
    u.Record? && 200 <= OrZero(u.status) < 300
  }

  predicate Erroneous(u: Usage) {
    u.Record? && OrZero(u.status) >= 400
  }

  /** What can be added up over the entries. */
  datatype Measure =
    | Entries | Records | Successes | Failures | Tokens | Cost | Errors
    | ErrorsWith(status: int)
    | OnDay(day: int, of: Measure)

  function Amount(m: Measure, u: Usage): int {
    match m
    case Entries => 1
    case Records => if u.Record? then 1 else 0
    case Successes => if Succeeded(u) then 1 else 0
    case Failures => if Succeeded(u) then 0 else 1
    case Tokens => if u.Record? then OrZero(u.tokens) else 0
    case Cost => if u.Record? then OrZero(u.cost) else 0
    case Errors => if Erroneous(u) then 1 else 0
    case ErrorsWith(status) => if Erroneous(u) && OrZero(u.status) == status then 1 else 0
    case OnDay(day, of) => if u.Record? && u.day == Some(day) then Amount(of, u) else 0
  }

  function Total(us: seq<Usage>, m: Measure): int {
    if us == [] then 0 else Total(us[..|us| - 1], m) + Amount(m, us[|us| - 1])
  }

  lemma {:induction false} TotalConcat(a: seq<Usage>, b: seq<Usage>, m: Measure)
    ensures Total(a + b, m) == Total(a, m) + Total(b, m)
  {
    if b == [] {
      assert a + b == a;
    } else {
      TotalConcat(a, b[..|b| - 1], m);
      assert (a + b)[..|a + b| - 1] == a + b[..|b| - 1];
    }
  }

  lemma {:induction false} TakeOut<T>(s: seq<T>, i: nat)
    requires i < |s|
    ensures multiset(s) == multiset(s[..i] + s[i + 1..]) + multiset{s[i]}
  {
    assert s == s[..i] + [s[i]] + s[i + 1..];
  }

  lemma {:induction false} TotalTakeOut(s: seq<Usage>, i: nat, m: Measure)
    requires i < |s|
    ensures Total(s, m) == Total(s[..i] + s[i + 1..], m) + Amount(m, s[i])
  {
    assert s == s[..i + 1] + s[i + 1..] && s[..i + 1][..i] == s[..i];
    TotalConcat(s[..i + 1], s[i + 1..], m);
    TotalConcat(s[..i], s[i + 1..], m);
  }

  /** Totals do not depend on the order of the entries. */
  lemma {:induction false} TotalPermutes(a: seq<Usage>, b: seq<Usage>, m: Measure)
    requires multiset(a) == multiset(b)
    ensures Total(a, m) == Total(b, m)
    decreases |a|
  {
    if a == [] {
      assert |multiset(b)| == 0;
    } else {
      var front, x := a[..|a| - 1], a[|a| - 1];
      assert a[..|a| - 1] + a[|a| - 1 + 1..] == front;
      TakeOut(a, |a| - 1);
      assert x in multiset(b);
      var i :| 0 <= i < |b| && b[i] == x;
      TakeOut(b, i);
      assert multiset(front) == multiset(a) - multiset{x};
      assert multiset(b[..i] + b[i + 1..]) == multiset(b) - multiset{x};
      TotalTakeOut(b, i, m);
      TotalPermutes(front, b[..i] + b[i + 1..], m);
    }
  }

  // ------------------------------------------------------------- basic metrics

  datatype Metrics = Metrics(requests: int, successful: int, failed: int, tokens: int, cost: int)

  /** The entries of a comprehension filtered by success. */
  function Successful(us: seq<Usage>): seq<Usage> {
    if us == [] then [] else Successful(us[..|us| - 1]) + if Succeeded(us[|us| - 1]) then [us[|us| - 1]] else []
  }

  function BasicMetrics(us: seq<Usage>): Metrics {
    var successful := |Successful(us)|;
    Metrics(|us|, successful, |us| - successful, Total(us, Tokens), Total(us, Cost))
  }

  lemma {:induction false} CountsAreTotals(us: seq<Usage>)
    ensures |us| == Total(us, Entries) && |Successful(us)| == Total(us, Successes)
    ensures Total(us, Successes) + Total(us, Failures) == Total(us, Entries)
  {
    if us != [] {
      CountsAreTotals(us[..|us| - 1]);
    }
  }

  /** The metrics of two lists together are the sums of theirs, and any order of the entries gives the same. */
  lemma {:induction false} MetricsMerge(a: seq<Usage>, b: seq<Usage>, c: seq<Usage>)
    requires multiset(c) == multiset(a + b)
    ensures var x, y := BasicMetrics(a), BasicMetrics(b);
      BasicMetrics(c) == Metrics(x.requests + y.requests, x.successful + y.successful, x.failed + y.failed,
                                 x.tokens + y.tokens, x.cost + y.cost)
  {
    CountsAreTotals(a);
    CountsAreTotals(b);
    CountsAreTotals(c);
    TotalsMerge(a, b, c, Entries);
    TotalsMerge(a, b, c, Successes);
    TotalsMerge(a, b, c, Tokens);
    TotalsMerge(a, b, c, Cost);
  }

  /** The metrics of a single entry, on its fields; by `MetricsMerge` those of every list follow. */
  lemma {:induction false} OneEntry(u: Usage)
    ensures u.NotARecord? ==> BasicMetrics([u]) == Metrics(1, 0, 1, 0, 0)
    ensures u.Record? ==>
      BasicMetrics([u]) == Metrics(1, SuccessOf(u.status), 1 - SuccessOf(u.status), Field(u.tokens), Field(u.cost))
  {
    assert Total([], Tokens) == 0 && Total([], Cost) == 0 && Successful([]) == [];
    assert [u][..0] == [];
  }

  /** What a missing or empty field counts as. */
  ghost function Field(x: Option<int>): int {
    match x
    case None => 0
    case Some(n) => n
  }

  ghost function SuccessOf(status: Option<int>): int {
    match status
    case None => 0
    case Some(code) => if 200 <= code < 300 then 1 else 0
  }

  lemma {:induction false} TotalsMerge(a: seq<Usage>, b: seq<Usage>, c: seq<Usage>, m: Measure)
    requires multiset(c) == multiset(a + b)
    ensures Total(c, m) == Total(a, m) + Total(b, m)
  {
    TotalPermutes(c, a + b, m);
    TotalConcat(a, b, m);
  }

  // ------------------------------------------------------------- counting in a dictionary

  function Bumped(d: Dict<int>, k: string): Dict<int> {
    Put(d, k, (if k in d.at then d.at[k] else 0) + 1)
  }

  /** A dictionary of counts, filled key by key. */
  function Tally(ks: seq<string>): Dict<int> {
    if ks == [] then Empty() else Bumped(Tally(ks[..|ks| - 1]), ks[|ks| - 1])
  }

  function Count(ks: seq<string>, k: string): nat {
    if ks == [] then 0 else Count(ks[..|ks| - 1], k) + if ks[|ks| - 1] == k then 1 else 0
  }

  lemma {:induction false} TallyAppend(ks: seq<string>, k: string)
    ensures Tally(ks + [k]) == Bumped(Tally(ks), k)
    ensures forall x :: Count(ks + [k], x) == Count(ks, x) + if k == x then 1 else 0
  {
  }

  lemma {:induction false} CountPositive(ks: seq<string>, k: string)
    ensures Count(ks, k) > 0 <==> k in ks
  {
    if ks != [] {
      CountPositive(ks[..|ks| - 1], k);
      assert ks == ks[..|ks| - 1] + [ks[|ks| - 1]];
    }
  }

  /** The dictionary has exactly the keys that occur, each with the number of its occurrences. */
  lemma {:induction false} TallyExact(ks: seq<string>)
    ensures Proper(Tally(ks))
    ensures forall k :: k in Tally(ks).at <==> k in ks
    ensures forall k | k in ks :: Tally(ks).at[k] == Count(ks, k)
  {
    if ks != [] {
      var front, x := ks[..|ks| - 1], ks[|ks| - 1];
      TallyExact(front);
      PutProper(Tally(front), x, Count(front, x) + 1);
      CountPositive(front, x);
      assert ks == front + [x];
    }
  }

  function FirstIndex(ks: seq<string>, k: string): nat
    requires k in ks
  {
    if k in ks[..|ks| - 1] then FirstIndex(ks[..|ks| - 1], k) else |ks| - 1
  }

  /** Keys stand in the order of their first occurrence. */
  lemma {:induction false} TallyOrder(ks: seq<string>, a: string, b: string)
    requires Precedes(Tally(ks).keys, a, b)
    ensures a in ks && b in ks && FirstIndex(ks, a) < FirstIndex(ks, b)
  {
    TallyExact(ks);
    var i, j :| 0 <= i < j < |Tally(ks).keys| && Tally(ks).keys[i] == a && Tally(ks).keys[j] == b;
    if ks != [] {
      var front, x := ks[..|ks| - 1], ks[|ks| - 1];
      TallyExact(front);
      var earlier := Tally(front).keys;
      FirstIndexBound(front, a);
      if j < |earlier| {
        assert Precedes(earlier, a, b) by {
          assert earlier[i] == a && earlier[j] == b;
        }
        TallyOrder(front, a, b);
      } else {
        assert a in earlier && b == x && b !in front;
      }
    }
  }

  lemma {:induction false} FirstIndexBound(ks: seq<string>, k: string)
    ensures k in ks ==> FirstIndex(ks, k) < |ks|
  {
    if k in ks && k in ks[..|ks| - 1] {
      FirstIndexBound(ks[..|ks| - 1], k);
    }
  }

  function CountAll(list: seq<string>, ks: seq<string>): nat {
    if list == [] then 0 else CountAll(list[..|list| - 1], ks) + Count(ks, list[|list| - 1])
  }

  lemma {:induction false} CountAllStep(list: seq<string>, front: seq<string>, x: string)
    requires NoDup(list)
    ensures CountAll(list, front + [x]) == CountAll(list, front) + if x in list then 1 else 0
  {
    assert (front + [x])[..|front|] == front;
    if list != [] {
      CountAllStep(list[..|list| - 1], front, x);
      assert list == list[..|list| - 1] + [list[|list| - 1]];
    }
  }

  /** Over any list without repetition that has every key, the counts add up to the number of occurrences. */
  lemma {:induction false} CountsAddUp(list: seq<string>, ks: seq<string>)
    requires NoDup(list) && forall k | k in ks :: k in list
    ensures CountAll(list, ks) == |ks|
  {
    if ks == [] {
      CountAllEmpty(list);
    } else {
      var front, x := ks[..|ks| - 1], ks[|ks| - 1];
      CountsAddUp(list, front);
      CountAllStep(list, front, x);
      assert ks == front + [x];
    }
  }

  lemma {:induction false} CountAllEmpty(list: seq<string>)
    ensures CountAll(list, []) == 0
  {
    if list != [] {
      CountAllEmpty(list[..|list| - 1]);
    }
  }

  // ------------------------------------------------------------- endpoint ranking

  function Endpoints(us: seq<Usage>): seq<string> {
    if us == [] then []
    else Endpoints(us[..|us| - 1]) + if us[|us| - 1].Record? then [EndpointOf(us[|us| - 1])] else []
  }

  /** Endpoints are listed record by record; a missing one counts as the empty text. */
  lemma {:induction false} EndpointsMerge(a: seq<Usage>, b: seq<Usage>, u: Usage)
    ensures Endpoints(a + b) == Endpoints(a) + Endpoints(b)
    ensures Endpoints([u]) == match u
            case NotARecord => []
            case Record(None, _, _, _, _) => [""]
            case Record(Some(endpoint), _, _, _, _) => [endpoint]
  {
    assert [u][..0] == [] && Endpoints([]) == [];
    if b == [] {
      assert a + b == a;
    } else {
      EndpointsMerge(a, b[..|b| - 1], u);
      assert (a + b)[..|a + b| - 1] == a + b[..|b| - 1];
    }
  }

  /** Python's `s[:limit]`: a negative limit counts from the end. */
  function Take<T>(s: seq<T>, limit: int): seq<T> {
    if limit >= 0 then (if limit <= |s| then s[..limit] else s)
    else if |s| + limit >= 0 then s[..|s| + limit] else []
  }

  ghost function Min(a: int, b: int): int {
    if a < b then a else b
  }

  ghost function Max(a: int, b: int): int {
    if a < b then b else a
  }

  /** Sorting by count in reverse keeps equals in order, as sorting by the negated count does. */
  function Descending(d: Dict<int>): map<string, int> {
    map k | k in d.at :: -d.at[k]
  }

  function Ranking(us: seq<Usage>): seq<string> {
    var d := Tally(Endpoints(us));
    TallyExact(Endpoints(us));
    Sort(d.keys, Descending(d))
  }

  method CountEndpoints(us: seq<Usage>) returns (counts: Dict<int>)
    ensures counts == Tally(Endpoints(us))
  {
    counts := Empty();
    for i := 0 to |us|
      invariant counts == Tally(Endpoints(us[..i]))
    {
      assert us[..i + 1][..i] == us[..i];
      assert Endpoints(us[..i + 1])
          == if us[i].Record? then Endpoints(us[..i]) + [EndpointOf(us[i])] else Endpoints(us[..i]);
      if us[i].Record? {
        var endpoint := EndpointOf(us[i]);
        TallyAppend(Endpoints(us[..i]), endpoint);
        counts := Put(counts, endpoint, (if endpoint in counts.at then counts.at[endpoint] else 0) + 1);
      }
    }
    assert us[..|us|] == us;
  }

  method CalculateEndpointUsage(us: seq<Usage>, limit: int) returns (rows: seq<(string, int)>)
    ensures |rows| == if limit < 0 then Max(0, |Ranking(us)| + limit) else Min(limit, |Ranking(us)|)
    ensures forall i | 0 <= i < |rows| :: rows[i] == (Ranking(us)[i], Count(Endpoints(us), Ranking(us)[i]))
  {
    var counts := CountEndpoints(us);
    assert Covers(Descending(counts), counts.keys) by {
      TallyExact(Endpoints(us));
    }
    var top := Take(Sort(counts.keys, Descending(counts)), limit);
    assert top == Take(Ranking(us), limit);
    TopCounted(us, limit);
    rows := seq(|top|, i requires 0 <= i < |top| && top[i] in counts.at => (top[i], counts.at[top[i]]));
  }

  lemma {:induction false} TopCounted(us: seq<Usage>, limit: int)
    ensures forall i | 0 <= i < |Take(Ranking(us), limit)| ::
      var e, d := Take(Ranking(us), limit)[i], Tally(Endpoints(us));
      e in d.at && d.at[e] == Count(Endpoints(us), e)
  {
    var d := Tally(Endpoints(us));
    TallyExact(Endpoints(us));
    SortMembers(d.keys, Descending(d));
    forall i | 0 <= i < |Take(Ranking(us), limit)| ensures Take(Ranking(us), limit)[i] in Ranking(us) {
      assert Take(Ranking(us), limit)[i] == Ranking(us)[i];
    }
  }

  /**
   The ranking lists every endpoint once, by count descending and then by first appearance, and
   the counts add up to the number of records.
   */
  lemma {:induction false} RankingCorrect(us: seq<Usage>)
    ensures var es, r := Endpoints(us), Ranking(us);
      && NoDup(r) && (forall e :: e in r <==> e in es)
      && (forall i, j | 0 <= i < j < |r| :: Outranks(es, r[i], r[j]))
      && CountAll(r, es) == |es| == Total(us, Records)
  {
    var es := Endpoints(us);
    var d := Tally(es);
    TallyExact(es);
    SortMembers(d.keys, Descending(d));
    SortNoDup(d.keys, Descending(d));
    SortRanks(d.keys, Descending(d));
    CountsAddUp(Ranking(us), es);
    EndpointsCounted(us);
    var r := Ranking(us);
    forall i, j | 0 <= i < j < |r| ensures Outranks(es, r[i], r[j]) {
      assert Before(r[i], r[j], d.keys, Descending(d));
      if Precedes(d.keys, r[i], r[j]) {
        TallyOrder(es, r[i], r[j]);
      }
    }
  }

  ghost predicate Outranks(es: seq<string>, a: string, b: string) {
    || Count(es, a) > Count(es, b)
    || (Count(es, a) == Count(es, b) && a in es && b in es && FirstIndex(es, a) < FirstIndex(es, b))
  }

  lemma {:induction false} EndpointsCounted(us: seq<Usage>)
    ensures |Endpoints(us)| == Total(us, Records)
  {
    if us != [] {
      EndpointsCounted(us[..|us| - 1]);
    }
  }

  /** An endpoint that is not among the first `limit` of the ranking is outranked by each of them. */
  lemma {:induction false} TopEndpoints(us: seq<Usage>, limit: nat, i: nat, omitted: string)
    requires i < limit && i < |Ranking(us)|
    requires omitted in Endpoints(us) && forall j | 0 <= j < limit && j < |Ranking(us)| :: Ranking(us)[j] != omitted
    ensures limit < |Ranking(us)| && Outranks(Endpoints(us), Ranking(us)[i], omitted)
  {
    RankingCorrect(us);
    var j :| 0 <= j < |Ranking(us)| && Ranking(us)[j] == omitted;
  }

  // ------------------------------------------------------------- error breakdown

  function ErrorKeys(us: seq<Usage>): seq<string> {
    if us == [] then []
    else
      var u := us[|us| - 1];
      ErrorKeys(us[..|us| - 1]) + if Erroneous(u) then [Decimal(OrZero(u.status))] else []
  }

  method CalculateErrorBreakdown(us: seq<Usage>) returns (counts: Dict<int>)
    ensures counts == Tally(ErrorKeys(us))
  {
    counts := Empty();
    for i := 0 to |us|
      invariant counts == Tally(ErrorKeys(us[..i]))
    {
      assert us[..i + 1][..i] == us[..i];
      assert ErrorKeys(us[..i + 1])
          == if Erroneous(us[i]) then ErrorKeys(us[..i]) + [Decimal(OrZero(us[i].status))] else ErrorKeys(us[..i]);
      if Erroneous(us[i]) {
        var key := Decimal(OrZero(us[i].status));
        TallyAppend(ErrorKeys(us[..i]), key);
        counts := Put(counts, key, (if key in counts.at then counts.at[key] else 0) + 1);
      }
    }
    assert us[..|us|] == us;
  }

  lemma {:induction false} ErrorCount(us: seq<Usage>, status: nat)
    requires status >= 400
    ensures Count(ErrorKeys(us), Decimal(status)) == Total(us, ErrorsWith(status))
    ensures |ErrorKeys(us)| == Total(us, Errors)
  {
    if us != [] {
      var front, u := us[..|us| - 1], us[|us| - 1];
      ErrorCount(front, status);
      if Erroneous(u) {
        DecimalInjective(OrZero(u.status), status);
        assert ErrorKeys(us) == ErrorKeys(front) + [Decimal(OrZero(u.status))];
        TallyAppend(ErrorKeys(front), Decimal(OrZero(u.status)));
      } else {
        assert ErrorKeys(us) == ErrorKeys(front);
      }
    }
  }

  lemma {:induction false} ErrorKeyShape(us: seq<Usage>, k: string)
    ensures k in ErrorKeys(us) ==> exists status: nat :: status >= 400 && k == Decimal(status)
  {
    if us != [] {
      ErrorKeyShape(us[..|us| - 1], k);
    }
  }

  function WithStatus(us: seq<Usage>, status: int): set<int> {
    set i | 0 <= i < |us| && us[i].Record? && us[i].status == Some(status)
  }

  function Failing(us: seq<Usage>): set<int> {
    set i | 0 <= i < |us| && us[i].Record? && us[i].status.Some? && us[i].status.value >= 400
  }

  lemma {:induction false} WithStatusStep(us: seq<Usage>, status: int)
    requires us != []
    ensures var u := us[|us| - 1];
      |WithStatus(us, status)|
      == |WithStatus(us[..|us| - 1], status)| + if u.Record? && u.status == Some(status) then 1 else 0
  {
    var u := us[|us| - 1];
    assert WithStatus(us, status) == WithStatus(us[..|us| - 1], status)
      + if u.Record? && u.status == Some(status) then {|us| - 1} else {};
  }

  lemma {:induction false} FailingStep(us: seq<Usage>)
    requires us != []
    ensures var u := us[|us| - 1];
      |Failing(us)| == |Failing(us[..|us| - 1])| + if u.Record? && u.status.Some? && u.status.value >= 400 then 1 else 0
  {
    var u := us[|us| - 1];
    assert Failing(us) == Failing(us[..|us| - 1])
      + if u.Record? && u.status.Some? && u.status.value >= 400 then {|us| - 1} else {};
  }

  lemma {:induction false} ErrorTotals(us: seq<Usage>, status: int)
    requires status >= 400
    ensures Total(us, ErrorsWith(status)) == |WithStatus(us, status)| && Total(us, Errors) == |Failing(us)|
  {
    if us != [] {
      ErrorTotals(us[..|us| - 1], status);
      WithStatusStep(us, status);
      FailingStep(us);
    }
  }

  /** Each status from 400 on has the number of records with it, and all counts add up to the number that failed. */
  lemma {:induction false} ErrorBreakdownCorrect(us: seq<Usage>, status: nat)
    requires status >= 400
    ensures var d := Tally(ErrorKeys(us));
      && (if Decimal(status) in d.at then d.at[Decimal(status)] else 0) == |WithStatus(us, status)|
      && CountAll(d.keys, ErrorKeys(us)) == |Failing(us)|
  {
    var es := ErrorKeys(us);
    TallyExact(es);
    ErrorCount(us, status);
    CountPositive(es, Decimal(status));
    CountsAddUp(Tally(es).keys, es);
    ErrorTotals(us, status);
  }

  lemma {:induction false} ErrorCountsPermute(us: seq<Usage>, vs: seq<Usage>, k: string)
    requires multiset(us) == multiset(vs)
    ensures Count(ErrorKeys(us), k) == Count(ErrorKeys(vs), k)
    ensures k in ErrorKeys(us) <==> k in ErrorKeys(vs)
  {
    CountPositive(ErrorKeys(us), k);
    CountPositive(ErrorKeys(vs), k);
    ErrorKeyShape(us, k);
    ErrorKeyShape(vs, k);
    if k in ErrorKeys(us) || k in ErrorKeys(vs) {
      var status: nat :| status >= 400 && k == Decimal(status);
      ErrorCount(us, status);
      ErrorCount(vs, status);
      TotalPermutes(us, vs, ErrorsWith(status));
    }
  }

  /** The order of the entries does not matter. */
  lemma {:induction false} ErrorBreakdownPermutes(us: seq<Usage>, vs: seq<Usage>)
    requires multiset(us) == multiset(vs)
    ensures Tally(ErrorKeys(us)).at == Tally(ErrorKeys(vs)).at
  {
    TallyExact(ErrorKeys(us));
    TallyExact(ErrorKeys(vs));
    forall k {
      ErrorCountsPermute(us, vs, k);
    }
  }

  /** Errors are listed record by record, printed. */
  lemma {:induction false} ErrorKeysMerge(a: seq<Usage>, b: seq<Usage>, u: Usage)
    ensures ErrorKeys(a + b) == ErrorKeys(a) + ErrorKeys(b)
    ensures ErrorKeys([u]) == if u.Record? && Failing([u]) != {} then [Decimal(Field(u.status))] else []
  {
    assert [u][..0] == [] && ErrorKeys([]) == [];
    if u.Record? && u.status.Some? && u.status.value >= 400 {
      assert 0 in Failing([u]);
    }
    if b == [] {
      assert a + b == a;
    } else {
      ErrorKeysMerge(a, b[..|b| - 1], u);
      assert (a + b)[..|a + b| - 1] == a + b[..|b| - 1];
    }
  }

  // ------------------------------------------------------------- daily rows

  /** `strftime("%Y-%m-%d")`, for years of four digits. */
  function DateText(day: nat): string {
    Dashed(day / 100 / 100, day / 100 % 100, day % 100)
  }

  function Dashed(year: nat, month: nat, day: nat): string {
    Padded(year, 4) + "-" + (Padded(month, 2) + "-" + Padded(day, 2))
  }

  lemma {:induction false} DashedOrder(a: string, c: string, b: string, d: string)
    requires |a| == |b| && |c| == |d|
    ensures Below(a + "-" + c, b + "-" + d) <==> Below(a, b) || (a == b && Below(c, d))
    ensures a + "-" + c == b + "-" + d <==> a == b && c == d
  {
    var s, t := a + "-" + c, b + "-" + d;
    assert s == a + ("-" + c) && t == b + ("-" + d);
    BelowConcat(a, b, "-" + c, "-" + d);
    BelowConcat("-", "-", c, d);
    assert !Below("-", "-");
    assert s[..|a|] == a && s[|a| + 1..] == c && t[..|a|] == b && t[|a| + 1..] == d;
  }

  lemma {:induction false} PartsOrder(y: nat, m: nat, d: nat, y': nat, m': nat, d': nat)
    requires y < 10000 && y' < 10000 && m < 100 && m' < 100 && d < 100 && d' < 100
    ensures Below(Dashed(y, m, d), Dashed(y', m', d')) <==> y < y' || (y == y' && (m < m' || (m == m' && d < d')))
    ensures Dashed(y, m, d) == Dashed(y', m', d') <==> y == y' && m == m' && d == d'
  {
    assert TenTo(2) == 100 && TenTo(4) == 100 * TenTo(2);
    PaddedOrder(y, y', 4);
    PaddedOrder(m, m', 2);
    PaddedOrder(d, d', 2);
    DashedOrder(Padded(y, 4), Padded(m, 2) + "-" + Padded(d, 2), Padded(y', 4), Padded(m', 2) + "-" + Padded(d', 2));
    DashedOrder(Padded(m, 2), Padded(d, 2), Padded(m', 2), Padded(d', 2));
  }

  /** Grouping and sorting by the printed date is grouping and sorting by its number. */
  lemma {:induction false} DateTextOrder(a: nat, b: nat)
    requires a < 1_0000_0000 && b < 1_0000_0000
    ensures Below(DateText(a), DateText(b)) <==> a < b
    ensures DateText(a) == DateText(b) <==> a == b
  {
    var p, q := a / 100, b / 100;
    PartsOrder(p / 100, p % 100, a % 100, q / 100, q % 100, b % 100);
    HundredsOrder(a, b);
    HundredsOrder(p, q);
  }

  lemma {:induction false} HundredsOrder(m: nat, n: nat)
    ensures m < n <==> m / 100 < n / 100 || (m / 100 == n / 100 && m % 100 < n % 100)
    ensures m == n <==> m / 100 == n / 100 && m % 100 == n % 100
  {
    assert m == 100 * (m / 100) + m % 100 && n == 100 * (n / 100) + n % 100;
  }

  datatype Row = Row(date: int, requests: int, successful: int, failed: int, tokens: int, cost: int)

  /** The rows under their days, and the days in the order they came up. */
  datatype Days = Days(order: seq<int>, rows: map<int, Row>)

  function Grown(row: Row, u: Usage): Row {
    Row(row.date, row.requests + 1,
        if Succeeded(u) then row.successful + 1 else row.successful,
        if Succeeded(u) then row.failed else row.failed + 1,
        row.tokens + Amount(Tokens, u), row.cost + Amount(Cost, u))
  }

  predicate Dated(u: Usage) {
    u.Record? && u.day.Some?
  }

  function AddUsage(ds: Days, u: Usage): Days {
    if !Dated(u) then ds
    else
      var day := u.day.value;
      if day in ds.rows then ds.(rows := ds.rows[day := Grown(ds.rows[day], u)])
      else Days(ds.order + [day], ds.rows[day := Grown(Row(day, 0, 0, 0, 0, 0), u)])
  }

  function AllDays(us: seq<Usage>): Days {
    if us == [] then Days([], map[]) else AddUsage(AllDays(us[..|us| - 1]), us[|us| - 1])
  }

  /** What the row of a day must be. */
  function RowOf(us: seq<Usage>, day: int): Row {
    Row(day, Total(us, OnDay(day, Entries)), Total(us, OnDay(day, Successes)), Total(us, OnDay(day, Failures)),
        Total(us, OnDay(day, Tokens)), Total(us, OnDay(day, Cost)))
  }

  predicate HasDay(us: seq<Usage>, day: int) {
    exists i :: 0 <= i < |us| && us[i].Record? && us[i].day == Some(day)
  }

  lemma {:induction false} HasDayStep(us: seq<Usage>, day: int)
    requires us != []
    ensures HasDay(us, day) <==> HasDay(us[..|us| - 1], day) || (us[|us| - 1].Record? && us[|us| - 1].day == Some(day))
  {
  }

  lemma {:induction false} NoDayNoTotal(us: seq<Usage>, day: int, m: Measure)
    requires !HasDay(us, day)
    ensures Total(us, OnDay(day, m)) == 0
  {
    if us != [] {
      HasDayStep(us, day);
      NoDayNoTotal(us[..|us| - 1], day, m);
    }
  }

  lemma {:induction false} EmptyRow(us: seq<Usage>, day: int)
    requires !HasDay(us, day)
    ensures RowOf(us, day) == Row(day, 0, 0, 0, 0, 0)
  {
    NoDayNoTotal(us, day, Entries);
    NoDayNoTotal(us, day, Successes);
    NoDayNoTotal(us, day, Failures);
    NoDayNoTotal(us, day, Tokens);
    NoDayNoTotal(us, day, Cost);
  }

  lemma {:induction false} OnDayStep(us: seq<Usage>, day: int, m: Measure)
    requires us != []
    ensures var u := us[|us| - 1];
      Total(us, OnDay(day, m))
      == Total(us[..|us| - 1], OnDay(day, m)) + if u.Record? && u.day == Some(day) then Amount(m, u) else 0
  {
  }

  lemma {:induction false} RowStep(us: seq<Usage>, day: int)
    requires us != []
    ensures var u := us[|us| - 1];
      RowOf(us, day)
      == if u.Record? && u.day == Some(day) then Grown(RowOf(us[..|us| - 1], day), u) else RowOf(us[..|us| - 1], day)
  {
    OnDayStep(us, day, Entries);
    OnDayStep(us, day, Successes);
    OnDayStep(us, day, Failures);
    OnDayStep(us, day, Tokens);
    OnDayStep(us, day, Cost);
  }

  /** What `DaysExact` says of one day. */
  ghost predicate ExactOn(ds: Days, us: seq<Usage>, day: int) {
    && (day in ds.order <==> day in ds.rows)
    && (day in ds.rows <==> HasDay(us, day))
    && (day in ds.rows ==> ds.rows[day] == RowOf(us, day))
  }

  lemma {:induction false} AddUsageExact(ds: Days, us: seq<Usage>, day: int)
    requires us != [] && ExactOn(ds, us[..|us| - 1], day)
    ensures ExactOn(AddUsage(ds, us[|us| - 1]), us, day)
  {
    HasDayStep(us, day);
    RowStep(us, day);
    if !HasDay(us[..|us| - 1], day) {
      EmptyRow(us[..|us| - 1], day);
    }
  }

  /** The dictionary has a row for exactly the days that occur, and every row is exact. */
  lemma {:induction false} DaysExact(us: seq<Usage>)
    ensures NoDup(AllDays(us).order)
    ensures forall day :: ExactOn(AllDays(us), us, day)
  {
    if us == [] {
      forall day ensures ExactOn(AllDays(us), us, day) {}
    } else {
      var front := us[..|us| - 1];
      DaysExact(front);
      forall day ensures ExactOn(AllDays(us), us, day) {
        AddUsageExact(AllDays(front), us, day);
      }
      var u := us[|us| - 1];
      if Dated(u) {
        assert ExactOn(AllDays(front), front, u.day.value);
      }
    }
  }

  function Dates(days: seq<int>): map<int, int> {
    map d | d in days :: d
  }

  /** The days in increasing order. */
  function SortedDays(us: seq<Usage>): seq<int> {
    Sort(AllDays(us).order, Dates(AllDays(us).order))
  }

  function RowsOf(us: seq<Usage>, days: seq<int>): seq<Row> {
    seq(|days|, i requires 0 <= i < |days| => RowOf(us, days[i]))
  }

  method CalculateDailyUsage(us: seq<Usage>) returns (rows: seq<Row>)
    ensures rows == RowsOf(us, SortedDays(us))
  {
    var ds := Days([], map[]);
    for i := 0 to |us|
      invariant ds == AllDays(us[..i])
    {
      assert us[..i + 1][..i] == us[..i];
      if Dated(us[i]) {
        var day := us[i].day.value;
        if day !in ds.rows {
          ds := Days(ds.order + [day], ds.rows[day := Row(day, 0, 0, 0, 0, 0)]);
        }
        ds := ds.(rows := ds.rows[day := Grown(ds.rows[day], us[i])]);
      }
    }
    assert us[..|us|] == us;
    DaysExact(us);
    SortMembers(ds.order, Dates(ds.order));
    var sorted := Sort(ds.order, Dates(ds.order));
    forall i | 0 <= i < |sorted| ensures sorted[i] in ds.rows && ds.rows[sorted[i]] == RowOf(us, sorted[i]) {
      assert sorted[i] in ds.order && ExactOn(ds, us, sorted[i]);
    }
    rows := seq(|sorted|, i requires 0 <= i < |sorted| && sorted[i] in ds.rows => ds.rows[sorted[i]]);
  }

  ghost predicate Increasing(s: seq<int>) {
    forall i, j | 0 <= i < j < |s| :: s[i] < s[j]
  }

  /** The rows come with strictly increasing dates, one for every day that occurs. */
  lemma {:induction false} DatesIncrease(us: seq<Usage>)
    ensures Increasing(SortedDays(us))
    ensures forall day :: day in SortedDays(us) <==> HasDay(us, day)
  {
    var order := AllDays(us).order;
    DaysExact(us);
    forall day ensures day in order <==> HasDay(us, day) {
      assert ExactOn(AllDays(us), us, day);
    }
    SortMembers(order, Dates(order));
    SortNoDup(order, Dates(order));
    SortRanks(order, Dates(order));
    var s := SortedDays(us);
    forall i, j | 0 <= i < j < |s| ensures s[i] < s[j] {
      assert Before(s[i], s[j], order, Dates(order));
      assert s[i] != s[j];
    }
  }

  function SumDays(days: seq<int>, us: seq<Usage>, m: Measure): int {
    if days == [] then 0 else SumDays(days[..|days| - 1], us, m) + Total(us, OnDay(days[|days| - 1], m))
  }

  lemma {:induction false} SumDaysStep(days: seq<int>, us: seq<Usage>, m: Measure)
    requires us != [] && NoDup(days)
    ensures var u := us[|us| - 1];
      SumDays(days, us, m) == SumDays(days, us[..|us| - 1], m)
        + if u.Record? && u.day.Some? && u.day.value in days then Amount(m, u) else 0
  {
    if days != [] {
      SumDaysStep(days[..|days| - 1], us, m);
      assert days == days[..|days| - 1] + [days[|days| - 1]];
    }
  }

  lemma {:induction false} SumDaysEmpty(days: seq<int>, m: Measure)
    ensures SumDays(days, [], m) == 0
  {
    if days != [] {
      SumDaysEmpty(days[..|days| - 1], m);
    }
  }

  lemma {:induction false} SumDaysIsTotal(days: seq<int>, us: seq<Usage>, m: Measure)
    requires NoDup(days) && forall i | 0 <= i < |us| :: Dated(us[i]) && us[i].day.value in days
    ensures SumDays(days, us, m) == Total(us, m)
  {
    if us == [] {
      SumDaysEmpty(days, m);
    } else {
      SumDaysStep(days, us, m);
      SumDaysIsTotal(days, us[..|us| - 1], m);
    }
  }

  /** The columns of the rows, added up. */
  function SumRows(rows: seq<Row>): Metrics {
    if rows == [] then Metrics(0, 0, 0, 0, 0)
    else
      var m, r := SumRows(rows[..|rows| - 1]), rows[|rows| - 1];
      Metrics(m.requests + r.requests, m.successful + r.successful, m.failed + r.failed, m.tokens + r.tokens,
        m.cost + r.cost)
  }

  lemma {:induction false} ColumnsAddUp(us: seq<Usage>, days: seq<int>)
    ensures SumRows(RowsOf(us, days)) == Metrics(SumDays(days, us, Entries), SumDays(days, us, Successes),
      SumDays(days, us, Failures), SumDays(days, us, Tokens), SumDays(days, us, Cost))
  {
    if days != [] {
      ColumnsAddUp(us, days[..|days| - 1]);
      assert RowsOf(us, days)[..|days| - 1] == RowsOf(us, days[..|days| - 1]);
    }
  }

  /** When every entry has a usable date, the daily rows add up to the basic metrics in every column. */
  lemma {:induction false} DailyConserves(us: seq<Usage>)
    requires forall i | 0 <= i < |us| :: Dated(us[i])
    ensures SumRows(RowsOf(us, SortedDays(us))) == BasicMetrics(us)
  {
    DatesIncrease(us);
    var days := SortedDays(us);
    forall i | 0 <= i < |us| ensures us[i].day.value in days {
      assert us[i].Record? && us[i].day == Some(us[i].day.value);
      assert HasDay(us, us[i].day.value);
    }
    SumDaysIsTotal(days, us, Entries);
    SumDaysIsTotal(days, us, Successes);
    SumDaysIsTotal(days, us, Failures);
    SumDaysIsTotal(days, us, Tokens);
    SumDaysIsTotal(days, us, Cost);
    CountsAreTotals(us);
    ColumnsAddUp(us, days);
  }

  /** The rows of a single entry, on its fields. */
  lemma {:induction false} OneDay(u: Usage)
    ensures RowsOf([u], SortedDays([u])) == match u
            case Record(_, status, tokens, cost, Some(day)) =>
              [Row(day, 1, SuccessOf(status), 1 - SuccessOf(status), Field(tokens), Field(cost))]
            case _ => []
  {
    assert [u][..0] == [];
    assert forall m: Measure :: Total([], m) == 0;
    var days := SortedDays([u]);
    assert AllDays([u]) == AddUsage(Days([], map[]), u);
    if Dated(u) {
      assert AllDays([u]).order == [u.day.value];
      SortMembers([u.day.value], Dates([u.day.value]));
      assert days == [u.day.value];
      OnDayStep([u], u.day.value, Entries);
      OnDayStep([u], u.day.value, Successes);
      OnDayStep([u], u.day.value, Failures);
      OnDayStep([u], u.day.value, Tokens);
      OnDayStep([u], u.day.value, Cost);
    } else {
      assert days == [];
    }
  }

  /** The row of a day over two lists together is the sum of their rows. */
  lemma {:induction false} RowsMerge(a: seq<Usage>, b: seq<Usage>, day: int)
    ensures var x, y := RowOf(a, day), RowOf(b, day);
      RowOf(a + b, day) == Row(day, x.requests + y.requests, x.successful + y.successful, x.failed + y.failed,
                               x.tokens + y.tokens, x.cost + y.cost)
  {
    TotalConcat(a, b, OnDay(day, Entries));
    TotalConcat(a, b, OnDay(day, Successes));
    TotalConcat(a, b, OnDay(day, Failures));
    TotalConcat(a, b, OnDay(day, Tokens));
    TotalConcat(a, b, OnDay(day, Cost));
  }

  /** The dictionary's order of days does not show in the sorted days. */
  lemma {:induction false} SortedDaysAgree(us: seq<Usage>, vs: seq<Usage>)
    requires forall d :: HasDay(us, d) <==> HasDay(vs, d)
    ensures SortedDays(us) == SortedDays(vs)
  {
    var a, b := AllDays(us).order, AllDays(vs).order;
    DaysExact(us);
    DaysExact(vs);
    forall d ensures d in a <==> d in b {
      assert ExactOn(AllDays(us), us, d) && ExactOn(AllDays(vs), vs, d);
    }
    SortOrderFree(a, b, Dates(a));
    SortWeights(b, Dates(a), Dates(b));
  }

  /** Neither the days nor their rows depend on the order of the entries. */
  lemma {:induction false} DailyPermutes(us: seq<Usage>, vs: seq<Usage>, day: int)
    requires multiset(us) == multiset(vs)
    ensures SortedDays(us) == SortedDays(vs)
    ensures RowOf(us, day) == RowOf(vs, day)
  {
    forall d ensures HasDay(us, d) <==> HasDay(vs, d) {
      if HasDay(us, d) {
        HasDayPermutes(us, vs, d);
      } else if HasDay(vs, d) {
        HasDayPermutes(vs, us, d);
      }
    }
    SortedDaysAgree(us, vs);
    TotalPermutes(us, vs, OnDay(day, Entries));
    TotalPermutes(us, vs, OnDay(day, Successes));
    TotalPermutes(us, vs, OnDay(day, Failures));
    TotalPermutes(us, vs, OnDay(day, Tokens));
    TotalPermutes(us, vs, OnDay(day, Cost));
  }

  lemma {:induction false} HasDayPermutes(us: seq<Usage>, vs: seq<Usage>, day: int)
    requires multiset(us) == multiset(vs) && HasDay(us, day)
    ensures HasDay(vs, day)
  {
    var i :| 0 <= i < |us| && us[i].Record? && us[i].day == Some(day);
    assert us[i] in multiset(vs);
    var j :| 0 <= j < |vs| && vs[j] == us[i];
  }
}
