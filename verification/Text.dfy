/** Text formats: decimal numerals, splitting at a separator, and base64 (section 4 of RFC 4648). */
module Text {
  import opened Wrappers

  // ------------------------------------------------------------- decimal numerals

  predicate IsDigit(c: char) {
    '0' <= c <= '9'
  }

  function Digit(d: nat): (c: char)
    requires d < 10
    ensures IsDigit(c)
  {
    ('0' as int + d) as char
  }

  /** `str(n)`. */
  function Decimal(n: nat): (s: string)
    ensures s != "" && forall i | 0 <= i < |s| :: IsDigit(s[i])
  {
    if n < 10 then [Digit(n)] else Decimal(n / 10) + [Digit(n % 10)]
  }

  predicate AllDigits(s: string) {
    forall i | 0 <= i < |s| :: IsDigit(s[i])
  }

  function Numeral(s: string): nat
    requires AllDigits(s)
  {
    if s == "" then 0
    else Numeral(s[..|s| - 1]) * 10 + (s[|s| - 1] as int - '0' as int)
  }

  /** `int(s)` on plain numerals. */
  function ParseDecimal(s: string): Option<nat> {
    if s != "" && AllDigits(s) then Some(Numeral(s)) else None
  }

  lemma {:induction false} DecimalRoundTrip(n: nat)
    ensures ParseDecimal(Decimal(n)) == Some(n)
  {
    if n >= 10 {
      DecimalRoundTrip(n / 10);
      var s := Decimal(n);
      assert s[..|s| - 1] == Decimal(n / 10);
    } else {
      var s := Decimal(n);
      assert |s| == 1 && s[..|s| - 1] == "";
      assert Numeral(s) == Numeral("") * 10 + (s[0] as int - '0' as int);
    }
  }

  lemma {:induction false} DecimalInjective(m: nat, n: nat)
    ensures Decimal(m) == Decimal(n) ==> m == n
  {
    DecimalRoundTrip(m);
    DecimalRoundTrip(n);
  }

  /** The last `width` digits of `n`. */
  function Padded(n: nat, width: nat): (s: string)
    ensures |s| == width
  {
    if width == 0 then "" else Padded(n / 10, width - 1) + [Digit(n % 10)]
  }

  function TenTo(width: nat): nat {
    if width == 0 then 1 else 10 * TenTo(width - 1)
  }

  /** Python's `s < t` on strings of the same length: the first difference decides. */
  ghost predicate Below(s: string, t: string)
    requires |s| == |t|
  {
    exists i :: Differs(s, t, i) && s[i] < t[i]
  }

  ghost predicate Differs(s: string, t: string, i: int)
    requires |s| == |t|
  {
    0 <= i < |s| && s[i] != t[i] && s[..i] == t[..i]
  }

  lemma {:induction false} BelowFront(a: string, b: string, c: string, d: string)
    requires |a| == |b| && |c| == |d| && Below(a, b)
    ensures Below(a + c, b + d)
  {
    var i :| Differs(a, b, i) && a[i] < b[i];
    assert (a + c)[..i] == a[..i] && (b + d)[..i] == b[..i];
    assert Differs(a + c, b + d, i);
  }

  lemma {:induction false} BelowBack(a: string, c: string, d: string)
    requires |c| == |d| && Below(c, d)
    ensures Below(a + c, a + d)
  {
    var i :| Differs(c, d, i) && c[i] < d[i];
    assert (a + c)[..|a| + i] == a + c[..i] && (a + d)[..|a| + i] == a + d[..i];
    assert Differs(a + c, a + d, |a| + i);
  }

  lemma {:induction false} BelowParts(a: string, b: string, c: string, d: string, i: nat)
    requires |a| == |b| && |c| == |d| && Differs(a + c, b + d, i)
    ensures if i < |a| then Differs(a, b, i) else a == b && Differs(c, d, i - |a|)
  {
    var s, t := a + c, b + d;
    if i < |a| {
      assert s[..i] == a[..i] && t[..i] == b[..i];
    } else {
      assert a == s[..i][..|a|] && b == t[..i][..|a|];
      assert c[..i - |a|] == s[..i][|a|..] && d[..i - |a|] == t[..i][|a|..];
    }
  }

  lemma {:induction false} BelowConcat(a: string, b: string, c: string, d: string)
    requires |a| == |b| && |c| == |d|
    ensures Below(a + c, b + d) <==> Below(a, b) || (a == b && Below(c, d))
  {
    if Below(a, b) {
      BelowFront(a, b, c, d);
    } else if a == b && Below(c, d) {
      BelowBack(a, c, d);
    }
    if Below(a + c, b + d) {
      var i :| Differs(a + c, b + d, i) && (a + c)[i] < (b + d)[i];
      BelowParts(a, b, c, d, i);
    }
  }

  lemma {:induction false} DigitBelow(m: nat, n: nat)
    requires m < 10 && n < 10
    ensures Below([Digit(m)], [Digit(n)]) <==> m < n
  {
    if m < n {
      assert Differs([Digit(m)], [Digit(n)], 0);
    }
  }

  /** Padded numerals sort as strings as their numbers do. */
  lemma {:induction false} PaddedOrder(m: nat, n: nat, width: nat)
    requires m < TenTo(width) && n < TenTo(width)
    ensures Below(Padded(m, width), Padded(n, width)) <==> m < n
    ensures Padded(m, width) == Padded(n, width) <==> m == n
  {
    if width > 0 {
      PaddedOrder(m / 10, n / 10, width - 1);
      DigitBelow(m % 10, n % 10);
      var a, b := Padded(m / 10, width - 1), Padded(n / 10, width - 1);
      BelowConcat(a, b, [Digit(m % 10)], [Digit(n % 10)]);
      assert Padded(m, width)[..width - 1] == a && Padded(n, width)[..width - 1] == b;
      assert Padded(m, width)[width - 1] == Digit(m % 10) && Padded(n, width)[width - 1] == Digit(n % 10);
    }
  }

  // ------------------------------------------------------------- splitting

  /** `s.split(c, most)`: at most `most` cuts, the rest stays whole. */
  function Split(s: string, c: char, most: nat): (parts: seq<string>)
    ensures parts != []
  {
    if most == 0 || c !in s then [s]
    else
      var (part, rest) := FirstCut(s, c);
      [part] + Split(rest, c, most - 1)
  }

  /** What is before and what is after the first `c`. */
  function FirstCut(s: string, c: char): (cut: (string, string))
    requires c in s
    ensures s == cut.0 + [c] + cut.1 && c !in cut.0 && |cut.1| < |s|
  {
    var i := IndexOf(s, c);
    (s[..i], s[i + 1..])
  }

  function IndexOf(s: string, c: char): (i: nat)
    requires c in s
    ensures i < |s| && s[i] == c && forall j | 0 <= j < i :: s[j] != c
  {
    if s[0] == c then 0
    else
      assert s == [s[0]] + s[1..];
      IndexOf(s[1..], c) + 1
  }

  lemma {:induction false} SplitFirst(a: string, rest: string, c: char, most: nat)
    requires c !in a && most > 0
    ensures Split(a + [c] + rest, c, most) == [a] + Split(rest, c, most - 1)
  {
    var s := a + [c] + rest;
    assert s[|a|] == c && forall j | 0 <= j < |a| :: s[j] == a[j];
    assert IndexOf(s, c) == |a|;
    assert s[..|a|] == a && s[|a| + 1..] == rest;
  }

  /** The parts with `c` between them. */
  function Join(parts: seq<string>, c: char): string
    requires parts != []
  {
    if |parts| == 1 then parts[0] else parts[0] + [c] + Join(parts[1..], c)
  }

  /** Splitting as often as there were joints gives the parts back, whatever the last one contains. */
  lemma {:induction false} SplitJoined(parts: seq<string>, c: char)
    requires parts != [] && forall i | 0 <= i < |parts| - 1 :: c !in parts[i]
    ensures Split(Join(parts, c), c, |parts| - 1) == parts
  {
    if |parts| > 1 {
      SplitJoined(parts[1..], c);
      SplitFirst(parts[0], Join(parts[1..], c), c, |parts| - 1);
      assert parts == [parts[0]] + parts[1..];
    }
  }

  /** `parts` is what comes of cutting `s`: one part, or a part before the first `c` and the parts of the rest. */
  ghost predicate Cuts(parts: seq<string>, s: string, c: char, most: nat)
    decreases most
  {
    && parts != [] && (|parts| == 1 ==> parts[0] == s)
    && (|parts| > 1 ==>
          && most > 0 && c !in parts[0]
          && exists rest :: s == parts[0] + [c] + rest && Cuts(parts[1..], rest, c, most - 1))
  }

  lemma {:induction false} CutsMore(a: string, rest: string, others: seq<string>, c: char, most: nat)
    requires most > 0 && c !in a && Cuts(others, rest, c, most - 1)
    ensures Cuts([a] + others, a + [c] + rest, c, most)
  {
    assert ([a] + others)[1..] == others;
  }

  lemma {:induction false} CutsOne(s: string, c: char, most: nat)
    ensures Cuts([s], s, c, most)
  {
  }

  lemma {:induction false} SplitCuts(s: string, c: char, most: nat)
    ensures Cuts(Split(s, c, most), s, c, most)
    decreases most
  {
    if most == 0 || c !in s {
      CutsOne(s, c, most);
    } else {
      var (part, rest) := FirstCut(s, c);
      SplitCuts(rest, c, most - 1);
      CutsMore(part, rest, Split(rest, c, most - 1), c, most);
    }
  }

  /** Whatever the text and the number of cuts, joining the parts gives the text back. */
  lemma {:induction false} JoinSplit(s: string, c: char, most: nat, parts: seq<string>)
    requires Cuts(parts, s, c, most)
    ensures |parts| <= most + 1 && Join(parts, c) == s
    decreases most
  {
    if |parts| > 1 {
      var rest :| s == parts[0] + [c] + rest && Cuts(parts[1..], rest, c, most - 1);
      JoinSplit(rest, c, most - 1, parts[1..]);
    }
  }

  /** No part but the last contains `c`. */
  lemma {:induction false} PartsLack(s: string, c: char, most: nat, parts: seq<string>, k: nat)
    requires Cuts(parts, s, c, most) && k < |parts| - 1
    ensures c !in parts[k]
    decreases most
  {
    if k > 0 {
      var rest :| s == parts[0] + [c] + rest && Cuts(parts[1..], rest, c, most - 1);
      PartsLack(rest, c, most - 1, parts[1..], k - 1);
    }
  }

  // ------------------------------------------------------------- base64

  type byte = x: int | 0 <= x < 256

  function Symbol(i: nat): char
    requires i < 64
  {
    if i < 26 then ('A' as int + i) as char
    else if i < 52 then ('a' as int + i - 26) as char
    else if i < 62 then ('0' as int + i - 52) as char
    else if i == 62 then '+' else '/'
  }

  /** The symbols are those of table 1 in section 4 of RFC 4648, in that order. */
  lemma {:induction false} SymbolInAlphabet(i: nat)
    requires i < 64
    ensures i < 26 ==> Symbol(i) == "ABCDEFGHIJKLMNOPQRSTUVWXYZ"[i]
    ensures 26 <= i < 52 ==> Symbol(i) == "abcdefghijklmnopqrstuvwxyz"[i - 26]
    ensures 52 <= i ==> Symbol(i) == "0123456789+/"[i - 52]
  {
    var upper, lower, rest := "ABCDEFGHIJKLMNOPQRSTUVWXYZ", "abcdefghijklmnopqrstuvwxyz", "0123456789+/";
    assert upper[0] == 'A' && upper[25] == 'Z' && lower[0] == 'a' && lower[25] == 'z' && rest[10] == '+';
  }

  /** Four characters for every three bytes begun. */
  lemma {:induction false} EncodedLength(bs: seq<byte>)
    ensures |Encode(bs)| == (|bs| + 2) / 3 * 4
  {
    if |bs| >= 3 {
      EncodedLength(bs[3..]);
    }
  }

  function SymbolValue(c: char): (v: Option<nat>)
    ensures v.Some? ==> v.value < 64
  {
    if 'A' <= c <= 'Z' then Some(c as int - 'A' as int)
    else if 'a' <= c <= 'z' then Some(c as int - 'a' as int + 26)
    else if '0' <= c <= '9' then Some(c as int - '0' as int + 52)
    else if c == '+' then Some(62) else if c == '/' then Some(63) else None
  }

  lemma {:induction false} SymbolRoundTrip(i: nat)
    requires i < 64
    ensures SymbolValue(Symbol(i)) == Some(i) && Symbol(i) != '=' && Symbol(i) != '$'
  {
  }

  function Encode(bs: seq<byte>): string {
    if bs == [] then ""
    else if |bs| == 1 then [Symbol(bs[0] / 4), Symbol(bs[0] % 4 * 16), '=', '=']
    else if |bs| == 2 then
      [Symbol(bs[0] / 4), Symbol(bs[0] % 4 * 16 + bs[1] / 16), Symbol(bs[1] % 16 * 4), '=']
    else Quad(bs[0], bs[1], bs[2]) + Encode(bs[3..])
  }

  function Quad(x: byte, y: byte, z: byte): string {
    [Symbol(x / 4), Symbol(x % 4 * 16 + y / 16), Symbol(y % 16 * 4 + z / 64), Symbol(z % 64)]
  }

  function Decode(s: string): Option<seq<byte>> {
    if s == "" then Some([])
    else if |s| < 4 then None
    else
      var a, b, c, d := SymbolValue(s[0]), SymbolValue(s[1]), SymbolValue(s[2]), SymbolValue(s[3]);
      if a.None? || b.None? then None
      else if |s| == 4 && s[2] == '=' && s[3] == '=' then Some([a.value * 4 + b.value / 16])
      else if c.None? then None
      else if |s| == 4 && s[3] == '=' then
        Some([a.value * 4 + b.value / 16, b.value % 16 * 16 + c.value / 4])
      else if d.None? then None
      else
        var rest := Decode(s[4..]);
        if rest.None? then None
        else Some([a.value * 4 + b.value / 16, b.value % 16 * 16 + c.value / 4, c.value % 4 * 64 + d.value]
          + rest.value)
  }

  /** Three bytes, cut into four groups of six bits and put together again. */
  lemma {:induction false} Regroup(x: byte, y: byte, z: byte)
    ensures x / 4 < 64 && x % 4 * 16 + y / 16 < 64 && y % 16 * 4 + z / 64 < 64 && z % 64 < 64
    ensures x / 4 * 4 + (x % 4 * 16 + y / 16) / 16 == x
    ensures (x % 4 * 16 + y / 16) % 16 * 16 + (y % 16 * 4 + z / 64) / 4 == y
    ensures (y % 16 * 4 + z / 64) % 4 * 64 + z % 64 == z
  {
  }

  lemma {:induction false} QuadValues(x: byte, y: byte, z: byte)
    ensures var q := Quad(x, y, z);
      && |q| == 4 && '$' !in q && '=' !in q
      && SymbolValue(q[0]) == Some(x / 4) && SymbolValue(q[1]) == Some(x % 4 * 16 + y / 16)
      && SymbolValue(q[2]) == Some(y % 16 * 4 + z / 64) && SymbolValue(q[3]) == Some(z % 64)
  {
    Regroup(x, y, z);
    SymbolRoundTrip(x / 4);
    SymbolRoundTrip(x % 4 * 16 + y / 16);
    SymbolRoundTrip(y % 16 * 4 + z / 64);
    SymbolRoundTrip(z % 64);
  }

  lemma {:induction false} QuadDecodes(x: byte, y: byte, z: byte, rest: string)
    ensures Decode(Quad(x, y, z) + rest)
         == if Decode(rest).None? then None else Some([x, y, z] + Decode(rest).value)
    ensures '$' !in Quad(x, y, z)
  {
    QuadValues(x, y, z);
    Regroup(x, y, z);
    DecodeFour(Quad(x, y, z), rest);
  }

  /** Four symbols without padding decode to three bytes before the rest. */
  lemma {:induction false} DecodeFour(q: string, rest: string)
    requires |q| == 4 && '=' !in q && forall i | 0 <= i < 4 :: SymbolValue(q[i]).Some?
    ensures var a, b := SymbolValue(q[0]).value, SymbolValue(q[1]).value;
      var c, d := SymbolValue(q[2]).value, SymbolValue(q[3]).value;
      Decode(q + rest) == if Decode(rest).None? then None
        else Some([a * 4 + b / 16, b % 16 * 16 + c / 4, c % 4 * 64 + d] + Decode(rest).value)
  {
    assert (q + rest)[4..] == rest;
    assert q[2] in q && q[3] in q;
  }

  lemma {:induction false} EncodeRoundTrip(bs: seq<byte>)
    ensures Decode(Encode(bs)) == Some(bs)
    ensures '$' !in Encode(bs)
  {
    if |bs| >= 3 {
      EncodeRoundTrip(bs[3..]);
      QuadDecodes(bs[0], bs[1], bs[2], Encode(bs[3..]));
      assert bs == [bs[0], bs[1], bs[2]] + bs[3..];
    } else if |bs| == 2 {
      PairDecodes(bs[0], bs[1]);
      assert bs == [bs[0], bs[1]];
    } else if |bs| == 1 {
      OneDecodes(bs[0]);
      assert bs == [bs[0]];
    }
  }

  lemma {:induction false} RegroupPair(x: byte, y: byte)
    ensures x / 4 < 64 && x % 4 * 16 + y / 16 < 64 && y % 16 * 4 < 64
    ensures x / 4 * 4 + (x % 4 * 16 + y / 16) / 16 == x
    ensures (x % 4 * 16 + y / 16) % 16 * 16 + y % 16 * 4 / 4 == y
  {
  }

  lemma {:induction false} PairDecodes(x: byte, y: byte)
    ensures Decode(Encode([x, y])) == Some([x, y])
    ensures '$' !in Encode([x, y])
  {
    RegroupPair(x, y);
    var a, b, c := x / 4, x % 4 * 16 + y / 16, y % 16 * 4;
    SymbolRoundTrip(a);
    SymbolRoundTrip(b);
    SymbolRoundTrip(c);
    assert Encode([x, y]) == [Symbol(a), Symbol(b), Symbol(c), '='];
  }

  lemma {:induction false} OneDecodes(x: byte)
    ensures Decode(Encode([x])) == Some([x])
    ensures '$' !in Encode([x])
  {
  }
}
