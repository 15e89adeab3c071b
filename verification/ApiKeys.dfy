/**
 API keys as text: the key handed out, the hash kept in the database, and how a presented key finds
 its row again. scrypt is a parameter, the random bytes are inputs.
 */
module ApiKeys {
  import opened Wrappers
  import opened Text

  const SCRYPT_N := 16384
  const SCRYPT_R := 8
  const SCRYPT_P := 1
  const SCRYPT_DKLEN := 32
  const PREFIX_LENGTH := 8

  /** `kdf(key, salt, n, r, p, dklen)`. */
  type Kdf = (string, seq<byte>, nat, nat, nat, nat) -> seq<byte>

  /** A derived key has the length that was asked for. */
  ghost predicate Sized(kdf: Kdf) {
    forall key, salt, n, r, p, dklen :: |kdf(key, salt, n, r, p, dklen)| == dklen
  }

  /** The key built from the 64 random characters. */
  function KeyText(raw: string): string {
    var cut := if |raw| < PREFIX_LENGTH then |raw| else PREFIX_LENGTH;
    "fai_" + raw[..cut] + "_" + raw[cut..]
  }

  function HashFields(kdf: Kdf, key: string, salt: seq<byte>): seq<string> {
    ["scrypt", Decimal(SCRYPT_N), Decimal(SCRYPT_R), Decimal(SCRYPT_P), Encode(salt),
     Encode(kdf(key, salt, SCRYPT_N, SCRYPT_R, SCRYPT_P, SCRYPT_DKLEN))]
  }

  function HashApiKey(kdf: Kdf, key: string, salt: seq<byte>): string {
    Join(HashFields(kdf, key, salt), '$')
  }

  predicate VerifyApiKey(kdf: Kdf, key: string, stored: string) {
    var parts := Split(stored, '$', 5);
    if |parts| != 6 || parts[0] != "scrypt" then false
    else
      var n, r, p := ParseDecimal(parts[1]), ParseDecimal(parts[2]), ParseDecimal(parts[3]);
      var salt, expected := Decode(parts[4]), Decode(parts[5]);
      if n.None? || r.None? || p.None? || salt.None? || expected.None? then false
      else kdf(key, salt.value, n.value, r.value, p.value, |expected.value|) == expected.value
  }

  // ------------------------------------------------------------- the stored hash

  lemma {:induction false} NoDollarInDecimal(n: nat)
    ensures '$' !in Decimal(n)
  {
  }

  lemma {:induction false} FieldsLack(kdf: Kdf, key: string, salt: seq<byte>, i: nat)
    requires i < 5
    ensures '$' !in HashFields(kdf, key, salt)[i]
  {
    NoDollarInDecimal(SCRYPT_N);
    NoDollarInDecimal(SCRYPT_R);
    NoDollarInDecimal(SCRYPT_P);
    EncodeRoundTrip(salt);
  }

  lemma {:induction false} StoredParts(kdf: Kdf, key: string, salt: seq<byte>, fields: seq<string>)
    requires fields == HashFields(kdf, key, salt)
    ensures Split(HashApiKey(kdf, key, salt), '$', 5) == fields
  {
    forall i: nat | i < 5 ensures '$' !in fields[i] {
      FieldsLack(kdf, key, salt, i);
    }
    SplitJoined(fields, '$');
  }

  /**
   The hash stored for a key accepts exactly the keys that derive the same bytes from its salt,
   the key itself among them.
   */
  lemma {:induction false} VerifyExactly(kdf: Kdf, key: string, salt: seq<byte>, presented: string)
    requires Sized(kdf)
    ensures VerifyApiKey(kdf, presented, HashApiKey(kdf, key, salt)) <==>
      kdf(presented, salt, 16384, 8, 1, 32) == kdf(key, salt, 16384, 8, 1, 32)
    ensures VerifyApiKey(kdf, key, HashApiKey(kdf, key, salt))
  {
    var derived := kdf(key, salt, SCRYPT_N, SCRYPT_R, SCRYPT_P, SCRYPT_DKLEN);
    StoredParts(kdf, key, salt, HashFields(kdf, key, salt));
    DecimalRoundTrip(SCRYPT_N);
    DecimalRoundTrip(SCRYPT_R);
    DecimalRoundTrip(SCRYPT_P);
    EncodeRoundTrip(salt);
    EncodeRoundTrip(derived);
  }

  /** The fields of a stored hash, as far as they can be read. */
  ghost predicate Readable(parts: seq<string>, n: nat, r: nat, p: nat, salt: seq<byte>, derived: seq<byte>) {
    && |parts| == 6 && parts[0] == "scrypt" && (forall i | 0 <= i < 5 :: '$' !in parts[i])
    && ParseDecimal(parts[1]) == Some(n) && ParseDecimal(parts[2]) == Some(r) && ParseDecimal(parts[3]) == Some(p)
    && Decode(parts[4]) == Some(salt) && Decode(parts[5]) == Some(derived)
  }

  ghost predicate Accepts(kdf: Kdf, key: string, stored: string, parts: seq<string>, n: nat, r: nat, p: nat,
                          salt: seq<byte>, derived: seq<byte>)
  {
    && Readable(parts, n, r, p, salt, derived) && stored == Join(parts, '$')
    && kdf(key, salt, n, r, p, |derived|) == derived
  }

  /**
   Any text whatever in the hash column: it accepts a key exactly when it is six fields joined by `$`, the
   first of them `scrypt`, all readable, and the key derives the last one from the others.
   */
  lemma {:induction false} AcceptedExactly(kdf: Kdf, key: string, stored: string)
    ensures VerifyApiKey(kdf, key, stored) <==>
      exists parts, n, r, p, salt, derived :: Accepts(kdf, key, stored, parts, n, r, p, salt, derived)
  {
    if VerifyApiKey(kdf, key, stored) {
      var parts := Split(stored, '$', 5);
      SplitCuts(stored, '$', 5);
      JoinSplit(stored, '$', 5, parts);
      forall i | 0 <= i < 5 ensures '$' !in parts[i] {
        PartsLack(stored, '$', 5, parts, i);
      }
      var n, r, p := ParseDecimal(parts[1]).value, ParseDecimal(parts[2]).value, ParseDecimal(parts[3]).value;
      assert Accepts(kdf, key, stored, parts, n, r, p, Decode(parts[4]).value, Decode(parts[5]).value);
    }
    forall parts, n, r, p, salt, derived | Accepts(kdf, key, stored, parts, n, r, p, salt, derived)
      ensures VerifyApiKey(kdf, key, stored)
    {
      SplitJoined(parts, '$');
    }
  }

  // ------------------------------------------------------------- the prefix

  /** The prefix slice of a presented key, if the key has the right shape. */
  function ParsePrefix(key: string): Option<string> {
    var start := |"fai_"|;
    var end := start + PREFIX_LENGTH;
    if !("fai_" <= key) || |key| <= end || key[end] != '_' then None else Some(key[start..end])
  }

  /** A presented key has a prefix exactly when it begins with `fai_`, eight characters and an underscore. */
  lemma {:induction false} PrefixExactly(key: string, prefix: string)
    ensures ParsePrefix(key) == Some(prefix) <==> |prefix| == 8 && "fai_" + prefix + "_" <= key
  {
    if |key| > 12 {
      assert key[..13] == key[..4] + key[4..12] + [key[12]];
    }
    if |prefix| == 8 && "fai_" + prefix + "_" <= key {
      assert key[4..12] == ("fai_" + prefix + "_")[4..12] == prefix;
      assert key[12] == ("fai_" + prefix + "_")[12];
    }
  }

  /** The prefix comes back for every raw key long enough to have one, underscores or not, and for no other. */
  lemma {:induction false} PrefixRecovered(raw: string)
    ensures |raw| >= 8 ==> ParsePrefix(KeyText(raw)) == Some(raw[..8])
    ensures |raw| < 8 ==> ParsePrefix(KeyText(raw)) == None
  {
    var key := KeyText(raw);
    if |raw| >= PREFIX_LENGTH {
      assert key[4..12] == raw[..PREFIX_LENGTH];
    }
  }

  /** Different raw keys give different key texts. */
  lemma {:induction false} KeyTextInjective(raw: string, other: string)
    requires |raw| >= PREFIX_LENGTH && |other| >= PREFIX_LENGTH && KeyText(raw) == KeyText(other)
    ensures raw == other
  {
    var key := KeyText(raw);
    assert raw == key[4..12] + key[13..];
    assert other == KeyText(other)[4..12] + KeyText(other)[13..];
  }

  // ------------------------------------------------------------- validation

  datatype KeyRow = KeyRow(
    id: int,
    userId: int,
    prefix: string,
    hash: string,
    grants: Grants,
    isActive: bool,
    expiresAt: Option<int>,
    lastUsedAt: Option<int>)

  /** The permissions and usage limits of a key, as the JSON texts that are only handed on. */
  datatype Grants = Grants(permissions: string, usageLimits: string)

  datatype Verdict = Invalid | Inactive | Expired | Forbidden | Valid(id: int, userId: int, grants: Grants)

  predicate Candidate(kdf: Kdf, row: KeyRow, key: string, prefix: string) {
    row.prefix == prefix && VerifyApiKey(kdf, key, row.hash)
  }

  /** The row that a presented key selects: the first with its prefix whose hash accepts it. */
  function FirstMatch(kdf: Kdf, rows: seq<KeyRow>, key: string, prefix: string): (i: Option<nat>)
    ensures i.Some? ==> i.value < |rows|
  {
    if rows == [] then None
    else if Candidate(kdf, rows[0], key, prefix) then Some(0)
    else
      var i := FirstMatch(kdf, rows[1..], key, prefix);
      if i.Some? then Some(i.value + 1) else None
  }

  /** The row whose prefix and hash accept the key, with no such row before it. */
  ghost predicate Selects(kdf: Kdf, rows: seq<KeyRow>, key: string, i: int) {
    && 0 <= i < |rows| && HasPrefix(key, rows[i].prefix) && VerifyApiKey(kdf, key, rows[i].hash)
    && forall j | 0 <= j < i :: !(HasPrefix(key, rows[j].prefix) && VerifyApiKey(kdf, key, rows[j].hash))
  }

  ghost predicate HasPrefix(key: string, prefix: string) {
    |prefix| == 8 && "fai_" + prefix + "_" <= key
  }

  ghost predicate HasExpired(row: KeyRow, now: int) {
    exists at :: row.expiresAt == Some(at) && at < now
  }

  /** When each verdict comes. */
  ghost predicate RightVerdict(kdf: Kdf, rows: seq<KeyRow>, key: string, permitted: int -> bool, now: int,
                               verdict: Verdict)
  {
    match verdict
    case Invalid => forall i :: !Selects(kdf, rows, key, i)
    case Inactive => exists i :: Selects(kdf, rows, key, i) && !rows[i].isActive
    case Expired => exists i :: Selects(kdf, rows, key, i) && rows[i].isActive && HasExpired(rows[i], now)
    case Forbidden =>
      exists i :: Selects(kdf, rows, key, i) && rows[i].isActive && !HasExpired(rows[i], now) && !permitted(rows[i].id)
    case Valid(id, userId, grants) => exists i :: ValidAt(kdf, rows, key, permitted, now, verdict, i)
  }

  ghost predicate ValidAt(kdf: Kdf, rows: seq<KeyRow>, key: string, permitted: int -> bool, now: int,
                          verdict: Verdict, i: int)
  {
    && Selects(kdf, rows, key, i) && rows[i].isActive && !HasExpired(rows[i], now) && permitted(rows[i].id)
    && verdict == Valid(rows[i].id, rows[i].userId, rows[i].grants)
  }

  /** The row that a valid key used now has that as its last use, and nothing else changes. */
  ghost predicate UseRecorded(kdf: Kdf, before: seq<KeyRow>, after: seq<KeyRow>, key: string, now: int, valid: bool) {
    && |after| == |before|
    && forall i | 0 <= i < |before| ::
         after[i] == if valid && Selects(kdf, before, key, i)
                     then KeyRow(before[i].id, before[i].userId, before[i].prefix, before[i].hash, before[i].grants,
                                 before[i].isActive, before[i].expiresAt, Some(now))
                     else before[i]
  }

  /** The verdicts shut each other out, so `RightVerdict` leaves no choice. */
  lemma {:induction false} OneVerdict(kdf: Kdf, rows: seq<KeyRow>, key: string, permitted: int -> bool, now: int,
        a: Verdict, b: Verdict)
    requires RightVerdict(kdf, rows, key, permitted, now, a) && RightVerdict(kdf, rows, key, permitted, now, b)
    ensures a == b
  {
    assert forall i, j | Selects(kdf, rows, key, i) && Selects(kdf, rows, key, j) :: i == j;
  }

  class ApiKeyService {
    const kdf: Kdf
    var rows: seq<KeyRow>

    constructor (kdf: Kdf)
      ensures this.kdf == kdf && rows == []
    {
      this.kdf, rows := kdf, [];
    }

    method CreateApiKey(raw: string, salt: seq<byte>, id: int, userId: int, grants: Grants, expiresAt: Option<int>)
      returns (key: string)
      requires |raw| >= PREFIX_LENGTH
      modifies this
      ensures key == KeyText(raw)
      ensures rows == old(rows)
        + [KeyRow(id, userId, raw[..PREFIX_LENGTH], HashApiKey(kdf, key, salt), grants, true, expiresAt, None)]
    {
      key := KeyText(raw);
      var hash := HashApiKey(kdf, key, salt);
      rows := rows + [KeyRow(id, userId, raw[..PREFIX_LENGTH], hash, grants, true, expiresAt, None)];
    }

    /** The loop over the candidates. */
    method FindCandidate(key: string, prefix: string) returns (found: Option<nat>)
      ensures found == FirstMatch(kdf, rows, key, prefix)
    {
      var i := 0;
      while i < |rows| && !Candidate(kdf, rows[i], key, prefix)
        invariant 0 <= i <= |rows|
        invariant FirstMatch(kdf, rows, key, prefix)
               == (var rest := FirstMatch(kdf, rows[i..], key, prefix);
                   if rest.Some? then Some(rest.value + i) else None)
      {
        assert rows[i..][1..] == rows[i + 1..];
        i := i + 1;
      }
      return if i == |rows| then None else Some(i);
    }

    /** `permitted` tells for each key id whether the permission check would pass. */
    method ValidateApiKey(key: string, permitted: int -> bool, now: int) returns (verdict: Verdict)
      modifies this
      ensures RightVerdict(kdf, old(rows), key, permitted, now, verdict)
      ensures UseRecorded(kdf, old(rows), rows, key, now, verdict.Valid?)
    {
      MatchSelects(kdf, rows, key);
      var prefix := ParsePrefix(key);
      if prefix.None? {
        return Invalid;
      }
      var matched := FindCandidate(key, prefix.value);
      if matched.None? {
        return Invalid;
      }
      var i := matched.value;
      var row := rows[i];
      assert Selects(kdf, rows, key, i);
      if !row.isActive {
        return Inactive;
      }
      if row.expiresAt.Some? && row.expiresAt.value < now {
        return Expired;
      }
      if !permitted(row.id) {
        return Forbidden;
      }
      rows := rows[i := row.(lastUsedAt := Some(now))];
      verdict := Valid(row.id, row.userId, row.grants);
      assert ValidAt(kdf, old(rows), key, permitted, now, verdict, i);
    }
  }

  /** The row found by prefix and hash is the one that the key selects. */
  lemma {:induction false} MatchSelects(kdf: Kdf, rows: seq<KeyRow>, key: string)
    ensures var prefix := ParsePrefix(key);
      forall i :: Selects(kdf, rows, key, i)
             <==> prefix.Some? && i >= 0 && FirstMatch(kdf, rows, key, prefix.value) == Some(i)
  {
    var prefix := ParsePrefix(key);
    forall p ensures HasPrefix(key, p) <==> prefix == Some(p) {
      PrefixExactly(key, p);
    }
    if prefix.Some? {
      FirstMatchIsFirst(kdf, rows, key, prefix.value);
    }
  }

  lemma {:induction false} FirstMatchIsFirst(kdf: Kdf, rows: seq<KeyRow>, key: string, prefix: string)
    ensures var i := FirstMatch(kdf, rows, key, prefix);
      && (i.Some? ==> Candidate(kdf, rows[i.value], key, prefix))
      && (forall j | 0 <= j < (if i.Some? then i.value else |rows|) :: !Candidate(kdf, rows[j], key, prefix))
  {
    if rows != [] && !Candidate(kdf, rows[0], key, prefix) {
      FirstMatchIsFirst(kdf, rows[1..], key, prefix);
      forall j | 1 <= j < |rows| ensures rows[j] == rows[1..][j - 1] {
      }
    }
  }

  /**
   A key handed out is found again by its own row wherever that row stands, unless a row before it
   has the same prefix and accepts the key too.
   */
  lemma {:induction false} CreatedKeyIsFound(kdf: Kdf, rows: seq<KeyRow>, own: nat, raw: string, salt: seq<byte>)
    requires Sized(kdf) && |raw| >= PREFIX_LENGTH && own < |rows|
    requires rows[own].prefix == raw[..PREFIX_LENGTH] && rows[own].hash == HashApiKey(kdf, KeyText(raw), salt)
    ensures var prefix, i := ParsePrefix(KeyText(raw)), FirstMatch(kdf, rows, KeyText(raw), raw[..PREFIX_LENGTH]);
      && prefix == Some(raw[..PREFIX_LENGTH])
      && i.Some? && i.value <= own
      && (i == Some(own) <==> forall j | 0 <= j < own ::
            !(rows[j].prefix == raw[..PREFIX_LENGTH] && VerifyApiKey(kdf, KeyText(raw), rows[j].hash)))
  {
    PrefixRecovered(raw);
    VerifyExactly(kdf, KeyText(raw), salt, KeyText(raw));
    FirstMatchIsFirst(kdf, rows, KeyText(raw), raw[..PREFIX_LENGTH]);
  }
}
