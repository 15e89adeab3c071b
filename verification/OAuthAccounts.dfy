/** Account linking: finding, linking or creating the user that belongs to an identity at Google or GitHub. */
module OAuthAccounts {
  import opened Ordering
  import opened Wrappers
  import opened Text

  datatype Provider = Google | GitHub

  datatype Identity = Identity(
    provider: Provider,
    providerUserId: string,
    email: Option<string>,
    emailVerified: bool,
    name: Option<string>,
    givenName: Option<string>,
    familyName: Option<string>,
    username: Option<string>)

  datatype User = User(
    id: nat,
    username: string,
    email: string,
    name: string,
    emailVerified: bool,
    googleId: Option<string>,
    githubId: Option<string>,
    oauthProvider: Option<Provider>,
    oauthUpdatedAt: Option<int>)

  datatype Failure = EmailRequired

  function ProviderId(u: User, p: Provider): Option<string> {
    if p.Google? then u.googleId else u.githubId
  }

  function WithProviderId(u: User, p: Provider, id: string): User {
    if p.Google? then u.(googleId := Some(id)) else u.(githubId := Some(id))
  }

  /** The unique columns of the user table. */
  ghost predicate Unique(users: seq<User>) {
    forall i, j | 0 <= i < j < |users| ::
      && users[i].id != users[j].id
      && users[i].username != users[j].username
      && users[i].email != users[j].email
      && (users[i].googleId.Some? ==> users[i].googleId != users[j].googleId)
      && (users[i].githubId.Some? ==> users[i].githubId != users[j].githubId)
  }

  /** Truth of an optional string: absent and empty are both false. */
  predicate Given(s: Option<string>) {
    s.Some? && s.value != ""
  }

  function TextOr(s: Option<string>, other: string): string {
    if Given(s) then s.value else other
  }

  function LocalPart(email: string): string {
    Split(email, '@', |email|)[0]
  }

  function Lower(c: char): char {
    if 'A' <= c <= 'Z' then (c as int - 'A' as int + 'a' as int) as char else c
  }

  /** `s.lower().replace(" ", "_")`, on ASCII letters. */
  function Slug(s: string): string {
    seq(|s|, i requires 0 <= i < |s| => if s[i] == ' ' then '_' else Lower(s[i]))
  }

  function Strip(s: string): string {
    if s != "" && s[0] == ' ' then Strip(s[1..])
    else if s != "" && s[|s| - 1] == ' ' then Strip(s[..|s| - 1])
    else s
  }

  function BaseName(info: Identity, email: string): string {
    if Given(info.username) then info.username.value
    else Slug(TextOr(info.givenName, TextOr(info.name, LocalPart(email))))
  }

  function DisplayName(info: Identity, email: string): string {
    var name := TextOr(info.name, Strip(TextOr(info.givenName, "") + " " + TextOr(info.familyName, "")));
    if name == "" then LocalPart(email) else name
  }

  // ------------------------------------------------------------- names, in the terms of the identity

  ghost predicate Missing(s: Option<string>) {
    s == None || s == Some("")
  }

  /** Upper-case letters become lower-case, blanks become underscores, and everything else stays. */
  lemma {:induction false} SlugExactly(s: string, i: nat)
    requires i < |s|
    ensures |Slug(s)| == |s|
    ensures s[i] == ' ' ==> Slug(s)[i] == '_'
    ensures 'A' <= s[i] <= 'Z' ==> Slug(s)[i] as int == s[i] as int + 32
    ensures s[i] != ' ' && !('A' <= s[i] <= 'Z') ==> Slug(s)[i] == s[i]
    ensures Slug(Slug(s)) == Slug(s)
  {
  }

  ghost predicate Blank(s: string) {
    forall i | 0 <= i < |s| :: s[i] == ' '
  }

  ghost predicate Stripped(s: string) {
    s == "" || (s[0] != ' ' && s[|s| - 1] != ' ')
  }

  /** Nothing but blanks is stripped, and all of them. */
  lemma {:induction false} StripExactly(s: string) returns (front: string, back: string)
    ensures s == front + Strip(s) + back && Blank(front) && Blank(back) && Stripped(Strip(s))
  {
    if s != "" && s[0] == ' ' {
      front, back := StripExactly(s[1..]);
      front := [s[0]] + front;
    } else if s != "" && s[|s| - 1] == ' ' {
      front, back := StripExactly(s[..|s| - 1]);
      back := back + [s[|s| - 1]];
    } else {
      front, back := "", "";
    }
  }

  /** What is before the first `@`, which is the whole text if there is none. */
  lemma {:induction false} LocalPartExactly(a: string, b: string)
    requires '@' !in a
    ensures LocalPart(a + "@" + b) == a && LocalPart(a) == a
  {
    var email := a + "@" + b;
    SplitFirst(a, b, '@', |email|);
    assert email == a + ['@'] + b;
  }

  /** The username asked for, or else the slug of the first that is given of first name, name and local part. */
  lemma {:induction false} BaseNameExactly(info: Identity, email: string)
    ensures !Missing(info.username) ==> info.username == Some(BaseName(info, email))
    ensures Missing(info.username) && !Missing(info.givenName) ==>
      BaseName(info, email) == Slug(info.givenName.value)
    ensures Missing(info.username) && Missing(info.givenName) && !Missing(info.name) ==>
      BaseName(info, email) == Slug(info.name.value)
    ensures Missing(info.username) && Missing(info.givenName) && Missing(info.name) ==>
      BaseName(info, email) == Slug(LocalPart(email))
  {
  }

  ghost function TextOf(s: Option<string>): string {
    match s
    case None => ""
    case Some(text) => text
  }

  /**
   The name given, or else what is left of first and last name with a blank between when blanks are
   stripped at both ends, or else the local part.
   */
  lemma {:induction false} DisplayNameExactly(info: Identity, email: string)
    returns (front: string, full: string, back: string)
    ensures TextOf(info.givenName) + " " + TextOf(info.familyName) == front + full + back
    ensures Blank(front) && Blank(back) && Stripped(full)
    ensures !Missing(info.name) ==> info.name == Some(DisplayName(info, email))
    ensures Missing(info.name) ==> DisplayName(info, email) == if full == "" then LocalPart(email) else full
  {
    var joined := TextOf(info.givenName) + " " + TextOf(info.familyName);
    assert joined == TextOr(info.givenName, "") + " " + TextOr(info.familyName, "");
    front, back := StripExactly(joined);
    full := Strip(joined);
  }

  /** There is only one way to strip, so the full name is determined. */
  lemma {:induction false} StripUnique(s: string, front: string, full: string, back: string)
    requires s == front + full + back && Blank(front) && Blank(back) && Stripped(full)
    ensures Strip(s) == full
    decreases |s|
  {
    if full == "" {
      assert Blank(s);
    }
    if front != "" {
      assert s[0] == front[0] && s[1..] == front[1..] + full + back;
      StripUnique(s[1..], front[1..], full, back);
    } else if full == "" && back != "" {
      assert s[0] == back[0] && s[1..] == "" + "" + back[1..];
      StripUnique(s[1..], "", "", back[1..]);
    } else if back != "" {
      assert s[|s| - 1] == back[|back| - 1] && s[..|s| - 1] == "" + full + back[..|back| - 1];
      assert s[0] == full[0];
      StripUnique(s[..|s| - 1], "", full, back[..|back| - 1]);
    }
  }

  // ------------------------------------------------------------- the username search

  /** The candidates in the order they are tried: the base itself, then base1, base2, and so on. */
  function Candidate(base: string, i: nat): string {
    if i == 0 then base else base + Decimal(i)
  }

  lemma {:induction false} CandidatesDistinct(base: string, i: nat, j: nat)
    ensures Candidate(base, i) == Candidate(base, j) ==> i == j
  {
    DecimalInjective(i, j);
    assert (base + Decimal(i))[|base|..] == Decimal(i);
    assert (base + Decimal(j))[|base|..] == Decimal(j);
  }

  function FirstCandidates(base: string, n: nat): set<string> {
    set i | 0 <= i < n :: Candidate(base, i)
  }

  lemma {:induction false} CandidateCount(base: string, n: nat)
    ensures |FirstCandidates(base, n)| == n
  {
    if n > 0 {
      CandidateCount(base, n - 1);
      assert FirstCandidates(base, n) == FirstCandidates(base, n - 1) + {Candidate(base, n - 1)};
      forall i | 0 <= i < n - 1 ensures Candidate(base, i) != Candidate(base, n - 1) {
        CandidatesDistinct(base, i, n - 1);
      }
    }
  }

  /** Pigeonhole: `n` candidates that are all taken need `n` taken names. */
  lemma {:induction false} TakenCandidates(base: string, n: nat, taken: set<string>)
    requires forall i | 0 <= i < n :: Candidate(base, i) in taken
    ensures n <= |taken|
  {
    CandidateCount(base, n);
    FullSubset(FirstCandidates(base, n), taken);
  }

  /** `username` is the free candidate that comes first. */
  ghost predicate IsFirstFree(username: string, base: string, taken: set<string>) {
    exists n: nat :: FreeAt(n, username, base, taken)
  }

  ghost predicate FreeAt(n: nat, username: string, base: string, taken: set<string>) {
    && username == Candidate(base, n) && username !in taken
    && forall i | 0 <= i < n :: Candidate(base, i) in taken
  }

  /** There is only one such name, so whichever loop finds one finds the same. */
  lemma {:induction false} FirstFreeUnique(a: string, b: string, base: string, taken: set<string>)
    requires IsFirstFree(a, base, taken) && IsFirstFree(b, base, taken)
    ensures a == b
  {
  }

  function Names(users: seq<User>): set<string> {
    set u | u in users :: u.username
  }

  class OAuthAccountService {
    var users: seq<User>
    var nextId: nat

    ghost predicate Valid()
      reads this
    {
      Unique(users) && forall i | 0 <= i < |users| :: users[i].id < nextId
    }

    constructor ()
      ensures Valid() && users == []
    {
      users, nextId := [], 0;
    }

    method Exists(username: string) returns (yes: bool)
      ensures yes == (username in Names(users))
    {
      yes := false;
      for i := 0 to |users|
        invariant yes <==> exists j :: 0 <= j < i && users[j].username == username
      {
        if users[i].username == username {
          yes := true;
        }
      }
    }

    /** The loop of both branches, with the number of times it runs. */
    method FreeUsername(base: string) returns (username: string, rounds: nat)
      ensures IsFirstFree(username, base, Names(users))
      ensures rounds <= |Names(users)|
    {
      username, rounds := base, 0;
      ghost var taken := Names(users);
      var busy := Exists(username);
      while busy
        invariant username == Candidate(base, rounds)
        invariant busy == (username in taken)
        invariant forall i | 0 <= i < rounds :: Candidate(base, i) in taken
        invariant rounds <= |taken|
        decreases |taken| - rounds
      {
        TakenCandidates(base, rounds + 1, taken);
        username, rounds := base + Decimal(rounds + 1), rounds + 1;
        busy := Exists(username);
      }
      assert FreeAt(rounds, username, base, taken);
    }

    method FindByProvider(p: Provider, id: string) returns (at: Option<nat>)
      ensures at.Some? ==> at.value < |users| && ProviderId(users[at.value], p) == Some(id)
      ensures at.None? ==> forall i | 0 <= i < |users| :: ProviderId(users[i], p) != Some(id)
    {
      for i := 0 to |users|
        invariant forall j | 0 <= j < i :: ProviderId(users[j], p) != Some(id)
      {
        if ProviderId(users[i], p) == Some(id) {
          return Some(i);
        }
      }
      return None;
    }

    method FindByEmail(email: string) returns (at: Option<nat>)
      ensures at.Some? ==> at.value < |users| && users[at.value].email == email
      ensures at.None? ==> forall i | 0 <= i < |users| :: users[i].email != email
    {
      for i := 0 to |users|
        invariant forall j | 0 <= j < i :: users[j].email != email
      {
        if users[i].email == email {
          return Some(i);
        }
      }
      return None;
    }

    method CreateUserFromOAuth(info: Identity, now: int) returns (r: Result<User, Failure>)
      requires Valid()
      requires forall i | 0 <= i < |users| :: ProviderId(users[i], info.provider) != Some(info.providerUserId)
      requires Given(info.email) ==> forall i | 0 <= i < |users| :: users[i].email != info.email.value
      modifies this
      ensures Valid()
      ensures Missing(info.email) ==> r == Err(EmailRequired) && users == old(users) && nextId == old(nextId)
      ensures !Missing(info.email) ==>
        && r.Ok? && users == old(users) + [r.value] && nextId == old(nextId) + 1
        && r.value.id == old(nextId) && r.value.email == info.email.value
        && r.value.name == DisplayName(info, info.email.value) && r.value.emailVerified == info.emailVerified
        && r.value.oauthProvider == Some(info.provider) && r.value.oauthUpdatedAt == Some(now)
        && r.value.googleId == (if info.provider.Google? then Some(info.providerUserId) else None)
        && r.value.githubId == (if info.provider.GitHub? then Some(info.providerUserId) else None)
        && IsFirstFree(r.value.username, BaseName(info, info.email.value), Names(old(users)))
    {
      if !Given(info.email) {
        return Err(EmailRequired);
      }
      var email := info.email.value;
      var username, rounds;
      if !Given(info.username) {
        username, rounds := FreeUsername(Slug(TextOr(info.givenName, TextOr(info.name, LocalPart(email)))));
      } else {
        username := info.username.value;
        var busy := Exists(username);
        if busy {
          username, rounds := FreeUsername(username);
        } else {
          assert FreeAt(0, username, username, Names(users));
        }
      }
      forall i | 0 <= i < |users| ensures users[i].username != username {
        assert users[i] in users;
      }
      var user := User(nextId, username, email, DisplayName(info, email), info.emailVerified,
        if info.provider.Google? then Some(info.providerUserId) else None,
        if info.provider.GitHub? then Some(info.providerUserId) else None,
        Some(info.provider), Some(now));
      NewKeepsUnique(users, user);
      users, nextId := users + [user], nextId + 1;
      return Result.Ok(user);
    }

    method GetOrCreateUser(info: Identity, now: int) returns (r: Result<(User, bool), Failure>)
      requires Valid()
      modifies this
      ensures Valid()
      ensures Linking(old(users), old(nextId), users, nextId, info, now, r)
    {
      var at := FindByProvider(info.provider, info.providerUserId);
      if at.Some? {
        return Result.Ok((users[at.value], false));
      }
      if Given(info.email) {
        at := FindByEmail(info.email.value);
        if at.Some? {
          var user := WithProviderId(users[at.value], info.provider, info.providerUserId).(oauthUpdatedAt := Some(now));
          LinkKeepsUnique(users, at.value, info.provider, info.providerUserId, now);
          assert Linked(at.value, users, users[at.value := user], info, now, user);
          users := users[at.value := user];
          return Result.Ok((user, false));
        }
      }
      var created := CreateUserFromOAuth(info, now);
      return if created.Ok? then Result.Ok((created.value, true)) else Err(created.error);
    }
  }

  lemma {:induction false} NewKeepsUnique(users: seq<User>, user: User)
    requires Unique(users)
    requires forall i | 0 <= i < |users| ::
      && users[i].id != user.id && users[i].username != user.username && users[i].email != user.email
      && (user.googleId.Some? ==> users[i].googleId != user.googleId)
      && (user.githubId.Some? ==> users[i].githubId != user.githubId)
    ensures Unique(users + [user])
  {
  }

  lemma {:induction false} LinkKeepsUnique(users: seq<User>, at: nat, p: Provider, id: string, now: int)
    requires Unique(users) && at < |users|
    requires forall i | 0 <= i < |users| :: ProviderId(users[i], p) != Some(id)
    ensures Unique(users[at := WithProviderId(users[at], p, id).(oauthUpdatedAt := Some(now))])
  {
  }

  /** Some user has the identity, or its email address. */
  ghost predicate Known(users: seq<User>, info: Identity) {
    exists i :: 0 <= i < |users| && ProviderId(users[i], info.provider) == Some(info.providerUserId)
  }

  ghost predicate EmailKnown(users: seq<User>, info: Identity) {
    !Missing(info.email) && exists i :: 0 <= i < |users| && info.email == Some(users[i].email)
  }

  /** What one call may do: return the linked user, link the user with the email address, create one, or refuse. */
  ghost predicate Linking(before: seq<User>, beforeId: nat, after: seq<User>, afterId: nat,
                          info: Identity, now: int, r: Result<(User, bool), Failure>)
  {
    if Known(before, info) then
      && after == before && afterId == beforeId
      && r.Ok? && !r.value.1 && r.value.0 in before
      && ProviderId(r.value.0, info.provider) == Some(info.providerUserId)
    else if EmailKnown(before, info) then
      && afterId == beforeId
      && r.Ok? && !r.value.1
      && exists i :: Linked(i, before, after, info, now, r.value.0)
    else if Missing(info.email) then
      after == before && afterId == beforeId && r == Err(EmailRequired)
    else
      && afterId == beforeId + 1
      && r.Ok? && r.value.1 && after == before + [r.value.0]
      && r.value.0.id == beforeId && r.value.0.email == info.email.value
      && r.value.0.name == DisplayName(info, info.email.value) && r.value.0.emailVerified == info.emailVerified
      && r.value.0.oauthProvider == Some(info.provider) && r.value.0.oauthUpdatedAt == Some(now)
      && r.value.0.googleId == (if info.provider.Google? then Some(info.providerUserId) else None)
      && r.value.0.githubId == (if info.provider.GitHub? then Some(info.providerUserId) else None)
      && IsFirstFree(r.value.0.username, BaseName(info, info.email.value), Names(before))
  }

  ghost predicate Linked(i: int, before: seq<User>, after: seq<User>, info: Identity, now: int, user: User) {
    && 0 <= i < |before| && info.email == Some(before[i].email)
    && user == (if info.provider.Google?
                then before[i].(googleId := Some(info.providerUserId), oauthUpdatedAt := Some(now))
                else before[i].(githubId := Some(info.providerUserId), oauthUpdatedAt := Some(now)))
    && after == before[i := user]
  }

  /** Every call keeps every unique column unique. */
  lemma {:induction false} LinkingKeepsUnique(
      before: seq<User>, beforeId: nat, after: seq<User>, afterId: nat, info: Identity, now: int,
            r: Result<(User, bool), Failure>)
    requires Unique(before) && forall i | 0 <= i < |before| :: before[i].id < beforeId
    requires Linking(before, beforeId, after, afterId, info, now, r)
    ensures Unique(after) && forall i | 0 <= i < |after| :: after[i].id < afterId
  {
  }

  /** Repeating a successful call finds the same user, creates nothing and changes nothing. */
  lemma {:induction false} LinkingIdempotent(
      before: seq<User>, beforeId: nat, after: seq<User>, afterId: nat, info: Identity, now: int,
            r: Result<(User, bool), Failure>,
      again: seq<User>, againId: nat, later: int, r': Result<(User, bool), Failure>)
    requires Unique(before) && forall i | 0 <= i < |before| :: before[i].id < beforeId
    requires Linking(before, beforeId, after, afterId, info, now, r) && r.Ok?
    requires Linking(after, afterId, again, againId, info, later, r')
    ensures again == after && againId == afterId
    ensures r' == Result.Ok((r.value.0, false))
  {
    LinkingKeepsUnique(before, beforeId, after, afterId, info, now, r);
    var user := r.value.0;
    assert user in after && ProviderId(user, info.provider) == Some(info.providerUserId) by {
      if !Known(before, info) && EmailKnown(before, info) {
        var i :| Linked(i, before, after, info, now, user);
        assert after[i] == user;
      }
    }
    var i :| 0 <= i < |after| && after[i] == user;
    assert Known(after, info);
    var j :| 0 <= j < |after| && after[j] == r'.value.0;
    assert i == j;
  }
}
