/** CSRF tokens: issued into a storage of their own, accepted for one session during one session timeout. */
module Csrf {
  import opened Wrappers
  import opened Dicts
  import opened Expiring
  import opened MemoryStorage

  datatype CsrfToken = CsrfToken(token: string, userId: int, sessionId: string, expiry: int)

  type Tokens = Store<CsrfToken>

  /** Storage lifetime and recorded expiry are both the session timeout. */
  function Issued(st: Tokens, token: string, user: int, session: string, now: int, timeout: int): Tokens {
    Write(st, token, CsrfToken(token, user, session, now + timeout), now + timeout)
  }

  function CheckedToken(st: Tokens, session: string, token: string, now: int): (Tokens, bool) {
    if session == "" || token == "" then (st, false)
    else match Lookup(st, token, now)
      case None => (Checked(st, token, now), false)
      case Some(d) =>
        if d.sessionId != session then (st, false)
        else if d.expiry < now then (Drop(st, token), false)
        else (st, true)
  }

  // ------------------------------------------------------------- runs

  /** `Issue` is a generate or regenerate step. */
  datatype Event =
    | Issue(token: string, user: int, session: string, now: int)
    | Check(session: string, token: string, now: int)

  function Step(st: Tokens, e: Event, timeout: int): (Tokens, Option<bool>) {
    match e
    case Issue(token, user, session, now) => (Issued(st, token, user, session, now, timeout), None)
    case Check(session, token, now) =>
      var (st', ok) := CheckedToken(st, session, token, now);
      (st', Some(ok))
  }

  /** The storage after a whole run from an empty one. */
  function After(events: seq<Event>, timeout: int): Tokens {
    if events == [] then Store(Empty(), map[])
    else Step(After(events[..|events| - 1], timeout), events[|events| - 1], timeout).0
  }

  /** The most recent step that issued `token`. */
  function LastIssue(events: seq<Event>, token: string): Option<Event> {
    if events == [] then None
    else
      var e := events[|events| - 1];
      if e.Issue? && e.token == token then Some(e) else LastIssue(events[..|events| - 1], token)
  }

  ghost predicate Ordered(events: seq<Event>) {
    forall i, j | 0 <= i <= j < |events| :: events[i].now <= events[j].now
  }

  /** A stored token is its last issue, and a last issue still in time is stored. */
  ghost predicate TracksToken(st: Tokens, events: seq<Event>, t: string, now: int, timeout: int) {
    var last := LastIssue(events, t);
    && (t in st.data.at && t in st.expiry ==>
          && last.Some? && last.value.Issue?
          && st.data.at[t] == CsrfToken(t, last.value.user, last.value.session, last.value.now + timeout)
          && st.expiry[t] == last.value.now + timeout)
    && (last.Some? && now <= last.value.now + timeout ==> t in st.data.at)
  }

  ghost predicate Tracks(st: Tokens, events: seq<Event>, now: int, timeout: int) {
    Sound(st) && forall t :: TracksToken(st, events, t, now, timeout)
  }

  lemma {:induction false} LastIssueAppend(before: seq<Event>, e: Event, token: string)
    ensures LastIssue(before + [e], token) == if e.Issue? && e.token == token then Some(e) else LastIssue(before, token)
  {
  }

  lemma {:induction false} CheckedElsewhere(st: Tokens, e: Event, t: string, timeout: int)
    requires e.Check? && Sound(st)
    ensures Sound(Step(st, e, timeout).0)
    ensures t != e.token ==>
      var st' := Step(st, e, timeout).0;
      && (t in st'.data.at <==> t in st.data.at)
      && (t in st.data.at ==> st'.data.at[t] == st.data.at[t] && st'.expiry[t] == st.expiry[t])
  {
    CheckedSound(st, e.token, e.now);
  }

  lemma {:induction false} CheckTracksToken(st: Tokens, before: seq<Event>, e: Event, t: string, from: int,
        timeout: int)
    requires Sound(st) && TracksToken(st, before, t, from, timeout) && from <= e.now && e.Check?
    ensures TracksToken(Step(st, e, timeout).0, before + [e], t, e.now, timeout)
  {
    LastIssueAppend(before, e, t);
    if t != e.token {
      CheckedElsewhere(st, e, t, timeout);
    }
  }

  lemma {:induction false} CheckTracks(st: Tokens, before: seq<Event>, e: Event, from: int, timeout: int)
    requires Tracks(st, before, from, timeout) && from <= e.now && e.Check?
    ensures Tracks(Step(st, e, timeout).0, before + [e], e.now, timeout)
  {
    CheckedElsewhere(st, e, e.token, timeout);
    forall t ensures TracksToken(Step(st, e, timeout).0, before + [e], t, e.now, timeout) {
      assert TracksToken(st, before, t, from, timeout);
      CheckTracksToken(st, before, e, t, from, timeout);
    }
  }

  lemma {:induction false} IssueTracks(st: Tokens, before: seq<Event>, e: Event, from: int, timeout: int)
    requires Tracks(st, before, from, timeout) && from <= e.now && e.Issue?
    ensures Tracks(Step(st, e, timeout).0, before + [e], e.now, timeout)
  {
    PutProper(st.data, e.token, CsrfToken(e.token, e.user, e.session, e.now + timeout));
    forall t ensures TracksToken(Step(st, e, timeout).0, before + [e], t, e.now, timeout) {
      LastIssueAppend(before, e, t);
      assert TracksToken(st, before, t, from, timeout);
    }
  }

  lemma {:induction false} TracksLater(st: Tokens, events: seq<Event>, now: int, later: int, timeout: int)
    requires Tracks(st, events, now, timeout) && now <= later
    ensures Tracks(st, events, later, timeout)
  {
    forall t ensures TracksToken(st, events, t, later, timeout) {
      assert TracksToken(st, events, t, now, timeout);
    }
  }

  lemma {:induction false} RunTracks(events: seq<Event>, now: int, timeout: int)
    requires Ordered(events)
    requires events != [] ==> events[|events| - 1].now <= now
    ensures Tracks(After(events, timeout), events, now, timeout)
  {
    if events != [] {
      var before, e := events[..|events| - 1], events[|events| - 1];
      assert before != [] ==> events[|before| - 1].now <= e.now;
      RunTracks(before, e.now, timeout);
      assert events == before + [e];
      if e.Issue? {
        IssueTracks(After(before, timeout), before, e, e.now, timeout);
      } else {
        CheckTracks(After(before, timeout), before, e, e.now, timeout);
      }
      TracksLater(After(events, timeout), events, e.now, now, timeout);
    }
  }

  /**
   After any run, a token is accepted for a session exactly when its last issue was for that
   session and lies at most one timeout back. No check, purge or issue of another token matters.
   */
  lemma {:induction false} TokenAccepted(events: seq<Event>, session: string, token: string, now: int, timeout: int)
    requires Ordered(events)
    requires events != [] ==> events[|events| - 1].now <= now
    ensures CheckedToken(After(events, timeout), session, token, now).1 <==>
      && session != "" && token != ""
      && LastIssue(events, token).Some?
      && LastIssue(events, token).value.session == session
      && now - LastIssue(events, token).value.now <= timeout
  {
    RunTracks(events, now, timeout);
    assert TracksToken(After(events, timeout), events, token, now, timeout);
  }

  lemma {:induction false} LastIssueIsThere(events: seq<Event>, token: string)
    ensures LastIssue(events, token).Some? ==>
      exists i :: && 0 <= i < |events| && events[i].Issue? && events[i].token == token
                  && LastIssue(events, token).value == events[i]
    ensures LastIssue(events, token).None? ==>
      forall i | 0 <= i < |events| :: !(events[i].Issue? && events[i].token == token)
  {
    if events != [] {
      LastIssueIsThere(events[..|events| - 1], token);
    }
  }

  /** No token is given out twice. */
  ghost predicate Unrepeated(events: seq<Event>) {
    forall i, j | 0 <= i < j < |events| && events[i].Issue? && events[j].Issue? :: events[i].token != events[j].token
  }

  /** With tokens never given out twice, any issue at most one timeout old will do. */
  lemma {:induction false} FreshTokenAccepted(events: seq<Event>, session: string, token: string, now: int,
        timeout: int)
    requires Ordered(events)
    requires events != [] ==> events[|events| - 1].now <= now
    requires Unrepeated(events)
    ensures CheckedToken(After(events, timeout), session, token, now).1 <==>
      session != "" && token != "" &&
      exists i :: && 0 <= i < |events| && events[i].Issue? && events[i].token == token
                  && events[i].session == session && now - events[i].now <= timeout
  {
    TokenAccepted(events, session, token, now, timeout);
    LastIssueIsThere(events, token);
  }

  // ------------------------------------------------------------- over Redis and Memcached

  type ServerTokens = map<string, Entry<CsrfToken>>

  function ServerStep(st: ServerTokens, e: Event, timeout: int): (ServerTokens, Option<bool>) {
    match e
    case Issue(token, user, session, now) =>
      (st[token := Entry(CsrfToken(token, user, session, now + timeout), now + timeout)], None)
    case Check(session, token, now) =>
      var (st', ok) := ServerChecked(st, session, token, now);
      (st', Some(ok))
  }

  function ServerChecked(st: ServerTokens, session: string, token: string, now: int): (ServerTokens, bool) {
    if session == "" || token == "" then (st, false)
    else match Fetched(st, token, now)
      case None => (st, false)
      case Some(d) =>
        if d.sessionId != session then (st, false)
        else if d.expiry < now then (st - {token}, false)
        else (st, true)
  }

  function ServerAfter(events: seq<Event>, timeout: int): ServerTokens {
    if events == [] then map[]
    else ServerStep(ServerAfter(events[..|events| - 1], timeout), events[|events| - 1], timeout).0
  }

  /** A stored token is its last issue, and is stored for as long as that is alive. */
  ghost predicate ServerTracks(st: ServerTokens, events: seq<Event>, t: string, now: int, timeout: int) {
    var last := LastIssue(events, t);
    && (t in st ==>
          && last.Some? && last.value.Issue?
          && st[t] == Entry(CsrfToken(t, last.value.user, last.value.session, last.value.now + timeout),
                            last.value.now + timeout))
    && (last.Some? && now < last.value.now + timeout ==> t in st)
  }

  lemma {:induction false} ServerRunTracks(events: seq<Event>, t: string, now: int, timeout: int)
    requires Ordered(events)
    requires events != [] ==> events[|events| - 1].now <= now
    ensures ServerTracks(ServerAfter(events, timeout), events, t, now, timeout)
  {
    if events != [] {
      var before, e := events[..|events| - 1], events[|events| - 1];
      assert before != [] ==> events[|before| - 1].now <= e.now;
      ServerRunTracks(before, t, e.now, timeout);
    }
  }

  /**
   The same over a server, where the last instant of the timeout is no longer in time: the expiry that
   validation compares is then never the one to decide.
   */
  lemma {:induction false} ServerTokenAccepted(events: seq<Event>, session: string, token: string, now: int,
        timeout: int)
    requires Ordered(events)
    requires events != [] ==> events[|events| - 1].now <= now
    ensures ServerChecked(ServerAfter(events, timeout), session, token, now).1 <==>
      && session != "" && token != ""
      && LastIssue(events, token).Some?
      && LastIssue(events, token).value.session == session
      && now - LastIssue(events, token).value.now < timeout
    ensures ServerChecked(ServerAfter(events, timeout), session, token, now).0 == ServerAfter(events, timeout)
  {
    ServerRunTracks(events, token, now, timeout);
  }

  /** With tokens never given out twice, any issue less than one timeout old will do. */
  lemma {:induction false} ServerFreshTokenAccepted(
      events: seq<Event>, session: string, token: string, now: int, timeout: int)
    requires Ordered(events)
    requires events != [] ==> events[|events| - 1].now <= now
    requires Unrepeated(events)
    ensures ServerChecked(ServerAfter(events, timeout), session, token, now).1 <==>
      session != "" && token != "" &&
      exists i :: && 0 <= i < |events| && events[i].Issue? && events[i].token == token
                  && events[i].session == session && now - events[i].now < timeout
  {
    ServerTokenAccepted(events, session, token, now, timeout);
    LastIssueIsThere(events, token);
  }
}
