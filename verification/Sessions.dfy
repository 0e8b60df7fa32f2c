/**
 Login sessions: a Redis key per session whose time to live is renewed by every authenticated request. The keys are
 compared with the plain history of logins, touches and invalidations. A request checks the key and touches it in two
 separate commands, so other events may fall between the two.
 */
module Sessions {
  import opened Wrappers

  /** `session:{user_id}:{session_id}` */
  datatype SessionKey = SessionKey(user: Uuid, session: Uuid)

  datatype Event =
    | Login(time: int, key: SessionKey, minutes: int)
    | Touch(time: int, key: SessionKey, minutes: int)
    | Logout(time: int, key: SessionKey)
    | LogoutAll(time: int, user: Uuid)
    | Refresh(time: int, token: Token)

  // ---------- The history ----------

  /** Seconds of inactivity that the login or touch allows. */
  function Allows(e: Event): int
    requires e.Login? || e.Touch?
  {
    e.minutes * 60
  }

  ghost predicate Mark(events: seq<Event>, key: SessionKey, i: int) {
    0 <= i < |events| && (events[i].Login? || events[i].Touch?) && events[i].key == key
  }

  /** `i` and `j` are consecutive touches of the session (the login counts as one). */
  ghost predicate Next(events: seq<Event>, key: SessionKey, i: int, j: int) {
    i < j && Mark(events, key, i) && Mark(events, key, j) && forall k :: i < k < j ==> !Mark(events, key, k)
  }

  ghost predicate Latest(events: seq<Event>, key: SessionKey, i: int) {
    Mark(events, key, i) && forall k :: i < k < |events| ==> !Mark(events, key, k)
  }

  ghost predicate ShortGap(events: seq<Event>, key: SessionKey, i: int, j: int) {
    Next(events, key, i, j) ==> events[j].time - events[i].time < Allows(events[i])
  }

  ghost predicate StillOpen(events: seq<Event>, key: SessionKey, now: int, i: int) {
    Latest(events, key, i) ==> now - events[i].time < Allows(events[i])
  }

  predicate Invalidates(e: Event, key: SessionKey) {
    (e.Logout? && e.key == key) || (e.LogoutAll? && e.user == key.user)
  }

  /** Since the login `c` the session was not invalidated, and every gap between consecutive touches, up to now,
      is shorter than the earlier touch allows. */
  ghost predicate LiveSince(events: seq<Event>, key: SessionKey, now: int, c: int) {
    && Mark(events, key, c) && events[c].Login?
    && (forall k :: c < k < |events| ==> !Invalidates(events[k], key))
    && (forall i, j :: c <= i ==> ShortGap(events, key, i, j))
    && (forall i :: c <= i ==> StillOpen(events, key, now, i))
  }

  ghost predicate Live(events: seq<Event>, key: SessionKey, now: int) {
    exists c :: LiveSince(events, key, now, c)
  }

  /** A clock that does not run backwards, and random session ids that are not drawn twice. */
  ghost predicate WellFormed(events: seq<Event>, now: int) {
    && (forall i, j :: 0 <= i < j < |events| ==> events[i].time <= events[j].time)
    && (forall i :: 0 <= i < |events| ==> events[i].time <= now)
    && (forall i, j :: 0 <= i < j < |events| && events[i].Login? && events[j].Login? ==> events[i].key != events[j].key)
  }

  // ---------- Redis ----------

  /** The time at which each key expires. */
  type Keys = map<SessionKey, int>

  predicate Exists(keys: Keys, key: SessionKey, now: int) {
    key in keys && now < keys[key]
  }

  function Apply(keys: Keys, e: Event): Keys {
    match e
    case Login(now, key, minutes) =>
      if minutes <= 0 then keys else keys[key := now + minutes * 60]  // Redis refuses a SET without a positive expiry
    case Touch(now, key, minutes) =>
      if Exists(keys, key, now) then keys[key := now + minutes * 60] else keys
    case Logout(now, key) => keys - {key}
    case LogoutAll(now, user) => map k | k in keys && !(k.user == user && Exists(keys, k, now)) :: keys[k]
    case Refresh(_, _) => keys
  }

  function Run(events: seq<Event>): Keys {
    if events == [] then map[] else Apply(Run(events[..|events| - 1]), events[|events| - 1])
  }

  // ---------- One more event ----------

  lemma MarkBefore(events: seq<Event>, key: SessionKey, i: int)
    requires events != []
    ensures i != |events| - 1 ==> (Mark(events, key, i) <==> Mark(events[..|events| - 1], key, i))
  {}

  lemma LiveAfterLogin(events: seq<Event>, key: SessionKey, now: int)
    requires events != [] && WellFormed(events, now)
    requires events[|events| - 1].Login? && events[|events| - 1].key == key
    ensures Live(events, key, now) <==> now - events[|events| - 1].time < events[|events| - 1].minutes * 60
  {
    var n := |events| - 1;
    if Live(events, key, now) {
      assert Latest(events, key, n);
      var c :| LiveSince(events, key, now, c);
      assert c <= n && StillOpen(events, key, now, n);
    }
    if now - events[n].time < events[n].minutes * 60 {
      assert LiveSince(events, key, now, n);
    }
  }

  /** Without the last event: the pairs that end before it, and the latest touch, which the last event may follow. */
  lemma PairsBefore(events: seq<Event>, key: SessionKey, i: int, j: int)
    requires events != []
    ensures j < |events| - 1 ==> (Next(events, key, i, j) <==> Next(events[..|events| - 1], key, i, j))
    ensures Mark(events, key, |events| - 1) ==>
      (Next(events, key, i, |events| - 1) <==> Latest(events[..|events| - 1], key, i))
    ensures !Mark(events, key, |events| - 1) ==> (Latest(events, key, i) <==> Latest(events[..|events| - 1], key, i))
    ensures !Mark(events, key, |events| - 1) ==> !Next(events, key, i, |events| - 1)
  {
    var before := events[..|events| - 1];
    forall k ensures k != |events| - 1 ==> (Mark(events, key, k) <==> Mark(before, key, k)) { MarkBefore(events, key, k); }
  }

  lemma SinceAfterTouch(events: seq<Event>, key: SessionKey, now: int, c: int)
    requires events != [] && c < |events| - 1
    requires events[|events| - 1].Touch? && events[|events| - 1].key == key
    ensures var e := events[|events| - 1];
      LiveSince(events, key, now, c) <==>
        LiveSince(events[..|events| - 1], key, e.time, c) && now - e.time < e.minutes * 60
  {
    var n := |events| - 1;
    var before := events[..n];
    var e := events[n];
    forall i, j ensures ShortGap(events, key, i, j) <==>
        if j == n then StillOpen(before, key, e.time, i) else ShortGap(before, key, i, j)
    {
      PairsBefore(events, key, i, j);
    }
    LatestIsLast(events, key);
    forall i ensures StillOpen(events, key, now, i) <==> (i == n ==> now - e.time < e.minutes * 60) {
      if Latest(events, key, i) { LatestIsUnique(events, key, i, n); }
    }
    MarkBefore(events, key, c);
    hide ShortGap, StillOpen;
    SameSince(events, key, now, c, e.time);
  }

  /** Put together from the facts about the last event. */
  lemma SameSince(events: seq<Event>, key: SessionKey, now: int, c: int, earlier: int)
    requires events != [] && c < |events| - 1 && !Invalidates(events[|events| - 1], key)
    requires Mark(events, key, c) <==> Mark(events[..|events| - 1], key, c)
    requires forall i, j :: ShortGap(events, key, i, j) <==>
      if j == |events| - 1 then StillOpen(events[..|events| - 1], key, earlier, i)
      else ShortGap(events[..|events| - 1], key, i, j)
    requires forall i :: StillOpen(events, key, now, i) <==>
      (i == |events| - 1 ==> StillOpen(events, key, now, |events| - 1))
    ensures LiveSince(events, key, now, c) <==>
      LiveSince(events[..|events| - 1], key, earlier, c) && StillOpen(events, key, now, |events| - 1)
  {
    hide ShortGap, StillOpen;
    var n := |events| - 1;
    var before := events[..n];
    if LiveSince(events, key, now, c) {
      forall i | c <= i ensures StillOpen(before, key, earlier, i) { assert ShortGap(events, key, i, n); }
      forall i, j | c <= i ensures ShortGap(before, key, i, j) {
        assert ShortGap(events, key, i, j);
        NoGapBeyond(before, key, i, n);
      }
    }
    if LiveSince(before, key, earlier, c) && StillOpen(events, key, now, n) {
      forall i, j | c <= i ensures ShortGap(events, key, i, j) {
        assert ShortGap(before, key, i, j) && StillOpen(before, key, earlier, i);
      }
    }
  }

  lemma NoGapBeyond(events: seq<Event>, key: SessionKey, i: int, j: int)
    requires j >= |events|
    ensures ShortGap(events, key, i, j)
  {}

  lemma LatestIsLast(events: seq<Event>, key: SessionKey)
    requires events != [] && (events[|events| - 1].Login? || events[|events| - 1].Touch?) && events[|events| - 1].key == key
    ensures Latest(events, key, |events| - 1) && Mark(events, key, |events| - 1)
  {}

  lemma LatestIsUnique(events: seq<Event>, key: SessionKey, i: int, j: int)
    requires Latest(events, key, i) && Latest(events, key, j)
    ensures i == j
  {}

  lemma LiveAfterTouch(events: seq<Event>, key: SessionKey, now: int)
    requires events != [] && events[|events| - 1].Touch? && events[|events| - 1].key == key
    ensures var e := events[|events| - 1];
      Live(events, key, now) <==> Live(events[..|events| - 1], key, e.time) && now - e.time < e.minutes * 60
  {
    var n := |events| - 1;
    forall c | c < n
      ensures LiveSince(events, key, now, c) <==>
        LiveSince(events[..n], key, events[n].time, c) && now - events[n].time < events[n].minutes * 60
    {
      SinceAfterTouch(events, key, now, c);
    }
    hide LiveSince;
    if Live(events, key, now) {
      var c :| LiveSince(events, key, now, c);
      SinceALogin(events, key, now, c);
    }
    if Live(events[..n], key, events[n].time) && now - events[n].time < events[n].minutes * 60 {
      var c :| LiveSince(events[..n], key, events[n].time, c);
      SinceALogin(events[..n], key, events[n].time, c);
    }
  }

  lemma SinceALogin(events: seq<Event>, key: SessionKey, now: int, c: int)
    requires LiveSince(events, key, now, c)
    ensures 0 <= c < |events| && events[c].Login? && events[c].key == key
  {}

  lemma LiveAfterInvalidation(events: seq<Event>, key: SessionKey, now: int)
    requires events != [] && Invalidates(events[|events| - 1], key)
    ensures !Live(events, key, now)
  {}

  lemma SinceAfterOther(events: seq<Event>, key: SessionKey, now: int, c: int)
    requires events != [] && !Mark(events, key, |events| - 1) && !Invalidates(events[|events| - 1], key)
    ensures LiveSince(events, key, now, c) <==> LiveSince(events[..|events| - 1], key, now, c)
  {
    var n := |events| - 1;
    var before := events[..n];
    forall i, j ensures ShortGap(events, key, i, j) <==> ShortGap(before, key, i, j) {
      PairsBefore(events, key, i, j);
      PairsBefore(events, key, i, n);
    }
    forall i ensures StillOpen(events, key, now, i) <==> StillOpen(before, key, now, i) {
      PairsBefore(events, key, i, n);
    }
    MarkBefore(events, key, c);
    hide ShortGap, StillOpen;
  }

  lemma LiveAfterOther(events: seq<Event>, key: SessionKey, now: int)
    requires events != [] && !Mark(events, key, |events| - 1) && !Invalidates(events[|events| - 1], key)
    ensures Live(events, key, now) <==> Live(events[..|events| - 1], key, now)
  {
    var before := events[..|events| - 1];
    forall c ensures LiveSince(events, key, now, c) <==> LiveSince(events[..|events| - 1], key, now, c) {
      SinceAfterOther(events, key, now, c);
    }
    hide LiveSince;
    if Live(events, key, now) {
      var c :| LiveSince(events, key, now, c);
      assert LiveSince(before, key, now, c);
    }
    if Live(before, key, now) {
      var c :| LiveSince(before, key, now, c);
      assert LiveSince(events, key, now, c);
    }
  }

  // ---------- Redis agrees with the history ----------

  /** A session key exists exactly while the session is live. */
  lemma {:induction false} ExistsIffLive(events: seq<Event>, key: SessionKey, now: int)
    requires WellFormed(events, now)
    ensures Exists(Run(events), key, now) <==> Live(events, key, now)
    decreases |events|
  {
    hide Live;
    if events == [] {
      assert !Live(events, key, now) by { NothingLives(key, now); }
    } else {
      var n := |events| - 1;
      var before := events[..n];
      assert WellFormed(before, events[n].time) && WellFormed(before, now);
      if Invalidates(events[n], key) {
        LiveAfterInvalidation(events, key, now);
      } else if !Mark(events, key, n) {
        LiveAfterOther(events, key, now);
        ExistsIffLive(before, key, now);
      } else if events[n].Login? {
        LiveAfterLogin(events, key, now);
        ExistsIffLive(before, key, now);
        NotLiveBeforeLogin(before, key, now, events);
      } else {
        LiveAfterTouch(events, key, now);
        ExistsIffLive(before, key, events[n].time);
      }
    }
  }

  lemma NothingLives(key: SessionKey, now: int)
    ensures !Live([], key, now)
  {}

  lemma NotLiveBeforeLogin(before: seq<Event>, key: SessionKey, now: int, events: seq<Event>)
    requires events != [] && before == events[..|events| - 1] && WellFormed(events, now)
    requires events[|events| - 1].Login? && events[|events| - 1].key == key
    ensures !Live(before, key, now)
  {
    assert forall c :: 0 <= c < |before| ==> before[c] == events[c];
  }

  /** A session that was live later on was live all along since its login. */
  lemma {:induction false} LiveEarlier(events: seq<Event>, key: SessionKey, now: int, n: nat, earlier: int)
    requires WellFormed(events, now) && n <= |events|
    requires forall i :: 0 <= i < n ==> events[i].time <= earlier
    requires forall i :: n <= i < |events| ==> earlier <= events[i].time
    requires earlier <= now
    requires Live(events, key, now)
    requires exists c :: 0 <= c < n && events[c].Login? && events[c].key == key
    ensures Live(events[..n], key, earlier)
    decreases |events|
  {
    hide Live, LiveSince;
    if n == |events| {
      assert events[..n] == events;
      LiveAtEarlierTime(events, key, now, earlier);
    } else {
      var m := |events| - 1;
      var before := events[..m];
      assert WellFormed(before, events[m].time) && WellFormed(before, now);
      assert events[..n] == before[..n];
      var c :| 0 <= c < n && events[c].Login? && events[c].key == key;
      assert before[c] == events[c];
      if Invalidates(events[m], key) {
        LiveAfterInvalidation(events, key, now);
      } else if !Mark(events, key, m) {
        LiveAfterOther(events, key, now);
        LiveEarlier(before, key, now, n, earlier);
      } else {
        assert events[m].Touch?;
        LiveAfterTouch(events, key, now);
        LiveEarlier(before, key, events[m].time, n, earlier);
      }
    }
  }

  lemma LiveAtEarlierTime(events: seq<Event>, key: SessionKey, now: int, earlier: int)
    requires Live(events, key, now) && earlier <= now
    ensures Live(events, key, earlier)
  {
    var c :| LiveSince(events, key, now, c);
    forall i | c <= i ensures StillOpen(events, key, earlier, i) { assert StillOpen(events, key, now, i); }
    assert LiveSince(events, key, earlier, c);
  }

  /** Once a session has died, by time or by invalidation, no later event brings it back. */
  lemma DeadStaysDead(events: seq<Event>, more: seq<Event>, key: SessionKey, earlier: int, now: int)
    requires WellFormed(events, earlier) && WellFormed(events + more, now) && earlier <= now
    requires forall i :: 0 <= i < |more| ==> earlier <= more[i].time
    requires exists c :: 0 <= c < |events| && events[c].Login? && events[c].key == key
    requires !Live(events, key, earlier)
    ensures !Live(events + more, key, now) && !Exists(Run(events + more), key, now)
  {
    hide Live;
    var all := events + more;
    ExistsIffLive(all, key, now);
    if Live(all, key, now) {
      var c :| 0 <= c < |events| && events[c].Login? && events[c].key == key;
      assert all[c] == events[c];
      assert forall i :: |events| <= i < |all| ==> all[i] == more[i - |events|];
      assert all[..|events|] == events;
      LiveEarlier(all, key, now, |events|, earlier);
    }
  }

  // ---------- Tokens ----------

  datatype TokenType = Access | RefreshToken

  /** The claims of a signed token. Only issued tokens pass the signature check. */
  datatype Token = Token(tokenType: TokenType, key: SessionKey, expires: int)

  const REFRESH_TOKEN_SECONDS := 7 * 24 * 3600

  /** The tokens issued so far; `accessSeconds` is the configured lifetime of access tokens. */
  function Issued(events: seq<Event>, accessSeconds: int): set<Token> {
    if events == [] then {}
    else
      var before := Issued(events[..|events| - 1], accessSeconds);
      match events[|events| - 1]
      case Login(now, key, minutes) =>
        if minutes <= 0 then before
        else before + {Token(Access, key, now + accessSeconds), Token(RefreshToken, key, now + REFRESH_TOKEN_SECONDS)}
      case Refresh(now, token) =>
        if token in before && token.tokenType.RefreshToken? && now <= token.expires
        then before + {Token(Access, token.key, now + accessSeconds)}
        else before
      case _ => before
  }

  /** What `_load_user_from_token` accepts, for an active user. */
  predicate Accepts(events: seq<Event>, accessSeconds: int, token: Token, now: int) {
    && token in Issued(events, accessSeconds) && token.tokenType.Access? && now <= token.expires
    && Exists(Run(events), token.key, now)
  }

  lemma {:induction false} TokensComeFromLogins(events: seq<Event>, accessSeconds: int, token: Token)
    requires token in Issued(events, accessSeconds)
    ensures exists c :: 0 <= c < |events| && events[c].Login? && events[c].key == token.key
    decreases |events|
  {
    var n := |events| - 1;
    var before := Issued(events[..n], accessSeconds);
    if token in before {
      TokensComeFromLogins(events[..n], accessSeconds, token);
      var c :| 0 <= c < n && events[..n][c].Login? && events[..n][c].key == token.key;
      assert events[c].Login?;
    } else if events[n].Refresh? {
      TokensComeFromLogins(events[..n], accessSeconds, events[n].token);
      var c :| 0 <= c < n && events[..n][c].Login? && events[..n][c].key == token.key;
      assert events[c].Login?;
    }
  }

  // ---------- Where tokens come from ----------

  /** Event `i` is a login of the session. A login without a positive timeout creates none. */
  predicate LogsIn(events: seq<Event>, i: int, key: SessionKey) {
    0 <= i < |events| && events[i].Login? && events[i].key == key && events[i].minutes > 0
  }

  /** The token can be refreshed at the time `now`, after the first `n` events: it is a refresh token that a login issued,
      and has not expired. */
  ghost predicate CanRefresh(events: seq<Event>, n: int, token: Token, now: int) {
    && token.tokenType.RefreshToken? && now <= token.expires
    && exists j :: j < n && LogsIn(events, j, token.key) && token.expires == events[j].time + REFRESH_TOKEN_SECONDS
  }

  ghost predicate Refreshes(events: seq<Event>, i: int, key: SessionKey) {
    0 <= i < |events| && events[i].Refresh? && events[i].token.key == key
    && CanRefresh(events, i, events[i].token, events[i].time)
  }

  /** An access token of the session was issued at the time at which it was, by a login or a refresh. */
  ghost predicate Grants(events: seq<Event>, key: SessionKey, at: int) {
    exists i :: (LogsIn(events, i, key) || Refreshes(events, i, key)) && events[i].time == at
  }

  lemma LogsInBefore(events: seq<Event>, i: int, key: SessionKey)
    requires events != []
    ensures i < |events| - 1 ==> (LogsIn(events, i, key) <==> LogsIn(events[..|events| - 1], i, key))
  {}

  lemma CanRefreshBefore(events: seq<Event>, n: int, token: Token, now: int)
    requires events != [] && n <= |events| - 1
    ensures CanRefresh(events, n, token, now) <==> CanRefresh(events[..|events| - 1], n, token, now)
  {
    var front := events[..|events| - 1];
    if CanRefresh(events, n, token, now) {
      var j :| j < n && LogsIn(events, j, token.key) && token.expires == events[j].time + REFRESH_TOKEN_SECONDS;
      assert LogsIn(front, j, token.key);
    }
    if CanRefresh(front, n, token, now) {
      var j :| j < n && LogsIn(front, j, token.key) && token.expires == front[j].time + REFRESH_TOKEN_SECONDS;
      assert LogsIn(events, j, token.key);
    }
  }

  lemma GrantsBefore(events: seq<Event>, key: SessionKey, at: int)
    requires events != []
    ensures var n := |events| - 1;
      Grants(events, key, at) <==>
        Grants(events[..n], key, at) || ((LogsIn(events, n, key) || Refreshes(events, n, key)) && events[n].time == at)
  {
    hide CanRefresh;
    var n := |events| - 1;
    var front := events[..n];
    if Grants(events, key, at) {
      var i :| (LogsIn(events, i, key) || Refreshes(events, i, key)) && events[i].time == at;
      if i < n {
        CanRefreshBefore(events, i, if events[i].Refresh? then events[i].token else Token(Access, key, 0), events[i].time);
        assert front[i] == events[i];
        assert LogsIn(front, i, key) || Refreshes(front, i, key);
      }
    }
    if Grants(front, key, at) {
      var i :| (LogsIn(front, i, key) || Refreshes(front, i, key)) && front[i].time == at;
      CanRefreshBefore(events, i, if events[i].Refresh? then events[i].token else Token(Access, key, 0), events[i].time);
      assert front[i] == events[i];
      assert LogsIn(events, i, key) || Refreshes(events, i, key);
    }
  }

  /** Which tokens were issued can be read off the events. */
  lemma {:induction false} IssuedIff(events: seq<Event>, accessSeconds: int, token: Token)
    ensures token.tokenType.Access? ==>
      (token in Issued(events, accessSeconds) <==> Grants(events, token.key, token.expires - accessSeconds))
    ensures token.tokenType.RefreshToken? ==>
      (token in Issued(events, accessSeconds) <==> CanRefresh(events, |events|, token, token.expires))
    decreases |events|
  {
    hide CanRefresh, Grants, LogsIn;
    if events == [] {
      NothingIssued(token);
    } else {
      var n := |events| - 1;
      IssuedIff(events[..n], accessSeconds, token);
      if events[n].Refresh? {
        IssuedIff(events[..n], accessSeconds, events[n].token);
        CanRefreshBefore(events, n, events[n].token, events[n].time);
        CanRefreshLater(events[..n], n, events[n].token, events[n].time);
      }
      GrantsBefore(events, token.key, token.expires - accessSeconds);
      CanRefreshMore(events, token);
      LoginIs(events, n, token.key);
    }
  }

  lemma NothingIssued(token: Token)
    ensures !Grants([], token.key, token.expires) && !CanRefresh([], 0, token, token.expires)
    ensures forall at :: !Grants([], token.key, at)
  {}

  lemma LoginIs(events: seq<Event>, i: int, key: SessionKey)
    requires 0 <= i < |events|
    ensures LogsIn(events, i, key) <==> events[i].Login? && events[i].key == key && events[i].minutes > 0
  {}

  /** Whether it can be refreshed at all does not depend on the time but for the expiry. */
  lemma CanRefreshLater(events: seq<Event>, n: int, token: Token, now: int)
    ensures CanRefresh(events, n, token, now) <==> now <= token.expires && CanRefresh(events, n, token, token.expires)
    ensures CanRefresh(events, n, token, now) ==> token.tokenType.RefreshToken?
  {}

  lemma CanRefreshMore(events: seq<Event>, token: Token)
    requires events != []
    ensures var n := |events| - 1;
      CanRefresh(events, |events|, token, token.expires) <==>
        CanRefresh(events[..n], n, token, token.expires)
        || (token.tokenType.RefreshToken? && LogsIn(events, n, token.key)
            && token.expires == events[n].time + REFRESH_TOKEN_SECONDS)
  {
    var n := |events| - 1;
    CanRefreshBefore(events, n, token, token.expires);
    hide LogsIn;
    if CanRefresh(events, n, token, token.expires) {
      var j :| j < n && LogsIn(events, j, token.key) && token.expires == events[j].time + REFRESH_TOKEN_SECONDS;
      assert j < |events|;
    }
  }

  /** A token authenticates a request exactly if it is an access token that a login or a refresh of its session issued, the
      request comes before it expires, and the session is live. */
  ghost predicate Authentic(events: seq<Event>, accessSeconds: int, token: Token, now: int) {
    && token.tokenType.Access? && now <= token.expires
    && Grants(events, token.key, token.expires - accessSeconds) && Live(events, token.key, now)
  }

  lemma AcceptedIffAuthentic(events: seq<Event>, accessSeconds: int, token: Token, now: int)
    requires WellFormed(events, now)
    ensures Accepts(events, accessSeconds, token, now) <==> Authentic(events, accessSeconds, token, now)
  {
    hide Grants, Live, Issued, Run;
    IssuedIff(events, accessSeconds, token);
    ExistsIffLive(events, token.key, now);
  }

  /** Whatever happens after a session has died, refreshes included, no token for it is accepted again. */
  lemma NoTokenRevives(events: seq<Event>, more: seq<Event>, accessSeconds: int, dead: Token, token: Token, earlier: int, now: int)
    requires WellFormed(events, earlier) && WellFormed(events + more, now) && earlier <= now
    requires forall i :: 0 <= i < |more| ==> earlier <= more[i].time
    requires dead in Issued(events, accessSeconds) && !Live(events, dead.key, earlier)
    requires token.key == dead.key
    ensures !Accepts(events + more, accessSeconds, token, now)
  {
    TokensComeFromLogins(events, accessSeconds, dead);
    DeadStaysDead(events, more, dead.key, earlier, now);
  }

  // ---------- The store ----------

  /** The session keys in Redis, and the tokens that carry a valid signature: those that were issued. */
  class SessionStore {
    var keys: Keys
    var signed: set<Token>
    const accessSeconds: int

    constructor (accessSeconds: int)
      ensures this.accessSeconds == accessSeconds && Holds([])
    {
      keys, signed := map[], {};
      this.accessSeconds := accessSeconds;
    }

    /** The state after the events. */
    ghost predicate Holds(events: seq<Event>)
      reads this
    {
      keys == Run(events) && signed == Issued(events, accessSeconds)
    }

    method CreateSession(now: int, key: SessionKey, minutes: int) returns (r: Result<SessionKey>)
      modifies this`keys
      ensures keys == Apply(old(keys), Login(now, key, minutes))
      ensures r == if minutes > 0 then Ok(key) else Err(Constraint)
    {
      var ttl := minutes * 60;
      if ttl <= 0 {
        return Err(Constraint);
      }
      keys := keys[key := now + ttl];
      return Ok(key);
    }

    method IsSessionActive(now: int, key: SessionKey) returns (active: bool)
      ensures active == Exists(keys, key, now)
    {
      active := key in keys && now < keys[key];
    }

    method TouchSession(now: int, key: SessionKey, minutes: int) returns (renewed: bool)
      modifies this`keys
      ensures keys == Apply(old(keys), Touch(now, key, minutes))
      ensures renewed == Exists(old(keys), key, now)
    {
      renewed := IsSessionActive(now, key);
      if renewed {
        keys := keys[key := now + minutes * 60];
      }
    }

    method InvalidateSession(now: int, key: SessionKey)
      modifies this`keys
      ensures keys == Apply(old(keys), Logout(now, key))
    {
      keys := keys - {key};
    }

    /** Scans the keys of the user and deletes them one at a time. */
    method InvalidateAllSessions(now: int, user: Uuid) returns (deleted: nat)
      modifies this`keys
      ensures keys == Apply(old(keys), LogoutAll(now, user))
      ensures deleted == |set k | k in old(keys) && k.user == user && Exists(old(keys), k, now)|
    {
      var scan := set k | k in keys && k.user == user && Exists(keys, k, now);
      ghost var matching := scan;
      deleted := 0;
      while scan != {}
        invariant scan <= matching && deleted + |scan| == |matching|
        invariant keys == map k | k in old(keys) && (k !in matching || k in scan) :: old(keys)[k]
        decreases |scan|
      {
        var k :| k in scan;
        keys := keys - {k};
        scan := scan - {k};
        deleted := deleted + 1;
      }
    }

    /** Creates the session, and issues a token of each type for it. */
    method LogIn(now: int, key: SessionKey, minutes: int, ghost events: seq<Event>) returns (r: Result<(Token, Token)>)
      requires Holds(events)
      modifies this
      ensures Holds(events + [Login(now, key, minutes)])
      ensures r == if minutes > 0
                   then Ok((Token(Access, key, now + accessSeconds), Token(RefreshToken, key, now + 7 * 24 * 3600)))
                   else Err(Constraint)
    {
      ghost var all := events + [Login(now, key, minutes)];
      assert all[..|all| - 1] == events;
      var session := CreateSession(now, key, minutes);
      if session.Err? {
        return Err(session.error);
      }
      var access := Token(Access, key, now + accessSeconds);
      var refresh := Token(RefreshToken, key, now + REFRESH_TOKEN_SECONDS);
      signed := signed + {access, refresh};
      return Ok((access, refresh));
    }

    /** Exchanges a token for a new access token, exactly if it is a refresh token that a login issued and has not expired,
        whether its session is live or not. */
    method RefreshAccess(now: int, token: Token, ghost events: seq<Event>) returns (r: Result<Token>)
      requires Holds(events)
      modifies this`signed
      ensures Holds(events + [Refresh(now, token)])
      ensures r.Ok? <==> CanRefresh(events, |events|, token, now)
      ensures r.Ok? ==> r.value == Token(Access, token.key, now + accessSeconds)
    {
      ghost var all := events + [Refresh(now, token)];
      assert all[..|all| - 1] == events;
      IssuedIff(events, accessSeconds, token);
      CanRefreshLater(events, |events|, token, now);
      if token !in signed || now > token.expires {
        return Err(Forbidden);
      }
      if !token.tokenType.RefreshToken? {
        return Err(Forbidden);
      }
      var access := Token(Access, token.key, now + accessSeconds);
      signed := signed + {access};
      return Ok(access);
    }

    /** Decodes the token, checks its type and its session, and then touches the session. */
    method Authenticate(now: int, token: Token, minutes: int, ghost events: seq<Event>) returns (accepted: bool)
      requires Holds(events) && WellFormed(events, now)
      modifies this`keys
      ensures accepted <==> Authentic(events, accessSeconds, token, now)
      ensures Holds(if accepted then events + [Touch(now, token.key, minutes)] else events)
    {
      AcceptedIffAuthentic(events, accessSeconds, token, now);
      ghost var all := events + [Touch(now, token.key, minutes)];
      assert all[..|all| - 1] == events;
      if token !in signed || now > token.expires {
        return false;
      }
      if !token.tokenType.Access? {
        return false;
      }
      accepted := IsSessionActive(now, token.key);
      if !accepted {
        return false;
      }
      var _ := TouchSession(now, token.key, minutes);
    }
  }
}
