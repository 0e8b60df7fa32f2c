/**
 Who is viewing a case. Opening a case page and every ping touch the presence, closing a page removes it. Redis keeps
 one sorted set per case (user to time of the last touch), and an expiry time on the whole key. The answer is compared
 with the plain history of touches and removals.
 Times are seconds of one non-decreasing, non-negative clock.
 */
module Presence {
  import opened Wrappers

  const PRESENCE_TTL_SECONDS: real := 30.0

  /** A sorted set with the time at which Redis drops it. */
  datatype Key = Key(scores: map<Uuid, real>, expires: real)

  type Keys = map<Uuid, Key>

  /** A look-up first trims the stale members, and then reads the others. */
  datatype Event =
    | Touch(time: real, caseId: Uuid, user: Uuid)
    | Remove(time: real, caseId: Uuid, user: Uuid)
    | Trim(time: real, caseId: Uuid)

  // ---------- The history ----------

  predicate IsOpOn(e: Event, caseId: Uuid, user: Uuid) {
    !e.Trim? && e.caseId == caseId && e.user == user
  }

  /** The last operation on (case, user) is a touch less than 30 seconds ago. */
  ghost predicate Viewing(events: seq<Event>, caseId: Uuid, user: Uuid, now: real) {
    exists i :: LastTouch(events, caseId, user, i) && now - events[i].time < 30.0
  }

  ghost predicate LastTouch(events: seq<Event>, caseId: Uuid, user: Uuid, i: int) {
    && 0 <= i < |events| && events[i].Touch? && IsOpOn(events[i], caseId, user)
    && forall j :: i < j < |events| ==> !IsOpOn(events[j], caseId, user)
  }

  ghost predicate Clocked(events: seq<Event>, now: real) {
    && (forall i :: 0 <= i < |events| ==> 0.0 <= events[i].time <= now)
    && (forall i, j :: 0 <= i < j < |events| ==> events[i].time <= events[j].time)
  }

  // ---------- Redis ----------

  /** What Redis holds for the case at time `now`: nothing once the key has expired. */
  function Scores(keys: Keys, caseId: Uuid, now: real): map<Uuid, real> {
    if caseId in keys && now < keys[caseId].expires then keys[caseId].scores else map[]
  }

  function AfterTouch(keys: Keys, now: real, caseId: Uuid, user: Uuid): Keys {
    keys[caseId := Key(Scores(keys, caseId, now)[user := now], now + PRESENCE_TTL_SECONDS * 4.0)]
  }

  /** Redis drops a sorted set when its last member goes. */
  function WithScores(keys: Keys, caseId: Uuid, scores: map<Uuid, real>): Keys {
    if caseId !in keys || scores == map[] then keys - {caseId}
    else keys[caseId := Key(scores, keys[caseId].expires)]
  }

  function Fresh(scores: map<Uuid, real>, cutoff: real): map<Uuid, real> {
    map u: Uuid | u in scores && !(0.0 <= scores[u] <= cutoff) :: scores[u]
  }

  function Apply(keys: Keys, e: Event): Keys {
    match e
    case Touch(now, caseId, user) => AfterTouch(keys, now, caseId, user)
    case Remove(now, caseId, user) => WithScores(keys, caseId, Scores(keys, caseId, now) - {user})
    case Trim(now, caseId) =>
      WithScores(keys, caseId, Fresh(Scores(keys, caseId, now), now - PRESENCE_TTL_SECONDS))
  }

  function Run(events: seq<Event>): Keys {
    if events == [] then map[] else Apply(Run(events[..|events| - 1]), events[|events| - 1])
  }

  // ---------- Redis agrees with the history ----------

  /** Every stored score is the time of a last touch, and a recent last touch is stored under a key that lives. */
  ghost predicate Agrees(keys: Keys, events: seq<Event>, caseId: Uuid, user: Uuid, now: real) {
    var scores := Scores(keys, caseId, now);
    && (user in scores ==> exists i :: LastTouch(events, caseId, user, i) && events[i].time == scores[user])
    && (Viewing(events, caseId, user, now) ==> user in scores)
  }

  /** A key lives at least 120 seconds past every last touch of its case. */
  ghost predicate LongLived(keys: Keys, events: seq<Event>) {
    forall i, c: Uuid, u: Uuid :: LastTouch(events, c, u, i) && c in keys ==>
      events[i].time + PRESENCE_TTL_SECONDS * 4.0 <= keys[c].expires
  }

  lemma LastTouchBefore(events: seq<Event>, caseId: Uuid, user: Uuid, i: int)
    requires events != []
    ensures var last := events[|events| - 1];
      LastTouch(events, caseId, user, i) <==>
        if IsOpOn(last, caseId, user) then last.Touch? && i == |events| - 1
        else LastTouch(events[..|events| - 1], caseId, user, i)
  {
    var n := |events| - 1;
    assert forall j :: 0 <= j < n ==> events[..n][j] == events[j];
    if LastTouch(events, caseId, user, i) && IsOpOn(events[n], caseId, user) {
      assert i == n;
    }
  }

  lemma ClockedBefore(events: seq<Event>, now: real)
    requires events != [] && Clocked(events, now)
    ensures Clocked(events[..|events| - 1], events[|events| - 1].time) && events[|events| - 1].time <= now
  {}

  /** The keys that were written are those of the history. */
  lemma {:induction false} RunIsLongLived(events: seq<Event>, now: real)
    requires Clocked(events, now)
    ensures LongLived(Run(events), events)
    decreases |events|
  {
    if events != [] {
      var n := |events| - 1;
      var before := Run(events[..n]);
      ClockedBefore(events, now);
      RunIsLongLived(events[..n], events[n].time);
      var keys := Run(events);
      forall i, c: Uuid, u: Uuid | LastTouch(events, c, u, i) && c in keys
        ensures events[i].time + PRESENCE_TTL_SECONDS * 4.0 <= keys[c].expires
      {
        LastTouchBefore(events, c, u, i);
        if i < n {
          assert events[..n][i] == events[i];
          if c in before { assert LastTouch(events[..n], c, u, i); }
        }
      }
    }
  }

  lemma {:induction false} RunAgrees(events: seq<Event>, caseId: Uuid, user: Uuid, now: real)
    requires Clocked(events, now)
    ensures Agrees(Run(events), events, caseId, user, now)
    decreases |events|
  {
    if events != [] {
      var n := |events| - 1;
      var e := events[n];
      ClockedBefore(events, now);
      RunAgrees(events[..n], caseId, user, e.time);
      RunIsLongLived(events[..n], e.time);
      RunIsLongLived(events, now);
      StepAgrees(Run(events[..n]), events, caseId, user, now);
    }
  }

  lemma StepAgrees(before: Keys, events: seq<Event>, caseId: Uuid, user: Uuid, now: real)
    requires events != [] && Clocked(events, now)
    requires Agrees(before, events[..|events| - 1], caseId, user, events[|events| - 1].time)
    requires LongLived(before, events[..|events| - 1])
    requires LongLived(Apply(before, events[|events| - 1]), events)
    ensures Agrees(Apply(before, events[|events| - 1]), events, caseId, user, now)
  {
    var n := |events| - 1;
    var e := events[n];
    var keys := Apply(before, e);
    var stored, kept := Scores(before, caseId, e.time), Scores(keys, caseId, now);
    forall i ensures LastTouch(events, caseId, user, i) <==>
        if IsOpOn(e, caseId, user) then e.Touch? && i == n else LastTouch(events[..n], caseId, user, i)
    {
      LastTouchBefore(events, caseId, user, i);
    }
    if user in kept {
      if IsOpOn(e, caseId, user) {
        assert LastTouch(events, caseId, user, n);
      } else {
        assert user in stored && stored[user] == kept[user];
        var i :| LastTouch(events[..n], caseId, user, i) && events[..n][i].time == stored[user];
        assert LastTouch(events, caseId, user, i);
      }
    }
    if Viewing(events, caseId, user, now) {
      var i :| LastTouch(events, caseId, user, i) && now - events[i].time < PRESENCE_TTL_SECONDS;
      if i < n {
        assert events[..n][i] == events[i] && LastTouch(events[..n], caseId, user, i);
        assert Viewing(events[..n], caseId, user, e.time);
        var k :| LastTouch(events[..n], caseId, user, k) && events[..n][k].time == stored[user];
        assert k == i;
      }
      assert caseId in keys;
    }
  }

  // ---------- The service ----------

  class PresenceTracker {
    var keys: Keys

    method TouchPresence(now: real, caseId: Uuid, user: Uuid)
      modifies this
      ensures keys == Apply(old(keys), Touch(now, caseId, user))
    {
      // ZADD, then EXPIRE on the whole key
      var scores := Scores(keys, caseId, now);
      scores := scores[user := now];
      keys := keys[caseId := Key(scores, now + PRESENCE_TTL_SECONDS * 4.0)];
    }

    method RemovePresence(now: real, caseId: Uuid, user: Uuid)
      modifies this
      ensures keys == Apply(old(keys), Remove(now, caseId, user))
    {
      var scores := Scores(keys, caseId, now);
      keys := WithScores(keys, caseId, scores - {user});
    }

    /** ZREMRANGEBYSCORE */
    method TrimStale(now: real, caseId: Uuid)
      modifies this
      ensures keys == Apply(old(keys), Trim(now, caseId))
    {
      var scores := Scores(keys, caseId, now);
      keys := WithScores(keys, caseId, Fresh(scores, now - PRESENCE_TTL_SECONDS));
    }

    /** ZRANGE */
    method Members(now: real, caseId: Uuid) returns (users: set<Uuid>)
      ensures users == Scores(keys, caseId, now).Keys
    {
      users := if caseId in keys && now < keys[caseId].expires then keys[caseId].scores.Keys else {};
    }

    /** With any history of operations behind it, the answer is read off that history. */
    method GetActiveViewers(now: real, caseId: Uuid, ghost events: seq<Event>) returns (viewers: set<Uuid>)
      requires keys == Run(events) && Clocked(events, now) && 0.0 <= now
      modifies this
      ensures keys == Run(events + [Trim(now, caseId)])
      ensures forall u: Uuid :: u in viewers <==> Viewing(events, caseId, u, now)
    {
      assert (events + [Trim(now, caseId)])[..|events|] == events;
      TrimStale(now, caseId);
      viewers := Members(now, caseId);
      forall u: Uuid ensures u in viewers <==> Viewing(events, caseId, u, now) {
        ViewersAreLastTouched(events, caseId, u, now);
      }
    }
  }

  /** The same as a statement about runs: after any history, the stored scores inside the window are the viewers. */
  lemma ViewersAreLastTouched(events: seq<Event>, caseId: Uuid, user: Uuid, now: real)
    requires Clocked(events, now) && 0.0 <= now
    ensures user in Fresh(Scores(Run(events), caseId, now), now - PRESENCE_TTL_SECONDS) <==> Viewing(events, caseId, user, now)
  {
    var stale := Scores(Run(events), caseId, now);
    RunAgrees(events, caseId, user, now);
    if user in stale {
      var i :| LastTouch(events, caseId, user, i) && events[i].time == stale[user];
      forall k | LastTouch(events, caseId, user, k) ensures k == i {}
    }
  }

  /** A look-up with other events between its two commands: whoever it reports was touched last less than 30 seconds before
      it began, and whoever was touched last less than 30 seconds before it ended is reported. */
  lemma InterleavedViewers(events: seq<Event>, between: seq<Event>, caseId: Uuid, user: Uuid, now: real, later: real)
    requires Clocked(events + [Trim(now, caseId)] + between, later)
    ensures var all := events + [Trim(now, caseId)] + between;
      && (user in Scores(Run(all), caseId, later) ==>
            exists i :: LastTouch(all, caseId, user, i) && now - all[i].time < PRESENCE_TTL_SECONDS)
      && (Viewing(all, caseId, user, later) ==> user in Scores(Run(all), caseId, later))
  {
    var all := events + [Trim(now, caseId)] + between;
    RunAgrees(all, caseId, user, later);
    StaysTrimmed(events, between, caseId, now, later);
    if user in Scores(Run(all), caseId, later) {
      var i :| LastTouch(all, caseId, user, i) && all[i].time == Scores(Run(all), caseId, later)[user];
      assert 0.0 <= all[i].time;
    }
  }

  /** No stored score of the case is as old as the cutoff. */
  ghost predicate Trimmed(keys: Keys, caseId: Uuid, cutoff: real) {
    caseId in keys ==> forall u: Uuid :: u in keys[caseId].scores ==> !(0.0 <= keys[caseId].scores[u] <= cutoff)
  }

  lemma {:induction false} StaysTrimmed(events: seq<Event>, between: seq<Event>, caseId: Uuid, now: real, later: real)
    requires Clocked(events + [Trim(now, caseId)] + between, later)
    ensures Trimmed(Run(events + [Trim(now, caseId)] + between), caseId, now - PRESENCE_TTL_SECONDS)
    decreases |between|
  {
    var all := events + [Trim(now, caseId)] + between;
    if between == [] {
      assert all[..|all| - 1] == events && all[|all| - 1] == Trim(now, caseId);
    } else {
      var n := |between| - 1;
      assert all[..|all| - 1] == events + [Trim(now, caseId)] + between[..n] && all[|all| - 1] == between[n];
      ClockedBefore(all, later);
      StaysTrimmed(events, between[..n], caseId, now, between[n].time);
      assert all[|events|] == Trim(now, caseId) && now <= between[n].time;
    }
  }

  /** Two tabs of one user touch a case; when one of them closes, the user is gone although the other is open. */
  lemma ClosingOneTabRemovesTheUser(caseId: Uuid, user: Uuid)
    ensures !Viewing([Touch(0.0, caseId, user), Touch(1.0, caseId, user), Remove(2.0, caseId, user)], caseId, user, 2.0)
  {
    var events := [Touch(0.0, caseId, user), Touch(1.0, caseId, user), Remove(2.0, caseId, user)];
    assert IsOpOn(events[2], caseId, user);
  }
}
