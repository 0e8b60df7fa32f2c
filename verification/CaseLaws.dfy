/**
 What the requests of the case service do, said field by field and row by row: an update sets what was sent and stamps
 what it must, a merge moves the rows of its sources and nothing else, and a request that is refused changes nothing.
 */
module CaseLaws {
  import opened Wrappers
  import opened Validators
  import opened CaseService

  // ---------- What is asked of a request ----------

  /** The outcome that the case has once the update is applied. */
  function OutcomeAfter(c: Case, data: CaseUpdate): Option<Outcome> {
    if data.outcome.Some? then data.outcome.value else c.outcome
  }

  /** The update closes a case that was not closed. */
  predicate ClosesNow(c: Case, data: CaseUpdate) {
    data.status == Some(Some(Closed)) && c.status != Closed
  }

  predicate MayUpdate(db: Db, id: Uuid, data: CaseUpdate) {
    && id in db.cases && data.title != Some(None) && data.status != Some(None)
    && (ClosesNow(db.cases[id], data) ==> OutcomeAfter(db.cases[id], data).Some?)
  }

  predicate MayMerge(db: Db, target: Uuid, sources: seq<Uuid>) {
    && target in db.cases
    && forall c :: c in sources ==> c != target && c in db.cases && db.cases[c].tenant == db.cases[target].tenant
  }

  // ---------- What it does ----------

  predicate OtherCasesStay(db: Db, after: Db, id: Uuid) {
    after.cases.Keys == db.cases.Keys + {id} && forall c :: c in db.cases && c != id ==> after.cases[c] == db.cases[c]
  }

  /** Title, status, outcome and assignee are the ones that were sent, or else the old ones; the stamps are set when the status
      turns to resolved or closed, and only then. */
  predicate Sets(c: Case, d: Case, data: CaseUpdate, now: int) {
    && d.tenant == c.tenant && d.mergedFrom == c.mergedFrom
    && (data.title.Some? ==> Some(d.title) == data.title.value) && (data.title.None? ==> d.title == c.title)
    && (data.status.Some? ==> Some(d.status) == data.status.value) && (data.status.None? ==> d.status == c.status)
    && (data.outcome.Some? ==> d.outcome == data.outcome.value) && (data.outcome.None? ==> d.outcome == c.outcome)
    && (data.assignee.Some? ==> d.assignee == data.assignee.value) && (data.assignee.None? ==> d.assignee == c.assignee)
    && d.resolvedAt == (if d.status == Resolved && c.status != Resolved then Some(now) else c.resolvedAt)
    && d.closedAt == (if d.status == Closed && c.status != Closed then Some(now) else c.closedAt)
  }

  /** The entries that an update adds: one for a new status, then one for a new assignee. */
  predicate Records(id: Uuid, c: Case, d: Case, added: seq<Entry>) {
    var status := Entry(c.tenant, id, StatusChanged(c.status, d.status), true);
    var assignee := Entry(c.tenant, id, AssigneeChanged(c.assignee, d.assignee), true);
    if c.status != d.status && c.assignee != d.assignee then added == [status, assignee]
    else if c.status != d.status then added == [status]
    else if c.assignee != d.assignee then added == [assignee]
    else added == []
  }

  ghost predicate Updates(db: Db, after: Db, id: Uuid, data: CaseUpdate, now: int)
    requires id in db.cases
  {
    && OtherCasesStay(db, after, id) && Sets(db.cases[id], after.cases[id], data, now)
    && after.observables == db.observables
    && |db.entries| <= |after.entries| && after.entries[..|db.entries|] == db.entries
    && Records(id, db.cases[id], after.cases[id], after.entries[|db.entries|..])
  }

  /** The rows of the sources are the target's now, the target remembers its sources, and the sources are closed. */
  ghost predicate Merges(db: Db, after: Db, target: Uuid, sources: seq<Uuid>, now: int)
    requires target in db.cases
  {
    && after.cases.Keys == db.cases.Keys
    && (forall c :: c in db.cases ==>
          after.cases[c] ==
          if c == target then db.cases[c].(mergedFrom := db.cases[c].mergedFrom + sources)
          else if c in sources then db.cases[c].(status := Closed, closedAt := Some(now)) else db.cases[c])
    && |after.observables| == |db.observables|
    && (forall i :: 0 <= i < |db.observables| ==>
          after.observables[i] ==
          if db.observables[i].caseId in sources then db.observables[i].(caseId := target) else db.observables[i])
    && |after.entries| == |db.entries| + 1
    && (forall i :: 0 <= i < |db.entries| ==>
          after.entries[i] ==
          if db.entries[i].caseId in sources then db.entries[i].(caseId := target) else db.entries[i])
    && after.entries[|db.entries|] == Entry(db.cases[target].tenant, target, CasesMerged(sources), true)
  }

  ghost predicate Obeys(db: Db, r: Request, after: Db) {
    match r
    case CreateCase(newId, tenant, title, assignee) =>
      if newId !in db.cases
      then && OtherCasesStay(db, after, newId) && after.observables == db.observables
           && after.cases[newId] == Case(tenant, title, New, None, assignee, [], None, None)
           && after.entries == db.entries + [Entry(tenant, newId, CaseCreated, true)]
      else after == db
    case UpdateCase(id, data, now) => if MayUpdate(db, id, data) then Updates(db, after, id, data, now) else after == db
    case MergeCases(target, sources, now) =>
      if MayMerge(db, target, sources) then Merges(db, after, target, sources, now) else after == db
    case AddObservable(caseId, kind, value, tlp, isIoc) =>
      if caseId in db.cases
      then var t := db.cases[caseId].tenant;
           && after.cases == db.cases
           && after.observables == db.observables + [Observable(t, caseId, kind, value, tlp, isIoc)]
           && after.entries == db.entries + [Entry(t, caseId, ObservableAdded(kind, value), true)]
      else after == db
    case AddManualEntry(caseId, event) =>
      if caseId in db.cases
      then && after.cases == db.cases && after.observables == db.observables
           && after.entries == db.entries + [Entry(db.cases[caseId].tenant, caseId, event, false)]
      else after == db
    case DeleteEntry(k) =>
      if k < |db.entries| && !db.entries[k].automatic
      then && after.cases == db.cases && after.observables == db.observables
           && after.entries == db.entries[..k] + db.entries[k + 1..]
      else after == db
  }

  // ---------- Every request does that ----------

  lemma HandleObeys(db: Db, r: Request)
    ensures Obeys(db, r, After(db, r))
  {
    match r
    case UpdateCase(id, data, now) => UpdateObeys(db, id, data, now);
    case MergeCases(target, sources, now) => MergeObeys(db, target, sources, now);
    case _ =>
  }

  lemma UpdateObeys(db: Db, id: Uuid, data: CaseUpdate, now: int)
    ensures Obeys(db, UpdateCase(id, data, now), After(db, UpdateCase(id, data, now)))
  {
    if MayUpdate(db, id, data) {
      var after := After(db, UpdateCase(id, data, now));
      assert after.entries[|db.entries|..] == UpdateEntries(db.cases[id], id, data);
    }
  }

  lemma MergeObeys(db: Db, target: Uuid, sources: seq<Uuid>, now: int)
    ensures Obeys(db, MergeCases(target, sources, now), After(db, MergeCases(target, sources, now)))
  {
    if target in db.cases {
      MergeRefusedIff(db, target, sources);
    }
  }

  lemma {:induction false} MergeRefusedIff(db: Db, target: Uuid, sources: seq<Uuid>)
    requires target in db.cases
    ensures MayMerge(db, target, sources) <==> SourceError(db, target, sources) == None
    decreases |sources|
  {
    if sources != [] { MergeRefusedIff(db, target, sources[1..]); }
  }

  /** What is wrong with a source: it is the target, does not exist, or has another tenant. */
  predicate IsBad(db: Db, target: Uuid, c: Uuid, e: Error)
    requires target in db.cases
  {
    if c == target then e == BadRequest
    else if c !in db.cases then e == NotFound
    else db.cases[c].tenant != db.cases[target].tenant && e == BadRequest
  }

  /** The first bad source of the list decides which error a merge reports. */
  lemma {:induction false} FirstBadDecides(db: Db, target: Uuid, sources: seq<Uuid>, k: nat, e: Error)
    requires target in db.cases && k < |sources|
    requires MayMerge(db, target, sources[..k]) && IsBad(db, target, sources[k], e)
    ensures forall now: int :: Handle(db, MergeCases(target, sources, now)) == Err(e)
    ensures SourceError(db, target, sources) == Some(e)
    decreases k
  {
    if k > 0 {
      var rest := sources[1..];
      assert sources[..k] == [sources[0]] + rest[..k - 1];
      assert sources[0] in sources[..k];
      forall c | c in rest[..k - 1] ensures c in sources[..k] {}
      FirstBadDecides(db, target, rest, k - 1, e);
    }
  }

  /** Which error an update that is refused reports. */
  lemma UpdateErrors(db: Db, id: Uuid, data: CaseUpdate, now: int)
    ensures var r := Handle(db, UpdateCase(id, data, now));
      && (r == Err(NotFound) <==> id !in db.cases)
      && (r == Err(BadRequest) <==>
            id in db.cases && ClosesNow(db.cases[id], data) && OutcomeAfter(db.cases[id], data) == None)
      && (r == Err(Constraint) <==>
            && id in db.cases && (data.title == Some(None) || data.status == Some(None))
            && !(ClosesNow(db.cases[id], data) && OutcomeAfter(db.cases[id], data) == None))
      && (r.Ok? <==> MayUpdate(db, id, data))
  {}

  // ---------- Runs ----------

  /** The title of a case only changes through an update that sends one, and so does the assignee. */
  lemma {:induction false} TitleAndAssigneeStay(rs: seq<Request>, more: seq<Request>, id: Uuid)
    requires id in Run(rs).cases
    ensures id in Run(rs + more).cases
    ensures (forall i :: 0 <= i < |more| && more[i].UpdateCase? && more[i].id == id ==> more[i].data.title.None?) ==>
      Run(rs + more).cases[id].title == Run(rs).cases[id].title
    ensures (forall i :: 0 <= i < |more| && more[i].UpdateCase? && more[i].id == id ==> more[i].data.assignee.None?) ==>
      Run(rs + more).cases[id].assignee == Run(rs).cases[id].assignee
    decreases |more|
  {
    hide After;
    if more == [] {
      assert rs + more == rs;
    } else {
      var n := |more| - 1;
      assert (rs + more)[..|rs + more| - 1] == rs + more[..n] && (rs + more)[|rs + more| - 1] == more[n];
      TitleAndAssigneeStay(rs, more[..n], id);
      HandleObeys(Run(rs + more[..n]), more[n]);
    }
  }
}
