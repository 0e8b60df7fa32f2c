/**
 The case service: creating, updating and merging cases, with the observables and timeline entries that hang off them.
 Rows are listed in the order of their insertion. A request that fails leaves the database as it was.
 */
module CaseService {
  import opened Wrappers
  import opened Validators

  datatype Status = New | InProgress | Pending | Resolved | Closed

  datatype Outcome = TruePositive | FalsePositive | Indeterminate | NotApplicable

  datatype Case = Case(tenant: Uuid, title: string, status: Status, outcome: Option<Outcome>, assignee: Option<Uuid>,
                       mergedFrom: seq<Uuid>, resolvedAt: Option<int>, closedAt: Option<int>)

  datatype Tlp = Red | Amber | Green | Clear

  datatype Observable = Observable(tenant: Uuid, caseId: Uuid, kind: ObservableType, value: string, tlp: Option<Tlp>, isIoc: bool)

  datatype EntryType =
    | CaseCreated
    | StatusChanged(from: Status, to: Status)
    | AssigneeChanged(before: Option<Uuid>, after: Option<Uuid>)
    | CasesMerged(sources: seq<Uuid>)
    | ObservableAdded(kind: ObservableType, value: string)
    | Other(name: string)

  datatype Entry = Entry(tenant: Uuid, caseId: Uuid, event: EntryType, automatic: bool)

  datatype Db = Db(cases: map<Uuid, Case>, observables: seq<Observable>, entries: seq<Entry>)

  /** Fields a client did not send are `None`; an explicit null is `Some(None)`. */
  datatype CaseUpdate = CaseUpdate(title: Option<Option<string>>, status: Option<Option<Status>>,
                                   outcome: Option<Option<Outcome>>, assignee: Option<Option<Uuid>>)

  // ---------- Create, update, close ----------

  function Created(db: Db, newId: Uuid, tenant: Uuid, title: string, assignee: Option<Uuid>): Result<Db> {
    if newId in db.cases then Err(Constraint)
    else Ok(Db(db.cases[newId := Case(tenant, title, New, None, assignee, [], None, None)],
               db.observables,
               db.entries + [Entry(tenant, newId, CaseCreated, true)]))
  }

  /** The row after the attributes are set, before any side effect of a status change. */
  function Assigned(c: Case, data: CaseUpdate): Case {
    c.(title := if data.title.Some? && data.title.value.Some? then data.title.value.value else c.title,
       status := if data.status.Some? && data.status.value.Some? then data.status.value.value else c.status,
       outcome := if data.outcome.Some? then data.outcome.value else c.outcome,
       assignee := if data.assignee.Some? then data.assignee.value else c.assignee)
  }

  predicate ClosesWithoutOutcome(c: Case, data: CaseUpdate) {
    Assigned(c, data).status == Closed && c.status != Closed && Assigned(c, data).outcome == None
  }

  /** The title and the status are NOT NULL columns. */
  predicate NullsRequired(data: CaseUpdate) {
    data.title == Some(None) || data.status == Some(None)
  }

  function UpdatedCase(c: Case, data: CaseUpdate, now: int): Case {
    var a := Assigned(c, data);
    if a.status == c.status then a
    else a.(resolvedAt := if a.status == Resolved then Some(now) else a.resolvedAt,
            closedAt := if a.status == Closed then Some(now) else a.closedAt)
  }

  function UpdateEntries(c: Case, id: Uuid, data: CaseUpdate): seq<Entry> {
    var a := Assigned(c, data);
    (if a.status != c.status then [Entry(c.tenant, id, StatusChanged(c.status, a.status), true)] else [])
    + (if a.assignee != c.assignee then [Entry(c.tenant, id, AssigneeChanged(c.assignee, a.assignee), true)] else [])
  }

  function Updated(db: Db, id: Uuid, data: CaseUpdate, now: int): Result<Db> {
    if id !in db.cases then Err(NotFound)
    else if ClosesWithoutOutcome(db.cases[id], data) then Err(BadRequest)
    else if NullsRequired(data) then Err(Constraint)
    else Ok(Db(db.cases[id := UpdatedCase(db.cases[id], data, now)], db.observables,
               db.entries + UpdateEntries(db.cases[id], id, data)))
  }

  function CloseUpdate(outcome: Outcome): CaseUpdate {
    CaseUpdate(None, Some(Some(Closed)), Some(Some(outcome)), None)
  }

  // ---------- Merge ----------

  /** The first source that cannot be merged decides the error. */
  function SourceError(db: Db, target: Uuid, sources: seq<Uuid>): Option<Error>
    requires target in db.cases
  {
    if sources == [] then None
    else if sources[0] == target then Some(BadRequest)
    else if sources[0] !in db.cases then Some(NotFound)
    else if db.cases[sources[0]].tenant != db.cases[target].tenant then Some(BadRequest)
    else SourceError(db, target, sources[1..])
  }

  /** Where a row of case `c` belongs after the merge. */
  function Redirect(target: Uuid, sources: seq<Uuid>, c: Uuid): Uuid {
    if c in sources then target else c
  }

  function MovedObservables(rows: seq<Observable>, target: Uuid, sources: seq<Uuid>): (r: seq<Observable>) {
    seq(|rows|, i requires 0 <= i < |rows| => rows[i].(caseId := Redirect(target, sources, rows[i].caseId)))
  }

  function MovedEntries(rows: seq<Entry>, target: Uuid, sources: seq<Uuid>): (r: seq<Entry>) {
    seq(|rows|, i requires 0 <= i < |rows| => rows[i].(caseId := Redirect(target, sources, rows[i].caseId)))
  }

  function MergedCases(cases: map<Uuid, Case>, target: Uuid, sources: seq<Uuid>, now: int): map<Uuid, Case> {
    map c: Uuid | c in cases ::
      if c == target then cases[c].(mergedFrom := cases[c].mergedFrom + sources)
      else if c in sources then cases[c].(status := Closed, closedAt := Some(now))
      else cases[c]
  }

  function Merged(db: Db, target: Uuid, sources: seq<Uuid>, now: int): Result<Db> {
    if target !in db.cases then Err(NotFound)
    else
      var error := SourceError(db, target, sources);
      if error.Some? then Err(error.value)
      else Ok(Db(MergedCases(db.cases, target, sources, now),
                 MovedObservables(db.observables, target, sources),
                 MovedEntries(db.entries, target, sources)
                 + [Entry(db.cases[target].tenant, target, CasesMerged(sources), true)]))
  }

  // ---------- Observables and timeline entries ----------

  /** `value` is the normalised value of an observable. */
  function WithObservable(db: Db, caseId: Uuid, kind: ObservableType, value: string, tlp: Option<Tlp>, isIoc: bool): Result<Db> {
    if caseId !in db.cases then Err(NotFound)
    else
      var t := db.cases[caseId].tenant;
      Ok(db.(observables := db.observables + [Observable(t, caseId, kind, value, tlp, isIoc)],
             entries := db.entries + [Entry(t, caseId, ObservableAdded(kind, value), true)]))
  }

  function WithManualEntry(db: Db, caseId: Uuid, event: EntryType): Result<Db> {
    if caseId !in db.cases then Err(NotFound)
    else Ok(db.(entries := db.entries + [Entry(db.cases[caseId].tenant, caseId, event, false)]))
  }

  function WithoutEntry(db: Db, k: nat): Result<Db> {
    if k >= |db.entries| then Err(NotFound)
    else if db.entries[k].automatic then Err(Forbidden)
    else Ok(db.(entries := db.entries[..k] + db.entries[k + 1..]))
  }

  // ---------- The service ----------

  class Service {
    var cases: map<Uuid, Case>
    var observables: seq<Observable>
    var entries: seq<Entry>

    ghost function Contents(): Db
      reads this
    {
      Db(cases, observables, entries)
    }

    method CreateCase(newId: Uuid, tenant: Uuid, title: string, assignee: Option<Uuid>) returns (r: Result<Uuid>)
      modifies this
      ensures var done := Created(old(Contents()), newId, tenant, title, assignee);
        if done.Ok? then r == Ok(newId) && Contents() == done.value
        else r == Err(done.error) && Contents() == old(Contents())
    {
      if newId in cases {
        return Err(Constraint);
      }
      cases := cases[newId := Case(tenant, title, New, None, assignee, [], None, None)];
      RecordEvent(tenant, newId, CaseCreated);
      return Ok(newId);
    }

    method RecordEvent(tenant: Uuid, caseId: Uuid, event: EntryType)
      modifies this`entries
      ensures entries == old(entries) + [Entry(tenant, caseId, event, true)]
    {
      entries := entries + [Entry(tenant, caseId, event, true)];
    }

    method UpdateCase(id: Uuid, data: CaseUpdate, now: int) returns (r: Result<Case>)
      modifies this
      ensures var done := Updated(old(Contents()), id, data, now);
        if done.Ok? then Contents() == done.value && r == Ok(cases[id])
        else r == Err(done.error) && Contents() == old(Contents())
    {
      if id !in cases {
        return Err(NotFound);
      }
      var before := cases[id];
      var c := before;
      if data.title.Some? && data.title.value.Some? { c := c.(title := data.title.value.value); }
      if data.status.Some? && data.status.value.Some? { c := c.(status := data.status.value.value); }
      if data.outcome.Some? { c := c.(outcome := data.outcome.value); }
      if data.assignee.Some? { c := c.(assignee := data.assignee.value); }
      assert c == Assigned(before, data);
      var changed := c.status != before.status;
      if changed {
        if c.status == Resolved { c := c.(resolvedAt := Some(now)); }
        if c.status == Closed {
          if c.outcome == None {
            return Err(BadRequest);
          }
          c := c.(closedAt := Some(now));
        }
      }
      // the flush refuses a null in a NOT NULL column
      if data.title == Some(None) || data.status == Some(None) {
        return Err(Constraint);
      }
      assert c == UpdatedCase(before, data, now) && !ClosesWithoutOutcome(before, data);
      if changed {
        RecordEvent(before.tenant, id, StatusChanged(before.status, c.status));
      }
      if data.assignee.Some? && data.assignee.value != before.assignee {
        RecordEvent(before.tenant, id, AssigneeChanged(before.assignee, c.assignee));
      }
      assert entries == old(entries) + UpdateEntries(before, id, data);
      cases := cases[id := c];
      return Ok(c);
    }

    method CloseCase(id: Uuid, outcome: Outcome, now: int) returns (r: Result<Case>)
      modifies this
      ensures if id in old(cases)
              then id in cases && r == Ok(cases[id]) && cases[id].status == Closed && cases[id].outcome == Some(outcome)
                   && Updated(old(Contents()), id, CloseUpdate(outcome), now) == Ok(Contents())
              else r == Err(NotFound) && Contents() == old(Contents())
    {
      r := UpdateCase(id, CloseUpdate(outcome), now);
    }

    method MergeCases(target: Uuid, sources: seq<Uuid>, now: int) returns (r: Result<Case>)
      modifies this
      ensures var done := Merged(old(Contents()), target, sources, now);
        if done.Ok? then Contents() == done.value && r == Ok(cases[target])
        else r == Err(done.error) && Contents() == old(Contents())
    {
      if target !in cases {
        return Err(NotFound);
      }
      var error := CheckSources(target, sources);
      if error.Some? {
        return Err(error.value);
      }
      SourcesExist(Contents(), target, sources);
      TransferRows(target, sources);
      CloseSources(target, sources, now);
      return Ok(cases[target]);
    }

    /** Looks every source up before anything is changed. */
    method CheckSources(target: Uuid, sources: seq<Uuid>) returns (error: Option<Error>)
      requires target in cases
      ensures error == SourceError(Contents(), target, sources)
    {
      for i := 0 to |sources|
        invariant SourceError(Contents(), target, sources) == SourceError(Contents(), target, sources[i..])
      {
        var id := sources[i];
        assert sources[i..][1..] == sources[i + 1..];
        if id == target {
          return Some(BadRequest);
        }
        if id !in cases {
          return Some(NotFound);
        }
        if cases[id].tenant != cases[target].tenant {
          return Some(BadRequest);
        }
      }
      return None;
    }

    method TransferRows(target: Uuid, sources: seq<Uuid>)
      requires target !in sources
      modifies this`observables, this`entries
      ensures observables == MovedObservables(old(observables), target, sources)
      ensures entries == MovedEntries(old(entries), target, sources)
    {
      for i := 0 to |sources|
        invariant observables == MovedObservables(old(observables), target, sources[..i])
        invariant entries == MovedEntries(old(entries), target, sources[..i])
      {
        MoveObservables(sources[i], target);
        MoveEntries(sources[i], target);
      }
      assert sources[..|sources|] == sources;
    }

    /** Records where the rows came from, and closes the sources. */
    method CloseSources(target: Uuid, sources: seq<Uuid>, now: int)
      requires target in cases && target !in sources && forall c :: c in sources ==> c in cases
      modifies this`cases, this`entries
      ensures cases == MergedCases(old(cases), target, sources, now)
      ensures entries == old(entries) + [Entry(old(cases)[target].tenant, target, CasesMerged(sources), true)]
    {
      cases := cases[target := cases[target].(mergedFrom := cases[target].mergedFrom + sources)];
      RecordEvent(cases[target].tenant, target, CasesMerged(sources));
      for i := 0 to |sources|
        invariant cases == MergedSoFar(old(cases), target, sources, i, now)
        invariant entries == old(entries) + [Entry(old(cases)[target].tenant, target, CasesMerged(sources), true)]
      {
        var id := sources[i];
        cases := cases[id := cases[id].(status := Closed, closedAt := Some(now))];
      }
    }

    /** Transfers the observables of one source, one row at a time. */
    method MoveObservables(source: Uuid, target: Uuid)
      modifies this`observables
      ensures observables == MovedObservables(old(observables), target, [source])
    {
      for k := 0 to |observables|
        invariant |observables| == |old(observables)|
        invariant forall j :: 0 <= j < k ==> observables[j] == MovedObservables(old(observables), target, [source])[j]
        invariant forall j :: k <= j < |observables| ==> observables[j] == old(observables)[j]
      {
        if observables[k].caseId == source {
          observables := observables[k := observables[k].(caseId := target)];
        }
      }
    }

    method MoveEntries(source: Uuid, target: Uuid)
      modifies this`entries
      ensures entries == MovedEntries(old(entries), target, [source])
    {
      for k := 0 to |entries|
        invariant |entries| == |old(entries)|
        invariant forall j :: 0 <= j < k ==> entries[j] == MovedEntries(old(entries), target, [source])[j]
        invariant forall j :: k <= j < |entries| ==> entries[j] == old(entries)[j]
      {
        if entries[k].caseId == source {
          entries := entries[k := entries[k].(caseId := target)];
        }
      }
    }

    /** Deletes a manual entry; automatic entries are append-only. */
    method DeleteEntry(k: nat) returns (r: Result<()>)
      modifies this`entries
      ensures var done := WithoutEntry(old(Contents()), k);
        if done.Ok? then r == Ok(()) && Contents() == done.value else r == Err(done.error) && Contents() == old(Contents())
    {
      if k >= |entries| {
        return Err(NotFound);
      }
      if entries[k].automatic {
        return Err(Forbidden);
      }
      entries := entries[..k] + entries[k + 1..];
      return Ok(());
    }
  }

  /** The cases while the sources are being closed: the first `i` of them are. */
  function MergedSoFar(cases: map<Uuid, Case>, target: Uuid, sources: seq<Uuid>, i: nat, now: int): map<Uuid, Case>
    requires i <= |sources|
  {
    map c: Uuid | c in cases ::
      if c == target then cases[c].(mergedFrom := cases[c].mergedFrom + sources)
      else if c in sources[..i] then cases[c].(status := Closed, closedAt := Some(now))
      else cases[c]
  }

  lemma {:induction false} SourcesExist(db: Db, target: Uuid, sources: seq<Uuid>)
    requires target in db.cases && SourceError(db, target, sources) == None
    ensures target !in sources
    ensures forall c :: c in sources ==> c in db.cases && db.cases[c].tenant == db.cases[target].tenant
    decreases |sources|
  {
    if sources != [] { SourcesExist(db, target, sources[1..]); }
  }

  // ---------- Runs ----------

  datatype Request =
    | CreateCase(newId: Uuid, tenant: Uuid, title: string, assignee: Option<Uuid>)
    | UpdateCase(id: Uuid, data: CaseUpdate, now: int)
    | MergeCases(target: Uuid, sources: seq<Uuid>, now: int)
    | AddObservable(caseId: Uuid, kind: ObservableType, value: string, tlp: Option<Tlp>, isIoc: bool)
    | AddManualEntry(caseId: Uuid, event: EntryType)
    | DeleteEntry(k: nat)

  function Handle(db: Db, r: Request): Result<Db> {
    match r
    case CreateCase(newId, tenant, title, assignee) => Created(db, newId, tenant, title, assignee)
    case UpdateCase(id, data, now) => Updated(db, id, data, now)
    case MergeCases(target, sources, now) => Merged(db, target, sources, now)
    case AddObservable(caseId, kind, value, tlp, isIoc) => WithObservable(db, caseId, kind, value, tlp, isIoc)
    case AddManualEntry(caseId, event) => WithManualEntry(db, caseId, event)
    case DeleteEntry(k) => WithoutEntry(db, k)
  }

  /** A request commits or leaves the database as it was. */
  function After(db: Db, r: Request): Db {
    var done := Handle(db, r);
    if done.Ok? then done.value else db
  }

  const EMPTY := Db(map[], [], [])

  function Run(rs: seq<Request>): Db {
    if rs == [] then EMPTY else After(Run(rs[..|rs| - 1]), rs[|rs| - 1])
  }

  // ---------- Nothing is lost or moved to another tenant ----------

  /** Every row belongs to an existing case of its own tenant. */
  ghost predicate TenantsAgree(db: Db) {
    && (forall i :: 0 <= i < |db.observables| ==>
          db.observables[i].caseId in db.cases && db.cases[db.observables[i].caseId].tenant == db.observables[i].tenant)
    && (forall i :: 0 <= i < |db.entries| ==>
          db.entries[i].caseId in db.cases && db.cases[db.entries[i].caseId].tenant == db.entries[i].tenant)
  }

  lemma HandleKeepsTenants(db: Db, r: Request)
    requires TenantsAgree(db)
    ensures TenantsAgree(After(db, r))
  {
    if r.MergeCases? && Handle(db, r).Ok? {
      SourcesExist(db, r.target, r.sources);
    }
  }

  lemma {:induction false} RunKeepsTenants(rs: seq<Request>)
    ensures TenantsAgree(Run(rs))
    decreases |rs|
  {
    if rs != [] {
      RunKeepsTenants(rs[..|rs| - 1]);
      HandleKeepsTenants(Run(rs[..|rs| - 1]), rs[|rs| - 1]);
    }
  }

  /** The row is the same but for the case it hangs off. */
  predicate SameObservable(a: Observable, b: Observable) {
    a.(caseId := b.caseId) == b
  }

  predicate SameEntry(a: Entry, b: Entry) {
    a.(caseId := b.caseId) == b
  }

  /** Row by row, `after` continues `before`: no observable is lost or duplicated, and the entries are those there were
      followed by `added` new ones. */
  ghost predicate Conserves(before: Db, after: Db, added: nat) {
    && |after.observables| == |before.observables|
    && (forall i :: 0 <= i < |before.observables| ==> SameObservable(before.observables[i], after.observables[i]))
    && |after.entries| == |before.entries| + added
    && (forall i :: 0 <= i < |before.entries| ==> SameEntry(before.entries[i], after.entries[i]))
    && (forall i :: |before.entries| <= i < |after.entries| ==> after.entries[i].event.CasesMerged?)
    && after.cases.Keys == before.cases.Keys
    && (forall c: Uuid :: c in before.cases ==> after.cases[c].tenant == before.cases[c].tenant)
  }

  ghost predicate EmptyCase(db: Db, c: Uuid) {
    && (forall i :: 0 <= i < |db.observables| ==> db.observables[i].caseId != c)
    && (forall i :: 0 <= i < |db.entries| ==> db.entries[i].caseId != c)
  }

  /** A merge that succeeds conserves all rows, adds one entry, and empties its sources. */
  lemma MergeConserves(db: Db, target: Uuid, sources: seq<Uuid>, now: int)
    requires Merged(db, target, sources, now).Ok?
    ensures Conserves(db, Merged(db, target, sources, now).value, 1)
    ensures forall c :: c in sources ==> EmptyCase(Merged(db, target, sources, now).value, c)
    ensures Last(Merged(db, target, sources, now).value.entries)
         == Entry(db.cases[target].tenant, target, CasesMerged(sources), true)
  {
    SourcesExist(db, target, sources);
  }

  ghost function Last(entries: seq<Entry>): Entry
    requires entries != []
  {
    entries[|entries| - 1]
  }

  datatype Merge = Merge(target: Uuid, sources: seq<Uuid>, now: int)

  /** A run of merges, chained and with repeated sources as they come, and how many of them succeed. */
  function MergeRun(db: Db, ms: seq<Merge>): (r: (Db, nat))
    decreases |ms|
  {
    if ms == [] then (db, 0)
    else
      var done := Merged(db, ms[0].target, ms[0].sources, ms[0].now);
      var rest := MergeRun(if done.Ok? then done.value else db, ms[1..]);
      (rest.0, rest.1 + (if done.Ok? then 1 else 0))
  }

  lemma {:induction false} MergeRunConserves(db: Db, ms: seq<Merge>)
    ensures Conserves(db, MergeRun(db, ms).0, MergeRun(db, ms).1)
    decreases |ms|
  {
    if ms != [] {
      var done := Merged(db, ms[0].target, ms[0].sources, ms[0].now);
      var next := if done.Ok? then done.value else db;
      MergeRunConserves(next, ms[1..]);
      if done.Ok? {
        MergeConserves(db, ms[0].target, ms[0].sources, ms[0].now);
        ConservesTwice(db, next, MergeRun(next, ms[1..]).0, 1, MergeRun(next, ms[1..]).1);
      }
    }
  }

  lemma ConservesTwice(a: Db, b: Db, c: Db, m: nat, n: nat)
    requires Conserves(a, b, m) && Conserves(b, c, n)
    ensures Conserves(a, c, m + n)
  {
    forall i | 0 <= i < |a.observables| ensures SameObservable(a.observables[i], c.observables[i]) {
      assert SameObservable(a.observables[i], b.observables[i]) && SameObservable(b.observables[i], c.observables[i]);
    }
    forall i | 0 <= i < |a.entries| ensures SameEntry(a.entries[i], c.entries[i]) {
      assert SameEntry(a.entries[i], b.entries[i]) && SameEntry(b.entries[i], c.entries[i]);
    }
    forall i | |a.entries| <= i < |c.entries| ensures c.entries[i].event.CasesMerged? {
      if i < |b.entries| { assert SameEntry(b.entries[i], c.entries[i]); }
    }
  }

  // ---------- Provenance ----------

  /** A path of merges: each case was merged into the next one. */
  ghost predicate MergePath(cases: map<Uuid, Case>, p: seq<Uuid>) {
    forall i :: 0 < i < |p| ==> p[i] in cases && p[i - 1] in cases[p[i]].mergedFrom
  }

  ghost predicate Reachable(cases: map<Uuid, Case>, a: Uuid, b: Uuid) {
    exists p :: p != [] && p[0] == a && p[|p| - 1] == b && MergePath(cases, p)
  }

  /** Where the observables of the run were created, in the order of the rows. */
  function Origins(rs: seq<Request>): seq<Uuid> {
    if rs == [] then []
    else
      var before := rs[..|rs| - 1];
      var r := rs[|rs| - 1];
      if r.AddObservable? && Handle(Run(before), r).Ok? then Origins(before) + [r.caseId] else Origins(before)
  }

  ghost predicate MergesGrow(before: map<Uuid, Case>, after: map<Uuid, Case>) {
    forall c: Uuid, d: Uuid :: c in before && d in before[c].mergedFrom ==> c in after && d in after[c].mergedFrom
  }

  lemma ReachableGrows(before: map<Uuid, Case>, after: map<Uuid, Case>, a: Uuid, b: Uuid)
    requires MergesGrow(before, after) && Reachable(before, a, b)
    ensures Reachable(after, a, b)
  {
    var p :| p != [] && p[0] == a && p[|p| - 1] == b && MergePath(before, p);
    forall i | 0 < i < |p| ensures p[i] in after && p[i - 1] in after[p[i]].mergedFrom {
      assert p[i - 1] in before[p[i]].mergedFrom;
    }
  }

  lemma ReachableStep(cases: map<Uuid, Case>, a: Uuid, b: Uuid, c: Uuid)
    requires Reachable(cases, a, b) && c in cases && b in cases[c].mergedFrom
    ensures Reachable(cases, a, c)
  {
    var p :| p != [] && p[0] == a && p[|p| - 1] == b && MergePath(cases, p);
    assert MergePath(cases, p + [c]);
  }

  lemma HandleGrowsMerges(db: Db, r: Request)
    ensures MergesGrow(db.cases, After(db, r).cases)
  {}

  /** Every observable is found in the case it was created in, or in one that this case was merged into, step by step. */
  lemma {:induction false} ProvenanceIsRecorded(rs: seq<Request>)
    ensures |Origins(rs)| == |Run(rs).observables|
    ensures forall i :: 0 <= i < |Origins(rs)| ==> Reachable(Run(rs).cases, Origins(rs)[i], Run(rs).observables[i].caseId)
    decreases |rs|
  {
    hide Reachable;
    if rs != [] {
      var before := rs[..|rs| - 1];
      var r := rs[|rs| - 1];
      var db, db' := Run(before), Run(rs);
      ProvenanceIsRecorded(before);
      HandleGrowsMerges(db, r);
      forall i | 0 <= i < |Origins(rs)| ensures Reachable(db'.cases, Origins(rs)[i], db'.observables[i].caseId) {
        if i < |Origins(before)| {
          ReachableGrows(db.cases, db'.cases, Origins(before)[i], db.observables[i].caseId);
          ObservableMoves(db, r, i);
          if db'.observables[i].caseId != db.observables[i].caseId {
            ReachableStep(db'.cases, Origins(rs)[i], db.observables[i].caseId, db'.observables[i].caseId);
          }
        } else {
          ReachableSelf(db'.cases, r.caseId);
        }
      }
    }
  }

  lemma ReachableSelf(cases: map<Uuid, Case>, a: Uuid)
    ensures Reachable(cases, a, a)
  {
    assert MergePath(cases, [a]);
  }

  /** An observable only ever moves along an edge that the same request records. */
  lemma ObservableMoves(db: Db, r: Request, i: nat)
    requires i < |db.observables|
    ensures var db' := After(db, r);
      && i < |db'.observables| && SameObservable(db.observables[i], db'.observables[i])
      && (db'.observables[i].caseId != db.observables[i].caseId ==>
            db'.observables[i].caseId in db'.cases
            && db.observables[i].caseId in db'.cases[db'.observables[i].caseId].mergedFrom)
  {
    if r.MergeCases? && Handle(db, r).Ok? {
      SourcesExist(db, r.target, r.sources);
    }
  }

  // ---------- The status trail ----------

  /** The automatic status changes of a case, in the order they were recorded. */
  function Trail(entries: seq<Entry>, c: Uuid): seq<EntryType> {
    if entries == [] then []
    else
      var e := entries[|entries| - 1];
      Trail(entries[..|entries| - 1], c) + (if IsStatusChange(e, c) then [e.event] else [])
  }

  predicate IsStatusChange(e: Entry, c: Uuid) {
    e.caseId == c && e.automatic && e.event.StatusChanged?
  }

  /** A path of statuses from `from` to `to` whose consecutive statuses differ. */
  ghost predicate StatusPath(trail: seq<EntryType>, from: Status, to: Status)
    decreases |trail|
  {
    if trail == [] then from == to
    else
      var last := trail[|trail| - 1];
      last.StatusChanged? && last.from != last.to && last.to == to && StatusPath(trail[..|trail| - 1], from, last.from)
  }

  /** The case was neither the source nor the target of a merge. */
  ghost predicate Unmerged(cases: map<Uuid, Case>, c: Uuid) {
    && c in cases && cases[c].mergedFrom == []
    && forall d: Uuid :: d in cases ==> c !in cases[d].mergedFrom
  }

  lemma {:induction false} TrailAppend(entries: seq<Entry>, more: seq<Entry>, c: Uuid)
    ensures Trail(entries + more, c) == Trail(entries, c) + Trail(more, c)
    decreases |more|
  {
    if more == [] {
      assert entries + more == entries;
    } else {
      assert (entries + more)[..|entries + more| - 1] == entries + more[..|more| - 1];
      TrailAppend(entries, more[..|more| - 1], c);
    }
  }

  lemma {:induction false} TrailOfMoved(entries: seq<Entry>, target: Uuid, sources: seq<Uuid>, c: Uuid)
    requires c != target && c !in sources
    ensures Trail(MovedEntries(entries, target, sources), c) == Trail(entries, c)
    decreases |entries|
  {
    if entries != [] {
      var n := |entries| - 1;
      assert MovedEntries(entries, target, sources)[..n] == MovedEntries(entries[..n], target, sources);
      TrailOfMoved(entries[..n], target, sources, c);
    }
  }

  lemma TrailWithout(entries: seq<Entry>, k: nat, c: Uuid)
    requires k < |entries| && !entries[k].automatic
    ensures Trail(entries[..k] + entries[k + 1..], c) == Trail(entries, c)
  {
    hide Trail;
    var a, e, b := entries[..k], entries[k], entries[k + 1..];
    assert entries == a + ([e] + b);
    TrailAppend(a, b, c);
    TrailAppend(a, [e] + b, c);
    TrailAppend([e], b, c);
    TrailOfOne(e, c);
  }

  /** A row that is no automatic status change leaves the trails alone. */
  lemma TrailIgnores(entries: seq<Entry>, e: Entry, c: Uuid)
    requires !IsStatusChange(e, c)
    ensures Trail(entries + [e], c) == Trail(entries, c)
  {
    TrailAppend(entries, [e], c);
    TrailOfOne(e, c);
  }

  lemma TrailOfOne(e: Entry, c: Uuid)
    ensures Trail([e], c) == if IsStatusChange(e, c) then [e.event] else []
  {
    assert [e][..0] == [];
  }

  ghost predicate TrailInv(db: Db, c: Uuid) {
    !Unmerged(db.cases, c) || StatusPath(Trail(db.entries, c), New, db.cases[c].status)
  }

  /** Rows only ever refer to existing cases, so a new case starts without a trail. */
  lemma {:induction false} NoTrailWithoutCase(entries: seq<Entry>, c: Uuid)
    requires forall i :: 0 <= i < |entries| ==> entries[i].caseId != c
    ensures Trail(entries, c) == []
    decreases |entries|
  {
    if entries != [] { NoTrailWithoutCase(entries[..|entries| - 1], c); }
  }

  lemma UpdateTrail(c: Case, id: Uuid, data: CaseUpdate, d: Uuid)
    ensures Trail(UpdateEntries(c, id, data), d)
         == if d == id && Assigned(c, data).status != c.status then [StatusChanged(c.status, Assigned(c, data).status)] else []
  {
    var a := Assigned(c, data);
    var first := if a.status != c.status then [Entry(c.tenant, id, StatusChanged(c.status, a.status), true)] else [];
    var second := if a.assignee != c.assignee then [Entry(c.tenant, id, AssigneeChanged(c.assignee, a.assignee), true)] else [];
    TrailAppend(first, second, d);
    if first != [] { TrailOfOne(first[0], d); }
    if second != [] { TrailOfOne(second[0], d); }
  }

  lemma HandleKeepsTrail(db: Db, r: Request, c: Uuid)
    requires TenantsAgree(db) && TrailInv(db, c)
    ensures TrailInv(After(db, r), c)
  {
    hide StatusPath, TenantsAgree, Unmerged, Trail, TrailInv;
    if Handle(db, r).Ok? {
      match r
      case CreateCase(newId, tenant, title, assignee) => CreateTrail(db, r, c);
      case UpdateCase(id, data, now) => UpdateKeepsTrail(db, r, c);
      case MergeCases(target, sources, now) => MergeTrail(db, r, c);
      case AddObservable(_, _, _, _, _) => SmallTrail(db, r, c);
      case AddManualEntry(caseId, event) => SmallTrail(db, r, c);
      case DeleteEntry(k) => SmallTrail(db, r, c);
    }
  }

  lemma SmallTrail(db: Db, r: Request, c: Uuid)
    requires (r.AddObservable? || r.AddManualEntry? || r.DeleteEntry?) && Handle(db, r).Ok? && TrailInv(db, c)
    ensures TrailInv(After(db, r), c)
  {
    hide StatusPath, Unmerged, Trail;
    var db' := After(db, r);
    if r.DeleteEntry? {
      TrailWithout(db.entries, r.k, c);
    } else {
      TrailIgnores(db.entries, Last(db'.entries), c);
    }
  }

  lemma UpdateKeepsTrail(db: Db, r: Request, c: Uuid)
    requires r.UpdateCase? && Handle(db, r).Ok? && TrailInv(db, c)
    ensures TrailInv(After(db, r), c)
  {
    hide StatusPath, Trail;
    var db' := After(db, r);
    if Unmerged(db'.cases, c) {
      forall d: Uuid | d in db.cases ensures c !in db.cases[d].mergedFrom {
        assert db'.cases[d].mergedFrom == db.cases[d].mergedFrom;
      }
      TrailAppend(db.entries, UpdateEntries(db.cases[r.id], r.id, r.data), c);
      UpdateTrail(db.cases[r.id], r.id, r.data, c);
      PathStep(Trail(db.entries, c), New, db.cases[c].status, db'.cases[c].status);
      assert Trail(db.entries, c) + [] == Trail(db.entries, c);
    }
  }

  lemma PathStep(trail: seq<EntryType>, from: Status, mid: Status, to: Status)
    requires StatusPath(trail, from, mid)
    ensures mid != to ==> StatusPath(trail + [StatusChanged(mid, to)], from, to)
    ensures mid == to ==> StatusPath(trail, from, to)
  {
    assert (trail + [StatusChanged(mid, to)])[..|trail|] == trail;
  }

  lemma CreateTrail(db: Db, r: Request, c: Uuid)
    requires r.CreateCase? && Handle(db, r).Ok? && TenantsAgree(db) && TrailInv(db, c)
    ensures TrailInv(After(db, r), c)
  {
    hide Trail;
    var db' := After(db, r);
    TrailIgnores(db.entries, Last(db'.entries), c);
    if c == r.newId {
      NoTrailWithoutCase(db.entries, c);
    } else if Unmerged(db'.cases, c) {
      forall d: Uuid | d in db.cases ensures c !in db.cases[d].mergedFrom { assert db'.cases[d] == db.cases[d]; }
      assert Unmerged(db.cases, c);
    }
  }

  lemma MergeTrail(db: Db, r: Request, c: Uuid)
    requires r.MergeCases? && Handle(db, r).Ok? && TrailInv(db, c)
    ensures TrailInv(After(db, r), c)
  {
    hide StatusPath, Trail;
    var db' := After(db, r);
    SourcesExist(db, r.target, r.sources);
    if Unmerged(db'.cases, c) {
      assert db'.cases[r.target].mergedFrom == db.cases[r.target].mergedFrom + r.sources;
      forall d: Uuid | d in db.cases ensures c !in db.cases[d].mergedFrom {
        assert d in db'.cases && c !in db'.cases[d].mergedFrom;
      }
      assert c !in r.sources;
      if c == r.target {
        assert r.sources == [];
        assert MovedEntries(db.entries, r.target, []) == db.entries;
      } else {
        TrailOfMoved(db.entries, r.target, r.sources, c);
      }
      TrailIgnores(MovedEntries(db.entries, r.target, r.sources), Last(db'.entries), c);
    }
  }

  /** For a case outside any merge, the automatic status entries lead from `New` to its status, each to another status. */
  lemma {:induction false} TrailLeadsToStatus(rs: seq<Request>, c: Uuid)
    requires Unmerged(Run(rs).cases, c)
    ensures StatusPath(Trail(Run(rs).entries, c), New, Run(rs).cases[c].status)
  {
    RunKeepsTrail(rs, c);
  }

  lemma {:induction false} RunKeepsTrail(rs: seq<Request>, c: Uuid)
    ensures TrailInv(Run(rs), c)
    decreases |rs|
  {
    if rs != [] {
      RunKeepsTenants(rs[..|rs| - 1]);
      RunKeepsTrail(rs[..|rs| - 1], c);
      HandleKeepsTrail(Run(rs[..|rs| - 1]), rs[|rs| - 1], c);
    }
  }

  // ---------- Timestamps ----------

  ghost predicate Stamped(c: Case) {
    (c.status == Resolved ==> c.resolvedAt.Some?) && (c.status == Closed ==> c.closedAt.Some?)
  }

  ghost predicate StampsStay(before: Db, after: Db) {
    forall c: Uuid :: c in before.cases ==>
      && c in after.cases
      && (before.cases[c].resolvedAt.Some? ==> after.cases[c].resolvedAt.Some?)
      && (before.cases[c].closedAt.Some? ==> after.cases[c].closedAt.Some?)
  }

  lemma HandleStamps(db: Db, r: Request)
    requires forall c: Uuid :: c in db.cases ==> Stamped(db.cases[c])
    ensures forall c: Uuid :: c in After(db, r).cases ==> Stamped(After(db, r).cases[c])
    ensures StampsStay(db, After(db, r))
  {}

  /** Resolved cases have `resolved_at`, closed ones `closed_at`, and neither is ever taken away again. */
  lemma {:induction false} RunStamps(rs: seq<Request>, more: seq<Request>)
    ensures forall c: Uuid :: c in Run(rs + more).cases ==> Stamped(Run(rs + more).cases[c])
    ensures StampsStay(Run(rs), Run(rs + more))
    decreases |rs + more|
  {
    if more != [] {
      var n := |more| - 1;
      assert (rs + more)[..|rs + more| - 1] == rs + more[..n];
      RunStamps(rs, more[..n]);
      HandleStamps(Run(rs + more[..n]), more[n]);
    } else {
      assert rs + more == rs;
      if rs != [] {
        assert rs[..|rs| - 1] + [] == rs[..|rs| - 1];
        RunStamps(rs[..|rs| - 1], []);
        HandleStamps(Run(rs[..|rs| - 1]), rs[|rs| - 1]);
      }
    }
  }

  // ---------- Closing ----------

  /** An update is refused with a 400 exactly when it would close an open case that ends up without an outcome,
      and then nothing changes. */
  lemma CloseNeedsOutcome(db: Db, id: Uuid, data: CaseUpdate, now: int)
    requires id in db.cases
    ensures Updated(db, id, data, now) == Err(BadRequest) <==>
      && data.status == Some(Some(Closed)) && db.cases[id].status != Closed
      && (data.outcome == Some(None) || (data.outcome.None? && db.cases[id].outcome == None))
    ensures Updated(db, id, data, now).Err? ==> After(db, UpdateCase(id, data, now)) == db
  {}

  /** The case is not closed without an outcome. */
  predicate ClosedWithOutcome(db: Db, c: Uuid) {
    c in db.cases && db.cases[c].status == Closed ==> db.cases[c].outcome.Some?
  }

  /** The request closes the case in a merge although it has no outcome, or takes the outcome of a case that is and stays
      closed. */
  predicate LeavesBare(db: Db, r: Request, c: Uuid) {
    c in db.cases
    && match r
       case MergeCases(target, sources, now) =>
         c in sources && db.cases[c].outcome.None? && Merged(db, target, sources, now).Ok?
       case UpdateCase(id, data, now) =>
         id == c && db.cases[c].status == Closed && data.outcome == Some(None)
         && (data.status == None || data.status == Some(Some(Closed))) && Updated(db, id, data, now).Ok?
       case _ => false
  }

  lemma OneRequestLeavesBare(db: Db, r: Request, c: Uuid)
    requires ClosedWithOutcome(db, c)
    ensures ClosedWithOutcome(After(db, r), c) <==> !LeavesBare(db, r, c)
  {
    hide Merged;
    match r
    case MergeCases(target, sources, now) =>
      if Merged(db, target, sources, now).Ok? { MergedCase(db, target, sources, now, c); }
    case _ =>
  }

  lemma MergedCase(db: Db, target: Uuid, sources: seq<Uuid>, now: int, c: Uuid)
    requires Merged(db, target, sources, now).Ok?
    ensures var after := Merged(db, target, sources, now).value;
      && after.cases.Keys == db.cases.Keys
      && (c in db.cases ==>
            && after.cases[c].outcome == db.cases[c].outcome
            && after.cases[c].status == if c in sources then Closed else db.cases[c].status)
  {
    SourcesExist(db, target, sources);
  }

  /** At no point of the run is the case closed without an outcome. */
  predicate AlwaysWithOutcome(rs: seq<Request>, c: Uuid) {
    ClosedWithOutcome(Run(rs), c) && (rs != [] ==> AlwaysWithOutcome(rs[..|rs| - 1], c))
  }

  /** No request of the run leaves the case closed without an outcome. */
  predicate NeverLeftBare(rs: seq<Request>, c: Uuid) {
    rs != [] ==>
      !LeavesBare(Run(rs[..|rs| - 1]), rs[|rs| - 1], c) && NeverLeftBare(rs[..|rs| - 1], c)
  }

  lemma {:induction false} ClosedHasOutcomeIff(rs: seq<Request>, c: Uuid)
    ensures AlwaysWithOutcome(rs, c) <==> NeverLeftBare(rs, c)
    decreases |rs|
  {
    hide ClosedWithOutcome, LeavesBare, After;
    if rs == [] {
      NothingClosed(c);
    } else {
      var n := |rs| - 1;
      ClosedHasOutcomeIff(rs[..n], c);
      if ClosedWithOutcome(Run(rs[..n]), c) {
        OneRequestLeavesBare(Run(rs[..n]), rs[n], c);
      }
    }
  }

  lemma NothingClosed(c: Uuid)
    ensures ClosedWithOutcome(Run([]), c)
  {}

  /** "Closed" does not imply an outcome: a merge closes its sources without one. */
  lemma MergeClosesWithoutOutcome()
    ensures var db := Run([CreateCase(1, 0, "a", None), CreateCase(2, 0, "b", None), MergeCases(1, [2], 7)]);
      2 in db.cases && db.cases[2].status == Closed && db.cases[2].outcome == None
  {
    var r1, r2, r3 := CreateCase(1, 0, "a", None), CreateCase(2, 0, "b", None), MergeCases(1, [2], 7);
    assert [r1][..0] == [] && [r1, r2][..1] == [r1] && [r1, r2, r3][..2] == [r1, r2];
    assert Run([r1]) == After(EMPTY, r1);
    assert Run([r1, r2]) == After(Run([r1]), r2);
    var db := Run([r1, r2]);
    assert 1 in db.cases && 2 in db.cases && db.cases[2].outcome == None;
    assert SourceError(db, 1, [2]) == None by { assert [2][1..] == []; }
  }

  // ---------- Correlation ----------

  predicate Carries(o: Observable, tenant: Uuid, kind: ObservableType, value: string) {
    o.tenant == tenant && o.kind == kind && o.value == value
  }

  /** The cases of the tenant that carry the observable. */
  ghost function Correlating(db: Db, tenant: Uuid, kind: ObservableType, value: string): set<Uuid> {
    set i | 0 <= i < |db.observables| && Carries(db.observables[i], tenant, kind, value) :: db.observables[i].caseId
  }

  method FindCorrelatingCases(db: Db, tenant: Uuid, kind: ObservableType, value: string) returns (ids: seq<Uuid>)
    ensures forall c: Uuid :: c in ids <==> c in Correlating(db, tenant, kind, value)
    ensures forall i, j :: 0 <= i < j < |ids| ==> ids[i] != ids[j]
  {
    ids := [];
    for k := 0 to |db.observables|
      invariant forall c: Uuid :: c in ids <==>
        exists i :: 0 <= i < k && Carries(db.observables[i], tenant, kind, value) && db.observables[i].caseId == c
      invariant forall i, j :: 0 <= i < j < |ids| ==> ids[i] != ids[j]
    {
      var o := db.observables[k];
      if Carries(o, tenant, kind, value) && o.caseId !in ids {
        ids := ids + [o.caseId];
      }
    }
  }

  method CrossCaseCount(db: Db, tenant: Uuid, kind: ObservableType, value: string, excluded: Uuid) returns (n: nat)
    ensures n == |Correlating(db, tenant, kind, value) - {excluded}|
  {
    var others: set<Uuid> := {};
    for k := 0 to |db.observables|
      invariant others == (set i | 0 <= i < k && Carries(db.observables[i], tenant, kind, value)
                                   && db.observables[i].caseId != excluded :: db.observables[i].caseId)
    {
      var o := db.observables[k];
      if Carries(o, tenant, kind, value) && o.caseId != excluded {
        others := others + {o.caseId};
      }
    }
    assert others == Correlating(db, tenant, kind, value) - {excluded};
    n := |others|;
  }

  /** A merge maps every correlation set to its image: sources are replaced by the target. */
  lemma MergeMapsCorrelation(db: Db, target: Uuid, sources: seq<Uuid>, now: int,
                             tenant: Uuid, kind: ObservableType, value: string)
    requires Merged(db, target, sources, now).Ok?
    ensures Correlating(Merged(db, target, sources, now).value, tenant, kind, value)
         == set c | c in Correlating(db, tenant, kind, value) :: Redirect(target, sources, c)
  {
    var db' := Merged(db, target, sources, now).value;
    var image := set c | c in Correlating(db, tenant, kind, value) :: Redirect(target, sources, c);
    forall x: Uuid ensures x in Correlating(db', tenant, kind, value) <==> x in image {
      if x in Correlating(db', tenant, kind, value) {
        var i :| 0 <= i < |db'.observables| && Carries(db'.observables[i], tenant, kind, value) && db'.observables[i].caseId == x;
        assert Carries(db.observables[i], tenant, kind, value);
        assert db.observables[i].caseId in Correlating(db, tenant, kind, value);
      }
      if x in image {
        var c :| c in Correlating(db, tenant, kind, value) && Redirect(target, sources, c) == x;
        var i :| 0 <= i < |db.observables| && Carries(db.observables[i], tenant, kind, value) && db.observables[i].caseId == c;
        assert Carries(db'.observables[i], tenant, kind, value) && db'.observables[i].caseId == x;
      }
    }
  }
}
