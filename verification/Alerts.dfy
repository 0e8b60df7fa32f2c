/**
 Alert triage: OCSF 1.8.0 Detection Findings (class_uid 2004) are ingested as pending alerts, de-duplicated while
 pending, dismissed, or promoted into a case together with their observables. Requests are handled one at a time;
 nothing in the source serialises concurrent ingests.
 */
module Alerts {
  import opened Wrappers
  import opened Validators
  import opened CaseService
  import opened Observables

  // ---------- De-duplication ----------

  datatype AlertStatus = AlertPending | Promoted | Dismissed

  /** The parts of a finding that the workflow reads. The ingest schema requires a non-empty `uid`. */
  datatype Finding = Finding(dedupKey: Option<string>, uidAlt: Option<string>, uid: string, title: string,
                             observables: seq<RawObservable>)

  /** `payloadStatus` is the OCSF status mirrored into the stored document. */
  datatype Alert = Alert(tenant: Uuid, status: AlertStatus, dedupKey: string, title: string, observables: seq<RawObservable>,
                         payloadStatus: Option<nat>, dismissReason: Option<string>, promotedTo: Option<Uuid>)

  const OCSF_STATUS_IN_PROGRESS := 2
  const OCSF_STATUS_SUPPRESSED := 3

  /** Explicit key, then `finding_info.uid_alt`, then `finding_info.uid`; empty strings are passed over. */
  function DeriveDedupKey(f: Finding): string {
    if f.dedupKey.Some? && f.dedupKey.value != "" then f.dedupKey.value
    else if f.uidAlt.Some? && f.uidAlt.value != "" then f.uidAlt.value
    else f.uid
  }

  predicate IsDuplicatePayload(f: Finding, other: Alert) {
    other.status == AlertPending && DeriveDedupKey(f) != "" && DeriveDedupKey(f) == other.dedupKey
  }

  type Alerts = map<Uuid, Alert>

  /** The rows that the lookup of `ingest_alert` selects. */
  function Matches(alerts: Alerts, tenant: Uuid, key: string): set<Uuid> {
    set a | a in alerts && alerts[a].tenant == tenant && alerts[a].dedupKey == key && alerts[a].status == AlertPending
  }

  function NewAlert(tenant: Uuid, f: Finding): Alert {
    Alert(tenant, AlertPending, DeriveDedupKey(f), f.title, f.observables, None, None, None)
  }

  // ---------- OCSF observables ----------

  /** An element of the stored `observables` list. */
  datatype RawObservable =
    | NotAnObject
    | Raw(value: Option<string>, typeId: Option<int>, tlp: Option<string>, isIoc: bool)

  /** The type of an OCSF observable. Hashes share one type_id and are told apart by the length of the value. */
  function TypeOf(typeId: int, value: string): Option<ObservableType> {
    match typeId
    case 8 =>
      if |value| == 32 then Some(HashMd5)
      else if |value| == 40 then Some(HashSha1)
      else if |value| == 64 then Some(HashSha256)
      else None
    case 1 => Some(Hostname)
    case 2 => Some(Ip)
    case 5 => Some(Email)
    case 6 => Some(Url)
    case 7 => Some(Filename)
    case 22 => Some(Email)
    case 23 => Some(Url)
    case 28 => Some(RegistryKey)
    case _ => None
  }

  function TlpOf(raw: Option<string>): Option<Tlp> {
    if raw.None? then None
    else
      var s := Lower(raw.value);
      if s == "red" then Some(Red) else if s == "amber" then Some(Amber)
      else if s == "green" then Some(Green) else if s == "clear" then Some(Clear) else None
  }

  function ToObservableCreate(raw: RawObservable): Option<ObservableCreate> {
    if raw.NotAnObject? || raw.value.None? || raw.value.value == "" || raw.typeId.None? then None
    else
      var kind := TypeOf(raw.typeId.value, raw.value.value);
      if kind.None? then None else Some(ObservableCreate(kind.value, raw.value.value, TlpOf(raw.tlp), raw.isIoc))
  }

  /** The loop of `promote_alert`: what cannot be mapped or is invalid is skipped. */
  function Copied(library: Library, db: Db, caseId: Uuid, raws: seq<RawObservable>): Db {
    if raws == [] then db
    else
      var before := Copied(library, db, caseId, raws[..|raws| - 1]);
      var item := ToObservableCreate(raws[|raws| - 1]);
      if item.None? then before
      else
        var done := WithItem(library, before, caseId, item.value);
        if done.Ok? then done.value else before
  }

  /** The mappable and valid observables of a finding, in order. */
  function Usable(library: Library, raws: seq<RawObservable>): seq<ObservableCreate> {
    if raws == [] then []
    else
      var item := ToObservableCreate(raws[|raws| - 1]);
      Usable(library, raws[..|raws| - 1])
      + (if item.Some? && Valid(library, item.value) then [item.value] else [])
  }

  /** Promotion copies exactly what a bulk request for the usable observables would create, which never fails. */
  lemma {:induction false} PromotionIsBulkOfUsable(library: Library, db: Db, caseId: Uuid, raws: seq<RawObservable>)
    requires caseId in db.cases
    ensures WithItems(library, db, caseId, Usable(library, raws)) == Ok(Copied(library, db, caseId, raws))
    ensures caseId in Copied(library, db, caseId, raws).cases
    decreases |raws|
  {
    hide ToObservableCreate, Valid, WithItem;
    if raws != [] {
      var n := |raws| - 1;
      PromotionIsBulkOfUsable(library, db, caseId, raws[..n]);
      var items := Usable(library, raws[..n]);
      var item := ToObservableCreate(raws[n]);
      if item.Some? {
        ValidItemIsStored(library, Copied(library, db, caseId, raws[..n]), caseId, item.value);
      }
      if item.Some? && Valid(library, item.value) {
        assert (items + [item.value])[..|items|] == items;
      } else {
        assert items + [] == items;
      }
    }
  }

  lemma ValidItemIsStored(library: Library, db: Db, caseId: Uuid, item: ObservableCreate)
    requires caseId in db.cases
    ensures var done := WithItem(library, db, caseId, item);
      (done.Ok? <==> Valid(library, item)) && (done.Ok? ==> caseId in done.value.cases)
  {
    hide Normalized;
  }

  lemma {:induction false} UsableAreValid(library: Library, raws: seq<RawObservable>)
    ensures AllValid(library, Usable(library, raws))
    decreases |raws|
  {
    if raws != [] { UsableAreValid(library, raws[..|raws| - 1]); }
  }

  /** So the case gains one row and one `observable_added` entry per usable observable, in their order, and nothing else. */
  lemma {:induction false} PromotionAddsUsable(library: Library, db: Db, caseId: Uuid, raws: seq<RawObservable>)
    requires caseId in db.cases
    ensures AllValid(library, Usable(library, raws))
    ensures Copied(library, db, caseId, raws) == Extended(library, db, caseId, Usable(library, raws))
  {
    PromotionIsBulkOfUsable(library, db, caseId, raws);
    UsableAreValid(library, raws);
    BulkIsAllOrNothing(library, db, caseId, Usable(library, raws));
  }

  /** The hashes among them are lowercase hex of the length their type names. */
  lemma PromotedHashes(library: Library, raws: seq<RawObservable>, tenant: Uuid, caseId: Uuid, i: nat)
    requires i < |Usable(library, raws)| && Valid(library, Usable(library, raws)[i])
    ensures var o := RowOf(library, tenant, caseId, Usable(library, raws)[i]);
      o.kind.HashMd5? || o.kind.HashSha1? || o.kind.HashSha256? ==>
        |o.value| == HashLength(o.kind) && forall k :: 0 <= k < |o.value| ==> LowerHex(o.value[k])
  {
    var item := Usable(library, raws)[i];
    if item.kind.HashMd5? || item.kind.HashSha1? || item.kind.HashSha256? {
      HashIsLowerHex(item.value, HashLength(item.kind));
    }
  }

  /** A hash of a finding is promoted exactly when it is 32, 40 or 64 hex digits without anything around them, as the type
      of that length and in lower case. With space around it, the length names another type or none. */
  lemma HashIsUsableIff(library: Library, value: string, tlp: Option<string>, isIoc: bool)
    ensures var item := ToObservableCreate(Raw(Some(value), Some(8), tlp, isIoc));
      && (item.Some? && Valid(library, item.value) <==>
            (|value| == 32 || |value| == 40 || |value| == 64) && All(value, Hex))
      && (item.Some? && Valid(library, item.value) ==>
            |value| == HashLength(item.value.kind) && Normalized(library, item.value) == Ok(Lower(value)))
  {
    HashTakenAsItIs(value, |value|);
  }

  // ---------- Promote and dismiss ----------

  datatype State = State(alerts: Alerts, db: Db)

  /** The case an alert is promoted into, and the database with it. */
  function TargetCase(db: Db, tenant: Uuid, caseId: Option<Uuid>, title: Option<string>, newId: Uuid): Result<(Uuid, Db)> {
    if caseId.Some? then
      if caseId.value !in db.cases then Err(NotFound)
      else if db.cases[caseId.value].tenant != tenant then Err(BadRequest)
      else Ok((caseId.value, db))
    else if title.None? || title.value == "" then Err(BadRequest)
    else match Created(db, newId, tenant, title.value, None)
         case Err(e) => Err(e)
         case Ok(db') => Ok((newId, db'))
  }

  function PromotedState(library: Library, s: State, id: Uuid, caseId: Option<Uuid>, title: Option<string>, newId: Uuid)
    : Result<State>
  {
    if id !in s.alerts then Err(NotFound)
    else
      var alert := s.alerts[id];
      match TargetCase(s.db, alert.tenant, caseId, title, newId)
      case Err(e) => Err(e)
      case Ok((target, db)) =>
        var db' := Copied(library, db, target, alert.observables);
        Ok(State(s.alerts[id := alert.(status := Promoted, promotedTo := Some(target),
                                       payloadStatus := Some(OCSF_STATUS_IN_PROGRESS))],
                 db'.(entries := db'.entries + [Entry(alert.tenant, target, Other("alert_promoted"), true)])))
  }

  function DismissedState(s: State, id: Uuid, reason: string): Result<State> {
    if id !in s.alerts then Err(NotFound)
    else Ok(s.(alerts := s.alerts[id := s.alerts[id].(status := Dismissed, dismissReason := Some(reason),
                                                      payloadStatus := Some(OCSF_STATUS_SUPPRESSED))]))
  }

  // ---------- The service ----------

  class AlertService {
    var alerts: Alerts
    var db: Db

    ghost function Contents(): State
      reads this
    {
      State(alerts, db)
    }

    /** Returns the alert and whether it was a duplicate. More than one match would raise an error. */
    method IngestAlert(newId: Uuid, tenant: Uuid, f: Finding) returns (r: Result<(Uuid, bool)>)
      modifies this`alerts
      ensures var key := DeriveDedupKey(f); var found := Matches(old(alerts), tenant, key);
        if key != "" && |found| > 1 then r == Err(Constraint) && alerts == old(alerts)
        else if key != "" && |found| == 1 then r.Ok? && r.value.0 in found && r.value.1 && alerts == old(alerts)
        else if newId in old(alerts) then r == Err(Constraint) && alerts == old(alerts)
        else r == Ok((newId, false)) && alerts == old(alerts)[newId := NewAlert(tenant, f)]
    {
      var key := DeriveDedupKey(f);
      if key != "" {
        var found := Matches(alerts, tenant, key);
        if |found| > 1 {
          return Err(Constraint);
        }
        if found != {} {
          var existing :| existing in found;
          return Ok((existing, true));
        }
      }
      if newId in alerts {
        return Err(Constraint);
      }
      alerts := alerts[newId := NewAlert(tenant, f)];
      return Ok((newId, false));
    }

    method DismissAlert(id: Uuid, reason: string) returns (r: Result<Alert>)
      modifies this`alerts
      ensures var done := DismissedState(old(Contents()), id, reason);
        if done.Ok? then Contents() == done.value && id in alerts && r == Ok(alerts[id])
        else Contents() == old(Contents()) && r == Err(done.error)
    {
      if id !in alerts {
        return Err(NotFound);
      }
      var alert := alerts[id];
      alert := alert.(status := Dismissed, dismissReason := Some(reason));
      alert := alert.(payloadStatus := Some(OCSF_STATUS_SUPPRESSED));
      alerts := alerts[id := alert];
      return Ok(alert);
    }

    method PromoteAlert(library: Library, id: Uuid, caseId: Option<Uuid>, title: Option<string>, newId: Uuid)
      returns (r: Result<Uuid>)
      modifies this
      ensures var done := PromotedState(library, old(Contents()), id, caseId, title, newId);
        if done.Ok? then Contents() == done.value && id in alerts && alerts[id].promotedTo.Some?
                         && r == Ok(alerts[id].promotedTo.value)
        else Contents() == old(Contents()) && r == Err(done.error)
    {
      hide ToObservableCreate, WithItem;
      if id !in alerts {
        return Err(NotFound);
      }
      var alert := alerts[id];
      var target, current := newId, db;
      if caseId.Some? {
        if caseId.value !in db.cases {
          return Err(NotFound);
        }
        if db.cases[caseId.value].tenant != alert.tenant {
          return Err(BadRequest);
        }
        target := caseId.value;
      } else {
        if title.None? || title.value == "" {
          return Err(BadRequest);
        }
        var created := Created(db, newId, alert.tenant, title.value, None);
        if created.Err? {
          return Err(created.error);
        }
        current := created.value;
      }
      ghost var start := current;
      for i := 0 to |alert.observables|
        invariant current == Copied(library, start, target, alert.observables[..i])
      {
        assert alert.observables[..i + 1][..i] == alert.observables[..i];
        var item := ToObservableCreate(alert.observables[i]);
        if item.Some? {
          var done := WithItem(library, current, target, item.value);
          if done.Ok? {
            current := done.value;
          }
        }
      }
      assert alert.observables[..|alert.observables|] == alert.observables;
      alert := alert.(status := Promoted, promotedTo := Some(target));
      alert := alert.(payloadStatus := Some(OCSF_STATUS_IN_PROGRESS));
      alerts := alerts[id := alert];
      db := current.(entries := current.entries + [Entry(alert.tenant, target, Other("alert_promoted"), true)]);
      return Ok(target);
    }
  }

  // ---------- Runs ----------

  datatype AlertRequest =
    | Ingest(newId: Uuid, tenant: Uuid, f: Finding)
    | Dismiss(id: Uuid, reason: string)
    | Promote(id: Uuid, caseId: Option<Uuid>, title: Option<string>, newCase: Uuid)

  /** Ingest when the lookup is not ambiguous; an ambiguous lookup fails and changes nothing. */
  function Ingested(alerts: Alerts, newId: Uuid, tenant: Uuid, f: Finding): Alerts {
    if (DeriveDedupKey(f) != "" && Matches(alerts, tenant, DeriveDedupKey(f)) != {}) || newId in alerts then alerts
    else alerts[newId := NewAlert(tenant, f)]
  }

  function HandleAlert(library: Library, s: State, r: AlertRequest): State {
    match r
    case Ingest(newId, tenant, f) => s.(alerts := Ingested(s.alerts, newId, tenant, f))
    case Dismiss(id, reason) =>
      (var done := DismissedState(s, id, reason); if done.Ok? then done.value else s)
    case Promote(id, caseId, title, newCase) =>
      (var done := PromotedState(library, s, id, caseId, title, newCase); if done.Ok? then done.value else s)
  }

  function RunAlerts(library: Library, start: Db, rs: seq<AlertRequest>): State {
    if rs == [] then State(map[], start)
    else HandleAlert(library, RunAlerts(library, start, rs[..|rs| - 1]), rs[|rs| - 1])
  }

  predicate SameSlot(a: Alert, b: Alert) {
    && a.status == AlertPending && b.status == AlertPending
    && a.tenant == b.tenant && a.dedupKey == b.dedupKey
  }

  /** No two pending alerts of a tenant share a key. */
  ghost predicate OnePending(alerts: Alerts) {
    forall a, b :: a in alerts && b in alerts && a != b && SameSlot(alerts[a], alerts[b]) ==> alerts[a].dedupKey == ""
  }

  /** In every reachable state there is at most one pending alert per tenant and non-empty key. */
  lemma {:induction false} PendingKeysAreUnique(library: Library, start: Db, rs: seq<AlertRequest>)
    ensures OnePending(RunAlerts(library, start, rs).alerts)
    decreases |rs|
  {
    if rs != [] {
      var s := RunAlerts(library, start, rs[..|rs| - 1]);
      PendingKeysAreUnique(library, start, rs[..|rs| - 1]);
      var r := rs[|rs| - 1];
      if r.Ingest? {
        var key := DeriveDedupKey(r.f);
        forall a | a in s.alerts && s.alerts[a].status == AlertPending && s.alerts[a].tenant == r.tenant
          && s.alerts[a].dedupKey == key
          ensures a in Matches(s.alerts, r.tenant, key)
        {}
      }
    }
  }

  lemma AtMostOne<T>(s: set<T>)
    requires forall x, y :: x in s && y in s ==> x == y
    ensures |s| <= 1
  {
    if s != {} {
      var x :| x in s;
      assert s == {x};
    }
  }

  /** The schema's non-empty `uid` makes every derived key non-empty. */
  lemma DerivedKeyIsNonEmpty(f: Finding)
    requires f.uid != ""
    ensures DeriveDedupKey(f) != ""
    ensures DeriveDedupKey(f) == f.uid || f.dedupKey == Some(DeriveDedupKey(f)) || f.uidAlt == Some(DeriveDedupKey(f))
  {}

  /** The lookup is never ambiguous, and it finds an alert exactly when the payload duplicates one of the tenant;
      in that case the ingest changes nothing. */
  lemma IngestFindsDuplicates(library: Library, start: Db, rs: seq<AlertRequest>, newId: Uuid, tenant: Uuid, f: Finding)
    ensures var alerts := RunAlerts(library, start, rs).alerts; var key := DeriveDedupKey(f);
      && (key != "" ==> |Matches(alerts, tenant, key)| <= 1)
      && (key != "" && |Matches(alerts, tenant, key)| == 1 <==>
            exists a :: a in alerts && alerts[a].tenant == tenant && IsDuplicatePayload(f, alerts[a]))
      && ((exists a :: a in alerts && alerts[a].tenant == tenant && IsDuplicatePayload(f, alerts[a])) ==>
            Ingested(alerts, newId, tenant, f) == alerts)
  {
    var alerts := RunAlerts(library, start, rs).alerts;
    var key := DeriveDedupKey(f);
    var found := Matches(alerts, tenant, key);
    PendingKeysAreUnique(library, start, rs);
    if key != "" {
      AtMostOne(found);
      if |found| == 1 {
        var a :| a in found;
        assert IsDuplicatePayload(f, alerts[a]);
      }
      forall a | a in alerts && alerts[a].tenant == tenant && IsDuplicatePayload(f, alerts[a]) ensures a in found {}
    }
  }

  /** An alert that has left the pending state never returns to it, and keeps its tenant and key. */
  lemma {:induction false} NeverPendingAgain(library: Library, start: Db, rs: seq<AlertRequest>, more: seq<AlertRequest>, a: Uuid)
    requires a in RunAlerts(library, start, rs).alerts
    ensures var s, s' := RunAlerts(library, start, rs), RunAlerts(library, start, rs + more);
      && a in s'.alerts && s'.alerts[a].tenant == s.alerts[a].tenant && s'.alerts[a].dedupKey == s.alerts[a].dedupKey
      && (s.alerts[a].status != AlertPending ==> s'.alerts[a].status != AlertPending)
    decreases |more|
  {
    if more == [] {
      assert rs + more == rs;
    } else {
      assert (rs + more)[..|rs + more| - 1] == rs + more[..|more| - 1];
      NeverPendingAgain(library, start, rs, more[..|more| - 1], a);
    }
  }
}
