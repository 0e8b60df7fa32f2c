/**
 What the alert requests do, said field by field, and where promotions lead: an alert ends up in a case of its own tenant.
 */
module AlertLaws {
  import opened Wrappers
  import opened Validators
  import opened CaseService
  import opened Observables
  import opened Alerts

  // ---------- One request ----------

  /** An explicit key decides whenever it is not empty, then `uid_alt`, and `uid` only in the end. */
  lemma KeyPrecedence(f: Finding)
    ensures forall k: string :: k != "" && f.dedupKey == Some(k) ==> DeriveDedupKey(f) == k
    ensures forall k: string :: k != "" && (f.dedupKey == None || f.dedupKey == Some("")) && f.uidAlt == Some(k) ==>
      DeriveDedupKey(f) == k
    ensures (f.dedupKey == None || f.dedupKey == Some("")) && (f.uidAlt == None || f.uidAlt == Some("")) ==>
      DeriveDedupKey(f) == f.uid
  {}

  /** The types of OCSF observables that have a counterpart, but for hashes. */
  const OCSF_TYPES: map<int, ObservableType> :=
    map[1 := Hostname, 2 := Ip, 5 := Email, 6 := Url, 7 := Filename, 22 := Email, 23 := Url, 28 := RegistryKey]

  const HASH_TYPES: map<int, ObservableType> := map[32 := HashMd5, 40 := HashSha1, 64 := HashSha256]

  const TLP_NAMES: map<string, Tlp> := map["red" := Red, "amber" := Amber, "green" := Green, "clear" := Clear]

  /** Which observables of a finding can be mapped, and to what: a hash by the length of its value, any other by its type. */
  lemma MappableIff(raw: RawObservable)
    ensures var item := ToObservableCreate(raw);
      && (item.Some? <==>
            && raw.Raw? && raw.value.Some? && raw.value.value != "" && raw.typeId.Some?
            && if raw.typeId.value == 8 then |raw.value.value| in HASH_TYPES else raw.typeId.value in OCSF_TYPES)
      && (item.Some? ==>
            && item.value.value == raw.value.value && item.value.isIoc == raw.isIoc
            && item.value.kind
               == (if raw.typeId.value == 8 then HASH_TYPES[|raw.value.value|] else OCSF_TYPES[raw.typeId.value])
            && item.value.tlp
               == if raw.tlp.Some? && Lower(raw.tlp.value) in TLP_NAMES then Some(TLP_NAMES[Lower(raw.tlp.value)]) else None)
  {
    hide Lower;
  }

  /** Some pending alert of the tenant has the key, which is not empty. */
  ghost predicate Repeats(alerts: Alerts, tenant: Uuid, key: string) {
    key != "" && exists a :: a in alerts && alerts[a].status == AlertPending && alerts[a].tenant == tenant
                             && alerts[a].dedupKey == key
  }

  predicate OthersStay(alerts: Alerts, after: Alerts, id: Uuid) {
    after.Keys == alerts.Keys + {id} && forall a :: a in alerts && a != id ==> after[a] == alerts[a]
  }

  /** The alert that stands for a finding that was taken in. */
  ghost predicate Fresh(alert: Alert, tenant: Uuid, f: Finding) {
    && alert.tenant == tenant && alert.status == AlertPending && alert.dedupKey == DeriveDedupKey(f)
    && alert.title == f.title && alert.observables == f.observables
    && alert.payloadStatus == None && alert.dismissReason == None && alert.promotedTo == None
  }

  /** What a promotion asks of its target: an existing case of the alert's tenant, or a title and an unused id. */
  predicate MayPromote(s: State, id: Uuid, caseId: Option<Uuid>, title: Option<string>, newCase: Uuid) {
    && id in s.alerts
    && (caseId.Some? ==> caseId.value in s.db.cases && s.db.cases[caseId.value].tenant == s.alerts[id].tenant)
    && (caseId.None? ==> title.Some? && title.value != "" && newCase !in s.db.cases)
  }

  /** The database when the observables are copied: as before, or with the new case and its entry. */
  ghost predicate Opens(db: Db, initial: Db, tenant: Uuid, caseId: Option<Uuid>, title: Option<string>, newCase: Uuid) {
    && initial.observables == db.observables
    && (caseId.Some? ==> initial == db)
    && (caseId.None? ==>
          && initial.cases.Keys == db.cases.Keys + {newCase}
          && (forall c :: c in db.cases && c != newCase ==> initial.cases[c] == db.cases[c])
          && title.Some? && initial.cases[newCase] == Case(tenant, title.value, New, None, None, [], None, None)
          && initial.entries == db.entries + [Entry(tenant, newCase, CaseCreated, true)])
  }

  /** The alert is promoted into `target`, and the case has got the usable observables of the finding, each with its entry,
      and then the entry of the promotion. */
  ghost predicate Promotes(library: Library, s: State, after: State, id: Uuid, target: Uuid, initial: Db)
    requires id in s.alerts
  {
    var usable := Usable(library, s.alerts[id].observables);
    var t := s.alerts[id].tenant;
    && OthersStay(s.alerts, after.alerts, id)
    && after.alerts[id] == s.alerts[id].(status := Promoted, promotedTo := Some(target), payloadStatus := Some(2))
    && after.db.cases == initial.cases
    && AllValid(library, usable)
    && after.db.observables
       == initial.observables + seq(|usable|, i requires 0 <= i < |usable| => RowOf(library, t, target, usable[i]))
    && after.db.entries
       == initial.entries + seq(|usable|, i requires 0 <= i < |usable| => EntryOf(library, t, target, usable[i]))
          + [Entry(t, target, Other("alert_promoted"), true)]
  }

  ghost predicate Obeys(library: Library, s: State, r: AlertRequest, after: State) {
    match r
    case Ingest(newId, tenant, f) =>
      if newId !in s.alerts && !Repeats(s.alerts, tenant, DeriveDedupKey(f))
      then OthersStay(s.alerts, after.alerts, newId) && Fresh(after.alerts[newId], tenant, f) && after.db == s.db
      else after == s
    case Dismiss(id, reason) =>
      if id in s.alerts
      then && OthersStay(s.alerts, after.alerts, id) && after.db == s.db
           && after.alerts[id] == s.alerts[id].(status := Dismissed, dismissReason := Some(reason), payloadStatus := Some(3))
      else after == s
    case Promote(id, caseId, title, newCase) =>
      if MayPromote(s, id, caseId, title, newCase)
      then exists initial :: Opens(s.db, initial, s.alerts[id].tenant, caseId, title, newCase)
             && Promotes(library, s, after, id, if caseId.Some? then caseId.value else newCase, initial)
      else after == s
  }

  /** Every request, on every state. In particular a promotion into a given case fails exactly if the alert or the case does
      not exist, or their tenants differ. */
  lemma HandleObeys(library: Library, s: State, r: AlertRequest)
    ensures Obeys(library, s, r, HandleAlert(library, s, r))
  {
    match r
    case Ingest(newId, tenant, f) =>
      var key := DeriveDedupKey(f);
      assert Repeats(s.alerts, tenant, key) <==> key != "" && Matches(s.alerts, tenant, key) != {} by {
        if Repeats(s.alerts, tenant, key) {
          var a :| a in s.alerts && s.alerts[a].status == AlertPending && s.alerts[a].tenant == tenant
                   && s.alerts[a].dedupKey == key;
          assert a in Matches(s.alerts, tenant, key);
        }
        if Matches(s.alerts, tenant, key) != {} {
          var a :| a in Matches(s.alerts, tenant, key);
        }
      }
    case Dismiss(id, reason) =>
    case Promote(id, caseId, title, newCase) =>
      PromoteObeys(library, s, id, caseId, title, newCase);
  }

  lemma PromoteObeys(library: Library, s: State, id: Uuid, caseId: Option<Uuid>, title: Option<string>, newCase: Uuid)
    ensures Obeys(library, s, Promote(id, caseId, title, newCase),
                  HandleAlert(library, s, Promote(id, caseId, title, newCase)))
  {
    hide Copied, Usable, AllValid, RowOf, EntryOf;
    if MayPromote(s, id, caseId, title, newCase) {
      var (target, initial) := TargetCase(s.db, s.alerts[id].tenant, caseId, title, newCase).value;
      assert Opens(s.db, initial, s.alerts[id].tenant, caseId, title, newCase);
      PromotionAddsUsable(library, initial, target, s.alerts[id].observables);
      assert Promotes(library, s, HandleAlert(library, s, Promote(id, caseId, title, newCase)), id, target, initial);
    }
  }

  /** Which error a promotion that is refused reports. */
  lemma PromotionErrors(library: Library, s: State, id: Uuid, caseId: Option<Uuid>, title: Option<string>, newCase: Uuid, e: Error)
    ensures PromotedState(library, s, id, caseId, title, newCase) == Err(e) <==>
      if id !in s.alerts then e == NotFound
      else if caseId.Some? && caseId.value !in s.db.cases then e == NotFound
      else if caseId.Some? then s.db.cases[caseId.value].tenant != s.alerts[id].tenant && e == BadRequest
      else if title == None || title == Some("") then e == BadRequest
      else newCase in s.db.cases && e == Constraint
  {
    hide Copied;
  }

  // ---------- Runs ----------

  /** Every promoted alert names an existing case of its own tenant. */
  ghost predicate PromotedWithin(s: State) {
    forall a, c :: a in s.alerts && s.alerts[a].promotedTo == Some(c) ==>
      c in s.db.cases && s.db.cases[c].tenant == s.alerts[a].tenant
  }

  lemma HandleKeepsTenants(library: Library, s: State, r: AlertRequest)
    requires TenantsAgree(s.db) && PromotedWithin(s)
    ensures TenantsAgree(HandleAlert(library, s, r).db) && PromotedWithin(HandleAlert(library, s, r))
  {
    hide HandleAlert, TenantsAgree, Promotes, Opens;
    HandleObeys(library, s, r);
    var after := HandleAlert(library, s, r);
    if r.Promote? && MayPromote(s, r.id, r.caseId, r.title, r.newCase) {
      var target := if r.caseId.Some? then r.caseId.value else r.newCase;
      var initial :| Opens(s.db, initial, s.alerts[r.id].tenant, r.caseId, r.title, r.newCase)
        && Promotes(library, s, after, r.id, target, initial);
      PromotesWithin(library, s, after, r.id, target, initial, r.caseId, r.title, r.newCase);
    }
  }

  lemma PromotesWithin(library: Library, s: State, after: State, id: Uuid, target: Uuid, initial: Db,
                       caseId: Option<Uuid>, title: Option<string>, newCase: Uuid)
    requires TenantsAgree(s.db) && PromotedWithin(s) && MayPromote(s, id, caseId, title, newCase)
    requires Opens(s.db, initial, s.alerts[id].tenant, caseId, title, newCase)
    requires target == (if caseId.Some? then caseId.value else newCase)
    requires Promotes(library, s, after, id, target, initial)
    ensures TenantsAgree(after.db) && PromotedWithin(after)
  {
    hide Usable, AllValid;
    assert TenantsAgree(initial);
  }

  /** From rows that belong to cases of their own tenant, no run of ingests, dismissals and promotions puts a row or an alert
      into another tenant's case. */
  lemma {:induction false} PromotionsStayInTenant(library: Library, start: Db, rs: seq<AlertRequest>)
    requires TenantsAgree(start)
    ensures TenantsAgree(RunAlerts(library, start, rs).db) && PromotedWithin(RunAlerts(library, start, rs))
    decreases |rs|
  {
    hide HandleAlert, TenantsAgree;
    if rs != [] {
      PromotionsStayInTenant(library, start, rs[..|rs| - 1]);
      HandleKeepsTenants(library, RunAlerts(library, start, rs[..|rs| - 1]), rs[|rs| - 1]);
    }
  }
}
