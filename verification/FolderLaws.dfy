/**
 What the folder requests do, said field by field: a request changes what the client sent, and nothing else. Over runs,
 a field of a folder only changes through the requests that are meant to change it.
 */
module FolderLaws {
  import opened Wrappers
  import opened RowLevelSecurity
  import opened FolderForest

  // ---------- One request ----------

  predicate SeesFolder(m: Folders, c: TenantContext, id: Uuid) {
    id in m && (c.isPlatformAdmin || m[id].tenantId == c.tenant)
  }

  /** The case is there and visible, the parent too and of the same case, and the id is new. */
  predicate MayCreate(cases: map<Uuid, Tenant>, m: Folders, c: TenantContext, newId: Uuid, caseId: Uuid, parent: Option<Uuid>) {
    && caseId in cases && (c.isPlatformAdmin || cases[caseId] == c.tenant)
    && (parent.Some? ==> SeesFolder(m, c, parent.value) && m[parent.value].caseId == caseId)
    && newId !in m
  }

  /** The folder is visible, no null is sent for a column that takes none, and a parent that is sent exists and is not,
      as far as the caller can see, the folder or below it. */
  ghost predicate MayUpdate(m: Folders, c: TenantContext, id: Uuid, data: FolderUpdate) {
    && SeesFolder(m, c, id)
    && data.name != Some(None) && data.sortOrder != Some(None)
    && (data.parent.Some? && data.parent.value.Some? ==>
          data.parent.value.value in m && !WouldCycle(View(m, c), id, data.parent.value.value))
  }

  /** The folder is visible, and so are all its children. */
  predicate MayDelete(m: Folders, c: TenantContext, id: Uuid) {
    && SeesFolder(m, c, id)
    && forall x :: x in m && x != id && m[x].parent == Some(id) ==> SeesFolder(m, c, x)
  }

  predicate SameButFor(m: Folders, after: Folders, id: Uuid) {
    forall x :: x in m && x != id ==> x in after && after[x] == m[x]
  }

  ghost predicate Adds(m: Folders, after: Folders, row: Folder) {
    after.Keys == m.Keys + {row.id} && SameButFor(m, after, row.id) && after[row.id] == row
  }

  /** Each field is the one that was sent, or else the old one. */
  ghost predicate Changes(m: Folders, after: Folders, id: Uuid, data: FolderUpdate)
    requires id in m
  {
    && after.Keys == m.Keys && SameButFor(m, after, id)
    && after[id].id == m[id].id && after[id].tenantId == m[id].tenantId && after[id].caseId == m[id].caseId
    && (data.parent.Some? ==> after[id].parent == data.parent.value)
    && (data.parent.None? ==> after[id].parent == m[id].parent)
    && (data.name.Some? ==> Some(after[id].name) == data.name.value)
    && (data.name.None? ==> after[id].name == m[id].name)
    && (data.sortOrder.Some? ==> Some(after[id].sortOrder) == data.sortOrder.value)
    && (data.sortOrder.None? ==> after[id].sortOrder == m[id].sortOrder)
  }

  /** The folder goes; its children, and only they, lose their parent, and nothing but their parent. */
  ghost predicate Removes(m: Folders, after: Folders, id: Uuid) {
    && after.Keys == m.Keys - {id}
    && forall x :: x in after ==> after[x] == if m[x].parent == Some(id) then m[x].(parent := None) else m[x]
  }

  ghost predicate Obeys(cases: map<Uuid, Tenant>, m: Folders, r: Request, after: Folders) {
    match r.op
    case Create(newId, caseId, parent, name, sortOrder) =>
      if MayCreate(cases, m, r.caller, newId, caseId, parent)
      then Adds(m, after, Folder(newId, cases[caseId], caseId, parent, name, sortOrder))
      else after == m
    case Update(id, data) => if MayUpdate(m, r.caller, id, data) then Changes(m, after, id, data) else after == m
    case Delete(id) => if MayDelete(m, r.caller, id) then Removes(m, after, id) else after == m
  }

  /** Every request, of every caller, on every table. */
  lemma StepObeys(cases: map<Uuid, Tenant>, m: Folders, r: Request)
    ensures Obeys(cases, m, r, Step(cases, m, r))
  {
    hide WouldCycle;
    match r.op
    case Create(newId, caseId, parent, name, sortOrder) =>
    case Update(id, data) =>
    case Delete(id) =>
      if HasHiddenChild(m, r.caller, id) {
        var x :| x in m && x != id && m[x].parent == Some(id) && !Sees(r.caller, m[x].tenantId);
        assert !SeesFolder(m, r.caller, x);
      }
  }

  /** Which error a request that is refused reports: what the caller does not see is not found, a parent of another case and
      a cycle are bad requests, and the database refuses the rest. */
  lemma ErrorsTell(cases: map<Uuid, Tenant>, m: Folders, c: TenantContext, id: Uuid, caseId: Uuid, parent: Option<Uuid>,
                   name: string, sortOrder: int, data: FolderUpdate, e: Error)
    ensures CreateRow(cases, m, c, id, caseId, parent, name, sortOrder) == Err(e) <==>
      if caseId !in cases || !(c.isPlatformAdmin || cases[caseId] == c.tenant) then e == NotFound
      else if parent.Some? && !SeesFolder(m, c, parent.value) then e == NotFound
      else if parent.Some? && m[parent.value].caseId != caseId then e == BadRequest
      else id in m && e == Constraint
    ensures UpdatedRow(m, c, id, data) == Err(e) <==>
      if !SeesFolder(m, c, id) then e == NotFound
      else if data.parent.Some? && data.parent.value.Some? && WouldCycle(View(m, c), id, data.parent.value.value)
      then e == BadRequest
      else !MayUpdate(m, c, id, data) && e == Constraint
    ensures DeletedRows(m, c, id) == Err(e) <==>
      if !SeesFolder(m, c, id) then e == NotFound else !MayDelete(m, c, id) && e == Constraint
  {
    hide WouldCycle;
    if HasHiddenChild(m, c, id) {
      var x :| x in m && x != id && m[x].parent == Some(id) && !Sees(c, m[x].tenantId);
      assert !SeesFolder(m, c, x);
    }
  }

  // ---------- Runs ----------

  /** The request sends a parent for the folder, or deletes it or its parent. */
  predicate MeantForParent(m: Folders, r: Request, x: Uuid)
    requires x in m
  {
    match r.op
    case Create(_, _, _, _, _) => false
    case Update(id, data) => id == x && data.parent.Some?
    case Delete(id) => id == x || m[x].parent == Some(id)
  }

  predicate MeantForName(r: Request, x: Uuid) {
    match r.op
    case Create(_, _, _, _, _) => false
    case Update(id, data) => id == x && data.name.Some?
    case Delete(id) => id == x
  }

  predicate MeantForSortOrder(r: Request, x: Uuid) {
    match r.op
    case Create(_, _, _, _, _) => false
    case Update(id, data) => id == x && data.sortOrder.Some?
    case Delete(id) => id == x
  }

  ghost predicate NoneMeantForParent(cases: map<Uuid, Tenant>, m: Folders, rs: seq<Request>, x: Uuid)
    decreases |rs|
  {
    rs != [] && x in m ==>
      !MeantForParent(m, rs[0], x) && NoneMeantForParent(cases, Step(cases, m, rs[0]), rs[1..], x)
  }

  /** The parent of a folder only changes through an update of the folder that sends one, or the deletion of its parent. */
  lemma {:induction false} ParentStays(cases: map<Uuid, Tenant>, m: Folders, rs: seq<Request>, x: Uuid)
    requires x in m && NoneMeantForParent(cases, m, rs, x)
    ensures x in Run(cases, m, rs) && Run(cases, m, rs)[x].parent == m[x].parent
    decreases |rs|
  {
    hide Step, WouldCycle;
    if rs != [] {
      StepObeys(cases, m, rs[0]);
      ParentStays(cases, Step(cases, m, rs[0]), rs[1..], x);
    }
  }

  /** The name only changes through an update that sends one. */
  lemma {:induction false} NameStays(cases: map<Uuid, Tenant>, m: Folders, rs: seq<Request>, x: Uuid)
    requires x in m && forall i :: 0 <= i < |rs| ==> !MeantForName(rs[i], x)
    ensures x in Run(cases, m, rs) && Run(cases, m, rs)[x].name == m[x].name
    decreases |rs|
  {
    hide Step, WouldCycle;
    if rs != [] {
      assert !MeantForName(rs[0], x);
      StepObeys(cases, m, rs[0]);
      NameStays(cases, Step(cases, m, rs[0]), rs[1..], x);
    }
  }

  /** So does the sort order. */
  lemma {:induction false} SortOrderStays(cases: map<Uuid, Tenant>, m: Folders, rs: seq<Request>, x: Uuid)
    requires x in m && forall i :: 0 <= i < |rs| ==> !MeantForSortOrder(rs[i], x)
    ensures x in Run(cases, m, rs) && Run(cases, m, rs)[x].sortOrder == m[x].sortOrder
    decreases |rs|
  {
    hide Step, WouldCycle;
    if rs != [] {
      assert !MeantForSortOrder(rs[0], x);
      StepObeys(cases, m, rs[0]);
      SortOrderStays(cases, Step(cases, m, rs[0]), rs[1..], x);
    }
  }

  /** Nothing moves a folder to another case or tenant, or changes its id, and only its deletion removes it. */
  lemma {:induction false} IdentityStays(cases: map<Uuid, Tenant>, m: Folders, rs: seq<Request>, x: Uuid)
    requires x in m && forall i :: 0 <= i < |rs| ==> rs[i].op != Delete(x)
    ensures x in Run(cases, m, rs)
    ensures var row := Run(cases, m, rs)[x];
      row.id == m[x].id && row.tenantId == m[x].tenantId && row.caseId == m[x].caseId
    decreases |rs|
  {
    hide Step, WouldCycle;
    if rs != [] {
      assert rs[0].op != Delete(x);
      StepObeys(cases, m, rs[0]);
      IdentityStays(cases, Step(cases, m, rs[0]), rs[1..], x);
    }
  }
}
