/**
 The note folder service: folders point to their parent, and a move is refused when it would close a cycle.
 The parent relation is a map, so it can hold any graph with at most one parent per folder, corrupted or not.
 Row-level security narrows every look-up to the rows the caller sees, while the database checks the foreign key
 against the whole table. So each tenant keeps a forest of its own rows; the whole table need not stay one.
 */
module FolderForest {
  import opened Wrappers
  import opened RowLevelSecurity

  datatype Folder = Folder(id: Uuid, tenantId: Uuid, caseId: Uuid, parent: Option<Uuid>, name: string, sortOrder: int)

  type Folders = map<Uuid, Folder>

  /** The parent column of the row `x`, or `None` when there is no such row. */
  function ParentOf(m: Folders, x: Uuid): Option<Uuid> {
    if x in m then m[x].parent else None
  }

  // ---------- Walking upward ----------

  /** The folder reached from `x` after `n` steps to the parent, if the walk lasts that long. */
  ghost function Up(m: Folders, x: Uuid, n: nat): Option<Uuid>
    decreases n
  {
    if n == 0 then Some(x)
    else match ParentOf(m, x)
         case None => None
         case Some(p) => Up(m, p, n - 1)
  }

  /** No folder is a proper ancestor of itself. */
  ghost predicate Acyclic(m: Folders) {
    forall x: Uuid, n: nat :: 0 < n ==> Up(m, x, n) != Some(x)
  }

  /** Every parent column names an existing row (the foreign key of the table). */
  ghost predicate Closed(m: Folders) {
    forall x: Uuid :: x in m && m[x].parent.Some? ==> m[x].parent.value in m
  }

  ghost predicate AncestorOrSelf(m: Folders, a: Uuid, x: Uuid) {
    exists k: nat :: Up(m, x, k) == Some(a)
  }

  ghost predicate Above(m: Folders, a: Uuid, x: Uuid) {
    exists k: nat :: 0 < k && Up(m, x, k) == Some(a)
  }

  /** The walk from `x` never reaches a folder without a parent. */
  ghost predicate Endless(m: Folders, x: Uuid) {
    forall k: nat :: Up(m, x, k).Some?
  }

  lemma {:induction false} UpAdds(m: Folders, x: Uuid, i: nat, j: nat)
    requires Up(m, x, i).Some?
    ensures Up(m, x, i + j) == Up(m, Up(m, x, i).value, j)
    decreases i
  {
    if i > 0 {
      UpAdds(m, ParentOf(m, x).value, i - 1, j);
    }
  }

  /** A walk that stops before step `n` has no step `n`. */
  lemma UpStops(m: Folders, x: Uuid, i: nat, n: nat)
    requires i <= n && Up(m, x, n).Some?
    ensures Up(m, x, i).Some?
    decreases i
  {
    if i > 0 {
      UpStops(m, ParentOf(m, x).value, i - 1, n - 1);
    }
  }

  /** A walk that comes back to a folder it has visited never ends. */
  lemma {:induction false} RevisitIsEndless(m: Folders, x: Uuid, i: nat, j: nat)
    requires i < j && Up(m, x, i).Some? && Up(m, x, i) == Up(m, x, j)
    ensures Endless(m, x)
  {
    var y := Up(m, x, i).value;
    UpAdds(m, x, i, j - i);
    forall k: nat ensures Up(m, x, k).Some? {
      LoopIsLong(m, y, j - i, k);
      if k >= i {
        UpAdds(m, x, i, k - i);
        LoopIsLong(m, y, j - i, k - i);
      } else {
        UpStops(m, x, k, i);
      }
    }
  }

  lemma {:induction false} LoopIsLong(m: Folders, y: Uuid, period: nat, k: nat)
    requires 0 < period && Up(m, y, period) == Some(y)
    ensures Up(m, y, k).Some?
    decreases k
  {
    if k <= period {
      UpStops(m, y, k, period);
    } else {
      UpAdds(m, y, period, k - period);
      LoopIsLong(m, y, period, k - period);
    }
  }

  // ---------- Acyclic graphs are forests ----------

  /** `x` is a row, and `d` steps lead from it to a row whose parent is absent from `m`. */
  ghost predicate RootAt(m: Folders, x: Uuid, d: nat)
    decreases d
  {
    x in m &&
    if IsRoot(m, x) then d == 0 else d > 0 && RootAt(m, m[x].parent.value, d - 1)
  }

  predicate IsRoot(m: Folders, x: Uuid)
    requires x in m
  {
    m[x].parent.None? || m[x].parent.value !in m
  }

  ghost predicate Rooted(m: Folders, x: Uuid) {
    exists d: nat :: RootAt(m, x, d)
  }

  ghost predicate RootWithin(m: Folders, x: Uuid, d: nat) {
    exists e: nat :: e <= d && RootAt(m, x, e)
  }

  lemma {:induction false} RootAtIsUnique(m: Folders, x: Uuid, d: nat, e: nat)
    requires RootAt(m, x, d) && RootAt(m, x, e)
    ensures d == e
    decreases d
  {
    if d > 0 {
      RootAtIsUnique(m, m[x].parent.value, d - 1, e - 1);
    }
  }

  /** `below` holds folders from which the walk passes through `x`. */
  lemma {:induction false} AcyclicIsRooted(m: Folders, x: Uuid, below: set<Uuid>)
    requires Acyclic(m) && x in m && below <= m.Keys
    requires forall y: Uuid :: y in below ==> Above(m, x, y)
    ensures Rooted(m, x)
    decreases m.Keys - below
  {
    assert x !in below;
    if IsRoot(m, x) {
      assert RootAt(m, x, 0);
    } else {
      var p := m[x].parent.value;
      var more := below + {x};
      forall y: Uuid | y in more ensures Above(m, p, y) {
        assert Up(m, x, 1) == Some(p) by { assert Up(m, p, 0) == Some(p); }
        if y in below {
          var k: nat :| 0 < k && Up(m, y, k) == Some(x);
          UpAdds(m, y, k, 1);
          assert Up(m, y, k + 1) == Some(p);
        }
      }
      assert m.Keys - more < m.Keys - below by { assert x in m.Keys - below && x !in m.Keys - more; }
      AcyclicIsRooted(m, p, more);
      var d: nat :| RootAt(m, p, d);
      assert RootAt(m, x, d + 1);
    }
  }

  /** The converse: a rooted folder lies on no cycle. */
  lemma {:induction false} RootedHasNoCycle(m: Folders, x: Uuid, d: nat, n: nat)
    requires RootAt(m, x, d) && 0 < n
    ensures Up(m, x, n) != Some(x)
  {
    if Up(m, x, n) == Some(x) {
      DepthAfter(m, x, d, n);
      RootAtIsUnique(m, x, d, d - n);
    }
  }

  lemma {:induction false} DepthAfter(m: Folders, x: Uuid, d: nat, n: nat)
    requires RootAt(m, x, d) && Up(m, x, n).Some? && Up(m, x, n).value in m
    ensures n <= d && RootAt(m, Up(m, x, n).value, d - n)
    decreases n
  {
    if n > 0 {
      if d == 0 {
        assert false;
      } else {
        DepthAfter(m, m[x].parent.value, d - 1, n - 1);
      }
    }
  }

  /** A map of rows is acyclic exactly when every row of it hangs below a root. */
  lemma AcyclicIffAllRooted(m: Folders)
    ensures Acyclic(m) <==> forall x: Uuid :: x in m ==> Rooted(m, x)
  {
    if Acyclic(m) {
      forall x: Uuid | x in m ensures Rooted(m, x) { AcyclicIsRooted(m, x, {}); }
    }
    if forall x: Uuid :: x in m ==> Rooted(m, x) {
      forall x: Uuid, n: nat | 0 < n ensures Up(m, x, n) != Some(x) {
        if x in m {
          var d: nat :| RootAt(m, x, d);
          RootedHasNoCycle(m, x, d, n);
        }
      }
    }
  }

  /** A folder at depth `d` has `d` other folders above it, so depths stay below the number of rows. */
  lemma {:induction false} DepthBound(m: Folders, x: Uuid, d: nat) returns (line: set<Uuid>)
    requires RootAt(m, x, d)
    ensures line <= m.Keys && |line| == d + 1 && d < |m|
    ensures forall y: Uuid :: y in line ==> RootWithin(m, y, d)
    decreases d
  {
    if d == 0 {
      line := {x};
      assert RootAt(m, x, 0);
    } else {
      var above := DepthBound(m, m[x].parent.value, d - 1);
      if x in above {
        var e: nat :| e <= d - 1 && RootAt(m, x, e);
        RootAtIsUnique(m, x, d, e);
      }
      line := above + {x};
    }
    SubsetSize(line, m.Keys);
  }

  lemma SubsetSize<T>(a: set<T>, b: set<T>)
    requires a <= b
    ensures |a| <= |b|
  {
    if a != {} {
      var x :| x in a;
      SubsetSize(a - {x}, b - {x});
    }
  }

  // ---------- The cycle check ----------

  /** What `_would_create_cycle` decides on any graph. */
  ghost predicate WouldCycle(m: Folders, folder: Uuid, newParent: Uuid) {
    AncestorOrSelf(m, folder, newParent) || Endless(m, newParent)
  }

  /** On a forest the second half never applies. */
  lemma WouldCycleOnForest(m: Folders, folder: Uuid, newParent: Uuid)
    requires Acyclic(m)
    ensures WouldCycle(m, folder, newParent) <==> AncestorOrSelf(m, folder, newParent)
  {
    if newParent !in m {
      assert Up(m, newParent, 1) == None;
    } else {
      AcyclicIsRooted(m, newParent, {});
      var d: nat :| RootAt(m, newParent, d);
      RootedWalkEnds(m, newParent, d);
    }
  }

  lemma {:induction false} RootedWalkEnds(m: Folders, x: Uuid, d: nat)
    requires RootAt(m, x, d)
    ensures Up(m, x, d + 2) == None
    decreases d
  {
    if d > 0 {
      RootedWalkEnds(m, m[x].parent.value, d - 1);
    } else if m[x].parent.Some? {
      assert Up(m, m[x].parent.value, 1) == None;
    }
  }

  /** Walking in the graph after the move: a walk that reaches `y` either did so before, or passes through `f`. */
  lemma {:induction false} WalkAfterMove(m: Folders, m': Folders, f: Uuid, x: Uuid, n: nat) returns (i: nat)
    requires f in m && f in m' && m'.Keys == m.Keys
    requires forall z: Uuid :: z in m && z != f ==> m'[z].parent == m[z].parent
    ensures i <= n
    ensures Up(m', x, n) == Up(m, x, n) || (i < n && Up(m', x, i) == Some(f) && Up(m, x, i) == Some(f))
    decreases n
  {
    i := n;
    if n > 0 {
      if x == f {
        i := 0;
      } else if ParentOf(m, x).Some? {
        var j := WalkAfterMove(m, m', f, ParentOf(m, x).value, n - 1);
        i := j + 1;
      }
    }
  }

  /** Giving `f` the parent `p` keeps a forest exactly when `f` is not `p` or above it. */
  lemma EdgeKeepsForestIff(m: Folders, m': Folders, f: Uuid, p: Uuid)
    requires Acyclic(m) && f in m && m'.Keys == m.Keys && m'[f].parent == Some(p)
    requires forall z: Uuid :: z in m && z != f ==> m'[z].parent == m[z].parent
    ensures Acyclic(m') <==> !AncestorOrSelf(m, f, p)
  {
    if AncestorOrSelf(m, f, p) {
      var k: nat :| Up(m, p, k) == Some(f);
      var i := WalkAfterMove(m, m', f, p, k);
      var s := if Up(m', p, k) == Some(f) then k else i;
      assert Up(m', f, s + 1) == Some(f);
    } else if !Acyclic(m') {
      var x: Uuid, n: nat :| 0 < n && Up(m', x, n) == Some(x);
      var i := WalkAfterMove(m, m', f, x, n);
      // the cycle passes through f, and can be started there
      UpAdds(m', x, i, n - i);
      UpAdds(m', x, n, i);
      UpAdds(m', f, n - i, i);
      assert Up(m', f, n) == Some(f);
      assert Up(m', p, n - 1) == Some(f);
      var j := WalkAfterMove(m, m', f, p, n - 1);
      assert AncestorOrSelf(m, f, p);
    }
  }

  lemma DetachKeepsForest(m: Folders, m': Folders)
    requires Acyclic(m)
    requires m'.Keys <= m.Keys
    requires forall z: Uuid :: z in m' ==> m'[z].parent == m[z].parent || m'[z].parent == None
    ensures Acyclic(m')
  {
    forall x: Uuid, n: nat | 0 < n ensures Up(m', x, n) != Some(x) {
      if Up(m', x, n) == Some(x) { FewerEdges(m, m', x, n); }
    }
  }

  lemma {:induction false} FewerEdges(m: Folders, m': Folders, x: Uuid, n: nat)
    requires forall z: Uuid :: z in m' ==> z in m && (m'[z].parent == m[z].parent || m'[z].parent == None)
    requires Up(m', x, n).Some?
    ensures Up(m, x, n) == Up(m', x, n)
    decreases n
  {
    if n > 0 { FewerEdges(m, m', ParentOf(m', x).value, n - 1); }
  }

  lemma {:induction false} CreateKeepsForest(m: Folders, row: Folder)
    requires Acyclic(m) && row.id !in m && row.parent != Some(row.id)
    requires forall z: Uuid :: z in m ==> m[z].parent != Some(row.id)
    ensures Acyclic(m[row.id := row])
  {
    var m' := m[row.id := row];
    forall x: Uuid | x in m ensures Rooted(m', x) {
      AcyclicIsRooted(m, x, {});
      var d: nat :| RootAt(m, x, d);
      RootStays(m, row, x, d);
    }
    if row.parent.Some? && row.parent.value in m {
      var d: nat :| RootAt(m', row.parent.value, d);
      assert RootAt(m', row.id, d + 1);
    } else {
      assert RootAt(m', row.id, 0);
    }
    AcyclicIffAllRooted(m');
  }

  lemma {:induction false} RootStays(m: Folders, row: Folder, x: Uuid, d: nat)
    requires row.id !in m && RootAt(m, x, d)
    requires forall z: Uuid :: z in m ==> m[z].parent != Some(row.id)
    ensures RootAt(m[row.id := row], x, d)
    decreases d
  {
    if d > 0 { RootStays(m, row, m[x].parent.value, d - 1); }
  }

  // ---------- What a caller sees ----------

  predicate Sees(c: TenantContext, tenant: Tenant) {
    c.isPlatformAdmin || tenant == c.tenant
  }

  /** This is what the policies of folders and cases admit, on every connection that the pool hands out. */
  lemma SeesByPolicy(s: Settings, c: TenantContext, tenant: Tenant)
    requires !s.tenant.Set? && !s.admin.Set?
    ensures Sees(c, tenant) <==> Visible(Scoped(s, c), NoteFolders, Some(tenant))
    ensures Sees(c, tenant) <==> Visible(Scoped(s, c), Table.Cases, Some(tenant))
  {}

  function OfTenant(m: Folders, t: Tenant): Folders {
    map x | x in m && m[x].tenantId == t :: m[x]
  }

  /** The rows that a query of the caller reads. */
  function View(m: Folders, c: TenantContext): (v: Folders)
    ensures forall x: Uuid :: x in v <==> x in m && Sees(c, m[x].tenantId)
    ensures forall x: Uuid :: x in v ==> v[x] == m[x]
  {
    if c.isPlatformAdmin then m else OfTenant(m, c.tenant)
  }

  // ---------- Requests ----------

  /** An update carries only the fields the client set: `None` is "not sent", `Some(None)` is an explicit null. */
  datatype FolderUpdate =
    FolderUpdate(parent: Option<Option<Uuid>>, name: Option<Option<string>>, sortOrder: Option<Option<int>>)

  predicate SetsParent(data: FolderUpdate) {
    data.parent.Some? && data.parent.value.Some?
  }

  /** The row that `create_folder` adds, or the error it raises. `cases` maps every case to its tenant. */
  function CreateRow(cases: map<Uuid, Tenant>, m: Folders, c: TenantContext, newId: Uuid, caseId: Uuid,
                     parent: Option<Uuid>, name: string, sortOrder: int): Result<Folder>
  {
    if caseId !in cases || !Sees(c, cases[caseId]) then Err(NotFound)
    else if parent.Some? && parent.value !in View(m, c) then Err(NotFound)
    else if parent.Some? && m[parent.value].caseId != caseId then Err(BadRequest)
    else if newId in m then Err(Constraint)
    else Ok(Folder(newId, cases[caseId], caseId, parent, name, sortOrder))
  }

  /** The row that `update_folder` leaves, or the error it raises. The check walks over the visible rows, the foreign key
      looks at all rows. The name and the sort order are NOT NULL columns. */
  ghost function UpdatedRow(m: Folders, c: TenantContext, id: Uuid, data: FolderUpdate): Result<Folder> {
    if id !in View(m, c) then Err(NotFound)
    else if SetsParent(data) && WouldCycle(View(m, c), id, data.parent.value.value) then Err(BadRequest)
    else if data.name == Some(None) || data.sortOrder == Some(None) then Err(Constraint)
    else if SetsParent(data) && data.parent.value.value !in m then Err(Constraint)
    else
      var row := m[id];
      Ok(row.(parent := if data.parent.Some? then data.parent.value else row.parent,
              name := if data.name.Some? then data.name.value.value else row.name,
              sortOrder := if data.sortOrder.Some? then data.sortOrder.value.value else row.sortOrder))
  }

  /** Without the folder, and with its children as roots. */
  function Detached(m: Folders, id: Uuid): Folders {
    map x | x in m && x != id :: if m[x].parent == Some(id) then m[x].(parent := None) else m[x]
  }

  predicate HasHiddenChild(m: Folders, c: TenantContext, id: Uuid) {
    exists x :: x in m && x != id && m[x].parent == Some(id) && !Sees(c, m[x].tenantId)
  }

  /** Deleting a folder detaches the children that the caller sees; any other child still refers to the folder, so the
      foreign key refuses. */
  function DeletedRows(m: Folders, c: TenantContext, id: Uuid): Result<Folders> {
    if id !in View(m, c) then Err(NotFound)
    else if HasHiddenChild(m, c, id) then Err(Constraint)
    else Ok(Detached(m, id))
  }

  datatype Operation =
    | Create(newId: Uuid, caseId: Uuid, parent: Option<Uuid>, name: string, sortOrder: int)
    | Update(id: Uuid, data: FolderUpdate)
    | Delete(id: Uuid)

  datatype Request = Request(caller: TenantContext, op: Operation)

  /** The folders after one request; a request that fails is rolled back. */
  ghost function Step(cases: map<Uuid, Tenant>, m: Folders, r: Request): Folders {
    match r.op
    case Create(newId, caseId, parent, name, sortOrder) =>
      (var row := CreateRow(cases, m, r.caller, newId, caseId, parent, name, sortOrder);
       if row.Ok? then m[newId := row.value] else m)
    case Update(id, data) =>
      (var row := UpdatedRow(m, r.caller, id, data);
       if row.Ok? then m[id := row.value] else m)
    case Delete(id) =>
      (var rows := DeletedRows(m, r.caller, id);
       if rows.Ok? then rows.value else m)
  }

  ghost function Run(cases: map<Uuid, Tenant>, m: Folders, rs: seq<Request>): Folders
    decreases |rs|
  {
    if rs == [] then m else Run(cases, Step(cases, m, rs[0]), rs[1..])
  }

  // ---------- Every tenant keeps a forest ----------

  /** The rows of each tenant form a forest; no parent dangles; each folder has the tenant of its case. */
  ghost predicate Inv(cases: map<Uuid, Tenant>, m: Folders) {
    && (forall t: Tenant :: Acyclic(OfTenant(m, t)))
    && Closed(m)
    && (forall x: Uuid :: x in m ==> m[x].caseId in cases && m[x].tenantId == cases[m[x].caseId])
  }

  lemma CreateKeepsInv(cases: map<Uuid, Tenant>, m: Folders, row: Folder)
    requires Inv(cases, m) && row.id !in m
    requires row.caseId in cases && row.tenantId == cases[row.caseId]
    requires row.parent.Some? ==> row.parent.value in m
    ensures Inv(cases, m[row.id := row])
  {
    var m' := m[row.id := row];
    forall t: Tenant ensures Acyclic(OfTenant(m', t)) {
      if t == row.tenantId {
        CreateKeepsForest(OfTenant(m, t), row);
        assert OfTenant(m', t) == OfTenant(m, t)[row.id := row];
      } else {
        assert OfTenant(m', t) == OfTenant(m, t);
      }
    }
  }

  lemma UpdateKeepsInv(cases: map<Uuid, Tenant>, m: Folders, c: TenantContext, id: Uuid, data: FolderUpdate)
    requires Inv(cases, m) && UpdatedRow(m, c, id, data).Ok?
    ensures Inv(cases, m[id := UpdatedRow(m, c, id, data).value])
  {
    hide Acyclic, WouldCycle, OfTenant;
    var m' := m[id := UpdatedRow(m, c, id, data).value];
    forall t: Tenant ensures Acyclic(OfTenant(m', t)) {
      UpdateKeepsForest(m, c, id, data, t);
    }
  }

  lemma UpdateKeepsForest(m: Folders, c: TenantContext, id: Uuid, data: FolderUpdate, t: Tenant)
    requires Acyclic(OfTenant(m, t)) && UpdatedRow(m, c, id, data).Ok?
    ensures Acyclic(OfTenant(m[id := UpdatedRow(m, c, id, data).value], t))
  {
    hide Acyclic, WouldCycle, AncestorOrSelf;
    var row := UpdatedRow(m, c, id, data).value;
    var m' := m[id := row];
    if t != row.tenantId {
      assert OfTenant(m', t) == OfTenant(m, t);
    } else if SetsParent(data) {
      CheckGuardsTenant(m, c, id, data.parent.value.value);
      EdgeKeepsForestIff(OfTenant(m, t), OfTenant(m', t), id, data.parent.value.value);
    } else {
      DetachKeepsForest(OfTenant(m, t), OfTenant(m', t));
    }
  }

  /** What the check excludes among the rows the caller sees, it excludes among the rows of the folder's tenant. */
  lemma CheckGuardsTenant(m: Folders, c: TenantContext, id: Uuid, p: Uuid)
    requires id in View(m, c) && !WouldCycle(View(m, c), id, p)
    ensures !AncestorOrSelf(OfTenant(m, m[id].tenantId), id, p)
  {
    var own := OfTenant(m, m[id].tenantId);
    if AncestorOrSelf(own, id, p) {
      var k: nat :| Up(own, p, k) == Some(id);
      FewerEdges(View(m, c), own, p, k);
    }
  }

  lemma DeleteKeepsInv(cases: map<Uuid, Tenant>, m: Folders, id: Uuid)
    requires Inv(cases, m)
    ensures Inv(cases, Detached(m, id))
  {
    forall t: Tenant ensures Acyclic(OfTenant(Detached(m, id), t)) {
      DetachKeepsForest(OfTenant(m, t), OfTenant(Detached(m, id), t));
    }
  }

  lemma StepKeepsInv(cases: map<Uuid, Tenant>, m: Folders, r: Request)
    ensures Inv(cases, m) ==> Inv(cases, Step(cases, m, r))
  {
    hide Inv, WouldCycle;
    if Inv(cases, m) {
      match r.op
      case Create(newId, caseId, parent, name, sortOrder) =>
        var row := CreateRow(cases, m, r.caller, newId, caseId, parent, name, sortOrder);
        if row.Ok? { CreateKeepsInv(cases, m, row.value); }
      case Update(id, data) =>
        if UpdatedRow(m, r.caller, id, data).Ok? { UpdateKeepsInv(cases, m, r.caller, id, data); }
      case Delete(id) =>
        DeleteKeepsInv(cases, m, id);
    }
  }

  /** Whatever requests arrive, from whatever callers and in whatever order: the folders of every tenant remain a
      forest, and no parent dangles. */
  lemma {:induction false} RunKeepsForests(cases: map<Uuid, Tenant>, m: Folders, rs: seq<Request>)
    requires Inv(cases, m)
    ensures Inv(cases, Run(cases, m, rs))
    decreases |rs|
  {
    hide Inv;
    if rs != [] {
      StepKeepsInv(cases, m, rs[0]);
      RunKeepsForests(cases, Step(cases, m, rs[0]), rs[1..]);
    }
  }

  // ---------- The whole table ----------

  /** Among the rows the caller sees, the check lets a move through exactly when they remain a forest. */
  lemma MoveKeepsViewIff(m: Folders, c: TenantContext, id: Uuid, p: Uuid)
    requires id in View(m, c) && Acyclic(View(m, c))
    ensures Acyclic(View(m[id := m[id].(parent := Some(p))], c)) <==> !WouldCycle(View(m, c), id, p)
  {
    WouldCycleOnForest(View(m, c), id, p);
    EdgeKeepsForestIff(View(m, c), View(m[id := m[id].(parent := Some(p))], c), id, p);
  }

  /** A request leaves the whole table acyclic exactly when it is not a move, let through, of a folder that is in fact the
      new parent or above it. */
  lemma StepKeepsTableIff(cases: map<Uuid, Tenant>, m: Folders, r: Request)
    requires Acyclic(m) && Closed(m)
    ensures Acyclic(Step(cases, m, r)) <==>
      !(r.op.Update? && SetsParent(r.op.data) && UpdatedRow(m, r.caller, r.op.id, r.op.data).Ok?
        && AncestorOrSelf(m, r.op.id, r.op.data.parent.value.value))
  {
    match r.op
    case Create(newId, caseId, parent, name, sortOrder) =>
      var row := CreateRow(cases, m, r.caller, newId, caseId, parent, name, sortOrder);
      if row.Ok? { CreateKeepsForest(m, row.value); }
    case Update(id, data) =>
      var row := UpdatedRow(m, r.caller, id, data);
      if row.Ok? {
        if SetsParent(data) {
          EdgeKeepsForestIff(m, m[id := row.value], id, data.parent.value.value);
        } else {
          DetachKeepsForest(m, m[id := row.value]);
        }
      }
    case Delete(id) =>
      DetachKeepsForest(m, Detached(m, id));
  }

  /** No folder lies under a folder of another tenant. */
  ghost predicate Apart(m: Folders) {
    forall x: Uuid :: x in m && m[x].parent.Some? && m[x].parent.value in m ==>
      m[m[x].parent.value].tenantId == m[x].tenantId
  }

  lemma {:induction false} UpApart(m: Folders, t: Tenant, x: Uuid, n: nat)
    requires Apart(m) && (x in m ==> m[x].tenantId == t)
    ensures Up(OfTenant(m, t), x, n) == Up(m, x, n)
    decreases n
  {
    if n > 0 && ParentOf(m, x).Some? {
      UpApart(m, t, ParentOf(m, x).value, n - 1);
    }
  }

  /** Tenants that are kept apart make a forest together exactly when each of them makes one. */
  lemma ApartIsForestIff(m: Folders)
    requires Apart(m)
    ensures Acyclic(m) <==> forall t: Tenant :: Acyclic(OfTenant(m, t))
  {
    if Acyclic(m) {
      forall t: Tenant ensures Acyclic(OfTenant(m, t)) { DetachKeepsForest(m, OfTenant(m, t)); }
    }
    if forall t: Tenant :: Acyclic(OfTenant(m, t)) {
      forall x: Uuid, n: nat | 0 < n ensures Up(m, x, n) != Some(x) {
        if x in m { UpApart(m, m[x].tenantId, x, n); }
      }
    }
  }

  /** The request puts no folder under one of another tenant. */
  predicate StaysApart(m: Folders, r: Request) {
    r.op.Update? && SetsParent(r.op.data) && r.op.id in m && r.op.data.parent.value.value in m ==>
      m[r.op.data.parent.value.value].tenantId == m[r.op.id].tenantId
  }

  /** For a caller that is no administrator this means that it sees the new parent. */
  lemma VisibleParentStaysApart(m: Folders, c: TenantContext, id: Uuid, data: FolderUpdate)
    requires !c.isPlatformAdmin && id in View(m, c) && SetsParent(data) && data.parent.value.value in m
    ensures StaysApart(m, Request(c, Update(id, data))) <==> data.parent.value.value in View(m, c)
  {}

  ghost predicate RunStaysApart(cases: map<Uuid, Tenant>, m: Folders, rs: seq<Request>)
    decreases |rs|
  {
    rs != [] ==> StaysApart(m, rs[0]) && RunStaysApart(cases, Step(cases, m, rs[0]), rs[1..])
  }

  /** A run that puts no folder under one of another tenant keeps the whole table a forest. */
  lemma {:induction false} RunKeepsTable(cases: map<Uuid, Tenant>, m: Folders, rs: seq<Request>)
    requires Inv(cases, m) && Apart(m) && RunStaysApart(cases, m, rs)
    ensures Acyclic(Run(cases, m, rs)) && Apart(Run(cases, m, rs))
    decreases |rs|
  {
    if rs == [] {
      ApartIsForestIff(m);
    } else {
      StepKeepsInv(cases, m, rs[0]);
      StepKeepsApart(cases, m, rs[0]);
      RunKeepsTable(cases, Step(cases, m, rs[0]), rs[1..]);
    }
  }

  lemma StepKeepsApart(cases: map<Uuid, Tenant>, m: Folders, r: Request)
    requires Inv(cases, m) && Apart(m) && StaysApart(m, r)
    ensures Apart(Step(cases, m, r))
  {
    hide Acyclic, WouldCycle;
  }

  function Move(c: TenantContext, id: Uuid, p: Uuid): Request {
    Request(c, Update(id, FolderUpdate(Some(Some(p)), None, None)))
  }

  /** Two tenants that each put a folder under a hidden folder of the other close a cycle. */
  lemma TwoTenantsCloseACycle(name: string)
    ensures var cases := map[1 := 10, 2 := 20];
      var m: Folders := map[1 := Folder(1, 10, 1, None, name, 0), 2 := Folder(2, 20, 2, None, name, 0)];
      var rs := [Move(TenantContext(10, false), 1, 2), Move(TenantContext(20, false), 2, 1)];
      Inv(cases, m) && Acyclic(m) && !Acyclic(Run(cases, m, rs))
  {
    var cases := map[1 := 10, 2 := 20];
    var m: Folders := map[1 := Folder(1, 10, 1, None, name, 0), 2 := Folder(2, 20, 2, None, name, 0)];
    var rs := [Move(TenantContext(10, false), 1, 2), Move(TenantContext(20, false), 2, 1)];
    RootsOnly(m);
    forall t: Tenant ensures Acyclic(OfTenant(m, t)) { RootsOnly(OfTenant(m, t)); }
    HiddenParentPasses(m, rs[0].caller, 1, 2);
    var m1 := Step(cases, m, rs[0]);
    assert m1 == m[1 := m[1].(parent := Some(2))];
    HiddenParentPasses(m1, rs[1].caller, 2, 1);
    var m2 := Step(cases, m1, rs[1]);
    assert m2[1].parent == Some(2) && m2[2].parent == Some(1);
    assert rs[1..][0] == rs[1] && rs[1..][1..] == [];
    assert Run(cases, m, rs) == m2;
    assert Up(m2, 2, 1) == Some(1) by { assert Up(m2, 1, 0) == Some(1); }
    assert Up(m2, 1, 2) == Some(1);
  }

  lemma RootsOnly(m: Folders)
    requires forall x: Uuid :: x in m ==> m[x].parent == None
    ensures Acyclic(m)
  {
    forall x: Uuid, n: nat | 0 < n ensures Up(m, x, n) != Some(x) { assert Up(m, x, n) == None; }
  }

  /** The check reads nothing above a folder that the caller does not see. */
  lemma HiddenParentPasses(m: Folders, c: TenantContext, id: Uuid, p: Uuid)
    requires id != p && p !in View(m, c)
    ensures !WouldCycle(View(m, c), id, p)
  {
    forall k: nat ensures Up(View(m, c), p, k) != Some(id) {}
    assert Up(View(m, c), p, 1) == None;
  }

  /** An administrator sees both folders, and still opens a way around the check of a tenant, although every new parent
      is visible to its caller. */
  lemma AdministratorOpensTheWay(name: string)
    ensures var cases := map[1 := 10, 2 := 20];
      var m: Folders := map[1 := Folder(1, 10, 1, None, name, 0), 2 := Folder(2, 20, 2, None, name, 0),
                            3 := Folder(3, 10, 1, None, name, 0)];
      var admin := TenantContext(10, true);
      var rs := [Move(admin, 1, 2), Move(admin, 2, 3), Move(TenantContext(10, false), 3, 1)];
      Inv(cases, m) && Acyclic(m) && !Acyclic(Run(cases, m, rs))
      && 1 in View(Run(cases, m, rs[..2]), rs[2].caller)
  {
    var cases := map[1 := 10, 2 := 20];
    var m: Folders := map[1 := Folder(1, 10, 1, None, name, 0), 2 := Folder(2, 20, 2, None, name, 0),
                          3 := Folder(3, 10, 1, None, name, 0)];
    var admin := TenantContext(10, true);
    var rs := [Move(admin, 1, 2), Move(admin, 2, 3), Move(TenantContext(10, false), 3, 1)];
    RootsOnly(m);
    forall t: Tenant ensures Acyclic(OfTenant(m, t)) { RootsOnly(OfTenant(m, t)); }
    ShortWalkPasses(View(m, admin), 1, 2, 1);
    var m1 := Step(cases, m, rs[0]);
    assert m1 == m[1 := m[1].(parent := Some(2))];
    ShortWalkPasses(View(m1, admin), 2, 3, 1);
    var m2 := Step(cases, m1, rs[1]);
    assert m2 == m1[2 := m1[2].(parent := Some(3))];
    var own := View(m2, rs[2].caller);
    assert 2 !in own && own[1].parent == Some(2) && Up(own, 1, 1) == Some(2) by { assert Up(own, 2, 0) == Some(2); }
    ShortWalkPasses(own, 3, 1, 2);
    var m3 := Step(cases, m2, rs[2]);
    assert m3 == m2[3 := m2[3].(parent := Some(1))];
    ThreeRequests(cases, m, rs);
    assert Up(m3, 3, 1) == Some(1) by { assert Up(m3, 1, 0) == Some(1); }
    assert Up(m3, 2, 2) == Some(1);
    assert Up(m3, 1, 3) == Some(1);
  }

  lemma ThreeRequests(cases: map<Uuid, Tenant>, m: Folders, rs: seq<Request>)
    requires |rs| == 3
    ensures var m2 := Step(cases, Step(cases, m, rs[0]), rs[1]);
      Run(cases, m, rs) == Step(cases, m2, rs[2]) && Run(cases, m, rs[..2]) == m2
  {
    hide Step;
    var m1 := Step(cases, m, rs[0]);
    var m2 := Step(cases, m1, rs[1]);
    assert Run(cases, m2, rs[1..][1..]) == Step(cases, m2, rs[2]) by { assert rs[1..][1..][1..] == []; }
    assert Run(cases, m1, rs[..2][1..]) == m2 by { assert rs[..2][1..][1..] == []; }
  }

  /** A walk of fewer than three folders that does not meet the folder. */
  lemma ShortWalkPasses(m: Folders, id: Uuid, p: Uuid, n: nat)
    requires 1 <= n <= 2 && id != p && (n == 2 ==> Up(m, p, 1).Some? && Up(m, p, 1) != Some(id))
    requires Up(m, p, n) == None
    ensures !WouldCycle(m, id, p)
  {
    forall k: nat ensures Up(m, p, k) != Some(id) {
      if k >= n && Up(m, p, k).Some? { UpStops(m, p, n, k); }
    }
  }

  // ---------- The service ----------

  class NoteService {
    var cases: map<Uuid, Tenant>
    var folders: Folders
    var caller: TenantContext  // the scope of the session

    /** The parent column of a visible row, as a query of the session reads it. */
    function SelectParent(id: Uuid): (p: Option<Uuid>)
      reads this
      ensures p == ParentOf(View(folders, caller), id)
    {
      if id in folders && Sees(caller, folders[id].tenantId) then folders[id].parent else None
    }

    /** The upward walk with its visited set. It ends on every graph: each turn visits a new row or leaves the table. */
    method WouldCreateCycle(folderId: Uuid, newParentId: Uuid) returns (r: bool)
      ensures r <==> WouldCycle(View(folders, caller), folderId, newParentId)
    {
      ghost var rows := View(folders, caller);
      if folderId == newParentId {
        assert Up(rows, newParentId, 0) == Some(folderId);
        return true;
      }
      var current: Option<Uuid> := Some(newParentId);
      var visited: set<Uuid> := {};
      ghost var n: nat := 0;
      while current.Some?
        invariant current == Up(rows, newParentId, n)
        invariant forall y: Uuid :: y in visited ==> exists k: nat :: k < n && Up(rows, newParentId, k) == Some(y)
        invariant forall k: nat :: k < n ==> Up(rows, newParentId, k).Some? && Up(rows, newParentId, k) != Some(folderId)
        decreases rows.Keys - visited, current.Some?
      {
        var c := current.value;
        if c == folderId {
          return true;
        }
        if c in visited {
          ghost var k: nat :| k < n && Up(rows, newParentId, k) == Some(c);
          RevisitIsEndless(rows, newParentId, k, n);
          return true;
        }
        visited := visited + {c};
        UpAdds(rows, newParentId, n, 1);
        current := SelectParent(c);
        n := n + 1;
      }
      forall k: nat ensures Up(rows, newParentId, k) != Some(folderId) {
        if k >= n && Up(rows, newParentId, k).Some? { UpStops(rows, newParentId, n, k); }
      }
      return false;
    }

    method CreateFolder(newId: Uuid, caseId: Uuid, parent: Option<Uuid>, name: string, sortOrder: int)
      returns (r: Result<Folder>)
      modifies this`folders
      ensures r == CreateRow(cases, old(folders), caller, newId, caseId, parent, name, sortOrder)
      ensures folders == Step(cases, old(folders), Request(caller, Create(newId, caseId, parent, name, sortOrder)))
      ensures old(Inv(cases, folders)) ==> Inv(cases, folders)
    {
      StepKeepsInv(cases, folders, Request(caller, Create(newId, caseId, parent, name, sortOrder)));
      if caseId !in cases || !Sees(caller, cases[caseId]) {
        return Err(NotFound);
      }
      if parent.Some? {
        if parent.value !in folders || !Sees(caller, folders[parent.value].tenantId) {
          return Err(NotFound);
        }
        if folders[parent.value].caseId != caseId {
          return Err(BadRequest);
        }
      }
      if newId in folders {
        return Err(Constraint);
      }
      var folder := Folder(newId, cases[caseId], caseId, parent, name, sortOrder);
      folders := folders[newId := folder];
      return Ok(folder);
    }

    method UpdateFolder(id: Uuid, data: FolderUpdate) returns (r: Result<Folder>)
      modifies this`folders
      ensures r == UpdatedRow(old(folders), caller, id, data)
      ensures folders == Step(cases, old(folders), Request(caller, Update(id, data)))
      ensures old(Inv(cases, folders)) ==> Inv(cases, folders)
    {
      StepKeepsInv(cases, folders, Request(caller, Update(id, data)));
      if id !in folders || !Sees(caller, folders[id].tenantId) {
        return Err(NotFound);
      }
      if data.parent.Some? && data.parent.value.Some? {
        var cycle := WouldCreateCycle(id, data.parent.value.value);
        if cycle {
          return Err(BadRequest);
        }
      }
      // the flush checks the NOT NULL columns and the foreign key
      if data.name == Some(None) || data.sortOrder == Some(None) {
        return Err(Constraint);
      }
      if data.parent.Some? && data.parent.value.Some? && data.parent.value.value !in folders {
        return Err(Constraint);
      }
      var folder := folders[id];
      if data.parent.Some? {
        folder := folder.(parent := data.parent.value);
      }
      if data.name.Some? {
        folder := folder.(name := data.name.value.value);
      }
      if data.sortOrder.Some? {
        folder := folder.(sortOrder := data.sortOrder.value.value);
      }
      folders := folders[id := folder];
      return Ok(folder);
    }

    method DeleteFolder(id: Uuid) returns (r: Result<()>)
      modifies this`folders
      ensures var rows := DeletedRows(old(folders), caller, id);
        r == if rows.Ok? then Ok(()) else Err(rows.error)
      ensures folders == Step(cases, old(folders), Request(caller, Delete(id)))
      ensures old(Inv(cases, folders)) ==> Inv(cases, folders)
    {
      StepKeepsInv(cases, folders, Request(caller, Delete(id)));
      if id !in folders || !Sees(caller, folders[id].tenantId) {
        return Err(NotFound);
      }
      // the session sets the parent of the children it reads to null; the foreign key sees the others
      if exists x :: x in folders && x != id && folders[x].parent == Some(id) && !Sees(caller, folders[x].tenantId) {
        return Err(Constraint);
      }
      folders := map x | x in folders && x != id ::
        if folders[x].parent == Some(id) then folders[x].(parent := None) else folders[x];
      return Ok(());
    }
  }
}
