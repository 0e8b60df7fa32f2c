/**
 Requests on pooled connections under row-level security. A request scopes its transaction to a tenant, and the policies
 narrow its statements to the rows of that tenant. Primary keys, foreign keys and their ON DELETE CASCADE are the
 database's own business: they look at every row, whoever may see it.
 */
module TenantIsolation {
  import opened Wrappers
  import opened RowLevelSecurity

  // ---------- Tables ----------

  datatype Key = Key(table: Table, id: Uuid)

  /** `refs` are the rows that the foreign keys of the row name. */
  datatype Row = Row(tenant: Option<Tenant>, refs: set<Key>, data: string)

  type Db = map<Key, Row>

  /** The foreign keys from table `t` to table `u` that are ON DELETE CASCADE; all others refuse the deletion. */
  predicate Cascades(t: Table, u: Table) {
    match u
    case Cases =>
      t in {Tasks, Table.Observables, Assets, Evidence, TimelineEntries, NoteFolders, Notes, AttackMappings}
    case Observables => t in {EnrichmentResults, AttackMappings}
    case TimelineEntries => t.AttackMappings?
    case _ => false
  }

  predicate NullViolation(k: Key, r: Row) {
    r.tenant.None? && !NullableTenant(k.table)
  }

  predicate Dangling(db: Db, refs: set<Key>) {
    !(refs <= db.Keys)
  }

  predicate LeansOn(k: Key, r: Row, gone: set<Key>) {
    exists q :: q in r.refs && q in gone && Cascades(k.table, q.table)
  }

  /** `keys`, and all rows that the deletion of these rows deletes in turn. */
  function Gone(db: Db, keys: set<Key>): set<Key>
    decreases db.Keys - keys
  {
    var more := set k | k in db && k !in keys && LeansOn(k, db[k], keys);
    if more == {} then keys
    else
      assert db.Keys - (keys + more) < db.Keys - keys by {
        var k :| k in more;
        assert k in db.Keys - keys && k !in db.Keys - (keys + more);
      }
      Gone(db, keys + more)
  }

  /** Some row that stays refers to a row that goes. */
  predicate Stuck(db: Db, gone: set<Key>) {
    exists k :: k in db && k !in gone && !(db[k].refs !! gone)
  }

  // ---------- Statements ----------

  type Condition = (Key, Row) -> bool

  datatype Stmt =
    | Select(table: Table, where: Condition)
    | Insert(key: Key, row: Row)
    | Update(table: Table, where: Condition, change: Row -> Row)
    | Delete(table: Table, where: Condition)

  datatype Reason = NotPermitted | NullTenant | Duplicate | NoReference

  datatype Answer = Rows(rows: map<Key, Row>) | Affected(keys: set<Key>) | Failed(reason: Reason)

  /** Rows of the table that the policies admit and the condition selects. */
  function Chosen(s: Settings, db: Db, t: Table, where: Condition): map<Key, Row> {
    map k | k in db && k.table == t && Visible(s, t, db[k].tenant) && where(k, db[k]) :: db[k]
  }

  /** The references that an update of the rows adds. */
  function NewRefs(rows: map<Key, Row>, change: Row -> Row): set<Key> {
    set k, q | k in rows && q in change(rows[k]).refs - rows[k].refs :: q
  }

  function Rewritten(db: Db, rows: map<Key, Row>, change: Row -> Row): Db {
    map k | k in db :: if k in rows then change(db[k]) else db[k]
  }

  /** One statement. The policies also check every row that is written, before the constraints are checked. */
  function Execute(s: Settings, db: Db, stmt: Stmt): (Db, Answer) {
    match stmt
    case Select(t, where) => (db, Rows(Chosen(s, db, t, where)))
    case Insert(k, r) =>
      if !Visible(s, k.table, r.tenant) then (db, Failed(NotPermitted))
      else if NullViolation(k, r) then (db, Failed(NullTenant))
      else if k in db then (db, Failed(Duplicate))
      else if Dangling(db, r.refs - {k}) then (db, Failed(NoReference))
      else (db[k := r], Affected({k}))
    case Update(t, where, change) =>
      var chosen := Chosen(s, db, t, where);
      if exists k :: k in chosen && !Visible(s, t, change(chosen[k]).tenant) then (db, Failed(NotPermitted))
      else if exists k :: k in chosen && NullViolation(k, change(chosen[k])) then (db, Failed(NullTenant))
      else if Dangling(db, NewRefs(chosen, change)) then (db, Failed(NoReference))
      else (Rewritten(db, chosen, change), Affected(chosen.Keys))
    case Delete(t, where) =>
      var chosen := Chosen(s, db, t, where);
      var gone := Gone(db, chosen.Keys);
      if Stuck(db, gone) then (db, Failed(NoReference)) else (db - gone, Affected(chosen.Keys))
  }

  /** The rows that a statement deletes. */
  function Taken(s: Settings, db: Db, stmt: Stmt): set<Key> {
    if !stmt.Delete? then {}
    else
      var gone := Gone(db, Chosen(s, db, stmt.table, stmt.where).Keys);
      if Stuck(db, gone) then {} else gone
  }

  // ---------- Requests ----------

  /** A handler picks its next statement from the answers so far, or ends by returning or raising. */
  datatype Action = Do(stmt: Stmt) | Return | Raise

  type Handler = seq<Answer> -> Action

  /** The transaction: at most `n` further statements. A failing statement changes nothing; most handlers raise then, some
      run it in a savepoint and go on. */
  function Transact(s: Settings, db: Db, handler: Handler, answers: seq<Answer>, n: nat): (r: (Db, seq<Answer>, bool))
    decreases n
  {
    match handler(answers)
    case Return => (db, answers, true)
    case Raise => (db, answers, false)
    case Do(stmt) =>
      if n == 0 then (db, answers, false)
      else
        var (db', answer) := Execute(s, db, stmt);
        Transact(s, db', handler, answers + [answer], n - 1)
  }

  datatype Request = Request(connection: nat, ctx: Option<TenantContext>, handler: Handler, limit: nat)

  datatype Pool = Pool(db: Db, connections: map<nat, Settings>)

  function InTransaction(s: Settings, ctx: Option<TenantContext>): Settings {
    if ctx.Some? then Scoped(s, ctx.value) else s
  }

  function SettingsOf(p: Pool, c: nat): Settings {
    if c in p.connections then p.connections[c] else NEW_CONNECTION
  }

  /** Commit on success, roll back on an exception, and hand the connection back. */
  function Serve(p: Pool, r: Request): (Pool, seq<Answer>) {
    var s := InTransaction(SettingsOf(p, r.connection), r.ctx);
    var (db', answers, ok) := Transact(s, p.db, r.handler, [], r.limit);
    (Pool(if ok then db' else p.db, p.connections[r.connection := Ended(s)]), answers)
  }

  function Reached(db: Db, rs: seq<Request>): Pool {
    if rs == [] then Pool(db, map[])
    else Serve(Reached(db, rs[..|rs| - 1]), rs[|rs| - 1]).0
  }

  /** The session of one request, as the dependency runs it. */
  class Session {
    var settings: Settings
    var db: Db

    method ApplyTenantContext(ctx: TenantContext)
      modifies this`settings
      ensures settings == Scoped(old(settings), ctx)
    {
      settings := settings.(tenant := Set(ctx.tenant));
      if ctx.isPlatformAdmin {
        settings := settings.(admin := Set(true));
      }
    }

    method EndTransaction()
      modifies this`settings
      ensures settings == Ended(old(settings))
    {
      if settings.tenant.Set? { settings := settings.(tenant := Blank); }
      if settings.admin.Set? { settings := settings.(admin := Blank); }
    }

    method HandleRequest(ctx: Option<TenantContext>, handler: Handler, limit: nat) returns (answers: seq<Answer>)
      modifies this
      ensures forall p: Pool, c: nat :: p.db == old(db) && SettingsOf(p, c) == old(settings) ==>
        Serve(p, Request(c, ctx, handler, limit)) == (Pool(db, p.connections[c := settings]), answers)
    {
      var saved := db;
      if ctx.Some? {
        ApplyTenantContext(ctx.value);
      }
      answers := [];
      var n := limit;
      ghost var scoped := settings;
      var action := handler(answers);
      var ok := action.Return?;
      while action.Do? && n > 0
        invariant settings == scoped && action == handler(answers)
        invariant ok == action.Return?
        invariant Transact(scoped, saved, handler, [], limit) == Transact(scoped, db, handler, answers, n)
        decreases n
      {
        var (next, answer) := Execute(settings, db, action.stmt);
        db := next;
        answers := answers + [answer];
        n := n - 1;
        action := handler(answers);
        ok := action.Return?;
      }
      if !ok {
        db := saved;
      }
      EndTransaction();
    }
  }

  // ---------- Connections ----------

  /** No connection waits in the pool with a setting still made. */
  ghost predicate PoolInv(p: Pool) {
    forall c: nat :: !SettingsOf(p, c).tenant.Set? && !SettingsOf(p, c).admin.Set?
  }

  lemma {:induction false} ReachedPool(db: Db, rs: seq<Request>)
    ensures PoolInv(Reached(db, rs))
  {
    if rs != [] {
      var before := Reached(db, rs[..|rs| - 1]);
      ReachedPool(db, rs[..|rs| - 1]);
      ServeKeepsPool(before, rs[|rs| - 1]);
    }
  }

  lemma ServeKeepsPool(p: Pool, r: Request)
    requires PoolInv(p)
    ensures PoolInv(Serve(p, r).0)
  {
    var after := Serve(p, r).0;
    forall c: nat
      ensures !SettingsOf(after, c).tenant.Set? && !SettingsOf(after, c).admin.Set?
    {
      assert c != r.connection ==> SettingsOf(after, c) == SettingsOf(p, c);
    }
  }

  /** The tenant a request runs for, unless it is an administrator's. */
  function Who(r: Request): Option<Tenant> {
    if r.ctx.Some? then Some(r.ctx.value.tenant) else None
  }

  predicate ByAdmin(r: Request) {
    r.ctx.Some? && r.ctx.value.isPlatformAdmin
  }

  /** Whatever the connection served before, the transaction has the request's scope and no other. */
  lemma ScopeOfRequest(db: Db, rs: seq<Request>, r: Request)
    ensures !ByAdmin(r) ==> ScopedTo(InTransaction(SettingsOf(Reached(db, rs), r.connection), r.ctx), Who(r))
  {
    ReachedPool(db, rs);
  }

  /** The settings of a request, and whether an earlier request on its connection had a tenant or was an administrator's. */
  lemma {:induction false} SettingsRemember(db: Db, rs: seq<Request>, c: nat)
    ensures var s := SettingsOf(Reached(db, rs), c);
      && (s.tenant.Blank? <==> exists i :: 0 <= i < |rs| && rs[i].connection == c && rs[i].ctx.Some?)
      && (s.admin.Blank? <==> exists i :: 0 <= i < |rs| && rs[i].connection == c && ByAdmin(rs[i]))
  {
    hide Serve;
    if rs != [] {
      var n := |rs| - 1;
      var before := Reached(db, rs[..n]);
      SettingsRemember(db, rs[..n], c);
      ReachedPool(db, rs[..n]);
      assert forall i :: 0 <= i < n ==> rs[..n][i] == rs[i];
      SettingsAfter(before, rs[n], c);
      assert Reached(db, rs) == Serve(before, rs[n]).0;
    }
  }

  lemma SettingsAfter(p: Pool, r: Request, c: nat)
    ensures SettingsOf(Serve(p, r).0, c)
      == if r.connection == c then Ended(InTransaction(SettingsOf(p, c), r.ctx)) else SettingsOf(p, c)
  {
    hide Transact;
  }

  /** In no run does the evaluation of a policy raise. With the policies of the earlier migration, evaluating every operand,
      it raised in a request without a tenant exactly if an earlier request on the connection had one, and in a tenant's
      request exactly if an earlier request on the connection was an administrator's. */
  lemma PoliciesNeverRaise(db: Db, rs: seq<Request>, r: Request, t: Table, rowTenant: Option<Tenant>)
    ensures var s := InTransaction(SettingsOf(Reached(db, rs), r.connection), r.ctx);
      && Policy(s, t, rowTenant).Ok?
      && (OldPolicy(s, t, rowTenant).Err? <==>
            exists i :: 0 <= i < |rs| && rs[i].connection == r.connection
                        && ((r.ctx.None? && rs[i].ctx.Some?) || (!ByAdmin(r) && ByAdmin(rs[i]))))
  {
    SettingsRemember(db, rs, r.connection);
    PolicyNeverRaises(InTransaction(SettingsOf(Reached(db, rs), r.connection), r.ctx), t, rowTenant);
  }

  // ---------- What a deletion takes ----------

  ghost predicate Closed(db: Db, keys: set<Key>) {
    forall k :: k in db && LeansOn(k, db[k], keys) ==> k in keys
  }

  /** `Gone` is the least set of rows that holds `keys` and everything that leans on it. */
  lemma {:induction false} GoneIsLeast(db: Db, keys: set<Key>, closed: set<Key>)
    requires keys <= closed && Closed(db, closed)
    ensures keys <= Gone(db, keys) <= closed && Closed(db, Gone(db, keys))
    decreases db.Keys - keys
  {
    var more := set k | k in db && k !in keys && LeansOn(k, db[k], keys);
    if more == {} {
      assert forall k :: k in db && k !in keys && LeansOn(k, db[k], keys) ==> k in more;
    } else {
      forall k | k in more ensures k in closed {
        assert LeansOn(k, db[k], closed);
      }
      var k :| k in more;
      assert k in db.Keys - keys && k !in db.Keys - (keys + more);
      GoneIsLeast(db, keys + more, closed);
    }
  }

  lemma GoneIsClosed(db: Db, keys: set<Key>)
    ensures keys <= Gone(db, keys) <= db.Keys + keys && Closed(db, Gone(db, keys))
  {
    GoneIsLeast(db, keys, db.Keys + keys);
  }

  // ---------- One statement ----------

  function Own(who: Option<Tenant>, db: Db): Db {
    map k | k in db && Shows(who, k.table, db[k].tenant) :: db[k]
  }

  function Hidden(who: Option<Tenant>, db: Db): Db {
    map k | k in db && !Shows(who, k.table, db[k].tenant) :: db[k]
  }

  /** The rows that a condition picks from what `who` may see. */
  function Picked(who: Option<Tenant>, db: Db, t: Table, where: Condition): map<Key, Row> {
    map k | k in Own(who, db) && k.table == t && where(k, Own(who, db)[k]) :: Own(who, db)[k]
  }

  lemma ChosenArePicked(s: Settings, who: Option<Tenant>, db: Db, t: Table, where: Condition)
    requires ScopedTo(s, who)
    ensures Chosen(s, db, t, where) == Picked(who, db, t, where)
  {
    forall k: Key | k in db
      ensures Visible(s, k.table, db[k].tenant) <==> k in Own(who, db)
    {
      ScopedSees(s, who, k.table, db[k].tenant);
    }
  }

  /** A statement of `who` writes no row that it may not see. Such a row goes exactly if a deletion takes it in turn. */
  lemma HiddenOnlyGo(s: Settings, who: Option<Tenant>, db: Db, stmt: Stmt)
    requires ScopedTo(s, who)
    ensures Hidden(who, Execute(s, db, stmt).0) == Hidden(who, db) - Taken(s, db, stmt)
  {
    hide Visible, Gone;
    match stmt
    case Select(t, where) =>
    case Insert(k, r) =>
      ScopedSees(s, who, k.table, r.tenant);
    case Update(t, where, change) =>
      UpdateHides(s, who, db, t, where, change);
    case Delete(t, where) =>
  }

  lemma UpdateHides(s: Settings, who: Option<Tenant>, db: Db, t: Table, where: Condition, change: Row -> Row)
    requires ScopedTo(s, who)
    ensures Hidden(who, Execute(s, db, Update(t, where, change)).0) == Hidden(who, db)
  {
    hide Visible, NewRefs, Rewritten, Own, Hidden;
    ChosenArePicked(s, who, db, t, where);
    if Execute(s, db, Update(t, where, change)).1.Affected? {
      RewriteStaysOwn(s, who, db, t, where, change);
    }
  }

  /** What an update writes belongs to what `who` may see, before and afterwards. */
  lemma RewriteStaysOwn(s: Settings, who: Option<Tenant>, db: Db, t: Table, where: Condition, change: Row -> Row)
    requires ScopedTo(s, who)
    requires forall k :: k in Picked(who, db, t, where) ==> Visible(s, t, change(db[k]).tenant)
    ensures var rows := Picked(who, db, t, where);
      && Hidden(who, Rewritten(db, rows, change)) == Hidden(who, db)
      && Own(who, Rewritten(db, rows, change)) == Rewritten(Own(who, db), rows, change)
  {
    hide Visible, Shows, Rewritten, Own, Hidden;
    var rows := Picked(who, db, t, where);
    forall k | k in rows ensures k in Own(who, db) && k in db && Shows(who, k.table, change(db[k]).tenant) {
      OwnOrHidden(who, db);
      ScopedSees(s, who, t, change(db[k]).tenant);
    }
    RewriteSplits(who, db, rows, change);
  }

  lemma RewriteSplits(who: Option<Tenant>, db: Db, rows: map<Key, Row>, change: Row -> Row)
    requires forall k :: k in rows ==> k in Own(who, db) && k in db && Shows(who, k.table, change(db[k]).tenant)
    ensures Hidden(who, Rewritten(db, rows, change)) == Hidden(who, db)
    ensures Own(who, Rewritten(db, rows, change)) == Rewritten(Own(who, db), rows, change)
  {
    hide Shows;
    var after := Rewritten(db, rows, change);
    forall k | k in db
      ensures k in Own(who, after) <==> k in Own(who, db)
      ensures k in Hidden(who, after) <==> k in Hidden(who, db)
    {
      assert k !in rows ==> after[k] == db[k];
    }
  }

  lemma OwnOrHidden(who: Option<Tenant>, db: Db)
    ensures db.Keys == Own(who, db).Keys + Hidden(who, db).Keys && Own(who, db).Keys !! Hidden(who, db).Keys
    ensures forall k :: k in Own(who, db) ==> Own(who, db)[k] == db[k]
    ensures forall k :: k in Hidden(who, db) ==> Hidden(who, db)[k] == db[k]
  {}

  predicate Permitted(who: Option<Tenant>, k: Key, r: Row) {
    Shows(who, k.table, r.tenant) && !NullViolation(k, r)
  }

  /** How rows that `who` may not see can make a difference: the statement inserts a key that only one of the databases has;
      it writes a reference that dangles in only one of them; or its deletion is refused in only one of them, or comes
      back, through hidden rows, to other rows that `who` may see. */
  predicate Collides(who: Option<Tenant>, d1: Db, d2: Db, stmt: Stmt) {
    match stmt
    case Select(_, _) => false
    case Insert(k, r) =>
      Permitted(who, k, r)
      && ((k in d1) != (k in d2)
          || (k !in d1 && k !in d2 && Dangling(d1, r.refs - {k}) != Dangling(d2, r.refs - {k})))
    case Update(t, where, change) =>
      var rows := Picked(who, d1, t, where);
      (forall k :: k in rows ==> Permitted(who, k, change(rows[k])))
      && Dangling(d1, NewRefs(rows, change)) != Dangling(d2, NewRefs(rows, change))
    case Delete(t, where) =>
      var keys := Picked(who, d1, t, where).Keys;
      var g1, g2 := Gone(d1, keys), Gone(d2, keys);
      Stuck(d1, g1) != Stuck(d2, g2)
      || (!Stuck(d1, g1) && !Stuck(d2, g2) && g1 * Own(who, d1).Keys != g2 * Own(who, d2).Keys)
  }

  /** Databases that agree on what `who` may see answer its statement alike, and agree again afterwards, if and only if the
      statement does not collide with a hidden row. */
  lemma SameAnswer(s: Settings, who: Option<Tenant>, d1: Db, d2: Db, stmt: Stmt)
    requires ScopedTo(s, who)
    requires Own(who, d1) == Own(who, d2)
    ensures Execute(s, d1, stmt).1 == Execute(s, d2, stmt).1
            && Own(who, Execute(s, d1, stmt).0) == Own(who, Execute(s, d2, stmt).0)
      <==> !Collides(who, d1, d2, stmt)
  {
    match stmt
    case Select(t, where) =>
      ChosenArePicked(s, who, d1, t, where);
      ChosenArePicked(s, who, d2, t, where);
    case Insert(k, r) =>
      SameInsert(s, who, d1, d2, k, r);
    case Update(t, where, change) =>
      SameUpdate(s, who, d1, d2, t, where, change);
    case Delete(t, where) =>
      SameDelete(s, who, d1, d2, t, where);
  }

  lemma SameInsert(s: Settings, who: Option<Tenant>, d1: Db, d2: Db, k: Key, r: Row)
    requires ScopedTo(s, who) && Own(who, d1) == Own(who, d2)
    ensures Execute(s, d1, Insert(k, r)).1 == Execute(s, d2, Insert(k, r)).1
            && Own(who, Execute(s, d1, Insert(k, r)).0) == Own(who, Execute(s, d2, Insert(k, r)).0)
      <==> !Collides(who, d1, d2, Insert(k, r))
  {
    hide Own, Visible;
    ScopedSees(s, who, k.table, r.tenant);
    InsertOwns(s, who, d1, k, r);
    InsertOwns(s, who, d2, k, r);
  }

  lemma InsertOwns(s: Settings, who: Option<Tenant>, db: Db, k: Key, r: Row)
    requires ScopedTo(s, who)
    ensures Own(who, Execute(s, db, Insert(k, r)).0)
      == if Execute(s, db, Insert(k, r)).1.Failed? then Own(who, db) else Own(who, db)[k := r]
  {
    ScopedSees(s, who, k.table, r.tenant);
  }

  lemma SameUpdate(s: Settings, who: Option<Tenant>, d1: Db, d2: Db, t: Table, where: Condition, change: Row -> Row)
    requires ScopedTo(s, who) && Own(who, d1) == Own(who, d2)
    ensures var stmt := Update(t, where, change);
      Execute(s, d1, stmt).1 == Execute(s, d2, stmt).1
      && Own(who, Execute(s, d1, stmt).0) == Own(who, Execute(s, d2, stmt).0)
      <==> !Collides(who, d1, d2, stmt)
  {
    hide Own, Visible, Chosen, NewRefs, Dangling, Rewritten;
    ChosenArePicked(s, who, d1, t, where);
    ChosenArePicked(s, who, d2, t, where);
    UpdateOwns(s, who, d1, t, where, change);
    UpdateOwns(s, who, d2, t, where, change);
    var rows := Picked(who, d1, t, where);
    forall k | k in rows
      ensures k.table == t && (Visible(s, t, change(rows[k]).tenant) <==> Shows(who, t, change(rows[k]).tenant))
    {
      ScopedSees(s, who, t, change(rows[k]).tenant);
    }
  }

  lemma UpdateOwns(s: Settings, who: Option<Tenant>, db: Db, t: Table, where: Condition, change: Row -> Row)
    requires ScopedTo(s, who)
    ensures Own(who, Execute(s, db, Update(t, where, change)).0)
      == if Execute(s, db, Update(t, where, change)).1.Failed? then Own(who, db)
         else Rewritten(Own(who, db), Picked(who, db, t, where), change)
  {
    hide Visible, NewRefs, Rewritten, Own, Hidden;
    ChosenArePicked(s, who, db, t, where);
    if Execute(s, db, Update(t, where, change)).1.Affected? {
      RewriteStaysOwn(s, who, db, t, where, change);
    }
  }

  lemma SameDelete(s: Settings, who: Option<Tenant>, d1: Db, d2: Db, t: Table, where: Condition)
    requires ScopedTo(s, who) && Own(who, d1) == Own(who, d2)
    ensures Execute(s, d1, Delete(t, where)).1 == Execute(s, d2, Delete(t, where)).1
            && Own(who, Execute(s, d1, Delete(t, where)).0) == Own(who, Execute(s, d2, Delete(t, where)).0)
      <==> !Collides(who, d1, d2, Delete(t, where))
  {
    hide Own, Visible, Chosen, Gone, Stuck;
    ChosenArePicked(s, who, d1, t, where);
    ChosenArePicked(s, who, d2, t, where);
    var keys := Picked(who, d1, t, where).Keys;
    var g1, g2 := Gone(d1, keys), Gone(d2, keys);
    DeleteOwns(who, d1, g1);
    DeleteOwns(who, d2, g2);
    SameRemainder(Own(who, d1), g1, g2);
  }

  lemma DeleteOwns(who: Option<Tenant>, db: Db, gone: set<Key>)
    ensures Own(who, db - gone) == Own(who, db) - gone
  {}

  lemma SameRemainder(m: Db, a: set<Key>, b: set<Key>)
    ensures m - a == m - b <==> a * m.Keys == b * m.Keys
  {
    if m - a == m - b {
      forall k ensures k in a * m.Keys <==> k in b * m.Keys {
        assert k in m - a <==> k in m - b;
      }
    }
    if a * m.Keys == b * m.Keys {
      forall k ensures k in m - a <==> k in m - b {
        assert k in a * m.Keys <==> k in b * m.Keys;
      }
    }
  }

  // ---------- Whole transactions ----------

  /** The settings of a transaction of `who` on a new connection. */
  function ScopeOf(who: Option<Tenant>): Settings {
    Settings(if who.Some? then Set(who.value) else Absent, Absent)
  }

  /** Settings with the same scope run every transaction alike, however they came to be blank. */
  lemma {:induction false} ScopeDecides(s: Settings, who: Option<Tenant>, db: Db, handler: Handler, answers: seq<Answer>, n: nat)
    requires ScopedTo(s, who)
    ensures Transact(s, db, handler, answers, n) == Transact(ScopeOf(who), db, handler, answers, n)
    decreases n
  {
    hide Execute;
    if handler(answers).Do? && n > 0 {
      var stmt := handler(answers).stmt;
      SameEffect(s, who, db, stmt);
      var (db', answer) := Execute(s, db, stmt);
      ScopeDecides(s, who, db', handler, answers + [answer], n - 1);
    }
  }

  lemma SameEffect(s: Settings, who: Option<Tenant>, db: Db, stmt: Stmt)
    requires ScopedTo(s, who)
    ensures Execute(s, db, stmt) == Execute(ScopeOf(who), db, stmt)
  {
    hide Visible, Gone;
    forall t: Table, o: Option<Tenant> ensures Visible(s, t, o) == Visible(ScopeOf(who), t, o) {
      ScopedSees(s, who, t, o);
      ScopedSees(ScopeOf(who), who, t, o);
    }
    if !stmt.Insert? {
      assert Chosen(s, db, stmt.table, stmt.where) == Chosen(ScopeOf(who), db, stmt.table, stmt.where);
    }
  }

  /** What a transaction of `who` is told, statement by statement, and what it might see after each of them. */
  function Watch(who: Option<Tenant>, db: Db, handler: Handler, answers: seq<Answer>, n: nat): seq<(Answer, Db)>
    decreases n
  {
    if handler(answers).Do? && n > 0 then
      var (db', answer) := Execute(ScopeOf(who), db, handler(answers).stmt);
      [(answer, Own(who, db'))] + Watch(who, db', handler, answers + [answer], n - 1)
    else []
  }

  /** Some statement of the transaction on `d1` collides with a hidden row. */
  predicate Clashes(who: Option<Tenant>, d1: Db, d2: Db, handler: Handler, answers: seq<Answer>, n: nat)
    decreases n
  {
    handler(answers).Do? && n > 0
    && var stmt := handler(answers).stmt;
       var (d1', answer) := Execute(ScopeOf(who), d1, stmt);
       var d2' := Execute(ScopeOf(who), d2, stmt).0;
       Collides(who, d1, d2, stmt) || Clashes(who, d1', d2', handler, answers + [answer], n - 1)
  }

  /** Two databases that agree on what `who` may see give its transaction the same answers, and agree again after each of its
      statements, if and only if no statement collides with a hidden row. Then the outcome is the same as well. */
  lemma {:induction false} SameTransaction(who: Option<Tenant>, d1: Db, d2: Db, handler: Handler, answers: seq<Answer>, n: nat)
    requires Own(who, d1) == Own(who, d2)
    ensures Watch(who, d1, handler, answers, n) == Watch(who, d2, handler, answers, n)
      <==> !Clashes(who, d1, d2, handler, answers, n)
    ensures var (e1, a1, ok1) := Transact(ScopeOf(who), d1, handler, answers, n);
      var (e2, a2, ok2) := Transact(ScopeOf(who), d2, handler, answers, n);
      !Clashes(who, d1, d2, handler, answers, n) ==> a1 == a2 && ok1 == ok2 && Own(who, e1) == Own(who, e2)
    decreases n
  {
    hide Execute, Own, Collides;
    if handler(answers).Do? && n > 0 {
      var stmt := handler(answers).stmt;
      var (d1', answer1) := Execute(ScopeOf(who), d1, stmt);
      var (d2', answer2) := Execute(ScopeOf(who), d2, stmt);
      SameAnswer(ScopeOf(who), who, d1, d2, stmt);
      if Collides(who, d1, d2, stmt) {
        assert Watch(who, d1, handler, answers, n)[0] != Watch(who, d2, handler, answers, n)[0];
      } else {
        SameTransaction(who, d1', d2', handler, answers + [answer1], n - 1);
        SameRest((answer1, Own(who, d1')), Watch(who, d1', handler, answers + [answer1], n - 1),
                 Watch(who, d2', handler, answers + [answer1], n - 1));
      }
    }
  }

  lemma SameRest<T>(x: T, a: seq<T>, b: seq<T>)
    ensures [x] + a == [x] + b <==> a == b
  {
    assert ([x] + a)[1..] == a && ([x] + b)[1..] == b;
  }

  // ---------- Isolation over runs ----------

  function Watched(p: Pool, r: Request): seq<(Answer, Db)> {
    Watch(Who(r), p.db, r.handler, [], r.limit)
  }

  lemma ServeByScope(db: Db, rs: seq<Request>, r: Request)
    requires !ByAdmin(r)
    ensures var p := Reached(db, rs);
      var (after, answers, ok) := Transact(ScopeOf(Who(r)), p.db, r.handler, [], r.limit);
      Serve(p, r).0.db == (if ok then after else p.db) && Serve(p, r).1 == answers
  {
    hide Transact;
    var p := Reached(db, rs);
    ScopeOfRequest(db, rs, r);
    ScopeDecides(InTransaction(SettingsOf(p, r.connection), r.ctx), Who(r), p.db, r.handler, [], r.limit);
  }

  /** Whatever two histories led to, on whatever connections: if the databases agree on what the tenant of a request may
      see, the request is told the same and might see the same throughout, if and only if none of its statements collides
      with a hidden row; and then it leaves databases that agree again. The same holds of a request without a tenant,
      which may see shared rows only. */
  lemma Isolation(db1: Db, rs1: seq<Request>, db2: Db, rs2: seq<Request>, r: Request)
    requires !ByAdmin(r)
    requires Own(Who(r), Reached(db1, rs1).db) == Own(Who(r), Reached(db2, rs2).db)
    ensures var p1, p2 := Reached(db1, rs1), Reached(db2, rs2);
      var clash := Clashes(Who(r), p1.db, p2.db, r.handler, [], r.limit);
      && (Watched(p1, r) == Watched(p2, r) <==> !clash)
      && (!clash ==> Serve(p1, r).1 == Serve(p2, r).1 && Own(Who(r), Serve(p1, r).0.db) == Own(Who(r), Serve(p2, r).0.db))
  {
    hide Own, Transact, Clashes, Watch, Serve, Reached;
    ServeByScope(db1, rs1, r);
    ServeByScope(db2, rs2, r);
    SameTransaction(Who(r), Reached(db1, rs1).db, Reached(db2, rs2).db, r.handler, [], r.limit);
  }

  // ---------- Discreet requests ----------

  /** The statement names no hidden row, and no hidden row refers to what it deletes. */
  predicate Discreet(who: Option<Tenant>, db: Db, stmt: Stmt) {
    match stmt
    case Select(_, _) => true
    case Insert(k, r) => k !in Hidden(who, db) && r.refs !! Hidden(who, db).Keys
    case Update(t, where, change) => NewRefs(Picked(who, db, t, where), change) !! Hidden(who, db).Keys
    case Delete(t, where) =>
      var gone := Gone(Own(who, db), Picked(who, db, t, where).Keys);
      forall k :: k in Hidden(who, db) ==> Hidden(who, db)[k].refs !! gone
  }

  lemma DanglingAmongOwn(who: Option<Tenant>, db: Db, refs: set<Key>)
    requires refs !! Hidden(who, db).Keys
    ensures Dangling(db, refs) <==> Dangling(Own(who, db), refs)
  {
    OwnOrHidden(who, db);
    hide Own, Hidden;
  }

  /** Where no hidden row refers to what goes, a deletion goes as it would among the visible rows alone. */
  lemma GoneAmongOwn(who: Option<Tenant>, db: Db, keys: set<Key>)
    requires keys <= Own(who, db).Keys
    requires forall k :: k in Hidden(who, db) ==> Hidden(who, db)[k].refs !! Gone(Own(who, db), keys)
    ensures Gone(db, keys) == Gone(Own(who, db), keys)
    ensures Stuck(db, Gone(db, keys)) <==> Stuck(Own(who, db), Gone(db, keys))
  {
    var own := Own(who, db);
    var gone := Gone(own, keys);
    OwnOrHidden(who, db);
    hide Own, Hidden, Gone;
    GoneIsClosed(own, keys);
    GoneIsLeast(db, keys, gone);
    var all := Gone(db, keys);
    forall k | k in own && LeansOn(k, own[k], all) ensures k in all {
      assert k in db && LeansOn(k, db[k], all);
    }
    GoneIsLeast(own, keys, all);
    if Stuck(db, gone) {
      var k :| k in db && k !in gone && !(db[k].refs !! gone);
      assert k in own && own[k] == db[k];
    }
    if Stuck(own, gone) {
      var k :| k in own && k !in gone && !(own[k].refs !! gone);
      assert k in db && own[k] == db[k];
    }
  }

  lemma DiscreetCollidesNot(who: Option<Tenant>, d1: Db, d2: Db, stmt: Stmt)
    requires Own(who, d1) == Own(who, d2) && Discreet(who, d1, stmt) && Discreet(who, d2, stmt)
    ensures !Collides(who, d1, d2, stmt)
  {
    hide Own, Hidden, Gone, Stuck, Dangling;
    match stmt
    case Select(_, _) =>
    case Insert(k, r) =>
      OwnOrHidden(who, d1);
      OwnOrHidden(who, d2);
      DanglingAmongOwn(who, d1, r.refs - {k});
      DanglingAmongOwn(who, d2, r.refs - {k});
    case Update(t, where, change) =>
      DanglingAmongOwn(who, d1, NewRefs(Picked(who, d1, t, where), change));
      DanglingAmongOwn(who, d2, NewRefs(Picked(who, d2, t, where), change));
    case Delete(t, where) =>
      GoneAmongOwn(who, d1, Picked(who, d1, t, where).Keys);
      GoneAmongOwn(who, d2, Picked(who, d2, t, where).Keys);
  }

  /** All statements of the transaction are discreet. */
  predicate RunsDiscreetly(who: Option<Tenant>, db: Db, handler: Handler, answers: seq<Answer>, n: nat)
    decreases n
  {
    handler(answers).Do? && n > 0 ==>
      var (db', answer) := Execute(ScopeOf(who), db, handler(answers).stmt);
      Discreet(who, db, handler(answers).stmt)
      && RunsDiscreetly(who, db', handler, answers + [answer], n - 1)
  }

  lemma {:induction false} DiscreetClashesNot(who: Option<Tenant>, d1: Db, d2: Db, handler: Handler, answers: seq<Answer>, n: nat)
    requires Own(who, d1) == Own(who, d2)
    requires RunsDiscreetly(who, d1, handler, answers, n) && RunsDiscreetly(who, d2, handler, answers, n)
    ensures !Clashes(who, d1, d2, handler, answers, n)
    decreases n
  {
    hide Execute, Own, Collides, Discreet;
    if handler(answers).Do? && n > 0 {
      var stmt := handler(answers).stmt;
      var (d1', answer1) := Execute(ScopeOf(who), d1, stmt);
      var (d2', answer2) := Execute(ScopeOf(who), d2, stmt);
      DiscreetCollidesNot(who, d1, d2, stmt);
      SameAnswer(ScopeOf(who), who, d1, d2, stmt);
      DiscreetClashesNot(who, d1', d2', handler, answers + [answer1], n - 1);
    }
  }

  /** So a request is isolated outright if, in each database by itself, it names no hidden row and deletes nothing that a
      hidden row refers to. */
  lemma DiscreetIsIsolated(db1: Db, rs1: seq<Request>, db2: Db, rs2: seq<Request>, r: Request)
    requires !ByAdmin(r)
    requires Own(Who(r), Reached(db1, rs1).db) == Own(Who(r), Reached(db2, rs2).db)
    requires RunsDiscreetly(Who(r), Reached(db1, rs1).db, r.handler, [], r.limit)
    requires RunsDiscreetly(Who(r), Reached(db2, rs2).db, r.handler, [], r.limit)
    ensures var p1, p2 := Reached(db1, rs1), Reached(db2, rs2);
      && Watched(p1, r) == Watched(p2, r) && Serve(p1, r).1 == Serve(p2, r).1
      && Own(Who(r), Serve(p1, r).0.db) == Own(Who(r), Serve(p2, r).0.db)
  {
    hide Own, Clashes, RunsDiscreetly, Serve, Reached, Watched;
    DiscreetClashesNot(Who(r), Reached(db1, rs1).db, Reached(db2, rs2).db, r.handler, [], r.limit);
    Isolation(db1, rs1, db2, rs2, r);
  }

  /** A mapping with a fresh key and the id of another tenant's case is told whether that case exists. */
  lemma ReferenceIsNoticed(a: Tenant, b: Tenant, caseId: Uuid, mapping: Uuid)
    requires a != b
    ensures var theirs, ours := Key(Table.Cases, caseId), Key(AttackMappings, mapping);
      var d1: Db := map[theirs := Row(Some(b), {}, "")];
      var d2: Db := map[];
      var stmt := Insert(ours, Row(Some(a), {theirs}, ""));
      && Own(Some(a), d1) == Own(Some(a), d2) && ours !in d1
      && Execute(ScopeOf(Some(a)), d1, stmt).1 == Affected({ours})
      && Execute(ScopeOf(Some(a)), d2, stmt).1 == Failed(NoReference)
  {
    var theirs, ours := Key(Table.Cases, caseId), Key(AttackMappings, mapping);
    assert theirs in {theirs} - {ours};
  }

  // ---------- What others can do to a tenant's rows ----------

  function RowsOf(t: Tenant, db: Db): Db {
    map k | k in db && db[k].tenant == Some(t) :: db[k]
  }

  lemma RowsOfHidden(t: Tenant, who: Option<Tenant>, db: Db)
    requires who != Some(t)
    ensures RowsOf(t, db) == RowsOf(t, Hidden(who, db))
  {}

  /** A statement of another tenant, or of none, does nothing to the rows of `t` but take some of them in a deletion. */
  lemma OthersOnlyTake(s: Settings, who: Option<Tenant>, db: Db, stmt: Stmt, t: Tenant)
    requires ScopedTo(s, who) && who != Some(t)
    ensures RowsOf(t, Execute(s, db, stmt).0) == RowsOf(t, db) - Taken(s, db, stmt)
  {
    hide Execute, Hidden, Taken;
    RowsOfHidden(t, who, db);
    RowsOfHidden(t, who, Execute(s, db, stmt).0);
    HiddenOnlyGo(s, who, db, stmt);
    RowsWithout(t, Hidden(who, db), Taken(s, db, stmt));
  }

  lemma RowsWithout(t: Tenant, db: Db, gone: set<Key>)
    ensures RowsOf(t, db - gone) == RowsOf(t, db) - gone
  {}

  ghost predicate Within(a: Db, b: Db) {
    a.Keys <= b.Keys && forall k :: k in a ==> a[k] == b[k]
  }

  /** Some statement of the transaction takes a row of `t`. */
  predicate Takes(who: Option<Tenant>, db: Db, handler: Handler, answers: seq<Answer>, n: nat, t: Tenant)
    decreases n
  {
    handler(answers).Do? && n > 0
    && var stmt := handler(answers).stmt;
       var (db', answer) := Execute(ScopeOf(who), db, stmt);
       !(Taken(ScopeOf(who), db, stmt) !! RowsOf(t, db).Keys)
       || Takes(who, db', handler, answers + [answer], n - 1, t)
  }

  lemma {:induction false} TransactOnlyTakes(who: Option<Tenant>, db: Db, handler: Handler, answers: seq<Answer>, n: nat, t: Tenant)
    requires who != Some(t)
    ensures var after := Transact(ScopeOf(who), db, handler, answers, n).0;
      && Within(RowsOf(t, after), RowsOf(t, db))
      && (RowsOf(t, after) == RowsOf(t, db) <==> !Takes(who, db, handler, answers, n, t))
    decreases n
  {
    hide Execute, Taken, RowsOf;
    if handler(answers).Do? && n > 0 {
      var stmt := handler(answers).stmt;
      var (db', answer) := Execute(ScopeOf(who), db, stmt);
      OthersOnlyTake(ScopeOf(who), who, db, stmt, t);
      TransactOnlyTakes(who, db', handler, answers + [answer], n - 1, t);
      SmallerOrSame(RowsOf(t, db), Taken(ScopeOf(who), db, stmt), RowsOf(t, Transact(ScopeOf(who), db, handler, answers, n).0));
    }
  }

  lemma SmallerOrSame(m: Db, gone: set<Key>, rest: Db)
    requires Within(rest, m - gone)
    ensures Within(rest, m)
    ensures rest == m <==> gone !! m.Keys && rest == m - gone
  {
    if rest == m {
      assert m.Keys <= (m - gone).Keys;
    }
    if gone !! m.Keys {
      assert m - gone == m;
    }
  }

  /** The request commits a transaction that takes a row of `t`. */
  predicate CommitsTaking(p: Pool, r: Request, t: Tenant) {
    Transact(ScopeOf(Who(r)), p.db, r.handler, [], r.limit).2 && Takes(Who(r), p.db, r.handler, [], r.limit, t)
  }

  /** However many requests of other tenants, and without a tenant, are served: they add and change no row of `t`, and its
      rows stay exactly as they are if and only if none of these requests commits a deletion that takes one in turn. */
  lemma {:induction false} OthersCannotWrite(db: Db, rs: seq<Request>, more: seq<Request>, t: Tenant)
    requires forall r :: r in more ==> !ByAdmin(r) && Who(r) != Some(t)
    ensures var before, after := RowsOf(t, Reached(db, rs).db), RowsOf(t, Reached(db, rs + more).db);
      && Within(after, before)
      && (after == before <==> NoneCommitsTaking(db, rs, more, t))
    decreases |more|
  {
    hide RowsOf, CommitsTaking, NoneCommitsTaking, Serve, Reached;
    if more == [] {
      assert rs + more == rs;
      NoneAtAll(db, rs, t);
    } else {
      var n := |more| - 1;
      OthersCannotWrite(db, rs, more[..n], t);
      OneMoreTakes(db, rs + more[..n], more[n], t);
      ReachedOneMore(db, rs, more);
      OneMoreCommits(db, rs, more, t);
    }
  }

  /** None of the requests `more`, which follow `rs`, commits a transaction that takes a row of `t`. */
  predicate NoneCommitsTaking(db: Db, rs: seq<Request>, more: seq<Request>, t: Tenant) {
    forall i :: 0 <= i < |more| ==> !CommitsTaking(Reached(db, rs + more[..i]), more[i], t)
  }

  lemma NoneAtAll(db: Db, rs: seq<Request>, t: Tenant)
    ensures NoneCommitsTaking(db, rs, [], t)
  {}

  lemma OneMoreCommits(db: Db, rs: seq<Request>, more: seq<Request>, t: Tenant)
    requires more != []
    ensures var n := |more| - 1;
      NoneCommitsTaking(db, rs, more, t) <==>
        NoneCommitsTaking(db, rs, more[..n], t) && !CommitsTaking(Reached(db, rs + more[..n]), more[n], t)
  {
    hide CommitsTaking, Reached;
    var n := |more| - 1;
    assert forall i :: 0 <= i < n ==> more[..n][..i] == more[..i] && more[..n][i] == more[i];
  }

  lemma ReachedOneMore(db: Db, rs: seq<Request>, more: seq<Request>)
    requires more != []
    ensures Reached(db, rs + more) == Serve(Reached(db, rs + more[..|more| - 1]), more[|more| - 1]).0
  {
    hide Serve;
    var all := rs + more;
    assert all[..|all| - 1] == rs + more[..|more| - 1] && all[|all| - 1] == more[|more| - 1];
  }

  lemma OneMoreTakes(db: Db, rs: seq<Request>, r: Request, t: Tenant)
    requires !ByAdmin(r) && Who(r) != Some(t)
    ensures var before, after := RowsOf(t, Reached(db, rs).db), RowsOf(t, Serve(Reached(db, rs), r).0.db);
      Within(after, before) && (after == before <==> !CommitsTaking(Reached(db, rs), r, t))
  {
    hide RowsOf, Serve, Transact, Takes, Reached;
    ServeByScope(db, rs, r);
    TransactOnlyTakes(Who(r), Reached(db, rs).db, r.handler, [], r.limit, t);
  }

  /** Wherever a deletion might take a row of `t` in turn, it is the deletion of another row of `t`. */
  ghost predicate LeansOnItself(t: Tenant, db: Db) {
    forall k, q :: k in RowsOf(t, db) && q in db[k].refs && Cascades(k.table, q.table) ==> q in RowsOf(t, db)
  }

  lemma NothingTaken(s: Settings, who: Option<Tenant>, db: Db, stmt: Stmt, t: Tenant)
    requires ScopedTo(s, who) && who != Some(t) && LeansOnItself(t, db)
    ensures Taken(s, db, stmt) !! RowsOf(t, db).Keys
  {
    hide Visible, Gone;
    if stmt.Delete? {
      var chosen := Chosen(s, db, stmt.table, stmt.where);
      forall k | k in chosen ensures db[k].tenant != Some(t) {
        ScopedSees(s, who, stmt.table, db[k].tenant);
      }
      GoneIsLeast(db, chosen.Keys, db.Keys - RowsOf(t, db).Keys);
    }
  }

  lemma {:induction false} TakesNothing(who: Option<Tenant>, db: Db, handler: Handler, answers: seq<Answer>, n: nat, t: Tenant)
    requires who != Some(t) && LeansOnItself(t, db)
    ensures !Takes(who, db, handler, answers, n, t)
    decreases n
  {
    hide Execute, Taken;
    if handler(answers).Do? && n > 0 {
      var stmt := handler(answers).stmt;
      var (db', answer) := Execute(ScopeOf(who), db, stmt);
      NothingTaken(ScopeOf(who), who, db, stmt, t);
      OthersOnlyTake(ScopeOf(who), who, db, stmt, t);
      SameLeaning(t, db, db', Taken(ScopeOf(who), db, stmt));
      TakesNothing(who, db', handler, answers + [answer], n - 1, t);
    }
  }

  lemma SameLeaning(t: Tenant, db: Db, after: Db, gone: set<Key>)
    requires LeansOnItself(t, db) && gone !! RowsOf(t, db).Keys && RowsOf(t, after) == RowsOf(t, db) - gone
    ensures LeansOnItself(t, after)
  {
    assert RowsOf(t, db) - gone == RowsOf(t, db);
    forall k | k in RowsOf(t, after) ensures after[k] == db[k] {
      assert RowsOf(t, after)[k] == RowsOf(t, db)[k];
    }
  }

  /** So the rows of a tenant that leans on itself are out of everyone else's reach, in every run. */
  lemma {:induction false} LeaningOnItselfIsSafe(db: Db, rs: seq<Request>, more: seq<Request>, t: Tenant)
    requires LeansOnItself(t, Reached(db, rs).db)
    requires forall r :: r in more ==> !ByAdmin(r) && Who(r) != Some(t)
    ensures RowsOf(t, Reached(db, rs + more).db) == RowsOf(t, Reached(db, rs).db)
    ensures LeansOnItself(t, Reached(db, rs + more).db)
    decreases |more|
  {
    hide RowsOf, LeansOnItself, Serve, Takes, Reached;
    if more == [] {
      assert rs + more == rs;
    } else {
      var n := |more| - 1;
      var mid := rs + more[..n];
      LeaningOnItselfIsSafe(db, rs, more[..n], t);
      ReachedOneMore(db, rs, more);
      OneMoreTakes(db, mid, more[n], t);
      TakesNothing(Who(more[n]), Reached(db, mid).db, more[n].handler, [], more[n].limit, t);
      SameLeaning(t, Reached(db, mid).db, Reached(db, rs + more).db, {});
      assert RowsOf(t, Reached(db, mid).db) - {} == RowsOf(t, Reached(db, mid).db);
    }
  }

  /** A row that leans on a row of another tenant is in that tenant's hands: the deletion of the one, if it is not refused,
      takes the other. */
  lemma LeaningRowIsTaken(db: Db, t: Tenant, u: Tenant, k: Key, q: Key)
    requires t != u && k in RowsOf(t, db) && q in RowsOf(u, db) && q in db[k].refs && Cascades(k.table, q.table)
    ensures var (after, answer) := Execute(ScopeOf(Some(u)), db, Delete(q.table, (x, _) => x == q));
      if answer.Failed? then after == db else answer == Affected({q}) && k !in after
  {
    hide Gone;
    var s := ScopeOf(Some(u));
    ScopedSees(s, Some(u), q.table, db[q].tenant);
    assert Chosen(s, db, q.table, (x, _) => x == q).Keys == {q};
    GoneIsClosed(db, {q});
    assert LeansOn(k, db[k], Gone(db, {q}));
  }

  /** One tenant's mapping refers to another tenant's observable, unchecked; when that tenant deletes its observable, the
      mapping is gone. */
  lemma DeletionCrossesTenants(a: Tenant, b: Tenant, observable: Uuid, mapping: Uuid)
    requires a != b
    ensures var theirs, ours := Key(Table.Observables, observable), Key(AttackMappings, mapping);
      var db: Db := map[theirs := Row(Some(b), {}, "")];
      var inserts := Request(0, Some(TenantContext(a, false)), Once(Insert(ours, Row(Some(a), {theirs}, ""))), 1);
      var deletes := Request(0, Some(TenantContext(b, false)), Once(Delete(Table.Observables, (_, _) => true)), 1);
      && RowsOf(a, Reached(db, [inserts]).db) == map[ours := Row(Some(a), {theirs}, "")]
      && RowsOf(a, Reached(db, [inserts, deletes]).db) == map[]
  {
    hide Execute, Serve, Reached, Cascades;
    var theirs, ours := Key(Table.Observables, observable), Key(AttackMappings, mapping);
    var db: Db := map[theirs := Row(Some(b), {}, "")];
    var row := Row(Some(a), {theirs}, "");
    var insert, delete := Insert(ours, row), Delete(Table.Observables, (_, _) => true);
    var inserts := Request(0, Some(TenantContext(a, false)), Once(insert), 1);
    var deletes := Request(0, Some(TenantContext(b, false)), Once(delete), 1);
    TwoRequests(db, inserts, insert, deletes, delete);
    InsertWithReference(db, a, ours, theirs);
    assert Cascades(ours.table, theirs.table) by { MappingsLeanOnObservables(); }
    DeleteBoth(db[ours := row], b, theirs, ours);
  }

  lemma MappingsLeanOnObservables()
    ensures Cascades(AttackMappings, Table.Observables)
  {}

  lemma TwoRequests(db: Db, r1: Request, stmt1: Stmt, r2: Request, stmt2: Stmt)
    requires !ByAdmin(r1) && r1.limit == 1 && r1.handler == Once(stmt1)
    requires !ByAdmin(r2) && r2.limit == 1 && r2.handler == Once(stmt2)
    ensures var db1 := Execute(ScopeOf(Who(r1)), db, stmt1).0;
      Reached(db, [r1]).db == db1 && Reached(db, [r1, r2]).db == Execute(ScopeOf(Who(r2)), db1, stmt2).0
  {
    hide Execute, Serve, Reached;
    ReachedNothing(db);
    ServeOnce(db, [], r1);
    ReachedOneMore(db, [], [r1]);
    assert [] + [r1] == [r1] && [] + [r1][..0] == [];
    ServeOnce(db, [r1], r2);
    ReachedOneMore(db, [r1], [r2]);
    assert [r1] + [r2] == [r1, r2] && [r1] + [r2][..0] == [r1];
  }

  lemma ReachedNothing(db: Db)
    ensures Reached(db, []).db == db
  {}

  lemma InsertWithReference(db: Db, a: Tenant, ours: Key, theirs: Key)
    requires ours !in db && theirs in db
    ensures var row := Row(Some(a), {theirs}, "");
      Execute(ScopeOf(Some(a)), db, Insert(ours, row)) == (db[ours := row], Affected({ours}))
  {
    assert {theirs} - {ours} <= db.Keys;
  }

  lemma DeleteBoth(db: Db, b: Tenant, theirs: Key, ours: Key)
    requires db.Keys == {theirs, ours} && theirs != ours && db[theirs].tenant == Some(b) && db[theirs].refs == {}
    requires db[ours].tenant != Some(b) && db[ours].refs == {theirs} && Cascades(ours.table, theirs.table)
    requires !NullableTenant(ours.table)
    ensures Execute(ScopeOf(Some(b)), db, Delete(theirs.table, (_, _) => true)).0 == map[]
  {
    hide Gone;
    ChosenArePicked(ScopeOf(Some(b)), Some(b), db, theirs.table, (_, _) => true);
    assert Chosen(ScopeOf(Some(b)), db, theirs.table, (_, _) => true).Keys == {theirs};
    GoneIsClosed(db, {theirs});
    assert LeansOn(ours, db[ours], Gone(db, {theirs}));
    assert Gone(db, {theirs}) == db.Keys;
    assert db - db.Keys == map[];
  }

  /** A handler of one statement. */
  function Once(stmt: Stmt): Handler {
    (answers: seq<Answer>) => if answers == [] then Do(stmt) else Return
  }

  lemma ServeOnce(db: Db, rs: seq<Request>, r: Request)
    requires !ByAdmin(r) && r.limit == 1 && r.handler([]).Do? && forall a: Answer :: r.handler([a]) == Return
    ensures Serve(Reached(db, rs), r).0.db == Execute(ScopeOf(Who(r)), Reached(db, rs).db, r.handler([]).stmt).0
  {
    hide Execute, Serve, Reached;
    ServeByScope(db, rs, r);
    var p := Reached(db, rs);
    var (after, answer) := Execute(ScopeOf(Who(r)), p.db, r.handler([]).stmt);
    assert [] + [answer] == [answer];
  }

  // ---------- What is shown, and what is stored ----------

  /** Every row that an answer returns is one that `who` may see. */
  ghost predicate AnswerWithin(who: Option<Tenant>, a: Answer) {
    a.Rows? ==> forall k: Key :: k in a.rows ==> Shows(who, k.table, a.rows[k].tenant)
  }

  lemma {:induction false} AnswersWithin(s: Settings, who: Option<Tenant>, db: Db, handler: Handler,
                                         answers: seq<Answer>, n: nat)
    requires ScopedTo(s, who)
    requires forall a :: a in answers ==> AnswerWithin(who, a)
    ensures forall a :: a in Transact(s, db, handler, answers, n).1 ==> AnswerWithin(who, a)
    decreases n
  {
    hide AnswerWithin, Execute, ScopedTo;
    if handler(answers).Do? && n > 0 {
      var (db', answer) := Execute(s, db, handler(answers).stmt);
      OneAnswerWithin(s, who, db, handler(answers).stmt);
      AnswersWithin(s, who, db', handler, answers + [answer], n - 1);
    }
  }

  lemma OneAnswerWithin(s: Settings, who: Option<Tenant>, db: Db, stmt: Stmt)
    requires ScopedTo(s, who)
    ensures AnswerWithin(who, Execute(s, db, stmt).1)
  {
    if stmt.Select? {
      ChosenArePicked(s, who, db, stmt.table, stmt.where);
    }
  }

  /** A request without a tenant is never shown a row of the sixteen standard tables; one with a tenant is shown only
      its own rows of them. */
  lemma StandardTablesAreClosed(db: Db, rs: seq<Request>, r: Request, i: nat, k: Key)
    requires !ByAdmin(r)
    requires var answers := Serve(Reached(db, rs), r).1;
      i < |answers| && answers[i].Rows? && k in answers[i].rows && !NullableTenant(k.table)
    ensures r.ctx.Some? && Serve(Reached(db, rs), r).1[i].rows[k].tenant == Some(r.ctx.value.tenant)
  {
    hide Execute;
    var p := Reached(db, rs);
    ScopeOfRequest(db, rs, r);
    AnswersWithin(InTransaction(SettingsOf(p, r.connection), r.ctx), Who(r), p.db, r.handler, [], r.limit);
    assert AnswerWithin(Who(r), Serve(p, r).1[i]);
  }

  /** Rows without a tenant never appear in the standard tables, and every foreign key names a row that exists. */
  ghost predicate Consistent(db: Db) {
    forall k :: k in db ==> !NullViolation(k, db[k]) && db[k].refs <= db.Keys
  }

  /** This holds in every run, whoever the requests come from: a deletion that leaves a reference behind is refused. */
  lemma {:induction false} RunsStayConsistent(db: Db, rs: seq<Request>)
    requires Consistent(db)
    ensures Consistent(Reached(db, rs).db)
  {
    hide Consistent;
    if rs != [] {
      var r := rs[|rs| - 1];
      var p := Reached(db, rs[..|rs| - 1]);
      RunsStayConsistent(db, rs[..|rs| - 1]);
      TransactKeepsConsistent(InTransaction(SettingsOf(p, r.connection), r.ctx), p.db, r.handler, [], r.limit);
    }
  }

  lemma {:induction false} TransactKeepsConsistent(s: Settings, db: Db, handler: Handler, answers: seq<Answer>, n: nat)
    requires Consistent(db)
    ensures Consistent(Transact(s, db, handler, answers, n).0)
    decreases n
  {
    hide Consistent, Execute;
    if handler(answers).Do? && n > 0 {
      var (db', answer) := Execute(s, db, handler(answers).stmt);
      ExecuteKeepsConsistent(s, db, handler(answers).stmt);
      TransactKeepsConsistent(s, db', handler, answers + [answer], n - 1);
    }
  }

  lemma ExecuteKeepsConsistent(s: Settings, db: Db, stmt: Stmt)
    requires Consistent(db)
    ensures Consistent(Execute(s, db, stmt).0)
  {
    hide Visible, Gone;
    match stmt
    case Select(t, where) =>
    case Insert(k, r) =>
    case Update(t, where, change) =>
      var (after, answer) := Execute(s, db, stmt);
      var chosen := Chosen(s, db, t, where);
      if answer.Affected? {
        forall k | k in after ensures !NullViolation(k, after[k]) && after[k].refs <= after.Keys {
          if k in chosen {
            assert change(chosen[k]).refs - chosen[k].refs <= NewRefs(chosen, change);
          }
        }
      }
    case Delete(t, where) =>
      var gone := Gone(db, Chosen(s, db, t, where).Keys);
      if !Stuck(db, gone) {
        forall k | k in db - gone ensures db[k].refs <= (db - gone).Keys {
          assert db[k].refs !! gone;
        }
      }
  }
}
