/**
 What the statements of a request do, said row by row and without the functions that execute them: what a query finds,
 what a write leaves behind, and when it is refused. Every request of every run, an administrator's too, is a sequence of
 such statements, and commits what they did or nothing.
 */
module TransactionLaws {
  import opened Wrappers
  import opened RowLevelSecurity
  import opened TenantIsolation

  // ---------- Which rows ----------

  /** Whether the request may read, and write, a row of the table with that tenant. */
  predicate Admitted(r: Request, t: Table, rowTenant: Option<Tenant>) {
    ByAdmin(r) || Shows(Who(r), t, rowTenant)
  }

  lemma AdmittedByPolicy(db: Db, rs: seq<Request>, r: Request, t: Table, rowTenant: Option<Tenant>)
    ensures Admitted(r, t, rowTenant)
      <==> Visible(InTransaction(SettingsOf(Reached(db, rs), r.connection), r.ctx), t, rowTenant)
  {
    ScopeOfRequest(db, rs, r);
    ScopedSees(InTransaction(SettingsOf(Reached(db, rs), r.connection), r.ctx), Who(r), t, rowTenant);
  }

  /** The row is there, the request may read it, and it meets the condition. */
  predicate Selects(r: Request, db: Db, t: Table, where: Condition, k: Key) {
    k in db && k.table == t && Admitted(r, t, db[k].tenant) && where(k, db[k])
  }

  /** The row may be written by the request, and every reference that it adds names a row, or the row itself. */
  predicate Writable(r: Request, db: Db, k: Key, row: Row, added: set<Key>) {
    Admitted(r, k.table, row.tenant) && (row.tenant.None? ==> NullableTenant(k.table)) && added <= db.Keys + {k}
  }

  /** The selected rows, and what leans on them by cascading foreign keys: `gone` holds nothing else. */
  ghost predicate IsTaken(r: Request, db: Db, t: Table, where: Condition, gone: set<Key>) {
    && Leaned(r, db, t, where, gone)
    && forall other: set<Key> :: Leaned(r, db, t, where, other) ==> gone <= other
  }

  ghost predicate Leaned(r: Request, db: Db, t: Table, where: Condition, keys: set<Key>) {
    && (forall k :: Selects(r, db, t, where, k) ==> k in keys)
    && forall k, q :: k in db && q in db[k].refs && q in keys && Cascades(k.table, q.table) ==> k in keys
  }

  /** Some row would be left with a reference to a row that goes. */
  ghost predicate LeavesReference(db: Db, gone: set<Key>) {
    exists k, q :: k in db && k !in gone && q in db[k].refs && q in gone
  }

  // ---------- One statement ----------

  /** What the statement does to the database, and what it answers. */
  ghost predicate Obeys(r: Request, stmt: Stmt, before: Db, after: Db, answer: Answer) {
    match stmt
    case Select(t, where) => Finds(r, t, where, before, answer) && after == before
    case Insert(k, row) =>
      if k !in before && Writable(r, before, k, row, row.refs)
      then answer == Affected({k}) && after.Keys == before.Keys + {k}
           && forall q :: q in after ==> after[q] == if q == k then row else before[q]
      else answer.Failed? && after == before
    case Update(t, where, change) =>
      if forall k :: Selects(r, before, t, where, k) ==>
           Writable(r, before, k, change(before[k]), change(before[k]).refs - before[k].refs)
      then Hits(r, t, where, before, answer) && after.Keys == before.Keys
           && forall k :: k in before ==>
                after[k] == if Selects(r, before, t, where, k) then change(before[k]) else before[k]
      else answer.Failed? && after == before
    case Delete(t, where) =>
      exists gone: set<Key> :: IsTaken(r, before, t, where, gone)
        && if LeavesReference(before, gone) then answer.Failed? && after == before
           else Hits(r, t, where, before, answer) && after.Keys == before.Keys - gone
                && forall k :: k in after ==> after[k] == before[k]
  }

  /** Exactly the selected rows, as they are stored. */
  ghost predicate Finds(r: Request, t: Table, where: Condition, db: Db, answer: Answer) {
    answer.Rows?
    && (forall k: Key :: k in answer.rows <==> Selects(r, db, t, where, k))
    && (forall k: Key :: k in answer.rows ==> k in db && answer.rows[k] == db[k])
  }

  ghost predicate Hits(r: Request, t: Table, where: Condition, db: Db, answer: Answer) {
    answer.Affected? && forall k: Key :: k in answer.keys <==> Selects(r, db, t, where, k)
  }

  ghost predicate SameSight(s: Settings, r: Request) {
    forall t: Table, o: Option<Tenant> :: Visible(s, t, o) <==> Admitted(r, t, o)
  }

  lemma ExecuteObeys(s: Settings, r: Request, db: Db, stmt: Stmt)
    requires SameSight(s, r)
    ensures Obeys(r, stmt, db, Execute(s, db, stmt).0, Execute(s, db, stmt).1)
  {
    match stmt
    case Select(t, where) => ChosenIsSelected(s, r, db, t, where);
    case Insert(k, row) => InsertObeys(s, r, db, k, row);
    case Update(t, where, change) => UpdateObeys(s, r, db, t, where, change);
    case Delete(t, where) => DeleteObeys(s, r, db, t, where);
  }

  lemma ChosenIsSelected(s: Settings, r: Request, db: Db, t: Table, where: Condition)
    requires SameSight(s, r)
    ensures forall k: Key :: k in Chosen(s, db, t, where) <==> Selects(r, db, t, where, k)
    ensures forall k: Key :: k in Chosen(s, db, t, where) ==>
      k in db && k.table == t && Chosen(s, db, t, where)[k] == db[k]
  {
    hide Visible, Admitted;
  }

  lemma InsertObeys(s: Settings, r: Request, db: Db, k: Key, row: Row)
    requires SameSight(s, r)
    ensures Obeys(r, Insert(k, row), db, Execute(s, db, Insert(k, row)).0, Execute(s, db, Insert(k, row)).1)
  {
    hide Visible, Admitted;
  }

  lemma UpdateObeys(s: Settings, r: Request, db: Db, t: Table, where: Condition, change: Row -> Row)
    requires SameSight(s, r)
    ensures var stmt := Update(t, where, change);
      Obeys(r, stmt, db, Execute(s, db, stmt).0, Execute(s, db, stmt).1)
  {
    hide Visible, Admitted, Chosen, Selects, Writable, NewRefs, Dangling;
    ChosenIsSelected(s, r, db, t, where);
    UpdateFails(s, r, db, Chosen(s, db, t, where), change, t);
  }

  lemma UpdateFails(s: Settings, r: Request, db: Db, rows: map<Key, Row>, change: Row -> Row, t: Table)
    requires SameSight(s, r)
    requires forall k :: k in rows ==> k in db && k.table == t && rows[k] == db[k]
    ensures (forall k :: k in rows ==> Writable(r, db, k, change(db[k]), change(db[k]).refs - db[k].refs))
      <==> && (forall k :: k in rows ==> Visible(s, t, change(rows[k]).tenant))
           && (forall k :: k in rows ==> !NullViolation(k, change(rows[k])))
           && !Dangling(db, NewRefs(rows, change))
  {
    hide Visible, Admitted, NewRefs, Dangling;
    NewRefsExist(db, rows, change);
    forall k | k in rows
      ensures Writable(r, db, k, change(db[k]), change(db[k]).refs - db[k].refs)
        <==> && Visible(s, t, change(rows[k]).tenant) && !NullViolation(k, change(rows[k]))
             && change(rows[k]).refs - rows[k].refs <= db.Keys
    {
      assert db.Keys + {k} == db.Keys;
    }
  }

  lemma NewRefsExist(db: Db, rows: map<Key, Row>, change: Row -> Row)
    ensures !Dangling(db, NewRefs(rows, change))
      <==> forall k :: k in rows ==> change(rows[k]).refs - rows[k].refs <= db.Keys
  {
    forall k | k in rows ensures change(rows[k]).refs - rows[k].refs <= NewRefs(rows, change) {}
  }

  lemma DeleteObeys(s: Settings, r: Request, db: Db, t: Table, where: Condition)
    requires SameSight(s, r)
    ensures Obeys(r, Delete(t, where), db, Execute(s, db, Delete(t, where)).0, Execute(s, db, Delete(t, where)).1)
  {
    hide Visible, Admitted, Chosen, Gone, Selects, IsTaken;
    ChosenIsSelected(s, r, db, t, where);
    var keys := Chosen(s, db, t, where).Keys;
    var gone := Gone(db, keys);
    GoneIsTaken(r, db, t, where, keys);
    StuckLeavesReference(db, gone);
  }

  lemma StuckLeavesReference(db: Db, gone: set<Key>)
    ensures Stuck(db, gone) <==> LeavesReference(db, gone)
  {
    if LeavesReference(db, gone) {
      var k, q :| k in db && k !in gone && q in db[k].refs && q in gone;
      assert q in db[k].refs * gone;
    }
    if Stuck(db, gone) {
      var k :| k in db && k !in gone && !(db[k].refs !! gone);
      var q :| q in db[k].refs && q in gone;
    }
  }

  lemma GoneIsTaken(r: Request, db: Db, t: Table, where: Condition, keys: set<Key>)
    requires forall k: Key :: k in keys <==> Selects(r, db, t, where, k)
    ensures IsTaken(r, db, t, where, Gone(db, keys))
  {
    hide Selects, Gone;
    GoneIsClosed(db, keys);
    var gone := Gone(db, keys);
    assert Leaned(r, db, t, where, gone) by {
      forall k, q | k in db && q in db[k].refs && q in gone && Cascades(k.table, q.table) ensures k in gone {
        assert LeansOn(k, db[k], gone);
      }
    }
    forall other: set<Key> | Leaned(r, db, t, where, other) ensures gone <= other {
      forall k | k in db && LeansOn(k, db[k], other) ensures k in other {
        var q :| q in db[k].refs && q in other && Cascades(k.table, q.table);
      }
      GoneIsLeast(db, keys, other);
    }
  }

  // ---------- Whole requests ----------

  /** The request runs through the databases `dbs`: each of its statements is the one that the handler picks, and does what
      such a statement does. It goes on until the handler returns, raises, or is out of statements. */
  ghost predicate RunsThrough(r: Request, dbs: seq<Db>, answers: seq<Answer>) {
    && Steps(r, dbs, answers) && |answers| <= r.limit
    && (r.handler(answers).Do? ==> |answers| == r.limit)
  }

  ghost predicate Steps(r: Request, dbs: seq<Db>, answers: seq<Answer>) {
    |dbs| == |answers| + 1 && forall i :: 0 <= i < |answers| ==> OneStep(r, dbs, answers, i)
  }

  ghost predicate OneStep(r: Request, dbs: seq<Db>, answers: seq<Answer>, i: nat)
    requires i < |answers| && |dbs| == |answers| + 1
  {
    r.handler(answers[..i]).Do? && Obeys(r, r.handler(answers[..i]).stmt, dbs[i], dbs[i + 1], answers[i])
  }

  lemma OneStepMore(r: Request, dbs: seq<Db>, answers: seq<Answer>, db: Db, answer: Answer)
    requires Steps(r, dbs, answers) && r.handler(answers).Do?
    requires Obeys(r, r.handler(answers).stmt, dbs[|answers|], db, answer)
    ensures Steps(r, dbs + [db], answers + [answer])
  {
    hide Obeys;
    var all := answers + [answer];
    assert all[..|answers|] == answers;
    forall i | 0 <= i < |all| ensures OneStep(r, dbs + [db], all, i) {
      if i < |answers| {
        assert OneStep(r, dbs, answers, i) && all[..i] == answers[..i];
      }
    }
  }

  lemma {:induction false} TransactObeys(s: Settings, r: Request, dbs: seq<Db>, answers: seq<Answer>, n: nat)
    returns (all: seq<Db>)
    requires SameSight(s, r) && Steps(r, dbs, answers)
    ensures var (after, told, ok) := Transact(s, dbs[|answers|], r.handler, answers, n);
      && Steps(r, all, told) && dbs <= all && all[|told|] == after && |told| <= |answers| + n
      && (r.handler(told).Do? ==> |told| == |answers| + n)
      && (ok <==> r.handler(told).Return?)
    decreases n
  {
    hide Execute, Obeys, SameSight, Steps;
    StepsLength(r, dbs, answers);
    if r.handler(answers).Do? && n > 0 {
      var (db, answer) := Execute(s, dbs[|answers|], r.handler(answers).stmt);
      ExecuteObeys(s, r, dbs[|answers|], r.handler(answers).stmt);
      OneStepMore(r, dbs, answers, db, answer);
      all := TransactObeys(s, r, dbs + [db], answers + [answer], n - 1);
    } else {
      all := dbs;
    }
  }

  lemma StepsLength(r: Request, dbs: seq<Db>, answers: seq<Answer>)
    requires Steps(r, dbs, answers)
    ensures |dbs| == |answers| + 1
  {}

  /** Every request of every run, on whatever connection: it runs through the databases statement by statement, starting
      from what was committed before; what it has done at the end is committed exactly if its handler returned. */
  lemma ServeRunsThrough(db: Db, rs: seq<Request>, r: Request) returns (dbs: seq<Db>)
    ensures var answers := Serve(Reached(db, rs), r).1;
      && RunsThrough(r, dbs, answers) && dbs[0] == Reached(db, rs).db
      && Reached(db, rs + [r]).db == if r.handler(answers).Return? then dbs[|answers|] else dbs[0]
  {
    hide Obeys, Transact, Reached;
    var p := Reached(db, rs);
    var s := InTransaction(SettingsOf(p, r.connection), r.ctx);
    assert SameSight(s, r) by {
      forall t: Table, o: Option<Tenant> ensures Visible(s, t, o) <==> Admitted(r, t, o) {
        AdmittedByPolicy(db, rs, r, t, o);
      }
    }
    dbs := TransactObeys(s, r, [p.db], [], r.limit);
    ReachedOneMore(db, rs, [r]);
    assert rs + [r][..0] == rs;
  }

  /** So the query of a request finds every row that the request may read and the condition selects, and no other. */
  lemma QueriesFind(r: Request, dbs: seq<Db>, answers: seq<Answer>, i: nat)
    requires RunsThrough(r, dbs, answers) && i < |answers|
    requires r.handler(answers[..i]).Do? && r.handler(answers[..i]).stmt.Select?
    ensures var stmt := r.handler(answers[..i]).stmt;
      && answers[i].Rows?
      && (forall k: Key :: k in answers[i].rows <==>
            k in dbs[i] && k.table == stmt.table && Admitted(r, k.table, dbs[i][k].tenant) && stmt.where(k, dbs[i][k]))
      && (forall k: Key :: k in answers[i].rows ==> answers[i].rows[k] == dbs[i][k])
  {
    assert OneStep(r, dbs, answers, i);
  }
}
