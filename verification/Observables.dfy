/**
 Creating observables, one at a time or in bulk. A value is stored in its normalised form; a bulk request whose list
 holds an invalid item fails as a whole and is rolled back.
 */
module Observables {
  import opened Wrappers
  import opened Validators
  import opened CaseService

  datatype ObservableCreate = ObservableCreate(kind: ObservableType, value: string, tlp: Option<Tlp>, isIoc: bool)

  function Normalized(library: Library, item: ObservableCreate): Result<string> {
    ValidateObservable(library, item.kind, item.value)
  }

  predicate Valid(library: Library, item: ObservableCreate) {
    Normalized(library, item).Ok?
  }

  function WithItem(library: Library, db: Db, caseId: Uuid, item: ObservableCreate): Result<Db> {
    if caseId !in db.cases then Err(NotFound)
    else match Normalized(library, item)
         case Err(e) => Err(e)
         case Ok(value) => WithObservable(db, caseId, item.kind, value, item.tlp, item.isIoc)
  }

  /** The items one after the other, until the first that fails. */
  function WithItems(library: Library, db: Db, caseId: Uuid, items: seq<ObservableCreate>): Result<Db> {
    if items == [] then Ok(db)
    else
      var rest := WithItems(library, db, caseId, items[..|items| - 1]);
      if rest.Ok? then WithItem(library, rest.value, caseId, items[|items| - 1]) else rest
  }

  class ObservableService {
    var db: Db

    method CreateObservable(library: Library, caseId: Uuid, item: ObservableCreate) returns (r: Result<Observable>)
      modifies this
      ensures var done := WithItem(library, old(db), caseId, item);
        if done.Ok? then db == done.value && |db.observables| > 0 && r == Ok(db.observables[|db.observables| - 1])
        else db == old(db) && r == Err(done.error)
    {
      if caseId !in db.cases {
        return Err(NotFound);
      }
      var normalized := ValidateObservable(library, item.kind, item.value);
      if normalized.Err? {
        return Err(normalized.error);
      }
      var tenant := db.cases[caseId].tenant;
      var obs := Observable(tenant, caseId, item.kind, normalized.value, item.tlp, item.isIoc);
      db := db.(observables := db.observables + [obs],
                entries := db.entries + [Entry(tenant, caseId, ObservableAdded(obs.kind, obs.value), true)]);
      return Ok(obs);
    }

    /** The first failing item ends the request, and the session is rolled back. */
    method CreateObservablesBulk(library: Library, caseId: Uuid, items: seq<ObservableCreate>)
      returns (r: Result<seq<Observable>>)
      modifies this
      ensures var done := WithItems(library, old(db), caseId, items);
        if done.Ok? then db == done.value && r.Ok? && db.observables == old(db.observables) + r.value
        else db == old(db) && r.Err?
    {
      var start := db;
      var created: seq<Observable> := [];
      for i := 0 to |items|
        invariant WithItems(library, start, caseId, items[..i]) == Ok(db)
        invariant db.observables == start.observables + created
      {
        assert items[..i + 1][..i] == items[..i];
        var one := CreateObservable(library, caseId, items[i]);
        if one.Err? {
          FirstFailure(library, start, caseId, items, i);
          db := start;
          return Err(one.error);
        }
        created := created + [one.value];
      }
      assert items[..|items|] == items;
      return Ok(created);
    }
  }

  lemma {:induction false} FirstFailure(library: Library, db: Db, caseId: Uuid, items: seq<ObservableCreate>, i: nat)
    requires i < |items| && WithItems(library, db, caseId, items[..i + 1]).Err?
    ensures WithItems(library, db, caseId, items).Err?
    decreases |items|
  {
    if i + 1 == |items| {
      assert items[..i + 1] == items;
    } else {
      assert items[..|items| - 1][..i + 1] == items[..i + 1];
      FirstFailure(library, db, caseId, items[..|items| - 1], i);
    }
  }

  // ---------- What a bulk request adds ----------

  /** The row an item becomes. */
  function RowOf(library: Library, tenant: Uuid, caseId: Uuid, item: ObservableCreate): Observable
    requires Valid(library, item)
  {
    Observable(tenant, caseId, item.kind, Normalized(library, item).value, item.tlp, item.isIoc)
  }

  function EntryOf(library: Library, tenant: Uuid, caseId: Uuid, item: ObservableCreate): Entry
    requires Valid(library, item)
  {
    Entry(tenant, caseId, ObservableAdded(item.kind, Normalized(library, item).value), true)
  }

  ghost predicate AllValid(library: Library, items: seq<ObservableCreate>) {
    forall i :: 0 <= i < |items| ==> Valid(library, items[i])
  }

  /** The database with one row and one `observable_added` entry per item, in the order of the items. */
  function Extended(library: Library, db: Db, caseId: Uuid, items: seq<ObservableCreate>): Db
    requires caseId in db.cases && AllValid(library, items)
  {
    var t := db.cases[caseId].tenant;
    db.(observables := db.observables + seq(|items|, i requires 0 <= i < |items| => RowOf(library, t, caseId, items[i])),
        entries := db.entries + seq(|items|, i requires 0 <= i < |items| => EntryOf(library, t, caseId, items[i])))
  }

  /** A bulk request succeeds exactly when every item is valid, and then adds all of them; otherwise it adds nothing. */
  lemma {:induction false} BulkIsAllOrNothing(library: Library, db: Db, caseId: Uuid, items: seq<ObservableCreate>)
    requires caseId in db.cases
    ensures WithItems(library, db, caseId, items).Ok? <==> AllValid(library, items)
    ensures AllValid(library, items) ==> WithItems(library, db, caseId, items).value == Extended(library, db, caseId, items)
    decreases |items|
  {
    if items != [] {
      var n := |items| - 1;
      BulkIsAllOrNothing(library, db, caseId, items[..n]);
      assert AllValid(library, items) <==> AllValid(library, items[..n]) && Valid(library, items[n]);
      if AllValid(library, items[..n]) && Valid(library, items[n]) {
        assert AllValid(library, items);
        var a, b := Extended(library, db, caseId, items[..n]), Extended(library, db, caseId, items);
        assert b.observables == a.observables + [RowOf(library, db.cases[caseId].tenant, caseId, items[n])];
        assert b.entries == a.entries + [EntryOf(library, db.cases[caseId].tenant, caseId, items[n])];
      }
    }
  }

  /** A creation succeeds exactly if the case exists and the value is valid. It adds one row, which has the case, the tenant of
      the case, and what was sent with the value normalised, and one entry about it. */
  lemma CreationAddsOneRow(library: Library, db: Db, caseId: Uuid, item: ObservableCreate)
    ensures var done := WithItem(library, db, caseId, item);
      && (done.Ok? <==> caseId in db.cases && ValidateObservable(library, item.kind, item.value).Ok?)
      && (done.Ok? ==>
            && done.value.cases == db.cases
            && |done.value.observables| == |db.observables| + 1 && |done.value.entries| == |db.entries| + 1
            && done.value.observables[..|db.observables|] == db.observables
            && done.value.entries[..|db.entries|] == db.entries
            && var o := done.value.observables[|db.observables|];
               && o.caseId == caseId && o.tenant == db.cases[caseId].tenant && o.kind == item.kind
               && Ok(o.value) == ValidateObservable(library, item.kind, item.value)
               && o.tlp == item.tlp && o.isIoc == item.isIoc
               && done.value.entries[|db.entries|] == Entry(o.tenant, caseId, ObservableAdded(o.kind, o.value), true))
  {
    hide ValidateObservable;
  }

  // ---------- What is stored ----------

  /** The value is what the validator made of some input. */
  ghost predicate IsNormalised(library: Library, o: Observable) {
    exists raw :: ValidateObservable(library, o.kind, raw) == Ok(o.value)
  }

  datatype Op =
    | CreateOne(caseId: Uuid, item: ObservableCreate)
    | CreateBulk(caseId: Uuid, items: seq<ObservableCreate>)
    | OnCases(request: Request)

  /** Requests to the case service, which never write an observable themselves, and creations, in any order. */
  function Apply(library: Library, db: Db, op: Op): Db {
    match op
    case CreateOne(caseId, item) =>
      (var done := WithItem(library, db, caseId, item); if done.Ok? then done.value else db)
    case CreateBulk(caseId, items) =>
      (var done := WithItems(library, db, caseId, items); if done.Ok? then done.value else db)
    case OnCases(r) => if r.AddObservable? then db else After(db, r)
  }

  function RunOps(library: Library, ops: seq<Op>): Db {
    if ops == [] then EMPTY else Apply(library, RunOps(library, ops[..|ops| - 1]), ops[|ops| - 1])
  }

  ghost predicate AllNormalised(library: Library, db: Db) {
    forall i :: 0 <= i < |db.observables| ==> IsNormalised(library, db.observables[i])
  }

  lemma ItemKeepsNormalised(library: Library, db: Db, caseId: Uuid, item: ObservableCreate)
    requires AllNormalised(library, db) && WithItem(library, db, caseId, item).Ok?
    ensures AllNormalised(library, WithItem(library, db, caseId, item).value)
  {
    assert ValidateObservable(library, item.kind, item.value) == Ok(Normalized(library, item).value);
  }

  lemma {:induction false} ItemsKeepNormalised(library: Library, db: Db, caseId: Uuid, items: seq<ObservableCreate>)
    requires AllNormalised(library, db) && WithItems(library, db, caseId, items).Ok?
    ensures AllNormalised(library, WithItems(library, db, caseId, items).value)
    decreases |items|
  {
    if items != [] {
      ItemsKeepNormalised(library, db, caseId, items[..|items| - 1]);
      ItemKeepsNormalised(library, WithItems(library, db, caseId, items[..|items| - 1]).value, caseId, items[|items| - 1]);
    }
  }

  lemma {:induction false} StoredValuesAreNormalised(library: Library, ops: seq<Op>)
    ensures AllNormalised(library, RunOps(library, ops))
    decreases |ops|
  {
    if ops != [] {
      var db := RunOps(library, ops[..|ops| - 1]);
      StoredValuesAreNormalised(library, ops[..|ops| - 1]);
      match ops[|ops| - 1]
      case CreateOne(caseId, item) =>
        if WithItem(library, db, caseId, item).Ok? { ItemKeepsNormalised(library, db, caseId, item); }
      case CreateBulk(caseId, items) =>
        if WithItems(library, db, caseId, items).Ok? { ItemsKeepNormalised(library, db, caseId, items); }
      case OnCases(r) =>
        forall i | 0 <= i < |RunOps(library, ops).observables|
          ensures IsNormalised(library, RunOps(library, ops).observables[i])
        {
          assert IsNormalised(library, db.observables[i]);
        }
    }
  }

  /** After any run, a stored e-mail or hash is a fixed point of its normaliser, a stored hash is lowercase hex of its
      length, and a stored domain or host name is a fixed point exactly when it does not end in a newline. */
  lemma StoredFixedPoints(library: Library, ops: seq<Op>, i: nat)
    requires i < |RunOps(library, ops).observables|
    ensures var o := RunOps(library, ops).observables[i];
      && (o.kind.Email? || o.kind.HashMd5? || o.kind.HashSha1? || o.kind.HashSha256? ==>
            ValidateObservable(library, o.kind, o.value) == Ok(o.value))
      && (o.kind.HashMd5? || o.kind.HashSha1? || o.kind.HashSha256? ==>
            |o.value| == HashLength(o.kind) && forall k :: 0 <= k < |o.value| ==> LowerHex(o.value[k]))
      && (o.kind.Domain? || o.kind.Hostname? ==>
            (ValidateObservable(library, o.kind, o.value) == Ok(o.value) <==> !EndsInNewline(o.value)))
  {
    var o := RunOps(library, ops).observables[i];
    StoredValuesAreNormalised(library, ops);
    var raw :| ValidateObservable(library, o.kind, raw) == Ok(o.value);
    match o.kind
    case Email => EmailFixedPoint(raw);
    case HashMd5 => HashFixedPoint(raw, 32); HashIsLowerHex(raw, 32);
    case HashSha1 => HashFixedPoint(raw, 40); HashIsLowerHex(raw, 40);
    case HashSha256 => HashFixedPoint(raw, 64); HashIsLowerHex(raw, 64);
    case Domain => DomainFixedPointIff(raw); LoweredName(raw);
    case Hostname => HostnameFixedPointIff(raw); LoweredName(raw);
    case _ =>
  }
}
