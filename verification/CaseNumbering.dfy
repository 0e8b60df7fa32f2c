/**
 Case numbers under interleaved transactions. A creating transaction reads MAX + 1 over what it sees, and inserts that
 number later; the unique constraint on (tenant, number) makes an insert fail when the number is committed, and wait
 while another open transaction holds it. Cases are not deleted here.
 */
module CaseNumbering {
  import opened Wrappers

  type Tenant = nat
  type TxId = nat

  datatype Row = Row(tenant: Tenant, number: int)

  /** An open transaction of one tenant: the rows it has inserted, and the number it has read but not used yet. */
  datatype Tx = Tx(tenant: Tenant, own: seq<int>, read: Option<int>)

  /** `committed` lists the committed rows in commit order. */
  datatype State = State(committed: seq<Row>, open: map<TxId, Tx>)

  /** The numbers of one tenant, in commit order. */
  function Numbers(rows: seq<Row>, t: Tenant): seq<int> {
    if rows == [] then []
    else
      var last := rows[|rows| - 1];
      Numbers(rows[..|rows| - 1], t) + (if last.tenant == t then [last.number] else [])
  }

  // ---------- The database function ----------

  /** `n` is the largest of the numbers, or 0 when there is none. */
  ghost predicate IsMax(numbers: seq<int>, n: int) {
    && (forall i :: 0 <= i < |numbers| ==> numbers[i] <= n)
    && (if numbers == [] then n == 0 else n in numbers)
  }

  function Max(numbers: seq<int>): (n: int)
    ensures IsMax(numbers, n)
  {
    if numbers == [] then 0
    else
      var last := numbers[|numbers| - 1];
      var rest := Max(numbers[..|numbers| - 1]);
      if |numbers| == 1 || rest < last then last else rest
  }

  lemma MaxAppend(numbers: seq<int>, n: int)
    ensures Max(numbers + [n]) == if numbers == [] || Max(numbers) < n then n else Max(numbers)
  {
    assert (numbers + [n])[..|numbers|] == numbers;
  }

  lemma NextRow(rows: seq<Row>, t: Tenant, i: nat)
    requires i < |rows|
    ensures Numbers(rows[..i + 1], t)
      == if rows[i].tenant == t then Numbers(rows[..i], t) + [rows[i].number] else Numbers(rows[..i], t)
  {
    assert rows[..i + 1][..i] == rows[..i];
  }

  lemma NoNumbers(t: Tenant)
    ensures Numbers([], t) == [] && Max([]) == 0
  {}

  /** `SELECT COALESCE(MAX(case_number), 0) + 1 ... WHERE tenant_id = p_tenant_id`, as a scan of the visible rows. */
  method NextCaseNumber(rows: seq<Row>, t: Tenant) returns (next: int)
    ensures next == Max(Numbers(rows, t)) + 1
  {
    hide Numbers, Max;
    NoNumbers(t);
    var max: Option<int> := None;
    for i := 0 to |rows|
      invariant max.None? <==> Numbers(rows[..i], t) == []
      invariant max.Some? ==> max.value == Max(Numbers(rows[..i], t))
    {
      NextRow(rows, t, i);
      if rows[i].tenant == t {
        MaxAppend(Numbers(rows[..i], t), rows[i].number);
        if max.None? || max.value < rows[i].number {
          max := Some(rows[i].number);
        }
      }
    }
    assert rows[..|rows|] == rows;
    next := (if max.Some? then max.value else 0) + 1;
  }

  // ---------- Transactions ----------

  datatype Step =
    | Begin(tx: TxId, tenant: Tenant)
    | Read(tx: TxId)
    | Insert(tx: TxId)
    | Commit(tx: TxId)
    | Abort(tx: TxId)

  /** Another open transaction of the tenant holds the number, so the insert waits. */
  predicate Blocked(s: State, x: TxId, n: int)
    requires x in s.open
  {
    exists y :: y in s.open && y != x && s.open[y].tenant == s.open[x].tenant && n in s.open[y].own
  }

  predicate Enabled(s: State, step: Step) {
    match step
    case Begin(x, _) => x !in s.open
    case Read(x) => x in s.open
    case Insert(x) => x in s.open && s.open[x].read.Some? && !Blocked(s, x, s.open[x].read.value)
    case Commit(x) => x in s.open
    case Abort(x) => x in s.open
  }

  function Visible(s: State, x: TxId): seq<int>
    requires x in s.open
  {
    Numbers(s.committed, s.open[x].tenant) + s.open[x].own
  }

  function OwnRows(tx: Tx): seq<Row> {
    seq(|tx.own|, i requires 0 <= i < |tx.own| => Row(tx.tenant, tx.own[i]))
  }

  function Do(s: State, step: Step): State
    requires Enabled(s, step)
  {
    match step
    case Begin(x, t) => s.(open := s.open[x := Tx(t, [], None)])
    case Read(x) => s.(open := s.open[x := s.open[x].(read := Some(Max(Visible(s, x)) + 1))])
    case Insert(x) =>
      var tx := s.open[x];
      var n := tx.read.value;
      if n in Visible(s, x) then s.(open := s.open - {x})  // unique violation: the request fails and is rolled back
      else s.(open := s.open[x := tx.(own := tx.own + [n], read := None)])
    case Commit(x) => State(s.committed + OwnRows(s.open[x]), s.open - {x})
    case Abort(x) => s.(open := s.open - {x})
  }

  function Reached(steps: seq<Step>): State {
    if steps == [] then State([], map[])
    else
      var s := Reached(steps[..|steps| - 1]);
      var step := steps[|steps| - 1];
      if Enabled(s, step) then Do(s, step) else s
  }

  // ---------- Consecutive numbers ----------

  /** `numbers` is first, first + 1, first + 2, ... */
  ghost predicate Consecutive(numbers: seq<int>, first: int) {
    forall i :: 0 <= i < |numbers| ==> numbers[i] == first + i
  }

  ghost function Count(s: State, t: Tenant): nat {
    |Numbers(s.committed, t)|
  }

  ghost predicate TxInv(s: State, tx: Tx) {
    && Consecutive(tx.own, Count(s, tx.tenant) + 1)
    && (tx.read.Some? ==> 1 <= tx.read.value <= Count(s, tx.tenant) + |tx.own| + 1)
  }

  ghost predicate Inv(s: State) {
    && (forall t: Tenant :: Consecutive(Numbers(s.committed, t), 1))
    && (forall x :: x in s.open ==> TxInv(s, s.open[x]))
    && (forall x, y :: x in s.open && y in s.open && x != y && s.open[x].tenant == s.open[y].tenant ==>
          s.open[x].own == [] || s.open[y].own == [])
  }

  lemma {:induction false} NumbersAppend(rows: seq<Row>, more: seq<Row>, t: Tenant)
    ensures Numbers(rows + more, t) == Numbers(rows, t) + Numbers(more, t)
    decreases |more|
  {
    if more == [] {
      assert rows + more == rows;
    } else {
      assert (rows + more)[..|rows + more| - 1] == rows + more[..|more| - 1];
      NumbersAppend(rows, more[..|more| - 1], t);
    }
  }

  lemma {:induction false} NumbersOfOwn(tx: Tx, t: Tenant)
    ensures Numbers(OwnRows(tx), t) == if t == tx.tenant then tx.own else []
    decreases |tx.own|
  {
    if tx.own != [] {
      var n := |tx.own| - 1;
      var shorter := tx.(own := tx.own[..n]);
      assert OwnRows(tx)[..n] == OwnRows(shorter);
      NumbersOfOwn(shorter, t);
    }
  }

  lemma MaxOfConsecutive(numbers: seq<int>)
    requires Consecutive(numbers, 1)
    ensures Max(numbers) == |numbers|
  {
    var n := Max(numbers);
    if numbers != [] {
      assert numbers[|numbers| - 1] == |numbers|;
    }
  }

  lemma Holds(numbers: seq<int>, first: int, n: int)
    requires Consecutive(numbers, first) && first <= n < first + |numbers|
    ensures n in numbers
  {
    assert numbers[n - first] == n;
  }

  /** A number that was read and is not visible any more can only be the next one. */
  lemma InsertIsNext(s: State, x: TxId)
    requires Inv(s) && x in s.open && s.open[x].read.Some?
    requires s.open[x].read.value !in Visible(s, x) && !Blocked(s, x, s.open[x].read.value)
    ensures s.open[x].read.value == Count(s, s.open[x].tenant) + |s.open[x].own| + 1
    ensures forall y :: y in s.open && y != x && s.open[y].tenant == s.open[x].tenant ==> s.open[y].own == []
  {
    var tx := s.open[x];
    var n := tx.read.value;
    var visible := Visible(s, x);
    assert Consecutive(Numbers(s.committed, tx.tenant), 1);
    assert Consecutive(visible, 1);
    if n <= |visible| { Holds(visible, 1, n); }
    forall y | y in s.open && y != x && s.open[y].tenant == tx.tenant ensures s.open[y].own == [] {
      if s.open[y].own != [] { Holds(s.open[y].own, Count(s, tx.tenant) + 1, Count(s, tx.tenant) + 1); }
    }
  }

  lemma CommitKeeps(s: State, x: TxId)
    requires Inv(s) && x in s.open
    ensures Inv(Do(s, Commit(x)))
  {
    var tx := s.open[x];
    var s' := Do(s, Commit(x));
    forall t: Tenant ensures Numbers(s'.committed, t) == Numbers(s.committed, t) + (if t == tx.tenant then tx.own else []) {
      NumbersAppend(s.committed, OwnRows(tx), t);
      NumbersOfOwn(tx, t);
    }
    forall y | y in s'.open ensures TxInv(s', s'.open[y]) {
      assert TxInv(s, s.open[y]);
    }
    forall t: Tenant ensures Consecutive(Numbers(s'.committed, t), 1) {
      assert Consecutive(Numbers(s.committed, t), 1);
    }
  }

  /** What holds of the committed rows and the other transactions is not touched by a change to one transaction. */
  lemma OneTransaction(s: State, s': State, x: TxId)
    requires Inv(s) && s'.committed == s.committed && x in s'.open
    requires s'.open == s.open[x := s'.open[x]] && TxInv(s', s'.open[x])
    requires forall y :: y in s.open && y != x && s.open[y].tenant == s'.open[x].tenant ==>
      s.open[y].own == [] || s'.open[x].own == []
    ensures Inv(s')
  {
    hide Numbers;
    forall y | y in s'.open ensures TxInv(s', s'.open[y]) {
      assert y != x ==> TxInv(s, s.open[y]);
    }
    forall t: Tenant ensures Consecutive(Numbers(s'.committed, t), 1) {
      assert Consecutive(Numbers(s.committed, t), 1);
    }
  }

  lemma BeginKeeps(s: State, x: TxId, t: Tenant)
    requires Inv(s) && x !in s.open
    ensures Inv(Do(s, Begin(x, t)))
  {
    hide Numbers, Inv;
    OneTransaction(s, Do(s, Begin(x, t)), x);
  }

  lemma ReadKeeps(s: State, x: TxId)
    requires Inv(s) && x in s.open
    ensures Inv(Do(s, Read(x)))
  {
    hide Numbers, Max;
    assert TxInv(s, s.open[x]) && Consecutive(Numbers(s.committed, s.open[x].tenant), 1);
    MaxOfConsecutive(Visible(s, x));
    OneTransaction(s, Do(s, Read(x)), x);
  }

  lemma InsertKeeps(s: State, x: TxId)
    requires Inv(s) && Enabled(s, Insert(x))
    ensures Inv(Do(s, Insert(x)))
  {
    hide Numbers;
    if s.open[x].read.value in Visible(s, x) {
      EndKeeps(s, x);
    } else {
      InsertIsNext(s, x);
      assert TxInv(s, s.open[x]);
      OneTransaction(s, Do(s, Insert(x)), x);
    }
  }

  lemma EndKeeps(s: State, x: TxId)
    requires Inv(s) && x in s.open
    ensures Inv(Do(s, Abort(x)))
  {
    hide Numbers;
    var s' := Do(s, Abort(x));
    forall y | y in s'.open ensures TxInv(s', s'.open[y]) {
      assert TxInv(s, s.open[y]);
    }
    forall t: Tenant ensures Consecutive(Numbers(s'.committed, t), 1) {
      assert Consecutive(Numbers(s.committed, t), 1);
    }
  }

  lemma StepKeeps(s: State, step: Step)
    requires Inv(s) && Enabled(s, step)
    ensures Inv(Do(s, step))
  {
    hide Inv, Do;
    match step
    case Begin(x, t) => BeginKeeps(s, x, t);
    case Read(x) => ReadKeeps(s, x);
    case Insert(x) => InsertKeeps(s, x);
    case Commit(x) => CommitKeeps(s, x);
    case Abort(x) => EndKeeps(s, x);
  }

  lemma {:induction false} ReachedKeeps(steps: seq<Step>)
    ensures Inv(Reached(steps))
    decreases |steps|
  {
    if steps != [] {
      var s := Reached(steps[..|steps| - 1]);
      ReachedKeeps(steps[..|steps| - 1]);
      if Enabled(s, steps[|steps| - 1]) { StepKeeps(s, steps[|steps| - 1]); }
    }
  }

  /** However the transactions interleave, the k-th committed case of a tenant has number k: the committed numbers are
      1..n without gap or repetition. */
  lemma NumbersAreOneToN(steps: seq<Step>, t: Tenant)
    ensures var numbers := Numbers(Reached(steps).committed, t);
      numbers == seq(|numbers|, i requires 0 <= i < |numbers| => i + 1)
  {
    ReachedKeeps(steps);
    assert Consecutive(Numbers(Reached(steps).committed, t), 1);
  }

  /** At most one transaction of a tenant can be about to commit cases; all others of the tenant that have read a number
      wait for it or fail. So an attempt that does not commit leaves no trace in the numbers. */
  lemma OneWriterPerTenant(steps: seq<Step>, x: TxId, y: TxId)
    requires x in Reached(steps).open && y in Reached(steps).open && x != y
    requires Reached(steps).open[x].tenant == Reached(steps).open[y].tenant && Reached(steps).open[x].own != []
    ensures Reached(steps).open[y].own == []
    ensures Reached(steps).open[y].read.Some? ==>
      !Enabled(Reached(steps), Insert(y)) || Do(Reached(steps), Insert(y)) == Do(Reached(steps), Abort(y))
  {
    var s := Reached(steps);
    ReachedKeeps(steps);
    if s.open[y].read.Some? && Enabled(s, Insert(y)) && s.open[y].read.value !in Visible(s, y) {
      InsertIsNext(s, y);
      assert false;
    }
  }

  // ---------- What a transaction achieves ----------

  /** Only a commit changes the committed rows, and it appends those of its transaction. */
  lemma OnlyCommitsCount(s: State, step: Step, t: Tenant)
    requires Enabled(s, step)
    ensures Numbers(Do(s, step).committed, t)
      == Numbers(s.committed, t) + (if step.Commit? && s.open[step.tx].tenant == t then s.open[step.tx].own else [])
  {
    hide Numbers;
    if step.Commit? {
      NumbersAppend(s.committed, OwnRows(s.open[step.tx]), t);
      NumbersOfOwn(s.open[step.tx], t);
    }
  }

  /** The steps of a request that creates one case. */
  function Creation(x: TxId, t: Tenant): seq<Step> {
    [Begin(x, t), Read(x), Insert(x), Commit(x)]
  }

  /** In every reachable state, a request that creates a case, while no other transaction of the tenant holds a new one,
      commits it, with the next number, and leaves the other tenants' numbers alone. */
  lemma CreationIsNumbered(steps: seq<Step>, x: TxId, t: Tenant, u: Tenant)
    requires x !in Reached(steps).open
    requires forall y :: y in Reached(steps).open && Reached(steps).open[y].tenant == t ==> Reached(steps).open[y].own == []
    ensures var before := Numbers(Reached(steps).committed, u);
      Numbers(Reached(steps + Creation(x, t)).committed, u) == if u == t then before + [|before| + 1] else before
  {
    hide Numbers, Inv, Reached;
    var s := Reached(steps);
    ReachedKeeps(steps);
    var s1 := Do(s, Begin(x, t));
    var s2 := Do(s1, Read(x));
    ReadsNext(s, x, t);
    var s3 := Do(s2, Insert(x));
    OnlyCommitsCount(s3, Commit(x), u);
    FourSteps(steps, Creation(x, t));
  }

  lemma ReadsNext(s: State, x: TxId, t: Tenant)
    requires Inv(s) && x !in s.open
    requires forall y :: y in s.open && s.open[y].tenant == t ==> s.open[y].own == []
    ensures var s2 := Do(Do(s, Begin(x, t)), Read(x));
      && s2.committed == s.committed && Enabled(s2, Insert(x))
      && var s3 := Do(s2, Insert(x));
         s3.committed == s.committed && x in s3.open && s3.open[x] == Tx(t, [Count(s, t) + 1], None)
  {
    hide Numbers, Max;
    var numbers := Numbers(s.committed, t);
    var s1 := Do(s, Begin(x, t));
    assert Consecutive(numbers, 1);
    assert Visible(s1, x) == numbers;
    MaxOfConsecutive(numbers);
    assert |numbers| + 1 !in numbers;
    var s2 := Do(s1, Read(x));
    assert Visible(s2, x) == numbers;
    assert [] + [|numbers| + 1] == [|numbers| + 1];
  }

  lemma FourSteps(steps: seq<Step>, more: seq<Step>)
    requires |more| == 4
    ensures var s := Reached(steps);
      var s1 := if Enabled(s, more[0]) then Do(s, more[0]) else s;
      var s2 := if Enabled(s1, more[1]) then Do(s1, more[1]) else s1;
      var s3 := if Enabled(s2, more[2]) then Do(s2, more[2]) else s2;
      Reached(steps + more) == if Enabled(s3, more[3]) then Do(s3, more[3]) else s3
  {
    hide Do, Enabled;
    var all := steps + more;
    var n := |steps|;
    assert all[..n + 3] == steps + more[..3] && all[..n + 3][..n + 2] == steps + more[..2];
    assert (steps + more[..2])[..n + 1] == steps + more[..1] && (steps + more[..1])[..n] == steps;
    assert Reached(steps + more[..1]) == if Enabled(Reached(steps), more[0]) then Do(Reached(steps), more[0]) else Reached(steps);
    var s1 := Reached(steps + more[..1]);
    assert Reached(steps + more[..2]) == if Enabled(s1, more[1]) then Do(s1, more[1]) else s1;
    var s2 := Reached(steps + more[..2]);
    assert Reached(steps + more[..3]) == if Enabled(s2, more[2]) then Do(s2, more[2]) else s2;
  }
}
