/**
 The ATT&CK heatmap: mapping rows are aggregated to one cell per (tactic, technique), with the distinct cases and the
 highest severity. The order in which a set is iterated is not fixed, so among severities of equal rank any may be named.
 */
module Heatmap {
  import opened Wrappers
  import opened StableSort

  datatype Row = Row(tactic: string, technique: string, caseId: Option<Uuid>, severity: Option<string>)

  datatype CellKey = CellKey(tactic: string, technique: string)

  datatype Cell = Cell(key: CellKey, caseCount: nat, maxSeverity: Option<string>, linked: seq<Uuid>)

  // ---------- Orders ----------

  /** Strings compare by their code points. */
  predicate LexLeq(a: string, b: string) {
    if a == "" then true
    else b != "" && (a[0] < b[0] || (a[0] == b[0] && LexLeq(a[1..], b[1..])))
  }

  lemma {:induction false} LexTotal(a: string, b: string)
    ensures LexLeq(a, b) || LexLeq(b, a)
    ensures LexLeq(a, b) && LexLeq(b, a) ==> a == b
    decreases |a|
  {
    if a != "" && b != "" && a[0] == b[0] {
      LexTotal(a[1..], b[1..]);
      if a[1..] == b[1..] { assert a == [a[0]] + a[1..] && b == [b[0]] + b[1..]; }
    }
  }

  lemma {:induction false} LexTransitive(a: string, b: string, c: string)
    requires LexLeq(a, b) && LexLeq(b, c)
    ensures LexLeq(a, c)
    decreases |a|
  {
    if a != "" && a[0] == b[0] && b[0] == c[0] {
      LexTransitive(a[1..], b[1..], c[1..]);
    }
  }

  predicate KeyLeq(a: CellKey, b: CellKey) {
    if a.tactic == b.tactic then LexLeq(a.technique, b.technique) else LexLeq(a.tactic, b.tactic)
  }

  function CellOrder(): (Cell, Cell) -> bool {
    (a: Cell, b: Cell) => KeyLeq(a.key, b.key)
  }

  function KeyOrder(): (CellKey, CellKey) -> bool {
    (a: CellKey, b: CellKey) => KeyLeq(a, b)
  }

  function IdOrder(): (Uuid, Uuid) -> bool {
    (a: Uuid, b: Uuid) => a <= b
  }

  lemma KeyLeqIsOrder(a: CellKey, b: CellKey, c: CellKey)
    ensures KeyLeq(a, b) || KeyLeq(b, a)
    ensures KeyLeq(a, b) && KeyLeq(b, a) ==> a == b
    ensures KeyLeq(a, b) && KeyLeq(b, c) ==> KeyLeq(a, c)
  {
    LexTotal(a.tactic, b.tactic);
    LexTotal(a.technique, b.technique);
    LexTotal(b.tactic, c.tactic);
    if KeyLeq(a, b) && KeyLeq(b, c) {
      if LexLeq(a.tactic, b.tactic) && LexLeq(b.tactic, c.tactic) { LexTransitive(a.tactic, b.tactic, c.tactic); }
      if LexLeq(a.technique, b.technique) && LexLeq(b.technique, c.technique) {
        LexTransitive(a.technique, b.technique, c.technique);
      }
    }
  }

  lemma CellOrderIsTotal()
    ensures TotalPreorder(CellOrder())
  {
    var leq := CellOrder();
    forall x, y ensures leq(x, y) || leq(y, x) { KeyLeqIsOrder(x.key, y.key, x.key); }
    forall x, y, z | leq(x, y) && leq(y, z) ensures leq(x, z) { KeyLeqIsOrder(x.key, y.key, z.key); }
  }

  // ---------- What a cell stands for ----------

  function KeyOf(r: Row): CellKey {
    CellKey(r.tactic, r.technique)
  }

  ghost predicate HasKey(rows: seq<Row>, k: CellKey) {
    exists i :: 0 <= i < |rows| && KeyOf(rows[i]) == k
  }

  ghost function CasesOf(rows: seq<Row>, k: CellKey): set<Uuid> {
    set i | 0 <= i < |rows| && KeyOf(rows[i]) == k && rows[i].caseId.Some? :: rows[i].caseId.value
  }

  /** Missing and empty severities are passed over. */
  ghost function SeveritiesOf(rows: seq<Row>, k: CellKey): set<string> {
    set i | 0 <= i < |rows| && KeyOf(rows[i]) == k && rows[i].severity.Some? && rows[i].severity.value != "" ::
      rows[i].severity.value
  }

  function Rank(severity: string): int {
    if severity == "critical" then 4
    else if severity == "high" then 3
    else if severity == "medium" then 2
    else if severity == "low" then 1
    else if severity == "informational" then 0
    else -1
  }

  ghost predicate IsMaxSeverity(severities: set<string>, max: Option<string>) {
    if severities == {} then max.None?
    else max.Some? && max.value in severities && forall s :: s in severities ==> Rank(s) <= Rank(max.value)
  }

  /** The cell lists the distinct cases of its rows once, in order, counts them, and names a highest severity. */
  ghost predicate IsCell(rows: seq<Row>, c: Cell) {
    && HasKey(rows, c.key)
    && Ascending(IdOrder(), c.linked) && (forall x: Uuid :: x in c.linked <==> x in CasesOf(rows, c.key))
    && c.caseCount == |c.linked|
    && IsMaxSeverity(SeveritiesOf(rows, c.key), c.maxSeverity)
  }

  /** One cell per key, strictly sorted by tactic and technique. */
  ghost predicate IsHeatmap(rows: seq<Row>, cells: seq<Cell>) {
    && (forall i :: 0 <= i < |cells| ==> IsCell(rows, cells[i]))
    && (forall k :: HasKey(rows, k) ==> Listed(cells, k))
    && (forall i, j :: 0 <= i < j < |cells| ==> KeyLeq(cells[i].key, cells[j].key) && cells[i].key != cells[j].key)
  }

  // ---------- The function ----------

  datatype Data = Data(cases: set<Uuid>, severities: set<string>)

  method ComputeHeatmapCells(rows: seq<Row>) returns (out: seq<Cell>)
    ensures IsHeatmap(rows, out)
  {
    hide IsCell, HasKey, CasesOf, SeveritiesOf, KeyLeq, IsHeatmap, Sort;
    var cells := Aggregate(rows);
    var keys := cells.Keys;
    var list: seq<Cell> := [];
    while keys != {}
      invariant keys <= cells.Keys
      invariant forall i :: 0 <= i < |list| ==> list[i].key !in keys && IsCell(rows, list[i])
      invariant forall k :: k in cells && k !in keys ==> Listed(list, k)
      invariant forall i, j :: 0 <= i < j < |list| ==> list[i].key != list[j].key
      decreases |keys|
    {
      var k :| k in keys;
      var cell := MakeCell(rows, k, cells[k]);
      ListedGrows(list, cell);
      list := list + [cell];
      keys := keys - {k};
    }
    out := Sort(CellOrder(), list);
    SortedCells(rows, list, out);
  }

  ghost predicate Listed(list: seq<Cell>, k: CellKey) {
    exists i :: 0 <= i < |list| && list[i].key == k
  }

  lemma ListedGrows(list: seq<Cell>, c: Cell)
    ensures forall k :: Listed(list + [c], k) <==> Listed(list, k) || c.key == k
  {
    forall k ensures Listed(list + [c], k) <==> Listed(list, k) || c.key == k {
      assert (list + [c])[|list|] == c;
      if Listed(list, k) {
        var i :| 0 <= i < |list| && list[i].key == k;
        assert (list + [c])[i].key == k;
      }
    }
  }

  /** The loop that fills the dictionary of sets. */
  method Aggregate(rows: seq<Row>) returns (cells: map<CellKey, Data>)
    ensures forall k :: k in cells <==> HasKey(rows, k)
    ensures forall k :: k in cells ==> cells[k] == Data(CasesOf(rows, k), SeveritiesOf(rows, k))
  {
    hide CasesOf, SeveritiesOf, HasKey;
    cells := map[];
    forall k { NoRowsAtAll(k); }
    assert rows[..0] == [];
    for i := 0 to |rows|
      invariant forall k :: k in cells <==> HasKey(rows[..i], k)
      invariant forall k :: k in cells ==> cells[k] == Data(CasesOf(rows[..i], k), SeveritiesOf(rows[..i], k))
    {
      var row := rows[i];
      var key := KeyOf(row);
      forall k { OneMoreRow(rows, i, k); }
      if key !in cells {
        NoRowsYet(rows[..i], key);
        cells := cells[key := Data({}, {})];
      }
      if row.caseId.Some? {
        cells := cells[key := cells[key].(cases := cells[key].cases + {row.caseId.value})];
      }
      if row.severity.Some? && row.severity.value != "" {
        cells := cells[key := cells[key].(severities := cells[key].severities + {row.severity.value})];
      }
    }
    assert rows[..|rows|] == rows;
  }

  lemma NoRowsAtAll(k: CellKey)
    ensures !HasKey([], k)
  {}

  lemma NoRowsYet(rows: seq<Row>, k: CellKey)
    requires !HasKey(rows, k)
    ensures CasesOf(rows, k) == {} && SeveritiesOf(rows, k) == {}
  {}

  lemma OneMoreRow(rows: seq<Row>, i: nat, k: CellKey)
    requires i < |rows|
    ensures HasKey(rows[..i + 1], k) <==> HasKey(rows[..i], k) || KeyOf(rows[i]) == k
    ensures CasesOf(rows[..i + 1], k) == CasesOf(rows[..i], k)
      + (if KeyOf(rows[i]) == k && rows[i].caseId.Some? then {rows[i].caseId.value} else {})
    ensures SeveritiesOf(rows[..i + 1], k) == SeveritiesOf(rows[..i], k)
      + (if KeyOf(rows[i]) == k && rows[i].severity.Some? && rows[i].severity.value != "" then {rows[i].severity.value} else {})
  {
    OneRow(rows[i], k);
    assert rows[..i + 1] == rows[..i] + [rows[i]];
    KeysOfUnion(rows[..i], [rows[i]], k);
    assert HasKey([rows[i]], k) <==> KeyOf(rows[i]) == k by { assert [rows[i]][0] == rows[i]; }
  }

  lemma OneRow(row: Row, k: CellKey)
    ensures CasesOf([row], k) == if KeyOf(row) == k && row.caseId.Some? then {row.caseId.value} else {}
    ensures SeveritiesOf([row], k)
         == if KeyOf(row) == k && row.severity.Some? && row.severity.value != "" then {row.severity.value} else {}
  {
    var one := [row];
    assert one[0] == row;
    if KeyOf(row) == k && row.caseId.Some? { assert row.caseId.value in CasesOf(one, k); }
    if KeyOf(row) == k && row.severity.Some? && row.severity.value != "" { assert row.severity.value in SeveritiesOf(one, k); }
  }

  method MakeCell(rows: seq<Row>, k: CellKey, data: Data) returns (cell: Cell)
    requires HasKey(rows, k) && data == Data(CasesOf(rows, k), SeveritiesOf(rows, k))
    ensures cell.key == k && IsCell(rows, cell)
  {
    var max: Option<string> := None;
    if data.severities != {} {
      var m := MaxByRank(data.severities);
      max := Some(m);
    }
    var linked := SortedIds(data.cases);
    cell := Cell(k, |linked|, max, linked);
  }

  /** `max(severities, key=rank)`: some element of highest rank. */
  method MaxByRank(severities: set<string>) returns (max: string)
    requires severities != {}
    ensures max in severities && forall s :: s in severities ==> Rank(s) <= Rank(max)
  {
    max :| max in severities;
    var rest := severities - {max};
    while rest != {}
      invariant rest <= severities && max in severities
      invariant forall s :: s in severities && s !in rest ==> Rank(s) <= Rank(max)
      decreases |rest|
    {
      var s :| s in rest;
      if Rank(s) > Rank(max) {
        max := s;
      }
      rest := rest - {s};
    }
  }

  method SortedIds(ids: set<Uuid>) returns (out: seq<Uuid>)
    ensures Ascending(IdOrder(), out) && forall x: Uuid :: x in out <==> x in ids
  {
    var rest := ids;
    var list: seq<Uuid> := [];
    while rest != {}
      invariant rest <= ids
      invariant forall x: Uuid :: x in list <==> x in ids && x !in rest
      invariant forall i, j :: 0 <= i < j < |list| ==> list[i] != list[j]
      decreases |rest|
    {
      var x :| x in rest;
      list := list + [x];
      rest := rest - {x};
    }
    out := Sort(IdOrder(), list);
    AscendingSort(list, out);
  }

  lemma SortIsAscending(list: seq<Uuid>, out: seq<Uuid>)
    requires out == Sort(IdOrder(), list)
    ensures forall i, j :: 0 <= i < j < |out| ==> out[i] <= out[j]
    ensures multiset(out) == multiset(list)
  {
    SortIsSorted(IdOrder(), list);
    assert forall i, j :: 0 <= i < j < |out| ==> IdOrder()(out[i], out[j]);
  }

  lemma AscendingSort(list: seq<Uuid>, out: seq<Uuid>)
    requires out == Sort(IdOrder(), list) && forall i, j :: 0 <= i < j < |list| ==> list[i] != list[j]
    ensures Ascending(IdOrder(), out) && forall x: Uuid :: x in out <==> x in list
  {
    hide Sort;
    SortIsAscending(list, out);
    forall x: Uuid ensures x in out <==> x in list { SameElements(out, list, x); }
    DistinctStays(list, out);
  }

  /** Rearranging a list without repetition creates none. */
  lemma DistinctStays<T>(list: seq<T>, out: seq<T>)
    requires multiset(out) == multiset(list) && forall i, j :: 0 <= i < j < |list| ==> list[i] != list[j]
    ensures forall i, j :: 0 <= i < j < |out| ==> out[i] != out[j]
  {
    forall i, j | 0 <= i < j < |out| ensures out[i] != out[j] {
      if out[i] == out[j] {
        CountTwice(out, i, j);
        CountOnce(list, out[i]);
      }
    }
  }

  lemma CountTwice<T>(s: seq<T>, i: nat, j: nat)
    requires i < j < |s| && s[i] == s[j]
    ensures multiset(s)[s[i]] >= 2
  {
    assert s == s[..j] + s[j..];
    assert multiset(s) == multiset(s[..j]) + multiset(s[j..]);
    assert s[..j][i] in multiset(s[..j]) && s[j..][0] in multiset(s[j..]);
  }

  lemma {:induction false} CountOnce<T>(s: seq<T>, x: T)
    requires forall i, j :: 0 <= i < j < |s| ==> s[i] != s[j]
    ensures multiset(s)[x] <= 1
    decreases |s|
  {
    if s != [] {
      var n := |s| - 1;
      assert s == s[..n] + [s[n]];
      CountOnce(s[..n], x);
      if x == s[n] { assert x !in multiset(s[..n]); }
    }
  }

  lemma SortedCells(rows: seq<Row>, list: seq<Cell>, out: seq<Cell>)
    requires out == Sort(CellOrder(), list)
    requires forall i :: 0 <= i < |list| ==> IsCell(rows, list[i])
    requires forall k :: HasKey(rows, k) ==> Listed(list, k)
    requires forall i, j :: 0 <= i < j < |list| ==> list[i].key != list[j].key
    ensures IsHeatmap(rows, out)
  {
    hide Sort, IsCell, HasKey, KeyLeq;
    SortFacts(list, out);
    forall i | 0 <= i < |out| ensures IsCell(rows, out[i]) { SameElements(out, list, out[i]); }
    forall k | HasKey(rows, k) ensures Listed(out, k) {
      var i :| 0 <= i < |list| && list[i].key == k;
      SameElements(out, list, list[i]);
    }
    DistinctStays(list, out);
    forall i, j | 0 <= i < j < |out| ensures out[i].key != out[j].key {
      SameElements(out, list, out[i]);
      SameElements(out, list, out[j]);
      var a :| 0 <= a < |list| && list[a] == out[i];
      var b :| 0 <= b < |list| && list[b] == out[j];
      assert a != b;
    }
  }

  lemma SortFacts(list: seq<Cell>, out: seq<Cell>)
    requires out == Sort(CellOrder(), list)
    ensures multiset(out) == multiset(list)
    ensures forall i, j :: 0 <= i < j < |out| ==> KeyLeq(out[i].key, out[j].key)
  {
    CellOrderIsTotal();
    SortIsSorted(CellOrder(), list);
    assert forall i, j :: 0 <= i < j < |out| ==> CellOrder()(out[i], out[j]);
  }

  // ---------- Only the set of rows matters ----------

  ghost predicate SameRows(r1: seq<Row>, r2: seq<Row>) {
    forall r :: r in r1 <==> r in r2
  }

  lemma SameAggregates(r1: seq<Row>, r2: seq<Row>, k: CellKey)
    requires SameRows(r1, r2)
    ensures HasKey(r1, k) <==> HasKey(r2, k)
    ensures CasesOf(r1, k) == CasesOf(r2, k) && SeveritiesOf(r1, k) == SeveritiesOf(r2, k)
  {
    AggregatesWithin(r1, r2, k);
    AggregatesWithin(r2, r1, k);
  }

  lemma AggregatesWithin(r1: seq<Row>, r2: seq<Row>, k: CellKey)
    requires forall r :: r in r1 ==> r in r2
    ensures HasKey(r1, k) ==> HasKey(r2, k)
    ensures CasesOf(r1, k) <= CasesOf(r2, k) && SeveritiesOf(r1, k) <= SeveritiesOf(r2, k)
  {
    forall i | 0 <= i < |r1| ensures exists j :: 0 <= j < |r2| && r2[j] == r1[i] { assert r1[i] in r2; }
  }

  /** The severity that is reported does not depend on the order of iteration: some known severity occurs,
      or there is only one. */
  ghost predicate Unambiguous(severities: set<string>) {
    (exists s :: s in severities && Rank(s) >= 0) || (forall s, t :: s in severities && t in severities ==> s == t)
  }

  lemma RankIsInjective(s: string, t: string)
    requires Rank(s) >= 0 && Rank(s) == Rank(t)
    ensures s == t
  {}

  /** The reported severity is determined exactly when the severities are unambiguous. */
  lemma SeverityDeterminedIff(severities: set<string>)
    ensures (forall a, b :: IsMaxSeverity(severities, a) && IsMaxSeverity(severities, b) ==> a == b) <==> Unambiguous(severities)
  {
    if Unambiguous(severities) {
      forall a, b | IsMaxSeverity(severities, a) && IsMaxSeverity(severities, b) ensures a == b {
        if severities != {} && Rank(a.value) >= 0 { RankIsInjective(a.value, b.value); }
      }
    } else {
      var s, t :| s in severities && t in severities && s != t;
      assert IsMaxSeverity(severities, Some(s)) && IsMaxSeverity(severities, Some(t));
    }
  }

  /** Rows in another order, or repeated, give the same cells, up to severities of equal rank. */
  lemma {:induction false} HeatmapOfSameRows(r1: seq<Row>, r2: seq<Row>, c1: seq<Cell>, c2: seq<Cell>)
    requires SameRows(r1, r2) && IsHeatmap(r1, c1) && IsHeatmap(r2, c2)
    ensures |c1| == |c2|
    ensures forall i :: 0 <= i < |c1| ==>
      && c1[i].key == c2[i].key && c1[i].linked == c2[i].linked && c1[i].caseCount == c2[i].caseCount
      && (Unambiguous(SeveritiesOf(r1, c1[i].key)) ==> c1[i].maxSeverity == c2[i].maxSeverity)
  {
    var k1, k2 := Keys(c1), Keys(c2);
    forall k ensures k in k1 <==> k in k2 { SameAggregates(r1, r2, k); KeysAre(r1, c1, k); KeysAre(r2, c2, k); }
    KeysAscend(r1, c1);
    KeysAscend(r2, c2);
    AscendingIsUnique(KeyOrder(), k1, k2);
    forall i | 0 <= i < |c1|
      ensures c1[i].key == c2[i].key && c1[i].linked == c2[i].linked && c1[i].caseCount == c2[i].caseCount
      ensures Unambiguous(SeveritiesOf(r1, c1[i].key)) ==> c1[i].maxSeverity == c2[i].maxSeverity
    {
      assert k1[i] == k2[i];
      SameAggregates(r1, r2, c1[i].key);
      SameCell(r1, r2, c1[i], c2[i]);
    }
  }

  lemma SameCell(r1: seq<Row>, r2: seq<Row>, c: Cell, d: Cell)
    requires IsCell(r1, c) && IsCell(r2, d) && c.key == d.key
    requires CasesOf(r1, c.key) == CasesOf(r2, c.key) && SeveritiesOf(r1, c.key) == SeveritiesOf(r2, c.key)
    ensures c.linked == d.linked && c.caseCount == d.caseCount
    ensures Unambiguous(SeveritiesOf(r1, c.key)) ==> c.maxSeverity == d.maxSeverity
  {
    AscendingIsUnique(IdOrder(), c.linked, d.linked);
    SeverityDeterminedIff(SeveritiesOf(r1, c.key));
  }

  ghost function Keys(cells: seq<Cell>): seq<CellKey> {
    seq(|cells|, i requires 0 <= i < |cells| => cells[i].key)
  }

  lemma KeysAscend(rows: seq<Row>, cells: seq<Cell>)
    requires IsHeatmap(rows, cells)
    ensures Ascending(KeyOrder(), Keys(cells))
    ensures forall a, b :: KeyOrder()(a, b) && KeyOrder()(b, a) ==> a == b
  {
    forall a, b | KeyOrder()(a, b) && KeyOrder()(b, a) ensures a == b {
      KeyLeqIsOrder(a, b, a);
    }
  }

  lemma KeysAre(rows: seq<Row>, cells: seq<Cell>, k: CellKey)
    requires IsHeatmap(rows, cells)
    ensures k in Keys(cells) <==> HasKey(rows, k)
  {
    if HasKey(rows, k) {
      var i :| 0 <= i < |cells| && cells[i].key == k;
      assert Keys(cells)[i] == k;
    }
    if k in Keys(cells) {
      var i :| 0 <= i < |Keys(cells)| && Keys(cells)[i] == k;
      assert IsCell(rows, cells[i]);
    }
  }

  // ---------- Concatenation ----------

  lemma KeysOfUnion(r1: seq<Row>, r2: seq<Row>, k: CellKey)
    ensures HasKey(r1 + r2, k) <==> HasKey(r1, k) || HasKey(r2, k)
    ensures CasesOf(r1 + r2, k) == CasesOf(r1, k) + CasesOf(r2, k)
    ensures SeveritiesOf(r1 + r2, k) == SeveritiesOf(r1, k) + SeveritiesOf(r2, k)
  {
    var r := r1 + r2;
    assert forall i :: 0 <= i < |r1| ==> r[i] == r1[i];
    assert forall i :: 0 <= i < |r2| ==> r[|r1| + i] == r2[i];
    assert forall i :: |r1| <= i < |r| ==> r[i] == r2[i - |r1|];
    AggregatesWithin(r1, r, k);
    AggregatesWithin(r2, r, k);
  }

  /** How severe a reported severity is; no severity ranks below the unknown ones. */
  ghost function RankOf(max: Option<string>): int {
    if max.None? then -2 else Rank(max.value)
  }

  /** The heatmap of two lists of rows is the cellwise union of the cases, and the maximum of the severities. */
  lemma HeatmapOfConcatenation(r1: seq<Row>, r2: seq<Row>, c1: seq<Cell>, c2: seq<Cell>, c: seq<Cell>, k: CellKey)
    requires IsHeatmap(r1, c1) && IsHeatmap(r2, c2) && IsHeatmap(r1 + r2, c)
    ensures CaseSet(c, k) == CaseSet(c1, k) + CaseSet(c2, k)
    ensures k in Keys(c) <==> k in Keys(c1) || k in Keys(c2)
    ensures SeverityRank(c, k) == if SeverityRank(c1, k) >= SeverityRank(c2, k) then SeverityRank(c1, k) else SeverityRank(c2, k)
  {
    KeysOfUnion(r1, r2, k);
    KeysAre(r1, c1, k);
    KeysAre(r2, c2, k);
    KeysAre(r1 + r2, c, k);
    CellFacts(r1, c1, k);
    CellFacts(r2, c2, k);
    CellFacts(r1 + r2, c, k);
    MaxOfUnion(SeveritiesOf(r1, k), SeveritiesOf(r2, k));
  }

  /** The cases the heatmap shows under a key. */
  ghost function CaseSet(cells: seq<Cell>, k: CellKey): set<Uuid> {
    set i, x | 0 <= i < |cells| && cells[i].key == k && x in cells[i].linked :: x
  }

  ghost function SeverityRank(cells: seq<Cell>, k: CellKey): int {
    if k in Keys(cells) then
      var i :| 0 <= i < |Keys(cells)| && Keys(cells)[i] == k;
      RankOf(cells[i].maxSeverity)
    else -2
  }

  ghost predicate HasRank(severities: set<string>, n: int) {
    exists s :: s in severities && Rank(s) == n
  }

  ghost function MaxRank(severities: set<string>): int {
    if HasRank(severities, 4) then 4
    else if HasRank(severities, 3) then 3
    else if HasRank(severities, 2) then 2
    else if HasRank(severities, 1) then 1
    else if HasRank(severities, 0) then 0
    else if severities != {} then -1
    else -2
  }

  lemma MaxOfUnion(a: set<string>, b: set<string>)
    ensures MaxRank(a + b) == if MaxRank(a) >= MaxRank(b) then MaxRank(a) else MaxRank(b)
  {
    forall n: int ensures HasRank(a + b, n) <==> HasRank(a, n) || HasRank(b, n) {
      if HasRank(a, n) { var s :| s in a && Rank(s) == n; assert s in a + b; }
      if HasRank(b, n) { var s :| s in b && Rank(s) == n; assert s in a + b; }
    }
  }

  lemma CellFacts(rows: seq<Row>, cells: seq<Cell>, k: CellKey)
    requires IsHeatmap(rows, cells)
    ensures CaseSet(cells, k) == CasesOf(rows, k)
    ensures SeverityRank(cells, k) == MaxRank(SeveritiesOf(rows, k))
  {
    KeysAre(rows, cells, k);
    if k in Keys(cells) {
      var i :| 0 <= i < |Keys(cells)| && Keys(cells)[i] == k;
      assert IsCell(rows, cells[i]);
      forall j | 0 <= j < |cells| && cells[j].key == k ensures j == i {}
      assert CaseSet(cells, k) == set x | x in cells[i].linked;
      MaxSeverityRank(SeveritiesOf(rows, k), cells[i].maxSeverity);
    } else {
      NoRowsYet(rows, k);
      forall j | 0 <= j < |cells| ensures cells[j].key != k { assert Keys(cells)[j] in Keys(cells); }
    }
  }

  lemma MaxSeverityRank(severities: set<string>, max: Option<string>)
    requires IsMaxSeverity(severities, max)
    ensures RankOf(max) == MaxRank(severities)
  {}

  // ---------- The tenant's heatmap ----------

  /** A mapping joined with its case; `None` where the mapping has no case. */
  datatype Joined = Joined(tenant: Uuid, row: Row, createdAt: int, caseStatus: Option<string>)

  datatype Filter = Filter(after: Option<int>, before: Option<int>, severity: Option<string>, status: Option<string>)

  predicate Selected(j: Joined, t: Uuid, f: Filter) {
    && j.tenant == t
    && (f.after.Some? ==> f.after.value <= j.createdAt)
    && (f.before.Some? ==> j.createdAt <= f.before.value)
    && (f.severity.Some? && f.severity.value != "" ==> j.row.severity == f.severity)
    && (f.status.Some? && f.status.value != "" ==> j.caseStatus == f.status)
  }

  ghost function Filtered(js: seq<Joined>, t: Uuid, f: Filter): seq<Row> {
    if js == [] then []
    else
      var n := |js| - 1;
      Filtered(js[..n], t, f) + (if Selected(js[n], t, f) then [js[n].row] else [])
  }

  /** What counts is the tenant's mapping, from the first to the last moment of the filter, of a case with its severity and
      its status. Empty filters, like missing ones, let everything pass. */
  lemma {:induction false} FilteredAre(js: seq<Joined>, t: Uuid, f: Filter, r: Row)
    ensures r in Filtered(js, t, f) <==>
      exists i :: 0 <= i < |js| && js[i].row == r && js[i].tenant == t
        && (f.after == None || f.after.value <= js[i].createdAt) && (f.before == None || js[i].createdAt <= f.before.value)
        && (f.severity == None || f.severity == Some("") || r.severity == f.severity)
        && (f.status == None || f.status == Some("") || js[i].caseStatus == f.status)
    decreases |js|
  {
    if js != [] {
      var n := |js| - 1;
      FilteredAre(js[..n], t, f, r);
      assert forall i :: 0 <= i < n ==> js[..n][i] == js[i];
    }
  }

  /** `build_heatmap` aggregates the rows its query selects in the same way. */
  method BuildHeatmap(js: seq<Joined>, t: Uuid, f: Filter) returns (out: seq<Cell>)
    ensures IsHeatmap(Filtered(js, t, f), out)
  {
    var rows: seq<Row> := [];
    for i := 0 to |js|
      invariant rows == Filtered(js[..i], t, f)
    {
      assert js[..i + 1][..i] == js[..i];
      if Selected(js[i], t, f) {
        rows := rows + [js[i].row];
      }
    }
    assert js[..|js|] == js;
    out := ComputeHeatmapCells(rows);
  }

  // ---------- The order of the cells ----------

  /** The cells of a tactic stand together, and among them the techniques ascend. */
  lemma TacticsStandTogether(rows: seq<Row>, cells: seq<Cell>, i: nat, j: nat, k: nat)
    requires IsHeatmap(rows, cells) && i < j < k < |cells| && cells[i].key.tactic == cells[k].key.tactic
    ensures cells[j].key.tactic == cells[i].key.tactic
    ensures LexLeq(cells[i].key.technique, cells[j].key.technique)
    ensures cells[i].key.technique != cells[j].key.technique
  {
    hide IsCell, LexLeq;
    assert KeyLeq(cells[i].key, cells[j].key) && KeyLeq(cells[j].key, cells[k].key);
    LexTotal(cells[i].key.tactic, cells[j].key.tactic);
  }

  /** Strings are ordered by the first character in which they differ, and a string stands before its continuations. */
  lemma {:induction false} LexByFirstDifference(common: string, a: string, b: string)
    requires a == "" || b == "" || a[0] != b[0]
    ensures LexLeq(common + a, common + b) <==> a == "" || (b != "" && a[0] < b[0])
    decreases |common|
  {
    if common == "" {
      assert common + a == a && common + b == b;
    } else {
      assert (common + a)[1..] == common[1..] + a && (common + b)[1..] == common[1..] + b;
      LexByFirstDifference(common[1..], a, b);
    }
  }
}
