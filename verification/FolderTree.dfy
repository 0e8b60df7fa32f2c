/**
 The folder pane of the notes editor: the flat list of a case's folders becomes nested, sorted trees.
 The list may be any list of rows: ids may repeat, parents may lie outside the list, and the parent relation
 may be corrupted. The trees hold exactly the folders that hang below a root of the list.
 */
module FolderTree {
  import opened Wrappers
  import opened FolderForest
  import opened RowLevelSecurity
  import opened StableSort

  datatype Tree = Node(folder: Folder, children: seq<Tree>)

  // ---------- The comparison of siblings ----------

  /** Sort order first, then the name. `collate` places names the way `localeCompare` compares them. */
  predicate NodeLeq(collate: string -> real, a: Folder, b: Folder) {
    a.sortOrder < b.sortOrder || (a.sortOrder == b.sortOrder && collate(a.name) <= collate(b.name))
  }

  function NodeOrder(collate: string -> real): (Folder, Folder) -> bool {
    (a, b) => NodeLeq(collate, a, b)
  }

  function SortNodes(collate: string -> real, list: seq<Folder>): seq<Folder> {
    Sort(NodeOrder(collate), list)
  }

  lemma NodeOrderIsTotal(collate: string -> real)
    ensures TotalPreorder(NodeOrder(collate))
  {
    var leq := NodeOrder(collate);
    forall x, y, z | leq(x, y) && leq(y, z) ensures leq(x, z) {
      assert NodeLeq(collate, x, y) && NodeLeq(collate, y, z);
    }
  }

  // ---------- What the two loops compute ----------

  /** The JavaScript map from id to node: a repeated id keeps its last row. */
  ghost function ById(folders: seq<Folder>): (m: Folders)
    ensures forall x: Uuid :: x in m <==> exists i :: 0 <= i < |folders| && folders[i].id == x
    ensures forall x: Uuid :: x in m ==> m[x].id == x && m[x] in folders
  {
    if folders == [] then map[]
    else
      var n := |folders| - 1;
      assert folders == folders[..n] + [folders[n]];
      ById(folders[..n])[folders[n].id := folders[n]]
  }

  /** `order` lists every key of `m` once, and every row is stored under its own id. */
  ghost predicate Enumerates(order: seq<Uuid>, m: Folders) {
    && (forall x: Uuid :: x in m <==> x in order)
    && (forall i, j :: 0 <= i < j < |order| ==> order[i] != order[j])
    && (forall x: Uuid :: x in m ==> m[x].id == x)
  }

  /** The rows that were pushed into the children of `x`, in the order of the map. */
  ghost function Kids(m: Folders, order: seq<Uuid>, x: Uuid): seq<Folder> {
    if order == [] then []
    else
      var n := |order| - 1;
      Kids(m, order[..n], x) + (if ParentOf(m, order[n]) == Some(x) then [m[order[n]]] else [])
  }

  ghost function Roots(m: Folders, order: seq<Uuid>): seq<Folder> {
    if order == [] then []
    else
      var n := |order| - 1;
      Roots(m, order[..n]) + (if order[n] in m && IsRoot(m, order[n]) then [m[order[n]]] else [])
  }

  ghost predicate NoneTwice(list: seq<Folder>) {
    forall r :: multiset(list)[r] <= 1
  }

  lemma NoneTwiceEmpty()
    ensures NoneTwice([])
  {}

  lemma NoneTwiceAppend(list: seq<Folder>, r: Folder)
    requires NoneTwice(list) && r !in list
    ensures NoneTwice(list + [r])
  {
    assert r !in multiset(list);
    forall q ensures multiset(list + [r])[q] <= 1 {
      assert multiset(list)[q] <= 1;
    }
  }

  lemma NoneTwiceDiffer(list: seq<Folder>, i: nat, j: nat)
    requires NoneTwice(list) && i < j < |list|
    ensures list[i] != list[j]
  {
    assert list == list[..j] + list[j..];
    assert multiset(list) == multiset(list[..j]) + multiset(list[j..]);
    assert list[..j][i] in multiset(list[..j]) && list[j..][0] in multiset(list[j..]);
    assert multiset(list)[list[i]] <= 1;
  }

  lemma {:induction false} KidsAre(m: Folders, order: seq<Uuid>, x: Uuid)
    requires forall y: Uuid :: y in order ==> y in m && m[y].id == y
    requires forall i, j :: 0 <= i < j < |order| ==> order[i] != order[j]
    ensures forall r :: r in Kids(m, order, x) <==> r.id in order && m[r.id] == r && r.parent == Some(x)
    ensures NoneTwice(Kids(m, order, x))
    decreases |order|
  {
    hide NoneTwice;
    NoneTwiceEmpty();
    if order != [] {
      var n := |order| - 1;
      var last := order[n];
      KidsAre(m, order[..n], x);
      assert forall y: Uuid :: y in order <==> y in order[..n] || y == last;
      if m[last].parent == Some(x) {
        NoneTwiceAppend(Kids(m, order[..n], x), m[last]);
      } else {
        assert Kids(m, order, x) == Kids(m, order[..n], x);
      }
    }
  }

  lemma {:induction false} RootsAre(m: Folders, order: seq<Uuid>)
    requires forall y: Uuid :: y in order ==> y in m && m[y].id == y
    requires forall i, j :: 0 <= i < j < |order| ==> order[i] != order[j]
    ensures forall r :: r in Roots(m, order) <==> r.id in order && m[r.id] == r && IsRoot(m, r.id)
    ensures NoneTwice(Roots(m, order))
    decreases |order|
  {
    hide NoneTwice, IsRoot;
    NoneTwiceEmpty();
    if order != [] {
      var n := |order| - 1;
      var last := order[n];
      RootsAre(m, order[..n]);
      assert forall y: Uuid :: y in order <==> y in order[..n] || y == last;
      if IsRoot(m, last) {
        NoneTwiceAppend(Roots(m, order[..n]), m[last]);
      } else {
        assert Roots(m, order) == Roots(m, order[..n]);
      }
    }
  }

  /** How one list of siblings is sorted. */
  type Sorter = seq<Folder> -> seq<Folder>

  ghost predicate InOrder(collate: string -> real, list: seq<Folder>) {
    forall i, j :: 0 <= i < j < |list| ==> NodeLeq(collate, list[i], list[j])
  }

  ghost predicate SortsBy(sort: Sorter, collate: string -> real) {
    forall list :: multiset(sort(list)) == multiset(list) && InOrder(collate, sort(list))
  }

  ghost predicate Permutes(sort: Sorter) {
    forall list :: multiset(sort(list)) == multiset(list)
  }

  lemma SorterPermutes(sort: Sorter, collate: string -> real)
    requires SortsBy(sort, collate)
    ensures Permutes(sort)
  {}

  lemma SortNodesSorts(sort: Sorter, collate: string -> real)
    requires forall list :: sort(list) == SortNodes(collate, list)
    ensures SortsBy(sort, collate)
  {
    NodeOrderIsTotal(collate);
    forall list ensures multiset(sort(list)) == multiset(list) && InOrder(collate, sort(list)) {
      var s := SortNodes(collate, list);
      assert sort(list) == s;
      SortIsSorted(NodeOrder(collate), list);
      forall i, j | 0 <= i < j < |s| ensures NodeLeq(collate, s[i], s[j]) {
        assert NodeOrder(collate)(s[i], s[j]);
      }
    }
  }

  /** The trees of the rows in `list`, each with its sorted children below it, down to `h` levels. */
  ghost function Nested(m: Folders, order: seq<Uuid>, sort: Sorter, list: seq<Folder>, h: nat): seq<Tree>
    decreases h
  {
    if h == 0 then []
    else seq(|list|, i requires 0 <= i < |list| => Node(list[i], Nested(m, order, sort, sort(Kids(m, order, list[i].id)), h - 1)))
  }

  // ---------- What a reader may expect of the trees ----------

  /** How often the folder `x` occurs in the trees. */
  ghost function Occurrences(ts: seq<Tree>, x: Uuid): nat {
    if ts == [] then 0 else InTree(ts[0], x) + Occurrences(ts[1..], x)
  }

  ghost function InTree(t: Tree, x: Uuid): nat {
    One(t.folder.id == x) + Occurrences(t.children, x)
  }

  ghost function One(b: bool): nat { if b then 1 else 0 }

  /** Every folder sits under its listed parent, or at the top when it has none. */
  ghost predicate Linked(m: Folders, ts: seq<Tree>, above: Option<Uuid>) {
    forall i :: 0 <= i < |ts| ==>
      && ts[i].folder.id in m && m[ts[i].folder.id] == ts[i].folder
      && (if above.None? then IsRoot(m, ts[i].folder.id) else ts[i].folder.parent == above)
      && Linked(m, ts[i].children, Some(ts[i].folder.id))
  }

  ghost predicate SiblingsSorted(collate: string -> real, ts: seq<Tree>) {
    && (forall i, j :: 0 <= i < j < |ts| ==>
          && ts[i].folder.sortOrder <= ts[j].folder.sortOrder
          && (ts[i].folder.sortOrder == ts[j].folder.sortOrder ==>
                collate(ts[i].folder.name) <= collate(ts[j].folder.name)))
    && (forall i :: 0 <= i < |ts| ==> SiblingsSorted(collate, ts[i].children))
  }

  // ---------- Every folder is placed once ----------

  ghost predicate Covers(m: Folders, list: seq<Folder>, y: Uuid) {
    exists i :: 0 <= i < |list| && AncestorOrSelf(m, list[i].id, y)
  }

  lemma {:induction false} DepthUnderAncestor(m: Folders, y: Uuid, i: nat, a: Uuid, d: nat)
    requires Up(m, y, i) == Some(a) && RootAt(m, a, d)
    ensures RootAt(m, y, d + i)
    decreases i
  {
    if i > 0 {
      var p := ParentOf(m, y).value;
      DepthUnderAncestor(m, p, i - 1, a, d);
    }
  }

  /** Two rows of the same level never have a descendant in common. */
  lemma OneAncestorPerLevel(m: Folders, a: Uuid, b: Uuid, y: Uuid, d: nat)
    requires RootAt(m, a, d) && RootAt(m, b, d) && AncestorOrSelf(m, a, y) && AncestorOrSelf(m, b, y)
    ensures a == b
  {
    var i: nat :| Up(m, y, i) == Some(a);
    var j: nat :| Up(m, y, j) == Some(b);
    DepthUnderAncestor(m, y, i, a, d);
    DepthUnderAncestor(m, y, j, b, d);
    RootAtIsUnique(m, y, d + i, d + j);
  }

  /** A proper descendant of `x` is covered by a child of `x`. */
  lemma DescendantHasKid(m: Folders, order: seq<Uuid>, x: Uuid, y: Uuid)
    requires Enumerates(order, m) && y != x && AncestorOrSelf(m, x, y)
    ensures Covers(m, Kids(m, order, x), y)
  {
    KidsAre(m, order, x);
    var k: nat :| Up(m, y, k) == Some(x);
    UpStops(m, y, k - 1, k);
    var z := Up(m, y, k - 1).value;
    UpAdds(m, y, k - 1, 1);
    assert Up(m, z, 1) == Some(x);
    assert m[z] in Kids(m, order, x) && AncestorOrSelf(m, m[z].id, y);
  }

  /** What a child of `x` covers lies properly below `x`. */
  lemma KidCoversBelow(m: Folders, order: seq<Uuid>, x: Uuid, y: Uuid, d: nat)
    requires Enumerates(order, m) && RootAt(m, x, d) && Covers(m, Kids(m, order, x), y)
    ensures AncestorOrSelf(m, x, y) && y != x
  {
    hide Kids, RootAt;
    KidsAre(m, order, x);
    var i :| 0 <= i < |Kids(m, order, x)| && AncestorOrSelf(m, Kids(m, order, x)[i].id, y);
    var r := Kids(m, order, x)[i];
    var k: nat :| Up(m, y, k) == Some(r.id);
    UpAdds(m, y, k, 1);
    assert Up(m, r.id, 1) == Some(x) by { assert Up(m, x, 0) == Some(x); }
    assert Up(m, y, k + 1) == Some(x);
    if y == x { RootedHasNoCycle(m, x, d, k + 1); }
  }

  lemma DescendantsSplit(m: Folders, order: seq<Uuid>, x: Uuid, y: Uuid, d: nat)
    requires Enumerates(order, m) && RootAt(m, x, d)
    ensures One(AncestorOrSelf(m, x, y)) == One(x == y) + One(Covers(m, Kids(m, order, x), y))
  {
    if x == y { assert Up(m, y, 0) == Some(x); }
    if Covers(m, Kids(m, order, x), y) {
      KidCoversBelow(m, order, x, y, d);
    } else if AncestorOrSelf(m, x, y) && y != x {
      DescendantHasKid(m, order, x, y);
    }
  }

  lemma SameCover(m: Folders, s: seq<Folder>, t: seq<Folder>, y: Uuid)
    requires multiset(s) == multiset(t)
    ensures Covers(m, s, y) <==> Covers(m, t, y)
  {
    if Covers(m, s, y) {
      var i :| 0 <= i < |s| && AncestorOrSelf(m, s[i].id, y);
      SameElements(s, t, s[i]);
    }
    if Covers(m, t, y) {
      var i :| 0 <= i < |t| && AncestorOrSelf(m, t[i].id, y);
      SameElements(s, t, t[i]);
    }
  }

  /** When at most one tree can hold `y`, the count of the list is that of the tree. */
  lemma {:induction false} OneTreeCounts(m: Folders, list: seq<Folder>, ts: seq<Tree>, y: Uuid)
    requires |ts| == |list|
    requires forall i :: 0 <= i < |ts| ==> InTree(ts[i], y) == One(AncestorOrSelf(m, list[i].id, y))
    requires forall i, j :: 0 <= i < j < |list| && AncestorOrSelf(m, list[i].id, y) ==> !AncestorOrSelf(m, list[j].id, y)
    ensures Occurrences(ts, y) == One(Covers(m, list, y))
    decreases |ts|
  {
    if ts != [] {
      OneTreeCounts(m, list[1..], ts[1..], y);
      assert Covers(m, list, y) <==> AncestorOrSelf(m, list[0].id, y) || Covers(m, list[1..], y) by {
        if Covers(m, list, y) {
          var i :| 0 <= i < |list| && AncestorOrSelf(m, list[i].id, y);
          if i > 0 { assert list[1..][i - 1] == list[i]; }
        }
      }
    }
  }

  /** Rows of `m` at depth `d`, none of them twice, and room for `h` levels from there on. */
  ghost predicate Level(m: Folders, list: seq<Folder>, d: nat, h: nat) {
    && (forall i :: 0 <= i < |list| ==> list[i].id in m && m[list[i].id] == list[i] && RootAt(m, list[i].id, d))
    && NoneTwice(list)
    && d + h == |m|
  }

  lemma LevelHasRoom(m: Folders, list: seq<Folder>, d: nat, h: nat)
    requires Level(m, list, d, h) && list != []
    ensures h > 0
  {
    var line := DepthBound(m, list[0].id, d);
  }

  lemma SortedLevel(m: Folders, list: seq<Folder>, sort: Sorter, d: nat, h: nat)
    requires Permutes(sort) && NoneTwice(list) && d + h == |m|
    requires forall r :: r in list ==> r.id in m && m[r.id] == r && RootAt(m, r.id, d)
    ensures Level(m, sort(list), d, h)
  {
    var s := sort(list);
    forall i | 0 <= i < |s| ensures s[i] in list { SameElements(s, list, s[i]); }
  }

  lemma NextLevel(m: Folders, order: seq<Uuid>, sort: Sorter, x: Uuid, d: nat, h: nat)
    requires Permutes(sort) && Enumerates(order, m) && RootAt(m, x, d) && d + h == |m| && h > 0
    ensures Level(m, sort(Kids(m, order, x)), d + 1, h - 1)
  {
    KidsAre(m, order, x);
    SortedLevel(m, Kids(m, order, x), sort, d + 1, h - 1);
  }

  lemma LevelIsDisjoint(m: Folders, list: seq<Folder>, d: nat, h: nat, y: Uuid)
    requires Level(m, list, d, h)
    ensures forall i, j :: 0 <= i < j < |list| && AncestorOrSelf(m, list[i].id, y) ==> !AncestorOrSelf(m, list[j].id, y)
  {
    forall i, j | 0 <= i < j < |list| && AncestorOrSelf(m, list[i].id, y) && AncestorOrSelf(m, list[j].id, y)
      ensures false
    {
      NoneTwiceDiffer(list, i, j);
      OneAncestorPerLevel(m, list[i].id, list[j].id, y, d);
    }
  }

  lemma {:induction false} NestedOccurrences(m: Folders, order: seq<Uuid>, sort: Sorter,
                                             list: seq<Folder>, d: nat, h: nat, y: Uuid)
    requires Permutes(sort) && Enumerates(order, m) && Level(m, list, d, h)
    ensures Occurrences(Nested(m, order, sort, list, h), y) == One(Covers(m, list, y))
    decreases h
  {
    if list != [] {
      LevelHasRoom(m, list, d, h);
      var ts := Nested(m, order, sort, list, h);
      forall i | 0 <= i < |ts| ensures InTree(ts[i], y) == One(AncestorOrSelf(m, list[i].id, y)) {
        TreeOccurrences(m, order, sort, list[i], d, h, y);
      }
      LevelIsDisjoint(m, list, d, h, y);
      OneTreeCounts(m, list, ts, y);
    }
  }

  lemma {:induction false} TreeOccurrences(m: Folders, order: seq<Uuid>, sort: Sorter,
                                           r: Folder, d: nat, h: nat, y: Uuid)
    requires Permutes(sort) && Enumerates(order, m) && RootAt(m, r.id, d) && d + h == |m| && h > 0
    ensures InTree(Node(r, Nested(m, order, sort, sort(Kids(m, order, r.id)), h - 1)), y)
         == One(AncestorOrSelf(m, r.id, y))
    decreases h, 0
  {
    hide Covers, AncestorOrSelf, Kids, Enumerates, Nested, RootAt, Level;
    var kids := sort(Kids(m, order, r.id));
    NextLevel(m, order, sort, r.id, d, h);
    NestedOccurrences(m, order, sort, kids, d + 1, h - 1, y);
    SameCover(m, kids, Kids(m, order, r.id), y);
    DescendantsSplit(m, order, r.id, y, d);
  }

  // ---------- Every folder is placed where it belongs, among sorted siblings ----------

  /** The rows of `list` belong below `above`. */
  ghost predicate Under(m: Folders, list: seq<Folder>, above: Option<Uuid>) {
    forall i :: 0 <= i < |list| ==>
      && list[i].id in m && m[list[i].id] == list[i]
      && if above.None? then IsRoot(m, list[i].id) else list[i].parent == above
  }

  lemma SortedKidsAreUnder(m: Folders, order: seq<Uuid>, sort: Sorter, x: Uuid)
    requires Permutes(sort) && Enumerates(order, m)
    ensures Under(m, sort(Kids(m, order, x)), Some(x))
  {
    var kids := Kids(m, order, x);
    KidsAre(m, order, x);
    var s := sort(kids);
    forall i | 0 <= i < |s| ensures s[i] in kids { SameElements(s, kids, s[i]); }
  }

  lemma {:induction false} NestedShape(m: Folders, order: seq<Uuid>, sort: Sorter, collate: string -> real,
                                       list: seq<Folder>, h: nat, above: Option<Uuid>)
    requires SortsBy(sort, collate)
    requires Enumerates(order, m) && Under(m, list, above) && InOrder(collate, list)
    ensures Linked(m, Nested(m, order, sort, list, h), above)
    ensures SiblingsSorted(collate, Nested(m, order, sort, list, h))
    decreases h
  {
    hide Enumerates, Kids, Permutes;
    if h > 0 {
      forall i | 0 <= i < |list|
        ensures var below := Nested(m, order, sort, sort(Kids(m, order, list[i].id)), h - 1);
          Linked(m, below, Some(list[i].id)) && SiblingsSorted(collate, below)
      {
        SorterPermutes(sort, collate);
        SortedKidsAreUnder(m, order, sort, list[i].id);
        NestedShape(m, order, sort, collate, sort(Kids(m, order, list[i].id)), h - 1, Some(list[i].id));
      }
    }
  }

  // ---------- The function ----------

  method BuildFolderTree(folders: seq<Folder>, collate: string -> real) returns (roots: seq<Tree>)
    ensures Places(ById(folders), roots)
    ensures Linked(ById(folders), roots, None)
    ensures SiblingsSorted(collate, roots)
  {
    var byId, order := Index(folders);
    var children, top := LinkNodes(byId, order);
    var sort: Sorter := list => SortNodes(collate, list);
    SortNodesSorts(sort, collate);
    RootsAre(byId, order);
    SortedLevel(byId, top, sort, 0, |byId|);
    roots := SortLevel(byId, order, sort, children, top, 0, |byId|);
    TopLevel(byId, order, sort, collate);
  }

  /** The first loop: fills the map, remembering the order in which its keys were first set. */
  method Index(folders: seq<Folder>) returns (byId: Folders, order: seq<Uuid>)
    ensures byId == ById(folders) && Enumerates(order, byId)
  {
    byId := map[];
    order := [];
    for i := 0 to |folders|
      invariant byId == ById(folders[..i])
      invariant Enumerates(order, byId)
    {
      assert folders[..i + 1][..i] == folders[..i];
      var f := folders[i];
      if f.id !in byId {
        order := order + [f.id];
      }
      byId := byId[f.id := f];
    }
    assert folders[..|folders|] == folders;
  }

  /** The second loop: pushes every node to the children of its listed parent, or to the roots. */
  method LinkNodes(byId: Folders, order: seq<Uuid>) returns (children: map<Uuid, seq<Folder>>, roots: seq<Folder>)
    requires forall y: Uuid :: y in order ==> y in byId
    ensures ChildLists(byId, order, children)
    ensures roots == Roots(byId, order)
  {
    children := map x: Uuid | x in byId :: [];
    roots := [];
    for i := 0 to |order|
      invariant children.Keys == byId.Keys
      invariant forall x: Uuid :: x in children ==> children[x] == Kids(byId, order[..i], x)
      invariant roots == Roots(byId, order[..i])
    {
      assert order[..i + 1][..i] == order[..i];
      var node := byId[order[i]];
      if node.parent.Some? && node.parent.value in byId {
        children := children[node.parent.value := children[node.parent.value] + [node]];
      } else {
        roots := roots + [node];
      }
    }
    assert order[..|order|] == order;
  }

  ghost predicate ChildLists(m: Folders, order: seq<Uuid>, children: map<Uuid, seq<Folder>>) {
    children.Keys == m.Keys && forall x: Uuid :: x in children ==> children[x] == Kids(m, order, x)
  }

  /** Sorts a list of siblings and then, recursively, the children of each of them. */
  method SortLevel(byId: Folders, ghost order: seq<Uuid>, sort: Sorter, children: map<Uuid, seq<Folder>>,
                   list: seq<Folder>, ghost d: nat, ghost h: nat)
    returns (trees: seq<Tree>)
    requires Permutes(sort) && Enumerates(order, byId) && ChildLists(byId, order, children)
    requires Level(byId, sort(list), d, h)
    ensures trees == Nested(byId, order, sort, sort(list), h)
    decreases h
  {
    hide Level, Enumerates, Nested, Kids, Permutes;
    var sorted := sort(list);
    ghost var goal := Nested(byId, order, sort, sorted, h);
    NestedSize(byId, order, sort, sorted, d, h);
    trees := [];
    for i := 0 to |sorted|
      invariant |trees| == i && forall k :: 0 <= k < i ==> trees[k] == goal[k]
    {
      LevelStep(byId, order, sort, sorted, d, h, i);
      var node := sorted[i];
      var below := SortLevel(byId, order, sort, children, children[node.id], d + 1, h - 1);
      assert goal[i] == Node(node, below);
      trees := trees + [Node(node, below)];
    }
  }

  lemma NestedSize(m: Folders, order: seq<Uuid>, sort: Sorter, list: seq<Folder>, d: nat, h: nat)
    requires Level(m, list, d, h)
    ensures |Nested(m, order, sort, list, h)| == |list|
  {
    if list != [] { LevelHasRoom(m, list, d, h); }
  }

  /** What the loop needs to know before it descends into the children of `list[i]`. */
  lemma LevelStep(m: Folders, order: seq<Uuid>, sort: Sorter, list: seq<Folder>, d: nat, h: nat, i: nat)
    requires Permutes(sort) && Enumerates(order, m) && Level(m, list, d, h) && i < |list|
    ensures h > 0 && list[i].id in m && |Nested(m, order, sort, list, h)| == |list|
    ensures Level(m, sort(Kids(m, order, list[i].id)), d + 1, h - 1)
    ensures Nested(m, order, sort, list, h)[i]
         == Node(list[i], Nested(m, order, sort, sort(Kids(m, order, list[i].id)), h - 1))
  {
    LevelHasRoom(m, list, d, h);
    NextLevel(m, order, sort, list[i].id, d, h);
  }

  /** The trees hold each folder that hangs below a root of the list once, and no other. */
  ghost predicate Places(m: Folders, ts: seq<Tree>) {
    forall y: Uuid :: Occurrences(ts, y) == One(y in m && Rooted(m, y))
  }

  lemma TopLevel(m: Folders, order: seq<Uuid>, sort: Sorter, collate: string -> real)
    requires SortsBy(sort, collate) && Enumerates(order, m)
    ensures var ts := Nested(m, order, sort, sort(Roots(m, order)), |m|);
      Places(m, ts) && Linked(m, ts, None) && SiblingsSorted(collate, ts)
  {
    var top := Roots(m, order);
    var sorted := sort(top);
    RootsAre(m, order);
    SortedLevel(m, top, sort, 0, |m|);
    forall i | 0 <= i < |sorted| ensures IsRoot(m, sorted[i].id) { SameElements(sorted, top, sorted[i]); }
    NestedShape(m, order, sort, collate, sorted, |m|, None);
    forall y: Uuid ensures Occurrences(Nested(m, order, sort, sorted, |m|), y) == One(y in m && Rooted(m, y)) {
      NestedOccurrences(m, order, sort, sorted, 0, |m|, y);
      SameCover(m, sorted, top, y);
      CoveredIffRooted(m, order, y);
    }
  }

  lemma CoveredIffRooted(m: Folders, order: seq<Uuid>, y: Uuid)
    requires Enumerates(order, m)
    ensures Covers(m, Roots(m, order), y) <==> y in m && Rooted(m, y)
  {
    var top := Roots(m, order);
    RootsAre(m, order);
    if Covers(m, top, y) {
      var i :| 0 <= i < |top| && AncestorOrSelf(m, top[i].id, y);
      var k: nat :| Up(m, y, k) == Some(top[i].id);
      assert top[i] in top;
      DepthUnderAncestor(m, y, k, top[i].id, 0);
    }
    if y in m && Rooted(m, y) {
      var d: nat :| RootAt(m, y, d);
      WalkToRoot(m, y, d);
      var r := m[Up(m, y, d).value];
      assert r in top && AncestorOrSelf(m, r.id, y);
    }
  }

  lemma {:induction false} WalkToRoot(m: Folders, y: Uuid, d: nat)
    requires RootAt(m, y, d)
    ensures Up(m, y, d).Some? && Up(m, y, d).value in m && IsRoot(m, Up(m, y, d).value)
    decreases d
  {
    if d > 0 { WalkToRoot(m, m[y].parent.value, d - 1); }
  }

  // ---------- From the service to the pane ----------

  /** No folder disappears from the pane exactly when the parent relation of the list has no cycle. */
  lemma AllPlacedIffAcyclic(folders: seq<Folder>, roots: seq<Tree>)
    requires Places(ById(folders), roots)
    ensures (forall f :: f in folders ==> Occurrences(roots, f.id) == 1) <==> Acyclic(ById(folders))
  {
    AcyclicIffAllRooted(ById(folders));
    if forall f :: f in folders ==> Occurrences(roots, f.id) == 1 {
      forall y: Uuid | y in ById(folders) ensures Rooted(ById(folders), y) {
        assert ById(folders)[y] in folders;
      }
    }
  }

  /** After any run of requests of any callers, whoever opens a case sees every folder of the case exactly once. */
  lemma EveryFolderOfTheCaseIsPlaced(cases: map<Uuid, Tenant>, m: Folders, rs: seq<Request>, reader: TenantContext,
                                     caseId: Uuid, folders: seq<Folder>, roots: seq<Tree>)
    requires Inv(cases, m)
    requires var rows := View(Run(cases, m, rs), reader);
      forall f :: f in folders <==> f.id in rows && rows[f.id] == f && f.caseId == caseId
    requires Places(ById(folders), roots)
    ensures forall f :: f in folders ==> Occurrences(roots, f.id) == 1
  {
    hide Acyclic, Occurrences;
    RunKeepsForests(cases, m, rs);
    if folders != [] {
      var after := Run(cases, m, rs);
      var t := folders[0].tenantId;
      assert folders[0] in folders;
      forall x: Uuid | x in ById(folders) ensures x in OfTenant(after, t) && ById(folders)[x] == after[x] {
        assert ById(folders)[x] in folders;
      }
      DetachKeepsForest(OfTenant(after, t), ById(folders));
    } else {
      RootsOnly(ById(folders));
    }
    AllPlacedIffAcyclic(folders, roots);
  }
}
