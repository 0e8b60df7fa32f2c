/**
 The stable library sort (`sorted`, `list.sort`, `Array.prototype.sort`) as a function of the comparison.
 */
module StableSort {

  ghost predicate TotalPreorder<T(!new)>(leq: (T, T) -> bool) {
    && (forall x, y :: leq(x, y) || leq(y, x))
    && (forall x, y, z :: leq(x, y) && leq(y, z) ==> leq(x, z))
  }

  ghost predicate Sorted<T>(leq: (T, T) -> bool, s: seq<T>) {
    forall i, j :: 0 <= i < j < |s| ==> leq(s[i], s[j])
  }

  /** Puts `x` before the first element that is not smaller, so equal elements keep their order. */
  function Insert<T>(leq: (T, T) -> bool, x: T, s: seq<T>): (r: seq<T>)
    ensures multiset(r) == multiset([x]) + multiset(s)
    ensures |r| == |s| + 1
  {
    if s == [] then [x]
    else if leq(x, s[0]) then [x] + s
    else
      var rest := Insert(leq, x, s[1..]);
      assert s == [s[0]] + s[1..];
      [s[0]] + rest
  }

  function Sort<T>(leq: (T, T) -> bool, s: seq<T>): (r: seq<T>)
    ensures multiset(r) == multiset(s)
    ensures |r| == |s|
  {
    if s == [] then []
    else
      assert s == [s[0]] + s[1..];
      Insert(leq, s[0], Sort(leq, s[1..]))
  }

  lemma {:induction false} InsertKeepsSorted<T(!new)>(leq: (T, T) -> bool, x: T, s: seq<T>)
    requires TotalPreorder(leq) && Sorted(leq, s)
    ensures Sorted(leq, Insert(leq, x, s))
  {
    if s != [] && !leq(x, s[0]) {
      var rest := Insert(leq, x, s[1..]);
      InsertKeepsSorted(leq, x, s[1..]);
      forall y | y in rest ensures leq(s[0], y) {
        assert y in multiset(rest);
      }
    }
  }

  lemma {:induction false} SortIsSorted<T(!new)>(leq: (T, T) -> bool, s: seq<T>)
    requires TotalPreorder(leq)
    ensures Sorted(leq, Sort(leq, s))
  {
    if s != [] {
      SortIsSorted(leq, s[1..]);
      InsertKeepsSorted(leq, s[0], Sort(leq, s[1..]));
    }
  }

  /** The elements that the order does not tell from `x`, as they stand in the list. */
  ghost function Class<T>(leq: (T, T) -> bool, x: T, s: seq<T>): seq<T> {
    if s == [] then []
    else (if leq(x, s[0]) && leq(s[0], x) then [s[0]] else []) + Class(leq, x, s[1..])
  }

  lemma {:induction false} InsertIsStable<T(!new)>(leq: (T, T) -> bool, x: T, y: T, s: seq<T>)
    requires TotalPreorder(leq)
    ensures Class(leq, x, Insert(leq, y, s)) == Class(leq, x, [y] + s)
  {
    hide Class;
    ClassCons(leq, x, y, s);
    if s == [] {
      assert Insert(leq, y, s) == [y] + s;
    } else if !leq(y, s[0]) {
      var rest := Insert(leq, y, s[1..]);
      InsertIsStable(leq, x, y, s[1..]);
      ClassCons(leq, x, s[0], rest);
      ClassCons(leq, x, y, s[1..]);
      ClassCons(leq, x, s[0], s[1..]);
      assert s == [s[0]] + s[1..];
      NotBoth(leq, x, y, s[0]);
    }
  }

  lemma ClassCons<T>(leq: (T, T) -> bool, x: T, y: T, s: seq<T>)
    ensures Class(leq, x, [y] + s) == (if leq(x, y) && leq(y, x) then [y] else []) + Class(leq, x, s)
  {
    assert ([y] + s)[1..] == s;
  }

  lemma NotBoth<T(!new)>(leq: (T, T) -> bool, x: T, y: T, z: T)
    requires TotalPreorder(leq) && !leq(y, z)
    ensures !(leq(y, x) && leq(x, z))
  {}

  /** Sorting keeps the order of elements that it does not tell apart. */
  lemma {:induction false} SortIsStable<T(!new)>(leq: (T, T) -> bool, x: T, s: seq<T>)
    requires TotalPreorder(leq)
    ensures Class(leq, x, Sort(leq, s)) == Class(leq, x, s)
  {
    if s != [] {
      SortIsStable(leq, x, s[1..]);
      InsertIsStable(leq, x, s[0], Sort(leq, s[1..]));
      assert ([s[0]] + Sort(leq, s[1..]))[1..] == Sort(leq, s[1..]);
    }
  }

  lemma SameElements<T>(s: seq<T>, t: seq<T>, x: T)
    requires multiset(s) == multiset(t)
    ensures x in s <==> x in t
  {
    assert x in s <==> x in multiset(s);
    assert x in t <==> x in multiset(t);
  }

  /** Every element stands before every later one, and is another. */
  ghost predicate Ascending<T>(leq: (T, T) -> bool, s: seq<T>) {
    forall i, j :: 0 <= i < j < |s| ==> leq(s[i], s[j]) && s[i] != s[j]
  }

  /** A set has one ascending arrangement. */
  lemma {:induction false} AscendingIsUnique<T(!new)>(leq: (T, T) -> bool, s: seq<T>, t: seq<T>)
    requires forall x, y :: leq(x, y) && leq(y, x) ==> x == y
    requires Ascending(leq, s) && Ascending(leq, t) && forall x :: x in s <==> x in t
    ensures s == t
    decreases |s|
  {
    hide Ascending;
    FirstIsIn(t);
    if s != [] {
      var n, m := |s| - 1, |t| - 1;
      assert s[n] in s && s[n] in t;
      assert t[m] in t && t[m] in s;
      SameLast(leq, s, t);
      forall x ensures x in s[..n] <==> x in t[..m] {
        InFront(leq, s, x);
        InFront(leq, t, x);
      }
      AscendingFront(leq, s);
      AscendingFront(leq, t);
      AscendingIsUnique(leq, s[..n], t[..m]);
      assert s == s[..n] + [s[n]] && t == t[..m] + [t[m]];
    }
  }

  lemma FirstIsIn<T>(s: seq<T>)
    ensures s == [] || s[0] in s
  {}

  lemma SameLast<T(!new)>(leq: (T, T) -> bool, s: seq<T>, t: seq<T>)
    requires forall x, y :: leq(x, y) && leq(y, x) ==> x == y
    requires Ascending(leq, s) && Ascending(leq, t)
    requires s != [] && t != [] && s[|s| - 1] in t && t[|t| - 1] in s
    ensures s[|s| - 1] == t[|t| - 1]
  {
    var i :| 0 <= i < |t| && t[i] == s[|s| - 1];
    var j :| 0 <= j < |s| && s[j] == t[|t| - 1];
  }

  lemma AscendingFront<T>(leq: (T, T) -> bool, s: seq<T>)
    requires s != [] && Ascending(leq, s)
    ensures Ascending(leq, s[..|s| - 1])
  {}

  lemma InFront<T>(leq: (T, T) -> bool, s: seq<T>, x: T)
    requires s != [] && Ascending(leq, s)
    ensures x in s[..|s| - 1] <==> x in s && x != s[|s| - 1]
  {
    assert s == s[..|s| - 1] + [s[|s| - 1]];
  }
}
