/**
 Temporal clustering of timeline entries. A gap equal to the threshold joins, so the clusters are the connected
 components, of two entries or more, of the relation "at most the threshold apart".
 */
module Clustering {
  import opened Wrappers
  import opened StableSort

  /** Timestamps and thresholds are integers in one unit. */
  datatype Entry = Entry(id: Uuid, time: int)

  datatype Cluster = Cluster(start: int, end: int, ids: seq<Uuid>)

  function TimeOrder(): (Entry, Entry) -> bool {
    (a: Entry, b: Entry) => a.time <= b.time
  }

  function Ids(g: seq<Entry>): (ids: seq<Uuid>) {
    seq(|g|, i requires 0 <= i < |g| => g[i].id)
  }

  // ---------- What the loop computes ----------

  /** Splits a time-ordered list after every gap above the threshold. */
  ghost function Runs(s: seq<Entry>, threshold: int): (rs: seq<seq<Entry>>)
    ensures s != [] ==> rs != []
    ensures forall i :: 0 <= i < |rs| ==> rs[i] != []
  {
    if s == [] then [] else Extend(Runs(s[..|s| - 1], threshold), s[|s| - 1], threshold)
  }

  /** The next entry joins the last run or starts a new one. */
  ghost function Extend(rs: seq<seq<Entry>>, e: Entry, threshold: int): (r: seq<seq<Entry>>)
    requires forall i :: 0 <= i < |rs| ==> rs[i] != []
    ensures forall i :: 0 <= i < |r| ==> r[i] != []
  {
    var m := |rs| - 1;
    if rs != [] && e.time - Last(rs[m]).time <= threshold then rs[..m] + [rs[m] + [e]] else rs + [[e]]
  }

  ghost function Last(g: seq<Entry>): Entry
    requires g != []
  {
    g[|g| - 1]
  }

  ghost function Groups(entries: seq<Entry>, threshold: int): seq<seq<Entry>> {
    Runs(Sort(TimeOrder(), entries), threshold)
  }

  /** The clusters of the groups that have at least two entries. */
  ghost function Kept(gs: seq<seq<Entry>>): seq<Cluster> {
    if gs == [] then []
    else
      var n := |gs| - 1;
      Kept(gs[..n]) + Flushed(gs[n])
  }

  function Flushed(g: seq<Entry>): seq<Cluster> {
    if |g| >= 2 then [Cluster(g[0].time, g[|g| - 1].time, Ids(g))] else []
  }

  method FindClusters(entries: seq<Entry>, threshold: int) returns (clusters: seq<Cluster>)
    ensures clusters == Kept(Groups(entries, threshold))
  {
    if entries == [] {
      return [];
    }
    var sorted := Sort(TimeOrder(), entries);
    clusters := [];
    var current := [sorted[0]];
    ghost var done: seq<seq<Entry>> := [];
    FirstRun(sorted, threshold);
    for i := 1 to |sorted|
      invariant current != [] && Runs(sorted[..i], threshold) == done + [current]
      invariant clusters == Kept(done)
    {
      hide Sort, Kept, Runs;
      var entry := sorted[i];
      NextRun(sorted, threshold, i, done, current);
      var gap := entry.time - current[|current| - 1].time;
      if gap <= threshold {
        current := current + [entry];
      } else {
        KeptAppend(done, current);
        clusters := clusters + Flushed(current);
        done := done + [current];
        current := [entry];
      }
    }
    assert sorted[..|sorted|] == sorted;
    KeptAppend(done, current);
    clusters := clusters + Flushed(current);
  }

  lemma FirstRun(s: seq<Entry>, threshold: int)
    requires s != []
    ensures Runs(s[..1], threshold) == [] + [[s[0]]]
  {
    assert s[..1][..0] == [];
  }

  lemma NextRun(s: seq<Entry>, threshold: int, i: nat, done: seq<seq<Entry>>, current: seq<Entry>)
    requires i < |s| && current != [] && Runs(s[..i], threshold) == done + [current]
    ensures Runs(s[..i + 1], threshold)
         == if s[i].time - Last(current).time <= threshold then done + [current + [s[i]]] else done + [current] + [[s[i]]]
  {
    assert s[..i + 1][..i] == s[..i];
    assert (done + [current])[..|done|] == done;
  }

  lemma KeptAppend(gs: seq<seq<Entry>>, g: seq<Entry>)
    ensures Kept(gs + [g]) == Kept(gs) + Flushed(g)
  {
    assert (gs + [g])[..|gs|] == gs;
  }

  // ---------- Connected components ----------

  ghost predicate Close(a: Entry, b: Entry, threshold: int) {
    a.time - b.time <= threshold && b.time - a.time <= threshold
  }

  /** A path inside `entries` whose steps are at most the threshold long. */
  ghost predicate Path(p: seq<Entry>, entries: seq<Entry>, threshold: int) {
    && (forall i :: 0 <= i < |p| ==> p[i] in entries)
    && (forall i :: 0 < i < |p| ==> Close(p[i - 1], p[i], threshold))
  }

  ghost predicate Connected(entries: seq<Entry>, threshold: int, a: Entry, b: Entry) {
    exists p :: p != [] && p[0] == a && p[|p| - 1] == b && Path(p, entries, threshold)
  }

  ghost function Flat(gs: seq<seq<Entry>>): seq<Entry> {
    if gs == [] then [] else Flat(gs[..|gs| - 1]) + gs[|gs| - 1]
  }

  /** The groups share out the entries; two entries are in the same group exactly when they are connected;
      groups are time-ordered, and separated by more than the threshold. */
  ghost predicate AreComponents(gs: seq<seq<Entry>>, entries: seq<Entry>, threshold: int) {
    && multiset(Flat(gs)) == multiset(entries)
    && (forall i, a, b :: 0 <= i < |gs| && a in gs[i] && b in gs[i] ==> Connected(entries, threshold, a, b))
    && (forall i, j, a, b :: 0 <= i < j < |gs| && a in gs[i] && b in gs[j] ==>
          !Connected(entries, threshold, a, b) && b.time - a.time > threshold)
    && (forall i :: 0 <= i < |gs| ==> gs[i] != [] && Sorted(TimeOrder(), gs[i]))
  }

  ghost predicate TimeSorted(s: seq<Entry>) {
    forall i, j :: 0 <= i < j < |s| ==> s[i].time <= s[j].time
  }

  lemma SortFacts(entries: seq<Entry>) returns (s: seq<Entry>)
    ensures s == Sort(TimeOrder(), entries) && TimeSorted(s) && multiset(s) == multiset(entries)
    ensures forall e :: e in s <==> e in entries
  {
    s := Sort(TimeOrder(), entries);
    SortIsSorted(TimeOrder(), entries);
    assert forall i, j :: 0 <= i < j < |s| ==> TimeOrder()(s[i], s[j]);
    forall e ensures e in s <==> e in entries { SameElements(s, entries, e); }
  }

  lemma {:induction false} RunsFlat(s: seq<Entry>, threshold: int)
    ensures Flat(Runs(s, threshold)) == s
    decreases |s|
  {
    if s != [] {
      var n := |s| - 1;
      RunsFlat(s[..n], threshold);
      FlatExtend(Runs(s[..n], threshold), s[n], threshold);
    }
  }

  lemma FlatExtend(rs: seq<seq<Entry>>, e: Entry, threshold: int)
    requires forall i :: 0 <= i < |rs| ==> rs[i] != []
    ensures Flat(Extend(rs, e, threshold)) == Flat(rs) + [e]
  {
    var m := |rs| - 1;
    if rs != [] {
      FlatAppend(rs[..m], rs[m] + [e]);
    }
    FlatAppend(rs, [e]);
  }

  lemma FlatAppend(gs: seq<seq<Entry>>, g: seq<Entry>)
    ensures Flat(gs + [g]) == Flat(gs) + g
  {
    assert (gs + [g])[..|gs|] == gs;
  }

  ghost predicate Chained(g: seq<Entry>, threshold: int) {
    forall i :: 0 < i < |g| ==> g[i].time - g[i - 1].time <= threshold
  }

  /** What every run `g` of the list `s` is: chained, time-ordered, made of entries of the list. */
  ghost predicate IsRun(g: seq<Entry>, s: seq<Entry>, threshold: int) {
    Chained(g, threshold) && TimeSorted(g) && forall e :: e in g ==> e in s
  }

  lemma {:induction false} RunsAreRuns(s: seq<Entry>, threshold: int)
    requires TimeSorted(s)
    ensures forall r :: 0 <= r < |Runs(s, threshold)| ==> IsRun(Runs(s, threshold)[r], s, threshold)
    ensures s != [] ==> Last(Runs(s, threshold)[|Runs(s, threshold)| - 1]) == Last(s)
    decreases |s|
  {
    hide IsRun, Extend;
    if s != [] {
      var n := |s| - 1;
      RunsAreRuns(s[..n], threshold);
      assert s == s[..n] + [s[n]];
      ExtendKeepsRuns(Runs(s[..n], threshold), s[..n], s[n], threshold);
    }
  }

  lemma ExtendKeepsRuns(rs: seq<seq<Entry>>, s: seq<Entry>, e: Entry, threshold: int)
    requires forall i :: 0 <= i < |rs| ==> rs[i] != [] && IsRun(rs[i], s, threshold)
    requires forall x :: x in s ==> x.time <= e.time
    ensures var r := Extend(rs, e, threshold);
      && (forall i :: 0 <= i < |r| ==> IsRun(r[i], s + [e], threshold))
      && r != [] && Last(r[|r| - 1]) == e
  {
    hide IsRun;
    OneRun(s, e, threshold);
    forall i | 0 <= i < |rs|
      ensures IsRun(rs[i], s + [e], threshold)
      ensures e.time - Last(rs[i]).time <= threshold ==> IsRun(rs[i] + [e], s + [e], threshold)
    {
      RunGrows(rs[i], s, e, threshold);
    }
  }

  lemma OneRun(s: seq<Entry>, e: Entry, threshold: int)
    ensures IsRun([e], s + [e], threshold)
  {}

  lemma RunGrows(g: seq<Entry>, s: seq<Entry>, e: Entry, threshold: int)
    requires g != [] && IsRun(g, s, threshold) && forall x :: x in s ==> x.time <= e.time
    ensures IsRun(g, s + [e], threshold)
    ensures e.time - Last(g).time <= threshold ==> IsRun(g + [e], s + [e], threshold)
  {
  }

  // ---------- Same run, connected ----------

  lemma ChainConnects(g: seq<Entry>, entries: seq<Entry>, threshold: int, i: nat, j: nat)
    requires i <= j < |g| && Chained(g, threshold) && TimeSorted(g)
    requires forall e :: e in g ==> e in entries
    ensures Connected(entries, threshold, g[i], g[j]) && Connected(entries, threshold, g[j], g[i])
  {
    var p := g[i..j + 1];
    assert forall k :: 0 <= k < |p| ==> p[k] == g[i + k];
    assert Path(p, entries, threshold) by {
      forall k | 0 < k < |p| ensures Close(p[k - 1], p[k], threshold) {
        assert g[i + k].time - g[i + k - 1].time <= threshold;
        assert g[i + k - 1].time <= g[i + k].time;
      }
    }
    var q := seq(|p|, k requires 0 <= k < |p| => p[|p| - 1 - k]);
    assert Path(q, entries, threshold) by {
      forall k | 0 < k < |q| ensures Close(q[k - 1], q[k], threshold) {
        assert Close(p[|p| - 1 - k], p[|p| - k], threshold);
      }
      forall k | 0 <= k < |q| ensures q[k] in entries { assert p[|p| - 1 - k] in entries; }
    }
  }

  // ---------- Different runs, not connected ----------

  /** Nothing lies strictly between `lo` and `hi`, which are more than the threshold apart: no path crosses. */
  lemma {:induction false} NoPathAcross(p: seq<Entry>, entries: seq<Entry>, threshold: int, lo: int, hi: int)
    requires p != [] && Path(p, entries, threshold) && hi - lo > threshold
    requires forall e :: e in entries ==> e.time <= lo || hi <= e.time
    ensures p[0].time <= lo < hi ==> p[|p| - 1].time <= lo
    decreases |p|
  {
    if |p| > 1 && p[0].time <= lo < hi {
      var q := p[..|p| - 1];
      assert Path(q, entries, threshold) by {
        forall i | 0 < i < |q| ensures Close(q[i - 1], q[i], threshold) { assert Close(p[i - 1], p[i], threshold); }
      }
      NoPathAcross(q, entries, threshold, lo, hi);
      assert Close(p[|p| - 2], p[|p| - 1], threshold);
      assert p[|p| - 1] in entries;
    }
  }

  /** A gap wider than the threshold lies between `a` and `b`, and no entry of the list lies inside it. */
  ghost predicate Separated(s: seq<Entry>, threshold: int, a: Entry, b: Entry) {
    exists lo, hi :: Gap(s, threshold, lo, hi) && a.time <= lo && hi <= b.time
  }

  ghost predicate Gap(s: seq<Entry>, threshold: int, lo: int, hi: int) {
    hi - lo > threshold && forall e :: e in s ==> e.time <= lo || hi <= e.time
  }

  /** An entry of a run was there before the last step, or is the last entry; in that case it joined the run of
      the entry before it, or started a run after a gap. */
  lemma RunsStep(s: seq<Entry>, threshold: int, q: nat, b: Entry)
    requires s != [] && TimeSorted(s) && q < |Runs(s, threshold)| && b in Runs(s, threshold)[q]
    ensures var rs := Runs(s[..|s| - 1], threshold);
      || (q < |rs| && b in rs[q])
      || (b == Last(s) && |s| > 1 && q == |rs| - 1 && s[|s| - 2] in rs[q] && b.time - s[|s| - 2].time <= threshold)
      || (b == Last(s) && q == |rs| && (|s| > 1 ==> b.time - s[|s| - 2].time > threshold))
  {
    RunsAreRuns(s[..|s| - 1], threshold);
  }

  lemma {:induction false} RunsSeparated(s: seq<Entry>, threshold: int, r: nat, q: nat, a: Entry, b: Entry)
    requires TimeSorted(s) && r < q < |Runs(s, threshold)|
    requires a in Runs(s, threshold)[r] && b in Runs(s, threshold)[q]
    ensures Separated(s, threshold, a, b)
    decreases |s|
  {
    hide Runs, Separated;
    RunsCount(s, threshold);
    var n := |s| - 1;
    var rs := Runs(s[..n], threshold);
    RunsStep(s, threshold, r, a);
    RunsStep(s, threshold, q, b);
    RunsAreRuns(s[..n], threshold);
    if q < |rs| && b in rs[q] {
      RunsSeparated(s[..n], threshold, r, q, a, b);
      GapStays(s, threshold, a, b, b);
    } else if q < |rs| {
      RunsSeparated(s[..n], threshold, r, q, a, s[n - 1]);
      GapStays(s, threshold, a, s[n - 1], b);
    } else {
      LastGap(s, threshold, a);
    }
  }

  lemma RunsCount(s: seq<Entry>, threshold: int)
    ensures s == [] ==> Runs(s, threshold) == []
    ensures s != [] ==> |Runs(s, threshold)| <= |Runs(s[..|s| - 1], threshold)| + 1
    ensures |s| == 1 ==> |Runs(s, threshold)| == 1
  {
  }

  lemma LastGap(s: seq<Entry>, threshold: int, a: Entry)
    requires |s| > 1 && TimeSorted(s) && a in s[..|s| - 1] && s[|s| - 1].time - s[|s| - 2].time > threshold
    ensures Separated(s, threshold, a, s[|s| - 1])
  {
    assert Gap(s, threshold, s[|s| - 2].time, s[|s| - 1].time);
  }

  lemma GapStays(s: seq<Entry>, threshold: int, a: Entry, b: Entry, c: Entry)
    requires s != [] && TimeSorted(s) && b in s[..|s| - 1] && Separated(s[..|s| - 1], threshold, a, b)
    requires b.time <= c.time
    ensures Separated(s, threshold, a, c)
  {
    var n := |s| - 1;
    var lo, hi :| Gap(s[..n], threshold, lo, hi) && a.time <= lo && hi <= b.time;
    assert s == s[..n] + [s[n]];
    assert Gap(s, threshold, lo, hi);
  }

  lemma RunsApart(s: seq<Entry>, threshold: int, r: nat, q: nat, a: Entry, b: Entry)
    requires TimeSorted(s) && r < q < |Runs(s, threshold)| && 0 <= threshold
    requires a in Runs(s, threshold)[r] && b in Runs(s, threshold)[q]
    ensures b.time - a.time > threshold && !Connected(s, threshold, a, b)
  {
    RunsSeparated(s, threshold, r, q, a, b);
    var lo, hi :| Gap(s, threshold, lo, hi) && a.time <= lo && hi <= b.time;
    if Connected(s, threshold, a, b) {
      var p :| p != [] && p[0] == a && p[|p| - 1] == b && Path(p, s, threshold);
      NoPathAcross(p, s, threshold, lo, hi);
    }
  }

  lemma ConnectedSameElements(s: seq<Entry>, t: seq<Entry>, threshold: int, a: Entry, b: Entry)
    requires forall e :: e in s <==> e in t
    ensures Connected(s, threshold, a, b) <==> Connected(t, threshold, a, b)
  {
    assert forall p :: Path(p, s, threshold) <==> Path(p, t, threshold);
  }

  lemma SameRunConnected(entries: seq<Entry>, threshold: int, i: nat, a: Entry, b: Entry)
    requires i < |Groups(entries, threshold)| && a in Groups(entries, threshold)[i] && b in Groups(entries, threshold)[i]
    ensures Connected(entries, threshold, a, b)
  {
    hide Sort;
    var s := SortFacts(entries);
    var g := Runs(s, threshold)[i];
    RunsAreRuns(s, threshold);
    var j :| 0 <= j < |g| && g[j] == a;
    var k :| 0 <= k < |g| && g[k] == b;
    ChainConnects(g, entries, threshold, if j <= k then j else k, if j <= k then k else j);
  }

  lemma OtherRunNotConnected(entries: seq<Entry>, threshold: int, i: nat, j: nat, a: Entry, b: Entry)
    requires 0 <= threshold
    requires i < j < |Groups(entries, threshold)| && a in Groups(entries, threshold)[i] && b in Groups(entries, threshold)[j]
    ensures !Connected(entries, threshold, a, b) && b.time - a.time > threshold
  {
    hide Sort;
    var s := SortFacts(entries);
    RunsApart(s, threshold, i, j, a, b);
    ConnectedSameElements(s, entries, threshold, a, b);
  }

  /** The groups are the connected components. */
  lemma GroupsAreComponents(entries: seq<Entry>, threshold: int)
    requires 0 <= threshold
    ensures AreComponents(Groups(entries, threshold), entries, threshold)
  {
    hide Sort, Connected, Runs, Groups, Flat;
    var gs := Groups(entries, threshold);
    GroupsShareEntries(entries, threshold);
    forall i, a, b | 0 <= i < |gs| && a in gs[i] && b in gs[i] ensures Connected(entries, threshold, a, b) {
      SameRunConnected(entries, threshold, i, a, b);
    }
    forall i, j, a, b | 0 <= i < j < |gs| && a in gs[i] && b in gs[j]
      ensures !Connected(entries, threshold, a, b) && b.time - a.time > threshold
    {
      OtherRunNotConnected(entries, threshold, i, j, a, b);
    }
  }

  lemma GroupsShareEntries(entries: seq<Entry>, threshold: int)
    ensures multiset(Flat(Groups(entries, threshold))) == multiset(entries)
    ensures forall i :: 0 <= i < |Groups(entries, threshold)| ==>
      Groups(entries, threshold)[i] != [] && Sorted(TimeOrder(), Groups(entries, threshold)[i])
  {
    hide Sort;
    var s := SortFacts(entries);
    RunsFlat(s, threshold);
    RunsAreRuns(s, threshold);
  }

  /** A negative threshold joins nothing, so no cluster is reported. */
  lemma {:induction false} NegativeThresholdReportsNothing(entries: seq<Entry>, threshold: int)
    requires threshold < 0
    ensures Kept(Groups(entries, threshold)) == []
  {
    var s := SortFacts(entries);
    SingletonRuns(s, threshold);
    NothingKept(Runs(s, threshold));
  }

  lemma {:induction false} SingletonRuns(s: seq<Entry>, threshold: int)
    requires threshold < 0 && TimeSorted(s)
    ensures forall r :: 0 <= r < |Runs(s, threshold)| ==> |Runs(s, threshold)[r]| == 1
    decreases |s|
  {
    if |s| > 1 {
      SingletonRuns(s[..|s| - 1], threshold);
    }
  }

  lemma {:induction false} NothingKept(gs: seq<seq<Entry>>)
    requires forall r :: 0 <= r < |gs| ==> |gs[r]| == 1
    ensures Kept(gs) == []
    decreases |gs|
  {
    if gs != [] {
      NothingKept(gs[..|gs| - 1]);
    }
  }

  // ---------- What is reported ----------

  /** A group of two entries or more, reported with its bounds and ids. */
  predicate ReportOf(g: seq<Entry>, c: Cluster) {
    |g| >= 2 && c == Cluster(g[0].time, g[|g| - 1].time, Ids(g))
  }

  /** Exactly the groups of two entries or more are reported, in order, with their bounds and ids. */
  lemma {:induction false} KeptReports(gs: seq<seq<Entry>>, c: Cluster)
    ensures c in Kept(gs) <==>
      exists i :: 0 <= i < |gs| && ReportOf(gs[i], c)
    decreases |gs|
  {
    hide ReportOf;
    if gs != [] {
      var n := |gs| - 1;
      KeptReports(gs[..n], c);
      FlushedReports(gs[n], c);
      assert forall i :: 0 <= i < n ==> gs[..n][i] == gs[i];
      assert Kept(gs) == Kept(gs[..n]) + Flushed(gs[n]);
    }
  }

  lemma FlushedReports(g: seq<Entry>, c: Cluster)
    ensures c in Flushed(g) <==> ReportOf(g, c)
  {}

  // ---------- Raising the threshold ----------

  ghost predicate Within(g: seq<Entry>, h: seq<Entry>) {
    forall e :: e in g ==> e in h
  }

  lemma {:induction false} FlatHas(gs: seq<seq<Entry>>, e: Entry)
    ensures e in Flat(gs) <==> exists i :: 0 <= i < |gs| && e in gs[i]
    decreases |gs|
  {
    if gs != [] {
      var n := |gs| - 1;
      FlatHas(gs[..n], e);
      assert forall i :: 0 <= i < n ==> gs[..n][i] == gs[i];
    }
  }

  lemma GroupOf(gs: seq<seq<Entry>>, entries: seq<Entry>, threshold: int, e: Entry) returns (i: nat)
    requires AreComponents(gs, entries, threshold) && e in entries
    ensures i < |gs| && e in gs[i]
  {
    SameElements(Flat(gs), entries, e);
    FlatHas(gs, e);
    i :| 0 <= i < |gs| && e in gs[i];
  }

  /** Whatever the components at the larger threshold are, each component at the smaller one lies inside one of them. */
  lemma LargerThresholdCoarsens(entries: seq<Entry>, t1: int, t2: int, gs: seq<seq<Entry>>, hs: seq<seq<Entry>>, i: nat)
    requires 0 <= t1 <= t2 && AreComponents(gs, entries, t1) && AreComponents(hs, entries, t2) && i < |gs|
    ensures exists j :: 0 <= j < |hs| && Within(gs[i], hs[j])
  {
    FlatHas(gs, gs[i][0]);
    SameElements(Flat(gs), entries, gs[i][0]);
    var j := GroupOf(hs, entries, t2, gs[i][0]);
    forall e | e in gs[i] ensures e in hs[j] {
      FlatHas(gs, e);
      SameElements(Flat(gs), entries, e);
      assert Connected(entries, t1, gs[i][0], e) && Connected(entries, t1, e, gs[i][0]);
      ConnectedGrows(entries, t1, t2, gs[i][0], e);
      ConnectedGrows(entries, t1, t2, e, gs[i][0]);
      var k := GroupOf(hs, entries, t2, e);
    }
    assert Within(gs[i], hs[j]);
  }

  lemma ConnectedGrows(entries: seq<Entry>, t1: int, t2: int, a: Entry, b: Entry)
    requires t1 <= t2 && Connected(entries, t1, a, b)
    ensures Connected(entries, t2, a, b)
  {
    var p :| p != [] && p[0] == a && p[|p| - 1] == b && Path(p, entries, t1);
    assert Path(p, entries, t2) by {
      forall i | 0 < i < |p| ensures Close(p[i - 1], p[i], t2) { assert Close(p[i - 1], p[i], t1); }
    }
  }

  // ---------- Input order ----------

  /** An entry in group `i` is in no other group, so the group holds all its copies. */
  lemma {:induction false} AllCopiesTogether(gs: seq<seq<Entry>>, i: nat, e: Entry)
    requires i < |gs| && e in gs[i]
    requires forall j :: 0 <= j < |gs| && j != i ==> e !in gs[j]
    ensures multiset(Flat(gs))[e] == multiset(gs[i])[e]
    decreases |gs|
  {
    var n := |gs| - 1;
    assert forall j :: 0 <= j < n ==> gs[..n][j] == gs[j];
    if i == n {
      FlatHas(gs[..n], e);
      assert e !in multiset(Flat(gs[..n]));
    } else {
      AllCopiesTogether(gs[..n], i, e);
      assert e !in multiset(gs[n]);
    }
  }

  /** Components are determined by the entries: any two lists of them agree, up to the order inside a group. */
  lemma {:induction false} ComponentsAreUnique(gs: seq<seq<Entry>>, hs: seq<seq<Entry>>, entries: seq<Entry>,
                                               threshold: int, i: nat)
    requires 0 <= threshold && AreComponents(gs, entries, threshold) && AreComponents(hs, entries, threshold)
    requires i < |gs|
    ensures i < |hs| && multiset(gs[i]) == multiset(hs[i])
    decreases i
  {
    hide Connected;
    forall k: nat | k < i ensures k < |hs| && Within(gs[k], hs[k]) && Within(hs[k], gs[k]) {
      ComponentsAreUnique(gs, hs, entries, threshold, k);
      forall e ensures e in gs[k] <==> e in hs[k] { SameElements(gs[k], hs[k], e); }
    }
    FirstUnmatched(gs, hs, entries, threshold, i);
    forall e | e in gs[i] || e in hs[i] ensures e in gs[i] && e in hs[i] {
      if e in gs[i] { SameGroup(gs, hs, entries, threshold, i, i, gs[i][0], e); }
      if e in hs[i] { SameGroup(hs, gs, entries, threshold, i, i, gs[i][0], e); }
    }
    forall e ensures multiset(gs[i])[e] == multiset(hs[i])[e] {
      if e in gs[i] {
        AllCopiesTogether(gs, i, e);
        AllCopiesTogether(hs, i, e);
      } else {
        assert e !in multiset(gs[i]) && e !in multiset(hs[i]);
      }
    }
  }

  /** Two entries that share a group of `gs` share a group of `hs`. */
  lemma SameGroup(gs: seq<seq<Entry>>, hs: seq<seq<Entry>>, entries: seq<Entry>, threshold: int, i: nat, j: nat,
                  a: Entry, b: Entry)
    requires AreComponents(gs, entries, threshold) && AreComponents(hs, entries, threshold)
    requires i < |gs| && a in gs[i] && b in gs[i] && j < |hs| && a in hs[j]
    ensures b in hs[j]
  {
    hide Connected;
    FlatHas(gs, b);
    SameElements(Flat(gs), entries, b);
    var k := GroupOf(hs, entries, threshold, b);
    assert Connected(entries, threshold, a, b) && Connected(entries, threshold, b, a);
  }

  lemma EntryOfGroup(gs: seq<seq<Entry>>, entries: seq<Entry>, threshold: int, i: nat, e: Entry)
    requires AreComponents(gs, entries, threshold) && i < |gs| && e in gs[i]
    ensures e in entries
  {
    FlatHas(gs, e);
    SameElements(Flat(gs), entries, e);
  }

  lemma FirstUnmatched(gs: seq<seq<Entry>>, hs: seq<seq<Entry>>, entries: seq<Entry>, threshold: int, i: nat)
    requires 0 <= threshold && AreComponents(gs, entries, threshold) && AreComponents(hs, entries, threshold)
    requires i < |gs|
    requires forall k: nat :: k < i ==> k < |hs| && Within(gs[k], hs[k]) && Within(hs[k], gs[k])
    ensures i < |hs| && gs[i][0] in hs[i]
  {
    hide AreComponents;
    assert gs[i] != [] && (forall k :: 0 <= k < |hs| ==> hs[k] != []) by {
      NonEmptyGroups(gs, entries, threshold);
      NonEmptyGroups(hs, entries, threshold);
    }
    var a := gs[i][0];
    EntryOfGroup(gs, entries, threshold, i, a);
    var j := GroupOf(hs, entries, threshold, a);
    OneGroupEach(gs, entries, threshold, i, a);
    if j > i {
      var b := hs[i][0];
      EntryOfGroup(hs, entries, threshold, i, b);
      var k := GroupOf(gs, entries, threshold, b);
      OneGroupEach(hs, entries, threshold, i, b);
      InTimeOrder(hs, entries, threshold, i, j, b, a);
      if k == i {
        SameGroup(gs, hs, entries, threshold, i, j, a, b);
      } else {
        InTimeOrder(gs, entries, threshold, i, k, a, b);
      }
    }
  }

  lemma NonEmptyGroups(gs: seq<seq<Entry>>, entries: seq<Entry>, threshold: int)
    requires AreComponents(gs, entries, threshold)
    ensures forall i :: 0 <= i < |gs| ==> gs[i] != []
  {}

  lemma InTimeOrder(gs: seq<seq<Entry>>, entries: seq<Entry>, threshold: int, i: nat, j: nat, a: Entry, b: Entry)
    requires AreComponents(gs, entries, threshold) && i < j < |gs| && a in gs[i] && b in gs[j]
    ensures b.time - a.time > threshold
  {}

  lemma OneGroupEach(gs: seq<seq<Entry>>, entries: seq<Entry>, threshold: int, i: nat, e: Entry)
    requires 0 <= threshold && AreComponents(gs, entries, threshold) && i < |gs| && e in gs[i]
    ensures forall j :: 0 <= j < |gs| && e in gs[j] ==> j == i
  {
    forall j: nat | j < |gs| && e in gs[j] ensures j == i {
      if i < j { InTimeOrder(gs, entries, threshold, i, j, e, e); }
      if j < i { InTimeOrder(gs, entries, threshold, j, i, e, e); }
    }
  }

  lemma ComponentsOfPermutation(gs: seq<seq<Entry>>, e1: seq<Entry>, e2: seq<Entry>, threshold: int)
    requires multiset(e1) == multiset(e2) && AreComponents(gs, e1, threshold)
    ensures AreComponents(gs, e2, threshold)
  {
    forall e ensures e in e1 <==> e in e2 { SameElements(e1, e2, e); }
    forall a, b ensures Connected(e1, threshold, a, b) <==> Connected(e2, threshold, a, b) {
      ConnectedSameElements(e1, e2, threshold, a, b);
    }
  }

  /** The same entries in another order give the same groups, up to the order of entries inside a group. */
  lemma SameGroups(e1: seq<Entry>, e2: seq<Entry>, threshold: int)
    requires 0 <= threshold && multiset(e1) == multiset(e2)
    ensures |Groups(e1, threshold)| == |Groups(e2, threshold)|
    ensures forall i :: 0 <= i < |Groups(e1, threshold)| ==>
      multiset(Groups(e1, threshold)[i]) == multiset(Groups(e2, threshold)[i])
  {
    hide Groups, AreComponents;
    var gs, hs := Groups(e1, threshold), Groups(e2, threshold);
    GroupsAreComponents(e1, threshold);
    GroupsAreComponents(e2, threshold);
    ComponentsOfPermutation(hs, e2, e1, threshold);
    forall i: nat | i < |gs| ensures i < |hs| && multiset(gs[i]) == multiset(hs[i]) {
      ComponentsAreUnique(gs, hs, e1, threshold, i);
    }
    if |gs| > |hs| {
      ComponentsAreUnique(gs, hs, e1, threshold, |hs|);
    }
    if |hs| > |gs| {
      ComponentsAreUnique(hs, gs, e1, threshold, |gs|);
    }
  }

  /** The same bounds, and the same ids up to their order. */
  ghost predicate SameCluster(c: Cluster, d: Cluster) {
    c.start == d.start && c.end == d.end && multiset(c.ids) == multiset(d.ids)
  }

  ghost predicate SameClusters(cs: seq<Cluster>, ds: seq<Cluster>) {
    |cs| == |ds| && forall i :: 0 <= i < |cs| ==> SameCluster(cs[i], ds[i])
  }

  lemma TakenOut<T>(h: seq<T>, j: nat)
    requires j < |h|
    ensures multiset(h) == multiset(h[..j] + h[j + 1..]) + multiset{h[j]}
  {
    assert h == h[..j] + [h[j]] + h[j + 1..];
  }

  lemma IdsTakenOut(h: seq<Entry>, j: nat)
    requires j < |h|
    ensures multiset(Ids(h)) == multiset(Ids(h[..j] + h[j + 1..])) + multiset{h[j].id}
  {
    TakenOut(Ids(h), j);
    assert Ids(h)[..j] + Ids(h)[j + 1..] == Ids(h[..j] + h[j + 1..]);
  }

  lemma {:induction false} IdsPermute(g: seq<Entry>, h: seq<Entry>)
    requires multiset(g) == multiset(h)
    ensures multiset(Ids(g)) == multiset(Ids(h))
    decreases |g|
  {
    hide Ids;
    if g == [] {
      assert |multiset(h)| == |h|;
    } else {
      assert g[0] in multiset(g) && g[0] in h;
      var j :| 0 <= j < |h| && h[j] == g[0];
      RestsAgree(g, h, j);
      IdsPermute(g[1..], h[..j] + h[j + 1..]);
      IdsTakenOut(g, 0);
      IdsTakenOut(h, j);
      assert g[..0] + g[1..] == g[1..];
    }
  }

  lemma RestsAgree<T(!new)>(g: seq<T>, h: seq<T>, j: nat)
    requires g != [] && j < |h| && h[j] == g[0] && multiset(g) == multiset(h)
    ensures multiset(g[1..]) == multiset(h[..j] + h[j + 1..])
  {
    TakenOut(h, j);
    assert g == [g[0]] + g[1..];
    assert multiset(g) == multiset(g[1..]) + multiset{g[0]};
    Cancel(multiset(g[1..]), multiset(h[..j] + h[j + 1..]), g[0]);
  }

  lemma Cancel<T(!new)>(a: multiset<T>, b: multiset<T>, x: T)
    requires a + multiset{x} == b + multiset{x}
    ensures a == b
  {
    forall y ensures a[y] == b[y] {
      assert (a + multiset{x})[y] == (b + multiset{x})[y];
    }
  }

  lemma SameBounds(g: seq<Entry>, h: seq<Entry>)
    requires g != [] && TimeSorted(g) && TimeSorted(h) && multiset(g) == multiset(h)
    ensures |g| == |h| && g[0].time == h[0].time && g[|g| - 1].time == h[|h| - 1].time
  {
    assert |g| == |multiset(g)| == |multiset(h)| == |h|;
    var n := |g| - 1;
    assert g[0] in g && g[n] in g && h[0] in h && h[n] in h;
    SameElements(g, h, g[0]);
    SameElements(g, h, g[n]);
    SameElements(g, h, h[0]);
    SameElements(g, h, h[n]);
  }

  lemma SameFlushed(g: seq<Entry>, h: seq<Entry>)
    requires g != [] && TimeSorted(g) && TimeSorted(h) && multiset(g) == multiset(h)
    ensures SameClusters(Flushed(g), Flushed(h))
  {
    SameBounds(g, h);
    IdsPermute(g, h);
  }

  lemma {:induction false} SameKept(gs: seq<seq<Entry>>, hs: seq<seq<Entry>>)
    requires |gs| == |hs|
    requires forall i :: 0 <= i < |gs| ==>
      gs[i] != [] && TimeSorted(gs[i]) && TimeSorted(hs[i]) && multiset(gs[i]) == multiset(hs[i])
    ensures SameClusters(Kept(gs), Kept(hs))
    decreases |gs|
  {
    hide SameCluster, Flushed, TimeSorted;
    if gs != [] {
      var n := |gs| - 1;
      SameKept(gs[..n], hs[..n]);
      SameFlushed(gs[n], hs[n]);
    }
  }

  /** Whatever order the entries come in, the same clusters are reported: as many, with the same bounds, in the same order,
      and with the same ids up to their order inside a cluster. */
  lemma InputOrderIrrelevant(e1: seq<Entry>, e2: seq<Entry>, threshold: int)
    requires multiset(e1) == multiset(e2)
    ensures SameClusters(Kept(Groups(e1, threshold)), Kept(Groups(e2, threshold)))
  {
    hide Groups, Kept, Sorted;
    if threshold < 0 {
      NegativeThresholdReportsNothing(e1, threshold);
      NegativeThresholdReportsNothing(e2, threshold);
    } else {
      SameGroups(e1, e2, threshold);
      GroupsInTime(e1, threshold);
      GroupsInTime(e2, threshold);
      SameKept(Groups(e1, threshold), Groups(e2, threshold));
    }
  }

  lemma GroupsInTime(entries: seq<Entry>, threshold: int)
    ensures forall i :: 0 <= i < |Groups(entries, threshold)| ==>
      Groups(entries, threshold)[i] != [] && TimeSorted(Groups(entries, threshold)[i])
  {
    hide Groups, Flat;
    GroupsShareEntries(entries, threshold);
    forall i | 0 <= i < |Groups(entries, threshold)| ensures TimeSorted(Groups(entries, threshold)[i]) {
      assert Sorted(TimeOrder(), Groups(entries, threshold)[i]);
      SortedInTime(Groups(entries, threshold)[i]);
    }
  }

  lemma SortedInTime(g: seq<Entry>)
    requires Sorted(TimeOrder(), g)
    ensures TimeSorted(g)
  {
    assert forall i, j :: 0 <= i < j < |g| ==> TimeOrder()(g[i], g[j]);
  }

  // ---------- Ties ----------

  /** The entries of one moment, as they stand in the list. */
  ghost function AtTime(entries: seq<Entry>, t: int): seq<Entry> {
    if entries == [] then []
    else (if entries[0].time == t then [entries[0]] else []) + AtTime(entries[1..], t)
  }

  lemma {:induction false} AtTimeIsClass(e: Entry, s: seq<Entry>)
    ensures AtTime(s, e.time) == Class(TimeOrder(), e, s)
  {
    if s != [] { AtTimeIsClass(e, s[1..]); }
  }

  /** Entries of the same moment stand in their group in the order in which they came in. */
  lemma TiesKeepTheirOrder(entries: seq<Entry>, threshold: int, t: int)
    ensures AtTime(Flat(Groups(entries, threshold)), t) == AtTime(entries, t)
  {
    hide Sort;
    var e := Entry(0, t);
    RunsFlat(Sort(TimeOrder(), entries), threshold);
    AtTimeIsClass(e, entries);
    AtTimeIsClass(e, Sort(TimeOrder(), entries));
    SortIsStable(TimeOrder(), e, entries);
  }
}
