/**
 Greedy clustering of map markers: a point joins the first group whose centroid, at that moment, is within the radius
 of the zoom level, and otherwise founds a group. Coordinates are real numbers, and the distance is any function.
 */
module GeoClusters {
  import opened Wrappers

  datatype GeoPoint = GeoPoint(latitude: real, longitude: real)

  datatype Marker = Marker(id: int, point: GeoPoint)

  datatype Cluster = Cluster(latitude: real, longitude: real, ids: seq<int>)

  /** Great-circle kilometres. */
  type Distance = (GeoPoint, GeoPoint) -> real

  const MAX_ZOOM := 11

  /** The radius in kilometres for a zoom level; beyond the last level nothing is clustered. */
  function ClusterRadiusKm(zoom: int): real {
    if zoom > MAX_ZOOM then 0.0
    else if zoom <= 0 then 5000.0
    else match zoom
         case 1 => 2500.0
         case 2 => 1000.0
         case 3 => 500.0
         case 4 => 250.0
         case 5 => 100.0
         case 6 => 50.0
         case 7 => 25.0
         case 8 => 10.0
         case 9 => 5.0
         case 10 => 2.0
         case _ => 1.0
  }

  /** The closer the zoom, the smaller the radius. */
  lemma RadiusShrinks(a: int, b: int)
    requires a <= b
    ensures ClusterRadiusKm(b) <= ClusterRadiusKm(a)
    ensures 0 <= a < b <= MAX_ZOOM + 1 ==> ClusterRadiusKm(b) < ClusterRadiusKm(a)
    ensures ClusterRadiusKm(b) > 0.0 <==> b <= MAX_ZOOM
  {}

  // ---------- Centroids ----------

  function Sum(xs: seq<real>): real {
    if xs == [] then 0.0 else Sum(xs[..|xs| - 1]) + xs[|xs| - 1]
  }

  function Latitudes(g: seq<Marker>): seq<real> {
    seq(|g|, i requires 0 <= i < |g| => g[i].point.latitude)
  }

  function Longitudes(g: seq<Marker>): seq<real> {
    seq(|g|, i requires 0 <= i < |g| => g[i].point.longitude)
  }

  function Mean(xs: seq<real>): real
    requires xs != []
  {
    Sum(xs) / |xs| as real
  }

  function Centroid(g: seq<Marker>): GeoPoint
    requires g != []
  {
    GeoPoint(Mean(Latitudes(g)), Mean(Longitudes(g)))
  }

  lemma {:induction false} SumWithin(xs: seq<real>, lo: real, hi: real)
    requires forall i :: 0 <= i < |xs| ==> lo <= xs[i] <= hi
    ensures lo * |xs| as real <= Sum(xs) <= hi * |xs| as real
    decreases |xs|
  {
    if xs != [] {
      var n := |xs| - 1;
      SumWithin(xs[..n], lo, hi);
      assert |xs| as real == n as real + 1.0;
      OneMore(lo, n as real);
      OneMore(hi, n as real);
    }
  }

  lemma OneMore(x: real, n: real)
    ensures x * (n + 1.0) == x * n + x
  {}

  lemma DivideBounds(lo: real, sum: real, hi: real, n: real)
    requires n > 0.0 && lo * n <= sum <= hi * n
    ensures lo <= sum / n <= hi
  {
    assert (sum / n) * n == sum;
    if sum / n < lo { MultiplyLess(sum / n, lo, n); }
    if hi < sum / n { MultiplyLess(hi, sum / n, n); }
  }

  lemma MultiplyLess(a: real, b: real, n: real)
    requires a < b && n > 0.0
    ensures a * n < b * n
  {}

  lemma MeanWithin(xs: seq<real>, lo: real, hi: real)
    requires xs != [] && forall i :: 0 <= i < |xs| ==> lo <= xs[i] <= hi
    ensures lo <= Mean(xs) <= hi
  {
    hide Sum;
    SumWithin(xs, lo, hi);
    DivideBounds(lo, Sum(xs), hi, |xs| as real);
  }

  /** A centroid stays inside every box that holds the members of its group. */
  lemma CentroidInBox(g: seq<Marker>, south: real, north: real, west: real, east: real)
    requires g != []
    requires forall i :: 0 <= i < |g| ==> south <= g[i].point.latitude <= north && west <= g[i].point.longitude <= east
    ensures south <= Centroid(g).latitude <= north && west <= Centroid(g).longitude <= east
  {
    hide Mean;
    MeanWithin(Latitudes(g), south, north);
    MeanWithin(Longitudes(g), west, east);
  }

  function Residuals(xs: seq<real>, c: real): seq<real> {
    seq(|xs|, i requires 0 <= i < |xs| => xs[i] - c)
  }

  lemma {:induction false} SumOfResiduals(xs: seq<real>, c: real)
    ensures Sum(Residuals(xs, c)) == Sum(xs) - c * |xs| as real
    decreases |xs|
  {
    if xs != [] {
      var n := |xs| - 1;
      SumOfResiduals(xs[..n], c);
      assert Residuals(xs, c)[..n] == Residuals(xs[..n], c);
      assert |xs| as real == n as real + 1.0;
      OneMore(c, n as real);
    }
  }

  /** The centroid is the point around which latitudes and longitudes balance. */
  lemma CentroidBalances(g: seq<Marker>)
    requires g != []
    ensures Sum(Residuals(Latitudes(g), Centroid(g).latitude)) == 0.0
    ensures Sum(Residuals(Longitudes(g), Centroid(g).longitude)) == 0.0
  {
    hide Sum;
    SumOfResiduals(Latitudes(g), Centroid(g).latitude);
    SumOfResiduals(Longitudes(g), Centroid(g).longitude);
    TimesDivided(Sum(Latitudes(g)), |g| as real);
    TimesDivided(Sum(Longitudes(g)), |g| as real);
  }

  lemma TimesDivided(x: real, n: real)
    requires n > 0.0
    ensures (x / n) * n == x
  {}

  // ---------- Greedy placement ----------

  type Groups = seq<seq<Marker>>

  ghost predicate Near(g: seq<Marker>, p: Marker, distance: Distance, radius: real) {
    g != [] && distance(Centroid(g), p.point) <= radius
  }

  /** `after` is `before` with `p` placed: in the first near group, or in a group of its own when none is near. */
  ghost predicate Placed(before: Groups, p: Marker, after: Groups, distance: Distance, radius: real) {
    if exists k :: FirstNear(before, p, distance, radius, k) then
      exists k :: FirstNear(before, p, distance, radius, k) && after == before[k := before[k] + [p]]
    else after == before + [[p]]
  }

  ghost predicate FirstNear(groups: Groups, p: Marker, distance: Distance, radius: real, k: int) {
    && 0 <= k < |groups| && radius > 0.0 && Near(groups[k], p, distance, radius)
    && forall j :: 0 <= j < k ==> !Near(groups[j], p, distance, radius)
  }

  /** `trace` is the run of the placement: after i points, the groups are `trace[i]`. */
  ghost predicate Greedy(points: seq<Marker>, trace: seq<Groups>, distance: Distance, radius: real) {
    && |trace| == |points| + 1 && trace[0] == []
    && forall i :: 0 <= i < |points| ==> Placed(trace[i], points[i], trace[i + 1], distance, radius)
  }

  /** The group that holds the marker, by the position of the marker in the input. */
  ghost predicate GroupsOf(points: seq<Marker>, homes: seq<nat>, groups: Groups) {
    && |homes| == |points|
    && (forall i :: 0 <= i < |homes| ==> homes[i] < |groups|)
    && (forall k :: 0 <= k < |groups| ==> groups[k] != [] && groups[k] == Members(points, homes, k))
  }

  /** The points whose home is `k`, in input order. */
  ghost function Members(points: seq<Marker>, homes: seq<nat>, k: nat): seq<Marker>
    requires |homes| == |points|
  {
    if points == [] then []
    else
      var n := |points| - 1;
      Members(points[..n], homes[..n], k) + (if homes[n] == k then [points[n]] else [])
  }

  function ToCluster(g: seq<Marker>): Cluster
    requires g != []
  {
    Cluster(Centroid(g).latitude, Centroid(g).longitude, seq(|g|, i requires 0 <= i < |g| => g[i].id))
  }

  ghost predicate Reports(groups: Groups, clusters: seq<Cluster>) {
    && |clusters| == |groups|
    && forall k :: 0 <= k < |groups| ==> groups[k] != [] && clusters[k] == ToCluster(groups[k])
  }

  lemma MembersAppend(points: seq<Marker>, homes: seq<nat>, p: Marker, h: nat, k: nat)
    requires |homes| == |points|
    ensures Members(points + [p], homes + [h], k) == Members(points, homes, k) + (if h == k then [p] else [])
  {
    assert (points + [p])[..|points|] == points && (homes + [h])[..|homes|] == homes;
  }

  /** Nobody has a home in a group that does not exist yet. */
  lemma {:induction false} NoMembers(points: seq<Marker>, homes: seq<nat>, k: nat)
    requires |homes| == |points| && forall i :: 0 <= i < |homes| ==> homes[i] != k
    ensures Members(points, homes, k) == []
    decreases |points|
  {
    if points != [] { NoMembers(points[..|points| - 1], homes[..|points| - 1], k); }
  }

  /** Placing one more point keeps every point in exactly one group, in input order within it. */
  lemma PlacedKeepsGroups(points: seq<Marker>, homes: seq<nat>, before: Groups, p: Marker, h: nat, after: Groups)
    requires GroupsOf(points, homes, before)
    requires (h < |before| && after == before[h := before[h] + [p]]) || (h == |before| && after == before + [[p]])
    ensures GroupsOf(points + [p], homes + [h], after)
  {
    forall k | 0 <= k < |after| ensures after[k] != [] && after[k] == Members(points + [p], homes + [h], k) {
      MembersAppend(points, homes, p, h, k);
      if k == |before| { NoMembers(points, homes, k); }
    }
  }

  // ---------- The function ----------

  method ClusterPoints(points: seq<Marker>, zoom: int, distance: Distance)
    returns (result: seq<Cluster>, ghost trace: seq<Groups>, ghost homes: seq<nat>)
    ensures Greedy(points, trace, distance, ClusterRadiusKm(zoom))
    ensures GroupsOf(points, homes, trace[|points|]) && Reports(trace[|points|], result)
    ensures zoom > MAX_ZOOM ==> result == seq(|points|, i requires 0 <= i < |points| => ToCluster([points[i]]))
  {
    hide Greedy, GroupsOf, Placed, FirstNear, Near;
    var radius := ClusterRadiusKm(zoom);
    var clusters: Groups := [];
    trace := [[]];
    homes := [];
    NothingPlaced(distance, radius);
    assert points[..0] == [];
    for i := 0 to |points|
      invariant Greedy(points[..i], trace, distance, radius) && |trace| == i + 1 && trace[i] == clusters
      invariant GroupsOf(points[..i], homes, clusters)
      invariant zoom > MAX_ZOOM ==> clusters == seq(i, k requires 0 <= k < i => [points[k]])
    {
      var p := points[i];
      ghost var before := clusters;
      GroupsNonEmpty(points[..i], homes, clusters);
      var home := FindHome(clusters, p, distance, radius);
      if home < |clusters| {
        clusters := clusters[home := clusters[home] + [p]];
      } else {
        clusters := clusters + [[p]];
      }
      assert points[..i + 1] == points[..i] + [p];
      PlacedKeepsGroups(points[..i], homes, before, p, home, clusters);
      GreedyStep(points[..i], trace, p, clusters, distance, radius);
      trace := trace + [clusters];
      homes := homes + [home];
    }
    assert points[..|points|] == points;
    GroupsNonEmpty(points, homes, clusters);
    result := Report(clusters);
  }

  lemma NothingPlaced(distance: Distance, radius: real)
    ensures Greedy([], [[]], distance, radius) && GroupsOf([], [], [])
  {}

  lemma GroupsNonEmpty(points: seq<Marker>, homes: seq<nat>, groups: Groups)
    requires GroupsOf(points, homes, groups)
    ensures forall k :: 0 <= k < |groups| ==> groups[k] != []
  {}

  method Report(clusters: Groups) returns (result: seq<Cluster>)
    requires forall k :: 0 <= k < |clusters| ==> clusters[k] != []
    ensures Reports(clusters, result)
  {
    result := [];
    for k := 0 to |clusters|
      invariant |result| == k && forall j :: 0 <= j < k ==> result[j] == ToCluster(clusters[j])
    {
      result := result + [ToCluster(clusters[k])];
    }
  }

  lemma GreedyStep(points: seq<Marker>, trace: seq<Groups>, p: Marker, after: Groups, distance: Distance, radius: real)
    requires Greedy(points, trace, distance, radius) && |trace| == |points| + 1
    requires Placed(trace[|points|], p, after, distance, radius)
    ensures Greedy(points + [p], trace + [after], distance, radius)
  {}

  /** The inner loop: the index of the first group that is near, or the number of groups. */
  method FindHome(clusters: Groups, p: Marker, distance: Distance, radius: real) returns (home: nat)
    requires forall k :: 0 <= k < |clusters| ==> clusters[k] != []
    ensures home <= |clusters|
    ensures home < |clusters| ==> FirstNear(clusters, p, distance, radius, home) && radius > 0.0
    ensures home < |clusters| ==> Placed(clusters, p, clusters[home := clusters[home] + [p]], distance, radius)
    ensures home == |clusters| ==> Placed(clusters, p, clusters + [[p]], distance, radius)
  {
    home := 0;
    if radius <= 0.0 {
      return |clusters|;
    }
    while home < |clusters|
      invariant home <= |clusters|
      invariant forall j :: 0 <= j < home ==> !Near(clusters[j], p, distance, radius)
    {
      var centroid := Centroid(clusters[home]);
      if distance(centroid, p.point) <= radius {
        assert FirstNear(clusters, p, distance, radius, home);
        return;
      }
      home := home + 1;
    }
  }

  // ---------- What the groups are ----------

  lemma FirstNearIsUnique(groups: Groups, p: Marker, distance: Distance, radius: real, k: int, j: int)
    requires FirstNear(groups, p, distance, radius, k) && FirstNear(groups, p, distance, radius, j)
    ensures k == j
  {}

  /** The placement leaves no choice: two runs over the same points are the same. */
  lemma {:induction false} GreedyIsDetermined(points: seq<Marker>, t1: seq<Groups>, t2: seq<Groups>, distance: Distance,
                                              radius: real, i: nat)
    requires Greedy(points, t1, distance, radius) && Greedy(points, t2, distance, radius) && i <= |points|
    ensures t1[i] == t2[i]
    decreases i
  {
    if i > 0 {
      GreedyIsDetermined(points, t1, t2, distance, radius, i - 1);
      var before, p := t1[i - 1], points[i - 1];
      assert Placed(before, p, t1[i], distance, radius) && Placed(before, p, t2[i], distance, radius);
      if k :| FirstNear(before, p, distance, radius, k) {
        forall j | FirstNear(before, p, distance, radius, j) ensures j == k {
          FirstNearIsUnique(before, p, distance, radius, k, j);
        }
      }
    }
  }

  ghost function CountIds(clusters: seq<Cluster>): multiset<int> {
    if clusters == [] then multiset{} else CountIds(clusters[..|clusters| - 1]) + multiset(clusters[|clusters| - 1].ids)
  }

  ghost function Ids(points: seq<Marker>): seq<int> {
    seq(|points|, i requires 0 <= i < |points| => points[i].id)
  }

  /** Every point id is reported exactly as often as it was given. */
  lemma {:induction false} IdsConserved(points: seq<Marker>, homes: seq<nat>, groups: Groups, clusters: seq<Cluster>)
    requires GroupsOf(points, homes, groups) && Reports(groups, clusters)
    ensures CountIds(clusters) == multiset(Ids(points))
  {
    forall x: int ensures CountIds(clusters)[x] == multiset(Ids(points))[x] {
      CountsAgree(points, homes, groups, clusters, |clusters|, x);
      assert clusters[..|clusters|] == clusters;
      AllCounted(points, homes, |clusters|, x);
    }
  }

  /** How many of the points have id `x` and a home below `m`. */
  ghost function CountBelow(points: seq<Marker>, homes: seq<nat>, m: nat, x: int): nat
    requires |homes| == |points|
  {
    if points == [] then 0
    else
      var n := |points| - 1;
      CountBelow(points[..n], homes[..n], m, x) + (if homes[n] < m && points[n].id == x then 1 else 0)
  }

  lemma {:induction false} AllCounted(points: seq<Marker>, homes: seq<nat>, m: nat, x: int)
    requires |homes| == |points| && forall i :: 0 <= i < |homes| ==> homes[i] < m
    ensures CountBelow(points, homes, m, x) == multiset(Ids(points))[x]
    decreases |points|
  {
    if points != [] {
      var n := |points| - 1;
      AllCounted(points[..n], homes[..n], m, x);
      assert Ids(points) == Ids(points[..n]) + [points[n].id];
    }
  }

  lemma {:induction false} OneGroupMore(points: seq<Marker>, homes: seq<nat>, m: nat, x: int)
    requires |homes| == |points|
    ensures CountBelow(points, homes, m + 1, x) == CountBelow(points, homes, m, x) + multiset(Ids(Members(points, homes, m)))[x]
    decreases |points|
  {
    if points != [] {
      var n := |points| - 1;
      OneGroupMore(points[..n], homes[..n], m, x);
      var before := Members(points[..n], homes[..n], m);
      if homes[n] == m {
        assert Ids(before + [points[n]]) == Ids(before) + [points[n].id];
      } else {
        assert before + [] == before;
      }
    }
  }

  lemma {:induction false} NobodyBelowZero(points: seq<Marker>, homes: seq<nat>, x: int)
    requires |homes| == |points|
    ensures CountBelow(points, homes, 0, x) == 0
    decreases |points|
  {
    if points != [] { NobodyBelowZero(points[..|points| - 1], homes[..|points| - 1], x); }
  }

  lemma {:induction false} CountsAgree(points: seq<Marker>, homes: seq<nat>, groups: Groups, clusters: seq<Cluster>,
                                       m: nat, x: int)
    requires GroupsOf(points, homes, groups) && Reports(groups, clusters) && m <= |clusters|
    ensures CountIds(clusters[..m])[x] == CountBelow(points, homes, m, x)
    decreases m
  {
    if m == 0 {
      NobodyBelowZero(points, homes, x);
    } else {
      CountsAgree(points, homes, groups, clusters, m - 1, x);
      OneGroupMore(points, homes, m - 1, x);
      assert clusters[..m][..m - 1] == clusters[..m - 1];
      assert clusters[m - 1].ids == Ids(groups[m - 1]);
    }
  }
}
