/** Representative sampling of `AnomalyDetector_FI`: `make_cluster` keeps a
    matrix with fewer than k rows as it is, and otherwise clusters it and
    keeps, for each cluster that has members, the member nearest the
    cluster's centroid (`get_nearest_points`). The clustering itself comes
    from MiniBatchKMeans and enters as a value. */
module Sampling {
  import opened Common
  import opened Selection

  /** What MiniBatchKMeans reports for a matrix: the cluster of each row
      (`fit_predict`) and the distance of each row to every centroid
      (`transform`). */
  datatype Clustering = Clustering(labels: seq<nat>, distances: Matrix)

  /** A clustering of n rows into k clusters. */
  predicate ValidClustering(n: nat, cl: Clustering, k: nat)
  {
    && |cl.labels| == n && |cl.distances| == n
    && (forall i :: 0 <= i < n ==> cl.labels[i] < k && |cl.distances[i]| == k)
  }

  /** `np.argmin(keys)`: the first position holding the smallest key. */
  function ArgMinFirst(keys: seq<real>): (i: nat)
    requires |keys| > 0
    ensures i < |keys|
    ensures forall j :: 0 <= j < |keys| ==> keys[i] <= keys[j]
    ensures forall j :: 0 <= j < i ==> keys[j] > keys[i]
  {
    if |keys| == 1 then 0
    else
      var p := ArgMinFirst(keys[..|keys| - 1]);
      if keys[|keys| - 1] < keys[p] then |keys| - 1 else p
  }

  /** `distances[members, c]`: the distance of each member to centroid c. */
  function MemberDistances(distances: Matrix, members: seq<nat>, c: nat): (d: seq<real>)
    requires forall j :: 0 <= j < |members| ==> members[j] < |distances| && c < |distances[members[j]]|
    ensures |d| == |members|
    ensures forall j :: 0 <= j < |members| ==> d[j] == distances[members[j]][c]
  {
    seq(|members|, j requires 0 <= j < |members| => distances[members[j]][c])
  }

  /** The member of cluster c nearest its centroid: it belongs to c, no
      member is nearer, and every earlier member is strictly farther (the
      first one on ties). */
  function Nearest(cl: Clustering, k: nat, c: nat): (i: nat)
    requires ValidClustering(|cl.labels|, cl, k) && c < k && c in cl.labels
    ensures i < |cl.labels| && cl.labels[i] == c
    ensures forall m :: 0 <= m < |cl.labels| && cl.labels[m] == c ==> cl.distances[i][c] <= cl.distances[m][c]
    ensures forall m :: 0 <= m < i && cl.labels[m] == c ==> cl.distances[m][c] > cl.distances[i][c]
  {
    var members := Where(cl.labels, c);
    var d := MemberDistances(cl.distances, members, c);
    NonEmptyMembers(cl.labels, c);
    var a := ArgMinFirst(d);
    NearestAmongMembers(cl, c, members, d, a);
    members[a]
  }

  lemma NonEmptyMembers(labels: seq<nat>, c: nat)
    requires c in labels
    ensures |Where(labels, c)| > 0
  {
    var i :| 0 <= i < |labels| && labels[i] == c;
    WhereComplete(labels, c, i);
  }

  /** The position argmin picks among the members is the nearest member
      overall, and the first one: members are listed in increasing order. */
  lemma NearestAmongMembers(cl: Clustering, c: nat, members: seq<nat>, d: seq<real>, a: nat)
    requires members == Where(cl.labels, c) && |cl.distances| == |cl.labels|
    requires forall m :: 0 <= m < |cl.labels| ==> c < |cl.distances[m]|
    requires d == MemberDistances(cl.distances, members, c)
    requires a < |d|
    requires forall j :: 0 <= j < |d| ==> d[a] <= d[j]
    requires forall j :: 0 <= j < a ==> d[j] > d[a]
    ensures forall m :: 0 <= m < |cl.labels| && cl.labels[m] == c ==> cl.distances[members[a]][c] <= cl.distances[m][c]
    ensures forall m :: 0 <= m < members[a] && cl.labels[m] == c ==> cl.distances[m][c] > cl.distances[members[a]][c]
  {
    forall m | 0 <= m < |cl.labels| && cl.labels[m] == c
      ensures cl.distances[members[a]][c] <= cl.distances[m][c]
      ensures m < members[a] ==> cl.distances[m][c] > cl.distances[members[a]][c]
    {
      WhereComplete(cl.labels, c, m);
      var q :| 0 <= q < |members| && members[q] == m;
      assert d[q] == cl.distances[m][c];
      if m < members[a] {
        assert q < a;
      }
    }
  }

  /** The clusters below c that have at least one member, in increasing order. */
  function NonEmptyClusters(labels: seq<nat>, c: nat): (ids: seq<nat>)
    ensures |ids| <= c
    ensures forall j :: 0 <= j < |ids| ==> ids[j] < c && ids[j] in labels
    ensures forall j, j' :: 0 <= j < j' < |ids| ==> ids[j] < ids[j']
    ensures forall x :: 0 <= x < c && x in labels ==> x in ids
  {
    if c == 0 then []
    else NonEmptyClusters(labels, c - 1) + (if c - 1 in labels then [c - 1] else [])
  }

  /** The rows `get_nearest_points` emits for the clusters 0 .. c-1: the
      nearest member of each cluster that has members, by increasing cluster. */
  function Representatives(data: Matrix, cl: Clustering, k: nat, c: nat): (r: Matrix)
    requires ValidClustering(|data|, cl, k) && c <= k
    ensures |r| <= c
  {
    if c == 0 then []
    else
      var prev := Representatives(data, cl, k, c - 1);
      if c - 1 in cl.labels then prev + [data[Nearest(cl, k, c - 1)]] else prev
  }

  /** The j-th representative is the nearest member of the j-th cluster that
      has members. */
  lemma {:induction false} RepresentativesAt(data: Matrix, cl: Clustering, k: nat, c: nat)
    requires ValidClustering(|data|, cl, k) && c <= k
    ensures |Representatives(data, cl, k, c)| == |NonEmptyClusters(cl.labels, c)|
    ensures forall j :: 0 <= j < |Representatives(data, cl, k, c)| ==>
      Representatives(data, cl, k, c)[j] == data[Nearest(cl, k, NonEmptyClusters(cl.labels, c)[j])]
  {
    if c > 0 {
      RepresentativesAt(data, cl, k, c - 1);
    }
  }

  /** `np.column_stack((data, clusters))`: each row followed by its cluster. */
  function ColumnStack(data: Matrix, labels: seq<nat>): (s: Matrix)
    requires |labels| == |data|
    ensures |s| == |data|
    ensures forall i :: 0 <= i < |s| ==> |s[i]| == |data[i]| + 1 && s[i][..|data[i]|] == data[i]
    ensures forall i :: 0 <= i < |s| ==> s[i][|data[i]|] == labels[i] as real
  {
    seq(|data|, i requires 0 <= i < |data| => data[i] + [labels[i] as real])
  }

  /** The last entry of every row of `stacked` is the cluster of that row. */
  predicate ClusterColumn(stacked: Matrix, labels: seq<nat>)
  {
    && |stacked| == |labels|
    && forall i :: 0 <= i < |stacked| ==> |stacked[i]| > 0 && stacked[i][|stacked[i]| - 1] == labels[i] as real
  }

  /** `data[:, -1]`: the last entry of every row. */
  function LastColumn(m: Matrix): (col: seq<real>)
    requires forall i :: 0 <= i < |m| ==> |m[i]| > 0
    ensures |col| == |m|
    ensures forall i :: 0 <= i < |m| ==> col[i] == m[i][|m[i]| - 1]
  {
    seq(|m|, i requires 0 <= i < |m| => m[i][|m[i]| - 1])
  }

  /** `m[:, :-1]`: every row without its last entry. */
  function DropLastColumn(m: Matrix): (r: Matrix)
    requires forall i :: 0 <= i < |m| ==> |m[i]| > 0
    ensures |r| == |m|
    ensures forall i :: 0 <= i < |m| ==> r[i] == m[i][..|m[i]| - 1]
  {
    seq(|m|, i requires 0 <= i < |m| => m[i][..|m[i]| - 1])
  }

  /** `np.where` gives the same positions for two sequences that hold their
      values at the same places. */
  lemma {:induction false} WhereSame<T, U>(xs: seq<T>, v: T, ys: seq<U>, w: U)
    requires |xs| == |ys|
    requires forall i :: 0 <= i < |xs| ==> (xs[i] == v <==> ys[i] == w)
    ensures Where(xs, v) == Where(ys, w)
  {
    if |xs| > 0 {
      var n := |xs| - 1;
      WhereSame(xs[..n], v, ys[..n], w);
    }
  }

  /** Stacking the clusters onto the data, picking the representatives and
      dropping the cluster column again gives the representatives of the
      data themselves. */
  lemma UnstackRepresentatives(data: Matrix, cl: Clustering, k: nat)
    requires ValidClustering(|data|, cl, k)
    ensures ClusterColumn(ColumnStack(data, cl.labels), cl.labels)
    ensures var reps := Representatives(ColumnStack(data, cl.labels), cl, k, k);
      && (forall j :: 0 <= j < |reps| ==> |reps[j]| > 0)
      && DropLastColumn(reps) == Representatives(data, cl, k, k)
  {
    var stacked := ColumnStack(data, cl.labels);
    var reps := Representatives(stacked, cl, k, k);
    var want := Representatives(data, cl, k, k);
    RepresentativesAt(stacked, cl, k, k);
    RepresentativesAt(data, cl, k, k);
    forall j | 0 <= j < |reps|
      ensures |reps[j]| > 0 && reps[j][..|reps[j]| - 1] == want[j]
    {
      var n := Nearest(cl, k, NonEmptyClusters(cl.labels, k)[j]);
      assert reps[j] == stacked[n] && want[j] == data[n];
    }
  }

  /** The cluster-c step of `get_nearest_points`: `np.where` on the cluster
      column finds the members of c, and argmin over their distances picks
      the member nearest the centroid. */
  lemma ClusterStep(stacked: Matrix, cl: Clustering, k: nat, c: nat, members: seq<nat>)
    requires ValidClustering(|stacked|, cl, k) && c < k && ClusterColumn(stacked, cl.labels)
    requires members == Where(LastColumn(stacked), c as real)
    ensures |members| > 0 <==> c in cl.labels
    ensures forall j :: 0 <= j < |members| ==> members[j] < |cl.distances| && c < |cl.distances[members[j]]|
    ensures |members| > 0 ==> members[ArgMinFirst(MemberDistances(cl.distances, members, c))] == Nearest(cl, k, c)
  {
    WhereSame(LastColumn(stacked), c as real, cl.labels, c);
    if c in cl.labels {
      NonEmptyMembers(cl.labels, c);
    }
    if |members| > 0 {
      assert cl.labels[members[0]] == c;
    }
  }

  /** One more cluster adds its nearest member when it has members. */
  lemma RepresentativesStep(data: Matrix, cl: Clustering, k: nat, c: nat)
    requires ValidClustering(|data|, cl, k) && c < k
    ensures Representatives(data, cl, k, c + 1) ==
      Representatives(data, cl, k, c) + (if c in cl.labels then [data[Nearest(cl, k, c)]] else [])
  {
  }

  /** `get_nearest_points`: for each cluster 0 .. nClusters-1 that has
      members, the row of its member nearest the centroid, with the cluster
      column (the last one, holding `labels`) dropped. */
  method GetNearestPoints(stacked: Matrix, distances: Matrix, nClusters: nat, ghost labels: seq<nat>)
    returns (nearestPoints: Matrix)
    requires ClusterColumn(stacked, labels)
    requires ValidClustering(|stacked|, Clustering(labels, distances), nClusters)
    ensures forall j :: 0 <= j < |Representatives(stacked, Clustering(labels, distances), nClusters, nClusters)| ==>
      |Representatives(stacked, Clustering(labels, distances), nClusters, nClusters)[j]| > 0
    ensures nearestPoints == DropLastColumn(Representatives(stacked, Clustering(labels, distances), nClusters, nClusters))
  {
    ghost var cl := Clustering(labels, distances);
    var picked: Matrix := [];
    var i := 0;
    while i < nClusters
      invariant 0 <= i <= nClusters
      invariant picked == Representatives(stacked, cl, nClusters, i)
      invariant forall j :: 0 <= j < |picked| ==> |picked[j]| > 0
    {
      var clusterIndices := Where(LastColumn(stacked), i as real);
      ClusterStep(stacked, cl, nClusters, i, clusterIndices);
      RepresentativesStep(stacked, cl, nClusters, i);
      if |clusterIndices| > 0 {
        var nearestIndex := clusterIndices[ArgMinFirst(MemberDistances(distances, clusterIndices, i))];
        picked := picked + [stacked[nearestIndex]];
      }
      i := i + 1;
    }
    nearestPoints := DropLastColumn(picked);
  }

  /** What `make_cluster` returns. */
  function Sampled(data: Matrix, cl: Clustering, k: nat): (r: Matrix)
    requires |data| >= k ==> ValidClustering(|data|, cl, k)
    ensures |r| <= |data|
    ensures |data| >= k ==> |r| <= k
  {
    if |data| < k then data else Representatives(data, cl, k, k)
  }

  /** `make_cluster`: the data as it is when it has fewer than k rows;
      otherwise the rows nearest the centroids of the clustering `cl` that
      MiniBatchKMeans computed for it. */
  method MakeCluster(data: Matrix, k: nat, cl: Clustering) returns (sampled: Matrix)
    requires |data| >= k ==> ValidClustering(|data|, cl, k)
    ensures |data| < k ==> sampled == data
    ensures |data| >= k ==> sampled == Representatives(data, cl, k, k)
  {
    if |data| < k {
      return data;
    }
    var stacked := ColumnStack(data, cl.labels);
    UnstackRepresentatives(data, cl, k);
    sampled := GetNearestPoints(stacked, cl.distances, k, cl.labels);
  }

  /** Sampling keeps only rows of the data, so their width, and when it
      clusters it keeps at most one row per cluster and at least one row of
      non-empty data. */
  lemma SampledRows(data: Matrix, cl: Clustering, k: nat, width: nat)
    requires |data| >= k ==> ValidClustering(|data|, cl, k)
    ensures forall j :: 0 <= j < |Sampled(data, cl, k)| ==> Sampled(data, cl, k)[j] in data
    ensures Rectangular(data, width) ==> Rectangular(Sampled(data, cl, k), width)
    ensures |data| >= k ==> |Sampled(data, cl, k)| <= k
    ensures |data| >= k && |data| > 0 ==> |Sampled(data, cl, k)| > 0
  {
    var s := Sampled(data, cl, k);
    if |data| >= k {
      RepresentativesAt(data, cl, k, k);
      forall j | 0 <= j < |s|
        ensures s[j] in data
      {
        var n := Nearest(cl, k, NonEmptyClusters(cl.labels, k)[j]);
        assert s[j] == data[n];
      }
      if |data| > 0 {
        assert cl.labels[0] in NonEmptyClusters(cl.labels, k);
      }
    }
  }
}
