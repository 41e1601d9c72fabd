/**
 * Region-based clustering: cluster ids from the ranks of a column's values,
 * one depot guaranteed per cluster, the split of a frame into clusters, and
 * the sum of the per-cluster solutions.
 */
module Clustering {
  import opened Wrappers
  import opened Text
  import VrpSolver

  // ---------------------------------------------------------------------
  // apply_column_based_clustering: ids from ranks
  // ---------------------------------------------------------------------

  function Distinct(values: seq<string>): set<string> {
    set k | 0 <= k < |values| :: values[k]
  }

  /** The position of `v` in the sorted distinct values: how many of them sort before it. */
  function Rank(vals: set<string>, v: string): nat {
    |set u | u in vals && Less(u, v)|
  }

  /** `value_to_cluster` applied to every row. */
  function ClusterIds(values: seq<string>): (ids: seq<nat>)
    ensures |ids| == |values|
  {
    seq(|values|, k requires 0 <= k < |values| => Rank(Distinct(values), values[k]))
  }

  lemma {:induction false} SubsetSize<T>(a: set<T>, b: set<T>)
    requires a <= b
    ensures |a| <= |b|
    decreases |b|
  {
    if a != {} {
      var x :| x in a;
      SubsetSize(a - {x}, b - {x});
    }
  }

  /** A value of the set ranks below the set's size. */
  lemma RankBelow(vals: set<string>, v: string)
    requires v in vals
    ensures Rank(vals, v) < |vals|
  {
    LessIrreflexive(v);
    var below := set u | u in vals && Less(u, v);
    SubsetSize(below, vals - {v});
  }

  /** Ranks follow the order of the values. */
  lemma RankStrict(vals: set<string>, a: string, b: string)
    requires a in vals && Less(a, b)
    ensures Rank(vals, a) < Rank(vals, b)
  {
    var belowA := set u | u in vals && Less(u, a);
    var belowB := set u | u in vals && Less(u, b);
    forall u | u in belowA
      ensures u in belowB
    {
      LessTransitive(u, a, b);
    }
    LessIrreflexive(a);
    assert a !in belowA;
    SubsetSize(belowA + {a}, belowB);
  }

  /** Different values get different ranks. */
  lemma RankInjective(vals: set<string>, a: string, b: string)
    requires a in vals && b in vals && a != b
    ensures Rank(vals, a) != Rank(vals, b)
  {
    LessTotal(a, b);
    if Less(a, b) {
      RankStrict(vals, a, b);
    } else {
      RankStrict(vals, b, a);
    }
  }

  /** An injective image has as many elements as its domain. */
  lemma {:induction false} RankImageSize(vals: set<string>, dom: set<string>)
    requires dom <= vals
    ensures |set v | v in dom :: Rank(vals, v)| == |dom|
    decreases |dom|
  {
    if dom != {} {
      var x :| x in dom;
      var rest := dom - {x};
      RankImageSize(vals, rest);
      var img := set v | v in dom :: Rank(vals, v);
      var imgRest := set v | v in rest :: Rank(vals, v);
      forall v | v in rest
        ensures Rank(vals, v) != Rank(vals, x)
      {
        RankInjective(vals, v, x);
      }
      assert img == imgRest + {Rank(vals, x)};
    }
  }

  /** Equal values share an id and smaller values get smaller ids. */
  lemma ClusterIdsOrder(values: seq<string>)
    ensures var ids := ClusterIds(values);
            && (forall i, j :: 0 <= i < |values| && 0 <= j < |values| ==>
                  (values[i] == values[j] <==> ids[i] == ids[j]))
            && (forall i, j :: 0 <= i < |values| && 0 <= j < |values| && Less(values[i], values[j]) ==> ids[i] < ids[j])
  {
    var vals := Distinct(values);
    forall i, j | 0 <= i < |values| && 0 <= j < |values|
      ensures values[i] == values[j] <==> ClusterIds(values)[i] == ClusterIds(values)[j]
      ensures Less(values[i], values[j]) ==> ClusterIds(values)[i] < ClusterIds(values)[j]
    {
      assert values[i] in vals && values[j] in vals;
      if values[i] != values[j] {
        RankInjective(vals, values[i], values[j]);
      }
      if Less(values[i], values[j]) {
        RankStrict(vals, values[i], values[j]);
      }
    }
  }

  function IdSet(ids: seq<nat>): set<nat> {
    set i | 0 <= i < |ids| :: ids[i]
  }

  /** With k distinct values the ids are exactly 0, 1, ..., k-1. */
  lemma ClusterIdsRange(values: seq<string>)
    ensures var ids := ClusterIds(values);
            var k := |Distinct(values)|;
            && (forall i :: 0 <= i < |values| ==> ids[i] < k)
            && (forall c :: 0 <= c < k ==> c in IdSet(ids))
  {
    var vals := Distinct(values);
    forall i | 0 <= i < |values|
      ensures ClusterIds(values)[i] < |vals|
    {
      assert values[i] in vals;
      RankBelow(vals, values[i]);
    }
    forall c | 0 <= c < |vals|
      ensures c in IdSet(ClusterIds(values))
    {
      var v := RankOnto(vals, c);
      var i :| 0 <= i < |values| && values[i] == v;
      assert ClusterIds(values)[i] == c;
    }
  }

  /** Every number below the size of the set is the rank of one of its values. */
  lemma RankOnto(vals: set<string>, c: nat) returns (v: string)
    requires c < |vals|
    ensures v in vals && Rank(vals, v) == c
  {
    var img := set v | v in vals :: Rank(vals, v);
    var range := Upto(|vals|);
    RankImageSize(vals, vals);
    forall d | d in img
      ensures d in range
    {
      var w :| w in vals && d == Rank(vals, w);
      RankBelow(vals, w);
      UptoMembers(|vals|, d);
    }
    RangeSize(|vals|);
    SubsetSameSize(img, range);
    UptoMembers(|vals|, c);
    assert c in img;
    v :| v in vals && Rank(vals, v) == c;
  }

  /** The numbers 0, 1, ..., n-1. */
  function Upto(n: nat): set<nat> {
    if n == 0 then {} else Upto(n - 1) + {n - 1}
  }

  lemma {:induction false} UptoMembers(n: nat, c: nat)
    ensures c in Upto(n) <==> c < n
  {
    if n > 0 {
      UptoMembers(n - 1, c);
    }
  }

  lemma {:induction false} RangeSize(n: nat)
    ensures |Upto(n)| == n
  {
    if n > 0 {
      RangeSize(n - 1);
      UptoMembers(n - 1, n - 1);
    }
  }

  lemma SubsetSameSize(a: set<nat>, b: set<nat>)
    requires a <= b && |a| == |b|
    ensures a == b
  {
    if a != b {
      assert b - a != {} by {
        if b - a == {} {
          forall x | x in b
            ensures x in a
          {
            assert x !in b - a;
          }
        }
      }
      var x :| x in b - a;
      SubsetSize(a, b - {x});
    }
  }

  // ---------------------------------------------------------------------
  // apply_column_based_clustering: a depot per cluster
  // ---------------------------------------------------------------------

  predicate ClusterHasDepot(ids: seq<nat>, flags: seq<bool>, c: nat)
    requires |flags| == |ids|
  {
    exists j :: 0 <= j < |ids| && ids[j] == c && flags[j]
  }

  /** Row `i` is the first row of its cluster. */
  predicate FirstOfCluster(ids: seq<nat>, i: nat)
    requires i < |ids|
  {
    forall j :: 0 <= j < i ==> ids[j] != ids[i]
  }

  function FirstIndex(ids: seq<nat>, c: nat, from: nat): (i: nat)
    requires from <= |ids| && exists j :: from <= j < |ids| && ids[j] == c
    ensures from <= i < |ids| && ids[i] == c
    ensures forall j :: from <= j < i ==> ids[j] != c
    decreases |ids| - from
  {
    if ids[from] == c then from else FirstIndex(ids, c, from + 1)
  }

  /**
   * The depot-marking loop: for every cluster without a depot its first row
   * becomes one; every other flag is kept as it was.
   */
  method MarkClusterDepots(ids: seq<nat>, flags: seq<bool>) returns (marked: seq<bool>)
    requires |flags| == |ids|
    ensures |marked| == |flags|
    ensures forall i :: 0 <= i < |ids| ==>
              marked[i] == (flags[i] || (FirstOfCluster(ids, i) && !ClusterHasDepot(ids, flags, ids[i])))
  {
    marked := flags;
    var todo := set k | 0 <= k < |ids| :: ids[k];
    ghost var all := todo;
    while todo != {}
      invariant todo <= all && |marked| == |flags|
      invariant forall i :: 0 <= i < |ids| ==>
                  marked[i] == (flags[i] || (ids[i] !in todo && FirstOfCluster(ids, i) && !ClusterHasDepot(ids, flags, ids[i])))
      decreases |todo|
    {
      var c :| c in todo;
      assert ClusterHasDepot(ids, marked, c) == ClusterHasDepot(ids, flags, c);
      if !ClusterHasDepot(ids, marked, c) {
        var first := FirstIndex(ids, c, 0);
        marked := marked[first := true];
      }
      todo := todo - {c};
    }
  }

  /** Afterwards every cluster has a depot, and no row except a cluster's first gains one. */
  lemma MarkedHasDepots(ids: seq<nat>, flags: seq<bool>, marked: seq<bool>)
    requires |flags| == |ids| == |marked|
    requires forall i :: 0 <= i < |ids| ==>
               marked[i] == (flags[i] || (FirstOfCluster(ids, i) && !ClusterHasDepot(ids, flags, ids[i])))
    ensures forall i :: 0 <= i < |ids| ==> ClusterHasDepot(ids, marked, ids[i])
    ensures forall i :: 0 <= i < |ids| && flags[i] ==> marked[i]
    ensures forall i :: 0 <= i < |ids| && marked[i] && !flags[i] ==> FirstOfCluster(ids, i)
  {
    forall i | 0 <= i < |ids|
      ensures ClusterHasDepot(ids, marked, ids[i])
    {
      if !ClusterHasDepot(ids, flags, ids[i]) {
        var f := FirstIndex(ids, ids[i], 0);
        assert FirstOfCluster(ids, f);
        assert marked[f];
      } else {
        var j :| 0 <= j < |ids| && ids[j] == ids[i] && flags[j];
        assert marked[j];
      }
    }
  }

  /** apply_column_based_clustering: the new `cluster_id` column and the updated depot flags. */
  method ApplyColumnBasedClustering(values: seq<string>, flags: seq<bool>) returns (ids: seq<nat>, marked: seq<bool>)
    requires |flags| == |values|
    ensures ids == ClusterIds(values)
    ensures |marked| == |flags|
    ensures forall i :: 0 <= i < |ids| ==> ClusterHasDepot(ids, marked, ids[i])
    ensures forall i :: 0 <= i < |ids| && flags[i] ==> marked[i]
    ensures forall i :: 0 <= i < |ids| && marked[i] && !flags[i] ==> FirstOfCluster(ids, i) && !ClusterHasDepot(ids, flags, ids[i])
  {
    ids := ClusterIds(values);
    marked := MarkClusterDepots(ids, flags);
    MarkedHasDepots(ids, flags, marked);
  }

  // ---------------------------------------------------------------------
  // split_dataframe_by_cluster
  // ---------------------------------------------------------------------

  /** The row numbers whose cluster is `c`, in increasing order. */
  function Positions(ids: seq<int>, c: int): seq<nat> {
    if ids == [] then []
    else Positions(ids[..|ids| - 1], c) + (if ids[|ids| - 1] == c then [|ids| - 1] else [])
  }

  lemma {:induction false} PositionsExact(ids: seq<int>, c: int)
    ensures forall k :: 0 <= k < |Positions(ids, c)| ==> Positions(ids, c)[k] < |ids| && ids[Positions(ids, c)[k]] == c
    ensures forall i :: 0 <= i < |ids| && ids[i] == c ==> i in Positions(ids, c)
    ensures forall k, l :: 0 <= k < l < |Positions(ids, c)| ==> Positions(ids, c)[k] < Positions(ids, c)[l]
  {
    if ids != [] {
      PositionsExact(ids[..|ids| - 1], c);
    }
  }

  function Part<R>(rows: seq<R>, ids: seq<int>, c: int): seq<R>
    requires |ids| == |rows|
  {
    PositionsExact(ids, c);
    seq(|Positions(ids, c)|, k requires 0 <= k < |Positions(ids, c)| => rows[Positions(ids, c)[k]])
  }

  /** split_dataframe_by_cluster: without a cluster column one part 0; otherwise one part per id. */
  method SplitByCluster<R>(rows: seq<R>, clusterIds: Option<seq<int>>) returns (parts: map<int, seq<R>>)
    requires clusterIds.Some? ==> |clusterIds.value| == |rows|
    ensures clusterIds.None? ==> parts == map[0 := rows]
    ensures clusterIds.Some? ==>
              && parts.Keys == (set k | 0 <= k < |rows| :: clusterIds.value[k])
              && forall c :: c in parts ==> parts[c] == Part(rows, clusterIds.value, c)
  {
    if clusterIds.None? {
      return map[0 := rows];
    }
    var ids := clusterIds.value;
    parts := map[];
    var todo := set k | 0 <= k < |rows| :: ids[k];
    ghost var all := todo;
    while todo != {}
      invariant todo <= all
      invariant parts.Keys == all - todo
      invariant forall c :: c in parts ==> parts[c] == Part(rows, ids, c)
      decreases |todo|
    {
      var c := PickId(todo);
      var part: seq<R> := [];
      for i := 0 to |rows|
        invariant part == Part(rows[..i], ids[..i], c)
      {
        assert ids[..i + 1] == ids[..i] + [ids[i]];
        assert rows[..i + 1] == rows[..i] + [rows[i]];
        PartSnoc(rows[..i], ids[..i], rows[i], ids[i], c);
        if ids[i] == c {
          part := part + [rows[i]];
        }
      }
      assert rows[..|rows|] == rows && ids[..|ids|] == ids;
      parts := parts[c := part];
      todo := todo - {c};
    }
  }

  method PickId(s: set<int>) returns (x: int)
    requires s != {}
    ensures x in s
  {
    assert exists y :: y in s by {
      if forall y :: y !in s {
        assert false;
      }
    }
    x :| x in s;
  }

  lemma PartSnoc<R>(rows: seq<R>, ids: seq<int>, r: R, x: int, c: int)
    requires |ids| == |rows|
    ensures Part(rows + [r], ids + [x], c) == Part(rows, ids, c) + (if x == c then [r] else [])
  {
    assert (ids + [x])[..|ids|] == ids;
    PositionsExact(ids, c);
  }

  /**
   * Each part holds exactly the rows of its cluster in their original order,
   * and every row is in the part of its cluster.
   */
  lemma PartRows<R>(rows: seq<R>, ids: seq<int>, c: int)
    requires |ids| == |rows|
    ensures forall k :: 0 <= k < |Part(rows, ids, c)| ==>
              Positions(ids, c)[k] < |rows| && ids[Positions(ids, c)[k]] == c
              && Part(rows, ids, c)[k] == rows[Positions(ids, c)[k]]
    ensures forall k, l :: 0 <= k < l < |Positions(ids, c)| ==> Positions(ids, c)[k] < Positions(ids, c)[l]
    ensures forall i :: 0 <= i < |rows| && ids[i] == c ==> i in Positions(ids, c)
  {
    PositionsExact(ids, c);
  }

  // ---------------------------------------------------------------------
  // aggregate_cluster_solutions
  // ---------------------------------------------------------------------

  /** A route detail of the combined solution, labelled "C{cluster}-V{vehicle}". */
  datatype TaggedDetail = TaggedDetail(
    vehicleLabel: string,
    clusterId: int,
    stops: seq<nat>,
    distance: real,
    time: real,
    demand: real,
    nStops: nat)

  datatype Aggregate = Aggregate(
    totalDistance: real,
    totalTime: real,
    nVehiclesUsed: nat,
    details: seq<TaggedDetail>,
    nClusters: nat)

  function Label(clusterId: int, vehicleId: nat): string {
    "C" + IntToString(clusterId) + "-V" + NatToString(vehicleId)
  }

  function Tag(clusterId: int, d: VrpSolver.RouteDetail): TaggedDetail {
    TaggedDetail(Label(clusterId, d.vehicleId), clusterId, d.stops, d.distance, d.time, d.demand, d.nStops)
  }

  function TagAll(clusterId: int, ds: seq<VrpSolver.RouteDetail>): (r: seq<TaggedDetail>)
    ensures |r| == |ds|
  {
    seq(|ds|, k requires 0 <= k < |ds| => Tag(clusterId, ds[k]))
  }

  /** Adds one cluster's solution; an errored one only counts as a cluster. */
  function Step(a: Aggregate, entry: (int, VrpSolver.Solution)): Aggregate {
    var s := entry.1;
    if s.error.Some? then a.(nClusters := a.nClusters + 1)
    else Aggregate(a.totalDistance + s.totalDistance, a.totalTime + s.totalTime,
                   a.nVehiclesUsed + s.nVehiclesUsed, a.details + TagAll(entry.0, s.details), a.nClusters + 1)
  }

  /** The combined solution of the clusters listed so far, in the dictionary's order. */
  function Combined(sols: seq<(int, VrpSolver.Solution)>): Aggregate {
    if sols == [] then Aggregate(0.0, 0.0, 0, [], 0)
    else Step(Combined(sols[..|sols| - 1]), sols[|sols| - 1])
  }

  /** Two partial results put together: every field added. */
  function Join(x: Aggregate, y: Aggregate): Aggregate {
    Aggregate(x.totalDistance + y.totalDistance, x.totalTime + y.totalTime, x.nVehiclesUsed + y.nVehiclesUsed,
              x.details + y.details, x.nClusters + y.nClusters)
  }

  /** aggregate_cluster_solutions. */
  method AggregateClusterSolutions(sols: seq<(int, VrpSolver.Solution)>) returns (agg: Aggregate)
    ensures agg == Combined(sols)
    ensures agg.nClusters == |sols|
  {
    var totalDistance, totalTime := 0.0, 0.0;
    var totalVehicles: nat := 0;
    var allRouteDetails: seq<TaggedDetail> := [];
    for k := 0 to |sols|
      invariant Combined(sols[..k]) == Aggregate(totalDistance, totalTime, totalVehicles, allRouteDetails, k)
    {
      assert sols[..k + 1][..k] == sols[..k];
      var (clusterId, solution) := sols[k];
      if solution.error.Some? {
        continue;
      }
      totalDistance := totalDistance + solution.totalDistance;
      totalTime := totalTime + solution.totalTime;
      totalVehicles := totalVehicles + solution.nVehiclesUsed;
      ghost var before := allRouteDetails;
      for j := 0 to |solution.details|
        invariant allRouteDetails == before + TagAll(clusterId, solution.details[..j])
      {
        assert TagAll(clusterId, solution.details[..j + 1]) == TagAll(clusterId, solution.details[..j]) + [Tag(clusterId, solution.details[j])];
        allRouteDetails := allRouteDetails + [Tag(clusterId, solution.details[j])];
      }
      assert solution.details[..|solution.details|] == solution.details;
    }
    assert sols[..|sols|] == sols;
    agg := Aggregate(totalDistance, totalTime, totalVehicles, allRouteDetails, |sols|);
  }

  /** A cluster whose solution is an error only adds to the cluster count. */
  lemma CombinedSkipsErrors(sols: seq<(int, VrpSolver.Solution)>, cid: int, s: VrpSolver.Solution)
    requires s.error.Some?
    ensures Combined(sols + [(cid, s)]) == Combined(sols).(nClusters := Combined(sols).nClusters + 1)
  {
    assert (sols + [(cid, s)])[..|sols|] == sols;
  }

  lemma StepJoin(x: Aggregate, y: Aggregate, e: (int, VrpSolver.Solution))
    ensures Step(Join(x, y), e) == Join(x, Step(y, e))
  {
    if e.1.error.None? {
      assert x.details + (y.details + TagAll(e.0, e.1.details)) == (x.details + y.details) + TagAll(e.0, e.1.details);
    }
  }

  /** Combining is additive: the clusters can be summed in two runs and joined. */
  lemma {:induction false} CombinedAppend(a: seq<(int, VrpSolver.Solution)>, b: seq<(int, VrpSolver.Solution)>)
    ensures Combined(a + b) == Join(Combined(a), Combined(b))
    decreases |b|
  {
    if b == [] {
      assert a + b == a;
      assert Combined(b) == Aggregate(0.0, 0.0, 0, [], 0);
      assert Combined(a).details + [] == Combined(a).details;
    } else {
      var b' := b[..|b| - 1];
      var e := b[|b| - 1];
      CombinedAppend(a, b');
      assert (a + b)[..|a + b| - 1] == a + b';
      assert (a + b)[|a + b| - 1] == e;
      assert Combined(a + b) == Step(Combined(a + b'), e);
      StepJoin(Combined(a), Combined(b'), e);
    }
  }

  /** Each copied detail keeps its route's fields and gains the cluster id and the prefixed label. */
  lemma TagKeepsFields(clusterId: int, ds: seq<VrpSolver.RouteDetail>)
    ensures forall k :: 0 <= k < |ds| ==>
              var t := TagAll(clusterId, ds)[k];
              && t.clusterId == clusterId && t.vehicleLabel == Label(clusterId, ds[k].vehicleId)
              && t.stops == ds[k].stops && t.distance == ds[k].distance && t.time == ds[k].time
              && t.demand == ds[k].demand && t.nStops == ds[k].nStops
  {
  }

  /** Labels of non-negative cluster ids tell the cluster and the vehicle apart. */
  lemma LabelInjective(c1: int, v1: nat, c2: int, v2: nat)
    requires c1 >= 0 && c2 >= 0 && Label(c1, v1) == Label(c2, v2)
    ensures c1 == c2 && v1 == v2
  {
    LabelSplit(c1, v1);
    LabelSplit(c2, v2);
    var a1 := IntToString(c1);
    var a2 := IntToString(c2);
    assert "C" + a1 == "C" + a2;
    assert a1 == ("C" + a1)[1..] && a2 == ("C" + a2)[1..];
    ParseIntOfIntToString(c1);
    ParseIntOfIntToString(c2);
    var b1 := NatToString(v1);
    var b2 := NatToString(v2);
    assert b1 == ("V" + b1)[1..] && b2 == ("V" + b2)[1..];
    NatToStringValue(v1);
    NatToStringValue(v2);
  }

  lemma LabelSplit(c: int, v: nat)
    requires c >= 0
    ensures Split(Label(c, v), '-') == ["C" + IntToString(c), "V" + NatToString(v)]
  {
    var a := "C" + IntToString(c);
    var b := "V" + NatToString(v);
    assert Label(c, v) == a + ['-'] + b;
    assert forall k :: 0 <= k < |NatToString(c)| ==> IsDigit(NatToString(c)[k]);
    assert forall k :: 0 <= k < |NatToString(v)| ==> IsDigit(NatToString(v)[k]);
    assert '-' !in a && '-' !in b;
    SplitTwo(a, '-', b);
  }
}
