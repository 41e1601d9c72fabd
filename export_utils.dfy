/** The CSV export of a solution: one row per visited stop, route after route. */
module ExportUtils {
  import opened Wrappers
  import opened DataUtils

  /** A route detail as the export reads it; every key may be absent. */
  datatype RouteRecord = RouteRecord(
    vehicleId: Option<string>,
    stops: Option<seq<nat>>,
    distance: Option<real>,
    time: Option<real>)

  datatype ExportRow = ExportRow(
    scenarioName: string,
    vehicleId: string,
    stopSequence: nat,
    stopId: string,
    latitude: real,
    longitude: real,
    isDepot: bool,
    demand: real,
    routeDistanceKm: real,
    routeDurationMinutes: real)

  /** The row for position `seqIdx` of a route whose stop there is frame row `s`. */
  function MakeRow(scenario: string, d: RouteRecord, seqIdx: nat, s: Stop): ExportRow {
    ExportRow(scenario, d.vehicleId.GetOr("Unknown"), seqIdx, s.stopId, s.lat, s.lon, s.isDepot, s.demand,
              d.distance.GetOr(0.0), d.time.GetOr(0.0))
  }

  /** The rows for the stops `stops` of detail `d`: one per position whose index names a frame row. */
  function RowsOf(df: seq<Stop>, scenario: string, d: RouteRecord, stops: seq<nat>): seq<ExportRow> {
    if stops == [] then []
    else
      var last := stops[|stops| - 1];
      RowsOf(df, scenario, d, stops[..|stops| - 1])
      + (if last < |df| then [MakeRow(scenario, d, |stops| - 1, df[last])] else [])
  }

  /** The rows of one route detail; a detail without `stops` has none. */
  function RouteRows(df: seq<Stop>, scenario: string, d: RouteRecord): seq<ExportRow> {
    RowsOf(df, scenario, d, d.stops.GetOr([]))
  }

  /** All rows, route detail after route detail. */
  function AllRows(df: seq<Stop>, scenario: string, ds: seq<RouteRecord>): seq<ExportRow> {
    if ds == [] then [] else AllRows(df, scenario, ds[..|ds| - 1]) + RouteRows(df, scenario, ds[|ds| - 1])
  }

  /** export_routes_to_csv; a solution without `route_details` gives no rows. */
  method ExportRoutes(routeDetails: Option<seq<RouteRecord>>, df: seq<Stop>, scenario: string) returns (rows: seq<ExportRow>)
    ensures rows == AllRows(df, scenario, routeDetails.GetOr([]))
  {
    var details := routeDetails.GetOr([]);
    rows := [];
    for r := 0 to |details|
      invariant rows == AllRows(df, scenario, details[..r])
    {
      assert details[..r + 1][..r] == details[..r];
      var routeDetail := details[r];
      var vehicleId := routeDetail.vehicleId.GetOr("Unknown");
      var stops := routeDetail.stops.GetOr([]);
      ghost var before := rows;
      for seqIdx := 0 to |stops|
        invariant rows == before + RowsOf(df, scenario, routeDetail, stops[..seqIdx])
      {
        assert stops[..seqIdx + 1][..seqIdx] == stops[..seqIdx];
        var stopIdx := stops[seqIdx];
        if stopIdx < |df| {
          var stopRow := df[stopIdx];
          rows := rows + [ExportRow(scenario, vehicleId, seqIdx, stopRow.stopId, stopRow.lat, stopRow.lon,
                                    stopRow.isDepot, stopRow.demand,
                                    routeDetail.distance.GetOr(0.0), routeDetail.time.GetOr(0.0))];
        }
      }
      assert stops[..|stops|] == stops;
    }
    assert details[..|details|] == details;
  }

  /** Each row is MakeRow of a position whose stop index names a frame row. */
  predicate RowsSound(df: seq<Stop>, scenario: string, d: RouteRecord, stops: seq<nat>, rows: seq<ExportRow>) {
    forall k :: 0 <= k < |rows| ==>
      && rows[k].stopSequence < |stops| && stops[rows[k].stopSequence] < |df|
      && rows[k] == MakeRow(scenario, d, rows[k].stopSequence, df[stops[rows[k].stopSequence]])
  }

  /** The positions of the rows strictly increase. */
  predicate RowsOrdered(rows: seq<ExportRow>) {
    forall k, l :: 0 <= k < l < |rows| ==> rows[k].stopSequence < rows[l].stopSequence
  }

  /** No position whose stop index names a frame row is skipped. */
  predicate RowsComplete(df: seq<Stop>, stops: seq<nat>, rows: seq<ExportRow>) {
    forall i :: 0 <= i < |stops| && stops[i] < |df| ==> exists k :: 0 <= k < |rows| && rows[k].stopSequence == i
  }

  lemma {:induction false} RowsOfSound(df: seq<Stop>, scenario: string, d: RouteRecord, stops: seq<nat>)
    ensures RowsSound(df, scenario, d, stops, RowsOf(df, scenario, d, stops))
  {
    if stops != [] {
      var init := stops[..|stops| - 1];
      RowsOfSound(df, scenario, d, init);
      var before := RowsOf(df, scenario, d, init);
      var rows := RowsOf(df, scenario, d, stops);
      assert rows == before + (if stops[|stops| - 1] < |df| then [MakeRow(scenario, d, |stops| - 1, df[stops[|stops| - 1]])] else []);
      forall k | 0 <= k < |rows|
        ensures && rows[k].stopSequence < |stops| && stops[rows[k].stopSequence] < |df|
                && rows[k] == MakeRow(scenario, d, rows[k].stopSequence, df[stops[rows[k].stopSequence]])
      {
        if k < |before| {
          assert rows[k] == before[k];
          assert init[before[k].stopSequence] == stops[before[k].stopSequence];
        }
      }
    }
  }

  lemma {:induction false} RowsOfOrdered(df: seq<Stop>, scenario: string, d: RouteRecord, stops: seq<nat>)
    ensures RowsOrdered(RowsOf(df, scenario, d, stops))
  {
    if stops != [] {
      var init := stops[..|stops| - 1];
      RowsOfOrdered(df, scenario, d, init);
      RowsOfSound(df, scenario, d, init);
      var before := RowsOf(df, scenario, d, init);
      var rows := RowsOf(df, scenario, d, stops);
      assert rows == before + (if stops[|stops| - 1] < |df| then [MakeRow(scenario, d, |stops| - 1, df[stops[|stops| - 1]])] else []);
      forall k, l | 0 <= k < l < |rows|
        ensures rows[k].stopSequence < rows[l].stopSequence
      {
        assert rows[k] == before[k];
        if l < |before| {
          assert rows[l] == before[l];
        }
      }
    }
  }

  lemma {:induction false} RowsOfComplete(df: seq<Stop>, scenario: string, d: RouteRecord, stops: seq<nat>)
    ensures RowsComplete(df, stops, RowsOf(df, scenario, d, stops))
  {
    if stops != [] {
      var init := stops[..|stops| - 1];
      RowsOfComplete(df, scenario, d, init);
      var before := RowsOf(df, scenario, d, init);
      var rows := RowsOf(df, scenario, d, stops);
      assert rows == before + (if stops[|stops| - 1] < |df| then [MakeRow(scenario, d, |stops| - 1, df[stops[|stops| - 1]])] else []);
      forall i | 0 <= i < |stops| && stops[i] < |df|
        ensures exists k :: 0 <= k < |rows| && rows[k].stopSequence == i
      {
        if i < |init| {
          assert init[i] == stops[i];
          var k :| 0 <= k < |before| && before[k].stopSequence == i;
          assert rows[k] == before[k];
        } else {
          assert rows[|before|].stopSequence == i;
        }
      }
    }
  }

  /**
   * The rows of one detail: one per position whose stop index names a frame
   * row, in route order; `stop_sequence` is that position, the route's
   * vehicle, distance and time are repeated, and the stop's fields come from
   * its frame row.
   */
  lemma RouteRowsContents(df: seq<Stop>, scenario: string, d: RouteRecord)
    ensures var stops := d.stops.GetOr([]);
            var rows := RouteRows(df, scenario, d);
            && (forall k :: 0 <= k < |rows| ==>
                  var p := rows[k].stopSequence;
                  && p < |stops| && stops[p] < |df|
                  && rows[k].vehicleId == d.vehicleId.GetOr("Unknown")
                  && rows[k].routeDistanceKm == d.distance.GetOr(0.0)
                  && rows[k].routeDurationMinutes == d.time.GetOr(0.0)
                  && rows[k].scenarioName == scenario
                  && rows[k].stopId == df[stops[p]].stopId
                  && rows[k].latitude == df[stops[p]].lat && rows[k].longitude == df[stops[p]].lon
                  && rows[k].isDepot == df[stops[p]].isDepot && rows[k].demand == df[stops[p]].demand)
            && (forall k, l :: 0 <= k < l < |rows| ==> rows[k].stopSequence < rows[l].stopSequence)
            && (forall i :: 0 <= i < |stops| && stops[i] < |df| ==>
                  exists k :: 0 <= k < |rows| && rows[k].stopSequence == i)
  {
    var stops := d.stops.GetOr([]);
    RowsOfSound(df, scenario, d, stops);
    RowsOfOrdered(df, scenario, d, stops);
    RowsOfComplete(df, scenario, d, stops);
  }

  /** Rows of a route whose stops all name frame rows: exactly one per stop, numbered 0, 1, 2, ... */
  lemma {:induction false} RowsOfAllKept(df: seq<Stop>, scenario: string, d: RouteRecord, stops: seq<nat>)
    requires forall i :: 0 <= i < |stops| ==> stops[i] < |df|
    ensures |RowsOf(df, scenario, d, stops)| == |stops|
    ensures forall k :: 0 <= k < |stops| ==> RowsOf(df, scenario, d, stops)[k].stopSequence == k
  {
    if stops != [] {
      RowsOfAllKept(df, scenario, d, stops[..|stops| - 1]);
    }
  }

  /** The export is the concatenation of the exports of the details, so no detail's rows mix with another's. */
  lemma {:induction false} AllRowsAppend(df: seq<Stop>, scenario: string, a: seq<RouteRecord>, b: seq<RouteRecord>)
    ensures AllRows(df, scenario, a + b) == AllRows(df, scenario, a) + AllRows(df, scenario, b)
    decreases |b|
  {
    if b == [] {
      assert a + b == a;
    } else {
      var init, last := b[..|b| - 1], b[|b| - 1];
      assert AllRows(df, scenario, a + b) == AllRows(df, scenario, a + init) + RouteRows(df, scenario, last) by {
        assert (a + b)[..|a + b| - 1] == a + init;
        assert (a + b)[|a + b| - 1] == last;
      }
      AllRowsAppend(df, scenario, a, init);
    }
  }
}
