/** The reference loaders: the GTFS `trips.txt` table indexed by `trip_id`
    (only rows of the target route) and the `stops.txt` table indexed by
    `stop_id` (every row). A row is a header-keyed map of cells. */
module Reference {
  import opened Common

  /** One parsed table row: column name to cell text. A key is absent when
      the table's header has no such column. */
  type Row = map<string, string>

  /** `row[column]`: the cell, or `KeyError(column)`. */
  function Cell(row: Row, column: string): Result<string, Error> {
    if column in row then Ok(row[column]) else Err(KeyError(column))
  }

  // ---------------------------------------------------------------- trips

  /** The row is one of the target route's rows and describes `tripId`. */
  predicate IsTripRowFor(row: Row, tripId: string) {
    "route_id" in row && row["route_id"] == TargetRoute && "trip_id" in row && row["trip_id"] == tripId
  }

  /** The key the trips loader fails on for this row, if any: every row must
      have `route_id`; only rows of the target route need `trip_id`. */
  function TripRowFault(row: Row): Option<Error> {
    if "route_id" !in row then Some(KeyError("route_id"))
    else if row["route_id"] == TargetRoute && "trip_id" !in row then Some(KeyError("trip_id"))
    else None
  }

  /** What `load_trips_data` computes from its rows, one row at a time. */
  function TripsOf(rows: seq<Row>): Result<map<string, Row>, Error>
    decreases |rows|
  {
    if rows == [] then Ok(map[])
    else
      var trips :- TripsOf(rows[..|rows| - 1]);
      var row := rows[|rows| - 1];
      var routeId :- Cell(row, "route_id");
      if routeId == TargetRoute then
        var tripId :- Cell(row, "trip_id");
        Ok(trips[tripId := row])
      else
        Ok(trips)
  }

  /** Once a prefix of the rows has failed, the rest of the table is never read. */
  lemma {:induction false} TripsOfStopsAtFault(rows: seq<Row>, n: nat)
    requires n <= |rows|
    ensures TripsOf(rows[..n]).Err? ==> TripsOf(rows) == TripsOf(rows[..n])
    decreases |rows|
  {
    if n == |rows| {
      assert rows[..n] == rows;
    } else {
      var init := rows[..|rows| - 1];
      assert init[..n] == rows[..n];
      TripsOfStopsAtFault(init, n);
    }
  }

  /** Loading fails exactly when some row is missing a key it needs, and
      then with the key missing from the first such row. */
  lemma {:induction false} TripsOfFault(rows: seq<Row>)
    ensures TripsOf(rows).Ok? <==> forall i :: 0 <= i < |rows| ==> TripRowFault(rows[i]).None?
    ensures TripsOf(rows).Err? ==>
      exists i :: 0 <= i < |rows| && TripRowFault(rows[i]) == Some(TripsOf(rows).error) &&
        forall j :: 0 <= j < i ==> TripRowFault(rows[j]).None?
    decreases |rows|
  {
    if rows != [] {
      var n := |rows|;
      var init := rows[..n - 1];
      TripsOfFault(init);
      assert forall i :: 0 <= i < n - 1 ==> init[i] == rows[i];
      if TripsOf(init).Err? {
        var i :| 0 <= i < n - 1 && TripRowFault(init[i]) == Some(TripsOf(init).error) &&
          forall j :: 0 <= j < i ==> TripRowFault(init[j]).None?;
        assert TripRowFault(rows[i]) == Some(TripsOf(rows).error);
      } else if TripRowFault(rows[n - 1]).Some? {
        assert TripRowFault(rows[n - 1]) == Some(TripsOf(rows).error);
      }
    }
  }

  /** The loaded map holds exactly the trip ids of the target route's rows,
      and for each the LAST row that names it. */
  lemma {:induction false} TripsOfContents(rows: seq<Row>, tripId: string)
    requires TripsOf(rows).Ok?
    ensures tripId in TripsOf(rows).value <==> exists i :: 0 <= i < |rows| && IsTripRowFor(rows[i], tripId)
    ensures tripId in TripsOf(rows).value ==>
      exists i :: 0 <= i < |rows| && IsTripRowFor(rows[i], tripId) && TripsOf(rows).value[tripId] == rows[i] &&
        forall j :: i < j < |rows| ==> !IsTripRowFor(rows[j], tripId)
    decreases |rows|
  {
    if rows != [] {
      var n := |rows|;
      var init := rows[..n - 1];
      TripsOfContents(init, tripId);
      assert forall i :: 0 <= i < n - 1 ==> init[i] == rows[i];
      var m := TripsOf(rows).value;
      if IsTripRowFor(rows[n - 1], tripId) {
        assert m[tripId] == rows[n - 1];
      } else if tripId in TripsOf(init).value {
        var i :| 0 <= i < n - 1 && IsTripRowFor(init[i], tripId) && TripsOf(init).value[tripId] == init[i] &&
          forall j :: i < j < n - 1 ==> !IsTripRowFor(init[j], tripId);
        assert IsTripRowFor(rows[i], tripId) && m[tripId] == rows[i];
      }
    }
  }

  /** main.py:28-35 over pre-parsed rows. */
  method LoadTripsData(rows: seq<Row>) returns (r: Result<map<string, Row>, Error>)
    ensures r == TripsOf(rows)
  {
    var trips: map<string, Row> := map[];
    for i := 0 to |rows|
      invariant TripsOf(rows[..i]) == Ok(trips)
    {
      var row := rows[i];
      assert rows[..i + 1][..i] == rows[..i];
      TripsOfStopsAtFault(rows, i + 1);
      var routeId :- Cell(row, "route_id");
      if routeId == TargetRoute {
        var tripId :- Cell(row, "trip_id");
        trips := trips[tripId := row];
      }
    }
    assert rows[..|rows|] == rows;
    return Ok(trips);
  }

  // ---------------------------------------------------------------- stops

  /** The row describes stop `stopId`. */
  predicate IsStopRowFor(row: Row, stopId: string) {
    "stop_id" in row && row["stop_id"] == stopId
  }

  /** What `load_stops_data` computes from its rows, one row at a time. */
  function StopsOf(rows: seq<Row>): Result<map<string, Row>, Error>
    decreases |rows|
  {
    if rows == [] then Ok(map[])
    else
      var stops :- StopsOf(rows[..|rows| - 1]);
      var row := rows[|rows| - 1];
      var stopId :- Cell(row, "stop_id");
      Ok(stops[stopId := row])
  }

  /** Once a prefix of the rows has failed, the rest of the table is never read. */
  lemma {:induction false} StopsOfStopsAtFault(rows: seq<Row>, n: nat)
    requires n <= |rows|
    ensures StopsOf(rows[..n]).Err? ==> StopsOf(rows) == StopsOf(rows[..n])
    decreases |rows|
  {
    if n == |rows| {
      assert rows[..n] == rows;
    } else {
      var init := rows[..|rows| - 1];
      assert init[..n] == rows[..n];
      StopsOfStopsAtFault(init, n);
    }
  }

  /** Loading fails exactly when some row has no `stop_id`, and then with that key. */
  lemma {:induction false} StopsOfFault(rows: seq<Row>)
    ensures StopsOf(rows).Ok? <==> forall i :: 0 <= i < |rows| ==> "stop_id" in rows[i]
    ensures StopsOf(rows).Err? ==> StopsOf(rows).error == KeyError("stop_id")
    decreases |rows|
  {
    if rows != [] {
      var n := |rows|;
      var init := rows[..n - 1];
      StopsOfFault(init);
      assert forall i :: 0 <= i < n - 1 ==> init[i] == rows[i];
    }
  }

  /** The loaded map is keyed by every row's `stop_id`, with no filtering,
      and holds for each key the LAST row that names it. */
  lemma {:induction false} StopsOfContents(rows: seq<Row>, stopId: string)
    requires StopsOf(rows).Ok?
    ensures stopId in StopsOf(rows).value <==> exists i :: 0 <= i < |rows| && IsStopRowFor(rows[i], stopId)
    ensures stopId in StopsOf(rows).value ==>
      exists i :: 0 <= i < |rows| && IsStopRowFor(rows[i], stopId) && StopsOf(rows).value[stopId] == rows[i] &&
        forall j :: i < j < |rows| ==> !IsStopRowFor(rows[j], stopId)
    decreases |rows|
  {
    if rows != [] {
      var n := |rows|;
      var init := rows[..n - 1];
      StopsOfContents(init, stopId);
      assert forall i :: 0 <= i < n - 1 ==> init[i] == rows[i];
      var m := StopsOf(rows).value;
      if IsStopRowFor(rows[n - 1], stopId) {
        assert m[stopId] == rows[n - 1];
      } else if stopId in StopsOf(init).value {
        var i :| 0 <= i < n - 1 && IsStopRowFor(init[i], stopId) && StopsOf(init).value[stopId] == init[i] &&
          forall j :: i < j < n - 1 ==> !IsStopRowFor(init[j], stopId);
        assert IsStopRowFor(rows[i], stopId) && m[stopId] == rows[i];
      }
    }
  }

  /** main.py:38-44 over pre-parsed rows. */
  method LoadStopsData(rows: seq<Row>) returns (r: Result<map<string, Row>, Error>)
    ensures r == StopsOf(rows)
  {
    var stops: map<string, Row> := map[];
    for i := 0 to |rows|
      invariant StopsOf(rows[..i]) == Ok(stops)
    {
      var row := rows[i];
      assert rows[..i + 1][..i] == rows[..i];
      StopsOfStopsAtFault(rows, i + 1);
      var stopId :- Cell(row, "stop_id");
      stops := stops[stopId := row];
    }
    assert rows[..|rows|] == rows;
    return Ok(stops);
  }
}
