/** The `/api/buses` handler: load both reference tables, take the feed,
    run the entity loop with a ten-minute freshness window. Any `KeyError`
    raised on the way becomes the request's single error, and no partial
    list is returned. */
module Endpoint {
  import opened Common
  import opened Reference
  import opened Vehicles
  import opened Pipeline

  /** `timedelta(minutes=10)`, in seconds. */
  const FreshnessWindow: int := 600

  /** What the handler answers, given the two tables' rows, the fetched feed
      and the current time in epoch seconds. */
  function Request(tripRows: seq<Row>, stopRows: seq<Row>, feed: FeedMessage, now: int): Result<seq<BusStatus>, Error> {
    var trips :- TripsOf(tripRows);
    var stops :- StopsOf(stopRows);
    var entities :- Field(feed.entity, "entity");
    ActiveBuses(entities, trips, stops, now, FreshnessWindow)
  }

  /** main.py:53-94 with the feed and the clock as inputs. */
  method TrackBuses(tripRows: seq<Row>, stopRows: seq<Row>, feed: FeedMessage, now: int)
    returns (r: Result<seq<BusStatus>, Error>)
    ensures r == Request(tripRows, stopRows, feed, now)
  {
    var tripsData :- LoadTripsData(tripRows);
    var stopsData :- LoadStopsData(stopRows);
    var entities :- Field(feed.entity, "entity");
    r := CollectActiveBuses(entities, tripsData, stopsData, now, FreshnessWindow);
  }

  /** All or nothing: the request succeeds exactly when both tables load,
      the feed has its entity list and no entity misses a field on its read
      path. An entity that would have been dropped as stale still fails the
      request when it misses such a field. */
  lemma RequestFault(tripRows: seq<Row>, stopRows: seq<Row>, feed: FeedMessage, now: int)
    ensures Request(tripRows, stopRows, feed, now).Ok? <==>
      && TripsOf(tripRows).Ok?
      && StopsOf(stopRows).Ok?
      && feed.entity.Some?
      && forall e :: e in feed.entity.value ==> !MissingOnPath(e, TripsOf(tripRows).value, StopsOf(stopRows).value)
  {
    if TripsOf(tripRows).Ok? && StopsOf(stopRows).Ok? && feed.entity.Some? {
      var trips, stops, entities := TripsOf(tripRows).value, StopsOf(stopRows).value, feed.entity.value;
      ActiveBusesFault(entities, trips, stops, now, FreshnessWindow);
      forall e | e in entities
        ensures Project(e, trips, stops, now, FreshnessWindow).Ok? <==> !MissingOnPath(e, trips, stops)
      {
        ProjectFails(e, trips, stops, now, FreshnessWindow);
      }
    }
  }

  // ---------------------------------------------------------------- scenarios

  function TripRow(): Row {
    map["route_id" := TargetRoute, "trip_id" := "T1", "direction_id" := "1"]
  }

  function StopRow(): Row {
    map["stop_id" := "S1", "stop_name" := "Main St"]
  }

  function Report(stopId: string, timestamp: int, displayLabel: Option<string>): Entity {
    Entity(Some(VehiclePosition(
      Some(TripDescriptor(Some(TargetRoute), Some("T1"), Some(1), Some(Scheduled))),
      Some(VehicleDescriptor(displayLabel)),
      Some(Position(Some(47.6), Some(-122.2))),
      Some("IN_TRANSIT_TO"),
      Some(stopId),
      Some(timestamp))))
  }

  /** The two one-row tables of the scenarios load as expected. */
  lemma ScenarioTables()
    ensures TripsOf([TripRow()]) == Ok(map["T1" := TripRow()])
    ensures StopsOf([StopRow()]) == Ok(map["S1" := StopRow()])
  {
    var tripRows, stopRows := [TripRow()], [StopRow()];
    assert tripRows[..0] == [] && stopRows[..0] == [];
  }

  /** A scheduled report two minutes old, at a known stop, is listed with the stop's name. */
  lemma FreshReportIsListed(now: int)
    ensures Request([TripRow()], [StopRow()], FeedMessage(Some([Report("S1", now - 120, Some("7001"))])), now)
      == Ok([BusStatus("7001", Westbound, "Main St", LatLon(47.6, -122.2), "IN_TRANSIT_TO", now - 120)])
  {
    ScenarioTables();
    var trips, stops := map["T1" := TripRow()], map["S1" := StopRow()];
    var es := [Report("S1", now - 120, Some("7001"))];
    var bus := BusStatus("7001", Westbound, "Main St", LatLon(47.6, -122.2), "IN_TRANSIT_TO", now - 120);
    assert Project(es[0], trips, stops, now, FreshnessWindow) == Ok(Some(bus));
    assert es[..0] == [] && es[|es| - 1] == es[0];
    assert ActiveBuses(es[..0], trips, stops, now, FreshnessWindow) == Ok([]);
    assert ActiveBuses(es, trips, stops, now, FreshnessWindow) == Ok([] + [bus]);
    assert [] + [bus] == [bus];
  }

  /** The same report fifteen minutes old is dropped. */
  lemma StaleReportIsDropped(now: int)
    ensures Request([TripRow()], [StopRow()], FeedMessage(Some([Report("S1", now - 900, Some("7001"))])), now) == Ok([])
  {
    ScenarioTables();
    var trips, stops := map["T1" := TripRow()], map["S1" := StopRow()];
    var es := [Report("S1", now - 900, Some("7001"))];
    assert Project(es[0], trips, stops, now, FreshnessWindow) == Ok(None);
    assert es[..0] == [];
    assert ActiveBuses(es[..0], trips, stops, now, FreshnessWindow) == Ok([]);
    assert ActiveBuses(es, trips, stops, now, FreshnessWindow) == Ok([]);
  }

  /** A report at a stop missing from the table is listed with stop `Unknown`. */
  lemma UnknownStopIsListed(now: int)
    ensures Request([TripRow()], [StopRow()], FeedMessage(Some([Report("S9", now - 120, Some("7001"))])), now)
      == Ok([BusStatus("7001", Westbound, Unknown, LatLon(47.6, -122.2), "IN_TRANSIT_TO", now - 120)])
  {
    ScenarioTables();
    var trips, stops := map["T1" := TripRow()], map["S1" := StopRow()];
    var es := [Report("S9", now - 120, Some("7001"))];
    var bus := BusStatus("7001", Westbound, Unknown, LatLon(47.6, -122.2), "IN_TRANSIT_TO", now - 120);
    assert "S9" !in stops;
    assert Project(es[0], trips, stops, now, FreshnessWindow) == Ok(Some(bus));
    assert es[..0] == [] && es[|es| - 1] == es[0];
    assert ActiveBuses(es[..0], trips, stops, now, FreshnessWindow) == Ok([]);
    assert ActiveBuses(es, trips, stops, now, FreshnessWindow) == Ok([] + [bus]);
    assert [] + [bus] == [bus];
  }

  /** A stale report without a label fails the whole request, even though it
      would not have been listed, and even beside a report that would. */
  lemma StaleReportWithoutLabelFailsRequest(now: int)
    ensures Request([TripRow()], [StopRow()],
      FeedMessage(Some([Report("S1", now - 120, Some("7001")), Report("S1", now - 900, None)])), now)
      == Err(KeyError("label"))
  {
    ScenarioTables();
    var trips, stops := map["T1" := TripRow()], map["S1" := StopRow()];
    var es := [Report("S1", now - 120, Some("7001")), Report("S1", now - 900, None)];
    var bus := BusStatus("7001", Westbound, "Main St", LatLon(47.6, -122.2), "IN_TRANSIT_TO", now - 120);
    assert Project(es[0], trips, stops, now, FreshnessWindow) == Ok(Some(bus));
    assert Project(es[1], trips, stops, now, FreshnessWindow) == Err(KeyError("label"));
    var first := es[..1];
    assert first[..0] == [] && first[|first| - 1] == es[0];
    assert ActiveBuses(first[..0], trips, stops, now, FreshnessWindow) == Ok([]);
    assert ActiveBuses(first, trips, stops, now, FreshnessWindow) == Ok([] + [bus]);
    assert ActiveBuses(es, trips, stops, now, FreshnessWindow) == Err(KeyError("label"));
  }
}
