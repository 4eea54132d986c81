/** The enrichment and filter loop of `track_buses`: for each feed entity,
    keep it when it is on the target route and on a loaded trip, resolve its
    stop name, classify it active or stale, and collect the active ones in
    feed order. A missing field on the read path raises `KeyError`, which
    aborts the whole loop. */
module Pipeline {
  import opened Common
  import opened Reference
  import opened Vehicles

  const Scheduled: string := "SCHEDULED"

  /** Stop name reported when the entity's stop is not in the stops table. */
  const Unknown: string := "Unknown"

  /** The row `stops_data.get(stop_id, …)` falls back to. */
  const UnknownStop: Row := map["stop_name" := Unknown]

  datatype Direction = Westbound | Eastbound

  datatype LatLon = LatLon(lat: real, lon: real)

  /** One element of the response. `lastUpdated` is the report's epoch
      second, from which the source renders its ISO-8601 text. */
  datatype BusStatus = BusStatus(
    displayLabel: string,
    direction: Direction,
    stop: string,
    position: LatLon,
    status: string,
    lastUpdated: int)

  /** The freshness rule: a scheduled trip whose report is less than `window`
      seconds old. A report from the future is always fresh. */
  function IsActive(relationship: string, timestamp: int, now: int, window: int): (r: bool)
    ensures r <==> relationship == Scheduled && timestamp > now - window
    ensures window > 0 && timestamp >= now ==> (r <==> relationship == Scheduled)
  {
    relationship == Scheduled && now - timestamp < window
  }

  /** Only `direction_id` 1 is westbound; 0 and every other value are eastbound. */
  function DirectionOf(directionId: int): (d: Direction)
    ensures d == Westbound <==> directionId == 1
  {
    if directionId == 1 then Westbound else Eastbound
  }

  /** The stop's row exists but has no `stop_name` column. */
  predicate StopNameMissing(stops: map<string, Row>, stopId: string) {
    stopId in stops && "stop_name" !in stops[stopId]
  }

  /** The stop name shown to riders: the table's, or `Unknown` for an unknown stop. */
  function StopName(stops: map<string, Row>, stopId: string): string
    requires !StopNameMissing(stops, stopId)
  {
    if stopId in stops then stops[stopId]["stop_name"] else Unknown
  }

  /** What one pass of the loop body does with one entity, reading fields in
      the order main.py:69-88 reads them: `Ok(Some(bus))` appends, `Ok(None)`
      skips, `Err(KeyError(k))` is the exception that ends the request. */
  function Project(e: Entity, trips: map<string, Row>, stops: map<string, Row>, now: int, window: int)
    : Result<Option<BusStatus>, Error>
  {
    var vehicle :- Field(e.vehicle, "vehicle");
    var trip :- Field(vehicle.trip, "trip");
    var routeId :- Field(trip.routeId, "route_id");
    if routeId != TargetRoute then Ok(None)
    else
      var tripId :- Field(trip.tripId, "trip_id");
      if tripId !in trips then Ok(None)
      else
        var stopId :- Field(vehicle.stopId, "stop_id");
        var currentStop := if stopId in stops then stops[stopId] else UnknownStop;
        var relationship :- Field(trip.scheduleRelationship, "schedule_relationship");
        // the `and` reads `timestamp` only for a scheduled trip
        var isActive :- if relationship != Scheduled then Ok(false)
                        else (var timestamp :- Field(vehicle.timestamp, "timestamp");
                              Ok(IsActive(relationship, timestamp, now, window)));
        var descriptor :- Field(vehicle.vehicle, "vehicle");
        var displayLabel :- Field(descriptor.displayLabel, "label");
        var directionId :- Field(trip.directionId, "direction_id");
        var stopName :- Cell(currentStop, "stop_name");
        var position :- Field(vehicle.position, "position");
        var latitude :- Field(position.latitude, "latitude");
        var longitude :- Field(position.longitude, "longitude");
        var status :- Field(vehicle.currentStatus, "current_status");
        var lastUpdated :- Field(vehicle.timestamp, "timestamp");
        var busInfo := BusStatus(displayLabel, DirectionOf(directionId), stopName, LatLon(latitude, longitude), status, lastUpdated);
        Ok(if isActive then Some(busInfo) else None)
  }

  /** The entity qualifies for the response: all its fields are present, it is
      on the target route and a loaded trip, and it is active. */
  predicate Selected(e: Entity, trips: map<string, Row>, now: int, window: int) {
    && Fields(e).Some?
    && Fields(e).value.routeId == TargetRoute
    && Fields(e).value.tripId in trips
    && IsActive(Fields(e).value.relationship, Fields(e).value.timestamp, now, window)
  }

  /** Some field the loop body reads for this entity is absent: the route
      path always, `trip_id` on the target route, everything else (and the
      stop row's name) on a loaded trip. */
  predicate MissingOnPath(e: Entity, trips: map<string, Row>, stops: map<string, Row>) {
    || RouteOf(e).None?
    || (&& RouteOf(e).value == TargetRoute
        && (|| TripIdOf(e).None?
            || (&& TripIdOf(e).value in trips
                && (Fields(e).None? || StopNameMissing(stops, Fields(e).value.stopId)))))
  }

  /** An entity raises exactly when a field on its read path is missing. */
  lemma ProjectFails(e: Entity, trips: map<string, Row>, stops: map<string, Row>, now: int, window: int)
    ensures Project(e, trips, stops, now, window).Err? <==> MissingOnPath(e, trips, stops)
  {
  }

  /** A readable entity is appended exactly when it is selected. */
  lemma ProjectSelects(e: Entity, trips: map<string, Row>, stops: map<string, Row>, now: int, window: int)
    requires Project(e, trips, stops, now, window).Ok?
    ensures Project(e, trips, stops, now, window).value.Some? <==> Selected(e, trips, now, window)
  {
  }

  /** What an appended bus holds: the resolved stop name or `Unknown`, the
      direction from `direction_id`, and the label, position, status and
      timestamp copied from the entity. */
  lemma ProjectEmitted(e: Entity, trips: map<string, Row>, stops: map<string, Row>, now: int, window: int, b: BusStatus)
    requires Project(e, trips, stops, now, window) == Ok(Some(b))
    ensures Selected(e, trips, now, window)
    ensures var rd := Fields(e).value;
      && !StopNameMissing(stops, rd.stopId)
      && b.stop == StopName(stops, rd.stopId)
      && (b.direction == Westbound <==> rd.directionId == 1)
      && b.displayLabel == rd.displayLabel
      && b.position == LatLon(rd.latitude, rd.longitude)
      && b.status == rd.status
      && b.lastUpdated == rd.timestamp
  {
  }

  /** The list `track_buses` builds from the feed's entities, one at a time. */
  function ActiveBuses(entities: seq<Entity>, trips: map<string, Row>, stops: map<string, Row>, now: int, window: int)
    : Result<seq<BusStatus>, Error>
    decreases |entities|
  {
    if entities == [] then Ok([])
    else
      var earlier :- ActiveBuses(entities[..|entities| - 1], trips, stops, now, window);
      var step :- Project(entities[|entities| - 1], trips, stops, now, window);
      Ok(if step.Some? then earlier + [step.value] else earlier)
  }

  /** After an entity raises, no later entity is looked at. */
  lemma {:induction false} ActiveBusesStopsAtFault(
    entities: seq<Entity>, n: nat, trips: map<string, Row>, stops: map<string, Row>, now: int, window: int)
    requires n <= |entities|
    ensures ActiveBuses(entities[..n], trips, stops, now, window).Err? ==>
      ActiveBuses(entities, trips, stops, now, window) == ActiveBuses(entities[..n], trips, stops, now, window)
    decreases |entities|
  {
    if n == |entities| {
      assert entities[..n] == entities;
    } else {
      var init := entities[..|entities| - 1];
      assert init[..n] == entities[..n];
      ActiveBusesStopsAtFault(init, n, trips, stops, now, window);
    }
  }

  /** All or nothing: the list is built exactly when no entity raises, and
      otherwise the request fails with the first raising entity's error. */
  lemma {:induction false} ActiveBusesFault(
    entities: seq<Entity>, trips: map<string, Row>, stops: map<string, Row>, now: int, window: int)
    ensures ActiveBuses(entities, trips, stops, now, window).Ok? <==>
      forall i :: 0 <= i < |entities| ==> Project(entities[i], trips, stops, now, window).Ok?
    ensures ActiveBuses(entities, trips, stops, now, window).Err? ==>
      exists i :: 0 <= i < |entities| &&
        Project(entities[i], trips, stops, now, window) == Err(ActiveBuses(entities, trips, stops, now, window).error) &&
        forall j :: 0 <= j < i ==> Project(entities[j], trips, stops, now, window).Ok?
    decreases |entities|
  {
    if entities != [] {
      var n := |entities|;
      var init := entities[..n - 1];
      ActiveBusesFault(init, trips, stops, now, window);
      assert forall i :: 0 <= i < n - 1 ==> init[i] == entities[i];
      var result := ActiveBuses(entities, trips, stops, now, window);
      if ActiveBuses(init, trips, stops, now, window).Err? {
        var i :| 0 <= i < n - 1 &&
          Project(init[i], trips, stops, now, window) == Err(ActiveBuses(init, trips, stops, now, window).error) &&
          forall j :: 0 <= j < i ==> Project(init[j], trips, stops, now, window).Ok?;
        assert Project(entities[i], trips, stops, now, window) == Err(result.error);
      } else if Project(entities[n - 1], trips, stops, now, window).Err? {
        assert Project(entities[n - 1], trips, stops, now, window) == Err(result.error);
      }
    }
  }

  /** The response is the appended entities' buses in feed order: `idx` lists,
      strictly increasing, the positions of the entities it came from, and
      every entity that is not skipped is among them. */
  lemma {:induction false} ActiveBusesSubsequence(
    entities: seq<Entity>, trips: map<string, Row>, stops: map<string, Row>, now: int, window: int)
    returns (idx: seq<nat>)
    requires ActiveBuses(entities, trips, stops, now, window).Ok?
    ensures var out := ActiveBuses(entities, trips, stops, now, window).value;
      && |idx| == |out| <= |entities|
      && (forall k :: 0 <= k < |idx| ==>
            idx[k] < |entities| && Project(entities[idx[k]], trips, stops, now, window) == Ok(Some(out[k])))
      && (forall k, l :: 0 <= k < l < |idx| ==> idx[k] < idx[l])
      && (forall i :: 0 <= i < |entities| && Project(entities[i], trips, stops, now, window) != Ok(None) ==> i in idx)
    decreases |entities|
  {
    if entities == [] {
      idx := [];
    } else {
      var n := |entities|;
      var init := entities[..n - 1];
      var earlier := ActiveBusesSubsequence(init, trips, stops, now, window);
      assert forall i :: 0 <= i < n - 1 ==> init[i] == entities[i];
      var step := Project(entities[n - 1], trips, stops, now, window);
      if step.value.Some? {
        idx := earlier + [n - 1];
      } else {
        idx := earlier;
      }
    }
  }

  /** Every bus in the response comes from a selected entity of the feed, so
      no off-route, unknown-trip or stale entity ever appears. */
  lemma {:induction false} EveryBusQualifies(
    entities: seq<Entity>, trips: map<string, Row>, stops: map<string, Row>, now: int, window: int)
    requires ActiveBuses(entities, trips, stops, now, window).Ok?
    ensures forall b :: b in ActiveBuses(entities, trips, stops, now, window).value ==>
      exists e :: e in entities && Selected(e, trips, now, window) && Project(e, trips, stops, now, window) == Ok(Some(b))
  {
    var out := ActiveBuses(entities, trips, stops, now, window).value;
    var idx := ActiveBusesSubsequence(entities, trips, stops, now, window);
    forall b | b in out
      ensures exists e :: e in entities && Selected(e, trips, now, window) && Project(e, trips, stops, now, window) == Ok(Some(b))
    {
      var k :| 0 <= k < |out| && out[k] == b;
      var e := entities[idx[k]];
      ProjectEmitted(e, trips, stops, now, window, b);
    }
  }

  /** Every selected entity of the feed appears in the response. */
  lemma {:induction false} EverySelectedEntityEmitted(
    entities: seq<Entity>, trips: map<string, Row>, stops: map<string, Row>, now: int, window: int)
    requires ActiveBuses(entities, trips, stops, now, window).Ok?
    ensures forall e :: e in entities && Selected(e, trips, now, window) ==>
      exists b :: b in ActiveBuses(entities, trips, stops, now, window).value &&
        Project(e, trips, stops, now, window) == Ok(Some(b))
  {
    var out := ActiveBuses(entities, trips, stops, now, window).value;
    var idx := ActiveBusesSubsequence(entities, trips, stops, now, window);
    ActiveBusesFault(entities, trips, stops, now, window);
    forall e | e in entities && Selected(e, trips, now, window)
      ensures exists b :: b in out && Project(e, trips, stops, now, window) == Ok(Some(b))
    {
      var i :| 0 <= i < |entities| && entities[i] == e;
      ProjectSelects(e, trips, stops, now, window);
      assert i in idx;
      var k :| 0 <= k < |idx| && idx[k] == i;
      assert out[k] in out;
    }
  }

  /** The loop of main.py:65-94; a missing field raises out of it at once. */
  method CollectActiveBuses(
    entities: seq<Entity>, trips: map<string, Row>, stops: map<string, Row>, now: int, window: int)
    returns (r: Result<seq<BusStatus>, Error>)
    ensures r == ActiveBuses(entities, trips, stops, now, window)
  {
    var activeBuses: seq<BusStatus> := [];
    for i := 0 to |entities|
      invariant ActiveBuses(entities[..i], trips, stops, now, window) == Ok(activeBuses)
    {
      var entity := entities[i];
      assert entities[..i + 1][..i] == entities[..i];
      ActiveBusesStopsAtFault(entities, i + 1, trips, stops, now, window);
      var vehicle :- Field(entity.vehicle, "vehicle");
      var trip :- Field(vehicle.trip, "trip");
      var routeId :- Field(trip.routeId, "route_id");
      if routeId == TargetRoute {
        var tripId :- Field(trip.tripId, "trip_id");
        if tripId in trips {
          var stopId :- Field(vehicle.stopId, "stop_id");
          var currentStop := if stopId in stops then stops[stopId] else UnknownStop;
          var relationship :- Field(trip.scheduleRelationship, "schedule_relationship");
          var isActive := false;
          if relationship == Scheduled {
            var timestamp :- Field(vehicle.timestamp, "timestamp");
            isActive := IsActive(relationship, timestamp, now, window);
          }
          var descriptor :- Field(vehicle.vehicle, "vehicle");
          var displayLabel :- Field(descriptor.displayLabel, "label");
          var directionId :- Field(trip.directionId, "direction_id");
          var stopName :- Cell(currentStop, "stop_name");
          var position :- Field(vehicle.position, "position");
          var latitude :- Field(position.latitude, "latitude");
          var longitude :- Field(position.longitude, "longitude");
          var status :- Field(vehicle.currentStatus, "current_status");
          var lastUpdated :- Field(vehicle.timestamp, "timestamp");
          var busInfo := BusStatus(displayLabel, DirectionOf(directionId), stopName, LatLon(latitude, longitude), status, lastUpdated);
          if isActive {
            activeBuses := activeBuses + [busInfo];
          }
        }
      }
    }
    assert entities[..|entities|] == entities;
    return Ok(activeBuses);
  }
}
