/** The part of the real-time feed document the handler reads: the GTFS
    Realtime FeedMessage's `entity` list, each entity's VehiclePosition with
    its TripDescriptor, VehicleDescriptor and Position. Every field is
    optional, since the feed is untrusted JSON. */
module Vehicles {
  import opened Common

  datatype TripDescriptor = TripDescriptor(
    routeId: Option<string>,
    tripId: Option<string>,
    directionId: Option<int>,
    scheduleRelationship: Option<string>)

  datatype VehicleDescriptor = VehicleDescriptor(displayLabel: Option<string>)

  datatype Position = Position(latitude: Option<real>, longitude: Option<real>)

  /** `entity['vehicle']`; `timestamp` is the report time in epoch seconds. */
  datatype VehiclePosition = VehiclePosition(
    trip: Option<TripDescriptor>,
    vehicle: Option<VehicleDescriptor>,
    position: Option<Position>,
    currentStatus: Option<string>,
    stopId: Option<string>,
    timestamp: Option<int>)

  datatype Entity = Entity(vehicle: Option<VehiclePosition>)

  datatype FeedMessage = FeedMessage(entity: Option<seq<Entity>>)

  /** `vehicle.trip.route_id`, when every step of that path is present. */
  function RouteOf(e: Entity): Option<string> {
    match e.vehicle
    case Some(VehiclePosition(Some(trip), _, _, _, _, _)) => trip.routeId
    case _ => None
  }

  /** `vehicle.trip.trip_id`, when every step of that path is present. */
  function TripIdOf(e: Entity): Option<string> {
    match e.vehicle
    case Some(VehiclePosition(Some(trip), _, _, _, _, _)) => trip.tripId
    case _ => None
  }

  /** Every field the handler reads from a matched entity, flattened. */
  datatype Reading = Reading(
    routeId: string,
    tripId: string,
    stopId: string,
    relationship: string,
    timestamp: int,
    displayLabel: string,
    directionId: int,
    latitude: real,
    longitude: real,
    status: string)

  /** The entity's fields when all of them are present, in no particular order. */
  function Fields(e: Entity): Option<Reading> {
    match e.vehicle
    case Some(VehiclePosition(
        Some(TripDescriptor(Some(route), Some(trip), Some(direction), Some(relationship))),
        Some(VehicleDescriptor(Some(displayLabel))),
        Some(Position(Some(latitude), Some(longitude))),
        Some(status), Some(stop), Some(timestamp))) =>
      Some(Reading(route, trip, stop, relationship, timestamp, displayLabel, direction, latitude, longitude, status))
    case _ => None
  }
}
