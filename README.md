# commuter-eye: the bus-tracking pipeline in Dafny

commuter-eye is a small web service that answers one question: which buses
on King County Metro route 271 (GTFS `route_id` `100162`) are currently
active, and where are they? Its one piece of logic is in `main.py`:

- `load_trips_data` indexes the GTFS `trips.txt` rows of that route by `trip_id`.
- `load_stops_data` indexes every `stops.txt` row by `stop_id`.
- The loop in `track_buses` walks the GTFS Realtime vehicle-position feed's
  `entity` list. It keeps entities on the route whose trip is loaded and
  resolves their stop name, falling back to `Unknown`. It classifies each
  one as active (trip `SCHEDULED` and report less than ten minutes old) and
  maps `direction_id` to Westbound or Eastbound. It appends the active ones,
  in feed order.

This project models that core as imperative Dafny:

- The two loaders and the loop are methods with loops and invariants.
- Each method is proved equal to a specification function: `TripsOf`,
  `StopsOf`, or `ActiveBuses` built from the per-entity `Project`.
- Lemmas prove what the source promises about those functions.

Python's `KeyError` is modelled as `Err(KeyError(key))`. The `:-` operator
propagates it, so every subscript that can raise in the source can also fail
in the model, in the same order.

Modules:

- `Common` holds `Option`, `Result`, the error and the route constant.
- `Reference` holds the table rows and both loaders.
- `Vehicles` holds the feed document.
- `Pipeline` holds the entity loop and the response element `BusStatus`.
- `Endpoint` holds the request as a whole.

A malformed feed entity is not skipped: any missing field on the read path
raises out of the loop into the handler's `except` (main.py:96-97), so the
whole request fails and no partial list is returned. Where an entity is dropped,
it is dropped because of its route, its trip or its activity, never because
a field is missing. That field must still be present when the entity is on
the route and on a loaded trip, even if it is stale. `RequestFault` and
`StaleReportWithoutLabelFailsRequest` state this.

Every member is a function of its inputs, so the same rows, feed and `now`
always give the same answer. `TrackBuses` is pinned to `Request` by its
postcondition.

## Model

| member | source | states |
|---|---|---|
| `Reference.LoadTripsData` | main.py:28-35 | the loop's result equals `TripsOf(rows)`, including the error when a row lacks a key it reads |
| `Reference.TripsOfStopsAtFault` | main.py:32-34 | once a row raises, later rows cannot change the outcome |
| `Reference.TripsOfFault` | main.py:32-34 | loading fails iff some row lacks `route_id`, or is a route-100162 row without `trip_id`; the error names the key missing from the first such row |
| `Reference.TripsOfContents` | main.py:28-35 | a trip id is a key iff some row of route `100162` carries it; its value is the last such row, so every stored row is on the target route |
| `Reference.LoadStopsData` | main.py:38-44 | the loop's result equals `StopsOf(rows)`, including the error when a row lacks `stop_id` |
| `Reference.StopsOfStopsAtFault` | main.py:42-43 | once a row raises, later rows cannot change the outcome |
| `Reference.StopsOfFault` | main.py:42-43 | loading fails iff some row lacks `stop_id`, and the error is `KeyError("stop_id")` |
| `Reference.StopsOfContents` | main.py:38-44 | a stop id is a key iff some row (no filter) carries it; its value is the last such row |
| `Pipeline.IsActive` | main.py:77-80 | active iff the trip is `SCHEDULED` and the report is less than `window` seconds old; a report from the future is fresh whenever the window is positive |
| `Pipeline.DirectionOf` | main.py:84 | Westbound exactly when `direction_id` is 1, Eastbound for 0 and every other value |
| `Pipeline.ProjectFails` | main.py:69-88 | an entity raises iff a field on its read path is missing: the route path always, `trip_id` on the target route, and on a loaded trip the stop id, relationship, timestamp, label, direction, position, status and the stop row's `stop_name` |
| `Pipeline.ProjectSelects` | main.py:70-92 | an entity that does not raise is appended iff it is on route `100162`, its trip is in the trips map, and it is active |
| `Pipeline.ProjectEmitted` | main.py:74-92 | an appended bus carries the stop row's `stop_name`, or `Unknown` when the stop id is not a key. Its direction is Westbound iff `direction_id` is 1. Label, latitude/longitude, status and timestamp are copied unchanged |
| `Pipeline.ActiveBusesStopsAtFault` | main.py:68-94 | after an entity raises, later entities cannot change the outcome |
| `Pipeline.ActiveBusesFault` | main.py:68-97 | the list is built iff no entity raises; otherwise the error is that of the first raising entity |
| `Pipeline.ActiveBusesSubsequence` | main.py:65-94 | the response is a subsequence of the feed in feed order: strictly increasing positions of entities whose projection is the listed bus, covering every entity not skipped, so its length is at most the entity count |
| `Pipeline.EveryBusQualifies` | main.py:70-92 | every listed bus comes from an entity on the target route, on a loaded trip, that is active |
| `Pipeline.EverySelectedEntityEmitted` | main.py:70-92 | every entity on the target route, on a loaded trip, with all fields present and active, is listed |
| `Pipeline.CollectActiveBuses` | main.py:65-94 | the loop's result equals `ActiveBuses` of the entities, including the first `KeyError` raised |
| `Endpoint.TrackBuses` | main.py:53-94 | the handler's result equals `Request`: the two loaders, the feed's `entity` list, then the loop with a 600-second window, any failure ending the request |
| `Endpoint.RequestFault` | main.py:53-97 | all or nothing: the request succeeds iff both tables load, the feed has `entity`, and no entity misses a field on its read path |
| `Endpoint.FreshReportIsListed` | main.py:68-94 | a scheduled report two minutes old at a known stop yields exactly one bus, with the stop's name |
| `Endpoint.StaleReportIsDropped` | main.py:77-80 | the same report fifteen minutes old yields an empty list |
| `Endpoint.UnknownStopIsListed` | main.py:74 | a qualifying report at a stop missing from the table yields stop `Unknown` |
| `Endpoint.StaleReportWithoutLabelFailsRequest` | main.py:82-97 | a stale report without a label fails the request with `KeyError("label")`, beside a report that would be listed |

## Left out

- `fetch_realtime_data` (main.py:21-25) is network I/O. The fetched feed is an input value. Transport failures, HTTP status errors and JSON parse errors are not modelled.
- Opening the CSV files and `csv.DictReader` parsing are not modelled. Rows are pre-parsed maps, and a missing key means a column absent from the header. A short CSV row, whose missing cells Python fills with `None`, is not modelled.
- The clock is not modelled: `now` is a parameter in whole epoch seconds. Local-time conversion in `datetime.fromtimestamp`, microsecond precision and daylight-saving shifts are left out.
- `lastUpdated` carries the report's epoch second, not the `.isoformat()` text rendered from it.
- Feed fields are typed: strings, integer `direction_id` and `timestamp`, real coordinates. A field of the wrong JSON type is not modelled. Examples: a string timestamp raising `TypeError`, a `true` direction comparing equal to 1, a `null` stop id falling back to `Unknown`. JSON `null` is not distinguished from absence.
- Exceptions other than `KeyError` are not modelled.
- The trip row fetched at main.py:73 is never used by the source and is not modelled.
- The FastAPI application, static files, `FileResponse`, the `HTTPException` with status 500 and its message text, and uvicorn startup are framework plumbing. A failure is modelled only as the `Err` result.
- `static/buses.js` is browser UI and is not part of this model: the Leaflet map, markers, popups, alerts and the polling timer.
