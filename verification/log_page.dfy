/** The decision logic of the log page (frontend/app/log/page.tsx): the
    form schema, the place auto-detection, the choice of the last arrive,
    the arrive-to-exit minute count and the payloads the page posts to
    POST /api/log. Times are integer milliseconds; the distance function is
    a parameter, as in the backend. */
module LogPage {
  import opened Wrappers
  import opened Geofence
  import Backend

  // ---------------------------------------------------------------------
  // Form schema

  /** The form values after input parsing. An absent optional field is None. */
  datatype LogForm = LogForm(
    event: string, lat: real, lon: real,
    place: Option<string>, notes: Option<string>, duration: Option<int>)

  datatype Issue = EventRequired | LatitudeOutOfRange | LongitudeOutOfRange | NegativeDuration

  /** The schema's complaints about a form, in field order. */
  function SchemaIssues(f: LogForm): (issues: seq<Issue>)
    ensures EventRequired in issues <==> f.event == ""
    ensures LatitudeOutOfRange in issues <==> !(-90.0 <= f.lat <= 90.0)
    ensures LongitudeOutOfRange in issues <==> !(-180.0 <= f.lon <= 180.0)
    ensures NegativeDuration in issues <==> f.duration.Some? && f.duration.value < 0
  {
    (if f.event == "" then [EventRequired] else [])
    + (if -90.0 <= f.lat <= 90.0 then [] else [LatitudeOutOfRange])
    + (if -180.0 <= f.lon <= 180.0 then [] else [LongitudeOutOfRange])
    + (if f.duration.Some? && f.duration.value < 0 then [NegativeDuration] else [])
  }

  /** `session_type` of the submitted payload: 'start' for an arrive, 'end'
      for an exit, absent for every other event. */
  function SessionType(event: string): (t: Option<string>)
    ensures t == Some("start") <==> event == "arrive"
    ensures t == Some("end") <==> event == "exit"
    ensures t.None? <==> event != "arrive" && event != "exit"
  {
    if event == "arrive" then Some("start") else if event == "exit" then Some("end") else None
  }

  /** The body `onSubmit` posts: the form fields plus the session type. */
  function SubmitPayload(f: LogForm): (req: Backend.LogRequest)
    ensures req.event == Some(f.event) && req.lat == Some(f.lat) && req.lon == Some(f.lon)
    ensures req.notes == f.notes && req.duration == f.duration && req.place == f.place
    ensures req.source.None?
    ensures req.sessionType == SessionType(f.event)
  {
    Backend.LogRequest(Some(f.event), Some(f.lat), Some(f.lon), f.notes, f.duration, None,
                       f.place, SessionType(f.event))
  }

  /** A form the schema accepts is always stored by the backend, with
      coordinates in range, the mode 'Manual', and its event unchanged. */
  lemma AcceptedFormIsStored(dist: Distance, db: Backend.Db, f: LogForm, lk: Backend.Lookups, now: int)
    requires SchemaIssues(f) == []
    ensures var o := Backend.LogEvent(dist, db, SubmitPayload(f), lk, now);
      && o.result.Success?
      && var row := o.result.value.row;
      && row.event == f.event && row.event != ""
      && -90.0 <= row.lat <= 90.0 && -180.0 <= row.lon <= 180.0
      && row.mode == "Manual"
  {
    assert EventRequired !in SchemaIssues(f);
    assert LatitudeOutOfRange !in SchemaIssues(f);
    assert LongitudeOutOfRange !in SchemaIssues(f);
  }

  // ---------------------------------------------------------------------
  // Place detection

  /** `findMatchingPlace`: the first place in array order whose geofence
      holds the point, or null. */
  function FindMatchingPlace(dist: Distance, lat: real, lon: real, places: seq<Place>): (p: Option<Place>)
    ensures p.Some? ==> exists i: nat :: IsFirstMatch(dist, lat, lon, places, i) && places[i] == p.value
    ensures p.None? <==> forall j :: 0 <= j < |places| ==> !Within(dist, lat, lon, places[j])
  {
    match FirstMatch(dist, lat, lon, places)
    case Some(i) => Some(places[i])
    case None => None
  }

  /** Given one place list in one order and one distance function, the page
      and the backend pick the same place: the page's match carries the name
      the backend reports, and no match on the page is "unknown" in the
      backend. The page loads its places ordered by name and measures with
      atan2; the backend reads them unordered and measures with asin, so the
      two tiers can disagree on overlapping or borderline geofences. */
  lemma FindMatchingPlaceAgreesWithBackend(dist: Distance, lat: real, lon: real, places: seq<Place>)
    ensures var p := FindMatchingPlace(dist, lat, lon, places);
      Backend.PlaceFromLocation(dist, lat, lon, Success(places)) == (if p.Some? then p.value.name else Backend.Unknown)
  {
  }

  /** JavaScript truthiness of a number field: present and non-zero. */
  predicate Truthy(x: Option<real>) {
    x.Some? && x.value != 0.0
  }

  /** The auto-detect effect: with both coordinates truthy and some places
      loaded, the form's place becomes the matched place's id, or '' when
      nothing matches; otherwise the form's place stays as it was. */
  function AutoDetect(dist: Distance, lat: Option<real>, lon: Option<real>, places: seq<Place>, current: string): (place: string)
    ensures !(Truthy(lat) && Truthy(lon) && |places| > 0) ==> place == current
    ensures Truthy(lat) && Truthy(lon) && |places| > 0 ==>
      if forall j :: 0 <= j < |places| ==> !Within(dist, lat.value, lon.value, places[j]) then place == ""
      else exists i: nat :: IsFirstMatch(dist, lat.value, lon.value, places, i) && place == places[i].id
  {
    if Truthy(lat) && Truthy(lon) && |places| > 0 then
      match FindMatchingPlace(dist, lat.value, lon.value, places)
      case Some(p) => p.id
      case None => ""
    else current
  }

  /** A point on the equator or the prime meridian never triggers detection,
      because 0 is falsy. */
  lemma ZeroCoordinateSkipsDetection(dist: Distance, lon: Option<real>, places: seq<Place>, current: string)
    ensures AutoDetect(dist, Some(0.0), lon, places, current) == current
    ensures AutoDetect(dist, lon, Some(0.0), places, current) == current
  {
  }

  // ---------------------------------------------------------------------
  // Last arrive and duration

  /** A log entry as fetched from GET /api/logs, timestamp in milliseconds. */
  datatype LogEntry = LogEntry(event: string, timestamp: int)

  /** The log that filter-then-sort-descending puts first: an 'arrive' with
      the largest timestamp, the earliest such in the list since the sort is
      stable; None when there is no arrive at all. */
  method LastArrive(logs: seq<LogEntry>) returns (k: Option<nat>)
    ensures k.None? <==> forall j :: 0 <= j < |logs| ==> logs[j].event != "arrive"
    ensures k.Some? ==> k.value < |logs| && logs[k.value].event == "arrive"
    ensures k.Some? ==> forall j :: 0 <= j < |logs| && logs[j].event == "arrive" ==>
              logs[j].timestamp <= logs[k.value].timestamp
    ensures k.Some? ==> forall j :: 0 <= j < k.value && logs[j].event == "arrive" ==>
              logs[j].timestamp < logs[k.value].timestamp
  {
    k := None;
    var i := 0;
    while i < |logs|
      invariant 0 <= i <= |logs|
      invariant k.None? <==> forall j :: 0 <= j < i ==> logs[j].event != "arrive"
      invariant k.Some? ==> k.value < i && logs[k.value].event == "arrive"
      invariant k.Some? ==> forall j :: 0 <= j < i && logs[j].event == "arrive" ==>
                  logs[j].timestamp <= logs[k.value].timestamp
      invariant k.Some? ==> forall j :: 0 <= j < k.value && logs[j].event == "arrive" ==>
                  logs[j].timestamp < logs[k.value].timestamp
    {
      if logs[i].event == "arrive" && (k.None? || logs[i].timestamp > logs[k.value].timestamp) {
        k := Some(i);
      }
      i := i + 1;
    }
  }

  const MillisPerMinute := 60_000

  /** `calculateDuration`: `Math.round` of the difference in minutes, which
      rounds halves up and is not clamped. */
  function CalculateDuration(arriveMs: int, exitMs: int): (m: int)
    ensures m * MillisPerMinute - MillisPerMinute / 2 <= exitMs - arriveMs < m * MillisPerMinute + MillisPerMinute / 2
  {
    (exitMs - arriveMs + MillisPerMinute / 2) / MillisPerMinute
  }

  /** An exit more than half a minute before the arrive gives a negative
      count, and only then. */
  lemma CalculateDurationNegative(arriveMs: int, exitMs: int)
    ensures CalculateDuration(arriveMs, exitMs) < 0 <==> exitMs - arriveMs < -MillisPerMinute / 2
  {
  }

  /** The duration field after the event field changes: reset to 0 for any
      event but 'exit', kept for an exit. */
  function DurationAfterEventChange(event: string, duration: Option<int>): (d: Option<int>)
    ensures event != "exit" ==> d == Some(0)
    ensures event == "exit" ==> d == duration
  {
    if event != "exit" then Some(0) else duration
  }

  /** When the reset on choosing the event is the last edit of the duration,
      a non-exit event reaches the backend with duration 0, which the backend
      stores as it is. The duration input stays editable afterwards. */
  lemma NonExitStoresZeroDuration(dist: Distance, db: Backend.Db, f: LogForm, lk: Backend.Lookups, now: int)
    requires f.event != "exit"
    ensures var o := Backend.LogEvent(dist, db, SubmitPayload(f.(duration := DurationAfterEventChange(f.event, f.duration))), lk, now);
      o.result.Success? && o.result.value.row.duration == 0
  {
  }

  // ---------------------------------------------------------------------
  // Confirmation popup

  /** The body `confirmLogEvent` posts. A place picked in the popup wins
      over the detected one; the place name is '' when there is neither or
      when the chosen place has an empty name. */
  function ConfirmPayload(eventType: string, lat: real, lon: real, selected: Option<Place>, detected: Option<Place>): (req: Backend.LogRequest)
    ensures req.event == Some(eventType) && req.lat == Some(lat) && req.lon == Some(lon)
    ensures selected.Some? ==> req.place == Some(selected.value.name)
    ensures selected.None? && detected.Some? ==> req.place == Some(detected.value.name)
    ensures selected.None? && detected.None? ==> req.place == Some("")
    ensures req.duration == Some(0) && req.source.None?
    ensures req.notes == Some(if eventType == "arrive" then "Work session started" else "Work session ended")
    ensures req.sessionType == Some(if eventType == "arrive" then "start" else "end")
  {
    var place := if selected.Some? then selected else detected;
    Backend.LogRequest(
      Some(eventType), Some(lat), Some(lon),
      Some(if eventType == "arrive" then "Work session started" else "Work session ended"),
      Some(0), None,
      Some(if place.Some? && place.value.name != "" then place.value.name else ""),
      Some(if eventType == "arrive" then "start" else "end"))
  }

  /** The place picked in the popup does not reach the database: the backend
      resolves the place from the coordinates alone, so any choice stores
      the same row. */
  lemma ConfirmedPlaceChoiceIsIgnored(dist: Distance, db: Backend.Db, eventType: string, lat: real, lon: real,
                                      s1: Option<Place>, d1: Option<Place>, s2: Option<Place>, d2: Option<Place>,
                                      lk: Backend.Lookups, now: int)
    ensures Backend.LogEvent(dist, db, ConfirmPayload(eventType, lat, lon, s1, d1), lk, now)
         == Backend.LogEvent(dist, db, ConfirmPayload(eventType, lat, lon, s2, d2), lk, now)
  {
    var r1 := ConfirmPayload(eventType, lat, lon, s1, d1);
    var r2 := ConfirmPayload(eventType, lat, lon, s2, d2);
    assert r2 == r1.(place := r2.place, sessionType := r2.sessionType);
    Backend.LogEventIgnoresPlace(dist, db, r1, r2.place, r2.sessionType, lk, now);
  }

  /** A confirmed exit is posted with duration 0, so the backend fills in
      the minutes since the latest arrive. */
  lemma ConfirmedExitGetsBackendDuration(dist: Distance, db: Backend.Db, lat: real, lon: real,
                                         selected: Option<Place>, detected: Option<Place>,
                                         lk: Backend.Lookups, now: int)
    ensures var o := Backend.LogEvent(dist, db, ConfirmPayload("exit", lat, lon, selected, detected), lk, now);
      && o.result.Success?
      && o.result.value.row.duration == Backend.ExitDuration(now, Backend.FetchLatestArrive(db, lk))
  {
  }
}
