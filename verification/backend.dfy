/** The request logic of the Flask backend (backend/app.py) with the
    PostgreSQL tables held in memory as sequences. Each route is a pure
    function from the tables and the request to the new tables and a
    success value or an error; the clock is a parameter (`now`, in
    microseconds) and so is the distance function of the geofence test. */
module Backend {
  import opened Wrappers
  import opened Geofence

  // ---------------------------------------------------------------------
  // Tables and errors

  /** A row of the `logs` table. Timestamps are microseconds. */
  datatype LogRow = LogRow(
    timestamp: int, event: string, lat: real, lon: real,
    placeId: Option<string>, notes: string, duration: int, mode: string)

  /** A row of the `tasks` table. */
  datatype TaskRow = TaskRow(
    id: string, title: string, description: string, status: string,
    createdAt: int, completedAt: Option<int>, priority: string, dueBy: Option<int>)

  /** A row of the `events` table (journal entries). */
  datatype EventRow = EventRow(id: string, title: string, description: string, date: string)

  datatype Db = Db(places: seq<Place>, logs: seq<LogRow>, tasks: seq<TaskRow>, events: seq<EventRow>)

  /** The 400 and 404 answers of the routes modelled here. */
  datatype ApiError =
    | MissingField(field: string)
    | InvalidEvent
    | InvalidCoordinates
    | PlaceExists(name: string)
    | NoFieldsToUpdate
    | NotFound

  /** A database call that raised. */
  datatype DbError = DbError

  /** The tables after a request together with its answer; a failed
      request leaves the tables as they were. */
  datatype Outcome<T> = Outcome(db: Db, result: Result<T, ApiError>)

  /** Which of the two lookups whose exceptions the log routes catch
      raised: reading the places for the geofence test, and reading the
      latest arrive for an exit. */
  datatype Lookups = Lookups(placesFailed: bool, arriveFailed: bool)

  const Healthy := Lookups(false, false)

  const Unknown := "unknown"
  const MicrosPerMinute := 60_000_000

  // ---------------------------------------------------------------------
  // Place resolution

  /** `get_place_from_location`: the name of the first place whose geofence
      holds the point, "unknown" when none does, and "unknown" when reading
      the places raised. */
  function PlaceFromLocation(dist: Distance, lat: real, lon: real, fetched: Result<seq<Place>, DbError>): (name: string)
    ensures fetched.Failure? ==> name == Unknown
    ensures (fetched.Success? && forall j :: 0 <= j < |fetched.value| ==> !Within(dist, lat, lon, fetched.value[j]))
              ==> name == Unknown
    ensures fetched.Success? ==> forall i: nat :: IsFirstMatch(dist, lat, lon, fetched.value, i) ==> name == fetched.value[i].name
  {
    match fetched
    case Failure(_) => Unknown
    case Success(places) =>
      match FirstMatch(dist, lat, lon, places)
      case Some(i) =>
        FirstMatchExactly(dist, lat, lon, places, i);
        places[i].name
      case None => Unknown
  }

  /** `SELECT id FROM places WHERE name = %s`, first row. */
  function PlaceIdByName(places: seq<Place>, name: string): (id: Option<string>)
    ensures id.None? <==> forall j :: 0 <= j < |places| ==> places[j].name != name
    ensures id.Some? ==> exists j :: 0 <= j < |places| && places[j].name == name && places[j].id == id.value
  {
    if |places| == 0 then None
    else if places[0].name == name then Some(places[0].id)
    else
      var r := PlaceIdByName(places[1..], name);
      assert forall j :: 1 <= j < |places| ==> places[j] == places[1..][j - 1];
      r
  }

  predicate UniqueNames(places: seq<Place>) {
    forall i, j :: 0 <= i < j < |places| ==> places[i].name != places[j].name
  }

  /** The `place_id` stored with a log: the id of the place carrying the
      reported name, looked up only when that name is not "unknown". */
  function StoredPlaceId(places: seq<Place>, placeName: string): (id: Option<string>)
    ensures placeName == Unknown ==> id.None?
    ensures placeName != Unknown ==> id == PlaceIdByName(places, placeName)
  {
    if placeName != Unknown then PlaceIdByName(places, placeName) else None
  }

  // ---------------------------------------------------------------------
  // Exit duration

  /** Python's `int()` of a quotient: division truncated toward zero. */
  function TruncDiv(a: int, b: int): (q: int)
    requires b > 0
    ensures a >= 0 ==> q * b <= a < (q + 1) * b
    ensures a < 0 ==> (q - 1) * b < a <= q * b
  {
    if a >= 0 then a / b else -((-a) / b)
  }

  /** `SELECT timestamp FROM logs WHERE event = 'arrive' ORDER BY timestamp
      DESC LIMIT 1`: the latest arrive timestamp. */
  function LatestArrive(logs: seq<LogRow>): (t: Option<int>)
    ensures t.None? <==> forall j :: 0 <= j < |logs| ==> logs[j].event != "arrive"
    ensures t.Some? ==> exists j :: 0 <= j < |logs| && logs[j].event == "arrive" && logs[j].timestamp == t.value
    ensures t.Some? ==> forall j :: 0 <= j < |logs| && logs[j].event == "arrive" ==> logs[j].timestamp <= t.value
  {
    if |logs| == 0 then None
    else
      var rest := LatestArrive(logs[1..]);
      assert forall j :: 1 <= j < |logs| ==> logs[j] == logs[1..][j - 1];
      if logs[0].event != "arrive" then rest
      else if rest.Some? && rest.value > logs[0].timestamp then rest
      else Some(logs[0].timestamp)
  }

  /** The places as `get_place_from_location` reads them. */
  function FetchPlaces(db: Db, lk: Lookups): (r: Result<seq<Place>, DbError>)
    ensures r.Failure? <==> lk.placesFailed
    ensures r.Success? ==> r.value == db.places
  {
    if lk.placesFailed then Failure(DbError) else Success(db.places)
  }

  /** The latest arrive as the exit-duration query reads it. */
  function FetchLatestArrive(db: Db, lk: Lookups): (r: Result<Option<int>, DbError>)
    ensures r.Failure? <==> lk.arriveFailed
    ensures r.Success? ==> r.value == LatestArrive(db.logs)
  {
    if lk.arriveFailed then Failure(DbError) else Success(LatestArrive(db.logs))
  }

  /** Minutes since the latest arrive: whole minutes, truncated, and never
      below zero. Without an arrive, or when the lookup raised, it is 0. */
  function ExitDuration(now: int, lastArrive: Result<Option<int>, DbError>): (m: int)
    ensures m >= 0
    ensures lastArrive.Failure? || lastArrive == Success(None) ==> m == 0
    ensures forall t :: lastArrive == Success(Some(t)) && now - t >= 0 ==>
              m * MicrosPerMinute <= now - t < (m + 1) * MicrosPerMinute
    ensures forall t :: lastArrive == Success(Some(t)) && now - t < MicrosPerMinute ==> m == 0
  {
    match lastArrive
    case Failure(_) => 0
    case Success(None) => 0
    case Success(Some(t)) =>
      var m := TruncDiv(now - t, MicrosPerMinute);
      if m < 0 then 0 else m
  }

  // ---------------------------------------------------------------------
  // POST /api/log

  /** The JSON body of POST /api/log; an absent key is None. The frontend
      also sends `place` and `session_type`. */
  datatype LogRequest = LogRequest(
    event: Option<string>, lat: Option<real>, lon: Option<real>,
    notes: Option<string>, duration: Option<int>, source: Option<string>,
    place: Option<string>, sessionType: Option<string>)

  /** A logged event: the inserted row and the place name reported back. */
  datatype Logged = Logged(row: LogRow, place: string)

  function ModeFor(source: string): (mode: string)
    ensures mode == "iPhone" <==> source == "iphone"
    ensures mode != "iPhone" ==> mode == "Manual"
  {
    if source == "iphone" then "iPhone" else "Manual"
  }

  /** The first required field (event, lat, lon) that is absent. */
  function MissingLogField(req: LogRequest): Option<string> {
    if req.event.None? then Some("event")
    else if req.lat.None? then Some("lat")
    else if req.lon.None? then Some("lon")
    else None
  }

  /** POST /api/log: resolves the place, fills the defaults, computes the
      duration of an exit logged with duration 0, and appends one row. */
  function LogEvent(dist: Distance, db: Db, req: LogRequest, lk: Lookups, now: int): (o: Outcome<Logged>)
    ensures o.result.Failure? ==> o.db == db
    ensures o.result.Failure? <==> req.event.None? || req.lat.None? || req.lon.None?
    ensures o.result.Failure? ==> o.result.error == MissingField(MissingLogField(req).value)
    ensures o.result.Success? ==>
      var row := o.result.value.row;
      && o.db == db.(logs := db.logs + [row])
      && row.timestamp == now
      && row.event == req.event.value && row.lat == req.lat.value && row.lon == req.lon.value
      && row.notes == req.notes.GetOr("")
      && row.mode == ModeFor(req.source.GetOr("manual"))
      && o.result.value.place == PlaceFromLocation(dist, row.lat, row.lon, FetchPlaces(db, lk))
      && row.placeId == StoredPlaceId(db.places, o.result.value.place)
      && ((row.event == "exit" && req.duration.GetOr(0) == 0)
            ==> row.duration == ExitDuration(now, FetchLatestArrive(db, lk)))
      && (row.event != "exit" || req.duration.GetOr(0) != 0 ==> row.duration == req.duration.GetOr(0))
  {
    match MissingLogField(req)
    case Some(f) => Outcome(db, Failure(MissingField(f)))
    case None =>
      var event := req.event.value;
      var lat := req.lat.value;
      var lon := req.lon.value;
      var supplied := req.duration.GetOr(0);
      var placeName := PlaceFromLocation(dist, lat, lon, FetchPlaces(db, lk));
      var duration :=
        if event == "exit" && supplied == 0 then ExitDuration(now, FetchLatestArrive(db, lk))
        else supplied;
      var row := LogRow(now, event, lat, lon, StoredPlaceId(db.places, placeName), req.notes.GetOr(""), duration,
                        ModeFor(req.source.GetOr("manual")));
      Outcome(db.(logs := db.logs + [row]), Success(Logged(row, placeName)))
  }

  /** The backend reads neither `place` nor `session_type` from the body:
      a place picked by hand on the log page does not reach the stored row. */
  lemma LogEventIgnoresPlace(dist: Distance, db: Db, req: LogRequest, place: Option<string>, sessionType: Option<string>,
                             lk: Lookups, now: int)
    ensures LogEvent(dist, db, req.(place := place, sessionType := sessionType), lk, now) == LogEvent(dist, db, req, lk, now)
  {
  }

  /** With distinct place names (which AddPlace maintains) a logged point
      inside a geofence is stored with the id of the first place holding
      it, unless that place is itself named "unknown". */
  lemma PlaceIdOfMatch(dist: Distance, db: Db, req: LogRequest, now: int, i: nat)
    requires req.event.Some? && req.lat.Some? && req.lon.Some?
    requires UniqueNames(db.places)
    requires IsFirstMatch(dist, req.lat.value, req.lon.value, db.places, i)
    requires db.places[i].name != Unknown
    ensures LogEvent(dist, db, req, Healthy, now).result.value.row.placeId == Some(db.places[i].id)
  {
    var id := PlaceIdByName(db.places, db.places[i].name);
    var j :| 0 <= j < |db.places| && db.places[j].name == db.places[i].name && db.places[j].id == id.value;
    assert j == i;
  }

  /** A point no geofence holds, or a failed read of the places, stores
      the log without a place. */
  lemma NoMatchStoresNoPlace(dist: Distance, db: Db, req: LogRequest, lk: Lookups, now: int)
    requires req.event.Some? && req.lat.Some? && req.lon.Some?
    requires lk.placesFailed || forall j :: 0 <= j < |db.places| ==> !Within(dist, req.lat.value, req.lon.value, db.places[j])
    ensures LogEvent(dist, db, req, lk, now).result.value.row.placeId.None?
    ensures LogEvent(dist, db, req, lk, now).result.value.place == Unknown
  {
  }

  // ---------------------------------------------------------------------
  // GET/POST /api/<event>/<lat>/<lon>

  /** The URL route for phone automation. `lat` and `lon` are the results
      of `float()` on the path segments (None when it raised; the NaN and
      infinities it accepts have no `real` and are not modelled); `fixed4`
      renders a coordinate with four decimals. */
  function LogViaUrl(dist: Distance, db: Db, event: string, lat: Option<real>, lon: Option<real>,
                     fixed4: real -> string, lk: Lookups, now: int): (o: Outcome<Logged>)
    ensures event != "arrive" && event != "exit" ==> o == Outcome(db, Failure(InvalidEvent))
    ensures ((event == "arrive" || event == "exit") && (lat.None? || lon.None?))
              ==> o == Outcome(db, Failure(InvalidCoordinates))
    ensures o.result.Success? <==> (event == "arrive" || event == "exit") && lat.Some? && lon.Some?
    ensures o.result.Success? ==>
      var row := o.result.value.row;
      var place := o.result.value.place;
      && o.db == db.(logs := db.logs + [row])
      && place == PlaceFromLocation(dist, lat.value, lon.value, FetchPlaces(db, lk))
      && row.timestamp == now && row.event == event && row.lat == lat.value && row.lon == lon.value
      && row.placeId == StoredPlaceId(db.places, place)
      && row.notes == AutomatedNotes(event, place, fixed4(lat.value), fixed4(lon.value))
      && row.mode == "iPhone"
      && (event == "arrive" ==> row.duration == 0)
      && (event == "exit" ==> row.duration == ExitDuration(now, FetchLatestArrive(db, lk)))
  {
    if event != "arrive" && event != "exit" then Outcome(db, Failure(InvalidEvent))
    else if lat.None? || lon.None? then Outcome(db, Failure(InvalidCoordinates))
    else
      var placeName := PlaceFromLocation(dist, lat.value, lon.value, FetchPlaces(db, lk));
      var duration := if event == "exit" then ExitDuration(now, FetchLatestArrive(db, lk)) else 0;
      var notes := AutomatedNotes(event, placeName, fixed4(lat.value), fixed4(lon.value));
      var row := LogRow(now, event, lat.value, lon.value, StoredPlaceId(db.places, placeName), notes, duration, "iPhone");
      Outcome(db.(logs := db.logs + [row]), Success(Logged(row, placeName)))
  }

  /** The notes the URL route writes: the place name when one matched,
      otherwise the coordinates separated by ", ". */
  function AutomatedNotes(event: string, placeName: string, latText: string, lonText: string): (notes: string)
    ensures placeName != "" && placeName != Unknown ==> notes == "Automated " + event + " at " + placeName
    ensures placeName == "" || placeName == Unknown ==> notes == "Automated " + event + " at " + latText + ", " + lonText
  {
    if placeName != "" && placeName != Unknown then "Automated " + event + " at " + placeName
    else "Automated " + event + " at " + latText + ", " + lonText
  }

  // ---------------------------------------------------------------------
  // POST /api/places

  /** The JSON body of POST /api/places. */
  datatype PlaceRequest = PlaceRequest(
    name: Option<string>, lat: Option<real>, lon: Option<real>,
    radius: Option<real>, kind: Option<string>)

  /** Python's `int()` on a number: truncation toward zero. */
  function Truncate(x: real): (n: int)
    ensures x >= 0.0 ==> n as real <= x < n as real + 1.0
    ensures x < 0.0 ==> n as real - 1.0 < x <= n as real
  {
    if x >= 0.0 then x.Floor else -((-x).Floor)
  }

  function MissingPlaceField(req: PlaceRequest): Option<string> {
    if req.name.None? then Some("name")
    else if req.lat.None? then Some("lat")
    else if req.lon.None? then Some("lon")
    else if req.radius.None? then Some("geofence_radius")
    else None
  }

  /** POST /api/places: rejects a missing field or a name already in the
      registry; otherwise appends a place whose id is its name, whose radius
      is truncated to whole metres and whose type defaults to "custom". */
  function AddPlace(db: Db, req: PlaceRequest): (o: Outcome<Place>)
    ensures o.result.Failure? ==> o.db == db
    ensures MissingPlaceField(req).Some? ==> o.result == Failure(MissingField(MissingPlaceField(req).value))
    ensures MissingPlaceField(req).None? ==>
              (o.result.Failure? <==> exists j :: 0 <= j < |db.places| && db.places[j].name == req.name.value)
    ensures o.result.Failure? && MissingPlaceField(req).None? ==> o.result.error == PlaceExists(req.name.value)
    ensures o.result.Success? ==>
      var p := o.result.value;
      && o.db == db.(places := db.places + [p])
      && p.id == req.name.value && p.name == req.name.value
      && p.lat == req.lat.value && p.lon == req.lon.value
      && p.radius == Truncate(req.radius.value) as real
      && p.kind == req.kind.GetOr("custom")
  {
    match MissingPlaceField(req)
    case Some(f) => Outcome(db, Failure(MissingField(f)))
    case None =>
      var name := req.name.value;
      if PlaceIdByName(db.places, name).Some? then Outcome(db, Failure(PlaceExists(name)))
      else
        var p := Place(name, name, req.lat.value, req.lon.value,
                       Truncate(req.radius.value) as real, req.kind.GetOr("custom"));
        Outcome(db.(places := db.places + [p]), Success(p))
  }

  /** Adding places keeps every name distinct. */
  lemma AddPlaceKeepsNamesUnique(db: Db, req: PlaceRequest)
    requires UniqueNames(db.places)
    ensures UniqueNames(AddPlace(db, req).db.places)
  {
  }

  // ---------------------------------------------------------------------
  // PUT /api/tasks/<id> and PUT /api/events/<id>

  datatype Column = Status | CompletedAt | Title | Description | Priority | Date

  datatype Value = Text(text: string) | Time(time: int) | Null

  /** One `column = %s` item of the generated UPDATE with its parameter. */
  datatype Assignment = Assign(column: Column, value: Value)

  /** The JSON body of PUT /api/tasks/<id>; an absent key is None. */
  datatype TaskPatch = TaskPatch(status: Option<string>, title: Option<string>,
                                 description: Option<string>, priority: Option<string>)

  /** The JSON body of PUT /api/events/<id>. */
  datatype EventPatch = EventPatch(title: Option<string>, description: Option<string>, date: Option<string>)

  function TextAssign(column: Column, v: Option<string>): seq<Assignment> {
    if v.Some? then [Assign(column, Text(v.value))] else []
  }

  function Columns(a: seq<Assignment>): (cs: seq<Column>)
    ensures |cs| == |a| && forall i :: 0 <= i < |a| ==> cs[i] == a[i].column
  {
    if |a| == 0 then [] else [a[0].column] + Columns(a[1..])
  }

  /** Some item of the SET list assigns the column. */
  predicate Mentions(a: seq<Assignment>, c: Column) {
    c in Columns(a)
  }

  /** The two items a new status brings: the status and its completion
      time, set now for "completed" and cleared otherwise. */
  function StatusAssign(status: Option<string>, now: int): seq<Assignment> {
    if status.Some? then
      [Assign(Status, Text(status.value)),
       Assign(CompletedAt, if status.value == "completed" then Time(now) else Null)]
    else []
  }

  lemma StatusAssignShape(status: Option<string>, now: int)
    ensures Columns(StatusAssign(status, now)) == if status.Some? then [Status, CompletedAt] else []
  {
  }

  lemma TextAssignShape(column: Column, v: Option<string>)
    ensures Columns(TextAssign(column, v)) == if v.Some? then [column] else []
  {
  }

  lemma ColumnsConcat(a: seq<Assignment>, b: seq<Assignment>)
    ensures Columns(a + b) == Columns(a) + Columns(b)
  {
    assert forall i :: 0 <= i < |a| ==> (a + b)[i] == a[i];
    assert forall i :: |a| <= i < |a + b| ==> (a + b)[i] == b[i - |a|];
  }

  /** The SET list built by `update_task`: the status with its completion
      time, then title, description and priority, each only when sent. */
  function TaskAssignments(p: TaskPatch, now: int): (a: seq<Assignment>)
    ensures |a| == 0 <==> p == TaskPatch(None, None, None, None)
  {
    StatusAssign(p.status, now) + TextAssign(Title, p.title) + TextAssign(Description, p.description)
      + TextAssign(Priority, p.priority)
  }

  /** The columns of the SET list, in order: status and completed_at when a
      status is sent, then title, description and priority, each only when
      sent and each once. */
  lemma TaskColumns(p: TaskPatch, now: int)
    ensures Columns(TaskAssignments(p, now))
      == (if p.status.Some? then [Status, CompletedAt] else []) + (if p.title.Some? then [Title] else [])
       + (if p.description.Some? then [Description] else []) + (if p.priority.Some? then [Priority] else [])
  {
    var status := StatusAssign(p.status, now);
    var t, d, r := TextAssign(Title, p.title), TextAssign(Description, p.description), TextAssign(Priority, p.priority);
    assert TaskAssignments(p, now) == status + t + d + r;
    StatusAssignShape(p.status, now);
    TextAssignShape(Title, p.title);
    TextAssignShape(Description, p.description);
    TextAssignShape(Priority, p.priority);
    ColumnsConcat(status, t);
    ColumnsConcat(status + t, d);
    ColumnsConcat(status + t + d, r);
  }

  lemma InSentColumns(cs: seq<Column>, s: bool, t: bool, d: bool, r: bool)
    requires cs == (if s then [Status, CompletedAt] else []) + (if t then [Title] else [])
      + (if d then [Description] else []) + (if r then [Priority] else [])
    ensures (Status in cs <==> s) && (CompletedAt in cs <==> s) && (Title in cs <==> t)
    ensures (Description in cs <==> d) && (Priority in cs <==> r) && Date !in cs
  {
  }

  /** A column is assigned exactly when its field is sent (completed_at
      with the status); the date never is. */
  lemma TaskMentions(p: TaskPatch, now: int)
    ensures Mentions(TaskAssignments(p, now), Status) <==> p.status.Some?
    ensures Mentions(TaskAssignments(p, now), CompletedAt) <==> p.status.Some?
    ensures Mentions(TaskAssignments(p, now), Title) <==> p.title.Some?
    ensures Mentions(TaskAssignments(p, now), Description) <==> p.description.Some?
    ensures Mentions(TaskAssignments(p, now), Priority) <==> p.priority.Some?
    ensures !Mentions(TaskAssignments(p, now), Date)
  {
    TaskColumns(p, now);
    InSentColumns(Columns(TaskAssignments(p, now)), p.status.Some?, p.title.Some?, p.description.Some?, p.priority.Some?);
  }

  /** The SET list built by `update_event`: title, description and date,
      each only when sent. */
  function EventAssignments(p: EventPatch): (a: seq<Assignment>)
    ensures |a| == 0 <==> p == EventPatch(None, None, None)
  {
    TextAssign(Title, p.title) + TextAssign(Description, p.description) + TextAssign(Date, p.date)
  }

  /** The columns of the SET list, in order: title, description and date,
      each only when sent and each once. */
  lemma EventColumns(p: EventPatch)
    ensures Columns(EventAssignments(p))
      == (if p.title.Some? then [Title] else []) + (if p.description.Some? then [Description] else [])
       + (if p.date.Some? then [Date] else [])
  {
    var t, d, e := TextAssign(Title, p.title), TextAssign(Description, p.description), TextAssign(Date, p.date);
    assert EventAssignments(p) == t + d + e;
    TextAssignShape(Title, p.title);
    TextAssignShape(Description, p.description);
    TextAssignShape(Date, p.date);
    ColumnsConcat(t, d);
    ColumnsConcat(t + d, e);
  }

  lemma InEventColumns(cs: seq<Column>, t: bool, d: bool, e: bool)
    requires cs == (if t then [Title] else []) + (if d then [Description] else []) + (if e then [Date] else [])
    ensures (Title in cs <==> t) && (Description in cs <==> d) && (Date in cs <==> e)
    ensures Status !in cs && CompletedAt !in cs && Priority !in cs
  {
  }

  /** A column is assigned exactly when its field is sent; the task-only
      columns never are. */
  lemma EventMentions(p: EventPatch)
    ensures Mentions(EventAssignments(p), Title) <==> p.title.Some?
    ensures Mentions(EventAssignments(p), Description) <==> p.description.Some?
    ensures Mentions(EventAssignments(p), Date) <==> p.date.Some?
    ensures !Mentions(EventAssignments(p), Status) && !Mentions(EventAssignments(p), CompletedAt)
    ensures !Mentions(EventAssignments(p), Priority)
  {
    EventColumns(p);
    InEventColumns(Columns(EventAssignments(p)), p.title.Some?, p.description.Some?, p.date.Some?);
  }

  /** Executes the SET list on one task row. */
  function ApplyToTask(t: TaskRow, a: seq<Assignment>): TaskRow
    decreases |a|
  {
    if |a| == 0 then t
    else
      var u :=
        match a[0]
        case Assign(Status, Text(s)) => t.(status := s)
        case Assign(CompletedAt, Time(c)) => t.(completedAt := Some(c))
        case Assign(CompletedAt, Null) => t.(completedAt := None)
        case Assign(Title, Text(s)) => t.(title := s)
        case Assign(Description, Text(s)) => t.(description := s)
        case Assign(Priority, Text(s)) => t.(priority := s)
        case _ => t;
      ApplyToTask(u, a[1..])
  }

  function ApplyToEvent(e: EventRow, a: seq<Assignment>): EventRow
    decreases |a|
  {
    if |a| == 0 then e
    else
      var u :=
        match a[0]
        case Assign(Title, Text(s)) => e.(title := s)
        case Assign(Description, Text(s)) => e.(description := s)
        case Assign(Date, Text(s)) => e.(date := s)
        case _ => e;
      ApplyToEvent(u, a[1..])
  }

  /** What a task update means, field by field: present fields replace the
      old values, a status change sets completed_at to now for "completed"
      and clears it otherwise, and absent fields keep their values. */
  function PatchedTask(t: TaskRow, p: TaskPatch, now: int): TaskRow {
    TaskRow(
      t.id,
      p.title.GetOr(t.title),
      p.description.GetOr(t.description),
      p.status.GetOr(t.status),
      t.createdAt,
      if p.status.None? then t.completedAt
      else if p.status.value == "completed" then Some(now) else None,
      p.priority.GetOr(t.priority),
      t.dueBy)
  }

  lemma ApplyAppend(t: TaskRow, a: seq<Assignment>, b: seq<Assignment>)
    ensures ApplyToTask(t, a + b) == ApplyToTask(ApplyToTask(t, a), b)
    decreases |a|
  {
    if |a| > 0 {
      assert (a + b)[0] == a[0];
      assert (a + b)[1..] == a[1..] + b;
    } else {
      assert a + b == b;
    }
  }

  /** Executing the generated SET list gives the field-by-field meaning. */
  lemma TaskAssignmentsMeaning(t: TaskRow, p: TaskPatch, now: int)
    ensures ApplyToTask(t, TaskAssignments(p, now)) == PatchedTask(t, p, now)
  {
    var status :=
      if p.status.Some? then
        [Assign(Status, Text(p.status.value)),
         Assign(CompletedAt, if p.status.value == "completed" then Time(now) else Null)]
      else [];
    var ti := TextAssign(Title, p.title);
    var de := TextAssign(Description, p.description);
    var pr := TextAssign(Priority, p.priority);
    if p.status.Some? {
      var c := if p.status.value == "completed" then Time(now) else Null;
      assert status[1..] == [Assign(CompletedAt, c)];
      var u := t.(status := p.status.value);
      assert ApplyToTask(t, status) == ApplyToTask(u, [Assign(CompletedAt, c)]);
      assert [Assign(CompletedAt, c)][1..] == [];
      if c == Null {
        assert ApplyToTask(u, [Assign(CompletedAt, c)]) == ApplyToTask(u.(completedAt := None), []);
      } else {
        assert ApplyToTask(u, [Assign(CompletedAt, c)]) == ApplyToTask(u.(completedAt := Some(now)), []);
      }
    }
    ApplyAppend(t, status + ti + de, pr);
    ApplyAppend(t, status + ti, de);
    ApplyAppend(t, status, ti);
    var t1 := ApplyToTask(t, status);
    assert t1 == t.(status := p.status.GetOr(t.status), completedAt := PatchedTask(t, p, now).completedAt);
    var t2 := ApplyToTask(t1, ti);
    assert t2 == t1.(title := p.title.GetOr(t.title));
    var t3 := ApplyToTask(t2, de);
    assert t3 == t2.(description := p.description.GetOr(t.description));
    assert ApplyToTask(t3, pr) == t3.(priority := p.priority.GetOr(t.priority));
  }

  function PatchedEvent(e: EventRow, p: EventPatch): EventRow {
    EventRow(e.id, p.title.GetOr(e.title), p.description.GetOr(e.description), p.date.GetOr(e.date))
  }

  lemma ApplyEventAppend(e: EventRow, a: seq<Assignment>, b: seq<Assignment>)
    ensures ApplyToEvent(e, a + b) == ApplyToEvent(ApplyToEvent(e, a), b)
    decreases |a|
  {
    if |a| > 0 {
      assert (a + b)[0] == a[0];
      assert (a + b)[1..] == a[1..] + b;
    } else {
      assert a + b == b;
    }
  }

  lemma EventAssignmentsMeaning(e: EventRow, p: EventPatch)
    ensures ApplyToEvent(e, EventAssignments(p)) == PatchedEvent(e, p)
  {
    var ti := TextAssign(Title, p.title);
    var de := TextAssign(Description, p.description);
    var da := TextAssign(Date, p.date);
    ApplyEventAppend(e, ti + de, da);
    ApplyEventAppend(e, ti, de);
  }

  function UpdateTaskRows(tasks: seq<TaskRow>, id: string, a: seq<Assignment>): (r: seq<TaskRow>)
    ensures |r| == |tasks|
    ensures forall i :: 0 <= i < |tasks| ==>
              r[i] == if tasks[i].id == id then ApplyToTask(tasks[i], a) else tasks[i]
  {
    if |tasks| == 0 then []
    else [if tasks[0].id == id then ApplyToTask(tasks[0], a) else tasks[0]] + UpdateTaskRows(tasks[1..], id, a)
  }

  function UpdateEventRows(events: seq<EventRow>, id: string, a: seq<Assignment>): (r: seq<EventRow>)
    ensures |r| == |events|
    ensures forall i :: 0 <= i < |events| ==>
              r[i] == if events[i].id == id then ApplyToEvent(events[i], a) else events[i]
  {
    if |events| == 0 then []
    else [if events[0].id == id then ApplyToEvent(events[0], a) else events[0]] + UpdateEventRows(events[1..], id, a)
  }

  lemma PatchedTaskRows(tasks: seq<TaskRow>, id: string, p: TaskPatch, now: int)
    ensures var r := UpdateTaskRows(tasks, id, TaskAssignments(p, now));
      forall i :: 0 <= i < |tasks| && tasks[i].id == id ==> r[i] == PatchedTask(tasks[i], p, now)
  {
    forall i | 0 <= i < |tasks| && tasks[i].id == id
      ensures UpdateTaskRows(tasks, id, TaskAssignments(p, now))[i] == PatchedTask(tasks[i], p, now)
    {
      TaskAssignmentsMeaning(tasks[i], p, now);
    }
  }

  lemma PatchedEventRows(events: seq<EventRow>, id: string, p: EventPatch)
    ensures var r := UpdateEventRows(events, id, EventAssignments(p));
      forall i :: 0 <= i < |events| && events[i].id == id ==> r[i] == PatchedEvent(events[i], p)
  {
    forall i | 0 <= i < |events| && events[i].id == id
      ensures UpdateEventRows(events, id, EventAssignments(p))[i] == PatchedEvent(events[i], p)
    {
      EventAssignmentsMeaning(events[i], p);
    }
  }

  /** PUT /api/tasks/<id>: "No fields to update" when the body names none
      of status, title, description, priority; 404 when no row has the id;
      otherwise every row with the id gets the patch and nothing else
      changes. */
  function UpdateTask(db: Db, id: string, p: TaskPatch, now: int): (o: Outcome<()>)
    ensures o.result.Failure? ==> o.db == db
    ensures p == TaskPatch(None, None, None, None) ==> o.result == Failure(NoFieldsToUpdate)
    ensures (p != TaskPatch(None, None, None, None) && forall j :: 0 <= j < |db.tasks| ==> db.tasks[j].id != id)
              ==> o.result == Failure(NotFound)
    ensures (p != TaskPatch(None, None, None, None) && exists j :: 0 <= j < |db.tasks| && db.tasks[j].id == id)
              ==> o.result.Success?
    ensures o.result.Success? ==>
      && o.db.places == db.places && o.db.logs == db.logs && o.db.events == db.events
      && |o.db.tasks| == |db.tasks|
      && forall i :: 0 <= i < |db.tasks| ==>
           o.db.tasks[i] == if db.tasks[i].id == id then PatchedTask(db.tasks[i], p, now) else db.tasks[i]
  {
    var a := TaskAssignments(p, now);
    if |a| == 0 then Outcome(db, Failure(NoFieldsToUpdate))
    else if forall j :: 0 <= j < |db.tasks| ==> db.tasks[j].id != id then Outcome(db, Failure(NotFound))
    else
      PatchedTaskRows(db.tasks, id, p, now);
      Outcome(db.(tasks := UpdateTaskRows(db.tasks, id, a)), Success(()))
  }

  /** PUT /api/events/<id>, the same pattern over title, description and
      date. */
  function UpdateEvent(db: Db, id: string, p: EventPatch): (o: Outcome<()>)
    ensures o.result.Failure? ==> o.db == db
    ensures p == EventPatch(None, None, None) ==> o.result == Failure(NoFieldsToUpdate)
    ensures (p != EventPatch(None, None, None) && forall j :: 0 <= j < |db.events| ==> db.events[j].id != id)
              ==> o.result == Failure(NotFound)
    ensures (p != EventPatch(None, None, None) && exists j :: 0 <= j < |db.events| && db.events[j].id == id)
              ==> o.result.Success?
    ensures o.result.Success? ==>
      && o.db.places == db.places && o.db.logs == db.logs && o.db.tasks == db.tasks
      && |o.db.events| == |db.events|
      && forall i :: 0 <= i < |db.events| ==>
           o.db.events[i] == if db.events[i].id == id then PatchedEvent(db.events[i], p) else db.events[i]
  {
    var a := EventAssignments(p);
    if |a| == 0 then Outcome(db, Failure(NoFieldsToUpdate))
    else if forall j :: 0 <= j < |db.events| ==> db.events[j].id != id then Outcome(db, Failure(NotFound))
    else
      PatchedEventRows(db.events, id, p);
      Outcome(db.(events := UpdateEventRows(db.events, id, a)), Success(()))
  }
}
