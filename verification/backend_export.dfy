/** The read side of the `logs` table in backend/app.py: the JSON view of
    GET /api/logs with its defaults, and the CSV file of
    GET /api/export?type=logs. Date and number rendering (`isoformat`,
    `str` of a float) are parameters. */
module BackendExport {
  import opened Wrappers
  import opened Strings
  import Csv
  import opened Geofence
  import opened Backend

  /** A row of `logs LEFT JOIN places ON l.place_id = p.id`; the nullable
      columns are options. */
  datatype JoinedLog = JoinedLog(
    timestamp: Option<int>, event: string, lat: real, lon: real,
    placeName: Option<string>, notes: Option<string>, duration: Option<int>, mode: Option<string>)

  /** The name of the place with the given id, if there is one. */
  function PlaceNameById(places: seq<Place>, id: string): (name: Option<string>)
    ensures name.None? <==> forall j :: 0 <= j < |places| ==> places[j].id != id
    ensures name.Some? ==> exists j :: 0 <= j < |places| && places[j].id == id && places[j].name == name.value
  {
    var ids := seq(|places|, j requires 0 <= j < |places| => places[j].id);
    if id in ids then
      var k := IndexOf(ids, id);
      Some(places[k].name)
    else
      assert forall j :: 0 <= j < |places| ==> ids[j] == places[j].id;
      None
  }

  function JoinLog(row: LogRow, places: seq<Place>): JoinedLog {
    JoinedLog(Some(row.timestamp), row.event, row.lat, row.lon,
              if row.placeId.Some? then PlaceNameById(places, row.placeId.value) else None,
              Some(row.notes), Some(row.duration), Some(row.mode))
  }

  /** `v if v else default` for a text column: NULL and '' both fall back. */
  function TextOr(v: Option<string>, default: string): (r: string)
    ensures v.Some? && v.value != "" ==> r == v.value
    ensures v.None? || v.value == "" ==> r == default
  {
    if v.Some? && v.value != "" then v.value else default
  }

  /** One entry of the `logs` list returned by GET /api/logs. */
  datatype LogView = LogView(
    timestamp: Option<int>, event: string, lat: real, lon: real,
    place: string, notes: string, duration: int, mode: string)

  /** The defaults of GET /api/logs: place 'unknown', notes '', duration 0,
      mode 'Manual'. */
  function ViewOf(l: JoinedLog): (v: LogView)
    ensures v.place != "" && v.mode != ""
    ensures v.timestamp == l.timestamp && v.event == l.event && v.lat == l.lat && v.lon == l.lon
    ensures v.place == Unknown <==> l.placeName.None? || l.placeName.value in {"", Unknown}
    ensures v.place == TextOr(l.placeName, Unknown)
    ensures v.notes == TextOr(l.notes, "")
    ensures v.mode == TextOr(l.mode, "Manual")
    ensures v.duration == l.duration.GetOr(0)
  {
    LogView(l.timestamp, l.event, l.lat, l.lon,
            TextOr(l.placeName, Unknown), TextOr(l.notes, ""),
            if l.duration.Some? && l.duration.value != 0 then l.duration.value else 0,
            TextOr(l.mode, "Manual"))
  }

  /** A row written by POST /api/log reads back with its own notes,
      duration and mode, and with the name of its place or 'unknown'. */
  lemma ViewOfStoredRow(dist: Distance, db: Db, req: LogRequest, lk: Lookups, now: int, places: seq<Place>)
    requires LogEvent(dist, db, req, lk, now).result.Success?
    ensures var row := LogEvent(dist, db, req, lk, now).result.value.row;
      var v := ViewOf(JoinLog(row, places));
      && v.notes == row.notes && v.duration == row.duration && v.mode == row.mode
      && (row.placeId.None? ==> v.place == Unknown)
  {
  }

  // ---------------------------------------------------------------------
  // GET /api/export?type=logs

  const LogHeader: seq<string> := ["timestamp", "event", "lat", "lon", "place", "notes", "duration_minutes", "mode"]

  /** The eight fields written for one log, in header order: a missing
      timestamp is '', a NULL or empty place 'unknown', NULL or empty notes
      '', a NULL or zero duration '0' and a NULL or empty mode 'Manual'. */
  function LogFields(l: JoinedLog, iso: int -> string, num: real -> string): (fields: seq<string>)
    ensures |fields| == |LogHeader| == 8
    ensures fields[0] == (if l.timestamp.Some? then iso(l.timestamp.value) else "")
    ensures fields[1] == l.event && fields[2] == num(l.lat) && fields[3] == num(l.lon)
    ensures fields[4] == TextOr(l.placeName, Unknown)
    ensures fields[5] == TextOr(l.notes, "")
    ensures fields[6] == (if l.duration.Some? && l.duration.value != 0 then IntToString(l.duration.value) else "0")
    ensures fields[7] == TextOr(l.mode, "Manual")
  {
    [ if l.timestamp.Some? then iso(l.timestamp.value) else "",
      l.event,
      num(l.lat),
      num(l.lon),
      TextOr(l.placeName, Unknown),
      TextOr(l.notes, ""),
      if l.duration.Some? && l.duration.value != 0 then IntToString(l.duration.value) else "0",
      TextOr(l.mode, "Manual") ]
  }

  function LogLine(l: JoinedLog, iso: int -> string, num: real -> string): string {
    Join(LogFields(l, iso, num), ',')
  }

  function LogLines(rows: seq<JoinedLog>, iso: int -> string, num: real -> string): (lines: seq<string>)
    ensures |lines| == |rows|
    ensures forall i :: 0 <= i < |rows| ==> lines[i] == LogLine(rows[i], iso, num)
  {
    if |rows| == 0 then [] else [LogLine(rows[0], iso, num)] + LogLines(rows[1..], iso, num)
  }

  /** Concatenation of the lines, each followed by '\n'. */
  function Terminated(lines: seq<string>): string {
    if |lines| == 0 then "" else lines[0] + "\n" + Terminated(lines[1..])
  }

  /** The CSV export of the logs as the route writes it: nothing at all for
      no rows, otherwise the header and one line per row, every line ended
      by '\n' and the fields joined by ',' without quoting. */
  function LogsCsv(rows: seq<JoinedLog>, iso: int -> string, num: real -> string): (text: string)
    ensures text == "" <==> |rows| == 0
  {
    if |rows| == 0 then "" else Terminated([Join(LogHeader, ',')] + LogLines(rows, iso, num))
  }

  lemma {:induction false} TerminatedIsJoin(lines: seq<string>)
    ensures Terminated(lines) == Join(lines + [""], '\n')
  {
    if |lines| > 0 {
      TerminatedIsJoin(lines[1..]);
      assert (lines + [""])[1..] == lines[1..] + [""];
    }
  }

  /** A header and lines free of line feeds, each terminated, split back
      into those lines and a final empty piece. */
  lemma SplitTerminated(header: string, body: seq<string>)
    requires '\n' !in header
    requires forall i :: 0 <= i < |body| ==> '\n' !in body[i]
    ensures Split(Terminated([header] + body), '\n') == [header] + body + [""]
  {
    var lines := [header] + body;
    TerminatedIsJoin(lines);
    var all := lines + [""];
    forall i | 0 <= i < |all|
      ensures '\n' !in all[i]
    {
      if 0 < i < |lines| {
        assert all[i] == body[i - 1];
      }
    }
    SplitJoin(all, '\n');
  }

  lemma HeaderHasNoLineFeed()
    ensures '\n' !in Join(LogHeader, ',')
  {
    JoinAvoids(LogHeader, ',', '\n');
  }

  lemma LinesHaveNoLineFeed(rows: seq<JoinedLog>, iso: int -> string, num: real -> string)
    requires forall i :: 0 <= i < |rows| ==> '\n' !in LogLine(rows[i], iso, num)
    ensures var body := LogLines(rows, iso, num);
      forall i :: 0 <= i < |body| ==> '\n' !in body[i]
  {
  }

  /** Reading the export back line by line gives the header, then one line
      per row in order, then the empty piece after the final '\n' — as
      long as no field holds a line feed. */
  lemma LogsCsvLines(rows: seq<JoinedLog>, iso: int -> string, num: real -> string)
    requires |rows| > 0
    requires forall i :: 0 <= i < |rows| ==> '\n' !in LogLine(rows[i], iso, num)
    ensures Split(LogsCsv(rows, iso, num), '\n') == [Join(LogHeader, ',')] + LogLines(rows, iso, num) + [""]
  {
    var header := Join(LogHeader, ',');
    var body := LogLines(rows, iso, num);
    assert '\n' !in header by {
      HeaderHasNoLineFeed();
    }
    assert forall i :: 0 <= i < |body| ==> '\n' !in body[i] by {
      LinesHaveNoLineFeed(rows, iso, num);
    }
    LogsCsvIsTerminated(rows, iso, num);
    SplitTerminated(header, body);
  }

  lemma LogsCsvIsTerminated(rows: seq<JoinedLog>, iso: int -> string, num: real -> string)
    requires |rows| > 0
    ensures LogsCsv(rows, iso, num) == Terminated([Join(LogHeader, ',')] + LogLines(rows, iso, num))
  {
  }

  /** A line splits back into its eight fields when no field holds a comma. */
  lemma LogLineFields(l: JoinedLog, iso: int -> string, num: real -> string)
    requires forall i :: 0 <= i < 8 ==> ',' !in LogFields(l, iso, num)[i]
    ensures Split(LogLine(l, iso, num), ',') == LogFields(l, iso, num)
  {
    SplitJoin(LogFields(l, iso, num), ',');
  }

  lemma LeadHasNoComma(event: string)
    requires ',' !in event
    ensures Count("Automated " + event + " at ", ',') == 0
  {
    var lead, tail := "Automated ", " at ";
    assert ',' !in lead && ',' !in tail;
    CountAbsent(lead + event + tail, ',');
  }

  /** The coordinate notes hold exactly one comma: the one between the two
      numbers. */
  lemma CoordinateNotesComma(event: string, latText: string, lonText: string)
    requires ',' !in event && ',' !in latText && ',' !in lonText
    ensures Count("Automated " + event + " at " + latText + ", " + lonText, ',') == 1
  {
    var lead := "Automated " + event + " at ";
    LeadHasNoComma(event);
    CountAppend(lead, latText, ',');
    CountAbsent(latText, ',');
    CountAppend(lead + latText, ", ", ',');
    assert Count(", ", ',') == 1;
    CountAppend(lead + latText + ", ", lonText, ',');
    CountAbsent(lonText, ',');
  }

  /** Eight fields of which only the sixth holds a comma, and just one,
      join into a line of nine comma-separated pieces. */
  lemma NinePieces(fields: seq<string>)
    requires |fields| == 8 && Count(fields[5], ',') == 1
    requires forall k :: 0 <= k < 8 && k != 5 ==> ',' !in fields[k]
    ensures |Split(Join(fields, ','), ',')| == 9
  {
    SumCountsSingle(fields, 5, ',');
    JoinCount(fields, ',');
    SplitLength(Join(fields, ','), ',');
  }

  /** The row the URL route stores when no place matched: no place and the
      coordinates in the notes. */
  lemma UrlRouteRow(dist: Distance, db: Db, event: string, lat: real, lon: real,
                    fixed4: real -> string, lk: Lookups, now: int)
    requires event == "arrive" || event == "exit"
    requires lk.placesFailed || forall j :: 0 <= j < |db.places| ==> !Within(dist, lat, lon, db.places[j])
    ensures var o := LogViaUrl(dist, db, event, Some(lat), Some(lon), fixed4, lk, now);
      && o.result.Success?
      && o.result.value.row == LogRow(now, event, lat, lon, None,
           "Automated " + event + " at " + fixed4(lat) + ", " + fixed4(lon), o.result.value.row.duration, "iPhone")
      && o.result.value.row.duration >= 0
  {
  }

  /** A stored row without a place, whose notes hold one comma and whose
      other exported texts hold none, exports one comma-bearing field. */
  lemma ExportedFieldsOneComma(row: LogRow, places: seq<Place>, iso: int -> string, num: real -> string)
    requires row.placeId == None && Count(row.notes, ',') == 1 && row.duration >= 0
    requires ',' !in row.event && ',' !in row.mode
    requires ',' !in iso(row.timestamp) && ',' !in num(row.lat) && ',' !in num(row.lon)
    ensures var fields := LogFields(JoinLog(row, places), iso, num);
      && Count(fields[5], ',') == 1
      && forall k :: 0 <= k < 8 && k != 5 ==> ',' !in fields[k]
  {
    var fields := LogFields(JoinLog(row, places), iso, num);
    assert ',' !in fields[6] by {
      if row.duration != 0 {
        assert IntToString(row.duration) == NatToString(row.duration);
      }
    }
  }

  /** The URL route stores "Automated <event> at <lat>, <lon>" as the notes
      when no place matched. Exported without quoting, such a row's line
      splits into nine comma-separated pieces instead of eight. */
  lemma UrlRouteRowBreaksLogsCsv(dist: Distance, db: Db, event: string, lat: real, lon: real,
                                 fixed4: real -> string, lk: Lookups, now: int, iso: int -> string, num: real -> string)
    requires event == "arrive" || event == "exit"
    requires lk.placesFailed || forall j :: 0 <= j < |db.places| ==> !Within(dist, lat, lon, db.places[j])
    requires ',' !in fixed4(lat) && ',' !in fixed4(lon)
    requires ',' !in iso(now) && ',' !in num(lat) && ',' !in num(lon)
    ensures var o := LogViaUrl(dist, db, event, Some(lat), Some(lon), fixed4, lk, now);
      && o.result.Success?
      && |Split(LogLine(JoinLog(o.result.value.row, db.places), iso, num), ',')| == 9
  {
    UrlRouteRow(dist, db, event, lat, lon, fixed4, lk, now);
    var row := LogViaUrl(dist, db, event, Some(lat), Some(lon), fixed4, lk, now).result.value.row;
    CoordinateNotesComma(event, fixed4(lat), fixed4(lon));
    ExportedFieldsOneComma(row, db.places, iso, num);
    NinePieces(LogFields(JoinLog(row, db.places), iso, num));
  }

  // ---------------------------------------------------------------------
  // Corrected export

  function FieldRows(rows: seq<JoinedLog>, iso: int -> string, num: real -> string): (t: seq<Csv.Row>)
    ensures |t| == |rows|
    ensures forall i :: 0 <= i < |rows| ==> t[i] == LogFields(rows[i], iso, num)
  {
    if |rows| == 0 then [] else [LogFields(rows[0], iso, num)] + FieldRows(rows[1..], iso, num)
  }

  /** The logs export with every field quoted as in section 2 of RFC 4180
      (the quoting of the export page's unused `convertTasksToCSV`), each
      record ended by '\n' as the route does. */
  function LogsCsvQuoted(rows: seq<JoinedLog>, iso: int -> string, num: real -> string): (text: string)
    ensures text == "" <==> |rows| == 0
    ensures |rows| > 0 ==> text[|text| - 1] == '\n'
  {
    if |rows| == 0 then ""
    else
      var table := [LogHeader] + FieldRows(rows, iso, num);
      assert Csv.WellFormed(table);
      Csv.EncodeTable(table) + "\n"
  }

  /** Whatever the notes hold, the quoted export reads back as the header
      and eight fields per row, in row order. */
  lemma LogsCsvQuotedRoundTrip(rows: seq<JoinedLog>, iso: int -> string, num: real -> string)
    requires |rows| > 0
    ensures var text := LogsCsvQuoted(rows, iso, num);
      Csv.ParseTable(text[..|text| - 1]) == Some([LogHeader] + FieldRows(rows, iso, num))
  {
    var table := [LogHeader] + FieldRows(rows, iso, num);
    assert Csv.WellFormed(table);
    var text := Csv.EncodeTable(table) + "\n";
    assert text[..|text| - 1] == Csv.EncodeTable(table);
    Csv.ParseTableEncode(table);
  }
}
