# worklogger in Dafny

A model of the core of worklogger, a personal work-time logger. It has two tiers.

- **Backend.** A Flask application over PostgreSQL. It records geofenced
  arrive/exit events, keeps a registry of places, updates tasks and journal
  entries, and exports the logs as CSV.
- **Frontend.** Next.js pages. They detect the place from the coordinates,
  build the bodies they post, and format durations. They also filter
  journal entries, count tasks by status and add up the hours of a working
  day. The export page downloads the tasks CSV from the backend; its own
  quoting encoder is defined but never called, and is modelled for its
  quoting. `getRelativeTime` in frontend/lib/utils.ts is imported by the
  dashboard but never called; `RelativeTime` models it as an exported
  helper.

What the model holds:

- The database is four sequences held in memory (`Backend.Db`).
- Every backend route is a pure function from the tables and the request
  to the new tables and a success value or an API error (`Backend.Outcome`).
  A failed request leaves the tables unchanged.
- Things the system gets from outside become parameters:
  - the clock (`now`, microseconds in the backend, milliseconds in the
    browser);
  - the haversine distance (`Geofence.Distance`);
  - the date and number renderers (`iso`, `num`, `fixed4`).
- Python's `int()` truncation is written out (`Backend.TruncDiv`,
  `Backend.Truncate`).
- JavaScript's `Math.round` is written out (`LogPage.CalculateDuration`).

Modules:

| module | file | models |
|---|---|---|
| `Wrappers` | wrappers.dfy | `Option` and `Result` |
| `Strings` | strings.dfy | digits, `split`/`join`, `trim` and ASCII helpers the pages and routes use |
| `Csv` | csv.dfy | the quoting CSV encoder defined on the export page (`convertTasksToCSV`, never called), with a parser that reads it back |
| `Geofence` | geofence.dfy | first-match place selection, shared by both tiers |
| `Backend` | backend.dfy | POST /api/log, the URL log route, POST /api/places, PUT /api/tasks/&lt;id&gt;, PUT /api/events/&lt;id&gt; |
| `BackendExport` | backend_export.dfy | the JSON view of GET /api/logs, and the logs CSV of GET /api/export |
| `LogPage` | log_page.dfy | frontend/app/log/page.tsx |
| `DailyPage` | daily_page.dfy | frontend/app/daily/page.tsx |
| `EventsPage` | events_page.dfy | frontend/app/events/page.tsx |
| `ExportPage` | export_page.dfy | frontend/app/export/page.tsx |
| `Dashboard` | dashboard.dfy | frontend/components/Dashboard.tsx |
| `RelativeTime` | relative_time.dfy | `getRelativeTime` in frontend/lib/utils.ts |
| `Config` | config.dfy | frontend/lib/config.ts |

## Model

| member | source | states |
|---|---|---|
| Geofence.FirstMatch | backend/app.py:73-91 | Picks the first place in list order whose geofence holds the point, or none when no place holds it. |
| Geofence.FirstMatchExactly | backend/app.py:80-86 | The walk returns index i exactly when place i holds the point and no earlier place does. |
| Geofence.EarlierOverlapWins | backend/app.py:80-86 | When two geofences overlap at the point, the one listed earlier (or one before it) is chosen. |
| Geofence.BoundaryIsInside | backend/app.py:84 | A point exactly one radius from the centre counts as inside (`<=`). |
| Geofence.FirstMatchAppend | frontend/app/log/page.tsx:125-133 | The first match in `ps + qs` is the first match in `ps`, or else the first in `qs` shifted by `|ps|`. |
| Backend.PlaceFromLocation | backend/app.py:73-95 | The name of the first matching place. It is "unknown" when nothing matches and also when reading the places fails. |
| Backend.PlaceIdByName | backend/app.py:131-140 | Gives an id exactly when some place has that name, and the id belongs to a place with that name. |
| Backend.StoredPlaceId | backend/app.py:127-140 | No id for "unknown"; otherwise the id of a place with that name, or none when no place has it. |
| Backend.PlaceIdOfMatch | backend/app.py:127-140 | With distinct names and a working place lookup, the row POST /api/log stores carries the id of the place the geofence selected. |
| Backend.NoMatchStoresNoPlace | backend/app.py:127-140 | When no geofence holds the point, or the place lookup fails, the stored row has no place id and the answer names "unknown". |
| Backend.TruncDiv | backend/app.py:158 | `int()` of a quotient truncates toward zero, on both sides of zero. |
| Backend.LatestArrive | backend/app.py:147-155 | The largest timestamp among the 'arrive' rows. It is none exactly when there is no arrive. |
| Backend.ExitDuration | backend/app.py:145-166 | Whole minutes since the latest arrive, truncated and never negative. It is 0 when there is no arrive or the lookup fails. |
| Backend.ModeFor | backend/app.py:171 | The mode is 'iPhone' exactly when the source is 'iphone', and 'Manual' otherwise. |
| Backend.LogEvent | backend/app.py:107-190 | Fails exactly when event, lat or lon is missing, naming the first missing one and leaving the tables alone. Otherwise it appends one row: the given fields with their defaults, the place detected from the coordinates (or "unknown" when the place lookup fails), that place's id, the mode, and for an exit whose duration is 0 or absent the minutes since the latest arrive (0 when that lookup fails). |
| Backend.LogEventIgnoresPlace | backend/app.py:111-135 | The `place` and `session_type` keys of the body have no effect on the stored row or the answer. |
| Backend.LogViaUrl | backend/app.py:192-279 | Succeeds exactly when the event is arrive or exit and both coordinates parse, otherwise the tables stay alone. On success it appends an 'iPhone' row with the parsed coordinates, the detected place and its id, the automated notes, and duration 0 for an arrive or the minutes since the latest arrive for an exit. |
| Backend.AutomatedNotes | backend/app.py:250-253 | The notes name the place when one matched, and otherwise hold "lat, lon". |
| Backend.Truncate | backend/app.py:423 | `int()` of the radius truncates toward zero. |
| Backend.AddPlace | backend/app.py:395-444 | The first missing required field is reported, and a taken name is refused. Otherwise one place is appended with id = name, the radius truncated and the type defaulting to "custom". |
| Backend.AddPlaceKeepsNamesUnique | backend/app.py:407-425 | Registering places keeps every place name distinct. |
| Backend.TaskAssignments | backend/app.py:552-575 | The SET list is empty exactly when the body names none of status, title, description or priority. |
| Backend.TaskColumns | backend/app.py:552-571 | The SET list's columns, in order: status and completed_at with a status, then title, description and priority, each only when sent. |
| Backend.TaskMentions | backend/app.py:552-571 | A column is assigned exactly when its field is sent (completed_at together with status). The date is never assigned. |
| Backend.TaskAssignmentsMeaning | backend/app.py:552-581 | Running the SET list on a row equals the field-by-field patch. Completion time is now for "completed" and cleared for any other status. |
| Backend.UpdateTask | backend/app.py:538-598 | Returns 400 when no field is sent and 404 when no row has the id, and succeeds whenever some field is sent and a row has the id. On success every row with the id gets the patch and nothing else changes. |
| Backend.EventAssignments | backend/app.py:981-994 | The SET list is empty exactly when the body names none of title, description or date. |
| Backend.EventColumns | backend/app.py:981-992 | The SET list's columns, in order: title, description, date, each only when sent. |
| Backend.EventMentions | backend/app.py:981-992 | A column is assigned exactly when its field is sent, and the task-only columns never are. |
| Backend.EventAssignmentsMeaning | backend/app.py:981-1001 | Running the SET list on a row equals the field-by-field patch. |
| Backend.UpdateEvent | backend/app.py:969-1017 | Returns 400 when no field is sent and 404 when no row has the id, and succeeds whenever some field is sent and a row has the id. On success the rows with the id are patched and nothing else changes. |
| BackendExport.PlaceNameById | backend/app.py:292 | The LEFT JOIN gives a name exactly when some place has the id, and it is that place's name. |
| BackendExport.TextOr | backend/app.py:330-333 | A text column falls back to its default when it is NULL or empty. |
| BackendExport.ViewOf | backend/app.py:324-337 | Each entry of GET /api/logs carries the row's own fields. Place is the joined name, and 'unknown' exactly when that is NULL, empty or 'unknown'; notes default to '', duration to 0 and mode to 'Manual'. |
| BackendExport.ViewOfStoredRow | backend/app.py:324-337 | A row stored by POST /api/log reads back with its own notes, duration and mode, and with 'unknown' when it has no place. |
| BackendExport.LogFields | backend/app.py:709-719 | Eight fields in header order: the timestamp rendered or '', event, lat, lon, the place name or 'unknown', the notes or '', the duration or '0', the mode or 'Manual'. |
| BackendExport.LogLines | backend/app.py:717-721 | One line per row, in row order. |
| BackendExport.LogsCsv | backend/app.py:703-721 | The file is empty exactly when there are no rows. |
| BackendExport.LogsCsvLines | backend/app.py:703-721 | Split at line feeds, the file is the header, then one line per row in order, then the empty piece after the final line feed. This holds as long as no field holds a line feed. |
| BackendExport.LogLineFields | backend/app.py:709-721 | A line splits back into its eight fields when no field holds a comma. |
| BackendExport.CoordinateNotesComma | backend/app.py:250-253 | The coordinate notes of the URL route contain exactly one comma. |
| BackendExport.UrlRouteRow | backend/app.py:227-262 | With no matching place, the URL route stores no place id, the coordinate notes, mode 'iPhone' and a non-negative duration. |
| BackendExport.ExportedFieldsOneComma | backend/app.py:709-719 | For such a row, only the notes field of the export holds a comma, and just one. |
| BackendExport.UrlRouteRowBreaksLogsCsv | backend/app.py:704-721 | A row the URL route stores without a place exports as nine comma-separated pieces instead of eight (see Findings). |
| BackendExport.LogsCsvQuoted | backend/app.py:703-721 | The corrected export is empty exactly when there are no rows, and otherwise ends in a line feed. |
| BackendExport.LogsCsvQuotedRoundTrip | backend/app.py:703-721 | The corrected, quoted export reads back as the header and each row's eight fields, whatever the notes hold. |
| Csv.ParseTableEncode | frontend/app/export/page.tsx:164-166 | Any table of non-empty rows, encoded with every field quoted and '"' doubled, parses back to itself. |
| Csv.EncodeTableInjective | frontend/app/export/page.tsx:164-166 | Different tables never encode to the same text. |
| Csv.EscapeQuoteCount | frontend/app/export/page.tsx:165 | Escaping doubles every '"' in a field. |
| LogPage.SchemaIssues | frontend/app/log/page.tsx:11-18 | Each schema complaint is raised exactly when its rule is broken: empty event, latitude outside [-90, 90], longitude outside [-180, 180], negative duration. |
| LogPage.SessionType | frontend/app/log/page.tsx:177-180 | session_type is 'start' exactly for an arrive, 'end' exactly for an exit, and absent otherwise. |
| LogPage.SubmitPayload | frontend/app/log/page.tsx:177-182 | The body posted is the form's fields unchanged, plus the session type that belongs to the event. |
| LogPage.AcceptedFormIsStored | frontend/app/log/page.tsx:173-182 | A form the schema accepts is always stored: same event, coordinates in range, mode 'Manual'. |
| LogPage.FindMatchingPlace | frontend/app/log/page.tsx:125-133 | The first place in list order whose geofence holds the point, or null exactly when none does. |
| LogPage.FindMatchingPlaceAgreesWithBackend | frontend/app/log/page.tsx:125-133 | Given one place order and one distance function for both tiers, the page's choice carries the name the backend reports, and no match on the page is "unknown" in the backend. |
| LogPage.AutoDetect | frontend/app/log/page.tsx:136-145 | With both coordinates truthy and places loaded, the place becomes the first match's id, or '' when nothing matches. Otherwise it stays as it was. |
| LogPage.ZeroCoordinateSkipsDetection | frontend/app/log/page.tsx:137 | A latitude or longitude of exactly 0 never triggers detection. |
| LogPage.LastArrive | frontend/app/log/page.tsx:92-97 | The chosen log is an arrive with the largest timestamp, and the first such in the list. It is none exactly when there is no arrive. |
| LogPage.CalculateDuration | frontend/app/log/page.tsx:148-153 | The result is the minute count nearest to the difference, with halves rounded up. It is not clamped. |
| LogPage.CalculateDurationNegative | frontend/app/log/page.tsx:148-153 | The count is negative exactly when the exit is more than half a minute before the arrive. |
| LogPage.DurationAfterEventChange | frontend/app/log/page.tsx:156-160 | Choosing any event but 'exit' resets the duration to 0; an exit keeps it. |
| LogPage.NonExitStoresZeroDuration | frontend/app/log/page.tsx:156-182 | When the reset on choosing the event is the last edit of the duration, a non-exit event is stored with duration 0. |
| LogPage.ConfirmPayload | frontend/app/log/page.tsx:250-265 | The popup's body: the place chosen in the popup wins over the detected one, duration 0, and fixed notes and session type set by arrive or not. |
| LogPage.ConfirmedPlaceChoiceIsIgnored | frontend/app/log/page.tsx:256-267 | Whichever place is picked in the popup, the backend stores the same row. |
| LogPage.ConfirmedExitGetsBackendDuration | frontend/app/log/page.tsx:256-267 | A confirmed exit is stored with the backend's minutes since the latest arrive. |
| DailyPage.TotalHours | frontend/app/daily/page.tsx:128-137 | 0 without both times. Otherwise the span in hours minus all break minutes over 60, never below zero. |
| DailyPage.BreakMinutesAppend | frontend/app/daily/page.tsx:134 | Break minutes add up over concatenated break lists. |
| DailyPage.BreakTimesIgnored | frontend/app/daily/page.tsx:134 | Break timestamps play no part: every break is deducted. |
| DailyPage.AddingBreakNeverIncreases | frontend/app/daily/page.tsx:128-137 | Another break of non-negative length never raises the total. |
| DailyPage.EightHourDayWithHalfHourBreak | frontend/app/daily/page.tsx:128-137 | 09:00 to 17:00 with one 30-minute break gives 7.5 hours. |
| DailyPage.AddTask | frontend/app/daily/page.tsx:87-112 | Nothing is posted for a blank description. Otherwise the log gets one task appended, numbered one past the count, not completed, and nothing else changes. |
| DailyPage.AddTaskKeepsIdsSequential | frontend/app/daily/page.tsx:96 | Adding tasks keeps the ids 1, 2, ... in list order, so they are distinct. |
| DailyPage.StartEnabled | frontend/app/daily/page.tsx:210 | Start is enabled exactly when offline. |
| DailyPage.EndEnabled | frontend/app/daily/page.tsx:218 | End is enabled exactly when online. |
| DailyPage.ExactlyOneSessionButton | frontend/app/daily/page.tsx:208-222 | Exactly one of the two session buttons is enabled at any time. |
| DailyPage.SessionPayload | frontend/app/daily/page.tsx:56-85 | Starting posts 'arrive' with session type 'start' and ending posts 'leave' with 'end', at fixed coordinates, with the fixed notes, no place and no duration. |
| DailyPage.EndSessionStoresNoDuration | frontend/app/daily/page.tsx:72-85 | Ending a session stores a 'leave' row with duration 0, because the backend computes a duration only for 'exit'. |
| EventsPage.Filter | frontend/app/events/page.tsx:35-39 | Keeps exactly the entries that pass both filters, with an empty filter passing everything. |
| EventsPage.FilterAppend | frontend/app/events/page.tsx:35-39 | Filtering distributes over concatenation, so the entries keep their relative order. |
| EventsPage.FilterNoFilters | frontend/app/events/page.tsx:35-39 | With both filters empty every entry is shown. |
| EventsPage.FilterIdempotent | frontend/app/events/page.tsx:35-39 | Filtering twice with the same filters changes nothing. |
| EventsPage.ParseTags | frontend/app/events/page.tsx:59 | No tags for an empty input. Otherwise one tag per comma-separated piece (commas + 1), each trimmed. |
| EventsPage.ParsedTagsAreClean | frontend/app/events/page.tsx:59 | No tag holds a comma or starts or ends with whitespace. |
| EventsPage.AddEntry | frontend/app/events/page.tsx:72 | A saved entry goes to the front and the rest follow unchanged. |
| EventsPage.DeleteEntry | frontend/app/events/page.tsx:96 | Removes exactly the entries with the id. |
| EventsPage.DeleteAppend | frontend/app/events/page.tsx:96 | Deleting distributes over concatenation, so the kept entries stay in order and keep their multiplicity. |
| EventsPage.DeleteOne | frontend/app/events/page.tsx:96 | One entry is dropped exactly when it has the id, and kept otherwise. |
| EventsPage.DeleteUndoesAdd | frontend/app/events/page.tsx:72-96 | Deleting an entry just added with a fresh id restores the list. |
| EventsPage.DeleteNothing | frontend/app/events/page.tsx:96 | Deleting an id no entry has changes nothing. |
| EventsPage.ShortDescription | frontend/app/events/page.tsx:340-343 | Up to 150 characters are shown as they are. Longer text shows its first 150 characters plus "...". |
| EventsPage.TagChips | frontend/app/events/page.tsx:355-367 | At most two tag chips, plus one "+N more" chip when there are more tags. |
| EventsPage.TagChipsCountHidden | frontend/app/events/page.tsx:361-365 | N in "+N more" is exactly the number of tags not shown. |
| EventsPage.InsertDescending | frontend/app/events/page.tsx:292 | Inserting a date keeps the list strictly descending and holds exactly the old dates and the new one. |
| EventsPage.DateOptions | frontend/app/events/page.tsx:292 | The date options are strictly descending and hold exactly the dates of the entries. |
| EventsPage.DescendingIsDistinct | frontend/app/events/page.tsx:292 | The date options have no repeats. |
| EventsPage.DescendingUnique | frontend/app/events/page.tsx:292 | Two strictly descending lists with the same members are equal. |
| EventsPage.DateOptionsOrderFree | frontend/app/events/page.tsx:292 | Reordering or repeating dates does not change the options. |
| ExportPage.TaskFields | frontend/app/export/page.tsx:154-162 | Seven fields per task, in header order: id, title, description, status, priority, creation time, then the completion time or ''. |
| ExportPage.TasksCsvRoundTrip | frontend/app/export/page.tsx:152-167 | The tasks CSV parses back to the header followed by one record per task, in order. |
| ExportPage.TasksCsvRecord | frontend/app/export/page.tsx:152-167 | Record i + 1 of the file is task i, and a task never completed reads back with an empty last field. |
| ExportPage.UniqueEvents | frontend/app/export/page.tsx:169-171 | Each event appears once, exactly the events of the logs, ordered by first occurrence. |
| ExportPage.EventLabel | frontend/app/export/page.tsx:282 | Same length as the event; first character upper-cased, then only the first '_' after it replaced by a space. |
| ExportPage.EventLabelReplacesOneUnderscore | frontend/app/export/page.tsx:282 | The first '_' after position 0 becomes a space, and every later '_' stays. |
| ExportPage.RecordCount | frontend/app/export/page.tsx:331 | The preview count is the log count, the task count, or their sum, by export type. |
| ExportPage.CountStatus | frontend/app/export/page.tsx:594-606 | A status count never exceeds the number of tasks. |
| ExportPage.CountStatusAppend | frontend/app/export/page.tsx:594-606 | Counts add up over concatenated task lists. |
| ExportPage.CountStatusOne | frontend/app/export/page.tsx:594-606 | A single task counts 1 exactly when it has the status, else 0. |
| ExportPage.StatusCountsAddUp | frontend/app/export/page.tsx:594-606 | When every status is completed, in_progress or pending, the three counts add up to the number of tasks. |
| Dashboard.FormatDuration | frontend/components/Dashboard.tsx:92-98 | "-" for 0, "<m>m" below an hour (negatives included), "<h>h" for whole hours, otherwise "<h>h <r>m". |
| Dashboard.FormatDurationRoundTrip | frontend/components/Dashboard.tsx:92-98 | Every minute count, zero and negative ones included, reads back from its text as itself. |
| Dashboard.FormatDurationInjective | frontend/components/Dashboard.tsx:92-98 | Different minute counts never show the same text. |
| Dashboard.Recent | frontend/components/Dashboard.tsx:64-69 | The first n items, or all of them when there are fewer. |
| Dashboard.RecentStable | frontend/components/Dashboard.tsx:64-69 | Taking the recent items again changes nothing, and a longer fetch with the same start shows the same items. |
| RelativeTime.BucketOf | frontend/lib/utils.ts:41-49 | Just now below a minute, then minutes below an hour, hours below a day, days below a week, else absolute. Each count is the floored quotient. |
| RelativeTime.RelativeText | frontend/lib/utils.ts:36-51 | "Just now" below one minute, "<n> minute(s) ago", "<n> hour(s) ago" or "<n> day(s) ago" with the bucket's count, and the absolute timestamp from one week on. |
| RelativeTime.PluralExactlyAboveOne | frontend/lib/utils.ts:46-48 | In the counted buckets the text ends in "s ago" exactly when the count is above one. |
| RelativeTime.BucketMonotone | frontend/lib/utils.ts:41-49 | An older time never lands in a finer bucket, and within a bucket the count never decreases. |
| RelativeTime.RelativeTextExamples | frontend/lib/utils.ts:45-47 | One minute reads "1 minute ago", two "2 minutes ago", ninety "1 hour ago". |
| Config.ApiBaseUrl | frontend/lib/config.ts:4 | The environment's value unless it is unset or empty, else http://localhost:5051. |
| Config.CleanBase | frontend/lib/config.ts:8 | Drops one trailing '/', and only when there is one. |
| Config.CleanEndpoint | frontend/lib/config.ts:9 | Always starts with '/'; a leading '/' is kept, a missing one added. |
| Config.GetApiUrl | frontend/lib/config.ts:7-11 | The URL starts with the cleaned base, followed by '/'. It ends with the endpoint, which gets a '/' in front only when it lacks one. |
| Config.CleanEndpointIdempotent | frontend/lib/config.ts:9 | Cleaning an endpoint twice equals cleaning it once. |
| Config.CleanBaseDropsOneSlash | frontend/lib/config.ts:8 | A base ending in "//" keeps one slash. |
| Config.GetApiUrlClean | frontend/lib/config.ts:7-11 | A clean base and a clean endpoint are joined as they are. |
| Config.GetApiUrlSlashOptional | frontend/lib/config.ts:7-11 | An endpoint with or without a leading '/' gives the same URL. |
| Config.DefaultLogUrl | frontend/lib/config.ts:4-11 | The default base and the log route give http://localhost:5051/api/log. |

## Left out

- The haversine distance: it is floating-point trigonometry. Both tiers take it as the parameter `Geofence.Distance`, and only the `<=` test against the radius is modelled.
- The PostgreSQL connection, SQL text, `init_database` and transactions. The tables are sequences. An exception inside a route (the 500 answers) is not modelled. The two lookups the routes catch are modelled through `Backend.Lookups`, which says whether each fails: a failed place lookup gives "unknown", a failed last-arrive lookup gives 0 minutes. What makes them fail is outside the model.
- Flask, HTTP, React state, axios, toasts, geolocation and the clock. Requests and times are parameters.
- Rendering of times and numbers: `isoformat`, `str(float)`, `toFixed(4)`, `format(parseISO(...))` and `toLocaleString`. They are parameters, assumed free of commas where a lemma needs it.
- The GET routes' query filters, limits and `ORDER BY` clauses. In particular `BackendExport.LogsCsv` writes the rows in the order it is given, where the route sorts by timestamp descending.
- The `date` and `time` keys of GET /api/logs entries.
- Delete routes, task and event creation, GET /api/places, the dashboard statistics route, and the places/tasks/events/combined exports. They are plain SQL with no logic beyond what is modelled for logs.
- Backend.LogEvent: a JSON `null` and an absent key are both `None`. In the source, a `duration_minutes` of `null` is not equal to 0, so it would skip the exit-duration calculation; the model calculates it.
- Backend.LogEvent: coordinates are reals. The `NaN` and `Infinity` that Python's JSON decoder accepts in the body, and that `float()` passes on, are not modelled.
- Backend.LogViaUrl: coordinates are reals. The "nan", "inf", "-inf" and "1e999" that `float()` accepts in the path (backend/app.py:202-203) are not modelled. For NaN the source stores the row with place "unknown", since no `<=` test holds for NaN.
- Backend.LogEvent: durations are integers. A fractional `duration_minutes` in the body is not modelled.
- Backend.UpdateTask: a key present with value `null` is treated as absent, so it is not written as SQL NULL.
- Backend.UpdateEvent: same as UpdateTask for keys present with value `null`.
- Backend.AddPlace: a key present with value `null` is treated as absent. In the source a `null` `type` is stored as NULL, where the model stores "custom". A `null` required field passes the presence test and then fails in `float`, `int` or the INSERT, so the route answers 500 (backend/app.py:446-447), where the model answers 400 with the missing field.
- LogPage.SchemaIssues: states which issues occur but not that each occurs once. The coercion of form strings to numbers, and NaN, are not modelled.
- LogPage.CalculateDuration: the page never calls it. It is modelled for its rounding.
- LogPage.LastArrive: it works on timestamps already parsed to milliseconds. An invalid date (NaN in the comparator) is not modelled.
- `toUpperCase` is modelled on ASCII letters. `trim` removes the ECMAScript WhiteSpace and LineTerminator characters (`Strings.IsWhitespace`). JavaScript string lengths count UTF-16 code units, and the model counts characters.
- DailyPage: the page assumes a loaded log (`dailyLog!`). A start or end time that does not parse is not modelled.
- The session aggregation between arrive and exit is not modelled. The frontend only sends a `session_type` label, which the backend ignores (`Backend.LogEventIgnoresPlace`).
- Backend.StoredPlaceId: a place whose name is literally "unknown" is matched by its geofence, but its row is stored without a place id, as the route does.
- LogPage.FindMatchingPlaceAgreesWithBackend: the page loads its places ordered by name (backend/app.py:387) while the backend's lookup reads them unordered (backend/app.py:79), and the page's distance uses atan2 (frontend/app/log/page.tsx:109-122) where the backend's uses asin (backend/app.py:63-71). The lemma holds for one shared order and one shared distance function; overlapping or borderline geofences can be resolved differently by the two tiers.
- LogPage.NonExitStoresZeroDuration: the duration input stays editable after the reset (frontend/app/log/page.tsx:489-505). The lemma covers a submission whose last duration edit is the reset.
- Csv and ExportPage.TasksCsvRoundTrip: `convertTasksToCSV` (frontend/app/export/page.tsx:152-167) is never called. The page downloads the tasks CSV from GET /api/export?type=tasks (frontend/app/export/page.tsx:106), whose backend encoding is not modelled. The encoder is modelled for its quoting, which the corrected logs export reuses.
- Page layout, styling, the map view and the loading spinner.

## Findings

| source | as written | input that shows it | evidently intended | confidence | as-written member | corrected member |
|---|---|---|---|---|---|---|
| backend/app.py:704-721 with 250-253 | The logs CSV joins fields with ',' and no quoting. The URL route stores "Automated exit at 51.5074, -0.1278" as notes when no place matches. | GET/POST /api/exit/51.5074/-0.1278 with no place covering the point, then GET /api/export?type=logs: that row's line has nine comma-separated pieces under an eight-column header. | Every record has the header's eight fields, with every field quoted and '"' doubled, as section 2 of RFC 4180 allows. | not executed | BackendExport.UrlRouteRowBreaksLogsCsv | BackendExport.LogsCsvQuotedRoundTrip |
