/** The daily logger page (frontend/app/daily/page.tsx): the total-hours
    figure, appending a task to the day's log, the session buttons and the
    bodies they post. Times are integer milliseconds, hours are reals. */
module DailyPage {
  import opened Wrappers
  import opened Strings
  import Geofence
  import Backend

  datatype Status = Online | Offline

  datatype DailyTask = DailyTask(id: int, description: string, minutes: int, timestamp: string, completed: bool)

  datatype Break = Break(kind: string, minutes: int, timestamp: string)

  /** The day's log as the page holds it. A start or end time that is null
      or empty is None; a present one is its parsed time in milliseconds. */
  datatype DailyLog = DailyLog(
    date: string, start: Option<int>, end: Option<int>, tasks: seq<DailyTask>,
    notes: string, breaks: seq<Break>, status: Status)

  const MillisPerHour := 3_600_000

  /** The `reduce` over the breaks: total break minutes. */
  function BreakMinutes(breaks: seq<Break>): int {
    if |breaks| == 0 then 0 else BreakMinutes(breaks[..|breaks| - 1]) + breaks[|breaks| - 1].minutes
  }

  /** `calculateTotalHours`: 0 without both times; otherwise the span in
      hours minus every break's minutes, never below zero. */
  function TotalHours(log: DailyLog): (h: real)
    ensures h >= 0.0
    ensures log.start.None? || log.end.None? ==> h == 0.0
    ensures log.start.Some? && log.end.Some? ==>
      var worked := (log.end.value - log.start.value) as real / MillisPerHour as real - BreakMinutes(log.breaks) as real / 60.0;
      (worked >= 0.0 ==> h == worked) && (worked < 0.0 ==> h == 0.0)
  {
    if log.start.None? || log.end.None? then 0.0
    else
      var hours := (log.end.value - log.start.value) as real / MillisPerHour as real;
      var breakHours := BreakMinutes(log.breaks) as real / 60.0;
      if hours - breakHours > 0.0 then hours - breakHours else 0.0
  }

  lemma {:induction false} BreakMinutesAppend(a: seq<Break>, b: seq<Break>)
    ensures BreakMinutes(a + b) == BreakMinutes(a) + BreakMinutes(b)
    decreases |b|
  {
    if |b| == 0 {
      assert a + b == a;
    } else {
      assert (a + b)[..|a + b| - 1] == a + b[..|b| - 1];
      BreakMinutesAppend(a, b[..|b| - 1]);
    }
  }

  /** The timestamps of the breaks play no part: every break is deducted,
      inside the session or not. */
  lemma {:induction false} BreakTimesIgnored(breaks: seq<Break>, times: seq<string>)
    requires |times| == |breaks|
    ensures BreakMinutes(breaks) == BreakMinutes(seq(|breaks|, i requires 0 <= i < |breaks| => breaks[i].(timestamp := times[i])))
  {
    var moved := seq(|breaks|, i requires 0 <= i < |breaks| => breaks[i].(timestamp := times[i]));
    if |breaks| > 0 {
      var n := |breaks| - 1;
      BreakTimesIgnored(breaks[..n], times[..n]);
      assert moved[..n] == seq(n, i requires 0 <= i < n => breaks[..n][i].(timestamp := times[..n][i]));
    }
  }

  /** Another break of non-negative length never raises the total. */
  lemma AddingBreakNeverIncreases(log: DailyLog, b: Break)
    requires b.minutes >= 0
    ensures TotalHours(log.(breaks := log.breaks + [b])) <= TotalHours(log)
  {
    BreakMinutesAppend(log.breaks, [b]);
    assert BreakMinutes([b]) == b.minutes by {
      assert [b][..0] == [];
    }
  }

  /** A session from 09:00 to 17:00 with one 30-minute break gives 7.5 hours. */
  lemma EightHourDayWithHalfHourBreak(log: DailyLog)
    requires log.start == Some(9 * MillisPerHour) && log.end == Some(17 * MillisPerHour)
    requires log.breaks == [Break("lunch", 30, "")]
    ensures TotalHours(log) == 7.5
  {
    assert log.breaks[..0] == [];
    assert BreakMinutes(log.breaks) == 30;
    assert (log.end.value - log.start.value) as real / MillisPerHour as real == 8.0;
  }

  // ---------------------------------------------------------------------
  // Tasks

  /** `addTask`: nothing is posted for a blank description; otherwise the
      posted log is the day's log with one task appended, numbered one past
      the current count, not completed, with the description as typed. */
  function AddTask(log: DailyLog, text: string, minutes: int, nowIso: string): (posted: Option<DailyLog>)
    ensures posted.None? <==> IsBlank(text)
    ensures posted.Some? ==>
      && posted.value == log.(tasks := posted.value.tasks)
      && |posted.value.tasks| == |log.tasks| + 1
      && posted.value.tasks[..|log.tasks|] == log.tasks
      && posted.value.tasks[|log.tasks|] == DailyTask(|log.tasks| + 1, text, minutes, nowIso, false)
  {
    if Trim(text) == "" then None
    else Some(log.(tasks := log.tasks + [DailyTask(|log.tasks| + 1, text, minutes, nowIso, false)]))
  }

  /** Ids are 1, 2, ... in list order. */
  predicate SequentialIds(tasks: seq<DailyTask>) {
    forall i :: 0 <= i < |tasks| ==> tasks[i].id == i + 1
  }

  /** Adding tasks only through `addTask` keeps the ids sequential, and so
      distinct. */
  lemma AddTaskKeepsIdsSequential(log: DailyLog, text: string, minutes: int, nowIso: string)
    requires SequentialIds(log.tasks)
    requires AddTask(log, text, minutes, nowIso).Some?
    ensures SequentialIds(AddTask(log, text, minutes, nowIso).value.tasks)
  {
    var t := AddTask(log, text, minutes, nowIso).value.tasks;
    forall i | 0 <= i < |t|
      ensures t[i].id == i + 1
    {
      if i < |log.tasks| {
        assert t[i] == t[..|log.tasks|][i];
      }
    }
  }

  // ---------------------------------------------------------------------
  // Session controls

  /** Start is disabled while online. */
  function StartEnabled(s: Status): (enabled: bool)
    ensures enabled <==> s == Offline
  {
    s != Online
  }

  /** End is disabled while offline. */
  function EndEnabled(s: Status): (enabled: bool)
    ensures enabled <==> s == Online
  {
    s != Offline
  }

  /** At any moment exactly one of the two buttons is enabled. */
  lemma ExactlyOneSessionButton(s: Status)
    ensures StartEnabled(s) != EndEnabled(s)
  {
  }

  const OfficeLat := 51.5074
  const OfficeLon := -0.1278

  /** The bodies of `startWorkSession` and `endWorkSession`: fixed
      coordinates, and event 'arrive' to start but 'leave' to end. */
  function SessionPayload(start: bool): (req: Backend.LogRequest)
    ensures req.event == Some(if start then "arrive" else "leave")
    ensures req.lat == Some(OfficeLat) && req.lon == Some(OfficeLon)
    ensures req.notes == Some(if start then "Work session started" else "Work session ended")
    ensures req.sessionType == Some(if start then "start" else "end")
    ensures req.duration.None? && req.source.None? && req.place.None?
  {
    Backend.LogRequest(
      Some(if start then "arrive" else "leave"), Some(OfficeLat), Some(OfficeLon),
      Some(if start then "Work session started" else "Work session ended"),
      None, None, None, Some(if start then "start" else "end"))
  }

  /** Ending a session stores a 'leave' row with duration 0: the backend
      computes the minutes since the last arrive only for 'exit'. */
  lemma EndSessionStoresNoDuration(dist: Geofence.Distance, db: Backend.Db, lk: Backend.Lookups, now: int)
    ensures var o := Backend.LogEvent(dist, db, SessionPayload(false), lk, now);
      && o.result.Success?
      && o.result.value.row.event == "leave"
      && o.result.value.row.event != "exit"
      && o.result.value.row.duration == 0
  {
  }
}
