/** The export page (frontend/app/export/page.tsx): the quoting CSV file of
    tasks, the distinct event list offered as a filter with its labels, and
    the record and status counts of the preview. */
module ExportPage {
  import opened Wrappers
  import opened Strings
  import Csv

  /** A task as fetched from GET /api/tasks; a null `completed_at` is None. */
  datatype Task = Task(
    id: string, title: string, description: string, status: string,
    createdAt: string, completedAt: Option<string>, priority: string)

  const TaskHeader: Csv.Row := ["ID", "Title", "Description", "Status", "Priority", "Created At", "Completed At"]

  /** The seven fields of one task; a null (or empty) completion time is an
      empty field. */
  function TaskFields(t: Task): (row: Csv.Row)
    ensures |row| == |TaskHeader| == 7
    ensures row[..6] == [t.id, t.title, t.description, t.status, t.priority, t.createdAt]
    ensures row[6] == (if t.completedAt.Some? then t.completedAt.value else "")
  {
    [t.id, t.title, t.description, t.status, t.priority, t.createdAt,
     if t.completedAt.Some? && t.completedAt.value != "" then t.completedAt.value else ""]
  }

  function TaskRows(tasks: seq<Task>): (rows: seq<Csv.Row>)
    ensures |rows| == |tasks|
    ensures forall i :: 0 <= i < |tasks| ==> rows[i] == TaskFields(tasks[i])
  {
    if |tasks| == 0 then [] else [TaskFields(tasks[0])] + TaskRows(tasks[1..])
  }

  /** `convertTasksToCSV`: the header and one record per task in input
      order, every field quoted with inner quotes doubled, records joined by
      '\n' with no line feed at the end. */
  function TasksCsv(tasks: seq<Task>): (text: string)
  {
    TableWellFormed(tasks);
    Csv.EncodeTable([TaskHeader] + TaskRows(tasks))
  }

  lemma TableWellFormed(tasks: seq<Task>)
    ensures Csv.WellFormed([TaskHeader] + TaskRows(tasks))
  {
    var rows := TaskRows(tasks);
    var table := [TaskHeader] + rows;
    forall i | 0 <= i < |table|
      ensures |table[i]| > 0
    {
      if i > 0 {
        assert table[i] == rows[i - 1];
      }
    }
  }

  /** Reading the file back gives exactly the header followed by one
      seven-field record per task, in input order. */
  lemma TasksCsvRoundTrip(tasks: seq<Task>)
    ensures Csv.ParseTable(TasksCsv(tasks)) == Some([TaskHeader] + TaskRows(tasks))
  {
    TableWellFormed(tasks);
    Csv.ParseTableEncode([TaskHeader] + TaskRows(tasks));
  }

  /** Record i + 1 of the file is task i; a task never completed reads back
      with an empty last field. */
  lemma TasksCsvRecord(tasks: seq<Task>, i: nat)
    requires i < |tasks|
    ensures var table := Csv.ParseTable(TasksCsv(tasks));
      && table.Some? && |table.value| == |tasks| + 1
      && table.value[i + 1] == TaskFields(tasks[i])
      && (tasks[i].completedAt.None? ==> table.value[i + 1][6] == "")
  {
    TasksCsvRoundTrip(tasks);
  }

  // ---------------------------------------------------------------------
  // Event filter options

  /** `Array.from(new Set(events))`: each event once, in the order of its
      first occurrence. */
  method UniqueEvents(events: seq<string>) returns (out: seq<string>)
    ensures forall i, j :: 0 <= i < j < |out| ==> out[i] != out[j]
    ensures forall x :: x in out <==> x in events
    ensures forall i, j :: 0 <= i < j < |out| ==> IndexOf(events, out[i]) < IndexOf(events, out[j])
  {
    out := [];
    var i := 0;
    while i < |events|
      invariant 0 <= i <= |events|
      invariant forall a, b :: 0 <= a < b < |out| ==> out[a] != out[b]
      invariant forall x :: x in out <==> x in events[..i]
      invariant forall a :: 0 <= a < |out| ==> out[a] in events && IndexOf(events, out[a]) < i
      invariant forall a, b :: 0 <= a < b < |out| ==> IndexOf(events, out[a]) < IndexOf(events, out[b])
    {
      var e := events[i];
      assert events[..i + 1] == events[..i] + [e];
      if e !in out {
        assert IndexOf(events, e) == i by {
          assert e !in events[..i];
        }
        out := out + [e];
      }
      i := i + 1;
    }
    assert events[..i] == events;
  }

  /** The option label: first character upper-cased and the first '_' after
      it turned into a space; the empty event gives the empty label. */
  function EventLabel(event: string): (shown: string)
    ensures |shown| == |event|
    ensures |event| > 0 ==> shown[0] == ToUpperAscii(event[0])
    ensures |event| > 0 ==> shown[1..] == ReplaceFirst(event[1..], '_', ' ')
  {
    if |event| == 0 then "" else [ToUpperAscii(event[0])] + ReplaceFirst(event[1..], '_', ' ')
  }

  /** Only the first underscore after the first character becomes a space;
      any later one stays. */
  lemma EventLabelReplacesOneUnderscore(event: string, k: nat)
    requires 0 < k < |event| && event[k] == '_'
    ensures var shown := EventLabel(event);
      '_' in event[1..] && (shown[k] == ' ' <==> k == 1 + IndexOf(event[1..], '_'))
  {
    assert event[1..][k - 1] == '_';
  }

  // ---------------------------------------------------------------------
  // Preview counts

  datatype ExportType = Logs | Tasks | Both

  /** The record count in the preview heading. */
  function RecordCount(kind: ExportType, logCount: nat, taskCount: nat): (n: nat)
    ensures kind == Logs ==> n == logCount
    ensures kind == Tasks ==> n == taskCount
    ensures kind == Both ==> n == logCount + taskCount
  {
    match kind
    case Logs => logCount
    case Tasks => taskCount
    case Both => logCount + taskCount
  }

  /** `tasks.filter(task => task.status === s).length`. */
  function CountStatus(tasks: seq<Task>, s: string): (n: nat)
    ensures n <= |tasks|
  {
    if |tasks| == 0 then 0 else (if tasks[0].status == s then 1 else 0) + CountStatus(tasks[1..], s)
  }

  /** Counting distributes over concatenation. */
  lemma {:induction false} CountStatusAppend(a: seq<Task>, b: seq<Task>, s: string)
    ensures CountStatus(a + b, s) == CountStatus(a, s) + CountStatus(b, s)
  {
    if |a| == 0 {
      assert a + b == b;
    } else {
      assert (a + b)[0] == a[0];
      assert (a + b)[1..] == a[1..] + b;
      CountStatusAppend(a[1..], b, s);
    }
  }

  /** One task counts exactly when it has the status. */
  lemma CountStatusOne(t: Task, s: string)
    ensures CountStatus([t], s) == if t.status == s then 1 else 0
  {
    assert [t][1..] == [];
  }

  /** When every status is one of the three the page knows, the three
      counts add up to the total. */
  lemma {:induction false} StatusCountsAddUp(tasks: seq<Task>)
    requires forall i :: 0 <= i < |tasks| ==> tasks[i].status in {"completed", "in_progress", "pending"}
    ensures CountStatus(tasks, "completed") + CountStatus(tasks, "in_progress") + CountStatus(tasks, "pending") == |tasks|
  {
    if |tasks| > 0 {
      assert forall i :: 0 <= i < |tasks[1..]| ==> tasks[1..][i] == tasks[i + 1];
      StatusCountsAddUp(tasks[1..]);
    }
  }
}
