/** The weekly hour-entry page: a task × weekday (Monday to Friday) grid of
    hours for the current week, its totals, saving the grid as draft time
    entries one request at a time, and submitting the saved entries to the
    supervisor. */
module HourEntry {
  import opened Common
  import opened Calendar
  import opened DateUtils

  datatype Task = Task(id: string, nombre: string)

  /** The body of a `createTimeEntry` request; `workDate` is a day number. */
  datatype TimeEntry = TimeEntry(employeeId: string, projectId: string, taskId: string,
                                 workDate: int, workedMinutes: int, description: Description)

  /** An entry's description, kept as its parts: the task's name and the
      day it labels. `DescriptionText` writes it out. */
  datatype Description = Description(taskName: string, day: int)

  /** `${task.nombre} - ${formatDate(workDate)}`. */
  function DescriptionText(d: Description): (text: string)
    ensures |text| == |d.taskName| + 3 + |FormatDate(d.day)|
    ensures text[..|d.taskName|] == d.taskName && text[|d.taskName|..|d.taskName| + 3] == " - "
    ensures text[|d.taskName| + 3..] == FormatDate(d.day)
  {
    d.taskName + " - " + FormatDate(d.day)
  }

  /** Who saves, for which project, and the Monday of the week saved. */
  datatype SaveContext = SaveContext(employeeId: string, projectId: string, monday: int)

  /** The weekdays of the grid, `mon` to `fri`, at offsets 0 to 4 from Monday. */
  const WeekDays: nat := 5

  const ZeroWeek: seq<real> := [0.0, 0.0, 0.0, 0.0, 0.0]

  // ---------------------------------------------------------------------
  // The hours grid, keyed by task id

  /** Every stored row has five days of 0 to 24 hours. */
  predicate ValidHours(hoursData: map<string, seq<real>>)
  {
    forall id :: id in hoursData ==>
      |hoursData[id]| == WeekDays && forall d :: 0 <= d < WeekDays ==> 0.0 <= hoursData[id][d] <= 24.0
  }

  /** `hoursData[taskId]?.[day] || 0`. */
  function HoursOf(hoursData: map<string, seq<real>>, taskId: string, day: nat): real
  {
    if taskId in hoursData && day < |hoursData[taskId]| then hoursData[taskId][day] else 0.0
  }

  /** The grid as the page reads it: one row per task, in task order. */
  function HoursGrid(tasks: seq<Task>, hoursData: map<string, seq<real>>): (g: seq<seq<real>>)
    ensures |g| == |tasks| && IsGrid(g, WeekDays)
    ensures forall k, d :: 0 <= k < |tasks| && 0 <= d < WeekDays ==> g[k][d] == HoursOf(hoursData, tasks[k].id, d)
  {
    seq(|tasks|, k requires 0 <= k < |tasks| => seq(WeekDays, d requires 0 <= d => HoursOf(hoursData, tasks[k].id, d)))
  }

  /** `{ mon: 0, ..., fri: 0 }` for every task. */
  function ZeroHours(tasks: seq<Task>): (m: map<string, seq<real>>)
    ensures forall id :: id in m <==> exists k :: 0 <= k < |tasks| && tasks[k].id == id
    ensures forall id :: id in m ==> m[id] == ZeroWeek
  {
    map k | 0 <= k < |tasks| :: tasks[k].id := ZeroWeek
  }

  /** After loading or resetting, every cell of every task is 0 and so is
      the grand total. */
  lemma ZeroHoursGrid(tasks: seq<Task>)
    ensures ValidHours(ZeroHours(tasks))
    ensures forall k, d :: 0 <= k < |tasks| && 0 <= d < WeekDays ==> HoursGrid(tasks, ZeroHours(tasks))[k][d] == 0.0
    ensures Sum(RowTotals(HoursGrid(tasks, ZeroHours(tasks)))) == 0.0
  {
    var g := HoursGrid(tasks, ZeroHours(tasks));
    forall k | 0 <= k < |tasks| ensures RowTotals(g)[k] == 0.0 {
      assert tasks[k].id in ZeroHours(tasks);
      SumZeros(g[k]);
    }
    SumZeros(RowTotals(g));
  }

  /** `parseFloat(value) || 0` clamped to `[0, 24]`; `parsed` is `None` when
      the text is not a number. */
  function ClampHours(parsed: Option<real>): (h: real)
    ensures 0.0 <= h <= 24.0
    ensures parsed.None? ==> h == 0.0
    ensures parsed.Some? && 0.0 <= parsed.value <= 24.0 ==> h == parsed.value
    ensures parsed.Some? && parsed.value > 24.0 ==> h == 24.0
    ensures parsed.Some? && parsed.value < 0.0 ==> h == 0.0
  {
    var hours := if parsed.Some? then parsed.value else 0.0;
    if hours > 24.0 then 24.0 else if hours < 0.0 then 0.0 else hours
  }

  /** Clamping an already clamped value changes nothing. */
  lemma ClampIdempotent(parsed: Option<real>)
    ensures ClampHours(Some(ClampHours(parsed))) == ClampHours(parsed)
  {
  }

  /** `{ ...prev, [taskId]: { ...prev[taskId], [day]: hours } }`: one cell
      is set and every other cell, of this task or another, keeps its
      value. */
  function SetHour(hoursData: map<string, seq<real>>, taskId: string, day: nat, hours: real): (m: map<string, seq<real>>)
    requires ValidHours(hoursData) && day < WeekDays && 0.0 <= hours <= 24.0
    ensures ValidHours(m)
    ensures taskId in m && HoursOf(m, taskId, day) == hours
    ensures forall id, d :: 0 <= d < WeekDays && (id != taskId || d != day) ==> HoursOf(m, id, d) == HoursOf(hoursData, id, d)
  {
    var row := if taskId in hoursData then hoursData[taskId] else ZeroWeek;
    hoursData[taskId := row[day := hours]]
  }

  // ---------------------------------------------------------------------
  // The week

  /** `isWeekClosed`: the week shown is not `currentWeek`, the value of
      `getCurrentWeekString()` in the render that runs the handler. */
  predicate IsWeekClosed(weekString: string, currentWeek: string)
  {
    weekString != currentWeek
  }

  /** The week opened on day `mounted` is closed on day `today` exactly when
      the two days differ in calendar year or in week number. */
  lemma WeekClosedIff(mounted: int, today: int)
    ensures IsWeekClosed(GetCurrentWeekString(mounted), GetCurrentWeekString(today))
        <==> (ToDate(mounted).year, GetWeekNumber(mounted)) != (ToDate(today).year, GetWeekNumber(today))
  {
    ParseWeekString(ToDate(mounted).year, GetWeekNumber(mounted));
    ParseWeekString(ToDate(today).year, GetWeekNumber(today));
  }

  // ---------------------------------------------------------------------
  // Entries to save

  /** `Math.round(hours * 60)`: the nearest whole minute, halves rounding up. */
  function RoundMinutes(hours: real): (m: int)
    ensures hours * 60.0 - 0.5 < m as real <= hours * 60.0 + 0.5
  {
    (hours * 60.0 + 0.5).Floor
  }

  /** The entry for `hours` on weekday offset `day` of `task`. */
  function MakeEntry(ctx: SaveContext, task: Task, day: nat, hours: real): TimeEntry
  {
    var workDate := ctx.monday + day;
    TimeEntry(ctx.employeeId, ctx.projectId, task.id, workDate, RoundMinutes(hours),
              Description(task.nombre, workDate))
  }

  /** The entries of one task's row, Monday first, skipping days without hours. */
  function RowEntries(ctx: SaveContext, task: Task, row: seq<real>): seq<TimeEntry>
  {
    if row == [] then []
    else
      var d := |row| - 1;
      RowEntries(ctx, task, row[..d]) + (if row[d] > 0.0 then [MakeEntry(ctx, task, d, row[d])] else [])
  }

  /** The entries of the whole grid, task by task. */
  function GridEntries(ctx: SaveContext, tasks: seq<Task>, grid: seq<seq<real>>): seq<TimeEntry>
    requires |grid| == |tasks|
  {
    if tasks == [] then []
    else
      var k := |tasks| - 1;
      GridEntries(ctx, tasks[..k], grid[..k]) + RowEntries(ctx, tasks[k], grid[k])
  }

  /** A row yields an entry for exactly the days with positive hours. */
  lemma {:induction false} RowEntriesMembership(ctx: SaveContext, task: Task, row: seq<real>, e: TimeEntry)
    ensures e in RowEntries(ctx, task, row)
        <==> exists d :: 0 <= d < |row| && row[d] > 0.0 && e == MakeEntry(ctx, task, d, row[d])
  {
    if row != [] {
      var n := |row| - 1;
      RowEntriesMembership(ctx, task, row[..n], e);
      if exists d :: 0 <= d < |row| && row[d] > 0.0 && e == MakeEntry(ctx, task, d, row[d]) {
        var d :| 0 <= d < |row| && row[d] > 0.0 && e == MakeEntry(ctx, task, d, row[d]);
        if d < n {
          assert row[..n][d] == row[d];
        }
      }
      if exists d :: 0 <= d < n && row[..n][d] > 0.0 && e == MakeEntry(ctx, task, d, row[..n][d]) {
        var d :| 0 <= d < n && row[..n][d] > 0.0 && e == MakeEntry(ctx, task, d, row[..n][d]);
        assert row[d] == row[..n][d];
      }
    }
  }

  /** An entry comes from the grid exactly when it comes from one of its
      rows. */
  lemma {:induction false} GridEntriesRows(ctx: SaveContext, tasks: seq<Task>, grid: seq<seq<real>>, e: TimeEntry)
    requires |grid| == |tasks|
    ensures e in GridEntries(ctx, tasks, grid)
        <==> exists k :: 0 <= k < |tasks| && e in RowEntries(ctx, tasks[k], grid[k])
  {
    if tasks != [] {
      var n := |tasks| - 1;
      var front, last := GridEntries(ctx, tasks[..n], grid[..n]), RowEntries(ctx, tasks[n], grid[n]);
      assert GridEntries(ctx, tasks, grid) == front + last;
      GridEntriesRows(ctx, tasks[..n], grid[..n], e);
      if e in front {
        var k :| 0 <= k < n && e in RowEntries(ctx, tasks[..n][k], grid[..n][k]);
        assert tasks[..n][k] == tasks[k] && grid[..n][k] == grid[k];
      } else if e !in last {
        forall k | 0 <= k < |tasks| ensures e !in RowEntries(ctx, tasks[k], grid[k]) {
          if k < n {
            assert tasks[..n][k] == tasks[k] && grid[..n][k] == grid[k];
          }
        }
      }
    }
  }

  /** The grid yields one entry for each (task, day) with positive hours,
      and no other. */
  lemma GridEntriesMembership(ctx: SaveContext, tasks: seq<Task>, grid: seq<seq<real>>, e: TimeEntry)
    requires |grid| == |tasks|
    ensures e in GridEntries(ctx, tasks, grid)
        <==> exists k, d :: 0 <= k < |tasks| && 0 <= d < |grid[k]| && grid[k][d] > 0.0
                            && e == MakeEntry(ctx, tasks[k], d, grid[k][d])
  {
    GridEntriesRows(ctx, tasks, grid, e);
    if e in GridEntries(ctx, tasks, grid) {
      var k :| 0 <= k < |tasks| && e in RowEntries(ctx, tasks[k], grid[k]);
      RowEntriesMembership(ctx, tasks[k], grid[k], e);
    }
    if exists k, d :: 0 <= k < |tasks| && 0 <= d < |grid[k]| && grid[k][d] > 0.0
                      && e == MakeEntry(ctx, tasks[k], d, grid[k][d]) {
      var k, d :| 0 <= k < |tasks| && 0 <= d < |grid[k]| && grid[k][d] > 0.0
                  && e == MakeEntry(ctx, tasks[k], d, grid[k][d]);
      RowEntriesMembership(ctx, tasks[k], grid[k], e);
    }
  }

  /** Every entry of a five-day grid falls on a weekday of the saved week,
      Monday to Friday, and has a non-negative number of minutes. */
  lemma EntriesWithinWeek(ctx: SaveContext, tasks: seq<Task>, grid: seq<seq<real>>, e: TimeEntry)
    requires |grid| == |tasks| && IsGrid(grid, WeekDays)
    requires e in GridEntries(ctx, tasks, grid)
    ensures ctx.monday <= e.workDate <= ctx.monday + 4 && e.workedMinutes >= 0
    ensures e.employeeId == ctx.employeeId && e.projectId == ctx.projectId
  {
    GridEntriesMembership(ctx, tasks, grid, e);
  }

  /** A grid whose grand total is not 0 has a cell with positive hours,
      so a save that passes that guard has at least one entry to send. */
  lemma SomethingToSave(ctx: SaveContext, tasks: seq<Task>, hoursData: map<string, seq<real>>)
    requires ValidHours(hoursData)
    requires Sum(RowTotals(HoursGrid(tasks, hoursData))) != 0.0
    ensures GridEntries(ctx, tasks, HoursGrid(tasks, hoursData)) != []
  {
    var g := HoursGrid(tasks, hoursData);
    if forall k, d :: 0 <= k < |g| && 0 <= d < WeekDays ==> g[k][d] <= 0.0 {
      forall k | 0 <= k < |g| ensures RowTotals(g)[k] == 0.0 {
        forall d | 0 <= d < |g[k]| ensures g[k][d] == 0.0 {
          assert g[k][d] == HoursOf(hoursData, tasks[k].id, d);
        }
        SumZeros(g[k]);
      }
      SumZeros(RowTotals(g));
    } else {
      var k, d :| 0 <= k < |g| && 0 <= d < WeekDays && g[k][d] > 0.0;
      GridEntriesMembership(ctx, tasks, g, MakeEntry(ctx, tasks[k], d, g[k][d]));
    }
  }

  /** `entriesToSave`: tasks in order and, within a task, Monday to Friday,
      one entry for each cell with hours > 0. */
  method BuildEntries(ctx: SaveContext, tasks: seq<Task>, grid: seq<seq<real>>) returns (entries: seq<TimeEntry>)
    requires |grid| == |tasks| && IsGrid(grid, WeekDays)
    ensures entries == GridEntries(ctx, tasks, grid)
  {
    entries := [];
    var k := 0;
    while k < |tasks|
      invariant 0 <= k <= |tasks|
      invariant entries == GridEntries(ctx, tasks[..k], grid[..k])
    {
      var row := grid[k];
      var d := 0;
      while d < WeekDays
        invariant 0 <= d <= WeekDays
        invariant entries == GridEntries(ctx, tasks[..k], grid[..k]) + RowEntries(ctx, tasks[k], row[..d])
      {
        assert row[..d + 1][..d] == row[..d];
        var hours := row[d];
        if hours > 0.0 {
          entries := entries + [MakeEntry(ctx, tasks[k], d, hours)];
        }
        d := d + 1;
      }
      assert row[..d] == row;
      assert tasks[..k + 1][..k] == tasks[..k] && grid[..k + 1][..k] == grid[..k];
      k := k + 1;
    }
    assert tasks[..k] == tasks && grid[..k] == grid;
  }

  // ---------------------------------------------------------------------
  // Creating the entries one request at a time

  /** How a run of `createTimeEntry` requests ends: every entry created, with
      the ids the server gave, or stopped at the first request that failed. */
  datatype SendResult = AllCreated(ids: seq<int>) | FailedAt(index: nat, message: string)

  /** The entries are sent in order and the first failure stops the run;
      `server` gives the answer to each request. */
  function SendInOrder(entries: seq<TimeEntry>, server: TimeEntry -> Outcome<int>): (r: SendResult)
    ensures r.AllCreated? ==>
      |r.ids| == |entries| && forall q :: 0 <= q < |entries| ==> server(entries[q]) == Success(r.ids[q])
    ensures r.FailedAt? ==>
      r.index < |entries| && server(entries[r.index]) == Failure(r.message)
      && forall q :: 0 <= q < r.index ==> server(entries[q]).Success?
  {
    if entries == [] then AllCreated([])
    else
      match server(entries[0])
      case Failure(message) => FailedAt(0, message)
      case Success(id) =>
        var rest := SendInOrder(entries[1..], server);
        if rest.AllCreated? then AllCreated([id] + rest.ids) else FailedAt(rest.index + 1, rest.message)
  }

  /** The entries for which a request went out: all of them, or those up
      to and including the first that failed. */
  function Attempted(entries: seq<TimeEntry>, server: TimeEntry -> Outcome<int>): (sent: seq<TimeEntry>)
    ensures sent <= entries
    ensures SendInOrder(entries, server).AllCreated? ==> sent == entries
    ensures SendInOrder(entries, server).FailedAt? ==>
      |sent| == SendInOrder(entries, server).index + 1 && server(sent[|sent| - 1]).Failure?
  {
    var run := SendInOrder(entries, server);
    if run.FailedAt? then entries[..run.index + 1] else entries
  }

  /** The run fails exactly when some request fails. */
  lemma SendFailsIff(entries: seq<TimeEntry>, server: TimeEntry -> Outcome<int>)
    ensures SendInOrder(entries, server).FailedAt? <==> exists q :: 0 <= q < |entries| && server(entries[q]).Failure?
  {
  }

  /** The `for ... await` loop over the entries: one `createTimeEntry` at a
      time, collecting the new ids, until one fails. */
  method SendEntries(entries: seq<TimeEntry>, server: TimeEntry -> Outcome<int>) returns (result: SendResult)
    ensures result == SendInOrder(entries, server)
  {
    var newEntryIds: seq<int> := [];
    var i := 0;
    while i < |entries|
      invariant 0 <= i <= |entries| && |newEntryIds| == i
      invariant forall q :: 0 <= q < i ==> server(entries[q]) == Success(newEntryIds[q])
    {
      var response := server(entries[i]);
      if response.Failure? {
        FirstFailure(entries, server, i);
        return FailedAt(i, response.message);
      }
      newEntryIds := newEntryIds + [response.value];
      i := i + 1;
    }
    AllSucceeded(entries, server, newEntryIds);
    result := AllCreated(newEntryIds);
  }

  /** What the save reports. */
  datatype SaveOutcome = WeekClosed | NothingToSave | Cancelled | Saved(ids: seq<int>) | SaveFailed

  /** What the submission reports; `Submitted` navigates to the employee's
      hours page. */
  datatype SubmitOutcome = NothingSaved | SubmitWeekClosed | SubmitCancelled | Submitted | SubmitFailed

  /** The text `saveHours` puts before the message of the error it caught. */
  const SaveErrorPrefix: string := "\U{274C} Error al guardar las horas: "

  /** The page's state. */
  class HourEntryPage {
    var tasks: seq<Task>
    var hoursData: map<string, seq<real>>
    var savedEntryIds: seq<int>
    var weekValue: string
    var error: Option<string>

    ghost predicate Valid()
      reads this
    {
      ValidHours(hoursData)
    }

    /** The page as first rendered: the week shown is `currentWeek`, the
        value of `getCurrentWeekString()` in that render. */
    constructor(currentWeek: string)
      ensures Valid()
      ensures tasks == [] && hoursData == map[] && savedEntryIds == []
      ensures weekValue == currentWeek && error == None
    {
      tasks := [];
      hoursData := map[];
      savedEntryIds := [];
      weekValue := currentWeek;
      error := None;
    }

    /** `loadTasks`: a failed request or an empty task list sets an error;
        otherwise the tasks are shown with every cell at 0. */
    method LoadTasks(response: Outcome<Option<seq<Task>>>)
      requires Valid()
      modifies this`tasks, this`hoursData, this`error
      ensures Valid()
      ensures response.Failure? ==>
        error == Some("Error al cargar tareas: " + response.message) && tasks == old(tasks) && hoursData == old(hoursData)
      ensures response.Success? && (response.value.None? || response.value.value == []) ==>
        error == Some("No hay tareas disponibles en este proyecto") && tasks == [] && hoursData == old(hoursData)
      ensures response.Success? && response.value.Some? && response.value.value != [] ==>
        error == None && tasks == response.value.value && hoursData == ZeroHours(tasks)
    {
      error := None;
      match response {
        case Failure(message) =>
          error := Some("Error al cargar tareas: " + message);
        case Success(loaded) =>
          if loaded.None? || |loaded.value| == 0 {
            error := Some("No hay tareas disponibles en este proyecto");
            tasks := [];
          } else {
            tasks := loaded.value;
            ZeroHoursGrid(tasks);
            hoursData := ZeroHours(tasks);
          }
      }
    }

    /** `handleHourInput`: the clamped value goes into one cell. */
    method HandleHourInput(taskId: string, day: nat, parsed: Option<real>)
      requires Valid() && day < WeekDays
      modifies this`hoursData
      ensures Valid()
      ensures hoursData == SetHour(old(hoursData), taskId, day, ClampHours(parsed))
    {
      hoursData := SetHour(hoursData, taskId, day, ClampHours(parsed));
    }

    /** `totals`: each task's total, each day's total and the grand total,
        which is both the sum of the task totals and of the day totals. */
    method Totals() returns (dayTotals: seq<real>, grandTotal: real, taskTotals: seq<real>)
      ensures taskTotals == RowTotals(HoursGrid(tasks, hoursData))
      ensures dayTotals == ColumnTotals(HoursGrid(tasks, hoursData), WeekDays)
      ensures grandTotal == Sum(taskTotals) == Sum(dayTotals)
    {
      taskTotals, dayTotals, grandTotal := GridTotals(HoursGrid(tasks, hoursData), WeekDays);
    }

    /** `resetTable`: every task's week back to 0, and no saved ids. */
    method ResetTable()
      requires Valid()
      modifies this`hoursData, this`savedEntryIds
      ensures Valid()
      ensures hoursData == ZeroHours(tasks) && savedEntryIds == []
    {
      ZeroHoursGrid(tasks);
      hoursData := ZeroHours(tasks);
      savedEntryIds := [];
    }

    /** `totals.grandTotal`. */
    function GrandTotal(): real
      reads this
    {
      Sum(RowTotals(HoursGrid(tasks, hoursData)))
    }

    /** `getMondayFromWeekInput(weekValue)` on day `today`. */
    function WeekMonday(today: int): Option<int>
      reads this
    {
      GetMondayFromWeekInput(weekValue, today)
    }

    /** `entriesToSave` for the week starting on `monday`. */
    function PendingEntries(monday: int, employeeId: string, projectId: string): seq<TimeEntry>
      reads this
    {
      GridEntries(SaveContext(employeeId, projectId, monday), tasks, HoursGrid(tasks, hoursData))
    }

    /** `saveHours` in a render whose week string is `currentWeek`, on day
        `today`. It refuses a closed week and a grid whose grand total is
        0, and stops if the user does not confirm; then nothing changes.
        Otherwise it goes on as `SaveConfirmed`. */
    method SaveHours(currentWeek: string, today: int, confirmed: bool, employeeId: string, projectId: string,
                     server: TimeEntry -> Outcome<int>)
      returns (outcome: SaveOutcome, sent: seq<TimeEntry>)
      requires Valid()
      modifies this`hoursData, this`savedEntryIds, this`error
      ensures Valid()
      ensures outcome == WeekClosed <==> IsWeekClosed(old(weekValue), currentWeek)
      ensures outcome == NothingToSave <==> !IsWeekClosed(old(weekValue), currentWeek) && old(GrandTotal()) == 0.0
      ensures outcome == Cancelled <==>
        !IsWeekClosed(old(weekValue), currentWeek) && old(GrandTotal()) != 0.0 && !confirmed
      ensures outcome.WeekClosed? || outcome.NothingToSave? || outcome.Cancelled? ==> sent == [] && unchanged(this)
      ensures (outcome.Saved? || outcome.SaveFailed?) && old(WeekMonday(today)).None? ==>
        outcome == SaveFailed && sent == [] && hoursData == old(hoursData) && savedEntryIds == old(savedEntryIds)
        && error == Some(SaveErrorPrefix + "Invalid time value")
      ensures (outcome.Saved? || outcome.SaveFailed?) && old(WeekMonday(today)).Some? ==>
        var entries := old(PendingEntries(WeekMonday(today).value, employeeId, projectId));
        var run := SendInOrder(entries, server);
        sent == Attempted(entries, server)
        && (run.AllCreated? ==>
              outcome == Saved(run.ids) && hoursData == ZeroHours(tasks) && savedEntryIds == [] && error == None)
        && (run.FailedAt? ==>
              outcome == SaveFailed && hoursData == old(hoursData) && savedEntryIds == old(savedEntryIds)
              && error == Some(SaveErrorPrefix + run.message))
    {
      if IsWeekClosed(weekValue, currentWeek) {
        return WeekClosed, [];
      }
      var dayTotals, grandTotal, taskTotals := Totals();
      if grandTotal == 0.0 {
        return NothingToSave, [];
      }
      if !confirmed {
        return Cancelled, [];
      }
      outcome, sent := SaveConfirmed(today, employeeId, projectId, server);
    }

    /** The `try` block of `saveHours`, reached only once the grand total
        is not 0. A week value that does not parse
        gives an invalid Monday, and building the first entry throws
        before any request (`SomethingToSave` shows that there is a first
        entry once the total is not 0). Otherwise the entries are sent one
        at a time. If a request fails, the error is shown and neither the
        grid nor the saved ids change. If all succeed, the new ids are
        stored and then `resetTable` runs, which empties them again. */
    method SaveConfirmed(today: int, employeeId: string, projectId: string, server: TimeEntry -> Outcome<int>)
      returns (outcome: SaveOutcome, sent: seq<TimeEntry>)
      requires Valid() && GrandTotal() != 0.0
      modifies this`hoursData, this`savedEntryIds, this`error
      ensures Valid()
      ensures outcome.Saved? || outcome.SaveFailed?
      ensures old(WeekMonday(today)).None? ==>
        outcome == SaveFailed && sent == [] && hoursData == old(hoursData) && savedEntryIds == old(savedEntryIds)
        && error == Some(SaveErrorPrefix + "Invalid time value")
      ensures old(WeekMonday(today)).Some? ==>
        var entries := old(PendingEntries(WeekMonday(today).value, employeeId, projectId));
        var run := SendInOrder(entries, server);
        sent == Attempted(entries, server)
        && (run.AllCreated? ==>
              outcome == Saved(run.ids) && hoursData == ZeroHours(tasks) && savedEntryIds == [] && error == None)
        && (run.FailedAt? ==>
              outcome == SaveFailed && hoursData == old(hoursData) && savedEntryIds == old(savedEntryIds)
              && error == Some(SaveErrorPrefix + run.message))
    {
      var monday := GetMondayFromWeekInput(weekValue, today);
      if monday.None? {
        error := Some(SaveErrorPrefix + "Invalid time value");
        return SaveFailed, [];
      }
      var entries := BuildEntries(SaveContext(employeeId, projectId, monday.value), tasks, HoursGrid(tasks, hoursData));
      var result := SendEntries(entries, server);
      RecordRun(result);
      sent := Attempted(entries, server);
      outcome := if result.FailedAt? then SaveFailed else Saved(result.ids);
    }

    /** How `saveHours` ends after its run of requests: a failure shows its
        message; a complete run stores the new ids and then `resetTable`
        clears the grid and the ids. */
    method RecordRun(result: SendResult)
      requires Valid()
      modifies this`hoursData, this`savedEntryIds, this`error
      ensures Valid()
      ensures result.FailedAt? ==>
        hoursData == old(hoursData) && savedEntryIds == old(savedEntryIds)
        && error == Some(SaveErrorPrefix + result.message)
      ensures result.AllCreated? ==> hoursData == ZeroHours(tasks) && savedEntryIds == [] && error == None
    {
      if result.FailedAt? {
        error := Some(SaveErrorPrefix + result.message);
      } else {
        error := None;
        savedEntryIds := result.ids;
        ResetTable();
      }
    }

    /** `submitToSupervisor` in a render whose week string is `currentWeek`.
        It refuses when nothing has been saved or the week is closed, and
        stops if the user does not confirm. Otherwise all saved ids go in
        one request; on success the table is reset, on failure the error
        is shown. */
    method SubmitToSupervisor(currentWeek: string, confirmed: bool, response: Outcome<()>)
      returns (outcome: SubmitOutcome, sent: Option<seq<int>>)
      requires Valid()
      modifies this`hoursData, this`savedEntryIds, this`error
      ensures Valid()
      ensures old(savedEntryIds) == [] ==> outcome == NothingSaved
      ensures old(savedEntryIds) != [] && IsWeekClosed(old(weekValue), currentWeek) ==> outcome == SubmitWeekClosed
      ensures outcome == SubmitCancelled <==> old(savedEntryIds) != [] && !IsWeekClosed(old(weekValue), currentWeek) && !confirmed
      ensures sent.Some? <==> old(savedEntryIds) != [] && !IsWeekClosed(old(weekValue), currentWeek) && confirmed
      ensures sent.Some? ==> sent.value == old(savedEntryIds)
      ensures sent.None? ==> unchanged(this)
      ensures sent.Some? && response.Success? ==>
        outcome == Submitted && hoursData == ZeroHours(tasks) && savedEntryIds == [] && error == None
      ensures sent.Some? && response.Failure? ==>
        outcome == SubmitFailed && hoursData == old(hoursData) && savedEntryIds == old(savedEntryIds)
        && error == Some("Error al enviar para aprobaci\U{F3}n: " + response.message)
    {
      if |savedEntryIds| == 0 {
        return NothingSaved, None;
      }
      if IsWeekClosed(weekValue, currentWeek) {
        return SubmitWeekClosed, None;
      }
      if !confirmed {
        return SubmitCancelled, None;
      }
      error := None;
      sent := Some(savedEntryIds);
      if response.Success? {
        ResetTable();
        outcome := Submitted;
      } else {
        error := Some("Error al enviar para aprobaci\U{F3}n: " + response.message);
        outcome := SubmitFailed;
      }
    }

    /** Saving and then submitting in the same week: because a successful
        save ends with `resetTable`, the saved ids are gone and the
        submission is refused as if nothing had been saved. */
    method SaveThenSubmit(currentWeek: string, today: int, employeeId: string, projectId: string,
                          server: TimeEntry -> Outcome<int>, response: Outcome<()>)
      returns (saved: SaveOutcome, submitted: SubmitOutcome)
      requires Valid()
      modifies this`hoursData, this`savedEntryIds, this`error
      ensures saved.Saved? ==> submitted == NothingSaved
    {
      var entriesSent, idsSent;
      saved, entriesSent := SaveHours(currentWeek, today, true, employeeId, projectId, server);
      submitted, idsSent := SubmitToSupervisor(currentWeek, true, response);
    }
  }

  /** The first failing request decides how the run ends. */
  lemma FirstFailure(entries: seq<TimeEntry>, server: TimeEntry -> Outcome<int>, i: nat)
    requires i < |entries| && server(entries[i]).Failure?
    requires forall q :: 0 <= q < i ==> server(entries[q]).Success?
    ensures SendInOrder(entries, server) == FailedAt(i, server(entries[i]).message)
  {
  }

  /** When every request succeeds, the run reports the ids in order. */
  lemma AllSucceeded(entries: seq<TimeEntry>, server: TimeEntry -> Outcome<int>, ids: seq<int>)
    requires |ids| == |entries| && forall q :: 0 <= q < |entries| ==> server(entries[q]) == Success(ids[q])
    ensures SendInOrder(entries, server) == AllCreated(ids)
  {
    var r := SendInOrder(entries, server);
    assert r.ids == ids;
  }
}
