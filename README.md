# Timesheet and cost pages: a Dafny model

This project models the logic of a timesheet and labour-cost front end:

- the ISO week helpers (`dateUtils`);
- the developer's weekly hour grid and its save/submit flow (`HourEntry`);
- the developer's own entries with selection and submission (`MyHours`);
- the supervisor's approval page (`ApproveHours`);
- the role cost catalogue with its percentage adjustments and mass update (`CostosPage`);
- the project cost matrix (`ProjectCostReport`) and the yearly report search (`ReportesPage`);
- one employee's weekly hours report (`ResourceWeeklyHoursReport`);
- the login decision (`LoginPage`) and the manager-free resource list (`WeeklyHoursResourceSelection`).

Dates are day numbers: day 0 is Monday 1 January of year 1 in the proleptic Gregorian calendar. `Calendar` converts between day numbers and dates. "Today" is always a parameter. Hours and costs are reals. Server calls become `Outcome` parameters (`Success(value)` or `Failure(message)`). `confirm` and `prompt` answers are parameters too.

Page state is a `class` whose methods change the fields the source's state setters change. Pure helpers are functions. Loops are methods with invariants, proved against the functions that specify them.

Shared modules:

- `Common` holds `Option`, `Outcome`, `Filter`, sums and grid totals.
- `Text` holds number formatting and parsing, `split`, `trim`, lower-casing, `includes` and string sorting.

Some behaviours of the source are kept as written and stated by lemmas:

- The week string carries the calendar year, not the ISO week-year. On 2024-12-30 it reads `2024-W01`, which points back to 2024-01-01 (`DateUtils.CalendarYearRoundTripMisses`).
- Saturday and Sunday entries give an all-zero detail row in the approval page (`ApproveHours.WeekendRowZero`).
- The list column of the approval page and its detail row disagree when `totalHours` is 0 but minutes were worked (`ApproveHours.ListAndDetailDiffer`).
- After a successful save, `resetTable` empties the saved ids that the save has just stored. A submit right after a save therefore finds nothing to send (`HourEntry.HourEntryPage.SaveThenSubmit`).
- A cost request carries the role's name in its `rolId` field (`CostosPage.RequestOf`).
- A cost with id 0 counts as "not editing" (`CostosPage.OwnRecordNeverClashes` needs a nonzero id).
- A rejection asks for a reason but sends only the entry id (`ApproveHours.ApproveHoursPage.HandleAction`).
- An unknown status is badged as a draft but cannot be selected (`MyHours.UnknownStatusLooksDraft`).
- Toggling a selected id twice moves it to the end of the selection (`MyHours.ToggleTwice`).

## Model

| member | source | states |
|---|---|---|
| DateUtils.GetWeekNumber | src/utils/dateUtils.js:11-17 | the ISO week number lies in 1..53 |
| DateUtils.SameWeekSameNumber | src/utils/dateUtils.js:13-14 | all seven days from a Monday to its Sunday shift to the same Thursday, so they share the week number and the week-year |
| DateUtils.YearBoundaryWeeks | src/utils/dateUtils.js:12-16 | 2023-01-01 is in week 52 of 2022; 2024-12-30 is in week 1 of 2025 |
| DateUtils.WeekNumberLocatesMonday | src/utils/dateUtils.js:11-17 | the Monday of a day's week is week 1's Monday of its week-year plus seven days per further week |
| DateUtils.Week1HoldsFirstThursday | src/utils/dateUtils.js:28-31 | week 1's Monday is followed, three days later, by the year's first Thursday |
| DateUtils.MondayOfIsoWeek | src/utils/dateUtils.js:28-36 | the Monday of week 1 plus (week - 1) weeks, with two-digit years read as 19xx |
| DateUtils.JsYear | src/utils/dateUtils.js:28 | `new Date(y, 0, 4)` reads years 0..99 as 1900..1999 and any other year as itself |
| DateUtils.GetMondayFromWeekInput | src/utils/dateUtils.js:19-37 | an empty week value falls back to today's Monday; any result is a Monday |
| DateUtils.ParseWeekString | src/utils/dateUtils.js:24-26 | splitting a week string at "-W" and parsing both parts gives back its year and week |
| DateUtils.WeekInputOfWeekString | src/utils/dateUtils.js:19-37 | a week string leads to the Monday of that ISO week |
| DateUtils.FirstWeekOf2024 | src/utils/dateUtils.js:28-36 | week 1 of 2024 starts on 2024-01-01 |
| DateUtils.WeekString2024W01 | src/utils/dateUtils.js:8 | year 2024 with week 1 is written "2024-W01", zero-padded to two digits |
| DateUtils.CurrentWeekInput | src/utils/dateUtils.js:4-9 | the current week string leads to the Monday of the ISO week numbered in the calendar year |
| DateUtils.WeekStringRoundTrip | src/utils/dateUtils.js:4-37 | when the week-year equals the calendar year, the current week string leads back to the day's Monday, at most six days earlier |
| DateUtils.CalendarYearWeekString | src/utils/dateUtils.js:4-9 | 2024-12-30 is a Monday in week 1 whose calendar-year week string leads to a Monday 364 days earlier |
| DateUtils.CalendarYearRoundTripMisses | src/utils/dateUtils.js:6-8 | for 2024-12-30 the week string's round trip lands 364 days early |
| DateUtils.IsoWeekStringRoundTrip | src/utils/dateUtils.js:11-37 | written with the ISO week-year, the week string always leads back to the day's Monday |
| DateUtils.GetMonday | src/utils/dateUtils.js:39-44 | a Monday at most six days back; a Sunday goes back six days |
| DateUtils.SetDateMovesByDays | src/utils/dateUtils.js:31 | `setDate(getDate() + k)` moves a date by k days, month overflow included |
| DateUtils.FormatDateReadBack | src/utils/dateUtils.js:46-49 | the label splits into the weekday name and "day/month", and both numbers read back, with the month in 1..12 |
| ProjectCostReport.RenderReport | src/pages/ProjectCostReport.js:120-167 | no table without resources or months; otherwise the cells are the summed costs, and the row and month subtotals have the same grand total |
| ProjectCostReport.FillCosts | src/pages/ProjectCostReport.js:133-147 | the nested loops fill each resource's month cell with the sum of its cost facts |
| ProjectCostReport.DuplicateFactsAdd | src/pages/ProjectCostReport.js:142-145 | two facts for the same resource and month are added, not overwritten |
| ProjectCostReport.OtherFactsIgnored | src/pages/ProjectCostReport.js:141-145 | a month's facts for other resources or months leave a cell unchanged |
| ProjectCostReport.GrandTotalOfFacts | src/pages/ProjectCostReport.js:150-164 | the grand total is the sum of all cost facts of listed resources in months 1..12 |
| ProjectCostReport.SumPerResource | src/pages/ProjectCostReport.js:142-145 | one month's facts, split per listed resource, add up to their known total |
| ProjectCostReport.RowLabel | src/pages/ProjectCostReport.js:211-213 | the full name, else the trimmed "nombre apellido", else the resource id |
| ProjectCostReport.BlankNameShowsId | src/pages/ProjectCostReport.js:211-213 | a blank first and last name shows the resource id |
| ProjectCostReport.YearOptions | src/pages/ProjectCostReport.js:21-26 | five years, from the current one downwards |
| HourEntry.ZeroHours | src/pages/HourEntry.js:63-67 | every task gets a row of five zeros, and only tasks get rows |
| HourEntry.ZeroHoursGrid | src/pages/HourEntry.js:119-124 | the reset grid is well formed, all zero, with total 0 |
| HourEntry.ClampHours | src/pages/HourEntry.js:84-86 | input below 0 or not a number gives 0, above 24 gives 24, otherwise the input |
| HourEntry.ClampIdempotent | src/pages/HourEntry.js:86 | clamping a clamped value changes nothing |
| HourEntry.SetHour | src/pages/HourEntry.js:88-91 | only the edited task and day change |
| HourEntry.WeekClosedIff | src/pages/HourEntry.js:29-35 | a week is closed exactly when its calendar year or week number differs from today's |
| HourEntry.RoundMinutes | src/pages/HourEntry.js:166 | the minutes are the hours times 60, rounded half up |
| HourEntry.DescriptionText | src/pages/HourEntry.js:167 | "task - formatted date" |
| HourEntry.GridEntriesMembership | src/pages/HourEntry.js:154-172 | an entry is built exactly for each task and day with positive hours |
| HourEntry.EntriesWithinWeek | src/pages/HourEntry.js:158-166 | each entry falls Monday..Friday of the chosen week, for the employee and project, with non-negative minutes |
| HourEntry.SomethingToSave | src/pages/HourEntry.js:137-157 | a nonzero total always yields at least one entry |
| HourEntry.BuildEntries | src/pages/HourEntry.js:154-172 | the nested loops build the grid's entries in task, then day order |
| HourEntry.SendInOrder | src/pages/HourEntry.js:175-179 | either every entry was created, with its id, or the run stops at the first failure |
| HourEntry.SendFailsIff | src/pages/HourEntry.js:175-179 | the run fails exactly when some entry fails |
| HourEntry.FirstFailure | src/pages/HourEntry.js:175-179 | the failure reported is the first failing entry |
| HourEntry.SendEntries | src/pages/HourEntry.js:175-179 | the sequential `for…await` loop performs that run |
| HourEntry.Attempted | src/pages/HourEntry.js:175-179 | the entries sent are a prefix, ending at the failing entry |
| HourEntry.HourEntryPage.Totals | src/pages/HourEntry.js:97-114 | task totals, day totals and one grand total both ways |
| HourEntry.HourEntryPage.LoadTasks | src/pages/HourEntry.js:47-76 | no tasks is an error; otherwise the tasks and a zero grid; a failure keeps the state |
| HourEntry.HourEntryPage.HandleHourInput | src/pages/HourEntry.js:84-92 | the clamped value is written to one cell |
| HourEntry.HourEntryPage.ResetTable | src/pages/HourEntry.js:119-126 | a zero grid and no saved ids |
| HourEntry.HourEntryPage.SaveHours | src/pages/HourEntry.js:131-194 | closed week, zero total and no confirmation send nothing; otherwise the entries go out in order, and success resets the table, saved ids included |
| HourEntry.HourEntryPage.SubmitToSupervisor | src/pages/HourEntry.js:199-233 | nothing saved or a closed week sends nothing; with saved ids in an open week it is cancelled exactly when the user does not confirm; otherwise the saved ids are sent and success resets |
| HourEntry.HourEntryPage.SaveThenSubmit | src/pages/HourEntry.js:181-184 | after a successful save the submit finds nothing saved |
| CostosPage.CostosFiltrados | src/pages/CostosPage.js:90-96 | exactly the costs dated in the selected year and month, in order |
| CostosPage.DateInPeriod | src/pages/CostosPage.js:91-95 | a "YYYY-MM-DD" date is in the period exactly when its year and month parse to the filter's |
| CostosPage.FindRole | src/pages/CostosPage.js:70 | the role with the cost's role id, or none when no role has it |
| CostosPage.FindRoleFirst | src/pages/CostosPage.js:70 | the first matching role |
| CostosPage.JoinRoleFound | src/pages/CostosPage.js:69-76 | a cost whose role exists shows that role's name and seniority |
| CostosPage.JoinRoleMissing | src/pages/CostosPage.js:72-73 | a cost without a role shows "Rol Desconocido" and "N/A" |
| CostosPage.JoinRoles | src/pages/CostosPage.js:69-76 | one listed cost per record, in order |
| CostosPage.WithPercentage | src/pages/CostosPage.js:98-106 | a missing base stays missing; base times (1 + p/100) when both are given; no percentage leaves the base |
| CostosPage.NegativeAdjustment | src/pages/CostosPage.js:98-106 | the adjusted cost is negative exactly for a positive base below -100% or a negative base not at or below -100% |
| CostosPage.PercentageInverse | src/pages/CostosPage.js:98-106 | a raise of p% is undone by -100p/(100+p)% |
| CostosPage.DuplicateIffListed | src/pages/CostosPage.js:177-194 | a duplicate is a cost of the form's period with the same role and seniority that is not the one being edited |
| CostosPage.OwnRecordNeverClashes | src/pages/CostosPage.js:179 | the record being edited never clashes with itself |
| CostosPage.RequestOf | src/pages/CostosPage.js:202-210 | the request carries the role name in both `rolId` and `nombre`, and the form's seniority, cost and period |
| CostosPage.EditForm | src/pages/CostosPage.js:124-151 | editing copies the role and cost, and maps seniority "N/A" to empty |
| CostosPage.EditFormKeepsPeriod | src/pages/CostosPage.js:130-137 | editing a listed cost keeps the filter's period |
| CostosPage.MassUpdates | src/pages/CostosPage.js:282-292 | one update per affected cost, with its adjusted value and the form's period |
| CostosPage.MassUpdatesSafe | src/pages/CostosPage.js:251-292 | once the negative check passes, no update is negative and each targets a cost of the period |
| CostosPage.UniqueRoles | src/pages/CostosPage.js:116 | the role names, sorted and without repeats |
| CostosPage.FilteredExperiencias | src/pages/CostosPage.js:119-122 | the seniorities of the chosen role's records, sorted, and a permutation of them: each seniority appears as many times as records carry it |
| CostosPage.FormatVigencia | src/pages/CostosPage.js:311-312 | a missing date shows "-" |
| CostosPage.FormatVigenciaNoDash | src/pages/CostosPage.js:313-314 | a date without "-" is shown as it is |
| CostosPage.FormatVigenciaDate | src/pages/CostosPage.js:315-319 | "YYYY-MM-DD" shows the Spanish month name and the year, or the raw month when it is out of range |
| CostosPage.CostosPage.constructor | src/pages/CostosPage.js:10-46 | filters and forms start on today's month and year, with nothing open |
| CostosPage.CostosPage.Listed | src/pages/CostosPage.js:90-96 | the table shows the costs of the filter's period |
| CostosPage.CostosPage.LoadData | src/pages/CostosPage.js:56-88 | roles stored, or an empty list; costs joined with roles; a failure keeps the state |
| CostosPage.CostosPage.NewCost | src/pages/CostosPage.js:235-246 | an empty form for the filter's period, not editing |
| CostosPage.CostosPage.Edit | src/pages/CostosPage.js:124-151 | the form of the record, its cost as base, no percentage |
| CostosPage.CostosPage.ApplyPercentage | src/pages/CostosPage.js:108-113 | while editing with a percentage, the cost is the adjusted base |
| CostosPage.CostosPage.SelectRole | src/pages/CostosPage.js:536-541 | choosing a role replaces the form's role and clears its seniority, nothing else changes |
| CostosPage.CostosPage.SetPercentage | src/pages/CostosPage.js:108-113 | typing a percentage while editing by percentage stores it and sets the cost to the base adjusted by it |
| CostosPage.CostosPage.TogglePercentage | src/pages/CostosPage.js:600-611 | unchecking restores the base cost and clears the percentage |
| CostosPage.CostosPage.Save | src/pages/CostosPage.js:166-233 | a negative cost or a duplicate sends nothing; otherwise one create or update; failure changes nothing, and success closes the form, shows its period and leaves what `loadData` leaves |
| CostosPage.CostosPage.OpenMassModal | src/pages/CostosPage.js:386-391 | the mass form opens on the month and year on screen with no percentage |
| CostosPage.CostosPage.MassUpdate | src/pages/CostosPage.js:248-309 | no costs, a negative result or no confirmation sends nothing; otherwise all updates; success closes the modal and moves the filter, failure keeps both, and either way the page is reloaded |
| MyHours.CurrentWeekDates | src/pages/MyHours.js:20-34 | the Monday and Sunday of today's week, with today between them; a Sunday goes back six days |
| MyHours.CurrentWeekIsGetMonday | src/pages/MyHours.js:20-34 | the range starts on the same Monday as `getMonday` |
| MyHours.DraftBadgeIff | src/pages/MyHours.js:157-165 | the draft badge shows exactly for drafts and unknown statuses; known statuses have distinct texts |
| MyHours.UnknownStatusLooksDraft | src/pages/MyHours.js:157-165 | an unknown status looks like a draft but cannot be selected |
| MyHours.Shortened | src/pages/MyHours.js:188 | the first twelve characters of an id followed by "..." |
| MyHours.GetProjectDisplay | src/pages/MyHours.js:184-189 | the project name, else the shortened id |
| MyHours.GetTaskDisplay | src/pages/MyHours.js:191-199 | the task name unless it is the placeholder, else the shortened task id, else "Sin tarea" |
| MyHours.WithStatus | src/pages/MyHours.js:202-205 | exactly the entries with that status, in order |
| MyHours.GroupsPartition | src/pages/MyHours.js:202-205 | the four groups together hold every entry with a known status once |
| MyHours.SortNewestFirst | src/pages/MyHours.js:64-66 | the array ends sorted newest first and is a permutation of its old contents |
| MyHours.InsertNewest | src/pages/MyHours.js:64-66 | one insertion step extends the sorted prefix by one |
| MyHours.Toggle | src/pages/MyHours.js:89-95 | a selected id is removed, an unselected one appended; no repeats appear |
| MyHours.ToggleTwice | src/pages/MyHours.js:89-95 | toggling twice restores the set of selected ids, and restores the list exactly for an unselected id |
| MyHours.DraftIds | src/pages/MyHours.js:97-102 | one id per draft, in list order: the i-th id is the i-th draft's, their number is the number of drafts, and no other id appears |
| MyHours.DraftIdsDistinct | src/pages/MyHours.js:97-102 | when no two entries share an id, the drafts' ids have no repeats |
| MyHours.MyHoursPage.LoadMyHours | src/pages/MyHours.js:47-84 | the entries newest first, a permutation of the answer; a failure keeps them and shows the error |
| MyHours.MyHoursPage.ToggleSelection | src/pages/MyHours.js:89-95 | the selection toggles and stays made of drafts |
| MyHours.MyHoursPage.SelectAllDrafts | src/pages/MyHours.js:97-102 | the selection becomes the drafts' ids in list order, and stays free of repeats when the entries' ids are |
| MyHours.MyHoursPage.HandleSubmit | src/pages/MyHours.js:107-137 | nothing selected or no confirmation sends nothing; otherwise the selection is sent; failure shows the error, and success clears the selection and reloads the week newest first |
| ApproveHours.DayIndex | src/pages/ApproveHours.js:81-92 | Monday..Friday give columns 0..4; Saturday and Sunday give -1 |
| ApproveHours.HoursRowShowsEntry | src/pages/ApproveHours.js:95-98 | at most the entry's weekday cell is nonzero; a weekday row adds up to the entry's hours, a weekend row to 0 |
| ApproveHours.WeekendRowZero | src/pages/ApproveHours.js:86-98 | a weekend entry's row is all zeros |
| ApproveHours.HoursArray | src/pages/ApproveHours.js:95-98 | the new five-cell array is the detail row |
| ApproveHours.ListAndDetailDiffer | src/pages/ApproveHours.js:97-221 | list and detail hours differ exactly when the total is 0 and minutes are not |
| ApproveHours.ProjectLabel | src/pages/ApproveHours.js:102 | the project name when given, else the project id |
| ApproveHours.TaskLabel | src/pages/ApproveHours.js:103 | the task name, else the task id, else "Sin tarea"; never empty |
| ApproveHours.ReasonGivenIff | src/pages/ApproveHours.js:56-60 | a reason is accepted exactly when it holds a non-space character |
| ApproveHours.ApproveHoursPage.LoadApprovals | src/pages/ApproveHours.js:15-38 | a missing or empty answer gives an empty list; a failure keeps the list and shows the error |
| ApproveHours.ApproveHoursPage.HandleAction | src/pages/ApproveHours.js:44-72 | no confirmation, or a rejection without a reason, sends nothing and changes nothing; otherwise one approve or reject request for the id, and after success the list is reloaded |
| ApproveHours.ApproveHoursPage.ToggleDetail | src/pages/ApproveHours.js:240-241 | the detail button opens the entry, or closes it when it is already open |
| ReportesPage.MonthlyCosts | src/pages/ReportesPage.js:23 | one cost per month element, same order and length |
| ReportesPage.ProjectRowOf | src/pages/ReportesPage.js:25-30 | id, name and total copied from the response; months projected |
| ReportesPage.ProjectRows | src/pages/ReportesPage.js:21-31 | one row per report element, in order |
| ReportesPage.CargarDatos | src/pages/ReportesPage.js:15-40 | on success the rows are ProjectRows of the answer, one per element with its id and name; a failure keeps the rows shown |
| ReportesPage.ProyectosFiltrados | src/pages/ReportesPage.js:46-48 | exactly the projects whose lower-cased name contains the lower-cased query, in order |
| ReportesPage.EmptySearchKeepsAll | src/pages/ReportesPage.js:46-48 | an empty query shows every project |
| ReportesPage.SearchFoldsCase | src/pages/ReportesPage.js:46-48 | "ŁÓDŹ" finds "Łódź" and "проект" finds "Проект Норд" |
| ReportesPage.SearchIgnoresQueryCase | src/pages/ReportesPage.js:46-48 | lower-casing the query does not change the result |
| ResourceWeeklyHoursReport.TraducirEstado | src/pages/ResourceWeeklyHoursReport.js:24-27 | the four known statuses in Spanish; any other status unchanged |
| ResourceWeeklyHoursReport.BadgeOf | src/pages/ResourceWeeklyHoursReport.js:139-142 | green exactly for APPROVED, red exactly for REJECTED, yellow otherwise |
| ResourceWeeklyHoursReport.BadgeMatchesText | src/pages/ResourceWeeklyHoursReport.js:139-144 | green reads "Aprobado", red reads "Rechazado", yellow a draft, a submission or an untranslated status |
| ResourceWeeklyHoursReport.DescriptionLabel | src/pages/ResourceWeeklyHoursReport.js:137 | the description, or "-" when there is none |
| ResourceWeeklyHoursReport.WeeksIncluded | src/pages/ResourceWeeklyHoursReport.js:108 | the number of weeks, 0 when missing |
| ResourceWeeklyHoursReport.LastMonth | src/pages/ResourceWeeklyHoursReport.js:15-18 | the default start lies as many days back as the previous month has, 28 to 31 |
| ResourceWeeklyHoursReport.LastMonthSameDay | src/pages/ResourceWeeklyHoursReport.js:16 | the same day of the previous month when that month has it |
| ResourceWeeklyHoursReport.LastMonthOverflow | src/pages/ResourceWeeklyHoursReport.js:16 | a day the previous month lacks rolls forward into the current month |
| ResourceWeeklyHoursReport.DefaultRangeValid | src/pages/ResourceWeeklyHoursReport.js:15-19 | the default period passes the range check |
| ResourceWeeklyHoursReport.ReportPage.constructor | src/pages/ResourceWeeklyHoursReport.js:15-22 | the period from one month ago to today, with no report and no error |
| ResourceWeeklyHoursReport.ReportPage.GenerarReporte | src/pages/ResourceWeeklyHoursReport.js:33-51 | a missing date or a start after the end sends nothing and changes nothing; otherwise the report or the error |
| LoginPage.DetermineRole | src/pages/LoginPage.js:26-34 | manager exactly for the manager's role id; missing or any other id gives developer |
| LoginPage.RoleLabel | src/pages/LoginPage.js:37-41 | "Manager", "Desarrollador" or "Desconocido", each exactly for its case |
| LoginPage.LabelAgreesWithRole | src/pages/LoginPage.js:26-41 | the "Manager" label and the manager role go together |
| LoginPage.FindEmployee | src/pages/LoginPage.js:82 | an employee with the code, or none when no employee has it |
| LoginPage.FindEmployeeFirst | src/pages/LoginPage.js:82 | the first employee with the code |
| LoginPage.UserDataOf | src/pages/LoginPage.js:92-98 | id and employeeCode are the employee's id; the name is "nombre apellido"; the role is derived |
| LoginPage.HomeOf | src/pages/LoginPage.js:106-110 | "/modulos" exactly for managers |
| LoginPage.LoginForm.LoadEmployees | src/pages/LoginPage.js:45-61 | the list on success, the connection error otherwise |
| LoginPage.LoginForm.HandleLogin | src/pages/LoginPage.js:69-116 | no selection or an unknown code sets an error and stores no session; otherwise the user record, `isAuthenticated` "true" and the role's start page |
| WeeklyHoursResourceSelection.ExcludeManagers | src/pages/WeeklyHoursResourceSelection.js:25-27 | exactly the resources without the manager's role id, a missing id included, in order, never more |
| WeeklyHoursResourceSelection.KeptAreDevelopers | src/pages/WeeklyHoursResourceSelection.js:9-27 | the list holds exactly the resources who log in as developers |
| WeeklyHoursResourceSelection.ExcludeManagersIdempotent | src/pages/WeeklyHoursResourceSelection.js:25-27 | filtering again removes nothing |
| WeeklyHoursResourceSelection.LoadResources | src/pages/WeeklyHoursResourceSelection.js:18-38 | the filtered list, or the error message |

## Left out

- Network I/O, the HTTP clients and session-storage wrappers: every server call is an `Outcome` parameter.
- The clock: "today" is a parameter.
- Time zones: `toISOString` converts to UTC and can shift a date by one day; dates are local day numbers here.
- `Promise.all` partial failures and response ordering: a mass update and the cost page's load succeed or fail as a whole.
- Rendering, icons, CSS classes, loading flags and `alert` texts are not modelled.
- `toFixed`, `toLocaleString` and `toLocaleDateString` formatting is not modelled.
- Floating-point rounding: hours and costs are exact reals.
- HourEntry.RoundMinutes: rounds the exact product half up; the floating-point product is not modelled.
- `handleDelete` in CostosPage and MyHours: a confirm, a request and a reload, with no logic beyond them.
- MyHours.GetStatusInfo: a status naming a JavaScript object property (such as "constructor") is not modelled; all statuses other than the four are unknown.
- ResourceWeeklyHoursReport.TraducirEstado: the same prototype-property lookup is not modelled.
- HourEntry.HourEntryPage: takes the render's current week string as a parameter, as the component's closure does.
- Date inputs are day numbers, or `None` when empty; parsing a date string is not modelled.
- ResourceWeeklyHoursReport.ReportPage.GenerarReporte: does not model the missing-employee guard on the page, which only shows a message.
- ApproveHours: the employee column (`employeeName || employeeId`) follows the same fallback as ProjectLabel and is not modelled separately.
- ReportesPage: the year selector stores a string, and the year's effect on the request is not modelled.
- MyHours: the selection is not cleared when an entry is deleted or the list reloads, which matches the source; the model keeps the ids.
- NaN is not modelled: a number that fails to parse is `None`.
- DateUtils.GetWeekNumber: does not read years 0..99 as 19xx, as `Date.UTC` does; the only caller passes today's date.
- CostosPage.CostosPage.Save: a cost of `None` stands for both a missing value and text that is not a number. In the source, editing a record whose `costo` is null makes `formData.costo.toString()` throw before any request, and the modal stays open. The model sends the request with no cost instead.
- CostosPage.CostosPage.MassUpdate: for the same reason, a record of the month whose `costo` is null makes the source throw while building the requests. The updates built before it may already be sent, and the `catch` alerts and reloads. The model sends every update and reports the outcome of `response`.
- ReportesPage.ProyectosFiltrados: `toLowerCase` is modelled for the capitals of Basic Latin, Latin-1, Latin Extended-A and the basic Cyrillic block only. Other scripts are left unfolded: Greek (whose final sigma depends on context), Armenian, Georgian, Latin Extended-B and beyond, and İ (which lower-cases to two characters). A search in those scripts that differs only in case finds nothing here, while the source finds the project.
- Text.ParseInt: reads decimal text only; `parseInt` without a radix reads a "0x" prefix as hexadecimal, which no input of these pages carries.
- MyHours.SortNewestFirst: does not state that entries of the same day keep their order. `Array.prototype.sort` is stable, and so is the insertion sort here, but the contract only promises newest first and a permutation.
- MyHours.MyHoursPage.SelectAllDrafts: when two drafts share an id, the selection repeats it, as in the source; the model's other selection methods then cannot be called.
