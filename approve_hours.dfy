/** The supervisor's approval page: the pending time entries, each one
    approved or rejected after confirmation, and the detail row that places
    an entry's hours under its weekday. */
module ApproveHours {
  import opened Common
  import opened Text
  import opened Calendar

  /** A pending time entry; `workDate` is a day number. */
  datatype Approval = Approval(id: int, workDate: int, workedMinutes: int, totalHours: Option<real>,
                               projectId: string, projectName: Option<string>,
                               taskId: Option<string>, taskName: Option<string>)

  /** The detail row covers Monday to Friday. */
  const RowDays: nat := 5

  // ---------------------------------------------------------------------
  // The detail row

  /** The column of a weekday: Monday to Friday give 0 to 4, Saturday and
      Sunday give -1. */
  function DayIndex(workDate: int): (k: int)
    ensures -1 <= k < RowDays as int
    ensures k == -1 <==> IsoWeekday(workDate) >= 6
    ensures k >= 0 ==> k == IsoWeekday(workDate) - 1
  {
    JsWeekdayIso(workDate);
    var dayOfWeek := JsWeekday(workDate);
    if dayOfWeek == 0 then -1
    else if dayOfWeek == 6 then -1
    else dayOfWeek - 1
  }

  /** `entry.totalHours || entry.workedMinutes / 60`: the hours when they
      are given and not zero, the minutes in hours otherwise. */
  function DetailHours(e: Approval): real
  {
    if e.totalHours.Some? && e.totalHours.value != 0.0 then e.totalHours.value
    else e.workedMinutes as real / 60.0
  }

  /** The row `renderDetailedHours` shows: zero everywhere except, for a
      weekday, under that day. */
  function HoursRow(e: Approval): (row: seq<real>)
    ensures |row| == RowDays
  {
    var k := DayIndex(e.workDate);
    seq(RowDays, i requires 0 <= i < RowDays => if i == k then DetailHours(e) else 0.0)
  }

  /** At most one cell is nonzero, the one under the entry's weekday, and
      the row adds up to the entry's hours; a weekend entry shows nothing. */
  lemma HoursRowShowsEntry(e: Approval)
    ensures forall i :: 0 <= i < RowDays && HoursRow(e)[i] != 0.0 ==> i == DayIndex(e.workDate)
    ensures IsoWeekday(e.workDate) <= 5 ==> Sum(HoursRow(e)) == DetailHours(e)
    ensures IsoWeekday(e.workDate) >= 6 ==> Sum(HoursRow(e)) == 0.0
  {
    var row := HoursRow(e);
    assert row == [row[0], row[1], row[2], row[3], row[4]];
    SumOfFive(row[0], row[1], row[2], row[3], row[4]);
  }

  lemma SumOfFive(a: real, b: real, c: real, d: real, e: real)
    ensures Sum([a, b, c, d, e]) == a + b + c + d + e
  {
    assert [a][..0] == [];
    assert Sum([a]) == a;
    assert [a, b][..1] == [a];
    assert Sum([a, b]) == a + b;
    assert [a, b, c][..2] == [a, b];
    assert Sum([a, b, c]) == a + b + c;
    assert [a, b, c, d][..3] == [a, b, c];
    assert Sum([a, b, c, d]) == a + b + c + d;
    assert [a, b, c, d, e][..4] == [a, b, c, d];
  }

  /** The weekend rows are all zero: the hours of a Saturday or Sunday
      entry are not shown anywhere in the detail. */
  lemma WeekendRowZero(e: Approval)
    requires IsoWeekday(e.workDate) >= 6
    ensures HoursRow(e) == [0.0, 0.0, 0.0, 0.0, 0.0]
  {
  }

  /** `hoursArray`: five zeros, then the entry's hours under its weekday. */
  method HoursArray(e: Approval) returns (hours: array<real>)
    ensures fresh(hours) && hours[..] == HoursRow(e)
  {
    var dayIndex := DayIndex(e.workDate);
    hours := new real[RowDays];
    hours[0], hours[1], hours[2], hours[3], hours[4] := 0.0, 0.0, 0.0, 0.0, 0.0;
    if dayIndex >= 0 && dayIndex < RowDays as int {
      hours[dayIndex] := DetailHours(e);
    }
  }

  /** The hours column of the list: `totalHours?.toFixed(1)` is a non-empty
      string even for 0, so the list falls back to the minutes only when
      the total is missing (the rounding to one decimal is not modelled). */
  function ListHours(e: Approval): real
  {
    if e.totalHours.Some? then e.totalHours.value else e.workedMinutes as real / 60.0
  }

  /** The list and the detail disagree exactly on entries whose total is 0
      but whose minutes are not. */
  lemma ListAndDetailDiffer(e: Approval)
    ensures ListHours(e) != DetailHours(e) <==> e.totalHours == Some(0.0) && e.workedMinutes != 0
  {
  }

  // ---------------------------------------------------------------------
  // Labels

  /** A JavaScript string field that is truthy: present and not empty. */
  predicate Given(field: Option<string>)
  {
    field.Some? && field.value != ""
  }

  /** `entry.projectName || entry.projectId`. */
  function ProjectLabel(e: Approval): (shown: string)
    ensures Given(e.projectName) ==> shown == e.projectName.value
    ensures !Given(e.projectName) ==> shown == e.projectId
  {
    if Given(e.projectName) then e.projectName.value else e.projectId
  }

  /** `entry.taskName || entry.taskId || 'Sin tarea'`: never empty, and
      the placeholder only when neither name nor id is given. */
  function TaskLabel(e: Approval): (shown: string)
    ensures shown != ""
    ensures Given(e.taskName) ==> shown == e.taskName.value
    ensures !Given(e.taskName) && Given(e.taskId) ==> shown == e.taskId.value
    ensures !Given(e.taskName) && !Given(e.taskId) ==> shown == "Sin tarea"
  {
    if Given(e.taskName) then e.taskName.value
    else if Given(e.taskId) then e.taskId.value
    else "Sin tarea"
  }

  // ---------------------------------------------------------------------
  // Approving and rejecting

  datatype Action = Approve | Reject

  /** The request `handleAction` sends: only the id, even for a rejection
      (the reason asked for is not sent). */
  datatype ActionRequest = ApproveRequest(id: int) | RejectRequest(id: int)

  datatype ActionOutcome =
    | NotConfirmed
    | ReasonMissing
    | Done(request: ActionRequest)
    | ActionFailed(request: ActionRequest, message: string)

  /** A rejection reason is accepted when the prompt was answered with
      something other than white space. */
  predicate ReasonGiven(reason: Option<string>)
  {
    reason.Some? && reason.value != "" && Trim(reason.value) != ""
  }

  /** A reason is accepted exactly when it holds a character that is not
      white space. */
  lemma ReasonGivenIff(reason: Option<string>)
    ensures ReasonGiven(reason) <==>
      reason.Some? && exists i :: 0 <= i < |reason.value| && !IsWhitespace(reason.value[i])
  {
    if reason.Some? {
      TrimEmptyIff(reason.value);
    }
  }

  const LoadErrorPrefix: string := "Error al cargar pendientes: "

  class ApproveHoursPage {
    var approvals: seq<Approval>
    var error: Option<string>
    var selectedEntry: Option<Approval>

    constructor()
      ensures approvals == [] && error == None && selectedEntry == None
    {
      approvals := [];
      error := None;
      selectedEntry := None;
    }

    /** `loadApprovals`: a failure shows an error and keeps the list; a
        missing answer empties the list. */
    method LoadApprovals(response: Outcome<Option<seq<Approval>>>)
      modifies this`approvals, this`error
      ensures response.Failure? ==>
        approvals == old(approvals) && error == Some(LoadErrorPrefix + response.message)
      ensures response.Success? ==>
        error == None && approvals == (if response.value.Some? then response.value.value else [])
    {
      error := None;
      match response {
        case Failure(message) =>
          error := Some(LoadErrorPrefix + message);
        case Success(data) =>
          if data.None? || |data.value| == 0 {
            approvals := [];
          } else {
            approvals := data.value;
          }
      }
    }

    /** `handleAction`: nothing is sent without confirmation, nor for a
        rejection without a reason; otherwise one request for the entry,
        and after a successful one the list is reloaded with the answer
        `reload`. */
    method HandleAction(id: int, action: Action, confirmed: bool, reason: Option<string>,
                        response: Outcome<()>, reload: Outcome<Option<seq<Approval>>>) returns (outcome: ActionOutcome)
      modifies this`approvals, this`error
      ensures outcome == NotConfirmed <==> !confirmed
      ensures outcome == ReasonMissing <==> confirmed && action == Reject && !ReasonGiven(reason)
      ensures outcome.Done? || outcome.ActionFailed? ==>
        outcome.request == (if action == Approve then ApproveRequest(id) else RejectRequest(id))
      ensures outcome.Done? <==>
        confirmed && (action == Approve || ReasonGiven(reason)) && response.Success?
      ensures outcome.ActionFailed? ==> response.Failure? && outcome.message == response.message
      ensures !outcome.Done? ==> unchanged(this)
      ensures outcome.Done? && reload.Failure? ==>
        approvals == old(approvals) && error == Some(LoadErrorPrefix + reload.message)
      ensures outcome.Done? && reload.Success? ==>
        error == None && approvals == (if reload.value.Some? then reload.value.value else [])
    {
      if !confirmed {
        return NotConfirmed;
      }
      var request: ActionRequest;
      if action == Approve {
        request := ApproveRequest(id);
      } else {
        if !ReasonGiven(reason) {
          return ReasonMissing;
        }
        request := RejectRequest(id);
      }
      match response {
        case Failure(message) =>
          outcome := ActionFailed(request, message);
        case Success(_) =>
          LoadApprovals(reload);
          outcome := Done(request);
      }
    }

    /** The "Ver detalle" button: opens the entry's detail, or closes it
        when it is already open. */
    method ToggleDetail(entry: Approval)
      modifies this`selectedEntry
      ensures old(selectedEntry).Some? && old(selectedEntry).value.id == entry.id ==> selectedEntry == None
      ensures !(old(selectedEntry).Some? && old(selectedEntry).value.id == entry.id) ==> selectedEntry == Some(entry)
    {
      if selectedEntry.Some? && selectedEntry.value.id == entry.id {
        selectedEntry := None;
      } else {
        selectedEntry := Some(entry);
      }
    }
  }
}
