/** The weekly hours report of one employee over a chosen period: the
    default period, the check made before asking for the report, and the
    translation and colour of each entry's status. */
module ResourceWeeklyHoursReport {
  import opened Common
  import opened Calendar

  /** One day of the report as the server sends it. */
  datatype DayEntry = DayEntry(date: string, projectName: string, hours: real,
                               description: Option<string>, status: string)

  datatype Week = Week(weekNumber: int, weekStart: string, weekEnd: string,
                       weekTotalHours: real, days: seq<DayEntry>)

  datatype WeeklyReport = WeeklyReport(startDate: string, endDate: string,
                                       totalHours: Option<real>, weeks: Option<seq<Week>>)

  // ---------------------------------------------------------------------
  // Statuses

  /** `traducirEstado`: the Spanish name of the four known statuses; any
      other status is shown as it came. */
  function TraducirEstado(status: string): (shown: string)
    ensures status == "DRAFT" ==> shown == "Borrador"
    ensures status == "SUBMITTED" ==> shown == "Enviado"
    ensures status == "APPROVED" ==> shown == "Aprobado"
    ensures status == "REJECTED" ==> shown == "Rechazado"
    ensures status !in ["DRAFT", "SUBMITTED", "APPROVED", "REJECTED"] ==> shown == status
    ensures shown == "" <==> status == ""
  {
    if status == "DRAFT" then "Borrador"
    else if status == "SUBMITTED" then "Enviado"
    else if status == "APPROVED" then "Aprobado"
    else if status == "REJECTED" then "Rechazado"
    else status
  }

  datatype Badge = Green | Red | Yellow

  /** The colour of the status badge. */
  function BadgeOf(status: string): (badge: Badge)
    ensures badge == Green <==> status == "APPROVED"
    ensures badge == Red <==> status == "REJECTED"
  {
    if status == "APPROVED" then Green
    else if status == "REJECTED" then Red
    else Yellow
  }

  /** The badge and its text agree on the known statuses: green reads
      "Aprobado", red reads "Rechazado", and a yellow badge reads
      "Borrador", "Enviado" or the untranslated status. */
  lemma BadgeMatchesText(status: string)
    ensures BadgeOf(status) == Green ==> TraducirEstado(status) == "Aprobado"
    ensures BadgeOf(status) == Red ==> TraducirEstado(status) == "Rechazado"
    ensures BadgeOf(status) == Yellow ==>
      TraducirEstado(status) in ["Borrador", "Enviado"] || TraducirEstado(status) == status
  {
  }

  /** `entry.description || '-'`. */
  function DescriptionLabel(e: DayEntry): (shown: string)
    ensures shown != ""
    ensures e.description.Some? && e.description.value != "" ==> shown == e.description.value
    ensures !(e.description.Some? && e.description.value != "") ==> shown == "-"
  {
    if e.description.Some? && e.description.value != "" then e.description.value else "-"
  }

  /** `report.weeks?.length || 0`. */
  function WeeksIncluded(r: WeeklyReport): (count: nat)
    ensures r.weeks.None? ==> count == 0
    ensures r.weeks.Some? ==> count == |r.weeks.value|
  {
    if r.weeks.Some? then |r.weeks.value| else 0
  }

  // ---------------------------------------------------------------------
  // The period

  /** The month before month `m` of year `y`. */
  function PreviousMonth(y: int, m: int): (prev: (int, int))
    requires 1 <= m <= 12
    ensures 1 <= prev.1 <= 12
    ensures m == 1 ==> prev == (y - 1, 12)
    ensures m > 1 ==> prev == (y, m - 1)
  {
    if m == 1 then (y - 1, 12) else (y, m - 1)
  }

  /** `new Date(year, month - 1, day)`: the same day of the month one month
      earlier, counted from the first of that month, so that a day the
      earlier month lacks runs on into the next one. The start always lies
      28 to 31 days before today. */
  function LastMonth(today: int): (start: int)
    ensures var d := ToDate(today);
            var prev := PreviousMonth(d.year, d.month);
            start == today - DaysInMonth(prev.0, prev.1)
    ensures today - 31 <= start <= today - 28
  {
    var d := ToDate(today);
    var prev := PreviousMonth(d.year, d.month);
    MonthsApart(d);
    MonthLength(prev.0, prev.1);
    YearStart(prev.0) + MonthStart(prev.0, prev.1) + d.day - 1
  }

  lemma MonthLength(y: int, m: int)
    requires 1 <= m <= 12
    ensures 28 <= DaysInMonth(y, m) <= 31
  {
  }

  /** The first of a month lies as many days after the first of the month
      before as that month has. */
  lemma MonthsApart(d: Date)
    requires ValidDate(d)
    ensures var prev := PreviousMonth(d.year, d.month);
            YearStart(d.year) + MonthStart(d.year, d.month)
              == YearStart(prev.0) + MonthStart(prev.0, prev.1) + DaysInMonth(prev.0, prev.1)
  {
    if d.month == 1 {
      YearStartStep(d.year - 1);
      MonthStartStep(d.year - 1, 12);
      MonthStartStep(d.year, 1);
    } else {
      MonthStartStep(d.year, d.month - 1);
    }
  }

  /** The default start is the same day of the previous month when that
      month has it. */
  lemma LastMonthSameDay(today: int, prev: (int, int))
    requires prev == PreviousMonth(ToDate(today).year, ToDate(today).month)
    requires ToDate(today).day <= DaysInMonth(prev.0, prev.1)
    ensures ToDate(LastMonth(today)) == Date(prev.0, prev.1, ToDate(today).day)
  {
    var d := ToDate(today);
    var e := Date(prev.0, prev.1, d.day);
    MonthsApart(d);
    assert FromDate(e) == LastMonth(today);
    ToDateFromDate(e);
  }

  /** When the previous month is too short for today's day, the default
      start runs on into the current month by the days it lacks. */
  lemma LastMonthOverflow(today: int, prev: (int, int))
    requires prev == PreviousMonth(ToDate(today).year, ToDate(today).month)
    requires ToDate(today).day > DaysInMonth(prev.0, prev.1)
    ensures ToDate(LastMonth(today))
      == Date(ToDate(today).year, ToDate(today).month, ToDate(today).day - DaysInMonth(prev.0, prev.1))
  {
    var d := ToDate(today);
    var e := Date(d.year, d.month, d.day - DaysInMonth(prev.0, prev.1));
    assert FromDate(e) == LastMonth(today);
    ToDateFromDate(e);
  }

  /** `generarReporte` asks for a report only when both dates are set and
      the start is not after the end. */
  predicate RangeValid(startDate: Option<int>, endDate: Option<int>)
  {
    startDate.Some? && endDate.Some? && startDate.value <= endDate.value
  }

  /** The default period passes the check. */
  lemma DefaultRangeValid(today: int)
    ensures RangeValid(Some(LastMonth(today)), Some(today))
  {
  }

  const ReportErrorPrefix: string := "Error al generar reporte: "

  /** The report page's state; an unset date field is `None`. */
  class ReportPage {
    var startDate: Option<int>
    var endDate: Option<int>
    var report: Option<WeeklyReport>
    var error: Option<string>

    /** The page opens on the period from one month ago to today. */
    constructor(today: int)
      ensures startDate == Some(LastMonth(today)) && endDate == Some(today)
      ensures report == None && error == None
    {
      startDate := Some(LastMonth(today));
      endDate := Some(today);
      report := None;
      error := None;
    }

    /** `generarReporte`: a period that fails the check changes nothing;
        otherwise the old report is cleared and replaced by the answer or by
        an error. */
    method GenerarReporte(response: Outcome<WeeklyReport>) returns (requested: bool)
      modifies this`report, this`error
      ensures requested <==> RangeValid(startDate, endDate)
      ensures !requested ==> report == old(report) && error == old(error)
      ensures requested && response.Success? ==> report == Some(response.value) && error == None
      ensures requested && response.Failure? ==>
        report == None && error == Some(ReportErrorPrefix + response.message)
    {
      if startDate.None? || endDate.None? || startDate.value > endDate.value {
        return false;
      }
      requested := true;
      error := None;
      report := None;
      match response {
        case Success(data) =>
          report := Some(data);
        case Failure(message) =>
          error := Some(ReportErrorPrefix + message);
      }
    }
  }
}
