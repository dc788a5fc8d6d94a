/** The developer's "my hours" page: this week's time entries, newest
    first, grouped by status, with a selection of drafts that is submitted
    to the supervisor. */
module MyHours {
  import opened Common
  import opened Text
  import opened Calendar
  import opened DateUtils

  /** A time entry as listed; `workDate` is a day number. */
  datatype Entry = Entry(id: int, workDate: int, workedMinutes: int, status: string,
                         projectId: string, projectName: Option<string>,
                         taskId: Option<string>, taskName: Option<string>)

  const Draft: string := "DRAFT"
  const Submitted: string := "SUBMITTED"
  const Approved: string := "APPROVED"
  const Rejected: string := "REJECTED"

  predicate IsKnownStatus(status: string)
  {
    status == Draft || status == Submitted || status == Approved || status == Rejected
  }

  // ---------------------------------------------------------------------
  // The current week

  /** `getCurrentWeekDates`: the Monday on or before `today` (a Sunday goes
      back six days) and the Sunday six days after it. */
  function CurrentWeekDates(today: int): (week: (int, int))
    ensures IsoWeekday(week.0) == 1 && IsoWeekday(week.1) == 7
    ensures week.0 <= today <= week.1 && week.1 == week.0 + 6
    ensures JsWeekday(today) == 0 ==> week.0 == today - 6
  {
    var dayOfWeek := JsWeekday(today);
    var diff := if dayOfWeek == 0 then -6 else 1 - dayOfWeek;
    var monday := MoveDays(today, diff);
    BackToMondayJs(today);
    assert monday == MondayOf(today);
    var sunday := MoveDays(monday, 6);
    SundayOfWeek(monday);
    (monday, sunday)
  }

  /** `d.setDate(d.getDate() + delta)`. */
  function MoveDays(d: int, delta: int): (r: int)
    ensures r == d + delta
  {
    SetDateMovesByDays(d, delta);
    SetDate(d, ToDate(d).day + delta)
  }

  /** Six days after a Monday comes a Sunday. */
  lemma SundayOfWeek(monday: int)
    requires IsoWeekday(monday) == 1
    ensures IsoWeekday(monday + 6) == 7
  {
    var k := monday / 7;
    assert monday == 7 * k;
    WeekdayPeriodic(6, k);
  }

  /** The week shown is the one `getMonday` finds for today. */
  lemma CurrentWeekIsGetMonday(today: int)
    ensures CurrentWeekDates(today).0 == GetMonday(today)
  {
    BackToMondayJs(today);
  }

  // ---------------------------------------------------------------------
  // Status display and labels

  /** The text and colour of a status badge (its icon is not modelled). */
  datatype StatusInfo = StatusInfo(text: string, color: string)

  const DraftInfo: StatusInfo := StatusInfo("Borrador", "bg-gray-100 text-gray-800")

  /** `getStatusInfo`: the badge of a known status, the draft badge for
      any other. */
  function GetStatusInfo(status: string): (info: StatusInfo)
    ensures !IsKnownStatus(status) ==> info == DraftInfo
  {
    if status == Draft then DraftInfo
    else if status == Submitted then StatusInfo("Enviado", "bg-blue-100 text-blue-800")
    else if status == Approved then StatusInfo("Aprobado", "bg-green-100 text-green-800")
    else if status == Rejected then StatusInfo("Rechazado", "bg-red-100 text-red-800")
    else DraftInfo
  }

  /** An entry shows the draft badge exactly when its status is DRAFT or
      not one of the four known ones; the four known badges differ. */
  lemma DraftBadgeIff(status: string)
    ensures GetStatusInfo(status) == DraftInfo <==> status == Draft || !IsKnownStatus(status)
    ensures forall s, t :: IsKnownStatus(s) && IsKnownStatus(t) && s != t ==>
      GetStatusInfo(s).text != GetStatusInfo(t).text
  {
  }

  /** Only drafts get the selection checkbox and the delete button. */
  predicate CanSelect(e: Entry)
  {
    e.status == Draft
  }

  /** An entry with an unknown status looks like a draft but can be
      neither selected nor deleted. */
  lemma UnknownStatusLooksDraft(e: Entry)
    requires !IsKnownStatus(e.status)
    ensures GetStatusInfo(e.status) == DraftInfo && !CanSelect(e)
  {
  }

  /** A string is truthy: present and not empty. */
  predicate Truthy(s: Option<string>)
  {
    s.Some? && s.value != ""
  }

  /** `id.substring(0, 12) + '...'`. */
  function Shortened(id: string): (shown: string)
    ensures 3 <= |shown| <= 15
    ensures shown[..|shown| - 3] <= id && shown[|shown| - 3..] == "..."
    ensures |shown| == 15 || shown[..|shown| - 3] == id
  {
    Prefix(id, 12) + "..."
  }

  /** `getProjectDisplay`: the project's name, or else its shortened id. */
  function GetProjectDisplay(e: Entry): (shown: string)
    ensures Truthy(e.projectName) ==> shown == e.projectName.value
    ensures !Truthy(e.projectName) ==> shown == Shortened(e.projectId)
  {
    if Truthy(e.projectName) then e.projectName.value else Shortened(e.projectId)
  }

  const NoTaskPlaceholder: string := "Sin tarea asignada"

  /** `getTaskDisplay`: the task's name unless it is missing or the
      server's placeholder, else the shortened task id, else `'Sin tarea'`. */
  function GetTaskDisplay(e: Entry): (shown: string)
    ensures Truthy(e.taskName) && e.taskName.value != NoTaskPlaceholder ==> shown == e.taskName.value
    ensures !(Truthy(e.taskName) && e.taskName.value != NoTaskPlaceholder) && Truthy(e.taskId) ==>
      shown == Shortened(e.taskId.value)
    ensures !(Truthy(e.taskName) && e.taskName.value != NoTaskPlaceholder) && !Truthy(e.taskId) ==>
      shown == "Sin tarea"
  {
    if Truthy(e.taskName) && e.taskName.value != NoTaskPlaceholder then e.taskName.value
    else if Truthy(e.taskId) then Shortened(e.taskId.value)
    else "Sin tarea"
  }

  // ---------------------------------------------------------------------
  // Status groups

  function WithStatus(entries: seq<Entry>, status: string): (group: seq<Entry>)
    ensures forall e :: e in group <==> e in entries && e.status == status
    ensures IsSubsequence(group, entries)
  {
    Filter(entries, (e: Entry) => e.status == status)
  }

  /** The four groups together hold one place per entry of known status:
      each such entry is in exactly one group, the others in none. */
  lemma {:induction false} GroupsPartition(entries: seq<Entry>)
    ensures |WithStatus(entries, Draft)| + |WithStatus(entries, Submitted)|
      + |WithStatus(entries, Approved)| + |WithStatus(entries, Rejected)|
      == Count(entries, (e: Entry) => IsKnownStatus(e.status))
  {
    if entries != [] {
      GroupsPartition(entries[1..]);
    }
  }

  // ---------------------------------------------------------------------
  // Sorting, newest first

  predicate NewestFirst(s: seq<Entry>)
  {
    forall i, j :: 0 <= i < j < |s| ==> s[i].workDate >= s[j].workDate
  }

  /** `data.sort((a, b) => new Date(b.workDate) - new Date(a.workDate))`:
      sorts in place by date, newest first. */
  method SortNewestFirst(a: array<Entry>)
    modifies a
    ensures NewestFirst(a[..]) && multiset(a[..]) == multiset(old(a[..]))
  {
    var i := 0;
    while i < a.Length
      invariant 0 <= i <= a.Length
      invariant NewestFirst(a[..i])
      invariant multiset(a[..]) == multiset(old(a[..]))
    {
      InsertNewest(a, i);
      i := i + 1;
    }
    assert a[..a.Length] == a[..];
  }

  /** One insertion step: `a[i]` moves left past every older entry. */
  method InsertNewest(a: array<Entry>, i: nat)
    requires i < a.Length && NewestFirst(a[..i])
    modifies a
    ensures NewestFirst(a[..i + 1]) && multiset(a[..]) == multiset(old(a[..]))
  {
    var j := i;
    while j > 0 && a[j - 1].workDate < a[j].workDate
      invariant 0 <= j <= i
      invariant OrderedExcept(a[..], i, j)
      invariant multiset(a[..]) == multiset(old(a[..]))
    {
      SwapBack(a[..], i, j);
      a[j - 1], a[j] := a[j], a[j - 1];
      j := j - 1;
    }
  }

  /** `s[..i + 1]` is newest first except that `s[j]` may be newer than
      the entries before it. */
  predicate OrderedExcept(s: seq<Entry>, i: int, j: int)
    requires 0 <= j <= i < |s|
  {
    (forall p, q :: 0 <= p < q <= i && q != j ==> s[p].workDate >= s[q].workDate)
    && (0 < j < i ==> s[j - 1].workDate >= s[j + 1].workDate)
  }

  /** Swapping the moving entry with an older one before it moves the
      exception one place left and keeps the same entries. */
  lemma SwapBack(s: seq<Entry>, i: int, j: int)
    requires 0 < j <= i < |s| && OrderedExcept(s, i, j)
    requires s[j - 1].workDate < s[j].workDate
    ensures OrderedExcept(s[j - 1 := s[j]][j := s[j - 1]], i, j - 1)
    ensures multiset(s[j - 1 := s[j]][j := s[j - 1]]) == multiset(s)
  {
  }

  // ---------------------------------------------------------------------
  // Selection

  /** The selection after clicking an entry's checkbox: the id leaves the
      selection if it was in it and is appended otherwise. */
  function Toggle(selected: seq<int>, id: int): (next: seq<int>)
    ensures id in selected ==> id !in next && forall x :: x in next <==> x in selected && x != id
    ensures id !in selected ==> next == selected + [id]
    ensures Distinct(selected) ==> Distinct(next)
  {
    if id in selected then
      FilterDistinct(selected, (x: int) => x != id);
      Filter(selected, (x: int) => x != id)
    else selected + [id]
  }

  /** Toggling a new id twice gives the selection back; toggling a selected
      id twice keeps the same ids, that one moving to the end. */
  lemma ToggleTwice(selected: seq<int>, id: int)
    ensures id !in selected ==> Toggle(Toggle(selected, id), id) == selected
    ensures forall x :: x in Toggle(Toggle(selected, id), id) <==> x in selected
    ensures id in selected ==> Toggle(Toggle(selected, id), id) == Filter(selected, (x: int) => x != id) + [id]
  {
    if id !in selected {
      FilterAll(selected, (x: int) => x != id);
      FilterAppendDropped(selected, id);
    }
  }

  /** Filtering an id out of a list that ends with it only drops that end
      when the id is nowhere else. */
  lemma {:induction false} FilterAppendDropped(s: seq<int>, id: int)
    requires id !in s
    ensures Filter(s + [id], (x: int) => x != id) == s
  {
    if s == [] {
      assert [id][1..] == [];
    } else {
      assert (s + [id])[1..] == s[1..] + [id];
      FilterAppendDropped(s[1..], id);
      assert [s[0]] + s[1..] == s;
    }
  }

  function Ids(entries: seq<Entry>): (ids: seq<int>)
    ensures |ids| == |entries| && forall i :: 0 <= i < |entries| ==> ids[i] == entries[i].id
  {
    seq(|entries|, i requires 0 <= i < |entries| => entries[i].id)
  }

  /** Every selected id belongs to a draft of the list. */
  predicate SelectedAreDrafts(selected: seq<int>, entries: seq<Entry>)
  {
    forall x :: x in selected ==> exists e :: e in entries && e.id == x && CanSelect(e)
  }

  /** `selectAllDrafts`: the ids of the drafts, in list order, one per
      draft. */
  function DraftIds(entries: seq<Entry>): (ids: seq<int>)
    ensures |ids| == |WithStatus(entries, Draft)| == Count(entries, CanSelect)
    ensures forall i :: 0 <= i < |ids| ==> ids[i] == WithStatus(entries, Draft)[i].id
    ensures SelectedAreDrafts(ids, entries)
    ensures forall e :: e in entries && CanSelect(e) ==> e.id in ids
  {
    var drafts := WithStatus(entries, Draft);
    var ids := Ids(drafts);
    FilterLength(entries, (e: Entry) => e.status == Draft);
    CountCongruent(entries, (e: Entry) => e.status == Draft, CanSelect);
    forall x | x in ids ensures exists e :: e in entries && e.id == x && CanSelect(e) {
      var i :| 0 <= i < |ids| && ids[i] == x;
      assert drafts[i] in drafts;
    }
    forall e | e in entries && CanSelect(e) ensures e.id in ids {
      var i :| 0 <= i < |drafts| && drafts[i] == e;
    }
    ids
  }

  /** When no two entries share an id, neither do the drafts' ids. */
  lemma DraftIdsDistinct(entries: seq<Entry>)
    requires Distinct(Ids(entries))
    ensures Distinct(DraftIds(entries))
  {
    FilterKeysDistinct(entries, (e: Entry) => e.status == Draft, (e: Entry) => e.id);
  }

  const LoadErrorPrefix: string := "Error al cargar tus horas: "
  const SubmitErrorPrefix: string := "Error al enviar para aprobación: "

  datatype SubmitOutcome = NothingSelected | SubmitCancelled | SubmitFailed | SubmitSent

  class MyHoursPage {
    var entries: seq<Entry>
    var selectedIds: seq<int>
    var error: Option<string>

    ghost predicate Valid()
      reads this
    {
      Distinct(selectedIds)
    }

    constructor()
      ensures Valid() && entries == [] && selectedIds == [] && error == None
    {
      entries := [];
      selectedIds := [];
      error := None;
    }

    /** `loadMyHours` on day `today`: asks for this Monday to Sunday and
        shows the answer newest first; a failure shows an error. */
    method LoadMyHours(today: int, response: Outcome<seq<Entry>>) returns (range: (int, int))
      modifies this`entries, this`error
      ensures range == CurrentWeekDates(today)
      ensures response.Failure? ==> entries == old(entries) && error == Some(LoadErrorPrefix + response.message)
      ensures response.Success? ==>
        error == None && NewestFirst(entries) && multiset(entries) == multiset(response.value)
    {
      error := None;
      range := CurrentWeekDates(today);
      match response {
        case Failure(message) =>
          error := Some(LoadErrorPrefix + message);
        case Success(data) =>
          var a := new Entry[|data|](i requires 0 <= i < |data| => data[i]);
          assert a[..] == data;
          SortNewestFirst(a);
          entries := a[..];
      }
    }

    /** `toggleSelection`, reachable from a draft's checkbox only. */
    method ToggleSelection(id: int)
      requires Valid()
      requires exists e :: e in entries && e.id == id && CanSelect(e)
      modifies this`selectedIds
      ensures Valid() && selectedIds == Toggle(old(selectedIds), id)
      ensures SelectedAreDrafts(old(selectedIds), entries) ==> SelectedAreDrafts(selectedIds, entries)
    {
      selectedIds := Toggle(selectedIds, id);
    }

    /** `selectAllDrafts`. The selection stays free of repeats as long as
        no two entries share an id. */
    method SelectAllDrafts()
      modifies this`selectedIds
      ensures selectedIds == DraftIds(entries)
      ensures SelectedAreDrafts(selectedIds, entries)
      ensures Distinct(Ids(entries)) ==> Valid()
    {
      selectedIds := DraftIds(entries);
      if Distinct(Ids(entries)) {
        DraftIdsDistinct(entries);
      }
    }

    /** `handleSubmit` on day `today`: nothing is sent without a selection
        or a confirmation; otherwise the whole selection goes in one
        request, and success clears it and reloads the week's entries with
        the answer `reload`. */
    method HandleSubmit(confirmed: bool, response: Outcome<()>, today: int, reload: Outcome<seq<Entry>>)
      returns (outcome: SubmitOutcome, sent: Option<seq<int>>)
      requires Valid()
      modifies this`selectedIds, this`error, this`entries
      ensures Valid()
      ensures outcome == NothingSelected <==> old(selectedIds) == []
      ensures outcome == SubmitCancelled <==> old(selectedIds) != [] && !confirmed
      ensures sent.Some? <==> outcome == SubmitSent || outcome == SubmitFailed
      ensures sent.Some? ==> sent.value == old(selectedIds)
      ensures outcome == NothingSelected || outcome == SubmitCancelled ==> unchanged(this)
      ensures outcome == SubmitSent <==> sent.Some? && response.Success?
      ensures outcome == SubmitSent ==> selectedIds == []
      ensures outcome == SubmitSent && reload.Success? ==>
        error == None && NewestFirst(entries) && multiset(entries) == multiset(reload.value)
      ensures outcome == SubmitSent && reload.Failure? ==>
        entries == old(entries) && error == Some(LoadErrorPrefix + reload.message)
      ensures outcome == SubmitFailed ==>
        selectedIds == old(selectedIds) && entries == old(entries) && error == Some(SubmitErrorPrefix + response.message)
    {
      if |selectedIds| == 0 {
        return NothingSelected, None;
      }
      if !confirmed {
        return SubmitCancelled, None;
      }
      error := None;
      sent := Some(selectedIds);
      match response {
        case Failure(message) =>
          error := Some(SubmitErrorPrefix + message);
          outcome := SubmitFailed;
        case Success(_) =>
          selectedIds := [];
          var range := LoadMyHours(today, reload);
          outcome := SubmitSent;
      }
    }
  }
}
