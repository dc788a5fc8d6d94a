/** The monthly cost-rate page: cost records joined to the role catalogue,
    listed by the month and year of their `fecha`, created or edited one at
    a time (optionally as a percentage of the previous cost) and adjusted
    in bulk for a whole month. */
module CostosPage {
  import opened Common
  import opened Text
  import opened Calendar

  /** A role of the catalogue: one name at one experience level. */
  datatype Role = Role(id: int, nombre: string, experiencia: string)

  /** A cost record as the server lists it; `fecha` reads `"YYYY-MM-DD"`
      when present, and `costo` is `None` when it is missing or not a number. */
  datatype CostRecord = CostRecord(id: int, rolId: int, costo: Option<real>, fecha: Option<string>)

  /** A record with the name and experience of its role joined in. */
  datatype ListedCost = ListedCost(item: CostRecord, rolDisplay: string, seniorityDisplay: string)

  const UnknownRole: string := "Rol Desconocido"
  const UnknownSeniority: string := "N/A"

  const Meses: seq<string> := ["Enero", "Febrero", "Marzo", "Abril", "Mayo", "Junio", "Julio",
                               "Agosto", "Septiembre", "Octubre", "Noviembre", "Diciembre"]

  // ---------------------------------------------------------------------
  // Periods

  /** `!fecha` is false: the date is present and not empty. */
  predicate HasFecha(fecha: Option<string>)
  {
    fecha.Some? && fecha.value != ""
  }

  /** `parseInt(partes[0])` and `parseInt(partes[1])` of `fecha.split('-')`;
      a missing second piece reads as NaN. */
  function FechaPeriod(fecha: string): (period: (Option<int>, Option<int>))
  {
    var parts := Split(fecha, "-");
    (ParseInt(parts[0]), if |parts| >= 2 then ParseInt(parts[1]) else None)
  }

  /** `a === b` on two parsed numbers: NaN equals nothing, not even NaN. */
  predicate SameNumber(a: Option<int>, b: Option<int>)
  {
    a.Some? && b.Some? && a.value == b.value
  }

  /** The record is dated in year `anio`, month `mes`. */
  predicate InPeriod(fecha: Option<string>, anio: Option<int>, mes: Option<int>)
  {
    HasFecha(fecha)
    && SameNumber(FechaPeriod(fecha.value).0, anio)
    && SameNumber(FechaPeriod(fecha.value).1, mes)
  }

  /** `costosFiltrados`: the records dated in the chosen month, in list order. */
  function CostosFiltrados(costos: seq<ListedCost>, anio: Option<int>, mes: Option<int>): (listed: seq<ListedCost>)
    ensures forall c :: c in listed <==> c in costos && InPeriod(c.item.fecha, anio, mes)
    ensures forall c :: c in listed ==> HasFecha(c.item.fecha) && anio.Some? && mes.Some?
    ensures IsSubsequence(listed, costos)
  {
    Filter(costos, (c: ListedCost) => InPeriod(c.item.fecha, anio, mes))
  }

  /** A `"YYYY-MM-DD"` date as the server writes it: three non-empty runs
      of digits joined by `'-'`. */
  predicate IsDigitRun(s: string)
  {
    |s| > 0 && AllDigits(s)
  }

  /** `split('-')` cuts such a date into its three fields, and `parseInt`
      reads the year and the month from the first two. */
  lemma DateParts(y: string, m: string, d: string)
    requires IsDigitRun(y) && IsDigitRun(m) && IsDigitRun(d)
    ensures Split(y + "-" + m + "-" + d, "-") == [y, m, d]
    ensures FechaPeriod(y + "-" + m + "-" + d) == (Some(DigitsValue(y)), Some(DigitsValue(m)))
  {
    DigitsLack(y, '-');
    DigitsLack(m, '-');
    DigitsLack(d, '-');
    SplitThree(y, m, d, '-');
    ParseIntOfDigits(y);
    ParseIntOfDigits(m);
  }

  /** A record dated `"YYYY-MM-DD"` is listed under exactly its own year
      and month, leading zeros and all. */
  lemma DateInPeriod(y: string, m: string, d: string, anio: Option<int>, mes: Option<int>)
    requires IsDigitRun(y) && IsDigitRun(m) && IsDigitRun(d)
    ensures InPeriod(Some(y + "-" + m + "-" + d), anio, mes) <==>
      anio == Some(DigitsValue(y)) && mes == Some(DigitsValue(m))
  {
    DateParts(y, m, d);
  }

  // ---------------------------------------------------------------------
  // Joining costs to roles

  /** `roles.find(r => r.id === rolId)`: the first role with that id. */
  function FindRole(roles: seq<Role>, rolId: int): (found: Option<Role>)
    ensures found.Some? ==> found.value in roles && found.value.id == rolId
    ensures found.None? <==> forall i :: 0 <= i < |roles| ==> roles[i].id != rolId
  {
    if roles == [] then None
    else if roles[0].id == rolId then Some(roles[0])
    else FindRole(roles[1..], rolId)
  }

  /** Of several roles with the same id, the first one is found. */
  lemma {:induction false} FindRoleFirst(roles: seq<Role>, rolId: int, k: nat)
    requires k < |roles| && roles[k].id == rolId
    requires forall j :: 0 <= j < k ==> roles[j].id != rolId
    ensures FindRole(roles, rolId) == Some(roles[k])
  {
    if k > 0 {
      FindRoleFirst(roles[1..], rolId, k - 1);
    }
  }

  /** One row of `datosProcesados`. */
  function JoinRole(roles: seq<Role>, item: CostRecord): (listed: ListedCost)
    ensures listed.item == item
  {
    match FindRole(roles, item.rolId)
    case Some(role) => ListedCost(item, role.nombre, role.experiencia)
    case None => ListedCost(item, UnknownRole, UnknownSeniority)
  }

  /** A record whose role is in the catalogue shows the name and experience
      of the first role with its id. */
  lemma JoinRoleFound(roles: seq<Role>, item: CostRecord, k: nat)
    requires k < |roles| && roles[k].id == item.rolId
    requires forall j :: 0 <= j < k ==> roles[j].id != item.rolId
    ensures JoinRole(roles, item) == ListedCost(item, roles[k].nombre, roles[k].experiencia)
  {
    FindRoleFirst(roles, item.rolId, k);
  }

  /** A record whose role is missing from the catalogue shows
      `'Rol Desconocido'` and `'N/A'`. */
  lemma JoinRoleMissing(roles: seq<Role>, item: CostRecord)
    requires forall i :: 0 <= i < |roles| ==> roles[i].id != item.rolId
    ensures JoinRole(roles, item) == ListedCost(item, UnknownRole, UnknownSeniority)
  {
  }

  /** `datosProcesados`: every record, in order, with its role joined in. */
  function JoinRoles(costs: seq<CostRecord>, roles: seq<Role>): (listed: seq<ListedCost>)
    ensures |listed| == |costs|
    ensures forall i :: 0 <= i < |costs| ==> listed[i].item == costs[i]
  {
    seq(|costs|, i requires 0 <= i < |costs| => JoinRole(roles, costs[i]))
  }

  /** What `loadData` receives: the current costs and the whole role
      catalogue, either of which may come back `null`. */
  datatype Catalog = Catalog(costs: Option<seq<CostRecord>>, roles: Option<seq<Role>>)

  /** The join throws a `TypeError`: there are no costs to map, or there
      are costs but no catalogue to search. */
  predicate JoinThrows(catalog: Catalog)
  {
    catalog.costs.None? || (catalog.roles.None? && catalog.costs.value != [])
  }

  function RolesOrEmpty(catalog: Catalog): seq<Role>
  {
    if catalog.roles.Some? then catalog.roles.value else []
  }

  /** The records and the catalogue that `loadData` leaves, from the ones
      it started with and the server's answer. */
  predicate AfterLoad(costos: seq<ListedCost>, roles: seq<Role>,
                      costosBefore: seq<ListedCost>, rolesBefore: seq<Role>, response: Outcome<Catalog>)
  {
    && (response.Failure? ==> costos == costosBefore && roles == rolesBefore)
    && (response.Success? ==> roles == RolesOrEmpty(response.value))
    && (response.Success? && JoinThrows(response.value) ==> costos == costosBefore)
    && (response.Success? && !JoinThrows(response.value) ==>
          costos == JoinRoles(response.value.costs.value, RolesOrEmpty(response.value)))
  }

  // ---------------------------------------------------------------------
  // Percentage adjustment

  /** `calcularValorConPorcentaje` before the `toFixed(2)` rounding: the
      base grown by `porc` percent. A missing, zero or non-numeric base or
      percentage leaves the base as it is. */
  function WithPercentage(base: Option<real>, porc: Option<real>): (adjusted: Option<real>)
    ensures adjusted.None? <==> base.None?
    ensures base.Some? && porc.Some? ==> adjusted == Some(base.value * (1.0 + porc.value / 100.0))
    ensures porc.None? ==> adjusted == base
  {
    if base.None? || porc.None? then base
    else
      var b, p := base.value, porc.value;
      if b == 0.0 || p == 0.0 then base
      else
        Distribute(b, p / 100.0);
        assert b + b * (p / 100.0) == base.value * (1.0 + porc.value / 100.0);
        Some(b + b * (p / 100.0))
  }

  lemma Distribute(b: real, f: real)
    ensures b + b * f == b * (1.0 + f)
  {
  }

  /** `parseFloat(v) < 0`: NaN is not negative. */
  predicate IsNegative(v: Option<real>)
  {
    v.Some? && v.value < 0.0
  }

  /** An adjustment turns out negative exactly when a positive cost loses
      more than all of itself, or a negative cost is not cut by 100% or
      more. */
  lemma NegativeAdjustment(base: Option<real>, porc: Option<real>)
    ensures IsNegative(WithPercentage(base, porc)) <==>
      base.Some? &&
      ((base.value > 0.0 && porc.Some? && porc.value < -100.0)
       || (base.value < 0.0 && !(porc.Some? && porc.value <= -100.0)))
  {
    if base.Some? && porc.Some? {
      var b, f := base.value, 1.0 + porc.value / 100.0;
      assert f < 0.0 <==> porc.value < -100.0;
      assert f <= 0.0 <==> porc.value <= -100.0;
      if b > 0.0 && f < 0.0 { assert b * f < 0.0; }
      if b > 0.0 && f >= 0.0 { assert b * f >= 0.0; }
      if b < 0.0 && f > 0.0 { assert b * f < 0.0; }
      if b < 0.0 && f <= 0.0 { assert b * f >= 0.0; }
    }
  }

  /** Undoing a raise: growing a cost by `p` percent and then by
      `-100 p / (100 + p)` percent gives the cost back. */
  lemma PercentageInverse(b: real, p: real)
    requires p > -100.0
    ensures WithPercentage(WithPercentage(Some(b), Some(p)), Some(-100.0 * p / (100.0 + p))) == Some(b)
  {
    var q := -100.0 * p / (100.0 + p);
    var f, g := 1.0 + p / 100.0, 1.0 + q / 100.0;
    var inner := WithPercentage(Some(b), Some(p));
    assert inner.value == b * f;
    var outer := WithPercentage(inner, Some(q));
    assert outer.value == (b * f) * g;
    FactorsCancel(p);
    assert f * g == 1.0;
    assert (b * f) * g == b * (f * g) == b;
    assert outer.Some?;
  }

  /** Growing by `p` percent and by `-100 p / (100 + p)` percent multiply
      to 1. */
  lemma FactorsCancel(p: real)
    requires p > -100.0
    ensures (1.0 + p / 100.0) * (1.0 + (-100.0 * p / (100.0 + p)) / 100.0) == 1.0
  {
    var q := -100.0 * p / (100.0 + p);
    assert q / 100.0 == -p / (100.0 + p);
    assert 1.0 + q / 100.0 == 100.0 / (100.0 + p);
    assert 1.0 + p / 100.0 == (100.0 + p) / 100.0;
  }

  // ---------------------------------------------------------------------
  // The cost form and its duplicate check

  /** The fields of the cost modal; `mes` and `anio` are the numbers
      `parseInt` reads from them and `costo` what `parseFloat` reads. */
  datatype CostForm = CostForm(rol: string, seniority: string, costo: Option<real>,
                               mes: Option<int>, anio: Option<int>)

  /** `editingId` is truthy: a record is being edited (an id of 0 is not). */
  predicate IsEditing(editingId: Option<int>)
  {
    editingId.Some? && editingId.value != 0
  }

  /** The body of the `existeDuplicado` test for one listed record. */
  predicate Clashes(c: ListedCost, form: CostForm, editingId: Option<int>)
  {
    !(IsEditing(editingId) && c.item.id == editingId.value)
    && HasFecha(c.item.fecha)
    && c.rolDisplay == form.rol && c.seniorityDisplay == form.seniority
    && SameNumber(FechaPeriod(c.item.fecha.value).0, form.anio)
    && SameNumber(FechaPeriod(c.item.fecha.value).1, form.mes)
  }

  /** `existeDuplicado`. */
  predicate IsDuplicate(costos: seq<ListedCost>, form: CostForm, editingId: Option<int>)
  {
    exists c :: c in costos && Clashes(c, form, editingId)
  }

  /** The duplicate check and the listing agree: saving is blocked exactly
      when the listing for the form's month already shows a record (other
      than the one being edited) with the form's role and seniority. */
  lemma DuplicateIffListed(costos: seq<ListedCost>, form: CostForm, editingId: Option<int>)
    ensures IsDuplicate(costos, form, editingId) <==>
      exists c :: c in CostosFiltrados(costos, form.anio, form.mes)
        && c.rolDisplay == form.rol && c.seniorityDisplay == form.seniority
        && !(IsEditing(editingId) && c.item.id == editingId.value)
  {
    var listed := CostosFiltrados(costos, form.anio, form.mes);
    if IsDuplicate(costos, form, editingId) {
      var c :| c in costos && Clashes(c, form, editingId);
      assert c in listed;
    }
  }

  /** The record being edited never blocks its own save. */
  lemma OwnRecordNeverClashes(c: ListedCost, form: CostForm)
    requires c.item.id != 0
    ensures !Clashes(c, form, Some(c.item.id))
  {
  }

  /** What `handleSave` sends: the role's NAME goes in `rolId` as well as
      in `nombre`. */
  datatype CostRequest = CostRequest(rolId: string, nombre: string, experiencia: string,
                                     costo: Option<real>, mes: Option<int>, anio: Option<int>)

  function RequestOf(form: CostForm): (request: CostRequest)
    ensures request.rolId == request.nombre == form.rol
    ensures request.experiencia == form.seniority && request.costo == form.costo
    ensures request.mes == form.mes && request.anio == form.anio
  {
    CostRequest(form.rol, form.rol, form.seniority, form.costo, form.mes, form.anio)
  }

  /** `crearCosto(datos)` or `actualizarCosto(id, datos)`. */
  datatype SaveCall = Create(data: CostRequest) | Update(id: int, data: CostRequest)

  datatype SaveOutcome = NegativeCost | Duplicate | Saved | SaveFailed

  /** The form `handleEdit` fills from a listed record: the record's month
      and year when its `fecha` has both, today's otherwise. */
  function EditForm(item: ListedCost, today: int): (form: CostForm)
    ensures form.rol == item.rolDisplay && form.costo == item.item.costo
    ensures form.seniority == if item.seniorityDisplay != UnknownSeniority then item.seniorityDisplay else ""
  {
    var fecha := item.item.fecha;
    var parts := if HasFecha(fecha) then Split(fecha.value, "-") else [];
    var anio, mes :=
      if |parts| >= 2 then ParseInt(parts[0]) else Some(ToDate(today).year),
      if |parts| >= 2 then ParseInt(parts[1]) else Some(ToDate(today).month);
    CostForm(item.rolDisplay, if item.seniorityDisplay != UnknownSeniority then item.seniorityDisplay else "",
             item.item.costo, mes, anio)
  }

  /** Editing a record listed for a month puts that same month and year
      in the form. */
  lemma EditFormKeepsPeriod(item: ListedCost, today: int, anio: Option<int>, mes: Option<int>)
    requires InPeriod(item.item.fecha, anio, mes)
    ensures EditForm(item, today).anio == anio && EditForm(item, today).mes == mes
  {
    assert |Split(item.item.fecha.value, "-")| >= 2;
  }

  // ---------------------------------------------------------------------
  // Mass update

  /** The fields of the mass-adjustment modal. */
  datatype MassForm = MassForm(mes: Option<int>, anio: Option<int>, porcentaje: Option<real>)

  /** The body of one `actualizarCosto` request of a mass update. */
  datatype CostUpdate = CostUpdate(id: int, costo: Option<real>, mes: Option<int>, anio: Option<int>)

  /** `costosAfectados.map(...)`: one update per affected record, in order. */
  function MassUpdates(affected: seq<ListedCost>, form: MassForm): (updates: seq<CostUpdate>)
    ensures |updates| == |affected|
    ensures forall i :: 0 <= i < |affected| ==>
      updates[i] == CostUpdate(affected[i].item.id, WithPercentage(affected[i].item.costo, form.porcentaje), form.mes, form.anio)
  {
    seq(|affected|, i requires 0 <= i < |affected| =>
      CostUpdate(affected[i].item.id, WithPercentage(affected[i].item.costo, form.porcentaje), form.mes, form.anio))
  }

  /** `algunNegativo`. */
  predicate AnyNegative(affected: seq<ListedCost>, porc: Option<real>)
  {
    exists c :: c in affected && IsNegative(WithPercentage(c.item.costo, porc))
  }

  /** Past the guard, no update carries a negative cost, and each one
      targets a record of the chosen month. */
  lemma MassUpdatesSafe(costos: seq<ListedCost>, form: MassForm)
    requires !AnyNegative(CostosFiltrados(costos, form.anio, form.mes), form.porcentaje)
    ensures forall u :: u in MassUpdates(CostosFiltrados(costos, form.anio, form.mes), form) ==>
      !IsNegative(u.costo)
      && exists c :: c in costos && c.item.id == u.id && InPeriod(c.item.fecha, form.anio, form.mes)
  {
    var affected := CostosFiltrados(costos, form.anio, form.mes);
    var updates := MassUpdates(affected, form);
    forall u | u in updates
      ensures !IsNegative(u.costo)
      ensures exists c :: c in costos && c.item.id == u.id && InPeriod(c.item.fecha, form.anio, form.mes)
    {
      var i :| 0 <= i < |updates| && updates[i] == u;
      assert affected[i] in affected;
    }
  }

  datatype MassOutcome = NoCostsInPeriod | WouldBeNegative | MassCancelled | MassUpdated | MassFailed

  // ---------------------------------------------------------------------
  // Role choices

  function RoleNames(roles: seq<Role>): (names: seq<string>)
    ensures |names| == |roles| && forall i :: 0 <= i < |roles| ==> names[i] == roles[i].nombre
  {
    seq(|roles|, i requires 0 <= i < |roles| => roles[i].nombre)
  }

  /** `uniqueRoles`: every role name once, sorted. */
  function UniqueRoles(roles: seq<Role>): (names: seq<string>)
    ensures SortedStrings(names) && Distinct(names)
    ensures forall n :: n in names <==> exists i :: 0 <= i < |roles| && roles[i].nombre == n
  {
    var all := RoleNames(roles);
    var d := Dedup(all);
    var r := SortStrings(d);
    DistinctMultiplicity(d);
    DistinctMultiplicity(r);
    assert forall n :: n in r <==> n in d by {
      forall n ensures n in r <==> n in d {
        assert n in r <==> n in multiset(r);
        assert n in d <==> n in multiset(d);
      }
    }
    assert forall n :: n in d <==> n in all by {
      forall n ensures n in d <==> n in all {
        if n in all {
          var i :| 0 <= i < |all| && all[i] == n;
        }
        if n in d {
          var i :| 0 <= i < |d| && d[i] == n;
        }
      }
    }
    r
  }

  function Experiences(roles: seq<Role>): (exps: seq<string>)
    ensures |exps| == |roles| && forall i :: 0 <= i < |roles| ==> exps[i] == roles[i].experiencia
  {
    seq(|roles|, i requires 0 <= i < |roles| => roles[i].experiencia)
  }

  /** `filteredExperiencias`: the experience of every role named `rol`,
      sorted; one entry per such role. */
  function FilteredExperiencias(roles: seq<Role>, rol: string): (exps: seq<string>)
    ensures SortedStrings(exps)
    ensures multiset(exps) == multiset(Experiences(Filter(roles, (r: Role) => r.nombre == rol)))
    ensures |exps| == Count(roles, (r: Role) => r.nombre == rol)
    ensures forall e :: e in exps <==> exists i :: 0 <= i < |roles| && roles[i].nombre == rol && roles[i].experiencia == e
  {
    var matching := Filter(roles, (r: Role) => r.nombre == rol);
    var all := Experiences(matching);
    var r := SortStrings(all);
    FilterLength(roles, (r: Role) => r.nombre == rol);
    assert |r| == |all| by {
      assert |multiset(r)| == |multiset(all)|;
    }
    forall e ensures e in r <==> exists i :: 0 <= i < |roles| && roles[i].nombre == rol && roles[i].experiencia == e {
      assert e in r <==> e in multiset(r);
      assert e in all <==> e in multiset(all);
      if e in all {
        var k :| 0 <= k < |all| && all[k] == e;
        assert matching[k] in roles;
        var i :| 0 <= i < |roles| && roles[i] == matching[k];
      }
      if exists i :: 0 <= i < |roles| && roles[i].nombre == rol && roles[i].experiencia == e {
        var i :| 0 <= i < |roles| && roles[i].nombre == rol && roles[i].experiencia == e;
        assert roles[i] in matching;
        var k :| 0 <= k < |matching| && matching[k] == roles[i];
        assert all[k] == e;
      }
    }
    r
  }

  // ---------------------------------------------------------------------
  // Formatting the validity month

  /** `formatVigencia`: `"<month name> <year text>"`; the raw month text
      stands in for a month outside 1..12, a date without `'-'` is shown
      as it is and a missing one as `'-'`. */
  function FormatVigencia(fecha: Option<string>): (text: string)
    ensures !HasFecha(fecha) ==> text == "-"
  {
    if !HasFecha(fecha) then "-"
    else
      var parts := Split(fecha.value, "-");
      if |parts| < 2 then fecha.value
      else
        var mes := ParseInt(parts[1]);
        var nombreMes := if mes.Some? && 1 <= mes.value <= 12 then Meses[mes.value - 1] else parts[1];
        nombreMes + " " + parts[0]
  }

  /** A date without `'-'` is shown unchanged. */
  lemma FormatVigenciaNoDash(fecha: string)
    requires fecha != "" && '-' !in fecha
    ensures FormatVigencia(Some(fecha)) == fecha
  {
    SplitNoSeparator(fecha, "-");
  }

  /** A `"YYYY-MM-DD"` date is shown as the month's Spanish name and the
      year's digits; a month outside 1..12 keeps its own digits. */
  lemma FormatVigenciaDate(y: string, m: string, d: string)
    requires IsDigitRun(y) && IsDigitRun(m) && IsDigitRun(d)
    ensures 1 <= DigitsValue(m) <= 12 ==>
      FormatVigencia(Some(y + "-" + m + "-" + d)) == Meses[DigitsValue(m) - 1] + " " + y
    ensures (DigitsValue(m) == 0 || DigitsValue(m) > 12) ==>
      FormatVigencia(Some(y + "-" + m + "-" + d)) == m + " " + y
  {
    DateParts(y, m, d);
  }

  // ---------------------------------------------------------------------
  // The page

  class CostosPage {
    var costos: seq<ListedCost>
    var allRolesData: seq<Role>
    var filtroMes: Option<int>
    var filtroAnio: Option<int>
    var formData: CostForm
    var massForm: MassForm
    var editingId: Option<int>
    var usarPorcentaje: bool
    var porcentaje: Option<real>
    var costoBase: Option<real>
    var isModalOpen: bool
    var isMassModalOpen: bool

    /** While a record is edited by percentage, the cost field (read-only
        then) shows the base adjusted by the percentage. */
    ghost predicate Valid()
      reads this
    {
      usarPorcentaje && IsEditing(editingId) ==> formData.costo == WithPercentage(costoBase, porcentaje)
    }

    /** The page as first rendered on day `today`: filters and forms on
        today's month and year, nothing loaded. */
    constructor(today: int)
      ensures Valid()
      ensures costos == [] && allRolesData == []
      ensures filtroMes == Some(ToDate(today).month) && filtroAnio == Some(ToDate(today).year)
      ensures formData == CostForm("", "", None, filtroMes, filtroAnio)
      ensures massForm == MassForm(filtroMes, filtroAnio, None)
      ensures editingId == None && !usarPorcentaje && porcentaje == None && costoBase == Some(0.0)
      ensures !isModalOpen && !isMassModalOpen
    {
      var date := ToDate(today);
      costos := [];
      allRolesData := [];
      filtroMes := Some(date.month);
      filtroAnio := Some(date.year);
      formData := CostForm("", "", None, Some(date.month), Some(date.year));
      massForm := MassForm(Some(date.month), Some(date.year), None);
      editingId := None;
      usarPorcentaje := false;
      porcentaje := None;
      costoBase := Some(0.0);
      isModalOpen := false;
      isMassModalOpen := false;
    }

    /** The records listed under the current filter. */
    function Listed(): (listed: seq<ListedCost>)
      reads this
      ensures forall c :: c in listed <==> c in costos && InPeriod(c.item.fecha, filtroAnio, filtroMes)
    {
      CostosFiltrados(costos, filtroAnio, filtroMes)
    }

    /** `loadData`: a failed request changes nothing; otherwise the
        catalogue is stored (an empty one for `null`) and, unless the join
        throws, the costs are replaced by the joined records. */
    method LoadData(response: Outcome<Catalog>)
      modifies this`costos, this`allRolesData
      ensures response.Failure? ==> costos == old(costos) && allRolesData == old(allRolesData)
      ensures response.Success? ==> allRolesData == RolesOrEmpty(response.value)
      ensures response.Success? && JoinThrows(response.value) ==> costos == old(costos)
      ensures response.Success? && !JoinThrows(response.value) ==>
        costos == JoinRoles(response.value.costs.value, RolesOrEmpty(response.value))
    {
      if response.Success? {
        var catalog := response.value;
        allRolesData := RolesOrEmpty(catalog);
        if !JoinThrows(catalog) {
          costos := JoinRoles(catalog.costs.value, RolesOrEmpty(catalog));
        }
      }
    }

    /** `handleNuevoCosto`: an empty form for the month on screen. */
    method NewCost()
      requires Valid()
      modifies this`formData, this`editingId, this`usarPorcentaje, this`isModalOpen
      ensures Valid()
      ensures formData == CostForm("", "", None, filtroMes, filtroAnio)
      ensures editingId == None && !usarPorcentaje && isModalOpen
    {
      formData := CostForm("", "", None, filtroMes, filtroAnio);
      editingId := None;
      usarPorcentaje := false;
      isModalOpen := true;
    }

    /** `handleEdit`: the form takes the record's values and the record's
        cost becomes the base of any percentage adjustment. */
    method Edit(item: ListedCost, today: int)
      requires Valid()
      modifies this`formData, this`editingId, this`usarPorcentaje, this`porcentaje, this`costoBase, this`isModalOpen
      ensures Valid()
      ensures editingId == Some(item.item.id) && costoBase == item.item.costo
      ensures !usarPorcentaje && porcentaje == None
      ensures formData == EditForm(item, today) && isModalOpen
    {
      editingId := Some(item.item.id);
      costoBase := item.item.costo;
      usarPorcentaje := false;
      porcentaje := None;
      formData := EditForm(item, today);
      isModalOpen := true;
    }

    /** The role select: a new role clears the chosen seniority. */
    method SelectRole(rol: string)
      requires Valid()
      modifies this`formData
      ensures Valid()
      ensures formData == old(formData).(rol := rol, seniority := "")
    {
      formData := formData.(rol := rol, seniority := "");
    }

    /** The effect on `porcentaje`, `usarPorcentaje`, `costoBase` and
        `editingId`. */
    method ApplyPercentage()
      modifies this`formData
      ensures Valid()
      ensures usarPorcentaje && IsEditing(editingId) ==>
        formData == old(formData).(costo := WithPercentage(costoBase, porcentaje))
      ensures !(usarPorcentaje && IsEditing(editingId)) ==> formData == old(formData)
    {
      if usarPorcentaje && IsEditing(editingId) {
        formData := formData.(costo := WithPercentage(costoBase, porcentaje));
      }
    }

    /** The "adjust by percentage" checkbox, shown only while editing;
        clearing it puts the base cost back and empties the percentage. */
    method TogglePercentage(checked: bool)
      requires Valid() && IsEditing(editingId)
      modifies this`usarPorcentaje, this`formData, this`porcentaje
      ensures Valid()
      ensures usarPorcentaje == checked
      ensures checked ==> porcentaje == old(porcentaje) && formData == old(formData).(costo := WithPercentage(costoBase, porcentaje))
      ensures !checked ==> porcentaje == None && formData == old(formData).(costo := costoBase)
    {
      usarPorcentaje := checked;
      if !checked {
        formData := formData.(costo := costoBase);
        porcentaje := None;
      }
      ApplyPercentage();
    }

    /** The percentage input, shown only while adjusting by percentage. */
    method SetPercentage(p: Option<real>)
      requires Valid() && IsEditing(editingId) && usarPorcentaje
      modifies this`porcentaje, this`formData
      ensures Valid()
      ensures porcentaje == p && formData == old(formData).(costo := WithPercentage(costoBase, p))
    {
      porcentaje := p;
      ApplyPercentage();
    }

    /** `handleSave`: a negative cost, then a duplicate, stop the save
        before any request; otherwise the form is sent as an update of the
        edited record or as a new record. Success closes the modal, ends
        the edit, moves the filter to the saved month and reloads the page
        with the answer `reload`; failure changes nothing. */
    method Save(response: Outcome<()>, reload: Outcome<Catalog>) returns (outcome: SaveOutcome, call: Option<SaveCall>)
      requires Valid()
      modifies this`isModalOpen, this`editingId, this`usarPorcentaje, this`porcentaje, this`filtroMes, this`filtroAnio
      modifies this`costos, this`allRolesData
      ensures Valid()
      ensures outcome == NegativeCost <==> IsNegative(old(formData.costo))
      ensures outcome == Duplicate <==> !IsNegative(old(formData.costo)) && IsDuplicate(old(costos), formData, old(editingId))
      ensures call.Some? <==> outcome == Saved || outcome == SaveFailed
      ensures call.Some? ==>
        call.value == if IsEditing(old(editingId)) then Update(old(editingId).value, RequestOf(formData)) else Create(RequestOf(formData))
      ensures outcome == Saved <==> call.Some? && response.Success?
      ensures outcome != Saved ==> unchanged(this)
      ensures outcome == Saved ==>
        !isModalOpen && editingId == None && !usarPorcentaje && porcentaje == None
        && filtroMes == formData.mes && filtroAnio == formData.anio
        && AfterLoad(costos, allRolesData, old(costos), old(allRolesData), reload)
    {
      if IsNegative(formData.costo) {
        return NegativeCost, None;
      }
      if IsDuplicate(costos, formData, editingId) {
        return Duplicate, None;
      }
      var request := RequestOf(formData);
      call := Some(if IsEditing(editingId) then Update(editingId.value, request) else Create(request));
      if response.Failure? {
        return SaveFailed, call;
      }
      isModalOpen := false;
      editingId := None;
      usarPorcentaje := false;
      porcentaje := None;
      filtroMes := formData.mes;
      filtroAnio := formData.anio;
      LoadData(reload);
      outcome := Saved;
    }

    /** The "Ajuste Masivo" button: the mass form starts on the month on
        screen with no percentage. */
    method OpenMassModal()
      modifies this`massForm, this`isMassModalOpen
      ensures massForm == MassForm(filtroMes, filtroAnio, None) && isMassModalOpen
    {
      massForm := MassForm(filtroMes, filtroAnio, None);
      isMassModalOpen := true;
    }

    /** `handleMassUpdate`: nothing is sent when the chosen month has no
        record, when any adjusted cost would be negative, or when the user
        does not confirm; otherwise every record of the month gets its
        adjusted cost. Success closes the modal and shows that month;
        success and failure alike reload the page with the answer `reload`. */
    method MassUpdate(confirmed: bool, response: Outcome<()>, reload: Outcome<Catalog>)
      returns (outcome: MassOutcome, updates: seq<CostUpdate>)
      requires Valid()
      modifies this`isMassModalOpen, this`filtroMes, this`filtroAnio, this`costos, this`allRolesData
      ensures Valid()
      ensures outcome == NoCostsInPeriod <==> CostosFiltrados(old(costos), massForm.anio, massForm.mes) == []
      ensures outcome == WouldBeNegative <==>
        CostosFiltrados(old(costos), massForm.anio, massForm.mes) != []
        && AnyNegative(CostosFiltrados(old(costos), massForm.anio, massForm.mes), massForm.porcentaje)
      ensures outcome == MassCancelled <==>
        CostosFiltrados(old(costos), massForm.anio, massForm.mes) != []
        && !AnyNegative(CostosFiltrados(old(costos), massForm.anio, massForm.mes), massForm.porcentaje) && !confirmed
      ensures outcome in {NoCostsInPeriod, WouldBeNegative, MassCancelled} ==> updates == [] && unchanged(this)
      ensures outcome in {MassUpdated, MassFailed} ==>
        updates == MassUpdates(CostosFiltrados(old(costos), massForm.anio, massForm.mes), massForm)
        && (outcome == MassUpdated <==> response.Success?)
        && AfterLoad(costos, allRolesData, old(costos), old(allRolesData), reload)
      ensures outcome == MassFailed ==>
        isMassModalOpen == old(isMassModalOpen) && filtroMes == old(filtroMes) && filtroAnio == old(filtroAnio)
      ensures outcome == MassUpdated ==>
        !isMassModalOpen && filtroMes == massForm.mes && filtroAnio == massForm.anio
    {
      var affected := CostosFiltrados(costos, massForm.anio, massForm.mes);
      if |affected| == 0 {
        return NoCostsInPeriod, [];
      }
      if AnyNegative(affected, massForm.porcentaje) {
        return WouldBeNegative, [];
      }
      if !confirmed {
        return MassCancelled, [];
      }
      updates := MassUpdates(affected, massForm);
      FinishMassUpdate(response.Success?, reload);
      outcome := if response.Success? then MassUpdated else MassFailed;
    }

    /** The end of `handleMassUpdate` once the requests are answered: on
        success the modal closes and the filter moves to the adjusted
        month; either way the page is reloaded. */
    method FinishMassUpdate(succeeded: bool, reload: Outcome<Catalog>)
      requires Valid()
      modifies this`isMassModalOpen, this`filtroMes, this`filtroAnio, this`costos, this`allRolesData
      ensures Valid()
      ensures AfterLoad(costos, allRolesData, old(costos), old(allRolesData), reload)
      ensures !succeeded ==>
        isMassModalOpen == old(isMassModalOpen) && filtroMes == old(filtroMes) && filtroAnio == old(filtroAnio)
      ensures succeeded ==>
        !isMassModalOpen && filtroMes == massForm.mes && filtroAnio == massForm.anio
    {
      if succeeded {
        isMassModalOpen := false;
        filtroMes := massForm.mes;
        filtroAnio := massForm.anio;
      }
      LoadData(reload);
    }
  }
}
