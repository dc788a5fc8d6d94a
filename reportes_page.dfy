/** The yearly cost report per project: each server row is flattened into
    a row with twelve monthly costs, and the rows are searched by name. */
module ReportesPage {
  import opened Common
  import opened Text

  datatype Proyecto = Proyecto(id: string, nombre: string)

  /** One month of a project's cost as the server sends it. */
  datatype CostoMes = CostoMes(mes: int, costo: real)

  /** One element of the monthly report response. */
  datatype ReportItem = ReportItem(proyecto: Proyecto, costoMes: seq<CostoMes>, costoTotal: real)

  /** One row of the page's table. */
  datatype ProjectRow = ProjectRow(id: string, nombre: string, costosMensuales: seq<real>, costoTotal: real)

  /** `item.costoMes.map(cm => cm.costo)`. */
  function MonthlyCosts(costoMes: seq<CostoMes>): (costs: seq<real>)
    ensures |costs| == |costoMes|
    ensures forall i :: 0 <= i < |costoMes| ==> costs[i] == costoMes[i].costo
  {
    seq(|costoMes|, i requires 0 <= i < |costoMes| => costoMes[i].costo)
  }

  /** The row built from one report element: the months are projected, the
      identity and the total are copied, not recomputed. */
  function ProjectRowOf(item: ReportItem): (row: ProjectRow)
    ensures row.id == item.proyecto.id && row.nombre == item.proyecto.nombre
    ensures row.costoTotal == item.costoTotal
    ensures row.costosMensuales == MonthlyCosts(item.costoMes)
  {
    ProjectRow(item.proyecto.id, item.proyecto.nombre, MonthlyCosts(item.costoMes), item.costoTotal)
  }

  /** `dataReporte.map(...)`: one row per element, in order. */
  function ProjectRows(data: seq<ReportItem>): (rows: seq<ProjectRow>)
    ensures |rows| == |data|
    ensures forall i :: 0 <= i < |data| ==> rows[i] == ProjectRowOf(data[i])
  {
    seq(|data|, i requires 0 <= i < |data| => ProjectRowOf(data[i]))
  }

  /** `cargarDatos`: the new rows on success; on a failure the rows already
      shown stay. */
  function CargarDatos(shown: seq<ProjectRow>, response: Outcome<seq<ReportItem>>): (rows: seq<ProjectRow>)
    ensures response.Failure? ==> rows == shown
    ensures response.Success? ==> rows == ProjectRows(response.value) && |rows| == |response.value|
    ensures response.Success? ==> forall i :: 0 <= i < |rows| ==>
      rows[i].id == response.value[i].proyecto.id && rows[i].nombre == response.value[i].proyecto.nombre
  {
    match response
    case Failure(_) => shown
    case Success(data) => ProjectRows(data)
  }

  /** A project matches the search when its lower-cased name contains the
      lower-cased query. */
  predicate Matches(p: ProjectRow, busqueda: string)
  {
    Contains(ToLower(p.nombre), ToLower(busqueda))
  }

  /** `proyectosFiltrados`. */
  function ProyectosFiltrados(proyectos: seq<ProjectRow>, busqueda: string): (shown: seq<ProjectRow>)
    ensures forall i :: 0 <= i < |shown| ==> shown[i] in proyectos && Matches(shown[i], busqueda)
    ensures forall i :: 0 <= i < |proyectos| && Matches(proyectos[i], busqueda) ==> proyectos[i] in shown
    ensures IsSubsequence(shown, proyectos)
  {
    Filter(proyectos, p => Matches(p, busqueda))
  }

  /** An empty search shows every project. */
  lemma EmptySearchKeepsAll(proyectos: seq<ProjectRow>)
    ensures ProyectosFiltrados(proyectos, "") == proyectos
  {
    forall i | 0 <= i < |proyectos|
      ensures Matches(proyectos[i], "")
    {
      assert ToLower("") == "";
    }
    FilterAll(proyectos, p => Matches(p, ""));
  }

  /** The search folds Latin Extended-A and Cyrillic capitals too: "ŁÓDŹ"
      finds "Łódź" and "проект" finds "Проект Норд". */
  lemma SearchFoldsCase(id: string, costs: seq<real>, total: real)
    ensures Matches(ProjectRow(id, "Łódź", costs, total), "ŁÓDŹ")
    ensures Matches(ProjectRow(id, "Проект Норд", costs, total), "проект")
  {
    assert ToLower("ŁÓDŹ") == "łódź";
    assert ToLower("Łódź") == "łódź";
    assert ToLower("проект") == "проект";
    assert ToLower("Проект Норд")[..6] == "проект";
  }

  /** Lower-casing twice is lower-casing once. */
  lemma ToLowerIdempotent(s: string)
    ensures ToLower(ToLower(s)) == ToLower(s)
  {
  }

  /** The search ignores the case of the query. */
  lemma SearchIgnoresQueryCase(proyectos: seq<ProjectRow>, busqueda: string)
    ensures ProyectosFiltrados(proyectos, ToLower(busqueda)) == ProyectosFiltrados(proyectos, busqueda)
  {
    ToLowerIdempotent(busqueda);
    FilterCongruent(proyectos, p => Matches(p, ToLower(busqueda)), p => Matches(p, busqueda));
  }
}
