/** The login page: an employee is picked from the resource list, their
    role is derived from their role id, a session record is stored and the
    browser is sent to the role's start page. */
module LoginPage {
  import opened Common

  const RolIdDeveloper: string := "1f14a491-e26d-4092-86ea-d76f20c165d1"
  const RolIdManager: string := "6e6ecd47-fa18-490e-b25a-c9101a398b6d"

  /** An employee of the resource list; `rolId` may be missing. */
  datatype Employee = Employee(id: string, nombre: string, apellido: string,
                               rolId: Option<string>, rolNombre: Option<string>)

  datatype SystemRole = Manager | Developer

  /** `determineRole`: a manager exactly when the role id is the manager's;
      a missing or empty role id, or any other, gives a developer. */
  function DetermineRole(rolId: Option<string>): (role: SystemRole)
    ensures role == Manager <==> rolId == Some(RolIdManager)
  {
    if rolId.None? || rolId.value == "" then Developer
    else if rolId.value == RolIdManager then Manager
    else Developer
  }

  /** `getRoleLabel`: the label shown beside each employee in the list. */
  function RoleLabel(rolId: Option<string>): (text: string)
    ensures text == "Manager" <==> rolId == Some(RolIdManager)
    ensures text == "Desarrollador" <==> rolId == Some(RolIdDeveloper)
    ensures text == "Desconocido" <==> rolId != Some(RolIdManager) && rolId != Some(RolIdDeveloper)
  {
    if rolId == Some(RolIdManager) then "Manager"
    else if rolId == Some(RolIdDeveloper) then "Desarrollador"
    else "Desconocido"
  }

  /** The label and the role agree on managers; every employee labelled
      "Desarrollador" or "Desconocido" logs in as a developer. */
  lemma LabelAgreesWithRole(rolId: Option<string>)
    ensures RoleLabel(rolId) == "Manager" <==> DetermineRole(rolId) == Manager
    ensures RoleLabel(rolId) != "Manager" ==> DetermineRole(rolId) == Developer
  {
  }

  /** `employees.find(emp => emp.id === code)`: the first employee with
      that id. */
  function FindEmployee(employees: seq<Employee>, code: string): (found: Option<Employee>)
    ensures found.None? <==> forall i :: 0 <= i < |employees| ==> employees[i].id != code
    ensures found.Some? ==> found.value in employees && found.value.id == code
  {
    if employees == [] then None
    else if employees[0].id == code then Some(employees[0])
    else FindEmployee(employees[1..], code)
  }

  /** The employee found is the first one carrying the code. */
  lemma {:induction false} FindEmployeeFirst(employees: seq<Employee>, code: string, k: int)
    requires 0 <= k < |employees| && employees[k].id == code
    requires forall i :: 0 <= i < k ==> employees[i].id != code
    ensures FindEmployee(employees, code) == Some(employees[k])
  {
    if k > 0 {
      FindEmployeeFirst(employees[1..], code, k - 1);
    }
  }

  /** The `user` record kept in session storage. */
  datatype UserData = UserData(id: string, employeeCode: string, name: string,
                               role: SystemRole, originalRole: Option<string>)

  /** The record stored for an employee. */
  function UserDataOf(e: Employee): (user: UserData)
    ensures user.id == e.id && user.employeeCode == e.id
    ensures user.name == e.nombre + " " + e.apellido
    ensures user.role == DetermineRole(e.rolId) && user.originalRole == e.rolNombre
  {
    UserData(e.id, e.id, e.nombre + " " + e.apellido, DetermineRole(e.rolId), e.rolNombre)
  }

  /** The start page of each role. */
  function HomeOf(role: SystemRole): (path: string)
    ensures path == "/modulos" <==> role == Manager
  {
    if role == Manager then "/modulos" else "/desarrollador/seleccion-proyectos"
  }

  const NoSelectionError: string := "Por favor seleccione un usuario"
  const LoginError: string := "Error al iniciar sesión"
  const ConnectionError: string := "Error de conexión con el servidor"

  class LoginForm {
    var employees: seq<Employee>
    var employeeCode: string
    var error: string
    var loading: bool
    /** The `user` and `isAuthenticated` keys of session storage. */
    var storedUser: Option<UserData>
    var isAuthenticated: Option<string>
    /** The page the browser was sent to, if any. */
    var navigatedTo: Option<string>

    /** Entering the page clears the old session. */
    constructor()
      ensures employees == [] && employeeCode == "" && error == "" && !loading
      ensures storedUser == None && isAuthenticated == None && navigatedTo == None
    {
      employees := [];
      employeeCode := "";
      error := "";
      loading := false;
      storedUser := None;
      isAuthenticated := None;
      navigatedTo := None;
    }

    /** `loadEmployees`: the list on success, a connection error otherwise. */
    method LoadEmployees(response: Outcome<seq<Employee>>)
      modifies this`employees, this`error
      ensures response.Success? ==> employees == response.value && error == old(error)
      ensures response.Failure? ==> employees == old(employees) && error == ConnectionError
    {
      match response {
        case Success(data) =>
          employees := data;
        case Failure(_) =>
          error := ConnectionError;
      }
    }

    /** `handleLogin`: without a selection, or with a code not in the list,
        an error and no session; otherwise the session record and the
        redirect to the role's start page. */
    method HandleLogin()
      modifies this`error, this`loading, this`storedUser, this`isAuthenticated, this`navigatedTo
      ensures employeeCode == "" ==>
        error == NoSelectionError && loading == old(loading)
        && storedUser == old(storedUser) && isAuthenticated == old(isAuthenticated)
        && navigatedTo == old(navigatedTo)
      ensures employeeCode != "" && FindEmployee(employees, employeeCode).None? ==>
        error == LoginError && !loading
        && storedUser == old(storedUser) && isAuthenticated == old(isAuthenticated)
        && navigatedTo == old(navigatedTo)
      ensures employeeCode != "" && FindEmployee(employees, employeeCode).Some? ==>
        var e := FindEmployee(employees, employeeCode).value;
        error == "" && loading
        && storedUser == Some(UserDataOf(e)) && isAuthenticated == Some("true")
        && navigatedTo == Some(HomeOf(DetermineRole(e.rolId)))
    {
      if employeeCode == "" {
        error := NoSelectionError;
        return;
      }
      loading := true;
      error := "";
      var employee := FindEmployee(employees, employeeCode);
      if employee.None? {
        error := LoginError;
        loading := false;
        return;
      }
      var realRole := DetermineRole(employee.value.rolId);
      storedUser := Some(UserDataOf(employee.value));
      isAuthenticated := Some("true");
      if realRole == Manager {
        navigatedTo := Some("/modulos");
      } else {
        navigatedTo := Some("/desarrollador/seleccion-proyectos");
      }
    }
  }
}
