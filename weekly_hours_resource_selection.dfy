/** The list of employees whose weekly hours a manager may look at: every
    resource except the managers. */
module WeeklyHoursResourceSelection {
  import opened Common
  import LoginPage

  /** The manager's role id, as the login page knows it. */
  const RolIdManager: string := "6e6ecd47-fa18-490e-b25a-c9101a398b6d"

  predicate IsManager(r: LoginPage.Employee)
  {
    r.rolId == Some(RolIdManager)
  }

  /** `data.filter(resource => resource.rolId !== ROL_ID_MANAGER)`. */
  function ExcludeManagers(resources: seq<LoginPage.Employee>): (kept: seq<LoginPage.Employee>)
    ensures forall i :: 0 <= i < |kept| ==> kept[i] in resources && !IsManager(kept[i])
    ensures forall i :: 0 <= i < |resources| && !IsManager(resources[i]) ==> resources[i] in kept
    ensures IsSubsequence(kept, resources)
    ensures |kept| == Count(resources, r => !IsManager(r))
  {
    FilterLength(resources, r => !IsManager(r));
    Filter(resources, r => !IsManager(r))
  }

  /** The list agrees with the roles given at login: it holds exactly the
      resources who would log in as developers, a missing role id included. */
  lemma KeptAreDevelopers(resources: seq<LoginPage.Employee>)
    ensures forall i :: 0 <= i < |ExcludeManagers(resources)| ==>
      LoginPage.DetermineRole(ExcludeManagers(resources)[i].rolId) == LoginPage.Developer
    ensures forall i :: 0 <= i < |resources| ==>
      (LoginPage.DetermineRole(resources[i].rolId) == LoginPage.Developer ==> resources[i] in ExcludeManagers(resources))
  {
    assert RolIdManager == LoginPage.RolIdManager;
  }

  /** Excluding the managers twice is excluding them once. */
  lemma ExcludeManagersIdempotent(resources: seq<LoginPage.Employee>)
    ensures ExcludeManagers(ExcludeManagers(resources)) == ExcludeManagers(resources)
  {
    var kept := ExcludeManagers(resources);
    FilterAll(kept, r => !IsManager(r));
  }

  const LoadErrorPrefix: string := "Error al cargar empleados: "

  /** `loadResources`: the list without managers, or the error to show. */
  function LoadResources(response: Outcome<seq<LoginPage.Employee>>): (shown: (seq<LoginPage.Employee>, Option<string>))
    ensures response.Success? ==> shown.0 == ExcludeManagers(response.value) && shown.1 == None
    ensures response.Failure? ==> shown.0 == [] && shown.1 == Some(LoadErrorPrefix + response.message)
  {
    match response
    case Success(data) => (ExcludeManagers(data), None)
    case Failure(message) => ([], Some(LoadErrorPrefix + message))
  }
}
