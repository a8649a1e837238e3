/** The cached project list and the loaders that fill it in. In the modal, a project
    is edited under a lease (`getProjectById` returns `[project, release]`): the
    project is a node of a freshly parsed copy of the whole list, and `release`
    writes that copy back. The sidebar and legacy loaders are modelled next to it. */
module ProjectCache {
  import opened Wrappers
  import opened Strings
  import opened JsonValues
  import opened ProjectMetadata
  import Urls

  /** The `projects` entry of the shared document. */
  datatype Shared = Shared(projects: seq<Project>)

  /** `_.find(projects, p => p.id == id)`: the position of the first match. */
  function FindProject(projects: seq<Project>, id: string): (r: Option<nat>)
    ensures r.Some? ==> r.value < |projects| && projects[r.value].id == id
    ensures r.Some? ==> forall j :: 0 <= j < r.value ==> projects[j].id != id
    ensures r.None? <==> forall j :: 0 <= j < |projects| ==> projects[j].id != id
  {
    if |projects| == 0 then None
    else if projects[0].id == id then Some(0)
    else
      match FindProject(projects[1..], id)
      case None => None
      case Some(k) => Some(k + 1)
  }

  /** A lease: the parsed copy of the list and the position of the leased project
      in it. */
  datatype Lease = Lease(copy: seq<Project>, index: nat)

  predicate ValidLease(l: Lease) {
    l.index < |l.copy|
  }

  /** `getProjectById(id)`; with no matching project the caller's first property
      read throws, which is `None` here. */
  function Checkout(s: Shared, id: string): (r: Option<Lease>)
    ensures r.None? <==> FindProject(s.projects, id).None?
    ensures r.Some? ==> ValidLease(r.value) && r.value.copy == s.projects
    ensures r.Some? ==> r.value.copy[r.value.index].id == id
  {
    match FindProject(s.projects, id)
    case None => None
    case Some(i) => Some(Lease(s.projects, i))
  }

  function Leased(l: Lease): Project
    requires ValidLease(l)
  {
    l.copy[l.index]
  }

  /** Mutating the leased project changes only the copy. */
  function Edit(l: Lease, p: Project): (r: Lease)
    requires ValidLease(l)
    ensures ValidLease(r) && Leased(r) == p
    ensures |r.copy| == |l.copy| && r.index == l.index
    ensures forall j :: 0 <= j < |l.copy| && j != l.index ==> r.copy[j] == l.copy[j]
  {
    Lease(l.copy[l.index := p], l.index)
  }

  /** `release()`: `assignVm({ projects })` writes the whole copy, whatever the store
      holds by then. */
  function Release(l: Lease): (r: Shared)
    ensures r.projects == l.copy
  {
    Shared(l.copy)
  }

  /** Releasing an unedited lease writes back what was read. */
  lemma ReleaseUnedited(s: Shared, id: string)
    requires Checkout(s, id).Some?
    ensures Release(Checkout(s, id).value) == s
  {
  }

  /** Two leases taken from the same state and released in turn: the second write
      carries the first project as it was at checkout, so the first edit is lost. */
  lemma LostUpdate(s: Shared, a: string, b: string, pa: Project, pb: Project)
    requires Checkout(s, a).Some? && Checkout(s, b).Some?
    requires Checkout(s, a).value.index != Checkout(s, b).value.index
    ensures Release(Edit(Checkout(s, a).value, pa)).projects[Checkout(s, a).value.index] == pa
    ensures Release(Edit(Checkout(s, b).value, pb)).projects[Checkout(s, a).value.index]
         == s.projects[Checkout(s, a).value.index]
  {
  }

  // ---------------------------------------------------------------------------
  // Requests and loader outcomes

  /** A request sent to the REST API, with the path argument it carries. */
  datatype Request =
    | TypesRequest(projectId: string)
    | AreasRequest(projectId: string)
    | QueriesRequest(projectName: string)
    | QueryResultRequest(projectName: string, queryId: string)
    | WorkItemsRequest(ids: string)

  /** What a loader did: the store afterwards, the requests it sent in order, and the
      error it ended with, if any. */
  datatype Load = Load(shared: Shared, requests: seq<Request>, error: Option<string>)

  const NoProject: string := "TypeError: project is undefined"

  /** The modal's `loadProjectMetadata(projectId)`. It returns at once when the
      project's metadata is loaded; otherwise it fetches the types, then the areas,
      and only then sets the flag and releases. A failed request throws before the
      release, so nothing is written. */
  function LoadMetadata(s: Shared, id: string,
                        types: Result<seq<WorkItemType>, string>,
                        areas: Result<Area, string>): (r: Load)
    ensures FindProject(s.projects, id).None? ==> r == Load(s, [], Some(NoProject))
    ensures r.error.Some? ==> r.shared == s
    ensures r.requests == [] <==>
              FindProject(s.projects, id).None? || s.projects[FindProject(s.projects, id).value].metadataLoaded
    ensures r.shared != s ==> r.error.None? && types.Ok? && areas.Ok?
  {
    match Checkout(s, id)
    case None => Load(s, [], Some(NoProject))
    case Some(lease) =>
      var p := Leased(lease);
      if p.metadataLoaded then Load(s, [], None)
      else
        match types
        case Err(e) => Load(s, [TypesRequest(p.id)], Some(e))
        case Ok(ts) =>
          match areas
          case Err(e) => Load(s, [TypesRequest(p.id), AreasRequest(p.id)], Some(e))
          case Ok(root) =>
            var loaded := p.(workItemTypes := RestrictToAllowed(ts, AllowedTypes),
                             areas := FlattenAreas(root),
                             metadataLoaded := true);
            Load(Release(Edit(lease, loaded)), [TypesRequest(p.id), AreasRequest(p.id)], None)
  }

  /** A successful first load stores the allowed types and the sorted areas, sets
      the flag, and leaves every other project as it was. */
  lemma LoadMetadataEffect(s: Shared, id: string, ts: seq<WorkItemType>, root: Area)
    requires FindProject(s.projects, id).Some?
    requires !s.projects[FindProject(s.projects, id).value].metadataLoaded
    ensures var i := FindProject(s.projects, id).value;
            var r := LoadMetadata(s, id, Ok(ts), Ok(root));
            && r.error.None?
            && |r.shared.projects| == |s.projects|
            && r.shared.projects[i].metadataLoaded
            && r.shared.projects[i].workItemTypes == RestrictToAllowed(ts, AllowedTypes)
            && r.shared.projects[i].areas == FlattenAreas(root)
            && r.shared.projects[i].id == s.projects[i].id
            && r.shared.projects[i].name == s.projects[i].name
            && (forall j :: 0 <= j < |s.projects| && j != i ==> r.shared.projects[j] == s.projects[j])
  {
  }

  /** Once loaded, loading again sends nothing and changes nothing, whatever the
      server would answer. */
  lemma {:induction false} LoadMetadataOnce(s: Shared, id: string, ts: seq<WorkItemType>, root: Area,
                                            types2: Result<seq<WorkItemType>, string>,
                                            areas2: Result<Area, string>)
    requires FindProject(s.projects, id).Some?
    ensures var s1 := LoadMetadata(s, id, Ok(ts), Ok(root)).shared;
            LoadMetadata(s1, id, types2, areas2) == Load(s1, [], None)
  {
    var i := FindProject(s.projects, id).value;
    var s1 := LoadMetadata(s, id, Ok(ts), Ok(root)).shared;
    if !s.projects[i].metadataLoaded {
      LoadMetadataEffect(s, id, ts, root);
      assert s1.projects[i].id == id;
      FindSamePrefix(s.projects, s1.projects, id, i);
    }
  }

  /** Replacing one project by another with the same id keeps every lookup. */
  lemma {:induction false} FindSamePrefix(a: seq<Project>, b: seq<Project>, id: string, i: nat)
    requires FindProject(a, id) == Some(i)
    requires |a| == |b| && b[i].id == id
    requires forall j :: 0 <= j < |a| && j != i ==> b[j] == a[j]
    ensures FindProject(b, id) == Some(i)
  {
    if i > 0 {
      assert a[0].id != id;
      assert FindProject(a[1..], id) == Some(i - 1);
      FindSamePrefix(a[1..], b[1..], id, i - 1);
    }
  }

  /** The modal's `loadProjectWorkItemQueries(projectId, reload)`: skipped when the
      project has queries (any array, even an empty one, is truthy) and no reload is
      asked; otherwise the queries are fetched by project name and released. */
  function LoadQueries(s: Shared, id: string, reload: bool, response: Result<seq<Json>, string>): (r: Load)
    ensures FindProject(s.projects, id).None? ==> r == Load(s, [], Some(NoProject))
    ensures r.error.Some? ==> r.shared == s
    ensures FindProject(s.projects, id).Some? ==>
              var p := s.projects[FindProject(s.projects, id).value];
              (r.requests == [] <==> p.queries.Some? && !reload)
              && (r.requests != [] ==> r.requests == [QueriesRequest(p.name)])
  {
    match Checkout(s, id)
    case None => Load(s, [], Some(NoProject))
    case Some(lease) =>
      var p := Leased(lease);
      if p.queries.Some? && !reload then Load(s, [], None)
      else
        match response
        case Err(e) => Load(s, [QueriesRequest(p.name)], Some(e))
        case Ok(qs) => Load(Release(Edit(lease, p.(queries := Some(qs)))), [QueriesRequest(p.name)], None)
  }

  /** After a successful fetch the queries are cached: a plain load sends nothing,
      a reload fetches again. */
  lemma {:induction false} QueriesCached(s: Shared, id: string, reload: bool, qs: seq<Json>,
                                         response: Result<seq<Json>, string>)
    requires FindProject(s.projects, id).Some?
    ensures var r := LoadQueries(s, id, reload, Ok(qs));
            var i := FindProject(s.projects, id).value;
            && r.error.None?
            && (s.projects[i].queries.None? || reload ==> r.shared.projects == s.projects[i := s.projects[i].(queries := Some(qs))])
            && LoadQueries(r.shared, id, false, response).requests == []
            && LoadQueries(r.shared, id, true, response).requests == [QueriesRequest(s.projects[i].name)]
  {
    var i := FindProject(s.projects, id).value;
    var r := LoadQueries(s, id, reload, Ok(qs));
    if s.projects[i].queries.None? || reload {
      FindSamePrefix(s.projects, r.shared.projects, id, i);
    }
  }

  // ---------------------------------------------------------------------------
  // Running a saved query

  /** What a query run shows: the work items of the second request and the count
      reported (the number of ids, not of items fetched), or an error. */
  datatype QueryRun = QueryRun(requests: seq<Request>, shown: Option<(seq<Json>, nat)>, error: Option<string>)

  /** The body of the query run once the project name is chosen: no second request
      when there are no ids; otherwise the first 200 ids are fetched and the total
      count is reported. A failing request ends in the error message. */
  function RunQuery(projectName: string, queryId: string,
                    result: Result<QueryResult, string>,
                    items: Result<seq<Json>, string>): (r: QueryRun)
    ensures |r.requests| >= 1 && r.requests[0] == QueryResultRequest(projectName, queryId)
    ensures r.shown.Some? <==> r.error.None?
    ensures r.shown.Some? ==> result.Ok? && r.shown.value.1 == |QueryResultIds(result.value)|
    ensures result.Ok? && |QueryResultIds(result.value)| == 0 ==>
              r == QueryRun([QueryResultRequest(projectName, queryId)], Some(([], 0)), None)
    ensures |r.requests| == 2 ==>
              result.Ok? && r.requests[1] == WorkItemsRequest(IdList(QueryResultIds(result.value)))
  {
    var first := QueryResultRequest(projectName, queryId);
    match result
    case Err(e) => QueryRun([first], None, Some(e))
    case Ok(q) =>
      var ids := QueryResultIds(q);
      match PlanQueryFetch(ids)
      case None => QueryRun([first], Some(([], 0)), None)
      case Some(list) =>
        match items
        case Err(e) => QueryRun([first, WorkItemsRequest(list)], None, Some(e))
        case Ok(ws) => QueryRun([first, WorkItemsRequest(list)], Some((ws, |ids|)), None)
  }

  /** The name of the anonymous release function, which is what `proj.name` reads
      after `const [done, proj] = this.getProjectById(projId)` swaps the pair. */
  const ReleaseFunctionName: string := ""

  /** The modal's query run as written: the lease is destructured in the wrong order,
      so the project-name argument is the release function's `name`. No project
      property is read, so even an unknown project id runs the query. */
  function RunQueryAsWritten(s: Shared, projId: string, queryId: string,
                             result: Result<QueryResult, string>,
                             items: Result<seq<Json>, string>): (r: QueryRun)
    ensures |r.requests| >= 1 && r.requests[0] == QueryResultRequest(ReleaseFunctionName, queryId)
  {
    RunQuery(ReleaseFunctionName, queryId, result, items)
  }

  /** The query run as intended: `const [proj, done]`, so the request is scoped to
      the selected project; an unknown project throws inside the `try` and is shown
      as an error. */
  function RunQueryFixed(s: Shared, projId: string, queryId: string,
                         result: Result<QueryResult, string>,
                         items: Result<seq<Json>, string>): (r: QueryRun)
    ensures FindProject(s.projects, projId).None? ==> r == QueryRun([], None, Some(NoProject))
    ensures FindProject(s.projects, projId).Some? ==>
              |r.requests| >= 1
              && r.requests[0] == QueryResultRequest(s.projects[FindProject(s.projects, projId).value].name, queryId)
  {
    match Checkout(s, projId)
    case None => QueryRun([], None, Some(NoProject))
    case Some(lease) => RunQuery(Leased(lease).name, queryId, result, items)
  }

  /** `getVsoWorkItemQueryResult(projectName, queryId)`'s path. */
  function QueryResultPath(projectName: string, queryId: string): string {
    "/" + projectName + "/_apis/wit/wiql/" + queryId
  }

  /** The URL of a query run scoped to `projectName`. */
  lemma {:induction false} QueryUrl(accountUrl: string, projectName: string, queryId: string)
    ensures Urls.VsoUrl(accountUrl, QueryResultPath(projectName, queryId), None)
         == accountUrl + "/" + projectName + "/_apis/wit/wiql/" + queryId
  {
    var path := QueryResultPath(projectName, queryId);
    assert path == "/" + (projectName + "/_apis/wit/wiql/" + queryId);
    assert path[1..] == projectName + "/_apis/wit/wiql/" + queryId;
    assert Urls.DropLeadingSlash(path) == path[1..];
  }

  /** As written, the query request loses its project segment; the fixed run names
      the project. */
  lemma QueryScopeLost(s: Shared, projId: string, queryId: string,
                       result: Result<QueryResult, string>, items: Result<seq<Json>, string>)
    requires FindProject(s.projects, projId).Some?
    requires s.projects[FindProject(s.projects, projId).value].name != ""
    ensures RunQueryAsWritten(s, projId, queryId, result, items).requests[0].projectName == ""
    ensures RunQueryFixed(s, projId, queryId, result, items).requests[0].projectName
         == s.projects[FindProject(s.projects, projId).value].name
  {
  }

  /** The as-written request's URL has a double slash where the project belongs. */
  lemma AsWrittenQueryUrl(accountUrl: string, queryId: string)
    ensures Urls.VsoUrl(accountUrl, QueryResultPath(ReleaseFunctionName, queryId), None)
         == accountUrl + "/" + "/_apis/wit/wiql/" + queryId
  {
    QueryUrl(accountUrl, ReleaseFunctionName, queryId);
    var head := accountUrl + "/";
    assert head + ReleaseFunctionName == head;
  }

  // ---------------------------------------------------------------------------
  // The sidebar's and the legacy app's loaders

  /** The sidebar's `loadProjectMetadata`: both requests go out together, but the
      project it edits belongs to a parsed copy that is never written back, so the
      store keeps the project unloaded. */
  function SidebarLoadMetadata(s: Shared, id: string,
                               types: Result<seq<WorkItemType>, string>,
                               areas: Result<Area, string>): (r: Load)
    ensures r.shared == s
    ensures FindProject(s.projects, id).Some? && !s.projects[FindProject(s.projects, id).value].metadataLoaded ==>
              r.requests == [TypesRequest(s.projects[FindProject(s.projects, id).value].id),
                             AreasRequest(s.projects[FindProject(s.projects, id).value].id)]
  {
    match Checkout(s, id)
    case None => Load(s, [], Some(NoProject))
    case Some(lease) =>
      var p := Leased(lease);
      if p.metadataLoaded then Load(s, [], None)
      else
        var requests := [TypesRequest(p.id), AreasRequest(p.id)];
        if types.Err? then Load(s, requests, Some(types.error))
        else if areas.Err? then Load(s, requests, Some(areas.error))
        else Load(s, requests, None)
  }

  /** Because nothing is persisted, every sidebar load of an unloaded project
      fetches both lists again, where the modal's load fetches once. */
  lemma SidebarLoadForgets(s: Shared, id: string, ts: seq<WorkItemType>, root: Area)
    requires FindProject(s.projects, id).Some?
    requires !s.projects[FindProject(s.projects, id).value].metadataLoaded
    ensures var s1 := SidebarLoadMetadata(s, id, Ok(ts), Ok(root)).shared;
            SidebarLoadMetadata(s1, id, Ok(ts), Ok(root)).requests != []
    ensures var s1 := LoadMetadata(s, id, Ok(ts), Ok(root)).shared;
            LoadMetadata(s1, id, Ok(ts), Ok(root)).requests == []
  {
    LoadMetadataOnce(s, id, ts, root, Ok(ts), Ok(root));
  }

  /** The sidebar's `loadProjectWorkItemQueries(projectId, reload)`: the same skip rule
      as the modal's, but the fetched queries go to a parsed copy that is never
      written back. */
  function SidebarLoadQueries(s: Shared, id: string, reload: bool, response: Result<seq<Json>, string>): (r: Load)
    ensures r.shared == s
    ensures r.requests == LoadQueries(s, id, reload, response).requests
  {
    match Checkout(s, id)
    case None => Load(s, [], Some(NoProject))
    case Some(lease) =>
      var p := Leased(lease);
      if p.queries.Some? && !reload then Load(s, [], None)
      else Load(s, [QueriesRequest(p.name)], if response.Err? then Some(response.error) else None)
  }

  /** A legacy load: the live project list after it, the requests sent, and the error
      the returned promise fails with, if any. */
  datatype LegacyLoad = LegacyLoad(projects: seq<Project>, requests: seq<Request>, error: Option<string>)

  /** The legacy `loadProjectWorkItemTypes`: the legacy view model keeps live
      objects, so the `done` callback's writes stick; the flag is set together with
      the types, and only on success. An unknown id throws when the flag of the
      missing project is read. */
  function LegacyLoadTypes(projects: seq<Project>, id: string, types: Result<seq<WorkItemType>, string>): (r: LegacyLoad)
    ensures FindProject(projects, id).None? ==> r == LegacyLoad(projects, [], Some(NoProject))
    ensures |r.projects| == |projects|
    ensures forall j :: 0 <= j < |projects| && r.projects[j] != projects[j] ==>
              FindProject(projects, id) == Some(j) && !projects[j].metadataLoaded && types.Ok?
              && r.projects[j] == projects[j].(workItemTypes := RestrictToAllowed(types.value, LegacyAllowedTypes),
                                               metadataLoaded := true)
    ensures FindProject(projects, id).Some? ==>
              var p := projects[FindProject(projects, id).value];
              (r.requests == [] <==> p.metadataLoaded)
              && (r.error.Some? <==> !p.metadataLoaded && types.Err?)
  {
    match FindProject(projects, id)
    case None => LegacyLoad(projects, [], Some(NoProject))
    case Some(i) =>
      var p := projects[i];
      if p.metadataLoaded then LegacyLoad(projects, [], None)
      else
        match types
        case Err(e) => LegacyLoad(projects, [TypesRequest(p.id)], Some(e))
        case Ok(ts) =>
          LegacyLoad(projects[i := p.(workItemTypes := RestrictToAllowed(ts, LegacyAllowedTypes), metadataLoaded := true)],
                     [TypesRequest(p.id)], None)
  }

  /** The legacy `loadProjectWorkItemQueries`: no reload; fetched once, then kept. An
      unknown id throws when the queries of the missing project are read. */
  function LegacyLoadQueries(projects: seq<Project>, id: string, response: Result<seq<Json>, string>): (r: LegacyLoad)
    ensures FindProject(projects, id).None? ==> r == LegacyLoad(projects, [], Some(NoProject))
    ensures |r.projects| == |projects|
    ensures FindProject(projects, id).Some? ==>
              var p := projects[FindProject(projects, id).value];
              (r.requests == [] <==> p.queries.Some?) && (r.requests != [] ==> r.requests == [QueriesRequest(p.name)])
              && (r.error.Some? <==> p.queries.None? && response.Err?)
    ensures forall j :: 0 <= j < |projects| && r.projects[j] != projects[j] ==>
              FindProject(projects, id) == Some(j) && projects[j].queries.None? && response.Ok?
              && r.projects[j] == projects[j].(queries := Some(response.value))
  {
    match FindProject(projects, id)
    case None => LegacyLoad(projects, [], Some(NoProject))
    case Some(i) =>
      var p := projects[i];
      if p.queries.Some? then LegacyLoad(projects, [], None)
      else
        match response
        case Err(e) => LegacyLoad(projects, [QueriesRequest(p.name)], Some(e))
        case Ok(qs) => LegacyLoad(projects[i := p.(queries := Some(qs))], [QueriesRequest(p.name)], None)
  }

  /** The legacy type loader is idempotent: a second call after a success sends no
      request and changes nothing. */
  lemma LegacyLoadTypesOnce(projects: seq<Project>, id: string, ts: seq<WorkItemType>,
                            types2: Result<seq<WorkItemType>, string>)
    requires FindProject(projects, id).Some?
    ensures var p1 := LegacyLoadTypes(projects, id, Ok(ts)).projects;
            LegacyLoadTypes(p1, id, types2) == LegacyLoad(p1, [], None)
  {
    var i := FindProject(projects, id).value;
    var p1 := LegacyLoadTypes(projects, id, Ok(ts)).projects;
    if !projects[i].metadataLoaded {
      FindSamePrefix(projects, p1, id, i);
    }
  }

  /** The legacy query loader keeps what it fetched: a second call after a success sends
      no request, changes nothing, and the project holds the first response's queries. */
  lemma LegacyLoadQueriesOnce(projects: seq<Project>, id: string, qs: seq<Json>,
                              response2: Result<seq<Json>, string>)
    requires FindProject(projects, id).Some?
    ensures var p1 := LegacyLoadQueries(projects, id, Ok(qs)).projects;
            LegacyLoadQueries(p1, id, response2) == LegacyLoad(p1, [], None)
            && p1[FindProject(projects, id).value].queries.Some?
  {
    var i := FindProject(projects, id).value;
    var p1 := LegacyLoadQueries(projects, id, Ok(qs)).projects;
    if projects[i].queries.None? {
      FindSamePrefix(projects, p1, id, i);
    }
  }
}
