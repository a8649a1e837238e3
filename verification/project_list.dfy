/** Loading the project list page by page (`getAllVsoProjects`) and merging each page
    into the shared list (`onGetVsoProjectsDone`). */
module ProjectList {
  import opened Wrappers
  import opened Strings
  import opened Sorting
  import opened ProjectMetadata

  /** `VSO_PROJECTS_PAGE_SIZE`. */
  const PageSize: nat := 100

  /** A project as the projects endpoint lists it. */
  datatype ProjectRef = ProjectRef(id: string, name: string)

  /** One page of `getVsoProjects(skip)`: its `count` and its `value`. */
  datatype Page = Page(count: int, value: seq<ProjectRef>)

  /** A listed project as it enters the shared list: no types, areas or queries yet. */
  function Fresh(p: ProjectRef): Project {
    Project(p.id, p.name, [], [], None, false)
  }

  function FreshAll(ps: seq<ProjectRef>): (r: seq<Project>)
    ensures |r| == |ps|
    ensures forall i :: 0 <= i < |ps| ==> r[i] == Fresh(ps[i])
  {
    seq(|ps|, i requires 0 <= i < |ps| => Fresh(ps[i]))
  }

  /** `project.name.toLowerCase()`. */
  function ProjectKey(p: Project): string {
    Lower(p.name)
  }

  /** `onGetVsoProjectsDone(page)`: the stored list plus the page's projects, sorted
      case-insensitively by name; projects with equal keys keep their order. */
  function MergePage(stored: seq<Project>, page: Page): (r: seq<Project>)
    ensures SortedBy(r, ProjectKey)
    ensures multiset(r) == multiset(stored + FreshAll(page.value))
    ensures |r| == |stored| + |page.value|
  {
    var all := stored + FreshAll(page.value);
    var r := SortBy(all, ProjectKey);
    assert |r| == |multiset(r)| == |multiset(all)| == |all|;
    r
  }

  /** Equal-key projects keep their arrival order: those already stored first, then
      the page's. */
  lemma MergePageStable(stored: seq<Project>, page: Page, k: string)
    ensures WithKey(MergePage(stored, page), ProjectKey, k)
         == WithKey(stored, ProjectKey, k) + WithKey(FreshAll(page.value), ProjectKey, k)
  {
    SortByStable(stored + FreshAll(page.value), ProjectKey, k);
    WithKeyAppend(stored, FreshAll(page.value), ProjectKey, k);
  }

  /** A response to a page request: the page, or the request's failure. */
  type Response = Result<Page, string>

  predicate Full(r: Response) {
    r.Ok? && r.value.count == PageSize
  }

  /** How the paging ended: waiting for a response not yet given, completed after a
      short page, or failed. */
  datatype Paging = Waiting | Done | Failed(error: string)

  /** The projects a response carries: none when it failed. */
  function PageProjects(r: Response): seq<ProjectRef> {
    if r.Ok? then r.value.value else []
  }

  /** The projects of all successful responses, in order. */
  function Received(server: seq<Response>): seq<ProjectRef> {
    if |server| == 0 then []
    else Received(server[..|server| - 1]) + PageProjects(server[|server| - 1])
  }

  lemma ReceivedStep(server: seq<Response>, k: nat)
    requires k < |server|
    ensures Received(server[..k + 1]) == Received(server[..k]) + PageProjects(server[k])
  {
    assert server[..k + 1][..k] == server[..k];
  }

  /** The shared list after the successful responses among `rs` were merged in
      turn. */
  function MergePages(stored: seq<Project>, rs: seq<Response>): (r: seq<Project>)
    ensures |rs| > 0 && rs[|rs| - 1].Ok? ==> SortedBy(r, ProjectKey)
  {
    if |rs| == 0 then stored
    else if rs[|rs| - 1].Ok? then MergePage(MergePages(stored, rs[..|rs| - 1]), rs[|rs| - 1].value)
    else MergePages(stored, rs[..|rs| - 1])
  }

  lemma MergePagesStep(stored: seq<Project>, server: seq<Response>, k: nat)
    requires k < |server|
    ensures MergePages(stored, server[..k + 1])
         == if server[k].Ok? then MergePage(MergePages(stored, server[..k]), server[k].value)
            else MergePages(stored, server[..k])
  {
    assert server[..k + 1][..k] == server[..k];
  }

  /** The merged list holds the stored projects and every received one. */
  lemma {:induction false} MergePagesContents(stored: seq<Project>, rs: seq<Response>)
    ensures multiset(MergePages(stored, rs)) == multiset(stored) + multiset(FreshAll(Received(rs)))
  {
    if |rs| > 0 {
      var init := rs[..|rs| - 1];
      MergePagesContents(stored, init);
      FreshAllAppend(Received(init), PageProjects(rs[|rs| - 1]));
    }
  }

  /** Once any page has been merged the list stays sorted; a sorted stored list
      stays sorted from the start. */
  lemma {:induction false} MergePagesSorted(stored: seq<Project>, rs: seq<Response>, i: nat)
    requires (i < |rs| && rs[i].Ok?) || SortedBy(stored, ProjectKey)
    ensures SortedBy(MergePages(stored, rs), ProjectKey)
  {
    if |rs| > 0 && !rs[|rs| - 1].Ok? {
      var init := rs[..|rs| - 1];
      if i < |rs| && rs[i].Ok? {
        assert i < |init| && init[i] == rs[i];
      }
      MergePagesSorted(stored, init, i);
    }
  }

  /** The `$skip` values of the first `n` page requests. */
  function Skips(n: nat): (r: seq<nat>)
    ensures |r| == n
    ensures forall p :: 0 <= p < n ==> r[p] == p * PageSize
  {
    seq(n, p requires 0 <= p => p * PageSize)
  }

  /** `getAllVsoProjects`: page `p` is requested with `$skip = p * 100`; a full page
      (`count === 100`) leads to the next request, any other count completes, and a
      failure stops. `server[p]` is the response the `p`-th request gets; when the
      responses run out the last request is still outstanding. Each successful page
      is merged into the shared list as it arrives. */
  method LoadAllProjects(server: seq<Response>, stored: seq<Project>)
    returns (skips: seq<nat>, state: Paging, projects: seq<Project>)
    ensures |skips| >= 1
    ensures forall p :: 0 <= p < |skips| ==> skips[p] == p * PageSize
    ensures state == Waiting <==> forall p :: 0 <= p < |server| ==> Full(server[p])
    ensures state == Waiting ==> |skips| == |server| + 1
    ensures state != Waiting ==> |skips| <= |server|
    ensures forall p :: 0 <= p < |skips| - 1 ==> Full(server[p])
    ensures state == Done ==> server[|skips| - 1].Ok? && !Full(server[|skips| - 1])
    ensures state.Failed? ==> server[|skips| - 1] == Err(state.error)
    ensures var answered := if state == Waiting then |server| else |skips|;
            multiset(projects) == multiset(stored) + multiset(FreshAll(Received(server[..answered])))
    ensures SortedBy(stored, ProjectKey) ==> SortedBy(projects, ProjectKey)
    ensures |server| > 0 && server[0].Ok? ==> SortedBy(projects, ProjectKey)
  {
    var k := 0;
    while k < |server| && Full(server[k])
      invariant 0 <= k <= |server|
      invariant forall p :: 0 <= p < k ==> Full(server[p])
      decreases |server| - k
    {
      k := k + 1;
    }
    skips := Skips(k + 1);
    var answered := k;
    if k == |server| {
      state := Waiting;
    } else {
      answered := k + 1;
      state := match server[k] case Err(e) => Failed(e) case Ok(_) => Done;
    }
    projects := MergePages(stored, server[..answered]);
    MergePagesContents(stored, server[..answered]);
    if |server| > 0 && server[0].Ok? {
      assert answered > 0 && server[..answered][0].Ok?;
      MergePagesSorted(stored, server[..answered], 0);
    } else if SortedBy(stored, ProjectKey) {
      MergePagesSorted(stored, server[..answered], 0);
    }
  }

  lemma FreshAllAppend(a: seq<ProjectRef>, b: seq<ProjectRef>)
    ensures FreshAll(a + b) == FreshAll(a) + FreshAll(b)
  {
  }
}
