/** Project metadata: the area tree flattened into backslash-joined paths, the
    work-item-type allow-lists, the legacy process-template detection and automatic
    fields, and the ids a saved query returns. */
module ProjectMetadata {
  import opened Wrappers
  import opened Strings
  import opened Sorting
  import opened JsonValues

  /** A node of the classification tree `getVsoProjectAreas` returns. */
  datatype Area = Area(id: int, name: string, children: seq<Area>)

  /** An entry of `project.areas`: `{id, name: path}`. */
  datatype AreaEntry = AreaEntry(id: int, path: string)

  /** A work item type as stored on a project: its name, the reference names of its
      field instances, and (legacy only) the field keys of its fetched template. */
  datatype WorkItemType = WorkItemType(name: string, fieldInstances: seq<string>, template: Option<seq<string>>)

  /** A project of the shared `projects` list. */
  datatype Project = Project(
    id: string,
    name: string,
    workItemTypes: seq<WorkItemType>,
    areas: seq<AreaEntry>,
    queries: Option<seq<Json>>,
    metadataLoaded: bool)

  // ---------------------------------------------------------------------------
  // Area flattening

  /** `visitArea`'s path: `(currentPath ? currentPath + "\\" : "") + area.name`; an
      empty parent path is falsy and adds no separator. */
  function AreaPath(parent: string, name: string): (r: string)
    ensures parent != "" ==> r == parent + "\\" + name
    ensures parent == "" ==> r == name
  {
    if parent == "" then name else parent + "\\" + name
  }

  function AreaCount(a: Area): nat
    decreases a, 1
  {
    1 + ForestCount(a.children)
  }

  function ForestCount(cs: seq<Area>): nat
    decreases cs, 0
  {
    if |cs| == 0 then 0 else AreaCount(cs[0]) + ForestCount(cs[1..])
  }

  /** Every path below a node begins with the node's path and a backslash. */
  predicate AllUnder(es: seq<AreaEntry>, parent: string) {
    forall i :: 0 <= i < |es| ==> StartsWith(es[i].path, parent + "\\")
  }

  lemma PrefixOfLonger(s: string, p: string)
    requires StartsWith(s, p + "\\")
    ensures StartsWith(s, p)
  {
    assert s[..|p|] == (p + "\\")[..|p|];
  }

  /** `visitArea(area, parent)`: the node itself, then each child's subtree in order
      (depth-first, pre-order). One entry per node; every entry below the node
      extends the node's path. */
  function FlattenArea(a: Area, parent: string): (r: seq<AreaEntry>)
    ensures |r| == AreaCount(a)
    ensures r[0] == AreaEntry(a.id, AreaPath(parent, a.name))
    ensures AreaPath(parent, a.name) != "" ==> AllUnder(r[1..], AreaPath(parent, a.name))
    ensures parent != "" ==> AllUnder(r, parent)
    decreases a, 1
  {
    var path := AreaPath(parent, a.name);
    var below := FlattenForest(a.children, path);
    var r := [AreaEntry(a.id, path)] + below;
    assert r[1..] == below;
    assert parent != "" ==> AllUnder(r, parent) by {
      if parent != "" {
        forall i | 0 <= i < |r|
          ensures StartsWith(r[i].path, parent + "\\")
        {
          if i == 0 {
            assert path == parent + "\\" + a.name;
          } else {
            assert r[i] == below[i - 1];
            PrefixOfLonger(r[i].path, path);
            assert path[..|parent| + 1] == parent + "\\";
          }
        }
      }
    }
    r
  }

  function FlattenForest(cs: seq<Area>, parent: string): (r: seq<AreaEntry>)
    ensures |r| == ForestCount(cs)
    ensures parent != "" ==> AllUnder(r, parent)
    decreases cs, 0
  {
    if |cs| == 0 then []
    else FlattenArea(cs[0], parent) + FlattenForest(cs[1..], parent)
  }

  function AreaKey(e: AreaEntry): string {
    e.path
  }

  /** `project.areas`: the flattened tree sorted by path. */
  function FlattenAreas(root: Area): (r: seq<AreaEntry>)
    ensures |r| == AreaCount(root)
    ensures SortedBy(r, AreaKey)
    ensures multiset(r) == multiset(FlattenArea(root, ""))
  {
    var flat := FlattenArea(root, "");
    var r := SortBy(flat, AreaKey);
    assert |r| == |multiset(r)| == |multiset(flat)| == |flat|;
    r
  }

  /** The root's path is its bare name and the root comes first before sorting;
      every other entry lies under the root's path. */
  lemma {:induction false} RootFirst(root: Area)
    requires root.name != ""
    ensures FlattenArea(root, "")[0] == AreaEntry(root.id, root.name)
    ensures AllUnder(FlattenArea(root, "")[1..], root.name)
  {
  }

  /** A child's subtree is flattened under `parent path + "\\" + child name`, and the
      subtrees follow one another in child order. */
  lemma {:induction false} ChildPaths(a: Area, parent: string, k: nat)
    requires k < |a.children|
    ensures FlattenArea(a.children[k], AreaPath(parent, a.name))[0].path
         == AreaPath(AreaPath(parent, a.name), a.children[k].name)
    ensures FlattenForest(a.children, AreaPath(parent, a.name))
         == FlattenForest(a.children[..k], AreaPath(parent, a.name))
          + FlattenArea(a.children[k], AreaPath(parent, a.name))
          + FlattenForest(a.children[k + 1..], AreaPath(parent, a.name))
  {
    ForestSplit(a.children, AreaPath(parent, a.name), k);
  }

  lemma {:induction false} ForestAppend(a: seq<Area>, b: seq<Area>, parent: string)
    ensures FlattenForest(a + b, parent) == FlattenForest(a, parent) + FlattenForest(b, parent)
  {
    if |a| == 0 {
      assert a + b == b;
    } else {
      assert (a + b)[0] == a[0];
      assert (a + b)[1..] == a[1..] + b;
      ForestAppend(a[1..], b, parent);
    }
  }

  lemma {:induction false} ForestSplit(cs: seq<Area>, parent: string, k: nat)
    requires k < |cs|
    ensures FlattenForest(cs, parent)
         == FlattenForest(cs[..k], parent) + FlattenArea(cs[k], parent) + FlattenForest(cs[k + 1..], parent)
  {
    assert cs == cs[..k] + ([cs[k]] + cs[k + 1..]);
    ForestAppend(cs[..k], [cs[k]] + cs[k + 1..], parent);
    ForestAppend([cs[k]], cs[k + 1..], parent);
    assert [cs[k]][1..] == [];
    assert FlattenForest([cs[k]], parent) == FlattenArea(cs[k], parent) + FlattenForest([], parent);
  }

  /** Entries that share a path keep their tree order after the sort. */
  lemma SameAreaPathKeepsOrder(root: Area, path: string)
    ensures WithKey(FlattenAreas(root), AreaKey, path) == WithKey(FlattenArea(root, ""), AreaKey, path)
  {
    SortByStable(FlattenArea(root, ""), AreaKey, path);
  }

  /** A three-level tree: the project root, two areas, and a sub-area of the first. */
  lemma AreaExample()
    ensures FlattenArea(Area(1, "P", [Area(2, "A", [Area(3, "X", [])]), Area(4, "B", [])]), "")
         == [AreaEntry(1, "P"), AreaEntry(2, "P\\A"), AreaEntry(3, "P\\A\\X"), AreaEntry(4, "P\\B")]
  {
    var x := Area(3, "X", []);
    var a := Area(2, "A", [x]);
    var b := Area(4, "B", []);
    assert AreaPath("", "P") == "P";
    assert AreaPath("P", "A") == "P\\A";
    assert AreaPath("P", "B") == "P\\B";
    assert AreaPath("P\\A", "X") == "P\\A\\X";
    assert FlattenForest([], "P\\A\\X") == [];
    assert FlattenArea(x, "P\\A") == [AreaEntry(3, "P\\A\\X")];
    assert FlattenForest([x], "P\\A") == [AreaEntry(3, "P\\A\\X")];
    assert FlattenArea(a, "P") == [AreaEntry(2, "P\\A"), AreaEntry(3, "P\\A\\X")];
    assert FlattenArea(b, "P") == [AreaEntry(4, "P\\B")];
    assert [a, b][1..] == [b];
    assert FlattenForest([b], "P") == [AreaEntry(4, "P\\B")];
  }

  // ---------------------------------------------------------------------------
  // Work item type allow-lists

  /** `VSO_WI_TYPES_WHITE_LISTS` of the current app. */
  const AllowedTypes: seq<string> := ["Bug", "Task", "Improvement", "User Story", "Feature"]

  /** `VSO_WI_TYPES_WHITE_LISTS` of the legacy app. */
  const LegacyAllowedTypes: seq<string> := ["Bug", "Product Backlog Item", "User Story", "Requirement", "Issue"]

  /** `restrictToAllowedWorkItems`: the types whose name is on the allow-list, in
      their original order. */
  function RestrictToAllowed(wits: seq<WorkItemType>, allowed: seq<string>): (r: seq<WorkItemType>)
    ensures |r| <= |wits|
    ensures forall x :: x in r <==> x in wits && x.name in allowed
  {
    if |wits| == 0 then []
    else (if wits[0].name in allowed then [wits[0]] else []) + RestrictToAllowed(wits[1..], allowed)
  }

  /** The filter distributes over concatenation: relative order is kept. */
  lemma {:induction false} RestrictAppend(a: seq<WorkItemType>, b: seq<WorkItemType>, allowed: seq<string>)
    ensures RestrictToAllowed(a + b, allowed) == RestrictToAllowed(a, allowed) + RestrictToAllowed(b, allowed)
  {
    if |a| == 0 {
      assert a + b == b;
    } else {
      assert (a + b)[1..] == a[1..] + b;
      RestrictAppend(a[1..], b, allowed);
    }
  }

  /** A list that is already allowed passes unchanged; so filtering twice is
      filtering once. */
  lemma {:induction false} RestrictAllowedUnchanged(wits: seq<WorkItemType>, allowed: seq<string>)
    requires forall i :: 0 <= i < |wits| ==> wits[i].name in allowed
    ensures RestrictToAllowed(wits, allowed) == wits
  {
    if |wits| > 0 {
      RestrictAllowedUnchanged(wits[1..], allowed);
      assert [wits[0]] + wits[1..] == wits;
    }
  }

  lemma RestrictIdempotent(wits: seq<WorkItemType>, allowed: seq<string>)
    ensures RestrictToAllowed(RestrictToAllowed(wits, allowed), allowed) == RestrictToAllowed(wits, allowed)
  {
    var r := RestrictToAllowed(wits, allowed);
    assert forall i :: 0 <= i < |r| ==> r[i] in r;
    RestrictAllowedUnchanged(r, allowed);
  }

  /** The current app's `hasFieldDefined`: some field instance has the reference
      name. */
  predicate HasFieldInstance(wit: WorkItemType, refName: string) {
    refName in wit.fieldInstances
  }

  const TemplateMissing: string := "Invalid operation: cannot determine if there is a field in a WIT without its template being fetch first."

  /** The legacy `hasFieldDefined`: throws until the type's template is fetched, then
      asks whether the template defines the field. */
  function LegacyHasFieldDefined(wit: WorkItemType, refName: string): (r: Result<bool, string>)
    ensures r.Err? <==> wit.template.None?
    ensures r.Ok? ==> (r.value <==> refName in wit.template.value)
  {
    match wit.template
    case None => Err(TemplateMissing)
    case Some(fields) => Ok(refName in fields)
  }

  // ---------------------------------------------------------------------------
  // Legacy process template and automatic fields

  const Scrum: string := "SCRUM"
  const Cmmi: string := "CMMI"
  const Msf: string := "MSF"
  const TemplateUnsupported: string := "Process template not supported!"

  /** `getProcessTemplateName` over the names of a project's work item types. */
  function ProcessTemplateName(typeNames: seq<string>): (r: Result<string, string>)
    ensures r == Ok(Scrum) <==> "Product Backlog Item" in typeNames
    ensures r == Ok(Cmmi) <==> "Product Backlog Item" !in typeNames && "Change Request" in typeNames
    ensures r == Ok(Msf) <==>
              "Product Backlog Item" !in typeNames && "Change Request" !in typeNames && "User Story" in typeNames
    ensures r.Err? <==>
              "Product Backlog Item" !in typeNames && "Change Request" !in typeNames && "User Story" !in typeNames
  {
    if "Product Backlog Item" in typeNames then Ok(Scrum)
    else if "Change Request" in typeNames then Ok(Cmmi)
    else if "User Story" in typeNames then Ok(Msf)
    else Err(TemplateUnsupported)
  }

  /** The names the template test consults are only the three markers: adding any
      other type name does not change the answer. */
  lemma ProcessTemplateIgnoresOthers(typeNames: seq<string>, extra: string)
    requires extra != "Product Backlog Item" && extra != "Change Request" && extra != "User Story"
    ensures ProcessTemplateName(typeNames + [extra]) == ProcessTemplateName(typeNames)
  {
    assert forall n :: n in typeNames + [extra] <==> n in typeNames || n == extra;
  }

  /** A configured value: a fixed text, or `valueReader: "getUserName"`. */
  datatype RuleValue = Fixed(text: string) | UserName

  datatype FieldRule = FieldRule(refName: string, value: RuleValue)

  /** An automatic field: `{ field: { refName }, value }`. */
  datatype AutoField = AutoField(refName: string, value: string)

  function Rule(refName: string, text: string): FieldRule {
    FieldRule(refName, Fixed(text))
  }

  const State: string := "System.State"
  const Reason: string := "System.Reason"

  /** `VSO_WI_TYPES_INCLUDE_FIELDS[process][witName] || []`; indexing an unknown
      process reads a property of `undefined`, which throws. */
  function IncludeFields(process: string, witName: string): (r: Option<seq<FieldRule>>)
    ensures r.Some? <==> process == Scrum || process == Msf || process == Cmmi
  {
    if process == Scrum then
      Some(if witName == "Bug" then [Rule(State, "New"), Rule(Reason, "New defect reported")]
           else if witName == "Product Backlog Item" then [Rule(State, "New"), Rule(Reason, "New backlog item")]
           else [])
    else if process == Msf then
      Some(if witName == "Bug" || witName == "Issue" then
             [Rule(State, "Active"), Rule(Reason, "New"),
              FieldRule("Microsoft.VSTS.Common.ActivatedBy", UserName)]
           else if witName == "User Story" then [Rule(State, "New"), Rule(Reason, "New")]
           else [])
    else if process == Cmmi then
      var common := [Rule(State, "Proposed"), Rule(Reason, "New"),
                     Rule("Microsoft.VSTS.Common.Priority", "2"),
                     Rule("Microsoft.VSTS.Common.Triage", "Pending")];
      Some(if witName == "Bug" || witName == "Issue" then common
           else if witName == "Requirement" then
             common + [Rule("Microsoft.VSTS.CMMI.RequirementType", "Functional"),
                       Rule("Microsoft.VSTS.CMMI.Committed", "No"),
                       Rule("Microsoft.VSTS.CMMI.UserAcceptanceTest", "Not Ready")]
           else [])
    else None
  }

  /** The value a rule contributes: the static value, or the reader's result. */
  function RuleText(v: RuleValue, userName: string): string {
    match v
    case Fixed(t) => t
    case UserName => userName
  }

  /** The rules among `rules` whose field the template defines, in order. */
  function DefinedRules(rules: seq<FieldRule>, fields: seq<string>): seq<FieldRule> {
    if |rules| == 0 then []
    else (if rules[0].refName in fields then [rules[0]] else []) + DefinedRules(rules[1..], fields)
  }

  /** The `_.each` loop of `getAutomaticFields` over the configured rules. The first
      `hasFieldDefined` call throws when the template is missing; the result keeps,
      in order, one field per rule whose field the template defines. */
  function CollectFields(rules: seq<FieldRule>, wit: WorkItemType, userName: string): (r: Result<seq<AutoField>, string>)
    ensures r.Err? <==> |rules| > 0 && wit.template.None?
    ensures r.Ok? ==> |r.value| == |DefinedRules(rules, if wit.template.Some? then wit.template.value else [])|
    ensures r.Ok? ==> forall i :: 0 <= i < |r.value| ==>
              r.value[i].refName == DefinedRules(rules, wit.template.value)[i].refName
              && r.value[i].value == RuleText(DefinedRules(rules, wit.template.value)[i].value, userName)
  {
    if |rules| == 0 then Ok([])
    else
      match LegacyHasFieldDefined(wit, rules[0].refName)
      case Err(e) => Err(e)
      case Ok(defined) =>
        var here := if defined then [AutoField(rules[0].refName, RuleText(rules[0].value, userName))] else [];
        match CollectFields(rules[1..], wit, userName)
        case Err(e) => Err(e)
        case Ok(rest) => Ok(here + rest)
  }

  /** `getAutomaticFields(processTemplateName, workItemType)`. */
  function AutomaticFields(process: string, wit: WorkItemType, userName: string): (r: Result<seq<AutoField>, string>)
    ensures IncludeFields(process, wit.name).None? ==> r.Err?
    ensures IncludeFields(process, wit.name).Some? ==> r == CollectFields(IncludeFields(process, wit.name).value, wit, userName)
  {
    match IncludeFields(process, wit.name)
    case None => Err("TypeError")
    case Some(rules) => CollectFields(rules, wit, userName)
  }

  /** A type with no configured fields needs no template. */
  lemma UnlistedTypeNeedsNoTemplate(process: string, wit: WorkItemType, userName: string)
    requires process == Scrum || process == Msf || process == Cmmi
    requires wit.name != "Bug" && wit.name != "Issue" && wit.name != "Product Backlog Item"
    requires wit.name != "User Story" && wit.name != "Requirement"
    ensures AutomaticFields(process, wit, userName) == Ok([])
  {
    assert IncludeFields(process, wit.name) == Some([]);
  }

  /** An MSF bug whose template defines every configured field gets the three
      fields, the last one read from the user's display name. */
  lemma MsfBugFields(wit: WorkItemType, userName: string)
    requires wit.name == "Bug" && wit.template.Some?
    requires State in wit.template.value && Reason in wit.template.value
    requires "Microsoft.VSTS.Common.ActivatedBy" in wit.template.value
    ensures AutomaticFields(Msf, wit, userName)
         == Ok([AutoField(State, "Active"), AutoField(Reason, "New"),
                AutoField("Microsoft.VSTS.Common.ActivatedBy", userName)])
  {
    var rules := IncludeFields(Msf, wit.name).value;
    DefinedRulesAll(rules, wit.template.value);
    var r := AutomaticFields(Msf, wit, userName);
    assert r.Ok? && |r.value| == 3;
    assert r.value[0] == AutoField(State, "Active");
    assert r.value[1] == AutoField(Reason, "New");
    assert r.value[2] == AutoField("Microsoft.VSTS.Common.ActivatedBy", userName);
    assert r.value == [AutoField(State, "Active"), AutoField(Reason, "New"),
                       AutoField("Microsoft.VSTS.Common.ActivatedBy", userName)];
  }

  lemma {:induction false} DefinedRulesAll(rules: seq<FieldRule>, fields: seq<string>)
    requires forall i :: 0 <= i < |rules| ==> rules[i].refName in fields
    ensures DefinedRules(rules, fields) == rules
  {
    if |rules| > 0 {
      DefinedRulesAll(rules[1..], fields);
      assert [rules[0]] + rules[1..] == rules;
    }
  }

  // ---------------------------------------------------------------------------
  // Query results

  /** The part of a `wiql` response the id extraction reads. A missing
      `workItemRelations` or `workItems` maps to no ids. */
  datatype QueryResult = QueryResult(queryType: string, relationTargets: seq<nat>, workItems: seq<nat>)

  /** `getWorkItemsIdsFromQueryResult`. */
  function QueryResultIds(q: QueryResult): (ids: seq<nat>)
    ensures q.queryType == "oneHop" || q.queryType == "tree" ==> ids == q.relationTargets
    ensures q.queryType != "oneHop" && q.queryType != "tree" ==> ids == q.workItems
  {
    if q.queryType == "oneHop" || q.queryType == "tree" then q.relationTargets else q.workItems
  }

  const MaxFetch: nat := 200

  /** `_.first(ids, 200).join(",")`: the comma-separated decimal ids of the first
      200 results. */
  function IdList(ids: seq<nat>): string {
    Join(IdTexts(if |ids| <= MaxFetch then ids else ids[..MaxFetch]), ',')
  }

  function IdTexts(ids: seq<nat>): (r: seq<string>)
    ensures |r| == |ids|
    ensures forall i :: 0 <= i < |ids| ==> r[i] == NatToString(ids[i])
  {
    seq(|ids|, i requires 0 <= i < |ids| => NatToString(ids[i]))
  }

  /** The second request of a query run: none when there are no ids, else the work
      items of the first 200 ids. */
  function PlanQueryFetch(ids: seq<nat>): (r: Option<string>)
    ensures r.None? <==> |ids| == 0
  {
    if |ids| == 0 then None else Some(IdList(ids))
  }

  /** Round trip: the id list the request carries splits at commas into exactly the
      first `min(|ids|, 200)` ids, each parsing back to its number. */
  lemma {:induction false} IdListRoundTrip(ids: seq<nat>)
    requires |ids| > 0
    ensures |Split(IdList(ids), ',')| == if |ids| <= MaxFetch then |ids| else MaxFetch
    ensures forall i :: 0 <= i < |Split(IdList(ids), ',')| ==>
              IsDigits(Split(IdList(ids), ',')[i]) && ParseDigits(Split(IdList(ids), ',')[i]) == ids[i]
  {
    var taken := if |ids| <= MaxFetch then ids else ids[..MaxFetch];
    var texts := IdTexts(taken);
    forall k | 0 <= k < |texts|
      ensures ',' !in texts[k]
    {
      assert IsDigits(texts[k]);
      assert forall j :: 0 <= j < |texts[k]| ==> texts[k][j] != ',';
    }
    SplitJoin(texts, ',');
    forall i | 0 <= i < |texts|
      ensures IsDigits(texts[i]) && ParseDigits(texts[i]) == ids[i]
    {
      ParseNatToString(taken[i]);
    }
  }
}
