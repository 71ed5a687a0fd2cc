/**
 Persistence of the settings map (`getState` / `loadState`). The XML element is
 abstracted to a tree: the root carries the global record, and an optional `projects`
 child holds one `project` element per project, tagged with its `name` attribute. How
 a record's fields are written into an element is not part of this model; a record
 element is either a record or one whose parsing throws.
 */
module SettingsPersistence {
  import opened Wrappers
  import opened SettingsData
  import opened GerritSettings

  /** A `project` element: its `name` attribute (`Null` when missing) and its record
      (`Null` when building the record from the element throws). */
  datatype ProjectNode = ProjectNode(name: Nullable<string>, record: Nullable<Record>)

  /** The component's root element: the global record (`Null` when building it throws)
      and the `projects` child (`Null` when the element has none). */
  datatype Document = Document(root: Nullable<Record>, projects: Nullable<seq<ProjectNode>>)

  /** The names that a list of project elements carries. */
  function Names(nodes: seq<ProjectNode>): set<string> {
    set i | 0 <= i < |nodes| && nodes[i].name.NonNull? :: nodes[i].name.value
  }

  /** The names of a list with one more element. */
  lemma NamesAppend(nodes: seq<ProjectNode>, node: ProjectNode)
    ensures Names(nodes + [node]) == Names(nodes) + (if node.name.NonNull? then {node.name.value} else {})
  {
    var all := nodes + [node];
    forall k | k in Names(all)
      ensures k in Names(nodes) + (if node.name.NonNull? then {node.name.value} else {})
    {
      var i :| 0 <= i < |all| && all[i].name.NonNull? && all[i].name.value == k;
      if i < |nodes| {
        assert all[i] == nodes[i];
      }
    }
    forall k | k in Names(nodes)
      ensures k in Names(all)
    {
      var i :| 0 <= i < |nodes| && nodes[i].name.NonNull? && nodes[i].name.value == k;
      assert all[i] == nodes[i];
    }
    if node.name.NonNull? {
      assert all[|nodes|] == node;
    }
  }

  /** A project element `loadState` stores: named, with a non-empty name, and parseable. */
  predicate Loadable(n: ProjectNode) {
    n.name.NonNull? && n.name.value != "" && n.record.NonNull?
  }

  /** The loop of `loadState` over project elements, from the first to the last: an
      element without a name or with an empty name is skipped; a named one is stored
      under its name, replacing what was there; an element that fails to parse ends the
      whole load (the exception is caught outside the loop). Returns the map and whether
      the load was cut short. */
  function LoadProjects(m: map<string, Record>, nodes: seq<ProjectNode>): (r: (map<string, Record>, bool))
    ensures m.Keys <= r.0.Keys
    ensures r.0.Keys <= m.Keys + Names(nodes)
    ensures "" in r.0 ==> "" in m
    ensures forall k :: k in m && k !in Names(nodes) ==> r.0[k] == m[k]
    decreases |nodes|
  {
    if nodes == [] then (m, false)
    else
      var prefix := nodes[..|nodes| - 1];
      var last := nodes[|nodes| - 1];
      assert Names(nodes) == Names(prefix) + (if last.name.NonNull? then {last.name.value} else {}) by {
        assert nodes == prefix + [last];
        NamesAppend(prefix, last);
      }
      LoadElement(LoadProjects(m, prefix), last)
  }

  /** One turn of the `loadState` loop, on the map so far and whether the load was cut short. */
  function LoadElement(acc: (map<string, Record>, bool), n: ProjectNode): (map<string, Record>, bool) {
    if acc.1 then acc
    else if n.name.Null? || n.name.value == "" then acc
    else if n.record.Null? then (acc.0, true)
    else (acc.0[n.name.value := n.record.value], false)
  }

  /** `loadState`: the root replaces the global record; then, when there is a `projects`
      child, its elements are stored one by one. Nothing is ever removed, and the cache
      and the password safe are not touched. A root that fails to parse changes nothing. */
  function LoadState(s: State, doc: Document): (s': State)
    ensures s'.cache == s.cache && s'.store == s.store
    ensures s.projects.Keys <= s'.projects.Keys
    ensures doc.root.Null? ==> s' == s
    ensures doc.root.NonNull? && doc.projects.Null? ==> s'.projects == s.projects[GLOBAL := doc.root.value]
    ensures doc.root.NonNull? ==> GLOBAL in s'.projects
    ensures doc.root.NonNull? && doc.projects.NonNull? && GLOBAL !in Names(doc.projects.value) ==>
      s'.projects[GLOBAL] == doc.root.value
    ensures "" in s'.projects ==> "" in s.projects
    ensures Valid(s) ==> Valid(s')
  {
    match doc.root
    case Null => s
    case NonNull(global) =>
      var withGlobal := s.projects[GLOBAL := global];
      match doc.projects
      case Null => s.(projects := withGlobal)
      case NonNull(nodes) => s.(projects := LoadProjects(withGlobal, nodes).0)
  }

  /** The map a list of loadable elements describes, a later element winning over an
      earlier one with the same name. */
  function NodesMap(nodes: seq<ProjectNode>): map<string, Record>
    requires forall i :: 0 <= i < |nodes| ==> Loadable(nodes[i])
  {
    if nodes == [] then map[]
    else
      var last := nodes[|nodes| - 1];
      assert Loadable(last);
      NodesMap(nodes[..|nodes| - 1])[last.name.value := last.record.value]
  }

  /** Updating a union is updating its right operand. */
  lemma UpdateAfterUnion(a: map<string, Record>, b: map<string, Record>, k: string, v: Record)
    ensures (a + b)[k := v] == a + b[k := v]
  {
  }

  /** Loading loadable elements never aborts and adds exactly the map they describe. */
  lemma {:induction false} LoadLoadable(m: map<string, Record>, nodes: seq<ProjectNode>)
    requires forall i :: 0 <= i < |nodes| ==> Loadable(nodes[i])
    ensures LoadProjects(m, nodes) == (m + NodesMap(nodes), false)
    decreases |nodes|
  {
    if nodes != [] {
      var prefix := nodes[..|nodes| - 1];
      var last := nodes[|nodes| - 1];
      assert Loadable(last);
      LoadLoadable(m, prefix);
      assert LoadProjects(m, nodes).0 == (m + NodesMap(prefix))[last.name.value := last.record.value];
      assert NodesMap(nodes) == NodesMap(prefix)[last.name.value := last.record.value];
      UpdateAfterUnion(m, NodesMap(prefix), last.name.value, last.record.value);
    } else {
      assert m + map[] == m;
    }
  }

  /** Among loadable elements with the same name, the last one is what is loaded. */
  lemma {:induction false} LaterDuplicateWins(m: map<string, Record>, nodes: seq<ProjectNode>, j: nat, name: string, record: Record)
    requires forall i :: 0 <= i < |nodes| ==> Loadable(nodes[i])
    requires j < |nodes| && nodes[j] == ProjectNode(NonNull(name), NonNull(record))
    requires forall i :: j < i < |nodes| ==> nodes[i].name != NonNull(name)
    ensures name in LoadProjects(m, nodes).0 && LoadProjects(m, nodes).0[name] == record
    decreases |nodes|
  {
    if j < |nodes| - 1 {
      var prefix := nodes[..|nodes| - 1];
      var last := nodes[|nodes| - 1];
      assert Loadable(last) && last.name != NonNull(name);
      LaterDuplicateWins(m, prefix, j, name, record);
      LoadLoadable(m, prefix);
    } else {
      LoadLoadable(m, nodes[..|nodes| - 1]);
    }
  }

  /** Loading a root and loadable elements: the root replaces the global record, then the
      map the elements describe is laid over the result. */
  lemma LoadStateOfLoadable(s: State, root: Record, nodes: seq<ProjectNode>)
    requires forall i :: 0 <= i < |nodes| ==> Loadable(nodes[i])
    ensures LoadState(s, Document(NonNull(root), NonNull(nodes))).projects == s.projects[GLOBAL := root] + NodesMap(nodes)
  {
    LoadLoadable(s.projects[GLOBAL := root], nodes);
  }

  /** A project element named `GerritSettings`, when no later element has that name,
      replaces the global record that the root supplied. */
  lemma ReservedElementOverwritesGlobal(s: State, root: Record, nodes: seq<ProjectNode>, j: nat, rec: Record)
    requires forall i :: 0 <= i < |nodes| ==> Loadable(nodes[i])
    requires j < |nodes| && nodes[j] == ProjectNode(NonNull(GLOBAL), NonNull(rec))
    requires forall i :: j < i < |nodes| ==> nodes[i].name != NonNull(GLOBAL)
    ensures GLOBAL in LoadState(s, Document(NonNull(root), NonNull(nodes))).projects
    ensures LoadState(s, Document(NonNull(root), NonNull(nodes))).projects[GLOBAL] == rec
  {
    LaterDuplicateWins(s.projects[GLOBAL := root], nodes, j, GLOBAL, rec);
  }

  /** An element that fails to parse ends the load: the elements after it are ignored. */
  lemma {:induction false} MalformedEndsLoad(m: map<string, Record>, nodes: seq<ProjectNode>, j: nat)
    requires j < |nodes|
    requires nodes[j].name.NonNull? && nodes[j].name.value != "" && nodes[j].record.Null?
    ensures LoadProjects(m, nodes) == (LoadProjects(m, nodes[..j]).0, true)
    decreases |nodes|
  {
    if j < |nodes| - 1 {
      var prefix := nodes[..|nodes| - 1];
      assert prefix[..j] == nodes[..j];
      MalformedEndsLoad(m, prefix, j);
    } else {
      assert nodes[..|nodes| - 1] == nodes[..j];
    }
  }

  /** An element without a name, or with an empty one, has no effect wherever it sits. */
  lemma {:induction false} UnnamedElementIsSkipped(m: map<string, Record>, before: seq<ProjectNode>,
                                                   node: ProjectNode, after: seq<ProjectNode>)
    requires node.name.Null? || node.name.value == ""
    ensures LoadProjects(m, before + [node] + after) == LoadProjects(m, before + after)
    decreases |after|
  {
    var all, shorter := before + [node] + after, before + after;
    if after == [] {
      assert all[..|all| - 1] == before && all[|all| - 1] == node;
      assert shorter == before;
      LoadProjectsStep(m, all);
    } else {
      var prefix := after[..|after| - 1];
      assert all[..|all| - 1] == before + [node] + prefix;
      assert shorter[..|shorter| - 1] == before + prefix;
      assert all[|all| - 1] == shorter[|shorter| - 1];
      UnnamedElementIsSkipped(m, before, node, prefix);
      LoadProjectsStep(m, all);
      LoadProjectsStep(m, shorter);
    }
  }

  /** `LoadProjects` on a non-empty list is one more turn of the loop after its prefix. */
  lemma LoadProjectsStep(m: map<string, Record>, nodes: seq<ProjectNode>)
    requires nodes != []
    ensures LoadProjects(m, nodes) == LoadElement(LoadProjects(m, nodes[..|nodes| - 1]), nodes[|nodes| - 1])
  {
  }

  /** `doc` is a faithful image of `projects`: the global record at the root, and one
      `project` element per other name, each carrying that name's record. */
  predicate Describes(doc: Document, projects: map<string, Record>) {
    && GLOBAL in projects
    && doc.root == NonNull(projects[GLOBAL])
    && doc.projects.NonNull?
    && Names(doc.projects.value) == projects.Keys - {GLOBAL}
    && (forall i :: 0 <= i < |doc.projects.value| ==>
          var n := doc.projects.value[i];
          n.name.NonNull? && n.name.value in projects && n.record == NonNull(projects[n.name.value]))
    && (forall i, j :: 0 <= i < j < |doc.projects.value| ==>
          doc.projects.value[i].name != doc.projects.value[j].name)
  }

  /** Every element naming a key of `projects` and carrying its record: the elements
      describe `projects` restricted to their names. */
  lemma {:induction false} NodesMapOfFaithfulNodes(nodes: seq<ProjectNode>, projects: map<string, Record>)
    requires forall i :: 0 <= i < |nodes| ==> Loadable(nodes[i])
    requires forall i :: 0 <= i < |nodes| ==>
      nodes[i].name.NonNull? && nodes[i].name.value in projects && nodes[i].record == NonNull(projects[nodes[i].name.value])
    ensures Names(nodes) <= projects.Keys
    ensures NodesMap(nodes) == map k | k in Names(nodes) :: projects[k]
    decreases |nodes|
  {
    if nodes != [] {
      var prefix := nodes[..|nodes| - 1];
      NodesMapOfFaithfulNodes(prefix, projects);
      assert nodes == prefix + [nodes[|nodes| - 1]];
      NamesAppend(prefix, nodes[|nodes| - 1]);
    }
  }

  /** Loading a faithful image of a map without an empty-named project restores that
      map on top of whatever was loaded before. */
  lemma LoadRestoresDescribed(s: State, doc: Document, projects: map<string, Record>)
    requires Describes(doc, projects) && "" !in projects
    ensures LoadState(s, doc).projects == s.projects + projects
  {
    var nodes := doc.projects.value;
    forall i | 0 <= i < |nodes| ensures Loadable(nodes[i]) {
      assert nodes[i].name.value in projects;
    }
    var withGlobal := s.projects[GLOBAL := projects[GLOBAL]];
    LoadLoadable(withGlobal, nodes);
    NodesMapOfFaithfulNodes(nodes, projects);
    assert LoadState(s, doc).projects == withGlobal + NodesMap(nodes);
    RootAndElementsUnion(s.projects, projects);
  }

  /** The global record put over `m`, then every other record of `projects`, is `m`
      overridden by `projects`. */
  lemma RootAndElementsUnion(m: map<string, Record>, projects: map<string, Record>)
    requires GLOBAL in projects
    ensures m[GLOBAL := projects[GLOBAL]] + (map k | k in projects.Keys - {GLOBAL} :: projects[k]) == m + projects
  {
  }

  /** The `projects` child `getState` emits: one element per key of the map other than
      the global one, each carrying that key's record, in the map's (unspecified)
      iteration order. */
  method ProjectElements(projects: map<string, Record>) returns (nodes: seq<ProjectNode>)
    ensures Names(nodes) == projects.Keys - {GLOBAL}
    ensures forall i :: 0 <= i < |nodes| ==>
      nodes[i].name.NonNull? && nodes[i].name.value in projects
      && nodes[i].record == NonNull(projects[nodes[i].name.value])
    ensures forall i, j :: 0 <= i < j < |nodes| ==> nodes[i].name != nodes[j].name
  {
    var pending := projects.Keys - {GLOBAL};
    nodes := [];
    while pending != {}
      invariant pending <= projects.Keys - {GLOBAL}
      invariant Names(nodes) == (projects.Keys - {GLOBAL}) - pending
      invariant forall i :: 0 <= i < |nodes| ==>
        nodes[i].name.NonNull? && nodes[i].name.value in projects
        && nodes[i].record == NonNull(projects[nodes[i].name.value])
      invariant forall i, j :: 0 <= i < j < |nodes| ==> nodes[i].name != nodes[j].name
      decreases pending
    {
      var name :| name in pending;
      var node := ProjectNode(NonNull(name), NonNull(projects[name]));
      NamesAppend(nodes, node);
      nodes := nodes + [node];
      pending := pending - {name};
    }
  }

  /** `getState`: fails with `NullPointer` when there is no global record; otherwise
      first materialises the current project when it has no record yet, then emits the
      global record at the root and one `project` element per other key of the map, in
      the map's (unspecified) iteration order. */
  method GetState(s: State, ctx: Context) returns (r: Step<Document>)
    ensures r.Threw? <==> GLOBAL !in s.projects
    ensures r.Threw? ==> r.error == NullPointer
    ensures r.Ok? ==> Resolved(s, r.state, ctx) && Describes(r.value, r.state.projects)
    ensures r.Ok? ==> r.value.root == NonNull(s.projects[GLOBAL])
    ensures r.Ok? && "" !in s.projects ==>
      forall s0: State :: LoadState(s0, r.value).projects == s0.projects + r.state.projects
  {
    if GLOBAL !in s.projects {
      return Threw(NullPointer);
    }
    var root := s.projects[GLOBAL];
    var s' := s;
    if NeedsRecord(s, ctx) {
      s' := AddProjectSettingsFromDefault(s, ctx).state;
    }
    var nodes := ProjectElements(s'.projects);
    var doc := Document(NonNull(root), NonNull(nodes));
    if "" !in s.projects {
      forall s0: State
        ensures LoadState(s0, doc).projects == s0.projects + s'.projects
      {
        LoadRestoresDescribed(s0, doc, s'.projects);
      }
    }
    return Ok(s', doc);
  }

  /** A worked example, first half: a document without a `projects` child loads as the
      global record alone; setting the host of a new project copies the global record
      for it and changes that copy only. */
  method LoadThenDivergeExample(global: Record, ctx: Context) returns (s2: State)
    requires global.host == "gerrit.example.com" && global.refreshTimeout == 60
    requires ctx.project == "team-a"
    ensures LoadState(State(map[], map[], map[]), Document(NonNull(global), Null)).projects == map[GLOBAL := global]
    ensures s2 == SetForCurrentProject(LoadState(State(map[], map[], map[]), Document(NonNull(global), Null)),
                                       ctx, SetHost("team-a.example.com")).state
    ensures s2.projects.Keys == {GLOBAL, ctx.project}
    ensures s2.projects[GLOBAL] == global
    ensures s2.projects[ctx.project].host == "team-a.example.com"
    ensures s2.projects[ctx.project].refreshTimeout == 60
  {
    var s1 := LoadState(State(map[], map[], map[]), Document(NonNull(global), Null));
    assert s1.projects == map[GLOBAL := global];
    s2 := SetForCurrentProject(s1, ctx, SetHost("team-a.example.com")).state;
  }

  /** The worked example, second half: saving then emits the untouched global record at
      the root and a single element, for the one project, with its own host. */
  method SaveAfterDivergeExample(global: Record, ctx: Context) returns (doc: Document)
    requires global.host == "gerrit.example.com" && global.refreshTimeout == 60
    requires ctx.project == "team-a"
    ensures doc.root == NonNull(global)
    ensures doc.projects.NonNull? && |doc.projects.value| == 1
    ensures doc.projects.value[0].name == NonNull(ctx.project)
    ensures doc.projects.value[0].record.NonNull?
      && doc.projects.value[0].record.value.host == "team-a.example.com"
      && doc.projects.value[0].record.value.refreshTimeout == 60
  {
    var s2 := LoadThenDivergeExample(global, ctx);
    assert s2.projects.Keys - {GLOBAL} == {ctx.project};
    var r := GetState(s2, ctx);
    assert r.state == s2;
    doc := r.value;
    OnlyName(doc.projects.value, ctx.project);
  }

  /** Named elements with distinct names whose only name is `name`: a single element. */
  lemma OnlyName(nodes: seq<ProjectNode>, name: string)
    requires forall i :: 0 <= i < |nodes| ==> nodes[i].name.NonNull?
    requires forall i, j :: 0 <= i < j < |nodes| ==> nodes[i].name != nodes[j].name
    requires Names(nodes) == {name}
    ensures |nodes| == 1 && nodes[0].name == NonNull(name)
  {
    assert name in Names(nodes);
    NameOf(nodes, 0);
    if |nodes| > 1 {
      NameOf(nodes, 1);
      assert false;
    }
  }

  /** The name of an element, when it has one, is among the names of the list. */
  lemma NameOf(nodes: seq<ProjectNode>, i: int)
    ensures 0 <= i < |nodes| && nodes[i].name.NonNull? ==> nodes[i].name.value in Names(nodes)
  {
  }
}
