/**
 Templates inside templates (store/core-designer/selectors.ts): which templates may
 be instantiated in the active one, and what a template's exports resolve to.
 */
module Templates {
  import opened Options
  import opened Strings
  import opened ReducerTools
  import opened DesignerIds
  import opened CoreStore
  import opened TemplateGraph

  /** The containment edges: (view of the component, template that defines it). */
  ghost function Containment(components: map<string, Component>): Edges {
    set c | c in components && components[c].definition.TemplateDef? :: (ViewOf(c), components[c].definition.id)
  }

  // ----- getUsableTemplates -----

  /** What `fillTemplateUsage` relies on: components name their view, and usage lists are exact. */
  ghost predicate UsageKnown(r: Rows) {
    && UsageExact(r.plugins, r.templates, r.components) && "" !in r.templates
    && forall c :: c in r.components ==>
         IsView(r, ViewOf(c)) && r.components[c].templateId == (if ViewOf(c) in r.projects then "" else ViewOf(c))
  }

  /** `views` holds every template with a component of the given definition. */
  ghost predicate UsersIn(r: Rows, templateId: string, views: set<string>) {
    forall c :: c in r.components && r.components[c].definition == TemplateDef(templateId)
      && r.components[c].templateId != ""
      ==> r.components[c].templateId in views
  }

  /** Every user of a template in `done` is in `usage`. */
  ghost predicate ClosedUnder(r: Rows, done: set<string>, usage: set<string>) {
    forall t :: t in done ==> UsersIn(r, t, usage)
  }

  /** Every template in `found` contains `root`, directly or through others. */
  ghost predicate AllReach(r: Rows, found: set<string>, root: string) {
    forall t :: t in found ==> Reach(Containment(r.components), t, root)
  }

  lemma UserReaches(r: Rows, c: string, t: string, found: set<string>, root: string)
    requires UsageKnown(r) && c in r.components && r.components[c].definition == TemplateDef(t)
    requires r.components[c].templateId != ""
    requires AllReach(r, found, r.components[c].templateId) && Reach(Containment(r.components), t, root)
    ensures AllReach(r, found, root)
  {
    hide ViewOf, UsageExact;
    var edges, view := Containment(r.components), r.components[c].templateId;
    assert (view, t) in edges by { assert (ViewOf(c), t) in edges; }
    ReachEdge(edges, view, t);
    ReachTransitive(edges, view, t, root);
    forall x | x in found ensures Reach(edges, x, root) {
      ReachTransitive(edges, x, view, root);
    }
  }

  /**
   `fillTemplateUsage`: adds the template and everything that contains it. Terminates
   on every graph, cyclic or not, because the visited set grows.
   */
  method FillTemplateUsage(r: Rows, templateId: string, usage: set<string>) returns (result: set<string>)
    requires UsageKnown(r) && templateId in r.templates && usage <= r.templates.Keys
    ensures usage + {templateId} <= result <= r.templates.Keys
    ensures AllReach(r, result - usage, templateId)
    ensures ClosedUnder(r, result - usage, result)
    decreases |r.templates.Keys - usage|
  {
    hide ViewOf, Lists, UsageExact, AllReach, UsersIn, IsView, Containment, Reach;
    result := usage;
    if templateId in usage {
      NothingNew(r, usage, templateId);
      return;
    }
    result := usage + {templateId};
    Smaller(r.templates.Keys - result, r.templates.Keys - usage);
    var ids := r.templates[templateId].usageComponents;
    UsageIs(r, templateId);
    StartFill(r, usage, templateId);
    for i := 0 to |ids|
      invariant usage + {templateId} <= result <= r.templates.Keys
      invariant AllReach(r, result - usage, templateId)
      invariant ClosedUnder(r, result - usage - {templateId}, result)
      invariant forall j :: 0 <= j < i && r.components[ids[j]].templateId != "" ==>
        r.components[ids[j]].templateId in result
    {
      var component := r.components[ids[i]];
      if component.templateId != "" {
        UserView(r, ids[i]);
        SmallerOrEqual(r.templates.Keys - result, r.templates.Keys - usage - {templateId});
        var more := FillTemplateUsage(r, component.templateId, result);
        MoreReach(r, ids[i], templateId, usage, result, more);
        MoreClosed(r, usage + {templateId}, result, more);
        result := more;
      }
    }
    AllUsersFound(r, templateId, result);
    assert result - usage == (result - usage - {templateId}) + {templateId};
  }

  lemma NothingNew(r: Rows, usage: set<string>, root: string)
    ensures AllReach(r, usage - usage, root) && ClosedUnder(r, usage - usage, usage)
  {}

  lemma UsageIs(r: Rows, t: string)
    requires UsageKnown(r) && t in r.templates
    ensures forall c :: c in r.templates[t].usageComponents <==>
      c in r.components && r.components[c].definition == TemplateDef(t)
  {
    hide ViewOf, IsView, Ascending;
    assert Lists(r.templates[t].usageComponents, Users(r.components, TemplateDef(t)));
  }

  lemma UserView(r: Rows, c: string)
    requires UsageKnown(r) && c in r.components && r.components[c].templateId != ""
    ensures r.components[c].templateId in r.templates
  {
    hide ViewOf, UsageExact;
  }

  lemma StartFill(r: Rows, usage: set<string>, t: string)
    requires t !in usage
    ensures AllReach(r, usage + {t} - usage, t) && ClosedUnder(r, usage + {t} - usage - {t}, usage + {t})
  {
    ReachSelf(Containment(r.components), t);
  }

  lemma MoreReach(r: Rows, c: string, t: string, usage: set<string>, before: set<string>, after: set<string>)
    requires UsageKnown(r) && c in r.components && r.components[c].definition == TemplateDef(t)
    requires r.components[c].templateId != ""
    requires AllReach(r, before - usage, t) && AllReach(r, after - before, r.components[c].templateId)
    ensures AllReach(r, after - usage, t)
  {
    hide Reach, UsageKnown, Containment;
    ReachSelf(Containment(r.components), t);
    UserReaches(r, c, t, after - before, t);
  }

  lemma MoreClosed(r: Rows, usage: set<string>, before: set<string>, after: set<string>)
    requires usage <= before <= after
    requires ClosedUnder(r, before - usage, before) && ClosedUnder(r, after - before, after)
    ensures ClosedUnder(r, after - usage, after)
  {
    forall t | t in after - usage ensures UsersIn(r, t, after) {
      assert t in before ==> t in before - usage && UsersIn(r, t, before);
    }
  }

  lemma AllUsersFound(r: Rows, t: string, views: set<string>)
    requires UsageKnown(r) && t in r.templates
    requires var ids := r.templates[t].usageComponents;
             forall j :: 0 <= j < |ids| ==> ids[j] in r.components
    requires var ids := r.templates[t].usageComponents;
             forall j :: 0 <= j < |ids| && r.components[ids[j]].templateId != "" ==>
               r.components[ids[j]].templateId in views
    ensures UsersIn(r, t, views)
  {
    UsageIs(r, t);
    hide UsageKnown;
  }

  lemma UsageKnownOfExact(r: Rows)
    requires Exact(r)
    ensures UsageKnown(r)
  {
    hide ComponentListsExact, BindingListsExact, UsageExact, TabListsExact, InstancesExact, BindingIndexExact, ViewOf,
         ExtractIdsWithTemplate,
         InstancesIdentified, PluginsIdentified, ProjectsIdentified, BindingsIdentified, TabOf;
  }

  /** A set of templates that is closed under "is used in" holds every template that contains one of its members. */
  lemma {:induction false} ClosedHoldsAll(r: Rows, usage: set<string>, p: seq<string>)
    requires UsageKnown(r) && ClosedUnder(r, usage, usage) && IsPath(Containment(r.components), p)
    requires p[|p| - 1] in usage && forall i :: 0 <= i < |p| ==> p[i] in r.templates && p[i] !in r.projects
    ensures p[0] in usage
    decreases |p|
  {
    hide ViewOf, UsageExact;
    if |p| > 1 {
      var q := p[1..];
      assert IsPath(Containment(r.components), q) && q[|q| - 1] == p[|p| - 1];
      ClosedHoldsAll(r, usage, q);
      assert (p[0], p[1]) in Containment(r.components);
      var c :| c in r.components && r.components[c].definition.TemplateDef?
        && (ViewOf(c), r.components[c].definition.id) == (p[0], p[1]);
      assert UsersIn(r, p[1], usage);
      assert r.components[c].templateId == p[0];
    }
  }

  lemma PathOfTemplates(r: Rows, p: seq<string>)
    requires Exact(r) && IsPath(Containment(r.components), p) && p[0] in r.templates
    ensures forall i :: 0 <= i < |p| ==> p[i] in r.templates && p[i] !in r.projects
  {
    hide ComponentListsExact, BindingListsExact, UsageExact, TabListsExact, InstancesExact, BindingIndexExact, ViewOf,
         ExtractIdsWithTemplate,
         InstancesIdentified, PluginsIdentified, TemplatesIdentified, ProjectsIdentified, BindingsIdentified;
    forall i | 0 <= i < |p| ensures p[i] in r.templates && p[i] !in r.projects {
      if i > 0 {
        assert (p[i - 1], p[i - 1 + 1]) in Containment(r.components);
        var c :| c in r.components && r.components[c].definition.TemplateDef?
          && (ViewOf(c), r.components[c].definition.id) == (p[i - 1], p[i]);
        assert ComponentIdentified(r, c, r.components[c]);
      }
      ProjectOrTemplate(r, p[i]);
    }
  }

  /** Started on the empty set, `fillTemplateUsage` finds exactly the templates that contain `root`. */
  lemma FilledIsExactly(r: Rows, root: string, usage: set<string>)
    requires Exact(r) && root in r.templates && root in usage && usage <= r.templates.Keys
    requires AllReach(r, usage, root) && ClosedUnder(r, usage, usage)
    ensures forall t :: t in r.templates ==> (t in usage <==> Reach(Containment(r.components), t, root))
  {
    hide Exact, ClosedUnder, Containment;
    UsageKnownOfExact(r);
    var edges := Containment(r.components);
    forall t | t in r.templates && Reach(edges, t, root) ensures t in usage {
      var p :| IsPath(edges, p) && p[0] == t && p[|p| - 1] == root;
      PathOfTemplates(r, p);
      ClosedHoldsAll(r, usage, p);
    }
  }

  function Without(ids: seq<string>, out: set<string>): (kept: seq<string>)
    ensures forall x :: x in kept <==> x in ids && x !in out
  {
    if ids == [] then []
    else
      var rest := Without(ids[1..], out);
      assert ids == [ids[0]] + ids[1..];
      if ids[0] in out then rest else [ids[0]] + rest
  }

  lemma {:induction false} WithoutAscending(ids: seq<string>, out: set<string>)
    requires Ascending(ids)
    ensures Ascending(Without(ids, out))
  {
    if ids != [] {
      WithoutAscending(ids[1..], out);
      var rest := Without(ids[1..], out);
      forall j | 0 <= j < |rest| ensures Below(ids[0], rest[j]) {
        assert rest[j] in ids[1..];
      }
    }
  }

  /** A template of the tab that does not contain the active one, directly or through others. */
  ghost predicate IsUsable(r: Rows, tabId: string, t: string)
    requires tabId in r.projects
  {
    var active := r.projects[tabId].activeTemplate;
    t in InTab(r.templates.Keys, tabId) && (active == "" || !Reach(Containment(r.components), t, active))
  }

  /** The key of the view that is shown. */
  function ActiveView(r: Rows, tabId: string): string
    requires tabId in r.projects
  {
    if r.projects[tabId].activeTemplate == "" then tabId else r.projects[tabId].activeTemplate
  }

  /**
   `getUsableTemplates`: the templates of the tab that can be instantiated in the
   active view. In the main view all can; in a template, those that do not contain
   it, directly or through others.
   */
  method GetUsableTemplates(r: Rows, tabId: string) returns (ids: seq<string>)
    requires Exact(r) && tabId in r.projects
    requires r.projects[tabId].activeTemplate != "" ==> r.projects[tabId].activeTemplate in r.templates
    ensures forall t :: t in ids <==> IsUsable(r, tabId, t)
    ensures Ascending(ids)
  {
    hide Exact, AllReach, Containment, TabOf;
    var active := r.projects[tabId].activeTemplate;
    var usage: set<string> := {};
    if active != "" {
      UsageKnownOfExact(r);
      usage := FillTemplateUsage(r, active, usage);
      assert usage - {} == usage;
      FilledIsExactly(r, active, usage);
    }
    ids := Without(r.projects[tabId].templates, usage);
    TemplatesOfTab(r, tabId);
    WithoutAscending(r.projects[tabId].templates, usage);
  }

  lemma TemplatesOfTab(r: Rows, tabId: string)
    requires Exact(r) && tabId in r.projects
    ensures forall t :: t in r.projects[tabId].templates <==> t in InTab(r.templates.Keys, tabId)
    ensures Ascending(r.projects[tabId].templates)
  {
    hide ComponentListsExact, BindingListsExact, UsageExact, InstancesExact, BindingIndexExact, Identified, Ascending,
         InTab;
    assert Lists(r.projects[tabId].templates, InTab(r.templates.Keys, tabId));
  }

  lemma ContainmentSet(components: map<string, Component>, id: string, row: Component)
    requires id !in components
    ensures Containment(components[id := row]) ==
            Containment(components) + (if row.definition.TemplateDef? then {(ViewOf(id), row.definition.id)} else {})
  {
    hide ViewOf;
    var after := components[id := row];
    forall e ensures e in Containment(after) <==>
      e in Containment(components) + (if row.definition.TemplateDef? then {(ViewOf(id), row.definition.id)} else {}) {
      if e in Containment(components) {
        var c :| c in components && components[c].definition.TemplateDef?
          && (ViewOf(c), components[c].definition.id) == e;
        assert c in after && after[c] == components[c];
      }
      if row.definition.TemplateDef? && e == (ViewOf(id), row.definition.id) {
        assert id in after && after[id] == row;
      }
    }
  }

  lemma InstanceIsAcyclic(r: Rows, view: string, id: string, row: Component, t: string)
    requires Acyclic(Containment(r.components)) && id !in r.components
    requires ViewOf(id) == view && row.definition == TemplateDef(t)
    ensures Acyclic(Containment(r.components[id := row])) <==> !Reach(Containment(r.components), t, view)
  {
    hide ViewOf, Containment, Acyclic;
    ContainmentSet(r.components, id, row);
    AddEdgeAcyclic(Containment(r.components), view, t);
  }

  /** No template reaches a main view. */
  lemma MainViewIsOutside(r: Rows, tabId: string, t: string)
    requires Exact(r) && tabId in r.projects && t in r.templates
    ensures !Reach(Containment(r.components), t, tabId)
  {
    hide Exact, ViewOf;
    var edges := Containment(r.components);
    if Reach(edges, t, tabId) {
      var p :| IsPath(edges, p) && p[0] == t && p[|p| - 1] == tabId;
      PathOfTemplates(r, p);
    }
  }

  /** In the main view nothing can go wrong. */
  lemma MainViewIsSafe(r: Rows, tabId: string, id: string, row: Component, t: string)
    requires Exact(r) && Acyclic(Containment(r.components)) && id !in r.components && t in r.templates
    requires tabId in r.projects && ViewOf(id) == tabId && row.definition == TemplateDef(t)
    ensures Acyclic(Containment(r.components[id := row]))
  {
    hide Exact, Acyclic, ViewOf, Reach;
    InstanceIsAcyclic(r, tabId, id, row, t);
    MainViewIsOutside(r, tabId, t);
  }

  /**
   Instantiating a template of the tab in the active view keeps the nesting acyclic if
   and only if `getUsableTemplates` offers it: every template offered is safe, every one
   withheld would close a cycle.
   */
  lemma UsableIffAcyclic(r: Rows, tabId: string, id: string, row: Component, t: string)
    requires Exact(r) && tabId in r.projects && Acyclic(Containment(r.components)) && id !in r.components
    requires t in InTab(r.templates.Keys, tabId) && row.definition == TemplateDef(t)
    requires ViewOf(id) == ActiveView(r, tabId)
    ensures Acyclic(Containment(r.components[id := row])) <==> IsUsable(r, tabId, t)
  {
    hide Exact, Acyclic, ViewOf, Reach, Containment;
    InstanceIsAcyclic(r, ActiveView(r, tabId), id, row, t);
    MainViewIsOutside(r, tabId, t);
  }

  // ----- resolving exports -----

  /** `Missing` is an `undefined` answer; `Crash` is a thrown TypeError. */
  datatype Resolved<+T> = Found(value: T) | Missing | Crash

  /** Every export of a template names a component of that template. */
  ghost predicate ExportsLocal(templates: map<string, Template>) {
    forall t :: t in templates ==>
      && (forall m :: m in templates[t].exports.members ==> ViewOf(templates[t].exports.members[m].component) == t)
      && (forall m :: m in templates[t].exports.config ==> ViewOf(templates[t].exports.config[m].component) == t)
  }

  ghost predicate Resolvable(r: Rows) {
    Acyclic(Containment(r.components)) && ExportsLocal(r.templates)
  }

  /** What the recursion goes down: the templates nested below the view of a component. */
  ghost function Depth(r: Rows, component: string): nat {
    |Descendants(Containment(r.components), ViewOf(component))|
  }

  /** From an export to the export it stands for, one template further in. */
  lemma DepthShrinks(r: Rows, component: string, inner: string)
    requires Resolvable(r) && component in r.components && r.components[component].definition.TemplateDef?
    requires ViewOf(inner) == r.components[component].definition.id
    ensures Depth(r, inner) < Depth(r, component)
  {
    hide ViewOf, ExportsLocal;
    var t := r.components[component].definition.id;
    assert (ViewOf(component), t) in Containment(r.components);
    hide Containment;
    DescendantsShrink(Containment(r.components), ViewOf(component), t);
  }

  lemma ExportIsLocal(r: Rows, t: string, name: string)
    requires Resolvable(r) && t in r.templates
    ensures name in r.templates[t].exports.members ==> ViewOf(r.templates[t].exports.members[name].component) == t
    ensures name in r.templates[t].exports.config ==> ViewOf(r.templates[t].exports.config[name].component) == t
  {
    hide ViewOf, Acyclic;
  }

  /** `resolveTemplateMember`. */
  function ResolveMember(r: Rows, e: MemberExport): Resolved<Member>
    requires Resolvable(r)
    decreases Depth(r, e.component)
  {
    if e.component !in r.components then Crash
    else
      match r.components[e.component].definition
      case PluginDef(p) =>
        if p !in r.plugins then Crash
        else if e.member in r.plugins[p].data.members then Found(r.plugins[p].data.members[e.member]) else Missing
      case TemplateDef(t) =>
        if t !in r.templates || e.member !in r.templates[t].exports.members then Crash
        else
          var inner := r.templates[t].exports.members[e.member];
          ExportIsLocal(r, t, e.member);
          DepthShrinks(r, e.component, inner.component);
          ResolveMember(r, inner)
  }

  /** `resolveTemplateConfigItem`. */
  function ResolveConfig(r: Rows, e: ConfigExport): Resolved<ConfigItem>
    requires Resolvable(r)
    decreases Depth(r, e.component)
  {
    if e.component !in r.components then Crash
    else
      match r.components[e.component].definition
      case PluginDef(p) =>
        if p !in r.plugins then Crash
        else if e.configName in r.plugins[p].data.config then Found(r.plugins[p].data.config[e.configName]) else Missing
      case TemplateDef(t) =>
        if t !in r.templates || e.configName !in r.templates[t].exports.config then Crash
        else
          var inner := r.templates[t].exports.config[e.configName];
          ExportIsLocal(r, t, e.configName);
          DepthShrinks(r, e.component, inner.component);
          ResolveConfig(r, inner)
  }

  // ----- what an export stands for, without the recursion -----

  /** A chain of exports, each standing for the next one, one template further in. */
  ghost predicate Chain(r: Rows, chain: seq<MemberExport>) {
    |chain| >= 1 && forall i :: 0 <= i < |chain| - 1 ==> Step(r, chain[i], chain[i + 1])
  }

  ghost predicate Step(r: Rows, e: MemberExport, next: MemberExport) {
    e.component in r.components
    && match r.components[e.component].definition
       case PluginDef(_) => false
       case TemplateDef(t) =>
         t in r.templates && e.member in r.templates[t].exports.members
         && r.templates[t].exports.members[e.member] == next
  }

  /**
   Where an export ends: a plugin component that has the member, one that lacks it, or
   a component, plugin, template or inner export that does not exist.
   */
  ghost predicate Ends(r: Rows, e: MemberExport, outcome: Resolved<Member>) {
    match outcome
    case Found(m) => OfPlugin(r, e.component) && MemberOf(r, e.component, e.member) == Some(m)
    case Missing => OfPlugin(r, e.component) && MemberOf(r, e.component, e.member) == None
    case Crash => !OfPlugin(r, e.component) && !exists next :: Step(r, e, next)
  }

  predicate OfPlugin(r: Rows, component: string) {
    component in r.components && r.components[component].definition.PluginDef?
    && r.components[component].definition.id in r.plugins
  }

  function MemberOf(r: Rows, component: string, name: string): Option<Member>
    requires OfPlugin(r, component)
  {
    var members := r.plugins[r.components[component].definition.id].data.members;
    if name in members then Some(members[name]) else None
  }

  /** Resolving an export has an outcome if and only if a chain of exports leads to where it ends that way. */
  lemma ResolvesAlongChain(r: Rows, e: MemberExport, outcome: Resolved<Member>)
    requires Resolvable(r)
    ensures ResolveMember(r, e) == outcome <==>
            exists chain :: Chain(r, chain) && chain[0] == e && Ends(r, chain[|chain| - 1], outcome)
  {
    if ResolveMember(r, e) == outcome {
      var chain := ChainOf(r, e, outcome);
    }
    if chain :| Chain(r, chain) && chain[0] == e && Ends(r, chain[|chain| - 1], outcome) {
      ChainResolves(r, chain, outcome);
    }
  }

  lemma {:induction false} ChainOf(r: Rows, e: MemberExport, outcome: Resolved<Member>)
    returns (chain: seq<MemberExport>)
    requires Resolvable(r) && ResolveMember(r, e) == outcome
    ensures Chain(r, chain) && chain[0] == e && Ends(r, chain[|chain| - 1], outcome)
    decreases Depth(r, e.component)
  {
    hide Resolvable, Depth, ViewOf, Ends;
    if inner :| Step(r, e, inner) {
      ExportIsLocal(r, r.components[e.component].definition.id, e.member);
      DepthShrinks(r, e.component, inner.component);
      var rest := ChainOf(r, inner, outcome);
      chain := [e] + rest;
      Prepended(r, e, rest);
    } else {
      chain := [e];
      EndsHere(r, e);
    }
  }

  lemma Prepended(r: Rows, e: MemberExport, rest: seq<MemberExport>)
    requires Chain(r, rest) && Step(r, e, rest[0])
    ensures Chain(r, [e] + rest)
  {
    hide Step;
    var chain := [e] + rest;
    forall i | 0 <= i < |chain| - 1 ensures Step(r, chain[i], chain[i + 1]) {
      if i > 0 { assert chain[i] == rest[i - 1] && chain[i + 1] == rest[i]; }
    }
  }

  lemma EndsHere(r: Rows, e: MemberExport)
    requires Resolvable(r) && !exists next :: Step(r, e, next)
    ensures Ends(r, e, ResolveMember(r, e))
  {
    if e.component in r.components && r.components[e.component].definition.TemplateDef? {
      var t := r.components[e.component].definition.id;
      if t in r.templates && e.member in r.templates[t].exports.members {
        assert Step(r, e, r.templates[t].exports.members[e.member]);
      }
    }
  }

  lemma EndResolves(r: Rows, e: MemberExport, outcome: Resolved<Member>)
    requires Resolvable(r) && Ends(r, e, outcome)
    ensures ResolveMember(r, e) == outcome
  {
    if outcome.Crash? { EndsHere(r, e); }
  }

  lemma {:induction false} ChainResolves(r: Rows, chain: seq<MemberExport>, outcome: Resolved<Member>)
    requires Resolvable(r) && Chain(r, chain) && Ends(r, chain[|chain| - 1], outcome)
    ensures ResolveMember(r, chain[0]) == outcome
    decreases |chain|
  {
    hide Resolvable, Depth;
    if |chain| == 1 {
      EndResolves(r, chain[0], outcome);
    } else {
      var rest := chain[1..];
      assert Chain(r, rest) by {
        forall i | 0 <= i < |rest| - 1 ensures Step(r, rest[i], rest[i + 1]) {
          assert rest[i] == chain[i + 1] && rest[i + 1] == chain[i + 2];
        }
      }
      ChainResolves(r, rest, outcome);
      assert Step(r, chain[0], chain[1]);
    }
  }

  // ----- the same for configuration exports -----

  ghost predicate ConfigChain(r: Rows, chain: seq<ConfigExport>) {
    |chain| >= 1 && forall i :: 0 <= i < |chain| - 1 ==> ConfigStep(r, chain[i], chain[i + 1])
  }

  ghost predicate ConfigStep(r: Rows, e: ConfigExport, next: ConfigExport) {
    e.component in r.components
    && match r.components[e.component].definition
       case PluginDef(_) => false
       case TemplateDef(t) =>
         t in r.templates && e.configName in r.templates[t].exports.config
           && r.templates[t].exports.config[e.configName] == next
  }

  ghost predicate ConfigEnds(r: Rows, e: ConfigExport, outcome: Resolved<ConfigItem>) {
    match outcome
    case Found(item) => OfPlugin(r, e.component) && ItemOf(r, e.component, e.configName) == Some(item)
    case Missing => OfPlugin(r, e.component) && ItemOf(r, e.component, e.configName) == None
    case Crash => !OfPlugin(r, e.component) && !exists next :: ConfigStep(r, e, next)
  }

  function ItemOf(r: Rows, component: string, name: string): Option<ConfigItem>
    requires OfPlugin(r, component)
  {
    var config := r.plugins[r.components[component].definition.id].data.config;
    if name in config then Some(config[name]) else None
  }

  lemma ConfigResolvesAlongChain(r: Rows, e: ConfigExport, outcome: Resolved<ConfigItem>)
    requires Resolvable(r)
    ensures ResolveConfig(r, e) == outcome <==>
            exists chain :: ConfigChain(r, chain) && chain[0] == e && ConfigEnds(r, chain[|chain| - 1], outcome)
  {
    if ResolveConfig(r, e) == outcome {
      var chain := ConfigChainOf(r, e, outcome);
    }
    if chain :| ConfigChain(r, chain) && chain[0] == e && ConfigEnds(r, chain[|chain| - 1], outcome) {
      ConfigChainResolves(r, chain, outcome);
    }
  }

  lemma {:induction false} ConfigChainOf(r: Rows, e: ConfigExport, outcome: Resolved<ConfigItem>)
    returns (chain: seq<ConfigExport>)
    requires Resolvable(r) && ResolveConfig(r, e) == outcome
    ensures ConfigChain(r, chain) && chain[0] == e && ConfigEnds(r, chain[|chain| - 1], outcome)
    decreases Depth(r, e.component)
  {
    hide Resolvable, Depth, ViewOf, ConfigEnds;
    if inner :| ConfigStep(r, e, inner) {
      ExportIsLocal(r, r.components[e.component].definition.id, e.configName);
      DepthShrinks(r, e.component, inner.component);
      var rest := ConfigChainOf(r, inner, outcome);
      chain := [e] + rest;
      ConfigPrepended(r, e, rest);
    } else {
      chain := [e];
      ConfigEndsHere(r, e);
    }
  }

  lemma ConfigPrepended(r: Rows, e: ConfigExport, rest: seq<ConfigExport>)
    requires ConfigChain(r, rest) && ConfigStep(r, e, rest[0])
    ensures ConfigChain(r, [e] + rest)
  {
    hide ConfigStep;
    var chain := [e] + rest;
    forall i | 0 <= i < |chain| - 1 ensures ConfigStep(r, chain[i], chain[i + 1]) {
      if i > 0 { assert chain[i] == rest[i - 1] && chain[i + 1] == rest[i]; }
    }
  }

  lemma ConfigEndsHere(r: Rows, e: ConfigExport)
    requires Resolvable(r) && !exists next :: ConfigStep(r, e, next)
    ensures ConfigEnds(r, e, ResolveConfig(r, e))
  {
    if e.component in r.components && r.components[e.component].definition.TemplateDef? {
      var t := r.components[e.component].definition.id;
      if t in r.templates && e.configName in r.templates[t].exports.config {
        assert ConfigStep(r, e, r.templates[t].exports.config[e.configName]);
      }
    }
  }

  lemma ConfigEndResolves(r: Rows, e: ConfigExport, outcome: Resolved<ConfigItem>)
    requires Resolvable(r) && ConfigEnds(r, e, outcome)
    ensures ResolveConfig(r, e) == outcome
  {
    if outcome.Crash? { ConfigEndsHere(r, e); }
  }

  lemma {:induction false} ConfigChainResolves(r: Rows, chain: seq<ConfigExport>, outcome: Resolved<ConfigItem>)
    requires Resolvable(r) && ConfigChain(r, chain) && ConfigEnds(r, chain[|chain| - 1], outcome)
    ensures ResolveConfig(r, chain[0]) == outcome
    decreases |chain|
  {
    hide Resolvable, Depth;
    if |chain| == 1 {
      ConfigEndResolves(r, chain[0], outcome);
    } else {
      var rest := chain[1..];
      assert ConfigChain(r, rest) by {
        forall i | 0 <= i < |rest| - 1 ensures ConfigStep(r, rest[i], rest[i + 1]) {
          assert rest[i] == chain[i + 1] && rest[i + 1] == chain[i + 2];
        }
      }
      ConfigChainResolves(r, rest, outcome);
      assert ConfigStep(r, chain[0], chain[1]);
    }
  }

  // ----- complete exports -----

  /** Every export names something its component's definition has: a condition on each template alone. */
  ghost predicate ExportsComplete(r: Rows) {
    forall t :: t in r.templates ==>
      && (forall m :: m in r.templates[t].exports.members ==> NamesMember(r, r.templates[t].exports.members[m]))
      && (forall m :: m in r.templates[t].exports.config ==> NamesConfig(r, r.templates[t].exports.config[m]))
  }

  ghost predicate NamesMember(r: Rows, e: MemberExport) {
    e.component in r.components
    && match r.components[e.component].definition
       case PluginDef(p) => p in r.plugins && e.member in r.plugins[p].data.members
       case TemplateDef(t) => t in r.templates && e.member in r.templates[t].exports.members
  }

  ghost predicate NamesConfig(r: Rows, e: ConfigExport) {
    e.component in r.components
    && match r.components[e.component].definition
       case PluginDef(p) => p in r.plugins && e.configName in r.plugins[p].data.config
       case TemplateDef(t) => t in r.templates && e.configName in r.templates[t].exports.config
  }

  /** With complete exports, resolving never crashes and never comes back empty-handed. */
  lemma {:induction false} CompleteMembersResolve(r: Rows, e: MemberExport)
    requires Resolvable(r) && ExportsComplete(r) && NamesMember(r, e)
    ensures ResolveMember(r, e).Found?
    decreases Depth(r, e.component)
  {
    match r.components[e.component].definition
    case PluginDef(p) =>
    case TemplateDef(t) =>
      var inner := r.templates[t].exports.members[e.member];
      ExportIsLocal(r, t, e.member);
      DepthShrinks(r, e.component, inner.component);
      CompleteMembersResolve(r, inner);
  }

  lemma {:induction false} CompleteConfigsResolve(r: Rows, e: ConfigExport)
    requires Resolvable(r) && ExportsComplete(r) && NamesConfig(r, e)
    ensures ResolveConfig(r, e).Found?
    decreases Depth(r, e.component)
  {
    match r.components[e.component].definition
    case PluginDef(p) =>
    case TemplateDef(t) =>
      var inner := r.templates[t].exports.config[e.configName];
      ExportIsLocal(r, t, e.configName);
      DepthShrinks(r, e.component, inner.component);
      CompleteConfigsResolve(r, inner);
  }
}
