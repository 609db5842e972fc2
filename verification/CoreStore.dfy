/**
 The rows of the core designer store (store/core-designer/types.ts) and what it
 means for its hand-maintained indexes to be exact: every id array and every
 reverse index is the answer of a query over the rows that carry the content.
 */
module CoreStore {
  import opened Options
  import opened Strings
  import opened ReducerTools
  import opened DesignerIds

  // ----- rows -----

  datatype MemberType = ActionMember | StateMember
  datatype Member = Member(description: string, memberType: MemberType, valueType: string)
  datatype ConfigItem = ConfigItem(description: string, valueType: string)

  datatype Definition = PluginDef(id: string) | TemplateDef(id: string)

  datatype ConfigExport = ConfigExport(component: string, configName: string)
  datatype MemberExport = MemberExport(component: string, member: string)
  datatype Exports = Exports(config: map<string, ConfigExport>, members: map<string, MemberExport>)

  datatype PluginData = PluginData(members: map<string, Member>, config: map<string, ConfigItem>)

  datatype Instance = Instance(id: string, instanceName: string, plugins: seq<string>)

  datatype Plugin = Plugin(id: string, instance: string, usageComponents: seq<string>, data: PluginData)

  datatype Template = Template(
    id: string, templateId: string, components: seq<string>, bindings: seq<string>,
    exports: Exports, usageComponents: seq<string>)

  /** `templateId` is the row id of the template, or "" in the main view. */
  datatype Component = Component(
    id: string, templateId: string, componentId: string,
    definition: Definition, config: map<string, string>, bindings: map<string, seq<string>>)

  datatype Binding = Binding(
    id: string, sourceComponent: string, sourceState: string, targetComponent: string, targetAction: string)

  /** `activeTemplate` is "" when the main view is active. */
  datatype Project = Project(
    id: string, instances: seq<string>, plugins: seq<string>, templates: seq<string>,
    components: seq<string>, bindings: seq<string>, activeTemplate: string)

  datatype Rows = Rows(
    projects: map<string, Project>, instances: map<string, Instance>, plugins: map<string, Plugin>,
    templates: map<string, Template>, components: map<string, Component>, bindings: map<string, Binding>)

  // ----- the queries behind the indexes -----

  function InTab(ids: set<string>, tab: string): set<string> {
    set x | x in ids && TabOf(x) == tab
  }

  function InView(ids: set<string>, view: string): set<string> {
    set x | x in ids && ViewOf(x) == view
  }

  function Users(components: map<string, Component>, definition: Definition): set<string> {
    set c | c in components && components[c].definition == definition
  }

  function PluginsOf(plugins: map<string, Plugin>, instance: string): set<string> {
    set p | p in plugins && plugins[p].instance == instance
  }

  /** The binding ends at a component, as (binding id, member) pairs. */
  function Halves(bindings: map<string, Binding>, component: string): set<(string, string)> {
    (set b | b in bindings && bindings[b].sourceComponent == component :: (b, bindings[b].sourceState))
    + (set b | b in bindings && bindings[b].targetComponent == component :: (b, bindings[b].targetAction))
  }

  function At(halves: set<(string, string)>, member: string): set<string> {
    set h | h in halves && h.1 == member :: h.0
  }

  // ----- exactness -----

  /** `component.bindings`: for each member with at least one binding, the bindings ending there. */
  ghost predicate IndexIs(index: map<string, seq<string>>, halves: set<(string, string)>) {
    forall m :: (m in index <==> At(halves, m) != {}) && (m in index ==> Lists(index[m], At(halves, m)))
  }

  ghost predicate TabListsExact(
      projects: map<string, Project>, instances: set<string>, plugins: set<string>, templates: set<string>) {
    forall p :: p in projects ==>
      && Lists(projects[p].instances, InTab(instances, p))
      && Lists(projects[p].plugins, InTab(plugins, p))
      && Lists(projects[p].templates, InTab(templates, p))
  }

  ghost predicate ComponentListsExact(
      projects: map<string, Project>, templates: map<string, Template>, components: set<string>) {
    && (forall p :: p in projects ==> Lists(projects[p].components, InView(components, p)))
    && (forall t :: t in templates ==> Lists(templates[t].components, InView(components, t)))
  }

  ghost predicate BindingListsExact(
      projects: map<string, Project>, templates: map<string, Template>, bindings: set<string>) {
    && (forall p :: p in projects ==> Lists(projects[p].bindings, InView(bindings, p)))
    && (forall t :: t in templates ==> Lists(templates[t].bindings, InView(bindings, t)))
  }

  ghost predicate UsageExact(
      plugins: map<string, Plugin>, templates: map<string, Template>, components: map<string, Component>) {
    && (forall p :: p in plugins ==> Lists(plugins[p].usageComponents, Users(components, PluginDef(p))))
    && (forall t :: t in templates ==> Lists(templates[t].usageComponents, Users(components, TemplateDef(t))))
  }

  ghost predicate BindingIndexExact(components: map<string, Component>, bindings: map<string, Binding>) {
    forall c :: c in components ==> IndexIs(components[c].bindings, Halves(bindings, c))
  }

  /** An instance lists its plugins, and exists only while it has some. */
  ghost predicate InstancesExact(instances: map<string, Instance>, plugins: map<string, Plugin>) {
    forall i :: i in instances ==>
      Lists(instances[i].plugins, PluginsOf(plugins, i)) && PluginsOf(plugins, i) != {}
  }

  // ----- references -----

  predicate IsView(r: Rows, view: string) {
    view in r.projects || view in r.templates
  }

  predicate DefinitionExists(r: Rows, d: Definition) {
    match d
    case PluginDef(id) => id in r.plugins
    case TemplateDef(id) => id in r.templates
  }

  ghost predicate ProjectsIdentified(projects: map<string, Project>) {
    forall p :: p in projects ==> projects[p].id == p && Free(p, ':')
  }

  ghost predicate InstancesIdentified(r: Rows) {
    forall i :: i in r.instances ==>
      r.instances[i].id == i && TabOf(i) in r.projects && i == TabScoped(TabOf(i), r.instances[i].instanceName)
  }

  ghost predicate PluginsIdentified(r: Rows) {
    forall p :: p in r.plugins ==>
      && r.plugins[p].id == p && TabOf(p) in r.projects
      && r.plugins[p].instance in r.instances && TabOf(r.plugins[p].instance) == TabOf(p)
  }

  ghost predicate TemplatesIdentified(r: Rows) {
    forall t :: t in r.templates ==>
      && r.templates[t].id == t && TabOf(t) in r.projects
      && r.templates[t].templateId != "" && Free(r.templates[t].templateId, ':')
      && t == TabScoped(TabOf(t), r.templates[t].templateId)
  }

  ghost predicate ComponentIdentified(r: Rows, c: string, row: Component) {
    && row.id == c && IsView(r, ViewOf(c))
    && row.templateId == (if ViewOf(c) in r.projects then "" else ViewOf(c))
    && ExtractIdsWithTemplate(c).Some? && row.componentId == ExtractIdsWithTemplate(c).value.id
    && DefinitionExists(r, row.definition)
  }

  ghost predicate ComponentsIdentified(r: Rows) {
    forall c :: c in r.components ==> ComponentIdentified(r, c, r.components[c])
  }

  /** A binding and the components at its ends are in one view. */
  ghost predicate BindingPlaced(r: Rows, b: string, row: Binding) {
    && row.id == b && IsView(r, ViewOf(b))
    && row.sourceComponent in r.components && ViewOf(row.sourceComponent) == ViewOf(b)
    && row.targetComponent in r.components && ViewOf(row.targetComponent) == ViewOf(b)
  }

  /** The ends of a binding differ. Clearing it removes it from the index once for each end. */
  predicate JoinsTwo(row: Binding) {
    (row.sourceComponent, row.sourceState) != (row.targetComponent, row.targetAction)
  }

  ghost predicate BindingIdentified(r: Rows, b: string, row: Binding) {
    BindingPlaced(r, b, row) && JoinsTwo(row)
  }

  ghost predicate BindingsIdentified(r: Rows) {
    forall b :: b in r.bindings ==> BindingIdentified(r, b, r.bindings[b])
  }

  ghost predicate Identified(r: Rows) {
    && ProjectsIdentified(r.projects) && InstancesIdentified(r) && PluginsIdentified(r)
    && TemplatesIdentified(r) && ComponentsIdentified(r) && BindingsIdentified(r)
  }

  /** References hold, and every index is the answer of its query. */
  ghost predicate Exact(r: Rows) {
    && Identified(r)
    && TabListsExact(r.projects, r.instances.Keys, r.plugins.Keys, r.templates.Keys)
    && ComponentListsExact(r.projects, r.templates, r.components.Keys)
    && BindingListsExact(r.projects, r.templates, r.bindings.Keys)
    && UsageExact(r.plugins, r.templates, r.components)
    && BindingIndexExact(r.components, r.bindings)
    && InstancesExact(r.instances, r.plugins)
  }

  /** A project and a template are never keyed alike. */
  lemma ProjectOrTemplate(r: Rows, view: string)
    requires ProjectsIdentified(r.projects) && TemplatesIdentified(r)
    ensures !(view in r.projects && view in r.templates)
  {
    if view in r.templates {
      assert view[|TabOf(view)|] == ':';
    }
  }

  // ----- the content, without the indexes -----

  datatype PluginContent = PluginContent(instance: string, data: PluginData)
  datatype ComponentContent = ComponentContent(definition: Definition, config: map<string, string>)
  datatype BindingContent = BindingContent(
    sourceComponent: string, sourceState: string, targetComponent: string, targetAction: string)

  datatype Content = Content(
    tabs: map<string, string>,
    plugins: map<string, PluginContent>,
    templates: map<string, Exports>,
    components: map<string, ComponentContent>,
    bindings: map<string, BindingContent>)

  ghost predicate TabsAre(projects: map<string, Project>, tabs: map<string, string>) {
    tabs.Keys == projects.Keys && forall p :: p in projects ==> tabs[p] == projects[p].activeTemplate
  }

  ghost predicate PluginsAre(plugins: map<string, Plugin>, content: map<string, PluginContent>) {
    content.Keys == plugins.Keys && forall p :: p in plugins ==>
      content[p] == PluginContent(plugins[p].instance, plugins[p].data)
  }

  ghost predicate TemplatesAre(templates: map<string, Template>, content: map<string, Exports>) {
    content.Keys == templates.Keys && forall t :: t in templates ==> content[t] == templates[t].exports
  }

  ghost predicate ComponentsAre(components: map<string, Component>, content: map<string, ComponentContent>) {
    && content.Keys == components.Keys
    && forall c :: c in components ==> content[c] == ComponentContent(components[c].definition, components[c].config)
  }

  function EndsContent(row: Binding): BindingContent {
    BindingContent(row.sourceComponent, row.sourceState, row.targetComponent, row.targetAction)
  }

  ghost predicate BindingsAre(bindings: map<string, Binding>, content: map<string, BindingContent>) {
    content.Keys == bindings.Keys && forall b :: b in bindings ==> content[b] == EndsContent(bindings[b])
  }

  /** `k` is what the rows say once the indexes are left out. */
  ghost predicate Represents(r: Rows, k: Content) {
    && TabsAre(r.projects, k.tabs) && PluginsAre(r.plugins, k.plugins) && TemplatesAre(r.templates, k.templates)
    && ComponentsAre(r.components, k.components) && BindingsAre(r.bindings, k.bindings)
  }

  lemma {:induction false} IndexUnique(
      a: map<string, seq<string>>, b: map<string, seq<string>>, halves: set<(string, string)>)
    requires IndexIs(a, halves) && IndexIs(b, halves)
    ensures a == b
  {
    forall m | m in a ensures m in b && a[m] == b[m] {
      ListsUnique(a[m], b[m], At(halves, m));
    }
    assert a.Keys == b.Keys;
  }

  /** A component's binding index depends on the bindings alone. */
  lemma SameBindingsSameIndex(r: Rows, s: Rows, id: string)
    requires Exact(r) && Exact(s) && s.bindings == r.bindings && id in r.components && id in s.components
    ensures s.components[id].bindings == r.components[id].bindings
  {
    hide IndexIs, Halves, Identified, TabListsExact, ComponentListsExact, BindingListsExact, UsageExact, InstancesExact;
    IndexUnique(r.components[id].bindings, s.components[id].bindings, Halves(r.bindings, id));
  }

  lemma SameSuffix(a: string, x: string, y: string)
    requires TabScoped(a, x) == TabScoped(a, y)
    ensures x == y
  {
    assert TabScoped(a, x)[|a| + 1..] == x;
    assert TabScoped(a, y)[|a| + 1..] == y;
  }

  lemma SameInstance(r: Rows, s: Rows, i: string)
    requires InstancesExact(r.instances, r.plugins) && InstancesIdentified(r)
    requires InstancesExact(s.instances, s.plugins) && InstancesIdentified(s) && PluginsIdentified(s)
    requires r.plugins.Keys == s.plugins.Keys && forall p :: p in r.plugins ==>
      r.plugins[p].instance == s.plugins[p].instance
    requires i in r.instances
    ensures i in s.instances && r.instances[i] == s.instances[i]
  {
    hide Lists, TabOf;
    assert PluginsOf(r.plugins, i) == PluginsOf(s.plugins, i);
    var p :| p in PluginsOf(r.plugins, i);
    assert s.plugins[p].instance == i;
    ListsUnique(r.instances[i].plugins, s.instances[i].plugins, PluginsOf(r.plugins, i));
    SameSuffix(TabOf(i), r.instances[i].instanceName, s.instances[i].instanceName);
  }

  lemma SameProject(
      a: Project, b: Project, instances: set<string>, plugins: set<string>, templates: set<string>,
      components: set<string>, bindings: set<string>)
    requires a.id == b.id && a.activeTemplate == b.activeTemplate
    requires Lists(a.instances, instances) && Lists(a.plugins, plugins) && Lists(a.templates, templates)
    requires Lists(b.instances, instances) && Lists(b.plugins, plugins) && Lists(b.templates, templates)
    requires Lists(a.components, components) && Lists(b.components, components)
    requires Lists(a.bindings, bindings) && Lists(b.bindings, bindings)
    ensures a == b
  {
    hide Lists;
    ListsUnique(a.instances, b.instances, instances);
    ListsUnique(a.plugins, b.plugins, plugins);
    ListsUnique(a.templates, b.templates, templates);
    ListsUnique(a.components, b.components, components);
    ListsUnique(a.bindings, b.bindings, bindings);
  }

  lemma SameProjects(r: Rows, s: Rows)
    requires r.projects.Keys == s.projects.Keys && ProjectsIdentified(r.projects) && ProjectsIdentified(s.projects)
    requires forall p :: p in r.projects ==> r.projects[p].activeTemplate == s.projects[p].activeTemplate
    requires r.instances.Keys == s.instances.Keys && r.plugins.Keys == s.plugins.Keys
    requires r.templates.Keys == s.templates.Keys
    requires r.components.Keys == s.components.Keys && r.bindings.Keys == s.bindings.Keys
    requires TabListsExact(r.projects, r.instances.Keys, r.plugins.Keys, r.templates.Keys)
    requires TabListsExact(s.projects, s.instances.Keys, s.plugins.Keys, s.templates.Keys)
    requires ComponentListsExact(r.projects, r.templates, r.components.Keys)
    requires ComponentListsExact(s.projects, s.templates, s.components.Keys)
    requires BindingListsExact(r.projects, r.templates, r.bindings.Keys)
    requires BindingListsExact(s.projects, s.templates, s.bindings.Keys)
    ensures r.projects == s.projects
  {
    hide Lists, InTab, InView, Free;
    forall p | p in r.projects ensures r.projects[p] == s.projects[p] {
      SameProject(r.projects[p], s.projects[p], InTab(r.instances.Keys, p), InTab(r.plugins.Keys, p),
                  InTab(r.templates.Keys, p), InView(r.components.Keys, p), InView(r.bindings.Keys, p));
    }
  }

  lemma SameDefinitions(r: Rows, s: Rows)
    requires r.templates.Keys == s.templates.Keys && TemplatesIdentified(r) && TemplatesIdentified(s)
    requires r.components == s.components && r.bindings.Keys == s.bindings.Keys
    requires forall t :: t in r.templates ==> r.templates[t].exports == s.templates[t].exports
    requires r.plugins.Keys == s.plugins.Keys && PluginsIdentified(r) && PluginsIdentified(s)
    requires forall p :: p in r.plugins ==>
      r.plugins[p].instance == s.plugins[p].instance && r.plugins[p].data == s.plugins[p].data
    requires ComponentListsExact(r.projects, r.templates, r.components.Keys)
    requires ComponentListsExact(s.projects, s.templates, s.components.Keys)
    requires BindingListsExact(r.projects, r.templates, r.bindings.Keys)
    requires BindingListsExact(s.projects, s.templates, s.bindings.Keys)
    requires UsageExact(r.plugins, r.templates, r.components) && UsageExact(s.plugins, s.templates, s.components)
    ensures r.templates == s.templates && r.plugins == s.plugins
  {
    hide Lists, InTab, InView, Users, Free, TabOf;
    forall t | t in r.templates ensures r.templates[t] == s.templates[t] {
      var a, b := r.templates[t], s.templates[t];
      ListsUnique(a.components, b.components, InView(r.components.Keys, t));
      ListsUnique(a.bindings, b.bindings, InView(r.bindings.Keys, t));
      ListsUnique(a.usageComponents, b.usageComponents, Users(r.components, TemplateDef(t)));
      SameSuffix(TabOf(t), a.templateId, b.templateId);
    }
    forall p | p in r.plugins ensures r.plugins[p] == s.plugins[p] {
      ListsUnique(r.plugins[p].usageComponents, s.plugins[p].usageComponents, Users(r.components, PluginDef(p)));
    }
  }

  lemma SameComponents(r: Rows, s: Rows)
    requires r.components.Keys == s.components.Keys && r.bindings == s.bindings
    requires r.projects.Keys == s.projects.Keys
    requires ComponentsIdentified(r) && ComponentsIdentified(s)
    requires forall c :: c in r.components ==>
               r.components[c].definition == s.components[c].definition
                 && r.components[c].config == s.components[c].config
    requires BindingIndexExact(r.components, r.bindings) && BindingIndexExact(s.components, s.bindings)
    ensures r.components == s.components
  {
    hide IndexIs, Halves, ViewOf, ExtractIdsWithTemplate, IsView, DefinitionExists;
    forall c | c in r.components ensures r.components[c] == s.components[c] {
      IndexUnique(r.components[c].bindings, s.components[c].bindings, Halves(r.bindings, c));
    }
  }

  lemma SameBindings(r: Rows, s: Rows, k: Content)
    requires BindingsAre(r.bindings, k.bindings) && BindingsAre(s.bindings, k.bindings) && BindingsIdentified(r)
    requires BindingsIdentified(s)
    ensures r.bindings == s.bindings
  {
    hide IsView, ViewOf;
    forall b | b in r.bindings ensures r.bindings[b] == s.bindings[b] {
      assert k.bindings[b] == EndsContent(r.bindings[b]) == EndsContent(s.bindings[b]);
    }
  }

  lemma SameContent(r: Rows, s: Rows, k: Content)
    requires Represents(r, k) && Represents(s, k)
    ensures r.projects.Keys == s.projects.Keys && r.plugins.Keys == s.plugins.Keys
    ensures r.templates.Keys == s.templates.Keys
    ensures r.components.Keys == s.components.Keys && r.bindings.Keys == s.bindings.Keys
    ensures forall p :: p in r.projects ==> r.projects[p].activeTemplate == s.projects[p].activeTemplate
    ensures forall p :: p in r.plugins ==>
      r.plugins[p].instance == s.plugins[p].instance && r.plugins[p].data == s.plugins[p].data
    ensures forall t :: t in r.templates ==> r.templates[t].exports == s.templates[t].exports
    ensures forall c :: c in r.components ==>
              r.components[c].definition == s.components[c].definition
                && r.components[c].config == s.components[c].config
  {
    assert forall p :: p in r.plugins ==> k.plugins[p] == PluginContent(r.plugins[p].instance, r.plugins[p].data);
    assert forall c :: c in r.components ==>
      k.components[c] == ComponentContent(r.components[c].definition, r.components[c].config);
  }

  /**
   The indexes carry no information of their own: two exact stores with the same
   content are the same store, whatever updates led to them. In particular an
   update that leaves the content alone leaves every index alone.
   */
  lemma ContentDeterminesRows(r: Rows, s: Rows, k: Content)
    requires Exact(r) && Exact(s) && Represents(r, k) && Represents(s, k)
    ensures r == s
  {
    hide TabListsExact, ComponentListsExact, BindingListsExact, UsageExact, BindingIndexExact, InstancesExact,
         InstancesIdentified, PluginsIdentified, TemplatesIdentified, ComponentsIdentified, ProjectsIdentified,
         BindingsIdentified, TabsAre, PluginsAre, TemplatesAre, ComponentsAre, BindingsAre;
    SameContent(r, s, k);
    SameBindings(r, s, k);
    forall i | i in r.instances ensures i in s.instances && r.instances[i] == s.instances[i] {
      SameInstance(r, s, i);
    }
    forall i | i in s.instances ensures i in r.instances {
      SameInstance(s, r, i);
    }
    assert r.instances.Keys == s.instances.Keys;
    SameComponents(r, s);
    SameProjects(r, s);
    SameDefinitions(r, s);
  }

  // ----- exports as they arrive: lists of named entries with local component ids -----

  function ScopeConfig(
      tabId: string, templateId: string, entries: seq<(string, ConfigExport)>): map<string, ConfigExport> {
    if entries == [] then map[]
    else
      var (name, e) := entries[|entries| - 1];
      ScopeConfig(tabId, templateId,
        entries[..|entries| - 1])[name := ConfigExport(ViewScoped(tabId, templateId, e.component), e.configName)]
  }

  function ScopeMembers(
      tabId: string, templateId: string, entries: seq<(string, MemberExport)>): map<string, MemberExport> {
    if entries == [] then map[]
    else
      var (name, e) := entries[|entries| - 1];
      ScopeMembers(tabId, templateId,
        entries[..|entries| - 1])[name := MemberExport(ViewScoped(tabId, templateId, e.component), e.member)]
  }

  /** Entry `k` is the last one called `name`: the one that counts. */
  predicate IsLastNamed<T>(entries: seq<(string, T)>, name: string, k: int) {
    && 0 <= k < |entries| && entries[k].0 == name
    && forall j :: k < j < |entries| ==> entries[j].0 != name
  }

  predicate IsNamed<T>(entries: seq<(string, T)>, name: string) {
    exists k :: 0 <= k < |entries| && entries[k].0 == name
  }

  /** The row id stands for this local id in this view. */
  predicate StandsFor(id: string, tabId: string, templateId: string, localId: string) {
    ExtractIdsWithTemplate(id) == Some(ViewIds(tabId, templateId, localId))
  }

  /** `name` exports the configuration item of the component that its last entry names, as a row of the template. */
  ghost predicate ConfigScoped(tabId: string, templateId: string, entries: seq<(string, ConfigExport)>,
                               exports: map<string, ConfigExport>, name: string) {
    && (name in exports <==> IsNamed(entries, name))
    && forall k :: IsLastNamed(entries, name, k) ==>
         && name in exports && exports[name].configName == entries[k].1.configName
         && StandsFor(exports[name].component, tabId, templateId, entries[k].1.component)
  }

  /** The same for members. */
  ghost predicate MemberScoped(tabId: string, templateId: string, entries: seq<(string, MemberExport)>,
                               exports: map<string, MemberExport>, name: string) {
    && (name in exports <==> IsNamed(entries, name))
    && forall k :: IsLastNamed(entries, name, k) ==>
         && name in exports && exports[name].member == entries[k].1.member
         && StandsFor(exports[name].component, tabId, templateId, entries[k].1.component)
  }

  /** What the last entry adds to the names. */
  lemma NamedByLast<T>(entries: seq<(string, T)>, name: string)
    requires entries != []
    ensures var init, last := entries[..|entries| - 1], |entries| - 1;
            && (IsNamed(entries, name) <==> IsNamed(init, name) || name == entries[last].0)
            && forall k :: IsLastNamed(entries, name, k) <==>
                 if name == entries[last].0 then k == last else IsLastNamed(init, name, k)
  {
    var init, last := entries[..|entries| - 1], |entries| - 1;
    if IsNamed(init, name) {
      var k :| 0 <= k < |init| && init[k].0 == name;
      assert entries[k].0 == name;
    }
    if IsNamed(entries, name) && name != entries[last].0 {
      var k :| 0 <= k < |entries| && entries[k].0 == name;
      assert init[k].0 == name;
    }
    forall k ensures IsLastNamed(entries, name, k) <==>
      if name == entries[last].0 then k == last else IsLastNamed(init, name, k) {
      if IsLastNamed(init, name, k) && name != entries[last].0 {
        assert forall j :: k < j < last ==> init[j] == entries[j];
      }
      if IsLastNamed(entries, name, k) && k < last {
        assert init[k] == entries[k] && forall j :: k < j < last ==> init[j] == entries[j];
      }
    }
  }

  lemma {:induction false} ScopedConfigMeans(
      tabId: string, templateId: string, entries: seq<(string, ConfigExport)>, name: string)
    requires Free(tabId, ':') && Free(templateId, ':')
    ensures ConfigScoped(tabId, templateId, entries, ScopeConfig(tabId, templateId, entries), name)
  {
    hide ExtractIdsWithTemplate, ViewScoped;
    if entries != [] {
      var last := entries[|entries| - 1];
      ScopedConfigMeans(tabId, templateId, entries[..|entries| - 1], name);
      ExtractInvertsCompose(tabId, templateId, last.1.component);
      NamedByLast(entries, name);
    }
  }

  lemma {:induction false} ScopedMemberMeans(
      tabId: string, templateId: string, entries: seq<(string, MemberExport)>, name: string)
    requires Free(tabId, ':') && Free(templateId, ':')
    ensures MemberScoped(tabId, templateId, entries, ScopeMembers(tabId, templateId, entries), name)
  {
    hide ExtractIdsWithTemplate, ViewScoped;
    if entries != [] {
      var last := entries[|entries| - 1];
      ScopedMemberMeans(tabId, templateId, entries[..|entries| - 1], name);
      ExtractInvertsCompose(tabId, templateId, last.1.component);
      NamedByLast(entries, name);
    }
  }

  /** Every export of a template points to a component id of that template's view. */
  lemma {:induction false} ScopedConfigIsLocal(
      tabId: string, templateId: string, entries: seq<(string, ConfigExport)>, name: string)
    requires Free(tabId, ':') && Free(templateId, ':') && name in ScopeConfig(tabId, templateId, entries)
    ensures ViewOf(ScopeConfig(tabId, templateId, entries)[name].component) == ViewKey(tabId, templateId)
  {
    hide ViewOf;
    var (last, e) := entries[|entries| - 1];
    if name == last {
      OwnersOfComposed(tabId, templateId, e.component);
    } else {
      ScopedConfigIsLocal(tabId, templateId, entries[..|entries| - 1], name);
    }
  }

  lemma {:induction false} ScopedMembersAreLocal(
      tabId: string, templateId: string, entries: seq<(string, MemberExport)>, name: string)
    requires Free(tabId, ':') && Free(templateId, ':') && name in ScopeMembers(tabId, templateId, entries)
    ensures ViewOf(ScopeMembers(tabId, templateId, entries)[name].component) == ViewKey(tabId, templateId)
  {
    hide ViewOf;
    var (last, e) := entries[|entries| - 1];
    if name == last {
      OwnersOfComposed(tabId, templateId, e.component);
    } else {
      ScopedMembersAreLocal(tabId, templateId, entries[..|entries| - 1], name);
    }
  }
}
