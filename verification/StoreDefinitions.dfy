/**
 The project updates that create, change and remove templates, plugins and tabs,
 and why they keep the store exact.
 */
module StoreDefinitions {
  import opened Strings
  import opened ReducerTools
  import opened DesignerIds
  import opened CoreStore
  import opened StoreSteps
  import opened StoreUpdates

  lemma InTabAdd(ids: set<string>, id: string, tab: string)
    ensures InTab(ids + {id}, tab) == if TabOf(id) == tab then InTab(ids, tab) + {id} else InTab(ids, tab)
  {
    hide TabOf;
  }

  lemma InTabRemove(ids: set<string>, id: string, tab: string)
    ensures InTab(ids - {id}, tab) == if TabOf(id) == tab then InTab(ids, tab) - {id} else InTab(ids, tab)
  {
    hide TabOf;
  }

  lemma TabListsAfter(
      projects: map<string, Project>, tab: string, row: Project,
      instances: set<string>, plugins: set<string>, templates: set<string>,
      instances': set<string>, plugins': set<string>, templates': set<string>)
    requires TabListsExact(projects, instances, plugins, templates)
    requires Lists(row.instances, InTab(instances', tab)) && Lists(row.plugins, InTab(plugins', tab))
    requires Lists(row.templates, InTab(templates', tab))
    requires forall q :: q != tab ==>
      InTab(instances', q) == InTab(instances, q) && InTab(plugins', q) == InTab(plugins, q)
                                      && InTab(templates', q) == InTab(templates, q)
    ensures TabListsExact(projects[tab := row], instances', plugins', templates')
  {
    hide Lists, InTab;
  }

  // ----- set-core-template -----

  ghost predicate TemplateAdded(r: Rows, s: Rows, tab: string, id: string, row: Template)
    requires tab in r.projects
  {
    && s.templates == r.templates[id := row]
    && s.projects == r.projects[tab := r.projects[tab].(templates := ArrayAdd(r.projects[tab].templates, id, true))]
    && s.instances == r.instances && s.plugins == r.plugins && s.components == r.components && s.bindings == r.bindings
  }

  /** A view that is not there has no rows, a definition that is not there no users. */
  lemma NothingInMissingView(r: Rows, view: string)
    requires ComponentsIdentified(r) && BindingsIdentified(r) && !IsView(r, view)
    ensures InView(r.components.Keys, view) == {} && InView(r.bindings.Keys, view) == {}
    ensures Users(r.components, TemplateDef(view)) == {}
  {
    hide ViewOf, ExtractIdsWithTemplate;
  }

  lemma NotInTab(ids: set<string>, id: string, tab: string)
    requires id !in ids
    ensures id !in InTab(ids, tab)
  {}

  lemma TemplateAddedTabs(r: Rows, s: Rows, tab: string, id: string, row: Template)
    requires tab in r.projects && id !in r.templates && TabOf(id) == tab && TemplateAdded(r, s, tab, id, row)
    requires TabListsExact(r.projects, r.instances.Keys, r.plugins.Keys, r.templates.Keys)
    ensures TabListsExact(s.projects, s.instances.Keys, s.plugins.Keys, s.templates.Keys)
  {
    hide Lists, InTab, TabOf, ArrayAdd;
    NotInTab(r.templates.Keys, id, tab);
    assert s.templates.Keys == r.templates.Keys + {id};
    ArrayAddLists(r.projects[tab].templates, InTab(r.templates.Keys, tab), id);
    forall p ensures InTab(s.templates.Keys, p) ==
      if tab == p then InTab(r.templates.Keys, p) + {id} else InTab(r.templates.Keys, p) {
      InTabAdd(r.templates.Keys, id, p);
    }
  }

  lemma TemplateAddedViews(r: Rows, s: Rows, tab: string, id: string, row: Template)
    requires tab in r.projects && TemplateAdded(r, s, tab, id, row) && row.components == [] && row.bindings == []
    requires InView(r.components.Keys, id) == {} && InView(r.bindings.Keys, id) == {}
    requires ComponentListsExact(r.projects, r.templates, r.components.Keys)
    requires BindingListsExact(r.projects, r.templates, r.bindings.Keys)
    ensures ComponentListsExact(s.projects, s.templates, s.components.Keys)
    ensures BindingListsExact(s.projects, s.templates, s.bindings.Keys)
  {
    assert Lists([], {});
    hide Lists, InView, ArrayAdd;
  }

  lemma TemplateAddedUsage(r: Rows, s: Rows, tab: string, id: string, row: Template)
    requires tab in r.projects && TemplateAdded(r, s, tab, id, row) && row.usageComponents == []
    requires Users(r.components, TemplateDef(id)) == {} && UsageExact(r.plugins, r.templates, r.components)
    ensures UsageExact(s.plugins, s.templates, s.components)
  {
    assert Lists([], {});
    hide Lists, Users, ArrayAdd;
  }

  lemma TemplateAddedLists(r: Rows, s: Rows, tab: string, id: string, row: Template)
    requires tab in r.projects && TemplateAdded(r, s, tab, id, row)
    requires row.components == [] && row.bindings == [] && row.usageComponents == []
    requires InView(r.components.Keys, id) == {} && InView(r.bindings.Keys, id) == {}
    requires Users(r.components, TemplateDef(id)) == {}
    requires ComponentListsExact(r.projects, r.templates, r.components.Keys)
    requires BindingListsExact(r.projects, r.templates, r.bindings.Keys)
    requires UsageExact(r.plugins, r.templates, r.components)
    ensures ComponentListsExact(s.projects, s.templates, s.components.Keys)
    ensures BindingListsExact(s.projects, s.templates, s.bindings.Keys)
    ensures UsageExact(s.plugins, s.templates, s.components)
  {
    hide ComponentListsExact, BindingListsExact, UsageExact, TemplateAdded, InView, Users;
    TemplateAddedViews(r, s, tab, id, row);
    TemplateAddedUsage(r, s, tab, id, row);
  }

  /** More views and definitions leave components and bindings identified. */
  lemma IdentifiedGrows(r: Rows, s: Rows)
    requires ComponentsIdentified(r) && BindingsIdentified(r) && s.components == r.components
    requires s.bindings == r.bindings
    requires s.projects.Keys == r.projects.Keys && r.templates.Keys <= s.templates.Keys
    requires r.plugins.Keys <= s.plugins.Keys
    ensures ComponentsIdentified(s) && BindingsIdentified(s)
  {
    hide ViewOf, ExtractIdsWithTemplate;
  }

  lemma TemplateAddedIdentified(r: Rows, s: Rows, tab: string, id: string, row: Template)
    requires Identified(r) && tab in r.projects && TemplateAdded(r, s, tab, id, row) && id !in r.templates
    requires row.id == id && TabOf(id) == tab && row.templateId != "" && Free(row.templateId, ':')
    requires id == TabScoped(tab, row.templateId)
    ensures Identified(s)
  {
    hide TabOf, Free, ArrayAdd, ComponentsIdentified, BindingsIdentified;
    IdentifiedGrows(r, s);
  }

  lemma AddTemplateExact(r: Rows, s: Rows, tab: string, id: string, row: Template)
    requires Exact(r) && tab in r.projects && id !in r.templates && id !in r.projects
    requires TemplateAdded(r, s, tab, id, row)
    requires row.id == id && TabOf(id) == tab && row.templateId != "" && Free(row.templateId, ':')
    requires id == TabScoped(tab, row.templateId)
    requires row.components == [] && row.bindings == [] && row.usageComponents == []
    ensures Exact(s)
  {
    hide ComponentListsExact, BindingListsExact, UsageExact, BindingIndexExact, TabListsExact, InstancesExact,
         Identified,
         Lists, InView, Users, TabOf, ViewOf, Free, ArrayAdd;
    assert ComponentsIdentified(r) && BindingsIdentified(r) by { IdentifiedParts(r); }
    NothingInMissingView(r, id);
    TemplateAddedTabs(r, s, tab, id, row);
    TemplateAddedLists(r, s, tab, id, row);
    TemplateAddedIdentified(r, s, tab, id, row);
  }

  lemma IdentifiedParts(r: Rows)
    requires Identified(r)
    ensures ComponentsIdentified(r) && BindingsIdentified(r) && ProjectsIdentified(r.projects) && TemplatesIdentified(r)
    ensures PluginsIdentified(r) && InstancesIdentified(r)
  {}

  /** New exports on an existing template touch no index. */
  lemma SetExportsExact(r: Rows, s: Rows, id: string, exports: Exports)
    requires Exact(r) && id in r.templates
    requires s == r.(templates := r.templates[id := r.templates[id].(exports := exports)])
    ensures Exact(s)
  {
    hide ComponentListsExact, BindingListsExact, UsageExact, Lists, IndexIs, Halves, ViewOf, ExtractIdsWithTemplate,
         TabListsExact, InstancesExact, TemplatesIdentified, InstancesIdentified, PluginsIdentified, ProjectsIdentified,
         BindingsIdentified, ComponentsIdentified;
    FrameOfExact(r);
    SameFrameExact(r, s);
    BindingListsSame(r, s, r.bindings.Keys);
    ComponentListsSame(r, s, r.components.Keys);
    UsageSame(r, s, r.components);
    ComponentsStillIdentified(r, s);
    BindingsStillIdentified(r, s);
  }

  // ----- clear-core-template -----

  ghost predicate TemplateCleared(r: Rows, s: Rows, tab: string, id: string)
    requires tab in r.projects && id in r.templates
  {
    var p := r.projects[tab];
    && s.projects == r.projects[tab := p.(templates := ArrayRemove(p.templates, id),
                                          activeTemplate := if p.activeTemplate == id then "" else p.activeTemplate)]
    && s.instances == r.instances
    && s.plugins.Keys == r.plugins.Keys
    && (forall p :: p in s.plugins ==> s.plugins[p].(usageComponents := []) == r.plugins[p].(usageComponents := []))
    && s.templates.Keys == r.templates.Keys - {id}
    && (forall t :: t in s.templates ==>
      s.templates[t].(usageComponents := []) == r.templates[t].(usageComponents := []))
    && s.components == r.components - InView(r.components.Keys, id)
    && s.bindings == r.bindings - InView(r.bindings.Keys, id)
    && UsageExact(s.plugins, s.templates, s.components)
  }

  lemma TemplateClearedTabs(r: Rows, s: Rows, tab: string, id: string)
    requires tab in r.projects && id in r.templates && TabOf(id) == tab && TemplateCleared(r, s, tab, id)
    requires TabListsExact(r.projects, r.instances.Keys, r.plugins.Keys, r.templates.Keys)
    ensures TabListsExact(s.projects, s.instances.Keys, s.plugins.Keys, s.templates.Keys)
  {
    assert id in InTab(r.templates.Keys, tab);
    hide Lists, InTab, InView, TabOf, ArrayRemove, UsageExact;
    ArrayRemoveExactly(r.projects[tab].templates, InTab(r.templates.Keys, tab), id);
    forall p ensures InTab(s.templates.Keys, p) ==
      if tab == p then InTab(r.templates.Keys, p) - {id} else InTab(r.templates.Keys, p) {
      InTabRemove(r.templates.Keys, id, p);
    }
  }

  /** The rows that stay keep their identity. */
  ghost predicate SameIdentity(r: Rows, s: Rows) {
    && s.projects.Keys == r.projects.Keys && (forall p :: p in s.projects ==> s.projects[p].id == r.projects[p].id)
    && s.instances == r.instances && s.plugins.Keys == r.plugins.Keys && s.templates.Keys <= r.templates.Keys
    && (forall p :: p in s.plugins ==>
      s.plugins[p].id == r.plugins[p].id && s.plugins[p].instance == r.plugins[p].instance)
    && (forall t :: t in s.templates ==>
          s.templates[t].id == r.templates[t].id && s.templates[t].templateId == r.templates[t].templateId)
  }

  lemma TemplateClearedIdentity(r: Rows, s: Rows, tab: string, id: string)
    requires tab in r.projects && id in r.templates && TemplateCleared(r, s, tab, id)
    ensures SameIdentity(r, s)
  {
    hide InView, ArrayRemove, UsageExact;
    forall p | p in s.plugins ensures s.plugins[p].id == r.plugins[p].id
      && s.plugins[p].instance == r.plugins[p].instance {
      assert s.plugins[p].(usageComponents := []) == r.plugins[p].(usageComponents := []);
    }
    forall t | t in s.templates ensures s.templates[t].id == r.templates[t].id
      && s.templates[t].templateId == r.templates[t].templateId {
      assert s.templates[t].(usageComponents := []) == r.templates[t].(usageComponents := []);
    }
  }

  lemma SameIdentityIdentified(r: Rows, s: Rows)
    requires SameIdentity(r, s)
    requires ProjectsIdentified(r.projects) && InstancesIdentified(r) && PluginsIdentified(r) && TemplatesIdentified(r)
    ensures ProjectsIdentified(s.projects) && InstancesIdentified(s) && PluginsIdentified(s) && TemplatesIdentified(s)
  {
    hide TabOf, Free;
  }

  lemma SameIdentityInstances(r: Rows, s: Rows)
    requires SameIdentity(r, s) && InstancesExact(r.instances, r.plugins)
    ensures InstancesExact(s.instances, s.plugins)
  {
    hide Lists, PluginsOf;
    forall i ensures PluginsOf(s.plugins, i) == PluginsOf(r.plugins, i) {
      SamePluginsOf(s.plugins, r.plugins, i);
    }
  }

  lemma TemplateClearedFrame(r: Rows, s: Rows, tab: string, id: string)
    requires tab in r.projects && id in r.templates && TabOf(id) == tab && TemplateCleared(r, s, tab, id)
    requires FrameExact(r)
    ensures FrameExact(s)
  {
    hide TabOf, TemplateCleared, TabListsExact, InstancesExact, SameIdentity,
         ProjectsIdentified, InstancesIdentified, PluginsIdentified, TemplatesIdentified;
    TemplateClearedTabs(r, s, tab, id);
    TemplateClearedIdentity(r, s, tab, id);
    SameIdentityIdentified(r, s);
    SameIdentityInstances(r, s);
  }

  lemma OtherViews(ids: set<string>, id: string, view: string)
    requires view != id
    ensures InView(ids - InView(ids, id), view) == InView(ids, view)
  {
    hide ViewOf;
  }

  lemma TemplateClearedLists(r: Rows, s: Rows, tab: string, id: string)
    requires tab in r.projects && id in r.templates && id !in r.projects && TemplateCleared(r, s, tab, id)
    requires ComponentListsExact(r.projects, r.templates, r.components.Keys)
    requires BindingListsExact(r.projects, r.templates, r.bindings.Keys)
    ensures ComponentListsExact(s.projects, s.templates, s.components.Keys)
    ensures BindingListsExact(s.projects, s.templates, s.bindings.Keys)
  {
    hide Lists, InView, ArrayRemove, UsageExact;
    assert s.components.Keys == r.components.Keys - InView(r.components.Keys, id);
    assert s.bindings.Keys == r.bindings.Keys - InView(r.bindings.Keys, id);
    forall v | v != id
      ensures InView(s.components.Keys, v) == InView(r.components.Keys, v)
      ensures InView(s.bindings.Keys, v) == InView(r.bindings.Keys, v)
    {
      OtherViews(r.components.Keys, id, v);
      OtherViews(r.bindings.Keys, id, v);
    }
    forall t | t in s.templates ensures s.templates[t].components == r.templates[t].components
      && s.templates[t].bindings == r.templates[t].bindings {
      assert s.templates[t].(usageComponents := []) == r.templates[t].(usageComponents := []);
    }
  }

  lemma TemplateClearedComponents(r: Rows, s: Rows, id: string)
    requires ComponentsIdentified(r) && id !in r.projects && id in r.templates
    requires s.projects.Keys == r.projects.Keys && s.plugins.Keys == r.plugins.Keys
    requires s.templates.Keys == r.templates.Keys - {id}
    requires s.components == r.components - InView(r.components.Keys, id)
    ensures ComponentsIdentified(s) <==> Users(r.components, TemplateDef(id)) <= InView(r.components.Keys, id)
  {
    hide ViewOf, ExtractIdsWithTemplate;
    if Users(r.components, TemplateDef(id)) <= InView(r.components.Keys, id) {
      forall c | c in s.components ensures ComponentIdentified(s, c, s.components[c]) {
        assert c !in InView(r.components.Keys, id) && c !in Users(r.components, TemplateDef(id));
        assert ComponentIdentified(r, c, r.components[c]);
      }
    } else {
      var c :| c in Users(r.components, TemplateDef(id)) && c !in InView(r.components.Keys, id);
      assert !ComponentIdentified(s, c, s.components[c]);
    }
  }

  lemma TemplateClearedBindings(r: Rows, s: Rows, id: string)
    requires BindingsIdentified(r) && id !in r.projects && id in r.templates
    requires s.projects.Keys == r.projects.Keys && s.templates.Keys == r.templates.Keys - {id}
    requires s.components == r.components - InView(r.components.Keys, id)
    requires s.bindings == r.bindings - InView(r.bindings.Keys, id)
    ensures BindingsIdentified(s)
  {
    hide ViewOf;
  }

  lemma TemplateClearedIndex(r: Rows, s: Rows, id: string)
    requires BindingsIdentified(r) && BindingIndexExact(r.components, r.bindings)
    requires s.components == r.components - InView(r.components.Keys, id)
    requires s.bindings == r.bindings - InView(r.bindings.Keys, id)
    ensures BindingIndexExact(s.components, s.bindings)
  {
    hide ViewOf, IndexIs;
    forall c | c in s.components ensures IndexIs(s.components[c].bindings, Halves(s.bindings, c)) {
      assert Halves(s.bindings, c) == Halves(r.bindings, c) by {
        forall h ensures h in Halves(s.bindings, c) <==> h in Halves(r.bindings, c) {
          InHalves(r.bindings, c, h);
          InHalves(s.bindings, c, h);
        }
      }
    }
  }

  function ClearedTabs(tabs: map<string, string>, tab: string, id: string): map<string, string>
    requires tab in tabs
  {
    tabs[tab := if tabs[tab] == id then "" else tabs[tab]]
  }

  lemma PluginsStillAre(a: map<string, Plugin>, b: map<string, Plugin>, k: map<string, PluginContent>)
    requires PluginsAre(b, k) && a.Keys == b.Keys && forall p :: p in a ==>
      a[p].(usageComponents := []) == b[p].(usageComponents := [])
    ensures PluginsAre(a, k)
  {
    forall p | p in a ensures k[p] == PluginContent(a[p].instance, a[p].data) {
      assert a[p].(usageComponents := []) == b[p].(usageComponents := []);
    }
  }

  lemma TemplatesWithout(a: map<string, Template>, b: map<string, Template>, id: string, k: map<string, Exports>)
    requires TemplatesAre(b, k) && a.Keys == b.Keys - {id}
    requires forall t :: t in a ==> a[t].(usageComponents := []) == b[t].(usageComponents := [])
    ensures TemplatesAre(a, k - {id})
  {
    forall t | t in a ensures k[t] == a[t].exports {
      assert a[t].(usageComponents := []) == b[t].(usageComponents := []);
    }
  }

  lemma TemplateClearedContent(r: Rows, s: Rows, k: Content, tab: string, id: string)
    requires tab in r.projects && id in r.templates && TemplateCleared(r, s, tab, id) && Represents(r, k)
    ensures Represents(s, Content(
              ClearedTabs(k.tabs, tab, id), k.plugins, k.templates - {id},
              k.components - InView(k.components.Keys, id), k.bindings - InView(k.bindings.Keys, id)))
  {
    hide InView, UsageExact, ArrayRemove, PluginsAre, TemplatesAre, EndsContent;
    PluginsStillAre(s.plugins, r.plugins, k.plugins);
    TemplatesWithout(s.templates, r.templates, id, k.templates);
  }

  /**
   `clear-core-template` drops the template with its components and bindings. The
   store stays exact if and only if no component outside the template uses it.
   */
  lemma ClearTemplateExact(r: Rows, s: Rows, tab: string, id: string)
    requires Exact(r) && tab in r.projects && id in r.templates && TabOf(id) == tab && TemplateCleared(r, s, tab, id)
    ensures Exact(s) <==> Users(r.components, TemplateDef(id)) <= InView(r.components.Keys, id)
  {
    hide ComponentListsExact, BindingListsExact, UsageExact, Lists, ViewOf, TabOf, InView, Users, ArrayRemove,
         BindingIndexExact,
         TabListsExact, InstancesExact, TemplatesIdentified, InstancesIdentified, PluginsIdentified, ProjectsIdentified,
         BindingsIdentified, ComponentsIdentified;
    FrameOfExact(r);
    ProjectOrTemplate(r, id);
    TemplateClearedFrame(r, s, tab, id);
    TemplateClearedLists(r, s, tab, id);
    TemplateClearedComponents(r, s, id);
    TemplateClearedBindings(r, s, id);
    TemplateClearedIndex(r, s, id);
  }

  // ----- set-core-plugin -----

  /** The plugin has its data, and its instance lists it. */
  lemma PluginSetRows(
      r: Rows, s: Rows, tab: string, id: string, instanceId: string, instanceName: string, data: PluginData)
    requires tab in r.projects && PluginSet(r, s, tab, id, instanceId, instanceName, data)
    ensures id in s.plugins && s.plugins[id].instance == instanceId && s.plugins[id].data == data
    ensures instanceId in s.instances && id in s.instances[instanceId].plugins
  {
    hide ArraySet;
    SetHas(InstanceBefore(r, instanceId, instanceName).plugins, id);
  }

  function PluginAfterSet(r: Rows, id: string, instanceId: string, data: PluginData): Plugin {
    if id in r.plugins then r.plugins[id].(instance := instanceId, data := data) else Plugin(id, instanceId, [], data)
  }

  function InstanceBefore(r: Rows, instanceId: string, instanceName: string): Instance {
    if instanceId in r.instances then r.instances[instanceId] else Instance(instanceId, instanceName, [])
  }

  ghost predicate PluginSet(
      r: Rows, s: Rows, tab: string, id: string, instanceId: string, instanceName: string, data: PluginData)
    requires tab in r.projects
  {
    var p := r.projects[tab];
    var inst := InstanceBefore(r, instanceId, instanceName);
    && s.projects
      == r.projects[tab := p.(instances := ArraySet(p.instances, instanceId), plugins := ArraySet(p.plugins, id))]
    && s.instances == r.instances[instanceId := inst.(plugins := ArraySet(inst.plugins, id))]
    && s.plugins == r.plugins[id := PluginAfterSet(r, id, instanceId, data)]
    && s.templates == r.templates && s.components == r.components && s.bindings == r.bindings
  }

  lemma PluginSetTabs(
      r: Rows, s: Rows, tab: string, id: string, instanceId: string, instanceName: string, data: PluginData)
    requires tab in r.projects && TabOf(id) == tab && TabOf(instanceId) == tab
    requires PluginSet(r, s, tab, id, instanceId, instanceName, data)
    requires TabListsExact(r.projects, r.instances.Keys, r.plugins.Keys, r.templates.Keys)
    ensures TabListsExact(s.projects, s.instances.Keys, s.plugins.Keys, s.templates.Keys)
  {
    hide Lists, InTab, TabOf, ArraySet;
    assert s.plugins.Keys == r.plugins.Keys + {id} && s.instances.Keys == r.instances.Keys + {instanceId};
    var p := r.projects[tab];
    ArraySetLists(p.instances, InTab(r.instances.Keys, tab), instanceId);
    ArraySetLists(p.plugins, InTab(r.plugins.Keys, tab), id);
    forall q ensures InTab(s.plugins.Keys, q) ==
      if tab == q then InTab(r.plugins.Keys, q) + {id} else InTab(r.plugins.Keys, q) {
      InTabAdd(r.plugins.Keys, id, q);
    }
    forall q ensures InTab(s.instances.Keys, q) ==
      if tab == q then InTab(r.instances.Keys, q) + {instanceId} else InTab(r.instances.Keys, q) {
      InTabAdd(r.instances.Keys, instanceId, q);
    }
  }

  lemma PluginsOfSet(plugins: map<string, Plugin>, id: string, row: Plugin, i: string)
    ensures PluginsOf(plugins[id := row], i) ==
      if row.instance == i then PluginsOf(plugins, i) + {id} else PluginsOf(plugins, i) - {id}
  {}

  lemma NoPluginsOfMissing(r: Rows, i: string)
    requires PluginsIdentified(r) && i !in r.instances
    ensures PluginsOf(r.plugins, i) == {}
  {
    hide TabOf;
  }

  /** The instance side of `set-core-plugin`, on the two tables it concerns. */
  lemma PluginMovesIn(
      instances: map<string, Instance>, plugins: map<string, Plugin>, inst: Instance, id: string, row: Plugin)
    requires InstancesExact(instances, plugins) && Lists(inst.plugins, PluginsOf(plugins, row.instance))
    requires id in plugins ==> plugins[id].instance == row.instance
    ensures InstancesExact(instances[row.instance := inst.(plugins := ArraySet(inst.plugins, id))], plugins[id := row])
  {
    ArraySetLists(inst.plugins, PluginsOf(plugins, row.instance), id);
    assert forall i :: id in PluginsOf(plugins, i) ==> i == row.instance;
    hide Lists, ArraySet, PluginsOf;
    forall i ensures PluginsOf(plugins[id := row], i) ==
      if row.instance == i then PluginsOf(plugins, i) + {id} else PluginsOf(plugins, i) - {id} {
      PluginsOfSet(plugins, id, row, i);
    }
    assert forall i :: i != row.instance ==> PluginsOf(plugins[id := row], i) == PluginsOf(plugins, i);
  }

  /** A plugin that moves stays listed on the instance it left. */
  lemma PluginMovesAway(
      instances: map<string, Instance>, plugins: map<string, Plugin>, inst: Instance, id: string, row: Plugin)
    requires InstancesExact(instances, plugins)
    requires id in plugins && plugins[id].instance in instances && plugins[id].instance != row.instance
    ensures !InstancesExact(instances[row.instance := inst], plugins[id := row])
  {
    var from := plugins[id].instance;
    assert id in PluginsOf(plugins, from) && id !in PluginsOf(plugins[id := row], from);
    hide Lists, PluginsOf;
    StaleArray(instances[from].plugins, PluginsOf(plugins, from), PluginsOf(plugins[id := row], from), id);
    assert instances[row.instance := inst][from] == instances[from];
  }

  lemma PluginSetInstances(
      r: Rows, s: Rows, tab: string, id: string, instanceId: string, instanceName: string, data: PluginData)
    requires tab in r.projects && PluginSet(r, s, tab, id, instanceId, instanceName, data)
    requires PluginsIdentified(r) && InstancesExact(r.instances, r.plugins)
    ensures InstancesExact(s.instances, s.plugins) <==> (id in r.plugins ==> r.plugins[id].instance == instanceId)
  {
    var inst, row := InstanceBefore(r, instanceId, instanceName), PluginAfterSet(r, id, instanceId, data);
    if id in r.plugins && r.plugins[id].instance != instanceId {
      InstanceOfPlugin(r, id);
      hide InstancesExact, PluginsIdentified, ArraySet;
      PluginMovesAway(r.instances, r.plugins, inst.(plugins := ArraySet(inst.plugins, id)), id, row);
    } else {
      assert Lists(inst.plugins, PluginsOf(r.plugins, instanceId)) by {
        if instanceId !in r.instances {
          NoPluginsOfMissing(r, instanceId);
          assert Lists([], {});
        }
      }
      hide InstancesExact, PluginsIdentified, ArraySet, Lists;
      PluginMovesIn(r.instances, r.plugins, inst, id, row);
    }
  }

  lemma InstanceOfPlugin(r: Rows, id: string)
    requires PluginsIdentified(r) && id in r.plugins
    ensures r.plugins[id].instance in r.instances
  {
    hide TabOf;
  }

  /** An array that is exact for one set is not exact for a set that differs at `id`. */
  lemma StaleArray(a: seq<string>, before: set<string>, after: set<string>, id: string)
    requires Lists(a, before) && id in before && id !in after
    ensures !Lists(a, after)
  {
    assert id in a;
  }

  lemma PluginSetInstancesIdentified(
      r: Rows, s: Rows, tab: string, id: string, instanceId: string, instanceName: string, data: PluginData)
    requires InstancesIdentified(r) && tab in r.projects && PluginSet(r, s, tab, id, instanceId, instanceName, data)
    requires TabOf(instanceId) == tab && instanceId == TabScoped(tab, instanceName)
    ensures InstancesIdentified(s)
  {
    hide TabOf, ArraySet;
  }

  lemma PluginSetPluginsIdentified(
      r: Rows, s: Rows, tab: string, id: string, instanceId: string, instanceName: string, data: PluginData)
    requires PluginsIdentified(r) && tab in r.projects && PluginSet(r, s, tab, id, instanceId, instanceName, data)
    requires TabOf(id) == tab && TabOf(instanceId) == tab
    ensures PluginsIdentified(s)
  {
    hide TabOf, ArraySet;
  }

  lemma PluginSetIdentified(
      r: Rows, s: Rows, tab: string, id: string, instanceId: string, instanceName: string, data: PluginData)
    requires Identified(r) && tab in r.projects && PluginSet(r, s, tab, id, instanceId, instanceName, data)
    requires TabOf(id) == tab && TabOf(instanceId) == tab && instanceId == TabScoped(tab, instanceName)
    ensures Identified(s)
  {
    hide TabOf, Free, ArraySet, ComponentsIdentified, BindingsIdentified, InstancesIdentified, PluginsIdentified;
    IdentifiedGrows(r, s);
    PluginSetInstancesIdentified(r, s, tab, id, instanceId, instanceName, data);
    PluginSetPluginsIdentified(r, s, tab, id, instanceId, instanceName, data);
  }

  lemma PluginSetViews(
      r: Rows, s: Rows, tab: string, id: string, instanceId: string, instanceName: string, data: PluginData)
    requires tab in r.projects && PluginSet(r, s, tab, id, instanceId, instanceName, data)
    requires ComponentListsExact(r.projects, r.templates, r.components.Keys)
    requires BindingListsExact(r.projects, r.templates, r.bindings.Keys)
    ensures ComponentListsExact(s.projects, s.templates, s.components.Keys)
    ensures BindingListsExact(s.projects, s.templates, s.bindings.Keys)
  {
    hide Lists, InView, ArraySet, InstanceBefore, PluginAfterSet;
  }

  lemma PluginSetUsage(r: Rows, s: Rows, id: string, instanceId: string, data: PluginData)
    requires s.plugins == r.plugins[id := PluginAfterSet(r, id, instanceId, data)] && s.templates == r.templates
    requires s.components == r.components
    requires UsageExact(r.plugins, r.templates, r.components)
    requires (id !in r.plugins ==> Users(r.components, PluginDef(id)) == {})
    ensures UsageExact(s.plugins, s.templates, s.components)
  {
    assert Lists([], {});
    hide Lists, Users;
  }

  lemma PluginSetLists(
      r: Rows, s: Rows, tab: string, id: string, instanceId: string, instanceName: string, data: PluginData)
    requires tab in r.projects && PluginSet(r, s, tab, id, instanceId, instanceName, data) && ComponentsIdentified(r)
    requires ComponentListsExact(r.projects, r.templates, r.components.Keys)
    requires BindingListsExact(r.projects, r.templates, r.bindings.Keys)
    requires UsageExact(r.plugins, r.templates, r.components)
    ensures ComponentListsExact(s.projects, s.templates, s.components.Keys)
    ensures BindingListsExact(s.projects, s.templates, s.bindings.Keys)
    ensures UsageExact(s.plugins, s.templates, s.components)
  {
    hide ComponentListsExact, BindingListsExact, UsageExact, ComponentsIdentified, Users, ArraySet;
    PluginSetViews(r, s, tab, id, instanceId, instanceName, data);
    if id !in r.plugins {
      NoUsersOfMissing(r, id);
    }
    PluginSetUsage(r, s, id, instanceId, data);
  }

  lemma NoUsersOfMissing(r: Rows, id: string)
    requires ComponentsIdentified(r) && id !in r.plugins
    ensures Users(r.components, PluginDef(id)) == {}
  {
    hide ViewOf, ExtractIdsWithTemplate;
  }

  lemma PluginSetSame(
      r: Rows, s: Rows, tab: string, id: string, instanceId: string, instanceName: string, data: PluginData)
    requires tab in r.projects && PluginSet(r, s, tab, id, instanceId, instanceName, data)
    ensures s.templates == r.templates && s.components == r.components && s.bindings == r.bindings
  {}

  lemma PluginSetContent(
      r: Rows, s: Rows, k: Content, tab: string, id: string, instanceId: string, instanceName: string, data: PluginData)
    requires tab in r.projects && PluginSet(r, s, tab, id, instanceId, instanceName, data) && Represents(r, k)
    ensures Represents(s, k.(plugins := k.plugins[id := PluginContent(instanceId, data)]))
  {
    hide ArraySet, TemplatesAre, ComponentsAre, BindingsAre;
  }

  /**
   `set-core-plugin` keeps the store exact if and only if the plugin is new or
   stays on its instance.
   */
  lemma SetPluginExact(
      r: Rows, s: Rows, tab: string, id: string, instanceId: string, instanceName: string, data: PluginData)
    requires Exact(r) && tab in r.projects && PluginSet(r, s, tab, id, instanceId, instanceName, data)
    requires TabOf(id) == tab && TabOf(instanceId) == tab && instanceId == TabScoped(tab, instanceName)
    ensures Exact(s) <==> (id in r.plugins ==> r.plugins[id].instance == instanceId)
  {
    hide ComponentListsExact, BindingListsExact, UsageExact, Lists, TabOf, ArraySet, BindingIndexExact, Identified,
         TabListsExact, InstancesExact, PluginSet, InstancesIdentified, PluginsIdentified, TemplatesIdentified,
         ComponentsIdentified, BindingsIdentified, ProjectsIdentified;
    assert s.components == r.components
      && s.bindings == r.bindings by { PluginSetSame(r, s, tab, id, instanceId, instanceName, data); }
    IdentifiedParts(r);
    PluginSetTabs(r, s, tab, id, instanceId, instanceName, data);
    PluginSetInstances(r, s, tab, id, instanceId, instanceName, data);
    PluginSetIdentified(r, s, tab, id, instanceId, instanceName, data);
    PluginSetLists(r, s, tab, id, instanceId, instanceName, data);
  }

  // ----- clear-core-plugin -----

  function InstancesAfterClear(instances: map<string, Instance>, instance: string, id: string): map<string, Instance>
    requires instance in instances
  {
    var list := ArrayRemove(instances[instance].plugins, id);
    if list == [] then instances - {instance} else instances[instance := instances[instance].(plugins := list)]
  }

  ghost predicate PluginCleared(r: Rows, s: Rows, tab: string, id: string)
    requires tab in r.projects && id in r.plugins && r.plugins[id].instance in r.instances
  {
    var p, i := r.projects[tab], r.plugins[id].instance;
    && s.instances == InstancesAfterClear(r.instances, i, id)
    && (var insts := if i in s.instances then p.instances else ArrayRemove(p.instances, i);
        s.projects == r.projects[tab := p.(plugins := ArrayRemove(p.plugins, id), instances := insts)])
    && s.plugins == r.plugins - {id}
    && s.templates == r.templates && s.components == r.components && s.bindings == r.bindings
  }

  lemma PluginMovesOut(instances: map<string, Instance>, plugins: map<string, Plugin>, id: string)
    requires InstancesExact(instances, plugins) && id in plugins && plugins[id].instance in instances
    ensures InstancesExact(InstancesAfterClear(instances, plugins[id].instance, id), plugins - {id})
    ensures forall q :: q in plugins - {id} && plugins[q].instance in instances
              ==> plugins[q].instance in InstancesAfterClear(instances, plugins[id].instance, id)
  {
    var i := plugins[id].instance;
    var after := plugins - {id};
    assert id in PluginsOf(plugins, i);
    forall j ensures PluginsOf(after, j) == if j == i then PluginsOf(plugins, j) - {id} else PluginsOf(plugins, j) {}
    forall q | q in after ensures q in PluginsOf(after, plugins[q].instance) {}
    hide Lists, PluginsOf, ArrayRemove;
    ArrayRemoveExactly(instances[i].plugins, PluginsOf(plugins, i), id);
    ListsEmpty(ArrayRemove(instances[i].plugins, id), PluginsOf(after, i));
  }

  lemma PluginClearedTabs(r: Rows, s: Rows, tab: string, id: string)
    requires tab in r.projects && id in r.plugins && r.plugins[id].instance in r.instances
    requires PluginCleared(r, s, tab, id)
    requires TabOf(id) == tab && TabOf(r.plugins[id].instance) == tab
    requires TabListsExact(r.projects, r.instances.Keys, r.plugins.Keys, r.templates.Keys)
    ensures TabListsExact(s.projects, s.instances.Keys, s.plugins.Keys, s.templates.Keys)
  {
    var p, i := r.projects[tab], r.plugins[id].instance;
    var ids, insts := r.plugins.Keys, r.instances.Keys;
    assert id in InTab(ids, tab) && i in InTab(insts, tab);
    assert Lists(p.plugins, InTab(ids, tab)) && Lists(p.instances, InTab(insts, tab));
    hide Lists, InTab, TabOf, ArrayRemove, TabListsExact;
    ArrayRemoveExactly(p.plugins, InTab(ids, tab), id);
    ArrayRemoveExactly(p.instances, InTab(insts, tab), i);
    forall q ensures InTab(ids - {id}, q) == if tab == q then InTab(ids, q) - {id} else InTab(ids, q) {
      InTabRemove(ids, id, q);
    }
    forall q ensures InTab(insts - {i}, q) == if tab == q then InTab(insts, q) - {i} else InTab(insts, q) {
      InTabRemove(insts, i, q);
    }
    assert s.plugins.Keys == ids - {id};
    assert s.instances.Keys == if i in s.instances then insts else insts - {i};
    assert Lists(p.templates, InTab(r.templates.Keys, tab)) by { TabListsOf(r, tab); }
    TabListsAfter(r.projects, tab, s.projects[tab], insts, ids, r.templates.Keys, s.instances.Keys, s.plugins.Keys,
      s.templates.Keys);
  }

  lemma TabListsOf(r: Rows, tab: string)
    requires TabListsExact(r.projects, r.instances.Keys, r.plugins.Keys, r.templates.Keys) && tab in r.projects
    ensures Lists(r.projects[tab].instances, InTab(r.instances.Keys, tab))
    ensures Lists(r.projects[tab].plugins, InTab(r.plugins.Keys, tab))
    ensures Lists(r.projects[tab].templates, InTab(r.templates.Keys, tab))
  {}

  lemma PluginClearedRows(r: Rows, s: Rows, tab: string, id: string)
    requires tab in r.projects && id in r.plugins && r.plugins[id].instance in r.instances
    requires PluginCleared(r, s, tab, id)
    requires ProjectsIdentified(r.projects) && TemplatesIdentified(r)
    ensures ProjectsIdentified(s.projects) && TemplatesIdentified(s) && s.projects.Keys == r.projects.Keys
  {
    hide TabOf, Free, ArrayRemove, InstancesAfterClear;
  }

  lemma PluginClearedInstances(r: Rows, s: Rows, i: string, id: string)
    requires i in r.instances && s.instances == InstancesAfterClear(r.instances, i, id)
    requires s.projects.Keys == r.projects.Keys
    requires InstancesIdentified(r)
    ensures InstancesIdentified(s)
  {
    hide TabOf, ArrayRemove;
  }

  lemma PluginClearedPlugins(r: Rows, s: Rows, id: string)
    requires s.plugins == r.plugins - {id} && s.projects.Keys == r.projects.Keys && PluginsIdentified(r)
    requires forall q :: q in r.plugins - {id} && r.plugins[q].instance in r.instances ==>
      r.plugins[q].instance in s.instances
    ensures PluginsIdentified(s)
  {
    hide TabOf;
  }

  lemma PluginClearedIdentified(r: Rows, s: Rows, tab: string, id: string)
    requires tab in r.projects && id in r.plugins && r.plugins[id].instance in r.instances
    requires PluginCleared(r, s, tab, id)
    requires ProjectsIdentified(r.projects) && InstancesIdentified(r) && PluginsIdentified(r) && TemplatesIdentified(r)
    requires InstancesExact(r.instances, r.plugins)
    ensures ProjectsIdentified(s.projects) && InstancesIdentified(s) && PluginsIdentified(s) && TemplatesIdentified(s)
  {
    hide TabOf, Free, ArrayRemove, InstancesExact, InstancesAfterClear,
         ProjectsIdentified, InstancesIdentified, PluginsIdentified, TemplatesIdentified;
    PluginClearedRows(r, s, tab, id);
    PluginClearedInstances(r, s, r.plugins[id].instance, id);
    PluginMovesOut(r.instances, r.plugins, id);
    PluginClearedPlugins(r, s, id);
  }

  lemma PluginClearedComponents(r: Rows, s: Rows, id: string)
    requires ComponentsIdentified(r) && BindingsIdentified(r) && s.components == r.components
    requires s.bindings == r.bindings
    requires s.projects.Keys == r.projects.Keys && s.templates == r.templates && s.plugins == r.plugins - {id}
    requires Users(r.components, PluginDef(id)) == {}
    ensures ComponentsIdentified(s) && BindingsIdentified(s)
  {
    hide ViewOf, ExtractIdsWithTemplate;
    assert forall c :: c in r.components ==> c !in Users(r.components, PluginDef(id));
  }

  lemma PluginClearedLists(r: Rows, s: Rows, tab: string, id: string)
    requires tab in r.projects && id in r.plugins && r.plugins[id].instance in r.instances
    requires PluginCleared(r, s, tab, id)
    requires ComponentListsExact(r.projects, r.templates, r.components.Keys)
    requires BindingListsExact(r.projects, r.templates, r.bindings.Keys)
    requires UsageExact(r.plugins, r.templates, r.components)
    ensures ComponentListsExact(s.projects, s.templates, s.components.Keys)
    ensures BindingListsExact(s.projects, s.templates, s.bindings.Keys)
    ensures UsageExact(s.plugins, s.templates, s.components)
  {
    hide Lists, InView, Users, ArrayRemove;
  }

  lemma PluginClearedContent(r: Rows, s: Rows, k: Content, tab: string, id: string)
    requires tab in r.projects && id in r.plugins && r.plugins[id].instance in r.instances
    requires PluginCleared(r, s, tab, id)
    requires Represents(r, k)
    ensures Represents(s, k.(plugins := k.plugins - {id}))
  {
    hide ArrayRemove, InstancesAfterClear, TemplatesAre, ComponentsAre, BindingsAre;
  }

  lemma PluginClearedSame(r: Rows, s: Rows, tab: string, id: string)
    requires tab in r.projects && id in r.plugins && r.plugins[id].instance in r.instances
    requires PluginCleared(r, s, tab, id)
    ensures s.components == r.components && s.bindings == r.bindings && s.plugins == r.plugins - {id}
    ensures s.templates == r.templates
    ensures s.projects.Keys == r.projects.Keys
    ensures s.instances == InstancesAfterClear(r.instances, r.plugins[id].instance, id)
  {
    hide ArrayRemove, InstancesAfterClear;
  }

  lemma UnusedPlugin(r: Rows, id: string)
    requires UsageExact(r.plugins, r.templates, r.components) && id in r.plugins && r.plugins[id].usageComponents == []
    ensures Users(r.components, PluginDef(id)) == {}
  {
    ListsEmpty(r.plugins[id].usageComponents, Users(r.components, PluginDef(id)));
  }

  /** `clear-core-plugin` of an unused plugin keeps the store exact, and drops the instance with its last plugin. */
  lemma ClearPluginExact(r: Rows, s: Rows, tab: string, id: string)
    requires Exact(r) && tab in r.projects && id in r.plugins && r.plugins[id].instance in r.instances
    requires PluginCleared(r, s, tab, id)
    requires TabOf(id) == tab && TabOf(r.plugins[id].instance) == tab && r.plugins[id].usageComponents == []
    ensures Exact(s)
  {
    hide ComponentListsExact, BindingListsExact, UsageExact, Lists, Users, TabOf, ArrayRemove, BindingIndexExact,
         TabListsExact, InstancesExact, InstancesIdentified, PluginsIdentified, TemplatesIdentified,
         ComponentsIdentified, BindingsIdentified, ProjectsIdentified, InstancesAfterClear, PluginCleared;
    UnusedPlugin(r, id);
    PluginClearedSame(r, s, tab, id);
    PluginClearedTabs(r, s, tab, id);
    PluginMovesOut(r.instances, r.plugins, id);
    PluginClearedIdentified(r, s, tab, id);
    PluginClearedComponents(r, s, id);
    PluginClearedLists(r, s, tab, id);
  }

  // ----- a new tab -----

  lemma NothingInMissingTab(r: Rows, tab: string)
    requires Identified(r) && tab !in r.projects
    ensures InTab(r.instances.Keys, tab) == {} && InTab(r.plugins.Keys, tab) == {} && InTab(r.templates.Keys, tab) == {}
  {
    hide TabOf, Free, ComponentsIdentified, BindingsIdentified, ProjectsIdentified;
  }

  lemma NewTabFrameIdentified(r: Rows, s: Rows, tab: string, row: Project)
    requires Identified(r) && Free(tab, ':') && row.id == tab && s == r.(projects := r.projects[tab := row])
    ensures ProjectsIdentified(s.projects) && InstancesIdentified(s) && PluginsIdentified(s) && TemplatesIdentified(s)
  {
    hide TabOf, Free, ComponentsIdentified, BindingsIdentified;
  }

  lemma NewTabRowsIdentified(r: Rows, s: Rows, tab: string, row: Project)
    requires ComponentsIdentified(r) && BindingsIdentified(r) && tab !in r.projects && tab !in r.templates
    requires s == r.(projects := r.projects[tab := row])
    ensures ComponentsIdentified(s) && BindingsIdentified(s)
  {
    hide ViewOf, ExtractIdsWithTemplate;
  }

  lemma NewTabLists(r: Rows, s: Rows, tab: string, row: Project)
    requires ComponentListsExact(r.projects, r.templates, r.components.Keys)
    requires BindingListsExact(r.projects, r.templates, r.bindings.Keys)
    requires InView(r.components.Keys, tab) == {} && InView(r.bindings.Keys, tab) == {} && row.components == []
    requires row.bindings == []
    requires s == r.(projects := r.projects[tab := row])
    ensures ComponentListsExact(s.projects, s.templates, s.components.Keys)
    ensures BindingListsExact(s.projects, s.templates, s.bindings.Keys)
  {
    assert Lists([], {});
    hide Lists, InView;
  }

  /** Opening a tab adds a project without rows. */
  lemma NewTabExact(r: Rows, s: Rows, tab: string)
    requires Exact(r) && tab !in r.projects && tab !in r.templates && Free(tab, ':')
    requires s == r.(projects := r.projects[tab := Project(tab, [], [], [], [], [], "")])
    ensures Exact(s)
  {
    hide ComponentListsExact, BindingListsExact, UsageExact, InTab, InView, Users, TabOf, BindingIndexExact,
         TabListsExact, InstancesExact, InstancesIdentified, PluginsIdentified, TemplatesIdentified,
         ComponentsIdentified, BindingsIdentified, ProjectsIdentified, Free;
    var row := Project(tab, [], [], [], [], [], "");
    NothingInMissingTab(r, tab);
    NothingInMissingView(r, tab);
    NewTabFrameIdentified(r, s, tab, row);
    NewTabRowsIdentified(r, s, tab, row);
    NewTabLists(r, s, tab, row);
    assert Lists([], {});
    TabListsAfter(r.projects, tab, row, r.instances.Keys, r.plugins.Keys, r.templates.Keys, r.instances.Keys,
      r.plugins.Keys, r.templates.Keys);
  }

  // ----- content -----

  lemma TemplateAddedContent(r: Rows, s: Rows, k: Content, tab: string, id: string, row: Template)
    requires tab in r.projects && TemplateAdded(r, s, tab, id, row) && Represents(r, k)
    ensures Represents(s, k.(templates := k.templates[id := row.exports]))
  {
    hide ArrayAdd, PluginsAre, ComponentsAre, BindingsAre;
  }

  lemma SetExportsContent(r: Rows, s: Rows, k: Content, id: string, exports: Exports)
    requires id in r.templates && Represents(r, k)
    requires s == r.(templates := r.templates[id := r.templates[id].(exports := exports)])
    ensures Represents(s, k.(templates := k.templates[id := exports]))
  {
    hide TabsAre, PluginsAre, ComponentsAre, BindingsAre;
  }

  lemma NewTabContent(r: Rows, s: Rows, k: Content, tab: string)
    requires Represents(r, k) && s == r.(projects := r.projects[tab := Project(tab, [], [], [], [], [], "")])
    ensures Represents(s, k.(tabs := k.tabs[tab := ""]))
  {
    hide PluginsAre, TemplatesAre, ComponentsAre, BindingsAre;
  }
}
