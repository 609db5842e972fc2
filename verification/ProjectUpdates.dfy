/**
 Project updates (store/core-designer/reducer.ts, `applyProjectUpdate`) as changes of
 the content: when a consistent server sends them, what they do, and what a reader
 finds afterwards under the local ids that the update names.
 */
module ProjectUpdates {
  import opened Options
  import opened Strings
  import opened DesignerIds
  import opened CoreStore
  import opened StoreDefinitions

  // ----- project updates and what they do to the content -----

  datatype Update =
    | SetPluginUpdate(pluginId: string, instanceName: string, data: PluginData)
    | ClearPluginUpdate(pluginId: string)
    | SetTemplateUpdate(templateId: string, config: seq<(string, ConfigExport)>, members: seq<(string, MemberExport)>)
    | ClearTemplateUpdate(templateId: string)
    | SetComponentUpdate(viewId: string, componentId: string, definition: Definition, settings: map<string, string>)
    | ClearComponentUpdate(viewId: string, componentId: string)
    | RenameComponentUpdate(viewId: string, componentId: string, newId: string)
    | SetBindingUpdate(viewId: string, bindingId: string, source: string, state: string, target: string, action: string)
    | ClearBindingUpdate(viewId: string, bindingId: string)

  /** The definition of a component arrives with a local id. */
  function ScopeDefinition(tabId: string, d: Definition): Definition {
    match d
    case PluginDef(id) => PluginDef(TabScoped(tabId, id))
    case TemplateDef(id) => TemplateDef(TabScoped(tabId, id))
  }

  predicate DefinitionIn(k: Content, d: Definition) {
    match d
    case PluginDef(id) => id in k.plugins
    case TemplateDef(id) => id in k.templates
  }

  predicate ViewIn(k: Content, tabId: string, templateId: string) {
    Free(templateId, ':') && (templateId != "" ==> TabScoped(tabId, templateId) in k.templates)
  }

  predicate NoBindingAt(k: Content, component: string) {
    forall b :: b in k.bindings ==>
      k.bindings[b].sourceComponent != component && k.bindings[b].targetComponent != component
  }

  function ContentEnds(b: BindingContent): set<(string, string)> {
    {(b.sourceComponent, b.sourceState), (b.targetComponent, b.targetAction)}
  }

  function UpdateEnds(tabId: string, u: Update): BindingContent
    requires u.SetBindingUpdate?
  {
    BindingContent(ViewScoped(tabId, u.viewId, u.source), u.state, ViewScoped(tabId, u.viewId, u.target), u.action)
  }

  /** The updates a consistent server sends: a condition on the content alone. */
  predicate WellFormed(k: Content, tabId: string, u: Update) {
    && tabId in k.tabs
    && match u
       case SetPluginUpdate(pluginId, instanceName, _) =>
         var id := TabScoped(tabId, pluginId);
         id in k.plugins ==> k.plugins[id].instance == TabScoped(tabId, instanceName)
       case ClearPluginUpdate(pluginId) =>
         var id := TabScoped(tabId, pluginId);
         id in k.plugins && forall c :: c in k.components ==> k.components[c].definition != PluginDef(id)
       case SetTemplateUpdate(templateId, _, _) =>
         templateId != "" && Free(templateId, ':')
       case ClearTemplateUpdate(templateId) =>
         var id := TabScoped(tabId, templateId);
         id in k.templates && forall c :: c in k.components && k.components[c].definition == TemplateDef(id) ==>
           ViewOf(c) == id
       case SetComponentUpdate(view, componentId, definition, _) =>
         var id := ViewScoped(tabId, view, componentId);
         && ViewIn(k, tabId, view) && DefinitionIn(k, ScopeDefinition(tabId, definition))
         && (id in k.components ==> k.components[id].definition == ScopeDefinition(tabId, definition))
       case ClearComponentUpdate(view, componentId) =>
         var id := ViewScoped(tabId, view, componentId);
         Free(view, ':') && id in k.components && NoBindingAt(k, id)
       case RenameComponentUpdate(view, componentId, newId) =>
         var id := ViewScoped(tabId, view, componentId);
         Free(view, ':') && id in k.components && ViewScoped(tabId, view, newId) !in k.components && NoBindingAt(k, id)
       case SetBindingUpdate(view, bindingId, source, state, target, action) =>
         var id := ViewScoped(tabId, view, bindingId);
         && Free(view, ':')
         && ViewScoped(tabId, view, source) in k.components && ViewScoped(tabId, view, target) in k.components
         && (source, state) != (target, action)
         && (id in k.bindings ==> ContentEnds(k.bindings[id]) <= ContentEnds(UpdateEnds(tabId, u)))
       case ClearBindingUpdate(view, bindingId) =>
         Free(view, ':') && ViewScoped(tabId, view, bindingId) in k.bindings
  }

  /** What an update means: one change of the content, no index in sight. */
  function Apply(k: Content, tabId: string, u: Update): Content
    requires WellFormed(k, tabId, u)
  {
    match u
    case SetPluginUpdate(pluginId, instanceName, data) =>
      k.(plugins := k.plugins[TabScoped(tabId, pluginId) := PluginContent(TabScoped(tabId, instanceName), data)])
    case ClearPluginUpdate(pluginId) =>
      k.(plugins := k.plugins - {TabScoped(tabId, pluginId)})
    case SetTemplateUpdate(templateId, config, members) =>
      k.(templates := k.templates[TabScoped(tabId, templateId) :=
           Exports(ScopeConfig(tabId, templateId, config), ScopeMembers(tabId, templateId, members))])
    case ClearTemplateUpdate(templateId) =>
      var id := TabScoped(tabId, templateId);
      Content(ClearedTabs(k.tabs, tabId, id), k.plugins, k.templates - {id},
              k.components - InView(k.components.Keys, id), k.bindings - InView(k.bindings.Keys, id))
    case SetComponentUpdate(view, componentId, definition, settings) =>
      k.(components := k.components[ViewScoped(tabId, view,
        componentId) := ComponentContent(ScopeDefinition(tabId, definition), settings)])
    case ClearComponentUpdate(view, componentId) =>
      k.(components := k.components - {ViewScoped(tabId, view, componentId)})
    case RenameComponentUpdate(view, componentId, newId) =>
      var id := ViewScoped(tabId, view, componentId);
      k.(components := (k.components - {id})[ViewScoped(tabId, view, newId) := k.components[id]])
    case SetBindingUpdate(view, bindingId, _, _, _, _) =>
      k.(bindings := k.bindings[ViewScoped(tabId, view, bindingId) := UpdateEnds(tabId, u)])
    case ClearBindingUpdate(view, bindingId) =>
      k.(bindings := k.bindings - {ViewScoped(tabId, view, bindingId)})
  }

  predicate WellFormedRun(k: Content, updates: seq<(string, Update)>)
    decreases |updates|
  {
    updates == [] || (WellFormed(k, updates[0].0, updates[0].1)
                      && WellFormedRun(Apply(k, updates[0].0, updates[0].1), updates[1..]))
  }

  function ApplyAll(k: Content, updates: seq<(string, Update)>): Content
    requires WellFormedRun(k, updates)
    decreases |updates|
  {
    if updates == [] then k else ApplyAll(Apply(k, updates[0].0, updates[0].1), updates[1..])
  }

  // ----- what an update means to a reader of local ids -----

  /** The row id stands for this local id in this tab. */
  predicate InTabAs(id: string, tabId: string, localId: string) {
    ExtractIds(id) == Some(TabIds(tabId, localId))
  }

  /** Nothing but the row `id` differs. */
  ghost predicate SameBut<T>(before: map<string, T>, after: map<string, T>, id: string) {
    forall x :: x != id ==> (x in after <==> x in before) && (x in after ==> after[x] == before[x])
  }

  /** The rows of one template are gone, the others are as they were. */
  ghost predicate SameOutside<T>(before: map<string, T>, after: map<string, T>, tabId: string, templateId: string) {
    forall x ::
      && (x in after <==> x in before && !exists localId :: StandsFor(x, tabId, templateId, localId))
      && (x in after ==> after[x] == before[x])
  }

  predicate IsDefinition(d: Definition, tabId: string, sent: Definition) {
    d.PluginDef? == sent.PluginDef? && InTabAs(d.id, tabId, sent.id)
  }

  ghost predicate PluginIs(n: map<string, PluginContent>, id: string, tabId: string, u: Update)
    requires u.SetPluginUpdate?
  {
    InTabAs(id, tabId, u.pluginId) && id in n && n[id].data == u.data && InTabAs(n[id].instance, tabId, u.instanceName)
  }

  ghost predicate TemplateIs(n: map<string, Exports>, id: string, tabId: string, u: Update)
    requires u.SetTemplateUpdate?
  {
    && InTabAs(id, tabId, u.templateId) && id in n
    && (forall name :: ConfigScoped(tabId, u.templateId, u.config, n[id].config, name))
    && (forall name :: MemberScoped(tabId, u.templateId, u.members, n[id].members, name))
  }

  ghost predicate ComponentIs(n: map<string, ComponentContent>, id: string, tabId: string, u: Update)
    requires u.SetComponentUpdate?
  {
    && StandsFor(id, tabId, u.viewId, u.componentId) && id in n
    && IsDefinition(n[id].definition, tabId, u.definition) && n[id].config == u.settings
  }

  ghost predicate BindingIs(n: map<string, BindingContent>, id: string, tabId: string, u: Update)
    requires u.SetBindingUpdate?
  {
    && StandsFor(id, tabId, u.viewId, u.bindingId) && id in n
    && StandsFor(n[id].sourceComponent, tabId, u.viewId, u.source) && n[id].sourceState == u.state
    && StandsFor(n[id].targetComponent, tabId, u.viewId, u.target) && n[id].targetAction == u.action
  }

  /** The view shown leaves a template that goes, and stays otherwise. */
  ghost predicate TabLeaves(before: map<string, string>, after: map<string, string>, tabId: string, id: string) {
    && SameBut(before, after, tabId) && tabId in before && tabId in after
    && (before[tabId] == id ==> after[tabId] == "") && (before[tabId] != id ==> after[tabId] == before[tabId])
  }

  ghost predicate Renames(
      before: map<string, ComponentContent>, after: map<string, ComponentContent>, id: string, newId: string) {
    && id in before && id !in after && newId in after && after[newId] == before[id]
    && forall x :: x != id && x != newId ==> (x in after <==> x in before) && (x in after ==> after[x] == before[x])
  }

  /** `n` is `k` with the change that the update asks for, and no other. */
  ghost predicate Means(k: Content, tabId: string, u: Update, n: Content) {
    match u
    case SetPluginUpdate(_, _, _) =>
      n == k.(plugins := n.plugins)
      && exists id :: PluginIs(n.plugins, id, tabId, u) && SameBut(k.plugins, n.plugins, id)
    case ClearPluginUpdate(pluginId) =>
      n == k.(plugins := n.plugins)
      && exists id :: InTabAs(id, tabId, pluginId) && id !in n.plugins && SameBut(k.plugins, n.plugins, id)
    case SetTemplateUpdate(_, _, _) =>
      n == k.(templates := n.templates)
      && exists id :: TemplateIs(n.templates, id, tabId, u) && SameBut(k.templates, n.templates, id)
    case ClearTemplateUpdate(templateId) =>
      && n.plugins == k.plugins && SameOutside(k.components, n.components, tabId, templateId)
      && SameOutside(k.bindings, n.bindings, tabId, templateId)
      && exists id :: InTabAs(id, tabId, templateId) && id !in n.templates && SameBut(k.templates, n.templates, id)
                      && TabLeaves(k.tabs, n.tabs, tabId, id)
    case SetComponentUpdate(_, _, _, _) =>
      n == k.(components := n.components)
      && exists id :: ComponentIs(n.components, id, tabId, u) && SameBut(k.components, n.components, id)
    case ClearComponentUpdate(view, componentId) =>
      n == k.(components := n.components)
      && exists id :: StandsFor(id, tabId, view, componentId) && id !in n.components
                      && SameBut(k.components, n.components, id)
    case RenameComponentUpdate(view, componentId, newComponentId) =>
      n == k.(components := n.components)
      && exists id, newId :: StandsFor(id, tabId, view, componentId) && StandsFor(newId, tabId, view, newComponentId)
                             && Renames(k.components, n.components, id, newId)
    case SetBindingUpdate(_, _, _, _, _, _) =>
      n == k.(bindings := n.bindings)
      && exists id :: BindingIs(n.bindings, id, tabId, u) && SameBut(k.bindings, n.bindings, id)
    case ClearBindingUpdate(view, bindingId) =>
      n == k.(bindings := n.bindings)
      && exists id :: StandsFor(id, tabId, view, bindingId) && id !in n.bindings
                      && SameBut(k.bindings, n.bindings, id)
  }

  lemma ComponentSetMeans(k: Content, tabId: string, u: Update)
    requires WellFormed(k, tabId, u) && u.SetComponentUpdate? && Free(tabId, ':')
    ensures Means(k, tabId, u, Apply(k, tabId, u))
  {
    var id, n := ViewScoped(tabId, u.viewId, u.componentId), Apply(k, tabId, u);
    ExtractInvertsCompose(tabId, u.viewId, u.componentId);
    ExtractIdsInverts(tabId, u.definition.id);
    hide ExtractIdsWithTemplate, ExtractIds, ViewScoped, TabScoped;
    assert ComponentIs(n.components, id, tabId, u) && SameBut(k.components, n.components, id);
  }

  lemma ComponentGoneMeans(k: Content, tabId: string, u: Update)
    requires WellFormed(k, tabId, u) && (u.ClearComponentUpdate? || u.RenameComponentUpdate?) && Free(tabId, ':')
    ensures Means(k, tabId, u, Apply(k, tabId, u))
  {
    hide ExtractIdsWithTemplate, ViewScoped;
    var id, n := ViewScoped(tabId, u.viewId, u.componentId), Apply(k, tabId, u);
    ExtractInvertsCompose(tabId, u.viewId, u.componentId);
    if u.RenameComponentUpdate? {
      var newId := ViewScoped(tabId, u.viewId, u.newId);
      ExtractInvertsCompose(tabId, u.viewId, u.newId);
      assert StandsFor(newId, tabId, u.viewId, u.newId) && Renames(k.components, n.components, id, newId);
    } else {
      assert StandsFor(id, tabId, u.viewId, u.componentId) && SameBut(k.components, n.components, id);
    }
  }

  lemma BindingMeans(k: Content, tabId: string, u: Update)
    requires WellFormed(k, tabId, u) && (u.SetBindingUpdate? || u.ClearBindingUpdate?) && Free(tabId, ':')
    ensures Means(k, tabId, u, Apply(k, tabId, u))
  {
    hide ExtractIdsWithTemplate, ViewScoped;
    var id, n := ViewScoped(tabId, u.viewId, u.bindingId), Apply(k, tabId, u);
    ExtractInvertsCompose(tabId, u.viewId, u.bindingId);
    if u.SetBindingUpdate? {
      ExtractInvertsCompose(tabId, u.viewId, u.source);
      ExtractInvertsCompose(tabId, u.viewId, u.target);
      assert BindingIs(n.bindings, id, tabId, u) && SameBut(k.bindings, n.bindings, id);
    } else {
      assert StandsFor(id, tabId, u.viewId, u.bindingId) && SameBut(k.bindings, n.bindings, id);
    }
  }

  lemma PluginMeans(k: Content, tabId: string, u: Update)
    requires WellFormed(k, tabId, u) && (u.SetPluginUpdate? || u.ClearPluginUpdate?) && Free(tabId, ':')
    ensures Means(k, tabId, u, Apply(k, tabId, u))
  {
    hide ExtractIds, TabScoped;
    var id, n := TabScoped(tabId, u.pluginId), Apply(k, tabId, u);
    ExtractIdsInverts(tabId, u.pluginId);
    if u.SetPluginUpdate? {
      ExtractIdsInverts(tabId, u.instanceName);
      assert PluginIs(n.plugins, id, tabId, u) && SameBut(k.plugins, n.plugins, id);
    } else {
      assert InTabAs(id, tabId, u.pluginId) && SameBut(k.plugins, n.plugins, id);
    }
  }

  lemma TemplateSetMeans(k: Content, tabId: string, u: Update)
    requires WellFormed(k, tabId, u) && u.SetTemplateUpdate? && Free(tabId, ':')
    ensures Means(k, tabId, u, Apply(k, tabId, u))
  {
    hide ExtractIds, TabScoped, ScopeConfig, ScopeMembers, ConfigScoped, MemberScoped;
    var id, n := TabScoped(tabId, u.templateId), Apply(k, tabId, u);
    ExtractIdsInverts(tabId, u.templateId);
    forall name ensures ConfigScoped(tabId, u.templateId, u.config, n.templates[id].config, name) {
      ScopedConfigMeans(tabId, u.templateId, u.config, name);
    }
    forall name ensures MemberScoped(tabId, u.templateId, u.members, n.templates[id].members, name) {
      ScopedMemberMeans(tabId, u.templateId, u.members, name);
    }
    assert TemplateIs(n.templates, id, tabId, u) && SameBut(k.templates, n.templates, id);
  }

  /** The view of an id tells the template it is in. */
  lemma InTemplate(id: string, tabId: string, templateId: string)
    requires Free(tabId, ':') && templateId != "" && Free(templateId, ':')
    ensures ViewOf(id) == TabScoped(tabId, templateId) <==> exists localId :: StandsFor(id, tabId, templateId, localId)
  {
    var parts := ExtractIdsWithTemplate(id);
    ExtractIdsInverts(tabId, templateId);
    assert TabScoped(tabId, templateId)[|tabId|] == ':';
    if parts.Some? {
      ComposeInvertsExtract(id);
      ExtractIdsInverts(parts.value.tabId, parts.value.templateId);
      hide ExtractIdsWithTemplate, ExtractIds, TabScoped;
      if ViewOf(id) == TabScoped(tabId, templateId) {
        assert StandsFor(id, tabId, templateId, parts.value.id);
      }
    }
  }

  lemma RowsOutside<T>(rows: map<string, T>, tabId: string, templateId: string)
    requires Free(tabId, ':') && templateId != "" && Free(templateId, ':')
    ensures SameOutside(rows, rows - InView(rows.Keys, TabScoped(tabId, templateId)), tabId, templateId)
  {
    hide ViewOf, TabScoped, StandsFor;
    forall x { InTemplate(x, tabId, templateId); }
  }

  lemma TemplateGoneMeans(k: Content, tabId: string, u: Update)
    requires WellFormed(k, tabId, u) && u.ClearTemplateUpdate? && Free(tabId, ':')
    requires u.templateId != "" && Free(u.templateId, ':')
    ensures Means(k, tabId, u, Apply(k, tabId, u))
  {
    hide ExtractIds, TabScoped, InView, SameOutside;
    var id, n := TabScoped(tabId, u.templateId), Apply(k, tabId, u);
    ExtractIdsInverts(tabId, u.templateId);
    RowsOutside(k.components, tabId, u.templateId);
    RowsOutside(k.bindings, tabId, u.templateId);
    assert InTabAs(id, tabId, u.templateId) && SameBut(k.templates, n.templates, id);
  }

  /** The templates of an exact store have names without colon. */
  lemma TemplateNamed(r: Rows, tabId: string, templateId: string)
    requires ProjectsIdentified(r.projects) && TemplatesIdentified(r)
    requires tabId in r.projects && TabScoped(tabId, templateId) in r.templates
    ensures Free(tabId, ':') && templateId != "" && Free(templateId, ':')
  {
    ExtractIdsInverts(tabId, templateId);
    var name := r.templates[TabScoped(tabId, templateId)].templateId;
    assert TabScoped(tabId, templateId) == TabScoped(tabId, name);
    ExtractIdsInverts(tabId, name);
  }

  /** In an exact store every well-formed update does what it means. */
  lemma ApplyMeans(r: Rows, k: Content, tabId: string, u: Update)
    requires Exact(r) && Represents(r, k) && WellFormed(k, tabId, u)
    ensures Means(k, tabId, u, Apply(k, tabId, u))
  {
    hide TabListsExact, ComponentListsExact, BindingListsExact, UsageExact, BindingIndexExact, InstancesExact,
         InstancesIdentified, PluginsIdentified, ComponentsIdentified, BindingsIdentified, TemplatesIdentified,
         Means, Apply, TabScoped;
    assert tabId in r.projects;
    match u
    case SetPluginUpdate(_, _, _) => PluginMeans(k, tabId, u);
    case ClearPluginUpdate(_) => PluginMeans(k, tabId, u);
    case SetTemplateUpdate(_, _, _) => TemplateSetMeans(k, tabId, u);
    case ClearTemplateUpdate(templateId) =>
      TemplateNamed(r, tabId, templateId);
      TemplateGoneMeans(k, tabId, u);
    case SetComponentUpdate(_, _, _, _) => ComponentSetMeans(k, tabId, u);
    case ClearComponentUpdate(_, _) => ComponentGoneMeans(k, tabId, u);
    case RenameComponentUpdate(_, _, _) => ComponentGoneMeans(k, tabId, u);
    case SetBindingUpdate(_, _, _, _, _, _) => BindingMeans(k, tabId, u);
    case ClearBindingUpdate(_, _) => BindingMeans(k, tabId, u);
  }
}
