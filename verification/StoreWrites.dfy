/**
 The writes of the core designer reducer as functions on the rows, and the
 relations they add up to.
 */
module StoreWrites {
  import opened Strings
  import opened ReducerTools
  import opened DesignerIds
  import opened CoreStore
  import opened StoreSteps
  import opened StoreUpdates
  import opened StoreDefinitions

  function WithViewComponents(r: Rows, view: string, ids: seq<string>): Rows
    requires IsView(r, view)
  {
    if view in r.projects then r.(projects := r.projects[view := r.projects[view].(components := ids)])
    else r.(templates := r.templates[view := r.templates[view].(components := ids)])
  }

  function WithViewBindings(r: Rows, view: string, ids: seq<string>): Rows
    requires IsView(r, view)
  {
    if view in r.projects then r.(projects := r.projects[view := r.projects[view].(bindings := ids)])
    else r.(templates := r.templates[view := r.templates[view].(bindings := ids)])
  }

  function WithUsage(r: Rows, d: Definition, ids: seq<string>): Rows
    requires DefinitionExists(r, d)
  {
    match d
    case PluginDef(id) => r.(plugins := r.plugins[id := r.plugins[id].(usageComponents := ids)])
    case TemplateDef(id) => r.(templates := r.templates[id := r.templates[id].(usageComponents := ids)])
  }

  function WithIndex(r: Rows, component: string, index: map<string, seq<string>>): Rows
    requires component in r.components
  {
    r.(components := r.components[component := r.components[component].(bindings := index)])
  }

  // ----- components -----

  lemma ViewWritten(r: Rows, s: Rows, view: string, ids: seq<string>)
    requires IsView(r, view) && !(view in r.projects && view in r.templates)
    requires s == WithViewComponents(r, view, ids)
    ensures SameFrame(r, s) && SameData(r, s) && SameBindingLists(r, s) && SameUsage(r, s) && SameKeys(r, s)
    ensures ComponentListAt(r, s, view, ids)
    ensures s.components == r.components && s.bindings == r.bindings
  {
    ViewKeeps(r, s, view, ids);
    ViewKeepsData(r, s, view, ids);
    ViewLists(r, s, view, ids);
    hide SameFrame, SameData, SameBindingLists, SameUsage, ComponentListAt;
  }

  lemma ViewKeeps(r: Rows, s: Rows, view: string, ids: seq<string>)
    requires IsView(r, view) && !(view in r.projects && view in r.templates) && s == WithViewComponents(r, view, ids)
    ensures SameFrame(r, s)
  {
    hide SameData;
  }

  lemma ViewKeepsData(r: Rows, s: Rows, view: string, ids: seq<string>)
    requires IsView(r, view) && !(view in r.projects && view in r.templates) && s == WithViewComponents(r, view, ids)
    ensures SameData(r, s)
  {}

  lemma ViewLists(r: Rows, s: Rows, view: string, ids: seq<string>)
    requires IsView(r, view) && !(view in r.projects && view in r.templates) && s == WithViewComponents(r, view, ids)
    ensures SameBindingLists(r, s) && SameUsage(r, s) && ComponentListAt(r, s, view, ids)
  {}

  lemma UsageWritten(r: Rows, s: Rows, d: Definition, users: seq<string>)
    requires DefinitionExists(r, d)
    requires s == WithUsage(r, d, users)
    ensures SameFrame(r, s) && SameData(r, s) && SameBindingLists(r, s) && SameComponentLists(r, s)
    ensures UsageAt(r, s, d, users)
    ensures s.components == r.components && s.bindings == r.bindings
  {
    UsageKeeps(r, s, d, users);
    UsageLists(r, s, d, users);
    hide SameFrame, SameData, SameBindingLists, SameComponentLists, UsageAt;
  }

  lemma UsageKeeps(r: Rows, s: Rows, d: Definition, users: seq<string>)
    requires DefinitionExists(r, d) && s == WithUsage(r, d, users)
    ensures SameFrame(r, s) && SameData(r, s)
  {}

  lemma UsageLists(r: Rows, s: Rows, d: Definition, users: seq<string>)
    requires DefinitionExists(r, d) && s == WithUsage(r, d, users)
    ensures SameBindingLists(r, s) && SameComponentLists(r, s) && UsageAt(r, s, d, users)
  {}

  lemma FrameTransitive(r: Rows, m: Rows, s: Rows)
    requires SameFrame(r, m) && SameFrame(m, s) && SameData(r, m) && SameData(m, s) && SameBindingLists(r, m)
    requires SameBindingLists(m, s)
    ensures SameFrame(r, s) && SameData(r, s) && SameBindingLists(r, s)
  {}

  lemma ListsTransitive(r: Rows, m: Rows, s: Rows, view: string, ids: seq<string>, d: Definition, users: seq<string>)
    requires ComponentListAt(r, m, view, ids) && SameComponentLists(m, s) && SameUsage(r, m) && UsageAt(m, s, d, users)
    ensures ComponentListAt(r, s, view, ids) && UsageAt(r, s, d, users)
  {}

  /** View list and usage list written: the lists of one view and one definition change. */
  lemma ViewAndUsageWritten(r: Rows, s: Rows, view: string, ids: seq<string>, d: Definition, users: seq<string>)
    requires IsView(r, view) && DefinitionExists(r, d) && !(view in r.projects && view in r.templates)
    requires s == WithUsage(WithViewComponents(r, view, ids), d, users)
    ensures SameFrame(r, s) && SameData(r, s) && SameBindingLists(r, s)
    ensures ComponentListAt(r, s, view, ids) && UsageAt(r, s, d, users)
    ensures s.components == r.components && s.bindings == r.bindings
  {
    hide WithViewComponents, WithUsage, SameFrame, SameData, SameBindingLists, ComponentListAt, SameComponentLists,
         UsageAt, SameUsage;
    var m := WithViewComponents(r, view, ids);
    ViewWritten(r, m, view, ids);
    UsageWritten(m, s, d, users);
    FrameTransitive(r, m, s);
    ListsTransitive(r, m, s, view, ids, d, users);
  }

  lemma RelationsIgnoreComponents(
      r: Rows, m: Rows, s: Rows, view: string, ids: seq<string>, d: Definition, users: seq<string>)
    requires SameFrame(m, s) && SameData(m, s) && SameBindingLists(m, s)
    requires ComponentListAt(m, s, view, ids) && UsageAt(m, s, d, users)
    requires m == r.(components := m.components)
    ensures SameFrame(r, s) && SameData(r, s) && SameBindingLists(r, s)
    ensures ComponentListAt(r, s, view, ids) && UsageAt(r, s, d, users)
  {}

  /** The writes of `set-core-component` before reindexing: the row, its view list, its definition's usage list. */
  function SetComponentRows(r: Rows, id: string, row: Component): Rows
    requires IsView(r, ViewOf(id)) && DefinitionExists(r, row.definition)
  {
    var m := r.(components := r.components[id := row]);
    var v := WithViewComponents(m, ViewOf(id), ArraySet(ViewComponents(m, ViewOf(id)), id));
    WithUsage(v, row.definition, ArraySet(Usage(v, row.definition), id))
  }

  lemma ComponentSetWritten(r: Rows, s: Rows, id: string, row: Component)
    requires IsView(r, ViewOf(id)) && DefinitionExists(r, row.definition)
    requires !(ViewOf(id) in r.projects && ViewOf(id) in r.templates)
    requires s == SetComponentRows(r, id, row)
    ensures ComponentSet(r, s, id, row)
  {
    hide ViewOf, ArraySet, SameFrame, SameData, SameBindingLists, ComponentListAt, UsageAt;
    var m := r.(components := r.components[id := row]);
    var ids := ArraySet(ViewComponents(m, ViewOf(id)), id);
    var v := WithViewComponents(m, ViewOf(id), ids);
    assert Usage(v, row.definition) == Usage(r, row.definition);
    ViewAndUsageWritten(m, s, ViewOf(id), ids, row.definition, ArraySet(Usage(v, row.definition), id));
    RelationsIgnoreComponents(r, m, s, ViewOf(id), ids, row.definition, ArraySet(Usage(r, row.definition), id));
  }

  /** `clear-core-component`, and the first half of `rename-core-component`. */
  lemma ComponentClearedWritten(r: Rows, s: Rows, id: string)
    requires id in r.components
    requires var d := r.components[id].definition;
             IsView(r, ViewOf(id)) && DefinitionExists(r, d) && !(ViewOf(id) in r.projects && ViewOf(id) in r.templates)
    requires var d := r.components[id].definition;
             var v := WithViewComponents(r, ViewOf(id), ArrayRemove(ViewComponents(r, ViewOf(id)), id));
             s == WithUsage(v, d, ArrayRemove(Usage(v, d), id)).(components := r.components - {id})
    ensures ComponentCleared(r, s, id)
  {
    hide ViewOf, ArrayRemove, SameFrame, SameData, SameBindingLists, ComponentListAt, UsageAt;
    var d := r.components[id].definition;
    var ids := ArrayRemove(ViewComponents(r, ViewOf(id)), id);
    var v := WithViewComponents(r, ViewOf(id), ids);
    assert Usage(v, d) == Usage(r, d);
    var w := WithUsage(v, d, ArrayRemove(Usage(v, d), id));
    ViewAndUsageWritten(r, w, ViewOf(id), ids, d, ArrayRemove(Usage(v, d), id));
    RelationsIgnoreComponents'(r, w, s, ViewOf(id), ids, d, ArrayRemove(Usage(r, d), id));
  }

  lemma RelationsIgnoreComponents'(
      r: Rows, w: Rows, s: Rows, view: string, ids: seq<string>, d: Definition, users: seq<string>)
    requires SameFrame(r, w) && SameData(r, w) && SameBindingLists(r, w)
    requires ComponentListAt(r, w, view, ids) && UsageAt(r, w, d, users)
    requires s == w.(components := s.components)
    ensures SameFrame(r, s) && SameData(r, s) && SameBindingLists(r, s)
    ensures ComponentListAt(r, s, view, ids) && UsageAt(r, s, d, users)
  {}

  // ----- the reindexing loop of set-core-component -----

  function HalvesFrom(bindings: map<string, Binding>, ids: set<string>, component: string): set<(string, string)> {
    set h | h in Halves(bindings, component) && h.0 in ids
  }

  lemma HalvesFromStep(bindings: map<string, Binding>, ids: set<string>, component: string, b: string)
    requires b in bindings
    ensures HalvesFrom(bindings, ids + {b}, component)
      == HalvesFrom(bindings, ids, component) + EndsAt(bindings[b], b, component)
  {
    forall h ensures h in HalvesFrom(bindings, ids + {b}, component) <==>
      h in HalvesFrom(bindings, ids, component) + EndsAt(bindings[b], b, component) {
      InHalves(bindings, component, h);
    }
  }

  /** The index of `component` with the ends of one binding added, as the loop body does. */
  function AddEnds(index: map<string, seq<string>>, row: Binding, component: string): map<string, seq<string>> {
    var i1 := if row.sourceComponent == component then IndexAdd(index, row.sourceState, row.id) else index;
    if row.targetComponent == component then IndexAdd(i1, row.targetAction, row.id) else i1
  }

  lemma AddEndsExact(index: map<string, seq<string>>, halves: set<(string, string)>, row: Binding, component: string)
    requires IndexIs(index, halves)
    ensures IndexIs(AddEnds(index, row, component), halves + EndsAt(row, row.id, component))
  {
    hide IndexIs, IndexAdd;
    var i1 := if row.sourceComponent == component then IndexAdd(index, row.sourceState, row.id) else index;
    var h1 := if row.sourceComponent == component then halves + {(row.id, row.sourceState)} else halves;
    IndexAddExact(index, halves, row.sourceState, row.id);
    IndexAddExact(i1, h1, row.targetAction, row.id);
    assert halves + EndsAt(row, row.id, component) ==
           if row.targetComponent == component then h1 + {(row.id, row.targetAction)} else h1;
  }

  lemma ReindexStart(bindings: map<string, Binding>, ids: seq<string>, component: string)
    ensures IndexIs(map[], HalvesFrom(bindings, Elements(ids[..0]), component))
  {
    assert HalvesFrom(bindings, Elements(ids[..0]), component) == {};
    forall m ensures At({}, m) == {} {}
  }

  lemma ReindexStep(
      index: map<string, seq<string>>, bindings: map<string, Binding>, ids: seq<string>, i: nat, component: string)
    requires i < |ids| && ids[i] in bindings && bindings[ids[i]].id == ids[i]
    requires IndexIs(index, HalvesFrom(bindings, Elements(ids[..i]), component))
    ensures IndexIs(AddEnds(index, bindings[ids[i]], component),
      HalvesFrom(bindings, Elements(ids[..i + 1]), component))
  {
    assert Elements(ids[..i + 1]) == Elements(ids[..i]) + {ids[i]};
    hide IndexIs, HalvesFrom, AddEnds, Elements, EndsAt;
    HalvesFromStep(bindings, Elements(ids[..i]), component, ids[i]);
    AddEndsExact(index, HalvesFrom(bindings, Elements(ids[..i]), component), bindings[ids[i]], component);
  }

  /** The index of one component, written twice. */
  lemma IndexTwice(r: Rows, s: Rows, c: string, index: map<string, seq<string>>, next: map<string, seq<string>>)
    requires c in r.components && s == WithIndex(r, c, index)
    ensures c in s.components && s.components[c].bindings == index && s.bindings == r.bindings
    ensures WithIndex(s, c, next) == WithIndex(r, c, next)
  {}

  /** All binding ends at a component are in the binding list of its view. */
  lemma HalvesFromView(r: Rows, id: string)
    requires BindingsIdentified(r)
    ensures HalvesFrom(r.bindings, InView(r.bindings.Keys, ViewOf(id)), id) == Halves(r.bindings, id)
  {
    hide ViewOf;
    forall h | h in Halves(r.bindings, id) ensures h.0 in InView(r.bindings.Keys, ViewOf(id)) {
      InHalves(r.bindings, id, h);
      assert BindingIdentified(r, h.0, r.bindings[h.0]);
    }
  }

  // ----- bindings -----

  lemma BindingListWritten(r: Rows, s: Rows, view: string, ids: seq<string>)
    requires IsView(r, view) && !(view in r.projects && view in r.templates)
    requires s == WithViewBindings(r, view, ids)
    ensures SameFrame(r, s) && SameData(r, s) && SameComponentLists(r, s) && SameUsage(r, s)
    ensures BindingListAt(r, s, view, ids)
  {
    BindingListKeeps(r, s, view, ids);
    BindingListKeepsData(r, s, view, ids);
    BindingListOnly(r, s, view, ids);
    hide SameFrame, SameData, SameComponentLists, SameUsage, BindingListAt;
  }

  lemma BindingListKeeps(r: Rows, s: Rows, view: string, ids: seq<string>)
    requires IsView(r, view) && !(view in r.projects && view in r.templates) && s == WithViewBindings(r, view, ids)
    ensures SameFrame(r, s)
  {
    hide SameData;
  }

  lemma BindingListKeepsData(r: Rows, s: Rows, view: string, ids: seq<string>)
    requires IsView(r, view) && !(view in r.projects && view in r.templates) && s == WithViewBindings(r, view, ids)
    ensures SameData(r, s)
  {}

  lemma BindingListOnly(r: Rows, s: Rows, view: string, ids: seq<string>)
    requires IsView(r, view) && !(view in r.projects && view in r.templates) && s == WithViewBindings(r, view, ids)
    ensures SameComponentLists(r, s) && SameUsage(r, s) && BindingListAt(r, s, view, ids)
  {}

  lemma ListsIgnoreRows(r: Rows, m: Rows, s: Rows, view: string, ids: seq<string>)
    requires SameFrame(r, m) && SameData(r, m) && SameComponentLists(r, m) && SameUsage(r, m)
    requires BindingListAt(r, m, view, ids)
    requires s == m.(components := s.components, bindings := s.bindings)
    ensures SameFrame(r, s) && SameData(r, s) && SameComponentLists(r, s) && SameUsage(r, s)
    ensures BindingListAt(r, s, view, ids)
  {}

  lemma OnlyIndexesWritten(r: Rows, s: Rows, view: string, ids: seq<string>)
    requires IsView(r, view) && !(view in r.projects && view in r.templates)
    requires s.components.Keys == r.components.Keys
    requires forall c :: c in s.components ==>
      s.components[c].(bindings := map[]) == r.components[c].(bindings := map[])
    requires s == WithViewBindings(r, view, ids).(components := s.components, bindings := s.bindings)
    ensures OnlyIndexes(r, s) && BindingListAt(r, s, view, ids)
  {
    hide WithViewBindings, SameFrame, SameData, SameComponentLists, SameUsage, BindingListAt;
    var m := WithViewBindings(r, view, ids);
    BindingListWritten(r, m, view, ids);
    ListsIgnoreRows(r, m, s, view, ids);
  }

  lemma EmptyExact()
    ensures var r := Rows(map[], map[], map[], map[], map[], map[]);
            Exact(r) && Represents(r, Content(map[], map[], map[], map[], map[]))
  {
    hide Lists, TabOf, ViewOf, Free;
  }

  /** The row that `set-core-component` builds belongs to the view it names. */
  lemma NewComponentIdentified(r: Rows, tabId: string, templateId: string, componentId: string, row: Component)
    requires ProjectsIdentified(r.projects) && Free(tabId, ':') && Free(templateId, ':') && tabId in r.projects
    requires templateId != "" ==> TabScoped(tabId, templateId) in r.templates
    requires row.id == ViewScoped(tabId, templateId, componentId) && row.componentId == componentId
    requires row.templateId == if templateId == "" then "" else TabScoped(tabId, templateId)
    requires DefinitionExists(r, row.definition)
    ensures ViewOf(row.id) == ViewKey(tabId, templateId) && ComponentIdentified(r, row.id, row)
  {
    OwnersOfComposed(tabId, templateId, componentId);
    ExtractInvertsCompose(tabId, templateId, componentId);
  }

  /** The lists written by `set-core-component` leave the view's binding list alone. */
  lemma SetComponentViewBindings(r: Rows, m: Rows, id: string, row: Component)
    requires ComponentIdentified(r, id, row) && ComponentSet(r, m, id, row)
    requires BindingsIdentified(r) && BindingListsExact(r.projects, r.templates, r.bindings.Keys)
    ensures IsView(m, ViewOf(id)) && ViewBindings(m, ViewOf(id)) == ViewBindings(r, ViewOf(id))
    ensures forall b :: b in ViewBindings(r, ViewOf(id)) ==> b in m.bindings && m.bindings[b].id == b
    ensures Elements(ViewBindings(r, ViewOf(id))) == InView(r.bindings.Keys, ViewOf(id))
    ensures m.bindings == r.bindings && id in m.components && m.components[id] == row
  {
    hide ViewOf, ArraySet, ExtractIdsWithTemplate, UsageAt, ComponentListAt, SameData, Ascending;
    assert Lists(ViewBindings(r, ViewOf(id)), InView(r.bindings.Keys, ViewOf(id)));
  }

  lemma ComponentSetReindexed(r: Rows, m: Rows, s: Rows, id: string, row: Component, index: map<string, seq<string>>)
    requires ComponentIdentified(r, id, row) && ComponentSet(r, m, id, row) && s == WithIndex(m, id, index)
    ensures ComponentIdentified(r, id, row.(bindings := index)) && ComponentSet(r, s, id, row.(bindings := index))
  {
    hide ViewOf, ArraySet, ExtractIdsWithTemplate, SameFrame, SameData, SameBindingLists, ComponentListAt, UsageAt;
    RelationsIgnoreComponents'(r, m, s, ViewOf(id), ArraySet(ViewComponents(r, ViewOf(id)), id), row.definition,
      ArraySet(Usage(r, row.definition), id));
  }

  /** `set-core-component` as a whole: the lists written, then the index rebuilt from the view's bindings. */
  lemma SetComponentDone(
      r: Rows, m: Rows, s: Rows, k: Content, id: string, row: Component, index: map<string, seq<string>>)
    requires Exact(r) && Represents(r, k) && ComponentIdentified(r, id, row) && ComponentSet(r, m, id, row)
    requires s == WithIndex(m, id, index)
    requires IndexIs(index, HalvesFrom(r.bindings, InView(r.bindings.Keys, ViewOf(id)), id))
    ensures Exact(s) <==> (id in r.components ==> r.components[id].definition == row.definition)
    ensures Represents(s, k.(components := k.components[id := ComponentContent(row.definition, row.config)]))
  {
    hide ComponentListsExact, BindingListsExact, UsageExact, IndexIs, Halves, HalvesFrom, ViewOf, InView,
         TabListsExact, InstancesExact, TemplatesIdentified, InstancesIdentified, PluginsIdentified, ProjectsIdentified,
         BindingsIdentified, ComponentsIdentified, BindingIndexExact, WithIndex, Represents, ComponentIdentified;
    HalvesFromView(r, id);
    ComponentSetReindexed(r, m, s, id, row, index);
    SetComponentExact(r, s, id, row.(bindings := index));
    ComponentSetContent(r, s, k, id, row.(bindings := index));
  }

  /** `clear-core-component` as a whole. */
  lemma ClearComponentDone(r: Rows, s: Rows, k: Content, id: string)
    requires Exact(r) && Represents(r, k) && id in r.components
    requires IsView(r, ViewOf(id)) && DefinitionExists(r, r.components[id].definition) && ComponentCleared(r, s, id)
    ensures Exact(s) <==> Halves(r.bindings, id) == {}
    ensures Represents(s, k.(components := k.components - {id}))
  {
    hide Exact, Represents, Halves, ViewOf, DefinitionExists;
    ClearComponentExact(r, s, id);
    ComponentClearedContent(r, s, k, id);
  }

  /** What the store knows of a component in it. */
  lemma StoredComponent(r: Rows, id: string)
    requires Exact(r) && id in r.components
    ensures ComponentIdentified(r, id, r.components[id]) && IsView(r, ViewOf(id))
    ensures DefinitionExists(r, r.components[id].definition)
    ensures !(ViewOf(id) in r.projects && ViewOf(id) in r.templates)
    ensures Lists(ViewComponents(r, ViewOf(id)), InView(r.components.Keys, ViewOf(id)))
    ensures IndexIs(r.components[id].bindings, Halves(r.bindings, id)) && r.components[id].id == id
    ensures id in ViewComponents(r, ViewOf(id)) && id in Usage(r, r.components[id].definition)
  {
    ComponentListed(r, id);
    hide TabListsExact, BindingListsExact, UsageExact, InstancesExact, ViewOf, ExtractIdsWithTemplate, Lists, InView,
         IndexIs, Halves,
         BindingsIdentified, InstancesIdentified, PluginsIdentified, ProjectsIdentified, TemplatesIdentified;
    ProjectOrTemplate(r, ViewOf(id));
  }

  // ----- rename-core-component -----

  /** A component is listed by its view and its definition. */
  lemma ComponentListed(r: Rows, id: string)
    requires Exact(r) && id in r.components
    ensures IsView(r, ViewOf(id)) && id in ViewComponents(r, ViewOf(id))
    ensures DefinitionExists(r, r.components[id].definition) && id in Usage(r, r.components[id].definition)
  {
    hide TabListsExact, BindingListsExact, InstancesExact, BindingIndexExact, ViewOf, Ascending,
         BindingsIdentified, InstancesIdentified, PluginsIdentified, ProjectsIdentified, TemplatesIdentified;
    var view, d := ViewOf(id), r.components[id].definition;
    assert ComponentIdentified(r, id, r.components[id]);
    assert id in InView(r.components.Keys, view) && id in Users(r.components, d);
    assert Lists(ViewComponents(r, view), InView(r.components.Keys, view));
    assert Lists(Usage(r, d), Users(r.components, d));
  }

  /** Writing the components of a view, or dropping one, leaves usage lists alone. */
  lemma UsageIgnoresView(r: Rows, view: string, ids: seq<string>, d: Definition)
    requires IsView(r, view) && DefinitionExists(r, d)
    ensures var s := WithViewComponents(r, view, ids); DefinitionExists(s, d) && Usage(s, d) == Usage(r, d)
  {}

  /** The first half of a rename drops the row before it writes the lists. */
  lemma RenameFirstHalf(r: Rows, s: Rows, id: string)
    requires id in r.components
    requires var d := r.components[id].definition;
             IsView(r, ViewOf(id)) && DefinitionExists(r, d) && !(ViewOf(id) in r.projects && ViewOf(id) in r.templates)
    requires var d := r.components[id].definition;
             var a := r.(components := r.components - {id});
             var v := WithViewComponents(a, ViewOf(id), ArrayRemove(ViewComponents(a, ViewOf(id)), id));
             s == WithUsage(v, d, ArrayRemove(Usage(v, d), id))
    ensures ComponentCleared(r, s, id)
  {
    hide ViewOf, ArrayRemove, SameFrame, SameData, SameBindingLists, ComponentListAt, UsageAt;
    var d := r.components[id].definition;
    var a := r.(components := r.components - {id});
    var ids := ArrayRemove(ViewComponents(a, ViewOf(id)), id);
    var v := WithViewComponents(a, ViewOf(id), ids);
    assert Usage(v, d) == Usage(r, d);
    ViewAndUsageWritten(a, s, ViewOf(id), ids, d, ArrayRemove(Usage(v, d), id));
    RelationsIgnoreComponents(r, a, s, ViewOf(id), ids, d, ArrayRemove(Usage(r, d), id));
  }

  lemma UsageAndViewWritten(r: Rows, s: Rows, view: string, ids: seq<string>, d: Definition, users: seq<string>)
    requires IsView(r, view) && DefinitionExists(r, d) && !(view in r.projects && view in r.templates)
    requires s == WithViewComponents(WithUsage(r, d, users), view, ids)
    ensures s == WithUsage(WithViewComponents(r, view, ids), d, users)
  {
    var t := if d.TemplateDef? then d.id else view;
    if d.TemplateDef? && view !in r.projects && d.id != view {
      var used, shown := r.templates[d.id].(usageComponents := users), r.templates[view].(components := ids);
      assert r.templates[d.id := used][view := shown] == r.templates[view := shown][d.id := used];
    }
  }

  /** The second half puts the row back, registers it and adds it to the view. */
  lemma RenameSecondHalf(m: Rows, s: Rows, id: string, row: Component)
    requires IsView(m, ViewOf(id)) && DefinitionExists(m, row.definition)
    requires !(ViewOf(id) in m.projects && ViewOf(id) in m.templates)
    requires var a := m.(components := m.components[id := row]);
             var u := WithUsage(a, row.definition, ArraySet(Usage(a, row.definition), id));
             s == WithViewComponents(u, ViewOf(id), ArrayAdd(ViewComponents(u, ViewOf(id)), id, true))
    ensures ComponentAdded(m, s, id, row)
  {
    hide ViewOf, ArrayAdd, ArraySet, SameFrame, SameData, SameBindingLists, ComponentListAt, UsageAt;
    var a := m.(components := m.components[id := row]);
    var users := ArraySet(Usage(a, row.definition), id);
    var u := WithUsage(a, row.definition, users);
    assert ViewComponents(u, ViewOf(id)) == ViewComponents(m, ViewOf(id));
    var ids := ArrayAdd(ViewComponents(m, ViewOf(id)), id, true);
    UsageAndViewWritten(a, s, ViewOf(id), ids, row.definition, users);
    ViewAndUsageWritten(a, s, ViewOf(id), ids, row.definition, users);
    RelationsIgnoreComponents(m, a, s, ViewOf(id), ids, row.definition, users);
  }

  /** `rename-core-component` as a whole. */
  lemma RenameComponentDone(r: Rows, m: Rows, s: Rows, k: Content, id: string, newId: string, row: Component)
    requires Exact(r) && Represents(r, k) && id in r.components && IsView(r, ViewOf(id))
    requires DefinitionExists(r, r.components[id].definition)
    requires ComponentIdentified(r, newId, row) && ViewOf(newId) == ViewOf(id)
    requires row == r.components[id].(id := newId, componentId := row.componentId)
    requires ComponentCleared(r, m, id) && SameKeys(r, m)
    requires IsView(m, ViewOf(newId)) && DefinitionExists(m, row.definition) && ComponentAdded(m, s, newId, row)
    ensures Exact(s) <==> newId == id || (newId !in r.components && Halves(r.bindings, id) == {})
    ensures Represents(s,
      k.(components := (k.components - {id})[newId := ComponentContent(row.definition, row.config)]))
  {
    hide Exact, Represents, Halves, ViewOf, DefinitionExists, ComponentIdentified;
    SameFrameComponent(r, m, newId, row);
    RenameComponentExact(r, m, s, id, newId, row);
    ComponentClearedContent(r, m, k, id);
    ComponentSetContent(m, s, k.(components := k.components - {id}), newId, row);
  }

  // ----- bindings: the index writes -----

  /** The index of `component` with the ends of one binding taken out. */
  function RemoveEnds(index: map<string, seq<string>>, row: Binding, component: string): map<string, seq<string>> {
    var i1 := if row.sourceComponent == component
      && row.sourceState in index then IndexRemove(index, row.sourceState, row.id) else index;
    if row.targetComponent == component && row.targetAction in i1 then IndexRemove(i1, row.targetAction, row.id) else i1
  }

  lemma RemoveEndsExact(index: map<string, seq<string>>, halves: set<(string, string)>, row: Binding, component: string)
    requires IndexIs(index, halves) && EndsAt(row, row.id, component) <= halves
    requires (row.sourceComponent, row.sourceState) != (row.targetComponent, row.targetAction)
    ensures IndexIs(RemoveEnds(index, row, component), halves - EndsAt(row, row.id, component))
    ensures row.sourceComponent == component ==> IsIndexed(index, row.sourceState, row.id)
    ensures row.targetComponent == component ==>
      IsIndexed(if row.sourceComponent == component then IndexRemove(index, row.sourceState, row.id) else index,
        row.targetAction, row.id)
  {
    hide IndexIs, IndexRemove;
    var h1 := if row.sourceComponent == component then halves - {(row.id, row.sourceState)} else halves;
    if row.sourceComponent == component {
      assert (row.id, row.sourceState) in halves;
      IndexedIsHalf(index, halves, row.sourceState, row.id);
      IndexRemoveExact(index, halves, row.sourceState, row.id);
    }
    var i1 := if row.sourceComponent == component then IndexRemove(index, row.sourceState, row.id) else index;
    if row.targetComponent == component {
      assert (row.id, row.targetAction) in h1;
      IndexedIsHalf(i1, h1, row.targetAction, row.id);
      IndexRemoveExact(i1, h1, row.targetAction, row.id);
    }
    assert halves - EndsAt(row, row.id, component) ==
           if row.targetComponent == component then h1 - {(row.id, row.targetAction)} else h1;
  }

  /** The writes of `set-core-binding`. */
  function SetBindingRows(r: Rows, id: string, row: Binding): Rows
    requires IsView(r, ViewOf(id)) && row.sourceComponent in r.components && row.targetComponent in r.components
  {
    var a := r.(bindings := r.bindings[id := row]);
    var b := WithViewBindings(a, ViewOf(id), ArraySet(ViewBindings(a, ViewOf(id)), id));
    var c := WithIndex(b, row.sourceComponent,
      IndexAdd(b.components[row.sourceComponent].bindings, row.sourceState, id));
    WithIndex(c, row.targetComponent, IndexAdd(c.components[row.targetComponent].bindings, row.targetAction, id))
  }

  lemma SetBindingIndexes(r: Rows, s: Rows, id: string, row: Binding)
    requires IsView(r, ViewOf(id)) && row.sourceComponent in r.components && row.targetComponent in r.components
    requires row.id == id
    requires s == SetBindingRows(r, id, row)
    ensures s.components.Keys == r.components.Keys
    ensures forall c :: c in s.components ==>
      s.components[c] == r.components[c].(bindings := AddEnds(r.components[c].bindings, row, c))
  {
    hide ViewOf, ArraySet, IndexAdd, WithViewBindings, ViewBindings;
    var a := r.(bindings := r.bindings[id := row]);
    ViewIgnoresBindings(r, a, ViewOf(id), ArraySet(ViewBindings(r, ViewOf(id)), id));
  }

  lemma SetBindingLists(r: Rows, s: Rows, id: string, row: Binding)
    requires IsView(r, ViewOf(id)) && row.sourceComponent in r.components && row.targetComponent in r.components
    requires s == SetBindingRows(r, id, row)
    ensures s == WithViewBindings(r, ViewOf(id), ArraySet(ViewBindings(r, ViewOf(id)), id)).(components := s.components,
      bindings := s.bindings)
    ensures s.bindings == r.bindings[id := row]
  {
    hide ViewOf, ArraySet, IndexAdd, WithViewBindings, ViewBindings;
    var a := r.(bindings := r.bindings[id := row]);
    ViewIgnoresBindings(r, a, ViewOf(id), ArraySet(ViewBindings(r, ViewOf(id)), id));
  }

  lemma ViewIgnoresBindings(r: Rows, a: Rows, view: string, ids: seq<string>)
    requires IsView(r, view) && a == r.(bindings := a.bindings)
    ensures ViewBindings(a, view) == ViewBindings(r, view)
    ensures WithViewBindings(a, view, ids) == WithViewBindings(r, view, ids).(bindings := a.bindings)
    ensures WithViewBindings(a, view, ids).components == r.components
  {}

  lemma SetBindingWritten(r: Rows, s: Rows, id: string, row: Binding)
    requires BindingPlaced(r, id, row) && !(ViewOf(id) in r.projects && ViewOf(id) in r.templates)
    requires BindingIndexExact(r.components, r.bindings) && s == SetBindingRows(r, id, row)
    ensures BindingSet(r, s, id, row)
  {
    hide ViewOf, ArraySet, IndexIs, Halves, AddEnds, EndsAt, SetBindingRows, WithViewBindings, ViewBindings,
         OnlyIndexes, BindingListAt;
    SetBindingIndexes(r, s, id, row);
    SetBindingLists(r, s, id, row);
    OnlyIndexesWritten(r, s, ViewOf(id), ArraySet(ViewBindings(r, ViewOf(id)), id));
    forall c | c in s.components ensures IndexIs(s.components[c].bindings, Halves(r.bindings, c) + EndsAt(row, id, c)) {
      AddEndsExact(r.components[c].bindings, Halves(r.bindings, c), row, c);
    }
  }

  lemma SetBindingDone(r: Rows, s: Rows, k: Content, id: string, row: Binding)
    requires Exact(r) && Represents(r, k) && BindingPlaced(r, id, row) && s == SetBindingRows(r, id, row)
    ensures Exact(s) <==> JoinsTwo(row) && (id in r.bindings ==> Ends(r.bindings[id]) <= Ends(row))
    ensures Represents(s, k.(bindings := k.bindings[id := EndsContent(row)]))
  {
    hide ViewOf, Represents, ComponentListsExact, BindingListsExact, UsageExact, TabListsExact, InstancesExact,
         BindingIndexExact,
         TemplatesIdentified, InstancesIdentified, PluginsIdentified, ProjectsIdentified, BindingsIdentified,
           ComponentsIdentified,
         SetBindingRows, OnlyIndexes, BindingListAt, IndexIs, Halves, EndsAt, Ends;
    ProjectOrTemplate(r, ViewOf(id));
    SetBindingWritten(r, s, id, row);
    SetBindingExact(r, s, id, row);
    BindingSetContent(r, s, k, id, row);
  }

  /** The writes of `clear-core-binding`. */
  function ClearBindingRows(r: Rows, id: string): Rows
    requires id in r.bindings && IsView(r, ViewOf(id))
    requires r.bindings[id].sourceComponent in r.components && r.bindings[id].targetComponent in r.components
    requires var row := r.bindings[id];
             && row.sourceState in r.components[row.sourceComponent].bindings
             && row.targetAction in (if row.targetComponent == row.sourceComponent
                                     then IndexRemove(r.components[row.sourceComponent].bindings, row.sourceState, id)
                                     else r.components[row.targetComponent].bindings)
  {
    var row := r.bindings[id];
    var a := WithViewBindings(r, ViewOf(id),
      ArrayRemove(ViewBindings(r, ViewOf(id)), id)).(bindings := r.bindings - {id});
    var c := WithIndex(a, row.sourceComponent,
      IndexRemove(a.components[row.sourceComponent].bindings, row.sourceState, id));
    WithIndex(c, row.targetComponent, IndexRemove(c.components[row.targetComponent].bindings, row.targetAction, id))
  }

  lemma BindingListed(r: Rows, id: string)
    requires Exact(r) && id in r.bindings
    ensures IsView(r, ViewOf(id)) && id in ViewBindings(r, ViewOf(id))
  {
    hide TabListsExact, ComponentListsExact, UsageExact, InstancesExact, BindingIndexExact, ViewOf, Ascending,
         ComponentsIdentified, InstancesIdentified, PluginsIdentified, ProjectsIdentified, TemplatesIdentified;
    var view := ViewOf(id);
    assert BindingIdentified(r, id, r.bindings[id]);
    assert id in InView(r.bindings.Keys, view);
    assert Lists(ViewBindings(r, view), InView(r.bindings.Keys, view));
  }

  /** Both ends of a binding are indexed: the second still is once the first is removed. */
  ghost predicate BindingRemovable(r: Rows, id: string) {
    && id in r.bindings && BindingIdentified(r, id, r.bindings[id])
    && var row := r.bindings[id];
       && IsIndexed(r.components[row.sourceComponent].bindings, row.sourceState, id)
       && IsIndexed(if row.targetComponent == row.sourceComponent
                    then IndexRemove(r.components[row.sourceComponent].bindings, row.sourceState, id)
                    else r.components[row.targetComponent].bindings, row.targetAction, id)
  }

  /** What the store knows of a binding in it: both ends are indexed, so both removals find their entry. */
  lemma StoredBinding(r: Rows, id: string)
    requires Exact(r) && id in r.bindings
    ensures BindingIdentified(r, id, r.bindings[id]) && !(ViewOf(id) in r.projects && ViewOf(id) in r.templates)
    ensures id in ViewBindings(r, ViewOf(id)) && BindingRemovable(r, id)
  {
    BindingListed(r, id);
    hide TabListsExact, ComponentListsExact, BindingListsExact, UsageExact, InstancesExact, ViewOf, IndexIs, Halves,
         EndsAt,
         ComponentsIdentified, InstancesIdentified, PluginsIdentified, ProjectsIdentified, TemplatesIdentified,
           IndexRemove, RemoveEnds,
         IsIndexed;
    ProjectOrTemplate(r, ViewOf(id));
    var row := r.bindings[id];
    EndsInHalves(r.bindings, id, row.sourceComponent);
    EndsInHalves(r.bindings, id, row.targetComponent);
    RemoveEndsExact(r.components[row.sourceComponent].bindings, Halves(r.bindings, row.sourceComponent), row,
      row.sourceComponent);
    RemoveEndsExact(r.components[row.targetComponent].bindings, Halves(r.bindings, row.targetComponent), row,
      row.targetComponent);
  }

  lemma EndsInHalves(bindings: map<string, Binding>, id: string, c: string)
    requires id in bindings
    ensures EndsAt(bindings[id], id, c) <= Halves(bindings, c)
  {
    forall h | h in EndsAt(bindings[id], id, c) ensures h in Halves(bindings, c) {
      InHalves(bindings, c, h);
    }
  }

  lemma ClearBindingIndexes(r: Rows, s: Rows, id: string)
    requires BindingRemovable(r, id) && s == ClearBindingRows(r, id)
    ensures s.components.Keys == r.components.Keys
    ensures forall c :: c in s.components ==>
      s.components[c] == r.components[c].(bindings := RemoveEnds(r.components[c].bindings, r.bindings[id], c))
  {
    hide ViewOf, ArrayRemove, IndexRemove, WithViewBindings, ViewBindings;
    ViewIgnoresBindings(r, r, ViewOf(id), ArrayRemove(ViewBindings(r, ViewOf(id)), id));
  }

  lemma ClearBindingLists(r: Rows, s: Rows, id: string)
    requires BindingRemovable(r, id) && s == ClearBindingRows(r, id)
    ensures s == WithViewBindings(r, ViewOf(id),
      ArrayRemove(ViewBindings(r, ViewOf(id)), id)).(components := s.components, bindings := s.bindings)
    ensures s.bindings == r.bindings - {id}
  {
    hide ViewOf, ArrayRemove, IndexRemove;
  }

  lemma ClearBindingWritten(r: Rows, s: Rows, id: string)
    requires BindingRemovable(r, id) && !(ViewOf(id) in r.projects && ViewOf(id) in r.templates)
    requires BindingIndexExact(r.components, r.bindings) && s == ClearBindingRows(r, id)
    ensures BindingCleared(r, s, id)
  {
    hide ViewOf, ArrayRemove, IndexIs, Halves, RemoveEnds, EndsAt, ClearBindingRows, WithViewBindings, ViewBindings,
         OnlyIndexes, BindingListAt,
         IndexRemove;
    ClearBindingIndexes(r, s, id);
    ClearBindingLists(r, s, id);
    OnlyIndexesWritten(r, s, ViewOf(id), ArrayRemove(ViewBindings(r, ViewOf(id)), id));
    forall c | c in s.components ensures IndexIs(s.components[c].bindings,
      Halves(r.bindings, c) - EndsAt(r.bindings[id], id, c)) {
      EndsInHalves(r.bindings, id, c);
      RemoveEndsExact(r.components[c].bindings, Halves(r.bindings, c), r.bindings[id], c);
    }
  }

  lemma ClearBindingDone(r: Rows, s: Rows, k: Content, id: string)
    requires Exact(r) && Represents(r, k) && BindingRemovable(r, id) && s == ClearBindingRows(r, id)
    ensures Exact(s) && Represents(s, k.(bindings := k.bindings - {id}))
  {
    hide ViewOf, Represents, ComponentListsExact, BindingListsExact, UsageExact, TabListsExact, InstancesExact,
         BindingIndexExact,
         TemplatesIdentified, InstancesIdentified, PluginsIdentified, ProjectsIdentified, BindingsIdentified,
           ComponentsIdentified,
         ClearBindingRows, OnlyIndexes, BindingListAt, IndexIs, Halves, EndsAt, IndexRemove;
    ProjectOrTemplate(r, ViewOf(id));
    ClearBindingWritten(r, s, id);
    ClearBindingExact(r, s, id);
    BindingClearedContent(r, s, k, id);
  }

  // ----- the unregistering loop of clear-core-template -----

  /** Only usage lists differ. */
  ghost predicate OnlyUsage(r: Rows, s: Rows) {
    && s.projects == r.projects && s.instances == r.instances && s.components == r.components
      && s.bindings == r.bindings
    && s.plugins.Keys == r.plugins.Keys && s.templates.Keys == r.templates.Keys
    && (forall p :: p in s.plugins ==> s.plugins[p].(usageComponents := []) == r.plugins[p].(usageComponents := []))
    && (forall t :: t in s.templates ==>
      s.templates[t].(usageComponents := []) == r.templates[t].(usageComponents := []))
  }

  lemma OnlyUsageStep(r: Rows, m: Rows, s: Rows, d: Definition, users: seq<string>)
    requires OnlyUsage(r, m) && DefinitionExists(m, d) && s == WithUsage(m, d, users)
    ensures OnlyUsage(r, s)
  {}

  /** A component that is not unregistered yet is still listed by its definition. */
  lemma StillListed(m: Rows, left: map<string, Component>, id: string)
    requires id in left && DefinitionExists(m, left[id].definition) && UsageExact(m.plugins, m.templates, left)
    ensures id in Usage(m, left[id].definition)
  {
    hide Ascending;
    assert id in Users(left, left[id].definition);
    assert Lists(Usage(m, left[id].definition), Users(left, left[id].definition));
  }

  lemma UnregisterStep(m: Rows, s: Rows, components: map<string, Component>, id: string)
    requires id in components && DefinitionExists(m, components[id].definition)
    requires UsageExact(m.plugins, m.templates, components)
    requires s == WithUsage(m, components[id].definition, ArrayRemove(Usage(m, components[id].definition), id))
    ensures UsageExact(s.plugins, s.templates, components - {id})
  {
    hide UsageExact, ArrayRemove, SameFrame, SameData, SameBindingLists, SameComponentLists, UsageAt, WithUsage;
    var d := components[id].definition;
    UsageWritten(m, s, d, ArrayRemove(Usage(m, d), id));
    var m' := m.(components := components);
    assert UsageAt(m', s, d,
      ArrayRemove(Usage(m', d), id)) by { UsageAtIgnoresComponents(m, m', s, d, ArrayRemove(Usage(m, d), id)); }
    ComponentClearedUsage(m', s, id);
  }

  lemma UsageAtIgnoresComponents(m: Rows, m': Rows, s: Rows, d: Definition, users: seq<string>)
    requires UsageAt(m, s, d, users) && m' == m.(components := m'.components)
    ensures UsageAt(m', s, d, users)
  {}

  /** The whole of `clear-core-template`: unregister the components, then drop them, the bindings and the template. */
  lemma TemplateClearedWritten(r: Rows, m: Rows, s: Rows, tab: string, id: string)
    requires tab in r.projects && id in r.templates && OnlyUsage(r, m)
    requires UsageExact(m.plugins, m.templates, r.components - InView(r.components.Keys, id))
    requires var p := r.projects[tab];
             s == Rows(r.projects[tab := p.(templates := ArrayRemove(p.templates, id),
                                            activeTemplate := if p.activeTemplate == id then "" else p.activeTemplate)],
                       m.instances, m.plugins, m.templates - {id},
                       m.components - InView(r.components.Keys, id), m.bindings - InView(r.bindings.Keys, id))
    ensures TemplateCleared(r, s, tab, id)
  {
    hide InView, ArrayRemove, Lists, Users;
  }

  lemma ComponentDefinitionsExist(r: Rows, m: Rows, c: string)
    requires Exact(r) && OnlyUsage(r, m) && c in r.components
    ensures DefinitionExists(m, r.components[c].definition)
  {
    hide TabListsExact, ComponentListsExact, BindingListsExact, UsageExact, InstancesExact, BindingIndexExact, ViewOf,
         ExtractIdsWithTemplate,
         BindingsIdentified, InstancesIdentified, PluginsIdentified, ProjectsIdentified, TemplatesIdentified;
  }

  /** What the store knows of a template in it. */
  lemma TemplateLists(r: Rows, id: string)
    requires Exact(r) && id in r.templates
    ensures Lists(r.templates[id].components, InView(r.components.Keys, id))
    ensures Lists(r.templates[id].bindings, InView(r.bindings.Keys, id))
    ensures TabOf(id) in r.projects && r.templates[id].id == id && id !in r.projects
  {
    hide TabListsExact, UsageExact, InstancesExact, BindingIndexExact, InView, TabOf, Lists,
         BindingsIdentified, InstancesIdentified, PluginsIdentified, ComponentsIdentified;
    ProjectOrTemplate(r, id);
  }

  lemma ListedDistinct(list: seq<string>, ids: set<string>)
    requires Lists(list, ids)
    ensures Elements(list) == ids && forall i, j :: 0 <= i < j < |list| ==> list[i] != list[j]
  {
    hide Below;
    forall i, j | 0 <= i < j < |list| ensures list[i] != list[j] {
      AscendingDistinct(list, i, j);
    }
  }

  lemma StoredTemplate(r: Rows, id: string)
    requires Exact(r) && id in r.templates
    ensures TabOf(id) in r.projects && id !in r.projects
    ensures Elements(r.templates[id].components) == InView(r.components.Keys, id)
    ensures Elements(r.templates[id].bindings) == InView(r.bindings.Keys, id)
    ensures forall i, j :: 0 <= i < j < |r.templates[id].components| ==>
      r.templates[id].components[i] != r.templates[id].components[j]
    ensures (forall c :: c in r.templates[id].components ==> c in r.components) && r.templates[id].id == id
  {
    assert InView(r.components.Keys, id) <= r.components.Keys;
    hide Exact, TabOf, InView, Lists;
    TemplateLists(r, id);
    ListedDistinct(r.templates[id].components, InView(r.components.Keys, id));
    ListedDistinct(r.templates[id].bindings, InView(r.bindings.Keys, id));
  }

  lemma ClearTemplateDone(r: Rows, s: Rows, k: Content, tab: string, id: string)
    requires Exact(r) && Represents(r, k) && tab in r.projects && id in r.templates && TabOf(id) == tab
    requires TemplateCleared(r, s, tab, id)
    ensures Exact(s) <==> Users(r.components, TemplateDef(id)) <= InView(r.components.Keys, id)
    ensures tab in k.tabs
    ensures Represents(s, Content(
              ClearedTabs(k.tabs, tab, id), k.plugins, k.templates - {id},
              k.components - InView(k.components.Keys, id), k.bindings - InView(k.bindings.Keys, id)))
  {
    assert tab in k.tabs;
    hide Exact, Represents, TabOf, Users, InView;
    ClearTemplateExact(r, s, tab, id);
    TemplateClearedContent(r, s, k, tab, id);
  }

  // ----- plugins -----

  lemma PluginSetDone(
      r: Rows, s: Rows, k: Content, tab: string, id: string, instanceId: string, instanceName: string, data: PluginData)
    requires Exact(r) && Represents(r, k) && tab in r.projects
    requires PluginSet(r, s, tab, id, instanceId, instanceName, data)
    requires TabOf(id) == tab && TabOf(instanceId) == tab && instanceId == TabScoped(tab, instanceName)
    ensures Exact(s) <==> (id in r.plugins ==> r.plugins[id].instance == instanceId)
    ensures Represents(s, k.(plugins := k.plugins[id := PluginContent(instanceId, data)]))
  {
    hide Exact, Represents, TabOf, PluginSet;
    SetPluginExact(r, s, tab, id, instanceId, instanceName, data);
    PluginSetContent(r, s, k, tab, id, instanceId, instanceName, data);
  }

  /** In an exact store, adding to a list what is already a row changes nothing. */
  lemma ListedInTab(r: Rows, tab: string, id: string)
    requires Exact(r) && tab in r.projects && TabOf(id) == tab
    ensures id in r.projects[tab].instances <==> id in r.instances
    ensures id in r.projects[tab].plugins <==> id in r.plugins
    ensures id in r.projects[tab].templates <==> id in r.templates
  {
    hide ComponentListsExact, BindingListsExact, UsageExact, InstancesExact, BindingIndexExact, TabOf, Ascending,
         Identified;
    var p := r.projects[tab];
    assert Lists(p.instances, InTab(r.instances.Keys, tab)) && Lists(p.plugins, InTab(r.plugins.Keys, tab))
      && Lists(p.templates, InTab(r.templates.Keys, tab));
  }

  lemma PluginListed(r: Rows, id: string)
    requires Exact(r) && id in r.plugins
    ensures r.plugins[id].instance in r.instances && id in r.instances[r.plugins[id].instance].plugins
  {
    hide TabListsExact, ComponentListsExact, BindingListsExact, UsageExact, BindingIndexExact, Ascending, TabOf,
         ComponentsIdentified, BindingsIdentified, TemplatesIdentified, ProjectsIdentified;
    var i := r.plugins[id].instance;
    assert id in PluginsOf(r.plugins, i);
    assert Lists(r.instances[i].plugins, PluginsOf(r.plugins, i));
  }

  /** What the store knows of a plugin in it. */
  lemma StoredPlugin(r: Rows, id: string)
    requires Exact(r) && id in r.plugins
    ensures r.plugins[id].id == id && r.plugins[id].instance in r.instances
    ensures TabOf(r.plugins[id].instance) == TabOf(id)
    ensures r.instances[r.plugins[id].instance].id == r.plugins[id].instance
    ensures id in r.instances[r.plugins[id].instance].plugins
    ensures r.plugins[id].usageComponents == [] <==> Users(r.components, PluginDef(id)) == {}
  {
    assert UsageExact(r.plugins, r.templates, r.components);
    ListsEmpty(r.plugins[id].usageComponents, Users(r.components, PluginDef(id)));
    PluginListed(r, id);
    hide TabListsExact, ComponentListsExact, BindingListsExact, UsageExact, InstancesExact, BindingIndexExact, TabOf,
         Users,
         ComponentsIdentified, BindingsIdentified, TemplatesIdentified, ProjectsIdentified;
  }

  lemma ClearPluginDone(r: Rows, s: Rows, k: Content, tab: string, id: string)
    requires Exact(r) && Represents(r, k) && tab in r.projects && id in r.plugins
    requires r.plugins[id].instance in r.instances
    requires PluginCleared(r, s, tab, id) && TabOf(id) == tab && TabOf(r.plugins[id].instance) == tab
    requires r.plugins[id].usageComponents == []
    ensures Exact(s) && Represents(s, k.(plugins := k.plugins - {id}))
  {
    hide Exact, Represents, TabOf, PluginCleared;
    ClearPluginExact(r, s, tab, id);
    PluginClearedContent(r, s, k, tab, id);
  }

  lemma NewTabDone(r: Rows, s: Rows, k: Content, tab: string)
    requires Exact(r) && Represents(r, k) && tab !in r.projects && Free(tab, ':')
    requires s == r.(projects := r.projects[tab := Project(tab, [], [], [], [], [], "")])
    ensures Exact(s) && Represents(s, k.(tabs := k.tabs[tab := ""]))
  {
    hide Exact, Represents, Free;
    ColonFreeIsNoTemplate(r, tab);
    NewTabExact(r, s, tab);
    NewTabContent(r, s, k, tab);
  }

  lemma ColonFreeIsNoTemplate(r: Rows, tab: string)
    requires Exact(r) && Free(tab, ':')
    ensures tab !in r.templates
  {
    hide TabListsExact, ComponentListsExact, BindingListsExact, UsageExact, InstancesExact, BindingIndexExact, TabOf,
         ComponentsIdentified, BindingsIdentified, InstancesIdentified, PluginsIdentified, ProjectsIdentified;
    forall t | t in r.templates ensures !Free(t, ':') {
      assert t[|TabOf(t)|] == ':';
    }
  }
}
