/**
 Why the changes behind each project update (`applyProjectUpdate`) keep the store
 exact. Where an update can leave an index stale or a reference dangling, the
 lemma gives the condition under which it does not, in both directions.
 */
module StoreUpdates {
  import opened ReducerTools
  import opened DesignerIds
  import opened CoreStore
  import opened StoreSteps

  function ViewComponents(r: Rows, view: string): seq<string>
    requires IsView(r, view)
  {
    if view in r.projects then r.projects[view].components else r.templates[view].components
  }

  function ViewBindings(r: Rows, view: string): seq<string>
    requires IsView(r, view)
  {
    if view in r.projects then r.projects[view].bindings else r.templates[view].bindings
  }

  function Usage(r: Rows, d: Definition): seq<string>
    requires DefinitionExists(r, d)
  {
    match d
    case PluginDef(id) => r.plugins[id].usageComponents
    case TemplateDef(id) => r.templates[id].usageComponents
  }

  // ----- frames -----

  lemma FrameOfExact(r: Rows)
    requires Exact(r)
    ensures FrameExact(r)
  {}

  lemma BindingListsSame(r: Rows, s: Rows, ids: set<string>)
    requires SameBindingLists(r, s) && BindingListsExact(r.projects, r.templates, ids)
    ensures BindingListsExact(s.projects, s.templates, ids)
  {
    hide Lists, InView;
  }

  lemma ComponentListsSame(r: Rows, s: Rows, ids: set<string>)
    requires SameComponentLists(r, s) && ComponentListsExact(r.projects, r.templates, ids)
    ensures ComponentListsExact(s.projects, s.templates, ids)
  {
    hide Lists, InView;
  }

  lemma UsageSame(r: Rows, s: Rows, components: map<string, Component>)
    requires SameUsage(r, s) && UsageExact(r.plugins, r.templates, components)
    ensures UsageExact(s.plugins, s.templates, components)
  {
    hide Lists, Users;
  }

  lemma SameFrameComponent(r: Rows, s: Rows, c: string, row: Component)
    requires SameKeys(r, s)
    ensures ComponentIdentified(r, c, row) <==> ComponentIdentified(s, c, row)
  {
    hide ViewOf, ExtractIdsWithTemplate;
  }

  lemma BindingsStillIdentified(r: Rows, s: Rows)
    requires SameKeys(r, s) && BindingsIdentified(r) && s.bindings == r.bindings
    requires r.components.Keys <= s.components.Keys
    ensures BindingsIdentified(s)
  {
    hide ViewOf;
  }

  // ----- set-core-component -----

  ghost predicate ComponentSet(r: Rows, s: Rows, id: string, row: Component)
    requires IsView(r, ViewOf(id)) && DefinitionExists(r, row.definition)
  {
    && SameFrame(r, s) && SameData(r, s) && SameBindingLists(r, s) && s.bindings == r.bindings
    && ComponentListAt(r, s, ViewOf(id), ArraySet(ViewComponents(r, ViewOf(id)), id))
    && UsageAt(r, s, row.definition, ArraySet(Usage(r, row.definition), id))
    && s.components == r.components[id := row]
  }

  lemma ComponentSetLists(r: Rows, s: Rows, id: string)
    requires IsView(r, ViewOf(id)) && ComponentListsExact(r.projects, r.templates, r.components.Keys)
    requires ComponentListAt(r, s, ViewOf(id), ArraySet(ViewComponents(r, ViewOf(id)), id))
    ensures ComponentListsExact(s.projects, s.templates, r.components.Keys + {id})
  {
    hide Lists, InView, ViewOf, ArraySet;
    var ids := r.components.Keys;
    ArraySetLists(ViewComponents(r, ViewOf(id)), InView(ids, ViewOf(id)), id);
    forall w ensures InView(ids + {id}, w) == if ViewOf(id) == w then InView(ids, w) + {id} else InView(ids, w) {
      InViewAdd(ids, id, w);
    }
    ComponentListsAfter(r, s, ViewOf(id), ArraySet(ViewComponents(r, ViewOf(id)), id), ids, ids + {id});
  }

  lemma ComponentSetUsage(r: Rows, s: Rows, id: string, row: Component)
    requires DefinitionExists(r, row.definition) && UsageExact(r.plugins, r.templates, r.components)
    requires UsageAt(r, s, row.definition, ArraySet(Usage(r, row.definition), id))
    requires id in r.components ==> r.components[id].definition == row.definition
    ensures UsageExact(s.plugins, s.templates, r.components[id := row])
  {
    forall e ensures Users(r.components[id := row], e) ==
                     if row.definition == e then Users(r.components, e) + {id} else Users(r.components, e) {
      UsersSet(r.components, id, row, e);
    }
    hide Lists, Users, ArraySet;
    ArraySetLists(Usage(r, row.definition), Users(r.components, row.definition), id);
    UsageAfter(r, s, row.definition, ArraySet(Usage(r, row.definition), id), r.components, r.components[id := row]);
  }

  /** A component re-sent with another definition stays listed under the old one. */
  lemma ComponentSetStale(r: Rows, s: Rows, id: string, row: Component)
    requires DefinitionExists(r, row.definition) && UsageExact(r.plugins, r.templates, r.components)
    requires UsageAt(r, s, row.definition, ArraySet(Usage(r, row.definition), id))
    requires id in r.components && r.components[id].definition != row.definition
    requires DefinitionExists(r, r.components[id].definition)
    ensures !UsageExact(s.plugins, s.templates, r.components[id := row])
  {
    hide ArraySet, Ascending;
    var d := r.components[id].definition;
    assert id in Users(r.components, d);
    assert Lists(Usage(r, d), Users(r.components, d));
    assert id in Usage(r, d);
    assert Usage(s, d) == Usage(r, d);
    UsersSet(r.components, id, row, d);
    assert !Lists(Usage(s, d), Users(r.components[id := row], d));
  }

  lemma ComponentSetIdentified(r: Rows, s: Rows, id: string, row: Component)
    requires SameKeys(r, s) && ComponentsIdentified(r) && ComponentIdentified(r, id, row)
    requires s.components == r.components[id := row]
    ensures ComponentsIdentified(s)
  {
    hide ComponentIdentified;
    forall c | c in s.components ensures ComponentIdentified(s, c, s.components[c]) {
      SameFrameComponent(r, s, c, s.components[c]);
    }
  }

  lemma ComponentSetIndex(r: Rows, s: Rows, id: string, row: Component)
    requires BindingIndexExact(r.components, r.bindings) && IndexIs(row.bindings, Halves(r.bindings, id))
    requires s.components == r.components[id := row] && s.bindings == r.bindings
    ensures BindingIndexExact(s.components, s.bindings)
  {
    hide IndexIs, Halves;
  }

  lemma ComponentSetContent(r: Rows, s: Rows, k: Content, id: string, row: Component)
    requires Represents(r, k) && SameData(r, s) && s.components == r.components[id := row] && s.bindings == r.bindings
    ensures Represents(s, k.(components := k.components[id := ComponentContent(row.definition, row.config)]))
  {
    SameDataContent(r, s, k);
    hide SameData, TabsAre, PluginsAre, TemplatesAre, BindingsAre;
  }

  lemma DefinitionOf(r: Rows, c: string)
    requires ComponentsIdentified(r) && c in r.components
    ensures DefinitionExists(r, r.components[c].definition)
  {
    hide ViewOf, ExtractIdsWithTemplate;
  }

  /**
   `set-core-component` keeps the store exact if and only if the component is new
   or keeps its definition.
   */
  lemma SetComponentExact(r: Rows, s: Rows, id: string, row: Component)
    requires Exact(r) && ComponentIdentified(r, id, row) && IndexIs(row.bindings, Halves(r.bindings, id))
    requires ComponentSet(r, s, id, row)
    ensures Exact(s) <==> (id in r.components ==> r.components[id].definition == row.definition)
  {
    hide ComponentListsExact, BindingListsExact, UsageExact, Lists, IndexIs, Halves, ViewOf, ExtractIdsWithTemplate,
         ArraySet,
         TabListsExact, InstancesExact, TemplatesIdentified, InstancesIdentified, PluginsIdentified, ProjectsIdentified,
         BindingsIdentified, ComponentsIdentified, BindingIndexExact, ComponentListAt, UsageAt, SameBindingLists,
         ViewComponents, Usage, SameData;
    FrameOfExact(r);
    SameFrameExact(r, s);
    BindingListsSame(r, s, r.bindings.Keys);
    ComponentSetLists(r, s, id);
    assert s.components.Keys == r.components.Keys + {id};
    ComponentSetIdentified(r, s, id, row);
    BindingsStillIdentified(r, s);
    ComponentSetIndex(r, s, id, row);
    if id in r.components ==> r.components[id].definition == row.definition {
      ComponentSetUsage(r, s, id, row);
    } else {
      DefinitionOf(r, id);
      ComponentSetStale(r, s, id, row);
    }
  }

  // ----- clear-core-component -----

  ghost predicate ComponentCleared(r: Rows, s: Rows, id: string)
    requires id in r.components && IsView(r, ViewOf(id)) && DefinitionExists(r, r.components[id].definition)
  {
    var d := r.components[id].definition;
    && SameFrame(r, s) && SameData(r, s) && SameBindingLists(r, s) && s.bindings == r.bindings
    && ComponentListAt(r, s, ViewOf(id), ArrayRemove(ViewComponents(r, ViewOf(id)), id))
    && UsageAt(r, s, d, ArrayRemove(Usage(r, d), id))
    && s.components == r.components - {id}
  }

  lemma ComponentClearedLists(r: Rows, s: Rows, id: string)
    requires id in r.components && IsView(r, ViewOf(id))
    requires ComponentListsExact(r.projects, r.templates, r.components.Keys)
    requires ComponentListAt(r, s, ViewOf(id), ArrayRemove(ViewComponents(r, ViewOf(id)), id))
    ensures ComponentListsExact(s.projects, s.templates, r.components.Keys - {id})
  {
    var ids := r.components.Keys;
    assert id in InView(ids, ViewOf(id));
    hide Lists, InView, ViewOf, ArrayRemove;
    ArrayRemoveExactly(ViewComponents(r, ViewOf(id)), InView(ids, ViewOf(id)), id);
    forall w ensures InView(ids - {id}, w) == if ViewOf(id) == w then InView(ids, w) - {id} else InView(ids, w) {
      InViewRemove(ids, id, w);
    }
    ComponentListsAfter(r, s, ViewOf(id), ArrayRemove(ViewComponents(r, ViewOf(id)), id), ids, ids - {id});
  }

  lemma ComponentClearedUsage(r: Rows, s: Rows, id: string)
    requires id in r.components && DefinitionExists(r, r.components[id].definition)
    requires UsageExact(r.plugins, r.templates, r.components)
    requires UsageAt(r, s, r.components[id].definition, ArrayRemove(Usage(r, r.components[id].definition), id))
    ensures UsageExact(s.plugins, s.templates, r.components - {id})
  {
    var d := r.components[id].definition;
    assert id in Users(r.components, d);
    forall e ensures Users(r.components - {id}, e) ==
      if e == d then Users(r.components, e) - {id} else Users(r.components, e) {
      UsersRemove(r.components, id, e);
    }
    hide Lists, Users, ArrayRemove;
    ArrayRemoveExactly(Usage(r, d), Users(r.components, d), id);
    UsageAfter(r, s, d, ArrayRemove(Usage(r, d), id), r.components, r.components - {id});
  }

  lemma ComponentsStillIdentified(r: Rows, s: Rows)
    requires SameKeys(r, s) && ComponentsIdentified(r)
    requires forall c :: c in s.components ==>
      c in r.components && s.components[c].(bindings := map[]) == r.components[c].(bindings := map[])
    ensures ComponentsIdentified(s)
  {
    hide ViewOf, ExtractIdsWithTemplate;
  }

  /** Without a binding end at the component, clearing it leaves no dangling binding; with one, it does. */
  lemma ClearedBindings(r: Rows, s: Rows, id: string)
    requires SameKeys(r, s) && BindingsIdentified(r) && s.bindings == r.bindings
    requires id !in s.components && r.components.Keys - {id} <= s.components.Keys
    ensures BindingsIdentified(s) <==> Halves(r.bindings, id) == {}
  {
    hide ViewOf;
    if Halves(r.bindings, id) == {} {
      forall b | b in r.bindings ensures r.bindings[b].sourceComponent != id && r.bindings[b].targetComponent != id {
        assert (b, r.bindings[b].sourceState) !in Halves(r.bindings, id);
        assert (b, r.bindings[b].targetAction) !in Halves(r.bindings, id);
      }
    } else {
      var h :| h in Halves(r.bindings, id);
      assert !BindingIdentified(s, h.0, s.bindings[h.0]);
    }
  }

  lemma ComponentClearedIndex(r: Rows, s: Rows, id: string)
    requires BindingIndexExact(r.components, r.bindings) && s.components == r.components - {id}
    requires s.bindings == r.bindings
    ensures BindingIndexExact(s.components, s.bindings)
  {
    hide IndexIs, Halves;
  }

  lemma ComponentClearedContent(r: Rows, s: Rows, k: Content, id: string)
    requires Represents(r, k) && SameData(r, s) && s.components == r.components - {id} && s.bindings == r.bindings
    ensures Represents(s, k.(components := k.components - {id}))
  {
    SameDataContent(r, s, k);
    hide SameData, TabsAre, PluginsAre, TemplatesAre, BindingsAre;
  }

  /** `clear-core-component` keeps the store exact if and only if no binding ends at the component. */
  lemma ClearComponentExact(r: Rows, s: Rows, id: string)
    requires Exact(r) && id in r.components && IsView(r, ViewOf(id)) && DefinitionExists(r, r.components[id].definition)
    requires ComponentCleared(r, s, id)
    ensures Exact(s) <==> Halves(r.bindings, id) == {}
  {
    hide ComponentListsExact, BindingListsExact, UsageExact, Lists, IndexIs, Halves, ViewOf, ExtractIdsWithTemplate,
         ArrayRemove,
         TabListsExact, InstancesExact, TemplatesIdentified, InstancesIdentified, PluginsIdentified, ProjectsIdentified,
         BindingsIdentified, ComponentsIdentified, BindingIndexExact, ComponentListAt, UsageAt, SameBindingLists,
         ViewComponents, Usage, SameData;
    FrameOfExact(r);
    SameFrameExact(r, s);
    BindingListsSame(r, s, r.bindings.Keys);
    ComponentClearedLists(r, s, id);
    assert s.components.Keys == r.components.Keys - {id};
    ComponentsStillIdentified(r, s);
    ComponentClearedIndex(r, s, id);
    ComponentClearedUsage(r, s, id);
    ClearedBindings(r, s, id);
  }

  // ----- rename-core-component -----

  /** What the second half of a rename writes: the view list gains the id even if it is there. */
  ghost predicate ComponentAdded(r: Rows, s: Rows, id: string, row: Component)
    requires IsView(r, ViewOf(id)) && DefinitionExists(r, row.definition)
  {
    && SameFrame(r, s) && SameData(r, s) && SameBindingLists(r, s) && s.bindings == r.bindings
    && ComponentListAt(r, s, ViewOf(id), ArrayAdd(ViewComponents(r, ViewOf(id)), id, true))
    && UsageAt(r, s, row.definition, ArraySet(Usage(r, row.definition), id))
    && s.components == r.components[id := row]
  }

  lemma AddedIsSet(r: Rows, s: Rows, id: string, row: Component)
    requires IsView(r, ViewOf(id)) && DefinitionExists(r, row.definition) && ComponentAdded(r, s, id, row)
    requires id !in ViewComponents(r, ViewOf(id))
    ensures ComponentSet(r, s, id, row)
  {
    hide SameFrame, SameData, SameBindingLists, UsageAt, ViewOf, ArrayAdd;
  }

  /** After the first half the view lists what it did, without the component. */
  lemma ListedAfterClear(r: Rows, mid: Rows, id: string, newId: string)
    requires Exact(r) && id in r.components
    requires IsView(r, ViewOf(id)) && DefinitionExists(r, r.components[id].definition) && ComponentCleared(r, mid, id)
    requires ViewOf(newId) == ViewOf(id)
    ensures SameKeys(r, mid) && IsView(mid, ViewOf(id)) && DefinitionExists(mid, r.components[id].definition)
    ensures newId in ViewComponents(mid, ViewOf(id)) <==> newId in r.components && newId != id
  {
    hide ViewOf, UsageAt, SameBindingLists, SameData, Ascending, SameFrame, ArrayRemove, TabListsExact,
         BindingListsExact, UsageExact, BindingIndexExact, InstancesExact, Identified;
    var list, ids := ViewComponents(r, ViewOf(id)), InView(r.components.Keys, ViewOf(id));
    assert Lists(list, ids) && id in ids;
    ArrayRemoveExactly(list, ids, id);
    assert ViewComponents(mid, ViewOf(id)) == ArrayRemove(list, id);
  }

  lemma NoHalvesWithoutComponent(r: Rows, id: string)
    requires BindingsIdentified(r) && id !in r.components
    ensures Halves(r.bindings, id) == {}
  {
    hide ViewOf;
    assert forall b :: b in r.bindings ==> r.bindings[b].sourceComponent != id && r.bindings[b].targetComponent != id;
  }

  lemma EmptyIndex(index: map<string, seq<string>>, halves: set<(string, string)>)
    requires IndexIs(index, halves) && halves == {}
    ensures index == map[]
  {
    hide Lists;
    forall m ensures m !in index { assert At(halves, m) == {}; }
    assert index.Keys == {};
  }

  lemma RenameSteps(r: Rows, mid: Rows, s: Rows, id: string, newId: string, row: Component)
    requires id in r.components && IsView(r, ViewOf(id)) && DefinitionExists(r, r.components[id].definition)
    requires newId !in r.components && ComponentIdentified(mid, newId, row)
    requires ComponentCleared(r, mid, id) && ComponentSet(mid, s, newId, row)
    ensures SameKeys(r, s) && s.bindings == r.bindings == mid.bindings
    ensures mid.components == r.components - {id} && s.components == mid.components[newId := row]
    ensures SameData(mid, s)
  {
    hide ViewOf, ExtractIdsWithTemplate, ArraySet, ArrayRemove, SameBindingLists, ComponentListAt, UsageAt, SameData;
  }

  lemma IndexOfComponent(r: Rows, id: string)
    requires BindingIndexExact(r.components, r.bindings) && id in r.components
    ensures IndexIs(r.components[id].bindings, Halves(r.bindings, id))
  {}

  lemma RenameToFresh(r: Rows, mid: Rows, s: Rows, id: string, newId: string, row: Component)
    requires Exact(r) && id in r.components && IsView(r, ViewOf(id)) && DefinitionExists(r, r.components[id].definition)
    requires newId !in r.components && ComponentIdentified(r, newId, row) && ViewOf(newId) == ViewOf(id)
    requires row.bindings == r.components[id].bindings && row.definition == r.components[id].definition
    requires ComponentCleared(r, mid, id)
    requires ComponentIdentified(mid, newId, row) && ComponentSet(mid, s, newId, row)
    ensures Exact(s) <==> Halves(r.bindings, id) == {}
  {
    hide ComponentListsExact, BindingListsExact, UsageExact, Lists, Halves, ViewOf, ExtractIdsWithTemplate,
         TabListsExact, InstancesExact, TemplatesIdentified, InstancesIdentified, PluginsIdentified, ProjectsIdentified,
         ComponentSet, ComponentCleared, ComponentIdentified, SameKeys, SameData, IsView, DefinitionExists,
         ComponentsIdentified, BindingsIdentified, BindingIndexExact;
    RenameSteps(r, mid, s, id, newId, row);
    ClearComponentExact(r, mid, id);
    NoHalvesWithoutComponent(r, newId);
    if Halves(r.bindings, id) == {} {
      IndexOfComponent(r, id);
      EmptyIndex(row.bindings, Halves(r.bindings, id));
      SetComponentExact(mid, s, newId, row);
    } else {
      ClearedBindings(r, s, id);
    }
  }

  lemma RenameToSame(r: Rows, mid: Rows, s: Rows, id: string, row: Component)
    requires Exact(r) && id in r.components && IsView(r, ViewOf(id)) && DefinitionExists(r, r.components[id].definition)
    requires row == r.components[id] && ComponentCleared(r, mid, id)
    requires IsView(mid, ViewOf(id)) && DefinitionExists(mid, row.definition) && ComponentSet(mid, s, id, row)
    ensures Exact(s)
  {
    hide ComponentListsExact, BindingListsExact, UsageExact, Lists, ViewOf, ExtractIdsWithTemplate, ArraySet,
         TabListsExact, InstancesExact, TemplatesIdentified, InstancesIdentified, PluginsIdentified, ProjectsIdentified,
         BindingsIdentified, ComponentsIdentified, BindingIndexExact, ComponentListAt, UsageAt, SameBindingLists,
         ViewComponents, Usage, SameData, ArrayRemove, SameFrame;
    var keys := r.components.Keys;
    assert mid.components.Keys == keys - {id} && keys - {id} + {id} == keys;
    assert s.components == r.components;
    FrameOfExact(r);
    SameFrameExact(r, mid);
    SameFrameExact(mid, s);
    BindingListsSame(r, mid, r.bindings.Keys);
    BindingListsSame(mid, s, r.bindings.Keys);
    ComponentClearedLists(r, mid, id);
    ComponentSetLists(mid, s, id);
    ComponentClearedUsage(r, mid, id);
    ComponentSetUsage(mid, s, id, row);
    SameKeysTwice(r, mid, s);
    ComponentsStillIdentified(r, s);
    BindingsStillIdentified(r, s);
  }

  lemma SameKeysTwice(r: Rows, mid: Rows, s: Rows)
    requires SameFrame(r, mid) && SameFrame(mid, s)
    ensures SameKeys(r, s)
  {}

  /** Renamed onto another component, the id is listed twice. */
  lemma RenameOnto(mid: Rows, s: Rows, newId: string, row: Component)
    requires IsView(mid, ViewOf(newId)) && DefinitionExists(mid, row.definition)
    requires newId in ViewComponents(mid, ViewOf(newId)) && ComponentAdded(mid, s, newId, row)
    ensures !ComponentListsExact(s.projects, s.templates, s.components.Keys)
  {
    hide ViewOf, UsageAt, SameBindingLists, SameData, SameFrame, ArrayAdd, Ascending, InView;
    var view := ViewOf(newId);
    AddTwice(ViewComponents(mid, view), newId);
    assert !Lists(ViewComponents(s, view), InView(s.components.Keys, view));
  }

  /**
   `rename-core-component` takes the row out (`mid`) and puts it back under the new
   id, without rewriting bindings or looking at the row it replaces. The store stays
   exact if and only if the id stays, or is free and no binding ends at the component.
   */
  lemma RenameComponentExact(r: Rows, mid: Rows, s: Rows, id: string, newId: string, row: Component)
    requires Exact(r) && id in r.components && IsView(r, ViewOf(id)) && DefinitionExists(r, r.components[id].definition)
    requires ComponentIdentified(r, newId, row) && ViewOf(newId) == ViewOf(id)
    requires row == r.components[id].(id := newId, componentId := row.componentId)
    requires ComponentCleared(r, mid, id)
    requires ComponentIdentified(mid, newId, row) && ComponentAdded(mid, s, newId, row)
    ensures Exact(s) <==> newId == id || (newId !in r.components && Halves(r.bindings, id) == {})
  {
    assert ComponentIdentified(r, id, r.components[id]);
    hide BindingListsExact, UsageExact, Lists, Halves, ViewOf, ExtractIdsWithTemplate, TabListsExact, InstancesExact,
         TemplatesIdentified, InstancesIdentified, PluginsIdentified, ProjectsIdentified, ComponentSet, ComponentAdded,
         ComponentCleared, SameKeys, IsView, DefinitionExists, ComponentsIdentified, BindingsIdentified,
         BindingIndexExact, ComponentListsExact;
    ListedAfterClear(r, mid, id, newId);
    if newId in r.components && newId != id {
      RenameOnto(mid, s, newId, row);
    } else {
      AddedIsSet(mid, s, newId, row);
      if newId == id {
        RenameToSame(r, mid, s, id, row);
      } else {
        RenameToFresh(r, mid, s, id, newId, row);
      }
    }
  }

  // ----- set-core-binding and clear-core-binding -----

  /** The ends of a binding as (component, member) pairs. */
  function Ends(row: Binding): set<(string, string)> {
    {(row.sourceComponent, row.sourceState), (row.targetComponent, row.targetAction)}
  }

  /** The ends of a binding at one component, as its index records them. */
  function EndsAt(row: Binding, id: string, component: string): set<(string, string)> {
    (if row.sourceComponent == component then {(id, row.sourceState)} else {})
    + (if row.targetComponent == component then {(id, row.targetAction)} else {})
  }

  /** Only the binding indexes of components changed. */
  ghost predicate OnlyIndexes(r: Rows, s: Rows) {
    && SameFrame(r, s) && SameData(r, s) && SameComponentLists(r, s) && SameUsage(r, s)
    && s.components.Keys == r.components.Keys
    && forall c :: c in s.components ==> s.components[c].(bindings := map[]) == r.components[c].(bindings := map[])
  }

  ghost predicate BindingSet(r: Rows, s: Rows, id: string, row: Binding)
    requires IsView(r, ViewOf(id))
  {
    && OnlyIndexes(r, s) && s.bindings == r.bindings[id := row]
    && BindingListAt(r, s, ViewOf(id), ArraySet(ViewBindings(r, ViewOf(id)), id))
    && forall c :: c in s.components ==> IndexIs(s.components[c].bindings, Halves(r.bindings, c) + EndsAt(row, id, c))
  }

  ghost predicate BindingCleared(r: Rows, s: Rows, id: string)
    requires id in r.bindings && IsView(r, ViewOf(id))
  {
    && OnlyIndexes(r, s) && s.bindings == r.bindings - {id}
    && BindingListAt(r, s, ViewOf(id), ArrayRemove(ViewBindings(r, ViewOf(id)), id))
    && forall c :: c in s.components ==>
      IndexIs(s.components[c].bindings, Halves(r.bindings, c) - EndsAt(r.bindings[id], id, c))
  }

  lemma InHalves(bindings: map<string, Binding>, c: string, h: (string, string))
    ensures h in Halves(bindings, c) <==> h.0 in bindings && h in EndsAt(bindings[h.0], h.0, c)
  {}

  lemma HalvesAfterSet(bindings: map<string, Binding>, id: string, row: Binding, c: string)
    requires id in bindings ==> EndsAt(bindings[id], id, c) <= EndsAt(row, id, c)
    ensures Halves(bindings[id := row], c) == Halves(bindings, c) + EndsAt(row, id, c)
  {
    forall h ensures h in Halves(bindings[id := row], c) <==> h in Halves(bindings, c) + EndsAt(row, id, c) {
      InHalves(bindings, c, h);
      InHalves(bindings[id := row], c, h);
    }
  }

  lemma HalvesAfterRemove(bindings: map<string, Binding>, id: string, c: string)
    requires id in bindings
    ensures Halves(bindings - {id}, c) == Halves(bindings, c) - EndsAt(bindings[id], id, c)
  {
    forall h ensures h in Halves(bindings - {id}, c) <==> h in Halves(bindings, c) - EndsAt(bindings[id], id, c) {
      InHalves(bindings, c, h);
      InHalves(bindings - {id}, c, h);
    }
  }

  /** The index of a component tells its binding ends. */
  lemma IndexTells(index: map<string, seq<string>>, halves: set<(string, string)>, h: (string, string))
    requires IndexIs(index, halves)
    ensures h in halves <==> h.1 in index && h.0 in index[h.1]
  {
    assert h in halves <==> h.0 in At(halves, h.1);
  }

  lemma EndsAtSubset(a: Binding, b: Binding, id: string, c: string)
    requires Ends(a) <= Ends(b)
    ensures EndsAt(a, id, c) <= EndsAt(b, id, c)
  {
    forall h | h in EndsAt(a, id, c) ensures h in EndsAt(b, id, c) {
      assert (c, h.1) in Ends(a);
    }
  }

  lemma BindingSetIndex(r: Rows, s: Rows, id: string, row: Binding)
    requires s.bindings == r.bindings[id := row] && (id in r.bindings ==> Ends(r.bindings[id]) <= Ends(row))
    requires forall c :: c in s.components ==>
      IndexIs(s.components[c].bindings, Halves(r.bindings, c) + EndsAt(row, id, c))
    ensures BindingIndexExact(s.components, s.bindings)
  {
    hide IndexIs, Halves, EndsAt;
    forall c | c in s.components ensures IndexIs(s.components[c].bindings, Halves(s.bindings, c)) {
      if id in r.bindings { EndsAtSubset(r.bindings[id], row, id, c); }
      HalvesAfterSet(r.bindings, id, row, c);
    }
  }

  /** A binding re-sent with another end stays indexed at the old one. */
  lemma BindingSetStale(r: Rows, s: Rows, id: string, row: Binding)
    requires s.bindings == r.bindings[id := row] && id in r.bindings && !(Ends(r.bindings[id]) <= Ends(row))
    requires r.bindings[id].sourceComponent in s.components && r.bindings[id].targetComponent in s.components
    requires forall c :: c in s.components ==>
      IndexIs(s.components[c].bindings, Halves(r.bindings, c) + EndsAt(row, id, c))
    ensures !BindingIndexExact(s.components, s.bindings)
  {
    var e :| e in Ends(r.bindings[id]) && e !in Ends(row);
    var c, h := e.0, (id, e.1);
    InHalves(r.bindings, c, h);
    InHalves(s.bindings, c, h);
    assert h in Halves(r.bindings, c) && h !in Halves(s.bindings, c);
    hide IndexIs, Halves;
    IndexTells(s.components[c].bindings, Halves(r.bindings, c) + EndsAt(row, id, c), h);
    if BindingIndexExact(s.components, s.bindings) {
      IndexTells(s.components[c].bindings, Halves(s.bindings, c), h);
    }
  }

  lemma BindingSetLists(r: Rows, s: Rows, id: string)
    requires IsView(r, ViewOf(id)) && BindingListsExact(r.projects, r.templates, r.bindings.Keys)
    requires BindingListAt(r, s, ViewOf(id), ArraySet(ViewBindings(r, ViewOf(id)), id))
    ensures BindingListsExact(s.projects, s.templates, r.bindings.Keys + {id})
  {
    hide Lists, InView, ViewOf, ArraySet;
    var ids := r.bindings.Keys;
    ArraySetLists(ViewBindings(r, ViewOf(id)), InView(ids, ViewOf(id)), id);
    forall w ensures InView(ids + {id}, w) == if ViewOf(id) == w then InView(ids, w) + {id} else InView(ids, w) {
      InViewAdd(ids, id, w);
    }
    BindingListsAfter(r, s, ViewOf(id), ArraySet(ViewBindings(r, ViewOf(id)), id), ids, ids + {id});
  }

  lemma BindingClearedLists(r: Rows, s: Rows, id: string)
    requires id in r.bindings && IsView(r, ViewOf(id)) && BindingListsExact(r.projects, r.templates, r.bindings.Keys)
    requires BindingListAt(r, s, ViewOf(id), ArrayRemove(ViewBindings(r, ViewOf(id)), id))
    ensures BindingListsExact(s.projects, s.templates, r.bindings.Keys - {id})
  {
    var ids := r.bindings.Keys;
    assert id in InView(ids, ViewOf(id));
    hide Lists, InView, ViewOf, ArrayRemove;
    ArrayRemoveExactly(ViewBindings(r, ViewOf(id)), InView(ids, ViewOf(id)), id);
    forall w ensures InView(ids - {id}, w) == if ViewOf(id) == w then InView(ids, w) - {id} else InView(ids, w) {
      InViewRemove(ids, id, w);
    }
    BindingListsAfter(r, s, ViewOf(id), ArrayRemove(ViewBindings(r, ViewOf(id)), id), ids, ids - {id});
  }

  lemma SameUsers(a: map<string, Component>, b: map<string, Component>, d: Definition)
    requires a.Keys == b.Keys && forall c :: c in a ==> a[c].(bindings := map[]) == b[c].(bindings := map[])
    ensures Users(a, d) == Users(b, d)
  {
    forall c | c in a ensures a[c].definition == b[c].definition {
      assert a[c].(bindings := map[]).definition == b[c].(bindings := map[]).definition;
    }
  }

  lemma OnlyIndexesExact(r: Rows, s: Rows)
    requires OnlyIndexes(r, s) && FrameExact(r) && ComponentsIdentified(r)
    requires ComponentListsExact(r.projects, r.templates, r.components.Keys)
    requires UsageExact(r.plugins, r.templates, r.components)
    ensures FrameExact(s) && ComponentsIdentified(s)
    ensures ComponentListsExact(s.projects, s.templates, s.components.Keys)
    ensures UsageExact(s.plugins, s.templates, s.components)
  {
    hide FrameExact, ComponentsIdentified, ComponentListsExact, Lists, Users, SameFrame, SameData, SameComponentLists;
    assert SameKeys(r, s) by { assert SameUsage(r, s); }
    SameFrameExact(r, s);
    ComponentsStillIdentified(r, s);
    ComponentListsSame(r, s, r.components.Keys);
    forall d ensures Users(s.components, d) == Users(r.components, d) {
      SameUsers(r.components, s.components, d);
    }
    UsageSame(r, s, r.components);
  }

  lemma OnlyIndexesContent(r: Rows, s: Rows, k: Content)
    requires OnlyIndexes(r, s) && Represents(r, k)
    ensures TabsAre(s.projects, k.tabs) && PluginsAre(s.plugins, k.plugins) && TemplatesAre(s.templates, k.templates)
    ensures ComponentsAre(s.components, k.components)
  {
    SameDataContent(r, s, k);
    hide SameFrame, SameData, SameComponentLists, SameUsage, TabsAre, PluginsAre, TemplatesAre, BindingsAre;
    forall c | c in s.components ensures k.components[c]
      == ComponentContent(s.components[c].definition, s.components[c].config) {
      assert s.components[c].(bindings := map[]) == r.components[c].(bindings := map[]);
    }
  }

  lemma BindingSetContent(r: Rows, s: Rows, k: Content, id: string, row: Binding)
    requires OnlyIndexes(r, s) && Represents(r, k) && s.bindings == r.bindings[id := row]
    ensures Represents(s, k.(bindings := k.bindings[id := EndsContent(row)]))
  {
    OnlyIndexesContent(r, s, k);
    hide OnlyIndexes, TabsAre, PluginsAre, TemplatesAre, ComponentsAre;
  }

  lemma BindingClearedContent(r: Rows, s: Rows, k: Content, id: string)
    requires OnlyIndexes(r, s) && Represents(r, k) && s.bindings == r.bindings - {id}
    ensures Represents(s, k.(bindings := k.bindings - {id}))
  {
    OnlyIndexesContent(r, s, k);
    hide OnlyIndexes, TabsAre, PluginsAre, TemplatesAre, ComponentsAre;
  }

  lemma BindingSetIdentified(r: Rows, s: Rows, id: string, row: Binding)
    requires SameKeys(r, s) && s.components.Keys == r.components.Keys && BindingsIdentified(r)
    requires BindingPlaced(r, id, row)
    requires s.bindings == r.bindings[id := row]
    ensures BindingsIdentified(s) <==> JoinsTwo(row)
  {
    hide ViewOf;
    assert BindingIdentified(s, id, s.bindings[id]) <==> JoinsTwo(row);
  }

  lemma BindingClearedIdentified(r: Rows, s: Rows, id: string)
    requires SameKeys(r, s) && s.components.Keys == r.components.Keys && BindingsIdentified(r)
    requires s.bindings == r.bindings - {id}
    ensures BindingsIdentified(s)
  {
    hide ViewOf;
  }

  lemma EndsOfStored(r: Rows, id: string)
    requires BindingsIdentified(r) && id in r.bindings
    ensures r.bindings[id].sourceComponent in r.components && r.bindings[id].targetComponent in r.components
  {
    hide ViewOf;
  }

  /**
   `set-core-binding` keeps the store exact if and only if the binding joins two
   members, and is new or keeps its ends.
   */
  lemma SetBindingExact(r: Rows, s: Rows, id: string, row: Binding)
    requires Exact(r) && BindingPlaced(r, id, row) && BindingSet(r, s, id, row)
    ensures Exact(s) <==> JoinsTwo(row) && (id in r.bindings ==> Ends(r.bindings[id]) <= Ends(row))
  {
    hide ComponentListsExact, BindingListsExact, UsageExact, Lists, IndexIs, Halves, ViewOf, ExtractIdsWithTemplate,
         ArraySet,
         TabListsExact, InstancesExact, TemplatesIdentified, InstancesIdentified, PluginsIdentified, ProjectsIdentified,
         BindingsIdentified, ComponentsIdentified, BindingIndexExact, BindingListAt, SameFrame, SameData,
         SameUsage, ViewBindings, Ends, EndsAt;
    FrameOfExact(r);
    OnlyIndexesExact(r, s);
    BindingSetLists(r, s, id);
    assert s.bindings.Keys == r.bindings.Keys + {id};
    BindingSetIdentified(r, s, id, row);
    if id in r.bindings ==> Ends(r.bindings[id]) <= Ends(row) {
      BindingSetIndex(r, s, id, row);
    } else {
      EndsOfStored(r, id);
      BindingSetStale(r, s, id, row);
    }
  }

  /** `clear-core-binding` always keeps the store exact. */
  lemma ClearBindingExact(r: Rows, s: Rows, id: string)
    requires Exact(r) && id in r.bindings && IsView(r, ViewOf(id)) && BindingCleared(r, s, id)
    ensures Exact(s)
  {
    hide ComponentListsExact, BindingListsExact, UsageExact, Lists, IndexIs, Halves, ViewOf, ExtractIdsWithTemplate,
         ArrayRemove,
         TabListsExact, InstancesExact, TemplatesIdentified, InstancesIdentified, PluginsIdentified, ProjectsIdentified,
         BindingsIdentified, ComponentsIdentified, BindingListAt, SameFrame, SameData,
         SameUsage, ViewBindings, EndsAt;
    FrameOfExact(r);
    OnlyIndexesExact(r, s);
    BindingClearedLists(r, s, id);
    assert s.bindings.Keys == r.bindings.Keys - {id};
    BindingClearedIdentified(r, s, id);
    forall c | c in s.components ensures IndexIs(s.components[c].bindings, Halves(s.bindings, c)) {
      HalvesAfterRemove(r.bindings, id, c);
    }
  }
}
