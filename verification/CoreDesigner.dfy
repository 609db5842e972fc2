/**
 The core designer store and its project updates (store/core-designer/reducer.ts).
 The object holds the tables and their hand-maintained indexes; its specification
 is `Valid()`, which says that the indexes are exact, and `content`, the rows
 without the indexes.
 */
module CoreDesigner {
  import opened Strings
  import opened ReducerTools
  import opened DesignerIds
  import opened CoreStore
  import opened StoreSteps
  import opened StoreUpdates
  import opened StoreDefinitions
  import opened StoreWrites
  import opened ProjectUpdates

  class Store {
    /** `openedProjects`: rows by tab id, and the tab ids in opening order. */
    var projects: map<string, Project>
    var projectIds: seq<string>
    const instances: Table<Instance>
    const plugins: Table<Plugin>
    const templates: Table<Template>
    const components: Table<Component>
    const bindings: Table<Binding>
    /** The rows without their indexes. */
    ghost var content: Content

    ghost predicate Ready()
      reads `projects, `projectIds, instances, plugins, templates, components, bindings
    {
      && instances as object != plugins && instances as object != templates && instances as object != components
      && instances as object != bindings && plugins as object != templates && plugins as object != components
      && plugins as object != bindings && templates as object != components && templates as object != bindings
      && components as object != bindings
      && instances.Valid() && plugins.Valid() && templates.Valid() && components.Valid() && bindings.Valid()
      && (forall p :: p in projectIds <==> p in projects)
      && (forall i, j :: 0 <= i < j < |projectIds| ==> projectIds[i] != projectIds[j])
    }

    ghost function Snapshot(): Rows
      reads `projects, instances, plugins, templates, components, bindings
    {
      Rows(projects, instances.byId, plugins.byId, templates.byId, components.byId, bindings.byId)
    }

    /** All indexes are exact. */
    ghost predicate Valid()
      reads this, instances, plugins, templates, components, bindings
    {
      Ready() && Exact(Snapshot()) && Represents(Snapshot(), content)
    }

    /** The initial state: no project, empty tables. */
    constructor ()
      ensures Valid() && content == Content(map[], map[], map[], map[], map[])
    {
      projects := map[];
      projectIds := [];
      content := Content(map[], map[], map[], map[], map[]);
      instances := new Table();
      plugins := new Table();
      templates := new Table();
      components := new Table();
      bindings := new Table();
      new;
      EmptyExact();
    }

    // ----- writes to one table, or to one array of one row -----

    method PutComponent(id: string, row: Component)
      requires Ready()
      modifies components
      ensures Ready() && Snapshot() == old(Snapshot()).(components := old(Snapshot()).components[id := row])
    {
      components.Set(id, row);
    }

    method DropComponent(id: string)
      requires Ready()
      modifies components
      ensures Ready() && Snapshot() == old(Snapshot()).(components := old(Snapshot()).components - {id})
    {
      components.Remove(id);
    }

    method PutBinding(id: string, row: Binding)
      requires Ready()
      modifies bindings
      ensures Ready() && Snapshot() == old(Snapshot()).(bindings := old(Snapshot()).bindings[id := row])
    {
      bindings.Set(id, row);
    }

    method DropBinding(id: string)
      requires Ready()
      modifies bindings
      ensures Ready() && Snapshot() == old(Snapshot()).(bindings := old(Snapshot()).bindings - {id})
    {
      bindings.Remove(id);
    }

    function GetViewComponents(view: string): seq<string>
      requires view in projects || view in templates.byId
      reads this, templates
    {
      if view in projects then projects[view].components else templates.byId[view].components
    }

    method SetViewComponents(view: string, ids: seq<string>)
      requires Ready() && IsView(Snapshot(), view)
      modifies this`projects, templates
      ensures Ready() && Snapshot() == WithViewComponents(old(Snapshot()), view, ids)
    {
      if view in projects {
        projects := projects[view := projects[view].(components := ids)];
      } else {
        templates.Update(view, templates.byId[view].(components := ids));
      }
    }

    function GetViewBindings(view: string): seq<string>
      requires view in projects || view in templates.byId
      reads this, templates
    {
      if view in projects then projects[view].bindings else templates.byId[view].bindings
    }

    method SetViewBindings(view: string, ids: seq<string>)
      requires Ready() && IsView(Snapshot(), view)
      modifies this`projects, templates
      ensures Ready() && Snapshot() == WithViewBindings(old(Snapshot()), view, ids)
    {
      if view in projects {
        projects := projects[view := projects[view].(bindings := ids)];
      } else {
        templates.Update(view, templates.byId[view].(bindings := ids));
      }
    }

    /** `registerComponentOnDefinition`. */
    method Register(id: string, definition: Definition)
      requires Ready() && DefinitionExists(Snapshot(), definition)
      modifies plugins, templates
      ensures Ready()
      ensures var r := old(Snapshot()); Snapshot() == WithUsage(r, definition, ArraySet(Usage(r, definition), id))
      ensures DefinitionExists(Snapshot(), definition)
      ensures ListsMore(old(Usage(Snapshot(), definition)), Usage(Snapshot(), definition), id)
    {
      hide ArraySet, ListsMore;
      SetListsMore(Usage(Snapshot(), definition), id);
      match definition
      case PluginDef(d) =>
        var plugin := plugins.byId[d];
        plugins.Update(d, plugin.(usageComponents := ArraySet(plugin.usageComponents, id)));
      case TemplateDef(d) =>
        var template := templates.byId[d];
        templates.Update(d, template.(usageComponents := ArraySet(template.usageComponents, id)));
    }

    /** `unregisterComponentFromDefinition`, of a component that is listed. */
    method Unregister(id: string, definition: Definition)
      requires Ready() && DefinitionExists(Snapshot(), definition) && id in Usage(Snapshot(), definition)
      modifies plugins, templates
      ensures Ready()
      ensures var r := old(Snapshot()); Snapshot() == WithUsage(r, definition, ArrayRemove(Usage(r, definition), id))
      ensures DefinitionExists(Snapshot(), definition)
      ensures ListsLess(old(Usage(Snapshot(), definition)), Usage(Snapshot(), definition), id)
    {
      hide ArrayRemove, ListsLess;
      RemoveListsLess(Usage(Snapshot(), definition), id);
      match definition
      case PluginDef(d) =>
        var plugin := plugins.byId[d];
        plugins.Update(d, plugin.(usageComponents := RemovePresent(plugin.usageComponents, id)));
      case TemplateDef(d) =>
        var template := templates.byId[d];
        templates.Update(d, template.(usageComponents := RemovePresent(template.usageComponents, id)));
    }

    /** `addBinding`. */
    method AddBinding(componentId: string, member: string, bindingId: string)
      requires Ready() && componentId in components.byId
      modifies components
      ensures Ready()
      ensures var r := old(Snapshot());
              Snapshot() == WithIndex(r, componentId, IndexAdd(r.components[componentId].bindings, member, bindingId))
      ensures components.byId.Keys == old(components.byId.Keys)
      ensures IndexMore(old(components.byId[componentId].bindings), components.byId[componentId].bindings, member,
        bindingId)
    {
      hide IndexAdd, IndexMore;
      var component := components.byId[componentId];
      AddIndexMore(component.bindings, member, bindingId);
      components.Update(componentId, component.(bindings := IndexAdd(component.bindings, member, bindingId)));
    }

    /** `removeBinding`, of a binding that is indexed there. */
    method RemoveBinding(componentId: string, member: string, bindingId: string)
      requires Ready() && componentId in components.byId
      requires IsIndexed(components.byId[componentId].bindings, member, bindingId)
      modifies components
      ensures Ready()
      ensures var r := old(Snapshot());
              Snapshot() == WithIndex(r, componentId,
                IndexRemove(r.components[componentId].bindings, member, bindingId))
      ensures components.byId.Keys == old(components.byId.Keys)
      ensures IndexLess(old(components.byId[componentId].bindings), components.byId[componentId].bindings, member,
        bindingId)
    {
      hide IndexRemove, IndexLess;
      RemoveIndexLess(components.byId[componentId].bindings, member, bindingId);
      var component := components.byId[componentId];
      components.Update(componentId, component.(bindings := IndexRemove(component.bindings, member, bindingId)));
    }

    // ----- project updates -----

    /** The reindexing loop of `set-core-component`: every binding of the view that ends at the component. */
    method Reindex(id: string, ids: seq<string>)
      requires Ready() && id in components.byId && components.byId[id].bindings == map[]
      requires forall b :: b in ids ==> b in bindings.byId && bindings.byId[b].id == b
      modifies components
      ensures Ready() && id in components.byId
      ensures Snapshot() == WithIndex(old(Snapshot()), id, components.byId[id].bindings)
      ensures components.byId[id] == old(components.byId[id]).(bindings := components.byId[id].bindings)
      ensures IndexIs(components.byId[id].bindings, HalvesFrom(bindings.byId, Elements(ids), id))
    {
      hide Ready, IndexIs, Halves, HalvesFrom, IndexAdd, Elements, IndexMore, WithIndex;
      ghost var r := Snapshot();
      ghost var index := components.byId[id].bindings;
      IndexAsIs(r, id);
      ReindexStart(bindings.byId, ids, id);
      for i := 0 to |ids|
        invariant Ready() && id in components.byId && components.byId[id].bindings == index
        invariant Snapshot() == WithIndex(r, id, index)
        invariant IndexIs(index, HalvesFrom(r.bindings, Elements(ids[..i]), id))
      {
        IndexTwice(r, Snapshot(), id, index, index);
        var binding := bindings.byId[ids[i]];
        ReindexStep(index, bindings.byId, ids, i, id);
        if binding.sourceComponent == id {
          index := AddOne(r, id, index, binding.sourceState, binding.id);
        }
        if binding.targetComponent == id {
          index := AddOne(r, id, index, binding.targetAction, binding.id);
        }
      }
      assert ids[..|ids|] == ids;
      IndexTwice(r, Snapshot(), id, index, index);
      IndexedRow(r, id, index);
    }

    /** One `addBinding` on an index written so far. */
    method AddOne(ghost r: Rows, id: string, ghost index: map<string, seq<string>>, member: string, bindingId: string)
      returns (ghost next: map<string, seq<string>>)
      requires Ready() && id in r.components && Snapshot() == WithIndex(r, id, index) && id in components.byId
      modifies components
      ensures Ready() && Snapshot() == WithIndex(r, id, next) && next == IndexAdd(index, member, bindingId)
      ensures id in components.byId && components.byId[id].bindings == next
    {
      hide Ready, IndexAdd, IndexMore, WithIndex;
      next := IndexAdd(index, member, bindingId);
      IndexTwice(r, Snapshot(), id, index, next);
      AddBinding(id, member, bindingId);
      IndexTwice(r, Snapshot(), id, next, next);
    }

    /** The row in its table, in its view and with its definition. */
    method Place(component: Component, view: string)
      requires Ready() && IsView(Snapshot(), view) && ViewOf(component.id) == view
      requires !(view in projects && view in templates.byId)
      requires DefinitionExists(Snapshot(), component.definition)
      modifies this`projects, plugins, templates, components
      ensures Ready() && ComponentSet(old(Snapshot()), Snapshot(), component.id, component)
      ensures component.id in components.byId && components.byId[component.id] == component
    {
      hide Ready, ViewOf, ArraySet, ComponentSet, ListsMore;
      ghost var r := Snapshot();
      PutComponent(component.id, component);
      SetViewComponents(view, ArraySet(GetViewComponents(view), component.id));
      Register(component.id, component.definition);
      ComponentSetWritten(r, Snapshot(), component.id, component);
    }

    /**
     `set-core-component`: add or replace a component. The store stays exact if and
     only if the component is new or keeps its definition.
     */
    method SetComponent(
        tabId: string, templateId: string, componentId: string, definition: Definition, config: map<string, string>)
      requires Valid() && tabId in projects && Free(templateId, ':')
      requires templateId != "" ==> TabScoped(tabId, templateId) in templates.byId
      requires DefinitionExists(Snapshot(), definition)
      modifies this`projects, this`content, plugins, templates, components
      ensures Ready() && Represents(Snapshot(), content)
      ensures var id := ViewScoped(tabId, templateId, componentId);
              var now := ComponentContent(definition, config);
              && content == old(content).(components := old(content).components[id := now])
              && (Valid() <==> old(id in components.byId ==> components.byId[id].definition == definition))
              && id in components.byId
              && components.byId[id].definition == definition && components.byId[id].config == config
              && (old(id in components.byId && components.byId[id].definition == definition) ==>
                    components.byId[id].bindings == old(components.byId[id].bindings))
    {
      hide Ready, Exact, ViewOf, ArraySet, IndexIs, Halves, HalvesFrom, Represents, Elements, ComponentSet,
           ComponentIdentified, Lists,
           BindingsIdentified, BindingListsExact, InView, WithIndex;
      ghost var r := Snapshot();
      var id := ViewScoped(tabId, templateId, componentId);
      var view := ViewKey(tabId, templateId);
      var fullTemplateId := if templateId == "" then "" else TabScoped(tabId, templateId);
      var component := Component(id, fullTemplateId, componentId, definition, config, map[]);
      SetComponentFacts(r, tabId, templateId, componentId, component);
      Place(component, view);
      ghost var m := Snapshot();
      SetComponentViewBindings(r, m, id, component);
      Reindex(id, GetViewBindings(view));
      SetComponentDone(r, m, Snapshot(), old(content), id, component, components.byId[id].bindings);
      content := content.(components := content.components[id := ComponentContent(definition, config)]);
      if id in r.components && r.components[id].definition == definition {
        SameBindingsSameIndex(r, Snapshot(), id);
      }
    }

    /** `clear-core-component`. The store stays exact if and only if no binding ends at the component. */
    method ClearComponent(tabId: string, templateId: string, componentId: string)
      requires Valid() && tabId in projects && Free(templateId, ':')
      requires ViewScoped(tabId, templateId, componentId) in components.byId
      modifies this`projects, this`content, plugins, templates, components
      ensures Ready() && Represents(Snapshot(), content)
      ensures var id := ViewScoped(tabId, templateId, componentId);
              && content == old(content).(components := old(content).components - {id})
              && (Valid() <==> old(Halves(bindings.byId, id) == {}))
    {
      hide Ready, Exact, ViewOf, ArrayRemove, IndexIs, Halves, Represents, ComponentCleared, ComponentIdentified, Lists,
           InView,
           ListsLess;
      ghost var r := Snapshot();
      var id := ViewScoped(tabId, templateId, componentId);
      var view := ViewKey(tabId, templateId);
      ViewOfScoped(r, tabId, templateId, componentId);
      StoredComponent(r, id);
      var component := components.byId[id];
      UsageIgnoresView(r, view, ArrayRemove(ViewComponents(r, view), id), component.definition);
      SetViewComponents(view, RemovePresent(GetViewComponents(view), id));
      Unregister(id, component.definition);
      DropComponent(id);
      ComponentClearedWritten(r, Snapshot(), id);
      ClearComponentDone(r, Snapshot(), content, id);
      content := content.(components := content.components - {id});
    }

    /** A rename first takes the row out of the table, its view and its definition. */
    method TakeOut(component: Component, view: string)
      requires Ready() && component.id in components.byId && components.byId[component.id] == component
      requires IsView(Snapshot(), view) && ViewOf(component.id) == view && !(view in projects && view in templates.byId)
      requires DefinitionExists(Snapshot(), component.definition)
      requires component.id in ViewComponents(Snapshot(), view)
      requires component.id in Usage(Snapshot(), component.definition)
      modifies this`projects, plugins, templates, components
      ensures Ready() && ComponentCleared(old(Snapshot()), Snapshot(), component.id)
    {
      hide Ready, ViewOf, ArrayRemove, ComponentCleared, ListsLess;
      ghost var r := Snapshot();
      DropComponent(component.id);
      UsageIgnoresView(Snapshot(), view, ArrayRemove(ViewComponents(Snapshot(), view), component.id),
        component.definition);
      SetViewComponents(view, RemovePresent(GetViewComponents(view), component.id));
      Unregister(component.id, component.definition);
      RenameFirstHalf(r, Snapshot(), component.id);
    }

    /** Then it puts the row back under its new id. */
    method PutBack(component: Component, view: string)
      requires Ready() && IsView(Snapshot(), view) && ViewOf(component.id) == view
      requires !(view in projects && view in templates.byId)
      requires DefinitionExists(Snapshot(), component.definition)
      modifies this`projects, plugins, templates, components
      ensures Ready() && ComponentAdded(old(Snapshot()), Snapshot(), component.id, component)
      ensures component.id in components.byId && components.byId[component.id] == component
    {
      hide Ready, ViewOf, ArraySet, ArrayAdd, ComponentAdded, ListsMore;
      ghost var r := Snapshot();
      PutComponent(component.id, component);
      Register(component.id, component.definition);
      SetViewComponents(view, ArrayAdd(GetViewComponents(view), component.id, true));
      RenameSecondHalf(r, Snapshot(), component.id, component);
    }

    /**
     `rename-core-component`. Bindings are not rewritten and a row in the way is not
     looked at: the store stays exact if and only if the id stays, or is free and no
     binding ends at the component.
     */
    method RenameComponent(tabId: string, templateId: string, componentId: string, newComponentId: string)
      requires Valid() && tabId in projects && Free(templateId, ':')
      requires ViewScoped(tabId, templateId, componentId) in components.byId
      modifies this`projects, this`content, plugins, templates, components
      ensures Ready() && Represents(Snapshot(), content)
      ensures var id := ViewScoped(tabId, templateId, componentId);
              var newId := ViewScoped(tabId, templateId, newComponentId);
              var was := old(content).components;
              && id in was && content == old(content).(components := (was - {id})[newId := was[id]])
              && (Valid() <==> newId == id || old(newId !in components.byId && Halves(bindings.byId, id) == {}))
              && newId in components.byId
              && components.byId[newId] == old(components.byId[id]).(id := newId, componentId := newComponentId)
    {
      hide Ready, Exact, ViewOf, ArrayRemove, ArraySet, ArrayAdd, IndexIs, Halves, Represents, ComponentCleared,
           ComponentAdded, ComponentIdentified, Lists, InView;
      ghost var r := Snapshot();
      var id := ViewScoped(tabId, templateId, componentId);
      var newId := ViewScoped(tabId, templateId, newComponentId);
      var view := ViewKey(tabId, templateId);
      ViewOfScoped(r, tabId, templateId, componentId);
      StoredComponent(r, id);
      var component := components.byId[id];
      TakeOut(component, view);
      ghost var m := Snapshot();
      component := component.(id := newId, componentId := newComponentId);
      RenamedIdentified(r, tabId, templateId, componentId, newComponentId);
      ListedAfterClear(r, m, id, newId);
      PutBack(component, view);
      RenameComponentDone(r, m, Snapshot(), content, id, newId, component);
      RepresentedComponent(r, content, id);
      content := content.(components := (content.components - {id})[newId := content.components[id]]);
    }

    /** Both ends of a binding whose row and list entry are written are indexed. */
    method IndexBinding(ghost r: Rows, binding: Binding)
      requires Ready() && IsView(r, ViewOf(binding.id)) && bindings.byId == r.bindings[binding.id := binding]
      requires binding.sourceComponent in r.components && binding.targetComponent in r.components
      requires var a := r.(bindings := r.bindings[binding.id := binding]);
               Snapshot() == WithViewBindings(a, ViewOf(binding.id),
                                              ArraySet(ViewBindings(a, ViewOf(binding.id)), binding.id))
      modifies components
      ensures Ready() && Snapshot() == SetBindingRows(r, binding.id, binding)
      ensures binding.id in bindings.byId && bindings.byId[binding.id] == binding
    {
      hide Ready, ViewOf, ArraySet, IndexAdd, IndexMore, ViewBindings, WithViewBindings, WithIndex;
      var id := binding.id;
      ghost var a := r.(bindings := r.bindings[id := binding]);
      ViewIgnoresBindings(r, a, ViewOf(id), ArraySet(ViewBindings(a, ViewOf(id)), id));
      AddBinding(binding.sourceComponent, binding.sourceState, id);
      AddBinding(binding.targetComponent, binding.targetAction, id);
    }

    /**
     `set-core-binding`. The store stays exact if and only if the binding joins two
     members, and is new or keeps its ends.
     */
    method SetBinding(tabId: string, templateId: string, bindingId: string,
                      sourceComponent: string, sourceState: string, targetComponent: string, targetAction: string)
      requires Valid() && tabId in projects && Free(templateId, ':')
      requires ViewScoped(tabId, templateId, sourceComponent) in components.byId
      requires ViewScoped(tabId, templateId, targetComponent) in components.byId
      modifies this`projects, this`content, templates, components, bindings
      ensures Ready() && Represents(Snapshot(), content)
      ensures var id := ViewScoped(tabId, templateId, bindingId);
              var row := Binding(id, ViewScoped(tabId, templateId, sourceComponent), sourceState,
                                 ViewScoped(tabId, templateId, targetComponent), targetAction);
              && content == old(content).(bindings := old(content).bindings[id := EndsContent(row)])
              && (Valid() <==> (sourceComponent, sourceState) != (targetComponent, targetAction)
                               && old(id in bindings.byId ==> Ends(bindings.byId[id]) <= Ends(row)))
              && id in bindings.byId && bindings.byId[id] == row
    {
      hide Ready, Exact, ViewOf, ArraySet, IndexAdd, Represents, BindingPlaced, JoinsTwo, Ends, WithIndex,
           WithViewBindings, IndexMore, EndsContent, SetBindingRows;
      ghost var r := Snapshot();
      var id := ViewScoped(tabId, templateId, bindingId);
      var view := ViewKey(tabId, templateId);
      var binding := Binding(id, ViewScoped(tabId, templateId, sourceComponent), sourceState,
                             ViewScoped(tabId, templateId, targetComponent), targetAction);
      NewBindingPlaced(r, tabId, templateId, sourceComponent, targetComponent, bindingId, binding);
      PutBinding(id, binding);
      SetViewBindings(view, ArraySet(GetViewBindings(view), id));
      IndexBinding(r, binding);
      SetBindingDone(r, Snapshot(), content, id, binding);
      content := content.(bindings := content.bindings[id := EndsContent(binding)]);
    }

    /** `clear-core-binding`. The store stays exact. */
    method ClearBinding(tabId: string, templateId: string, bindingId: string)
      requires Valid() && tabId in projects && Free(templateId, ':')
      requires ViewScoped(tabId, templateId, bindingId) in bindings.byId
      modifies this`projects, this`content, templates, components, bindings
      ensures Valid()
      ensures content == old(content).(bindings := old(content).bindings - {ViewScoped(tabId, templateId, bindingId)})
    {
      hide Ready, Exact, ViewOf, ArrayRemove, IndexRemove, Represents, IndexLess;
      ghost var r := Snapshot();
      var id := ViewScoped(tabId, templateId, bindingId);
      var view := ViewKey(tabId, templateId);
      ViewOfScoped(r, tabId, templateId, bindingId);
      StoredBinding(r, id);
      var binding := bindings.byId[id];
      SetViewBindings(view, RemovePresent(GetViewBindings(view), id));
      DropBinding(id);
      RemoveBinding(binding.sourceComponent, binding.sourceState, id);
      RemoveBinding(binding.targetComponent, binding.targetAction, id);
      ClearBindingDone(r, Snapshot(), content, id);
      content := content.(bindings := content.bindings - {id});
    }

    /**
     `set-core-template`: create the template if needed, then replace its exports. Each
     name exports what its entry says, with the local component id as a row id of the
     template. The store stays exact.
     */
    method SetTemplate(
        tabId: string, templateId: string, config: seq<(string, ConfigExport)>, members: seq<(string, MemberExport)>)
      requires Valid() && tabId in projects && templateId != "" && Free(templateId, ':')
      modifies this`projects, this`content, templates
      ensures Valid()
      ensures content == old(content).(templates := old(content).templates[TabScoped(tabId, templateId) :=
                Exports(ScopeConfig(tabId, templateId, config), ScopeMembers(tabId, templateId, members))])
      ensures var id := TabScoped(tabId, templateId);
              && id in templates.byId
              && (forall name :: ConfigScoped(tabId, templateId, config, templates.byId[id].exports.config, name))
              && (forall name :: MemberScoped(tabId, templateId, members, templates.byId[id].exports.members, name))
    {
      hide Ready, Exact, Represents, ScopeConfig, ScopeMembers, ConfigScoped, MemberScoped, TabOf;
      var id := TabScoped(tabId, templateId);
      TabOfScoped(Snapshot(), tabId, templateId);
      EnsureTemplate(tabId, templateId);
      ghost var m := Snapshot();
      var exports := ScopedExports(tabId, templateId, config, members);
      PutExports(id, exports);
      SetExportsExact(m, Snapshot(), id, exports);
      SetExportsContent(m, Snapshot(), content, id, exports);
      content := content.(templates := content.templates[id := exports]);
    }

    method PutExports(id: string, exports: Exports)
      requires Ready() && id in templates.byId
      modifies templates
      ensures Ready()
      ensures var r := old(Snapshot());
              Snapshot() == r.(templates := r.templates[id := r.templates[id].(exports := exports)])
    {
      templates.Update(id, templates.byId[id].(exports := exports));
    }

    method PutTemplate(id: string, row: Template)
      requires Ready()
      modifies templates
      ensures Ready() && Snapshot() == old(Snapshot()).(templates := old(Snapshot()).templates[id := row])
    {
      templates.Set(id, row);
    }

    method PutProject(id: string, row: Project)
      requires Ready() && id in projects
      modifies this`projects
      ensures Ready() && Snapshot() == old(Snapshot()).(projects := old(Snapshot()).projects[id := row])
    {
      projects := projects[id := row];
    }

    /** The creating half of `set-core-template`. */
    method EnsureTemplate(tabId: string, templateId: string)
      requires Valid() && tabId in projects && templateId != "" && Free(templateId, ':')
      modifies this`projects, this`content, templates
      ensures Valid() && TabScoped(tabId, templateId) in templates.byId && tabId in projects
      ensures content == if TabScoped(tabId, templateId) in old(templates.byId) then old(content)
                         else old(content).(templates := old(content).templates[TabScoped(tabId,
                           templateId) := Exports(map[], map[])])
    {
      hide Ready, Exact, Represents, ArrayAdd, TabOf, TemplateAdded;
      var id := TabScoped(tabId, templateId);
      if id in templates.byId {
        return;
      }
      ghost var r := Snapshot();
      var template := Template(id, templateId, [], [], Exports(map[], map[]), []);
      NewTemplateFacts(r, tabId, templateId);
      PutTemplate(id, template);
      PutProject(tabId, projects[tabId].(templates := ArrayAdd(projects[tabId].templates, template.id, true)));
      TemplateAddedIs(r, Snapshot(), tabId, id, template);
      AddTemplateExact(r, Snapshot(), tabId, id, template);
      TemplateAddedContent(r, Snapshot(), content, tabId, id, template);
      content := content.(templates := content.templates[id := Exports(map[], map[])]);
    }

    /** The first loop of `clear-core-template`. */
    method UnregisterAll(ids: seq<string>)
      requires Ready() && Exact(Snapshot())
      requires forall c :: c in ids ==> c in components.byId
      requires forall i, j :: 0 <= i < j < |ids| ==> ids[i] != ids[j]
      modifies plugins, templates
      ensures Ready() && OnlyUsage(old(Snapshot()), Snapshot())
      ensures UsageExact(plugins.byId, templates.byId, components.byId - Elements(ids))
    {
      hide Ready, Exact, UsageExact, ArrayRemove, WithUsage, Usage, ListsLess;
      ghost var r := Snapshot();
      assert UsageExact(r.plugins, r.templates, r.components) by { UsageOfExact(r); }
      assert components.byId - Elements(ids[..0]) == components.byId;
      for i := 0 to |ids|
        invariant Ready() && OnlyUsage(r, Snapshot())
        invariant UsageExact(plugins.byId, templates.byId, components.byId - Elements(ids[..i]))
      {
        ghost var m := Snapshot();
        ghost var left := components.byId - Elements(ids[..i]);
        var component := components.byId[ids[i]];
        assert ids[i] in left && left[ids[i]] == component;
        ComponentDefinitionsExist(r, m, ids[i]);
        StillListed(m, left, ids[i]);
        Unregister(ids[i], component.definition);
        OnlyUsageStep(r, m, Snapshot(), component.definition, ArrayRemove(Usage(m, component.definition), ids[i]));
        UnregisterStep(m, Snapshot(), left, ids[i]);
        assert left - {ids[i]} == components.byId - Elements(ids[..i + 1]);
      }
      assert ids[..|ids|] == ids;
    }

    method DropTemplate(template: Template)
      requires Ready()
      modifies templates, components, bindings
      ensures Ready()
      ensures var r := old(Snapshot());
              Snapshot() == r.(components := r.components - Elements(template.components),
                               bindings := r.bindings - Elements(template.bindings),
                               templates := r.templates - {template.id})
    {
      components.RemoveAll(template.components);
      bindings.RemoveAll(template.bindings);
      templates.Remove(template.id);
    }

    /**
     `clear-core-template`: unregister its components, drop them with the template and
     its bindings. Exact if and only if no component outside the template uses it.
     */
    method ClearTemplate(tabId: string, templateId: string)
      requires Valid() && tabId in projects && TabScoped(tabId, templateId) in templates.byId
      modifies this`projects, this`content, plugins, templates, components, bindings
      ensures Ready() && Represents(Snapshot(), content)
      ensures var id := TabScoped(tabId, templateId); var k := old(content);
              && tabId in k.tabs
              && content == Content(ClearedTabs(k.tabs, tabId, id), k.plugins, k.templates - {id},
                                    k.components - InView(k.components.Keys, id),
                                      k.bindings - InView(k.bindings.Keys, id))
              && tabId in projects
              && projects[tabId].activeTemplate == (if old(projects)[tabId].activeTemplate == id then ""
                                                    else old(projects)[tabId].activeTemplate)
              && (Valid() <==> old(Users(components.byId, TemplateDef(id)) <= InView(components.byId.Keys, id)))
    {
      hide Ready, Exact, Represents, ArrayRemove, TabOf, ViewOf, InView, Users, UsageExact, OnlyUsage, TemplateCleared,
           ClearedTabs, Elements;
      ghost var r := Snapshot();
      var id := TabScoped(tabId, templateId);
      TabOfScoped(r, tabId, templateId);
      ListedInTab(r, tabId, id);
      StoredTemplate(r, id);
      var template := templates.byId[id];
      UnregisterAll(template.components);
      ghost var m := Snapshot();
      OnlyUsageSame(r, m);
      DropTemplate(template);
      var p := projects[tabId];
      PutProject(tabId, p.(templates := RemovePresent(p.templates, template.id),
                           activeTemplate := if p.activeTemplate == id then "" else p.activeTemplate));
      TemplateClearedWritten(r, m, Snapshot(), tabId, id);
      ClearTemplateDone(r, Snapshot(), content, tabId, id);
      content := Content(ClearedTabs(content.tabs, tabId, id), content.plugins, content.templates - {id},
                         content.components - InView(content.components.Keys, id),
                           content.bindings - InView(content.bindings.Keys, id));
    }

    method PutInstance(id: string, row: Instance)
      requires Ready()
      modifies instances
      ensures Ready() && Snapshot() == old(Snapshot()).(instances := old(Snapshot()).instances[id := row])
    {
      instances.Set(id, row);
    }

    method DropInstance(id: string)
      requires Ready()
      modifies instances
      ensures Ready() && Snapshot() == old(Snapshot()).(instances := old(Snapshot()).instances - {id})
    {
      instances.Remove(id);
    }

    method PutPlugin(id: string, row: Plugin)
      requires Ready()
      modifies plugins
      ensures Ready() && Snapshot() == old(Snapshot()).(plugins := old(Snapshot()).plugins[id := row])
    {
      plugins.Set(id, row);
    }

    method DropPlugin(id: string)
      requires Ready()
      modifies plugins
      ensures Ready() && Snapshot() == old(Snapshot()).(plugins := old(Snapshot()).plugins - {id})
    {
      plugins.Remove(id);
    }

    method EnsureInstance(tabId: string, instanceId: string, instanceName: string) returns (instance: Instance)
      requires Ready() && tabId in projects
      modifies `projects, instances
      ensures Ready() && instance == InstanceBefore(old(Snapshot()), instanceId, instanceName)
      ensures Snapshot() == InstanceEnsured(old(Snapshot()), tabId, instanceId, instanceName)
    {
      hide Ready, ArrayAdd;
      if instanceId in instances.byId {
        instance := instances.byId[instanceId];
      } else {
        instance := Instance(instanceId, instanceName, []);
        PutInstance(instanceId, instance);
        PutProject(tabId, projects[tabId].(instances := ArrayAdd(projects[tabId].instances, instanceId, true)));
      }
    }

    method WritePlugin(tabId: string, id: string, instanceId: string, data: PluginData)
      requires Ready() && tabId in projects
      modifies `projects, plugins
      ensures Ready()
      ensures Snapshot() == PluginWritten(old(Snapshot()), tabId, id, instanceId, data)
    {
      hide Ready, ArraySet;
      if id !in plugins.byId {
        PutPlugin(id, Plugin(id, instanceId, [], data));
        PutProject(tabId, projects[tabId].(plugins := ArraySet(projects[tabId].plugins, id)));
      } else {
        PutPlugin(id, plugins.byId[id].(instance := instanceId, data := data));
      }
    }

    /** `setPlugin`. The store stays exact if and only if the plugin is new or stays on its instance. */
    method SetPlugin(tabId: string, pluginId: string, instanceName: string, data: PluginData)
      requires Valid() && tabId in projects
      modifies this`projects, this`content, instances, plugins
      ensures Ready() && Represents(Snapshot(), content)
      ensures var id, instanceId := TabScoped(tabId, pluginId), TabScoped(tabId, instanceName);
              && content == old(content).(plugins := old(content).plugins[id := PluginContent(instanceId, data)])
              && (Valid() <==> old(id in plugins.byId ==> plugins.byId[id].instance == instanceId))
              && id in plugins.byId && plugins.byId[id].instance == instanceId && plugins.byId[id].data == data
              && instanceId in instances.byId && id in instances.byId[instanceId].plugins
    {
      hide Ready, Exact, Represents, TabOf, ArrayAdd, ArraySet, PluginSet, InstanceBefore, PluginAfterSet,
           InstanceEnsured, PluginWritten;
      ghost var r := Snapshot();
      var id := TabScoped(tabId, pluginId);
      var instanceId := TabScoped(tabId, instanceName);
      TabOfScoped(r, tabId, pluginId);
      TabOfScoped(r, tabId, instanceName);
      ListedInTab(r, tabId, id);
      ListedInTab(r, tabId, instanceId);
      StepsKeepProjects(r, tabId, instanceId, instanceName);
      var instance := EnsureInstance(tabId, instanceId, instanceName);
      WritePlugin(tabId, id, instanceId, data);
      PutInstance(instanceId, instance.(plugins := ArraySet(instance.plugins, id)));
      PluginSetIs(r, Snapshot(), tabId, id, instanceId, instanceName, data);
      PluginSetRows(r, Snapshot(), tabId, id, instanceId, instanceName, data);
      PluginSetDone(r, Snapshot(), content, tabId, id, instanceId, instanceName, data);
      content := content.(plugins := content.plugins[id := PluginContent(instanceId, data)]);
    }

    method DropInstanceIfEmpty(tabId: string, instanceId: string)
      requires Ready() && tabId in projects && instanceId in instances.byId && instanceId in projects[tabId].instances
      modifies `projects, instances
      ensures Ready()
      ensures var r := old(Snapshot());
              Snapshot() == if r.instances[instanceId].plugins == [] then
                var p := r.projects[tabId];
                r.(projects := r.projects[tabId := p.(instances := ArrayRemove(p.instances, instanceId))],
                   instances := r.instances - {instanceId})
              else r
    {
      hide Ready, ArrayRemove;
      if |instances.byId[instanceId].plugins| == 0 {
        PutProject(tabId, projects[tabId].(instances := RemovePresent(projects[tabId].instances, instanceId)));
        DropInstance(instanceId);
      }
    }

    /** `clear-core-plugin`; `ok` is false when the source throws because the plugin is used. */
    method ClearPlugin(tabId: string, pluginId: string) returns (ok: bool)
      requires Valid() && tabId in projects && TabScoped(tabId, pluginId) in plugins.byId
      modifies this`projects, this`content, instances, plugins
      ensures Valid()
      ensures ok == old(Users(components.byId, PluginDef(TabScoped(tabId, pluginId))) == {})
      ensures content ==
        if ok then old(content).(plugins := old(content).plugins - {TabScoped(tabId, pluginId)}) else old(content)
      ensures !ok ==> Snapshot() == old(Snapshot())
    {
      hide Ready, Exact, Represents, TabOf, ArrayRemove, PluginCleared, Users;
      ghost var r := Snapshot();
      var id := TabScoped(tabId, pluginId);
      TabOfScoped(r, tabId, pluginId);
      StoredPlugin(r, id);
      ListedInTab(r, tabId, id);
      ListedInTab(r, tabId, plugins.byId[id].instance);
      var plugin := plugins.byId[id];
      ok := |plugin.usageComponents| == 0;
      if !ok {
        return;
      }
      var instance := instances.byId[plugin.instance];
      PutProject(tabId, projects[tabId].(plugins := RemovePresent(projects[tabId].plugins, id)));
      PutInstance(instance.id, instance.(plugins := RemovePresent(instance.plugins, id)));
      DropPlugin(id);
      DropInstanceIfEmpty(tabId, instance.id);
      PluginClearedIs(r, Snapshot(), tabId, id);
      ClearPluginDone(r, Snapshot(), content, tabId, id);
      content := content.(plugins := content.plugins - {id});
    }

    method AddProject(id: string, row: Project)
      requires Ready() && id !in projects
      modifies `projects, `projectIds
      ensures Ready() && Snapshot() == old(Snapshot()).(projects := old(Snapshot()).projects[id := row])
    {
      projects := projects[id := row];
      projectIds := projectIds + [id];
    }

    /** A new core designer tab (`TabsActionTypes.NEW`). `tableAdd` keeps an open tab as it is. */
    method NewTab(tabId: string)
      requires Valid() && Free(tabId, ':')
      modifies `projects, `projectIds, `content
      ensures Valid()
      ensures content ==
        if tabId in old(projects) then old(content) else old(content).(tabs := old(content).tabs[tabId := ""])
    {
      hide Ready, Exact, Represents, Free;
      if tabId in projects {
        return;
      }
      ghost var r := Snapshot();
      AddProject(tabId, Project(tabId, [], [], [], [], [], ""));
      NewTabDone(r, Snapshot(), content, tabId);
      content := content.(tabs := content.tabs[tabId := ""]);
    }

    /** `applyProjectUpdate` on a well-formed update. */
    method ApplyProjectUpdate(tabId: string, update: Update)
      requires Valid() && WellFormed(content, tabId, update)
      modifies `projects, `content, instances, plugins, templates, components, bindings
      ensures Valid() && content == Apply(old(content), tabId, update) && Means(old(content), tabId, update, content)
    {
      hide Ready, Exact, Represents, ClearedTabs, InView, Halves, Users, Ends, ContentEnds, ViewOf, Free, ScopeConfig,
           ScopeMembers, TabScoped, ViewScoped, ScopeDefinition, Means, ConfigScoped, MemberScoped;
      ApplyMeans(Snapshot(), content, tabId, update);
      ContentTables(Snapshot(), content);
      match update
      case SetPluginUpdate(pluginId, instanceName, data) =>
        ContentPlugin(Snapshot(), content, TabScoped(tabId, pluginId));
        SetPlugin(tabId, pluginId, instanceName, data);
      case ClearPluginUpdate(pluginId) =>
        NoUsers(Snapshot(), content, PluginDef(TabScoped(tabId, pluginId)));
        var _ := ClearPlugin(tabId, pluginId);
      case SetTemplateUpdate(templateId, config, members) =>
        SetTemplate(tabId, templateId, config, members);
      case ClearTemplateUpdate(templateId) =>
        UsersInside(Snapshot(), content, TabScoped(tabId, templateId));
        ClearTemplate(tabId, templateId);
      case SetComponentUpdate(view, componentId, definition, settings) =>
        ContentComponent(Snapshot(), content, ViewScoped(tabId, view, componentId));
        SetComponent(tabId, view, componentId, ScopeDefinition(tabId, definition), settings);
      case ClearComponentUpdate(view, componentId) =>
        NoHalves(Snapshot(), content, ViewScoped(tabId, view, componentId));
        ClearComponent(tabId, view, componentId);
      case RenameComponentUpdate(view, componentId, newId) =>
        NoHalves(Snapshot(), content, ViewScoped(tabId, view, componentId));
        RenameComponent(tabId, view, componentId, newId);
      case SetBindingUpdate(view, bindingId, source, state, target, action) =>
        SameEnds(Snapshot(), content, tabId, update);
        SetBinding(tabId, view, bindingId, source, state, target, action);
      case ClearBindingUpdate(view, bindingId) =>
        ClearBinding(tabId, view, bindingId);
    }

    /**
     `UPDATE_PROJECT`: every well-formed run of updates, over any number of tabs,
     keeps all indexes exact and does to the content what the updates mean, one after
     the other along `trail`.
     */
    method UpdateProject(updates: seq<(string, Update)>) returns (ghost trail: seq<Content>)
      requires Valid() && WellFormedRun(content, updates)
      modifies `projects, `content, instances, plugins, templates, components, bindings
      ensures Valid() && content == ApplyAll(old(content), updates)
      ensures |trail| == |updates| + 1 && trail[0] == old(content) && trail[|updates|] == content
      ensures forall i :: 0 <= i < |updates| ==> Means(trail[i], updates[i].0, updates[i].1, trail[i + 1])
    {
      hide Ready, Exact, Represents, WellFormed, Apply, Means;
      trail := [content];
      for i := 0 to |updates|
        invariant Valid() && WellFormedRun(content, updates[i..])
        invariant ApplyAll(content, updates[i..]) == ApplyAll(old(content), updates)
        invariant |trail| == i + 1 && trail[0] == old(content) && trail[i] == content
        invariant forall j :: 0 <= j < i ==> Means(trail[j], updates[j].0, updates[j].1, trail[j + 1])
      {
        assert updates[i..][0] == updates[i] && updates[i..][1..] == updates[i + 1..];
        ApplyProjectUpdate(updates[i].0, updates[i].1);
        trail := trail + [content];
      }
    }
  }

  lemma IndexAsIs(r: Rows, id: string)
    requires id in r.components
    ensures r == WithIndex(r, id, r.components[id].bindings)
  {}

  lemma IndexedRow(r: Rows, id: string, index: map<string, seq<string>>)
    requires id in r.components
    ensures var s := WithIndex(r, id, index);
            id in s.components && s.components[id] == r.components[id].(bindings := index)
  {}

  // ----- the steps of `setPlugin` -----

  function InstanceEnsured(r: Rows, tab: string, instanceId: string, instanceName: string): Rows
    requires tab in r.projects
  {
    var p := r.projects[tab];
    if instanceId in r.instances then r
    else r.(instances := r.instances[instanceId := InstanceBefore(r, instanceId, instanceName)],
            projects := r.projects[tab := p.(instances := ArrayAdd(p.instances, instanceId, true))])
  }

  function PluginWritten(r: Rows, tab: string, id: string, instanceId: string, data: PluginData): Rows
    requires tab in r.projects
  {
    var p := r.projects[tab];
    r.(plugins := r.plugins[id := PluginAfterSet(r, id, instanceId, data)],
       projects := if id in r.plugins then r.projects else r.projects[tab := p.(plugins := ArraySet(p.plugins, id))])
  }

  lemma StepsKeepProjects(r: Rows, tab: string, instanceId: string, instanceName: string)
    requires tab in r.projects
    ensures tab in InstanceEnsured(r, tab, instanceId, instanceName).projects
  {}

  // ----- reading conditions off the content -----

  lemma ContentTables(r: Rows, k: Content)
    requires Represents(r, k)
    ensures k.tabs.Keys == r.projects.Keys && k.plugins.Keys == r.plugins.Keys && k.templates.Keys == r.templates.Keys
    ensures k.components.Keys == r.components.Keys && k.bindings.Keys == r.bindings.Keys
  {}

  lemma ContentPlugin(r: Rows, k: Content, id: string)
    requires Represents(r, k)
    ensures id in r.plugins ==> id in k.plugins && k.plugins[id].instance == r.plugins[id].instance
  {}

  lemma ContentComponent(r: Rows, k: Content, id: string)
    requires Represents(r, k)
    ensures id in r.components ==> id in k.components && k.components[id].definition == r.components[id].definition
  {}

  lemma NoUsers(r: Rows, k: Content, d: Definition)
    requires Represents(r, k) && forall c :: c in k.components ==> k.components[c].definition != d
    ensures Users(r.components, d) == {}
  {
    hide TabsAre, PluginsAre, TemplatesAre, BindingsAre;
    forall c | c in r.components ensures r.components[c].definition != d {
      assert k.components[c].definition == r.components[c].definition;
    }
  }

  lemma UsersInside(r: Rows, k: Content, id: string)
    requires Represents(r, k)
    requires forall c :: c in k.components && k.components[c].definition == TemplateDef(id) ==> ViewOf(c) == id
    ensures Users(r.components, TemplateDef(id)) <= InView(r.components.Keys, id)
  {
    hide TabsAre, PluginsAre, TemplatesAre, BindingsAre, ViewOf;
    forall c | c in Users(r.components, TemplateDef(id)) ensures ViewOf(c) == id {
      assert k.components[c].definition == r.components[c].definition;
    }
  }

  lemma NoHalves(r: Rows, k: Content, id: string)
    requires Represents(r, k) && NoBindingAt(k, id)
    ensures Halves(r.bindings, id) == {}
  {
    hide TabsAre, PluginsAre, TemplatesAre, ComponentsAre;
    forall b | b in r.bindings ensures r.bindings[b].sourceComponent != id && r.bindings[b].targetComponent != id {
      assert k.bindings[b] == EndsContent(r.bindings[b]);
    }
  }

  lemma SameEnds(r: Rows, k: Content, tabId: string, u: Update)
    requires Represents(r, k) && u.SetBindingUpdate? && WellFormed(k, tabId, u)
    ensures var id := ViewScoped(tabId, u.viewId, u.bindingId);
            var row := Binding(id, ViewScoped(tabId, u.viewId, u.source), u.state,
              ViewScoped(tabId, u.viewId, u.target), u.action);
            id in r.bindings ==> Ends(r.bindings[id]) <= Ends(row)
  {
    hide TabsAre, PluginsAre, TemplatesAre, ComponentsAre, Free;
    var id := ViewScoped(tabId, u.viewId, u.bindingId);
    if id in r.bindings {
      assert k.bindings[id] == EndsContent(r.bindings[id]);
    }
  }

  /** An instance that is there is already listed, so ensuring it is setting it. */
  lemma EnsuredIs(r: Rows, tab: string, instanceId: string, instanceName: string)
    requires tab in r.projects && (instanceId in r.projects[tab].instances <==> instanceId in r.instances)
    ensures var a, p := InstanceEnsured(r, tab, instanceId, instanceName), r.projects[tab];
            && a == r.(instances := a.instances, projects := a.projects)
            && a.instances == r.instances[instanceId := InstanceBefore(r, instanceId, instanceName)]
            && a.projects == r.projects[tab := p.(instances := ArraySet(p.instances, instanceId))]
  {
    hide ArrayAdd;
  }

  lemma WrittenIs(a: Rows, tab: string, id: string, instanceId: string, data: PluginData)
    requires tab in a.projects && (id in a.projects[tab].plugins <==> id in a.plugins)
    ensures var b, p := PluginWritten(a, tab, id, instanceId, data), a.projects[tab];
            && b == a.(plugins := a.plugins[id := PluginAfterSet(a, id, instanceId, data)], projects := b.projects)
            && b.projects == a.projects[tab := p.(plugins := ArraySet(p.plugins, id))]
  {
    hide ArrayAdd, PluginAfterSet;
  }

  lemma PluginSetIs(
      r: Rows, s: Rows, tab: string, id: string, instanceId: string, instanceName: string, data: PluginData)
    requires tab in r.projects
    requires id in r.projects[tab].plugins <==> id in r.plugins
    requires instanceId in r.projects[tab].instances <==> instanceId in r.instances
    requires tab in InstanceEnsured(r, tab, instanceId, instanceName).projects
    requires var inst := InstanceBefore(r, instanceId, instanceName);
             var b := PluginWritten(InstanceEnsured(r, tab, instanceId, instanceName), tab, id, instanceId, data);
             s == b.(instances := b.instances[instanceId := inst.(plugins := ArraySet(inst.plugins, id))])
    ensures PluginSet(r, s, tab, id, instanceId, instanceName, data)
  {
    hide ArraySet, InstanceEnsured, PluginWritten, InstanceBefore;
    EnsuredIs(r, tab, instanceId, instanceName);
    WrittenIs(InstanceEnsured(r, tab, instanceId, instanceName), tab, id, instanceId, data);
  }

  lemma PluginClearedIs(r: Rows, s: Rows, tab: string, id: string)
    requires tab in r.projects && id in r.plugins && r.plugins[id].instance in r.instances
    requires var p, i := r.projects[tab], r.plugins[id].instance;
             var list := ArrayRemove(r.instances[i].plugins, id);
             var a := r.(projects := r.projects[tab := p.(plugins := ArrayRemove(p.plugins, id))],
                         instances := r.instances[i := r.instances[i].(plugins := list)],
                         plugins := r.plugins - {id});
             s == if list == [] then
                    var q := a.projects[tab];
                    a.(projects := a.projects[tab := q.(instances := ArrayRemove(q.instances, i))],
                       instances := a.instances - {i})
                  else a
    ensures PluginCleared(r, s, tab, id)
  {
    hide ArrayRemove;
  }

  /** The export loops of `set-core-template`: local component ids become row ids. */
  method ScopedExports(
      tabId: string, templateId: string, config: seq<(string, ConfigExport)>, members: seq<(string, MemberExport)>)
    returns (exports: Exports)
    ensures exports == Exports(ScopeConfig(tabId, templateId, config), ScopeMembers(tabId, templateId, members))
    ensures Free(tabId, ':') && Free(templateId, ':') ==>
      && (forall name :: ConfigScoped(tabId, templateId, config, exports.config, name))
      && (forall name :: MemberScoped(tabId, templateId, members, exports.members, name))
  {
    hide ConfigScoped, MemberScoped;
    var newConfig: map<string, ConfigExport> := map[];
    for i := 0 to |config|
      invariant newConfig == ScopeConfig(tabId, templateId, config[..i])
    {
      var (name, e) := config[i];
      newConfig := newConfig[name := ConfigExport(ViewScoped(tabId, templateId, e.component), e.configName)];
      assert config[..i + 1][..i] == config[..i];
    }
    var newMembers: map<string, MemberExport> := map[];
    for i := 0 to |members|
      invariant newMembers == ScopeMembers(tabId, templateId, members[..i])
    {
      var (name, e) := members[i];
      newMembers := newMembers[name := MemberExport(ViewScoped(tabId, templateId, e.component), e.member)];
      assert members[..i + 1][..i] == members[..i];
    }
    assert config[..|config|] == config && members[..|members|] == members;
    exports := Exports(newConfig, newMembers);
    if Free(tabId, ':') && Free(templateId, ':') {
      forall name { ScopedConfigMeans(tabId, templateId, config, name); }
      forall name { ScopedMemberMeans(tabId, templateId, members, name); }
    }
  }

  lemma OnlyUsageSame(r: Rows, m: Rows)
    requires OnlyUsage(r, m)
    ensures m.components == r.components && m.bindings == r.bindings && m.projects == r.projects
  {}

  lemma UsageOfExact(r: Rows)
    requires Exact(r)
    ensures UsageExact(r.plugins, r.templates, r.components)
  {}

  lemma TabOfScoped(r: Rows, tabId: string, id: string)
    requires Exact(r) && tabId in r.projects
    ensures Free(tabId, ':') && TabOf(TabScoped(tabId, id)) == tabId
  {
    hide TabListsExact, ComponentListsExact, BindingListsExact, UsageExact, BindingIndexExact, InstancesExact,
         InstancesIdentified, PluginsIdentified, TemplatesIdentified, ComponentsIdentified, BindingsIdentified, TabOf;
    OwnersOfComposed(tabId, "", id);
  }

  lemma NewTemplateFacts(r: Rows, tabId: string, templateId: string)
    requires Exact(r) && tabId in r.projects && templateId != "" && Free(templateId, ':')
    ensures TabOf(TabScoped(tabId, templateId)) == tabId && TabScoped(tabId, templateId) !in r.projects
  {
    TabOfScoped(r, tabId, templateId);
    hide TabListsExact, ComponentListsExact, BindingListsExact, UsageExact, BindingIndexExact, InstancesExact,
         InstancesIdentified, PluginsIdentified, TemplatesIdentified, ComponentsIdentified, BindingsIdentified, TabOf;
    assert TabScoped(tabId, templateId)[|tabId|] == ':';
  }

  lemma TemplateAddedIs(r: Rows, s: Rows, tab: string, id: string, row: Template)
    requires tab in r.projects
    requires s == r.(templates := r.templates[id := row],
                     projects := r.projects[tab := r.projects[tab].(templates := ArrayAdd(r.projects[tab].templates, id,
                       true))])
    ensures TemplateAdded(r, s, tab, id, row)
  {
    hide ArrayAdd;
  }

  lemma ViewOfScoped(r: Rows, tabId: string, templateId: string, id: string)
    requires Exact(r) && tabId in r.projects && Free(templateId, ':')
    ensures Free(tabId, ':') && ViewOf(ViewScoped(tabId, templateId, id)) == ViewKey(tabId, templateId)
  {
    hide TabListsExact, ComponentListsExact, BindingListsExact, UsageExact, BindingIndexExact, InstancesExact,
         InstancesIdentified, PluginsIdentified, TemplatesIdentified, ComponentsIdentified, BindingsIdentified, ViewOf;
    OwnersOfComposed(tabId, templateId, id);
  }

  lemma RepresentedComponent(r: Rows, k: Content, id: string)
    requires Represents(r, k) && id in r.components
    ensures id in k.components
    ensures k.components[id] == ComponentContent(r.components[id].definition, r.components[id].config)
  {}

  lemma RenamedIdentified(r: Rows, tabId: string, templateId: string, componentId: string, newId: string)
    requires Exact(r) && tabId in r.projects && Free(templateId, ':')
    requires ViewScoped(tabId, templateId, componentId) in r.components
    ensures var id := ViewScoped(tabId, templateId, newId);
            var row := r.components[ViewScoped(tabId, templateId, componentId)].(id := id, componentId := newId);
            ViewOf(id) == ViewKey(tabId, templateId) && ComponentIdentified(r, id, row)
  {
    hide TabListsExact, ComponentListsExact, BindingListsExact, UsageExact, BindingIndexExact, InstancesExact,
         InstancesIdentified, PluginsIdentified, TemplatesIdentified, BindingsIdentified, ViewOf,
           ExtractIdsWithTemplate;
    OwnersOfComposed(tabId, templateId, componentId);
    OwnersOfComposed(tabId, templateId, newId);
    ExtractInvertsCompose(tabId, templateId, newId);
  }

  lemma NewBindingPlaced(
      r: Rows, tabId: string, templateId: string, source: string, target: string, bindingId: string, row: Binding)
    requires Exact(r) && tabId in r.projects && Free(templateId, ':')
    requires ViewScoped(tabId, templateId, source) in r.components
    requires ViewScoped(tabId, templateId, target) in r.components
    requires row.id == ViewScoped(tabId, templateId, bindingId)
    requires row.sourceComponent == ViewScoped(tabId, templateId, source)
    requires row.targetComponent == ViewScoped(tabId, templateId, target)
    ensures ViewOf(row.id) == ViewKey(tabId, templateId) && IsView(r, ViewOf(row.id))
    ensures BindingPlaced(r, row.id, row)
    ensures JoinsTwo(row) <==> (source, row.sourceState) != (target, row.targetAction)
  {
    hide TabListsExact, ComponentListsExact, BindingListsExact, UsageExact, BindingIndexExact, InstancesExact,
         InstancesIdentified, PluginsIdentified, TemplatesIdentified, BindingsIdentified, ViewOf,
           ExtractIdsWithTemplate;
    OwnersOfComposed(tabId, templateId, source);
    OwnersOfComposed(tabId, templateId, target);
    OwnersOfComposed(tabId, templateId, bindingId);
    if row.sourceComponent == row.targetComponent {
      ComposedIdsDistinct(tabId, templateId, source, tabId, templateId, target);
    }
  }

  lemma SetComponentFacts(r: Rows, tabId: string, templateId: string, componentId: string, row: Component)
    requires Exact(r) && tabId in r.projects && Free(templateId, ':')
    requires templateId != "" ==> TabScoped(tabId, templateId) in r.templates
    requires row.id == ViewScoped(tabId, templateId, componentId) && row.componentId == componentId
    requires row.templateId == if templateId == "" then "" else TabScoped(tabId, templateId)
    requires DefinitionExists(r, row.definition)
    ensures ViewOf(row.id) == ViewKey(tabId, templateId) && IsView(r, ViewKey(tabId, templateId))
    ensures !(ViewOf(row.id) in r.projects && ViewOf(row.id) in r.templates)
    ensures ComponentIdentified(r, row.id, row) && BindingsIdentified(r)
    ensures BindingListsExact(r.projects, r.templates, r.bindings.Keys)
  {
    hide TabListsExact, ComponentListsExact, BindingListsExact, UsageExact, BindingIndexExact, InstancesExact,
         InstancesIdentified, PluginsIdentified, TemplatesIdentified, ComponentsIdentified, BindingsIdentified, ViewOf,
           ExtractIdsWithTemplate;
    NewComponentIdentified(r, tabId, templateId, componentId, row);
    ProjectOrTemplate(r, ViewOf(row.id));
  }
}
