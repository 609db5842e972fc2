/**
 Template nesting over whole runs of project updates: if every template instance
 added was one `getUsableTemplates` offers, the containment graph stays acyclic and
 every export stays local, so the resolvers terminate in every reachable store.
 */
module Nesting {
  import opened Strings
  import opened ReducerTools
  import opened DesignerIds
  import opened CoreStore
  import opened ProjectUpdates
  import opened TemplateGraph
  import opened Templates

  ghost function ContentEdges(components: map<string, ComponentContent>): Edges {
    set c | c in components && components[c].definition.TemplateDef? :: (ViewOf(c), components[c].definition.id)
  }

  ghost predicate LocalExports(templates: map<string, Exports>) {
    forall t :: t in templates ==>
      && (forall m :: m in templates[t].members ==> ViewOf(templates[t].members[m].component) == t)
      && (forall m :: m in templates[t].config ==> ViewOf(templates[t].config[m].component) == t)
  }

  /** The content a designer can reach: acyclic nesting, local exports. */
  ghost predicate Sound(k: Content) {
    && (forall t :: t in k.tabs ==> Free(t, ':'))
    && Acyclic(ContentEdges(k.components)) && LocalExports(k.templates)
  }

  /** A new instance of a template is one that does not contain the view it goes into. */
  ghost predicate OffersUsable(k: Content, tabId: string, u: Update) {
    match u
    case SetComponentUpdate(view, componentId, definition, _) =>
      ViewScoped(tabId, view, componentId) !in k.components && definition.TemplateDef? ==>
        !Reach(ContentEdges(k.components), ScopeDefinition(tabId, definition).id, ViewKey(tabId, view))
    case _ => true
  }

  ghost predicate UsableRun(k: Content, updates: seq<(string, Update)>)
    requires WellFormedRun(k, updates)
    decreases |updates|
  {
    updates == [] || (OffersUsable(k, updates[0].0, updates[0].1)
                      && UsableRun(Apply(k, updates[0].0, updates[0].1), updates[1..]))
  }

  // ----- edges of changed content -----

  lemma EdgesAfterSet(components: map<string, ComponentContent>, id: string, row: ComponentContent)
    requires id in components ==> components[id].definition == row.definition
    ensures ContentEdges(components[id := row]) ==
            ContentEdges(components) + (if row.definition.TemplateDef? then {(ViewOf(id), row.definition.id)} else {})
    ensures id in components ==> ContentEdges(components[id := row]) == ContentEdges(components)
  {
    hide ViewOf;
    var after := components[id := row];
    var added := if row.definition.TemplateDef? then {(ViewOf(id), row.definition.id)} else {};
    forall e ensures e in ContentEdges(after) <==> e in ContentEdges(components) + added {
      if e in ContentEdges(components) {
        var c :| c in components && components[c].definition.TemplateDef?
          && (ViewOf(c), components[c].definition.id) == e;
        assert c in after && after[c].definition == components[c].definition;
      }
      if e in added {
        assert id in after && after[id] == row;
      }
    }
    if id in components && row.definition.TemplateDef? {
      assert (ViewOf(id), components[id].definition.id) in ContentEdges(components);
    }
  }

  lemma EdgesAfterRemove(components: map<string, ComponentContent>, ids: set<string>)
    ensures ContentEdges(components - ids) <= ContentEdges(components)
  {
    hide ViewOf;
    forall e | e in ContentEdges(components - ids) ensures e in ContentEdges(components) {
      var c :| c in components - ids && components[c].definition.TemplateDef?
        && (ViewOf(c), components[c].definition.id) == e;
      assert c in components;
    }
  }

  lemma EdgesAfterRename(components: map<string, ComponentContent>, id: string, newId: string)
    requires id in components && newId !in components && ViewOf(newId) == ViewOf(id)
    ensures ContentEdges((components - {id})[newId := components[id]]) <= ContentEdges(components)
  {
    hide ViewOf;
    var rest := components - {id};
    EdgesAfterSet(rest, newId, components[id]);
    EdgesAfterRemove(components, {id});
    if components[id].definition.TemplateDef? {
      assert (ViewOf(id), components[id].definition.id) in ContentEdges(components);
    }
  }

  // ----- one update -----

  lemma SetComponentSound(k: Content, tabId: string, u: Update)
    requires Sound(k) && WellFormed(k, tabId, u) && u.SetComponentUpdate? && OffersUsable(k, tabId, u)
    ensures Sound(Apply(k, tabId, u))
  {
    hide ViewOf, LocalExports, ContentEdges, Acyclic, Free, Reach, TabOf;
    OwnersOfComposed(tabId, u.viewId, u.componentId);
    var id, d := ViewScoped(tabId, u.viewId, u.componentId), ScopeDefinition(tabId, u.definition);
    EdgesAfterSet(k.components, id, ComponentContent(d, u.settings));
    if id !in k.components && d.TemplateDef? {
      AddEdgeAcyclic(ContentEdges(k.components), ViewOf(id), d.id);
    } else {
      assert ContentEdges(Apply(k, tabId, u).components) == ContentEdges(k.components);
    }
  }

  lemma FewerEdgesSound(k: Content, k': Content)
    requires Sound(k) && k'.tabs.Keys == k.tabs.Keys && LocalExports(k'.templates)
    requires ContentEdges(k'.components) <= ContentEdges(k.components)
    ensures Sound(k')
  {
    hide ViewOf, LocalExports, ContentEdges, Acyclic, Free;
    AcyclicMonotone(ContentEdges(k'.components), ContentEdges(k.components));
  }

  lemma RenameSound(k: Content, tabId: string, u: Update)
    requires Sound(k) && WellFormed(k, tabId, u) && u.RenameComponentUpdate?
    ensures Sound(Apply(k, tabId, u))
  {
    hide ViewOf, LocalExports, ContentEdges, Acyclic, Free, Sound, TabOf;
    SoundParts(k);
    OwnersOfComposed(tabId, u.viewId, u.componentId);
    OwnersOfComposed(tabId, u.viewId, u.newId);
    EdgesAfterRename(k.components, ViewScoped(tabId, u.viewId, u.componentId), ViewScoped(tabId, u.viewId, u.newId));
    FewerEdgesSound(k, Apply(k, tabId, u));
  }

  lemma SoundParts(k: Content)
    requires Sound(k)
    ensures LocalExports(k.templates) && forall t :: t in k.tabs ==> Free(t, ':')
  {}

  lemma SetTemplateSound(k: Content, tabId: string, u: Update)
    requires Sound(k) && WellFormed(k, tabId, u) && u.SetTemplateUpdate?
    ensures Sound(Apply(k, tabId, u))
  {
    hide ViewOf, ContentEdges, Acyclic, Free, ScopeConfig, ScopeMembers;
    var id := TabScoped(tabId, u.templateId);
    var exports := Exports(ScopeConfig(tabId, u.templateId, u.config), ScopeMembers(tabId, u.templateId, u.members));
    forall m | m in exports.members ensures ViewOf(exports.members[m].component) == id {
      ScopedMembersAreLocal(tabId, u.templateId, u.members, m);
    }
    forall m | m in exports.config ensures ViewOf(exports.config[m].component) == id {
      ScopedConfigIsLocal(tabId, u.templateId, u.config, m);
    }
    assert LocalExports(k.templates[id := exports]);
  }

  lemma ClearTemplateSound(k: Content, tabId: string, u: Update)
    requires Sound(k) && WellFormed(k, tabId, u) && u.ClearTemplateUpdate?
    ensures Sound(Apply(k, tabId, u))
  {
    hide ViewOf, ContentEdges, Acyclic, Free, InView, Sound;
    var id := TabScoped(tabId, u.templateId);
    SoundParts(k);
    EdgesAfterRemove(k.components, InView(k.components.Keys, id));
    assert LocalExports(k.templates - {id});
    FewerEdgesSound(k, Apply(k, tabId, u));
  }

  lemma UpdateSound(k: Content, tabId: string, u: Update)
    requires Sound(k) && WellFormed(k, tabId, u) && OffersUsable(k, tabId, u)
    ensures Sound(Apply(k, tabId, u))
  {
    hide LocalExports, ContentEdges, Acyclic, Free, ViewOf, Sound, ScopeConfig, ScopeMembers;
    SoundParts(k);
    match u
    case SetComponentUpdate(_, _, _, _) => SetComponentSound(k, tabId, u);
    case RenameComponentUpdate(_, _, _) => RenameSound(k, tabId, u);
    case SetTemplateUpdate(_, _, _) => SetTemplateSound(k, tabId, u);
    case ClearTemplateUpdate(_) => ClearTemplateSound(k, tabId, u);
    case ClearComponentUpdate(view, componentId) =>
      EdgesAfterRemove(k.components, {ViewScoped(tabId, view, componentId)});
      FewerEdgesSound(k, Apply(k, tabId, u));
    case SetPluginUpdate(_, _, _) => FewerEdgesSound(k, Apply(k, tabId, u));
    case ClearPluginUpdate(_) => FewerEdgesSound(k, Apply(k, tabId, u));
    case SetBindingUpdate(_, _, _, _, _, _) => FewerEdgesSound(k, Apply(k, tabId, u));
    case ClearBindingUpdate(_, _) => FewerEdgesSound(k, Apply(k, tabId, u));
  }

  /** Every well-formed run that only adds usable templates keeps nesting acyclic and exports local. */
  lemma {:induction false} RunSound(k: Content, updates: seq<(string, Update)>)
    requires Sound(k) && WellFormedRun(k, updates) && UsableRun(k, updates)
    ensures Sound(ApplyAll(k, updates))
    decreases |updates|
  {
    hide Sound, WellFormed, Apply, OffersUsable;
    if updates != [] {
      UpdateSound(k, updates[0].0, updates[0].1);
      RunSound(Apply(k, updates[0].0, updates[0].1), updates[1..]);
    }
  }

  /** The edges of a store are those of its content. */
  lemma SameEdges(r: Rows, k: Content)
    requires Represents(r, k)
    ensures Containment(r.components) == ContentEdges(k.components)
  {
    hide ViewOf, TabsAre, PluginsAre, BindingsAre;
    forall c | c in r.components ensures k.components[c].definition == r.components[c].definition {
      assert k.components[c] == ComponentContent(r.components[c].definition, r.components[c].config);
    }
    forall e ensures e in Containment(r.components) <==> e in ContentEdges(k.components) {
      if e in Containment(r.components) {
        var c :| c in r.components && r.components[c].definition.TemplateDef?
          && (ViewOf(c), r.components[c].definition.id) == e;
        assert c in k.components;
      }
      if e in ContentEdges(k.components) {
        var c :| c in k.components && k.components[c].definition.TemplateDef?
          && (ViewOf(c), k.components[c].definition.id) == e;
        assert c in r.components;
      }
    }
  }

  /** A new instance goes into the active view, and its template is one that `getUsableTemplates` offers there. */
  lemma OfferedIsUsable(r: Rows, k: Content, tabId: string, u: Update)
    requires Exact(r) && Represents(r, k) && tabId in r.projects && u.SetComponentUpdate? && u.definition.TemplateDef?
    requires ViewScoped(tabId, u.viewId, u.componentId) !in k.components
    requires ViewKey(tabId, u.viewId) == ActiveView(r, tabId)
    requires ScopeDefinition(tabId, u.definition).id in InTab(r.templates.Keys, tabId)
    ensures OffersUsable(k, tabId, u) <==> IsUsable(r, tabId, ScopeDefinition(tabId, u.definition).id)
  {
    hide Exact, Represents, Reach, Containment, ContentEdges;
    SameEdges(r, k);
    MainViewIsOutside(r, tabId, ScopeDefinition(tabId, u.definition).id);
  }

  /** In a store with such content the resolvers may be called: they terminate. */
  lemma SoundStoreResolves(r: Rows, k: Content)
    requires Represents(r, k) && Sound(k)
    ensures Resolvable(r)
  {
    hide ViewOf, Acyclic, Free, TabsAre, PluginsAre, BindingsAre, Containment, ContentEdges;
    SameEdges(r, k);
    forall t | t in r.templates ensures r.templates[t].exports == k.templates[t] {}
  }
}
