/**
 The online components view: a reducer that keeps four tables in step with the
 notifier's updates, and the notifier that sends a snapshot and then one or more
 updates for each registry event.
 */
module OnlineView {
  import opened Strings
  import opened ReducerTools
  import opened OnlineTables
  import opened OnlineReplica

  // ----- the reducer -----

  class View {
    var instances: map<string, InstanceRow>
    var instanceIds: seq<string>
    var plugins: map<string, PluginRow>
    var pluginIds: seq<string>
    var components: map<string, ComponentRow>
    var componentIds: seq<string>
    var states: map<string, StateRow>
    var stateIds: seq<string>

    ghost function Rows(): Tables
      reads `instances, `plugins, `components, `states
    {
      Tables(instances, plugins, components, states)
    }

    /** Each table lists its rows, sorted and once each. */
    ghost predicate Listed()
      reads this
    {
      && Lists(instanceIds, instances.Keys) && Lists(pluginIds, plugins.Keys)
      && Lists(componentIds, components.Keys) && Lists(stateIds, states.Keys)
    }

    ghost predicate Valid()
      reads this
    {
      Listed() && Exact(Rows())
    }

    constructor ()
      ensures Valid() && Rows() == Tables(map[], map[], map[], map[])
    {
      instances, plugins, components, states := map[], map[], map[], map[];
      instanceIds, pluginIds, componentIds, stateIds := [], [], [], [];
    }

    method EnsureInstance(i: string)
      requires Listed()
      modifies `instances, `instanceIds
      ensures Listed() && i in instances && instances == old(instances)[i := InstanceOf(old(Rows()), i)]
    {
      hide Lists, ArrayAdd;
      if i in instances {
        return;
      }
      ArrayAddLists(instanceIds, instances.Keys, i);
      instances := instances[i := InstanceRow([], [])];
      instanceIds := ArrayAdd(instanceIds, i, true);
      assert instances.Keys == old(instances.Keys) + {i};
    }

    method SetPlugin(i: string, p: string, info: string)
      requires Valid() && Compose(i, p) !in plugins
      modifies this
      ensures Valid() && Rows() == WithPlugin(old(Rows()), Compose(i, p), i, p, info)
    {
      hide Lists, ArrayAdd, Exact, Compose;
      WithPluginExact(Rows(), Compose(i, p), i, p, info);
      EnsureInstance(i);
      var id := Compose(i, p);
      ArrayAddLists(pluginIds, plugins.Keys, id);
      plugins := plugins[id := PluginRow(i, p, info, [])];
      pluginIds := ArrayAdd(pluginIds, id, true);
      assert plugins.Keys == old(plugins.Keys) + {id};
      var before := instances;
      instances := instances[i := instances[i].(plugins := ArrayAdd(instances[i].plugins, id, true))];
      assert instances.Keys == before.Keys;
      assert instances == WithPlugin(old(Rows()), id, i, p, info).instances;
    }

    /** Refused, by an exception, exactly while the plugin has components. */
    method ClearPlugin(i: string, p: string) returns (ok: bool)
      requires Valid() && Compose(i, p) in plugins && plugins[Compose(i, p)].instance == i && i in instances
      modifies this
      ensures Valid() && (ok <==> Users(old(Rows()), Compose(i, p)) == {})
      ensures Rows() == if ok then WithoutPlugin(old(Rows()), Compose(i, p)) else old(Rows())
    {
      hide Lists, ArrayRemove, Exact, Compose;
      var id := Compose(i, p);
      ListedUsers(Rows(), id);
      if |plugins[id].components| > 0 {
        return false;
      }
      WithoutPluginExact(Rows(), id);
      ArrayRemoveExactly(pluginIds, plugins.Keys, id);
      plugins := plugins - {id};
      pluginIds := ArrayRemove(pluginIds, id);
      assert plugins.Keys == old(plugins.Keys) - {id};
      var left := ArrayRemove(instances[i].plugins, id);
      instances := instances[i := instances[i].(plugins := left)];
      assert instances.Keys == old(instances.Keys);
      if |left| == 0 {
        ArrayRemoveExactly(instanceIds, instances.Keys, i);
        instances := instances - {i};
        instanceIds := ArrayRemove(instanceIds, i);
        assert instances.Keys == old(instances.Keys) - {i};
        assert instances == old(instances) - {i};
      }
      return true;
    }

    /** Refused exactly when the plugin is missing. */
    method SetComponent(i: string, id: string, p: string) returns (ok: bool)
      requires Valid() && Compose(i, id) !in components
      requires Compose(i, p) in plugins ==> plugins[Compose(i, p)].instance == i && i in instances
      modifies this
      ensures Valid() && (ok <==> Compose(i, p) in old(plugins))
      ensures Rows() ==
        if ok then WithComponent(old(Rows()), Compose(i, id),
          ComponentRow(i, id, Compose(i, p), [])) else old(Rows())
    {
      hide Lists, ArrayAdd, Exact, Compose;
      var plugin, k := Compose(i, p), Compose(i, id);
      if plugin !in plugins {
        return false;
      }
      WithComponentExact(Rows(), k, ComponentRow(i, id, plugin, []));
      ArrayAddLists(componentIds, components.Keys, k);
      components := components[k := ComponentRow(i, id, plugin, [])];
      componentIds := ArrayAdd(componentIds, k, true);
      assert components.Keys == old(components.Keys) + {k};
      plugins := plugins[plugin := plugins[plugin].(components := ArrayAdd(plugins[plugin].components, k, true))];
      assert plugins.Keys == old(plugins.Keys);
      instances := instances[i := instances[i].(components := ArrayAdd(instances[i].components, k, true))];
      assert instances.Keys == old(instances.Keys);
      return true;
    }

    method ClearComponent(i: string, id: string)
      requires Valid() && Compose(i, id) in components && components[Compose(i, id)].instance == i
      requires components[Compose(i, id)].plugin in plugins && i in instances
      modifies this
      ensures Valid() && Rows() == WithoutComponent(old(Rows()), Compose(i, id))
    {
      hide Lists, ArrayRemove, Exact, Compose;
      var k := Compose(i, id);
      var row := components[k];
      WithoutComponentExact(Rows(), k);
      ArrayRemoveExactly(componentIds, components.Keys, k);
      components := components - {k};
      componentIds := ArrayRemove(componentIds, k);
      assert components.Keys == old(components.Keys) - {k};
      plugins := plugins[row.plugin := plugins[row.plugin].(components := ArrayRemove(plugins[row.plugin].components,
        k))];
      assert plugins.Keys == old(plugins.Keys);
      instances := instances[i := instances[i].(components := ArrayRemove(instances[i].components, k))];
      assert instances.Keys == old(instances.Keys);
      RemoveStates(row.states);
    }

    method RemoveStates(ids: seq<string>)
      requires Lists(stateIds, states.Keys)
      modifies `states, `stateIds
      ensures Lists(stateIds, states.Keys) && states == old(states) - Elements(ids)
    {
      hide Lists, ArrayRemove;
      for j := 0 to |ids|
        invariant Lists(stateIds, states.Keys) && states == old(states) - Elements(ids[..j])
      {
        assert Elements(ids[..j + 1]) == Elements(ids[..j]) + {ids[j]};
        if ids[j] in states {
          ArrayRemoveExactly(stateIds, states.Keys, ids[j]);
          ghost var before := states;
          states := states - {ids[j]};
          stateIds := ArrayRemove(stateIds, ids[j]);
          assert states.Keys == before.Keys - {ids[j]};
        }
      }
      assert ids[..|ids|] == ids;
    }

    method SetState(i: string, id: string, name: string, value: string)
      requires Valid() && Compose(i, id) in components
      requires StateId(i, id, name) in states ==> states[StateId(i, id, name)].component == Compose(i, id)
      modifies this
      ensures Valid()
      ensures Rows() == WithState(old(Rows()), StateId(i, id, name), StateRow(i, Compose(i, id), name, value))
    {
      hide Lists, ArrayAdd, Exact, Compose, StateId;
      var k, component := StateId(i, id, name), Compose(i, id);
      WithStateExact(Rows(), k, StateRow(i, component, name, value));
      if k in states {
        states := states[k := states[k].(value := value)];
        assert states.Keys == old(states.Keys);
        return;
      }
      ArrayAddLists(stateIds, states.Keys, k);
      components := components[component := components[component].(states := ArrayAdd(components[component].states, k,
        true))];
      assert components.Keys == old(components.Keys);
      states := states[k := StateRow(i, component, name, value)];
      stateIds := ArrayAdd(stateIds, k, true);
      assert states.Keys == old(states.Keys) + {k};
    }

    /** An update that a registry can send never throws, and the tables show what it says. */
    method PushUpdate(u: Update, ghost g: Online) returns (ok: bool)
      requires Valid() && Shows(Rows(), g) && Clean(g) && WellFormed(g, u)
      modifies this
      ensures ok && Valid() && Shows(Rows(), Apply(g, u)) && Clean(Apply(g, u))
    {
      hide Lists, Exact, Shows, Clean, Compose, StateId, WithPlugin, WithoutPlugin, WithComponent, WithoutComponent,
           WithState;
      ApplyClean(g, u);
      ok := true;
      match u {
        case SetPlugin(i, p, info) =>
          SetPluginShown(Rows(), g, i, p, info);
          SetPlugin(i, p, info);
        case ClearPlugin(i, p) =>
          ClearPluginShown(Rows(), g, i, p);
          ok := ClearPlugin(i, p);
        case SetComponent(i, id, p) =>
          SetComponentShown(Rows(), g, i, id, p);
          ok := SetComponent(i, id, p);
        case ClearComponent(i, id) =>
          ClearComponentShown(Rows(), g, i, id);
          ClearComponent(i, id);
        case SetState(i, id, name, value) =>
          SetStateShown(Rows(), g, i, id, name, value);
          SetState(i, id, name, value);
      }
    }

    method PushUpdates(updates: seq<Update>, ghost g: Online) returns (ok: bool)
      requires Valid() && Shows(Rows(), g) && Clean(g) && WellFormedRun(g, updates)
      modifies this
      ensures ok && Valid() && Shows(Rows(), ApplyAll(g, updates)) && Clean(ApplyAll(g, updates))
    {
      hide Lists, Exact, Shows, Clean, WellFormed, Apply;
      ok := true;
      for j := 0 to |updates|
        invariant ok && Valid() && Shows(Rows(), ApplyAll(g, updates[..j])) && Clean(ApplyAll(g, updates[..j]))
      {
        RunPrefix(g, updates, j);
        ok := PushUpdate(updates[j], ApplyAll(g, updates[..j]));
      }
      assert updates[..|updates|] == updates;
    }
  }

  lemma ListedUsers(t: Tables, k: string)
    requires Exact(t) && k in t.plugins
    ensures t.plugins[k].components == [] <==> Users(t, k) == {}
  {
    hide Lists;
    assert PluginExact(t, k);
    ListsEmpty(t.plugins[k].components, Users(t, k));
  }

  // ----- runs of updates -----

  function ApplyAll(g: Online, updates: seq<Update>): Online {
    if updates == [] then g else Apply(ApplyAll(g, updates[..|updates| - 1]), updates[|updates| - 1])
  }

  ghost predicate WellFormedRun(g: Online, updates: seq<Update>) {
    updates == [] ||
    (WellFormedRun(g, updates[..|updates| - 1])
      && WellFormed(ApplyAll(g, updates[..|updates| - 1]), updates[|updates| - 1]))
  }

  lemma {:induction false} RunPrefix(g: Online, updates: seq<Update>, j: nat)
    requires WellFormedRun(g, updates) && j < |updates|
    ensures WellFormed(ApplyAll(g, updates[..j]), updates[j])
    ensures ApplyAll(g, updates[..j + 1]) == Apply(ApplyAll(g, updates[..j]), updates[j])
    decreases |updates|
  {
    hide WellFormed, Apply;
    assert updates[..j + 1][..j] == updates[..j];
    if j < |updates| - 1 {
      var init := updates[..|updates| - 1];
      RunPrefix(g, init, j);
      assert init[..j] == updates[..j];
    }
  }

  lemma OneMore(g: Online, updates: seq<Update>, u: Update)
    ensures ApplyAll(g, updates + [u]) == Apply(ApplyAll(g, updates), u)
    ensures WellFormedRun(g, updates + [u]) <==> WellFormedRun(g, updates) && WellFormed(ApplyAll(g, updates), u)
  {
    hide WellFormed, Apply;
    assert (updates + [u])[..|updates|] == updates;
  }

  // ----- the notifier -----

  datatype Event =
    | PluginAdded(instance: string, plugin: string, info: string)
    | PluginRemoved(instance: string, plugin: string)
    | ComponentAdded(instance: string, id: string, plugin: string, states: map<string, string>)
    | ComponentRemoved(instance: string, id: string)
    | StateChanged(instance: string, id: string, name: string, value: string)

  /** What a registry event changes. */
  function Next(g: Online, e: Event): Online {
    match e
    case PluginAdded(i, p, info) => Apply(g, SetPlugin(i, p, info))
    case PluginRemoved(i, p) => Apply(g, ClearPlugin(i, p))
    case ComponentAdded(i, id, p, states) => g.(components := g.components[id := Live(i, p, states)])
    case ComponentRemoved(i, id) => Apply(g, ClearComponent(i, id))
    case StateChanged(i, id, name, value) => Apply(g, SetState(i, id, name, value))
  }

  ghost predicate CanHappen(g: Online, e: Event) {
    match e
    case PluginAdded(i, p, info) => WellFormed(g, SetPlugin(i, p, info))
    case PluginRemoved(i, p) => WellFormed(g, ClearPlugin(i, p))
    case ComponentAdded(i, id, p, states) => WellFormed(g, SetComponent(i, id, p))
    case ComponentRemoved(i, id) => WellFormed(g, ClearComponent(i, id))
    case StateChanged(i, id, name, value) => WellFormed(g, SetState(i, id, name, value))
  }

  /** `updates` leads from `g` to `h` without ever being refused. */
  ghost predicate Leads(g: Online, updates: seq<Update>, h: Online) {
    WellFormedRun(g, updates) && ApplyAll(g, updates) == h
  }

  /** The `state` updates of one component whose states are not shown yet. */
  method SendStates(
      ghost g: Online, sent: seq<Update>, i: string, id: string, states: map<string, string>, ghost h: Online)
    returns (updates: seq<Update>)
    requires Leads(g, sent, h) && id in h.components && h.components[id].instance == i
    requires h.components[id].states == map[]
    ensures Leads(g, updates, h.(components := h.components[id := h.components[id].(states := states)]))
  {
    hide WellFormedRun, ApplyAll;
    updates := sent;
    ghost var built: map<string, string> := map[];
    var todo := states.Keys;
    assert h.components[id := h.components[id].(states := built)] == h.components;
    while todo != {}
      invariant todo <= states.Keys && built.Keys == states.Keys - todo
      invariant forall n :: n in built ==> built[n] == states[n]
      invariant Leads(g, updates, h.(components := h.components[id := h.components[id].(states := built)]))
      decreases |todo|
    {
      var name :| name in todo;
      OneMore(g, updates, SetState(i, id, name, states[name]));
      ghost var c := h.components[id].(states := built[name := states[name]]);
      assert h.components[id := h.components[id].(states := built)][id := c] == h.components[id := c];
      built := built[name := states[name]];
      updates := updates + [SetState(i, id, name, states[name])];
      todo := todo - {name};
    }
    assert built == states;
  }

  /** What the notifier sends for one registry event. */
  method Notify(e: Event, ghost g: Online) returns (updates: seq<Update>)
    requires CanHappen(g, e)
    ensures Leads(g, updates, Next(g, e))
  {
    hide WellFormedRun, ApplyAll;
    NothingSent(g);
    match e {
      case PluginAdded(i, p, info) =>
        OneMore(g, [], SetPlugin(i, p, info));
        updates := [] + [SetPlugin(i, p, info)];
      case PluginRemoved(i, p) =>
        OneMore(g, [], ClearPlugin(i, p));
        updates := [] + [ClearPlugin(i, p)];
      case ComponentAdded(i, id, p, states) =>
        OneMore(g, [], SetComponent(i, id, p));
        ghost var h := Apply(g, SetComponent(i, id, p));
        updates := SendStates(g, [] + [SetComponent(i, id, p)], i, id, states, h);
        assert h.components[id := h.components[id].(states := states)] == g.components[id := Live(i, p, states)];
      case ComponentRemoved(i, id) =>
        OneMore(g, [], ClearComponent(i, id));
        updates := [] + [ClearComponent(i, id)];
      case StateChanged(i, id, name, value) =>
        OneMore(g, [], SetState(i, id, name, value));
        updates := [] + [SetState(i, id, name, value)];
    }
  }

  lemma NothingSent(g: Online)
    ensures Leads(g, [], g)
  {}

  // ----- the snapshot -----

  method SendPlugins(plugins: map<(string, string), string>) returns (updates: seq<Update>)
    requires forall x :: x in plugins ==> Free(x.0, ':')
    ensures Leads(NOTHING, updates, Online(plugins, map[]))
  {
    hide WellFormedRun, ApplyAll, Free;
    NothingSent(NOTHING);
    updates := [];
    ghost var built: map<(string, string), string> := map[];
    var todo := plugins.Keys;
    while todo != {}
      invariant todo <= plugins.Keys && built.Keys == plugins.Keys - todo
      invariant forall x :: x in built ==> built[x] == plugins[x]
      invariant Leads(NOTHING, updates, Online(built, map[]))
      decreases |todo|
    {
      var x :| x in todo;
      OneMore(NOTHING, updates, SetPlugin(x.0, x.1, plugins[x]));
      assert (x.0, x.1) == x;
      built := built[x := plugins[x]];
      updates := updates + [SetPlugin(x.0, x.1, plugins[x])];
      todo := todo - {x};
    }
    assert built == plugins;
  }

  method SendComponents(g: Online, sent: seq<Update>) returns (updates: seq<Update>, ghost bare: map<string, Live>)
    requires Clean(g) && Leads(NOTHING, sent, Online(g.plugins, map[]))
    ensures bare.Keys == g.components.Keys && forall id :: id in bare ==> bare[id] == g.components[id].(states := map[])
    ensures Leads(NOTHING, updates, Online(g.plugins, bare))
  {
    hide WellFormedRun, ApplyAll, Free;
    updates, bare := sent, map[];
    var todo := g.components.Keys;
    while todo != {}
      invariant todo <= g.components.Keys && bare.Keys == g.components.Keys - todo
      invariant forall id :: id in bare ==> bare[id] == g.components[id].(states := map[])
      invariant Leads(NOTHING, updates, Online(g.plugins, bare))
      decreases |todo|
    {
      var id :| id in todo;
      var c := g.components[id];
      OneMore(NOTHING, updates, SetComponent(c.instance, id, c.plugin));
      bare := bare[id := Live(c.instance, c.plugin, map[])];
      updates := updates + [SetComponent(c.instance, id, c.plugin)];
      todo := todo - {id};
    }
  }

  /** `startNotify`: all plugins, then all components, then all states. */
  method Snapshot(g: Online) returns (updates: seq<Update>)
    requires Clean(g)
    ensures Leads(NOTHING, updates, g)
  {
    hide WellFormedRun, ApplyAll, Free;
    updates := SendPlugins(g.plugins);
    ghost var bare;
    updates, bare := SendComponents(g, updates);
    ghost var shown := bare;
    var todo := g.components.Keys;
    while todo != {}
      invariant todo <= g.components.Keys == shown.Keys
      invariant forall id :: id in shown ==>
        shown[id] == if id in todo then g.components[id].(states := map[]) else g.components[id]
      invariant Leads(NOTHING, updates, Online(g.plugins, shown))
      decreases |todo|
    {
      var id :| id in todo;
      var c := g.components[id];
      updates := SendStates(NOTHING, updates, c.instance, id, c.states, Online(g.plugins, shown));
      shown := shown[id := shown[id].(states := c.states)];
      todo := todo - {id};
    }
    assert shown == g.components;
  }

  // ----- whole runs -----

  function After(g: Online, events: seq<Event>): Online {
    if events == [] then g else Next(After(g, events[..|events| - 1]), events[|events| - 1])
  }

  ghost predicate AllCanHappen(g: Online, events: seq<Event>) {
    events == [] ||
    (AllCanHappen(g, events[..|events| - 1]) && CanHappen(After(g, events[..|events| - 1]), events[|events| - 1]))
  }

  lemma {:induction false} EventPrefix(g: Online, events: seq<Event>, j: nat)
    requires AllCanHappen(g, events) && j < |events|
    ensures CanHappen(After(g, events[..j]), events[j])
    ensures After(g, events[..j + 1]) == Next(After(g, events[..j]), events[j])
    decreases |events|
  {
    hide CanHappen, Next;
    assert events[..j + 1][..j] == events[..j];
    if j < |events| - 1 {
      var init := events[..|events| - 1];
      EventPrefix(g, init, j);
      assert init[..j] == events[..j];
    }
  }

  /**
   Replaying the snapshot on empty tables, and then every later event's updates,
   rebuilds the registry exactly and never hits an exception.
   */
  method Replay(g: Online, events: seq<Event>) returns (view: View, ok: bool)
    requires Clean(g) && AllCanHappen(g, events)
    ensures ok && view.Valid() && Shows(view.Rows(), After(g, events)) && Clean(After(g, events))
  {
    hide Lists, Exact, Shows, Clean, CanHappen, Next, WellFormedRun, ApplyAll;
    view := new View();
    ShowsNothing();
    var updates := Snapshot(g);
    ok := view.PushUpdates(updates, NOTHING);
    for j := 0 to |events|
      invariant ok && view.Valid() && Shows(view.Rows(), After(g, events[..j])) && Clean(After(g, events[..j]))
      invariant fresh(view)
    {
      EventPrefix(g, events, j);
      updates := Notify(events[j], After(g, events[..j]));
      ok := view.PushUpdates(updates, After(g, events[..j]));
    }
    assert events[..|events|] == events;
  }

  lemma ShowsNothing()
    ensures Shows(Tables(map[], map[], map[], map[]), NOTHING) && Clean(NOTHING)
  {}

  // ----- an instance that goes away -----

  lemma OneMoreEvent(g: Online, events: seq<Event>, e: Event)
    ensures After(g, events + [e]) == Next(After(g, events), e)
    ensures AllCanHappen(g, events + [e]) <==> AllCanHappen(g, events) && CanHappen(After(g, events), e)
  {
    hide CanHappen, Next;
    assert (events + [e])[..|events|] == events;
  }

  /** The components and plugins of `h` are those of `g`, less the ones named. */
  ghost predicate Less(g: Online, h: Online, ids: set<string>, plugins: set<(string, string)>) {
    && h.components.Keys == g.components.Keys - ids
      && (forall id :: id in h.components ==> h.components[id] == g.components[id])
    && h.plugins.Keys == g.plugins.Keys - plugins && (forall x :: x in h.plugins ==> h.plugins[x] == g.plugins[x])
  }

  function ComponentsOf(g: Online, i: string): set<string> {
    set id | id in g.components && g.components[id].instance == i
  }

  function PluginsOf(g: Online, i: string): set<(string, string)> { set x | x in g.plugins && x.0 == i }

  /**
   `BusInstance.close`: components first, then plugins. Every step can happen, and the
   registry loses exactly what the instance had.
   */
  method CloseInstance(g: Online, i: string) returns (events: seq<Event>)
    ensures AllCanHappen(g, events)
    ensures Less(g, After(g, events), ComponentsOf(g, i), PluginsOf(g, i))
  {
    hide AllCanHappen, After;
    events := RemoveComponents(g, i);
    events := RemovePlugins(g, i, events);
  }

  lemma NoEvents(g: Online)
    ensures AllCanHappen(g, []) && After(g, []) == g
  {}

  method RemoveComponents(g: Online, i: string) returns (events: seq<Event>)
    ensures AllCanHappen(g, events) && Less(g, After(g, events), ComponentsOf(g, i), {})
  {
    hide AllCanHappen, After;
    NoEvents(g);
    events := [];
    var todo := ComponentsOf(g, i);
    while todo != {}
      invariant todo <= ComponentsOf(g, i)
      invariant AllCanHappen(g, events) && Less(g, After(g, events), ComponentsOf(g, i) - todo, {})
      decreases |todo|
    {
      var id :| id in todo;
      OneMoreEvent(g, events, ComponentRemoved(i, id));
      events := events + [ComponentRemoved(i, id)];
      todo := todo - {id};
    }
  }

  method RemovePlugins(g: Online, i: string, before: seq<Event>) returns (events: seq<Event>)
    requires AllCanHappen(g, before) && Less(g, After(g, before), ComponentsOf(g, i), {})
    ensures AllCanHappen(g, events) && Less(g, After(g, events), ComponentsOf(g, i), PluginsOf(g, i))
  {
    hide AllCanHappen, After;
    events := before;
    var todo := PluginsOf(g, i);
    while todo != {}
      invariant todo <= PluginsOf(g, i)
      invariant AllCanHappen(g, events) && Less(g, After(g, events), ComponentsOf(g, i), PluginsOf(g, i) - todo)
      decreases |todo|
    {
      var x :| x in todo;
      assert (i, x.1) == x;
      OneMoreEvent(g, events, PluginRemoved(i, x.1));
      events := events + [PluginRemoved(i, x.1)];
      todo := todo - {x};
    }
  }
}
