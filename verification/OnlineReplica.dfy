/**
 What the online components view should show: the registry's plugins, components and
 states, under ids composed with ":". Each update the notifier sends changes the
 registry's picture and the tables in step.
 */
module OnlineReplica {
  import opened Strings
  import opened ReducerTools
  import opened OnlineTables

  // ----- composed ids -----

  function Compose(a: string, b: string): string { a + ":" + b }

  function StateId(i: string, id: string, name: string): string { Compose(Compose(i, id), name) }

  lemma ComposeInjective(a: string, b: string, c: string, d: string)
    requires Free(a, ':') && Free(c, ':')
    ensures Compose(a, b) == Compose(c, d) <==> a == c && b == d
  {
    JoinsCollide(a, b, c, d, ':');
    if Shifted(a, b, c, d, ':') { ShiftNeedsSeparator(a, b, c, d, ':'); }
    if Shifted(c, d, a, b, ':') { ShiftNeedsSeparator(c, d, a, b, ':'); }
  }

  lemma StateIdInjective(i: string, id: string, n: string, i': string, id': string, n': string)
    requires Free(i, ':') && Free(i', ':') && Free(id, ':') && Free(id', ':')
    ensures StateId(i, id, n) == StateId(i', id', n') <==> i == i' && id == id' && n == n'
  {
    assert StateId(i, id, n) == Compose(i, Compose(id, n)) && StateId(i', id', n') == Compose(i', Compose(id', n'));
    ComposeInjective(i, Compose(id, n), i', Compose(id', n'));
    ComposeInjective(id, n, id', n');
  }

  // ----- the registry's picture -----

  datatype Live = Live(instance: string, plugin: string, states: map<string, string>)

  /** Plugins by instance and id, components by id. */
  datatype Online = Online(plugins: map<(string, string), string>, components: map<string, Live>)

  const NOTHING := Online(map[], map[])

  /** Instance names and component ids have no colon, and every component's plugin is there. */
  ghost predicate Clean(g: Online) {
    && (forall x :: x in g.plugins ==> Free(x.0, ':'))
    && (forall id :: id in g.components ==>
      Free(id, ':') && (g.components[id].instance, g.components[id].plugin) in g.plugins)
  }

  // ----- updates -----

  datatype Update =
    | SetPlugin(instance: string, plugin: string, info: string)
    | ClearPlugin(instance: string, plugin: string)
    | SetComponent(instance: string, id: string, plugin: string)
    | ClearComponent(instance: string, id: string)
    | SetState(instance: string, id: string, name: string, value: string)

  ghost predicate Unused(g: Online, i: string, plugin: string) {
    forall id :: id in g.components ==> !(g.components[id].instance == i && g.components[id].plugin == plugin)
  }

  /** What a registry can do next: in particular a plugin only leaves after its components. */
  ghost predicate WellFormed(g: Online, u: Update) {
    match u
    case SetPlugin(i, p, _) => Free(i, ':') && (i, p) !in g.plugins
    case ClearPlugin(i, p) => (i, p) in g.plugins && Unused(g, i, p)
    case SetComponent(i, id, p) => Free(id, ':') && id !in g.components && (i, p) in g.plugins
    case ClearComponent(i, id) => id in g.components && g.components[id].instance == i
    case SetState(i, id, _, _) => id in g.components && g.components[id].instance == i
  }

  function Apply(g: Online, u: Update): Online {
    match u
    case SetPlugin(i, p, info) => g.(plugins := g.plugins[(i, p) := info])
    case ClearPlugin(i, p) => g.(plugins := g.plugins - {(i, p)})
    case SetComponent(i, id, p) => g.(components := g.components[id := Live(i, p, map[])])
    case ClearComponent(i, id) => g.(components := g.components - {id})
    case SetState(i, id, name, value) =>
      if id in g.components
      then g.(components := g.components[id := g.components[id].(states := g.components[id].states[name := value])])
      else g
  }

  lemma ApplyClean(g: Online, u: Update)
    requires Clean(g) && WellFormed(g, u)
    ensures Clean(Apply(g, u))
  {
    hide Free;
  }

  // ----- what the tables show -----

  ghost predicate ShowsPlugin(t: Tables, g: Online, x: (string, string))
    requires x in g.plugins
  {
    var k := Compose(x.0, x.1);
    k in t.plugins && t.plugins[k].instance == x.0 && t.plugins[k].plugin == x.1 && t.plugins[k].info == g.plugins[x]
  }

  ghost predicate IsPlugin(t: Tables, g: Online, k: string)
    requires k in t.plugins
  {
    (t.plugins[k].instance, t.plugins[k].plugin) in g.plugins
      && k == Compose(t.plugins[k].instance, t.plugins[k].plugin)
  }

  ghost predicate ShowsPlugins(t: Tables, g: Online) {
    && (forall x :: x in g.plugins ==> ShowsPlugin(t, g, x))
    && (forall k :: k in t.plugins ==> IsPlugin(t, g, k))
  }

  ghost predicate ShowsComponent(t: Tables, g: Online, id: string)
    requires id in g.components
  {
    var c := g.components[id];
    var k := Compose(c.instance, id);
    && k in t.components && t.components[k].instance == c.instance && t.components[k].display == id
    && t.components[k].plugin == Compose(c.instance, c.plugin)
  }

  ghost predicate IsComponent(t: Tables, g: Online, k: string)
    requires k in t.components
  {
    var row := t.components[k];
    row.display in g.components && g.components[row.display].instance == row.instance
      && k == Compose(row.instance, row.display)
  }

  ghost predicate ShowsComponents(t: Tables, g: Online) {
    && (forall id :: id in g.components ==> ShowsComponent(t, g, id))
    && (forall k :: k in t.components ==> IsComponent(t, g, k))
  }

  ghost predicate ShowsState(t: Tables, g: Online, id: string, n: string)
    requires id in g.components && n in g.components[id].states
  {
    var c := g.components[id];
    var k := StateId(c.instance, id, n);
    k in t.states && t.states[k] == StateRow(c.instance, Compose(c.instance, id), n, c.states[n])
  }

  /** A state row is about a state of a component that is there. */
  ghost predicate IsState(t: Tables, g: Online, k: string)
    requires k in t.states
  {
    var row := t.states[k];
    row.component in t.components && IsStateOf(t, g, k, t.components[row.component].display)
  }

  ghost predicate IsStateOf(t: Tables, g: Online, k: string, id: string)
    requires k in t.states
  {
    var row := t.states[k];
    && id in g.components && row.instance == g.components[id].instance && row.component == Compose(row.instance, id)
    && row.name in g.components[id].states && k == StateId(row.instance, id, row.name)
  }

  ghost predicate ShowsStates(t: Tables, g: Online) {
    && (forall id, n :: id in g.components && n in g.components[id].states ==> ShowsState(t, g, id, n))
    && (forall k :: k in t.states ==> IsState(t, g, k))
  }

  /** The tables show exactly the registry. */
  ghost predicate Shows(t: Tables, g: Online) {
    ShowsPlugins(t, g) && ShowsComponents(t, g) && ShowsStates(t, g)
  }

  // ----- one update at a time -----

  lemma SetPluginShown(t: Tables, g: Online, i: string, p: string, info: string)
    requires Shows(t, g) && Clean(g) && WellFormed(g, SetPlugin(i, p, info))
    ensures Compose(i, p) !in t.plugins
    ensures Shows(WithPlugin(t, Compose(i, p), i, p, info), Apply(g, SetPlugin(i, p, info)))
  {
    hide Free, ArrayAdd, Compose, StateId;
    var r, h := WithPlugin(t, Compose(i, p), i, p, info), Apply(g, SetPlugin(i, p, info));
    if Compose(i, p) in t.plugins {
      assert IsPlugin(t, g, Compose(i, p));
      ComposeInjective(i, p, t.plugins[Compose(i, p)].instance, t.plugins[Compose(i, p)].plugin);
    }
    forall x | x in h.plugins ensures ShowsPlugin(r, h, x) {
      ComposeInjective(x.0, x.1, i, p);
      if x != (i, p) { assert ShowsPlugin(t, g, x); }
    }
    forall k | k in r.plugins ensures IsPlugin(r, h, k) {
      if k != Compose(i, p) { assert IsPlugin(t, g, k); }
    }
    OthersShown(t, g, r, h);
  }

  /** Plugins come and go without touching what is shown of components and states. */
  lemma OthersShown(t: Tables, g: Online, r: Tables, h: Online)
    requires ShowsComponents(t, g) && ShowsStates(t, g)
    requires r.components == t.components && r.states == t.states && h.components == g.components
    ensures ShowsComponents(r, h) && ShowsStates(r, h)
  {
    hide Compose, StateId;
    forall id | id in h.components ensures ShowsComponent(r, h, id) { assert ShowsComponent(t, g, id); }
    forall k | k in r.components ensures IsComponent(r, h, k) { assert IsComponent(t, g, k); }
    StatesKept(t, g, r, h);
  }

  lemma StatesKept(t: Tables, g: Online, r: Tables, h: Online)
    requires ShowsStates(t, g) && r.states == t.states && r.components == t.components && h.components == g.components
    ensures ShowsStates(r, h)
  {
    hide Compose, StateId;
    forall id, n | id in h.components
      && n in h.components[id].states ensures ShowsState(r, h, id, n) { assert ShowsState(t, g, id, n); }
    forall k | k in r.states ensures IsState(r, h, k) { assert IsState(t, g, k); }
  }

  /** A plugin is used in the tables exactly when it is used in the registry. */
  lemma UsedIffUsed(t: Tables, g: Online, i: string, p: string)
    requires Shows(t, g) && Clean(g) && Free(i, ':')
    ensures Users(t, Compose(i, p)) == {} <==> Unused(g, i, p)
  {
    hide Free, Compose, StateId, ShowsStates, ShowsPlugins;
    if id :| id in g.components && g.components[id].instance == i && g.components[id].plugin == p {
      assert ShowsComponent(t, g, id);
      assert Compose(i, id) in Users(t, Compose(i, p));
    }
    if k :| k in Users(t, Compose(i, p)) {
      assert IsComponent(t, g, k);
      var id := t.components[k].display;
      assert ShowsComponent(t, g, id);
      ComposeInjective(g.components[id].instance, g.components[id].plugin, i, p);
    }
  }

  lemma PluginRemoved(t: Tables, g: Online, r: Tables, h: Online, i: string, p: string)
    requires ShowsPlugins(t, g) && Clean(g) && (i, p) in g.plugins
    requires r.plugins == t.plugins - {Compose(i, p)} && h.plugins == g.plugins - {(i, p)}
    ensures ShowsPlugins(r, h)
  {
    hide Free, Compose;
    forall x | x in h.plugins ensures ShowsPlugin(r, h, x) {
      assert ShowsPlugin(t, g, x) && Free((i, p).0, ':');
      ComposeInjective(x.0, x.1, i, p);
    }
    forall q | q in r.plugins ensures IsPlugin(r, h, q) { assert IsPlugin(t, g, q); }
  }

  lemma CleanInstance(g: Online, i: string, p: string)
    requires Clean(g) && (i, p) in g.plugins
    ensures Free(i, ':')
  {
    hide Free;
    assert Free((i, p).0, ':');
  }

  lemma ClearPluginShown(t: Tables, g: Online, i: string, p: string)
    requires Shows(t, g) && Exact(t) && Clean(g) && WellFormed(g, ClearPlugin(i, p))
    ensures var k := Compose(i, p);
            k in t.plugins && t.plugins[k].instance == i && i in t.instances
            && Users(t, k) == {}
    ensures Shows(WithoutPlugin(t, Compose(i, p)), Apply(g, ClearPlugin(i, p)))
  {
    hide Free, ArrayRemove, Compose, Exact, Clean, Unused, ShowsPlugins, ShowsComponents, ShowsStates;
    CleanInstance(g, i, p);
    PluginRowIs(t, g, i, p);
    UsedIffUsed(t, g, i, p);
    var r, h := WithoutPlugin(t, Compose(i, p)), Apply(g, ClearPlugin(i, p));
    PluginRemoved(t, g, r, h, i, p);
    OthersShown(t, g, r, h);
  }

  lemma NoRowYet(t: Tables, g: Online, i: string, id: string)
    requires Shows(t, g) && Clean(g) && Free(i, ':') && Free(id, ':') && id !in g.components
    ensures Compose(i, id) !in t.components
  {
    hide Free, Compose, StateId, ShowsStates, ShowsPlugins;
    if Compose(i, id) in t.components {
      assert IsComponent(t, g, Compose(i, id));
      var row := t.components[Compose(i, id)];
      ComposeInjective(i, id, row.instance, row.display);
    }
  }

  /** Rows that only differ in the components they list. */
  ghost predicate SamePlugins(t: Tables, r: Tables) {
    && r.plugins.Keys == t.plugins.Keys
    && forall k :: k in t.plugins ==>
         r.plugins[k].instance == t.plugins[k].instance && r.plugins[k].plugin == t.plugins[k].plugin
           && r.plugins[k].info == t.plugins[k].info
  }

  lemma PluginsKept(t: Tables, g: Online, r: Tables, h: Online)
    requires ShowsPlugins(t, g) && SamePlugins(t, r) && h.plugins == g.plugins
    ensures ShowsPlugins(r, h)
  {
    hide Compose;
    forall x | x in h.plugins ensures ShowsPlugin(r, h, x) { assert ShowsPlugin(t, g, x); }
    forall q | q in r.plugins ensures IsPlugin(r, h, q) { assert IsPlugin(t, g, q); }
  }

  lemma PluginRowIs(t: Tables, g: Online, i: string, p: string)
    requires ShowsPlugins(t, g) && Exact(t) && (i, p) in g.plugins
    ensures Compose(i, p) in t.plugins && t.plugins[Compose(i, p)].instance == i && i in t.instances
  {
    hide Compose, Lists;
    assert ShowsPlugin(t, g, (i, p));
    assert PluginExact(t, Compose(i, p));
  }

  lemma ComponentAdded(t: Tables, g: Online, r: Tables, h: Online, i: string, id: string, p: string)
    requires ShowsComponents(t, g) && id !in g.components && Compose(i, id) !in t.components
    requires r.components == t.components[Compose(i, id) := ComponentRow(i, id, Compose(i, p), [])]
    requires h.components == g.components[id := Live(i, p, map[])]
    ensures ShowsComponents(r, h)
  {
    hide Compose;
    forall j | j in h.components ensures ShowsComponent(r, h, j) {
      if j != id { assert ShowsComponent(t, g, j); }
    }
    forall k | k in r.components ensures IsComponent(r, h, k) {
      if k != Compose(i, id) { assert IsComponent(t, g, k); }
    }
  }

  lemma SetComponentShown(t: Tables, g: Online, i: string, id: string, p: string)
    requires Shows(t, g) && Exact(t) && Clean(g) && WellFormed(g, SetComponent(i, id, p))
    ensures var pk := Compose(i, p);
            pk in t.plugins && t.plugins[pk].instance == i && i in t.instances
            && Compose(i, id) !in t.components
    ensures Shows(WithComponent(t, Compose(i, id), ComponentRow(i, id, Compose(i, p), [])),
      Apply(g, SetComponent(i, id, p)))
  {
    hide Free, ArrayAdd, Compose, Exact, Clean, ShowsPlugins, ShowsComponents, ShowsStates;
    CleanInstance(g, i, p);
    PluginRowIs(t, g, i, p);
    NoRowYet(t, g, i, id);
    var r, h := WithComponent(t, Compose(i, id), ComponentRow(i, id, Compose(i, p), [])),
      Apply(g, SetComponent(i, id, p));
    PluginsKept(t, g, r, h);
    ComponentAdded(t, g, r, h, i, id, p);
    NewComponentNoStates(t, g, r, h, id, Compose(i, id));
  }

  lemma NewComponentNoStates(t: Tables, g: Online, r: Tables, h: Online, id: string, k: string)
    requires ShowsStates(t, g) && r.states == t.states && id !in g.components && id in h.components
    requires h.components[id].states == map[]
    requires h.components == g.components[id := h.components[id]]
    requires k !in t.components && k in r.components && r.components == t.components[k := r.components[k]]
    ensures ShowsStates(r, h)
  {
    hide Compose, StateId;
    forall j, n | j in h.components && n in h.components[j].states ensures ShowsState(r, h, j, n) {
      assert j != id && ShowsState(t, g, j, n);
    }
    forall q | q in r.states ensures IsState(r, h, q) { assert IsState(t, g, q); }
  }

  lemma ComponentRowIs(t: Tables, g: Online, i: string, id: string)
    requires Shows(t, g) && Exact(t) && id in g.components && g.components[id].instance == i
    ensures Compose(i, id) in t.components && i in t.instances
    ensures var row := t.components[Compose(i, id)]; row.instance == i && row.display == id && row.plugin in t.plugins
  {
    hide Compose, StateId, Lists, ShowsStates, ShowsPlugins;
    assert ShowsComponent(t, g, id);
    assert ComponentExact(t, Compose(i, id));
    assert PluginExact(t, t.components[Compose(i, id)].plugin);
  }

  lemma ComponentRemoved(t: Tables, g: Online, r: Tables, h: Online, id: string)
    requires ShowsComponents(t, g) && Clean(g) && id in g.components
    requires r.components == t.components - {Compose(g.components[id].instance, id)}
    requires h.components == g.components - {id}
    ensures ShowsComponents(r, h)
  {
    hide Compose, Clean;
    forall j | j in h.components ensures ShowsComponent(r, h, j) {
      assert ShowsComponent(t, g, j);
      OtherComponent(g, j, id);
    }
    forall q | q in r.components ensures IsComponent(r, h, q) { assert IsComponent(t, g, q); }
  }

  lemma ClearComponentShown(t: Tables, g: Online, i: string, id: string)
    requires Shows(t, g) && Exact(t) && Clean(g) && WellFormed(g, ClearComponent(i, id))
    ensures var k := Compose(i, id);
            k in t.components && t.components[k].instance == i
            && t.components[k].plugin in t.plugins && i in t.instances
    ensures Shows(WithoutComponent(t, Compose(i, id)), Apply(g, ClearComponent(i, id)))
  {
    hide ArrayRemove, Compose, Exact, Clean, Elements, ShowsPlugins, ShowsComponents, ShowsStates;
    ComponentRowIs(t, g, i, id);
    var k := Compose(i, id);
    var r, h := WithoutComponent(t, k), Apply(g, ClearComponent(i, id));
    PluginsKept(t, g, r, h);
    ComponentRemoved(t, g, r, h, id);
    ListedStates(t, k);
    StatesGone(t, g, r, h, id);
  }

  lemma StatesGone(t: Tables, g: Online, r: Tables, h: Online, id: string)
    requires ShowsStates(t, g) && Clean(g) && id in g.components && h.components == g.components - {id}
    requires r.components == t.components - {Compose(g.components[id].instance, id)}
    requires r.states == t.states - StatesOf(t, Compose(g.components[id].instance, id))
    ensures ShowsStates(r, h)
  {
    hide Compose, StateId, Free;
    var gone := Compose(g.components[id].instance, id);
    forall j, n | j in h.components && n in h.components[j].states ensures ShowsState(r, h, j, n) {
      assert ShowsState(t, g, j, n);
      OtherComponent(g, j, id);
    }
    forall k | k in r.states ensures IsState(r, h, k) { assert IsState(t, g, k); }
  }

  lemma OtherComponent(g: Online, a: string, b: string)
    requires Clean(g) && a in g.components && b in g.components
    ensures Compose(g.components[a].instance, a) == Compose(g.components[b].instance, b) <==> a == b
  {
    hide Free, Compose;
    ComposeInjective(g.components[a].instance, a, g.components[b].instance, b);
  }

  lemma ComponentsKept(t: Tables, g: Online, r: Tables, h: Online)
    requires ShowsComponents(t, g) && r.components.Keys == t.components.Keys && h.components.Keys == g.components.Keys
    requires forall k :: k in t.components ==> r.components[k] == t.components[k].(states := r.components[k].states)
    requires forall id :: id in g.components ==>
      h.components[id] == g.components[id].(states := h.components[id].states)
    ensures ShowsComponents(r, h)
  {
    hide Compose;
    forall j | j in h.components ensures ShowsComponent(r, h, j) { assert ShowsComponent(t, g, j); }
    forall q | q in r.components ensures IsComponent(r, h, q) { assert IsComponent(t, g, q); }
  }

  lemma SetStateShown(t: Tables, g: Online, i: string, id: string, name: string, value: string)
    requires Shows(t, g) && Exact(t) && Clean(g) && WellFormed(g, SetState(i, id, name, value))
    ensures var k := StateId(i, id, name);
            Compose(i, id) in t.components
            && (k in t.states ==> t.states[k].component == Compose(i, id))
    ensures Shows(WithState(t, StateId(i, id, name), StateRow(i, Compose(i, id), name, value)),
      Apply(g, SetState(i, id, name, value)))
  {
    hide ArrayAdd, Compose, StateId, Exact, Clean, ShowsPlugins, ShowsComponents, ShowsStates;
    ComponentRowIs(t, g, i, id);
    var k, row := StateId(i, id, name), StateRow(i, Compose(i, id), name, value);
    StateRowIs(t, g, i, id, name);
    var r, h := WithState(t, k, row), Apply(g, SetState(i, id, name, value));
    PluginsKept(t, g, r, h);
    ComponentsKept(t, g, r, h);
    StateShown(t, g, r, h, i, id, name, value);
  }

  lemma StateRowIs(t: Tables, g: Online, i: string, id: string, name: string)
    requires ShowsStates(t, g) && Clean(g) && id in g.components && g.components[id].instance == i
    ensures var k := StateId(i, id, name); k in t.states ==>
      t.states[k].instance == i && t.states[k].component == Compose(i, id) && t.states[k].name == name
  {
    hide Compose, StateId, Free;
    var k := StateId(i, id, name);
    if k in t.states {
      assert IsState(t, g, k);
      var j := t.components[t.states[k].component].display;
      OtherState(g, id, name, j, t.states[k].name);
    }
  }

  lemma OtherState(g: Online, a: string, m: string, b: string, n: string)
    requires Clean(g) && a in g.components && b in g.components
    ensures StateId(g.components[a].instance, a, m) == StateId(g.components[b].instance, b, n) <==> a == b && m == n
  {
    hide Free, StateId;
    StateIdInjective(g.components[a].instance, a, m, g.components[b].instance, b, n);
  }

  lemma StateShown(t: Tables, g: Online, r: Tables, h: Online, i: string, id: string, name: string, value: string)
    requires ShowsStates(t, g) && Clean(g) && id in g.components && g.components[id].instance == i
    requires Compose(i, id) in t.components && t.components[Compose(i, id)].display == id
    requires h.components == g.components[id := g.components[id].(states := g.components[id].states[name := value])]
    requires r.states == t.states[StateId(i, id, name) := StateRow(i, Compose(i, id), name, value)]
    requires forall k :: k in t.components ==> k in r.components && r.components[k].display == t.components[k].display
    ensures ShowsStates(r, h)
  {
    hide Compose, StateId, Clean;
    var k := StateId(i, id, name);
    forall j, n | j in h.components && n in h.components[j].states ensures ShowsState(r, h, j, n) {
      OtherState(g, id, name, j, n);
      if !(j == id && n == name) { assert ShowsState(t, g, j, n); }
    }
    forall q | q in r.states ensures IsState(r, h, q) {
      if q != k { assert IsState(t, g, q); }
    }
  }
}
