/**
 The tables of the online components view, as values: instances, plugins, components
 and states with their cross-lists, what the five kinds of update write, and that each
 keeps every cross-list exact.
 */
module OnlineTables {
  import opened ReducerTools

  datatype InstanceRow = InstanceRow(plugins: seq<string>, components: seq<string>)

  datatype PluginRow = PluginRow(instance: string, plugin: string, info: string, components: seq<string>)

  datatype ComponentRow = ComponentRow(instance: string, display: string, plugin: string, states: seq<string>)

  datatype StateRow = StateRow(instance: string, component: string, name: string, value: string)

  datatype Tables = Tables(
    instances: map<string, InstanceRow>,
    plugins: map<string, PluginRow>,
    components: map<string, ComponentRow>,
    states: map<string, StateRow>)

  // ----- queries -----

  function PluginsIn(t: Tables, i: string): set<string> { set k | k in t.plugins && t.plugins[k].instance == i }

  function ComponentsIn(t: Tables, i: string): set<string> {
    set k | k in t.components && t.components[k].instance == i
  }

  function Users(t: Tables, plugin: string): set<string> {
    set k | k in t.components && t.components[k].plugin == plugin
  }

  function StatesOf(t: Tables, component: string): set<string> {
    set k | k in t.states && t.states[k].component == component
  }

  // ----- exactness -----

  ghost predicate InstanceExact(t: Tables, i: string)
    requires i in t.instances
  {
    Lists(t.instances[i].plugins, PluginsIn(t, i)) && Lists(t.instances[i].components, ComponentsIn(t, i))
      && PluginsIn(t, i) != {}
  }

  ghost predicate PluginExact(t: Tables, k: string)
    requires k in t.plugins
  {
    t.plugins[k].instance in t.instances && Lists(t.plugins[k].components, Users(t, k))
  }

  ghost predicate ComponentExact(t: Tables, k: string)
    requires k in t.components
  {
    && t.components[k].plugin in t.plugins
    && t.plugins[t.components[k].plugin].instance == t.components[k].instance
    && Lists(t.components[k].states, StatesOf(t, k))
  }

  /** Every list holds exactly the rows it is about, and an instance is there only while it has a plugin. */
  ghost predicate Exact(t: Tables) {
    && (forall i :: i in t.instances ==> InstanceExact(t, i))
    && (forall k :: k in t.plugins ==> PluginExact(t, k))
    && (forall k :: k in t.components ==> ComponentExact(t, k))
    && (forall k :: k in t.states ==> t.states[k].component in t.components)
  }

  // ----- what the updates write -----

  function InstanceOf(t: Tables, i: string): InstanceRow {
    if i in t.instances then t.instances[i] else InstanceRow([], [])
  }

  function WithPlugin(t: Tables, k: string, i: string, plugin: string, info: string): Tables {
    var inst := InstanceOf(t, i);
    t.(instances := t.instances[i := inst.(plugins := ArrayAdd(inst.plugins, k, true))],
       plugins := t.plugins[k := PluginRow(i, plugin, info, [])])
  }

  function WithoutPlugin(t: Tables, k: string): Tables
    requires k in t.plugins && t.plugins[k].instance in t.instances
  {
    var i := t.plugins[k].instance;
    var left := ArrayRemove(t.instances[i].plugins, k);
    t.(plugins := t.plugins - {k},
       instances := if left == [] then t.instances - {i} else t.instances[i := t.instances[i].(plugins := left)])
  }

  function WithComponent(t: Tables, k: string, row: ComponentRow): Tables
    requires row.plugin in t.plugins && row.instance in t.instances
  {
    var p, inst := t.plugins[row.plugin], t.instances[row.instance];
    t.(components := t.components[k := row],
       plugins := t.plugins[row.plugin := p.(components := ArrayAdd(p.components, k, true))],
       instances := t.instances[row.instance := inst.(components := ArrayAdd(inst.components, k, true))])
  }

  function WithoutComponent(t: Tables, k: string): Tables
    requires k in t.components && t.components[k].plugin in t.plugins && t.components[k].instance in t.instances
  {
    var row := t.components[k];
    var p, inst := t.plugins[row.plugin], t.instances[row.instance];
    t.(components := t.components - {k},
       plugins := t.plugins[row.plugin := p.(components := ArrayRemove(p.components, k))],
       instances := t.instances[row.instance := inst.(components := ArrayRemove(inst.components, k))],
       states := t.states - Elements(row.states))
  }

  function WithState(t: Tables, k: string, row: StateRow): Tables
    requires k in t.states || row.component in t.components
  {
    if k in t.states then t.(states := t.states[k := t.states[k].(value := row.value)])
    else
      var c := t.components[row.component];
      t.(components := t.components[row.component := c.(states := ArrayAdd(c.states, k, true))],
         states := t.states[k := row])
  }

  // ----- each keeps the lists exact -----

  lemma ListsNothing()
    ensures Lists([], {})
  {}

  lemma NoUsers(t: Tables, k: string)
    requires Exact(t) && k !in t.plugins
    ensures Users(t, k) == {}
  {
    forall c | c in t.components ensures t.components[c].plugin in t.plugins { assert ComponentExact(t, c); }
  }

  lemma InstanceLists(t: Tables, i: string)
    requires Exact(t)
    ensures Lists(InstanceOf(t, i).plugins, PluginsIn(t, i)) && Lists(InstanceOf(t, i).components, ComponentsIn(t, i))
  {
    hide Lists;
    ListsNothing();
    if i in t.instances {
      assert InstanceExact(t, i);
    } else {
      forall k | k in t.plugins ensures t.plugins[k].instance in t.instances { assert PluginExact(t, k); }
      forall k | k in t.components ensures t.components[k].instance in t.instances { assert ComponentExact(t, k); }
      assert PluginsIn(t, i) == {} && ComponentsIn(t, i) == {};
    }
  }

  lemma WithPluginExact(t: Tables, k: string, i: string, plugin: string, info: string)
    requires Exact(t) && k !in t.plugins
    ensures Exact(WithPlugin(t, k, i, plugin, info))
  {
    hide Lists, ArrayAdd;
    var r := WithPlugin(t, k, i, plugin, info);
    InstanceLists(t, i);
    NoUsers(t, k);
    ListsNothing();
    ArrayAddLists(InstanceOf(t, i).plugins, PluginsIn(t, i), k);
    forall j | j in r.instances ensures InstanceExact(r, j) {
      assert PluginsIn(r, j) == if j == i then PluginsIn(t, i) + {k} else PluginsIn(t, j);
      assert ComponentsIn(r, j) == ComponentsIn(t, j);
      if j != i { assert InstanceExact(t, j); }
    }
    forall q | q in r.plugins ensures PluginExact(r, q) {
      assert Users(r, q) == Users(t, q);
      if q != k { assert PluginExact(t, q); }
    }
    forall c | c in r.components ensures ComponentExact(r, c) {
      assert ComponentExact(t, c);
      assert StatesOf(r, c) == StatesOf(t, c);
    }
  }

  lemma ListsEmpty(a: seq<string>, ids: set<string>)
    requires Lists(a, ids)
    ensures a == [] <==> ids == {}
  {
    if a != [] { assert a[0] in ids; }
    if ids != {} { var x :| x in ids; assert x in a; }
  }

  lemma WithoutPluginExact(t: Tables, k: string)
    requires Exact(t) && k in t.plugins && t.plugins[k].instance in t.instances && Users(t, k) == {}
    ensures Exact(WithoutPlugin(t, k))
  {
    hide Lists, ArrayRemove;
    var r, i := WithoutPlugin(t, k), t.plugins[k].instance;
    assert InstanceExact(t, i) && k in PluginsIn(t, i);
    ArrayRemoveExactly(t.instances[i].plugins, PluginsIn(t, i), k);
    ListsEmpty(ArrayRemove(t.instances[i].plugins, k), PluginsIn(t, i) - {k});
    forall j ensures PluginsIn(r, j) == PluginsIn(t, j) - {k} {}
    forall j | j in r.instances ensures InstanceExact(r, j) {
      assert InstanceExact(t, j);
      assert ComponentsIn(r, j) == ComponentsIn(t, j);
      if j != i { assert PluginsIn(t, j) - {k} == PluginsIn(t, j); }
    }
    forall q | q in r.plugins ensures PluginExact(r, q) {
      assert PluginExact(t, q) && Users(r, q) == Users(t, q);
      assert q in PluginsIn(t, t.plugins[q].instance) - {k};
    }
    forall c | c in r.components ensures ComponentExact(r, c) {
      assert ComponentExact(t, c) && StatesOf(r, c) == StatesOf(t, c);
      assert t.components[c].plugin == k ==> c in Users(t, k);
    }
  }

  lemma NoStates(t: Tables, k: string)
    requires Exact(t) && k !in t.components
    ensures StatesOf(t, k) == {}
  {}

  lemma NewComponentListed(t: Tables, k: string, row: ComponentRow, j: string, q: string)
    requires row.plugin in t.plugins && row.instance in t.instances && k !in t.components
    ensures var r := WithComponent(t, k, row);
            && PluginsIn(r, j) == PluginsIn(t, j)
            && ComponentsIn(r, j) == (if j == row.instance then ComponentsIn(t, j) + {k} else ComponentsIn(t, j))
            && Users(r, q) == (if q == row.plugin then Users(t, q) + {k} else Users(t, q))
  {
    hide ArrayAdd;
  }

  lemma WithComponentExact(t: Tables, k: string, row: ComponentRow)
    requires Exact(t) && k !in t.components && row.states == []
    requires row.plugin in t.plugins && t.plugins[row.plugin].instance == row.instance && row.instance in t.instances
    ensures Exact(WithComponent(t, k, row))
  {
    hide Lists, ArrayAdd;
    var r := WithComponent(t, k, row);
    NoStates(t, k);
    ListsNothing();
    assert InstanceExact(t, row.instance) && PluginExact(t, row.plugin);
    ArrayAddLists(t.plugins[row.plugin].components, Users(t, row.plugin), k);
    ArrayAddLists(t.instances[row.instance].components, ComponentsIn(t, row.instance), k);
    forall j | j in r.instances ensures InstanceExact(r, j) {
      assert InstanceExact(t, j);
      NewComponentListed(t, k, row, j, row.plugin);
    }
    forall q | q in r.plugins ensures PluginExact(r, q) {
      assert PluginExact(t, q);
      NewComponentListed(t, k, row, row.instance, q);
    }
    forall c | c in r.components ensures ComponentExact(r, c) {
      assert StatesOf(r, c) == StatesOf(t, c);
      if c != k { assert ComponentExact(t, c); }
    }
  }

  lemma ListedStates(t: Tables, k: string)
    requires Exact(t) && k in t.components
    ensures Elements(t.components[k].states) == StatesOf(t, k)
  {
    assert ComponentExact(t, k);
  }

  lemma WithoutComponentExact(t: Tables, k: string)
    requires Exact(t) && k in t.components && t.components[k].plugin in t.plugins
    requires t.components[k].instance in t.instances
    ensures Exact(WithoutComponent(t, k))
  {
    hide Lists, ArrayRemove, Elements;
    var r, row := WithoutComponent(t, k), t.components[k];
    ListedStates(t, k);
    assert ComponentExact(t, k) && InstanceExact(t, row.instance) && PluginExact(t, row.plugin);
    assert k in Users(t, row.plugin) && k in ComponentsIn(t, row.instance);
    ArrayRemoveExactly(t.plugins[row.plugin].components, Users(t, row.plugin), k);
    ArrayRemoveExactly(t.instances[row.instance].components, ComponentsIn(t, row.instance), k);
    forall j | j in r.instances ensures InstanceExact(r, j) {
      assert InstanceExact(t, j);
      assert PluginsIn(r, j) == PluginsIn(t, j);
      assert ComponentsIn(r, j) == if j == row.instance then ComponentsIn(t, j) - {k} else ComponentsIn(t, j);
    }
    forall q | q in r.plugins ensures PluginExact(r, q) {
      assert PluginExact(t, q);
      assert Users(r, q) == if q == row.plugin then Users(t, q) - {k} else Users(t, q);
    }
    forall c | c in r.components ensures ComponentExact(r, c) {
      assert ComponentExact(t, c);
      assert StatesOf(r, c) == StatesOf(t, c);
    }
  }

  lemma NewStateListed(t: Tables, k: string, row: StateRow, j: string, q: string, c: string)
    requires row.component in t.components && (k in t.states ==> t.states[k].component == row.component)
    ensures var r := WithState(t, k, row);
            && PluginsIn(r, j) == PluginsIn(t, j) && ComponentsIn(r, j) == ComponentsIn(t, j)
              && Users(r, q) == Users(t, q)
            && StatesOf(r, c) == (if k !in t.states && c == row.component then StatesOf(t, c) + {k} else StatesOf(t, c))
  {
    hide ArrayAdd;
  }

  lemma WithStateExact(t: Tables, k: string, row: StateRow)
    requires Exact(t) && row.component in t.components && (k in t.states ==> t.states[k].component == row.component)
    ensures Exact(WithState(t, k, row))
  {
    hide Lists, ArrayAdd, PluginsIn, ComponentsIn, Users;
    var r := WithState(t, k, row);
    assert ComponentExact(t, row.component);
    if k !in t.states {
      ArrayAddLists(t.components[row.component].states, StatesOf(t, row.component), k);
    }
    forall j | j in r.instances ensures InstanceExact(r, j) {
      assert InstanceExact(t, j);
      NewStateListed(t, k, row, j, "", row.component);
    }
    forall q | q in r.plugins ensures PluginExact(r, q) {
      assert PluginExact(t, q);
      NewStateListed(t, k, row, "", q, row.component);
    }
    forall c | c in r.components ensures ComponentExact(r, c) {
      assert ComponentExact(t, c);
      NewStateListed(t, k, row, "", "", c);
    }
  }
}
