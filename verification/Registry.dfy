/**
 The component registry: plugins by key, components by id, and both again by instance.
 Plugins and components are objects, so each carries a reference number: two objects
 may have the same key or id and still be different.
 */
module Registry {
  import opened Strings

  datatype Plugin = Plugin(ref: nat, moduleName: string, name: string)

  datatype Component = Component(ref: nat, id: string)

  datatype InstanceData = InstanceData(plugins: set<Plugin>, components: set<Component>)

  datatype ComponentData = ComponentData(instanceName: string, component: Component)

  const NO_DATA := InstanceData({}, {})

  function InstanceLabel(instanceName: string): string {
    if instanceName == "" then "local" else instanceName
  }

  function FullName(p: Plugin): string { p.moduleName + "." + p.name }

  /** `buildPluginId`; the local instance has no name, here "". */
  function PluginKey(instanceName: string, p: Plugin): string {
    InstanceLabel(instanceName) + ":" + FullName(p)
  }

  /** `updateInstance`, with the data the callback leaves. */
  function UpdateInstance(
      instances: map<string, InstanceData>, name: string, data: InstanceData): map<string, InstanceData> {
    if data == NO_DATA then instances - {name} else instances[name := data]
  }

  function DataOf(instances: map<string, InstanceData>, name: string): InstanceData {
    if name in instances then instances[name] else NO_DATA
  }

  // ----- agreement of the three maps -----

  /** The plugins of each instance are exactly those registered under it; `owners` says under which. */
  ghost predicate PluginsAgree(
      plugins: map<string, Plugin>, owners: map<string, string>, instances: map<string, InstanceData>) {
    && owners.Keys == plugins.Keys
    && (forall k :: k in plugins ==>
      PluginKey(owners[k], plugins[k]) == k && plugins[k] in DataOf(instances, owners[k]).plugins)
    && (forall i, p :: p in DataOf(instances, i).plugins ==>
          PluginKey(i, p) in plugins && plugins[PluginKey(i, p)] == p && owners[PluginKey(i, p)] == i)
  }

  ghost predicate ComponentsAgree(components: map<string, ComponentData>, instances: map<string, InstanceData>) {
    && (forall id :: id in components ==>
          components[id].component.id == id
            && components[id].component in DataOf(instances, components[id].instanceName).components)
    && (forall i, c :: c in DataOf(instances, i).components ==>
          c.id in components && components[c.id] == ComponentData(i, c))
  }

  /** No instance is kept without plugin or component. */
  ghost predicate NoneEmpty(instances: map<string, InstanceData>) {
    forall i :: i in instances ==> instances[i] != NO_DATA
  }

  lemma Updated(instances: map<string, InstanceData>, name: string, data: InstanceData)
    requires NoneEmpty(instances)
    ensures var after := UpdateInstance(instances, name, data);
            NoneEmpty(after) && forall i :: DataOf(after, i) == if i == name then data else DataOf(instances, i)
  {}

  /** Data of every instance before and after a change of one. */
  ghost predicate Changed(
      before: map<string, InstanceData>, after: map<string, InstanceData>, name: string, data: InstanceData) {
    forall i :: DataOf(after, i) == if i == name then data else DataOf(before, i)
  }

  lemma PluginAdded(
      plugins: map<string, Plugin>, owners: map<string, string>, before: map<string, InstanceData>, after: map<string,
      InstanceData>, i: string, p: Plugin)
    requires PluginsAgree(plugins, owners, before) && PluginKey(i, p) !in plugins
    requires Changed(before, after, i, DataOf(before, i).(plugins := DataOf(before, i).plugins + {p}))
    ensures PluginsAgree(plugins[PluginKey(i, p) := p], owners[PluginKey(i, p) := i], after)
  {
    hide DataOf, PluginKey;
  }

  /** Removing a plugin keeps agreement exactly when the caller names its owner and the registered object. */
  lemma PluginRemoved(
      plugins: map<string, Plugin>, owners: map<string, string>, before: map<string, InstanceData>, after: map<string,
      InstanceData>, i: string, p: Plugin)
    requires PluginsAgree(plugins, owners, before) && PluginKey(i, p) in plugins
    requires Changed(before, after, i, DataOf(before, i).(plugins := DataOf(before, i).plugins - {p}))
    ensures var k := PluginKey(i, p);
            PluginsAgree(plugins - {k}, owners - {k}, after) <==> owners[k] == i && plugins[k] == p
  {
    hide DataOf, PluginKey;
    var k := PluginKey(i, p);
    if !(owners[k] == i && plugins[k] == p) {
      assert plugins[k] in DataOf(after, owners[k]).plugins;
      assert PluginKey(owners[k], plugins[k]) !in plugins - {k};
    }
  }

  lemma ComponentAdded(
      components: map<string, ComponentData>, before: map<string, InstanceData>, after: map<string, InstanceData>,
      i: string, c: Component)
    requires ComponentsAgree(components, before) && c.id !in components
    requires Changed(before, after, i, DataOf(before, i).(components := DataOf(before, i).components + {c}))
    ensures ComponentsAgree(components[c.id := ComponentData(i, c)], after)
  {
    hide DataOf;
  }

  lemma ComponentRemoved(
      components: map<string, ComponentData>, before: map<string, InstanceData>, after: map<string, InstanceData>,
      i: string, c: Component)
    requires ComponentsAgree(components, before) && c.id in components
    requires Changed(before, after, i, DataOf(before, i).(components := DataOf(before, i).components - {c}))
    ensures ComponentsAgree(components - {c.id}, after) <==> components[c.id] == ComponentData(i, c)
  {
    hide DataOf;
    var d := components[c.id];
    if d != ComponentData(i, c) {
      assert d.component in DataOf(after, d.instanceName).components;
      assert d.component.id !in components - {c.id};
    }
  }

  lemma OtherHalfKept(plugins: map<string, Plugin>, owners: map<string, string>, components: map<string, ComponentData>,
                      before: map<string, InstanceData>, after: map<string, InstanceData>, i: string,
                        data: InstanceData)
    requires Changed(before, after, i, data)
    ensures data.plugins == DataOf(before, i).plugins ==>
      (PluginsAgree(plugins, owners, before) <==> PluginsAgree(plugins, owners, after))
    ensures data.components == DataOf(before, i).components ==>
      (ComponentsAgree(components, before) <==> ComponentsAgree(components, after))
  {
    hide DataOf, PluginKey;
    assert data.plugins == DataOf(before, i).plugins ==>
      forall j :: DataOf(after, j).plugins == DataOf(before, j).plugins;
    assert data.components == DataOf(before, i).components ==>
      forall j :: DataOf(after, j).components == DataOf(before, j).components;
  }

  class ComponentRegistry {
    var components: map<string, ComponentData>
    var pluginsPerInstance: map<string, Plugin>
    var instances: map<string, InstanceData>
    // the instance each plugin key was registered under
    ghost var owners: map<string, string>

    ghost predicate Agree()
      reads this
    {
      PluginsAgree(pluginsPerInstance, owners, instances) && ComponentsAgree(components, instances)
        && NoneEmpty(instances)
    }

    constructor ()
      ensures Agree() && components == map[] && pluginsPerInstance == map[] && instances == map[]
    {
      components, pluginsPerInstance, instances, owners := map[], map[], map[], map[];
    }

    /** Refused, by an exception, when the key is taken. */
    method AddPlugin(instanceName: string, p: Plugin) returns (ok: bool)
      requires Agree()
      modifies this
      ensures Agree() && ok == (PluginKey(instanceName, p) !in old(pluginsPerInstance))
      ensures pluginsPerInstance ==
        if ok then old(pluginsPerInstance)[PluginKey(instanceName, p) := p] else old(pluginsPerInstance)
      ensures owners == if ok then old(owners)[PluginKey(instanceName, p) := instanceName] else old(owners)
      ensures components == old(components)
    {
      hide PluginsAgree, ComponentsAgree, PluginKey;
      var key := PluginKey(instanceName, p);
      if key in pluginsPerInstance {
        return false;
      }
      var data := DataOf(instances, instanceName);
      data := data.(plugins := data.plugins + {p});
      Updated(instances, instanceName, data);
      pluginsPerInstance, owners := pluginsPerInstance[key := p], owners[key := instanceName];
      instances := UpdateInstance(instances, instanceName, data);
      PluginAdded(old(pluginsPerInstance), old(owners), old(instances), instances, instanceName, p);
      OtherHalfKept(pluginsPerInstance, owners, components, old(instances), instances, instanceName, data);
      return true;
    }

    /** Refused when the key is free; else the maps still agree exactly when owner and object are right. */
    method RemovePlugin(instanceName: string, p: Plugin) returns (ok: bool)
      requires Agree()
      modifies this
      ensures ok == (PluginKey(instanceName, p) in old(pluginsPerInstance))
      ensures Agree() <==> (ok ==> old(owners)[PluginKey(instanceName, p)] == instanceName
                                   && old(pluginsPerInstance)[PluginKey(instanceName, p)] == p)
      ensures pluginsPerInstance == old(pluginsPerInstance) - {PluginKey(instanceName, p)}
      ensures owners == old(owners) - {PluginKey(instanceName, p)} && components == old(components)
    {
      hide PluginsAgree, ComponentsAgree, PluginKey;
      var key := PluginKey(instanceName, p);
      SameKeys(pluginsPerInstance, owners, instances);
      if key !in pluginsPerInstance {
        assert pluginsPerInstance - {key} == pluginsPerInstance && owners - {key} == owners;
        return false;
      }
      var data := DataOf(instances, instanceName);
      data := data.(plugins := data.plugins - {p});
      Updated(instances, instanceName, data);
      pluginsPerInstance, owners := pluginsPerInstance - {key}, owners - {key};
      instances := UpdateInstance(instances, instanceName, data);
      PluginRemoved(old(pluginsPerInstance), old(owners), old(instances), instances, instanceName, p);
      OtherHalfKept(pluginsPerInstance, owners, components, old(instances), instances, instanceName, data);
      return true;
    }

    method AddComponent(instanceName: string, c: Component) returns (ok: bool)
      requires Agree()
      modifies this
      ensures Agree() && ok == (c.id !in old(components))
      ensures components == if ok then old(components)[c.id := ComponentData(instanceName, c)] else old(components)
      ensures pluginsPerInstance == old(pluginsPerInstance) && owners == old(owners)
    {
      hide PluginsAgree, ComponentsAgree, PluginKey;
      if c.id in components {
        return false;
      }
      var data := DataOf(instances, instanceName);
      data := data.(components := data.components + {c});
      Updated(instances, instanceName, data);
      components := components[c.id := ComponentData(instanceName, c)];
      instances := UpdateInstance(instances, instanceName, data);
      ComponentAdded(old(components), old(instances), instances, instanceName, c);
      OtherHalfKept(pluginsPerInstance, owners, components, old(instances), instances, instanceName, data);
      return true;
    }

    method RemoveComponent(instanceName: string, c: Component) returns (ok: bool)
      requires Agree()
      modifies this
      ensures ok == (c.id in old(components))
      ensures Agree() <==> (ok ==> old(components)[c.id] == ComponentData(instanceName, c))
      ensures components == old(components) - {c.id}
      ensures pluginsPerInstance == old(pluginsPerInstance) && owners == old(owners)
    {
      hide PluginsAgree, ComponentsAgree, PluginKey;
      if c.id !in components {
        assert components - {c.id} == components;
        return false;
      }
      var data := DataOf(instances, instanceName);
      data := data.(components := data.components - {c});
      Updated(instances, instanceName, data);
      components := components - {c.id};
      instances := UpdateInstance(instances, instanceName, data);
      ComponentRemoved(old(components), old(instances), instances, instanceName, c);
      OtherHalfKept(pluginsPerInstance, owners, components, old(instances), instances, instanceName, data);
      return true;
    }
  }

  lemma SameKeys(plugins: map<string, Plugin>, owners: map<string, string>, instances: map<string, InstanceData>)
    requires PluginsAgree(plugins, owners, instances)
    ensures owners.Keys == plugins.Keys
  {
    hide DataOf, PluginKey;
  }

  /** An instance is known exactly while something is registered under it. */
  lemma InstanceKnown(r: ComponentRegistry, i: string)
    requires r.Agree()
    ensures i in r.instances <==>
      (exists k :: k in r.owners && r.owners[k] == i)
        || (exists id :: id in r.components && r.components[id].instanceName == i)
  {
    hide PluginKey;
    if i in r.instances {
      assert r.instances[i] == DataOf(r.instances, i);
      if r.instances[i].plugins != {} {
        var p :| p in r.instances[i].plugins;
        assert PluginKey(i, p) in r.owners;
      } else {
        assert r.instances[i].components != {};
        var c :| c in r.instances[i].components;
        assert c.id in r.components;
      }
    }
  }

  // ----- runs -----

  datatype Step =
    | AddsPlugin(instanceName: string, p: Plugin)
    | RemovesPlugin(instanceName: string, p: Plugin)
    | AddsComponent(instanceName: string, c: Component)
    | RemovesComponent(instanceName: string, c: Component)

  /** What is registered, and under which instance. */
  datatype Registered = Registered(plugins: map<string, Plugin>, owners: map<string, string>, components: map<string,
    ComponentData>)

  /** What the step removes, if anything, is named by its owner and as registered. */
  predicate Proper(g: Registered, s: Step) {
    match s
    case RemovesPlugin(i, p) =>
      var k := PluginKey(i, p);
      k in g.plugins && k in g.owners ==> g.owners[k] == i && g.plugins[k] == p
    case RemovesComponent(i, c) => c.id in g.components ==> g.components[c.id] == ComponentData(i, c)
    case _ => true
  }

  function After(g: Registered, s: Step): Registered {
    match s
    case AddsPlugin(i, p) =>
      var k := PluginKey(i, p);
      if k in g.plugins then g else g.(plugins := g.plugins[k := p], owners := g.owners[k := i])
    case RemovesPlugin(i, p) => g.(plugins := g.plugins - {PluginKey(i, p)}, owners := g.owners - {PluginKey(i, p)})
    case AddsComponent(i,
      c) => if c.id in g.components then g else g.(components := g.components[c.id := ComponentData(i, c)])
    case RemovesComponent(i, c) => g.(components := g.components - {c.id})
  }

  predicate ProperRun(g: Registered, steps: seq<Step>)
    decreases |steps|
  {
    steps == [] || (Proper(g, steps[0]) && ProperRun(After(g, steps[0]), steps[1..]))
  }

  ghost function RegisteredIn(r: ComponentRegistry): Registered
    reads r
  {
    Registered(r.pluginsPerInstance, r.owners, r.components)
  }

  /** A step keeps the three maps in agreement exactly when it is proper. */
  method Take(r: ComponentRegistry, s: Step)
    requires r.Agree()
    modifies r
    ensures r.Agree() <==> old(Proper(RegisteredIn(r), s))
    ensures RegisteredIn(r) == After(old(RegisteredIn(r)), s)
  {
    hide PluginsAgree, ComponentsAgree, NoneEmpty, PluginKey;
    SameKeys(r.pluginsPerInstance, r.owners, r.instances);
    match s {
      case AddsPlugin(i, p) => var ok := r.AddPlugin(i, p);
      case RemovesPlugin(i, p) => var ok := r.RemovePlugin(i, p);
      case AddsComponent(i, c) => var ok := r.AddComponent(i, c);
      case RemovesComponent(i, c) => var ok := r.RemoveComponent(i, c);
    }
  }

  /** Over every run whose removals are proper, the maps agree; `trail` is what was registered after each step. */
  method Run(r: ComponentRegistry, steps: seq<Step>) returns (ghost trail: seq<Registered>)
    requires r.Agree() && ProperRun(RegisteredIn(r), steps)
    modifies r
    ensures r.Agree()
    ensures |trail| == |steps| + 1 && trail[0] == old(RegisteredIn(r)) && trail[|steps|] == RegisteredIn(r)
    ensures forall i :: 0 <= i < |steps| ==> trail[i + 1] == After(trail[i], steps[i])
  {
    hide PluginsAgree, ComponentsAgree, NoneEmpty, Proper, After;
    assert steps[0..] == steps;
    trail := [RegisteredIn(r)];
    for i := 0 to |steps|
      invariant r.Agree() && ProperRun(RegisteredIn(r), steps[i..])
      invariant |trail| == i + 1 && trail[0] == old(RegisteredIn(r)) && trail[i] == RegisteredIn(r)
      invariant forall j :: 0 <= j < i ==> trail[j + 1] == After(trail[j], steps[j])
    {
      assert steps[i..][0] == steps[i] && steps[i..][1..] == steps[i + 1..];
      Take(r, steps[i]);
      trail := trail + [RegisteredIn(r)];
    }
  }

  // ----- when a key is taken -----

  /** Two plugins share a full name exactly when module and name agree, or a dot shifts between them. */
  lemma FullNamesCollide(p: Plugin, q: Plugin)
    ensures FullName(p) == FullName(q) <==>
      (p.moduleName == q.moduleName && p.name == q.name)
      || Shifted(p.moduleName, p.name, q.moduleName, q.name, '.')
      || Shifted(q.moduleName, q.name, p.moduleName, p.name, '.')
  {
    JoinsCollide(p.moduleName, p.name, q.moduleName, q.name, '.');
  }

  /** With colon-free instance names, keys are equal exactly for instances of one label and plugins of one full name. */
  lemma KeysCollide(i: string, p: Plugin, j: string, q: Plugin)
    requires Free(i, ':') && Free(j, ':')
    ensures PluginKey(i, p) == PluginKey(j, q) <==> InstanceLabel(i) == InstanceLabel(j) && FullName(p) == FullName(q)
  {
    var a, b := InstanceLabel(i), InstanceLabel(j);
    assert Free("local", ':');
    JoinsCollide(a, FullName(p), b, FullName(q), ':');
    if Shifted(a, FullName(p), b, FullName(q), ':') { ShiftNeedsSeparator(a, FullName(p), b, FullName(q), ':'); }
    if Shifted(b, FullName(q), a, FullName(p), ':') { ShiftNeedsSeparator(b, FullName(q), a, FullName(p), ':'); }
  }

  ghost predicate ColonFreeOwners(r: ComponentRegistry)
    reads r
  {
    forall k :: k in r.owners ==> Free(r.owners[k], ':')
  }

  /** `q` is registered under `j`. */
  ghost predicate Holds(r: ComponentRegistry, j: string, q: Plugin)
    reads r
  {
    q in DataOf(r.instances, j).plugins
  }

  /**
   Adding a plugin is refused exactly when an instance of the same label, and the
   nameless instance has the label "local", already has a plugin of the same full name.
   */
  lemma AddRefused(r: ComponentRegistry, i: string, p: Plugin)
    requires r.Agree() && ColonFreeOwners(r) && Free(i, ':')
    ensures PluginKey(i, p) in r.pluginsPerInstance <==>
      exists j, q :: Holds(r, j, q) && InstanceLabel(j) == InstanceLabel(i) && FullName(q) == FullName(p)
  {
    hide PluginKey, InstanceLabel, FullName;
    if PluginKey(i, p) in r.pluginsPerInstance {
      var k := PluginKey(i, p);
      var j, q := r.owners[k], r.pluginsPerInstance[k];
      KeysCollide(i, p, j, q);
      assert Holds(r, j, q);
    }
    if j, q :| Holds(r, j, q) && InstanceLabel(j) == InstanceLabel(i) && FullName(q) == FullName(p) {
      assert r.owners[PluginKey(j, q)] == j;
      KeysCollide(i, p, j, q);
    }
  }

  /** Both ways to collide: the nameless instance with one called "local", and a dot that shifts. */
  lemma DifferentPluginsCollide(ref: nat, other: nat)
    ensures PluginKey("", Plugin(ref, "x.y", "z")) == PluginKey("local", Plugin(other, "x", "y.z"))
  {
    assert "x" + ['.'] + "y" == "x.y" && "y" + ['.'] + "z" == "y.z";
    assert Shifted("x", "y.z", "x.y", "z", '.');
    FullNamesCollide(Plugin(ref, "x.y", "z"), Plugin(other, "x", "y.z"));
  }
}
