/**
 The elementary changes the core designer reducer makes to its rows, and what
 each of them does to the indexes.
 */
module StoreSteps {
  import opened Strings
  import opened ReducerTools
  import opened DesignerIds
  import opened CoreStore

  // ----- the binding index of one component -----

  /** `addBinding`. */
  function IndexAdd(index: map<string, seq<string>>, member: string, binding: string): map<string, seq<string>> {
    index[member := ArraySet(if member in index then index[member] else [], binding)]
  }

  /** `removeBinding`; the source dereferences the member's list. */
  function IndexRemove(index: map<string, seq<string>>, member: string, binding: string): map<string, seq<string>>
    requires member in index
  {
    var list := ArrayRemove(index[member], binding);
    if list == [] then index - {member} else index[member := list]
  }

  lemma AtAdd(halves: set<(string, string)>, binding: string, member: string, m: string)
    ensures At(halves + {(binding, member)}, m) == if m == member then At(halves, m) + {binding} else At(halves, m)
  {
    var halves' := halves + {(binding, member)};
    assert (binding, member) in halves';
    forall x ensures x in At(halves', m) <==> x in (if m == member then At(halves, m) + {binding} else At(halves, m)) {
      assert x in At(halves', m) <==> (x, m) in halves';
      assert x in At(halves, m) <==> (x, m) in halves;
    }
  }

  lemma AtRemove(halves: set<(string, string)>, binding: string, member: string, m: string)
    ensures At(halves - {(binding, member)}, m) == if m == member then At(halves, m) - {binding} else At(halves, m)
  {
    var halves' := halves - {(binding, member)};
    forall x ensures x in At(halves', m) <==> x in (if m == member then At(halves, m) - {binding} else At(halves, m)) {
      assert x in At(halves', m) <==> (x, m) in halves';
      assert x in At(halves, m) <==> (x, m) in halves;
    }
  }

  lemma ListsEmpty(a: seq<string>, ids: set<string>)
    requires Lists(a, ids)
    ensures a == [] <==> ids == {}
  {
    assert a != [] ==> a[0] in ids;
    assert forall x :: x in ids ==> x in a;
  }

  lemma IndexAddExact(index: map<string, seq<string>>, halves: set<(string, string)>, member: string, binding: string)
    requires IndexIs(index, halves)
    ensures IndexIs(IndexAdd(index, member, binding), halves + {(binding, member)})
  {
    var list := if member in index then index[member] else [];
    assert Lists(list, At(halves, member));
    hide Lists, At, ArraySet;
    ArraySetLists(list, At(halves, member), binding);
    var index', halves' := IndexAdd(index, member, binding), halves + {(binding, member)};
    forall m ensures (m in index' <==> At(halves', m) != {}) && (m in index' ==> Lists(index'[m], At(halves', m))) {
      AtAdd(halves, binding, member, m);
      assert m == member ==> binding in At(halves', m);
    }
  }

  lemma IndexRemoveExact(
      index: map<string, seq<string>>, halves: set<(string, string)>, member: string, binding: string)
    requires IndexIs(index, halves) && (binding, member) in halves
    ensures member in index && IndexIs(IndexRemove(index, member, binding), halves - {(binding, member)})
  {
    assert binding in At(halves, member);
    hide Lists, At, ArrayRemove;
    ArrayRemoveExactly(index[member], At(halves, member), binding);
    ListsEmpty(ArrayRemove(index[member], binding), At(halves, member) - {binding});
    var index', halves' := IndexRemove(index, member, binding), halves - {(binding, member)};
    forall m ensures (m in index' <==> At(halves', m) != {}) && (m in index' ==> Lists(index'[m], At(halves', m))) {
      AtRemove(halves, binding, member, m);
    }
  }

  /** Whatever bindings ended at the component, `binding` now ends there too, at `member`. */
  ghost predicate IndexMore(
      before: map<string, seq<string>>, after: map<string, seq<string>>, member: string, binding: string) {
    forall halves :: IndexIs(before, halves) ==> IndexIs(after, halves + {(binding, member)})
  }

  /** Whatever bindings ended at the component, `binding` no longer ends there, at `member`. */
  ghost predicate IndexLess(
      before: map<string, seq<string>>, after: map<string, seq<string>>, member: string, binding: string) {
    forall halves :: IndexIs(before, halves) ==> IndexIs(after, halves - {(binding, member)})
  }

  lemma AddIndexMore(index: map<string, seq<string>>, member: string, binding: string)
    ensures IndexMore(index, IndexAdd(index, member, binding), member, binding)
  {
    hide IndexIs, IndexAdd;
    forall halves | IndexIs(index, halves) ensures IndexIs(IndexAdd(index, member, binding),
      halves + {(binding, member)}) {
      IndexAddExact(index, halves, member, binding);
    }
  }

  /** `binding` is in the list of `member`. */
  predicate IsIndexed(index: map<string, seq<string>>, member: string, binding: string) {
    member in index && binding in index[member]
  }

  lemma IndexedIsHalf(index: map<string, seq<string>>, halves: set<(string, string)>, member: string, binding: string)
    requires IndexIs(index, halves)
    ensures IsIndexed(index, member, binding) <==> (binding, member) in halves
  {
    assert binding in At(halves, member) <==> (binding, member) in halves;
    assert member in index ==> Lists(index[member], At(halves, member));
  }

  lemma RemoveIndexLess(index: map<string, seq<string>>, member: string, binding: string)
    requires IsIndexed(index, member, binding)
    ensures IndexLess(index, IndexRemove(index, member, binding), member, binding)
  {
    hide IndexIs, IndexRemove;
    forall halves | IndexIs(index, halves) ensures IndexIs(IndexRemove(index, member, binding),
      halves - {(binding, member)}) {
      IndexedIsHalf(index, halves, member, binding);
      IndexRemoveExact(index, halves, member, binding);
    }
  }

  // ----- one id array of one row changes, all others stay -----

  ghost predicate SameKeys(r: Rows, s: Rows) {
    r.projects.Keys == s.projects.Keys && r.plugins.Keys == s.plugins.Keys && r.templates.Keys == s.templates.Keys
  }

  ghost predicate ComponentListAt(r: Rows, s: Rows, view: string, ids: seq<string>) {
    && SameKeys(r, s)
    && (forall p :: p in s.projects ==> s.projects[p].components == if p == view then ids else r.projects[p].components)
    && (forall t :: t in s.templates ==>
      s.templates[t].components == if t == view then ids else r.templates[t].components)
  }

  ghost predicate SameComponentLists(r: Rows, s: Rows) {
    && SameKeys(r, s)
    && (forall p :: p in s.projects ==> s.projects[p].components == r.projects[p].components)
    && (forall t :: t in s.templates ==> s.templates[t].components == r.templates[t].components)
  }

  ghost predicate BindingListAt(r: Rows, s: Rows, view: string, ids: seq<string>) {
    && SameKeys(r, s)
    && (forall p :: p in s.projects ==> s.projects[p].bindings == if p == view then ids else r.projects[p].bindings)
    && (forall t :: t in s.templates ==> s.templates[t].bindings == if t == view then ids else r.templates[t].bindings)
  }

  ghost predicate SameBindingLists(r: Rows, s: Rows) {
    && SameKeys(r, s)
    && (forall p :: p in s.projects ==> s.projects[p].bindings == r.projects[p].bindings)
    && (forall t :: t in s.templates ==> s.templates[t].bindings == r.templates[t].bindings)
  }

  ghost predicate UsageAt(r: Rows, s: Rows, d: Definition, ids: seq<string>) {
    && SameKeys(r, s)
    && (forall p :: p in s.plugins ==>
      s.plugins[p].usageComponents == if d == PluginDef(p) then ids else r.plugins[p].usageComponents)
    && (forall t :: t in s.templates ==>
      s.templates[t].usageComponents == if d == TemplateDef(t) then ids else r.templates[t].usageComponents)
  }

  ghost predicate SameUsage(r: Rows, s: Rows) {
    && SameKeys(r, s)
    && (forall p :: p in s.plugins ==> s.plugins[p].usageComponents == r.plugins[p].usageComponents)
    && (forall t :: t in s.templates ==> s.templates[t].usageComponents == r.templates[t].usageComponents)
  }

  /** The identity of views, plugins and instances is untouched, and so are the lists of a tab. */
  ghost predicate SameFrame(r: Rows, s: Rows) {
    && SameKeys(r, s) && r.instances == s.instances
    && (forall p :: p in s.projects ==>
          && s.projects[p].id == r.projects[p].id && s.projects[p].instances == r.projects[p].instances
          && s.projects[p].plugins == r.projects[p].plugins && s.projects[p].templates == r.projects[p].templates)
    && (forall p :: p in s.plugins ==>
      s.plugins[p].id == r.plugins[p].id && s.plugins[p].instance == r.plugins[p].instance)
    && (forall t :: t in s.templates ==>
          s.templates[t].id == r.templates[t].id && s.templates[t].templateId == r.templates[t].templateId)
  }

  /** The content of projects, plugins and templates is untouched. */
  ghost predicate SameData(r: Rows, s: Rows) {
    && SameKeys(r, s)
    && (forall p :: p in s.projects ==> s.projects[p].activeTemplate == r.projects[p].activeTemplate)
    && (forall p :: p in s.plugins ==>
      s.plugins[p].instance == r.plugins[p].instance && s.plugins[p].data == r.plugins[p].data)
    && (forall t :: t in s.templates ==> s.templates[t].exports == r.templates[t].exports)
  }

  // ----- what each change does to each index -----

  /** What concerns projects, instances, plugins and templates only. */
  ghost predicate FrameExact(r: Rows) {
    && ProjectsIdentified(r.projects) && InstancesIdentified(r) && PluginsIdentified(r) && TemplatesIdentified(r)
    && TabListsExact(r.projects, r.instances.Keys, r.plugins.Keys, r.templates.Keys)
    && InstancesExact(r.instances, r.plugins)
  }

  lemma SamePluginsOf(a: map<string, Plugin>, b: map<string, Plugin>, i: string)
    requires a.Keys == b.Keys && forall p :: p in b ==> b[p].instance == a[p].instance
    ensures PluginsOf(a, i) == PluginsOf(b, i)
  {}

  lemma SameFrameExact(r: Rows, s: Rows)
    requires SameFrame(r, s) && FrameExact(r)
    ensures FrameExact(s)
  {
    hide Lists, InTab, Free, TabOf, PluginsOf;
    forall i ensures PluginsOf(s.plugins, i) == PluginsOf(r.plugins, i) {
      SamePluginsOf(s.plugins, r.plugins, i);
    }
  }

  lemma SameDataContent(r: Rows, s: Rows, k: Content)
    requires SameData(r, s) && Represents(r, k)
    ensures TabsAre(s.projects, k.tabs) && PluginsAre(s.plugins, k.plugins) && TemplatesAre(s.templates, k.templates)
  {
    hide ComponentsAre, BindingsAre;
  }

  lemma ComponentListsAfter(r: Rows, s: Rows, view: string, ids: seq<string>, before: set<string>, after: set<string>)
    requires ComponentListsExact(r.projects, r.templates, before)
    requires ComponentListAt(r, s, view, ids) && Lists(ids, InView(after, view))
    requires forall w :: w != view ==> InView(after, w) == InView(before, w)
    ensures ComponentListsExact(s.projects, s.templates, after)
  {
    hide Lists, InView;
  }

  lemma BindingListsAfter(r: Rows, s: Rows, view: string, ids: seq<string>, before: set<string>, after: set<string>)
    requires BindingListsExact(r.projects, r.templates, before)
    requires BindingListAt(r, s, view, ids) && Lists(ids, InView(after, view))
    requires forall w :: w != view ==> InView(after, w) == InView(before, w)
    ensures BindingListsExact(s.projects, s.templates, after)
  {
    hide Lists, InView;
  }

  lemma UsageAfter(
      r: Rows, s: Rows, d: Definition, ids: seq<string>, before: map<string, Component>, after: map<string, Component>)
    requires UsageExact(r.plugins, r.templates, before)
    requires UsageAt(r, s, d, ids) && Lists(ids, Users(after, d))
    requires forall e :: e != d ==> Users(after, e) == Users(before, e)
    ensures UsageExact(s.plugins, s.templates, after)
  {
    hide Lists, Users;
  }

  lemma InViewAdd(ids: set<string>, id: string, view: string)
    ensures InView(ids + {id}, view) == if ViewOf(id) == view then InView(ids, view) + {id} else InView(ids, view)
  {
    hide ViewOf;
  }

  lemma InViewRemove(ids: set<string>, id: string, view: string)
    ensures InView(ids - {id}, view) == if ViewOf(id) == view then InView(ids, view) - {id} else InView(ids, view)
  {
    hide ViewOf;
  }

  lemma UsersSet(components: map<string, Component>, id: string, row: Component, d: Definition)
    ensures Users(components[id := row], d) ==
            if row.definition == d then Users(components, d) + {id} else Users(components, d) - {id}
  {}

  lemma UsersRemove(components: map<string, Component>, id: string, d: Definition)
    ensures Users(components - {id}, d) == Users(components, d) - {id}
  {}
}
