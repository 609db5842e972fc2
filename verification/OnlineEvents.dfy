/**
 What a registry holds after any run of its events, read off the events alone: every
 plugin, component and state is what the last event about it made it. With the replay
 of the events this says what the tables of the online components view show.
 */
module OnlineEvents {
  import opened Options
  import opened Strings
  import opened OnlineTables
  import opened OnlineReplica
  import opened OnlineView

  /** `now` is what the last event that gives something gave, or `before` if no event does. */
  ghost predicate Latest<V>(given: Event -> Option<V>, events: seq<Event>, before: V, now: V) {
    || (exists k :: IsLastGiving(given, events, k) && given(events[k]) == Some(now))
    || (now == before && forall j :: 0 <= j < |events| ==> given(events[j]) == None)
  }

  ghost predicate IsLastGiving<V>(given: Event -> Option<V>, events: seq<Event>, k: int) {
    0 <= k < |events| && given(events[k]).Some? && forall j :: k < j < |events| ==> given(events[j]) == None
  }

  lemma LatestNext<V>(given: Event -> Option<V>, events: seq<Event>, before: V, now: V, next: V)
    requires events != [] && Latest(given, events[..|events| - 1], before, now)
    requires next == match given(events[|events| - 1]) case Some(v) => v case None => now
    ensures Latest(given, events, before, next)
  {
    var init, last := events[..|events| - 1], |events| - 1;
    assert forall j :: 0 <= j < last ==> init[j] == events[j];
    if given(events[last]).Some? {
      assert IsLastGiving(given, events, last);
    } else if k :| IsLastGiving(given, init, k) && given(init[k]) == Some(now) {
      assert IsLastGiving(given, events, k);
    }
  }

  lemma LatestOfNone<V>(given: Event -> Option<V>, before: V)
    ensures Latest(given, [], before, before)
  {}

  // ----- states -----

  /** The value of a state of a component, if there is one. */
  function StateIn(g: Online, id: string, name: string): Option<string> {
    if id in g.components && name in g.components[id].states then Some(g.components[id].states[name]) else None
  }

  /** What an event makes of the state: a value, or none when the component comes without it or goes. */
  function StateGiven(e: Event, id: string, name: string): Option<Option<string>> {
    match e
    case ComponentAdded(_, c, _, states) =>
      if c == id then Some(if name in states then Some(states[name]) else None) else None
    case ComponentRemoved(_, c) => if c == id then Some(None) else None
    case StateChanged(_, c, n, value) => if c == id && n == name then Some(Some(value)) else None
    case _ => None
  }

  lemma {:induction false} StateIsLatest(g: Online, events: seq<Event>, id: string, name: string)
    requires AllCanHappen(g, events)
    ensures Latest(e => StateGiven(e, id, name), events, StateIn(g, id, name), StateIn(After(g, events), id, name))
    decreases |events|
  {
    hide Next, CanHappen, StateIn, StateGiven, Latest;
    if events == [] {
      assert After(g, events) == g;
      LatestOfNone(e => StateGiven(e, id, name), StateIn(g, id, name));
    } else {
      var init := events[..|events| - 1];
      StateIsLatest(g, init, id, name);
      StateAfter(After(g, init), events[|events| - 1], id, name);
      LatestNext(e => StateGiven(e, id, name), events, StateIn(g, id, name), StateIn(After(g, init), id, name),
        StateIn(After(g, events), id, name));
    }
  }

  lemma StateAfter(g: Online, e: Event, id: string, name: string)
    requires CanHappen(g, e)
    ensures StateIn(Next(g, e), id, name) ==
      match StateGiven(e, id, name) case Some(v) => v case None => StateIn(g, id, name)
  {}

  // ----- components -----

  /** The instance and the plugin of a component, if it is there. */
  function PlaceIn(g: Online, id: string): Option<(string, string)> {
    if id in g.components then Some((g.components[id].instance, g.components[id].plugin)) else None
  }

  function PlaceGiven(e: Event, id: string): Option<Option<(string, string)>> {
    match e
    case ComponentAdded(instance, c, plugin, _) => if c == id then Some(Some((instance, plugin))) else None
    case ComponentRemoved(_, c) => if c == id then Some(None) else None
    case _ => None
  }

  lemma {:induction false} PlaceIsLatest(g: Online, events: seq<Event>, id: string)
    requires AllCanHappen(g, events)
    ensures Latest(e => PlaceGiven(e, id), events, PlaceIn(g, id), PlaceIn(After(g, events), id))
    decreases |events|
  {
    hide Next, CanHappen, PlaceIn, PlaceGiven, Latest;
    if events == [] {
      assert After(g, events) == g;
      LatestOfNone(e => PlaceGiven(e, id), PlaceIn(g, id));
    } else {
      var init := events[..|events| - 1];
      PlaceIsLatest(g, init, id);
      PlaceAfter(After(g, init), events[|events| - 1], id);
      LatestNext(e => PlaceGiven(e, id), events, PlaceIn(g, id), PlaceIn(After(g, init), id),
        PlaceIn(After(g, events), id));
    }
  }

  lemma PlaceAfter(g: Online, e: Event, id: string)
    requires CanHappen(g, e)
    ensures PlaceIn(Next(g, e), id) == match PlaceGiven(e, id) case Some(v) => v case None => PlaceIn(g, id)
  {}

  // ----- plugins -----

  function InfoIn(g: Online, x: (string, string)): Option<string> {
    if x in g.plugins then Some(g.plugins[x]) else None
  }

  function InfoGiven(e: Event, x: (string, string)): Option<Option<string>> {
    match e
    case PluginAdded(instance, plugin, info) => if (instance, plugin) == x then Some(Some(info)) else None
    case PluginRemoved(instance, plugin) => if (instance, plugin) == x then Some(None) else None
    case _ => None
  }

  lemma {:induction false} InfoIsLatest(g: Online, events: seq<Event>, x: (string, string))
    requires AllCanHappen(g, events)
    ensures Latest(e => InfoGiven(e, x), events, InfoIn(g, x), InfoIn(After(g, events), x))
    decreases |events|
  {
    if events != [] {
      var init := events[..|events| - 1];
      InfoIsLatest(g, init, x);
      LatestNext(e => InfoGiven(e, x), events, InfoIn(g, x), InfoIn(After(g, init), x), InfoIn(After(g, events), x));
    }
  }

  // ----- what the tables show -----

  /** The value in the row of a state, if there is one. */
  function StateRowOf(t: Tables, i: string, id: string, name: string): Option<string> {
    var k := StateId(i, id, name);
    if k in t.states then Some(t.states[k].value) else None
  }

  lemma RowOfState(t: Tables, g: Online, id: string, name: string)
    requires Shows(t, g) && Clean(g) && id in g.components
    ensures StateRowOf(t, g.components[id].instance, id, name) == StateIn(g, id, name)
  {
    hide Compose, StateId, Free, ShowsPlugins, ShowsComponents;
    var i := g.components[id].instance;
    var k := StateId(i, id, name);
    if name in g.components[id].states {
      assert ShowsState(t, g, id, name);
    } else if k in t.states {
      assert IsState(t, g, k);
      var row := t.states[k];
      var other := t.components[row.component].display;
      assert IsStateOf(t, g, k, other);
      assert Free((i, g.components[id].plugin).0, ':');
      assert Free((row.instance, g.components[other].plugin).0, ':');
      StateIdInjective(i, id, name, row.instance, other, row.name);
    }
  }

  /** The row of a component's state holds what the last event about that state said. */
  lemma ShownIsLatest(t: Tables, g: Online, events: seq<Event>, id: string, name: string)
    requires AllCanHappen(g, events) && Shows(t, After(g, events)) && Clean(After(g, events))
    requires id in After(g, events).components
    ensures Latest(e => StateGiven(e, id, name), events, StateIn(g, id, name),
      StateRowOf(t, After(g, events).components[id].instance, id, name))
  {
    hide After, AllCanHappen, Latest, Shows, Clean;
    StateIsLatest(g, events, id, name);
    RowOfState(t, After(g, events), id, name);
  }
}
