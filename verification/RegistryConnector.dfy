/**
 The UI server's session connector: every connected session gets a full `state`
 message when it joins or when the required states are replaced, and `add`, `remove`
 and `change` messages in between. The client folds them into its repository.
 */
module RegistryConnector {

  datatype Component = Component(ui: bool, states: map<string, string>)

  type Repository = map<string, map<string, string>>

  datatype Message =
    | State(state: Repository)
    | Add(id: string, attributes: map<string, string>)
    | Remove(id: string)
    | Change(id: string, name: string, value: string)

  // ----- the client -----

  /** The client's reducer. */
  function Reduce(state: Repository, m: Message): Repository {
    match m
    case State(payload) => payload
    case Add(id, attributes) => state[id := attributes]
    case Remove(id) => state - {id}
    case Change(id, name, value) => state[id := (if id in state then state[id] else map[])[name := value]]
  }

  function Replica(messages: seq<Message>): Repository {
    if messages == [] then map[] else Reduce(Replica(messages[..|messages| - 1]), messages[|messages| - 1])
  }

  lemma ReplicaNext(messages: seq<Message>, m: Message)
    ensures Replica(messages + [m]) == Reduce(Replica(messages), m)
  {
    assert (messages + [m])[..|messages|] == messages;
  }

  // ----- the snapshot -----

  /** `attributes` are the component's states among the required names. */
  ghost predicate Filtered(attributes: map<string, string>, states: map<string, string>, names: set<string>) {
    forall n :: (n in attributes <==> n in states && n in names) && (n in attributes ==> attributes[n] == states[n])
  }

  /** Component `id` is shown: it is a UI component and some state of it is required. */
  predicate Shown(components: map<string, Component>, required: map<string, set<string>>, id: string) {
    id in components && components[id].ui && id in required
  }

  /** What `sendState` would send now. */
  ghost predicate IsSnapshot(
      state: Repository, components: map<string, Component>, required: map<string, set<string>>) {
    forall id ::
      && (id in state <==> Shown(components, required, id))
      && (id in state ==> Filtered(state[id], components[id].states, required[id]))
  }

  /** There is one snapshot. */
  lemma SnapshotsAgree(
      a: Repository, b: Repository, components: map<string, Component>, required: map<string, set<string>>)
    requires IsSnapshot(a, components, required) && IsSnapshot(b, components, required)
    ensures a == b
  {
    forall id | id in a ensures id in b && a[id] == b[id] {
      assert Shown(components, required, id);
      assert id in b;
    }
    forall id | id in b ensures id in a {
      assert Shown(components, required, id);
    }
  }

  // ----- what each event does to the snapshot -----

  lemma AddShown(
      state: Repository, components: map<string, Component>, required: map<string, set<string>>, id: string,
      c: Component, attributes: map<string, string>)
    requires IsSnapshot(state, components, required) && id !in components && c.ui && id in required
    requires Filtered(attributes, c.states, required[id])
    ensures IsSnapshot(Reduce(state, Add(id, attributes)), components[id := c], required)
  {
    hide Filtered;
  }

  lemma AddHidden(
      state: Repository, components: map<string, Component>, required: map<string, set<string>>, id: string,
      c: Component)
    requires IsSnapshot(state, components, required) && id !in components && !(c.ui && id in required)
    ensures IsSnapshot(state, components[id := c], required)
  {
    hide Filtered;
  }

  lemma RemoveShown(
      state: Repository, components: map<string, Component>, required: map<string, set<string>>, id: string)
    requires IsSnapshot(state, components, required)
    ensures IsSnapshot(Reduce(state, Remove(id)), components - {id}, required)
    ensures !Shown(components, required, id) ==> IsSnapshot(state, components - {id}, required)
  {
    hide Filtered;
  }

  lemma ChangeShown(
      state: Repository, components: map<string, Component>, required: map<string, set<string>>, id: string,
      name: string, value: string)
    requires IsSnapshot(state, components, required) && Shown(components, required, id)
    ensures var changed := components[id := components[id].(states := components[id].states[name := value])];
            IsSnapshot(if name in required[id] then Reduce(state, Change(id, name, value)) else state, changed,
              required)
  {
    assert Filtered(state[id], components[id].states, required[id]);
    assert Filtered(if name in required[id] then state[id][name := value] else state[id],
      components[id].states[name := value], required[id]);
    hide Filtered;
  }

  lemma ChangeHidden(
      state: Repository, components: map<string, Component>, required: map<string, set<string>>, id: string,
      name: string, value: string)
    requires IsSnapshot(state, components, required) && id in components && !Shown(components, required, id)
    ensures IsSnapshot(state, components[id := components[id].(states := components[id].states[name := value])],
      required)
  {
    hide Filtered;
  }

  /** The names required of each component, from the list of pairs. */
  ghost predicate Groups(required: map<string, set<string>>, pairs: seq<(string, string)>) {
    && (forall i :: 0 <= i < |pairs| ==> pairs[i].0 in required && pairs[i].1 in required[pairs[i].0])
    && (forall id, name :: id in required && name in required[id] ==> (id, name) in pairs)
    && (forall id :: id in required ==> required[id] != {})
  }

  /** Every session got these messages more, and no other. */
  ghost predicate Sends(before: map<nat, seq<Message>>, after: map<nat, seq<Message>>, messages: seq<Message>) {
    after.Keys == before.Keys && forall s :: s in after ==> after[s] == before[s] + messages
  }

  class SessionsRegistryConnector {
    // the registry's components, by id
    var components: map<string, Component>
    // messages sent to each connected session
    var sessions: map<nat, seq<Message>>
    var registryStateListeners: set<string>
    var requiredComponentStates: map<string, set<string>>

    /** Every session's replica is the snapshot, and exactly the UI components are listened to. */
    ghost predicate Valid()
      reads this
    {
      && (forall s :: s in sessions ==> IsSnapshot(Replica(sessions[s]), components, requiredComponentStates))
      && Listening(components, registryStateListeners)
    }

    constructor (components: map<string, Component>)
      ensures Valid() && this.components == components && sessions == map[] && requiredComponentStates == map[]
    {
      this.components := components;
      sessions, requiredComponentStates := map[], map[];
      registryStateListeners := set id | id in components && components[id].ui;
    }

    /** `broadcast`: one more message for every session. */
    method Broadcast(m: Message)
      modifies `sessions
      ensures sessions.Keys == old(sessions).Keys
      ensures forall s :: s in sessions ==> sessions[s] == old(sessions)[s] + [m]
    {
      var todo := sessions.Keys;
      while todo != {}
        invariant todo <= sessions.Keys == old(sessions).Keys
        invariant forall s :: s in sessions ==>
          sessions[s] == if s in todo then old(sessions)[s] else old(sessions)[s] + [m]
        decreases |todo|
      {
        var s :| s in todo;
        sessions := sessions[s := sessions[s] + [m]];
        todo := todo - {s};
      }
    }

    /** `getRequiredComponentStates`. */
    method GetRequiredComponentStates(id: string, c: Component) returns (states: map<string, string>)
      requires id in requiredComponentStates
      ensures Filtered(states, c.states, requiredComponentStates[id])
    {
      states := map[];
      var todo := c.states.Keys;
      while todo != {}
        invariant todo <= c.states.Keys
        invariant forall n :: n in states <==> n in c.states && n !in todo && n in requiredComponentStates[id]
        invariant forall n :: n in states ==> states[n] == c.states[n]
        decreases |todo|
      {
        var key :| key in todo;
        if key in requiredComponentStates[id] {
          states := states[key := c.states[key]];
        }
        todo := todo - {key};
      }
    }

    /** The `state` message `sendState` builds. */
    method BuildState() returns (state: Repository)
      ensures IsSnapshot(state, components, requiredComponentStates)
    {
      hide Filtered;
      state := map[];
      var todo := components.Keys;
      while todo != {}
        invariant todo <= components.Keys
        invariant forall id :: id in state <==> Shown(components, requiredComponentStates, id) && id !in todo
        invariant forall id :: id in state ==> Filtered(state[id], components[id].states, requiredComponentStates[id])
        decreases |todo|
      {
        var id :| id in todo;
        if components[id].ui && id in requiredComponentStates {
          var states := GetRequiredComponentStates(id, components[id]);
          state := state[id := states];
        }
        todo := todo - {id};
      }
    }

    /** `setRequiredComponentStates`: group the pairs, then reset every session. */
    method SetRequiredComponentStates(pairs: seq<(string, string)>)
      requires Valid()
      modifies this
      ensures Valid() && Groups(requiredComponentStates, pairs)
      ensures components == old(components) && sessions.Keys == old(sessions).Keys
      ensures exists state :: IsSnapshot(state, components, requiredComponentStates)
                              && Sends(old(sessions), sessions, [State(state)])
    {
      hide Groups, IsSnapshot;
      requiredComponentStates := map[];
      NoPairs(pairs);
      for i := 0 to |pairs|
        invariant Groups(requiredComponentStates, pairs[..i])
        invariant components == old(components) && sessions == old(sessions)
        invariant registryStateListeners == old(registryStateListeners)
      {
        var (id, name) := pairs[i];
        GroupsNext(requiredComponentStates, pairs, i);
        requiredComponentStates := requiredComponentStates[id :=
          (if id in requiredComponentStates then requiredComponentStates[id] else {}) + {name}];
      }
      assert pairs[..|pairs|] == pairs;
      var state := BuildState();
      Broadcast(State(state));
      assert Sends(old(sessions), sessions, [State(state)]);
      forall s | s in sessions ensures IsSnapshot(Replica(sessions[s]), components, requiredComponentStates) {
        ReplicaNext(old(sessions)[s], State(state));
      }
    }

    method AddClient(s: nat)
      requires Valid()
      modifies `sessions
      ensures Valid() && sessions.Keys == old(sessions).Keys + {s}
      ensures forall other :: other in old(sessions) && other != s ==> sessions[other] == old(sessions)[other]
      ensures exists state :: IsSnapshot(state, components, requiredComponentStates)
                && sessions[s] == (if s in old(sessions) then old(sessions)[s] else []) + [State(state)]
    {
      hide IsSnapshot;
      var state := BuildState();
      var sent := if s in sessions then sessions[s] else [];
      ReplicaNext(sent, State(state));
      sessions := sessions[s := sent + [State(state)]];
    }

    method RemoveClient(s: nat)
      requires Valid()
      modifies `sessions
      ensures Valid() && sessions == old(sessions) - {s}
    {
      sessions := sessions - {s};
    }

    /** A component enters the registry, and `onComponentAdd` runs. */
    method OnComponentAdd(id: string, c: Component)
      requires Valid() && id !in components
      modifies this
      ensures Valid() && components == old(components)[id := c]
      ensures requiredComponentStates == old(requiredComponentStates) && sessions.Keys == old(sessions).Keys
      ensures if c.ui && id in requiredComponentStates
        then exists attributes :: Filtered(attributes, c.states, requiredComponentStates[id])
                                  && Sends(old(sessions), sessions, [Add(id, attributes)])
        else Sends(old(sessions), sessions, [])
    {
      hide IsSnapshot, Filtered;
      components := components[id := c];
      if c.ui {
        registryStateListeners := registryStateListeners + {id};
      }
      if c.ui && id in requiredComponentStates {
        var attributes := GetRequiredComponentStates(id, c);
        Broadcast(Add(id, attributes));
        assert Sends(old(sessions), sessions, [Add(id, attributes)]);
        forall s | s in sessions ensures IsSnapshot(Replica(sessions[s]), components, requiredComponentStates) {
          ReplicaNext(old(sessions)[s], Add(id, attributes));
          AddShown(Replica(old(sessions)[s]), old(components), requiredComponentStates, id, c, attributes);
        }
      } else {
        forall s | s in sessions ensures IsSnapshot(Replica(sessions[s]), components, requiredComponentStates) {
          AddHidden(Replica(sessions[s]), old(components), requiredComponentStates, id, c);
        }
      }
    }

    /** A component leaves the registry, and `onComponentRemove` runs. */
    method OnComponentRemove(id: string)
      requires Valid() && id in components
      modifies this
      ensures Valid() && components == old(components) - {id}
      ensures requiredComponentStates == old(requiredComponentStates) && sessions.Keys == old(sessions).Keys
      ensures Sends(old(sessions), sessions,
        if old(components)[id].ui && id in requiredComponentStates then [Remove(id)] else [])
    {
      hide IsSnapshot, Filtered, Shown;
      var c := components[id];
      components := components - {id};
      ShownMeans(old(components), requiredComponentStates, id);
      if c.ui {
        registryStateListeners := registryStateListeners - {id};
      }
      if c.ui && id in requiredComponentStates {
        Broadcast(Remove(id));
        forall s | s in sessions ensures IsSnapshot(Replica(sessions[s]), components, requiredComponentStates) {
          ReplicaNext(old(sessions)[s], Remove(id));
          RemoveShown(Replica(old(sessions)[s]), old(components), requiredComponentStates, id);
        }
      } else {
        forall s | s in sessions ensures IsSnapshot(Replica(sessions[s]), components, requiredComponentStates) {
          RemoveShown(Replica(sessions[s]), old(components), requiredComponentStates, id);
        }
      }
    }

    /** A component's state changes; its listener, if any, runs. */
    method OnState(id: string, name: string, value: string)
      requires Valid() && id in components
      modifies this
      ensures Valid()
      ensures components
        == old(components)[id := old(components)[id].(states := old(components)[id].states[name := value])]
      ensures requiredComponentStates == old(requiredComponentStates) && sessions.Keys == old(sessions).Keys
      ensures var isSent := components[id].ui && id in requiredComponentStates && name in requiredComponentStates[id];
              Sends(old(sessions), sessions, if isSent then [Change(id, name, value)] else [])
    {
      hide IsSnapshot, Filtered, Shown;
      components := components[id := components[id].(states := components[id].states[name := value])];
      ShownMeans(old(components), requiredComponentStates, id);
      if id in registryStateListeners && id in requiredComponentStates && name in requiredComponentStates[id] {
        Broadcast(Change(id, name, value));
        forall s | s in sessions ensures IsSnapshot(Replica(sessions[s]), components, requiredComponentStates) {
          ReplicaNext(old(sessions)[s], Change(id, name, value));
          ChangeShown(Replica(old(sessions)[s]), old(components), requiredComponentStates, id, name, value);
        }
      } else {
        forall s | s in sessions ensures IsSnapshot(Replica(sessions[s]), components, requiredComponentStates) {
          if Shown(old(components), requiredComponentStates, id) {
            ChangeShown(Replica(sessions[s]), old(components), requiredComponentStates, id, name, value);
          } else {
            ChangeHidden(Replica(sessions[s]), old(components), requiredComponentStates, id, name, value);
          }
        }
      }
    }
  }

  ghost predicate Listening(components: map<string, Component>, listeners: set<string>) {
    forall id :: id in listeners <==> id in components && components[id].ui
  }

  lemma ShownMeans(components: map<string, Component>, required: map<string, set<string>>, id: string)
    requires id in components
    ensures Shown(components, required, id) <==> components[id].ui && id in required
  {}

  lemma NoPairs(pairs: seq<(string, string)>)
    ensures Groups(map[], pairs[..0])
  {}

  lemma GroupsNext(required: map<string, set<string>>, pairs: seq<(string, string)>, i: nat)
    requires i < |pairs| && Groups(required, pairs[..i])
    ensures var (id, name) := pairs[i];
            Groups(required[id := (if id in required then required[id] else {}) + {name}], pairs[..i + 1])
  {
    var (id, name) := pairs[i];
    assert pairs[..i + 1] == pairs[..i] + [(id, name)];
    assert (pairs[..i] + [(id, name)])[i] == (id, name);
  }

  // ----- whole runs -----

  datatype Event =
    | Joins(s: nat)
    | Leaves(s: nat)
    | Enters(id: string, c: Component)
    | Exits(id: string)
    | Changes(id: string, name: string, value: string)
    | Requires(pairs: seq<(string, string)>)

  /** What the sessions are shown from: the registry's components, and what is required of them. */
  datatype Scene = Scene(components: map<string, Component>, sessions: set<nat>, required: map<string, set<string>>)

  /** What an event changes. */
  ghost predicate Follows(a: Scene, e: Event, b: Scene) {
    match e
    case Joins(s) => b == a.(sessions := a.sessions + {s})
    case Leaves(s) => b == a.(sessions := a.sessions - {s})
    case Enters(id, c) => b == if id in a.components then a else a.(components := a.components[id := c])
    case Exits(id) => b == a.(components := a.components - {id})
    case Changes(id, name, value) =>
      && b == a.(components := b.components) && b.components.Keys == a.components.Keys
      && (forall other :: other in a.components && other != id ==> b.components[other] == a.components[other])
      && (id in a.components ==>
            b.components[id] == a.components[id].(states := a.components[id].states[name := value]))
    case Requires(pairs) => b == a.(required := b.required) && Groups(b.required, pairs)
  }

  ghost function SceneOf(k: SessionsRegistryConnector): Scene
    reads k
  {
    Scene(k.components, k.sessions.Keys, k.requiredComponentStates)
  }

  method Take(k: SessionsRegistryConnector, e: Event)
    requires k.Valid()
    modifies k
    ensures k.Valid() && Follows(old(SceneOf(k)), e, SceneOf(k))
  {
    hide IsSnapshot, Groups, Sends, Filtered;
    match e {
      case Joins(s) => k.AddClient(s);
      case Leaves(s) => k.RemoveClient(s);
      case Enters(id, c) => if id !in k.components { k.OnComponentAdd(id, c); }
      case Exits(id) => if id in k.components { k.OnComponentRemove(id); }
      case Changes(id, name, value) => if id in k.components { k.OnState(id, name, value); }
      case Requires(pairs) => k.SetRequiredComponentStates(pairs);
    }
  }

  /**
   Over every run, the messages a connected session got fold to exactly what a full
   `state` message would hold now, so all sessions agree. What it holds is drawn from
   the components as the events left them, one after the other along `trail`.
   */
  method Run(k: SessionsRegistryConnector, events: seq<Event>) returns (now: Repository, ghost trail: seq<Scene>)
    requires k.Valid()
    modifies k
    ensures k.Valid() && IsSnapshot(now, k.components, k.requiredComponentStates)
    ensures forall s :: s in k.sessions ==> Replica(k.sessions[s]) == now
    ensures |trail| == |events| + 1 && trail[0] == old(SceneOf(k)) && trail[|events|] == SceneOf(k)
    ensures forall i :: 0 <= i < |events| ==> Follows(trail[i], events[i], trail[i + 1])
  {
    hide IsSnapshot, Follows;
    trail := [SceneOf(k)];
    for i := 0 to |events|
      invariant k.Valid() && |trail| == i + 1 && trail[0] == old(SceneOf(k)) && trail[i] == SceneOf(k)
      invariant forall j :: 0 <= j < i ==> Follows(trail[j], events[j], trail[j + 1])
    {
      Take(k, events[i]);
      trail := trail + [SceneOf(k)];
    }
    now := k.BuildState();
    forall s | s in k.sessions ensures Replica(k.sessions[s]) == now {
      SnapshotsAgree(Replica(k.sessions[s]), now, k.components, k.requiredComponentStates);
    }
  }
}
