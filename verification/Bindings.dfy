/**
 A binding forwards one state of a source component to one action of a target
 component while both are in the registry and their members match. Components hold
 their state values: local ones validate every value they are given and emit only on
 change, remote ones take what the wire delivers.
 */
module Bindings {
  import opened Options
  import opened Types
  import opened Codecs
  import opened Plugins
  import opened Components

  datatype Config = Config(sourceComponent: string, sourceState: string, targetComponent: string, targetAction: string)

  /** An action executed by the binding, and whether the target accepted the value. */
  datatype Execution = Execution(ref: nat, action: string, value: Value, accepted: bool)

  // ----- members that match -----

  /** Both members exist with the right kind, and their types print equally. */
  predicate MembersMatch(c: Config, source: Object, target: Object) {
    var s, t := FindMember(source, c.sourceState, STATE), FindMember(target, c.targetAction, ACTION);
    s.Some? && t.Some? && Print(s.value.valueType) == Print(t.value.valueType)
  }

  // ----- the components of the registry -----

  ghost predicate Distinct(registry: map<string, Object>) {
    && (forall id :: id in registry ==> registry[id].id == id && Built(registry[id]))
    && (forall a, b :: a in registry && b in registry && registry[a].ref == registry[b].ref ==> a == b)
  }

  /** Every state of `o` has a value that its type accepts, or none yet. */
  predicate Holds(o: Object, values: map<string, Value>) {
    forall n :: n in o.members && o.members[n].memberType == STATE ==>
      n in values && (values[n] == Null || IsValid(HeldType(o, n), values[n]))
  }

  ghost predicate AllHold(registry: map<string, Object>, values: map<nat, map<string, Value>>) {
    forall id :: id in registry ==> registry[id].ref in values && Holds(registry[id], values[registry[id].ref])
  }

  ghost predicate AllUnambiguous(registry: map<string, Object>, unambiguous: bool) {
    unambiguous ==> forall id :: id in registry ==> Unambiguous(registry[id])
  }

  lemma Added(
      registry: map<string, Object>, values: map<nat, map<string, Value>>, unambiguous: bool, o: Object,
      states: map<string, Value>)
    requires Known(registry, values, unambiguous)
    requires o.id !in registry && Built(o) && Holds(o, states) && forall id :: id in registry ==>
      registry[id].ref != o.ref
    ensures Known(registry[o.id := o], values[o.ref := states], unambiguous && Unambiguous(o))
  {
    hide Built, Holds, Unambiguous;
  }

  lemma Removed(registry: map<string, Object>, values: map<nat, map<string, Value>>, unambiguous: bool, id: string)
    requires Known(registry, values, unambiguous) && id in registry
    ensures Known(registry - {id}, values, unambiguous)
    ensures forall other :: other in registry && registry[other].ref == registry[id].ref ==> other == id
  {
    hide Built, Holds, Unambiguous;
  }

  function Lookup(registry: map<string, Object>, id: string): Option<Object> {
    if id in registry then Some(registry[id]) else None
  }

  /** The objects are distinct and hold values that fit, and their types are as unambiguous as promised. */
  ghost predicate Known(registry: map<string, Object>, values: map<nat, map<string, Value>>, unambiguous: bool) {
    Distinct(registry) && AllHold(registry, values) && AllUnambiguous(registry, unambiguous)
  }

  // ----- the binding -----

  predicate IsActive(source: Option<Object>, target: Option<Object>, errors: Option<seq<string>>) {
    source.Some? && target.Some? && errors == Some([])
  }

  /** The endpoints are what the registry holds; one component cannot be both. */
  predicate Tracks(
      c: Config, closed: bool, registry: map<string, Object>, source: Option<Object>, target: Option<Object>) {
    if closed then source == None && target == None
    else
      && source == Lookup(registry, c.sourceComponent)
      && target == if c.targetComponent == c.sourceComponent then None else Lookup(registry, c.targetComponent)
  }

  predicate Judged(c: Config, source: Option<Object>, target: Option<Object>, errors: Option<seq<string>>) {
    source.Some? && target.Some? ==>
      errors.Some? && (errors.value == [] <==> MembersMatch(c, source.value, target.value))
  }

  /** The source carries exactly one listener while the binding is active; nothing else carries one. */
  predicate Listening(
      source: Option<Object>, target: Option<Object>, errors: Option<seq<string>>, listeners: multiset<nat>) {
    listeners == if IsActive(source, target, errors) then multiset{source.value.ref} else multiset{}
  }

  /** The current value of the source state; null when there is none yet. */
  function CurrentValue(c: Config, source: Object, values: map<nat, map<string, Value>>): Value {
    if source.ref in values && c.sourceState in values[source.ref] then values[source.ref][c.sourceState] else Null
  }

  /** What a binding executes when it becomes active: the current value is forwarded, if there is one. */
  function Initial(
      c: Config, source: Object, target: Object, values: map<nat, map<string, Value>>): seq<Execution> {
    var v := CurrentValue(c, source, values);
    if v == Null then [] else [Execution(target.ref, c.targetAction, v, AcceptsAction(target, c.targetAction, v))]
  }

  /** The last action executed brought the target the source's current value. */
  predicate InSync(c: Config, source: Option<Object>, target: Option<Object>, errors: Option<seq<string>>,
                   values: map<nat, map<string, Value>>, executed: seq<Execution>) {
    IsActive(source, target, errors) && CurrentValue(c, source.value, values) != Null ==>
      executed != []
        && Carries(executed[|executed| - 1], target.value.ref, c.targetAction, CurrentValue(c, source.value, values))
  }

  ghost predicate Bound(
      c: Config, closed: bool, registry: map<string, Object>, values: map<nat, map<string, Value>>,
      source: Option<Object>, target: Option<Object>, errors: Option<seq<string>>, listeners: multiset<nat>,
        executed: seq<Execution>) {
    && Tracks(c, closed, registry, source, target)
    && Judged(c, source, target, errors)
    && Listening(source, target, errors, listeners)
    && InSync(c, source, target, errors, values, executed)
  }

  /** A binding without its endpoints is bound, if it carries no listener. */
  lemma BoundIdle(c: Config, closed: bool, registry: map<string, Object>, values: map<nat, map<string, Value>>,
                  source: Option<Object>, target: Option<Object>, errors: Option<seq<string>>, executed: seq<Execution>)
    requires Tracks(c, closed, registry, source, target) && (source.None? || target.None?)
    ensures Bound(c, closed, registry, values, source, target, errors, multiset{}, executed)
  {
    hide MembersMatch;
  }

  /** An endpoint that is absent leaves no listener. */
  lemma BoundAbsent(c: Config, registry: map<string, Object>, values: map<nat, map<string, Value>>,
                    source: Option<Object>, target: Option<Object>, errors: Option<seq<string>>,
                      listeners: multiset<nat>, executed: seq<Execution>, o: Object)
    requires Bound(c, false, registry, values, source, target, errors, listeners, executed) && o.id !in registry
    ensures o.id == c.sourceComponent ==>
      listeners == multiset{} && Tracks(c, false, registry[o.id := o], Some(o), target)
    ensures o.id != c.sourceComponent && o.id == c.targetComponent ==>
      listeners == multiset{} && Tracks(c, false, registry[o.id := o], source, Some(o))
  {
    hide MembersMatch;
  }

  /** Other components come and go unnoticed. */
  lemma BoundOthers(c: Config, closed: bool, registry: map<string, Object>, values: map<nat, map<string, Value>>,
                    source: Option<Object>, target: Option<Object>, errors: Option<seq<string>>,
                      listeners: multiset<nat>, executed: seq<Execution>,
                    registry': map<string, Object>, values': map<nat, map<string, Value>>)
    requires Bound(c, closed, registry, values, source, target, errors, listeners, executed)
    requires !closed ==> Lookup(registry', c.sourceComponent) == Lookup(registry, c.sourceComponent)
                         && Lookup(registry', c.targetComponent) == Lookup(registry, c.targetComponent)
    requires source.Some? ==> CurrentValue(c, source.value, values') == CurrentValue(c, source.value, values)
    ensures Bound(c, closed, registry', values', source, target, errors, listeners, executed)
  {
    hide MembersMatch, Carries, CurrentValue;
  }

  /** A component that is no endpoint enters. */
  lemma BoundNew(c: Config, closed: bool, registry: map<string, Object>, values: map<nat, map<string, Value>>,
                 source: Option<Object>, target: Option<Object>, errors: Option<seq<string>>, listeners: multiset<nat>,
                   executed: seq<Execution>,
                 o: Object, states: map<string, Value>)
    requires Bound(c, closed, registry, values, source, target, errors, listeners, executed) && o.id !in registry
    requires closed || (o.id != c.sourceComponent && o.id != c.targetComponent)
    requires forall id :: id in registry ==> registry[id].ref != o.ref
    ensures Bound(c, closed, registry[o.id := o], values[o.ref := states], source, target, errors, listeners, executed)
  {
    hide Judged, Listening, InSync, CurrentValue;
    CurrentUntouched(c, values, source, o.ref, states);
    BoundOthers(c, closed, registry, values, source, target, errors, listeners, executed, registry[o.id := o],
      values[o.ref := states]);
  }

  lemma BoundEnds(c: Config, closed: bool, registry: map<string, Object>, values: map<nat, map<string, Value>>,
                  source: Option<Object>, target: Option<Object>, errors: Option<seq<string>>, listeners: multiset<nat>,
                    executed: seq<Execution>)
    requires Bound(c, closed, registry, values, source, target, errors, listeners, executed)
    ensures Tracks(c, closed, registry, source, target) && Listening(source, target, errors, listeners)
    ensures IsActive(source, target, errors) ==> MembersMatch(c, source.value, target.value)
  {
    hide MembersMatch;
  }

  class Binding {
    const config: Config
    var source: Option<Object>
    var target: Option<Object>
    var errors: Option<seq<string>>
    var closed: bool
    // the registry, and the values of each object's states
    var registry: map<string, Object>
    var values: map<nat, map<string, Value>>
    // this binding's listeners on component objects, and what it executed
    var listeners: multiset<nat>
    var executed: seq<Execution>
    // every component added so far is unambiguous
    ghost var unambiguous: bool

    predicate Active()
      reads this
    {
      IsActive(source, target, errors)
    }

    ghost predicate Valid()
      reads this
    {
      && Known(registry, values, unambiguous)
      && (unambiguous ==> AllAccepted(executed))
      && Bound(config, closed, registry, values, source, target, errors, listeners, executed)
    }

    constructor (config: Config)
      ensures Valid() && !closed && registry == map[] && executed == [] && this.config == config && unambiguous
    {
      this.config := config;
      source, target, errors, closed := None, None, None, false;
      registry, values, listeners, executed := map[], map[], multiset{}, [];
      unambiguous := true;
    }

    /** `executeAction` on the target. */
    method Execute(value: Value)
      requires target.Some?
      modifies `executed
      ensures executed
        == old(executed) + [Execution(target.value.ref, config.targetAction, value,
          AcceptsAction(target.value, config.targetAction, value))]
    {
      executed := executed + [Execution(target.value.ref, config.targetAction, value,
        AcceptsAction(target.value, config.targetAction, value))];
    }

    /** `initBinding`. */
    method InitBinding()
      requires Known(registry, values, unambiguous) && (unambiguous ==> AllAccepted(executed))
      requires Tracks(config, closed, registry, source, target) && !closed && listeners == multiset{}
      modifies `errors, `listeners, `executed
      ensures Valid()
      ensures executed == old(executed) + if Active() then Initial(config, source.value, target.value, values) else []
    {
      hide Known, MembersMatch, AcceptsAction, Print, Bound;
      if source.None? || target.None? {
        BoundIdle(config, closed, registry, values, source, target, errors, executed);
        return;
      }
      var sourceMember := FindMember(source.value, config.sourceState, STATE);
      var targetMember := FindMember(target.value, config.targetAction, ACTION);
      var found: seq<string> := [];
      if sourceMember.None? {
        found := found + ["state does not exist"];
      }
      if targetMember.None? {
        found := found + ["action does not exist"];
      }
      if sourceMember.Some? && targetMember.Some?
        && Print(sourceMember.value.valueType) != Print(targetMember.value.valueType) {
        found := found + ["types differ"];
      }
      JudgedRight(config, source.value, target.value);
      errors := Some(found);
      if found != [] {
        BoundRefused(config, registry, values, source, target, found, executed);
        return;
      }
      Activate();
    }

    /** The end of `initBinding`: listen, and forward the current value if there is one. */
    method Activate()
      requires Known(registry, values, unambiguous) && (unambiguous ==> AllAccepted(executed))
      requires Tracks(config, closed, registry, source, target) && !closed && listeners == multiset{}
      requires source.Some? && target.Some? && errors == Some([]) && MembersMatch(config, source.value, target.value)
      modifies `listeners, `executed
      ensures Valid() && executed == old(executed) + Initial(config, source.value, target.value, values)
    {
      hide Known, MembersMatch, AcceptsAction, IsValid, Bound;
      listeners := listeners + multiset{source.value.ref};
      SourceIsState(config, source.value, target.value);
      StateHeld(registry, values, unambiguous, config.sourceComponent, config.sourceState);
      var value := values[source.value.ref][config.sourceState];
      if value != Null {
        ForwardSound(config, registry, values, unambiguous, value);
        Execute(value);
      }
      assert listeners == multiset{source.value.ref};
      BoundActive(config, registry, values, source, target, executed);
    }

    /** `terminateBinding`. */
    method TerminateBinding()
      requires Listening(source, target, errors, listeners)
      modifies `errors, `listeners
      ensures listeners == multiset{} && errors == Some([])
    {
      if Active() {
        listeners := listeners - multiset{source.value.ref};
      }
      errors := Some([]);
    }

    /** A component enters the registry, and `onComponentAdd` runs. */
    method OnComponentAdd(o: Object, states: map<string, Value>)
      requires Valid() && o.id !in registry && Built(o) && Holds(o, states)
      requires forall id :: id in registry ==> registry[id].ref != o.ref
      modifies this
      ensures Valid() && closed == old(closed) && registry == old(registry)[o.id := o]
      ensures values == old(values)[o.ref := states]
      ensures unambiguous == (old(unambiguous) && Unambiguous(o))
      ensures var isEnd := !closed && (o.id == config.sourceComponent || o.id == config.targetComponent);
              var initial := if isEnd && Active() then Initial(config, source.value, target.value, values) else [];
              executed == old(executed) + initial
    {
      hide Known, AllAccepted, Bound, Tracks, Built, Holds, Unambiguous, Initial;
      Added(registry, values, unambiguous, o, states);
      if !closed {
        BoundAbsent(config, registry, values, source, target, errors, listeners, executed, o);
      }
      registry := registry[o.id := o];
      values := values[o.ref := states];
      unambiguous := unambiguous && Unambiguous(o);
      if !closed && o.id == config.sourceComponent {
        source := Some(o);
        InitBinding();
      } else if !closed && o.id == config.targetComponent {
        target := Some(o);
        InitBinding();
      } else {
        BoundNew(config, closed, old(registry), old(values), source, target, errors, listeners, executed, o, states);
      }
    }

    /** A component leaves the registry, and `onComponentRemove` runs with the registered object. */
    method OnComponentRemove(id: string)
      requires Valid() && id in registry
      modifies this
      ensures Valid() && closed == old(closed) && registry == old(registry) - {id} && executed == old(executed)
      ensures values == old(values)
      ensures old(registry)[id].ref !in listeners
    {
      hide Known, AllAccepted, Bound, Judged, MembersMatch, CurrentValue;
      var o := registry[id];
      Removed(registry, values, unambiguous, id);
      BoundEnds(config, closed, registry, values, source, target, errors, listeners, executed);
      registry := registry - {id};
      if source == Some(o) {
        TerminateBinding();
        source := None;
        BoundIdle(config, closed, registry, values, source, target, errors, executed);
      } else if target == Some(o) {
        TerminateBinding();
        target := None;
        BoundIdle(config, closed, registry, values, source, target, errors, executed);
      } else {
        BoundOthers(config, closed, old(registry), values, source, target, errors, listeners, executed, registry,
          values);
      }
    }

    /** No component keeps a listener of a closed binding. */
    method Close()
      requires Valid()
      modifies `source, `target, `errors, `listeners, `closed
      ensures Valid() && closed && listeners == multiset{}
    {
      hide Known, AllAccepted, Bound, MembersMatch;
      BoundEnds(config, closed, registry, values, source, target, errors, listeners, executed);
      closed := true;
      if source.Some? {
        TerminateBinding();
        source := None;
      }
      if target.Some? {
        TerminateBinding();
        target := None;
      }
      BoundIdle(config, closed, registry, values, source, target, errors, executed);
    }

    /** `onSourceStateChange`. */
    method OnSourceStateChange(name: string, value: Value)
      modifies `executed
      ensures executed == if name == config.sourceState && target.Some?
        then old(executed) + [Execution(target.value.ref, config.targetAction, value,
          AcceptsAction(target.value, config.targetAction, value))]
        else old(executed)
    {
      if name != config.sourceState {
        return;
      }
      if target.Some? {
        Execute(value);
      }
    }

    /** A component emits a state change: each listener of this binding on it runs. */
    method Emit(o: Object, name: string, value: Value)
      requires Listening(source, target, errors, listeners)
      modifies `executed
      ensures executed == if Active() && o.ref == source.value.ref && name == config.sourceState
        then old(executed) + [Execution(target.value.ref, config.targetAction, value,
          AcceptsAction(target.value, config.targetAction, value))]
        else old(executed)
    {
      hide AcceptsAction;
      var k := 0;
      while k < listeners[o.ref]
        invariant k <= listeners[o.ref] <= 1
        invariant executed == if k == 1 && name == config.sourceState
          then old(executed) + [Execution(target.value.ref, config.targetAction, value,
            AcceptsAction(target.value, config.targetAction, value))]
          else old(executed)
      {
        OnSourceStateChange(name, value);
        k := k + 1;
      }
    }

    /** A local component's state is set: an invalid value is refused, and only a change is emitted. */
    method SetState(id: string, name: string, value: Value) returns (ok: bool)
      requires Valid() && id in registry && registry[id].owner.None? && FindMember(registry[id], name, STATE).Some?
      modifies `values, `executed
      ensures Valid() && ok == IsValid(registry[id].members[name].valueType, value)
      ensures if ok then Stored(old(values), values, registry[id].ref, name, value) else values == old(values)
      ensures var emits := ok && old(values)[registry[id].ref][name] != value;
              var forwarded := Forwarded(source, target, errors, config, registry[id], name, value);
              executed == old(executed) + if emits then forwarded else []
    {
      hide Known, MembersMatch, AcceptsAction, IsValid, Bound, AllAccepted;
      var o := registry[id];
      StateHeld(registry, values, unambiguous, id, name);
      if !IsValid(o.members[name].valueType, value) {
        return false;
      }
      if values[o.ref][name] == value {
        return true;
      }
      Store(id, name, value);
      return true;
    }

    /** A remote component receives what its owner sent: it is stored and emitted as it is, changed or not. */
    method ReceiveState(id: string, name: string, sent: Value, received: Value)
      requires Valid() && id in registry && registry[id].owner.Some? && FindMember(registry[id], name, STATE).Some?
      requires OwnerSends(registry[id], name, sent, received)
      modifies `values, `executed
      ensures Valid() && Stored(old(values), values, registry[id].ref, name, received)
      ensures executed == old(executed) + Forwarded(source, target, errors, config, registry[id], name, received)
    {
      hide Known, MembersMatch, AcceptsAction, IsValid, Bound, AllAccepted, IsDecoded, CanReceive;
      StateHeld(registry, values, unambiguous, id, name);
      ReceivedIsValid(registry[id].members[name].valueType, registry[id].owner.value[name], sent, received);
      Store(id, name, received);
    }

    /** A component takes a new value and emits it. */
    method Store(id: string, name: string, value: Value)
      requires Valid() && id in registry && FindMember(registry[id], name, STATE).Some?
      requires IsValid(HeldType(registry[id], name), value)
      modifies `values, `executed
      ensures Valid() && Stored(old(values), values, registry[id].ref, name, value)
      ensures executed == old(executed) + Forwarded(source, target, errors, config, registry[id], name, value)
    {
      hide Known, MembersMatch, AcceptsAction, IsValid, Bound, Judged, CurrentValue, Stored;
      var o := registry[id];
      BoundEnds(config, closed, registry, values, source, target, errors, listeners, executed);
      StateHeld(registry, values, unambiguous, id, name);
      StateSet(registry, values, unambiguous, id, name, value);
      CurrentKept(config, values, source, o.ref, name, value);
      WriteStores(values, o.ref, name, value);
      values := values[o.ref := values[o.ref][name := value]];
      Emit(o, name, value);
      if Active() && o.ref == source.value.ref && name == config.sourceState {
        ForwardSound(config, registry, values, unambiguous, value);
        CurrentSet(config, source.value, old(values), name, value);
        BoundActive(config, registry, values, source, target, executed);
      } else {
        BoundInactive(config, closed, registry, old(values), source, target, errors, listeners, executed, values);
      }
    }
  }

  /** One state of one object holds `v`; every other value is as it was. */
  ghost predicate Stored(
      before: map<nat, map<string, Value>>, after: map<nat, map<string, Value>>, ref: nat, name: string, v: Value) {
    && ref in after && name in after[ref] && after[ref][name] == v && after.Keys == before.Keys
    && (forall r :: r in after && r != ref ==> after[r] == before[r])
    && after[ref].Keys == before[ref].Keys + {name}
    && (forall n :: n in after[ref] && n != name ==> after[ref][n] == before[ref][n])
  }

  lemma WriteStores(values: map<nat, map<string, Value>>, ref: nat, name: string, v: Value)
    requires ref in values
    ensures Stored(values, values[ref := values[ref][name := v]], ref, name, v)
  {}

  /** What a state change of `o` makes the binding execute. */
  function Forwarded(source: Option<Object>, target: Option<Object>, errors: Option<seq<string>>, c: Config,
                     o: Object, name: string, v: Value): seq<Execution> {
    if IsActive(source, target, errors) && source == Some(o) && name == c.sourceState
    then [Execution(target.value.ref, c.targetAction, v, AcceptsAction(target.value, c.targetAction, v))]
    else []
  }

  /** The owner holds `sent`, a valid value, and `received` is what can arrive of it. */
  predicate OwnerSends(o: Object, name: string, sent: Value, received: Value)
    requires name in o.members
  {
    && o.owner.Some? && name in o.owner.value && IsDecoded(o.members[name].valueType, o.owner.value[name])
    && Constructible(o.members[name].valueType) && IsValid(o.owner.value[name], sent)
    && CanReceive(o.members[name].valueType, o.owner.value[name], sent, received)
  }

  predicate Carries(e: Execution, ref: nat, action: string, v: Value) {
    e.ref == ref && e.action == action && e.value == v
  }

  ghost predicate AllAccepted(executed: seq<Execution>) {
    forall i :: 0 <= i < |executed| ==> executed[i].accepted
  }

  lemma BoundRefused(c: Config, registry: map<string, Object>, values: map<nat, map<string, Value>>,
                     source: Option<Object>, target: Option<Object>, found: seq<string>, executed: seq<Execution>)
    requires Tracks(c, false, registry, source, target) && source.Some? && target.Some?
    requires found != [] && !MembersMatch(c, source.value, target.value)
    ensures Bound(c, false, registry, values, source, target, Some(found), multiset{}, executed)
  {
    hide MembersMatch;
  }

  lemma BoundActive(c: Config, registry: map<string, Object>, values: map<nat, map<string, Value>>,
                    source: Option<Object>, target: Option<Object>, executed: seq<Execution>)
    requires Tracks(c, false, registry, source, target) && source.Some? && target.Some?
    requires MembersMatch(c, source.value, target.value)
    requires CurrentValue(c, source.value, values) == Null
          || (executed != []
            && Carries(executed[|executed| - 1], target.value.ref, c.targetAction,
              CurrentValue(c, source.value, values)))
    ensures Bound(c, false, registry, values, source, target, Some([]), multiset{source.value.ref}, executed)
  {
    hide MembersMatch, CurrentValue, Carries;
  }

  /** Setting a value the binding does not watch. */
  lemma BoundInactive(c: Config, closed: bool, registry: map<string, Object>, values: map<nat, map<string, Value>>,
                      source: Option<Object>, target: Option<Object>, errors: Option<seq<string>>,
                        listeners: multiset<nat>, executed: seq<Execution>,
                      values': map<nat, map<string, Value>>)
    requires Bound(c, closed, registry, values, source, target, errors, listeners, executed)
    requires IsActive(source, target, errors) ==>
      CurrentValue(c, source.value, values') == CurrentValue(c, source.value, values)
    ensures Bound(c, closed, registry, values', source, target, errors, listeners, executed)
  {
    hide MembersMatch, Carries, CurrentValue;
  }

  lemma CurrentKept(
      c: Config, values: map<nat, map<string, Value>>, source: Option<Object>, ref: nat, name: string, v: Value)
    requires ref in values
    ensures source.Some? && !(source.value.ref == ref && name == c.sourceState) ==>
      CurrentValue(c, source.value, values[ref := values[ref][name := v]]) == CurrentValue(c, source.value, values)
  {}

  lemma CurrentSet(c: Config, source: Object, values: map<nat, map<string, Value>>, name: string, v: Value)
    requires source.ref in values && name == c.sourceState
    ensures CurrentValue(c, source, values[source.ref := values[source.ref][name := v]]) == v
  {}

  lemma CurrentUntouched(
      c: Config, values: map<nat, map<string, Value>>, source: Option<Object>, ref: nat, states: map<string, Value>)
    ensures source.Some? && source.value.ref != ref ==>
      CurrentValue(c, source.value, values[ref := states]) == CurrentValue(c, source.value, values)
  {}

  lemma SourceIsState(c: Config, source: Object, target: Object)
    requires MembersMatch(c, source, target)
    ensures FindMember(source, c.sourceState, STATE).Some?
  {}

  lemma JudgedRight(c: Config, source: Object, target: Object)
    ensures var s, t := FindMember(source, c.sourceState, STATE), FindMember(target, c.targetAction, ACTION);
            MembersMatch(c, source, target) <==>
              s.Some? && t.Some? && Print(s.value.valueType) == Print(t.value.valueType)
  {}

  /** A state of a registered component has a value that fits, or none yet. */
  lemma StateHeld(
      registry: map<string, Object>, values: map<nat, map<string, Value>>, unambiguous: bool, id: string, name: string)
    requires Known(registry, values, unambiguous) && id in registry && FindMember(registry[id], name, STATE).Some?
    ensures registry[id].ref in values && name in values[registry[id].ref]
    ensures values[registry[id].ref][name] == Null
      || IsValid(HeldType(registry[id], name), values[registry[id].ref][name])
    ensures forall other :: other in registry && registry[other].ref == registry[id].ref ==> other == id
  {
    hide Built, IsValid, HeldType;
  }

  lemma StateSet(
      registry: map<string, Object>, values: map<nat, map<string, Value>>, unambiguous: bool, id: string, name: string,
      v: Value)
    requires Known(registry, values, unambiguous) && id in registry && FindMember(registry[id], name, STATE).Some?
    requires IsValid(HeldType(registry[id], name), v)
    ensures registry[id].ref in values
    ensures Known(registry, values[registry[id].ref := values[registry[id].ref][name := v]], unambiguous)
  {
    hide IsValid, Built, HeldType, Unambiguous;
  }

  /** What an active binding forwards is accepted, unless a text stands for more than one type. */
  lemma ForwardSound(
      c: Config, registry: map<string, Object>, values: map<nat, map<string, Value>>, unambiguous: bool, v: Value)
    requires Known(registry, values, unambiguous) && c.sourceComponent in registry && c.targetComponent in registry
    requires MembersMatch(c, registry[c.sourceComponent], registry[c.targetComponent])
    requires c.sourceState in registry[c.sourceComponent].members
    requires IsValid(HeldType(registry[c.sourceComponent], c.sourceState), v)
    ensures unambiguous ==> AcceptsAction(registry[c.targetComponent], c.targetAction, v)
  {
    hide Built, Unambiguous, IsValid, AcceptsAction, Print, Holds, HeldType;
    if unambiguous {
      ForwardAccepted(registry[c.sourceComponent], c.sourceState, registry[c.targetComponent], c.targetAction, v);
    }
  }

  // ----- whole runs -----

  datatype Event =
    | Enters(o: Object, states: map<string, Value>)
    | Exits(id: string)
    | Sets(id: string, name: string, value: Value)
    | Receives(id: string, name: string, sent: Value, received: Value)
    | Closes

  /** The component may enter: its id and its object are not registered, it is built, and its states fit. */
  predicate CanEnter(registry: map<string, Object>, o: Object, states: map<string, Value>) {
    && o.id !in registry && Built(o) && Holds(o, states)
    && forall id :: id in registry ==> registry[id].ref != o.ref
  }

  /** A state of a registered component. */
  predicate IsState(registry: map<string, Object>, id: string, name: string) {
    id in registry && FindMember(registry[id], name, STATE).Some?
  }

  /** The registry after an event. */
  function Registered(registry: map<string, Object>, e: Event): map<string, Object> {
    match e
    case Enters(o, states) => if CanEnter(registry, o, states) then registry[o.id := o] else registry
    case Exits(id) => registry - {id}
    case _ => registry
  }

  /** The value that an event gives the state `name` of the object `ref`, if it gives one. */
  function Gives(registry: map<string, Object>, e: Event, ref: nat, name: string): Option<Value> {
    match e
    case Enters(o, states) =>
      if CanEnter(registry, o, states) && o.ref == ref then Some(if name in states then states[name] else Null)
      else None
    case Sets(id, n, value) =>
      if IsState(registry, id, n) && registry[id].ref == ref && n == name && registry[id].owner.None?
         && IsValid(registry[id].members[n].valueType, value) then Some(value) else None
    case Receives(id, n, sent, received) =>
      if IsState(registry, id, n) && registry[id].ref == ref && n == name
         && OwnerSends(registry[id], n, sent, received) then Some(received) else None
    case _ => None
  }

  /** The value of a state; null when there is none. */
  function ValueOf(values: map<nat, map<string, Value>>, ref: nat, name: string): Value {
    if ref in values && name in values[ref] then values[ref][name] else Null
  }

  ghost predicate Given(registry: map<string, Object>, e: Event,
                        before: map<nat, map<string, Value>>, after: map<nat, map<string, Value>>) {
    forall ref, name :: ValueOf(after, ref, name) ==
      match Gives(registry, e, ref, name) case Some(v) => v case None => ValueOf(before, ref, name)
  }

  lemma StoredIsGiven(registry: map<string, Object>, e: Event, before: map<nat, map<string, Value>>,
                      after: map<nat, map<string, Value>>, id: string, name: string, v: Value)
    requires id in registry && Stored(before, after, registry[id].ref, name, v)
    requires forall ref, n ::
               Gives(registry, e, ref, n) == if ref == registry[id].ref && n == name then Some(v) else None
    ensures Given(registry, e, before, after)
  {
    hide Gives;
  }

  lemma EntersGiven(registry: map<string, Object>, e: Event, before: map<nat, map<string, Value>>)
    requires e.Enters? && CanEnter(registry, e.o, e.states)
    ensures Given(registry, e, before, before[e.o.ref := e.states])
  {
    hide CanEnter;
  }

  method Take(b: Binding, e: Event)
    requires b.Valid()
    modifies b
    ensures b.Valid() && b.registry == Registered(old(b.registry), e) && b.closed == (old(b.closed) || e.Closes?)
    ensures Given(old(b.registry), e, old(b.values), b.values)
  {
    hide Known, Bound, AllAccepted, Built, Holds, IsValid, OwnerSends, Stored, Initial;
    match e {
      case Enters(o, states) =>
        if CanEnter(b.registry, o, states) {
          EntersGiven(b.registry, e, b.values);
          b.OnComponentAdd(o, states);
        }
      case Exits(id) =>
        if id in b.registry { b.OnComponentRemove(id); }
      case Sets(id, name, value) =>
        if IsState(b.registry, id, name) && b.registry[id].owner.None? {
          var ok := b.SetState(id, name, value);
          if ok { StoredIsGiven(b.registry, e, old(b.values), b.values, id, name, value); }
        }
      case Receives(id, name, sent, received) =>
        if IsState(b.registry, id, name) && OwnerSends(b.registry[id], name, sent, received) {
          ReceivedFromOwner(b.registry[id], name, sent, received);
          b.ReceiveState(id, name, sent, received);
          StoredIsGiven(b.registry, e, old(b.values), b.values, id, name, received);
        }
      case Closes => b.Close();
    }
  }

  lemma ReceivedFromOwner(o: Object, name: string, sent: Value, received: Value)
    requires name in o.members && OwnerSends(o, name, sent, received)
    ensures o.owner.Some?
  {}

  // ----- the registry along a run, and the last value given -----

  ghost predicate Trail(trail: seq<map<string, Object>>, events: seq<Event>) {
    |trail| == |events| + 1
    && forall i :: 0 <= i < |events| ==> trail[i + 1] == Registered(trail[i], events[i])
  }

  /** Event `k` gave the state its value, and no later one gave it another. */
  ghost predicate IsLastGiven(
      trail: seq<map<string, Object>>, events: seq<Event>, k: int, ref: nat, name: string, v: Value)
    requires |trail| == |events| + 1
  {
    && 0 <= k < |events| && Gives(trail[k], events[k], ref, name) == Some(v)
    && forall j :: k < j < |events| ==> Gives(trail[j], events[j], ref, name) == None
  }

  /** A state holds the last value that an event gave it, or what it held before if none did. */
  ghost predicate Latest(
      trail: seq<map<string, Object>>, events: seq<Event>, ref: nat, name: string, before: Value, now: Value)
    requires |trail| == |events| + 1
  {
    || (exists k :: IsLastGiven(trail, events, k, ref, name, now))
    || (now == before && forall j :: 0 <= j < |events| ==> Gives(trail[j], events[j], ref, name) == None)
  }

  lemma LatestNext(trail: seq<map<string, Object>>, events: seq<Event>, e: Event, ref: nat, name: string,
                   before: Value, now: Value, next: Value)
    requires Trail(trail, events) && Latest(trail, events, ref, name, before, now)
    requires next == match Gives(trail[|events|], e, ref, name) case Some(v) => v case None => now
    ensures Latest(trail + [Registered(trail[|events|], e)], events + [e], ref, name, before, next)
  {
    hide Gives, Registered;
    var t, es := trail + [Registered(trail[|events|], e)], events + [e];
    assert forall j :: 0 <= j < |events| ==> t[j] == trail[j] && es[j] == events[j];
    if Gives(trail[|events|], e, ref, name).Some? {
      assert IsLastGiven(t, es, |events|, ref, name, next);
    } else if k :| IsLastGiven(trail, events, k, ref, name, now) {
      assert IsLastGiven(t, es, k, ref, name, next);
    }
  }

  lemma LatestNexts(trail: seq<map<string, Object>>, events: seq<Event>, e: Event, before: map<nat, map<string, Value>>,
                    now: map<nat, map<string, Value>>, next: map<nat, map<string, Value>>)
    requires Trail(trail, events) && Given(trail[|events|], e, now, next)
    requires forall ref, name :: Latest(trail, events, ref, name, ValueOf(before, ref, name), ValueOf(now, ref, name))
    ensures forall ref, name :: Latest(trail + [Registered(trail[|events|], e)], events + [e], ref, name,
      ValueOf(before, ref, name), ValueOf(next, ref, name))
  {
    hide Gives, Registered, Latest, ValueOf;
    forall ref, name ensures Latest(trail + [Registered(trail[|events|], e)], events + [e], ref, name,
      ValueOf(before, ref, name), ValueOf(next, ref, name)) {
      LatestNext(trail, events, e, ref, name, ValueOf(before, ref, name), ValueOf(now, ref, name),
        ValueOf(next, ref, name));
    }
  }

  /**
   Over every run: while both endpoints are registered with members of the right kind
   and types that print alike, the source carries exactly one listener and the target
   was last given the source's current value; otherwise no component carries one. Every
   state holds the last value that an event gave it. No forwarded value is refused, as
   long as no enum value of a component holds a comma and the types of remote
   components survive being read back from their text.
   */
  method Run(b: Binding, events: seq<Event>) returns (ghost trail: seq<map<string, Object>>)
    requires b.Valid()
    modifies b
    ensures b.Valid()
    ensures var s, t := Lookup(b.registry, b.config.sourceComponent), Lookup(b.registry, b.config.targetComponent);
            if !b.closed && s.Some? && t.Some? && s != t && MembersMatch(b.config, s.value, t.value)
            then b.listeners == multiset{s.value.ref} && Delivered(b, s.value, t.value)
            else b.listeners == multiset{}
    ensures b.unambiguous ==> AllAccepted(b.executed)
    ensures Trail(trail, events) && trail[0] == old(b.registry) && trail[|events|] == b.registry
    ensures b.closed == (old(b.closed) || Closes in events)
    ensures forall ref, name :: Latest(trail, events, ref, name, ValueOf(old(b.values), ref, name),
      ValueOf(b.values, ref, name))
  {
    hide Known, Bound, AllAccepted, MembersMatch, Gives, Registered, Given, ValueOf;
    trail := [b.registry];
    for i := 0 to |events|
      invariant b.Valid() && Trail(trail, events[..i]) && trail[0] == old(b.registry) && trail[i] == b.registry
      invariant b.closed == (old(b.closed) || Closes in events[..i])
      invariant forall ref, name :: Latest(trail, events[..i], ref, name, ValueOf(old(b.values), ref, name),
        ValueOf(b.values, ref, name))
    {
      ghost var values := b.values;
      Take(b, events[i]);
      assert events[..i] + [events[i]] == events[..i + 1];
      LatestNexts(trail, events[..i], events[i], old(b.values), values, b.values);
      trail := trail + [b.registry];
    }
    assert events[..|events|] == events;
    BoundMeans(b);
  }

  ghost predicate Delivered(b: Binding, source: Object, target: Object)
    reads b
  {
    var v := CurrentValue(b.config, source, b.values);
    v != Null ==> b.executed != [] && Carries(b.executed[|b.executed| - 1], target.ref, b.config.targetAction, v)
  }

  lemma BoundMeans(b: Binding)
    requires b.Valid()
    ensures var s, t := Lookup(b.registry, b.config.sourceComponent), Lookup(b.registry, b.config.targetComponent);
            if !b.closed && s.Some? && t.Some? && s != t && MembersMatch(b.config, s.value, t.value)
            then b.listeners == multiset{s.value.ref} && Delivered(b, s.value, t.value)
            else b.listeners == multiset{}
  {
    hide AllHold, AllUnambiguous, AllAccepted, MembersMatch, Built, CurrentValue, Carries;
  }
}
