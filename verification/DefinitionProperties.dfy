/**
 `getComponentDefinitionProperties` (store/core-designer/selectors.ts): the members
 and configuration entries a component gets from its plugin or template.
 */
module DefinitionProperties {
  import opened Options
  import opened ReducerTools
  import opened DesignerIds
  import opened CoreStore
  import opened Templates

  /** `undefinedConfig` holds the entries whose value is `undefined`. */
  datatype Properties = Properties(
    stateIds: seq<string>, actionIds: seq<string>, configIds: seq<string>,
    members: map<string, Member>, config: map<string, ConfigItem>, undefinedConfig: set<string>)

  function OfType(members: map<string, Member>, memberType: MemberType): set<string> {
    set m | m in members && members[m].memberType == memberType
  }

  /** `members` are the given exports, resolved. */
  ghost predicate MembersResolve(
      r: Rows, exports: map<string, MemberExport>, names: set<string>, members: map<string, Member>)
    requires Resolvable(r) && names <= exports.Keys
  {
    members.Keys == names && forall n :: n in names ==> ResolveMember(r, exports[n]) == Found(members[n])
  }

  ghost predicate ConfigsResolve(
      r: Rows, exports: map<string, ConfigExport>, names: set<string>, config: map<string, ConfigItem>,
      missing: set<string>)
    requires Resolvable(r) && names <= exports.Keys
  {
    && config.Keys + missing == names && config.Keys !! missing
    && (forall n :: n in config ==> n in exports && ResolveConfig(r, exports[n]) == Found(config[n]))
    && (forall n :: n in missing ==> n in exports && ResolveConfig(r, exports[n]) == Missing)
  }

  /** The properties a definition has, as the resolver gives them. */
  ghost predicate PropertiesOf(r: Rows, d: Definition, props: Properties)
    requires Resolvable(r)
  {
    && Lists(props.stateIds, OfType(props.members, StateMember))
    && Lists(props.actionIds, OfType(props.members, ActionMember))
    && Lists(props.configIds, props.config.Keys + props.undefinedConfig)
    && match d
       case PluginDef(p) => p in r.plugins && props.members == r.plugins[p].data.members
                            && props.config == r.plugins[p].data.config && props.undefinedConfig == {}
       case TemplateDef(t) =>
         && t in r.templates
         && MembersResolve(r, r.templates[t].exports.members, r.templates[t].exports.members.Keys, props.members)
         && ConfigsResolve(r, r.templates[t].exports.config, r.templates[t].exports.config.Keys, props.config,
           props.undefinedConfig)
  }

  /** The definition is there, and none of its exports makes the source throw. */
  ghost predicate HasProperties(r: Rows, d: Definition)
    requires Resolvable(r)
  {
    match d
    case PluginDef(p) => p in r.plugins
    case TemplateDef(t) =>
      && t in r.templates
      && (forall m :: m in r.templates[t].exports.members ==>
        ResolveMember(r, r.templates[t].exports.members[m]).Found?)
      && (forall m :: m in r.templates[t].exports.config ==> !ResolveConfig(r, r.templates[t].exports.config[m]).Crash?)
  }

  method ResolveMembers(r: Rows, exports: map<string, MemberExport>) returns (members: Option<map<string, Member>>)
    requires Resolvable(r)
    ensures members.Some? <==> forall m :: m in exports ==> ResolveMember(r, exports[m]).Found?
    ensures members.Some? ==> MembersResolve(r, exports, exports.Keys, members.value)
  {
    hide Resolvable, ResolveMember;
    var result: map<string, Member> := map[];
    var todo := exports.Keys;
    while todo != {}
      invariant todo <= exports.Keys && MembersResolve(r, exports, exports.Keys - todo, result)
    {
      var name :| name in todo;
      var value := ResolveMember(r, exports[name]);
      if !value.Found? {
        // undefined makes the loop over the members throw
        return None;
      }
      result := result[name := value.value];
      todo := todo - {name};
    }
    assert exports.Keys - {} == exports.Keys;
    members := Some(result);
  }

  method ResolveConfigs(
      r: Rows, exports: map<string, ConfigExport>) returns (config: Option<(map<string, ConfigItem>, set<string>)>)
    requires Resolvable(r)
    ensures config.Some? <==> forall m :: m in exports ==> !ResolveConfig(r, exports[m]).Crash?
    ensures config.Some? ==> ConfigsResolve(r, exports, exports.Keys, config.value.0, config.value.1)
  {
    hide Resolvable, ResolveConfig;
    var result: map<string, ConfigItem> := map[];
    var missing: set<string> := {};
    var todo := exports.Keys;
    while todo != {}
      invariant todo <= exports.Keys && ConfigsResolve(r, exports, exports.Keys - todo, result, missing)
    {
      var name :| name in todo;
      match ResolveConfig(r, exports[name]) {
        case Crash => return None;
        case Missing => missing := missing + {name};
        case Found(value) => result := result[name := value];
      }
      todo := todo - {name};
    }
    assert exports.Keys - {} == exports.Keys;
    config := Some((result, missing));
  }

  /** The last part of the source: names by member type, each list sorted. */
  method SortedNames(names: set<string>) returns (ids: seq<string>)
    ensures Lists(ids, names)
  {
    ids := [];
    var todo := names;
    while todo != {}
      invariant todo <= names && Lists(ids, names - todo)
    {
      var name :| name in todo;
      ArrayAddLists(ids, names - todo, name);
      ids := ArrayAdd(ids, name, true);
      assert names - (todo - {name}) == names - todo + {name};
      todo := todo - {name};
    }
    assert names - {} == names;
  }

  lemma NamesOfType(ids: seq<string>, members: map<string, Member>, memberType: MemberType)
    requires Lists(ids, OfType(members, memberType))
    ensures forall n :: n in ids <==> n in members && members[n].memberType == memberType
  {}

  /** `getComponentDefinitionProperties`; `None` is a thrown TypeError. */
  method GetComponentDefinitionProperties(r: Rows, d: Definition) returns (props: Option<Properties>)
    requires Resolvable(r)
    ensures props.Some? <==> HasProperties(r, d)
    ensures props.Some? ==> PropertiesOf(r, d, props.value)
    ensures props.Some? ==> forall n ::
      n in props.value.stateIds <==> n in props.value.members && props.value.members[n].memberType == StateMember
    ensures props.Some? ==> forall n ::
      n in props.value.actionIds <==> n in props.value.members && props.value.members[n].memberType == ActionMember
  {
    hide Resolvable, ResolveConfig, ResolveMember, Lists, MembersResolve, ConfigsResolve, OfType;
    var members: map<string, Member> := map[];
    var config: map<string, ConfigItem> := map[];
    var missing: set<string> := {};
    match d {
      case PluginDef(p) =>
        if p !in r.plugins { return None; }
        members, config := r.plugins[p].data.members, r.plugins[p].data.config;
      case TemplateDef(t) =>
        if t !in r.templates { return None; }
        var c := ResolveConfigs(r, r.templates[t].exports.config);
        if c.None? { return None; }
        var m := ResolveMembers(r, r.templates[t].exports.members);
        if m.None? { return None; }
        config, missing, members := c.value.0, c.value.1, m.value;
    }
    var stateIds := SortedNames(OfType(members, StateMember));
    var actionIds := SortedNames(OfType(members, ActionMember));
    var configIds := SortedNames(config.Keys + missing);
    NamesOfType(stateIds, members, StateMember);
    NamesOfType(actionIds, members, ActionMember);
    props := Some(Properties(stateIds, actionIds, configIds, members, config, missing));
  }

  /**
   Resolving an export is looking its name up in the properties of the inner
   component's definition.
   */
  lemma ExportIsLookup(r: Rows, e: MemberExport, props: Properties, m: Member)
    requires Resolvable(r) && e.component in r.components
    requires PropertiesOf(r, r.components[e.component].definition, props)
    ensures ResolveMember(r, e) == Found(m) <==> e.member in props.members && props.members[e.member] == m
  {
    hide Resolvable, Lists, OfType, ConfigsResolve;
    match r.components[e.component].definition
    case PluginDef(p) =>
    case TemplateDef(t) =>
      if e.member in r.templates[t].exports.members {
        assert ResolveMember(r, e) == ResolveMember(r, r.templates[t].exports.members[e.member]);
      }
  }

  lemma ConfigExportIsLookup(r: Rows, e: ConfigExport, props: Properties, item: ConfigItem)
    requires Resolvable(r) && e.component in r.components
    requires PropertiesOf(r, r.components[e.component].definition, props)
    ensures ResolveConfig(r, e) == Found(item) <==> e.configName in props.config && props.config[e.configName] == item
  {
    hide Resolvable, Lists, OfType, MembersResolve;
    match r.components[e.component].definition
    case PluginDef(p) =>
    case TemplateDef(t) =>
      if e.configName in r.templates[t].exports.config {
        assert ResolveConfig(r, e) == ResolveConfig(r, r.templates[t].exports.config[e.configName]);
      }
  }

  /** With complete exports every definition in the store has properties: the source never throws here. */
  lemma CompleteHasProperties(r: Rows, d: Definition)
    requires Resolvable(r) && ExportsComplete(r) && DefinitionExists(r, d)
    ensures HasProperties(r, d)
  {
    hide Resolvable, ResolveMember, ResolveConfig, NamesMember, NamesConfig;
    if d.TemplateDef? {
      var exports := r.templates[d.id].exports;
      forall m | m in exports.members ensures ResolveMember(r, exports.members[m]).Found? {
        CompleteMembersResolve(r, exports.members[m]);
      }
      forall m | m in exports.config ensures !ResolveConfig(r, exports.config[m]).Crash? {
        CompleteConfigsResolve(r, exports.config[m]);
      }
    }
  }
}
