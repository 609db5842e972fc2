/**
 Plugin metadata on the wire: members carry their type as text, and the plugin id is
 not sent but built again from module and name.
 */
module Plugins {
  import opened Options
  import opened Types

  datatype MemberType = ACTION | STATE

  datatype Member = Member(description: string, memberType: MemberType, valueType: Type)

  datatype NetMember = NetMember(description: string, memberType: MemberType, valueType: string)

  /** What is sent unchanged: usage, version, description and config are one value here. */
  datatype Common = Common(name: string, moduleName: string, rest: string)

  datatype Plugin = Plugin(id: string, common: Common, members: map<string, Member>)

  datatype NetPlugin = NetPlugin(common: Common, members: map<string, NetMember>)

  function ModuleName(c: Common): string { c.moduleName + "." + c.name }

  ghost predicate Encodes(n: NetMember, m: Member) {
    n.description == m.description && n.memberType == m.memberType && n.valueType == Print(m.valueType)
  }

  method EncodePlugin(plugin: Plugin) returns (net: NetPlugin)
    ensures net.common == plugin.common && net.members.Keys == plugin.members.Keys
    ensures forall name :: name in plugin.members ==> Encodes(net.members[name], plugin.members[name])
  {
    hide Print;
    var netMembers: map<string, NetMember> := map[];
    var todo := plugin.members.Keys;
    while todo != {}
      invariant todo <= plugin.members.Keys && netMembers.Keys == plugin.members.Keys - todo
      invariant forall name :: name in netMembers ==> Encodes(netMembers[name], plugin.members[name])
      decreases |todo|
    {
      var name :| name in todo;
      var m := plugin.members[name];
      netMembers := netMembers[name := NetMember(m.description, m.memberType, Print(m.valueType))];
      todo := todo - {name};
    }
    return NetPlugin(plugin.common, netMembers);
  }

  /** All the member types parse. */
  ghost predicate Decodable(net: NetPlugin) {
    forall name :: name in net.members ==> ParseType(net.members[name].valueType).Some?
  }

  /** `m` is what `n` decodes to. */
  ghost predicate Decodes(m: Member, n: NetMember) {
    m.description == n.description && m.memberType == n.memberType && Some(m.valueType) == ParseType(n.valueType)
  }

  /** None, that is an exception, exactly when some member type does not parse. */
  method DecodePlugin(net: NetPlugin) returns (plugin: Option<Plugin>)
    ensures plugin.Some? <==> Decodable(net)
    ensures plugin.Some? ==> plugin.value.common == net.common
    ensures plugin.Some? ==> plugin.value.id == net.common.moduleName + "." + net.common.name
    ensures plugin.Some? ==> plugin.value.members.Keys == net.members.Keys
    ensures plugin.Some? ==> forall name :: name in net.members ==>
      Decodes(plugin.value.members[name], net.members[name])
  {
    hide ParseType;
    var members: map<string, Member> := map[];
    var todo := net.members.Keys;
    while todo != {}
      invariant todo <= net.members.Keys && members.Keys == net.members.Keys - todo
      invariant forall name :: name in members ==> Decodes(members[name], net.members[name])
      decreases |todo|
    {
      var name :| name in todo;
      var m := net.members[name];
      var valueType := ParseType(m.valueType);
      if valueType.None? {
        return None;
      }
      members := members[name := Member(m.description, m.memberType, valueType.value)];
      todo := todo - {name};
    }
    return Some(Plugin(ModuleName(net.common), net.common, members));
  }

  predicate AllConstructible(p: Plugin) {
    forall name :: name in p.members ==> Constructible(p.members[name].valueType)
  }

  /** A plugin that comes back as it was sent. */
  predicate Sendable(p: Plugin) {
    p.id == ModuleName(p.common) && forall name :: name in p.members ==> Printable(p.members[name].valueType)
  }

  lemma MemberRoundTrip(m: Member, n: NetMember)
    requires Encodes(n, m) && Constructible(m.valueType)
    ensures Decodes(m, n) <==> Printable(m.valueType)
  {
    hide ParseType, Print;
    TypeRoundTrip(m.valueType);
  }

  lemma DecodesOnce(a: Member, b: Member, n: NetMember)
    requires Decodes(a, n) && Decodes(b, n)
    ensures a == b
  {}

  /** Decoding undoes encoding exactly for the plugins whose id is `module.name` and whose types are printable. */
  method PluginRoundTrip(p: Plugin) returns (decoded: Option<Plugin>)
    requires AllConstructible(p)
    ensures decoded == Some(p) <==> Sendable(p)
  {
    hide Encodes, Decodes, Printable, Constructible, Print, ParseType;
    var net := EncodePlugin(p);
    decoded := DecodePlugin(net);
    forall name | name in p.members
      ensures Decodes(p.members[name], net.members[name]) <==> Printable(p.members[name].valueType)
    {
      MemberRoundTrip(p.members[name], net.members[name]);
    }
    if Sendable(p) {
      SendableDecodes(p, net);
      forall name | name in p.members ensures decoded.value.members[name] == p.members[name] {
        DecodesOnce(decoded.value.members[name], p.members[name], net.members[name]);
      }
      assert decoded.value.members == p.members;
    }
    if decoded == Some(p) {
      forall name | name in p.members ensures Printable(p.members[name].valueType) {
        assert Decodes(decoded.value.members[name], net.members[name]);
      }
    }
  }

  lemma SendableDecodes(p: Plugin, net: NetPlugin)
    requires net.members.Keys == p.members.Keys
    requires forall name :: name in p.members ==> Decodes(p.members[name], net.members[name])
    ensures Decodable(net)
  {
    hide ParseType;
    forall name | name in net.members ensures ParseType(net.members[name].valueType).Some? {
      assert Decodes(p.members[name], net.members[name]);
    }
  }
}
