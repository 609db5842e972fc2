/**
 Component objects as bindings see them. A local component holds the values its own
 types accept. A remote one stands for a component of another process: its types are
 read back from the texts of its owner's types, and its states hold whatever its owner
 published, which nothing checks again.
 */
module Components {
  import opened Options
  import opened Types
  import opened Codecs
  import opened Plugins
  import opened TypeTexts

  /** Two objects may have the same id at different times. `owner` holds the owner's types of a remote one. */
  datatype Object = Object(ref: nat, id: string, members: map<string, Member>, owner: Option<map<string, Type>>)

  /** `findMember`. */
  function FindMember(o: Object, name: string, kind: MemberType): Option<Member> {
    if name in o.members && o.members[name].memberType == kind then Some(o.members[name]) else None
  }

  /** `validateValue` does not throw. */
  predicate IsValid(t: Type, v: Value) { v != Null && Accepts(t, v) }

  /** The type whose values the states of `o` hold. */
  function HeldType(o: Object, name: string): Type
    requires name in o.members
  {
    if o.owner.Some? && name in o.owner.value then o.owner.value[name] else o.members[name].valueType
  }

  /** A remote member's type is what the text of its owner's type parses to. */
  predicate IsDecoded(own: Type, owner: Type) {
    Constructible(owner) && ParseType(Print(owner)) == Some(own)
  }

  predicate Built(o: Object) {
    forall n :: n in o.members ==>
      && Constructible(o.members[n].valueType)
      && (o.owner.Some? ==> n in o.owner.value && IsDecoded(o.members[n].valueType, o.owner.value[n]))
  }

  /** No enum value holds a comma, and no value of a remote component's owner is lost in the text of its type. */
  predicate Unambiguous(o: Object) {
    forall n :: n in o.members ==>
      CommaFree(o.members[n].valueType) && (o.owner.Some? && n in o.owner.value ==> Survives(o.owner.value[n]))
  }

  // ----- what a remote component receives -----

  /**
   A value `sent` by the owner is encoded with the owner's primitive and decoded with
   the component's own. Of text, float and JSON it is only kept that the owner's type
   accepts what arrives.
   */
  predicate CanReceive(own: Type, owner: Type, sent: Value, received: Value)
    requires Constructible(own) && Constructible(owner)
  {
    var p, q := PrimitiveOf(owner), PrimitiveOf(own);
    if IsFixed(p) then IsFixed(q) && Encode(p, sent).Some? && Decode(q, Encode(p, sent).value) == Some(received)
    else IsValid(owner, received)
  }

  lemma DecodedPrimitive(own: Type, owner: Type)
    requires IsDecoded(own, owner) && (owner.Range? || owner.Bool?)
    ensures own == owner
  {
    hide ParseType, Print;
    TypeRoundTrip(owner);
  }

  /** Integers and booleans arrive as they were sent, and nothing else arrives. */
  lemma ReceivedAsSent(own: Type, owner: Type, sent: Value, received: Value)
    requires Constructible(own) && IsDecoded(own, owner) && (owner.Range? || owner.Bool?) && Accepts(owner, sent)
    ensures CanReceive(own, owner, sent, received) <==> received == sent
  {
    hide ParseType, Print, Encode, Decode;
    DecodedPrimitive(own, owner);
    WireRoundTrip(owner, sent);
  }

  /** What arrives is a value of the owner's type. */
  lemma ReceivedIsValid(own: Type, owner: Type, sent: Value, received: Value)
    requires Constructible(own) && IsDecoded(own, owner) && IsValid(owner, sent)
    requires CanReceive(own, owner, sent, received)
    ensures IsValid(owner, received)
  {
    hide ParseType, Print, Encode, Decode;
    if owner.Range? || owner.Bool? {
      ReceivedAsSent(own, owner, sent, received);
    }
  }

  // ----- forwarding -----

  /** `executeAction` does not throw. */
  predicate AcceptsAction(target: Object, action: string, v: Value) {
    var m := FindMember(target, action, ACTION);
    m.Some? && IsValid(m.value.valueType, v)
  }

  lemma DecodedIsCommaFree(own: Type, owner: Type)
    requires IsDecoded(own, owner)
    ensures Constructible(own) && CommaFree(own)
  {
    hide ParseType, Print;
    ParsedIsConstructible(Print(owner));
    TypeRoundTrip(owner);
    if owner.Enum? {
      EnumDecoded(owner);
      hide LineOf, FindEnum;
      SortedPartsFree(FindEnum(LineOf(owner.values)).value);
    }
  }

  /**
   An action whose type prints like a remote state's accepts all the values of the
   owner exactly when the owner's type survives being read back.
   */
  lemma RemoteForward(owner: Type, own: Type, action: Type)
    requires IsDecoded(own, owner) && Constructible(action) && CommaFree(action) && Print(own) == Print(action)
    ensures AcceptsAll(action, owner) <==> Survives(owner)
  {
    hide ParseType, Print, CommaFree, Survives, Accepts;
    DecodedIsCommaFree(own, owner);
    PrintInjective(own, action);
    DecodedAccepts(owner);
  }

  /** A value of the source state passes the validation of an action whose type prints like the state's. */
  lemma ForwardAccepted(source: Object, state: string, target: Object, action: string, v: Value)
    requires Built(source) && Built(target) && Unambiguous(source) && Unambiguous(target)
    requires FindMember(source, state, STATE).Some? && FindMember(target, action, ACTION).Some?
    requires Print(source.members[state].valueType) == Print(target.members[action].valueType)
    requires IsValid(HeldType(source, state), v)
    ensures AcceptsAction(target, action, v)
  {
    hide Print, Constructible, CommaFree, Survives, Accepts, ParseType;
    var own, t := source.members[state].valueType, target.members[action].valueType;
    SameTextSameValues(own, t, v);
    if source.owner.Some? {
      RemoteForward(source.owner.value[state], own, t);
    }
  }

  /** A remote enum whose value is refused although the types print alike and no value holds a comma. */
  lemma RemoteValueRefused(source: Object, target: Object)
    requires source.members == map["s" := Member("", STATE, Enum(["cd", "ef"]))]
    requires source.owner == Some(map["s" := Enum(LOST)])
    requires target.members == map["a" := Member("", ACTION, Enum(["cd", "ef"]))] && target.owner == None
    ensures Built(source) && Built(target)
    ensures IsValid(HeldType(source, "s"), String("a b{cd")) && !AcceptsAction(target, "a", String("a b{cd"))
    ensures !Survives(HeldType(source, "s"))
  {
    hide ParseType, Print, Survives;
    ValueIsLost();
    ParsedIsConstructible(Print(Enum(LOST)));
  }
}
