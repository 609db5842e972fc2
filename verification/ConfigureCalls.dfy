/**
 The debounced project calls of one tab: only `configure-component` has a key, built
 from the component id and the configuration name, and the newer call replaces the
 older one. Every other call has no key and may change the configuration at will.
 */
module ConfigureCalls {
  import opened Strings
  import opened Debounce

  datatype Call = Configure(componentId: string, configId: string, value: string) | Other(call: string)

  /** Configuration values by full component id and configuration name. */
  type Config = map<(string, string), string>

  const CONFIGURE_TYPE := "core-designer/configure-component"

  function PairKey(componentId: string, configId: string): string {
    componentId + ":" + configId
  }

  /** `buildActionData`'s debounce key; "" stands for the null key. */
  function Key(c: Call): string {
    match c
    case Configure(component, config, _) => CONFIGURE_TYPE + "$" + PairKey(component, config)
    case Other(_) => ""
  }

  function Merge(previous: Call, next: Call): Call { next }

  function Apply(other: (string, Config) -> Config, c: Call, s: Config): Config {
    match c
    case Configure(component, config, value) => s[(component, config) := value]
    case Other(call) => other(call, s)
  }

  /** Calls whose configuration name, if any, has no colon. */
  type PlainCall = c: Call | c.Configure? ==> Free(c.configId, ':') witness Other("")

  // ----- when keys collide -----

  /** `longer` names a configuration that ends in ":" and `shorter`'s name. */
  ghost predicate NameShifted(longer: Call, shorter: Call)
    requires longer.Configure? && shorter.Configure?
  {
    Shifted(longer.componentId, longer.configId, shorter.componentId, shorter.configId, ':')
  }

  lemma SameKeySamePair(a: Call, b: Call)
    requires a.Configure? && b.Configure?
    ensures Key(a) == Key(b) <==> PairKey(a.componentId, a.configId) == PairKey(b.componentId, b.configId)
  {
    var prefix := CONFIGURE_TYPE + "$";
    assert Key(a)[|prefix|..] == PairKey(a.componentId, a.configId);
    assert Key(b)[|prefix|..] == PairKey(b.componentId, b.configId);
  }

  /**
   Two configure calls share a key exactly when they set one value, or one's name shifts into the
   other's component id.
   */
  lemma KeysCollide(a: Call, b: Call)
    requires a.Configure? && b.Configure?
    ensures Key(a) == Key(b) <==>
      (a.componentId == b.componentId && a.configId == b.configId) || NameShifted(a, b) || NameShifted(b, a)
  {
    hide Key;
    SameKeySamePair(a, b);
    JoinsCollide(a.componentId, a.configId, b.componentId, b.configId, ':');
  }

  /** Merging two configure calls loses nothing exactly when they set the same value. */
  lemma MergeLosesNothing(other: (string, Config) -> Config, a: Call, b: Call)
    requires a.Configure? && b.Configure?
    ensures (forall s :: Apply(other, Merge(a, b), s) == Apply(other, b, Apply(other, a, s)))
       <==> (a.componentId == b.componentId && a.configId == b.configId)
  {
    var pa, pb := (a.componentId, a.configId), (b.componentId, b.configId);
    if pa == pb {
      forall s: Config ensures Apply(other, Merge(a, b), s) == Apply(other, b, Apply(other, a, s)) {
        assert s[pa := a.value][pb := b.value] == s[pb := b.value];
      }
    } else {
      var empty: Config := map[];
      assert pa in Apply(other, b, Apply(other, a, empty)) && pa !in Apply(other, Merge(a, b), empty);
      assert Apply(other, Merge(a, b), empty) != Apply(other, b, Apply(other, a, empty));
    }
  }

  /** With a colon in a configuration name, two different settings share a key. */
  lemma ColonsCollide()
    ensures var a, b := Configure("tab:tpl:cmp", "low:high", "1"), Configure("tab:tpl:cmp:low", "high", "2");
            Key(a) == Key(b) && a.componentId != b.componentId
  {
    var a, b := Configure("tab:tpl:cmp", "low:high", "1"), Configure("tab:tpl:cmp:low", "high", "2");
    var x := "low";
    assert b.componentId == a.componentId + [':'] + x && a.configId == x + [':'] + b.configId;
    KeysCollide(a, b);
  }

  function PlainKey(c: PlainCall): string { Key(c) }

  function PlainMerge(previous: PlainCall, next: PlainCall): PlainCall { next }

  function Effect(other: (string, Config) -> Config): (PlainCall, Config) -> Config {
    (c: PlainCall, s: Config) => Apply(other, c, s)
  }

  /** Colon-free names meet the law the debouncer asks of its merges. */
  lemma PlainMergeLaw(other: (string, Config) -> Config)
    ensures MergeLaw(PlainKey, PlainMerge, Effect(other))
  {
    forall a: PlainCall, b: PlainCall | PlainKey(a) != "" && PlainKey(a) == PlainKey(b)
      ensures forall s: Config :: Apply(other, Merge(a, b), s) == Apply(other, b, Apply(other, a, s))
    {
      KeysCollide(a, b);
      if NameShifted(a, b) { ShiftNeedsSeparator(a.componentId, a.configId, b.componentId, b.configId, ':'); }
      if NameShifted(b, a) { ShiftNeedsSeparator(b.componentId, b.configId, a.componentId, a.configId, ':'); }
      MergeLosesNothing(other, a, b);
    }
  }

  /** The configuration after the calls, in order. */
  ghost function After(other: (string, Config) -> Config, calls: seq<PlainCall>, s: Config): Config {
    Fold(Effect(other), calls, s)
  }

  /**
   Debouncing one tab's calls preserves meaning: with colon-free names, and zero-delay
   timers that drain between arrivals, what was emitted and what is pending (at most one
   held call and one on a zero-delay timer) leave the configuration that all the calls
   in order leave.
   */
  method DebounceTab(events: seq<Event<PlainCall>>, ghost other: (string, Config) -> Config)
    returns (emitted: seq<PlainCall>, pending: seq<PlainCall>)
    requires Drained(PlainKey, events, 0)
    ensures forall s: Config :: After(other, emitted + pending, s) == After(other, Arrived(events), s)
    ensures |pending| <= 2
  {
    hide MergeLaw, Fold, Drained, Arrived, Conserved, OrderKnown, Runs, ValuesAre;
    var d := new Subscriber<PlainCall>(PlainKey, PlainMerge);
    PendingCounts(d);
    Run(d, events);
    emitted := d.output;
    pending := d.zeroTimers + (if d.hasValue then [d.lastValue.value] else []);
    assert d.output + d.zeroTimers + (if d.hasValue then [d.lastValue.value] else []) == emitted + pending;
    PlainMergeLaw(other);
    assert [] + Arrived(events) == Arrived(events);
    forall s: Config ensures After(other, emitted + pending, s) == After(other, Arrived(events), s) {
      DebounceMeaning(d, Effect(other), s);
    }
  }

  predicate SameSetting(a: PlainCall, b: PlainCall)
    requires a.Configure? && b.Configure?
  {
    a.componentId == b.componentId && a.configId == b.configId
  }

  /** A setting has the value of the last call for it, as long as only other settings are configured after it. */
  lemma {:induction false} LastConfigured(
      other: (string, Config) -> Config, calls: seq<PlainCall>, s: Config, k: nat)
    requires k < |calls| && calls[k].Configure?
    requires forall j :: k < j < |calls| ==> calls[j].Configure? && !SameSetting(calls[j], calls[k])
    ensures var setting := (calls[k].componentId, calls[k].configId);
            setting in After(other, calls, s) && After(other, calls, s)[setting] == calls[k].value
    decreases |calls|
  {
    if k < |calls| - 1 {
      LastConfigured(other, calls[..|calls| - 1], s, k);
    }
  }
}
