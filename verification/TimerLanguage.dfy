/**
 The small language of smart timers: a program is a list of steps that set outputs or
 wait, written `o0-on w-1s o*-off`. Parsing, printing, and what a program means as a
 timeline of output values.
 */
module TimerLanguage {
  import opened Strings
  import opened Options

  const OUTPUTS := 10

  type Outputs = o: seq<bool> | |o| == OUTPUTS witness seq(OUTPUTS, _ => false)

  datatype Step =
    | SetOutput(output: nat, value: bool)
    | SetAllOutputs(value: bool)
    | Wait(delay: nat)

  // ----- wait delays -----

  function Multiplier(suffix: string): Option<nat> {
    if suffix == "" then Some(1)
    else if suffix == "s" then Some(1000)
    else if suffix == "m" then Some(60 * 1000)
    else if suffix == "h" then Some(60 * 60 * 1000)
    else None
  }

  /** `s.substring(k)`. */
  function Substring(s: string, k: nat): string {
    if k <= |s| then s[k..] else ""
  }

  // ----- parseInt -----

  /** JavaScript's white space and line ends. */
  predicate IsWhite(c: char) {
    || '\U{0009}' <= c <= '\U{000D}' || c == ' ' || c == '\U{00A0}' || c == '\U{1680}'
    || '\U{2000}' <= c <= '\U{200A}' || c == '\U{2028}' || c == '\U{2029}' || c == '\U{202F}'
    || c == '\U{205F}' || c == '\U{3000}' || c == '\U{FEFF}'
  }

  function WhiteLength(s: string): (k: nat)
    ensures k <= |s| && (forall i :: 0 <= i < k ==> IsWhite(s[i])) && (k < |s| ==> !IsWhite(s[k]))
  {
    if s == "" || !IsWhite(s[0]) then 0 else 1 + WhiteLength(s[1..])
  }

  /** How much `parseInt` skips: white space and a plus sign. Steps are split at every minus sign, so there is none. */
  function LeadLength(s: string): (k: nat)
    ensures k <= |s| && forall i :: 0 <= i < k ==> IsWhite(s[i]) || s[i] == '+'
  {
    var w := WhiteLength(s);
    if w < |s| && s[w] == '+' then w + 1 else w
  }

  predicate IsHexDigit(c: char) { IsDigit(c) || 'a' <= c <= 'f' || 'A' <= c <= 'F' }

  function HexDigits(s: string): (d: string)
    ensures forall i :: 0 <= i < |d| ==> IsHexDigit(d[i])
  {
    if s != "" && IsHexDigit(s[0]) then [s[0]] + HexDigits(s[1..]) else ""
  }

  function HexDigitValue(c: char): nat
    requires IsHexDigit(c)
  {
    if IsDigit(c) then c as int - '0' as int
    else if 'a' <= c <= 'f' then 10 + (c as int - 'a' as int)
    else 10 + (c as int - 'A' as int)
  }

  /** The digits in their order, letters in either case. */
  lemma HexDigitsInOrder(i: nat)
    requires i < 16
    ensures IsHexDigit("0123456789abcdef"[i]) && HexDigitValue("0123456789abcdef"[i]) == i
    ensures IsHexDigit("0123456789ABCDEF"[i]) && HexDigitValue("0123456789ABCDEF"[i]) == i
  {}

  function HexValue(d: string): nat
    requires forall i :: 0 <= i < |d| ==> IsHexDigit(d[i])
  {
    if d == "" then 0 else 16 * HexValue(d[..|d| - 1]) + HexDigitValue(d[|d| - 1])
  }

  predicate HasHexPrefix(s: string) { |s| >= 2 && s[0] == '0' && (s[1] == 'x' || s[1] == 'X') }

  /** A hexadecimal number follows what is skipped. */
  predicate IsHex(s: string) {
    var u := s[LeadLength(s)..];
    HasHexPrefix(u) && HexDigits(u[2..]) != ""
  }

  /** `parseInt(s)`, without radix; none for `NaN`. */
  function ParseInt(s: string): Option<nat> {
    var u := s[LeadLength(s)..];
    if HasHexPrefix(u) then
      if HexDigits(u[2..]) == "" then None else Some(HexValue(HexDigits(u[2..])))
    else if Digits(u) == "" then None
    else Some(DigitsValue(Digits(u)))
  }

  /** The delay in milliseconds; none where the source throws. */
  function Delay(arg: string): Option<nat> {
    match ParseInt(arg)
    case None => None
    case Some(n) =>
      match Multiplier(Substring(arg, |NatToString(n)|))
      case Some(mul) => Some(n * mul)
      case None => None
  }

  /** A numeral is never longer than the digits it is the value of, and equal to them if as long. */
  lemma {:induction false} ShortestNumeral(d: string)
    requires AllDigits(d) && d != ""
    ensures var t := NatToString(DigitsValue(d)); |t| <= |d| && (|t| == |d| ==> t == d)
  {
    var v := DigitsValue(d);
    var last := d[|d| - 1];
    if |d| == 1 {
      assert d[..0] == "";
      assert DigitsValue(d[..|d| - 1]) == 0;
      assert v < 10 && Digit(v) == last;
      assert d == [last];
    } else {
      var init := d[..|d| - 1];
      ShortestNumeral(init);
      var w := DigitsValue(init);
      assert v == 10 * w + (last as int - '0' as int);
      assert d == init + [last];
      if v >= 10 {
        assert v / 10 == w && Digit(v % 10) == last;
        assert NatToString(v) == NatToString(w) + [last];
      }
    }
  }

  /** A digit is neither skipped nor the start of a hexadecimal number, unless an `x` follows. */
  lemma StartsPlain(s: string)
    requires s != "" && IsDigit(s[0]) && (|s| >= 2 ==> s[1] != 'x' && s[1] != 'X')
    ensures LeadLength(s) == 0 && s[0..] == s && !HasHexPrefix(s)
  {}

  lemma ParsesDecimal(n: nat, suffix: string)
    requires Multiplier(suffix).Some?
    ensures ParseInt(NatToString(n) + suffix) == Some(n)
  {
    hide LeadLength, HasHexPrefix;
    var t := NatToString(n);
    var arg := t + suffix;
    assert |arg| >= 2 ==> arg[1] == if |t| >= 2 then t[1] else suffix[0];
    StartsPlain(arg);
    DigitsOf(t, suffix);
    DigitsValueOfNat(n);
  }

  /** Writing a number with a known suffix gives back its delay. */
  lemma DelayRoundTrip(n: nat, suffix: string)
    requires Multiplier(suffix).Some?
    ensures Delay(NatToString(n) + suffix) == Some(n * Multiplier(suffix).value)
  {
    hide ParseInt, NatToString;
    ParsesDecimal(n, suffix);
    var t := NatToString(n);
    assert (t + suffix)[|t|..] == suffix;
  }

  /** The numeral of `n` is as long as the argument, or leaves a final `s`, `m` or `h`. */
  predicate Reaches(arg: string, n: nat) {
    var k := |NatToString(n)|;
    k >= |arg| || (k == |arg| - 1 && arg[k] in {'s', 'm', 'h'})
  }

  lemma ReachesSuffix(arg: string, n: nat)
    ensures Multiplier(Substring(arg, |NatToString(n)|)).Some? <==> Reaches(arg, n)
  {
    var k := |NatToString(n)|;
    var rest := Substring(arg, k);
    if k < |arg| {
      assert rest[0] == arg[k];
      if k == |arg| - 1 {
        assert rest == [arg[k]];
      }
    }
  }

  /** A decimal number without leading zeros, and a known suffix. */
  ghost predicate IsDecimal(arg: string) {
    exists n: nat, suffix: string {:trigger NatToString(n), Multiplier(suffix)} ::
      Multiplier(suffix).Some? && arg == NatToString(n) + suffix
  }

  /** What is skipped, or digits beyond the numeral, are no suffix. */
  lemma InsideIsNoSuffix(arg: string, n: nat)
    requires |NatToString(n)| < LeadLength(arg) + |Digits(arg[LeadLength(arg)..])|
    ensures !Reaches(arg, n)
  {
    var l, k := LeadLength(arg), |NatToString(n)|;
    var d := Digits(arg[l..]);
    if k < l {
      assert IsWhite(arg[k]) || arg[k] == '+';
    } else {
      assert arg[l..][k - l] == d[k - l] && IsDigit(d[k - l]);
    }
  }

  lemma DecimalAccepted(arg: string)
    requires !HasHexPrefix(arg[LeadLength(arg)..]) && Delay(arg).Some?
    ensures IsDecimal(arg)
  {
    hide LeadLength, HasHexPrefix, Reaches, Multiplier;
    var l := LeadLength(arg);
    var d := Digits(arg[l..]);
    var n := DigitsValue(d);
    var t := NatToString(n);
    hide Digits, DigitsValue, NatToString;
    ShortestNumeral(d);
    ReachesSuffix(arg, n);
    if |t| < l + |d| {
      InsideIsNoSuffix(arg, n);
    }
    assert arg[0..] == arg && arg[..|t|] == t;
    assert arg == t + arg[|t|..];
    assert Multiplier(arg[|t|..]).Some?;
  }

  /**
   A wait is accepted exactly when its argument is a decimal number without leading
   zeros and a known suffix, or a hexadecimal number whose decimal numeral is as long as
   the whole argument, or as long as the argument without a final `s`, `m` or `h`.
   */
  lemma DelayAccepts(arg: string)
    ensures Delay(arg).Some? <==> IsDecimal(arg) || (IsHex(arg) && Reaches(arg, ParseInt(arg).value))
  {
    hide LeadLength, HasHexPrefix, HexDigits, HexValue, NatToString, Multiplier, Reaches;
    if IsHex(arg) {
      ReachesSuffix(arg, ParseInt(arg).value);
    }
    if Delay(arg).Some? && !HasHexPrefix(arg[LeadLength(arg)..]) {
      DecimalAccepted(arg);
    }
    if IsDecimal(arg) {
      var n: nat, suffix: string :| Multiplier(suffix).Some? && arg == NatToString(n) + suffix;
      DelayRoundTrip(n, suffix);
    }
  }

  /** A hexadecimal wait that is accepted: `w-0xFFFFF` waits 1048575 milliseconds. */
  lemma HexIsAccepted()
    ensures Delay("0xFFFFF") == Some(1048575) && !IsDecimal("0xFFFFF")
  {
    var arg := "0xFFFFF";
    assert LeadLength(arg) == 0 && arg[0..] == arg;
    assert arg[2..] == "FFFFF";
    HexRun("FFFFF");
    HexOfFives();
    NumeralLength7();
    assert Substring(arg, 7) == "";
    hide ParseInt, Delay;
    forall n: nat, suffix: string | Multiplier(suffix).Some? ensures arg != NatToString(n) + suffix {
      assert (NatToString(n) + suffix)[0] == NatToString(n)[0];
      assert |suffix| <= 1 && |arg| == 7;
      assert |NatToString(n) + suffix| == 7 ==> (NatToString(n) + suffix)[1] == NatToString(n)[1];
    }
  }

  lemma {:induction false} HexRun(d: string)
    requires forall i :: 0 <= i < |d| ==> IsHexDigit(d[i])
    ensures HexDigits(d) == d
  {
    if d != "" {
      HexRun(d[1..]);
      assert d == [d[0]] + d[1..];
    }
  }

  lemma HexOfFives()
    ensures HexValue("FFFFF") == 1048575
  {
    assert "FFFFF"[..4] == "FFFF" && "FFFF"[..3] == "FFF" && "FFF"[..2] == "FF" && "FF"[..1] == "F" && "F"[..0] == "";
    assert HexValue("F") == 15;
    assert HexValue("FF") == 255;
    assert HexValue("FFF") == 4095;
    assert HexValue("FFFF") == 65535;
  }

  lemma NumeralLength7()
    ensures |NatToString(1048575)| == 7
  {
    assert |NatToString(1)| == 1;
    assert |NatToString(10)| == 2;
    assert |NatToString(104)| == 3;
    assert |NatToString(1048)| == 4;
    assert |NatToString(10485)| == 5;
    assert |NatToString(104857)| == 6;
  }

  // ----- parsing -----

  predicate IsSeparator(c: char) { c == '|' || c == ' ' }

  function DropSeparators(s: string): (r: string)
    ensures |r| <= |s|
    ensures r != "" ==> !IsSeparator(r[0])
  {
    if s != "" && IsSeparator(s[0]) then DropSeparators(s[1..]) else s
  }

  /** The parts between runs of separators; the result is never empty. */
  function SplitRuns(s: string): (parts: seq<string>)
    ensures |parts| >= 1
    decreases |s|
  {
    if s == "" then [""]
    else if IsSeparator(s[0]) then [""] + SplitRuns(DropSeparators(s[1..]))
    else
      var rest := SplitRuns(s[1..]);
      [[s[0]] + rest[0]] + rest[1..]
  }

  function ParseOutputValue(arg: string): Option<bool> {
    if arg == "on" then Some(true) else if arg == "off" then Some(false) else None
  }

  predicate IsOutput(op: string) { |op| == 2 && op[0] == 'o' && IsDigit(op[1]) }

  function CreateStep(op: string, arg: string, canWait: bool): Option<Step> {
    if IsOutput(op) then
      match ParseOutputValue(arg)
      case Some(v) => Some(SetOutput(op[1] as int - '0' as int, v))
      case None => None
    else if op == "o*" then
      match ParseOutputValue(arg)
      case Some(v) => Some(SetAllOutputs(v))
      case None => None
    else if op == "w" && canWait then
      match Delay(arg)
      case Some(d) => Some(Wait(d))
      case None => None
    else None
  }

  function ParseStep(part: string, canWait: bool): Option<Step> {
    var items := Split(part, '-');
    if |items| != 2 then None else CreateStep(items[0], items[1], canWait)
  }

  /** All the steps, or none when one of them is invalid. */
  function ParseSteps(parts: seq<string>, canWait: bool): Option<seq<Step>> {
    if parts == [] then Some([])
    else
      match (ParseStep(parts[0], canWait), ParseSteps(parts[1..], canWait))
      case (Some(s), Some(rest)) => Some([s] + rest)
      case _ => None
  }

  /** An invalid program is the empty one. */
  function Parse(source: string, canWait: bool): seq<Step> {
    match ParseSteps(SplitRuns(source), canWait)
    case Some(steps) => steps
    case None => []
  }

  predicate KnownOutputs(steps: seq<Step>) {
    forall i :: 0 <= i < |steps| && steps[i].SetOutput? ==> steps[i].output < OUTPUTS
  }

  predicate NoWait(steps: seq<Step>) {
    forall i :: 0 <= i < |steps| ==> !steps[i].Wait?
  }

  lemma {:induction false} ParsedSteps(parts: seq<string>, canWait: bool)
    requires ParseSteps(parts, canWait).Some?
    ensures KnownOutputs(ParseSteps(parts, canWait).value)
    ensures !canWait ==> NoWait(ParseSteps(parts, canWait).value)
  {
    if parts != [] {
      ParsedSteps(parts[1..], canWait);
    }
  }

  /** A parsed program only names outputs that exist, and never waits where waiting is not allowed. */
  lemma ParsedProgram(source: string, canWait: bool)
    ensures KnownOutputs(Parse(source, canWait))
    ensures !canWait ==> NoWait(Parse(source, canWait))
  {
    if ParseSteps(SplitRuns(source), canWait).Some? {
      ParsedSteps(SplitRuns(source), canWait);
    }
  }

  // ----- printing -----

  function PrintValue(v: bool): string { if v then "on" else "off" }

  function Op(s: Step): string
    requires s.SetOutput? ==> s.output < OUTPUTS
  {
    match s
    case SetOutput(output, _) => "o" + [Digit(output)]
    case SetAllOutputs(_) => "o*"
    case Wait(_) => "w"
  }

  function Arg(s: Step): string {
    match s
    case SetOutput(_, v) => PrintValue(v)
    case SetAllOutputs(v) => PrintValue(v)
    case Wait(delay) => NatToString(delay)
  }

  function PrintStep(s: Step): string
    requires s.SetOutput? ==> s.output < OUTPUTS
  {
    Op(s) + "-" + Arg(s)
  }

  /** A run of one or more separators. */
  predicate IsGap(gap: string) {
    gap != "" && forall i :: 0 <= i < |gap| ==> IsSeparator(gap[i])
  }

  /** Enough gaps to write `n` steps. */
  predicate AreGaps(gaps: seq<string>, n: nat) {
    |gaps| + 1 >= n && forall i :: 0 <= i < |gaps| ==> IsGap(gaps[i])
  }

  /** The text of a program, with any separators between its steps. */
  function Print(steps: seq<Step>, gaps: seq<string>): string
    requires KnownOutputs(steps) && AreGaps(gaps, |steps|)
  {
    if |steps| == 0 then ""
    else if |steps| == 1 then PrintStep(steps[0])
    else PrintStep(steps[0]) + gaps[0] + Print(steps[1..], gaps[1..])
  }

  predicate SeparatorFree(s: string) {
    forall i :: 0 <= i < |s| ==> !IsSeparator(s[i])
  }

  lemma ArgIsPlain(s: Step)
    ensures Free(Arg(s), '-') && SeparatorFree(Arg(s))
  {
    var a := Arg(s);
    if s.Wait? {
      assert forall i :: 0 <= i < |a| ==> IsDigit(a[i]);
    }
  }

  lemma PrintedStep(s: Step, canWait: bool)
    requires (s.SetOutput? ==> s.output < OUTPUTS) && (s.Wait? ==> canWait)
    ensures ParseStep(PrintStep(s), canWait) == Some(s)
    ensures SeparatorFree(PrintStep(s)) && PrintStep(s) != ""
  {
    hide CreateStep, Arg;
    ArgIsPlain(s);
    assert Free(Op(s), '-') && SeparatorFree(Op(s));
    hide Op;
    SplitFirst(Op(s), '-', Arg(s));
    SplitFree(Arg(s), '-');
    assert Split(PrintStep(s), '-') == [Op(s), Arg(s)];
    CreatedStep(s, canWait);
  }

  lemma CreatedStep(s: Step, canWait: bool)
    requires (s.SetOutput? ==> s.output < OUTPUTS) && (s.Wait? ==> canWait)
    ensures CreateStep(Op(s), Arg(s), canWait) == Some(s)
  {
    hide Delay;
    if s.Wait? {
      DelayRoundTrip(s.delay, "");
      assert NatToString(s.delay) + "" == NatToString(s.delay);
    }
  }

  lemma {:induction false} SplitOne(a: string)
    requires SeparatorFree(a)
    ensures SplitRuns(a) == [a]
    decreases |a|
  {
    if a != "" {
      SplitOne(a[1..]);
      assert a == [a[0]] + a[1..];
    }
  }

  lemma {:induction false} GapDropped(gap: string, rest: string)
    requires (forall i :: 0 <= i < |gap| ==> IsSeparator(gap[i])) && rest != "" && !IsSeparator(rest[0])
    ensures DropSeparators(gap + rest) == rest
    decreases |gap|
  {
    if gap == "" {
      assert gap + rest == rest;
    } else {
      assert (gap + rest)[1..] == gap[1..] + rest;
      GapDropped(gap[1..], rest);
    }
  }

  lemma {:induction false} SplitNext(a: string, gap: string, rest: string)
    requires SeparatorFree(a) && IsGap(gap) && rest != "" && !IsSeparator(rest[0])
    ensures SplitRuns(a + gap + rest) == [a] + SplitRuns(rest)
    decreases |a|
  {
    var s := a + gap + rest;
    if a == "" {
      assert s[0] == gap[0] && s[1..] == gap[1..] + rest;
      GapDropped(gap[1..], rest);
    } else {
      assert s[1..] == a[1..] + gap + rest;
      SplitNext(a[1..], gap, rest);
      assert a == [a[0]] + a[1..];
    }
  }

  lemma {:induction false} PrintedSteps(steps: seq<Step>, gaps: seq<string>, canWait: bool)
    requires KnownOutputs(steps) && |steps| >= 1 && (canWait || NoWait(steps)) && AreGaps(gaps, |steps|)
    ensures ParseSteps(SplitRuns(Print(steps, gaps)), canWait) == Some(steps)
    ensures Print(steps, gaps) != "" && !IsSeparator(Print(steps, gaps)[0])
  {
    hide ParseStep, PrintStep, IsGap;
    var first := PrintStep(steps[0]);
    PrintedStep(steps[0], canWait);
    if |steps| == 1 {
      SplitOne(first);
      assert [first][1..] == [] && steps == [steps[0]] + [];
      assert ParseSteps([], canWait) == Some([]);
      assert ParseSteps([first], canWait) == Some([steps[0]] + []);
    } else {
      var rest := Print(steps[1..], gaps[1..]);
      PrintedSteps(steps[1..], gaps[1..], canWait);
      SplitNext(first, gaps[0], rest);
      var parts := SplitRuns(rest);
      assert ([first] + parts)[1..] == parts && steps == [steps[0]] + steps[1..];
    }
  }

  /** Every non-empty program parses back from its text, whatever separators it is written with. */
  lemma ProgramRoundTrip(steps: seq<Step>, gaps: seq<string>, canWait: bool)
    requires KnownOutputs(steps) && |steps| >= 1 && (canWait || NoWait(steps)) && AreGaps(gaps, |steps|)
    ensures Parse(Print(steps, gaps), canWait) == steps
  {
    PrintedSteps(steps, gaps, canWait);
  }

  /** One invalid part empties the whole program. */
  lemma {:induction false} InvalidPart(parts: seq<string>, canWait: bool, i: nat)
    requires i < |parts| && ParseStep(parts[i], canWait).None?
    ensures ParseSteps(parts, canWait).None?
  {
    hide ParseStep;
    if i > 0 {
      InvalidPart(parts[1..], canWait, i - 1);
    }
  }

  lemma InvalidIsEmpty(source: string, canWait: bool, i: nat)
    requires i < |SplitRuns(source)| && ParseStep(SplitRuns(source)[i], canWait).None?
    ensures Parse(source, canWait) == []
  {
    InvalidPart(SplitRuns(source), canWait, i);
  }

  // ----- meaning -----

  function Apply(s: Step, o: Outputs): Outputs {
    match s
    case SetOutput(output, v) => if output < OUTPUTS then o[output := v] else o
    case SetAllOutputs(v) => seq(OUTPUTS, _ => v)
    case Wait(_) => o
  }

  /** All the steps at once, without waiting. */
  function Exec(o: Outputs, steps: seq<Step>): Outputs {
    if steps == [] then o else Apply(steps[|steps| - 1], Exec(o, steps[..|steps| - 1]))
  }

  function Waits(steps: seq<Step>): nat {
    if steps == [] then 0 else Waits(steps[..|steps| - 1]) + (if steps[|steps| - 1].Wait? then 1 else 0)
  }

  function TotalWait(steps: seq<Step>): nat {
    if steps == [] then 0 else
      var last := steps[|steps| - 1];
      TotalWait(steps[..|steps| - 1]) + (if last.Wait? then last.delay else 0)
  }

  /** The timeline: the outputs after `k` waits have expired, from the outputs at the start. */
  function Timeline(steps: seq<Step>, o: Outputs, k: nat): Outputs {
    if steps == [] then o
    else if !steps[0].Wait? then Timeline(steps[1..], Apply(steps[0], o), k)
    else if k == 0 then o
    else Timeline(steps[1..], o, k - 1)
  }

  lemma {:induction false} ExecFront(o: Outputs, steps: seq<Step>)
    requires steps != []
    ensures Exec(o, steps) == Exec(Apply(steps[0], o), steps[1..])
    ensures Waits(steps) == (if steps[0].Wait? then 1 else 0) + Waits(steps[1..])
    decreases |steps|
  {
    hide Apply;
    if |steps| > 1 {
      var init := steps[..|steps| - 1];
      ExecFront(o, init);
      assert init[1..] == steps[1..][..|steps| - 2];
    } else {
      assert steps[..0] == [] && steps[1..] == [];
    }
  }

  /** Standing at a wait, the timeline is what all the steps before it did. */
  lemma {:induction false} TimelineAtWait(steps: seq<Step>, o: Outputs, i: nat)
    requires i < |steps| && steps[i].Wait?
    ensures Timeline(steps, o, Waits(steps[..i])) == Exec(o, steps[..i])
    decreases |steps|
  {
    hide Apply;
    if i == 0 {
      assert steps[..0] == [];
    } else {
      ExecFront(o, steps[..i]);
      assert steps[..i][1..] == steps[1..][..i - 1];
      TimelineAtWait(steps[1..], Apply(steps[0], o), i - 1);
      WaitChangesNothing(steps[0], o);
    }
  }

  /** After all its waits, a program has done all its steps. */
  lemma {:induction false} TimelineAtEnd(steps: seq<Step>, o: Outputs, k: nat)
    requires k >= Waits(steps)
    ensures Timeline(steps, o, k) == Exec(o, steps)
    decreases |steps|
  {
    hide Apply;
    if steps != [] {
      ExecFront(o, steps);
      WaitChangesNothing(steps[0], o);
      TimelineAtEnd(steps[1..], Apply(steps[0], o), if steps[0].Wait? then k - 1 else k);
    }
  }

  lemma WaitChangesNothing(s: Step, o: Outputs)
    ensures s.Wait? ==> Apply(s, o) == o
  {}

  lemma {:induction false} NoWaitNoTime(steps: seq<Step>)
    requires NoWait(steps)
    ensures Waits(steps) == 0 && TotalWait(steps) == 0
  {
    if steps != [] {
      NoWaitNoTime(steps[..|steps| - 1]);
    }
  }

  lemma {:induction false} WaitsGrow(steps: seq<Step>, i: nat)
    requires i < |steps|
    ensures Waits(steps[..i]) + (if steps[i].Wait? then 1 else 0) <= Waits(steps)
    ensures TotalWait(steps[..i]) <= TotalWait(steps)
    ensures steps[i].Wait? ==> TotalWait(steps[..i]) + steps[i].delay <= TotalWait(steps)
    decreases |steps|
  {
    var init := steps[..|steps| - 1];
    if i < |steps| - 1 {
      WaitsGrow(init, i);
      assert init[..i] == steps[..i];
    } else {
      assert steps[..i] == init;
    }
  }

  // ----- the text of steps -----

  /** The units of a wait. */
  lemma DelayUnits(n: nat)
    ensures Delay(NatToString(n)) == Some(n) && Delay(NatToString(n) + "s") == Some(1000 * n)
    ensures Delay(NatToString(n) + "m") == Some(60000 * n) && Delay(NatToString(n) + "h") == Some(3600000 * n)
  {
    hide Delay, NatToString;
    assert NatToString(n) + "" == NatToString(n);
    DelayRoundTrip(n, "");
    DelayRoundTrip(n, "s");
    DelayRoundTrip(n, "m");
    DelayRoundTrip(n, "h");
  }

  /** The part of a program that stands for a step. */
  ghost predicate IsTextOf(part: string, canWait: bool, s: Step) {
    match s
    case SetOutput(output, v) => output < OUTPUTS && part == "o" + [Digit(output)] + (if v then "-on" else "-off")
    case SetAllOutputs(v) => part == if v then "o*-on" else "o*-off"
    case Wait(delay) => canWait && exists arg :: part == "w-" + arg && Free(arg, '-') && Delay(arg) == Some(delay)
  }

  lemma TwoItems(part: string, op: string, arg: string)
    requires Free(op, '-') && Free(arg, '-') && part == op + "-" + arg
    ensures Split(part, '-') == [op, arg]
  {
    assert part == op + ['-'] + arg;
    SplitFirst(op, '-', arg);
    SplitFree(arg, '-');
  }

  /** A part is read as a step exactly if it is a text of it. */
  lemma StepMeans(part: string, canWait: bool, s: Step)
    ensures ParseStep(part, canWait) == Some(s) <==> IsTextOf(part, canWait, s)
  {
    hide Delay;
    var items := Split(part, '-');
    if ParseStep(part, canWait) == Some(s) {
      JoinSplit(part, '-');
      assert part == items[0] + "-" + items[1] by { assert items[1..] == [items[1]]; }
      SplitParts(part, '-');
      TextOfParsed(part, items[0], items[1], canWait, s);
    }
    if IsTextOf(part, canWait, s) {
      ParsedText(part, canWait, s);
    }
  }

  lemma TextOfParsed(part: string, op: string, arg: string, canWait: bool, s: Step)
    requires part == op + "-" + arg && Free(arg, '-') && CreateStep(op, arg, canWait) == Some(s)
    ensures IsTextOf(part, canWait, s)
  {
    hide Delay;
    if IsOutput(op) {
      assert op == "o" + [Digit(s.output)];
    } else if op == "w" {
      assert part == "w-" + arg;
    }
  }

  lemma ParsedText(part: string, canWait: bool, s: Step)
    requires IsTextOf(part, canWait, s)
    ensures ParseStep(part, canWait) == Some(s)
  {
    hide Delay, Split;
    match s
    case SetOutput(output, v) =>
      var op := "o" + [Digit(output)];
      assert part == op + "-" + (if v then "on" else "off");
      TwoItems(part, op, if v then "on" else "off");
    case SetAllOutputs(v) => TwoItems(part, "o*", if v then "on" else "off");
    case Wait(delay) =>
      var arg :| part == "w-" + arg && Free(arg, '-') && Delay(arg) == Some(delay);
      TwoItems(part, "w", arg);
  }

  /** A program in full: parts between runs of bars and spaces. */
  lemma ProgramText()
    ensures Parse("o3-on| w-2s  o*-off", true) == [SetOutput(3, true), Wait(2000), SetAllOutputs(false)]
    ensures Parse("o3-on,o4-on", true) == []
  {
    hide Delay, ParseStep, SplitRuns;
    assert "o3-on| w-2s  o*-off" == "o3-on" + "| " + "w-2s  o*-off" && "w-2s  o*-off" == "w-2s" + "  " + "o*-off";
    SplitNext("o3-on", "| ", "w-2s  o*-off");
    SplitNext("w-2s", "  ", "o*-off");
    SplitOne("o*-off");
    SplitOne("o3-on,o4-on");
    DelayUnits(2);
    assert NatToString(2) + "s" == "2s" && "w-2s" == "w-" + "2s";
    StepMeans("o3-on", true, SetOutput(3, true));
    StepMeans("w-2s", true, Wait(2000));
    StepMeans("o*-off", true, SetAllOutputs(false));
    ThreeSteps(["o3-on", "w-2s", "o*-off"], true);
    NoSuchStep("o3-on,o4-on");
  }

  lemma ThreeSteps(parts: seq<string>, canWait: bool)
    requires |parts| == 3 && forall i :: 0 <= i < 3 ==> ParseStep(parts[i], canWait).Some?
    ensures ParseSteps(parts, canWait) ==
      Some([ParseStep(parts[0], canWait).value, ParseStep(parts[1], canWait).value, ParseStep(parts[2], canWait).value])
  {
    hide ParseStep;
    var a, b, c := ParseStep(parts[0], canWait).value, ParseStep(parts[1], canWait).value,
      ParseStep(parts[2], canWait).value;
    assert parts[1..][0] == parts[1] && parts[1..][1..] == [parts[2]] && [parts[2]][1..] == [];
    assert ParseSteps([], canWait) == Some([]) && [c] + [] == [c];
    assert ParseSteps([parts[2]], canWait) == Some([c]);
    assert ParseSteps(parts[1..], canWait) == Some([b] + [c]);
    assert [a] + ([b] + [c]) == [a, b, c];
  }

  lemma NoSuchStep(part: string)
    requires part == "o3-on,o4-on"
    ensures ParseSteps([part], true) == None
  {
    hide Delay;
    assert part == "o3" + "-" + "on,o4-on" && part == "o3" + ['-'] + "on,o4-on";
    assert "on,o4-on" == "on,o4" + ['-'] + "on";
    SplitFirst("o3", '-', "on,o4-on");
    SplitFirst("on,o4", '-', "on");
    SplitFree("on", '-');
    assert |Split(part, '-')| == 3;
  }

  // ----- what a program does to one output -----

  /** The step sets output `i`. */
  predicate Sets(s: Step, i: nat) {
    s.SetAllOutputs? || (s.SetOutput? && s.output == i)
  }

  ghost predicate IsLastSetter(steps: seq<Step>, k: int, i: nat) {
    0 <= k < |steps| && Sets(steps[k], i) && forall j :: k < j < |steps| ==> !Sets(steps[j], i)
  }

  /** Output `i` has the value of the last step that sets it, or what it had if no step does. */
  ghost predicate OutputIs(steps: seq<Step>, i: nat, before: bool, after: bool) {
    || (exists k :: IsLastSetter(steps, k, i) && after == steps[k].value)
    || (after == before && forall j :: 0 <= j < |steps| ==> !Sets(steps[j], i))
  }

  lemma {:induction false} ExecMeans(o: Outputs, steps: seq<Step>, i: nat)
    requires i < OUTPUTS
    ensures OutputIs(steps, i, o[i], Exec(o, steps)[i])
    decreases |steps|
  {
    if steps != [] {
      var init, last := steps[..|steps| - 1], |steps| - 1;
      ExecMeans(o, init, i);
      assert forall j :: 0 <= j < last ==> init[j] == steps[j];
      if Sets(steps[last], i) {
        assert IsLastSetter(steps, last, i);
      } else if k :| IsLastSetter(init, k, i) && Exec(o, init)[i] == init[k].value {
        assert IsLastSetter(steps, k, i);
      }
    }
  }

  lemma {:induction false} ExecSplit(o: Outputs, a: seq<Step>, b: seq<Step>)
    ensures Exec(o, a + b) == Exec(Exec(o, a), b) && Waits(a + b) == Waits(a) + Waits(b)
    decreases |b|
  {
    hide Apply;
    if b == [] {
      assert a + b == a;
    } else {
      var init := b[..|b| - 1];
      ExecSplit(o, a, init);
      assert (a + b)[..|a + b| - 1] == a + init;
    }
  }

  function WaitsAt(steps: seq<Step>): set<int> {
    set k | 0 <= k < |steps| && steps[k].Wait?
  }

  /** The waits of a program are counted once each. */
  lemma {:induction false} WaitsCount(steps: seq<Step>)
    ensures Waits(steps) == |WaitsAt(steps)|
  {
    if steps != [] {
      var init, last := steps[..|steps| - 1], |steps| - 1;
      WaitsCount(init);
      assert WaitsAt(steps) == WaitsAt(init) + if steps[last].Wait? then {last} else {};
    } else {
      assert WaitsAt(steps) == {};
    }
  }

  lemma NoWaits(steps: seq<Step>)
    requires Waits(steps) == 0
    ensures NoWait(steps)
  {
    WaitsCount(steps);
    assert WaitsAt(steps) == {};
    assert forall k :: 0 <= k < |steps| ==> k !in WaitsAt(steps);
  }

  /** From step `from` the program goes on to `stop`: its next wait, or its end. */
  ghost predicate StopsAt(steps: seq<Step>, from: nat, stop: nat) {
    && from <= stop <= |steps| && NoWait(steps[from..stop])
    && (stop < |steps| ==> steps[stop].Wait?)
  }

  /** The steps from `from` up to `stop` are done, each output by the last of them that sets it. */
  ghost predicate Goes(steps: seq<Step>, from: nat, before: Outputs, stop: nat, after: Outputs) {
    && StopsAt(steps, from, stop)
    && forall i :: 0 <= i < OUTPUTS ==> OutputIs(steps[from..stop], i, before[i], after[i])
  }

  lemma GoesOn(steps: seq<Step>, start: Outputs, from: nat, stop: nat)
    requires from <= stop <= |steps| && (stop < |steps| ==> steps[stop].Wait?)
    requires Waits(steps[..from]) == Waits(steps[..stop])
    ensures Goes(steps, from, Exec(start, steps[..from]), stop, Exec(start, steps[..stop]))
  {
    hide Exec, Waits, OutputIs, NoWait;
    assert steps[..from] + steps[from..stop] == steps[..stop];
    ExecSplit(start, steps[..from], steps[from..stop]);
    NoWaits(steps[from..stop]);
    forall i | 0 <= i < OUTPUTS
      ensures OutputIs(steps[from..stop], i, Exec(start, steps[..from])[i], Exec(start, steps[..stop])[i]) {
      ExecMeans(Exec(start, steps[..from]), steps[from..stop], i);
    }
  }
}
