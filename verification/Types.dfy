/**
 The type language of component members: parsing with the source's regular
 expressions, printing, validation of values, and the wire codecs of integers and
 booleans.
 */
module Types {
  import opened Strings
  import opened ReducerTools
  import opened Options

  datatype Type = Range(min: int, max: int) | Text | Float | Bool | Enum(values: seq<string>) | Complex

  datatype Primitive = STRING | BOOL | UINT8 | INT8 | UINT32 | INT32 | FLOAT | JSON

  const INT8_MIN := -128
  const INT8_MAX := 127
  const UINT8_MAX := 255
  const INT32_MIN := -2147483648
  const INT32_MAX := 2147483647
  const UINT32_MAX := 4294967295

  // ----- construction -----

  /** `computePrimitive`; none when the bounds are too big. */
  function ComputePrimitive(min: int, max: int): Option<Primitive> {
    if min >= 0 && max <= UINT8_MAX then Some(UINT8)
    else if min >= INT8_MIN && max <= INT8_MAX then Some(INT8)
    else if min >= 0 && max <= UINT32_MAX then Some(UINT32)
    else if min >= INT32_MIN && max <= INT32_MAX then Some(INT32)
    else None
  }

  function NewRange(min: int, max: int): Option<Type> {
    if min >= max || ComputePrimitive(min, max).None? then None else Some(Range(min, max))
  }

  function NewEnum(values: seq<string>): Option<Type> {
    if |values| < 2 then None else Some(Enum(Sort(values)))
  }

  /** The types that the constructors build. */
  predicate Constructible(t: Type) {
    match t
    case Range(min, max) => min < max && ComputePrimitive(min, max).Some?
    case Enum(values) => |values| >= 2 && Sorted(values)
    case _ => true
  }

  function Print(t: Type): string {
    match t
    case Range(min, max) => "range" + RangeArgs(min, max)
    case Text => "text"
    case Float => "float"
    case Bool => "bool"
    case Enum(values) => "enum" + EnumArgs(values)
    case Complex => "complex"
  }

  /** The texts of the types. */
  lemma PrintedTexts()
    ensures Print(Range(-5, 100)) == "range[-5;100]" && Print(Enum(["off", "on"])) == "enum{off,on}"
    ensures Print(Text) == "text" && Print(Float) == "float" && Print(Bool) == "bool" && Print(Complex) == "complex"
  {
    assert NatToString(10) == "10" by { assert NatToString(1) == "1"; }
    assert NatToString(100) == NatToString(10) + "0";
    assert Join(["on"], ',') == "on" && ["off", "on"][1..] == ["on"];
  }

  /** The limits of the primitives a range is sent with. */
  lemma PrimitiveLimits()
    ensures ComputePrimitive(0, 255) == Some(UINT8) && ComputePrimitive(0, 256) == Some(UINT32)
    ensures ComputePrimitive(-128, 127) == Some(INT8)
    ensures ComputePrimitive(-129, 0) == ComputePrimitive(-1, 128) == Some(INT32)
    ensures ComputePrimitive(0, 4294967295) == Some(UINT32) && ComputePrimitive(0, 4294967296) == None
    ensures ComputePrimitive(-2147483648, 2147483647) == Some(INT32)
    ensures ComputePrimitive(-2147483649, 0) == ComputePrimitive(-1, 2147483648) == None
  {}

  function RangeArgs(min: int, max: int): string { "[" + IntToString(min) + ";" + IntToString(max) + "]" }

  function EnumArgs(values: seq<string>): string { "{" + Join(values, ',') + "}" }

  // ----- the regular expressions -----

  predicate IsLetter(c: char) { 'a' <= c <= 'z' }

  /** What `.` does not match. */
  predicate IsLineEnd(c: char) { c == '\n' || c == '\r' || c == '\U{2028}' || c == '\U{2029}' }

  predicate IsInLine(c: char) { !IsLineEnd(c) }

  /** One UTF-16 unit that `.` matches on its own. */
  predicate IsAny(c: char) { !IsLineEnd(c) && c as int < 0x10000 }

  predicate IsWord(c: char) {
    'a' <= c <= 'z' || 'A' <= c <= 'Z' || IsDigit(c) || c == '_' || c == '-' || c == ','
  }

  function SkipToLetter(s: string): (r: string)
    ensures r != "" ==> IsLetter(r[0])
  {
    if s == "" || IsLetter(s[0]) then s else SkipToLetter(s[1..])
  }

  /** The longest prefix whose characters satisfy `p`. */
  function Run(s: string, p: char -> bool): (r: string)
    ensures r <= s
    ensures forall i :: 0 <= i < |r| ==> p(r[i])
    ensures |r| < |s| ==> !p(s[|r|])
  {
    if s == "" || !p(s[0]) then "" else [s[0]] + Run(s[1..], p)
  }

  /** The length of `-?\d+` at the start of `s`; 0 when it does not match. */
  function NumeralLength(s: string): (n: nat)
    ensures n <= |s|
    ensures n > 0 ==> AllDigits(if s[0] == '-' then s[..n][1..] else s[..n])
    ensures n > 0 ==> IsDigit(s[n - 1])
  {
    if s != "" && s[0] == '-' then
      var d := Digits(s[1..]);
      assert |d| > 0 ==> s[..1 + |d|][1..] == d;
      if d == "" then 0 else 1 + |d|
    else
      assert s[..|Digits(s)|] == Digits(s);
      |Digits(s)|
  }

  /** `[min;max]` at the start of `s`. */
  function MatchRange(s: string): Option<(int, int)> {
    if s == "" || s[0] != '[' then None
    else
      var a := NumeralLength(s[1..]);
      var rest := s[1..][a..];
      if a == 0 || rest == "" || rest[0] != ';' then None
      else
        var b := NumeralLength(rest[1..]);
        var end := rest[1..][b..];
        if b == 0 || end == "" || end[0] != ']' then None
        else Some((SignedValue(s[1..][..a]), SignedValue(rest[1..][..b])))
  }

  /** The leftmost match. */
  function FindRange(s: string): Option<(int, int)> {
    if MatchRange(s).Some? then MatchRange(s) else if s == "" then None else FindRange(s[1..])
  }

  /** `{values}` at the start of `s`: any character, then at least one word character. */
  function MatchEnum(s: string): Option<string> {
    if |s| < 2 || s[0] != '{' || !IsAny(s[1]) then None
    else
      var word := Run(s[2..], IsWord);
      var end := s[2..][|word|..];
      if word == "" || end == "" || end[0] != '}' then None else Some([s[1]] + word)
  }

  function FindEnum(s: string): Option<string> {
    if MatchEnum(s).Some? then MatchEnum(s) else if s == "" then None else FindEnum(s[1..])
  }

  // ----- parsing -----

  function NoArgs(args: string, t: Type): Option<Type> {
    if args == "" then Some(t) else None
  }

  /** `parseType`; none where it throws. */
  function ParseType(value: string): Option<Type> {
    var s := SkipToLetter(value);
    var name := Run(s, IsLetter);
    var args := Run(s[|name|..], IsInLine);
    if s == "" then None
    else if name == "range" then
      match FindRange(args)
      case Some((min, max)) => NewRange(min, max)
      case None => None
    else if name == "text" then NoArgs(args, Text)
    else if name == "float" then NoArgs(args, Float)
    else if name == "bool" then NoArgs(args, Bool)
    else if name == "enum" then
      match FindEnum(args)
      case Some(values) => NewEnum(Split(values, ','))
      case None => None
    else if name == "complex" then NoArgs(args, Complex)
    else None
  }

  lemma {:induction false} RunOf(a: string, b: string, p: char -> bool)
    requires (forall i :: 0 <= i < |a| ==> p(a[i])) && (b == "" || !p(b[0]))
    ensures Run(a + b, p) == a
  {
    if a == "" {
      assert a + b == b;
    } else {
      assert (a + b)[1..] == a[1..] + b;
      RunOf(a[1..], b, p);
    }
  }

  /** A name and arguments without line end are read back as they are. */
  lemma NameAndArgs(name: string, args: string)
    requires name != "" && (forall i :: 0 <= i < |name| ==> IsLetter(name[i])) && (args == "" || !IsLetter(args[0]))
    ensures SkipToLetter(name + args) == name + args && Run(name + args, IsLetter) == name
    ensures (name + args)[|name|..] == args
  {
    RunOf(name, args, IsLetter);
  }

  // ----- ranges -----

  lemma NumeralOf(n: int, rest: string)
    requires rest != "" && !IsDigit(rest[0])
    ensures NumeralLength(IntToString(n) + rest) == |IntToString(n)|
  {
    var s := IntToString(n) + rest;
    if n < 0 {
      assert s[1..] == NatToString(-n) + rest;
      DigitsOf(NatToString(-n), rest);
    } else {
      DigitsOf(NatToString(n), rest);
    }
  }

  lemma MatchPrintedRange(min: int, max: int, after: string)
    ensures MatchRange(RangeArgs(min, max) + after) == Some((min, max))
  {
    hide IntToString;
    var s, a, b := RangeArgs(min, max) + after, IntToString(min), IntToString(max);
    var tail := "]" + after;
    assert s[1..] == a + (";" + b + tail);
    NumeralOf(min, ";" + b + tail);
    var rest := s[1..][|a|..];
    assert rest == ";" + b + tail && rest[1..] == b + tail;
    NumeralOf(max, tail);
    assert rest[1..][|b|..] == tail;
    assert s[1..][..|a|] == a && rest[1..][..|b|] == b;
    SignedValueOfInt(min);
    SignedValueOfInt(max);
  }

  lemma RangeArgsOneLine(min: int, max: int)
    ensures forall i :: 0 <= i < |RangeArgs(min, max)| ==> !IsLineEnd(RangeArgs(min, max)[i])
  {
    NumeralOneLine(min);
    NumeralOneLine(max);
  }

  lemma NumeralOneLine(n: int)
    ensures forall i :: 0 <= i < |IntToString(n)| ==> IsDigit(IntToString(n)[i]) || IntToString(n)[i] == '-'
  {}

  /** Every range that can be built parses back from its text. */
  lemma RangeRoundTrip(t: Type)
    requires t.Range? && Constructible(t)
    ensures ParseType(Print(t)) == Some(t)
  {
    var args := RangeArgs(t.min, t.max);
    assert args[0] == '[';
    NameAndArgs("range", args);
    RangeArgsOneLine(t.min, t.max);
    RunOf(args, "", IsInLine);
    assert args + "" == args;
    MatchPrintedRange(t.min, t.max, "");
  }

  lemma {:induction false} SkipsNoLetter(before: string, rest: string)
    requires (forall i :: 0 <= i < |before| ==> !IsLetter(before[i])) && rest != "" && IsLetter(rest[0])
    ensures SkipToLetter(before + rest) == rest
  {
    if before == "" {
      assert before + rest == rest;
    } else {
      assert (before + rest)[1..] == before[1..] + rest;
      SkipsNoLetter(before[1..], rest);
    }
  }

  lemma {:induction false} FindsLater(between: string, rest: string)
    requires Free(between, '[') && MatchRange(rest).Some?
    ensures FindRange(between + rest) == MatchRange(rest)
  {
    hide MatchRange;
    if between == "" {
      assert between + rest == rest;
    } else {
      assert (between + rest)[0] == between[0] && (between + rest)[1..] == between[1..] + rest;
      NoBracket(between + rest);
      FindsLater(between[1..], rest);
    }
  }

  lemma NoBracket(s: string)
    requires s != "" && s[0] != '['
    ensures MatchRange(s) == None
  {}

  lemma {:induction false} RunOver(a: string, b: string, p: char -> bool)
    requires forall i :: 0 <= i < |a| ==> p(a[i])
    ensures Run(a + b, p) == a + Run(b, p)
  {
    if a == "" {
      assert a + b == b && a + Run(b, p) == Run(b, p);
    } else {
      assert (a + b)[1..] == a[1..] + b;
      RunOver(a[1..], b, p);
    }
  }

  /** The expressions match anywhere: what stands around the name and the bounds is ignored. */
  lemma RangeInText(before: string, between: string, t: Type, after: string)
    requires t.Range? && Constructible(t) && forall i :: 0 <= i < |before| ==> !IsLetter(before[i])
    requires Free(between, '[') && (forall i :: 0 <= i < |between| ==> IsInLine(between[i]))
    requires between != "" ==> !IsLetter(between[0])
    ensures ParseType(before + "range" + between + RangeArgs(t.min, t.max) + after) == Some(t)
  {
    hide FindRange, MatchRange, Run, SkipToLetter, IntToString;
    var args := RangeArgs(t.min, t.max);
    var text := before + "range" + between + args + after;
    var rest := between + args + after;
    assert text == before + ("range" + rest);
    SkipsNoLetter(before, "range" + rest);
    assert args[0] == '[' && rest[0] == if between == "" then '[' else between[0];
    NameAndArgs("range", rest);
    RangeArgsOneLine(t.min, t.max);
    assert rest == (between + args) + after;
    RunOver(between + args, after, IsInLine);
    var line := Run(after, IsInLine);
    assert (between + args) + line == between + (args + line);
    MatchPrintedRange(t.min, t.max, line);
    FindsLater(between, args + line);
  }

  // ----- enums -----

  /** The joined values are what the enum expression captures, and no value holds a comma. */
  predicate Plain(values: seq<string>) {
    var j := Join(values, ',');
    && AllFree(values, ',')
    && |j| >= 2 && IsAny(j[0])
    && forall i :: 1 <= i < |j| ==> IsWord(j[i])
  }

  lemma MatchPrintedEnum(j: string)
    requires |j| >= 2 && IsAny(j[0]) && forall i :: 1 <= i < |j| ==> IsWord(j[i])
    ensures MatchEnum("{" + j + "}") == Some(j)
  {
    var s := "{" + j + "}";
    assert s[1] == j[0] && s[2..] == j[1..] + "}";
    RunOf(j[1..], "}", IsWord);
    assert s[2..][|j| - 1..] == "}";
    assert [j[0]] + j[1..] == j;
  }

  lemma EnumArgsOneLine(values: seq<string>)
    requires Plain(values)
    ensures forall i :: 0 <= i < |EnumArgs(values)| ==> !IsLineEnd(EnumArgs(values)[i])
  {
    var j, s := Join(values, ','), EnumArgs(values);
    forall i | 0 <= i < |s| ensures !IsLineEnd(s[i]) {
      assert 2 <= i < |s| - 1 ==> s[i] == j[i - 1] && IsWord(j[i - 1]);
    }
  }

  lemma PlainRoundTrip(t: Type)
    requires t.Enum? && Constructible(t) && Plain(t.values)
    ensures ParseType(Print(t)) == Some(t)
  {
    hide MatchEnum, Join, Split, Sort, Sorted;
    var args, j := EnumArgs(t.values), Join(t.values, ',');
    assert args[0] == '{';
    NameAndArgs("enum", args);
    EnumArgsOneLine(t.values);
    RunOf(args, "", IsInLine);
    assert args + "" == args;
    MatchPrintedEnum(j);
    SplitJoin(t.values, ',');
    SortOfSorted(t.values);
  }

  /** Where the leftmost match of the enum expression is. */
  lemma {:induction false} FoundEnum(s: string) returns (p: nat)
    requires FindEnum(s).Some?
    ensures p + 2 + |FindEnum(s).value| <= |s| && MatchEnum(s[p..]) == FindEnum(s)
    ensures s[p + 1..p + 1 + |FindEnum(s).value|] == FindEnum(s).value
    decreases |s|
  {
    hide MatchEnum;
    if MatchEnum(s).Some? {
      p := 0;
      assert s[0..] == s;
      MatchIsPrefix(s);
    } else {
      var q := FoundEnum(s[1..]);
      p := q + 1;
      assert s[p..] == s[1..][q..];
      var n := |FindEnum(s).value|;
      SliceOfRest(s, q + 1, q + 1 + n);
    }
  }

  lemma SliceOfRest(s: string, a: nat, b: nat)
    requires a <= b < |s|
    ensures s[1..][a..b] == s[a + 1..b + 1]
  {}

  lemma MatchIsPrefix(s: string)
    requires MatchEnum(s).Some?
    ensures 2 + |MatchEnum(s).value| <= |s| && s[1..1 + |MatchEnum(s).value|] == MatchEnum(s).value 
    ensures s[0] == '{' && s[1 + |MatchEnum(s).value|] == '}'
    ensures var j := MatchEnum(s).value; |j| >= 2 && IsAny(j[0]) && forall i :: 1 <= i < |j| ==> IsWord(j[i])
  {
    var word := Run(s[2..], IsWord);
    assert s[2..][..|word|] == word;
    assert s[1..2 + |word|] == [s[1]] + s[2..][..|word|];
  }

  function TotalLength(parts: seq<string>): nat {
    if parts == [] then 0 else |parts[0]| + TotalLength(parts[1..])
  }

  lemma {:induction false} JoinLength(parts: seq<string>)
    requires |parts| >= 1
    ensures |Join(parts, ',')| == TotalLength(parts) + |parts| - 1
  {
    if |parts| > 1 {
      JoinLength(parts[1..]);
    } else {
      assert parts[1..] == [];
    }
  }

  lemma {:induction false} InsertLength(s: seq<string>, x: string)
    ensures TotalLength(Insert(s, x)) == TotalLength(s) + |x|
  {
    hide Below;
    if s == [] {
      assert [x][1..] == [];
    } else if Below(s[0], x) {
      InsertLength(s[1..], x);
      assert Insert(s, x)[1..] == Insert(s[1..], x);
    } else {
      assert ([x] + s)[1..] == s;
    }
  }

  lemma {:induction false} AppendLength(s: seq<string>, x: string)
    ensures TotalLength(s + [x]) == TotalLength(s) + |x|
  {
    if s == [] {
      assert s + [x] == [x] && [x][1..] == [];
    } else {
      AppendLength(s[1..], x);
      assert (s + [x])[1..] == s[1..] + [x];
    }
  }

  lemma {:induction false} SortLength(s: seq<string>)
    ensures TotalLength(Sort(s)) == TotalLength(s)
  {
    hide Insert;
    if s != [] {
      var init, x := s[..|s| - 1], s[|s| - 1];
      SortLength(init);
      InsertLength(Sort(init), x);
      AppendLength(init, x);
      assert s == init + [x];
    }
  }

  /** Sorting the parts of a text does not change how long their text is. */
  lemma SortedTextLength(g: string)
    ensures |Join(Sort(Split(g, ',')), ',')| == |g|
  {
    hide Split, Join, Sort;
    JoinSplit(g, ',');
    JoinLength(Split(g, ','));
    JoinLength(Sort(Split(g, ',')));
    SortLength(Split(g, ','));
  }

  lemma SortedPartsFree(g: string)
    ensures AllFree(Sort(Split(g, ',')), ',')
  {
    hide Split, Sort;
    SplitParts(g, ',');
    var r := Sort(Split(g, ','));
    forall i | 0 <= i < |r| ensures Free(r[i], ',') {
      SameElements(r, Split(g, ','), r[i]);
      assert r[i] in r;
    }
  }

  /** An enum that parses back is plain. */
  lemma RoundTripPlain(t: Type)
    requires t.Enum? && Constructible(t) && ParseType(Print(t)) == Some(t)
    ensures Plain(t.values)
  {
    hide Split, Sort, Join, FindEnum, MatchEnum, Sorted;
    var args, j := EnumArgs(t.values), Join(t.values, ',');
    assert args[0] == '{';
    NameAndArgs("enum", args);
    var line := Run(args, IsInLine);
    assert FindEnum(line).Some?;
    var g := FindEnum(line).value;
    assert t.values == Sort(Split(g, ','));
    SortedTextLength(g);
    SortedPartsFree(g);
    var p := FoundEnum(line);
    assert p == 0 && line == args;
    assert line[0..] == line;
    assert args[1..1 + |j|] == j;
    MatchIsPrefix(line);
  }

  /** An enum parses back from its text exactly when its values are plain. */
  lemma EnumRoundTrip(t: Type)
    requires t.Enum? && Constructible(t)
    ensures ParseType(Print(t)) == Some(t) <==> Plain(t.values)
  {
    hide ParseType, Print, Plain;
    if Plain(t.values) { PlainRoundTrip(t); }
    if ParseType(Print(t)) == Some(t) { RoundTripPlain(t); }
  }

  /** A type that parses back. */
  predicate Printable(t: Type) { Constructible(t) && (t.Enum? ==> Plain(t.values)) }

  /** For every type: parsing undoes printing exactly on the printable ones. */
  lemma TypeRoundTrip(t: Type)
    requires Constructible(t)
    ensures ParseType(Print(t)) == Some(t) <==> Printable(t)
  {
    match t {
      case Range(_, _) => RangeRoundTrip(t);
      case Enum(_) => EnumRoundTrip(t);
      case Text => WordRoundTrip(t);
      case Float => WordRoundTrip(t);
      case Bool => WordRoundTrip(t);
      case Complex => WordRoundTrip(t);
    }
  }

  lemma WordRoundTrip(t: Type)
    requires !t.Range? && !t.Enum?
    ensures ParseType(Print(t)) == Some(t)
  {
    NameAndArgs(Print(t), "");
    assert Print(t) + "" == Print(t);
  }

  /** Everything parsing yields could have been built. */
  lemma ParsedIsConstructible(value: string)
    ensures ParseType(value).Some? ==> Constructible(ParseType(value).value)
  {
    hide FindRange, FindEnum, Run, SkipToLetter;
    var name := Run(SkipToLetter(value), IsLetter);
    var args := Run(SkipToLetter(value)[|name|..], IsInLine);
    if name == "enum" && FindEnum(args).Some? {
      SortSorted(Split(FindEnum(args).value, ','));
    }
  }

  predicate CommaFree(t: Type) { t.Enum? ==> AllFree(t.values, ',') }

  function NameOf(t: Type): string {
    match t
    case Range(_, _) => "range"
    case Text => "text"
    case Float => "float"
    case Bool => "bool"
    case Enum(_) => "enum"
    case Complex => "complex"
  }

  lemma PrintedName(t: Type)
    ensures Run(Print(t), IsLetter) == NameOf(t)
  {
    var args := if t.Range? then RangeArgs(t.min, t.max) else if t.Enum? then EnumArgs(t.values) else "";
    assert args != "" ==> args[0] == '[' || args[0] == '{';
    assert Print(t) == NameOf(t) + args;
    NameAndArgs(NameOf(t), args);
  }

  lemma EnumTextInjective(a: seq<string>, b: seq<string>)
    requires |a| >= 1 && |b| >= 1 && AllFree(a, ',') && AllFree(b, ',') && Print(Enum(a)) == Print(Enum(b))
    ensures a == b
  {
    hide Join, Split;
    var s := Print(Enum(a));
    assert s[5..|s| - 1] == Join(a, ',');
    assert s[5..|s| - 1] == Join(b, ',');
    SplitJoin(a, ',');
    SplitJoin(b, ',');
  }

  /** Equal texts mean equal types, unless a comma hides in an enum value. */
  lemma PrintInjective(a: Type, b: Type)
    requires Constructible(a) && Constructible(b) && CommaFree(a) && CommaFree(b) && Print(a) == Print(b)
    ensures a == b
  {
    PrintedName(a);
    PrintedName(b);
    if a.Enum? && b.Enum? {
      EnumTextInjective(a.values, b.values);
    } else {
      hide ParseType, Print;
      TypeRoundTrip(a);
      TypeRoundTrip(b);
    }
  }

  /** With a comma in a value, two enums that accept different values print alike. */
  lemma CommasCollide()
    ensures var a, b := Enum(["a", "b,c"]), Enum(["a,b", "c"]);
            Constructible(a) && Constructible(b) && Print(a) == Print(b) && a != b
  {
    var a, b := ["a", "b,c"], ["a,b", "c"];
    assert Below("a", "b,c") && Below("a,b", "c");
    assert !Below("b,c", "a") && !Below("c", "a,b");
    assert Join(a[1..], ',') == "b,c" && Join(b[1..], ',') == "c";
    assert Join(a, ',') == "a,b,c" && Join(b, ',') == "a,b,c";
  }
}
