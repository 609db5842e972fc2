/**
 How much the text of a type says: which types no other type is printed like, and what
 is left of an enum that is read back from its text by another process.
 */
module TypeTexts {
  import opened Options
  import opened Strings
  import opened ReducerTools
  import opened Types
  import opened Codecs

  // ----- texts that stand for one type -----

  /** An enum of three or more values is also the text of one whose last two values are joined by a comma. */
  predicate IsAmbiguous(t: Type) { t.Enum? && |t.values| >= 3 }

  function Merged(values: seq<string>): seq<string>
    requires |values| >= 2
  {
    var n := |values|;
    values[..n - 2] + [values[n - 2] + [','] + values[n - 1]]
  }

  lemma {:induction false} MergedText(values: seq<string>)
    requires |values| >= 2
    ensures Join(Merged(values), ',') == Join(values, ',')
  {
    if |values| == 2 {
      assert values[1..] == [values[1]];
      assert Join(values[1..], ',') == values[1];
      assert Merged(values) == [values[0] + [','] + values[1]];
    } else {
      MergedText(values[1..]);
      assert Merged(values)[1..] == Merged(values[1..]);
    }
  }

  lemma {:induction false} PrefixNotAbove(p: string, q: string)
    ensures !Below(p + q, p)
  {
    if p != "" {
      assert (p + q)[1..] == p[1..] + q;
      PrefixNotAbove(p[1..], q);
    }
  }

  lemma NotBelowThrough(x: string, y: string, z: string)
    requires !Below(y, x) && !Below(z, y)
    ensures !Below(z, x)
  {
    BelowTotal(x, y);
    if Below(z, x) && Below(x, y) {
      BelowTransitive(z, x, y);
    }
  }

  lemma MergedSorted(values: seq<string>)
    requires |values| >= 2 && Sorted(values)
    ensures Sorted(Merged(values))
  {
    var n, m := |values|, Merged(values);
    var last := values[n - 2] + [','] + values[n - 1];
    forall i | 0 <= i < n - 2 ensures !Below(last, values[i]) {
      assert last == values[n - 2] + ([','] + values[n - 1]);
      PrefixNotAbove(values[n - 2], [','] + values[n - 1]);
      NotBelowThrough(values[i], values[n - 2], last);
    }
    forall i, j | 0 <= i < j < |m| ensures !Below(m[j], m[i]) {
      assert m[i] == values[i];
      assert m[j] == if j < n - 2 then values[j] else last;
    }
  }

  /** Splitting a joined text gives at least one part a value, and more when a value holds a comma. */
  lemma {:induction false} SplitAtLeast(values: seq<string>)
    requires |values| >= 1
    ensures |Split(Join(values, ','), ',')| >= |values|
    ensures |Split(Join(values, ','), ',')| == |values| ==> AllFree(values, ',')
  {
    hide Split;
    if |values| == 1 {
      OnePart(values[0]);
    } else {
      SplitAtLeast(values[1..]);
      OnePart(values[0]);
      SplitConcat(values[0], Join(values[1..], ','));
      assert Join(values, ',') == values[0] + [','] + Join(values[1..], ',');
      if AllFree(values[1..], ',') && Free(values[0], ',') {
        assert forall i :: 1 <= i < |values| ==> values[i] == values[1..][i - 1];
      }
    }
  }

  lemma {:induction false} OnePart(s: string)
    ensures |Split(s, ',')| == 1 ==> Free(s, ',')
  {
    if s != "" {
      OnePart(s[1..]);
    }
  }

  lemma {:induction false} SplitConcat(a: string, b: string)
    ensures |Split(a + [','] + b, ',')| == |Split(a, ',')| + |Split(b, ',')|
  {
    var s := a + [','] + b;
    if a == "" {
      assert s[1..] == b;
    } else {
      assert s[1..] == a[1..] + [','] + b;
      SplitConcat(a[1..], b);
    }
  }

  lemma EnumTexts(a: seq<string>, b: seq<string>)
    requires Print(Enum(a)) == Print(Enum(b))
    ensures Join(a, ',') == Join(b, ',')
  {
    hide Join;
    var s := Print(Enum(a));
    assert s[5..|s| - 1] == Join(a, ',');
    assert s[5..|s| - 1] == Join(b, ',');
  }

  /** Two comma-free values: nothing else is printed like them. */
  lemma TwoValuesUnique(a: Type, b: Type)
    requires a.Enum? && b.Enum? && Constructible(a) && Constructible(b) && CommaFree(a) && |a.values| == 2
    requires Print(a) == Print(b)
    ensures b == a
  {
    hide Join, Split, Print, Sorted;
    EnumTexts(a.values, b.values);
    SplitJoin(a.values, ',');
    SplitAtLeast(b.values);
    EnumTextInjective(a.values, b.values);
  }

  lemma NotAmbiguous(a: Type, b: Type)
    requires Constructible(a) && Constructible(b) && CommaFree(a) && !IsAmbiguous(a) && Print(a) == Print(b)
    ensures b == a
  {
    hide Print, ParseType, Sorted;
    PrintedName(a);
    PrintedName(b);
    if a.Enum? {
      TwoValuesUnique(a, b);
    } else {
      TypeRoundTrip(a);
      TypeRoundTrip(b);
    }
  }

  lemma MergedTwin(a: Type)
    requires Constructible(a) && IsAmbiguous(a)
    ensures var b := Enum(Merged(a.values)); Constructible(b) && Print(b) == Print(a) && b != a
  {
    hide Join, Sorted;
    MergedText(a.values);
    MergedSorted(a.values);
    assert |Merged(a.values)| == |a.values| - 1;
  }

  /** A text stands for one comma-free type exactly when that is no enum of three or more values. */
  lemma TextIsUnique(a: Type)
    requires Constructible(a) && CommaFree(a)
    ensures (forall b :: Constructible(b) && Print(a) == Print(b) ==> b == a) <==> !IsAmbiguous(a)
  {
    hide Print, Constructible, CommaFree;
    if IsAmbiguous(a) {
      MergedTwin(a);
    } else {
      forall b | Constructible(b) && Print(a) == Print(b) ensures b == a {
        NotAmbiguous(a, b);
      }
    }
  }

  ghost predicate SameValues(a: Type, b: Type) {
    forall v :: Accepts(a, v) <==> Accepts(b, v)
  }

  lemma TwinAccepts(a: Type)
    requires Constructible(a) && CommaFree(a) && IsAmbiguous(a)
    ensures !SameValues(a, Enum(Merged(a.values)))
  {
    var n := |a.values|;
    var last := a.values[n - 2] + [','] + a.values[n - 1];
    assert last[|a.values[n - 2]|] == ',';
    assert Merged(a.values)[n - 2] == last;
    assert Accepts(Enum(Merged(a.values)), String(last)) && !Accepts(a, String(last));
  }

  /** What prints like a comma-free type accepts what it accepts exactly when it is no enum of three or more values. */
  lemma TextTellsValues(a: Type)
    requires Constructible(a) && CommaFree(a)
    ensures (forall b :: Constructible(b) && Print(a) == Print(b) ==> SameValues(a, b)) <==> !IsAmbiguous(a)
  {
    hide Print, Constructible, CommaFree, Accepts;
    TextIsUnique(a);
    if IsAmbiguous(a) {
      MergedTwin(a);
      TwinAccepts(a);
    }
  }

  // ----- an enum read back from its text -----

  predicate AllWord(s: string) { forall i :: 0 <= i < |s| ==> IsWord(s[i]) }

  /** A character that is no word character, and then only word characters. */
  predicate IsTailed(s: string) { s != "" && !IsWord(s[0]) && AllWord(s[1..]) }

  /** One value over and over, a closing brace and then word characters. */
  predicate IsBraced(values: seq<string>) {
    && |values| >= 2 && IsTailed(values[0]) && values[0][0] == '}' && Free(values[0], ',')
    && forall i :: 0 <= i < |values| ==> values[i] == values[0]
  }

  /** The types of which no value is lost on the way. */
  predicate Survives(t: Type) { Printable(t) || (t.Enum? && IsBraced(t.values)) }

  ghost predicate AcceptsAll(r: Type, t: Type) {
    forall v :: Accepts(t, v) ==> Accepts(r, v)
  }

  /** The line of an enum's text that is searched. */
  function LineOf(values: seq<string>): string { Run(EnumArgs(values), IsInLine) }

  lemma EnumDecoded(t: Type)
    requires t.Enum? && ParseType(Print(t)).Some?
    ensures FindEnum(LineOf(t.values)).Some?
    ensures ParseType(Print(t)).value == Enum(Sort(Split(FindEnum(LineOf(t.values)).value, ',')))
  {
    hide FindEnum, Sort, Split, Run, SkipToLetter, EnumArgs;
    EnumName(t);
  }

  lemma EnumName(t: Type)
    requires t.Enum?
    ensures SkipToLetter(Print(t)) == Print(t) && Run(Print(t), IsLetter) == "enum"
    ensures Print(t)[4..] == EnumArgs(t.values)
  {
    hide Join;
    assert EnumArgs(t.values)[0] == '{';
    NameAndArgs("enum", EnumArgs(t.values));
  }

  lemma {:induction false} WordParts(s: string)
    requires AllWord(s)
    ensures forall i :: 0 <= i < |Split(s, ',')| ==> AllWord(Split(s, ',')[i])
  {
    if s != "" {
      WordParts(s[1..]);
      var rest := Split(s[1..], ',');
      assert s[0] != ',' ==> AllWord([s[0]] + rest[0]);
    }
  }

  /** The parts of what the enum expression captures. */
  lemma CapturedParts(g: string)
    requires |g| >= 2 && AllWord(g[1..])
    ensures var parts := Split(g, ',');
            && AllFree(parts, ',') && (AllWord(parts[0]) || (IsTailed(parts[0]) && parts[0][0] == g[0]))
            && forall i :: 1 <= i < |parts| ==> AllWord(parts[i])
  {
    SplitParts(g, ',');
    WordParts(g[1..]);
    if IsWord(g[0]) {
      assert AllWord(g) by {
        forall i | 0 <= i < |g| ensures IsWord(g[i]) { assert i > 0 ==> g[i] == g[1..][i - 1]; }
      }
      WordParts(g);
    } else {
      var rest := Split(g[1..], ',');
      assert Split(g, ',') == [[g[0]] + rest[0]] + rest[1..];
      assert ([g[0]] + rest[0])[1..] == rest[0];
    }
  }

  /** Every value is made of word characters, or is `f`. */
  predicate AreWordsOr(values: seq<string>, f: string) {
    forall i :: 0 <= i < |values| ==> AllWord(values[i]) || values[i] == f
  }

  lemma {:induction false} JoinedWords(values: seq<string>)
    requires forall i :: 0 <= i < |values| ==> AllWord(values[i])
    ensures AllWord(Join(values, ','))
  {
    if |values| > 1 {
      JoinedWords(values[1..]);
      var j, rest := Join(values, ','), Join(values[1..], ',');
      forall k | 0 <= k < |j| ensures IsWord(j[k]) {
        assert j[k] == if k < |values[0]| then values[0][k] else if k
          == |values[0]| then ',' else rest[k - |values[0]| - 1];
      }
    }
  }

  /** The text of the values from `i` on. */
  function TextFrom(values: seq<string>, i: nat): string
    requires i <= |values|
  {
    Join(values[i..], ',')
  }

  /** In such a text a character that is no word character starts a value `f`, and a word character follows. */
  lemma {:induction false} StrangerStarts(values: seq<string>, f: string, k: nat) returns (i: nat)
    requires values != [] && IsTailed(f) && AreWordsOr(values, f) && k < |Join(values, ',')|
    requires !IsWord(Join(values, ',')[k])
    ensures i < |values| && values[i] == f && Join(values, ',')[k] == f[0] && (i == 0 <==> k == 0)
    ensures |Join(values, ',')| - k == |TextFrom(values, i)|
    ensures k + 1 < |Join(values, ',')| ==> IsWord(Join(values, ',')[k + 1])
    decreases |values|
  {
    var j, v := Join(values, ','), values[0];
    assert forall m :: 1 <= m < |f| ==> f[m] == f[1..][m - 1] && IsWord(f[m]);
    assert values[0..] == values;
    if k < |v| {
      assert j[k] == v[k];
      assert v == f && k == 0;
      assert |v| > 1 ==> j[1] == v[1];
      i := 0;
    } else {
      assert |values| > 1 && j[|v|] == ',';
      var rest := values[1..];
      assert j[k] == Join(rest, ',')[k - |v| - 1];
      var m := StrangerStarts(rest, f, k - |v| - 1);
      assert k + 1 < |j| ==> j[k + 1] == Join(rest, ',')[k - |v|];
      i := m + 1;
      assert rest[m..] == values[i..];
    }
  }

  /** Where the capture stands in the text of the values. */
  lemma CaptureIs(values: seq<string>) returns (p: nat, g: string)
    requires FindEnum(LineOf(values)).Some?
    ensures g == FindEnum(LineOf(values)).value && |g| >= 2 && IsAny(g[0]) && AllWord(g[1..])
    ensures var j := Join(values, ',');
            && p + |g| <= |j| && j[p..p + |g|] == g && (p > 0 ==> j[p - 1] == '{')
              && (p + |g| < |j| ==> j[p + |g|] == '}')
  {
    hide FindEnum, MatchEnum, Join, LineOf, IsAny, IsWord;
    var line, j := LineOf(values), Join(values, ',');
    g := FindEnum(line).value;
    p := FoundEnum(line);
    MatchIsPrefix(line[p..]);
    TailWords(g);
    LineChars(values, p);
    LineChars(values, p + 1 + |g|);
    forall k | 0 <= k < |g| ensures j[p..p + |g|][k] == g[k] {
      LineChars(values, p + 1 + k);
      assert line[p + 1..p + 1 + |g|][k] == line[p + 1 + k];
    }
    assert line[p] == line[p..][0] && line[p + 1 + |g|] == line[p..][1 + |g|];
  }

  /** The characters of the line are those of the values' text, between braces. */
  lemma LineChars(values: seq<string>, k: nat)
    requires k < |LineOf(values)|
    ensures |LineOf(values)| <= |Join(values, ',')| + 2
    ensures 0 < k <= |Join(values, ',')| ==> LineOf(values)[k] == Join(values, ',')[k - 1]
  {
    hide Join;
    assert LineOf(values)[k] == EnumArgs(values)[k];
  }

  lemma TailWords(g: string)
    requires |g| >= 2 && forall i :: 1 <= i < |g| ==> IsWord(g[i])
    ensures AllWord(g[1..])
  {
    assert forall i :: 0 <= i < |g[1..]| ==> g[1..][i] == g[i + 1];
  }

  lemma OnlyWords(values: seq<string>)
    requires forall i :: 0 <= i < |values| ==> AllWord(values[i])
    requires AllFree(values, ',') && |Join(values, ',')| >= 2
    ensures Plain(values)
  {
    JoinedWords(values);
  }

  lemma {:induction false} TextShrinks(values: seq<string>, a: nat, b: nat)
    requires a < b < |values|
    ensures |TextFrom(values, b)| + |values[a]| + 1 <= |TextFrom(values, a)|
    decreases b - a
  {
    assert values[a..][1..] == values[a + 1..] && values[a..][0] == values[a];
    if a + 1 < b {
      TextShrinks(values, a + 1, b);
    }
  }

  lemma SqueezedBetween(values: seq<string>, i: nat)
    requires Sorted(values) && 0 < i < |values| && values[i] == values[0]
    ensures values[1] == values[0]
  {
    if i > 1 {
      BelowTotal(values[0], values[1]);
    }
  }

  lemma WordInside(j: string, g: string, k: nat)
    requires 1 <= k < |g| <= |j| && j[..|g|] == g && AllWord(g[1..])
    ensures IsWord(j[k])
  {
    assert j[k] == g[k] == g[1..][k - 1];
  }

  /** The capture stops before the text ends: it is `f` and a comma, and every value is `f`. */
  lemma StopsEarly(values: seq<string>, g: string, f: string)
    requires |values| >= 2 && Sorted(values) && IsTailed(f) && Free(f, ',') && AreWordsOr(values, f)
    requires |g| >= 2 && AllWord(g[1..]) && g[0] == f[0]
    requires var j := Join(values, ','); |g| < |j| && j[..|g|] == g && j[|g|] == '}'
    requires forall i :: 0 <= i < |values| ==> values[i] in Split(g, ',')
    ensures IsBraced(values)
  {
    hide Below;
    var j := Join(values, ',');
    assert j[0] == g[0];
    var zero := StrangerStarts(values, f, 0);
    var i := StrangerStarts(values, f, |g|);
    SqueezedBetween(values, i);
    assert j == f + [','] + TextFrom(values, 1);
    var one := StartOfSecond(values, f);
    if |f| + 1 < |g| {
      WordInside(j, g, |f| + 1);
    }
    TextShrinks(values, 0, i);
    assert values[0..] == values;
    assert |g| == |f| + 1;
    assert g == f + [','] + "";
    SplitFirst(f, ',', "");
    assert Split(g, ',') == [f, ""];
    forall m | 0 <= m < |values| ensures values[m] == f {
      NotEmptyAfter(values, m);
    }
  }

  lemma StartOfSecond(values: seq<string>, f: string) returns (k: nat)
    requires |values| >= 2 && f != "" && values[0] == f && values[1] == f
    ensures k == |f| + 1 && k < |Join(values, ',')| && Join(values, ',')[k] == f[0]
  {
    k := |f| + 1;
    assert values[1..][0] == f;
    assert Join(values[1..], ',')[0] == f[0];
  }

  lemma NotEmptyAfter(values: seq<string>, m: nat)
    requires Sorted(values) && m < |values| && values[0] != ""
    ensures values[m] != ""
  {
    assert Below("", values[0]);
  }

  /** An enum that keeps all its values is plain, or one value over and over. */
  lemma KeepsAll(values: seq<string>)
    requires |values| >= 2 && Sorted(values) && FindEnum(LineOf(values)).Some?
    requires forall i :: 0 <= i < |values| ==> values[i] in Split(FindEnum(LineOf(values)).value, ',')
    ensures Plain(values) || IsBraced(values)
  {
    hide FindEnum, LineOf, Sorted, Split, Join, Plain;
    var j := Join(values, ',');
    var p, g := CaptureIs(values);
    CapturedParts(g);
    var f := Split(g, ',')[0];
    FreeValues(values, Split(g, ','));
    if AllWord(f) {
      AllAreWords(values, Split(g, ','), f);
      OnlyWords(values);
    } else {
      WordsOrFirst(values, Split(g, ','), f);
      assert j[p] == g[0];
      if p > 0 {
        var before := StrangerStarts(values, f, p - 1);
      }
      assert p == 0;
      if |g| == |j| {
        WholeCapture(values, g);
      } else {
        assert j[..|g|] == g;
        StopsEarly(values, g, f);
      }
    }
  }

  lemma FreeValues(values: seq<string>, parts: seq<string>)
    requires AllFree(parts, ',') && forall i :: 0 <= i < |values| ==> values[i] in parts
    ensures AllFree(values, ',')
  {}

  lemma AllAreWords(values: seq<string>, parts: seq<string>, f: string)
    requires parts != [] && f == parts[0] && AllWord(f) && (forall i :: 1 <= i < |parts| ==> AllWord(parts[i]))
    requires forall i :: 0 <= i < |values| ==> values[i] in parts
    ensures forall i :: 0 <= i < |values| ==> AllWord(values[i])
  {
    hide AllWord;
    forall i | 0 <= i < |values| ensures AllWord(values[i]) {
      var k :| 0 <= k < |parts| && parts[k] == values[i];
    }
  }

  lemma WordsOrFirst(values: seq<string>, parts: seq<string>, f: string)
    requires parts != [] && f == parts[0] && (forall i :: 1 <= i < |parts| ==> AllWord(parts[i]))
    requires forall i :: 0 <= i < |values| ==> values[i] in parts
    ensures AreWordsOr(values, f)
  {
    hide AllWord;
    forall i | 0 <= i < |values| ensures AllWord(values[i]) || values[i] == f {
      var k :| 0 <= k < |parts| && parts[k] == values[i];
    }
  }

  lemma WholeCapture(values: seq<string>, g: string)
    requires g == Join(values, ',') && |g| >= 2 && IsAny(g[0]) && AllWord(g[1..]) && AllFree(values, ',')
    ensures Plain(values)
  {
    assert forall i :: 1 <= i < |g| ==> g[i] == g[1..][i - 1];
  }

  lemma {:induction false} BracedText(values: seq<string>)
    requires IsBraced(values)
    ensures var j, f := Join(values, ','), values[0];
            && |j| > |f| + 1 && j[..|f| + 1] == f + [','] && j[|f| + 1] == '}'
    ensures forall k :: 0 <= k < |Join(values, ',')| ==> !IsLineEnd(Join(values, ',')[k])
  {
    var f := values[0];
    var k := StartOfSecond(values, f);
    BracedLine(values, f);
    assert Join(values, ',') == f + [','] + Join(values[1..], ',');
  }

  lemma {:induction false} BracedLine(values: seq<string>, f: string)
    requires IsTailed(f) && f[0] == '}' && forall i :: 0 <= i < |values| ==> values[i] == f
    ensures forall k :: 0 <= k < |Join(values, ',')| ==> !IsLineEnd(Join(values, ',')[k])
  {
    assert forall m :: 1 <= m < |f| ==> f[m] == f[1..][m - 1] && IsWord(f[m]);
    if |values| > 1 {
      BracedLine(values[1..], f);
      var j, rest := Join(values, ','), Join(values[1..], ',');
      forall k | 0 <= k < |j| ensures !IsLineEnd(j[k]) {
        assert j[k] == if k < |f| then f[k] else if k == |f| then ',' else rest[k - |f| - 1];
      }
    }
  }

  lemma BracedMatch(f: string, end: string)
    requires IsTailed(f) && f[0] == '}' && end != "" && end[0] == '}'
    ensures MatchEnum("{" + f + "," + end) == Some(f + ",")
  {
    var s, word := "{" + f + "," + end, f[1..] + ",";
    assert s[1] == '}' && s[2..] == word + end;
    assert AllWord(word);
    RunOf(word, end, IsWord);
    assert s[2..][|word|..] == end;
    assert [s[1]] + word == f + ",";
  }

  lemma BracedOneLine(values: seq<string>)
    requires IsBraced(values)
    ensures LineOf(values) == EnumArgs(values)
  {
    hide Join, IsBraced;
    var j, args := Join(values, ','), EnumArgs(values);
    BracedText(values);
    forall k | 0 <= k < |args| ensures IsInLine(args[k]) {
      if 1 <= k < |args| - 1 { assert args[k] == j[k - 1]; }
    }
    RunOf(args, "", IsInLine);
    assert args + "" == args;
  }

  /** Of one value over and over, that value is captured, and the empty one. */
  lemma BracedCapture(values: seq<string>)
    requires IsBraced(values)
    ensures FindEnum(LineOf(values)) == Some(values[0] + ",")
  {
    hide Join, MatchEnum, LineOf;
    var f, j := values[0], Join(values, ',');
    BracedOneLine(values);
    BracedText(values);
    var end := j[|f| + 1..] + "}";
    assert j == j[..|f| + 1] + j[|f| + 1..];
    assert EnumArgs(values) == "{" + f + "," + end;
    BracedMatch(f, end);
  }

  lemma BracedKept(t: Type)
    requires t.Enum? && IsBraced(t.values)
    ensures ParseType(Print(t)).Some? && AcceptsAll(ParseType(Print(t)).value, t)
  {
    hide FindEnum, Run, SkipToLetter, EnumArgs, Sort, IsBraced, Split, Print;
    BracedMeans(t.values);
    var f := t.values[0];
    BracedCapture(t.values);
    EnumName(t);
    BracedParts(f);
    var r := Sort([f, ""]);
    SameElements(r, [f, ""], f);
    assert [f, ""][0] == f;
  }

  lemma BracedParts(f: string)
    requires Free(f, ',')
    ensures Split(f + ",", ',') == [f, ""]
  {
    SplitFirst(f, ',', "");
    assert f + [','] + "" == f + ",";
    assert Split("", ',') == [""];
  }

  lemma BracedMeans(values: seq<string>)
    requires IsBraced(values)
    ensures |values| >= 2 && (forall i :: 0 <= i < |values| ==> values[i] == values[0]) && Free(values[0], ',')
  {}

  lemma DecodedKeeps(t: Type)
    requires t.Enum? && Constructible(t) && ParseType(Print(t)).Some? && AcceptsAll(ParseType(Print(t)).value, t)
    ensures Plain(t.values) || IsBraced(t.values)
  {
    hide FindEnum, LineOf, Sort, Split, ParseType, Print, Plain, IsBraced;
    EnumDecoded(t);
    var parts := Split(FindEnum(LineOf(t.values)).value, ',');
    forall i | 0 <= i < |t.values| ensures t.values[i] in parts {
      assert Accepts(t, String(t.values[i]));
      SameElements(Sort(parts), parts, t.values[i]);
    }
    KeepsAll(t.values);
  }

  /** A type read back from its text accepts all the values of the type that was printed exactly when that survives. */
  lemma DecodedAccepts(t: Type)
    requires Constructible(t) && ParseType(Print(t)).Some?
    ensures AcceptsAll(ParseType(Print(t)).value, t) <==> Survives(t)
  {
    hide ParseType, Print, Plain, IsBraced, Accepts, Sorted;
    TypeRoundTrip(t);
    if t.Enum? {
      if AcceptsAll(ParseType(Print(t)).value, t) { DecodedKeeps(t); }
      if IsBraced(t.values) { BracedKept(t); }
    }
  }

  /** What stands before the first opening brace is skipped. */
  lemma {:induction false} SkipToBrace(before: string, rest: string)
    requires Free(before, '{') && MatchEnum(rest).Some?
    ensures FindEnum(before + rest) == MatchEnum(rest)
  {
    if before == "" {
      assert before + rest == rest;
    } else {
      assert (before + rest)[0] == before[0] && (before + rest)[1..] == before[1..] + rest;
      NoMatchAt(before + rest);
      hide MatchEnum;
      SkipToBrace(before[1..], rest);
    }
  }

  lemma NoMatchAt(s: string)
    requires s != "" && s[0] != '{'
    ensures MatchEnum(s) == None
  {}

  lemma NoMatchBefore(s: string)
    requires |s| >= 3 && !IsWord(s[2])
    ensures MatchEnum(s) == None
  {}

  const LOST := ["a b{cd", "ef"]

  lemma LostText()
    ensures EnumArgs(LOST) == "{a b{cd,ef}" && Sorted(LOST) && AllFree(LOST, ',')
  {
    assert LOST[1..] == ["ef"];
    assert Join(LOST, ',') == "a b{cd,ef";
    assert Below("a b{cd", "ef") && !Below("ef", "a b{cd");
    assert Free("a b{cd", ',') && Free("ef", ',');
  }

  lemma LostLine()
    ensures Run("{a b{cd,ef}", IsInLine) == "{a b{cd,ef}"
  {
    hide Run;
    RunOf("{a b{cd,ef}", "", IsInLine);
    assert "{a b{cd,ef}" + "" == "{a b{cd,ef}";
  }

  lemma LostMatch()
    ensures MatchEnum("{cd,ef}") == Some("cd,ef")
  {
    hide MatchEnum;
    assert "{" + "cd,ef" + "}" == "{cd,ef}";
    MatchPrintedEnum("cd,ef");
  }

  lemma LostCapture()
    ensures FindEnum(LineOf(LOST)) == Some("cd,ef")
  {
    hide Run, MatchEnum, EnumArgs, Sorted, AllFree;
    LostText();
    LostLine();
    LostMatch();
    NoMatchBefore("{a b{cd,ef}");
    SkipToBrace("a b", "{cd,ef}");
    assert "{a b{cd,ef}"[1..] == "a b" + "{cd,ef}";
  }

  lemma CdBelowEf()
    ensures Sorted(["cd", "ef"])
  {
    assert !Below("ef", "cd");
  }

  lemma LostParts()
    ensures Sort(Split("cd,ef", ',')) == ["cd", "ef"]
  {
    hide Split, Sort, Sorted;
    SplitFirst("cd", ',', "ef");
    SplitFree("ef", ',');
    assert "cd" + [','] + "ef" == "cd,ef";
    assert Split("cd,ef", ',') == ["cd", "ef"];
    CdBelowEf();
    SortOfSorted(["cd", "ef"]);
  }

  /** A comma-free enum of which a value is lost: another process reads `cd` where `a b{cd` was meant. */
  lemma ValueIsLost()
    ensures Constructible(Enum(LOST)) && CommaFree(Enum(LOST)) && !Survives(Enum(LOST))
    ensures ParseType(Print(Enum(LOST))) == Some(Enum(["cd", "ef"]))
    ensures Accepts(Enum(LOST), String("a b{cd")) && !Accepts(Enum(["cd", "ef"]), String("a b{cd"))
  {
    hide FindEnum, Run, SkipToLetter, Sort, Split, Sorted, Print, EnumArgs, Plain;
    LostText();
    LostCapture();
    LostParts();
    EnumName(Enum(LOST));
    assert ParseType(Print(Enum(LOST))) == Some(Enum(["cd", "ef"]));
    assert LOST[0] == "a b{cd" && !IsBraced(LOST);
    TypeRoundTrip(Enum(LOST));
  }
}
