/**
 Strings as the source uses them: searching, splitting and joining on one
 separator, decimal numerals, and the order `Array.prototype.sort` puts ids in.
 */
module Strings {

  // ----- searching, splitting, joining -----

  /** No character of `s` is `c`. */
  predicate Free(s: string, c: char) {
    forall i :: 0 <= i < |s| ==> s[i] != c
  }

  /** `s.indexOf(c)`: the first position of `c`, or -1. */
  function IndexOf(s: string, c: char): (r: int)
    ensures -1 <= r < |s|
    ensures r < 0 ==> Free(s, c)
    ensures r >= 0 ==> s[r] == c && Free(s[..r], c)
  {
    if s == [] then -1
    else if s[0] == c then 0
    else
      var r := IndexOf(s[1..], c);
      assert r >= 0 ==> s[..r + 1] == [s[0]] + s[1..][..r];
      if r < 0 then -1 else r + 1
  }

  lemma {:induction false} IndexOfFirst(a: string, c: char, b: string)
    requires Free(a, c)
    ensures IndexOf(a + [c] + b, c) == |a|
  {
    var s := a + [c] + b;
    if a != [] {
      assert s[1..] == a[1..] + [c] + b;
      IndexOfFirst(a[1..], c, b);
    }
  }

  /** `s.split(c)`; the result is never empty. */
  function Split(s: string, c: char): (parts: seq<string>)
    ensures |parts| >= 1
  {
    if s == [] then [""]
    else
      var rest := Split(s[1..], c);
      if s[0] == c then [""] + rest else [[s[0]] + rest[0]] + rest[1..]
  }

  /** `parts.join(c)`. */
  function Join(parts: seq<string>, c: char): string {
    if |parts| == 0 then ""
    else if |parts| == 1 then parts[0]
    else parts[0] + [c] + Join(parts[1..], c)
  }

  predicate AllFree(parts: seq<string>, c: char) {
    forall i :: 0 <= i < |parts| ==> Free(parts[i], c)
  }

  lemma {:induction false} SplitParts(s: string, c: char)
    ensures AllFree(Split(s, c), c)
  {
    if s != [] {
      SplitParts(s[1..], c);
    }
  }

  lemma {:induction false} JoinSplit(s: string, c: char)
    ensures Join(Split(s, c), c) == s
  {
    if s != [] {
      JoinSplit(s[1..], c);
      var rest := Split(s[1..], c);
      var parts := Split(s, c);
      if s[0] == c {
        assert parts[1..] == rest;
      } else {
        assert parts[1..] == rest[1..];
      }
      assert s == [s[0]] + s[1..];
    }
  }

  /** A separator-free part followed by the separator is the first part. */
  lemma {:induction false} SplitFirst(a: string, c: char, b: string)
    requires Free(a, c)
    ensures Split(a + [c] + b, c) == [a] + Split(b, c)
  {
    var s := a + [c] + b;
    if a == [] {
      assert s == [c] + b && s[1..] == b;
    } else {
      assert s[1..] == a[1..] + [c] + b;
      SplitFirst(a[1..], c, b);
      assert a == [a[0]] + a[1..];
    }
  }

  lemma {:induction false} SplitFree(a: string, c: char)
    requires Free(a, c)
    ensures Split(a, c) == [a]
  {
    if a != [] {
      SplitFree(a[1..], c);
      assert a == [a[0]] + a[1..];
    }
  }

  lemma {:induction false} SplitJoin(parts: seq<string>, c: char)
    requires |parts| >= 1 && AllFree(parts, c)
    ensures Split(Join(parts, c), c) == parts
  {
    if |parts| == 1 {
      SplitFree(parts[0], c);
    } else {
      SplitJoin(parts[1..], c);
      SplitFirst(parts[0], c, Join(parts[1..], c));
    }
  }

  // ----- two parts and a separator -----

  /** `b` ends in `c` and `b'`, and what stands before that extends `a` to `a'`. */
  ghost predicate Shifted(a: string, b: string, a': string, b': string, c: char) {
    exists x: string {:trigger a + [c] + x} :: a' == a + [c] + x && b == x + [c] + b'
  }

  lemma LongerIsShifted(a: string, b: string, a': string, b': string, c: char)
    requires |b| > |b'| && a + [c] + b == a' + [c] + b'
    ensures Shifted(a, b, a', b', c)
  {
    var s := a + [c] + b;
    var d := |b| - |b'| - 1;
    assert s[|a| + 1..] == b && s[|a'| + 1..] == b' && s[|a'|] == c;
    assert b[d] == c && b[d + 1..] == b';
    var x := b[..d];
    assert b == x + [c] + b';
    assert a' == s[..|a'|] == a + [c] + x;
  }

  lemma ShiftedSame(a: string, b: string, a': string, b': string, c: char)
    requires Shifted(a, b, a', b', c)
    ensures a + [c] + b == a' + [c] + b'
  {
    var x: string :| a' == a + [c] + x && b == x + [c] + b';
    assert a + [c] + (x + [c] + b') == (a + [c] + x) + [c] + b';
  }

  /** Two pairs joined by `c` give one text exactly when they are equal or one is the other shifted at a `c`. */
  lemma JoinsCollide(a: string, b: string, a': string, b': string, c: char)
    ensures a + [c] + b == a' + [c] + b' <==>
      (a == a' && b == b') || Shifted(a, b, a', b', c) || Shifted(a', b', a, b, c)
  {
    if a + [c] + b == a' + [c] + b' {
      var s := a + [c] + b;
      if |b| > |b'| {
        LongerIsShifted(a, b, a', b', c);
      } else if |b| < |b'| {
        LongerIsShifted(a', b', a, b, c);
      } else {
        assert s[..|a|] == a && s[..|a'|] == a' && s[|a| + 1..] == b && s[|a'| + 1..] == b';
      }
    }
    if Shifted(a, b, a', b', c) { ShiftedSame(a, b, a', b', c); }
    if Shifted(a', b', a, b, c) { ShiftedSame(a', b', a, b, c); }
  }

  lemma ShiftNeedsSeparator(a: string, b: string, a': string, b': string, c: char)
    requires Shifted(a, b, a', b', c)
    ensures !Free(a', c) && !Free(b, c)
  {
    var x: string :| a' == a + [c] + x && b == x + [c] + b';
    assert a'[|a|] == c && b[|x|] == c;
  }

  // ----- decimal numerals -----

  predicate IsDigit(c: char) { '0' <= c <= '9' }

  predicate AllDigits(s: string) {
    forall i :: 0 <= i < |s| ==> IsDigit(s[i])
  }

  function Digit(d: nat): (c: char)
    requires d < 10
    ensures IsDigit(c) && (c as int) - ('0' as int) == d
  {
    ('0' as int + d) as char
  }

  /** `n.toString()` for a non-negative integer. */
  function NatToString(n: nat): (s: string)
    ensures |s| >= 1 && AllDigits(s)
  {
    if n < 10 then [Digit(n)] else NatToString(n / 10) + [Digit(n % 10)]
  }

  /** The value of a string of decimal digits. */
  function DigitsValue(s: string): nat
    requires AllDigits(s)
  {
    if s == "" then 0
    else 10 * DigitsValue(s[..|s| - 1]) + (s[|s| - 1] as int - '0' as int)
  }

  lemma {:induction false} DigitsValueOfNat(n: nat)
    ensures DigitsValue(NatToString(n)) == n
    decreases n
  {
    if n >= 10 {
      DigitsValueOfNat(n / 10);
      var s := NatToString(n);
      assert s[..|s| - 1] == NatToString(n / 10);
    } else {
      assert NatToString(n)[..0] == "";
    }
  }

  /** The digits a numeral starts with. */
  function Digits(s: string): (d: string)
    ensures AllDigits(d) && d <= s
    ensures |d| < |s| ==> !IsDigit(s[|d|])
  {
    if s != "" && IsDigit(s[0]) then [s[0]] + Digits(s[1..]) else ""
  }

  lemma {:induction false} DigitsOf(n: string, rest: string)
    requires AllDigits(n) && (rest == "" || !IsDigit(rest[0]))
    ensures Digits(n + rest) == n
  {
    if n == "" {
      assert n + rest == rest;
    } else {
      assert (n + rest)[1..] == n[1..] + rest;
      DigitsOf(n[1..], rest);
    }
  }

  /** `n.toString()` for an integer: a minus sign, then the digits. */
  function IntToString(n: int): (s: string)
    ensures |s| >= 1
    ensures n < 0 <==> s[0] == '-'
  {
    if n < 0 then "-" + NatToString(-n) else NatToString(n)
  }

  /** The value of an optional minus sign followed by digits. */
  function SignedValue(s: string): int
    requires |s| >= 1
    requires AllDigits(if s[0] == '-' then s[1..] else s)
  {
    if s[0] == '-' then 0 - DigitsValue(s[1..]) as int else DigitsValue(s)
  }

  lemma SignedValueOfInt(n: int)
    ensures var s := IntToString(n); AllDigits(if s[0] == '-' then s[1..] else s) && SignedValue(s) == n
  {
    DigitsValueOfNat(if n < 0 then -n else n);
    if n < 0 {
      assert IntToString(n)[1..] == NatToString(-n);
    }
  }

  // ----- the order of Array.prototype.sort on strings -----

  /** `a < b` on strings: compare character by character, a prefix first. */
  predicate Below(a: string, b: string) {
    b != [] && (a == [] || a[0] < b[0] || (a[0] == b[0] && Below(a[1..], b[1..])))
  }

  lemma {:induction false} BelowTotal(a: string, b: string)
    ensures Below(a, b) || a == b || Below(b, a)
  {
    if a != [] && b != [] && a[0] == b[0] {
      BelowTotal(a[1..], b[1..]);
      assert a == [a[0]] + a[1..] && b == [b[0]] + b[1..];
    }
  }

  lemma {:induction false} BelowTransitive(a: string, b: string, c: string)
    requires Below(a, b) && Below(b, c)
    ensures Below(a, c)
  {
    if a != [] && a[0] == b[0] && b[0] == c[0] {
      BelowTransitive(a[1..], b[1..], c[1..]);
    }
  }

  /** The order of the strings: a proper prefix comes first, and else the first character that differs decides. */
  lemma {:induction false} BelowMeans(a: string, b: string)
    ensures Below(a, b) <==> a < b || exists k :: FirstDiffers(a, b, k) && a[k] < b[k]
  {
    if a != [] && b != [] && a[0] == b[0] {
      BelowMeans(a[1..], b[1..]);
      assert a == [a[0]] + a[1..] && b == [b[0]] + b[1..];
      assert a < b <==> a[1..] < b[1..];
      if k :| FirstDiffers(a, b, k) && a[k] < b[k] {
        assert FirstDiffers(a[1..], b[1..], k - 1) by {
          assert a[1..][..k - 1] == a[..k][1..] && b[1..][..k - 1] == b[..k][1..];
        }
      }
      if k :| FirstDiffers(a[1..], b[1..], k) && a[1..][k] < b[1..][k] {
        assert a[..k + 1] == [a[0]] + a[1..][..k] && b[..k + 1] == [b[0]] + b[1..][..k];
        assert FirstDiffers(a, b, k + 1);
      }
    } else if a != [] && b != [] {
      assert a[..0] == b[..0];
      assert FirstDiffers(a, b, 0);
    }
  }

  predicate FirstDiffers(a: string, b: string, k: int) {
    0 <= k < |a| && k < |b| && a[..k] == b[..k] && a[k] != b[k]
  }

  lemma {:induction false} BelowIrreflexive(a: string)
    ensures !Below(a, a)
  {
    if a != [] {
      BelowIrreflexive(a[1..]);
    }
  }
}
