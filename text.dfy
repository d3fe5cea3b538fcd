/**
 * The parts of java.lang.String, java.lang.Character and java.util.regex
 * that the engine relies on, stated over `string` = `seq<char>`.
 */
module Text {

  /** `Character.isWhitespace`: the Unicode space, line and paragraph separators
      other than the no-break spaces, plus the ASCII controls 9-13 and 28-31. */
  predicate IsWhitespace(c: char) {
    c == ' ' || ('\t' <= c <= '\r') || ('\U{1C}' <= c <= '\U{1F}')
    || c == '\U{1680}' || ('\U{2000}' <= c <= '\U{2006}') || ('\U{2008}' <= c <= '\U{200A}')
    || c == '\U{2028}' || c == '\U{2029}' || c == '\U{205F}' || c == '\U{3000}'
  }

  /** The regular-expression class `\s`: `[ \t\n\x0B\f\r]`. */
  predicate IsRegexSpace(c: char) {
    c == ' ' || ('\t' <= c <= '\r')
  }

  /** The characters the regular-expression `.` does not match. */
  predicate IsLineTerminator(c: char) {
    c == '\n' || c == '\r' || c == '\U{85}' || c == '\U{2028}' || c == '\U{2029}'
  }

  predicate IsDigit(c: char) {
    '0' <= c <= '9'
  }

  /** The regular-expression class `\w`: `[a-zA-Z_0-9]`. */
  predicate IsWordChar(c: char) {
    IsDigit(c) || ('a' <= c <= 'z') || ('A' <= c <= 'Z') || c == '_'
  }

  /** What `String.trim` removes from either end: every character up to U+0020. */
  predicate IsTrimmable(c: char) {
    c <= ' '
  }

  function TrimStart(s: string): (r: string)
    ensures |r| <= |s|
  {
    if s != [] && IsTrimmable(s[0]) then TrimStart(s[1..]) else s
  }

  /** Trimming the front keeps a suffix that starts with a kept character and drops only
      trimmable ones. */
  lemma {:induction false} TrimStartSpec(s: string)
    ensures var r := TrimStart(s);
      && r == s[|s| - |r|..] && (r == [] || !IsTrimmable(r[0]))
      && forall k :: 0 <= k < |s| - |r| ==> IsTrimmable(s[k])
    decreases |s|
  {
    if s != [] && IsTrimmable(s[0]) {
      TrimStartSpec(s[1..]);
      var r := TrimStart(s);
      assert s[1..][|s| - 1 - |r|..] == s[|s| - |r|..];
      forall k | 0 < k < |s| - |r| ensures IsTrimmable(s[k]) {
        assert s[k] == s[1..][k - 1];
      }
    }
  }

  function TrimEnd(s: string): (r: string)
    ensures |r| <= |s|
  {
    if s != [] && IsTrimmable(s[|s| - 1]) then TrimEnd(s[..|s| - 1]) else s
  }

  /** Trimming the back keeps a prefix that ends with a kept character and drops only
      trimmable ones. */
  lemma {:induction false} TrimEndSpec(s: string)
    ensures var r := TrimEnd(s);
      && r == s[..|r|] && (r == [] || !IsTrimmable(r[|r| - 1]))
      && forall k :: |r| <= k < |s| ==> IsTrimmable(s[k])
    decreases |s|
  {
    if s != [] && IsTrimmable(s[|s| - 1]) {
      TrimEndSpec(s[..|s| - 1]);
      var r := TrimEnd(s);
      assert s[..|s| - 1][..|r|] == s[..|r|];
      forall k | |r| <= k < |s| - 1 ensures IsTrimmable(s[k]) {
        assert s[k] == s[..|s| - 1][k];
      }
    }
  }

  predicate Blank(s: string) {
    forall k :: 0 <= k < |s| ==> IsTrimmable(s[k])
  }

  /** `String.trim`: the input with its blank prefix and blank suffix removed. */
  function Trim(s: string): string
  {
    TrimEnd(TrimStart(s))
  }

  /** What trimming keeps is a part of the input that neither begins nor ends with a
      trimmable character, and what it drops on either side is blank. */
  lemma TrimSound(s: string)
    ensures var r := Trim(s);
      && (r == [] || (!IsTrimmable(r[0]) && !IsTrimmable(r[|r| - 1])))
      && exists i :: OccursAt(s, r, i) && Blank(s[..i]) && Blank(s[i + |r|..])
  {
    var t := TrimStart(s);
    var r := TrimEnd(t);
    TrimStartSpec(s);
    TrimEndSpec(t);
    TrimStartBlank(s);
    TrimEndBlank(t);
    TrimSlice(s, t, r);
  }

  lemma TrimStartBlank(s: string)
    ensures Blank(s[..|s| - |TrimStart(s)|])
  {
    TrimStartSpec(s);
    var prefix := s[..|s| - |TrimStart(s)|];
    forall k | 0 <= k < |prefix| ensures IsTrimmable(prefix[k]) {
      assert prefix[k] == s[k];
    }
  }

  lemma TrimEndBlank(t: string)
    ensures Blank(t[|TrimEnd(t)|..])
  {
    TrimEndSpec(t);
    var r := TrimEnd(t);
    var suffix := t[|r|..];
    forall k | 0 <= k < |suffix| ensures IsTrimmable(suffix[k]) {
      assert suffix[k] == t[|r| + k];
    }
  }

  lemma TrimSlice(s: string, t: string, r: string)
    requires |t| <= |s| && t == s[|s| - |t|..] && Blank(s[..|s| - |t|])
    requires |r| <= |t| && r == t[..|r|] && Blank(t[|r|..])
    ensures OccursAt(s, r, |s| - |t|) && Blank(s[..|s| - |t|]) && Blank(s[|s| - |t| + |r|..])
    ensures r != [] ==> r[0] == t[0]
  {
    var i := |s| - |t|;
    assert OccursAt(s, r, i) by {
      assert t == s[i..];
      assert r == t[..|r|];
      assert s[i..][..|r|] == s[i..i + |r|];
    }
    assert s[i + |r|..] == t[|r|..];
  }

  lemma {:induction false} TrimStartFixed(s: string)
    requires s == [] || !IsTrimmable(s[0])
    ensures TrimStart(s) == s
  {
  }

  lemma {:induction false} TrimEndFixed(s: string)
    requires s == [] || !IsTrimmable(s[|s| - 1])
    ensures TrimEnd(s) == s
  {
  }

  /** Trimming twice is trimming once. */
  lemma TrimIdempotent(s: string)
    ensures Trim(Trim(s)) == Trim(s)
  {
    var r := Trim(s);
    TrimSound(s);
    TrimStartFixed(r);
    TrimEndFixed(r);
  }

  /** Trimming ignores a blank prefix. */
  lemma {:induction false} TrimBlankPrefix(a: string, b: string)
    requires Blank(a)
    ensures Trim(a + b) == Trim(b)
    decreases |a|
  {
    if a != [] {
      assert (a + b)[1..] == a[1..] + b;
      TrimBlankPrefix(a[1..], b);
    } else {
      assert a + b == b;
    }
  }

  /** `String.startsWith`. */
  predicate StartsWith(s: string, prefix: string) {
    |prefix| <= |s| && s[..|prefix|] == prefix
  }

  /** `sub` occurs in `s` starting at index `i`. */
  predicate OccursAt(s: string, sub: string, i: int) {
    0 <= i && i + |sub| <= |s| && s[i..i + |sub|] == sub
  }

  /** `String.contains`, by a scan from the left. */
  function Contains(s: string, sub: string): (b: bool)
    ensures b <==> exists i :: OccursAt(s, sub, i)
  {
    if OccursAt(s, sub, 0) then true
    else if |s| <= |sub| then
      assert forall i :: OccursAt(s, sub, i) ==> i == 0;
      false
    else
      var b := Contains(s[1..], sub);
      OccursInTail(s, sub);
      b
  }

  /** Dropping the first character shifts every occurrence but the one at 0 down by one. */
  lemma OccursInTail(s: string, sub: string)
    requires s != []
    ensures forall i :: OccursAt(s[1..], sub, i) ==> OccursAt(s, sub, i + 1)
    ensures forall i :: OccursAt(s, sub, i) ==> i == 0 || OccursAt(s[1..], sub, i - 1)
  {
    forall i | OccursAt(s[1..], sub, i) ensures OccursAt(s, sub, i + 1) {
      assert s[1..][i..i + |sub|] == s[i + 1..i + 1 + |sub|];
    }
    forall i | OccursAt(s, sub, i) && i != 0 ensures OccursAt(s[1..], sub, i - 1) {
      assert s[1..][i - 1..i - 1 + |sub|] == s[i..i + |sub|];
    }
  }

  /** Occurrence is transitive: a text inside a text inside `s` is inside `s`. */
  lemma OccursWithin(s: string, mid: string, sub: string, i: int, j: int)
    requires OccursAt(s, mid, i) && OccursAt(mid, sub, j)
    ensures OccursAt(s, sub, i + j)
  {
    forall k | 0 <= k < |sub| ensures s[i + j + k] == sub[k] {
      assert sub[k] == mid[j + k] && mid[j + k] == s[i + j + k];
    }
  }

  /** A string cannot contain a text holding a character the string lacks. */
  lemma MissingCharNotContained(s: string, sub: string, c: char)
    requires c in sub && c !in s
    ensures !Contains(s, sub)
  {
    assert forall i :: OccursAt(s, sub, i) ==> c in s[i..i + |sub|];
  }

  /** `String.indexOf(char)`: the first index holding `c`, or -1. */
  function IndexOf(s: string, c: char): (r: int)
    ensures -1 <= r < |s|
  {
    if s == [] then -1
    else if s[0] == c then 0
    else
      var r := IndexOf(s[1..], c);
      if r == -1 then -1 else r + 1
  }

  /** `indexOf` answers -1 exactly when the character is missing, and otherwise the
      index of its first occurrence. */
  lemma {:induction false} IndexOfSpec(s: string, c: char)
    ensures var r := IndexOf(s, c);
      && (r == -1 <==> c !in s)
      && (r >= 0 ==> s[r] == c && c !in s[..r])
    decreases |s|
  {
    if s != [] && s[0] != c {
      IndexOfSpec(s[1..], c);
      assert s == [s[0]] + s[1..];
      var r := IndexOf(s, c);
      if r >= 0 {
        assert s[..r] == [s[0]] + s[1..][..r - 1];
      }
    }
  }

  /** The first index holding `c` is where `indexOf` finds it. */
  lemma IndexOfFirst(s: string, c: char, i: int)
    requires 0 <= i < |s| && s[i] == c && c !in s[..i]
    ensures IndexOf(s, c) == i
  {
    IndexOfSpec(s, c);
    assert c in s by { assert s[i] == c; }
  }

  function DigitChar(d: nat): (c: char)
    requires d < 10
    ensures IsDigit(c) && c as int - '0' as int == d
  {
    ('0' as int + d) as char
  }

  /** `String.valueOf(int)` on the non-negative part: decimal digits, no leading zero. */
  function NatToString(n: nat): (s: string)
    ensures s != [] && (forall k :: 0 <= k < |s| ==> IsDigit(s[k]))
    ensures s[0] == '0' <==> n == 0
  {
    if n < 10 then [DigitChar(n)] else NatToString(n / 10) + [DigitChar(n % 10)]
  }

  /** The value a string of decimal digits denotes. */
  function DigitsValue(s: string): nat
    requires forall k :: 0 <= k < |s| ==> IsDigit(s[k])
  {
    if s == [] then 0
    else
      assert IsDigit(s[|s| - 1]);
      10 * DigitsValue(s[..|s| - 1]) + (s[|s| - 1] as int - '0' as int)
  }

  lemma {:induction false} NatToStringValue(n: nat)
    ensures DigitsValue(NatToString(n)) == n
  {
    if n >= 10 {
      var s := NatToString(n);
      assert s[..|s| - 1] == NatToString(n / 10);
      NatToStringValue(n / 10);
    }
  }

  /** `String.valueOf(int)`. */
  function IntToString(i: int): (s: string)
    ensures s != [] && (s[0] == '-' <==> i < 0)
    ensures forall k :: 0 <= k < |s| ==> IsDigit(s[k]) || (k == 0 && s[k] == '-')
    ensures i >= 0 ==> s == NatToString(i)
    ensures i < 0 ==> s == "-" + NatToString(-i)
  {
    if i < 0 then "-" + NatToString(-i) else NatToString(i)
  }

  lemma NegativeText(i: int)
    requires i < 0
    ensures IntToString(i)[1..] == NatToString(-i)
  {
    assert ("-" + NatToString(-i))[1..] == NatToString(-i);
  }

  /** Distinct integers are printed differently. */
  lemma IntToStringInjective(i: int, j: int)
    requires IntToString(i) == IntToString(j)
    ensures i == j
  {
    if i < 0 {
      NegativeText(i);
      NegativeText(j);
      NatToStringValue(-i);
      NatToStringValue(-j);
    } else {
      NatToStringValue(i);
      NatToStringValue(j);
    }
  }
}
