/**
 * What the two rule readers of `io/` share: the header `<namespace.name>` before a
 * rule, the removal command `>namespace.name<`, and the split of the text after a
 * header into a pattern and a replacement at the parenthesis that closes the first one.
 * The regular expressions are matched against the whole input, as `Matcher.matches` does.
 */
module RuleSyntax {
  import opened Wrappers
  import opened Text
  import opened Terms
  import opened Rules
  import opened TermParsing

  /** The three groups of a header match: namespace, name and the text after the header. */
  datatype Header = Header(namespace: string, name: string, rest: string)

  /** Every character is matched by `\s`. */
  predicate AllSpace(s: string) {
    forall k :: 0 <= k < |s| ==> IsRegexSpace(s[k])
  }

  /** Every character is matched by `.`. */
  predicate NoLineBreak(s: string) {
    forall k :: 0 <= k < |s| ==> !IsLineTerminator(s[k])
  }

  /** The end of the run of `\s` characters starting at `p`. */
  function SpaceRunEnd(s: string, p: int): (r: int)
    requires 0 <= p <= |s|
    ensures p <= r <= |s|
    decreases |s| - p
  {
    if p < |s| && IsRegexSpace(s[p]) then SpaceRunEnd(s, p + 1) else p
  }

  /** The run is made of `\s` characters and cannot be extended. */
  lemma {:induction false} SpaceRunEndSpec(s: string, p: int)
    requires 0 <= p <= |s|
    ensures var r := SpaceRunEnd(s, p);
      && (forall k :: p <= k < r ==> IsRegexSpace(s[k]))
      && (r == |s| || !IsRegexSpace(s[r]))
    decreases |s| - p
  {
    if p < |s| && IsRegexSpace(s[p]) {
      SpaceRunEndSpec(s, p + 1);
    }
  }

  /** `([^.]+)\.([^c]+)c` after the first character: the index of the first dot and of
      the first `close` after it, each group at least one character long. */
  function NameBounds(s: string, close: char): (r: Option<(int, int)>)
    ensures r.Some? ==> 0 < r.value.0 < r.value.1 < |s|
  {
    var d := IndexOf(s, '.');
    if d < 2 then None
    else
      var e := IndexOf(s[d + 1..], close);
      if e < 1 then None else Some((d, d + 1 + e))
  }

  lemma NameBoundsSound(s: string, close: char)
    requires NameBounds(s, close).Some?
    ensures var (d, g) := NameBounds(s, close).value;
      && 2 <= d && d + 1 < g < |s|
      && s[d] == '.' && '.' !in s[..d]
      && s[g] == close && close !in s[d + 1..g]
  {
    var d := IndexOf(s, '.');
    IndexOfSpec(s, '.');
    var e := IndexOf(s[d + 1..], close);
    IndexOfSpec(s[d + 1..], close);
    assert s[d + 1..][..e] == s[d + 1..d + 1 + e];
  }

  /** Where `(.+)`, or `(.*)` when `restRequired` is false, starts after the greedy `\s+`
      that begins at `p`: the end of the run of blanks, or its last blank when the run
      reaches the end of the text and the rest must not be empty. */
  function RestStart(s: string, p: int, restRequired: bool): (k: int)
    requires 0 <= p <= |s|
    ensures p - 1 <= k <= |s|
  {
    var w := SpaceRunEnd(s, p);
    if restRequired && w == |s| then w - 1 else w
  }

  /** `^<([^.]+)\.([^>]+)>\s+(.+)$` when `restRequired`, else `^<([^.]+)\.([^>]+)>\s+(.*)$`. */
  function MatchHeader(s: string, restRequired: bool): Option<Header>
  {
    match HeaderBounds(s, restRequired)
    case None => None
    case Some((d, g, k)) => Some(Header(s[1..d], s[d + 1..g], s[k..]))
  }

  /** Where the namespace, the name and the rest of a header match end or start: the dot,
      the `>` and the first character of the rest. */
  function HeaderBounds(s: string, restRequired: bool): (r: Option<(int, int, int)>)
    ensures r.Some? ==> 0 < r.value.0 < r.value.1 < r.value.2 <= |s|
  {
    if s == [] || s[0] != '<' then None
    else
      match NameBounds(s, '>')
      case None => None
      case Some((d, g)) =>
        var k := RestStart(s, g + 1, restRequired);
        if k <= g + 1 || !NoLineBreak(s[k..]) then None
        else Some((d, g, k))
  }

  /** The texts the header expression accepts, with `h` as its groups. */
  predicate HeaderForm(s: string, h: Header, spaces: string, restRequired: bool) {
    && s == "<" + h.namespace + "." + h.name + ">" + spaces + h.rest
    && h.namespace != [] && '.' !in h.namespace
    && h.name != [] && '>' !in h.name
    && spaces != [] && AllSpace(spaces)
    && NoLineBreak(h.rest) && (restRequired ==> h.rest != [])
  }

  /** `^>([^.]+)\.([^<]+)<\s*$`: the namespace and name of a removal command. */
  function MatchRemove(s: string): (r: Option<(string, string)>)
  {
    if s == [] || s[0] != '>' then None
    else
      match NameBounds(s, '<')
      case None => None
      case Some((d, g)) => if AllSpace(s[g + 1..]) then Some((s[1..d], s[d + 1..g])) else None
  }

  /** The texts the removal expression accepts, with `namespace` and `name` as its groups. */
  predicate RemoveForm(s: string, namespace: string, name: string, spaces: string) {
    && s == ">" + namespace + "." + name + "<" + spaces
    && namespace != [] && '.' !in namespace
    && name != [] && '<' !in name
    && AllSpace(spaces)
  }

  // ------------------------------------------------------------ the header expressions

  lemma Reassemble(s: string, d: int, g: int, k: int)
    requires 0 < d < g < k <= |s|
    ensures s == [s[0]] + s[1..d] + [s[d]] + s[d + 1..g] + [s[g]] + s[g + 1..k] + s[k..]
  {
    assert s == s[..1] + s[1..d] + s[d..d + 1] + s[d + 1..g] + s[g..g + 1] + s[g + 1..k] + s[k..];
  }

  /** `indexOf` finds a character right after a text that lacks it. */
  lemma IndexOfAfter(a: string, c: char, b: string)
    requires c !in a
    ensures IndexOf(a + [c] + b, c) == |a|
  {
    assert (a + [c] + b)[..|a|] == a;
    IndexOfFirst(a + [c] + b, c, |a|);
  }

  /** The first dot and the first `close` after it are where the two groups end. */
  lemma NameBoundsAt(s: string, close: char, d: int, g: int)
    requires 2 <= d && d + 1 < g < |s|
    requires s[d] == '.' && '.' !in s[..d] && s[g] == close && close !in s[d + 1..g]
    ensures NameBounds(s, close) == Some((d, g))
  {
    IndexOfFirst(s, '.', d);
    assert s[d + 1..][..g - d - 1] == s[d + 1..g];
    IndexOfFirst(s[d + 1..], close, g - d - 1);
  }

  lemma NameBoundsOf(s: string, open: char, namespace: string, name: string, close: char, tail: string)
    requires s == [open] + namespace + "." + name + [close] + tail
    requires namespace != [] && '.' !in namespace && open != '.' && name != [] && close !in name
    ensures NameBounds(s, close) == Some((|namespace| + 1, |namespace| + 2 + |name|))
    ensures s[1..|namespace| + 1] == namespace && s[|namespace| + 2..|namespace| + 2 + |name|] == name
  {
    var d := |namespace| + 1;
    var g := d + 1 + |name|;
    assert s[..d] == [open] + namespace;
    assert s[d + 1..g] == name;
    NameBoundsAt(s, close, d, g);
    assert s[1..d] == namespace;
  }

  /** The groups between the delimiters the header function finds are what the
      expression's groups may hold. */
  lemma HeaderGroups(s: string, d: int, g: int, k: int, restRequired: bool)
    requires s != [] && s[0] == '<' && 2 <= d && d + 1 < g && g + 1 < k <= |s|
    requires s[d] == '.' && '.' !in s[..d] && s[g] == '>' && '>' !in s[d + 1..g]
    requires forall i :: g + 1 <= i < k ==> IsRegexSpace(s[i])
    requires NoLineBreak(s[k..]) && (restRequired ==> k < |s|)
    ensures HeaderForm(s, Header(s[1..d], s[d + 1..g], s[k..]), s[g + 1..k], restRequired)
  {
    Reassemble(s, d, g, k);
    var namespace := s[1..d];
    assert forall j :: 0 <= j < |namespace| ==> namespace[j] == s[..d][j + 1];
    var spaces := s[g + 1..k];
    assert forall j :: 0 <= j < |spaces| ==> spaces[j] == s[g + 1 + j];
  }

  /** What the header function finds is a way the expression matches. */
  lemma MatchHeaderSound(s: string, restRequired: bool)
    requires MatchHeader(s, restRequired).Some?
    ensures exists spaces :: HeaderForm(s, MatchHeader(s, restRequired).value, spaces, restRequired)
  {
    var (d, g, k) := HeaderBounds(s, restRequired).value;
    HeaderBoundsSound(s, restRequired);
    NameBoundsSound(s, '>');
    RestStartSpec(s, g + 1, restRequired);
    HeaderGroups(s, d, g, k, restRequired);
    MatchHeaderOf(s, restRequired, d, g, k);
  }

  /** The namespace and name a header match gives are non-empty, the namespace without
      dots and the name without `>`. */
  lemma MatchHeaderNames(s: string, restRequired: bool)
    requires MatchHeader(s, restRequired).Some?
    ensures var h := MatchHeader(s, restRequired).value;
      h.namespace != [] && '.' !in h.namespace && h.name != [] && '>' !in h.name
  {
    var (d, g, k) := HeaderBounds(s, restRequired).value;
    HeaderBoundsSound(s, restRequired);
    NameBoundsSound(s, '>');
    MatchHeaderOf(s, restRequired, d, g, k);
    NameGroups(s, d, g, '>');
  }

  /** The groups between the delimiters `NameBounds` finds lack those delimiters. */
  lemma NameGroups(s: string, d: int, g: int, close: char)
    requires 2 <= d && d + 1 < g < |s| && '.' !in s[..d] && close !in s[d + 1..g]
    ensures s[1..d] != [] && '.' !in s[1..d] && s[d + 1..g] != [] && close !in s[d + 1..g]
  {
    var namespace := s[1..d];
    assert forall j :: 0 <= j < |namespace| ==> namespace[j] == s[..d][j + 1];
  }

  /** The namespace and name a removal match gives are non-empty, the namespace without
      dots and the name without `<`. */
  lemma MatchRemoveNames(s: string)
    requires MatchRemove(s).Some?
    ensures var (namespace, name) := MatchRemove(s).value;
      namespace != [] && '.' !in namespace && name != [] && '<' !in name
  {
    var (d, g) := NameBounds(s, '<').value;
    NameBoundsSound(s, '<');
    NameGroups(s, d, g, '<');
  }

  lemma HeaderBoundsSound(s: string, restRequired: bool)
    requires HeaderBounds(s, restRequired).Some?
    ensures var (d, g, k) := HeaderBounds(s, restRequired).value;
      && s != [] && s[0] == '<' && NameBounds(s, '>') == Some((d, g))
      && k == RestStart(s, g + 1, restRequired) && g + 1 < k && NoLineBreak(s[k..])
  {
    assert NameBounds(s, '>').Some?;
  }

  lemma MatchHeaderOf(s: string, restRequired: bool, d: int, g: int, k: int)
    requires HeaderBounds(s, restRequired) == Some((d, g, k))
    ensures MatchHeader(s, restRequired) == Some(Header(s[1..d], s[d + 1..g], s[k..]))
  {
  }

  /** A run of `\s` from `p` to `j` is part of the longest one. */
  lemma {:induction false} RunCovers(s: string, p: int, j: int)
    requires 0 <= p <= j <= |s| && forall i :: p <= i < j ==> IsRegexSpace(s[i])
    ensures j <= SpaceRunEnd(s, p)
    decreases j - p
  {
    if p < j {
      RunCovers(s, p + 1, j);
    }
  }

  /** The rest group starts after blanks only, and is not empty when it must not be. */
  lemma RestStartSpec(s: string, p: int, restRequired: bool)
    requires 0 <= p <= |s|
    ensures var k := RestStart(s, p, restRequired);
      && (forall i :: p <= i < k ==> IsRegexSpace(s[i]))
      && (restRequired ==> k < |s|)
  {
    SpaceRunEndSpec(s, p);
  }

  /** Trimming cannot tell where in a run of blanks a text starts. */
  lemma TrimBlankRun(s: string, j: int, k: int)
    requires 0 <= j <= k <= |s| && forall i :: j <= i < k ==> IsRegexSpace(s[i])
    ensures Trim(s[j..]) == Trim(s[k..])
  {
    var blanks := s[j..k];
    assert Blank(blanks) by {
      assert forall i :: 0 <= i < |blanks| ==> blanks[i] == s[j + i];
    }
    assert s[j..] == blanks + s[k..];
    TrimBlankPrefix(blanks, s[k..]);
  }

  /** Blanks from `p` to `j`, then a rest: the greedy match starts its rest group within
      or right after the blanks, which trimming cannot tell apart. */
  lemma RestAfterBlanks(s: string, p: int, j: int, restRequired: bool)
    requires 0 <= p < j <= |s| && j <= SpaceRunEnd(s, p)
    requires NoLineBreak(s[j..]) && (restRequired ==> j < |s|)
    ensures p < RestStart(s, p, restRequired) && NoLineBreak(s[RestStart(s, p, restRequired)..])
    ensures Trim(s[RestStart(s, p, restRequired)..]) == Trim(s[j..])
  {
    var k := RestStart(s, p, restRequired);
    SpaceRunEndSpec(s, p);
    assert forall i :: 0 <= i < |s| - k ==> s[k..][i] == s[j..][i + k - j];
    TrimBlankRun(s, j, k);
  }

  /** The header function on a text laid out as the expression wants it. */
  lemma HeaderBoundsAt(s: string, d: int, g: int, j: int, restRequired: bool)
    requires s != [] && s[0] == '<' && NameBounds(s, '>') == Some((d, g)) && g + 1 < j <= |s|
    requires j <= SpaceRunEnd(s, g + 1)
    requires NoLineBreak(s[j..]) && (restRequired ==> j < |s|)
    ensures HeaderBounds(s, restRequired) == Some((d, g, RestStart(s, g + 1, restRequired)))
  {
    RestAfterBlanks(s, g + 1, j, restRequired);
    HeaderBoundsUnfold(s, d, g, restRequired);
  }

  lemma HeaderBoundsUnfold(s: string, d: int, g: int, restRequired: bool)
    requires s != [] && s[0] == '<' && NameBounds(s, '>') == Some((d, g))
    requires g + 1 < RestStart(s, g + 1, restRequired) && NoLineBreak(s[RestStart(s, g + 1, restRequired)..])
    ensures HeaderBounds(s, restRequired) == Some((d, g, RestStart(s, g + 1, restRequired)))
  {
  }

  lemma MatchHeaderAt(s: string, d: int, g: int, j: int, restRequired: bool)
    requires s != [] && s[0] == '<' && NameBounds(s, '>') == Some((d, g)) && g + 1 < j <= |s|
    requires j <= SpaceRunEnd(s, g + 1)
    requires NoLineBreak(s[j..]) && (restRequired ==> j < |s|)
    ensures MatchHeader(s, restRequired) == Some(Header(s[1..d], s[d + 1..g], s[RestStart(s, g + 1, restRequired)..]))
  {
    HeaderBoundsAt(s, d, g, j, restRequired);
  }

  lemma HeaderFields(m: Option<Header>, h: Header, namespace: string, name: string, rest: string, text: string)
    requires m == Some(Header(namespace, name, rest))
    requires namespace == h.namespace && name == h.name && Trim(rest) == Trim(text) && text == h.rest
    ensures m.Some? && m.value.namespace == h.namespace && m.value.name == h.name
    ensures Trim(m.value.rest) == Trim(h.rest)
  {
  }

  lemma MatchHeaderFields(s: string, d: int, g: int, j: int, restRequired: bool, h: Header)
    requires s != [] && s[0] == '<' && NameBounds(s, '>') == Some((d, g)) && g + 1 < j <= |s|
    requires j <= SpaceRunEnd(s, g + 1)
    requires NoLineBreak(s[j..]) && (restRequired ==> j < |s|)
    requires s[1..d] == h.namespace && s[d + 1..g] == h.name && s[j..] == h.rest
    ensures var m := MatchHeader(s, restRequired);
      m.Some? && m.value.namespace == h.namespace && m.value.name == h.name
    ensures Trim(MatchHeader(s, restRequired).value.rest) == Trim(h.rest)
  {
    MatchHeaderAt(s, d, g, j, restRequired);
    RestAfterBlanks(s, g + 1, j, restRequired);
    var k := RestStart(s, g + 1, restRequired);
    HeaderFields(MatchHeader(s, restRequired), h, s[1..d], s[d + 1..g], s[k..], s[j..]);
  }

  /** Where the groups of a text the header expression accepts begin and end. */
  lemma HeaderLayout(s: string, h: Header, spaces: string, restRequired: bool)
    requires HeaderForm(s, h, spaces, restRequired)
    ensures var d := |h.namespace| + 1; var g := d + 1 + |h.name|; var j := g + 1 + |spaces|;
      && s[0] == '<' && s[d] == '.' && '.' !in s[..d] && s[g] == '>' && '>' !in s[d + 1..g]
      && j <= |s| && (forall i :: g + 1 <= i < j ==> IsRegexSpace(s[i]))
      && s[1..d] == h.namespace && s[d + 1..g] == h.name && s[j..] == h.rest
  {
    var d := |h.namespace| + 1;
    var g := d + 1 + |h.name|;
    var j := g + 1 + |spaces|;
    assert s[..d] == "<" + h.namespace;
    assert s[1..d] == h.namespace;
    assert s[d + 1..g] == h.name;
    assert s[g + 1..j] == spaces;
    assert s[j..] == h.rest;
  }

  /** Every way the expression matches has the groups the header function finds, up to
      blanks moving between `\s+` and the rest, which trimming removes. */
  lemma MatchHeaderComplete(s: string, h: Header, spaces: string, restRequired: bool)
    requires HeaderForm(s, h, spaces, restRequired)
    ensures var m := MatchHeader(s, restRequired);
      m.Some? && m.value.namespace == h.namespace && m.value.name == h.name
    ensures Trim(MatchHeader(s, restRequired).value.rest) == Trim(h.rest)
  {
    HeaderLayout(s, h, spaces, restRequired);
    var d := |h.namespace| + 1;
    var g := d + 1 + |h.name|;
    var j := g + 1 + |spaces|;
    NameBoundsAt(s, '>', d, g);
    RunCovers(s, g + 1, j);
    MatchHeaderFields(s, d, g, j, restRequired, h);
  }

  /** The removal function finds the groups of a way the expression matches. */
  lemma MatchRemoveSound(s: string)
    requires MatchRemove(s).Some?
    ensures exists spaces :: RemoveForm(s, MatchRemove(s).value.0, MatchRemove(s).value.1, spaces)
  {
    var (d, g) := NameBounds(s, '<').value;
    NameBoundsSound(s, '<');
    var namespace := s[1..d];
    assert '.' !in namespace by {
      assert forall j :: 0 <= j < |namespace| ==> namespace[j] == s[..d][j + 1];
    }
    Reassemble(s, d, g, |s|);
    assert s[|s|..] == [];
    assert RemoveForm(s, namespace, s[d + 1..g], s[g + 1..]);
  }

  /** The removal expression has only one way to match, and the function finds it. */
  lemma MatchRemoveComplete(s: string, namespace: string, name: string, spaces: string)
    requires RemoveForm(s, namespace, name, spaces)
    ensures MatchRemove(s) == Some((namespace, name))
  {
    assert s == ['>'] + namespace + "." + name + ['<'] + spaces;
    NameBoundsOf(s, '>', namespace, name, '<', spaces);
    assert s[|namespace| + 3 + |name|..] == spaces;
  }

  // ------------------------------------------------------------ parenthesis depth

  function Delta(c: char): int {
    if c == '(' then 1 else if c == ')' then -1 else 0
  }

  /** Opening minus closing parentheses in `s`: the `depth` counter after scanning `s`. */
  function Depth(s: string): int {
    if s == [] then 0 else Depth(s[..|s| - 1]) + Delta(s[|s| - 1])
  }

  /** The parenthesis at the start of `s` is closed by the one at index `i`. */
  predicate ClosesAt(s: string, i: int) {
    0 <= i < |s| && s[i] == ')' && Depth(s[..i + 1]) == 0
  }

  /** The first index from `from` on where the depth returns to zero at a `)`. */
  function FirstClose(s: string, from: nat): (r: Option<nat>)
    requires from <= |s|
    ensures r.Some? ==> from <= r.value && ClosesAt(s, r.value)
    ensures forall j :: from <= j < (if r.Some? then r.value else |s|) ==> !ClosesAt(s, j)
    decreases |s| - from
  {
    if from == |s| then None
    else if ClosesAt(s, from) then Some(from)
    else FirstClose(s, from + 1)
  }

  lemma {:induction false} FirstCloseIs(s: string, from: nat, i: nat)
    requires from <= i && ClosesAt(s, i)
    requires forall j :: from <= j < i ==> !ClosesAt(s, j)
    ensures FirstClose(s, from) == Some(i)
    decreases i - from
  {
    if from < i {
      FirstCloseIs(s, from + 1, i);
    }
  }

  /** A text that opens with a parenthesis which never closes stays nested to its end. */
  lemma {:induction false} OpenStaysOpen(s: string, n: nat)
    requires 1 <= n <= |s| && s[0] == '('
    requires forall j :: 0 <= j < n ==> !ClosesAt(s, j)
    ensures Depth(s[..n]) > 0
    decreases n
  {
    var prefix := s[..n];
    assert prefix[..n - 1] == s[..n - 1] && prefix[n - 1] == s[n - 1];
    assert Depth(prefix) == Depth(s[..n - 1]) + Delta(s[n - 1]);
    if n == 1 {
      assert s[..0] == [];
    } else {
      OpenStaysOpen(s, n - 1);
      assert !ClosesAt(s, n - 1);
    }
  }

  // ------------------------------------------------------------ the split

  /** What a reader says when the split fails, and whether it refuses an empty
      replacement after a parenthesised pattern. */
  datatype Dialect = Dialect(unbalanced: string, missingReplacement: string, refusesEmpty: bool)

  /** `parsePatternAndReplacement` on the trimmed text after the header: a pattern that
      starts with `(` ends at the parenthesis closing it, any other ends at the first
      space; the replacement is the trimmed remainder. */
  function SplitPattern(rest: string, dialect: Dialect): Result<(string, string)>
  {
    if StartsWith(rest, "(") then
      match FirstClose(rest, 0)
      case None => Err(IllegalArgument(dialect.unbalanced))
      case Some(i) =>
        var replacement := Trim(rest[i + 1..]);
        if dialect.refusesEmpty && replacement == [] then Err(IllegalArgument(dialect.missingReplacement))
        else Ok((rest[..i + 1], replacement))
    else
      var space := IndexOf(rest, ' ');
      if space == -1 then Err(IllegalArgument(dialect.missingReplacement))
      else Ok((rest[..space], Trim(rest[space + 1..])))
  }

  /** The split loses nothing but blanks: the pattern is a prefix of the text and the
      replacement is the trimmed remainder. A parenthesised pattern is the shortest prefix
      at whose end the first parenthesis closes; any other pattern is followed by the
      first space. */
  lemma SplitPatternParts(rest: string, dialect: Dialect)
    requires SplitPattern(rest, dialect).Ok?
    ensures StartsWith(rest, SplitPattern(rest, dialect).value.0)
    ensures Trim(rest[|SplitPattern(rest, dialect).value.0|..]) == SplitPattern(rest, dialect).value.1
    ensures StartsWith(rest, "(") ==> var n := |SplitPattern(rest, dialect).value.0|;
      n > 0 && ClosesAt(rest, n - 1) && forall j :: 0 <= j < n - 1 ==> !ClosesAt(rest, j)
    ensures !StartsWith(rest, "(") ==> var n := |SplitPattern(rest, dialect).value.0|;
      n < |rest| && rest[n] == ' ' && ' ' !in rest[..n]
  {
    if !StartsWith(rest, "(") {
      var space := IndexOf(rest, ' ');
      IndexOfSpec(rest, ' ');
      assert rest[space..] == " " + rest[space + 1..];
      TrimBlankPrefix(" ", rest[space + 1..]);
    }
  }

  /** The split fails with one of the dialect's two messages only. */
  lemma SplitPatternFailures(rest: string, dialect: Dialect)
    ensures SplitPattern(rest, dialect).Err? ==>
      SplitPattern(rest, dialect).failure in {IllegalArgument(dialect.unbalanced), IllegalArgument(dialect.missingReplacement)}
  {
  }

  /** `parsePatternAndReplacement`, with its counter loop. */
  method SplitAtClose(rest: string, dialect: Dialect) returns (r: Result<(string, string)>)
    ensures r == SplitPattern(rest, dialect)
  {
    if StartsWith(rest, "(") {
      var depth := 0;
      var i := 0;
      while i < |rest|
        invariant 0 <= i <= |rest|
        invariant depth == Depth(rest[..i])
        invariant forall j :: 0 <= j < i ==> !ClosesAt(rest, j)
        decreases |rest| - i
      {
        assert rest[..i + 1][..i] == rest[..i];
        var c := rest[i];
        if c == '(' {
          depth := depth + 1;
        } else if c == ')' {
          depth := depth - 1;
          if depth == 0 {
            break;
          }
        }
        i := i + 1;
      }
      if i == |rest| {
        // without `break` the scan ends still nested
        assert rest[..i] == rest;
        OpenStaysOpen(rest, i);
      }
      if depth != 0 {
        return Err(IllegalArgument(dialect.unbalanced));
      }
      FirstCloseIs(rest, 0, i);
      var replacement := Trim(rest[i + 1..]);
      if dialect.refusesEmpty && replacement == [] {
        return Err(IllegalArgument(dialect.missingReplacement));
      }
      r := Ok((rest[..i + 1], replacement));
    } else {
      var space := IndexOf(rest, ' ');
      if space == -1 {
        return Err(IllegalArgument(dialect.missingReplacement));
      }
      r := Ok((rest[..space], Trim(rest[space + 1..])));
    }
  }

  // ------------------------------------------------------------ printed terms are balanced

  lemma {:induction false} DepthAppend(a: string, b: string)
    ensures Depth(a + b) == Depth(a) + Depth(b)
    decreases |b|
  {
    if b == [] {
      assert a + b == a;
    } else {
      assert (a + b)[..|a + b| - 1] == a + b[..|b| - 1];
      DepthAppend(a, b[..|b| - 1]);
    }
  }

  /** Never below the starting depth, and back at it at the end. */
  predicate Balanced(s: string) {
    Depth(s) == 0 && forall k :: 0 <= k <= |s| ==> Depth(s[..k]) >= 0
  }

  lemma {:induction false} FlatDepth(v: string)
    requires forall k :: 0 <= k < |v| ==> v[k] != '(' && v[k] != ')'
    ensures Depth(v) == 0
    decreases |v|
  {
    if v != [] {
      FlatDepth(v[..|v| - 1]);
    }
  }

  lemma FlatBalanced(v: string)
    requires forall k :: 0 <= k < |v| ==> v[k] != '(' && v[k] != ')'
    ensures Balanced(v)
  {
    FlatDepth(v);
    forall k | 0 <= k <= |v| ensures Depth(v[..k]) >= 0 {
      FlatDepth(v[..k]);
    }
  }

  lemma BalancedConcat(a: string, b: string)
    requires Balanced(a) && Balanced(b)
    ensures Balanced(a + b)
  {
    DepthAppend(a, b);
    forall k | 0 <= k <= |a + b| ensures Depth((a + b)[..k]) >= 0 {
      if k <= |a| {
        assert (a + b)[..k] == a[..k];
      } else {
        assert (a + b)[..k] == a + b[..k - |a|];
        DepthAppend(a, b[..k - |a|]);
      }
    }
  }

  /** Inside parentheses around a balanced text the depth stays positive until the end. */
  lemma WrappedDepth(b: string, k: nat)
    requires Balanced(b) && 1 <= k <= |b| + 1
    ensures Depth(("(" + b + ")")[..k]) == 1 + Depth(b[..k - 1])
  {
    assert ("(" + b + ")")[..k] == "(" + b[..k - 1];
    DepthAppend("(", b[..k - 1]);
    assert "("[..0] == [];
  }

  lemma WrappedClose(b: string)
    requires Balanced(b)
    ensures Depth("(" + b + ")") == 0
  {
    var w := "(" + b + ")";
    assert w[..|w| - 1] == "(" + b;
    DepthAppend("(", b);
    assert "("[..0] == [];
  }

  lemma WrappedBalanced(b: string)
    requires Balanced(b)
    ensures Balanced("(" + b + ")")
  {
    var w := "(" + b + ")";
    WrappedClose(b);
    forall k | 0 <= k <= |w| ensures Depth(w[..k]) >= 0 {
      if k == 0 {
        assert w[..k] == [];
      } else if k == |w| {
        assert w[..k] == w;
      } else {
        WrappedDepth(b, k);
      }
    }
  }

  /** The parenthesis opening `(b)` closes at its last character and nowhere before. */
  lemma WrappedCloses(b: string, rest: string)
    requires Balanced(b)
    ensures ClosesAt("(" + b + ")" + rest, |b| + 1)
    ensures forall j :: 0 <= j <= |b| ==> !ClosesAt("(" + b + ")" + rest, j)
  {
    var w := "(" + b + ")";
    var s := w + rest;
    WrappedClose(b);
    assert s[..|b| + 2] == w;
    forall j | 0 <= j <= |b| ensures !ClosesAt(s, j) {
      assert s[..j + 1] == w[..j + 1];
      WrappedDepth(b, j + 1);
    }
  }

  lemma {:induction false} PrintedBalanced(t: Term)
    requires Readable(t)
    ensures Balanced(ToString(t))
    decreases t, 1
  {
    match t
    case Atom(v) =>
      FlatBalanced(v);
    case List(es) =>
      JoinedBalanced(es);
      WrappedBalanced(JoinTerms(es));
  }

  lemma {:induction false} JoinedBalanced(es: seq<Term>)
    requires AllReadable(es)
    ensures Balanced(JoinTerms(es))
    decreases es, 0
  {
    if es == [] {
      assert JoinTerms(es) == [];
    } else if |es| == 1 {
      PrintedBalanced(es[0]);
    } else {
      PrintedBalanced(es[0]);
      JoinedBalanced(es[1..]);
      FlatBalanced(" ");
      BalancedConcat(ToString(es[0]), " ");
      BalancedConcat(ToString(es[0]) + " ", JoinTerms(es[1..]));
    }
  }

  /** A printed readable pattern, a space and a replacement split back into the two texts. */
  lemma SplitPrinted(t: Term, text: string, dialect: Dialect)
    requires Readable(t) && text != [] && !IsTrimmable(text[0]) && !IsTrimmable(text[|text| - 1])
    ensures SplitPattern(ToString(t) + " " + text, dialect) == Ok((ToString(t), text))
  {
    var p := ToString(t);
    var s := p + " " + text;
    FirstCharOfReadable(t);
    TrimStartFixed(text);
    TrimEndFixed(text);
    assert s[0] == p[0];
    if t.Atom? {
      assert ' ' !in p by {
        assert forall k :: 0 <= k < |p| ==> IsAtomChar(p[k]);
      }
      assert s[..|p|] == p;
      IndexOfFirst(s, ' ', |p|);
      assert s[|p| + 1..] == text;
    } else {
      var b := JoinTerms(t.elements);
      JoinedBalanced(t.elements);
      assert s == "(" + b + ")" + (" " + text);
      WrappedCloses(b, " " + text);
      FirstCloseIs(s, 0, |b| + 1);
      assert s[..|p|] == p;
      assert s[|p|..] == " " + text;
      assert (" " + text)[1..] == text;
    }
  }

  // ------------------------------------------------------------ printed rules

  /** A rule whose `toString`, `<namespace.name> pattern replacement`, reads back as itself. */
  predicate Writable(r: Rule) {
    && r.namespace != [] && '.' !in r.namespace && ' ' !in r.namespace
    && r.name != [] && '>' !in r.name && ' ' !in r.name
    && Readable(r.pattern) && Readable(r.replacement)
    && NoLineBreak(ToString(r.pattern)) && NoLineBreak(ToString(r.replacement))
  }

  /** The header of a printed rule gives back its namespace, its name, and its pattern and
      replacement texts; the printed rule is already trimmed. */
  lemma ReadRuleHeader(r: Rule, restRequired: bool)
    requires Writable(r)
    ensures Trim(RuleText(r)) == RuleText(r)
    ensures MatchHeader(RuleText(r), restRequired).Some?
    ensures MatchHeader(RuleText(r), restRequired).value.namespace == r.namespace
    ensures MatchHeader(RuleText(r), restRequired).value.name == r.name
    ensures Trim(MatchHeader(RuleText(r), restRequired).value.rest)
         == ToString(r.pattern) + " " + ToString(r.replacement)
  {
    var s := RuleText(r);
    var body := ToString(r.pattern) + " " + ToString(r.replacement);
    RuleTextTrimmed(r);
    PrintedBody(r.pattern, r.replacement);
    assert s == "<" + r.namespace + "." + r.name + ">" + " " + body;
    MatchHeaderComplete(s, Header(r.namespace, r.name, body), " ", restRequired);
  }

  /** A printed rule neither begins nor ends with a blank. */
  lemma RuleTextTrimmed(r: Rule)
    requires Readable(r.replacement)
    ensures Trim(RuleText(r)) == RuleText(r)
  {
    var s := RuleText(r);
    FirstCharOfReadable(r.replacement);
    assert s[|s| - 1] == ToString(r.replacement)[|ToString(r.replacement)| - 1];
    TrimStartFixed(s);
    TrimEndFixed(s);
  }

  /** The pattern and replacement texts of a printed rule, with the space between them:
      a text without line breaks that trimming leaves alone. */
  lemma PrintedBody(pattern: Term, replacement: Term)
    requires Readable(pattern) && Readable(replacement)
    requires NoLineBreak(ToString(pattern)) && NoLineBreak(ToString(replacement))
    ensures var body := ToString(pattern) + " " + ToString(replacement);
      body != [] && NoLineBreak(body) && Trim(body) == body
  {
    var p := ToString(pattern);
    var q := ToString(replacement);
    var body := p + " " + q;
    FirstCharOfReadable(pattern);
    FirstCharOfReadable(replacement);
    assert NoLineBreak(body) by {
      assert forall k :: 0 <= k < |p| ==> body[k] == p[k];
      assert forall k :: |p| < k < |body| ==> body[k] == q[k - |p| - 1];
    }
    assert body[0] == p[0] && body[|body| - 1] == q[|q| - 1];
    TrimStartFixed(body);
    TrimEndFixed(body);
  }
}
