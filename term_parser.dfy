/**
 * The S-expression reader of `io/TermParser.java`: a cursor over the trimmed input
 * reads one term, a parenthesised list of whitespace-separated terms or a maximal run
 * of other characters; whatever follows the first term is not looked at.
 */
module TermParsing {
  import opened Wrappers
  import opened Text
  import opened Terms
  import opened RuleMatcher

  /** A term read, and the position after it. */
  datatype Parsed = Parsed(term: Term, next: int)

  /** The characters an atom is made of. */
  predicate IsAtomChar(c: char) {
    !IsWhitespace(c) && c != '(' && c != ')'
  }

  // ------------------------------------------------------------ the specification

  /** `skipWhitespace`: the first position from `p` on that holds no whitespace. */
  function SkipWs(s: string, p: int): (r: int)
    requires 0 <= p <= |s|
    ensures p <= r <= |s|
    ensures forall k :: p <= k < r ==> IsWhitespace(s[k])
    ensures r == |s| || !IsWhitespace(s[r])
    decreases |s| - p
  {
    if p < |s| && IsWhitespace(s[p]) then SkipWs(s, p + 1) else p
  }

  /** The end of the run of atom characters starting at `p`. */
  function AtomEnd(s: string, p: int): (r: int)
    requires 0 <= p <= |s|
    ensures p <= r <= |s|
    ensures forall k :: p <= k < r ==> IsAtomChar(s[k])
    ensures r == |s| || !IsAtomChar(s[r])
    decreases |s| - p
  {
    if p < |s| && IsAtomChar(s[p]) then AtomEnd(s, p + 1) else p
  }

  /** `expect`: the character `c` at `p`, or an error naming the position. */
  function ExpectAt(s: string, p: int, c: char): (r: Result<int>)
    requires 0 <= p <= |s|
    ensures r.Ok? <==> p < |s| && s[p] == c
    ensures r.Ok? ==> r.value == p + 1
  {
    if p >= |s| || s[p] != c then Err(IllegalArgument("Expected '" + [c] + "' at position " + NatToString(p)))
    else Ok(p + 1)
  }

  /** `parseTerm` from position `p`. */
  function TermAt(s: string, p: int): (r: Result<Parsed>)
    requires 0 <= p <= |s|
    ensures r.Ok? ==> p < r.value.next <= |s|
    decreases |s| - p, 1
  {
    var q := SkipWs(s, p);
    if q >= |s| then Err(IllegalArgument("Unexpected end of input"))
    else if s[q] == '(' then ListAt(s, q)
    else AtomAt(s, q)
  }

  /** `parseList` from position `p`. */
  function ListAt(s: string, p: int): (r: Result<Parsed>)
    requires 0 <= p <= |s|
    ensures r.Ok? ==> p < r.value.next <= |s|
    decreases |s| - p, 0
  {
    match ExpectAt(s, p, '(')
    case Err(f) => Err(f)
    case Ok(q) => ElementsAt(s, SkipWs(s, q), [])
  }

  /** The loop of `parseList` at position `p`, with the elements read so far. */
  function ElementsAt(s: string, p: int, elements: seq<Term>): (r: Result<Parsed>)
    requires 0 <= p <= |s|
    ensures r.Ok? ==> p < r.value.next <= |s|
    decreases |s| - p, 2
  {
    if p < |s| && s[p] != ')' then
      match TermAt(s, p)
      case Err(f) => Err(f)
      case Ok(Parsed(t, q)) => ElementsAt(s, SkipWs(s, q), elements + [t])
    else
      match ExpectAt(s, p, ')')
      case Err(f) => Err(f)
      case Ok(q) => Ok(Parsed(List(elements), q))
  }

  /** `parseAtom` at position `p`: the maximal run of atom characters, which must not be empty. */
  function AtomAt(s: string, p: int): (r: Result<Parsed>)
    requires 0 <= p <= |s|
    ensures r.Ok? ==> p < r.value.next <= |s|
    ensures r.Ok? <==> p < |s| && IsAtomChar(s[p])
  {
    var e := AtomEnd(s, p);
    if e == p then Err(IllegalArgument("Expected atom at position " + NatToString(p)))
    else Ok(Parsed(Atom(s[p..e]), e))
  }

  /** `parse`: one term from the trimmed input. */
  function ParseInput(input: string): Result<Term> {
    match TermAt(Trim(input), 0)
    case Err(f) => Err(f)
    case Ok(parsed) => Ok(parsed.term)
  }

  // ------------------------------------------------------------ properties

  /** Every term read is free of cons pairs: `.` is an ordinary atom. */
  lemma {:induction false} TermAtConsFree(s: string, p: int)
    requires 0 <= p <= |s|
    ensures TermAt(s, p).Ok? ==> ConsFree(TermAt(s, p).value.term)
    decreases |s| - p, 1
  {
    var q := SkipWs(s, p);
    if q < |s| && s[q] == '(' {
      ListAtConsFree(s, q);
    }
  }

  lemma {:induction false} ListAtConsFree(s: string, p: int)
    requires 0 <= p <= |s|
    ensures ListAt(s, p).Ok? ==> ConsFree(ListAt(s, p).value.term)
    decreases |s| - p, 0
  {
    if p < |s| && s[p] == '(' {
      ElementsAtConsFree(s, SkipWs(s, p + 1), []);
    }
  }

  lemma {:induction false} ElementsAtConsFree(s: string, p: int, elements: seq<Term>)
    requires 0 <= p <= |s|
    requires forall i :: 0 <= i < |elements| ==> ConsFree(elements[i])
    ensures ElementsAt(s, p, elements).Ok? ==> ConsFree(ElementsAt(s, p, elements).value.term)
    decreases |s| - p, 2
  {
    if p < |s| && s[p] != ')' {
      TermAtConsFree(s, p);
      var r := TermAt(s, p);
      if r.Ok? {
        var elements' := elements + [r.value.term];
        assert forall i :: 0 <= i < |elements'| ==> ConsFree(elements'[i]);
        ElementsAtConsFree(s, SkipWs(s, r.value.next), elements');
      }
    }
  }

  /** Nothing to read is an error: blank input cannot be parsed. */
  lemma BlankInputFails(input: string)
    requires Blank(input)
    ensures ParseInput(input) == Err(IllegalArgument("Unexpected end of input"))
  {
    TrimStartSpec(input);
  }

  /** A list is read up to and including its closing parenthesis. */
  lemma {:induction false} ListEndsWithParen(s: string, p: int, elements: seq<Term>)
    requires 0 <= p <= |s|
    ensures var r := ElementsAt(s, p, elements);
            r.Ok? ==> r.value.term.List? && s[r.value.next - 1] == ')'
    decreases |s| - p
  {
    if p < |s| && s[p] != ')' {
      var r := TermAt(s, p);
      if r.Ok? {
        ListEndsWithParen(s, SkipWs(s, r.value.next), elements + [r.value.term]);
      }
    }
  }

  /** An input that ends inside a list is refused. */
  lemma MissingCloseParen()
    ensures ParseInput("(a") == Err(IllegalArgument("Expected ')' at position 2"))
  {
    var s := "(a";
    assert TrimStart(s) == s;
    assert TrimEnd(s) == s;
    assert SkipWs(s, 0) == 0;
    assert SkipWs(s, 1) == 1;
    assert SkipWs(s, 2) == 2;
    assert AtomEnd(s, 2) == 2;
    assert AtomEnd(s, 1) == 2;
    assert s[1..2] == "a";
    assert TermAt(s, 1) == Ok(Parsed(Atom("a"), 2));
    assert NatToString(2) == "2";
    assert "Expected '" + [')'] + "' at position " + NatToString(2) == "Expected ')' at position 2";
    assert ExpectAt(s, 2, ')') == Err(IllegalArgument("Expected ')' at position 2"));
    assert ElementsAt(s, 2, [Atom("a")]) == Err(IllegalArgument("Expected ')' at position 2"));
    assert ElementsAt(s, 1, []) == ElementsAt(s, 2, [Atom("a")]);
    assert TermAt(s, 0) == ListAt(s, 0);
    assert Trim(s) == s;
  }

  /** A closing parenthesis where a term should start is refused. */
  lemma StrayCloseParen()
    ensures ParseInput(")") == Err(IllegalArgument("Expected atom at position 0"))
  {
    var s := ")";
    assert TrimStart(s) == s;
    assert TrimEnd(s) == s;
    assert SkipWs(s, 0) == 0;
    assert AtomEnd(s, 0) == 0;
    assert NatToString(0) == "0";
    assert "Expected atom at position " + NatToString(0) == "Expected atom at position 0";
    assert AtomAt(s, 0) == Err(IllegalArgument("Expected atom at position 0"));
    assert TermAt(s, 0) == AtomAt(s, 0);
    assert Trim(s) == s;
  }

  /** `(?h . ?t)` is a three-element list whose middle is the atom `.`. */
  lemma DotIsAnAtom()
    ensures ParseInput("(?h . ?t)") == Ok(List([Atom("?h"), Atom("."), Atom("?t")]))
  {
    var t := List([Atom("?h"), Atom("."), Atom("?t")]);
    assert Readable(t);
    assert JoinTerms(t.elements) == "?h . ?t";
    assert ToString(t) + "" == "(?h . ?t)";
    ParseIgnoresRest(t, "");
  }

  // ------------------------------------------------------------ the round trip

  /** Atoms that print back as themselves: not empty, and made of characters that are
      neither whitespace, parentheses nor trimmed away by `String.trim`. */
  predicate Readable(t: Term)
    decreases t, 1
  {
    match t
    case Atom(v) => v != [] && forall k :: 0 <= k < |v| ==> IsAtomChar(v[k]) && !IsTrimmable(v[k])
    case List(es) => AllReadable(es)
    case Cons(_, _) => false
  }

  /** Every child readable. */
  predicate AllReadable(es: seq<Term>)
    decreases es, 0
  {
    es == [] || (Readable(es[0]) && AllReadable(es[1..]))
  }

  /** What may follow a term's text without becoming part of it. */
  predicate EndsTermAt(s: string, p: int) {
    0 <= p <= |s| && (p == |s| || !IsAtomChar(s[p]))
  }

  lemma OccursSplit(s: string, a: string, b: string, p: int)
    requires OccursAt(s, a + b, p)
    ensures OccursAt(s, a, p) && OccursAt(s, b, p + |a|)
  {
    assert s[p..p + |a|] == (a + b)[..|a|];
    assert s[p + |a|..p + |a| + |b|] == (a + b)[|a|..];
  }

  lemma FirstCharOfReadable(t: Term)
    requires Readable(t)
    ensures ToString(t) != [] && !IsWhitespace(ToString(t)[0]) && !IsTrimmable(ToString(t)[0])
    ensures ToString(t)[0] != ')'
    ensures t.Atom? <==> ToString(t)[0] != '('
    ensures !IsTrimmable(ToString(t)[|ToString(t)| - 1])
  {
  }

  lemma {:induction false} AtomEndOfRun(s: string, p: int, e: int)
    requires 0 <= p <= e <= |s|
    requires forall k :: p <= k < e ==> IsAtomChar(s[k])
    requires e == |s| || !IsAtomChar(s[e])
    ensures AtomEnd(s, p) == e
    decreases e - p
  {
    if p < e {
      AtomEndOfRun(s, p + 1, e);
    }
  }

  lemma CharAt(s: string, text: string, p: int, k: int)
    requires OccursAt(s, text, p) && 0 <= k < |text|
    ensures s[p + k] == text[k]
  {
    assert s[p..p + |text|][k] == s[p + k];
  }

  /** The text of a readable term, followed by anything an atom cannot continue with,
      is read back as that term. */
  lemma {:induction false} ReadPrinted(t: Term, s: string, p: int)
    requires Readable(t) && OccursAt(s, ToString(t), p) && EndsTermAt(s, p + |ToString(t)|)
    ensures TermAt(s, p) == Ok(Parsed(t, p + |ToString(t)|))
    decreases t, 2
  {
    FirstCharOfReadable(t);
    CharAt(s, ToString(t), p, 0);
    if t.Atom? {
      TermAtAtom(s, p);
      ReadAtom(t.value, s, p);
    } else {
      TermAtList(s, p);
      ReadList(t.elements, s, p);
    }
  }

  lemma TermAtAtom(s: string, p: int)
    requires 0 <= p < |s| && !IsWhitespace(s[p]) && s[p] != '('
    ensures TermAt(s, p) == AtomAt(s, p)
  {
    assert SkipWs(s, p) == p;
  }

  lemma TermAtList(s: string, p: int)
    requires 0 <= p < |s| && s[p] == '('
    ensures TermAt(s, p) == ListAt(s, p)
  {
    assert SkipWs(s, p) == p;
  }

  lemma ReadAtom(v: string, s: string, p: int)
    requires Readable(Atom(v)) && OccursAt(s, v, p) && EndsTermAt(s, p + |v|)
    ensures AtomAt(s, p) == Ok(Parsed(Atom(v), p + |v|))
  {
    forall k | p <= k < p + |v| ensures IsAtomChar(s[k]) {
      CharAt(s, v, p, k - p);
    }
    AtomEndOfRun(s, p, p + |v|);
  }

  lemma {:induction false} ReadList(es: seq<Term>, s: string, p: int)
    requires Readable(List(es)) && OccursAt(s, ToString(List(es)), p)
    ensures ListAt(s, p) == Ok(Parsed(List(es), p + |ToString(List(es))|))
    decreases es, 4
  {
    ListLayout(es, s, p);
    ListAtOpen(s, p);
    if es == [] {
      ElementsClose(s, p + 1, []);
    } else {
      ReadJoined(es, s, p + 1, []);
      assert [] + es == es;
    }
  }

  lemma ListAtOpen(s: string, p: int)
    requires 0 <= p && p + 1 < |s| && s[p] == '(' && !IsWhitespace(s[p + 1])
    ensures ListAt(s, p) == ElementsAt(s, p + 1, [])
  {
    assert SkipWs(s, p + 1) == p + 1;
  }

  /** Where the children's text lies inside the text of a list. */
  lemma ListLayout(es: seq<Term>, s: string, p: int)
    requires Readable(List(es)) && OccursAt(s, ToString(List(es)), p)
    ensures p < |s| && s[p] == '('
    ensures OccursAt(s, JoinTerms(es) + ")", p + 1)
    ensures |ToString(List(es))| == |JoinTerms(es)| + 2
    ensures p + 1 < |s| && !IsWhitespace(s[p + 1])
    ensures es == [] ==> s[p + 1] == ')'
    ensures es != [] ==> s[p + 1] != ')'
  {
    var inner := JoinTerms(es);
    assert "(" + inner + ")" == "(" + (inner + ")");
    OccursSplit(s, "(", inner + ")", p);
    CharAt(s, "(", p, 0);
    CharAt(s, inner + ")", p + 1, 0);
    if es != [] {
      FirstCharOfReadable(es[0]);
      JoinStart(es);
    }
  }

  /** The loop of `parseList` reads back children joined by single spaces. */
  lemma {:induction false} ReadJoined(es: seq<Term>, s: string, p: int, elements: seq<Term>)
    requires es != [] && Readable(List(es))
    requires OccursAt(s, JoinTerms(es) + ")", p)
    ensures ElementsAt(s, p, elements) == Ok(Parsed(List(elements + es), p + |JoinTerms(es)| + 1))
    decreases es, 3
  {
    ReadableParts(es);
    if |es| == 1 {
      ReadLast(es, s, p, elements);
    } else {
      ReadNext(es, s, p, elements);
    }
  }

  lemma {:induction false} ReadLast(es: seq<Term>, s: string, p: int, elements: seq<Term>)
    requires |es| == 1 && Readable(es[0])
    requires OccursAt(s, JoinTerms(es) + ")", p)
    ensures ElementsAt(s, p, elements) == Ok(Parsed(List(elements + es), p + |JoinTerms(es)| + 1))
    decreases es, 0
  {
    var first := ToString(es[0]);
    LastLayout(es, s, p);
    ReadPrinted(es[0], s, p);
    ElementsStep(s, p, elements, es[0], p + |first|, p + |first|);
    ElementsClose(s, p + |first|, elements + [es[0]]);
    assert elements + [es[0]] == elements + es;
  }

  /** Where the text of the last child and the closing parenthesis lie in `s`. */
  lemma LastLayout(es: seq<Term>, s: string, p: int)
    requires |es| == 1 && Readable(es[0])
    requires OccursAt(s, JoinTerms(es) + ")", p)
    ensures var first := ToString(es[0]);
            && OccursAt(s, first, p) && EndsTermAt(s, p + |first|)
            && p < |s| && s[p] != ')'
            && p + |first| < |s| && s[p + |first|] == ')'
            && SkipWs(s, p + |first|) == p + |first|
            && |JoinTerms(es)| == |first|
  {
    var first := ToString(es[0]);
    FirstCharOfReadable(es[0]);
    assert JoinTerms(es) + ")" == first + ")";
    OccursSplit(s, first, ")", p);
    CharAt(s, first, p, 0);
    CharAt(s, ")", p + |first|, 0);
  }

  lemma {:induction false} ReadNext(es: seq<Term>, s: string, p: int, elements: seq<Term>)
    requires |es| > 1 && Readable(List(es))
    requires OccursAt(s, JoinTerms(es) + ")", p)
    ensures ElementsAt(s, p, elements) == Ok(Parsed(List(elements + es), p + |JoinTerms(es)| + 1))
    decreases es, 2
  {
    var q := p + |ToString(es[0])| + 1;
    ReadFirst(es, s, p, q, elements);
    ReadRest(es, s, p, q, elements);
  }

  /** After the first child and its space, the rest of the children are read. */
  lemma {:induction false} ReadRest(es: seq<Term>, s: string, p: int, q: int, elements: seq<Term>)
    requires |es| > 1 && Readable(List(es))
    requires OccursAt(s, JoinTerms(es) + ")", p) && q == p + |ToString(es[0])| + 1
    ensures 0 <= q <= |s|
    ensures ElementsAt(s, q, elements + [es[0]]) == Ok(Parsed(List(elements + es), p + |JoinTerms(es)| + 1))
    decreases es, 1
  {
    RestLayout(es, s, p, q);
    ReadTail(es, s, q, elements, p + |JoinTerms(es)| + 1);
  }

  lemma RestLayout(es: seq<Term>, s: string, p: int, q: int)
    requires |es| > 1 && Readable(List(es))
    requires OccursAt(s, JoinTerms(es) + ")", p) && q == p + |ToString(es[0])| + 1
    ensures Readable(List(es[1..])) && OccursAt(s, JoinTerms(es[1..]) + ")", q)
    ensures p + |JoinTerms(es)| + 1 == q + |JoinTerms(es[1..])| + 1
  {
    FirstLayout(es, s, p);
    ReadableParts(es);
  }

  lemma {:induction false} ReadTail(es: seq<Term>, s: string, q: int, elements: seq<Term>, n: int)
    requires |es| > 1 && Readable(List(es[1..]))
    requires OccursAt(s, JoinTerms(es[1..]) + ")", q) && n == q + |JoinTerms(es[1..])| + 1
    ensures ElementsAt(s, q, elements + [es[0]]) == Ok(Parsed(List(elements + es), n))
    decreases es, 0
  {
    ReadJoined(es[1..], s, q, elements + [es[0]]);
    AppendFirstRest(elements, es);
  }

  lemma ReadableParts(es: seq<Term>)
    requires es != [] && Readable(List(es))
    ensures Readable(es[0]) && Readable(List(es[1..]))
  {
  }

  /** Where the text of the first child and of the rest lie in `s`. */
  lemma NextLayout(es: seq<Term>, s: string, p: int)
    requires |es| > 1 && ToString(es[0]) != [] && ToString(es[1]) != []
    requires OccursAt(s, JoinTerms(es) + ")", p)
    ensures var first := ToString(es[0]);
            && OccursAt(s, first, p) && s[p] == first[0] && s[p + |first|] == ' '
            && OccursAt(s, JoinTerms(es[1..]) + ")", p + |first| + 1)
            && |JoinTerms(es)| == |first| + 1 + |JoinTerms(es[1..])|
            && s[p + |first| + 1] == ToString(es[1])[0]
  {
    var first := ToString(es[0]);
    var rest := JoinTerms(es[1..]);
    JoinFirst(es);
    JoinRestStart(es);
    SpacedLayout(s, first, rest, p);
  }

  /** `a`, a space and `b`, then a closing parenthesis, at `p`: where each part lies. */
  lemma SpacedLayout(s: string, a: string, b: string, p: int)
    requires a != [] && b != []
    requires OccursAt(s, a + " " + b + ")", p)
    ensures OccursAt(s, a, p) && s[p] == a[0]
    ensures p + |a| < |s| && s[p + |a|] == ' '
    ensures OccursAt(s, b + ")", p + |a| + 1) && s[p + |a| + 1] == b[0]
    ensures |a + " " + b| == |a| + 1 + |b|
  {
    assert a + " " + b + ")" == a + (" " + (b + ")"));
    OccursSplit(s, a, " " + (b + ")"), p);
    OccursSplit(s, " ", b + ")", p + |a|);
    CharAt(s, " ", p + |a|, 0);
    CharAt(s, a, p, 0);
    CharAt(s, b + ")", p + |a| + 1, 0);
  }

  lemma JoinRestStart(es: seq<Term>)
    requires |es| > 1 && ToString(es[1]) != []
    ensures JoinTerms(es[1..]) != [] && JoinTerms(es[1..])[0] == ToString(es[1])[0]
  {
    assert es[1..][0] == es[1];
    JoinStart(es[1..]);
  }

  lemma JoinFirst(es: seq<Term>)
    requires |es| > 1
    ensures JoinTerms(es) == ToString(es[0]) + " " + JoinTerms(es[1..])
  {
  }

  lemma JoinStart(es: seq<Term>)
    requires es != [] && ToString(es[0]) != []
    ensures JoinTerms(es) != [] && JoinTerms(es)[0] == ToString(es[0])[0]
  {
    if |es| > 1 {
      JoinFirst(es);
      assert ToString(es[0]) + " " + JoinTerms(es[1..]) == ToString(es[0]) + (" " + JoinTerms(es[1..]));
    }
  }

  /** The first child is read, and the single space after it skipped. */
  lemma ReadFirst(es: seq<Term>, s: string, p: int, q: int, elements: seq<Term>)
    requires |es| > 1 && Readable(List(es))
    requires OccursAt(s, JoinTerms(es) + ")", p) && q == p + |ToString(es[0])| + 1
    ensures 0 <= q <= |s| && ElementsAt(s, p, elements) == ElementsAt(s, q, elements + [es[0]])
    decreases es, 0
  {
    var first := ToString(es[0]);
    FirstLayout(es, s, p);
    ReadPrinted(es[0], s, p);
    ElementsStep(s, p, elements, es[0], p + |first|, q);
  }

  /** What reading the first of several children relies on. */
  lemma FirstLayout(es: seq<Term>, s: string, p: int)
    requires |es| > 1 && Readable(List(es))
    requires OccursAt(s, JoinTerms(es) + ")", p)
    ensures var first := ToString(es[0]);
            && Readable(es[0]) && OccursAt(s, first, p) && EndsTermAt(s, p + |first|)
            && p < |s| && s[p] != ')' && SkipWs(s, p + |first|) == p + |first| + 1
            && OccursAt(s, JoinTerms(es[1..]) + ")", p + |first| + 1)
            && |JoinTerms(es)| == |first| + 1 + |JoinTerms(es[1..])|
  {
    var first := ToString(es[0]);
    ReadableParts(es);
    ReadableParts(es[1..]);
    assert es[1..][0] == es[1];
    FirstCharOfReadable(es[0]);
    FirstCharOfReadable(es[1]);
    NextLayout(es, s, p);
    SkipOneSpace(s, p + |first|);
  }

  lemma SkipOneSpace(s: string, k: int)
    requires 0 <= k && k + 1 < |s| && s[k] == ' ' && !IsWhitespace(s[k + 1])
    ensures SkipWs(s, k) == k + 1
  {
    assert SkipWs(s, k + 1) == k + 1;
  }

  lemma ElementsStep(s: string, p: int, elements: seq<Term>, t: Term, q: int, next: int)
    requires 0 <= p < |s| && s[p] != ')' && TermAt(s, p) == Ok(Parsed(t, q))
    requires 0 <= q <= |s| && SkipWs(s, q) == next
    ensures 0 <= next <= |s| && ElementsAt(s, p, elements) == ElementsAt(s, next, elements + [t])
  {
  }

  lemma ElementsClose(s: string, p: int, elements: seq<Term>)
    requires 0 <= p < |s| && s[p] == ')'
    ensures ElementsAt(s, p, elements) == Ok(Parsed(List(elements), p + 1))
  {
  }

  lemma AppendFirstRest(elements: seq<Term>, es: seq<Term>)
    requires es != []
    ensures elements + [es[0]] + es[1..] == elements + es
  {
    assert es == [es[0]] + es[1..];
  }

  lemma {:induction false} TrimEndAfter(a: string, b: string)
    requires a != [] && !IsTrimmable(a[|a| - 1])
    ensures TrimEnd(a + b) == a + TrimEnd(b)
    decreases |b|
  {
    if b != [] && IsTrimmable(b[|b| - 1]) {
      assert (a + b)[..|a + b| - 1] == a + b[..|b| - 1];
      TrimEndAfter(a, b[..|b| - 1]);
    } else if b == [] {
      assert a + b == a;
      TrimEndFixed(a);
    }
  }

  /** Reading stops after the first term: a readable term's text followed by text that
      starts with whitespace or a parenthesis reads as that term, whatever the rest is.
      With nothing following, this is the round trip `parse(t.toString()) == t`. */
  lemma ParseIgnoresRest(t: Term, rest: string)
    requires Readable(t)
    requires rest == [] || !IsAtomChar(rest[0])
    ensures ParseInput(ToString(t) + rest) == Ok(t)
  {
    var text := ToString(t);
    FirstCharOfReadable(t);
    var s := text + rest;
    assert TrimStart(s) == s;
    TrimEndAfter(text, rest);
    var trimmed := text + TrimEnd(rest);
    assert Trim(s) == trimmed;
    TrimEndSpec(rest);
    assert TrimEnd(rest) == [] || TrimEnd(rest)[0] == rest[0];
    assert OccursAt(trimmed, text, 0);
    ReadPrinted(t, trimmed, 0);
  }

  // ------------------------------------------------------------ the class

  /** `TermParser`: the trimmed input and a cursor into it. */
  class TermParser {
    const input: string
    var pos: int

    constructor (input: string)
      ensures this.input == Trim(input) && pos == 0
    {
      this.input := Trim(input);
      pos := 0;
    }

    /** `parse`. */
    static method Parse(input: string) returns (r: Result<Term>)
      ensures r == ParseInput(input)
    {
      var parser := new TermParser(input);
      r := parser.ParseTerm();
    }

    /** A method's outcome as the specification states it: the term and the cursor. */
    static function Outcome(r: Result<Term>, next: int): Result<Parsed> {
      match r
      case Ok(t) => Ok(Parsed(t, next))
      case Err(f) => Err(f)
    }

    /** `parseTerm`. */
    method ParseTerm() returns (r: Result<Term>)
      requires 0 <= pos <= |input|
      modifies this
      ensures 0 <= pos <= |input|
      ensures Outcome(r, pos) == TermAt(input, old(pos))
      decreases |input| - pos, 1
    {
      SkipWhitespace();
      if pos >= |input| {
        return Err(IllegalArgument("Unexpected end of input"));
      }
      var c := input[pos];
      if c == '(' {
        r := ParseList();
      } else {
        r := ParseAtom();
      }
    }

    /** `parseList`. */
    method ParseList() returns (r: Result<Term>)
      requires 0 <= pos <= |input|
      modifies this
      ensures 0 <= pos <= |input|
      ensures Outcome(r, pos) == ListAt(input, old(pos))
      decreases |input| - pos, 0
    {
      var open := Expect('(');
      if open.Err? {
        return Err(open.failure);
      }
      SkipWhitespace();
      var elements: seq<Term> := [];
      while pos < |input| && input[pos] != ')'
        invariant old(pos) < pos <= |input|
        invariant ListAt(input, old(pos)) == ElementsAt(input, pos, elements)
        decreases |input| - pos
      {
        var element := ParseTerm();
        if element.Err? {
          return element;
        }
        elements := elements + [element.value];
        SkipWhitespace();
      }
      var closed := Expect(')');
      if closed.Err? {
        return Err(closed.failure);
      }
      r := Ok(List(elements));
    }

    /** `parseAtom`. */
    method ParseAtom() returns (r: Result<Term>)
      requires 0 <= pos <= |input|
      modifies this
      ensures 0 <= pos <= |input|
      ensures Outcome(r, pos) == AtomAt(input, old(pos))
    {
      var sb: string := [];
      while pos < |input| && IsAtomChar(input[pos])
        invariant old(pos) <= pos <= |input|
        invariant sb == input[old(pos)..pos]
        invariant AtomEnd(input, old(pos)) == AtomEnd(input, pos)
        decreases |input| - pos
      {
        sb := sb + [input[pos]];
        pos := pos + 1;
      }
      if |sb| == 0 {
        return Err(IllegalArgument("Expected atom at position " + NatToString(pos)));
      }
      r := Ok(Atom(sb));
    }

    /** `skipWhitespace`. */
    method SkipWhitespace()
      requires 0 <= pos <= |input|
      modifies this
      ensures pos == SkipWs(input, old(pos))
    {
      while pos < |input| && IsWhitespace(input[pos])
        invariant old(pos) <= pos <= |input|
        invariant SkipWs(input, old(pos)) == SkipWs(input, pos)
        decreases |input| - pos
      {
        pos := pos + 1;
      }
    }

    /** `expect`: an error leaves the cursor where it is. */
    method Expect(expected: char) returns (r: Result<int>)
      requires 0 <= pos <= |input|
      modifies this
      ensures r == ExpectAt(input, old(pos), expected)
      ensures pos == if r.Ok? then old(pos) + 1 else old(pos)
    {
      if pos >= |input| || input[pos] != expected {
        return Err(IllegalArgument("Expected '" + [expected] + "' at position " + NatToString(pos)));
      }
      pos := pos + 1;
      r := Ok(pos);
    }
  }
}
