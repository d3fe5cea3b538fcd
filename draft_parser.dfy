/**
 * The reader of the earlier engine under `src/main/java/parser/Parser.java`: a cursor
 * over the trimmed input. `parse` skips whitespace and yields nothing at the end of the
 * input, a parenthesised list, or the run of characters up to the next delimiter, which
 * may be empty; repeated calls read the terms of the input one after another.
 *
 * `ParseAt`, `ListAt` and `ElementsAt` specify the reader; the class `Parser` follows
 * the Java control flow and its methods are proved equal to them.
 */
module DraftParsing {
  import opened Wrappers
  import opened Text
  import opened DraftTerms
  import DraftRules
  import TP = TermParsing
  import T = Terms

  /** A term read, and the position after it. */
  datatype Parsed = Parsed(term: Term, next: int)

  // ------------------------------------------------------------ the specification

  /** `expect`: the character `c` at `p`, or the error naming the position. */
  function ExpectAt(s: string, p: int, c: char): (r: Result<int>)
    requires 0 <= p <= |s|
    ensures r.Ok? <==> p < |s| && s[p] == c
    ensures r.Ok? ==> r.value == p + 1
  {
    if p >= |s| || s[p] != c then Err(Runtime("Expected '" + [c] + "' at position " + NatToString(p)))
    else Ok(p + 1)
  }

  /** `parseAtom`: the longest run of characters that are no delimiters; it may be empty. */
  function AtomAt(s: string, p: int): (r: Parsed)
    requires 0 <= p <= |s|
    ensures p <= r.next <= |s| && r.term == Atom(s[p..r.next])
    ensures forall k :: p <= k < r.next ==> TP.IsAtomChar(s[k])
    ensures r.next == |s| || !TP.IsAtomChar(s[r.next])
  {
    var e := TP.AtomEnd(s, p);
    Parsed(Atom(s[p..e]), e)
  }

  /** `parse` from position `p`: nothing once only whitespace is left. */
  function ParseAt(s: string, p: int): (r: Result<Option<Parsed>>)
    requires 0 <= p <= |s|
    ensures r.Ok? && r.value.None? <==> TP.SkipWs(s, p) == |s|
    ensures r.Ok? && r.value.Some? ==> TP.SkipWs(s, p) <= r.value.value.next <= |s|
    ensures r.Ok? && r.value.Some? && r.value.value.next == TP.SkipWs(s, p) ==> s[TP.SkipWs(s, p)] == ')'
    decreases |s| - p, 1
  {
    var q := TP.SkipWs(s, p);
    if q >= |s| then Ok(None)
    else if s[q] == '(' then
      match ListAt(s, q)
      case Err(f) => Err(f)
      case Ok(parsed) => Ok(Some(parsed))
    else Ok(Some(AtomAt(s, q)))
  }

  /** `parseList` from position `p`. */
  function ListAt(s: string, p: int): (r: Result<Parsed>)
    requires 0 <= p <= |s|
    ensures r.Ok? ==> p < r.value.next <= |s| && r.value.term.List?
    decreases |s| - p, 0
  {
    match ExpectAt(s, p, '(')
    case Err(f) => Err(f)
    case Ok(q) => ElementsAt(s, TP.SkipWs(s, q), [])
  }

  /** The loop of `parseList` at position `p`, past whitespace, with the children read
      so far. Inside the loop `parse` always finds a term: the null check never skips. */
  function ElementsAt(s: string, p: int, children: seq<Term>): (r: Result<Parsed>)
    requires 0 <= p <= |s| && (p == |s| || !IsWhitespace(s[p]))
    ensures r.Ok? ==> p < r.value.next <= |s| && r.value.term.List?
    decreases |s| - p, 2
  {
    if p < |s| && s[p] != ')' then
      match ParseAt(s, p)
      case Err(f) => Err(f)
      case Ok(None) => assert false; Err(Runtime(""))
      case Ok(Some(parsed)) => ElementsAt(s, TP.SkipWs(s, parsed.next), children + [parsed.term])
    else
      match ExpectAt(s, p, ')')
      case Err(f) => Err(f)
      case Ok(q) => Ok(Parsed(List(children), q))
  }

  /** `parseString`: the first term of the trimmed input, if there is one. */
  function Read(input: string): Result<Option<Term>> {
    match ParseAt(Trim(input), 0)
    case Err(f) => Err(f)
    case Ok(None) => Ok(None)
    case Ok(Some(parsed)) => Ok(Some(parsed.term))
  }

  // ------------------------------------------------------------ the class

  /** `Parser`: the trimmed input and a cursor into it. */
  class Parser {
    const input: string
    var pos: int

    constructor (input: string)
      ensures this.input == Trim(input) && pos == 0
    {
      this.input := Trim(input);
      pos := 0;
    }

    /** `parseString`. */
    static method ParseString(s: string) returns (r: Result<Option<Term>>)
      ensures r == Read(s)
    {
      var parser := new Parser(s);
      r := parser.Parse();
    }

    /** A method's outcome as the specification states it: the term and the cursor. */
    static function Outcome(r: Result<Option<Term>>, next: int): Result<Option<Parsed>> {
      match r
      case Ok(Some(t)) => Ok(Some(Parsed(t, next)))
      case Ok(None) => Ok(None)
      case Err(f) => Err(f)
    }

    /** `parse`: the cursor ends after the term read, or at the end of the input. */
    method Parse() returns (r: Result<Option<Term>>)
      requires 0 <= pos <= |input|
      modifies this
      ensures 0 <= pos <= |input|
      ensures Outcome(r, pos) == ParseAt(input, old(pos))
      ensures r == Ok(None) ==> pos == |input|
      decreases |input| - pos, 1
    {
      SkipWhitespace();
      if pos >= |input| {
        return Ok(None);
      }
      if input[pos] == '(' {
        var list := ParseList();
        match list
        case Err(f) => r := Err(f);
        case Ok(t) => r := Ok(Some(t));
      } else {
        var atom := ParseAtom();
        r := Ok(Some(atom));
      }
    }

    /** `parseList`. */
    method ParseList() returns (r: Result<Term>)
      requires 0 <= pos <= |input|
      modifies this
      ensures 0 <= pos <= |input|
      ensures (match r case Ok(t) => Ok(Parsed(t, pos)) case Err(f) => Err(f)) == ListAt(input, old(pos))
      decreases |input| - pos, 0
    {
      var open := Expect('(');
      if open.Err? {
        return Err(open.failure);
      }
      var children: seq<Term> := [];
      SkipWhitespace();
      while pos < |input| && input[pos] != ')'
        invariant old(pos) < pos <= |input|
        invariant pos == |input| || !IsWhitespace(input[pos])
        invariant ListAt(input, old(pos)) == ElementsAt(input, pos, children)
        decreases |input| - pos
      {
        var child := Parse();
        if child.Err? {
          return Err(child.failure);
        }
        if child.value.Some? {
          children := children + [child.value.value];
        }
        SkipWhitespace();
      }
      var closed := Expect(')');
      if closed.Err? {
        return Err(closed.failure);
      }
      r := Ok(List(children));
    }

    /** `parseAtom`. */
    method ParseAtom() returns (t: Term)
      requires 0 <= pos <= |input|
      modifies this
      ensures Parsed(t, pos) == AtomAt(input, old(pos))
    {
      var sb: string := [];
      while pos < |input| && TP.IsAtomChar(input[pos])
        invariant old(pos) <= pos <= |input|
        invariant sb == input[old(pos)..pos]
        invariant TP.AtomEnd(input, old(pos)) == TP.AtomEnd(input, pos)
        decreases |input| - pos
      {
        sb := sb + [input[pos]];
        pos := pos + 1;
      }
      t := Atom(sb);
    }

    /** `skipWhitespace`. */
    method SkipWhitespace()
      requires 0 <= pos <= |input|
      modifies this
      ensures pos == TP.SkipWs(input, old(pos))
    {
      while pos < |input| && IsWhitespace(input[pos])
        invariant old(pos) <= pos <= |input|
        invariant TP.SkipWs(input, old(pos)) == TP.SkipWs(input, pos)
        decreases |input| - pos
      {
        pos := pos + 1;
      }
    }

    /** `expect`: an error leaves the cursor where it is. */
    method Expect(expected: char) returns (r: Result<int>)
      requires 0 <= pos <= |input|
      modifies this
      ensures r == ExpectAt(input, old(pos), expected)
      ensures pos == if r.Ok? then old(pos) + 1 else old(pos)
    {
      if pos >= |input| || input[pos] != expected {
        return Err(Runtime("Expected '" + [expected] + "' at position " + NatToString(pos)));
      }
      pos := pos + 1;
      r := Ok(pos);
    }
  }

  // ------------------------------------------------------------ properties

  /** Input that is only whitespace once trimmed holds no term. */
  lemma NothingToRead(input: string)
    ensures Read(input) == Ok(None) <==> forall k :: 0 <= k < |Trim(input)| ==> IsWhitespace(Trim(input)[k])
  {
  }

  /** A stray `)` where a term should start reads as the empty atom, and the cursor does
      not move past it. */
  lemma StrayCloseParen(s: string, p: int)
    requires 0 <= p <= |s| && TP.SkipWs(s, p) < |s| && s[TP.SkipWs(s, p)] == ')'
    ensures ParseAt(s, p) == Ok(Some(Parsed(Atom(""), TP.SkipWs(s, p))))
  {
    var q := TP.SkipWs(s, p);
    assert !TP.IsAtomChar(s[q]) && s[q..q] == "";
  }

  /** No closing parenthesis from `p` on. */
  predicate NoCloseFrom(s: string, p: int) {
    0 <= p && forall k :: p <= k < |s| ==> s[k] != ')'
  }

  /** A list without a closing parenthesis after it is refused with a runtime error. */
  lemma {:induction false} UnclosedList(s: string, p: int)
    requires 0 <= p <= |s| && NoCloseFrom(s, p)
    ensures ListAt(s, p).Err? && ListAt(s, p).failure.Runtime?
    decreases |s| - p, 0
  {
    if p < |s| && s[p] == '(' {
      UnclosedElements(s, TP.SkipWs(s, p + 1), []);
    }
  }

  lemma {:induction false} UnclosedElements(s: string, p: int, children: seq<Term>)
    requires 0 <= p <= |s| && (p == |s| || !IsWhitespace(s[p])) && NoCloseFrom(s, p)
    ensures ElementsAt(s, p, children).Err? && ElementsAt(s, p, children).failure.Runtime?
    decreases |s| - p, 2
  {
    if p < |s| {
      assert TP.SkipWs(s, p) == p;
      if s[p] == '(' {
        UnclosedList(s, p);
      } else {
        var parsed := AtomAt(s, p);
        assert ParseAt(s, p) == Ok(Some(parsed));
        UnclosedElements(s, TP.SkipWs(s, parsed.next), children + [parsed.term]);
      }
    }
  }

  // ------------------------------------------------------------ the round trip

  /** Terms whose text reads back as themselves: atoms not empty, and made of characters
      that are neither delimiters nor trimmed away. */
  predicate Printable(t: Term) {
    match t
    case Atom(v) => v != [] && forall k :: 0 <= k < |v| ==> TP.IsAtomChar(v[k]) && !IsTrimmable(v[k])
    case List(cs) => forall i :: 0 <= i < |cs| ==> Printable(cs[i])
  }

  /** The term of the newer engine with the same atoms and lists, and back. */
  function Lift(t: Term): T.Term
    decreases t, 1
  {
    match t
    case Atom(v) => T.Atom(v)
    case List(cs) => T.List(LiftAll(cs))
  }

  function LiftAll(cs: seq<Term>): (r: seq<T.Term>)
    ensures |r| == |cs|
    decreases cs, 0
  {
    if cs == [] then [] else [Lift(cs[0])] + LiftAll(cs[1..])
  }

  function Lower(t: T.Term): Term
    decreases t, 1
  {
    match t
    case Atom(v) => Atom(v)
    case List(es) => List(LowerAll(es))
    case Cons(_, _) => List([])
  }

  function LowerAll(es: seq<T.Term>): (r: seq<Term>)
    ensures |r| == |es|
    decreases es, 0
  {
    if es == [] then [] else [Lower(es[0])] + LowerAll(es[1..])
  }

  lemma {:induction false} LowerAllAppend(es: seq<T.Term>, t: T.Term)
    ensures LowerAll(es + [t]) == LowerAll(es) + [Lower(t)]
    decreases |es|
  {
    if es != [] {
      assert (es + [t])[1..] == es[1..] + [t];
      LowerAllAppend(es[1..], t);
    }
  }

  lemma {:induction false} LowerLift(t: Term)
    ensures Lower(Lift(t)) == t
    decreases t, 1
  {
    if t.List? {
      LowerLiftAll(t.children);
    }
  }

  lemma {:induction false} LowerLiftAll(cs: seq<Term>)
    ensures LowerAll(LiftAll(cs)) == cs
    decreases cs, 0
  {
    if cs != [] {
      LowerLift(cs[0]);
      LowerLiftAll(cs[1..]);
      assert LiftAll(cs)[1..] == LiftAll(cs[1..]);
      assert cs == [cs[0]] + cs[1..];
    }
  }

  /** Both engines print a term alike. */
  lemma {:induction false} PrintLift(t: Term)
    ensures T.ToString(Lift(t)) == ToString(t)
    decreases t, 1
  {
    if t.List? {
      JoinLift(t.children);
    }
  }

  lemma {:induction false} JoinLift(cs: seq<Term>)
    ensures T.JoinTerms(LiftAll(cs)) == Join(cs)
    decreases cs, 0
  {
    if cs != [] {
      PrintLift(cs[0]);
      assert LiftAll(cs)[1..] == LiftAll(cs[1..]);
      if |cs| > 1 {
        JoinLift(cs[1..]);
      }
    }
  }

  lemma {:induction false} PrintableLift(t: Term)
    requires Printable(t)
    ensures TP.Readable(Lift(t))
    decreases t, 1
  {
    if t.List? {
      PrintableLiftAll(t.children);
    }
  }

  lemma {:induction false} PrintableLiftAll(cs: seq<Term>)
    requires forall i :: 0 <= i < |cs| ==> Printable(cs[i])
    ensures TP.AllReadable(LiftAll(cs))
    decreases cs, 0
  {
    if cs != [] {
      PrintableLift(cs[0]);
      PrintableLiftAll(cs[1..]);
      assert LiftAll(cs)[1..] == LiftAll(cs[1..]);
    }
  }

  /** Where the newer engine's reader reads a term, this reader reads the same term and
      stops at the same place. */
  lemma {:induction false} SameAsTermParser(s: string, p: int)
    requires 0 <= p <= |s| && TP.TermAt(s, p).Ok?
    ensures ParseAt(s, p) == Ok(Some(Parsed(Lower(TP.TermAt(s, p).value.term), TP.TermAt(s, p).value.next)))
    decreases |s| - p, 1
  {
    var q := TP.SkipWs(s, p);
    if s[q] == '(' {
      SameListAsTermParser(s, q);
    }
  }

  lemma {:induction false} SameListAsTermParser(s: string, p: int)
    requires 0 <= p <= |s| && TP.ListAt(s, p).Ok?
    ensures ListAt(s, p) == Ok(Parsed(Lower(TP.ListAt(s, p).value.term), TP.ListAt(s, p).value.next))
    decreases |s| - p, 0
  {
    SameElementsAsTermParser(s, TP.SkipWs(s, p + 1), []);
  }

  lemma {:induction false} SameElementsAsTermParser(s: string, p: int, es: seq<T.Term>)
    requires 0 <= p <= |s| && (p == |s| || !IsWhitespace(s[p])) && TP.ElementsAt(s, p, es).Ok?
    ensures ElementsAt(s, p, LowerAll(es))
         == Ok(Parsed(Lower(TP.ElementsAt(s, p, es).value.term), TP.ElementsAt(s, p, es).value.next))
    decreases |s| - p, 2
  {
    if p < |s| && s[p] != ')' {
      assert TP.SkipWs(s, p) == p;
      var r := TP.TermAt(s, p).value;
      SameAsTermParser(s, p);
      LowerAllAppend(es, r.term);
      SameElementsAsTermParser(s, TP.SkipWs(s, r.next), es + [r.term]);
    }
  }

  /** A printed term reads back as itself. */
  lemma ReadPrinted(t: Term)
    requires Printable(t)
    ensures Read(ToString(t)) == Ok(Some(t))
  {
    PrintableLift(t);
    PrintLift(t);
    TP.ParseIgnoresRest(Lift(t), "");
    assert T.ToString(Lift(t)) + "" == ToString(t);
    SameAsTermParser(Trim(ToString(t)), 0);
    LowerLift(t);
  }

  /** A printed term inside a text reads back where it starts, up to where it ends. */
  lemma ReadPrintedAt(s: string, p: int, t: Term)
    requires Printable(t) && OccursAt(s, ToString(t), p) && TP.EndsTermAt(s, p + |ToString(t)|)
    ensures ParseAt(s, p) == Ok(Some(Parsed(t, p + |ToString(t)|)))
  {
    PrintableLift(t);
    PrintLift(t);
    TP.ReadPrinted(Lift(t), s, p);
    SameAsTermParser(s, p);
    LowerLift(t);
  }

  /** `parse` passes over a whitespace character before looking for a term. */
  lemma ParseAfterSpace(s: string, p: int)
    requires 0 <= p < |s| && IsWhitespace(s[p])
    ensures ParseAt(s, p) == ParseAt(s, p + 1)
  {
  }

  /** The second of two terms separated by a space, read from the end of the first. */
  lemma SecondTerm(s: string, m: int, b: Term)
    requires Printable(b) && 0 <= m < |s| && s[m] == ' '
    requires OccursAt(s, ToString(b), m + 1) && |s| == m + 1 + |ToString(b)|
    ensures ParseAt(s, m) == Ok(Some(Parsed(b, |s|)))
  {
    ReadPrintedAt(s, m + 1, b);
    ParseAfterSpace(s, m);
  }

  /** Where the two texts lie in a text that ends with `a + " " + b` after `n` characters. */
  lemma TwoTermsLayout(s: string, n: nat, a: string, b: string)
    requires n <= |s| && s[n..] == a + " " + b
    ensures OccursAt(s, a, n) && n + |a| < |s| && s[n + |a|] == ' '
    ensures OccursAt(s, b, n + |a| + 1) && |s| == n + |a| + 1 + |b|
  {
  }

  /** Successive calls read the terms of the input in turn: from where a printed term
      starts, that term; from its end, past one space, the printed term that ends the
      input; then nothing. */
  lemma ReadsInTurn(s: string, p: int, a: Term, b: Term)
    requires Printable(a) && Printable(b) && 0 <= p
    requires OccursAt(s, ToString(a), p) && p + |ToString(a)| < |s| && s[p + |ToString(a)|] == ' '
    requires OccursAt(s, ToString(b), p + |ToString(a)| + 1) && |s| == p + |ToString(a)| + 1 + |ToString(b)|
    ensures ParseAt(s, p) == Ok(Some(Parsed(a, p + |ToString(a)|)))
    ensures ParseAt(s, p + |ToString(a)|) == Ok(Some(Parsed(b, |s|)))
    ensures ParseAt(s, |s|) == Ok(None)
  {
    ReadPrintedAt(s, p, a);
    SecondTerm(s, p + |ToString(a)|, b);
  }

  /** The pattern and the replacement of a printed rule read back after its header. */
  lemma RuleTextReadsBack(r: DraftRules.Rule)
    requires Printable(r.pattern) && Printable(r.replacement)
    ensures ParseAt(r.ToString(), |r.Header()|)
         == Ok(Some(Parsed(r.pattern, |r.Header()| + |ToString(r.pattern)|)))
    ensures ParseAt(r.ToString(), |r.Header()| + |ToString(r.pattern)|)
         == Ok(Some(Parsed(r.replacement, |r.ToString()|)))
  {
    TwoTermsLayout(r.ToString(), |r.Header()|, ToString(r.pattern), ToString(r.replacement));
    ReadsInTurn(r.ToString(), |r.Header()|, r.pattern, r.replacement);
  }
}
