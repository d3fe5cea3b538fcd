/**
 * The term model of the engine: atoms, proper lists and cons pairs, the
 * predicates on atoms, the list accessors, the properness check on cons
 * chains, printing, and the factories for numbers and booleans.
 */
module Terms {
  import opened Wrappers
  import opened Text

  /** An atom holds its text; a list its children; a cons pair its car and cdr. */
  datatype Term = Atom(value: string) | List(elements: seq<Term>) | Cons(car: Term, cdr: Term)

  /** `Term.nil()`: the empty list that ends a proper cons chain. */
  const Nil: Term := List([])

  // ---------------------------------------------------------------- atoms

  /** `Atom.isVariable`: the text starts with a question mark. */
  predicate IsVariable(t: Term) {
    t.Atom? && StartsWith(t.value, "?")
  }

  /** `Atom.isBoolean`: the text is exactly `true` or `false`. */
  predicate IsBoolean(t: Term) {
    t.Atom? && (t.value == "true" || t.value == "false")
  }

  function LowerAscii(c: char): char {
    if 'A' <= c <= 'Z' then (c as int + 32) as char else c
  }

  /** `Atom.asBoolean` (`Boolean.parseBoolean`): the text is `true` in any letter case. */
  function AsBoolean(t: Term): (b: bool)
    requires t.Atom?
    ensures IsBoolean(t) ==> (b <==> t.value == "true")
  {
    var v := t.value;
    |v| == 4 && LowerAscii(v[0]) == 't' && LowerAscii(v[1]) == 'r'
    && LowerAscii(v[2]) == 'u' && LowerAscii(v[3]) == 'e'
  }

  // ---------------------------------------------------------------- numbers

  function Pow10(n: nat): (p: nat)
    ensures p >= 1
  {
    if n == 0 then 1 else 10 * Pow10(n - 1)
  }

  predicate AllDigits(s: string) {
    forall k :: 0 <= k < |s| ==> IsDigit(s[k])
  }

  /** The value of an unsigned decimal literal `digits ('.' digits?)?` or `'.' digits`. */
  function UnsignedDecimal(s: string): Option<real> {
    var dot := IndexOf(s, '.');
    if dot == -1 then
      if s != [] && AllDigits(s) then Some(DigitsValue(s) as real) else None
    else
      var whole, fraction := s[..dot], s[dot + 1..];
      if (whole != [] || fraction != []) && AllDigits(whole) && AllDigits(fraction) then
        Some(DigitsValue(whole) as real + DigitsValue(fraction) as real / Pow10(|fraction|) as real)
      else None
  }

  /** The decimal literals accepted by `Double.parseDouble` that the model covers:
      an optional sign followed by an unsigned decimal. */
  function ParseDecimal(s: string): Option<real> {
    if s != [] && (s[0] == '-' || s[0] == '+') then
      match UnsignedDecimal(s[1..])
      case Some(v) => Some(if s[0] == '-' then -v else v)
      case None => None
    else UnsignedDecimal(s)
  }

  /** `Atom.isNumber`. */
  predicate IsNumber(t: Term) {
    t.Atom? && ParseDecimal(t.value).Some?
  }

  /** `Atom.asDouble`, on the atoms `IsNumber` accepts. */
  function NumberValue(t: Term): real
    requires IsNumber(t)
  {
    ParseDecimal(t.value).value
  }

  /** `Term.number(int)`: the plain decimal text of the value. */
  function Number(i: int): (t: Term)
    ensures t.Atom? && IsNumber(t) && NumberValue(t) == i as real
  {
    DecimalRoundTrip(i);
    Atom(IntToString(i))
  }

  lemma UnsignedRoundTrip(n: nat)
    ensures UnsignedDecimal(NatToString(n)) == Some(n as real)
  {
    var digits := NatToString(n);
    NatToStringValue(n);
    assert '.' !in digits;
    IndexOfSpec(digits, '.');
    assert IndexOf(digits, '.') == -1;
    assert AllDigits(digits);
  }

  lemma {:induction false} DecimalRoundTrip(i: int)
    ensures ParseDecimal(IntToString(i)) == Some(i as real)
  {
    if i < 0 {
      var s := IntToString(i);
      assert s[1..] == NatToString(-i);
      UnsignedRoundTrip(-i);
      assert UnsignedDecimal(s[1..]) == Some((-i) as real);
    } else {
      UnsignedRoundTrip(i);
      assert IntToString(i)[0] != '-';
      assert IntToString(i)[0] != '+';
    }
  }

  const IntMin: int := -0x8000_0000
  const IntMax: int := 0x7FFF_FFFF

  predicate IsIntegral(r: real) {
    r == r.Floor as real
  }

  /** `Term.number(double)`: an integral value inside the `int` range prints as a plain
      decimal (the cast to `int` saturates, so any other value fails the equality
      test); every other value is printed by `formatG`, which stands for `%.6g`. */
  function NumberOfReal(r: real, formatG: real -> string): (t: Term)
    ensures t.Atom?
    ensures IsIntegral(r) && IntMin as real <= r <= IntMax as real ==> IsNumber(t) && NumberValue(t) == r && '.' !in t.value
    ensures !(IsIntegral(r) && IntMin as real <= r <= IntMax as real) ==> t.value == formatG(r)
  {
    if IsIntegral(r) && IntMin as real <= r <= IntMax as real then
      var t := Number(r.Floor);
      assert '.' !in t.value;
      t
    else
      Atom(formatG(r))
  }

  /** `Term.bool`. */
  function Bool(b: bool): (t: Term)
    ensures IsBoolean(t) && AsBoolean(t) == b
  {
    Atom(if b then "true" else "false")
  }

  // ---------------------------------------------------------------- lists

  /** `List.head`: the first child, or IllegalStateException on the empty list. */
  function Head(t: Term): Result<Term>
    requires t.List?
  {
    if t.elements == [] then Err(IllegalState("Empty list has no head")) else Ok(t.elements[0])
  }

  /** `List.tail`: the list of the remaining children, or IllegalStateException. */
  function Tail(t: Term): Result<Term>
    requires t.List?
  {
    if t.elements == [] then Err(IllegalState("Empty list has no tail")) else Ok(List(t.elements[1..]))
  }

  /** Head and tail fail exactly on the empty list, and otherwise put the list back together. */
  lemma HeadTailRebuild(t: Term)
    requires t.List?
    ensures Head(t).Err? <==> t == Nil
    ensures Tail(t).Err? <==> t == Nil
    ensures Head(t).Ok? ==>
              && Tail(t).Ok? && Tail(t).value.List?
              && t.elements == [Head(t).value] + Tail(t).value.elements
              && |Tail(t).value.elements| == |t.elements| - 1
  {
  }

  /** `List.getFunctionSymbol`. */
  function FunctionSymbol(es: seq<Term>): string {
    if es != [] && es[0].Atom? then es[0].value else ""
  }

  // ---------------------------------------------------------------- cons chains

  /** The cars along the cdr chain from `t`, when that chain ends at the empty list. */
  function ProperChain(t: Term): Option<seq<Term>> {
    match t
    case Cons(a, d) =>
      (match ProperChain(d)
       case Some(rest) => Some([a] + rest)
       case None => None)
    case List(es) => if es == [] then Some([]) else None
    case Atom(_) => None
  }

  /** The nil-terminated cons chain holding `es`. */
  function Chain(es: seq<Term>): Term {
    if es == [] then Nil else Cons(es[0], Chain(es[1..]))
  }

  lemma {:induction false} ChainIsProper(es: seq<Term>)
    ensures ProperChain(Chain(es)) == Some(es)
  {
    if es != [] {
      ChainIsProper(es[1..]);
      assert [es[0]] + es[1..] == es;
    }
  }

  lemma {:induction false} ProperChainIsChain(t: Term)
    requires ProperChain(t).Some?
    ensures Chain(ProperChain(t).value) == t
  {
    if t.Cons? {
      ProperChainIsChain(t.cdr);
      var es := ProperChain(t).value;
      assert es[1..] == ProperChain(t.cdr).value;
    }
  }

  /** The specification of `Cons.toList`. */
  function ConsToList(c: Term): Option<Term>
    requires c.Cons?
  {
    match ProperChain(c)
    case Some(es) => Some(List(es))
    case None => None
  }

  /** `Cons.toList` yields a list exactly for the nil-terminated chains, and that list
      holds the chain's cars in order. */
  lemma ConsToListExact(c: Term)
    requires c.Cons?
    ensures ConsToList(c).Some? <==> exists es :: c == Chain(es)
    ensures ConsToList(c).Some? ==> c == Chain(ConsToList(c).value.elements)
    ensures forall es :: c == Chain(es) ==> ConsToList(c) == Some(List(es))
  {
    if ConsToList(c).Some? {
      ProperChainIsChain(c);
    }
    forall es | c == Chain(es) ensures ConsToList(c) == Some(List(es)) {
      ChainIsProper(es);
    }
  }

  function Prepend(prefix: seq<Term>, chain: Option<seq<Term>>): Option<seq<Term>> {
    match chain
    case Some(rest) => Some(prefix + rest)
    case None => None
  }

  /** `Cons.toList`: walk the cdr chain collecting cars, then check it ends at the empty list. */
  method ToList(c: Term) returns (r: Option<Term>)
    requires c.Cons?
    ensures r == ConsToList(c)
  {
    var elements: seq<Term> := [];
    var current := c;
    assert ProperChain(c) == Prepend(elements, ProperChain(current)) by {
      if ProperChain(c).Some? {
        assert [] + ProperChain(c).value == ProperChain(c).value;
      }
    }
    while current.Cons?
      invariant ProperChain(c) == Prepend(elements, ProperChain(current))
      decreases current
    {
      if ProperChain(current.cdr).Some? {
        var rest := ProperChain(current.cdr).value;
        assert elements + ([current.car] + rest) == (elements + [current.car]) + rest;
      }
      elements := elements + [current.car];
      current := current.cdr;
    }
    if current.List? && current.elements == [] {
      assert elements + [] == elements;
      r := Some(List(elements));
    } else {
      r := None;
    }
  }

  /** `Cons.isProperList`. */
  predicate IsProperList(c: Term)
    requires c.Cons?
  {
    ConsToList(c).Some?
  }

  /** `Cons.length`: the number of cars of a proper chain, and -1 for an improper one. */
  function Length(c: Term): (n: int)
    requires c.Cons?
    ensures n == -1 <==> !IsProperList(c)
    ensures n != -1 ==> n >= 1 && c == Chain(ConsToList(c).value.elements) && n == |ConsToList(c).value.elements|
  {
    match ConsToList(c)
    case Some(l) =>
      ProperChainIsChain(c);
      |l.elements|
    case None => -1
  }

  // ---------------------------------------------------------------- printing

  /** `toString`: an atom prints as its text, a list as its children joined by single
      spaces inside parentheses, a proper cons chain like the list of its cars, and
      any other cons pair as `(car . cdr)`. */
  function ToString(t: Term): string
    decreases t, 1
  {
    match t
    case Atom(v) => v
    case List(es) => "(" + JoinTerms(es) + ")"
    case Cons(a, d) =>
      if ProperChain(t).Some? then "(" + ChainText(t) + ")"
      else "(" + ToString(a) + " . " + ToString(d) + ")"
  }

  /** `String.join(" ", ...)` over the printed children. */
  function JoinTerms(es: seq<Term>): string
    decreases es, 0
  {
    if es == [] then ""
    else if |es| == 1 then ToString(es[0])
    else ToString(es[0]) + " " + JoinTerms(es[1..])
  }

  /** The printed cars of a proper cons chain, joined by single spaces. */
  function ChainText(t: Term): string
    requires t.Cons? && ProperChain(t).Some?
    decreases t, 0
  {
    if t.cdr.Cons? then ToString(t.car) + " " + ChainText(t.cdr) else ToString(t.car)
  }

  lemma {:induction false} ChainTextJoins(t: Term)
    requires t.Cons? && ProperChain(t).Some?
    ensures ChainText(t) == JoinTerms(ProperChain(t).value)
  {
    var es := ProperChain(t).value;
    if t.cdr.Cons? {
      ChainTextJoins(t.cdr);
      assert es[1..] == ProperChain(t.cdr).value;
    } else {
      assert es == [t.car];
    }
  }

  /** A proper cons chain prints exactly like the list `toList` turns it into. */
  lemma ProperConsPrintsAsList(c: Term)
    requires c.Cons? && IsProperList(c)
    ensures ToString(c) == ToString(ConsToList(c).value)
  {
    ChainTextJoins(c);
  }

  lemma {:induction false} JoinTermsShowsElement(es: seq<Term>, i: nat)
    requires i < |es|
    ensures exists k :: OccursAt(JoinTerms(es), ToString(es[i]), k)
  {
    if |es| == 1 {
      assert OccursAt(JoinTerms(es), ToString(es[i]), 0);
    } else if i == 0 {
      assert OccursAt(JoinTerms(es), ToString(es[0]), 0);
    } else {
      JoinTermsShowsElement(es[1..], i - 1);
      var k :| OccursAt(JoinTerms(es[1..]), ToString(es[1..][i - 1]), k);
      var offset := |ToString(es[0])| + 1;
      assert OccursAt(JoinTerms(es), JoinTerms(es[1..]), offset);
      OccursWithin(JoinTerms(es), JoinTerms(es[1..]), ToString(es[i]), offset, k);
    }
  }

  /** The text of a list shows the text of each of its children. */
  lemma ListShowsElement(t: Term, i: nat)
    requires t.List? && i < |t.elements|
    ensures exists k :: OccursAt(ToString(t), ToString(t.elements[i]), k)
  {
    JoinTermsShowsElement(t.elements, i);
    var k :| OccursAt(JoinTerms(t.elements), ToString(t.elements[i]), k);
    assert OccursAt(ToString(t), JoinTerms(t.elements), 1);
    OccursWithin(ToString(t), JoinTerms(t.elements), ToString(t.elements[i]), 1, k);
  }

  /** Lists print with balanced outer parentheses. */
  lemma ListPrintsParenthesised(t: Term)
    requires !t.Atom?
    ensures |ToString(t)| >= 2 && ToString(t)[0] == '(' && ToString(t)[|ToString(t)| - 1] == ')'
  {
  }
}
