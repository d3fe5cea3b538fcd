/**
 * Structural pattern matching of a pattern term against a subject term,
 * producing variable bindings, and substitution of bindings into a template.
 *
 * The Java matcher threads one mutable map through the recursion; here the
 * map is a value that each step takes and hands back. `MatchFrom`,
 * `MatchListFrom` and `MatchElementsFrom` specify the matcher; the methods
 * `Match`, `MatchInternal`, `MatchList` and `ListToCons` follow the Java
 * control flow and are proved equal to them.
 */
module RuleMatcher {
  import opened Wrappers
  import opened Terms

  type Bindings = map<string, Term>

  /** The three-element list pattern `(p . q)`, with the atom `.` in the middle. */
  predicate IsDottedPattern(pes: seq<Term>) {
    |pes| == 3 && pes[1] == Atom(".")
  }

  /** `matchInternal`: the bindings after matching `p` against `t` from `b`, or None. */
  function MatchFrom(p: Term, t: Term, b: Bindings): Option<Bindings>
    decreases p, if t.List? then 3 else 2, 0
  {
    if IsVariable(p) then
      if p.value in b then (if b[p.value] == t then Some(b) else None)
      else Some(b[p.value := t])
    else if p.Atom? && t.Atom? then
      if p.value == t.value then Some(b) else None
    else if p.List? && t.List? then
      MatchListFrom(p, t, b)
    else if p.Cons? && t.Cons? then
      match MatchFrom(p.car, t.car, b)
      case Some(b1) => MatchFrom(p.cdr, t.cdr, b1)
      case None => None
    else if p.List? && t.Cons? && ProperChain(t).Some? then
      MatchListFrom(p, List(ProperChain(t).value), b)
    else if p.Cons? && t.List? then
      if t.elements == [] then None else MatchFrom(p, Chain(t.elements), b)
    else
      None
  }

  /** `matchList`: the dotted pattern takes the head and the rest of the list;
      any other list pattern needs a list of the same length. */
  function MatchListFrom(p: Term, t: Term, b: Bindings): Option<Bindings>
    requires p.List? && t.List?
    decreases p, 1, 0
  {
    var pes, tes := p.elements, t.elements;
    if IsDottedPattern(pes) then
      if tes == [] then None
      else
        match MatchFrom(pes[0], tes[0], b)
        case Some(b1) => MatchFrom(pes[2], List(tes[1..]), b1)
        case None => None
    else if |pes| != |tes| then None
    else MatchElementsFrom(p, t, 0, b)
  }

  /** Matching the children from index `i` on, left to right, stopping at the first failure. */
  function MatchElementsFrom(p: Term, t: Term, i: nat, b: Bindings): Option<Bindings>
    requires p.List? && t.List? && |p.elements| == |t.elements| && i <= |p.elements|
    decreases p, 0, |p.elements| - i
  {
    if i == |p.elements| then Some(b)
    else
      match MatchFrom(p.elements[i], t.elements[i], b)
      case Some(b1) => MatchElementsFrom(p, t, i + 1, b1)
      case None => None
  }

  /** `match`: start from no bindings, and yield nothing on failure. */
  method Match(pattern: Term, term: Term) returns (r: Option<Bindings>)
    ensures r == MatchFrom(pattern, term, map[])
  {
    var ok, bindings := MatchInternal(pattern, term, map[]);
    if ok {
      r := Some(bindings);
    } else {
      r := None;
    }
  }

  method MatchInternal(pattern: Term, term: Term, bindings: Bindings) returns (ok: bool, result: Bindings)
    ensures ok == MatchFrom(pattern, term, bindings).Some?
    ensures ok ==> result == MatchFrom(pattern, term, bindings).value
    decreases pattern, if term.List? then 3 else 2, 0
  {
    if IsVariable(pattern) {
      var name := pattern.value;
      if name in bindings {
        return bindings[name] == term, bindings;
      }
      return true, bindings[name := term];
    }
    if pattern.Atom? && term.Atom? {
      return pattern.value == term.value, bindings;
    }
    if pattern.List? && term.List? {
      ok, result := MatchList(pattern, term, bindings);
      return;
    }
    if pattern.Cons? && term.Cons? {
      ok, result := MatchInternal(pattern.car, term.car, bindings);
      if ok {
        ok, result := MatchInternal(pattern.cdr, term.cdr, result);
      }
      return;
    }
    if pattern.List? && term.Cons? {
      var termAsList := ToList(term);
      if termAsList.Some? {
        ok, result := MatchList(pattern, termAsList.value, bindings);
        return;
      }
    }
    if pattern.Cons? && term.List? {
      if term.elements == [] {
        return false, bindings;
      }
      var termAsCons := ListToCons(term);
      ok, result := MatchInternal(pattern, termAsCons, bindings);
      return;
    }
    return false, bindings;
  }

  method MatchList(pattern: Term, term: Term, bindings: Bindings) returns (ok: bool, result: Bindings)
    requires pattern.List? && term.List?
    ensures ok == MatchListFrom(pattern, term, bindings).Some?
    ensures ok ==> result == MatchListFrom(pattern, term, bindings).value
    decreases pattern, 1, 0
  {
    var pes, tes := pattern.elements, term.elements;
    if |pes| == 3 && pes[1].Atom? && pes[1].value == "." {
      if tes == [] {
        return false, bindings;
      }
      ok, result := MatchInternal(pes[0], tes[0], bindings);
      if !ok {
        return;
      }
      var termTail := if |tes| == 1 then Nil else List(tes[1..]);
      assert termTail == List(tes[1..]);
      ok, result := MatchInternal(pes[2], termTail, result);
      return;
    }
    if |pes| != |tes| {
      return false, bindings;
    }
    result := bindings;
    var i := 0;
    while i < |pes|
      invariant 0 <= i <= |pes|
      invariant MatchElementsFrom(pattern, term, 0, bindings) == MatchElementsFrom(pattern, term, i, result)
    {
      ok, result := MatchInternal(pes[i], tes[i], result);
      if !ok {
        return;
      }
      i := i + 1;
    }
    return true, result;
  }

  /** `listToCons`: the nil-terminated cons chain of the list's children, built from the
      right; the empty list is returned as it is. */
  method ListToCons(list: Term) returns (r: Term)
    requires list.List?
    ensures r == Chain(list.elements)
  {
    var es := list.elements;
    if es == [] {
      return list;
    }
    r := Nil;
    var i := |es|;
    while i > 0
      invariant 0 <= i <= |es|
      invariant r == Chain(es[i..])
    {
      i := i - 1;
      assert es[i..][1..] == es[i + 1..];
      r := Cons(es[i], r);
    }
  }

  /** `substitute`: a bound variable becomes its value, an unbound one stays; lists are
      rebuilt child by child; a cons pair is rebuilt and becomes a list when the
      rebuilt pair is a proper chain. A list keeps its length, and a cons-free template
      filled with cons-free values stays cons-free. */
  function Substitute(template: Term, b: Bindings): (r: Term)
    ensures template.List? ==> r.List? && |r.elements| == |template.elements|
    ensures ConsFree(template) && ConsFreeValues(b) ==> ConsFree(r)
  {
    match template
    case Atom(v) => if IsVariable(template) && v in b then b[v] else template
    case List(es) => List(seq(|es|, i requires 0 <= i < |es| => Substitute(es[i], b)))
    case Cons(a, d) =>
      var rebuilt := Cons(Substitute(a, b), Substitute(d, b));
      match ProperChain(rebuilt)
      case Some(cars) => List(cars)
      case None => rebuilt
  }

  // ---------------------------------------------------------------- properties

  /** The variable names occurring in a term. */
  function Vars(t: Term): set<string> {
    match t
    case Atom(v) => if IsVariable(t) then {v} else {}
    case List(es) => VarsOf(es)
    case Cons(a, d) => Vars(a) + Vars(d)
  }

  function VarsOf(es: seq<Term>): set<string> {
    if es == [] then {} else Vars(es[0]) + VarsOf(es[1..])
  }

  lemma {:induction false} VarsOfElement(es: seq<Term>, i: nat)
    requires i < |es|
    ensures Vars(es[i]) <= VarsOf(es)
    ensures VarsOf(es[i..]) == Vars(es[i]) + VarsOf(es[i + 1..])
  {
    assert es[i..][1..] == es[i + 1..];
    if i > 0 {
      VarsOfElement(es[1..], i - 1);
      assert es[1..][i - 1..] == es[i..];
    }
  }

  /** `b2` keeps every binding of `b1`. */
  predicate Extends(b1: Bindings, b2: Bindings) {
    forall k :: k in b1 ==> k in b2 && b2[k] == b1[k]
  }

  /** A successful match never overwrites a binding, and the names it binds are
      exactly the variables of the pattern. */
  lemma {:induction false} MatchBindsPatternVars(p: Term, t: Term, b: Bindings)
    requires MatchFrom(p, t, b).Some?
    ensures Extends(b, MatchFrom(p, t, b).value)
    ensures MatchFrom(p, t, b).value.Keys == b.Keys + Vars(p)
    decreases p, if t.List? then 3 else 2, 0
  {
    if IsVariable(p) {
    } else if p.Atom? && t.Atom? {
    } else if p.List? && t.List? {
      MatchListBindsPatternVars(p, t, b);
    } else if p.Cons? && t.Cons? {
      var b1 := MatchFrom(p.car, t.car, b).value;
      MatchBindsPatternVars(p.car, t.car, b);
      MatchBindsPatternVars(p.cdr, t.cdr, b1);
    } else if p.List? && t.Cons? && ProperChain(t).Some? {
      MatchListBindsPatternVars(p, List(ProperChain(t).value), b);
    } else {
      MatchBindsPatternVars(p, Chain(t.elements), b);
    }
  }

  lemma {:induction false} MatchListBindsPatternVars(p: Term, t: Term, b: Bindings)
    requires p.List? && t.List? && MatchListFrom(p, t, b).Some?
    ensures Extends(b, MatchListFrom(p, t, b).value)
    ensures MatchListFrom(p, t, b).value.Keys == b.Keys + Vars(p)
    decreases p, 1, 0
  {
    var pes, tes := p.elements, t.elements;
    if IsDottedPattern(pes) {
      var b1 := MatchFrom(pes[0], tes[0], b).value;
      MatchBindsPatternVars(pes[0], tes[0], b);
      MatchBindsPatternVars(pes[2], List(tes[1..]), b1);
      assert VarsOf(pes) == Vars(pes[0]) + Vars(pes[2]) by {
        VarsOfElement(pes, 0);
        VarsOfElement(pes, 1);
        VarsOfElement(pes, 2);
        assert pes[0..] == pes && pes[3..] == [];
        assert "."[..1] == ".";
      }
    } else {
      MatchElementsBindsPatternVars(p, t, 0, b);
      assert pes[0..] == pes;
    }
  }

  lemma {:induction false} MatchElementsBindsPatternVars(p: Term, t: Term, i: nat, b: Bindings)
    requires p.List? && t.List? && |p.elements| == |t.elements| && i <= |p.elements|
    requires MatchElementsFrom(p, t, i, b).Some?
    ensures Extends(b, MatchElementsFrom(p, t, i, b).value)
    ensures MatchElementsFrom(p, t, i, b).value.Keys == b.Keys + VarsOf(p.elements[i..])
    decreases p, 0, |p.elements| - i
  {
    if i < |p.elements| {
      var b1 := MatchFrom(p.elements[i], t.elements[i], b).value;
      MatchBindsPatternVars(p.elements[i], t.elements[i], b);
      MatchElementsBindsPatternVars(p, t, i + 1, b1);
      VarsOfElement(p.elements, i);
    }
  }

  /** Patterns without cons pairs and without the dotted `(p . q)` form. */
  predicate Plain(p: Term) {
    match p
    case Atom(_) => true
    case List(es) => !IsDottedPattern(es) && forall i :: 0 <= i < |es| ==> Plain(es[i])
    case Cons(_, _) => false
  }

  /** Terms without cons pairs, such as every term the parsers produce. */
  predicate ConsFree(t: Term) {
    match t
    case Atom(_) => true
    case List(es) => forall i :: 0 <= i < |es| ==> ConsFree(es[i])
    case Cons(_, _) => false
  }

  /** Every value bound is cons-free. */
  predicate ConsFreeValues(b: Bindings) {
    forall v :: v in b ==> ConsFree(b[v])
  }

  /** Soundness: instantiating a plain pattern with the bindings of a successful match,
      or with any bindings that keep them, gives back the matched term. */
  lemma {:induction false} MatchSound(p: Term, t: Term, b: Bindings, later: Bindings)
    requires Plain(p) && ConsFree(t)
    requires MatchFrom(p, t, b).Some? && Extends(MatchFrom(p, t, b).value, later)
    ensures Substitute(p, later) == t
    decreases p
  {
    if p.List? {
      var pes, tes := p.elements, t.elements;
      forall i | 0 <= i < |pes| ensures Substitute(pes[i], later) == tes[i] {
        MatchElementsSound(p, t, 0, b, later, i);
      }
    }
  }

  lemma {:induction false} MatchElementsSound(p: Term, t: Term, j: nat, b: Bindings, later: Bindings, i: nat)
    requires p.List? && t.List? && |p.elements| == |t.elements| && j <= i < |p.elements|
    requires Plain(p) && ConsFree(t)
    requires MatchElementsFrom(p, t, j, b).Some? && Extends(MatchElementsFrom(p, t, j, b).value, later)
    ensures Substitute(p.elements[i], later) == t.elements[i]
    decreases p, |p.elements| - j
  {
    var b1 := MatchFrom(p.elements[j], t.elements[j], b).value;
    if j < i {
      MatchElementsSound(p, t, j + 1, b1, later, i);
    } else {
      MatchElementsBindsPatternVars(p, t, j + 1, b1);
      MatchSound(p.elements[i], t.elements[i], b, later);
    }
  }

  /** `b` agrees with `sigma` on the names in `names` that `b` binds. */
  predicate AgreesOn(b: Bindings, sigma: Bindings, names: set<string>) {
    forall k :: k in b && k in names ==> k in sigma && b[k] == sigma[k]
  }

  /** Completeness: a plain pattern matches every instance of itself, and the match
      binds each pattern variable to the value the instance was built with. */
  lemma {:induction false} MatchComplete(p: Term, sigma: Bindings, b: Bindings, names: set<string>)
    requires Plain(p) && Vars(p) <= sigma.Keys && Vars(p) <= names
    requires AgreesOn(b, sigma, names)
    ensures MatchFrom(p, Substitute(p, sigma), b).Some?
    ensures AgreesOn(MatchFrom(p, Substitute(p, sigma), b).value, sigma, names)
    ensures Vars(p) <= MatchFrom(p, Substitute(p, sigma), b).value.Keys
    decreases p, 1
  {
    if p.List? {
      MatchElementsComplete(p, sigma, 0, b, names);
      assert p.elements[0..] == p.elements;
    }
  }

  lemma {:induction false} MatchElementsComplete(p: Term, sigma: Bindings, i: nat, b: Bindings, names: set<string>)
    requires p.List? && Plain(p) && i <= |p.elements|
    requires Vars(p) <= sigma.Keys && Vars(p) <= names
    requires AgreesOn(b, sigma, names)
    ensures var t := Substitute(p, sigma);
      && MatchElementsFrom(p, t, i, b).Some?
      && AgreesOn(MatchElementsFrom(p, t, i, b).value, sigma, names)
      && VarsOf(p.elements[i..]) <= MatchElementsFrom(p, t, i, b).value.Keys
    decreases p, 0, |p.elements| - i
  {
    var t := Substitute(p, sigma);
    if i < |p.elements| {
      var pi := p.elements[i];
      VarsOfElement(p.elements, i);
      MatchComplete(pi, sigma, b, names);
      var b1 := MatchFrom(pi, Substitute(pi, sigma), b).value;
      MatchBindsPatternVars(pi, Substitute(pi, sigma), b);
      MatchElementsComplete(p, sigma, i + 1, b1, names);
      MatchElementsBindsPatternVars(p, t, i + 1, b1);
    }
  }

  /** A template without cons pairs none of whose variables is bound is returned as it is. */
  lemma {:induction false} SubstituteUnbound(t: Term, b: Bindings)
    requires ConsFree(t) && Vars(t) !! b.Keys
    ensures Substitute(t, b) == t
  {
    if t.List? {
      forall i | 0 <= i < |t.elements| ensures Substitute(t.elements[i], b) == t.elements[i] {
        VarsOfElement(t.elements, i);
        SubstituteUnbound(t.elements[i], b);
      }
    }
  }

  /** Conversion happens one pair at a time, inner pair first: in a two-element chain
      the inner pair becomes the list `(y)`, which leaves the outer pair improper, so the
      result is `(x . (y))` rather than the list `(x y)`. */
  lemma SubstituteConvertsInnermostPair()
    ensures Substitute(Chain([Atom("x"), Atom("y")]), map[]) == Cons(Atom("x"), List([Atom("y")]))
  {
    var inner := Cons(Atom("y"), Nil);
    assert Substitute(inner, map[]) == List([Atom("y")]) by {
      assert [Atom("y")] + [] == [Atom("y")];
      assert ProperChain(inner) == Some([Atom("y")]);
    }
  }

  /** A repeated variable must be bound to equal subterms. */
  lemma RepeatedVariableExample()
    ensures var p := List([Atom("f"), Atom("?x"), Atom("?x")]);
      && MatchFrom(p, List([Atom("f"), Atom("hello"), Atom("hello")]), map[]) == Some(map["?x" := Atom("hello")])
      && MatchFrom(p, List([Atom("f"), Atom("hello"), Atom("world")]), map[]) == None
  {
    var p := List([Atom("f"), Atom("?x"), Atom("?x")]);
    var t := List([Atom("f"), Atom("hello"), Atom("hello")]);
    var bound := map["?x" := Atom("hello")];
    assert MatchElementsFrom(p, t, 3, bound) == Some(bound);
    assert MatchElementsFrom(p, t, 2, bound) == Some(bound);
    assert MatchElementsFrom(p, t, 1, map[]) == Some(bound);
    assert "f"[..1] == "f";
    assert MatchFrom(Atom("f"), Atom("f"), map[]) == Some(map[]);
    assert MatchElementsFrom(p, t, 0, map[]) == Some(bound);
  }

  /** The dotted pattern binds the head and the list of the remaining elements, and fails on `()`. */
  lemma DottedPatternExample()
    ensures var p := List([Atom("?head"), Atom("."), Atom("?tail")]);
      && MatchFrom(p, List([Atom("a"), Atom("b"), Atom("c")]), map[])
         == Some(map["?head" := Atom("a"), "?tail" := List([Atom("b"), Atom("c")])])
      && MatchFrom(p, Nil, map[]) == None
  {
  }
}
