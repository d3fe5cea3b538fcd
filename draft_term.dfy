/**
 * The term of the earlier engine under `src/main/java/core/Term.java`: an atom holding a
 * text, or a list of child terms. The Java object copies the children it is given and
 * never changes afterwards, so the term is a value here.
 */
module DraftTerms {
  import opened Text

  datatype Term = Atom(value: string) | List(children: seq<Term>)

  /** `size`: no children for an atom. */
  function Size(t: Term): (n: nat)
    ensures t.List? ==> n == |t.children|
    ensures t.Atom? ==> n == 0
  {
    if t.Atom? then 0 else |t.children|
  }

  /** `isVariable`: an atom whose text starts with `?`. */
  predicate IsVariable(t: Term) {
    t.Atom? && StartsWith(t.value, "?")
  }

  /** `getVariableName`: the text without its first character; `substring(1)` needs a
      character to drop. */
  function VariableName(t: Term): (name: string)
    requires t.Atom? && t.value != []
    ensures [t.value[0]] + name == t.value
  {
    t.value[1..]
  }

  /** A variable's name is what follows the question mark. */
  lemma VariableNameAfterMark(name: string)
    ensures IsVariable(Atom("?" + name)) && VariableName(Atom("?" + name)) == name
  {
    assert ("?" + name)[..1] == "?";
  }

  /** `toString`: the text of an atom, or the children's texts joined by single spaces
      inside parentheses. */
  function ToString(t: Term): string
    decreases t, 1
  {
    match t
    case Atom(v) => v
    case List(cs) => "(" + Join(cs) + ")"
  }

  /** The loop of `toString`: a space before every child but the first. */
  function Join(cs: seq<Term>): string
    decreases cs, 0
  {
    if cs == [] then ""
    else if |cs| == 1 then ToString(cs[0])
    else ToString(cs[0]) + " " + Join(cs[1..])
  }

  /** A list prints inside a pair of parentheses. */
  lemma ListPrintsParenthesised(cs: seq<Term>)
    ensures var s := ToString(List(cs));
            |s| >= 2 && s[0] == '(' && s[|s| - 1] == ')' && s[1..|s| - 1] == Join(cs)
  {
  }

  /** `equals`: atoms by their text, lists by `List.equals` on the children; an atom is
      never equal to a list. */
  function Equals(a: Term, b: Term): bool
    decreases a, 1
  {
    if a.Atom? != b.Atom? then false
    else if a.Atom? then a.value == b.value
    else ChildrenEqual(a.children, b.children)
  }

  /** `List.equals`: the same size and equal elements position by position. */
  function ChildrenEqual(xs: seq<Term>, ys: seq<Term>): bool
    decreases xs, 0
  {
    if |xs| != |ys| then false
    else if xs == [] then true
    else Equals(xs[0], ys[0]) && ChildrenEqual(xs[1..], ys[1..])
  }

  /** `equals` is structural equality of terms. */
  lemma {:induction false} EqualsIsEquality(a: Term, b: Term)
    ensures Equals(a, b) <==> a == b
    decreases a, 1
  {
    if a.List? && b.List? {
      ChildrenEqualIsEquality(a.children, b.children);
    }
  }

  lemma {:induction false} ChildrenEqualIsEquality(xs: seq<Term>, ys: seq<Term>)
    ensures ChildrenEqual(xs, ys) <==> xs == ys
    decreases xs, 0
  {
    if |xs| == |ys| && xs != [] {
      EqualsIsEquality(xs[0], ys[0]);
      ChildrenEqualIsEquality(xs[1..], ys[1..]);
      if xs[0] == ys[0] && xs[1..] == ys[1..] {
        assert xs == [xs[0]] + xs[1..] && ys == [ys[0]] + ys[1..];
      }
    }
  }
}
