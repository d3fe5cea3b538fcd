/**
 * The rewriter of the earlier engine under `src/main/java/engine/Rewriter.java`: one step
 * applies the first rule whose pattern matches the whole term, or else steps every child;
 * matching fills a table of variable bindings that the rewriter keeps between calls.
 * The table is the `bindings` field, and every application bumps the rule's reference
 * count; both are stated against the functions below.
 */
module DraftRewriting {
  import opened Wrappers
  import opened DraftTerms
  import opened DraftRules
  import opened RuleManagement

  type Bindings = map<string, Term>

  // ------------------------------------------------------------ the specification

  /** `match` starting from the bindings `b`: whether it succeeds, and the bindings it
      leaves. A bound variable must meet an equal term; an unbound one is bound. On a
      failure the bindings made before the mismatch stay. */
  function MatchFrom(p: Term, t: Term, b: Bindings): (bool, Bindings)
    decreases p, 1
  {
    if IsVariable(p) then
      var name := VariableName(p);
      if name in b then (b[name] == t, b) else (true, b[name := t])
    else if p.Atom? && t.Atom? then (p.value == t.value, b)
    else if p.List? && t.List? then
      if |p.children| != |t.children| then (false, b) else MatchChildrenFrom(p, t, 0, b)
    else (false, b)
  }

  /** The loop of `match` over the children from `i` on; it stops at the first failure. */
  function MatchChildrenFrom(p: Term, t: Term, i: nat, b: Bindings): (bool, Bindings)
    requires p.List? && t.List? && |p.children| == |t.children| && i <= |p.children|
    decreases p, 0, |p.children| - i
  {
    if i == |p.children| then (true, b)
    else
      var (ok, b1) := MatchFrom(p.children[i], t.children[i], b);
      if !ok then (false, b1) else MatchChildrenFrom(p, t, i + 1, b1)
  }

  /** `substitute`: a bound variable becomes its binding, an unbound one and any other
      atom stay, a list is rebuilt from its substituted children. */
  function Subst(template: Term, b: Bindings): Term
    decreases template
  {
    if IsVariable(template) then
      var name := VariableName(template);
      if name in b then b[name] else template
    else if template.Atom? then template
    else List(seq(|template.children|, k requires 0 <= k < |template.children| =>
                    Subst(template.children[k], b)))
  }

  /** The position of the first rule whose pattern matches the whole term from empty
      bindings, or -1. */
  function FirstMatching(rules: seq<Rule>, term: Term): (i: int)
    ensures -1 <= i < |rules|
    ensures i >= 0 ==> MatchFrom(rules[i].pattern, term, map[]).0
    ensures forall j :: 0 <= j < |rules| && (i < 0 || j < i) ==> !MatchFrom(rules[j].pattern, term, map[]).0
  {
    if rules == [] then -1
    else if MatchFrom(rules[0].pattern, term, map[]).0 then 0
    else
      var i := FirstMatching(rules[1..], term);
      if i < 0 then -1 else i + 1
  }

  /** The bindings `findMatchingRule` leaves: those of its last attempt, or the old ones
      when there are no rules. */
  function SearchBindings(rules: seq<Rule>, term: Term, b: Bindings): Bindings {
    var i := FirstMatching(rules, term);
    if i >= 0 then MatchFrom(rules[i].pattern, term, map[]).1
    else if rules == [] then b
    else MatchFrom(rules[|rules| - 1].pattern, term, map[]).1
  }

  /** `rewriteStep`: an atom stays; a list is rewritten by the first rule that matches it
      whole, or else each child takes one step. */
  function StepTerm(rules: seq<Rule>, t: Term): Term
    decreases t, 1
  {
    if t.Atom? then t
    else
      var i := FirstMatching(rules, t);
      if i >= 0 then Subst(rules[i].replacement, MatchFrom(rules[i].pattern, t, map[]).1)
      else List(StepEach(rules, t))
  }

  /** Each child of a list after one step. */
  function StepEach(rules: seq<Rule>, t: Term): (cs: seq<Term>)
    requires t.List?
    ensures |cs| == |t.children|
    decreases t, 0
  {
    seq(|t.children|, k requires 0 <= k < |t.children| => StepTerm(rules, t.children[k]))
  }

  /** The rules one step applies, each as often as it is applied. */
  function Fired(rules: seq<Rule>, t: Term): multiset<Rule>
    decreases t, 1
  {
    if t.Atom? then multiset{}
    else
      var i := FirstMatching(rules, t);
      if i >= 0 then multiset{rules[i]} else FiredChildren(rules, t, |t.children|)
  }

  /** The rules applied while stepping the first `n` children. */
  function FiredChildren(rules: seq<Rule>, t: Term, n: nat): multiset<Rule>
    requires t.List? && n <= |t.children|
    decreases t, 0, n
  {
    if n == 0 then multiset{} else FiredChildren(rules, t, n - 1) + Fired(rules, t.children[n - 1])
  }

  /** The bindings one step leaves behind. */
  function StepBindings(rules: seq<Rule>, t: Term, b: Bindings): Bindings
    decreases t, 1
  {
    if t.Atom? then b
    else
      var i := FirstMatching(rules, t);
      if i >= 0 then MatchFrom(rules[i].pattern, t, map[]).1
      else ChildrenBindings(rules, t, |t.children|, SearchBindings(rules, t, b))
  }

  /** The bindings left after stepping the first `n` children, from `b`. */
  function ChildrenBindings(rules: seq<Rule>, t: Term, n: nat, b: Bindings): Bindings
    requires t.List? && n <= |t.children|
    decreases t, 0, n
  {
    if n == 0 then b else StepBindings(rules, t.children[n - 1], ChildrenBindings(rules, t, n - 1, b))
  }

  /** `rewriteMultiple`: at most `n` steps, stopping at the first step that changes nothing. */
  function Iterate(rules: seq<Rule>, t: Term, n: int): Term
    decreases n
  {
    if n <= 0 then t
    else
      var next := StepTerm(rules, t);
      if next == t then t else Iterate(rules, next, n - 1)
  }

  /** The rules applied over the steps of `Iterate`, the last unchanging step included. */
  function IterFired(rules: seq<Rule>, t: Term, n: int): multiset<Rule>
    decreases n
  {
    if n <= 0 then multiset{}
    else
      var next := StepTerm(rules, t);
      Fired(rules, t) + (if next == t then multiset{} else IterFired(rules, next, n - 1))
  }

  /** The bindings left after the steps of `Iterate`. */
  function IterBindings(rules: seq<Rule>, t: Term, n: int, b: Bindings): Bindings
    decreases n
  {
    if n <= 0 then b
    else
      var next := StepTerm(rules, t);
      var b1 := StepBindings(rules, t, b);
      if next == t then b1 else IterBindings(rules, next, n - 1, b1)
  }

  /** One more child stepped. */
  lemma ChildStep(rules: seq<Rule>, t: Term, i: nat, b: Bindings)
    requires t.List? && i < |t.children|
    ensures ChildrenBindings(rules, t, i + 1, b) == StepBindings(rules, t.children[i], ChildrenBindings(rules, t, i, b))
    ensures FiredChildren(rules, t, i + 1) == FiredChildren(rules, t, i) + Fired(rules, t.children[i])
  {
  }

  /** Helper for the loop of `StepChildren`: a prefix one longer is the prefix and the
      next element. As a lemma it keeps that loop's proof within bounds. */
  lemma SliceNext<T>(s: seq<T>, i: nat)
    requires i < |s|
    ensures s[..i + 1] == s[..i] + [s[i]]
  {
  }

  /** A list no rule matches steps its children. */
  lemma NoRuleMatches(rules: seq<Rule>, t: Term, b: Bindings)
    requires t.List? && FirstMatching(rules, t) < 0
    ensures StepTerm(rules, t) == List(StepEach(rules, t))
    ensures Fired(rules, t) == FiredChildren(rules, t, |t.children|)
    ensures StepBindings(rules, t, b) == ChildrenBindings(rules, t, |t.children|, SearchBindings(rules, t, b))
  {
  }

  // ------------------------------------------------------------ properties

  /** `b2` keeps every binding of `b`. */
  predicate Extends(b: Bindings, b2: Bindings) {
    forall k :: k in b ==> k in b2 && b2[k] == b[k]
  }

  /** Every variable of `t` has a binding in `b`. */
  predicate AllBound(t: Term, b: Bindings)
    decreases t
  {
    if IsVariable(t) then VariableName(t) in b
    else t.Atom? || forall k :: 0 <= k < |t.children| ==> AllBound(t.children[k], b)
  }

  /** Matching only adds bindings: a binding once made is never replaced. */
  lemma {:induction false} MatchKeeps(p: Term, t: Term, b: Bindings)
    ensures Extends(b, MatchFrom(p, t, b).1)
    decreases p, 1
  {
    if !IsVariable(p) && p.List? && t.List? && |p.children| == |t.children| {
      MatchChildrenKeeps(p, t, 0, b);
    }
  }

  lemma {:induction false} MatchChildrenKeeps(p: Term, t: Term, i: nat, b: Bindings)
    requires p.List? && t.List? && |p.children| == |t.children| && i <= |p.children|
    ensures Extends(b, MatchChildrenFrom(p, t, i, b).1)
    decreases p, 0, |p.children| - i
  {
    if i < |p.children| {
      var b1 := MatchFrom(p.children[i], t.children[i], b).1;
      MatchKeeps(p.children[i], t.children[i], b);
      MatchChildrenKeeps(p, t, i + 1, b1);
    }
  }

  /** Substitution with more bindings changes nothing once every variable is bound. */
  lemma {:induction false} SubstStable(p: Term, b: Bindings, b2: Bindings)
    requires AllBound(p, b) && Extends(b, b2)
    ensures AllBound(p, b2) && Subst(p, b2) == Subst(p, b)
    decreases p
  {
    if !IsVariable(p) && p.List? {
      forall k | 0 <= k < |p.children|
        ensures AllBound(p.children[k], b2) && Subst(p.children[k], b2) == Subst(p.children[k], b)
      {
        SubstStable(p.children[k], b, b2);
      }
    }
  }

  /** A successful match binds every variable of the pattern, and substituting the
      bindings into the pattern gives back the term. */
  lemma {:induction false} MatchSound(p: Term, t: Term, b: Bindings)
    ensures var (ok, b2) := MatchFrom(p, t, b);
            ok ==> AllBound(p, b2) && Subst(p, b2) == t
    decreases p, 1
  {
    if !IsVariable(p) && p.List? && t.List? && |p.children| == |t.children| {
      var b2 := MatchFrom(p, t, b).1;
      MatchChildrenSound(p, t, 0, b);
      if MatchFrom(p, t, b).0 {
        assert Subst(p, b2).children == t.children;
      }
    }
  }

  lemma {:induction false} MatchChildrenSound(p: Term, t: Term, i: nat, b: Bindings)
    requires p.List? && t.List? && |p.children| == |t.children| && i <= |p.children|
    ensures var (ok, b2) := MatchChildrenFrom(p, t, i, b);
            ok ==> forall k :: i <= k < |p.children| ==>
                     AllBound(p.children[k], b2) && Subst(p.children[k], b2) == t.children[k]
    decreases p, 0, |p.children| - i
  {
    if i < |p.children| {
      var (ok1, b1) := MatchFrom(p.children[i], t.children[i], b);
      if ok1 {
        var b2 := MatchChildrenFrom(p, t, i + 1, b1).1;
        MatchSound(p.children[i], t.children[i], b);
        MatchChildrenSound(p, t, i + 1, b1);
        MatchChildrenKeeps(p, t, i + 1, b1);
        SubstStable(p.children[i], b1, b2);
      }
    }
  }

  /** A pattern that matches also passes the rule list's quick structural test. */
  lemma {:induction false} MatchCouldMatch(p: Term, t: Term, b: Bindings)
    ensures MatchFrom(p, t, b).0 ==> CouldMatch(p, t)
    decreases p, 1
  {
    if !IsVariable(p) && p.List? && t.List? && |p.children| == |t.children| {
      MatchChildrenCouldMatch(p, t, 0, b);
    }
  }

  lemma {:induction false} MatchChildrenCouldMatch(p: Term, t: Term, i: nat, b: Bindings)
    requires p.List? && t.List? && |p.children| == |t.children| && i <= |p.children|
    ensures MatchChildrenFrom(p, t, i, b).0 ==> ChildrenCouldMatch(p, t, i)
    decreases p, 0, |p.children| - i
  {
    if i < |p.children| {
      var b1 := MatchFrom(p.children[i], t.children[i], b).1;
      MatchCouldMatch(p.children[i], t.children[i], b);
      MatchChildrenCouldMatch(p, t, i + 1, b1);
    }
  }

  /** The converse fails: the quick test lets `(?x ?x)` through against `(a b)`, which
      `match` rejects because `?x` is already bound to `a`. */
  lemma RepeatedVariableChecked()
    ensures var p := List([Atom("?x"), Atom("?x")]);
            var t := List([Atom("a"), Atom("b")]);
            CouldMatch(p, t) && !MatchFrom(p, t, map[]).0
  {
    var p := List([Atom("?x"), Atom("?x")]);
    var t := List([Atom("a"), Atom("b")]);
    VariableNameAfterMark("x");
    assert MatchFrom(p.children[0], t.children[0], map[]) == (true, map["x" := Atom("a")]);
    assert MatchFrom(p.children[1], t.children[1], map["x" := Atom("a")]).0 == false;
  }

  /** With no bindings, substitution returns the template unchanged. */
  lemma {:induction false} SubstNothing(t: Term)
    ensures Subst(t, map[]) == t
    decreases t
  {
    if !IsVariable(t) && t.List? {
      forall k | 0 <= k < |t.children|
        ensures Subst(t.children[k], map[]) == t.children[k]
      {
        SubstNothing(t.children[k]);
      }
      assert Subst(t, map[]).children == t.children;
    }
  }

  /** A step that applies no rule leaves the term as it was. */
  lemma {:induction false} NothingFiredNothingChanged(rules: seq<Rule>, t: Term)
    requires |Fired(rules, t)| == 0
    ensures StepTerm(rules, t) == t
    decreases t, 1
  {
    if t.List? {
      FiredChildrenEmpty(rules, t, |t.children|);
      assert StepEach(rules, t) == t.children;
    }
  }

  lemma {:induction false} FiredChildrenEmpty(rules: seq<Rule>, t: Term, n: nat)
    requires t.List? && n <= |t.children| && |FiredChildren(rules, t, n)| == 0
    ensures forall k :: 0 <= k < n ==> StepTerm(rules, t.children[k]) == t.children[k]
    decreases t, 0, n
  {
    if n > 0 {
      FiredChildrenEmpty(rules, t, n - 1);
      NothingFiredNothingChanged(rules, t.children[n - 1]);
    }
  }

  /** `n` steps one after the other. */
  function StepN(rules: seq<Rule>, t: Term, n: int): Term
    decreases n
  {
    if n <= 0 then t else StepN(rules, StepTerm(rules, t), n - 1)
  }

  /** `rewriteMultiple` ends at a term a step leaves unchanged, or after all its steps. */
  lemma {:induction false} IterateOutcome(rules: seq<Rule>, t: Term, n: int)
    ensures var r := Iterate(rules, t, n);
            StepTerm(rules, r) == r || r == StepN(rules, t, n)
    decreases n
  {
    if n > 0 && StepTerm(rules, t) != t {
      IterateOutcome(rules, StepTerm(rules, t), n - 1);
    }
  }

  /** Once `rewriteMultiple` has reached a term a step leaves unchanged, a larger budget
      gives the same result. */
  lemma {:induction false} IterateBudget(rules: seq<Rule>, t: Term, n: int, m: int)
    requires n <= m
    requires StepTerm(rules, Iterate(rules, t, n)) == Iterate(rules, t, n)
    ensures Iterate(rules, t, m) == Iterate(rules, t, n)
    decreases n
  {
    if n > 0 && StepTerm(rules, t) != t {
      IterateBudget(rules, StepTerm(rules, t), n - 1, m - 1);
    }
  }

  // ------------------------------------------------------------ the class

  class Rewriter {
    const ruleManager: RuleManager
    var bindings: Bindings

    constructor (ruleManager: RuleManager)
      ensures this.ruleManager == ruleManager && bindings == map[]
    {
      this.ruleManager := ruleManager;
      bindings := map[];
    }

    /** `rewrite`: one step. */
    method Rewrite(term: Term) returns (result: Term)
      modifies this, ruleManager.rules
      ensures result == StepTerm(ruleManager.rules, term)
      ensures bindings == StepBindings(ruleManager.rules, term, old(bindings))
      ensures forall r :: r in ruleManager.rules ==>
                r.references == old(r.references) + Fired(ruleManager.rules, term)[r]
    {
      result := RewriteStep(term);
    }

    /** `rewriteMultiple`: steps until a step changes nothing or `maxSteps` are taken. */
    method RewriteMultiple(term: Term, maxSteps: int) returns (current: Term)
      modifies this, ruleManager.rules
      ensures current == Iterate(ruleManager.rules, term, maxSteps)
      ensures bindings == IterBindings(ruleManager.rules, term, maxSteps, old(bindings))
      ensures forall r :: r in ruleManager.rules ==>
                r.references == old(r.references) + IterFired(ruleManager.rules, term, maxSteps)[r]
    {
      var rules := ruleManager.rules;
      current := term;
      var i := 0;
      while i < maxSteps
        invariant 0 <= i && ruleManager.rules == rules
        invariant Iterate(rules, term, maxSteps) == Iterate(rules, current, maxSteps - i)
        invariant IterBindings(rules, term, maxSteps, old(bindings))
                  == IterBindings(rules, current, maxSteps - i, bindings)
        invariant forall r :: r in rules ==>
                    r.references + IterFired(rules, current, maxSteps - i)[r]
                    == old(r.references) + IterFired(rules, term, maxSteps)[r]
        decreases maxSteps - i
      {
        var next := RewriteStep(current);
        EqualsIsEquality(next, current);
        if Equals(next, current) {
          return;
        }
        current := next;
        i := i + 1;
      }
    }

    /** `rewriteStep`. */
    method RewriteStep(term: Term) returns (result: Term)
      modifies this, ruleManager.rules
      ensures result == StepTerm(ruleManager.rules, term)
      ensures bindings == StepBindings(ruleManager.rules, term, old(bindings))
      ensures forall r :: r in ruleManager.rules ==>
                r.references == old(r.references) + Fired(ruleManager.rules, term)[r]
      decreases term, 1
    {
      if term.Atom? {
        return term;
      }
      var rules := ruleManager.rules;
      var matchingRule := FindMatchingRule(term);
      if matchingRule.Some? {
        bindings := map[];
        var ok := Match(matchingRule.value.pattern, term);
        if ok {
          matchingRule.value.IncrementReferences();
          result := Substitute(matchingRule.value.replacement);
          return;
        }
      }
      result := StepChildren(term);
      NoRuleMatches(rules, term, old(bindings));
    }

    /** The second half of `rewriteStep`: every child takes one step, and the term itself
        is returned when no child changed. */
    method StepChildren(term: Term) returns (result: Term)
      requires term.List?
      modifies this, ruleManager.rules
      ensures result == List(StepEach(ruleManager.rules, term))
      ensures bindings == ChildrenBindings(ruleManager.rules, term, |term.children|, old(bindings))
      ensures forall r :: r in ruleManager.rules ==>
                r.references == old(r.references) + FiredChildren(ruleManager.rules, term, |term.children|)[r]
      decreases term, 0
    {
      var rules := ruleManager.rules;
      var newChildren: seq<Term> := [];
      var changed := false;
      for i := 0 to |term.children|
        invariant ruleManager.rules == rules
        invariant |newChildren| == i
        invariant newChildren == StepEach(rules, term)[..i]
        invariant !changed ==> newChildren == term.children[..i]
        invariant bindings == ChildrenBindings(rules, term, i, old(bindings))
        invariant forall r :: r in rules ==>
                    r.references == old(r.references) + FiredChildren(rules, term, i)[r]
      {
        var newChild := RewriteStep(term.children[i]);
        ChildStep(rules, term, i, old(bindings));
        SliceNext(StepEach(rules, term), i);
        SliceNext(term.children, i);
        newChildren := newChildren + [newChild];
        EqualsIsEquality(newChild, term.children[i]);
        if !Equals(newChild, term.children[i]) {
          changed := true;
        }
      }
      if changed {
        result := List(newChildren);
      } else {
        result := term;
      }
    }

    /** `findMatchingRule`: clears the bindings before each attempt and returns the first
        rule whose pattern matches, or null. */
    method FindMatchingRule(term: Term) returns (r: Option<Rule>)
      modifies this
      ensures var i := FirstMatching(ruleManager.rules, term);
              r == if i < 0 then None else Some(ruleManager.rules[i])
      ensures bindings == SearchBindings(ruleManager.rules, term, old(bindings))
    {
      var rules := ruleManager.GetAllRules();
      for i := 0 to |rules|
        invariant forall j :: 0 <= j < i ==> !MatchFrom(rules[j].pattern, term, map[]).0
        invariant bindings == if i == 0 then old(bindings) else MatchFrom(rules[i - 1].pattern, term, map[]).1
      {
        bindings := map[];
        var ok := Match(rules[i].pattern, term);
        if ok {
          return Some(rules[i]);
        }
      }
      return None;
    }

    /** `match`, adding to the current bindings. */
    method Match(pattern: Term, term: Term) returns (ok: bool)
      modifies this
      ensures (ok, bindings) == MatchFrom(pattern, term, old(bindings))
      decreases pattern
    {
      if IsVariable(pattern) {
        var name := VariableName(pattern);
        if name in bindings {
          EqualsIsEquality(bindings[name], term);
          return Equals(bindings[name], term);
        }
        bindings := bindings[name := term];
        return true;
      }
      if pattern.Atom? && term.Atom? {
        return pattern.value == term.value;
      }
      if pattern.List? && term.List? {
        if Size(pattern) != Size(term) {
          return false;
        }
        for i := 0 to Size(pattern)
          invariant MatchFrom(pattern, term, old(bindings)) == MatchChildrenFrom(pattern, term, i, bindings)
        {
          var childOk := Match(pattern.children[i], term.children[i]);
          if !childOk {
            return false;
          }
        }
        return true;
      }
      return false;
    }

    /** `substitute` with the current bindings. */
    method Substitute(template: Term) returns (r: Term)
      ensures r == Subst(template, bindings)
      decreases template
    {
      if IsVariable(template) {
        var name := VariableName(template);
        if name in bindings {
          return bindings[name];
        }
        return template;
      }
      if template.Atom? {
        return template;
      }
      var newChildren: seq<Term> := [];
      for i := 0 to |template.children|
        invariant |newChildren| == i
        invariant forall k :: 0 <= k < i ==> newChildren[k] == Subst(template.children[k], bindings)
      {
        var child := Substitute(template.children[i]);
        newChildren := newChildren + [child];
      }
      return List(newChildren);
    }
  }
}
