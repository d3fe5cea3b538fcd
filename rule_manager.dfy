/**
 * The rule list of the earlier engine under `src/main/java/engine/RuleManager.java`:
 * rules in insertion order, removal of the first rule with a given pattern, and a first
 * match by a quick structural test that does not check repeated variables.
 */
module RuleManagement {
  import opened Wrappers
  import opened DraftTerms
  import opened DraftRules

  // ------------------------------------------------------------ the specification

  /** `couldMatch`: a variable matches anything, atoms match by text, lists of the same
      size child by child; a repeated variable is not checked. */
  function CouldMatch(pattern: Term, term: Term): bool
    decreases pattern, 1
  {
    if IsVariable(pattern) then true
    else if pattern.Atom? && term.Atom? then pattern.value == term.value
    else if pattern.List? && term.List? then
      Size(pattern) == Size(term) && ChildrenCouldMatch(pattern, term, 0)
    else false
  }

  /** The loop of `couldMatch` from child `i` on. */
  function ChildrenCouldMatch(pattern: Term, term: Term, i: nat): bool
    requires pattern.List? && term.List? && |pattern.children| == |term.children|
    requires i <= |pattern.children|
    decreases pattern, 0, |pattern.children| - i
  {
    i == |pattern.children|
    || (CouldMatch(pattern.children[i], term.children[i]) && ChildrenCouldMatch(pattern, term, i + 1))
  }

  /** A term could always match itself. */
  lemma {:induction false} CouldMatchItself(t: Term)
    ensures CouldMatch(t, t)
    decreases t, 1
  {
    if !IsVariable(t) && t.List? {
      ChildrenCouldMatchThemselves(t, 0);
    }
  }

  lemma {:induction false} ChildrenCouldMatchThemselves(t: Term, i: nat)
    requires t.List? && i <= |t.children|
    ensures ChildrenCouldMatch(t, t, i)
    decreases t, 0, |t.children| - i
  {
    if i < |t.children| {
      CouldMatchItself(t.children[i]);
      ChildrenCouldMatchThemselves(t, i + 1);
    }
  }

  /** The position of the first rule whose pattern could match `term`, or -1. */
  function FirstCouldMatch(rules: seq<Rule>, term: Term): (i: int)
    ensures -1 <= i < |rules|
    ensures i >= 0 ==> CouldMatch(rules[i].pattern, term)
    ensures forall j :: 0 <= j < |rules| && (i < 0 || j < i) ==> !CouldMatch(rules[j].pattern, term)
  {
    if rules == [] then -1
    else if CouldMatch(rules[0].pattern, term) then 0
    else
      var i := FirstCouldMatch(rules[1..], term);
      if i < 0 then -1 else i + 1
  }

  /** The position of the first rule with `pattern`, or -1. */
  function FirstWithPattern(rules: seq<Rule>, pattern: Term): (i: int)
    ensures -1 <= i < |rules|
    ensures i >= 0 ==> rules[i].pattern == pattern
    ensures forall j :: 0 <= j < |rules| && (i < 0 || j < i) ==> rules[j].pattern != pattern
  {
    if rules == [] then -1
    else if rules[0].pattern == pattern then 0
    else
      var i := FirstWithPattern(rules[1..], pattern);
      if i < 0 then -1 else i + 1
  }

  /** The rules not yet applied, in their order. */
  function Unused(rules: seq<Rule>): (unused: seq<Rule>)
    reads rules
    ensures |unused| <= |rules|
    ensures forall i :: 0 <= i < |unused| ==> unused[i] in rules && unused[i].references == 0
    ensures forall i :: 0 <= i < |rules| && rules[i].references == 0 ==> rules[i] in unused
  {
    if rules == [] then []
    else
      var last := rules[|rules| - 1];
      Unused(rules[..|rules| - 1]) + (if last.references == 0 then [last] else [])
  }

  // ------------------------------------------------------------ the class

  class RuleManager {
    var rules: seq<Rule>

    constructor ()
      ensures rules == []
    {
      rules := [];
    }

    /** `addRule(Rule)`. */
    method AddRule(rule: Rule)
      modifies this
      ensures rules == old(rules) + [rule]
    {
      rules := rules + [rule];
    }

    /** `addRule(String, Term, Term)`: a new rule with the next id goes at the end. */
    method AddNamedRule(fullName: Option<string>, pattern: Term, replacement: Term, ids: IdCounter)
      modifies this, ids
      ensures |rules| == |old(rules)| + 1 && rules[..|old(rules)|] == old(rules)
      ensures var rule := rules[|rules| - 1];
              && fresh(rule) && rule.Valid() && rule.fullName == fullName
              && rule.pattern == pattern && rule.replacement == replacement
              && rule.id == old(ids.nextId) && rule.references == 0
      ensures ids.nextId == old(ids.nextId) + 1
    {
      var rule := new Rule(fullName, pattern, replacement, ids);
      rules := rules + [rule];
    }

    /** `addRule(Term, Term)`: a new anonymous rule with the next id goes at the end. */
    method AddAnonymousRule(pattern: Term, replacement: Term, ids: IdCounter)
      modifies this, ids
      ensures |rules| == |old(rules)| + 1 && rules[..|old(rules)|] == old(rules)
      ensures var rule := rules[|rules| - 1];
              && fresh(rule) && rule.Valid() && rule.IsAnonymous()
              && rule.pattern == pattern && rule.replacement == replacement
              && rule.id == old(ids.nextId) && rule.references == 0
      ensures ids.nextId == old(ids.nextId) + 1
    {
      var rule := new Rule.Anonymous(pattern, replacement, ids);
      rules := rules + [rule];
    }

    /** `removeRule`: drops the first rule with an equal pattern, if there is one. */
    method RemoveRule(pattern: Term) returns (removed: bool)
      modifies this
      ensures var i := FirstWithPattern(old(rules), pattern);
              && removed == (i >= 0)
              && rules == if removed then old(rules)[..i] + old(rules)[i + 1..] else old(rules)
    {
      var i := 0;
      while i < |rules|
        invariant 0 <= i <= |rules| && rules == old(rules)
        invariant forall j :: 0 <= j < i ==> rules[j].pattern != pattern
      {
        EqualsIsEquality(rules[i].pattern, pattern);
        if Equals(rules[i].pattern, pattern) {
          rules := rules[..i] + rules[i + 1..];
          return true;
        }
        i := i + 1;
      }
      return false;
    }

    /** `findMatchingRule`: the first rule whose pattern could match, or null. */
    method FindMatchingRule(term: Term) returns (r: Option<Rule>)
      ensures var i := FirstCouldMatch(rules, term);
              r == if i < 0 then None else Some(rules[i])
    {
      for i := 0 to |rules|
        invariant forall j :: 0 <= j < i ==> !CouldMatch(rules[j].pattern, term)
      {
        if CouldMatch(rules[i].pattern, term) {
          return Some(rules[i]);
        }
      }
      return None;
    }

    /** `getAllRules`: a copy of the list. */
    function GetAllRules(): seq<Rule>
      reads this
    {
      rules
    }

    function GetRuleCount(): nat
      reads this
    {
      |rules|
    }

    /** `clear`. */
    method Clear()
      modifies this
      ensures rules == []
    {
      rules := [];
    }

    /** `getUnusedRules`: the rules with no references, in their order. */
    method GetUnusedRules() returns (unused: seq<Rule>)
      ensures unused == Unused(rules)
    {
      unused := [];
      for i := 0 to |rules|
        invariant unused == Unused(rules[..i])
      {
        assert rules[..i + 1][..i] == rules[..i];
        if rules[i].references == 0 {
          unused := unused + [rules[i]];
        }
      }
      assert rules[..|rules|] == rules;
    }
  }
}
