/**
 * The step-wise rewriter of `core/Rewriter.java`: one step rewrites the leftmost
 * innermost changing child, or else applies the first matching rule of the term's
 * bucket; the driver repeats steps, then tries primitive evaluation, until neither
 * changes the term, with a limit of 10000 steps and a set of terms under way.
 *
 * The primitive evaluation `Evaluator.evaluate(Term)` that the driver calls is not a
 * method the repository defines; it is a parameter here. The debugger is reduced to a
 * fixed answer to whether a matched rule may be applied; an answer that changes during
 * the run is not modelled.
 */
module CoreRewriting {
  import opened Wrappers
  import opened Terms
  import opened Rules
  import opened RuleMatcher
  import opened RuleStore
  import opened RuleRewriting

  /** What a rewriter is built from: the stored rules, the debugger's answer to
      `shouldContinue`, and the primitive evaluation. */
  datatype Setup = Setup(rules: seq<Rule>, shouldContinue: bool, primitive: Term -> Result<Term>)

  const MaxSteps: int := 10000

  const StepLimitMessage: string := "Rewrite step limit exceeded (mögliche Nichtterminierung durch Regeln)."

  // ------------------------------------------------------------ one step

  /** `rewriteOnce`: atoms and the empty list stay; a list with a changing child changes
      that child only; otherwise the first matching rule of its bucket is applied. */
  function Once(env: Setup, t: Term): Term
    decreases t, 1, 0
  {
    if !t.List? || t.elements == [] then t else ChildrenFrom(env, t, 0)
  }

  /** The loop over the children of `t`, from child `i` on, then the rules. */
  function ChildrenFrom(env: Setup, t: Term, i: nat): Term
    requires t.List? && t.elements != [] && i <= |t.elements|
    decreases t, 0, |t.elements| - i
  {
    if i == |t.elements| then FirstMatch(Bucket(env.rules, FunctionSymbol(t.elements)), t, env.shouldContinue)
    else
      var child := Once(env, t.elements[i]);
      if child != t.elements[i] then List(t.elements[i := child]) else ChildrenFrom(env, t, i + 1)
  }

  /** The first rule in store order that matches, applied, with no preference for base
      cases; a halted debugger keeps the term. */
  function FirstMatch(rules: seq<Rule>, t: Term, shouldContinue: bool): Term {
    if rules == [] then t
    else if Applies(rules[0], t) then (if shouldContinue then Rewritten(rules[0], t) else t)
    else FirstMatch(rules[1..], t, shouldContinue)
  }

  // ------------------------------------------------------------ the driver

  /** The outcome of `rewriteInternal` together with the seen set and step counter it
      leaves. */
  datatype Run = Run(result: Result<Term>, seen: set<Term>, steps: int)

  /** `rewriteInternal`, entered with `steps` steps taken and `seen` under way. A term
      added to the seen set is removed again before every recursive call and before
      returning; only a failing primitive evaluation leaves it behind. */
  function RewriteFrom(env: Setup, seen: set<Term>, t: Term, steps: int): Run
    requires 0 <= steps <= MaxSteps
    decreases MaxSteps - steps
  {
    var steps' := steps + 1;
    if steps' > MaxSteps then Run(Err(IllegalState(StepLimitMessage)), seen, steps')
    else if t in seen then Run(Err(IllegalState("Cycle detected in rewriting: " + ToString(t))), seen, steps')
    else
      var rewritten := Once(env, t);
      if rewritten != t then RewriteFrom(env, seen, rewritten, steps')
      else
        match env.primitive(t)
        case Err(f) => Run(Err(f), seen + {t}, steps')
        case Ok(evaluated) =>
          if evaluated != t then RewriteFrom(env, seen, evaluated, steps') else Run(Ok(t), seen, steps')
  }

  /** A reference for the driver: steps and primitive evaluation under the step limit,
      with no seen set at all. */
  function Unguarded(env: Setup, t: Term, steps: int): Result<Term>
    requires 0 <= steps <= MaxSteps
    decreases MaxSteps - steps
  {
    if steps + 1 > MaxSteps then Err(IllegalState(StepLimitMessage))
    else if Once(env, t) != t then Unguarded(env, Once(env, t), steps + 1)
    else
      match env.primitive(t)
      case Err(f) => Err(f)
      case Ok(evaluated) => if evaluated != t then Unguarded(env, evaluated, steps + 1) else Ok(t)
  }

  // ------------------------------------------------------------ properties

  /** `rewrite` starts from an empty seen set, and each step removes its term before
      going on: the set is empty at every check, so a cycle is never reported and only
      the step limit stops a rewriting that does not end. */
  lemma {:induction false} CycleCheckNeverFires(env: Setup, t: Term, steps: int)
    requires 0 <= steps <= MaxSteps
    ensures RewriteFrom(env, {}, t, steps).result == Unguarded(env, t, steps)
    ensures RewriteFrom(env, {}, t, steps).result.Err? || RewriteFrom(env, {}, t, steps).seen == {}
    decreases MaxSteps - steps
  {
    if steps + 1 <= MaxSteps {
      var rewritten := Once(env, t);
      if rewritten != t {
        CycleCheckNeverFires(env, rewritten, steps + 1);
      } else if env.primitive(t).Ok? && env.primitive(t).value != t {
        CycleCheckNeverFires(env, env.primitive(t).value, steps + 1);
      }
    }
  }

  /** A returned term is a normal form: a further step leaves it as it is, and so does
      primitive evaluation. The counter never passes the limit on success. */
  lemma {:induction false} ResultIsNormalForm(env: Setup, seen: set<Term>, t: Term, steps: int)
    requires 0 <= steps <= MaxSteps
    ensures var run := RewriteFrom(env, seen, t, steps);
            run.result.Ok? ==> Once(env, run.result.value) == run.result.value
                               && env.primitive(run.result.value) == Ok(run.result.value)
                               && steps < run.steps <= MaxSteps
    decreases MaxSteps - steps
  {
    if steps + 1 <= MaxSteps && t !in seen {
      var rewritten := Once(env, t);
      if rewritten != t {
        ResultIsNormalForm(env, seen, rewritten, steps + 1);
      } else if env.primitive(t).Ok? && env.primitive(t).value != t {
        ResultIsNormalForm(env, seen, env.primitive(t).value, steps + 1);
      }
    }
  }

  /** Two terms that step into each other are rewritten until the step limit. */
  lemma {:induction false} TwoCycleHitsStepLimit(env: Setup, a: Term, b: Term, t: Term, steps: int)
    requires a != b && Once(env, a) == b && Once(env, b) == a
    requires t == a || t == b
    requires 0 <= steps <= MaxSteps
    ensures RewriteFrom(env, {}, t, steps).result == Err(IllegalState(StepLimitMessage))
    decreases MaxSteps - steps
  {
    if steps + 1 <= MaxSteps {
      TwoCycleHitsStepLimit(env, a, b, Once(env, t), steps + 1);
    }
  }

  /** Atoms and the empty list are left as they are by a step. */
  lemma AtomsAndNilStay(env: Setup, t: Term)
    requires t.Atom? || t == Nil
    ensures Once(env, t) == t
  {
  }

  /** When child `i` is the first child a step changes, the step replaces that child and
      nothing else. */
  lemma FirstChangedChild(env: Setup, t: Term, i: nat)
    requires t.List? && i < |t.elements|
    requires Once(env, t.elements[i]) != t.elements[i]
    requires forall j :: 0 <= j < i ==> Once(env, t.elements[j]) == t.elements[j]
    ensures Once(env, t) == List(t.elements[i := Once(env, t.elements[i])])
  {
    ChildrenFromFirstChanged(env, t, 0, i);
  }

  lemma {:induction false} ChildrenFromFirstChanged(env: Setup, t: Term, k: nat, i: nat)
    requires t.List? && k <= i < |t.elements|
    requires Once(env, t.elements[i]) != t.elements[i]
    requires forall j :: k <= j < i ==> Once(env, t.elements[j]) == t.elements[j]
    ensures ChildrenFrom(env, t, k) == List(t.elements[i := Once(env, t.elements[i])])
    decreases i - k
  {
    if k < i {
      ChildrenFromFirstChanged(env, t, k + 1, i);
    }
  }

  /** When no child changes, a step applies the first rule of the bucket that matches. */
  lemma NoChildChanges(env: Setup, t: Term)
    requires t.List? && t.elements != []
    requires forall j :: 0 <= j < |t.elements| ==> Once(env, t.elements[j]) == t.elements[j]
    ensures Once(env, t) == FirstMatch(Bucket(env.rules, FunctionSymbol(t.elements)), t, env.shouldContinue)
  {
    ChildrenFromUnchanged(env, t, 0);
  }

  lemma {:induction false} ChildrenFromUnchanged(env: Setup, t: Term, k: nat)
    requires t.List? && t.elements != [] && k <= |t.elements|
    requires forall j :: k <= j < |t.elements| ==> Once(env, t.elements[j]) == t.elements[j]
    ensures ChildrenFrom(env, t, k) == FirstMatch(Bucket(env.rules, FunctionSymbol(t.elements)), t, env.shouldContinue)
    decreases |t.elements| - k
  {
    if k < |t.elements| {
      ChildrenFromUnchanged(env, t, k + 1);
    }
  }

  /** Rules are tried in store order: the first that matches is applied, and a term
      no rule matches stays. */
  lemma {:induction false} FirstMatchInStoreOrder(rules: seq<Rule>, t: Term, i: int)
    requires 0 <= i <= |rules|
    requires forall j :: 0 <= j < i ==> !Applies(rules[j], t)
    requires i < |rules| ==> Applies(rules[i], t)
    ensures i < |rules| ==> FirstMatch(rules, t, true) == Rewritten(rules[i], t)
    ensures i == |rules| ==> FirstMatch(rules, t, true) == t
    decreases i
  {
    if 0 < i {
      assert !Applies(rules[0], t);
      FirstMatchInStoreOrder(rules[1..], t, i - 1);
    }
  }

  /** While the debugger says to stop, no step changes anything. */
  lemma {:induction false} HaltedStepChangesNothing(env: Setup, t: Term)
    requires !env.shouldContinue
    ensures Once(env, t) == t
    decreases t, 1, 0
  {
    if t.List? && t.elements != [] {
      HaltedChildrenChangeNothing(env, t, 0);
    }
  }

  lemma {:induction false} HaltedChildrenChangeNothing(env: Setup, t: Term, i: nat)
    requires !env.shouldContinue && t.List? && t.elements != [] && i <= |t.elements|
    ensures ChildrenFrom(env, t, i) == t
    decreases t, 0, |t.elements| - i
  {
    if i == |t.elements| {
      HaltedMatchKeepsTerm(Bucket(env.rules, FunctionSymbol(t.elements)), t);
    } else {
      HaltedStepChangesNothing(env, t.elements[i]);
      HaltedChildrenChangeNothing(env, t, i + 1);
    }
  }

  lemma {:induction false} HaltedMatchKeepsTerm(rules: seq<Rule>, t: Term)
    ensures FirstMatch(rules, t, false) == t
  {
    if rules != [] {
      HaltedMatchKeepsTerm(rules[1..], t);
    }
  }

  // ------------------------------------------------------------ the class

  /** `Rewriter`, with its seen set and step counter. */
  class Rewriter {
    const ruleSet: RuleSet
    const shouldContinue: bool
    const primitive: Term -> Result<Term>
    var seenTerms: set<Term>
    var stepCount: int

    constructor (ruleSet: RuleSet, shouldContinue: bool, primitive: Term -> Result<Term>)
      ensures this.ruleSet == ruleSet && this.shouldContinue == shouldContinue && this.primitive == primitive
      ensures seenTerms == {} && stepCount == 0
    {
      this.ruleSet := ruleSet;
      this.shouldContinue := shouldContinue;
      this.primitive := primitive;
      seenTerms := {};
      stepCount := 0;
    }

    function Environment(): Setup
      reads this, ruleSet
    {
      Setup(ruleSet.allRules, shouldContinue, primitive)
    }

    /** `rewrite`: whatever an earlier call left, the run starts afresh. */
    method Rewrite(term: Term) returns (r: Result<Term>)
      requires ruleSet.Valid()
      modifies this
      ensures Run(r, seenTerms, stepCount) == RewriteFrom(Environment(), {}, term, 0)
    {
      seenTerms := {};
      stepCount := 0;
      r := RewriteInternal(term);
    }

    /** `rewriteInternal`. */
    method RewriteInternal(term: Term) returns (r: Result<Term>)
      requires ruleSet.Valid() && 0 <= stepCount <= MaxSteps
      modifies this
      ensures Run(r, seenTerms, stepCount) == RewriteFrom(Environment(), old(seenTerms), term, old(stepCount))
      decreases MaxSteps - stepCount
    {
      stepCount := stepCount + 1;
      if stepCount > MaxSteps {
        return Err(IllegalState(StepLimitMessage));
      }
      if term in seenTerms {
        return Err(IllegalState("Cycle detected in rewriting: " + ToString(term)));
      }
      ghost var seen := seenTerms;
      seenTerms := seenTerms + {term};
      var rewritten := RewriteOnce(term);
      if rewritten != term {
        seenTerms := seenTerms - {term};
        assert seenTerms == seen;
        r := RewriteInternal(rewritten);
        return;
      }
      var evaluated := primitive(term);
      if evaluated.Err? {
        return evaluated;
      }
      if evaluated.value != term {
        seenTerms := seenTerms - {term};
        assert seenTerms == seen;
        r := RewriteInternal(evaluated.value);
        return;
      }
      seenTerms := seenTerms - {term};
      assert seenTerms == seen;
      r := Ok(term);
    }

    /** `rewriteOnce`. */
    method RewriteOnce(term: Term) returns (r: Term)
      requires ruleSet.Valid()
      ensures r == Once(Environment(), term)
      decreases term
    {
      if term.List? && term.elements != [] {
        var functionSymbol := FunctionSymbol(term.elements);
        for i := 0 to |term.elements|
          invariant Once(Environment(), term) == ChildrenFrom(Environment(), term, i)
        {
          var element := term.elements[i];
          var rewrittenElement := RewriteOnce(element);
          if rewrittenElement != element {
            return List(term.elements[i := rewrittenElement]);
          }
        }
        var rulesForFunction := ruleSet.GetRulesForFunction(functionSymbol);
        for i := 0 to |rulesForFunction|
          invariant FirstMatch(rulesForFunction, term, shouldContinue) == FirstMatch(rulesForFunction[i..], term, shouldContinue)
        {
          assert rulesForFunction[i..][1..] == rulesForFunction[i + 1..];
          var rule := rulesForFunction[i];
          var bindings := Match(rule.pattern, term);
          if bindings.Some? {
            var result := Substitute(rule.replacement, bindings.value);
            if !shouldContinue {
              return term;
            }
            return result;
          }
        }
      }
      return term;
    }
  }
}
