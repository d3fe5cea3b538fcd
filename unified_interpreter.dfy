/**
 * The unified interpreter: the same memo table and active set as the term
 * evaluator, but the special operators evaluate their arguments through the
 * private recursive step, so nested evaluations keep the bookkeeping; and a
 * rule counts as fired only when its result differs from the term.
 *
 * As in the term evaluator, `fuel` is the stack depth left.
 */
module UnifiedInterpretation {
  import opened Wrappers
  import opened Terms
  import opened Rules
  import opened RuleMatcher
  import opened RuleStore
  import opened RuleRewriting
  import opened Primitives
  import opened TermEvaluation

  // ------------------------------------------------------------ specification

  /** `evaluate`: clear the bookkeeping, evaluate, and turn a proper cons into a list. */
  function InterpTop(env: Env, t: Term, fuel: nat): Outcome {
    var o := InterpRec(env, t, Fresh, fuel);
    Outcome(ProperConsAsList(o.result), o.state)
  }

  /** `evaluateRecursive`. */
  function InterpRec(env: Env, t: Term, s: EvalState, fuel: nat): Outcome
    decreases fuel, 0, 0
  {
    if t in s.memo then Outcome(Ok(s.memo[t]), s)
    else if t in s.active then Outcome(Ok(t), s)
    else if fuel == 0 then Outcome(Err(StackOverflow), s)
    else
      var o := InterpCore(env, t, s.(active := s.active + {t}), fuel - 1);
      var memo := if o.result.Ok? && o.result.value != t then o.state.memo[t := o.result.value] else o.state.memo;
      Outcome(o.result, EvalState(memo, o.state.active - {t}))
  }

  /** `tryApplyRulesWithPriority`: the rewrite of a non-empty list, or the list itself. */
  function ApplyRules(rules: seq<Rule>, t: Term): (r: Term)
    requires t.List? && t.elements != []
    ensures r == t || TryRewrite(rules, t) == Some(r)
    ensures TryRewrite(rules, t).None? ==> r == t
  {
    TryRewrite(rules, t).GetOr(t)
  }

  /** `evaluateCore`: special operators, else a rule whose result differs from the term
      (evaluated again), else the children. */
  function InterpCore(env: Env, t: Term, s: EvalState, fuel: nat): Outcome
    decreases fuel, 6, 0
  {
    if !t.List? || t.elements == [] then Outcome(Ok(t), s)
    else
      match InterpSpecial(env, t, s, fuel)
      case Some(o) => o
      case None =>
        var ruleResult := ApplyRules(env.rules, t);
        if ruleResult != t then InterpRec(env, ruleResult, s, fuel)
        else InterpElements(env, t, 0, [], false, s, fuel)
  }

  /** The loop of `evaluateSubterms` from child `i` on. */
  function InterpElements(env: Env, t: Term, i: nat, done: seq<Term>, changed: bool, s: EvalState, fuel: nat): Outcome
    requires t.List? && i <= |t.elements|
    decreases fuel, 4, |t.elements| - i
  {
    if i == |t.elements| then Outcome(Ok(if changed then List(done) else t), s)
    else
      var o := InterpRec(env, t.elements[i], s, fuel);
      if o.result.Err? then o
      else InterpElements(env, t, i + 1, done + [o.result.value], changed || o.result.value != t.elements[i], o.state, fuel)
  }

  /** `handleSpecialOperators`: `None` stands for the `null` of a symbol that is not special. */
  function InterpSpecial(env: Env, t: Term, s: EvalState, fuel: nat): Option<Outcome>
    requires t.List?
    decreases fuel, 5, 0
  {
    var symbol := FunctionSymbol(t.elements);
    if symbol == ":" then Some(InterpArithmetic(env, t, s, fuel))
    else if symbol == "if" then Some(InterpIf(env, t, s, fuel))
    else if IsInfixOperator(symbol) then Some(InterpInfix(env, t, s, fuel))
    else None
  }

  /** `evaluateIf`. */
  function InterpIf(env: Env, t: Term, s: EvalState, fuel: nat): Outcome
    requires t.List?
    decreases fuel, 2, 0
  {
    var es := t.elements;
    if |es| != 4 then Outcome(Err(IllegalArgument("if requires (if condition then else)")), s)
    else
      var c := InterpRec(env, es[1], s, fuel);
      if c.result.Err? then c
      else if IsBoolean(c.result.value) then
        if AsBoolean(c.result.value) then InterpRec(env, es[2], c.state, fuel) else InterpRec(env, es[3], c.state, fuel)
      else Outcome(Err(IllegalArgument("if condition must be boolean, got: " + ToString(c.result.value))), c.state)
  }

  /** `evaluateInfixOperator`: the arguments are evaluated, then again inside the `:` form. */
  function InterpInfix(env: Env, t: Term, s: EvalState, fuel: nat): Outcome
    requires t.List?
    decreases fuel, 3, 0
  {
    var es := t.elements;
    if |es| != 3 then Outcome(Err(IllegalArgument("Binary operator requires 2 arguments")), s)
    else
      var a1 := InterpRec(env, es[1], s, fuel);
      if a1.result.Err? then a1
      else
        var a2 := InterpRec(env, es[2], a1.state, fuel);
        if a2.result.Err? then a2
        else InterpArithmetic(env, ColonForm(FunctionSymbol(es), a1.result.value, a2.result.value), a2.state, fuel)
  }

  /** `evaluateArithmetic`. */
  function InterpArithmetic(env: Env, t: Term, s: EvalState, fuel: nat): Outcome
    requires t.List?
    decreases fuel, 2, 0
  {
    var es := t.elements;
    if |es| != 4 then Outcome(Err(IllegalArgument("Arithmetic requires (: op arg1 arg2)")), s)
    else
      var a1 := InterpRec(env, es[2], s, fuel);
      if a1.result.Err? then a1
      else
        var a2 := InterpRec(env, es[3], a1.state, fuel);
        if a2.result.Err? then a2
        else if !es[1].Atom? then Outcome(Err(IllegalArgument("Operator must be atom")), a2.state)
        else
          var v1, v2 := a1.result.value, a2.result.value;
          if !v1.Atom? || !v2.Atom? then
            Outcome(Err(IllegalArgument("Args must be atoms: " + ToString(v1) + ", " + ToString(v2))), a2.state)
          else Outcome(BinaryOp(es[1].value, v1, v2, env.formatG), a2.state)
  }

  // ------------------------------------------------------------ properties

  /** Unlike the term evaluator, every step hands back exactly the active set it was given,
      and the memo table only ever holds results that differ from their term. */
  lemma {:induction false} RecBookkeeping(env: Env, t: Term, s: EvalState, fuel: nat)
    ensures InterpRec(env, t, s, fuel).state.active == s.active
    ensures MemoChanged(s) ==> MemoChanged(InterpRec(env, t, s, fuel).state)
    decreases fuel, 0, 0
  {
    if t !in s.memo && t !in s.active && fuel > 0 {
      CoreBookkeeping(env, t, s.(active := s.active + {t}), fuel - 1);
    }
  }

  /** After a top-level evaluation nothing is active, and the memo holds changed results only. */
  lemma TopBookkeeping(env: Env, t: Term, fuel: nat)
    ensures InterpTop(env, t, fuel).state.active == {}
    ensures MemoChanged(InterpTop(env, t, fuel).state)
  {
    RecBookkeeping(env, t, Fresh, fuel);
  }

  lemma {:induction false} CoreBookkeeping(env: Env, t: Term, s: EvalState, fuel: nat)
    ensures InterpCore(env, t, s, fuel).state.active == s.active
    ensures MemoChanged(s) ==> MemoChanged(InterpCore(env, t, s, fuel).state)
    decreases fuel, 6, 0
  {
    if t.List? && t.elements != [] {
      SpecialBookkeeping(env, t, s, fuel);
      if InterpSpecial(env, t, s, fuel).None? {
        var ruleResult := ApplyRules(env.rules, t);
        if ruleResult != t {
          RecBookkeeping(env, ruleResult, s, fuel);
        } else {
          ElementsBookkeeping(env, t, 0, [], false, s, fuel);
        }
      }
    }
  }

  lemma {:induction false} ElementsBookkeeping(env: Env, t: Term, i: nat, done: seq<Term>, changed: bool, s: EvalState, fuel: nat)
    requires t.List? && i <= |t.elements|
    ensures InterpElements(env, t, i, done, changed, s, fuel).state.active == s.active
    ensures MemoChanged(s) ==> MemoChanged(InterpElements(env, t, i, done, changed, s, fuel).state)
    decreases fuel, 4, |t.elements| - i
  {
    if i < |t.elements| {
      var o := InterpRec(env, t.elements[i], s, fuel);
      RecBookkeeping(env, t.elements[i], s, fuel);
      if o.result.Ok? {
        ElementsBookkeeping(env, t, i + 1, done + [o.result.value], changed || o.result.value != t.elements[i], o.state, fuel);
      }
    }
  }

  lemma {:induction false} SpecialBookkeeping(env: Env, t: Term, s: EvalState, fuel: nat)
    requires t.List?
    ensures var o := InterpSpecial(env, t, s, fuel);
            o.Some? ==> o.value.state.active == s.active && (MemoChanged(s) ==> MemoChanged(o.value.state))
    decreases fuel, 5, 0
  {
    var symbol := FunctionSymbol(t.elements);
    if symbol == ":" {
      ArithmeticBookkeeping(env, t, s, fuel);
    } else if symbol == "if" {
      IfBookkeeping(env, t, s, fuel);
    } else if IsInfixOperator(symbol) {
      InfixBookkeeping(env, t, s, fuel);
    }
  }

  lemma {:induction false} IfBookkeeping(env: Env, t: Term, s: EvalState, fuel: nat)
    requires t.List?
    ensures InterpIf(env, t, s, fuel).state.active == s.active
    ensures MemoChanged(s) ==> MemoChanged(InterpIf(env, t, s, fuel).state)
    decreases fuel, 2, 0
  {
    var es := t.elements;
    if |es| == 4 {
      var c := InterpRec(env, es[1], s, fuel);
      RecBookkeeping(env, es[1], s, fuel);
      RecBookkeeping(env, es[2], c.state, fuel);
      RecBookkeeping(env, es[3], c.state, fuel);
    }
  }

  lemma {:induction false} InfixBookkeeping(env: Env, t: Term, s: EvalState, fuel: nat)
    requires t.List?
    ensures InterpInfix(env, t, s, fuel).state.active == s.active
    ensures MemoChanged(s) ==> MemoChanged(InterpInfix(env, t, s, fuel).state)
    decreases fuel, 3, 0
  {
    var es := t.elements;
    if |es| == 3 {
      var a1 := InterpRec(env, es[1], s, fuel);
      RecBookkeeping(env, es[1], s, fuel);
      var a2 := InterpRec(env, es[2], a1.state, fuel);
      RecBookkeeping(env, es[2], a1.state, fuel);
      if a1.result.Ok? && a2.result.Ok? {
        ArithmeticBookkeeping(env, ColonForm(FunctionSymbol(es), a1.result.value, a2.result.value), a2.state, fuel);
      }
    }
  }

  lemma {:induction false} ArithmeticBookkeeping(env: Env, t: Term, s: EvalState, fuel: nat)
    requires t.List?
    ensures InterpArithmetic(env, t, s, fuel).state.active == s.active
    ensures MemoChanged(s) ==> MemoChanged(InterpArithmetic(env, t, s, fuel).state)
    decreases fuel, 2, 0
  {
    var es := t.elements;
    if |es| == 4 {
      var a1 := InterpRec(env, es[2], s, fuel);
      RecBookkeeping(env, es[2], s, fuel);
      RecBookkeeping(env, es[3], a1.state, fuel);
    }
  }

  /** A rule whose result equals the term does not count as fired: evaluation goes on
      with the children, exactly as when no rule matches. */
  lemma UnchangedRuleDoesNotFire(env: Env, t: Term, s: EvalState, fuel: nat)
    requires t.List? && t.elements != [] && !IsSpecialOperator(FunctionSymbol(t.elements))
    requires TryRewrite(env.rules, t) == Some(t)
    ensures InterpCore(env, t, s, fuel) == InterpElements(env, t, 0, [], false, s, fuel)
  {
  }

  /** An atom that is not memoised evaluates to itself and leaves the bookkeeping as it was. */
  lemma AtomIsValue(env: Env, a: Term, s: EvalState, fuel: nat)
    requires a.Atom? && a !in s.memo && fuel > 0
    ensures InterpRec(env, a, s, fuel) == Outcome(Ok(a), s)
  {
    if a !in s.active {
      var s1 := s.(active := s.active + {a});
      assert InterpCore(env, a, s1, fuel - 1) == Outcome(Ok(a), s1);
      assert s1.active - {a} == s.active;
    }
  }

  /** An infix operator on two atoms that are not memoised computes the binary operator. */
  lemma InfixOnAtoms(env: Env, op: string, a1: Term, a2: Term, s: EvalState, fuel: nat)
    requires IsInfixOperator(op) && a1.Atom? && a2.Atom? && fuel > 0
    requires a1 !in s.memo && a2 !in s.memo
    ensures var o := InterpSpecial(env, List([Atom(op), a1, a2]), s, fuel);
            o == Some(Outcome(BinaryOp(op, a1, a2, env.formatG), s))
  {
    var t := List([Atom(op), a1, a2]);
    AtomIsValue(env, a1, s, fuel);
    AtomIsValue(env, a2, s, fuel);
    assert FunctionSymbol(t.elements) == op;
    assert op != ":" && op != "if";
    var colon := ColonForm(op, a1, a2);
    assert InterpInfix(env, t, s, fuel) == InterpArithmetic(env, colon, s, fuel);
  }

  /** `if` on a literal boolean that is not memoised is the evaluation of the chosen branch
      alone, from the caller's own bookkeeping. */
  lemma IfChoosesBranch(env: Env, b: bool, thenBranch: Term, elseBranch: Term, s: EvalState, fuel: nat)
    requires fuel > 0 && Bool(b) !in s.memo
    ensures var t := List([Atom("if"), Bool(b), thenBranch, elseBranch]);
            InterpSpecial(env, t, s, fuel) == Some(InterpRec(env, if b then thenBranch else elseBranch, s, fuel))
  {
    AtomIsValue(env, Bool(b), s, fuel);
  }

  // ------------------------------------------------------------ the class

  class UnifiedInterpreter {
    const ruleSet: RuleSet
    const formatG: real -> string
    var memoCache: map<Term, Term>
    var activeEvaluations: set<Term>

    constructor (ruleSet: RuleSet, formatG: real -> string)
      ensures this.ruleSet == ruleSet && this.formatG == formatG
      ensures memoCache == map[] && activeEvaluations == {}
    {
      this.ruleSet := ruleSet;
      this.formatG := formatG;
      memoCache := map[];
      activeEvaluations := {};
    }

    function State(): EvalState
      reads this
    {
      EvalState(memoCache, activeEvaluations)
    }

    function Environment(): Env
      reads ruleSet
    {
      Env(ruleSet.allRules, formatG)
    }

    /** `evaluate`. */
    method Evaluate(term: Term, fuel: nat) returns (r: Result<Term>)
      requires ruleSet.Valid()
      modifies this
      ensures Outcome(r, State()) == InterpTop(Environment(), term, fuel)
    {
      memoCache := map[];
      activeEvaluations := {};
      r := EvaluateRecursive(term, fuel);
      if r.Ok? && r.value.Cons? {
        var asList := ToList(r.value);
        if asList.Some? {
          r := Ok(asList.value);
        }
      }
    }

    /** `evaluateRecursive`. */
    method EvaluateRecursive(term: Term, fuel: nat) returns (r: Result<Term>)
      requires ruleSet.Valid()
      modifies this
      ensures Outcome(r, State()) == InterpRec(Environment(), term, old(State()), fuel)
      decreases fuel, 0, 0
    {
      if term in memoCache {
        return Ok(memoCache[term]);
      }
      if term in activeEvaluations {
        return Ok(term);
      }
      if fuel == 0 {
        return Err(StackOverflow);
      }
      activeEvaluations := activeEvaluations + {term};
      r := EvaluateCore(term, fuel - 1);
      if r.Ok? && r.value != term {
        memoCache := memoCache[term := r.value];
      }
      activeEvaluations := activeEvaluations - {term};
    }

    /** `evaluateCore`. */
    method EvaluateCore(term: Term, fuel: nat) returns (r: Result<Term>)
      requires ruleSet.Valid()
      modifies this
      ensures Outcome(r, State()) == InterpCore(Environment(), term, old(State()), fuel)
      decreases fuel, 6, 0
    {
      if !term.List? || term.elements == [] {
        return Ok(term);
      }
      var specialResult := HandleSpecialOperators(term, fuel);
      if specialResult.Some? {
        return specialResult.value;
      }
      var ruleResult := TryApplyRulesWithPriority(term);
      if ruleResult != term {
        r := EvaluateRecursive(ruleResult, fuel);
        return;
      }
      r := EvaluateSubterms(term, fuel);
    }

    /** `handleSpecialOperators`: `None` for a symbol that is not special. */
    method HandleSpecialOperators(list: Term, fuel: nat) returns (r: Option<Result<Term>>)
      requires list.List? && ruleSet.Valid()
      modifies this
      ensures r.None? <==> InterpSpecial(Environment(), list, old(State()), fuel).None?
      ensures r.Some? ==> Outcome(r.value, State()) == InterpSpecial(Environment(), list, old(State()), fuel).value
      ensures r.None? ==> State() == old(State())
      decreases fuel, 5, 0
    {
      var symbol := FunctionSymbol(list.elements);
      if symbol == ":" {
        var result := EvaluateArithmetic(list, fuel);
        return Some(result);
      } else if symbol == "if" {
        var result := EvaluateIf(list, fuel);
        return Some(result);
      } else if IsInfixOperator(symbol) {
        var result := EvaluateInfixOperator(list, fuel);
        return Some(result);
      }
      return None;
    }

    /** `evaluateIf`. */
    method EvaluateIf(list: Term, fuel: nat) returns (r: Result<Term>)
      requires list.List? && ruleSet.Valid()
      modifies this
      ensures Outcome(r, State()) == InterpIf(Environment(), list, old(State()), fuel)
      decreases fuel, 2, 0
    {
      var es := list.elements;
      if |es| != 4 {
        return Err(IllegalArgument("if requires (if condition then else)"));
      }
      var condition := EvaluateRecursive(es[1], fuel);
      if condition.Err? {
        return condition;
      }
      if IsBoolean(condition.value) {
        if AsBoolean(condition.value) {
          r := EvaluateRecursive(es[2], fuel);
        } else {
          r := EvaluateRecursive(es[3], fuel);
        }
        return;
      }
      r := Err(IllegalArgument("if condition must be boolean, got: " + ToString(condition.value)));
    }

    /** `evaluateInfixOperator`. */
    method EvaluateInfixOperator(list: Term, fuel: nat) returns (r: Result<Term>)
      requires list.List? && ruleSet.Valid()
      modifies this
      ensures Outcome(r, State()) == InterpInfix(Environment(), list, old(State()), fuel)
      decreases fuel, 3, 0
    {
      var es := list.elements;
      if |es| != 3 {
        return Err(IllegalArgument("Binary operator requires 2 arguments"));
      }
      var op := FunctionSymbol(es);
      var arg1 := EvaluateRecursive(es[1], fuel);
      if arg1.Err? {
        return arg1;
      }
      var arg2 := EvaluateRecursive(es[2], fuel);
      if arg2.Err? {
        return arg2;
      }
      r := EvaluateArithmetic(ColonForm(op, arg1.value, arg2.value), fuel);
    }

    /** `evaluateArithmetic`. */
    method EvaluateArithmetic(list: Term, fuel: nat) returns (r: Result<Term>)
      requires list.List? && ruleSet.Valid()
      modifies this
      ensures Outcome(r, State()) == InterpArithmetic(Environment(), list, old(State()), fuel)
      decreases fuel, 2, 0
    {
      var es := list.elements;
      if |es| != 4 {
        return Err(IllegalArgument("Arithmetic requires (: op arg1 arg2)"));
      }
      var operator := es[1];
      var arg1 := EvaluateRecursive(es[2], fuel);
      if arg1.Err? {
        return arg1;
      }
      var arg2 := EvaluateRecursive(es[3], fuel);
      if arg2.Err? {
        return arg2;
      }
      if !operator.Atom? {
        return Err(IllegalArgument("Operator must be atom"));
      }
      if !arg1.value.Atom? || !arg2.value.Atom? {
        return Err(IllegalArgument("Args must be atoms: " + ToString(arg1.value) + ", " + ToString(arg2.value)));
      }
      r := BinaryOp(operator.value, arg1.value, arg2.value, formatG);
    }

    /** `tryApplyRulesWithPriority`: a pass over the bucket for the base cases, a second
        for the others; the first match is substituted. */
    method TryApplyRulesWithPriority(term: Term) returns (r: Term)
      requires term.List? && term.elements != [] && ruleSet.Valid()
      ensures r == ApplyRules(ruleSet.allRules, term)
    {
      var rules := ruleSet.GetRulesForFunction(FunctionSymbol(term.elements));
      for i := 0 to |rules|
        invariant FirstInGroup(rules, term, true) == FirstInGroup(rules[i..], term, true)
      {
        assert rules[i..][1..] == rules[i + 1..];
        if IsBaseCase(rules[i]) {
          var bindings := Match(rules[i].pattern, term);
          if bindings.Some? {
            return Substitute(rules[i].replacement, bindings.value);
          }
        }
      }
      for i := 0 to |rules|
        invariant FirstInGroup(rules, term, true).None?
        invariant FirstInGroup(rules, term, false) == FirstInGroup(rules[i..], term, false)
      {
        assert rules[i..][1..] == rules[i + 1..];
        if !IsBaseCase(rules[i]) {
          var bindings := Match(rules[i].pattern, term);
          if bindings.Some? {
            return Substitute(rules[i].replacement, bindings.value);
          }
        }
      }
      return term;
    }

    /** `evaluateSubterms`. */
    method EvaluateSubterms(list: Term, fuel: nat) returns (r: Result<Term>)
      requires list.List? && ruleSet.Valid()
      modifies this
      ensures Outcome(r, State()) == InterpElements(Environment(), list, 0, [], false, old(State()), fuel)
      decreases fuel, 4, |list.elements| + 1
    {
      var newElements: seq<Term> := [];
      var changed := false;
      var i := 0;
      while i < |list.elements|
        invariant 0 <= i <= |list.elements|
        invariant InterpElements(Environment(), list, 0, [], false, old(State()), fuel)
               == InterpElements(Environment(), list, i, newElements, changed, State(), fuel)
        decreases |list.elements| - i
      {
        var element := EvaluateRecursive(list.elements[i], fuel);
        if element.Err? {
          return element;
        }
        newElements := newElements + [element.value];
        if element.value != list.elements[i] {
          changed := true;
        }
        i := i + 1;
      }
      r := Ok(if changed then List(newElements) else list);
    }
  }
}
