/**
 * The memoising evaluator: special operators first, then one rule rewrite whose
 * result is evaluated again, else the children left to right. A memo table keeps
 * the results that differ from their term and an "active" set returns a term
 * unchanged when its own evaluation is already under way.
 *
 * The special-operator evaluator evaluates its arguments through the public
 * `evaluate`, which clears both the memo table and the active set first; so does
 * the model. Java recursion has no bound but the stack: the `fuel` parameter is
 * the depth left, and running out of it is a `StackOverflow` failure.
 */
module TermEvaluation {
  import opened Wrappers
  import opened Terms
  import opened Rules
  import opened RuleStore
  import opened RuleRewriting
  import opened Primitives

  /** What evaluation depends on besides the term: the stored rules, and how a
      non-integral number is printed. */
  datatype Env = Env(rules: seq<Rule>, formatG: real -> string)

  // ------------------------------------------------------------ specification

  /** `evaluate`: clear the bookkeeping, evaluate, and turn a proper cons into a list. */
  function EvalTop(env: Env, t: Term, fuel: nat): Outcome
    decreases fuel, 1, 0
  {
    var o := EvalRec(env, t, Fresh, fuel);
    Outcome(ProperConsAsList(o.result), o.state)
  }

  /** `evaluateRecursive`: a memo hit, a term under evaluation, or the core step with the
      term marked active; a changed result is memoised, and the mark is removed
      afterwards whether the step succeeded or failed. */
  function EvalRec(env: Env, t: Term, s: EvalState, fuel: nat): Outcome
    decreases fuel, 0, 0
  {
    if t in s.memo then Outcome(Ok(s.memo[t]), s)
    else if t in s.active then Outcome(Ok(t), s)
    else if fuel == 0 then Outcome(Err(StackOverflow), s)
    else
      var o := EvalCore(env, t, s.(active := s.active + {t}), fuel - 1);
      var memo := if o.result.Ok? && o.result.value != t then o.state.memo[t := o.result.value] else o.state.memo;
      Outcome(o.result, EvalState(memo, o.state.active - {t}))
  }

  /** `evaluateCore`. */
  function EvalCore(env: Env, t: Term, s: EvalState, fuel: nat): Outcome
    decreases fuel, 6, 0
  {
    if !t.List? || t.elements == [] then Outcome(Ok(t), s)
    else if IsSpecialOperator(FunctionSymbol(t.elements)) then EvalSpecial(env, t, s, fuel)
    else
      match TryRewrite(env.rules, t)
      case Some(rewritten) => EvalRec(env, rewritten, s, fuel)
      case None => EvalSubterms(env, t, s, fuel)
  }

  /** `evaluateSubterms`: the children evaluated left to right; the list itself when
      none changed. */
  function EvalSubterms(env: Env, t: Term, s: EvalState, fuel: nat): Outcome
    requires t.List?
    decreases fuel, 5, 0
  {
    EvalElements(env, t, 0, [], false, s, fuel)
  }

  /** The loop of `evaluateSubterms` from child `i` on, with the children evaluated so far
      and whether any of them changed. */
  function EvalElements(env: Env, t: Term, i: nat, done: seq<Term>, changed: bool, s: EvalState, fuel: nat): Outcome
    requires t.List? && i <= |t.elements|
    decreases fuel, 4, |t.elements| - i
  {
    if i == |t.elements| then Outcome(Ok(if changed then List(done) else t), s)
    else
      var o := EvalRec(env, t.elements[i], s, fuel);
      if o.result.Err? then o
      else EvalElements(env, t, i + 1, done + [o.result.value], changed || o.result.value != t.elements[i], o.state, fuel)
  }

  /** `SpecialOperatorEvaluator.evaluate`: dispatch on the function symbol. */
  function EvalSpecial(env: Env, t: Term, s: EvalState, fuel: nat): Outcome
    requires t.List?
    decreases fuel, 4, 0
  {
    var symbol := FunctionSymbol(t.elements);
    if symbol == ":" then EvalArithmetic(env, t, s, fuel)
    else if symbol == "if" then EvalIf(env, t, s, fuel)
    else if IsInfixOperator(symbol) then EvalInfix(env, t, s, fuel)
    else Outcome(Err(IllegalArgument("Not a special operator: " + symbol)), s)
  }

  /** `evaluateIf`: four elements, a boolean condition, then only the chosen branch. */
  function EvalIf(env: Env, t: Term, s: EvalState, fuel: nat): Outcome
    requires t.List?
    decreases fuel, 2, 0
  {
    var es := t.elements;
    if |es| != 4 then Outcome(Err(IllegalArgument("if requires (if condition then else)")), s)
    else
      var c := EvalTop(env, es[1], fuel);
      if c.result.Err? then c
      else if IsBoolean(c.result.value) then
        if AsBoolean(c.result.value) then EvalTop(env, es[2], fuel) else EvalTop(env, es[3], fuel)
      else Outcome(Err(IllegalArgument("if condition must be boolean, got: " + ToString(c.result.value))), c.state)
  }

  /** `evaluateInfixOperator`: three elements; both arguments are evaluated and put into
      a `:` form, whose evaluation evaluates them once more. */
  function EvalInfix(env: Env, t: Term, s: EvalState, fuel: nat): Outcome
    requires t.List?
    decreases fuel, 3, 0
  {
    var es := t.elements;
    if |es| != 3 then Outcome(Err(IllegalArgument("Binary operator requires 2 arguments")), s)
    else
      var a1 := EvalTop(env, es[1], fuel);
      if a1.result.Err? then a1
      else
        var a2 := EvalTop(env, es[2], fuel);
        if a2.result.Err? then a2
        else EvalArithmetic(env, ColonForm(FunctionSymbol(es), a1.result.value, a2.result.value), a2.state, fuel)
  }

  /** The `:` form an infix operator is rewritten into. */
  function ColonForm(op: string, arg1: Term, arg2: Term): (t: Term)
    ensures t.List? && |t.elements| == 4 && FunctionSymbol(t.elements) == ":"
  {
    List([Atom(":"), Atom(op), arg1, arg2])
  }

  /** `evaluateArithmetic`: four elements; both arguments are evaluated before the operator
      is checked to be an atom, and both results must be atoms. */
  function EvalArithmetic(env: Env, t: Term, s: EvalState, fuel: nat): Outcome
    requires t.List?
    decreases fuel, 2, 0
  {
    var es := t.elements;
    if |es| != 4 then Outcome(Err(IllegalArgument("Arithmetic requires (: op arg1 arg2)")), s)
    else
      var a1 := EvalTop(env, es[2], fuel);
      if a1.result.Err? then a1
      else
        var a2 := EvalTop(env, es[3], fuel);
        if a2.result.Err? then a2
        else if !es[1].Atom? then Outcome(Err(IllegalArgument("Operator must be atom")), a2.state)
        else
          var v1, v2 := a1.result.value, a2.result.value;
          if !v1.Atom? || !v2.Atom? then
            Outcome(Err(IllegalArgument("Args must be atoms: " + ToString(v1) + ", " + ToString(v2))), a2.state)
          else Outcome(BinaryOp(es[1].value, v1, v2, env.formatG), a2.state)
  }

  // ------------------------------------------------------------ properties

  /** The bookkeeping every step leaves behind: the active set never grows, and the memo
      table only ever holds results that differ from their term. */
  lemma {:induction false} RecBookkeeping(env: Env, t: Term, s: EvalState, fuel: nat)
    ensures EvalRec(env, t, s, fuel).state.active <= s.active
    ensures MemoChanged(s) ==> MemoChanged(EvalRec(env, t, s, fuel).state)
    decreases fuel, 0, 0
  {
    if t !in s.memo && t !in s.active && fuel > 0 {
      CoreBookkeeping(env, t, s.(active := s.active + {t}), fuel - 1);
    }
  }

  /** After a top-level evaluation nothing is active, and the memo holds changed results only. */
  lemma {:induction false} TopBookkeeping(env: Env, t: Term, fuel: nat)
    ensures EvalTop(env, t, fuel).state.active == {}
    ensures MemoChanged(EvalTop(env, t, fuel).state)
    decreases fuel, 1, 0
  {
    RecBookkeeping(env, t, Fresh, fuel);
  }

  lemma {:induction false} CoreBookkeeping(env: Env, t: Term, s: EvalState, fuel: nat)
    ensures EvalCore(env, t, s, fuel).state.active <= s.active
    ensures MemoChanged(s) ==> MemoChanged(EvalCore(env, t, s, fuel).state)
    decreases fuel, 6, 0
  {
    if !t.List? || t.elements == [] {
    } else if IsSpecialOperator(FunctionSymbol(t.elements)) {
      SpecialBookkeeping(env, t, s, fuel);
    } else {
      match TryRewrite(env.rules, t)
      case Some(rewritten) => RecBookkeeping(env, rewritten, s, fuel);
      case None => ElementsBookkeeping(env, t, 0, [], false, s, fuel);
    }
  }

  lemma {:induction false} ElementsBookkeeping(env: Env, t: Term, i: nat, done: seq<Term>, changed: bool, s: EvalState, fuel: nat)
    requires t.List? && i <= |t.elements|
    ensures EvalElements(env, t, i, done, changed, s, fuel).state.active <= s.active
    ensures MemoChanged(s) ==> MemoChanged(EvalElements(env, t, i, done, changed, s, fuel).state)
    decreases fuel, 4, |t.elements| - i
  {
    if i < |t.elements| {
      var o := EvalRec(env, t.elements[i], s, fuel);
      RecBookkeeping(env, t.elements[i], s, fuel);
      if o.result.Ok? {
        ElementsBookkeeping(env, t, i + 1, done + [o.result.value], changed || o.result.value != t.elements[i], o.state, fuel);
      }
    }
  }

  lemma {:induction false} SpecialBookkeeping(env: Env, t: Term, s: EvalState, fuel: nat)
    requires t.List?
    ensures EvalSpecial(env, t, s, fuel).state.active <= s.active
    ensures MemoChanged(s) ==> MemoChanged(EvalSpecial(env, t, s, fuel).state)
    decreases fuel, 4, 0
  {
    var symbol := FunctionSymbol(t.elements);
    if symbol == ":" {
      ArithmeticBookkeeping(env, t, s, fuel);
    } else if symbol == "if" {
      IfBookkeeping(env, t, s, fuel);
    } else if IsInfixOperator(symbol) {
      InfixBookkeeping(env, t, s, fuel);
    }
  }

  lemma {:induction false} IfBookkeeping(env: Env, t: Term, s: EvalState, fuel: nat)
    requires t.List?
    ensures EvalIf(env, t, s, fuel).state.active <= s.active
    ensures MemoChanged(s) ==> MemoChanged(EvalIf(env, t, s, fuel).state)
    decreases fuel, 2, 0
  {
    var es := t.elements;
    if |es| == 4 {
      TopBookkeeping(env, es[1], fuel);
      TopBookkeeping(env, es[2], fuel);
      TopBookkeeping(env, es[3], fuel);
    }
  }

  lemma {:induction false} InfixBookkeeping(env: Env, t: Term, s: EvalState, fuel: nat)
    requires t.List?
    ensures EvalInfix(env, t, s, fuel).state.active <= s.active
    ensures MemoChanged(s) ==> MemoChanged(EvalInfix(env, t, s, fuel).state)
    decreases fuel, 3, 0
  {
    var es := t.elements;
    if |es| == 3 {
      TopBookkeeping(env, es[1], fuel);
      TopBookkeeping(env, es[2], fuel);
      var a1 := EvalTop(env, es[1], fuel);
      var a2 := EvalTop(env, es[2], fuel);
      if a1.result.Ok? && a2.result.Ok? {
        var colon := ColonForm(FunctionSymbol(es), a1.result.value, a2.result.value);
        ArithmeticBookkeeping(env, colon, a2.state, fuel);
      }
    }
  }

  lemma {:induction false} ArithmeticBookkeeping(env: Env, t: Term, s: EvalState, fuel: nat)
    requires t.List?
    ensures EvalArithmetic(env, t, s, fuel).state.active <= s.active
    ensures MemoChanged(s) ==> MemoChanged(EvalArithmetic(env, t, s, fuel).state)
    decreases fuel, 2, 0
  {
    var es := t.elements;
    if |es| == 4 {
      TopBookkeeping(env, es[2], fuel);
      TopBookkeeping(env, es[3], fuel);
    }
  }

  /** The quirk of the nested `evaluate`: evaluating an `if` forgets every term the caller
      had marked active, not only the `if` term itself. */
  lemma NestedEvaluateClearsActive(env: Env, t: Term, s: EvalState, fuel: nat)
    requires t.List? && |t.elements| == 4 && t.elements[0] == Atom("if")
    requires t !in s.memo && t !in s.active && fuel > 0
    ensures EvalRec(env, t, s, fuel).state.active == {}
  {
    var s1 := s.(active := s.active + {t});
    assert IsSpecialOperator(FunctionSymbol(t.elements));
    assert EvalCore(env, t, s1, fuel - 1) == EvalIf(env, t, s1, fuel - 1);
    var es := t.elements;
    TopBookkeeping(env, es[1], fuel - 1);
    TopBookkeeping(env, es[2], fuel - 1);
    TopBookkeeping(env, es[3], fuel - 1);
  }

  /** A special operator's result does not depend on the caller's memo table or active
      set: its arguments are evaluated from fresh bookkeeping. */
  lemma SpecialIgnoresState(env: Env, t: Term, s1: EvalState, s2: EvalState, fuel: nat)
    requires t.List?
    ensures EvalSpecial(env, t, s1, fuel).result == EvalSpecial(env, t, s2, fuel).result
  {
    var es := t.elements;
    var symbol := FunctionSymbol(es);
    if IsInfixOperator(symbol) && |es| == 3 {
      var a1 := EvalTop(env, es[1], fuel);
      var a2 := EvalTop(env, es[2], fuel);
      if a1.result.Ok? && a2.result.Ok? {
        var colon := ColonForm(symbol, a1.result.value, a2.result.value);
        assert EvalArithmetic(env, colon, a2.state, fuel) == EvalArithmetic(env, colon, a2.state, fuel);
      }
    }
  }

  /** Atoms and the empty list evaluate to themselves and leave no bookkeeping. */
  lemma AtomsAndNilAreValues(env: Env, t: Term, fuel: nat)
    requires t.Atom? || t == Nil
    requires fuel > 0
    ensures EvalTop(env, t, fuel) == Outcome(Ok(t), Fresh)
  {
    var s1 := Fresh.(active := {t});
    assert EvalCore(env, t, s1, fuel - 1) == Outcome(Ok(t), s1);
    assert s1.active - {t} == {};
    assert EvalRec(env, t, Fresh, fuel) == Outcome(Ok(t), Fresh);
  }

  /** A term that a rule rewrites to itself (such as `(loop 5)` under `(loop ?x) -> (loop ?x)`)
      evaluates to itself: the second visit finds it among the active evaluations. */
  lemma {:induction false} SelfRewriteHitsCycleGuard(env: Env, t: Term, s: EvalState, fuel: nat)
    requires t.List? && t.elements != [] && !IsSpecialOperator(FunctionSymbol(t.elements))
    requires TryRewrite(env.rules, t) == Some(t)
    requires t !in s.memo && t !in s.active && fuel > 0
    ensures EvalRec(env, t, s, fuel).result == Ok(t)
  {
    var s1 := s.(active := s.active + {t});
    assert EvalRec(env, t, s1, fuel - 1).result == Ok(t);
    assert EvalCore(env, t, s1, fuel - 1) == EvalRec(env, t, s1, fuel - 1);
  }

  /** An infix operator applied to two atoms computes the binary operator on them:
      the double evaluation of the arguments is invisible on atoms. */
  lemma InfixOnAtoms(env: Env, op: string, a1: Term, a2: Term, s: EvalState, fuel: nat)
    requires IsInfixOperator(op) && a1.Atom? && a2.Atom? && fuel > 0
    ensures EvalSpecial(env, List([Atom(op), a1, a2]), s, fuel).result == BinaryOp(op, a1, a2, env.formatG)
  {
    var t := List([Atom(op), a1, a2]);
    AtomsAndNilAreValues(env, a1, fuel);
    AtomsAndNilAreValues(env, a2, fuel);
    assert FunctionSymbol(t.elements) == op;
    assert op != ":" && op != "if";
    var colon := ColonForm(op, a1, a2);
    assert EvalInfix(env, t, s, fuel) == EvalArithmetic(env, colon, Fresh, fuel);
  }

  /** `if` with a literal boolean condition is exactly the evaluation of the chosen branch:
      the other branch is never evaluated, so its failures do not matter. */
  lemma IfChoosesBranch(env: Env, b: bool, thenBranch: Term, elseBranch: Term, s: EvalState, fuel: nat)
    requires fuel > 0
    ensures var t := List([Atom("if"), Bool(b), thenBranch, elseBranch]);
            EvalSpecial(env, t, s, fuel) == EvalTop(env, if b then thenBranch else elseBranch, fuel)
  {
    AtomsAndNilAreValues(env, Bool(b), fuel);
  }

  /** The loop of `evaluateSubterms` yields a list as long as its input. */
  lemma {:induction false} ElementsKeepLength(env: Env, t: Term, i: nat, done: seq<Term>, changed: bool, s: EvalState, fuel: nat)
    requires t.List? && i <= |t.elements| && |done| == i
    requires !changed ==> done == t.elements[..i]
    ensures var o := EvalElements(env, t, i, done, changed, s, fuel);
            o.result.Ok? ==> o.result.value.List? && |o.result.value.elements| == |t.elements|
    decreases |t.elements| - i
  {
    if i < |t.elements| {
      var o := EvalRec(env, t.elements[i], s, fuel);
      if o.result.Ok? {
        var changed' := changed || o.result.value != t.elements[i];
        assert !changed' ==> done + [o.result.value] == t.elements[..i + 1];
        ElementsKeepLength(env, t, i + 1, done + [o.result.value], changed', o.state, fuel);
      }
    }
  }

  // ------------------------------------------------------------ the classes

  class TermEvaluator {
    const ruleSet: RuleSet
    const specialEvaluator: SpecialOperatorEvaluator
    const formatG: real -> string
    var memoCache: map<Term, Term>
    var activeEvaluations: set<Term>

    constructor (ruleSet: RuleSet, formatG: real -> string)
      ensures this.ruleSet == ruleSet && this.formatG == formatG
      ensures memoCache == map[] && activeEvaluations == {}
    {
      this.ruleSet := ruleSet;
      this.formatG := formatG;
      specialEvaluator := new SpecialOperatorEvaluator();
      memoCache := map[];
      activeEvaluations := {};
    }

    function State(): EvalState
      reads this
    {
      EvalState(memoCache, activeEvaluations)
    }

    function Environment(): Env
      reads ruleSet
    {
      Env(ruleSet.allRules, formatG)
    }

    /** `evaluate`. */
    method Evaluate(term: Term, fuel: nat) returns (r: Result<Term>)
      requires ruleSet.Valid()
      modifies this
      ensures Outcome(r, State()) == EvalTop(Environment(), term, fuel)
      decreases fuel, 1, 0
    {
      memoCache := map[];
      activeEvaluations := {};
      r := EvaluateRecursive(term, fuel);
      if r.Ok? && r.value.Cons? {
        var asList := ToList(r.value);
        if asList.Some? {
          r := Ok(asList.value);
        }
      }
    }

    /** `evaluateRecursive`. */
    method EvaluateRecursive(term: Term, fuel: nat) returns (r: Result<Term>)
      requires ruleSet.Valid()
      modifies this
      ensures Outcome(r, State()) == EvalRec(Environment(), term, old(State()), fuel)
      decreases fuel, 0, 0
    {
      if term in memoCache {
        return Ok(memoCache[term]);
      }
      if term in activeEvaluations {
        return Ok(term);
      }
      if fuel == 0 {
        return Err(StackOverflow);
      }
      activeEvaluations := activeEvaluations + {term};
      r := EvaluateCore(term, fuel - 1);
      if r.Ok? && r.value != term {
        memoCache := memoCache[term := r.value];
      }
      activeEvaluations := activeEvaluations - {term};
    }

    /** `evaluateCore`. */
    method EvaluateCore(term: Term, fuel: nat) returns (r: Result<Term>)
      requires ruleSet.Valid()
      modifies this
      ensures Outcome(r, State()) == EvalCore(Environment(), term, old(State()), fuel)
      decreases fuel, 6, 0
    {
      if !term.List? || term.elements == [] {
        return Ok(term);
      }
      var symbol := FunctionSymbol(term.elements);
      if IsSpecialOperator(symbol) {
        r := specialEvaluator.Evaluate(term, this, fuel);
        return;
      }
      var rewriteResult := BaseCasesFirst(ruleSet.GetRulesForFunction(symbol), term);
      if rewriteResult.Some? {
        r := EvaluateRecursive(rewriteResult.value, fuel);
        return;
      }
      r := EvaluateSubterms(term, fuel);
    }

    /** `evaluateSubterms`. */
    method EvaluateSubterms(list: Term, fuel: nat) returns (r: Result<Term>)
      requires list.List? && ruleSet.Valid()
      modifies this
      ensures Outcome(r, State()) == EvalSubterms(Environment(), list, old(State()), fuel)
      decreases fuel, 5, 0
    {
      var newElements: seq<Term> := [];
      var changed := false;
      var i := 0;
      while i < |list.elements|
        invariant 0 <= i <= |list.elements|
        invariant EvalSubterms(Environment(), list, old(State()), fuel)
               == EvalElements(Environment(), list, i, newElements, changed, State(), fuel)
        decreases |list.elements| - i
      {
        var element := EvaluateRecursive(list.elements[i], fuel);
        if element.Err? {
          return element;
        }
        newElements := newElements + [element.value];
        if element.value != list.elements[i] {
          changed := true;
        }
        i := i + 1;
      }
      r := Ok(if changed then List(newElements) else list);
    }
  }

  /** The stateless special-operator evaluator; every argument goes through the
      evaluator's public `evaluate`. */
  class SpecialOperatorEvaluator {
    constructor () {
    }

    /** `evaluate`. */
    method Evaluate(list: Term, evaluator: TermEvaluator, fuel: nat) returns (r: Result<Term>)
      requires list.List? && evaluator.ruleSet.Valid()
      modifies evaluator
      ensures Outcome(r, evaluator.State()) == EvalSpecial(evaluator.Environment(), list, old(evaluator.State()), fuel)
      decreases fuel, 4, 0
    {
      var symbol := FunctionSymbol(list.elements);
      if symbol == ":" {
        r := EvaluateArithmetic(list, evaluator, fuel);
      } else if symbol == "if" {
        r := EvaluateIf(list, evaluator, fuel);
      } else if IsInfixOperator(symbol) {
        r := EvaluateInfixOperator(list, evaluator, fuel);
      } else {
        r := Err(IllegalArgument("Not a special operator: " + symbol));
      }
    }

    /** `evaluateIf`. */
    method EvaluateIf(list: Term, evaluator: TermEvaluator, fuel: nat) returns (r: Result<Term>)
      requires list.List? && evaluator.ruleSet.Valid()
      modifies evaluator
      ensures Outcome(r, evaluator.State()) == EvalIf(evaluator.Environment(), list, old(evaluator.State()), fuel)
      decreases fuel, 2, 0
    {
      var es := list.elements;
      if |es| != 4 {
        return Err(IllegalArgument("if requires (if condition then else)"));
      }
      var condition := evaluator.Evaluate(es[1], fuel);
      if condition.Err? {
        return condition;
      }
      if IsBoolean(condition.value) {
        if AsBoolean(condition.value) {
          r := evaluator.Evaluate(es[2], fuel);
        } else {
          r := evaluator.Evaluate(es[3], fuel);
        }
        return;
      }
      r := Err(IllegalArgument("if condition must be boolean, got: " + ToString(condition.value)));
    }

    /** `evaluateInfixOperator`. */
    method EvaluateInfixOperator(list: Term, evaluator: TermEvaluator, fuel: nat) returns (r: Result<Term>)
      requires list.List? && evaluator.ruleSet.Valid()
      modifies evaluator
      ensures Outcome(r, evaluator.State()) == EvalInfix(evaluator.Environment(), list, old(evaluator.State()), fuel)
      decreases fuel, 3, 0
    {
      var es := list.elements;
      if |es| != 3 {
        return Err(IllegalArgument("Binary operator requires 2 arguments"));
      }
      var op := FunctionSymbol(es);
      var arg1 := evaluator.Evaluate(es[1], fuel);
      if arg1.Err? {
        return arg1;
      }
      var arg2 := evaluator.Evaluate(es[2], fuel);
      if arg2.Err? {
        return arg2;
      }
      r := EvaluateArithmetic(ColonForm(op, arg1.value, arg2.value), evaluator, fuel);
    }

    /** `evaluateArithmetic`. */
    method EvaluateArithmetic(list: Term, evaluator: TermEvaluator, fuel: nat) returns (r: Result<Term>)
      requires list.List? && evaluator.ruleSet.Valid()
      modifies evaluator
      ensures Outcome(r, evaluator.State()) == EvalArithmetic(evaluator.Environment(), list, old(evaluator.State()), fuel)
      decreases fuel, 2, 0
    {
      var es := list.elements;
      if |es| != 4 {
        return Err(IllegalArgument("Arithmetic requires (: op arg1 arg2)"));
      }
      var operator := es[1];
      var arg1 := evaluator.Evaluate(es[2], fuel);
      if arg1.Err? {
        return arg1;
      }
      var arg2 := evaluator.Evaluate(es[3], fuel);
      if arg2.Err? {
        return arg2;
      }
      if !operator.Atom? {
        return Err(IllegalArgument("Operator must be atom"));
      }
      if !arg1.value.Atom? || !arg2.value.Atom? {
        return Err(IllegalArgument("Args must be atoms: " + ToString(arg1.value) + ", " + ToString(arg2.value)));
      }
      r := BinaryOp(operator.value, arg1.value, arg2.value, evaluator.formatG);
    }
  }
}
