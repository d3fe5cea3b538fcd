/**
 * The lazy variant of the special operators (`core/Evaluator.java`): arguments are
 * wrapped in thunks that a `TermEvaluator` forces at most once, the branches of `if`
 * are evaluated only when chosen, and results are cached per list term.
 * Every evaluation of a sub-term is a top-level `TermEvaluator.evaluate`, so its result
 * is `EvalTop` of that sub-term whatever the evaluator held before.
 */
module LazyEvaluation {
  import opened Wrappers
  import opened Terms
  import opened Primitives
  import opened TermEvaluation

  // ------------------------------------------------------------ the specification

  /** `evaluate` without its cache: the operator named by the head, or an error. */
  function LazyResult(env: Env, list: Term, fuel: nat): Result<Term>
    requires list.List?
  {
    var symbol := FunctionSymbol(list.elements);
    if symbol == ":" then LazyArithmetic(env, list, fuel)
    else if symbol == "if" then LazyIf(env, list, fuel)
    else if IsInfixOperator(symbol) then LazyInfix(env, list, fuel)
    else Err(IllegalArgument("Not a special operator: " + symbol))
  }

  /** `evaluateIfLazy`: the condition, then only the chosen branch. */
  function LazyIf(env: Env, list: Term, fuel: nat): Result<Term>
    requires list.List?
  {
    var es := list.elements;
    if |es| != 4 then Err(IllegalArgument("if requires (if condition then else)"))
    else
      var c := EvalTop(env, es[1], fuel).result;
      if c.Err? then c
      else if IsBoolean(c.value) then
        if AsBoolean(c.value) then EvalTop(env, es[2], fuel).result else EvalTop(env, es[3], fuel).result
      else Err(IllegalArgument("if condition must be boolean, got: " + ToString(c.value)))
  }

  /** The `:` form `evaluateInfixOperatorLazy` builds: its arguments are placeholders,
      the real arguments travel in the thunks. */
  function ThunkForm(op: string): (t: Term)
    ensures t.List? && |t.elements| == 4 && t.elements[1] == Atom(op)
  {
    List([Atom(":"), Atom(op), Atom("thunk1"), Atom("thunk2")])
  }

  /** `evaluateInfixOperatorLazy`. */
  function LazyInfix(env: Env, list: Term, fuel: nat): Result<Term>
    requires list.List?
  {
    var es := list.elements;
    if |es| != 3 then Err(IllegalArgument("Binary operator requires 2 arguments"))
    else WithThunks(env, ThunkForm(FunctionSymbol(es)), es[1], es[2], fuel)
  }

  /** `evaluateArithmeticLazy`: unlike the eager evaluator, the operator is checked to be
      an atom before any argument is evaluated. */
  function LazyArithmetic(env: Env, list: Term, fuel: nat): Result<Term>
    requires list.List?
  {
    var es := list.elements;
    if |es| != 4 then Err(IllegalArgument("Arithmetic requires (: op arg1 arg2)"))
    else if !es[1].Atom? then Err(IllegalArgument("Operator must be atom"))
    else WithThunks(env, list, es[2], es[3], fuel)
  }

  /** `evaluateArithmeticWithThunks`: each argument is forced once, the first before the
      second, and both values must be atoms. */
  function WithThunks(env: Env, list: Term, e1: Term, e2: Term, fuel: nat): Result<Term>
    requires list.List? && |list.elements| >= 2
  {
    var operator := list.elements[1];
    if !operator.Atom? then Err(IllegalArgument("Operator must be atom"))
    else
      var a1 := EvalTop(env, e1, fuel).result;
      if a1.Err? then a1
      else
        var a2 := EvalTop(env, e2, fuel).result;
        if a2.Err? then a2
        else if !a1.value.Atom? || !a2.value.Atom? then
          Err(IllegalArgument("Args must be atoms: " + ToString(a1.value) + ", " + ToString(a2.value)))
        else BinaryOp(operator.value, a1.value, a2.value, env.formatG)
  }

  // ------------------------------------------------------------ properties

  /** A head that is not a special operator is refused with the eager evaluator's error. */
  lemma LazyRefusesOtherHeads(env: Env, list: Term, s: EvalState, fuel: nat)
    requires list.List? && !IsSpecialOperator(FunctionSymbol(list.elements))
    ensures LazyResult(env, list, fuel) == EvalSpecial(env, list, s, fuel).result
    ensures LazyResult(env, list, fuel).Err?
  {
  }

  /** `if` is evaluated the same way lazily and eagerly. */
  lemma LazyIfAgreesWithEager(env: Env, list: Term, s: EvalState, fuel: nat)
    requires list.List? && FunctionSymbol(list.elements) == "if"
    ensures LazyResult(env, list, fuel) == EvalSpecial(env, list, s, fuel).result
  {
  }

  /** The explicit `:` form with an atom operator is evaluated the same way lazily and
      eagerly; with any other operator both fail, though not always with the same error,
      since the eager evaluator evaluates the arguments first. */
  lemma LazyArithmeticAgreesWithEager(env: Env, list: Term, s: EvalState, fuel: nat)
    requires list.List? && FunctionSymbol(list.elements) == ":"
    ensures |list.elements| != 4 || list.elements[1].Atom? ==>
              LazyResult(env, list, fuel) == EvalSpecial(env, list, s, fuel).result
    ensures LazyResult(env, list, fuel).Ok? <==> EvalSpecial(env, list, s, fuel).result.Ok?
  {
  }

  /** An infix operator evaluates each argument once lazily but twice eagerly (the eager
      evaluator evaluates the values again inside its `:` form). The two agree whenever the
      arguments' values evaluate to themselves. */
  lemma LazyInfixAgreesWithEager(env: Env, list: Term, s: EvalState, fuel: nat)
    requires list.List? && |list.elements| == 3 && IsInfixOperator(FunctionSymbol(list.elements))
    requires var a1 := EvalTop(env, list.elements[1], fuel).result;
             a1.Ok? ==> EvalTop(env, a1.value, fuel).result == a1
    requires var a2 := EvalTop(env, list.elements[2], fuel).result;
             a2.Ok? ==> EvalTop(env, a2.value, fuel).result == a2
    ensures LazyResult(env, list, fuel) == EvalSpecial(env, list, s, fuel).result
  {
    var es := list.elements;
    var op := FunctionSymbol(es);
    assert op != ":" && op != "if";
    var a1 := EvalTop(env, es[1], fuel);
    var a2 := EvalTop(env, es[2], fuel);
    if a1.result.Ok? && a2.result.Ok? {
      var colon := ColonForm(op, a1.result.value, a2.result.value);
      assert EvalSpecial(env, list, s, fuel) == EvalArithmetic(env, colon, a2.state, fuel);
    }
  }

  /** Infix operators on atoms compute the binary operator, as eagerly. */
  lemma LazyInfixOnAtoms(env: Env, op: string, a1: Term, a2: Term, fuel: nat)
    requires IsInfixOperator(op) && a1.Atom? && a2.Atom? && fuel > 0
    ensures LazyResult(env, List([Atom(op), a1, a2]), fuel) == BinaryOp(op, a1, a2, env.formatG)
  {
    AtomsAndNilAreValues(env, a1, fuel);
    AtomsAndNilAreValues(env, a2, fuel);
    assert FunctionSymbol([Atom(op), a1, a2]) == op;
    assert op != ":" && op != "if";
  }

  // ------------------------------------------------------------ the classes

  /** `Evaluator.Thunk`: an expression evaluated on first demand. A failed evaluation
      leaves the thunk unevaluated. */
  class Thunk {
    const expression: Term
    const evaluator: TermEvaluator
    var cachedResult: Option<Term>
    var evaluated: bool

    ghost predicate Valid()
      reads this
    {
      evaluated <==> cachedResult.Some?
    }

    constructor (expression: Term, evaluator: TermEvaluator)
      ensures this.expression == expression && this.evaluator == evaluator
      ensures !evaluated && cachedResult == None && Valid()
    {
      this.expression := expression;
      this.evaluator := evaluator;
      cachedResult := None;
      evaluated := false;
    }

    /** `force`: an evaluated thunk returns its value and touches nothing; otherwise the
        expression is evaluated, and a value is kept for every later call. */
    method Force(fuel: nat) returns (r: Result<Term>)
      requires Valid() && evaluator.ruleSet.Valid()
      modifies this, evaluator
      ensures Valid()
      ensures old(evaluated) ==> r == Ok(old(cachedResult).value) && unchanged(this, evaluator)
      ensures !old(evaluated) ==> r == EvalTop(evaluator.Environment(), expression, fuel).result
      ensures !old(evaluated) && r.Ok? ==> evaluated && cachedResult == Some(r.value)
      ensures !old(evaluated) && r.Err? ==> !evaluated && cachedResult == None
    {
      if !evaluated {
        var value := evaluator.Evaluate(expression, fuel);
        if value.Err? {
          return value;
        }
        cachedResult := Some(value.value);
        evaluated := true;
      }
      r := Ok(cachedResult.value);
    }
  }

  /** `Evaluator`: the lazy special operators with a cache of their results. */
  class Evaluator {
    var evaluationCache: map<Term, Term>

    constructor ()
      ensures evaluationCache == map[]
    {
      evaluationCache := map[];
    }

    /** `evaluate`: a cached list returns its cached value; otherwise the operator's value
        is computed and cached, and a failure caches nothing. */
    method Evaluate(list: Term, evaluator: TermEvaluator, fuel: nat) returns (r: Result<Term>)
      requires list.List? && evaluator.ruleSet.Valid()
      modifies this, evaluator
      ensures list in old(evaluationCache) ==> r == Ok(old(evaluationCache)[list]) && evaluationCache == old(evaluationCache)
      ensures list !in old(evaluationCache) ==> r == LazyResult(evaluator.Environment(), list, fuel)
      ensures list !in old(evaluationCache) && r.Ok? ==> evaluationCache == old(evaluationCache)[list := r.value]
      ensures r.Err? ==> evaluationCache == old(evaluationCache)
    {
      if list in evaluationCache {
        return Ok(evaluationCache[list]);
      }
      var symbol := FunctionSymbol(list.elements);
      if symbol == ":" {
        r := EvaluateArithmeticLazy(list, evaluator, fuel);
      } else if symbol == "if" {
        r := EvaluateIfLazy(list, evaluator, fuel);
      } else if IsInfixOperator(symbol) {
        r := EvaluateInfixOperatorLazy(list, evaluator, fuel);
      } else {
        return Err(IllegalArgument("Not a special operator: " + symbol));
      }
      if r.Ok? {
        evaluationCache := evaluationCache[list := r.value];
      }
    }

    /** `evaluateIfLazy`. */
    method EvaluateIfLazy(list: Term, evaluator: TermEvaluator, fuel: nat) returns (r: Result<Term>)
      requires list.List? && evaluator.ruleSet.Valid()
      modifies evaluator
      ensures r == LazyIf(evaluator.Environment(), list, fuel)
    {
      var es := list.elements;
      if |es| != 4 {
        return Err(IllegalArgument("if requires (if condition then else)"));
      }
      var condition := evaluator.Evaluate(es[1], fuel);
      if condition.Err? {
        return condition;
      }
      if IsBoolean(condition.value) {
        if AsBoolean(condition.value) {
          r := evaluator.Evaluate(es[2], fuel);
        } else {
          r := evaluator.Evaluate(es[3], fuel);
        }
        return;
      }
      r := Err(IllegalArgument("if condition must be boolean, got: " + ToString(condition.value)));
    }

    /** `evaluateInfixOperatorLazy`. */
    method EvaluateInfixOperatorLazy(list: Term, evaluator: TermEvaluator, fuel: nat) returns (r: Result<Term>)
      requires list.List? && evaluator.ruleSet.Valid()
      modifies evaluator
      ensures r == LazyInfix(evaluator.Environment(), list, fuel)
    {
      var es := list.elements;
      if |es| != 3 {
        return Err(IllegalArgument("Binary operator requires 2 arguments"));
      }
      var arg1Thunk := new Thunk(es[1], evaluator);
      var arg2Thunk := new Thunk(es[2], evaluator);
      r := EvaluateArithmeticWithThunks(ThunkForm(FunctionSymbol(es)), arg1Thunk, arg2Thunk, fuel);
    }

    /** `evaluateArithmeticLazy`. */
    method EvaluateArithmeticLazy(list: Term, evaluator: TermEvaluator, fuel: nat) returns (r: Result<Term>)
      requires list.List? && evaluator.ruleSet.Valid()
      modifies evaluator
      ensures r == LazyArithmetic(evaluator.Environment(), list, fuel)
    {
      var es := list.elements;
      if |es| != 4 {
        return Err(IllegalArgument("Arithmetic requires (: op arg1 arg2)"));
      }
      var arg1Thunk := new Thunk(es[2], evaluator);
      var arg2Thunk := new Thunk(es[3], evaluator);
      if !es[1].Atom? {
        return Err(IllegalArgument("Operator must be atom"));
      }
      r := EvaluateArithmeticWithThunks(list, arg1Thunk, arg2Thunk, fuel);
    }

    /** `evaluateArithmeticWithThunks`, given two fresh thunks over one evaluator. */
    method EvaluateArithmeticWithThunks(list: Term, arg1Thunk: Thunk, arg2Thunk: Thunk, fuel: nat) returns (r: Result<Term>)
      requires list.List? && |list.elements| >= 2
      requires arg1Thunk != arg2Thunk && arg1Thunk.evaluator == arg2Thunk.evaluator
      requires arg1Thunk.Valid() && !arg1Thunk.evaluated && arg2Thunk.Valid() && !arg2Thunk.evaluated
      requires arg1Thunk.evaluator.ruleSet.Valid()
      modifies arg1Thunk, arg2Thunk, arg1Thunk.evaluator
      ensures r == WithThunks(arg1Thunk.evaluator.Environment(), list, arg1Thunk.expression, arg2Thunk.expression, fuel)
    {
      var operator := list.elements[1];
      if !operator.Atom? {
        return Err(IllegalArgument("Operator must be atom"));
      }
      var arg1 := arg1Thunk.Force(fuel);
      if arg1.Err? {
        return arg1;
      }
      var arg2 := arg2Thunk.Force(fuel);
      if arg2.Err? {
        return arg2;
      }
      if !arg1.value.Atom? || !arg2.value.Atom? {
        return Err(IllegalArgument("Args must be atoms: " + ToString(arg1.value) + ", " + ToString(arg2.value)));
      }
      r := BinaryOp(operator.value, arg1.value, arg2.value, arg1Thunk.evaluator.formatG);
    }
  }
}
