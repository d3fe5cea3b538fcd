/**
 * What the three evaluators share: the set of special operators and the meaning
 * of a binary operator applied to two evaluated atoms. Numbers are the decimal
 * literals of `Atom.isNumber`, their values exact reals.
 */
module Primitives {
  import opened Wrappers
  import opened Text
  import opened Terms

  /** The operators written between `(` and their two arguments: `(+ 1 2)`. */
  predicate IsInfixOperator(op: string) {
    op in {"+", "-", "*", "/", "%", ">", "<", ">=", "<=", "=", "!="}
  }

  /** `isSpecialOperator`: the explicit `:` form, `if`, and the infix operators. */
  predicate IsSpecialOperator(op: string) {
    op in {":", "if", "+", "-", "*", "/", "%", ">", "<", ">=", "<=", "=", "!="}
  }

  /** Exactly thirteen symbols are special: `:`, `if` and the eleven infix operators;
      `==`, which `evaluateBinaryOp` understands, is not among them. */
  lemma SpecialOperatorsExactly(op: string)
    ensures IsSpecialOperator(op) <==> op == ":" || op == "if" || IsInfixOperator(op)
    ensures !IsSpecialOperator("==")
    ensures |{":", "if", "+", "-", "*", "/", "%", ">", "<", ">=", "<=", "=", "!="}| == 13
  {
  }

  /** The comparison operators, whose result is a boolean atom. */
  predicate IsComparison(op: string) {
    op in {">", "<", ">=", "<="}
  }

  /** Rounding toward zero, as a Java `double` division inside `%` does. */
  function Truncate(x: real): (n: int)
    ensures x >= 0.0 ==> n as real <= x < n as real + 1.0
    ensures x < 0.0 ==> n as real - 1.0 < x <= n as real
  {
    if x >= 0.0 then x.Floor else -((-x).Floor)
  }

  /** Java's `%` on doubles: the remainder of the division truncated toward zero. */
  function JavaRemainder(a: real, b: real): (r: real)
    requires b != 0.0
    ensures a == b * Truncate(a / b) as real + r
    ensures (a >= 0.0 ==> r >= 0.0) && (a <= 0.0 ==> r <= 0.0)
    ensures -Abs(b) < r < Abs(b)
  {
    var q := Truncate(a / b);
    var r := a - b * q as real;
    RemainderBounds(a, b, q as real, r);
    r
  }

  function Abs(x: real): real {
    if x < 0.0 then -x else x
  }

  lemma RemainderBounds(a: real, b: real, q: real, r: real)
    requires b != 0.0
    requires q == Truncate(a / b) as real && r == a - b * q
    ensures (a >= 0.0 ==> r >= 0.0) && (a <= 0.0 ==> r <= 0.0)
    ensures -Abs(b) < r < Abs(b)
  {
    var x := a / b;
    var d := x - q;
    assert a == b * x;
    assert r == b * d;
    if x >= 0.0 {
      assert 0.0 <= d < 1.0;
    } else {
      assert -1.0 < d <= 0.0;
    }
    ScaledFraction(b, d);
    ProductSign(b, d);
    if b > 0.0 {
      assert (a >= 0.0 ==> x >= 0.0) && (a <= 0.0 ==> x <= 0.0);
    } else {
      assert (a >= 0.0 ==> x <= 0.0) && (a <= 0.0 ==> x >= 0.0);
    }
  }

  /** A fraction `d` strictly between -1 and 1 scales `b` to something smaller than `b`. */
  lemma ScaledFraction(b: real, d: real)
    requires b != 0.0 && -1.0 < d < 1.0
    ensures -Abs(b) < b * d < Abs(b)
  {
    if b > 0.0 {
      ScaledByPositive(b, d);
      assert Abs(b) == b;
    } else {
      ScaledByPositive(-b, -d);
      assert b * d == (-b) * (-d);
      assert Abs(b) == -b;
    }
  }

  lemma ScaledByPositive(b: real, d: real)
    requires b > 0.0 && -1.0 < d < 1.0
    ensures -b < b * d < b
  {
    if d >= 0.0 {
      assert b * d < b * 1.0;
    } else {
      assert b * -1.0 < b * d;
    }
  }

  lemma ProductSign(b: real, d: real)
    ensures (b >= 0.0) == (d >= 0.0) ==> b * d >= 0.0
    ensures (b >= 0.0) != (d >= 0.0) ==> b * d <= 0.0
  {
  }

  /** The value of a comparison, or the arithmetic result, of two numbers;
      `None` for an operator `evaluateBinaryOp` does not know. */
  function NumericResult(op: string, v1: real, v2: real): Option<real>
    requires (op == "/" || op == "%") ==> v2 != 0.0
  {
    if op == "+" then Some(v1 + v2)
    else if op == "-" then Some(v1 - v2)
    else if op == "*" then Some(v1 * v2)
    else if op == "/" then Some(v1 / v2)
    else if op == "%" then Some(JavaRemainder(v1, v2))
    else if op == ">" then Some(if v1 > v2 then 1.0 else 0.0)
    else if op == "<" then Some(if v1 < v2 then 1.0 else 0.0)
    else if op == ">=" then Some(if v1 >= v2 then 1.0 else 0.0)
    else if op == "<=" then Some(if v1 <= v2 then 1.0 else 0.0)
    else None
  }

  /** `evaluateBinaryOp`: `=`, `==` and `!=` compare any two atoms; every other operator
      needs two numbers, refuses a zero divisor for `/` and `%`, and yields a boolean for
      a comparison and a number otherwise. `formatG` prints a value `%.6g` would print. */
  function BinaryOp(op: string, a1: Term, a2: Term, formatG: real -> string): (r: Result<Term>)
    requires a1.Atom? && a2.Atom?
    ensures (op == "=" || op == "==") ==> r == Ok(Bool(a1 == a2))
    ensures op == "!=" ==> r == Ok(Bool(a1 != a2))
    ensures op !in {"=", "==", "!="} && !(IsNumber(a1) && IsNumber(a2)) ==> r.Err? && r.failure.IllegalArgument?
    ensures op in {"/", "%"} && IsNumber(a1) && IsNumber(a2) && NumberValue(a2) == 0.0 ==>
              r == Err(Arithmetic("Division by zero"))
    ensures r.Ok? && IsComparison(op) ==> IsBoolean(r.value)
    ensures r.Err? && r.failure.IllegalArgument? && IsNumber(a1) && IsNumber(a2) ==>
              !IsComparison(op) && op !in {"=", "==", "!=", "+", "-", "*", "/", "%"}
    ensures IsNumber(a1) && IsNumber(a2) && !IsComparison(op) && op !in {"=", "==", "!=", "+", "-", "*", "/", "%"} ==>
              r == Err(IllegalArgument("Unknown operator: " + op))
  {
    if op == "=" || op == "==" then Ok(Bool(a1 == a2))
    else if op == "!=" then Ok(Bool(a1 != a2))
    else if !IsNumber(a1) || !IsNumber(a2) then
      Err(IllegalArgument("Arithmetic args must be numbers: " + ToString(a1) + ", " + ToString(a2)))
    else
      var v1, v2 := NumberValue(a1), NumberValue(a2);
      if (op == "/" || op == "%") && v2 == 0.0 then Err(Arithmetic("Division by zero"))
      else
        match NumericResult(op, v1, v2)
        case None => Err(IllegalArgument("Unknown operator: " + op))
        case Some(result) =>
          if IsComparison(op) then Ok(Bool(result != 0.0)) else Ok(NumberOfReal(result, formatG))
  }

  /** Integral results inside the `int` range print back as the exact value, so that
      `(: + 2 3)` reads back as the number 5. */
  lemma BinaryOpIntegralResult(op: string, a1: Term, a2: Term, formatG: real -> string)
    requires a1.Atom? && a2.Atom? && IsNumber(a1) && IsNumber(a2)
    requires op in {"+", "-", "*"}
    requires var v := NumericResult(op, NumberValue(a1), NumberValue(a2)).value;
             IsIntegral(v) && IntMin as real <= v <= IntMax as real
    ensures var r := BinaryOp(op, a1, a2, formatG);
            r.Ok? && IsNumber(r.value) && NumberValue(r.value) == NumericResult(op, NumberValue(a1), NumberValue(a2)).value
  {
    var v := NumericResult(op, NumberValue(a1), NumberValue(a2)).value;
    assert BinaryOp(op, a1, a2, formatG) == Ok(NumberOfReal(v, formatG)) by {
      assert !IsComparison(op) && op != "=" && op != "==" && op != "!=" && op != "/" && op != "%";
    }
  }

  /** Every arithmetic operator on two numbers succeeds, unless it divides by zero, and
      yields the printed value of the operation: the quotient for `/`, Java's truncating
      remainder for `%`. */
  lemma BinaryOpArithmetic(op: string, a1: Term, a2: Term, formatG: real -> string)
    requires a1.Atom? && a2.Atom? && IsNumber(a1) && IsNumber(a2)
    requires op in {"+", "-", "*", "/", "%"}
    requires op in {"/", "%"} ==> NumberValue(a2) != 0.0
    ensures var v1, v2 := NumberValue(a1), NumberValue(a2);
            BinaryOp(op, a1, a2, formatG) == Ok(NumberOfReal(NumericResult(op, v1, v2).value, formatG))
    ensures op == "/" ==> NumericResult(op, NumberValue(a1), NumberValue(a2)).value == NumberValue(a1) / NumberValue(a2)
    ensures op == "%" ==> NumericResult(op, NumberValue(a1), NumberValue(a2)).value == JavaRemainder(NumberValue(a1), NumberValue(a2))
  {
    assert !IsComparison(op) && op != "=" && op != "==" && op != "!=";
  }

  /** A comparison is true exactly when the numbers compare so. */
  lemma BinaryOpComparison(op: string, a1: Term, a2: Term, formatG: real -> string)
    requires a1.Atom? && a2.Atom? && IsNumber(a1) && IsNumber(a2) && IsComparison(op)
    ensures var r := BinaryOp(op, a1, a2, formatG);
            var v1, v2 := NumberValue(a1), NumberValue(a2);
            r.Ok? && IsBoolean(r.value) &&
            (AsBoolean(r.value) <==> (op == ">" && v1 > v2) || (op == "<" && v1 < v2)
                                      || (op == ">=" && v1 >= v2) || (op == "<=" && v1 <= v2))
  {
    var v1, v2 := NumberValue(a1), NumberValue(a2);
    var c := NumericResult(op, v1, v2).value;
    assert op != "=" && op != "==" && op != "!=" && op != "/" && op != "%";
    assert BinaryOp(op, a1, a2, formatG) == Ok(Bool(c != 0.0));
  }

  /** `=` and `!=` are each other's negation and `=` is symmetric. */
  lemma EqualityNegation(a1: Term, a2: Term, formatG: real -> string)
    requires a1.Atom? && a2.Atom?
    ensures AsBoolean(BinaryOp("!=", a1, a2, formatG).value) == !AsBoolean(BinaryOp("=", a1, a2, formatG).value)
    ensures BinaryOp("=", a1, a2, formatG) == BinaryOp("=", a2, a1, formatG)
  {
  }

  /** The bookkeeping of `TermEvaluator` and `UnifiedInterpreter`: results memoised per
      term, and the terms whose evaluation is under way. */
  datatype EvalState = EvalState(memo: map<Term, Term>, active: set<Term>)

  const Fresh: EvalState := EvalState(map[], {})

  /** An evaluation's result together with the bookkeeping it leaves behind. */
  datatype Outcome = Outcome(result: Result<Term>, state: EvalState)

  /** Only results that differ from their term are memoised. */
  predicate MemoChanged(s: EvalState) {
    forall t :: t in s.memo ==> s.memo[t] != t
  }

  /** `evaluate`'s last step: a cons result that is a proper list is returned as a list. */
  function ProperConsAsList(r: Result<Term>): (r': Result<Term>)
    ensures r.Err? ==> r' == r
    ensures r.Ok? && r.value.Cons? && ConsToList(r.value).Some? ==> r' == Ok(ConsToList(r.value).value) && r'.value.List?
    ensures r.Ok? && !(r.value.Cons? && ConsToList(r.value).Some?) ==> r' == r
  {
    if r.Ok? && r.value.Cons? && ConsToList(r.value).Some? then Ok(ConsToList(r.value).value) else r
  }
}
