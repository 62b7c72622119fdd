/** The evaluator of calc.py: a post-order fold of the tree over exact reals. */
module Evaluator {
  import opened Tokens
  import opened Results
  import opened Ast

  /** `evaluate(ast)`: numbers are their value, a unary node negates its operand
      whatever its operator text, a binary node evaluates left then right and
      applies its operator; "/" by zero and any operator outside "+-*" and "/"
      fail. */
  function Eval(e: Expr): (r: Result<real>)
    ensures r.Failure? ==> r.error == DivisionByZero || r.error.UnknownOperator?
  {
    match e
    case Number(v) => Success(v)
    case UnaryOp(_, x) =>
      var v :- Eval(x);
      Success(-v)
    case BinaryOp(left, op, right) =>
      var a :- Eval(left);
      var b :- Eval(right);
      Apply(op, a, b)
  }

  /** The operator dispatch of a binary node on its operands' values: the four
      arithmetic operators, a division by zero, and every other operator text
      unknown. */
  function Apply(op: string, a: real, b: real): (r: Result<real>)
    ensures r.Success? <==> IsBinaryOperator(op) && (op == "/" ==> b != 0.0)
    ensures op == "+" ==> r == Success(a + b)
    ensures op == "-" ==> r == Success(a - b)
    ensures op == "*" ==> r == Success(a * b)
    ensures op == "/" && b != 0.0 ==> r == Success(a / b)
    ensures op == "/" && b == 0.0 ==> r == Failure(DivisionByZero)
    ensures !IsBinaryOperator(op) ==> r == Failure(UnknownOperator(op))
  {
    if op == "+" then Success(a + b)
    else if op == "-" then Success(a - b)
    else if op == "*" then Success(a * b)
    else if op == "/" then
      if b == 0.0 then Failure(DivisionByZero) else Success(a / b)
    else Failure(UnknownOperator(op))
  }

  /** On trees the parser builds, evaluation fails only by a division by
      zero: the unknown-operator failure of Eval's contract cannot arise. */
  lemma {:induction false} EvalErrors(e: Expr)
    ensures Eval(e).Failure? && OpsKnown(e) ==> Eval(e).error == DivisionByZero
  {
    match e
    case Number(_) =>
    case UnaryOp(_, x) => EvalErrors(x);
    case BinaryOp(l, _, r) => EvalErrors(l); EvalErrors(r);
  }

  /** A total reading of the tree, independent of failure: quotients by zero
      and unknown operators read as 0. */
  function Denote(e: Expr): (v: real) {
    match e
    case Number(v) => v
    case UnaryOp(_, x) => -Denote(x)
    case BinaryOp(l, op, r) =>
      var a, b := Denote(l), Denote(r);
      match op
      case "+" => a + b
      case "-" => a - b
      case "*" => a * b
      case "/" => if b == 0.0 then 0.0 else a / b
      case _ => 0.0
  }

  /** The tree has a value: every binary operator is one of + - * / and no
      divisor denotes 0. A unary node's operator text is ignored, as by the
      evaluator. */
  predicate Defined(e: Expr) {
    match e
    case Number(_) => true
    case UnaryOp(_, x) => Defined(x)
    case BinaryOp(l, op, r) =>
      Defined(l) && Defined(r) && IsBinaryOperator(op) && (op == "/" ==> Denote(r) != 0.0)
  }

  /** Evaluation succeeds exactly on defined trees, and then yields their
      denotation. */
  lemma {:induction false} EvalDenotes(e: Expr)
    ensures Eval(e).Success? <==> Defined(e)
    ensures Eval(e).Success? ==> Eval(e).value == Denote(e)
  {
    match e
    case Number(_) =>
    case UnaryOp(_, x) => EvalDenotes(x);
    case BinaryOp(l, op, r) => EvalDenotes(l); EvalDenotes(r);
  }

  /** k unary minuses multiply the operand's value by (-1)^k, and pass its
      failure through unchanged. */
  lemma {:induction false} EvalNegate(k: nat, e: Expr)
    ensures Eval(Negate(k, e)).Success? <==> Eval(e).Success?
    ensures Eval(e).Failure? ==> Eval(Negate(k, e)) == Eval(e)
    ensures Eval(e).Success? ==>
      Eval(Negate(k, e)).value == if k % 2 == 0 then Eval(e).value else -Eval(e).value
  {
    if k > 0 {
      EvalNegate(k - 1, e);
    }
  }

  /** A division whose operands evaluate, the divisor to 0, fails. */
  lemma EvalDivisionByZero(l: Expr, r: Expr)
    requires Eval(l).Success? && Eval(r) == Success(0.0)
    ensures Eval(BinaryOp(l, "/", r)) == Failure(DivisionByZero)
  {
    assert Apply("/", Eval(l).value, 0.0) == Failure(DivisionByZero);
  }

  /** An operator outside the four fails once both operands have evaluated;
      an operand's failure comes first, the left one before the right one. */
  lemma EvalUnknownOperator(l: Expr, op: string, r: Expr)
    requires !IsBinaryOperator(op)
    ensures Eval(l).Failure? ==> Eval(BinaryOp(l, op, r)) == Eval(l)
    ensures Eval(l).Success? && Eval(r).Failure? ==> Eval(BinaryOp(l, op, r)) == Eval(r)
    ensures Eval(l).Success? && Eval(r).Success? ==> Eval(BinaryOp(l, op, r)) == Failure(UnknownOperator(op))
  {
  }
}
