/** The abstract syntax tree of calc.py: numbers, unary minus and binary
    operators. */
module Ast {
  import opened Tokens

  datatype Expr =
    | Number(value: real)
    | UnaryOp(op: string, expr: Expr)
    | BinaryOp(left: Expr, op: string, right: Expr)

  /** `e` wrapped in k unary-minus nodes. */
  function Negate(k: nat, e: Expr): (r: Expr) {
    if k == 0 then e else UnaryOp("-", Negate(k - 1, e))
  }

  /** Every operator in `e` is one the parser builds: unary nodes are "-" and
      binary nodes are one of the four arithmetic operators. The evaluator
      itself accepts any text on a unary node. */
  predicate OpsKnown(e: Expr) {
    match e
    case Number(_) => true
    case UnaryOp(op, x) => op == "-" && OpsKnown(x)
    case BinaryOp(l, op, r) => IsBinaryOperator(op) && OpsKnown(l) && OpsKnown(r)
  }
}
