/** Tokens produced by the lexer of the stage-1 calculator (calc.py). */
module Tokens {

  /** The `type` field of a token: "NUMBER", "OPERATOR" or "UNARY_MINUS". */
  datatype Kind = NumberKind | OperatorKind | UnaryMinusKind

  /** A token. A number carries its value; an operator carries its one-character
      text; a unary minus always stands for "-". */
  datatype Token = Num(value: real) | Operator(op: string) | UnaryMinus {

    /** True for both readings of the character '-'. */
    predicate IsMinus() {
      UnaryMinus? || (Operator? && op == "-")
    }
  }

  /** The four binary operator texts the lexer can emit. */
  predicate IsBinaryOperator(op: string) {
    op == "+" || op == "-" || op == "*" || op == "/"
  }

  /** A run of k unary-minus tokens. */
  function Minuses(k: nat): (ms: seq<Token>)
    ensures |ms| == k
    ensures forall i :: 0 <= i < k ==> ms[i] == UnaryMinus
  {
    if k == 0 then [] else [UnaryMinus] + Minuses(k - 1)
  }
}
