/** The parser of calc.py: precedence climbing over the token list. The nested
    functions `parse_expression` and `parse_atom` become ParseExpression and
    ParseAtom, and the while loop of `parse_expression` becomes ParseLoop. */
module Parser {
  import opened Tokens
  import opened Results
  import opened Ast

  /** The precedence table `{"+": 1, "-": 1, "*": 2, "/": 2}`; a missing key
      is None. */
  function Precedence(op: string): (p: Option<nat>)
    ensures p.Some? <==> IsBinaryOperator(op)
    ensures p == Some(1) <==> op == "+" || op == "-"
    ensures p == Some(2) <==> op == "*" || op == "/"
  {
    if op == "+" || op == "-" then Some(1)
    else if op == "*" || op == "/" then Some(2)
    else None
  }

  /** Position q closes an atom: the token just before it is a number. */
  predicate EndsAtom(toks: seq<Token>, q: nat) {
    0 < q <= |toks| && toks[q - 1].Num?
  }

  /** The operator loop at minimum precedence `minPrec` stops at q: the tokens
      are exhausted, the next one is no operator, or it binds more loosely. */
  predicate StopsAt(toks: seq<Token>, q: nat, minPrec: nat) {
    q <= |toks| &&
    (q == |toks| || !toks[q].Operator? ||
     (Precedence(toks[q].op).Some? && Precedence(toks[q].op).value < minPrec))
  }

  /** The failures below the top level: the tokens ran out, an operator stood
      where an atom belongs, or an operator token of the list is missing from
      the precedence table. */
  predicate IsParseError(toks: seq<Token>, e: Error) {
    || e == UnexpectedEnd
    || e == UnexpectedToken(OperatorKind)
    || (e.NoPrecedence? && Operator(e.op) in toks && !IsBinaryOperator(e.op))
  }

  /** `parse_expression(pos, min_prec)`: an atom, then the operator loop. On
      success it has consumed at least one token, ends just after a number and
      stops where the loop must stop. */
  function ParseExpression(toks: seq<Token>, pos: nat, minPrec: nat): (r: Result<(Expr, nat)>)
    ensures r.Success? ==> pos < r.value.1 && EndsAtom(toks, r.value.1)
    ensures r.Success? ==> StopsAt(toks, r.value.1, minPrec) && OpsKnown(r.value.0)
    ensures r.Failure? ==> IsParseError(toks, r.error)
    decreases |toks| - pos, 1
  {
    var atom :- ParseAtom(toks, pos);
    ParseLoop(toks, atom.0, atom.1, minPrec)
  }

  /** `parse_atom(pos)`: a number, or a unary minus applied to an atom. */
  function ParseAtom(toks: seq<Token>, pos: nat): (r: Result<(Expr, nat)>)
    ensures r.Success? ==> pos < r.value.1 && EndsAtom(toks, r.value.1) && OpsKnown(r.value.0)
    ensures r.Failure? ==> r.error == UnexpectedEnd || r.error == UnexpectedToken(OperatorKind)
    decreases |toks| - pos, 0
  {
    if pos >= |toks| then
      Failure(UnexpectedEnd)
    else
      match toks[pos]
      case Num(v) => Success((Number(v), pos + 1))
      case UnaryMinus =>
        var operand :- ParseAtom(toks, pos + 1);
        Success((UnaryOp("-", operand.0), operand.1))
      case Operator(_) => Failure(UnexpectedToken(OperatorKind))
  }

  /** The while loop of `parse_expression`, entered with the tree `node` built
      so far and the position `pos` after it. Each binary operator of
      precedence at least `minPrec` takes as right operand an expression of
      strictly higher minimum precedence, which makes the operators
      left-associative. */
  function ParseLoop(toks: seq<Token>, node: Expr, pos: nat, minPrec: nat): (r: Result<(Expr, nat)>)
    requires pos <= |toks|
    ensures r.Success? ==> pos <= r.value.1 && (r.value.1 == pos || EndsAtom(toks, r.value.1))
    ensures r.Success? ==> StopsAt(toks, r.value.1, minPrec)
    ensures r.Success? && OpsKnown(node) ==> OpsKnown(r.value.0)
    ensures r.Failure? ==> IsParseError(toks, r.error)
    decreases |toks| - pos, 2
  {
    if pos < |toks| && toks[pos].Operator? then
      var op := toks[pos].op;
      match Precedence(op)
      case None => Failure(NoPrecedence(op))
      case Some(prec) =>
        if prec < minPrec then
          Success((node, pos))
        else
          var rhs :- ParseExpression(toks, pos + 1, prec + 1);
          ParseLoop(toks, BinaryOp(node, op, rhs.0), rhs.1, minPrec)
    else
      Success((node, pos))
  }

  /** `parser(tokens)`: one expression from position 0 that must consume every
      token. */
  function Parse(toks: seq<Token>): (r: Result<Expr>)
    ensures r.Success? ==> OpsKnown(r.value)
    ensures r.Failure? ==> IsParseError(toks, r.error) || r.error == InvalidExpression
  {
    var e :- ParseExpression(toks, 0, 0);
    if e.1 != |toks| then Failure(InvalidExpression) else Success(e.0)
  }
}
