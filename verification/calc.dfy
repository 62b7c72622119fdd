/** `calc`: the lexer, the parser and the evaluator chained, the first failure
    ending the computation. */
module Calculator {
  import opened Tokens
  import opened Results
  import opened Ast
  import opened Lexer
  import opened Parser
  import opened Evaluator
  import opened LexerProperties

  /** Every operator token of a lexed list is one of the four the precedence
      table knows. */
  lemma {:induction false} LexedOperatorsKnown(toks: seq<Token>, last: Option<Kind>)
    requires WellLexed(toks, last)
    ensures forall op :: Operator(op) in toks ==> IsBinaryOperator(op)
  {
    forall op | Operator(op) in toks
      ensures IsBinaryOperator(op)
    {
      var i :| 0 <= i < |toks| && toks[i] == Operator(op);
      WellLexedAt(toks, last, i);
    }
  }

  /** On what the lexer emits, the parser fails only because the tokens ran
      out or an operator stood where an atom belongs: a missing precedence is
      impossible, and so is a parse that stops short of the end. */
  lemma {:induction false} ParseLexed(toks: seq<Token>)
    requires WellLexed(toks, None)
    ensures Parse(toks).Failure? ==>
      Parse(toks).error == UnexpectedEnd || Parse(toks).error == UnexpectedToken(OperatorKind)
  {
    LexedOperatorsKnown(toks, None);
    var r := ParseExpression(toks, 0, 0);
    if r.Success? {
      var q := r.value.1;
      if q != |toks| {
        // The parse stopped before a token that is no operator, right after a
        // number; the lexer never puts a number or a unary minus there.
        WellLexedAt(toks, None, q);
        assert false;
      }
    }
  }

  /** `calc(expr)`: lex, parse, evaluate. Only four kinds of failure reach the
      caller: a lexical error, a premature end, an operator where an atom
      belongs, and a division by zero. */
  function Calc(s: string): (r: Result<real>)
    ensures r.Failure? ==>
      || IsLexError(r.error)
      || r.error == UnexpectedEnd
      || r.error == UnexpectedToken(OperatorKind)
      || r.error == DivisionByZero
  {
    var toks :- Lex(s);
    ParseLexed(toks);
    var ast :- Parse(toks);
    EvalErrors(ast);
    Eval(ast)
  }
}
