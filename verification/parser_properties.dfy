/** What the parser promises about token lists that grow at the end: an
    expression stays the same when what follows cannot continue it, a trailing
    operator makes the input end too early, and a leading operator is an
    unexpected token. */
module ParserProperties {
  import opened Tokens
  import opened Results
  import opened Ast
  import opened Parser

  /** A loop that stops at some minimum precedence also stops at a higher one. */
  lemma StopsAtMonotone(toks: seq<Token>, q: nat, m: nat, m': nat)
    requires StopsAt(toks, q, m) && m <= m'
    ensures StopsAt(toks, q, m')
  {
  }

  /** An atom never looks past its last token. */
  lemma {:induction false} AtomExtend(t: seq<Token>, u: seq<Token>, pos: nat)
    requires ParseAtom(t, pos).Success?
    ensures ParseAtom(t + u, pos) == ParseAtom(t, pos)
    decreases |t| - pos
  {
    assert (t + u)[pos] == t[pos];
    if t[pos].UnaryMinus? {
      AtomExtend(t, u, pos + 1);
    }
  }

  /** One turn of the operator loop at an operator it accepts. */
  lemma LoopOperatorStep(toks: seq<Token>, node: Expr, pos: nat, minPrec: nat)
    requires pos < |toks| && toks[pos].Operator?
    requires Precedence(toks[pos].op).Some? && minPrec <= Precedence(toks[pos].op).value
    ensures var r := ParseExpression(toks, pos + 1, Precedence(toks[pos].op).value + 1);
      ParseLoop(toks, node, pos, minPrec)
        == if r.Failure? then Failure(r.error) else ParseLoop(toks, BinaryOp(node, toks[pos].op, r.value.0), r.value.1, minPrec)
  {
  }

  /** One turn of the operator loop whose right operand is known. */
  lemma LoopStep(toks: seq<Token>, node: Expr, pos: nat, minPrec: nat, rhs: Expr, q: nat)
    requires pos < |toks| && toks[pos].Operator?
    requires Precedence(toks[pos].op).Some? && minPrec <= Precedence(toks[pos].op).value
    requires ParseExpression(toks, pos + 1, Precedence(toks[pos].op).value + 1) == Success((rhs, q))
    ensures ParseLoop(toks, node, pos, minPrec) == ParseLoop(toks, BinaryOp(node, toks[pos].op, rhs), q, minPrec)
  {
  }

  /** The same turn, for an operator o of precedence p given by name. */
  lemma LoopStepAt(toks: seq<Token>, node: Expr, pos: nat, minPrec: nat, o: string, p: nat, rhs: Expr, q: nat)
    requires pos < |toks| && toks[pos] == Operator(o)
    requires Precedence(o) == Some(p) && minPrec <= p
    requires ParseExpression(toks, pos + 1, p + 1) == Success((rhs, q))
    ensures ParseLoop(toks, node, pos, minPrec) == ParseLoop(toks, BinaryOp(node, o, rhs), q, minPrec)
  {
    LoopStep(toks, node, pos, minPrec, rhs, q);
  }

  /** The operator loop fails with its right operand. */
  lemma LoopFails(toks: seq<Token>, node: Expr, pos: nat, minPrec: nat, e: Error)
    requires pos < |toks| && toks[pos].Operator?
    requires Precedence(toks[pos].op).Some? && minPrec <= Precedence(toks[pos].op).value
    requires ParseExpression(toks, pos + 1, Precedence(toks[pos].op).value + 1) == Failure(e)
    ensures ParseLoop(toks, node, pos, minPrec) == Failure(e)
  {
  }

  /** Appending tokens does not change an expression parsed from `pos` as long
      as the operator loop would still stop where it stopped. */
  lemma {:induction false} ExprExtend(t: seq<Token>, u: seq<Token>, pos: nat, minPrec: nat)
    requires ParseExpression(t, pos, minPrec).Success?
    requires StopsAt(t + u, ParseExpression(t, pos, minPrec).value.1, minPrec)
    ensures ParseExpression(t + u, pos, minPrec) == ParseExpression(t, pos, minPrec)
    decreases |t| - pos, 1
  {
    AtomExtend(t, u, pos);
    var a := ParseAtom(t, pos).value;
    LoopExtend(t, u, a.0, a.1, minPrec);
  }

  lemma {:induction false} LoopExtend(t: seq<Token>, u: seq<Token>, node: Expr, pos: nat, minPrec: nat)
    requires pos <= |t| && ParseLoop(t, node, pos, minPrec).Success?
    requires StopsAt(t + u, ParseLoop(t, node, pos, minPrec).value.1, minPrec)
    ensures ParseLoop(t + u, node, pos, minPrec) == ParseLoop(t, node, pos, minPrec)
    decreases |t| - pos, 2
  {
    if pos < |t| {
      assert (t + u)[pos] == t[pos];
      if t[pos].Operator? && Precedence(t[pos].op).value >= minPrec {
        LoopOperatorStep(t, node, pos, minPrec);
        var rhs := ParseExpression(t, pos + 1, Precedence(t[pos].op).value + 1).value;
        LoopExtendOperator(t, u, node, pos, minPrec, rhs.0, rhs.1);
      }
    }
  }

  /** The loop on an operator of t whose right operand `rhs` ends at q: the
      operand and the rest of the loop are unchanged by the appended tokens. */
  lemma {:induction false} LoopExtendOperator(t: seq<Token>, u: seq<Token>, node: Expr, pos: nat, minPrec: nat, rhs: Expr, q: nat)
    requires pos < |t| && t[pos].Operator?
    requires Precedence(t[pos].op).Some? && minPrec <= Precedence(t[pos].op).value
    requires ParseExpression(t, pos + 1, Precedence(t[pos].op).value + 1) == Success((rhs, q))
    requires ParseLoop(t, BinaryOp(node, t[pos].op, rhs), q, minPrec).Success?
    requires StopsAt(t + u, ParseLoop(t, BinaryOp(node, t[pos].op, rhs), q, minPrec).value.1, minPrec)
    ensures ParseLoop(t + u, node, pos, minPrec) == ParseLoop(t, BinaryOp(node, t[pos].op, rhs), q, minPrec)
    decreases |t| - pos, 1
  {
    var prec := Precedence(t[pos].op).value;
    var end := ParseLoop(t, BinaryOp(node, t[pos].op, rhs), q, minPrec).value.1;
    assert (t + u)[pos] == t[pos];
    if q < |t| {
      assert (t + u)[q] == t[q];
    } else {
      StopsAtMonotone(t + u, end, minPrec, prec + 1);
    }
    ExprExtend(t, u, pos + 1, prec + 1);
    LoopStep(t + u, node, pos, minPrec, rhs, q);
    LoopExtend(t, u, BinaryOp(node, t[pos].op, rhs), q, minPrec);
  }

  /** Past `q` there are only unary minuses: the atom runs out of tokens. */
  lemma {:induction false} AtomOverMinuses(toks: seq<Token>, q: nat)
    requires q <= |toks| && forall k :: q <= k < |toks| ==> toks[k] == UnaryMinus
    ensures ParseAtom(toks, q) == Failure(UnexpectedEnd)
    decreases |toks| - q
  {
    if q < |toks| {
      AtomOverMinuses(toks, q + 1);
    }
  }

  /** The list t followed by the operator o and the tokens u. */
  function Follow(t: seq<Token>, o: string, u: seq<Token>): (r: seq<Token>)
    ensures |r| == |t| + 1 + |u| && r[..|t|] == t && r[|t|] == Operator(o)
    ensures forall j :: 0 <= j < |u| ==> r[|t| + 1 + j] == u[j]
  {
    t + ([Operator(o)] + u)
  }

  /** An expression that used up t fails with e when an operator it accepts
      follows and the atom after that operator fails with e. */
  lemma {:induction false} ExprFollow(t: seq<Token>, o: string, u: seq<Token>, e: Error, pos: nat, minPrec: nat)
    requires Precedence(o).Some? && minPrec <= Precedence(o).value
    requires ParseAtom(Follow(t, o, u), |t| + 1) == Failure(e)
    requires ParseExpression(t, pos, minPrec).Success? && ParseExpression(t, pos, minPrec).value.1 == |t|
    ensures ParseExpression(Follow(t, o, u), pos, minPrec) == Failure(e)
    decreases |t| - pos, 1
  {
    AtomExtend(t, [Operator(o)] + u, pos);
    var a := ParseAtom(t, pos).value;
    LoopFollow(t, o, u, e, a.0, a.1, minPrec);
  }

  /** The loop standing on the operator o fails with its operand's error. */
  lemma LoopAtFollow(t: seq<Token>, o: string, u: seq<Token>, e: Error, node: Expr, minPrec: nat)
    requires Precedence(o).Some? && minPrec <= Precedence(o).value
    requires ParseAtom(Follow(t, o, u), |t| + 1) == Failure(e)
    ensures ParseLoop(Follow(t, o, u), node, |t|, minPrec) == Failure(e)
  {
    LoopOperatorStep(Follow(t, o, u), node, |t|, minPrec);
  }

  lemma {:induction false} LoopFollow(t: seq<Token>, o: string, u: seq<Token>, e: Error, node: Expr, pos: nat, minPrec: nat)
    requires Precedence(o).Some? && minPrec <= Precedence(o).value
    requires ParseAtom(Follow(t, o, u), |t| + 1) == Failure(e)
    requires pos <= |t| && ParseLoop(t, node, pos, minPrec).Success?
    requires ParseLoop(t, node, pos, minPrec).value.1 == |t|
    ensures ParseLoop(Follow(t, o, u), node, pos, minPrec) == Failure(e)
    decreases |t| - pos, 2
  {
    if pos == |t| {
      LoopAtFollow(t, o, u, e, node, minPrec);
    } else {
      LoopOperatorStep(t, node, pos, minPrec);
      var prec := Precedence(t[pos].op).value;
      var rhs := ParseExpression(t, pos + 1, prec + 1).value;
      LoopFollowOperator(t, o, u, e, node, pos, minPrec, rhs.0, rhs.1);
    }
  }

  /** The loop on an operator of t whose right operand `rhs` ends at q: the
      operand either stops inside t, reaches o and hands it to the loop, or
      takes o itself and fails on the atom after it. */
  lemma {:induction false} LoopFollowOperator(t: seq<Token>, o: string, u: seq<Token>, e: Error, node: Expr, pos: nat, minPrec: nat, rhs: Expr, q: nat)
    requires Precedence(o).Some? && minPrec <= Precedence(o).value
    requires ParseAtom(Follow(t, o, u), |t| + 1) == Failure(e)
    requires pos < |t| && t[pos].Operator?
    requires Precedence(t[pos].op).Some? && minPrec <= Precedence(t[pos].op).value
    requires ParseExpression(t, pos + 1, Precedence(t[pos].op).value + 1) == Success((rhs, q))
    requires ParseLoop(t, BinaryOp(node, t[pos].op, rhs), q, minPrec).Success?
    requires ParseLoop(t, BinaryOp(node, t[pos].op, rhs), q, minPrec).value.1 == |t|
    ensures ParseLoop(Follow(t, o, u), node, pos, minPrec) == Failure(e)
    decreases |t| - pos, 1
  {
    var tt := Follow(t, o, u);
    var prec := Precedence(t[pos].op).value;
    assert tt[pos] == t[..|t|][pos];
    if q < |t| || Precedence(o).value < prec + 1 {
      if q < |t| {
        assert tt[q] == t[..|t|][q];
      }
      ExprExtend(t, [Operator(o)] + u, pos + 1, prec + 1);
      LoopStep(tt, node, pos, minPrec, rhs, q);
      LoopFollow(t, o, u, e, BinaryOp(node, t[pos].op, rhs), q, minPrec);
    } else {
      ExprFollow(t, o, u, e, pos + 1, prec + 1);
      LoopFails(tt, node, pos, minPrec, e);
    }
  }

  /** A complete expression followed by a binary operator and any run of unary
      minuses ends too early. */
  lemma ParseTrailingOperator(t: seq<Token>, o: string, k: nat)
    requires Parse(t).Success? && IsBinaryOperator(o)
    ensures Parse(t + [Operator(o)] + Minuses(k)) == Failure(UnexpectedEnd)
  {
    var tt := Follow(t, o, Minuses(k));
    assert t + [Operator(o)] + Minuses(k) == tt;
    AtomOverMinuses(tt, |t| + 1);
    ExprFollow(t, o, Minuses(k), UnexpectedEnd, 0, 0);
  }

  /** A complete expression followed by a binary operator, any run of unary
      minuses and a second binary operator meets that operator where an atom
      belongs. */
  lemma ParseOperatorAfterOperator(t: seq<Token>, o: string, k: nat, o2: string, rest: seq<Token>)
    requires Parse(t).Success? && IsBinaryOperator(o)
    ensures Parse(t + [Operator(o)] + Minuses(k) + [Operator(o2)] + rest) == Failure(UnexpectedToken(OperatorKind))
  {
    var u := Minuses(k) + [Operator(o2)] + rest;
    FollowConcat(t, o, Minuses(k), [Operator(o2)], rest);
    MinusesThenOperator(k, o2, rest);
    OperatorAfterMinuses(t, o, u, k);
    ExprFollow(t, o, u, UnexpectedToken(OperatorKind), 0, 0);
  }

  /** Regrouping a concatenation behind o as a Follow. */
  lemma FollowConcat(t: seq<Token>, o: string, a: seq<Token>, b: seq<Token>, c: seq<Token>)
    ensures t + [Operator(o)] + a + b + c == Follow(t, o, a + b + c)
  {
  }

  /** Unary minuses, then an operator at index k. */
  lemma MinusesThenOperator(k: nat, o2: string, rest: seq<Token>)
    ensures var u := Minuses(k) + [Operator(o2)] + rest;
      k < |u| && u[k].Operator? && forall j :: 0 <= j < k ==> u[j] == UnaryMinus
  {
  }

  /** The atom after o meets a binary operator past k unary minuses. */
  lemma OperatorAfterMinuses(t: seq<Token>, o: string, u: seq<Token>, k: nat)
    requires k < |u| && u[k].Operator? && forall j :: 0 <= j < k ==> u[j] == UnaryMinus
    ensures ParseAtom(Follow(t, o, u), |t| + 1) == Failure(UnexpectedToken(OperatorKind))
  {
    AtomAtOperator(Follow(t, o, u), |t| + 1, k);
  }

  /** Empty input, or only unary minuses, ends too early. */
  lemma ParseOnlyMinuses(k: nat)
    ensures Parse(Minuses(k)) == Failure(UnexpectedEnd)
  {
    AtomOverMinuses(Minuses(k), 0);
  }

  lemma {:induction false} AtomAtOperator(toks: seq<Token>, q: nat, k: nat)
    requires q + k < |toks| && toks[q + k].Operator?
    requires forall j :: q <= j < q + k ==> toks[j] == UnaryMinus
    ensures ParseAtom(toks, q) == Failure(UnexpectedToken(OperatorKind))
    decreases k
  {
    if k > 0 {
      AtomAtOperator(toks, q + 1, k - 1);
    }
  }

  /** A binary operator where the first atom belongs is an unexpected token,
      after any run of unary minuses. */
  lemma ParseLeadingOperator(k: nat, o: string, rest: seq<Token>)
    ensures Parse(Minuses(k) + [Operator(o)] + rest) == Failure(UnexpectedToken(OperatorKind))
  {
    var toks := Minuses(k) + [Operator(o)] + rest;
    assert toks[k] == Operator(o);
    AtomAtOperator(toks, 0, k);
  }

  /** A complete expression followed by a number or a unary minus leaves tokens
      over. */
  lemma ParseLeftover(t: seq<Token>, u: seq<Token>)
    requires Parse(t).Success? && |u| > 0 && !u[0].Operator?
    ensures Parse(t + u) == Failure(InvalidExpression)
  {
    assert (t + u)[|t|] == u[0];
    ExprExtend(t, u, 0, 0);
  }
}
