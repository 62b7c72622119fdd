/** A reference grammar for the expressions the parser accepts, written as
    plain syntax rather than as a recursive-descent procedure:

      sum     = term { ("+" | "-") term }
      term    = atom { ("*" | "/") atom }
      atom    = { unary "-" } number

    Each syntax value has a token list (its flattening) and the tree the
    conventional reading gives it: "*" and "/" bind tighter than "+" and "-",
    and operators of one level associate to the left. */
module Grammar {
  import opened Tokens
  import opened Results
  import opened Ast
  import opened Parser
  import opened ParserProperties

  /** k unary minuses in front of a number. */
  datatype Atom = Atom(minuses: nat, value: real)

  /** A "*" or "/" and the atom to its right. */
  datatype Factor = Factor(op: string, atom: Atom)

  datatype Term = Term(head: Atom, factors: seq<Factor>)

  /** A "+" or "-" and the term to its right. */
  datatype Summand = Summand(op: string, term: Term)

  datatype Sum = Sum(head: Term, summands: seq<Summand>)

  predicate IsMulOp(op: string) {
    op == "*" || op == "/"
  }

  predicate IsAddOp(op: string) {
    op == "+" || op == "-"
  }

  predicate ValidFactors(fs: seq<Factor>) {
    forall i :: 0 <= i < |fs| ==> IsMulOp(fs[i].op)
  }

  predicate ValidSummands(ss: seq<Summand>) {
    forall i :: 0 <= i < |ss| ==> IsAddOp(ss[i].op) && ValidFactors(ss[i].term.factors)
  }

  predicate ValidSum(s: Sum) {
    ValidFactors(s.head.factors) && ValidSummands(s.summands)
  }

  // ---------------------------------------------------------------------------
  // Flattening to tokens

  function AtomTokens(a: Atom): (r: seq<Token>) {
    Minuses(a.minuses) + [Num(a.value)]
  }

  function FactorsTokens(fs: seq<Factor>): (r: seq<Token>) {
    if |fs| == 0 then [] else [Operator(fs[0].op)] + AtomTokens(fs[0].atom) + FactorsTokens(fs[1..])
  }

  function TermTokens(t: Term): (r: seq<Token>) {
    AtomTokens(t.head) + FactorsTokens(t.factors)
  }

  function SummandsTokens(ss: seq<Summand>): (r: seq<Token>) {
    if |ss| == 0 then [] else [Operator(ss[0].op)] + TermTokens(ss[0].term) + SummandsTokens(ss[1..])
  }

  function SumTokens(s: Sum): (r: seq<Token>) {
    TermTokens(s.head) + SummandsTokens(s.summands)
  }

  // ---------------------------------------------------------------------------
  // The conventional tree

  function AtomTree(a: Atom): (r: Expr) {
    Negate(a.minuses, Number(a.value))
  }

  function FoldFactors(node: Expr, fs: seq<Factor>): (r: Expr)
    decreases |fs|
  {
    if |fs| == 0 then node else FoldFactors(BinaryOp(node, fs[0].op, AtomTree(fs[0].atom)), fs[1..])
  }

  function TermTree(t: Term): (r: Expr) {
    FoldFactors(AtomTree(t.head), t.factors)
  }

  function FoldSummands(node: Expr, ss: seq<Summand>): (r: Expr)
    decreases |ss|
  {
    if |ss| == 0 then node else FoldSummands(BinaryOp(node, ss[0].op, TermTree(ss[0].term)), ss[1..])
  }

  function SumTree(s: Sum): (r: Expr) {
    FoldSummands(TermTree(s.head), s.summands)
  }

  // ---------------------------------------------------------------------------
  // The parser builds the conventional tree

  /** The tokens from `pos` on start with `w`. */
  predicate IsAt(toks: seq<Token>, pos: nat, w: seq<Token>)
    decreases |w|
  {
    pos + |w| <= |toks| && (|w| == 0 || (toks[pos] == w[0] && IsAt(toks, pos + 1, w[1..])))
  }

  lemma {:induction false} IsAtSplit(toks: seq<Token>, pos: nat, u: seq<Token>, v: seq<Token>)
    requires IsAt(toks, pos, u + v)
    ensures IsAt(toks, pos, u) && IsAt(toks, pos + |u|, v)
    decreases |u|
  {
    if |u| == 0 {
      assert u + v == v;
    } else {
      assert (u + v)[0] == u[0] && (u + v)[1..] == u[1..] + v;
      IsAtSplit(toks, pos + 1, u[1..], v);
    }
  }

  lemma IsAtHead(toks: seq<Token>, pos: nat, w: seq<Token>)
    requires IsAt(toks, pos, w) && |w| > 0
    ensures toks[pos] == w[0]
  {
  }

  /** The tokens from `pos` on start with themselves. */
  lemma {:induction false} IsAtRest(toks: seq<Token>, pos: nat)
    requires pos <= |toks|
    ensures IsAt(toks, pos, toks[pos..])
    decreases |toks| - pos
  {
    if pos < |toks| {
      IsAtRest(toks, pos + 1);
      assert toks[pos..][1..] == toks[pos + 1..];
    }
  }

  /** The tokens at `pos` are `t`, then `u`, then `v`. */
  lemma {:induction false} IsAtCons(toks: seq<Token>, pos: nat, t: Token, u: seq<Token>, v: seq<Token>)
    requires IsAt(toks, pos, [t] + (u + v))
    ensures toks[pos] == t && IsAt(toks, pos + 1, u) && IsAt(toks, pos + 1 + |u|, v)
    ensures |v| > 0 ==> toks[pos + 1 + |u|] == v[0]
  {
    IsAtSplit(toks, pos, [t], u + v);
    IsAtHead(toks, pos, [t] + (u + v));
    IsAtSplit(toks, pos + 1, u, v);
    if |v| > 0 {
      IsAtHead(toks, pos + 1 + |u|, v);
    }
  }

  /** The operator loop leaving. */
  lemma LoopStop(toks: seq<Token>, node: Expr, pos: nat, minPrec: nat)
    requires StopsAt(toks, pos, minPrec)
    ensures ParseLoop(toks, node, pos, minPrec) == Success((node, pos))
  {
  }

  /** An expression is its first atom continued by the operator loop. */
  lemma ExprStep(toks: seq<Token>, pos: nat, minPrec: nat, atom: Expr, q: nat)
    requires ParseAtom(toks, pos) == Success((atom, q))
    ensures ParseExpression(toks, pos, minPrec) == ParseLoop(toks, atom, q, minPrec)
  {
  }

  /** The token at q is no operator missing from the precedence table. */
  predicate KnownAt(toks: seq<Token>, q: nat) {
    q >= |toks| || !toks[q].Operator? || IsBinaryOperator(toks[q].op)
  }

  /** k unary minuses wrap the number in exactly k unary nodes. */
  lemma {:induction false} AtomShape(toks: seq<Token>, pos: nat, a: Atom)
    requires IsAt(toks, pos, AtomTokens(a))
    ensures ParseAtom(toks, pos) == Success((AtomTree(a), pos + |AtomTokens(a)|))
    decreases a.minuses
  {
    IsAtHead(toks, pos, AtomTokens(a));
    if a.minuses > 0 {
      var b := Atom(a.minuses - 1, a.value);
      assert AtomTokens(a) == [UnaryMinus] + AtomTokens(b);
      IsAtSplit(toks, pos, [UnaryMinus], AtomTokens(b));
      AtomShape(toks, pos + 1, b);
    }
  }

  /** Above every precedence, an expression is a single atom. */
  lemma {:induction false} TightAtom(toks: seq<Token>, pos: nat, a: Atom)
    requires IsAt(toks, pos, AtomTokens(a)) && KnownAt(toks, pos + |AtomTokens(a)|)
    ensures ParseExpression(toks, pos, 3) == Success((AtomTree(a), pos + |AtomTokens(a)|))
  {
    AtomShape(toks, pos, a);
    ExprStep(toks, pos, 3, AtomTree(a), pos + |AtomTokens(a)|);
    LoopStop(toks, AtomTree(a), pos + |AtomTokens(a)|, 3);
  }

  /** Where the first factor's tokens sit. */
  lemma {:induction false} FactorsAt(toks: seq<Token>, pos: nat, fs: seq<Factor>)
    requires |fs| > 0 && ValidFactors(fs)
    requires IsAt(toks, pos, FactorsTokens(fs)) && KnownAt(toks, pos + |FactorsTokens(fs)|)
    ensures toks[pos] == Operator(fs[0].op)
    ensures IsAt(toks, pos + 1, AtomTokens(fs[0].atom))
    ensures IsAt(toks, pos + 1 + |AtomTokens(fs[0].atom)|, FactorsTokens(fs[1..]))
    ensures KnownAt(toks, pos + 1 + |AtomTokens(fs[0].atom)|)
    ensures pos + 1 + |AtomTokens(fs[0].atom)| + |FactorsTokens(fs[1..])| == pos + |FactorsTokens(fs)|
  {
    var f := fs[0];
    var rest := FactorsTokens(fs[1..]);
    assert FactorsTokens(fs) == [Operator(f.op)] + (AtomTokens(f.atom) + rest);
    IsAtCons(toks, pos, Operator(f.op), AtomTokens(f.atom), rest);
    if |fs| > 1 {
      assert rest[0] == Operator(fs[1].op);
      assert IsMulOp(fs[1].op);
    }
  }

  /** A run of factors sits at `pos` and is followed by no unknown operator. */
  predicate FactorsFit(toks: seq<Token>, pos: nat, fs: seq<Factor>) {
    ValidFactors(fs) && IsAt(toks, pos, FactorsTokens(fs)) && KnownAt(toks, pos + |FactorsTokens(fs)|)
  }

  /** One turn of the loop over a factor. */
  lemma FactorStep(toks: seq<Token>, node: Expr, pos: nat, minPrec: nat, fs: seq<Factor>)
    requires minPrec <= 2 && |fs| > 0 && FactorsFit(toks, pos, fs)
    ensures var q := pos + 1 + |AtomTokens(fs[0].atom)|;
      && FactorsFit(toks, q, fs[1..])
      && q + |FactorsTokens(fs[1..])| == pos + |FactorsTokens(fs)|
      && ParseLoop(toks, node, pos, minPrec) == ParseLoop(toks, BinaryOp(node, fs[0].op, AtomTree(fs[0].atom)), q, minPrec)
  {
    var f := fs[0];
    FactorsAt(toks, pos, fs);
    var q := pos + 1 + |AtomTokens(f.atom)|;
    TightAtom(toks, pos + 1, f.atom);
    LoopStep(toks, node, pos, minPrec, AtomTree(f.atom), q);
  }

  /** The loop folds a run of "*" and "/" factors to the left; `folded` and
      `end` name the folded tree and the position after the run. */
  lemma {:induction false} FactorsLoop(toks: seq<Token>, node: Expr, pos: nat, minPrec: nat, fs: seq<Factor>, folded: Expr, end: nat)
    requires minPrec <= 2 && FactorsFit(toks, pos, fs)
    requires folded == FoldFactors(node, fs) && end == pos + |FactorsTokens(fs)|
    ensures ParseLoop(toks, node, pos, minPrec) == ParseLoop(toks, folded, end, minPrec)
    decreases |fs|
  {
    if |fs| > 0 {
      FactorStep(toks, node, pos, minPrec, fs);
      var next := BinaryOp(node, fs[0].op, AtomTree(fs[0].atom));
      assert FoldFactors(next, fs[1..]) == folded;
      FactorsLoop(toks, next, pos + 1 + |AtomTokens(fs[0].atom)|, minPrec, fs[1..], folded, end);
    }
  }

  /** A term followed by no unknown operator parses as its tree, handed on to
      the operator loop at any precedence up to that of "*" and "/". */
  lemma {:induction false} TermPrefix(toks: seq<Token>, pos: nat, t: Term, minPrec: nat)
    requires minPrec <= 2 && ValidFactors(t.factors)
    requires IsAt(toks, pos, TermTokens(t)) && KnownAt(toks, pos + |TermTokens(t)|)
    ensures ParseExpression(toks, pos, minPrec)
         == ParseLoop(toks, TermTree(t), pos + |TermTokens(t)|, minPrec)
  {
    IsAtSplit(toks, pos, AtomTokens(t.head), FactorsTokens(t.factors));
    var q := pos + |AtomTokens(t.head)|;
    AtomShape(toks, pos, t.head);
    ExprStep(toks, pos, minPrec, AtomTree(t.head), q);
    FactorsLoop(toks, AtomTree(t.head), q, minPrec, t.factors, TermTree(t), pos + |TermTokens(t)|);
  }

  /** A term parsed at the precedence of "*" and "/" is exactly its tree. */
  lemma {:induction false} TermShape(toks: seq<Token>, pos: nat, t: Term)
    requires ValidFactors(t.factors)
    requires IsAt(toks, pos, TermTokens(t)) && StopsAt(toks, pos + |TermTokens(t)|, 2)
    ensures ParseExpression(toks, pos, 2) == Success((TermTree(t), pos + |TermTokens(t)|))
  {
    TermPrefix(toks, pos, t, 2);
    LoopStop(toks, TermTree(t), pos + |TermTokens(t)|, 2);
  }

  /** Where the first summand's tokens sit. */
  lemma {:induction false} SummandsAt(toks: seq<Token>, pos: nat, ss: seq<Summand>)
    requires |ss| > 0 && ValidSummands(ss)
    requires IsAt(toks, pos, SummandsTokens(ss)) && StopsAt(toks, pos + |SummandsTokens(ss)|, 2)
    ensures toks[pos] == Operator(ss[0].op)
    ensures IsAt(toks, pos + 1, TermTokens(ss[0].term))
    ensures IsAt(toks, pos + 1 + |TermTokens(ss[0].term)|, SummandsTokens(ss[1..]))
    ensures StopsAt(toks, pos + 1 + |TermTokens(ss[0].term)|, 2)
    ensures pos + 1 + |TermTokens(ss[0].term)| + |SummandsTokens(ss[1..])| == pos + |SummandsTokens(ss)|
    ensures Precedence(ss[0].op) == Some(1) && ValidFactors(ss[0].term.factors)
    ensures ValidSummands(ss[1..])
  {
    var sm := ss[0];
    var rest := SummandsTokens(ss[1..]);
    assert SummandsTokens(ss) == [Operator(sm.op)] + (TermTokens(sm.term) + rest);
    IsAtCons(toks, pos, Operator(sm.op), TermTokens(sm.term), rest);
    assert IsAddOp(sm.op) && ValidFactors(sm.term.factors);
    if |ss| > 1 {
      assert rest[0] == Operator(ss[1].op);
      assert IsAddOp(ss[1].op);
    }
    assert ValidSummands(ss[1..]) by {
      forall i | 0 <= i < |ss[1..]|
        ensures IsAddOp(ss[1..][i].op) && ValidFactors(ss[1..][i].term.factors)
      {
        assert ss[1..][i] == ss[i + 1];
      }
    }
  }

  /** A run of summands sits at `pos` and the loop at the precedence of "*"
      and "/" stops after it. */
  predicate SummandsFit(toks: seq<Token>, pos: nat, ss: seq<Summand>) {
    ValidSummands(ss) && IsAt(toks, pos, SummandsTokens(ss)) && StopsAt(toks, pos + |SummandsTokens(ss)|, 2)
  }

  /** One turn of the loop over a summand. */
  lemma SummandStep(toks: seq<Token>, node: Expr, pos: nat, minPrec: nat, ss: seq<Summand>)
    requires minPrec <= 1 && |ss| > 0 && SummandsFit(toks, pos, ss)
    ensures SummandsFit(toks, pos + 1 + |TermTokens(ss[0].term)|, ss[1..])
    ensures pos + 1 + |TermTokens(ss[0].term)| + |SummandsTokens(ss[1..])| == pos + |SummandsTokens(ss)|
    ensures ParseLoop(toks, node, pos, minPrec)
         == ParseLoop(toks, BinaryOp(node, ss[0].op, TermTree(ss[0].term)), pos + 1 + |TermTokens(ss[0].term)|, minPrec)
  {
    SummandsAt(toks, pos, ss);
    SummandTurn(toks, node, pos, minPrec, ss[0].op, ss[0].term);
  }

  /** The loop on an operator of precedence 1 takes the following term. */
  lemma SummandTurn(toks: seq<Token>, node: Expr, pos: nat, minPrec: nat, op: string, t: Term)
    requires minPrec <= 1 && pos < |toks| && toks[pos] == Operator(op) && Precedence(op) == Some(1)
    requires ValidFactors(t.factors) && IsAt(toks, pos + 1, TermTokens(t))
    requires StopsAt(toks, pos + 1 + |TermTokens(t)|, 2)
    ensures ParseLoop(toks, node, pos, minPrec)
         == ParseLoop(toks, BinaryOp(node, op, TermTree(t)), pos + 1 + |TermTokens(t)|, minPrec)
  {
    TermShape(toks, pos + 1, t);
    LoopStepAt(toks, node, pos, minPrec, op, 1, TermTree(t), pos + 1 + |TermTokens(t)|);
  }

  /** The loop folds a run of "+" and "-" summands to the left; `folded` and
      `end` name the folded tree and the position after the run. */
  lemma {:induction false} SummandsLoop(toks: seq<Token>, node: Expr, pos: nat, minPrec: nat, ss: seq<Summand>, folded: Expr, end: nat)
    requires minPrec <= 1 && SummandsFit(toks, pos, ss)
    requires folded == FoldSummands(node, ss) && end == pos + |SummandsTokens(ss)|
    ensures ParseLoop(toks, node, pos, minPrec) == ParseLoop(toks, folded, end, minPrec)
    decreases |ss|
  {
    if |ss| > 0 {
      SummandStep(toks, node, pos, minPrec, ss);
      var next := BinaryOp(node, ss[0].op, TermTree(ss[0].term));
      assert FoldSummands(next, ss[1..]) == folded;
      SummandsLoop(toks, next, pos + 1 + |TermTokens(ss[0].term)|, minPrec, ss[1..], folded, end);
    }
  }

  /** Where the head term and the summands sit. */
  lemma {:induction false} SumAt(s: Sum)
    requires ValidSum(s)
    ensures IsAt(SumTokens(s), 0, TermTokens(s.head))
    ensures IsAt(SumTokens(s), |TermTokens(s.head)|, SummandsTokens(s.summands))
    ensures KnownAt(SumTokens(s), |TermTokens(s.head)|)
    ensures |TermTokens(s.head)| + |SummandsTokens(s.summands)| == |SumTokens(s)|
  {
    var toks := SumTokens(s);
    var ss := SummandsTokens(s.summands);
    IsAtRest(toks, 0);
    assert toks[0..] == TermTokens(s.head) + ss;
    IsAtSplit(toks, 0, TermTokens(s.head), ss);
    if |s.summands| > 0 {
      IsAtHead(toks, |TermTokens(s.head)|, ss);
      assert ss[0] == Operator(s.summands[0].op);
      assert IsAddOp(s.summands[0].op);
    }
  }

  /** A head term followed by summands that fill the token list parses as
      their left fold. */
  lemma SumChain(toks: seq<Token>, head: Term, ss: seq<Summand>, p: nat, tree: Expr)
    requires ValidFactors(head.factors) && ValidSummands(ss)
    requires IsAt(toks, 0, TermTokens(head)) && p == |TermTokens(head)| && KnownAt(toks, p)
    requires IsAt(toks, p, SummandsTokens(ss)) && p + |SummandsTokens(ss)| == |toks|
    requires tree == FoldSummands(TermTree(head), ss)
    ensures ParseExpression(toks, 0, 0) == Success((tree, |toks|))
  {
    TermPrefix(toks, 0, head, 0);
    SummandsLoop(toks, TermTree(head), p, 0, ss, tree, |toks|);
    LoopStop(toks, tree, |toks|, 0);
  }

  /** The parser reads every flattened sum as its conventional tree. */
  lemma ParseSum(s: Sum)
    requires ValidSum(s)
    ensures Parse(SumTokens(s)) == Success(SumTree(s))
  {
    SumAt(s);
    SumChain(SumTokens(s), s.head, s.summands, |TermTokens(s.head)|, SumTree(s));
  }
}
