/** The value of a sum in the reference grammar, computed over its syntax as
    ordinary left-to-right arithmetic, and the evaluator's agreement with it. */
module GrammarValues {
  import opened Tokens
  import opened Results
  import opened Ast
  import opened Evaluator
  import opened Grammar

  /** An even number of minuses keeps the sign, an odd number flips it. */
  function AtomValue(a: Atom): (r: real) {
    if a.minuses % 2 == 0 then a.value else -a.value
  }

  /** Applies the factors to `acc` from left to right, each operator to the
      running value and the factor's signed literal; the first division by
      zero is the error. */
  function FactorsValue(acc: real, fs: seq<Factor>): (r: Result<real>)
    decreases |fs|
  {
    if |fs| == 0 then Success(acc)
    else
      var next :- Apply(fs[0].op, acc, AtomValue(fs[0].atom));
      FactorsValue(next, fs[1..])
  }

  function TermValue(t: Term): (r: Result<real>) {
    FactorsValue(AtomValue(t.head), t.factors)
  }

  /** Applies the summands to `acc` from left to right, each operator to the
      running value and the value of the summand's term; the first term that
      fails decides the error. */
  function SummandsValue(acc: real, ss: seq<Summand>): (r: Result<real>)
    decreases |ss|
  {
    if |ss| == 0 then Success(acc)
    else
      var v :- TermValue(ss[0].term);
      var next :- Apply(ss[0].op, acc, v);
      SummandsValue(next, ss[1..])
  }

  function SumValue(s: Sum): (r: Result<real>) {
    var h :- TermValue(s.head);
    SummandsValue(h, s.summands)
  }

  /** An atom's tree evaluates to its signed literal. */
  lemma {:induction false} EvalAtom(a: Atom)
    ensures Eval(AtomTree(a)) == Success(AtomValue(a))
  {
    EvalNegate(a.minuses, Number(a.value));
  }

  /** Folding factors onto a node that evaluates continues the arithmetic. */
  lemma {:induction false} EvalFoldFactors(node: Expr, acc: real, fs: seq<Factor>)
    requires Eval(node) == Success(acc)
    ensures Eval(FoldFactors(node, fs)) == FactorsValue(acc, fs)
    decreases |fs|
  {
    if |fs| > 0 {
      var f := fs[0];
      var next := BinaryOp(node, f.op, AtomTree(f.atom));
      EvalAtom(f.atom);
      assert Eval(next) == Apply(f.op, acc, AtomValue(f.atom));
      if Eval(next).Failure? {
        FoldFactorsFailure(next, fs[1..]);
      } else {
        EvalFoldFactors(next, Eval(next).value, fs[1..]);
      }
    }
  }

  /** A failing node makes the whole fold fail the same way. */
  lemma {:induction false} FoldFactorsFailure(node: Expr, fs: seq<Factor>)
    requires Eval(node).Failure?
    ensures Eval(FoldFactors(node, fs)) == Eval(node)
    decreases |fs|
  {
    if |fs| > 0 {
      FoldFactorsFailure(BinaryOp(node, fs[0].op, AtomTree(fs[0].atom)), fs[1..]);
    }
  }

  /** A term's tree evaluates to the term's value. */
  lemma {:induction false} EvalTerm(t: Term)
    ensures Eval(TermTree(t)) == TermValue(t)
  {
    EvalAtom(t.head);
    EvalFoldFactors(AtomTree(t.head), AtomValue(t.head), t.factors);
  }

  /** A failing node makes the whole fold fail the same way. */
  lemma {:induction false} FoldSummandsFailure(node: Expr, ss: seq<Summand>)
    requires Eval(node).Failure?
    ensures Eval(FoldSummands(node, ss)) == Eval(node)
    decreases |ss|
  {
    if |ss| > 0 {
      FoldSummandsFailure(BinaryOp(node, ss[0].op, TermTree(ss[0].term)), ss[1..]);
    }
  }

  /** Folding summands onto a node that evaluates continues the arithmetic. */
  lemma {:induction false} EvalFoldSummands(node: Expr, acc: real, ss: seq<Summand>)
    requires Eval(node) == Success(acc)
    ensures Eval(FoldSummands(node, ss)) == SummandsValue(acc, ss)
    decreases |ss|
  {
    if |ss| > 0 {
      var sm := ss[0];
      EvalTerm(sm.term);
      var next := BinaryOp(node, sm.op, TermTree(sm.term));
      if TermValue(sm.term).Failure? {
        assert Eval(next) == TermValue(sm.term);
        FoldSummandsFailure(next, ss[1..]);
      } else {
        assert Eval(next) == Apply(sm.op, acc, TermValue(sm.term).value);
        if Eval(next).Failure? {
          FoldSummandsFailure(next, ss[1..]);
        } else {
          EvalFoldSummands(next, Eval(next).value, ss[1..]);
        }
      }
    }
  }

  /** The evaluator computes a sum's value from its conventional tree. */
  lemma {:induction false} EvalSum(s: Sum)
    ensures Eval(SumTree(s)) == SumValue(s)
  {
    EvalTerm(s.head);
    if TermValue(s.head).Failure? {
      FoldSummandsFailure(TermTree(s.head), s.summands);
    } else {
      EvalFoldSummands(TermTree(s.head), TermValue(s.head).value, s.summands);
    }
  }
}
