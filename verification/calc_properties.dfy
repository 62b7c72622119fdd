/** The whole pipeline on the reference grammar: a sum printed with blanks
    between its tokens comes back from `calc` as the sum's value. */
module CalcProperties {
  import opened Tokens
  import opened Results
  import opened Lexer
  import opened LexerProperties
  import opened Evaluator
  import opened Grammar
  import opened GrammarValues
  import opened Calculator

  /** Every token has a text the round trip can print. */
  predicate AllPrintable(toks: seq<Token>) {
    forall i :: 0 <= i < |toks| ==> Printable(toks[i])
  }

  lemma AllPrintableConcat(u: seq<Token>, v: seq<Token>)
    requires AllPrintable(u) && AllPrintable(v)
    ensures AllPrintable(u + v)
  {
    forall i | 0 <= i < |u + v| ensures Printable((u + v)[i]) {
      if i >= |u| {
        assert (u + v)[i] == v[i - |u|];
      }
    }
  }

  /** The literal is a whole number, as the round trip prints it. */
  predicate WholeAtom(a: Atom) {
    Printable(Num(a.value))
  }

  predicate WholeTerm(t: Term) {
    WholeAtom(t.head) && forall i :: 0 <= i < |t.factors| ==> WholeAtom(t.factors[i].atom)
  }

  predicate WholeSum(s: Sum) {
    WholeTerm(s.head) && forall i :: 0 <= i < |s.summands| ==> WholeTerm(s.summands[i].term)
  }

  /** An atom's tokens lex in any state that reads '-' as unary. */
  lemma {:induction false} AtomLexed(a: Atom, rest: seq<Token>, last: Option<Kind>)
    requires MinusIsUnary(last) && WholeAtom(a)
    requires WellLexed(rest, Some(NumberKind)) && AllPrintable(rest)
    ensures WellLexed(AtomTokens(a) + rest, last) && AllPrintable(AtomTokens(a) + rest)
    decreases a.minuses
  {
    var toks := AtomTokens(a) + rest;
    if a.minuses == 0 {
      assert toks == [Num(a.value)] + rest;
      assert toks[1..] == rest;
      AllPrintableConcat([Num(a.value)], rest);
    } else {
      var b := Atom(a.minuses - 1, a.value);
      assert toks == [UnaryMinus] + (AtomTokens(b) + rest);
      assert toks[1..] == AtomTokens(b) + rest;
      AtomLexed(b, rest, Some(OperatorKind));
      AllPrintableConcat([UnaryMinus], AtomTokens(b) + rest);
    }
  }

  /** A binary operator in front of tokens that lex after an operator lexes
      after a number. */
  lemma OperatorLexed(op: string, rest: seq<Token>)
    requires IsBinaryOperator(op) && WellLexed(rest, Some(OperatorKind)) && AllPrintable(rest)
    ensures WellLexed([Operator(op)] + rest, Some(NumberKind)) && AllPrintable([Operator(op)] + rest)
  {
    assert ([Operator(op)] + rest)[1..] == rest;
    AllPrintableConcat([Operator(op)], rest);
  }

  lemma {:induction false} FactorsLexed(fs: seq<Factor>, rest: seq<Token>)
    requires ValidFactors(fs) && forall i :: 0 <= i < |fs| ==> WholeAtom(fs[i].atom)
    requires WellLexed(rest, Some(NumberKind)) && AllPrintable(rest)
    ensures WellLexed(FactorsTokens(fs) + rest, Some(NumberKind)) && AllPrintable(FactorsTokens(fs) + rest)
    decreases |fs|
  {
    if |fs| > 0 {
      var f := fs[0];
      var tail := FactorsTokens(fs[1..]) + rest;
      assert FactorsTokens(fs) + rest == [Operator(f.op)] + (AtomTokens(f.atom) + tail);
      assert IsMulOp(f.op) && WholeAtom(f.atom);
      FactorsLexed(fs[1..], rest);
      AtomLexed(f.atom, tail, Some(OperatorKind));
      OperatorLexed(f.op, AtomTokens(f.atom) + tail);
    } else {
      assert FactorsTokens(fs) + rest == rest;
    }
  }

  lemma {:induction false} TermLexed(t: Term, rest: seq<Token>, last: Option<Kind>)
    requires MinusIsUnary(last) && ValidFactors(t.factors) && WholeTerm(t)
    requires WellLexed(rest, Some(NumberKind)) && AllPrintable(rest)
    ensures WellLexed(TermTokens(t) + rest, last) && AllPrintable(TermTokens(t) + rest)
  {
    assert TermTokens(t) + rest == AtomTokens(t.head) + (FactorsTokens(t.factors) + rest);
    FactorsLexed(t.factors, rest);
    AtomLexed(t.head, FactorsTokens(t.factors) + rest, last);
  }

  lemma {:induction false} SummandsLexed(ss: seq<Summand>)
    requires ValidSummands(ss) && forall i :: 0 <= i < |ss| ==> WholeTerm(ss[i].term)
    ensures WellLexed(SummandsTokens(ss), Some(NumberKind)) && AllPrintable(SummandsTokens(ss))
    decreases |ss|
  {
    if |ss| > 0 {
      var sm := ss[0];
      var tail := SummandsTokens(ss[1..]);
      assert SummandsTokens(ss) == [Operator(sm.op)] + (TermTokens(sm.term) + tail);
      assert IsAddOp(sm.op) && ValidFactors(sm.term.factors) && WholeTerm(sm.term);
      SummandsLexed(ss[1..]);
      TermLexed(sm.term, tail, Some(OperatorKind));
      OperatorLexed(sm.op, TermTokens(sm.term) + tail);
    }
  }

  /** A valid sum of whole literals flattens to tokens the lexer can emit. */
  lemma {:induction false} SumLexed(s: Sum)
    requires ValidSum(s) && WholeSum(s)
    ensures WellLexed(SumTokens(s), None) && AllPrintable(SumTokens(s))
  {
    SummandsLexed(s.summands);
    TermLexed(s.head, SummandsTokens(s.summands), None);
  }

  /** Printed with a blank after every token, a valid sum of whole literals is
      read back, parsed with the usual precedence and associativity, and
      evaluated to its value, division by zero included. */
  lemma {:induction false} CalcSum(s: Sum)
    requires ValidSum(s) && WholeSum(s)
    ensures AllPrintable(SumTokens(s))
    ensures Calc(Render(SumTokens(s))) == SumValue(s)
  {
    SumLexed(s);
    LexRender(SumTokens(s));
    ParseSum(s);
    EvalSum(s);
  }
}
