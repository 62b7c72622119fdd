/** Worked inputs from the calculator's own test cases. */
module Examples {
  import opened Tokens
  import opened Results
  import opened Ast
  import opened Lexer
  import opened LexerProperties
  import opened Parser
  import opened Evaluator
  import opened Calculator
  import opened ParserProperties
  import opened Grammar

  /** A lone digit in front of anything but a digit or '.' is a one-character
      lexeme denoting its digit value. */
  lemma SingleDigit(s: string)
    requires |s| > 0 && IsDigit(s[0]) && (|s| == 1 || !IsNumberChar(s[1]))
    ensures ScanNumber(s, false) == Success(1) && s[..1] == [s[0]]
    ensures IsLexeme([s[0]]) && FloatOf([s[0]]) == Success(DigitValue(s[0]) as real)
  {
    assert RunLength(s) == 1 by {
      assert |s| > 1 ==> RunLength(s[1..]) == 0;
    }
    assert s[..RunLength(s)] == [s[0]];
    var w := [s[0]];
    assert w != "." && DotIndex(w) == 1 && w[..1] == w;
  }

  /** A digit, an operator character and a digit, with no blanks: "2+2",
      "1/0". A '-' after a number is binary. */
  lemma LexDigitOpDigit(a: char, o: char, b: char)
    requires IsDigit(a) && IsOpChar(o) && IsDigit(b)
    ensures Lex([a, o, b]) == Success([Num(DigitValue(a) as real), Operator([o]), Num(DigitValue(b) as real)])
  {
    var va := DigitValue(a) as real;
    var vb := DigitValue(b) as real;
    var s := [a, o, b];
    assert s[1..] == [o, b] && [o, b][1..] == [b] && [b][1..] == [];
    SingleDigit([b]);
    assert !NumberAhead([]);
    LexNumberStep([b], Some(OperatorKind), 1, vb);
    assert LexFrom([b][1..], Some(NumberKind)) == Success([]);
    assert [Num(vb)] + [] == [Num(vb)];
    assert LexFrom([b], Some(OperatorKind)) == Success([Num(vb)]);
    assert !NumberAhead([o, b]) by { assert SpaceRunLength([o, b]) == 0; }
    LexOperatorStep([o, b], Some(NumberKind));
    assert [o, b][0] == o && OperatorToken(o, Some(NumberKind)) == Operator([o]);
    assert [Operator([o])] + [Num(vb)] == [Operator([o]), Num(vb)];
    assert LexFrom([o, b], Some(NumberKind)) == Success([Operator([o]), Num(vb)]);
    SingleDigit(s);
    LexNumberStep(s, None, 1, va);
    assert [Num(va)] + [Operator([o]), Num(vb)] == [Num(va), Operator([o]), Num(vb)];
  }

  /** A list that ends on an operator, followed by a digit, gains one number. */
  lemma LexDigitAfterOperator(p: string, toks: seq<Token>, d: char)
    requires Lex(p) == Success(toks) && |toks| > 0 && toks[|toks| - 1].Operator?
    requires IsDigit(d)
    ensures Lex(p + [d]) == Success(toks + [Num(DigitValue(d) as real)])
  {
    var v := DigitValue(d) as real;
    SingleDigit([d]);
    assert [d][1..] == [];
    assert !NumberAhead([]);
    LexNumberStep([d], Some(OperatorKind), 1, v);
    assert LexFrom([], Some(NumberKind)) == Success([]);
    assert [Num(v)] + [] == [Num(v)];
    assert LexFrom([d], Some(OperatorKind)) == Success([Num(v)]);
    assert EndState(toks, None) == Some(OperatorKind);
    LexSplit(p, [d], None);
  }

  /** "1 / " and "1 + ": a number and a binary operator, each rendered with
      its blank. */
  lemma LexOneOperator(o: char)
    requires o == '/' || o == '+'
    ensures Lex(['1', ' ', o, ' ']) == Success([Num(1.0), Operator([o])])
  {
    var toks := [Num(1.0), Operator([o])];
    assert NatToString(1) == "1";
    assert toks[1..][1..] == [];
    assert Render(toks[1..]) == [o] + " " + "";
    assert Render(toks) == "1" + " " + Render(toks[1..]);
    assert Render(toks) == ['1', ' ', o, ' '];
    LexRender(toks);
  }

  /** "1 / 0": a quotient of two numbers with blanks between the tokens. */
  lemma LexOneSlashZero()
    ensures Lex("1 / 0") == Success([Num(1.0), Operator("/"), Num(0.0)])
  {
    var toks := [Num(1.0), Operator("/")];
    LexOneOperator('/');
    assert ['1', ' ', '/', ' '] == "1 / " && ['/'] == "/";
    LexDigitAfterOperator("1 / ", toks, '0');
    assert DigitValue('0') as real == 0.0;
    assert toks + [Num(0.0)] == [Num(1.0), Operator("/"), Num(0.0)];
    assert "1 / " + ['0'] == "1 / 0";
  }

  /** "1 / 0" fails with a division by zero. */
  lemma CalcOneOverZero()
    ensures Calc("1 / 0") == Failure(DivisionByZero)
  {
    LexOneSlashZero();
    ParseOneOverZero();
    EvalDivisionByZero(Number(1.0), Number(0.0));
  }

  /** The tokens of "1 / 0" parse as one quotient. */
  lemma ParseOneOverZero()
    ensures Parse([Num(1.0), Operator("/"), Num(0.0)]) == Success(BinaryOp(Number(1.0), "/", Number(0.0)))
  {
    var t := Term(Atom(0, 1.0), [Factor("/", Atom(0, 0.0))]);
    var s := Sum(t, []);
    assert SumTokens(s) == [Num(1.0), Operator("/"), Num(0.0)];
    assert SumTree(s) == BinaryOp(Number(1.0), "/", Number(0.0));
    ParseSum(s);
  }

  /** "2+2" is 4. */
  lemma CalcTwoPlusTwo()
    ensures Calc("2+2") == Success(4.0)
  {
    LexDigitOpDigit('2', '+', '2');
    assert ['2', '+', '2'] == "2+2" && ['+'] == "+";
    var s := Sum(Term(Atom(0, 2.0), []), [Summand("+", Term(Atom(0, 2.0), []))]);
    assert SumTokens(s) == [Num(2.0), Operator("+"), Num(2.0)];
    assert SumTree(s) == BinaryOp(Number(2.0), "+", Number(2.0));
    ParseSum(s);
    assert Apply("+", 2.0, 2.0) == Success(4.0);
  }

  /** "1+2*3": the product binds tighter. */
  lemma ParseProductFirst()
    ensures Parse([Num(1.0), Operator("+"), Num(2.0), Operator("*"), Num(3.0)])
         == Success(BinaryOp(Number(1.0), "+", BinaryOp(Number(2.0), "*", Number(3.0))))
  {
    var s := Sum(Term(Atom(0, 1.0), []), [Summand("+", Term(Atom(0, 2.0), [Factor("*", Atom(0, 3.0))]))]);
    assert SumTokens(s) == [Num(1.0), Operator("+"), Num(2.0), Operator("*"), Num(3.0)];
    ParseSum(s);
  }

  /** "-4+3*2/1" as a sum. */
  function MixedSum(): (r: Sum) {
    Sum(Term(Atom(1, 4.0), []),
        [Summand("+", Term(Atom(0, 3.0), [Factor("*", Atom(0, 2.0)), Factor("/", Atom(0, 1.0))]))])
  }

  lemma MixedSumTokens()
    ensures SumTokens(MixedSum())
         == [UnaryMinus, Num(4.0), Operator("+"), Num(3.0), Operator("*"), Num(2.0), Operator("/"), Num(1.0)]
  {
    var s := MixedSum();
    var t := s.summands[0].term;
    assert AtomTokens(Atom(1, 4.0)) == [UnaryMinus, Num(4.0)];
    assert TermTokens(t) == [Num(3.0), Operator("*"), Num(2.0), Operator("/"), Num(1.0)];
    assert SummandsTokens(s.summands) == [Operator("+")] + TermTokens(t);
  }

  lemma MixedSumTree()
    ensures ValidSum(MixedSum())
    ensures SumTree(MixedSum())
         == BinaryOp(UnaryOp("-", Number(4.0)), "+",
                     BinaryOp(BinaryOp(Number(3.0), "*", Number(2.0)), "/", Number(1.0)))
  {
    var s := MixedSum();
    var t := s.summands[0].term;
    assert TermTree(t) == BinaryOp(BinaryOp(Number(3.0), "*", Number(2.0)), "/", Number(1.0));
    assert TermTree(s.head) == UnaryOp("-", Number(4.0));
  }

  /** "-4+3*2/1": a unary minus on the first number, "*" and "/" folded to the
      left under the "+". */
  lemma ParseUnaryAndMixed()
    ensures Parse([UnaryMinus, Num(4.0), Operator("+"), Num(3.0), Operator("*"), Num(2.0), Operator("/"), Num(1.0)])
         == Success(BinaryOp(UnaryOp("-", Number(4.0)), "+",
                             BinaryOp(BinaryOp(Number(3.0), "*", Number(2.0)), "/", Number(1.0))))
  {
    MixedSumTokens();
    MixedSumTree();
    ParseSum(MixedSum());
  }

  /** "1-2-3": operators of one level associate to the left. */
  lemma ParseLeftAssociative()
    ensures Parse([Num(1.0), Operator("-"), Num(2.0), Operator("-"), Num(3.0)])
         == Success(BinaryOp(BinaryOp(Number(1.0), "-", Number(2.0)), "-", Number(3.0)))
  {
    var s := Sum(Term(Atom(0, 1.0), []), [Summand("-", Term(Atom(0, 2.0), [])), Summand("-", Term(Atom(0, 3.0), []))]);
    assert SumTokens(s) == [Num(1.0), Operator("-"), Num(2.0), Operator("-"), Num(3.0)];
    ParseSum(s);
  }

  /** "--8": two unary minuses nest. */
  lemma ParseDoubleMinus()
    ensures Parse([UnaryMinus, UnaryMinus, Num(8.0)]) == Success(UnaryOp("-", UnaryOp("-", Number(8.0))))
  {
    var s := Sum(Term(Atom(2, 8.0), []), []);
    assert SumTokens(s) == [UnaryMinus, UnaryMinus, Num(8.0)];
    ParseSum(s);
  }

  /** The empty text lexes to nothing, which does not parse. */
  lemma CalcEmpty()
    ensures Calc("") == Failure(UnexpectedEnd)
  {
    ParseOnlyMinuses(0);
  }

  /** "2 /": the tokens end after an operator. */
  lemma ParseCutShort()
    ensures Parse([Num(2.0), Operator("/")]) == Failure(UnexpectedEnd)
  {
    var t := [Num(2.0)];
    assert Parse(t).Success?;
    assert t + [Operator("/")] + Minuses(0) == [Num(2.0), Operator("/")];
    ParseTrailingOperator(t, "/", 0);
  }

  /** "1..5": a second dot in one number. */
  lemma LexTwoDots()
    ensures Lex("1..5") == Failure(InvalidNumberFormat)
  {
    var q := "1..5";
    assert RunLength(q) == 4;
    assert q[..4] == q;
    assert !AtMostOneDot(q) by { assert q[1] == '.' && q[2] == '.'; }
    assert "" + q == q;
    LexRejectsSecondDot("", q);
  }

  /** "1 1 + 2": two numbers with only a blank between them. */
  lemma LexSeparatedDigits()
    ensures Lex("1 1 + 2") == Failure(DigitsSeparatedBySpace)
  {
    assert IsLexeme("1");
    assert "" + "1" + " " + "1 + 2" == "1 1 + 2";
    LexRejectsSeparatedDigits("", "1", " ", "1 + 2");
  }

  /** "abc": letters are no tokens. */
  lemma LexLetters()
    ensures Lex("abc") == Failure(InvalidCharacter('a'))
  {
    assert "" + ['a'] + "bc" == "abc";
    LexRejectsInvalidCharacter("", 'a', "bc");
  }

  /** "2 @ 4": '@' is no token, even after a number and a blank. */
  lemma LexAtSign()
    ensures Lex("2 @ 4") == Failure(InvalidCharacter('@'))
  {
    var toks := [Num(2.0)];
    assert NatToString(2) == "2";
    assert Render(toks) == "2 ";
    LexRender(toks);
    assert "2 " + ['@'] + " 4" == "2 @ 4";
    LexRejectsInvalidCharacter("2 ", '@', " 4");
  }

  /** "1 + 4": a sum of two numbers with blanks between the tokens. */
  lemma LexOnePlusFour()
    ensures Lex("1 + 4") == Success([Num(1.0), Operator("+"), Num(4.0)])
  {
    var toks := [Num(1.0), Operator("+")];
    LexOneOperator('+');
    assert ['1', ' ', '+', ' '] == "1 + " && ['+'] == "+";
    LexDigitAfterOperator("1 + ", toks, '4');
    assert DigitValue('4') as real == 4.0;
    assert toks + [Num(4.0)] == [Num(1.0), Operator("+"), Num(4.0)];
    assert "1 + " + ['4'] == "1 + 4";
  }

  /** "1 + 4i": a letter straight after a number. */
  lemma LexLetterAfterNumber()
    ensures Lex("1 + 4i") == Failure(InvalidCharacter('i'))
  {
    LexOnePlusFour();
    assert "1 + 4" + ['i'] + "" == "1 + 4i";
    LexRejectsInvalidCharacter("1 + 4", 'i', "");
  }

  /** "3.14": the digits 314 over 10^2. */
  lemma FloatOfThreePointOneFour()
    ensures FloatOf("3.14") == Success(3.14)
  {
    var w := "3.14";
    assert Pow10(2) == 100;
    assert 314 as real / 100 as real == 3.14;
    assert w[1] == '.' && IsDigit(w[0]);
    assert IsLexeme(w) && HasDigit(w) && DotIndex(w) == 1;
    FloatOfDigits(w);
    assert w[..1] + w[2..] == "314";
    assert Undotted(w) == "314" && Decimals(w) == 2;
    assert "314"[..2] == "31" && "31"[..1] == "3" && "3"[..0] == "";
    assert DigitsValue("314") == 314;
  }

  /** ".5": the digit 5 over 10^1. */
  lemma FloatOfPointFive()
    ensures FloatOf(".5") == Success(0.5)
  {
    var w := ".5";
    assert Pow10(1) == 10;
    assert 5 as real / 10 as real == 0.5;
    assert w[0] == '.' && IsDigit(w[1]);
    assert IsLexeme(w) && HasDigit(w) && DotIndex(w) == 0;
    FloatOfDigits(w);
    assert w[..0] + w[1..] == "5";
    assert Undotted(w) == "5" && Decimals(w) == 1;
    assert DigitsValue("5") == 5;
  }

  /** "3.14" and ".5": the digits without the dot, over a power of ten. */
  lemma FloatOfDecimals()
    ensures FloatOf("3.14") == Success(3.14)
    ensures FloatOf(".5") == Success(0.5)
  {
    FloatOfThreePointOneFour();
    FloatOfPointFive();
  }


  /** A tree with the operator "^", which only later stages know. */
  lemma EvalCaret()
    ensures Eval(BinaryOp(Number(1.0), "^", Number(2.0))) == Failure(UnknownOperator("^"))
  {
    EvalUnknownOperator(Number(1.0), "^", Number(2.0));
  }
}
