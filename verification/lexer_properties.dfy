/** What the lexer promises: tokens follow source order and whitespace yields
    none, the error cases, the unary-minus rule, and a round trip through a
    renderer that prints tokens back as text. */
module LexerProperties {
  import opened Tokens
  import opened Results
  import opened Lexer

  // ---------------------------------------------------------------------------
  // Runs of characters and text at token boundaries

  lemma {:induction false} RunLengthAppend(p: string, q: string)
    requires RunLength(p) < |p|
    ensures RunLength(p + q) == RunLength(p)
    decreases |p|
  {
    if IsNumberChar(p[0]) {
      assert (p + q)[1..] == p[1..] + q;
      RunLengthAppend(p[1..], q);
    }
  }

  lemma {:induction false} SpaceRunLengthAppend(p: string, q: string)
    requires SpaceRunLength(p) < |p|
    ensures SpaceRunLength(p + q) == SpaceRunLength(p)
    decreases |p|
  {
    if IsSpace(p[0]) {
      assert (p + q)[1..] == p[1..] + q;
      SpaceRunLengthAppend(p[1..], q);
    }
  }

  /** Blanks followed by something that is not a blank. */
  lemma {:induction false} SpaceRunLengthOfBlanks(ws: string, q: string)
    requires forall k :: 0 <= k < |ws| ==> IsSpace(ws[k])
    requires |q| > 0 && !IsSpace(q[0])
    ensures SpaceRunLength(ws + q) == |ws|
    decreases |ws|
  {
    if |ws| > 0 {
      assert (ws + q)[1..] == ws[1..] + q;
      SpaceRunLengthOfBlanks(ws[1..], q);
    } else {
      assert ws + q == q;
    }
  }

  /** A number-character run followed by something else. */
  lemma {:induction false} RunLengthOfRun(w: string, q: string)
    requires forall k :: 0 <= k < |w| ==> IsNumberChar(w[k])
    requires |q| > 0 && !IsNumberChar(q[0])
    ensures RunLength(w + q) == |w|
    decreases |w|
  {
    if |w| > 0 {
      assert (w + q)[1..] == w[1..] + q;
      RunLengthOfRun(w[1..], q);
    } else {
      assert w + q == q;
    }
  }

  /** Sequencing of two lexing results, the second one's failure coming last. */
  function Then(a: Result<seq<Token>>, b: Result<seq<Token>>): (r: Result<seq<Token>>)
    ensures r.Success? <==> a.Success? && b.Success?
  {
    match a
    case Failure(e) => Failure(e)
    case Success(t1) =>
      match b
      case Failure(e) => Failure(e)
      case Success(t2) => Success(t1 + t2)
  }

  lemma ThenAssoc(a: Result<seq<Token>>, b: Result<seq<Token>>, c: Result<seq<Token>>)
    ensures Then(a, Then(b, c)) == Then(Then(a, b), c)
  {
    if a.Success? && b.Success? && c.Success? {
      assert a.value + (b.value + c.value) == (a.value + b.value) + c.value;
    }
  }

  /** The lexer's state once it has emitted `toks` from state `last`. */
  function EndState(toks: seq<Token>, last: Option<Kind>): (k: Option<Kind>) {
    if |toks| == 0 then last else StateAfter(toks[|toks| - 1])
  }

  lemma EndStateCons(t: Token, rest: seq<Token>, last: Option<Kind>)
    ensures EndState([t] + rest, last) == EndState(rest, StateAfter(t))
  {
    if |rest| > 0 {
      assert ([t] + rest)[|rest|] == rest[|rest| - 1];
    }
  }

  /** Whether a token list ends with a number. */
  predicate EndsWithNumber(toks: seq<Token>) {
    |toks| > 0 && toks[|toks| - 1].Num?
  }

  lemma SliceAppend(s: string, r: string, n: nat)
    requires 0 < n <= |s|
    ensures (s + r)[0] == s[0]
    ensures (s + r)[..n] == s[..n] && (s + r)[n..] == s[n..] + r
  {
  }

  /** Text made only of blanks lexes to nothing. */
  lemma {:induction false} LexBlanks(s: string, last: Option<Kind>)
    requires SpaceRunLength(s) == |s|
    ensures !NumberAhead(s)
    ensures LexFrom(s, last) == Success([])
    decreases |s|
  {
    if |s| > 0 {
      assert IsSpace(s[0]);
      LexBlanks(s[1..], last);
    }
  }

  /** Where text that the lexer accepts from `last` can be continued without the
      two parts running together. Only the number scan and its look-ahead past
      blanks read beyond one character. So the cut is clean when r starts with
      something that is neither a blank nor part of a number, or when the last
      token of s is not a number. */
  predicate CleanCut(s: string, r: string, last: Option<Kind>)
    requires last == Some(NumberKind) ==> !NumberAhead(s)
    requires LexFrom(s, last).Success?
  {
    || (|r| > 0 && !IsSpace(r[0]) && !IsNumberChar(r[0]))
    || EndState(LexFrom(s, last).value, last) != Some(NumberKind)
  }

  /** Text cut cleanly lexes as its two parts one after the other, the second
      from the state the first leaves: tokens come out in source order and
      nothing crosses the cut. */
  lemma {:induction false} LexSplit(s: string, r: string, last: Option<Kind>)
    requires last == Some(NumberKind) ==> !NumberAhead(s)
    requires LexFrom(s, last).Success? && CleanCut(s, r, last)
    ensures last == Some(NumberKind) ==> !NumberAhead(s + r)
    ensures EndState(LexFrom(s, last).value, last) == Some(NumberKind) ==> !NumberAhead(r)
    ensures LexFrom(s + r, last) == Then(LexFrom(s, last), LexFrom(r, EndState(LexFrom(s, last).value, last)))
    decreases |s|, 1
  {
    if |s| == 0 {
      assert s + r == r;
      match LexFrom(r, last)
      case Failure(_) =>
      case Success(t) => assert [] + t == t;
    } else if IsSpace(s[0]) {
      assert (s + r)[1..] == s[1..] + r;
      LexSplit(s[1..], r, last);
    } else if IsNumberChar(s[0]) {
      LexSplitNumber(s, r, last);
    } else {
      LexSplitOperator(s, r, last);
    }
  }

  lemma {:induction false} LexSplitNumber(s: string, r: string, last: Option<Kind>)
    requires |s| > 0 && IsNumberChar(s[0])
    requires last == Some(NumberKind) ==> !NumberAhead(s)
    requires LexFrom(s, last).Success? && CleanCut(s, r, last)
    ensures last != Some(NumberKind)
    ensures EndState(LexFrom(s, last).value, last) == Some(NumberKind) ==> !NumberAhead(r)
    ensures LexFrom(s + r, last) == Then(LexFrom(s, last), LexFrom(r, EndState(LexFrom(s, last).value, last)))
    decreases |s|, 0
  {
    assert last != Some(NumberKind) by { assert SpaceRunLength(s) == 0; }
    var n := RunLength(s);
    LexNumberCase(s, last);
    var v := FloatOf(s[..n]).value;
    var rest := LexFrom(s[n..], Some(NumberKind)).value;
    EndStateCons(Num(v), rest, last);
    if n < |s| {
      RunLengthAppend(s, r);
    } else {
      LexBlanks(s[n..], Some(NumberKind));
      RunLengthOfRun(s, r);
    }
    SliceAppend(s, r, n);
    LexSplit(s[n..], r, Some(NumberKind));
    LexNumberStep(s + r, last, n, v);
    LexNumberStep(s, last, n, v);
    ThenAssoc(Success([Num(v)]), LexFrom(s[n..], Some(NumberKind)), LexFrom(r, EndState(rest, Some(NumberKind))));
  }

  lemma {:induction false} LexSplitOperator(s: string, r: string, last: Option<Kind>)
    requires |s| > 0 && IsOpChar(s[0])
    requires last == Some(NumberKind) ==> !NumberAhead(s)
    requires LexFrom(s, last).Success? && CleanCut(s, r, last)
    ensures !NumberAhead(s + r)
    ensures EndState(LexFrom(s, last).value, last) == Some(NumberKind) ==> !NumberAhead(r)
    ensures LexFrom(s + r, last) == Then(LexFrom(s, last), LexFrom(r, EndState(LexFrom(s, last).value, last)))
    decreases |s|, 0
  {
    var t := OperatorToken(s[0], last);
    assert (s + r)[0] == s[0];
    assert (s + r)[1..] == s[1..] + r;
    assert SpaceRunLength(s + r) == 0;
    LexOperatorStep(s + r, last);
    LexOperatorStep(s, last);
    EndStateCons(t, LexFrom(s[1..], Some(OperatorKind)).value, last);
    LexSplit(s[1..], r, Some(OperatorKind));
    ThenAssoc(Success([t]), LexFrom(s[1..], Some(OperatorKind)), LexFrom(r, EndState(LexFrom(s, last).value, last)));
  }

  /** One step of the lexer over a number lexeme of length n. */
  lemma LexNumberStep(s: string, last: Option<Kind>, n: nat, v: real)
    requires |s| > 0 && IsNumberChar(s[0]) && last != Some(NumberKind)
    requires ScanNumber(s, false) == Success(n)
    requires !NumberAhead(s[n..]) && FloatOf(s[..n]) == Success(v)
    ensures LexFrom(s, last) == Then(Success([Num(v)]), LexFrom(s[n..], Some(NumberKind)))
  {
  }

  /** The lexer step that rejects a number followed, past blanks, by another
      digit or '.'. */
  lemma LexSeparatedStep(r: string, last: Option<Kind>, n: nat)
    requires |r| > 0 && IsNumberChar(r[0]) && last != Some(NumberKind)
    requires ScanNumber(r, false) == Success(n) && NumberAhead(r[n..])
    ensures LexFrom(r, last) == Failure(DigitsSeparatedBySpace)
  {
  }

  /** The lexer step that rejects a run with a second '.'. */
  lemma LexScanFailsStep(r: string, last: Option<Kind>)
    requires |r| > 0 && IsNumberChar(r[0]) && last != Some(NumberKind)
    requires ScanNumber(r, false).Failure?
    ensures LexFrom(r, last) == Failure(InvalidNumberFormat)
  {
  }

  /** One step of the lexer over an operator character. */
  lemma LexOperatorStep(s: string, last: Option<Kind>)
    requires |s| > 0 && IsOpChar(s[0])
    ensures LexFrom(s, last) == Then(Success([OperatorToken(s[0], last)]), LexFrom(s[1..], Some(OperatorKind)))
  {
  }

  // ---------------------------------------------------------------------------
  // Errors

  /** Behind any text the lexer accepts whose last token is not a number, a
      number whose digit-and-dot run holds a second '.' is rejected. */
  lemma LexRejectsSecondDot(p: string, q: string)
    requires Lex(p).Success? && !EndsWithNumber(Lex(p).value)
    requires |q| > 0 && IsNumberChar(q[0]) && !AtMostOneDot(q[..RunLength(q)])
    ensures Lex(p + q) == Failure(InvalidNumberFormat)
  {
    LexSplit(p, q, None);
    LexScanFailsStep(q, EndState(Lex(p).value, None));
  }

  /** Behind any text the lexer accepts whose last token is not a number, a
      number followed by blanks and then a digit or '.' is rejected. */
  lemma LexRejectsSeparatedDigits(p: string, w: string, ws: string, q: string)
    requires Lex(p).Success? && !EndsWithNumber(Lex(p).value)
    requires IsLexeme(w)
    requires |ws| > 0 && forall k :: 0 <= k < |ws| ==> IsSpace(ws[k])
    requires |q| > 0 && IsNumberChar(q[0])
    ensures Lex(p + w + ws + q) == Failure(DigitsSeparatedBySpace)
  {
    var r := w + (ws + q);
    assert p + w + ws + q == p + r;
    LexSplit(p, r, None);
    assert r[0] == w[0];
    RunLengthOfRun(w, ws + q);
    assert r[..|w|] == w;
    assert r[|w|..] == ws + q;
    SpaceRunLengthOfBlanks(ws, q);
    assert (ws + q)[|ws|] == q[0];
    LexSeparatedStep(r, EndState(Lex(p).value, None), |w|);
  }

  /** Behind any text the lexer accepts, a character other than whitespace,
      digits, '.' and the four operators is rejected. */
  lemma LexRejectsInvalidCharacter(p: string, c: char, q: string)
    requires Lex(p).Success?
    requires !IsAllowedChar(c)
    ensures Lex(p + [c] + q) == Failure(InvalidCharacter(c))
  {
    assert p + [c] + q == p + ([c] + q);
    LexSplit(p, [c] + q, None);
  }

  /** Conversely, text the lexer accepts holds only those characters. */
  lemma {:induction false} LexOnlyAllowedChars(s: string, last: Option<Kind>)
    requires last == Some(NumberKind) ==> !NumberAhead(s)
    requires LexFrom(s, last).Success?
    ensures forall k :: 0 <= k < |s| ==> IsAllowedChar(s[k])
    decreases |s|
  {
    if |s| > 0 {
      if IsSpace(s[0]) {
        LexOnlyAllowedChars(s[1..], last);
        assert forall k :: 1 <= k < |s| ==> s[k] == s[1..][k - 1];
      } else if IsNumberChar(s[0]) {
        var n := RunLength(s);
        LexOnlyAllowedChars(s[n..], Some(NumberKind));
        assert forall k :: n <= k < |s| ==> s[k] == s[n..][k - n];
      } else {
        LexOnlyAllowedChars(s[1..], Some(OperatorKind));
        assert forall k :: 1 <= k < |s| ==> s[k] == s[1..][k - 1];
      }
    }
  }

  // ---------------------------------------------------------------------------
  // Source order: whitespace yields nothing, operators and numbers keep their order

  /** The operator characters of `s`, in order. */
  function OperatorChars(s: string): (ops: string) {
    if |s| == 0 then [] else (if IsOpChar(s[0]) then [s[0]] else []) + OperatorChars(s[1..])
  }

  /** The operator text of the tokens, in order; numbers contribute nothing. */
  function OperatorText(toks: seq<Token>): (r: string) {
    if |toks| == 0 then []
    else
      (match toks[0] case Num(_) => "" case Operator(op) => op case UnaryMinus => "-")
      + OperatorText(toks[1..])
  }

  lemma {:induction false} OperatorCharsSkip(s: string, n: nat)
    requires n <= |s|
    requires forall k :: 0 <= k < n ==> !IsOpChar(s[k])
    ensures OperatorChars(s) == OperatorChars(s[n..])
    decreases n
  {
    if n > 0 {
      assert s[1..][n - 1..] == s[n..];
      OperatorCharsSkip(s[1..], n - 1);
    }
  }

  /** Each operator character yields exactly one token, in source order, and
      nothing else yields operator text. */
  lemma {:induction false} LexOperatorsInOrder(s: string, last: Option<Kind>)
    requires last == Some(NumberKind) ==> !NumberAhead(s)
    requires LexFrom(s, last).Success?
    ensures OperatorText(LexFrom(s, last).value) == OperatorChars(s)
    decreases |s|
  {
    if |s| > 0 {
      if IsSpace(s[0]) {
        LexOperatorsInOrder(s[1..], last);
      } else if IsNumberChar(s[0]) {
        var n := RunLength(s);
        LexOperatorsInOrder(s[n..], Some(NumberKind));
        OperatorCharsSkip(s, n);
        var t := LexFrom(s, last).value;
        assert t[1..] == LexFrom(s[n..], Some(NumberKind)).value;
      } else {
        LexOperatorsInOrder(s[1..], Some(OperatorKind));
        var t := LexFrom(s, last).value;
        assert t[1..] == LexFrom(s[1..], Some(OperatorKind)).value;
        assert t[0].UnaryMinus? ==> "-" == [s[0]];
      }
    }
  }

  /** The maximal digit-and-dot runs of `s`, in order. */
  function NumberLexemes(s: string): (r: seq<string>)
    decreases |s|
  {
    if |s| == 0 then []
    else if IsNumberChar(s[0]) then [s[..RunLength(s)]] + NumberLexemes(s[RunLength(s)..])
    else NumberLexemes(s[1..])
  }

  /** The values of the number tokens, in order. */
  function NumberValues(toks: seq<Token>): (r: seq<real>) {
    if |toks| == 0 then []
    else (if toks[0].Num? then [toks[0].value] else []) + NumberValues(toks[1..])
  }

  /** Run by run, each lexeme is well formed and float() of it is the value
      at the same place. */
  predicate Matches(lexemes: seq<string>, values: seq<real>) {
    && |values| == |lexemes|
    && forall i :: 0 <= i < |lexemes| ==> IsLexeme(lexemes[i]) && FloatOf(lexemes[i]) == Success(values[i])
  }

  lemma MatchesCons(w: string, v: real, lexemes: seq<string>, values: seq<real>)
    requires IsLexeme(w) && FloatOf(w) == Success(v) && Matches(lexemes, values)
    ensures Matches([w] + lexemes, [v] + values)
  {
    forall i | 0 <= i < |lexemes| + 1
      ensures IsLexeme(([w] + lexemes)[i]) && FloatOf(([w] + lexemes)[i]) == Success(([v] + values)[i])
    {
      if i > 0 {
        assert ([w] + lexemes)[i] == lexemes[i - 1];
        assert ([v] + values)[i] == values[i - 1];
      }
    }
  }

  /** What a successful lexer step over a number lexeme has established. */
  lemma LexNumberCase(s: string, last: Option<Kind>)
    requires |s| > 0 && IsNumberChar(s[0])
    requires last == Some(NumberKind) ==> !NumberAhead(s)
    requires LexFrom(s, last).Success?
    ensures IsLexeme(s[..RunLength(s)]) && FloatOf(s[..RunLength(s)]).Success?
    ensures !NumberAhead(s[RunLength(s)..]) && LexFrom(s[RunLength(s)..], Some(NumberKind)).Success?
    ensures LexFrom(s, last).value
         == [Num(FloatOf(s[..RunLength(s)]).value)] + LexFrom(s[RunLength(s)..], Some(NumberKind)).value
  {
    var n := RunLength(s);
    assert forall k :: 0 <= k < n ==> s[..n][k] == s[k];
  }

  /** Each maximal digit-and-dot run yields exactly one number token, in source
      order, whose value is float() of the run. */
  lemma {:induction false} LexNumbersInOrder(s: string, last: Option<Kind>)
    requires last == Some(NumberKind) ==> !NumberAhead(s)
    requires LexFrom(s, last).Success?
    ensures Matches(NumberLexemes(s), NumberValues(LexFrom(s, last).value))
    decreases |s|
  {
    if |s| > 0 {
      var t := LexFrom(s, last).value;
      if IsSpace(s[0]) {
        LexNumbersInOrder(s[1..], last);
      } else if IsNumberChar(s[0]) {
        var n := RunLength(s);
        LexNumberCase(s, last);
        var rest := LexFrom(s[n..], Some(NumberKind)).value;
        LexNumbersInOrder(s[n..], Some(NumberKind));
        assert t[0].Num? && t[1..] == rest;
        MatchesCons(s[..n], t[0].value, NumberLexemes(s[n..]), NumberValues(rest));
      } else {
        LexNumbersInOrder(s[1..], Some(OperatorKind));
        assert t[1..] == LexFrom(s[1..], Some(OperatorKind)).value;
      }
    }
  }

  // ---------------------------------------------------------------------------
  // The unary-minus rule

  lemma {:induction false} WellLexedAt(toks: seq<Token>, last: Option<Kind>, i: nat)
    requires WellLexed(toks, last) && i < |toks|
    ensures MayFollow(if i == 0 then last else StateAfter(toks[i - 1]), toks[i])
    decreases i
  {
    if i > 0 {
      WellLexedAt(toks[1..], StateAfter(toks[0]), i - 1);
    }
  }

  /** The unary-minus rule at one position of a well-lexed list. */
  lemma {:induction false} MinusRuleAt(toks: seq<Token>, i: nat)
    requires WellLexed(toks, None) && i < |toks|
    ensures toks[i].IsMinus() ==>
      (toks[i].UnaryMinus? <==> (i == 0 || toks[i - 1].Operator? || toks[i - 1].UnaryMinus?))
    ensures i + 1 < |toks| && toks[i].Num? ==> toks[i + 1].Operator?
  {
    WellLexedAt(toks, None, i);
    if i + 1 < |toks| {
      WellLexedAt(toks, None, i + 1);
    }
  }

  /** A '-' is a unary minus exactly when it is the first token or follows an
      operator or a unary minus. */
  predicate MinusRule(t: seq<Token>) {
    forall i :: 0 <= i < |t| && t[i].IsMinus() ==>
      (t[i].UnaryMinus? <==> (i == 0 || t[i - 1].Operator? || t[i - 1].UnaryMinus?))
  }

  /** A number is followed by a binary operator or ends the list. */
  predicate NumberThenOperator(t: seq<Token>) {
    forall i :: 0 <= i < |t| - 1 && t[i].Num? ==> t[i + 1].Operator?
  }

  lemma {:induction false} WellLexedMinusRule(t: seq<Token>)
    requires WellLexed(t, None)
    ensures MinusRule(t)
  {
    forall i | 0 <= i < |t| && t[i].IsMinus()
      ensures t[i].UnaryMinus? <==> (i == 0 || t[i - 1].Operator? || t[i - 1].UnaryMinus?)
    {
      MinusRuleAt(t, i);
    }
  }

  lemma {:induction false} WellLexedNumberThenOperator(t: seq<Token>)
    requires WellLexed(t, None)
    ensures NumberThenOperator(t)
  {
    forall i | 0 <= i < |t| - 1 && t[i].Num?
      ensures t[i + 1].Operator?
    {
      MinusRuleAt(t, i);
    }
  }

  /** The lexer's output obeys both rules. */
  lemma LexMinusRule(s: string)
    requires Lex(s).Success?
    ensures MinusRule(Lex(s).value) && NumberThenOperator(Lex(s).value)
  {
    WellLexedMinusRule(Lex(s).value);
    WellLexedNumberThenOperator(Lex(s).value);
  }

  // ---------------------------------------------------------------------------
  // The value of a lexeme

  /** The digits of a lexeme with its dot, if any, removed. */
  function Undotted(w: string): (d: string)
    requires IsLexeme(w)
    ensures |d| == |w| || |d| == |w| - 1
    ensures forall k :: 0 <= k < |d| ==> IsDigit(d[k])
  {
    var i := DotIndex(w);
    if i < |w| then
      assert forall k :: i < k < |w| ==> w[k] != '.';
      w[..i] + w[i + 1..]
    else
      w
  }

  /** How many digits of a lexeme stand after its dot. */
  function Decimals(w: string): (n: nat)
    requires IsLexeme(w)
    ensures n < |w|
  {
    var i := DotIndex(w);
    if i < |w| then |w| - i - 1 else 0
  }

  lemma MulTen(x: nat, y: nat)
    ensures 10 * (x * y) == x * (10 * y)
  {
  }

  /** Appending digits shifts the value of the digits before them. */
  lemma {:induction false} DigitsValueAppend(a: string, b: string)
    requires forall k :: 0 <= k < |a| ==> IsDigit(a[k])
    requires forall k :: 0 <= k < |b| ==> IsDigit(b[k])
    ensures DigitsValue(a + b) == DigitsValue(a) * Pow10(|b|) + DigitsValue(b)
    decreases |b|
  {
    if |b| == 0 {
      assert a + b == a;
    } else {
      var b' := b[..|b| - 1];
      var d := DigitValue(b[|b| - 1]);
      assert (a + b)[..|a + b| - 1] == a + b';
      assert (a + b)[|a + b| - 1] == b[|b| - 1];
      assert DigitsValue(a + b) == 10 * DigitsValue(a + b') + d;
      assert DigitsValue(b) == 10 * DigitsValue(b') + d;
      assert Pow10(|b|) == 10 * Pow10(|b'|);
      DigitsValueAppend(a, b');
      MulTen(DigitsValue(a), Pow10(|b'|));
    }
  }

  /** A whole part plus a fraction b / p is the whole number a * p + b over p. */
  lemma ScaleFraction(a: nat, b: nat, p: nat, d: nat)
    requires p >= 1 && d == a * p + b
    ensures a as real + b as real / p as real == d as real / p as real
  {
    assert (a * p) as real == a as real * p as real;
  }

  /** Whole digits a and fraction digits f read as the number their
      concatenation spells over ten to the |f|. The equation is stated between
      results so that callers use it by congruence alone. */
  lemma FractionValue(a: string, f: string)
    requires forall k :: 0 <= k < |a| ==> IsDigit(a[k])
    requires forall k :: 0 <= k < |f| ==> IsDigit(f[k])
    ensures Success(DigitsValue(a) as real + DigitsValue(f) as real / Pow10(|f|) as real)
         == Success(DigitsValue(a + f) as real / Pow10(|f|) as real)
  {
    DigitsValueAppend(a, f);
    ScaleFraction(DigitsValue(a), DigitsValue(f), Pow10(|f|), DigitsValue(a + f));
  }

  /** Around its dot, a lexeme is two digit strings: the undotted lexeme is
      their concatenation and its decimals are the second one's length. */
  lemma UndottedParts(w: string)
    requires IsLexeme(w) && DotIndex(w) < |w|
    ensures forall k :: DotIndex(w) < k < |w| ==> IsDigit(w[k])
    ensures Undotted(w) == w[..DotIndex(w)] + w[DotIndex(w) + 1..]
    ensures Decimals(w) == |w[DotIndex(w) + 1..]|
  {
    assert forall k :: DotIndex(w) < k < |w| ==> w[k] != '.';
  }

  /** The same for the two sides of the dot of a lexeme. */
  lemma UndottedValue(w: string)
    requires IsLexeme(w) && DotIndex(w) < |w|
    ensures forall k :: DotIndex(w) < k < |w| ==> IsDigit(w[k])
    ensures Success(DigitsValue(w[..DotIndex(w)]) as real
                    + DigitsValue(w[DotIndex(w) + 1..]) as real / Pow10(|w[DotIndex(w) + 1..]|) as real)
         == Success(DigitsValue(Undotted(w)) as real / Pow10(Decimals(w)) as real)
  {
    UndottedParts(w);
    FractionValue(w[..DotIndex(w)], w[DotIndex(w) + 1..]);
  }

  /** float() of a lexeme is the whole number its digits spell without the
      dot, over ten to the number of its decimals: "3.14" is 314 / 100. */
  lemma FloatOfDigits(w: string)
    requires IsLexeme(w) && HasDigit(w)
    ensures FloatOf(w) == Success(DigitsValue(Undotted(w)) as real / Pow10(Decimals(w)) as real)
  {
    if DotIndex(w) < |w| {
      FloatOfParts(w);
      UndottedValue(w);
    } else {
      assert w != "." && w[..|w|] == w;
    }
  }

  /** float() of a lexeme with a dot, as the whole part and the fraction. */
  lemma FloatOfParts(w: string)
    requires IsLexeme(w) && HasDigit(w) && DotIndex(w) < |w|
    ensures FloatOf(w) == Success(DigitsValue(w[..DotIndex(w)]) as real
      + DigitsValue(w[DotIndex(w) + 1..]) as real / Pow10(|w[DotIndex(w) + 1..]|) as real)
  {
    assert w != "." by { var k :| 0 <= k < |w| && IsDigit(w[k]); }
    assert forall k :: DotIndex(w) < k < |w| ==> w[k] != '.';
  }

  // ---------------------------------------------------------------------------
  // Round trip: tokens printed back as text lex to the same tokens

  function DigitChar(d: nat): (c: char)
    requires d < 10
    ensures IsDigit(c) && DigitValue(c) == d
  {
    ('0' as int + d) as char
  }

  /** The decimal digits of n. */
  function NatToString(n: nat): (w: string)
    ensures |w| > 0 && forall k :: 0 <= k < |w| ==> IsDigit(w[k])
    ensures DigitsValue(w) == n
  {
    if n < 10 then
      [DigitChar(n)]
    else
      var w := NatToString(n / 10) + [DigitChar(n % 10)];
      assert w[..|w| - 1] == NatToString(n / 10);
      w
  }

  lemma FloatOfNat(n: nat)
    ensures IsLexeme(NatToString(n)) && FloatOf(NatToString(n)) == Success(n as real)
  {
    var w := NatToString(n);
    assert w != "." by { assert IsDigit(w[0]); }
    assert w[..|w|] == w;
  }

  /** A token the renderer can print: numbers must be whole. */
  predicate Printable(t: Token) {
    t.Num? ==> t.value >= 0.0 && t.value == t.value.Floor as real
  }

  function Text(t: Token): (w: string)
    requires Printable(t)
  {
    match t
    case Num(v) => NatToString(v.Floor)
    case Operator(op) => op
    case UnaryMinus => "-"
  }

  /** Each token's text followed by one blank. */
  function Render(toks: seq<Token>): (s: string)
    requires forall i :: 0 <= i < |toks| ==> Printable(toks[i])
  {
    if |toks| == 0 then "" else Text(toks[0]) + " " + Render(toks[1..])
  }

  /** Rendered tokens that may follow a number start with an operator character. */
  lemma RenderAfterNumber(toks: seq<Token>)
    requires forall i :: 0 <= i < |toks| ==> Printable(toks[i])
    requires WellLexed(toks, Some(NumberKind))
    ensures |toks| > 0 ==> |Render(toks)| > 0 && IsOpChar(Render(toks)[0])
    ensures !NumberAhead(Render(toks))
  {
    if |toks| > 0 {
      assert toks[0].Operator?;
      var op := toks[0].op;
      assert Render(toks)[0] == op[0];
      assert IsSpace(Render(toks)[0]) == false;
    }
  }

  lemma {:induction false} LexFromRender(toks: seq<Token>, last: Option<Kind>)
    requires forall i :: 0 <= i < |toks| ==> Printable(toks[i])
    requires WellLexed(toks, last)
    requires last == Some(NumberKind) ==> !NumberAhead(Render(toks))
    ensures LexFrom(Render(toks), last) == Success(toks)
    decreases |toks|, 1
  {
    if |toks| > 0 {
      if toks[0].Num? {
        LexFromRenderNumber(toks, last);
      } else {
        LexFromRenderOperator(toks, last);
      }
    }
  }

  lemma BlankThenOperator(r: string)
    requires |r| == 0 || IsOpChar(r[0])
    ensures !NumberAhead(" " + r)
    ensures LexFrom(" " + r, Some(NumberKind)) == LexFrom(r, Some(NumberKind))
  {
    assert (" " + r)[1..] == r;
    assert SpaceRunLength(" " + r) == 1 + SpaceRunLength(r);
    if |r| > 0 {
      assert SpaceRunLength(r) == 0;
      assert (" " + r)[1] == r[0];
    }
  }

  /** The lexer reads a printed whole number, its blank and an operator-led
      rest as that number followed by whatever the rest lexes to. */
  lemma NumberTextStep(t: Token, r: string, last: Option<Kind>)
    requires t.Num? && Printable(t) && last != Some(NumberKind)
    requires |r| == 0 || IsOpChar(r[0])
    ensures !NumberAhead(r)
    ensures LexFrom(Text(t) + (" " + r), last) == Then(Success([t]), LexFrom(r, Some(NumberKind)))
  {
    var w := Text(t);
    var s := w + (" " + r);
    assert s[|w|..] == " " + r;
    BlankThenOperator(r);
    FloatOfNat(t.value.Floor);
    RunLengthOfRun(w, " " + r);
    assert s[..|w|] == w;
    assert s[0] == w[0];
    LexNumberStep(s, last, |w|, t.value);
  }

  lemma {:induction false} LexFromRenderNumber(toks: seq<Token>, last: Option<Kind>)
    requires forall i :: 0 <= i < |toks| ==> Printable(toks[i])
    requires WellLexed(toks, last) && |toks| > 0 && toks[0].Num?
    ensures LexFrom(Render(toks), last) == Success(toks)
    decreases |toks|, 0
  {
    var rest := toks[1..];
    var r := Render(rest);
    assert Render(toks) == Text(toks[0]) + (" " + r);
    RenderAfterNumber(rest);
    NumberTextStep(toks[0], r, last);
    LexFromRender(rest, Some(NumberKind));
    assert [toks[0]] + rest == toks;
  }

  /** The lexer reads a printed operator and its blank as that operator. */
  lemma OperatorTextStep(t: Token, r: string, last: Option<Kind>)
    requires !t.Num? && MayFollow(last, t)
    ensures LexFrom(Text(t) + (" " + r), last) == Then(Success([t]), LexFrom(r, Some(OperatorKind)))
  {
    var w := Text(t);
    var s := w + (" " + r);
    assert |w| == 1 && IsOpChar(w[0]);
    assert s[0] == w[0] && [s[0]] == w;
    assert s[1..] == " " + r;
    assert (" " + r)[1..] == r;
    assert OperatorToken(s[0], last) == t;
    LexOperatorStep(s, last);
  }

  lemma {:induction false} LexFromRenderOperator(toks: seq<Token>, last: Option<Kind>)
    requires forall i :: 0 <= i < |toks| ==> Printable(toks[i])
    requires WellLexed(toks, last) && |toks| > 0 && !toks[0].Num?
    ensures LexFrom(Render(toks), last) == Success(toks)
    decreases |toks|, 0
  {
    var rest := toks[1..];
    var r := Render(rest);
    assert Render(toks) == Text(toks[0]) + (" " + r);
    OperatorTextStep(toks[0], r, last);
    LexFromRender(rest, Some(OperatorKind));
    assert [toks[0]] + rest == toks;
  }

  /** Every token list of the lexer's shape with whole numbers is the lexer's
      output on its rendering. With the contract of Lex, the lexer's image lies
      inside the well-lexed lists and contains every one whose numbers are
      whole. */
  lemma LexRender(toks: seq<Token>)
    requires forall i :: 0 <= i < |toks| ==> Printable(toks[i])
    requires WellLexed(toks, None)
    ensures Lex(Render(toks)) == Success(toks)
  {
    LexFromRender(toks, None);
  }
}
