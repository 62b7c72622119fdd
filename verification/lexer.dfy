/** The lexer of calc.py: one left-to-right pass over the text that emits a
    flat token list, carrying the kind of the last emitted token as its only
    state. */
module Lexer {
  import opened Tokens
  import opened Results

  /** Python's str.isspace() on one character. */
  predicate IsSpace(c: char) {
    || c == ' '
    || '\t' <= c <= '\r'
    || '\U{1c}' <= c <= '\U{1f}'
    || c == '\U{85}' || c == '\U{a0}' || c == '\U{1680}'
    || '\U{2000}' <= c <= '\U{200a}'
    || c == '\U{2028}' || c == '\U{2029}' || c == '\U{202f}' || c == '\U{205f}'
    || c == '\U{3000}'
  }

  predicate IsDigit(c: char) {
    '0' <= c <= '9'
  }

  /** Characters that may appear inside a number lexeme. */
  predicate IsNumberChar(c: char) {
    IsDigit(c) || c == '.'
  }

  // The four operator characters plus, minus, star and slash.
  predicate IsOpChar(c: char) {
    c == '+' || c == '-' || c == '*' || c == '/'
  }

  /** Every character the lexer accepts somewhere. */
  predicate IsAllowedChar(c: char) {
    IsSpace(c) || IsNumberChar(c) || IsOpChar(c)
  }

  /** Length of the longest prefix of `s` made of digits and dots. */
  function RunLength(s: string): (n: nat)
    ensures n <= |s|
    ensures forall k :: 0 <= k < n ==> IsNumberChar(s[k])
    ensures n < |s| ==> !IsNumberChar(s[n])
  {
    if |s| > 0 && IsNumberChar(s[0]) then 1 + RunLength(s[1..]) else 0
  }

  /** Length of the longest prefix of `s` made of whitespace. */
  function SpaceRunLength(s: string): (n: nat)
    ensures n <= |s|
    ensures forall k :: 0 <= k < n ==> IsSpace(s[k])
    ensures n < |s| ==> !IsSpace(s[n])
  {
    if |s| > 0 && IsSpace(s[0]) then 1 + SpaceRunLength(s[1..]) else 0
  }

  predicate AtMostOneDot(w: string) {
    forall i, j :: 0 <= i < j < |w| && w[i] == '.' ==> w[j] != '.'
  }

  /** A number lexeme as the scanning loop leaves it: digits and at most one dot. */
  predicate IsLexeme(w: string) {
    && |w| > 0
    && (forall k :: 0 <= k < |w| ==> IsNumberChar(w[k]))
    && AtMostOneDot(w)
  }

  /** The scanning loop of a number. `dotSeen` is true once a '.' has been
      consumed; it returns the number of characters consumed, which is the
      whole digit-and-dot run, unless the run holds a second dot. */
  function ScanNumber(s: string, dotSeen: bool): (r: Result<nat>)
    ensures r.Success? <==> AtMostOneDot(s[..RunLength(s)]) && !(dotSeen && '.' in s[..RunLength(s)])
    ensures r.Success? ==> r.value == RunLength(s)
    ensures r.Failure? ==> r.error == InvalidNumberFormat
  {
    if |s| > 0 && IsNumberChar(s[0]) then
      if s[0] == '.' && dotSeen then
        assert '.' in s[..RunLength(s)] by { assert s[..RunLength(s)][0] == '.'; }
        Failure(InvalidNumberFormat)
      else
        var n :- ScanNumber(s[1..], dotSeen || s[0] == '.');
        assert s[..RunLength(s)] == [s[0]] + s[1..][..RunLength(s[1..])];
        Success(n + 1)
    else
      Success(0)
  }

  function DigitValue(c: char): (d: nat)
    requires IsDigit(c)
    ensures d < 10
  {
    c as int - '0' as int
  }

  /** The natural number a string of decimal digits denotes (0 for no digits). */
  function DigitsValue(ds: string): (n: nat)
    requires forall k :: 0 <= k < |ds| ==> IsDigit(ds[k])
  {
    if |ds| == 0 then 0 else 10 * DigitsValue(ds[..|ds| - 1]) + DigitValue(ds[|ds| - 1])
  }

  function Pow10(k: nat): (p: nat)
    ensures p >= 1
  {
    if k == 0 then 1 else 10 * Pow10(k - 1)
  }

  /** Index of the first '.' in `w`, or |w| when there is none. */
  function DotIndex(w: string): (i: nat)
    ensures i <= |w|
    ensures i < |w| ==> w[i] == '.'
    ensures forall k :: 0 <= k < i ==> w[k] != '.'
  {
    if |w| == 0 || w[0] == '.' then 0 else 1 + DotIndex(w[1..])
  }

  predicate HasDigit(w: string) {
    exists k :: 0 <= k < |w| && IsDigit(w[k])
  }

  /** Python's float() on a number lexeme, over exact reals: the integer digits
      plus the fraction digits over the matching power of ten. float() rejects a
      lexeme with no digit at all, which for a lexeme is exactly ".". */
  function FloatOf(w: string): (r: Result<real>)
    requires IsLexeme(w)
    ensures r.Success? <==> HasDigit(w)
    ensures r.Success? ==> r.value >= 0.0
    ensures r.Failure? ==> r.error == NotAFloat(w)
  {
    if w == "." then
      Failure(NotAFloat(w))
    else
      var i := DotIndex(w);
      var frac := if i < |w| then w[i + 1..] else [];
      assert HasDigit(w) by {
        if i == 0 { assert IsDigit(w[1]); } else { assert IsDigit(w[0]); }
      }
      Success(DigitsValue(w[..i]) as real + DigitsValue(frac) as real / Pow10(|frac|) as real)
  }

  /** The lexer's state after emitting `t`: calc.py records "NUMBER" after a
      number and "OPERATOR" after every operator, unary minus included. */
  function StateAfter(t: Token): (k: Option<Kind>) {
    if t.Num? then Some(NumberKind) else Some(OperatorKind)
  }

  /** Whether the lexer, in state `last`, reads a '-' as a unary minus. */
  predicate MinusIsUnary(last: Option<Kind>) {
    last == None || last == Some(OperatorKind) || last == Some(UnaryMinusKind)
  }

  /** Whether `s`, past its leading whitespace, starts with a digit or '.'. */
  predicate NumberAhead(s: string) {
    var k := SpaceRunLength(s);
    k < |s| && IsNumberChar(s[k])
  }

  /** Whether token `t` may follow a token that left the lexer in state `last`:
      numbers are non-negative and never follow a number, and a '-' is unary
      exactly in the states where the lexer reads it so. */
  predicate MayFollow(last: Option<Kind>, t: Token) {
    match t
    case Num(v) => v >= 0.0 && last != Some(NumberKind)
    case UnaryMinus => MinusIsUnary(last)
    case Operator(op) => IsBinaryOperator(op) && (op == "-" ==> !MinusIsUnary(last))
  }

  /** The shape of every token list the lexer emits from state `last`. */
  predicate WellLexed(toks: seq<Token>, last: Option<Kind>)
    decreases |toks|
  {
    |toks| == 0 || (MayFollow(last, toks[0]) && WellLexed(toks[1..], StateAfter(toks[0])))
  }

  /** The token an operator character becomes in state `last`: a '-' where a
      number is expected is the unary minus, everything else a binary operator. */
  function OperatorToken(c: char, last: Option<Kind>): (t: Token) {
    if c == '-' && MinusIsUnary(last) then UnaryMinus else Operator([c])
  }

  predicate IsLexError(e: Error) {
    e.InvalidNumberFormat? || e.DigitsSeparatedBySpace? || e.InvalidCharacter? || e.NotAFloat?
  }

  /** The main loop of `lexer` from state `last` over the rest `s` of the text.
      The loop only reaches a state after a number when no digit or dot follows
      past the blanks, since that case has already been rejected. */
  function LexFrom(s: string, last: Option<Kind>): (r: Result<seq<Token>>)
    requires last == Some(NumberKind) ==> !NumberAhead(s)
    ensures r.Success? ==> WellLexed(r.value, last)
    ensures r.Failure? ==> IsLexError(r.error)
    decreases |s|
  {
    if |s| == 0 then
      Success([])
    else if IsSpace(s[0]) then
      LexFrom(s[1..], last)
    else if IsNumberChar(s[0]) then
      var n :- ScanNumber(s, false);
      if NumberAhead(s[n..]) then
        Failure(DigitsSeparatedBySpace)
      else
        var v :- FloatOf(s[..n]);
        var rest :- LexFrom(s[n..], Some(NumberKind));
        Success([Num(v)] + rest)
    else if IsOpChar(s[0]) then
      var t := OperatorToken(s[0], last);
      var rest :- LexFrom(s[1..], Some(OperatorKind));
      assert IsBinaryOperator([s[0]]) by {
        if s[0] == '+' { assert [s[0]] == "+"; }
        else if s[0] == '-' { assert [s[0]] == "-"; }
        else if s[0] == '*' { assert [s[0]] == "*"; }
        else { assert [s[0]] == "/"; }
      }
      assert ([t] + rest)[1..] == rest;
      assert t.Operator? && t.op == "-" ==> s[0] == '-';
      Success([t] + rest)
    else
      Failure(InvalidCharacter(s[0]))
  }

  /** `lexer(expr)`: the loop started with no previous token. */
  function Lex(s: string): (r: Result<seq<Token>>)
    ensures r.Success? ==> WellLexed(r.value, None)
  {
    LexFrom(s, None)
  }
}
