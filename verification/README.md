# calc.py in Dafny

A model of the stage-1 arithmetic calculator `calc.py`: the lexer, the
precedence-climbing parser, the tree-walking evaluator, and `calc`, which chains
the three. Everything is modelled as pure functions over immutable datatypes, and
every failure is a value of one `Error` datatype inside a `Result`.

- `Tokens`, `Results`, `Ast` hold the data model.
  - The token kinds `NUMBER`, `OPERATOR` and `UNARY_MINUS`.
  - The errors the program raises.
  - The three tree nodes `Number`, `UnaryOp` and `BinaryOp`.
- `Lexer` is `lexer`. It makes one left-to-right pass, and the kind of the last emitted token is its only state (`LexFrom`).
- `Parser` is `parser`.
  - `parse_expression`, its operator loop and `parse_atom` become the mutually recursive `ParseExpression`, `ParseLoop` and `ParseAtom`.
  - Termination is measured by the tokens left plus a rank among the three.
- `Evaluator` is `evaluate` over exact reals.
- `Calculator` is `calc`.

What is proved, and against what:

- **Lexer.**
  - Its output has a precise shape: `WellLexed`.
  - A renderer that prints tokens back as text closes a round trip. Every well-shaped token list with whole numbers is what the lexer produces from its rendering (`LexRender`). So the lexer's image lies inside `WellLexed` and holds every well-shaped list with whole numbers.
  - Text cut in two lexes as its two parts one after the other, the second from the state the first leaves (`LexSplit`). The cut must be clean: the second part starts with neither whitespace nor a digit or '.', or the first part's tokens do not end in a number.
  - Each of the three lexical errors calc.py raises itself is raised where the code raises it, after any prefix the lexer accepts. For the two number errors the prefix's tokens must not end in a number. Behind such a number the new lexeme would either merge with it into one run (`"1"` then `"..5"` is the single lexeme "1..5") or be rejected as "digits separated by space". Conversely, accepted text holds only allowed characters (`LexOnlyAllowedChars`).
  - float() of a lexeme is its digits without the dot over a power of ten (`FloatOfDigits`).
  - Operators and numbers come out in source order, and whitespace yields nothing.
  - The unary-minus rule holds as an if-and-only-if.
- **Parser.**
  - `Grammar` is an independent reference: the grammar `sum = term {(+|-) term}`, `term = atom {(*|/) atom}`, `atom = {-} number`, with the conventional tree of each sentence. `ParseSum` proves the parser reads every sentence as that tree. This covers both precedence and left associativity.
  - `ParserProperties` proves what happens when a list grows at its end, and the three syntax errors.
- **Evaluator.**
  - `Denote`/`Defined` are a total reading of a tree. `EvalDenotes` proves that evaluation succeeds exactly on defined trees and then yields their denotation.
  - `GrammarValues` folds a grammar sentence to its value without building a tree, and `EvalSum` connects it to evaluation.
- **Whole pipeline.**
  - `Calc` can fail in only four ways.
  - `CalcSum` proves that calculating the rendering of any grammar sentence with whole numbers gives the sentence's value.

Where the program's tests and its code disagree, the model follows the code.
tests/test_performance.py:70-78 expects "Invalid expression" for `"1+" * 249`,
text that ends on an operator. calc.py:109-110 raises "Unexpected end of
expression" there instead, because the last "+" has no operand to parse
(`ParserProperties.ParseTrailingOperator`).

## Model

| member | source | states |
|---|---|---|
| Lexer.RunLength | calc.py:33 | the number-scanning loop reads the longest prefix of digits and dots: every character before the returned length is a digit or '.', and the one at that length is not |
| Lexer.SpaceRunLength | calc.py:42-44 | the look-ahead after a number skips the longest run of whitespace and stops on the first non-whitespace character |
| Lexer.ScanNumber | calc.py:31-39 | scanning a number succeeds iff its digit-and-dot run holds at most one '.', and then consumes exactly that run; otherwise it fails with "Invalid number format" |
| Lexer.FloatOf | calc.py:50 | float() of a lexeme succeeds iff the lexeme holds a digit, gives a non-negative value, and otherwise fails with the lexeme itself in the error |
| Lexer.LexFrom | calc.py:21-64 | every successful run of the main loop from a state yields a token list of the lexer's shape from that state; every failure is one of the four lexical errors |
| Lexer.Lex | calc.py:16-66 | the lexer's output always has the shape `WellLexed(_, None)`: numbers are non-negative and never follow a number, every operator is one of + - * /, and '-' is unary exactly after nothing, an operator or a unary minus |
| LexerProperties.LexSplit | calc.py:21-64 | text cut where the second part starts with neither whitespace nor a digit or '.', or where the first part's tokens do not end in a number, lexes as the two parts one after the other, the second from the state the first leaves: tokens keep source order and none spans the cut |
| LexerProperties.LexRejectsSecondDot | calc.py:33-36 | after any text the lexer accepts whose tokens do not end in a number, a number whose digit-and-dot run holds two dots makes the lexer fail with "Invalid number format" |
| LexerProperties.LexRejectsSeparatedDigits | calc.py:42-48 | after any text the lexer accepts whose tokens do not end in a number, a lexeme followed by one or more whitespace characters and then a digit or '.' makes the lexer fail with "digits separated by space" |
| LexerProperties.LexRejectsInvalidCharacter | calc.py:64 | after any text the lexer accepts, a character other than whitespace, digit, '.', + - * / makes the lexer fail with "Invalid character" naming that character |
| LexerProperties.LexOnlyAllowedChars | calc.py:21-64 | conversely, any text the lexer accepts consists of whitespace, digits, '.' and + - * / only |
| LexerProperties.LexOperatorsInOrder | calc.py:25-27 | the operator and unary-minus tokens spell exactly the operator characters of the text in source order, so whitespace contributes nothing |
| LexerProperties.LexNumbersInOrder | calc.py:29-52 | the number tokens correspond one to one and in order to the maximal digit-and-dot runs of the text, each token's value being float() of its run |
| LexerProperties.WellLexedAt | calc.py:55-60 | in a well-shaped list, each token may follow the state left by the token before it |
| LexerProperties.MinusRuleAt | calc.py:55-60 | in a list of the lexer's shape, a '-' token is a unary minus iff it is first or follows an operator or unary minus, and a number that is not last is followed by a binary operator |
| LexerProperties.LexMinusRule | calc.py:55-60 | for any text the lexer accepts, every '-' is unary exactly when it is first or follows an operator or unary minus, and every number that is not last is followed by a binary operator |
| LexerProperties.FloatOfDigits | calc.py:50 | float() of a lexeme with a digit is the whole number its digits spell without the dot, divided by ten to the number of digits after the dot |
| LexerProperties.NatToString | calc.py:50 | the decimal digits printed for a natural number are digits whose value is that number |
| LexerProperties.FloatOfNat | calc.py:50 | float() of the printed digits of n is n |
| LexerProperties.LexFromRender | calc.py:21-64 | from any state a well-shaped list with whole numbers may start in, the rendering lexes back to the list |
| LexerProperties.LexRender | calc.py:16-66 | round trip: every well-shaped token list with whole numbers is what the lexer returns on its rendering, so each of them is in the lexer's image |
| Parser.Precedence | calc.py:99 | the precedence table knows exactly + - * /, with + and - at 1 and * and / at 2 |
| Parser.ParseAtom | calc.py:108-121 | on success an atom consumes at least one token and ends right after a number; it fails only with "Unexpected end of expression" or "Unexpected token" |
| Parser.ParseExpression | calc.py:94-106 | on success an expression consumes at least one token, ends right after a number, and stops where the loop must stop (end, no operator, or an operator below the minimum precedence); failures are the parser's errors |
| Parser.ParseLoop | calc.py:97-104 | the operator loop never moves backwards, stops where it must, keeps every operator in the tree known, and fails only with parser errors |
| Parser.Parse | calc.py:123-126 | a parsed tree uses only known operators; a failure is a parser error or "Invalid expression" |
| ParserProperties.AtomExtend | calc.py:108-121 | an atom never looks past its last token: appending tokens leaves a successful atom unchanged |
| ParserProperties.ExprExtend | calc.py:94-106 | appending tokens leaves a successful expression unchanged as long as the loop would still stop at the same place |
| ParserProperties.LoopExtend | calc.py:97-104 | the same for the operator loop |
| ParserProperties.AtomOverMinuses | calc.py:109-110 | an atom over nothing but unary minuses runs out of tokens |
| ParserProperties.ExprFollow | calc.py:94-121 | an expression that used up a list, followed by an operator it accepts, fails with exactly the failure of the atom after that operator |
| ParserProperties.LoopFollow | calc.py:97-121 | the same for the operator loop |
| ParserProperties.ParseTrailingOperator | calc.py:109-110 | a complete expression followed by a binary operator and any number of unary minuses fails with "Unexpected end of expression" |
| ParserProperties.ParseOnlyMinuses | calc.py:109-110 | the empty list and a list of only unary minuses fail with "Unexpected end of expression" |
| ParserProperties.AtomAtOperator | calc.py:117-121 | an atom position holding unary minuses and then a binary operator fails with "Unexpected token" |
| ParserProperties.ParseOperatorAfterOperator | calc.py:97-121 | a complete expression followed by a binary operator, any number of unary minuses and a second binary operator fails with "Unexpected token" |
| ParserProperties.ParseLeadingOperator | calc.py:121 | a binary operator where the first atom belongs, after any run of unary minuses, fails with "Unexpected token" |
| ParserProperties.ParseLeftover | calc.py:123-125 | a complete expression followed by a number or a unary minus fails with "Invalid expression" |
| Grammar.AtomShape | calc.py:114-119 | k unary minuses before a number parse as exactly k nested unary nodes around it |
| Grammar.TightAtom | calc.py:94-106 | above every precedence an expression is a single atom |
| Grammar.FactorsLoop | calc.py:97-104 | the loop folds a run of "*" and "/" factors to the left |
| Grammar.TermPrefix | calc.py:94-106 | a term parses to its left-folded tree and hands over to the loop at any precedence up to 2 |
| Grammar.TermShape | calc.py:94-106 | a right operand of "+" or "-" is exactly the following term, so "*" and "/" bind tighter |
| Grammar.SummandsLoop | calc.py:97-104 | the loop folds a run of "+" and "-" terms to the left |
| Grammar.ParseSum | calc.py:91-126 | every sentence of the reference grammar parses to its conventional tree: "*" and "/" bind tighter than "+" and "-", operators of one level associate to the left, unary minuses nest |
| Evaluator.Eval | calc.py:136-163 | evaluating a tree fails only with "Division by zero" or "Unknown operator" |
| Evaluator.Apply | calc.py:148-159 | the dispatch succeeds iff the operator is one of + - * / and a divisor is non-zero; + - * / give the sum, difference, product and quotient, "/" by 0 fails with "Division by zero", and any other operator text fails with "Unknown operator" naming it |
| Evaluator.EvalErrors | calc.py:136-163 | on trees whose operators are the ones the parser builds, evaluation fails only by division by zero |
| Evaluator.EvalDenotes | calc.py:136-161 | evaluation succeeds iff every binary operator is one of + - * / and no divisor is zero, whatever the text of the unary nodes, and then yields the tree's denotation |
| Evaluator.EvalNegate | calc.py:140-142 | k nested unary minuses multiply the operand's value by (-1)^k and pass its failure through |
| GrammarValues.EvalAtom | calc.py:137-142 | an atom with k minuses evaluates to its number, negated when k is odd |
| GrammarValues.EvalFoldFactors | calc.py:144-161 | evaluating a left fold of factors is folding their values with the operator dispatch |
| GrammarValues.FoldFactorsFailure | calc.py:144-146 | a failing leftmost operand makes the whole fold fail the same way |
| GrammarValues.EvalTerm | calc.py:144-161 | a term's tree evaluates to the term's value |
| GrammarValues.FoldSummandsFailure | calc.py:144-146 | a failing leftmost operand makes a fold of summands fail the same way |
| GrammarValues.EvalFoldSummands | calc.py:144-161 | evaluating a left fold of summands is folding the terms' values |
| GrammarValues.EvalSum | calc.py:136-161 | a sentence's tree evaluates to the sentence's value |
| Calculator.LexedOperatorsKnown | calc.py:55-60 | every operator token the lexer emits is in the precedence table |
| Calculator.ParseLexed | calc.py:94-125 | on the lexer's output the parser fails only with "Unexpected end" or "Unexpected token": a missing precedence and leftover tokens cannot happen |
| Calculator.Calc | calc.py:166-167 | calc fails only with a lexical error, "Unexpected end", "Unexpected token" or "Division by zero" |
| CalcProperties.SumLexed | calc.py:16-66 | the flattening of a grammar sentence with whole numbers is a list the lexer can produce |
| CalcProperties.CalcSum | calc.py:166-167 | calc of the printed form of any grammar sentence with whole numbers is the sentence's value folded left to right, including its failure on a division by zero |
| Examples.LexDigitOpDigit | calc.py:21-62 | a digit, an operator character and a digit lex to a number, a binary operator and a number |
| Examples.CalcTwoPlusTwo | tests/test_evaluator.py:15 | "2+2" is 4 |
| Examples.CalcOneOverZero | tests/test_evaluator.py:28-30 | "1 / 0" fails with "Division by zero" |
| Examples.EvalCaret | tests/test_evaluator.py:42-45 | a tree with "^" fails with "Unknown operator" |
| Examples.ParseProductFirst | tests/test_parser.py:26-27 | the tokens of "1+2*3" parse with the product under the sum |
| Examples.ParseUnaryAndMixed | tests/test_parser.py:28-31 | the tokens of "-4+3*2/1" parse as (-4) + ((3*2)/1) |
| Examples.ParseDoubleMinus | tests/test_parser.py:23 | the tokens of "--8" parse as two nested unary nodes |
| Examples.ParseLeftAssociative | calc.py:97-104 | the tokens of "1-2-3" parse as (1-2)-3 |
| Examples.CalcEmpty | tests/test_parser.py:50 | the empty text fails with "Unexpected end of expression" |
| Examples.ParseCutShort | tests/test_parser.py:52 | the tokens of "2 /" fail to parse with "Unexpected end of expression" |
| Examples.FloatOfDecimals | tests/test_parser.py:19-20 | float() of "3.14" is 3.14 and of ".5" is 0.5 |
| Examples.LexAtSign | tests/test_parser.py:51 | "2 @ 4" fails with "Invalid character" naming '@' |
| Examples.LexLetterAfterNumber | tests/test_parser.py:54 | "1 + 4i" fails with "Invalid character" naming 'i' |
| Examples.LexSeparatedDigits | tests/test_parser.py:53 | "1 1 + 2" fails with "digits separated by space" |
| Examples.LexLetters | tests/test_parser.py:55 | "abc" fails with "Invalid character" |
| Examples.LexTwoDots | tests/test_parser.py:56 | "1..5" fails with "Invalid number format" |

## Left out

- `_cli` (calc.py:171-185): argument parsing, printing and exit codes are I/O around `calc`.
- Floating point.
  - Numbers and arithmetic are exact reals. float() is the exact decimal value of the lexeme, with no rounding.
  - `_check` (calc.py:130-133) and its "Arithmetic overflow" cannot fire over reals, so they are not modelled. The overflow test at tests/test_evaluator.py:34-37 is not modelled either.
- `str.isdigit` is modelled as the ASCII digits only. Python's `isdigit` also accepts other Unicode digits. Decimal digits of other scripts are read by `float()`. Digits that are not decimal, such as '²', pass `isdigit` but make `float()` raise its own ValueError. Neither case is modelled.
- Lexer.FloatOf: float(".") raises inside Python's library. The model reports it as its own lexical error that carries the lexeme, not as the library's message.
- Parser.Precedence: a missing key in the precedence table is a Python KeyError. The model reports it as a `NoPrecedence` failure. Lexed input never reaches it (Calculator.ParseLexed).
- The `TypeError` for a node that is not `Number`, `UnaryOp` or `BinaryOp` (calc.py:163) cannot happen: the tree datatype is closed.
- Python's recursion limit is not modelled. Deeply nested input that would exhaust it in the program parses and evaluates in the model. Both the parser and `evaluate` recurse once per nesting level; tests/test_performance.py:7 raises the limit to 2000.
- LexerProperties.LexRender: the renderer prints only whole non-negative numbers, so the round trip is stated for token lists whose numbers are whole. Fractional numbers are covered by LexNumbersInOrder, which relates them to float() of their lexemes.
- Grammar.ParseSum: proves that every grammar sentence parses to its tree. The converse, that every list the parser accepts is the flattening of a sentence, is not stated.
- Features that only the tests exercise are not modelled: exponentiation, parentheses, scientific notation and the timing checks. The tests are tests/test_parser.py:33-38 and tests/test_performance.py.
