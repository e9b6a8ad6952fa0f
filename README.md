# wcal: a verified model of the integer calculator

wcal is a command-line calculator for integer and floating-point arithmetic.
It handles `+ - * /`, unary minus and parentheses. Its library works in three stages:

1. The lexer (`src/lexer.rs`) turns one line of text into tokens:
   - blanks and tabs are skipped;
   - a line break ends the input;
   - numbers may be decimal, `0b`, `0o` or `0x`, with `_` separators, and must fit in a `u64`;
   - every other character is an error.
2. A recursive-descent parser (`src/parser/top_down_parser.rs`) builds a tree (`src/parser/ast.rs`) from the tokens.
   - `*` and `/` bind tighter than `+` and `-`, and both levels associate to the left.
   - Unary minus applies to a factor, and parentheses stay in the tree as `Pair` nodes.
3. The integer evaluator (`src/generator/calculator.rs`) computes the tree's value.
   - Division rounds toward zero, and a division that rounds prints a warning.
   - Division by zero panics.

`calculator` in `src/lib.rs` chains the three stages and returns the first error.

The Dafny model follows that structure, one module per source file:

| module | file | models |
|---|---|---|
| `Lexer` | lexer.dfy | the token rules as a hand-written longest-match scanner (`LogosNext`, `ScanAt`), `parse_int` (`ParseInt`), the lexer as a function (`Tokenize`) and as the loop of the source (`Lex`) |
| `LexerProps` | lexer_props.dfy | longest match, line breaks end the input, literal round trip, underscores, the text/token round trip, the source's tests |
| `Ast` | ast.dfy | the tree as a datatype; the `new` constructors are its constructors |
| `TopDownParser` | parser.dfy | the grammar as functions over the remaining tokens, and the class `Parser` whose methods advance a position as the Rust methods advance a peekable iterator, each proved equal to its function |
| `ParserProps` | parser_props.dfy | print/parse round trip, soundness, precedence and associativity, error cases, the source's tests |
| `Generator` | calculator.dfy | truncating division, the evaluator with its warning count and panics |
| `CalculatorProps` | calculator_props.dfy | exactness against rational arithmetic, warnings, evaluation order, the source's tests |
| `Wcal` | wcal.dfy | `calculator` with the parser as a function parameter, `FromAST for i128`, end-to-end lemmas |

Two choices shape how the model reads:

- **Evaluation outcome.** An evaluation ends in `Value(value, warnings)` or `Panic(fault, warnings)`.
  - `warnings` counts the warning lines printed before the evaluation returned or panicked.
  - A panic inside `calculator` appears as a successful `Panic(..)` outcome.
- **The `checked` flag.** The parser's closing-parenthesis step takes any token.
  - `checked = false` models that code as written.
  - `checked = true` is the corrected parser, which requires `)` at that point.
  - Every lemma that holds for both parsers is stated for both. See "## Findings".

## Model

| member | source | states |
|---|---|---|
| Lexer.Digits | src/lexer.rs:114 | the decimal text of a number is never empty, and it is one character long exactly when the number is below the radix |
| Lexer.DigitsRoundTrip | src/lexer.rs:114 | the text a number prints as reads back as that number, uses only digits of the radix, and starts with `0` only for 0 |
| Lexer.RunEnd | src/lexer.rs:72 | the end of the longest run of one character class: every character before it is in the class, and the character at it is not |
| Lexer.StripUnderscores | src/lexer.rs:33 | the result contains no underscore and is no longer than the input |
| Lexer.ParseInt | src/lexer.rs:32-46 | conversion succeeds exactly when the digits, underscores removed, denote a value below 2^64, and it then returns that value |
| Lexer.ScanPrefixed | src/lexer.rs:99-101 | a `0b`/`0o`/`0x` match covers the prefix and a digit run, is a number literal, and is `Number(value)` when the value fits in a u64 and `Error` when it does not |
| Lexer.ScanDecimal | src/lexer.rs:98 | a decimal match is a number literal that is `Number(value)` when the value fits and `Error` when it does not; a one-digit match is always a number |
| Lexer.ScanAt | src/lexer.rs:69-103 | a match at a non-blank position is nonempty; a number carries the value of its literal; a one-character error is a character no rule starts with; a longer error is a literal of 2^64 or more; a line-break match is exactly a line-break character |
| Lexer.LogosNext | src/lexer.rs:72 | the next match lies after the blanks, and there is none exactly when only blanks remain |
| Lexer.TokenizeFrom | src/lexer.rs:145-166 | a successful result holds no `Error` or `NewLine` token; a failure names an invalid single character, or a whole literal whose value is 2^64 or more, at its span |
| Lexer.Tokenize | src/lexer.rs:145-166 | `lexer`: a successful result holds no `Error` or `NewLine` token; a failure names an invalid single character, or a whole literal of 2^64 or more, at its span in the text |
| Lexer.Token.Display | src/lexer.rs:105-118 | no contract; what it promises, that the printed form of a token reads back as that token, is stated by LexerProps.ScanDisplayed and LexerProps.SpacedRoundTrip |
| Lexer.ErrorOf | src/lexer.rs:150-158 | no contract; that the error it builds describes the text (an invalid character, or a literal too large) is stated by Lexer.TokenizeFrom |
| Lexer.LexError.Message | src/lexer.rs:152 | no contract; its text for the source's two error cases is stated by LexerProps.InvalidCharacterMessage and LexerProps.OverflowMessage |
| Lexer.Lex | src/lexer.rs:145-166 | the loop that pulls matches and pushes tokens returns exactly the lexer function's result: the tokens up to the line end, or the first error |
| LexerProps.NoLongerPrefixed | src/lexer.rs:99-101 | no longer text starting at the same place is a number literal than the prefixed match |
| LexerProps.NoLongerDecimal | src/lexer.rs:98 | no longer text starting at the same place is a number literal than the decimal match |
| LexerProps.NoLongerLiteral | src/lexer.rs:98-101 | the number match at a digit is at least as long as every number literal starting there |
| LexerProps.LongestMatch | src/lexer.rs:98-101 | the number match at a digit is a number literal and no longer prefix of the text is one |
| LexerProps.ScanAtDigit | src/lexer.rs:98-101 | `0` followed by `b`, `o` or `x` is scanned by that radix's rule, and every other digit by the decimal rule |
| LexerProps.ScanAtExtended | src/lexer.rs:161 | appending a line break after the text does not change any match inside it except a trailing line-break run |
| LexerProps.TokenizeExtended | src/lexer.rs:161 | a line break after the text does not change the lexer's result from any position in the text |
| LexerProps.StopsAtLineBreak | src/lexer.rs:76-77 | everything after a `\n` or `\f` is ignored: the result is that of the text before it |
| LexerProps.LiteralScan | src/lexer.rs:98-101 | the literal of any natural number in any of the four radixes is matched whole, as that number or as an error when it does not fit |
| LexerProps.LiteralRoundTrip | src/lexer.rs:37-44 | lexing the literal of `n` gives `[Number(n)]` when `n < 2^64`, and otherwise the conversion error whose span covers the whole literal |
| LexerProps.StripAppend | src/lexer.rs:33 | removing underscores distributes over concatenation |
| LexerProps.UnderscoreIgnored | src/lexer.rs:33 | inserting an underscore anywhere in a digit run leaves it a digit run and does not change the converted value |
| LexerProps.OnlyUnderscores | src/lexer.rs:34-36 | a run of underscores alone converts to 0 |
| LexerProps.ScanDecimalWord | src/lexer.rs:98 | any decimal literal followed by the end or a character that cannot continue it (not a digit, `_` or prefix letter) is matched whole, with its value |
| LexerProps.ScanPrefixedWord | src/lexer.rs:99-101 | a prefixed literal followed by the end or a character that is neither a digit of its radix nor `_` is matched whole, with its value |
| LexerProps.ScanNumeral | src/lexer.rs:98 | the printed form of a u64 followed by a delimiter is matched as that number |
| LexerProps.ScanSymbol | src/lexer.rs:79-95 | each of `+ - * / ( )` is matched as its own one-character token |
| LexerProps.ScanDisplayed | src/lexer.rs:105-118 | the printed form of any emitted token is matched back as that token, provided a number is followed by the end, a space or tab, or one of the six symbols |
| LexerProps.ScanSpaced | src/lexer.rs:72 | blanks before a printed token are skipped and the token is matched right after them |
| LexerProps.SpacedRoundTrip | src/lexer.rs:145-166 | printing emitted tokens with any run of spaces and tabs before each, and at least one between two numbers, lexes back to exactly those tokens in order |
| LexerProps.NumberExample | src/lexer.rs:172-182 | `12_3 0b0000_1111 0o00_13 0x00_1a 0x____` lexes to the numbers 123, 15, 11, 26 and 0 |
| LexerProps.LexerExample | src/lexer.rs:215-234 | `12*(0x_1A-0b01)+-0o12/0` followed by a line break and `123` lexes to the twelve tokens of the source's test, and nothing after the line break |
| LexerProps.InvalidCharacterExample | src/lexer.rs:242-244 | `0+a` fails with the invalid character `a` at 2..3 and returns no tokens |
| LexerProps.InvalidCharacterMessage | src/lexer.rs:152 | that error prints as "Invalid character near 2..3: a" |
| LexerProps.MismatchExample | src/lexer.rs:206-213 | `0abc` matches `Number(0)` at 0..1, then a one-character error at 1..2, so the lexer fails with the invalid character `a` |
| LexerProps.OverflowMessage | src/lexer.rs:238-240 | a failed conversion at 0..36 prints the conversion error, the span and the literal |
| Ast.Print | src/parser/ast.rs:3-16 | the tokens a tree stands for, parentheses for a pair: never empty, and starting with `(`, `-` or a number |
| Ast.StripPairs | src/generator/calculator.rs:53-57 | the tree without its pair nodes has none, and a tree without pair nodes is left as it is |
| TopDownParser.ParseError.Message | src/parser/top_down_parser.rs:104-117 | no contract; its texts are stated by ParserProps.NothingMessages, ParserProps.GotMessages and ParserProps.InvalidMessage |
| TopDownParser.ParseExpr | src/parser/top_down_parser.rs:42-45 | an expression consumes at least one token, and with no tokens it fails with "number" expected and nothing found |
| TopDownParser.ParseExprTail | src/parser/top_down_parser.rs:47-64 | the tail never consumes more tokens than it is given |
| TopDownParser.ParseTerm | src/parser/top_down_parser.rs:66-69 | a term consumes at least one token, and with no tokens it fails with "number" expected and nothing found |
| TopDownParser.ParseTermTail | src/parser/top_down_parser.rs:71-88 | the tail never consumes more tokens than it is given |
| TopDownParser.ParseFactor | src/parser/top_down_parser.rs:90-109 | a factor consumes at least one token, and with no tokens it fails with "number" expected and nothing found |
| TopDownParser.ParseAll | src/parser/top_down_parser.rs:132-142 | an empty token list fails with "number" expected and nothing found |
| TopDownParser.Parser.constructor | src/parser/top_down_parser.rs:133-135 | a new parser has the whole token list still to read |
| TopDownParser.Parser.Eof | src/parser/top_down_parser.rs:34-36 | true exactly when no token is left |
| TopDownParser.Parser.Peek | src/parser/top_down_parser.rs:48 | the next token, or none at the end, without consuming it |
| TopDownParser.Parser.GetToken | src/parser/top_down_parser.rs:111-117 | consumes and returns the next token whatever it is, or fails with "<wanted> expected, nothing found" and consumes nothing |
| TopDownParser.Parser.Start | src/parser/top_down_parser.rs:38-40 | returns the expression function's tree and leaves exactly its remaining tokens, or fails with its error |
| TopDownParser.Parser.Expression | src/parser/top_down_parser.rs:42-45 | returns the expression function's tree and leaves exactly its remaining tokens, or fails with its error |
| TopDownParser.Parser.ExpressionTail | src/parser/top_down_parser.rs:47-64 | agrees with the expression-tail function on the tree, the tokens left and the error |
| TopDownParser.Parser.Term | src/parser/top_down_parser.rs:66-69 | agrees with the term function on the tree, the tokens left and the error |
| TopDownParser.Parser.TermTail | src/parser/top_down_parser.rs:71-88 | agrees with the term-tail function on the tree, the tokens left and the error |
| TopDownParser.Parser.Factor | src/parser/top_down_parser.rs:90-109 | agrees with the factor function on the tree, the tokens left and the error |
| TopDownParser.Parse | src/parser/top_down_parser.rs:132-142 | the parser object run over the tokens gives exactly the whole-input parse as written |
| TopDownParser.ParseChecked | src/parser/top_down_parser.rs:132-142 | the same, with the closing parenthesis checked |
| ParserProps.FactorRoundTrip | src/parser/top_down_parser.rs:90-109 | the tokens of any grammatical factor parse back as that factor, and whatever follows is left |
| ParserProps.TermRoundTrip | src/parser/top_down_parser.rs:66-88 | the tokens of any grammatical term parse as that term, followed by the term tail of what follows |
| ParserProps.ExprRoundTrip | src/parser/top_down_parser.rs:42-64 | the tokens of any grammatical expression parse as that expression, followed by the expression tail of what follows, provided what follows does not start with `*` or `/` |
| ParserProps.PrintRoundTrip | src/parser/top_down_parser.rs:132-142 | parsing the tokens of any grammatical tree gives back that tree, for both parsers |
| ParserProps.FactorSound | src/parser/top_down_parser.rs:90-109 | a parsed factor is grammatical, and the tokens it consumed are its printed form; as written, any token may stand for a `)` |
| ParserProps.TermTailSound | src/parser/top_down_parser.rs:71-88 | the term tail keeps a term grammatical and consumes the printed form of what it adds |
| ParserProps.TermSound | src/parser/top_down_parser.rs:66-69 | a parsed term is grammatical and consumed its printed form |
| ParserProps.ExprTailSound | src/parser/top_down_parser.rs:47-64 | the expression tail keeps an expression grammatical and consumes the printed form of what it adds |
| ParserProps.ExprSound | src/parser/top_down_parser.rs:42-45 | a parsed expression is grammatical and consumed its printed form |
| ParserProps.ParseSound | src/parser/top_down_parser.rs:132-142 | an accepted token list is the printed form of the grammatical tree returned, exactly for the corrected parser, and up to the tokens standing for `)` as written |
| ParserProps.CheckedParseExact | src/parser/top_down_parser.rs:95 | the corrected parser returns `e` exactly when `e` is grammatical and the tokens are its printed form |
| ParserProps.UncheckedCloseAccepts | src/parser/top_down_parser.rs:95 | as written, `( 2 5` is accepted as the pair of 2, which does not print as those tokens; the corrected parser reports the `5` where `)` is expected |
| ParserProps.ExprFoldsLeft | src/parser/top_down_parser.rs:47-64 | `a op1 b op2 c` with `+`/`-` parses as `(a op1 b) op2 c` |
| ParserProps.TermFoldsLeft | src/parser/top_down_parser.rs:71-88 | `a op1 b op2 c` with `*`/`/` parses as `(a op1 b) op2 c` |
| ParserProps.TermsBindTighter | src/parser/top_down_parser.rs:66-88 | `a + b * c` (any of the operators of each level) parses as `a + (b * c)` |
| ParserProps.MinusesNegate | src/parser/top_down_parser.rs:98-101 | `k` minus signs before a factor parse as `k` nested negations of it |
| ParserProps.TrailingTokens | src/parser/top_down_parser.rs:137-141 | an expression followed by a token that cannot continue it is "Invalid expression" |
| ParserProps.AdjacentTrees | src/parser/top_down_parser.rs:136-141 | two grammatical trees printed side by side, the second not starting with `-`, are "Invalid expression" |
| ParserProps.MissingOperand | src/parser/top_down_parser.rs:111-117 | an expression ending in `+` or `-` fails with "number" expected and nothing found |
| ParserProps.MissingClose | src/parser/top_down_parser.rs:95 | `(` and an expression with no token after it fails with `)` expected and nothing found |
| ParserProps.UnexpectedToken | src/parser/top_down_parser.rs:105-107 | a token list starting with anything but `(`, `-` or a number fails with "number" expected and that token found |
| ParserProps.BinaryExamples | src/parser/top_down_parser.rs:150-179 | the tokens of `12+3`, `12-3`, `12*3` and `12/3` parse to the single operation on 12 and 3 |
| ParserProps.NumberExamples | src/parser/top_down_parser.rs:183-200 | the tokens of `12`, `-12` and `((12))` parse to the number, its negation and two nested pairs |
| ParserProps.PriorityExamples | src/parser/top_down_parser.rs:233-243 | the tokens of `1+3*6` and `6/(2-3)` parse with the right operand grouped |
| ParserProps.NegationExamples | src/parser/top_down_parser.rs:246-260 | the tokens of `-7--2`, `---7` and `-(1+2)` parse as in the source's test |
| ParserProps.ExpectNumberExamples | src/parser/top_down_parser.rs:203-215 | the tokens of `1+`, `+` and `(` fail with a number expected |
| ParserProps.PairErrorExamples | src/parser/top_down_parser.rs:218-230 | the tokens of `(((2))`, `(2)(1)` and `(())` fail with the errors of the source's test |
| ParserProps.NothingMessages | src/parser/top_down_parser.rs:115 | the end-of-input errors print as "Expect number, got nothing" and "Expect ), got nothing" |
| ParserProps.InvalidMessage | src/parser/top_down_parser.rs:140 | the leftover-token error prints as "Invalid expression" |
| ParserProps.GotMessages | src/parser/top_down_parser.rs:106 | the unexpected-token errors print the token: "Expect number, got +", "Expect number, got )" |
| Generator.TruncDiv | src/generator/calculator.rs:40 | no contract; that it is Rust's `/`, rounding toward zero, is stated by Generator.TruncDivision |
| Generator.TruncRem | src/generator/calculator.rs:37 | no contract; that it is Rust's `%`, with the dividend's sign, is stated by Generator.TruncDivision |
| Generator.Apply | src/generator/calculator.rs:28-43 | no contract; its meaning is stated by CalculatorProps.DivisionWarning and CalculatorProps.ApplyExact |
| Generator.Calculate | src/generator/calculator.rs:13-63 | no contract; its meaning is stated by CalculatorProps.ExactWithoutWarnings, CalculatorProps.WarningsBounded, CalculatorProps.LeftPanicFirst, CalculatorProps.RightPanicSecond and CalculatorProps.PairsTransparent |
| Generator.CalculateAst | src/generator/calculator.rs:65-74 | no contract; it is the evaluation of the root, and Wcal.EndToEnd states its value on the parsed text |
| Generator.TruncDivision | src/generator/calculator.rs:37-40 | the modelled `/` and `%` are Rust's: dividend = divisor × quotient + remainder, the remainder is smaller than the divisor in magnitude and is zero or has the dividend's sign, and the quotient's magnitude is the quotient of the magnitudes |
| Generator.TruncDivNatural | src/generator/calculator.rs:40 | for a non-negative dividend and a positive divisor they agree with floor division |
| CalculatorProps.DivisionWarning | src/generator/calculator.rs:32-41 | division by zero panics; otherwise the quotient rounds toward zero and one warning is added exactly when it does not multiply back to the dividend |
| CalculatorProps.WarningsBounded | src/generator/calculator.rs:37-39 | an evaluation prints at most one warning per division in the tree |
| CalculatorProps.OperatorsNeverUnknown | src/generator/calculator.rs:42 | a tree carrying only the four operators never panics with an unknown operator, and one without divisions returns a value with no warning |
| CalculatorProps.ApplyExact | src/generator/calculator.rs:28-43 | an operator that prints no warning gives the exact rational result, and panics exactly where the rational operation is undefined |
| CalculatorProps.ExactWithoutWarnings | src/generator/calculator.rs:13-69 | an evaluation without warnings returns the tree's exact rational value, and panics only where that value is undefined |
| CalculatorProps.WarningsMonotone | src/generator/calculator.rs:26-27 | the warnings of the left operand, and of both operands when the left returns, are all printed by the operation |
| CalculatorProps.LeftPanicFirst | src/generator/calculator.rs:26 | a panic in the left operand is the operation's outcome, whatever the right operand |
| CalculatorProps.RightPanicSecond | src/generator/calculator.rs:26-27 | a panic in the right operand after the left returned carries both operands' warnings |
| CalculatorProps.PairsTransparent | src/generator/calculator.rs:53-57 | removing every pair node does not change the outcome |
| CalculatorProps.DoubleNegation | src/generator/calculator.rs:59-63 | negating twice gives the operand's outcome |
| CalculatorProps.NumberWidened | src/generator/calculator.rs:47-51 | a number evaluates to its u64 value, non-negative and below 2^64, without warning |
| CalculatorProps.ArithmeticExamples | src/generator/calculator.rs:83-105 | `3`, `1+2`, `1-2` and `1*2` evaluate to 3, 3, -1 and 2 |
| CalculatorProps.DivisionExamples | src/generator/calculator.rs:107-123 | `4/2` is 2 without warning, `3/2` is 1 with one warning, `3/0` panics |
| CalculatorProps.NegationExamples | src/generator/calculator.rs:125-150 | `-3`, `--3`, `--3 - --3`, `(3)` and `((3))` evaluate as in the source's tests |
| Wcal.FromAst | src/lib.rs:55-59 | no contract; it is the integer evaluation of the tree, whose meaning the CalculatorProps lemmas state |
| Wcal.TopDownParse | src/parser/top_down_parser.rs:132-142 | no contract; the parser with its error as text, whose results Wcal.StagesInOrder and Wcal.EndToEnd state |
| Wcal.CheckedTopDownParse | src/parser/top_down_parser.rs:132-142 | no contract; the corrected parser with its error as text, whose results Wcal.CheckedCalculatorSound and Wcal.UnclosedPairText state |
| Wcal.Calculator | src/lib.rs:68-72 | no contract; its meaning is stated by Wcal.StagesInOrder, Wcal.EndToEnd and Wcal.CheckedCalculatorSound |
| Wcal.StagesInOrder | src/lib.rs:68-72 | a lexer error is the answer whatever the parser; a parser error is returned unchanged; the result is the evaluator's outcome on the parsed tree exactly when both stages succeed |
| Wcal.FactorOperators | src/parser/ast.rs:40-42 | every operation in a grammatical factor carries one of `+ - * /` |
| Wcal.TermOperators | src/parser/ast.rs:40-42 | every operation in a grammatical term carries one of `+ - * /` |
| Wcal.ExprOperators | src/parser/ast.rs:40-42 | every operation in a grammatical expression carries one of `+ - * /` |
| Wcal.EndToEnd | src/lib.rs:68-72 | the text of any grammatical tree, with any run of spaces and tabs before each token (one at least between two numbers), is calculated to that tree's value by both parsers |
| Wcal.CheckedCalculatorSound | src/lib.rs:68-72 | with the corrected parser, whatever is calculated is the value of a grammatical tree whose printed form is exactly the lexer's tokens |
| Wcal.OnePlusTwo | src/lib.rs:78-80 | `1+2` is calculated to 3 with no warning |
| Wcal.UnclosedPairText | src/parser/top_down_parser.rs:95 | `(2 5` is calculated to 2 as written, and rejected with "Expect ), got 5" by the corrected parser |

## Left out

- Floating-point evaluation (`src/generator/calculator_f.rs`, `FromAST for f64`) and the f64 half of the library test: IEEE arithmetic is out of scope. It walks the tree the same way.
- The terminal program `src/main.rs`: input, output and process exit.
- The `calculator!` macro: it only supplies the default parser, which `Wcal.Calculator` takes as an argument.
- Generator.Calculate: `i128` overflow is not modelled; values are unbounded integers. A literal is bounded by u64, and that bound is modelled. Two kinds of overflow are left out:
  - a sum, product or negation that leaves the `i128` range, which panics in a debug build and wraps in a release build;
  - the quotient and remainder of `i128::MIN` by `-1`, which panic in every build. The model returns `2^127` with no warning for them.
- CalculatorProps.DivisionWarning and CalculatorProps.ApplyExact: they hold over unbounded integers, so they do not cover the `i128::MIN` by `-1` panic.
- The text that `eprintln!` prints: a warning is counted in `Outcome.warnings`, and the division-by-zero message is implied by `Panic(DivisionByZero, _)`.
- The `static mut ERROR_MSG` channel: the lexer returns its error as a `LexError` value, whose `Message` is the text the source would return.
- The internals of the `logos` automaton: the longest match over the token rules is written out by hand in `LogosNext` and `ScanAt`.
- Spans and slices for non-ASCII text: characters stand for bytes, so multibyte input is outside the model.
- Lexer.ParseInt: it requires its argument to be a run of digits and underscores of the radix, which every caller guarantees. The source's handling of arbitrary strings is not modelled.
- The lexer tests `test_symbol` and `test_overflow` are not instantiated on their strings. The general lemmas cover what they check:
  - `LexerProps.SpacedRoundTrip` covers symbols separated by spaces;
  - `LexerProps.LiteralRoundTrip` and `LexerProps.OverflowMessage` cover the overflowing literal and its span.
- `Display` for `Error` and `NewLine` prints the variant name. Neither token reaches the parser, and no lemma is stated about them.
- The `new` constructors of `src/parser/ast.rs` are the constructors of the datatype `Ast.Expr`, so they store exactly their arguments by construction. Equality is structural.

## Findings

| source | as written | input that shows it | evidently intended | confidence | as-written member | corrected member |
|---|---|---|---|---|---|---|
| src/parser/top_down_parser.rs:95 | `factor` closes `( expr` with `get_token(")")`, which consumes whatever token comes next | the text `(2 5`, i.e. the tokens `( 2 5`, is accepted as `(2)` and calculated to 2 | require `)` there and otherwise fail with "Expect ), got 5" | not executed | ParserProps.UncheckedCloseAccepts, Wcal.UnclosedPairText | ParserProps.CheckedParseExact, TopDownParser.ParseChecked |
