/** The library entry point of src/lib.rs: lex the text, hand the tokens to
    a parser, and evaluate the tree.

    `calculator` takes the parser as a function argument; here it is a
    function-typed parameter that returns the tree or an error message.  The
    integer instance of `FromAST` is the evaluator of `generator::calculator`.
    When that evaluator panics, the Rust call panics instead of returning; here
    the result is then `Success(Panic(..))`, carrying the fault and the number
    of warnings printed before it. */
module Wcal {
  import opened Wrappers
  import opened Lexer
  import opened LexerProps
  import opened Ast
  import opened TopDownParser
  import opened ParserProps
  import opened Generator

  /** `FromAST for i128`. */
  function FromAst(ast: AST): Outcome {
    CalculateAst(ast)
  }

  /** `top_down_parser::parse` with its error as text. */
  function TopDownParse(tokens: seq<Token>): Result<AST, string> {
    match ParseAll(tokens, false)
    case Success(ast) => Success(ast)
    case Failure(e) => Failure(e.Message())
  }

  /** The same parser with a closing parenthesis required where one belongs. */
  function CheckedTopDownParse(tokens: seq<Token>): Result<AST, string> {
    match ParseAll(tokens, true)
    case Success(ast) => Success(ast)
    case Failure(e) => Failure(e.Message())
  }

  /** `calculator(expr, parser)`: the lexer's error, else the parser's error,
      else the outcome of evaluating the tree. */
  function Calculator(expr: string, parser: seq<Token> -> Result<AST, string>): Result<Outcome, string> {
    var tokens :- (match Tokenize(expr)
                   case Success(ts) => Success(ts)
                   case Failure(e) => Failure(e.Message()));
    var ast :- parser(tokens);
    Success(FromAst(ast))
  }

  /** The three stages run in order and the first failure is the answer: a
      lexer error is returned whatever the parser, a parser error is returned
      unchanged, and only a tree that both accepted is evaluated. */
  lemma StagesInOrder(expr: string, parser: seq<Token> -> Result<AST, string>)
    ensures Tokenize(expr).Failure? ==>
      Calculator(expr, parser) == Failure(Tokenize(expr).error.Message())
    ensures Tokenize(expr).Success? && parser(Tokenize(expr).value).Failure? ==>
      Calculator(expr, parser) == Failure(parser(Tokenize(expr).value).error)
    ensures Calculator(expr, parser).Success? <==>
      Tokenize(expr).Success? && parser(Tokenize(expr).value).Success?
    ensures Calculator(expr, parser).Success? ==>
      Calculator(expr, parser).value == Calculate(parser(Tokenize(expr).value).value.root)
  {
  }

  /** Every grammatical tree only carries the four operators. */
  lemma {:induction false} FactorOperators(e: Expr)
    requires IsFactor(e)
    ensures OperatorsValid(e)
    decreases e, 0
  {
    match e
    case Num(_) =>
    case Neg(x) => FactorOperators(x);
    case Pair(x) => ExprOperators(x);
  }

  lemma {:induction false} TermOperators(e: Expr)
    requires IsTerm(e)
    ensures OperatorsValid(e)
    decreases e, 1
  {
    if e.BinOp? && (e.op == Times || e.op == Division) {
      TermOperators(e.lhs);
      FactorOperators(e.rhs);
    } else {
      FactorOperators(e);
    }
  }

  lemma {:induction false} ExprOperators(e: Expr)
    requires IsExpr(e)
    ensures OperatorsValid(e)
    decreases e, 2
  {
    if e.BinOp? && (e.op == Plus || e.op == Minus) {
      ExprOperators(e.lhs);
      TermOperators(e.rhs);
    } else {
      TermOperators(e);
    }
  }

  /** Joining two token lists with an operator or parenthesis between them
      keeps every token one the lexer emits ... */
  lemma JoinEmitted(a: seq<Token>, t: Token, b: seq<Token>)
    requires forall k :: 0 <= k < |a| ==> a[k].IsEmitted()
    requires forall k :: 0 <= k < |b| ==> b[k].IsEmitted()
    requires t.IsEmitted()
    ensures forall k :: 0 <= k < |a + [t] + b| ==> (a + [t] + b)[k].IsEmitted()
  {
    var s := a + [t] + b;
    forall k | 0 <= k < |s|
      ensures s[k].IsEmitted()
    {
      if k < |a| {
        assert s[k] == a[k];
      } else if k > |a| {
        assert s[k] == b[k - |a| - 1];
      }
    }
  }

  /** ... and puts no two numbers next to each other. */
  lemma {:induction false} JoinSeparated(a: seq<Token>, t: Token, b: seq<Token>)
    requires Separated(a) && Separated(b) && !t.Number?
    ensures Separated(a + [t] + b)
    decreases |a|
  {
    if a == [] {
      assert a + [t] + b == [t] + b && ([t] + b)[1..] == b;
    } else {
      var s := a + [t] + b;
      assert s[1..] == a[1..] + [t] + b;
      assert Separated(a[1..]);
      JoinSeparated(a[1..], t, b);
      assert s[0] == a[0];
      if |a| >= 2 {
        assert s[1] == a[1];
      } else {
        assert s[1] == t;
      }
    }
  }

  /** The tokens of a tree built from the four operators are all ones the
      lexer emits, and no two numbers stand next to each other. */
  lemma {:induction false} PrintedTokens(e: Expr)
    requires OperatorsValid(e)
    ensures forall k :: 0 <= k < |Print(e)| ==> Print(e)[k].IsEmitted()
    ensures Separated(Print(e))
  {
    match e
    case Num(n) =>
    case Neg(x) =>
      PrintedTokens(x);
      JoinEmitted([], Minus, Print(x));
      JoinSeparated([], Minus, Print(x));
      assert [] + [Minus] + Print(x) == Print(e);
    case Pair(x) =>
      PrintedTokens(x);
      JoinEmitted([], LP, Print(x));
      JoinSeparated([], LP, Print(x));
      assert [] + [LP] + Print(x) == [LP] + Print(x);
      JoinEmitted([LP] + Print(x), RP, []);
      JoinSeparated([LP] + Print(x), RP, []);
      assert [LP] + Print(x) + [RP] + [] == Print(e);
    case BinOp(l, r, op) =>
      PrintedTokens(l);
      PrintedTokens(r);
      JoinEmitted(Print(l), op, Print(r));
      JoinSeparated(Print(l), op, Print(r));
  }

  /** The text of a grammatical tree, with any run of spaces and tabs before each
      token, lexes and parses back to that tree, with the parser as written
      and with the corrected one; so `calculator` returns the tree's value. */
  lemma EndToEnd(e: Expr, gaps: seq<string>)
    requires IsExpr(e) && |gaps| == |Print(e)| && BlankGaps(gaps)
    ensures Calculator(Spaced(Print(e), gaps), TopDownParse) == Success(Calculate(e))
    ensures Calculator(Spaced(Print(e), gaps), CheckedTopDownParse) == Success(Calculate(e))
  {
    ExprOperators(e);
    PrintedTokens(e);
    SeparatedApart(Print(e), gaps);
    SpacedRoundTrip(Print(e), gaps);
    PrintRoundTrip(e, false);
    PrintRoundTrip(e, true);
  }

  /** With the corrected parser, whatever `calculator` evaluates is a
      grammatical tree whose tokens are exactly the lexer's. */
  lemma CheckedCalculatorSound(expr: string)
    requires Calculator(expr, CheckedTopDownParse).Success?
    ensures Tokenize(expr).Success?
    ensures var e := ParseAll(Tokenize(expr).value, true).value.root;
      IsExpr(e) && Tokenize(expr).value == Print(e)
      && Calculator(expr, CheckedTopDownParse) == Success(Calculate(e))
  {
    var toks := Tokenize(expr).value;
    ParseSound(toks, true);
  }

  /** The library's own test: "1+2" evaluates to 3 without a warning. */
  lemma OnePlusTwo(expr: string)
    requires expr == "1+2"
    ensures Calculator(expr, TopDownParse) == Success(Value(3, 0))
  {
    var e := BinOp(Num(1), Num(2), Plus);
    assert IsExpr(e);
    assert Print(e) == [Number(1), Plus, Number(2)];
    var gaps := ["", "", ""];
    assert Spaced(Print(e), gaps) == expr by {
      assert Number(1).Display() == "1" && Number(2).Display() == "2";
      assert Spaced([Number(2)], [""]) == "2";
      assert Spaced([Plus, Number(2)], ["", ""]) == "+2";
    }
    EndToEnd(e, gaps);
  }

  /** The text "(2 5" lexes to `( 2 5`. */
  lemma UnclosedPairTokens(expr: string, toks: seq<Token>)
    requires expr == "(2 5" && toks == [LP, Number(2), Number(5)]
    ensures Tokenize(expr) == Success(toks)
  {
    var gaps := ["", "", " "];
    assert Spaced(toks, gaps) == expr by {
      assert Number(2).Display() == "2" && Number(5).Display() == "5";
      assert toks[1..] == [Number(2), Number(5)] && toks[1..][1..] == [Number(5)];
      assert Spaced([Number(5)], [" "]) == " 5";
      assert Spaced([Number(2), Number(5)], ["", " "]) == "2 5";
    }
    SpacedRoundTrip(toks, gaps);
  }

  lemma CloseMessage()
    ensures ExpectedGot(")", Number(5)).Message() == "Expect ), got 5"
  {
    assert Number(5).Display() == "5";
  }

  /** "(2 5" through `calculator`: the parser as written reads the `5` as the
      closing parenthesis and returns 2; the corrected parser reports the
      token it found instead of `)`. */
  lemma UnclosedPairText(expr: string)
    requires expr == "(2 5"
    ensures Calculator(expr, TopDownParse) == Success(Value(2, 0))
    ensures Calculator(expr, CheckedTopDownParse) == Failure("Expect ), got 5")
  {
    var toks := [LP, Number(2), Number(5)];
    UnclosedPairTokens(expr, toks);
    UncheckedCloseAccepts();
    CloseMessage();
  }
}
