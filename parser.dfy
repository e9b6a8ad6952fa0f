/** The recursive-descent parser of `parser::top_down_parser`.

    The grammar, rewritten so that `*` and `/` bind tighter than `+` and `-`
    and both associate to the left:

        S         ::= expr
        expr      ::= term expr_tail
        expr_tail ::= Plus term expr_tail | Minus term expr_tail | <empty>
        term      ::= factor term_tail
        term_tail ::= Times factor term_tail | Division factor term_tail | <empty>
        factor    ::= LP expr RP | Number | Minus factor

    The parser is stated twice: as functions over the remaining tokens
    (`ParseExpr` … `ParseAll`), about which the properties are proved, and as
    the class `Parser` whose methods advance a position through the token list
    the way the Rust methods advance a peekable iterator, each proved to agree
    with its function.

    In the Rust `factor`, the token that closes `LP expr` is taken with
    `get_token(")")`, which accepts ANY token.  The flag `checked` selects
    between that behaviour (`false`, the source as written) and the evidently
    intended one (`true`: anything but `RP` there is an error). */
module TopDownParser {
  import opened Wrappers
  import opened Lexer
  import opened Ast

  /** The three messages the parser produces, kept as data; `Message` gives
      the text. */
  datatype ParseError =
    | ExpectedNothing(wanted: string)
    | ExpectedGot(wanted: string, got: Token)
    | InvalidExpression
  {
    function Message(): string {
      match this
      case ExpectedNothing(x) => "Expect " + x + ", got nothing"
      case ExpectedGot(x, t) => "Expect " + x + ", got " + t.Display()
      case InvalidExpression => "Invalid expression"
    }
  }

  /** The trees the grammar derives.  A factor is a number, a negated factor
      or a parenthesised expression; a term is a factor or a term times/divided
      by a factor; an expression is a term or an expression plus/minus a term.
      So `*` and `/` sit below `+` and `-`, every operator's right operand is
      one level lower than its left one (left association), and `Neg` applies
      to a factor only. */
  predicate IsFactor(e: Expr)
    decreases e, 0
  {
    match e
    case Num(_) => true
    case Neg(x) => IsFactor(x)
    case Pair(x) => IsExpr(x)
    case BinOp(_, _, _) => false
  }

  predicate IsTerm(e: Expr)
    decreases e, 1
  {
    if e.BinOp? && (e.op == Times || e.op == Division) then IsTerm(e.lhs) && IsFactor(e.rhs)
    else IsFactor(e)
  }

  predicate IsExpr(e: Expr)
    decreases e, 2
  {
    if e.BinOp? && (e.op == Plus || e.op == Minus) then IsExpr(e.lhs) && IsTerm(e.rhs)
    else IsTerm(e)
  }

  /** A parsed phrase and the tokens after it. */
  datatype Parsed = Parsed(tree: Expr, rest: seq<Token>)

  /** `expr ::= term expr_tail` */
  function ParseExpr(toks: seq<Token>, checked: bool): (r: Result<Parsed, ParseError>)
    ensures r.Success? ==> |r.value.rest| < |toks|
    ensures toks == [] ==> r == Failure(ExpectedNothing("number"))
    decreases |toks|, 2
  {
    match ParseTerm(toks, checked)
    case Failure(e) => Failure(e)
    case Success(t) =>
      ParseExprTail(t.tree, t.rest, checked)
  }

  /** `expr_tail`: while the next token is `+` or `-`, consume it and a term
      and fold the result into the left operand. */
  function ParseExprTail(lhs: Expr, toks: seq<Token>, checked: bool): (r: Result<Parsed, ParseError>)
    ensures r.Success? ==> |r.value.rest| <= |toks|
    decreases |toks|, 2
  {
    if |toks| > 0 && (toks[0] == Plus || toks[0] == Minus) then
      match ParseTerm(toks[1..], checked)
      case Failure(e) => Failure(e)
      case Success(t) =>
        ParseExprTail(BinOp(lhs, t.tree, toks[0]), t.rest, checked)
    else
      Success(Parsed(lhs, toks))
  }

  /** `term ::= factor term_tail` */
  function ParseTerm(toks: seq<Token>, checked: bool): (r: Result<Parsed, ParseError>)
    ensures r.Success? ==> |r.value.rest| < |toks|
    ensures toks == [] ==> r == Failure(ExpectedNothing("number"))
    decreases |toks|, 1
  {
    match ParseFactor(toks, checked)
    case Failure(e) => Failure(e)
    case Success(f) =>
      ParseTermTail(f.tree, f.rest, checked)
  }

  /** `term_tail`: while the next token is `*` or `/`, consume it and a factor
      and fold the result into the left operand. */
  function ParseTermTail(lhs: Expr, toks: seq<Token>, checked: bool): (r: Result<Parsed, ParseError>)
    ensures r.Success? ==> |r.value.rest| <= |toks|
    decreases |toks|, 1
  {
    if |toks| > 0 && (toks[0] == Times || toks[0] == Division) then
      match ParseFactor(toks[1..], checked)
      case Failure(e) => Failure(e)
      case Success(f) =>
        ParseTermTail(BinOp(lhs, f.tree, toks[0]), f.rest, checked)
    else
      Success(Parsed(lhs, toks))
  }

  /** `factor`: a parenthesised expression, a number, or `-` and a factor.
      Running out of tokens where a factor or its closing token should be is
      `ExpectedNothing`; any other token where a factor should start is
      `ExpectedGot("number", t)`. */
  function ParseFactor(toks: seq<Token>, checked: bool): (r: Result<Parsed, ParseError>)
    ensures r.Success? ==> |r.value.rest| < |toks|
    ensures toks == [] ==> r == Failure(ExpectedNothing("number"))
    decreases |toks|, 0
  {
    if |toks| == 0 then Failure(ExpectedNothing("number"))
    else match toks[0]
      case LP =>
        (match ParseExpr(toks[1..], checked)
         case Failure(e) => Failure(e)
         case Success(p) =>
           if |p.rest| == 0 then Failure(ExpectedNothing(")"))
           else if checked && p.rest[0] != RP then Failure(ExpectedGot(")", p.rest[0]))
           else Success(Parsed(Pair(p.tree), p.rest[1..])))
      case Minus =>
        (match ParseFactor(toks[1..], checked)
         case Failure(e) => Failure(e)
         case Success(f) => Success(Parsed(Neg(f.tree), f.rest)))
      case Number(n) => Success(Parsed(Num(n), toks[1..]))
      case _ => Failure(ExpectedGot("number", toks[0]))
  }

  /** `parse`: an expression that uses up every token. */
  function ParseAll(toks: seq<Token>, checked: bool): (r: Result<AST, ParseError>)
    ensures toks == [] ==> r == Failure(ExpectedNothing("number"))
  {
    match ParseExpr(toks, checked)
    case Failure(e) => Failure(e)
    case Success(p) => if p.rest == [] then Success(AST(p.tree)) else Failure(InvalidExpression)
  }

  /** A method's outcome `r`, with the tokens `rest` it left unread, is the
      outcome `s` of the corresponding function.  On failure the position is
      irrelevant: the Rust parser is dropped with the error. */
  predicate Agrees(r: Result<Expr, ParseError>, s: Result<Parsed, ParseError>, rest: seq<Token>) {
    match s
    case Success(p) => r == Success(p.tree) && rest == p.rest
    case Failure(e) => r == Failure(e)
  }

  /** The parser state: the token list and how far into it the parser is
      (the Rust `Peekable<Iter<Token>>`). */
  class Parser {
    const tokens: seq<Token>
    const checked: bool
    var pos: nat

    ghost predicate Valid()
      reads this
    {
      pos <= |tokens|
    }

    /** The tokens the iterator has still to yield. */
    function Rest(): seq<Token>
      reads this
      requires Valid()
    {
      tokens[pos..]
    }

    constructor (tokens: seq<Token>, checked: bool)
      ensures Valid() && this.tokens == tokens && this.checked == checked
      ensures Rest() == tokens
    {
      this.tokens := tokens;
      this.checked := checked;
      pos := 0;
    }

    /** `eof`: nothing is left to read. */
    method Eof() returns (b: bool)
      requires Valid()
      ensures b <==> Rest() == []
    {
      b := pos == |tokens|;
    }

    /** `peek`: the next token, if any, without consuming it. */
    method Peek() returns (t: Option<Token>)
      requires Valid()
      ensures t == if Rest() == [] then None else Some(Rest()[0])
    {
      if pos == |tokens| {
        t := None;
      } else {
        t := Some(tokens[pos]);
      }
    }

    /** `get_token`: consume the next token whatever it is, or fail with
        "Expect <wanted>, got nothing" at the end of the input. */
    method GetToken(wanted: string) returns (r: Result<Token, ParseError>)
      requires Valid()
      modifies this
      ensures Valid()
      ensures old(Rest()) == [] ==> r == Failure(ExpectedNothing(wanted)) && Rest() == []
      ensures old(Rest()) != [] ==> r == Success(old(Rest())[0]) && Rest() == old(Rest())[1..]
    {
      if pos == |tokens| {
        r := Failure(ExpectedNothing(wanted));
      } else {
        r := Success(tokens[pos]);
        pos := pos + 1;
      }
    }

    /** `s ::= expr` */
    method Start() returns (r: Result<Expr, ParseError>)
      requires Valid()
      modifies this
      ensures Valid() && Agrees(r, ParseExpr(old(Rest()), checked), Rest())
    {
      r := Expression();
    }

    method Expression() returns (r: Result<Expr, ParseError>)
      requires Valid()
      modifies this
      ensures Valid() && Agrees(r, ParseExpr(old(Rest()), checked), Rest())
      decreases |tokens| - pos, 2
    {
      var lhs :- Term();
      r := ExpressionTail(lhs);
    }

    method ExpressionTail(lhs: Expr) returns (r: Result<Expr, ParseError>)
      requires Valid()
      modifies this
      ensures Valid() && Agrees(r, ParseExprTail(lhs, old(Rest()), checked), Rest())
      decreases |tokens| - pos, 2
    {
      var next := Peek();
      if next == Some(Plus) || next == Some(Minus) {
        var op := next.value;
        // after a successful peek `get_token` cannot fail
        var _ := GetToken(if op == Plus then "+" else "-");
        var rhs :- Term();
        r := ExpressionTail(BinOp(lhs, rhs, op));
      } else {
        r := Success(lhs);
      }
    }

    method Term() returns (r: Result<Expr, ParseError>)
      requires Valid()
      modifies this
      ensures Valid() && Agrees(r, ParseTerm(old(Rest()), checked), Rest())
      decreases |tokens| - pos, 1
    {
      var lhs :- Factor();
      r := TermTail(lhs);
    }

    method TermTail(lhs: Expr) returns (r: Result<Expr, ParseError>)
      requires Valid()
      modifies this
      ensures Valid() && Agrees(r, ParseTermTail(lhs, old(Rest()), checked), Rest())
      decreases |tokens| - pos, 1
    {
      var next := Peek();
      if next == Some(Times) || next == Some(Division) {
        var op := next.value;
        var _ := GetToken(if op == Times then "*" else "/");
        var rhs :- Factor();
        r := TermTail(BinOp(lhs, rhs, op));
      } else {
        r := Success(lhs);
      }
    }

    method Factor() returns (r: Result<Expr, ParseError>)
      requires Valid()
      modifies this
      ensures Valid() && Agrees(r, ParseFactor(old(Rest()), checked), Rest())
      decreases |tokens| - pos, 0
    {
      var token :- GetToken("number");
      match token
      case LP =>
        var inner :- Expression();
        var close :- GetToken(")");
        if checked && close != RP {
          return Failure(ExpectedGot(")", close));
        }
        r := Success(Pair(inner));
      case Minus =>
        var operand :- Factor();
        r := Success(Neg(operand));
      case Number(n) =>
        r := Success(Num(n));
      case _ =>
        r := Failure(ExpectedGot("number", token));
    }
  }

  /** `parse`, as written: the whole token list must form one expression. */
  method Parse(tokens: seq<Token>) returns (r: Result<AST, ParseError>)
    ensures r == ParseAll(tokens, false)
  {
    var parser := new Parser(tokens, false);
    var root :- parser.Start();
    var done := parser.Eof();
    if done {
      r := Success(AST(root));
    } else {
      r := Failure(InvalidExpression);
    }
  }

  /** `parse` with the closing parenthesis checked. */
  method ParseChecked(tokens: seq<Token>) returns (r: Result<AST, ParseError>)
    ensures r == ParseAll(tokens, true)
  {
    var parser := new Parser(tokens, true);
    var root :- parser.Start();
    var done := parser.Eof();
    if done {
      r := Success(AST(root));
    } else {
      r := Failure(InvalidExpression);
    }
  }
}
