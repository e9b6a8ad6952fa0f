/** What the top-down parser promises: printing a grammatical tree and parsing
    it back gives the tree (for either closing-token behaviour); whatever the
    parser accepts is grammatical; with the closing token checked it accepts
    exactly the printed trees, while as written a closing parenthesis may be
    any token. */
module ParserProps {
  import opened Wrappers
  import opened Lexer
  import opened Ast
  import opened TopDownParser

  /** A token sequence that is not continued by `*` or `/`. */
  predicate NoTermOperator(rest: seq<Token>) {
    rest == [] || (rest[0] != Times && rest[0] != Division)
  }

  /** A token sequence that is not continued by `+` or `-`. */
  predicate NoExprOperator(rest: seq<Token>) {
    rest == [] || (rest[0] != Plus && rest[0] != Minus)
  }

  lemma {:induction false} FactorRoundTrip(f: Expr, rest: seq<Token>, checked: bool)
    requires IsFactor(f)
    ensures ParseFactor(Print(f) + rest, checked) == Success(Parsed(f, rest))
    decreases f, 0
  {
    var toks := Print(f) + rest;
    match f
    case Num(n) =>
      assert toks[1..] == rest;
    case Neg(x) =>
      assert toks[0] == Minus && toks[1..] == Print(x) + rest;
      FactorRoundTrip(x, rest, checked);
    case Pair(x) =>
      assert toks[0] == LP && toks[1..] == Print(x) + ([RP] + rest);
      ExprRoundTrip(x, [RP] + rest, checked);
      assert ParseExpr(toks[1..], checked) == Success(Parsed(x, [RP] + rest));
  }

  lemma PrintBinOp(l: Expr, r: Expr, op: Token, rest: seq<Token>)
    ensures Print(BinOp(l, r, op)) + rest == Print(l) + ([op] + Print(r) + rest)
    ensures ([op] + Print(r) + rest)[0] == op && ([op] + Print(r) + rest)[1..] == Print(r) + rest
  {
    assert Print(BinOp(l, r, op)) == Print(l) + [op] + Print(r);
    assert ([op] + Print(r) + rest)[1..] == Print(r) + rest;
  }

  /** One round of `term_tail` over an operator and a factor. */
  lemma TermTailStep(l: Expr, r: Expr, op: Token, rest: seq<Token>, checked: bool)
    requires op == Times || op == Division
    requires ParseFactor(Print(r) + rest, checked) == Success(Parsed(r, rest))
    ensures ParseTermTail(l, [op] + Print(r) + rest, checked) == ParseTermTail(BinOp(l, r, op), rest, checked)
  {
    PrintBinOp(l, r, op, rest);
  }

  /** One round of `expr_tail` over an operator and a term. */
  lemma ExprTailStep(l: Expr, r: Expr, op: Token, rest: seq<Token>, checked: bool)
    requires op == Plus || op == Minus
    requires ParseTerm(Print(r) + rest, checked) == Success(Parsed(r, rest))
    ensures ParseExprTail(l, [op] + Print(r) + rest, checked) == ParseExprTail(BinOp(l, r, op), rest, checked)
  {
    PrintBinOp(l, r, op, rest);
  }

  /** Parsing a printed term reaches the term's tail with the term as its
      left operand. */
  lemma {:induction false} TermRoundTrip(t: Expr, rest: seq<Token>, checked: bool)
    requires IsTerm(t)
    ensures ParseTerm(Print(t) + rest, checked) == ParseTermTail(t, rest, checked)
    decreases t, 1
  {
    if t.BinOp? && (t.op == Times || t.op == Division) {
      var tail := [t.op] + Print(t.rhs) + rest;
      PrintBinOp(t.lhs, t.rhs, t.op, rest);
      TermRoundTrip(t.lhs, tail, checked);
      FactorRoundTrip(t.rhs, rest, checked);
      TermTailStep(t.lhs, t.rhs, t.op, rest, checked);
    } else {
      FactorRoundTrip(t, rest, checked);
    }
  }

  /** Parsing a printed expression reaches the expression's tail with the
      expression as its left operand, provided no `*` or `/` follows. */
  lemma {:induction false} ExprRoundTrip(e: Expr, rest: seq<Token>, checked: bool)
    requires IsExpr(e) && NoTermOperator(rest)
    ensures ParseExpr(Print(e) + rest, checked) == ParseExprTail(e, rest, checked)
    decreases e, 2
  {
    if e.BinOp? && (e.op == Plus || e.op == Minus) {
      var tail := [e.op] + Print(e.rhs) + rest;
      PrintBinOp(e.lhs, e.rhs, e.op, rest);
      ExprRoundTrip(e.lhs, tail, checked);
      TermRoundTrip(e.rhs, rest, checked);
      ExprTailStep(e.lhs, e.rhs, e.op, rest, checked);
    } else {
      TermRoundTrip(e, rest, checked);
    }
  }

  /** Every grammatical tree, printed, parses back to itself. */
  lemma PrintRoundTrip(e: Expr, checked: bool)
    requires IsExpr(e)
    ensures ParseAll(Print(e), checked) == Success(AST(e))
  {
    ExprRoundTrip(e, [], checked);
    assert Print(e) + [] == Print(e);
  }

  /** `got` stands where the printed token `printed` stands, when a closing
      parenthesis may be any token. */
  predicate FitsToken(got: Token, printed: Token) {
    printed == RP || got == printed
  }

  /** `toks` reads as `printed` with every closing parenthesis replaced by an
      arbitrary token. */
  predicate Fits(toks: seq<Token>, printed: seq<Token>) {
    |toks| == |printed| && forall i :: 0 <= i < |toks| ==> FitsToken(toks[i], printed[i])
  }

  lemma FitsConcat(a1: seq<Token>, b1: seq<Token>, a2: seq<Token>, b2: seq<Token>)
    requires Fits(a1, b1) && Fits(a2, b2)
    ensures Fits(a1 + a2, b1 + b2)
  {
    forall i | 0 <= i < |a1 + a2| ensures FitsToken((a1 + a2)[i], (b1 + b2)[i]) {
      if i >= |a1| {
        assert (a1 + a2)[i] == a2[i - |a1|] && (b1 + b2)[i] == b2[i - |a1|];
      }
    }
  }

  lemma FitsTrans(a: seq<Token>, b: seq<Token>, c: seq<Token>)
    requires Fits(a, b) && Fits(b, c)
    ensures Fits(a, c)
  {
    forall i | 0 <= i < |a| ensures FitsToken(a[i], c[i]) {
      assert FitsToken(a[i], b[i]) && FitsToken(b[i], c[i]);
    }
  }

  lemma FitsSelf(a: seq<Token>)
    ensures Fits(a, a)
  {
  }

  /** What the parser reads: a phrase `tree` followed by `rest`, read out of
      `toks`. */
  predicate ReadsAs(toks: seq<Token>, tree: Expr, rest: seq<Token>, checked: bool) {
    Fits(toks, Print(tree) + rest) && (checked ==> toks == Print(tree) + rest)
  }

  lemma ReadsAsPrefix(x: seq<Token>, toks: seq<Token>, tree: Expr, rest: seq<Token>, checked: bool)
    requires ReadsAs(toks, tree, rest, checked)
    ensures Fits(x + toks, x + Print(tree) + rest)
    ensures checked ==> x + toks == x + Print(tree) + rest
  {
    FitsSelf(x);
    FitsConcat(x, x, toks, Print(tree) + rest);
    assert x + (Print(tree) + rest) == x + Print(tree) + rest;
  }

  /** Reading on from what was read. */
  lemma ReadsTrans(toks: seq<Token>, t1: Expr, r1: seq<Token>, t2: Expr, r2: seq<Token>, checked: bool)
    requires ReadsAs(toks, t1, r1, checked) && ReadsAs(Print(t1) + r1, t2, r2, checked)
    ensures ReadsAs(toks, t2, r2, checked)
  {
    FitsTrans(toks, Print(t1) + r1, Print(t2) + r2);
  }

  /** An operator, then a right operand read from the tokens after it: the
      tokens after the left operand read as the `BinOp`. */
  lemma ReadsOperand(lhs: Expr, op: Token, toks: seq<Token>, r: Expr, mid: seq<Token>, checked: bool)
    requires |toks| > 0 && toks[0] == op && ReadsAs(toks[1..], r, mid, checked)
    ensures ReadsAs(Print(lhs) + toks, BinOp(lhs, r, op), mid, checked)
  {
    ReadsAsPrefix(Print(lhs) + [op], toks[1..], r, mid, checked);
    assert Print(lhs) + toks == Print(lhs) + [op] + toks[1..];
    assert Print(lhs) + [op] + Print(r) + mid == Print(BinOp(lhs, r, op)) + mid;
  }

  /** Any token fits where `)` is printed. */
  lemma FitsClose(x: seq<Token>, t: Token, rest: seq<Token>)
    ensures Fits(x + [t] + rest, x + [RP] + rest)
  {
    FitsSelf(x);
    FitsSelf(rest);
    FitsConcat(x, x, [t], [RP]);
    FitsConcat(x + [t], x + [RP], rest, rest);
  }

  /** `(`, an expression read from the tokens after it, and one more token
      read as `)`. */
  lemma ReadsPair(toks: seq<Token>, x: Expr, mid: seq<Token>, checked: bool)
    requires |toks| > 0 && toks[0] == LP && |mid| > 0
    requires ReadsAs(toks[1..], x, mid, checked) && (checked ==> mid[0] == RP)
    ensures ReadsAs(toks, Pair(x), mid[1..], checked)
  {
    var rest := mid[1..];
    assert mid == [mid[0]] + rest;
    assert Print(x) + mid == Print(x) + [mid[0]] + rest;
    FitsClose(Print(x), mid[0], rest);
    FitsTrans(toks[1..], Print(x) + mid, Print(x) + [RP] + rest);
    FitsSelf([LP]);
    FitsConcat([LP], [LP], toks[1..], Print(x) + [RP] + rest);
    assert toks == [LP] + toks[1..];
    assert Print(Pair(x)) + rest == [LP] + (Print(x) + [RP] + rest);
  }

  /** Whatever `factor` accepts is a grammatical factor, read from the tokens
      it consumed. */
  lemma {:induction false} FactorSound(toks: seq<Token>, checked: bool)
    requires ParseFactor(toks, checked).Success?
    ensures IsFactor(ParseFactor(toks, checked).value.tree)
    ensures ReadsAs(toks, ParseFactor(toks, checked).value.tree, ParseFactor(toks, checked).value.rest, checked)
    decreases |toks|, 0
  {
    match toks[0]
    case LP =>
      var q := ParseExpr(toks[1..], checked).value;
      ExprSound(toks[1..], checked);
      ReadsPair(toks, q.tree, q.rest, checked);
    case Minus =>
      var q := ParseFactor(toks[1..], checked).value;
      FactorSound(toks[1..], checked);
      ReadsAsPrefix([Minus], toks[1..], q.tree, q.rest, checked);
      assert toks == [Minus] + toks[1..];
    case Number(n) =>
      FitsSelf(toks);
      assert toks == [toks[0]] + toks[1..];
  }

  /** `term_tail` started on a grammatical term yields a grammatical term, and
      reads the tokens after the left operand. */
  lemma {:induction false} TermTailSound(lhs: Expr, toks: seq<Token>, checked: bool)
    requires IsTerm(lhs) && ParseTermTail(lhs, toks, checked).Success?
    ensures IsTerm(ParseTermTail(lhs, toks, checked).value.tree)
    ensures ReadsAs(Print(lhs) + toks, ParseTermTail(lhs, toks, checked).value.tree,
                    ParseTermTail(lhs, toks, checked).value.rest, checked)
    decreases |toks|, 1
  {
    var p := ParseTermTail(lhs, toks, checked).value;
    if |toks| > 0 && (toks[0] == Times || toks[0] == Division) {
      var f := ParseFactor(toks[1..], checked).value;
      FactorSound(toks[1..], checked);
      var bin := BinOp(lhs, f.tree, toks[0]);
      TermTailSound(bin, f.rest, checked);
      ReadsOperand(lhs, toks[0], toks, f.tree, f.rest, checked);
      ReadsTrans(Print(lhs) + toks, bin, f.rest, p.tree, p.rest, checked);
    } else {
      FitsSelf(Print(lhs) + toks);
    }
  }

  lemma {:induction false} TermSound(toks: seq<Token>, checked: bool)
    requires ParseTerm(toks, checked).Success?
    ensures IsTerm(ParseTerm(toks, checked).value.tree)
    ensures ReadsAs(toks, ParseTerm(toks, checked).value.tree, ParseTerm(toks, checked).value.rest, checked)
    decreases |toks|, 1
  {
    var p := ParseTerm(toks, checked).value;
    var f := ParseFactor(toks, checked).value;
    FactorSound(toks, checked);
    TermTailSound(f.tree, f.rest, checked);
    ReadsTrans(toks, f.tree, f.rest, p.tree, p.rest, checked);
  }

  /** `expr_tail` started on a grammatical expression yields a grammatical
      expression, and reads the tokens after the left operand. */
  lemma {:induction false} ExprTailSound(lhs: Expr, toks: seq<Token>, checked: bool)
    requires IsExpr(lhs) && ParseExprTail(lhs, toks, checked).Success?
    ensures IsExpr(ParseExprTail(lhs, toks, checked).value.tree)
    ensures ReadsAs(Print(lhs) + toks, ParseExprTail(lhs, toks, checked).value.tree,
                    ParseExprTail(lhs, toks, checked).value.rest, checked)
    decreases |toks|, 2
  {
    var p := ParseExprTail(lhs, toks, checked).value;
    if |toks| > 0 && (toks[0] == Plus || toks[0] == Minus) {
      var t := ParseTerm(toks[1..], checked).value;
      TermSound(toks[1..], checked);
      var bin := BinOp(lhs, t.tree, toks[0]);
      ExprTailSound(bin, t.rest, checked);
      ReadsOperand(lhs, toks[0], toks, t.tree, t.rest, checked);
      ReadsTrans(Print(lhs) + toks, bin, t.rest, p.tree, p.rest, checked);
    } else {
      FitsSelf(Print(lhs) + toks);
    }
  }

  lemma {:induction false} ExprSound(toks: seq<Token>, checked: bool)
    requires ParseExpr(toks, checked).Success?
    ensures IsExpr(ParseExpr(toks, checked).value.tree)
    ensures ReadsAs(toks, ParseExpr(toks, checked).value.tree, ParseExpr(toks, checked).value.rest, checked)
    decreases |toks|, 2
  {
    var p := ParseExpr(toks, checked).value;
    var t := ParseTerm(toks, checked).value;
    TermSound(toks, checked);
    ExprTailSound(t.tree, t.rest, checked);
    ReadsTrans(toks, t.tree, t.rest, p.tree, p.rest, checked);
  }

  /** Whatever `parse` accepts is a grammatical expression, and the tokens are
      its printed form up to the tokens that stood for closing parentheses;
      with the closing token checked they are exactly its printed form. */
  lemma ParseSound(toks: seq<Token>, checked: bool)
    requires ParseAll(toks, checked).Success?
    ensures IsExpr(ParseAll(toks, checked).value.root)
    ensures Fits(toks, Print(ParseAll(toks, checked).value.root))
    ensures checked ==> toks == Print(ParseAll(toks, checked).value.root)
  {
    ExprSound(toks, checked);
    var p := ParseExpr(toks, checked).value;
    assert Print(p.tree) + p.rest == Print(p.tree);
  }

  /** The checked parser accepts exactly the printed grammatical trees. */
  lemma CheckedParseExact(toks: seq<Token>, e: Expr)
    ensures ParseAll(toks, true) == Success(AST(e)) <==> IsExpr(e) && toks == Print(e)
  {
    if ParseAll(toks, true) == Success(AST(e)) {
      ParseSound(toks, true);
    }
    if IsExpr(e) && toks == Print(e) {
      PrintRoundTrip(e, true);
    }
  }

  /** The parser as written accepts `( 2 5`: the token read where `)` belongs
      is not checked, so a tree comes back whose printed form is not the
      input.  The checked parser rejects the same tokens. */
  lemma UncheckedCloseAccepts()
    ensures ParseAll([LP, Number(2), Number(5)], false) == Success(AST(Pair(Num(2))))
    ensures Print(Pair(Num(2))) != [LP, Number(2), Number(5)]
    ensures ParseAll([LP, Number(2), Number(5)], true) == Failure(ExpectedGot(")", Number(5)))
  {
    var toks := [LP, Number(2), Number(5)];
    assert toks[1..][1..] == [Number(5)];
    forall checked: bool ensures ParseExpr(toks[1..], checked) == Success(Parsed(Num(2), [Number(5)])) {
      assert ParseFactor(toks[1..], checked) == Success(Parsed(Num(2), [Number(5)]));
      assert ParseTermTail(Num(2), [Number(5)], checked) == Success(Parsed(Num(2), [Number(5)]));
      assert ParseTerm(toks[1..], checked) == Success(Parsed(Num(2), [Number(5)]));
      assert ParseExprTail(Num(2), [Number(5)], checked) == Success(Parsed(Num(2), [Number(5)]));
    }
    assert [Number(5)][1..] == [];
  }

  /** Operators of one level fold to the left: `a op1 b op2 c` is
      `(a op1 b) op2 c`. */
  lemma ExprFoldsLeft(a: Expr, b: Expr, c: Expr, op1: Token, op2: Token, checked: bool)
    requires IsExpr(a) && IsTerm(b) && IsTerm(c)
    requires (op1 == Plus || op1 == Minus) && (op2 == Plus || op2 == Minus)
    ensures ParseAll(Print(a) + [op1] + Print(b) + [op2] + Print(c), checked)
         == Success(AST(BinOp(BinOp(a, b, op1), c, op2)))
  {
    var e := BinOp(BinOp(a, b, op1), c, op2);
    PrintRoundTrip(e, checked);
    assert Print(e) == Print(a) + [op1] + Print(b) + [op2] + Print(c);
  }

  lemma TermFoldsLeft(a: Expr, b: Expr, c: Expr, op1: Token, op2: Token, checked: bool)
    requires IsTerm(a) && IsFactor(b) && IsFactor(c)
    requires (op1 == Times || op1 == Division) && (op2 == Times || op2 == Division)
    ensures ParseAll(Print(a) + [op1] + Print(b) + [op2] + Print(c), checked)
         == Success(AST(BinOp(BinOp(a, b, op1), c, op2)))
  {
    var e := BinOp(BinOp(a, b, op1), c, op2);
    PrintRoundTrip(e, checked);
    assert Print(e) == Print(a) + [op1] + Print(b) + [op2] + Print(c);
  }

  /** `*` and `/` bind tighter than `+` and `-`: `a + b * c` is `a + (b * c)`. */
  lemma TermsBindTighter(a: Expr, b: Expr, c: Expr, op1: Token, op2: Token, checked: bool)
    requires IsExpr(a) && IsTerm(b) && IsFactor(c)
    requires (op1 == Plus || op1 == Minus) && (op2 == Times || op2 == Division)
    ensures ParseAll(Print(a) + [op1] + Print(b) + [op2] + Print(c), checked)
         == Success(AST(BinOp(a, BinOp(b, c, op2), op1)))
  {
    var e := BinOp(a, BinOp(b, c, op2), op1);
    assert IsTerm(BinOp(b, c, op2));
    PrintRoundTrip(e, checked);
    assert Print(e) == Print(a) + [op1] + Print(b) + [op2] + Print(c) by {
      assert Print(BinOp(b, c, op2)) == Print(b) + [op2] + Print(c);
      assert Print(e) == Print(a) + [op1] + Print(BinOp(b, c, op2));
      Regroup(Print(a) + [op1], Print(b) + [op2], Print(c));
    }
  }

  lemma Regroup(x: seq<Token>, y: seq<Token>, z: seq<Token>)
    ensures x + (y + z) == x + y + z
  {
  }

  /** `k` unary minuses in a row. */
  function Minuses(k: nat): (s: seq<Token>)
    ensures |s| == k && forall i :: 0 <= i < k ==> s[i] == Minus
  {
    if k == 0 then [] else [Minus] + Minuses(k - 1)
  }

  /** `f` negated `k` times. */
  function Negated(k: nat, f: Expr): Expr {
    if k == 0 then f else Neg(Negated(k - 1, f))
  }

  /** Unary minus is right-recursive: `k` minuses before a factor negate it
      `k` times, innermost last. */
  lemma {:induction false} MinusesNegate(k: nat, f: Expr, rest: seq<Token>, checked: bool)
    requires IsFactor(f)
    ensures IsFactor(Negated(k, f))
    ensures ParseFactor(Minuses(k) + Print(f) + rest, checked) == Success(Parsed(Negated(k, f), rest))
  {
    if k == 0 {
      FactorRoundTrip(f, rest, checked);
      assert Minuses(0) + Print(f) + rest == Print(f) + rest;
    } else {
      MinusesNegate(k - 1, f, rest, checked);
      var m, tail := Minuses(k - 1), Minuses(k - 1) + Print(f) + rest;
      Regroup([Minus], m, Print(f));
      Regroup([Minus], m + Print(f), rest);
      assert Minuses(k) + Print(f) + rest == [Minus] + tail;
      assert ([Minus] + tail)[1..] == tail;
    }
  }

  /** Tokens left after a complete expression are "Invalid expression",
      unless they continue it with an operator. */
  lemma TrailingTokens(e: Expr, rest: seq<Token>, checked: bool)
    requires IsExpr(e) && rest != [] && NoTermOperator(rest) && NoExprOperator(rest)
    ensures ParseAll(Print(e) + rest, checked) == Failure(InvalidExpression)
  {
    ExprRoundTrip(e, rest, checked);
  }

  /** Two trees printed side by side are not one expression, unless the
      second starts with `-` and so reads as a subtraction: a printed tree
      starts with `(`, `-` or a number, none of which continues the first. */
  lemma AdjacentTrees(a: Expr, b: Expr, checked: bool)
    requires IsExpr(a) && IsExpr(b) && Print(b)[0] != Minus
    ensures ParseAll(Print(a) + Print(b), checked) == Failure(InvalidExpression)
  {
    TrailingTokens(a, Print(b), checked);
  }

  /** An expression followed by `+` or `-` and nothing else lacks its right
      operand. */
  lemma MissingOperand(e: Expr, op: Token, checked: bool)
    requires IsExpr(e) && (op == Plus || op == Minus)
    ensures ParseAll(Print(e) + [op], checked) == Failure(ExpectedNothing("number"))
  {
    ExprRoundTrip(e, [op], checked);
    assert [op][1..] == [];
  }

  /** An opening parenthesis whose expression runs to the end of the input
      lacks its closing token. */
  lemma MissingClose(e: Expr, checked: bool)
    requires IsExpr(e)
    ensures ParseAll([LP] + Print(e), checked) == Failure(ExpectedNothing(")"))
  {
    ExprRoundTrip(e, [], checked);
    assert ([LP] + Print(e))[1..] == Print(e) + [];
    assert ParseFactor([LP] + Print(e), checked) == Failure(ExpectedNothing(")"));
    assert ParseTerm([LP] + Print(e), checked) == Failure(ExpectedNothing(")"));
    assert ParseExpr([LP] + Print(e), checked) == Failure(ExpectedNothing(")"));
  }

  /** A token that cannot start a factor where one must start. */
  lemma UnexpectedToken(toks: seq<Token>, checked: bool)
    requires toks != [] && toks[0] != LP && toks[0] != Minus && !toks[0].Number?
    ensures ParseAll(toks, checked) == Failure(ExpectedGot("number", toks[0]))
  {
    assert ParseFactor(toks, checked) == Failure(ExpectedGot("number", toks[0]));
    assert ParseTerm(toks, checked) == Failure(ExpectedGot("number", toks[0]));
  }

  // The source's own tests, on the tokens the lexer gives for each input.
  // That the lexer gives these tokens follows from
  // LexerProps.SpacedRoundTrip, which covers every such text.

  /** "12+3", "12-3", "12*3" and "12/3". */
  lemma BinaryExamples(add: seq<Token>, sub: seq<Token>, mul: seq<Token>, div: seq<Token>)
    requires add == [Number(12), Plus, Number(3)] && sub == [Number(12), Minus, Number(3)]
    requires mul == [Number(12), Times, Number(3)] && div == [Number(12), Division, Number(3)]
    ensures ParseAll(add, false) == Success(AST(BinOp(Num(12), Num(3), Plus)))
    ensures ParseAll(sub, false) == Success(AST(BinOp(Num(12), Num(3), Minus)))
    ensures ParseAll(mul, false) == Success(AST(BinOp(Num(12), Num(3), Times)))
    ensures ParseAll(div, false) == Success(AST(BinOp(Num(12), Num(3), Division)))
  {
    assert ParseAll(add, false) == Success(AST(BinOp(Num(12), Num(3), Plus))) by {
      assert IsExpr(BinOp(Num(12), Num(3), Plus)) && Print(BinOp(Num(12), Num(3), Plus)) == add;
      PrintRoundTrip(BinOp(Num(12), Num(3), Plus), false);
    }
    assert ParseAll(sub, false) == Success(AST(BinOp(Num(12), Num(3), Minus))) by {
      assert IsExpr(BinOp(Num(12), Num(3), Minus)) && Print(BinOp(Num(12), Num(3), Minus)) == sub;
      PrintRoundTrip(BinOp(Num(12), Num(3), Minus), false);
    }
    assert ParseAll(mul, false) == Success(AST(BinOp(Num(12), Num(3), Times))) by {
      assert IsExpr(BinOp(Num(12), Num(3), Times)) && Print(BinOp(Num(12), Num(3), Times)) == mul;
      PrintRoundTrip(BinOp(Num(12), Num(3), Times), false);
    }
    assert ParseAll(div, false) == Success(AST(BinOp(Num(12), Num(3), Division))) by {
      assert IsExpr(BinOp(Num(12), Num(3), Division)) && Print(BinOp(Num(12), Num(3), Division)) == div;
      PrintRoundTrip(BinOp(Num(12), Num(3), Division), false);
    }
  }

  /** "12", "-12" and "((12))". */
  lemma NumberExamples(num: seq<Token>, neg: seq<Token>, pair: seq<Token>)
    requires num == [Number(12)] && neg == [Minus, Number(12)] && pair == [LP, LP, Number(12), RP, RP]
    ensures ParseAll(num, false) == Success(AST(Num(12)))
    ensures ParseAll(neg, false) == Success(AST(Neg(Num(12))))
    ensures ParseAll(pair, false) == Success(AST(Pair(Pair(Num(12)))))
  {
    assert ParseAll(num, false) == Success(AST(Num(12))) by {
      assert IsExpr(Num(12)) && Print(Num(12)) == num;
      PrintRoundTrip(Num(12), false);
    }
    assert ParseAll(neg, false) == Success(AST(Neg(Num(12)))) by {
      assert IsExpr(Neg(Num(12))) && Print(Neg(Num(12))) == neg;
      PrintRoundTrip(Neg(Num(12)), false);
    }
    assert ParseAll(pair, false) == Success(AST(Pair(Pair(Num(12))))) by {
      assert IsExpr(Pair(Pair(Num(12)))) && Print(Pair(Pair(Num(12)))) == pair;
      PrintRoundTrip(Pair(Pair(Num(12))), false);
    }
  }

  /** "1+3*6" and "6/(2-3)". */
  lemma PriorityExamples(sum: seq<Token>, quot: seq<Token>)
    requires sum == [Number(1), Plus, Number(3), Times, Number(6)]
    requires quot == [Number(6), Division, LP, Number(2), Minus, Number(3), RP]
    ensures ParseAll(sum, false) == Success(AST(BinOp(Num(1), BinOp(Num(3), Num(6), Times), Plus)))
    ensures ParseAll(quot, false) == Success(AST(BinOp(Num(6), Pair(BinOp(Num(2), Num(3), Minus)), Division)))
  {
    assert ParseAll(sum, false) == Success(AST(BinOp(Num(1), BinOp(Num(3), Num(6), Times), Plus))) by {
      TermsBindTighter(Num(1), Num(3), Num(6), Plus, Times, false);
      assert sum == Print(Num(1)) + [Plus] + Print(Num(3)) + [Times] + Print(Num(6));
    }
    assert ParseAll(quot, false) == Success(AST(BinOp(Num(6), Pair(BinOp(Num(2), Num(3), Minus)), Division))) by {
      var e := BinOp(Num(6), Pair(BinOp(Num(2), Num(3), Minus)), Division);
      assert IsExpr(e) && Print(e) == quot;
      PrintRoundTrip(e, false);
    }
  }

  /** "-7--2", "---7" and "-(1+2)". */
  lemma NegationExamples(diff: seq<Token>, triple: seq<Token>, group: seq<Token>)
    requires diff == [Minus, Number(7), Minus, Minus, Number(2)]
    requires triple == [Minus, Minus, Minus, Number(7)]
    requires group == [Minus, LP, Number(1), Plus, Number(2), RP]
    ensures ParseAll(diff, false) == Success(AST(BinOp(Neg(Num(7)), Neg(Num(2)), Minus)))
    ensures ParseAll(triple, false) == Success(AST(Neg(Neg(Neg(Num(7))))))
    ensures ParseAll(group, false) == Success(AST(Neg(Pair(BinOp(Num(1), Num(2), Plus)))))
  {
    assert ParseAll(diff, false) == Success(AST(BinOp(Neg(Num(7)), Neg(Num(2)), Minus))) by {
      var e := BinOp(Neg(Num(7)), Neg(Num(2)), Minus);
      assert IsExpr(e) && Print(e) == diff;
      PrintRoundTrip(e, false);
    }
    assert ParseAll(triple, false) == Success(AST(Neg(Neg(Neg(Num(7)))))) by {
      var e := Neg(Neg(Neg(Num(7))));
      assert IsExpr(e) && Print(e) == triple;
      PrintRoundTrip(e, false);
    }
    assert ParseAll(group, false) == Success(AST(Neg(Pair(BinOp(Num(1), Num(2), Plus))))) by {
      var e := Neg(Pair(BinOp(Num(1), Num(2), Plus)));
      assert IsExpr(e) && Print(e) == group;
      PrintRoundTrip(e, false);
    }
  }

  /** "1+", "+" and "(": a factor is missing or cannot start. */
  lemma ExpectNumberExamples(add: seq<Token>, plus: seq<Token>, open: seq<Token>)
    requires add == [Number(1), Plus] && plus == [Plus] && open == [LP]
    ensures ParseAll(add, false) == Failure(ExpectedNothing("number"))
    ensures ParseAll(plus, false) == Failure(ExpectedGot("number", Plus))
    ensures ParseAll(open, false) == Failure(ExpectedNothing("number"))
  {
    assert ParseAll(add, false) == Failure(ExpectedNothing("number")) by {
      assert Print(Num(1)) + [Plus] == add;
      MissingOperand(Num(1), Plus, false);
    }
    assert ParseAll(plus, false) == Failure(ExpectedGot("number", Plus)) by {
      UnexpectedToken(plus, false);
    }
    assert ParseAll(open, false) == Failure(ExpectedNothing("number")) by {
      assert open[1..] == [];
      assert ParseFactor(open, false) == Failure(ExpectedNothing("number"));
      assert ParseTerm(open, false) == Failure(ExpectedNothing("number"));
      assert ParseExpr(open, false) == Failure(ExpectedNothing("number"));
    }
  }

  /** "(((2))", "(2)(1)" and "(())". */
  lemma PairErrorExamples(unclosed: seq<Token>, twice: seq<Token>, empty: seq<Token>)
    requires unclosed == [LP, LP, LP, Number(2), RP, RP]
    requires twice == [LP, Number(2), RP, LP, Number(1), RP]
    requires empty == [LP, LP, RP, RP]
    ensures ParseAll(unclosed, false) == Failure(ExpectedNothing(")"))
    ensures ParseAll(twice, false) == Failure(InvalidExpression)
    ensures ParseAll(empty, false) == Failure(ExpectedGot("number", RP))
  {
    assert ParseAll(unclosed, false) == Failure(ExpectedNothing(")")) by {
      assert IsExpr(Pair(Pair(Num(2)))) && [LP] + Print(Pair(Pair(Num(2)))) == unclosed;
      MissingClose(Pair(Pair(Num(2))), false);
    }
    assert ParseAll(twice, false) == Failure(InvalidExpression) by {
      assert Print(Pair(Num(2))) + Print(Pair(Num(1))) == twice;
      AdjacentTrees(Pair(Num(2)), Pair(Num(1)), false);
    }
    assert ParseAll(empty, false) == Failure(ExpectedGot("number", RP)) by {
      UnexpectedToken(empty[2..], false);
      assert empty[1..][1..] == empty[2..];
      assert ParseFactor(empty[1..], false) == Failure(ExpectedGot("number", RP));
      assert ParseTerm(empty[1..], false) == Failure(ExpectedGot("number", RP));
      assert ParseFactor(empty, false) == Failure(ExpectedGot("number", RP));
      assert ParseTerm(empty, false) == Failure(ExpectedGot("number", RP));
    }
  }

  /** The messages the source's tests compare against. */
  lemma NothingMessages()
    ensures ExpectedNothing("number").Message() == "Expect number, got nothing"
    ensures ExpectedNothing(")").Message() == "Expect ), got nothing"
  {
  }

  lemma InvalidMessage()
    ensures InvalidExpression.Message() == "Invalid expression"
  {
  }

  lemma GotMessages()
    ensures ExpectedGot("number", Plus).Message() == "Expect number, got +"
    ensures ExpectedGot("number", RP).Message() == "Expect number, got )"
  {
  }
}
