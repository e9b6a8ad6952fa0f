/** What the integer evaluator promises: every operator is exact except
    division, which rounds toward zero and warns exactly when it rounds; an
    evaluation without warnings gives the expression's exact rational value;
    parentheses are transparent; the left operand is evaluated first. */
module CalculatorProps {
  import opened Wrappers
  import opened Lexer
  import opened Ast
  import opened Generator

  /** The number of division nodes of `e`. */
  function Divisions(e: Expr): nat {
    match e
    case Pair(x) => Divisions(x)
    case Neg(x) => Divisions(x)
    case Num(_) => 0
    case BinOp(l, r, op) => Divisions(l) + Divisions(r) + (if op == Division then 1 else 0)
  }

  /** An operator applied in exact rational arithmetic; no value for a division
      by zero or a token that is not an operator. */
  function RealApply(op: Token, a: real, b: real): Option<real> {
    match op
    case Plus => Some(a + b)
    case Minus => Some(a - b)
    case Times => Some(a * b)
    case Division => if b == 0.0 then None else Some(a / b)
    case _ => None
  }

  /** The value `e` denotes in exact rational arithmetic, the reference the
      evaluator's warning compares against. */
  function RealValue(e: Expr): Option<real> {
    match e
    case Pair(x) => RealValue(x)
    case Neg(x) =>
      (match RealValue(x)
       case Some(v) => Some(-v)
       case None => None)
    case Num(n) => Some(n as real)
    case BinOp(l, r, op) =>
      (match RealValue(l)
       case None => None
       case Some(a) =>
         (match RealValue(r)
          case None => None
          case Some(b) => RealApply(op, a, b)))
  }

  /** A division warns exactly when the quotient, rounded toward zero, does
      not multiply back to the dividend; it panics when the divisor is zero. */
  lemma DivisionWarning(a: int, b: int, w: nat)
    ensures b == 0 ==> Apply(Division, a, b, w) == Panic(DivisionByZero, w)
    ensures b != 0 ==> Apply(Division, a, b, w).Value?
    ensures b != 0 ==> Apply(Division, a, b, w).value == TruncDiv(a, b)
    ensures b != 0 ==> (Apply(Division, a, b, w).warnings == w + 1 <==> b * TruncDiv(a, b) != a)
    ensures b != 0 ==> (Apply(Division, a, b, w).warnings == w <==> b * TruncDiv(a, b) == a)
  {
  }

  /** Each division warns at most once, and nothing else warns. */
  lemma {:induction false} WarningsBounded(e: Expr)
    ensures Calculate(e).warnings <= Divisions(e)
  {
    match e
    case Pair(x) => WarningsBounded(x);
    case Neg(x) => WarningsBounded(x);
    case Num(_) =>
    case BinOp(l, r, op) =>
      WarningsBounded(l);
      WarningsBounded(r);
  }

  /** A tree built from the four operators never panics with "Unknown
      operator", and without divisions it always has a value and prints no
      warning. */
  lemma {:induction false} OperatorsNeverUnknown(e: Expr)
    requires OperatorsValid(e)
    ensures Calculate(e).Panic? ==> Calculate(e).fault == DivisionByZero && Divisions(e) > 0
    ensures Divisions(e) == 0 ==> Calculate(e).Value? && Calculate(e).warnings == 0
  {
    match e
    case Pair(x) => OperatorsNeverUnknown(x);
    case Neg(x) => OperatorsNeverUnknown(x);
    case Num(_) =>
    case BinOp(l, r, op) =>
      OperatorsNeverUnknown(l);
      OperatorsNeverUnknown(r);
  }

  /** Integers embed exactly into the rationals, products included. */
  lemma RealOfProduct(a: int, b: int)
    ensures (a * b) as real == (a as real) * (b as real)
  {
  }

  /** An exact integer quotient is the rational quotient. */
  lemma RealQuotient(a: int, b: int, q: int)
    requires b != 0 && b * q == a
    ensures (a as real) / (b as real) == q as real
  {
    RealOfProduct(b, q);
    assert (a as real) == (b as real) * (q as real);
  }

  /** One operator node without a warning computes the exact rational
      result; it panics exactly when the exact result is undefined. */
  lemma ApplyExact(op: Token, a: int, b: int)
    requires Apply(op, a, b, 0).warnings == 0
    ensures Apply(op, a, b, 0).Value? ==> RealApply(op, a as real, b as real) == Some(Apply(op, a, b, 0).value as real)
    ensures Apply(op, a, b, 0).Panic? ==> RealApply(op, a as real, b as real) == None
  {
    match op
    case Times =>
      assert Apply(op, a, b, 0) == Value(a * b, 0);
      RealOfProduct(a, b);
      assert RealApply(op, a as real, b as real) == Some((a * b) as real);
    case Division =>
      if b != 0 {
        TruncDivision(a, b);
        RealQuotient(a, b, TruncDiv(a, b));
      }
    case _ =>
  }

  /** An evaluation that prints no warning is exact: its value is the
      expression's rational value, and it panics exactly when that value is
      undefined. */
  lemma {:induction false} ExactWithoutWarnings(e: Expr)
    requires Calculate(e).warnings == 0
    ensures Calculate(e).Value? ==> RealValue(e) == Some(Calculate(e).value as real)
    ensures Calculate(e).Panic? ==> RealValue(e) == None
  {
    match e
    case Pair(x) => ExactWithoutWarnings(x);
    case Neg(x) => ExactWithoutWarnings(x);
    case Num(_) =>
    case BinOp(l, r, op) =>
      WarningsMonotone(l, r, op);
      ExactWithoutWarnings(l);
      if Calculate(l).Value? {
        ExactWithoutWarnings(r);
        if Calculate(r).Value? {
          ApplyExact(op, Calculate(l).value, Calculate(r).value);
        }
      }
  }

  /** The warnings of a `BinOp` include those of the operands it evaluated. */
  lemma WarningsMonotone(l: Expr, r: Expr, op: Token)
    ensures Calculate(l).warnings <= Calculate(BinOp(l, r, op)).warnings
    ensures Calculate(l).Value? ==> Calculate(l).warnings + Calculate(r).warnings <= Calculate(BinOp(l, r, op)).warnings
  {
  }

  /** The left operand is evaluated first: if it panics, the right operand
      is never looked at and its warnings are never printed. */
  lemma LeftPanicFirst(l: Expr, r: Expr, op: Token)
    requires Calculate(l).Panic?
    ensures Calculate(BinOp(l, r, op)) == Calculate(l)
  {
  }

  /** A panic in the right operand keeps the left operand's warnings, and the
      operator is never applied. */
  lemma RightPanicSecond(l: Expr, r: Expr, op: Token)
    requires Calculate(l).Value? && Calculate(r).Panic?
    ensures Calculate(BinOp(l, r, op))
         == Panic(Calculate(r).fault, Calculate(l).warnings + Calculate(r).warnings)
  {
  }

  /** Parentheses are transparent: removing every `Pair` changes nothing. */
  lemma {:induction false} PairsTransparent(e: Expr)
    ensures Calculate(StripPairs(e)) == Calculate(e)
  {
    match e
    case Pair(x) => PairsTransparent(x);
    case Neg(x) => PairsTransparent(x);
    case Num(_) =>
    case BinOp(l, r, op) =>
      PairsTransparent(l);
      PairsTransparent(r);
  }

  /** Negating twice gives back the operand's outcome. */
  lemma DoubleNegation(e: Expr)
    ensures Calculate(Neg(Neg(e))) == Calculate(e)
  {
  }

  /** A number is its `u64` value widened, so never negative and below 2^64. */
  lemma NumberWidened(n: u64)
    ensures Calculate(Num(n)) == Value(n as int, 0)
    ensures 0 <= Calculate(Num(n)).value < U64Limit
  {
  }

  /** The source's tests of the evaluator. */
  lemma ArithmeticExamples()
    ensures CalculateAst(AST(Num(3))) == Value(3, 0)
    ensures CalculateAst(AST(BinOp(Num(1), Num(2), Plus))) == Value(3, 0)
    ensures CalculateAst(AST(BinOp(Num(1), Num(2), Minus))) == Value(-1, 0)
    ensures CalculateAst(AST(BinOp(Num(1), Num(2), Times))) == Value(2, 0)
  {
  }

  lemma DivisionExamples()
    ensures CalculateAst(AST(BinOp(Num(4), Num(2), Division))) == Value(2, 0)
    ensures CalculateAst(AST(BinOp(Num(3), Num(2), Division))) == Value(1, 1)
    ensures CalculateAst(AST(BinOp(Num(3), Num(0), Division))) == Panic(DivisionByZero, 0)
  {
    TruncDivNatural(4, 2);
    TruncDivNatural(3, 2);
  }

  lemma NegationExamples()
    ensures CalculateAst(AST(Neg(Num(3)))) == Value(-3, 0)
    ensures CalculateAst(AST(Neg(Neg(Num(3))))) == Value(3, 0)
    ensures CalculateAst(AST(BinOp(Neg(Neg(Num(3))), Neg(Neg(Num(3))), Minus))) == Value(0, 0)
    ensures CalculateAst(AST(Pair(Num(3)))) == Value(3, 0)
    ensures CalculateAst(AST(Pair(Pair(Num(3))))) == Value(3, 0)
  {
  }
}
