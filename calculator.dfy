/** The integer evaluator of `generator::calculator`: structural recursion over
    the tree, left operand before right operand, with Rust's truncating
    integer division.

    The Rust evaluator returns an `i128`, prints a warning when a division
    discards a remainder, and panics on a division by zero or a token that is
    not an operator.  Here its outcome is a value, or the fault it panics
    with, together with the number of warnings it printed before it returned
    or panicked. */
module Generator {
  import opened Wrappers
  import opened Lexer
  import opened Ast

  /** Why the evaluator panics. */
  datatype Fault = DivisionByZero | UnknownOperator

  /** A value or a panic, and the warnings printed on the way there. */
  datatype Outcome =
    | Value(value: int, warnings: nat)
    | Panic(fault: Fault, warnings: nat)

  function Abs(a: int): nat {
    if a < 0 then -a else a
  }

  /** Rust's `/` on integers: the quotient rounded toward zero. */
  function TruncDiv(a: int, b: int): int
    requires b != 0
  {
    var q := Abs(a) / Abs(b);
    if (a < 0) == (b < 0) then q else -q
  }

  /** Rust's `%` on integers: the remainder of `TruncDiv`, with the sign of the
      dividend. */
  function TruncRem(a: int, b: int): int
    requires b != 0
  {
    a - b * TruncDiv(a, b)
  }

  lemma TruncProduct(a: int, b: int)
    requires b != 0
    ensures b * TruncDiv(a, b) == (if a < 0 then -(Abs(b) * (Abs(a) / Abs(b))) else Abs(b) * (Abs(a) / Abs(b)))
  {
    var q := Abs(a) / Abs(b);
    var B := Abs(b);
    if b < 0 {
      assert b == -B;
      if a < 0 {
        assert TruncDiv(a, b) == q;
        assert b * q == -(B * q);
      } else {
        assert TruncDiv(a, b) == -q;
        assert b * -q == B * q;
      }
    } else {
      assert b == B;
      if a < 0 {
        assert TruncDiv(a, b) == -q;
        assert b * -q == -(B * q);
      }
    }
  }

  /** The two define truncating division: the dividend is the divisor times
      the quotient plus the remainder, the remainder is smaller than the
      divisor in magnitude, and it is zero or has the dividend's sign (so the
      quotient is rounded toward zero). */
  lemma TruncDivision(a: int, b: int)
    requires b != 0
    ensures a == b * TruncDiv(a, b) + TruncRem(a, b)
    ensures Abs(TruncRem(a, b)) < Abs(b)
    ensures TruncRem(a, b) == 0 || (TruncRem(a, b) < 0 <==> a < 0)
    ensures Abs(TruncDiv(a, b)) == Abs(a) / Abs(b)
  {
    var A, B := Abs(a), Abs(b);
    var q: int, m: int := A / B, A % B;
    assert A == B * q + m && 0 <= m < B;
    TruncProduct(a, b);
    assert b * TruncDiv(a, b) == (if a < 0 then -(B * q) else B * q);
    assert TruncRem(a, b) == (if a < 0 then -m else m);
  }

  /** For a non-negative dividend and a positive divisor, Rust's and Dafny's
      division agree. */
  lemma TruncDivNatural(a: nat, b: int)
    requires b > 0
    ensures TruncDiv(a, b) == a / b && TruncRem(a, b) == a % b
  {
  }

  /** The operator arm of `BinOp::calculate`, applied to the operands' values;
      `w` is the number of warnings the operands printed. */
  function Apply(op: Token, a: int, b: int, w: nat): Outcome {
    match op
    case Plus => Value(a + b, w)
    case Minus => Value(a - b, w)
    case Times => Value(a * b, w)
    case Division =>
      if b == 0 then Panic(DivisionByZero, w)
      else Value(TruncDiv(a, b), if TruncRem(a, b) != 0 then w + 1 else w)
    case _ => Panic(UnknownOperator, w)
  }

  /** `Expr::calculate`.  Both operands of a `BinOp` are evaluated, left
      first, before its operator is looked at; a panic ends the evaluation
      with the warnings printed so far. */
  function Calculate(e: Expr): Outcome {
    match e
    case Pair(x) => Calculate(x)
    case Neg(x) =>
      (match Calculate(x)
       case Value(v, w) => Value(-v, w)
       case Panic(f, w) => Panic(f, w))
    case Num(n) => Value(n as int, 0)
    case BinOp(l, r, op) =>
      match Calculate(l)
      case Panic(f, w) => Panic(f, w)
      case Value(a, w1) =>
        match Calculate(r)
        case Panic(f, w2) => Panic(f, w1 + w2)
        case Value(b, w2) => Apply(op, a, b, w1 + w2)
  }

  /** `AST::calculate` and `calculate`: the value of the root. */
  function CalculateAst(ast: AST): Outcome {
    Calculate(ast.root)
  }
}
