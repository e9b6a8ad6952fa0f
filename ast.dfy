/** The abstract syntax tree of an arithmetic expression (`parser::ast`).

    The Rust `Pair::new`, `BinOp::new`, `Neg::new` and `Number::new` build an
    `Expr` from their arguments and nothing else; here they are the datatype
    constructors `Pair`, `BinOp`, `Neg` and `Num`.  Equality is structural, as
    the derived `PartialEq` is. */
module Ast {
  import opened Lexer

  /** `expr`: a parenthesised expression, a binary operation, a negation or a
      number.  `Pair` keeps the parentheses as a node of its own. */
  datatype Expr =
    | Pair(expr: Expr)
    | BinOp(lhs: Expr, rhs: Expr, op: Token)
    | Neg(expr: Expr)
    | Num(num: u64)

  /** The tree a parser hands to the evaluator. */
  datatype AST = AST(root: Expr)

  /** The operators a `BinOp` is documented to carry: `+ - * /`. */
  predicate IsOperator(t: Token) {
    t == Plus || t == Minus || t == Times || t == Division
  }

  /** Every `BinOp` in `e` carries one of the four operators. */
  predicate OperatorsValid(e: Expr) {
    match e
    case Pair(x) => OperatorsValid(x)
    case BinOp(l, r, op) => IsOperator(op) && OperatorsValid(l) && OperatorsValid(r)
    case Neg(x) => OperatorsValid(x)
    case Num(_) => true
  }

  /** The tokens of `e` written out in full: an operator between its operands,
      `-` before a negated operand, parentheses around a `Pair`. */
  function Print(e: Expr): (toks: seq<Token>)
    ensures toks != []
    ensures toks[0] == LP || toks[0] == Minus || toks[0].Number?
  {
    match e
    case Pair(x) => [LP] + Print(x) + [RP]
    case BinOp(l, r, op) => Print(l) + [op] + Print(r)
    case Neg(x) => [Minus] + Print(x)
    case Num(n) => [Number(n)]
  }

  /** No `Pair` node occurs in `e`. */
  predicate PairFree(e: Expr) {
    match e
    case Pair(_) => false
    case BinOp(l, r, _) => PairFree(l) && PairFree(r)
    case Neg(x) => PairFree(x)
    case Num(_) => true
  }

  /** `e` with every `Pair` node removed: the result has none left, and a
      tree that had none comes back unchanged. */
  function StripPairs(e: Expr): (s: Expr)
    ensures PairFree(s)
    ensures PairFree(e) ==> s == e
  {
    match e
    case Pair(x) => StripPairs(x)
    case BinOp(l, r, op) => BinOp(StripPairs(l), StripPairs(r), op)
    case Neg(x) => Neg(StripPairs(x))
    case Num(n) => Num(n)
  }
}
