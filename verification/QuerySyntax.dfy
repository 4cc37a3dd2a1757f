/** The boolean queries of intarray (contrib/intarray/_int_bool.c): what a query means, and
    the grammar of its text as the reader of the documentation knows it. */
module QuerySyntax {

  datatype Op = Not | And | Or

  /** A node of the polish notation: type VAL with a number, or type OPR with an
      operator. */
  datatype Node = Val(val: int) | Opr(op: Op)

  datatype Token = TVal(val: int) | TOpr(op: Op) | TOpen | TClose | TEnd | TErr

  // ---------------------------------------------------------------- formulas

  datatype Formula =
    | FVal(v: int)
    | FNot(arg: Formula)
    | FBin(conj: bool, left: Formula, right: Formula)

  /** The operator that joins two operands: `&` or `|`. */
  function Connective(conj: bool): Op { if conj then And else Or }

  function Truth(f: Formula, holds: int -> bool): bool
  {
    match f
    case FVal(v) => holds(v)
    case FNot(a) => !Truth(a, holds)
    case FBin(conj, l, r) =>
      if conj then Truth(l, holds) && Truth(r, holds) else Truth(l, holds) || Truth(r, holds)
  }

  function Size(f: Formula): (n: nat)
    ensures n >= 1
  {
    match f
    case FVal(v) => 1
    case FNot(a) => Size(a) + 1
    case FBin(_, l, r) => Size(l) + Size(r) + 1
  }

  /** Operands before operators. */
  function Postfix(f: Formula): (p: seq<Node>)
    ensures |p| == Size(f)
  {
    match f
    case FVal(v) => [Val(v)]
    case FNot(a) => Postfix(a) + [Opr(Not)]
    case FBin(conj, l, r) => Postfix(l) + Postfix(r) + [Opr(Connective(conj))]
  }

  // ---------------------------------------------------------------- the grammar

  /** expression ::= term | expression '|' term */
  datatype Expr = Term(t: Conj) | Alt(e: Expr, t: Conj)
  /** term ::= factor | term '&' factor */
  datatype Conj = Fac(f: Factor) | Both(c: Conj, f: Factor)
  /** factor ::= number | '!' factor | '(' expression ')' */
  datatype Factor = Num(v: int) | Neg(f: Factor) | Paren(e: Expr)

  function ExprTokens(e: Expr): seq<Token>
  {
    match e
    case Term(t) => ConjTokens(t)
    case Alt(e1, t) => ExprTokens(e1) + [TOpr(Or)] + ConjTokens(t)
  }

  function ConjTokens(c: Conj): seq<Token>
  {
    match c
    case Fac(f) => FactorTokens(f)
    case Both(c1, f) => ConjTokens(c1) + [TOpr(And)] + FactorTokens(f)
  }

  function FactorTokens(f: Factor): seq<Token>
  {
    match f
    case Num(v) => [TVal(v)]
    case Neg(g) => [TOpr(Not)] + FactorTokens(g)
    case Paren(e) => [TOpen] + ExprTokens(e) + [TClose]
  }

  function ExprFormula(e: Expr): Formula
  {
    match e
    case Term(t) => ConjFormula(t)
    case Alt(e1, t) => FBin(false, ExprFormula(e1), ConjFormula(t))
  }

  function ConjFormula(c: Conj): Formula
  {
    match c
    case Fac(f) => FactorFormula(f)
    case Both(c1, f) => FBin(true, ConjFormula(c1), FactorFormula(f))
  }

  function FactorFormula(f: Factor): Formula
  {
    match f
    case Num(v) => FVal(v)
    case Neg(g) => FNot(FactorFormula(g))
    case Paren(e) => ExprFormula(e)
  }

  // ---------------------------------------------------------------- the operator stack

  const STACKDEPTH: nat := 16

  /** At most this many operators wait on one parenthesis level while a factor that starts
      with `base` waiting operators is read. */
  predicate FactorFits(f: Factor, base: nat, limit: nat)
  {
    match f
    case Num(v) => true
    case Neg(g) => base < limit && FactorFits(g, base + 1, limit)
    case Paren(e) => ExprFits(e, limit)
  }

  predicate ConjFits(c: Conj, base: nat, limit: nat)
  {
    match c
    case Fac(f) => FactorFits(f, base, limit)
    case Both(c1, f) => ConjFits(c1, base, limit) && base < limit && FactorFits(f, base + 1, limit)
  }

  predicate ExprFits(e: Expr, limit: nat)
  {
    match e
    case Term(t) => ConjFits(t, 0, limit)
    case Alt(e1, t) => ExprFits(e1, limit) && 0 < limit && ConjFits(t, 1, limit)
  }
}
