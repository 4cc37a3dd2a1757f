/** Printing an intarray query, and reading the printed text again. */
module QueryPrint {
  import opened Options
  import opened Int32
  import opened Doubling
  import opened QuerySyntax
  import opened QueryText
  import opened QuerySpell
  import opened QueryEval

  // ---------------------------------------------------------------- the printer

  function DigitChar(d: nat): char
    requires d < 10
  {
    (d + 48) as char
  }

  function Unsigned(n: nat): (s: string)
    ensures s != []
  {
    if n < 10 then [DigitChar(n)] else Unsigned(n / 10) + [DigitChar(n % 10)]
  }

  /** `sprintf("%d")` */
  function Decimal(v: int): string
  {
    if v < 0 then "-" + Unsigned(-v) else Unsigned(v)
  }

  function Sign(conj: bool): string { if conj then "&" else "|" }

  function Wrapped(s: string): string { "( " + s + " )" }

  function Print(f: Formula, first: bool): string
  {
    match f
    case FVal(v) => Decimal(v)
    case FNot(a) => "!" + if a.FVal? then Print(a, false) else Wrapped(Print(a, true))
    case FBin(conj, l, r) =>
      var body := Print(l, false) + (" " + Sign(conj) + " ") + Print(r, false);
      if !conj && !first then Wrapped(body) else body
  }

  predicate Fitting(f: Formula)
  {
    match f
    case FVal(v) => Fits32(v)
    case FNot(a) => Fitting(a)
    case FBin(_, l, r) => Fitting(l) && Fitting(r)
  }

  // ---------------------------------------------------------------- room for the text

  /** Texts from this length on would need a buffer beyond the allocation limit. */
  const TEXTMAX: int := 0x1FFF_FFFF

  const BUFLEN: int := 16

  lemma {:induction false} BufLimit(size: int, k: nat)
    requires Doubled(size, BUFLEN, k) && k <= 25
    ensures if k == 25 then size == TEXTMAX + 1 && 2 * size > MAXALLOC
      else 2 * size <= MAXALLOC && size <= TEXTMAX && Doubled(2 * size, BUFLEN, k + 1)
  {
    Pow2Values();
    if k < 25 {
      Pow2Monotone(k + 1, 25);
    }
  }

  /** The room asked for a number, whatever its length. */
  const NUMROOM: int := 11

  /** How much is printed before the first number. */
  function Lead(f: Formula, first: bool): nat
  {
    match f
    case FVal(v) => 0
    case FNot(a) => if a.FVal? then 1 else 3 + Lead(a, true)
    case FBin(conj, l, r) => if !conj && !first then 2 + Lead(l, false) else Lead(l, false)
  }

  /** What is opened before the first number is closed behind it. */
  lemma {:induction false} LeadBound(f: Formula, first: bool)
    ensures 5 * Lead(f, first) <= 3 * |Print(f, first)| + 2
  {
    match f
    case FVal(v) =>
    case FNot(a) =>
      if !a.FVal? {
        LeadBound(a, true);
        assert |Print(f, first)| == |Print(a, true)| + 5;
      } else {
        assert |Print(a, false)| >= 1;
      }
    case FBin(conj, l, r) =>
      LeadBound(l, false);
      assert |Print(f, first)| >= |Print(l, false)| + if !conj && !first then 7 else 3;
  }

  /** Room for an operand printed from a place on. */
  predicate Enough(at: int, f: Formula, first: bool)
  {
    at + |Print(f, first)| < TEXTMAX && at + Lead(f, first) + NUMROOM < TEXTMAX
  }

  lemma {:induction false} EnoughAlone(f: Formula, first: bool)
    requires |Print(f, first)| < TEXTMAX
    ensures Enough(0, f, first)
  {
    LeadBound(f, first);
  }

  lemma {:induction false} DecimalLength(v: int)
    requires Fits32(v)
    ensures 1 <= |Decimal(v)| <= NUMROOM
  {
    Pow10Ten();
    UnsignedShape(if v < 0 then -v else v, 10);
  }

  class Infix {
    const nodes: seq<Node>
    var curpol: int
    var buf: string
    var buflen: int
    ghost var bufk: nat

    constructor (nodes: seq<Node>, curpol: int, buflen: int)
      requires buflen == BUFLEN || buflen == 2 * BUFLEN
      ensures this.nodes == nodes && this.curpol == curpol && buf == "" && Room()
    {
      this.nodes, this.curpol, buf := nodes, curpol, "";
      this.buflen, bufk := buflen, if buflen == BUFLEN then 0 else 1;
      assert Pow2(0) == 1 && Pow2(1) == 2 * Pow2(0);
    }

    /** The text fits in its buffer, with its closing NUL. */
    ghost predicate Room()
      reads this
    {
      |buf| < TEXTMAX && |buf| < buflen && bufk <= 25 && Doubled(buflen, BUFLEN, bufk)
    }

    /** RESIZEBUF, and the text printed behind it. */
    method Append(addsize: nat, s: string) returns (ok: bool)
      requires Room() && |s| <= addsize
      modifies this`buf, this`buflen, this`bufk
      ensures ok <==> |old(buf)| + addsize < TEXTMAX
      ensures ok ==> Room() && buf == old(buf) + s
    {
      while |buf| + addsize + 1 >= buflen
        invariant Room() && buf == old(buf)
        decreases 25 - bufk
      {
        BufLimit(buflen, bufk);
        if 2 * buflen > MAXALLOC {
          return false;
        }
        buflen, bufk := 2 * buflen, bufk + 1;
      }
      BufLimit(buflen, bufk);
      buf := buf + s;
      ok := true;
    }

    /** Appends the operand that ends at the current item, and moves to the item before
        it; fails for want of room only. */
    method Run(first: bool, ghost f: Formula) returns (ok: bool)
      requires Room() && NodesAt(nodes, curpol, f) && Fitting(f)
      modifies this
      ensures Enough(|old(buf)|, f, first) ==> ok
      ensures ok ==> Room() && curpol == old(curpol) - Size(f) && buf == old(buf) + Print(f, first)
      decreases f, 2
    {
      match nodes[curpol] {
        case Val(v) =>
          DecimalLength(v);
          ok := Append(NUMROOM, Decimal(v));
          curpol := curpol - 1;
        case Opr(Not) => ok := RunNot(first, f);
        case Opr(op) => ok := RunBinary(first, op, f);
      }
    }

    method RunNot(first: bool, ghost f: Formula) returns (ok: bool)
      requires Room() && NodesAt(nodes, curpol, f) && Fitting(f) && f.FNot?
      modifies this
      ensures Enough(|old(buf)|, f, first) ==> ok
      ensures ok ==> Room() && curpol == old(curpol) - Size(f) && buf == old(buf) + Print(f, first)
      decreases f, 1
    {
      if Enough(|buf|, f, first) {
        NotRoom(|buf|, f, first);
      }
      ok := Append(1, "!");
      if !ok {
        return;
      }
      curpol := curpol - 1;
      if nodes[curpol].Opr? {
        ok := RunWrapped(f.arg);
      } else {
        ok := Run(false, f.arg);
      }
      NotAssoc(old(buf), f, first);
    }

    /** An operand in parentheses. */
    method RunWrapped(ghost f: Formula) returns (ok: bool)
      requires Room() && NodesAt(nodes, curpol, f) && Fitting(f)
      modifies this
      ensures Enough(|old(buf)| + 2, f, true) && |old(buf)| + |Print(f, true)| + 4 < TEXTMAX ==> ok
      ensures ok ==> Room() && curpol == old(curpol) - Size(f) && buf == old(buf) + Wrapped(Print(f, true))
      decreases f, 3
    {
      ok := Append(2, "( ");
      if ok {
        ok := Run(true, f);
      }
      if ok {
        WrapAssoc(old(buf), Print(f, true));
        ok := Append(2, " )");
      }
    }

    method RunBinary(first: bool, op: Op, ghost f: Formula) returns (ok: bool)
      requires Room() && NodesAt(nodes, curpol, f) && Fitting(f) && f.FBin? && op == Connective(f.conj)
      modifies this
      ensures Enough(|old(buf)|, f, first) ==> ok
      ensures ok ==> Room() && curpol == old(curpol) - Size(f) && buf == old(buf) + Print(f, first)
      decreases f, 1
    {
      if Enough(|buf|, f, first) {
        BinaryRoom(|buf|, f, first);
      }
      curpol := curpol - 1;
      var parens := op == Or && !first;
      if parens {
        ok := Append(2, "( ");
        if !ok {
          return;
        }
      }
      ok := RunOperands(op, f);
      if ok && parens {
        WrapAssoc(old(buf), Body(f));
        ok := Append(2, " )");
      }
    }

    /** The right operand goes to a buffer of its own, the left one is printed before it. */
    method RunOperands(op: Op, ghost f: Formula) returns (ok: bool)
      requires Room() && f.FBin? && op == Connective(f.conj) && Fitting(f)
      requires NodesAt(nodes, curpol, f.right) && NodesAt(nodes, curpol - Size(f.right), f.left)
      modifies this
      ensures Enough(|old(buf)|, f.left, false) && |old(buf)| + |Body(f)| < TEXTMAX ==> ok
      ensures ok ==> Room() && curpol == old(curpol) - Size(f) + 1 && buf == old(buf) + Body(f)
      decreases f, 0
    {
      var right;
      ok, right, curpol := RightOperand(f.right);
      if ok {
        ok := Run(false, f.left);
      }
      if ok {
        var sign := " " + Sign(op == And) + " ";
        BinaryAssoc(old(buf), Print(f.left, false), sign, right);
        ok := Append(3 + |right|, sign + right);
      }
    }

    method RightOperand(ghost f: Formula) returns (ok: bool, text: string, pos: int)
      requires NodesAt(nodes, curpol, f) && Fitting(f)
      ensures |Print(f, false)| < TEXTMAX ==> ok
      ensures ok ==> text == Print(f, false) && pos == curpol - Size(f)
      decreases f, 3
    {
      var nrm := new Infix(nodes, curpol, BUFLEN);
      if |Print(f, false)| < TEXTMAX {
        EnoughAlone(f, false);
      }
      ok := nrm.Run(false, f);
      text, pos := nrm.buf, nrm.curpol;
      assert "" + Print(f, false) == Print(f, false);
    }
  }

  /** The text of a binary formula, without parentheses. */
  function Body(f: Formula): string
    requires f.FBin?
  {
    Print(f.left, false) + (" " + Sign(f.conj) + " ") + Print(f.right, false)
  }

  lemma {:induction false} NotRoom(at: int, f: Formula, first: bool)
    requires f.FNot? && Enough(at, f, first)
    ensures at + 1 < TEXTMAX
    ensures f.arg.FVal? ==> Enough(at + 1, f.arg, false)
    ensures !f.arg.FVal? ==> Enough(at + 3, f.arg, true) && at + 1 + |Print(f.arg, true)| + 4 < TEXTMAX
  {
  }

  lemma {:induction false} BinaryRoom(at: int, f: Formula, first: bool)
    requires f.FBin? && Enough(at, f, first)
    ensures var p := if !f.conj && !first then 2 else 0;
      && at + p < TEXTMAX && Enough(at + p, f.left, false) && at + p + |Body(f)| + p < TEXTMAX
  {
  }

  lemma {:induction false} BinaryAssoc(b: string, l: string, m: string, r: string)
    ensures b + l + (m + r) == b + (l + m + r)
  {
  }

  lemma {:induction false} NotAssoc(b: string, f: Formula, first: bool)
    requires f.FNot?
    ensures b + Print(f, first)
      == b + "!" + if f.arg.FVal? then Print(f.arg, false) else Wrapped(Print(f.arg, true))
  {
  }

  lemma {:induction false} WrapAssoc(b: string, s: string)
    ensures b + "( " + s + " )" == b + Wrapped(s)
  {
  }

  /** The output function of the type. */
  method BqarrOut(items: seq<Item>, ghost f: Formula) returns (text: Option<string>)
    requires QueryOf(items, f) && Fitting(f)
    ensures text == if |Print(f, true)| < TEXTMAX then Some(Print(f, true)) else None
  {
    var nodes := seq(|items|, i requires 0 <= i < |items| => items[i].node);
    LinksAreNodes(items, nodes, |items| - 1, f);
    var nrm := new Infix(nodes, |items| - 1, 2 * BUFLEN);
    if |Print(f, true)| < TEXTMAX {
      EnoughAlone(f, true);
    }
    var ok := nrm.Run(true, f);
    assert "" + Print(f, true) == Print(f, true);
    text := if ok then Some(nrm.buf) else None;
  }

  lemma {:induction false} LinksAreNodes(items: seq<Item>, nodes: seq<Node>, hi: int, f: Formula)
    requires LinksAt(items, hi, f) && HoldsNodes(items, nodes)
    ensures NodesAt(nodes, hi, f)
    decreases f
  {
    match f
    case FVal(_) =>
    case FNot(a) => LinksAreNodes(items, nodes, hi - 1, a);
    case FBin(_, l, r) =>
      LinksAreNodes(items, nodes, hi - 1, r);
      LinksAreNodes(items, nodes, hi - 1 - Size(r), l);
  }

  // ---------------------------------------------------------------- what was printed, as an expression of the grammar

  function Chain(c: Conj, d: Conj): Conj
  {
    match d
    case Fac(f) => Both(c, f)
    case Both(d1, f) => Both(Chain(c, d1), f)
  }

  function DocConj(f: Formula): Conj
    decreases f, 0
  {
    match f
    case FVal(v) => Fac(Num(v))
    case FNot(a) => Fac(Neg(if a.FVal? then Num(a.v) else Paren(DocExpr(a))))
    case FBin(conj, l, r) =>
      if conj then Chain(DocConj(l), DocConj(r)) else Fac(Paren(Alt(Term(DocConj(l)), DocConj(r))))
  }

  function DocExpr(f: Formula): Expr
    decreases f, 1
  {
    if f.FBin? && !f.conj then Alt(Term(DocConj(f.left)), DocConj(f.right)) else Term(DocConj(f))
  }

  lemma {:induction false} ChainTokens(c: Conj, d: Conj)
    ensures ConjTokens(Chain(c, d)) == ConjTokens(c) + [TOpr(And)] + ConjTokens(d)
  {
    if d.Both? {
      ChainTokens(c, d.c);
    }
  }

  lemma {:induction false} ChainTruth(c: Conj, d: Conj, holds: int -> bool)
    ensures Truth(ConjFormula(Chain(c, d)), holds) == (Truth(ConjFormula(c), holds) && Truth(ConjFormula(d), holds))
  {
    if d.Both? {
      ChainTruth(c, d.c, holds);
    }
  }

  /** Every factor fits behind two waiting operators. */
  predicate Simple(c: Conj)
  {
    match c
    case Fac(f) => FactorFits(f, 2, 3)
    case Both(c1, f) => Simple(c1) && FactorFits(f, 2, 3)
  }

  lemma {:induction false} FitsLess(f: Factor, b: nat, base: nat, limit: nat, max: nat)
    requires FactorFits(f, base, limit) && b <= base && limit <= max
    ensures FactorFits(f, b, max)
    decreases f
  {
    match f
    case Num(_) =>
    case Neg(g) => FitsLess(g, b + 1, base + 1, limit, max);
    case Paren(e) => ExprFitsLess(e, limit, max);
  }

  lemma {:induction false} ConjFitsLess(c: Conj, base: nat, limit: nat, max: nat)
    requires ConjFits(c, base, limit) && limit <= max
    ensures ConjFits(c, base, max)
    decreases c
  {
    match c
    case Fac(f) => FitsLess(f, base, base, limit, max);
    case Both(c1, f) =>
      ConjFitsLess(c1, base, limit, max);
      FitsLess(f, base + 1, base + 1, limit, max);
  }

  lemma {:induction false} ExprFitsLess(e: Expr, limit: nat, max: nat)
    requires ExprFits(e, limit) && limit <= max
    ensures ExprFits(e, max)
    decreases e
  {
    match e
    case Term(t) => ConjFitsLess(t, 0, limit, max);
    case Alt(e1, t) =>
      ExprFitsLess(e1, limit, max);
      ConjFitsLess(t, 1, limit, max);
  }

  lemma {:induction false} SimpleFits(c: Conj, base: nat)
    requires Simple(c) && base <= 1
    ensures ConjFits(c, base, 3)
  {
    match c
    case Fac(f) => FitsLess(f, base, 2, 3, 3);
    case Both(c1, f) =>
      SimpleFits(c1, base);
      FitsLess(f, base + 1, 2, 3, 3);
  }

  lemma {:induction false} ChainShape(c: Conj, d: Conj)
    requires Simple(c) && Simple(d)
    ensures Simple(Chain(c, d))
    ensures Size(ConjFormula(Chain(c, d))) == Size(ConjFormula(c)) + Size(ConjFormula(d)) + 1
    ensures ShortRight(ConjFormula(c)) && ShortRight(ConjFormula(d)) && Size(ConjFormula(d)) <= 0x7FFF
      ==> ShortRight(ConjFormula(Chain(c, d)))
  {
    if d.Both? {
      ChainShape(c, d.c);
    }
  }

  /** It is as large, needs at most three waiting operators per level, and has no longer
      right operands. */
  lemma {:induction false} DocShape(f: Formula)
    ensures Simple(DocConj(f)) && ExprFits(DocExpr(f), 3)
    ensures Size(ConjFormula(DocConj(f))) == Size(ExprFormula(DocExpr(f))) == Size(f)
    ensures ShortRight(f) ==> ShortRight(ConjFormula(DocConj(f))) && ShortRight(ExprFormula(DocExpr(f)))
    decreases f
  {
    match f
    case FVal(v) =>
    case FNot(a) =>
      DocShape(a);
      var g := if a.FVal? then Num(a.v) else Paren(DocExpr(a));
      assert FactorFits(g, 3, 3) && FactorFits(Neg(g), 2, 3);
      assert Size(FactorFormula(g)) == Size(a);
      SimpleFits(DocConj(f), 0);
    case FBin(conj, l, r) =>
      DocShape(l);
      DocShape(r);
      if conj {
        ChainShape(DocConj(l), DocConj(r));
        SimpleFits(DocConj(f), 0);
      } else {
        var e := Alt(Term(DocConj(l)), DocConj(r));
        SimpleFits(DocConj(l), 0);
        SimpleFits(DocConj(r), 1);
        assert ExprFits(Term(DocConj(l)), 3) && ExprFits(e, 3);
        assert ExprFormula(e) == FBin(false, ConjFormula(DocConj(l)), ConjFormula(DocConj(r)));
        assert FactorFits(Paren(e), 2, 3) && FactorFormula(Paren(e)) == ExprFormula(e);
      }
  }

  /** The printed expression has the meaning of the query. */
  lemma {:induction false} DocTruth(f: Formula, holds: int -> bool)
    ensures Truth(ConjFormula(DocConj(f)), holds) == Truth(f, holds)
    ensures Truth(ExprFormula(DocExpr(f)), holds) == Truth(f, holds)
    decreases f
  {
    match f
    case FVal(v) =>
    case FNot(a) =>
      DocTruth(a, holds);
      var g := if a.FVal? then Num(a.v) else Paren(DocExpr(a));
      assert FactorFormula(g) == if a.FVal? then a else ExprFormula(DocExpr(a));
      assert ConjFormula(DocConj(f)) == FNot(FactorFormula(g));
    case FBin(conj, l, r) =>
      DocTruth(l, holds);
      DocTruth(r, holds);
      if conj {
        ChainTruth(DocConj(l), DocConj(r), holds);
      } else {
        var e := Alt(Term(DocConj(l)), DocConj(r));
        assert ConjFormula(Fac(Paren(e))) == FactorFormula(Paren(e)) == ExprFormula(e);
        assert ExprFormula(e) == FBin(false, ConjFormula(DocConj(l)), ConjFormula(DocConj(r)));
      }
  }

  // ---------------------------------------------------------------- reading it again

  /** The tokens of the printed text. */
  function DocTokens(f: Formula, first: bool): seq<Token>
  {
    match f
    case FVal(v) => [TVal(v)]
    case FNot(a) =>
      [TOpr(Not)] + if a.FVal? then [TVal(a.v)] else [TOpen] + DocTokens(a, true) + [TClose]
    case FBin(conj, l, r) =>
      var body := DocTokens(l, false) + [TOpr(Connective(conj))] + DocTokens(r, false);
      if !conj && !first then [TOpen] + body + [TClose] else body
  }

  /** The values and operators of a formula as they are written, parentheses aside. */
  function InfixTokens(f: Formula): seq<Token>
  {
    match f
    case FVal(v) => [TVal(v)]
    case FNot(a) => [TOpr(Not)] + InfixTokens(a)
    case FBin(conj, l, r) => InfixTokens(l) + [TOpr(Connective(conj))] + InfixTokens(r)
  }

  function Bare(toks: seq<Token>): seq<Token>
  {
    if toks == [] then [] else Kept(toks[0]) + Bare(toks[1..])
  }

  function Kept(t: Token): seq<Token> { if t == TOpen || t == TClose then [] else [t] }

  lemma {:induction false} BareJoin(a: seq<Token>, b: seq<Token>)
    ensures Bare(a + b) == Bare(a) + Bare(b)
  {
    if a == [] {
      assert a + b == b;
    } else {
      BareJoin(a[1..], b);
      assert (a + b)[1..] == a[1..] + b;
      KeptFirst(Kept(a[0]), Bare(a[1..]), Bare(b));
    }
  }

  lemma {:induction false} KeptFirst(k: seq<Token>, a: seq<Token>, b: seq<Token>)
    ensures k + (a + b) == k + a + b
  {
  }

  lemma {:induction false} BareWrapped(toks: seq<Token>)
    ensures Bare([TOpen] + toks + [TClose]) == Bare(toks)
  {
    BareJoin([TOpen] + toks, [TClose]);
    BareJoin([TOpen], toks);
    assert Bare([TOpen]) == [] && Bare([TClose]) == [];
  }

  lemma {:induction false} BareBinary(a: seq<Token>, op: Op, b: seq<Token>)
    ensures Bare(a + [TOpr(op)] + b) == Bare(a) + [TOpr(op)] + Bare(b)
  {
    BareJoin(a + [TOpr(op)], b);
    BareJoin(a, [TOpr(op)]);
    assert Bare([TOpr(op)]) == [TOpr(op)];
  }

  /** Values and operators are printed in the order in which they stand in the formula. */
  lemma {:induction false} PrintedInOrder(f: Formula, first: bool)
    ensures Bare(DocTokens(f, first)) == InfixTokens(f)
    decreases f
  {
    match f
    case FVal(v) =>
    case FNot(a) =>
      PrintedInOrder(a, true);
      BareWrapped(DocTokens(a, true));
      BareJoin([TOpr(Not)], if a.FVal? then [TVal(a.v)] else [TOpen] + DocTokens(a, true) + [TClose]);
      assert Bare([TOpr(Not)]) == [TOpr(Not)];
    case FBin(conj, l, r) =>
      PrintedInOrder(l, false);
      PrintedInOrder(r, false);
      BareBinary(DocTokens(l, false), Connective(conj), DocTokens(r, false));
      BareWrapped(DocTokens(l, false) + [TOpr(Connective(conj))] + DocTokens(r, false));
  }

  lemma {:induction false} DocTokensParse(f: Formula)
    ensures DocTokens(f, true) == ExprTokens(DocExpr(f))
    ensures DocTokens(f, false) == ConjTokens(DocConj(f))
  {
    match f
    case FVal(v) =>
      assert FactorTokens(Num(v)) == [TVal(v)] && ConjTokens(Fac(Num(v))) == [TVal(v)];
    case FNot(a) =>
      DocTokensParse(a);
      var g := if a.FVal? then Num(a.v) else Paren(DocExpr(a));
      assert FactorTokens(Neg(g)) == [TOpr(Not)] + FactorTokens(g);
    case FBin(conj, l, r) =>
      DocTokensParse(l);
      DocTokensParse(r);
      if conj {
        ChainTokens(DocConj(l), DocConj(r));
      } else {
        var e := Alt(Term(DocConj(l)), DocConj(r));
        assert ExprTokens(Term(DocConj(l))) == ConjTokens(DocConj(l));
        assert FactorTokens(Paren(e)) == [TOpen] + ExprTokens(e) + [TClose];
      }
  }

  lemma {:induction false} LexNot(s: string, count: int)
    ensures Stream("!" + s, WaitOperand, count) == [TOpr(Not)] + Stream(s, WaitOperand, count)
  {
    assert ("!" + s)[1..] == s;
  }

  lemma {:induction false} LexOpen(s: string, count: int)
    ensures Stream("(" + s, WaitOperand, count) == [TOpen] + Stream(s, WaitOperand, count + 1)
  {
    assert ("(" + s)[1..] == s;
  }

  lemma {:induction false} LexClose(s: string, count: int)
    requires count > 0
    ensures Stream(")" + s, WaitOperator, count) == [TClose] + Stream(s, WaitOperator, count - 1)
  {
    assert (")" + s)[1..] == s;
  }

  lemma {:induction false} LexSign(conj: bool, s: string, count: int)
    ensures Stream(Sign(conj) + s, WaitOperator, count)
         == [TOpr(Connective(conj))] + Stream(s, WaitOperand, count)
  {
    assert (Sign(conj) + s)[1..] == s;
  }

  // Numbers.

  lemma {:induction false} UnsignedShape(n: nat, k: nat)
    requires k >= 1 && n < Power(10, k)
    ensures AllDigits(Unsigned(n)) && |Unsigned(n)| <= k
    ensures Unsigned(n)[0] == '0' ==> n == 0
  {
    DigitIff(DigitChar(n % 10));
    if n >= 10 {
      UnsignedShape(n / 10, k - 1);
    }
  }

  lemma {:induction false} DigitsSnoc(s: string, d: nat, acc: nat)
    requires AllDigits(s) && d < 10
    ensures Digits(s + [DigitChar(d)], 10, acc) == Digits(s, 10, acc) * 10 + d
  {
    var t := s + [DigitChar(d)];
    if s == [] {
      assert t[1..] == [];
    } else {
      assert t[1..] == s[1..] + [DigitChar(d)];
      DigitsSnoc(s[1..], d, acc * 10 + (s[0] as int - 48));
    }
  }

  lemma {:induction false} DigitsUnsigned(n: nat, k: nat)
    requires k >= 1 && n < Power(10, k)
    ensures Digits(Unsigned(n), 10, 0) == n
  {
    if n < 10 {
      assert Unsigned(n)[1..] == [];
    } else {
      UnsignedShape(n / 10, k - 1);
      DigitsUnsigned(n / 10, k - 1);
      DigitsSnoc(Unsigned(n / 10), n % 10, 0);
    }
  }

  lemma {:induction false} Pow10Ten()
    ensures Power(10, 10) == 10_000_000_000
  {
    assert Power(10, 5) == 100_000;
    assert Power(10, 7) == 10_000_000;
  }

  /** Printing a 32-bit number and converting it back. */
  lemma {:induction false} DecimalBack(v: int)
    requires Fits32(v)
    ensures var s := Decimal(v); Numeral(s) && |s| <= 11 && NumeralValue(s) == v && Strtol(s) == v
  {
    Pow10Ten();
    var n := if v < 0 then -v else v;
    var u := Unsigned(n);
    UnsignedShape(n, 10);
    DigitsUnsigned(n, 10);
    if v < 0 {
      assert Decimal(v)[1..] == u;
    } else if n == 0 {
      assert u == "0" && u[1..] == [] && Digits(u[1..], 8, 0) == 0;
    }
    StrtolPlaces(Decimal(v));
  }

  /** What may follow a printed operand. */
  predicate Follows(rest: string, count: int)
  {
    if rest == [] then count == 0 else rest[0] == ' '
  }

  lemma {:induction false} LexNumber(v: int, rest: string, count: int)
    requires Fits32(v) && Follows(rest, count)
    ensures Stream(Decimal(v) + rest, WaitOperand, count) == [TVal(v)] + Stream(rest, WaitOperator, count)
  {
    DecimalBack(v);
    LexNumeral(Decimal(v), rest, count);
  }

  // Whole queries.

  /** Tokenizing a printed operand and going on behind it. */
  ghost predicate Lexes(text: string, toks: seq<Token>, rest: string, count: int)
  {
    Stream(text + rest, WaitOperand, count) == toks + Stream(rest, WaitOperator, count)
  }

  lemma {:induction false} LexSpacedClose(rest: string, count: nat)
    ensures Stream(" )" + rest, WaitOperator, count + 1) == [TClose] + Stream(rest, WaitOperator, count)
  {
    assert " )" + rest == " " + (")" + rest);
    LexSpace(")" + rest, WaitOperator, count + 1);
    LexClose(rest, count + 1);
  }

  lemma {:induction false} WrapRest(text: string, rest: string)
    ensures Wrapped(text) + rest == "(" + (" " + (text + (" )" + rest)))
  {
  }

  lemma {:induction false} LexWrapped(text: string, toks: seq<Token>, rest: string, count: nat)
    requires Lexes(text, toks, " )" + rest, count + 1)
    ensures Lexes(Wrapped(text), [TOpen] + toks + [TClose], rest, count)
  {
    var inner := text + (" )" + rest);
    WrapRest(text, rest);
    LexOpen(" " + inner, count);
    LexSpace(inner, WaitOperand, count + 1);
    LexSpacedClose(rest, count);
    TokensAssoc([TOpen], toks, [TClose], Stream(rest, WaitOperator, count));
  }

  lemma {:induction false} LexSpacedSign(conj: bool, s: string, count: int)
    ensures Stream(" " + (Sign(conj) + (" " + s)), WaitOperator, count)
         == [TOpr(Connective(conj))] + Stream(s, WaitOperand, count)
  {
    LexSpace(Sign(conj) + (" " + s), WaitOperator, count);
    LexSign(conj, " " + s, count);
    LexSpace(s, WaitOperand, count);
  }

  lemma {:induction false} SignAssoc(l: string, sign: string, r: string, rest: string)
    ensures " " + sign + " " + r + rest == " " + (sign + (" " + (r + rest)))
    ensures l + (" " + sign + " ") + r + rest == l + (" " + sign + " " + r + rest)
  {
  }

  lemma {:induction false} TokensAssoc(a: seq<Token>, b: seq<Token>, c: seq<Token>, d: seq<Token>)
    ensures a + (b + (c + d)) == a + b + c + d
  {
  }

  lemma {:induction false} LexBinary(l: string, conj: bool, r: string, lt: seq<Token>, rt: seq<Token>, rest: string,
      count: nat)
    requires Lexes(l, lt, " " + Sign(conj) + " " + r + rest, count) && Lexes(r, rt, rest, count)
    ensures Lexes(l + (" " + Sign(conj) + " ") + r, lt + [TOpr(Connective(conj))] + rt, rest, count)
  {
    SignAssoc(l, Sign(conj), r, rest);
    LexSpacedSign(conj, r + rest, count);
    TokensAssoc(lt, [TOpr(Connective(conj))], rt, Stream(rest, WaitOperator, count));
  }

  lemma {:induction false} PrintLexes(f: Formula, first: bool, rest: string, count: nat)
    requires Fitting(f) && Follows(rest, count)
    ensures Lexes(Print(f, first), DocTokens(f, first), rest, count)
    decreases f
  {
    match f
    case FVal(v) => LexNumber(v, rest, count);
    case FNot(a) =>
      var t := if a.FVal? then Print(a, false) else Wrapped(Print(a, true));
      var tt := if a.FVal? then [TVal(a.v)] else [TOpen] + DocTokens(a, true) + [TClose];
      if a.FVal? {
        LexNumber(a.v, rest, count);
      } else {
        PrintLexes(a, true, " )" + rest, count + 1);
        LexWrapped(Print(a, true), DocTokens(a, true), rest, count);
      }
      NotLexes(t, tt, rest, count);
    case FBin(conj, l, r) =>
      var parens := !conj && !first;
      var rest1, count1 := if parens then " )" + rest else rest, if parens then count + 1 else count;
      PrintLexes(l, false, " " + Sign(conj) + " " + Print(r, false) + rest1, count1);
      PrintLexes(r, false, rest1, count1);
      LexBinary(Print(l, false), conj, Print(r, false), DocTokens(l, false), DocTokens(r, false), rest1, count1);
      if parens {
        LexWrapped(Print(l, false) + (" " + Sign(conj) + " ") + Print(r, false),
                   DocTokens(l, false) + [TOpr(Connective(conj))] + DocTokens(r, false), rest, count);
      }
  }

  lemma {:induction false} NotLexes(t: string, tt: seq<Token>, rest: string, count: nat)
    requires Lexes(t, tt, rest, count)
    ensures Lexes("!" + t, [TOpr(Not)] + tt, rest, count)
  {
    assert "!" + t + rest == "!" + (t + rest);
    LexNot(t + rest, count);
    var tail := Stream(rest, WaitOperator, count);
    assert [TOpr(Not)] + (tt + tail) == [TOpr(Not)] + tt + tail;
  }

  /** Printing preserves meaning: the printed text is an expression of the grammar that
      stacks at most three operators per level, so it is accepted again; it is as large as
      the query and has the same truth under every valuation. */
  lemma {:induction false} PrintedMeaning(f: Formula)
    requires Fitting(f)
    ensures Tokens(Print(f, true)) == ExprTokens(DocExpr(f)) + [TEnd]
    ensures ExprFits(DocExpr(f), 3) && ExprFits(DocExpr(f), STACKDEPTH)
    ensures Size(ExprFormula(DocExpr(f))) == Size(f)
    ensures ShortRight(f) ==> ShortRight(ExprFormula(DocExpr(f)))
    ensures forall holds: int -> bool :: Truth(ExprFormula(DocExpr(f)), holds) == Truth(f, holds)
  {
    PrintLexes(f, true, "", 0);
    assert Print(f, true) + "" == Print(f, true);
    assert Stream("", WaitOperator, 0) == [TEnd];
    DocTokensParse(f);
    DocShape(f);
    ExprFitsLess(DocExpr(f), 3, STACKDEPTH);
    forall holds: int -> bool ensures Truth(ExprFormula(DocExpr(f)), holds) == Truth(f, holds) {
      DocTruth(f, holds);
    }
  }

  /** A query goes out as text and comes back in: unless the text is too long to be built, it
      is accepted, and evaluates as before. */
  method PrintAndRead(items: seq<Item>, ghost f: Formula) returns (r: Option<InResult>)
    requires QueryOf(items, f) && Fitting(f) && ShortRight(f) && |items| <= MAXITEMS
    ensures r.Some? <==> |Print(f, true)| < TEXTMAX
    ensures r.Some? ==> ReadsAlike(items, r.value)
  {
    var text := BqarrOut(items, f);
    if text.None? {
      return None;
    }
    var q := ReadAgain(text.value, items, f);
    r := Some(q);
  }

  /** What was read is a query of the same size that evaluates like the given one. */
  ghost predicate ReadsAlike(items: seq<Item>, r: InResult)
  {
    && r.Query? && |r.items| == |items| > 0 && WellLinked(items) && WellLinked(r.items)
    && forall chk: int -> bool, chk': int -> bool, holds: int -> bool
      | Decides(items, chk, holds) && Decides(r.items, chk', holds) ::
      Execute(r.items, |r.items| - 1, true, chk') == Execute(items, |items| - 1, true, chk)
  }

  method ReadAgain(text: string, items: seq<Item>, ghost f: Formula) returns (r: InResult)
    requires QueryOf(items, f) && Fitting(f) && ShortRight(f) && |items| <= MAXITEMS && text == Print(f, true)
    ensures ReadsAlike(items, r)
  {
    PrintedMeaning(f);
    r := BqarrIn(text);
    SameMeaning(items, f, r, ExprFormula(DocExpr(f)));
  }

  /** Queries of formulas that are true together evaluate alike. */
  lemma {:induction false} SameMeaning(items: seq<Item>, f: Formula, r: InResult, g: Formula)
    requires QueryOf(items, f) && ShortRight(f)
    requires r.Query? && QueryOf(r.items, g) && ShortRight(g) && Size(f) == Size(g)
    requires forall holds: int -> bool :: Truth(g, holds) == Truth(f, holds)
    ensures ReadsAlike(items, r)
  {
    QueryMeaning(items, f);
    QueryMeaning(r.items, g);
  }

  // ---------------------------------------------------------------- long queries

  /** A number joined to itself. */
  function Repeated(v: int, n: nat): Formula
    requires n >= 1
  {
    if n == 1 then FVal(v) else FBin(true, Repeated(v, n - 1), FVal(v))
  }

  function RepeatedText(s: string, n: nat): (t: string)
    requires n >= 1
    ensures |t| == n * |s| + 3 * (n - 1)
  {
    if n == 1 then s else RepeatedText(s, n - 1) + " & " + s
  }

  lemma {:induction false} RepeatedShape(v: int, n: nat, first: bool)
    requires n >= 1
    ensures Size(Repeated(v, n)) == 2 * n - 1 && ShortRight(Repeated(v, n))
    ensures Fits32(v) ==> Fitting(Repeated(v, n))
    ensures Print(Repeated(v, n), first) == RepeatedText(Decimal(v), n)
  {
    if n > 1 {
      RepeatedShape(v, n - 1, false);
      assert " " + Sign(true) + " " == " & ";
    }
  }

  /** `0 | 1 & 1 & ... & 1`, with 16385 to 32767 ones, is read, and the link of its last item
      leads out of the array. */
  method LongQueryAccepted(n: nat) returns (text: string, r: InResult)
    requires 0x4001 <= n <= 0x7FFF
    ensures text == "0 | " + RepeatedText("1", n)
    ensures r.Query? && |r.items| == 2 * n + 1 && |r.items| - 1 + r.items[|r.items| - 1].left >= |r.items|
  {
    ghost var ones := Repeated(1, n);
    RepeatedShape(1, n, false);
    text := "0 | " + RepeatedText("1", n);
    LongText(ones, text);
    PrintedMeaning(FBin(false, FVal(0), ones));
    r := BqarrIn(text);
    DocShape(ones);
    LongRightOperand(r.items, false, ConjFormula(DocConj(FVal(0))), ConjFormula(DocConj(ones)));
  }

  lemma {:induction false} LongText(ones: Formula, text: string)
    requires text == "0 | " + Print(ones, false)
    ensures Print(FBin(false, FVal(0), ones), true) == text
  {
    assert Decimal(0) == "0" && "0" + (" " + Sign(false) + " ") == "0 | ";
  }

  /** A number joined to itself by a balanced tree of disjunctions. */
  function Balanced(v: int, k: nat): Formula
  {
    if k == 0 then FVal(v) else FBin(false, Balanced(v, k - 1), Balanced(v, k - 1))
  }

  lemma {:induction false} BalancedShape(v: int, k: nat)
    requires Fits32(v)
    ensures Size(Balanced(v, k)) == 2 * Pow2(k) - 1 && Fitting(Balanced(v, k))
  {
    if k > 0 {
      BalancedShape(v, k - 1);
    }
  }

  lemma {:induction false} BalancedLength(v: int, k: nat, n: nat)
    requires n == |Decimal(v)| + 7
    ensures |Print(Balanced(v, k), false)| == n * Pow2(k) - 7
  {
    if k > 0 {
      BalancedLength(v, k - 1, n);
      WrappedLength(Balanced(v, k));
      Doubles(n, Pow2(k - 1));
    }
  }

  lemma {:induction false} Doubles(n: int, p: int)
    ensures n * (2 * p) == 2 * (n * p)
  {
  }

  lemma {:induction false} WrappedLength(f: Formula)
    requires f.FBin? && !f.conj
    ensures |Print(f, false)| == |Print(f.left, false)| + |Print(f.right, false)| + 7
  {
  }

  /** Disjunctions in parentheses are read as they are. */
  lemma {:induction false} BalancedReads(v: int, k: nat)
    ensures ConjFormula(DocConj(Balanced(v, k))) == Balanced(v, k) == ExprFormula(DocExpr(Balanced(v, k)))
  {
    if k == 0 {
      assert ConjFormula(Fac(Num(v))) == FVal(v);
    } else {
      BalancedReads(v, k - 1);
      var c := DocConj(Balanced(v, k - 1));
      var e := Alt(Term(c), c);
      assert ExprFormula(e) == FBin(false, ConjFormula(c), ConjFormula(c));
      assert ConjFormula(Fac(Paren(e))) == FactorFormula(Paren(e)) == ExprFormula(e);
    }
  }

  /** 2^25 times the number -2147483648, joined by nested disjunctions, are a text that is read,
      at a depth of 25 parentheses, as a query that cannot be printed. */
  method LongTextRefused() returns (text: string, r: InResult, printed: Option<string>)
    ensures text == Print(Balanced(INT_MIN, 25), true)
    ensures r.Query? && QueryOf(r.items, Balanced(INT_MIN, 25)) && printed == None
  {
    var f := Balanced(INT_MIN, 25);
    LongTextSize(f, 25);
    text := Print(f, true);
    PrintedMeaning(f);
    r := BqarrIn(text);
    printed := BqarrOut(r.items, f);
  }

  lemma {:induction false} LongTextSize(f: Formula, k: nat)
    requires k == 25 && f == Balanced(INT_MIN, k)
    ensures Fitting(f) && Size(f) <= MAXITEMS && |Print(f, true)| >= TEXTMAX && ExprFormula(DocExpr(f)) == f
  {
    Pow2Values();
    BalancedShape(INT_MIN, k);
    BalancedReads(INT_MIN, k);
    LongTextLength(f, k);
  }

  lemma {:induction false} LongTextLength(f: Formula, k: nat)
    requires k > 0 && f == Balanced(INT_MIN, k)
    ensures |Print(f, true)| == 18 * Pow2(k) - 11
  {
    MinimumText();
    BalancedLength(INT_MIN, k - 1, 18);
    assert |Print(f, true)| == 2 * |Print(f.left, false)| + 3;
  }

  lemma {:induction false} MinimumText()
    ensures |Decimal(INT_MIN)| == 11
  {
    assert |Unsigned(2147)| == 4;
    assert |Unsigned(21474836)| == 8;
    assert |Unsigned(2147483648)| == 10;
  }

  // ---------------------------------------------------------------- two queries read and printed

  lemma {:induction false} OneDigit(v: nat)
    requires 0 < v < 10
    ensures Decimal(v) == [DigitChar(v)] && Numeral(Decimal(v)) && NumeralValue(Decimal(v)) == v
  {
    var w := Decimal(v);
    DigitIff(w[0]);
    assert w[1..] == [] && PlaceValue(w[1..], 10) == 0;
  }

  lemma {:induction false} ConjunctionTokens(a: int, b: int, e: Expr)
    requires e == Term(Both(Fac(Num(a)), Num(b)))
    ensures ExprTokens(e) == [TVal(a), TOpr(And), TVal(b)] && ExprFormula(e) == FBin(true, FVal(a), FVal(b))
    ensures ExprFits(e, STACKDEPTH)
  {
    var c := Fac(Num(a));
    assert ConjTokens(c) == [TVal(a)] && ConjFormula(c) == FVal(a) && ConjFits(c, 0, STACKDEPTH);
    assert FactorTokens(Num(b)) == [TVal(b)] && FactorFormula(Num(b)) == FVal(b);
  }

  lemma {:induction false} ConjunctionSpelled(text: string, ws: seq<Word>, a: int, b: int)
    requires a == 1 && b == 2 && text == "1&2" && ws == [Word(0, "1"), Word(0, "&"), Word(0, "2")]
    ensures Spells(text, [TVal(a), TOpr(And), TVal(b)])
  {
    OneDigit(a);
    OneDigit(b);
    SpelledThree(ws);
    assert "1" + ("&" + "2") == text;
    assert WordsFor(ws, [TVal(a), TOpr(And), TVal(b)]) && text == Spelled(ws, 0);
  }

  /** `1&2`, without a space, is stored as the number 1, the number 2 and their conjunction, and
      printed as `1 & 2`. */
  method ConjunctionExample(text: string) returns (r: InResult, printed: Option<string>)
    requires text == "1&2"
    ensures r == Query([Item(Val(1), 0), Item(Val(2), 0), Item(Opr(And), -2)])
    ensures printed == Some("1 & 2")
  {
    ConjunctionTokens(1, 2, Term(Both(Fac(Num(1)), Num(2))));
    ConjunctionSpelled(text, [Word(0, "1"), Word(0, "&"), Word(0, "2")], 1, 2);
    r := BqarrIn(text);
    ConjunctionItems(r.items);
    printed := BqarrOut(r.items, FBin(true, FVal(1), FVal(2)));
  }

  lemma {:induction false} SpelledThree(ws: seq<Word>)
    requires |ws| == 3 && forall i | 0 <= i < 3 :: ws[i].gap == 0
    ensures Spelled(ws, 0) == ws[0].text + (ws[1].text + ws[2].text)
  {
    var a, b, c := ws[0].text, ws[1].text, ws[2].text;
    assert Blanks(0) == "";
    assert ws[1..][0] == ws[1] && ws[1..][1..] == ws[2..] && ws[2..][0] == ws[2] && ws[2..][1..] == [];
    assert Spelled(ws[2..], 0) == c by {
      assert Spelled([], 0) == "" && "" + (c + "") == c;
    }
    assert Spelled(ws[1..], 0) == "" + (b + c) == b + c;
    assert Spelled(ws, 0) == "" + (a + (b + c)) == a + (b + c);
  }

  lemma {:induction false} ConjunctionItems(items: seq<Item>)
    requires QueryOf(items, FBin(true, FVal(1), FVal(2)))
    ensures items == [Item(Val(1), 0), Item(Val(2), 0), Item(Opr(And), -2)]
    ensures Print(FBin(true, FVal(1), FVal(2)), true) == "1 & 2"
  {
    assert LinksAt(items, 1, FVal(2)) && LinksAt(items, 0, FVal(1));
    OneDigit(1);
    OneDigit(2);
  }

  /** A conjunction with a disjunction, whose second operand is negated: of 1, 2 and 3 it is
      printed as `1 & ( 2 | !3 )`. */
  lemma {:induction false} PrintExample(a: int, b: int, c: int, d: Formula)
    requires a == 1 && b == 2 && c == 3 && d == FBin(false, FVal(b), FNot(FVal(c)))
    ensures Print(FBin(true, FVal(a), d), true) == "1 & ( 2 | !3 )"
  {
    OneDigit(a);
    OneDigit(b);
    OneDigit(c);
    NegationPrinted(c);
    DisjunctionText();
    assert Print(d, false) == Wrapped("2" + (" " + Sign(false) + " ") + "!3");
    assert "1" + (" " + Sign(true) + " ") + "( 2 | !3 )" == "1 & ( 2 | !3 )";
  }

  lemma {:induction false} DisjunctionText()
    ensures Wrapped("2" + (" " + Sign(false) + " ") + "!3") == "( 2 | !3 )"
  {
    assert "2" + (" " + Sign(false) + " ") + "!3" == "2 | !3";
  }

  lemma {:induction false} NegationPrinted(c: int)
    requires c == 3
    ensures Print(FNot(FVal(c)), false) == "!3"
  {
    OneDigit(c);
    assert "!" + "3" == "!3";
  }
}
