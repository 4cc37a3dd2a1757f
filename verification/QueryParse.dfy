/** The operator-stack parser of intarray queries, over the token stream. */
module QueryParse {
  import opened Options
  import opened QuerySyntax

  datatype PolResult =
    | Ok(out: seq<Node>, rest: seq<Token>)
    | SyntaxError
    | TooComplex

  predicate Tight(op: Op) { op != Or }

  /** The stack after every waiting `&` and `!` on its top has been emitted ... */
  function Loosen(stack: seq<Op>): (r: seq<Op>)
    ensures |r| <= |stack|
  {
    if stack != [] && Tight(stack[|stack| - 1]) then Loosen(stack[..|stack| - 1]) else stack
  }

  /** ... and what that emits. */
  function Loosened(stack: seq<Op>): seq<Node>
  {
    if stack != [] && Tight(stack[|stack| - 1])
    then [Opr(stack[|stack| - 1])] + Loosened(stack[..|stack| - 1])
    else []
  }

  /** The whole stack, emitted from the top. */
  function Unwound(stack: seq<Op>): seq<Node>
  {
    if stack == [] then [] else [Opr(stack[|stack| - 1])] + Unwound(stack[..|stack| - 1])
  }

  /** One level of the parser: `stack` holds the operators waiting on this level, `out`
      the polish notation written so far; what is left of the stream is returned. */
  function Pol(toks: seq<Token>, stack: seq<Op>, out: seq<Node>): (r: PolResult)
    ensures r.Ok? ==> |r.rest| <= |toks|
    decreases |toks|
  {
    if toks == [] then SyntaxError
    else
      match toks[0]
      case TVal(v) => Pol(toks[1..], Loosen(stack), out + [Val(v)] + Loosened(stack))
      case TOpr(op) =>
        if stack != [] && op == Or then Pol(toks[1..], stack, out + [Opr(Or)])
        else if |stack| == STACKDEPTH then TooComplex
        else Pol(toks[1..], stack + [op], out)
      case TOpen =>
        (match Pol(toks[1..], [], out)
         case Ok(out1, rest) => Pol(rest, Loosen(stack), out1 + Loosened(stack))
         case SyntaxError => SyntaxError
         case TooComplex => TooComplex)
      case TClose => Ok(out + Unwound(stack), toks[1..])
      case TEnd => Ok(out + Unwound(stack), toks)
      case TErr => SyntaxError
  }

  // ---------------------------------------------------------------- everything in the grammar is compiled

  lemma {:induction false} LoosenPush(stack: seq<Op>, op: Op)
    requires Tight(op)
    ensures Loosen(stack + [op]) == Loosen(stack)
    ensures Loosened(stack + [op]) == [Opr(op)] + Loosened(stack)
  {
    assert (stack + [op])[..|stack|] == stack;
  }

  lemma {:induction false} PolPush(op: Op, rest: seq<Token>, stack: seq<Op>, out: seq<Node>)
    requires stack == [] || op != Or
    ensures Pol([TOpr(op)] + rest, stack, out)
         == if |stack| == STACKDEPTH then TooComplex else Pol(rest, stack + [op], out)
  {
    assert ([TOpr(op)] + rest)[1..] == rest;
  }

  lemma {:induction false} PolOr(rest: seq<Token>, stack: seq<Op>, out: seq<Node>)
    requires stack != []
    ensures Pol([TOpr(Or)] + rest, stack, out) == Pol(rest, stack, out + [Opr(Or)])
  {
    assert ([TOpr(Or)] + rest)[1..] == rest;
  }

  lemma {:induction false} PolVal(v: int, rest: seq<Token>, stack: seq<Op>, out: seq<Node>)
    ensures Pol([TVal(v)] + rest, stack, out) == Pol(rest, Loosen(stack), out + [Val(v)] + Loosened(stack))
  {
    assert ([TVal(v)] + rest)[1..] == rest;
  }

  lemma {:induction false} PolStop(stop: Token, rest: seq<Token>, stack: seq<Op>, out: seq<Node>)
    requires stop == TClose || stop == TEnd
    ensures Pol([stop] + rest, stack, out)
         == Ok(out + Unwound(stack), if stop == TClose then rest else [stop] + rest)
  {
    assert ([stop] + rest)[1..] == rest;
  }

  lemma {:induction false} PolParen(inner: seq<Token>, stack: seq<Op>, out: seq<Node>)
    ensures var r := Pol(inner, [], out);
      Pol([TOpen] + inner, stack, out)
      == if r.Ok? then Pol(r.rest, Loosen(stack), r.out + Loosened(stack)) else r
  {
    assert ([TOpen] + inner)[1..] == inner;
  }

  /** Reading a factor writes its polish notation and releases the operators waiting for
      it. */
  function AfterFactor(f: Factor, rest: seq<Token>, stack: seq<Op>, out: seq<Node>): PolResult
  {
    if FactorFits(f, |stack|, STACKDEPTH)
    then Pol(rest, Loosen(stack), out + Postfix(FactorFormula(f)) + Loosened(stack))
    else TooComplex
  }

  lemma {:induction false} FactorCompiled(f: Factor, rest: seq<Token>, stack: seq<Op>, out: seq<Node>)
    requires |stack| <= STACKDEPTH
    ensures Pol(FactorTokens(f) + rest, stack, out) == AfterFactor(f, rest, stack, out)
    decreases f
  {
    match f
    case Num(v) =>
      PolVal(v, rest, stack, out);
    case Neg(g) =>
      assert FactorTokens(f) + rest == [TOpr(Not)] + (FactorTokens(g) + rest);
      PolPush(Not, FactorTokens(g) + rest, stack, out);
      if |stack| < STACKDEPTH {
        FactorCompiled(g, rest, stack + [Not], out);
        NegationReleases(g, stack, out);
      }
    case Paren(e) =>
      var inner := ExprTokens(e) + ([TClose] + rest);
      assert FactorTokens(f) + rest == [TOpen] + inner;
      PolParen(inner, stack, out);
      ExprClosed(e, TClose, rest, out);
  }

  lemma {:induction false} NegationReleases(g: Factor, stack: seq<Op>, out: seq<Node>)
    ensures Loosen(stack + [Not]) == Loosen(stack)
    ensures out + Postfix(FactorFormula(g)) + Loosened(stack + [Not])
         == out + Postfix(FactorFormula(Neg(g))) + Loosened(stack)
  {
    LoosenPush(stack, Not);
    var p, l := Postfix(FactorFormula(g)), Loosened(stack);
    assert out + p + ([Opr(Not)] + l) == out + (p + [Opr(Not)]) + l;
  }

  function AfterConj(c: Conj, rest: seq<Token>, stack: seq<Op>, out: seq<Node>): PolResult
  {
    if ConjFits(c, |stack|, STACKDEPTH) then Pol(rest, stack, out + Postfix(ConjFormula(c))) else TooComplex
  }

  lemma {:induction false} ConjCompiled(c: Conj, rest: seq<Token>, stack: seq<Op>, out: seq<Node>)
    requires stack == [] || stack == [Or]
    ensures Pol(ConjTokens(c) + rest, stack, out) == AfterConj(c, rest, stack, out)
    decreases c
  {
    match c
    case Fac(f) =>
      FactorCompiled(f, rest, stack, out);
      assert out + Postfix(FactorFormula(f)) + Loosened(stack) == out + Postfix(ConjFormula(c));
    case Both(c1, f) =>
      var more := [TOpr(And)] + (FactorTokens(f) + rest);
      assert ConjTokens(c) + rest == ConjTokens(c1) + more;
      ConjCompiled(c1, more, stack, out);
      if ConjFits(c1, |stack|, STACKDEPTH) {
        var out1 := out + Postfix(ConjFormula(c1));
        PolPush(And, FactorTokens(f) + rest, stack, out1);
        FactorCompiled(f, rest, stack + [And], out1);
        ConjunctionReleases(c1, f, stack, out);
      }
  }

  lemma {:induction false} ConjunctionReleases(c: Conj, f: Factor, stack: seq<Op>, out: seq<Node>)
    requires stack == [] || stack == [Or]
    ensures Loosen(stack + [And]) == stack
    ensures out + Postfix(ConjFormula(c)) + Postfix(FactorFormula(f)) + Loosened(stack + [And])
         == out + Postfix(ConjFormula(Both(c, f)))
  {
    LoosenPush(stack, And);
    var p, q := Postfix(ConjFormula(c)), Postfix(FactorFormula(f));
    assert Loosened(stack) == [];
    assert out + p + q + ([Opr(And)] + []) == out + (p + q + [Opr(And)]);
  }

  /** What waits after an expression, and what is already written. */
  function Waiting(e: Expr): seq<Op>
  {
    if e.Term? then [] else [Or]
  }

  function Written(e: Expr): seq<Node>
  {
    match e
    case Term(t) => Postfix(ConjFormula(t))
    case Alt(e1, t) => Postfix(ExprFormula(e1)) + Postfix(ConjFormula(t))
  }

  lemma {:induction false} ExprCompiled(e: Expr, rest: seq<Token>, out: seq<Node>)
    ensures Pol(ExprTokens(e) + rest, [], out)
         == if ExprFits(e, STACKDEPTH) then Pol(rest, Waiting(e), out + Written(e)) else TooComplex
    decreases e, 0
  {
    match e
    case Term(t) =>
      ConjCompiled(t, rest, [], out);
    case Alt(e1, t) =>
      var more := [TOpr(Or)] + (ConjTokens(t) + rest);
      assert ExprTokens(e) + rest == ExprTokens(e1) + more;
      ExprCompiled(e1, more, out);
      if ExprFits(e1, STACKDEPTH) {
        var out1 := out + Postfix(ExprFormula(e1));
        if e1.Alt? {
          PolOr(ConjTokens(t) + rest, [Or], out + Written(e1));
          assert out + Written(e1) + [Opr(Or)] == out1;
        } else {
          PolPush(Or, ConjTokens(t) + rest, [], out1);
          assert [] + [Or] == [Or];
        }
        ConjCompiled(t, rest, [Or], out1);
        assert out1 + Postfix(ConjFormula(t)) == out + Written(e);
      }
  }

  /** An expression up to its closing parenthesis, or up to the end of the text. */
  lemma {:induction false} ExprClosed(e: Expr, stop: Token, rest: seq<Token>, out: seq<Node>)
    requires stop == TClose || stop == TEnd
    ensures Pol(ExprTokens(e) + ([stop] + rest), [], out)
         == if ExprFits(e, STACKDEPTH)
            then Ok(out + Postfix(ExprFormula(e)), if stop == TClose then rest else [stop] + rest)
            else TooComplex
    decreases e, 1
  {
    ExprCompiled(e, [stop] + rest, out);
    PolStop(stop, rest, Waiting(e), out + Written(e));
    assert out + Written(e) + Unwound(Waiting(e)) == out + Postfix(ExprFormula(e));
  }

  // ---------------------------------------------------------------- nothing else is accepted

  /** What the tokenizer guarantees of a stream: operands and operators alternate,
      parentheses balance, and the stream stops at its first end or error. */
  ghost predicate Shaped(toks: seq<Token>, operand: bool, count: nat)
    decreases |toks|
  {
    && toks != []
    && match toks[0]
       case TVal(_) => operand && Shaped(toks[1..], false, count)
       case TOpr(op) => operand == (op == Not) && Shaped(toks[1..], true, count)
       case TOpen => operand && Shaped(toks[1..], true, count + 1)
       case TClose => !operand && count > 0 && Shaped(toks[1..], false, count - 1)
       case TEnd => !operand && count == 0 && |toks| == 1
       case TErr => |toks| == 1
  }

  /** The part of an expression read before an operand. */
  datatype Pending = Pending(alt: Option<Expr>, conj: Option<Conj>, nots: nat)

  function AltTokens(alt: Option<Expr>): seq<Token>
  {
    if alt.None? then [] else ExprTokens(alt.value) + [TOpr(Or)]
  }

  function AltStack(alt: Option<Expr>): seq<Op>
  {
    if alt.None? then [] else [Or]
  }

  function PendTokens(p: Pending): seq<Token>
  {
    AltTokens(p.alt)
    + (if p.conj.None? then [] else ConjTokens(p.conj.value) + [TOpr(And)])
    + seq(p.nots, _ => TOpr(Not))
  }

  function PendStack(p: Pending): seq<Op>
  {
    AltStack(p.alt) + (if p.conj.None? then [] else [And]) + seq(p.nots, _ => Not)
  }

  function Negated(n: nat, f: Factor): Factor
  {
    if n == 0 then f else Neg(Negated(n - 1, f))
  }

  function Join(p: Pending, f: Factor): Conj
  {
    if p.conj.None? then Fac(Negated(p.nots, f)) else Both(p.conj.value, Negated(p.nots, f))
  }

  function Close(alt: Option<Expr>, c: Conj): Expr
  {
    if alt.None? then Term(c) else Alt(alt.value, c)
  }

  /** Sixteen negations in a row fit, one more does not. */
  lemma {:induction false} NegationsFit(n: nat, v: int)
    ensures ExprFits(Term(Fac(Negated(n, Num(v)))), STACKDEPTH) <==> n <= 16
  {
    NegatedFits(n, v, 0);
  }

  lemma {:induction false} NegatedFits(n: nat, v: int, base: nat)
    requires base <= STACKDEPTH
    ensures FactorFits(Negated(n, Num(v)), base, STACKDEPTH) <==> base + n <= 16
  {
    if n > 0 && base < STACKDEPTH {
      NegatedFits(n - 1, v, base + 1);
    }
  }

  lemma {:induction false} NegatedTokens(n: nat, f: Factor)
    ensures FactorTokens(Negated(n, f)) == seq(n, _ => TOpr(Not)) + FactorTokens(f)
  {
    if n > 0 {
      NegatedTokens(n - 1, f);
    }
  }

  lemma {:induction false} JoinTokens(p: Pending, f: Factor)
    ensures PendTokens(p) + FactorTokens(f) == AltTokens(p.alt) + ConjTokens(Join(p, f))
  {
    NegatedTokens(p.nots, f);
  }

  lemma {:induction false} LoosenPending(p: Pending)
    ensures Loosen(PendStack(p)) == AltStack(p.alt)
    decreases p.nots
  {
    if p.nots > 0 {
      LoosenPending(p.(nots := p.nots - 1));
      assert PendStack(p) == PendStack(p.(nots := p.nots - 1)) + [Not];
      LoosenPush(PendStack(p.(nots := p.nots - 1)), Not);
    } else if p.conj.Some? {
      assert PendStack(p) == AltStack(p.alt) + [And];
      LoosenPush(AltStack(p.alt), And);
    } else {
      assert PendStack(p) == AltStack(p.alt);
    }
  }

  /** The token an accepted level stops at. */
  function Stop(count: nat): Token { if count == 0 then TEnd else TClose }

  /** With what was read before, the first `n` tokens make up the expression `e`, and the
      level stops there. */
  ghost predicate Parsed(toks: seq<Token>, count: nat, before: seq<Token>, e: Expr, n: nat)
  {
    && n < |toks| && toks[n] == Stop(count)
    && before + toks[..n] == ExprTokens(e)
    && (count > 0 ==> Shaped(toks[n + 1..], false, count - 1))
  }

  lemma {:induction false} ParsedShift(toks: seq<Token>, k: nat, count: nat, before: seq<Token>, e: Expr, n: nat)
    requires k <= |toks| && Parsed(toks[k..], count, before + toks[..k], e, n)
    ensures Parsed(toks, count, before, e, n + k)
  {
    assert toks[..n + k] == toks[..k] + toks[k..][..n];
    assert before + toks[..k] + toks[k..][..n] == before + toks[..n + k];
    assert toks[k..][n + 1..] == toks[n + k + 1..];
  }

  lemma {:induction false} ParsedSplit(toks: seq<Token>, count: nat, e: Expr, n: nat)
    requires Parsed(toks, count, [], e, n)
    ensures toks == ExprTokens(e) + ([Stop(count)] + toks[n + 1..])
  {
    assert [] + toks[..n] == toks[..n];
    assert toks == toks[..n] + ([toks[n]] + toks[n + 1..]);
  }

  /** If the parser gets through a level from a place where it waits for an operand, what
      it has read on that level is an expression of the grammar. */
  lemma {:induction false} OperandParsed(toks: seq<Token>, count: nat, p: Pending, out: seq<Node>)
    returns (e: Expr, n: nat)
    requires Shaped(toks, true, count) && Pol(toks, PendStack(p), out).Ok?
    ensures Parsed(toks, count, PendTokens(p), e, n)
    decreases |toks|, 1
  {
    match toks[0]
    case TVal(v) =>
      e, n := FactorRead(toks, 1, count, p, Num(v), out + [Val(v)] + Loosened(PendStack(p)));
    case TOpr(op) =>
      var p1 := p.(nots := p.nots + 1);
      assert PendStack(p1) == PendStack(p) + [Not];
      e, n := OperandParsed(toks[1..], count, p1, out);
      assert PendTokens(p1) == PendTokens(p) + toks[..1];
      ParsedShift(toks, 1, count, PendTokens(p), e, n);
      n := n + 1;
    case TOpen =>
      var e1, k := ParenRead(toks, count, out);
      e, n := FactorRead(toks, k, count, p, Paren(e1),
                         out + Postfix(ExprFormula(e1)) + Loosened(PendStack(p)));
  }

  lemma {:induction false} ParenRead(toks: seq<Token>, count: nat, out: seq<Node>)
    returns (e: Expr, k: nat)
    requires Shaped(toks, true, count) && toks[0] == TOpen && Pol(toks[1..], [], out).Ok?
    ensures 0 < k <= |toks| && toks[..k] == FactorTokens(Paren(e))
    ensures Shaped(toks[k..], false, count)
    ensures Pol(toks[1..], [], out) == Ok(out + Postfix(ExprFormula(e)), toks[k..])
    decreases |toks|, 0
  {
    var p0 := Pending(None, None, 0);
    assert PendStack(p0) == [] && PendTokens(p0) == [];
    var n;
    e, n := OperandParsed(toks[1..], count + 1, p0, out);
    k := n + 2;
    ParenParts(toks, toks[1..], count, e, n, out);
  }

  lemma {:induction false} ParenParts(toks: seq<Token>, inner: seq<Token>, count: nat, e: Expr, n: nat, out: seq<Node>)
    requires toks == [TOpen] + inner && Parsed(inner, count + 1, [], e, n) && Pol(inner, [], out).Ok?
    ensures n + 2 <= |toks| && toks[..n + 2] == FactorTokens(Paren(e))
    ensures Shaped(toks[n + 2..], false, count)
    ensures Pol(inner, [], out) == Ok(out + Postfix(ExprFormula(e)), toks[n + 2..])
  {
    ParsedSplit(inner, count + 1, e, n);
    assert toks[n + 2..] == inner[n + 1..];
    ExprClosed(e, TClose, inner[n + 1..], out);
    assert toks[..n + 2] == [TOpen] + ExprTokens(e) + [TClose];
  }

  lemma {:induction false} FactorRead(toks: seq<Token>, k: nat, count: nat, p: Pending, f: Factor, out: seq<Node>)
    returns (e: Expr, n: nat)
    requires 0 < k <= |toks| && toks[..k] == FactorTokens(f)
    requires Shaped(toks[k..], false, count) && Pol(toks[k..], Loosen(PendStack(p)), out).Ok?
    ensures Parsed(toks, count, PendTokens(p), e, n)
    decreases |toks|, 0
  {
    LoosenPending(p);
    e, n := OperatorParsed(toks[k..], count, p.alt, Join(p, f), out);
    JoinTokens(p, f);
    ParsedShift(toks, k, count, PendTokens(p), e, n);
    n := n + k;
  }

  lemma {:induction false} OperatorParsed(toks: seq<Token>, count: nat, alt: Option<Expr>, c: Conj, out: seq<Node>)
    returns (e: Expr, n: nat)
    requires Shaped(toks, false, count) && Pol(toks, AltStack(alt), out).Ok?
    ensures Parsed(toks, count, AltTokens(alt) + ConjTokens(c), e, n)
    decreases |toks|, 2
  {
    if toks[0].TOpr? {
      var p1, out1 := OperatorRead(toks, alt, c, out);
      e, n := OperandParsed(toks[1..], count, p1, out1);
      ParsedShift(toks, 1, count, AltTokens(alt) + ConjTokens(c), e, n);
      n := n + 1;
    } else {
      e, n := Close(alt, c), 0;
    }
  }

  lemma {:induction false} OperatorRead(toks: seq<Token>, alt: Option<Expr>, c: Conj, out: seq<Node>)
    returns (p: Pending, out1: seq<Node>)
    requires toks != [] && (toks[0] == TOpr(And) || toks[0] == TOpr(Or))
    ensures PendTokens(p) == AltTokens(alt) + ConjTokens(c) + toks[..1]
    ensures Pol(toks, AltStack(alt), out) == Pol(toks[1..], PendStack(p), out1)
  {
    assert toks == [toks[0]] + toks[1..];
    if toks[0].op == And {
      PolPush(And, toks[1..], AltStack(alt), out);
      p, out1 := Pending(alt, Some(c), 0), out;
      assert PendStack(p) == AltStack(alt) + [And];
    } else if alt.Some? {
      PolOr(toks[1..], AltStack(alt), out);
      p := AfterAlt(alt, c);
      out1 := out + [Opr(Or)];
    } else {
      PolPush(Or, toks[1..], [], out);
      assert [] + [Or] == [Or];
      p := AfterAlt(alt, c);
      out1 := out;
    }
  }

  lemma {:induction false} AfterAlt(alt: Option<Expr>, c: Conj) returns (p: Pending)
    ensures PendStack(p) == [Or]
    ensures PendTokens(p) == AltTokens(alt) + ConjTokens(c) + [TOpr(Or)]
  {
    p := Pending(Some(Close(alt, c)), None, 0);
    assert ExprTokens(Close(alt, c)) == AltTokens(alt) + ConjTokens(c);
  }

  /** The parser as a whole, on any stream of the tokenizer: it succeeds exactly on the
      expressions of the grammar that stay within the stack, and then writes their polish
      notation. */
  lemma {:induction false} PolExact(toks: seq<Token>)
    requires Shaped(toks, true, 0)
    ensures Pol(toks, [], []).Ok? <==> exists e :: toks == ExprTokens(e) + [TEnd] && ExprFits(e, STACKDEPTH)
    ensures forall e | toks == ExprTokens(e) + [TEnd] ::
      Pol(toks, [], []) == if ExprFits(e, STACKDEPTH) then Ok(Postfix(ExprFormula(e)), [TEnd]) else TooComplex
  {
    forall e | toks == ExprTokens(e) + [TEnd]
      ensures Pol(toks, [], [])
           == if ExprFits(e, STACKDEPTH) then Ok(Postfix(ExprFormula(e)), [TEnd]) else TooComplex
    {
      ExprClosed(e, TEnd, [], []);
      assert [TEnd] + [] == [TEnd];
    }
    if Pol(toks, [], []).Ok? {
      var p0 := Pending(None, None, 0);
      assert PendStack(p0) == [] && PendTokens(p0) == [];
      var e, n := OperandParsed(toks, 0, p0, []);
      EndIsLast(toks, n, true, 0);
      ParsedSplit(toks, 0, e, n);
      assert [TEnd] + toks[n + 1..] == [TEnd];
    }
  }

  lemma {:induction false} EndIsLast(toks: seq<Token>, n: nat, operand: bool, count: nat)
    requires Shaped(toks, operand, count) && n < |toks| && toks[n] == TEnd
    ensures n == |toks| - 1
    decreases |toks|
  {
    if n > 0 {
      var operand1 := !toks[0].TVal? && !toks[0].TClose?;
      var count1 := if toks[0].TOpen? then count + 1 else if toks[0].TClose? then count - 1 else count;
      EndIsLast(toks[1..], n - 1, operand1, count1);
    }
  }
}
