/** Compiled intarray queries: the item array with its operand links, its evaluation, and
    the reading of a query from text to items. */
module QueryEval {
  import opened Int32
  import opened QuerySyntax
  import opened QueryParse
  import opened QueryText
  import opened QuerySpell

  /** An item of a stored query; `left` is the distance to the left operand. */
  datatype Item = Item(node: Node, left: int)

  const MAXITEMS: nat := (MAXALLOC - 8) / 8

  // ---------------------------------------------------------------- linking

  function Top(f: Formula): Node
  {
    match f
    case FVal(v) => Val(v)
    case FNot(_) => Opr(Not)
    case FBin(conj, _, _) => Opr(Connective(conj))
  }

  /** The distance from a formula's last item to that of its left operand. */
  function TopLink(f: Formula): int
  {
    match f
    case FVal(_) => 0
    case FNot(_) => -1
    case FBin(_, _, r) => -(Size(r) + 1)
  }

  /** The polish notation of `f` ends at place `hi`. */
  ghost predicate NodesAt(nodes: seq<Node>, hi: int, f: Formula)
  {
    && Size(f) - 1 <= hi < |nodes| && nodes[hi] == Top(f)
    && match f
       case FVal(_) => true
       case FNot(a) => NodesAt(nodes, hi - 1, a)
       case FBin(_, l, r) => NodesAt(nodes, hi - 1, r) && NodesAt(nodes, hi - 1 - Size(r), l)
  }

  /** So do its items, linked as far as the 16 bits of a link go ... */
  ghost predicate LinksAt(items: seq<Item>, hi: int, f: Formula)
  {
    && Size(f) - 1 <= hi < |items| && items[hi] == Item(Top(f), Wrap16(TopLink(f)))
    && match f
       case FVal(_) => true
       case FNot(a) => LinksAt(items, hi - 1, a)
       case FBin(_, l, r) => LinksAt(items, hi - 1, r) && LinksAt(items, hi - 1 - Size(r), l)
  }

  /** ... or linked truly. */
  ghost predicate TrueLinksAt(items: seq<Item>, hi: int, f: Formula)
  {
    && Size(f) - 1 <= hi < |items| && items[hi] == Item(Top(f), TopLink(f))
    && match f
       case FVal(_) => true
       case FNot(a) => TrueLinksAt(items, hi - 1, a)
       case FBin(_, l, r) => TrueLinksAt(items, hi - 1, r) && TrueLinksAt(items, hi - 1 - Size(r), l)
  }

  /** Every right operand has at most 32767 items. */
  predicate ShortRight(f: Formula)
  {
    match f
    case FVal(_) => true
    case FNot(a) => ShortRight(a)
    case FBin(_, l, r) => ShortRight(l) && ShortRight(r) && Size(r) <= 0x7FFF
  }

  /** The stored links are true exactly when no right operand is too long. */
  lemma {:induction false} LinksTrueIff(items: seq<Item>, hi: int, f: Formula)
    requires LinksAt(items, hi, f)
    ensures TrueLinksAt(items, hi, f) <==> ShortRight(f)
    decreases f
  {
    match f
    case FVal(_) =>
    case FNot(a) => LinksTrueIff(items, hi - 1, a);
    case FBin(_, l, r) =>
      LinksTrueIff(items, hi - 1, r);
      LinksTrueIff(items, hi - 1 - Size(r), l);
  }

  /** The polish notation of `f` lies in a list from place `off` on. */
  ghost predicate PostfixFrom(nodes: seq<Node>, off: int, f: Formula)
  {
    0 <= off && off + Size(f) <= |nodes| && forall i | 0 <= i < Size(f) :: nodes[off + i] == Postfix(f)[i]
  }

  lemma {:induction false} OperandsFrom(nodes: seq<Node>, off: int, f: Formula)
    requires f.FBin? && PostfixFrom(nodes, off, f)
    ensures PostfixFrom(nodes, off, f.left) && PostfixFrom(nodes, off + Size(f.left), f.right)
    ensures nodes[off + Size(f) - 1] == Top(f)
  {
    var l, r, p := Postfix(f.left), Postfix(f.right), Postfix(f);
    assert p == l + r + [Opr(Connective(f.conj))];
    forall i | 0 <= i < |l| ensures nodes[off + i] == l[i] {
      assert p[i] == l[i];
    }
    forall i | 0 <= i < |r| ensures nodes[off + |l| + i] == r[i] {
      assert nodes[off + (|l| + i)] == p[|l| + i] == r[i];
    }
    assert nodes[off + (Size(f) - 1)] == p[Size(f) - 1];
  }

  lemma {:induction false} PostfixLies(nodes: seq<Node>, off: int, f: Formula)
    requires PostfixFrom(nodes, off, f)
    ensures NodesAt(nodes, off + Size(f) - 1, f)
    decreases f
  {
    match f
    case FVal(_) =>
      assert nodes[off + 0] == Postfix(f)[0];
    case FNot(a) =>
      assert nodes[off + Size(a)] == Postfix(f)[Size(a)];
      forall i | 0 <= i < Size(a) ensures nodes[off + i] == Postfix(a)[i] {
        assert Postfix(f)[i] == Postfix(a)[i];
      }
      PostfixLies(nodes, off, a);
    case FBin(_, l, r) =>
      OperandsFrom(nodes, off, f);
      PostfixLies(nodes, off, l);
      PostfixLies(nodes, off + Size(l), r);
  }

  lemma {:induction false} PostfixAt(f: Formula)
    ensures NodesAt(Postfix(f), Size(f) - 1, f)
  {
    PostfixLies(Postfix(f), 0, f);
  }

  /** Only the items of the formula matter. */
  lemma {:induction false} LinksAtFrame(a: seq<Item>, b: seq<Item>, hi: int, f: Formula)
    requires LinksAt(a, hi, f) && |a| == |b|
    requires forall i | hi - Size(f) < i <= hi :: a[i] == b[i]
    ensures LinksAt(b, hi, f)
    decreases f
  {
    match f
    case FVal(_) =>
    case FNot(x) => LinksAtFrame(a, b, hi - 1, x);
    case FBin(_, l, r) =>
      LinksAtFrame(a, b, hi - 1, r);
      LinksAtFrame(a, b, hi - 1 - Size(r), l);
  }

  ghost predicate HoldsNodes(ptr: seq<Item>, nodes: seq<Node>)
  {
    |ptr| == |nodes| && forall i | 0 <= i < |ptr| :: ptr[i].node == nodes[i]
  }

  /** Nothing has changed but items behind `lo`, up to `hi`. */
  ghost predicate SameOutside(a: seq<Item>, b: seq<Item>, lo: int, hi: int)
  {
    |a| == |b| && forall i | 0 <= i < |a| && !(lo < i <= hi) :: a[i] == b[i]
  }

  /** The items before and after the right operand, its link, and the left operand. */
  lemma {:induction false} BinaryLinked(s: seq<Item>, t: seq<Item>, u: seq<Item>, v: seq<Item>, pos: int, f: Formula)
    requires f.FBin? && Size(f) - 1 <= pos < |s|
    requires SameOutside(s, t, pos - 1 - Size(f.right), pos - 1) && LinksAt(t, pos - 1, f.right)
    requires u == t[pos := Item(Top(f), Wrap16(TopLink(f)))]
    requires SameOutside(u, v, pos - Size(f), pos - 1 - Size(f.right)) && LinksAt(v, pos - 1 - Size(f.right), f.left)
    ensures LinksAt(v, pos, f) && SameOutside(s, v, pos - Size(f), pos)
  {
    LinksAtFrame(t, v, pos - 1, f.right);
  }

  lemma {:induction false} NotLinked(u: seq<Item>, v: seq<Item>, pos: int, f: Formula)
    requires f.FNot? && Size(f) - 1 <= pos < |u| && u[pos] == Item(Top(f), -1)
    requires SameOutside(u, v, pos - Size(f), pos - 1) && LinksAt(v, pos - 1, f.arg)
    ensures LinksAt(v, pos, f)
  {
  }

  /** Sets the link of every item of the operand that ends at `pos`, and moves to the item
      before it. */
  method FindOprnd(ptr: array<Item>, pos: int, ghost nodes: seq<Node>, ghost f: Formula) returns (pos': int)
    requires HoldsNodes(ptr[..], nodes) && NodesAt(nodes, pos, f)
    modifies ptr
    ensures pos' == pos - Size(f)
    ensures HoldsNodes(ptr[..], nodes) && LinksAt(ptr[..], pos, f)
    ensures SameOutside(old(ptr[..]), ptr[..], pos', pos)
    decreases f
  {
    ghost var s := ptr[..];
    assert s[pos].node == nodes[pos];
    if ptr[pos].node.Val? {
      ptr[pos] := ptr[pos].(left := 0);
      pos' := pos - 1;
    } else if ptr[pos].node.op == Not {
      ptr[pos] := ptr[pos].(left := -1);
      ghost var u := ptr[..];
      pos' := FindOprnd(ptr, pos - 1, nodes, f.arg);
      NotLinked(u, ptr[..], pos, f);
    } else {
      pos' := FindOprnd(ptr, pos - 1, nodes, f.right);
      ghost var t := ptr[..];
      assert t[pos].node == nodes[pos];
      ptr[pos] := ptr[pos].(left := Wrap16(pos' - pos));
      ghost var u := ptr[..];
      pos' := FindOprnd(ptr, pos', nodes, f.left);
      BinaryLinked(s, t, u, ptr[..], pos, f);
    }
  }

  // ---------------------------------------------------------------- evaluation

  /** Links lead to items before their own. */
  predicate WellLinked(items: seq<Item>)
  {
    forall i | 0 <= i < |items| :: LinkDown(items[i], i)
  }

  predicate LinkDown(it: Item, i: int)
  {
    match it.node
    case Val(_) => true
    case Opr(Not) => i >= 1
    case Opr(_) => i >= 1 && -i <= it.left < 0
  }

  /** Evaluates the query rooted at item `i`; `chk` decides the items that hold values.
      Without `calcnot` a negation counts as possibly true. */
  predicate Execute(items: seq<Item>, i: int, calcnot: bool, chk: int -> bool)
    requires WellLinked(items) && 0 <= i < |items|
    decreases i
  {
    var it := items[i];
    assert LinkDown(it, i);
    match it.node
    case Val(_) => chk(i)
    case Opr(Not) => if calcnot then !Execute(items, i - 1, calcnot, chk) else true
    case Opr(And) => Execute(items, i + it.left, calcnot, chk) && Execute(items, i - 1, calcnot, chk)
    case Opr(Or) => Execute(items, i + it.left, calcnot, chk) || Execute(items, i - 1, calcnot, chk)
  }

  lemma {:induction false} LinksDown(items: seq<Item>, hi: int, f: Formula)
    requires TrueLinksAt(items, hi, f)
    ensures forall i | hi - Size(f) < i <= hi :: LinkDown(items[i], i)
    decreases f
  {
    match f
    case FVal(_) =>
    case FNot(a) => LinksDown(items, hi - 1, a);
    case FBin(_, l, r) =>
      LinksDown(items, hi - 1, r);
      LinksDown(items, hi - 1 - Size(r), l);
  }

  /** The valuation by items says what the valuation by numbers says. */
  ghost predicate Decides(items: seq<Item>, chk: int -> bool, holds: int -> bool)
  {
    forall j | 0 <= j < |items| && items[j].node.Val? :: chk(j) == holds(items[j].node.val)
  }

  /** Following true links computes the truth of the formula. */
  lemma {:induction false} ExecuteIsTruth(items: seq<Item>, hi: int, f: Formula, chk: int -> bool, holds: int -> bool)
    requires WellLinked(items) && TrueLinksAt(items, hi, f) && Decides(items, chk, holds)
    ensures Execute(items, hi, true, chk) == Truth(f, holds)
    decreases f
  {
    match f
    case FVal(_) =>
    case FNot(a) => ExecuteIsTruth(items, hi - 1, a, chk, holds);
    case FBin(_, l, r) =>
      ExecuteIsTruth(items, hi - 1, r, chk, holds);
      ExecuteIsTruth(items, hi - 1 - Size(r), l, chk, holds);
  }

  // ---------------------------------------------------------------- from text to items

  /** The items of a whole query. */
  ghost predicate QueryOf(items: seq<Item>, f: Formula)
  {
    |items| == Size(f) && LinksAt(items, |items| - 1, f)
  }

  /** A stored query evaluates to the truth of what was written, under every valuation,
      unless one of its right operands is longer than a link. */
  lemma {:induction false} QueryMeaning(items: seq<Item>, f: Formula)
    requires QueryOf(items, f) && ShortRight(f)
    ensures WellLinked(items)
    ensures forall chk: int -> bool, holds: int -> bool | Decides(items, chk, holds) ::
      Execute(items, |items| - 1, true, chk) == Truth(f, holds)
  {
    LinksTrueIff(items, |items| - 1, f);
    LinksDown(items, |items| - 1, f);
    forall chk: int -> bool, holds: int -> bool | Decides(items, chk, holds)
      ensures Execute(items, |items| - 1, true, chk) == Truth(f, holds)
    {
      ExecuteIsTruth(items, |items| - 1, f, chk, holds);
    }
  }

  datatype InError = SyntaxProblem | TooComplexProblem | EmptyQuery | TooManyItems

  datatype InResult = Query(items: seq<Item>) | Failed(error: InError)

  function Tokens(text: string): seq<Token>
  {
    Stream(text, WaitOperand, 0)
  }

  /** What the input function makes of a text, said of the text itself: a query if and only if it
      spells an expression within the limits, and then that of the expression. */
  ghost predicate ReadsText(text: string, r: InResult)
  {
    && (r.Query? || r == Failed(TooManyItems) ==> exists e :: Spells(text, ExprTokens(e)))
    && forall e | Spells(text, ExprTokens(e)) ::
      if !ExprFits(e, STACKDEPTH) then r == Failed(TooComplexProblem)
      else if Size(ExprFormula(e)) > MAXITEMS then r == Failed(TooManyItems)
      else r.Query? && QueryOf(r.items, ExprFormula(e))
  }

  /** The input function of the type. */
  method BqarrIn(text: string) returns (r: InResult)
    ensures r.Query? <==> exists e ::
      Tokens(text) == ExprTokens(e) + [TEnd] && ExprFits(e, STACKDEPTH) && Size(ExprFormula(e)) <= MAXITEMS
    ensures forall e | Tokens(text) == ExprTokens(e) + [TEnd] ::
      if !ExprFits(e, STACKDEPTH) then r == Failed(TooComplexProblem)
      else if Size(ExprFormula(e)) > MAXITEMS then r == Failed(TooManyItems)
      else r.Query? && QueryOf(r.items, ExprFormula(e))
    ensures NoNul(text) ==> ReadsText(text, r)
    ensures r != Failed(EmptyQuery)
  {
    var state := new WorkState(text);
    assert text[0..] == text;
    StreamShaped(text, WaitOperand, 0);
    PolExact(Tokens(text));
    var o := state.MakePol();
    if NoNul(text) {
      forall e ensures Tokens(text) == ExprTokens(e) + [TEnd] <==> Spells(text, ExprTokens(e)) {
        TokensIff(text, e);
      }
    }
    if o == SyntaxFailure {
      return Failed(SyntaxProblem);
    } else if o == ComplexFailure {
      return Failed(TooComplexProblem);
    }
    ghost var e :| Tokens(text) == ExprTokens(e) + [TEnd] && ExprFits(e, STACKDEPTH);
    if state.num == 0 {
      return Failed(EmptyQuery);
    }
    if state.num > MAXITEMS {
      return Failed(TooManyItems);
    }
    var items := BuildItems(state.str, ExprFormula(e));
    r := Query(items);
    forall e1 | Tokens(text) == ExprTokens(e1) + [TEnd] ensures ExprFormula(e1) == ExprFormula(e) {
      OneReading(ExprFormula(e1), ExprFormula(e));
    }
  }

  /** Copies the polish notation into an item array and links it. */
  method BuildItems(str: seq<Node>, ghost f: Formula) returns (items: seq<Item>)
    requires str == Postfix(f)
    ensures QueryOf(items, f)
  {
    var ptr := new Item[|str|];
    var i := |str| - 1;
    while i >= 0
      invariant -1 <= i < |str|
      invariant forall j | i < j < |str| :: ptr[j].node == str[j]
    {
      ptr[i] := Item(str[i], 0);
      i := i - 1;
    }
    PostfixAt(f);
    var pos := FindOprnd(ptr, |str| - 1, str, f);
    items := ptr[..];
  }

  /** A polish notation has one reading. */
  lemma {:induction false} OneReading(f: Formula, g: Formula)
    requires Postfix(f) == Postfix(g)
    ensures f == g
  {
    var nodes := Postfix(f);
    PostfixAt(f);
    PostfixAt(g);
    SameNodes(nodes, |nodes| - 1, f, g);
  }

  lemma {:induction false} SameNodes(nodes: seq<Node>, hi: int, f: Formula, g: Formula)
    requires NodesAt(nodes, hi, f) && NodesAt(nodes, hi, g)
    ensures f == g
    decreases f
  {
    match f
    case FVal(_) =>
    case FNot(a) => SameNodes(nodes, hi - 1, a, g.arg);
    case FBin(_, l, r) =>
      SameNodes(nodes, hi - 1, r, g.right);
      SameNodes(nodes, hi - 1 - Size(r), l, g.left);
  }

  // ---------------------------------------------------------------- the limit of a link

  /** Evaluation cannot follow the last link of a query whose right operand has 32768 up to
      65534 items: it leads out of the array. */
  lemma {:induction false} LongRightOperand(items: seq<Item>, conj: bool, l: Formula, r: Formula)
    requires QueryOf(items, FBin(conj, l, r)) && 0x8000 <= Size(r) < 0xFFFF
    ensures |items| - 1 + items[|items| - 1].left >= |items|
  {
    Wrap16Under(TopLink(FBin(conj, l, r)));
  }
}
