/** What the indexes need of a compiled query: the approximate evaluation behind signature
    and set keys, and the extraction and evaluation behind GIN
    (contrib/intarray/_int_bool.c, contrib/intarray/_int_gin.c). */
module QueryIndex {
  import opened QuerySyntax
  import opened QueryEval
  import opened IntTool

  // ---------------------------------------------------------------- approximate evaluation

  /** If a query holds exactly, it holds approximately, however much the values known to be
      present are overestimated. */
  lemma {:induction false} ApproximationSound(items: seq<Item>, i: int, exact: int -> bool, loose: int -> bool)
    requires WellLinked(items) && 0 <= i < |items|
    requires forall j | 0 <= j < |items| && items[j].node.Val? && exact(j) :: loose(j)
    requires Execute(items, i, true, exact)
    ensures Execute(items, i, false, loose)
    decreases i
  {
    assert LinkDown(items[i], i);
    match items[i].node
    case Val(_) =>
    case Opr(Not) =>
    case Opr(And) =>
      ApproximationSound(items, i + items[i].left, exact, loose);
      ApproximationSound(items, i - 1, exact, loose);
    case Opr(Or) =>
      if Execute(items, i + items[i].left, true, exact) {
        ApproximationSound(items, i + items[i].left, exact, loose);
      } else {
        ApproximationSound(items, i - 1, exact, loose);
      }
  }

  /** Only the items that hold values ask the valuation. */
  lemma {:induction false} ExecuteCongruent(items: seq<Item>, i: int, calcnot: bool, a: int -> bool, b: int -> bool)
    requires WellLinked(items) && 0 <= i < |items|
    requires forall j | 0 <= j < |items| && items[j].node.Val? :: a(j) == b(j)
    ensures Execute(items, i, calcnot, a) == Execute(items, i, calcnot, b)
    decreases i
  {
    assert LinkDown(items[i], i);
    match items[i].node
    case Val(_) =>
    case Opr(Not) => ExecuteCongruent(items, i - 1, calcnot, a, b);
    case Opr(_) =>
      ExecuteCongruent(items, i + items[i].left, calcnot, a, b);
      ExecuteCongruent(items, i - 1, calcnot, a, b);
  }

  /** The truth of a formula with every negation taken as true. */
  function Relaxed(f: Formula, holds: int -> bool): bool
  {
    match f
    case FVal(v) => holds(v)
    case FNot(_) => true
    case FBin(conj, l, r) =>
      if conj then Relaxed(l, holds) && Relaxed(r, holds) else Relaxed(l, holds) || Relaxed(r, holds)
  }

  /** That is what the approximate evaluation computes. */
  lemma {:induction false} ExecuteIsRelaxed(items: seq<Item>, hi: int, f: Formula, chk: int -> bool, holds: int -> bool)
    requires WellLinked(items) && TrueLinksAt(items, hi, f) && Decides(items, chk, holds)
    ensures Execute(items, hi, false, chk) == Relaxed(f, holds)
    decreases f
  {
    match f
    case FVal(_) =>
    case FNot(_) =>
    case FBin(_, l, r) =>
      ExecuteIsRelaxed(items, hi - 1, r, chk, holds);
      ExecuteIsRelaxed(items, hi - 1 - Size(r), l, chk, holds);
  }

  /** Nothing is negated. */
  predicate Positive(items: seq<Item>)
  {
    forall i | 0 <= i < |items| :: items[i].node != Opr(Not)
  }

  lemma {:induction false} PositiveExact(items: seq<Item>, i: int, chk: int -> bool)
    requires WellLinked(items) && 0 <= i < |items| && Positive(items)
    ensures Execute(items, i, false, chk) == Execute(items, i, true, chk)
    decreases i
  {
    assert LinkDown(items[i], i) && items[i].node != Opr(Not);
    if items[i].node.Opr? {
      PositiveExact(items, i + items[i].left, chk);
      PositiveExact(items, i - 1, chk);
    }
  }

  // ---------------------------------------------------------------- searching a sorted array

  method CheckConditionArr(arr: seq<int>, val: int) returns (found: bool)
    requires Sorted(arr)
    ensures found <==> val in arr
  {
    var low, high := 0, |arr|;
    while low < high
      invariant 0 <= low <= high <= |arr|
      invariant forall i | 0 <= i < low :: arr[i] < val
      invariant forall i | high <= i < |arr| :: val < arr[i]
    {
      var middle := low + (high - low) / 2;
      if arr[middle] == val {
        return true;
      } else if arr[middle] < val {
        low := middle + 1;
      } else {
        high := middle;
      }
    }
    return false;
  }

  function InArray(items: seq<Item>, arr: seq<int>): int -> bool
  {
    j => 0 <= j < |items| && items[j].node.Val? && items[j].node.val in arr
  }

  /** Evaluation against a sorted array, by binary search. */
  method ExecConsistent(items: seq<Item>, i: int, arr: seq<int>, calcnot: bool) returns (r: bool)
    requires WellLinked(items) && 0 <= i < |items| && Sorted(arr)
    ensures r == Execute(items, i, calcnot, InArray(items, arr))
    decreases i
  {
    var it := items[i];
    assert LinkDown(it, i);
    match it.node {
      case Val(v) => r := CheckConditionArr(arr, v);
      case Opr(Not) =>
        if calcnot {
          r := ExecConsistent(items, i - 1, arr, calcnot);
          r := !r;
        } else {
          r := true;
        }
      case Opr(op) =>
        r := ExecConsistent(items, i + it.left, arr, calcnot);
        if r == (op == And) {
          r := ExecConsistent(items, i - 1, arr, calcnot);
        }
    }
  }

  // ---------------------------------------------------------------- GIN

  /** The values a query mentions, in the order of their items, up to item `n`. */
  function Values(items: seq<Item>, n: nat): (vs: seq<int>)
    requires n <= |items|
    ensures |vs| <= n
  {
    if n == 0 then []
    else if items[n - 1].node.Val? then Values(items, n - 1) + [items[n - 1].node.val]
    else Values(items, n - 1)
  }

  predicate ContainsRequired(items: seq<Item>, i: int)
    requires WellLinked(items) && 0 <= i < |items|
    decreases i
  {
    var it := items[i];
    assert LinkDown(it, i);
    match it.node
    case Val(_) => true
    case Opr(Not) => false
    case Opr(And) => ContainsRequired(items, i + it.left) || ContainsRequired(items, i - 1)
    case Opr(Or) => ContainsRequired(items, i + it.left) && ContainsRequired(items, i - 1)
  }

  lemma {:induction false} ValuesHold(items: seq<Item>, n: nat, j: nat)
    requires j < n <= |items| && items[j].node.Val?
    ensures |Values(items, j)| < |Values(items, n)|
    ensures Values(items, n)[|Values(items, j)|] == items[j].node.val
  {
    if n > j + 1 {
      ValuesHold(items, n - 1, j);
    }
  }

  /** A query with a required value is true only of arrays that hold a mentioned value. */
  lemma {:induction false} RequiredIsPresent(items: seq<Item>, i: int, arr: seq<int>)
    requires WellLinked(items) && 0 <= i < |items|
    requires ContainsRequired(items, i) && Execute(items, i, true, InArray(items, arr))
    ensures exists v | v in Values(items, |items|) :: v in arr
    decreases i
  {
    assert LinkDown(items[i], i);
    match items[i].node
    case Val(v) =>
      ValuesHold(items, |items|, i);
      assert v in Values(items, |items|);
    case Opr(Not) =>
    case Opr(And) =>
      if ContainsRequired(items, i + items[i].left) {
        RequiredIsPresent(items, i + items[i].left, arr);
      } else {
        RequiredIsPresent(items, i - 1, arr);
      }
    case Opr(Or) =>
      if Execute(items, i + items[i].left, true, InArray(items, arr)) {
        RequiredIsPresent(items, i + items[i].left, arr);
      } else {
        RequiredIsPresent(items, i - 1, arr);
      }
  }

  datatype SearchMode = Default | IncludeEmpty | All

  datatype GinQuery =
    | Overlap(q: seq<int>)
    | Contains(q: seq<int>)
    | ContainedBy(q: seq<int>)
    | Same(q: seq<int>)
    | Boolean(items: seq<Item>)

  /** A stored query is well linked; an array query is any array. */
  predicate Usable(query: GinQuery)
  {
    query.Boolean? ==> WellLinked(query.items)
  }

  /** What the operator says of an indexed array. */
  ghost predicate Satisfies(arr: seq<int>, query: GinQuery)
    requires Usable(query)
  {
    match query
    case Overlap(q) => exists v :: v in q && v in arr
    case Contains(q) => forall v | v in q :: v in arr
    case ContainedBy(q) => forall v | v in arr :: v in q
    case Same(q) => forall v :: v in q <==> v in arr
    case Boolean(items) => items != [] && Execute(items, |items| - 1, true, InArray(items, arr))
  }

  /** What is looked up in the index, and how it is searched. */
  function Entries(query: GinQuery): seq<int>
  {
    if query.Boolean? then Values(query.items, |query.items|) else query.q
  }

  function Mode(query: GinQuery): SearchMode
    requires Usable(query)
  {
    match query
    case Boolean(items) =>
      if items == [] || ContainsRequired(items, |items| - 1) then Default else All
    case Overlap(_) => Default
    case ContainedBy(_) => IncludeEmpty
    case Same(q) => if q == [] then IncludeEmpty else Default
    case Contains(q) => if q == [] then All else Default
  }

  method QueryExtract(query: GinQuery) returns (entries: seq<int>, mode: SearchMode)
    requires Usable(query)
    ensures entries == Entries(query) && mode == Mode(query)
  {
    if query.Boolean? {
      var items := query.items;
      if items == [] {
        return [], Default;
      }
      mode := if ContainsRequired(items, |items| - 1) then Default else All;
      entries := [];
      for i := 0 to |items|
        invariant entries == Values(items, i)
      {
        if items[i].node.Val? {
          entries := entries + [items[i].node.val];
        }
      }
    } else {
      entries := query.q;
      mode := match query
        case Overlap(_) => Default
        case ContainedBy(_) => IncludeEmpty
        case Same(q) => if |q| > 0 then Default else IncludeEmpty
        case Contains(q) => if |q| > 0 then Default else All
        case Boolean(_) => Default;
    }
  }

  /** `check` tells which extracted values the array has. */
  ghost predicate Checks(check: seq<bool>, entries: seq<int>, arr: seq<int>)
  {
    |check| == |entries| && forall j | 0 <= j < |check| :: check[j] == (entries[j] in arr)
  }

  /** Which arrays the index presents: in default mode those with an extracted value. */
  ghost predicate Presented(mode: SearchMode, entries: seq<int>, arr: seq<int>)
  {
    || (exists v | v in entries :: v in arr)
    || mode == All
    || (mode == IncludeEmpty && arr == [])
  }

  method GinBoolConsistent(items: seq<Item>, check: seq<bool>, ghost arr: seq<int>) returns (r: bool)
    requires WellLinked(items) && Checks(check, Values(items, |items|), arr)
    ensures r == (items != [] && Execute(items, |items| - 1, true, InArray(items, arr)))
  {
    if |items| <= 0 {
      return false;
    }
    var mapped: seq<bool> := [];
    var j := 0;
    for i := 0 to |items|
      invariant |mapped| == i && j == |Values(items, i)|
      invariant forall k | 0 <= k < i && items[k].node.Val? :: mapped[k] == (items[k].node.val in arr)
    {
      if items[i].node.Val? {
        ValuesHold(items, |items|, i);
        mapped := mapped + [check[j]];
        j := j + 1;
      } else {
        mapped := mapped + [false];
      }
    }
    var chk := (k: int) => 0 <= k < |mapped| && mapped[k];
    ExecuteCongruent(items, |items| - 1, true, chk, InArray(items, arr));
    r := Execute(items, |items| - 1, true, chk);
  }

  /** The verdict on an array of which the extracted values present are known. */
  ghost predicate Accepts(query: GinQuery, arr: seq<int>)
    requires Usable(query)
  {
    match query
    case Overlap(_) => true
    case ContainedBy(_) => true
    case Same(q) => forall v | v in q :: v in arr
    case Contains(q) => forall v | v in q :: v in arr
    case Boolean(_) => Satisfies(arr, query)
  }

  predicate Rechecked(query: GinQuery) { query.Same? || query.ContainedBy? }

  method GinConsistent(query: GinQuery, check: seq<bool>, ghost arr: seq<int>) returns (r: bool, recheck: bool)
    requires Usable(query) && Checks(check, Entries(query), arr)
    ensures r == Accepts(query, arr) && recheck == Rechecked(query)
  {
    recheck := query.Same? || query.ContainedBy?;
    match query {
      case Overlap(_) => r := true;
      case ContainedBy(_) => r := true;
      case Same(q) => r := AllTrue(check, q, arr);
      case Contains(q) => r := AllTrue(check, q, arr);
      case Boolean(items) => r := GinBoolConsistent(items, check, arr);
    }
  }

  method AllTrue(check: seq<bool>, ghost q: seq<int>, ghost arr: seq<int>) returns (r: bool)
    requires Checks(check, q, arr)
    ensures r <==> forall v | v in q :: v in arr
  {
    for i := 0 to |check|
      invariant forall k | 0 <= k < i :: q[k] in arr
    {
      if !check[i] {
        ghost var v := q[i];
        assert v in q && v !in arr;
        return false;
      }
    }
    return true;
  }

  /** The index answers as the operator does: a matching array is presented and accepted,
      and where no recheck is asked for, a presented and accepted array matches. */
  lemma {:induction false} GinExact(query: GinQuery, arr: seq<int>)
    requires Usable(query)
    ensures Satisfies(arr, query) ==> Presented(Mode(query), Entries(query), arr) && Accepts(query, arr)
    ensures Presented(Mode(query), Entries(query), arr) && Accepts(query, arr) && !Rechecked(query)
      ==> Satisfies(arr, query)
  {
    if Satisfies(arr, query) {
      match query
      case Overlap(q) =>
      case ContainedBy(q) =>
        if arr != [] {
          var v := arr[0];
          assert v in arr;
        }
      case Same(q) =>
        if q != [] {
          var v := q[0];
          assert v in q;
        }
        if arr != [] {
          var v := arr[0];
          assert v in arr;
        }
      case Contains(q) =>
        if q != [] {
          var v := q[0];
          assert v in q;
        }
      case Boolean(items) =>
        if ContainsRequired(items, |items| - 1) {
          RequiredIsPresent(items, |items| - 1, arr);
        }
    }
  }

  // ---------------------------------------------------------------- no wider search than needed

  /** A query has a required value if and only if the approximate evaluation is false where no
      value is present. */
  lemma {:induction false} RequiredIff(items: seq<Item>, i: int, chk: int -> bool)
    requires WellLinked(items) && 0 <= i < |items|
    requires forall j | 0 <= j < |items| && items[j].node.Val? :: !chk(j)
    ensures ContainsRequired(items, i) <==> !Execute(items, i, false, chk)
    decreases i
  {
    assert LinkDown(items[i], i);
    match items[i].node
    case Val(_) =>
    case Opr(Not) =>
    case Opr(_) =>
      RequiredIff(items, i + items[i].left, chk);
      RequiredIff(items, i - 1, chk);
  }

  /** Only values are negated. */
  predicate Direct(items: seq<Item>)
  {
    forall i | 1 <= i < |items| && items[i].node == Opr(Not) :: items[i - 1].node.Val?
  }

  /** Without nested negations the approximation is exact where no value is present. */
  lemma {:induction false} DirectExact(items: seq<Item>, i: int, chk: int -> bool)
    requires WellLinked(items) && 0 <= i < |items| && Direct(items)
    requires forall j | 0 <= j < |items| && items[j].node.Val? :: !chk(j)
    ensures Execute(items, i, false, chk) == Execute(items, i, true, chk)
    decreases i
  {
    assert LinkDown(items[i], i);
    match items[i].node
    case Val(_) =>
    case Opr(Not) =>
      assert items[i - 1].node.Val?;
    case Opr(_) =>
      DirectExact(items, i + items[i].left, chk);
      DirectExact(items, i - 1, chk);
  }

  /** Searching this way presents every array that satisfies the query. */
  ghost predicate Suffices(mode: SearchMode, query: GinQuery)
    requires Usable(query)
  {
    forall arr | Satisfies(arr, query) :: Presented(mode, Entries(query), arr)
  }

  function Width(mode: SearchMode): int
  {
    match mode
    case Default => 0
    case IncludeEmpty => 1
    case All => 2
  }

  /** An integer that is not in a list. */
  function Fresh(s: seq<int>): (v: int)
    ensures v !in s && forall x | x in s :: x < v
  {
    if s == [] then 0
    else
      var w := Fresh(s[1..]);
      assert s == [s[0]] + s[1..];
      if s[0] >= w then s[0] + 1 else w
  }

  /** The search mode suffices, and no narrower one does, unless a negation is itself negated. */
  lemma {:induction false} ModeLeast(query: GinQuery, mode: SearchMode)
    requires Usable(query) && (query.Boolean? ==> Direct(query.items))
    ensures Suffices(mode, query) <==> Width(Mode(query)) <= Width(mode)
  {
    forall arr | Satisfies(arr, query) ensures Presented(Mode(query), Entries(query), arr) {
      GinExact(query, arr);
    }
    if Width(mode) < Width(Mode(query)) {
      var arr := Unseen(query, mode);
      assert !Presented(mode, Entries(query), arr);
    }
  }

  /** An array that a narrower search leaves out. */
  lemma {:induction false} Unseen(query: GinQuery, mode: SearchMode) returns (arr: seq<int>)
    requires Usable(query) && (query.Boolean? ==> Direct(query.items)) && Width(mode) < Width(Mode(query))
    ensures Satisfies(arr, query) && !Presented(mode, Entries(query), arr)
  {
    match query
    case Boolean(items) =>
      var v := Fresh(Values(items, |items|));
      arr := [v];
      var chk := InArray(items, arr);
      forall j | 0 <= j < |items| && items[j].node.Val? ensures !chk(j) {
        ValuesHold(items, |items|, j);
        assert items[j].node.val in Values(items, |items|);
      }
      RequiredIff(items, |items| - 1, chk);
      DirectExact(items, |items| - 1, chk);
    case Contains(q) => arr := [0];
    case _ => arr := [];
  }

  /** Of a query that negates a negation the mode may be wider than needed: `!(!1)` is searched
      for in the whole index, although every array that satisfies it has the value 1. */
  lemma {:induction false} NestedNegation(items: seq<Item>)
    requires items == [Item(Val(1), 0), Item(Opr(Not), -1), Item(Opr(Not), -1)]
    ensures WellLinked(items) && Mode(Boolean(items)) == All && Suffices(Default, Boolean(items))
  {
    assert LinkDown(items[1], 1) && LinkDown(items[2], 2);
    assert Values(items, 1) == [1] && Values(items, 2) == [1] && Values(items, 3) == [1];
    forall arr | Satisfies(arr, Boolean(items)) ensures Presented(Default, [1], arr) {
      var chk := InArray(items, arr);
      assert Execute(items, 2, true, chk) == !Execute(items, 1, true, chk);
      assert Execute(items, 1, true, chk) == !Execute(items, 0, true, chk);
      assert 1 in [1];
    }
  }

  /** Two arrays have the same of some values. */
  ghost predicate AgreeOn(entries: seq<int>, a: seq<int>, b: seq<int>)
  {
    forall v | v in entries :: v in a <==> v in b
  }

  /** The verdict rejects all it can: a presented array is accepted if and only if some array with
      the same of the extracted values satisfies the query. */
  lemma {:induction false} AcceptsIff(query: GinQuery, arr: seq<int>)
    requires Usable(query) && Presented(Mode(query), Entries(query), arr)
    ensures Accepts(query, arr) <==> exists other :: AgreeOn(Entries(query), arr, other) && Satisfies(other, query)
  {
    if Accepts(query, arr) {
      var other := Alike(query, arr);
    }
    if other :| AgreeOn(Entries(query), arr, other) && Satisfies(other, query) {
      AlikeAccepted(query, arr, other);
    }
  }

  /** The members of a list that an array has. */
  function Common(q: seq<int>, arr: seq<int>): (r: seq<int>)
    ensures forall v :: v in r <==> v in q && v in arr
  {
    if q == [] then [] else
      assert q == [q[0]] + q[1..];
      (if q[0] in arr then [q[0]] else []) + Common(q[1..], arr)
  }

  lemma {:induction false} Alike(query: GinQuery, arr: seq<int>) returns (other: seq<int>)
    requires Usable(query) && Presented(Mode(query), Entries(query), arr) && Accepts(query, arr)
    ensures AgreeOn(Entries(query), arr, other) && Satisfies(other, query)
  {
    match query
    case ContainedBy(q) => other := Common(q, arr);
    case Same(q) => other := q;
    case _ => other := arr;
  }

  lemma {:induction false} AlikeAccepted(query: GinQuery, arr: seq<int>, other: seq<int>)
    requires Usable(query) && AgreeOn(Entries(query), arr, other) && Satisfies(other, query)
    ensures Accepts(query, arr)
  {
    if query.Boolean? {
      var items := query.items;
      forall j | 0 <= j < |items| && items[j].node.Val? ensures InArray(items, arr)(j) == InArray(items, other)(j) {
        ValuesHold(items, |items|, j);
        assert items[j].node.val in Values(items, |items|);
      }
      ExecuteCongruent(items, |items| - 1, true, InArray(items, arr), InArray(items, other));
    }
  }
}
