/** The variable-length keys of btree_gist (contrib/btree_gist/btree_utils_var.c), for
    the one-byte-per-character type `bytea`.

    An inner key is an interval whose two ends are cut to a short prefix.  The upper end
    of a cut interval lies below some of the values under the key, so the search has to
    accept a query that starts with that end as well.  The module gives the invariant
    that makes this sound, proves that every nesting of unions keeps it, and gives the
    exact condition under which a page split keeps it. */
module VarKeys {
  import opened Options
  import opened Lex

  datatype Key = Key(lower: Bytes, upper: Bytes)

  /** The type-dependent comparison a key type supplies; `Cmp` for `bytea`. */
  type Compare = (Bytes, Bytes) -> int

  datatype Strategy = Less | LessEqual | Equal | GreaterEqual | Greater | NotEqual | Unknown

  // ---------------------------------------------------------------- key operations

  /** The length of the prefix that both ends of a node key share. */
  method NodeCpLen(node: Key) returns (len: nat)
    ensures len == Cp(node.lower, node.upper)
  {
    var ml := if |node.lower| <= |node.upper| then |node.lower| else |node.upper|;
    if ml == 0 {
      return 0;
    }
    var i := 0;
    while i < ml
      invariant 0 <= i <= ml
      invariant node.lower[..i] == node.upper[..i]
    {
      if node.lower[i] != node.upper[i] {
        CpUnique(node.lower, node.upper, i);
        return i;
      }
      i := i + 1;
    }
    CpUnique(node.lower, node.upper, ml);
    return ml;
  }

  function Take(s: Bytes, n: nat): Bytes
  {
    if |s| <= n then s else s[..n]
  }

  /** Both ends cut to one byte more than the given prefix length. */
  function Truncate(node: Key, cpfLength: nat): Key
  {
    Key(Take(node.lower, cpfLength + 1), Take(node.upper, cpfLength + 1))
  }

  /** Smallest interval around two keys. */
  function Join(cmp: Compare, a: Key, b: Key): Key
  {
    Key(if cmp(a.lower, b.lower) > 0 then b.lower else a.lower,
        if cmp(a.upper, b.upper) < 0 then b.upper else a.upper)
  }

  function JoinTo(cmp: Compare, es: seq<Key>, n: nat): Key
    requires 1 <= n <= |es|
  {
    if n == 1 then es[0] else Join(cmp, JoinTo(cmp, es, n - 1), es[n - 1])
  }

  function JoinAll(cmp: Compare, es: seq<Key>): Key
    requires es != []
  {
    JoinTo(cmp, es, |es|)
  }

  /** Enlarges the accumulated key, which may still be missing, by one entry. */
  method BinUnion(cmp: Compare, u: Option<Key>, e: Key) returns (r: Option<Key>)
    ensures r == Some(if u.None? then e else Join(cmp, u.value, e))
  {
    if u.None? {
      return Some(e);
    }
    var lower, upper, update := u.value.lower, u.value.upper, false;
    if cmp(lower, e.lower) > 0 {
      lower, update := e.lower, true;
    }
    if cmp(upper, e.upper) < 0 {
      upper, update := e.upper, true;
    }
    r := if update then Some(Key(lower, upper)) else u;
  }

  /** What the union of a page's entries stores. */
  function UnionKey(cmp: Compare, es: seq<Key>): Key
    requires es != []
  {
    var out := JoinAll(cmp, es);
    Truncate(out, Cp(out.lower, out.upper) + 1)
  }

  method Union(cmp: Compare, es: seq<Key>) returns (out: Key)
    requires es != []
    ensures out == UnionKey(cmp, es)
  {
    var acc := Some(es[0]);
    var i := 1;
    while i < |es|
      invariant 1 <= i <= |es|
      invariant acc == Some(JoinTo(cmp, es, i))
    {
      acc := BinUnion(cmp, acc, es[i]);
      i := i + 1;
    }
    var plen := NodeCpLen(acc.value);
    out := Truncate(acc.value, plen + 1);
  }

  /** Prefix test on both ends. */
  predicate PfMatch(k: Key, query: Bytes)
  {
    k.lower <= query || k.upper <= query
  }

  predicate Consistent(k: Key, query: Bytes, strategy: Strategy, isLeaf: bool)
  {
    match strategy
    case LessEqual =>
      if isLeaf then Cmp(query, k.lower) >= 0
      else Cmp(query, k.lower) >= 0 || PfMatch(k, query)
    case Less =>
      if isLeaf then Cmp(query, k.lower) > 0
      else Cmp(query, k.lower) >= 0 || PfMatch(k, query)
    case Equal =>
      if isLeaf then Cmp(query, k.lower) == 0
      else (Cmp(k.lower, query) <= 0 && Cmp(query, k.upper) <= 0) || PfMatch(k, query)
    case Greater =>
      if isLeaf then Cmp(query, k.upper) < 0
      else Cmp(query, k.upper) <= 0 || PfMatch(k, query)
    case GreaterEqual =>
      if isLeaf then Cmp(query, k.upper) <= 0
      else Cmp(query, k.upper) <= 0 || PfMatch(k, query)
    case NotEqual =>
      !(Cmp(query, k.lower) == 0 && Cmp(query, k.upper) == 0)
    case Unknown => false
  }

  /** Does the stored value satisfy `value <strategy> query`? */
  predicate Matches(v: Bytes, query: Bytes, strategy: Strategy)
  {
    match strategy
    case Less => Lt(v, query)
    case LessEqual => Le(v, query)
    case Equal => v == query
    case GreaterEqual => Le(query, v)
    case Greater => Lt(query, v)
    case NotEqual => v != query
    case Unknown => false
  }

  // ---------------------------------------------------------------- the invariant

  /** The upper end leaves at least two bytes behind the common prefix; only such an end
      may have been cut. */
  predicate Open(k: Key)
  {
    |k.upper| >= Cp(k.lower, k.upper) + 2
  }

  predicate Ordered(k: Key) { Le(k.lower, k.upper) }

  /** The values a key stands for. */
  predicate Covers(k: Key, v: Bytes)
  {
    && Le(k.lower, v)
    && (Le(v, k.upper) || (Open(k) && k.upper <= v))
  }

  predicate Inside(e: Key, k: Key)
  {
    Le(k.lower, e.lower) && Le(e.upper, k.upper)
  }

  lemma {:induction false} JoinBounds(a: Key, b: Key)
    requires Ordered(a)
    ensures Inside(a, Join(Cmp, a, b)) && Inside(b, Join(Cmp, a, b)) && Ordered(Join(Cmp, a, b))
  {
    var j := Join(Cmp, a, b);
    CmpZero(j.lower, j.lower);
    CmpZero(j.upper, j.upper);
    CmpTotal(b.lower, a.lower);
    CmpTotal(b.upper, a.upper);
    CmpTotal(a.upper, b.upper);
    CmpTrans(j.lower, a.lower, a.upper);
    CmpTrans(j.lower, a.upper, j.upper);
  }

  lemma {:induction false} InsideTrans(e: Key, p: Key, j: Key)
    requires Inside(e, p) && Inside(p, j)
    ensures Inside(e, j)
  {
    CmpTrans(j.lower, p.lower, e.lower);
    CmpTrans(e.upper, p.upper, j.upper);
  }

  lemma {:induction false} JoinStep(es: seq<Key>, n: nat, p: Key)
    requires 1 < n <= |es| && Ordered(p)
    requires forall i | 0 <= i < n - 1 :: Inside(es[i], p)
    ensures Ordered(Join(Cmp, p, es[n - 1]))
    ensures forall i | 0 <= i < n :: Inside(es[i], Join(Cmp, p, es[n - 1]))
  {
    var j := Join(Cmp, p, es[n - 1]);
    JoinBounds(p, es[n - 1]);
    forall i | 0 <= i < n - 1 ensures Inside(es[i], j) {
      InsideTrans(es[i], p, j);
    }
  }

  lemma {:induction false} JoinToBounds(es: seq<Key>, n: nat)
    requires 1 <= n <= |es|
    requires forall i | 0 <= i < |es| :: Ordered(es[i])
    ensures Ordered(JoinTo(Cmp, es, n))
    ensures forall i | 0 <= i < n :: Inside(es[i], JoinTo(Cmp, es, n))
  {
    if n == 1 {
      CmpZero(es[0].lower, es[0].lower);
      CmpZero(es[0].upper, es[0].upper);
    } else {
      JoinToBounds(es, n - 1);
      JoinStep(es, n, JoinTo(Cmp, es, n - 1));
    }
  }

  /** The joined interval contains every entry's. */
  lemma {:induction false} JoinAllBounds(es: seq<Key>)
    requires es != []
    requires forall e | e in es :: Ordered(e)
    ensures Ordered(JoinAll(Cmp, es))
    ensures forall e | e in es :: Inside(e, JoinAll(Cmp, es))
  {
    JoinToBounds(es, |es|);
  }

  /** Its ends are those of two entries. */
  lemma {:induction false} JoinToEnds(es: seq<Key>, n: nat) returns (i: nat, j: nat)
    requires 1 <= n <= |es|
    ensures i < n && j < n && JoinTo(Cmp, es, n) == Key(es[i].lower, es[j].upper)
  {
    if n == 1 {
      i, j := 0, 0;
    } else {
      i, j := JoinToEnds(es, n - 1);
      i := if Cmp(es[i].lower, es[n - 1].lower) > 0 then n - 1 else i;
      j := if Cmp(es[j].upper, es[n - 1].upper) < 0 then n - 1 else j;
    }
  }

  /** The union of a page is the least lower and the greatest upper end, each without the bytes
      that lie more than two places behind what the two have in common. */
  lemma {:induction false} UnionEnds(es: seq<Key>) returns (i: nat, j: nat)
    requires es != [] && forall e | e in es :: Ordered(e)
    ensures i < |es| && j < |es|
    ensures forall e | e in es :: Le(es[i].lower, e.lower) && Le(e.upper, es[j].upper)
    ensures var low, high := es[i].lower, es[j].upper; var n := Cp(low, high) + 2;
      UnionKey(Cmp, es) == Key(if |low| <= n then low else low[..n], if |high| <= n then high else high[..n])
  {
    i, j := JoinToEnds(es, |es|);
    JoinAllBounds(es);
  }

  /** Cutting behind the common prefix plus two bytes keeps the order, the common prefix
      and, if it really cuts, opens the upper end. */
  lemma {:induction false} TruncateShape(k: Key, n: nat)
    requires Ordered(k) && n >= Cp(k.lower, k.upper) + 1
    ensures var t := Truncate(k, n);
      && t.lower <= k.lower && t.upper <= k.upper
      && Cp(t.lower, t.upper) == Cp(k.lower, k.upper)
      && Ordered(t)
      && (t.upper == k.upper || Open(t))
      && (Open(k) ==> Open(t))
  {
    var t := Truncate(k, n);
    assert t.lower == k.lower[..|t.lower|] && t.upper == k.upper[..|t.upper|];
    CpTake(k.lower, k.upper, |t.lower|, |t.upper|);
  }

  /** A value not above the whole upper end is covered once that end is cut. */
  lemma {:induction false} CutCovers(k: Key, n: nat, v: Bytes)
    requires Ordered(k) && n >= Cp(k.lower, k.upper) + 1
    requires Le(k.lower, v) && Le(v, k.upper)
    ensures Covers(Truncate(k, n), v)
  {
    var t := Truncate(k, n);
    TruncateShape(k, n);
    PrefixLe(t.lower, k.lower);
    CmpTrans(t.lower, k.lower, v);
    CmpTotal(v, t.upper);
    if Lt(t.upper, v) {
      BetweenPrefix(t.upper, v, k.upper);
    }
  }

  /** Joining with further keys never opens the gap between an open end and the common
      prefix of the joined interval. */
  lemma {:induction false} JoinCpBound(es: seq<Key>, e: Key)
    requires e in es && (forall e | e in es :: Ordered(e))
    requires Open(e) && e.upper <= JoinAll(Cmp, es).upper
    ensures Cp(JoinAll(Cmp, es).lower, JoinAll(Cmp, es).upper) + 2 <= |e.upper|
  {
    var j := JoinAll(Cmp, es);
    JoinAllBounds(es);
    CpShrinks(j.lower, e.lower, e.upper);
    CpSplits(j.lower, e.upper);
    var k := Cp(j.lower, e.upper);
    assert e.upper[..k] == j.upper[..k] && e.upper[k] == j.upper[k];
    CpUnique(j.lower, j.upper, k);
  }

  /** One union keeps everything its entries cover. */
  lemma {:induction false} UnionCovers(es: seq<Key>, e: Key, v: Bytes)
    requires e in es && (forall e | e in es :: Ordered(e))
    requires Covers(e, v)
    ensures Ordered(UnionKey(Cmp, es)) && Covers(UnionKey(Cmp, es), v)
  {
    var j := JoinAll(Cmp, es);
    var n := Cp(j.lower, j.upper) + 1;
    JoinAllBounds(es);
    CmpTrans(j.lower, e.lower, v);
    TruncateShape(j, n);
    if Le(v, e.upper) {
      CmpTrans(v, e.upper, j.upper);
      CutCovers(j, n, v);
    } else if !(e.upper <= j.upper) {
      ExtendBelow(e.upper, v, j.upper);
      CutCovers(j, n, v);
    } else {
      JoinCpBound(es, e);
      var t := Truncate(j, n);
      PrefixLe(t.lower, j.lower);
      CmpTrans(t.lower, j.lower, v);
    }
  }

  // ---------------------------------------------------------------- whole trees

  /** How an inner key came about: leaf values, united or split in any nesting; the join of the
      keys below is cut to `cut + 1` bytes. */
  datatype Tree = Leaf(value: Bytes) | Node(children: seq<Tree>, cut: nat)

  ghost function TreeKey(t: Tree): Key
  {
    match t
    case Leaf(v) => Key(v, v)
    case Node(cs, n) =>
      if cs == [] then Key([], []) else Truncate(JoinAll(Cmp, seq(|cs|, i requires 0 <= i < |cs| => TreeKey(cs[i]))), n)
  }

  ghost function TreeKeys(cs: seq<Tree>): (ks: seq<Key>)
    ensures |ks| == |cs| && forall i | 0 <= i < |cs| :: ks[i] == TreeKey(cs[i])
  {
    seq(|cs|, i requires 0 <= i < |cs| => TreeKey(cs[i]))
  }

  lemma {:induction false} NodeKey(cs: seq<Tree>, n: nat)
    requires cs != []
    ensures TreeKey(Node(cs, n)) == Truncate(JoinAll(Cmp, TreeKeys(cs)), n)
  {
    assert seq(|cs|, i requires 0 <= i < |cs| => TreeKey(cs[i])) == TreeKeys(cs);
  }

  /** The length of the common prefix of a page. */
  function PageCp(es: seq<Key>): nat
    requires es != []
  {
    Cp(JoinAll(Cmp, es).lower, JoinAll(Cmp, es).upper)
  }

  /** A union cuts two bytes behind the common prefix; a split may cut later, but so that no
      entry escapes. */
  ghost predicate Fair(es: seq<Key>, n: nat)
    requires es != []
  {
    n == PageCp(es) + 1 || (n > PageCp(es) && forall e | e in es :: !Escapes(e, JoinAll(Cmp, es), n))
  }

  ghost predicate Built(t: Tree)
  {
    match t
    case Leaf(v) => InRange(v)
    case Node(cs, n) => cs != [] && (forall c | c in cs :: Built(c)) && Fair(TreeKeys(cs), n)
  }

  ghost predicate Below(v: Bytes, t: Tree)
  {
    match t
    case Leaf(w) => v == w
    case Node(cs, _) => exists c | c in cs :: Below(v, c)
  }

  lemma {:induction false} BelowInRange(v: Bytes, t: Tree)
    requires Built(t) && Below(v, t)
    ensures InRange(v)
    decreases t
  {
    if t.Node? {
      var c :| c in t.children && Below(v, c);
      BelowInRange(v, c);
    }
  }

  /** A fair cut keeps what the entries cover. */
  lemma {:induction false} FairCovers(es: seq<Key>, n: nat, e: Key, v: Bytes)
    requires e in es && (forall e | e in es :: Ordered(e)) && Fair(es, n) && InRange(v) && Covers(e, v)
    ensures Ordered(Truncate(JoinAll(Cmp, es), n)) && Covers(Truncate(JoinAll(Cmp, es), n), v)
  {
    if n == PageCp(es) + 1 {
      UnionCovers(es, e, v);
    } else {
      JoinAllBounds(es);
      TruncateShape(JoinAll(Cmp, es), n);
      SplitKeeps(es, n, e, v, JoinAll(Cmp, es));
    }
  }

  /** The prefix-cover invariant holds of every key at every height. */
  lemma {:induction false} TreeKeyCovers(t: Tree)
    requires Built(t)
    ensures Ordered(TreeKey(t))
    ensures forall v | Below(v, t) :: Covers(TreeKey(t), v)
  {
    match t
    case Leaf(v) =>
      CmpZero(v, v);
    case Node(cs, n) =>
      var keys := TreeKeys(cs);
      NodeKey(cs, n);
      forall i | 0 <= i < |cs|
        ensures Ordered(keys[i])
        ensures forall v | Below(v, cs[i]) :: Covers(keys[i], v)
      {
        TreeKeyCovers(cs[i]);
      }
      JoinAllBounds(keys);
      TruncateShape(JoinAll(Cmp, keys), n);
      forall v | Below(v, t) ensures Covers(TreeKey(t), v) {
        var i :| 0 <= i < |cs| && Below(v, cs[i]);
        BelowInRange(v, cs[i]);
        assert keys[i] in keys;
        FairCovers(keys, n, keys[i], v);
      }
  }

  /** A union of built trees is built, and its key is the union of their keys. */
  lemma {:induction false} UnionBuilt(cs: seq<Tree>)
    requires cs != [] && forall c | c in cs :: Built(c)
    ensures var t := Node(cs, PageCp(TreeKeys(cs)) + 1); Built(t) && TreeKey(t) == UnionKey(Cmp, TreeKeys(cs))
  {
    NodeKey(cs, PageCp(TreeKeys(cs)) + 1);
  }

  /** So is each half of a leaf page, however far behind the common prefix it is cut. */
  lemma {:induction false} LeafSplitBuilt(cs: seq<Tree>, n: nat)
    requires cs != [] && (forall c | c in cs :: c.Leaf? && InRange(c.value)) && n > PageCp(TreeKeys(cs))
    ensures Built(Node(cs, n)) && TreeKey(Node(cs, n)) == Truncate(JoinAll(Cmp, TreeKeys(cs)), n)
  {
    NodeKey(cs, n);
    forall e | e in TreeKeys(cs) ensures !Open(e) {
      var i :| 0 <= i < |cs| && TreeKeys(cs)[i] == e;
      assert cs[i] in cs;
      CpUnique(e.lower, e.upper, |e.lower|);
    }
  }

  /** A key that covers a matching value is never rejected, whatever the strategy. */
  lemma {:induction false} CoveredIsConsistent(k: Key, v: Bytes, query: Bytes, strategy: Strategy)
    requires Ordered(k) && Covers(k, v) && Matches(v, query, strategy)
    ensures Consistent(k, query, strategy, false)
  {
    CmpFlip(k.lower, query);
    CmpFlip(k.upper, query);
    match strategy
    case Less => CmpTrans(k.lower, v, query);
    case LessEqual => CmpTrans(k.lower, v, query);
    case Equal =>
    case Greater => UpperAccepts(k, v, query);
    case GreaterEqual => UpperAccepts(k, v, query);
    case NotEqual =>
      CmpZero(query, k.lower);
      CmpZero(query, k.upper);
      CmpTotal(k.lower, v);
      CmpZero(v, v);
      CpUnique(query, query, |query|);
  }

  lemma {:induction false} UpperAccepts(k: Key, v: Bytes, query: Bytes)
    requires Covers(k, v) && Le(query, v)
    ensures Cmp(query, k.upper) <= 0 || k.upper <= query
  {
    if Le(v, k.upper) {
      CmpTrans(query, v, k.upper);
    } else {
      CmpTotal(query, k.upper);
      if Lt(k.upper, query) {
        BetweenPrefix(k.upper, query, v);
      }
    }
  }

  /** No search loses a match: every inner key above a matching leaf value is consistent
      with the query, for all six strategies and at any height; on the leaf itself the
      test is exact. */
  lemma {:induction false} NoLostMatch(t: Tree, v: Bytes, query: Bytes, strategy: Strategy)
    requires Built(t) && Below(v, t)
    ensures Matches(v, query, strategy) ==> Consistent(TreeKey(t), query, strategy, false)
    ensures t.Leaf? ==> (Consistent(TreeKey(t), query, strategy, true) <==> Matches(v, query, strategy))
  {
    TreeKeyCovers(t);
    if Matches(v, query, strategy) {
      CoveredIsConsistent(TreeKey(t), v, query, strategy);
    }
    CmpFlip(v, query);
    CmpZero(v, query);
    CmpZero(query, v);
  }

  /** The values a key cannot exclude: those from the lower end to the upper, and what extends
      either end. */
  predicate Admits(k: Key, v: Bytes)
  {
    Le(k.lower, v) && (Le(v, k.upper) || k.lower <= v || k.upper <= v)
  }

  /** Above the leaves the strict orderings are tested like the others. */
  function Loose(strategy: Strategy): Strategy
  {
    if strategy == Less then LessEqual else if strategy == Greater then GreaterEqual else strategy
  }

  /** The test prunes all it can: above the leaves it is true if and only if a value the key
      cannot exclude satisfies the strategy, a strict one taken as not strict; a test for
      inequality, if and only if a value between the ends does. */
  lemma {:induction false} PrunesIff(k: Key, query: Bytes, strategy: Strategy)
    requires Ordered(k)
    ensures strategy != NotEqual ==>
      (Consistent(k, query, strategy, false) <==> exists v :: Admits(k, v) && Matches(v, query, Loose(strategy)))
    ensures Consistent(k, query, NotEqual, false) <==> exists v :: Le(k.lower, v) && Le(v, k.upper) && v != query
  {
    if strategy != NotEqual {
      if Consistent(k, query, strategy, false) {
        var v := AdmittedWitness(k, query, strategy);
      }
      if v :| Admits(k, v) && Matches(v, query, Loose(strategy)) {
        AdmittedFound(k, query, strategy, v);
      }
    }
    UnequalIff(k, query);
  }

  lemma {:induction false} AdmittedWitness(k: Key, query: Bytes, strategy: Strategy) returns (v: Bytes)
    requires Ordered(k) && strategy != NotEqual && Consistent(k, query, strategy, false)
    ensures Admits(k, v) && Matches(v, query, Loose(strategy))
  {
    CmpZero(k.lower, k.lower);
    CmpZero(k.upper, k.upper);
    CmpZero(query, query);
    CmpFlip(k.lower, query);
    if k.lower <= query {
      PrefixLe(k.lower, query);
    }
    if k.upper <= query {
      PrefixLe(k.upper, query);
      CmpTrans(k.lower, k.upper, query);
    }
    match strategy
    case Less => v := k.lower;
    case LessEqual => v := k.lower;
    case Equal => v := query;
    case _ => v := if Cmp(query, k.upper) <= 0 then k.upper else query;
  }

  lemma {:induction false} AdmittedFound(k: Key, query: Bytes, strategy: Strategy, v: Bytes)
    requires Ordered(k) && strategy != NotEqual && Admits(k, v) && Matches(v, query, Loose(strategy))
    ensures Consistent(k, query, strategy, false)
  {
    CmpFlip(k.lower, query);
    match strategy
    case Less => CmpTrans(k.lower, v, query);
    case LessEqual => CmpTrans(k.lower, v, query);
    case Equal =>
    case _ =>
      CmpTotal(query, k.upper);
      if Le(v, k.upper) {
        CmpTrans(query, v, k.upper);
      } else if Lt(k.upper, query) {
        CmpTrans(k.lower, k.upper, query);
        if k.upper <= v {
          BetweenPrefix(k.upper, query, v);
        } else {
          BetweenPrefix(k.lower, query, v);
        }
      }
  }

  lemma {:induction false} UnequalIff(k: Key, query: Bytes)
    requires Ordered(k)
    ensures Consistent(k, query, NotEqual, false) <==> exists v :: Le(k.lower, v) && Le(v, k.upper) && v != query
  {
    CmpZero(k.lower, k.lower);
    CmpZero(k.upper, k.upper);
    CmpZero(query, k.lower);
    CmpZero(query, k.upper);
    if Consistent(k, query, NotEqual, false) {
      var v := if query != k.lower then k.lower else k.upper;
      assert Le(k.lower, v) && Le(v, k.upper) && v != query;
    }
    if v :| Le(k.lower, v) && Le(v, k.upper) && v != query {
      CmpTotal(k.lower, v);
    }
  }

  // ---------------------------------------------------------------- page splits

  /** A page offset with the key stored there. */
  datatype Vsrt = Vsrt(i: int, t: Key)

  function JoinRange(cmp: Compare, arr: seq<Vsrt>, a: nat, b: nat): Key
    requires a < b <= |arr|
    decreases b
  {
    if b == a + 1 then arr[a].t else Join(cmp, JoinRange(cmp, arr, a, b - 1), arr[b - 1].t)
  }

  function Keys(arr: seq<Vsrt>): (ks: seq<Key>)
    ensures |ks| == |arr| && forall i | 0 <= i < |arr| :: ks[i] == arr[i].t
  {
    seq(|arr|, i requires 0 <= i < |arr| => arr[i].t)
  }

  lemma {:induction false} JoinRangeIsJoinTo(cmp: Compare, arr: seq<Vsrt>, ks: seq<Key>, a: nat, n: nat)
    requires 1 <= n <= |ks| && a + n <= |arr|
    requires forall i | 0 <= i < n :: ks[i] == arr[a + i].t
    ensures JoinRange(cmp, arr, a, a + n) == JoinTo(cmp, ks, n)
  {
    if n > 1 {
      JoinRangeIsJoinTo(cmp, arr, ks, a, n - 1);
    }
  }

  /** The key of a side is the join of the entries dealt to it. */
  lemma {:induction false} SideIsJoinAll(cmp: Compare, arr: seq<Vsrt>, a: nat, b: nat)
    requires a < b <= |arr|
    ensures JoinRange(cmp, arr, a, b) == JoinAll(cmp, Keys(arr[a..b]))
  {
    JoinRangeIsJoinTo(cmp, arr, Keys(arr[a..b]), a, b - a);
  }

  function SplitLength(left: Key, right: Key): nat
  {
    var ll, lr := Cp(left.lower, left.upper), Cp(right.lower, right.upper);
    (if ll < lr then lr else ll) + 1
  }

  /** The least length behind the common prefixes of both sides. */
  lemma {:induction false} SplitLengthLeast(left: Key, right: Key, n: nat)
    ensures SplitLength(left, right) <= n <==> Cp(left.lower, left.upper) < n && Cp(right.lower, right.upper) < n
  {
  }

  predicate IsSide(cmp: Compare, arr: seq<Vsrt>, a: nat, b: nat, u: Option<Key>)
    requires a <= b <= |arr|
  {
    u == if a == b then None else Some(JoinRange(cmp, arr, a, b))
  }

  method Enlarge(cmp: Compare, arr: seq<Vsrt>, a: nat, b: nat, u: Option<Key>) returns (u': Option<Key>)
    requires a <= b < |arr| && IsSide(cmp, arr, a, b, u)
    ensures IsSide(cmp, arr, a, b + 1, u')
  {
    u' := BinUnion(cmp, u, arr[b].t);
  }

  /** The offsets of the entries from `a` up to `b`, in order. */
  ghost predicate Offsets(arr: seq<Vsrt>, a: nat, b: nat, side: seq<int>)
    requires a <= b <= |arr|
  {
    |side| == b - a && forall k | 0 <= k < |side| :: side[k] == arr[a + k].i
  }

  /** A side with the entries from `a` up to `b`. */
  ghost predicate IsDealt(cmp: Compare, arr: seq<Vsrt>, a: nat, b: nat, side: seq<int>, u: Option<Key>)
    requires a <= b <= |arr|
  {
    Offsets(arr, a, b, side) && IsSide(cmp, arr, a, b, u)
  }

  method DealOne(cmp: Compare, arr: seq<Vsrt>, a: nat, b: nat, side: seq<int>, u: Option<Key>)
    returns (side': seq<int>, u': Option<Key>)
    requires a <= b < |arr| && IsDealt(cmp, arr, a, b, side, u)
    ensures IsDealt(cmp, arr, a, b + 1, side', u')
  {
    u' := Enlarge(cmp, arr, a, b, u);
    side' := side + [arr[b].i];
  }

  /** Deals the sorted entries of a page to the two sides: the lower half goes left, the
      upper half right. */
  method Deal(cmp: Compare, arr: seq<Vsrt>) returns (left: seq<int>, right: seq<int>, l: Option<Key>, r: Option<Key>)
    ensures IsDealt(cmp, arr, 0, |arr| / 2, left, l) && IsDealt(cmp, arr, |arr| / 2, |arr|, right, r)
  {
    var n, h := |arr|, |arr| / 2;
    l, r, left, right := None, None, [], [];
    for i := 0 to n
      invariant IsDealt(cmp, arr, 0, if i < h then i else h, left, l)
      invariant IsDealt(cmp, arr, h, if i < h then h else i, right, r)
    {
      if i < h {
        left, l := DealOne(cmp, arr, 0, i, left, l);
      } else {
        right, r := DealOne(cmp, arr, h, i, right, r);
      }
    }
  }

  /** The split of a page whose entries are sorted; both keys are cut at one common
      length. */
  method PickSplit(cmp: Compare, arr: seq<Vsrt>)
    returns (left: seq<int>, right: seq<int>, ldatum: Key, rdatum: Key)
    requires |arr| >= 2
    ensures |left| == |arr| / 2 && forall k | 0 <= k < |left| :: left[k] == arr[k].i
    ensures |right| == |arr| - |left| && forall k | 0 <= k < |right| :: right[k] == arr[|left| + k].i
    ensures var l, r := JoinRange(cmp, arr, 0, |left|), JoinRange(cmp, arr, |left|, |arr|);
      && ldatum == Truncate(l, SplitLength(l, r))
      && rdatum == Truncate(r, SplitLength(l, r))
  {
    var lu, ru;
    left, right, lu, ru := Deal(cmp, arr);
    var l, r := lu.value, ru.value;
    var ll := NodeCpLen(l);
    var lr := NodeCpLen(r);
    ll := if ll < lr then lr else ll;
    ll := ll + 1;
    ldatum := Truncate(l, ll);
    rdatum := Truncate(r, ll);
  }

  predicate AllTop(s: seq<int>)
  {
    forall i | 0 <= i < |s| :: s[i] == 255
  }

  /** `t` has the greatest upper end of the entries, `b` the least lower end. */
  ghost predicate Ends(es: seq<Key>, b: Key, t: Key)
  {
    b in es && t in es && forall e | e in es :: Le(b.lower, e.lower) && Le(e.upper, t.upper)
  }

  lemma {:induction false} EndsJoin(es: seq<Key>, b: Key, t: Key)
    requires es != [] && (forall e | e in es :: Ordered(e)) && Ends(es, b, t)
    ensures JoinAll(Cmp, es) == Key(b.lower, t.upper)
  {
    var j := JoinAll(Cmp, es);
    JoinAllBounds(es);
    JoinToIn(es, |es|);
    assert Inside(b, j) && Inside(t, j);
    CmpTotal(j.lower, b.lower);
    CmpTotal(j.upper, t.upper);
  }

  /** The open upper end of the entry `e` is a proper prefix of the greatest upper end, cut
      to `n + 1` bytes, and that is not the last string with this prefix. */
  predicate Escapes(e: Key, t: Key, n: nat)
  {
    var u := Take(t.upper, n + 1);
    Open(e) && e.upper < u && !AllTop(u[|e.upper|..])
  }

  /** A side of a split, cut to `n + 1` bytes, stands for everything its entries stand for
      exactly when no entry escapes from it. */
  lemma {:induction false} SplitCoversIff(es: seq<Key>, b: Key, t: Key, n: nat)
    requires es != [] && (forall e | e in es :: Ordered(e) && InRange(e.upper)) && Ends(es, b, t)
    requires n >= Cp(b.lower, t.upper) + 1
    ensures (forall e, v | e in es && InRange(v) && Covers(e, v) :: Covers(Truncate(JoinAll(Cmp, es), n), v))
       <==> (forall e | e in es :: !Escapes(e, t, n))
  {
    if forall e | e in es :: !Escapes(e, t, n) {
      SplitKeepsAll(es, b, t, n);
    } else {
      var e :| e in es && Escapes(e, t, n);
      var v := SplitUncovers(es, b, t, n, e);
    }
  }

  lemma {:induction false} SplitUncovers(es: seq<Key>, b: Key, t: Key, n: nat, e: Key) returns (v: Bytes)
    requires e in es && (forall e | e in es :: Ordered(e) && InRange(e.upper)) && Ends(es, b, t) && Escapes(e, t, n)
    ensures InRange(v) && Covers(e, v) && !Covers(Truncate(JoinAll(Cmp, es), n), v)
  {
    EndsJoin(es, b, t);
    v := SplitLoses(e, Truncate(JoinAll(Cmp, es), n));
  }

  lemma {:induction false} SplitKeepsAll(es: seq<Key>, b: Key, t: Key, n: nat)
    requires es != [] && (forall e | e in es :: Ordered(e)) && Ends(es, b, t)
    requires n >= Cp(b.lower, t.upper) + 1 && forall e | e in es :: !Escapes(e, t, n)
    ensures forall e, v | e in es && InRange(v) && Covers(e, v) :: Covers(Truncate(JoinAll(Cmp, es), n), v)
  {
    EndsJoin(es, b, t);
    forall e, v | e in es && InRange(v) && Covers(e, v) ensures Covers(Truncate(JoinAll(Cmp, es), n), v) {
      SplitKeeps(es, n, e, v, t);
    }
  }

  /** The values an entry may hold and the searches that find them there. */
  ghost predicate Finds(es: seq<Key>, side: Key)
  {
    forall e, v, query, strategy | e in es && InRange(v) && Covers(e, v) && Matches(v, query, strategy) ::
      Consistent(side, query, strategy, false)
  }

  /** No search, under any strategy, misses a value of a side's entries exactly when no
      entry escapes, or the least lower end is a prefix of the greatest upper end: the
      prefix test on the lower end then catches what the upper end lets go. */
  lemma {:induction false} SplitFindsIff(es: seq<Key>, b: Key, t: Key, n: nat)
    requires es != [] && (forall e | e in es :: Ordered(e) && InRange(e.upper)) && Ends(es, b, t)
    requires n >= Cp(b.lower, t.upper) + 1
    ensures Finds(es, Truncate(JoinAll(Cmp, es), n)) <==> b.lower <= t.upper || forall e | e in es :: !Escapes(e, t, n)
  {
    var side := Truncate(JoinAll(Cmp, es), n);
    EndsJoin(es, b, t);
    if b.lower <= t.upper || forall e | e in es :: !Escapes(e, t, n) {
      forall e, v, query, strategy | e in es && InRange(v) && Covers(e, v) && Matches(v, query, strategy)
        ensures Consistent(side, query, strategy, false)
      {
        SplitFinds(es, b, t, n, e, v, query, strategy);
      }
    } else {
      var e :| e in es && Escapes(e, t, n);
      var v := SplitMisses(es, b, t, n, e);
      assert Matches(v, v, Equal);
    }
  }

  lemma {:induction false} SplitFinds(es: seq<Key>, b: Key, t: Key, n: nat, e: Key, v: Bytes, query: Bytes,
      strategy: Strategy)
    requires e in es && (forall e | e in es :: Ordered(e)) && Ends(es, b, t) && n >= Cp(b.lower, t.upper) + 1
    requires b.lower <= t.upper || !Escapes(e, t, n)
    requires InRange(v) && Covers(e, v) && Matches(v, query, strategy)
    ensures Consistent(Truncate(JoinAll(Cmp, es), n), query, strategy, false)
  {
    var side := Truncate(JoinAll(Cmp, es), n);
    EndsJoin(es, b, t);
    JoinAllBounds(es);
    TruncateShape(Key(b.lower, t.upper), n);
    if !Escapes(e, t, n) {
      SplitKeeps(es, n, e, v, t);
      CoveredIsConsistent(side, v, query, strategy);
    } else if Le(v, e.upper) {
      CmpTrans(v, e.upper, t.upper);
      CmpTrans(b.lower, e.lower, v);
      CutCovers(Key(b.lower, t.upper), n, v);
      CoveredIsConsistent(side, v, query, strategy);
    } else {
      LowerPrefix(es, b, t, n, e);
      PrefixFinds(side, v, query, strategy);
    }
  }

  /** Where the lower end is a prefix of the upper, it is one of every escaping end. */
  lemma {:induction false} LowerPrefix(es: seq<Key>, b: Key, t: Key, n: nat, e: Key)
    requires e in es && (forall e | e in es :: Ordered(e)) && Ends(es, b, t) && n >= Cp(b.lower, t.upper) + 1
    requires b.lower <= t.upper && Escapes(e, t, n)
    ensures var side := Truncate(JoinAll(Cmp, es), n); side.lower <= e.upper && side.lower != side.upper
  {
    EndsJoin(es, b, t);
    var side := Truncate(JoinAll(Cmp, es), n);
    CpUnique(b.lower, t.upper, |b.lower|);
    JoinCpBound(es, e);
    assert side.lower == b.lower;
  }

  lemma {:induction false} PrefixFinds(k: Key, v: Bytes, query: Bytes, strategy: Strategy)
    requires Ordered(k) && k.lower <= v && k.lower != k.upper && Matches(v, query, strategy)
    ensures Consistent(k, query, strategy, false)
  {
    PrefixLe(k.lower, v);
    CmpFlip(query, k.lower);
    CmpZero(query, k.lower);
    CmpZero(query, k.upper);
    if strategy == Less || strategy == LessEqual {
      CmpTrans(k.lower, v, query);
    } else if strategy == Greater || strategy == GreaterEqual {
      CmpFlip(query, k.upper);
      if Cmp(query, k.upper) > 0 {
        CmpTrans(k.lower, k.upper, query);
        BetweenPrefix(k.lower, query, v);
      }
    }
  }

  lemma {:induction false} JoinToIn(es: seq<Key>, n: nat)
    requires 1 <= n <= |es|
    ensures exists i | 0 <= i < |es| :: JoinTo(Cmp, es, n).upper == es[i].upper
    ensures exists i | 0 <= i < |es| :: JoinTo(Cmp, es, n).lower == es[i].lower
  {
    assert es[0].upper == es[0].upper;
    if n > 1 {
      JoinToIn(es, n - 1);
      assert JoinTo(Cmp, es, n).upper == JoinTo(Cmp, es, n - 1).upper || JoinTo(Cmp, es, n).upper == es[n - 1].upper;
      assert JoinTo(Cmp, es, n).lower == JoinTo(Cmp, es, n - 1).lower || JoinTo(Cmp, es, n).lower == es[n - 1].lower;
    }
  }

  lemma {:induction false} SplitKeeps(es: seq<Key>, n: nat, e: Key, v: Bytes, top: Key)
    requires e in es && (forall e | e in es :: Ordered(e)) && JoinAll(Cmp, es).upper == top.upper
    requires n >= Cp(JoinAll(Cmp, es).lower, JoinAll(Cmp, es).upper) + 1
    requires InRange(v) && Covers(e, v) && !Escapes(e, top, n)
    ensures Covers(Truncate(JoinAll(Cmp, es), n), v)
  {
    var j, t := JoinAll(Cmp, es), Truncate(JoinAll(Cmp, es), n);
    JoinAllBounds(es);
    CmpTrans(j.lower, e.lower, v);
    TruncateShape(j, n);
    PrefixLe(t.lower, j.lower);
    CmpTrans(t.lower, j.lower, v);
    if Le(v, e.upper) {
      CmpTrans(v, e.upper, j.upper);
      CutCovers(j, n, v);
    } else if !(e.upper <= j.upper) {
      ExtendBelow(e.upper, v, j.upper);
      CutCovers(j, n, v);
    } else {
      JoinCpBound(es, e);
      if e.upper < t.upper {
        TopExtension(e.upper, v, t.upper);
      } else {
        assert t.upper <= e.upper;
      }
    }
  }

  /** Nothing that extends a prefix lies above its extension by 255s, except what
      extends that one. */
  lemma {:induction false} TopExtension(p: Bytes, v: Bytes, u: Bytes)
    requires InRange(v) && p <= v && p <= u && AllTop(u[|p|..])
    ensures Le(v, u) || u <= v
  {
    CpSplits(v, u);
    var k := Cp(v, u);
    if k < |v| && k < |u| {
      assert k >= |p|;
      assert u[k] == u[|p|..][k - |p|];
    } else if k == |u| {
      assert u == u[..k] == v[..k];
    }
  }

  /** A value an escaping entry may hold and the side's key does not stand for. */
  lemma {:induction false} SplitLoses(e: Key, side: Key) returns (v: Bytes)
    requires Ordered(e) && Open(e) && e.upper < side.upper && !AllTop(side.upper[|e.upper|..])
    requires InRange(e.upper) && InRange(side.upper)
    ensures InRange(v) && Covers(e, v) && !Covers(side, v)
    ensures e.upper <= v && Lt(side.upper, v) && !(side.upper <= v)
  {
    var p, u := e.upper, side.upper;
    v := p + seq(|u| - |p|, _ => 255);
    assert p <= v;
    PrefixLe(p, v);
    CmpTrans(e.lower, p, v);
    var i :| 0 <= i < |u[|p|..]| && u[|p|..][i] != 255;
    assert u[|p| + i] != v[|p| + i];
    CpSplits(v, u);
    CmpFlip(v, u);
    var k := Cp(v, u);
    assert v[..|v|] == v && u[..|u|] == u;
    assert k < |v| && v[k] == 255;
  }

  /** An equality search for such a value passes the side by. */
  lemma {:induction false} SplitMisses(es: seq<Key>, b: Key, t: Key, n: nat, e: Key) returns (v: Bytes)
    requires e in es && (forall e | e in es :: Ordered(e) && InRange(e.upper)) && Ends(es, b, t)
    requires n >= Cp(b.lower, t.upper) + 1 && !(b.lower <= t.upper) && Escapes(e, t, n)
    ensures InRange(v) && Covers(e, v) && !Consistent(Truncate(JoinAll(Cmp, es), n), v, Equal, false)
  {
    EndsJoin(es, b, t);
    var side := Truncate(JoinAll(Cmp, es), n);
    v := SplitLoses(e, side);
    CmpFlip(side.upper, v);
    JoinCpBound(es, e);
    LowerApart(b.lower, t.upper, n, e.upper, v);
  }

  /** A lower end that leaves the upper early is no prefix of what follows the upper further. */
  lemma {:induction false} LowerApart(l: Bytes, u: Bytes, n: nat, p: Bytes, v: Bytes)
    requires !(l <= u) && n > Cp(l, u) && |p| >= Cp(l, u) + 1 && p <= u && p <= v
    ensures !(Take(l, n + 1) <= v)
  {
    CpSplits(l, u);
    var k := Cp(l, u);
    assert l[..|l|] == l;
    assert k < |l| && Take(l, n + 1)[k] == l[k] != u[k] == p[k] == v[k];
  }

  /** Leaf entries never escape, so splitting a leaf page keeps every value. */
  lemma {:induction false} LeafSplitCovers(vs: seq<Bytes>, n: nat, v: Bytes)
    requires v in vs && InRange(v)
    requires var es := seq(|vs|, i requires 0 <= i < |vs| => Key(vs[i], vs[i]));
      n >= Cp(JoinAll(Cmp, es).lower, JoinAll(Cmp, es).upper) + 1
    ensures var es := seq(|vs|, i requires 0 <= i < |vs| => Key(vs[i], vs[i]));
      Covers(Truncate(JoinAll(Cmp, es), n), v)
  {
    var es := seq(|vs|, i requires 0 <= i < |vs| => Key(vs[i], vs[i]));
    forall i | 0 <= i < |vs| ensures Ordered(es[i]) && !Open(es[i]) && Covers(es[i], vs[i]) {
      CmpZero(vs[i], vs[i]);
      CpUnique(vs[i], vs[i], |vs[i]|);
    }
    var i :| 0 <= i < |vs| && vs[i] == v;
    JoinToIn(es, |es|);
    var top :| 0 <= top < |es| && JoinAll(Cmp, es).upper == es[top].upper;
    SplitKeeps(es, n, es[i], v, es[top]);
  }

  /** A half of a page from which no search misses a value. */
  ghost predicate Safe(es: seq<Key>, n: nat)
    requires es != []
  {
    var j := JoinAll(Cmp, es);
    j.lower <= j.upper || forall e | e in es :: !Escapes(e, j, n)
  }

  lemma {:induction false} EndsExist(es: seq<Key>) returns (b: Key, t: Key)
    requires es != [] && forall e | e in es :: Ordered(e)
    ensures Ends(es, b, t) && JoinAll(Cmp, es) == Key(b.lower, t.upper)
  {
    JoinAllBounds(es);
    JoinToIn(es, |es|);
    var i :| 0 <= i < |es| && JoinAll(Cmp, es).lower == es[i].lower;
    var k :| 0 <= k < |es| && JoinAll(Cmp, es).upper == es[k].upper;
    b, t := es[i], es[k];
    forall e | e in es ensures Le(b.lower, e.lower) && Le(e.upper, t.upper) {
      assert Inside(e, JoinAll(Cmp, es));
    }
  }

  lemma {:induction false} SafeIff(es: seq<Key>, n: nat)
    requires es != [] && (forall e | e in es :: Ordered(e) && InRange(e.upper)) && n > PageCp(es)
    ensures Finds(es, Truncate(JoinAll(Cmp, es), n)) <==> Safe(es, n)
  {
    var b, t := EndsExist(es);
    SplitFindsIff(es, b, t, n);
    forall e | e in es ensures Escapes(e, t, n) <==> Escapes(e, JoinAll(Cmp, es), n) {
    }
  }

  lemma {:induction false} SideSafe(arr: seq<Vsrt>, a: nat, b: nat, n: nat)
    requires a < b <= |arr| && forall i | 0 <= i < |arr| :: Ordered(arr[i].t) && InRange(arr[i].t.upper)
    requires n > Cp(JoinRange(Cmp, arr, a, b).lower, JoinRange(Cmp, arr, a, b).upper)
    ensures Finds(Keys(arr[a..b]), Truncate(JoinRange(Cmp, arr, a, b), n)) <==> Safe(Keys(arr[a..b]), n)
  {
    SideIsJoinAll(Cmp, arr, a, b);
    SafeIff(Keys(arr[a..b]), n);
  }

  /** The split of a page: exactly when each of its halves loses nothing. */
  method SplitPage(arr: seq<Vsrt>) returns (left: seq<int>, right: seq<int>, ldatum: Key, rdatum: Key)
    requires |arr| >= 2 && forall i | 0 <= i < |arr| :: Ordered(arr[i].t) && InRange(arr[i].t.upper)
    ensures |left| == |arr| / 2 && forall k | 0 <= k < |left| :: left[k] == arr[k].i
    ensures |right| == |arr| - |left| && forall k | 0 <= k < |right| :: right[k] == arr[|left| + k].i
    ensures var h := |left|;
      var n := SplitLength(JoinRange(Cmp, arr, 0, h), JoinRange(Cmp, arr, h, |arr|));
      && (Finds(Keys(arr[0..h]), ldatum) <==> Safe(Keys(arr[0..h]), n))
      && (Finds(Keys(arr[h..|arr|]), rdatum) <==> Safe(Keys(arr[h..|arr|]), n))
  {
    left, right, ldatum, rdatum := PickSplit(Cmp, arr);
    ghost var h := |left|;
    ghost var n := SplitLength(JoinRange(Cmp, arr, 0, h), JoinRange(Cmp, arr, h, |arr|));
    SideSafe(arr, 0, h, n);
    SideSafe(arr, h, |arr|, n);
  }

  /** The order in which a page is sorted before it is split. */
  predicate Arranged(cmp: Compare, arr: seq<Vsrt>)
  {
    forall i, j | 0 <= i < j < |arr| :: VsrtCmp(cmp, arr[i], arr[j]) <= 0
  }

  function VsrtCmp(cmp: Compare, a: Vsrt, b: Vsrt): int
  {
    var res := cmp(a.t.lower, b.t.lower);
    if res == 0 then cmp(a.t.upper, b.t.upper) else res
  }

  /** Four pages of two values each: "a" and "bzz", "by" and "bza", "c1" and "c2", "c1" and
      "c3". */
  function ExampleValues(): seq<seq<Key>>
  {
    [[Key([97], [97]), Key([98, 122, 122], [98, 122, 122])],
     [Key([98, 121], [98, 121]), Key([98, 122, 97], [98, 122, 97])],
     [Key([99, 49], [99, 49]), Key([99, 50], [99, 50])],
     [Key([99, 49], [99, 49]), Key([99, 51], [99, 51])]]
  }

  function ExamplePage(): seq<Vsrt>
  {
    [Vsrt(1, Key([97], [98, 122])), Vsrt(2, Key([98, 121], [98, 122, 97])),
     Vsrt(3, Key([99, 49], [99, 50])), Vsrt(4, Key([99, 49], [99, 51]))]
  }

  /** The keys of the example are the unions of those values. */
  lemma {:induction false} ExampleKeys()
    ensures forall i | 0 <= i < 4 :: ExamplePage()[i].t == UnionKey(Cmp, ExampleValues()[i])
  {
    UnionTwo([97], [98, 122, 122], 0);
    UnionTwo([98, 121], [98, 122, 97], 1);
    UnionTwo([99, 49], [99, 50], 1);
    UnionTwo([99, 49], [99, 51], 1);
  }

  /** They are in the order of the sort. */
  lemma {:induction false} ExampleArranged()
    ensures Arranged(Cmp, ExamplePage())
  {
    CpUnique([97], [98, 121], 0);
    CpUnique([97], [99, 49], 0);
    CpUnique([98, 121], [99, 49], 0);
    CpUnique([99, 49], [99, 49], 2);
    CpUnique([99, 50], [99, 51], 1);
  }

  /** The joins of the two halves: the right one has the longer common prefix. */
  lemma {:induction false} ExampleHalves()
    ensures JoinRange(Cmp, ExamplePage(), 0, 2) == Key([97], [98, 122, 97])
    ensures JoinRange(Cmp, ExamplePage(), 2, 4) == Key([99, 49], [99, 51])
    ensures SplitLength(Key([97], [98, 122, 97]), Key([99, 49], [99, 51])) == 2
  {
    var arr := ExamplePage();
    assert JoinRange(Cmp, arr, 0, 1) == arr[0].t && JoinRange(Cmp, arr, 2, 3) == arr[2].t;
    assert JoinRange(Cmp, arr, 0, 2) == Join(Cmp, arr[0].t, arr[1].t);
    assert JoinRange(Cmp, arr, 2, 4) == Join(Cmp, arr[2].t, arr[3].t);
    CpUnique([97], [98, 121], 0);
    CpUnique([98, 122], [98, 122, 97], 2);
    CpUnique([99, 49], [99, 49], 2);
    CpUnique([99, 50], [99, 51], 1);
    CpUnique([97], [98, 122, 97], 0);
    CpUnique([99, 49], [99, 51], 1);
  }

  /** After the split neither half is consistent with a search for "bzz", a value below the
      first page: the right half keeps the left upper end at "bza". */
  method SplitLosesExample() returns (left: seq<int>, right: seq<int>, ldatum: Key, rdatum: Key)
    ensures left == [1, 2] && right == [3, 4]
    ensures Key([98, 122, 122], [98, 122, 122]) in ExampleValues()[0]
    ensures !Consistent(ldatum, [98, 122, 122], Equal, false) && !Consistent(rdatum, [98, 122, 122], Equal, false)
  {
    ExampleHalves();
    left, right, ldatum, rdatum := PickSplit(Cmp, ExamplePage());
    assert ldatum == Key([97], [98, 122, 97]) && rdatum == Key([99, 49], [99, 51]);
    CpUnique([98, 122, 122], [98, 122, 97], 2);
    CpUnique([99, 49], [98, 122, 122], 0);
  }

  lemma {:induction false} UnionTwo(a: Bytes, b: Bytes, k: nat)
    requires k < |a| && k < |b| && a[..k] == b[..k] && a[k] < b[k]
    ensures UnionKey(Cmp, [Key(a, a), Key(b, b)]) == Key(Take(a, k + 2), Take(b, k + 2))
  {
    var es := [Key(a, a), Key(b, b)];
    assert JoinTo(Cmp, es, 2) == Join(Cmp, es[0], es[1]);
    CpUnique(a, b, k);
  }
}
