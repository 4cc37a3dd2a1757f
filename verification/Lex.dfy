/** Byte strings and the order that `memcmp`, completed by the length, puts on them.
    Every component of the project compares strings through this order: the keys and
    bodies of an hstore, the bounds of a truncated btree_gist key, the labels of an
    ltree path. */
module Lex {

  /** A string of bytes; the comparisons below make sense over any integers, so that the
      range is stated only where a property depends on it. */
  type Bytes = seq<int>

  predicate InRange(s: Bytes)
  {
    forall i | 0 <= i < |s| :: 0 <= s[i] < 256
  }

  /** The first place, from `i` on, where two strings part or one of them ends. */
  function CpFrom<T(==)>(a: seq<T>, b: seq<T>, i: nat): nat
    decreases |a| - i
  {
    if i < |a| && i < |b| && a[i] == b[i] then CpFrom(a, b, i + 1) else i
  }

  /** Length of the longest common prefix. */
  function Cp<T(==)>(a: seq<T>, b: seq<T>): nat
  {
    CpFrom(a, b, 0)
  }

  /** `memcmp` over the shorter length, then the lengths. */
  function Cmp(a: seq<int>, b: seq<int>): int
  {
    var k := Cp(a, b);
    if k < |a| && k < |b| then (if a[k] < b[k] then -1 else 1)
    else if |a| < |b| then -1
    else if |a| > |b| then 1
    else 0
  }

  predicate Le(a: seq<int>, b: seq<int>) { Cmp(a, b) <= 0 }

  predicate Lt(a: seq<int>, b: seq<int>) { Cmp(a, b) < 0 }

  lemma {:induction false} CpFromSplits<T>(a: seq<T>, b: seq<T>, i: nat)
    requires i <= |a| && i <= |b|
    ensures var k := CpFrom(a, b, i);
      && i <= k <= |a| && k <= |b| && a[i..k] == b[i..k]
      && (k < |a| && k < |b| ==> a[k] != b[k])
    decreases |a| - i
  {
    if i < |a| && i < |b| && a[i] == b[i] {
      CpFromSplits(a, b, i + 1);
      var k := CpFrom(a, b, i);
      assert a[i..k] == [a[i]] + a[i + 1..k] && b[i..k] == [b[i]] + b[i + 1..k];
    }
  }

  lemma {:induction false} CpSplits<T>(a: seq<T>, b: seq<T>)
    ensures var k := Cp(a, b);
      && k <= |a| && k <= |b| && a[..k] == b[..k]
      && (k < |a| && k < |b| ==> a[k] != b[k])
  {
    CpFromSplits(a, b, 0);
    var k := Cp(a, b);
    assert a[0..k] == a[..k] && b[0..k] == b[..k];
  }

  /** The first place where two strings part is their common prefix length. */
  lemma {:induction false} CpUnique<T>(a: seq<T>, b: seq<T>, k: nat)
    requires k <= |a| && k <= |b| && a[..k] == b[..k]
    requires k == |a| || k == |b| || a[k] != b[k]
    ensures Cp(a, b) == k
  {
    CpSplits(a, b);
    var j := Cp(a, b);
    assert forall i | 0 <= i < k :: a[i] == a[..k][i] == b[i];
    assert forall i | 0 <= i < j :: a[i] == a[..j][i] == b[i];
  }

  lemma {:induction false} CmpZero(a: seq<int>, b: seq<int>)
    ensures Cmp(a, b) == 0 <==> a == b
  {
    CpSplits(a, b);
    if a == b {
      CpUnique(a, b, |a|);
    }
    assert a == a[..|a|] && b == b[..|b|];
  }

  /** `a` comes first in the dictionary: at the first place where the two part it ends, or has
      the lower byte. */
  ghost predicate Before(a: seq<int>, b: seq<int>)
  {
    exists k | 0 <= k <= |a| && k < |b| :: a[..k] == b[..k] && (k == |a| || a[k] < b[k])
  }

  /** The order is that of the dictionary. */
  lemma {:induction false} CmpBefore(a: seq<int>, b: seq<int>)
    ensures Cmp(a, b) == -1 <==> Before(a, b)
    ensures Cmp(a, b) == 1 <==> Before(b, a)
    ensures Cmp(a, b) == 0 <==> a == b
  {
    CmpZero(a, b);
    CmpFlip(a, b);
    LtBefore(a, b);
    LtBefore(b, a);
  }

  lemma {:induction false} LtBefore(a: seq<int>, b: seq<int>)
    ensures Cmp(a, b) == -1 <==> Before(a, b)
  {
    CpSplits(a, b);
    var k := Cp(a, b);
    if Cmp(a, b) == -1 {
      assert a[..k] == b[..k] && (k == |a| || a[k] < b[k]);
    }
    if j :| 0 <= j <= |a| && j < |b| && a[..j] == b[..j] && (j == |a| || a[j] < b[j]) {
      CpUnique(a, b, j);
    }
  }

  lemma {:induction false} CmpFlip(a: seq<int>, b: seq<int>)
    ensures Cmp(b, a) == -Cmp(a, b)
  {
    CpSplits(a, b);
    CpUnique(b, a, Cp(a, b));
  }

  lemma {:induction false} CmpTrans(a: seq<int>, b: seq<int>, c: seq<int>)
    requires Le(a, b) && Le(b, c)
    ensures Le(a, c)
    ensures Lt(a, b) || Lt(b, c) ==> Lt(a, c)
  {
    CpSplits(a, b);
    CpSplits(b, c);
    var i, j := Cp(a, b), Cp(b, c);
    var k := if i < j then i else j;
    assert forall m | 0 <= m < i :: a[m] == a[..i][m] == b[m];
    assert forall m | 0 <= m < j :: b[m] == b[..j][m] == c[m];
    CpUnique(a, c, k);
  }

  lemma {:induction false} CmpTotal(a: seq<int>, b: seq<int>)
    ensures Le(a, b) || Lt(b, a)
    ensures !(Le(a, b) && Lt(b, a))
    ensures Le(a, b) && Le(b, a) ==> a == b
  {
    CmpFlip(a, b);
    CmpZero(a, b);
  }

  lemma {:induction false} PrefixLe(p: seq<int>, a: seq<int>)
    requires p <= a
    ensures Le(p, a)
  {
    CpUnique(p, a, |p|);
  }

  /** Whatever lies between a string and one of its extensions extends it too. */
  lemma {:induction false} BetweenPrefix(p: seq<int>, v: seq<int>, u: seq<int>)
    requires p <= u && Le(p, v) && Le(v, u)
    ensures p <= v
  {
    CpSplits(p, v);
    CpSplits(v, u);
    var k, j := Cp(p, v), Cp(v, u);
    assert forall i | 0 <= i < k :: p[i] == p[..k][i] == v[i];
    assert forall i | 0 <= i < j :: v[i] == v[..j][i] == u[i];
  }

  /** A string strictly below another, which does not start with it, stays below it
      however it is extended. */
  lemma {:induction false} ExtendBelow(p: seq<int>, v: seq<int>, u: seq<int>)
    requires p <= v && Le(p, u) && !(p <= u)
    ensures Lt(v, u)
  {
    CpSplits(p, u);
    var k := Cp(p, u);
    assert p[..k] == u[..k] && p == p[..|p|];
    assert v[k] == p[k] && v[..k] == p[..k];
    CpUnique(v, u, k);
  }

  /** Moving the lower end of an interval down cannot lengthen its common prefix. */
  lemma {:induction false} CpShrinks(a: seq<int>, b: seq<int>, c: seq<int>)
    requires Le(a, b) && Le(b, c)
    ensures Cp(a, c) <= Cp(b, c)
  {
    CpSplits(a, c);
    CpSplits(b, c);
    var k := Cp(a, c);
    var p := c[..k];
    assert p <= a && p <= c;
    PrefixLe(p, a);
    CmpTrans(p, a, b);
    BetweenPrefix(p, b, c);
    assert forall j | 0 <= j < k :: b[j] == p[j] == c[j];
  }

  /** Cutting a string behind the common prefix leaves that prefix alone. */
  lemma {:induction false} CpTake<T>(a: seq<T>, b: seq<T>, m: nat, n: nat)
    requires m <= |a| && n <= |b|
    requires Cp(a, b) < m || m == |a|
    requires Cp(a, b) < n || n == |b|
    ensures Cp(a[..m], b[..n]) == Cp(a, b)
  {
    CpSplits(a, b);
    var k := Cp(a, b);
    assert a[..m][..k] == a[..k] && b[..n][..k] == b[..k];
    CpUnique(a[..m], b[..n], k);
  }
}
