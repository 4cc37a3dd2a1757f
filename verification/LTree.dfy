/** Label paths and the ordering part of their index (contrib/ltree/ltree_op.c,
    contrib/ltree/ltree_gist.c). */
module LTree {
  import opened Options
  import opened Int32
  import opened Lex

  /** A path is the list of its labels. */
  type Path = seq<Bytes>

  // ---------------------------------------------------------------- the order

  /** By the first label that differs, else the ancestor first. */
  function Compare(a: Path, b: Path): int
  {
    var k := Cp(a, b);
    if k < |a| && k < |b| then Cmp(a[k], b[k])
    else if |a| < |b| then -1 else if |a| > |b| then 1 else 0
  }

  function Sign(x: int): int { if x < 0 then -1 else if x > 0 then 1 else 0 }

  /** Comparison of two labels over their common length, then by length. */
  function LevelDifference(a: Bytes, b: Bytes): int
  {
    var m := if |a| <= |b| then |a| else |b|;
    var res := Cmp(a[..m], b[..m]);
    if res == 0 then |a| - |b| else res
  }

  lemma {:induction false} LevelDifferenceSign(a: Bytes, b: Bytes)
    ensures Sign(LevelDifference(a, b)) == Cmp(a, b)
  {
    var m := if |a| <= |b| then |a| else |b|;
    CpSplits(a, b);
    var k := Cp(a, b);
    assert a[..m][..k] == a[..k] && b[..m][..k] == b[..k];
    CpUnique(a[..m], b[..m], k);
  }

  lemma {:induction false} ScaledSign(x: int, y: int)
    requires y > 0
    ensures Sign(x * y) == Sign(x)
  {
    if x > 0 {
      assert x * y > 0;
    } else if x < 0 {
      assert x * y < 0;
    }
  }

  /** What the comparison returns: the difference at the level that decides, scaled by the
      number of levels left. */
  function Scaled(a: Path, b: Path): int
  {
    var k := Cp(a, b);
    (if k < |a| && k < |b| then LevelDifference(a[k], b[k]) else |a| - |b|) * (10 * (|a| - k + 1))
  }

  method LtreeCompare(a: Path, b: Path) returns (r: int)
    ensures r == Scaled(a, b) && Sign(r) == Compare(a, b)
  {
    var i := 0;
    while i < |a| && i < |b|
      invariant 0 <= i <= |a| && i <= |b| && a[..i] == b[..i]
    {
      var an := |a| - i;
      var res := LevelDifference(a[i], b[i]);
      LevelDifferenceSign(a[i], b[i]);
      if res != 0 {
        CmpZero(a[i], b[i]);
        CpUnique(a, b, i);
        ScaledSign(res, 10 * (an + 1));
        return res * (10 * (an + 1));
      }
      CmpZero(a[i], b[i]);
      i := i + 1;
    }
    CpUnique(a, b, i);
    ScaledSign(|a| - |b|, 10 * (|a| - i + 1));
    r := (|a| - |b|) * (10 * (|a| - i + 1));
  }

  /** Paths as they are stored: a 16-bit number of levels, labels of at most 255 characters. */
  ghost predicate Storable(a: Path)
  {
    |a| <= 0xFFFF && forall i | 0 <= i < |a| :: |a[i]| <= 4 * 255
  }

  lemma {:induction false} ScaledWithin(x: int, y: int, m: int, n: int)
    requires -m <= x <= m && 0 < y <= n
    ensures -(m * n) <= x * y <= m * n
  {
    assert -(m * y) <= x * y <= m * y by {
      assert (m - x) * y >= 0 && (m + x) * y >= 0;
    }
    assert m * (n - y) >= 0;
  }

  lemma {:induction false} SquareFits(d: int)
    requires 0 <= d
    ensures d * (10 * (d + 1)) <= INT_MAX <==> d < 14654
  {
    if d < 14654 {
      ScaledWithin(d, d + 1, 14653, 14654);
      assert d * (10 * (d + 1)) == 10 * (d * (d + 1));
    } else {
      assert (d - 14654) * (d + 1) >= 0;
    }
  }

  /** The product stays within an int unless a path is compared with an ancestor 14654 levels
      or more above it. */
  lemma {:induction false} ScaledFitsIff(a: Path, b: Path)
    requires Storable(a) && Storable(b)
    ensures Fits32(Scaled(a, b)) <==> !(b <= a && |a| - |b| >= 14654)
  {
    CpSplits(a, b);
    var k := Cp(a, b);
    if k < |a| && k < |b| {
      assert a[k] != b[k] && !(b <= a);
      ScaledWithin(LevelDifference(a[k], b[k]), 10 * (|a| - k + 1), 4 * 255, 10 * 0x1_0000);
    } else if k < |a| {
      assert b == a[..k];
      SquareFits(|a| - |b|);
      assert |a| - k == |a| - |b|;
    } else {
      assert |a| - k + 1 == 1;
    }
  }

  /** The differences in levels at which the product, wrapped, has lost its sign. */
  predicate LosesSign(d: int)
  {
    || 14654 <= d <= 20723 || 25382 <= d <= 29308 || 32768 <= d <= 35895
    || 38772 <= d <= 41448 || 43963 <= d <= 46340 || 48603 <= d <= 50763
    || 52837 <= d <= 54830 || 56756 <= d <= 58616 || 60421 <= d <= 62172
    || 63877 <= d <= 65535
  }

  function Product(d: int): int { d * (10 * (d + 1)) }

  lemma {:induction false} ProductGrows(d: int, e: int)
    requires 0 <= d <= e
    ensures Product(d) <= Product(e)
  {
    ScaledWithin(d, d + 1, e, e + 1);
    assert Product(d) == 10 * (d * (d + 1)) && Product(e) == 10 * (e * (e + 1));
  }

  /** Between two multiples of 2^31 the sign is the same; it alternates from one to the next. */
  lemma {:induction false} Segment(d: int, lo: int, hi: int, k: int)
    requires 0 < lo <= d <= hi && 0 <= k && k * 0x8000_0000 < Product(lo) && Product(hi) < (k + 1) * 0x8000_0000
    ensures if k % 2 == 1 then Wrap32(Product(d)) < 0 else Wrap32(Product(d)) > 0
  {
    ProductGrows(lo, d);
    ProductGrows(d, hi);
    if k % 2 == 1 {
      WrapNear(Product(d), (k + 1) / 2);
    } else {
      WrapNear(Product(d), k / 2);
    }
  }

  lemma {:induction false} WrapNear(v: int, q: int)
    requires Fits32(v - 0x1_0000_0000 * q)
    ensures Wrap32(v) == v - 0x1_0000_0000 * q
  {
    WrapShifts(v, q);
  }

  lemma {:induction false} ProductSign(d: int)
    requires 0 < d <= 0xFFFF
    ensures if LosesSign(d) then Wrap32(Product(d)) < 0 else Wrap32(Product(d)) > 0
  {
    if d <= 14653 {
      Segment(d, 1, 14653, 0);
    } else if d <= 20723 {
      Segment(d, 14654, 20723, 1);
    } else if d <= 25381 {
      Segment(d, 20724, 25381, 2);
    } else if d <= 29308 {
      Segment(d, 25382, 29308, 3);
    } else if d <= 32767 {
      Segment(d, 29309, 32767, 4);
    } else if d <= 35895 {
      Segment(d, 32768, 35895, 5);
    } else if d <= 38771 {
      Segment(d, 35896, 38771, 6);
    } else if d <= 41448 {
      Segment(d, 38772, 41448, 7);
    } else if d <= 43962 {
      Segment(d, 41449, 43962, 8);
    } else if d <= 46340 {
      Segment(d, 43963, 46340, 9);
    } else if d <= 48602 {
      Segment(d, 46341, 48602, 10);
    } else if d <= 50763 {
      Segment(d, 48603, 50763, 11);
    } else if d <= 52836 {
      Segment(d, 50764, 52836, 12);
    } else if d <= 54830 {
      Segment(d, 52837, 54830, 13);
    } else if d <= 56755 {
      Segment(d, 54831, 56755, 14);
    } else if d <= 58616 {
      Segment(d, 56756, 58616, 15);
    } else if d <= 60420 {
      Segment(d, 58617, 60420, 16);
    } else if d <= 62172 {
      Segment(d, 60421, 62172, 17);
    } else if d <= 63876 {
      Segment(d, 62173, 63876, 18);
    } else {
      Segment(d, 63877, 65535, 19);
    }
  }

  /** The sign of the int is the order of the paths, unless a path is compared with an ancestor
      so many levels above it. */
  lemma {:induction false} SignIff(a: Path, b: Path)
    requires Storable(a) && Storable(b)
    ensures Sign(Wrap32(Scaled(a, b))) == Compare(a, b) <==> !(b <= a && LosesSign(|a| - |b|))
  {
    ScaledFitsIff(a, b);
    ScaledOrder(a, b);
    if b < a {
      assert a[..|b|] == b[..|b|];
      CpUnique(a, b, |b|);
      ProductSign(|a| - |b|);
    }
  }

  lemma {:induction false} ScaledOrder(a: Path, b: Path)
    ensures Sign(Scaled(a, b)) == Compare(a, b)
  {
    CpSplits(a, b);
    var k := Cp(a, b);
    if k < |a| && k < |b| {
      LevelDifferenceSign(a[k], b[k]);
      ScaledSign(LevelDifference(a[k], b[k]), 10 * (|a| - k + 1));
    } else {
      ScaledSign(|a| - |b|, 10 * (|a| - k + 1));
    }
  }

  predicate PLe(a: Path, b: Path) { Compare(a, b) <= 0 }

  predicate PLt(a: Path, b: Path) { Compare(a, b) < 0 }

  lemma {:induction false} PathZero(a: Path, b: Path)
    ensures Compare(a, b) == 0 <==> a == b
  {
    CpSplits(a, b);
    var k := Cp(a, b);
    if k < |a| && k < |b| {
      CmpZero(a[k], b[k]);
    }
    if a == b {
      CpUnique(a, b, |a|);
    }
    assert a == a[..|a|] && b == b[..|b|];
  }

  /** `a` comes first: at the first level where the two part it ends, or its label comes first in
      the dictionary. */
  ghost predicate PathBefore(a: Path, b: Path)
  {
    exists k | 0 <= k <= |a| && k < |b| :: a[..k] == b[..k] && (k == |a| || Before(a[k], b[k]))
  }

  /** The order is that of the dictionary, label by label. */
  lemma {:induction false} CompareBefore(a: Path, b: Path)
    ensures Compare(a, b) == -1 <==> PathBefore(a, b)
    ensures Compare(a, b) == 1 <==> PathBefore(b, a)
  {
    PathFlip(a, b);
    LessBefore(a, b);
    LessBefore(b, a);
  }

  lemma {:induction false} LessBefore(a: Path, b: Path)
    ensures Compare(a, b) == -1 <==> PathBefore(a, b)
  {
    CpSplits(a, b);
    var k := Cp(a, b);
    if Compare(a, b) == -1 {
      if k < |a| && k < |b| {
        CmpBefore(a[k], b[k]);
      }
      assert a[..k] == b[..k] && (k == |a| || Before(a[k], b[k]));
    }
    if j :| 0 <= j <= |a| && j < |b| && a[..j] == b[..j] && (j == |a| || Before(a[j], b[j])) {
      if j < |a| {
        CmpBefore(a[j], b[j]);
        CmpZero(a[j], b[j]);
      }
      CpUnique(a, b, j);
    }
  }

  lemma {:induction false} PathFlip(a: Path, b: Path)
    ensures Compare(b, a) == -Compare(a, b)
  {
    CpSplits(a, b);
    CpUnique(b, a, Cp(a, b));
    var k := Cp(a, b);
    if k < |a| && k < |b| {
      CmpFlip(a[k], b[k]);
    }
  }

  lemma {:induction false} PathTotal(a: Path, b: Path)
    ensures PLe(a, b) || PLt(b, a)
    ensures !(PLe(a, b) && PLt(b, a))
    ensures PLe(a, b) && PLe(b, a) ==> a == b
  {
    PathFlip(a, b);
    PathZero(a, b);
  }

  lemma {:induction false} PathTrans(a: Path, b: Path, c: Path)
    requires PLe(a, b) && PLe(b, c)
    ensures PLe(a, c)
    ensures PLt(a, b) || PLt(b, c) ==> PLt(a, c)
  {
    CpSplits(a, b);
    CpSplits(b, c);
    var i, j := Cp(a, b), Cp(b, c);
    var k := if i < j then i else j;
    assert forall m | 0 <= m < i :: a[m] == a[..i][m] == b[m];
    assert forall m | 0 <= m < j :: b[m] == b[..j][m] == c[m];
    if k < |a| && k < |b| && k < |c| {
      LevelTrans(a[k], b[k], c[k]);
    }
    CpUnique(a, c, k);
  }

  lemma {:induction false} LevelTrans(a: Bytes, b: Bytes, c: Bytes)
    ensures a == b ==> Cmp(a, c) == Cmp(b, c)
    ensures b == c ==> Cmp(a, b) == Cmp(a, c)
    ensures Lt(a, b) && Lt(b, c) ==> Lt(a, c) && a != c
    ensures Cmp(a, b) == 0 <==> a == b
    ensures Cmp(b, c) == 0 <==> b == c
  {
    CmpZero(a, b);
    CmpZero(b, c);
    CmpZero(a, c);
    if Lt(a, b) && Lt(b, c) {
      CmpTrans(a, b, c);
    }
  }

  function Trunc(a: Path, n: nat): Path { if |a| <= n then a else a[..n] }

  /** Cutting two paths to the same number of levels keeps their order. */
  lemma {:induction false} TruncMonotone(a: Path, b: Path, n: nat)
    requires PLe(a, b)
    ensures PLe(Trunc(a, n), Trunc(b, n))
  {
    CpSplits(a, b);
    var k, x, y := Cp(a, b), Trunc(a, n), Trunc(b, n);
    if k <= n {
      assert x[..k] == a[..k] && y[..k] == b[..k];
      CpUnique(x, y, k);
    } else {
      assert a[..n] == a[..k][..n] && b[..n] == b[..k][..n];
      assert x == y;
      PathZero(x, y);
    }
  }

  // ---------------------------------------------------------------- ancestors

  /** Is `p` an ancestor of `c`, or `c` itself? */
  method InnerIsParent(c: Path, p: Path) returns (r: bool)
    ensures r <==> p <= c
  {
    if |p| > |c| {
      return false;
    }
    var i := 0;
    while i < |p|
      invariant 0 <= i <= |p| && c[..i] == p[..i]
    {
      if |c[i]| != |p[i]| || c[i] != p[i] {
        return false;
      }
      i := i + 1;
    }
    assert p[..|p|] == p;
    return true;
  }

  /** The first `k` labels of the first path are above each of the first `n` paths. */
  ghost predicate Shared(a: seq<Path>, n: int, k: int)
    requires a != [] && 0 <= k <= |a[0]|
  {
    forall i | 0 <= i < n && i < |a| :: k < |a[i]| && a[i][..k] == a[0][..k]
  }

  /** `num` is the largest number of labels that are. */
  ghost predicate MostShared(a: seq<Path>, n: int, num: int)
  {
    && a != [] && 0 <= num < |a[0]| && Shared(a, n, num)
    && forall k | num < k <= |a[0]| :: !Shared(a, n, k)
  }

  lemma {:induction false} SharedLess(a: seq<Path>, n: int, k: int, j: int)
    requires a != [] && 0 <= j <= k <= |a[0]| && Shared(a, n, k)
    ensures Shared(a, n, j)
  {
    forall i | 0 <= i < n && i < |a| ensures a[i][..j] == a[0][..j] {
      assert a[i][..j] == a[i][..k][..j] == a[0][..k][..j];
    }
  }

  lemma {:induction false} SharedSplit(a: seq<Path>, n: int, k: int)
    requires 0 <= n < |a| && 0 <= k <= |a[0]|
    ensures Shared(a, n + 1, k) <==> Shared(a, n, k) && k < |a[n]| && a[n][..k] == a[0][..k]
  {
  }

  lemma {:induction false} MostSharedStep(a: seq<Path>, n: int, num: int, num': int)
    requires 1 <= n < |a| && MostShared(a, n, num) && a[n] != []
    requires 0 <= num' <= num && num' < |a[n]| && a[0][..num'] == a[n][..num']
    requires forall k | num' < k <= num && k < |a[n]| :: a[0][..k] != a[n][..k]
    ensures MostShared(a, n + 1, num')
  {
    SharedLess(a, n, num, num');
    var n' := n + 1;
    forall k | num' < k <= |a[0]| ensures !Shared(a, n', k) {
      SharedSplit(a, n, k);
    }
  }

  ghost predicate Above(p: Path, a: seq<Path>)
  {
    forall i | 0 <= i < |a| :: p < a[i]
  }

  lemma {:induction false} MostSharedIsLowest(a: seq<Path>, num: int)
    requires MostShared(a, |a|, num)
    ensures Above(a[0][..num], a)
    ensures forall q | Above(q, a) :: q <= a[0][..num]
  {
    forall i | 0 <= i < |a| ensures a[0][..num] < a[i] {
      assert a[i][..num] == a[0][..num];
    }
    forall q | Above(q, a) ensures q <= a[0][..num] {
      assert q < a[0];
      var k := |q|;
      forall i | 0 <= i < |a| ensures k < |a[i]| && a[i][..k] == a[0][..k] {
        assert q < a[i];
      }
      assert Shared(a, |a|, k);
    }
  }

  /** The lowest common ancestor above all the paths: it is above every one of them, and
      every path that is, is an ancestor of it.  There is none if some path is empty. */
  method LcaInner(a: seq<Path>) returns (r: Option<Path>)
    requires a != []
    ensures r.None? <==> exists i | 0 <= i < |a| :: a[i] == []
    ensures r.Some? ==> Above(r.value, a) && forall q | Above(q, a) :: q <= r.value
  {
    if |a[0]| == 0 {
      return None;
    }
    var num := |a[0]| - 1;
    assert MostShared(a, 1, num) by {
      assert !(|a[0]| < |a[0]|);
    }
    var ptr := 1;
    while ptr < |a|
      invariant 1 <= ptr <= |a| && MostShared(a, ptr, num)
      invariant forall i | 0 <= i < ptr :: a[i] != []
    {
      if |a[ptr]| == 0 {
        return None;
      }
      var tmp := num;
      num := CommonLevels(a[0], a[ptr], tmp);
      MostSharedStep(a, ptr, tmp, num);
      ptr := ptr + 1;
    }
    MostSharedIsLowest(a, num);
    r := Some(a[0][..num]);
  }

  /** How many of the first `max` levels agree, the last level of `b` not counted. */
  method CommonLevels(a: Path, b: Path, max: nat) returns (num: nat)
    requires max < |a| && b != []
    ensures num <= max && num < |b| && a[..num] == b[..num]
    ensures forall k | num < k <= max && k < |b| :: a[..k] != b[..k]
  {
    num := 0;
    if |b| == 1 {
      return;
    }
    var i := 0;
    while i < max && i < |b| - 1
      invariant 0 <= i == num <= max && num < |b|
      invariant a[..num] == b[..num]
    {
      if a[i] != b[i] {
        forall k | num < k <= max && k < |b| ensures a[..k] != b[..k] {
          assert a[..k][i] != b[..k][i];
        }
        return;
      }
      num := i + 1;
      i := i + 1;
    }
  }

  // ---------------------------------------------------------------- index keys

  /** The bounds of an index key; a leaf key holds one path for both. */
  datatype Key = Key(left: Path, right: Path)

  ghost predicate Bounds(k: Key, v: Path) { PLe(k.left, v) && PLe(v, k.right) }

  /** Smallest left and largest right bound of a page. */
  method Union(keys: seq<Key>) returns (r: Key)
    requires keys != []
    ensures forall i | 0 <= i < |keys| :: PLe(r.left, keys[i].left) && PLe(keys[i].right, r.right)
    ensures exists i | 0 <= i < |keys| :: r.left == keys[i].left
    ensures exists i | 0 <= i < |keys| :: r.right == keys[i].right
  {
    var left, right: Option<Path> := None, None;
    var j := 0;
    while j < |keys|
      invariant 0 <= j <= |keys|
      invariant j == 0 <==> left.None?
      invariant j == 0 <==> right.None?
      invariant left.Some? ==> exists i | 0 <= i < j :: left.value == keys[i].left
      invariant right.Some? ==> exists i | 0 <= i < j :: right.value == keys[i].right
      invariant left.Some? ==> forall i | 0 <= i < j :: PLe(left.value, keys[i].left)
      invariant right.Some? ==> forall i | 0 <= i < j :: PLe(keys[i].right, right.value)
    {
      left := Lower(left, keys[j].left, keys, j);
      right := Upper(right, keys[j].right, keys, j);
      j := j + 1;
    }
    r := Key(left.value, right.value);
  }

  method Lower(left: Option<Path>, cur: Path, ghost keys: seq<Key>, ghost j: int) returns (r: Option<Path>)
    requires 0 <= j < |keys| && cur == keys[j].left && (j == 0 <==> left.None?)
    requires left.Some? ==> exists i | 0 <= i < j :: left.value == keys[i].left
    requires left.Some? ==> forall i | 0 <= i < j :: PLe(left.value, keys[i].left)
    ensures r.Some? && forall i | 0 <= i <= j :: PLe(r.value, keys[i].left)
    ensures exists i | 0 <= i <= j :: r.value == keys[i].left
  {
    PathZero(cur, cur);
    if left.None? {
      return Some(cur);
    }
    var c := LtreeCompare(left.value, cur);
    PathTotal(left.value, cur);
    PathFlip(left.value, cur);
    if c > 0 {
      forall i | 0 <= i < j ensures PLe(cur, keys[i].left) {
        PathTrans(cur, left.value, keys[i].left);
      }
      return Some(cur);
    }
    return left;
  }

  method Upper(right: Option<Path>, cur: Path, ghost keys: seq<Key>, ghost j: int) returns (r: Option<Path>)
    requires 0 <= j < |keys| && cur == keys[j].right && (j == 0 <==> right.None?)
    requires right.Some? ==> exists i | 0 <= i < j :: right.value == keys[i].right
    requires right.Some? ==> forall i | 0 <= i < j :: PLe(keys[i].right, right.value)
    ensures r.Some? && forall i | 0 <= i <= j :: PLe(keys[i].right, r.value)
    ensures exists i | 0 <= i <= j :: r.value == keys[i].right
  {
    PathZero(cur, cur);
    if right.None? {
      return Some(cur);
    }
    var c := LtreeCompare(right.value, cur);
    PathTotal(right.value, cur);
    PathFlip(right.value, cur);
    if c < 0 {
      forall i | 0 <= i < j ensures PLe(keys[i].right, cur) {
        PathTrans(keys[i].right, right.value, cur);
      }
      return Some(cur);
    }
    return right;
  }

  // ---------------------------------------------------------------- the consistency test

  /** A path whose number of levels can be cut for a while. */
  class Query {
    const levels: Path
    var numlevel: nat

    constructor (levels: Path)
      ensures this.levels == levels && numlevel == |levels|
    {
      this.levels, numlevel := levels, |levels|;
    }

    ghost function Path(): Path
      reads this
    {
      if numlevel <= |levels| then levels[..numlevel] else levels
    }

    /** Does the key's interval hold an ancestor of the query?  The query is cut level by
        level and restored. */
    method GistIsParent(key: Key) returns (r: bool)
      requires numlevel <= |levels|
      modifies this
      ensures numlevel == old(numlevel)
      ensures r <==> exists i | 0 <= i <= numlevel :: Bounds(key, levels[..i])
    {
      var saved := numlevel;
      var i: int := numlevel;
      while i >= 0
        invariant -1 <= i <= saved == old(numlevel) <= |levels|
        invariant forall j | i < j <= saved :: !Bounds(key, levels[..j])
      {
        numlevel := i;
        var l := LtreeCompare(levels[..numlevel], key.left);
        var g := LtreeCompare(levels[..numlevel], key.right);
        PathFlip(levels[..i], key.left);
        if l >= 0 && g <= 0 {
          numlevel := saved;
          assert Bounds(key, levels[..i]);
          return true;
        }
        i := i - 1;
      }
      numlevel := saved;
      return false;
    }
  }

  /** A path never lies behind what it was cut from. */
  lemma {:induction false} TruncBelow(a: Path, n: nat)
    ensures PLe(Trunc(a, n), a)
  {
    var x := Trunc(a, n);
    assert x[..|x|] == a[..|x|];
    CpUnique(x, a, |x|);
  }

  /** Both ends cut to the query's length enclose the query exactly when the interval holds a
      descendant of it. */
  lemma {:induction false} ChildIff(key: Key, query: Path)
    requires PLe(key.left, key.right)
    ensures PLe(Trunc(key.left, |query|), query) && PLe(query, Trunc(key.right, |query|))
      <==> exists v :: Bounds(key, v) && query <= v
  {
    var n := |query|;
    var x, y := Trunc(key.left, n), Trunc(key.right, n);
    if PLe(x, query) && PLe(query, y) {
      TruncBelow(key.right, n);
      PathTrans(query, y, key.right);
      PathTotal(key.left, query);
      if PLe(key.left, query) {
        assert Bounds(key, query) && query <= query;
      } else {
        PathTotal(query, key.left);
        TruncMonotone(query, key.left, n);
        PathTotal(x, query);
        assert x == query;
        PathZero(key.left, key.left);
        assert Bounds(key, key.left) && query <= key.left;
      }
    }
    if v :| Bounds(key, v) && query <= v {
      assert Trunc(v, n) == query;
      TruncMonotone(key.left, v, n);
      TruncMonotone(v, key.right, n);
    }
  }

  /** Does the key's interval hold a descendant of the query? */
  method GistIsChild(key: Key, query: Path) returns (r: bool)
    ensures r <==> PLe(Trunc(key.left, |query|), query) && PLe(query, Trunc(key.right, |query|))
    ensures PLe(key.left, key.right) ==> (r <==> exists v :: Bounds(key, v) && query <= v)
  {
    if PLe(key.left, key.right) {
      ChildIff(key, query);
    }
    var left, right := key.left, key.right;
    r := true;
    if |left| > |query| {
      left := left[..|query|];
    }
    PathFlip(left, query);
    var l := LtreeCompare(query, left);
    if l < 0 {
      r := false;
    }
    if |right| > |query| {
      right := right[..|query|];
    }
    if r {
      var g := LtreeCompare(query, right);
      if g > 0 {
        r := false;
      }
    }
  }

  datatype Strategy = Less | LessEqual | Equal | GreaterEqual | Greater | Ancestor | Descendant

  ghost predicate Matches(v: Path, query: Path, strategy: Strategy)
  {
    match strategy
    case Less => PLt(v, query)
    case LessEqual => PLe(v, query)
    case Equal => v == query
    case GreaterEqual => PLe(query, v)
    case Greater => PLt(query, v)
    case Ancestor => v <= query
    case Descendant => query <= v
  }

  /** The test; a leaf key has one path for both ends. */
  ghost predicate Consistent(k: Key, query: Path, strategy: Strategy, leaf: bool)
  {
    match strategy
    case Less => if leaf then PLt(k.left, query) else PLe(k.left, query)
    case LessEqual => PLe(k.left, query)
    case Equal => if leaf then query == k.left else Bounds(k, query)
    case GreaterEqual => PLe(query, k.right)
    case Greater => if leaf then PLt(query, k.right) else PLe(query, k.right)
    case Ancestor => if leaf then k.left <= query else exists i | 0 <= i <= |query| :: Bounds(k, query[..i])
    case Descendant =>
      if leaf then query <= k.left
      else PLe(Trunc(k.left, |query|), query) && PLe(query, Trunc(k.right, |query|))
  }

  method LtreeConsistent(k: Key, query: Path, strategy: Strategy, leaf: bool) returns (r: bool)
    ensures r == Consistent(k, query, strategy, leaf)
  {
    PathFlip(k.left, query);
    var l := LtreeCompare(query, k.left);
    var g := LtreeCompare(query, k.right);
    match strategy {
      case Less => r := if leaf then l > 0 else l >= 0;
      case LessEqual => r := l >= 0;
      case Equal =>
        PathZero(query, k.left);
        r := if leaf then l == 0 else l >= 0 && g <= 0;
      case GreaterEqual => r := g <= 0;
      case Greater => r := if leaf then g < 0 else g <= 0;
      case Ancestor =>
        if leaf {
          r := InnerIsParent(query, k.left);
        } else {
          var q := new Query(query);
          r := q.GistIsParent(k);
        }
      case Descendant =>
        if leaf {
          r := InnerIsParent(k.left, query);
        } else {
          r := GistIsChild(k, query);
        }
    }
  }

  /** A key whose bounds enclose a matching path is never rejected. */
  lemma {:induction false} BoundedIsConsistent(k: Key, v: Path, query: Path, strategy: Strategy)
    requires Bounds(k, v) && Matches(v, query, strategy)
    ensures Consistent(k, query, strategy, false)
  {
    match strategy
    case Less => PathTrans(k.left, v, query);
    case LessEqual => PathTrans(k.left, v, query);
    case Equal =>
    case GreaterEqual => PathTrans(query, v, k.right);
    case Greater => PathTrans(query, v, k.right);
    case Ancestor =>
      assert v == query[..|v|];
    case Descendant =>
      var n := |query|;
      assert Trunc(v, n) == query;
      TruncMonotone(k.left, v, n);
      TruncMonotone(v, k.right, n);
  }

  /** Above the leaves the strict orderings are tested like the others. */
  function Loose(strategy: Strategy): Strategy
  {
    if strategy == Less then LessEqual else if strategy == Greater then GreaterEqual else strategy
  }

  /** The test prunes all it can: above the leaves it is true if and only if a path within the
      bounds satisfies the strategy, a strict one taken as not strict. */
  lemma {:induction false} PrunesIff(k: Key, query: Path, strategy: Strategy)
    requires PLe(k.left, k.right)
    ensures Consistent(k, query, strategy, false) <==> exists v :: Bounds(k, v) && Matches(v, query, Loose(strategy))
  {
    if Consistent(k, query, strategy, false) {
      var v := BoundedWitness(k, query, strategy);
    }
    if v :| Bounds(k, v) && Matches(v, query, Loose(strategy)) {
      BoundedIsConsistent(k, v, query, Loose(strategy));
    }
  }

  lemma {:induction false} BoundedWitness(k: Key, query: Path, strategy: Strategy) returns (v: Path)
    requires PLe(k.left, k.right) && Consistent(k, query, strategy, false)
    ensures Bounds(k, v) && Matches(v, query, Loose(strategy))
  {
    PathZero(k.left, k.left);
    PathZero(k.right, k.right);
    match strategy
    case Less => v := k.left;
    case LessEqual => v := k.left;
    case Equal => v := query;
    case GreaterEqual => v := k.right;
    case Greater => v := k.right;
    case Ancestor =>
      var i :| 0 <= i <= |query| && Bounds(k, query[..i]);
      v := query[..i];
    case Descendant =>
      ChildIff(k, query);
      v :| Bounds(k, v) && query <= v;
  }

  datatype Tree = Leaf(path: Path) | Node(children: seq<Tree>, key: Key)

  function KeyOf(t: Tree): Key
  {
    match t
    case Leaf(p) => Key(p, p)
    case Node(_, k) => k
  }

  /** Inner keys enclose their children's, as the union of a page does. */
  ghost predicate Built(t: Tree)
  {
    t.Node? ==> forall c | c in t.children ::
      Built(c) && PLe(t.key.left, KeyOf(c).left) && PLe(KeyOf(c).right, t.key.right)
  }

  ghost predicate Below(v: Path, t: Tree)
  {
    match t
    case Leaf(p) => p == v
    case Node(cs, _) => exists c | c in cs :: Below(v, c)
  }

  lemma {:induction false} KeyEncloses(t: Tree, v: Path)
    requires Built(t) && Below(v, t)
    ensures Bounds(KeyOf(t), v)
    decreases t
  {
    if t.Leaf? {
      PathZero(v, v);
    } else {
      var c :| c in t.children && Below(v, c);
      KeyEncloses(c, v);
      PathTrans(t.key.left, KeyOf(c).left, v);
      PathTrans(v, KeyOf(c).right, t.key.right);
    }
  }

  /** No search loses a match: every key above a matching path, at any height, is consistent
      with the query, for the five orderings and for ancestors and descendants; on a leaf the
      test is exact. */
  lemma {:induction false} NoLostPath(t: Tree, v: Path, query: Path, strategy: Strategy)
    requires Built(t) && Below(v, t)
    ensures Matches(v, query, strategy) ==> Consistent(KeyOf(t), query, strategy, t.Leaf?)
    ensures t.Leaf? && Consistent(KeyOf(t), query, strategy, true) ==> Matches(v, query, strategy)
  {
    KeyEncloses(t, v);
    if t.Node? && Matches(v, query, strategy) {
      BoundedIsConsistent(KeyOf(t), v, query, strategy);
    }
  }
}
