/** How good range compression is: the ranges cover the set, and no other 100 ranges that
    do cover fewer integers, exactly as long as no gap overflows. */
module RangeOptimal {
  import opened Int32
  import opened IntTool
  import opened RangeKeys

  // ---------------------------------------------------------------- counting

  /** Integers strictly between two neighbours. */
  function Between(a: seq<int>, i: int): int
    requires 0 < i < |a|
  {
    a[i] - a[i - 1] - 1
  }

  /** How many integers the first `m` numbers and the gaps among them make up, the gaps
      before the places in `cut` left out. */
  function Filled(a: seq<int>, cut: set<int>, m: nat): int
    requires m <= |a|
  {
    if m == 0 then 0
    else if m == 1 then 1
    else Filled(a, cut, m - 1) + 1 + if m - 1 in cut then 0 else Between(a, m - 1)
  }

  /** The integers strictly between two others. */
  ghost function Interval(lo: int, hi: int): (s: set<int>)
    ensures forall x :: x in s <==> lo < x < hi
    ensures lo < hi ==> |s| == hi - lo - 1
    decreases hi - lo
  {
    if hi <= lo + 1 then {} else Interval(lo, hi - 1) + {hi - 1}
  }

  /** The integers in the gap before place `i`. */
  ghost function GapSet(a: seq<int>, i: int): set<int>
    requires 0 < i < |a|
  {
    Interval(a[i - 1], a[i])
  }

  /** The integers up to the m-th number. */
  ghost function UpTo(xs: set<int>, a: seq<int>, m: nat): set<int>
    requires 0 < m <= |a|
  {
    set x | x in xs && x <= a[m - 1]
  }

  ghost predicate Holds(xs: set<int>, a: seq<int>)
  {
    forall i | 0 <= i < |a| :: a[i] in xs
  }

  lemma {:induction false} ThreeParts(t: set<int>, g: set<int>, x: int, s: set<int>)
    requires t !! g && x !in t && x !in g && t <= s && g <= s && x in s
    ensures |t| + |g| + 1 <= |s|
  {
    SizeMonotone(t + g + {x}, s);
  }

  /** The m-th number, and a gap before it, are new among the integers up to it. */
  lemma {:induction false} UpToStep(xs: set<int>, a: seq<int>, m: nat, g: set<int>)
    requires StrictInc(a) && Holds(xs, a) && 1 < m <= |a| && g <= GapSet(a, m - 1) && g <= xs
    ensures |UpTo(xs, a, m)| >= |UpTo(xs, a, m - 1)| + |g| + 1
  {
    var s, t := UpTo(xs, a, m), UpTo(xs, a, m - 1);
    assert a[m - 2] < a[m - 1];
    ThreeParts(t, g, a[m - 1], s);
  }

  /** A set that holds all the numbers and every gap outside `cut` is at least that
      large. */
  lemma {:induction false} FilledBelow(xs: set<int>, a: seq<int>, cut: set<int>, m: nat)
    requires StrictInc(a) && Holds(xs, a) && 0 < m <= |a|
    requires forall i | 0 < i < |a| && i !in cut :: GapSet(a, i) <= xs
    ensures |UpTo(xs, a, m)| >= Filled(a, cut, m)
  {
    if m == 1 {
      assert {a[0]} <= UpTo(xs, a, 1);
      SizeMonotone({a[0]}, UpTo(xs, a, 1));
    } else {
      FilledBelow(xs, a, cut, m - 1);
      UpToStep(xs, a, m, if m - 1 in cut then {} else GapSet(a, m - 1));
    }
  }

  /** A set without the gaps in `cut`, and without anything outside the numbers, is at most
      that large. */
  lemma {:induction false} FilledAbove(xs: set<int>, a: seq<int>, cut: set<int>, m: nat)
    requires StrictInc(a) && 0 < m <= |a|
    requires forall x | x in xs :: a[0] <= x
    requires forall i | 0 < i < |a| && i in cut :: GapSet(a, i) !! xs
    ensures |UpTo(xs, a, m)| <= Filled(a, cut, m)
  {
    var s := UpTo(xs, a, m);
    if m == 1 {
      SizeMonotone(s, {a[0]});
    } else {
      FilledAbove(xs, a, cut, m - 1);
      var i := m - 1;
      var g := if i in cut then {} else GapSet(a, i);
      var t := UpTo(xs, a, m - 1);
      assert forall x | x in s && x !in t && x != a[i] :: x in GapSet(a, i);
      assert s <= t + g + {a[i]};
      SizeMonotone(s, t + g + {a[i]});
    }
  }

  lemma {:induction false} SizeMonotone(x: set<int>, y: set<int>)
    requires x <= y
    ensures |x| <= |y|
  {
    assert y == x + (y - x);
  }

  // ---------------------------------------------------------------- leaving out the widest gaps

  /** How many of the first gaps are left out, and how many integers that saves. */
  function CountIn(cut: set<int>, m: nat): nat
  {
    if m <= 1 then 0 else CountIn(cut, m - 1) + if m - 1 in cut then 1 else 0
  }

  function Saved(a: seq<int>, cut: set<int>, m: nat): int
    requires m <= |a|
  {
    if m <= 1 then 0 else Saved(a, cut, m - 1) + if m - 1 in cut then Between(a, m - 1) else 0
  }

  lemma {:induction false} FilledSaved(a: seq<int>, cut: set<int>, m: nat)
    requires m <= |a|
    ensures Filled(a, cut, m) + Saved(a, cut, m) == Filled(a, {}, m)
  {
    if m > 1 {
      FilledSaved(a, cut, m - 1);
    }
  }

  ghost function Before(cut: set<int>, m: nat): set<int>
  {
    set i | i in cut && i < m
  }

  lemma {:induction false} BeforeNext(cut: set<int>, m: nat)
    ensures Before(cut, m + 1) == if m in cut then Before(cut, m) + {m} else Before(cut, m)
  {
  }

  lemma {:induction false} CountInSize(cut: set<int>, m: nat)
    requires forall i | i in cut :: 0 < i
    ensures CountIn(cut, m) == |Before(cut, m)|
  {
    if m <= 1 {
      assert Before(cut, m) == {};
    } else {
      CountInSize(cut, m - 1);
      BeforeNext(cut, m - 1);
    }
  }

  /** Swapping narrow gaps for wide ones never saves less. */
  lemma {:induction false} Exchange(a: seq<int>, wide: set<int>, other: set<int>, t: int, m: nat)
    requires m <= |a|
    requires forall i | 0 < i < |a| && i in wide :: t <= Between(a, i)
    requires forall i | 0 < i < |a| && i !in wide :: Between(a, i) <= t
    ensures Saved(a, wide, m) - Saved(a, other, m) >= t * (CountIn(wide, m) - CountIn(other, m))
  {
    if m > 1 {
      Exchange(a, wide, other, t, m - 1);
      var d := CountIn(wide, m - 1) - CountIn(other, m - 1);
      assert t * (d + 1) == t * d + t && t * (d - 1) == t * d - t;
    }
  }

  /** The widest gap that is not left out. */
  function WidestIn(a: seq<int>, cut: set<int>, m: nat): int
    requires m <= |a|
  {
    if m <= 1 then 0
    else
      var w := WidestIn(a, cut, m - 1);
      if m - 1 !in cut && Between(a, m - 1) > w then Between(a, m - 1) else w
  }

  lemma {:induction false} WidestInBounds(a: seq<int>, cut: set<int>, m: nat)
    requires m <= |a|
    ensures WidestIn(a, cut, m) >= 0
    ensures forall i | 0 < i < m && i !in cut :: Between(a, i) <= WidestIn(a, cut, m)
    ensures WidestIn(a, cut, m) == 0
      || exists i | 0 < i < m && i !in cut :: WidestIn(a, cut, m) == Between(a, i)
  {
    if m > 1 {
      WidestInBounds(a, cut, m - 1);
      var i := m - 1;
      assert i !in cut ==> Between(a, i) == Between(a, i);
    }
  }

  /** No gap left out is narrower than a kept one. */
  ghost predicate Wide(a: seq<int>, cut: set<int>)
  {
    forall i, j | 0 < i < |a| && i !in cut && 0 < j < |a| && j in cut :: Between(a, i) <= Between(a, j)
  }

  lemma {:induction false} Threshold(a: seq<int>, wide: set<int>) returns (t: int)
    requires StrictInc(a) && Wide(a, wide)
    ensures t >= 0
    ensures forall i | 0 < i < |a| && i in wide :: t <= Between(a, i)
    ensures forall i | 0 < i < |a| && i !in wide :: Between(a, i) <= t
  {
    t := WidestIn(a, wide, |a|);
    WidestInBounds(a, wide, |a|);
  }

  /** Leaving out wide gaps fills least, among all ways to leave out as many. */
  lemma {:induction false} WideCutsFillLeast(a: seq<int>, wide: set<int>, other: set<int>)
    requires StrictInc(a) && Wide(a, wide)
    requires CountIn(other, |a|) <= CountIn(wide, |a|)
    ensures Filled(a, wide, |a|) <= Filled(a, other, |a|)
  {
    var n := |a|;
    var t := Threshold(a, wide);
    Exchange(a, wide, other, t, n);
    FilledSaved(a, wide, n);
    FilledSaved(a, other, n);
    NonNegative(t, CountIn(wide, n) - CountIn(other, n));
  }

  lemma {:induction false} NonNegative(x: int, y: int)
    requires x >= 0 && y >= 0
    ensures x * y >= 0
  {
  }

  // ---------------------------------------------------------------- what the ranges cover

  ghost predicate CoversAll(a: seq<int>, r: seq<int>)
  {
    forall i | 0 <= i < |a| :: Covered(r, a[i])
  }

  /** The ranges cover the numbers, the gaps outside `cut`, and nothing else. */
  ghost predicate Splits(a: seq<int>, cut: set<int>, r: seq<int>)
  {
    && CoversAll(a, r)
    && (forall i | 0 < i < |a| && i !in cut :: forall x | x in GapSet(a, i) :: Covered(r, x))
    && (forall i | 0 < i < |a| && i in cut :: forall x | x in GapSet(a, i) :: !Covered(r, x))
    && (forall x | Covered(r, x) :: a != [] && a[0] <= x <= a[|a| - 1])
  }

  lemma {:induction false} SplitsSize(a: seq<int>, cut: set<int>, r: seq<int>)
    requires StrictInc(a) && All32(a) && a != [] && Splits(a, cut, r)
    ensures |Cover(r)| == Filled(a, cut, |a|)
  {
    var xs := Cover(r);
    assert UpTo(xs, a, |a|) == xs;
    assert Holds(xs, a);
    forall i | 0 < i < |a| && i !in cut ensures GapSet(a, i) <= xs {
      assert forall x | x in GapSet(a, i) :: Covered(r, x);
    }
    FilledBelow(xs, a, cut, |a|);
    FilledAbove(xs, a, cut, |a|);
  }

  /** The places where a range begins, but for the first. */
  ghost function CutSet(a: seq<int>, c: seq<int>): set<int>
  {
    set i | i in c && 0 < i < |a|
  }

  /** The range a place of the array belongs to. */
  lemma {:induction false} Locate(a: seq<int>, c: seq<int>, i: int, k: int) returns (j: int)
    requires IsCuts(a, c) && 0 <= i < |a| && 0 <= k < |c| - 1 && c[k] <= i
    ensures k <= j < |c| - 1 && c[j] <= i < c[j + 1]
    decreases |c| - k
  {
    if i < c[k + 1] {
      j := k;
    } else {
      j := Locate(a, c, i, k + 1);
    }
  }

  /** A number and its left neighbour, in one range or in two. */
  lemma {:induction false} RangesCover(a: seq<int>, c: seq<int>, r: seq<int>, i: int)
    requires StrictInc(a) && IsCuts(a, c) && IsRanges(a, c, r) && 0 <= i < |a|
    ensures Covered(r, a[i])
    ensures i > 0 && i !in c ==> forall x | a[i - 1] < x < a[i] :: Covered(r, x)
  {
    var j := Locate(a, c, i, 0);
    assert RangeAt(a, c, r, j);
    assert a[c[j]] <= a[i] <= a[c[j + 1] - 1];
    assert InRange(r, j, a[i]);
    if i > 0 && i !in c {
      assert c[j] != i && a[c[j]] <= a[i - 1];
      forall x | a[i - 1] < x < a[i] ensures Covered(r, x) {
        assert InRange(r, j, x);
      }
    }
  }

  /** No range reaches into a gap left open. */
  lemma {:induction false} RangesStop(a: seq<int>, c: seq<int>, r: seq<int>, k: int, m: int)
    requires StrictInc(a) && IsCuts(a, c) && IsRanges(a, c, r) && 0 <= k < |c| - 1 && 0 < m < |c| - 1
    ensures 0 < c[m] < |a| && (r[2 * k + 1] <= a[c[m] - 1] || a[c[m]] <= r[2 * k])
    ensures a[0] <= r[2 * k] && r[2 * k + 1] <= a[|a| - 1]
  {
    assert RangeAt(a, c, r, k);
    if k < m {
      assert c[k + 1] <= c[m];
    } else {
      assert c[m] <= c[k];
    }
  }

  lemma {:induction false} CutsSplit(a: seq<int>, c: seq<int>, r: seq<int>)
    requires StrictInc(a) && IsCuts(a, c) && IsRanges(a, c, r) && |c| > 2
    ensures Splits(a, CutSet(a, c), r)
  {
    var cut := CutSet(a, c);
    forall i | 0 <= i < |a| ensures Covered(r, a[i]) {
      RangesCover(a, c, r, i);
    }
    forall i | 0 < i < |a| && i !in cut ensures forall x | x in GapSet(a, i) :: Covered(r, x) {
      RangesCover(a, c, r, i);
    }
    forall i | 0 < i < |a| && i in cut ensures forall x | x in GapSet(a, i) :: !Covered(r, x) {
      CutUncovered(a, c, r, i);
    }
    forall x | Covered(r, x) ensures a[0] <= x <= a[|a| - 1] {
      var k :| InRange(r, k, x);
      RangesStop(a, c, r, k, 1);
    }
  }

  lemma {:induction false} CutUncovered(a: seq<int>, c: seq<int>, r: seq<int>, i: int)
    requires StrictInc(a) && IsCuts(a, c) && IsRanges(a, c, r) && i in c && 0 < i < |a|
    ensures forall x | a[i - 1] < x < a[i] :: !Covered(r, x)
  {
    var m :| 0 <= m < |c| && c[m] == i;
    forall k | 0 <= k < |c| - 1 ensures r[2 * k + 1] <= a[i - 1] || a[i] <= r[2 * k] {
      RangesStop(a, c, r, k, m);
    }
  }

  // ---------------------------------------------------------------- every other cover

  lemma {:induction false} MapFits(m: map<int, int>, n: nat)
    requires forall x | x in m :: 0 <= m[x] < n
    requires forall x, y | x in m && y in m && m[x] == m[y] :: x == y
    ensures |m| <= n
  {
    if n > 0 {
      if x :| x in m && m[x] == n - 1 {
        var m' := m - {x};
        assert forall y | y in m' :: m[y] != n - 1;
        MapFits(m', n - 1);
        assert m.Keys == m'.Keys + {x};
      } else {
        MapFits(m, n - 1);
      }
    } else {
      assert forall x :: x !in m.Keys;
    }
  }

  /** The gaps a cover leaves open, at least in part. */
  ghost function OpenGaps(a: seq<int>, r: seq<int>): set<int>
  {
    set i | 0 < i < |a| && !(GapSet(a, i) <= Cover(r))
  }

  ghost function SomeRange(r: seq<int>, x: int): int
    requires Covered(r, x)
  {
    var k :| InRange(r, k, x);
    k
  }

  /** A range that covers both ends of a gap covers the gap. */
  lemma {:induction false} OneRange(a: seq<int>, r: seq<int>, i: int, j: int)
    requires StrictInc(a) && All32(a) && CoversAll(a, r) && 0 <= i < j < |a|
    requires SomeRange(r, a[i]) == SomeRange(r, a[j])
    ensures j !in OpenGaps(a, r)
  {
    var k := SomeRange(r, a[i]);
    assert InRange(r, k, a[i]) && InRange(r, k, a[j]) && a[i] <= a[j - 1];
    forall x | x in GapSet(a, j) ensures x in Cover(r) {
      assert InRange(r, k, x);
    }
  }

  /** Different open gaps are followed by different ranges. */
  lemma {:induction false} OwnRange(a: seq<int>, r: seq<int>, x: int, y: int)
    requires StrictInc(a) && All32(a) && a != [] && CoversAll(a, r)
    requires x in OpenGaps(a, r) + {0} && y in OpenGaps(a, r) + {0}
    requires SomeRange(r, a[x]) == SomeRange(r, a[y])
    ensures x == y
  {
    if x < y {
      OneRange(a, r, x, y);
    } else if y < x {
      OneRange(a, r, y, x);
    }
  }

  /** n ranges leave at most n - 1 gaps open. */
  lemma {:induction false} FewOpenGaps(a: seq<int>, r: seq<int>)
    requires StrictInc(a) && All32(a) && a != [] && CoversAll(a, r)
    ensures |OpenGaps(a, r)| + 1 <= |r| / 2
  {
    var open := OpenGaps(a, r);
    var keys := open + {0};
    var m := map i | i in keys :: SomeRange(r, a[i]);
    forall x, y | x in m && y in m && m[x] == m[y] ensures x == y {
      OwnRange(a, r, x, y);
    }
    forall x | x in m ensures 0 <= m[x] < |r| / 2 {
      assert InRange(r, m[x], a[x]);
    }
    MapFits(m, |r| / 2);
    assert m.Keys == keys;
  }

  lemma {:induction false} OpenGapsSize(a: seq<int>, r: seq<int>)
    requires StrictInc(a) && All32(a) && a != [] && CoversAll(a, r)
    ensures |Cover(r)| >= Filled(a, OpenGaps(a, r), |a|)
    ensures CountIn(OpenGaps(a, r), |a|) + 1 <= |r| / 2
  {
    var xs, open := Cover(r), OpenGaps(a, r);
    assert Holds(xs, a);
    FilledBelow(xs, a, open, |a|);
    SizeMonotone(UpTo(xs, a, |a|), xs);
    FewOpenGaps(a, r);
    CountInSize(open, |a|);
    assert Before(open, |a|) == open;
  }

  // ---------------------------------------------------------------- the verdict

  /** No adjacent difference overflows. */
  ghost predicate NoOverflow(a: seq<int>)
  {
    forall i | 0 < i < |a| :: Fits32(a[i] - a[i - 1])
  }

  /** No cover by as many ranges covers fewer integers. */
  ghost predicate Optimal(a: seq<int>, r: seq<int>)
  {
    forall r2 | |r2| <= |r| && CoversAll(a, r2) :: |Cover(r)| <= |Cover(r2)|
  }

  lemma {:induction false} CutSetCount(a: seq<int>, c: seq<int>, m: nat, k: nat)
    requires IsCuts(a, c) && 1 <= k < |c| && c[k - 1] < m <= c[k]
    ensures CountIn(CutSet(a, c), m) == k - 1
    decreases m
  {
    var cut := CutSet(a, c);
    if m == 1 {
      assert k == 1 by {
        assert forall j | 0 < j < |c| :: c[0] < c[j];
      }
    } else if c[k - 1] == m - 1 {
      assert m - 1 in cut;
      assert k >= 2 && c[k - 2] < c[k - 1];
      CutSetCount(a, c, m - 1, k - 1);
    } else {
      assert m - 1 !in c by {
        assert forall j | 0 <= j < k :: c[j] <= c[k - 1];
        assert forall j | k <= j < |c| :: c[k] <= c[j];
      }
      CutSetCount(a, c, m - 1, k);
    }
  }

  lemma {:induction false} GreedyIsWide(a: seq<int>, c: seq<int>)
    requires StrictInc(a) && All32(a) && IsCuts(a, c) && Greedy(a, c) && NoOverflow(a)
    ensures Wide(a, CutSet(a, c))
  {
    var cut := CutSet(a, c);
    forall i, j | 0 < i < |a| && i !in cut && 0 < j < |a| && j in cut ensures Between(a, i) <= Between(a, j) {
      var k :| 0 <= k < |c| && c[k] == j;
      assert Gap(a, i) <= Gap(a, c[k]);
    }
  }

  /** If no difference overflows, the merge loop finds a best cover. */
  lemma {:induction false} CompressedIsOptimal(a: seq<int>, c: seq<int>, r: seq<int>)
    requires StrictInc(a) && All32(a) && Compressed(a, c, r) && NoOverflow(a)
    ensures CoversAll(a, r) && Optimal(a, r)
  {
    var cut := CutSet(a, c);
    CutsSplit(a, c, r);
    SplitsSize(a, cut, r);
    CutSetCount(a, c, |a|, |c| - 1);
    GreedyIsWide(a, c);
    forall r2 | |r2| <= |r| && CoversAll(a, r2) ensures |Cover(r)| <= |Cover(r2)| {
      OpenGapsSize(a, r2);
      WideCutsFillLeast(a, cut, OpenGaps(a, r2));
    }
  }

  /** The ranges that leave exactly the gaps in `cut` open, for the first `m` numbers. */
  function RangesFor(a: seq<int>, cut: set<int>, m: nat): (r: seq<int>)
    requires 0 < m <= |a|
    ensures |r| == 2 * (CountIn(cut, m) + 1) && r[|r| - 1] == a[m - 1]
  {
    if m == 1 then [a[0], a[0]]
    else
      var p := RangesFor(a, cut, m - 1);
      if m - 1 in cut then p + [a[m - 1], a[m - 1]] else p[|p| - 1 := a[m - 1]]
  }

  /** Appending a range, or stretching the last one, covers just that much more. */
  lemma {:induction false} AppendCovers(p: seq<int>, x: int, v: int)
    requires |p| % 2 == 0
    ensures Covered(p + [v, v], x) <==> Covered(p, x) || x == v
  {
    var r := p + [v, v];
    var n := |p| / 2;
    assert InRange(r, n, x) <==> x == v;
    assert forall k | 0 <= k < n :: InRange(r, k, x) <==> InRange(p, k, x);
    assert forall k | InRange(r, k, x) :: 0 <= k <= n;
  }

  lemma {:induction false} StretchCovers(p: seq<int>, x: int, v: int)
    requires |p| % 2 == 0 && |p| > 0 && p[|p| - 2] <= p[|p| - 1] <= v
    ensures Covered(p[|p| - 1 := v], x) <==> Covered(p, x) || p[|p| - 1] < x <= v
  {
    var r := p[|p| - 1 := v];
    var n := |p| / 2 - 1;
    assert InRange(r, n, x) <==> InRange(p, n, x) || p[|p| - 1] < x <= v;
    assert forall k | 0 <= k < n :: InRange(r, k, x) <==> InRange(p, k, x);
    assert forall k | InRange(r, k, x) || InRange(p, k, x) :: 0 <= k <= n;
  }

  lemma {:induction false} RangesForShape(a: seq<int>, cut: set<int>, m: nat)
    requires StrictInc(a) && 0 < m <= |a|
    ensures var r := RangesFor(a, cut, m); r[|r| - 2] <= r[|r| - 1]
    ensures forall x | Covered(RangesFor(a, cut, m), x) :: a[0] <= x <= a[m - 1]
  {
    var r := RangesFor(a, cut, m);
    if m == 1 {
      assert forall k, x | InRange(r, k, x) :: k == 0;
    } else {
      RangesForShape(a, cut, m - 1);
      var p := RangesFor(a, cut, m - 1);
      forall x | Covered(r, x) ensures a[0] <= x <= a[m - 1] {
        if m - 1 in cut {
          AppendCovers(p, x, a[m - 1]);
        } else {
          StretchCovers(p, x, a[m - 1]);
        }
      }
    }
  }

  /** Which of the integers up to the m-th number those ranges cover. */
  lemma {:induction false} RangesForCovers(a: seq<int>, cut: set<int>, m: nat, i: int, x: int)
    requires StrictInc(a) && 0 < m <= |a| && 0 <= i < m
    requires x == a[i] || (0 < i && a[i - 1] < x < a[i])
    ensures Covered(RangesFor(a, cut, m), x) <==> x == a[i] || i !in cut
    decreases m
  {
    var r := RangesFor(a, cut, m);
    if m == 1 {
      assert InRange(r, 0, x);
    } else {
      var p, v := RangesFor(a, cut, m - 1), a[m - 1];
      RangesForShape(a, cut, m - 1);
      if m - 1 in cut {
        AppendCovers(p, x, v);
      } else {
        StretchCovers(p, x, v);
      }
      if i < m - 1 {
        RangesForCovers(a, cut, m - 1, i, x);
      }
    }
  }

  lemma {:induction false} RangesForSplits(a: seq<int>, cut: set<int>)
    requires StrictInc(a) && a != []
    ensures Splits(a, cut, RangesFor(a, cut, |a|))
  {
    var n := |a|;
    forall i | 0 <= i < n ensures Covered(RangesFor(a, cut, n), a[i]) {
      RangesForCovers(a, cut, n, i, a[i]);
    }
    forall i, x | 0 < i < n && x in GapSet(a, i) ensures Covered(RangesFor(a, cut, n), x) <==> i !in cut {
      RangesForCovers(a, cut, n, i, x);
    }
    RangesForShape(a, cut, n);
  }

  /** Leaving out one gap instead of another changes the count by their difference. */
  lemma {:induction false} SwapCut(a: seq<int>, cut: set<int>, i: int, j: int, m: nat)
    requires m <= |a| && 0 < i < |a| && 0 < j < |a| && i !in cut && j in cut
    ensures Filled(a, cut - {j} + {i}, m)
         == Filled(a, cut, m) + (if j < m then Between(a, j) else 0) - (if i < m then Between(a, i) else 0)
    ensures CountIn(cut - {j} + {i}, m)
         == CountIn(cut, m) - (if j < m then 1 else 0) + (if i < m then 1 else 0)
  {
    if m > 1 {
      SwapCut(a, cut, i, j, m - 1);
    }
  }

  /** A difference that overflows looks negative, so its gap is closed before all others,
      although it is wider than they are. */
  lemma {:induction false} OverflowClosed(a: seq<int>, c: seq<int>, r: seq<int>, i: int)
    requires StrictInc(a) && All32(a) && Compressed(a, c, r) && |a| >= 2 * MAXNUMRANGE
    requires 0 < i < |a| && !Fits32(a[i] - a[i - 1])
    ensures i !in c
    ensures forall j | 0 < j < |a| && j != i :: Between(a, j) < Between(a, i)
  {
    WrapMax(a[i] - a[i - 1]);
    forall j | 0 < j < |a| && j != i ensures Between(a, j) < Between(a, i) && Gap(a, j) > 0 {
      if j < i {
        assert a[j - 1] < a[j] <= a[i - 1];
      } else {
        assert a[i] <= a[j - 1] < a[j];
      }
      WrapMax(a[j] - a[j - 1]);
    }
    var j := ClosedGap(a, c);
    assert forall k | 0 < k < |c| - 1 && 0 < c[k] < |a| :: Gap(a, j) <= Gap(a, c[k]);
  }

  /** Some gap is closed. */
  lemma {:induction false} ClosedGap(a: seq<int>, c: seq<int>) returns (j: int)
    requires IsCuts(a, c) && |c| == MAXNUMRANGE + 1 && |a| >= 2 * MAXNUMRANGE
    ensures 0 < j < |a| && j !in c
  {
    var s := Interval(0, |a|);
    var cut := CutSet(a, c);
    CutSetCount(a, c, |a|, |c| - 1);
    CountInSize(cut, |a|);
    assert Before(cut, |a|) == cut;
    if s <= cut {
      SizeMonotone(s, cut);
      assert false;
    }
    j :| j in s && j !in cut;
  }

  /** Compression is optimal exactly when no adjacent difference overflows. */
  lemma {:induction false} OptimalIff(a: seq<int>, c: seq<int>, r: seq<int>)
    requires StrictInc(a) && All32(a) && Compressed(a, c, r) && |a| >= 2 * MAXNUMRANGE
    ensures Optimal(a, r) <==> NoOverflow(a)
  {
    if NoOverflow(a) {
      CompressedIsOptimal(a, c, r);
    } else {
      var i :| 0 < i < |a| && !Fits32(a[i] - a[i - 1]);
      var r2 := BetterCover(a, c, r, i);
    }
  }

  /** Leaving the overflowing gap open instead of any other saves integers. */
  lemma {:induction false} BetterCover(a: seq<int>, c: seq<int>, r: seq<int>, i: int) returns (r2: seq<int>)
    requires StrictInc(a) && All32(a) && Compressed(a, c, r) && |a| >= 2 * MAXNUMRANGE
    requires 0 < i < |a| && !Fits32(a[i] - a[i - 1])
    ensures |r2| == |r| && CoversAll(a, r2) && |Cover(r2)| < |Cover(r)|
  {
    OverflowClosed(a, c, r, i);
    var cut, j := CutSet(a, c), c[1];
    CutsBound(a, c, 1);
    var cut' := cut - {j} + {i};
    SwapCut(a, cut, i, j, |a|);
    CutSetCount(a, c, |a|, |c| - 1);
    CutsSplit(a, c, r);
    SplitsSize(a, cut, r);
    r2 := RangesFor(a, cut', |a|);
    RangesForSplits(a, cut');
    SplitsSize(a, cut', r2);
  }

  /** The least integer, and the 199 greatest. */
  function FarApart(): (a: seq<int>)
    ensures |a| == 2 * MAXNUMRANGE && a[0] == INT_MIN
    ensures forall k | 1 <= k < |a| :: a[k] == INT_MAX - (2 * MAXNUMRANGE - 1 - k)
  {
    seq(2 * MAXNUMRANGE, k => if k == 0 then INT_MIN else INT_MAX - (2 * MAXNUMRANGE - 1 - k))
  }

  /** Their one wide gap is closed, although 100 ranges could leave it open. */
  method OverflowExample() returns (r: seq<int>)
    ensures StrictInc(FarApart()) && All32(FarApart())
    ensures CoversAll(FarApart(), r) && Covered(r, 0) && !Optimal(FarApart(), r)
  {
    var a := FarApart();
    ghost var c;
    r, c := CompressRanges(a);
    assert !Fits32(a[1] - a[0]);
    OptimalIff(a, c, r);
    OverflowClosed(a, c, r, 1);
    CutsSplit(a, c, r);
    assert 0 in GapSet(a, 1);
  }
}
