/** Range compression of the inner keys of intarray's gist__int_ops
    (contrib/intarray/_int_gist.c): a set of 200 or more numbers is stored as 100 ranges
    that contain it, by closing the smallest gap again and again. */
module RangeKeys {
  import opened Int32
  import opened IntTool

  const MAXNUMRANGE: nat := 100

  ghost predicate All32(a: seq<int>)
  {
    forall i | 0 <= i < |a| :: Fits32(a[i])
  }

  // ---------------------------------------------------------------- ranges and cuts

  /** Numbers taken two by two are the ends of ranges; is `x` in the k-th? */
  predicate InRange(r: seq<int>, k: int, x: int)
  {
    0 <= k < |r| / 2 && r[2 * k] <= x <= r[2 * k + 1]
  }

  ghost predicate Covered(r: seq<int>, x: int)
  {
    exists k :: InRange(r, k, x)
  }

  /** The 32-bit integers that lie in some range. */
  ghost function Cover(r: seq<int>): set<int>
  {
    set x | INT_MIN <= x <= INT_MAX && Covered(r, x)
  }

  /** `c` lists, from 0 up to |a|, the places of `a` where a new range begins. */
  ghost predicate IsCuts(a: seq<int>, c: seq<int>)
  {
    && |c| >= 2 && c[0] == 0 && c[|c| - 1] == |a|
    && StrictInc(c)
  }

  /** The ends of the ranges that begin at those places. */
  ghost predicate IsRanges(a: seq<int>, c: seq<int>, r: seq<int>)
    requires IsCuts(a, c)
  {
    && |r| == 2 * (|c| - 1)
    && forall k | 0 <= k < |c| - 1 :: RangeAt(a, c, r, k)
  }

  ghost predicate RangeAt(a: seq<int>, c: seq<int>, r: seq<int>, k: int)
    requires |r| == 2 * (|c| - 1) && 0 <= k < |c| - 1
  {
    && 0 <= c[k] < c[k + 1] <= |a|
    && r[2 * k] == a[c[k]] && r[2 * k + 1] == a[c[k + 1] - 1]
  }

  /** The difference across the gap before place `i`, as 32-bit arithmetic has it. */
  function Gap(a: seq<int>, i: int): int
    requires 0 < i < |a|
  {
    Wrap32(a[i] - a[i - 1])
  }

  /** Every gap closed so far is at most as wide as every gap still open. */
  ghost predicate Greedy(a: seq<int>, c: seq<int>)
  {
    forall i, k | 0 < i < |a| && i !in c && 0 < k < |c| - 1 && 0 < c[k] < |a| :: Gap(a, i) <= Gap(a, c[k])
  }

  // ---------------------------------------------------------------- the merge loop

  function Without(s: seq<int>, k: int): seq<int>
    requires 0 <= k < |s|
  {
    s[..k] + s[k + 1..]
  }

  lemma {:induction false} CutsBound(a: seq<int>, c: seq<int>, k: int)
    requires IsCuts(a, c) && 0 <= k < |c|
    ensures 0 <= c[k] <= |a|
    ensures 0 < k < |c| - 1 ==> 0 < c[k] < |a|
    ensures k < |c| - 1 ==> c[k] < c[k + 1]
  {
  }

  /** Closing the k-th gap takes two numbers out of the middle. */
  lemma {:induction false} CloseGap(a: seq<int>, c: seq<int>, r: seq<int>, k: int, r': seq<int>)
    requires IsCuts(a, c) && IsRanges(a, c, r) && 0 < k < |c| - 1
    requires r' == r[..2 * k - 1] + r[2 * k + 1..]
    ensures IsCuts(a, Without(c, k)) && IsRanges(a, Without(c, k), r')
  {
    var c' := Without(c, k);
    assert |r'| == 2 * (|c'| - 1);
    forall j | 0 <= j < |c'| - 1 ensures RangeAt(a, c', r', j) {
      assert RangeAt(a, c, r, j) && RangeAt(a, c, r, j + 1);
      if j < k - 1 {
      } else if j == k - 1 {
        assert c'[j] == c[j] && c'[j + 1] == c[j + 2];
      } else {
        assert c'[j] == c[j + 1] && c'[j + 1] == c[j + 2];
      }
    }
  }

  lemma {:induction false} WithoutKeeps(s: seq<int>, k: int, x: int)
    requires 0 <= k < |s| && x in s && x != s[k]
    ensures x in Without(s, k)
  {
    var m :| 0 <= m < |s| && s[m] == x;
    var w := Without(s, k);
    assert w[if m < k then m else m - 1] == x;
  }

  lemma {:induction false} GreedyStep(a: seq<int>, c: seq<int>, k: int)
    requires IsCuts(a, c) && Greedy(a, c) && 0 < k < |c| - 1 && 0 < c[k] < |a|
    requires forall j | 0 < j < |c| - 1 && 0 < c[j] < |a| :: Gap(a, c[k]) <= Gap(a, c[j])
    ensures Greedy(a, Without(c, k))
  {
    var c' := Without(c, k);
    forall i, j | 0 < i < |a| && i !in c' && 0 < j < |c'| - 1 && 0 < c'[j] < |a|
      ensures Gap(a, i) <= Gap(a, c'[j])
    {
      var j' := if j < k then j else j + 1;
      assert c'[j] == c[j'];
      if i in c && i != c[k] {
        WithoutKeeps(c, k, i);
      }
    }
  }

  /** The gap before the k-th range, as it stands in the array. */
  lemma {:induction false} GapAt(a: seq<int>, c: seq<int>, r: seq<int>, k: int)
    requires IsCuts(a, c) && IsRanges(a, c, r) && 0 < k < |c| - 1
    ensures 0 < c[k] < |a| && 2 * k < |r| && Wrap32(r[2 * k] - r[2 * k - 1]) == Gap(a, c[k])
  {
    assert RangeAt(a, c, r, k) && RangeAt(a, c, r, k - 1);
  }

  /** Three open gaps cannot all be as wide as the largest 32-bit number. */
  lemma {:induction false} SomeGapSmall(a: seq<int>, c: seq<int>, r: seq<int>)
    requires StrictInc(a) && All32(a) && IsCuts(a, c) && IsRanges(a, c, r) && |c| >= 5
    ensures exists k | 0 < k < |r| / 2 :: Wrap32(r[2 * k] - r[2 * k - 1]) < INT_MAX
  {
    GapAt(a, c, r, 1);
    GapAt(a, c, r, 2);
    GapAt(a, c, r, 3);
    var x, y, z := c[1], c[2], c[3];
    assert x < y < z;
    assert a[x - 1] < a[x] <= a[y - 1] < a[y] <= a[z - 1] < a[z];
    WrapMax(a[x] - a[x - 1]);
    WrapMax(a[y] - a[y - 1]);
    WrapMax(a[z] - a[z - 1]);
    assert Wrap32(r[2 * 1] - r[2 * 1 - 1]) < INT_MAX
        || Wrap32(r[2 * 2] - r[2 * 2 - 1]) < INT_MAX
        || Wrap32(r[2 * 3] - r[2 * 3 - 1]) < INT_MAX;
  }

  lemma {:induction false} WrapMax(d: int)
    requires 0 < d <= 0xFFFF_FFFF
    ensures Wrap32(d) >= INT_MAX ==> d == INT_MAX
    ensures d <= INT_MAX ==> Wrap32(d) == d
    ensures d > INT_MAX ==> Wrap32(d) == d - 0x1_0000_0000
  {
  }

  /** One pass over the gaps: the first narrowest one. */
  method FindCandidate(dr: seq<int>, cand0: int) returns (cand: int)
    requires |dr| >= 4 && |dr| % 2 == 0
    requires exists k | 0 < k < |dr| / 2 :: Wrap32(dr[2 * k] - dr[2 * k - 1]) < INT_MAX
    ensures 2 <= cand < |dr| && cand % 2 == 0
    ensures forall k | 0 < k < |dr| / 2 ::
      Wrap32(dr[cand] - dr[cand - 1]) <= Wrap32(dr[2 * k] - dr[2 * k - 1])
  {
    var len := |dr|;
    cand := cand0;
    var min := INT_MAX;
    var i := 2;
    while i < len
      invariant 2 <= i <= len && i % 2 == 0
      invariant min <= INT_MAX
      invariant min < INT_MAX ==> 2 <= cand < i && cand % 2 == 0 && min == Wrap32(dr[cand] - dr[cand - 1])
      invariant forall k | 0 < k < i / 2 :: min <= Wrap32(dr[2 * k] - dr[2 * k - 1])
    {
      if min > Wrap32(dr[i] - dr[i - 1]) {
        min := Wrap32(dr[i] - dr[i - 1]);
        cand := i;
      }
      i := i + 2;
    }
  }

  /** `memmove` within an array. */
  method MoveDown(dr: array<int>, dst: int, src: int, n: int)
    requires 0 <= dst <= src && 0 <= n && src + n <= dr.Length
    modifies dr
    ensures dr[dst..dst + n] == old(dr[src..src + n])
    ensures dr[..dst] == old(dr[..dst])
  {
    forall k | dst <= k < dst + n {
      dr[k] := dr[k + src - dst];
    }
  }

  /** The numbers behind place `i` are doubled, the others wait in their places. */
  ghost predicate Spreading(m: seq<int>, s: seq<int>, i: int)
  {
    && |m| == |s| && 2 * i + 2 <= |s|
    && (forall j | 0 <= j <= i :: m[j] == s[j])
    && (forall p | 2 * i + 2 <= p < |s| && 0 <= p :: m[p] == s[p / 2])
  }

  lemma {:induction false} SpreadOne(m: seq<int>, s: seq<int>, i: nat)
    requires Spreading(m, s, i)
    ensures Spreading(m[2 * i := m[i]][2 * i + 1 := m[i]], s, i - 1)
  {
    var m' := m[2 * i := m[i]][2 * i + 1 := m[i]];
    forall p | 2 * i <= p < |s| ensures m'[p] == s[p / 2] {
      if p < 2 * i + 2 {
        assert p / 2 == i;
      }
    }
  }

  /** Doubles every number, from the back, within the array. */
  method Spread(dr: array<int>, len: nat)
    requires dr.Length == 2 * len
    modifies dr
    ensures forall p | 0 <= p < 2 * len :: dr[p] == old(dr[..])[p / 2]
  {
    ghost var s := dr[..];
    var i := len - 1;
    while i >= 0
      invariant -1 <= i < len && Spreading(dr[..], s, i)
    {
      ghost var m := dr[..];
      SpreadOne(m, s, i);
      dr[2 * i], dr[2 * i + 1] := dr[i], dr[i];
      assert dr[..] == m[2 * i := m[i]][2 * i + 1 := m[i]];
      i := i - 1;
    }
    ghost var m := dr[..];
    assert forall p | 0 <= p < 2 * len :: dr[p] == m[p];
  }

  /** Compression keeps the ends of 100 ranges whose open gaps are the widest. */
  ghost predicate Compressed(a: seq<int>, c: seq<int>, r: seq<int>)
  {
    && IsCuts(a, c) && IsRanges(a, c, r) && Greedy(a, c)
    && |c| == MAXNUMRANGE + 1
  }

  /** At first every number is a range of its own. */
  lemma {:induction false} NothingClosed(a: seq<int>, r: seq<int>) returns (c: seq<int>)
    requires |a| > 0 && |r| == 2 * |a| && forall p | 0 <= p < |r| :: r[p] == a[p / 2]
    ensures |c| == |a| + 1 && IsCuts(a, c) && IsRanges(a, c, r) && Greedy(a, c)
  {
    c := seq(|a| + 1, i => i);
    forall k | 0 <= k < |c| - 1 ensures RangeAt(a, c, r, k) {
      assert r[2 * k] == a[k] && r[2 * k + 1] == a[k];
    }
    forall i | 0 < i < |a| ensures i in c {
      assert c[i] == i;
    }
  }

  method CompressRanges(a: seq<int>) returns (r: seq<int>, ghost c: seq<int>)
    requires StrictInc(a) && All32(a) && |a| >= 2 * MAXNUMRANGE
    ensures Compressed(a, c, r) && |r| == 2 * MAXNUMRANGE
  {
    var len: int := |a|;
    var dr := new int[2 * len];
    forall k | 0 <= k < len {
      dr[k] := a[k];
    }
    Spread(dr, len);
    len := len * 2;
    c := NothingClosed(a, dr[..len]);
    var cand := 1;
    while len > MAXNUMRANGE * 2
      invariant 2 * MAXNUMRANGE <= len <= dr.Length && len == 2 * (|c| - 1)
      invariant IsCuts(a, c) && IsRanges(a, c, dr[..len]) && Greedy(a, c)
    {
      len, cand, c := CloseOne(dr, len, cand, a, c);
    }
    r := dr[..len];
  }

  /** One step of the merge loop. */
  method CloseOne(dr: array<int>, len: int, cand0: int, ghost a: seq<int>, ghost c: seq<int>)
    returns (len': int, cand: int, ghost c': seq<int>)
    requires StrictInc(a) && All32(a) && |c| > MAXNUMRANGE
    requires len == 2 * (|c| - 1) && len <= dr.Length
    requires IsCuts(a, c) && IsRanges(a, c, dr[..len]) && Greedy(a, c)
    modifies dr
    ensures len' == len - 2 && |c'| == |c| - 1
    ensures IsCuts(a, c') && IsRanges(a, c', dr[..len']) && Greedy(a, c')
  {
    ghost var r := dr[..len];
    SomeGapSmall(a, c, r);
    cand := FindCandidate(dr[..len], cand0);
    ghost var k := cand / 2;
    Narrowest(a, c, r, k);
    MoveDown(dr, cand - 1, cand + 1, len - cand - 1);
    len' := len - 2;
    assert dr[..len'] == dr[..cand - 1] + dr[cand - 1..len'];
    assert dr[..len'] == r[..2 * k - 1] + r[2 * k + 1..];
    CloseGap(a, c, r, k, dr[..len']);
    c' := Without(c, k);
  }

  lemma {:induction false} Narrowest(a: seq<int>, c: seq<int>, r: seq<int>, k: int)
    requires IsCuts(a, c) && IsRanges(a, c, r) && Greedy(a, c) && 0 < k < |c| - 1
    requires forall j | 0 < j < |r| / 2 ::
      Wrap32(r[2 * k] - r[2 * k - 1]) <= Wrap32(r[2 * j] - r[2 * j - 1])
    ensures Greedy(a, Without(c, k))
  {
    GapAt(a, c, r, k);
    forall j | 0 < j < |c| - 1 && 0 < c[j] < |a| ensures Gap(a, c[k]) <= Gap(a, c[j]) {
      GapAt(a, c, r, j);
    }
    GreedyStep(a, c, k);
  }
}
