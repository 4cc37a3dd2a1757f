/** Integer arrays kept as sorted sets (contrib/intarray/_int_tool.c). */
module IntTool {
  import opened Int32
  import opened Sorting

  /** Sorted and without repetition. */
  ghost predicate StrictInc(s: seq<int>)
  {
    forall i, j | 0 <= i < j < |s| :: s[i] < s[j]
  }

  ghost predicate Sorted(s: seq<int>)
  {
    forall i, j | 0 <= i < j < |s| :: s[i] <= s[j]
  }

  ghost predicate Subset(a: seq<int>, b: seq<int>)
  {
    forall v | v in a :: v in b
  }

  ghost predicate Meets(a: seq<int>, b: seq<int>)
  {
    exists v | v in a :: v in b
  }

  ghost predicate SameElements(a: seq<int>, b: seq<int>)
  {
    Subset(a, b) && Subset(b, a)
  }

  // ---------------------------------------------------------------- making arrays

  /** What becomes of an array under construction: finished, refused by palloc, written past
      the end of its block, or of more elements than an array may be asked for. */
  datatype Outcome = Done(key: seq<int>) | NoMemory | Overrun | TooLong

  /** ARRNELEMS fails on arrays of more elements. */
  const ARRAYMAX: int := MAXALLOC / 8

  /** The header of a one-dimensional array without nulls. */
  const OVERHEAD: int := 24

  /** The size asked for, kept in an int. */
  function ArrayBytes(num: int): int
  {
    Wrap32(OVERHEAD + 4 * num)
  }

  predicate Allocates(num: int)
  {
    0 <= ArrayBytes(num) <= MAXALLOC
  }

  /** How many numbers the block of that size holds; below zero when not even the header. */
  function Room(num: int): int
  {
    (ArrayBytes(num) - OVERHEAD) / 4
  }

  /** Counting in 32 bits may ask for too small a block, but never for one just large enough
      by mistake. */
  lemma {:induction false} RoomExact(n: nat)
    ensures ArrayBytes(Wrap32(n)) == ArrayBytes(n)
    ensures Allocates(n) && n <= Room(n) <==> OVERHEAD + 4 * n <= MAXALLOC
    ensures OVERHEAD + 4 * n <= MAXALLOC ==> Wrap32(n) == n == Room(n)
  {
    var q := (n + 0x8000_0000) / 0x1_0000_0000;
    assert Wrap32(n) == n - 0x1_0000_0000 * q;
    WrapShifts(OVERHEAD + 4 * n, 4 * q);
  }

  // ---------------------------------------------------------------- sets as sorted arrays

  /** Is every element of `b` in `a`? */
  method InnerContains(a: seq<int>, b: seq<int>) returns (r: bool)
    requires StrictInc(a) && StrictInc(b)
    ensures r <==> Subset(b, a)
  {
    var i, j, n := 0, 0, 0;
    while i < |a| && j < |b|
      invariant 0 <= i <= |a| && 0 <= j == n <= |b|
      invariant forall k | 0 <= k < j :: b[k] in a
      invariant forall k | 0 <= k < i :: j < |b| ==> a[k] < b[j]
    {
      if a[i] < b[j] {
        i := i + 1;
      } else if a[i] == b[j] {
        n := n + 1;
        i := i + 1;
        j := j + 1;
      } else {
        break;
      }
    }
    r := n == |b|;
    if j < |b| {
      ghost var v := b[j];
      assert v in b;
      assert v !in a;
    }
  }

  method InnerOverlap(a: seq<int>, b: seq<int>) returns (r: bool)
    requires Sorted(a) && Sorted(b)
    ensures r <==> Meets(a, b)
  {
    var i, j := 0, 0;
    while i < |a| && j < |b|
      invariant 0 <= i <= |a| && 0 <= j <= |b|
      invariant forall k, l | 0 <= k < i && j <= l < |b| :: a[k] != b[l]
      invariant forall k, l | 0 <= k < |a| && 0 <= l < j :: a[k] != b[l]
      decreases |a| - i + |b| - j
    {
      if a[i] < b[j] {
        i := i + 1;
      } else if a[i] == b[j] {
        ghost var v := a[i];
        assert v in a && v in b;
        return true;
      } else {
        j := j + 1;
      }
    }
    return false;
  }

  /** `out` lists the first `t` elements of a sorted array once each. */
  ghost predicate Listed(out: seq<int>, s: seq<int>, t: int)
  {
    && 1 <= t <= |s| && out != [] && StrictInc(out)
    && out[|out| - 1] == s[t - 1]
    && forall v :: v in out <==> v in s[..t]
  }

  lemma {:induction false} ListedStep(out: seq<int>, s: seq<int>, t: int)
    requires Sorted(s) && Listed(out, s, t) && t < |s|
    ensures Listed(if s[t] == out[|out| - 1] then out else out + [s[t]], s, t + 1)
  {
    assert s[..t + 1] == s[..t] + [s[t]];
    assert s[t - 1] <= s[t];
    assert out[|out| - 1] in out;
  }

  /** Drops repetitions from a sorted array, in place; the first `n` places hold the
      result. */
  method Unique(r: array<int>) returns (n: nat)
    requires Sorted(r[..])
    modifies r
    ensures n <= r.Length && StrictInc(r[..n])
    ensures forall v :: v in r[..n] <==> v in old(r[..])
  {
    var num := r.Length;
    if num < 2 {
      return num;
    }
    ghost var s, out := r[..], [r[0]];
    var tmp, dr := 1, 0;
    while tmp < num
      invariant 1 <= tmp <= num && dr == |out| - 1 && Placed(r[..], s, out, tmp) && Listed(out, s, tmp)
    {
      ghost var m := r[..];
      PlacedStep(m, s, out, tmp);
      ListedStep(out, s, tmp);
      if r[tmp] != r[dr] {
        dr := dr + 1;
        r[dr] := r[tmp];
        assert r[..] == m[dr := m[tmp]];
        out := out + [s[tmp]];
      }
      tmp := tmp + 1;
    }
    n := dr + 1;
    assert r[..n] == out && s[..num] == s;
  }

  /** inner_int_union: two sorted sets in one. */
  method InnerUnion(a: seq<int>, b: seq<int>) returns (r: Outcome)
    requires StrictInc(a) && StrictInc(b)
    ensures r.Done? <==> |a| + |b| <= ARRAYMAX
    ensures r.NoMemory? <==> |a| <= ARRAYMAX && |b| <= ARRAYMAX && OVERHEAD + 4 * (|a| + |b|) > MAXALLOC
    ensures !r.Overrun?
    ensures r.Done? ==> StrictInc(r.key) && forall v :: v in r.key <==> v in a || v in b
  {
    if |a| > ARRAYMAX || |b| > ARRAYMAX {
      return TooLong;
    }
    if |a| == 0 {
      return Done(b);
    }
    if |b| == 0 {
      return Done(a);
    }
    RoomExact(|a| + |b|);
    if !Allocates(Wrap32(|a| + |b|)) {
      return NoMemory;
    }
    var u := Merge(a, b);
    // the array is asked for its length before it is cut to the elements found
    if |a| + |b| > ARRAYMAX {
      return TooLong;
    }
    r := Done(u);
  }

  method Merge(a: seq<int>, b: seq<int>) returns (r: seq<int>)
    requires StrictInc(a) && StrictInc(b)
    ensures StrictInc(r) && |r| <= |a| + |b| && forall v :: v in r <==> v in a || v in b
  {
    r := [];
    var i, j := 0, 0;
    while i < |a| && j < |b|
      invariant Merged(a, b, i, j, r)
      decreases |a| - i + |b| - j
    {
      if a[i] == b[j] {
        r := r + [a[i]];
        i := i + 1;
        j := j + 1;
      } else if a[i] < b[j] {
        r := r + [a[i]];
        i := i + 1;
      } else {
        r := r + [b[j]];
        j := j + 1;
      }
    }
    while i < |a|
      invariant Merged(a, b, i, j, r) && (i == |a| || j == |b|)
    {
      r := r + [a[i]];
      i := i + 1;
    }
    while j < |b|
      invariant Merged(a, b, i, j, r) && i == |a|
    {
      r := r + [b[j]];
      j := j + 1;
    }
  }

  /** `r` holds what has been read of both sets, all of it below what remains. */
  ghost predicate Merged(a: seq<int>, b: seq<int>, i: int, j: int, r: seq<int>)
  {
    && 0 <= i <= |a| && 0 <= j <= |b| && StrictInc(r) && |r| <= i + j
    && (forall v :: v in r <==> v in a[..i] || v in b[..j])
    && (forall k | 0 <= k < |r| :: (i < |a| ==> r[k] < a[i]) && (j < |b| ==> r[k] < b[j]))
  }

  predicate AtMost(a: int, b: int) { a <= b }

  /** The library sort: some sorted arrangement of the same elements. */
  method Qsort(a: array<int>)
    modifies a
    ensures Sorted(a[..]) && multiset(a[..]) == multiset(old(a[..]))
  {
    var s := Arrange(AtMost, a[..]);
    ArrangeSorts(AtMost, a[..]);
    forall k | 0 <= k < a.Length {
      a[k] := s[k];
    }
    assert a[..] == s;
  }
}
