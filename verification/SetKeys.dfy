/** Searching a tree of set keys (intarray's gist__int_ops): reading stored keys back, the
    consistency test, and why no search loses a match
    (contrib/intarray/_int_gist.c). */
module SetKeys {
  import opened Options
  import opened Int32
  import opened IntTool
  import opened RangeKeys
  import opened RangeOptimal
  import opened QuerySyntax
  import opened QueryEval
  import QueryIndex

  // ---------------------------------------------------------------- decompression

  function Lo(r: seq<int>, k: int): int
    requires 0 <= k < |r| / 2
  {
    r[2 * k]
  }

  function Hi(r: seq<int>, k: int): int
    requires 0 <= k < |r| / 2
  {
    r[2 * k + 1]
  }

  /** Non-empty ranges in increasing order, apart from each other. */
  ghost predicate Proper(r: seq<int>)
  {
    && |r| % 2 == 0
    && (forall k | 0 <= k < |r| / 2 :: Lo(r, k) <= Hi(r, k))
    && (forall k, m | 0 <= k < m < |r| / 2 :: Hi(r, k) < Lo(r, m))
  }

  lemma {:induction false} CompressedIsProper(a: seq<int>, c: seq<int>, r: seq<int>)
    requires StrictInc(a) && IsCuts(a, c) && IsRanges(a, c, r)
    ensures Proper(r)
  {
    forall k | 0 <= k < |r| / 2 ensures Lo(r, k) <= Hi(r, k) {
      assert RangeAt(a, c, r, k);
    }
    forall k, m | 0 <= k < m < |r| / 2 ensures Hi(r, k) < Lo(r, m) {
      assert RangeAt(a, c, r, k) && RangeAt(a, c, r, m);
      assert c[k + 1] <= c[m];
    }
  }

  /** How many integers the first `k` ranges hold. */
  function Total(r: seq<int>, k: nat): int
    requires 2 * k <= |r|
  {
    if k == 0 then 0 else Total(r, k - 1) + (r[2 * k - 1] - r[2 * k - 2] + 1)
  }

  lemma {:induction false} TotalGrows(r: seq<int>, k: nat, n: nat)
    requires Proper(r) && k <= n <= |r| / 2
    ensures Total(r, k) + (n - k) <= Total(r, n)
    ensures 0 < k ==> Total(r, k) <= Hi(r, k - 1) - Lo(r, 0) + 1
    decreases n, k
  {
    if k < n {
      assert Lo(r, n - 1) <= Hi(r, n - 1);
      TotalGrows(r, k, n - 1);
    } else if 1 < k {
      assert Hi(r, k - 2) < Lo(r, k - 1);
      TotalGrows(r, k - 1, k - 1);
    }
  }

  // ---------------------------------------------------------------- reading back

  /** The sum wraps, like each of its terms. */
  method InternalSize(a: seq<int>) returns (size: int)
    requires Proper(a)
    ensures size == Wrap32(Total(a, |a| / 2))
  {
    size := 0;
    var i := 0;
    while i < |a|
      invariant 0 <= i <= |a| && i % 2 == 0 && size == Wrap32(Total(a, i / 2))
    {
      assert i > 0 ==> Hi(a, i / 2 - 1) < Lo(a, i / 2);
      if i == 0 || a[i] != a[i - 1] {
        WrapAdds(a[i + 1] - a[i], 1);
        WrapAdds(Total(a, i / 2), a[i + 1] - a[i] + 1);
        size := Wrap32(size + Wrap32(Wrap32(a[i + 1] - a[i]) + 1));
      }
      i := i + 2;
    }
  }

  /** The integers from `lo` up to, not including, `hi`. */
  function Ints(lo: int, hi: int): seq<int>
    requires lo <= hi
  {
    seq(hi - lo, k => lo + k)
  }

  ghost predicate AllBelow(s: seq<int>, j: int)
  {
    forall k | 0 <= k < |s| :: s[k] < j
  }

  /** One range. The counter wraps, so a range that ends in INT_MAX is written without end,
      that is, until the block is overrun. */
  method WriteRange(first: bool, done: seq<int>, lo: int, hi: int, room: int) returns (r: Outcome)
    requires INT_MIN <= lo <= hi <= INT_MAX && AllBelow(done, lo) && |done| <= room
    requires first || done != []
    ensures r.Done? <==> hi < INT_MAX && |done| + (hi - lo + 1) <= room
    ensures r.Done? ==> r.key == done + Ints(lo, hi + 1)
    ensures r.Done? || r.Overrun?
  {
    var out, j := done, lo;
    assert out == done + Ints(lo, j);
    while j <= hi
      invariant Fits32(j) && |done| <= |out| <= room
      invariant |out| > |done| ==> Fits32(out[|out| - 1]) && j == Wrap32(out[|out| - 1] + 1)
      invariant |out| == |done| ==> AllBelow(out, j)
      invariant hi < INT_MAX ==> lo <= j <= hi + 1 && out == done + Ints(lo, j)
      decreases room - |out|
    {
      if first || out[|out| - 1] != j {
        if |out| == room {
          return Overrun;
        }
        out := out + [j];
        assert hi < INT_MAX ==> Ints(lo, j + 1) == Ints(lo, j) + [j];
      }
      j := Wrap32(j + 1);
    }
    r := Done(out);
  }

  /** `out` holds exactly the integers of the first `k` ranges. */
  ghost predicate Written(din: seq<int>, k: nat, out: seq<int>)
    requires 2 * k <= |din|
  {
    && StrictInc(out) && |out| == Total(din, k)
    && forall x :: x in out <==> exists m | 0 <= m < k :: InRange(din, m, x)
  }

  lemma {:induction false} WrittenBelow(din: seq<int>, k: nat, out: seq<int>)
    requires Proper(din) && 2 * k < |din| && Written(din, k, out)
    ensures AllBelow(out, din[2 * k]) && (k > 0 ==> out != [])
    ensures All32(din) && din[2 * k + 1] == INT_MAX ==> k + 1 == |din| / 2
  {
    TotalGrows(din, 0, k);
    forall n | 0 <= n < |out| ensures out[n] < din[2 * k] {
      assert out[n] in out;
      var m :| 0 <= m < k && InRange(din, m, out[n]);
      assert Hi(din, m) < Lo(din, k);
    }
    if k + 1 < |din| / 2 {
      assert Hi(din, k) < Lo(din, k + 1);
    }
  }

  lemma {:induction false} WrittenNext(din: seq<int>, k: nat, before: seq<int>, after: seq<int>)
    requires 2 * k + 1 < |din| && din[2 * k] <= din[2 * k + 1]
    requires AllBelow(before, din[2 * k]) && after == before + Ints(din[2 * k], din[2 * k + 1] + 1)
    requires Written(din, k, before)
    ensures Written(din, k + 1, after)
  {
    var s := Ints(din[2 * k], din[2 * k + 1] + 1);
    forall x ensures x in after <==> exists m | 0 <= m < k + 1 :: InRange(din, m, x) {
      assert InRange(din, k, x) <==> x in s by {
        if InRange(din, k, x) {
          assert s[x - din[2 * k]] == x;
        }
      }
    }
  }

  lemma {:induction false} WrittenAll(din: seq<int>, out: seq<int>)
    requires Written(din, |din| / 2, out)
    ensures forall x :: x in out <==> Covered(din, x)
  {
    forall x ensures x in out <==> Covered(din, x) {
      assert forall m | InRange(din, m, x) :: 0 <= m < |din| / 2;
    }
  }

  method Decompress(din: seq<int>, room: int) returns (r: Outcome)
    requires Proper(din) && All32(din) && din != [] && 0 <= room
    ensures r.Done? <==> din[|din| - 1] < INT_MAX && Total(din, |din| / 2) <= room
    ensures r.Done? ==> StrictInc(r.key) && |r.key| == Total(din, |din| / 2)
    ensures r.Done? ==> forall x :: x in r.key <==> Covered(din, x)
    ensures r.Done? || r.Overrun?
  {
    var out: seq<int> := [];
    var i := 0;
    while i < |din|
      invariant 0 <= i <= |din| && i % 2 == 0 && (i > 0 ==> din[i - 1] < INT_MAX)
      invariant Written(din, i / 2, out) && |out| <= room
    {
      ghost var k := i / 2;
      assert Lo(din, k) <= Hi(din, k);
      WrittenBelow(din, k, out);
      TotalGrows(din, k + 1, |din| / 2);
      r := WriteRange(i == 0, out, din[i], din[i + 1], room);
      if r.Overrun? {
        return;
      }
      WrittenNext(din, k, out, r.key);
      out := r.key;
      i := i + 2;
    }
    r := Done(out);
    WrittenAll(din, out);
  }

  // ---------------------------------------------------------------- the consistency test

  datatype Query =
    | Overlap(q: seq<int>)
    | Same(q: seq<int>)
    | Contains(q: seq<int>)
    | ContainedBy(q: seq<int>)
    | Boolean(items: seq<Item>)
    | Unknown(q: seq<int>)

  /** Stored queries are well linked. */
  predicate Usable(query: Query)
  {
    query.Boolean? ==> query.items != [] && WellLinked(query.items)
  }

  ghost predicate Consistent(key: seq<int>, query: Query, leaf: bool)
    requires Usable(query)
  {
    match query
    case Boolean(items) => Execute(items, |items| - 1, leaf, QueryIndex.InArray(items, key))
    case Overlap(q) => Meets(key, q)
    case Same(q) => if leaf then SameElements(key, q) else Subset(q, key)
    case Contains(q) => Subset(q, key)
    case ContainedBy(q) => if leaf then Subset(key, q) else Meets(key, q)
    case Unknown(_) => false
  }

  /** Both arrays may be asked for their lengths: that of the query in every strategy but the
      boolean one, that of the key in every strategy that is known. */
  predicate Askable(key: seq<int>, query: Query)
  {
    (query.Boolean? || |query.q| <= ARRAYMAX) && (query.Unknown? || |key| <= ARRAYMAX)
  }

  /** The answer of the test, or no answer but an error. */
  ghost function Answer(key: seq<int>, query: Query, leaf: bool): Option<bool>
    requires Usable(query)
  {
    if Askable(key, query) then Some(Consistent(key, query, leaf)) else None
  }

  method SortUnique(a: array<int>) returns (u: seq<int>)
    modifies a
    ensures StrictInc(u) && |u| <= a.Length && SameElements(u, old(a[..]))
  {
    ghost var q := a[..];
    Qsort(a);
    ghost var s := a[..];
    var n := Unique(a);
    forall v ensures v in s <==> v in q {
      assert v in multiset(s) <==> v in multiset(q);
    }
    u := a[..n];
  }

  /** PREPAREARR: sort, and drop repetitions. */
  method Prepare(q: seq<int>) returns (r: Option<seq<int>>)
    ensures r.Some? <==> |q| <= ARRAYMAX
    ensures r.Some? ==> StrictInc(r.value) && |r.value| <= |q| && SameElements(r.value, q)
  {
    if |q| > ARRAYMAX {
      return None;
    }
    var a := new int[|q|](i requires 0 <= i < |q| => q[i]);
    assert a[..] == q;
    var u := SortUnique(a);
    r := Some(u);
  }

  method GIntConsistent(key: seq<int>, query: Query, leaf: bool) returns (r: Option<bool>)
    requires Usable(query) && StrictInc(key)
    ensures r == Answer(key, query, leaf)
  {
    if query.Boolean? {
      if |key| > ARRAYMAX {
        return None;
      }
      var b := QueryIndex.ExecConsistent(query.items, |query.items| - 1, key, leaf);
      return Some(b);
    }
    var p := Prepare(query.q);
    if p.None? {
      return None;
    }
    if query.Unknown? {
      return Some(false);
    }
    if |key| > ARRAYMAX {
      return None;
    }
    var b := ArrayConsistent(key, query, leaf, p.value);
    r := Some(b);
  }

  /** The strategies that compare arrays, on the prepared query. */
  method ArrayConsistent(key: seq<int>, query: Query, leaf: bool, q: seq<int>) returns (r: bool)
    requires StrictInc(key) && !query.Boolean? && !query.Unknown?
    requires StrictInc(q) && SameElements(q, query.q)
    ensures r == Consistent(key, query, leaf)
  {
    match query {
      case Overlap(_) => r := InnerOverlap(key, q);
      case Same(_) =>
        if leaf {
          if SameElements(key, q) {
            SortedOnce(key, q);
          }
          r := GIntSame(key, q);
        } else {
          r := InnerContains(key, q);
        }
      case Contains(_) => r := InnerContains(key, q);
      case ContainedBy(_) =>
        if leaf {
          r := InnerContains(q, key);
        } else {
          r := InnerOverlap(key, q);
        }
    }
  }

  method GIntSame(a: seq<int>, b: seq<int>) returns (r: bool)
    ensures r <==> a == b
  {
    if |a| != |b| {
      return false;
    }
    var n := 0;
    while n < |a|
      invariant 0 <= n <= |a| && a[..n] == b[..n]
    {
      if a[n] != b[n] {
        return false;
      }
      n := n + 1;
    }
    return true;
  }

  // ---------------------------------------------------------------- trees

  /** An index tree: every node stores a key. */
  datatype Tree =
    | Leaf(arr: seq<int>, stored: seq<int>)
    | Node(children: seq<Tree>, stored: seq<int>)

  /** `key` is what decompression makes of a stored key. */
  ghost predicate Reads(stored: seq<int>, key: seq<int>)
  {
    if |stored| < 2 * MAXNUMRANGE then key == stored
    else StrictInc(key) && forall x :: x in key <==> Covered(stored, x)
  }

  /** `stored` is what compression makes of a set. */
  ghost predicate Stores(u: seq<int>, stored: seq<int>)
  {
    if |u| < 2 * MAXNUMRANGE then stored == u else exists c :: Compressed(u, c, stored)
  }

  /** The array is doubled, and asked for its length before it is cut to the ranges. */
  method GIntCompress(r: seq<int>) returns (stored: Outcome)
    requires StrictInc(r) && All32(r)
    ensures stored.Done? <==> |r| < 2 * MAXNUMRANGE || 2 * |r| <= ARRAYMAX
    ensures stored.NoMemory? <==> |r| <= ARRAYMAX && OVERHEAD + 8 * |r| > MAXALLOC
    ensures !stored.Overrun?
    ensures stored.Done? ==> Stores(r, stored.key) && All32(stored.key)
    ensures stored.Done? && |r| >= 2 * MAXNUMRANGE ==> Proper(stored.key) && |stored.key| == 2 * MAXNUMRANGE
  {
    if |r| > ARRAYMAX {
      return TooLong;
    }
    if |r| >= 2 * MAXNUMRANGE {
      RoomExact(2 * |r|);
      if !Allocates(2 * |r|) {
        return NoMemory;
      }
      var dr, c := CompressRanges(r);
      if 2 * |r| > ARRAYMAX {
        return TooLong;
      }
      CompressedIsProper(r, c, dr);
      forall k | 0 <= k < |dr| ensures Fits32(dr[k]) {
        assert RangeAt(r, c, dr, k / 2);
      }
      stored := Done(dr);
    } else {
      stored := Done(r);
    }
  }

  /** The stored keys that can be read back. */
  predicate Readable(stored: seq<int>)
  {
    || |stored| < 2 * MAXNUMRANGE
    || (|stored| <= ARRAYMAX && stored[|stored| - 1] < INT_MAX
        && OVERHEAD + 4 * Total(stored, |stored| / 2) <= MAXALLOC)
  }

  method GIntDecompress(stored: seq<int>) returns (r: Outcome)
    requires |stored| >= 2 * MAXNUMRANGE ==> Proper(stored) && All32(stored)
    ensures r.Done? <==> Readable(stored)
    ensures r.TooLong? <==> |stored| > ARRAYMAX
    ensures r.NoMemory? <==> 2 * MAXNUMRANGE <= |stored| <= ARRAYMAX && !Allocates(Total(stored, |stored| / 2))
    ensures r.Done? ==> Reads(stored, r.key)
    ensures r.Done? && |stored| >= 2 * MAXNUMRANGE ==> |r.key| == Total(stored, |stored| / 2)
  {
    if |stored| > ARRAYMAX {
      return TooLong;
    }
    if |stored| < 2 * MAXNUMRANGE {
      return Done(stored);
    }
    TotalGrows(stored, 0, |stored| / 2);
    RoomExact(Total(stored, |stored| / 2));
    var lenr := InternalSize(stored);
    if !Allocates(lenr) {
      return NoMemory;
    } else if Room(lenr) < 0 {
      return Overrun;
    }
    r := Decompress(stored, Room(lenr));
  }

  /** Compressing a set and reading it back, for every set that compresses: it works if and
      only if the set is small, or ends below INT_MAX and has ranges that fit in a block; and
      then nothing is lost. */
  method CompressAndRead(u: seq<int>) returns (stored: Outcome, r: Outcome)
    requires StrictInc(u) && All32(u)
    ensures stored.Done? <==> |u| < 2 * MAXNUMRANGE || 2 * |u| <= ARRAYMAX
    ensures stored.Done? ==> Stores(u, stored.key)
    ensures if stored.Done? then !r.TooLong? else r == stored
    ensures stored.Done? ==>
      (r.Done? <==>
        || |u| < 2 * MAXNUMRANGE
        || (u[|u| - 1] < INT_MAX && OVERHEAD + 4 * Total(stored.key, MAXNUMRANGE) <= MAXALLOC))
    ensures r.Done? ==> Reads(stored.key, r.key) && StrictInc(r.key) && Subset(u, r.key)
    ensures stored.Done? && r.NoMemory? ==> |u| > 0 && OVERHEAD + 4 * (u[|u| - 1] - u[0] + 1) > MAXALLOC
  {
    stored := GIntCompress(u);
    if !stored.Done? {
      return stored, stored;
    }
    if |u| >= 2 * MAXNUMRANGE {
      EndsKept(u, stored.key);
      TotalGrows(stored.key, MAXNUMRANGE, MAXNUMRANGE);
      TotalGrows(stored.key, 0, MAXNUMRANGE);
      RoomExact(Total(stored.key, MAXNUMRANGE));
    }
    r := GIntDecompress(stored.key);
    if r.Done? {
      StoreAndRead(u, stored.key, r.key);
    }
  }

  lemma {:induction false} EndsKept(u: seq<int>, stored: seq<int>)
    requires |u| >= 2 * MAXNUMRANGE && Stores(u, stored)
    ensures |stored| == 2 * MAXNUMRANGE && stored[0] == u[0] && stored[2 * MAXNUMRANGE - 1] == u[|u| - 1]
  {
    var c :| Compressed(u, c, stored);
    assert RangeAt(u, c, stored, 0) && RangeAt(u, c, stored, MAXNUMRANGE - 1);
  }

  /** Two hundred integers, every second one, up to INT_MAX. */
  function EndsInMax(): seq<int>
  {
    seq(2 * MAXNUMRANGE, k => INT_MAX - 2 * (2 * MAXNUMRANGE - 1 - k))
  }

  /** A key of that set is stored, and reading it back never ends within its block. */
  method EndlessExample() returns (stored: Outcome, r: Outcome)
    ensures StrictInc(EndsInMax()) && All32(EndsInMax())
    ensures stored.Done? && Stores(EndsInMax(), stored.key)
    ensures r == Overrun
  {
    stored, r := CompressAndRead(EndsInMax());
  }

  /** `u` is the union of a page's keys. */
  ghost predicate Unites(keys: seq<seq<int>>, u: seq<int>)
  {
    && StrictInc(u) && All32(u)
    && (forall i | 0 <= i < |keys| :: Subset(keys[i], u))
    && (forall v | v in u :: exists i | 0 <= i < |keys| :: v in keys[i])
  }

  ghost function Concat(keys: seq<seq<int>>, n: nat): (s: seq<int>)
    requires n <= |keys|
    ensures forall v :: v in s <==> exists i | 0 <= i < n :: v in keys[i]
  {
    if n == 0 then [] else Concat(keys, n - 1) + keys[n - 1]
  }

  lemma {:induction false} ConcatGrows(keys: seq<seq<int>>, n: nat)
    requires n <= |keys|
    ensures |Concat(keys, n)| <= |Concat(keys, |keys|)|
    decreases |keys| - n
  {
    if n < |keys| {
      ConcatGrows(keys, n + 1);
    }
  }

  /** Every key may be asked for its length. */
  predicate AllAskable(keys: seq<seq<int>>)
  {
    forall i | 0 <= i < |keys| :: |keys[i]| <= ARRAYMAX
  }

  /** The number of elements of all keys together, as an int. */
  method TotalLength(keys: seq<seq<int>>) returns (ok: bool, totlen: int)
    ensures ok <==> AllAskable(keys)
    ensures ok ==> totlen == Wrap32(|Concat(keys, |keys|)|)
  {
    ok, totlen := true, 0;
    for i := 0 to |keys|
      invariant AllAskable(keys[..i]) && totlen == Wrap32(|Concat(keys, i)|)
    {
      if |keys[i]| > ARRAYMAX {
        return false, totlen;
      }
      WrapAdds(|Concat(keys, i)|, |keys[i]|);
      totlen := Wrap32(totlen + |keys[i]|);
    }
    assert keys[..|keys|] == keys;
  }

  lemma {:induction false} ConcatHas(keys: seq<seq<int>>, i: nat)
    requires i < |keys|
    ensures |keys[i]| <= |Concat(keys, |keys|)|
  {
    ConcatGrows(keys, i + 1);
  }

  /** A sorted list of the elements of all keys is their union. */
  lemma {:induction false} ConcatUnites(keys: seq<seq<int>>, u: seq<int>)
    requires forall i | 0 <= i < |keys| :: All32(keys[i])
    requires StrictInc(u) && SameElements(u, Concat(keys, |keys|))
    ensures Unites(keys, u)
  {
    forall k | 0 <= k < |u| ensures Fits32(u[k]) {
      assert u[k] in u;
      var i :| 0 <= i < |keys| && u[k] in keys[i];
    }
  }

  /** Copies the keys one behind the other, unless the block is too small. */
  method CopyAll(keys: seq<seq<int>>, res: array<int>) returns (ok: bool)
    modifies res
    ensures ok <==> |Concat(keys, |keys|)| <= res.Length
    ensures ok ==> res[..|Concat(keys, |keys|)|] == Concat(keys, |keys|)
  {
    var ptr := 0;
    for i := 0 to |keys|
      invariant 0 <= ptr == |Concat(keys, i)| <= res.Length && res[..ptr] == Concat(keys, i)
    {
      ConcatGrows(keys, i + 1);
      if ptr + |keys[i]| > res.Length {
        return false;
      }
      forall k | ptr <= k < ptr + |keys[i]| {
        res[k] := keys[i][k - ptr];
      }
      assert res[..ptr + |keys[i]|] == res[..ptr] + keys[i];
      ptr := ptr + |keys[i]|;
    }
    ok := true;
  }

  /** The union of a page's keys: concatenated, sorted, and freed of repetitions; sorting asks
      the concatenation for its length. */
  method GIntUnion(keys: seq<seq<int>>) returns (r: Outcome)
    requires forall i | 0 <= i < |keys| :: All32(keys[i])
    ensures r.Done? <==> |Concat(keys, |keys|)| <= ARRAYMAX
    ensures r.NoMemory? <==> AllAskable(keys) && !Allocates(|Concat(keys, |keys|)|)
    ensures r.TooLong? <==>
      !AllAskable(keys) || ARRAYMAX < |Concat(keys, |keys|)| <= (MAXALLOC - OVERHEAD) / 4
    ensures r.Done? ==> Unites(keys, r.key)
  {
    ghost var all := Concat(keys, |keys|);
    var ok, totlen := TotalLength(keys);
    if !ok {
      ghost var i :| 0 <= i < |keys| && |keys[i]| > ARRAYMAX;
      ConcatHas(keys, i);
      return TooLong;
    }
    RoomExact(|all|);
    if !Allocates(totlen) {
      return NoMemory;
    } else if Room(totlen) < 0 {
      return Overrun;
    }
    var res := new int[Room(totlen)];
    ok := CopyAll(keys, res);
    if !ok {
      return Overrun;
    }
    if totlen > ARRAYMAX {
      return TooLong;
    }
    var u := SortUnique(res);
    ConcatUnites(keys, u);
    r := Done(u);
  }

  /** Two keys of 67108864 integers, as decompression makes them, are one element too many for a
      union, and a set of as many is one too many to be compressed. */
  method TooLongExample() returns (u: Outcome, stored: Outcome)
    ensures u == TooLong && stored == TooLong
  {
    var a, b := Ints(0, 0x400_0000), Ints(0x400_0000, 0x800_0000);
    var keys := [a, b];
    assert Concat(keys, 2) == Concat(keys, 1) + b && Concat(keys, 1) == Concat(keys, 0) + a;
    u := GIntUnion(keys);
    stored := GIntCompress(a);
  }

  /** The keys of a tree are the ones the index functions produce: a leaf keeps its array,
      sorted and of fewer than 200 elements; an inner node keeps the compressed union of
      its children's keys. */
  ghost predicate Built(t: Tree)
  {
    match t
    case Leaf(arr, stored) => StrictInc(stored) && SameElements(stored, arr) && |stored| < 2 * MAXNUMRANGE
    case Node(cs, stored) =>
      && (forall c | c in cs :: Built(c))
      && exists keys, u :: Gathers(cs, keys) && Unites(keys, u) && Stores(u, stored)
  }

  ghost predicate Gathers(cs: seq<Tree>, keys: seq<seq<int>>)
  {
    |keys| == |cs| && forall i | 0 <= i < |cs| :: Reads(cs[i].stored, keys[i])
  }

  ghost predicate Below(arr: seq<int>, t: Tree)
  {
    match t
    case Leaf(a, _) => a == arr
    case Node(cs, _) => exists c | c in cs :: Below(arr, c)
  }

  /** Compressing a set and reading it back loses no element, and a small set comes back
      unchanged. */
  lemma {:induction false} StoreAndRead(u: seq<int>, stored: seq<int>, key: seq<int>)
    requires StrictInc(u) && All32(u) && Stores(u, stored) && Reads(stored, key)
    ensures Subset(u, key) && StrictInc(key)
    ensures |u| < 2 * MAXNUMRANGE ==> key == u
  {
    if |u| >= 2 * MAXNUMRANGE {
      var c :| Compressed(u, c, stored);
      forall v | v in u ensures v in key {
        var i :| 0 <= i < |u| && u[i] == v;
        RangesCover(u, c, stored, i);
      }
    }
  }

  /** Every key contains every array below it. */
  lemma {:induction false} KeyContains(t: Tree, arr: seq<int>, key: seq<int>)
    requires Built(t) && Below(arr, t) && Reads(t.stored, key)
    ensures Subset(arr, key) && StrictInc(key)
    decreases t
  {
    if t.Node? {
      var keys, u :| Gathers(t.children, keys) && Unites(keys, u) && Stores(u, t.stored);
      var i :| 0 <= i < |t.children| && Below(arr, t.children[i]);
      KeyContains(t.children[i], arr, keys[i]);
      assert Subset(keys[i], u);
      StoreAndRead(u, t.stored, key);
    }
  }

  /** What the operator says of an array. */
  ghost predicate Matches(arr: seq<int>, query: Query)
    requires Usable(query)
  {
    match query
    case Boolean(items) => Execute(items, |items| - 1, true, QueryIndex.InArray(items, arr))
    case Overlap(q) => Meets(arr, q)
    case Same(q) => SameElements(arr, q)
    case Contains(q) => Subset(q, arr)
    case ContainedBy(q) => Subset(arr, q)
    case Unknown(_) => false
  }

  lemma {:induction false} LargerKeyConsistent(arr: seq<int>, key: seq<int>, query: Query)
    requires Usable(query) && Subset(arr, key) && Matches(arr, query)
    requires query.ContainedBy? ==> arr != []
    ensures Consistent(key, query, false)
  {
    match query
    case Boolean(items) =>
      QueryIndex.ApproximationSound(items, |items| - 1, QueryIndex.InArray(items, arr), QueryIndex.InArray(items, key));
    case Overlap(q) =>
    case Same(q) =>
    case Contains(q) =>
    case ContainedBy(q) =>
      var v := arr[0];
      assert v in arr && v in q && v in key;
  }

  /** No search loses a match: at any height, the test on the key of every inner node above a
      matching array is true, or raises the error for arrays that are too long; an empty array
      under a contained-by query is the one exception. */
  lemma {:induction false} NoLostMatch(t: Tree, arr: seq<int>, key: seq<int>, query: Query)
    requires Built(t) && t.Node? && Below(arr, t) && Reads(t.stored, key)
    requires Usable(query) && Matches(arr, query) && (query.ContainedBy? ==> arr != [])
    ensures Answer(key, query, false) == if Askable(key, query) then Some(true) else None
  {
    KeyContains(t, arr, key);
    LargerKeyConsistent(arr, key, query);
  }

  /** Some array that may lie below the key, for all the key says, satisfies the query. */
  ghost predicate MayMatch(key: seq<int>, query: Query)
    requires Usable(query)
  {
    exists arr :: Subset(arr, key) && Matches(arr, query) && (query.ContainedBy? ==> arr != [])
  }

  /** The test prunes all it can: above the leaves it is true of a key if and only if an array
      within the key satisfies the query. A boolean query must negate nothing for that; of
      one that does, the test is the value with every negation taken as true. */
  lemma {:induction false} PrunesIff(key: seq<int>, query: Query)
    requires Usable(query) && (query.Boolean? ==> QueryIndex.Positive(query.items))
    ensures Consistent(key, query, false) <==> MayMatch(key, query)
  {
    if Consistent(key, query, false) {
      var arr := Witness(key, query);
      assert Subset(arr, key) && Matches(arr, query) && (query.ContainedBy? ==> arr != []);
    }
    if arr :| Subset(arr, key) && Matches(arr, query) && (query.ContainedBy? ==> arr != []) {
      LargerKeyConsistent(arr, key, query);
    }
  }

  lemma {:induction false} Witness(key: seq<int>, query: Query) returns (arr: seq<int>)
    requires Usable(query) && (query.Boolean? ==> QueryIndex.Positive(query.items)) && Consistent(key, query, false)
    ensures Subset(arr, key) && Matches(arr, query) && (query.ContainedBy? ==> arr != [])
  {
    match query
    case Boolean(items) =>
      QueryIndex.PositiveExact(items, |items| - 1, QueryIndex.InArray(items, key));
      arr := key;
    case Overlap(q) =>
      var v :| v in key && v in q;
      arr := [v];
      assert v in arr;
    case ContainedBy(q) =>
      var v :| v in key && v in q;
      arr := [v];
    case Same(q) => arr := q;
    case Contains(q) => arr := q;
  }

  /** A negation is taken as true: no array satisfies `1 & !1`, and the test is true of {1}. */
  lemma {:induction false} NegationPasses(items: seq<Item>)
    requires items == [Item(Val(1), 0), Item(Val(1), 0), Item(Opr(Not), -1), Item(Opr(And), -2)]
    ensures Usable(Boolean(items))
    ensures Consistent([1], Boolean(items), false) && !MayMatch([1], Boolean(items))
  {
    assert LinkDown(items[2], 2) && LinkDown(items[3], 3);
    forall arr ensures !Matches(arr, Boolean(items)) {
      var chk := QueryIndex.InArray(items, arr);
      assert Execute(items, 0, true, chk) == Execute(items, 1, true, chk);
      assert Execute(items, 2, true, chk) == !Execute(items, 1, true, chk);
      assert Execute(items, 3, true, chk) == (Execute(items, 1, true, chk) && Execute(items, 2, true, chk));
    }
    var chk := QueryIndex.InArray(items, [1]);
    assert Execute(items, 1, false, chk) && Execute(items, 2, false, chk);
  }

  /** A page that holds nothing but the empty array. */
  function EmptyPage(): Tree
  {
    Node([Leaf([], [])], [])
  }

  lemma {:induction false} EmptyPageBuilt()
    ensures Built(EmptyPage()) && Below([], EmptyPage()) && Reads(EmptyPage().stored, [])
  {
    var cs, keys: seq<seq<int>>, u: seq<int> := EmptyPage().children, [[]], [];
    assert Gathers(cs, keys) && Unites(keys, u) && Stores(u, []);
    assert cs[0] in cs && Built(cs[0]) && Below([], cs[0]);
  }

  /** The exception is exactly that: an array that satisfies a contained-by query is turned
      away by no inner key of any tree if and only if it is not empty, or the query is an
      error. */
  lemma {:induction false} ContainedByIff(arr: seq<int>, q: seq<int>)
    requires Matches(arr, ContainedBy(q))
    ensures
      (forall t, key | Built(t) && t.Node? && Below(arr, t) && Reads(t.stored, key) ::
        Answer(key, ContainedBy(q), false) != Some(false))
      <==> arr != [] || |q| > ARRAYMAX
  {
    if |q| > ARRAYMAX {
    } else if arr != [] {
      forall t, key | Built(t) && t.Node? && Below(arr, t) && Reads(t.stored, key)
        ensures Answer(key, ContainedBy(q), false) != Some(false)
      {
        NoLostMatch(t, arr, key, ContainedBy(q));
      }
    } else {
      EmptyPageBuilt();
      assert !Meets([], q);
      assert Answer([], ContainedBy(q), false) == Some(false);
    }
  }

  /** On a leaf the test is exact; only too long a query is an error. */
  lemma {:induction false} LeafExact(t: Tree, query: Query)
    requires Built(t) && t.Leaf? && Usable(query)
    ensures Answer(t.stored, query, true)
      == if query.Boolean? || |query.q| <= ARRAYMAX then Some(Matches(t.arr, query)) else None
  {
    if query.Boolean? {
      var items := query.items;
      QueryIndex.ExecuteCongruent(items, |items| - 1, true,
        QueryIndex.InArray(items, t.arr), QueryIndex.InArray(items, t.stored));
    }
  }

  /** A set has one sorted list. */
  lemma {:induction false} SortedOnce(a: seq<int>, b: seq<int>)
    requires StrictInc(a) && StrictInc(b) && SameElements(a, b)
    ensures a == b
    decreases |a|
  {
    forall k | 0 <= k < |b| ensures b[k] in a {
      assert b[k] in b;
    }
    assert |b| > 0 ==> b[0] in a;
    if a != [] {
      assert a[0] in b && b != [] && b[0] in a;
      assert a[0] == b[0];
      var x, y := a[1..], b[1..];
      forall v | v in x ensures v in y {
        assert v in a && v > a[0];
      }
      forall v | v in y ensures v in x {
        assert v in b && v > b[0];
      }
      SortedOnce(x, y);
      assert a == [a[0]] + x && b == [b[0]] + y;
    }
  }
}
