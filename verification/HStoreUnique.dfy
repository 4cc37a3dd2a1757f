/** Sorting pairs and dropping duplicate keys (contrib/hstore/hstore_io.c: comparePairs,
    hstoreUniquePairs; contrib/hstore/hstore_op.c: hstoreArrayToPairs). */
module HStoreUnique {
  import opened Options
  import opened Int32
  import opened Sorting
  import opened Lex
  import opened HStoreLayout
  import opened HStoreMap
  import B = HStoreBuild

  /** A pair with the mark that its strings are to be freed. */
  datatype Item = Item(pair: Pair, needfree: bool)

  /** By key length, then key, items to be freed later. */
  function ComparePairs(a: Item, b: Item): int
  {
    if |a.pair.key| == |b.pair.key| then
      var res := Cmp(a.pair.key, b.pair.key);
      if res != 0 then res
      else if a.needfree == b.needfree then 0
      else if a.needfree then 1 else -1
    else if |a.pair.key| > |b.pair.key| then 1 else -1
  }

  ghost predicate Ordered(s: seq<Item>)
  {
    forall i, j | 0 <= i < j < |s| :: ComparePairs(s[i], s[j]) <= 0
  }

  lemma {:induction false} CompareTrans(a: Item, b: Item, c: Item)
    requires ComparePairs(a, b) <= 0 && ComparePairs(b, c) <= 0
    ensures ComparePairs(a, c) <= 0
  {
    var x, y, z := a.pair.key, b.pair.key, c.pair.key;
    if |x| == |y| == |z| {
      CmpTrans(x, y, z);
      CmpZero(x, y);
      CmpZero(y, z);
      CmpZero(x, z);
    }
  }

  lemma {:induction false} CompareTotal(a: Item, b: Item)
    ensures ComparePairs(a, b) <= 0 || ComparePairs(b, a) <= 0
  {
    CmpFlip(a.pair.key, b.pair.key);
  }

  function PairsOf(s: seq<Item>): (ps: seq<Pair>)
    ensures |ps| == |s| && forall i | 0 <= i < |s| :: ps[i] == s[i].pair
  {
    seq(|s|, i requires 0 <= i < |s| => s[i].pair)
  }

  function Size(x: Item): nat { |x.pair.key| + |ValBytes(x.pair)| }

  /** The bytes the strings of some items take. */
  function Bytesize(r: seq<Item>): nat { StrLen(PairsOf(r), |r|) }

  lemma {:induction false} SizeGrows(r: seq<Item>, x: Item)
    ensures Bytesize(r + [x]) == Bytesize(r) + Size(x)
  {
    B.StrLenSame(PairsOf(r), PairsOf(r + [x]), |r|);
  }

  // ---------------------------------------------------------------- sorting

  predicate NotAfter(a: Item, b: Item) { ComparePairs(a, b) <= 0 }

  lemma {:induction false} CompareLinear()
    ensures Linear(NotAfter)
  {
    forall a, b ensures NotAfter(a, b) || NotAfter(b, a) {
      CompareTotal(a, b);
    }
    forall a, b, c | NotAfter(a, b) && NotAfter(b, c) ensures NotAfter(a, c) {
      CompareTrans(a, b, c);
    }
  }

  lemma {:induction false} ArrangeSize(s: seq<Item>)
    ensures Bytesize(Arrange(NotAfter, s)) == Bytesize(s)
  {
    if s != [] {
      ArrangeSize(s[1..]);
      InsertSize(s[0], Arrange(NotAfter, s[1..]));
      SizeFront(s[0], s[1..]);
      assert s == [s[0]] + s[1..];
    }
  }

  lemma {:induction false} InsertSize(x: Item, s: seq<Item>)
    ensures Bytesize(Insert(NotAfter, x, s)) == Size(x) + Bytesize(s)
  {
    if s == [] || NotAfter(x, s[0]) {
      SizeFront(x, s);
    } else {
      InsertSize(x, s[1..]);
      SizeFront(s[0], Insert(NotAfter, x, s[1..]));
      SizeFront(s[0], s[1..]);
      assert s == [s[0]] + s[1..];
    }
  }

  lemma {:induction false} SizeFront(x: Item, s: seq<Item>)
    ensures Bytesize([x] + s) == Size(x) + Bytesize(s)
  {
    if s == [] {
      SizeGrows([], x);
      assert [x] + s == [] + [x];
    } else {
      var n := |s| - 1;
      SizeFront(x, s[..n]);
      SizeGrows([x] + s[..n], s[n]);
      SizeGrows(s[..n], s[n]);
      assert s == s[..n] + [s[n]] && [x] + s == [x] + s[..n] + [s[n]];
    }
  }

  /** The library's sort of the first `l` items: some order the comparison allows. */
  method Qsort(a: array<Item>, l: nat)
    requires l <= a.Length
    modifies a
    ensures Ordered(a[..l]) && multiset(a[..l]) == multiset(old(a[..l])) && Bytesize(a[..l]) == Bytesize(old(a[..l]))
  {
    var s := Arrange(NotAfter, a[..l]);
    ArrangeSize(a[..l]);
    CompareLinear();
    ArrangeSorts(NotAfter, a[..l]);
    forall k | 0 <= k < l {
      a[k] := s[k];
    }
    assert a[..l] == s;
  }

  // ---------------------------------------------------------------- dropping duplicates

  ghost predicate HasKey(s: seq<Item>, k: Bytes)
  {
    exists t :: 0 <= t < |s| && s[t].pair.key == k
  }

  /** `r` holds one item of each key among the first `p` of `s`, in order. */
  ghost predicate Dedup(s: seq<Item>, p: nat, r: seq<Item>)
  {
    && 0 < p <= |s| && r != [] && Sorted(PairsOf(r))
    && (forall x | x in r :: x in s)
    && (forall i | 0 <= i < p :: HasKey(r, s[i].pair.key))
    && r[|r| - 1].pair.key == s[p - 1].pair.key
  }

  lemma {:induction false} DedupSkip(s: seq<Item>, p: nat, r: seq<Item>)
    requires Dedup(s, p, r) && p < |s| && s[p].pair.key == r[|r| - 1].pair.key
    ensures Dedup(s, p + 1, r)
  {
    assert HasKey(r, s[p].pair.key);
  }

  lemma {:induction false} DedupAdd(s: seq<Item>, p: nat, r: seq<Item>)
    requires Ordered(s) && Dedup(s, p, r) && p < |s| && s[p].pair.key != r[|r| - 1].pair.key
    ensures Dedup(s, p + 1, r + [s[p]])
  {
    var n, r' := |r|, r + [s[p]];
    var last, k := r[n - 1].pair.key, s[p].pair.key;
    assert ComparePairs(s[p - 1], s[p]) <= 0;
    KeyZero(last, k);
    assert KeyLt(last, k);
    forall i, j | 0 <= i < j < n + 1 ensures KeyLt(PairsOf(r')[i].key, PairsOf(r')[j].key) {
      if j < n {
        assert KeyLt(PairsOf(r)[i].key, PairsOf(r)[j].key);
      } else if i < n - 1 {
        assert KeyLt(PairsOf(r)[i].key, PairsOf(r)[n - 1].key);
        KeyTrans(r[i].pair.key, last, k);
      }
    }
    assert r'[n] == s[p];
    forall i | 0 <= i < p + 1 ensures HasKey(r', s[i].pair.key) {
      if i < p {
        var t :| 0 <= t < n && r[t].pair.key == s[i].pair.key;
        assert r'[t] == r[t];
      }
    }
  }

  lemma {:induction false} DedupOne(s: seq<Item>)
    requires s != []
    ensures Dedup(s, 1, [s[0]])
  {
    var r := [s[0]];
    assert r[0].pair.key == s[0].pair.key && HasKey(r, s[0].pair.key);
  }

  /** The first of every run of equal keys among the first `p` items. */
  function Firsts(s: seq<Item>, p: nat): (r: seq<Item>)
    requires 0 < p <= |s|
    ensures 0 < |r| <= p
  {
    if p == 1 then [s[0]]
    else
      var r := Firsts(s, p - 1);
      if s[p - 1].pair.key == r[|r| - 1].pair.key then r else r + [s[p - 1]]
  }

  /** The items kept so far, and the bytes of all but the last of them. */
  ghost predicate Counted(r: seq<Item>, s: seq<Item>, p: nat, buflen: int)
  {
    0 < p <= |s| && r == Firsts(s, p) && buflen + Size(r[|r| - 1]) == Bytesize(r)
  }

  lemma {:induction false} CountedOne(s: seq<Item>)
    requires s != []
    ensures Counted([s[0]], s, 1, 0)
  {
    SizeGrows([], s[0]);
    assert [] + [s[0]] == [s[0]];
  }

  lemma {:induction false} CountedNext(r: seq<Item>, s: seq<Item>, p: nat, buflen: int)
    requires Counted(r, s, p, buflen) && p < |s|
    ensures s[p].pair.key == r[|r| - 1].pair.key ==> Counted(r, s, p + 1, buflen)
    ensures s[p].pair.key != r[|r| - 1].pair.key ==> Counted(r + [s[p]], s, p + 1, buflen + Size(r[|r| - 1]))
  {
    SizeGrows(r, s[p]);
  }

  lemma {:induction false} FirstsDedup(s: seq<Item>, p: nat)
    requires Ordered(s) && 0 < p <= |s|
    ensures Dedup(s, p, Firsts(s, p))
  {
    if p == 1 {
      DedupOne(s);
    } else {
      FirstsDedup(s, p - 1);
      var r := Firsts(s, p - 1);
      if s[p - 1].pair.key == r[|r| - 1].pair.key {
        DedupSkip(s, p - 1, r);
      } else {
        DedupAdd(s, p - 1, r);
      }
    }
  }

  lemma {:induction false} FirstsSize(s: seq<Item>, p: nat)
    requires 0 < p <= |s|
    ensures Bytesize(Firsts(s, p)) <= Bytesize(s[..p])
  {
    if p == 1 {
      assert s[..1] == [s[0]];
    } else {
      FirstsSize(s, p - 1);
      SizeGrows(Firsts(s, p - 1), s[p - 1]);
      SizeGrows(s[..p - 1], s[p - 1]);
      assert s[..p] == s[..p - 1] + [s[p - 1]];
    }
  }

  method SameKey(x: Item, y: Item) returns (same: bool)
    ensures same <==> x.pair.key == y.pair.key
  {
    CmpZero(x.pair.key, y.pair.key);
    same := |x.pair.key| == |y.pair.key| && Cmp(x.pair.key, y.pair.key) == 0;
  }

  /** The first `p` items compacted into `r`, in their places. */
  ghost predicate Compacted(m: seq<Item>, s: seq<Item>, r: seq<Item>, p: nat, buflen: int)
  {
    Placed(m, s, r, p) && Counted(r, s, p, buflen)
  }

  lemma {:induction false} CompactedOne(s: seq<Item>)
    requires s != []
    ensures Compacted(s, s, [s[0]], 1, 0)
  {
    CountedOne(s);
  }

  lemma {:induction false} CompactedNext(m: seq<Item>, s: seq<Item>, r: seq<Item>, p: nat, buflen: int)
    requires Compacted(m, s, r, p, buflen) && p < |s|
    ensures m[p] == s[p] && m[|r| - 1] == r[|r| - 1]
    ensures m[p].pair.key == m[|r| - 1].pair.key ==> Compacted(m, s, r, p + 1, buflen)
    ensures m[p].pair.key != m[|r| - 1].pair.key ==>
      Compacted(m[|r| := m[p]], s, r + [s[p]], p + 1, buflen + Size(m[|r| - 1]))
  {
    PlacedStep(m, s, r, p);
    CountedNext(r, s, p, buflen);
  }

  lemma {:induction false} CompactedAll(m: seq<Item>, s: seq<Item>, r: seq<Item>, buflen: int)
    requires Compacted(m, s, r, |s|, buflen)
    ensures m[..|r|] == r == Firsts(s, |s|) && buflen + Size(m[|r| - 1]) == Bytesize(r)
  {
  }

  /** One item: kept behind the others, or dropped. */
  method CompactItem(a: array<Item>, l: nat, ptr: nat, res: nat, buflen: nat, ghost s: seq<Item>, ghost r: seq<Item>)
    returns (res': nat, buflen': nat, ghost r': seq<Item>)
    requires ptr < l <= a.Length && res == |r| - 1 && Compacted(a[..l], s, r, ptr, buflen)
    modifies a
    ensures res' == |r'| - 1 && Compacted(a[..l], s, r', ptr + 1, buflen')
  {
    ghost var m := a[..l];
    CompactedNext(m, s, r, ptr, buflen);
    var same := SameKey(a[ptr], a[res]);
    res', buflen', r' := res, buflen, r;
    if !same {
      buflen' := buflen + Size(a[res]);
      res' := res + 1;
      a[res'] := a[ptr];
      r' := r + [s[ptr]];
      assert a[..l] == m[res' := m[ptr]];
    }
  }

  /** Keep the first of every run of equal keys, in place, and add up their bytes. */
  method Compact(a: array<Item>, l: nat) returns (n: nat, buflen: nat)
    requires 0 < l <= a.Length
    modifies a
    ensures n <= l && a[..n] == Firsts(old(a[..l]), l) && buflen == Bytesize(a[..n])
  {
    ghost var s, r := a[..l], [a[0]];
    CompactedOne(s);
    buflen := 0;
    var res := 0;
    for ptr := 1 to l
      invariant res == |r| - 1 && Compacted(a[..l], s, r, ptr, buflen)
    {
      res, buflen, r := CompactItem(a, l, ptr, res, buflen, s, r);
    }
    CompactedAll(a[..l], s, r, buflen);
    buflen := buflen + Size(a[res]);
    n := res + 1;
    assert a[..n] == a[..l][..n];
  }

  /** hstoreUniquePairs: sort, then drop the duplicates. */
  method UniquePairs(a: array<Item>, l: nat) returns (n: nat, buflen: nat)
    requires l <= a.Length
    modifies a
    ensures n <= l && Sorted(PairsOf(a[..n])) && buflen == Bytesize(a[..n]) <= Bytesize(old(a[..l]))
    ensures forall x | x in a[..n] :: x in old(a[..l])
    ensures forall x | x in old(a[..l]) :: HasKey(a[..n], x.pair.key)
  {
    if l < 2 {
      buflen := 0;
      if l == 1 {
        buflen := Size(a[0]);
        assert a[..1] == [] + [a[0]];
        SizeGrows([], a[0]);
        assert HasKey(a[..1], a[0].pair.key);
      }
      return l, buflen;
    }
    Qsort(a, l);
    ghost var s := a[..l];
    n, buflen := Compact(a, l);
    FirstsDedup(s, l);
    FirstsSize(s, l);
    assert s[..l] == s;
    forall x | x in old(a[..l]) ensures HasKey(a[..n], x.pair.key) {
      assert x in multiset(s);
    }
    forall x | x in a[..n] ensures x in old(a[..l]) {
      assert x in multiset(s);
    }
  }

  // ---------------------------------------------------------------- an array of keys

  ghost function Keys(ps: seq<Pair>): set<Bytes> { set p | p in ps :: p.key }

  /** The keys an array names; its null elements name none. */
  ghost function Named(keys: seq<Option<Bytes>>): set<Bytes> { set o | o in keys && o.Some? :: o.value }

  /** Items whose keys are those the first `i` elements name. */
  ghost predicate Collected(s: seq<Item>, keys: seq<Option<Bytes>>, i: nat)
    requires i <= |keys|
  {
    && (forall x | x in s :: Some(x.pair.key) in keys[..i])
    && (forall k | Some(k) in keys[..i] :: HasKey(s, k))
  }

  lemma {:induction false} CollectedGrows(s: seq<Item>, keys: seq<Option<Bytes>>, i: nat, s': seq<Item>)
    requires i < |keys| && Collected(s, keys, i)
    requires if keys[i].None? then s' == s else s' == s + [Item(Pair(keys[i].value, None), false)]
    ensures Collected(s', keys, i + 1)
  {
    assert keys[..i + 1] == keys[..i] + [keys[i]];
    forall k | Some(k) in keys[..i + 1] ensures HasKey(s', k) {
      if Some(k) in keys[..i] {
        var t :| 0 <= t < |s| && s[t].pair.key == k;
        assert s'[t].pair.key == k;
      } else {
        assert s'[|s|].pair.key == k;
      }
    }
  }

  lemma {:induction false} CollectedKeys(s: seq<Item>, keys: seq<Option<Bytes>>, r: seq<Item>)
    requires Collected(s, keys, |keys|)
    requires (forall x | x in r :: x in s) && (forall x | x in s :: HasKey(r, x.pair.key))
    ensures Keys(PairsOf(r)) == Named(keys)
  {
    assert keys[..|keys|] == keys;
    forall k | k in Keys(PairsOf(r)) ensures k in Named(keys) {
      var p :| p in PairsOf(r) && p.key == k;
      var t :| 0 <= t < |r| && PairsOf(r)[t] == p;
      assert r[t] in s && Some(k) in keys;
    }
    forall k | k in Named(keys) ensures k in Keys(PairsOf(r)) {
      assert Some(k) in keys && HasKey(s, k);
      var u :| 0 <= u < |s| && s[u].pair.key == k;
      assert s[u] in s;
      var t :| 0 <= t < |r| && r[t].pair.key == k;
      assert PairsOf(r)[t].key == k;
    }
  }

  const PAIRSIZE: int := 40

  /** hstoreArrayToPairs: the keys of an array, sorted, each once. */
  method ArrayToPairs(keys: seq<Option<Bytes>>) returns (r: Option<seq<Pair>>)
    ensures r.None? <==> |keys| > MAXALLOC / PAIRSIZE
    ensures r.Some? ==> |r.value| <= |keys| && Sorted(r.value) && Keys(r.value) == Named(keys)
  {
    if |keys| == 0 {
      return Some([]);
    }
    if |keys| > MAXALLOC / PAIRSIZE {
      return None;
    }
    var a := new Item[|keys|](_ => Item(Pair([], None), false));
    var j := 0;
    for i := 0 to |keys|
      invariant 0 <= j <= i && Collected(a[..j], keys, i)
    {
      ghost var s := a[..j];
      if keys[i].Some? {
        a[j] := Item(Pair(keys[i].value, None), false);
        j := j + 1;
        assert a[..j] == s + [a[j - 1]];
      }
      CollectedGrows(s, keys, i, a[..j]);
    }
    ghost var s := a[..j];
    var n, _ := UniquePairs(a, j);
    CollectedKeys(s, keys, a[..n]);
    r := Some(PairsOf(a[..n]));
  }
}
