/** Looking keys up in a packed map (contrib/hstore/hstore_op.c): binary search with a carried
    lower bound, and the operators that search for a rising run of keys. */
module HStoreFind {
  import opened Options
  import opened Int32
  import opened Lex
  import opened HStoreLayout
  import opened HStoreMap
  import opened HStoreUnique
  import B = HStoreBuild

  // ---------------------------------------------------------------- reading one pair

  method ReadKey(h: HStore, i: nat, ghost ps: seq<Pair>) returns (k: Bytes)
    requires Rep(h, ps) && i < |ps|
    ensures k == ps[i].key
  {
    PairAt(h, ps, i);
    k := Str(h, 2 * i);
  }

  method ReadVal(h: HStore, i: nat, ghost ps: seq<Pair>) returns (vnull: bool, v: Bytes)
    requires Rep(h, ps) && i < |ps|
    ensures vnull == ps[i].val.None? && v == ValBytes(ps[i])
  {
    PairAt(h, ps, i);
    vnull, v := ArrPtr(h)[2 * i + 1].isnull, Str(h, 2 * i + 1);
  }

  /** Both values null, or both the same string. */
  method SameVal(g: HStore, i: nat, h: HStore, j: nat, ghost ps: seq<Pair>, ghost qs: seq<Pair>) returns (same: bool)
    requires Rep(g, ps) && Rep(h, qs) && i < |ps| && j < |qs|
    ensures same <==> ps[i].val == qs[j].val
  {
    var gnull, gval := ReadVal(g, i, ps);
    var hnull, hval := ReadVal(h, j, qs);
    CmpZero(gval, hval);
    same := !(gnull != hnull || (!gnull && (|gval| != |hval| || Cmp(gval, hval) != 0)));
  }

  // ---------------------------------------------------------------- binary search

  /** None of the first `n` keys lies above `k`. */
  ghost predicate UpTo(ps: seq<Pair>, n: nat, k: Bytes)
    requires n <= |ps|
  {
    forall i | 0 <= i < n :: !KeyLt(k, ps[i].key)
  }

  /** The bound one search leaves behind is good for the next, higher key. */
  lemma {:induction false} NextBound(ps: seq<Pair>, n: nat, k: Bytes, l: Bytes)
    requires n <= |ps| && UpTo(ps, n, k) && KeyLt(k, l)
    ensures Under(ps, n, l)
  {
    forall i | 0 <= i < n ensures KeyLt(ps[i].key, l) {
      KeyFlip(k, ps[i].key);
      KeyZero(k, ps[i].key);
      if k != ps[i].key {
        KeyTrans(ps[i].key, k, l);
      }
    }
  }

  lemma {:induction false} UnderUpTo(ps: seq<Pair>, n: nat, k: Bytes)
    requires n <= |ps| && Under(ps, n, k)
    ensures UpTo(ps, n, k)
  {
    forall i | 0 <= i < n ensures !KeyLt(k, ps[i].key) {
      KeyApart(ps[i].key, k);
    }
  }

  /** Keys below the bound and above the other leave no room for `k`. */
  lemma {:induction false} NotThere(ps: seq<Pair>, n: nat, k: Bytes)
    requires n <= |ps| && Under(ps, n, k) && forall i | n <= i < |ps| :: KeyLt(k, ps[i].key)
    ensures k !in AsMap(ps)
  {
    MapDomain(ps, |ps|, k);
    KeyZero(k, k);
  }

  /** hstoreFindKey: the place of a key from `lowbound` on, and the bound for the next search. */
  method FindKey(h: HStore, lowbound: nat, key: Bytes, ghost ps: seq<Pair>) returns (idx: int, low: nat)
    requires Canonical(h, ps) && lowbound <= |ps| && Under(ps, lowbound, key)
    ensures if idx == -1 then key !in AsMap(ps)
      else 0 <= idx < |ps| && ps[idx].key == key && key in AsMap(ps) && AsMap(ps)[key] == ps[idx].val && low == idx + 1
    ensures low <= |ps| && lowbound <= low && UpTo(ps, low, key)
  {
    low := lowbound;
    var high := Count(h);
    while low < high
      invariant lowbound <= low <= high <= |ps| && Under(ps, low, key)
      invariant forall i | high <= i < |ps| :: KeyLt(key, ps[i].key)
    {
      var middle := low + (high - low) / 2;
      var k := ReadKey(h, middle, ps);
      var difference := if |k| == |key| then Cmp(k, key) else if |k| > |key| then 1 else -1;
      KeyZero(k, key);
      if difference == 0 {
        MapHas(ps, |ps|, middle);
        UnderUpTo(ps, middle, key);
        KeyZero(key, key);
        return middle, middle + 1;
      } else if difference < 0 {
        UnderMiddle(ps, middle, key);
        low := middle + 1;
      } else {
        KeyFlip(k, key);
        OverMiddle(ps, middle, key);
        high := middle;
      }
    }
    NotThere(ps, low, key);
    UnderUpTo(ps, low, key);
    idx := -1;
  }

  lemma {:induction false} UnderMiddle(ps: seq<Pair>, m: nat, key: Bytes)
    requires Sorted(ps) && m < |ps| && KeyLt(ps[m].key, key)
    ensures Under(ps, m + 1, key)
  {
    forall i | 0 <= i < m ensures KeyLt(ps[i].key, key) {
      KeyTrans(ps[i].key, ps[m].key, key);
    }
  }

  lemma {:induction false} OverMiddle(ps: seq<Pair>, m: nat, key: Bytes)
    requires Sorted(ps) && m < |ps| && KeyLt(key, ps[m].key)
    ensures forall i | m <= i < |ps| :: KeyLt(key, ps[i].key)
  {
    forall i | m < i < |ps| ensures KeyLt(key, ps[i].key) {
      KeyTrans(key, ps[m].key, ps[i].key);
    }
  }

  // ---------------------------------------------------------------- which keys exist

  /** The search for the i-th key may begin at `low`, and of the keys before it each was looked
      up with the answer `found`. */
  ghost predicate Searched(ps: seq<Pair>, ks: seq<Pair>, i: nat, low: nat, found: bool)
  {
    && i <= |ks| && low <= |ps| && (i < |ks| ==> Under(ps, low, ks[i].key))
    && forall j | 0 <= j < i :: (ks[j].key in AsMap(ps)) == found
  }

  lemma {:induction false} SearchedNext(ps: seq<Pair>, ks: seq<Pair>, i: nat, low: nat, low': nat, found: bool)
    requires Searched(ps, ks, i, low, found) && i < |ks| && Sorted(ks)
    requires low' <= |ps| && UpTo(ps, low', ks[i].key) && (ks[i].key in AsMap(ps)) == found
    ensures Searched(ps, ks, i + 1, low', found)
  {
    if i + 1 < |ks| {
      NextBound(ps, low', ks[i].key, ks[i + 1].key);
    }
  }

  /** Looks up keys in order until one gives another answer than `found`. */
  method FirstOther(h: HStore, ks: seq<Pair>, found: bool, ghost ps: seq<Pair>) returns (other: bool)
    requires Canonical(h, ps) && Sorted(ks)
    ensures other <==> exists j | 0 <= j < |ks| :: (ks[j].key in AsMap(ps)) != found
  {
    var lowbound := 0;
    for i := 0 to |ks|
      invariant Searched(ps, ks, i, lowbound, found)
    {
      var idx, low := FindKey(h, lowbound, ks[i].key, ps);
      if (idx >= 0) != found {
        return true;
      }
      SearchedNext(ps, ks, i, lowbound, low, found);
      lowbound := low;
    }
    other := false;
  }

  lemma {:induction false} KeysAt(ks: seq<Pair>, k: Bytes)
    ensures k in Keys(ks) <==> exists j | 0 <= j < |ks| :: ks[j].key == k
  {
    if k in Keys(ks) {
      var p :| p in ks && p.key == k;
      var j :| 0 <= j < |ks| && ks[j] == p;
    }
  }

  /** hstore_exists_any: does the map have one of the keys; too long an array is an error. */
  method ExistsAny(h: HStore, keys: seq<Option<Bytes>>, ghost m: Map) returns (r: Option<bool>)
    requires Denotes(h, m)
    ensures r.None? <==> |keys| > MAXALLOC / PAIRSIZE
    ensures r.Some? ==> (r.value <==> exists k :: k in Named(keys) && k in m)
  {
    ghost var ps: seq<Pair> :| Canonical(h, ps) && AsMap(ps) == m;
    var pairs := ArrayToPairs(keys);
    if pairs.None? {
      return None;
    }
    var any := FirstOther(h, pairs.value, false, ps);
    forall k ensures k in Named(keys) <==> exists j | 0 <= j < |pairs.value| :: pairs.value[j].key == k {
      KeysAt(pairs.value, k);
    }
    r := Some(any);
  }

  /** hstore_exists_all: does the map have all of the keys. */
  method ExistsAll(h: HStore, keys: seq<Option<Bytes>>, ghost m: Map) returns (r: Option<bool>)
    requires Denotes(h, m)
    ensures r.None? <==> |keys| > MAXALLOC / PAIRSIZE
    ensures r.Some? ==> (r.value <==> Named(keys) <= m.Keys)
  {
    ghost var ps: seq<Pair> :| Canonical(h, ps) && AsMap(ps) == m;
    var pairs := ArrayToPairs(keys);
    if pairs.None? {
      return None;
    }
    var missing := FirstOther(h, pairs.value, true, ps);
    forall k ensures k in Named(keys) <==> exists j | 0 <= j < |pairs.value| :: pairs.value[j].key == k {
      KeysAt(pairs.value, k);
    }
    r := Some(!missing);
  }

  // ---------------------------------------------------------------- one map within another

  ghost predicate Has(m: Map, p: Pair) { p.key in m && m[p.key] == p.val }

  ghost predicate HasAll(m: Map, qs: seq<Pair>, n: nat)
    requires n <= |qs|
  {
    forall j | 0 <= j < n :: Has(m, qs[j])
  }

  ghost predicate Submap(t: Map, m: Map) { forall k | k in t :: k in m && m[k] == t[k] }

  lemma {:induction false} SubmapIff(m: Map, qs: seq<Pair>)
    requires Sorted(qs)
    ensures Submap(AsMap(qs), m) <==> HasAll(m, qs, |qs|)
  {
    var t := AsMap(qs);
    forall j | 0 <= j < |qs| ensures qs[j].key in t && t[qs[j].key] == qs[j].val {
      MapHas(qs, |qs|, j);
    }
    forall k ensures k in t <==> exists j | 0 <= j < |qs| :: qs[j].key == k {
      MapDomain(qs, |qs|, k);
    }
  }

  /** The pairs before the i-th are compared, and the search for its key may begin at `last`. */
  ghost predicate Compared(ps: seq<Pair>, qs: seq<Pair>, i: nat, last: nat, res: bool)
  {
    && i <= |qs| && last <= |ps| && (i < |qs| ==> Under(ps, last, qs[i].key))
    && (res <==> HasAll(AsMap(ps), qs, i))
  }

  lemma {:induction false} ComparedNext(ps: seq<Pair>, qs: seq<Pair>, i: nat, last: nat, last': nat, same: bool)
    requires Compared(ps, qs, i, last, true) && i < |qs| && Sorted(qs)
    requires last' <= |ps| && UpTo(ps, last', qs[i].key) && (same <==> Has(AsMap(ps), qs[i]))
    ensures Compared(ps, qs, i + 1, last', same)
  {
    if i + 1 < |qs| {
      NextBound(ps, last', qs[i].key, qs[i + 1].key);
    }
  }

  /** Is the i-th pair of `tmpl` a pair of `val`? */
  method ContainsPair(val: HStore, tmpl: HStore, i: nat, last: nat, ghost ps: seq<Pair>, ghost qs: seq<Pair>)
    returns (same: bool, last': nat)
    requires Canonical(val, ps) && Canonical(tmpl, qs) && i < |qs| && last <= |ps| && Under(ps, last, qs[i].key)
    ensures last' <= |ps| && UpTo(ps, last', qs[i].key) && (same <==> Has(AsMap(ps), qs[i]))
  {
    var key := ReadKey(tmpl, i, qs);
    var idx, low := FindKey(val, last, key, ps);
    same, last' := false, low;
    if idx >= 0 {
      same := SameVal(tmpl, i, val, idx, qs, ps);
    }
  }

  /** hstore_contains: every pair of `tmpl` is a pair of `val`. */
  method Contains(val: HStore, tmpl: HStore, ghost m: Map, ghost t: Map) returns (res: bool)
    requires Denotes(val, m) && Denotes(tmpl, t)
    ensures res <==> Submap(t, m)
  {
    ghost var ps: seq<Pair> :| Canonical(val, ps) && AsMap(ps) == m;
    ghost var qs: seq<Pair> :| Canonical(tmpl, qs) && AsMap(qs) == t;
    res := true;
    var lastidx, i := 0, 0;
    while res && i < Count(tmpl)
      invariant Compared(ps, qs, i, lastidx, res)
    {
      var same, low := ContainsPair(val, tmpl, i, lastidx, ps, qs);
      ComparedNext(ps, qs, i, lastidx, low, same);
      res, lastidx, i := same, low, i + 1;
    }
    SubmapIff(m, qs);
  }

  // ---------------------------------------------------------------- the part under some keys

  ghost function Restrict(m: Map, ks: seq<Pair>, i: nat): Map
    requires i <= |ks|
  {
    map k | k in m && (exists j :: 0 <= j < i && ks[j].key == k) :: m[k]
  }

  lemma {:induction false} RestrictAll(m: Map, ks: seq<Pair>)
    ensures Restrict(m, ks, |ks|) == m - (m.Keys - Keys(ks))
  {
    forall k ensures k in Keys(ks) <==> exists j | 0 <= j < |ks| :: ks[j].key == k {
      KeysAt(ks, k);
    }
  }

  lemma {:induction false} RestrictNext(m: Map, ks: seq<Pair>, i: nat)
    requires i < |ks|
    ensures ks[i].key !in m ==> Restrict(m, ks, i + 1) == Restrict(m, ks, i)
    ensures ks[i].key in m ==> Restrict(m, ks, i + 1) == Restrict(m, ks, i)[ks[i].key := m[ks[i].key]]
  {
  }

  /** What was found for the first `i` keys: pairs from below the bound, in order, taking no
      more room than the pairs there. */
  ghost predicate Sliced(out: seq<Pair>, ps: seq<Pair>, last: nat, ks: seq<Pair>, i: nat)
  {
    && i <= |ks| && |out| <= i && last <= |ps| && |out| <= last
    && (i < |ks| ==> Under(ps, last, ks[i].key) && Under(out, |out|, ks[i].key))
    && Sorted(out) && Place(0, out, |out|) <= Place(0, ps, last)
    && (forall p | p in out :: p in ps)
    && AsMap(out) == Restrict(AsMap(ps), ks, i)
  }

  lemma {:induction false} BoundsMove(out: seq<Pair>, out': seq<Pair>, ps: seq<Pair>, low: nat, ks: seq<Pair>, i: nat)
    requires Sorted(ks) && i + 1 < |ks| && low <= |ps| && UpTo(ps, low, ks[i].key) && Under(out, |out|, ks[i].key)
    requires out' == out || (|out'| == |out| + 1 && out <= out' && out'[|out|].key == ks[i].key)
    ensures Under(ps, low, ks[i + 1].key) && Under(out', |out'|, ks[i + 1].key)
  {
    UnderUpTo(out, |out|, ks[i].key);
    KeyZero(ks[i].key, ks[i].key);
    NextBound(ps, low, ks[i].key, ks[i + 1].key);
    NextBound(out', |out'|, ks[i].key, ks[i + 1].key);
  }

  lemma {:induction false} SlicedFound(out: seq<Pair>, ps: seq<Pair>, last: nat, ks: seq<Pair>, i: nat, idx: nat)
    requires Sorted(ks) && Sorted(ps) && Sliced(out, ps, last, ks, i)
    requires i < |ks| && last <= idx < |ps| && ps[idx].key == ks[i].key
    requires UpTo(ps, idx + 1, ks[i].key)
    ensures Sliced(out + [ps[idx]], ps, idx + 1, ks, i + 1)
    ensures Place(0, out + [ps[idx]], |out| + 1) == Place(0, out, |out|) + |ps[idx].key| + |ValBytes(ps[idx])|
  {
    var out' := out + [ps[idx]];
    SortedGrows(out, ps[idx]);
    StrLenMonotone(ps, last, idx);
    B.StrLenSame(out, out', |out|);
    RestrictNext(AsMap(ps), ks, i);
    MapHas(ps, |ps|, idx);
    MapGrows(out, ps[idx]);
    if i + 1 < |ks| {
      BoundsMove(out, out', ps, idx + 1, ks, i);
    }
  }

  lemma {:induction false} SlicedMissed(out: seq<Pair>, ps: seq<Pair>, last: nat, ks: seq<Pair>, i: nat, low: nat)
    requires Sorted(ks) && Sliced(out, ps, last, ks, i) && i < |ks| && ks[i].key !in AsMap(ps)
    requires last <= low <= |ps| && UpTo(ps, low, ks[i].key)
    ensures Sliced(out, ps, low, ks, i + 1)
  {
    StrLenMonotone(ps, last, low);
    RestrictNext(AsMap(ps), ks, i);
    if i + 1 < |ks| {
      BoundsMove(out, out, ps, low, ks, i);
    }
  }

  /** hstore_slice_to_hstore: the part of the map under the keys of an array. */
  method Slice(h: HStore, keys: seq<Option<Bytes>>, ghost m: Map) returns (r: Option<HStore>)
    requires Denotes(h, m)
    ensures r.None? <==> |keys| > MAXALLOC / PAIRSIZE
    ensures r.Some? ==> Denotes(r.value, m - (m.Keys - Named(keys)))
  {
    ghost var ps: seq<Pair> :| Canonical(h, ps) && AsMap(ps) == m;
    var pairs := ArrayToPairs(keys);
    if pairs.None? {
      return None;
    }
    var out, bufsiz, last := FindAll(h, pairs.value, ps);
    RestrictAll(m, pairs.value);
    StrLenMonotone(ps, last, |ps|);
    forall j | 0 <= j < |out| ensures PairInRange(out[j]) {
      assert out[j] in out;
    }
    r := B.HstorePairs(out, |out|, bufsiz);
    assert out[..|out|] == out && Canonical(r.value, out);
  }

  /** One key looked up and, if the map has it, its pair taken. */
  method FindOne(h: HStore, ks: seq<Pair>, i: nat, out: seq<Pair>, bufsiz: nat, lastidx: nat, ghost ps: seq<Pair>)
    returns (out': seq<Pair>, bufsiz': nat, lastidx': nat)
    requires Canonical(h, ps) && Sorted(ks) && i < |ks|
    requires Sliced(out, ps, lastidx, ks, i) && bufsiz == Place(0, out, |out|)
    ensures Sliced(out', ps, lastidx', ks, i + 1) && bufsiz' == Place(0, out', |out'|)
  {
    var idx, low := FindKey(h, lastidx, ks[i].key, ps);
    out', bufsiz', lastidx' := out, bufsiz, low;
    if idx >= 0 {
      var vnull, v := ReadVal(h, idx, ps);
      var p := Pair(ks[i].key, if vnull then None else Some(v));
      SlicedFound(out, ps, lastidx, ks, i, idx);
      bufsiz' := bufsiz + |ks[i].key| + |v|;
      out' := out + [p];
    } else {
      SlicedMissed(out, ps, lastidx, ks, i, low);
    }
  }

  method FindAll(h: HStore, ks: seq<Pair>, ghost ps: seq<Pair>) returns (out: seq<Pair>, bufsiz: nat, lastidx: nat)
    requires Canonical(h, ps) && Sorted(ks)
    ensures Sliced(out, ps, lastidx, ks, |ks|) && bufsiz == Place(0, out, |out|)
  {
    out, bufsiz, lastidx := [], 0, 0;
    for i := 0 to |ks|
      invariant Sliced(out, ps, lastidx, ks, i) && bufsiz == Place(0, out, |out|)
    {
      out, bufsiz, lastidx := FindOne(h, ks, i, out, bufsiz, lastidx, ps);
    }
  }
}
