/** What an hstore stands for: a map, kept as a list of pairs with strictly increasing keys,
    where the order is by length first (contrib/hstore/hstore_op.c, hstore_io.c). */
module HStoreMap {
  import opened Options
  import opened Lex
  import opened HStoreLayout

  type Map = map<Bytes, Option<Bytes>>

  // ---------------------------------------------------------------- the order of keys

  function KeyCmp(a: Bytes, b: Bytes): int
  {
    if |a| == |b| then Cmp(a, b) else if |a| > |b| then 1 else -1
  }

  predicate KeyLt(a: Bytes, b: Bytes) { KeyCmp(a, b) < 0 }

  lemma {:induction false} KeyZero(a: Bytes, b: Bytes)
    ensures KeyCmp(a, b) == 0 <==> a == b
  {
    CmpZero(a, b);
  }

  lemma {:induction false} KeyFlip(a: Bytes, b: Bytes)
    ensures KeyCmp(b, a) == -KeyCmp(a, b)
  {
    CmpFlip(a, b);
  }

  /** Shorter keys come first, keys of one length as in the dictionary. */
  lemma {:induction false} KeyBefore(a: Bytes, b: Bytes)
    ensures KeyLt(a, b) <==> |a| < |b| || (|a| == |b| && Before(a, b))
  {
    CmpBefore(a, b);
  }

  lemma {:induction false} KeyTrans(a: Bytes, b: Bytes, c: Bytes)
    requires KeyLt(a, b) && KeyLt(b, c)
    ensures KeyLt(a, c)
  {
    if |a| == |b| == |c| {
      CmpTrans(a, b, c);
    }
  }

  lemma {:induction false} KeyApart(a: Bytes, b: Bytes)
    requires KeyLt(a, b)
    ensures a != b && !KeyLt(b, a)
  {
    KeyZero(a, b);
    KeyFlip(a, b);
  }

  // ---------------------------------------------------------------- sorted lists as maps

  ghost predicate Sorted(ps: seq<Pair>)
  {
    forall i, j | 0 <= i < j < |ps| :: KeyLt(ps[i].key, ps[j].key)
  }

  /** Every one of the first `n` keys lies below `k`. */
  ghost predicate Under(ps: seq<Pair>, n: nat, k: Bytes)
    requires n <= |ps|
  {
    forall i | 0 <= i < n :: KeyLt(ps[i].key, k)
  }

  lemma {:induction false} UnderTrans(ps: seq<Pair>, n: nat, k: Bytes, l: Bytes)
    requires n <= |ps| && Under(ps, n, k) && KeyLt(k, l)
    ensures Under(ps, n, l)
  {
    forall i | 0 <= i < n ensures KeyLt(ps[i].key, l) {
      KeyTrans(ps[i].key, k, l);
    }
  }

  lemma {:induction false} SortedGrows(ps: seq<Pair>, p: Pair)
    requires Sorted(ps) && Under(ps, |ps|, p.key)
    ensures Sorted(ps + [p])
  {
  }

  /** The first `n` pairs as a map. */
  function MapOf(ps: seq<Pair>, n: nat): Map
    requires n <= |ps|
  {
    if n == 0 then map[] else MapOf(ps, n - 1)[ps[n - 1].key := ps[n - 1].val]
  }

  function AsMap(ps: seq<Pair>): Map { MapOf(ps, |ps|) }

  lemma {:induction false} MapSame(ps: seq<Pair>, qs: seq<Pair>, n: nat)
    requires n <= |ps| && n <= |qs| && forall i | 0 <= i < n :: ps[i] == qs[i]
    ensures MapOf(ps, n) == MapOf(qs, n)
  {
    if n > 0 {
      MapSame(ps, qs, n - 1);
    }
  }

  lemma {:induction false} MapGrows(ps: seq<Pair>, p: Pair)
    ensures AsMap(ps + [p]) == AsMap(ps)[p.key := p.val]
  {
    MapSame(ps, ps + [p], |ps|);
  }

  lemma {:induction false} MapDomain(ps: seq<Pair>, n: nat, k: Bytes)
    requires n <= |ps|
    ensures k in MapOf(ps, n) <==> exists i | 0 <= i < n :: ps[i].key == k
  {
    if n > 0 {
      MapDomain(ps, n - 1, k);
    }
  }

  lemma {:induction false} MapMisses(ps: seq<Pair>, n: nat, k: Bytes)
    requires n <= |ps| && Under(ps, n, k)
    ensures k !in MapOf(ps, n)
  {
    MapDomain(ps, n, k);
    KeyZero(k, k);
  }

  lemma {:induction false} MapHas(ps: seq<Pair>, n: nat, i: nat)
    requires Sorted(ps) && i < n <= |ps|
    ensures ps[i].key in MapOf(ps, n) && MapOf(ps, n)[ps[i].key] == ps[i].val
  {
    if i < n - 1 {
      KeyApart(ps[i].key, ps[n - 1].key);
      MapHas(ps, n - 1, i);
    }
  }

  /** A map has one sorted list. */
  lemma {:induction false} ListUnique(ps: seq<Pair>, n: nat, qs: seq<Pair>, m: nat)
    requires Sorted(ps) && Sorted(qs) && n <= |ps| && m <= |qs| && MapOf(ps, n) == MapOf(qs, m)
    ensures n == m && forall i | 0 <= i < n :: ps[i] == qs[i]
  {
    if n > 0 && m > 0 {
      LastSame(ps, n, qs, m);
      DropLast(ps, n);
      DropLast(qs, m);
      ListUnique(ps, n - 1, qs, m - 1);
    } else if n > 0 {
      MapHas(ps, n, n - 1);
    } else if m > 0 {
      MapHas(qs, m, m - 1);
    }
  }

  lemma {:induction false} DropLast(ps: seq<Pair>, n: nat)
    requires Sorted(ps) && 0 < n <= |ps|
    ensures MapOf(ps, n - 1) == MapOf(ps, n) - {ps[n - 1].key}
  {
    MapMisses(ps, n - 1, ps[n - 1].key);
  }

  lemma {:induction false} LastSame(ps: seq<Pair>, n: nat, qs: seq<Pair>, m: nat)
    requires Sorted(ps) && Sorted(qs) && 0 < n <= |ps| && 0 < m <= |qs| && MapOf(ps, n) == MapOf(qs, m)
    ensures ps[n - 1] == qs[m - 1]
  {
    var k, l := ps[n - 1].key, qs[m - 1].key;
    MapHas(ps, n, n - 1);
    MapHas(qs, m, m - 1);
    MapDomain(qs, m, k);
    MapDomain(ps, n, l);
    KeyFlip(k, l);
    var i :| 0 <= i < n && ps[i].key == l;
    var j :| 0 <= j < m && qs[j].key == k;
    assert i < n - 1 ==> KeyLt(l, k);
    assert j < m - 1 ==> KeyLt(k, l);
  }

  // ---------------------------------------------------------------- packed maps

  /** The packed form of a sorted list. */
  ghost predicate Canonical(h: HStore, ps: seq<Pair>)
  {
    Rep(h, ps) && Sorted(ps)
  }

  /** The packed form of a map. */
  ghost predicate Denotes(h: HStore, m: Map)
  {
    exists ps :: Canonical(h, ps) && AsMap(ps) == m
  }

  /** One hstore, one map; one map, one hstore, to the byte. */
  lemma {:induction false} DenotesUnique(g: HStore, h: HStore, m: Map, l: Map)
    requires Denotes(g, m) && Denotes(h, l)
    ensures m == l <==> g == h
  {
    var ps :| Canonical(g, ps) && AsMap(ps) == m;
    var qs :| Canonical(h, qs) && AsMap(qs) == l;
    if m == l {
      ListUnique(ps, |ps|, qs, |qs|);
      assert ps == qs;
      RepUnique(g, h, ps);
    }
    if g == h {
      RepDecodes(g, ps, qs);
    }
  }
}
