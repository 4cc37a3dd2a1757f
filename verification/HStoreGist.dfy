/** Searching a tree of hstore signatures (contrib/hstore/hstore_gist.c), for any hash function;
    the tree and the page split are those of module Signatures. */
module HStoreGist {
  import opened Options
  import opened Lex
  import opened HStoreLayout
  import opened HStoreMap
  import opened HStoreUnique
  import opened HStoreFind
  import S = Signatures

  const SIGLEN: nat := 16

  // ---------------------------------------------------------------- the signature of an hstore

  /** The strings of the first `n` pairs that are hashed: keys, and values that are not null. */
  function Words(ps: seq<Pair>, n: nat): seq<Bytes>
    requires n <= |ps|
  {
    if n == 0 then []
    else Words(ps, n - 1) + [ps[n - 1].key] + if ps[n - 1].val.None? then [] else [ps[n - 1].val.value]
  }

  lemma {:induction false} WordsHave(ps: seq<Pair>, n: nat, i: nat)
    requires i < n <= |ps|
    ensures ps[i].key in Words(ps, n) && (ps[i].val.Some? ==> ps[i].val.value in Words(ps, n))
  {
    if i < n - 1 {
      WordsHave(ps, n - 1, i);
    }
  }

  /** ghstore_compress on a leaf. */
  method LeafSign(h: HStore, hash: Bytes -> int, ghost ps: seq<Pair>) returns (key: S.Key)
    requires Rep(h, ps) && S.HashInto(hash, SIGLEN)
    ensures S.Built(S.Leaf(Words(ps, |ps|), key), hash, SIGLEN)
  {
    var words := [];
    for i := 0 to Count(h)
      invariant words == Words(ps, i)
    {
      var k := ReadKey(h, i, ps);
      words := words + [k];
      var vnull, v := ReadVal(h, i, ps);
      if !vnull {
        words := words + [v];
      }
    }
    key := S.MakeSign(words, hash, SIGLEN);
  }

  // ---------------------------------------------------------------- the consistency test

  datatype Query =
    | Contained(pairs: seq<Pair>)
    | Exists(key: Bytes)
    | ExistsAll(keys: seq<Option<Bytes>>)
    | ExistsAny(keys: seq<Option<Bytes>>)

  ghost predicate HasPair(key: S.Key, hash: Bytes -> int, p: Pair)
  {
    S.Has(key, hash(p.key)) && (p.val.Some? ==> S.Has(key, hash(p.val.value)))
  }

  ghost predicate Consistent(key: S.Key, hash: Bytes -> int, q: Query)
  {
    key.AllTrue? ||
    match q
    case Contained(pairs) => forall i | 0 <= i < |pairs| :: HasPair(key, hash, pairs[i])
    case Exists(k) => S.Has(key, hash(k))
    case ExistsAll(keys) => forall k | k in Named(keys) :: S.Has(key, hash(k))
    case ExistsAny(keys) => exists k :: k in Named(keys) && S.Has(key, hash(k))
  }

  /** What the operators ask of a map. */
  ghost predicate Matches(m: Map, q: Query)
  {
    match q
    case Contained(pairs) => Submap(AsMap(pairs), m)
    case Exists(k) => k in m
    case ExistsAll(keys) => Named(keys) <= m.Keys
    case ExistsAny(keys) => exists k :: k in Named(keys) && k in m
  }

  method PairsConsistent(key: S.Key, query: HStore, hash: Bytes -> int, ghost qs: seq<Pair>) returns (res: bool)
    requires Rep(query, qs)
    ensures res <==> Consistent(key, hash, Contained(qs))
  {
    if key.AllTrue? {
      return true;
    }
    res := true;
    var i := 0;
    while res && i < Count(query)
      invariant 0 <= i <= |qs| && (res <==> forall j | 0 <= j < i :: HasPair(key, hash, qs[j]))
    {
      var k := ReadKey(query, i, qs);
      if S.Has(key, hash(k)) {
        var vnull, v := ReadVal(query, i, qs);
        if !vnull {
          if !S.Has(key, hash(v)) {
            res := false;
          }
        }
      } else {
        res := false;
      }
      i := i + 1;
    }
  }

  method AllConsistent(key: S.Key, keys: seq<Option<Bytes>>, hash: Bytes -> int) returns (res: bool)
    ensures res <==> Consistent(key, hash, ExistsAll(keys))
  {
    if key.AllTrue? {
      return true;
    }
    for i := 0 to |keys|
      invariant forall j | 0 <= j < i && keys[j].Some? :: S.Has(key, hash(keys[j].value))
    {
      if keys[i].Some? && !S.Has(key, hash(keys[i].value)) {
        assert keys[i].value in Named(keys);
        return false;
      }
    }
    res := true;
  }

  method AnyConsistent(key: S.Key, keys: seq<Option<Bytes>>, hash: Bytes -> int) returns (res: bool)
    ensures res <==> Consistent(key, hash, ExistsAny(keys))
  {
    if key.AllTrue? {
      return true;
    }
    for i := 0 to |keys|
      invariant forall j | 0 <= j < i && keys[j].Some? :: !S.Has(key, hash(keys[j].value))
    {
      if keys[i].Some? && S.Has(key, hash(keys[i].value)) {
        assert keys[i].value in Named(keys);
        return true;
      }
    }
    res := false;
  }

  // ---------------------------------------------------------------- soundness

  /** A map's keys and values have their bits in every key above it. */
  lemma {:induction false} PairBits(t: S.Tree<Bytes>, hash: Bytes -> int, ps: seq<Pair>, k: Bytes)
    requires S.HashInto(hash, SIGLEN) && S.Built(t, hash, SIGLEN) && S.Below(Words(ps, |ps|), t)
    requires Sorted(ps) && k in AsMap(ps)
    ensures HasPair(t.key, hash, Pair(k, AsMap(ps)[k]))
  {
    MapDomain(ps, |ps|, k);
    var i :| 0 <= i < |ps| && ps[i].key == k;
    MapHas(ps, |ps|, i);
    WordsHave(ps, |ps|, i);
    S.HasBelow(t, hash, SIGLEN, Words(ps, |ps|));
  }

  /** No search loses a match, at any height of the tree. */
  lemma {:induction false} NoLostMap(t: S.Tree<Bytes>, hash: Bytes -> int, ps: seq<Pair>, q: Query)
    requires S.HashInto(hash, SIGLEN) && S.Built(t, hash, SIGLEN) && S.Below(Words(ps, |ps|), t)
    requires Sorted(ps) && (q.Contained? ==> Sorted(q.pairs)) && Matches(AsMap(ps), q)
    ensures Consistent(t.key, hash, q)
  {
    forall k | k in AsMap(ps) ensures HasPair(t.key, hash, Pair(k, AsMap(ps)[k])) {
      PairBits(t, hash, ps, k);
    }
    MatchHasBits(t.key, hash, q, AsMap(ps));
  }

  /** Some map whose keys and values have their bits satisfies the query. */
  ghost predicate MayMatch(key: S.Key, hash: Bytes -> int, q: Query)
  {
    exists m: Map :: (forall k | k in m :: HasPair(key, hash, Pair(k, m[k]))) && Matches(m, q)
  }

  /** The test prunes all it can: it is true if and only if the key is all true or a map with its
      bits satisfies the query. */
  lemma {:induction false} PrunesIff(key: S.Key, hash: Bytes -> int, q: Query)
    requires q.Contained? ==> Sorted(q.pairs)
    ensures Consistent(key, hash, q) <==> key.AllTrue? || MayMatch(key, hash, q)
  {
    if Consistent(key, hash, q) && key.Sig? {
      var m := BitsWitness(key, hash, q);
    }
    if m: Map :| (forall k | k in m :: HasPair(key, hash, Pair(k, m[k]))) && Matches(m, q) {
      MatchHasBits(key, hash, q, m);
    }
  }

  lemma {:induction false} BitsWitness(key: S.Key, hash: Bytes -> int, q: Query) returns (m: Map)
    requires key.Sig? && Consistent(key, hash, q) && (q.Contained? ==> Sorted(q.pairs))
    ensures (forall k | k in m :: HasPair(key, hash, Pair(k, m[k]))) && Matches(m, q)
  {
    match q
    case Contained(pairs) =>
      m := AsMap(pairs);
      forall k | k in m ensures HasPair(key, hash, Pair(k, m[k])) {
        MapDomain(pairs, |pairs|, k);
        var i :| 0 <= i < |pairs| && pairs[i].key == k;
        MapHas(pairs, |pairs|, i);
      }
    case Exists(k) => m := map[k := None];
    case ExistsAll(keys) => m := map k | k in Named(keys) :: None;
    case ExistsAny(keys) =>
      var k :| k in Named(keys) && S.Has(key, hash(k));
      m := map[k := None];
  }

  lemma {:induction false} MatchHasBits(key: S.Key, hash: Bytes -> int, q: Query, m: Map)
    requires (forall k | k in m :: HasPair(key, hash, Pair(k, m[k]))) && Matches(m, q)
    requires q.Contained? ==> Sorted(q.pairs)
    ensures Consistent(key, hash, q)
  {
    if q.Contained? {
      forall i | 0 <= i < |q.pairs| ensures HasPair(key, hash, q.pairs[i]) {
        MapHas(q.pairs, |q.pairs|, i);
      }
    } else if q.ExistsAny? {
      var k :| k in Named(q.keys) && k in m;
      assert S.Has(key, hash(k));
    }
  }
}
