/** Searching a tree of signature keys (intarray's gist__intbig_ops,
    contrib/intarray/_intbig_gist.c). */
module IntBig {
  import opened Options
  import opened IntTool
  import opened QueryEval
  import opened Signatures
  import QueryIndex
  import opened SetKeys

  const SIGLEN: nat := 252

  function HashVal(v: int): (h: int)
    ensures 0 <= h < 8 * SIGLEN
  {
    (v % 0x1_0000_0000) % (8 * SIGLEN)
  }

  // ---------------------------------------------------------------- the consistency test

  function BitOf(items: seq<Item>, key: Key, hash: int -> int): int -> bool
  {
    j => 0 <= j < |items| && items[j].node.Val? && Has(key, hash(items[j].node.val))
  }

  ghost predicate SomeBit(key: Key, q: seq<int>) { exists v | v in q :: Has(key, HashVal(v)) }

  ghost predicate AllBits(key: Key, q: seq<int>) { forall v | v in q :: Has(key, HashVal(v)) }

  ghost predicate InSign(q: seq<int>, i: int) { exists v | v in q :: HashVal(v) == i }

  ghost predicate SignConsistent(key: Key, query: Query, leaf: bool)
    requires Usable(query)
  {
    key.AllTrue? ||
    match query
    case Boolean(items) => Execute(items, |items| - 1, false, BitOf(items, key, HashVal))
    case Overlap(q) => SomeBit(key, q)
    case Same(q) =>
      if leaf then forall i | 0 <= i < 8 * SIGLEN :: Has(key, i) <==> InSign(q, i)
      else AllBits(key, q)
    case Contains(q) => AllBits(key, q)
    case ContainedBy(q) =>
      if leaf then forall i | 0 <= i < 8 * SIGLEN && Has(key, i) :: InSign(q, i)
      else SomeBit(key, q)
    case Unknown(_) => false
  }

  method BitsOverlap(key: Key, q: seq<int>) returns (r: bool)
    ensures r <==> SomeBit(key, q)
  {
    for k := 0 to |q|
      invariant forall j | 0 <= j < k :: !Has(key, HashVal(q[j]))
    {
      if Has(key, HashVal(q[k])) {
        assert q[k] in q;
        return true;
      }
    }
    return false;
  }

  method BitsContain(key: Key, q: seq<int>) returns (r: bool)
    ensures r <==> AllBits(key, q)
  {
    for k := 0 to |q|
      invariant forall j | 0 <= j < k :: Has(key, HashVal(q[j]))
    {
      if !Has(key, HashVal(q[k])) {
        assert q[k] in q;
        return false;
      }
    }
    return true;
  }

  method BytesSame(a: seq<bv8>, b: seq<bv8>) returns (r: bool)
    requires |a| == |b|
    ensures r <==> forall i | 0 <= i < 8 * |a| :: GetBit(a, i) <==> GetBit(b, i)
  {
    for k := 0 to |a|
      invariant a[..k] == b[..k]
    {
      if a[k] != b[k] {
        ByteDiffers(a, b, k);
        return false;
      }
    }
    assert a == b;
    return true;
  }

  /** Different bytes differ in a bit. */
  lemma {:induction false} ByteDiffers(a: seq<bv8>, b: seq<bv8>, k: int)
    requires |a| == |b| && 0 <= k < |a| && a[k] != b[k]
    ensures exists i | 0 <= i < 8 * |a| :: GetBit(a, i) != GetBit(b, i)
  {
    var j :| 0 <= j < 8 && Bit(a[k], j) != Bit(b[k], j) by {
      BitsDecide(a[k], b[k]);
    }
    assert GetBit(a, 8 * k + j) != GetBit(b, 8 * k + j);
  }

  lemma {:induction false} SomeBitSet(b: bv8)
    requires b != 0
    ensures exists j | 0 <= j < 8 :: Bit(b, j)
  {
    assert Bit(b, 0) || Bit(b, 1) || Bit(b, 2) || Bit(b, 3) || Bit(b, 4) || Bit(b, 5) || Bit(b, 6) || Bit(b, 7);
  }

  lemma {:induction false} BitsDecide(x: bv8, y: bv8)
    requires x != y
    ensures exists j | 0 <= j < 8 :: Bit(x, j) != Bit(y, j)
  {
    if x & !y != 0 {
      BitsOutside(x, y);
    } else {
      assert y & !x != 0;
      BitsOutside(y, x);
    }
  }

  method BytesWithin(a: seq<bv8>, b: seq<bv8>) returns (r: bool)
    requires |a| == |b|
    ensures r <==> forall i | 0 <= i < 8 * |a| && GetBit(a, i) :: GetBit(b, i)
  {
    for k := 0 to |a|
      invariant forall j | 0 <= j < k :: a[j] & !b[j] == 0
    {
      if a[k] & !b[k] != 0 {
        ByteOutside(a, b, k);
        return false;
      }
    }
    forall i | 0 <= i < 8 * |a| && GetBit(a, i) ensures GetBit(b, i) {
      ByteInside(a[i / 8], b[i / 8], i % 8);
    }
    return true;
  }

  lemma {:induction false} ByteInside(x: bv8, y: bv8, k: int)
    requires x & !y == 0 && Bit(x, k)
    ensures Bit(y, k)
  {
  }

  lemma {:induction false} ByteOutside(a: seq<bv8>, b: seq<bv8>, k: int)
    requires |a| == |b| && 0 <= k < |a| && a[k] & !b[k] != 0
    ensures exists i | 0 <= i < 8 * |a| :: GetBit(a, i) && !GetBit(b, i)
  {
    var x, y := a[k], b[k];
    var j :| 0 <= j < 8 && Bit(x, j) && !Bit(y, j) by {
      BitsOutside(x, y);
    }
    assert GetBit(a, 8 * k + j) && !GetBit(b, 8 * k + j);
  }

  lemma {:induction false} AndNotBit(x: bv8, y: bv8, k: int)
    requires Bit(x & !y, k)
    ensures Bit(x, k) && !Bit(y, k)
  {
  }

  lemma {:induction false} BitsOutside(x: bv8, y: bv8)
    requires x & !y != 0
    ensures exists j | 0 <= j < 8 :: Bit(x, j) && !Bit(y, j)
  {
    SomeBitSet(x & !y);
    var j :| 0 <= j < 8 && Bit(x & !y, j);
    AndNotBit(x, y, j);
  }

  /** The signature of a query array. */
  method QuerySign(q: seq<int>) returns (s: seq<bv8>)
    ensures |s| == SIGLEN && forall i | 0 <= i < 8 * SIGLEN :: GetBit(s, i) <==> InSign(q, i)
  {
    var key := MakeSign(q, HashVal, SIGLEN);
    s := key.bytes;
    forall i | 0 <= i < 8 * SIGLEN ensures GetBit(s, i) <==> InSign(q, i) {
      assert Has(key, i) <==> GetBit(s, i);
    }
  }

  /** A signature is compared with an array query only if that may be asked for its length. */
  predicate SignAskable(key: Key, query: Query)
  {
    key.AllTrue? || query.Boolean? || query.Unknown? || |query.q| <= ARRAYMAX
  }

  ghost function SignAnswer(key: Key, query: Query, leaf: bool): Option<bool>
    requires Usable(query)
  {
    if SignAskable(key, query) then Some(SignConsistent(key, query, leaf)) else None
  }

  method GIntbigConsistent(key: Key, query: Query, leaf: bool) returns (r: Option<bool>)
    requires Usable(query) && Sized(key, SIGLEN)
    ensures r == SignAnswer(key, query, leaf)
  {
    if key.AllTrue? {
      return Some(true);
    }
    if query.Boolean? {
      return Some(Execute(query.items, |query.items| - 1, false, BitOf(query.items, key, HashVal)));
    }
    if query.Unknown? {
      return Some(false);
    }
    if |query.q| > ARRAYMAX {
      return None;
    }
    var b := SignCompare(key, query, leaf);
    r := Some(b);
  }

  method SignCompare(key: Key, query: Query, leaf: bool) returns (r: bool)
    requires key.Sig? && Sized(key, SIGLEN) && !query.Boolean? && !query.Unknown?
    ensures r == SignConsistent(key, query, leaf)
  {
    match query {
      case Overlap(q) => r := BitsOverlap(key, q);
      case Same(q) =>
        if leaf {
          var qp := QuerySign(q);
          r := BytesSame(key.bytes, qp);
        } else {
          r := BitsContain(key, q);
        }
      case Contains(q) => r := BitsContain(key, q);
      case ContainedBy(q) =>
        if leaf {
          var qp := QuerySign(q);
          r := BytesWithin(key.bytes, qp);
        } else {
          r := BitsOverlap(key, q);
        }
    }
  }

  // ---------------------------------------------------------------- soundness

  /** Evaluating a query on a signature is sound, for any hash function: if an array satisfies
      the query, so does every signature that has the bits of its elements. */
  lemma {:induction false} SignatureSound(items: seq<Item>, arr: seq<int>, key: Key, hash: int -> int)
    requires items != [] && WellLinked(items)
    requires forall v | v in arr :: Has(key, hash(v))
    requires Execute(items, |items| - 1, true, QueryIndex.InArray(items, arr))
    ensures Execute(items, |items| - 1, false, BitOf(items, key, hash))
  {
    QueryIndex.ApproximationSound(items, |items| - 1, QueryIndex.InArray(items, arr), BitOf(items, key, hash));
  }

  lemma {:induction false} BitsConsistent(arr: seq<int>, key: Key, query: Query)
    requires Usable(query) && Matches(arr, query) && AllBits(key, arr)
    requires query.ContainedBy? ==> arr != []
    ensures SignConsistent(key, query, false)
  {
    match query
    case Boolean(items) => SignatureSound(items, arr, key, HashVal);
    case Overlap(q) =>
    case Same(q) =>
    case Contains(q) =>
    case ContainedBy(q) =>
      var v := arr[0];
      assert v in arr && v in q;
  }

  /** No search loses a match, on a leaf or at any height above it: the test is true, or raises
      the error for too long a query; an empty array under a contained-by query, above the leaf,
      is the one exception. */
  lemma {:induction false} NoLostSignature(t: Signatures.Tree<int>, arr: seq<int>, query: Query)
    requires Signatures.Built(t, HashVal, SIGLEN) && Signatures.Below(arr, t)
    requires Usable(query) && Matches(arr, query)
    requires t.Node? && query.ContainedBy? ==> arr != []
    ensures SignAnswer(t.key, query, t.Leaf?) == if SignAskable(t.key, query) then Some(true) else None
  {
    HasBelow(t, HashVal, SIGLEN, arr);
    if t.Node? || !(query.Same? || query.ContainedBy?) {
      BitsConsistent(arr, t.key, query);
      assert t.Leaf? && query.Boolean? ==> SignConsistent(t.key, query, true);
    } else {
      var q := query.q;
      forall i | 0 <= i < 8 * SIGLEN && InSign(arr, i) ensures InSign(q, i) {
        var v :| v in arr && HashVal(v) == i;
        assert v in q;
      }
      if query.Same? {
        forall i | 0 <= i < 8 * SIGLEN && InSign(q, i) ensures InSign(arr, i) {
          var v :| v in q && HashVal(v) == i;
          assert v in arr;
        }
      }
    }
  }

  /** Some array whose bits the key has satisfies the query. */
  ghost predicate MayMatchBits(key: Key, query: Query)
    requires Usable(query)
  {
    exists arr :: AllBits(key, arr) && Matches(arr, query) && (query.ContainedBy? ==> arr != [])
  }

  /** Above the leaves the test prunes all it can: it is true if and only if the key is all true
      or an array with its bits satisfies the query; a boolean query must negate nothing. */
  lemma {:induction false} SignPrunesIff(key: Key, query: Query)
    requires Usable(query) && (query.Boolean? ==> QueryIndex.Positive(query.items))
    ensures SignConsistent(key, query, false) <==> key.AllTrue? || MayMatchBits(key, query)
  {
    if SignConsistent(key, query, false) && key.Sig? {
      var arr := BitsWitness(key, query);
      assert AllBits(key, arr) && Matches(arr, query) && (query.ContainedBy? ==> arr != []);
    }
    if arr :| AllBits(key, arr) && Matches(arr, query) && (query.ContainedBy? ==> arr != []) {
      BitsConsistent(arr, key, query);
    }
  }

  /** The values of a query that have their bits. */
  function Present(vs: seq<int>, key: Key): (r: seq<int>)
    ensures forall v :: v in r <==> v in vs && Has(key, HashVal(v))
  {
    if vs == [] then [] else
      assert vs == [vs[0]] + vs[1..];
      (if Has(key, HashVal(vs[0])) then [vs[0]] else []) + Present(vs[1..], key)
  }

  lemma {:induction false} BitsWitness(key: Key, query: Query) returns (arr: seq<int>)
    requires Usable(query) && (query.Boolean? ==> QueryIndex.Positive(query.items))
    requires key.Sig? && SignConsistent(key, query, false)
    ensures AllBits(key, arr) && Matches(arr, query) && (query.ContainedBy? ==> arr != [])
  {
    match query
    case Boolean(items) =>
      var vs := QueryIndex.Values(items, |items|);
      arr := Present(vs, key);
      var chk := BitOf(items, key, HashVal);
      forall j | 0 <= j < |items| && items[j].node.Val? ensures chk(j) == QueryIndex.InArray(items, arr)(j) {
        QueryIndex.ValuesHold(items, |items|, j);
        assert items[j].node.val in vs;
      }
      QueryIndex.PositiveExact(items, |items| - 1, chk);
      QueryIndex.ExecuteCongruent(items, |items| - 1, true, chk, QueryIndex.InArray(items, arr));
    case Overlap(q) =>
      var v :| v in q && Has(key, HashVal(v));
      arr := [v];
      assert v in arr;
    case ContainedBy(q) =>
      var v :| v in q && Has(key, HashVal(v));
      arr := [v];
    case Same(q) => arr := q;
    case Contains(q) => arr := q;
  }

  /** A page that holds nothing but the empty array. */
  function EmptySign(): Signatures.Tree<int>
  {
    var key := Sig(seq(SIGLEN, _ => 0));
    Signatures.Node([Signatures.Leaf([], key)], key)
  }

  lemma {:induction false} EmptySignBuilt()
    ensures Signatures.Built(EmptySign(), HashVal, SIGLEN) && Signatures.Below([], EmptySign())
    ensures forall i | 0 <= i < 8 * SIGLEN :: !Has(EmptySign().key, i)
  {
    var c := EmptySign().children[0];
    assert c in EmptySign().children && Signatures.Below([], c);
  }

  /** The exception is exactly that: an array that satisfies a contained-by query is turned
      away by no key above a leaf, in any tree, if and only if it is not empty, or the query is
      an error. */
  lemma {:induction false} ContainedByIff(arr: seq<int>, q: seq<int>)
    requires Matches(arr, ContainedBy(q))
    ensures
      (forall t | Signatures.Built(t, HashVal, SIGLEN) && t.Node? && Signatures.Below(arr, t) ::
        SignAnswer(t.key, ContainedBy(q), false) != Some(false))
      <==> arr != [] || |q| > ARRAYMAX
  {
    if |q| > ARRAYMAX {
    } else if arr != [] {
      forall t | Signatures.Built(t, HashVal, SIGLEN) && t.Node? && Signatures.Below(arr, t)
        ensures SignAnswer(t.key, ContainedBy(q), false) != Some(false)
      {
        NoLostSignature(t, arr, ContainedBy(q));
      }
    } else {
      EmptySignBuilt();
      assert SignAnswer(EmptySign().key, ContainedBy(q), false) == Some(false);
    }
  }
}
