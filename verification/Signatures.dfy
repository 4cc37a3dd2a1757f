/** Signature keys: sets of hash values kept as bit vectors, or as "all true" when every bit
    would be set (contrib/intarray/_intbig_gist.c; contrib/hstore/hstore_gist.c has the same
    code over a shorter vector). */
module Signatures {

  /** The signature of a key, or the flag that stands for all bits. */
  datatype Key = AllTrue | Sig(bytes: seq<bv8>)

  // ---------------------------------------------------------------- bits

  function Mask(k: int): bv8
  {
    if k == 0 then 1 else if k == 1 then 2 else if k == 2 then 4 else if k == 3 then 8
    else if k == 4 then 16 else if k == 5 then 32 else if k == 6 then 64 else 128
  }

  predicate Bit(b: bv8, k: int) { b & Mask(k) != 0 }

  lemma {:induction false} OrBit(a: bv8, b: bv8, k: int)
    ensures Bit(a | b, k) <==> Bit(a, k) || Bit(b, k)
  {
  }

  lemma {:induction false} MaskBit(j: int, k: int)
    requires 0 <= j < 8 && 0 <= k < 8
    ensures Bit(Mask(j), k) <==> j == k
  {
  }

  lemma {:induction false} FullByte(b: bv8)
    ensures b == 0xff <==> forall k | 0 <= k < 8 :: Bit(b, k)
  {
    if forall k | 0 <= k < 8 :: Bit(b, k) {
      assert Bit(b, 0) && Bit(b, 1) && Bit(b, 2) && Bit(b, 3) && Bit(b, 4) && Bit(b, 5) && Bit(b, 6) && Bit(b, 7);
    }
  }

  predicate GetBit(s: seq<bv8>, i: int)
    requires 0 <= i < 8 * |s|
  {
    Bit(s[i / 8], i % 8)
  }

  function SetBit(s: seq<bv8>, i: int): (r: seq<bv8>)
    requires 0 <= i < 8 * |s|
    ensures |r| == |s|
  {
    s[i / 8 := s[i / 8] | Mask(i % 8)]
  }

  lemma {:induction false} SetBitGet(s: seq<bv8>, i: int, j: int)
    requires 0 <= i < 8 * |s| && 0 <= j < 8 * |s|
    ensures GetBit(SetBit(s, i), j) <==> GetBit(s, j) || i == j
  {
    OrBit(s[i / 8], Mask(i % 8), j % 8);
    MaskBit(i % 8, j % 8);
  }

  /** Does a key of `n` bytes have the bit? */
  predicate Has(key: Key, i: int)
  {
    key.AllTrue? || (0 <= i < 8 * |key.bytes| && GetBit(key.bytes, i))
  }

  predicate Sized(key: Key, n: nat) { key.Sig? ==> |key.bytes| == n }

  // ---------------------------------------------------------------- building keys

  /** A hash function into the bits of an `n`-byte signature. */
  ghost predicate HashInto<T(!new)>(hash: T -> int, n: nat)
  {
    forall v :: 0 <= hash(v) < 8 * n
  }

  /** Signature of a leaf value. */
  method MakeSign<T(!new)>(vals: seq<T>, hash: T -> int, n: nat) returns (key: Key)
    requires HashInto(hash, n)
    ensures key.Sig? && Sized(key, n)
    ensures forall i | 0 <= i < 8 * n :: Has(key, i) <==> exists v | v in vals :: hash(v) == i
  {
    var s := seq(n, _ => 0);
    for j := 0 to |vals|
      invariant |s| == n
      invariant forall i | 0 <= i < 8 * n :: GetBit(s, i) <==> exists k | 0 <= k < j :: hash(vals[k]) == i
    {
      var h := hash(vals[j]);
      forall i | 0 <= i < 8 * n ensures GetBit(SetBit(s, h), i) <==> GetBit(s, i) || h == i {
        SetBitGet(s, h, i);
      }
      s := SetBit(s, h);
    }
    key := Sig(s);
    forall i | 0 <= i < 8 * n ensures Has(key, i) <==> exists v | v in vals :: hash(v) == i {
      if k :| 0 <= k < |vals| && hash(vals[k]) == i {
        assert vals[k] in vals;
      }
    }
  }

  function OrBytes(a: seq<bv8>, b: seq<bv8>): (r: seq<bv8>)
    requires |a| == |b|
    ensures |r| == |a|
  {
    seq(|a|, i requires 0 <= i < |a| => a[i] | b[i])
  }

  lemma {:induction false} OrBytesGet(a: seq<bv8>, b: seq<bv8>, i: int)
    requires |a| == |b| && 0 <= i < 8 * |a|
    ensures GetBit(OrBytes(a, b), i) <==> GetBit(a, i) || GetBit(b, i)
  {
    OrBit(a[i / 8], b[i / 8], i % 8);
  }

  /** Ors a key into a base signature; an all-true key is reported instead. */
  method UnionKey(base: array<bv8>, add: Key) returns (all: bool)
    requires Sized(add, base.Length)
    modifies base
    ensures all == add.AllTrue?
    ensures base[..] == if all then old(base[..]) else OrBytes(old(base[..]), add.bytes)
  {
    if add.AllTrue? {
      return true;
    }
    var i := 0;
    while i < base.Length
      invariant 0 <= i <= base.Length
      invariant forall k | 0 <= k < i :: base[k] == old(base[..])[k] | add.bytes[k]
      invariant forall k | i <= k < base.Length :: base[k] == old(base[..])[k]
    {
      base[i] := base[i] | add.bytes[i];
      i := i + 1;
    }
    return false;
  }

  /** The union of a page: its key has a bit exactly when some entry's key has it. */
  method Union(keys: seq<Key>, n: nat) returns (key: Key)
    requires forall k | 0 <= k < |keys| :: Sized(keys[k], n)
    ensures Sized(key, n)
    ensures forall i | 0 <= i < 8 * n :: Has(key, i) <==> exists k | 0 <= k < |keys| :: Has(keys[k], i)
  {
    var base := new bv8[n](_ => 0);
    for j := 0 to |keys|
      invariant forall k | 0 <= k < j :: keys[k].Sig?
      invariant forall i | 0 <= i < 8 * n :: GetBit(base[..], i) <==> exists k | 0 <= k < j :: Has(keys[k], i)
    {
      ghost var before := base[..];
      var all := UnionKey(base, keys[j]);
      if all {
        assert forall i :: Has(keys[j], i);
        return AllTrue;
      }
      forall i | 0 <= i < 8 * n ensures GetBit(base[..], i) <==> GetBit(before, i) || Has(keys[j], i) {
        OrBytesGet(before, keys[j].bytes, i);
      }
    }
    key := Sig(base[..]);
  }

  /** An inner key with every bit set is stored as the flag. */
  method CompressInner(key: Key, n: nat) returns (r: Key)
    requires Sized(key, n)
    ensures Sized(r, n) && (r == key || r == AllTrue)
    ensures forall i | 0 <= i < 8 * n :: Has(r, i) <==> Has(key, i)
  {
    if key.AllTrue? {
      return key;
    }
    for i := 0 to n
      invariant forall k | 0 <= k < i :: key.bytes[k] == 0xff
    {
      if key.bytes[i] != 0xff {
        return key;
      }
    }
    forall i | 0 <= i < 8 * n ensures Has(key, i) {
      FullByte(key.bytes[i / 8]);
    }
    r := AllTrue;
  }

  // ---------------------------------------------------------------- trees

  datatype Tree<T> =
    | Leaf(vals: seq<T>, key: Key)
    | Node(children: seq<Tree<T>>, key: Key)

  /** The keys are the ones the index functions produce: a leaf's has the bits of its hashed
      values; an inner node's has just the bits of its children's keys, whether it comes from a
      union or from a page split. */
  ghost predicate Built<T(!new)>(t: Tree<T>, hash: T -> int, n: nat)
  {
    && Sized(t.key, n)
    && match t
       case Leaf(vals, key) =>
         key.Sig? && forall i | 0 <= i < 8 * n :: Has(key, i) <==> exists v | v in vals :: hash(v) == i
       case Node(cs, key) =>
         && (forall c | c in cs :: Built(c, hash, n))
         && (forall i | 0 <= i < 8 * n :: Has(key, i) <==> exists c | c in cs :: Has(c.key, i))
  }

  ghost predicate Below<T>(vals: seq<T>, t: Tree<T>)
  {
    match t
    case Leaf(v, _) => v == vals
    case Node(cs, _) => exists c | c in cs :: Below(vals, c)
  }

  /** Some value below a node hashes to the bit. */
  ghost predicate HashedBelow<T(!new)>(t: Tree<T>, hash: T -> int, i: int)
  {
    exists vals, v :: Below(vals, t) && v in vals && hash(v) == i
  }

  /** A key has the bits of the values below it and no others. */
  lemma {:induction false} BitsBelow<T(!new)>(t: Tree<T>, hash: T -> int, n: nat, i: int)
    requires HashInto(hash, n) && Built(t, hash, n) && 0 <= i < 8 * n
    ensures Has(t.key, i) <==> HashedBelow(t, hash, i)
    decreases t
  {
    match t
    case Leaf(vals, key) =>
      if Has(key, i) {
        var v :| v in vals && hash(v) == i;
        assert Below(vals, t) && v in vals;
      }
    case Node(cs, key) =>
      forall c | c in cs ensures Has(c.key, i) <==> HashedBelow(c, hash, i) {
        BitsBelow(c, hash, n, i);
      }
      if Has(key, i) {
        var c :| c in cs && Has(c.key, i);
        var vals, v :| Below(vals, c) && v in vals && hash(v) == i;
        assert Below(vals, t) && v in vals;
      }
      if HashedBelow(t, hash, i) {
        var vals, v :| Below(vals, t) && v in vals && hash(v) == i;
        var c :| c in cs && Below(vals, c);
        assert HashedBelow(c, hash, i);
      }
  }

  /** So it has the bit of every value below it. */
  lemma {:induction false} HasBelow<T(!new)>(t: Tree<T>, hash: T -> int, n: nat, vals: seq<T>)
    requires HashInto(hash, n) && Built(t, hash, n) && Below(vals, t)
    ensures forall v | v in vals :: Has(t.key, hash(v))
  {
    forall v | v in vals ensures Has(t.key, hash(v)) {
      BitsBelow(t, hash, n, hash(v));
      assert HashedBelow(t, hash, hash(v));
    }
  }

  // ---------------------------------------------------------------- page splits

  function Ones(b: bv8, k: nat): nat
  {
    if k == 0 then 0 else Ones(b, k - 1) + if Bit(b, k - 1) then 1 else 0
  }

  function SizeBits(s: seq<bv8>, n: nat): nat
    requires n <= |s|
  {
    if n == 0 then 0 else SizeBits(s, n - 1) + Ones(s[n - 1], 8)
  }

  function HemDistSign(a: seq<bv8>, b: seq<bv8>, n: nat): nat
    requires n <= |a| && n <= |b|
  {
    if n == 0 then 0 else HemDistSign(a, b, n - 1) + Ones(a[n - 1] ^ b[n - 1], 8)
  }

  /** The number of bits in which two keys differ. */
  function HemDist(a: Key, b: Key, n: nat): int
    requires Sized(a, n) && Sized(b, n)
  {
    if a.AllTrue? then (if b.AllTrue? then 0 else 8 * n - SizeBits(b.bytes, n))
    else if b.AllTrue? then 8 * n - SizeBits(a.bytes, n)
    else HemDistSign(a.bytes, b.bytes, n)
  }

  /** The balance term, over the reals. */
  function Wish(a: int, b: int, c: real): real
  {
    -(((a - b) * (a - b) * (a - b)) as real * c)
  }

  lemma {:induction false} XorBit(a: bv8, b: bv8, k: int)
    ensures Bit(a ^ b, k) <==> Bit(a, k) != Bit(b, k)
  {
    assert (a ^ b) & Mask(k) == (a & Mask(k)) ^ (b & Mask(k));
    assert a & Mask(k) == 0 || a & Mask(k) == Mask(k);
    assert b & Mask(k) == 0 || b & Mask(k) == Mask(k);
  }

  /** The places, of the first `m`, at which just one of two keys has a bit. */
  ghost function Differing(a: Key, b: Key, m: nat): set<int>
  {
    set i | 0 <= i < m && Has(a, i) != Has(b, i)
  }

  lemma {:induction false} DifferingNext(a: Key, b: Key, m: nat)
    ensures |Differing(a, b, m + 1)| == |Differing(a, b, m)| + if Has(a, m) != Has(b, m) then 1 else 0
  {
    var s := Differing(a, b, m);
    assert Differing(a, b, m + 1) == if Has(a, m) != Has(b, m) then s + {m} else s;
  }

  /** The bits of one byte, which begins at place `m`. */
  ghost predicate ByteTells(a: Key, b: Key, m: nat, x: bv8)
  {
    forall k | 0 <= k < 8 :: TellsAt(a, b, m, x, k)
  }

  predicate TellsAt(a: Key, b: Key, m: nat, x: bv8, k: int)
  {
    Bit(x, k) <==> Has(a, m + k) != Has(b, m + k)
  }

  lemma {:induction false} ByteCounts(a: Key, b: Key, m: nat, x: bv8, k: nat)
    requires k <= 8 && ByteTells(a, b, m, x)
    ensures |Differing(a, b, m + k)| == |Differing(a, b, m)| + Ones(x, k)
  {
    if k > 0 {
      ByteCounts(a, b, m, x, k - 1);
      DifferingNext(a, b, m + (k - 1));
      assert TellsAt(a, b, m, x, k - 1);
    }
  }

  lemma {:induction false} BitAt(s: seq<bv8>, n: nat, k: int)
    requires n < |s| && 0 <= k < 8
    ensures Has(Sig(s), 8 * n + k) <==> Bit(s[n], k)
  {
    assert (8 * n + k) / 8 == n && (8 * n + k) % 8 == k;
  }

  lemma {:induction false} XorTells(a: seq<bv8>, b: seq<bv8>, n: nat)
    requires n < |a| && n < |b|
    ensures ByteTells(Sig(a), Sig(b), 8 * n, a[n] ^ b[n])
  {
    var m, x := 8 * n, a[n] ^ b[n];
    forall k | 0 <= k < 8 ensures TellsAt(Sig(a), Sig(b), m, x, k) {
      BitAt(a, n, k);
      BitAt(b, n, k);
      XorBit(a[n], b[n], k);
    }
  }

  lemma {:induction false} FlipTells(s: seq<bv8>, n: nat)
    requires n < |s|
    ensures ByteTells(Sig(s), AllTrue, 8 * n, s[n] ^ 0xff)
  {
    var m, x := 8 * n, s[n] ^ 0xff;
    FullByte(0xff);
    forall k | 0 <= k < 8 ensures TellsAt(Sig(s), AllTrue, m, x, k) {
      BitAt(s, n, k);
      XorBit(s[n], 0xff, k);
    }
  }

  lemma {:induction false} SignDiffers(a: seq<bv8>, b: seq<bv8>, n: nat)
    requires n <= |a| && n <= |b|
    ensures HemDistSign(a, b, n) == |Differing(Sig(a), Sig(b), 8 * n)|
  {
    if n == 0 {
      assert Differing(Sig(a), Sig(b), 0) == {};
    } else {
      var i := n - 1;
      SignDiffers(a, b, i);
      XorTells(a, b, i);
      ByteCounts(Sig(a), Sig(b), 8 * i, a[i] ^ b[i], 8);
    }
  }

  /** The bits a signature lacks, counted. */
  lemma {:induction false} SizeDiffers(s: seq<bv8>, n: nat)
    requires n <= |s|
    ensures 8 * n - SizeBits(s, n) == |Differing(Sig(s), AllTrue, 8 * n)|
  {
    if n == 0 {
      assert Differing(Sig(s), AllTrue, 0) == {};
    } else {
      var i := n - 1;
      SizeDiffers(s, i);
      FlipTells(s, i);
      ByteCounts(Sig(s), AllTrue, 8 * i, s[i] ^ 0xff, 8);
      OnesFlipped(s[i], 8);
    }
  }

  lemma {:induction false} OnesFlipped(b: bv8, k: nat)
    requires k <= 8
    ensures Ones(b, k) + Ones(b ^ 0xff, k) == k
  {
    if k > 0 {
      OnesFlipped(b, k - 1);
      FullByte(0xff);
      XorBit(b, 0xff, k - 1);
    }
  }

  /** The distance of two keys is the number of places at which just one of them has a bit. */
  lemma {:induction false} HemDistCounts(a: Key, b: Key, n: nat)
    requires Sized(a, n) && Sized(b, n)
    ensures HemDist(a, b, n) == |Differing(a, b, 8 * n)|
  {
    if a.Sig? && b.Sig? {
      SignDiffers(a.bytes, b.bytes, n);
    } else if a.Sig? {
      SizeDiffers(a.bytes, n);
    } else if b.Sig? {
      SizeDiffers(b.bytes, n);
      assert Differing(a, b, 8 * n) == Differing(b, a, 8 * n);
    } else {
      assert Differing(a, b, 8 * n) == {};
    }
  }

  /** No pair of entries, from the first to the one before the last, differs in more than `most`
      bits: the pairs that begin before `k`, and those of `k` itself up to `j`. */
  ghost predicate Seen(entries: seq<Key>, n: nat, k: int, j: int, most: int)
    requires forall i | 0 <= i < |entries| :: Sized(entries[i], n)
  {
    forall p, q | 1 <= p < q < |entries| - 1 && (p < k || (p == k && q < j)) ::
      HemDist(entries[p], entries[q], n) <= most
  }

  /** No pair yet, or a pair and the number of bits in which it differs. */
  ghost predicate Best(entries: seq<Key>, n: nat, seed1: int, seed2: int, waste: int)
    requires forall i | 0 <= i < |entries| :: Sized(entries[i], n)
  {
    || (seed1 == 0 && seed2 == 0 && waste == -1)
    || (1 <= seed1 < seed2 < |entries| - 1 && waste == HemDist(entries[seed1], entries[seed2], n))
  }

  /** The seeds are two different offsets; of more than two entries they are the two that differ
      in most bits, the last entry left out. */
  ghost predicate Apartmost(entries: seq<Key>, n: nat, seed1: int, seed2: int)
    requires forall k | 0 <= k < |entries| :: Sized(entries[k], n)
  {
    && 1 <= seed1 < seed2 < |entries|
    && (|entries| > 3 ==>
      && seed2 < |entries| - 1
      && forall p, q | 1 <= p < q < |entries| - 1 ::
           HemDist(entries[p], entries[q], n) <= HemDist(entries[seed1], entries[seed2], n))
  }

  /** The two entries of a page that differ most; the last entry is not considered, unless
      there are only two. */
  method Seeds(entries: seq<Key>, n: nat) returns (seed1: int, seed2: int)
    requires |entries| >= 3 && forall k | 0 <= k < |entries| :: Sized(entries[k], n)
    ensures Apartmost(entries, n, seed1, seed2)
  {
    var maxoff, waste := |entries| - 2, -1;
    seed1, seed2 := 0, 0;
    var k := 1;
    while k < maxoff
      invariant 1 <= k && (k > 1 ==> seed1 > 0)
      invariant Best(entries, n, seed1, seed2, waste)
      invariant Seen(entries, n, k, k, waste)
    {
      var j := k + 1;
      while j <= maxoff
        invariant k < j <= maxoff + 1 && (k > 1 || j > k + 1 ==> seed1 > 0)
        invariant Best(entries, n, seed1, seed2, waste)
        invariant Seen(entries, n, k, j, waste)
      {
        HemDistCounts(entries[k], entries[j], n);
        var sizeWaste := HemDist(entries[k], entries[j], n);
        if sizeWaste > waste {
          waste, seed1, seed2 := sizeWaste, k, j;
        }
        j := j + 1;
      }
      k := k + 1;
    }
    if seed1 == 0 || seed2 == 0 {
      seed1, seed2 := 1, 2;
    }
  }

  /** The key of a side after an entry has been put there. */
  function Enlarged(datum: Key, e: Key, n: nat): (r: Key)
    requires Sized(datum, n) && Sized(e, n)
    ensures Sized(r, n)
  {
    if datum.AllTrue? then datum
    else if e.AllTrue? then Sig(seq(n, _ => 0xff))
    else Sig(OrBytes(datum.bytes, e.bytes))
  }

  lemma {:induction false} EnlargedBits(datum: Key, e: Key, n: nat, i: int)
    requires Sized(datum, n) && Sized(e, n) && 0 <= i < 8 * n
    ensures Has(Enlarged(datum, e, n), i) <==> Has(datum, i) || Has(e, i)
  {
    var r := Enlarged(datum, e, n);
    if datum.Sig? && e.Sig? {
      OrBytesGet(datum.bytes, e.bytes, i);
    } else if datum.Sig? {
      FullByte(r.bytes[i / 8]);
    }
  }

  /** Offsets of entries. */
  predicate OnPage(entries: seq<Key>, side: seq<int>)
  {
    forall k | 0 <= k < |side| :: 0 < side[k] < |entries|
  }

  /** Some entry whose offset is on the side has the bit. */
  ghost predicate SideHas(entries: seq<Key>, side: seq<int>, i: int)
    requires OnPage(entries, side)
  {
    exists k | 0 <= k < |side| :: Has(entries[side[k]], i)
  }

  lemma {:induction false} SideHasNext(entries: seq<Key>, side: seq<int>, j: int, i: int)
    requires OnPage(entries, side) && 0 < j < |entries|
    ensures OnPage(entries, side + [j])
    ensures SideHas(entries, side + [j], i) <==> SideHas(entries, side, i) || Has(entries[j], i)
  {
    var more := side + [j];
    assert more[|side|] == j;
    if SideHas(entries, side, i) {
      var k :| 0 <= k < |side| && Has(entries[side[k]], i);
      assert more[k] == side[k];
    }
  }

  /** The key of a side has just the bits of the entries on it. */
  ghost predicate UnionOf(datum: Key, entries: seq<Key>, side: seq<int>, n: nat)
  {
    && Sized(datum, n) && OnPage(entries, side)
    && forall i | 0 <= i < 8 * n :: Has(datum, i) <==> SideHas(entries, side, i)
  }

  /** A side under construction: its key is the union of its seed and its entries. */
  ghost predicate GoodSide(datum: Key, entries: seq<Key>, seed: int, side: seq<int>, n: nat)
  {
    && Sized(datum, n) && 0 < seed < |entries| && OnPage(entries, side)
    && forall i | 0 <= i < 8 * n :: Has(datum, i) <==> Has(entries[seed], i) || SideHas(entries, side, i)
  }

  lemma {:induction false} GoodSideStep(datum: Key, entries: seq<Key>, seed: int, side: seq<int>, j: int, n: nat)
    requires GoodSide(datum, entries, seed, side, n)
    requires 0 < j < |entries| && Sized(entries[j], n)
    ensures GoodSide(Enlarged(datum, entries[j], n), entries, seed, side + [j], n)
  {
    var r := Enlarged(datum, entries[j], n);
    forall i | 0 <= i < 8 * n
      ensures Has(r, i) <==> Has(entries[seed], i) || SideHas(entries, side + [j], i)
    {
      EnlargedBits(datum, entries[j], n, i);
      SideHasNext(entries, side, j, i);
    }
  }

  lemma {:induction false} SeedSideStep(datum: Key, entries: seq<Key>, seed: int, side: seq<int>, n: nat)
    requires GoodSide(datum, entries, seed, side, n)
    ensures GoodSide(datum, entries, seed, side + [seed], n)
  {
    forall i | 0 <= i < 8 * n
      ensures Has(datum, i) <==> Has(entries[seed], i) || SideHas(entries, side + [seed], i)
    {
      SideHasNext(entries, side, seed, i);
    }
  }

  /** With its seed on it, a side's key is the union of the side. */
  lemma {:induction false} SeededUnion(datum: Key, entries: seq<Key>, seed: int, side: seq<int>, n: nat)
    requires GoodSide(datum, entries, seed, side, n) && seed in side
    ensures UnionOf(datum, entries, side, n)
  {
    var k :| 0 <= k < |side| && side[k] == seed;
  }

  /** The number of bits in which an entry differs from the union of a seed and a side. */
  ghost function Apart(entries: seq<Key>, seed: int, side: seq<int>, e: Key, m: nat): nat
    requires 0 < seed < |entries| && OnPage(entries, side)
  {
    |set i | 0 <= i < m && (Has(entries[seed], i) || SideHas(entries, side, i)) != Has(e, i)|
  }

  lemma {:induction false} ApartIsDistance(datum: Key, entries: seq<Key>, seed: int, side: seq<int>, e: Key, n: nat)
    requires GoodSide(datum, entries, seed, side, n) && Sized(e, n)
    ensures HemDist(datum, e, n) == Apart(entries, seed, side, e, 8 * n)
  {
    HemDistCounts(datum, e, n);
    var m := 8 * n;
    assert Differing(datum, e, m)
        == set i | 0 <= i < m && (Has(entries[seed], i) || SideHas(entries, side, i)) != Has(e, i);
  }

  /** Of two sides an entry joins its own, if it is a seed, and otherwise the left one just if it
      differs from its union in fewer bits than from the other's, with the balance term added. */
  ghost predicate JoinsLeft(entries: seq<Key>, sides: (seq<int>, seq<int>), j: int, seed1: int, seed2: int, c: real,
      n: nat)
    requires 0 < seed1 < |entries| && 0 < seed2 < |entries| && 0 < j < |entries|
    requires OnPage(entries, sides.0) && OnPage(entries, sides.1)
  {
    var e, m := entries[j], 8 * n;
    || j == seed1
    || (j != seed2
        && Apart(entries, seed1, sides.0, e, m) as real
           < Apart(entries, seed2, sides.1, e, m) as real + Wish(|sides.0|, |sides.1|, c))
  }

  /** The sides after the first `k` entries of the order. */
  ghost function Deal(entries: seq<Key>, order: seq<int>, k: nat, seed1: int, seed2: int, c: real, n: nat)
    : (sides: (seq<int>, seq<int>))
    requires 0 < seed1 < |entries| && 0 < seed2 < |entries| && k <= |order| && OnPage(entries, order)
    ensures OnPage(entries, sides.0) && OnPage(entries, sides.1)
  {
    if k == 0 then ([], []) else
      var before, j := Deal(entries, order, k - 1, seed1, seed2, c, n), order[k - 1];
      if JoinsLeft(entries, before, j, seed1, seed2, c, n) then (before.0 + [j], before.1)
      else (before.0, before.1 + [j])
  }

  /** Which side grows less, corrected by the balance term. */
  method GoesLeft(ldatum: Key, rdatum: Key, e: Key, nleft: int, nright: int, c: real, n: nat)
    returns (left: bool)
    requires Sized(ldatum, n) && Sized(rdatum, n) && Sized(e, n)
    ensures left <==> HemDist(ldatum, e, n) as real < HemDist(rdatum, e, n) as real + Wish(nleft, nright, c)
  {
    var sizeAlpha, sizeBeta := HemDist(ldatum, e, n), HemDist(rdatum, e, n);
    left := sizeAlpha as real < sizeBeta as real + Wish(nleft, nright, c);
  }

  /** The offsets 1 up to |entries| - 1, each once, in the order of their costs. */
  ghost predicate Ordering(order: seq<int>, entries: seq<Key>)
  {
    && (forall k | 0 <= k < |order| :: 0 < order[k] < |entries|)
    && (forall k, l | 0 <= k < l < |order| :: order[k] != order[l])
    && (forall o | 0 < o < |entries| :: o in order)
  }

  /** The two sides after the first `k` entries of the order, with their keys. */
  ghost predicate Dealt(entries: seq<Key>, order: seq<int>, k: nat, seed1: int, seed2: int, c: real, n: nat,
      left: seq<int>, right: seq<int>, ldatum: Key, rdatum: Key)
    requires 0 < seed1 < |entries| && 0 < seed2 < |entries| && k <= |order| && OnPage(entries, order)
  {
    && (left, right) == Deal(entries, order, k, seed1, seed2, c, n)
    && GoodSide(ldatum, entries, seed1, left, n) && GoodSide(rdatum, entries, seed2, right, n)
  }

  /** Deals the entries to the sides, in the given order. */
  method Distribute(entries: seq<Key>, order: seq<int>, seed1: int, seed2: int, c: real, n: nat)
    returns (left: seq<int>, right: seq<int>, ldatum: Key, rdatum: Key)
    requires forall k | 0 <= k < |entries| :: Sized(entries[k], n)
    requires OnPage(entries, order) && 0 < seed1 < seed2 < |entries|
    ensures Dealt(entries, order, |order|, seed1, seed2, c, n, left, right, ldatum, rdatum)
  {
    ldatum, rdatum := entries[seed1], entries[seed2];
    left, right := [], [];
    var k := 0;
    while k < |order|
      invariant 0 <= k <= |order|
      invariant Dealt(entries, order, k, seed1, seed2, c, n, left, right, ldatum, rdatum)
    {
      left, right, ldatum, rdatum := DealOne(entries, order, k, seed1, seed2, c, n, left, right, ldatum, rdatum);
      k := k + 1;
    }
  }

  method DealOne(entries: seq<Key>, order: seq<int>, k: nat, seed1: int, seed2: int, c: real, n: nat,
      left: seq<int>, right: seq<int>, ldatum: Key, rdatum: Key)
    returns (left': seq<int>, right': seq<int>, ldatum': Key, rdatum': Key)
    requires forall i | 0 <= i < |entries| :: Sized(entries[i], n)
    requires OnPage(entries, order) && 0 < seed1 < seed2 < |entries| && k < |order|
    requires Dealt(entries, order, k, seed1, seed2, c, n, left, right, ldatum, rdatum)
    ensures Dealt(entries, order, k + 1, seed1, seed2, c, n, left', right', ldatum', rdatum')
  {
    var j := order[k];
    left', right', ldatum', rdatum' := left, right, ldatum, rdatum;
    if j == seed1 {
      SeedSideStep(ldatum, entries, seed1, left, n);
      left' := left + [j];
    } else if j == seed2 {
      SeedSideStep(rdatum, entries, seed2, right, n);
      right' := right + [j];
    } else {
      var goesLeft := GoesLeft(ldatum, rdatum, entries[j], |left|, |right|, c, n);
      ApartIsDistance(ldatum, entries, seed1, left, entries[j], n);
      ApartIsDistance(rdatum, entries, seed2, right, entries[j], n);
      if goesLeft {
        GoodSideStep(ldatum, entries, seed1, left, j, n);
        ldatum', left' := Enlarged(ldatum, entries[j], n), left + [j];
      } else {
        GoodSideStep(rdatum, entries, seed2, right, j, n);
        rdatum', right' := Enlarged(rdatum, entries[j], n), right + [j];
      }
    }
  }

  /** Two sides hold some entries, and the seeds among them on their own sides. */
  predicate Keeps(left: seq<int>, right: seq<int>, dealt: seq<int>, seed1: int, seed2: int)
  {
    && multiset(left) + multiset(right) == multiset(dealt)
    && (seed1 in dealt ==> seed1 in left) && (seed2 in dealt ==> seed2 in right)
  }

  lemma {:induction false} KeepsNext(left: seq<int>, right: seq<int>, dealt: seq<int>, seed1: int, seed2: int, j: int)
    requires Keeps(left, right, dealt, seed1, seed2)
    ensures j != seed2 ==> Keeps(left + [j], right, dealt + [j], seed1, seed2)
    ensures j != seed1 ==> Keeps(left, right + [j], dealt + [j], seed1, seed2)
  {
  }

  /** Dealing loses nothing. */
  lemma {:induction false} DealKeeps(entries: seq<Key>, order: seq<int>, k: nat, seed1: int, seed2: int, c: real,
      n: nat, dealt: seq<int>)
    returns (left: seq<int>, right: seq<int>)
    requires 0 < seed1 < seed2 < |entries| && k <= |order| && OnPage(entries, order) && dealt == order[..k]
    ensures (left, right) == Deal(entries, order, k, seed1, seed2, c, n)
    ensures Keeps(left, right, dealt, seed1, seed2)
  {
    if k == 0 {
      left, right := [], [];
    } else {
      var j, less := order[k - 1], order[..k - 1];
      assert dealt == less + [j];
      left, right := DealKeeps(entries, order, k - 1, seed1, seed2, c, n, less);
      KeepsNext(left, right, less, seed1, seed2, j);
      if JoinsLeft(entries, (left, right), j, seed1, seed2, c, n) {
        left := left + [j];
      } else {
        right := right + [j];
      }
    }
  }

  /** Splits a page, whatever the order in which the entries are considered: they are dealt from
      the two seeds, each offset goes to exactly one side, neither side stays empty, and each
      side's key is the union of the entries put there. */
  method PickSplit(entries: seq<Key>, order: seq<int>, c: real, n: nat)
    returns (left: seq<int>, right: seq<int>, ldatum: Key, rdatum: Key, ghost seed1: int, ghost seed2: int)
    requires |entries| >= 3 && (forall k | 0 <= k < |entries| :: Sized(entries[k], n))
    requires Ordering(order, entries)
    ensures Apartmost(entries, n, seed1, seed2)
    ensures (left, right) == Deal(entries, order, |order|, seed1, seed2, c, n)
    ensures forall o | 0 < o < |entries| :: (o in left) != (o in right)
    ensures multiset(left) + multiset(right) == multiset(order)
    ensures seed1 in left && seed2 in right
    ensures UnionOf(ldatum, entries, left, n) && UnionOf(rdatum, entries, right, n)
  {
    var s1, s2 := Seeds(entries, n);
    seed1, seed2 := s1, s2;
    left, right, ldatum, rdatum := Distribute(entries, order, s1, s2, c, n);
    assert order[..|order|] == order;
    ghost var l, r := DealKeeps(entries, order, |order|, s1, s2, c, n, order);
    SeededUnion(ldatum, entries, s1, left, n);
    SeededUnion(rdatum, entries, s2, right, n);
    forall o | 0 < o < |entries| ensures (o in left) != (o in right) {
      SplitPartitions(entries, order, left, right, o);
    }
  }

  /** So each offset lands on exactly one side, once. */
  lemma {:induction false} SplitPartitions(entries: seq<Key>, order: seq<int>, left: seq<int>, right: seq<int>, o: int)
    requires Ordering(order, entries) && multiset(left) + multiset(right) == multiset(order)
    requires 0 < o < |entries|
    ensures multiset(left)[o] + multiset(right)[o] == 1
    ensures (o in left) != (o in right)
  {
    OnceEach(order, o);
    assert multiset(left)[o] + multiset(right)[o] == multiset(order)[o];
  }

  lemma {:induction false} OnceEach(s: seq<int>, o: int)
    requires forall k, l | 0 <= k < l < |s| :: s[k] != s[l]
    ensures multiset(s)[o] == if o in s then 1 else 0
  {
    if s != [] {
      OnceEach(s[1..], o);
      assert s == [s[0]] + s[1..];
      assert multiset(s) == multiset{s[0]} + multiset(s[1..]);
    }
  }

  // ---------------------------------------------------------------- what unions and splits build

  /** The entries of a page are the keys of the nodes below, counted from 1. */
  ghost predicate PageOf<T>(entries: seq<Key>, cs: seq<Tree<T>>)
  {
    |entries| == |cs| + 1 && forall k | 0 <= k < |cs| :: entries[k + 1] == cs[k].key
  }

  function OnSide<T>(cs: seq<Tree<T>>, side: seq<int>): seq<Tree<T>>
    requires forall k | 0 <= k < |side| :: 0 < side[k] <= |cs|
  {
    seq(|side|, k requires 0 <= k < |side| => cs[side[k] - 1])
  }

  /** A node over the union of its children's keys is built. */
  lemma {:induction false} UnionBuilt<T(!new)>(cs: seq<Tree<T>>, key: Key, hash: T -> int, n: nat)
    requires (forall k | 0 <= k < |cs| :: Built(cs[k], hash, n)) && Sized(key, n)
    requires forall i | 0 <= i < 8 * n :: Has(key, i) <==> exists k | 0 <= k < |cs| :: Has(cs[k].key, i)
    ensures Built(Node(cs, key), hash, n)
  {
    forall i | 0 <= i < 8 * n ensures Has(key, i) <==> exists c | c in cs :: Has(c.key, i) {
      if Has(key, i) {
        var k :| 0 <= k < |cs| && Has(cs[k].key, i);
        assert cs[k] in cs;
      }
    }
  }

  /** So is each half of a split page. */
  lemma {:induction false} SplitBuilt<T(!new)>(cs: seq<Tree<T>>, entries: seq<Key>, side: seq<int>, datum: Key,
      hash: T -> int, n: nat)
    requires PageOf(entries, cs) && forall k | 0 <= k < |cs| :: Built(cs[k], hash, n)
    requires UnionOf(datum, entries, side, n)
    ensures (forall k | 0 <= k < |side| :: 0 < side[k] <= |cs|) && Built(Node(OnSide(cs, side), datum), hash, n)
  {
    var half := OnSide(cs, side);
    assert forall k | 0 <= k < |half| :: half[k].key == entries[side[k] - 1 + 1];
    forall i | 0 <= i < 8 * n ensures Has(datum, i) <==> exists k | 0 <= k < |half| :: Has(half[k].key, i) {
      if SideHas(entries, side, i) {
        var k :| 0 <= k < |side| && Has(entries[side[k]], i);
        assert half[k].key == entries[side[k]];
      }
    }
    UnionBuilt(half, datum, hash, n);
  }
}
