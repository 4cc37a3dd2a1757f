/** Operations that write a new packed map (contrib/hstore/hstore_op.c): the deletions and
    concatenation, all single passes over sorted entries. */
module HStoreOps {
  import opened Options
  import opened Int32
  import opened Lex
  import opened HStoreLayout
  import opened HStoreBuild
  import opened HStoreMap
  import opened HStoreUnique
  import opened HStoreFind

  // ---------------------------------------------------------------- copying one pair

  /** A key and its value lie side by side. */
  lemma {:induction false} PairSub(m: seq<int>, off: int, p: Pair)
    requires PairLies(m, off, p)
    ensures Sub(m, off, |p.key| + |ValBytes(p)|) == p.key + ValBytes(p)
  {
    LiesSub(m, off, p.key);
    LiesSub(m, off + |p.key|, ValBytes(p));
    assert Sub(m, off, |p.key| + |ValBytes(p)|) == Sub(m, off, |p.key|) + Sub(m, off + |p.key|, |ValBytes(p)|);
  }

  lemma {:induction false} KeyOffset(h: HStore, ps: seq<Pair>, i: nat)
    requires Rep(h, ps) && i < |ps|
    ensures Readable(ArrPtr(h), 2 * i) && StrPtr(h) + Off(ArrPtr(h), 2 * i) == Place(8 * |ps|, ps, i)
    ensures PairLies(h.area, Place(8 * |ps|, ps, i), ps[i])
  {
    assert EntriesAt(ArrPtr(h), ps, i) && (i > 0 ==> EntriesAt(ArrPtr(h), ps, i - 1));
    KeyPlace(ArrPtr(h), ps, i);
    assert StringsAt(h.area, StrPtr(h), ps, i);
  }

  /** The bytes of a key and its value, read in one piece. */
  method ReadBoth(h: HStore, i: nat, klen: nat, vlen: nat, ghost ps: seq<Pair>) returns (src: seq<int>)
    requires Rep(h, ps) && i < |ps| && klen == |ps[i].key| && vlen == |ValBytes(ps[i])|
    ensures src == ps[i].key + ValBytes(ps[i])
  {
    KeyOffset(h, ps, i);
    PairSub(h.area, Place(8 * |ps|, ps, i), ps[i]);
    src := Sub(h.area, StrPtr(h) + Off(ArrPtr(h), 2 * i), klen + vlen);
  }

  method CopyPair(b: Builder, h: HStore, i: nat, ghost ps: seq<Pair>)
    requires b.Valid() && Rep(h, ps) && i < |ps| && |b.items| < b.cap
    requires b.ptr + |ps[i].key| + |ValBytes(ps[i])| <= b.mem.Length
    modifies b, b.mem
    ensures b.Valid() && b.items == old(b.items) + [ps[i]]
  {
    var key := ReadKey(h, i, ps);
    var vnull, val := ReadVal(h, i, ps);
    var src := ReadBoth(h, i, |key|, |val|, ps);
    b.CopyItem(src, |key|, |val|, vnull, ps[i]);
  }

  // ---------------------------------------------------------------- one pass over a list

  /** Pairs taken from the first `i` of a list, in order, taking no more room. */
  ghost predicate Picked(items: seq<Pair>, ps: seq<Pair>, i: nat)
  {
    && i <= |ps| && |items| <= i && Sorted(items)
    && Place(0, items, |items|) <= Place(0, ps, i)
    && (i < |ps| ==> Under(items, |items|, ps[i].key))
  }

  lemma {:induction false} PickNext(items: seq<Pair>, ps: seq<Pair>, i: nat)
    requires Sorted(ps) && Picked(items, ps, i) && i < |ps|
    ensures Picked(items, ps, i + 1) && Picked(items + [ps[i]], ps, i + 1)
  {
    var its := items + [ps[i]];
    SortedGrows(items, ps[i]);
    StrLenSame(items, its, |items|);
    if i + 1 < |ps| {
      UnderTrans(items, |items|, ps[i].key, ps[i + 1].key);
      assert Under(its, |its|, ps[i + 1].key);
    }
  }

  /** There is room for the next pair. */
  lemma {:induction false} PickRoom(items: seq<Pair>, ps: seq<Pair>, i: nat, base: nat)
    requires Picked(items, ps, i) && i < |ps|
    ensures Place(base, items, |items|) + |ps[i].key| + |ValBytes(ps[i])| <= Place(base, ps, |ps|)
  {
    StrLenMonotone(ps, i + 1, |ps|);
  }

  /** An hstore under construction with room for as much as `h` holds. */
  ghost predicate Copying(b: Builder, h: HStore, ps: seq<Pair>)
    reads b, b.mem
  {
    b.Valid() && b.cap == |ps| && b.mem.Length == |h.area| == Place(8 * |ps|, ps, |ps|)
  }

  method CopyNext(b: Builder, h: HStore, i: nat, ghost ps: seq<Pair>)
    requires Canonical(h, ps) && Copying(b, h, ps) && Picked(b.items, ps, i) && i < |ps|
    modifies b, b.mem
    ensures Copying(b, h, ps) && b.items == old(b.items) + [ps[i]] && Picked(b.items, ps, i + 1)
  {
    PickRoom(b.items, ps, i, 8 * |ps|);
    PickNext(b.items, ps, i);
    CopyPair(b, h, i, ps);
  }

  method NewCopy(h: HStore, ghost ps: seq<Pair>) returns (b: Builder)
    requires Rep(h, ps)
    ensures fresh(b) && fresh(b.mem) && Copying(b, h, ps) && b.items == []
  {
    b := new Builder(|h.area|, Count(h));
  }

  /** A copy of the whole, its size set anew from the last entry. */
  method CopyWhole(h: HStore, ghost ps: seq<Pair>) returns (r: HStore)
    requires Rep(h, ps)
    ensures r == h
  {
    var count := Count(h);
    var bl := if count > 0 then ArrPtr(h)[2 * count - 1].pos else 0;
    if count > 0 {
      ghost var i := count - 1;
      assert EntriesAt(ArrPtr(h), ps, i);
    }
    r := HStore(count + NEWVERSION, h.area[..8 * count + bl]);
  }

  // ---------------------------------------------------------------- deleting keys

  /** The pairs picked so far are those whose key is not in the set. */
  ghost predicate Removed(items: seq<Pair>, ps: seq<Pair>, i: nat, s: set<Bytes>)
  {
    Picked(items, ps, i) && AsMap(items) == MapOf(ps, i) - s
  }

  lemma {:induction false} RemoveSkip(items: seq<Pair>, ps: seq<Pair>, i: nat, s: set<Bytes>)
    requires Sorted(ps) && Removed(items, ps, i, s) && i < |ps| && ps[i].key in s
    ensures Removed(items, ps, i + 1, s)
  {
    PickNext(items, ps, i);
  }

  lemma {:induction false} RemoveTake(items: seq<Pair>, ps: seq<Pair>, i: nat, s: set<Bytes>)
    requires Sorted(ps) && Removed(items, ps, i, s) && i < |ps| && ps[i].key !in s
    ensures Removed(items + [ps[i]], ps, i + 1, s)
  {
    PickNext(items, ps, i);
    MapGrows(items, ps[i]);
  }

  /** hstore_delete: the map without one key. */
  method Delete(h: HStore, key: Bytes, ghost m: Map) returns (r: HStore)
    requires Denotes(h, m)
    ensures Denotes(r, m - {key})
  {
    ghost var ps: seq<Pair> :| Canonical(h, ps) && AsMap(ps) == m;
    r := DeleteFrom(h, key, ps, {key});
  }

  method DeleteFrom(h: HStore, key: Bytes, ghost ps: seq<Pair>, ghost s: set<Bytes>) returns (r: HStore)
    requires Canonical(h, ps) && forall k :: k in s <==> k == key
    ensures Denotes(r, AsMap(ps) - s)
  {
    var b := NewCopy(h, ps);
    var outcount := 0;
    for i := 0 to Count(h)
      invariant fresh(b) && fresh(b.mem) && Copying(b, h, ps)
      invariant Removed(b.items, ps, i, s) && outcount == |b.items|
    {
      var k := ReadKey(h, i, ps);
      CmpZero(k, key);
      if !(|k| == |key| && Cmp(k, key) == 0) {
        RemoveTake(b.items, ps, i, s);
        CopyNext(b, h, i, ps);
        outcount := outcount + 1;
      } else {
        RemoveSkip(b.items, ps, i, s);
      }
    }
    r := b.Finalize(outcount);
    assert Canonical(r, b.items);
  }

  /** The first `j` keys lie below the next pair. */
  lemma {:induction false} KeyAbsent(ps: seq<Pair>, i: nat, ks: seq<Pair>, j: nat)
    requires Sorted(ks) && i < |ps| && j <= |ks| && Under(ks, j, ps[i].key)
    requires (j < |ks| ==> KeyLt(ps[i].key, ks[j].key))
    ensures ps[i].key !in Keys(ks)
  {
    var k := ps[i].key;
    forall t | 0 <= t < |ks| ensures ks[t].key != k {
      if t < j {
        KeyApart(ks[t].key, k);
      } else {
        if j < t {
          KeyTrans(k, ks[j].key, ks[t].key);
        }
        KeyApart(k, ks[t].key);
      }
    }
  }

  /** Both lists one step on, or the first alone. */
  lemma {:induction false} UnderNext(ks: seq<Pair>, j: nat, ps: seq<Pair>, i: nat)
    requires Sorted(ps) && i < |ps| && j <= |ks| && Under(ks, j, ps[i].key)
    ensures i + 1 < |ps| ==> Under(ks, j, ps[i + 1].key)
    ensures i + 1 < |ps| && j < |ks| && ks[j].key == ps[i].key ==> Under(ks, j + 1, ps[i + 1].key)
  {
    if i + 1 < |ps| {
      UnderTrans(ks, j, ps[i].key, ps[i + 1].key);
    }
  }

  /** The state of the merge with a sorted list of keys. */
  ghost predicate Sifted(items: seq<Pair>, ps: seq<Pair>, i: nat, ks: seq<Pair>, j: nat)
  {
    Removed(items, ps, i, Keys(ks)) && j <= |ks| && (i < |ps| ==> Under(ks, j, ps[i].key))
  }

  lemma {:induction false} SiftPass(items: seq<Pair>, ps: seq<Pair>, i: nat, ks: seq<Pair>, j: nat)
    requires Sifted(items, ps, i, ks, j) && i < |ps| && j < |ks| && KeyCmp(ps[i].key, ks[j].key) > 0
    ensures Sifted(items, ps, i, ks, j + 1)
  {
    KeyFlip(ps[i].key, ks[j].key);
  }

  lemma {:induction false} SiftDrop(items: seq<Pair>, ps: seq<Pair>, i: nat, ks: seq<Pair>, j: nat)
    requires Sorted(ps) && Sifted(items, ps, i, ks, j) && i < |ps| && j < |ks| && KeyCmp(ps[i].key, ks[j].key) == 0
    ensures Sifted(items, ps, i + 1, ks, j + 1)
  {
    KeyZero(ps[i].key, ks[j].key);
    assert ks[j] in ks;
    RemoveSkip(items, ps, i, Keys(ks));
    UnderNext(ks, j, ps, i);
  }

  lemma {:induction false} SiftTake(items: seq<Pair>, ps: seq<Pair>, i: nat, ks: seq<Pair>, j: nat)
    requires Sorted(ps) && Sorted(ks) && Sifted(items, ps, i, ks, j) && i < |ps|
    requires j < |ks| ==> KeyCmp(ps[i].key, ks[j].key) < 0
    ensures Sifted(items + [ps[i]], ps, i + 1, ks, j)
  {
    KeyAbsent(ps, i, ks, j);
    RemoveTake(items, ps, i, Keys(ks));
    UnderNext(ks, j, ps, i);
  }

  /** hstore_delete_array: the map without the keys of an array. */
  method DeleteArray(h: HStore, keys: seq<Option<Bytes>>, ghost m: Map) returns (r: Option<HStore>)
    requires Denotes(h, m)
    ensures r.None? <==> |keys| > MAXALLOC / PAIRSIZE
    ensures r.Some? ==> Denotes(r.value, m - Named(keys))
  {
    ghost var ps: seq<Pair> :| Canonical(h, ps) && AsMap(ps) == m;
    var pairs := ArrayToPairs(keys);
    if pairs.None? {
      return None;
    }
    var ks := pairs.value;
    if |ks| == 0 {
      var c := CopyWhole(h, ps);
      assert m - Named(keys) == m;
      return Some(c);
    }
    var out := DeleteSorted(h, ks, ps);
    r := Some(out);
  }

  method DeleteSorted(h: HStore, ks: seq<Pair>, ghost ps: seq<Pair>) returns (r: HStore)
    requires Canonical(h, ps) && Sorted(ks)
    ensures Denotes(r, AsMap(ps) - Keys(ks))
  {
    var b := NewCopy(h, ps);
    var outcount, i, j := 0, 0, 0;
    while i < Count(h)
      invariant fresh(b) && fresh(b.mem) && Copying(b, h, ps)
      invariant 0 <= i && 0 <= j && Sifted(b.items, ps, i, ks, j) && outcount == |b.items|
      decreases |ps| - i + |ks| - j
    {
      var take, i', j' := SiftTurn(h, i, ks, j, ps, b.items);
      if take {
        CopyNext(b, h, i, ps);
        outcount := outcount + 1;
      }
      i, j := i', j';
    }
    r := b.Finalize(outcount);
    assert Canonical(r, b.items);
  }

  /** One turn of the merge: whether the next pair is taken, and which list moves on. */
  method SiftTurn(h: HStore, i: nat, ks: seq<Pair>, j: nat, ghost ps: seq<Pair>, ghost items: seq<Pair>)
    returns (take: bool, i': nat, j': nat)
    requires Canonical(h, ps) && Sorted(ks) && Sifted(items, ps, i, ks, j) && i < |ps|
    ensures Sifted(if take then items + [ps[i]] else items, ps, i', ks, j') && i' + j' > i + j
  {
    var k := ReadKey(h, i, ps);
    var difference := if j >= |ks| then -1 else KeyCmp(k, ks[j].key);
    if difference > 0 {
      SiftPass(items, ps, i, ks, j);
      take, i', j' := false, i, j + 1;
    } else if difference == 0 {
      SiftDrop(items, ps, i, ks, j);
      take, i', j' := false, i + 1, j + 1;
    } else {
      SiftTake(items, ps, i, ks, j);
      take, i', j' := true, i + 1, j;
    }
  }

  // ---------------------------------------------------------------- deleting equal pairs

  /** The map without the pairs it shares with another. */
  ghost function Minus(m: Map, t: Map): Map
  {
    map k | k in m && !(k in t && t[k] == m[k]) :: m[k]
  }

  ghost predicate Differed(items: seq<Pair>, ps: seq<Pair>, i: nat, t: Map)
  {
    Picked(items, ps, i) && AsMap(items) == Minus(MapOf(ps, i), t)
  }

  lemma {:induction false} DifferSkip(items: seq<Pair>, ps: seq<Pair>, i: nat, t: Map)
    requires Sorted(ps) && Differed(items, ps, i, t) && i < |ps| && Has(t, ps[i])
    ensures Differed(items, ps, i + 1, t)
  {
    PickNext(items, ps, i);
    MapMisses(ps, i, ps[i].key);
  }

  lemma {:induction false} DifferTake(items: seq<Pair>, ps: seq<Pair>, i: nat, t: Map)
    requires Sorted(ps) && Differed(items, ps, i, t) && i < |ps| && !Has(t, ps[i])
    ensures Differed(items + [ps[i]], ps, i + 1, t)
  {
    PickNext(items, ps, i);
    MapGrows(items, ps[i]);
  }

  lemma {:induction false} NotAKey(ps: seq<Pair>, i: nat, qs: seq<Pair>, j: nat)
    requires Sorted(qs) && i < |ps| && j <= |qs| && Under(qs, j, ps[i].key)
    requires (j < |qs| ==> KeyLt(ps[i].key, qs[j].key))
    ensures ps[i].key !in AsMap(qs)
  {
    if j < |qs| {
      OverMiddle(qs, j, ps[i].key);
    }
    NotThere(qs, j, ps[i].key);
  }

  /** The state of the merge with the other map. */
  ghost predicate Sieved(items: seq<Pair>, ps: seq<Pair>, i: nat, qs: seq<Pair>, j: nat)
  {
    Differed(items, ps, i, AsMap(qs)) && j <= |qs| && (i < |ps| ==> Under(qs, j, ps[i].key))
  }

  lemma {:induction false} SievePass(items: seq<Pair>, ps: seq<Pair>, i: nat, qs: seq<Pair>, j: nat)
    requires Sieved(items, ps, i, qs, j) && i < |ps| && j < |qs| && KeyCmp(ps[i].key, qs[j].key) > 0
    ensures Sieved(items, ps, i, qs, j + 1)
  {
    KeyFlip(ps[i].key, qs[j].key);
  }

  lemma {:induction false} SieveBoth(items: seq<Pair>, ps: seq<Pair>, i: nat, qs: seq<Pair>, j: nat)
    requires Sorted(ps) && Sorted(qs) && Sieved(items, ps, i, qs, j) && i < |ps| && j < |qs| && ps[i].key == qs[j].key
    ensures ps[i].val == qs[j].val ==> Sieved(items, ps, i + 1, qs, j + 1)
    ensures ps[i].val != qs[j].val ==> Sieved(items + [ps[i]], ps, i + 1, qs, j + 1)
  {
    MapHas(qs, |qs|, j);
    UnderNext(qs, j, ps, i);
    if ps[i].val == qs[j].val {
      DifferSkip(items, ps, i, AsMap(qs));
    } else {
      DifferTake(items, ps, i, AsMap(qs));
    }
  }

  lemma {:induction false} SieveTake(items: seq<Pair>, ps: seq<Pair>, i: nat, qs: seq<Pair>, j: nat)
    requires Sorted(ps) && Sorted(qs) && Sieved(items, ps, i, qs, j) && i < |ps|
    requires j < |qs| ==> KeyCmp(ps[i].key, qs[j].key) < 0
    ensures Sieved(items + [ps[i]], ps, i + 1, qs, j)
  {
    NotAKey(ps, i, qs, j);
    DifferTake(items, ps, i, AsMap(qs));
    UnderNext(qs, j, ps, i);
  }

  /** hstore_delete_hstore: the map without the pairs the second map has too. */
  method DeleteHstore(h: HStore, h2: HStore, ghost m: Map, ghost t: Map) returns (r: HStore)
    requires Denotes(h, m) && Denotes(h2, t)
    ensures Denotes(r, Minus(m, t))
  {
    ghost var ps: seq<Pair> :| Canonical(h, ps) && AsMap(ps) == m;
    ghost var qs: seq<Pair> :| Canonical(h2, qs) && AsMap(qs) == t;
    if Count(h2) == 0 {
      r := CopyWhole(h, ps);
      assert Minus(m, t) == m;
      return;
    }
    r := DeleteShared(h, h2, ps, qs);
  }

  method DeleteShared(h: HStore, h2: HStore, ghost ps: seq<Pair>, ghost qs: seq<Pair>) returns (r: HStore)
    requires Canonical(h, ps) && Canonical(h2, qs)
    ensures Denotes(r, Minus(AsMap(ps), AsMap(qs)))
  {
    var b := NewCopy(h, ps);
    var outcount, i, j := 0, 0, 0;
    while i < Count(h)
      invariant fresh(b) && fresh(b.mem) && Copying(b, h, ps)
      invariant 0 <= i && 0 <= j && Sieved(b.items, ps, i, qs, j) && outcount == |b.items|
      decreases |ps| - i + |qs| - j
    {
      var take, i', j' := SieveTurn(h, i, h2, j, ps, qs, b.items);
      if take {
        CopyNext(b, h, i, ps);
        outcount := outcount + 1;
      }
      i, j := i', j';
    }
    r := b.Finalize(outcount);
    assert Canonical(r, b.items);
  }

  /** One turn of the merge: whether the next pair is taken, and which list moves on. */
  method SieveTurn(h: HStore, i: nat, h2: HStore, j: nat, ghost ps: seq<Pair>, ghost qs: seq<Pair>,
      ghost items: seq<Pair>)
    returns (take: bool, i': nat, j': nat)
    requires Canonical(h, ps) && Canonical(h2, qs) && Sieved(items, ps, i, qs, j) && i < |ps|
    ensures Sieved(if take then items + [ps[i]] else items, ps, i', qs, j') && i' + j' > i + j
  {
    var difference := Compare(h, i, h2, j, ps, qs);
    if difference > 0 {
      SievePass(items, ps, i, qs, j);
      take, i', j' := false, i, j + 1;
    } else if difference == 0 {
      var same := SameVal(h, i, h2, j, ps, qs);
      SieveBoth(items, ps, i, qs, j);
      take, i', j' := !same, i + 1, j + 1;
    } else {
      SieveTake(items, ps, i, qs, j);
      take, i', j' := true, i + 1, j;
    }
  }

  /** The order of the next keys of two lists, where the second may have ended. */
  method Compare(h: HStore, i: nat, h2: HStore, j: nat, ghost ps: seq<Pair>, ghost qs: seq<Pair>)
    returns (difference: int)
    requires Rep(h, ps) && Rep(h2, qs) && i < |ps| && j <= |qs|
    ensures if j == |qs| then difference < 0 else difference == KeyCmp(ps[i].key, qs[j].key)
    ensures difference == 0 ==> j < |qs| && ps[i].key == qs[j].key
  {
    if j >= Count(h2) {
      return -1;
    }
    var k := ReadKey(h, i, ps);
    var l := ReadKey(h2, j, qs);
    KeyZero(k, l);
    difference := if |k| == |l| then Cmp(k, l) else if |k| > |l| then 1 else -1;
  }

  // ---------------------------------------------------------------- concatenation

  /** Both lists merged up to two places: in order, the second list winning, room for all. */
  ghost predicate Merged(items: seq<Pair>, ps: seq<Pair>, i: nat, qs: seq<Pair>, j: nat)
  {
    && i <= |ps| && j <= |qs| && |items| <= i + j && Sorted(items)
    && Place(0, items, |items|) <= Place(0, ps, i) + Place(0, qs, j)
    && (i < |ps| ==> Under(items, |items|, ps[i].key) && Under(qs, j, ps[i].key))
    && (j < |qs| ==> Under(items, |items|, qs[j].key) && Under(ps, i, qs[j].key))
    && AsMap(items) == MapOf(ps, i) + MapOf(qs, j)
  }

  /** A pair taken from one list lies below the rest of either. */
  lemma {:induction false} UnderTaken(items: seq<Pair>, p: Pair, ps: seq<Pair>, i: nat)
    requires Under(items, |items|, p.key) && (i < |ps| ==> KeyLt(p.key, ps[i].key))
    ensures i < |ps| ==> Under(items + [p], |items| + 1, ps[i].key)
  {
    if i < |ps| {
      UnderTrans(items, |items|, p.key, ps[i].key);
    }
  }

  lemma {:induction false} TakeSecond(items: seq<Pair>, ps: seq<Pair>, i: nat, qs: seq<Pair>, j: nat)
    requires Sorted(qs) && Merged(items, ps, i, qs, j) && j < |qs| && (i < |ps| ==> KeyLt(qs[j].key, ps[i].key))
    ensures Merged(items + [qs[j]], ps, i, qs, j + 1)
  {
    var p := qs[j];
    SortedGrows(items, p);
    StrLenSame(items, items + [p], |items|);
    UnderTaken(items, p, ps, i);
    UnderTaken(items, p, qs, j + 1);
    UnderNext(ps, i, qs, j);
    MapGrows(items, p);
  }

  lemma {:induction false} TakeFirst(items: seq<Pair>, ps: seq<Pair>, i: nat, qs: seq<Pair>, j: nat)
    requires Sorted(ps) && Merged(items, ps, i, qs, j) && i < |ps| && (j < |qs| ==> KeyLt(ps[i].key, qs[j].key))
    ensures Merged(items + [ps[i]], ps, i + 1, qs, j)
  {
    var p := ps[i];
    SortedGrows(items, p);
    StrLenSame(items, items + [p], |items|);
    UnderTaken(items, p, ps, i + 1);
    UnderTaken(items, p, qs, j);
    UnderNext(qs, j, ps, i);
    MapGrows(items, p);
    MapMisses(qs, j, p.key);
  }

  lemma {:induction false} TakeEqual(items: seq<Pair>, ps: seq<Pair>, i: nat, qs: seq<Pair>, j: nat)
    requires Sorted(ps) && Sorted(qs) && Merged(items, ps, i, qs, j) && i < |ps| && j < |qs| && ps[i].key == qs[j].key
    ensures Merged(items + [qs[j]], ps, i + 1, qs, j + 1)
  {
    var p := qs[j];
    SortedGrows(items, p);
    StrLenSame(items, items + [p], |items|);
    UnderTaken(items, p, ps, i + 1);
    UnderTaken(items, p, qs, j + 1);
    UnderNext(qs, j, ps, i);
    UnderNext(ps, i, qs, j);
    MapGrows(items, p);
  }

  /** There is room for the next pair of either list. */
  lemma {:induction false} MergeRoom(items: seq<Pair>, ps: seq<Pair>, i: nat, qs: seq<Pair>, j: nat, base: nat)
    requires Merged(items, ps, i, qs, j)
    ensures i < |ps| ==>
      Place(base, items, |items|) + |ps[i].key| + |ValBytes(ps[i])| <= base + Place(0, ps, |ps|) + Place(0, qs, |qs|)
    ensures j < |qs| ==>
      Place(base, items, |items|) + |qs[j].key| + |ValBytes(qs[j])| <= base + Place(0, ps, |ps|) + Place(0, qs, |qs|)
  {
    StrLenMonotone(ps, i, |ps|);
    StrLenMonotone(qs, j, |qs|);
    if i < |ps| {
      StrLenMonotone(ps, i + 1, |ps|);
    }
    if j < |qs| {
      StrLenMonotone(qs, j + 1, |qs|);
    }
  }

  /** An hstore under construction with room for both. */
  ghost predicate Joining(b: Builder, ps: seq<Pair>, qs: seq<Pair>)
    reads b, b.mem
  {
    && b.Valid() && b.cap == |ps| + |qs|
    && b.mem.Length >= 8 * (|ps| + |qs|) + Place(0, ps, |ps|) + Place(0, qs, |qs|)
  }

  /** The next keys of two lists, where either may have ended. */
  method CompareEnds(h: HStore, i: nat, h2: HStore, j: nat, ghost ps: seq<Pair>, ghost qs: seq<Pair>)
    returns (difference: int)
    requires Rep(h, ps) && Rep(h2, qs) && i <= |ps| && j <= |qs| && (i < |ps| || j < |qs|)
    ensures if i == |ps| then difference > 0 else if j == |qs| then difference < 0
      else difference == KeyCmp(ps[i].key, qs[j].key)
  {
    if i >= Count(h) {
      difference := 1;
    } else {
      difference := Compare(h, i, h2, j, ps, qs);
    }
  }

  /** hstore_concat: the first map overridden by the second; too large together is an error. */
  method Concat(s1: HStore, s2: HStore, ghost m: Map, ghost t: Map) returns (r: Option<HStore>)
    requires Denotes(s1, m) && Denotes(s2, t)
    ensures r.None? <==> HEADER + |s1.area| + HEADER + |s2.area| > MAXALLOC
    ensures r.Some? ==> Denotes(r.value, m + t)
  {
    ghost var ps: seq<Pair> :| Canonical(s1, ps) && AsMap(ps) == m;
    ghost var qs: seq<Pair> :| Canonical(s2, qs) && AsMap(qs) == t;
    if HEADER + |s1.area| + HEADER + |s2.area| > MAXALLOC {
      return None;
    }
    if Count(s1) == 0 {
      var c := CopyWhole(s2, qs);
      assert m + t == t;
      return Some(c);
    }
    if Count(s2) == 0 {
      var c := CopyWhole(s1, ps);
      assert m + t == m;
      return Some(c);
    }
    var out := Merge(s1, s2, ps, qs);
    r := Some(out);
  }

  method Merge(s1: HStore, s2: HStore, ghost ps: seq<Pair>, ghost qs: seq<Pair>) returns (r: HStore)
    requires Canonical(s1, ps) && Canonical(s2, qs) && HEADER + |s1.area| + HEADER + |s2.area| <= MAXALLOC
    ensures Denotes(r, AsMap(ps) + AsMap(qs))
  {
    var b := NewJoin(s1, s2, ps, qs);
    var outcount, i, j := 0, 0, 0;
    while i < Count(s1) || j < Count(s2)
      invariant fresh(b) && fresh(b.mem) && Joining(b, ps, qs)
      invariant 0 <= i && 0 <= j && Merged(b.items, ps, i, qs, j) && outcount == |b.items|
      decreases |ps| - i + |qs| - j
    {
      var second, i', j' := MergeTurn(s1, i, s2, j, ps, qs, b.items);
      CopyEither(b, s1, i, s2, j, second, ps, qs);
      i, j, outcount := i', j', outcount + 1;
    }
    r := b.Finalize(outcount);
    assert Canonical(r, b.items);
  }

  /** One turn of the merge: which list the next pair comes from, and which list moves on. */
  method MergeTurn(s1: HStore, i: nat, s2: HStore, j: nat, ghost ps: seq<Pair>, ghost qs: seq<Pair>,
      ghost items: seq<Pair>)
    returns (second: bool, i': nat, j': nat)
    requires Canonical(s1, ps) && Canonical(s2, qs) && Merged(items, ps, i, qs, j) && (i < |ps| || j < |qs|)
    ensures (if second then j < |qs| else i < |ps|) && i' + j' > i + j
    ensures Merged(items + [if second then qs[j] else ps[i]], ps, i', qs, j')
  {
    var difference := CompareEnds(s1, i, s2, j, ps, qs);
    if difference >= 0 {
      TakeHigher(items, ps, i, qs, j);
      second, i', j' := true, if difference == 0 then i + 1 else i, j + 1;
    } else {
      TakeFirst(items, ps, i, qs, j);
      second, i', j' := false, i + 1, j;
    }
  }

  method CopyEither(b: Builder, s1: HStore, i: nat, s2: HStore, j: nat, second: bool, ghost ps: seq<Pair>,
      ghost qs: seq<Pair>)
    requires Rep(s1, ps) && Rep(s2, qs) && Joining(b, ps, qs) && Merged(b.items, ps, i, qs, j)
    requires if second then j < |qs| else i < |ps|
    modifies b, b.mem
    ensures Joining(b, ps, qs) && b.items == old(b.items) + [if second then qs[j] else ps[i]]
  {
    MergeRoom(b.items, ps, i, qs, j, 8 * b.cap);
    if second {
      CopyPair(b, s2, j, qs);
    } else {
      CopyPair(b, s1, i, ps);
    }
  }

  lemma {:induction false} TakeHigher(items: seq<Pair>, ps: seq<Pair>, i: nat, qs: seq<Pair>, j: nat)
    requires Sorted(ps) && Sorted(qs) && Merged(items, ps, i, qs, j) && j < |qs|
    requires i < |ps| ==> KeyCmp(ps[i].key, qs[j].key) >= 0
    ensures Merged(items + [qs[j]], ps, if i < |ps| && KeyCmp(ps[i].key, qs[j].key) == 0 then i + 1 else i, qs, j + 1)
  {
    if i < |ps| && KeyCmp(ps[i].key, qs[j].key) == 0 {
      KeyZero(ps[i].key, qs[j].key);
      TakeEqual(items, ps, i, qs, j);
    } else {
      if i < |ps| {
        KeyFlip(ps[i].key, qs[j].key);
      }
      TakeSecond(items, ps, i, qs, j);
    }
  }

  method NewJoin(s1: HStore, s2: HStore, ghost ps: seq<Pair>, ghost qs: seq<Pair>) returns (b: Builder)
    requires Rep(s1, ps) && Rep(s2, qs) && HEADER + |s1.area| + HEADER + |s2.area| <= MAXALLOC
    ensures fresh(b) && fresh(b.mem) && Joining(b, ps, qs) && b.items == []
  {
    b := new Builder(|s1.area| + HEADER + |s2.area|, Count(s1) + Count(s2));
  }
}
