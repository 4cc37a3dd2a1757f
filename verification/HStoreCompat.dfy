/** Reading hstores written in the older layout (contrib/hstore/hstore_compat.c): the validity
    test, and the conversion that overwrites each old entry with two new ones in place. */
module HStoreCompat {
  import opened Options
  import opened Int32
  import opened Lex
  import opened HStoreLayout
  import opened HStoreBuild

  /** An old entry: two 16-bit lengths, then one bit for null and 31 bits of position. */
  datatype Old = Old(keylen: int, vallen: int, isnull: bool, pos: int)

  function Half(a: int, b: int): int { a + 0x100 * b }

  function FromWords(k: int, v: int, w: int): Old { Old(k, v, w % 2 == 1, w / 2) }

  /** The i-th old entry in a run of bytes. */
  function OldAt(m: seq<int>, i: nat): Old
    requires 8 * i + 8 <= |m|
  {
    var k := 8 * i;
    FromWords(Half(m[k], m[k + 1]), Half(m[k + 2], m[k + 3]), Word(m[k + 4], m[k + 5], m[k + 6], m[k + 7]))
  }

  lemma {:induction false} OldRange(m: seq<int>, i: nat)
    requires InRange(m) && 8 * i + 8 <= |m|
    ensures var o := OldAt(m, i); 0 <= o.keylen < 0x1_0000 && 0 <= o.vallen < 0x1_0000 && 0 <= o.pos <= INT_MAX
  {
  }

  /** The eight bytes of an old entry: two lengths, then the position with the null mark below it,
      low bytes first. */
  function OldBytes(o: Old): seq<int>
  {
    var w := 2 * o.pos + if o.isnull then 1 else 0;
    [o.keylen % 0x100, o.keylen / 0x100, o.vallen % 0x100, o.vallen / 0x100,
     WordByte(w, 0), WordByte(w, 1), WordByte(w, 2), WordByte(w, 3)]
  }

  /** Every old entry is read from its bytes. */
  lemma {:induction false} OldReads(o: Old)
    requires 0 <= o.keylen < 0x1_0000 && 0 <= o.vallen < 0x1_0000 && 0 <= o.pos <= INT_MAX
    ensures InRange(OldBytes(o)) && OldAt(OldBytes(o), 0) == o
  {
    var w := 2 * o.pos + if o.isnull then 1 else 0;
    WordBytes(w);
    assert w % 2 == (if o.isnull then 1 else 0) && w / 2 == o.pos;
  }

  function OldVal(o: Old): int { if o.isnull then 0 else o.vallen }

  /** The bytes the strings of the first `i` entries take. */
  function Total(m: seq<int>, i: nat): int
    requires 8 * i <= |m|
  {
    if i == 0 then 0 else Total(m, i - 1) + OldAt(m, i - 1).keylen + OldVal(OldAt(m, i - 1))
  }

  lemma {:induction false} TotalMonotone(m: seq<int>, i: nat, j: nat)
    requires InRange(m) && i <= j && 8 * j <= |m|
    ensures 0 <= Total(m, i) <= Total(m, j)
    decreases j
  {
    if i < j {
      TotalMonotone(m, i, j - 1);
      OldRange(m, j - 1);
    } else if i > 0 {
      TotalMonotone(m, i - 1, i - 1);
      OldRange(m, i - 1);
    }
  }

  // ---------------------------------------------------------------- the validity test

  /** Key lengths do not fall up to the n-th entry. */
  ghost predicate Rising(m: seq<int>, n: nat)
    requires 8 * n <= |m|
  {
    forall i | 1 <= i < n :: OldAt(m, i - 1).keylen <= OldAt(m, i).keylen
  }

  /** The first `n` strings lie one behind the other. */
  ghost predicate Contiguous(m: seq<int>, n: nat)
    requires 8 * n <= |m|
  {
    forall i | 0 <= i < n :: InPlace(m, i)
  }

  predicate InPlace(m: seq<int>, i: nat)
    requires 8 * i + 8 <= |m|
  {
    OldAt(m, i).pos == Total(m, i)
  }

  /** A value in the old layout: entries, then the strings in order; it may be padded. */
  ghost predicate OldFormat(size: int, m: seq<int>)
  {
    && size <= 0x0FFF_FFFF && 0 <= size
    && (size == 0 || (8 * size <= |m| && Rising(m, size) && Contiguous(m, size) && 8 * size + Total(m, size) <= |m|))
  }

  method RisingKeys(m: seq<int>, count: nat) returns (ok: bool)
    requires 0 < count && 8 * count <= |m|
    ensures ok <==> Rising(m, count)
  {
    for i := 1 to count
      invariant Rising(m, i)
    {
      if OldAt(m, i).keylen < OldAt(m, i - 1).keylen {
        return false;
      }
    }
    ok := true;
  }

  /** The next sum, and whether it wrapped. */
  lemma {:induction false} NextSum(m: seq<int>, i: nat)
    requires InRange(m) && 8 * i + 8 <= |m| && 0 <= Total(m, i) <= INT_MAX
    ensures 0 <= Total(m, i + 1) <= INT_MAX + 0x2_0000
    ensures Total(m, i + 1) == Total(m, i) + (OldAt(m, i).keylen + OldVal(OldAt(m, i)))
  {
    OldRange(m, i);
  }

  lemma {:induction false} WrapOnce(v: int)
    requires 0 <= v <= INT_MAX + 0x2_0000
    ensures Wrap32(v) >= 0 ==> Wrap32(v) == v
  {
  }

  /** A position that matches the running sum shows that the sum has not wrapped. */
  method CheckPosition(m: seq<int>, i: nat, lastpos: int) returns (ok: bool, lastpos': int)
    requires InRange(m) && 8 * i + 8 <= |m| && 0 <= Total(m, i) <= INT_MAX + 0x2_0000 && lastpos == Wrap32(Total(m, i))
    ensures ok <==> InPlace(m, i)
    ensures ok ==> 0 <= Total(m, i + 1) <= INT_MAX + 0x2_0000 && lastpos' == Wrap32(Total(m, i + 1))
  {
    var o := OldAt(m, i);
    OldRange(m, i);
    WrapOnce(Total(m, i));
    lastpos' := lastpos;
    ok := o.pos == lastpos;
    if ok {
      NextSum(m, i);
      lastpos' := Wrap32(lastpos + (o.keylen + OldVal(o)));
    }
  }

  method CheckPositions(m: seq<int>, count: nat) returns (ok: bool, lastpos: int)
    requires InRange(m) && 0 < count && 8 * count <= |m|
    ensures ok <==> Contiguous(m, count)
    ensures ok ==> 0 <= Total(m, count) <= INT_MAX + 0x2_0000 && lastpos == Wrap32(Total(m, count))
  {
    lastpos, ok := 0, true;
    for i := 0 to count
      invariant Contiguous(m, i) && 0 <= Total(m, i) <= INT_MAX + 0x2_0000 && lastpos == Wrap32(Total(m, i))
    {
      ok, lastpos := CheckPosition(m, i, lastpos);
      if !ok {
        return;
      }
    }
    ok := true;
  }

  /** hstoreValidOldFormat: 0 for invalid, 2 for exact, 1 for valid with slop. */
  method ValidOldFormat(size: int, m: seq<int>) returns (r: int)
    requires InRange(m) && 0 <= size < 0x1_0000_0000 && HEADER + |m| <= MAXALLOC
    ensures 0 <= r <= 2 && (r > 0 <==> OldFormat(size, m))
    ensures r > 0 ==> (r == 2 <==> size == 0 || |m| == 8 * size + Total(m, size))
  {
    if size >= NEWVERSION {
      return 0;
    }
    var count := size;
    if count == 0 {
      return 2;
    }
    if count > 0x0FFF_FFFF {
      return 0;
    }
    if 8 * count + HEADER > HEADER + |m| {
      return 0;
    }
    if OldAt(m, 0).pos != 0 {
      assert !InPlace(m, 0);
      return 0;
    }
    r := ValidEntries(count, m);
  }

  method ValidEntries(count: nat, m: seq<int>) returns (r: int)
    requires InRange(m) && 0 < count && 8 * count <= |m| && HEADER + |m| <= MAXALLOC
    ensures 0 <= r <= 2
    ensures r > 0 <==> Rising(m, count) && Contiguous(m, count) && 8 * count + Total(m, count) <= |m|
    ensures r > 0 ==> (r == 2 <==> 8 * count + Total(m, count) == |m|)
  {
    var rising := RisingKeys(m, count);
    if !rising {
      return 0;
    }
    var ok, lastpos := CheckPositions(m, count);
    if !ok {
      return 0;
    }
    r := CompareSize(8 * count + HEADER, lastpos, HEADER + |m|, Total(m, count));
  }

  /** The size of the block is unsigned, so the int is compared as an unsigned number. */
  method CompareSize(head: int, lastpos: int, varsize: int, ghost total: int) returns (r: int)
    requires 0 <= head <= MAXALLOC && 0 <= total <= INT_MAX + 0x2_0000 && lastpos == Wrap32(total)
    ensures r == if head + total > varsize then 0 else if head + total < varsize then 1 else 2
  {
    var vsize := Wrap32(head + lastpos);
    SizeUnsigned(head, total);
    if Unsigned32(vsize) > varsize {
      return 0;
    }
    r := if Unsigned32(vsize) != varsize then 1 else 2;
  }

  /** The sum may wrap as an int and the size as well; read as an unsigned number it is exact. */
  lemma {:induction false} SizeUnsigned(head: int, total: int)
    requires 0 <= head <= MAXALLOC && 0 <= total <= INT_MAX + 0x2_0000
    ensures Unsigned32(Wrap32(head + Wrap32(total))) == head + total
  {
  }

  // ---------------------------------------------------------------- what an old value holds

  function Chunk(m: seq<int>, off: int, len: int): Bytes
  {
    if 0 <= off && 0 <= len && off + len <= |m| then Sub(m, off, len) else []
  }

  function OldPair(m: seq<int>, base: int, i: nat): Pair
    requires 8 * i + 8 <= |m|
  {
    PairOf(m, base + OldAt(m, i).pos, OldAt(m, i))
  }

  function PairOf(m: seq<int>, at: int, o: Old): Pair
  {
    Pair(Chunk(m, at, o.keylen), if o.isnull then None else Some(Chunk(m, at + o.keylen, o.vallen)))
  }

  lemma {:induction false} ChunkLies(m: seq<int>, off: int, len: int)
    requires InRange(m) && 0 <= off && 0 <= len && off + len <= |m|
    ensures |Chunk(m, off, len)| == len && InRange(Chunk(m, off, len)) && Lies(m, off, Chunk(m, off, len))
  {
  }

  function OldPairs(m: seq<int>, c: nat): (ps: seq<Pair>)
    requires 8 * c <= |m|
    ensures |ps| == c && forall i | 0 <= i < c :: ps[i] == OldPair(m, 8 * c, i)
  {
    seq(c, i requires 0 <= i < c => OldPair(m, 8 * c, i))
  }

  ghost predicate OldOk(m: seq<int>, c: nat)
  {
    && InRange(m) && 8 * c <= |m| && Contiguous(m, c)
    && 8 * c + Total(m, c) <= |m| && HEADER + |m| <= MAXALLOC
  }

  /** The strings of the i-th old entry are within the block. */
  lemma {:induction false} OldSpan(m: seq<int>, c: nat, i: nat)
    requires OldOk(m, c) && i < c
    ensures var o := OldAt(m, i);
      && 0 <= o.keylen && 0 <= OldVal(o) && 0 <= o.pos == Total(m, i)
      && Total(m, i + 1) == o.pos + o.keylen + OldVal(o) <= Total(m, c) <= |m| - 8 * c
  {
    assert InPlace(m, i);
    OldRange(m, i);
    TotalMonotone(m, i + 1, c);
    TotalMonotone(m, 0, c);
  }

  /** A pair is what an old entry says, its strings in place. */
  predicate Tells(m: seq<int>, at: int, o: Old, p: Pair)
  {
    && |p.key| == o.keylen && |ValBytes(p)| == OldVal(o) && p.val.None? == o.isnull
    && PairInRange(p) && PairLies(m, at, p)
  }

  /** The pairs of an old value. */
  ghost predicate OldHolds(m: seq<int>, c: nat, ps: seq<Pair>)
  {
    OldOk(m, c) && |ps| == c && forall i | 0 <= i < c :: TellsAt(m, c, ps, i)
  }

  predicate TellsAt(m: seq<int>, c: nat, ps: seq<Pair>, i: nat)
    requires i < c == |ps| && 8 * c <= |m|
  {
    Tells(m, 8 * c + OldAt(m, i).pos, OldAt(m, i), ps[i])
  }

  lemma {:induction false} OldTells(m: seq<int>, c: nat, i: nat)
    requires OldOk(m, c) && i < c
    ensures Tells(m, 8 * c + OldAt(m, i).pos, OldAt(m, i), OldPair(m, 8 * c, i))
  {
    var o := OldAt(m, i);
    assert 0 <= 8 * c + o.pos && 0 <= o.keylen && 0 <= OldVal(o) && 8 * c + o.pos + o.keylen + OldVal(o) <= |m| by {
      OldSpan(m, c, i);
    }
    PairTells(m, 8 * c + o.pos, o);
  }

  lemma {:induction false} PairTells(m: seq<int>, at: int, o: Old)
    requires InRange(m) && 0 <= at && 0 <= o.keylen && 0 <= OldVal(o) && at + o.keylen + OldVal(o) <= |m|
    ensures Tells(m, at, o, PairOf(m, at, o))
  {
    ChunkLies(m, at, o.keylen);
    if !o.isnull {
      ChunkLies(m, at + o.keylen, o.vallen);
    }
  }

  lemma {:induction false} OldPairsHold(m: seq<int>, c: nat)
    requires OldOk(m, c)
    ensures OldHolds(m, c, OldPairs(m, c))
  {
    forall i | 0 <= i < c ensures TellsAt(m, c, OldPairs(m, c), i) {
      OldTells(m, c, i);
    }
  }

  lemma {:induction false} OldPlace(m: seq<int>, c: nat, ps: seq<Pair>, i: nat)
    requires OldHolds(m, c, ps) && i <= c
    ensures StrLen(ps, i) == Total(m, i)
  {
    if i > 0 {
      var k := i - 1;
      OldPlace(m, c, ps, k);
      OldSpan(m, c, k);
      assert TellsAt(m, c, ps, k);
    }
  }

  /** The two entries an old one turns into. */
  lemma {:induction false} NewEntries(o: Old, ps: seq<Pair>, i: nat)
    requires i < |ps| && o.pos == StrLen(ps, i) && o.keylen == |ps[i].key| && OldVal(o) == |ValBytes(ps[i])|
    requires o.isnull == ps[i].val.None? && o.pos + o.keylen + OldVal(o) < POSLIMIT
    ensures Entry((o.pos + o.keylen) % POSLIMIT, false, false) == KeyEntry(ps, i).(isfirst := false)
    ensures Entry((o.pos + o.keylen + OldVal(o)) % POSLIMIT, o.isnull, false) == ValEntry(ps, i)
  {
  }

  lemma {:induction false} EntriesOfOld(m: seq<int>, c: nat, ps: seq<Pair>, i: nat)
    requires OldHolds(m, c, ps) && i < c
    ensures var o := OldAt(m, i);
      && Entry((o.pos + o.keylen) % POSLIMIT, false, false) == KeyEntry(ps, i).(isfirst := false)
      && Entry((o.pos + o.keylen + OldVal(o)) % POSLIMIT, o.isnull, false) == ValEntry(ps, i)
  {
    OldPlace(m, c, ps, i);
    OldSpan(m, c, i);
    assert TellsAt(m, c, ps, i);
    NewEntries(OldAt(m, i), ps, i);
  }

  // ---------------------------------------------------------------- the conversion in place

  /** The first `i` entries converted, the rest of the block as it was. */
  ghost predicate Upgraded(m: seq<int>, m': seq<int>, ps: seq<Pair>, i: nat)
  {
    && i <= |ps| && 8 * |ps| <= |m| && Kept(m, m', 8 * i, |m|) && Clean(m', 0, 8 * i)
    && forall k | 0 <= k < i :: Draft(m', ps, k)
  }

  lemma {:induction false} UpgradeNext(m: seq<int>, m1: seq<int>, m2: seq<int>, m3: seq<int>, ps: seq<Pair>, i: nat)
    requires i < |ps| && Upgraded(m, m1, ps, i)
    requires Stored(m1, m2, 2 * i, KeyEntry(ps, i).(isfirst := false)) && Stored(m2, m3, 2 * i + 1, ValEntry(ps, i))
    ensures Upgraded(m, m3, ps, i + 1)
  {
    var a := 8 * i;
    assert Kept(m1, m2, 0, a) && Kept(m1, m2, a + 4, |m|) && Kept(m2, m3, 0, a + 4) && Kept(m2, m3, a + 8, |m|);
    KeptTwice(m1, m2, m3, a + 4, |m|, a + 8, |m|, a + 8, |m|);
    KeptTwice(m, m1, m3, a, |m|, a + 8, |m|, a + 8, |m|);
    KeptTwice(m1, m2, m3, 0, a, 0, a + 4, 0, a);
    KeptClean(m1, m2, 0, a, a + 4);
    KeptClean(m2, m3, 0, a + 4, a + 8);
    KeptEntry(m2, m3, 0, a + 4, 2 * i);
    forall k | 0 <= k < i + 1 ensures Draft(m3, ps, k) {
      if k < i {
        assert Draft(m1, ps, k);
        KeptEntry(m1, m3, 0, a, 2 * k);
        KeptEntry(m1, m3, 0, a, 2 * k + 1);
      }
    }
  }

  lemma {:induction false} KeptOld(m: seq<int>, m': seq<int>, lo: int, hi: int, i: nat)
    requires Kept(m, m', lo, hi) && lo <= 8 * i && 8 * i + 8 <= hi
    ensures OldAt(m', i) == OldAt(m, i)
  {
  }

  /** One old entry, read and then overwritten by its two new entries. */
  method UpgradeEntry(mem: array<int>, i: nat, ghost m: seq<int>, ghost c: nat, ghost ps: seq<Pair>)
    requires OldHolds(m, c, ps) && mem.Length == |m| && i < c && Upgraded(m, mem[..], ps, i)
    modifies mem
    ensures Upgraded(m, mem[..], ps, i + 1)
  {
    ghost var m1 := mem[..];
    var o := OldAt(mem[..], i);
    KeptOld(m, m1, 8 * i, |m|, i);
    EntriesOfOld(m, c, ps, i);
    PutPair(mem, i, o, ps);
    ghost var m2 :|
      Stored(m1, m2, 2 * i, KeyEntry(ps, i).(isfirst := false)) && Stored(m2, mem[..], 2 * i + 1, ValEntry(ps, i));
    UpgradeNext(m, m1, m2, mem[..], ps, i);
  }

  method PutPair(mem: array<int>, i: nat, o: Old, ghost ps: seq<Pair>)
    requires 8 * i + 8 <= mem.Length && i < |ps|
    requires Entry((o.pos + o.keylen) % POSLIMIT, false, false) == KeyEntry(ps, i).(isfirst := false)
    requires Entry((o.pos + o.keylen + OldVal(o)) % POSLIMIT, o.isnull, false) == ValEntry(ps, i)
    modifies mem
    ensures exists m2 :: Stored(old(mem[..]), m2, 2 * i, KeyEntry(ps, i).(isfirst := false))
                      && Stored(m2, mem[..], 2 * i + 1, ValEntry(ps, i))
  {
    var vallen := if o.isnull then 0 else o.vallen;
    PutEntry(mem, 2 * i, Entry((o.pos + o.keylen) % POSLIMIT, false, false));
    ghost var m2 := mem[..];
    PutEntry(mem, 2 * i + 1, Entry((o.pos + o.keylen + vallen) % POSLIMIT, o.isnull, false));
    assert Stored(m2, mem[..], 2 * i + 1, ValEntry(ps, i));
  }

  lemma {:induction false} TellsKept(m: seq<int>, m': seq<int>, base: nat, at: int, o: Old, ps: seq<Pair>, i: nat)
    requires i < |ps| && Kept(m, m', base, |m|) && base <= at == Place(base, ps, i) && Tells(m, at, o, ps[i])
    ensures StringsAt(m', base, ps, i) && PairInRange(ps[i])
  {
    KeptPair(m, m', base, |m|, at, ps[i]);
  }

  lemma {:induction false} OldStrings(m: seq<int>, m': seq<int>, c: nat, ps: seq<Pair>, i: nat)
    requires OldHolds(m, c, ps) && Kept(m, m', 8 * c, |m|) && i < c
    ensures StringsAt(m', 8 * c, ps, i) && PairInRange(ps[i])
  {
    OldPlace(m, c, ps, i);
    OldSpan(m, c, i);
    assert TellsAt(m, c, ps, i);
    TellsKept(m, m', 8 * c, 8 * c + OldAt(m, i).pos, OldAt(m, i), ps, i);
  }

  lemma {:induction false} UpgradedFilled(m: seq<int>, m': seq<int>, c: nat, ps: seq<Pair>)
    requires OldHolds(m, c, ps) && Upgraded(m, m', ps, c)
    ensures Filled(m', 8 * c, ps)
  {
    OldPlace(m, c, ps, c);
    TotalMonotone(m, 0, c);
    forall i | 0 <= i < c ensures StringsAt(m', 8 * c, ps, i) && PairInRange(ps[i]) {
      OldStrings(m, m', c, ps, i);
    }
    forall q | 8 * c <= q < Place(8 * c, ps, c) ensures IsByte(m'[q]) {
      assert m'[q] == m[q];
    }
  }

  /** The conversion in hstoreUpgrade: the new layout of the pairs the old value held. */
  method UpgradeOld(count: nat, area: seq<int>) returns (h: HStore)
    requires OldOk(area, count) && 0 < count < COUNTLIMIT
    ensures Rep(h, OldPairs(area, count))
  {
    OldPairsHold(area, count);
    h := Convert(count, area, OldPairs(area, count));
  }

  method Convert(count: nat, area: seq<int>, ghost ps: seq<Pair>) returns (h: HStore)
    requires OldHolds(area, count, ps) && 0 < count < COUNTLIMIT
    ensures Rep(h, ps)
  {
    var mem := new int[|area|](i requires 0 <= i < |area| => area[i]);
    assert mem[..] == area;
    for i := 0 to count
      invariant fresh(mem) && mem.Length == |area| && Upgraded(area, mem[..], ps, i)
    {
      UpgradeEntry(mem, i, area, count, ps);
    }
    ghost var m := mem[..];
    UpgradedFilled(area, m, count, ps);
    SetFirst(mem, count, ps);
    h := FixSize(mem, count, m, ps);
  }

  /** HS_SETCOUNT and HS_FIXSIZE. */
  method FixSize(mem: array<int>, count: nat, ghost m: seq<int>, ghost ps: seq<Pair>) returns (h: HStore)
    requires 0 < count == |ps| && Filled(m, 8 * count, ps) && Flagged(m, mem[..], ps) && HEADER + |m| <= MAXALLOC
    ensures Rep(h, ps)
  {
    ghost var m1 := mem[..];
    var last := 2 * count - 1;
    assert Draft(m, ps, count - 1);
    KeptEntry(m, m1, 4, |m|, last);
    var bl := EntryIn(mem[..], last).pos;
    h := HStore(count + NEWVERSION, mem[..8 * count + bl]);
    ClosesUp(m, m1, m1, 8 * count, ps, h);
  }
}
