/** Which layout a stored hstore is taken to be in (contrib/hstore/hstore_compat.c:
    hstoreValidNewFormat, hstoreUpgrade), and which old values that is wrong for. */
module HStoreUpgrade {
  import opened Options
  import opened Int32
  import opened Lex
  import opened HStoreLayout
  import opened HStoreMap
  import opened HStoreCompat

  // ---------------------------------------------------------------- the newer layout without its flag

  function CountOf(size: int): int { size % COUNTLIMIT }

  /** Entries behind the first go on from the one before. */
  predicate InOrder(es: seq<Entry>, i: int)
    requires 1 <= i < |es|
  {
    !es[i].isfirst && es[i - 1].pos <= es[i].pos
  }

  /** A key is not null and not shorter than the one before. */
  predicate KeyGrows(es: seq<Entry>, i: int)
    requires 1 <= i && 2 * i < |es| && es[0].isfirst
  {
    Len(es, 2 * i - 2) <= Len(es, 2 * i) && !es[2 * i].isnull
  }

  ghost predicate NewEntries(es: seq<Entry>)
  {
    && es != [] && es[0].isfirst
    && (forall i | 1 <= i < |es| :: InOrder(es, i))
    && (forall i | 1 <= i && 2 * i < |es| :: KeyGrows(es, i))
  }

  /** Entries and strings of the newer layout; they may be padded. */
  ghost predicate NewBody(m: seq<int>, c: nat)
  {
    0 < c && 8 * c <= |m| && NewEntries(Entries(m, 2 * c)) && 8 * c + EntryIn(m, 2 * c - 1).pos <= |m|
  }

  /** A value in the newer layout. */
  ghost predicate NewFormat(size: int, m: seq<int>)
  {
    size >= NEWVERSION || CountOf(size) == 0 || NewBody(m, CountOf(size))
  }

  method CheckOrder(es: seq<Entry>) returns (ok: bool)
    requires es != []
    ensures ok <==> forall i | 1 <= i < |es| :: InOrder(es, i)
  {
    for i := 1 to |es|
      invariant forall j | 1 <= j < i :: InOrder(es, j)
    {
      if es[i].isfirst || es[i].pos < es[i - 1].pos {
        assert !InOrder(es, i);
        return false;
      }
    }
    ok := true;
  }

  method CheckKeys(es: seq<Entry>, count: int) returns (ok: bool)
    requires 0 < count && |es| == 2 * count && es[0].isfirst
    ensures ok <==> forall i | 1 <= i && 2 * i < |es| :: KeyGrows(es, i)
  {
    for i := 1 to count
      invariant forall j | 1 <= j < i :: KeyGrows(es, j)
    {
      if Len(es, 2 * i) < Len(es, 2 * i - 2) || es[2 * i].isnull {
        assert !KeyGrows(es, i);
        return false;
      }
    }
    ok := true;
  }

  /** The entries that the count announces are there. */
  predicate Legible(size: int, m: seq<int>)
  {
    0 <= size < 0x1_0000_0000 && InRange(m) && HEADER + |m| <= MAXALLOC && 8 * CountOf(size) <= |m|
  }

  /** The entries, and the room they leave in the block. */
  method CheckEntries(es: seq<Entry>, count: int, varsize: int) returns (r: int)
    requires 0 < count && |es| == 2 * count
    ensures 0 <= r <= 2
    ensures r > 0 <==> NewEntries(es) && 8 * count + HEADER + es[2 * count - 1].pos <= varsize
    ensures r > 0 ==> (r == 2 <==> 8 * count + HEADER + es[2 * count - 1].pos == varsize)
  {
    var vsize := 8 * count + HEADER + es[2 * count - 1].pos;
    if !es[0].isfirst || vsize > varsize {
      return 0;
    }
    var ok := CheckOrder(es);
    if ok {
      ok := CheckKeys(es, count);
    }
    r := if !ok then 0 else if vsize != varsize then 1 else 2;
  }

  method CheckBody(m: seq<int>, c: nat) returns (r: int)
    requires 0 < c && 8 * c <= |m|
    ensures 0 <= r <= 2 && (r > 0 <==> NewBody(m, c))
    ensures r > 0 ==> (r == 2 <==> 8 * c + EntryIn(m, 2 * c - 1).pos == |m|)
  {
    r := CheckEntries(Entries(m, 2 * c), c, HEADER + |m|);
  }

  /** hstoreValidNewFormat: 0 for invalid, 2 for exact, 1 for valid with slop. */
  method ValidNewFormat(size: int, m: seq<int>) returns (r: int)
    requires Legible(size, m)
    ensures 0 <= r <= 2 && (r > 0 <==> NewFormat(size, m))
  {
    var count := CountOf(size);
    if size >= NEWVERSION || count == 0 {
      return 2;
    }
    r := CheckBody(m, count);
  }

  lemma {:induction false} KeyInOrder(es: seq<Entry>, ps: seq<Pair>, n: nat, i: nat)
    requires 1 <= i < n == |ps| && EntriesOf(es, ps, n)
    ensures InOrder(es, 2 * i)
  {
    assert EntriesAt(es, ps, i) && EntriesAt(es, ps, i - 1);
  }

  lemma {:induction false} ValInOrder(es: seq<Entry>, ps: seq<Pair>, n: nat, i: nat)
    requires i < n == |ps| && EntriesOf(es, ps, n)
    ensures InOrder(es, 2 * i + 1)
  {
    assert EntriesAt(es, ps, i);
  }

  lemma {:induction false} PackedInOrder(es: seq<Entry>, ps: seq<Pair>, n: nat, j: nat)
    requires n == |ps| && 1 <= j < 2 * n && EntriesOf(es, ps, n)
    ensures InOrder(es, j)
  {
    if j % 2 == 0 {
      KeyInOrder(es, ps, n, j / 2);
    } else {
      ValInOrder(es, ps, n, j / 2);
    }
  }

  lemma {:induction false} PackedKey(es: seq<Entry>, ps: seq<Pair>, n: nat, i: nat)
    requires i < n == |ps| && EntriesOf(es, ps, n)
    ensures Readable(es, 2 * i) && Len(es, 2 * i) == |ps[i].key| && !es[2 * i].isnull
  {
    assert EntriesAt(es, ps, i) && (i > 0 ==> EntriesAt(es, ps, i - 1));
    KeyPlace(es, ps, i);
  }

  lemma {:induction false} LengthsRise(ps: seq<Pair>, i: nat)
    requires Sorted(ps) && 1 <= i < |ps|
    ensures |ps[i - 1].key| <= |ps[i].key|
  {
    assert KeyLt(ps[i - 1].key, ps[i].key);
    KeyBefore(ps[i - 1].key, ps[i].key);
  }

  lemma {:induction false} PackedKeyGrows(es: seq<Entry>, ps: seq<Pair>, n: nat, i: nat)
    requires Sorted(ps) && 1 <= i < n == |ps| && EntriesOf(es, ps, n) && es[0].isfirst
    ensures KeyGrows(es, i)
  {
    PackedKey(es, ps, n, i);
    PackedKey(es, ps, n, i - 1);
    LengthsRise(ps, i);
  }

  lemma {:induction false} PackedEntries(es: seq<Entry>, ps: seq<Pair>, n: nat)
    requires 0 < n == |ps| && Sorted(ps) && EntriesOf(es, ps, n) && |es| == 2 * n
    ensures NewEntries(es) && es[2 * n - 1].pos == StrLen(ps, n)
  {
    assert EntriesAt(es, ps, 0) && EntriesAt(es, ps, n - 1);
    forall j | 1 <= j < |es| ensures InOrder(es, j) {
      PackedInOrder(es, ps, n, j);
    }
    forall i | 1 <= i && 2 * i < |es| ensures KeyGrows(es, i) {
      PackedKeyGrows(es, ps, n, i);
    }
  }

  /** What is packed is in the newer layout, flag or no flag, and fills its block. */
  lemma {:induction false} PackedIsNew(h: HStore, ps: seq<Pair>)
    requires Canonical(h, ps) && ps != []
    ensures NewBody(h.area, |ps|) && 8 * |ps| + EntryIn(h.area, 2 * |ps| - 1).pos == |h.area|
  {
    var es := ArrPtr(h);
    PackedEntries(es, ps, |ps|);
    assert es[2 * |ps| - 1] == EntryIn(h.area, 2 * |ps| - 1);
  }

  /** The count with the flag of the newer layout, and the size the last entry says. */
  function Fixed(size: int, m: seq<int>): HStore
    requires Legible(size, m) && NewFormat(size, m) && size < NEWVERSION
  {
    var c := CountOf(size);
    HStore(c + NEWVERSION, if c == 0 then [] else m[..8 * c + EntryIn(m, 2 * c - 1).pos])
  }

  lemma {:induction false} PosMonotone(es: seq<Entry>, i: nat, j: nat)
    requires NewEntries(es) && i <= j < |es|
    ensures es[i].pos <= es[j].pos
    decreases j
  {
    if i < j {
      PosMonotone(es, i, j - 1);
      assert InOrder(es, j);
    }
  }

  /** A string ends where the last one does, or before. */
  predicate Spans(es: seq<Entry>, j: nat)
    requires j < |es|
  {
    Readable(es, j) && 0 <= Off(es, j) && 0 <= Len(es, j) && Off(es, j) + Len(es, j) <= es[|es| - 1].pos
  }

  lemma {:induction false} SpanFits(es: seq<Entry>, j: nat)
    requires NewEntries(es) && j < |es| && forall i | 0 <= i < |es| :: es[i].pos >= 0
    ensures Spans(es, j)
  {
    PosMonotone(es, j, |es| - 1);
    assert j > 0 ==> InOrder(es, j);
  }

  /** A block cut behind its entries has the same entries. */
  lemma {:induction false} CutEntries(m: seq<int>, n: nat, c: nat)
    requires 4 * c <= n <= |m|
    ensures Entries(m[..n], c) == Entries(m, c)
  {
    forall j | 0 <= j < c ensures EntryIn(m[..n], j) == EntryIn(m, j) {
    }
  }

  lemma {:induction false} EntriesPos(m: seq<int>, c: nat)
    requires 4 * c <= |m|
    ensures forall j | 0 <= j < c :: 0 <= Entries(m, c)[j].pos
  {
  }

  /** Setting count and size leaves the entries as they were, and keeps every string within the
      block. */
  lemma {:induction false} FixedReads(size: int, m: seq<int>, c: nat, es: seq<Entry>)
    requires Legible(size, m) && NewFormat(size, m) && size < NEWVERSION
    requires c == CountOf(size) > 0 && es == Entries(m, 2 * c)
    ensures var h := Fixed(size, m);
      && h.size == c + NEWVERSION && h.area <= m && |h.area| == 8 * c + es[2 * c - 1].pos
      && Entries(h.area, 2 * c) == es
    ensures forall j | 0 <= j < 2 * c :: Spans(es, j)
  {
    EntriesPos(m, 2 * c);
    CutEntries(m, 8 * c + es[2 * c - 1].pos, 2 * c);
    forall j | 0 <= j < 2 * c ensures Spans(es, j) {
      SpanFits(es, j);
    }
  }

  // ---------------------------------------------------------------- the whole function

  /** The first word, read as an entry of the newer layout, has the first flag. */
  predicate FirstFlag(m: seq<int>)
  {
    |m| >= 4 && EntryIn(m, 0).isfirst
  }

  /** No conversion is tried. */
  predicate Early(size: int, m: seq<int>)
  {
    size >= NEWVERSION || size == 0 || (HEADER + |m| < 0x8000 && FirstFlag(m))
  }

  /** The access macros read these pairs. */
  ghost predicate ReadsPairs(h: HStore, ps: seq<Pair>)
  {
    Holds(h) && Count(h) == |ps| && forall i | 0 <= i < |ps| :: ReadsPair(h, i, ps[i])
  }

  predicate ReadsPair(h: HStore, i: nat, p: Pair)
    requires Holds(h) && i < Count(h)
  {
    && StrOk(h, 2 * i) && Str(h, 2 * i) == p.key && ArrPtr(h)[2 * i + 1].isnull == p.val.None?
    && (p.val.Some? ==> StrOk(h, 2 * i + 1) && Str(h, 2 * i + 1) == p.val.value)
  }

  lemma {:induction false} RepReads(h: HStore, ps: seq<Pair>)
    requires Rep(h, ps)
    ensures ReadsPairs(h, ps)
  {
    forall i | 0 <= i < |ps| ensures ReadsPair(h, i, ps[i]) {
      PairAt(h, ps, i);
    }
  }

  lemma {:induction false} WordHalves(a: int, b: int, c: int, d: int)
    ensures Word(a, b, c, d) == Half(a, b) + 0x1_0000 * Half(c, d)
  {
  }

  lemma {:induction false} HighBit(k: int, v: int)
    requires 0 <= k < 0x1_0000 && 0 <= v < 0x1_0000
    ensures Decode(k + 0x1_0000 * v).isfirst <==> v >= 0x8000
  {
  }

  /** The first flag is the highest bit of an old value length. */
  lemma {:induction false} FlagIsLength(m: seq<int>)
    requires InRange(m) && |m| >= 8
    ensures FirstFlag(m) <==> OldAt(m, 0).vallen >= 0x8000
  {
    OldRange(m, 0);
    WordHalves(m[0], m[1], m[2], m[3]);
    HighBit(Half(m[0], m[1]), Half(m[2], m[3]));
  }

  /** A missing value at the start of the strings does not read as a null. */
  lemma {:induction false} NullIsLost(m: seq<int>)
    requires |m| >= 8 && OldAt(m, 0).isnull && OldAt(m, 0).pos == 0
    ensures !EntryIn(m, 1).isnull
  {
    assert Word(m[4], m[5], m[6], m[7]) == 1;
    assert EntryIn(m, 1) == Decode(1);
  }

  /** Of the values in the older layout, exactly those are left alone that are short and whose
      first value is null with a length, which means nothing then, of 32768 or more. */
  lemma {:induction false} EarlyIff(size: int, m: seq<int>)
    requires Legible(size, m) && OldFormat(size, m) && size > 0
    ensures Early(size, m) <==> HEADER + |m| < 0x8000 && OldAt(m, 0).isnull && OldAt(m, 0).vallen >= 0x8000
  {
    FlagIsLength(m);
    OldRange(m, 0);
    TotalMonotone(m, 1, size);
    assert Total(m, 1) == Total(m, 0) + OldAt(m, 0).keylen + OldVal(OldAt(m, 0));
  }

  /** Left alone, such a value reads differently: its first value is no longer null. */
  lemma {:induction false} EarlyReads(size: int, m: seq<int>)
    requires Legible(size, m) && OldFormat(size, m) && size > 0 && Early(size, m)
    ensures !ReadsPairs(HStore(size, m), OldPairs(m, size))
  {
    var h, ps := HStore(size, m), OldPairs(m, size);
    EarlyIff(size, m);
    assert InPlace(m, 0);
    NullIsLost(m);
    NullRead(h, ps);
  }

  lemma {:induction false} NullRead(h: HStore, ps: seq<Pair>)
    requires ps != [] && ps[0].val.None? && |h.area| >= 8 && !EntryIn(h.area, 1).isnull
    ensures !ReadsPairs(h, ps)
  {
    if Holds(h) && Count(h) == |ps| {
      assert ArrPtr(h)[1] == EntryIn(h.area, 1);
      assert !ReadsPair(h, 0, ps[0]);
    }
  }

  /** hstoreUpgrade. A value in the older layout comes back with its pairs exactly when the
      early return is not taken. */
  method Upgrade(size: int, area: seq<int>, writable: bool) returns (r: Option<HStore>)
    requires Legible(size, area)
    ensures Early(size, area) ==> r == Some(HStore(size, area))
    ensures !Early(size, area) && OldFormat(size, area) ==> r.Some? && Rep(r.value, OldPairs(area, size))
    ensures !Early(size, area) && !OldFormat(size, area) ==>
      r == if !NewFormat(size, area) then None
           else Some(if writable then Fixed(size, area) else HStore(size, area))
    ensures OldFormat(size, area) && size > 0 ==>
      r.Some? && (ReadsPairs(r.value, OldPairs(area, size)) <==> !Early(size, area))
  {
    if size >= NEWVERSION || size == 0 || (HEADER + |area| < 0x8000 && FirstFlag(area)) {
      if OldFormat(size, area) && size > 0 {
        EarlyReads(size, area);
      }
      return Some(HStore(size, area));
    }
    var validNew := ValidNewFormat(size, area);
    var validOld := ValidOldFormat(size, area);
    if validOld == 0 {
      if validNew == 0 {
        return None;
      }
      return Some(if writable then Fixed(size, area) else HStore(size, area));
    }
    var h := UpgradeOld(size, area);
    RepReads(h, OldPairs(area, size));
    r := Some(h);
  }

  /** The nine bytes of one key "a" without a value, in the older layout, with a length left
      over in the place of the missing value. */
  predicate LeftOver(m: seq<int>)
  {
    && |m| == 9 && m[0] == 1 && m[1] == 0 && m[2] == 0 && m[3] == 0x80
    && m[4] == 1 && m[5] == 0 && m[6] == 0 && m[7] == 0 && m[8] == 97
  }

  lemma {:induction false} LeftOverEntry(m: seq<int>)
    requires LeftOver(m)
    ensures OldAt(m, 0) == Old(1, 0x8000, true, 0)
  {
    assert Word(m[4], m[5], m[6], m[7]) == 1;
  }

  lemma {:induction false} LeftOverOld(m: seq<int>, c: nat)
    requires LeftOver(m) && c == 1
    ensures OldFormat(c, m)
  {
    LeftOverEntry(m);
    assert Total(m, c) == Total(m, 0) + 1 && InPlace(m, 0);
  }

  lemma {:induction false} LeftOverPairs(m: seq<int>, c: nat)
    requires LeftOver(m) && c == 1
    ensures OldPairs(m, c) == [Pair([97], None)]
  {
    LeftOverEntry(m);
    assert Sub(m, 8, 1) == [97];
    assert OldPair(m, 8 * c, 0) == PairOf(m, 8, OldAt(m, 0)) == Pair([97], None);
  }

  lemma {:induction false} LeftOverEntries(m: seq<int>)
    requires LeftOver(m)
    ensures EntryIn(m, 0) == Entry(1, false, true) && EntryIn(m, 1) == Entry(1, false, false)
  {
    assert Word(m[0], m[1], m[2], m[3]) == 0x8000_0001 && Word(m[4], m[5], m[6], m[7]) == 1;
  }

  lemma {:induction false} LeftOverReads(h: HStore)
    requires h.size == 1 && LeftOver(h.area)
    ensures ReadsPairs(h, [Pair([97], Some([]))])
  {
    LeftOverEntries(h.area);
    var es := ArrPtr(h);
    assert es[0] == Entry(1, false, true) && es[1] == Entry(1, false, false);
    assert Off(es, 0) == 0 && Len(es, 0) == 1 && Off(es, 1) == 1 && Len(es, 1) == 0;
    assert Str(h, 0) == [97] && Str(h, 1) == [];
    assert ReadsPair(h, 0, Pair([97], Some([])));
  }

  lemma {:induction false} LeftOverEarly(m: seq<int>, c: nat)
    requires LeftOver(m) && c == 1
    ensures Legible(c, m) && Early(c, m)
  {
    LeftOverEntries(m);
  }

  /** They are taken for the newer layout, and read as the key "a" with an empty value. */
  method LeftOverExample(m: seq<int>, c: nat) returns (r: Option<HStore>)
    requires LeftOver(m) && c == 1
    ensures OldFormat(c, m) && OldPairs(m, c) == [Pair([97], None)]
    ensures r.Some? && ReadsPairs(r.value, [Pair([97], Some([]))])
  {
    LeftOverOld(m, c);
    LeftOverPairs(m, c);
    LeftOverEarly(m, c);
    LeftOverReads(HStore(c, m));
    r := Upgrade(c, m, false);
  }
}
