/** The packed form of an hstore (contrib/hstore/hstore.h): two 32-bit entries per pair,
    each the end of its string and two flags, followed by the strings. */
module HStoreLayout {
  import opened Options
  import opened Int32
  import opened Lex

  /** One key with its value; a null value is missing. */
  datatype Pair = Pair(key: Bytes, val: Option<Bytes>)

  /** `size` is the word with the flag and the number of pairs, `area` the bytes behind the
      header: entries, then strings. */
  datatype HStore = HStore(size: int, area: seq<int>)

  /** What the 32 bits of an entry say. */
  datatype Entry = Entry(pos: int, isnull: bool, isfirst: bool)

  const ISFIRST: int := 0x8000_0000
  const ISNULL: int := 0x4000_0000
  const POSLIMIT: int := 0x4000_0000
  const NEWVERSION: int := 0x8000_0000
  const COUNTLIMIT: int := 0x1000_0000
  const HEADER: int := 8

  // ---------------------------------------------------------------- entries in bytes

  /** The 32-bit word made of four bytes, low byte first. */
  function Word(a: int, b: int, c: int, d: int): int
  {
    a + 0x100 * b + 0x1_0000 * c + 0x100_0000 * d
  }

  function WordByte(e: int, k: int): int
  {
    if k == 0 then e % 0x100
    else if k == 1 then e / 0x100 % 0x100
    else if k == 2 then e / 0x1_0000 % 0x100
    else e / 0x100_0000
  }

  predicate IsByte(b: int) { 0 <= b < 256 }

  lemma {:induction false} WordBytes(e: int)
    requires 0 <= e < 0x1_0000_0000
    ensures IsByte(WordByte(e, 0)) && IsByte(WordByte(e, 1)) && IsByte(WordByte(e, 2)) && IsByte(WordByte(e, 3))
    ensures Word(WordByte(e, 0), WordByte(e, 1), WordByte(e, 2), WordByte(e, 3)) == e
  {
    var a, b := e / 0x100, e / 0x1_0000;
    assert b == a / 0x100 && e / 0x100_0000 == b / 0x100;
  }

  lemma {:induction false} LowByte(a: int, r: int, x: int, s: int)
    requires IsByte(a) && IsByte(x) && a + 0x100 * r == x + 0x100 * s
    ensures a == x && r == s
  {
  }

  lemma {:induction false} WordInjective(a: int, b: int, c: int, d: int, x: int, y: int, z: int, w: int)
    requires IsByte(a) && IsByte(b) && IsByte(c) && IsByte(d) && IsByte(x) && IsByte(y) && IsByte(z) && IsByte(w)
    requires Word(a, b, c, d) == Word(x, y, z, w)
    ensures a == x && b == y && c == z && d == w
  {
    LowByte(a, b + 0x100 * (c + 0x100 * d), x, y + 0x100 * (z + 0x100 * w));
    LowByte(b, c + 0x100 * d, y, z + 0x100 * w);
    LowByte(c, d, z, w);
  }

  function Decode(e: int): Entry
  {
    Entry(e % POSLIMIT, e / ISNULL % 2 == 1, e / ISFIRST % 2 == 1)
  }

  function Encode(e: Entry): int
  {
    e.pos % POSLIMIT + (if e.isnull then ISNULL else 0) + (if e.isfirst then ISFIRST else 0)
  }

  lemma {:induction false} EncodeDecodes(e: Entry)
    requires 0 <= e.pos < POSLIMIT
    ensures 0 <= Encode(e) < 0x1_0000_0000 && Decode(Encode(e)) == e
  {
  }

  lemma {:induction false} DecodeInjective(x: int, y: int)
    requires 0 <= x < 0x1_0000_0000 && 0 <= y < 0x1_0000_0000 && Decode(x) == Decode(y)
    ensures x == y
  {
  }

  lemma {:induction false} BytesSame(a: int, b: int, c: int, d: int, x: int, y: int, z: int, w: int)
    requires IsByte(a) && IsByte(b) && IsByte(c) && IsByte(d) && IsByte(x) && IsByte(y) && IsByte(z) && IsByte(w)
    requires Decode(Word(a, b, c, d)) == Decode(Word(x, y, z, w))
    ensures a == x && b == y && c == z && d == w
  {
    DecodeInjective(Word(a, b, c, d), Word(x, y, z, w));
    WordInjective(a, b, c, d, x, y, z, w);
  }

  /** The j-th entry in a run of bytes. */
  function EntryIn(m: seq<int>, j: int): Entry
    requires 0 <= j && 4 * j + 4 <= |m|
  {
    Decode(Word(m[4 * j], m[4 * j + 1], m[4 * j + 2], m[4 * j + 3]))
  }

  lemma {:induction false} EntryInjective(a: seq<int>, b: seq<int>, j: int)
    requires InRange(a) && InRange(b) && 0 <= j && 4 * j + 4 <= |a| && 4 * j + 4 <= |b|
    requires EntryIn(a, j) == EntryIn(b, j)
    ensures a[4 * j] == b[4 * j] && a[4 * j + 1] == b[4 * j + 1]
    ensures a[4 * j + 2] == b[4 * j + 2] && a[4 * j + 3] == b[4 * j + 3]
  {
    var i := 4 * j;
    BytesSame(a[i], a[i + 1], a[i + 2], a[i + 3], b[i], b[i + 1], b[i + 2], b[i + 3]);
  }

  // ---------------------------------------------------------------- the access macros

  function Count(h: HStore): int { h.size % COUNTLIMIT }

  /** The entries a count announces are there. */
  predicate Holds(h: HStore)
  {
    8 * Count(h) <= |h.area|
  }

  /** The first `m` entries in a run of bytes. */
  function Entries(area: seq<int>, m: nat): (es: seq<Entry>)
    requires 4 * m <= |area|
    ensures |es| == m && forall j | 0 <= j < m :: es[j] == EntryIn(area, j)
  {
    seq(m, j requires 0 <= j < m => EntryIn(area, j))
  }

  /** The entries, and the strings behind them. */
  function ArrPtr(h: HStore): seq<Entry>
    requires Holds(h)
  {
    Entries(h.area, 2 * Count(h))
  }

  /** The place where the strings begin. */
  function StrPtr(h: HStore): int
  {
    8 * Count(h)
  }

  /** An entry is read together with the one before it, unless it is the first. */
  predicate Readable(es: seq<Entry>, j: int)
  {
    0 <= j < |es| && (j == 0 ==> es[j].isfirst)
  }

  /** Where the j-th string begins, and its length. */
  function Off(es: seq<Entry>, j: int): int
    requires Readable(es, j)
  {
    if es[j].isfirst then 0 else es[j - 1].pos
  }

  function Len(es: seq<Entry>, j: int): int
    requires Readable(es, j)
  {
    if es[j].isfirst then es[j].pos else es[j].pos - es[j - 1].pos
  }

  predicate StrOk(h: HStore, j: int)
  {
    Holds(h) && Readable(ArrPtr(h), j)
    && var off, len := Off(ArrPtr(h), j), Len(ArrPtr(h), j); 0 <= off && 0 <= len && StrPtr(h) + off + len <= |h.area|
  }

  /** The j-th string. */
  function Str(h: HStore, j: int): Bytes
    requires StrOk(h, j)
  {
    Sub(h.area, StrPtr(h) + Off(ArrPtr(h), j), Len(ArrPtr(h), j))
  }

  /** `len` bytes from an offset on. */
  function Sub(s: seq<int>, off: int, len: int): seq<int>
    requires 0 <= off && 0 <= len && off + len <= |s|
  {
    s[off..off + len]
  }

  /** A string lies at a place in a run of bytes. */
  predicate Lies(m: seq<int>, off: int, t: seq<int>)
  {
    0 <= off && off + |t| <= |m| && forall q | off <= q < off + |t| :: m[q] == t[q - off]
  }

  lemma {:induction false} LiesSub(m: seq<int>, off: int, t: seq<int>)
    requires Lies(m, off, t)
    ensures Sub(m, off, |t|) == t
  {
  }

  // ---------------------------------------------------------------- what a list of pairs looks like

  function ValBytes(p: Pair): Bytes { if p.val.None? then [] else p.val.value }

  /** Length of the strings of the first `i` pairs. */
  function StrLen(ps: seq<Pair>, i: nat): nat
    requires i <= |ps|
  {
    if i == 0 then 0 else StrLen(ps, i - 1) + |ps[i - 1].key| + |ValBytes(ps[i - 1])|
  }

  /** Where the strings of the i-th pair begin. */
  function Place(base: int, ps: seq<Pair>, i: nat): int
    requires i <= |ps|
  {
    base + StrLen(ps, i)
  }

  predicate PairLies(m: seq<int>, off: int, p: Pair)
  {
    Lies(m, off, p.key) && Lies(m, off + |p.key|, ValBytes(p))
  }

  /** The strings of the i-th pair, in their place behind `base`. */
  predicate StringsAt(m: seq<int>, base: int, ps: seq<Pair>, i: nat)
    requires i < |ps|
  {
    PairLies(m, Place(base, ps, i), ps[i])
  }

  ghost predicate StringsOf(m: seq<int>, base: int, ps: seq<Pair>)
  {
    forall i | 0 <= i < |ps| :: StringsAt(m, base, ps, i)
  }

  function KeyEntry(ps: seq<Pair>, i: nat): Entry
    requires i < |ps|
  {
    Entry(StrLen(ps, i) + |ps[i].key|, false, i == 0)
  }

  function ValEntry(ps: seq<Pair>, i: nat): Entry
    requires i < |ps|
  {
    Entry(StrLen(ps, i + 1), ps[i].val.None?, false)
  }

  /** The entries of the first `n` pairs. */
  ghost predicate EntriesOf(es: seq<Entry>, ps: seq<Pair>, n: nat)
    requires n <= |ps|
  {
    |es| >= 2 * n && forall i | 0 <= i < n :: EntriesAt(es, ps, i)
  }

  predicate EntriesAt(es: seq<Entry>, ps: seq<Pair>, i: nat)
    requires i < |ps| && 2 * i + 1 < |es|
  {
    es[2 * i] == KeyEntry(ps, i) && es[2 * i + 1] == ValEntry(ps, i)
  }

  predicate PairInRange(p: Pair) { InRange(p.key) && InRange(ValBytes(p)) }

  /** Sizes stay within what one allocation can hold. */
  predicate Fits(ps: seq<Pair>)
  {
    HEADER + 8 * |ps| + StrLen(ps, |ps|) <= MAXALLOC
  }

  /** `h` is the packed form of the list, to the byte. */
  ghost predicate Rep(h: HStore, ps: seq<Pair>)
  {
    && Fits(ps) && (forall i | 0 <= i < |ps| :: PairInRange(ps[i]))
    && h.size == |ps| + NEWVERSION && Count(h) == |ps|
    && |h.area| == 8 * |ps| + StrLen(ps, |ps|) && InRange(h.area)
    && EntriesOf(ArrPtr(h), ps, |ps|)
    && StringsOf(h.area, StrPtr(h), ps)
  }

  lemma {:induction false} StrLenMonotone(ps: seq<Pair>, i: nat, j: nat)
    requires i <= j <= |ps|
    ensures StrLen(ps, i) <= StrLen(ps, j)
    decreases j
  {
    if i < j {
      StrLenMonotone(ps, i, j - 1);
    }
  }

  // ---------------------------------------------------------------- reading a packed list

  lemma {:induction false} KeyPlace(es: seq<Entry>, ps: seq<Pair>, i: nat)
    requires i < |ps| && 2 * i + 1 < |es| && EntriesAt(es, ps, i)
    requires i > 0 ==> EntriesAt(es, ps, i - 1)
    ensures Readable(es, 2 * i) && Off(es, 2 * i) == StrLen(ps, i) && Len(es, 2 * i) == |ps[i].key|
  {
    var j := 2 * i;
    assert es[j] == KeyEntry(ps, i);
    if i > 0 {
      assert es[j - 1] == ValEntry(ps, i - 1);
    }
  }

  lemma {:induction false} ValPlace(es: seq<Entry>, ps: seq<Pair>, i: nat)
    requires i < |ps| && 2 * i + 1 < |es| && EntriesAt(es, ps, i)
    ensures Off(es, 2 * i + 1) == StrLen(ps, i) + |ps[i].key| && Len(es, 2 * i + 1) == |ValBytes(ps[i])|
    ensures es[2 * i + 1].isnull == ps[i].val.None?
  {
  }

  /** Decoding: the macros read back the pairs. */
  lemma {:induction false} PairAt(h: HStore, ps: seq<Pair>, i: nat)
    requires Rep(h, ps) && i < |ps|
    ensures StrOk(h, 2 * i) && Str(h, 2 * i) == ps[i].key
    ensures StrOk(h, 2 * i + 1) && Str(h, 2 * i + 1) == ValBytes(ps[i])
    ensures ArrPtr(h)[2 * i + 1].isnull == ps[i].val.None?
  {
    var es := ArrPtr(h);
    assert StringsAt(h.area, StrPtr(h), ps, i);
    assert EntriesAt(es, ps, i) && (i > 0 ==> EntriesAt(es, ps, i - 1));
    KeyAt(h, ps, i);
    ValAt(h, ps, i);
  }

  lemma {:induction false} KeyAt(h: HStore, ps: seq<Pair>, i: nat)
    requires Holds(h) && i < |ps| <= Count(h) && StringsAt(h.area, StrPtr(h), ps, i)
    requires EntriesAt(ArrPtr(h), ps, i) && (i > 0 ==> EntriesAt(ArrPtr(h), ps, i - 1))
    ensures StrOk(h, 2 * i) && Str(h, 2 * i) == ps[i].key
  {
    KeyPlace(ArrPtr(h), ps, i);
    StringAt(h, 2 * i, StrLen(ps, i), ps[i].key);
  }

  lemma {:induction false} ValAt(h: HStore, ps: seq<Pair>, i: nat)
    requires Holds(h) && i < |ps| <= Count(h) && StringsAt(h.area, StrPtr(h), ps, i)
    requires EntriesAt(ArrPtr(h), ps, i)
    ensures StrOk(h, 2 * i + 1) && Str(h, 2 * i + 1) == ValBytes(ps[i])
    ensures ArrPtr(h)[2 * i + 1].isnull == ps[i].val.None?
  {
    ValPlace(ArrPtr(h), ps, i);
    StringAt(h, 2 * i + 1, StrLen(ps, i) + |ps[i].key|, ValBytes(ps[i]));
  }

  lemma {:induction false} StringAt(h: HStore, j: int, off: nat, t: Bytes)
    requires Holds(h) && Readable(ArrPtr(h), j)
    requires Off(ArrPtr(h), j) == off && Len(ArrPtr(h), j) == |t| && Lies(h.area, StrPtr(h) + off, t)
    ensures StrOk(h, j) && Str(h, j) == t
  {
    LiesSub(h.area, StrPtr(h) + off, t);
  }

  /** A packed form has one list of pairs, and a list one packed form. */
  lemma {:induction false} RepDecodes(h: HStore, ps: seq<Pair>, qs: seq<Pair>)
    requires Rep(h, ps) && Rep(h, qs)
    ensures ps == qs
  {
    forall i | 0 <= i < |ps| ensures ps[i] == qs[i] {
      PairAt(h, ps, i);
      PairAt(h, qs, i);
    }
  }

  lemma {:induction false} SameEntries(a: seq<Entry>, b: seq<Entry>, ps: seq<Pair>, j: nat)
    requires EntriesOf(a, ps, |ps|) && EntriesOf(b, ps, |ps|) && j < 2 * |ps|
    ensures a[j] == b[j]
  {
    var i := j / 2;
    assert EntriesAt(a, ps, i) && EntriesAt(b, ps, i);
  }

  /** The pair a place in the strings belongs to. */
  lemma {:induction false} FindPair(ps: seq<Pair>, n: nat, p: int) returns (i: nat)
    requires n <= |ps| && 0 <= p < StrLen(ps, n)
    ensures i < n && StrLen(ps, i) <= p < StrLen(ps, i + 1)
  {
    if StrLen(ps, n - 1) <= p {
      i := n - 1;
    } else {
      i := FindPair(ps, n - 1, p);
    }
  }

  lemma {:induction false} SameStrings(a: seq<int>, b: seq<int>, base: nat, ps: seq<Pair>)
    requires |a| == |b| == base + StrLen(ps, |ps|) && StringsOf(a, base, ps) && StringsOf(b, base, ps)
    ensures forall p | base <= p < |a| :: a[p] == b[p]
  {
    forall p | base <= p < |a| ensures a[p] == b[p] {
      var i := FindPair(ps, |ps|, p - base);
      SameAt(a, b, base, ps, i, p);
    }
  }

  lemma {:induction false} SameAt(a: seq<int>, b: seq<int>, base: nat, ps: seq<Pair>, i: nat, p: int)
    requires i < |ps| && StringsAt(a, base, ps, i) && StringsAt(b, base, ps, i)
    requires StrLen(ps, i) <= p - base < StrLen(ps, i + 1)
    ensures a[p] == b[p]
  {
    var o, k := Place(base, ps, i), |ps[i].key|;
    if p < o + k {
      LiesIndex(a, o, ps[i].key, p);
      LiesIndex(b, o, ps[i].key, p);
    } else {
      LiesIndex(a, o + k, ValBytes(ps[i]), p);
      LiesIndex(b, o + k, ValBytes(ps[i]), p);
    }
  }

  lemma {:induction false} LiesIndex(m: seq<int>, off: int, t: seq<int>, p: int)
    requires Lies(m, off, t) && off <= p < off + |t|
    ensures m[p] == t[p - off]
  {
  }

  lemma {:induction false} SameWords(a: seq<int>, b: seq<int>, m: nat)
    requires InRange(a) && InRange(b) && 4 * m <= |a| && 4 * m <= |b|
    requires forall j | 0 <= j < m :: EntryIn(a, j) == EntryIn(b, j)
    ensures forall p | 0 <= p < 4 * m :: a[p] == b[p]
  {
    forall p | 0 <= p < 4 * m ensures a[p] == b[p] {
      var j, k := p / 4, p % 4;
      EntryInjective(a, b, j);
      assert p == 4 * j + k;
    }
  }

  lemma {:induction false} RepUnique(g: HStore, h: HStore, ps: seq<Pair>)
    requires Rep(g, ps) && Rep(h, ps)
    ensures g == h
  {
    var n := |ps|;
    forall j | 0 <= j < 2 * n ensures EntryIn(g.area, j) == EntryIn(h.area, j) {
      SameEntries(ArrPtr(g), ArrPtr(h), ps, j);
      assert ArrPtr(g)[j] == ArrPtr(h)[j];
    }
    SameStrings(g.area, h.area, 8 * n, ps);
    SameWords(g.area, h.area, 2 * n);
  }

  /** The layout of an empty key without a value. */
  lemma {:induction false} SmallestPair()
    ensures Rep(HStore(1 + NEWVERSION, [0, 0, 0, 0x80, 0, 0, 0, 0x40]), [Pair([], None)])
  {
    var h, ps := HStore(1 + NEWVERSION, [0, 0, 0, 0x80, 0, 0, 0, 0x40]), [Pair([], None)];
    assert Count(h) == 1 && StrLen(ps, 1) == 0;
    assert EntryIn(h.area, 0) == Entry(0, false, true) && EntryIn(h.area, 1) == Entry(0, true, false);
    assert EntriesAt(ArrPtr(h), ps, 0);
  }
}
