/** Packing pairs into an hstore under construction (contrib/hstore/hstore.h, hstorePairs in
    contrib/hstore/hstore_io.c): strings and entries grow in one block of memory, and the
    strings move down when fewer pairs arrived than there was room for. */
module HStoreBuild {
  import opened Options
  import opened Lex
  import opened Int32
  import opened HStoreLayout

  // ---------------------------------------------------------------- memory

  predicate Clean(m: seq<int>, lo: int, hi: int)
  {
    0 <= lo <= hi <= |m| && forall q | lo <= q < hi :: IsByte(m[q])
  }

  ghost predicate Kept(m: seq<int>, m': seq<int>, lo: int, hi: int)
  {
    0 <= lo <= hi <= |m| == |m'| && forall q | lo <= q < hi :: m'[q] == m[q]
  }

  /** The block before and after a `memcpy` or `memmove` to one place. */
  ghost predicate Moved(m: seq<int>, m': seq<int>, at: nat, src: seq<int>)
  {
    Lies(m', at, src) && Kept(m, m', 0, at) && Kept(m, m', at + |src|, |m|)
  }

  method Move(mem: array<int>, at: nat, src: seq<int>)
    requires at + |src| <= mem.Length
    modifies mem
    ensures Moved(old(mem[..]), mem[..], at, src)
  {
    forall k | 0 <= k < |src| {
      mem[at + k] := src[k];
    }
  }

  /** The block before and after storing an entry, low byte first. */
  ghost predicate Stored(m: seq<int>, m': seq<int>, j: nat, e: Entry)
  {
    && 4 * j + 4 <= |m| == |m'| && EntryIn(m', j) == e && Clean(m', 4 * j, 4 * j + 4)
    && Kept(m, m', 0, 4 * j) && Kept(m, m', 4 * j + 4, |m|)
  }

  method PutEntry(mem: array<int>, j: nat, e: Entry)
    requires 4 * j + 4 <= mem.Length && 0 <= e.pos < POSLIMIT
    modifies mem
    ensures Stored(old(mem[..]), mem[..], j, e)
  {
    var i, w := 4 * j, Encode(e);
    EncodeDecodes(e);
    WordBytes(w);
    mem[i], mem[i + 1], mem[i + 2], mem[i + 3] := WordByte(w, 0), WordByte(w, 1), WordByte(w, 2), WordByte(w, 3);
  }

  lemma {:induction false} KeptTwice(m: seq<int>, m1: seq<int>, m2: seq<int>, lo: int, hi: int, lo': int, hi': int,
      from: int, to: int)
    requires Kept(m, m1, lo, hi) && Kept(m1, m2, lo', hi')
    requires lo <= from && lo' <= from && from <= to && to <= hi && to <= hi'
    ensures Kept(m, m2, from, to)
  {
  }

  lemma {:induction false} KeptEntry(m: seq<int>, m': seq<int>, lo: int, hi: int, k: nat)
    requires Kept(m, m', lo, hi) && lo <= 4 * k && 4 * k + 4 <= hi
    ensures EntryIn(m', k) == EntryIn(m, k)
  {
  }

  lemma {:induction false} KeptLies(m: seq<int>, m': seq<int>, lo: int, hi: int, off: int, t: seq<int>)
    requires Kept(m, m', lo, hi) && lo <= off && off + |t| <= hi && Lies(m, off, t)
    ensures Lies(m', off, t)
  {
  }

  lemma {:induction false} KeptClean(m: seq<int>, m': seq<int>, lo: int, mid: int, hi: int)
    requires Kept(m, m', lo, mid) && Clean(m, lo, mid) && Clean(m', mid, hi)
    ensures Clean(m', lo, hi)
  {
  }

  lemma {:induction false} LiesParts(m: seq<int>, off: int, a: seq<int>, b: seq<int>)
    requires Lies(m, off, a + b)
    ensures Lies(m, off, a) && Lies(m, off + |a|, b)
  {
  }

  lemma {:induction false} LiesClean(m: seq<int>, off: int, t: seq<int>)
    requires Lies(m, off, t) && InRange(t)
    ensures Clean(m, off, off + |t|)
  {
    forall q | off <= q < off + |t| ensures IsByte(m[q]) {
      assert m[q] == t[q - off];
    }
  }

  // ---------------------------------------------------------------- a block half filled

  /** The entries one more pair gets. */
  function NextKey(ps: seq<Pair>, p: Pair): Entry
  {
    Entry(StrLen(ps, |ps|) + |p.key|, false, false)
  }

  function NextVal(ps: seq<Pair>, p: Pair): Entry
  {
    Entry(StrLen(ps, |ps|) + |p.key| + |ValBytes(p)|, p.val.None?, false)
  }

  /** The entries of the i-th pair while the block is being filled: no flag on the first yet. */
  predicate Draft(m: seq<int>, ps: seq<Pair>, i: nat)
    requires i < |ps| && 8 * i + 8 <= |m|
  {
    EntryIn(m, 2 * i) == KeyEntry(ps, i).(isfirst := false) && EntryIn(m, 2 * i + 1) == ValEntry(ps, i)
  }

  ghost predicate Drafts(m: seq<int>, ps: seq<Pair>)
  {
    8 * |ps| <= |m| && forall i | 0 <= i < |ps| :: Draft(m, ps, i)
  }

  lemma {:induction false} StrLenSame(ps: seq<Pair>, qs: seq<Pair>, i: nat)
    requires i <= |ps| && i <= |qs| && forall k | 0 <= k < i :: ps[k] == qs[k]
    ensures StrLen(ps, i) == StrLen(qs, i)
  {
    if i > 0 {
      StrLenSame(ps, qs, i - 1);
    }
  }

  /** What one more pair does to the entries, and to the strings. */
  ghost predicate EntriesGrown(m: seq<int>, m': seq<int>, ps: seq<Pair>, p: Pair)
  {
    var n := |ps|;
    && 8 * n + 8 <= |m| && Kept(m, m', 0, 8 * n) && Clean(m', 8 * n, 8 * n + 8)
    && EntryIn(m', 2 * n) == NextKey(ps, p) && EntryIn(m', 2 * n + 1) == NextVal(ps, p)
  }

  ghost predicate StringsGrown(m: seq<int>, m': seq<int>, base: nat, ps: seq<Pair>, p: Pair)
  {
    Kept(m, m', base, Place(base, ps, |ps|)) && PairLies(m', Place(base, ps, |ps|), p)
  }

  lemma {:induction false} DraftKept(m: seq<int>, m': seq<int>, ps: seq<Pair>, p: Pair, i: nat)
    requires i < |ps| && 8 * |ps| <= |m| && Kept(m, m', 0, 8 * |ps|) && Draft(m, ps, i)
    ensures Draft(m', ps + [p], i)
  {
    StrLenSame(ps, ps + [p], i);
    StrLenSame(ps, ps + [p], i + 1);
    KeptEntry(m, m', 0, 8 * |ps|, 2 * i);
    KeptEntry(m, m', 0, 8 * |ps|, 2 * i + 1);
  }

  lemma {:induction false} DraftsGrow(m: seq<int>, m': seq<int>, ps: seq<Pair>, p: Pair)
    requires Drafts(m, ps) && EntriesGrown(m, m', ps, p)
    ensures Drafts(m', ps + [p])
  {
    var n, qs := |ps|, ps + [p];
    StrLenSame(ps, qs, n);
    forall i | 0 <= i < |qs| ensures Draft(m', qs, i) {
      if i < n {
        assert Draft(m, ps, i);
        DraftKept(m, m', ps, p, i);
      } else {
        assert qs[i] == p;
      }
    }
  }

  lemma {:induction false} StringsKept(m: seq<int>, m': seq<int>, base: nat, ps: seq<Pair>, p: Pair, i: nat)
    requires i < |ps| && StringsAt(m, base, ps, i) && Kept(m, m', base, Place(base, ps, |ps|))
    ensures StringsAt(m', base, ps + [p], i)
  {
    var qs := ps + [p];
    assert qs[i] == ps[i];
    StrLenSame(ps, qs, i);
    StrLenMonotone(ps, i + 1, |ps|);
    KeptPair(m, m', base, Place(base, ps, |ps|), Place(base, ps, i), ps[i]);
  }

  lemma {:induction false} KeptPair(m: seq<int>, m': seq<int>, lo: int, hi: int, off: int, p: Pair)
    requires Kept(m, m', lo, hi) && lo <= off && off + |p.key| + |ValBytes(p)| <= hi && PairLies(m, off, p)
    ensures PairLies(m', off, p)
  {
    KeptLies(m, m', lo, hi, off, p.key);
    KeptLies(m, m', lo, hi, off + |p.key|, ValBytes(p));
  }

  lemma {:induction false} StringsGrow(m: seq<int>, m': seq<int>, base: nat, ps: seq<Pair>, p: Pair)
    requires StringsOf(m, base, ps) && StringsGrown(m, m', base, ps, p)
    ensures StringsOf(m', base, ps + [p])
  {
    var n, qs := |ps|, ps + [p];
    StrLenSame(ps, qs, n);
    forall i | 0 <= i < |qs| ensures StringsAt(m', base, qs, i) {
      if i < n {
        assert StringsAt(m, base, ps, i);
        StringsKept(m, m', base, ps, p, i);
      } else {
        assert qs[i] == p;
      }
    }
  }

  /** A block that holds some pairs, entries from the front and strings from `base` on; all of
      what was written is bytes. */
  ghost predicate Filled(m: seq<int>, base: nat, ps: seq<Pair>)
  {
    && 8 * |ps| <= base && Drafts(m, ps) && StringsOf(m, base, ps)
    && Clean(m, 0, 8 * |ps|) && Clean(m, base, Place(base, ps, |ps|))
    && forall i | 0 <= i < |ps| :: PairInRange(ps[i])
  }

  lemma {:induction false} FilledGrows(m: seq<int>, m': seq<int>, base: nat, ps: seq<Pair>, p: Pair)
    requires Filled(m, base, ps) && PairInRange(p) && 8 * |ps| + 8 <= base
    requires EntriesGrown(m, m', ps, p) && StringsGrown(m, m', base, ps, p)
    ensures Filled(m', base, ps + [p])
    ensures Place(base, ps + [p], |ps| + 1) == Place(base, ps, |ps|) + |p.key| + |ValBytes(p)|
  {
    var qs := ps + [p];
    PlaceGrows(base, ps, p);
    DraftsGrow(m, m', ps, p);
    StringsGrow(m, m', base, ps, p);
    KeptClean(m, m', 0, 8 * |ps|, 8 * |ps| + 8);
    StringsClean(m, m', base, ps, p);
    assert forall i | 0 <= i < |qs| :: PairInRange(qs[i]);
  }

  lemma {:induction false} PlaceGrows(base: int, ps: seq<Pair>, p: Pair)
    ensures Place(base, ps + [p], |ps| + 1) == Place(base, ps, |ps|) + |p.key| + |ValBytes(p)|
  {
    StrLenSame(ps, ps + [p], |ps|);
  }

  lemma {:induction false} StringsClean(m: seq<int>, m': seq<int>, base: nat, ps: seq<Pair>, p: Pair)
    requires StringsGrown(m, m', base, ps, p) && PairInRange(p) && Clean(m, base, Place(base, ps, |ps|))
    ensures Clean(m', base, Place(base, ps, |ps|) + |p.key| + |ValBytes(p)|)
  {
    var at := Place(base, ps, |ps|);
    LiesClean(m', at, p.key);
    LiesClean(m', at + |p.key|, ValBytes(p));
    KeptClean(m, m', base, at, at + |p.key|);
    assert Clean(m', base, at + |p.key|) && Clean(m', at + |p.key|, at + |p.key| + |ValBytes(p)|);
  }

  // ---------------------------------------------------------------- closing the block

  /** The block cut to size: the first entry flagged, the strings right behind the entries. */
  ghost predicate Closed(m: seq<int>, base: nat, ps: seq<Pair>, area: seq<int>)
  {
    var n, end := |ps|, Place(base, ps, |ps|);
    && 8 * n <= base && base <= end <= |m| && |area| == 8 * n + end - base
    && (forall j | 1 <= j < 2 * n :: EntryIn(area, j) == EntryIn(m, j))
    && (n > 0 ==> EntryIn(area, 0) == EntryIn(m, 0).(isfirst := true))
    && Lies(area, 8 * n, m[base..end])
  }

  lemma {:induction false} ShiftLies(m: seq<int>, base: int, end: int, area: seq<int>, base': int, at: int, at': int,
      t: seq<int>)
    requires 0 <= base <= at && at + |t| <= end <= |m| && at' - base' == at - base
    requires Lies(m, at, t) && Lies(area, base', m[base..end])
    ensures Lies(area, at', t)
  {
    forall q | at' <= q < at' + |t| ensures area[q] == t[q - at'] {
      assert area[q] == m[base..end][q - base'] == m[base + q - base'];
    }
  }

  lemma {:induction false} ShiftPair(m: seq<int>, base: int, end: int, area: seq<int>, base': int, at: int, at': int,
      p: Pair)
    requires 0 <= base <= at && at + |p.key| + |ValBytes(p)| <= end <= |m| && at' - base' == at - base
    requires PairLies(m, at, p) && Lies(area, base', m[base..end])
    ensures PairLies(area, at', p)
  {
    ShiftLies(m, base, end, area, base', at, at', p.key);
    ShiftLies(m, base, end, area, base', at + |p.key|, at' + |p.key|, ValBytes(p));
  }

  lemma {:induction false} ClosedStrings(m: seq<int>, base: nat, ps: seq<Pair>, area: seq<int>, i: nat)
    requires Closed(m, base, ps, area) && i < |ps| && StringsAt(m, base, ps, i)
    ensures StringsAt(area, 8 * |ps|, ps, i)
  {
    StrLenMonotone(ps, i + 1, |ps|);
    var b := 8 * |ps|;
    ShiftPair(m, base, Place(base, ps, |ps|), area, b, Place(base, ps, i), Place(b, ps, i), ps[i]);
  }

  lemma {:induction false} ClosedEntries(m: seq<int>, base: nat, ps: seq<Pair>, area: seq<int>, i: nat)
    requires Drafts(m, ps) && Closed(m, base, ps, area) && i < |ps|
    ensures EntriesAt(Entries(area, 2 * |ps|), ps, i)
  {
    assert Draft(m, ps, i);
    var j := 2 * i;
    assert i > 0 ==> EntryIn(area, j) == EntryIn(m, j);
    assert EntryIn(area, j + 1) == EntryIn(m, j + 1);
  }

  lemma {:induction false} ClosedRep(m: seq<int>, base: nat, ps: seq<Pair>, h: HStore)
    requires Filled(m, base, ps) && Closed(m, base, ps, h.area) && InRange(h.area)
    requires h.size == |ps| + NEWVERSION && Fits(ps)
    ensures Rep(h, ps)
  {
    ClosedSize(m, base, ps, h);
    AllEntries(m, base, ps, h);
    AllStrings(m, base, ps, h);
  }

  lemma {:induction false} ClosedSize(m: seq<int>, base: nat, ps: seq<Pair>, h: HStore)
    requires Closed(m, base, ps, h.area) && h.size == |ps| + NEWVERSION && Fits(ps)
    ensures Count(h) == |ps| && |h.area| == 8 * |ps| + StrLen(ps, |ps|)
  {
  }

  lemma {:induction false} AllEntries(m: seq<int>, base: nat, ps: seq<Pair>, h: HStore)
    requires Drafts(m, ps) && Closed(m, base, ps, h.area) && Count(h) == |ps|
    ensures EntriesOf(ArrPtr(h), ps, |ps|)
  {
    forall i | 0 <= i < |ps| ensures EntriesAt(ArrPtr(h), ps, i) {
      ClosedEntries(m, base, ps, h.area, i);
    }
  }

  lemma {:induction false} AllStrings(m: seq<int>, base: nat, ps: seq<Pair>, h: HStore)
    requires StringsOf(m, base, ps) && Closed(m, base, ps, h.area) && Count(h) == |ps|
    ensures StringsOf(h.area, StrPtr(h), ps)
  {
    forall i | 0 <= i < |ps| ensures StringsAt(h.area, StrPtr(h), ps, i) {
      assert StringsAt(m, base, ps, i);
      ClosedStrings(m, base, ps, h.area, i);
    }
  }

  // ---------------------------------------------------------------- the two ways to add a pair

  /** The block before and after copying one pair whose strings lie side by side. */
  lemma {:induction false} CopyGrown(m: seq<int>, m1: seq<int>, m2: seq<int>, m3: seq<int>, base: nat, ps: seq<Pair>,
      p: Pair)
    requires 8 * |ps| + 8 <= base && Moved(m, m1, Place(base, ps, |ps|), p.key + ValBytes(p))
    requires Stored(m1, m2, 2 * |ps|, NextKey(ps, p)) && Stored(m2, m3, 2 * |ps| + 1, NextVal(ps, p))
    ensures EntriesGrown(m, m3, ps, p) && StringsGrown(m, m3, base, ps, p)
  {
    var n, at := |ps|, Place(base, ps, |ps|);
    var i := 8 * n;
    assert Kept(m, m1, 0, at) && Kept(m1, m2, 0, i) && Kept(m1, m2, i + 4, |m|);
    KeptTwice(m, m1, m2, 0, at, 0, i, 0, i);
    KeptTwice(m1, m2, m3, i + 4, |m|, i + 8, |m|, base, |m|);
    TwoEntries(m, m2, m3, ps, p);
    KeptTwice(m, m1, m3, 0, at, base, |m|, base, at);
    LiesParts(m1, at, p.key, ValBytes(p));
    KeptPair(m1, m3, base, |m|, at, p);
  }

  lemma {:induction false} TwoEntries(m: seq<int>, m2: seq<int>, m3: seq<int>, ps: seq<Pair>, p: Pair)
    requires var i := 8 * |ps|; i + 8 <= |m| && Kept(m, m2, 0, i) && Clean(m2, i, i + 4)
    requires EntryIn(m2, 2 * |ps|) == NextKey(ps, p) && Stored(m2, m3, 2 * |ps| + 1, NextVal(ps, p))
    ensures EntriesGrown(m, m3, ps, p)
  {
    var n := |ps|;
    KeptTwice(m, m2, m3, 0, 8 * n, 0, 8 * n + 4, 0, 8 * n);
    KeptEntry(m2, m3, 0, 8 * n + 4, 2 * n);
    KeptClean(m2, m3, 8 * n, 8 * n + 4, 8 * n + 8);
  }

  /** The block before and after adding a key, its entry, a value and its entry. */
  lemma {:induction false} AddGrown(m: seq<int>, m1: seq<int>, m2: seq<int>, m3: seq<int>, m4: seq<int>, base: nat,
      ps: seq<Pair>, p: Pair)
    requires 8 * |ps| + 8 <= base && Moved(m, m1, Place(base, ps, |ps|), p.key)
    requires Stored(m1, m2, 2 * |ps|, NextKey(ps, p))
    requires Moved(m2, m3, Place(base, ps, |ps|) + |p.key|, ValBytes(p))
    requires Stored(m3, m4, 2 * |ps| + 1, NextVal(ps, p))
    ensures EntriesGrown(m, m4, ps, p) && StringsGrown(m, m4, base, ps, p)
  {
    var n, at, k := |ps|, Place(base, ps, |ps|), |p.key|;
    var i := 8 * n;
    KeptTwice(m, m1, m2, 0, at, 0, i, 0, i);
    KeptTwice(m, m2, m3, 0, i, 0, at + k, 0, i);
    KeptEntry(m2, m3, 0, at + k, 2 * n);
    KeptClean(m2, m3, i, i + 4, i + 4);
    TwoEntries(m, m3, m4, ps, p);
    assert Kept(m1, m2, i + 4, |m|) && Kept(m3, m4, i + 8, |m|);
    AddStrings(m, m1, m2, m3, m4, base, ps, p, i + 8);
  }

  lemma {:induction false} AddStrings(m: seq<int>, m1: seq<int>, m2: seq<int>, m3: seq<int>, m4: seq<int>, base: nat,
      ps: seq<Pair>, p: Pair,
                   lo: nat)
    requires lo <= base && Moved(m, m1, Place(base, ps, |ps|), p.key) && Kept(m1, m2, lo - 4, |m|)
    requires Moved(m2, m3, Place(base, ps, |ps|) + |p.key|, ValBytes(p)) && Kept(m3, m4, lo, |m|)
    ensures StringsGrown(m, m4, base, ps, p)
  {
    var at, k := Place(base, ps, |ps|), |p.key|;
    KeptTwice(m, m1, m2, 0, at, lo - 4, |m|, base, at);
    KeptTwice(m, m2, m3, base, at, 0, at + k, base, at);
    KeptTwice(m, m3, m4, base, at, lo, |m|, base, at);
    KeptLies(m1, m2, lo - 4, |m|, at, p.key);
    KeptLies(m2, m3, 0, at + k, at, p.key);
    KeptLies(m3, m4, lo, |m|, at, p.key);
    KeptLies(m3, m4, lo, |m|, at + k, ValBytes(p));
  }

  /** Copy a key and the value right behind it. */
  method CopyTo(mem: array<int>, buf: nat, ent: nat, ptr: nat, src: seq<int>, klen: nat, vlen: nat, vnull: bool,
                ghost ps: seq<Pair>, ghost p: Pair) returns (ptr': nat)
    requires 8 * |ps| + 8 <= buf && ent == 2 * |ps| && ptr == Place(buf, ps, |ps|)
    requires ptr + klen + vlen <= mem.Length <= MAXALLOC && src == p.key + ValBytes(p)
    requires klen == |p.key| && vlen == |ValBytes(p)| && vnull == p.val.None?
    modifies mem
    ensures EntriesGrown(old(mem[..]), mem[..], ps, p) && StringsGrown(old(mem[..]), mem[..], buf, ps, p)
    ensures ptr' == ptr + klen + vlen
  {
    ghost var m := mem[..];
    Move(mem, ptr, src);
    ghost var m1 := mem[..];
    ptr' := ptr + klen + vlen;
    PutEntry(mem, ent, Entry(ptr' - buf - vlen, false, false));
    ghost var m2 := mem[..];
    PutEntry(mem, ent + 1, Entry(ptr' - buf, vnull, false));
    CopyGrown(m, m1, m2, mem[..], buf, ps, p);
  }

  /** Add a key and, if there is one, a value. */
  method AddTo(mem: array<int>, buf: nat, ent: nat, ptr: nat, p: Pair, ghost ps: seq<Pair>) returns (ptr': nat)
    requires 8 * |ps| + 8 <= buf && ent == 2 * |ps| && ptr == Place(buf, ps, |ps|)
    requires ptr + |p.key| + |ValBytes(p)| <= mem.Length <= MAXALLOC
    modifies mem
    ensures EntriesGrown(old(mem[..]), mem[..], ps, p) && StringsGrown(old(mem[..]), mem[..], buf, ps, p)
    ensures ptr' == ptr + |p.key| + |ValBytes(p)|
  {
    ghost var m := mem[..];
    Move(mem, ptr, p.key);
    ghost var m1 := mem[..];
    ptr' := ptr + |p.key|;
    PutEntry(mem, ent, Entry(ptr' - buf, false, false));
    ghost var m2 := mem[..];
    if p.val.None? {
      PutEntry(mem, ent + 1, Entry(ptr' - buf, true, false));
      AddGrown(m, m1, m2, m2, mem[..], buf, ps, p);
    } else {
      Move(mem, ptr', p.val.value);
      ghost var m3 := mem[..];
      ptr' := ptr' + |p.val.value|;
      PutEntry(mem, ent + 1, Entry(ptr' - buf, false, false));
      AddGrown(m, m1, m2, m3, mem[..], buf, ps, p);
    }
  }

  /** The block after flagging the first entry. */
  ghost predicate Flagged(m: seq<int>, m1: seq<int>, ps: seq<Pair>)
  {
    if |ps| > 0 then 4 <= |m| && Stored(m, m1, 0, EntryIn(m, 0).(isfirst := true)) else m1 == m
  }

  /** The block after closing the gap. */
  ghost predicate Shifted(m: seq<int>, m1: seq<int>, base: nat, ps: seq<Pair>)
  {
    var n, end := |ps|, Place(base, ps, |ps|);
    base <= end <= |m| && if 8 * n != base then Moved(m, m1, 8 * n, m[base..end]) else m1 == m
  }

  method SetFirst(mem: array<int>, count: nat, ghost ps: seq<Pair>)
    requires count == |ps| && 8 * count <= mem.Length
    modifies mem
    ensures Flagged(old(mem[..]), mem[..], ps)
  {
    if count > 0 {
      PutEntry(mem, 0, EntryIn(mem[..], 0).(isfirst := true));
    }
  }

  method CloseGap(mem: array<int>, size: int, cap: nat, ptr: nat, count: nat, ghost ps: seq<Pair>) returns (size': int)
    requires count == |ps| <= cap < COUNTLIMIT && size == cap + NEWVERSION
    requires ptr == Place(8 * cap, ps, |ps|) <= mem.Length
    modifies mem
    ensures Shifted(old(mem[..]), mem[..], 8 * cap, ps) && size' == count + NEWVERSION
  {
    size' := size;
    if count != size % COUNTLIMIT {
      size' := count + NEWVERSION;
      Move(mem, 8 * count, mem[8 * cap..ptr]);
    }
  }

  // ---------------------------------------------------------------- the hstore under construction

  /** Room for `cap` pairs, the next entry and the next free byte; `items` are the pairs so far. */
  class Builder {
    const mem: array<int>
    const cap: nat
    var size: int
    var ent: nat
    var ptr: nat
    ghost var items: seq<Pair>

    ghost predicate Valid()
      reads this, mem
    {
      && size == cap + NEWVERSION && HEADER + mem.Length <= MAXALLOC
      && ent == 2 * |items| && ptr == Place(8 * cap, items, |items|)
      && Filled(mem[..], 8 * cap, items)
    }

    constructor (room: nat, count: nat)
      requires 8 * count <= room && HEADER + room <= MAXALLOC
      ensures Valid() && fresh(mem) && mem.Length == room && cap == count && items == []
    {
      mem := new int[room];
      cap := count;
      size := count + NEWVERSION;
      ent, ptr := 0, 8 * count;
      items := [];
    }

    method CopyItem(src: seq<int>, klen: nat, vlen: nat, vnull: bool, ghost p: Pair)
      requires Valid() && |items| < cap && ptr + klen + vlen <= mem.Length
      requires PairInRange(p) && klen == |p.key| && vlen == |ValBytes(p)| && vnull == p.val.None?
      requires src == p.key + ValBytes(p)
      modifies this, mem
      ensures Valid() && items == old(items) + [p]
    {
      ghost var m := mem[..];
      ptr := CopyTo(mem, 8 * cap, ent, ptr, src, klen, vlen, vnull, items, p);
      ent := ent + 2;
      FilledGrows(m, mem[..], 8 * cap, items, p);
      items := items + [p];
    }

    method AddItem(p: Pair)
      requires Valid() && |items| < cap && ptr + |p.key| + |ValBytes(p)| <= mem.Length && PairInRange(p)
      modifies this, mem
      ensures Valid() && items == old(items) + [p]
    {
      ghost var m := mem[..];
      ptr := AddTo(mem, 8 * cap, ent, ptr, p, items);
      ent := ent + 2;
      FilledGrows(m, mem[..], 8 * cap, items, p);
      items := items + [p];
    }

    /** Flag the first entry, close the gap behind the entries, and cut the block to size. */
    method Finalize(count: nat) returns (h: HStore)
      requires Valid() && count == |items|
      modifies this, mem
      ensures items == old(items) && Rep(h, items)
    {
      ghost var m := mem[..];
      var buflen := ptr - 8 * cap;
      SetFirst(mem, count, items);
      ghost var m1 := mem[..];
      size := CloseGap(mem, size, cap, ptr, count, items);
      h := HStore(size, mem[..8 * count + buflen]);
      ClosesUp(m, m1, mem[..], 8 * cap, items, h);
    }
  }

  // ---------------------------------------------------------------- closing is right

  lemma {:induction false} FlagKeeps(m: seq<int>, m1: seq<int>, base: nat, ps: seq<Pair>)
    requires Flagged(m, m1, ps) && Filled(m, base, ps)
    ensures Clean(m1, 0, 8 * |ps|) && Kept(m, m1, if |ps| > 0 then 4 else 0, |m|)
  {
  }

  lemma {:induction false} ShiftKeeps(m: seq<int>, m1: seq<int>, base: nat, ps: seq<Pair>)
    requires Shifted(m, m1, base, ps) && 8 * |ps| <= base
    ensures Kept(m, m1, 0, 8 * |ps|) && Lies(m1, 8 * |ps|, m[base..Place(base, ps, |ps|)])
  {
  }

  lemma {:induction false} ClosesUp(m: seq<int>, m1: seq<int>, m2: seq<int>, base: nat, ps: seq<Pair>, h: HStore)
    requires Filled(m, base, ps) && HEADER + |m| <= MAXALLOC
    requires Flagged(m, m1, ps) && Shifted(m1, m2, base, ps)
    requires var n, end := |ps|, Place(base, ps, |ps|);
      8 * n + end - base <= |m2| && h == HStore(n + NEWVERSION, m2[..8 * n + end - base])
    ensures Rep(h, ps)
  {
    var n, end := |ps|, Place(base, ps, |ps|);
    FlagKeeps(m, m1, base, ps);
    ShiftKeeps(m1, m2, base, ps);
    assert m1[base..end] == m[base..end];
    LiesPrefix(m2, 8 * n, m[base..end], h.area);
    CutClean(m1, m2, 8 * n, m[base..end], h.area);
    forall j | 1 <= j < 2 * n ensures EntryIn(h.area, j) == EntryIn(m, j) {
      KeptEntry(m, m1, 4, |m|, j);
      KeptEntry(m1, m2, 0, 8 * n, j);
    }
    if n > 0 {
      KeptEntry(m1, m2, 0, 8 * n, 0);
    }
    ClosedRep(m, base, ps, h);
  }

  lemma {:induction false} LiesPrefix(m: seq<int>, off: int, t: seq<int>, area: seq<int>)
    requires Lies(m, off, t) && area == m[..off + |t|]
    ensures Lies(area, off, t)
  {
  }

  lemma {:induction false} CutClean(m: seq<int>, m': seq<int>, off: int, t: seq<int>, area: seq<int>)
    requires Clean(m, 0, off) && Kept(m, m', 0, off) && Lies(m', off, t) && InRange(t) && area == m'[..off + |t|]
    ensures InRange(area)
  {
    LiesClean(m', off, t);
    forall q | 0 <= q < |area| ensures IsByte(area[q]) {
      assert area[q] == m'[q];
    }
  }

  // ---------------------------------------------------------------- packing a list

  lemma {:induction false} AddRoom(pairs: seq<Pair>, i: nat, n: nat, base: int)
    requires i < n <= |pairs|
    ensures Place(base, pairs[..i], i) + |pairs[i].key| + |ValBytes(pairs[i])| <= base + StrLen(pairs, n)
    ensures pairs[..i + 1] == pairs[..i] + [pairs[i]]
  {
    StrLenSame(pairs[..i], pairs, i);
    StrLenMonotone(pairs, i + 1, n);
  }

  /** hstorePairs: the size in one int32, and no block beyond the allocation limit. */
  method HstorePairs(pairs: seq<Pair>, pcount: nat, buflen: nat) returns (r: Option<HStore>)
    requires pcount <= |pairs| && pcount <= INT_MAX / 40 && buflen == StrLen(pairs, pcount) <= INT_MAX
    requires forall i | 0 <= i < pcount :: PairInRange(pairs[i])
    ensures r.Some? <==> Fits(pairs[..pcount])
    ensures r.Some? ==> Rep(r.value, pairs[..pcount])
  {
    ghost var ps := pairs[..pcount];
    StrLenSame(ps, pairs, pcount);
    var len := Wrap32(8 * pcount + HEADER + buflen);
    if len < 0 || len > MAXALLOC {
      return None;
    }
    if pcount == 0 {
      return Some(HStore(NEWVERSION, []));
    }
    var b := new Builder(len - HEADER, pcount);
    for i := 0 to pcount
      invariant b.Valid() && fresh(b) && fresh(b.mem) && b.cap == pcount && b.mem.Length == 8 * pcount + buflen
      invariant b.items == pairs[..i]
    {
      AddRoom(pairs, i, pcount, 8 * pcount);
      b.AddItem(pairs[i]);
    }
    var h := b.Finalize(pcount);
    r := Some(h);
  }
}
