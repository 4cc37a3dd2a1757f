/** The btree order of hstores and what hashing relies on (contrib/hstore/hstore_op.c:
    hstore_cmp, hstore_hash). */
module HStoreCmp {
  import opened Lex
  import opened HStoreLayout
  import opened HStoreMap

  // ---------------------------------------------------------------- the order

  /** End position and null mark of an entry as one number. */
  function Code(e: Entry): int { 2 * e.pos + if e.isnull then 1 else 0 }

  function Codes(es: seq<Entry>): (c: seq<int>)
    ensures |c| == |es| && forall i | 0 <= i < |es| :: c[i] == Code(es[i])
  {
    seq(|es|, i requires 0 <= i < |es| => Code(es[i]))
  }

  function Strings(h: HStore): Bytes
    requires Holds(h)
  {
    h.area[StrPtr(h)..]
  }

  /** Strings first, then the number of pairs, then the entries. */
  function Order(g: HStore, h: HStore): int
    requires Holds(g) && Holds(h)
  {
    var c := Cmp(Strings(g), Strings(h));
    if c != 0 then c
    else if Count(g) > Count(h) then 1
    else if Count(g) < Count(h) then -1
    else Cmp(Codes(ArrPtr(g)), Codes(ArrPtr(h)))
  }

  lemma {:induction false} OrderFlip(g: HStore, h: HStore)
    requires Holds(g) && Holds(h)
    ensures Order(h, g) == -Order(g, h)
  {
    CmpFlip(Strings(g), Strings(h));
    CmpFlip(Codes(ArrPtr(g)), Codes(ArrPtr(h)));
  }

  lemma {:induction false} OrderTrans(f: HStore, g: HStore, h: HStore)
    requires Holds(f) && Holds(g) && Holds(h) && Order(f, g) <= 0 && Order(g, h) <= 0
    ensures Order(f, h) <= 0
    ensures Order(f, g) < 0 || Order(g, h) < 0 ==> Order(f, h) < 0
  {
    var a, b, c := Strings(f), Strings(g), Strings(h);
    CmpTrans(a, b, c);
    CmpZero(a, b);
    CmpZero(b, c);
    CmpZero(a, c);
    if a == b == c && Count(f) == Count(g) == Count(h) {
      CmpTrans(Codes(ArrPtr(f)), Codes(ArrPtr(g)), Codes(ArrPtr(h)));
    }
  }

  lemma {:induction false} FlagAt(es: seq<Entry>, ps: seq<Pair>, n: nat, i: nat)
    requires i < n == |ps| && EntriesOf(es, ps, n)
    ensures (es[2 * i].isfirst <==> i == 0) && !es[2 * i + 1].isfirst
  {
    assert EntriesAt(es, ps, i);
  }

  lemma {:induction false} FirstFlag(h: HStore, ps: seq<Pair>, j: nat)
    requires Rep(h, ps) && j < 2 * |ps|
    ensures ArrPtr(h)[j].isfirst <==> j == 0
  {
    FlagAt(ArrPtr(h), ps, |ps|, j / 2);
    assert j == 2 * (j / 2) || j == 2 * (j / 2) + 1;
  }

  lemma {:induction false} CodeInjective(e: Entry, f: Entry)
    requires Code(e) == Code(f) && e.isfirst == f.isfirst
    ensures e == f
  {
  }

  /** No difference, no byte apart. */
  lemma {:induction false} SameBytes(g: HStore, h: HStore, ps: seq<Pair>, qs: seq<Pair>)
    requires Rep(g, ps) && Rep(h, qs) && Strings(g) == Strings(h) && Count(g) == Count(h)
    requires Codes(ArrPtr(g)) == Codes(ArrPtr(h))
    ensures g == h
  {
    var n := |ps|;
    forall j | 0 <= j < 2 * n ensures EntryIn(g.area, j) == EntryIn(h.area, j) {
      FirstFlag(g, ps, j);
      FirstFlag(h, qs, j);
      assert Codes(ArrPtr(g))[j] == Codes(ArrPtr(h))[j];
      CodeInjective(ArrPtr(g)[j], ArrPtr(h)[j]);
    }
    SameWords(g.area, h.area, 2 * n);
    assert g.area[..8 * n] == h.area[..8 * n];
    assert g.area == g.area[..8 * n] + Strings(g) && h.area == h.area[..8 * n] + Strings(h);
  }

  /** Zero exactly on equal maps, and then the bodies agree to the byte. */
  lemma {:induction false} OrderZero(g: HStore, h: HStore, m: Map, l: Map)
    requires Denotes(g, m) && Denotes(h, l)
    ensures Order(g, h) == 0 <==> m == l
    ensures m == l ==> g == h
  {
    var ps: seq<Pair> :| Canonical(g, ps) && AsMap(ps) == m;
    var qs: seq<Pair> :| Canonical(h, qs) && AsMap(qs) == l;
    DenotesUnique(g, h, m, l);
    CmpZero(Strings(g), Strings(h));
    CmpZero(Codes(ArrPtr(g)), Codes(ArrPtr(h)));
    if Order(g, h) == 0 {
      SameBytes(g, h, ps, qs);
    }
  }

  /** The size that hashing asserts: header, entries, and the last end position. */
  lemma {:induction false} SizeExact(h: HStore, m: Map)
    requires Denotes(h, m)
    ensures Exact(h)
  {
    var ps: seq<Pair> :| Canonical(h, ps) && AsMap(ps) == m;
    if |ps| > 0 {
      assert EntriesAt(ArrPtr(h), ps, |ps| - 1);
    }
  }

  // ---------------------------------------------------------------- the comparison

  /** The first place where two entry arrays part, by end position or null mark. */
  method FirstApart(es: seq<Entry>, fs: seq<Entry>) returns (i: nat)
    requires |es| == |fs|
    ensures i <= |es| && Codes(es)[..i] == Codes(fs)[..i] && (i < |es| ==> Codes(es)[i] != Codes(fs)[i])
  {
    i := 0;
    while i < |es|
      invariant i <= |es| && Codes(es)[..i] == Codes(fs)[..i]
    {
      if es[i].pos != fs[i].pos || es[i].isnull != fs[i].isnull {
        break;
      }
      assert Codes(es)[i] == Codes(fs)[i];
      i := i + 1;
    }
  }

  method CompareEntries(es: seq<Entry>, fs: seq<Entry>) returns (res: int)
    requires |es| == |fs|
    ensures res == Cmp(Codes(es), Codes(fs))
  {
    res := 0;
    var i := FirstApart(es, fs);
    CpUnique(Codes(es), Codes(fs), i);
    if i < |es| {
      if es[i].pos < fs[i].pos {
        res := -1;
      } else if es[i].pos > fs[i].pos {
        res := 1;
      } else if es[i].isnull {
        res := 1;
      } else if fs[i].isnull {
        res := -1;
      }
    }
  }

  /** The block ends with the last string. */
  predicate Exact(h: HStore)
  {
    Holds(h) && |h.area| == 8 * Count(h) + (if Count(h) == 0 then 0 else ArrPtr(h)[2 * Count(h) - 1].pos)
  }

  /** At the first entry that differs, the first array has the lower end position, or the same
      and no null mark. */
  ghost predicate EntriesBefore(es: seq<Entry>, fs: seq<Entry>)
  {
    exists k :: LowerAt(es, fs, k)
  }

  /** Which of two hstores comes first: the one with no pairs; else the one whose strings come
      first in the dictionary; of equal strings, the one with fewer pairs; of as many pairs, the
      one whose entries come first. */
  ghost predicate Precedes(g: HStore, h: HStore)
    requires Holds(g) && Holds(h)
  {
    if Count(g) == 0 || Count(h) == 0 then Count(g) < Count(h)
    else if Strings(g) != Strings(h) then Before(Strings(g), Strings(h))
    else if Count(g) != Count(h) then Count(g) < Count(h)
    else EntriesBefore(ArrPtr(g), ArrPtr(h))
  }

  /** The entries agree before place `k`, and there the first array is the lower one. */
  predicate LowerAt(es: seq<Entry>, fs: seq<Entry>, k: int)
  {
    && 0 <= k < |es| && k < |fs|
    && (forall i | 0 <= i < k :: es[i].pos == fs[i].pos && es[i].isnull == fs[i].isnull)
    && (es[k].pos < fs[k].pos || (es[k].pos == fs[k].pos && !es[k].isnull && fs[k].isnull))
  }

  lemma {:induction false} CodesLowerAt(es: seq<Entry>, fs: seq<Entry>, k: int)
    requires |es| == |fs| && 0 <= k < |es|
    ensures LowerAt(es, fs, k) <==> Codes(es)[..k] == Codes(fs)[..k] && Codes(es)[k] < Codes(fs)[k]
  {
    var c, d := Codes(es), Codes(fs);
    if c[..k] == d[..k] {
      forall i | 0 <= i < k ensures es[i].pos == fs[i].pos && es[i].isnull == fs[i].isnull {
        assert c[..k][i] == d[..k][i];
      }
    }
    if LowerAt(es, fs, k) {
      assert c[..k] == d[..k];
    }
  }

  lemma {:induction false} CodesBefore(es: seq<Entry>, fs: seq<Entry>)
    requires |es| == |fs|
    ensures Cmp(Codes(es), Codes(fs)) == -1 <==> EntriesBefore(es, fs)
  {
    var c, d := Codes(es), Codes(fs);
    CmpBefore(c, d);
    if Before(c, d) {
      var k :| 0 <= k <= |c| && k < |d| && c[..k] == d[..k] && (k == |c| || c[k] < d[k]);
      CodesLowerAt(es, fs, k);
    }
    if EntriesBefore(es, fs) {
      var k :| LowerAt(es, fs, k);
      CodesLowerAt(es, fs, k);
    }
  }

  lemma {:induction false} OrderPrecedes(g: HStore, h: HStore)
    requires Exact(g) && Exact(h)
    ensures Order(g, h) == -1 <==> Precedes(g, h)
  {
    if Count(g) == 0 || Count(h) == 0 {
      EmptyFirst(g, h);
    } else {
      CmpBefore(Strings(g), Strings(h));
      if Count(g) == Count(h) {
        CodesBefore(ArrPtr(g), ArrPtr(h));
      }
    }
  }

  /** hstore_cmp: -1, 1 or 0 as the first, the second or neither precedes the other; the last if
      and only if the maps are equal. */
  method HstoreCmp(g: HStore, h: HStore, ghost m: Map, ghost l: Map) returns (res: int)
    requires Denotes(g, m) && Denotes(h, l)
    ensures Exact(g) && Exact(h) && -1 <= res <= 1
    ensures res == -1 <==> Precedes(g, h)
    ensures res == 1 <==> Precedes(h, g)
    ensures res == 0 <==> m == l
    ensures res == Order(g, h)
  {
    SizeExact(g, m);
    SizeExact(h, l);
    res := CompareExact(g, h);
    OrderZero(g, h, m, l);
    OrderPrecedes(g, h);
    OrderPrecedes(h, g);
    OrderFlip(g, h);
  }

  method CompareExact(g: HStore, h: HStore) returns (res: int)
    requires Exact(g) && Exact(h)
    ensures res == Order(g, h)
  {
    var hcount1, hcount2 := Count(g), Count(h);
    if hcount1 == 0 || hcount2 == 0 {
      res := 0;
      EmptyFirst(g, h);
      if hcount1 > 0 {
        res := 1;
      } else if hcount2 > 0 {
        res := -1;
      }
    } else {
      var c := CompareStrings(g, h);
      res := c;
      if c == 0 {
        if hcount1 > hcount2 {
          res := 1;
        } else if hcount2 > hcount1 {
          res := -1;
        } else {
          res := CompareEntries(ArrPtr(g), ArrPtr(h));
        }
      }
    }
  }

  method CompareStrings(g: HStore, h: HStore) returns (res: int)
    requires Exact(g) && Exact(h) && Count(g) > 0 && Count(h) > 0
    ensures res == Cmp(Strings(g), Strings(h))
  {
    var len1, len2 := ArrPtr(g)[2 * Count(g) - 1].pos, ArrPtr(h)[2 * Count(h) - 1].pos;
    var str1, str2 := Strings(g), Strings(h);
    var min := if len1 < len2 then len1 else len2;
    MemcmpThenLength(str1, str2);
    res := Cmp(str1[..min], str2[..min]);
    if res == 0 {
      if len1 > len2 {
        res := 1;
      } else if len1 < len2 {
        res := -1;
      }
    }
  }

  /** Comparing the common length and then the lengths is comparing the strings. */
  lemma {:induction false} MemcmpThenLength(a: Bytes, b: Bytes)
    ensures var n := if |a| < |b| then |a| else |b|;
      var c := Cmp(a[..n], b[..n]);
      Cmp(a, b) == if c != 0 then c else if |a| > |b| then 1 else if |a| < |b| then -1 else 0
  {
    var n := if |a| < |b| then |a| else |b|;
    CpSplits(a, b);
    var k := Cp(a, b);
    assert a[..n][..k] == a[..k] && b[..n][..k] == b[..k];
    CpUnique(a[..n], b[..n], k);
  }

  lemma {:induction false} CmpEmpty(b: seq<int>)
    ensures Cmp([], b) == if b == [] then 0 else -1
    ensures Cmp(b, []) == if b == [] then 0 else 1
  {
    CpSplits([], b);
    CpSplits(b, []);
  }

  /** Where one side is empty the comparison of strings and counts already says so. */
  lemma {:induction false} EmptyFirst(g: HStore, h: HStore)
    requires Exact(g) && Exact(h) && (Count(g) == 0 || Count(h) == 0)
    ensures Order(g, h) == if Count(g) > 0 then 1 else if Count(h) > 0 then -1 else 0
  {
    CmpEmpty(Strings(g));
    CmpEmpty(Strings(h));
    CmpEmpty([]);
    assert Count(g) == 0 ==> Strings(g) == [] && Codes(ArrPtr(g)) == [];
    assert Count(h) == 0 ==> Strings(h) == [] && Codes(ArrPtr(h)) == [];
  }
}
