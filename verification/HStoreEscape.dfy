/** What hstore_out writes among all texts of the same pairs (contrib/hstore/hstore_io.c: cpw,
    hstore_out): each string in quotes, in the one shortest way. */
module HStoreEscape {
  import opened Options
  import opened Lex
  import opened HStoreLayout
  import opened HStoreUnique
  import opened HStoreText
  import opened HStoreSpell
  import opened HStoreList

  // ---------------------------------------------------------------- one string

  /** A quote and a backslash get a backslash, nothing else does. */
  function EscUnits(s: Bytes): (us: seq<Unit>)
    ensures |us| == |s| && forall i | 0 <= i < |s| :: us[i] == if s[i] in [34, 92] then Escaped(s[i]) else Plain(s[i])
  {
    seq(|s|, i requires 0 <= i < |s| => if s[i] in [34, 92] then Escaped(s[i]) else Plain(s[i]))
  }

  lemma {:induction false} EscIsUnits(s: Bytes)
    ensures UnitsText(EscUnits(s)) == Esc(s) && Chars(EscUnits(s)) == s && QuotedOk(EscUnits(s))
  {
    if s != [] {
      EscIsUnits(s[1..]);
      assert EscUnits(s)[1..] == EscUnits(s[1..]);
    }
  }

  /** The escaped string is longer by the number of its quotes and backslashes. */
  lemma {:induction false} EscLength(s: Bytes)
    ensures |Esc(s)| == |s| + multiset(s)[34] + multiset(s)[92]
  {
    if s != [] {
      EscLength(s[1..]);
      assert s == [s[0]] + s[1..];
      assert multiset(s) == multiset{s[0]} + multiset(s[1..]);
    }
  }

  lemma {:induction false} EscPlain(s: Bytes)
    requires 34 !in s && 92 !in s
    ensures Esc(s) == s
  {
    if s != [] {
      assert s == [s[0]] + s[1..] && s[0] in s;
      EscPlain(s[1..]);
    }
  }

  /** Every other way to spell the same string between quotes is longer. */
  lemma {:induction false} EscLeast(us: seq<Unit>)
    requires QuotedOk(us)
    ensures |Esc(Chars(us))| <= |UnitsText(us)|
    ensures |Esc(Chars(us))| == |UnitsText(us)| ==> UnitsText(us) == Esc(Chars(us))
  {
    var s := Chars(us);
    if us != [] {
      EscLeast(us[1..]);
      assert s[1..] == Chars(us[1..]);
      assert us[0].Plain? ==> us[0].c != 34 && us[0].c != 92;
    }
  }

  /** Of all the bytes that get_val reads as a string between quotes, the escaped string is the
      only shortest. */
  lemma {:induction false} EscShortest(s: Bytes, b: Bytes, ie: bool)
    requires GetVal([34] + b + [34], 0, ie) == Word(s, true, |b| + 1)
    ensures |Esc(s)| <= |b| && (|Esc(s)| == |b| ==> b == Esc(s))
  {
    var t := [34] + b + [34];
    assert GetVal(t, 0, ie) == ScanFrom(t, 1, InEscVal, ie, [], true);
    var us := QuotedRead(t, 1, ie, []);
    assert [] + Chars(us) == Chars(us) && t[1..|b| + 1] == b;
    EscLeast(us);
  }

  /** And it is one of them. */
  lemma {:induction false} EscRead(s: Bytes, ie: bool)
    requires |s| <= WORDMAX
    ensures GetVal([34] + Esc(s) + [34], 0, ie) == Word(s, true, |Esc(s)| + 1)
  {
    var us := EscUnits(s);
    EscIsUnits(s);
    assert [34] + Esc(s) + [34] == [34] + (UnitsText(us) + [34]);
    QuotedGet([34] + Esc(s) + [34], 0, us, ie);
  }

  // ---------------------------------------------------------------- whole texts

  /** How a pair is written: a space before every pair but the first, no other white space. */
  function Printed(p: Pair, first: bool): PairSpelling
  {
    PairSpelling(Lead(first), InQuotes(EscUnits(p.key)), [], [], PrintedVal(p.val), [])
  }

  function PrintedVal(v: Option<Bytes>): Spelling
  {
    if v.None? then Bare(NullUnits()) else InQuotes(EscUnits(v.value))
  }

  function NullUnits(): seq<Unit> { [Plain(78), Plain(85), Plain(76), Plain(76)] }

  lemma {:induction false} NullText()
    ensures UnitsText(NullUnits()) == [78, 85, 76, 76] && Chars(NullUnits()) == [78, 85, 76, 76]
    ensures BareOk(NullUnits(), true)
  {
    var us := NullUnits();
    assert us[1..] == [Plain(85), Plain(76), Plain(76)] && us[1..][1..] == [Plain(76), Plain(76)];
    assert us[1..][1..][1..] == [Plain(76)] && us[1..][1..][1..][1..] == [];
  }

  lemma {:induction false} QuotedText(s: Bytes)
    requires |s| <= WORDMAX
    ensures var q := InQuotes(EscUnits(s));
      SpellingText(q) == Quoted(s) && Chars(q.us) == s && forall isval :: SpellingOk(q, isval)
  {
    EscIsUnits(s);
  }

  lemma {:induction false} ValueText(v: Option<Bytes>)
    requires v.Some? ==> |v.value| <= WORDMAX
    ensures SpellingText(PrintedVal(v)) == ValText(v) && SpellingOk(PrintedVal(v), true)
    ensures HStoreList.ValueOf(PrintedVal(v)) == v
  {
    if v.Some? {
      QuotedText(v.value);
    } else {
      NullText();
    }
  }

  lemma {:induction false} PrintedStrings(p: Pair, first: bool)
    requires Wordy(p)
    ensures var q := Printed(p, first);
      && SpellingText(q.key) == Quoted(p.key) && SpellingText(q.val) == ValText(p.val)
      && PairOk(q) && HStoreList.PairOf(q) == Item(p, true)
  {
    QuotedText(p.key);
    ValueText(p.val);
  }

  lemma {:induction false} PrintedText(p: Pair, first: bool)
    requires Wordy(p)
    ensures PairSpelled(Printed(p, first)) == Lead(first) + PairText(p)
    ensures PairOk(Printed(p, first)) && HStoreList.PairOf(Printed(p, first)) == Item(p, true)
  {
    var q := Printed(p, first);
    PrintedStrings(p, first);
    assert [] + ValText(p.val) == ValText(p.val) && [] + [61, 62] == [61, 62] && ValText(p.val) + [] == ValText(p.val);
    PairParts(q.before, Quoted(p.key), ValText(p.val));
  }

  lemma {:induction false} PairParts(a: Bytes, k: Bytes, v: Bytes)
    ensures a + k + ([61, 62] + v) == a + (k + [61, 62] + v)
  {
  }

  function PrintedList(ps: seq<Pair>, i: nat): seq<PairSpelling>
    requires i <= |ps|
  {
    seq(|ps| - i, j requires 0 <= j < |ps| - i => Printed(ps[i + j], i + j == 0))
  }

  lemma {:induction false} RestParts(a: Bytes, p: Bytes, r: Bytes)
    ensures a + p + ([44] + ([32] + r)) == a + (p + [44, 32] + r)
  {
  }

  function Lead(first: bool): Bytes { if first then [] else [32] }

  /** One pair in front of the rest. */
  lemma {:induction false} PairFirst(l: seq<PairSpelling>, lead: Bytes, p: Bytes, r: Bytes)
    requires |l| > 1 && PairSpelled(l[0]) == lead + p && ListSpelled(l[1..], false, []) == [32] + r
    ensures ListSpelled(l, false, []) == lead + (p + [44, 32] + r)
  {
    RestParts(lead, p, r);
  }

  lemma {:induction false} PrintedNext(ps: seq<Pair>, i: nat)
    requires i < |ps|
    ensures |PrintedList(ps, i)| == |ps| - i
    ensures PrintedList(ps, i)[0] == Printed(ps[i], i == 0) && PrintedList(ps, i)[1..] == PrintedList(ps, i + 1)
  {
  }

  /** The text from the i-th pair on, with the space before it, spells the pairs from there on. */
  predicate SpelledFrom(ps: seq<Pair>, i: nat)
  {
    i < |ps| && ListText(PrintedList(ps, i), false, []) == Lead(i == 0) + Rest(ps, i)
  }

  predicate AllWordy(ps: seq<Pair>) { forall j | 0 <= j < |ps| :: Wordy(ps[j]) }

  lemma {:induction false} LastSpelled(ps: seq<Pair>, i: nat)
    requires i + 1 == |ps| && AllWordy(ps)
    ensures SpelledFrom(ps, i)
  {
    PrintedNext(ps, i);
    PrintedText(ps[i], i == 0);
  }

  lemma {:induction false} MoreSpelled(ps: seq<Pair>, i: nat, n: nat)
    requires AllWordy(ps) && i + n + 2 == |ps|
    ensures SpelledFrom(ps, i)
    decreases n, 1
  {
    RestSpelled(ps, i + 1, n);
    PrintedNext(ps, i);
    PrintedText(ps[i], i == 0);
    PairFirst(PrintedList(ps, i), Lead(i == 0), PairText(ps[i]), Rest(ps, i + 1));
  }

  lemma {:induction false} RestSpelled(ps: seq<Pair>, i: nat, n: nat)
    requires AllWordy(ps) && i + n + 1 == |ps|
    ensures SpelledFrom(ps, i)
    decreases n, 0
  {
    if n == 0 {
      LastSpelled(ps, i);
    } else {
      MoreSpelled(ps, i, n - 1);
    }
  }

  /** The text hstore_out writes spells the pairs it was given. */
  lemma {:induction false} RestSpells(ps: seq<Pair>)
    requires forall j | 0 <= j < |ps| :: Wordy(ps[j])
    ensures Spells(Rest(ps, 0), PrintedList(ps, 0), false, []) && PairsOfList(PrintedList(ps, 0)) == Items(ps, 0)
  {
    var l := PrintedList(ps, 0);
    ItemsAre(ps, 0);
    forall j | 0 <= j < |l| ensures PairOk(l[j]) && HStoreList.PairOf(l[j]) == Item(ps[j], true) {
      PrintedText(ps[j], j == 0);
    }
    if ps == [] {
      assert l == [];
    } else {
      RestSpelled(ps, 0, |ps| - 1);
      assert [] + Rest(ps, 0) == Rest(ps, 0);
    }
  }

  /** What hstore_out writes, parse_hstore reads back, pair by pair, unless there are too many. */
  lemma {:induction false} PrintedIsParsed(ps: seq<Pair>)
    requires forall j | 0 <= j < |ps| :: Wordy(ps[j])
    ensures Parse(Rest(ps, 0)) == if |ps| <= PAIRMAX then Ok(Items(ps, 0)) else Error
  {
    RestSpells(ps);
    SpelledParse(Rest(ps, 0), PrintedList(ps, 0), false, []);
  }

  /** Lists are printed one behind the other, with a comma and a space between them. */
  lemma {:induction false} RestJoin(ps: seq<Pair>, qs: seq<Pair>, i: nat)
    requires i < |ps| && qs != []
    ensures Rest(ps + qs, i) == Rest(ps, i) + [44, 32] + Rest(qs, 0)
    decreases |ps| - i
  {
    if i + 1 < |ps| {
      RestJoin(ps, qs, i + 1);
      ThreeJoin(PairText(ps[i]), Rest(ps, i + 1), Rest(qs, 0));
    } else {
      assert (ps + qs)[|ps|..] == qs == qs[0..];
      RestSuffix(ps + qs, |ps|, qs, 0);
    }
  }

  lemma {:induction false} ThreeJoin(p: Bytes, a: Bytes, b: Bytes)
    ensures p + [44, 32] + (a + [44, 32] + b) == p + [44, 32] + a + [44, 32] + b
  {
  }

  lemma {:induction false} SuffixNext(ps: seq<Pair>, i: nat, qs: seq<Pair>, j: nat)
    requires i < |ps| && j <= |qs| && ps[i..] == qs[j..]
    ensures j < |qs| && |ps| - i == |qs| - j && ps[i] == qs[j] && ps[i + 1..] == qs[j + 1..]
  {
    assert ps[i..][0] == qs[j..][0] && ps[i..][1..] == qs[j..][1..];
  }

  lemma {:induction false} RestSuffix(ps: seq<Pair>, i: nat, qs: seq<Pair>, j: nat)
    requires i <= |ps| && j <= |qs| && ps[i..] == qs[j..]
    ensures Rest(ps, i) == Rest(qs, j)
    decreases |ps| - i
  {
    if i < |ps| {
      SuffixNext(ps, i, qs, j);
      RestSuffix(ps, i + 1, qs, j + 1);
    }
  }

  // ---------------------------------------------------------------- an hstore read and printed

  /** The text `a=>b` is read as the key "a" with the value "b". */
  lemma {:induction false} ReadExample(t: Bytes)
    requires t == [97, 61, 62, 98]
    ensures Parse(t) == Ok([Item(Pair([97], Some([98])), true)])
  {
    var k, v := [Plain(97)], [Plain(98)];
    var p := PairSpelling([], Bare(k), [], [], Bare(v), []);
    assert k[1..] == [] && v[1..] == [] && UnitsText(k) == [97] && UnitsText(v) == [98];
    assert Chars(k) == [97] && Chars(v) == [98];
    assert KeySpelled(p) == [97] && ValSpelled(p) == [98] && PairSpelled(p) == t;
    assert PairOk(p) && Spells(t, [p], false, []);
    SpelledParse(t, [p], false, []);
    assert PairsOfList([p]) == [Item(Pair([97], Some([98])), true)];
  }

  /** The keys "a", with the value "b", and "c", without one, are printed as `"a"=>"b", "c"=>NULL`. */
  lemma {:induction false} PrintExample(p: Pair, q: Pair)
    requires p == Pair([97], Some([98])) && q == Pair([99], None)
    ensures Rest([p, q], 0)
      == [34, 97, 34, 61, 62, 34, 98, 34, 44, 32, 34, 99, 34, 61, 62, 78, 85, 76, 76]
  {
    EscPlain(p.key);
    EscPlain(p.val.value);
    EscPlain(q.key);
    RestTwo(p, q);
  }

  lemma {:induction false} RestTwo(p: Pair, q: Pair)
    ensures Rest([p, q], 0) == PairText(p) + [44, 32] + PairText(q)
  {
    assert Rest([p, q], 1) == PairText(q);
  }
}
