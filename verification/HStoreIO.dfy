/** Text in, text out (contrib/hstore/hstore_io.c: hstore_in, hstore_out), and the way there
    and back. */
module HStoreIO {
  import opened Options
  import opened Int32
  import opened Lex
  import opened HStoreLayout
  import opened HStoreMap
  import opened HStoreUnique
  import opened HStoreText
  import E = HStoreEscape
  import L = HStoreList
  import B = HStoreBuild
  import P = HStoreParser
  import W = HStorePrint

  /** The map has every key of a list of pairs, each with the value of one of its pairs. */
  ghost predicate Chosen(s: seq<Item>, m: Map)
  {
    && (forall x | x in s :: x.pair.key in m)
    && (forall k | k in m :: exists x :: x in s && x.pair == Pair(k, m[k]))
  }

  lemma {:induction false} UniqueChosen(s: seq<Item>, r: seq<Item>)
    requires Sorted(PairsOf(r)) && (forall x | x in r :: x in s) && (forall x | x in s :: HasKey(r, x.pair.key))
    ensures Chosen(s, AsMap(PairsOf(r)))
  {
    var ps := PairsOf(r);
    var m := AsMap(ps);
    forall x | x in s ensures x.pair.key in m {
      var t :| 0 <= t < |r| && r[t].pair.key == x.pair.key;
      MapHas(ps, |ps|, t);
    }
    forall k | k in m ensures exists x :: x in s && x.pair == Pair(k, m[k]) {
      MapDomain(ps, |ps|, k);
      var t :| 0 <= t < |ps| && ps[t].key == k;
      MapHas(ps, |ps|, t);
      assert r[t] in s && r[t].pair == Pair(k, m[k]);
    }
  }

  lemma {:induction false} ItemMapped(ps: seq<Pair>, x: Item)
    requires Sorted(ps) && x in Items(ps, 0)
    ensures x.pair.key in AsMap(ps) && AsMap(ps)[x.pair.key] == x.pair.val
  {
    ItemsAre(ps, 0);
    var j :| 0 <= j < |ps| && Items(ps, 0)[j] == x;
    MapHas(ps, |ps|, j);
  }

  lemma {:induction false} MappedItem(ps: seq<Pair>, k: Bytes)
    requires k in AsMap(ps)
    ensures exists x :: x in Items(ps, 0) && x.pair.key == k
  {
    ItemsAre(ps, 0);
    MapDomain(ps, |ps|, k);
    var j :| 0 <= j < |ps| && ps[j].key == k;
    assert Items(ps, 0)[j] in Items(ps, 0);
  }

  /** Where keys are distinct there is nothing to choose. */
  lemma {:induction false} ChosenUnique(ps: seq<Pair>, m: Map)
    requires Sorted(ps) && Chosen(Items(ps, 0), m)
    ensures m == AsMap(ps)
  {
    var s := Items(ps, 0);
    forall k | k in m ensures k in AsMap(ps) && AsMap(ps)[k] == m[k] {
      var x :| x in s && x.pair == Pair(k, m[k]);
      ItemMapped(ps, x);
    }
    forall k | k in AsMap(ps) ensures k in m {
      MappedItem(ps, k);
    }
  }

  /** A map whose packed form no block can hold. */
  ghost predicate TooLarge(m: Map)
  {
    exists ps :: Sorted(ps) && AsMap(ps) == m && !Fits(ps)
  }

  /** What hstore_in makes of a text, said of the text itself: it is refused if it spells no list of
      pairs, or too long a one; else each key it names gets the value of one of its pairs. */
  ghost predicate ReadsText(text: Bytes, r: Option<HStore>, m: Map)
  {
    && (r.Some? ==> exists ps, comma, tail :: L.Spells(text, ps, comma, tail))
    && forall ps, comma, tail | L.Spells(text, ps, comma, tail) ::
      if |ps| > PAIRMAX then r.None?
      else Chosen(L.PairsOfList(ps), m) && if r.Some? then Denotes(r.value, m) else TooLarge(m)
  }

  lemma {:induction false} TextRead(text: Bytes, r: Option<HStore>, m: Map)
    requires Parse(text).Error? ==> r.None?
    requires Parse(text).Ok? ==> Chosen(Parse(text).pairs, m) && if r.Some? then Denotes(r.value, m) else TooLarge(m)
    ensures ReadsText(text, r, m)
  {
    if r.Some? {
      L.ParseIff(text, Parse(text).pairs);
    }
    forall ps, comma, tail | L.Spells(text, ps, comma, tail)
      ensures Parse(text) == if |ps| <= PAIRMAX then Ok(L.PairsOfList(ps)) else Error
    {
      L.SpelledParse(text, ps, comma, tail);
    }
  }

  /** hstore_in: parse, sort and drop duplicates, pack. */
  method HstoreIn(text: Bytes) returns (r: Option<HStore>, ghost m: Map)
    requires InRange(text) && NoNul(text) && |text| < MAXALLOC
    ensures Parse(text).Error? ==> r.None?
    ensures Parse(text).Ok? ==> Chosen(Parse(text).pairs, m) && if r.Some? then Denotes(r.value, m) else TooLarge(m)
    ensures var p := Parse(text); p.Ok? && HEADER + 8 * |p.pairs| + Bytesize(p.pairs) <= MAXALLOC ==> r.Some?
    ensures ReadsText(text, r, m)
  {
    m := map[];
    var state := new P.HSParser(text);
    var ok := state.Parse();
    if !ok {
      TextRead(text, None, m);
      return None, m;
    }
    ParseWithin(text);
    r, m := Pack(state.pairs);
    TextRead(text, r, m);
  }

  method Pack(s: seq<Item>) returns (r: Option<HStore>, ghost m: Map)
    requires Within(s, MAXALLOC)
    ensures Chosen(s, m) && if r.Some? then Denotes(r.value, m) else TooLarge(m)
    ensures HEADER + 8 * |s| + Bytesize(s) <= MAXALLOC ==> r.Some?
  {
    var pairs, buflen := Distinct(s);
    m := AsMap(pairs);
    r := B.HstorePairs(pairs, |pairs|, buflen);
    assert pairs[..|pairs|] == pairs;
    if r.Some? {
      assert Canonical(r.value, pairs);
    }
  }

  method Distinct(s: seq<Item>) returns (pairs: seq<Pair>, buflen: nat)
    requires forall x | x in s :: PairInRange(x.pair)
    ensures Sorted(pairs) && |pairs| <= |s| && buflen == StrLen(pairs, |pairs|) <= Bytesize(s)
    ensures Chosen(s, AsMap(pairs)) && forall i | 0 <= i < |pairs| :: PairInRange(pairs[i])
  {
    var a := new Item[|s|](i requires 0 <= i < |s| => s[i]);
    assert a[..|s|] == s;
    var n, bytes := UniquePairs(a, |s|);
    buflen := bytes;
    pairs := PairsOf(a[..n]);
    UniqueChosen(s, a[..n]);
    forall i | 0 <= i < n ensures PairInRange(pairs[i]) {
      assert a[..n][i] in s;
    }
  }

  // ---------------------------------------------------------------- there and back

  predicate PairNoNul(p: Pair) { NoNul(p.key) && NoNul(ValBytes(p)) }

  predicate Clear(s: Bytes) { InRange(s) && NoNul(s) }

  lemma {:induction false} EscClear(s: Bytes)
    requires Clear(s)
    ensures Clear(Esc(s))
  {
    if s != [] {
      EscClear(s[1..]);
    }
  }

  lemma {:induction false} ClearJoin(a: Bytes, b: Bytes)
    requires Clear(a) && Clear(b)
    ensures Clear(a + b)
  {
  }

  lemma {:induction false} QuotedClear(s: Bytes)
    requires Clear(s)
    ensures Clear(Quoted(s))
  {
    EscClear(s);
    ClearJoin([QUOTE], Esc(s));
    ClearJoin([QUOTE] + Esc(s), [QUOTE]);
  }

  lemma {:induction false} PairClear(p: Pair)
    requires PairInRange(p) && PairNoNul(p)
    ensures Clear(PairText(p))
  {
    QuotedClear(p.key);
    QuotedClear(ValBytes(p));
    ClearJoin(Quoted(p.key), [EQUALS, GREATER]);
    ClearJoin(Quoted(p.key) + [EQUALS, GREATER], ValText(p.val));
  }

  lemma {:induction false} TextClear(ps: seq<Pair>, i: nat)
    requires i <= |ps| && forall j | 0 <= j < |ps| :: PairInRange(ps[j]) && PairNoNul(ps[j])
    ensures Clear(Rest(ps, i))
    decreases |ps| - i
  {
    if i < |ps| {
      PairClear(ps[i]);
      TextClear(ps, i + 1);
      ClearJoin(PairText(ps[i]), [COMMA, SPACE]);
      ClearJoin(PairText(ps[i]) + [COMMA, SPACE], Rest(ps, i + 1));
    }
  }

  lemma {:induction false} ItemsSize(ps: seq<Pair>)
    ensures Bytesize(Items(ps, 0)) == StrLen(ps, |ps|)
  {
    ItemsAre(ps, 0);
    assert PairsOf(Items(ps, 0)) == ps;
  }

  /** The text of a packed map: fit to be read, and read as its pairs. */
  lemma {:induction false} TextReads(h: HStore, ps: seq<Pair>)
    requires Canonical(h, ps) && (forall j | 0 <= j < |ps| :: PairNoNul(ps[j])) && W.OutLen(ps, |ps|) <= MAXALLOC
    ensures Clear(Rest(ps, 0)) && Parse(Rest(ps, 0)) == if |ps| <= PAIRMAX then Ok(Items(ps, 0)) else Error
    ensures HEADER + 8 * |Items(ps, 0)| + Bytesize(Items(ps, 0)) <= MAXALLOC
  {
    forall j | 0 <= j < |ps| ensures Wordy(ps[j]) {
      W.RoomBounds(ps, j);
    }
    E.PrintedIsParsed(ps);
    TextClear(ps, 0);
    ItemsAre(ps, 0);
    ItemsSize(ps);
  }

  lemma {:induction false} SameAgain(h: HStore, ps: seq<Pair>, g: HStore, m: Map)
    requires Canonical(h, ps) && Denotes(g, m) && Chosen(Items(ps, 0), m)
    ensures g == h
  {
    ChosenUnique(ps, m);
    assert Denotes(h, AsMap(ps));
    DenotesUnique(g, h, m, AsMap(ps));
  }

  /** Print a packed map without NUL bytes and read the text: the same bytes come back, exactly
      when there are no more pairs than the parser's array can grow to; beyond that it fails. */
  method RoundTrip(h: HStore, ghost ps: seq<Pair>) returns (text: Option<Bytes>, back: Option<HStore>)
    requires Canonical(h, ps) && forall j | 0 <= j < |ps| :: PairNoNul(ps[j])
    ensures text == if W.OutLen(ps, |ps|) <= MAXALLOC then Some(Rest(ps, 0)) else None
    ensures text.Some? ==> back == if |ps| <= PAIRMAX then Some(h) else None
  {
    back := None;
    text := W.HstoreOut(h, ps);
    if text.Some? {
      TextReads(h, ps);
      ghost var m;
      back, m := HstoreIn(text.value);
      if |ps| <= PAIRMAX {
        SameAgain(h, ps, back.value, m);
      }
    }
  }

  // ---------------------------------------------------------------- one pair too many

  /** A number in four digits, none of them zero. */
  function Digits(i: nat): Bytes
  {
    [1 + i / 0x20_0000, 1 + i / 0x4000 % 0x80, 1 + i / 0x80 % 0x80, 1 + i % 0x80]
  }

  lemma {:induction false} DigitsRise(i: nat, j: nat)
    requires i < j
    ensures KeyLt(Digits(i), Digits(j))
  {
    var a, b := Digits(i), Digits(j);
    var p, q, r, s := i / 0x80, i / 0x4000, j / 0x80, j / 0x4000;
    assert q == p / 0x80 && i / 0x20_0000 == q / 0x80 && s == r / 0x80 && j / 0x20_0000 == s / 0x80;
    var k := if a[0] != b[0] then 0 else if a[1] != b[1] then 1 else if a[2] != b[2] then 2 else 3;
    assert a[k] < b[k] && a[..k] == b[..k];
    CpUnique(a, b, k);
  }

  /** Numbers as keys, without values. */
  ghost predicate Numbered(ps: seq<Pair>)
  {
    |ps| < 0x1000_0000 && forall i | 0 <= i < |ps| :: ps[i] == Pair(Digits(i), None)
  }

  lemma {:induction false} NumberedSizes(ps: seq<Pair>, n: nat)
    requires Numbered(ps) && n <= |ps|
    ensures StrLen(ps, n) == 4 * n && W.OutLen(ps, n) == 18 * n
  {
    if n > 0 {
      NumberedSizes(ps, n - 1);
    }
  }

  lemma {:induction false} NumberedSorted(ps: seq<Pair>)
    requires Numbered(ps)
    ensures Sorted(ps)
  {
    forall i, j | 0 <= i < j < |ps| ensures KeyLt(ps[i].key, ps[j].key) {
      DigitsRise(i, j);
    }
  }

  lemma {:induction false} NumberedClear(ps: seq<Pair>, j: nat)
    requires Numbered(ps) && j < |ps|
    ensures PairInRange(ps[j]) && PairNoNul(ps[j])
  {
    var d := Digits(j);
    assert 0 < d[0] <= 0x80 && 0 < d[1] <= 0x80 && 0 < d[2] <= 0x80 && 0 < d[3] <= 0x80;
  }

  /** One pair more than the parser's array can grow to: the map is packed and printed, and its
      text is refused. */
  method RoundTripFails() returns (ghost ps: seq<Pair>, h: HStore, text: Option<Bytes>, back: Option<HStore>)
    ensures Numbered(ps) && |ps| == PAIRMAX + 1 && Canonical(h, ps) && text == Some(Rest(ps, 0)) && back == None
  {
    var pairs := Numbers(PAIRMAX + 1);
    ps := pairs;
    NumberedSizes(ps, |ps|);
    NumberedSorted(ps);
    forall j | 0 <= j < |ps| ensures PairInRange(ps[j]) && PairNoNul(ps[j]) {
      NumberedClear(ps, j);
    }
    var r := B.HstorePairs(pairs, |pairs|, 4 * |pairs|);
    assert pairs[..|pairs|] == pairs;
    h := r.value;
    text, back := RoundTrip(h, pairs);
  }

  method Numbers(n: nat) returns (ps: seq<Pair>)
    requires n < 0x1000_0000
    ensures |ps| == n && Numbered(ps)
  {
    ps := seq(n, i requires 0 <= i => Pair(Digits(i), None));
  }
}
