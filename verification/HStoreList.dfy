/** The texts of a whole hstore (contrib/hstore/hstore_io.c): pairs of strings, however they are
    spelled, with white space round every part and commas between them. The parser reads exactly
    these. */
module HStoreList {
  import opened Options
  import opened Lex
  import opened HStoreLayout
  import opened HStoreUnique
  import opened HStoreText
  import opened HStoreSpell
  import B = HStoreBuild

  // ---------------------------------------------------------------- lists of pairs

  /** One pair: white space, key, white space, `=>`, white space, value, white space. */
  datatype PairSpelling =
    PairSpelling(before: Bytes, key: Spelling, gap: Bytes, between: Bytes, val: Spelling, after: Bytes)

  predicate PairOk(p: PairSpelling)
  {
    && AllBlank(p.before) && AllBlank(p.gap) && AllBlank(p.between) && AllBlank(p.after)
    && SpellingOk(p.key, false) && SpellingOk(p.val, true)
  }

  function KeySpelled(p: PairSpelling): Bytes { p.before + SpellingText(p.key) }

  function ValSpelled(p: PairSpelling): Bytes { p.between + SpellingText(p.val) }

  function PairSpelled(p: PairSpelling): Bytes
  {
    KeySpelled(p) + (p.gap + [61, 62] + (ValSpelled(p) + p.after))
  }

  /** Pairs behind one another with commas between them; behind the last one a comma and white
      space may follow. Without pairs there is nothing but white space. */
  function ListSpelled(ps: seq<PairSpelling>, comma: bool, tail: Bytes): Bytes
  {
    if ps == [] then tail
    else if |ps| == 1 && !comma then PairSpelled(ps[0])
    else PairSpelled(ps[0]) + ([44] + ListSpelled(ps[1..], comma, tail))
  }

  predicate ListOk(ps: seq<PairSpelling>, tail: Bytes)
  {
    AllBlank(tail) && forall i | 0 <= i < |ps| :: PairOk(ps[i])
  }

  predicate Spells(t: Bytes, ps: seq<PairSpelling>, comma: bool, tail: Bytes)
  {
    t == ListText(ps, comma, tail) && ListOk(ps, tail)
  }

  function ListText(ps: seq<PairSpelling>, comma: bool, tail: Bytes): Bytes
  {
    ListSpelled(ps, comma, tail)
  }

  /** The four letters of null, each large or small. */
  predicate NullWord(w: Bytes)
  {
    |w| == 4 && w[0] in [78, 110] && w[1] in [85, 117] && w[2] in [76, 108] && w[3] in [76, 108]
  }

  /** A bare null is no value. */
  function ValueOf(s: Spelling): Option<Bytes>
  {
    if s.Bare? && NullWord(Chars(s.us)) then None else Some(Chars(s.us))
  }

  function PairOf(p: PairSpelling): Item { Item(Pair(Chars(p.key.us), ValueOf(p.val)), true) }

  function PairsOfList(ps: seq<PairSpelling>): (r: seq<Item>)
    ensures |r| == |ps| && forall i | 0 <= i < |ps| :: r[i] == PairOf(ps[i])
  {
    seq(|ps|, i requires 0 <= i < |ps| => PairOf(ps[i]))
  }

  lemma {:induction false} ValueIs(s: Spelling)
    ensures Value(Chars(s.us), s.InQuotes?) == ValueOf(s)
  {
  }

  // ---------------------------------------------------------------- every list is read

  lemma {:induction false} SkipBeforeEq(t: Bytes, ptr: nat, gap: Bytes, key: Bytes, acc: seq<Item>)
    requires Lies(t, ptr, gap) && AllBlank(gap)
    ensures ParseFrom(t, ptr, WEq, key, acc) == ParseFrom(t, ptr + |gap|, WEq, key, acc)
    decreases |gap|
  {
    if gap != [] {
      assert t[ptr] == gap[0];
      BlankIff(t[ptr]);
      assert [gap[0]] + gap[1..] == gap;
      B.LiesParts(t, ptr, [gap[0]], gap[1..]);
      SkipBeforeEq(t, ptr + 1, gap[1..], key, acc);
    }
  }

  lemma {:induction false} SkipBeforeDel(t: Bytes, ptr: nat, gap: Bytes, key: Bytes, acc: seq<Item>)
    requires Lies(t, ptr, gap) && AllBlank(gap)
    ensures ParseFrom(t, ptr, WDel, key, acc) == ParseFrom(t, ptr + |gap|, WDel, key, acc)
    decreases |gap|
  {
    if gap != [] {
      assert t[ptr] == gap[0];
      BlankIff(t[ptr]);
      assert [gap[0]] + gap[1..] == gap;
      B.LiesParts(t, ptr, [gap[0]], gap[1..]);
      SkipBeforeDel(t, ptr + 1, gap[1..], key, acc);
    }
  }

  /** Passing over white space at once, or later, makes no difference. */
  lemma {:induction false} StopEq(t: Bytes, q: nat, key: Bytes, acc: seq<Item>)
    requires q <= |t|
    ensures ParseFrom(t, StopAt(t, q) + 1, WEq, key, acc) == ParseFrom(t, q, WEq, key, acc)
  {
    if q < |t| {
      BlankIff(t[q]);
    }
  }

  lemma {:induction false} StopDel(t: Bytes, q: nat, key: Bytes, acc: seq<Item>)
    requires q <= |t|
    ensures ParseFrom(t, StopAt(t, q) + 1, WDel, key, acc) == ParseFrom(t, q, WDel, key, acc)
  {
    if q < |t| {
      BlankIff(t[q]);
    }
  }

  lemma {:induction false} KeyParsed(t: Bytes, ptr: nat, p: PairSpelling, key: Bytes, acc: seq<Item>, q: nat)
    requires Lies(t, ptr, KeySpelled(p)) && AllBlank(p.before) && SpellingOk(p.key, false)
    requires q == ptr + |KeySpelled(p)| && Stops(t, q, false) && q < |t|
    ensures ParseFrom(t, ptr, WKey, key, acc)
      == if |acc| < PAIRMAX then ParseFrom(t, q, WEq, Chars(p.key.us), acc) else Error
  {
    SpellingRead(t, ptr, p.before, p.key, false, q);
    StopEq(t, q, Chars(p.key.us), acc);
  }

  lemma {:induction false} ArrowParsed(t: Bytes, ptr: nat, gap: Bytes, key: Bytes, acc: seq<Item>)
    requires Lies(t, ptr, gap + [61, 62]) && AllBlank(gap)
    ensures ParseFrom(t, ptr, WEq, key, acc) == ParseFrom(t, ptr + |gap| + 2, WVal, key, acc)
  {
    B.LiesParts(t, ptr, gap, [61, 62]);
    SkipBeforeEq(t, ptr, gap, key, acc);
    var a := ptr + |gap|;
    assert t[a] == 61 && t[a + 1] == 62;
    assert ParseFrom(t, a, WEq, key, acc) == ParseFrom(t, a + 1, WGt, key, acc);
  }

  lemma {:induction false} ValParsed(t: Bytes, ptr: nat, p: PairSpelling, key: Bytes, acc: seq<Item>, q: nat)
    requires Lies(t, ptr, ValSpelled(p)) && AllBlank(p.between) && SpellingOk(p.val, true)
    requires q == ptr + |ValSpelled(p)| && Stops(t, q, true)
    ensures ParseFrom(t, ptr, WVal, key, acc)
      == ParseFrom(t, q, WDel, key, acc + [Item(Pair(key, ValueOf(p.val)), true)])
  {
    SpellingRead(t, ptr, p.between, p.val, true, q);
    ValueIs(p.val);
    StopDel(t, q, key, acc + [Item(Pair(key, ValueOf(p.val)), true)]);
  }

  /** A gap stops a word, and what comes behind an empty gap does. */
  lemma {:induction false} GapStops(t: Bytes, q: int, gap: Bytes, isval: bool)
    requires Lies(t, q, gap) && AllBlank(gap)
    requires q + |gap| == |t| || t[q + |gap|] == Ender(isval)
    ensures Stops(t, q, isval)
  {
    if gap != [] {
      assert t[q] == gap[0];
    }
  }

  /** The parts of a pair, each in its place. */
  ghost predicate PairPlaced(t: Bytes, ptr: nat, p: PairSpelling, q1: nat, q2: nat, q3: nat, end: nat)
  {
    && Lies(t, ptr, KeySpelled(p)) && q1 == ptr + |KeySpelled(p)|
    && Lies(t, q1, p.gap + [61, 62]) && q2 == q1 + |p.gap| + 2
    && Lies(t, q2, ValSpelled(p)) && q3 == q2 + |ValSpelled(p)|
    && Lies(t, q3, p.after) && end == q3 + |p.after|
  }

  lemma {:induction false} FourParts(t: Bytes, ptr: int, a: Bytes, b: Bytes, c: Bytes, d: Bytes,
                                     q1: int, q2: int, q3: int)
    requires Lies(t, ptr, a + (b + (c + d))) && q1 == ptr + |a| && q2 == q1 + |b| && q3 == q2 + |c|
    ensures Lies(t, ptr, a) && Lies(t, q1, b) && Lies(t, q2, c) && Lies(t, q3, d)
  {
    assert Lies(t, ptr, a) && Lies(t, q1, b + (c + d)) by {
      B.LiesParts(t, ptr, a, b + (c + d));
    }
    assert Lies(t, q1, b) && Lies(t, q2, c + d) by {
      B.LiesParts(t, q1, b, c + d);
    }
    B.LiesParts(t, q2, c, d);
  }

  lemma {:induction false} PairPlaces(t: Bytes, ptr: nat, p: PairSpelling, end: nat) returns (q1: nat, q2: nat, q3: nat)
    requires Lies(t, ptr, PairSpelled(p)) && end == ptr + |PairSpelled(p)|
    ensures PairPlaced(t, ptr, p, q1, q2, q3, end)
  {
    var k, a, v := KeySpelled(p), p.gap + [61, 62], ValSpelled(p);
    q1 := ptr + |k|;
    q2 := q1 + |a|;
    q3 := q2 + |v|;
    FourParts(t, ptr, k, a, v, p.after, q1, q2, q3);
  }

  lemma {:induction false} KeyStops(t: Bytes, q: nat, gap: Bytes)
    requires Lies(t, q, gap + [61, 62]) && AllBlank(gap)
    ensures Stops(t, q, false) && q < |t|
  {
    B.LiesParts(t, q, gap, [61, 62]);
    assert t[q + |gap|] == [61, 62][0];
    GapStops(t, q, gap, false);
  }

  lemma {:induction false} PairParsed(t: Bytes, ptr: nat, p: PairSpelling, key: Bytes, acc: seq<Item>, end: nat)
    requires Lies(t, ptr, PairSpelled(p)) && PairOk(p)
    requires end == ptr + |PairSpelled(p)| && (end == |t| || t[end] == 44)
    ensures ParseFrom(t, ptr, WKey, key, acc)
      == if |acc| < PAIRMAX then ParseFrom(t, end, WDel, Chars(p.key.us), acc + [PairOf(p)]) else Error
  {
    var q1, q2, q3 := PairPlaces(t, ptr, p, end);
    KeyStops(t, q1, p.gap);
    GapStops(t, q3, p.after, true);
    PairSteps(t, ptr, p, key, acc, q1, q2, q3, end);
  }

  lemma {:induction false} PairSteps(t: Bytes, ptr: nat, p: PairSpelling, key: Bytes, acc: seq<Item>,
      q1: nat, q2: nat, q3: nat, end: nat)
    requires PairOk(p) && PairPlaced(t, ptr, p, q1, q2, q3, end)
    requires Stops(t, q1, false) && q1 < |t| && Stops(t, q3, true)
    ensures ParseFrom(t, ptr, WKey, key, acc)
      == if |acc| < PAIRMAX then ParseFrom(t, end, WDel, Chars(p.key.us), acc + [PairOf(p)]) else Error
  {
    var w := Chars(p.key.us);
    KeyParsed(t, ptr, p, key, acc, q1);
    assert ParseFrom(t, q1, WEq, w, acc) == ParseFrom(t, q2, WVal, w, acc) by {
      ArrowParsed(t, q1, p.gap, w, acc);
    }
    assert ParseFrom(t, q2, WVal, w, acc) == ParseFrom(t, end, WDel, w, acc + [PairOf(p)]) by {
      ValSteps(t, p, w, acc, q2, q3, end);
    }
  }

  lemma {:induction false} ValSteps(t: Bytes, p: PairSpelling, w: Bytes, acc: seq<Item>, q2: nat, q3: nat, end: nat)
    requires PairOk(p) && Lies(t, q2, ValSpelled(p)) && q3 == q2 + |ValSpelled(p)| && Stops(t, q3, true)
    requires Lies(t, q3, p.after) && end == q3 + |p.after|
    ensures ParseFrom(t, q2, WVal, w, acc)
      == ParseFrom(t, end, WDel, w, acc + [Item(Pair(w, ValueOf(p.val)), true)])
  {
    ValParsed(t, q2, p, w, acc, q3);
    SkipBeforeDel(t, q3, p.after, w, acc + [Item(Pair(w, ValueOf(p.val)), true)]);
  }

  /** What the rest of a list adds. */
  function ListResult(ps: seq<PairSpelling>, acc: seq<Item>): Parsed
  {
    if |acc| + |ps| <= PAIRMAX then Ok(acc + PairsOfList(ps)) else Error
  }

  lemma {:induction false} ResultNext(ps: seq<PairSpelling>, acc: seq<Item>)
    requires ps != []
    ensures ListResult(ps, acc) == ListResult(ps[1..], acc + [PairOf(ps[0])])
  {
    assert acc + PairsOfList(ps) == acc + [PairOf(ps[0])] + PairsOfList(ps[1..]);
  }

  lemma {:induction false} ResultOne(p: PairSpelling, acc: seq<Item>)
    requires |acc| < PAIRMAX
    ensures ListResult([p], acc) == Ok(acc + [PairOf(p)])
  {
    assert PairsOfList([p]) == [PairOf(p)];
  }

  lemma {:induction false} ResultNone(acc: seq<Item>)
    requires |acc| <= PAIRMAX
    ensures ListResult([], acc) == Ok(acc)
  {
    assert acc + PairsOfList([]) == acc;
  }

  lemma {:induction false} CommaParsed(t: Bytes, q: nat, key: Bytes, acc: seq<Item>)
    requires q < |t| && t[q] == 44
    ensures ParseFrom(t, q, WDel, key, acc) == ParseFrom(t, q + 1, WKey, key, acc)
  {
  }

  lemma {:induction false} BlanksParsed(t: Bytes, ptr: nat, tail: Bytes, key: Bytes, acc: seq<Item>)
    requires Lies(t, ptr, tail) && ptr + |tail| == |t| && AllBlank(tail)
    ensures KeyFrom(t, ptr, key, acc) == Ok(acc)
  {
    SkipBlanks(t, ptr, tail, false);
  }

  /** The first pair of a list with more behind it. */
  lemma {:induction false} ListPlaces(t: Bytes, ptr: nat, a: Bytes, b: Bytes, end: nat)
    requires Lies(t, ptr, a + ([44] + b)) && end == ptr + |a|
    ensures Lies(t, ptr, a) && end < |t| && t[end] == 44 && Lies(t, end + 1, b)
  {
    B.LiesParts(t, ptr, a, [44] + b);
    B.LiesParts(t, end, [44], b);
    assert t[end] == [44][0];
  }

  /** A list fills the text from a place on. */
  predicate ListAt(t: Bytes, ptr: nat, ps: seq<PairSpelling>, comma: bool, tail: Bytes)
  {
    Fills(t, ptr, ListText(ps, comma, tail)) && ListOk(ps, tail)
  }

  predicate Fills(t: Bytes, ptr: nat, s: Bytes) { Lies(t, ptr, s) && ptr + |s| == |t| }

  /** parse_hstore from a key on. */
  function KeyFrom(t: Bytes, ptr: nat, key: Bytes, acc: seq<Item>): Parsed
    requires ptr <= |t|
  {
    ParseFrom(t, ptr, WKey, key, acc)
  }

  lemma {:induction false} ListNext(t: Bytes, ptr: nat, ps: seq<PairSpelling>, comma: bool, tail: Bytes, end: nat)
    requires ps != [] && ListAt(t, ptr, ps, comma, tail) && end == ptr + |PairSpelled(ps[0])|
    ensures PairOk(ps[0]) && Lies(t, ptr, PairSpelled(ps[0])) && (end == |t| || t[end] == 44)
    ensures |ps| == 1 && !comma ==> end == |t|
    ensures |ps| > 1 || comma ==> end < |t| && t[end] == 44 && ListAt(t, end + 1, ps[1..], comma, tail)
  {
    if |ps| > 1 || comma {
      ListPlaces(t, ptr, PairSpelled(ps[0]), ListSpelled(ps[1..], comma, tail), end);
    }
  }

  /** The last pair. */
  lemma {:induction false} ListEnds(t: Bytes, ptr: nat, p: PairSpelling, tail: Bytes, key: Bytes, acc: seq<Item>)
    requires ListAt(t, ptr, [p], false, tail) && |acc| < PAIRMAX
    ensures KeyFrom(t, ptr, key, acc) == ListResult([p], acc)
  {
    ListNext(t, ptr, [p], false, tail, |t|);
    PairParsed(t, ptr, p, key, acc, |t|);
    ResultOne(p, acc);
  }

  /** A pair with a comma behind it. */
  lemma {:induction false} PairComma(t: Bytes, ptr: nat, p: PairSpelling, key: Bytes, acc: seq<Item>, end: nat)
    requires Lies(t, ptr, PairSpelled(p)) && PairOk(p) && |acc| < PAIRMAX
    requires end == ptr + |PairSpelled(p)| && end < |t| && t[end] == 44
    ensures KeyFrom(t, ptr, key, acc) == KeyFrom(t, end + 1, Chars(p.key.us), acc + [PairOf(p)])
  {
    PairParsed(t, ptr, p, key, acc, end);
    CommaParsed(t, end, Chars(p.key.us), acc + [PairOf(p)]);
  }

  /** One pair read, and the rest to be read. */
  lemma {:induction false} ListGoesOn(t: Bytes, ptr: nat, ps: seq<PairSpelling>, comma: bool, tail: Bytes,
      key: Bytes, acc: seq<Item>) returns (next: nat)
    requires ps != [] && (|ps| > 1 || comma) && ListAt(t, ptr, ps, comma, tail) && |acc| < PAIRMAX
    ensures next <= |t| && ListAt(t, next, ps[1..], comma, tail)
    ensures KeyFrom(t, ptr, key, acc) == KeyFrom(t, next, Chars(ps[0].key.us), acc + [PairOf(ps[0])])
  {
    var end := ptr + |PairSpelled(ps[0])|;
    next := end + 1;
    ListNext(t, ptr, ps, comma, tail, end);
    PairComma(t, ptr, ps[0], key, acc, end);
  }

  lemma {:induction false} ListFull(t: Bytes, ptr: nat, ps: seq<PairSpelling>, comma: bool, tail: Bytes,
      key: Bytes, acc: seq<Item>)
    requires ps != [] && ListAt(t, ptr, ps, comma, tail) && |acc| >= PAIRMAX
    ensures KeyFrom(t, ptr, key, acc) == Error
  {
    var end := ptr + |PairSpelled(ps[0])|;
    ListNext(t, ptr, ps, comma, tail, end);
    PairParsed(t, ptr, ps[0], key, acc, end);
  }

  lemma {:induction false} ListParsed(t: Bytes, ptr: nat, ps: seq<PairSpelling>, comma: bool, tail: Bytes,
      key: Bytes, acc: seq<Item>)
    requires ListAt(t, ptr, ps, comma, tail) && |acc| <= PAIRMAX
    ensures KeyFrom(t, ptr, key, acc) == ListResult(ps, acc)
    decreases |ps|
  {
    if ps == [] {
      BlanksParsed(t, ptr, tail, key, acc);
      ResultNone(acc);
    } else if |acc| == PAIRMAX {
      ListFull(t, ptr, ps, comma, tail, key, acc);
    } else if |ps| == 1 && !comma {
      assert ps == [ps[0]];
      ListEnds(t, ptr, ps[0], tail, key, acc);
    } else {
      var next := ListGoesOn(t, ptr, ps, comma, tail, key, acc);
      ListParsed(t, next, ps[1..], comma, tail, Chars(ps[0].key.us), acc + [PairOf(ps[0])]);
      ResultNext(ps, acc);
    }
  }

  // ---------------------------------------------------------------- and nothing else is

  lemma {:induction false} GapJoin(t: Bytes, ptr: int, end: int, gap: Bytes)
    requires 0 <= ptr < |t| && Blank(t[ptr]) && Span(t, ptr + 1, end, gap) && AllBlank(gap)
    ensures Span(t, ptr, end, [t[ptr]] + gap) && AllBlank([t[ptr]] + gap)
  {
    SpanJoin(t, ptr, ptr + 1, end, [t[ptr]], gap);
  }

  /** White space up to the arrow. */
  lemma {:induction false} ArrowRead(t: Bytes, ptr: nat, key: Bytes, acc: seq<Item>) returns (gap: Bytes, q: nat)
    requires ptr <= |t| && ParseFrom(t, ptr, WEq, key, acc).Ok?
    ensures Span(t, ptr, q, gap) && AllBlank(gap) && Span(t, q, q + 2, [61, 62])
    ensures ParseFrom(t, ptr, WEq, key, acc) == ParseFrom(t, q + 2, WVal, key, acc)
    decreases |t| - ptr
  {
    BlankIff(t[ptr]);
    if Blank(t[ptr]) {
      gap, q := ArrowRead(t, ptr + 1, key, acc);
      GapJoin(t, ptr, q, gap);
      gap := [t[ptr]] + gap;
    } else {
      gap, q := [], ptr;
      assert ParseFrom(t, ptr, WEq, key, acc) == ParseFrom(t, ptr + 1, WGt, key, acc);
    }
  }

  /** White space up to the next comma or the end. */
  lemma {:induction false} DelRead(t: Bytes, ptr: nat, key: Bytes, acc: seq<Item>) returns (gap: Bytes, q: nat)
    requires ptr <= |t| && ParseFrom(t, ptr, WDel, key, acc).Ok?
    ensures Span(t, ptr, q, gap) && AllBlank(gap) && (q == |t| || t[q] == 44)
    ensures ParseFrom(t, ptr, WDel, key, acc) == if q == |t| then Ok(acc) else ParseFrom(t, q + 1, WKey, key, acc)
    decreases |t| - ptr
  {
    if ptr < |t| {
      BlankIff(t[ptr]);
    }
    if ptr < |t| && Blank(t[ptr]) {
      gap, q := DelRead(t, ptr + 1, key, acc);
      GapJoin(t, ptr, q, gap);
      gap := [t[ptr]] + gap;
    } else {
      gap, q := [], ptr;
    }
  }

  /** A pair that was read, and where the reading goes on. */
  ghost predicate PairTo(t: Bytes, ptr: nat, p: PairSpelling, q: int)
  {
    PairOk(p) && Span(t, ptr, q, PairSpelled(p)) && (q == |t| || t[q] == 44)
  }

  lemma {:induction false} KeyRead(t: Bytes, ptr: nat, key: Bytes, acc: seq<Item>)
    returns (before: Bytes, k: Spelling, q: nat)
    requires ptr <= |t| && ParseFrom(t, ptr, WKey, key, acc).Ok? && !AllBlank(t[ptr..])
    ensures AllBlank(before) && SpellingOk(k, false) && Span(t, ptr, q, before + SpellingText(k))
    ensures ParseFrom(t, ptr, WKey, key, acc) == ParseFrom(t, q, WEq, Chars(k.us), acc)
  {
    NothingRead(t, ptr, false);
    before, k, q := ValueRead(t, ptr, false);
    StopEq(t, q, Chars(k.us), acc);
  }

  lemma {:induction false} ValRead(t: Bytes, ptr: nat, key: Bytes, acc: seq<Item>)
    returns (between: Bytes, v: Spelling, q: nat)
    requires ptr <= |t| && ParseFrom(t, ptr, WVal, key, acc).Ok?
    ensures AllBlank(between) && SpellingOk(v, true) && Span(t, ptr, q, between + SpellingText(v))
    ensures ParseFrom(t, ptr, WVal, key, acc)
      == ParseFrom(t, q, WDel, key, acc + [Item(Pair(key, ValueOf(v)), true)])
  {
    between, v, q := ValueRead(t, ptr, true);
    ValueIs(v);
    StopDel(t, q, key, acc + [Item(Pair(key, ValueOf(v)), true)]);
  }

  lemma {:induction false} PairRead(t: Bytes, ptr: nat, key: Bytes, acc: seq<Item>) returns (p: PairSpelling, q: nat)
    requires ptr <= |t| && KeyFrom(t, ptr, key, acc).Ok? && !AllBlank(t[ptr..])
    ensures PairTo(t, ptr, p, q)
  {
    var before, k, q1 := KeyRead(t, ptr, key, acc);
    var w := Chars(k.us);
    var gap, q2 := ArrowRead(t, q1, w, acc);
    var between, v, q3 := ValRead(t, q2 + 2, w, acc);
    var after, q4 := DelRead(t, q3, w, acc + [Item(Pair(w, ValueOf(v)), true)]);
    p, q := PairSpelling(before, k, gap, between, v, after), q4;
    PairJoin(t, ptr, q1, q2, q3, q4, p);
  }

  lemma {:induction false} PairJoin(t: Bytes, a: int, b: int, c: int, d: int, e: int, p: PairSpelling)
    requires Span(t, a, b, KeySpelled(p)) && Span(t, b, c, p.gap) && Span(t, c, c + 2, [61, 62])
    requires Span(t, c + 2, d, ValSpelled(p)) && Span(t, d, e, p.after)
    ensures Span(t, a, e, PairSpelled(p))
  {
    SpanJoin(t, b, c, c + 2, p.gap, [61, 62]);
    SpanJoin(t, c + 2, d, e, ValSpelled(p), p.after);
    SpanJoin(t, b, c + 2, e, p.gap + [61, 62], ValSpelled(p) + p.after);
    SpanJoin(t, a, b, e, KeySpelled(p), p.gap + [61, 62] + (ValSpelled(p) + p.after));
  }

  /** A pair that was read and, if a comma follows, the rest that can be read. */
  lemma {:induction false} PairThen(t: Bytes, ptr: nat, key: Bytes, acc: seq<Item>)
    returns (p: PairSpelling, q: nat, key': Bytes, acc': seq<Item>)
    requires ptr <= |t| && KeyFrom(t, ptr, key, acc).Ok? && !AllBlank(t[ptr..])
    ensures PairTo(t, ptr, p, q) && ptr <= q <= |t| && (q < |t| ==> KeyFrom(t, q + 1, key', acc').Ok?)
  {
    p, q := PairRead(t, ptr, key, acc);
    key', acc' := Chars(p.key.us), acc + [PairOf(p)];
    SpanLies(t, ptr, q, PairSpelled(p));
    if q < |t| {
      PairParsed(t, ptr, p, key, acc, q);
      PairComma(t, ptr, p, key, acc, q);
    }
  }

  lemma {:induction false} CommaSpan(t: Bytes, ptr: nat, q: nat, a: Bytes)
    requires Span(t, ptr, q, a) && q < |t| && t[q] == 44
    ensures a + ([44] + t[q + 1..]) == t[ptr..]
  {
    assert [t[q]] + t[q + 1..] == t[q..];
    assert t[ptr..q] + t[q..] == t[ptr..];
  }

  lemma {:induction false} ListMore(t: Bytes, ptr: nat, p: PairSpelling, q: nat, ps: seq<PairSpelling>,
                                    comma: bool, tail: Bytes)
    returns (ps': seq<PairSpelling>, comma': bool)
    requires PairTo(t, ptr, p, q) && q < |t| && Spells(t[q + 1..], ps, comma, tail)
    ensures Spells(t[ptr..], ps', comma', tail)
  {
    CommaSpan(t, ptr, q, PairSpelled(p));
    ps', comma' := ListFirst(p, t[q + 1..], ps, comma, tail);
  }

  lemma {:induction false} ListLast(t: Bytes, ptr: nat, p: PairSpelling)
    requires PairTo(t, ptr, p, |t|)
    ensures Spells(t[ptr..], [p], false, [])
  {
    assert t[ptr..] == t[ptr..|t|];
  }

  lemma {:induction false} ListRead(t: Bytes, ptr: nat, key: Bytes, acc: seq<Item>)
    returns (ps: seq<PairSpelling>, comma: bool, tail: Bytes)
    requires ptr <= |t| && KeyFrom(t, ptr, key, acc).Ok?
    ensures Spells(t[ptr..], ps, comma, tail)
    decreases |t| - ptr
  {
    if AllBlank(t[ptr..]) {
      ps, comma, tail := [], true, t[ptr..];
    } else {
      var p, q, key', acc' := PairThen(t, ptr, key, acc);
      if q == |t| {
        ListLast(t, ptr, p);
        ps, comma, tail := [p], false, [];
      } else {
        ps, comma, tail := ListRead(t, q + 1, key', acc');
        ps, comma := ListMore(t, ptr, p, q, ps, comma, tail);
      }
    }
  }

  lemma {:induction false} ListFirst(p: PairSpelling, t: Bytes, ps: seq<PairSpelling>, comma: bool, tail: Bytes)
    returns (ps': seq<PairSpelling>, comma': bool)
    requires PairOk(p) && Spells(t, ps, comma, tail)
    ensures Spells(PairSpelled(p) + ([44] + t), ps', comma', tail)
  {
    ps', comma' := [p] + ps, comma || ps == [];
    assert ps'[1..] == ps;
    assert ListSpelled(ps, comma', tail) == ListSpelled(ps, comma, tail);
  }

  /** A text parses to some pairs if and only if it spells them, and they are not too many. */
  lemma {:induction false} ParseIff(t: Bytes, items: seq<Item>)
    ensures Parse(t) == Ok(items) <==>
      exists ps, comma, tail :: Spells(t, ps, comma, tail) && |ps| <= PAIRMAX && items == PairsOfList(ps)
  {
    if Parse(t) == Ok(items) {
      var ps, comma, tail := ListRead(t, 0, [], []);
      assert t[0..] == t;
      SpelledParse(t, ps, comma, tail);
    }
    if ps, comma, tail :| Spells(t, ps, comma, tail) && |ps| <= PAIRMAX && items == PairsOfList(ps) {
      SpelledParse(t, ps, comma, tail);
    }
  }

  /** Every spelling of a list of pairs is read as that list, up to 2^24 pairs. */
  lemma {:induction false} SpelledParse(t: Bytes, ps: seq<PairSpelling>, comma: bool, tail: Bytes)
    requires Spells(t, ps, comma, tail)
    ensures Parse(t) == if |ps| <= PAIRMAX then Ok(PairsOfList(ps)) else Error
  {
    ListParsed(t, 0, ps, comma, tail, [], []);
    assert [] + PairsOfList(ps) == PairsOfList(ps);
  }
}
