/** The texts of an hstore, as a reader would describe them (contrib/hstore/hstore_io.c): keys and
    values quoted or bare, any character behind a backslash, white space round every part. The
    parser reads exactly these, and hstore_out writes the shortest of the quoted ones. */
module HStoreSpell {
  import opened Options
  import opened Lex
  import opened HStoreLayout
  import opened HStoreUnique
  import opened HStoreText
  import B = HStoreBuild

  // ---------------------------------------------------------------- strings

  /** One character of a string: as it is, or behind a backslash. */
  datatype Unit = Plain(c: int) | Escaped(c: int)

  datatype Spelling = InQuotes(us: seq<Unit>) | Bare(us: seq<Unit>)

  function UnitText(u: Unit): Bytes { if u.Plain? then [u.c] else [92, u.c] }

  function UnitsText(us: seq<Unit>): Bytes
  {
    if us == [] then [] else UnitText(us[0]) + UnitsText(us[1..])
  }

  /** The string that is spelled. */
  function Chars(us: seq<Unit>): (s: Bytes)
    ensures |s| == |us| && forall i | 0 <= i < |us| :: s[i] == us[i].c
  {
    seq(|us|, i requires 0 <= i < |us| => us[i].c)
  }

  function SpellingText(s: Spelling): Bytes
  {
    if s.Bare? then UnitsText(s.us) else [34] + (UnitsText(s.us) + [34])
  }

  /** Space, tab, line feed, vertical tab, form feed and carriage return. */
  predicate Blank(c: int) { c in [32, 9, 10, 11, 12, 13] }

  predicate AllBlank(s: Bytes) { forall i | 0 <= i < |s| :: Blank(s[i]) }

  /** Between quotes a quote and a backslash need a backslash before them. */
  predicate QuotedOk(us: seq<Unit>)
  {
    forall i | 0 <= i < |us| && us[i].Plain? :: us[i].c != 34 && us[i].c != 92
  }

  /** What ends a bare word: `=` behind a key, `,` behind a value. */
  function Ender(isval: bool): int { if isval then 44 else 61 }

  /** Behind its first character a bare word goes on up to white space or its ender. */
  predicate InnerOk(us: seq<Unit>, isval: bool)
  {
    forall i | 0 <= i < |us| && us[i].Plain? :: InnerChar(us[i].c, isval)
  }

  predicate InnerChar(c: int, isval: bool) { c != 92 && !Blank(c) && c != Ender(isval) }

  /** A bare word does not begin with a quote, nor a key with `=`; a value may begin with `,`. */
  predicate BareOk(us: seq<Unit>, isval: bool)
  {
    us != [] && FirstOk(us[0], isval) && InnerOk(us[1..], isval)
  }

  predicate FirstOk(u: Unit, isval: bool)
  {
    u.Plain? ==> u.c != 92 && u.c != 34 && !Blank(u.c) && (isval || u.c != 61)
  }

  predicate SpellingOk(s: Spelling, isval: bool)
  {
    |s.us| <= WORDMAX && if s.Bare? then BareOk(s.us, isval) else QuotedOk(s.us)
  }

  lemma {:induction false} BlankIff(c: int)
    ensures IsSpace(c) <==> Blank(c)
  {
  }

  // ---------------------------------------------------------------- reading a string

  lemma {:induction false} UnitsFirst(t: Bytes, ptr: int, us: seq<Unit>, rest: Bytes)
    requires us != [] && Lies(t, ptr, UnitsText(us) + rest)
    ensures Lies(t, ptr, UnitText(us[0])) && Lies(t, ptr + |UnitText(us[0])|, UnitsText(us[1..]) + rest)
    ensures |UnitsText(us)| == |UnitText(us[0])| + |UnitsText(us[1..])|
  {
    ThreeJoin(UnitText(us[0]), UnitsText(us[1..]), rest);
    B.LiesParts(t, ptr, UnitText(us[0]), UnitsText(us[1..]) + rest);
  }

  lemma {:induction false} ThreeJoin(a: Bytes, b: Bytes, c: Bytes)
    ensures a + b + c == a + (b + c)
  {
  }

  lemma {:induction false} UnitsAlone(t: Bytes, ptr: int, us: seq<Unit>)
    requires us != [] && Lies(t, ptr, UnitsText(us))
    ensures Lies(t, ptr, UnitText(us[0])) && Lies(t, ptr + |UnitText(us[0])|, UnitsText(us[1..]))
    ensures |UnitsText(us)| == |UnitText(us[0])| + |UnitsText(us[1..])|
  {
    B.LiesParts(t, ptr, UnitText(us[0]), UnitsText(us[1..]));
  }

  lemma {:induction false} CharsFirst(w: Bytes, us: seq<Unit>)
    requires us != []
    ensures w + [us[0].c] + Chars(us[1..]) == w + Chars(us)
  {
    assert Chars(us) == [us[0].c] + Chars(us[1..]);
  }

  /** One character between quotes. */
  lemma {:induction false} QuotedUnit(t: Bytes, ptr: nat, ie: bool, w: Bytes, u: Unit)
    requires Lies(t, ptr, UnitText(u)) && |w| < WORDMAX && (u.Plain? ==> u.c != 34 && u.c != 92)
    ensures ScanFrom(t, ptr, InEscVal, ie, w, true) == ScanFrom(t, ptr + |UnitText(u)|, InEscVal, ie, w + [u.c], true)
  {
    assert t[ptr] == UnitText(u)[0];
    if u.Escaped? {
      assert t[ptr + 1] == u.c;
      assert ScanFrom(t, ptr, InEscVal, ie, w, true) == ScanFrom(t, ptr + 1, WaitEscEscIn, ie, w, true);
    }
  }

  lemma {:induction false} QuotedScan(t: Bytes, ptr: nat, ie: bool, w: Bytes, us: seq<Unit>)
    requires Lies(t, ptr, UnitsText(us) + [34]) && QuotedOk(us) && |w| + |us| <= WORDMAX
    ensures ScanFrom(t, ptr, InEscVal, ie, w, true) == Word(w + Chars(us), true, ptr + |UnitsText(us)|)
    decreases |us|
  {
    if us == [] {
      assert UnitsText(us) + [34] == [34] && t[ptr] == [34][0];
      assert w + Chars(us) == w;
    } else {
      UnitsFirst(t, ptr, us, [34]);
      QuotedUnit(t, ptr, ie, w, us[0]);
      QuotedScan(t, ptr + |UnitText(us[0])|, ie, w + [us[0].c], us[1..]);
      CharsFirst(w, us);
    }
  }

  /** One character of a bare word, behind the first. */
  lemma {:induction false} BareUnit(t: Bytes, ptr: nat, isval: bool, w: Bytes, u: Unit, e: bool)
    requires Lies(t, ptr, UnitText(u)) && |w| < WORDMAX && (u.Plain? ==> InnerChar(u.c, isval))
    ensures ScanFrom(t, ptr, InVal, isval, w, e) == ScanFrom(t, ptr + |UnitText(u)|, InVal, isval, w + [u.c], e)
  {
    assert t[ptr] == UnitText(u)[0];
    BlankIff(t[ptr]);
    if u.Escaped? {
      assert t[ptr + 1] == u.c;
      assert ScanFrom(t, ptr, InVal, isval, w, e) == ScanFrom(t, ptr + 1, WaitEscIn, isval, w, e);
    }
  }

  /** The end of the text, white space, or the ender. */
  predicate Stops(t: Bytes, q: int, isval: bool)
  {
    q == |t| || (0 <= q < |t| && (Blank(t[q]) || t[q] == Ender(isval)))
  }

  /** White space behind a bare word is passed over at once. */
  function StopAt(t: Bytes, q: int): int { if 0 <= q < |t| && Blank(t[q]) then q else q - 1 }

  lemma {:induction false} BareScan(t: Bytes, ptr: nat, isval: bool, w: Bytes, us: seq<Unit>, e: bool, q: int)
    requires Lies(t, ptr, UnitsText(us)) && InnerOk(us, isval) && |w| + |us| <= WORDMAX
    requires q == ptr + |UnitsText(us)| && Stops(t, q, isval)
    ensures ScanFrom(t, ptr, InVal, isval, w, e) == Word(w + Chars(us), e, StopAt(t, q))
    decreases |us|
  {
    if us == [] {
      assert w + Chars(us) == w;
      if ptr < |t| {
        BlankIff(t[ptr]);
      }
    } else {
      UnitsAlone(t, ptr, us);
      BareUnit(t, ptr, isval, w, us[0], e);
      BareScan(t, ptr + |UnitText(us[0])|, isval, w + [us[0].c], us[1..], e, q);
      CharsFirst(w, us);
    }
  }

  lemma {:induction false} SkipBlanks(t: Bytes, ptr: nat, gap: Bytes, ie: bool)
    requires Lies(t, ptr, gap) && AllBlank(gap)
    ensures GetVal(t, ptr, ie) == GetVal(t, ptr + |gap|, ie)
    decreases |gap|
  {
    if gap != [] {
      assert t[ptr] == gap[0];
      BlankIff(t[ptr]);
      assert [gap[0]] + gap[1..] == gap;
      B.LiesParts(t, ptr, [gap[0]], gap[1..]);
      SkipBlanks(t, ptr + 1, gap[1..], ie);
    }
  }

  /** The first character of a bare word. */
  lemma {:induction false} BareFirst(t: Bytes, ptr: nat, u: Unit, isval: bool)
    requires Lies(t, ptr, UnitText(u)) && FirstOk(u, isval)
    ensures GetVal(t, ptr, isval) == ScanFrom(t, ptr + |UnitText(u)|, InVal, isval, [u.c], false)
  {
    assert t[ptr] == UnitText(u)[0];
    BlankIff(t[ptr]);
    assert [] + [u.c] == [u.c];
    if u.Escaped? {
      assert t[ptr + 1] == u.c;
      assert GetVal(t, ptr, isval) == ScanFrom(t, ptr + 1, WaitEscIn, isval, [], false);
    }
  }

  lemma {:induction false} BareGet(t: Bytes, ptr: nat, us: seq<Unit>, isval: bool, q: int)
    requires Lies(t, ptr, UnitsText(us)) && BareOk(us, isval) && |us| <= WORDMAX
    requires q == ptr + |UnitsText(us)| && Stops(t, q, isval)
    ensures GetVal(t, ptr, isval) == Word(Chars(us), false, StopAt(t, q))
  {
    assert UnitsText(us) + [] == UnitsText(us) && UnitsText(us[1..]) + [] == UnitsText(us[1..]);
    UnitsFirst(t, ptr, us, []);
    BareFirst(t, ptr, us[0], isval);
    BareScan(t, ptr + |UnitText(us[0])|, isval, [us[0].c], us[1..], false, q);
    assert [us[0].c] + Chars(us[1..]) == Chars(us);
  }

  lemma {:induction false} QuotedGet(t: Bytes, ptr: nat, us: seq<Unit>, ie: bool)
    requires Lies(t, ptr, [34] + (UnitsText(us) + [34])) && QuotedOk(us) && |us| <= WORDMAX
    ensures GetVal(t, ptr, ie) == Word(Chars(us), true, ptr + 1 + |UnitsText(us)|)
  {
    B.LiesParts(t, ptr, [34], UnitsText(us) + [34]);
    assert t[ptr] == [34][0];
    QuotedScan(t, ptr + 1, ie, [], us);
    assert [] + Chars(us) == Chars(us);
  }

  /** A string is read back, however it is spelled: its characters, whether it was quoted, and
      where the reading stopped. */
  lemma {:induction false} SpellingRead(t: Bytes, ptr: nat, gap: Bytes, s: Spelling, isval: bool, q: int)
    requires Lies(t, ptr, gap + SpellingText(s)) && AllBlank(gap) && SpellingOk(s, isval)
    requires q == ptr + |gap| + |SpellingText(s)| && (s.Bare? ==> Stops(t, q, isval))
    ensures GetVal(t, ptr, isval) == Word(Chars(s.us), s.InQuotes?, if s.Bare? then StopAt(t, q) else q - 1)
  {
    B.LiesParts(t, ptr, gap, SpellingText(s));
    SkipBlanks(t, ptr, gap, isval);
    if s.Bare? {
      BareGet(t, ptr + |gap|, s.us, isval, q);
    } else {
      QuotedGet(t, ptr + |gap|, s.us, isval);
    }
  }

  // ---------------------------------------------------------------- every read string is spelled

  /** The part of a text from `a` up to `b`. */
  predicate Span(t: Bytes, a: int, b: int, s: Bytes) { 0 <= a <= b <= |t| && t[a..b] == s }

  lemma {:induction false} SpanJoin(t: Bytes, a: int, b: int, c: int, x: Bytes, y: Bytes)
    requires Span(t, a, b, x) && Span(t, b, c, y)
    ensures Span(t, a, c, x + y)
  {
    assert t[a..c] == t[a..b] + t[b..c];
  }

  lemma {:induction false} SpanLies(t: Bytes, a: int, b: int, s: Bytes)
    requires Span(t, a, b, s)
    ensures Lies(t, a, s) && b == a + |s|
  {
  }

  /** The units in front of others. */
  lemma {:induction false} UnitsJoin(t: Bytes, a: int, b: int, c: int, u: Unit, us: seq<Unit>, w: Bytes)
    requires Span(t, a, b, UnitText(u)) && Span(t, b, c, UnitsText(us))
    ensures Span(t, a, c, UnitsText([u] + us)) && w + [u.c] + Chars(us) == w + Chars([u] + us)
  {
    var all := [u] + us;
    assert all[1..] == us;
    CharsFirst(w, all);
    SpanJoin(t, a, b, c, UnitText(u), UnitsText(us));
  }

  /** The unit at a place. */
  function UnitAt(t: Bytes, ptr: nat): Unit
    requires ptr < |t| && (t[ptr] == 92 ==> ptr + 1 < |t|)
  {
    if t[ptr] == 92 then Escaped(t[ptr + 1]) else Plain(t[ptr])
  }

  lemma {:induction false} UnitSpan(t: Bytes, ptr: nat)
    requires ptr < |t| && (t[ptr] == 92 ==> ptr + 1 < |t|)
    ensures var u := UnitAt(t, ptr); Span(t, ptr, ptr + |UnitText(u)|, UnitText(u)) && Lies(t, ptr, UnitText(u))
  {
  }

  /** What the reading of a quoted string leaves. */
  ghost predicate QuotedTo(t: Bytes, ptr: nat, w: Bytes, us: seq<Unit>, r: Scan)
  {
    && r.Word? && r.word == w + Chars(us) && r.escaped && |w| + |us| <= WORDMAX && QuotedOk(us)
    && Span(t, ptr, r.ptr, UnitsText(us)) && r.ptr < |t| && t[r.ptr] == 34
  }

  lemma {:induction false} QuotedRead(t: Bytes, ptr: nat, ie: bool, w: Bytes) returns (us: seq<Unit>)
    requires ptr <= |t| && |w| <= WORDMAX && ScanFrom(t, ptr, InEscVal, ie, w, true).Word?
    ensures QuotedTo(t, ptr, w, us, ScanFrom(t, ptr, InEscVal, ie, w, true))
    decreases |t| - ptr
  {
    var r := ScanFrom(t, ptr, InEscVal, ie, w, true);
    if t[ptr] == 34 {
      us := [];
      assert w + Chars(us) == w;
    } else {
      QuotedGoesOn(t, ptr, ie, w);
      var u := UnitAt(t, ptr);
      var next := ptr + |UnitText(u)|;
      UnitSpan(t, ptr);
      QuotedUnit(t, ptr, ie, w, u);
      us := QuotedRead(t, next, ie, w + [u.c]);
      UnitsJoin(t, ptr, next, r.ptr, u, us, w);
      us := [u] + us;
    }
  }

  lemma {:induction false} QuotedGoesOn(t: Bytes, ptr: nat, ie: bool, w: Bytes)
    requires ptr < |t| && |w| <= WORDMAX && ScanFrom(t, ptr, InEscVal, ie, w, true).Word? && t[ptr] != 34
    ensures |w| < WORDMAX && (t[ptr] == 92 ==> ptr + 1 < |t|)
  {
    if t[ptr] == 92 {
      assert ScanFrom(t, ptr, InEscVal, ie, w, true) == ScanFrom(t, ptr + 1, WaitEscEscIn, ie, w, true);
    }
  }

  /** What the reading of a bare word leaves. */
  ghost predicate BareTo(t: Bytes, ptr: nat, isval: bool, w: Bytes, e: bool, us: seq<Unit>, q: int, r: Scan)
  {
    && r.Word? && r.word == w + Chars(us) && r.escaped == e && |w| + |us| <= WORDMAX && InnerOk(us, isval)
    && Span(t, ptr, q, UnitsText(us)) && Stops(t, q, isval) && r.ptr == StopAt(t, q)
  }

  lemma {:induction false} BareRead(t: Bytes, ptr: nat, isval: bool, w: Bytes, e: bool) returns (us: seq<Unit>, q: int)
    requires ptr <= |t| && |w| <= WORDMAX && ScanFrom(t, ptr, InVal, isval, w, e).Word?
    ensures BareTo(t, ptr, isval, w, e, us, q, ScanFrom(t, ptr, InVal, isval, w, e))
    decreases |t| - ptr
  {
    if Stops(t, ptr, isval) {
      us, q := [], ptr;
      BareScan(t, ptr, isval, w, us, e, q);
      assert w + Chars(us) == w;
    } else {
      BareGoesOn(t, ptr, isval, w, e);
      var u := UnitAt(t, ptr);
      var next := ptr + |UnitText(u)|;
      UnitSpan(t, ptr);
      BareUnit(t, ptr, isval, w, u, e);
      us, q := BareRead(t, next, isval, w + [u.c], e);
      UnitsJoin(t, ptr, next, q, u, us, w);
      us := [u] + us;
    }
  }

  lemma {:induction false} BareGoesOn(t: Bytes, ptr: nat, isval: bool, w: Bytes, e: bool)
    requires ptr < |t| && |w| <= WORDMAX && ScanFrom(t, ptr, InVal, isval, w, e).Word? && !Stops(t, ptr, isval)
    ensures |w| < WORDMAX && (t[ptr] == 92 ==> ptr + 1 < |t|)
  {
    BlankIff(t[ptr]);
    if t[ptr] == 92 {
      assert ScanFrom(t, ptr, InVal, isval, w, e) == ScanFrom(t, ptr + 1, WaitEscIn, isval, w, e);
    }
  }

  /** What the reading of a word leaves: its spelling, from `a` up to `q`. */
  ghost predicate SpelledTo(t: Bytes, a: int, isval: bool, gap: Bytes, s: Spelling, q: int, r: Scan)
  {
    && r.Word? && r.word == Chars(s.us) && r.escaped == s.InQuotes? && AllBlank(gap) && SpellingOk(s, isval)
    && Span(t, a, q, gap + SpellingText(s)) && (s.Bare? ==> Stops(t, q, isval))
    && r.ptr == if s.Bare? then StopAt(t, q) else q - 1
  }

  lemma {:induction false} QuotedSpan(t: Bytes, ptr: int, r: int, us: seq<Unit>)
    requires 0 <= ptr && Span(t, ptr + 1, r, UnitsText(us)) && r < |t| && t[ptr] == 34 && t[r] == 34
    ensures Span(t, ptr, r + 1, [34] + (UnitsText(us) + [34]))
  {
    SpanJoin(t, ptr + 1, r, r + 1, UnitsText(us), [34]);
    SpanJoin(t, ptr, ptr + 1, r + 1, [34], UnitsText(us) + [34]);
  }

  lemma {:induction false} QuotedWord(t: Bytes, ptr: nat, isval: bool) returns (s: Spelling, q: int)
    requires ptr < |t| && t[ptr] == 34 && GetVal(t, ptr, isval).Word?
    ensures SpelledTo(t, ptr, isval, [], s, q, GetVal(t, ptr, isval))
  {
    assert GetVal(t, ptr, isval) == ScanFrom(t, ptr + 1, InEscVal, isval, [], true);
    var us := QuotedRead(t, ptr + 1, isval, []);
    var r := GetVal(t, ptr, isval);
    QuotedSpan(t, ptr, r.ptr, us);
    s, q := InQuotes(us), r.ptr + 1;
    assert [] + Chars(us) == Chars(us) && [] + SpellingText(s) == SpellingText(s);
  }

  lemma {:induction false} BareWord(t: Bytes, ptr: nat, isval: bool) returns (s: Spelling, q: int)
    requires ptr < |t| && !Blank(t[ptr]) && t[ptr] != 34 && GetVal(t, ptr, isval).Word?
    ensures SpelledTo(t, ptr, isval, [], s, q, GetVal(t, ptr, isval))
  {
    BareBegins(t, ptr, isval);
    var u := UnitAt(t, ptr);
    var next := ptr + |UnitText(u)|;
    UnitSpan(t, ptr);
    BareFirst(t, ptr, u, isval);
    var us;
    us, q := BareRead(t, next, isval, [u.c], false);
    UnitsJoin(t, ptr, next, q, u, us, []);
    assert [] + [u.c] == [u.c] && [] + Chars([u] + us) == Chars([u] + us) && ([u] + us)[1..] == us;
    s := Bare([u] + us);
    assert [] + SpellingText(s) == SpellingText(s);
  }

  lemma {:induction false} BareBegins(t: Bytes, ptr: nat, isval: bool)
    requires ptr < |t| && !Blank(t[ptr]) && t[ptr] != 34 && GetVal(t, ptr, isval).Word?
    ensures (t[ptr] == 92 ==> ptr + 1 < |t|) && FirstOk(UnitAt(t, ptr), isval)
  {
    BlankIff(t[ptr]);
    if t[ptr] == 92 {
      assert GetVal(t, ptr, isval) == ScanFrom(t, ptr + 1, WaitEscIn, isval, [], false);
    }
  }

  /** A word that is read is spelled there, behind white space. */
  lemma {:induction false} ValueRead(t: Bytes, ptr: nat, isval: bool) returns (gap: Bytes, s: Spelling, q: int)
    requires ptr <= |t| && GetVal(t, ptr, isval).Word?
    ensures SpelledTo(t, ptr, isval, gap, s, q, GetVal(t, ptr, isval))
    decreases |t| - ptr
  {
    BlankIff(t[ptr]);
    if Blank(t[ptr]) {
      gap, s, q := ValueRead(t, ptr + 1, isval);
      SpanJoin(t, ptr, ptr + 1, q, [t[ptr]], gap + SpellingText(s));
      assert [t[ptr]] + (gap + SpellingText(s)) == [t[ptr]] + gap + SpellingText(s);
      gap := [t[ptr]] + gap;
    } else {
      gap := [];
      if t[ptr] == 34 {
        s, q := QuotedWord(t, ptr, isval);
      } else {
        s, q := BareWord(t, ptr, isval);
      }
    }
  }

  lemma {:induction false} NothingRead(t: Bytes, ptr: nat, isval: bool)
    requires ptr <= |t|
    ensures GetVal(t, ptr, isval).End? <==> AllBlank(t[ptr..])
    decreases |t| - ptr
  {
    if ptr < |t| {
      BlankIff(t[ptr]);
      assert t[ptr..] == [t[ptr]] + t[ptr + 1..];
      if Blank(t[ptr]) {
        NothingRead(t, ptr + 1, isval);
      } else {
        assert t[ptr..][0] == t[ptr];
        WordNotEnd(t, ptr + 1, InVal, isval, [t[ptr]], false);
        WordNotEnd(t, ptr + 1, InEscVal, isval, [], true);
        WordNotEnd(t, ptr + 1, WaitEscIn, isval, [], false);
        assert [] + [t[ptr]] == [t[ptr]];
      }
    }
  }

  lemma {:induction false} WordNotEnd(t: Bytes, ptr: nat, st: Gv, ie: bool, w: Bytes, e: bool)
    requires ptr <= |t| && !st.WaitVal?
    ensures !ScanFrom(t, ptr, st, ie, w, e).End?
    decreases |t| - ptr
  {
    if ptr < |t| {
      WordNotEnd(t, ptr + 1, InVal, ie, w + [t[ptr]], e);
      WordNotEnd(t, ptr + 1, InEscVal, ie, w + [t[ptr]], e);
      WordNotEnd(t, ptr + 1, WaitEscIn, ie, w, e);
      WordNotEnd(t, ptr + 1, WaitEscEscIn, ie, w, e);
    }
  }
}
