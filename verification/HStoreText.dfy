/** The text form of an hstore (contrib/hstore/hstore_io.c): what get_val and parse_hstore make
    of every input, and what hstore_out writes. */
module HStoreText {
  import opened Options
  import opened Lex
  import opened HStoreLayout
  import opened HStoreUnique

  const QUOTE: int := 34
  const BACKSLASH: int := 92
  const EQUALS: int := 61
  const GREATER: int := 62
  const COMMA: int := 44
  const SPACE: int := 32

  /** The longest word and the most pairs before a doubled buffer passes the allocation limit. */
  const WORDMAX: int := 0x1FFF_FFFF
  const PAIRMAX: int := 0x100_0000

  /** The character at a place; the terminating zero stands behind the text. */
  function At(t: Bytes, i: nat): int { if i < |t| then t[i] else 0 }

  predicate IsSpace(c: int) { c == 32 || 9 <= c <= 13 }

  predicate NoNul(t: Bytes) { forall i | 0 <= i < |t| :: t[i] != 0 }

  // ---------------------------------------------------------------- one word

  datatype Gv = WaitVal | InVal | InEscVal | WaitEscIn | WaitEscEscIn

  /** A word with whether it was quoted and the place its reading stopped at. */
  datatype Scan = Word(word: Bytes, escaped: bool, ptr: int) | End | Failed

  /** get_val from some state on. */
  function ScanFrom(t: Bytes, ptr: nat, st: Gv, ignoreeq: bool, word: Bytes, escaped: bool): (r: Scan)
    requires ptr <= |t|
    ensures r.Word? ==> ptr - 1 <= r.ptr < |t| && (st.WaitVal? ==> ptr <= r.ptr)
    decreases |t| - ptr
  {
    var c := At(t, ptr);
    match st
    case WaitVal =>
      if c == QUOTE && ptr < |t| then ScanFrom(t, ptr + 1, InEscVal, ignoreeq, word, true)
      else if ptr == |t| then End
      else if c == EQUALS && !ignoreeq then Failed
      else if c == BACKSLASH then ScanFrom(t, ptr + 1, WaitEscIn, ignoreeq, word, escaped)
      else if !IsSpace(c) then ScanFrom(t, ptr + 1, InVal, ignoreeq, word + [c], escaped)
      else ScanFrom(t, ptr + 1, st, ignoreeq, word, escaped)
    case InVal =>
      if ptr == |t| then Word(word, escaped, ptr - 1)
      else if c == BACKSLASH then ScanFrom(t, ptr + 1, WaitEscIn, ignoreeq, word, escaped)
      else if c == EQUALS && !ignoreeq then Word(word, escaped, ptr - 1)
      else if c == COMMA && ignoreeq then Word(word, escaped, ptr - 1)
      else if IsSpace(c) then Word(word, escaped, ptr)
      else if |word| >= WORDMAX then Failed
      else ScanFrom(t, ptr + 1, st, ignoreeq, word + [c], escaped)
    case InEscVal =>
      if ptr == |t| then Failed
      else if c == BACKSLASH then ScanFrom(t, ptr + 1, WaitEscEscIn, ignoreeq, word, escaped)
      else if c == QUOTE then Word(word, escaped, ptr)
      else if |word| >= WORDMAX then Failed
      else ScanFrom(t, ptr + 1, st, ignoreeq, word + [c], escaped)
    case WaitEscIn =>
      if ptr == |t| || |word| >= WORDMAX then Failed
      else ScanFrom(t, ptr + 1, InVal, ignoreeq, word + [c], escaped)
    case WaitEscEscIn =>
      if ptr == |t| || |word| >= WORDMAX then Failed
      else ScanFrom(t, ptr + 1, InEscVal, ignoreeq, word + [c], escaped)
  }

  function GetVal(t: Bytes, ptr: nat, ignoreeq: bool): Scan
    requires ptr <= |t|
  {
    ScanFrom(t, ptr, WaitVal, ignoreeq, [], false)
  }

  // ---------------------------------------------------------------- the pairs

  datatype Ps = WKey | WEq | WGt | WVal | WDel

  datatype Parsed = Ok(pairs: seq<Item>) | Error

  function Fold(c: int): int { if 65 <= c <= 90 then c + 32 else c }

  /** Four letters that spell null, in any case. */
  predicate SpellsNull(w: Bytes)
  {
    |w| == 4 && Fold(w[0]) == 110 && Fold(w[1]) == 117 && Fold(w[2]) == 108 && Fold(w[3]) == 108
  }

  /** An unquoted null stands for no value. */
  function Value(w: Bytes, escaped: bool): Option<Bytes>
  {
    if !escaped && SpellsNull(w) then None else Some(w)
  }

  /** parse_hstore from some state on. */
  function ParseFrom(t: Bytes, ptr: nat, st: Ps, key: Bytes, acc: seq<Item>): Parsed
    requires ptr <= |t|
    decreases |t| - ptr
  {
    var c := At(t, ptr);
    match st
    case WKey =>
      (match GetVal(t, ptr, false)
       case End => Ok(acc)
       case Failed => Error
       case Word(w, _, p) => if |acc| >= PAIRMAX then Error else ParseFrom(t, p + 1, WEq, w, acc))
    case WEq =>
      if ptr == |t| then Error
      else if c == EQUALS then ParseFrom(t, ptr + 1, WGt, key, acc)
      else if IsSpace(c) then ParseFrom(t, ptr + 1, st, key, acc)
      else Error
    case WGt =>
      if ptr < |t| && c == GREATER then ParseFrom(t, ptr + 1, WVal, key, acc) else Error
    case WVal =>
      (match GetVal(t, ptr, true)
       case End => Error
       case Failed => Error
       case Word(w, e, p) => ParseFrom(t, p + 1, WDel, key, acc + [Item(Pair(key, Value(w, e)), true)]))
    case WDel =>
      if ptr == |t| then Ok(acc)
      else if c == COMMA then ParseFrom(t, ptr + 1, WKey, key, acc)
      else if IsSpace(c) then ParseFrom(t, ptr + 1, st, key, acc)
      else Error
  }

  function Parse(t: Bytes): Parsed { ParseFrom(t, 0, WKey, [], []) }

  // ---------------------------------------------------------------- printing

  function EscByte(c: int): Bytes { if c == QUOTE || c == BACKSLASH then [BACKSLASH, c] else [c] }

  /** cpw. */
  function Esc(s: Bytes): Bytes
  {
    if s == [] then [] else EscByte(s[0]) + Esc(s[1..])
  }

  function Quoted(s: Bytes): Bytes { [QUOTE] + Esc(s) + [QUOTE] }

  function ValText(v: Option<Bytes>): Bytes { if v.None? then [78, 85, 76, 76] else Quoted(v.value) }

  function PairText(p: Pair): Bytes { Quoted(p.key) + [EQUALS, GREATER] + ValText(p.val) }

  /** hstore_out from the i-th pair on. */
  function Rest(ps: seq<Pair>, i: nat): Bytes
    requires i <= |ps|
    decreases |ps| - i
  {
    if i == |ps| then []
    else if i + 1 == |ps| then PairText(ps[i])
    else PairText(ps[i]) + [COMMA, SPACE] + Rest(ps, i + 1)
  }

  // ---------------------------------------------------------------- the pairs of a list

  predicate Wordy(p: Pair) { |p.key| <= WORDMAX && |ValBytes(p)| <= WORDMAX }

  function Items(ps: seq<Pair>, i: nat): seq<Item>
    requires i <= |ps|
    decreases |ps| - i
  {
    if i == |ps| then [] else [Item(ps[i], true)] + Items(ps, i + 1)
  }

  lemma {:induction false} ItemsAre(ps: seq<Pair>, i: nat)
    requires i <= |ps|
    ensures |Items(ps, i)| == |ps| - i && forall j | 0 <= j < |ps| - i :: Items(ps, i)[j] == Item(ps[i + j], true)
    decreases |ps| - i
  {
    if i < |ps| {
      ItemsAre(ps, i + 1);
      var rest := Items(ps, i + 1);
      forall j | 0 <= j < |ps| - i ensures Items(ps, i)[j] == Item(ps[i + j], true) {
        if j > 0 {
          var k := j - 1;
          assert Items(ps, i)[j] == rest[k] == Item(ps[i + 1 + k], true);
        }
      }
    }
  }

  // ---------------------------------------------------------------- no more bytes than the text has

  /** A word is no longer than the text read for it, and made of its characters. */
  lemma {:induction false} ScanBytes(t: Bytes, ptr: nat, st: Gv, ie: bool, w: Bytes, e: bool)
    requires ptr <= |t| && InRange(t) && InRange(w)
    ensures var r := ScanFrom(t, ptr, st, ie, w, e);
      r.Word? ==> |r.word| <= |w| + r.ptr + 1 - ptr && |r.word| <= |t| + |w| && InRange(r.word)
    decreases |t| - ptr
  {
    if ptr < |t| {
      var c := t[ptr];
      assert InRange(w + [c]);
      ScanBytes(t, ptr + 1, WaitVal, ie, w, e);
      ScanBytes(t, ptr + 1, WaitEscIn, ie, w, e);
      ScanBytes(t, ptr + 1, WaitEscEscIn, ie, w, e);
      ScanBytes(t, ptr + 1, InEscVal, ie, w, true);
      ScanBytes(t, ptr + 1, InVal, ie, w + [c], e);
      ScanBytes(t, ptr + 1, InEscVal, ie, w + [c], e);
    }
  }

  /** Pairs whose bytes fit in `n` bytes of text, and no more of them than there is room for. */
  ghost predicate Within(acc: seq<Item>, n: int)
  {
    Bytesize(acc) <= n && |acc| <= PAIRMAX && forall x | x in acc :: PairInRange(x.pair)
  }

  /** The key read but not yet stored counts too. */
  function Pending(st: Ps, key: Bytes): int { if st.WKey? || st.WDel? then 0 else |key| }

  lemma {:induction false} WithinGrows(acc: seq<Item>, n: int, p: Pair, size: int)
    requires Within(acc, n) && |acc| < PAIRMAX && PairInRange(p) && |p.key| + |ValBytes(p)| <= size
    ensures Within(acc + [Item(p, true)], n + size)
  {
    SizeGrows(acc, Item(p, true));
  }

  lemma {:induction false} ParseBytes(t: Bytes, ptr: nat, st: Ps, key: Bytes, acc: seq<Item>)
    requires ptr <= |t| && InRange(t) && InRange(key) && Within(acc, ptr - Pending(st, key))
    requires st.WKey? || st.WDel? || |acc| < PAIRMAX
    ensures var r := ParseFrom(t, ptr, st, key, acc); r.Ok? ==> Within(r.pairs, |t|)
    decreases |t| - ptr
  {
    if st.WKey? {
      ScanBytes(t, ptr, WaitVal, false, [], false);
      var r := GetVal(t, ptr, false);
      if r.Word? && |acc| < PAIRMAX {
        ParseBytes(t, r.ptr + 1, WEq, r.word, acc);
      }
    } else if st.WVal? {
      ScanBytes(t, ptr, WaitVal, true, [], false);
      var r := GetVal(t, ptr, true);
      if r.Word? {
        var p := Pair(key, Value(r.word, r.escaped));
        WithinGrows(acc, ptr - |key|, p, |key| + |r.word|);
        ParseBytes(t, r.ptr + 1, WDel, key, acc + [Item(p, true)]);
      }
    } else if ptr < |t| {
      ParseBytes(t, ptr + 1, st, key, acc);
      if st.WEq? {
        ParseBytes(t, ptr + 1, WGt, key, acc);
      } else if st.WGt? {
        ParseBytes(t, ptr + 1, WVal, key, acc);
      } else {
        ParseBytes(t, ptr + 1, WKey, key, acc);
      }
    }
  }

  lemma {:induction false} ParseWithin(t: Bytes)
    requires InRange(t)
    ensures Parse(t).Ok? ==> Within(Parse(t).pairs, |t|)
  {
    ParseBytes(t, 0, WKey, [], []);
  }
}
