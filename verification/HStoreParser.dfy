/** The text parser as it runs (contrib/hstore/hstore_io.c: get_val, parse_hstore): a place
    in the text, a word buffer and an array of pairs that double when they are full. */
module HStoreParser {
  import opened Options
  import opened Int32
  import opened Doubling
  import opened Lex
  import opened HStoreLayout
  import opened HStoreUnique
  import opened HStoreText

  const WORDLEN: int := 32
  const PLEN: int := 16

  lemma {:induction false} WordLimit(size: int, k: nat)
    requires Doubled(size, WORDLEN, k) && k <= 24
    ensures if k == 24 then size == WORDMAX + 1 && 2 * size > MAXALLOC
      else 2 * size <= MAXALLOC && size <= WORDMAX && Doubled(2 * size, WORDLEN, k + 1)
  {
    Pow2Values();
    if k < 24 {
      Pow2Monotone(k + 1, 24);
    }
  }

  lemma {:induction false} PairLimit(size: int, k: nat)
    requires Doubled(size, PLEN, k) && k <= 20
    ensures if k == 20 then size == PAIRMAX && PAIRSIZE * 2 * size > MAXALLOC
      else PAIRSIZE * 2 * size <= MAXALLOC && size < PAIRMAX && Doubled(2 * size, PLEN, k + 1)
  {
    Pow2Values();
    if k < 20 {
      Pow2Monotone(k + 1, 20);
    }
  }

  class HSParser {
    const begin: Bytes
    var ptr: int
    var word: Bytes
    var wordlen: int
    var pairs: seq<Item>
    var plen: int
    ghost var wordk: nat
    ghost var pairk: nat

    constructor (text: Bytes)
      ensures begin == text && ptr == 0 && pairs == [] && word == [] && plen == PLEN && pairk == 0
    {
      begin := text;
      ptr, pairs, plen, pairk := 0, [], PLEN, 0;
      word, wordlen, wordk := [], WORDLEN, 0;
    }

    /** The characters of the word fit in its buffer, with one place to spare. */
    ghost predicate WordRoom()
      reads this
    {
      |word| < wordlen && wordk <= 24 && Doubled(wordlen, WORDLEN, wordk)
    }

    ghost predicate PairRoom()
      reads this
    {
      |pairs| <= plen && 0 < plen && pairk <= 20 && Doubled(plen, PLEN, pairk)
    }

    /** RESIZEPRSBUF and the store behind it; the buffer cannot grow past the allocation limit. */
    method Store(c: int) returns (ok: bool)
      requires WordRoom()
      modifies this`word, this`wordlen, this`wordk
      ensures ok <==> |old(word)| < WORDMAX
      ensures ok ==> WordRoom() && word == old(word) + [c]
    {
      WordLimit(wordlen, wordk);
      if |word| + 1 >= wordlen {
        if 2 * wordlen > MAXALLOC {
          return false;
        }
        wordlen, wordk := 2 * wordlen, wordk + 1;
      }
      word := word + [c];
      ok := true;
    }

    /** get_val: a word, no word, or an error. */
    method GetVal(ignoreeq: bool) returns (ok: bool, found: bool, escaped: bool)
      requires 0 <= ptr <= |begin|
      modifies this`ptr, this`word, this`wordlen, this`wordk
      ensures match HStoreText.GetVal(begin, old(ptr), ignoreeq)
        case Word(w, e, p) => ok && found && word == w && escaped == e && ptr == p
        case End => ok && !found
        case Failed => !ok
    {
      var st := WaitVal;
      word, wordlen, wordk := [], WORDLEN, 0;
      escaped, found := false, true;
      ghost var r := HStoreText.GetVal(begin, ptr, ignoreeq);
      while true
        invariant 0 <= ptr <= |begin| && WordRoom() && (st.WaitVal? ==> word == [])
        invariant ScanFrom(begin, ptr, st, ignoreeq, word, escaped) == r && found
        decreases |begin| - ptr
      {
        var c := At(begin, ptr);
        if st == WaitVal {
          if c == QUOTE && ptr < |begin| {
            escaped := true;
            st := InEscVal;
          } else if ptr == |begin| {
            return true, false, escaped;
          } else if c == EQUALS && !ignoreeq {
            return false, found, escaped;
          } else if c == BACKSLASH {
            st := WaitEscIn;
          } else if !IsSpace(c) {
            word := word + [c];
            st := InVal;
          }
        } else if st == InVal {
          if ptr == |begin| {
            ptr := ptr - 1;
            return true, true, escaped;
          } else if c == BACKSLASH {
            st := WaitEscIn;
          } else if c == EQUALS && !ignoreeq {
            ptr := ptr - 1;
            return true, true, escaped;
          } else if c == COMMA && ignoreeq {
            ptr := ptr - 1;
            return true, true, escaped;
          } else if IsSpace(c) {
            return true, true, escaped;
          } else {
            ok := Store(c);
            if !ok {
              return;
            }
          }
        } else if st == InEscVal {
          if c == BACKSLASH {
            st := WaitEscEscIn;
          } else if c == QUOTE {
            return true, true, escaped;
          } else if ptr == |begin| {
            return false, found, escaped;
          } else {
            ok := Store(c);
            if !ok {
              return;
            }
          }
        } else {
          if ptr == |begin| {
            return false, found, escaped;
          }
          ok := Store(c);
          if !ok {
            return;
          }
          st := if st == WaitEscIn then InVal else InEscVal;
        }
        ptr := ptr + 1;
      }
    }

    /** Make room for one more pair. */
    method Grow() returns (ok: bool)
      requires PairRoom()
      modifies this`plen, this`pairk
      ensures ok <==> |pairs| < PAIRMAX
      ensures ok ==> PairRoom() && |pairs| < plen
    {
      PairLimit(plen, pairk);
      if |pairs| >= plen {
        if PAIRSIZE * 2 * plen > MAXALLOC {
          return false;
        }
        plen, pairk := 2 * plen, pairk + 1;
      }
      ok := true;
    }

    /** parse_hstore: the pairs in the order of the text, or an error. */
    method Parse() returns (ok: bool)
      requires ptr == 0 && pairs == [] && plen == PLEN && pairk == 0
      modifies this
      ensures match HStoreText.Parse(begin)
        case Ok(ps) => ok && pairs == ps
        case Error => !ok
    {
      var st := WKey;
      var key: Bytes := [];
      ghost var r := HStoreText.Parse(begin);
      while true
        invariant 0 <= ptr <= |begin| && PairRoom() && (st.WKey? || st.WDel? || |pairs| < plen)
        invariant ParseFrom(begin, ptr, st, key, pairs) == r
        decreases |begin| - ptr
      {
        var c := At(begin, ptr);
        if st == WKey {
          var fine, found, _ := GetVal(false);
          if !fine {
            return false;
          }
          if !found {
            return true;
          }
          ok := Grow();
          if !ok {
            return;
          }
          key := word;
          st := WEq;
        } else if st == WEq {
          if ptr < |begin| && c == EQUALS {
            st := WGt;
          } else if ptr == |begin| || !IsSpace(c) {
            return false;
          }
        } else if st == WGt {
          if ptr < |begin| && c == GREATER {
            st := WVal;
          } else {
            return false;
          }
        } else if st == WVal {
          var fine, found, escaped := GetVal(true);
          if !fine || !found {
            return false;
          }
          var isnull := |word| == 4 && !escaped && SpellsNull(word);
          pairs := pairs + [Item(Pair(key, if isnull then None else Some(word)), true)];
          st := WDel;
        } else {
          if ptr < |begin| && c == COMMA {
            st := WKey;
          } else if ptr == |begin| {
            return true;
          } else if !IsSpace(c) {
            return false;
          }
        }
        ptr := ptr + 1;
      }
    }
  }
}
