/** hstore_out as it runs (contrib/hstore/hstore_io.c): size the buffer by a pessimistic bound,
    then write from a moving place on. */
module HStorePrint {
  import opened Options
  import opened Int32
  import opened Lex
  import opened HStoreLayout
  import opened HStoreText
  import F = HStoreFind

  // ---------------------------------------------------------------- the bound

  /** Room reserved for one pair: quotes, arrow, separator, every character escaped. */
  function PairRoom(p: Pair): nat
  {
    6 + 2 * |p.key| + 2 + if p.val.None? then 2 else 2 * |p.val.value|
  }

  function OutLen(ps: seq<Pair>, i: nat): nat
    requires i <= |ps|
  {
    if i == 0 then 0 else OutLen(ps, i - 1) + PairRoom(ps[i - 1])
  }

  lemma {:induction false} OutLenMonotone(ps: seq<Pair>, i: nat, j: nat)
    requires i <= j <= |ps|
    ensures OutLen(ps, i) <= OutLen(ps, j)
    decreases j
  {
    if i < j {
      OutLenMonotone(ps, i, j - 1);
    }
  }

  lemma {:induction false} EscSize(s: Bytes)
    ensures |s| <= |Esc(s)| <= 2 * |s|
  {
    if s != [] {
      EscSize(s[1..]);
    }
  }

  lemma {:induction false} PairSize(p: Pair)
    ensures |PairText(p)| + 2 <= PairRoom(p)
  {
    EscSize(p.key);
    if p.val.Some? {
      EscSize(p.val.value);
    }
  }

  /** Room for a pair bounds its strings, so that the parser can hold them. */
  lemma {:induction false} RoomBounds(ps: seq<Pair>, j: nat)
    requires j < |ps| && OutLen(ps, |ps|) <= MAXALLOC
    ensures Wordy(ps[j])
  {
    OutLenMonotone(ps, j + 1, |ps|);
  }

  // ---------------------------------------------------------------- writing

  /** The buffer holds a text up to a place. */
  ghost predicate Written(m: seq<int>, ptr: int, s: Bytes)
  {
    ptr == |s| <= |m| && m[..ptr] == s
  }

  method Put(out: array<int>, ptr: nat, bytes: Bytes, ghost s: Bytes) returns (ptr': nat)
    requires Written(out[..], ptr, s) && ptr + |bytes| <= out.Length
    modifies out
    ensures Written(out[..], ptr', s + bytes)
  {
    forall k | 0 <= k < |bytes| {
      out[ptr + k] := bytes[k];
    }
    ptr' := ptr + |bytes|;
    assert out[..ptr'] == s + bytes;
  }

  /** cpw: copy a string, a backslash before every quote and backslash. */
  method Cpw(out: array<int>, dst: nat, src: Bytes, ghost s: Bytes) returns (ptr: nat)
    requires Written(out[..], dst, s) && dst + 2 * |src| <= out.Length
    modifies out
    ensures Written(out[..], ptr, s + Esc(src))
  {
    ptr := dst;
    ghost var done := s;
    assert src[0..] == src;
    for i := 0 to |src|
      invariant Written(out[..], ptr, done) && ptr <= dst + 2 * i && done + Esc(src[i..]) == s + Esc(src)
    {
      var c := src[i];
      EscNext(done, src, i);
      ghost var before := done;
      if c == QUOTE || c == BACKSLASH {
        ptr := Put(out, ptr, [BACKSLASH], done);
        done := done + [BACKSLASH];
      }
      ptr := Put(out, ptr, [c], done);
      done := done + [c];
      assert done == before + EscByte(c);
    }
    assert Esc([]) == [] && src[|src|..] == [];
  }

  lemma {:induction false} EscNext(s: Bytes, src: Bytes, i: nat)
    requires i < |src|
    ensures s + Esc(src[i..]) == s + EscByte(src[i]) + Esc(src[i + 1..])
  {
    assert src[i..][1..] == src[i + 1..];
  }

  method WriteQuoted(out: array<int>, ptr: nat, src: Bytes, ghost s: Bytes) returns (ptr': nat)
    requires Written(out[..], ptr, s) && ptr + 2 * |src| + 2 <= out.Length
    modifies out
    ensures Written(out[..], ptr', s + Quoted(src))
  {
    EscSize(src);
    ptr' := Put(out, ptr, [QUOTE], s);
    ptr' := Cpw(out, ptr', src, s + [QUOTE]);
    ptr' := Put(out, ptr', [QUOTE], s + [QUOTE] + Esc(src));
    assert s + [QUOTE] + Esc(src) + [QUOTE] == s + Quoted(src);
  }

  method WriteVal(out: array<int>, ptr: nat, vnull: bool, val: Bytes, ghost s: Bytes) returns (ptr': nat)
    requires Written(out[..], ptr, s) && ptr + (if vnull then 4 else 2 * |val| + 2) <= out.Length
    modifies out
    ensures Written(out[..], ptr', s + ValText(if vnull then None else Some(val)))
  {
    if vnull {
      ptr' := Put(out, ptr, [78, 85, 76, 76], s);
    } else {
      ptr' := WriteQuoted(out, ptr, val, s);
    }
  }

  method WriteKey(out: array<int>, ptr: nat, key: Bytes, ghost s: Bytes) returns (ptr': nat)
    requires Written(out[..], ptr, s) && ptr + 2 * |key| + 4 <= out.Length
    modifies out
    ensures Written(out[..], ptr', s + (Quoted(key) + [EQUALS, GREATER])) && ptr' <= ptr + 2 * |key| + 4
  {
    EscSize(key);
    ptr' := WriteQuoted(out, ptr, key, s);
    ptr' := Put(out, ptr', [EQUALS, GREATER], s + Quoted(key));
    assert s + Quoted(key) + [EQUALS, GREATER] == s + (Quoted(key) + [EQUALS, GREATER]);
  }

  method WritePair(out: array<int>, ptr: nat, h: HStore, i: nat, ghost ps: seq<Pair>, ghost s: Bytes)
    returns (ptr': nat)
    requires Rep(h, ps) && i < |ps| && Written(out[..], ptr, s) && ptr + PairRoom(ps[i]) <= out.Length
    modifies out
    ensures Written(out[..], ptr', s + PairText(ps[i]))
  {
    var key := F.ReadKey(h, i, ps);
    var vnull, val := F.ReadVal(h, i, ps);
    ghost var k, v := Quoted(key) + [EQUALS, GREATER], ValText(ps[i].val);
    ptr' := WriteKey(out, ptr, key, s);
    ptr' := WriteVal(out, ptr', vnull, val, s + k);
    ThreeJoin(s, k, v);
  }

  lemma {:induction false} ThreeJoin(s: Bytes, a: Bytes, b: Bytes)
    ensures s + (a + b) == s + a + b
  {
  }

  /** The bound never leaves 32 bits. */
  lemma {:induction false} OutLenBound(ps: seq<Pair>, i: nat)
    requires i <= |ps|
    ensures OutLen(ps, i) <= 2 * StrLen(ps, i) + 10 * i
  {
    if i > 0 {
      OutLenBound(ps, i - 1);
    }
  }

  method BufferLength(h: HStore, ghost ps: seq<Pair>) returns (buflen: nat)
    requires Rep(h, ps)
    ensures buflen == OutLen(ps, |ps|) <= INT_MAX
  {
    buflen := 0;
    for i := 0 to Count(h)
      invariant buflen == OutLen(ps, i)
    {
      var key := F.ReadKey(h, i, ps);
      var vnull, val := F.ReadVal(h, i, ps);
      buflen := buflen + 6 + 2 * |key|;
      buflen := buflen + 2 + if vnull then 2 else 2 * |val|;
    }
    OutLenBound(ps, |ps|);
  }

  /** What is written and what is left. */
  function Whole(s: Bytes, ps: seq<Pair>, i: nat): Bytes
    requires i <= |ps|
  {
    s + Rest(ps, i)
  }

  lemma {:induction false} RestLast(s: Bytes, ps: seq<Pair>, i: nat)
    requires i + 1 == |ps|
    ensures Whole(s, ps, i) == Whole(s + PairText(ps[i]), ps, i + 1)
  {
    assert Rest(ps, i + 1) == [];
  }

  lemma {:induction false} FourJoin(s: Bytes, a: Bytes, b: Bytes, c: Bytes)
    ensures s + (a + b + c) == s + a + b + c
  {
  }

  lemma {:induction false} RestMore(s: Bytes, ps: seq<Pair>, i: nat)
    requires i + 1 < |ps|
    ensures Whole(s, ps, i) == Whole(s + PairText(ps[i]) + [COMMA, SPACE], ps, i + 1)
  {
    FourJoin(s, PairText(ps[i]), [COMMA, SPACE], Rest(ps, i + 1));
  }

  /** One pair and its separator. */
  method WriteOne(out: array<int>, ptr: nat, h: HStore, i: nat, ghost ps: seq<Pair>, ghost s: Bytes)
    returns (ptr': nat, ghost s': Bytes)
    requires Rep(h, ps) && i < |ps| && Written(out[..], ptr, s) && ptr + PairRoom(ps[i]) <= out.Length
    modifies out
    ensures Written(out[..], ptr', s') && Whole(s, ps, i) == Whole(s', ps, i + 1)
    ensures ptr' + (if i + 1 == |ps| then 2 else 0) <= ptr + PairRoom(ps[i])
  {
    PairSize(ps[i]);
    s' := s + PairText(ps[i]);
    ptr' := WritePair(out, ptr, h, i, ps, s);
    if i + 1 != Count(h) {
      RestMore(s, ps, i);
      ptr' := Put(out, ptr', [COMMA, SPACE], s');
      s' := s' + [COMMA, SPACE];
    } else {
      RestLast(s, ps, i);
    }
  }

  /** hstore_out: the text, unless the bound passes the allocation limit. */
  method HstoreOut(h: HStore, ghost ps: seq<Pair>) returns (r: Option<Bytes>)
    requires Rep(h, ps)
    ensures r.None? <==> OutLen(ps, |ps|) > MAXALLOC
    ensures r.Some? ==> r.value == Rest(ps, 0) && |r.value| < MAXALLOC
  {
    if Count(h) == 0 {
      return Some([]);
    }
    var buflen := BufferLength(h, ps);
    if buflen > MAXALLOC {
      return None;
    }
    var text := WriteAll(h, buflen, ps);
    r := Some(text);
  }

  /** The text is written up to the i-th pair, within the room for the pairs before it. */
  ghost predicate WrittenTo(m: seq<int>, ptr: int, ps: seq<Pair>, i: nat, s: Bytes)
    requires i <= |ps|
  {
    && Written(m, ptr, s) && Whole(s, ps, i) == Rest(ps, 0)
    && ptr + (if i == |ps| then 2 else 0) <= OutLen(ps, i)
  }

  lemma {:induction false} WrittenAll(m: seq<int>, ptr: int, ps: seq<Pair>, s: Bytes)
    requires WrittenTo(m, ptr, ps, |ps|, s)
    ensures 0 <= ptr <= |m| && m[..ptr] == Rest(ps, 0) && ptr + 2 <= OutLen(ps, |ps|)
  {
    assert Rest(ps, |ps|) == [] && s + [] == s;
  }

  lemma {:induction false} RoomFor(ps: seq<Pair>, i: nat, ptr: int)
    requires i < |ps| && ptr <= OutLen(ps, i)
    ensures ptr + PairRoom(ps[i]) <= OutLen(ps, i + 1) && ptr + PairRoom(ps[i]) <= OutLen(ps, |ps|)
  {
    OutLenMonotone(ps, i + 1, |ps|);
  }

  method WriteNext(out: array<int>, ptr: nat, h: HStore, i: nat, ghost ps: seq<Pair>, ghost s: Bytes)
    returns (ptr': nat, ghost s': Bytes)
    requires Rep(h, ps) && i < |ps| && out.Length == OutLen(ps, |ps|) && WrittenTo(out[..], ptr, ps, i, s)
    modifies out
    ensures WrittenTo(out[..], ptr', ps, i + 1, s')
  {
    RoomFor(ps, i, ptr);
    ptr', s' := WriteOne(out, ptr, h, i, ps, s);
  }

  method WriteAll(h: HStore, buflen: nat, ghost ps: seq<Pair>) returns (text: Bytes)
    requires Rep(h, ps) && |ps| > 0 && buflen == OutLen(ps, |ps|)
    ensures text == Rest(ps, 0) && |text| < buflen
  {
    var out := new int[buflen];
    var ptr := 0;
    ghost var s: Bytes := [];
    assert [] + Rest(ps, 0) == Rest(ps, 0);
    for i := 0 to Count(h)
      invariant WrittenTo(out[..], ptr, ps, i, s)
    {
      ptr, s := WriteNext(out, ptr, h, i, ps, s);
    }
    WrittenAll(out[..], ptr, ps, s);
    text := out[..ptr];
    out[ptr] := 0;
  }
}
