/** The library sort as some sorted rearrangement, and the places of a list that is thinned out
    in place. */
module Sorting {

  ghost predicate Linear<T(!new)>(le: (T, T) -> bool)
  {
    && (forall a, b :: le(a, b) || le(b, a))
    && (forall a, b, c :: le(a, b) && le(b, c) ==> le(a, c))
  }

  ghost predicate SortedBy<T(!new)>(le: (T, T) -> bool, s: seq<T>)
  {
    forall i, j | 0 <= i < j < |s| :: le(s[i], s[j])
  }

  function Insert<T>(le: (T, T) -> bool, x: T, s: seq<T>): seq<T>
  {
    if s == [] || le(x, s[0]) then [x] + s else [s[0]] + Insert(le, x, s[1..])
  }

  function Arrange<T>(le: (T, T) -> bool, s: seq<T>): seq<T>
  {
    if s == [] then [] else Insert(le, s[0], Arrange(le, s[1..]))
  }

  lemma {:induction false} InsertSame<T>(le: (T, T) -> bool, x: T, s: seq<T>)
    ensures multiset(Insert(le, x, s)) == multiset{x} + multiset(s) && |Insert(le, x, s)| == |s| + 1
  {
    if s != [] && !le(x, s[0]) {
      InsertSame(le, x, s[1..]);
      assert s == [s[0]] + s[1..];
    }
  }

  lemma {:induction false} InsertSorts<T(!new)>(le: (T, T) -> bool, x: T, s: seq<T>)
    requires Linear(le) && SortedBy(le, s)
    ensures SortedBy(le, Insert(le, x, s))
  {
    if s != [] && !le(x, s[0]) {
      var t := Insert(le, x, s[1..]);
      InsertSorts(le, x, s[1..]);
      InsertSame(le, x, s[1..]);
      assert le(s[0], x);
      forall j | 0 <= j < |t| ensures le(s[0], t[j]) {
        assert t[j] in multiset(t);
      }
    }
  }

  lemma {:induction false} ArrangeSorts<T(!new)>(le: (T, T) -> bool, s: seq<T>)
    requires Linear(le)
    ensures SortedBy(le, Arrange(le, s)) && |Arrange(le, s)| == |s| && multiset(Arrange(le, s)) == multiset(s)
  {
    if s != [] {
      ArrangeSorts(le, s[1..]);
      InsertSame(le, s[0], Arrange(le, s[1..]));
      InsertSorts(le, s[0], Arrange(le, s[1..]));
      assert s == [s[0]] + s[1..];
    }
  }

  /** Where the elements kept and the elements still to come lie. */
  ghost predicate Placed<T>(m: seq<T>, s: seq<T>, out: seq<T>, t: int)
  {
    && |m| == |s| && 0 < |out| <= t <= |s|
    && (forall k | t <= k < |s| :: m[k] == s[k]) && (forall k | 0 <= k < |out| :: m[k] == out[k])
  }

  lemma {:induction false} PlacedStep<T>(m: seq<T>, s: seq<T>, out: seq<T>, t: int)
    requires Placed(m, s, out, t) && t < |s|
    ensures m[t] == s[t] && m[|out| - 1] == out[|out| - 1]
    ensures Placed(m, s, out, t + 1) && Placed(m[|out| := m[t]], s, out + [s[t]], t + 1)
  {
  }
}
