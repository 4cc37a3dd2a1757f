/** Fixed-width integers, with the wrap-around the C code is compiled for. */
module Int32 {

  const INT_MAX: int := 0x7FFF_FFFF
  const INT_MIN: int := -0x8000_0000

  /** The largest block palloc hands out. */
  const MAXALLOC: int := 0x3FFF_FFFF

  predicate Fits32(v: int) { INT_MIN <= v <= INT_MAX }

  /** Conversion to a 32-bit signed integer. */
  function Wrap32(v: int): (r: int)
    ensures Fits32(r) && (Fits32(v) ==> r == v)
  {
    (v + 0x8000_0000) % 0x1_0000_0000 - 0x8000_0000
  }

  lemma {:induction false} WrapShifts(v: int, k: int)
    ensures Wrap32(v - 0x1_0000_0000 * k) == Wrap32(v)
  {
  }

  lemma {:induction false} WrapAdds(x: int, y: int)
    ensures Wrap32(Wrap32(x) + Wrap32(y)) == Wrap32(x + y)
  {
    var p, q := (x + 0x8000_0000) / 0x1_0000_0000, (y + 0x8000_0000) / 0x1_0000_0000;
    assert Wrap32(x) == x - 0x1_0000_0000 * p && Wrap32(y) == y - 0x1_0000_0000 * q;
    WrapShifts(x + y, p + q);
  }

  /** Conversion to a 32-bit unsigned integer. */
  function Unsigned32(v: int): (r: int)
    ensures 0 <= r <= 0xFFFF_FFFF && (0 <= v <= 0xFFFF_FFFF ==> r == v)
  {
    v % 0x1_0000_0000
  }

  /** Conversion to a 16-bit signed integer. */
  function Wrap16(v: int): (r: int)
    ensures -0x8000 <= r <= 0x7FFF
    ensures r == v <==> -0x8000 <= v <= 0x7FFF
  {
    (v + 0x8000) % 0x1_0000 - 0x8000
  }

  /** A 16-bit number turns positive just below its range. */
  lemma {:induction false} Wrap16Under(v: int)
    requires -0x1_0000 < v < -0x8000
    ensures Wrap16(v) == v + 0x1_0000
  {
    assert (v + 0x8000) % 0x1_0000 == v + 0x8000 + 0x1_0000;
  }
}
