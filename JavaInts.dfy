/**
 * Java's 32-bit `int` arithmetic, written out explicitly because Dafny's
 * integers are unbounded.
 */
module JavaInts {

  const INT_MIN: int := -0x8000_0000
  const INT_MAX: int := 0x7FFF_FFFF

  /** The number of distinct `int` values. */
  const INT_RANGE: int := 0x1_0000_0000

  predicate IsInt(x: int) {
    INT_MIN <= x <= INT_MAX
  }

  /** Two's-complement wrap-around of an `int` addition or multiplication. */
  function Wrap32(x: int): (r: int)
    ensures IsInt(r)
    ensures (r - x) % INT_RANGE == 0
    ensures IsInt(x) ==> r == x
  {
    (x - INT_MIN) % INT_RANGE + INT_MIN
  }

  /** Wrapping an intermediate result does not change the final wrapped value. */
  lemma WrapAdd(x: int, y: int)
    ensures Wrap32(Wrap32(x) + y) == Wrap32(x + y)
  {
    var k := (Wrap32(x) - x) / INT_RANGE;
    assert Wrap32(x) + y == x + y + k * INT_RANGE;
    ModShift(x + y - INT_MIN, k);
  }

  lemma ModShift(a: int, k: int)
    ensures (a + k * INT_RANGE) % INT_RANGE == a % INT_RANGE
  {
  }
}
