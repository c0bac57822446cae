/** Java's primitive numeric conversions, written out over unbounded
    integers and exact reals: the `(int)` and `(long)` casts of a `double`
    truncate toward zero and saturate at the type's bounds. */
module JavaNumbers {

  const Int32Min: int := -0x8000_0000
  const Int32Max: int := 0x7fff_ffff
  const Int64Min: int := -0x8000_0000_0000_0000
  const Int64Max: int := 0x7fff_ffff_ffff_ffff

  predicate IsIntegral(x: real) {
    x == x.Floor as real
  }

  /** Rounds toward zero, as every Java narrowing cast of a floating value does. */
  function TruncateTowardZero(x: real): (n: int)
    ensures -1.0 < x - n as real < 1.0
    ensures (x >= 0.0 ==> 0 <= n) && (x <= 0.0 ==> n <= 0)
    ensures (x >= 0.0 ==> n as real <= x) && (x <= 0.0 ==> x <= n as real)
    ensures IsIntegral(x) ==> n as real == x
  {
    if x >= 0.0 then
      FloorBounds(x);
      x.Floor
    else
      FloorBounds(-x);
      NegatedIntegral(x);
      -((-x).Floor)
  }

  lemma NegatedIntegral(x: real)
    ensures IsIntegral(x) ==> (-x).Floor == -x.Floor
  {
    if IsIntegral(x) {
      var n := x.Floor;
      assert -x == (-n) as real;
    }
  }

  lemma FloorBounds(x: real)
    ensures x.Floor as real <= x < x.Floor as real + 1.0
    ensures x >= 0.0 ==> x.Floor >= 0
  {
  }

  function Saturate(n: int, lo: int, hi: int): int
    requires lo <= hi
  {
    if n < lo then lo else if n > hi then hi else n
  }

  /** `(int) x`. Converting back gives `x` exactly when `x` is a whole number in `int` range. */
  function IntCast(x: real): (n: int)
    ensures Int32Min <= n <= Int32Max
    ensures n as real == x <==> IsIntegral(x) && Int32Min as real <= x <= Int32Max as real
  {
    Saturate(TruncateTowardZero(x), Int32Min, Int32Max)
  }

  /** `(long) x`. Converting back gives `x` exactly when `x` is a whole number in `long` range. */
  function LongCast(x: real): (n: int)
    ensures Int64Min <= n <= Int64Max
    ensures n as real == x <==> IsIntegral(x) && Int64Min as real <= x <= Int64Max as real
  {
    Saturate(TruncateTowardZero(x), Int64Min, Int64Max)
  }
}
