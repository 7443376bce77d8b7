/** Go's `int` on a 64-bit platform: a signed 64-bit integer whose arithmetic
    wraps around modulo 2^64. */
module GoInts {

  const MaxUint64: int := 0xFFFF_FFFF_FFFF_FFFF
  const MaxInt64: int := 0x7FFF_FFFF_FFFF_FFFF
  const MinInt64: int := -0x8000_0000_0000_0000
  const TwoTo64: int := 0x1_0000_0000_0000_0000

  type Int64 = x: int | MinInt64 <= x <= MaxInt64

  /** The int64 that Go's wrapping arithmetic yields for the exact result `x`:
      the one value in range that is congruent to `x` modulo 2^64. */
  function Wrap64(x: int): (r: Int64)
    ensures (r - x) % TwoTo64 == 0
    ensures MinInt64 <= x <= MaxInt64 ==> r == x
  {
    (x - MinInt64) % TwoTo64 + MinInt64
  }

  /** Wrapping an intermediate result does not change the wrapped product. */
  lemma WrapProduct(a: int, b: int)
    ensures Wrap64(Wrap64(a) * b) == Wrap64(a * b)
  {
    var k := (Wrap64(a) - a) / TwoTo64;
    assert Wrap64(a) == a + k * TwoTo64;
    assert Wrap64(a) * b == a * b + (k * b) * TwoTo64;
    WrapShift(a * b, k * b);
  }

  lemma WrapShift(x: int, k: int)
    ensures Wrap64(x + k * TwoTo64) == Wrap64(x)
  {
    assert (x + k * TwoTo64 - MinInt64) % TwoTo64 == (x - MinInt64) % TwoTo64;
  }
}
