/** Shared value types and the fixed-width integer conversions the source relies on. */
module Base {

  datatype Option<+T> = None | Some(value: T)

  const TWO_63 := 0x8000_0000_0000_0000
  const TWO_64 := 0x1_0000_0000_0000_0000
  const MAX_INT64 := TWO_63 - 1

  /** What Go's `big.Int.Int64()` and a wrapped 64-bit sum yield: the low 64 bits of `x`,
      read in two's complement. */
  function Int64(x: int): (r: int)
    ensures -TWO_63 <= r < TWO_63
    ensures -TWO_63 <= x < TWO_63 ==> r == x
  {
    (x + TWO_63) % TWO_64 - TWO_63
  }

  /** Numbers have the same low 64 bits exactly when they differ by a multiple of 2^64. */
  lemma Int64Same(x: int, y: int)
    ensures Int64(x) == Int64(y) <==> (x - y) % TWO_64 == 0
  {
    var a, b := (x + TWO_63) / TWO_64, (y + TWO_63) / TWO_64;
    assert x - y == TWO_64 * (a - b) + (Int64(x) - Int64(y));
  }

  /** Wrapping after every addition is the same as wrapping once at the end. */
  lemma Int64Add(x: int, d: int)
    ensures Int64(Int64(x) + d) == Int64(x + d)
  {}
}
