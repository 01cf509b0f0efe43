/** Go's fixed-width integers and its division operators, over Dafny's unbounded `int`. */
module MachineInts {

  const MIN_INT64: int := -0x8000_0000_0000_0000
  const MAX_INT64: int := 0x7FFF_FFFF_FFFF_FFFF
  const TWO_TO_64: int := 0x1_0000_0000_0000_0000

  type Int64 = x: int | MIN_INT64 <= x <= MAX_INT64
  type Int32 = x: int | -0x8000_0000 <= x <= 0x7FFF_FFFF
  type Int16 = x: int | -0x8000 <= x <= 0x7FFF

  predicate FitsInt64(x: int) {
    MIN_INT64 <= x <= MAX_INT64
  }

  /** The int64 that two's-complement arithmetic stores for the exact result `x`. */
  function Wrap64(x: int): (r: Int64)
    ensures FitsInt64(x) ==> r == x
  {
    (x - MIN_INT64) % TWO_TO_64 + MIN_INT64
  }

  /** Wrapping an intermediate sum does not change the wrapped total. */
  lemma WrapAbsorbs(x: int, y: int)
    ensures Wrap64(Wrap64(x) + y) == Wrap64(x + y)
  {
  }

  function Min(a: int, b: int): int {
    if a <= b then a else b
  }

  function Max(a: int, b: int): int {
    if a >= b then a else b
  }

  function Abs(a: int): nat {
    if a < 0 then -a else a
  }

  /** Go's `/`: the quotient truncated toward zero. */
  function Quo(a: int, b: int): int
    requires b != 0
  {
    var q := Abs(a) / Abs(b);
    if (a < 0) == (b < 0) then q else -q
  }

  /** Go's `%`: the remainder that goes with `Quo`; it takes the sign of `a`. */
  function Rem(a: int, b: int): int
    requires b != 0
  {
    a - Quo(a, b) * b
  }
}
