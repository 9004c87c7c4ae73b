/** Vocabulary shared by every module: results, identifiers and the machine integer ranges. */
module Base {

  datatype Option<+T> = None | Some(value: T)

  /** An error return. Failure-compatible, so a caller may propagate it with `:-`. */
  datatype Result<+T, +E> = Ok(value: T) | Err(error: E) {
    predicate IsFailure() { Err? }

    function PropagateFailure<U>(): Result<U, E>
      requires Err?
    {
      Err(error)
    }

    function Extract(): T
      requires Ok?
    {
      value
    }
  }

  /** A UUID, ordered as the 128-bit number it is. */
  type Uuid = nat

  const I64_MAX: int := 0x7FFF_FFFF_FFFF_FFFF
  const I64_MIN: int := -0x8000_0000_0000_0000
  const U64_MAX: int := 0xFFFF_FFFF_FFFF_FFFF
  const U128_MAX: int := 0xFFFF_FFFF_FFFF_FFFF_FFFF_FFFF_FFFF_FFFF
  const I128_MAX: int := 0x7FFF_FFFF_FFFF_FFFF_FFFF_FFFF_FFFF_FFFF
  const I128_MIN: int := -0x8000_0000_0000_0000_0000_0000_0000_0000

  type I64 = x: int | I64_MIN <= x <= I64_MAX
  type U64 = x: int | 0 <= x <= U64_MAX

  predicate FitsI64(x: int) { I64_MIN <= x <= I64_MAX }

  predicate FitsI128(x: int) { I128_MIN <= x <= I128_MAX }

  function Min(a: int, b: int): int { if a <= b then a else b }

  function Max(a: int, b: int): int { if a <= b then b else a }

  function Abs(a: int): int { if a < 0 then -a else a }

  /** `u64::saturating_add(1)`. */
  function SaturatingNext(x: U64): U64 { if x == U64_MAX then U64_MAX else x + 1 }

  /** The nearest value of a signed range, as the `saturating_` operations return it. */
  function Clamp(x: int, low: int, high: int): int
  {
    if x < low then low else if high < x then high else x
  }
}
