/**
 `Number`: unsigned fixed-point numbers, 192 bits wide, in units of 10^-15.

 A `Number` is represented by its raw integer. `U192` arithmetic panics when the result does not
 fit, and both the product and the quotient of two numbers truncate.
 */
module FixedPoint {
  import opened Outcomes
  import opened Rounding

  const ONE: nat := 1_000_000_000_000_000
  /** One basis point, as a `Number`. */
  const BPS: nat := 100_000_000_000
  const U64_MAX: nat := 0xFFFF_FFFF_FFFF_FFFF
  const U192_MAX: nat := 0xFFFF_FFFF_FFFF_FFFF_FFFF_FFFF_FFFF_FFFF_FFFF_FFFF_FFFF_FFFF

  function Checked(x: int): Result<nat> {
    if 0 <= x <= U192_MAX then Ok(x) else Err(Panic)
  }

  function Add(a: nat, b: nat): Result<nat> {
    Checked(a + b)
  }

  function Sub(a: nat, b: nat): Result<nat> {
    Checked(a - b)
  }

  function SaturatingSub(a: nat, b: nat): nat {
    if a < b then 0 else a - b
  }

  function Mul(a: nat, b: nat): Result<nat> {
    var product :- Checked(a * b);
    Ok(product / ONE)
  }

  function Div(a: nat, b: nat): Result<nat> {
    if b == 0 then Err(Panic) else
    var scaled :- Checked(a * ONE);
    DivNonNegative(scaled, b);
    Ok(scaled / b)
  }

  function FromInt(n: nat): Result<nat> {
    Checked(n * ONE)
  }

  function FromBps(basisPoints: nat): nat {
    basisPoints * BPS
  }

  /** The number in multiples of `unit`, rounded down. */
  function AsU64(x: nat, unit: nat): Result<nat>
    requires 0 < unit
  {
    DivNonNegative(x, unit);
    if x / unit <= U64_MAX then Ok(x / unit) else Err(Panic)
  }

  /** The whole part of the number, rounded up. */
  function AsU64Ceil(x: nat): Result<nat> {
    var padded :- Checked(ONE - 1 + x);
    if padded / ONE <= U64_MAX then Ok(padded / ONE) else Err(Panic)
  }

  /** Adding to and subtracting from a `u64`, as `checked_add` and `checked_sub` do. */
  function AddU64(a: nat, b: nat): Result<nat> {
    if a + b <= U64_MAX then Ok(a + b) else Err(Panic)
  }

  function SubU64(a: nat, b: nat, error: Error): Result<nat> {
    if b <= a then Ok(a - b) else Err(error)
  }
}
