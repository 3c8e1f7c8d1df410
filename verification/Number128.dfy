/**
 `Number128`: signed fixed-point numbers, 128 bits wide, in units of 10^-10.

 A number is its raw integer. Overflow panics, and division truncates toward zero.
 */
module Number128 {
  import opened Outcomes
  import opened Rounding
  import FixedPoint

  const ONE: int := 10_000_000_000
  const I128_MAX: int := 0x7FFF_FFFF_FFFF_FFFF_FFFF_FFFF_FFFF_FFFF
  const U64_MAX: int := FixedPoint.U64_MAX

  function Checked(x: int): Result<int> {
    if -I128_MAX - 1 <= x <= I128_MAX then Ok(x) else Err(Panic)
  }

  function Quotient(a: int, b: int): int
    requires b != 0
  {
    if 0 <= a then (if 0 < b then a / b else -(a / -b))
    else (if 0 < b then -(-a / b) else -a / -b)
  }

  function Add(a: int, b: int): Result<int> {
    Checked(a + b)
  }

  function Sub(a: int, b: int): Result<int> {
    Checked(a - b)
  }

  function Mul(a: int, b: int): Result<int> {
    var product :- Checked(a * b);
    Ok(Quotient(product, ONE))
  }

  function Div(a: int, b: int): Result<int> {
    if b == 0 then Err(Panic) else
    var scaled :- Checked(a * ONE);
    Checked(Quotient(scaled, b))
  }

  function PowerOfTen(k: nat): (p: nat)
    ensures 1 <= p
  {
    if k == 0 then 1 else 10 * PowerOfTen(k - 1)
  }

  /** The table of powers ends at 10^27; looking up a higher one panics. */
  function TenTo(k: nat): Result<nat> {
    if k <= 27 then Ok(PowerOfTen(k)) else Err(Panic)
  }

  function FromDecimal(value: int, exponent: int): Result<int> {
    var extra := 10 + exponent;
    if extra < 0 then
      var p :- TenTo(-extra);
      Ok(Quotient(value, p))
    else
      var p :- TenTo(extra);
      Checked(value * p)
  }

  function FromBps(basisPoints: int): int {
    basisPoints * 1_000_000
  }

  function AsU64(x: int, exponent: int): Result<nat> {
    var extra := 10 + exponent;
    if extra < 0 then
      var p :- TenTo(-extra);
      var target :- Checked(x * p);
      InU64(target)
    else
      var p :- TenTo(extra);
      InU64(Quotient(x, p))
  }

  function InU64(x: int): Result<nat> {
    if 0 <= x <= U64_MAX then Ok(x) else Err(Panic)
  }

  /** Division truncates toward zero: the remainder is smaller than the divisor and has the sign of the dividend. */
  lemma QuotientTruncates(a: int, b: int)
    requires b != 0
    ensures var rest := a - Quotient(a, b) * b;
            if 0 <= a then 0 <= rest && (rest < b || rest < -b) else rest <= 0 && (-b < rest || b < rest)
  {
    var x, y := if 0 <= a then a else -a, if 0 <= b then b else -b;
    DivBounds(x, y);
    assert -(x / y) * b == (x / y) * -b;
  }

  /** A whole number of tokens survives the way into a number and back, less what does not fit ten decimals. */
  lemma DecimalRoundTrip(n: nat, exponent: int, x: nat)
    requires FromDecimal(n, exponent) == Ok(x) && AsU64(x, exponent).Ok?
    ensures AsU64(x, exponent).value <= n
    ensures -10 <= exponent ==> AsU64(x, exponent).value == n
  {
    var extra := 10 + exponent;
    if 0 <= extra {
      DivIs(n * PowerOfTen(extra), PowerOfTen(extra), n);
    } else {
      DivBounds(n, PowerOfTen(-extra));
    }
  }
}
