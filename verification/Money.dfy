/** Exact money: minor units in an `i64`, and the one primitive that scales them. */
module Money {
  import opened Base

  datatype Currency = Bdt | Sar | Aed | Usd

  datatype MoneyError =
    | Overflow
    | DivisionByZero
    | CurrencyMismatch(left: Currency, right: Currency)
    | InvalidWeights

  datatype Amount = Amount(minor: I64, currency: Currency)

  datatype Rounding = HalfUp | HalfEven | TowardZero

  function CheckedI64(x: int): Result<I64, MoneyError>
  {
    if FitsI64(x) then Ok(x) else Err(Overflow)
  }

  function CheckedAdd(a: Amount, b: Amount): Result<Amount, MoneyError>
  {
    if a.currency != b.currency then Err(CurrencyMismatch(a.currency, b.currency))
    else
      var minor :- CheckedI64(a.minor + b.minor);
      Ok(Amount(minor, a.currency))
  }

  // ---------- division ----------

  /** Division as the machine does it: toward zero. */
  function TruncDiv(n: int, d: int): int
    requires d != 0
  {
    if (n < 0) == (d < 0) then Abs(n) / Abs(d) else -(Abs(n) / Abs(d))
  }

  /** The remainder takes the numerator's sign. */
  function TruncRem(n: int, d: int): int
    requires d != 0
  {
    if n < 0 then -(Abs(n) % Abs(d)) else Abs(n) % Abs(d)
  }

  /** `divide_rounded` over `i128`, with every checked step in its place. */
  function DivideRounded(n: int, d: int, mode: Rounding): Result<int, MoneyError>
    requires FitsI128(n) && FitsI128(d)
  {
    if d == 0 then Err(DivisionByZero)
    else Resolve(TruncDiv(n, d), TruncRem(n, d), AwayFromZero(n, d), Abs(d), mode)
  }

  /** The direction that moves a quotient away from zero. */
  function AwayFromZero(n: int, d: int): int
  {
    if (n < 0) == (d < 0) then 1 else -1
  }

  /** Settle a discarded remainder: keep the quotient, or move it one `step` away from zero. */
  function Resolve(quotient: int, remainder: int, step: int, magnitude: int, mode: Rounding): Result<int, MoneyError>
  {
    if !FitsI128(quotient) then Err(Overflow)
    else if remainder == 0 then Ok(quotient)
    else if 2 * Abs(remainder) > I128_MAX || magnitude > I128_MAX then Err(Overflow)
    else if RoundsAway(quotient, 2 * Abs(remainder), magnitude, mode) then
      if FitsI128(quotient + step) then Ok(quotient + step) else Err(Overflow)
    else Ok(quotient)
  }

  predicate RoundsAway(quotient: int, twiceRemainder: int, magnitude: int, mode: Rounding)
  {
    match mode
    case TowardZero => false
    case HalfUp => twiceRemainder >= magnitude
    case HalfEven =>
      twiceRemainder > magnitude || (twiceRemainder == magnitude && quotient % 2 != 0)
  }

  /** What each mode promises of `q` as the rounding of `n / d`, without saying how it is found. */
  ghost predicate IsRounding(n: int, d: int, mode: Rounding, q: int)
    requires d != 0
  {
    match mode
    case HalfUp => 2 * Abs(n - q * d) <= Abs(d) && (2 * Abs(n - q * d) == Abs(d) ==> Abs(q * d) > Abs(n))
    case HalfEven => 2 * Abs(n - q * d) <= Abs(d) && (2 * Abs(n - q * d) == Abs(d) ==> q % 2 == 0)
    case TowardZero => Abs(n - q * d) < Abs(d) && Abs(q * d) <= Abs(n)
  }

  lemma TruncParts(n: int, d: int)
    requires d != 0
    ensures n == TruncDiv(n, d) * d + TruncRem(n, d)
    ensures Abs(TruncRem(n, d)) < Abs(d)
    ensures Abs(TruncDiv(n, d) * d) == Abs(n) - Abs(TruncRem(n, d))
  {
    Split(Abs(n), Abs(d));
    SignedParts(n, d, Abs(n) / Abs(d), Abs(n) % Abs(d));
  }

  lemma SignedParts(n: int, d: int, q: int, r: int)
    requires d != 0 && q >= 0 && Abs(n) == Abs(d) * q + r && 0 <= r < Abs(d)
    ensures var signed := if (n < 0) == (d < 0) then q else -q;
            n == signed * d + (if n < 0 then -r else r) && Abs(signed * d) == Abs(n) - r
  {
    assert (-q) * d == -(q * d);
    assert Abs(d) * q == if d < 0 then -(q * d) else q * d;
    Nonneg(Abs(d), q);
  }

  /** How far the truncated quotient and its neighbour away from zero are from the true ratio. */
  lemma CandidateDistances(n: int, d: int)
    requires d != 0
    ensures var q, r := TruncDiv(n, d), TruncRem(n, d);
            var up := q + AwayFromZero(n, d);
            && Abs(n - q * d) == Abs(r) < Abs(d)
            && Abs(q * d) == Abs(n) - Abs(r)
            && Abs(n - up * d) == Abs(d) - Abs(r)
            && Abs(up * d) == Abs(n) - Abs(r) + Abs(d)
  {
    TruncParts(n, d);
    SameSide(n, d);
    var q := TruncDiv(n, d);
    var step := AwayFromZero(n, d);
    assert (q + step) * d == q * d + step * d;
    assert step * d == if n < 0 then -Abs(d) else Abs(d);
  }

  /** Where it answers, it answers with the rounding the mode promises. */
  lemma DivideRoundedIsRounding(n: int, d: int, mode: Rounding)
    requires FitsI128(n) && FitsI128(d)
    requires DivideRounded(n, d, mode).Ok?
    ensures IsRounding(n, d, mode, DivideRounded(n, d, mode).value)
  {
    CandidateDistances(n, d);
    assert (TruncDiv(n, d) + 1) % 2 != TruncDiv(n, d) % 2 && (TruncDiv(n, d) - 1) % 2 != TruncDiv(n, d) % 2;
  }

  lemma SameSide(n: int, d: int)
    requires d != 0
    ensures TruncDiv(n, d) * d == if n < 0 then -(Abs(n) - Abs(TruncRem(n, d))) else Abs(n) - Abs(TruncRem(n, d))
  {
    TruncParts(n, d);
  }

  /** There is only one number a mode can promise. */
  lemma RoundingIsUnique(n: int, d: int, mode: Rounding, p: int, q: int)
    requires d != 0
    requires IsRounding(n, d, mode, p) && IsRounding(n, d, mode, q)
    ensures p == q
  {
    NoSmallerRounding(n, d, mode, p, q);
    NoSmallerRounding(n, d, mode, q, p);
  }

  lemma NoSmallerRounding(n: int, d: int, mode: Rounding, p: int, q: int)
    requires d != 0
    requires IsRounding(n, d, mode, p) && IsRounding(n, d, mode, q)
    ensures p >= q
  {
    if p < q {
      StepsApart(d, p, q);
      if mode.TowardZero? {
        SmallerSide(n, d, p);
        SmallerSide(n, d, q);
      }
    }
  }

  /** Different multiples of `d` are at least `d` apart, and only neighbours are no further. */
  lemma StepsApart(d: int, p: int, q: int)
    requires p < q
    ensures Abs(q * d - p * d) >= Abs(d)
    ensures q - p >= 2 ==> Abs(q * d - p * d) >= 2 * Abs(d)
  {
    var gap := q - p;
    assert q * d - p * d == gap * d;
    AbsOfProduct(gap, d);
    assert gap * Abs(d) == Abs(d) + (gap - 1) * Abs(d);
    Nonneg(gap - 1, Abs(d));
    if gap >= 2 {
      assert gap * Abs(d) == 2 * Abs(d) + (gap - 2) * Abs(d);
      Nonneg(gap - 2, Abs(d));
    }
  }

  lemma SmallerSide(n: int, d: int, q: int)
    requires d != 0 && Abs(n - q * d) < Abs(d) && Abs(q * d) <= Abs(n)
    ensures n >= 0 ==> 0 <= q * d <= n
    ensures n <= 0 ==> n <= q * d <= 0
  {
    // A multiple of `d` on the other side of zero would already be at least `d` away.
    if q > 0 { assert Abs(q * d) >= Abs(d) by { MultipleIsLarge(q, d); } }
    if q < 0 { assert Abs(q * d) >= Abs(d) by { MultipleIsLarge(-q, d); assert (-q) * d == -(q * d); } }
  }

  lemma MultipleIsLarge(k: int, d: int)
    requires k > 0
    ensures Abs(k * d) >= Abs(d)
  {
    if d > 0 { assert k * d >= d; } else { assert k * d <= d; }
  }

  lemma NatQuotient(a: nat, b: nat)
    requires b > 0
    ensures a / b <= a && a % b < b && (b >= 2 ==> 2 * (a / b) <= a)
  {
    var q, r := a / b, a % b;
    Split(a, b);
    assert b * q == q + (b - 1) * q;
    Nonneg(b - 1, q);
    if b >= 2 {
      assert b * q == 2 * q + (b - 2) * q;
      Nonneg(b - 2, q);
    }
  }

  lemma Split(a: nat, b: nat)
    requires b > 0
    ensures a == b * (a / b) + a % b && 0 <= a % b < b && 0 <= a / b
  {
  }

  lemma Nonneg(x: int, y: int)
    requires x >= 0 && y >= 0
    ensures x * y >= 0
  {
  }

  lemma QuotientBounds(n: int, d: int)
    requires d != 0
    ensures Abs(TruncRem(n, d)) < Abs(d)
    ensures Abs(TruncDiv(n, d)) <= Abs(n)
    ensures TruncRem(n, d) != 0 ==> Abs(d) >= 2 && 2 * Abs(TruncDiv(n, d)) <= Abs(n)
  {
    NatQuotient(Abs(n), Abs(d));
  }

  /** It refuses only a zero divisor and the corners of the range. */
  lemma DivideRoundedTotal(n: int, d: int, mode: Rounding)
    requires -0x4000_0000_0000_0000_0000_0000_0000_0000 <= n <= 0x4000_0000_0000_0000_0000_0000_0000_0000
    requires FitsI64(d) && d != 0
    ensures DivideRounded(n, d, mode).Ok?
  {
    QuotientBounds(n, d);
  }

  /** Rounding does not favour either side: the mirrored amount rounds to the mirrored result. */
  lemma RoundingIsMirrored(n: int, d: int, mode: Rounding)
    requires I128_MIN < n <= I128_MAX && FitsI128(d)
    ensures DivideRounded(-n, d, mode) ==
            match DivideRounded(n, d, mode) { case Ok(q) => Ok(-q) case Err(e) => Err(e) }
  {
    if n == 0 {
      NothingDivides(d, mode);
    } else if d != 0 {
      TruncMirrored(n, d);
      QuotientBounds(n, d);
      ResolveMirrored(TruncDiv(n, d), TruncRem(n, d), AwayFromZero(n, d),
                      TruncDiv(-n, d), TruncRem(-n, d), AwayFromZero(-n, d), Abs(d), mode);
    }
  }

  lemma NothingDivides(d: int, mode: Rounding)
    requires FitsI128(d)
    ensures DivideRounded(0, d, mode) == if d == 0 then Err(DivisionByZero) else Ok(0)
  {
    if d != 0 {
      QuotientBounds(0, d);
    }
  }

  lemma ResolveMirrored(q: int, r: int, step: int, q': int, r': int, step': int, magnitude: int, mode: Rounding)
    requires Abs(step) == 1 && Abs(q) <= I128_MAX && (r != 0 ==> 2 * Abs(q) <= I128_MAX)
    requires q' == -q && r' == -r && step' == -step
    ensures Resolve(q', r', step', magnitude, mode) ==
            match Resolve(q, r, step, magnitude, mode) { case Ok(p) => Ok(-p) case Err(e) => Err(e) }
  {
    HalfEvenMirrors(q);
  }

  lemma TruncMirrored(n: int, d: int)
    requires n != 0 && d != 0
    ensures TruncDiv(-n, d) == -TruncDiv(n, d) && TruncRem(-n, d) == -TruncRem(n, d)
    ensures AwayFromZero(-n, d) == -AwayFromZero(n, d)
  {
    assert Abs(-n) == Abs(n);
  }

  lemma HalfEvenMirrors(q: int)
    ensures (-q) % 2 == q % 2
  {
  }

  // ---------- scaling ----------

  /** `mul_ratio`: this amount times `numerator / denominator`, with a 128-bit product in between. */
  function MulRatio(a: Amount, numerator: I64, denominator: I64, mode: Rounding): Result<Amount, MoneyError>
  {
    var product := a.minor * numerator;
    if !FitsI128(product) then Err(Overflow)
    else
      var scaled :- DivideRounded(product, denominator, mode);
      var minor :- CheckedI64(scaled);
      Ok(Amount(minor, a.currency))
  }

  lemma ProductFits(x: I64, y: I64)
    ensures Abs(x * y) <= 0x4000_0000_0000_0000_0000_0000_0000_0000
  {
    AbsOfProduct(x, y);
    ProductBound(Abs(x), Abs(y), 0x8000_0000_0000_0000, 0x8000_0000_0000_0000);
  }

  lemma AbsOfProduct(x: int, y: int)
    ensures Abs(x * y) == Abs(x) * Abs(y)
  {
    if x < 0 { assert x * y == -((-x) * y); }
    if y < 0 { assert Abs(x) * y == -(Abs(x) * (-y)); }
    Nonneg(Abs(x), Abs(y));
  }

  lemma ProductBound(a: nat, b: nat, highA: nat, highB: nat)
    requires a <= highA && b <= highB
    ensures a * b <= highA * highB
  {
    assert highA * highB == a * b + (highA - a) * highB + a * (highB - b);
    Nonneg(highA - a, highB);
    Nonneg(a, highB - b);
  }

  /** Every product has a rounding. */
  lemma RoundingExists(n: int, d: I64, mode: Rounding) returns (q: int)
    requires Abs(n) <= 0x4000_0000_0000_0000_0000_0000_0000_0000 && d != 0
    ensures IsRounding(n, d, mode, q)
  {
    DivideRoundedTotal(n, d, mode);
    DivideRoundedIsRounding(n, d, mode);
    q := DivideRounded(n, d, mode).value;
  }

  lemma MulRatioOf(a: Amount, numerator: I64, denominator: I64, mode: Rounding, q: int)
    requires denominator != 0 && IsRounding(a.minor * numerator, denominator, mode, q)
    ensures MulRatio(a, numerator, denominator, mode)
         == if FitsI64(q) then Ok(Amount(q, a.currency)) else Err(Overflow)
  {
    var product := a.minor * numerator;
    ProductFits(a.minor, numerator);
    DivideRoundedTotal(product, denominator, mode);
    DivideRoundedIsRounding(product, denominator, mode);
    RoundingIsUnique(product, denominator, mode, q, DivideRounded(product, denominator, mode).value);
  }

  /**
   Scaling is exact and refuses only what it must. The 128-bit intermediate never overflows; a zero
   denominator is refused as such, and nothing else is; otherwise the true product has a rounding `q` in
   the promised direction, which is the answer where it fits 64 bits and an overflow exactly where not.
   */
  lemma MulRatioExact(a: Amount, numerator: I64, denominator: I64, mode: Rounding) returns (q: int)
    ensures MulRatio(a, numerator, denominator, mode) == Err(DivisionByZero) <==> denominator == 0
    ensures denominator != 0 ==>
              && IsRounding(a.minor * numerator, denominator, mode, q)
              && MulRatio(a, numerator, denominator, mode)
                 == if FitsI64(q) then Ok(Amount(q, a.currency)) else Err(Overflow)
  {
    ProductFits(a.minor, numerator);
    q := 0;
    if denominator != 0 {
      q := RoundingExists(a.minor * numerator, denominator, mode);
      MulRatioOf(a, numerator, denominator, mode, q);
    }
  }

  lemma MulRatioIsRounding(a: Amount, numerator: I64, denominator: I64, mode: Rounding)
    requires MulRatio(a, numerator, denominator, mode).Ok?
    ensures denominator != 0
    ensures var scaled := MulRatio(a, numerator, denominator, mode).value;
            scaled.currency == a.currency && IsRounding(a.minor * numerator, denominator, mode, scaled.minor)
  {
    DivideRoundedIsRounding(a.minor * numerator, denominator, mode);
  }
}
