/**
 * Conversion between wei (integer base units) and ether (decimal amounts).
 *
 * Decimals are modelled as the arbitrary-precision decimal library represents
 * them: an integer coefficient and a base-ten exponent, value = coef * 10^exp.
 * Division rounds to a fixed number of fractional digits that is a package-wide
 * setting of that library; it is the parameter `precision` here.
 */
module Conversion {
  import opened Errors

  /** 10^n. */
  function Pow10(n: nat): (r: nat)
    ensures r >= 1
  {
    if n == 0 then 1 else 10 * Pow10(n - 1)
  }

  lemma {:induction false} Pow10Add(a: nat, b: nat)
    ensures Pow10(a + b) == Pow10(a) * Pow10(b)
  {
    if a > 0 {
      Pow10Add(a - 1, b);
      assert Pow10(a + b) == 10 * Pow10(a - 1 + b);
    }
  }

  lemma {:induction false} Pow10Monotone(a: nat, b: nat)
    requires a <= b
    ensures Pow10(a) <= Pow10(b)
  {
    if a < b { Pow10Monotone(a, b - 1); }
  }

  /** Wei per ether. */
  const EthPrecision: nat := 1_000_000_000_000_000_000

  /** The scale is exactly 10^18. */
  lemma EthPrecisionIsPow10()
    ensures EthPrecision == Pow10(18)
  {
    calc {
      Pow10(18);
      10 * Pow10(17);
      100 * Pow10(16);
      1_000 * Pow10(15);
      10_000 * Pow10(14);
      100_000 * Pow10(13);
      1_000_000 * Pow10(12);
      10_000_000 * Pow10(11);
      100_000_000 * Pow10(10);
      1_000_000_000 * Pow10(9);
      10_000_000_000 * Pow10(8);
      100_000_000_000 * Pow10(7);
      1_000_000_000_000 * Pow10(6);
      10_000_000_000_000 * Pow10(5);
      100_000_000_000_000 * Pow10(4);
      1_000_000_000_000_000 * Pow10(3);
      10_000_000_000_000_000 * Pow10(2);
      100_000_000_000_000_000 * Pow10(1);
      1_000_000_000_000_000_000 * Pow10(0);
    }
  }

  datatype Decimal = Decimal(coef: int, exp: int)

  /** Multiplication is exact: coefficients multiply, exponents add. */
  function Mul(a: Decimal, b: Decimal): Decimal
  {
    Decimal(a.coef * b.coef, a.exp + b.exp)
  }

  /** Integer division that truncates toward zero, as big-integer `Quo` does. */
  function TruncDiv(n: int, m: nat): (q: int)
    requires m > 0
    ensures n >= 0 ==> q >= 0
    ensures n <= 0 ==> q <= 0
  {
    if n >= 0 then n / m else -((-n) / m)
  }

  lemma TruncDivExact(n: int, m: nat)
    requires m > 0 && n % m == 0
    ensures TruncDiv(n, m) * m == n
  {
    if n < 0 {
      assert n == (n / m) * m;
      assert -n == (-(n / m)) * m;
      DivOfMultiple(-(n / m), m);
    }
  }

  lemma DivOfMultiple(t: int, m: nat)
    requires m > 0
    ensures (t * m) / m == t && (t * m) % m == 0
  {
    DivModUnique(t * m, m, t, 0);
  }

  /** Quotient and remainder are determined by n == q * m + r with 0 <= r < m. */
  lemma DivModUnique(n: int, m: nat, q: int, r: int)
    requires m > 0 && n == q * m + r && 0 <= r < m
    ensures n / m == q && n % m == r
  {
    var q0, r0 := n / m, n % m;
    assert (q - q0) * m == r0 - r;
    if q - q0 >= 1 { MulAtLeast(q - q0, m); }
    if q0 - q >= 1 { MulAtLeast(q0 - q, m); }
  }

  lemma MulAtLeast(k: int, m: nat)
    requires k >= 1
    ensures k * m >= m
  {
    assert k * m == (k - 1) * m + m;
    assert (k - 1) * m >= 0;
  }

  /** The decimal has no fractional part (its printed form equals that of its floor). */
  predicate IsInteger(d: Decimal)
  {
    d.exp >= 0 || d.coef % Pow10(-d.exp) == 0
  }

  /** Conversion to a big integer, truncating any fractional digits. */
  function ToBigInt(d: Decimal): int
  {
    if d.exp >= 0 then d.coef * Pow10(d.exp) else TruncDiv(d.coef, Pow10(-d.exp))
  }

  const NonIntegerWei: Error := Opaque("wei conversion resulted in non-integer value")

  /**
   * Ether amount to wei: multiply by 10^18 and refuse a result with a fractional
   * part. It fails exactly when the amount has more than 18 fractional digits
   * that are not all zero.
   */
  function ToWei(amount: Decimal): (r: Result<int>)
    ensures r.Err? <==> amount.exp < -18 && amount.coef % Pow10(-amount.exp - 18) != 0
    ensures r.Err? ==> r.error == NonIntegerWei
  {
    EthPrecisionIsPow10();
    ScaledWhole(amount.coef, Abs(amount.exp));
    var wei := Mul(amount, Decimal(EthPrecision, 0));
    if !IsInteger(wei) then Err(NonIntegerWei) else Ok(ToBigInt(wei))
  }

  /**
   * The truncated quotient and the remainder of `a / b` at `precision`
   * fractional digits, following the library's `QuoRem`.
   */
  function QuoRem(a: Decimal, b: Decimal, precision: nat): (qr: (Decimal, Decimal))
    requires b.coef != 0
  {
    var e := a.exp - b.exp + precision;
    if e < 0 then
      NonZeroScaled(b.coef, -e);
      ScaledQuoRem(a.coef, b.coef * Pow10(-e), a.exp, precision)
    else
      ScaledQuoRem(a.coef * Pow10(e), b.coef, b.exp - precision, precision)
  }

  /** `num / den` truncated, as a coefficient at `precision` digits, with the remainder at `restExp`. */
  function ScaledQuoRem(num: int, den: int, restExp: int, precision: nat): (Decimal, Decimal)
    requires den != 0
  {
    var q := if den < 0 then -TruncDiv(num, -den) else TruncDiv(num, den);
    (Decimal(q, -(precision as int)), Decimal(num - q * den, restExp))
  }

  lemma NonZeroScaled(c: int, k: nat)
    requires c != 0
    ensures c * Pow10(k) != 0
  {
    if c > 0 { MulAtLeast(c, Pow10(k)); } else { MulAtLeast(-c, Pow10(k)); }
  }

  function Abs(n: int): nat { if n < 0 then -n else n }

  /** The product of the signs of x and y is negative. */
  predicate OppositeSigns(x: int, y: int) { (x < 0 && y > 0) || (x > 0 && y < 0) }

  /** Comparison of the values of two decimals. */
  function Cmp(a: Decimal, b: Decimal): int
  {
    var e := if a.exp < b.exp then a.exp else b.exp;
    var x := a.coef * Pow10(a.exp - e);
    var y := b.coef * Pow10(b.exp - e);
    if x < y then -1 else if x == y then 0 else 1
  }

  /** Division rounded to `precision` fractional digits, halves away from zero (the library's `DivRound`). */
  function DivRound(a: Decimal, b: Decimal, precision: nat): Decimal
    requires b.coef != 0
  {
    var (q, r) := QuoRem(a, b, precision);
    var twiceRest := Decimal(2 * Abs(r.coef), r.exp + precision);
    if Cmp(twiceRest, Decimal(Abs(b.coef), b.exp)) < 0 then q
    else if OppositeSigns(a.coef, b.coef) then Decimal(q.coef - 1, q.exp)
    else Decimal(q.coef + 1, q.exp)
  }


  // ---------------------------------------------------------------------------
  // Properties of ToWei

  /** A successful ToWei yields exactly amount * 10^18. */
  lemma ToWeiExact(amount: Decimal, w: int)
    requires ToWei(amount) == Ok(w)
    ensures amount.exp >= 0 ==> w == amount.coef * Pow10(amount.exp) * EthPrecision
    ensures amount.exp < 0 ==> w * Pow10(-amount.exp) == amount.coef * EthPrecision
  {
    if amount.exp < 0 {
      TruncDivExact(amount.coef * EthPrecision, Pow10(-amount.exp));
    }
  }

  /** c * 10^18 is a multiple of 10^k exactly when k <= 18 or c is a multiple of 10^(k-18). */
  lemma ScaledWhole(c: int, k: nat)
    ensures (c * Pow10(18)) % Pow10(k) == 0 <==> k <= 18 || c % Pow10(k - 18) == 0
  {
    if k <= 18 {
      Pow10Add(18 - k, k);
      MulAssoc(c, Pow10(18 - k), Pow10(k));
      MultipleMod(c * Pow10(18 - k), Pow10(k));
    } else {
      Pow10Add(18, k - 18);
      ScaledDivisible(c, Pow10(18), Pow10(k - 18));
    }
  }

  lemma MultipleMod(t: int, m: nat)
    requires m > 0
    ensures (t * m) % m == 0
  {
    DivOfMultiple(t, m);
  }

  /** c * m is a multiple of m * q exactly when c is a multiple of q. */
  lemma ScaledDivisible(c: int, m: nat, q: nat)
    requires m > 0 && q > 0
    ensures (c * m) % (m * q) == 0 <==> c % q == 0
  {
    var s := (c * m) / (m * q);
    var t := c / q;
    if (c * m) % (m * q) == 0 {
      assert c * m == (m * q) * s;
      assert m * (c - q * s) == 0;
      assert c == q * s;
      MultipleMod(s, q);
    }
    if c % q == 0 {
      assert c == q * t;
      assert c * m == (m * q) * t;
      MultipleMod(t, m * q);
    }
  }

  /** ToWei checks nothing about sign: zero stays zero and negative amounts give negative wei. */
  lemma ToWeiKeepsSign(amount: Decimal, w: int)
    requires ToWei(amount) == Ok(w)
    ensures w == 0 <==> amount.coef == 0
    ensures w < 0 <==> amount.coef < 0
  {
    ToWeiExact(amount, w);
    if amount.exp < 0 {
      var p := Pow10(-amount.exp);
      if w > 0 { assert w * p > 0; }
      if w < 0 { assert w * p < 0; }
    } else {
      var p := Pow10(amount.exp);
      assert w == (amount.coef * EthPrecision) * p;
      if amount.coef > 0 { assert amount.coef * EthPrecision > 0; }
      if amount.coef < 0 { assert amount.coef * EthPrecision < 0; }
    }
  }

  // ---------------------------------------------------------------------------
  // Properties of WeiToEther

  /**
   * n / 10^18 rounded to a whole number, halves away from zero; `negative` is
   * the sign of the dividend the library tests.
   */
  function RoundedQuotient(n: int, negative: bool): int
  {
    var q := TruncDiv(n, EthPrecision);
    var rest := n - q * EthPrecision;
    if 2 * Abs(rest) < EthPrecision then q else if negative then q - 1 else q + 1
  }

  /**
   * Wei to ether: `wei / 10^18`, rounded to the library's division precision.
   * This is DivRound(wei, 10^18, precision) written out for a whole-number
   * dividend and divisor; WeiToEtherIsDivRound proves the two equal.
   * The result has `precision` fractional digits and lies within half a unit
   * of that digit of wei / 10^18.
   */
  function WeiToEther(wei: int, precision: nat): (r: Decimal)
    ensures r.exp == -(precision as int)
    ensures 2 * Abs(r.coef * EthPrecision - wei * Pow10(precision)) <= EthPrecision
  {
    ScaledSign(wei, Pow10(precision));
    RoundingError(wei * Pow10(precision), wei < 0);
    Decimal(RoundedQuotient(wei * Pow10(precision), wei < 0), -(precision as int))
  }

  /** WeiToEther is the library's division of wei by 10^18 at the given precision. */
  lemma WeiToEtherIsDivRound(wei: int, precision: nat)
    ensures WeiToEther(wei, precision) == DivRound(Decimal(wei, 0), Decimal(EthPrecision, 0), precision)
  {
    var n := wei * Pow10(precision);
    var q := TruncDiv(n, EthPrecision);
    var a, b := Decimal(wei, 0), Decimal(EthPrecision, 0);
    QuoRemOfWhole(wei, EthPrecision, precision);
    ScaledQuoRemPositive(n, EthPrecision, -(precision as int), precision);
    var r := QuoRem(a, b, precision).1;
    assert r == Decimal(n - q * EthPrecision, -(precision as int));
    CmpSameExp(2 * Abs(r.coef), EthPrecision, 0);
    assert OppositeSigns(a.coef, b.coef) <==> wei < 0;
  }

  /** Dividing two whole numbers: the numerator is scaled by 10^precision. */
  lemma QuoRemOfWhole(x: int, y: int, precision: nat)
    requires y != 0
    ensures QuoRem(Decimal(x, 0), Decimal(y, 0), precision)
      == ScaledQuoRem(x * Pow10(precision), y, -(precision as int), precision)
  {
  }

  /** With a positive divisor the quotient is the truncating one. */
  lemma ScaledQuoRemPositive(num: int, den: nat, restExp: int, precision: nat)
    requires den > 0
    ensures ScaledQuoRem(num, den, restExp, precision)
      == (Decimal(TruncDiv(num, den), -(precision as int)), Decimal(num - TruncDiv(num, den) * den, restExp))
  {
  }

  lemma CmpSameExp(x: int, y: int, e: int)
    ensures Cmp(Decimal(x, e), Decimal(y, e)) < 0 <==> x < y
  {
    assert Pow10(0) == 1;
  }

  /** Rounding the truncated quotient half away from zero errs by at most half a unit. */
  lemma RoundingError(n: int, negative: bool)
    requires negative <==> n < 0
    ensures 2 * Abs(RoundedQuotient(n, negative) * EthPrecision - n) <= EthPrecision
  {
    TruncDivRest(n, EthPrecision);
  }

  /** Scaling by a positive factor keeps the sign. */
  lemma ScaledSign(a: int, m: nat)
    requires m > 0
    ensures a < 0 <==> a * m < 0
    ensures a == 0 <==> a * m == 0
  {
    if a < 0 { assert a * m == -((-a) * m); MulAtLeast(-a, m); }
    if a > 0 { MulAtLeast(a, m); }
  }

  /** The remainder of a truncating division has the dividend's sign and is smaller than the divisor. */
  lemma TruncDivRest(n: int, m: nat)
    requires m > 0
    ensures var rest := n - TruncDiv(n, m) * m;
      Abs(rest) < m && (n >= 0 ==> rest >= 0) && (n <= 0 ==> rest <= 0)
      && (rest == 0 <==> n % m == 0)
  {
    if n >= 0 {
      assert TruncDiv(n, m) == n / m;
      assert n - (n / m) * m == n % m;
    } else {
      var k := -n;
      var q, r := k / m, k % m;
      assert k == q * m + r && 0 <= r < m;
      assert TruncDiv(n, m) == -q;
      assert n - (-q) * m == -r;
      assert r == 0 <==> n % m == 0 by {
        if r == 0 {
          assert n == (-q) * m;
          MultipleMod(-q, m);
        }
        if n % m == 0 {
          assert k == (-(n / m)) * m;
          MultipleMod(-(n / m), m);
        }
      }
    }
  }

  /** An exact quotient is not rounded. */
  lemma RoundedQuotientExact(n: int, negative: bool)
    requires n % EthPrecision == 0
    ensures RoundedQuotient(n, negative) * EthPrecision == n
  {
    TruncDivRest(n, EthPrecision);
    TruncDivExact(n, EthPrecision);
  }

  /** wei * 10^precision is a whole multiple of 10^18 when wei / 10^18 has at most `precision` decimals. */
  lemma ScaledWeiDivisible(wei: int, precision: nat)
    requires precision >= 18 || wei % Pow10(18 - precision) == 0
    ensures (wei * Pow10(precision)) % EthPrecision == 0
  {
    EthPrecisionIsPow10();
    ScaledWholeQuotient(wei, precision);
  }

  lemma ScaledWholeQuotient(wei: int, precision: nat)
    requires precision >= 18 || wei % Pow10(18 - precision) == 0
    ensures (wei * Pow10(precision)) % Pow10(18) == 0
  {
    if precision >= 18 {
      WholeTimesLargeScale(wei, precision);
    } else {
      DivisibleTimesSmallScale(wei, precision);
    }
  }

  lemma WholeTimesLargeScale(wei: int, precision: nat)
    requires precision >= 18
    ensures (wei * Pow10(precision)) % Pow10(18) == 0
  {
    var m := Pow10(precision - 18);
    Pow10Add(18, precision - 18);
    MulAssoc(wei, m, Pow10(18));
    MultipleMod(wei * m, Pow10(18));
  }

  lemma DivisibleTimesSmallScale(wei: int, precision: nat)
    requires precision < 18 && wei % Pow10(18 - precision) == 0
    ensures (wei * Pow10(precision)) % Pow10(18) == 0
  {
    var m := Pow10(18 - precision);
    var p := Pow10(precision);
    var t := wei / m;
    assert wei == t * m by { assert wei == t * m + wei % m; }
    Pow10Add(18 - precision, precision);
    assert m * p == Pow10(18);
    MulAssoc(t, m, p);
    assert wei * p == t * Pow10(18);
    MultipleMod(t, Pow10(18));
  }

  lemma MulAssoc(a: int, b: int, c: int)
    ensures (a * b) * c == a * (b * c) == a * (c * b)
  {
  }

  /**
   * WeiToEther is exact whenever wei / 10^18 has at most `precision` fractional
   * digits: always when precision >= 18, otherwise when 10^(18 - precision) divides wei.
   */
  lemma WeiToEtherExact(wei: int, precision: nat)
    requires precision >= 18 || wei % Pow10(18 - precision) == 0
    ensures WeiToEther(wei, precision).exp == -(precision as int)
    ensures WeiToEther(wei, precision).coef * EthPrecision == wei * Pow10(precision)
  {
    ScaledWeiDivisible(wei, precision);
    RoundedQuotientExact(wei * Pow10(precision), wei < 0);
  }

  /** A whole number of ether converts exactly at every precision: `ether` scaled to `precision` digits. */
  lemma WeiToEtherWholeEther(ether: int, precision: nat)
    ensures WeiToEther(ether * EthPrecision, precision) == Decimal(ether * Pow10(precision), -(precision as int))
  {
    var wei := ether * EthPrecision;
    var p := Pow10(precision);
    if precision < 18 {
      EthPrecisionIsPow10();
      var m := Pow10(18 - precision);
      Pow10Add(18 - precision, precision);
      assert m * p == EthPrecision;
      MulAssoc(ether, p, m);
      assert wei == (ether * p) * m;
      MultipleMod(ether * p, m);
    }
    WeiToEtherExact(wei, precision);
    MulAssoc(ether, EthPrecision, p);
    CancelFactor(WeiToEther(wei, precision).coef, ether * p, EthPrecision);
  }

  /** Round trip: converting to ether and back gives the same wei whenever the division was exact. */
  lemma RoundTrip(wei: int, precision: nat)
    requires precision >= 18 || wei % Pow10(18 - precision) == 0
    ensures ToWei(WeiToEther(wei, precision)) == Ok(wei)
  {
    WeiToEtherExact(wei, precision);
    var r := WeiToEther(wei, precision);
    var scaled := Mul(r, Decimal(EthPrecision, 0));
    assert scaled == Decimal(wei * Pow10(precision), -(precision as int));
    if precision > 0 {
      MultipleMod(wei, Pow10(precision));
      DivOfMultiple(wei, Pow10(precision));
      TruncDivExact(wei * Pow10(precision), Pow10(precision));
      assert TruncDiv(wei * Pow10(precision), Pow10(precision)) * Pow10(precision) == wei * Pow10(precision);
      CancelFactor(TruncDiv(wei * Pow10(precision), Pow10(precision)), wei, Pow10(precision));
    }
  }

  lemma CancelFactor(a: int, b: int, m: nat)
    requires m > 0 && a * m == b * m
    ensures a == b
  {
    assert (a - b) * m == 0;
  }

  /**
   * Below 18 digits of division precision the round trip loses wei: one wei
   * becomes zero ether and converts back to zero wei.
   */
  lemma RoundTripLossBelow18(precision: nat)
    requires precision < 18
    ensures WeiToEther(1, precision) == Decimal(0, -(precision as int))
    ensures ToWei(WeiToEther(1, precision)) == Ok(0)
  {
    Pow10Monotone(precision, 17);
    EthPrecisionIsPow10();
    assert Pow10(18) == 10 * Pow10(17);
    var n := 1 * Pow10(precision);
    DivModUnique(n, EthPrecision, 0, n);
    assert TruncDiv(n, EthPrecision) == 0;
    assert RoundedQuotient(n, false) == 0;
  }
}
