/**
 Pool prices from the square-root price of Uniswap v4 (crates/chain/src/univ4.rs). The 48-bit shift is
 exact integer arithmetic; decimals are exact reals with the mantissa limit of 96 bits.
 */
module Price {
  import opened Wrappers
  import opened Text

  const TWO_48: nat := 0x1_0000_0000_0000
  const TWO_96: nat := 0x1_0000_0000_0000_0000_0000_0000
  const TWO_127: nat := 0x8000_0000_0000_0000_0000_0000_0000_0000
  const TWO_128: nat := 0x1_0000_0000_0000_0000_0000_0000_0000_0000

  type U128 = n: nat | n < TWO_128
  type U8 = n: nat | n < 256

  datatype ChainError = ExceedsSigned | ExceedsDecimal | Exponent(exp: int) | ZeroPrice

  /** An unsigned 128-bit number as a decimal: it must fit a signed one, and the 96-bit mantissa. */
  function ToDecimal(v: U128): Result<real, ChainError> {
    if v >= TWO_127 then Err(ExceedsSigned)
    else if v >= TWO_96 then Err(ExceedsDecimal)
    else Ok(v as real)
  }

  /** A decimal holds exactly the numbers below 2^96. */
  lemma ToDecimalExactly(v: U128)
    ensures ToDecimal(v).Ok? <==> v < 79_228_162_514_264_337_593_543_950_336
    ensures ToDecimal(v).Ok? ==> ToDecimal(v).value == v as real
    ensures ToDecimal(v) == Err(ExceedsSigned) <==> v >= 170_141_183_460_469_231_731_687_303_715_884_105_728
  {}

  function TenTo(exp: nat): (r: real)
    ensures r >= 1.0
  {
    if exp == 0 then 1.0 else 10.0 * TenTo(exp - 1)
  }

  function Noughts(n: nat): string {
    seq(n, i => '0')
  }

  /** Written out, the power is a one and as many noughts. */
  lemma {:induction false} TenToExactly(n: nat)
    ensures TenTo(n) == FromDecimal("1" + Noughts(n)) as real
  {
    var digits := "1" + Noughts(n);
    if n > 0 {
      TenToExactly(n - 1);
      assert digits[..n] == "1" + Noughts(n - 1) && digits[n] == '0';
    } else {
      assert digits == "1" && digits[..0] == "";
    }
  }

  function PowerOfTen(exp: int): Result<real, ChainError> {
    if 0 <= exp <= 28 then Ok(TenTo(exp)) else Err(Exponent(exp))
  }

  method Pow10(exp: int) returns (r: Result<real, ChainError>)
    ensures r == PowerOfTen(exp)
  {
    if !(0 <= exp <= 28) {
      return Err(Exponent(exp));
    }
    var power := 1.0;
    for i := 0 to exp
      invariant power == TenTo(i)
    {
      power := power * 10.0;
    }
    r := Ok(power);
  }

  function Square(x: real): real { x * x }

  function Times(x: real, y: real): real { x * y }

  function Over(x: real, d: real): real
    requires d != 0.0
  {
    x / d
  }

  /** The shifted ratio, an approximation of x / 2^96 from below. */
  function Ratio(x: U128): real {
    Over((x / TWO_48) as real, TWO_48 as real)
  }

  function Scaled(raw: real, scale: int): real
    requires -28 <= scale <= 28
  {
    if scale >= 0 then Times(raw, TenTo(scale)) else Over(raw, TenTo(-scale))
  }

  /** Currency 1 per currency 0 in whole tokens. */
  function PriceOf(x: U128, decimals0: U8, decimals1: U8): Result<real, ChainError> {
    var hi :- ToDecimal(x / TWO_48);
    var divisor :- ToDecimal(TWO_48);
    var raw := Square(Over(hi, TWO_48 as real));
    var scale := decimals0 - decimals1;
    var factor :- PowerOfTen(if scale >= 0 then scale else -scale);
    Ok(Scaled(raw, scale))
  }

  method PriceFromSqrtPriceX96(x: U128, decimals0: U8, decimals1: U8) returns (r: Result<real, ChainError>)
    ensures r == PriceOf(x, decimals0, decimals1)
  {
    hide Square, Times, Over, TenTo;
    var hi :- ToDecimal(x / TWO_48);
    var divisor := ToDecimal(TWO_48).value;
    var ratio := Over(hi, divisor);
    var raw := Square(ratio);
    var scale := decimals0 - decimals1;
    if scale >= 0 {
      var factor :- Pow10(scale);
      r := Ok(Times(raw, factor));
    } else {
      var factor :- Pow10(-scale);
      r := Ok(Over(raw, factor));
    }
  }

  // ---- the truncation ----

  /** What the shift drops: less than one 2^48-th, and nothing negative. */
  lemma ShiftDrops(x: U128)
    ensures var exact := Over(x as real, TWO_96 as real);
            0.0 <= Ratio(x) <= exact && exact - Ratio(x) < Over(1.0, TWO_48 as real)
  {
    var hi, low := x / TWO_48, x % TWO_48;
    assert x == hi * TWO_48 + low;
    assert x as real == (hi as real) * (TWO_48 as real) + low as real;
    assert TWO_96 as real == (TWO_48 as real) * (TWO_48 as real);
    assert Over(x as real, TWO_96 as real) == Over(hi as real, TWO_48 as real) + Over(low as real, TWO_96 as real);
    assert Over(low as real, TWO_96 as real) < Over(1.0, TWO_48 as real);
  }

  /** Twice the ratio over 2^48. */
  function Slack(e: real): real {
    2.0 * e * Over(1.0, TWO_48 as real)
  }

  lemma SquareGap(e: real, r: real, d: real)
    requires 0.0 <= r <= e && e - r < d
    ensures Square(r) <= Square(e)
    ensures e > 0.0 ==> Square(e) - Square(r) < 2.0 * e * d
    ensures e == 0.0 ==> Square(e) == Square(r)
  {
    assert Square(e) - Square(r) == (e - r) * (e + r);
    assert (e - r) * (e + r) >= 0.0;
    if e > 0.0 {
      assert (e - r) * (e + r) <= (e - r) * (2.0 * e);
      assert (e - r) * (2.0 * e) < d * (2.0 * e);
    }
  }

  lemma Product(a: real, b: real, p: real)
    requires p >= 1.0
    ensures a <= b <==> a * p <= b * p
    ensures a < b <==> a * p < b * p
    ensures (a - b) * p == a * p - b * p
  {}

  lemma Products(a: real, b: real, p: real)
    requires p >= 1.0
    ensures a <= b ==> Times(a, p) <= Times(b, p)
    ensures a < b ==> Times(a, p) < Times(b, p)
    ensures Times(0.0, p) == 0.0 && Times(a - b, p) == Times(a, p) - Times(b, p)
  {
    Product(a, b, p);
  }

  lemma TimesOver(a: real, p: real)
    requires p >= 1.0
    ensures Over(a, p) * p == a
  {}

  lemma OverOf(x: real, p: real, y: real)
    requires p >= 1.0 && x * p == y
    ensures Over(y, p) == x
  {}

  lemma Quotients(a: real, b: real, p: real)
    requires p >= 1.0
    ensures a <= b ==> Over(a, p) <= Over(b, p)
    ensures a < b ==> Over(a, p) < Over(b, p)
    ensures Over(0.0, p) == 0.0 && Over(a - b, p) == Over(a, p) - Over(b, p)
  {
    TimesOver(a, p);
    TimesOver(b, p);
    var u, v := Over(a, p), Over(b, p);
    hide Over;
    Product(u, v, p);
    OverOf(u - v, p, a - b);
    OverOf(0.0, p, 0.0);
  }

  /** Scaling by a power of ten keeps order and strict order, and scales differences. */
  lemma ScaledMonotone(a: real, b: real, scale: int)
    requires -28 <= scale <= 28
    ensures a <= b ==> Scaled(a, scale) <= Scaled(b, scale)
    ensures a < b ==> Scaled(a, scale) < Scaled(b, scale)
    ensures Scaled(0.0, scale) == 0.0
    ensures Scaled(a - b, scale) == Scaled(a, scale) - Scaled(b, scale)
  {
    hide TenTo, Times, Over;
    if scale >= 0 {
      Products(a, b, TenTo(scale));
    } else {
      Quotients(a, b, TenTo(-scale));
    }
  }

  predicate Supported(decimals0: U8, decimals1: U8) {
    -28 <= decimals0 - decimals1 <= 28
  }

  /** Both conversions always fit, so only the decimals can fail: by more than 28 apart. */
  lemma FailsExactly(x: U128, decimals0: U8, decimals1: U8)
    ensures PriceOf(x, decimals0, decimals1).Ok? <==> Supported(decimals0, decimals1)
    ensures Supported(decimals0, decimals1) ==>
            PriceOf(x, decimals0, decimals1) == Ok(Scaled(Square(Ratio(x)), decimals0 - decimals1))
  {
    hide Square, Over, Times, TenTo;
    assert x / TWO_48 < TWO_96;
  }

  lemma ExactSign(x: U128)
    ensures var e := Over(x as real, TWO_96 as real);
            if x == 0 then e == 0.0 && Square(e) == 0.0 else e > 0.0
  {}

  lemma GapIsSlack(e: real, r: real)
    requires 0.0 <= r <= e && e - r < Over(1.0, TWO_48 as real)
    ensures Square(r) <= Square(e)
    ensures e > 0.0 ==> Square(e) - Square(r) < Slack(e)
    ensures e == 0.0 ==> Square(e) == Square(r)
  {
    hide Square;
    SquareGap(e, r, Over(1.0, TWO_48 as real));
  }

  /** The same before scaling. */
  lemma RawIsClose(x: U128)
    ensures var e := Over(x as real, TWO_96 as real);
            && Square(Ratio(x)) <= Square(e)
            && (x > 0 ==> Square(e) - Square(Ratio(x)) < Slack(e))
            && (x == 0 ==> Square(e) == Square(Ratio(x)) == 0.0)
  {
    hide Square, Over, Slack, Ratio;
    var e := Over(x as real, TWO_96 as real);
    ShiftDrops(x);
    ExactSign(x);
    GapIsSlack(e, Ratio(x));
  }

  lemma Regroup(x: real, y: real, z: real)
    ensures Times(Times(x, y), z) == Times(x, Times(y, z)) && Times(x, y) == Times(y, x)
  {}

  lemma {:induction false} TenToAdds(m: nat, n: nat)
    ensures TenTo(m + n) == Times(TenTo(m), TenTo(n))
  {
    if m > 0 {
      TenToAdds(m - 1, n);
      Regroup(10.0, TenTo(m - 1), TenTo(n));
    }
  }

  /** Scaling shifts the decimal point from one number of decimals to the other. */
  lemma ScaledExactly(raw: real, decimals0: nat, decimals1: nat)
    requires -28 <= decimals0 - decimals1 <= 28
    ensures Times(Scaled(raw, decimals0 - decimals1), TenTo(decimals1)) == Times(raw, TenTo(decimals0))
  {
    hide TenTo, Times, Over;
    if decimals0 >= decimals1 {
      TenToAdds(decimals0 - decimals1, decimals1);
      Regroup(raw, TenTo(decimals0 - decimals1), TenTo(decimals1));
    } else {
      var factor := TenTo(decimals1 - decimals0);
      TenToAdds(decimals1 - decimals0, decimals0);
      OverTimes(raw, factor);
      Regroup(Over(raw, factor), factor, TenTo(decimals0));
    }
  }

  lemma OverTimes(a: real, p: real)
    requires p >= 1.0
    ensures Times(Over(a, p), p) == a
  {
    TimesOver(a, p);
  }

  /** The exact square of x / 2^96: currency 1 per currency 0 in base units. */
  function Exact(x: U128): real {
    (x as real / TWO_96 as real) * (x as real / TWO_96 as real)
  }

  /** Less than this is lost, in base units: twice x / 2^96 over 2^48. */
  function Lost(x: U128): real {
    2.0 * (x as real / TWO_96 as real) / TWO_48 as real
  }

  /** `p` whole tokens of currency 1 per whole token of currency 0, never above the exact price and hardly below. */
  predicate Prices(p: real, x: U128, decimals0: U8, decimals1: U8) {
    var paid, due, lost := p * TenTo(decimals1), Exact(x) * TenTo(decimals0), Lost(x) * TenTo(decimals0);
    if x == 0 then p == 0.0 else due - lost < paid <= due
  }

  lemma RawPrices(x: U128)
    ensures var raw := Square(Ratio(x));
            raw <= Exact(x) && (x > 0 ==> Exact(x) - raw < Lost(x)) && (x == 0 ==> raw == 0.0)
  {
    RawIsClose(x);
    hide Ratio;
    SlackIsLost(Over(x as real, TWO_96 as real));
  }

  lemma SlackIsLost(e: real)
    ensures Slack(e) == 2.0 * e / TWO_48 as real
  {}

  lemma BoundsScale(raw: real, exact: real, lost: real, factor: real)
    requires factor >= 1.0 && raw <= exact
    ensures raw * factor <= exact * factor
    ensures exact - raw < lost ==> exact * factor - lost * factor < raw * factor
  {
    Product(raw, exact, factor);
    Product(exact - raw, lost, factor);
    Product(exact, raw, factor);
  }

  lemma PricesFromRaw(p: real, raw: real, x: U128, decimals0: U8, decimals1: U8)
    requires Times(p, TenTo(decimals1)) == Times(raw, TenTo(decimals0)) && (x == 0 ==> p == 0.0)
    requires raw <= Exact(x) && (x > 0 ==> Exact(x) - raw < Lost(x))
    ensures Prices(p, x, decimals0, decimals1)
  {
    hide Exact, Lost, TenTo;
    BoundsScale(raw, Exact(x), Lost(x), TenTo(decimals0));
  }

  /**
   The price never exceeds the exact one, and falls short by less than twice the exact ratio over
   2^48, in whole tokens of either currency; for x = 0 it is exact.
   */
  lemma PriceIsClose(x: U128, decimals0: U8, decimals1: U8)
    requires Supported(decimals0, decimals1)
    ensures var p := PriceOf(x, decimals0, decimals1); p.Ok? && Prices(p.value, x, decimals0, decimals1)
  {
    hide Square, Over, Times, Scaled, Ratio, PriceOf, Exact, Lost, TenTo, Prices;
    FailsExactly(x, decimals0, decimals1);
    RawPrices(x);
    var raw := Square(Ratio(x));
    ScaledExactly(raw, decimals0, decimals1);
    ScaledMonotone(raw, 0.0, decimals0 - decimals1);
    PricesFromRaw(PriceOf(x, decimals0, decimals1).value, raw, x, decimals0, decimals1);
  }

  lemma RatioMonotone(x: U128, y: U128)
    requires x <= y
    ensures 0.0 <= Ratio(x) <= Ratio(y)
  {
    assert x / TWO_48 <= y / TWO_48;
  }

  lemma SquareMonotone(a: real, b: real)
    requires 0.0 <= a <= b
    ensures Square(a) <= Square(b)
  {}

  /** A larger square root never gives a smaller price. */
  lemma PriceIsMonotone(x: U128, y: U128, decimals0: U8, decimals1: U8)
    requires Supported(decimals0, decimals1) && x <= y
    ensures PriceOf(x, decimals0, decimals1).Ok? && PriceOf(y, decimals0, decimals1).Ok?
    ensures PriceOf(x, decimals0, decimals1).value <= PriceOf(y, decimals0, decimals1).value
  {
    FailsExactly(x, decimals0, decimals1);
    FailsExactly(y, decimals0, decimals1);
    RatioMonotone(x, y);
    SquareMonotone(Ratio(x), Ratio(y));
    hide Square, Ratio, Scaled, PriceOf;
    ScaledMonotone(Square(Ratio(x)), Square(Ratio(y)), decimals0 - decimals1);
  }

  /** The shift leaves nothing exactly of square roots below 2^48. */
  lemma PriceIsZeroExactly(x: U128, decimals0: U8, decimals1: U8)
    requires Supported(decimals0, decimals1)
    ensures PriceOf(x, decimals0, decimals1).Ok?
    ensures PriceOf(x, decimals0, decimals1).value == 0.0 <==> x < TWO_48
    ensures PriceOf(x, decimals0, decimals1).value >= 0.0
  {
    FailsExactly(x, decimals0, decimals1);
    var r := Ratio(x);
    if x < TWO_48 {
      assert x / TWO_48 == 0 && r == 0.0 && Square(r) == 0.0;
    } else {
      assert x / TWO_48 >= 1;
      assert r > 0.0 && Square(r) > 0.0;
    }
    hide Square, Ratio, Scaled, PriceOf;
    ScaledMonotone(0.0, Square(r), decimals0 - decimals1);
  }

  // ---- quoting a pool from either side ----

  predicate SameAddress(a: string, b: string) {
    Lower(a) == Lower(b)
  }

  /** Addresses are the same exactly if they differ in the case of letters only. */
  lemma SameAddressExactly(a: string, b: string)
    ensures SameAddress(a, b) <==> SameLetters(a, b)
  {
    SameLowerExactly(a, b);
  }

  /** The price of `token` in the other currency of the pool. */
  function Quote(currency0: string, x: U128, token: string, tokenDecimals: U8, otherDecimals: U8)
    : Result<real, ChainError>
  {
    if SameAddress(currency0, token) then PriceOf(x, tokenDecimals, otherDecimals)
    else
      var p :- PriceOf(x, otherDecimals, tokenDecimals);
      if p == 0.0 then Err(ZeroPrice) else Ok(Over(1.0, p))
  }

  lemma Reciprocal(p: real)
    requires p != 0.0
    ensures p * Over(1.0, p) == 1.0
  {}

  /** `q` is what one divided by a price in that sense gives: never below the exact inverse and hardly above. */
  predicate PricesInverse(q: real, x: U128, decimals0: U8, decimals1: U8) {
    var one, due, lost := TenTo(decimals1), Exact(x) * TenTo(decimals0), Lost(x) * TenTo(decimals0);
    q > 0.0 && q * (due - lost) < one <= q * due
  }

  lemma InversePrices(p: real, x: U128, decimals0: U8, decimals1: U8)
    requires p > 0.0 && Prices(p, x, decimals0, decimals1) && x > 0
    ensures PricesInverse(Over(1.0, p), x, decimals0, decimals1)
  {
    hide Exact, Lost, TenTo, Over;
    var q := Over(1.0, p);
    var paid, due, lost := p * TenTo(decimals1), Exact(x) * TenTo(decimals0), Lost(x) * TenTo(decimals0);
    Reciprocal(p);
    PositiveInverse(p);
    Together(q, p, TenTo(decimals1));
    Ordered(q, due - lost, paid);
    Ordered(q, paid, due);
  }

  lemma Together(q: real, p: real, x: real)
    requires p * q == 1.0
    ensures q * (p * x) == x
  {
    assert q * (p * x) == (p * q) * x;
  }

  lemma PositiveInverse(p: real)
    requires p > 0.0
    ensures Over(1.0, p) > 0.0
  {}

  lemma Ordered(q: real, a: real, b: real)
    requires q > 0.0
    ensures a < b ==> q * a < q * b
    ensures a <= b ==> q * a <= q * b
  {}

  /**
   A pool is quoted in the other currency per token: the price itself if the token is currency 0, and
   its inverse if it is currency 1, each with the decimals of its own token.
   */
  lemma QuoteIsClose(currency0: string, x: U128, token: string, tokenDecimals: U8, otherDecimals: U8)
    requires Supported(tokenDecimals, otherDecimals) && x >= TWO_48
    ensures var q := Quote(currency0, x, token, tokenDecimals, otherDecimals);
            && q.Ok?
            && if SameLetters(currency0, token) then Prices(q.value, x, tokenDecimals, otherDecimals)
               else PricesInverse(q.value, x, otherDecimals, tokenDecimals)
  {
    hide PriceOf, Prices, PricesInverse, Lower, SameLetters, Over;
    SameAddressExactly(currency0, token);
    if SameAddress(currency0, token) {
      PriceIsClose(x, tokenDecimals, otherDecimals);
    } else {
      PriceIsClose(x, otherDecimals, tokenDecimals);
      PriceIsZeroExactly(x, otherDecimals, tokenDecimals);
      InversePrices(PriceOf(x, otherDecimals, tokenDecimals).value, x, otherDecimals, tokenDecimals);
    }
  }

  /**
   The two sides of one pool: the quotes are exact reciprocals from 2^48 up; below, one side quotes
   zero and the other fails; with unsupported decimals both fail alike.
   */
  lemma SidesAreReciprocal(currency0: string, currency1: string, x: U128, decimals0: U8, decimals1: U8)
    requires !SameAddress(currency0, currency1)
    ensures var a := Quote(currency0, x, currency0, decimals0, decimals1);
            var b := Quote(currency0, x, currency1, decimals1, decimals0);
            && (!Supported(decimals0, decimals1) ==> a.Err? && a == b)
            && (Supported(decimals0, decimals1) && x >= TWO_48 ==> a.Ok? && b.Ok? && a.value * b.value == 1.0)
            && (Supported(decimals0, decimals1) && x < TWO_48 ==> a == Ok(0.0) && b == Err(ZeroPrice))
  {
    FailsExactly(x, decimals0, decimals1);
    if Supported(decimals0, decimals1) { PriceIsZeroExactly(x, decimals0, decimals1); }
    var p := PriceOf(x, decimals0, decimals1);
    hide PriceOf, Lower, Over;
    if p.Ok? && p.value != 0.0 { Reciprocal(p.value); }
  }
}
