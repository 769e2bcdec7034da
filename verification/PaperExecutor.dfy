/** The paper venue (crates/execution/src/lib.rs): fills at the last price plus or minus a spread, for a fee. */
module PaperExecutor {
  import opened Wrappers
  import opened Orders

  /** `DividesByZero` is a panic of `execute`: the slip against a limit price of zero. */
  datatype ExecError = NoPrice(symbol: string) | SlippageExceeded(got: real, tolerance: real) | DividesByZero

  const SPREAD := 0.0010
  const FEE := 0.0005

  function ExecPrice(side: Side, mid: real, spread: real): real {
    if side.Buy? then mid * (1.0 + spread) else mid * (1.0 - spread)
  }

  function Abs(x: real): real {
    if x < 0.0 then -x else x
  }

  function Slip(price: real, limit: real): real
    requires limit != 0.0
  {
    Abs((price - limit) / limit)
  }

  function Fee(o: Order, price: real, fee: real): real {
    (o.qty * price) * fee
  }

  function Executed(prices: map<string, real>, o: Order, spread: real, fee: real): Result<Fill, ExecError> {
    if o.symbol !in prices then Err(NoPrice(o.symbol))
    else if o.limitPrice == Some(0.0) then Err(DividesByZero)
    else
      var price := ExecPrice(o.side, prices[o.symbol], spread);
      if o.limitPrice.Some? && Slip(price, o.limitPrice.value) > o.maxSlippage then
        Err(SlippageExceeded(Slip(price, o.limitPrice.value), o.maxSlippage))
      else Ok(Fill(o.symbol, o.side, o.qty, price, Fee(o, price, fee)))
  }

  class PaperExecutor {
    const spread: real
    const fee: real
    var prices: map<string, real>
    var fillCount: nat

    constructor (spread: real, fee: real)
      ensures prices == map[] && fillCount == 0 && this.spread == spread && this.fee == fee
    {
      this.spread, this.fee := spread, fee;
      prices, fillCount := map[], 0;
    }

    method SetPrice(symbol: string, price: real)
      modifies this`prices
      ensures prices == old(prices)[symbol := price]
    {
      prices := prices[symbol := price];
    }

    method Execute(o: Order) returns (r: Result<Fill, ExecError>)
      modifies this`fillCount
      ensures r == Executed(prices, o, spread, fee)
      ensures fillCount == old(fillCount) + if r.Ok? then 1 else 0
    {
      hide ExecPrice, Slip, Fee;
      if o.symbol !in prices {
        return Err(NoPrice(o.symbol));
      }
      var mid := prices[o.symbol];
      var price := ExecPrice(o.side, mid, spread);
      if o.limitPrice.Some? {
        if o.limitPrice.value == 0.0 {
          return Err(DividesByZero);
        }
        var slip := Slip(price, o.limitPrice.value);
        if slip > o.maxSlippage {
          return Err(SlippageExceeded(slip, o.maxSlippage));
        }
      }
      fillCount := fillCount + 1;
      r := Ok(Fill(o.symbol, o.side, o.qty, price, Fee(o, price, fee)));
    }
  }

  /** An order limited at the very price it is filled against slips by exactly the spread. */
  lemma SlipIsSpread(side: Side, mid: real, spread: real)
    requires mid > 0.0 && spread >= 0.0
    ensures Slip(ExecPrice(side, mid, spread), mid) == spread
  {
    var signed := if side.Buy? then spread else -spread;
    var price := ExecPrice(side, mid, spread);
    assert price == mid * (1.0 + signed);
    assert price - mid == signed * mid;
    DivideBack(signed, mid, price - mid);
  }

  lemma DivideBack(x: real, d: real, y: real)
    requires d != 0.0 && x * d == y
    ensures y / d == x
  {}

  // ---- exactly what is filled ----

  lemma Scale(x: real, y: real, d: real)
    requires d > 0.0
    ensures x <= y <==> x * d <= y * d
  {}

  function Gap(price: real, limit: real): real {
    if price < limit then limit - price else price - limit
  }

  function Magnitude(limit: real): real {
    if limit < 0.0 then -limit else limit
  }

  /** The price lies no further from the limit than the tolerated share of the limit's size. */
  predicate Within(price: real, limit: real, tolerance: real) {
    Gap(price, limit) <= tolerance * Magnitude(limit)
  }

  /** This share of the limit's size is its distance from the price. */
  predicate IsShare(share: real, price: real, limit: real) {
    share * Magnitude(limit) == Gap(price, limit)
  }

  lemma SlipExactly(price: real, limit: real, tolerance: real)
    requires limit != 0.0
    ensures IsShare(Slip(price, limit), price, limit)
    ensures Slip(price, limit) <= tolerance <==> Within(price, limit, tolerance)
  {
    var x := (price - limit) / limit;
    assert x * limit == price - limit;
    if x < 0.0 { SignOfProduct(x, limit); } else { SignOfProduct(-x, limit); }
    Scale(Slip(price, limit), tolerance, Magnitude(limit));
  }

  lemma SignOfProduct(x: real, d: real)
    requires x <= 0.0
    ensures if d >= 0.0 then x * d <= 0.0 else x * d >= 0.0
  {}

  /** The market price with the spread added for a buy and taken off for a sell. */
  function Spread(side: Side, mid: real, spread: real): real {
    match side
    case Buy => mid + spread * mid
    case Sell => mid - spread * mid
  }

  lemma Spreads(side: Side, mid: real, spread: real)
    ensures ExecPrice(side, mid, spread) == Spread(side, mid, spread)
  {}

  lemma FeeIsCharged(o: Order, price: real, same: real, rate: real)
    requires price == same
    ensures Fee(o, price, rate) == (o.qty * same) * rate
  {}

  /**
   An order is filled exactly if its symbol has a price and the execution price, a spread above the
   market for a buy and below it for a sell, is within the tolerance of its limit, if it has one; the
   fee is charged on the execution price.
   */
  lemma ExecutedExactly(prices: map<string, real>, o: Order, spread: real, fee: real)
    ensures var r := Executed(prices, o, spread, fee);
            if o.symbol !in prices then r == Err(NoPrice(o.symbol))
            else
              var mid := prices[o.symbol];
              var price := Spread(o.side, mid, spread);
              if o.limitPrice == Some(0.0) then r == Err(DividesByZero)
              else if o.limitPrice.None? || Within(price, o.limitPrice.value, o.maxSlippage) then
                && r.Ok? && r.value.symbol == o.symbol && r.value.side == o.side && r.value.qty == o.qty
                && r.value.price == price && r.value.fee == (o.qty * price) * fee
              else
                && r.Err? && r.error.SlippageExceeded?
                && IsShare(r.error.got, price, o.limitPrice.value) && r.error.tolerance == o.maxSlippage
  {
    hide Slip, ExecPrice, Spread, Fee, Within, IsShare;
    if o.symbol in prices {
      var mid := prices[o.symbol];
      var price := Spread(o.side, mid, spread);
      Spreads(o.side, mid, spread);
      FeeIsCharged(o, ExecPrice(o.side, mid, spread), price, fee);
      if o.limitPrice.Some? && o.limitPrice.value != 0.0 {
        SlipExactly(price, o.limitPrice.value, o.maxSlippage);
      }
    }
  }

  /** Buying and at once selling the same at one market price costs the spread and the fee twice. */
  lemma RoundTripCost(prices: map<string, real>, buy: Order, sell: Order, spread: real, fee: real)
    requires buy.side.Buy? && sell.side.Sell? && buy.symbol == sell.symbol && buy.qty == sell.qty
    requires Executed(prices, buy, spread, fee).Ok? && Executed(prices, sell, spread, fee).Ok?
    ensures Executed(prices, buy, spread, fee).value.CashDelta() + Executed(prices, sell, spread, fee).value.CashDelta()
            == -(2.0 * (spread + fee)) * (buy.qty * prices[buy.symbol])
  {
    hide Slip, ExecPrice;
    var mid, qty := prices[buy.symbol], buy.qty;
    Spreads(Buy, mid, spread);
    Spreads(Sell, mid, spread);
    var n := qty * mid;
    assert qty * (mid + spread * mid) == n + spread * n;
    assert qty * (mid - spread * mid) == n - spread * n;
    Compounded(n, spread, fee);
  }

  lemma Compounded(n: real, spread: real, fee: real)
    ensures -(n + spread * n + (n + spread * n) * fee) + (n - spread * n - (n - spread * n) * fee)
            == -(2.0 * (spread + fee)) * n
  {}
}
