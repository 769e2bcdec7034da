/** Orders and fills as every crate shares them (crates/core/src/types.rs). Decimals are exact reals. */
module Orders {
  import opened Wrappers

  datatype Side = Buy | Sell

  datatype Venue = Paper | RobinhoodMcp | DexRouter

  /** `id` and `reason` are free text; only `symbol` identifies the asset in this model. */
  datatype Order = Order(
    id: string, symbol: string, side: Side, qty: real, limitPrice: Option<real>, maxSlippage: real,
    venue: Venue, reason: string)

  datatype Fill = Fill(symbol: string, side: Side, qty: real, price: real, fee: real) {
    /** Signed change of cash, fee included. */
    function CashDelta(): real {
      match side
      case Buy => -(qty * price + fee)
      case Sell => qty * price - fee
    }
  }
}
