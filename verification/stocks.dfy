/** A stock: its upper-cased symbol, display name, current price and the
    bounded history of the prices it has taken. */
module Stocks {
  import Text
  import History

  /** The price a tick can never go below. */
  const MinPrice: real := 0.01

  /** One recorded price, stamped with the (abstract) time it was taken. */
  datatype PricePoint = PricePoint(time: int, price: real)

  datatype Stock = Stock(symbol: string, name: string, price: real, history: seq<PricePoint>)

  /** A new stock: the symbol is upper-cased and the initial price is the
      first and only point of its history. */
  function NewStock(symbol: string, name: string, initialPrice: real, now: int): (s: Stock)
    ensures s.symbol == Text.ToUpper(symbol) && Text.IsUpper(s.symbol)
    ensures s.name == name && s.price == initialPrice
    ensures |s.history| == 1 && s.history[0] == PricePoint(now, initialPrice)
  {
    Stock(Text.ToUpper(symbol), name, initialPrice, History.Append([], PricePoint(now, initialPrice)))
  }

  /** One simulated price step by `pct` percent (the random draw, in [-2, 2]),
      floored at `MinPrice`; the new price becomes the newest history point. */
  function Tick(s: Stock, pct: real, now: int): (r: Stock)
    requires -2.0 <= pct <= 2.0
    ensures r.price >= MinPrice
    ensures r.price == MinPrice || r.price == s.price + s.price * pct / 100.0
    ensures r.price >= s.price + s.price * pct / 100.0
    ensures r.history == History.Append(s.history, PricePoint(now, r.price))
    ensures r.history[|r.history| - 1] == PricePoint(now, r.price)
    ensures |s.history| <= History.Capacity ==> |r.history| <= History.Capacity
    ensures r.symbol == s.symbol && r.name == s.name
  {
    var change := s.price * pct / 100.0;
    var p := if s.price + change > MinPrice then s.price + change else MinPrice;
    s.(price := p, history := History.Append(s.history, PricePoint(now, p)))
  }

  /** A tick moves a non-negative price by at most two percent either way,
      except that it never goes below the floor. */
  lemma TickStaysNearPrice(s: Stock, pct: real, now: int)
    requires -2.0 <= pct <= 2.0 && s.price >= 0.0
    ensures s.price * 0.98 <= Tick(s, pct, now).price
    ensures Tick(s, pct, now).price <= s.price * 1.02 || Tick(s, pct, now).price == MinPrice
  {
    StepBounds(s.price, pct, Tick(s, pct, now).price);
  }

  /** A price that is either the floor or at least the stepped price stays
      within two percent of a non-negative starting price `x`. */
  lemma StepBounds(x: real, pct: real, p: real)
    requires -2.0 <= pct <= 2.0 && x >= 0.0
    requires p >= x + x * pct / 100.0
    requires p == MinPrice || p == x + x * pct / 100.0
    ensures x * 0.98 <= p
    ensures p <= x * 1.02 || p == MinPrice
  {
    ProductNonNegative(x, pct + 2.0);
    ProductNonNegative(x, 2.0 - pct);
  }

  lemma ProductNonNegative(a: real, b: real)
    requires a >= 0.0 && b >= 0.0
    ensures a * b >= 0.0
  {
  }
}
