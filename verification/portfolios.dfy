/** A user's portfolio: holdings keyed by symbol, each with a quantity and a
    volume-weighted average buy price, plus a bounded history of valuation
    snapshots. */
module Portfolios {
  import History

  datatype Holding = Holding(symbol: string, quantity: int, avgPrice: real)

  /** One recorded total value (cash plus holdings), stamped with its time. */
  datatype Snapshot = Snapshot(time: int, value: real)

  datatype Portfolio = Portfolio(userId: string, holdings: map<string, Holding>, snapshots: seq<Snapshot>)

  /** The outcome of a sell: whether it went through, and the portfolio after it. */
  datatype SellResult = SellResult(ok: bool, portfolio: Portfolio)

  /** A fresh portfolio: no holdings and no snapshots. */
  function EmptyPortfolio(userId: string): (p: Portfolio)
    ensures p.userId == userId && p.holdings == map[] && p.snapshots == []
  {
    Portfolio(userId, map[], [])
  }

  /** No holding has a negative quantity (what `Buy` needs to stay defined). */
  predicate NonNegative(p: Portfolio)
  {
    forall s :: s in p.holdings ==> p.holdings[s].quantity >= 0
  }

  /** The platform's holding invariant: every holding is filed under its own
      symbol and has a strictly positive quantity. */
  predicate Valid(p: Portfolio)
  {
    forall s :: s in p.holdings ==> p.holdings[s].symbol == s && p.holdings[s].quantity > 0
  }

  /** Buy `qty` units of `symbol` at `price`. A new symbol gets a holding at
      exactly that price; an existing one grows by `qty` and its average price
      becomes the volume-weighted average of the old position and this buy. */
  function Buy(p: Portfolio, symbol: string, qty: int, price: real): (r: Portfolio)
    requires qty > 0
    requires symbol in p.holdings ==> p.holdings[symbol].quantity >= 0
    ensures r.userId == p.userId && r.snapshots == p.snapshots
    ensures r.holdings.Keys == p.holdings.Keys + {symbol}
    ensures symbol !in p.holdings ==> r.holdings[symbol] == Holding(symbol, qty, price)
    ensures symbol in p.holdings ==>
      var h, h' := p.holdings[symbol], r.holdings[symbol];
      && h'.symbol == h.symbol
      && h'.quantity == h.quantity + qty
      && h'.avgPrice * h'.quantity as real == h.avgPrice * h.quantity as real + price * qty as real
    ensures r.holdings[symbol].quantity >= qty
    ensures forall s :: s in p.holdings && s != symbol ==> r.holdings[s] == p.holdings[s]
  {
    if symbol !in p.holdings then
      p.(holdings := p.holdings[symbol := Holding(symbol, qty, price)])
    else
      var h := p.holdings[symbol];
      var total := h.quantity + qty;
      var newAvg := (h.avgPrice * h.quantity as real + price * qty as real) / total as real;
      p.(holdings := p.holdings[symbol := h.(quantity := total, avgPrice := newAvg)])
  }

  /** Buying keeps every quantity non-negative. */
  lemma BuyKeepsNonNegative(p: Portfolio, symbol: string, qty: int, price: real)
    requires qty > 0 && NonNegative(p)
    ensures NonNegative(Buy(p, symbol, qty, price))
  {
  }

  /** Buying keeps the holding invariant: holdings filed under their own
      symbol, with positive quantities. */
  lemma BuyKeepsValid(p: Portfolio, symbol: string, qty: int, price: real)
    requires qty > 0 && Valid(p)
    ensures Valid(Buy(p, symbol, qty, price))
  {
  }

  /** Sell `qty` units of `symbol`. It fails, leaving the portfolio as it was,
      when the symbol is not held or fewer than `qty` units are; otherwise the
      quantity drops by `qty`, the average price is kept, and the holding is
      removed exactly when its quantity reaches zero. */
  function Sell(p: Portfolio, symbol: string, qty: int): (r: SellResult)
    ensures r.ok <==> symbol in p.holdings && p.holdings[symbol].quantity >= qty
    ensures !r.ok ==> r.portfolio == p
    ensures r.portfolio.userId == p.userId && r.portfolio.snapshots == p.snapshots
    ensures r.ok ==>
      var h := p.holdings[symbol];
      && (symbol in r.portfolio.holdings <==> h.quantity != qty)
      && (symbol in r.portfolio.holdings ==>
            r.portfolio.holdings[symbol] == Holding(h.symbol, h.quantity - qty, h.avgPrice))
    ensures forall s :: s != symbol ==>
      (s in r.portfolio.holdings <==> s in p.holdings) &&
      (s in p.holdings ==> r.portfolio.holdings[s] == p.holdings[s])
    ensures Valid(p) ==> Valid(r.portfolio)
    ensures NonNegative(p) ==> NonNegative(r.portfolio)
  {
    if symbol !in p.holdings || p.holdings[symbol].quantity < qty then
      SellResult(false, p)
    else
      var h := p.holdings[symbol];
      var left := h.quantity - qty;
      if left == 0 then
        SellResult(true, p.(holdings := p.holdings - {symbol}))
      else
        SellResult(true, p.(holdings := p.holdings[symbol := h.(quantity := left)]))
  }

  /** Selling everything just bought of a symbol that was not held before
      gives the portfolio back exactly as it was. */
  lemma SellUndoesBuy(p: Portfolio, symbol: string, qty: int, price: real)
    requires qty > 0 && symbol !in p.holdings
    ensures Sell(Buy(p, symbol, qty, price), symbol, qty) == SellResult(true, p)
  {
    var r := Sell(Buy(p, symbol, qty, price), symbol, qty);
    assert r.portfolio.holdings == p.holdings;
  }

  /** Record a valuation snapshot as the newest entry of the bounded history. */
  function TakeSnapshot(p: Portfolio, totalValue: real, now: int): (r: Portfolio)
    ensures r.userId == p.userId && r.holdings == p.holdings
    ensures r.snapshots == History.Append(p.snapshots, Snapshot(now, totalValue))
    ensures r.snapshots[|r.snapshots| - 1] == Snapshot(now, totalValue)
    ensures |p.snapshots| <= History.Capacity ==> |r.snapshots| <= History.Capacity
  {
    p.(snapshots := History.Append(p.snapshots, Snapshot(now, totalValue)))
  }

  /** One executed buy: a quantity and the price paid per unit. */
  datatype Fill = Fill(quantity: int, price: real)

  predicate AllPositive(fills: seq<Fill>)
  {
    forall i :: 0 <= i < |fills| ==> fills[i].quantity > 0
  }

  /** Units bought over all fills. */
  function TotalQuantity(fills: seq<Fill>): int
  {
    if |fills| == 0 then 0 else TotalQuantity(fills[..|fills| - 1]) + fills[|fills| - 1].quantity
  }

  /** Money paid over all fills. */
  function TotalCost(fills: seq<Fill>): real
  {
    if |fills| == 0 then 0.0
    else TotalCost(fills[..|fills| - 1]) + fills[|fills| - 1].price * fills[|fills| - 1].quantity as real
  }

  /** Apply the buys of `fills` to one symbol, oldest first. */
  function BuyAll(p: Portfolio, symbol: string, fills: seq<Fill>): (r: Portfolio)
    requires AllPositive(fills)
    requires symbol in p.holdings ==> p.holdings[symbol].quantity >= 0
    ensures |fills| > 0 ==> symbol in r.holdings && r.holdings[symbol].quantity > 0
    ensures symbol in p.holdings ==> symbol in r.holdings && r.holdings[symbol].quantity >= 0
    decreases |fills|
  {
    if |fills| == 0 then p
    else
      var before := BuyAll(p, symbol, fills[..|fills| - 1]);
      Buy(before, symbol, fills[|fills| - 1].quantity, fills[|fills| - 1].price)
  }

  /** `h` holds `qty` units bought for `cost` in total: its quantity is `qty`
      and quantity times average price is `cost`. */
  predicate IsCostBasis(h: Holding, qty: int, cost: real)
  {
    h.quantity == qty && h.avgPrice * qty as real == cost
  }

  /** On a portfolio that does not yet hold `symbol`, any non-empty sequence of
      buys leaves a holding whose quantity is the total bought and whose
      quantity times average price is the total paid. */
  lemma {:induction false} BuyAllKeepsCostBasis(p: Portfolio, symbol: string, fills: seq<Fill>)
    requires symbol !in p.holdings
    requires |fills| > 0 && AllPositive(fills)
    ensures IsCostBasis(BuyAll(p, symbol, fills).holdings[symbol], TotalQuantity(fills), TotalCost(fills))
    decreases |fills|
  {
    var init, last := fills[..|fills| - 1], fills[|fills| - 1];
    var h' := BuyAll(p, symbol, fills).holdings[symbol];
    assert TotalQuantity(fills) == TotalQuantity(init) + last.quantity;
    assert TotalCost(fills) == TotalCost(init) + last.price * last.quantity as real;
    if |init| == 0 {
      assert BuyAll(p, symbol, fills) == Buy(p, symbol, last.quantity, last.price);
      assert h' == Holding(symbol, last.quantity, last.price);
      CostBasisStep(Holding(symbol, 0, 0.0), 0.0, h', TotalQuantity(fills), TotalCost(fills), last);
    } else {
      assert AllPositive(init);
      BuyAllKeepsCostBasis(p, symbol, init);
      var before := BuyAll(p, symbol, init);
      var h := before.holdings[symbol];
      assert BuyAll(p, symbol, fills) == Buy(before, symbol, last.quantity, last.price);
      CostBasisStep(h, TotalCost(init), h', TotalQuantity(fills), TotalCost(fills), last);
    }
  }

  /** The arithmetic step of `BuyAllKeepsCostBasis`: adding a fill to a holding
      bought for `cost` yields one bought for `cost` plus the fill's price. */
  lemma CostBasisStep(h: Holding, cost: real, h': Holding, qty': int, cost': real, fill: Fill)
    requires IsCostBasis(h, h.quantity, cost)
    requires h'.quantity == h.quantity + fill.quantity == qty'
    requires h'.avgPrice * h'.quantity as real == h.avgPrice * h.quantity as real + fill.price * fill.quantity as real
    requires cost' == cost + fill.price * fill.quantity as real
    ensures IsCostBasis(h', qty', cost')
  {
  }

  /** Hence the average price after any non-empty sequence of buys on a fresh
      symbol is the volume-weighted average of all buy prices. */
  lemma BuyAllIsVolumeWeighted(p: Portfolio, symbol: string, fills: seq<Fill>)
    requires symbol !in p.holdings
    requires |fills| > 0 && AllPositive(fills)
    ensures TotalQuantity(fills) > 0
    ensures BuyAll(p, symbol, fills).holdings[symbol].avgPrice == TotalCost(fills) / TotalQuantity(fills) as real
  {
    BuyAllKeepsCostBasis(p, symbol, fills);
    AverageOfCostBasis(BuyAll(p, symbol, fills).holdings[symbol], TotalQuantity(fills), TotalCost(fills));
  }

  lemma AverageOfCostBasis(h: Holding, qty: int, cost: real)
    requires IsCostBasis(h, qty, cost) && h.quantity > 0
    ensures qty > 0 && h.avgPrice == cost / qty as real
  {
  }
}
