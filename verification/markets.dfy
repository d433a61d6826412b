/** The market: the listed stocks, filed under their (upper-case) symbols. */
module Markets {
  import opened Wrappers
  import Text
  import Stocks

  datatype Market = Market(stocks: map<string, Stocks.Stock>)

  /** Every stock is filed under its own symbol. */
  predicate Valid(m: Market)
  {
    forall k :: k in m.stocks ==> m.stocks[k].symbol == k
  }

  /** List a stock under its symbol, replacing any stock listed there before. */
  function AddStock(m: Market, s: Stocks.Stock): (r: Market)
    ensures r.stocks.Keys == m.stocks.Keys + {s.symbol}
    ensures r.stocks[s.symbol] == s
    ensures forall k :: k in m.stocks && k != s.symbol ==> r.stocks[k] == m.stocks[k]
    ensures Valid(m) ==> Valid(r)
  {
    Market(m.stocks[s.symbol := s])
  }

  /** Look a symbol up after upper-casing it; `None` when nothing is listed there. */
  function GetStock(m: Market, symbol: string): (r: Option<Stocks.Stock>)
    ensures r.Some? <==> Text.ToUpper(symbol) in m.stocks
    ensures r.Some? ==> r.value == m.stocks[Text.ToUpper(symbol)]
  {
    var key := Text.ToUpper(symbol);
    if key in m.stocks then Some(m.stocks[key]) else None
  }

  /** Lookup ignores case: two spellings that are equal ignoring case find the
      same stock (or both find nothing). */
  lemma GetStockIgnoresCase(m: Market, a: string, b: string)
    requires Text.EqualsIgnoreCase(a, b)
    ensures GetStock(m, a) == GetStock(m, b)
  {
    Text.EqualsIgnoreCaseIffSameUpper(a, b);
  }

  /** A stock created under some spelling of its symbol and then listed is found
      by every spelling that is equal to it ignoring case. */
  lemma AddedStockIsFound(m: Market, symbol: string, name: string, price: real, now: int, query: string)
    requires Text.EqualsIgnoreCase(query, symbol)
    ensures GetStock(AddStock(m, Stocks.NewStock(symbol, name, price, now)), query)
         == Some(Stocks.NewStock(symbol, name, price, now))
  {
    Text.EqualsIgnoreCaseIffSameUpper(query, symbol);
    Text.ToUpperIdempotent(symbol);
  }

  /** One cycle of the price updater: every listed stock ticks once, by its own
      drawn percentage `pcts[k]`. */
  function TickAll(m: Market, pcts: map<string, real>, now: int): (r: Market)
    requires m.stocks.Keys <= pcts.Keys
    requires forall k :: k in m.stocks ==> -2.0 <= pcts[k] <= 2.0
    ensures r.stocks.Keys == m.stocks.Keys
    ensures forall k :: k in r.stocks ==> r.stocks[k].price >= Stocks.MinPrice
    ensures forall k :: k in r.stocks ==> r.stocks[k] == Stocks.Tick(m.stocks[k], pcts[k], now)
    ensures Valid(m) ==> Valid(r)
  {
    Market(map k | k in m.stocks :: Stocks.Tick(m.stocks[k], pcts[k], now))
  }
}
