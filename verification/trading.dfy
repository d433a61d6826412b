/** The platform's trading engine: the buy and sell paths that tie a user's
    cash to their portfolio at the market's current price, the valuation of a
    portfolio, and the periodic snapshot of every user's total value. */
module Trading {
  import opened Wrappers
  import Text
  import Stocks
  import Portfolios
  import Accounts
  import Markets

  /** Why a buy or sell was refused. Each refusal leaves every account as it was. */
  datatype TradeError = UserNotFound | StockNotFound | InsufficientCash | InsufficientHoldings

  /** One executed trade as it goes to the transaction log: the quantity is
      positive for a buy and negative for a sell. */
  datatype Transaction = Transaction(userId: string, symbol: string, quantity: int, price: real, time: int)

  /** The users after a buy or sell, and either the recorded transaction or the
      reason for refusal. */
  datatype Trade = Trade(users: map<string, Accounts.User>, outcome: Result<Transaction, TradeError>)

  /** A transaction record; its symbol is stored upper-cased. */
  function NewTransaction(userId: string, symbol: string, qty: int, price: real, time: int): (t: Transaction)
    ensures t.userId == userId && t.quantity == qty && t.price == price && t.time == time
    ensures t.symbol == Text.ToUpper(symbol)
  {
    Transaction(userId, Text.ToUpper(symbol), qty, price, time)
  }

  /** `buy <user> <symbol> <qty>`: resolve the user and the stock, read the
      price once, check the user can afford `price * qty`, then debit that
      amount and add the shares to the portfolio at that same price. */
  function HandleBuy(market: Markets.Market, users: map<string, Accounts.User>, userId: string,
                     symbol: string, qty: int, now: int): (r: Trade)
    requires qty > 0
    requires userId in users ==> Portfolios.NonNegative(users[userId].portfolio)
    ensures r.users.Keys == users.Keys
    ensures r.outcome.Failure? ==> r.users == users
    ensures r.outcome == Failure(UserNotFound) <==> userId !in users
    ensures r.outcome == Failure(StockNotFound) <==> userId in users && Markets.GetStock(market, symbol).None?
    ensures r.outcome == Failure(InsufficientCash) <==>
      && userId in users
      && Markets.GetStock(market, symbol).Some?
      && !Accounts.CanAfford(users[userId], Markets.GetStock(market, symbol).value.price * qty as real)
    ensures r.outcome != Failure(InsufficientHoldings)
    ensures r.outcome.Success? ==>
      var s, u, u' := Markets.GetStock(market, symbol).value, users[userId], r.users[userId];
      && u'.id == u.id
      && u.cash - u'.cash == s.price * qty as real
      && u'.cash >= -Accounts.Epsilon
      && u'.portfolio == Portfolios.Buy(u.portfolio, s.symbol, qty, s.price)
      && r.outcome.value == NewTransaction(u.id, s.symbol, qty, s.price, now)
    ensures forall id :: id in users && id != userId ==> r.users[id] == users[id]
  {
    if userId !in users then Trade(users, Failure(UserNotFound))
    else
      match Markets.GetStock(market, symbol)
      case None => Trade(users, Failure(StockNotFound))
      case Some(s) =>
        var u := users[userId];
        var price := s.price;
        var cost := price * qty as real;
        if !Accounts.CanAfford(u, cost) then Trade(users, Failure(InsufficientCash))
        else
          var paid := Accounts.Debit(u, cost);
          var u' := paid.(portfolio := Portfolios.Buy(paid.portfolio, s.symbol, qty, price));
          Trade(users[userId := u'], Success(NewTransaction(u.id, s.symbol, qty, price, now)))
  }

  /** A buy never leaves anyone in the table holding a negative quantity. */
  lemma HandleBuyKeepsNonNegative(market: Markets.Market, users: map<string, Accounts.User>, userId: string,
                                  symbol: string, qty: int, now: int)
    requires qty > 0 && Accounts.AllNonNegative(users)
    ensures Accounts.AllNonNegative(HandleBuy(market, users, userId, symbol, qty, now).users)
  {
    var r := HandleBuy(market, users, userId, symbol, qty, now);
    if r.outcome.Success? {
      var s := Markets.GetStock(market, symbol).value;
      Portfolios.BuyKeepsNonNegative(users[userId].portfolio, s.symbol, qty, s.price);
      Accounts.UpdateKeepsAllNonNegative(users, userId, r.users[userId]);
      assert r.users == users[userId := r.users[userId]];
    }
  }

  /** `sell <user> <symbol> <qty>`: resolve the user and the stock, take the
      shares out of the portfolio, and only if that succeeds credit
      `price * qty`; the transaction records `-qty`. */
  function HandleSell(market: Markets.Market, users: map<string, Accounts.User>, userId: string,
                      symbol: string, qty: int, now: int): (r: Trade)
    ensures r.users.Keys == users.Keys
    ensures r.outcome.Failure? ==> r.users == users
    ensures r.outcome == Failure(UserNotFound) <==> userId !in users
    ensures r.outcome == Failure(StockNotFound) <==> userId in users && Markets.GetStock(market, symbol).None?
    ensures r.outcome == Failure(InsufficientHoldings) <==>
      && userId in users
      && Markets.GetStock(market, symbol).Some?
      && !Portfolios.Sell(users[userId].portfolio, Markets.GetStock(market, symbol).value.symbol, qty).ok
    ensures r.outcome != Failure(InsufficientCash)
    ensures r.outcome.Success? ==>
      var s, u, u' := Markets.GetStock(market, symbol).value, users[userId], r.users[userId];
      && u'.id == u.id
      && u'.cash - u.cash == s.price * qty as real
      && u'.portfolio == Portfolios.Sell(u.portfolio, s.symbol, qty).portfolio
      && r.outcome.value == NewTransaction(u.id, s.symbol, -qty, s.price, now)
      && r.outcome.value.quantity == -qty
    ensures forall id :: id in users && id != userId ==> r.users[id] == users[id]
    ensures Accounts.AllNonNegative(users) ==> Accounts.AllNonNegative(r.users)
  {
    if userId !in users then Trade(users, Failure(UserNotFound))
    else
      match Markets.GetStock(market, symbol)
      case None => Trade(users, Failure(StockNotFound))
      case Some(s) =>
        var u := users[userId];
        var sold := Portfolios.Sell(u.portfolio, s.symbol, qty);
        if !sold.ok then Trade(users, Failure(InsufficientHoldings))
        else
          var proceeds := s.price * qty as real;
          var u' := Accounts.Credit(u.(portfolio := sold.portfolio), proceeds);
          Trade(users[userId := u'], Success(NewTransaction(u.id, s.symbol, -qty, s.price, now)))
  }

  /** At an unchanged price, selling right back what a user has just bought
      of a stock they did not hold succeeds and restores every account
      exactly: the cash debited is credited again and the holding disappears. */
  lemma SellUndoesBuyTrade(market: Markets.Market, users: map<string, Accounts.User>, userId: string,
                           symbol: string, qty: int, now: int, later: int)
    requires qty > 0 && userId in users && Portfolios.NonNegative(users[userId].portfolio)
    requires Markets.GetStock(market, symbol).Some?
    requires Markets.GetStock(market, symbol).value.symbol !in users[userId].portfolio.holdings
    requires HandleBuy(market, users, userId, symbol, qty, now).outcome.Success?
    ensures HandleSell(market, HandleBuy(market, users, userId, symbol, qty, now).users, userId, symbol, qty, later).outcome.Success?
    ensures HandleSell(market, HandleBuy(market, users, userId, symbol, qty, now).users, userId, symbol, qty, later).users == users
  {
    var s := Markets.GetStock(market, symbol).value;
    var u := users[userId];
    var bought := HandleBuy(market, users, userId, symbol, qty, now).users;
    Portfolios.SellUndoesBuy(u.portfolio, s.symbol, qty, s.price);
    var sold := HandleSell(market, bought, userId, symbol, qty, later);
    assert sold.users[userId] == u;
    assert sold.users == users;
  }

  /** What one holding is worth at the market's current price; a symbol the
      market does not list is worth nothing. */
  function Worth(market: Markets.Market, h: Portfolios.Holding): (w: real)
    ensures Markets.GetStock(market, h.symbol).None? ==> w == 0.0
    ensures Markets.GetStock(market, h.symbol).Some? ==>
      w == h.quantity as real * Markets.GetStock(market, h.symbol).value.price
  {
    match Markets.GetStock(market, h.symbol)
    case None => 0.0
    case Some(s) => h.quantity as real * s.price
  }

  /** The sum of `Worth` over the holdings filed under `keys`, in no
      particular order. */
  ghost function ValueOf(market: Markets.Market, holdings: map<string, Portfolios.Holding>, keys: set<string>): real
    requires keys <= holdings.Keys
    decreases keys
  {
    if keys == {} then 0.0
    else
      var k :| k in keys;
      Worth(market, holdings[k]) + ValueOf(market, holdings, keys - {k})
  }

  /** The value of a whole portfolio's holdings. */
  ghost function PortfolioValue(market: Markets.Market, holdings: map<string, Portfolios.Holding>): real
  {
    ValueOf(market, holdings, holdings.Keys)
  }

  /** The sum does not depend on which holding is taken first: any one of them
      can be split off. */
  lemma {:induction false} ValueOfRemove(market: Markets.Market, holdings: map<string, Portfolios.Holding>,
                                         keys: set<string>, k: string)
    requires keys <= holdings.Keys && k in keys
    ensures ValueOf(market, holdings, keys) == Worth(market, holdings[k]) + ValueOf(market, holdings, keys - {k})
    decreases keys
  {
    var j :| j in keys && ValueOf(market, holdings, keys) == Worth(market, holdings[j]) + ValueOf(market, holdings, keys - {j});
    if j != k {
      ValueOfRemove(market, holdings, keys - {j}, k);
      ValueOfRemove(market, holdings, keys - {k}, j);
      assert keys - {j} - {k} == keys - {k} - {j};
    }
  }

  /** A portfolio with one holding is worth exactly that holding. */
  lemma PortfolioValueOfOne(market: Markets.Market, symbol: string, h: Portfolios.Holding)
    ensures PortfolioValue(market, map[symbol := h]) == Worth(market, h)
  {
    var holdings := map[symbol := h];
    ValueOfRemove(market, holdings, holdings.Keys, symbol);
    assert holdings.Keys - {symbol} == {};
  }

  /** Add up the worth of every holding of `u`, skipping symbols the market
      does not list. */
  method ComputePortfolioValue(market: Markets.Market, u: Accounts.User) returns (total: real)
    ensures total == PortfolioValue(market, u.portfolio.holdings)
  {
    var holdings := u.portfolio.holdings;
    var rest := holdings.Keys;
    total := 0.0;
    while rest != {}
      invariant rest <= holdings.Keys
      invariant total + ValueOf(market, holdings, rest) == PortfolioValue(market, holdings)
      decreases rest
    {
      var k :| k in rest;
      ValueOfRemove(market, holdings, rest, k);
      total := total + Worth(market, holdings[k]);
      rest := rest - {k};
    }
  }

  /** `after` is `before` with one more snapshot recording the value of its
      holdings plus its cash at time `now`; nothing else differs. */
  ghost predicate SnapshotTaken(market: Markets.Market, before: Accounts.User, after: Accounts.User, now: int)
  {
    && after.id == before.id && after.cash == before.cash
    && after.portfolio == Portfolios.TakeSnapshot(before.portfolio,
                            PortfolioValue(market, before.portfolio.holdings) + before.cash, now)
  }

  /** One cycle of the snapshot task: every user records the current value of
      their holdings plus their cash; nothing else about any user changes. */
  method TakeAllSnapshots(market: Markets.Market, users: map<string, Accounts.User>, now: int)
    returns (r: map<string, Accounts.User>)
    ensures r.Keys == users.Keys
    ensures forall id :: id in users ==> SnapshotTaken(market, users[id], r[id], now)
  {
    r := users;
    var rest := users.Keys;
    while rest != {}
      invariant rest <= users.Keys
      invariant r.Keys == users.Keys
      invariant forall id :: id in rest ==> r[id] == users[id]
      invariant forall id :: id in users && id !in rest ==> SnapshotTaken(market, users[id], r[id], now)
      decreases rest
    {
      var id :| id in rest;
      var u := users[id];
      var value := ComputePortfolioValue(market, u);
      var u' := u.(portfolio := Portfolios.TakeSnapshot(u.portfolio, value + u.cash, now));
      assert SnapshotTaken(market, u, u', now);
      r := r[id := u'];
      rest := rest - {id};
    }
  }
}
