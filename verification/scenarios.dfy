/** Worked examples of the trading and booking operations, stated as facts
    about the model. */
module Scenarios {
  import opened Wrappers
  import Text
  import Stocks
  import Portfolios
  import Accounts
  import Markets
  import Trading
  import Hotel

  /** A market listing Apple at 170.00. */
  function AppleMarket(now: int): (m: Markets.Market)
    ensures "AAPL" in m.stocks && m.stocks["AAPL"].price == 170.0
  {
    Text.ToUpperOfUpper("AAPL");
    Markets.AddStock(Markets.Market(map[]), Stocks.NewStock("AAPL", "Apple Inc.", 170.0, now))
  }

  /** Alice, registered with the starting cash and holding nothing. */
  function Alice(): (users: map<string, Accounts.User>)
    ensures "alice" in users && users["alice"].cash == 10000.0
    ensures users["alice"].portfolio.holdings == map[]
  {
    map["alice" := Accounts.NewUser("alice", Accounts.StartingCash)]
  }

  /** Alice buys 10 Apple at 170.00: her cash drops to 8300.00 and she holds
      10 Apple at an average price of 170.00. */
  lemma AliceBuysApple(now: int)
    ensures var t := Trading.HandleBuy(AppleMarket(now), Alice(), "alice", "AAPL", 10, now);
      && t.outcome.Success?
      && t.users["alice"].cash == 8300.0
      && t.users["alice"].portfolio.holdings == map["AAPL" := Portfolios.Holding("AAPL", 10, 170.0)]
  {
    Text.ToUpperOfUpper("AAPL");
    var t := Trading.HandleBuy(AppleMarket(now), Alice(), "alice", "AAPL", 10, now);
    assert Markets.GetStock(AppleMarket(now), "AAPL").Some?;
    assert t.users["alice"].portfolio.holdings == map["AAPL" := Portfolios.Holding("AAPL", 10, 170.0)];
  }

  /** Alice then tries to sell 15 Apple: the sale is refused for want of
      holdings and nothing changes. */
  lemma AliceOversells(now: int, later: int)
    ensures var t := Trading.HandleBuy(AppleMarket(now), Alice(), "alice", "AAPL", 10, now);
      var t' := Trading.HandleSell(AppleMarket(now), t.users, "alice", "AAPL", 15, later);
      t'.outcome == Failure(Trading.InsufficientHoldings) && t'.users == t.users
  {
    AliceBuysApple(now);
  }

  /** Buying 10 at 100.00 and then 10 at 200.00 leaves 20 at an average of 150.00. */
  lemma TwoBuysAverage()
    ensures var p := Portfolios.Buy(Portfolios.Buy(Portfolios.EmptyPortfolio("alice"), "AAPL", 10, 100.0), "AAPL", 10, 200.0);
      p.holdings["AAPL"] == Portfolios.Holding("AAPL", 20, 150.0)
  {
    var p1 := Portfolios.Buy(Portfolios.EmptyPortfolio("alice"), "AAPL", 10, 100.0);
    var p2 := Portfolios.Buy(p1, "AAPL", 10, 200.0);
    assert p1.holdings["AAPL"] == Portfolios.Holding("AAPL", 10, 100.0);
    assert p2.holdings["AAPL"].avgPrice * 20.0 == 3000.0;
  }

  /** Twenty Apple at a current price of 160.00 are worth 3200.00; with 5000.00
      cash the snapshot records 8200.00. */
  lemma SnapshotValue(now: int)
    ensures var m := Markets.AddStock(Markets.Market(map[]), Stocks.NewStock("AAPL", "Apple Inc.", 160.0, now));
      Trading.PortfolioValue(m, map["AAPL" := Portfolios.Holding("AAPL", 20, 170.0)]) + 5000.0 == 8200.0
  {
    var m := Markets.AddStock(Markets.Market(map[]), Stocks.NewStock("AAPL", "Apple Inc.", 160.0, now));
    var h := Portfolios.Holding("AAPL", 20, 170.0);
    Text.ToUpperOfUpper("AAPL");
    Trading.PortfolioValueOfOne(m, "AAPL", h);
    assert Trading.Worth(m, h) == 3200.0;
  }

  /** In the opening hotel, room 101 can be booked once and then no more; a
      cancellation under the guest's name in capitals frees it again. */
  lemma BookAndCancelRoom101(days: int)
    ensures var b := Hotel.BookRoom(Hotel.InitialHotel(), "alice", 101, days);
      && b.ok
      && b.hotel.reservations[0].totalAmount == 2000.0 * days as real
      && !Hotel.BookRoom(b.hotel, "bob", 101, days).ok
      && Hotel.CancelBooking(b.hotel, "ALICE", 101).ok
      && Hotel.CancelBooking(b.hotel, "ALICE", 101).hotel == Hotel.InitialHotel()
  {
    var h := Hotel.InitialHotel();
    Hotel.InitialHotelConsistent();
    assert Hotel.Available(h.rooms[0], 101);
    var b := Hotel.BookRoom(h, "alice", 101, days);
    Hotel.NoDoubleBooking(h, "alice", "bob", 101, days, days);
    assert Hotel.Matches(b.hotel.rooms, b.hotel.reservations[0], "ALICE", 101);
    var c := Hotel.CancelBooking(b.hotel, "ALICE", 101);
    assert c.hotel.reservations == [];
    assert c.hotel.rooms == h.rooms;
  }
}
