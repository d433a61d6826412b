# Trading ledger and hotel booking book, modelled in Dafny

This project models the sequential core of two small Java programs.

**Stock trading platform** (`StockTradingPlatform.java`). The model covers:

- stocks whose price ticks by a random percentage, with a floor of 0.01;
- a bounded price history holding the newest 1000 points;
- the market lookup, which upper-cases the symbol;
- portfolios: a volume-weighted `buy`, a guarded `sell`, and a bounded history of valuation snapshots;
- user cash, with an affordability check that tolerates 1e-9;
- the buy and sell paths of the trading engine;
- portfolio valuation and the periodic snapshot of every user;
- the holdings dump written on save and replayed on start-up, taken at the level of records.

**Hotel reservation system** (`HotelReservationSystem.java`). The model covers:

- the five rooms the hotel opens with;
- `bookRoom`, which books the first free room with the requested number;
- `cancelBooking`, which cancels the first reservation whose guest name matches, ignoring case, and whose room number matches;
- the booking-book invariant: a room is booked exactly when exactly one reservation holds it.

Everything is an immutable value, so each Java mutation becomes a pure function from the old state to the new one:

- a portfolio is a `map<string, Holding>`;
- the user table is a `map<string, User>`;
- histories are `seq`s;
- money and prices are `real`;
- quantities are `int`.

Some parts of the Java become parameters or a different representation:

- **Random draw in `tick`.** The draw becomes the parameter `pct`, restricted to `[-2, 2]`.
- **Timestamps.** `LocalDateTime.now()` becomes an abstract `now: int`.
- **Room references.** A reservation's Java reference to its room becomes the room's position in the hotel's room list. That list never changes shape, so the position identifies the room.
- **Loops with an unspecified order.** The loops that walk a `HashMap` are methods that choose the next key arbitrarily: `computePortfolioValue`, `takeAllSnapshots`, and the two nested loops of `savePortfolios` (`Persistence.SavePortfolios`). Their contracts hold for every order. Portfolio value is defined once, as an order-independent sum (`Trading.PortfolioValue`).

Modules:

- `Wrappers`: `Option` and `Result`.
- `Text`: ASCII case folding.
- `History`: the bounded first-in-first-out buffer.
- `Stocks`, `Portfolios`, `Accounts`, `Markets`, `Trading`, `Persistence`: the trading platform.
- `Hotel`: the hotel.
- `Scenarios`: worked examples.

Points where the code's behaviour shapes the model:

- **Quantities.** `handleBuy` and `handleSell` parse the quantity and use it without validating it (StockTradingPlatform.java:331, 353). The model has no quantity error. A sell of a negative quantity is modelled as the code runs it: it grows the holding and credits a negative amount. The buy path takes `qty > 0` as a precondition.
- **Error names.** The model's error names follow the code's messages (StockTradingPlatform.java:333, 335, 338, 355, 357, 359): `UserNotFound`, `StockNotFound`, `InsufficientCash` and `InsufficientHoldings`.
- **Reloaded cash.** Replaying the dump gives every recreated user 10000 cash, not the cash the user had (StockTradingPlatform.java:231). The round-trip lemma states exactly that.

## Model

| member | source | states |
|---|---|---|
| `History.Append` | StockTradingPlatform.java:60-63 | appending keeps a history of at most 1000 entries within 1000, puts the new entry last, and evicts exactly the oldest entry when the history was full |
| `History.AppendToNewest` | StockTradingPlatform.java:60-63 | appending to the newest-1000 window of a sequence gives the newest-1000 window of the extended sequence |
| `History.AppendAllKeepsNewest` | StockTradingPlatform.java:60-63 | after any number of appends to a history within capacity, the history is exactly the most recent 1000 entries in insertion order |
| `Text.ToUpper` | StockTradingPlatform.java:41 | upper-casing keeps the length, leaves no lower-case ASCII letter, keeps every other character and shifts each lower-case letter to its capital |
| `Text.ToUpperIdempotent` | StockTradingPlatform.java:184 | upper-casing an already upper-cased symbol changes nothing |
| `Text.EqualsIgnoreCaseIffSameUpper` | HotelReservationSystem.java:78 | two names are equal ignoring case exactly when their upper-cased forms are equal |
| `Stocks.NewStock` | StockTradingPlatform.java:40-45 | a new stock has the upper-cased symbol, the given name and price, and exactly one history point, which is its initial price |
| `Stocks.Tick` | StockTradingPlatform.java:52-58 | for every draw in [-2, 2], the new price is never below 0.01, is either the floor or the stepped price, and is the newest history point; the capacity bound is kept and the symbol and name are unchanged |
| `Stocks.TickStaysNearPrice` | StockTradingPlatform.java:53-56 | a tick moves a non-negative price down by at most 2 percent, and up by at most 2 percent unless it lands on the floor |
| `Portfolios.EmptyPortfolio` | StockTradingPlatform.java:114 | a new portfolio belongs to its user and has no holdings and no snapshots |
| `Portfolios.Buy` | StockTradingPlatform.java:116-124 | a new symbol gets a holding at exactly the bought quantity and price; an existing one grows by the quantity and its quantity times average price grows by price times quantity; no other holding changes |
| `Portfolios.BuyKeepsNonNegative` | StockTradingPlatform.java:116-124 | buying a positive quantity keeps every quantity non-negative |
| `Portfolios.BuyKeepsValid` | StockTradingPlatform.java:116-124 | buying a positive quantity keeps every holding under its own symbol with a positive quantity |
| `Portfolios.BuyAll` | StockTradingPlatform.java:116-124 | after a non-empty run of positive buys the symbol is held with a positive quantity |
| `Portfolios.BuyAllKeepsCostBasis` | StockTradingPlatform.java:116-124 | after any non-empty run of buys on a symbol not held before, the quantity is the total bought and quantity times average price is the total paid |
| `Portfolios.BuyAllIsVolumeWeighted` | StockTradingPlatform.java:116-124 | the average price after such a run is the volume-weighted average of all buy prices |
| `Portfolios.Sell` | StockTradingPlatform.java:126-131 | the sell succeeds exactly when the symbol is held with at least the quantity; on failure nothing changes; on success the quantity drops by the amount sold, the average price is kept, the holding disappears exactly when it reaches zero, other holdings are untouched, and positivity and non-negativity of holdings are kept |
| `Portfolios.SellUndoesBuy` | StockTradingPlatform.java:116-131 | selling exactly what was just bought of a symbol not held before succeeds and gives back the original portfolio |
| `Portfolios.TakeSnapshot` | StockTradingPlatform.java:138-142 | the snapshot becomes the newest entry of the bounded snapshot history and the holdings are untouched |
| `Accounts.NewUser` | StockTradingPlatform.java:159-163 | a new user has the given id and cash and an empty portfolio under the same id |
| `Accounts.CanAfford` | StockTradingPlatform.java:168 | a user can afford an amount exactly when it exceeds the balance by at most 1e-9 |
| `Accounts.Debit` | StockTradingPlatform.java:170 | the balance drops by exactly the amount; id and portfolio are unchanged |
| `Accounts.Credit` | StockTradingPlatform.java:171 | the balance rises by exactly the amount; id and portfolio are unchanged |
| `Accounts.CreditUndoesDebit` | StockTradingPlatform.java:170-171 | a credit undoes a debit of the same amount and the other way round |
| `Accounts.DebitWithinTolerance` | StockTradingPlatform.java:168-170 | a user can afford an amount exactly when debiting it leaves at least -1e-9 |
| `Markets.AddStock` | StockTradingPlatform.java:183 | the stock is filed under its symbol, replacing any earlier one; other listings are kept; stocks stay filed under their own symbols |
| `Markets.GetStock` | StockTradingPlatform.java:184 | the lookup finds a stock exactly when one is filed under the upper-cased symbol, and then finds that one |
| `Markets.GetStockIgnoresCase` | StockTradingPlatform.java:184 | two spellings equal ignoring case find the same stock or both find none |
| `Markets.AddedStockIsFound` | StockTradingPlatform.java:183-184 | a stock created under any spelling and listed is found by every spelling equal to it ignoring case |
| `Markets.TickAll` | StockTradingPlatform.java:188-191 | one update cycle ticks every listed stock once, keeps the listed symbols, and leaves every price at or above 0.01 |
| `Trading.NewTransaction` | StockTradingPlatform.java:84-90 | a transaction records the user, signed quantity, price and time, with the symbol upper-cased |
| `Trading.HandleBuy` | StockTradingPlatform.java:325-345 | an unknown user, an unknown stock and an unaffordable cost are each refused exactly when they occur, and a refusal leaves all users unchanged; on success cash drops by exactly price times quantity, stays at least -1e-9, the portfolio is bought into at that same price, the transaction records it, and no other user changes |
| `Trading.HandleBuyKeepsNonNegative` | StockTradingPlatform.java:325-345 | after a buy no user in the table holds a negative quantity, if none did before |
| `Trading.HandleSell` | StockTradingPlatform.java:347-365 | an unknown user, an unknown stock and insufficient holdings are each refused exactly when they occur, and a refusal changes nothing; on success cash rises by exactly price times quantity, the portfolio is sold from, the transaction records minus the quantity, and no other user changes; a table where no one holds a negative quantity stays so |
| `Trading.SellUndoesBuyTrade` | StockTradingPlatform.java:325-365 | at an unchanged price, selling right back a fresh purchase succeeds and restores every account exactly |
| `Trading.Worth` | StockTradingPlatform.java:271-272 | a holding is worth quantity times current price, or nothing when the market does not list its symbol |
| `Trading.ValueOfRemove` | StockTradingPlatform.java:268-275 | the valuation sum does not depend on the order in which holdings are visited |
| `Trading.PortfolioValueOfOne` | StockTradingPlatform.java:268-275 | a portfolio with one holding is worth exactly that holding |
| `Trading.ComputePortfolioValue` | StockTradingPlatform.java:268-275 | the loop, in whatever order it visits the holdings, returns the portfolio's value |
| `Trading.TakeAllSnapshots` | StockTradingPlatform.java:261-266 | every user records a snapshot of holdings value plus cash, and nothing else about any user changes |
| `Persistence.RecordOf` | StockTradingPlatform.java:212-213 | the record of a holding carries the user id, symbol, quantity and average price |
| `Persistence.SavePortfolios` | StockTradingPlatform.java:208-217 | every record written comes from a holding, every holding is written, and for a well-formed user table each holding is written exactly once |
| `Persistence.LoadLine` | StockTradingPlatform.java:225-231 | a short line is skipped; otherwise the user is created with 10000 cash if unknown, and the record is bought into their portfolio; other users and existing cash are untouched |
| `Persistence.LoadPortfolios` | StockTradingPlatform.java:219-234 | replaying a dump adds exactly the users it names, keeps the cash of known users, gives new users 10000, and keeps quantities non-negative |
| `Persistence.LoadSkipsShortLines` | StockTradingPlatform.java:225-226 | replaying a dump equals replaying only its lines with four or more fields |
| `Persistence.LoadRestoresRecords` | StockTradingPlatform.java:224-231 | replaying records with distinct keys into an empty table holds exactly those records, each at its quantity and average price, with every user at 10000 cash |
| `Persistence.SaveLoadRoundTrip` | StockTradingPlatform.java:208-234 | replaying the dump of a well-formed user table brings back exactly the users that held something, each with the same holdings and 10000 cash |
| `Persistence.SaveAndReload` | StockTradingPlatform.java:208-234 | saving and then loading into an empty table restores every holding and resets cash to 10000 |
| `Hotel.NewRoom` | HotelReservationSystem.java:9-14 | a new room carries the given number, category and price and starts out free |
| `Hotel.InitialHotel` | HotelReservationSystem.java:42-49 | the hotel opens with five free rooms and no reservations |
| `Hotel.InitialHotelConsistent` | HotelReservationSystem.java:9-14 | the opening hotel satisfies the booking invariant and its room numbers are distinct |
| `Hotel.NewReservation` | HotelReservationSystem.java:23-28 | a reservation charges the room's price times the number of days |
| `Hotel.FindRoomFrom` | HotelReservationSystem.java:61-62 | the search returns the first free room with the number at or after a position, or reports that there is none |
| `Hotel.FindRoom` | HotelReservationSystem.java:61-62 | a free room with the number is found exactly when one exists, and it is the first such room |
| `Hotel.BookRoom` | HotelReservationSystem.java:60-72 | booking succeeds exactly when a free room has the number; on failure nothing changes; on success the first such room is marked booked and one reservation for it is appended; the room layout never changes |
| `Hotel.FindReservationFrom` | HotelReservationSystem.java:76-78 | the search returns the first reservation at or after a position that matches the name ignoring case and the room number, or reports that there is none |
| `Hotel.FindReservation` | HotelReservationSystem.java:76-78 | a matching reservation is found exactly when one exists, and it is the first one |
| `Hotel.CancelBooking` | HotelReservationSystem.java:74-86 | cancelling succeeds exactly when some reservation matches; on failure nothing changes; on success the first match is removed, the others keep their order, its room is freed and no other room changes |
| `Hotel.BookedIffHeldOnce` | HotelReservationSystem.java:60-86 | in a consistent hotel a booked room is held by exactly one reservation and a free room by none |
| `Hotel.BookRoomKeepsConsistent` | HotelReservationSystem.java:60-72 | booking preserves the invariant that a room is booked exactly when exactly one reservation holds it |
| `Hotel.CancelBookingKeepsConsistent` | HotelReservationSystem.java:74-86 | cancelling preserves the same invariant |
| `Hotel.NoDoubleBooking` | HotelReservationSystem.java:60-72 | with distinct room numbers, a room just booked cannot be booked again |
| `Hotel.CancelUndoesBook` | HotelReservationSystem.java:60-86 | with distinct room numbers, cancelling a booking just made, under the same name and number, gives back the hotel exactly as it was |
| `Hotel.ChangesKeepLayout` | HotelReservationSystem.java:60-86 | booking and cancelling keep room numbers distinct |
| `Scenarios.AliceBuysApple` | StockTradingPlatform.java:325-345 | buying 10 Apple at 170.00 with 10000.00 leaves 8300.00 and a holding of 10 at 170.00 |
| `Scenarios.AliceOversells` | StockTradingPlatform.java:347-359 | then selling 15 is refused for insufficient holdings and nothing changes |
| `Scenarios.TwoBuysAverage` | StockTradingPlatform.java:116-124 | 10 at 100.00 and then 10 at 200.00 make 20 at an average of 150.00 |
| `Scenarios.SnapshotValue` | StockTradingPlatform.java:261-275 | 20 Apple at 160.00 plus 5000.00 cash is valued at 8200.00 |
| `Scenarios.BookAndCancelRoom101` | HotelReservationSystem.java:60-86 | room 101 books once for 2000 per day, cannot be booked twice, and a cancellation under the name in capitals restores the opening hotel |

## Left out

- Threads and scheduling. The model is sequential: the scheduled executors, `startAutoUpdate`, `stop`, `shutdown` and `synchronized`. Each scheduled cycle is one call (`Markets.TickAll`, `Trading.TakeAllSnapshots`).
- The race between `canAfford` and `debit` in `handleBuy`, and the two separate price reads in `handleSell` (StockTradingPlatform.java:360, 362). Neither can be expressed without concurrency. The model reads each price once.
- `java.util.Random`: the percentage drawn in `tick` is the parameter `pct`.
- IEEE double rounding: money and prices are exact `real`s, and the 1e-9 tolerance is a `real` constant.
- Clock readings: every timestamp is an abstract `now` supplied by the caller.
- Text and files:
  - `Transaction.toCSV` and the transaction log file (`saveTransaction`);
  - splitting lines, `Integer.parseInt` and `Double.parseDouble` with their exceptions;
  - writing and reading `portfolios.csv`, including the missing-file case, which behaves like an empty dump.

  The dump is modelled as a sequence of records. A line with fewer than four fields is the record `Short`.
- Console glue:
  - the menus and `main` loops;
  - `userMenu` registration, `accountMenu`, `showHoldings`, `showTransactionsForUser`;
  - `handleHistory` and `handleDetail` with their CSV export, and `exportPortfolioSnapshots`;
  - `showAvailableRooms`, `showAllBookings` and `Reservation.showDetails`.

  These only print or prompt.
- `seedMarket`'s five listings: the scenarios list only Apple, which is enough for the worked examples in `Scenarios`.
- `getHoldings`, `getHistory` and `getSnapshots` return copies in Java. In the model every value is immutable, so a copy is the value itself.
- 32-bit `int` overflow of quantities and `h.quantity + qty`: quantities are unbounded integers.
- Case folding beyond ASCII: `toUpperCase` and `equalsIgnoreCase` are modelled on ASCII letters only.
- `Trading.HandleBuy`: requires `qty > 0`. The code does not validate quantities (StockTradingPlatform.java:331), so a non-positive quantity is outside the model rather than given invented behaviour. It also requires the buyer's portfolio to hold no negative quantity (`Portfolios.NonNegative`). That holds in every reachable state: `Persistence.LoadPortfolios` produces such portfolios, and buys and sells keep every portfolio in the table that way (`Trading.HandleBuyKeepsNonNegative` and the last ensures of `Trading.HandleSell`).
- `Portfolios.Buy`: requires `qty > 0`, and an existing quantity that is not negative. Every modelled caller passes a positive quantity: `Trading.HandleBuy`, and `Persistence.LoadPortfolios` through `Replayable`. In Java a non-positive quantity for a new symbol stores a non-positive holding (StockTradingPlatform.java:118). On an existing holding it divides by zero when `h.quantity + qty` is 0 (StockTradingPlatform.java:120).
- `Persistence.LoadPortfolios`: requires every record with fields to carry a positive quantity. The Java replays whatever quantity it parses.
- `Persistence.SaveLoadRoundTrip`: stated for a dump listing every holding exactly once. `SavePortfolios` produces such a dump, and `Persistence.SaveAndReload` chains the two. The round trip holds at record level only. An id or symbol containing a comma shifts the fields when the line is split (StockTradingPlatform.java:225). `Integer.parseInt` then throws a `NumberFormatException` (StockTradingPlatform.java:229), which the handler for `IOException` does not catch (StockTradingPlatform.java:233).
- `Hotel.BookRoom`: the number of days is not validated, exactly as in the code. A non-positive stay gives a non-positive `totalAmount`.
- `Hotel.NoDoubleBooking`: assumes distinct room numbers, which the opening hotel has and which booking and cancelling keep. With duplicate numbers the code books the next free room carrying that number.
- `Hotel.CancelUndoesBook`: assumes distinct room numbers for the same reason. With duplicates an earlier reservation on another room with the same number would be cancelled first.
