/** The holdings dump written on save and replayed on start-up, at the level of
    records: one record per holding, `(user id, symbol, quantity, average
    price)`. Turning records into text and back is not modelled. */
module Persistence {
  import Portfolios
  import Accounts

  /** One line of the dump as read back: `Short` is a line that splits into
      fewer than four fields (skipped on load); `Fields` carries the first four. */
  datatype Line = Short | Fields(userId: string, symbol: string, quantity: int, avgPrice: real)

  /** The record written for holding `h` of user `u`. */
  function RecordOf(u: Accounts.User, h: Portfolios.Holding): (l: Line)
    ensures l.Fields? && l.userId == u.id && l.symbol == h.symbol
    ensures l.quantity == h.quantity && l.avgPrice == h.avgPrice
  {
    Fields(u.id, h.symbol, h.quantity, h.avgPrice)
  }

  /** The user table as the platform keeps it: every user is filed under its
      own id and every portfolio satisfies the holding invariant. */
  predicate WellFormed(users: map<string, Accounts.User>)
  {
    forall id :: id in users ==> users[id].id == id && Portfolios.Valid(users[id].portfolio)
  }

  /** `line` is the record of some holding of some user. */
  ghost predicate FromUsers(line: Line, users: map<string, Accounts.User>)
  {
    exists id, s :: id in users && s in users[id].portfolio.holdings &&
      line == RecordOf(users[id], users[id].portfolio.holdings[s])
  }

  /** The holding filed under `s` of user `id` has its record among the first `n` lines. */
  ghost predicate Recorded(dump: seq<Line>, n: int, users: map<string, Accounts.User>, id: string, s: string)
    requires id in users && s in users[id].portfolio.holdings
  {
    exists i :: 0 <= i < n && i < |dump| && dump[i] == RecordOf(users[id], users[id].portfolio.holdings[s])
  }

  /** No two records are about the same user and symbol. */
  ghost predicate DistinctKeys(dump: seq<Line>)
  {
    forall i, j :: 0 <= i < |dump| && 0 <= j < |dump| && i != j && dump[i].Fields? && dump[j].Fields? ==>
      dump[i].userId != dump[j].userId || dump[i].symbol != dump[j].symbol
  }

  /** `dump` lists every holding of every user exactly once, and nothing else. */
  ghost predicate IsDumpOf(dump: seq<Line>, users: map<string, Accounts.User>)
  {
    && AllFromUsers(dump, users)
    && (forall id, s :: id in users && s in users[id].portfolio.holdings ==> Recorded(dump, |dump|, users, id, s))
    && DistinctKeys(dump)
  }

  /** Every line of `dump` is the record of some holding of some user. */
  ghost predicate AllFromUsers(dump: seq<Line>, users: map<string, Accounts.User>)
  {
    forall i :: 0 <= i < |dump| ==> FromUsers(dump[i], users)
  }

  /** The holdings of user `id` filed under `symbols` all have their records in `dump`. */
  ghost predicate CoversUser(dump: seq<Line>, users: map<string, Accounts.User>, id: string, symbols: set<string>)
  {
    id in users && forall s :: s in symbols && s in users[id].portfolio.holdings ==> Recorded(dump, |dump|, users, id, s)
  }

  /** Every line of `dump` is about a user in `ids`, or about user `id` and a symbol in `symbols`. */
  ghost predicate KeysWithin(dump: seq<Line>, ids: set<string>, id: string, symbols: set<string>)
  {
    forall i :: 0 <= i < |dump| ==>
      dump[i].Fields? && (dump[i].userId in ids || (dump[i].userId == id && dump[i].symbol in symbols))
  }

  /** What the save loop has achieved once it has written every holding of the
      users in `done`, and the holdings of user `id` filed under `symbols`. */
  ghost predicate SaveProgress(users: map<string, Accounts.User>, dump: seq<Line>, done: set<string>,
                               id: string, symbols: set<string>)
  {
    && AllFromUsers(dump, users)
    && (forall id' :: id' in done ==> id' in users && CoversUser(dump, users, id', users[id'].portfolio.holdings.Keys))
    && (id in users ==> CoversUser(dump, users, id, symbols))
    && (WellFormed(users) ==> DistinctKeys(dump) && KeysWithin(dump, done, id, symbols))
  }

  /** Writing the record of holding `s` of user `id` extends the progress by `s`. */
  lemma SaveStep(users: map<string, Accounts.User>, dump: seq<Line>, done: set<string>,
                 id: string, symbols: set<string>, s: string)
    requires SaveProgress(users, dump, done, id, symbols)
    requires id in users && id !in done && s in users[id].portfolio.holdings && s !in symbols
    ensures SaveProgress(users, dump + [RecordOf(users[id], users[id].portfolio.holdings[s])], done, id, symbols + {s})
  {
    var line := RecordOf(users[id], users[id].portfolio.holdings[s]);
    var dump' := dump + [line];
    assert FromUsers(line, users);
    assert AllFromUsers(dump', users) by {
      forall i | 0 <= i < |dump'| ensures FromUsers(dump'[i], users) {
        if i < |dump| { assert dump'[i] == dump[i]; }
      }
    }
    RecordedGrows(dump, dump', users);
    assert Recorded(dump', |dump'|, users, id, s) by {
      assert dump'[|dump|] == line;
    }
    if WellFormed(users) {
      assert line.userId == id && line.symbol == s;
      forall i, j | 0 <= i < |dump'| && 0 <= j < |dump'| && i != j && dump'[i].Fields? && dump'[j].Fields?
        ensures dump'[i].userId != dump'[j].userId || dump'[i].symbol != dump'[j].symbol
      {
        if i < |dump| && j < |dump| {
          assert dump'[i] == dump[i] && dump'[j] == dump[j];
        } else if i < |dump| {
          assert dump'[i] == dump[i];
        } else {
          assert dump'[j] == dump[j];
        }
      }
      assert KeysWithin(dump', done, id, symbols + {s}) by {
        forall i | 0 <= i < |dump'| ensures dump'[i].Fields? &&
          (dump'[i].userId in done || (dump'[i].userId == id && dump'[i].symbol in symbols + {s}))
        {
          if i < |dump| { assert dump'[i] == dump[i]; }
        }
      }
    }
  }

  /** Once every holding of user `id` is written, `id` joins the finished users. */
  lemma FinishUser(users: map<string, Accounts.User>, dump: seq<Line>, done: set<string>, id: string, other: string)
    requires id in users
    requires SaveProgress(users, dump, done, id, users[id].portfolio.holdings.Keys)
    ensures SaveProgress(users, dump, done + {id}, other, {})
  {
  }

  /** Write one record per holding of every user. Users and holdings come out
      in no particular order. */
  method SavePortfolios(users: map<string, Accounts.User>) returns (dump: seq<Line>)
    ensures AllFromUsers(dump, users)
    ensures forall id, s :: id in users && s in users[id].portfolio.holdings ==> Recorded(dump, |dump|, users, id, s)
    ensures WellFormed(users) ==> IsDumpOf(dump, users)
  {
    dump := [];
    var restUsers := users.Keys;
    ghost var done: set<string> := {};
    ghost var anyone: string := "";
    while restUsers != {}
      invariant restUsers <= users.Keys && done == users.Keys - restUsers
      invariant SaveProgress(users, dump, done, anyone, {})
      decreases restUsers
    {
      var id :| id in restUsers;
      var u := users[id];
      var restSymbols := u.portfolio.holdings.Keys;
      ghost var written: set<string> := {};
      assert SaveProgress(users, dump, done, id, written);
      while restSymbols != {}
        invariant restSymbols <= u.portfolio.holdings.Keys
        invariant written == u.portfolio.holdings.Keys - restSymbols
        invariant SaveProgress(users, dump, done, id, written)
        decreases restSymbols
      {
        var s :| s in restSymbols;
        SaveStep(users, dump, done, id, written, s);
        dump := dump + [RecordOf(u, u.portfolio.holdings[s])];
        written := written + {s};
        restSymbols := restSymbols - {s};
      }
      FinishUser(users, dump, done, id, anyone);
      done := done + {id};
      restUsers := restUsers - {id};
    }
  }

  /** Appending to a dump keeps every record it already had. */
  lemma RecordedGrows(before: seq<Line>, after: seq<Line>, users: map<string, Accounts.User>)
    requires |before| <= |after| && after[..|before|] == before
    ensures forall id, s :: id in users && s in users[id].portfolio.holdings && Recorded(before, |before|, users, id, s) ==>
      Recorded(after, |after|, users, id, s)
  {
    forall id, s | id in users && s in users[id].portfolio.holdings && Recorded(before, |before|, users, id, s)
      ensures Recorded(after, |after|, users, id, s)
    {
      var i :| 0 <= i < |before| && before[i] == RecordOf(users[id], users[id].portfolio.holdings[s]);
      assert after[i] == before[i];
    }
  }

  /** A record that `Buy` can replay: a line with fields carries a positive quantity. */
  predicate Replayable(line: Line)
  {
    line.Fields? ==> line.quantity > 0
  }

  /** The user ids named by the lines that have fields. */
  function LineIds(lines: seq<Line>): set<string>
    decreases |lines|
  {
    if |lines| == 0 then {}
    else
      var last := lines[|lines| - 1];
      LineIds(lines[..|lines| - 1]) + (if last.Fields? then {last.userId} else {})
  }

  /** Replay one line: a short line is skipped; otherwise the user is created
      with the starting cash if unknown, and the record is bought into their
      portfolio at its recorded average price. */
  function LoadLine(users: map<string, Accounts.User>, line: Line): (r: map<string, Accounts.User>)
    requires Replayable(line) && Accounts.AllNonNegative(users)
    ensures Accounts.AllNonNegative(r)
    ensures line.Short? ==> r == users
    ensures line.Fields? ==> r.Keys == users.Keys + {line.userId}
    ensures forall id :: id in users ==> r[id].id == users[id].id && r[id].cash == users[id].cash
    ensures forall id :: id in users && (line.Short? || id != line.userId) ==> r[id] == users[id]
    ensures line.Fields? && line.userId !in users ==>
      r[line.userId].id == line.userId && r[line.userId].cash == Accounts.StartingCash
    ensures line.Fields? ==>
      var before := if line.userId in users then users[line.userId].portfolio
                    else Portfolios.EmptyPortfolio(line.userId);
      r[line.userId].portfolio == Portfolios.Buy(before, line.symbol, line.quantity, line.avgPrice)
  {
    match line
    case Short => users
    case Fields(id, symbol, qty, avg) =>
      var u := if id in users then users[id] else Accounts.NewUser(id, Accounts.StartingCash);
      Portfolios.BuyKeepsNonNegative(u.portfolio, symbol, qty, avg);
      users[id := u.(portfolio := Portfolios.Buy(u.portfolio, symbol, qty, avg))]
  }

  /** Replay a whole dump, first line first, into `users`. Users named in the
      dump and not yet known are created with the starting cash; known users
      keep their cash. */
  function LoadPortfolios(lines: seq<Line>, users: map<string, Accounts.User>): (r: map<string, Accounts.User>)
    requires forall i :: 0 <= i < |lines| ==> Replayable(lines[i])
    requires Accounts.AllNonNegative(users)
    ensures Accounts.AllNonNegative(r)
    ensures r.Keys == users.Keys + LineIds(lines)
    ensures forall id :: id in users ==> r[id].id == users[id].id && r[id].cash == users[id].cash
    ensures forall id :: id in r && id !in users ==> r[id].id == id && r[id].cash == Accounts.StartingCash
    decreases |lines|
  {
    if |lines| == 0 then users
    else
      LoadLine(LoadPortfolios(lines[..|lines| - 1], users), lines[|lines| - 1])
  }

  /** The lines of `lines` that have fields, in order. */
  function FieldsOnly(lines: seq<Line>): (r: seq<Line>)
    ensures forall i :: 0 <= i < |r| ==> r[i].Fields?
    ensures (forall i :: 0 <= i < |lines| ==> Replayable(lines[i])) ==>
              forall i :: 0 <= i < |r| ==> Replayable(r[i])
    decreases |lines|
  {
    if |lines| == 0 then []
    else
      var init := FieldsOnly(lines[..|lines| - 1]);
      if lines[|lines| - 1].Short? then init else init + [lines[|lines| - 1]]
  }

  /** Replaying one more line after a dump is replaying the longer dump. */
  lemma LoadAppend(lines: seq<Line>, last: Line, users: map<string, Accounts.User>)
    requires forall i :: 0 <= i < |lines| ==> Replayable(lines[i])
    requires Replayable(last) && Accounts.AllNonNegative(users)
    ensures forall i :: 0 <= i < |lines + [last]| ==> Replayable((lines + [last])[i])
    ensures LoadPortfolios(lines + [last], users) == LoadLine(LoadPortfolios(lines, users), last)
  {
    assert (lines + [last])[..|lines|] == lines;
  }

  /** Lines with fewer than four fields have no effect: replaying a dump is
      the same as replaying only its lines with fields. */
  lemma {:induction false} LoadSkipsShortLines(lines: seq<Line>, users: map<string, Accounts.User>)
    requires forall i :: 0 <= i < |lines| ==> Replayable(lines[i])
    requires Accounts.AllNonNegative(users)
    ensures LoadPortfolios(lines, users) == LoadPortfolios(FieldsOnly(lines), users)
    decreases |lines|
  {
    if |lines| > 0 {
      var init, last := lines[..|lines| - 1], lines[|lines| - 1];
      assert forall i :: 0 <= i < |init| ==> init[i] == lines[i];
      LoadSkipsShortLines(init, users);
      if last.Fields? {
        LoadAppend(FieldsOnly(init), last, users);
      }
    }
  }

  /** Every user in `r` is filed under its id and has the starting cash. */
  ghost predicate FreshAccounts(r: map<string, Accounts.User>)
  {
    forall id :: id in r ==> r[id].id == id && r[id].cash == Accounts.StartingCash
  }

  /** Every record of `lines` is held in `r` with exactly its quantity and average price. */
  ghost predicate HoldsRecords(r: map<string, Accounts.User>, lines: seq<Line>)
    requires forall i :: 0 <= i < |lines| ==> lines[i].Fields?
  {
    forall i :: 0 <= i < |lines| ==>
      && lines[i].userId in r
      && lines[i].symbol in r[lines[i].userId].portfolio.holdings
      && r[lines[i].userId].portfolio.holdings[lines[i].symbol]
           == Portfolios.Holding(lines[i].symbol, lines[i].quantity, lines[i].avgPrice)
  }

  /** Every holding in `r` comes from some record of `lines`. */
  ghost predicate OnlyRecords(r: map<string, Accounts.User>, lines: seq<Line>)
    requires forall i :: 0 <= i < |lines| ==> lines[i].Fields?
  {
    forall id, s :: id in r && s in r[id].portfolio.holdings ==>
      exists i :: 0 <= i < |lines| && lines[i].userId == id && lines[i].symbol == s
  }

  /** After replaying distinct records into an empty table, every user has the
      starting cash, every record's holding is present with exactly its
      quantity and average price, and nothing else is held. */
  ghost predicate Restored(r: map<string, Accounts.User>, lines: seq<Line>)
    requires forall i :: 0 <= i < |lines| ==> lines[i].Fields?
  {
    FreshAccounts(r) && HoldsRecords(r, lines) && OnlyRecords(r, lines)
  }

  /** Replaying a record whose (user, symbol) key is not yet held adds exactly
      that holding, at the record's quantity and average price, and leaves
      every other holding as it was. */
  lemma LoadLineAddsHolding(before: map<string, Accounts.User>, line: Line, id: string, s: string)
    requires line.Fields? && line.quantity > 0 && Accounts.AllNonNegative(before)
    requires line.userId in before ==> line.symbol !in before[line.userId].portfolio.holdings
    ensures var after := LoadLine(before, line);
      && (id in after && s in after[id].portfolio.holdings <==>
            (id in before && s in before[id].portfolio.holdings) || (id == line.userId && s == line.symbol))
      && (id == line.userId && s == line.symbol ==>
            after[id].portfolio.holdings[s] == Portfolios.Holding(line.symbol, line.quantity, line.avgPrice))
      && (id in before && s in before[id].portfolio.holdings && (id != line.userId || s != line.symbol) ==>
            after[id].portfolio.holdings[s] == before[id].portfolio.holdings[s])
  {
  }

  /** A record whose key differs from every earlier record's is not yet held. */
  lemma FreshKey(before: map<string, Accounts.User>, init: seq<Line>, last: Line)
    requires forall i :: 0 <= i < |init| ==> init[i].Fields?
    requires last.Fields? && OnlyRecords(before, init)
    requires forall i :: 0 <= i < |init| ==> init[i].userId != last.userId || init[i].symbol != last.symbol
    ensures last.userId in before ==> last.symbol !in before[last.userId].portfolio.holdings
  {
  }

  lemma HoldsRecordsStep(before: map<string, Accounts.User>, init: seq<Line>, last: Line)
    requires forall i :: 0 <= i < |init| ==> init[i].Fields?
    requires last.Fields? && last.quantity > 0 && Accounts.AllNonNegative(before)
    requires last.userId in before ==> last.symbol !in before[last.userId].portfolio.holdings
    requires HoldsRecords(before, init)
    requires forall i :: 0 <= i < |init| ==> init[i].userId != last.userId || init[i].symbol != last.symbol
    ensures forall i :: 0 <= i < |init + [last]| ==> (init + [last])[i].Fields?
    ensures HoldsRecords(LoadLine(before, last), init + [last])
  {
    var lines := init + [last];
    var after := LoadLine(before, last);
    forall i | 0 <= i < |lines|
      ensures lines[i].userId in after
      ensures lines[i].symbol in after[lines[i].userId].portfolio.holdings
      ensures after[lines[i].userId].portfolio.holdings[lines[i].symbol]
              == Portfolios.Holding(lines[i].symbol, lines[i].quantity, lines[i].avgPrice)
    {
      LoadLineAddsHolding(before, last, lines[i].userId, lines[i].symbol);
      if i < |init| {
        assert lines[i] == init[i];
      }
    }
  }

  lemma OnlyRecordsStep(before: map<string, Accounts.User>, init: seq<Line>, last: Line)
    requires forall i :: 0 <= i < |init| ==> init[i].Fields?
    requires last.Fields? && last.quantity > 0 && Accounts.AllNonNegative(before)
    requires last.userId in before ==> last.symbol !in before[last.userId].portfolio.holdings
    requires OnlyRecords(before, init)
    ensures forall i :: 0 <= i < |init + [last]| ==> (init + [last])[i].Fields?
    ensures OnlyRecords(LoadLine(before, last), init + [last])
  {
    var lines := init + [last];
    var after := LoadLine(before, last);
    forall id, s | id in after && s in after[id].portfolio.holdings
      ensures exists i :: 0 <= i < |lines| && lines[i].userId == id && lines[i].symbol == s
    {
      LoadLineAddsHolding(before, last, id, s);
      if id == last.userId && s == last.symbol {
        assert lines[|init|] == last;
      } else {
        var i :| 0 <= i < |init| && init[i].userId == id && init[i].symbol == s;
        assert lines[i] == init[i];
      }
    }
  }

  /** Replaying records with distinct (user, symbol) keys into an empty table
      recreates exactly those holdings. */
  lemma {:induction false} LoadRestoresRecords(lines: seq<Line>)
    requires forall i :: 0 <= i < |lines| ==> lines[i].Fields? && lines[i].quantity > 0
    requires DistinctKeys(lines)
    ensures Restored(LoadPortfolios(lines, map[]), lines)
    decreases |lines|
  {
    if |lines| > 0 {
      var init, last := lines[..|lines| - 1], lines[|lines| - 1];
      assert lines == init + [last];
      assert DistinctKeys(init) by {
        forall i, j | 0 <= i < |init| && 0 <= j < |init| && i != j
          ensures init[i].userId != init[j].userId || init[i].symbol != init[j].symbol
        {
          assert init[i] == lines[i] && init[j] == lines[j];
        }
      }
      LoadRestoresRecords(init);
      forall i | 0 <= i < |init|
        ensures init[i].userId != last.userId || init[i].symbol != last.symbol
      {
        assert init[i] == lines[i];
      }
      var before := LoadPortfolios(init, map[]);
      FreshKey(before, init, last);
      HoldsRecordsStep(before, init, last);
      OnlyRecordsStep(before, init, last);
    }
  }

  /** A user id is named by some line with fields exactly when it is in `LineIds`. */
  lemma {:induction false} LineIdsNamed(lines: seq<Line>, id: string)
    ensures id in LineIds(lines) <==> exists i :: 0 <= i < |lines| && lines[i].Fields? && lines[i].userId == id
    decreases |lines|
  {
    if |lines| > 0 {
      var init := lines[..|lines| - 1];
      LineIdsNamed(init, id);
      if exists i :: 0 <= i < |init| && init[i].Fields? && init[i].userId == id {
        var i :| 0 <= i < |init| && init[i].Fields? && init[i].userId == id;
        assert lines[i] == init[i];
      }
      if exists i :: 0 <= i < |lines| && lines[i].Fields? && lines[i].userId == id {
        var i :| 0 <= i < |lines| && lines[i].Fields? && lines[i].userId == id;
        if i < |init| {
          assert init[i] == lines[i];
        }
      }
    }
  }

  /** In a well-formed user table, a record names the very user and symbol it
      was written from. */
  lemma RecordNamesItsHolding(users: map<string, Accounts.User>, line: Line)
    requires WellFormed(users) && FromUsers(line, users)
    ensures line.Fields? && line.userId in users && line.symbol in users[line.userId].portfolio.holdings
    ensures line == RecordOf(users[line.userId], users[line.userId].portfolio.holdings[line.symbol])
    ensures line.quantity > 0
  {
    var id, s :| id in users && s in users[id].portfolio.holdings &&
      line == RecordOf(users[id], users[id].portfolio.holdings[s]);
    assert users[id].id == id && users[id].portfolio.holdings[s].symbol == s;
  }

  /** Every line of `dump` is the record of the holding it names. */
  ghost predicate NamesHoldings(dump: seq<Line>, users: map<string, Accounts.User>)
  {
    forall i :: 0 <= i < |dump| ==>
      && dump[i].Fields? && dump[i].quantity > 0
      && dump[i].userId in users && dump[i].symbol in users[dump[i].userId].portfolio.holdings
      && dump[i] == RecordOf(users[dump[i].userId], users[dump[i].userId].portfolio.holdings[dump[i].symbol])
  }

  lemma DumpNamesHoldings(users: map<string, Accounts.User>, dump: seq<Line>)
    requires WellFormed(users) && AllFromUsers(dump, users)
    ensures NamesHoldings(dump, users)
  {
    forall i | 0 <= i < |dump|
      ensures dump[i].Fields? && dump[i].quantity > 0
      ensures dump[i].userId in users && dump[i].symbol in users[dump[i].userId].portfolio.holdings
      ensures dump[i] == RecordOf(users[dump[i].userId], users[dump[i].userId].portfolio.holdings[dump[i].symbol])
    {
      RecordNamesItsHolding(users, dump[i]);
    }
  }

  /** A user is named in a dump exactly when it held something. */
  lemma NamedIffHolder(users: map<string, Accounts.User>, dump: seq<Line>, id: string)
    requires WellFormed(users) && NamesHoldings(dump, users)
    requires forall id, s :: id in users && s in users[id].portfolio.holdings ==> Recorded(dump, |dump|, users, id, s)
    ensures id in LineIds(dump) ==> id in users && users[id].portfolio.holdings != map[]
    ensures id in users && users[id].portfolio.holdings != map[] ==> id in LineIds(dump)
  {
    LineIdsNamed(dump, id);
    if id in LineIds(dump) {
      var i :| 0 <= i < |dump| && dump[i].Fields? && dump[i].userId == id;
      var s := dump[i].symbol;
      assert s in users[id].portfolio.holdings;
    }
    if id in users && users[id].portfolio.holdings != map[] {
      var s :| s in users[id].portfolio.holdings;
      assert Recorded(dump, |dump|, users, id, s);
      var i :| 0 <= i < |dump| && dump[i] == RecordOf(users[id], users[id].portfolio.holdings[s]);
      assert dump[i].Fields? && dump[i].userId == users[id].id;
      assert users[id].id == id;
    }
  }

  /** The users a replay brings back are exactly the users that held something. */
  lemma RestoredUsers(users: map<string, Accounts.User>, dump: seq<Line>, r: map<string, Accounts.User>)
    requires WellFormed(users) && NamesHoldings(dump, users)
    requires forall id, s :: id in users && s in users[id].portfolio.holdings ==> Recorded(dump, |dump|, users, id, s)
    requires r.Keys == LineIds(dump)
    ensures forall id :: id in r <==> id in users && users[id].portfolio.holdings != map[]
  {
    forall id
      ensures id in r <==> id in users && users[id].portfolio.holdings != map[]
    {
      NamedIffHolder(users, dump, id);
    }
  }

  /** Each user a replay brings back holds exactly what it held when saved. */
  lemma RestoredHoldings(users: map<string, Accounts.User>, dump: seq<Line>, r: map<string, Accounts.User>)
    requires WellFormed(users) && NamesHoldings(dump, users)
    requires forall id, s :: id in users && s in users[id].portfolio.holdings ==> Recorded(dump, |dump|, users, id, s)
    requires HoldsRecords(r, dump) && OnlyRecords(r, dump)
    requires forall id :: id in r ==> id in users
    ensures forall id :: id in r ==> r[id].portfolio.holdings == users[id].portfolio.holdings
  {
    forall id | id in r
      ensures r[id].portfolio.holdings == users[id].portfolio.holdings
    {
      var mine, theirs := r[id].portfolio.holdings, users[id].portfolio.holdings;
      forall s | s in mine
        ensures s in theirs && mine[s] == theirs[s]
      {
        var i :| 0 <= i < |dump| && dump[i].userId == id && dump[i].symbol == s;
      }
      forall s | s in theirs
        ensures s in mine
      {
        assert Recorded(dump, |dump|, users, id, s);
        var i :| 0 <= i < |dump| && dump[i] == RecordOf(users[id], theirs[s]);
        assert dump[i].userId == id && dump[i].symbol == s;
      }
    }
  }

  /** `r` brings back exactly the users of `users` that held something, each
      under its own id, with the starting cash and with the holdings it had. */
  ghost predicate Reloaded(users: map<string, Accounts.User>, r: map<string, Accounts.User>)
  {
    && (forall id :: id in r <==> id in users && users[id].portfolio.holdings != map[])
    && (forall id :: id in r && id in users ==>
          r[id].id == id && r[id].cash == Accounts.StartingCash && r[id].portfolio.holdings == users[id].portfolio.holdings)
  }

  /** Every line of `dump` has fields and a positive quantity. */
  ghost predicate AllRecords(dump: seq<Line>)
  {
    forall i :: 0 <= i < |dump| ==> dump[i].Fields? && dump[i].quantity > 0
  }

  /** What a save guarantees about its dump: every line is the record of the
      holding it names, no holding is recorded twice, and every holding is recorded. */
  ghost predicate DumpFacts(users: map<string, Accounts.User>, dump: seq<Line>)
  {
    && WellFormed(users) && NamesHoldings(dump, users) && DistinctKeys(dump)
    && forall id, s :: id in users && s in users[id].portfolio.holdings ==> Recorded(dump, |dump|, users, id, s)
  }

  lemma NamedAreRecords(users: map<string, Accounts.User>, dump: seq<Line>)
    requires NamesHoldings(dump, users)
    ensures AllRecords(dump)
  {
  }

  /** Replaying distinct records into an empty table gives a table restored from them. */
  lemma ReplayedDump(dump: seq<Line>)
    requires AllRecords(dump) && DistinctKeys(dump)
    ensures forall i :: 0 <= i < |dump| ==> Replayable(dump[i])
    ensures Restored(LoadPortfolios(dump, map[]), dump)
    ensures LoadPortfolios(dump, map[]).Keys == LineIds(dump)
  {
    LoadRestoresRecords(dump);
  }

  /** A table restored from the dump of `users` holds what `users` held. */
  lemma RestoredFrom(users: map<string, Accounts.User>, dump: seq<Line>, r: map<string, Accounts.User>)
    requires DumpFacts(users, dump) && AllRecords(dump)
    requires Restored(r, dump) && r.Keys == LineIds(dump)
    ensures Reloaded(users, r)
  {
    RestoredUsers(users, dump, r);
    RestoredHoldings(users, dump, r);
  }

  /** Replaying a dump whose records name distinct holdings of `users`, and
      name all of them, brings `users` back. */
  lemma ReplayRestores(users: map<string, Accounts.User>, dump: seq<Line>)
    requires DumpFacts(users, dump)
    ensures forall i :: 0 <= i < |dump| ==> Replayable(dump[i])
    ensures Reloaded(users, LoadPortfolios(dump, map[]))
  {
    NamedAreRecords(users, dump);
    ReplayedDump(dump);
    RestoredFrom(users, dump, LoadPortfolios(dump, map[]));
  }

  /** Saving a well-formed user table and replaying the dump into an empty
      table restores every holding with its quantity and average price. The
      users that come back are exactly those that held something, and each
      comes back with the starting cash, not the cash it had. */
  lemma SaveLoadRoundTrip(users: map<string, Accounts.User>, dump: seq<Line>)
    requires WellFormed(users) && IsDumpOf(dump, users)
    ensures forall i :: 0 <= i < |dump| ==> Replayable(dump[i])
    ensures Reloaded(users, LoadPortfolios(dump, map[]))
  {
    DumpNamesHoldings(users, dump);
    assert DumpFacts(users, dump);
    ReplayRestores(users, dump);
  }

  /** Shutting down and starting again: the holdings dump of a well-formed user
      table, replayed into an empty table, gives back every holding, and every
      returning user starts over with the starting cash. */
  method SaveAndReload(users: map<string, Accounts.User>) returns (restored: map<string, Accounts.User>)
    requires WellFormed(users)
    ensures forall id :: id in restored <==> id in users && users[id].portfolio.holdings != map[]
    ensures forall id :: id in restored && id in users ==>
      && restored[id].id == id
      && restored[id].cash == Accounts.StartingCash
      && restored[id].portfolio.holdings == users[id].portfolio.holdings
  {
    var dump := SavePortfolios(users);
    SaveLoadRoundTrip(users, dump);
    restored := LoadPortfolios(dump, map[]);
  }
}
