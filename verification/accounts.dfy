/** A user account: an id, a cash balance and the user's portfolio. */
module Accounts {
  import Portfolios

  /** Cash a newly created user starts with. */
  const StartingCash: real := 10000.0

  /** Tolerance for floating-point rounding in the affordability check (1e-9). */
  const Epsilon: real := 0.000000001

  datatype User = User(id: string, cash: real, portfolio: Portfolios.Portfolio)

  /** A new user with the given starting cash and an empty portfolio under its id. */
  function NewUser(id: string, startingCash: real): (u: User)
    ensures u.id == id && u.cash == startingCash
    ensures u.portfolio == Portfolios.EmptyPortfolio(id)
  {
    User(id, startingCash, Portfolios.EmptyPortfolio(id))
  }

  /** The user can pay `amount` when the balance falls short of it by at most
      `Epsilon`. */
  function CanAfford(u: User, amount: real): (b: bool)
    ensures b <==> amount - u.cash <= Epsilon
  {
    u.cash + Epsilon >= amount
  }

  /** No portfolio in the user table holds a negative quantity of anything. */
  predicate AllNonNegative(users: map<string, User>)
  {
    forall id :: id in users ==> Portfolios.NonNegative(users[id].portfolio)
  }

  /** Replacing one account by an account with no negative holding keeps the
      whole table free of negative holdings. */
  lemma UpdateKeepsAllNonNegative(users: map<string, User>, id: string, u: User)
    ensures AllNonNegative(users) && Portfolios.NonNegative(u.portfolio) ==> AllNonNegative(users[id := u])
  {
  }

  /** Take `amount` out of the balance; no check is made here. */
  function Debit(u: User, amount: real): (r: User)
    ensures r.id == u.id && r.portfolio == u.portfolio
    ensures u.cash - r.cash == amount
  {
    u.(cash := u.cash - amount)
  }

  /** Put `amount` into the balance. */
  function Credit(u: User, amount: real): (r: User)
    ensures r.id == u.id && r.portfolio == u.portfolio
    ensures r.cash - u.cash == amount
  {
    u.(cash := u.cash + amount)
  }

  /** Crediting back what was debited restores the account, and the other way round. */
  lemma CreditUndoesDebit(u: User, amount: real)
    ensures Credit(Debit(u, amount), amount) == u
    ensures Debit(Credit(u, amount), amount) == u
  {
  }

  /** A debit the user can afford leaves the balance no lower than `-Epsilon`;
      one it cannot afford would drive the balance below that. */
  lemma DebitWithinTolerance(u: User, amount: real)
    ensures CanAfford(u, amount) <==> Debit(u, amount).cash >= -Epsilon
  {
  }
}
