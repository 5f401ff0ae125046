/** The `entities` package: the transfer record the transfer service stores, and the
    set-based user, the account keyed by currency name and the currency with its
    rate-changing copy method. All are immutable values. */
module Entities {

  datatype TransferStatus = Processing | Succeeded | Failed

  /** A money transfer between two accounts, stamped with the time it was created. */
  datatype Transfer = Transfer(
    id: int,
    fromAccountId: int,
    toAccountId: int,
    amount: real,
    currencyName: string,
    timestamp: int,
    status: TransferStatus)
  {
    /** The same transfer with another status. */
    function UpdateStatus(updatedStatus: TransferStatus): (r: Transfer)
      ensures r.status == updatedStatus
      ensures r.id == id && r.fromAccountId == fromAccountId && r.toAccountId == toAccountId
      ensures r.amount == amount && r.currencyName == currencyName && r.timestamp == timestamp
    {
      Transfer(id, fromAccountId, toAccountId, amount, currencyName, timestamp, updatedStatus)
    }
  }

  lemma UpdateStatusIdempotent(t: Transfer, s: TransferStatus)
    ensures t.UpdateStatus(s).UpdateStatus(s) == t.UpdateStatus(s)
  {
  }

  /** Only the last status update is visible. */
  lemma UpdateStatusLastWins(t: Transfer, s1: TransferStatus, s2: TransferStatus)
    ensures t.UpdateStatus(s1).UpdateStatus(s2) == t.UpdateStatus(s2)
  {
  }

  /** Updating to the status a transfer already has changes nothing. */
  lemma UpdateStatusSame(t: Transfer)
    ensures t.UpdateStatus(t.status) == t
  {
  }

  /** An account that names its currency instead of holding a copy of it. */
  datatype Account = Account(id: int, balance: real, currencyName: string)
  {
    function Diff(d: real): (r: Account)
      ensures r.id == id && r.currencyName == currencyName
      ensures r.balance - balance == d
    {
      Account(id, balance + d, currencyName)
    }
  }

  lemma AccountDiffZero(a: Account)
    ensures a.Diff(0.0) == a
  {
  }

  lemma AccountDiffCompose(a: Account, x: real, y: real)
    ensures a.Diff(x).Diff(y) == a.Diff(x + y)
  {
  }

  /** A currency value; equality is structural on (name, rate), as for a Kotlin data class. */
  datatype Currency = Currency(name: string, exchangeRate: real)
  {
    function ChangeExchangeRate(newExchangeRate: real): (r: Currency)
      ensures r.name == name && r.exchangeRate == newExchangeRate
      ensures r == this <==> newExchangeRate == exchangeRate
    {
      Currency(name, newExchangeRate)
    }
  }

  /** Two currencies are the same value exactly when name and rate agree. */
  lemma CurrencyEquality(c: Currency, d: Currency)
    ensures c == d <==> c.name == d.name && c.exchangeRate == d.exchangeRate
  {
  }

  /** A user whose account ids form a set. */
  datatype User = User(id: int, fullName: string, accountIds: set<int>)
  {
    function AddAccount(accountId: int): (r: User)
      ensures r.id == id && r.fullName == fullName
      ensures accountId in r.accountIds && accountIds <= r.accountIds
      ensures forall a :: a in r.accountIds && a != accountId ==> a in accountIds
    {
      User(id, fullName, accountIds + {accountId})
    }

    function RemoveAccount(accountId: int): (r: User)
      ensures r.id == id && r.fullName == fullName
      ensures accountId !in r.accountIds && r.accountIds <= accountIds
      ensures forall a :: a in accountIds && a != accountId ==> a in r.accountIds
    {
      User(id, fullName, accountIds - {accountId})
    }

    function ChangeFullName(newFullName: string): (r: User)
      ensures r.id == id && r.accountIds == accountIds
      ensures r.fullName == newFullName
    {
      User(id, newFullName, accountIds)
    }
  }

  /** Adding an id the set already holds leaves the user as it was. */
  lemma AddPresentAccount(u: User, accountId: int)
    requires accountId in u.accountIds
    ensures u.AddAccount(accountId) == u
  {
  }

  /** Removing an id the set does not hold leaves the user as it was. */
  lemma RemoveAbsentAccount(u: User, accountId: int)
    requires accountId !in u.accountIds
    ensures u.RemoveAccount(accountId) == u
  {
  }

  /** Adding then removing an id the set did not hold restores the user. */
  lemma AddThenRemoveAccount(u: User, accountId: int)
    requires accountId !in u.accountIds
    ensures u.AddAccount(accountId).RemoveAccount(accountId) == u
  {
  }
}
