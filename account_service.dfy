/** The account registry: id -> Account, with currencies looked up in a currency service. */
module AccountServices {
  import opened Errors
  import opened Root
  import opened IdGenerators
  import opened CurrencyServices

  class AccountService {
    const currencyService: CurrencyService
    const gen: IdGenerator
    var accounts: map<int, Account>

    /** The counter is consistent and every account is stored under its own id. */
    ghost predicate Valid()
      reads this, gen
    {
      gen.Valid() && forall k :: k in accounts ==> accounts[k].id == k
    }

    constructor (currencyService: CurrencyService)
      ensures Valid() && fresh(gen)
      ensures this.currencyService == currencyService
      ensures accounts == map[] && gen.nextId == 0
    {
      this.currencyService := currencyService;
      gen := new IdGenerator();
      accounts := map[];
    }

    function GetAccount(id: int): (r: Result<Account>)
      reads this, gen
      ensures r.Ok? <==> id in accounts
      ensures r.Ok? ==> r.value == accounts[id]
      ensures r.Err? ==> r.error == IdNotFound
      ensures Valid() && r.Ok? ==> r.value.id == id
    {
      if id in accounts then Ok(accounts[id]) else Err(IdNotFound)
    }

    /** Looks the currency up, then draws ids until one is free and stores an empty account there. */
    method CreateAccount(currencyName: string) returns (r: Result<Account>)
      requires Valid()
      modifies this, gen
      ensures Valid()
      ensures currencyName !in currencyService.currencies ==>
                r == Err(IdNotFound) && accounts == old(accounts) && gen.nextId == old(gen.nextId)
      ensures currencyName in currencyService.currencies ==>
                && r.Ok?
                && r.value == Account(gen.nextId - 1, 0.0, currencyService.currencies[currencyName])
                && r.value.id !in old(accounts)
                && old(gen.nextId) <= r.value.id
                && accounts == old(accounts)[r.value.id := r.value]
    {
      var currency := currencyService.GetCurrency(currencyName);
      if currency.Err? {
        return Err(currency.error);
      }
      var id := gen.Next();
      while id in accounts
        invariant gen.Valid()
        invariant old(gen.nextId) <= id && gen.nextId == id + 1
        modifies gen
        decreases |KeysFrom(accounts.Keys, id)|
      {
        CollisionShrinksKeysFrom(accounts.Keys, id);
        id := gen.Next();
      }
      var account := Account(id, 0.0, currency.value);
      accounts := accounts[id := account];
      r := Ok(account);
    }

    /** Only an account whose balance is exactly zero may go. */
    method DeleteAccount(id: int) returns (r: Outcome)
      requires Valid()
      modifies this
      ensures Valid()
      ensures id !in old(accounts) ==> r == Fail(IdNotFound) && accounts == old(accounts)
      ensures id in old(accounts) && old(accounts)[id].balance != 0.0 ==>
                r == Fail(DeleteNotAllowed) && accounts == old(accounts)
      ensures id in old(accounts) && old(accounts)[id].balance == 0.0 ==>
                r == Pass && accounts == old(accounts) - {id}
      ensures r == Pass ==> GetAccount(id) == Err(IdNotFound)
    {
      var account := GetAccount(id);
      if account.Err? {
        return Fail(account.error);
      }
      if account.value.balance != 0.0 {
        return Fail(DeleteNotAllowed);
      }
      accounts := accounts - {id};
      r := Pass;
    }

    /** Adds `diff` to the balance as it is: the named currency only has to exist, and
        nothing keeps the balance from going negative. */
    method ChangeAccount(id: int, diff: real, currencyName: string) returns (r: Outcome)
      requires Valid()
      modifies this
      ensures Valid()
      ensures currencyName !in currencyService.currencies ==>
                r == Fail(IdNotFound) && accounts == old(accounts)
      ensures currencyName in currencyService.currencies && id !in old(accounts) ==>
                r == Fail(IdNotFound) && accounts == old(accounts)
      ensures currencyName in currencyService.currencies && id in old(accounts) ==>
                && r == Pass
                && accounts == old(accounts)[id := old(accounts)[id].Diff(diff)]
                && accounts[id].balance == old(accounts)[id].balance + diff
    {
      var currency := currencyService.GetCurrency(currencyName);
      if currency.Err? {
        return Fail(currency.error);
      }
      if id !in accounts {
        return Fail(IdNotFound);
      }
      accounts := accounts[id := accounts[id].Diff(diff)];
      r := Pass;
    }

    /** `computeIfPresent(id, remap)`: replaces a present account by `remap` of it and returns
        the replacement; an absent id yields null. The invariant survives when `remap` keeps the id. */
    method AcquireLock(id: int, remap: (int, Account) -> Account) returns (r: Option<Account>)
      requires Valid()
      modifies this
      ensures gen.Valid()
      ensures id !in old(accounts) ==> r == None && accounts == old(accounts)
      ensures id in old(accounts) ==>
                r == Some(remap(id, old(accounts)[id])) && accounts == old(accounts)[id := r.value]
      ensures (id in old(accounts) ==> remap(id, old(accounts)[id]).id == id) ==> Valid()
    {
      if id !in accounts {
        return None;
      }
      var updated := remap(id, accounts[id]);
      accounts := accounts[id := updated];
      r := Some(updated);
    }

    /** Deposit as a positive change of balance (the positive-amount guard comes from the tests). */
    method DepositIntoAccount(id: int, amount: real, currencyName: string) returns (r: Outcome)
      requires Valid()
      modifies this
      ensures Valid()
      ensures amount <= 0.0 ==> r == Fail(IllegalArgument) && accounts == old(accounts)
      ensures amount > 0.0 && (currencyName !in currencyService.currencies || id !in old(accounts)) ==>
                r == Fail(IdNotFound) && accounts == old(accounts)
      ensures amount > 0.0 && currencyName in currencyService.currencies && id in old(accounts) ==>
                r == Pass && accounts == old(accounts)[id := old(accounts)[id].Diff(amount)]
    {
      if amount <= 0.0 {
        return Fail(IllegalArgument);
      }
      r := ChangeAccount(id, amount, currencyName);
    }

    /** Withdrawal as a negative change of balance (the positive-amount guard comes from the tests). */
    method WithdrawFromAccount(id: int, amount: real, currencyName: string) returns (r: Outcome)
      requires Valid()
      modifies this
      ensures Valid()
      ensures amount <= 0.0 ==> r == Fail(IllegalArgument) && accounts == old(accounts)
      ensures amount > 0.0 && (currencyName !in currencyService.currencies || id !in old(accounts)) ==>
                r == Fail(IdNotFound) && accounts == old(accounts)
      ensures amount > 0.0 && currencyName in currencyService.currencies && id in old(accounts) ==>
                r == Pass && accounts == old(accounts)[id := old(accounts)[id].Diff(-amount)]
    {
      if amount <= 0.0 {
        return Fail(IllegalArgument);
      }
      r := ChangeAccount(id, -amount, currencyName);
    }
  }

  /** Depositing and then withdrawing the same amount restores the account. */
  lemma DepositThenWithdraw(a: Account, amount: real)
    ensures a.Diff(amount).Diff(-amount) == a
  {
    DiffCompose(a, amount, -amount);
    DiffZero(a);
  }
}
