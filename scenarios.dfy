/** Call sequences from the services' unit tests, checked against the contracts alone. */
module Scenarios {
  import opened Errors
  import opened Entities
  import CurrencyServices
  import AccountServices
  import UserServices
  import TransferServices

  /** A taken name is refused and keeps its first rate. */
  method CurrencyCreateTwice()
  {
    var currencies := new CurrencyServices.CurrencyService();
    var r := currencies.CreateCurrency("RUB", 64.07);
    assert r == Pass;
    r := currencies.CreateCurrency("RUB", 65.0);
    assert r == Fail(CreateNotAllowed);
    assert currencies.GetCurrency("RUB").value.exchangeRate == 64.07;
    r := currencies.DeleteCurrency("RUB");
    assert r == Pass;
    r := currencies.DeleteCurrency("RUB");
    assert r == Fail(IdNotFound);
  }

  /** An account with money cannot be deleted; once emptied it can, and then it is gone. */
  method AccountDeleteWhenEmpty()
  {
    var currencies := new CurrencyServices.CurrencyService();
    var c := currencies.CreateCurrency("RUB", 64.07);
    var accounts := new AccountServices.AccountService(currencies);
    var a := accounts.CreateAccount("RUB");
    var id := a.value.id;
    assert a.value.balance == 0.0;
    var r := accounts.DepositIntoAccount(id, 10.0, "RUB");
    assert r == Pass;
    r := accounts.DeleteAccount(id);
    assert r == Fail(DeleteNotAllowed);
    r := accounts.WithdrawFromAccount(id, 10.0, "RUB");
    assert accounts.accounts[id].balance == 0.0;
    r := accounts.DeleteAccount(id);
    assert r == Pass;
    assert accounts.GetAccount(id) == Err(IdNotFound);
    r := accounts.WithdrawFromAccount(id, 10.0, "RUB");
    assert r == Fail(IdNotFound);
  }

  /** Nothing checks funds: a withdrawal larger than the balance goes through and leaves it negative. */
  method AccountOverdraft()
  {
    var currencies := new CurrencyServices.CurrencyService();
    var c := currencies.CreateCurrency("RUB", 64.07);
    var accounts := new AccountServices.AccountService(currencies);
    var a := accounts.CreateAccount("RUB");
    var id := a.value.id;
    var r := accounts.DepositIntoAccount(id, 10.0, "RUB");
    r := accounts.WithdrawFromAccount(id, 25.0, "RUB");
    assert r == Pass;
    assert accounts.accounts[id].balance == -15.0;
  }

  /** A user with an account cannot be deleted until the account is closed through it. */
  method UserDeleteAfterAccounts()
  {
    var currencies := new CurrencyServices.CurrencyService();
    var c := currencies.CreateCurrency("RUB", 64.07);
    var accounts := new AccountServices.AccountService(currencies);
    var users := new UserServices.UserService(accounts);
    var u := users.CreateUser("Abduqodiri Qurbonzoda");
    var a := users.CreateAccount(u.id, "RUB");
    assert users.users[u.id].accounts == [a.value.id];
    var r := users.DeleteUser(u.id);
    assert r == Fail(DeleteNotAllowed);
    r := users.DeleteAccount(u.id, a.value.id);
    assert r == Pass;
    assert users.users[u.id].accounts == [];
    r := users.DeleteUser(u.id);
    assert r == Pass;
    r := users.ChangeUser(u.id, "Nikita Nozhkin");
    assert r == Fail(IdNotFound);
  }

  /** A transfer between accounts that do not exist is recorded as FAILED and can be read back. */
  method TransferWithoutAccounts()
  {
    var currencies := new CurrencyServices.CurrencyService();
    var accounts := new AccountServices.AccountService(currencies);
    var transfers := new TransferServices.TransferService(accounts, currencies);
    var t := transfers.CreateTransfer(0, 1, 10.0, "RUB", 0);
    assert t.value.status == Failed;
    assert transfers.GetTransfer(t.value.id) == t;
    assert transfers.History() == [t.value];
  }

  /** Money moves from the lower id to the higher one. */
  method TransferLowToHigh()
  {
    var currencies := new CurrencyServices.CurrencyService();
    var accounts := new AccountServices.AccountService(currencies);
    var transfers := new TransferServices.TransferService(accounts, currencies);
    var c := currencies.CreateCurrency("RUB", 64.07);
    var a := accounts.CreateAccount("RUB");
    var b := accounts.CreateAccount("RUB");
    var low, high := a.value.id, b.value.id;
    assert low < high;
    var t := transfers.CreateTransfer(low, high, 10.0, "RUB", 1);
    assert t.value.status == Succeeded;
    assert accounts.accounts[low].balance == -10.0 && accounts.accounts[high].balance == 10.0;
  }

  /** From the higher id to the lower one the transfer is reported SUCCEEDED, yet nothing moves;
      a transfer to the same account is refused. */
  method TransferHighToLow()
  {
    var currencies := new CurrencyServices.CurrencyService();
    var accounts := new AccountServices.AccountService(currencies);
    var transfers := new TransferServices.TransferService(accounts, currencies);
    var c := currencies.CreateCurrency("RUB", 64.07);
    var a := accounts.CreateAccount("RUB");
    var b := accounts.CreateAccount("RUB");
    var low, high := a.value.id, b.value.id;
    assert low < high;
    var t := transfers.CreateTransfer(high, low, 10.0, "RUB", 2);
    assert t.value.status == Succeeded;
    assert accounts.accounts[low].balance == 0.0 && accounts.accounts[high].balance == 0.0;
    t := transfers.CreateTransfer(low, low, 10.0, "RUB", 3);
    assert t == Err(CreateNotAllowed);
  }
}
