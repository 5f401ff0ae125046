/** The user registry: id -> User, opening and closing accounts through an account service. */
module UserServices {
  import opened Errors
  import opened Root
  import opened IdGenerators
  import opened AccountServices

  /** A user's account list: no id twice, and every id already handed out by the account counter. */
  ghost predicate WellLinked(ids: seq<int>, bound: int)
  {
    NoDup(ids) && forall i :: 0 <= i < |ids| ==> ids[i] < bound
  }

  /** Taking an id out of a well-linked list leaves it well linked and without that id. */
  lemma RemoveKeepsWellLinked(ids: seq<int>, id: int, bound: int)
    requires WellLinked(ids, bound)
    ensures WellLinked(RemoveFirst(ids, id), bound) && id !in RemoveFirst(ids, id)
  {
    var t := RemoveFirst(ids, id);
    RemoveFirstNoDup(ids, id);
    forall i | 0 <= i < |t| ensures t[i] < bound {
      assert t[i] in ids;
    }
  }

  class UserService {
    const accountService: AccountService
    const gen: IdGenerator
    var users: map<int, User>

    ghost predicate Valid()
      reads this, gen, accountService, accountService.gen
    {
      && gen.Valid()
      && accountService.Valid()
      && gen != accountService.gen
      && forall u :: u in users ==>
           users[u].id == u && WellLinked(users[u].accounts, accountService.gen.nextId)
    }

    constructor (accountService: AccountService)
      requires accountService.Valid()
      ensures Valid() && fresh(gen)
      ensures this.accountService == accountService && users == map[]
    {
      this.accountService := accountService;
      gen := new IdGenerator();
      users := map[];
    }

    function GetUser(id: int): (r: Result<User>)
      reads this, gen, accountService, accountService.gen
      ensures r.Ok? <==> id in users
      ensures r.Ok? ==> r.value == users[id]
      ensures r.Err? ==> r.error == IdNotFound
      ensures Valid() && r.Ok? ==> r.value.id == id && NoDup(r.value.accounts)
    {
      if id in users then Ok(users[id]) else Err(IdNotFound)
    }

    /** Draws ids until one is free and stores a user without accounts there. */
    method CreateUser(fullName: string) returns (user: User)
      requires Valid()
      modifies this, gen
      ensures Valid()
      ensures user.id !in old(users) && old(gen.nextId) <= user.id < gen.nextId
      ensures user.fullName == fullName && user.accounts == []
      ensures users == old(users)[user.id := user]
    {
      var id := gen.Next();
      while id in users
        invariant gen.Valid()
        invariant old(gen.nextId) <= id && gen.nextId == id + 1
        modifies gen
        decreases |KeysFrom(users.Keys, id)|
      {
        CollisionShrinksKeysFrom(users.Keys, id);
        id := gen.Next();
      }
      user := User(id, fullName, []);
      users := users[id := user];
    }

    /** Renames a present user, keeping its id and accounts. */
    method ChangeUser(id: int, newFullName: string) returns (r: Outcome)
      requires Valid()
      modifies this
      ensures Valid()
      ensures id !in old(users) ==> r == Fail(IdNotFound) && users == old(users)
      ensures id in old(users) ==>
                && r == Pass
                && users == old(users)[id := old(users)[id].ChangeFullName(newFullName)]
                && users[id] == User(id, newFullName, old(users)[id].accounts)
    {
      if id !in users {
        return Fail(IdNotFound);
      }
      users := users[id := users[id].ChangeFullName(newFullName)];
      r := Pass;
    }

    /** Only a user without accounts may go. */
    method DeleteUser(id: int) returns (r: Outcome)
      requires Valid()
      modifies this
      ensures Valid()
      ensures id !in old(users) ==> r == Fail(IdNotFound) && users == old(users)
      ensures id in old(users) && |old(users)[id].accounts| != 0 ==>
                r == Fail(DeleteNotAllowed) && users == old(users)
      ensures id in old(users) && |old(users)[id].accounts| == 0 ==>
                r == Pass && users == old(users) - {id}
      ensures r == Pass ==> GetUser(id) == Err(IdNotFound)
    {
      var user := GetUser(id);
      if user.Err? {
        return Fail(user.error);
      }
      if |user.value.accounts| != 0 {
        return Fail(DeleteNotAllowed);
      }
      users := users - {id};
      r := Pass;
    }

    /** Opens the account first and only then looks for the user: when the user is missing the
        call fails, but the new account stays behind in the account service. */
    method CreateAccount(userId: int, currencyName: string) returns (r: Result<Account>)
      requires Valid()
      modifies this, accountService, accountService.gen
      ensures Valid()
      ensures currencyName !in accountService.currencyService.currencies ==>
                && r == Err(IdNotFound) && users == old(users)
                && accountService.accounts == old(accountService.accounts)
                && accountService.gen.nextId == old(accountService.gen.nextId)
      ensures currencyName in accountService.currencyService.currencies ==>
                var id := accountService.gen.nextId - 1;
                var account := Account(id, 0.0, accountService.currencyService.currencies[currencyName]);
                && id !in old(accountService.accounts)
                && old(accountService.gen.nextId) <= id
                && accountService.accounts == old(accountService.accounts)[id := account]
                && (userId !in old(users) ==> r == Err(IdNotFound) && users == old(users))
                && (userId in old(users) ==>
                      && r == Ok(account)
                      && users == old(users)[userId := old(users)[userId].AddAccount(id)])
    {
      var account := accountService.CreateAccount(currencyName);
      if account.Err? {
        return Err(account.error);
      }
      var user := GetUser(userId);
      if user.Err? {
        return Err(user.error);
      }
      var id := account.value.id;
      assert WellLinked(user.value.AddAccount(id).accounts, accountService.gen.nextId) by {
        var s := user.value.accounts;
        var t := user.value.AddAccount(id).accounts;
        assert t == s + [id];
        forall i, j | 0 <= i < j < |t| ensures t[i] != t[j] {
          if j == |s| {
            assert t[i] == s[i] && s[i] < old(accountService.gen.nextId);
          } else {
            assert t[i] == s[i] && t[j] == s[j];
          }
        }
      }
      users := users[userId := user.value.AddAccount(id)];
      r := account;
    }

    /** Closes one of the user's accounts: it must be in the user's list, and the account
        service's own refusal (a non-zero balance) propagates with the list left as it was. */
    method DeleteAccount(userId: int, accountId: int) returns (r: Outcome)
      requires Valid()
      modifies this, accountService
      ensures Valid()
      ensures (userId !in old(users) || accountId !in old(users)[userId].accounts) ==>
                && r == Fail(IdNotFound) && users == old(users)
                && accountService.accounts == old(accountService.accounts)
      ensures userId in old(users) && accountId in old(users)[userId].accounts ==>
                && (accountId !in old(accountService.accounts) ==>
                      r == Fail(IdNotFound) && users == old(users)
                      && accountService.accounts == old(accountService.accounts))
                && (accountId in old(accountService.accounts)
                    && old(accountService.accounts)[accountId].balance != 0.0 ==>
                      r == Fail(DeleteNotAllowed) && users == old(users)
                      && accountService.accounts == old(accountService.accounts))
                && (accountId in old(accountService.accounts)
                    && old(accountService.accounts)[accountId].balance == 0.0 ==>
                      && r == Pass
                      && accountService.accounts == old(accountService.accounts) - {accountId}
                      && users == old(users)[userId := old(users)[userId].RemoveAccount(accountId)])
      ensures r == Pass ==>
                && accountId !in users[userId].accounts
                && accountId !in accountService.accounts
    {
      var user := GetUser(userId);
      if user.Err? {
        return Fail(user.error);
      }
      if accountId !in user.value.accounts {
        return Fail(IdNotFound);
      }
      var deleted := accountService.DeleteAccount(accountId);
      if deleted.Fail? {
        return deleted;
      }
      var updated := user.value.RemoveAccount(accountId);
      RemoveKeepsWellLinked(user.value.accounts, accountId, accountService.gen.nextId);
      users := users[userId := updated];
      r := Pass;
    }
  }
}
