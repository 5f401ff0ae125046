# In-memory transfer ledger — Dafny model

This project models the service layer of a small Kotlin money-transfer server. The layer has four in-memory registries:

- **CurrencyService**: name → Currency, with create, get, list, change and delete.
- **AccountService**: id → Account, with create, get, delete-only-at-zero, change balance and `acquireLock` (a `computeIfPresent` with a caller-supplied remapping function).
- **UserService**: id → User. It opens and closes accounts through the account service and keeps each user's list of account ids.
- **TransferService**: id → Transfer in insertion order. It refuses self-transfers, moves balances and records the resolved status. It also lists an account's transfers one page at a time.

The account, user and transfer services each draw ids from their own IdGenerator, a counter that starts at 0. The currency service keys currencies by name. The entities are immutable values whose "change" methods build new values.

Layout, one module per source file or package:

- `errors.dfy` (`Errors`): the exception classes as an `Error` datatype, plus `Result`, `Outcome` and `Option`.
- `root.dfy` (`Root`): the root-package `Currency` (a data class of name and rate, src/main/java/TransferServer.kt:49), `Account` and list-based `User` that the services store.
- `entities.dfy` (`Entities`): the `entities` package: `Transfer`/`TransferStatus`, the set-based `User`, `Account` with `currencyName`, and `Currency`.
- `id_generator.dfy` (`IdGenerators`): `IdGenerator`.
- `currency_service.dfy`, `account_service.dfy`, `user_service.dfy`, `transfer_service.dfy`: one class per service. The map is a field, and methods change it under `modifies`. Each `ensures` gives the new map as a function of the old one and lists every error case.
- `scenarios.dfy`: call sequences taken from the unit tests, checked against the contracts alone.

How the model is set up:

- Every service call is one sequential step.
- The id-allocation loops (`while (true) { id = next(); putIfAbsent … }`) stay real loops. They terminate because each collision leaves one fewer stored key at or above the candidate. The proof does not rely on the counter being ahead of the keys.
- The retry loops that only re-run on a concurrent interleaving are collapsed into a single step. These are `remove(id, value)`, `replace(old, new)` and `compute` with an identity check, and sequentially each one succeeds on its first pass.
- Money and rates are exact `real`s, and ids are unbounded `int`s.
- The transfer store is a map plus the sequence of its keys in insertion order. `getTransfers` therefore pages through transfers in the order they were recorded.

Where the tests and the code disagree, the model follows the code:

- `createTransfer` moves money only when `fromAccountId < toAccountId` (TransferService.kt:45). With `from > to` nothing moves, yet the transfer is recorded as SUCCEEDED. The test at TransferServiceTest.kt:87-103 expects money to move both ways. `Scenarios.TransferHighToLow` shows the behaviour as written.
- `depositIntoAccount` / `withdrawFromAccount` exist only in the tests (AccountServiceTest.kt:59,86). They are modelled as `changeAccount(id, +amount)` / `changeAccount(id, -amount)`. The `amount > 0` guard (error `IllegalArgument`) comes from the tests alone.
- The tests read `account.currencyName` and `user.accountIds`. Those fields belong to the `entities` package classes. The services use the root-package `Account` (which holds a `Currency` copy) and `User` (which holds a `List` of ids), so the model does too.
- The tests call `createAccount("RUB")` without registering RUB and expect success. The code fails with IdNotFound (AccountService.kt:22), and so does the model.
- The tests expect `BadRequest` for missing ids. The code throws `IdNotFoundException`, which is an `IllegalArgumentException` and not a `BadRequest` subclass. The model returns `IdNotFound`.

The code has no per-entity locks and no lock ordering. It does no currency conversion (the TODOs at TransferService.kt:40 and AccountService.kt:41) and no overdraft check, and it has no insufficient-funds status: `TransferStatus` is PROCESSING, SUCCEEDED or FAILED (entities/Transfer.kt:30-32). Currencies can be deleted (CurrencyService.kt:34-37). The model follows the code.

## Model

| member | source | states |
|---|---|---|
| `Root.Account.Diff` | src/main/kotlin/Account.kt:6-8 | the new balance is the old one plus `d`; id and currency are kept |
| `Root.DiffZero` | src/main/kotlin/Account.kt:7 | `diff(0)` changes nothing |
| `Root.DiffCompose` | src/main/kotlin/Account.kt:7 | `diff(a).diff(b)` equals `diff(a+b)` in exact arithmetic |
| `Root.User.AddAccount` | src/main/kotlin/User.kt:6-8 | the id goes at the end of the list, which grows by one; id and name are kept |
| `Root.User.RemoveAccount` | src/main/kotlin/User.kt:10-12 | an absent id leaves the list as it was; otherwise exactly the first occurrence is cut out; id and name are kept |
| `Root.User.ChangeFullName` | src/main/kotlin/User.kt:14-16 | the name is replaced; id and account list are kept |
| `Root.RemoveFirst` | src/main/kotlin/User.kt:11 | list minus element: one element shorter exactly when the element is present |
| `Root.RemoveFirstMultiset` | src/main/kotlin/User.kt:11 | removal takes away exactly one copy of the id, when there is one, and keeps every other element with its count |
| `Root.RemoveFirstAbsent` | src/main/kotlin/User.kt:11 | removing an absent id returns the list unchanged |
| `Root.RemoveFirstAt` | src/main/kotlin/User.kt:11 | removal equals cutting out the element at the first index holding the id |
| `Root.AddThenRemove` | src/main/kotlin/User.kt:6-12 | on a list without the id, `addAccount` then `removeAccount` restores the user |
| `Root.RemoveFirstNoDup` | src/main/kotlin/User.kt:11 | on a repeat-free list, removal takes the id out entirely, adds no id and stays repeat-free |
| `Entities.Transfer.UpdateStatus` | src/main/kotlin/entities/Transfer.kt:17-27 | the status becomes the given one; id, accounts, amount, currency and timestamp are kept |
| `Entities.UpdateStatusIdempotent` | src/main/kotlin/entities/Transfer.kt:17-27 | updating twice to the same status equals updating once |
| `Entities.UpdateStatusLastWins` | src/main/kotlin/entities/Transfer.kt:17-27 | `updateStatus(s1).updateStatus(s2)` equals `updateStatus(s2)` |
| `Entities.UpdateStatusSame` | src/main/kotlin/entities/Transfer.kt:17-27 | updating to the current status gives back the same transfer |
| `Entities.Account.Diff` | src/main/kotlin/entities/Account.kt:11-13 | the new balance is the old one plus `d`; id and currency name are kept |
| `Entities.AccountDiffZero` | src/main/kotlin/entities/Account.kt:12 | `diff(0)` changes nothing |
| `Entities.AccountDiffCompose` | src/main/kotlin/entities/Account.kt:12 | `diff(a).diff(b)` equals `diff(a+b)` |
| `Entities.Currency.ChangeExchangeRate` | src/main/kotlin/entities/Currency.kt:9-10 | the name is kept and the rate becomes the new one; the result equals the receiver exactly when the rate is the same |
| `Entities.CurrencyEquality` | src/main/kotlin/entities/Currency.kt:5-8 | two currencies are equal exactly when name and rate agree (data-class equality) |
| `Entities.User.AddAccount` | src/main/kotlin/entities/User.kt:12-14 | the set gains the id and loses nothing; id and name are kept |
| `Entities.User.RemoveAccount` | src/main/kotlin/entities/User.kt:16-18 | the set loses the id and keeps every other id; id and name are kept |
| `Entities.User.ChangeFullName` | src/main/kotlin/entities/User.kt:20-22 | the name is replaced; id and account set are kept |
| `Entities.AddPresentAccount` | src/main/kotlin/entities/User.kt:13 | adding an id already held changes nothing |
| `Entities.RemoveAbsentAccount` | src/main/kotlin/entities/User.kt:17 | removing an id not held changes nothing |
| `Entities.AddThenRemoveAccount` | src/main/kotlin/entities/User.kt:12-18 | adding then removing an id not held restores the user |
| `IdGenerators.IdGenerator.constructor` | src/main/kotlin/services/IdGenerator.kt:7 | the counter starts at 0 and nothing has been issued |
| `IdGenerators.IdGenerator.Next` | src/main/kotlin/services/IdGenerator.kt:9-11 | returns the counter and advances it by one; the value was never issued before, and every issued value is at most it (so below the new counter) |
| `IdGenerators.CollisionShrinksKeysFrom` | src/main/kotlin/services/AccountService.kt:23-27 | a collision on the candidate id leaves strictly fewer stored keys at or above the next candidate, so the allocation loops end |
| `CurrencyServices.CurrencyService.constructor` | src/main/kotlin/services/CurrencyService.kt:10 | the registry starts empty |
| `CurrencyServices.CurrencyService.GetCurrencies` | src/main/kotlin/services/CurrencyService.kt:12-14 | the list holds every stored currency exactly once and nothing else; it is empty for an empty registry |
| `CurrencyServices.CurrencyService.GetCurrency` | src/main/kotlin/services/CurrencyService.kt:16-19 | a registered name gives its stored currency, which carries that name; an absent name fails with IdNotFound |
| `CurrencyServices.CurrencyService.CreateCurrency` | src/main/kotlin/services/CurrencyService.kt:21-27 | a fresh name stores exactly (name, rate), and a later get returns it; a taken name fails with CreateNotAllowed and keeps the old rate; other names are untouched |
| `CurrencyServices.CurrencyService.ChangeCurrency` | src/main/kotlin/services/CurrencyService.kt:29-32 | a registered name gets the new rate; an absent name fails with IdNotFound and nothing changes; other names are untouched |
| `CurrencyServices.CurrencyService.DeleteCurrency` | src/main/kotlin/services/CurrencyService.kt:34-37 | a registered name is removed; an absent name fails with IdNotFound; afterwards a get fails; other names are untouched |
| `AccountServices.AccountService.constructor` | src/main/kotlin/services/AccountService.kt:12-14 | no accounts, a fresh counter at 0, the given currency service |
| `AccountServices.AccountService.GetAccount` | src/main/kotlin/services/AccountService.kt:16-19 | a stored id gives its account, which carries that id; an absent id fails with IdNotFound |
| `AccountServices.AccountService.CreateAccount` | src/main/kotlin/services/AccountService.kt:21-28 | an unregistered currency fails with IdNotFound and adds nothing; otherwise an account with balance 0 and that currency is stored under an id that was free and not below any id issued before |
| `AccountServices.AccountService.DeleteAccount` | src/main/kotlin/services/AccountService.kt:30-36 | an absent id fails with IdNotFound; a non-zero balance fails with DeleteNotAllowed and the account stays; a zero balance removes it, after which get fails |
| `AccountServices.AccountService.ChangeAccount` | src/main/kotlin/services/AccountService.kt:38-44 | an unregistered currency or an absent id fails with IdNotFound and nothing changes; otherwise `diff` is added to the balance unconverted and unbounded |
| `AccountServices.AccountService.AcquireLock` | src/main/kotlin/services/AccountService.kt:46-48 | a present account is replaced by the remapping function's result, which is returned; an absent id gives null and nothing changes |
| `AccountServices.AccountService.DepositIntoAccount` | src/test/kotlin/services/AccountServiceTest.kt:56-80 | a non-positive amount fails with IllegalArgument; otherwise behaves as `changeAccount(id, +amount)` |
| `AccountServices.AccountService.WithdrawFromAccount` | src/test/kotlin/services/AccountServiceTest.kt:83-107 | a non-positive amount fails with IllegalArgument; otherwise behaves as `changeAccount(id, -amount)`, with no funds check, so a withdrawal larger than the balance goes through and leaves it negative (`Scenarios.AccountOverdraft`) |
| `AccountServices.DepositThenWithdraw` | src/test/kotlin/services/AccountServiceTest.kt:125-129 | depositing and withdrawing the same amount restores the account |
| `UserServices.RemoveKeepsWellLinked` | src/main/kotlin/services/UserService.kt:55-58 | taking an id out of a repeat-free list of issued ids leaves such a list, without that id |
| `UserServices.UserService.constructor` | src/main/kotlin/services/UserService.kt:10-12 | no users, a fresh counter, the given account service |
| `UserServices.UserService.GetUser` | src/main/kotlin/services/UserService.kt:14-17 | a stored id gives its user, which carries that id and a repeat-free account list; an absent id fails with IdNotFound |
| `UserServices.UserService.CreateUser` | src/main/kotlin/services/UserService.kt:19-25 | a user with the given name and no accounts is stored under an id that was free and not below any id issued before |
| `UserServices.UserService.ChangeUser` | src/main/kotlin/services/UserService.kt:27-30 | a present user gets the new name and keeps id and accounts; an absent id fails with IdNotFound |
| `UserServices.UserService.DeleteUser` | src/main/kotlin/services/UserService.kt:32-41 | an absent id fails with IdNotFound; a user with accounts fails with DeleteNotAllowed and stays; otherwise it is removed and get fails |
| `UserServices.UserService.CreateAccount` | src/main/kotlin/services/UserService.kt:43-50 | an unregistered currency fails with IdNotFound, changes no store and draws no id; otherwise a zero-balance account is created first; the call then fails with IdNotFound for a missing user, leaving that account behind, and for a present user it appends the new id to the user's list |
| `UserServices.UserService.DeleteAccount` | src/main/kotlin/services/UserService.kt:52-71 | a missing user, or an id not in the user's list, fails with IdNotFound; the account service's failure propagates with both stores unchanged; on success the id is gone from the account store and from the user's list |
| `TransferServices.Collect` | src/main/kotlin/services/TransferService.kt:74 | the stored transfers listed in key order, one per key |
| `TransferServices.Involving` | src/main/kotlin/services/TransferService.kt:75 | the `filter` at line 75, whose condition is the predicate `Involves` (from or to is the account): keeps exactly the transfers from or to the account, in order, never more than the input |
| `TransferServices.Drop` | src/main/kotlin/services/TransferService.kt:76 | `drop(n)`: the elements after the first `n`, or none |
| `TransferServices.Take` | src/main/kotlin/services/TransferService.kt:77 | `take(n)`: a prefix of length `n`, or the whole input when shorter |
| `TransferServices.Page` | src/main/kotlin/services/TransferService.kt:73-79 | the `filter`/`drop`/`take` pipeline: at most `limit` transfers, each from the history and involving the account |
| `TransferServices.PageAt` | src/main/kotlin/services/TransferService.kt:73-79 | a page is the run of the account's transfers that starts at `offset`, at most `limit` long |
| `TransferServices.PagesConcatenate` | src/main/kotlin/services/TransferService.kt:76-77 | two consecutive pages together equal the page that spans them |
| `TransferServices.PageOfUninvolved` | src/main/kotlin/services/TransferService.kt:73-79 | an account with no transfers gets only empty pages |
| `TransferServices.InvolvingNone` | src/main/kotlin/services/TransferService.kt:75 | filtering a history with no transfers of the account gives nothing |
| `TransferServices.PageAll` | src/main/kotlin/services/TransferService.kt:73-79 | the page from 0 with room for everything is the account's whole history |
| `TransferServices.InvolvingAppend` | src/main/kotlin/services/TransferService.kt:75 | recording one more transfer extends an account's history by that transfer exactly when the account takes part in it |
| `TransferServices.Moved` | src/main/kotlin/services/TransferService.kt:45-60 | the balances after the move as written: the same account ids, and every account other than `from` and `to` unchanged |
| `TransferServices.Resolved` | src/main/kotlin/services/TransferService.kt:65-67 | the status the record ends with: never PROCESSING, and FAILED only when `from < to` |
| `TransferServices.MovedOrdered` | src/main/kotlin/services/TransferService.kt:45-55 | with `from < to` and both present, `from` loses `amount` and `to` gains it, with no conversion and no funds check; the sum is kept and no other account changes |
| `TransferServices.MovedOtherwise` | src/main/kotlin/services/TransferService.kt:45-60 | with `from > to`, or either account missing, no balance changes |
| `TransferServices.ResolvedIsFinal` | src/main/kotlin/services/TransferService.kt:65-67 | the recorded status is never PROCESSING; it is FAILED exactly when `from < to` and `from` or `to` is missing, and then no balance changes, whatever the amount |
| `TransferServices.MovedKeepsIds` | src/main/kotlin/services/TransferService.kt:46-55 | the move keeps the account keys and every account's id |
| `TransferServices.RecordFresh` | src/main/kotlin/services/TransferService.kt:37-68 | storing a resolved transfer under a fresh id keeps each id once in the order, every record under its own id, none left PROCESSING, and appends it to the history |
| `TransferServices.TransferService.constructor` | src/main/kotlin/services/TransferService.kt:11-13 | no transfers, a fresh counter, the given account and currency services |
| `TransferServices.TransferService.History` | src/main/kotlin/services/TransferService.kt:74 | the stored transfers, one per recorded id, in recording order |
| `TransferServices.TransferService.GetTransfer` | src/main/kotlin/services/TransferService.kt:15-18 | a stored id gives its record, which carries that id and a final status; an absent id fails with IdNotFound |
| `TransferServices.TransferService.GetTransfers` | src/main/kotlin/services/TransferService.kt:73-79 | a negative offset or limit fails with IllegalArgument; otherwise at most `limit` recorded transfers, each from or to the account |
| `TransferServices.TransferService.AllocateId` | src/main/kotlin/services/TransferService.kt:24-37 | the loop ends with an id not in the store, not below any id issued before |
| `TransferServices.TransferService.MoveBalances` | src/main/kotlin/services/TransferService.kt:43-60 | the accounts end as `Moved` of the old ones; it reports a missing account exactly when the status must be FAILED |
| `TransferServices.TransferService.CreateTransfer` | src/main/kotlin/services/TransferService.kt:20-71 | a self-transfer fails with CreateNotAllowed, records nothing, draws no id and leaves balances alone; otherwise a record echoing from, to, amount, currency and timestamp, with its resolved status, is stored under a fresh id, appended to the history, returned and read back by get, and the balances are moved as written |
| `TransferServices.CollectFresh` | src/main/kotlin/services/TransferService.kt:37 | recording under a fresh id appends exactly that transfer to the history |

## Left out

- Concurrency. The model does not cover `ConcurrentHashMap` retry loops under interleaving, `AtomicInteger` atomicity, the `remove(id, value)` / `replace(old, new)` / `compute` identity checks, or the window in which a PROCESSING transfer is visible to other threads. Each call is one sequential step.
- `currencyService.acquireLock()` / `releaseLock()` (TransferService.kt:41,62). `CurrencyService` does not define them, so they are no-ops.
- `Root.User`, `Root.Account`, `Entities.User`, `Entities.Account`, `Entities.Transfer`: Kotlin compares instances of these plain classes by identity, and the model compares them by value. So `Root.DiffZero`, `Root.DiffCompose`, `Root.AddThenRemove`, `Entities.UpdateStatusIdempotent`, `Entities.UpdateStatusLastWins`, `Entities.UpdateStatusSame`, `Entities.AccountDiffZero` and `Entities.AccountDiffCompose` hold for the values. They do not hold for object identity, because every change builds a new instance.
- `Double` arithmetic is modelled as exact `real`. The `0.0` comparison in `deleteAccount` and the tests' epsilon are therefore exact.
- Overflow of `Int` ids and of the `AtomicInteger` counter is not modelled. Ids are unbounded.
- `System.currentTimeMillis()` (TransferService.kt:27) is a `timestamp` parameter of `CreateTransfer`.
- `TransferServices.TransferService.GetTransfers`: `ConcurrentHashMap.values` has no specified order. The model pages in insertion order, which for these ascending counter ids is also ascending id order.
- Exception messages. Errors carry only their kind.
- The HTTP layer (controllers, `TransferServer.kt`, `Main.kt`, the stub routes of `src/main/java/TransferServer.kt`) is not part of this model. Neither is the unused `src/main/kotlin/Transfer.kt`. `CommonTypes.kt` appears only as the choice of `int`/`real`.
- `AccountServices.AccountService.AcquireLock`: the remapping function is a pure `(int, Account) -> Account`. The source's only caller passes one that itself calls `acquireLock(toAccountId)` (TransferService.kt:46-55). `TransferServices.TransferService.MoveBalances` unrolls that nested call: `to` is updated first, then `from`. This matches the source's sequential effect. Re-entrancy into the map from inside a remapping function is not modelled. `AcquireLock` re-establishes the service invariant only for a remapping that keeps the account's id.
- `UserServices.UserService.Valid`: the invariant that each user's ids are repeat-free and already issued trusts that the shared account service is only changed through its own methods. It does not claim that every listed id still exists in the account store, because the account service can delete an account directly.
