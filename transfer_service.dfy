/** The transfer ledger: id -> Transfer in insertion order, moving balances through an
    account service. */
module TransferServices {
  import opened Errors
  import opened Entities
  import opened IdGenerators
  import opened CurrencyServices
  import opened AccountServices
  import Root

  // ---------------------------------------------------------------------------
  // The history pipeline `filter { … }.drop(offset).take(limit)`

  /** The stored transfers named by `ids`, in that order (ids without an entry are skipped). */
  function Collect(ids: seq<int>, m: map<int, Transfer>): (r: seq<Transfer>)
    ensures |r| <= |ids|
    ensures (forall i :: 0 <= i < |ids| ==> ids[i] in m) ==>
              |r| == |ids| && forall i :: 0 <= i < |ids| ==> r[i] == m[ids[i]]
  {
    if ids == [] then []
    else if ids[0] in m then [m[ids[0]]] + Collect(ids[1..], m)
    else Collect(ids[1..], m)
  }

  /** The account is one of the transfer's two ends. */
  predicate Involves(t: Transfer, accountId: int)
  {
    t.fromAccountId == accountId || t.toAccountId == accountId
  }

  /** The transfers of `ts` that the account takes part in, order kept. */
  function Involving(ts: seq<Transfer>, accountId: int): (r: seq<Transfer>)
    ensures |r| <= |ts|
    ensures forall t :: t in r <==> t in ts && Involves(t, accountId)
  {
    if ts == [] then []
    else if Involves(ts[0], accountId) then [ts[0]] + Involving(ts[1..], accountId)
    else Involving(ts[1..], accountId)
  }

  /** Kotlin's `drop(n)`: everything after the first `n` elements. */
  function Drop(s: seq<Transfer>, n: nat): (r: seq<Transfer>)
    ensures |r| == if n <= |s| then |s| - n else 0
    ensures forall i :: 0 <= i < |r| ==> r[i] == s[n + i]
  {
    if n <= |s| then s[n..] else []
  }

  /** Kotlin's `take(n)`: at most the first `n` elements. */
  function Take(s: seq<Transfer>, n: nat): (r: seq<Transfer>)
    ensures |r| == if n <= |s| then n else |s|
    ensures r <= s
  {
    if n <= |s| then s[..n] else s
  }

  /** One page of an account's history. */
  function Page(history: seq<Transfer>, accountId: int, offset: nat, limit: nat): (r: seq<Transfer>)
    ensures |r| <= limit
    ensures forall t :: t in r ==> t in history && Involves(t, accountId)
  {
    Take(Drop(Involving(history, accountId), offset), limit)
  }

  /** A page is the run of the account's transfers that starts at `offset`, at most `limit` of them. */
  lemma PageAt(history: seq<Transfer>, accountId: int, offset: nat, limit: nat)
    ensures var f := Involving(history, accountId);
            var p := Page(history, accountId, offset, limit);
            && |p| == (if offset + limit <= |f| then limit else if offset <= |f| then |f| - offset else 0)
            && forall i :: 0 <= i < |p| ==> p[i] == f[offset + i]
  {
  }

  /** Two consecutive pages make up the page that spans both. */
  lemma PagesConcatenate(history: seq<Transfer>, accountId: int, offset: nat, l1: nat, l2: nat)
    ensures Page(history, accountId, offset, l1) + Page(history, accountId, offset + l1, l2)
         == Page(history, accountId, offset, l1 + l2)
  {
    var f := Involving(history, accountId);
    var a := Page(history, accountId, offset, l1);
    var b := Page(history, accountId, offset + l1, l2);
    var c := Page(history, accountId, offset, l1 + l2);
    PageAt(history, accountId, offset, l1);
    PageAt(history, accountId, offset + l1, l2);
    PageAt(history, accountId, offset, l1 + l2);
    assert |a + b| == |c|;
    forall i | 0 <= i < |c| ensures (a + b)[i] == c[i] {
      if i < |a| {
        assert (a + b)[i] == a[i];
      } else {
        assert (a + b)[i] == b[i - |a|];
      }
    }
  }

  /** An account without transfers has only empty pages. */
  lemma PageOfUninvolved(history: seq<Transfer>, accountId: int, offset: nat, limit: nat)
    requires forall t :: t in history ==> !Involves(t, accountId)
    ensures Page(history, accountId, offset, limit) == []
  {
    InvolvingNone(history, accountId);
  }

  lemma {:induction false} InvolvingNone(ts: seq<Transfer>, accountId: int)
    requires forall t :: t in ts ==> !Involves(t, accountId)
    ensures Involving(ts, accountId) == []
  {
    if ts != [] {
      assert ts[0] in ts;
      InvolvingNone(ts[1..], accountId);
    }
  }

  /** The page from 0 with room for the whole history is the account's full history. */
  lemma PageAll(history: seq<Transfer>, accountId: int)
    ensures Page(history, accountId, 0, |history|) == Involving(history, accountId)
  {
  }

  /** A transfer appended to the history is appended to the history of the accounts it involves. */
  lemma {:induction false} InvolvingAppend(ts: seq<Transfer>, t: Transfer, accountId: int)
    ensures Involving(ts + [t], accountId)
         == Involving(ts, accountId) + (if Involves(t, accountId) then [t] else [])
  {
    if ts != [] {
      assert (ts + [t])[1..] == ts[1..] + [t];
      InvolvingAppend(ts[1..], t, accountId);
    }
  }

  // ---------------------------------------------------------------------------
  // The balance move of `createTransfer` as written

  /** Balances after the transfer: money moves only when `from < to` and both accounts exist. */
  function Moved(accounts: map<int, Root.Account>, from: int, to: int, amount: real): (m: map<int, Root.Account>)
    ensures m.Keys == accounts.Keys
    ensures forall k :: k in m && k != from && k != to ==> m[k] == accounts[k]
  {
    if from < to && from in accounts && to in accounts then
      accounts[to := accounts[to].Diff(amount)][from := accounts[from].Diff(-amount)]
    else
      accounts
  }

  /** The recorded status: FAILED only when the `from < to` branch found an account missing. */
  function Resolved(accounts: map<int, Root.Account>, from: int, to: int): (s: TransferStatus)
    ensures s != Processing
    ensures s == Failed ==> from < to
  {
    if from < to && (from !in accounts || to !in accounts) then Failed else Succeeded
  }

  /** In the ordered branch, `amount` leaves `from` and reaches `to`, unconverted and
      unchecked against the balance; no other account changes. */
  lemma MovedOrdered(accounts: map<int, Root.Account>, from: int, to: int, amount: real)
    requires from < to && from in accounts && to in accounts
    ensures var m := Moved(accounts, from, to, amount);
            && m.Keys == accounts.Keys
            && m[from].balance == accounts[from].balance - amount
            && m[to].balance == accounts[to].balance + amount
            && m[from].balance + m[to].balance == accounts[from].balance + accounts[to].balance
            && forall k :: k in m && k != from && k != to ==> m[k] == accounts[k]
  {
  }

  /** With `from > to`, or an account missing, nothing moves. */
  lemma MovedOtherwise(accounts: map<int, Root.Account>, from: int, to: int, amount: real)
    requires from > to || from !in accounts || to !in accounts
    ensures Moved(accounts, from, to, amount) == accounts
  {
  }

  /** A resolved status is never PROCESSING; it is FAILED exactly when money was due to move
      (`from < to`) but an account was missing, and then no balance changes whatever the amount. */
  lemma ResolvedIsFinal(accounts: map<int, Root.Account>, from: int, to: int, amount: real)
    ensures Resolved(accounts, from, to) != Processing
    ensures Resolved(accounts, from, to) == Failed <==>
              from < to && !(from in accounts && to in accounts)
    ensures Resolved(accounts, from, to) == Failed ==> Moved(accounts, from, to, amount) == accounts
  {
  }

  /** Every account keeps its id through the move. */
  lemma MovedKeepsIds(accounts: map<int, Root.Account>, from: int, to: int, amount: real)
    requires forall k :: k in accounts ==> accounts[k].id == k
    ensures var m := Moved(accounts, from, to, amount);
            m.Keys == accounts.Keys && forall k :: k in m ==> m[k].id == k
  {
  }

  // ---------------------------------------------------------------------------

  /** A transfer store: `order` lists each key once, every record sits under its own id, and
      none is left PROCESSING. */
  ghost predicate Recorded(order: seq<int>, transfers: map<int, Transfer>)
  {
    && Root.NoDup(order)
    && (forall i :: 0 <= i < |order| ==> order[i] in transfers)
    && (forall k :: k in transfers ==> k in order)
    && forall k :: k in transfers ==> transfers[k].id == k && transfers[k].status != Processing
  }

  /** Recording a resolved transfer under a fresh id keeps the store well formed and appends the
      transfer to the history. */
  lemma RecordFresh(order: seq<int>, transfers: map<int, Transfer>, t: Transfer)
    requires Recorded(order, transfers)
    requires t.id !in transfers && t.status != Processing
    ensures Recorded(order + [t.id], transfers[t.id := t])
    ensures Collect(order + [t.id], transfers[t.id := t]) == Collect(order, transfers) + [t]
  {
    assert t.id !in order;
    var o := order + [t.id];
    forall i, j | 0 <= i < j < |o| ensures o[i] != o[j] {
      if j == |order| {
        assert o[i] == order[i];
      } else {
        assert o[i] == order[i] && o[j] == order[j];
      }
    }
    forall i | 0 <= i < |o| ensures o[i] in transfers[t.id := t] {
      if i < |order| {
        assert o[i] == order[i];
      }
    }
    CollectFresh(order, transfers, t.id, t);
  }

  class TransferService {
    const accountService: AccountService
    const currencyService: CurrencyService
    const gen: IdGenerator
    var transfers: map<int, Transfer>
    /** The keys of `transfers` in insertion order. */
    var order: seq<int>

    ghost predicate Valid()
      reads this, gen, accountService, accountService.gen
    {
      && gen.Valid()
      && accountService.Valid()
      && gen != accountService.gen
      && Recorded(order, transfers)
    }

    constructor (accountService: AccountService, currencyService: CurrencyService)
      requires accountService.Valid()
      ensures Valid() && fresh(gen)
      ensures this.accountService == accountService && this.currencyService == currencyService
      ensures transfers == map[] && order == []
    {
      this.accountService := accountService;
      this.currencyService := currencyService;
      gen := new IdGenerator();
      transfers := map[];
      order := [];
    }

    /** The stored transfers in the order they were recorded. */
    function History(): (h: seq<Transfer>)
      reads this
      ensures (forall i :: 0 <= i < |order| ==> order[i] in transfers) ==>
                |h| == |order| && forall i :: 0 <= i < |order| ==> h[i] == transfers[order[i]]
    {
      Collect(order, transfers)
    }

    function GetTransfer(id: int): (r: Result<Transfer>)
      reads this, gen, accountService, accountService.gen
      ensures r.Ok? <==> id in transfers
      ensures r.Ok? ==> r.value == transfers[id]
      ensures r.Err? ==> r.error == IdNotFound
      ensures Valid() && r.Ok? ==> r.value.id == id && r.value.status != Processing
    {
      if id in transfers then Ok(transfers[id]) else Err(IdNotFound)
    }

    /** `filter { from or to is accountId }.drop(offset).take(limit)`; a negative count is refused. */
    function GetTransfers(accountId: int, offset: int, limit: int): (r: Result<seq<Transfer>>)
      reads this
      ensures r.Err? <==> offset < 0 || limit < 0
      ensures r.Err? ==> r.error == IllegalArgument
      ensures r.Ok? ==> |r.value| <= limit
      ensures r.Ok? ==> forall t :: t in r.value ==> t in History() && Involves(t, accountId)
    {
      if offset < 0 || limit < 0 then Err(IllegalArgument)
      else Ok(Page(History(), accountId, offset, limit))
    }

    /** The `do { id = next() } while (putIfAbsent(id, …) != null)` loop: ids are drawn until one is free. */
    method AllocateId() returns (id: int)
      requires gen.Valid()
      modifies gen
      ensures gen.Valid()
      ensures id !in transfers
      ensures old(gen.nextId) <= id && gen.nextId == id + 1
    {
      id := gen.Next();
      while id in transfers
        invariant gen.Valid()
        invariant old(gen.nextId) <= id && gen.nextId == id + 1
        decreases |KeysFrom(transfers.Keys, id)|
      {
        CollisionShrinksKeysFrom(transfers.Keys, id);
        id := gen.Next();
      }
    }

    /** The balance move of `createTransfer`: only when `from < to`, and then only when both
        accounts exist; reports whether an account was found missing. */
    method MoveBalances(fromAccountId: int, toAccountId: int, amount: real) returns (failed: bool)
      requires accountService.Valid()
      modifies accountService
      ensures accountService.Valid()
      ensures accountService.accounts
              == Moved(old(accountService.accounts), fromAccountId, toAccountId, amount)
      ensures failed <==> Resolved(old(accountService.accounts), fromAccountId, toAccountId) == Failed
    {
      var nonExistentAccountId: Option<int> := None;
      if fromAccountId < toAccountId {
        // computeIfPresent(from) runs its remapping function, which updates `to` first.
        if fromAccountId in accountService.accounts {
          var newTo := accountService.AcquireLock(toAccountId, (_, toAccount: Root.Account) => toAccount.Diff(amount));
          if newTo.None? {
            nonExistentAccountId := Some(toAccountId);
            var _ := accountService.AcquireLock(fromAccountId, (_, fromAccount: Root.Account) => fromAccount);
          } else {
            var _ := accountService.AcquireLock(fromAccountId, (_, fromAccount: Root.Account) => fromAccount.Diff(-amount));
          }
        } else {
          nonExistentAccountId := Some(fromAccountId);
        }
      }
      failed := nonExistentAccountId.Some?;
    }

    /** Refuses a self-transfer; otherwise records a PROCESSING transfer under a free id, runs
        the balance move as written, and overwrites the record with its resolved status. */
    method CreateTransfer(fromAccountId: int, toAccountId: int, amount: real, currencyName: string,
                          timestamp: int) returns (r: Result<Transfer>)
      requires Valid()
      modifies this, gen, accountService
      ensures Valid()
      ensures accountService.gen.nextId == old(accountService.gen.nextId)
      ensures fromAccountId == toAccountId ==>
                && r == Err(CreateNotAllowed)
                && transfers == old(transfers) && order == old(order)
                && gen.nextId == old(gen.nextId)
                && accountService.accounts == old(accountService.accounts)
      ensures fromAccountId != toAccountId ==>
                && r.Ok?
                && r.value == Transfer(r.value.id, fromAccountId, toAccountId, amount, currencyName, timestamp,
                                       Resolved(old(accountService.accounts), fromAccountId, toAccountId))
                && r.value.id !in old(transfers)
                && old(gen.nextId) <= r.value.id < gen.nextId
                && transfers == old(transfers)[r.value.id := r.value]
                && order == old(order) + [r.value.id]
                && History() == old(History()) + [r.value]
                && GetTransfer(r.value.id) == Ok(r.value)
                && accountService.accounts
                   == Moved(old(accountService.accounts), fromAccountId, toAccountId, amount)
    {
      if fromAccountId == toAccountId {
        return Err(CreateNotAllowed);
      }
      var id := AllocateId();
      var transfer := Transfer(id, fromAccountId, toAccountId, amount, currencyName, timestamp, Processing);
      transfers := transfers[id := transfer];
      order := order + [id];

      // `createTransfer` calls `currencyService.acquireLock()` / `releaseLock()` around the move;
      // `CurrencyService` defines neither, so both are no-ops here.
      var failed := MoveBalances(fromAccountId, toAccountId, amount);

      var processed := transfer.UpdateStatus(if failed then Failed else Succeeded);
      transfers := transfers[id := processed];
      assert transfers == old(transfers)[id := processed];
      RecordFresh(old(order), old(transfers), processed);
      r := Ok(processed);
    }
  }

  /** Recording a transfer under a fresh id appends it to the history. */
  lemma {:induction false} CollectFresh(ids: seq<int>, m: map<int, Transfer>, id: int, t: Transfer)
    requires id !in ids
    ensures Collect(ids + [id], m[id := t]) == Collect(ids, m) + [t]
  {
    if ids == [] {
      assert Collect([id], m[id := t]) == [t] + Collect([], m[id := t]);
    } else {
      assert (ids + [id])[1..] == ids[1..] + [id];
      CollectFresh(ids[1..], m, id, t);
    }
  }
}
