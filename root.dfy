/** The root-package entities the services store: `Currency`, `Account` and the
    list-based `User`. Each is immutable; every "change" builds a new value. */
module Root {

  /** A currency as registered: its name and its exchange rate (`Double`, here exact). */
  datatype Currency = Currency(name: string, exchangeRate: real)

  /** An account: its id, its balance (`MoneyType`, here exact) and a copy of its currency. */
  datatype Account = Account(id: int, balance: real, currency: Currency)
  {
    /** The account with `d` added to its balance; no conversion, no bound. */
    function Diff(d: real): (r: Account)
      ensures r.id == id && r.currency == currency
      ensures r.balance - balance == d
    {
      Account(id, balance + d, currency)
    }
  }

  lemma DiffZero(a: Account)
    ensures a.Diff(0.0) == a
  {
  }

  lemma DiffCompose(a: Account, x: real, y: real)
    ensures a.Diff(x).Diff(y) == a.Diff(x + y)
  {
  }

  /** A user: id, full name and the ids of the accounts opened through it, in opening order. */
  datatype User = User(id: int, fullName: string, accounts: seq<int>)
  {
    /** Kotlin's `accounts + accountId`: the id goes at the end. */
    function AddAccount(accountId: int): (r: User)
      ensures r.id == id && r.fullName == fullName
      ensures |r.accounts| == |accounts| + 1
      ensures r.accounts[..|accounts|] == accounts && r.accounts[|accounts|] == accountId
    {
      User(id, fullName, accounts + [accountId])
    }

    /** Kotlin's `accounts - accountId`: the first occurrence is dropped, if any. */
    function RemoveAccount(accountId: int): (r: User)
      ensures r.id == id && r.fullName == fullName
      ensures accountId !in accounts ==> r.accounts == accounts
      ensures accountId in accounts ==>
                var i := IndexOf(accounts, accountId);
                r.accounts == accounts[..i] + accounts[i + 1..]
    {
      if accountId in accounts then
        RemoveFirstAt(accounts, accountId, IndexOf(accounts, accountId));
        User(id, fullName, RemoveFirst(accounts, accountId))
      else
        RemoveFirstAbsent(accounts, accountId);
        User(id, fullName, RemoveFirst(accounts, accountId))
    }

    function ChangeFullName(newFullName: string): (r: User)
      ensures r.id == id && r.accounts == accounts
      ensures r.fullName == newFullName
    {
      User(id, newFullName, accounts)
    }
  }

  /** No id occurs twice. */
  ghost predicate NoDup(s: seq<int>)
  {
    forall i, j :: 0 <= i < j < |s| ==> s[i] != s[j]
  }

  /** The position of the first `x` in `s`. */
  function IndexOf(s: seq<int>, x: int): (i: nat)
    requires x in s
    ensures i < |s| && s[i] == x
    ensures forall j :: 0 <= j < i ==> s[j] != x
  {
    if s[0] == x then 0 else 1 + IndexOf(s[1..], x)
  }

  /** `s` without its first `x` (Kotlin's `List.minus(element)`). */
  function RemoveFirst(s: seq<int>, x: int): (r: seq<int>)
    ensures |r| == if x in s then |s| - 1 else |s|
  {
    if s == [] then []
    else if s[0] == x then s[1..]
    else [s[0]] + RemoveFirst(s[1..], x)
  }

  /** Removal takes away exactly one copy of `x`, when there is one, and nothing else. */
  lemma {:induction false} RemoveFirstMultiset(s: seq<int>, x: int)
    ensures multiset(RemoveFirst(s, x)) == multiset(s) - multiset{x}
  {
    if s != [] {
      assert s == [s[0]] + s[1..];
      if s[0] != x {
        RemoveFirstMultiset(s[1..], x);
      }
    }
  }

  /** Without `x`, removal leaves the list as it was. */
  lemma {:induction false} RemoveFirstAbsent(s: seq<int>, x: int)
    requires x !in s
    ensures RemoveFirst(s, x) == s
  {
    if s != [] {
      RemoveFirstAbsent(s[1..], x);
    }
  }

  /** Removal cuts out exactly the first occurrence: the element at index `i` when no `x` comes before it. */
  lemma {:induction false} RemoveFirstAt(s: seq<int>, x: int, i: nat)
    requires i < |s| && s[i] == x
    requires forall j :: 0 <= j < i ==> s[j] != x
    ensures RemoveFirst(s, x) == s[..i] + s[i + 1..]
  {
    if i > 0 {
      var t := s[1..];
      assert s[0] != x;
      RemoveFirstAt(t, x, i - 1);
      assert s[..i] == [s[0]] + t[..i - 1];
      assert s[i + 1..] == t[i..];
    }
  }

  /** Removing an id that was just appended to a list without it restores the list. */
  lemma {:induction false} AddThenRemove(u: User, accountId: int)
    requires accountId !in u.accounts
    ensures u.AddAccount(accountId).RemoveAccount(accountId) == u
  {
    var s := u.accounts;
    assert IndexOf(s + [accountId], accountId) == |s| by {
      IndexOfAppend(s, accountId);
    }
    assert (s + [accountId])[..|s|] == s;
  }

  lemma {:induction false} IndexOfAppend(s: seq<int>, x: int)
    requires x !in s
    ensures x in s + [x] && IndexOf(s + [x], x) == |s|
  {
    if s != [] {
      assert (s + [x])[1..] == s[1..] + [x];
      IndexOfAppend(s[1..], x);
    }
  }

  /** On a list without repeats, removal takes the id out entirely and keeps the rest repeat-free. */
  lemma {:induction false} RemoveFirstNoDup(s: seq<int>, x: int)
    requires NoDup(s)
    ensures x !in RemoveFirst(s, x) && NoDup(RemoveFirst(s, x))
    ensures forall y :: y in RemoveFirst(s, x) ==> y in s
  {
    if s != [] {
      assert NoDup(s[1..]) by {
        forall i, j | 0 <= i < j < |s[1..]| ensures s[1..][i] != s[1..][j] {
          assert s[1..][i] == s[i + 1] && s[1..][j] == s[j + 1];
        }
      }
      if s[0] == x {
        assert forall j :: 0 < j < |s| ==> s[j] != s[0];
        assert x !in s[1..];
      } else {
        RemoveFirstNoDup(s[1..], x);
        var t := RemoveFirst(s[1..], x);
        assert s[0] !in t;
        var r := [s[0]] + t;
        forall i, j | 0 <= i < j < |r| ensures r[i] != r[j] {
          if i > 0 {
            assert r[i] == t[i - 1] && r[j] == t[j - 1];
          } else {
            assert r[j] == t[j - 1];
          }
        }
      }
    }
  }
}
