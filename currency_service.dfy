/** The currency registry: name -> Currency. */
module CurrencyServices {
  import opened Errors
  import opened Root

  /** `before` and `after` hold the same entry (or none) for every name but `name`. */
  ghost predicate AgreeOutside(before: map<string, Currency>, after: map<string, Currency>, name: string)
  {
    forall n :: n != name ==> (n in before <==> n in after) && (n in before ==> before[n] == after[n])
  }

  class CurrencyService {
    var currencies: map<string, Currency>

    /** Each currency is stored under its own name. */
    ghost predicate Valid()
      reads this
    {
      forall n :: n in currencies ==> currencies[n].name == n
    }

    constructor ()
      ensures Valid() && currencies == map[]
    {
      currencies := map[];
    }

    /** `currencies.values.toList()`: every stored currency once, in no particular order. */
    method GetCurrencies() returns (r: seq<Currency>)
      requires Valid()
      ensures |r| == |currencies|
      ensures forall c :: c in r <==> c in currencies.Values
      ensures forall i, j :: 0 <= i < j < |r| ==> r[i] != r[j]
    {
      r := [];
      var pending := currencies.Keys;
      while pending != {}
        invariant pending <= currencies.Keys
        invariant |r| + |pending| == |currencies|
        invariant forall i :: 0 <= i < |r| ==> r[i].name in currencies.Keys - pending && currencies[r[i].name] == r[i]
        invariant forall i, j :: 0 <= i < j < |r| ==> r[i].name != r[j].name
        invariant forall n :: n in currencies.Keys - pending ==> currencies[n] in r
        decreases pending
      {
        var n :| n in pending;
        r := r + [currencies[n]];
        pending := pending - {n};
      }
      forall c | c in currencies.Values ensures c in r {
        var n :| n in currencies && currencies[n] == c;
        assert n in currencies.Keys - pending;
      }
    }

    function GetCurrency(name: string): (r: Result<Currency>)
      reads this
      ensures r.Ok? <==> name in currencies
      ensures r.Ok? ==> r.value == currencies[name]
      ensures r.Err? ==> r.error == IdNotFound
      ensures Valid() && r.Ok? ==> r.value.name == name
    {
      if name in currencies then Ok(currencies[name]) else Err(IdNotFound)
    }

    /** `putIfAbsent`: a taken name is refused and keeps its old rate. */
    method CreateCurrency(name: string, exchangeRate: real) returns (r: Outcome)
      requires Valid()
      modifies this
      ensures Valid()
      ensures AgreeOutside(old(currencies), currencies, name)
      ensures name in old(currencies) ==> r == Fail(CreateNotAllowed) && currencies == old(currencies)
      ensures name !in old(currencies) ==>
                r == Pass && currencies == old(currencies)[name := Currency(name, exchangeRate)]
      ensures r == Pass ==> GetCurrency(name) == Ok(Currency(name, exchangeRate))
    {
      var currency := Currency(name, exchangeRate);
      if name in currencies {
        return Fail(CreateNotAllowed);
      }
      currencies := currencies[name := currency];
      r := Pass;
    }

    /** `computeIfPresent`: replaces the rate of a registered name. */
    method ChangeCurrency(name: string, exchangeRate: real) returns (r: Outcome)
      requires Valid()
      modifies this
      ensures Valid()
      ensures AgreeOutside(old(currencies), currencies, name)
      ensures name !in old(currencies) ==> r == Fail(IdNotFound) && currencies == old(currencies)
      ensures name in old(currencies) ==>
                r == Pass && currencies == old(currencies)[name := Currency(name, exchangeRate)]
    {
      if name !in currencies {
        return Fail(IdNotFound);
      }
      currencies := currencies[name := Currency(name, exchangeRate)];
      r := Pass;
    }

    method DeleteCurrency(name: string) returns (r: Outcome)
      requires Valid()
      modifies this
      ensures Valid()
      ensures AgreeOutside(old(currencies), currencies, name)
      ensures name !in old(currencies) ==> r == Fail(IdNotFound) && currencies == old(currencies)
      ensures name in old(currencies) ==> r == Pass && currencies == old(currencies) - {name}
      ensures GetCurrency(name) == Err(IdNotFound)
    {
      if name !in currencies {
        return Fail(IdNotFound);
      }
      currencies := currencies - {name};
      r := Pass;
    }
  }
}
