/** The per-service id counter, and the fact that keeps the services' id-allocation
    retry loops finite. */
module IdGenerators {

  class IdGenerator {
    /** The value the next call hands out (`AtomicInteger`, here unbounded). */
    var nextId: nat
    /** Every value handed out so far. */
    ghost var Issued: set<int>

    ghost predicate Valid()
      reads this
    {
      forall x :: x in Issued <==> 0 <= x < nextId
    }

    constructor ()
      ensures Valid()
      ensures nextId == 0 && Issued == {}
    {
      nextId := 0;
      Issued := {};
    }

    /** Hands out the current counter and advances it by one. */
    method Next() returns (id: int)
      requires Valid()
      modifies this
      ensures Valid()
      ensures id == old(nextId) && nextId == old(nextId) + 1
      ensures id !in old(Issued) && Issued == old(Issued) + {id}
      ensures forall x :: x in Issued ==> x <= id
    {
      id := nextId;
      nextId := nextId + 1;
      Issued := Issued + {id};
    }
  }

  /** The keys a retry loop that has reached candidate `from` may still collide with. */
  ghost function KeysFrom(keys: set<int>, from: int): set<int>
  {
    set k | k in keys && k >= from
  }

  /** A collision on `id` means one candidate fewer is left for the next try. */
  lemma CollisionShrinksKeysFrom(keys: set<int>, id: int)
    requires id in keys
    ensures |KeysFrom(keys, id + 1)| < |KeysFrom(keys, id)|
  {
    assert KeysFrom(keys, id + 1) == KeysFrom(keys, id) - {id};
  }
}
