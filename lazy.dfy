/** The lazy map: a memoizer bound to one fixed producer. `Get` looks a key
    up or computes, stores and returns its value; only `Remove` and `Clear`
    (which need exclusive access) ever take entries out. */
module Lazy {
  import opened Common

  class LazyMap<K(==), V> {
    const f: K -> V
    var cache: map<K, Box<V>>

    /** Every stored cell holds what the producer gives for its key. */
    ghost predicate Valid()
      reads this
    {
      forall k :: k in cache ==> cache[k].value == f(k)
    }

    /** `new(f)`: an empty map bound to the producer `f`. */
    constructor (f: K -> V)
      ensures this.f == f && cache == map[] && Valid()
    {
      this.f := f;
      cache := map[];
    }

    /** `get(key)`: on a hit, the cell stored earlier, with the map untouched
        and the producer not consulted; on a miss, a fresh cell holding
        `f(key)`, added as the one new entry. */
    method Get(key: K) returns (r: Box<V>)
      requires Valid()
      modifies this`cache
      ensures Valid() && r.value == f(key)
      ensures key in cache && cache[key] == r
      ensures Extends(old(cache), cache)
      ensures key in old(cache) ==> r == old(cache)[key] && cache == old(cache)
      ensures key !in old(cache) ==> fresh(r) && cache == old(cache)[key := r]
      ensures key !in old(cache) ==> |cache| == |old(cache)| + 1
    {
      if key !in cache {
        var b := new Box(f(key));
        cache := cache[key := b];
      }
      r := cache[key];
    }

    /** `remove(key)`: hands back the stored cell if there was one; afterwards
        the key is absent and every other entry is as it was. */
    method Remove(key: K) returns (r: Option<Box<V>>)
      requires Valid()
      modifies this`cache
      ensures Valid()
      ensures r == if key in old(cache) then Some(old(cache)[key]) else None
      ensures cache == old(cache) - {key} && key !in cache
    {
      r := if key in cache then Some(cache[key]) else None;
      cache := cache - {key};
    }

    /** `clear()`: removes every entry. */
    method Clear()
      modifies this`cache
      ensures Valid() && cache == map[]
      ensures forall k :: k !in cache
    {
      cache := map[];
    }

    /** `len()`: the number of entries. */
    function Len(): (n: nat)
      reads this
      ensures n == |cache.Keys|
      ensures n == 0 <==> cache == map[]
    {
      |cache|
    }
  }

  /** The scenario of the module documentation: a repeated `get` returns the
      very cell of the first one, both hold the computed value, and after
      `remove` the next `get` computes it again into a new cell. */
  method DocExample<V>(compute: nat -> V) returns (ref1: Box<V>, ref1b: Box<V>, ref1c: Box<V>)
    ensures ref1 == ref1b
    ensures ref1.value == compute(1) && ref1b.value == compute(1)
    ensures ref1c != ref1 && ref1c.value == compute(1)
  {
    var cache := new LazyMap<nat, V>(compute);
    ref1 := cache.Get(1);
    var ref3 := cache.Get(3);
    ref1b := cache.Get(1);
    var removed := cache.Remove(1);
    ref1c := cache.Get(1);
  }
}
