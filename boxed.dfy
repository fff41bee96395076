/** The boxed caching map: a key-to-cell map that gains entries through a
    shared handle but never replaces one, so every reference it hands out
    keeps pointing at the same cell with the same value. */
module Boxed {
  import opened Common

  /** What one `cache_owned` call does to a store `m`: the reference it
      returns and the store afterwards. `slot` is the cell the call allocates
      for an owned value on a miss; it is ignored otherwise. */
  function Step<K, V>(m: map<K, Box<V>>, key: K, f: K -> Cow<V>, slot: Box<V>): (o: (CachedValue<V>, map<K, Box<V>>))
    // Three-way outcome: hit, borrowed miss, owned miss.
    ensures o.0.Old? <==> key in m
    ensures o.0.Ext? <==> key !in m && f(key).Borrowed?
    ensures o.0.New? <==> key !in m && f(key).Owned?
    // A hit returns the stored cell and changes nothing, whatever the producer.
    ensures key in m ==> o.0.r == m[key] && o.1 == m
    // A borrowed miss passes the borrowed reference through and stores nothing.
    ensures o.0.Ext? ==> o.0.r == f(key).r && o.1 == m && key !in o.1
    // An owned miss stores exactly one new entry, for `key`, in the new cell.
    ensures o.0.New? ==> o.0.r == slot && o.1 == m[key := slot]
    // Whatever is returned from the store is what the store now holds.
    ensures !o.0.Ext? ==> key in o.1 && o.1[key] == o.0.r
    // The store only grows, earlier cells stay put, no other key appears.
    ensures Extends(m, o.1) && o.1.Keys <= m.Keys + {key}
  {
    if key in m then (Old(m[key]), m)
    else match f(key)
      case Borrowed(b) => (Ext(b), m)
      case Owned(v) => (New(slot), m[key := slot])
  }

  /** One `cache_owned` call, with the cell it would allocate on a miss. */
  datatype Call<!K, V> = Call(key: K, producer: K -> Cow<V>, slot: Box<V>)

  /** The store after a sequence of `cache_owned` calls. */
  function Run<K, V>(m: map<K, Box<V>>, calls: seq<Call<K, V>>): map<K, Box<V>>
    decreases |calls|
  {
    if calls == [] then m
    else Run(Step(m, calls[0].key, calls[0].producer, calls[0].slot).1, calls[1..])
  }

  /** The keys that a sequence of calls asks for. */
  function RequestedKeys<K, V>(calls: seq<Call<K, V>>): set<K>
  {
    set i | 0 <= i < |calls| :: calls[i].key
  }

  /** However many calls follow, every earlier entry keeps its cell. */
  lemma {:induction false} RunExtends<K, V>(m: map<K, Box<V>>, calls: seq<Call<K, V>>)
    ensures Extends(m, Run(m, calls))
    decreases |calls|
  {
    if calls != [] {
      var m1 := Step(m, calls[0].key, calls[0].producer, calls[0].slot).1;
      RunExtends(m1, calls[1..]);
    }
  }

  /** A sequence of calls adds no key other than the ones it asks for. */
  lemma {:induction false} RunKeys<K, V>(m: map<K, Box<V>>, calls: seq<Call<K, V>>)
    ensures Run(m, calls).Keys <= m.Keys + RequestedKeys(calls)
    decreases |calls|
  {
    if calls != [] {
      var c := calls[0];
      var m1 := Step(m, c.key, c.producer, c.slot).1;
      RunKeys(m1, calls[1..]);
      assert RequestedKeys(calls) == {c.key} + RequestedKeys(calls[1..]) by {
        forall k | k in RequestedKeys(calls) ensures k in {c.key} + RequestedKeys(calls[1..]) {
          var i :| 0 <= i < |calls| && calls[i].key == k;
          if i > 0 { assert calls[1..][i - 1].key == k; }
        }
        forall k | k in RequestedKeys(calls[1..]) ensures k in RequestedKeys(calls) {
          var i :| 0 <= i < |calls[1..]| && calls[1..][i].key == k;
          assert calls[i + 1].key == k;
        }
      }
    }
  }

  /** First write wins: after a call stored an owned value for `key`, any
      number of further calls, followed by one more for `key` with any
      producer, returns `Old` with the very cell of the first call. */
  lemma FirstWriteWins<K, V>(m: map<K, Box<V>>, key: K, f: K -> Cow<V>, slot: Box<V>,
                             calls: seq<Call<K, V>>, g: K -> Cow<V>, slot': Box<V>)
    requires key !in m && f(key).Owned?
    ensures Step(m, key, f, slot).0 == New(slot)
    ensures Step(Run(Step(m, key, f, slot).1, calls), key, g, slot').0 == Old(slot)
  {
    RunExtends(Step(m, key, f, slot).1, calls);
  }

  /** A borrowed answer leaves the key absent, so the next call on that key
      asks its producer again and stores an owned answer. */
  lemma BorrowedThenOwned<K, V>(m: map<K, Box<V>>, key: K, f: K -> Cow<V>, g: K -> Cow<V>, slot: Box<V>, slot': Box<V>)
    requires key !in m && f(key).Borrowed? && g(key).Owned?
    ensures Step(Step(m, key, f, slot).1, key, g, slot').0 == New(slot')
  {
  }

  /** `cache_owned` as written, for a producer that may itself call into the
      same map through the shared handle. `inner` is the store as the
      producer leaves it and `answer` is what it returns. On a miss the owned
      answer is inserted into `inner` without checking the key again. */
  function StepAsWritten<K, V>(m: map<K, Box<V>>, key: K, inner: map<K, Box<V>>, answer: Cow<V>, slot: Box<V>): (o: (CachedValue<V>, map<K, Box<V>>))
    ensures key !in m && answer.Owned? ==> o.0 == New(slot) && o.1 == inner[key := slot]
  {
    if key in m then (Old(m[key]), m)
    else match answer
      case Borrowed(b) => (Ext(b), inner)
      case Owned(v) => (New(slot), inner[key := slot])
  }

  /** The replacement: on an empty map, a producer for key 1 that first
      caches 10 under key 1 itself and then answers `Owned(20)` makes the
      outer call overwrite the cell that the inner call just handed out. */
  lemma ReentrantProducerReplacesEntry(cell10: Box<int>, cell20: Box<int>)
    requires cell10 != cell20 && cell10.value == 10
    ensures Step(map[], 1, _ => Owned(10), cell10) == (New(cell10), map[1 := cell10])
    ensures StepAsWritten(map[], 1, map[1 := cell10], Owned(20), cell20).1 == map[1 := cell20]
    ensures !Extends(map[1 := cell10], StepAsWritten(map[], 1, map[1 := cell10], Owned(20), cell20).1)
  {
  }

  /** On a miss, the as-written step replaces an entry exactly when the
      producer stored one for the same key: the owned answer then overwrites
      the producer's cell with a cell of its own. */
  lemma AsWrittenReplacesExactly<K, V>(m: map<K, Box<V>>, key: K, inner: map<K, Box<V>>, answer: Cow<V>, slot: Box<V>)
    requires key !in m
    ensures !Extends(inner, StepAsWritten(m, key, inner, answer, slot).1)
        <==> answer.Owned? && key in inner && inner[key] != slot
  {
  }

  /** `cache_owned` with the key looked up again after the producer returns:
      an entry the producer stored itself wins, as any earlier one does. */
  function StepRechecked<K, V>(m: map<K, Box<V>>, key: K, inner: map<K, Box<V>>, answer: Cow<V>, slot: Box<V>): (o: (CachedValue<V>, map<K, Box<V>>))
    // Nothing the producer stored is replaced.
    ensures key !in m ==> Extends(inner, o.1) && o.1.Keys <= inner.Keys + {key}
    // If the producer itself only added entries, nothing earlier is replaced either.
    ensures Extends(m, inner) ==> Extends(m, o.1)
    // Whatever is returned from the store is what the store now holds.
    ensures !o.0.Ext? ==> key in o.1 && o.1[key] == o.0.r
    // Three-way outcome, with the second lookup counting as a hit.
    ensures o.0.New? <==> key !in m && key !in inner && answer.Owned?
    ensures o.0.Ext? <==> key !in m && answer.Borrowed?
    ensures o.0.Ext? ==> o.0.r == answer.r && o.1 == inner
    ensures key !in m && key in inner && answer.Owned? ==> o.0 == Old(inner[key]) && o.1 == inner
  {
    if key in m then (Old(m[key]), m)
    else match answer
      case Borrowed(b) => (Ext(b), inner)
      case Owned(v) =>
        if key in inner then (Old(inner[key]), inner)
        else (New(slot), inner[key := slot])
  }

  /** For a producer that leaves the map alone, both readings are `Step`. */
  lemma PureProducerAgrees<K, V>(m: map<K, Box<V>>, key: K, f: K -> Cow<V>, slot: Box<V>)
    ensures StepAsWritten(m, key, m, f(key), slot) == Step(m, key, f, slot)
    ensures StepRechecked(m, key, m, f(key), slot) == Step(m, key, f, slot)
  {
  }

  /** On the input of `ReentrantProducerReplacesEntry`, the rechecked step
      returns the producer's cell as `Old` and keeps it in the map. */
  lemma ReentrantProducerKeepsEntry(cell10: Box<int>, cell20: Box<int>)
    requires cell10 != cell20 && cell10.value == 10
    ensures StepRechecked(map[], 1, map[1 := cell10], Owned(20), cell20) == (Old(cell10), map[1 := cell10])
  {
  }

  class AsyncCachingMap<K(==), V> {
    var cache: map<K, Box<V>>
    var fullClone: bool

    /** `new()`: an empty map that clones its contents. */
    constructor ()
      ensures cache == map[] && fullClone
    {
      cache := map[];
      fullClone := true;
    }

    /** `with_full_clone(b)`: an empty map with the given clone policy. */
    constructor WithFullClone(fullClone: bool)
      ensures cache == map[] && this.fullClone == fullClone
    {
      cache := map[];
      this.fullClone := fullClone;
    }

    /** `set_full_clone(b)`: changes the clone policy and nothing else. */
    method SetFullClone(fullClone: bool)
      modifies this`fullClone
      ensures this.fullClone == fullClone && cache == old(cache)
    {
      this.fullClone := fullClone;
    }

    /** `clone()`: a new map with the same policy, holding copies of the
        entries in cells of its own if the policy says so, empty otherwise.
        The original is left as it is. */
    method Clone() returns (c: AsyncCachingMap<K, V>)
      ensures fresh(c) && c.fullClone == fullClone
      ensures fullClone ==> View(c.cache) == View(cache) && c.cache.Keys == cache.Keys
      ensures !fullClone ==> c.cache == map[]
      ensures forall k :: k in c.cache ==> fresh(c.cache[k])
      ensures forall k, k' :: k in c.cache && k' in c.cache && k != k' ==> c.cache[k] != c.cache[k']
    {
      var copy: map<K, Box<V>> := map[];
      if fullClone {
        var todo := cache.Keys;
        while todo != {}
          invariant todo <= cache.Keys
          invariant copy.Keys == cache.Keys - todo
          invariant forall k :: k in copy ==> fresh(copy[k]) && copy[k].value == cache[k].value
          invariant forall k, k' :: k in copy && k' in copy && k != k' ==> copy[k] != copy[k']
          decreases todo
        {
          var k :| k in todo;
          var b := new Box(cache[k].value);
          copy := copy[k := b];
          todo := todo - {k};
        }
        assert View(copy) == View(cache);
      }
      c := new AsyncCachingMap.WithFullClone(fullClone);
      c.cache := copy;
    }

    /** `cache_owned(key, f)`: insert-if-absent with a three-way outcome, as
        `Step` describes, where a miss with an owned value allocates a fresh
        cell holding that value. */
    method CacheOwned(key: K, f: K -> Cow<V>) returns (r: CachedValue<V>)
      modifies this`cache
      ensures (r, cache) == Step(old(cache), key, f, r.r)
      ensures r.New? ==> fresh(r.r) && r.Value() == f(key).v
      ensures Extends(old(cache), cache)
    {
      if key in cache {
        r := Old(cache[key]);
      } else {
        match f(key)
        case Borrowed(b) =>
          r := Ext(b);
        case Owned(v) =>
          var b := new Box(v);
          cache := cache[key := b];
          r := New(cache[key]);
      }
    }

    /** `cache(key, f)` for a producer of owned values: `cache_owned` with
        every answer wrapped as `Owned`. */
    method Cache(key: K, f: K -> V) returns (r: CachedValue<V>)
      modifies this`cache
      ensures (r, cache) == Step(old(cache), key, k => Owned(f(k)), r.r)
      ensures r.New? ==> fresh(r.r) && r.Value() == f(key)
      ensures !r.Ext?
    {
      r := CacheOwned(key, k => Owned(f(k)));
    }
  }

  /** The stability scenario: store 25 under key 12523, cache 9,999 other
      keys, then ask for 12523 again with a different producer. The second
      answer is `Old`, is the same cell as the first, and still holds 25. */
  method StabilityTest() returns (first: CachedValue<nat>, after: CachedValue<nat>)
    ensures first.New? && after.Old?
    ensures first.r == after.r
    ensures after.Value() == 25
  {
    var cache := new AsyncCachingMap<nat, nat>();
    var key := 12523;
    first := cache.Cache(key, _ => 25);
    for i := 1 to 10000
      invariant key in cache.cache && cache.cache[key] == first.r
    {
      var ignored := cache.Cache(i, j => 5 * j + 8);
    }
    after := cache.Cache(key, _ => 1);
  }
}
