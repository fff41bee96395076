/** Shared vocabulary of both caching maps: the individually allocated cell a
    stored value lives in, the producer's borrowed-or-owned answer, and the
    provenance-tagged reference that a cache lookup hands back. */
module Common {

  /** A separately allocated cell holding one value, as `Box<V>` does in the
      maps. Its contents never change; its identity is what stays stable
      while the map around it grows. A borrowed value that a producer hands
      back is modelled the same way: as a reference to a cell the caller owns. */
  class Box<V> {
    const value: V

    constructor (value: V)
      ensures this.value == value
    {
      this.value := value;
    }
  }

  /** Answer of a producer: a reference to data that already lives elsewhere,
      or a value that the map must take ownership of. */
  datatype Cow<V> = Borrowed(r: Box<V>) | Owned(v: V)

  /** A reference handed out by a cache operation, tagged with where it came
      from: `Ext` (borrowed from the producer, not stored), `New` (just
      stored) or `Old` (stored by an earlier call). */
  datatype CachedValue<V> = Ext(r: Box<V>) | New(r: Box<V>) | Old(r: Box<V>)
  {
    /** The value behind the reference (dereferencing is transparent). */
    function Value(): V
    {
      r.value
    }
  }

  datatype Option<T> = None | Some(value: T)

  /** Reference stability between two states of a store: every key of `m` is
      still present in `m'` and still maps to the very same cell. */
  predicate Extends<K, V>(m: map<K, Box<V>>, m': map<K, Box<V>>)
  {
    forall k :: k in m ==> k in m' && m'[k] == m[k]
  }

  /** The values a store holds, forgetting which cells hold them. */
  function View<K, V>(m: map<K, Box<V>>): map<K, V>
  {
    map k | k in m :: m[k].value
  }
}
