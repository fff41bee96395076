# cachingmap in Dafny

A model of the `cachingmap` crate. It has two memoizing maps. Each stores its values in individually allocated cells. Through a shared handle each one can only gain entries: neither ever replaces an existing entry through a shared handle, for producers that do not call back into the same map, so a reference handed out earlier keeps pointing at the same cell with the same value. `LazyMap` takes entries out only by `remove` or `clear`. For producers that do not call back into the same map (see "## Findings"), `AsyncCachingMap` changes or removes entries only through exclusive access to its inner `HashMap` (src/boxed.rs:11-12, 84-88).

- `Common` (common.dfy) holds the shared vocabulary:
  - `Box<V>` is a heap cell whose value the map never changes. Reference equality (`==`) on cells plays the part of `std::ptr::eq`.
  - `Cow<V> = Borrowed(r) | Owned(v)` is a producer's answer.
  - `CachedValue<V> = Ext(r) | New(r) | Old(r)` is a reference tagged with where it came from.
  - `Extends(m, m')` is reference stability between two states of a store: every key of `m` maps to the same cell in `m'`.
- `Boxed` (boxed.dfy) models `AsyncCachingMap`. The pure function `Step` says what one `cache_owned` call does to the key-to-cell map. `Run` says what a sequence of calls does. The lemmas prove monotonicity and first-write-wins from these two. The class `AsyncCachingMap` has the fields `cache` and `fullClone`, and its method `CacheOwned` is proved to behave exactly as `Step`. `StabilityTest` states the scenario of the crate's stability test as a verified method.
- `Lazy` (lazy.dfy) models `LazyMap`, a class with a fixed producer `f` and a `cache` field. Its invariant `Valid()` says that every stored cell holds `f` of its key. `DocExample` states the scenario of the crate's module documentation as a verified method.

Modelling choices:
- A borrowed value (`Cow::Borrowed(&V)`) is modelled as a reference to a cell that the caller owns. So `Ext`, `New` and `Old` all carry a reference, and identity can be compared across all three.
- Producers are Dafny functions: `K -> Cow<V>` for `cache_owned` and `K -> V` for `LazyMap`. They are pure and total. A producer's side effects, such as a call counter, are not modelled.
- `cache` is a method of the `CachingMap` trait, which is not part of this model. The stability test calls it. Here it is modelled as `cache_owned` with a producer that wraps every answer as `Owned`. This is an assumption about the trait's default method.
- Clone policy: with `full_clone` set (the default, src/boxed.rs:26-28), `clone` copies every entry into new cells, because `HashMap<K, Box<V>>::clone` clones each `Box`. Otherwise it returns an empty map (src/boxed.rs:56-60).

## Model

| member | source | states |
|---|---|---|
| `Boxed.Step` | src/boxed.rs:91-104 | The outcome is `Old` exactly on a hit. It is `Ext` exactly on a miss with a borrowed answer, and `New` exactly on a miss with an owned answer. A hit returns the stored cell and leaves the map unchanged, whatever the producer. A borrowed miss returns the borrowed reference and leaves the key absent. An owned miss adds exactly `key` mapped to the new cell and returns that cell. Earlier entries keep their cells, and no other key appears. |
| `Boxed.RunExtends` | src/boxed.rs:11-13 | After any sequence of `cache_owned` calls, every entry present before is still present and maps to the same cell. |
| `Boxed.RunKeys` | src/boxed.rs:96-100 | A sequence of calls adds no key except the keys it asks for. |
| `Boxed.FirstWriteWins` | src/boxed.rs:92-100 | Suppose a call stored an owned value for `key`. Then any further calls, followed by one more call for `key` with any producer, return `Old` with the cell of the first call. |
| `Boxed.BorrowedThenOwned` | src/boxed.rs:94-100 | A borrowed answer stores nothing, so a later call for the same key with an owned answer returns `New`. |
| `Boxed.AsyncCachingMap.constructor` | src/boxed.rs:26-28 | `new()` starts with an empty map and `full_clone` set to true. |
| `Boxed.AsyncCachingMap.WithFullClone` | src/boxed.rs:37-42 | `with_full_clone(b)` starts with an empty map and `full_clone == b`. |
| `Boxed.AsyncCachingMap.SetFullClone` | src/boxed.rs:48-50 | Sets the flag and leaves the map unchanged. |
| `Boxed.AsyncCachingMap.Clone` | src/boxed.rs:53-64 | Returns a new map with the same flag. With the flag set, it has the same keys and its contents equal the original's, in new cells of its own, one distinct cell per key. Without the flag, it is empty. The original is not modified. |
| `Boxed.AsyncCachingMap.CacheOwned` | src/boxed.rs:91-104 | The result and the new map are those of `Step`, with a newly allocated cell holding the owned value on an owned miss. Every earlier entry keeps its cell. |
| `Boxed.AsyncCachingMap.Cache` | src/boxed.rs:115-119 | `cache` behaves as `cache_owned` with every answer owned. So it never returns `Ext`, and on `New` it returns a new cell holding `f(key)`. |
| `Boxed.StabilityTest` | src/boxed.rs:112-124 | The first `cache` of key 12523 is `New`. After 9,999 calls on other keys, asking again returns `Old`. The two references are the same cell, and it still holds 25. |
| `Boxed.StepAsWritten` | src/boxed.rs:91-104 | `cache_owned` as written, for a producer that may call into the same map: on an owned miss, the answer is inserted into the map as the producer left it, without checking the key again. |
| `Boxed.ReentrantProducerReplacesEntry` | src/boxed.rs:92-100 | On an empty map, a producer for key 1 that first caches 10 under key 1 and then answers `Owned(20)` makes the outer call replace the cell the inner call handed out. Stability fails for that entry. |
| `Boxed.AsWrittenReplacesExactly` | src/boxed.rs:94-100 | On a miss, the as-written step replaces an entry exactly when the answer is owned and the producer itself stored a different cell for the same key. |
| `Boxed.StepRechecked` | src/boxed.rs:91-104 | `cache_owned` with the key checked again after the producer returns. No entry the producer stored is replaced. If the producer only added entries, no earlier entry is replaced. A returned store reference is what the store holds. The outcome is `New` exactly when the key is absent before and after the producer and the answer is owned. It is `Ext` exactly on a miss with a borrowed answer, which is passed through. When the second lookup finds the key, the outcome is `Old` with the producer's cell and the map as the producer left it. |
| `Boxed.ReentrantProducerKeepsEntry` | src/boxed.rs:92-100 | On the input of `ReentrantProducerReplacesEntry`, the rechecked step returns `Old` with the cell the inner call stored, and that cell stays in the map. |
| `Boxed.PureProducerAgrees` | src/boxed.rs:91-104 | For a producer that leaves the map alone, the as-written and the rechecked readings both equal `Step`, which the class and the other lemmas use. |
| `Lazy.LazyMap.constructor` | src/lib.rs:55-60 | `new(f)` is an empty map bound to `f`. |
| `Lazy.LazyMap.Get` | src/lib.rs:62-69 | The result always holds `f(key)`, and afterwards `key` maps to it. On a hit the result is the stored cell and nothing changes: the closure is not re-run. On a miss a new cell is added as the one new entry, so `len` grows by one. Earlier entries keep their cells. |
| `Lazy.LazyMap.Remove` | src/lib.rs:71-73 | Returns the stored cell if the key was present, and `None` otherwise. Afterwards the key is absent and the other entries are unchanged. |
| `Lazy.LazyMap.Clear` | src/lib.rs:75-77 | Leaves the map empty: every key is absent. |
| `Lazy.LazyMap.Len` | src/lib.rs:79-81 | The number of keys in the map. It is zero exactly when the map is empty. |
| `Lazy.DocExample` | src/lib.rs:14-36 | A repeated `get(1)` returns the same cell as the first, and both hold `compute(1)`. After `remove(&1)`, `get(1)` computes `compute(1)` again into a new cell. That this cell differs from the first is a fact of the model only: cells are never freed here, while Rust drops the removed box and may reuse its address. |

## Left out

- Reference invalidation by `remove` and `clear`: Rust's borrow checker forbids using earlier references after an exclusive borrow, but Dafny has no lifetimes. In the model, cells that were handed out stay allocated. Stability is stated as cell identity in the map.
- `UnsafeCell` and raw-pointer access (src/boxed.rs:76-80, 96-98; src/lib.rs:66, 80): these are how Rust gets interior mutability. The model uses a plain mutable field instead.
- Hashing, rehashing and bucket layout of `HashMap`: the map is a Dafny `map`. Because values are boxed, these internals do not affect the stability property.
- Thread safety: the crate documents `AsyncCachingMap` as not thread safe, and the model is sequential.
- `Deref`/`DerefMut` forwarding of the whole `HashMap` API (src/boxed.rs:72-88): only the lookup that `cache_owned` uses is modelled. With exclusive access, `DerefMut` hands out the inner `HashMap`, through which a caller can replace an entry (`insert`), change a boxed value in place (`get_mut`) or remove entries (`remove`, `retain`, `drain`). The model does not capture this: `Box.value` is a `const` and `AsyncCachingMap` has no such methods, so its stability promises hold only for the shared-handle operations modelled here.
- `full_clone()` getter (src/boxed.rs:44-46): modelled as a read of the field `fullClone`.
- `Default` (src/boxed.rs:66-70): this is `new()`, so the stability test builds its map with the constructor. The `Debug` derive is left out.
- The `CachingMap` trait, `CachedValue` and `Cow` are defined outside the modelled files. CachedValue's `is_new`/`is_old`/`is_ext` are Dafny's discriminators `New?`, `Old?`, `Ext?`. The trait's other methods, such as `cached`, are not part of this model. `Boxed.AsyncCachingMap.Cache` is the assumed reading of `cache`.
- Re-entrant producers in the class: `AsyncCachingMap.CacheOwned` takes a pure producer, so no producer can call back into the same map. The replacement that such a producer causes at src/boxed.rs:99 is modelled only on values, by `Boxed.StepAsWritten` and `Boxed.ReentrantProducerReplacesEntry`. `Extends`, `RunExtends` and `FirstWriteWins` are about producers that do not re-enter the map.
- Values with interior mutability: a `V` such as `Cell` or `RefCell` can be changed by whoever holds a reference to it, through that shared reference (src/boxed.rs:90 and src/lib.rs:53 allow such a `V`). The model's immutable `Box.value` does not capture this. Only the claim that the map itself never changes a cell's contents is modelled.
- Producer side effects: Rust producers may carry state, but Dafny functions are pure. "The closure is not run again on a hit" is stated as returning the same cell and leaving the map unchanged. Nothing counts calls.
- `Lazy.DocExample` does not model the doc test's `assert_ne!(ref1b, &comp10)`, because it depends on what `compute_value` returns for different seeds.
- `Lazy.LazyMap.Len`: `usize` is modelled as an unbounded `nat`. A map cannot reach `usize::MAX` entries.
- Cloning of `K` and `V`: modelled as copying the value into a new cell.

## Findings

| source | as written | input that shows it | evidently intended | confidence | as-written member | corrected member |
|---|---|---|---|---|---|---|
| src/boxed.rs:92-100 | The key is looked up once (line 92), before the producer runs (line 94). Then `map.insert` (line 99) stores the owned answer without looking again. | On an empty map, `cache_owned(1, \|k\| { cache.cache_owned(*k, \|_\| Cow::Owned(10)); Cow::Owned(20) })`: the inner call stores 10 and returns `New`, then the outer insert replaces that entry and drops its box. | No existing entry is replaced through a shared handle (src/boxed.rs:11-13), so the key should be checked again after the producer returns, and an entry found then should be returned as `Old`. | not executed; follows from the code's control flow | `Boxed.StepAsWritten`, `Boxed.ReentrantProducerReplacesEntry`, `Boxed.AsWrittenReplacesExactly` | `Boxed.StepRechecked`, `Boxed.ReentrantProducerKeepsEntry`, `Boxed.PureProducerAgrees` |
