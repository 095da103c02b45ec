# evicting_cache, modelled in Dafny

A model of the fixed-capacity, array-backed key/value caches of
`evicting_cache`, one Dafny class per Java cache class, together with
proofs about them. Every cache keeps parallel arrays of keys and values of
length `capacity` and a `size` field. Some also keep a third array:
frequencies (LFU, MFU), priorities (the priority caches) or timestamps (the
time caches). What differs from policy to policy is three choices: which
slot a new key goes into, which slot is overwritten when the cache is full,
and what a read does to the order.

## Layout

| file | module | models |
|---|---|---|
| cache.dfy | `Cache` | the `Cache` interface: `null` as `Option`, the exceptions as `Error`, `Result`, the entry records, `get(key, default)`, the empty-cache rule of `element*`/`poll*`, `TimeUnit.toMillis` |
| slots.dfy | `Slots` | the array routines every cache shares: the `indexOf` scan, the shift loops, swap, fill, and the sequence functions they are proved against |
| recency.dfy | `Recency` | the held entries of the two MRU caches and what reads, puts and removes do to them |
| replacement.dfy | `Replacement` | the held entries of the two random-replacement caches and their `put` |
| reorder.dfy | `Reorder` | the adjacent-swap `sort(start)` routines (two-way for priorities and timestamps, one-way for MFU frequencies) and the gap-closing `remove(int)` |
| stable_order.dfy | `StableOrder` | the stable descending sort that the old LFU's `sort()` obtains from `Arrays.sort` |
| expiry.dfy | `Expiry` | the expiry tests of the time caches |
| recorder.dfy | `Recorder` | `CacheRecorder` and its metrics map |
| int_lru.dfy | `IntLru` | `SRC/LRUCache.java`, the int-only LRU with `-1` sentinels |
| fixed_lru.dfy | `FixedLru` | `src/com/.../fixed/LRUCache.java` |
| fixed_mru.dfy | `FixedMru` | `src/com/.../fixed/MRUCache.java`, entries packed into a suffix |
| fixed_lfu.dfy | `FixedLfu` | `src/com/.../fixed/LFUCache.java` |
| access_mru.dfy | `AccessMru` | `access/fixed/MRUCache.java`, entries packed into a prefix |
| frequency_mfu.dfy | `FrequencyMfu` | `frequency/fixed/MFUCache.java` |
| extra_priority.dfy | `ExtraPriority` | `extra/fixed/PriorityCache.java` |
| extra_random.dfy | `ExtraRandom` | `extra/fixed/RandomCache.java` |
| maps_fifo.dfy | `MapsFifo` | `maps/order/fixed/FIFOCache.java`, with recorder hooks |
| maps_priority.dfy | `MapsPriority` | `maps/extra/fixed/PriorityCache.java`, with recorder hooks |
| maps_random.dfy | `MapsRandom` | `maps/extra/fixed/RandomCache.java` |
| time_cache.dfy | `MapsTime` | `maps/time/fixed/TimeCache.java`, one time-to-live for the whole cache, with recorder hooks |
| expire_cache.dfy | `MapsExpire` | `maps/time/fixed/ExpireCache.java`, a time-to-live per entry |

## How the caches are modelled

- Each Java class is a Dafny `class`:
  - its arrays are `array` fields and `size` is a `var`;
  - a ghost view gives the occupied slots as sequences (`Keys()`, `Values()`, and the third array's view where there is one);
  - `Valid()` states the layout the class keeps: `0 <= size <= capacity` (except in the old LRU, whose `size` can run past `capacity`; see Findings), occupied slots packed into a prefix (a suffix for the old MRU), the slots beyond it empty, keys distinct, and the third array ordered in the MFU, priority and ExpireCache classes. The old LFU's frequencies are not always ordered; see Findings.
- Every method that changes the cache states its whole new view as a function of the old one, for example `View() == Stored(old(View()), capacity, key, value)`.
- Lemmas then prove what those functions mean:
  - the keys stay distinct and within capacity;
  - the key maps to the value put;
  - every other key keeps its value, and where the cache keeps one its frequency, priority or timestamp, except when a new key arrives at a full cache;
  - in that case the lemma names the entry the policy evicts: the bottom slot (LRU, MRU, LFU, MFU, priority and time caches), the top (old MRU), the back (FIFO) or the drawn slot (random).
- Java `null` is `Option`. A thrown exception is an `Err` result naming the exception class. On every path the model covers, the source throws before writing anything, so the state is left unchanged. The one path that writes and then throws, a null priority passed to the old priority cache's `put`, is not modelled; see Left out.
- Reading an array at index `-1` or `capacity` is `Err(ArrayIndexOutOfBounds)`. This happens in the empty-cache `peekBottom` of most classes and the empty-cache `peekTop` of the old MRU, because they read `keys[size - 1]` or `keys[capacity]` before any check.
- The private `get(int)`, `remove(int)` and `sort(int)` guard their index with an `IndexOutOfBoundsException`. Every caller passes an occupied index, so the guard is a precondition.
- The clock (`Instant.now().toEpochMilli()`) is a `now` parameter, read once per operation; the two reads a time cache's `put` makes when it refreshes a held key are taken to agree (see Left out).
- The random draw of `nextIndex()` is a `pick` parameter in `[0, capacity)`.
- The metric counters of the `maps` caches live in a `CacheRecorder` object that the cache holds. Each method's contract states, through `Recorder.Logged`, the counters after the call: the old counters with the events the call records replayed in order (`Recorder.Replay`).
- The old LFU's `sort()` calls `Arrays.sort` with a comparator. `Arrays.sort` is stable, so the model computes the stable descending order of the indexes by insertion (`StableOrder.Order`). The model proves that order is a permutation, is sorted, and keeps ties in index order.

## Model

| member | source | states |
|---|---|---|
| `Cache.ToMillis` | src/main/java/com/asterexcrisys/evicache/maps/time/fixed/TimeCache.java:46 | `unit.toMillis(d)` for a non-negative duration (saturation at Long.MAX_VALUE is not modelled). |
| `Cache.OrDefault` | src/main/java/com/asterexcrisys/evicache/Cache.java:132-140 | `get(key, defaultValue)`: a `null` result of `get(key)` becomes the default. |
| `Cache.Element` | src/main/java/com/asterexcrisys/evicache/Cache.java:77-91 | `elementTop`/`elementBottom`/`pollTop`/`pollBottom`: the given exception on an empty cache. |
| `Slots.Find` | src/main/java/com/asterexcrisys/evicache/access/fixed/MRUCache.java:175-185 | The first position of `key` among the key slots, or -1: what every cache's `indexOf`/`search` scan computes over its occupied slots. |
| `Slots.IndexIn` | src/main/java/com/asterexcrisys/evicache/access/fixed/MRUCache.java:179-184 | The linear scan of `indexOf`: the first index of `key` in `[lo, hi)`, or -1 when it is not there. |
| `Slots.PushFront` | src/com/asterexcrisys/evicache/fixed/LRUCache.java:145-152 | A right shift of `[0, m)` followed by writing `x` at index 0: `x` goes in front and slot `m` is dropped. |
| `Slots.PushBack` | src/main/java/com/asterexcrisys/evicache/access/fixed/MRUCache.java:191-198 | A left shift of `(i, n)` followed by writing `x` at index `n - 1`: slot `i` is dropped and `x` goes last. |
| `Slots.PushLast` | src/com/asterexcrisys/evicache/fixed/MRUCache.java:200-207 | `PushBack` over the whole array: slot `i` is dropped and `x` goes into the last slot. |
| `Slots.ShiftRight` | src/com/asterexcrisys/evicache/fixed/LRUCache.java:118-121 | The downward copy loop that opens a gap: slots `(lo, hi]` take their left neighbours. |
| `Slots.ShiftLeft` | src/main/java/com/asterexcrisys/evicache/access/fixed/MRUCache.java:209-212 | The upward copy loop that closes a gap: slots `[lo, hi - 1)` take their right neighbours. |
| `Slots.Swap` | src/main/java/com/asterexcrisys/evicache/frequency/fixed/MFUCache.java:240-250 | Exchanges two slots. |
| `Slots.Fill` | SRC/LRUCache.java:80-84 | `Arrays.fill(a, x)` or the equivalent loop: every slot holds `x`. |
| `Recency.Backed` | src/com/asterexcrisys/evicache/fixed/MRUCache.java:196-209 | The entry at `j` moved to the bottom with `value`; the entries below it move up one. |
| `Recency.Appended` | src/main/java/com/asterexcrisys/evicache/access/fixed/MRUCache.java:143-149 | A new entry added at the bottom. |
| `Recency.Removed` | src/main/java/com/asterexcrisys/evicache/access/fixed/MRUCache.java:202-215 | The entry at `j` taken out. |
| `Recency.BackedKeeps` | src/com/asterexcrisys/evicache/fixed/MRUCache.java:114-130 | Moving a held entry to the bottom keeps the keys distinct and the same keys held, puts its key last, gives it `value`, and leaves every other key with its value. |
| `Recency.BackedLast` | src/main/java/com/asterexcrisys/evicache/access/fixed/MRUCache.java:60-65 | Moving the bottom entry to the bottom with its own value changes nothing. |
| `Recency.AppendedKeeps` | src/main/java/com/asterexcrisys/evicache/access/fixed/MRUCache.java:143-149 | Adding a key not held keeps the keys distinct, maps the key to `value`, and leaves every other key with its value. |
| `Recency.RemovedKeeps` | src/main/java/com/asterexcrisys/evicache/access/fixed/MRUCache.java:202-215 | Taking out a held entry keeps the keys distinct, leaves its key without a value and every other key with its value. |
| `Recency.ReadKeeps` | src/com/asterexcrisys/evicache/fixed/MRUCache.java:114-130 | A read keeps the keys distinct and every key with its value; a held key ends at the bottom. |
| `Recency.DroppedKeeps` | src/com/asterexcrisys/evicache/fixed/MRUCache.java:160-176 | A removal keeps the keys distinct, leaves the key without a value and every other key with its value. |
| `Replacement.Assigned` | src/main/java/com/asterexcrisys/evicache/extra/fixed/RandomCache.java:144-145 | A held key's value replaced in place. |
| `Replacement.Entered` | src/main/java/com/asterexcrisys/evicache/extra/fixed/RandomCache.java:146-156 | A new key appended when there is room, or written over slot `pick` when all `capacity` slots are held. |
| `Replacement.StoredKeeps` | src/main/java/com/asterexcrisys/evicache/extra/fixed/RandomCache.java:139-157 | `put` keeps the keys distinct and at most `capacity` of them, maps the key to `value`, and leaves every other key with its value, except that a new key put into a full cache evicts the key in slot `pick`. A held key keeps its slot, so the order of the keys is unchanged. |
| `Replacement.EvictsDrawnSlot` | src/main/java/com/asterexcrisys/evicache/extra/fixed/RandomCache.java:153-155 | Filling a cache of capacity 2 with keys 1 and 2 and putting key 3 with the draw 0 evicts key 1 and writes key 3 into its slot. |
| `Reorder.RunAbove` | src/main/java/com/asterexcrisys/evicache/extra/fixed/PriorityCache.java:226-233 | The length of the leading run of ranks above `x`: the first index whose rank is not above `x`. |
| `Reorder.RunAtLeast` | src/main/java/com/asterexcrisys/evicache/extra/fixed/PriorityCache.java:236-243 | The length of the leading run of ranks not below `x`: the first index whose rank is below `x`. |
| `Reorder.SortTarget` | src/main/java/com/asterexcrisys/evicache/extra/fixed/PriorityCache.java:221-245 | The index the two-way `sort(start)` moves the entry at `start` to: in front of its equals when its rank is above its left neighbour's, behind its equals when below its right neighbour's, otherwise where it is. |
| `Reorder.Removed` | src/main/java/com/asterexcrisys/evicache/extra/fixed/PriorityCache.java:204-219 | The slots with the entry at `i` taken out of all three: the gap-closing `remove(int)`. |
| `Reorder.Rerank` | src/main/java/com/asterexcrisys/evicache/extra/fixed/PriorityCache.java:221-245 | The slots after the two-way sort moves the entry at `start` into place in all three arrays. |
| `Reorder.RunNotAbove` | src/main/java/com/asterexcrisys/evicache/frequency/fixed/MFUCache.java:230-237 | The length of the leading run of ranks not above `x`: the first index whose rank is above `x`. |
| `Reorder.SinkTarget` | src/main/java/com/asterexcrisys/evicache/frequency/fixed/MFUCache.java:226-238 | The index the one-way `sort(start)` moves the entry at `start` to: past every following rank that is not above its own, up to the first that is. |
| `Reorder.Sunk` | src/main/java/com/asterexcrisys/evicache/frequency/fixed/MFUCache.java:226-238 | The slots after the one-way sort moves the entry at `start` into place in all three arrays. |
| `Reorder.RemovedAsWritten` | src/main/java/com/asterexcrisys/evicache/frequency/fixed/MFUCache.java:210-224 | The gap-closing `remove(int)` of the two frequency caches as written: keys and values close the gap, but the ranks stay where they are and only the last occupied one is dropped. |
| `Reorder.PlacedKeepsOrder` | src/main/java/com/asterexcrisys/evicache/extra/fixed/PriorityCache.java:221-245 | Placing the one out-of-order rank where the two-way sort puts it leaves all ranks non-increasing. |
| `Reorder.AdvancedKeepsOrder` | src/main/java/com/asterexcrisys/evicache/frequency/fixed/MFUCache.java:226-238 | Placing the one out-of-order rank where the one-way sort puts it leaves all ranks non-decreasing. |
| `Reorder.TargetPlaced` | src/main/java/com/asterexcrisys/evicache/extra/fixed/PriorityCache.java:221-245 | The target of the two-way sort is the place `Placed` describes. |
| `Reorder.TargetUnique` | src/main/java/com/asterexcrisys/evicache/extra/fixed/PriorityCache.java:221-245 | Every place `Placed` allows is the target of the two-way sort. |
| `Reorder.ResortedOrdered` | src/main/java/com/asterexcrisys/evicache/extra/fixed/PriorityCache.java:221-245 | The two-way sort restores the order: when every rank but the one at `start` is in non-increasing order, all are afterwards, and the ranks are the same multiset as before. |
| `Reorder.RaisedRises` | src/main/java/com/asterexcrisys/evicache/extra/fixed/PriorityCache.java:198-200 | A rank raised in an ordered sequence can only move the entry towards index 0. |
| `Reorder.LoweredSinks` | src/main/java/com/asterexcrisys/evicache/extra/fixed/PriorityCache.java:142-145 | A rank lowered in an ordered sequence can only move the entry away from index 0. |
| `Reorder.ResortedInPlace` | src/main/java/com/asterexcrisys/evicache/extra/fixed/PriorityCache.java:225-244 | An entry the sort leaves where it is leaves the slots unchanged. |
| `Reorder.RerankKeeps` | src/main/java/com/asterexcrisys/evicache/extra/fixed/PriorityCache.java:221-245 | The cache invariants survive the two-way sort: the ranks end in order, the keys stay distinct and occupied, and the entries are permuted whole: every key is held afterwards exactly when before, with the same value and the same rank. |
| `Reorder.SinkTargetUnique` | src/main/java/com/asterexcrisys/evicache/frequency/fixed/MFUCache.java:226-238 | On ranks that are non-decreasing apart from the one at `start`, which is not below its left neighbour, the one place at or after `start` that keeps the order is `SinkTarget`. |
| `Reorder.SinkTargetPlaced` | src/main/java/com/asterexcrisys/evicache/frequency/fixed/MFUCache.java:230-237 | The target of the one-way sort keeps the order: every rank before it is not above the moved one, the next is above it. |
| `Reorder.SunkKeeps` | src/main/java/com/asterexcrisys/evicache/frequency/fixed/MFUCache.java:226-238 | The cache invariants survive the one-way sort: the ranks end non-decreasing, the keys stay distinct and occupied, and the entries are permuted whole: every key is held afterwards exactly when before, with the same value and the same rank. |
| `Reorder.RemoveLosesRank` | src/main/java/com/asterexcrisys/evicache/frequency/fixed/MFUCache.java:217-223 | As written, removing the top entry of a cache holding `1` (rank 1) and `2` (rank 2) leaves `2` with rank 1: the ranks were not moved with the keys. |
| `Reorder.RemovedKeepsRanks` | src/main/java/com/asterexcrisys/evicache/extra/fixed/PriorityCache.java:211-218 | Closing the gap in all three arrays (`Removed`) keeps every other key with its value and its rank. |
| `Reorder.MovedKeeps` | src/main/java/com/asterexcrisys/evicache/extra/fixed/PriorityCache.java:226-243 | Moving one entry alike in all three arrays keeps every key with its value and its rank. |
| `Reorder.AssignedKeeps` | src/main/java/com/asterexcrisys/evicache/extra/fixed/PriorityCache.java:142-145 | A new value and rank written into the slot of one key leave every other key's entry as it was. |
| `Reorder.PushedKeeps` | src/main/java/com/asterexcrisys/evicache/frequency/fixed/MFUCache.java:149-159 | A new key pushed in at the top in front of the first `m` slots, where `m` is every slot or, on a full cache, all but the bottom one: every other key keeps its entry, except the bottom key of a full cache, which is gone. |
| `Reorder.PlacedKeeps` | src/main/java/com/asterexcrisys/evicache/extra/fixed/PriorityCache.java:147-157 | A new key written below the first `m` slots, where `m` is every slot or, on a full cache, all but the bottom one: every other key keeps its entry, except the bottom key of a full cache, which is gone. |
| `Reorder.UpdateRerankKeeps` | src/main/java/com/asterexcrisys/evicache/extra/fixed/PriorityCache.java:142-145 | A held key's slot rewritten with a new value and rank and then sorted into place by the two-way sort: the invariants hold, the key maps to the new value and rank, and every other key keeps its entry. |
| `Reorder.AppendRerankKeeps` | src/main/java/com/asterexcrisys/evicache/extra/fixed/PriorityCache.java:147-157 | A new key appended below the occupied slots and sorted into place by the two-way sort: the invariants hold, the key maps to its value and rank, and every other key keeps its entry. |
| `Reorder.BottomRerankKeeps` | src/main/java/com/asterexcrisys/evicache/extra/fixed/PriorityCache.java:149-157 | A new key written over the bottom entry and sorted into place by the two-way sort: the invariants hold, the key maps to its value and rank, the bottom key is gone, and every other key keeps its entry. |
| `Reorder.EntryRight` | src/main/java/com/asterexcrisys/evicache/extra/fixed/PriorityCache.java:240-242 | One swap of the moving entry with its right neighbour, in all three arrays. |
| `Reorder.EntryLeft` | src/main/java/com/asterexcrisys/evicache/extra/fixed/PriorityCache.java:230-232 | One swap of the moving entry with its left neighbour, in all three arrays. |
| `Reorder.Rise` | src/main/java/com/asterexcrisys/evicache/extra/fixed/PriorityCache.java:226-233 | The upward loop of the two-way sort. The first `n` slots hold the moving entry (`kx`, `vx`, rank `x`) at `start` inside the other entries (`kr`, `vr`, ranks `pr`); it is swapped left past every neighbour whose rank is not above its own. |
| `Reorder.Fall` | src/main/java/com/asterexcrisys/evicache/extra/fixed/PriorityCache.java:236-243 | The downward loop of the two-way sort, laid out as for `Rise`: the moving entry is swapped right past every neighbour whose rank is not below its own. |
| `Reorder.Advance` | src/main/java/com/asterexcrisys/evicache/frequency/fixed/MFUCache.java:230-237 | The loop of the one-way sort, laid out as for `Rise`: the moving entry is swapped right past every neighbour whose rank is not above its own. |
| `Reorder.Settle` | src/main/java/com/asterexcrisys/evicache/extra/fixed/PriorityCache.java:225-244 | The two phases of the two-way sort, laid out as for `Rise`. |
| `Reorder.Resort` | src/main/java/com/asterexcrisys/evicache/extra/fixed/PriorityCache.java:221-245 | The two-way `sort(int start)` of the priority and expiry caches: the entry at `start` rises to the front of its equals when its rank is above its left neighbour's, otherwise sinks to the back of its equals when its rank is below its right neighbour's, otherwise stays. The caches call it with the other ranks non-increasing; then the new index keeps them non-increasing (`PlacedKeepsOrder`). |
| `Reorder.Sink` | src/main/java/com/asterexcrisys/evicache/frequency/fixed/MFUCache.java:226-238 | The one-way `sort(int start)` of the MFU cache, on ranks that are non-decreasing apart from the one at `start`, which is not below its left neighbour: the entry is swapped right past every neighbour whose rank is not above its own. Afterwards the ranks are non-decreasing. |
| `StableOrder.Range` | src/com/asterexcrisys/evicache/fixed/LFUCache.java:216-219 | The indexes `0, 1, ..., n - 1`. |
| `StableOrder.InsertIndex` | src/com/asterexcrisys/evicache/fixed/LFUCache.java:222-227 | Index `i` inserted into the order `o` behind every index whose frequency is not below its own. |
| `StableOrder.Order` | src/com/asterexcrisys/evicache/fixed/LFUCache.java:222-227 | The first `n` indexes of `p` in the order the stable descending sort gives them. |
| `StableOrder.Permute` | src/com/asterexcrisys/evicache/fixed/LFUCache.java:234-238 | `s` read in the order `o`. |
| `StableOrder.AnyAbove` | src/com/asterexcrisys/evicache/fixed/LFUCache.java:220-227 | Whether some frequency is above the first one: the flag the comparator raises in `sort()`. |
| `StableOrder.InsertIndexKeeps` | src/com/asterexcrisys/evicache/fixed/LFUCache.java:222-227 | Inserting a new, larger index keeps the order descending and stable. |
| `StableOrder.OrderSorted` | src/com/asterexcrisys/evicache/fixed/LFUCache.java:222-227 | The stable descending sort: frequencies read along the order do not increase, and equal ones keep their index order. |
| `StableOrder.InsertIndexHas` | src/com/asterexcrisys/evicache/fixed/LFUCache.java:222-227 | Inserting adds exactly the one index, and adds no repeat when it was not there. |
| `StableOrder.OrderPermutes` | src/com/asterexcrisys/evicache/fixed/LFUCache.java:216-227 | The order holds every index below `n` exactly once. |
| `StableOrder.OrderIdentity` | src/com/asterexcrisys/evicache/fixed/LFUCache.java:222-227 | Frequencies already in non-increasing order are left in place: the order is the identity. |
| `StableOrder.Gather` | src/com/asterexcrisys/evicache/fixed/LFUCache.java:234-238 | The copy loop of `sort()` on one array: slot `i` takes element `order[i]` of the snapshot `s`. |
| `Recorder.MetricsMap` | src/main/java/com/asterexcrisys/evicache/CacheRecorder.java:27-38 | The metrics map for the given counters: exactly the eight identifiers, as `MetricType.identifier()` spells them, each mapped to its counter. |
| `Recorder.RecordOne` | src/main/java/com/asterexcrisys/evicache/CacheRecorder.java:40-62 | Each event adds exactly one to its own counter and leaves the other seven unchanged. |
| `Recorder.ReplayCounts` | src/main/java/com/asterexcrisys/evicache/CacheRecorder.java:40-62 | Replaying a log adds to each counter the number of its events, and never touches size or capacity. |
| `Recorder.ReplayMonotone` | src/main/java/com/asterexcrisys/evicache/CacheRecorder.java:40-62 | The six event counters never decrease. |
| `Recorder.ReplayAppend` | src/main/java/com/asterexcrisys/evicache/CacheRecorder.java:40-62 | Recording two logs one after the other is recording their concatenation. |
| `Recorder.CacheRecorder.constructor` | src/main/java/com/asterexcrisys/evicache/CacheRecorder.java:16-25 | A new recorder has all eight counters at zero. |
| `Recorder.CacheRecorder.Metrics` | src/main/java/com/asterexcrisys/evicache/CacheRecorder.java:27-38 | `metrics()`: the map from the eight identifiers to the current counts; no counter changes. |
| `Recorder.CacheRecorder.Hit` | src/main/java/com/asterexcrisys/evicache/CacheRecorder.java:40-42 | `hit()`: the hit counter up by one, the others unchanged. |
| `Recorder.CacheRecorder.Miss` | src/main/java/com/asterexcrisys/evicache/CacheRecorder.java:44-46 | `miss()`: the miss counter up by one, the others unchanged. |
| `Recorder.CacheRecorder.Put` | src/main/java/com/asterexcrisys/evicache/CacheRecorder.java:48-50 | `put()`: the put counter up by one, the others unchanged. |
| `Recorder.CacheRecorder.Remove` | src/main/java/com/asterexcrisys/evicache/CacheRecorder.java:52-54 | `remove()`: the remove counter up by one, the others unchanged. |
| `Recorder.CacheRecorder.Eviction` | src/main/java/com/asterexcrisys/evicache/CacheRecorder.java:56-58 | `eviction()`: the eviction counter up by one, the others unchanged. |
| `Recorder.CacheRecorder.Clear` | src/main/java/com/asterexcrisys/evicache/CacheRecorder.java:60-62 | `clear()`: the clear counter up by one, the others unchanged. |
| `Recorder.CacheRecorder.Size` | src/main/java/com/asterexcrisys/evicache/CacheRecorder.java:64-69 | `size(n)`: a negative size is refused; otherwise only the size counter changes. |
| `Recorder.CacheRecorder.Capacity` | src/main/java/com/asterexcrisys/evicache/CacheRecorder.java:71-76 | `capacity(n)`: a capacity below one is refused; otherwise only the capacity counter changes. |
| `IntLru.Position` | SRC/LRUCache.java:92-99 | The first index of `key` among all key slots, or -1: what `searchKey` returns. |
| `IntLru.Cleared` | SRC/LRUCache.java:75-90 | Every slot of both arrays empty: a new or cleared cache. |
| `IntLru.Pushed` | SRC/LRUCache.java:53-60 | `key` and `value` written at index 0 after slots `[0, i)` shift down one; slot `i` is lost. |
| `IntLru.Closed` | SRC/LRUCache.java:65-72 | Slot `i` taken out, the later slots moved up one and -1 written into the last slot. |
| `IntLru.LRUCache.Create` | SRC/LRUCache.java:14-22 | The constructor: a capacity below one is refused. |
| `IntLru.LRUCache.constructor` | SRC/LRUCache.java:14-22 | Allocates both arrays and fills every slot with -1. |
| `IntLru.LRUCache.GetKeys` | SRC/LRUCache.java:6-8 | `getKeys()`: the key array itself, not a copy. |
| `IntLru.LRUCache.GetValues` | SRC/LRUCache.java:10-12 | `getValues()`: the value array itself, not a copy. |
| `IntLru.LRUCache.SearchKey` | SRC/LRUCache.java:92-99 | `searchKey(key)`: the scan over all slots, empty ones included. |
| `IntLru.LRUCache.Get` | SRC/LRUCache.java:24-41 | `get(key)`: the value of a held key, which moves to index 0; -1 otherwise. What this guarantees: `IntLru.ReadKeeps`. |
| `IntLru.LRUCache.Put` | SRC/LRUCache.java:43-61 | `put(key, value)`: ignored for a negative key; otherwise the pair ends at index 0. What this guarantees: `IntLru.StoredKeeps`. |
| `IntLru.LRUCache.Front` | SRC/LRUCache.java:29-36 | The held-key branch of `get` and `put`: the entry at `index` moves to index 0 with `value`. |
| `IntLru.LRUCache.Enter` | SRC/LRUCache.java:53-60 | The new-key branch of `put`: every slot shifts down one, the last being lost, and the pair goes to index 0. |
| `IntLru.LRUCache.Remove` | SRC/LRUCache.java:63-73 | `remove(key)`: the first slot holding `key` is closed up and -1 written last. What this guarantees: `IntLru.DroppedKeeps`. |
| `IntLru.LRUCache.Close` | SRC/LRUCache.java:65-72 | The gap-closing part of `remove`: the slots after `index` move up one and -1 goes into the last slot. |
| `IntLru.LRUCache.Clear` | SRC/LRUCache.java:75-78 | `clear()`: every slot back to -1. |
| `IntLru.FirstPosition` | SRC/LRUCache.java:92-99 | The scan stops at the first slot holding the key. |
| `IntLru.ValueAt` | SRC/LRUCache.java:92-99 | In the layout, a held key is found at its own slot and maps to the value beside it. |
| `IntLru.PositionHeld` | SRC/LRUCache.java:92-99 | In the layout, a non-negative key is found among the held slots or nowhere. |
| `IntLru.NotHeld` | SRC/LRUCache.java:92-99 | In the layout, a key not among the held slots has no value. |
| `IntLru.MovedLayout` | SRC/LRUCache.java:48-52 | Moving the held slot `i` to index 0, with any value, keeps the layout. |
| `IntLru.EnteredLayout` | SRC/LRUCache.java:53-60 | A new key pushed in at index 0, the last slot lost, keeps the layout with one more key held unless all slots were. |
| `IntLru.MovedKeeps` | SRC/LRUCache.java:29-36 | Moving the held slot `i` to index 0 with `value` gives its key that value and leaves every other key's value as it was. |
| `IntLru.EnteredKeeps` | SRC/LRUCache.java:53-60 | A new key pushed in at index 0 gets `value`; every other key keeps its value, except the key in the last slot, which is pushed out. |
| `IntLru.ReadKeeps` | SRC/LRUCache.java:24-41 | `get` keeps the layout, puts a held key at index 0 and leaves the value of every key as it was. |
| `IntLru.StoredKeeps` | SRC/LRUCache.java:43-61 | `put` of a non-negative key puts it at index 0 with `value`. Every other key keeps its value, except that a new key arriving when all slots are held pushes out the key in the last slot, the least recently used. |
| `IntLru.ClosedLayout` | SRC/LRUCache.java:65-72 | Closing up a held slot keeps the layout with one key fewer. |
| `IntLru.ClosedEmpty` | SRC/LRUCache.java:63-73 | Closing up an empty slot changes nothing: every later slot is empty too. |
| `IntLru.ClosedMoves` | SRC/LRUCache.java:65-72 | Closing up the held slot `i` keeps the value of the key at any other held slot `p`. |
| `IntLru.ClosedLoses` | SRC/LRUCache.java:65-72 | After closing up the held slot `i`, neither its key nor a key that was not held has a value. |
| `IntLru.ClosedKeeps` | SRC/LRUCache.java:65-72 | Closing up the held slot `i` leaves its key without a value and every other key with the value it had. |
| `IntLru.DroppedLayout` | SRC/LRUCache.java:63-73 | `remove` keeps the layout, one key fewer when the key was held; a negative key changes nothing. |
| `IntLru.DroppedKeeps` | SRC/LRUCache.java:63-73 | `remove` leaves its key without a value and every other key with the value it had. |
| `IntLru.EvictsLeastRecent` | SRC/LRUCache.java:43-61 | A cache of capacity 2 given keys 1 and 2, then asked for key 1 and given key 3, holds keys 3 and 1: key 2, the least recently used, is gone. |
| `FixedLru.LRUCache.Create` | src/com/asterexcrisys/evicache/fixed/LRUCache.java:13-21 | The constructor: a capacity below one is refused. |
| `FixedLru.LRUCache.constructor` | src/com/asterexcrisys/evicache/fixed/LRUCache.java:13-21 | A fresh cache is empty. |
| `FixedLru.LRUCache.IsEmpty` | src/com/asterexcrisys/evicache/fixed/LRUCache.java:39-41 | `isEmpty()`: whether `size` is zero, which is not always whether an entry is held (see `SizeDrift`). |
| `FixedLru.LRUCache.Search` | src/com/asterexcrisys/evicache/fixed/LRUCache.java:177-184 | The private `search`: the scan over the first `size` slots. A held key is found at its index, an absent one gives -1, unless `size` is above `capacity`, when the scan reads past the end of the arrays. |
| `FixedLru.LRUCache.Has` | src/com/asterexcrisys/evicache/fixed/LRUCache.java:43-45 | `has(key)`: whether the search finds the key; it fails as the search does. |
| `FixedLru.LRUCache.PeekTop` | src/com/asterexcrisys/evicache/fixed/LRUCache.java:47-52 | `peekTop()`: the top value without reordering, or null when slot 0 is empty. |
| `FixedLru.LRUCache.PeekBottom` | src/com/asterexcrisys/evicache/fixed/LRUCache.java:54-59 | `peekBottom()`: the value in slot `size - 1`. The read fails when `size` is 0 or above `capacity`; the slot is empty, and null is returned, when `size` overstates the entries held. |
| `FixedLru.LRUCache.ElementTop` | src/com/asterexcrisys/evicache/fixed/LRUCache.java:61-66 | `elementTop()`: like `peekTop()`, but an empty slot 0 has no such element. |
| `FixedLru.LRUCache.ElementBottom` | src/com/asterexcrisys/evicache/fixed/LRUCache.java:68-73 | `elementBottom()`: like `peekBottom()`, but an empty slot `size - 1` has no such element. |
| `FixedLru.LRUCache.PopTop` | src/com/asterexcrisys/evicache/fixed/LRUCache.java:75-82 | `popTop()`: the top value, taken out through `remove(keys[0])`; null when slot 0 is empty. |
| `FixedLru.LRUCache.PopBottom` | src/com/asterexcrisys/evicache/fixed/LRUCache.java:84-91 | `popBottom()`: the value in slot `size - 1`, taken out through `remove`; the read fails or gives null as in `peekBottom()`. |
| `FixedLru.LRUCache.PollTop` | src/com/asterexcrisys/evicache/fixed/LRUCache.java:93-100 | `pollTop()`: like `popTop()`, but an empty slot 0 has no such element. |
| `FixedLru.LRUCache.PollBottom` | src/com/asterexcrisys/evicache/fixed/LRUCache.java:102-109 | `pollBottom()`: like `popBottom()`, but an empty slot `size - 1` has no such element. |
| `FixedLru.LRUCache.Get` | src/com/asterexcrisys/evicache/fixed/LRUCache.java:111-127 | `get(key)`: a null key is refused; a held key's value is returned and the entry moved to the top; an absent key reads as null. What this guarantees: `FixedLru.FrontedOrder`, `FixedLru.FrontedLookup`. |
| `FixedLru.LRUCache.GetOrDefault` | src/com/asterexcrisys/evicache/fixed/LRUCache.java:129-132 | `get(key, defaultValue)`: `get(key)`, with null replaced by the default. |
| `FixedLru.LRUCache.Put` | src/com/asterexcrisys/evicache/fixed/LRUCache.java:134-153 | `put(key, value)`: a null key is refused, the search may fail; otherwise the slots become what `Stored` describes. What this guarantees: `FixedLru.EnteredKeeps`, `FixedLru.FrontedLookup`, `FixedLru.SizeDrift`. |
| `FixedLru.LRUCache.Front` | src/com/asterexcrisys/evicache/fixed/LRUCache.java:116-123 | The move-to-front of `get` and of `put` of a held key: the entry at `index` goes to the top with `value`, the ones above it move down one. |
| `FixedLru.LRUCache.Enter` | src/com/asterexcrisys/evicache/fixed/LRUCache.java:144-152 | The new-key branch of `put`: `size` up by one, every slot shifted down one (the last one lost), the entry written at the top. |
| `FixedLru.LRUCache.Remove` | src/com/asterexcrisys/evicache/fixed/LRUCache.java:155-169 | `remove(key)`: a null key is refused, the search may fail; a held key is taken out and `size` goes down by one. What this guarantees: `FixedLru.RemovedKeeps`. |
| `FixedLru.LRUCache.RemoveIndex` | src/com/asterexcrisys/evicache/fixed/LRUCache.java:160-167 | The gap-closing part of `remove`: the slots after `index` move up one and the last slot is nulled. |
| `FixedLru.LRUCache.Clear` | src/com/asterexcrisys/evicache/fixed/LRUCache.java:171-175 | `clear()`: every slot nulled and `size` zero. |
| `FixedLru.Searched` | src/com/asterexcrisys/evicache/fixed/LRUCache.java:177-184 | The private `search` as written: the index of a held key; for an absent key -1, or a read past the end of the arrays when `size` is above `capacity`. |
| `FixedLru.Fronted` | src/com/asterexcrisys/evicache/fixed/LRUCache.java:116-123 | The entry at `i` moved to the top with `value`, the ones above it one slot down. |
| `FixedLru.Entered` | src/com/asterexcrisys/evicache/fixed/LRUCache.java:144-152 | A new key at the top after every slot shifts down one: the bottom entry is lost when all `capacity` slots are held, and `size` goes up by one regardless. |
| `FixedLru.Removed` | src/com/asterexcrisys/evicache/fixed/LRUCache.java:160-167 | The entry at `i` taken out, the ones after it one slot up, and `size` down by one. |
| `FixedLru.EnteredCapped` | src/com/asterexcrisys/evicache/fixed/LRUCache.java:144-152 | The new-key branch of `put` as evidently intended: `size` grows only while below `capacity`. |
| `FixedLru.FrontedOrder` | src/com/asterexcrisys/evicache/fixed/LRUCache.java:139-152 | Moving a held entry to the top keeps the keys distinct and leaves the other entries in their order. |
| `FixedLru.FrontedLookup` | src/com/asterexcrisys/evicache/fixed/LRUCache.java:116-123 | Moving a held entry to the top keeps every key mapped to its value, the moved one to the new value. |
| `FixedLru.EnteredKeeps` | src/com/asterexcrisys/evicache/fixed/LRUCache.java:144-152 | `put` of a new key puts it at the top with its value, keeps the keys distinct, and keeps every other entry except the bottom one when all `capacity` slots were held. |
| `FixedLru.RemovedKeeps` | src/com/asterexcrisys/evicache/fixed/LRUCache.java:155-169 | Removing a held entry keeps the keys distinct and every other key mapped to its value. |
| `FixedLru.SizeDrift` | src/com/asterexcrisys/evicache/fixed/LRUCache.java:145 | As written, a cache of capacity 1 that is given keys 1 and 2 has `size` 2 with one entry held; looking up key 3 then reads past the end of the arrays, and removing key 2 leaves no entry but `size` 1. |
| `FixedLru.CappedKeepsSize` | src/com/asterexcrisys/evicache/fixed/LRUCache.java:145 | With `size` grown only while below `capacity`, `size` stays equal to the number of entries held, and the search never reads past the end of the arrays. |
| `FixedMru.MRUCache.Create` | src/com/asterexcrisys/evicache/fixed/MRUCache.java:15-24 | The constructor: a capacity below one is refused. |
| `FixedMru.MRUCache.constructor` | src/com/asterexcrisys/evicache/fixed/MRUCache.java:15-24 | Allocates both arrays, empty. |
| `FixedMru.MRUCache.IsEmpty` | src/com/asterexcrisys/evicache/fixed/MRUCache.java:42-44 | `isEmpty()`: exactly when no entry is held. |
| `FixedMru.MRUCache.Has` | src/com/asterexcrisys/evicache/fixed/MRUCache.java:46-48 | `has(key)`: a null key is refused by `indexOf`; otherwise whether the key is held. |
| `FixedMru.MRUCache.IndexOf` | src/com/asterexcrisys/evicache/fixed/MRUCache.java:184-194 | The private `indexOf`: the array index of the key among the held slots, or -1. |
| `FixedMru.MRUCache.PeekTop` | src/com/asterexcrisys/evicache/fixed/MRUCache.java:50-55 | `peekTop()`: the top value, moved to the bottom by `get(int)`; an empty cache reads `keys[capacity]`. |
| `FixedMru.MRUCache.PeekBottom` | src/com/asterexcrisys/evicache/fixed/MRUCache.java:57-62 | `peekBottom()`: the bottom value, read through `get(int)`, which leaves it where it is; null when empty. |
| `FixedMru.MRUCache.ElementTop` | src/com/asterexcrisys/evicache/fixed/MRUCache.java:64-69 | `elementTop()`: like `peekTop()`; the read of `keys[capacity]` fails before any check for emptiness. |
| `FixedMru.MRUCache.ElementBottom` | src/com/asterexcrisys/evicache/fixed/MRUCache.java:71-76 | `elementBottom()`: like `peekBottom()`, but an empty cache has no such element. |
| `FixedMru.MRUCache.PopTop` | src/com/asterexcrisys/evicache/fixed/MRUCache.java:78-85 | `popTop()`: the top value, taken out through `remove`; an empty cache reads `keys[capacity]`. |
| `FixedMru.MRUCache.PopBottom` | src/com/asterexcrisys/evicache/fixed/MRUCache.java:87-94 | `popBottom()`: the bottom value, taken out through `remove`; null when empty. |
| `FixedMru.MRUCache.PollTop` | src/com/asterexcrisys/evicache/fixed/MRUCache.java:96-103 | `pollTop()`: like `popTop()`; the read of `keys[capacity]` fails before any check for emptiness. |
| `FixedMru.MRUCache.PollBottom` | src/com/asterexcrisys/evicache/fixed/MRUCache.java:105-112 | `pollBottom()`: like `popBottom()`, but an empty cache has no such element. |
| `FixedMru.MRUCache.Get` | src/com/asterexcrisys/evicache/fixed/MRUCache.java:114-130 | `get(key)`: a null key is refused; a held key's value is returned and the entry moved to the bottom; an absent key reads as null. What this guarantees: `Recency.ReadKeeps`. |
| `FixedMru.MRUCache.GetKey` | src/com/asterexcrisys/evicache/fixed/MRUCache.java:114-130 | The non-null branch of `get(key)`: a held key's entry moved to the bottom, its value returned; a miss gives null. |
| `FixedMru.MRUCache.GetOrDefault` | src/com/asterexcrisys/evicache/fixed/MRUCache.java:132-135 | `get(key, defaultValue)`: the default in place of a null result. |
| `FixedMru.MRUCache.Put` | src/com/asterexcrisys/evicache/fixed/MRUCache.java:137-158 | `put(key, value)`: a null key is refused; otherwise the pair ends at the bottom. What this guarantees: `FixedMru.StoredKeeps`. |
| `FixedMru.MRUCache.Remove` | src/com/asterexcrisys/evicache/fixed/MRUCache.java:160-176 | `remove(key)`: a null key is refused; a held key's entry is taken out. What this guarantees: `Recency.DroppedKeeps`. |
| `FixedMru.MRUCache.Clear` | src/com/asterexcrisys/evicache/fixed/MRUCache.java:178-182 | `clear()`: every slot emptied and `size` zero. |
| `FixedMru.MRUCache.GetIndex` | src/com/asterexcrisys/evicache/fixed/MRUCache.java:196-209 | The private `get(int)`: the value at a held index, whose entry moves to the bottom. |
| `FixedMru.MRUCache.MoveBack` | src/com/asterexcrisys/evicache/fixed/MRUCache.java:119-126 | The shift toward index 0 above `index`, then the entry written at `capacity - 1` with `value`. |
| `FixedMru.MRUCache.Enter` | src/com/asterexcrisys/evicache/fixed/MRUCache.java:147-157 | The new-key branch of `put`: `size` up unless full, every slot shifted toward index 0, the pair written at `capacity - 1`. |
| `FixedMru.MRUCache.Close` | src/com/asterexcrisys/evicache/fixed/MRUCache.java:165-175 | The gap-closing part of `remove`: `size` down, the slots below `index` shifted up one, slot 0 emptied. |
| `FixedMru.Entered` | src/com/asterexcrisys/evicache/fixed/MRUCache.java:147-157 | A new key at the bottom; when all `capacity` slots are held the top entry is lost first. |
| `FixedMru.StoredKeeps` | src/com/asterexcrisys/evicache/fixed/MRUCache.java:137-158 | `put` keeps the keys distinct and at most `capacity` of them, leaves the key at the bottom mapped to `value`, and every other key with its value, except that a new key put into a full cache evicts the top entry, the one least recently placed or read. |
| `FixedMru.EvictsLeastRecent` | src/com/asterexcrisys/evicache/fixed/MRUCache.java:137-158 | A cache of capacity 2 given keys 1 and 2, then asked for key 1 and given key 3, holds keys 1 and 3: key 2, the least recently used, is the one dropped, not key 1, the most recently used. |
| `FixedMru.BackLayout` | src/com/asterexcrisys/evicache/fixed/MRUCache.java:119-126 | Moving the held slot `idx` to the end of both arrays keeps the layout and moves the entry to the bottom of the held ones, with `value`. |
| `FixedLfu.LFUCache.Create` | src/com/asterexcrisys/evicache/fixed/LFUCache.java:18-28 | The constructor: a capacity below one is refused. |
| `FixedLfu.LFUCache.constructor` | src/com/asterexcrisys/evicache/fixed/LFUCache.java:18-28 | A fresh cache is empty. |
| `FixedLfu.LFUCache.IsEmpty` | src/com/asterexcrisys/evicache/fixed/LFUCache.java:50-52 | `isEmpty()`: true exactly when no entry is held. |
| `FixedLfu.LFUCache.Has` | src/com/asterexcrisys/evicache/fixed/LFUCache.java:54-56 | `has(key)`: a null key is refused by `indexOf`; otherwise whether the key is held. |
| `FixedLfu.LFUCache.IndexOf` | src/com/asterexcrisys/evicache/fixed/LFUCache.java:185-195 | The private `indexOf`: the position of the key among the occupied slots, or -1. |
| `FixedLfu.LFUCache.Sort` | src/com/asterexcrisys/evicache/fixed/LFUCache.java:212-239 | The private `sort()`: with two or more entries, the stable order by descending frequency is computed, and the slots are rearranged in that order only if some frequency is above the top one. What this guarantees: `FixedLfu.SortedKeeps`, `FixedLfu.OrderedSorts`. |
| `FixedLfu.LFUCache.Rearrange` | src/com/asterexcrisys/evicache/fixed/LFUCache.java:231-238 | The copying part of `sort()`: slot `i` takes the key, value and frequency of slot `order[i]` of a snapshot. |
| `FixedLfu.LFUCache.GetIndex` | src/com/asterexcrisys/evicache/fixed/LFUCache.java:197-210 | The private `get(int)`: the value at an occupied index; the keys and values above it move down one and it goes to the top, while the frequencies stay where they are. |
| `FixedLfu.LFUCache.PeekTop` | src/com/asterexcrisys/evicache/fixed/LFUCache.java:58-63 | `peekTop()`: the top value, or null when empty; the read goes through `get(0)`. |
| `FixedLfu.LFUCache.PeekBottom` | src/com/asterexcrisys/evicache/fixed/LFUCache.java:65-70 | `peekBottom()`: the bottom value through `get(size - 1)`; on an empty cache the read of slot -1 fails. |
| `FixedLfu.LFUCache.ElementTop` | src/com/asterexcrisys/evicache/fixed/LFUCache.java:72-77 | `elementTop()`: like `peekTop()`, but an empty cache has no such element. |
| `FixedLfu.LFUCache.ElementBottom` | src/com/asterexcrisys/evicache/fixed/LFUCache.java:79-84 | `elementBottom()`: like `peekBottom()`; the read of slot -1 fails before the emptiness check. |
| `FixedLfu.LFUCache.PopTop` | src/com/asterexcrisys/evicache/fixed/LFUCache.java:86-93 | `popTop()`: the top value, taken out through `remove(keys[0])`; null when empty. |
| `FixedLfu.LFUCache.PopBottom` | src/com/asterexcrisys/evicache/fixed/LFUCache.java:95-102 | `popBottom()`: the bottom value, taken out through `remove(keys[size - 1])`; on an empty cache the read of slot -1 fails. |
| `FixedLfu.LFUCache.PollTop` | src/com/asterexcrisys/evicache/fixed/LFUCache.java:104-111 | `pollTop()`: like `popTop()`, but an empty cache has no such element. |
| `FixedLfu.LFUCache.PollBottom` | src/com/asterexcrisys/evicache/fixed/LFUCache.java:113-120 | `pollBottom()`: like `popBottom()`; the read of slot -1 fails before the emptiness check. |
| `FixedLfu.LFUCache.Get` | src/com/asterexcrisys/evicache/fixed/LFUCache.java:122-134 | `get(key)`: a null key is refused; a held key's value is returned and its frequency counted; an absent key reads as null. What this guarantees: `FixedLfu.ReadKeeps`. |
| `FixedLfu.LFUCache.GetOrDefault` | src/com/asterexcrisys/evicache/fixed/LFUCache.java:136-139 | `get(key, defaultValue)`: `get(key)`, with null replaced by the default. |
| `FixedLfu.LFUCache.Count` | src/com/asterexcrisys/evicache/fixed/LFUCache.java:128-130 | The step `get(key)` and `put` of a held key end with: the frequency at `index` up by one, then `sort()`. |
| `FixedLfu.LFUCache.Put` | src/com/asterexcrisys/evicache/fixed/LFUCache.java:141-158 | `put(key, value)`: a null key is refused; otherwise the slots become what `Stored` describes. What this guarantees: `FixedLfu.StoredKeeps`. |
| `FixedLfu.LFUCache.Place` | src/com/asterexcrisys/evicache/fixed/LFUCache.java:149-156 | The new-key branch of `put` before `sort()`: one more slot unless full, and the entry written with frequency 1 in the last one. |
| `FixedLfu.LFUCache.Grow` | src/com/asterexcrisys/evicache/fixed/LFUCache.java:150-155 | The new entry written with frequency 1 in the slot after the occupied ones. |
| `FixedLfu.LFUCache.Overwrite` | src/com/asterexcrisys/evicache/fixed/LFUCache.java:153-155 | The new entry written with frequency 1 over the bottom entry of a full cache. |
| `FixedLfu.LFUCache.Remove` | src/com/asterexcrisys/evicache/fixed/LFUCache.java:160-177 | `remove(key)`: a null key is refused; otherwise the slots become what `Dropped` describes. What this guarantees: `Reorder.RemoveLosesRank`. |
| `FixedLfu.LFUCache.Drop` | src/com/asterexcrisys/evicache/fixed/LFUCache.java:164-176 | `remove(key)` of a non-null key: when held, the keys and values after it move one slot towards the top, while the frequencies stay where they are and only the last occupied one is cleared. |
| `FixedLfu.LFUCache.RemoveIndex` | src/com/asterexcrisys/evicache/fixed/LFUCache.java:166-175 | The shifting part of `remove(key)`, for the held key's index. |
| `FixedLfu.LFUCache.Clear` | src/com/asterexcrisys/evicache/fixed/LFUCache.java:179-183 | `clear()`: every key and value slot nulled and size zero; the frequencies are left as they are. |
| `FixedLfu.Permuted` | src/com/asterexcrisys/evicache/fixed/LFUCache.java:234-238 | The slots read in the order `o`: slot `a` takes the entry of slot `o[a]`. |
| `FixedLfu.Sorted` | src/com/asterexcrisys/evicache/fixed/LFUCache.java:212-239 | The slots after `sort()` as written: unchanged with fewer than two entries or when no frequency is above the top one; otherwise in the stable order by descending frequency. |
| `FixedLfu.Ordered` | src/com/asterexcrisys/evicache/fixed/LFUCache.java:216-227 | The slots after `sort()` as evidently intended: always in the stable order by descending frequency. |
| `FixedLfu.Counted` | src/com/asterexcrisys/evicache/fixed/LFUCache.java:128-130 | One more use of the entry at `i`, then `sort()`. |
| `FixedLfu.Fronted` | src/com/asterexcrisys/evicache/fixed/LFUCache.java:197-210 | The slots after `get(i)` as written: the key and value at `i` go to the top, the frequencies do not move. |
| `FixedLfu.FrontedWithRank` | src/com/asterexcrisys/evicache/fixed/LFUCache.java:197-210 | The slots after `get(i)` as evidently intended: the whole entry, frequency included, goes to the top. |
| `FixedLfu.PermutedKeeps` | src/com/asterexcrisys/evicache/fixed/LFUCache.java:231-238 | Rearranging the slots along an order that holds every index once keeps the keys distinct and occupied, and every key keeps its value and its frequency. |
| `FixedLfu.SortedKeeps` | src/com/asterexcrisys/evicache/fixed/LFUCache.java:212-239 | `sort()` keeps the keys distinct and occupied, and every key keeps its value and its frequency. |
| `FixedLfu.CountedKeeps` | src/com/asterexcrisys/evicache/fixed/LFUCache.java:128-130 | One more use of a held key followed by `sort()` keeps the keys distinct and occupied, the key with its value and one more use counted, and every other key with its value and its frequency. |
| `FixedLfu.ReadKeeps` | src/com/asterexcrisys/evicache/fixed/LFUCache.java:122-134 | `get(key)` on a held key counts one more use of it and keeps its value; an absent key changes nothing. Every other key keeps its value and its frequency. |
| `FixedLfu.StoredKeeps` | src/com/asterexcrisys/evicache/fixed/LFUCache.java:141-158 | `put` keeps the keys distinct and occupied, grows the size only for a new key on a cache with room, maps the key to the value with one more use counted for a held key and a frequency of 1 for a new one. Every other key keeps its value and its frequency, except that a new key put into a full cache evicts the entry in the bottom slot. |
| `FixedLfu.OrderedSorts` | src/com/asterexcrisys/evicache/fixed/LFUCache.java:216-230 | The evidently intended `sort()` leaves the frequencies in non-increasing order and entries of equal frequency in their old order; as written, `sort()` does the same whenever some frequency is above the top one. |
| `FixedLfu.OrderedIdentity` | src/com/asterexcrisys/evicache/fixed/LFUCache.java:216-230 | Frequencies already in non-increasing order are left as they are by the intended `sort()`. |
| `FixedLfu.SortSkipsDisorder` | src/com/asterexcrisys/evicache/fixed/LFUCache.java:220-230 | As written, `sort()` leaves the frequencies 5, 3, 4 out of order, and a full cache then drops the entry of frequency 4 for a new key while the one of frequency 3 stays. |
| `FixedLfu.FrontedGainsRank` | src/com/asterexcrisys/evicache/fixed/LFUCache.java:197-210 | As written, peeking at the bottom of a cache holding `1` (frequency 5) and `2` (frequency 1) moves `2` to the top, where it takes over frequency 5. |
| `FixedLfu.FrontedWithRankKeeps` | src/com/asterexcrisys/evicache/fixed/LFUCache.java:197-210 | Moving the whole entry to the top keeps every key's value and frequency. |
| `AccessMru.MRUCache.Create` | src/main/java/com/asterexcrisys/evicache/access/fixed/MRUCache.java:18-27 | The constructor: a capacity below one is refused. |
| `AccessMru.MRUCache.constructor` | src/main/java/com/asterexcrisys/evicache/access/fixed/MRUCache.java:18-27 | Allocates both arrays, empty. |
| `AccessMru.MRUCache.IsEmpty` | src/main/java/com/asterexcrisys/evicache/access/fixed/MRUCache.java:45-47 | `isEmpty()`: exactly when no entry is held. |
| `AccessMru.MRUCache.Has` | src/main/java/com/asterexcrisys/evicache/access/fixed/MRUCache.java:49-51 | `has(key)`: a null key is refused by `indexOf`; otherwise whether the key is held. |
| `AccessMru.MRUCache.IndexOf` | src/main/java/com/asterexcrisys/evicache/access/fixed/MRUCache.java:175-185 | The private `indexOf`: the position of the key among the held slots, or -1. |
| `AccessMru.MRUCache.PeekTop` | src/main/java/com/asterexcrisys/evicache/access/fixed/MRUCache.java:53-58 | `peekTop()`: the top value, moved to the bottom by `get(0)`; null when empty. |
| `AccessMru.MRUCache.PeekBottom` | src/main/java/com/asterexcrisys/evicache/access/fixed/MRUCache.java:60-65 | `peekBottom()`: the bottom value, read through `get(size - 1)`, which leaves it in place; an empty cache reads `keys[-1]`. |
| `AccessMru.MRUCache.ElementTop` | src/main/java/com/asterexcrisys/evicache/access/fixed/MRUCache.java:67-72 | `elementTop()`: like `peekTop()`, but an empty cache has no such element. |
| `AccessMru.MRUCache.ElementBottom` | src/main/java/com/asterexcrisys/evicache/access/fixed/MRUCache.java:74-79 | `elementBottom()`: like `peekBottom()`; the read of `keys[-1]` fails before any check for emptiness. |
| `AccessMru.MRUCache.PopTop` | src/main/java/com/asterexcrisys/evicache/access/fixed/MRUCache.java:81-88 | `popTop()`: the top value, taken out through `remove(0)`; null when empty. |
| `AccessMru.MRUCache.PopBottom` | src/main/java/com/asterexcrisys/evicache/access/fixed/MRUCache.java:90-97 | `popBottom()`: the bottom value, taken out through `remove(size - 1)`; an empty cache reads `keys[-1]`. |
| `AccessMru.MRUCache.PollTop` | src/main/java/com/asterexcrisys/evicache/access/fixed/MRUCache.java:99-106 | `pollTop()`: like `popTop()`, but an empty cache has no such element. |
| `AccessMru.MRUCache.PollBottom` | src/main/java/com/asterexcrisys/evicache/access/fixed/MRUCache.java:108-115 | `pollBottom()`: like `popBottom()`; the read of `keys[-1]` fails before any check for emptiness. |
| `AccessMru.MRUCache.Get` | src/main/java/com/asterexcrisys/evicache/access/fixed/MRUCache.java:117-126 | `get(key)`: a null key is refused; a held key's value is returned and the entry moved to the bottom; an absent key reads as null. What this guarantees: `Recency.ReadKeeps`. |
| `AccessMru.MRUCache.GetOrDefault` | src/main/java/com/asterexcrisys/evicache/access/fixed/MRUCache.java:128-131 | `get(key, defaultValue)`: the default in place of a null result. |
| `AccessMru.MRUCache.Put` | src/main/java/com/asterexcrisys/evicache/access/fixed/MRUCache.java:133-150 | `put(key, value)`: a null key is refused; otherwise the pair ends at the bottom. What this guarantees: `AccessMru.StoredKeeps`. |
| `AccessMru.MRUCache.PutEntry` | src/main/java/com/asterexcrisys/evicache/access/fixed/MRUCache.java:152-157 | `put(entry)`: only a basic entry is accepted, and its key and value are put. |
| `AccessMru.MRUCache.Remove` | src/main/java/com/asterexcrisys/evicache/access/fixed/MRUCache.java:159-167 | `remove(key)`: a null key is refused; a held key's entry is taken out. What this guarantees: `Recency.DroppedKeeps`. |
| `AccessMru.MRUCache.Clear` | src/main/java/com/asterexcrisys/evicache/access/fixed/MRUCache.java:169-173 | `clear()`: every slot emptied and `size` zero. |
| `AccessMru.MRUCache.GetIndex` | src/main/java/com/asterexcrisys/evicache/access/fixed/MRUCache.java:187-200 | The private `get(int)`: the value at a held index, whose entry moves to the bottom. |
| `AccessMru.MRUCache.MoveBack` | src/main/java/com/asterexcrisys/evicache/access/fixed/MRUCache.java:138-149 | The shift toward index 0 above `index`, then the entry written at `size - 1` with `value`. |
| `AccessMru.MRUCache.Enter` | src/main/java/com/asterexcrisys/evicache/access/fixed/MRUCache.java:143-149 | The new-key branch of `put`: `size` up unless full, then the pair written at `size - 1`. |
| `AccessMru.MRUCache.RemoveIndex` | src/main/java/com/asterexcrisys/evicache/access/fixed/MRUCache.java:202-215 | The private `remove(int)`: `size` down, the slots above `index` shifted toward index 0, slot `size` emptied. |
| `AccessMru.Entered` | src/main/java/com/asterexcrisys/evicache/access/fixed/MRUCache.java:143-149 | A new key at the bottom; when all `capacity` slots are held the bottom entry is overwritten. |
| `AccessMru.StoredKeeps` | src/main/java/com/asterexcrisys/evicache/access/fixed/MRUCache.java:133-150 | `put` keeps the keys distinct and at most `capacity` of them, leaves the key at the bottom mapped to `value`, and every other key with its value, except that a new key put into a full cache evicts the bottom entry, the most recently placed or read. |
| `AccessMru.EvictsMostRecent` | src/main/java/com/asterexcrisys/evicache/access/fixed/MRUCache.java:143-149 | A cache of capacity 2 given keys 1 and 2, then asked for key 1 and given key 3, holds keys 2 and 3: key 1, the most recently used, is the one dropped. |
| `FrequencyMfu.MFUCache.Create` | src/main/java/com/asterexcrisys/evicache/frequency/fixed/MFUCache.java:19-29 | The constructor: a capacity below one is refused. |
| `FrequencyMfu.MFUCache.constructor` | src/main/java/com/asterexcrisys/evicache/frequency/fixed/MFUCache.java:19-29 | A fresh cache is empty. |
| `FrequencyMfu.MFUCache.IsEmpty` | src/main/java/com/asterexcrisys/evicache/frequency/fixed/MFUCache.java:51-53 | `isEmpty()`: true exactly when no entry is held. |
| `FrequencyMfu.MFUCache.Has` | src/main/java/com/asterexcrisys/evicache/frequency/fixed/MFUCache.java:55-57 | `has(key)`: a null key is refused by `indexOf`; otherwise whether the key is held. |
| `FrequencyMfu.MFUCache.IndexOf` | src/main/java/com/asterexcrisys/evicache/frequency/fixed/MFUCache.java:188-198 | The private `indexOf`: the position of the key among the occupied slots, or -1. |
| `FrequencyMfu.MFUCache.Sort` | src/main/java/com/asterexcrisys/evicache/frequency/fixed/MFUCache.java:226-238 | The private `sort(start)`, called with every frequency but the one at `start` in order and that one not below its left neighbour: the entry is carried right past every neighbour whose frequency is not greater. What this guarantees: `Reorder.SunkKeeps`. |
| `FrequencyMfu.MFUCache.GetIndex` | src/main/java/com/asterexcrisys/evicache/frequency/fixed/MFUCache.java:200-208 | The private `get(int)`: the value at an occupied index, whose frequency goes up by one before it is re-sorted. |
| `FrequencyMfu.MFUCache.Touch` | src/main/java/com/asterexcrisys/evicache/frequency/fixed/MFUCache.java:204-206 | The two steps `get(int)` and `put` of a held key end with: one more use of the entry at `index`, then `sort(index)`. |
| `FrequencyMfu.MFUCache.RemoveIndex` | src/main/java/com/asterexcrisys/evicache/frequency/fixed/MFUCache.java:210-224 | The private `remove(int)`: the keys and values after `index` move one slot towards the top, but the frequencies stay where they are and only the last occupied one is cleared. |
| `FrequencyMfu.MFUCache.PeekTop` | src/main/java/com/asterexcrisys/evicache/frequency/fixed/MFUCache.java:59-64 | `peekTop()`: the top value, or null when empty; the read goes through `get(0)`. |
| `FrequencyMfu.MFUCache.PeekBottom` | src/main/java/com/asterexcrisys/evicache/frequency/fixed/MFUCache.java:66-71 | `peekBottom()`: the bottom value through `get(size - 1)`; on an empty cache the read of slot -1 fails. |
| `FrequencyMfu.MFUCache.ElementTop` | src/main/java/com/asterexcrisys/evicache/frequency/fixed/MFUCache.java:73-78 | `elementTop()`: like `peekTop()`, but an empty cache has no such element. |
| `FrequencyMfu.MFUCache.ElementBottom` | src/main/java/com/asterexcrisys/evicache/frequency/fixed/MFUCache.java:80-85 | `elementBottom()`: like `peekBottom()`; the read of slot -1 fails before the emptiness check. |
| `FrequencyMfu.MFUCache.PopTop` | src/main/java/com/asterexcrisys/evicache/frequency/fixed/MFUCache.java:87-94 | `popTop()`: removes and returns the top value, or null when empty. |
| `FrequencyMfu.MFUCache.PopBottom` | src/main/java/com/asterexcrisys/evicache/frequency/fixed/MFUCache.java:96-103 | `popBottom()`: removes and returns the bottom value; on an empty cache the read of slot -1 fails. |
| `FrequencyMfu.MFUCache.PollTop` | src/main/java/com/asterexcrisys/evicache/frequency/fixed/MFUCache.java:105-112 | `pollTop()`: like `popTop()`, but an empty cache has no such element. |
| `FrequencyMfu.MFUCache.PollBottom` | src/main/java/com/asterexcrisys/evicache/frequency/fixed/MFUCache.java:114-121 | `pollBottom()`: like `popBottom()`; the read of slot -1 fails before the emptiness check. |
| `FrequencyMfu.MFUCache.Get` | src/main/java/com/asterexcrisys/evicache/frequency/fixed/MFUCache.java:123-132 | `get(key)`: a null key is refused; a held key is read through `get(int)`; an absent key reads as null. What this guarantees: `FrequencyMfu.UsedKeeps`. |
| `FrequencyMfu.MFUCache.GetOrDefault` | src/main/java/com/asterexcrisys/evicache/frequency/fixed/MFUCache.java:134-137 | `get(key, defaultValue)`: `get(key)`, with null replaced by the default. |
| `FrequencyMfu.MFUCache.Put` | src/main/java/com/asterexcrisys/evicache/frequency/fixed/MFUCache.java:139-162 | `put(key, value)`: a null key is refused; otherwise the slots become what `Stored` describes. What this guarantees: `FrequencyMfu.StoredKeeps`. |
| `FrequencyMfu.MFUCache.Update` | src/main/java/com/asterexcrisys/evicache/frequency/fixed/MFUCache.java:144-147 | The held-key branch of `put`: the new value, then one more use and a re-sort. |
| `FrequencyMfu.MFUCache.Insert` | src/main/java/com/asterexcrisys/evicache/frequency/fixed/MFUCache.java:148-161 | The new-key branch of `put`: one more slot unless full (the bottom entry is then dropped), the entry pushed in at the front with frequency 1, and a re-sort. |
| `FrequencyMfu.MFUCache.Enter` | src/main/java/com/asterexcrisys/evicache/frequency/fixed/MFUCache.java:152-159 | The shifting part of the new-key branch: the entry with frequency 1 at the front, the kept entries after it. |
| `FrequencyMfu.MFUCache.Place` | src/main/java/com/asterexcrisys/evicache/frequency/fixed/MFUCache.java:149-159 | The new entry written with frequency 1 in the slot after the occupied ones, or over the bottom entry when full. |
| `FrequencyMfu.MFUCache.Grow` | src/main/java/com/asterexcrisys/evicache/frequency/fixed/MFUCache.java:149-159 | The new entry written with frequency 1 in the slot after the occupied ones. |
| `FrequencyMfu.MFUCache.Overwrite` | src/main/java/com/asterexcrisys/evicache/frequency/fixed/MFUCache.java:149-159 | The new entry written with frequency 1 over the bottom entry of a full cache. |
| `FrequencyMfu.MFUCache.Front` | src/main/java/com/asterexcrisys/evicache/frequency/fixed/MFUCache.java:152-158 | The shift loop of `put`: the entry at `index` moves to the front, the entries above it move down one. |
| `FrequencyMfu.MFUCache.PutEntry` | src/main/java/com/asterexcrisys/evicache/frequency/fixed/MFUCache.java:164-169 | `put(entry)`: only a basic entry is accepted; its key and value are then put. |
| `FrequencyMfu.MFUCache.Remove` | src/main/java/com/asterexcrisys/evicache/frequency/fixed/MFUCache.java:171-179 | `remove(key)`: a null key is refused; a held key is taken out through `remove(int)`. What this guarantees: `Reorder.RemoveLosesRank`. |
| `FrequencyMfu.MFUCache.Clear` | src/main/java/com/asterexcrisys/evicache/frequency/fixed/MFUCache.java:181-186 | `clear()`: every slot nulled and size zero. |
| `FrequencyMfu.Used` | src/main/java/com/asterexcrisys/evicache/frequency/fixed/MFUCache.java:200-208 | The slots after the private `get(i)`: the frequency at `i` up by one, then the one-way sort from `i`. |
| `FrequencyMfu.UsedKeeps` | src/main/java/com/asterexcrisys/evicache/frequency/fixed/MFUCache.java:200-208 | A read of a held key through `get(int)` keeps the invariants, keeps the same keys, leaves the key mapped to its value and counts exactly one more use of it; every other key keeps its value and its frequency. |
| `FrequencyMfu.StoredKeeps` | src/main/java/com/asterexcrisys/evicache/frequency/fixed/MFUCache.java:139-162 | `put` keeps the invariants and stores the value: the keys stay distinct and occupied, the size grows only for a new key on a cache with room, the key then maps to the value, and its frequency is one more than before for a held key and 1 for a new one. Every other key keeps its value and its frequency, except that a new key put into a full cache evicts the bottom entry, the one used most often. |
| `FrequencyMfu.DistinctNewFront` | src/main/java/com/asterexcrisys/evicache/frequency/fixed/MFUCache.java:152-159 | Pushing a new key in front of distinct keys, possibly dropping the bottom one, keeps them distinct. |
| `ExtraPriority.PriorityCache.Create` | src/main/java/com/asterexcrisys/evicache/extra/fixed/PriorityCache.java:17-27 | The constructor: a capacity below one is refused. |
| `ExtraPriority.PriorityCache.constructor` | src/main/java/com/asterexcrisys/evicache/extra/fixed/PriorityCache.java:17-27 | A fresh cache is empty. |
| `ExtraPriority.PriorityCache.IsEmpty` | src/main/java/com/asterexcrisys/evicache/extra/fixed/PriorityCache.java:49-51 | `isEmpty()`: true exactly when no entry is held. |
| `ExtraPriority.PriorityCache.Has` | src/main/java/com/asterexcrisys/evicache/extra/fixed/PriorityCache.java:53-55 | `has(key)`: a null key is refused; otherwise whether the key is held. |
| `ExtraPriority.PriorityCache.IndexOf` | src/main/java/com/asterexcrisys/evicache/extra/fixed/PriorityCache.java:182-192 | The private `indexOf`: the position of the key among the occupied slots, or -1. |
| `ExtraPriority.PriorityCache.Sort` | src/main/java/com/asterexcrisys/evicache/extra/fixed/PriorityCache.java:221-245 | The private `sort(int start)`: the entry at `start`, the only one that may be out of order, is moved to the place `SortTarget` names, and the priorities are in order again. What this guarantees: `Reorder.RerankKeeps`, `Reorder.ResortedOrdered`. |
| `ExtraPriority.PriorityCache.GetIndex` | src/main/java/com/asterexcrisys/evicache/extra/fixed/PriorityCache.java:194-202 | The private `get(int)`: the value at an occupied index; the entry's priority goes up by one and it is re-sorted, so it can only move up. What this guarantees: `Reorder.RaisedRises`. |
| `ExtraPriority.PriorityCache.RemoveIndex` | src/main/java/com/asterexcrisys/evicache/extra/fixed/PriorityCache.java:204-219 | The private `remove(int)`: the entry at `index` is taken out and the gap closed. |
| `ExtraPriority.PriorityCache.PeekTop` | src/main/java/com/asterexcrisys/evicache/extra/fixed/PriorityCache.java:57-62 | `peekTop()`: the top value, or null when empty; reading it raises its priority by one. |
| `ExtraPriority.PriorityCache.PeekBottom` | src/main/java/com/asterexcrisys/evicache/extra/fixed/PriorityCache.java:64-69 | `peekBottom()`: the bottom value; on an empty cache the read of slot -1 fails. |
| `ExtraPriority.PriorityCache.ElementTop` | src/main/java/com/asterexcrisys/evicache/extra/fixed/PriorityCache.java:71-76 | `elementTop()`: like `peekTop()`, but an empty cache has no such element. |
| `ExtraPriority.PriorityCache.ElementBottom` | src/main/java/com/asterexcrisys/evicache/extra/fixed/PriorityCache.java:78-83 | `elementBottom()`: like `peekBottom()`; the read of slot -1 fails before the emptiness check. |
| `ExtraPriority.PriorityCache.PopTop` | src/main/java/com/asterexcrisys/evicache/extra/fixed/PriorityCache.java:85-92 | `popTop()`: removes and returns the top entry's value, or null when empty; no priority changes. |
| `ExtraPriority.PriorityCache.PopBottom` | src/main/java/com/asterexcrisys/evicache/extra/fixed/PriorityCache.java:94-101 | `popBottom()`: removes and returns the bottom entry's value; on an empty cache the read of slot -1 fails. |
| `ExtraPriority.PriorityCache.PollTop` | src/main/java/com/asterexcrisys/evicache/extra/fixed/PriorityCache.java:103-110 | `pollTop()`: like `popTop()`, but an empty cache has no such element. |
| `ExtraPriority.PriorityCache.PollBottom` | src/main/java/com/asterexcrisys/evicache/extra/fixed/PriorityCache.java:112-119 | `pollBottom()`: like `popBottom()`; the read of slot -1 fails before the emptiness check. |
| `ExtraPriority.PriorityCache.Get` | src/main/java/com/asterexcrisys/evicache/extra/fixed/PriorityCache.java:121-130 | `get(key)`: the mapped value or null; a hit raises the entry's priority by one and re-sorts it. |
| `ExtraPriority.PriorityCache.GetKey` | src/main/java/com/asterexcrisys/evicache/extra/fixed/PriorityCache.java:125-129 | The non-null branch of `get(key)`: a miss changes nothing, a hit is read through `get(int)`. |
| `ExtraPriority.PriorityCache.GetOrDefault` | src/main/java/com/asterexcrisys/evicache/extra/fixed/PriorityCache.java:132-135 | `get(key, defaultValue)`: `get(key)`, with null replaced by the default. |
| `ExtraPriority.PriorityCache.Put` | src/main/java/com/asterexcrisys/evicache/extra/fixed/PriorityCache.java:137-159 | `put(key, value, priority)`: a held key gets the new value and priority and is re-sorted; a new key is appended and sorted up when there is room, replaces the bottom entry when its priority is strictly above the bottom one's, and is dropped otherwise. What this guarantees: `ExtraPriority.StoredKeeps`. |
| `ExtraPriority.PriorityCache.Insert` | src/main/java/com/asterexcrisys/evicache/extra/fixed/PriorityCache.java:146-158 | The new-key branch of `put`: appended when there is room, else replacing the bottom entry or dropped. |
| `ExtraPriority.PriorityCache.Update` | src/main/java/com/asterexcrisys/evicache/extra/fixed/PriorityCache.java:142-145 | The held-key branch of `put`: new value and priority at `index`, then re-sorted. |
| `ExtraPriority.PriorityCache.Append` | src/main/java/com/asterexcrisys/evicache/extra/fixed/PriorityCache.java:147-157 | The new-key branch of `put` on a cache with room: one more slot, written at the bottom, sorted up. |
| `ExtraPriority.PriorityCache.ReplaceBottom` | src/main/java/com/asterexcrisys/evicache/extra/fixed/PriorityCache.java:149-157 | The new-key branch of `put` on a full cache, past the rejection test: the bottom entry overwritten, then sorted up. |
| `ExtraPriority.PriorityCache.PutDefault` | src/main/java/com/asterexcrisys/evicache/extra/fixed/PriorityCache.java:161-163 | `put(key, value)`: `put(key, value, 0)`. |
| `ExtraPriority.PriorityCache.Remove` | src/main/java/com/asterexcrisys/evicache/extra/fixed/PriorityCache.java:165-173 | `remove(key)`: a held key is taken out; otherwise nothing changes. What this guarantees: `Reorder.RemovedKeepsRanks`. |
| `ExtraPriority.PriorityCache.Clear` | src/main/java/com/asterexcrisys/evicache/extra/fixed/PriorityCache.java:175-180 | `clear()`: every slot emptied, size zero. |
| `ExtraPriority.StoredKeeps` | src/main/java/com/asterexcrisys/evicache/extra/fixed/PriorityCache.java:137-159 | `put` keeps the priorities in non-increasing order and the keys distinct and occupied, and grows the size only for a new key on a cache with room. When the put is admitted the key maps to the value with the given priority; otherwise nothing changes. Every other key keeps its value and its priority, except that an admitted new key on a full cache evicts the bottom entry, the one of lowest priority. |
| `ExtraRandom.RandomCache.Create` | src/main/java/com/asterexcrisys/evicache/extra/fixed/RandomCache.java:24-33 | The constructor: a capacity below one is refused. |
| `ExtraRandom.RandomCache.constructor` | src/main/java/com/asterexcrisys/evicache/extra/fixed/RandomCache.java:24-33 | Allocates both arrays, empty. |
| `ExtraRandom.RandomCache.IsEmpty` | src/main/java/com/asterexcrisys/evicache/extra/fixed/RandomCache.java:51-53 | `isEmpty()`: exactly when no entry is held. |
| `ExtraRandom.RandomCache.Has` | src/main/java/com/asterexcrisys/evicache/extra/fixed/RandomCache.java:55-57 | `has(key)`: a null key is refused by `indexOf`; otherwise whether the key is held. |
| `ExtraRandom.RandomCache.IndexOf` | src/main/java/com/asterexcrisys/evicache/extra/fixed/RandomCache.java:182-192 | The private `indexOf`: the position of the key among the held slots, or -1. |
| `ExtraRandom.RandomCache.PeekTop` | src/main/java/com/asterexcrisys/evicache/extra/fixed/RandomCache.java:59-64 | `peekTop()`: the top value, null when empty. |
| `ExtraRandom.RandomCache.PeekBottom` | src/main/java/com/asterexcrisys/evicache/extra/fixed/RandomCache.java:66-71 | `peekBottom()`: the bottom value; an empty cache reads `keys[-1]`. |
| `ExtraRandom.RandomCache.ElementTop` | src/main/java/com/asterexcrisys/evicache/extra/fixed/RandomCache.java:73-78 | `elementTop()`: like `peekTop()`, but an empty cache has no such element. |
| `ExtraRandom.RandomCache.ElementBottom` | src/main/java/com/asterexcrisys/evicache/extra/fixed/RandomCache.java:80-85 | `elementBottom()`: like `peekBottom()`; the read of `keys[-1]` fails before any check for emptiness. |
| `ExtraRandom.RandomCache.PopTop` | src/main/java/com/asterexcrisys/evicache/extra/fixed/RandomCache.java:87-94 | `popTop()`: the top value, taken out through `remove(0)`; null when empty. |
| `ExtraRandom.RandomCache.PopBottom` | src/main/java/com/asterexcrisys/evicache/extra/fixed/RandomCache.java:96-103 | `popBottom()`: the bottom value, taken out through `remove(size - 1)`; an empty cache reads `keys[-1]`. |
| `ExtraRandom.RandomCache.PollTop` | src/main/java/com/asterexcrisys/evicache/extra/fixed/RandomCache.java:105-112 | `pollTop()`: like `popTop()`, but an empty cache has no such element. |
| `ExtraRandom.RandomCache.PollBottom` | src/main/java/com/asterexcrisys/evicache/extra/fixed/RandomCache.java:114-121 | `pollBottom()`: like `popBottom()`; the read of `keys[-1]` fails before any check for emptiness. |
| `ExtraRandom.RandomCache.Get` | src/main/java/com/asterexcrisys/evicache/extra/fixed/RandomCache.java:123-132 | `get(key)`: a null key is refused; otherwise the key's value, null when absent; nothing moves. |
| `ExtraRandom.RandomCache.GetOrDefault` | src/main/java/com/asterexcrisys/evicache/extra/fixed/RandomCache.java:134-137 | `get(key, defaultValue)`: the default in place of a null result. |
| `ExtraRandom.RandomCache.Put` | src/main/java/com/asterexcrisys/evicache/extra/fixed/RandomCache.java:139-157 | `put(key, value)` with `pick` the index `nextIndex()` draws: a null key is refused and nothing changes; otherwise the slots become what `Stored` describes. What this guarantees: `Replacement.StoredKeeps`. |
| `ExtraRandom.RandomCache.PutEntry` | src/main/java/com/asterexcrisys/evicache/extra/fixed/RandomCache.java:159-164 | `put(entry)`: only a basic entry is accepted, and its key and value are put. |
| `ExtraRandom.RandomCache.Remove` | src/main/java/com/asterexcrisys/evicache/extra/fixed/RandomCache.java:166-174 | `remove(key)`: a null key is refused; a held key's entry is taken out. What this guarantees: `Recency.DroppedKeeps`. |
| `ExtraRandom.RandomCache.Clear` | src/main/java/com/asterexcrisys/evicache/extra/fixed/RandomCache.java:176-180 | `clear()`: every slot emptied and `size` zero. |
| `ExtraRandom.RandomCache.GetIndex` | src/main/java/com/asterexcrisys/evicache/extra/fixed/RandomCache.java:198-203 | The private `get(int)`: the value at a held index; nothing moves. |
| `ExtraRandom.RandomCache.Assign` | src/main/java/com/asterexcrisys/evicache/extra/fixed/RandomCache.java:144-145 | The held-key branch of `put`: the value replaced in place. |
| `ExtraRandom.RandomCache.Append` | src/main/java/com/asterexcrisys/evicache/extra/fixed/RandomCache.java:147-151 | The new-key branch of `put` while there is room: `size` up and the pair written at `size - 1`. |
| `ExtraRandom.RandomCache.Overwrite` | src/main/java/com/asterexcrisys/evicache/extra/fixed/RandomCache.java:153-155 | The new-key branch of `put` when full: the pair written over slot `pick`. |
| `ExtraRandom.RandomCache.RemoveIndex` | src/main/java/com/asterexcrisys/evicache/extra/fixed/RandomCache.java:205-218 | The private `remove(int)`: `size` down, the slots above `index` shifted toward index 0, slot `size` emptied. |
| `MapsFifo.FIFOCache.Create` | src/main/java/com/asterexcrisys/evicache/maps/order/fixed/FIFOCache.java:24-35 | The constructor: a capacity below one is refused. |
| `MapsFifo.FIFOCache.constructor` | src/main/java/com/asterexcrisys/evicache/maps/order/fixed/FIFOCache.java:24-35 | A fresh cache has recorded one clear: the constructor ends by calling `clear()`. |
| `MapsFifo.FIFOCache.Metrics` | src/main/java/com/asterexcrisys/evicache/maps/order/fixed/FIFOCache.java:57-64 | `metrics()`: refused when metrics are off; otherwise size and capacity are recorded first. |
| `MapsFifo.FIFOCache.IsEmpty` | src/main/java/com/asterexcrisys/evicache/maps/order/fixed/FIFOCache.java:66-68 | `isEmpty()`: true exactly when no entry is held. |
| `MapsFifo.FIFOCache.Has` | src/main/java/com/asterexcrisys/evicache/maps/order/fixed/FIFOCache.java:70-72 | `has(key)`: a null key is refused; otherwise whether the key is held. |
| `MapsFifo.FIFOCache.IndexOf` | src/main/java/com/asterexcrisys/evicache/maps/order/fixed/FIFOCache.java:224-234 | The private `indexOf`: the position of the key among the occupied slots, or -1. |
| `MapsFifo.FIFOCache.GetIndex` | src/main/java/com/asterexcrisys/evicache/maps/order/fixed/FIFOCache.java:236-241 | The private `get(int)`: the value at an occupied index; nothing moves. |
| `MapsFifo.FIFOCache.RemoveIndex` | src/main/java/com/asterexcrisys/evicache/maps/order/fixed/FIFOCache.java:243-256 | The private `remove(int)`: the entry at `index` is taken out and the gap closed. |
| `MapsFifo.FIFOCache.PeekTop` | src/main/java/com/asterexcrisys/evicache/maps/order/fixed/FIFOCache.java:74-79 | `peekTop()`: the newest value, or null when empty. |
| `MapsFifo.FIFOCache.PeekBottom` | src/main/java/com/asterexcrisys/evicache/maps/order/fixed/FIFOCache.java:81-86 | `peekBottom()`: the oldest value; on an empty cache the read of slot -1 fails. |
| `MapsFifo.FIFOCache.ElementTop` | src/main/java/com/asterexcrisys/evicache/maps/order/fixed/FIFOCache.java:88-93 | `elementTop()`: the newest value; an empty cache underflows. |
| `MapsFifo.FIFOCache.ElementBottom` | src/main/java/com/asterexcrisys/evicache/maps/order/fixed/FIFOCache.java:95-100 | `elementBottom()`: the oldest value; on an empty cache the read of slot -1 fails. |
| `MapsFifo.FIFOCache.PopTop` | src/main/java/com/asterexcrisys/evicache/maps/order/fixed/FIFOCache.java:102-109 | `popTop()`: removes and returns the newest entry's value, or null when empty. |
| `MapsFifo.FIFOCache.PopBottom` | src/main/java/com/asterexcrisys/evicache/maps/order/fixed/FIFOCache.java:111-118 | `popBottom()`: removes and returns the oldest entry's value; on an empty cache the read of slot -1 fails. |
| `MapsFifo.FIFOCache.PollTop` | src/main/java/com/asterexcrisys/evicache/maps/order/fixed/FIFOCache.java:120-127 | `pollTop()`: like `popTop()`, but an empty cache underflows. |
| `MapsFifo.FIFOCache.PollBottom` | src/main/java/com/asterexcrisys/evicache/maps/order/fixed/FIFOCache.java:129-136 | `pollBottom()`: like `popBottom()`; the read of slot -1 fails before the underflow check. |
| `MapsFifo.FIFOCache.Get` | src/main/java/com/asterexcrisys/evicache/maps/order/fixed/FIFOCache.java:138-153 | `get(key)`: the mapped value or null; nothing moves; one hit or one miss is recorded. |
| `MapsFifo.FIFOCache.GetOrDefault` | src/main/java/com/asterexcrisys/evicache/maps/order/fixed/FIFOCache.java:155-158 | `get(key, defaultValue)`: `get(key)`, with null replaced by the default. |
| `MapsFifo.FIFOCache.Put` | src/main/java/com/asterexcrisys/evicache/maps/order/fixed/FIFOCache.java:160-188 | `put(key, value)`: a held key gets the new value in place; a new key is pushed in at the front, dropping the back entry when full. What this guarantees: `MapsFifo.StoredKeeps`. |
| `MapsFifo.FIFOCache.Insert` | src/main/java/com/asterexcrisys/evicache/maps/order/fixed/FIFOCache.java:173-187 | The new-key branch of `put`: grow unless full, then push the entry in at the front. |
| `MapsFifo.FIFOCache.PutEntry` | src/main/java/com/asterexcrisys/evicache/maps/order/fixed/FIFOCache.java:190-195 | `put(entry)`: only a basic entry is accepted; its key and value are then put. |
| `MapsFifo.FIFOCache.Remove` | src/main/java/com/asterexcrisys/evicache/maps/order/fixed/FIFOCache.java:197-213 | `remove(key)`: a held key is taken out (hit and remove recorded); otherwise a miss. |
| `MapsFifo.FIFOCache.Clear` | src/main/java/com/asterexcrisys/evicache/maps/order/fixed/FIFOCache.java:215-222 | `clear()`: every slot nulled, size zero, one clear recorded. |
| `MapsFifo.DistinctConsPrefix` | src/main/java/com/asterexcrisys/evicache/maps/order/fixed/FIFOCache.java:181-186 | Pushing a new key in front of distinct keys, possibly dropping the back one, keeps them distinct. |
| `MapsFifo.StoredKeeps` | src/main/java/com/asterexcrisys/evicache/maps/order/fixed/FIFOCache.java:160-188 | `put` keeps the keys distinct and grows the size only for a new key on a cache with room; afterwards the key maps to the value, and a new key stands at the front. Every other key is held exactly when before and keeps its value, except that a new key on a full cache evicts the back entry, the oldest one. |
| `MapsPriority.PriorityCache.Create` | src/main/java/com/asterexcrisys/evicache/maps/extra/fixed/PriorityCache.java:25-37 | The constructor: a capacity below one is refused. |
| `MapsPriority.PriorityCache.constructor` | src/main/java/com/asterexcrisys/evicache/maps/extra/fixed/PriorityCache.java:25-37 | A fresh cache is empty and has recorded one clear: the constructor ends by calling `clear()`. |
| `MapsPriority.PriorityCache.Metrics` | src/main/java/com/asterexcrisys/evicache/maps/extra/fixed/PriorityCache.java:59-66 | `metrics()`: refused when metrics are off; otherwise size and capacity are recorded first. |
| `MapsPriority.PriorityCache.IsEmpty` | src/main/java/com/asterexcrisys/evicache/maps/extra/fixed/PriorityCache.java:72-74 | `isEmpty()`: true exactly when no entry is held. |
| `MapsPriority.PriorityCache.Has` | src/main/java/com/asterexcrisys/evicache/maps/extra/fixed/PriorityCache.java:76-78 | `has(key)`: a null key is refused; otherwise whether the key is held. |
| `MapsPriority.PriorityCache.IndexOf` | src/main/java/com/asterexcrisys/evicache/maps/extra/fixed/PriorityCache.java:237-247 | The private `indexOf`: the position of the key among the occupied slots, or -1. |
| `MapsPriority.PriorityCache.Sort` | src/main/java/com/asterexcrisys/evicache/maps/extra/fixed/PriorityCache.java:276-300 | The private `sort(int start)`: the entry at `start`, the only one that may be out of order, is moved to the place `SortTarget` names, and the priorities are in order again. What this guarantees: `Reorder.RerankKeeps`, `Reorder.ResortedOrdered`. |
| `MapsPriority.PriorityCache.GetIndex` | src/main/java/com/asterexcrisys/evicache/maps/extra/fixed/PriorityCache.java:249-257 | The private `get(int)`: the value at an occupied index; the entry's priority goes up by one and it is re-sorted, so it can only move up. What this guarantees: `Reorder.RaisedRises`. |
| `MapsPriority.PriorityCache.RemoveIndex` | src/main/java/com/asterexcrisys/evicache/maps/extra/fixed/PriorityCache.java:259-274 | The private `remove(int)`: the entry at `index` is taken out and the gap closed. |
| `MapsPriority.PriorityCache.PeekTop` | src/main/java/com/asterexcrisys/evicache/maps/extra/fixed/PriorityCache.java:80-85 | `peekTop()`: the top value, or null when empty; reading it raises its priority by one. |
| `MapsPriority.PriorityCache.PeekBottom` | src/main/java/com/asterexcrisys/evicache/maps/extra/fixed/PriorityCache.java:87-92 | `peekBottom()`: the bottom value; on an empty cache the read of slot -1 fails. |
| `MapsPriority.PriorityCache.ElementTop` | src/main/java/com/asterexcrisys/evicache/maps/extra/fixed/PriorityCache.java:94-99 | `elementTop()`: like `peekTop()`, but an empty cache underflows. |
| `MapsPriority.PriorityCache.ElementBottom` | src/main/java/com/asterexcrisys/evicache/maps/extra/fixed/PriorityCache.java:101-106 | `elementBottom()`: like `peekBottom()`; the read of slot -1 fails before the emptiness check. |
| `MapsPriority.PriorityCache.PopTop` | src/main/java/com/asterexcrisys/evicache/maps/extra/fixed/PriorityCache.java:108-115 | `popTop()`: removes and returns the top entry's value, or null when empty; no priority changes. |
| `MapsPriority.PriorityCache.PopBottom` | src/main/java/com/asterexcrisys/evicache/maps/extra/fixed/PriorityCache.java:117-124 | `popBottom()`: removes and returns the bottom entry's value; on an empty cache the read of slot -1 fails. |
| `MapsPriority.PriorityCache.PollTop` | src/main/java/com/asterexcrisys/evicache/maps/extra/fixed/PriorityCache.java:126-133 | `pollTop()`: like `popTop()`, but an empty cache underflows. |
| `MapsPriority.PriorityCache.PollBottom` | src/main/java/com/asterexcrisys/evicache/maps/extra/fixed/PriorityCache.java:135-142 | `pollBottom()`: like `popBottom()`; the read of slot -1 fails before the emptiness check. |
| `MapsPriority.PriorityCache.Get` | src/main/java/com/asterexcrisys/evicache/maps/extra/fixed/PriorityCache.java:144-159 | `get(key)`: the mapped value or null; a hit is recorded and raises the entry's priority by one, a miss is recorded. |
| `MapsPriority.PriorityCache.GetKey` | src/main/java/com/asterexcrisys/evicache/maps/extra/fixed/PriorityCache.java:148-158 | The non-null branch of `get(key)`: a miss is recorded and changes nothing, a hit is recorded and read through `get(int)`. |
| `MapsPriority.PriorityCache.GetOrDefault` | src/main/java/com/asterexcrisys/evicache/maps/extra/fixed/PriorityCache.java:161-164 | `get(key, defaultValue)`: `get(key)`, with null replaced by the default. |
| `MapsPriority.PriorityCache.Put` | src/main/java/com/asterexcrisys/evicache/maps/extra/fixed/PriorityCache.java:166-200 | `put(key, value, priority)`: a null key or priority is refused before anything is recorded; otherwise one put is recorded. A held key records a hit, gets the new value and priority and is re-sorted; a new key is appended and sorted up when there is room, and on a full cache either replaces the bottom entry (recording an eviction) when its priority is strictly above the bottom one's, or is dropped. Each `Resorted` triple in the contract is `Reorder.Rerank` of the rewritten, appended or replaced slots, the form `Reorder.UpdateRerankKeeps`, `Reorder.AppendRerankKeeps` and `Reorder.BottomRerankKeeps` are about. What this guarantees: `Reorder.UpdateRerankKeeps`, `Reorder.AppendRerankKeeps`, `Reorder.BottomRerankKeeps`. |
| `MapsPriority.PriorityCache.PutKey` | src/main/java/com/asterexcrisys/evicache/maps/extra/fixed/PriorityCache.java:176-199 | The non-null branch of `put`, after the put is recorded: a held key records a hit and is updated, a new key is inserted. |
| `MapsPriority.PriorityCache.Insert` | src/main/java/com/asterexcrisys/evicache/maps/extra/fixed/PriorityCache.java:184-199 | The new-key branch of `put`: appended when there is room, else replacing the bottom entry (an eviction) or dropped. |
| `MapsPriority.PriorityCache.Update` | src/main/java/com/asterexcrisys/evicache/maps/extra/fixed/PriorityCache.java:177-183 | The held-key branch of `put`: new value and priority at `index`, then re-sorted. |
| `MapsPriority.PriorityCache.Append` | src/main/java/com/asterexcrisys/evicache/maps/extra/fixed/PriorityCache.java:185-198 | The new-key branch of `put` on a cache with room: one more slot, written at the bottom, sorted up. |
| `MapsPriority.PriorityCache.ReplaceBottom` | src/main/java/com/asterexcrisys/evicache/maps/extra/fixed/PriorityCache.java:187-198 | The new-key branch of `put` on a full cache, past the rejection test: the bottom entry overwritten, then sorted up. |
| `MapsPriority.PriorityCache.PutEntry` | src/main/java/com/asterexcrisys/evicache/maps/extra/fixed/PriorityCache.java:202-207 | `put(entry)`: only a priority entry is accepted; its key, value and priority are then put. |
| `MapsPriority.PriorityCache.Remove` | src/main/java/com/asterexcrisys/evicache/maps/extra/fixed/PriorityCache.java:209-225 | `remove(key)`: a held key is taken out (hit and remove recorded); otherwise a miss is recorded. What this guarantees: `Reorder.RemovedKeepsRanks`. |
| `MapsPriority.PriorityCache.Clear` | src/main/java/com/asterexcrisys/evicache/maps/extra/fixed/PriorityCache.java:227-235 | `clear()`: every slot emptied, size zero, one clear recorded. |
| `MapsRandom.RandomCache.Create` | src/main/java/com/asterexcrisys/evicache/maps/extra/fixed/RandomCache.java:26-35 | The constructor: a capacity below one is refused. |
| `MapsRandom.RandomCache.constructor` | src/main/java/com/asterexcrisys/evicache/maps/extra/fixed/RandomCache.java:26-35 | Allocates both arrays, empty. |
| `MapsRandom.RandomCache.IsEmpty` | src/main/java/com/asterexcrisys/evicache/maps/extra/fixed/RandomCache.java:53-55 | `isEmpty()`: exactly when no entry is held. |
| `MapsRandom.RandomCache.Has` | src/main/java/com/asterexcrisys/evicache/maps/extra/fixed/RandomCache.java:57-59 | `has(key)`: a null key is refused by `indexOf`; otherwise whether the key is held. |
| `MapsRandom.RandomCache.IndexOf` | src/main/java/com/asterexcrisys/evicache/maps/extra/fixed/RandomCache.java:182-192 | The private `indexOf`: the position of the key among the held slots, or -1. |
| `MapsRandom.RandomCache.PeekTop` | src/main/java/com/asterexcrisys/evicache/maps/extra/fixed/RandomCache.java:61-66 | `peekTop()`: the top value, null when empty. |
| `MapsRandom.RandomCache.PeekBottom` | src/main/java/com/asterexcrisys/evicache/maps/extra/fixed/RandomCache.java:68-73 | `peekBottom()`: the bottom value; an empty cache reads `keys[-1]`. |
| `MapsRandom.RandomCache.ElementTop` | src/main/java/com/asterexcrisys/evicache/maps/extra/fixed/RandomCache.java:75-80 | `elementTop()`: like `peekTop()`, but an empty cache has no such element. |
| `MapsRandom.RandomCache.ElementBottom` | src/main/java/com/asterexcrisys/evicache/maps/extra/fixed/RandomCache.java:82-87 | `elementBottom()`: like `peekBottom()`; the read of `keys[-1]` fails before any check for emptiness. |
| `MapsRandom.RandomCache.PopTop` | src/main/java/com/asterexcrisys/evicache/maps/extra/fixed/RandomCache.java:89-96 | `popTop()`: the top value, taken out through `remove(0)`; null when empty. |
| `MapsRandom.RandomCache.PopBottom` | src/main/java/com/asterexcrisys/evicache/maps/extra/fixed/RandomCache.java:98-105 | `popBottom()`: the bottom value, taken out through `remove(size - 1)`; an empty cache reads `keys[-1]`. |
| `MapsRandom.RandomCache.PollTop` | src/main/java/com/asterexcrisys/evicache/maps/extra/fixed/RandomCache.java:107-114 | `pollTop()`: like `popTop()`, but an empty cache has no such element. |
| `MapsRandom.RandomCache.PollBottom` | src/main/java/com/asterexcrisys/evicache/maps/extra/fixed/RandomCache.java:116-123 | `pollBottom()`: like `popBottom()`; the read of `keys[-1]` fails before any check for emptiness. |
| `MapsRandom.RandomCache.Get` | src/main/java/com/asterexcrisys/evicache/maps/extra/fixed/RandomCache.java:125-134 | `get(key)`: a null key is refused; otherwise the key's value, null when absent; nothing moves. |
| `MapsRandom.RandomCache.GetOrDefault` | src/main/java/com/asterexcrisys/evicache/maps/extra/fixed/RandomCache.java:136-139 | `get(key, defaultValue)`: the default in place of a null result. |
| `MapsRandom.RandomCache.Put` | src/main/java/com/asterexcrisys/evicache/maps/extra/fixed/RandomCache.java:141-157 | `put(key, value)` with `pick` the index `nextIndex()` draws: a null key is refused and nothing changes; otherwise the slots become what `Stored` describes. What this guarantees: `Replacement.StoredKeeps`. |
| `MapsRandom.RandomCache.PutEntry` | src/main/java/com/asterexcrisys/evicache/maps/extra/fixed/RandomCache.java:159-164 | `put(entry)`: only a basic entry is accepted, and its key and value are put. |
| `MapsRandom.RandomCache.Remove` | src/main/java/com/asterexcrisys/evicache/maps/extra/fixed/RandomCache.java:166-174 | `remove(key)`: a null key is refused; a held key's entry is taken out. What this guarantees: `Recency.DroppedKeeps`. |
| `MapsRandom.RandomCache.Clear` | src/main/java/com/asterexcrisys/evicache/maps/extra/fixed/RandomCache.java:176-180 | `clear()`: every slot emptied and `size` zero. |
| `MapsRandom.RandomCache.GetIndex` | src/main/java/com/asterexcrisys/evicache/maps/extra/fixed/RandomCache.java:198-203 | The private `get(int)`: the value at a held index; nothing moves. |
| `MapsRandom.RandomCache.Assign` | src/main/java/com/asterexcrisys/evicache/maps/extra/fixed/RandomCache.java:156 | The held-key branch of `put`: the value replaced in place. |
| `MapsRandom.RandomCache.Append` | src/main/java/com/asterexcrisys/evicache/maps/extra/fixed/RandomCache.java:147-151 | The new-key branch of `put` while there is room: `size` up and the pair written at `size - 1`. |
| `MapsRandom.RandomCache.Claim` | src/main/java/com/asterexcrisys/evicache/maps/extra/fixed/RandomCache.java:153-154 | The new-key branch of `put` when full: the key written over slot `pick`, whose value is replaced next. |
| `MapsRandom.RandomCache.RemoveIndex` | src/main/java/com/asterexcrisys/evicache/maps/extra/fixed/RandomCache.java:205-218 | The private `remove(int)`: `size` down, the slots above `index` shifted toward index 0, slot `size` emptied. |
| `MapsTime.TimeCache.Create` | src/main/java/com/asterexcrisys/evicache/maps/time/fixed/TimeCache.java:30-53 | The constructor: a capacity below one, a negative time, a null unit or a null mode is refused; the time is kept in milliseconds. |
| `MapsTime.TimeCache.constructor` | src/main/java/com/asterexcrisys/evicache/maps/time/fixed/TimeCache.java:30-53 | A fresh cache is empty and has recorded one clear: the constructor ends by calling `clear()`. |
| `MapsTime.TimeCache.Metrics` | src/main/java/com/asterexcrisys/evicache/maps/time/fixed/TimeCache.java:87-94 | `metrics()`: refused when metrics are off; otherwise size and capacity are recorded first. |
| `MapsTime.TimeCache.IsEmpty` | src/main/java/com/asterexcrisys/evicache/maps/time/fixed/TimeCache.java:96-98 | `isEmpty()`: true exactly when no entry is held. |
| `MapsTime.TimeCache.Has` | src/main/java/com/asterexcrisys/evicache/maps/time/fixed/TimeCache.java:100-102 | `has(key)`: a null key is refused by `indexOf`; otherwise whether the key is held, expired or not. |
| `MapsTime.TimeCache.IndexOf` | src/main/java/com/asterexcrisys/evicache/maps/time/fixed/TimeCache.java:274-284 | The private `indexOf`: the position of the key among the occupied slots, or -1. |
| `MapsTime.TimeCache.GetIndex` | src/main/java/com/asterexcrisys/evicache/maps/time/fixed/TimeCache.java:286-303 | The private `get(int)`: the value at an occupied index; under AFTER_ACCESS the entry moves to the front with the timestamp `now + time`, otherwise nothing changes. |
| `MapsTime.TimeCache.Front` | src/main/java/com/asterexcrisys/evicache/maps/time/fixed/TimeCache.java:293-300 | The shift loop shared by `get(int)` and `put`: the entry at `index` moves to the front with `value` and `stamp`, the entries above it move down one. |
| `MapsTime.TimeCache.RemoveIndex` | src/main/java/com/asterexcrisys/evicache/maps/time/fixed/TimeCache.java:305-320 | The private `remove(int)`: the entry at `index` is taken out and the gap closed. |
| `MapsTime.TimeCache.PeekTop` | src/main/java/com/asterexcrisys/evicache/maps/time/fixed/TimeCache.java:104-109 | `peekTop()`: the top value, or null when empty; the read goes through `get(0)`, so AFTER_ACCESS restamps it. |
| `MapsTime.TimeCache.PeekBottom` | src/main/java/com/asterexcrisys/evicache/maps/time/fixed/TimeCache.java:111-116 | `peekBottom()`: the bottom value through `get(size - 1)`; on an empty cache the read of slot -1 fails. |
| `MapsTime.TimeCache.ElementTop` | src/main/java/com/asterexcrisys/evicache/maps/time/fixed/TimeCache.java:118-123 | `elementTop()`: like `peekTop()`, but an empty cache underflows. |
| `MapsTime.TimeCache.ElementBottom` | src/main/java/com/asterexcrisys/evicache/maps/time/fixed/TimeCache.java:125-130 | `elementBottom()`: like `peekBottom()`; the read of slot -1 fails before the underflow check. |
| `MapsTime.TimeCache.PopTop` | src/main/java/com/asterexcrisys/evicache/maps/time/fixed/TimeCache.java:132-139 | `popTop()`: removes and returns the top value, or null when empty. |
| `MapsTime.TimeCache.PopBottom` | src/main/java/com/asterexcrisys/evicache/maps/time/fixed/TimeCache.java:141-148 | `popBottom()`: removes and returns the bottom value; on an empty cache the read of slot -1 fails. |
| `MapsTime.TimeCache.PollTop` | src/main/java/com/asterexcrisys/evicache/maps/time/fixed/TimeCache.java:150-157 | `pollTop()`: like `popTop()`, but an empty cache underflows. |
| `MapsTime.TimeCache.PollBottom` | src/main/java/com/asterexcrisys/evicache/maps/time/fixed/TimeCache.java:159-166 | `pollBottom()`: like `popBottom()`; the read of slot -1 fails before the underflow check. |
| `MapsTime.TimeCache.Get` | src/main/java/com/asterexcrisys/evicache/maps/time/fixed/TimeCache.java:168-190 | `get(key)` at time `now`: a held key whose timestamp `Expired` calls expired is removed and reads as null (a miss); any other held key is read through `get(int)` (a hit); an absent key reads as null (a miss). What this guarantees: `MapsTime.ReadKeeps`. |
| `MapsTime.TimeCache.GetOrDefault` | src/main/java/com/asterexcrisys/evicache/maps/time/fixed/TimeCache.java:192-195 | `get(key, defaultValue)`: `get(key)`, with null replaced by the default. |
| `MapsTime.TimeCache.Put` | src/main/java/com/asterexcrisys/evicache/maps/time/fixed/TimeCache.java:197-237 | `put(key, value)` at time `now`: a null key is refused before anything is recorded; otherwise one put is recorded and the slots become what `Stored` describes, with the timestamp `now + time`. What this guarantees: `MapsTime.StoredKeeps`, `MapsTime.PutThenGetMisses`. |
| `MapsTime.TimeCache.PutKey` | src/main/java/com/asterexcrisys/evicache/maps/time/fixed/TimeCache.java:204-236 | The non-null branch of `put`, after the put is recorded: a held key records a hit, a new key on a full cache an eviction. |
| `MapsTime.TimeCache.Update` | src/main/java/com/asterexcrisys/evicache/maps/time/fixed/TimeCache.java:205-219 | The held-key branch of `put`: the new value, and when `Refreshes` says so, a move to the front with a new timestamp. |
| `MapsTime.TimeCache.Insert` | src/main/java/com/asterexcrisys/evicache/maps/time/fixed/TimeCache.java:220-236 | The new-key branch of `put`: one more slot unless full (the bottom entry is then dropped), and the entry pushed in at the front. |
| `MapsTime.TimeCache.Place` | src/main/java/com/asterexcrisys/evicache/maps/time/fixed/TimeCache.java:221-235 | The new entry written in the slot after the occupied ones, or over the bottom entry when full. |
| `MapsTime.TimeCache.Grow` | src/main/java/com/asterexcrisys/evicache/maps/time/fixed/TimeCache.java:221-235 | The new entry written in the slot after the occupied ones. |
| `MapsTime.TimeCache.Overwrite` | src/main/java/com/asterexcrisys/evicache/maps/time/fixed/TimeCache.java:223-235 | The new entry written over the bottom entry of a full cache. |
| `MapsTime.TimeCache.PutEntry` | src/main/java/com/asterexcrisys/evicache/maps/time/fixed/TimeCache.java:239-244 | `put(entry)`: only a basic entry is accepted; its key and value are then put. |
| `MapsTime.TimeCache.Remove` | src/main/java/com/asterexcrisys/evicache/maps/time/fixed/TimeCache.java:246-262 | `remove(key)`: a held key is taken out (hit and remove recorded); otherwise a miss. |
| `MapsTime.TimeCache.Clear` | src/main/java/com/asterexcrisys/evicache/maps/time/fixed/TimeCache.java:264-272 | `clear()`: every slot nulled, size zero, one clear recorded. |
| `MapsTime.Fronted` | src/main/java/com/asterexcrisys/evicache/maps/time/fixed/TimeCache.java:211-218 | The slots with the entry at `i` taken out and `key`, `value`, `stamp` pushed in at the front: the move-to-front loops. |
| `MapsTime.DistinctNewFront` | src/main/java/com/asterexcrisys/evicache/maps/time/fixed/TimeCache.java:228-235 | Pushing a new key in front of distinct keys, possibly dropping the bottom one, keeps them distinct. |
| `MapsTime.StoredNew` | src/main/java/com/asterexcrisys/evicache/maps/time/fixed/TimeCache.java:220-236 | For a new key, `Stored` is the entry written after the kept prefix and then moved to the front. |
| `MapsTime.FrontedKeeps` | src/main/java/com/asterexcrisys/evicache/maps/time/fixed/TimeCache.java:211-218 | Moving the entry of `key` to the front with a new value and stamp leaves every other key's entry as it was. |
| `MapsTime.StoredKeeps` | src/main/java/com/asterexcrisys/evicache/maps/time/fixed/TimeCache.java:197-237 | `put` keeps the cache invariants and stores the value: the keys stay distinct and occupied, the size grows by one only for a new key on a cache with room, the key then maps to the value, and a refreshed or new key is at the top with the new timestamp. Every other key keeps its value and its timestamp, except that a new key put into a full cache evicts the bottom entry. |
| `MapsTime.PackedToFront` | src/main/java/com/asterexcrisys/evicache/maps/time/fixed/TimeCache.java:211-218 | Moving an occupied key to the front of a packed sequence keeps it packed. |
| `MapsTime.ReadKeeps` | src/main/java/com/asterexcrisys/evicache/maps/time/fixed/TimeCache.java:168-190 | `get` on a held key: an expired key is gone afterwards; a hit leaves the key mapped to the value it returned, at the top under AFTER_ACCESS with the new timestamp. Every other key keeps its value and its timestamp either way. |
| `MapsTime.PutThenGetMisses` | src/main/java/com/asterexcrisys/evicache/maps/time/fixed/TimeCache.java:174 | As written, `get` calls an entry expired while its timestamp is still ahead of the clock: a key just put with a positive time-to-live (new, or held and refreshed) is reported absent by a `get` at the same instant, and that `get` removes it. |
| `MapsTime.PutThenGetServes` | src/main/java/com/asterexcrisys/evicache/maps/time/fixed/TimeCache.java:174 | With the intended test, a key just put with a non-negative time-to-live (new, or held and refreshed) is served with the value put, and stays live until the clock passes `now + ttl`. |
| `MapsExpire.ExpireCache.Create` | src/main/java/com/asterexcrisys/evicache/maps/time/fixed/ExpireCache.java:25-39 | The constructor: a capacity below one or a null mode is refused. |
| `MapsExpire.ExpireCache.constructor` | src/main/java/com/asterexcrisys/evicache/maps/time/fixed/ExpireCache.java:25-39 | A fresh cache is empty. |
| `MapsExpire.ExpireCache.IsEmpty` | src/main/java/com/asterexcrisys/evicache/maps/time/fixed/ExpireCache.java:65-67 | `isEmpty()`: true exactly when no entry is held. |
| `MapsExpire.ExpireCache.Has` | src/main/java/com/asterexcrisys/evicache/maps/time/fixed/ExpireCache.java:69-71 | `has(key)`: a null key is refused; otherwise whether the key is held. |
| `MapsExpire.ExpireCache.IndexOf` | src/main/java/com/asterexcrisys/evicache/maps/time/fixed/ExpireCache.java:209-219 | The private `indexOf`: the position of the key among the occupied slots, or -1. |
| `MapsExpire.ExpireCache.Sort` | src/main/java/com/asterexcrisys/evicache/maps/time/fixed/ExpireCache.java:250-274 | The private `sort(int start)`: the entry at `start`, the only one that may be out of order, is moved to the place `SortTarget` names, and the timestamps are in order again. What this guarantees: `Reorder.RerankKeeps`. |
| `MapsExpire.ExpireCache.GetIndex` | src/main/java/com/asterexcrisys/evicache/maps/time/fixed/ExpireCache.java:221-231 | The private `get(int)`: the value at an occupied index; under AFTER_ACCESS the entry is stamped with the current time (no time-to-live added) and re-sorted, otherwise nothing changes. |
| `MapsExpire.ExpireCache.RemoveIndex` | src/main/java/com/asterexcrisys/evicache/maps/time/fixed/ExpireCache.java:233-248 | The private `remove(int)`: the entry at `index` is taken out and the gap closed. |
| `MapsExpire.ExpireCache.PeekTop` | src/main/java/com/asterexcrisys/evicache/maps/time/fixed/ExpireCache.java:73-78 | `peekTop()`: the top value, or null when empty; under AFTER_ACCESS the read restamps the entry and re-sorts. |
| `MapsExpire.ExpireCache.PeekBottom` | src/main/java/com/asterexcrisys/evicache/maps/time/fixed/ExpireCache.java:80-85 | `peekBottom()`: the bottom value; on an empty cache the read of slot -1 fails. |
| `MapsExpire.ExpireCache.ElementTop` | src/main/java/com/asterexcrisys/evicache/maps/time/fixed/ExpireCache.java:87-92 | `elementTop()`: like `peekTop()`, but an empty cache underflows. |
| `MapsExpire.ExpireCache.ElementBottom` | src/main/java/com/asterexcrisys/evicache/maps/time/fixed/ExpireCache.java:94-99 | `elementBottom()`: like `peekBottom()`; the read of slot -1 fails before the underflow check. |
| `MapsExpire.ExpireCache.PopTop` | src/main/java/com/asterexcrisys/evicache/maps/time/fixed/ExpireCache.java:101-108 | `popTop()`: removes and returns the top entry's value, or null when empty; no timestamp changes. |
| `MapsExpire.ExpireCache.PopBottom` | src/main/java/com/asterexcrisys/evicache/maps/time/fixed/ExpireCache.java:110-117 | `popBottom()`: removes and returns the bottom entry's value; on an empty cache the read of slot -1 fails. |
| `MapsExpire.ExpireCache.PollTop` | src/main/java/com/asterexcrisys/evicache/maps/time/fixed/ExpireCache.java:119-126 | `pollTop()`: like `popTop()`, but an empty cache underflows. |
| `MapsExpire.ExpireCache.PollBottom` | src/main/java/com/asterexcrisys/evicache/maps/time/fixed/ExpireCache.java:128-135 | `pollBottom()`: like `popBottom()`; the read of slot -1 fails before the emptiness check. |
| `MapsExpire.ExpireCache.Get` | src/main/java/com/asterexcrisys/evicache/maps/time/fixed/ExpireCache.java:137-150 | `get(key)` at time `now`: a miss gives null; a held key whose stamp is after `now` counts as expired, is removed and gives null; otherwise the value is read through `get(int)`. What this guarantees: `MapsExpire.PutThenGetMisses`. |
| `MapsExpire.ExpireCache.GetKey` | src/main/java/com/asterexcrisys/evicache/maps/time/fixed/ExpireCache.java:141-149 | The non-null branch of `get(key)`. |
| `MapsExpire.ExpireCache.GetOrDefault` | src/main/java/com/asterexcrisys/evicache/maps/time/fixed/ExpireCache.java:152-155 | `get(key, defaultValue)`: `get(key)`, with null replaced by the default. |
| `MapsExpire.ExpireCache.Put` | src/main/java/com/asterexcrisys/evicache/maps/time/fixed/ExpireCache.java:157-183 | `put(key, value, time, unit)` at time `now`: a null key, a negative time or a null unit is refused and nothing changes; otherwise the slots become what `Stored` describes, with the stamp `now + unit.toMillis(time)`. What this guarantees: `MapsExpire.StoredKeeps`, `MapsExpire.StoredStamp`. |
| `MapsExpire.ExpireCache.PutKey` | src/main/java/com/asterexcrisys/evicache/maps/time/fixed/ExpireCache.java:167-182 | The checked part of `put`, with the new stamp already computed. |
| `MapsExpire.ExpireCache.Update` | src/main/java/com/asterexcrisys/evicache/maps/time/fixed/ExpireCache.java:168-173 | The held-key branch of `put`: the new value, then a new stamp and a re-sort when `Refreshes` says so. |
| `MapsExpire.ExpireCache.Append` | src/main/java/com/asterexcrisys/evicache/maps/time/fixed/ExpireCache.java:175-181 | The new-key branch of `put` on a cache with room: one more slot, written at the bottom, sorted into place. |
| `MapsExpire.ExpireCache.ReplaceBottom` | src/main/java/com/asterexcrisys/evicache/maps/time/fixed/ExpireCache.java:175-181 | The new-key branch of `put` on a full cache: the bottom entry, the one with the earliest stamp, overwritten, then sorted into place. |
| `MapsExpire.ExpireCache.PutEntry` | src/main/java/com/asterexcrisys/evicache/maps/time/fixed/ExpireCache.java:185-190 | `put(entry)`: only an expire entry is accepted; its key, value, time and unit are then put as by `put(key, value, time, unit)`. |
| `MapsExpire.ExpireCache.Remove` | src/main/java/com/asterexcrisys/evicache/maps/time/fixed/ExpireCache.java:192-200 | `remove(key)`: a held key is taken out; otherwise nothing changes. |
| `MapsExpire.ExpireCache.Clear` | src/main/java/com/asterexcrisys/evicache/maps/time/fixed/ExpireCache.java:202-207 | `clear()`: every slot emptied, size zero. |
| `MapsExpire.ExpiresAt` | src/main/java/com/asterexcrisys/evicache/maps/time/fixed/ExpireCache.java:171 | The stamp `put` writes: the clock plus the time-to-live in milliseconds, never before the clock. |
| `MapsExpire.StoredKeeps` | src/main/java/com/asterexcrisys/evicache/maps/time/fixed/ExpireCache.java:157-183 | `put` keeps the cache invariants and stores the value: the stamps stay in order, the keys distinct and occupied, the size grows by one only for a new key on a cache with room, and the key then maps to the value. Every other key keeps its value and its stamp, except that a new key put into a full cache evicts the bottom entry, the one that expires first. |
| `MapsExpire.RerankCarries` | src/main/java/com/asterexcrisys/evicache/maps/time/fixed/ExpireCache.java:250-274 | The sort carries the moved entry's key, value and stamp together: the key is then found with both. |
| `MapsExpire.StoredStamp` | src/main/java/com/asterexcrisys/evicache/maps/time/fixed/ExpireCache.java:167-182 | A `put` that writes a stamp (a new key, or a held key `Refreshes` admits) leaves the key held with the value and that stamp. |
| `MapsExpire.PutThenGetMisses` | src/main/java/com/asterexcrisys/evicache/maps/time/fixed/ExpireCache.java:143 | As written, `get` calls an entry expired while its stamp is still ahead of the clock: a key just put with a positive time-to-live, so with a stamp after `now` (new, or held and refreshed), reads as null at the same instant. |
| `MapsExpire.PutThenGetServes` | src/main/java/com/asterexcrisys/evicache/maps/time/fixed/ExpireCache.java:143 | With the intended test, a key just put with a non-negative time-to-live, so with a stamp no earlier than `now` (new, or held and refreshed), is served with the value put until the clock passes the stamp, and not after. |
| `MapsExpire.ServedUntil` | src/main/java/com/asterexcrisys/evicache/maps/time/fixed/ExpireCache.java:143 | A key held with a value and a stamp is served with that value until the clock passes the stamp. |

## Left out

- The system clock (`Instant.now().toEpochMilli()`) is not read: the time caches take the current time as a parameter `now`.
- The random draw of `nextIndex()` is not modelled: the random caches take the drawn slot as a parameter `pick` with `0 <= pick < capacity`, the range the draw yields.
- Java `int`/`long` overflow is not modelled: integers are unbounded, so `now + time`, the frequency and priority counters, and the saturation of `TimeUnit.toMillis` at the `long` bounds are taken without wrap-around.
- `toString` and `equals` are not modelled; they only format or compare the arrays.
- The plain accessors (`size()`, `capacity()`, `keys()`, `values()`, `priorities()`, `timestamps()`, `metricsEnabled()`, `time()`, `mode()`) are not modelled as members where a class only returns a field or a copy of an array; the ghost views state the same contents.
- `CacheBuilder`, the command-line `Main`, the benchmarks and the tests are not part of this model.
- `Arrays.sort` with a comparator is not modelled as a merge sort: the old LFU's `sort()` is stated through `StableOrder`, a stable descending order by frequency, which is what a stable sort yields.
- The `Cache` interface is modelled as the module `Cache` of shared types and rules rather than as a type every class implements, so calls through the interface type are not modelled. The older `src/com/asterexcrisys/evicache/Cache.java` interface (context only, no behaviour of its own) is not part of this model.
- Private index helpers (`get(int)`, `remove(int)`, `sort(int)`) are only ever called with an index in range; their own `IndexOutOfBoundsException` guard is stated as a precondition instead of an error result.
- The `null` written into the frequency, priority and timestamp slots beyond `size` is not modelled: those arrays are `int` arrays in the model, and no method reads a slot beyond `size`.
- The `MetricType` enumeration is not modelled as a type: `metrics()` is modelled as a map from the identifier strings the enumeration spells to the counters.
- `ExtraPriority.PriorityCache.Put`: a null `priority` is not modelled; the parameter is an `int`. In `extra/fixed/PriorityCache.java` `put(K, V, Integer)` then either throws a `NullPointerException` on a full cache before any write, or writes the value, key and null priority and then throws inside `sort` (or, with no neighbour to compare, keeps the null priority). A priority array holding `null` is outside the model.
- `Recorder.CacheRecorder.constructor`: the no-argument `CacheRecorder()` of `CacheRecorder.java`, with its eight counters, is the recorder modelled. The `maps` caches call a constructor that takes the cache's class, which that file does not define. The class argument and the `CACHE_TYPE` metric it would carry are not modelled.
- `MapsTime.TimeCache.Put`: when `put` refreshes a held key, `TimeCache.java` reads the clock twice, once for the expiry test and once for the new timestamp. The model reads it once (`now`), so the two reads are taken to return the same instant.
- `MapsExpire.ExpireCache.Put`: the same two clock reads in the held-key branch of `ExpireCache.java`'s `put`, taken to return the same instant.
- Concurrency is not modelled: the caches and the recorder are unsynchronised, and every call is taken to run alone.
- Exceptions raised by the JVM (out of memory, a `null` array) are not modelled.

## Findings

The cache classes model the code as written, so their contracts carry these defects. Each row names a lemma showing the defect on a concrete input, and a corrected definition with the intended property proved.

| source | as written | input that shows it | evidently intended | confidence | as-written member | corrected member |
|---|---|---|---|---|---|---|
| src/main/java/com/asterexcrisys/evicache/maps/time/fixed/TimeCache.java:174 | `get` treats an entry as expired while its timestamp is after the current time, and removes it | put key `k` with a time-to-live of 1000 at time 0, then get `k` at time 0: null, and `k` is gone | an entry expires once the current time is past its timestamp | high, not executed | `MapsTime.PutThenGetMisses` | `MapsTime.PutThenGetServes` |
| src/main/java/com/asterexcrisys/evicache/maps/time/fixed/ExpireCache.java:143 | the same comparison as `TimeCache`: a freshly stamped entry counts as expired | put key `k` with time 1000 at time 0, then get `k` at time 0: null, and `k` is gone | an entry is served until its own expiry time has passed | high, not executed | `MapsExpire.PutThenGetMisses` | `MapsExpire.PutThenGetServes` |
| src/main/java/com/asterexcrisys/evicache/frequency/fixed/MFUCache.java:217-223 | `remove(int)` shifts keys and values over the gap but not frequencies (the old LFU at src/com/asterexcrisys/evicache/fixed/LFUCache.java:169-175 does the same) | keys 1 (frequency 1) and 2 (frequency 2); remove slot 0: key 2 is left with frequency 1 | every remaining key keeps its own frequency | high, not executed | `Reorder.RemoveLosesRank` | `Reorder.RemovedKeepsRanks` |
| src/com/asterexcrisys/evicache/fixed/LFUCache.java:220-230 | `sort()` returns early unless some frequency is above the one in slot 0 | frequencies 5, 3, 4: left in that order, and a full cache then evicts the entry of frequency 4 rather than 3 | frequencies in non-increasing order after every `sort()` | high, not executed | `FixedLfu.SortSkipsDisorder` | `FixedLfu.OrderedSorts` |
| src/com/asterexcrisys/evicache/fixed/LFUCache.java:197-210 | `get(int)` moves the key and value to slot 0 but leaves the frequencies in place | keys 1 (frequency 5) and 2 (frequency 1); read slot 1: key 2 now has frequency 5 | the entry moves with its frequency | high, not executed | `FixedLfu.FrontedGainsRank` | `FixedLfu.FrontedWithRankKeeps` |
| src/com/asterexcrisys/evicache/fixed/LRUCache.java:145 | `put` of a new key increments `size` even when every slot is already held | capacity 1, put 1 then put 2: `size` is 2 with one entry held, and a later search reads past the end of the arrays | `size` grows only while below `capacity` | high, not executed | `FixedLru.SizeDrift` | `FixedLru.CappedKeepsSize` |
