/**
 * `maps/time/fixed/ExpireCache`: a per-entry time-to-live. Entries are packed
 * into a prefix and kept in non-increasing timestamp order, latest at index
 * 0, by the same two-way adjacent-swap `sort(start)` as the priority caches.
 * A new key on a full cache overwrites the bottom entry, the one with the
 * earliest timestamp. The clock is a `now` parameter (milliseconds).
 */
module MapsExpire {
  import opened Cache
  import opened Slots
  import opened Reorder
  import opened Expiry

  class ExpireCache<K(==), V> {
    var size: int
    const capacity: int
    const keys: array<Option<K>>
    const values: array<Option<V>>
    const timestamps: array<int>
    const mode: ExpireMode

    /** The occupied key slots, latest timestamp first. */
    ghost function Keys(): seq<Option<K>>
      reads this, keys
      requires 0 <= size <= keys.Length
    {
      keys[..size]
    }

    /** The occupied value slots, aligned with `Keys()`. */
    ghost function Values(): seq<Option<V>>
      reads this, values
      requires 0 <= size <= values.Length
    {
      values[..size]
    }

    /** The timestamps of the occupied slots, aligned with `Keys()`. */
    ghost function Stamps(): seq<int>
      reads this, timestamps
      requires 0 <= size <= timestamps.Length
    {
      timestamps[..size]
    }

    /** The three views together. */
    ghost function Table(): Ranked<K, V>
      reads this, keys, values, timestamps
      requires 0 <= size <= keys.Length && size <= values.Length && size <= timestamps.Length
    {
      Ranked(Keys(), Values(), Stamps())
    }

    /** The layout: distinct non-null keys fill the first `size` slots, every later key and value slot is null. */
    ghost predicate Sound()
      reads this, keys, values, timestamps
    {
      1 <= capacity && keys.Length == capacity && values.Length == capacity && timestamps.Length == capacity &&
      keys as object != values as object &&
      0 <= size <= capacity &&
      Packed(keys[..], size) && Vacant(values[..], size) &&
      Distinct(keys[..size])
    }

    /** The layout, with the timestamps in non-increasing order. */
    ghost predicate Valid()
      reads this, keys, values, timestamps
    {
      Sound() && NonIncreasing(Stamps())
    }

    /** The constructor: a capacity below one or a null mode is refused. */
    static method Create(capacity: int, mode: Option<ExpireMode>) returns (r: Result<ExpireCache<K, V>>)
      ensures r.Err? <==> capacity < 1 || mode.None?
      ensures r.Err? ==> r.error == IllegalCacheState
      ensures r.Ok? ==> fresh(r.value) && fresh(r.value.keys) && fresh(r.value.values) && fresh(r.value.timestamps)
      ensures r.Ok? ==> r.value.Valid() && r.value.Keys() == [] && r.value.capacity == capacity && r.value.mode == mode.value
    {
      if capacity < 1 || mode.None? {
        return Err(IllegalCacheState);
      }
      var c := new ExpireCache(capacity, mode.value);
      return Ok(c);
    }

    /** A fresh cache is empty. */
    constructor(capacity: int, mode: ExpireMode)
      requires 1 <= capacity
      ensures Valid() && fresh(keys) && fresh(values) && fresh(timestamps)
      ensures Keys() == [] && this.capacity == capacity && this.mode == mode
    {
      size := 0;
      this.capacity := capacity;
      this.mode := mode;
      keys := new Option<K>[capacity](_ => None);
      values := new Option<V>[capacity](_ => None);
      timestamps := new int[capacity](_ => 0);
      new;
      Clear();
    }

    /** `isEmpty()`: true exactly when no entry is held. */
    method IsEmpty() returns (empty: bool)
      requires Valid()
      ensures empty <==> Keys() == []
    {
      return size == 0;
    }

    /** `has(key)`: a null key is refused; otherwise whether the key is held. */
    method Has(key: Option<K>) returns (r: Result<bool>)
      requires Valid()
      ensures r.Err? <==> key.None?
      ensures r.Err? ==> r.error == InvalidCacheEntry
      ensures r.Ok? ==> (r.value <==> key in Keys())
    {
      if key.None? {
        return Err(InvalidCacheEntry);
      }
      var index := IndexOf(key.value);
      return Ok(index != -1);
    }

    /** The private `indexOf`: the position of the key among the occupied slots, or -1. */
    method IndexOf(key: K) returns (index: int)
      requires Valid()
      ensures index == Find(Keys(), key)
      ensures index == -1 <==> Some(key) !in Keys()
    {
      index := IndexIn(keys, 0, size, key);
      assert keys[0..size] == Keys();
    }

    /**
     * The private `sort(int start)`: the entry at `start`, the only one that
     * may be out of order, is moved to the place `SortTarget` names, and
     * the timestamps are in order again.
     */
    method Sort(start: int)
      requires Sound() && 0 <= start < size && NonIncreasing(RemoveAt(Stamps(), start))
      modifies keys, values, timestamps
      ensures Valid()
      ensures Table() == Rerank(old(Table()), start)
    {
      if 0 < start < size - 1 {
        NeighboursOrdered(Stamps(), start);
      }
      ghost var k0, v0 := keys[..], values[..];
      ghost var to := Resort(keys, values, timestamps, size, start);
      PackedMoveTo(k0, size, start, to);
      assert keys[..] == keys[..size] + keys[size..];
      assert values[..][size..] == values[size..];
      VacantSuffix(v0, values[..], size);
      DistinctMoveTo(old(Keys()), start, to);
      PlacedKeepsOrder(old(Stamps()), start, to);
      TargetUnique(old(Stamps()), start, to);
    }

    /**
     * The private `get(int)`: the value at an occupied index; under
     * AFTER_ACCESS the entry is stamped with the current time (no
     * time-to-live added) and re-sorted, otherwise nothing changes.
     */
    method GetIndex(index: int, now: int) returns (value: Option<V>)
      requires Valid() && 0 <= index < size
      modifies keys, values, timestamps
      ensures Valid() && value == old(Values())[index]
      ensures mode.AfterAccess? ==>
        Keys() == Resorted(old(Keys()), old(Stamps())[index := now], index) &&
        Values() == Resorted(old(Values()), old(Stamps())[index := now], index) &&
        Stamps() == Resorted(old(Stamps())[index := now], old(Stamps())[index := now], index)
      ensures !mode.AfterAccess? ==> Keys() == old(Keys()) && Values() == old(Values()) && Stamps() == old(Stamps())
    {
      value := values[index];
      if mode.AfterAccess? {
        ghost var p0 := Stamps();
        timestamps[index] := now;
        assert Stamps() == p0[index := now];
        RemoveAtUpdate(p0, index, now);
        RemoveAtNonIncreasing(p0, index);
        Sort(index);
      }
    }

    /** The private `remove(int)`: the entry at `index` is taken out and the gap closed. */
    method RemoveIndex(index: int)
      requires Valid() && 0 <= index < size
      modifies this, keys, values, timestamps
      ensures Valid() && size == old(size) - 1
      ensures Keys() == RemoveAt(old(Keys()), index)
      ensures Values() == RemoveAt(old(Values()), index)
      ensures Stamps() == RemoveAt(old(Stamps()), index)
    {
      ghost var k0, v0, p0 := keys[..], values[..], timestamps[..];
      size := size - 1;
      PushBack(keys, index, size + 1, None);
      PushBack(values, index, size + 1, None);
      PushBack(timestamps, index, size + 1, 0);
      PushBackPacked(k0, index, size + 1);
      PushBackVacant(v0, index, size + 1);
      PushBackParts(p0, index, size + 1, 0);
      DistinctRemoveAt(k0[..size + 1], index);
      RemoveAtNonIncreasing(p0[..size + 1], index);
    }

    /** `peekTop()`: the top value, or null when empty; under AFTER_ACCESS the read restamps the entry and re-sorts. */
    method PeekTop(now: int) returns (value: Option<V>)
      requires Valid()
      modifies keys, values, timestamps
      ensures Valid() && value == Top(old(Values()))
      ensures old(size) > 0 && mode.AfterAccess? ==>
        Keys() == Resorted(old(Keys()), old(Stamps())[0 := now], 0) &&
        Values() == Resorted(old(Values()), old(Stamps())[0 := now], 0) &&
        Stamps() == Resorted(old(Stamps())[0 := now], old(Stamps())[0 := now], 0)
      ensures old(size) == 0 || !mode.AfterAccess? ==> Keys() == old(Keys()) && Values() == old(Values()) && Stamps() == old(Stamps())
    {
      if keys[0].None? {
        return None;
      }
      value := GetIndex(0, now);
    }

    /** `peekBottom()`: the bottom value; on an empty cache the read of slot -1 fails. */
    method PeekBottom(now: int) returns (r: Result<Option<V>>)
      requires Valid()
      modifies keys, values, timestamps
      ensures Valid()
      ensures old(size) == 0 ==> r == Err(ArrayIndexOutOfBounds)
      ensures old(size) > 0 ==> r == Ok(Bottom(old(Values())))
      ensures old(size) > 0 && mode.AfterAccess? ==>
        Keys() == Resorted(old(Keys()), old(Stamps())[old(size) - 1 := now], old(size) - 1) &&
        Values() == Resorted(old(Values()), old(Stamps())[old(size) - 1 := now], old(size) - 1) &&
        Stamps() == Resorted(old(Stamps())[old(size) - 1 := now], old(Stamps())[old(size) - 1 := now], old(size) - 1)
      ensures old(size) == 0 || !mode.AfterAccess? ==> Keys() == old(Keys()) && Values() == old(Values()) && Stamps() == old(Stamps())
    {
      if size == 0 {
        return Err(ArrayIndexOutOfBounds);
      }
      var value := GetIndex(size - 1, now);
      return Ok(value);
    }

    /** `elementTop()`: like `peekTop()`, but an empty cache underflows. */
    method ElementTop(now: int) returns (r: Result<Option<V>>)
      requires Valid()
      modifies keys, values, timestamps
      ensures Valid() && r == Element(old(Values()), true, CacheUnderflow)
      ensures old(size) > 0 && mode.AfterAccess? ==>
        Keys() == Resorted(old(Keys()), old(Stamps())[0 := now], 0) &&
        Values() == Resorted(old(Values()), old(Stamps())[0 := now], 0) &&
        Stamps() == Resorted(old(Stamps())[0 := now], old(Stamps())[0 := now], 0)
      ensures old(size) == 0 || !mode.AfterAccess? ==> Keys() == old(Keys()) && Values() == old(Values()) && Stamps() == old(Stamps())
    {
      if keys[0].None? {
        return Err(CacheUnderflow);
      }
      var value := GetIndex(0, now);
      return Ok(value);
    }

    /** `elementBottom()`: like `peekBottom()`; the read of slot -1 fails before the underflow check. */
    method ElementBottom(now: int) returns (r: Result<Option<V>>)
      requires Valid()
      modifies keys, values, timestamps
      ensures Valid()
      ensures old(size) == 0 ==> r == Err(ArrayIndexOutOfBounds)
      ensures old(size) > 0 ==> r == Element(old(Values()), false, CacheUnderflow)
      ensures old(size) > 0 && mode.AfterAccess? ==>
        Keys() == Resorted(old(Keys()), old(Stamps())[old(size) - 1 := now], old(size) - 1) &&
        Values() == Resorted(old(Values()), old(Stamps())[old(size) - 1 := now], old(size) - 1) &&
        Stamps() == Resorted(old(Stamps())[old(size) - 1 := now], old(Stamps())[old(size) - 1 := now], old(size) - 1)
      ensures old(size) == 0 || !mode.AfterAccess? ==> Keys() == old(Keys()) && Values() == old(Values()) && Stamps() == old(Stamps())
    {
      if size == 0 {
        return Err(ArrayIndexOutOfBounds);
      }
      var value := GetIndex(size - 1, now);
      return Ok(value);
    }

    /** `popTop()`: removes and returns the top entry's value, or null when empty; no timestamp changes. */
    method PopTop() returns (value: Option<V>)
      requires Valid()
      modifies this, keys, values, timestamps
      ensures Valid() && value == Top(old(Values()))
      ensures old(size) == 0 ==> size == 0
      ensures old(size) > 0 ==>
        size == old(size) - 1 &&
        Keys() == old(Keys())[1..] && Values() == old(Values())[1..] && Stamps() == old(Stamps())[1..]
    {
      if keys[0].None? {
        return None;
      }
      value := values[0];
      RemoveAtFirst(Keys());
      RemoveAtFirst(Values());
      RemoveAtFirst(Stamps());
      RemoveIndex(0);
    }

    /** `popBottom()`: removes and returns the bottom entry's value; on an empty cache the read of slot -1 fails. */
    method PopBottom() returns (r: Result<Option<V>>)
      requires Valid()
      modifies this, keys, values, timestamps
      ensures Valid()
      ensures old(size) == 0 ==> r == Err(ArrayIndexOutOfBounds) && size == 0
      ensures old(size) > 0 ==>
        r == Ok(Bottom(old(Values()))) && size == old(size) - 1 &&
        Keys() == old(Keys())[..size] && Values() == old(Values())[..size] && Stamps() == old(Stamps())[..size]
    {
      if size == 0 {
        return Err(ArrayIndexOutOfBounds);
      }
      var value := values[size - 1];
      RemoveAtLast(Keys());
      RemoveAtLast(Values());
      RemoveAtLast(Stamps());
      RemoveIndex(size - 1);
      return Ok(value);
    }

    /** `pollTop()`: like `popTop()`, but an empty cache underflows. */
    method PollTop() returns (r: Result<Option<V>>)
      requires Valid()
      modifies this, keys, values, timestamps
      ensures Valid() && r == Element(old(Values()), true, CacheUnderflow)
      ensures old(size) == 0 ==> size == 0
      ensures old(size) > 0 ==>
        size == old(size) - 1 &&
        Keys() == old(Keys())[1..] && Values() == old(Values())[1..] && Stamps() == old(Stamps())[1..]
    {
      if keys[0].None? {
        return Err(CacheUnderflow);
      }
      var value := values[0];
      RemoveAtFirst(Keys());
      RemoveAtFirst(Values());
      RemoveAtFirst(Stamps());
      RemoveIndex(0);
      return Ok(value);
    }

    /** `pollBottom()`: like `popBottom()`; the read of slot -1 fails before the emptiness check. */
    method PollBottom() returns (r: Result<Option<V>>)
      requires Valid()
      modifies this, keys, values, timestamps
      ensures Valid()
      ensures old(size) == 0 ==> r == Err(ArrayIndexOutOfBounds) && size == 0
      ensures old(size) > 0 ==>
        r == Element(old(Values()), false, CacheUnderflow) && size == old(size) - 1 &&
        Keys() == old(Keys())[..size] && Values() == old(Values())[..size] && Stamps() == old(Stamps())[..size]
    {
      if size == 0 {
        return Err(ArrayIndexOutOfBounds);
      }
      var value := values[size - 1];
      RemoveAtLast(Keys());
      RemoveAtLast(Values());
      RemoveAtLast(Stamps());
      RemoveIndex(size - 1);
      return Ok(value);
    }

    /**
     * `get(key)` at time `now`: a miss gives null; a held key whose stamp is
     * after `now` counts as expired, is removed and gives null; otherwise the
     * value is read through `get(int)`.
     */
    method Get(key: Option<K>, now: int) returns (r: Result<Option<V>>, ghost at: int)
      requires Valid()
      modifies this, keys, values, timestamps
      ensures Valid()
      ensures key.None? ==> r == Err(InvalidCacheEntry) && at == -1
      ensures key.Some? ==> at == Find(old(Keys()), key.value)
      ensures key.Some? && (at < 0 || Expired(old(Stamps())[at], now)) ==> r == Ok(None)
      ensures key.Some? && 0 <= at && old(Stamps())[at] <= now ==> r == Ok(old(Values())[at])
      ensures 0 <= at && old(Stamps())[at] <= now && mode.AfterAccess? ==>
        Keys() == Resorted(old(Keys()), old(Stamps())[at := now], at) &&
        Values() == Resorted(old(Values()), old(Stamps())[at := now], at) &&
        Stamps() == Resorted(old(Stamps())[at := now], old(Stamps())[at := now], at)
      ensures 0 <= at && Expired(old(Stamps())[at], now) ==>
        size == old(size) - 1 && Keys() == RemoveAt(old(Keys()), at) &&
        Values() == RemoveAt(old(Values()), at) && Stamps() == RemoveAt(old(Stamps()), at)
      ensures at < 0 || (old(Stamps())[at] <= now && !mode.AfterAccess?) ==>
        size == old(size) && Keys() == old(Keys()) && Values() == old(Values()) && Stamps() == old(Stamps())
    {
      if key.None? {
        r, at := Err(InvalidCacheEntry), -1;
        return;
      }
      var value;
      value, at := GetKey(key.value, now);
      r := Ok(value);
    }

    /** The non-null branch of `get(key)`. */
    method GetKey(key: K, now: int) returns (value: Option<V>, ghost at: int)
      requires Valid()
      modifies this, keys, values, timestamps
      ensures Valid() && at == Find(old(Keys()), key)
      ensures at < 0 || Expired(old(Stamps())[at], now) ==> value == None
      ensures 0 <= at && old(Stamps())[at] <= now ==> value == old(Values())[at]
      ensures 0 <= at && old(Stamps())[at] <= now && mode.AfterAccess? ==>
        Keys() == Resorted(old(Keys()), old(Stamps())[at := now], at) &&
        Values() == Resorted(old(Values()), old(Stamps())[at := now], at) &&
        Stamps() == Resorted(old(Stamps())[at := now], old(Stamps())[at := now], at)
      ensures 0 <= at && Expired(old(Stamps())[at], now) ==>
        size == old(size) - 1 && Keys() == RemoveAt(old(Keys()), at) &&
        Values() == RemoveAt(old(Values()), at) && Stamps() == RemoveAt(old(Stamps()), at)
      ensures at < 0 || (old(Stamps())[at] <= now && !mode.AfterAccess?) ==>
        size == old(size) && Keys() == old(Keys()) && Values() == old(Values()) && Stamps() == old(Stamps())
    {
      var index := IndexOf(key);
      at := index;
      assert Keys() == old(Keys()) && Values() == old(Values()) && Stamps() == old(Stamps());
      if index < 0 {
        value := None;
      } else if Expired(timestamps[index], now) {
        RemoveIndex(index);
        value := None;
      } else {
        value := GetIndex(index, now);
      }
    }

    /** `get(key, defaultValue)`: `get(key)`, with null replaced by the default. */
    method GetOrDefault(key: Option<K>, defaultValue: Option<V>, now: int) returns (r: Result<Option<V>>, ghost at: int)
      requires Valid()
      modifies this, keys, values, timestamps
      ensures Valid()
      ensures key.None? ==> r == Err(InvalidCacheEntry) && at == -1
      ensures key.Some? ==> at == Find(old(Keys()), key.value)
      ensures key.Some? && (at < 0 || Expired(old(Stamps())[at], now)) ==> r == Ok(defaultValue)
      ensures key.Some? && 0 <= at && old(Stamps())[at] <= now ==> r == Ok(OrDefault(old(Values())[at], defaultValue))
      ensures 0 <= at && old(Stamps())[at] <= now && mode.AfterAccess? ==>
        Keys() == Resorted(old(Keys()), old(Stamps())[at := now], at) &&
        Values() == Resorted(old(Values()), old(Stamps())[at := now], at) &&
        Stamps() == Resorted(old(Stamps())[at := now], old(Stamps())[at := now], at)
      ensures 0 <= at && Expired(old(Stamps())[at], now) ==>
        size == old(size) - 1 && Keys() == RemoveAt(old(Keys()), at) &&
        Values() == RemoveAt(old(Values()), at) && Stamps() == RemoveAt(old(Stamps()), at)
      ensures at < 0 || (old(Stamps())[at] <= now && !mode.AfterAccess?) ==>
        size == old(size) && Keys() == old(Keys()) && Values() == old(Values()) && Stamps() == old(Stamps())
    {
      r, at := Get(key, now);
      if r.Ok? {
        r := Ok(OrDefault(r.value, defaultValue));
      }
    }


    /**
     * `put(key, value, time, unit)` at time `now`: a null key, a negative time
     * or a null unit is refused and nothing changes; otherwise the slots
     * become what `Stored` describes, with the stamp `now + unit.toMillis(time)`.
     */
    method Put(key: Option<K>, value: Option<V>, time: int, unit: Option<TimeUnit>, now: int) returns (r: Result<()>)
      requires Valid()
      modifies this, keys, values, timestamps
      ensures Valid()
      ensures r.Err? <==> key.None? || time < 0 || unit.None?
      ensures r.Err? ==> r.error == InvalidCacheEntry && Table() == old(Table())
      ensures r.Ok? ==> Table() == Stored(old(Table()), capacity, mode, key.value, value, ExpiresAt(now, unit.value, time), now)
    {
      if key.None? || time < 0 || unit.None? {
        return Err(InvalidCacheEntry);
      }
      PutKey(key, value, ExpiresAt(now, unit.value, time), now);
      return Ok(());
    }

    /** The checked part of `put`, with the new stamp already computed. */
    method PutKey(key: Option<K>, value: Option<V>, stamp: int, now: int)
      requires Valid() && key.Some?
      modifies this, keys, values, timestamps
      ensures Valid()
      ensures Table() == Stored(old(Table()), capacity, mode, key.value, value, stamp, now)
    {
      var index := IndexOf(key.value);
      assert Table() == old(Table());
      if index >= 0 {
        Update(index, key, value, stamp, now);
      } else if size < capacity {
        Append(key, value, stamp, now);
      } else {
        ReplaceBottom(key, value, stamp, now);
      }
    }

    /** The held-key branch of `put`: the new value, then a new stamp and a re-sort when `Refreshes` says so. */
    method Update(index: int, key: Option<K>, value: Option<V>, stamp: int, now: int)
      requires Valid() && key.Some? && 0 <= index < size && index == Find(Keys(), key.value)
      modifies keys, values, timestamps
      ensures Valid()
      ensures Table() == Stored(old(Table()), capacity, mode, key.value, value, stamp, now)
    {
      ghost var k0, v0, p0 := Keys(), Values(), Stamps();
      values[index] := value;
      assert values[..] == values[..size] + values[size..];
      assert Keys() == k0 && Values() == v0[index := value] && Stamps() == p0;
      if Refreshes(mode, timestamps[index], now) {
        timestamps[index] := stamp;
        assert Keys() == k0 && Values() == v0[index := value] && Stamps() == p0[index := stamp];
        RemoveAtUpdate(p0, index, stamp);
        RemoveAtNonIncreasing(p0, index);
        Sort(index);
      }
    }

    /** The new-key branch of `put` on a cache with room: one more slot, written at the bottom, sorted into place. */
    method Append(key: Option<K>, value: Option<V>, stamp: int, now: int)
      requires Valid() && key.Some? && key !in Keys() && size < capacity
      modifies this, keys, values, timestamps
      ensures Valid()
      ensures Table() == Stored(old(Table()), capacity, mode, key.value, value, stamp, now)
    {
      ghost var k0, v0, p0 := keys[..], values[..], timestamps[..];
      size := size + 1;
      keys[size - 1] := key;
      values[size - 1] := value;
      timestamps[size - 1] := stamp;
      GrowPacked(k0, size - 1, key);
      GrowVacant(v0, size - 1, value);
      GrowPrefix(p0, size - 1, stamp);
      RemoveAtLast(old(Stamps()) + [stamp]);
      Sort(size - 1);
    }

    /** The new-key branch of `put` on a full cache: the bottom entry, the one with the earliest stamp, overwritten, then sorted into place. */
    method ReplaceBottom(key: Option<K>, value: Option<V>, stamp: int, now: int)
      requires Valid() && key.Some? && key !in Keys() && size == capacity
      modifies keys, values, timestamps
      ensures Valid()
      ensures Table() == Stored(old(Table()), capacity, mode, key.value, value, stamp, now)
    {
      ghost var k0, v0, p0 := Keys(), Values(), Stamps();
      var n := size - 1;
      keys[n] := key;
      values[n] := value;
      timestamps[n] := stamp;
      assert Keys() == k0[n := key] && Values() == v0[n := value] && Stamps() == p0[n := stamp];
      DistinctReplace(k0, n, key);
      RemoveAtUpdate(p0, n, stamp);
      RemoveAtNonIncreasing(p0, n);
      Sort(n);
    }

    /** `put(entry)`: only an expire entry is accepted; its key, value, time and unit are then put as by `put(key, value, time, unit)`. */
    method PutEntry(entry: CacheEntry<K, V>, now: int) returns (r: Result<()>)
      requires Valid()
      modifies this, keys, values, timestamps
      ensures Valid()
      ensures r.Err? <==> !entry.ExpireEntry? || entry.key.None? || entry.time < 0 || entry.unit.None?
      ensures r.Err? ==> r.error == (if entry.ExpireEntry? then InvalidCacheEntry else IllegalCacheState) && Table() == old(Table())
      ensures r.Ok? ==> Table() == Stored(old(Table()), capacity, mode, entry.key.value, entry.value, ExpiresAt(now, entry.unit.value, entry.time), now)
    {
      if !entry.ExpireEntry? {
        return Err(IllegalCacheState);
      }
      r := Put(entry.key, entry.value, entry.time, entry.unit, now);
    }

    /** `remove(key)`: a held key is taken out; otherwise nothing changes. */
    method Remove(key: Option<K>) returns (r: Result<()>)
      requires Valid()
      modifies this, keys, values, timestamps
      ensures Valid()
      ensures key.None? ==> r == Err(InvalidCacheEntry)
      ensures key.Some? ==> r == Ok(())
      ensures key.Some? && key in old(Keys()) ==>
        var i := Find(old(Keys()), key.value);
        size == old(size) - 1 && key !in Keys() &&
        Keys() == RemoveAt(old(Keys()), i) && Values() == RemoveAt(old(Values()), i) &&
        Stamps() == RemoveAt(old(Stamps()), i)
      ensures key.None? || key !in old(Keys()) ==>
        size == old(size) && Keys() == old(Keys()) && Values() == old(Values()) && Stamps() == old(Stamps())
    {
      if key.None? {
        return Err(InvalidCacheEntry);
      }
      var index := IndexOf(key.value);
      if index >= 0 {
        DistinctRemoveAt(Keys(), index);
        RemoveIndex(index);
      }
      return Ok(());
    }

    /** `clear()`: every slot emptied, size zero. */
    method Clear()
      requires 1 <= capacity && keys.Length == capacity && values.Length == capacity && timestamps.Length == capacity
      requires keys as object != values as object
      modifies this, keys, values, timestamps
      ensures Valid() && Keys() == []
    {
      Fill(keys, None);
      Fill(values, None);
      Fill(timestamps, 0);
      size := 0;
    }
  }

  /** The stamp `put` writes: the clock plus the time-to-live in milliseconds, never before the clock. */
  function ExpiresAt(now: int, unit: TimeUnit, time: int): (stamp: int)
    requires time >= 0
    ensures now <= stamp
  {
    now + ToMillis(unit, time)
  }

  /**
   * The occupied slots after `put` of the non-null `key` with the new stamp
   * `stamp`: a held key gets the value, and the stamp plus a re-sort when
   * `Refreshes` says so; a new key is appended when there is room and
   * otherwise overwrites the bottom entry, then is sorted into place.
   */
  ghost function Stored<K, V>(t: Ranked<K, V>, capacity: int, mode: ExpireMode, key: K, value: Option<V>, stamp: int, now: int): Ranked<K, V>
    requires t.Aligned() && 1 <= capacity && |t.keys| <= capacity
  {
    var at, n := Find(t.keys, key), |t.keys|;
    if 0 <= at then
      if Refreshes(mode, t.ranks[at], now) then Rerank(Ranked(t.keys, t.values[at := value], t.ranks[at := stamp]), at)
      else t.(values := t.values[at := value])
    else if n < capacity then Rerank(Ranked(t.keys + [Some(key)], t.values + [value], t.ranks + [stamp]), n)
    else Rerank(Ranked(t.keys[n - 1 := Some(key)], t.values[n - 1 := value], t.ranks[n - 1 := stamp]), n - 1)
  }

  /**
   * `put` keeps the cache invariants and stores the value: the stamps stay
   * in order, the keys distinct and occupied, the size grows by one only for
   * a new key on a cache with room, and the key then maps to the value.
   * Every other key keeps its value and its stamp, except that a new key
   * put into a full cache evicts the bottom entry, the one that expires
   * first.
   */
  lemma StoredKeeps<K, V>(t: Ranked<K, V>, capacity: int, mode: ExpireMode, key: K, value: Option<V>, stamp: int, now: int, other: K)
    requires t.Aligned() && 1 <= capacity && |t.keys| <= capacity
    requires NonIncreasing(t.ranks) && Distinct(t.keys) && Packed(t.keys, |t.keys|)
    ensures var r := Stored(t, capacity, mode, key, value, stamp, now);
      r.Aligned() && NonIncreasing(r.ranks) && Distinct(r.keys) && Packed(r.keys, |r.keys|) &&
      |r.keys| == (if Some(key) in t.keys || |t.keys| == capacity then |t.keys| else |t.keys| + 1) &&
      Lookup(r.keys, r.values, key) == value
    ensures var r := Stored(t, capacity, mode, key, value, stamp, now);
      other != key ==>
        if Some(key) !in t.keys && |t.keys| == capacity && t.keys[capacity - 1] == Some(other) then Some(other) !in r.keys
        else SameEntry(r, t, other)
  {
    var at, n := Find(t.keys, key), |t.keys|;
    if 0 <= at {
      if Refreshes(mode, t.ranks[at], now) {
        UpdateRerankKeeps(t, at, value, stamp, other);
      } else {
        LookupAt(t.keys, t.values[at := value], at);
        if other != key {
          AssignedKeeps(t, at, value, t.ranks[at], other);
          assert t.ranks[at := t.ranks[at]] == t.ranks;
        }
      }
    } else if n < capacity {
      AppendRerankKeeps(t, key, value, stamp, other);
    } else {
      BottomRerankKeeps(t, key, value, stamp, other);
    }
  }

  // ----- the expiry direction -----

  /** The value `get(key)` at time `now` returns, as written: the held value unless its stamp is after `now`. */
  ghost function Fetched<K, V>(t: Ranked<K, V>, key: K, now: int): Option<V>
    requires t.Aligned()
  {
    var at := Find(t.keys, key);
    if 0 <= at && !Expired(t.ranks[at], now) then t.values[at] else None
  }

  /** The value a `get` with the intended expiry test `Lapsed` returns: the held value until the clock passes its stamp. */
  ghost function Served<K, V>(t: Ranked<K, V>, key: K, now: int): Option<V>
    requires t.Aligned()
  {
    var at := Find(t.keys, key);
    if 0 <= at && !Lapsed(t.ranks[at], now) then t.values[at] else None
  }

  /** The sort carries the moved entry's key, value and stamp together: the key is then found with both. */
  lemma RerankCarries<K, V>(t: Ranked<K, V>, start: int)
    requires t.Aligned() && 0 <= start < |t.keys| && t.keys[start].Some?
    requires Distinct(Rerank(t, start).keys)
    ensures var r := Rerank(t, start); var at := Find(r.keys, t.keys[start].value);
      0 <= at && r.values[at] == t.values[start] && r.ranks[at] == t.ranks[start]
  {
    var to := SortTarget(t.ranks, start);
    var r := Rerank(t, start);
    MoveToFacts(t.keys, start, to);
    MoveToFacts(t.values, start, to);
    MoveToFacts(t.ranks, start, to);
    LookupAt(r.keys, r.values, to);
  }

  /**
   * A `put` that writes a stamp (a new key, or a held key `Refreshes`
   * admits) leaves the key held with the value and that stamp.
   */
  lemma StoredStamp<K, V>(t: Ranked<K, V>, capacity: int, mode: ExpireMode, key: K, value: Option<V>, stamp: int, now: int)
    requires t.Aligned() && 1 <= capacity && |t.keys| <= capacity
    requires NonIncreasing(t.ranks) && Distinct(t.keys) && Packed(t.keys, |t.keys|)
    requires var at := Find(t.keys, key); at < 0 || Refreshes(mode, t.ranks[at], now)
    ensures var r := Stored(t, capacity, mode, key, value, stamp, now); var at := Find(r.keys, key);
      0 <= at && r.values[at] == value && r.ranks[at] == stamp
  {
    StoredKeeps(t, capacity, mode, key, value, stamp, now, key);
    var at, n := Find(t.keys, key), |t.keys|;
    if 0 <= at {
      RerankCarries(Ranked(t.keys, t.values[at := value], t.ranks[at := stamp]), at);
    } else if n < capacity {
      RerankCarries(Ranked(t.keys + [Some(key)], t.values + [value], t.ranks + [stamp]), n);
    } else {
      RerankCarries(Ranked(t.keys[n - 1 := Some(key)], t.values[n - 1 := value], t.ranks[n - 1 := stamp]), n - 1);
    }
  }

  /**
   * As written, `get` calls an entry expired while its stamp is still ahead
   * of the clock: a key just put with a positive time-to-live, so with a
   * stamp after `now` (new, or held and refreshed), reads as null at the
   * same instant.
   */
  lemma PutThenGetMisses<K, V>(t: Ranked<K, V>, capacity: int, mode: ExpireMode, key: K, value: Option<V>, stamp: int, now: int)
    requires t.Aligned() && 1 <= capacity && |t.keys| <= capacity
    requires NonIncreasing(t.ranks) && Distinct(t.keys) && Packed(t.keys, |t.keys|) && now < stamp
    requires var at := Find(t.keys, key); at < 0 || Refreshes(mode, t.ranks[at], now)
    ensures var r := Stored(t, capacity, mode, key, value, stamp, now);
      Some(key) in r.keys && Fetched(r, key, now) == None
  {
    StoredStamp(t, capacity, mode, key, value, stamp, now);
  }

  /**
   * With the intended test, a key just put with a non-negative time-to-live,
   * so with a stamp no earlier than `now` (new, or held and refreshed), is
   * served with the value put until the clock passes the stamp, and not
   * after.
   */
  lemma PutThenGetServes<K, V>(t: Ranked<K, V>, capacity: int, mode: ExpireMode, key: K, value: Option<V>, stamp: int, now: int, later: int)
    requires t.Aligned() && 1 <= capacity && |t.keys| <= capacity
    requires NonIncreasing(t.ranks) && Distinct(t.keys) && Packed(t.keys, |t.keys|) && now <= stamp
    requires var at := Find(t.keys, key); at < 0 || Refreshes(mode, t.ranks[at], now)
    ensures var r := Stored(t, capacity, mode, key, value, stamp, now);
      Served(r, key, later) == (if later <= stamp then value else None)
  {
    StoredStamp(t, capacity, mode, key, value, stamp, now);
    ServedUntil(Stored(t, capacity, mode, key, value, stamp, now), key, value, stamp, later);
  }

  /** A key held with a value and a stamp is served with that value until the clock passes the stamp. */
  lemma ServedUntil<K, V>(r: Ranked<K, V>, key: K, value: Option<V>, stamp: int, later: int)
    requires r.Aligned()
    requires var at := Find(r.keys, key); 0 <= at && r.values[at] == value && r.ranks[at] == stamp
    ensures Served(r, key, later) == (if later <= stamp then value else None)
  {
  }
}
