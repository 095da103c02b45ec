/**
 * `maps/time/fixed/TimeCache`: one time-to-live for the whole cache. Entries
 * are packed into a prefix, the most recently stamped at index 0: a new key
 * is pushed in at the front with the timestamp `now + time`, dropping the
 * bottom entry when full; a refreshed key is moved to the front. The
 * clock is a `now` parameter (milliseconds). Optional metrics.
 */
module MapsTime {
  import opened Cache
  import opened Slots
  import opened Reorder
  import opened Recorder
  import opened Expiry

  class TimeCache<K(==), V> {
    var size: int
    const capacity: int
    const metricsEnabled: bool
    const ttl: int
    const mode: ExpireMode
    const keys: array<Option<K>>
    const values: array<Option<V>>
    const timestamps: array<int>
    const recorder: CacheRecorder?

    /** The timestamp an entry written or refreshed at time `now` gets: the clock plus the time-to-live. */
    function Expiry(now: int): int
    {
      now + ttl
    }

    /** The occupied key slots, top first. */
    ghost function Keys(): seq<Option<K>>
      reads this, keys
      requires 0 <= size <= keys.Length
    {
      keys[..size]
    }

    /** The occupied value slots, aligned with `Keys()`. */
    ghost function Values(): seq<Option<V>>
      reads this, values
      requires 0 <= size <= values.Length
    {
      values[..size]
    }

    /** The timestamps of the occupied slots, aligned with `Keys()`. */
    ghost function Stamps(): seq<int>
      reads this, timestamps
      requires 0 <= size <= timestamps.Length
    {
      timestamps[..size]
    }

    /** The three views together. */
    ghost function Table(): Ranked<K, V>
      reads this, keys, values, timestamps
      requires 0 <= size <= keys.Length && size <= values.Length && size <= timestamps.Length
    {
      Ranked(Keys(), Values(), Stamps())
    }

    /** Distinct non-null keys fill the first `size` slots, every later key and value slot is null; a recorder exactly when metrics are on. */
    ghost predicate Valid()
      reads this, keys, values, timestamps
    {
      1 <= capacity && keys.Length == capacity && values.Length == capacity && timestamps.Length == capacity &&
      keys as object != values as object &&
      0 <= size <= capacity &&
      Packed(keys[..], size) && Vacant(values[..], size) &&
      Distinct(keys[..size]) &&
      (metricsEnabled <==> recorder != null)
    }

    /** The constructor: a capacity below one, a negative time, a null unit or a null mode is refused; the time is kept in milliseconds. */
    static method Create(capacity: int, metricsEnabled: bool, time: int, unit: Option<TimeUnit>, mode: Option<ExpireMode>)
      returns (r: Result<TimeCache<K, V>>)
      ensures r.Err? <==> capacity < 1 || time < 0 || unit.None? || mode.None?
      ensures r.Err? ==> r.error == IllegalCacheState
      ensures r.Ok? ==> fresh(r.value) && fresh(r.value.keys) && fresh(r.value.values) && fresh(r.value.timestamps)
      ensures r.Ok? ==> r.value.Valid() && r.value.Keys() == [] && r.value.capacity == capacity
      ensures r.Ok? ==> r.value.ttl == ToMillis(unit.value, time) && r.value.mode == mode.value
      ensures r.Ok? ==> r.value.metricsEnabled == metricsEnabled
      ensures r.Ok? && metricsEnabled ==> fresh(r.value.recorder) && r.value.recorder.Counters() == Record(Zero, ClearEvent)
    {
      if capacity < 1 || time < 0 || unit.None? || mode.None? {
        return Err(IllegalCacheState);
      }
      var c := new TimeCache(capacity, metricsEnabled, ToMillis(unit.value, time), mode.value);
      return Ok(c);
    }

    /** A fresh cache is empty and has recorded one clear: the constructor ends by calling `clear()`. */
    constructor(capacity: int, metricsEnabled: bool, ttl: int, mode: ExpireMode)
      requires 1 <= capacity
      ensures Valid() && fresh(keys) && fresh(values) && fresh(timestamps) && Keys() == []
      ensures this.capacity == capacity && this.metricsEnabled == metricsEnabled && this.ttl == ttl && this.mode == mode
      ensures metricsEnabled ==> fresh(recorder) && recorder.Counters() == Record(Zero, ClearEvent)
    {
      size := 0;
      this.capacity := capacity;
      this.metricsEnabled := metricsEnabled;
      this.ttl := ttl;
      this.mode := mode;
      keys := new Option<K>[capacity](_ => None);
      values := new Option<V>[capacity](_ => None);
      timestamps := new int[capacity](_ => 0);
      var rec: CacheRecorder? := null;
      if metricsEnabled {
        rec := new CacheRecorder();
      }
      recorder := rec;
      new;
      Clear();
    }

    /** `metrics()`: refused when metrics are off; otherwise size and capacity are recorded first. */
    method Metrics() returns (r: Result<map<string, int>>)
      requires Valid()
      modifies recorder
      ensures r.Err? <==> !metricsEnabled
      ensures r.Err? ==> r.error == IllegalCacheState
      ensures r.Ok? ==> recorder.Counters() == old(recorder.Counters()).(size := size, capacity := capacity)
      ensures r.Ok? ==> r.value == MetricsMap(recorder.Counters())
    {
      if !metricsEnabled {
        return Err(IllegalCacheState);
      }
      var _ := recorder.Size(size);
      var _ := recorder.Capacity(capacity);
      var m := recorder.Metrics();
      return Ok(m);
    }

    /** `isEmpty()`: true exactly when no entry is held. */
    method IsEmpty() returns (empty: bool)
      requires Valid()
      ensures empty <==> Keys() == []
    {
      return size == 0;
    }

    /** `has(key)`: a null key is refused by `indexOf`; otherwise whether the key is held, expired or not. */
    method Has(key: Option<K>) returns (r: Result<bool>)
      requires Valid()
      ensures r.Err? <==> key.None?
      ensures r.Err? ==> r.error == InvalidCacheEntry
      ensures r.Ok? ==> (r.value <==> key in Keys())
    {
      if key.None? {
        return Err(InvalidCacheEntry);
      }
      var index := IndexOf(key.value);
      return Ok(index != -1);
    }

    /** The private `indexOf`: the position of the key among the occupied slots, or -1. */
    method IndexOf(key: K) returns (index: int)
      requires Valid()
      ensures index == Find(Keys(), key)
      ensures index == -1 <==> Some(key) !in Keys()
    {
      index := IndexIn(keys, 0, size, key);
      assert keys[0..size] == Keys();
    }

    /**
     * The private `get(int)`: the value at an occupied index; under
     * AFTER_ACCESS the entry moves to the front with the timestamp
     * `now + time`, otherwise nothing changes.
     */
    method GetIndex(index: int, now: int) returns (value: Option<V>)
      requires Valid() && 0 <= index < size
      modifies keys, values, timestamps
      ensures Valid() && value == old(Values())[index]
      ensures Table() == Accessed(old(Table()), mode, index, Expiry(now))
    {
      var key := keys[index];
      value := values[index];
      if mode.AfterAccess? {
        Front(index, key, value, Expiry(now));
      }
    }

    /** The shift loop shared by `get(int)` and `put`: the entry at `index` moves to the front with `value` and `stamp`, the entries above it move down one. */
    method Front(index: int, key: Option<K>, value: Option<V>, stamp: int)
      requires Valid() && 0 <= index < size && key == keys[index]
      modifies keys, values, timestamps
      ensures Valid() && Table() == Fronted(old(Table()), index, key, value, stamp)
    {
      ghost var k0, v0, p0 := keys[..], values[..], timestamps[..];
      PushFront(keys, index, key);
      PushFront(values, index, value);
      PushFront(timestamps, index, stamp);
      FrontMovePacked(k0, index, size, key);
      FrontMoveVacant(v0, index, size, value);
      FrontMovePrefix(p0, index, size, stamp);
      DistinctToFront(k0[..size], index);
    }

    /** The private `remove(int)`: the entry at `index` is taken out and the gap closed. */
    method RemoveIndex(index: int)
      requires Valid() && 0 <= index < size
      modifies this, keys, values, timestamps
      ensures Valid() && Table() == Removed(old(Table()), index)
    {
      ghost var k0, v0, p0 := keys[..], values[..], timestamps[..];
      size := size - 1;
      PushBack(keys, index, size + 1, None);
      PushBack(values, index, size + 1, None);
      PushBack(timestamps, index, size + 1, 0);
      PushBackPacked(k0, index, size + 1);
      PushBackVacant(v0, index, size + 1);
      PushBackParts(p0, index, size + 1, 0);
      DistinctRemoveAt(k0[..size + 1], index);
    }

    /** `peekTop()`: the top value, or null when empty; the read goes through `get(0)`, so AFTER_ACCESS restamps it. */
    method PeekTop(now: int) returns (value: Option<V>)
      requires Valid()
      modifies keys, values, timestamps
      ensures Valid() && value == Top(old(Values()))
      ensures old(size) == 0 ==> Table() == old(Table())
      ensures old(size) > 0 ==> Table() == Accessed(old(Table()), mode, 0, Expiry(now))
    {
      if keys[0].None? {
        return None;
      }
      value := GetIndex(0, now);
    }

    /** `peekBottom()`: the bottom value through `get(size - 1)`; on an empty cache the read of slot -1 fails. */
    method PeekBottom(now: int) returns (r: Result<Option<V>>)
      requires Valid()
      modifies keys, values, timestamps
      ensures Valid()
      ensures old(size) == 0 ==> r == Err(ArrayIndexOutOfBounds) && Table() == old(Table())
      ensures old(size) > 0 ==> r == Ok(Bottom(old(Values()))) && Table() == Accessed(old(Table()), mode, old(size) - 1, Expiry(now))
    {
      if size == 0 {
        return Err(ArrayIndexOutOfBounds);
      }
      var value := GetIndex(size - 1, now);
      return Ok(value);
    }

    /** `elementTop()`: like `peekTop()`, but an empty cache underflows. */
    method ElementTop(now: int) returns (r: Result<Option<V>>)
      requires Valid()
      modifies keys, values, timestamps
      ensures Valid() && r == Element(old(Values()), true, CacheUnderflow)
      ensures old(size) == 0 ==> Table() == old(Table())
      ensures old(size) > 0 ==> Table() == Accessed(old(Table()), mode, 0, Expiry(now))
    {
      if keys[0].None? {
        return Err(CacheUnderflow);
      }
      var value := GetIndex(0, now);
      return Ok(value);
    }

    /** `elementBottom()`: like `peekBottom()`; the read of slot -1 fails before the underflow check. */
    method ElementBottom(now: int) returns (r: Result<Option<V>>)
      requires Valid()
      modifies keys, values, timestamps
      ensures Valid()
      ensures old(size) == 0 ==> r == Err(ArrayIndexOutOfBounds) && Table() == old(Table())
      ensures old(size) > 0 ==> r == Element(old(Values()), false, CacheUnderflow) && Table() == Accessed(old(Table()), mode, old(size) - 1, Expiry(now))
    {
      if size == 0 {
        return Err(ArrayIndexOutOfBounds);
      }
      var value := GetIndex(size - 1, now);
      return Ok(value);
    }

    /** `popTop()`: removes and returns the top value, or null when empty. */
    method PopTop() returns (value: Option<V>)
      requires Valid()
      modifies this, keys, values, timestamps
      ensures Valid() && value == Top(old(Values()))
      ensures old(size) == 0 ==> Table() == old(Table())
      ensures old(size) > 0 ==> Table() == Removed(old(Table()), 0)
    {
      if keys[0].None? {
        return None;
      }
      value := values[0];
      RemoveIndex(0);
    }

    /** `popBottom()`: removes and returns the bottom value; on an empty cache the read of slot -1 fails. */
    method PopBottom() returns (r: Result<Option<V>>)
      requires Valid()
      modifies this, keys, values, timestamps
      ensures Valid()
      ensures old(size) == 0 ==> r == Err(ArrayIndexOutOfBounds) && Table() == old(Table())
      ensures old(size) > 0 ==> r == Ok(Bottom(old(Values()))) && Table() == Removed(old(Table()), old(size) - 1)
    {
      if size == 0 {
        return Err(ArrayIndexOutOfBounds);
      }
      var value := values[size - 1];
      RemoveIndex(size - 1);
      return Ok(value);
    }

    /** `pollTop()`: like `popTop()`, but an empty cache underflows. */
    method PollTop() returns (r: Result<Option<V>>)
      requires Valid()
      modifies this, keys, values, timestamps
      ensures Valid() && r == Element(old(Values()), true, CacheUnderflow)
      ensures old(size) == 0 ==> Table() == old(Table())
      ensures old(size) > 0 ==> Table() == Removed(old(Table()), 0)
    {
      if keys[0].None? {
        return Err(CacheUnderflow);
      }
      var value := values[0];
      RemoveIndex(0);
      return Ok(value);
    }

    /** `pollBottom()`: like `popBottom()`; the read of slot -1 fails before the underflow check. */
    method PollBottom() returns (r: Result<Option<V>>)
      requires Valid()
      modifies this, keys, values, timestamps
      ensures Valid()
      ensures old(size) == 0 ==> r == Err(ArrayIndexOutOfBounds) && Table() == old(Table())
      ensures old(size) > 0 ==> r == Element(old(Values()), false, CacheUnderflow) && Table() == Removed(old(Table()), old(size) - 1)
    {
      if size == 0 {
        return Err(ArrayIndexOutOfBounds);
      }
      var value := values[size - 1];
      RemoveIndex(size - 1);
      return Ok(value);
    }

    /**
     * `get(key)` at time `now`: a held key whose timestamp `Expired` calls
     * expired is removed and reads as null (a miss); any other held key is
     * read through `get(int)` (a hit); an absent key reads as null (a miss).
     */
    method Get(key: Option<K>, now: int) returns (r: Result<Option<V>>)
      requires Valid()
      modifies this, keys, values, timestamps, recorder
      ensures Valid()
      ensures key.None? ==> r == Err(InvalidCacheEntry) && Table() == old(Table()) && Logged(recorder, [])
      ensures key.Some? ==> r == Ok(Fetched(old(Table()), key.value, now))
      ensures key.Some? ==> Table() == Read(old(Table()), mode, key.value, Expiry(now), now)
      ensures key.Some? ==> Logged(recorder, if Fresh(old(Table()), key.value, now) then [HitEvent] else [MissEvent])
    {
      if key.None? {
        return Err(InvalidCacheEntry);
      }
      var index := IndexOf(key.value);
      assert Table() == old(Table());
      if index < 0 {
        if metricsEnabled {
          recorder.Miss();
        }
        return Ok(None);
      }
      if Expired(timestamps[index], now) {
        if metricsEnabled {
          recorder.Miss();
        }
        assert Table() == old(Table());
        RemoveIndex(index);
        return Ok(None);
      }
      if metricsEnabled {
        recorder.Hit();
      }
      assert Table() == old(Table());
      var value := GetIndex(index, now);
      return Ok(value);
    }

    /** `get(key, defaultValue)`: `get(key)`, with null replaced by the default. */
    method GetOrDefault(key: Option<K>, defaultValue: Option<V>, now: int) returns (r: Result<Option<V>>)
      requires Valid()
      modifies this, keys, values, timestamps, recorder
      ensures Valid()
      ensures key.None? ==> r == Err(InvalidCacheEntry) && Table() == old(Table()) && Logged(recorder, [])
      ensures key.Some? ==> r == Ok(OrDefault(Fetched(old(Table()), key.value, now), defaultValue))
      ensures key.Some? ==> Table() == Read(old(Table()), mode, key.value, Expiry(now), now)
      ensures key.Some? ==> Logged(recorder, if Fresh(old(Table()), key.value, now) then [HitEvent] else [MissEvent])
    {
      r := Get(key, now);
      if r.Ok? {
        r := Ok(OrDefault(r.value, defaultValue));
      }
    }

    /**
     * `put(key, value)` at time `now`: a null key is refused before anything
     * is recorded; otherwise one put is recorded and the slots become what
     * `Stored` describes, with the timestamp `now + time`.
     */
    method Put(key: Option<K>, value: Option<V>, now: int) returns (r: Result<()>)
      requires Valid()
      modifies this, keys, values, timestamps, recorder
      ensures Valid()
      ensures key.None? ==> r == Err(InvalidCacheEntry) && Table() == old(Table()) && Logged(recorder, [])
      ensures key.Some? ==> r == Ok(()) && Table() == Stored(old(Table()), capacity, mode, key.value, value, Expiry(now), now)
      ensures key.Some? ==> Logged(recorder, [PutEvent] + PutOutcome(old(Table()), capacity, key.value))
    {
      if key.None? {
        return Err(InvalidCacheEntry);
      }
      if metricsEnabled {
        recorder.Put();
      }
      assert Table() == old(Table());
      PutKey(key, value, now);
      if metricsEnabled {
        ReplayAppend(old(recorder.Counters()), [PutEvent], PutOutcome(old(Table()), capacity, key.value));
      }
      return Ok(());
    }

    /** The non-null branch of `put`, after the put is recorded: a held key records a hit, a new key on a full cache an eviction. */
    method PutKey(key: Option<K>, value: Option<V>, now: int)
      requires Valid() && key.Some?
      modifies this, keys, values, timestamps, recorder
      ensures Valid()
      ensures Table() == Stored(old(Table()), capacity, mode, key.value, value, Expiry(now), now)
      ensures Logged(recorder, PutOutcome(old(Table()), capacity, key.value))
    {
      var index := IndexOf(key.value);
      assert Table() == old(Table());
      if index >= 0 {
        if metricsEnabled {
          recorder.Hit();
        }
        assert Table() == old(Table());
        Update(index, key, value, now);
      } else {
        if size == capacity && metricsEnabled {
          recorder.Eviction();
        }
        assert Table() == old(Table());
        Insert(key, value, now);
      }
    }

    /** The held-key branch of `put`: the new value, and when `Refreshes` says so, a move to the front with a new timestamp. */
    method Update(index: int, key: Option<K>, value: Option<V>, now: int)
      requires Valid() && key.Some? && 0 <= index < size && index == Find(Keys(), key.value)
      modifies keys, values, timestamps
      ensures Valid()
      ensures Table() == Stored(old(Table()), capacity, mode, key.value, value, Expiry(now), now)
    {
      ghost var v0 := Values();
      values[index] := value;
      assert values[..] == values[..size] + values[size..];
      assert Values() == v0[index := value];
      if Refreshes(mode, timestamps[index], now) {
        RemoveAtUpdate(v0, index, value);
        Front(index, key, value, Expiry(now));
      }
    }

    /** The new-key branch of `put`: one more slot unless full (the bottom entry is then dropped), and the entry pushed in at the front. */
    method Insert(key: Option<K>, value: Option<V>, now: int)
      requires Valid() && key.Some? && key !in Keys()
      modifies this, keys, values, timestamps
      ensures Valid()
      ensures Table() == Stored(old(Table()), capacity, mode, key.value, value, Expiry(now), now)
    {
      ghost var t := Table();
      var stamp := Expiry(now);
      StoredNew(t, capacity, mode, key.value, value, stamp, now);
      Place(key, value, stamp);
      var m := size - 1;
      assert Table() == Ranked(t.keys[..m] + [key], t.values[..m] + [value], t.ranks[..m] + [stamp]);
      Front(m, key, value, stamp);
    }

    /** The new entry written in the slot after the occupied ones, or over the bottom entry when full. */
    method Place(key: Option<K>, value: Option<V>, stamp: int)
      requires Valid() && key.Some? && key !in Keys()
      modifies this, keys, values, timestamps
      ensures Valid() && 1 <= size && key == keys[size - 1]
      ensures var m := if old(size) < capacity then old(size) else capacity - 1;
        Table() == Ranked(old(Keys())[..m] + [key], old(Values())[..m] + [value], old(Stamps())[..m] + [stamp])
    {
      if size < capacity {
        Grow(key, value, stamp);
      } else {
        Overwrite(key, value, stamp);
      }
    }

    /** The new entry written in the slot after the occupied ones. */
    method Grow(key: Option<K>, value: Option<V>, stamp: int)
      requires Valid() && key.Some? && key !in Keys() && size < capacity
      modifies this, keys, values, timestamps
      ensures Valid() && size == old(size) + 1 && key == keys[size - 1]
      ensures Table() == Ranked(old(Keys()) + [key], old(Values()) + [value], old(Stamps()) + [stamp])
    {
      ghost var k0, v0, p0 := keys[..], values[..], timestamps[..];
      size := size + 1;
      keys[size - 1] := key;
      values[size - 1] := value;
      timestamps[size - 1] := stamp;
      GrowPacked(k0, size - 1, key);
      GrowVacant(v0, size - 1, value);
      GrowPrefix(p0, size - 1, stamp);
      DistinctSnocNew(k0[..size - 1], key);
    }

    /** The new entry written over the bottom entry of a full cache. */
    method Overwrite(key: Option<K>, value: Option<V>, stamp: int)
      requires Valid() && key.Some? && key !in Keys() && size == capacity
      modifies keys, values, timestamps
      ensures Valid() && key == keys[size - 1]
      ensures Table() == Ranked(old(Keys())[..size - 1] + [key], old(Values())[..size - 1] + [value], old(Stamps())[..size - 1] + [stamp])
    {
      ghost var k0, v0, p0 := Keys(), Values(), Stamps();
      DistinctReplace(k0, size - 1, key);
      keys[size - 1] := key;
      values[size - 1] := value;
      timestamps[size - 1] := stamp;
      assert Keys() == k0[size - 1 := key] == k0[..size - 1] + [key];
      assert Values() == v0[size - 1 := value] == v0[..size - 1] + [value];
      assert Stamps() == p0[size - 1 := stamp] == p0[..size - 1] + [stamp];
    }

    /** `put(entry)`: only a basic entry is accepted; its key and value are then put. */
    method PutEntry(entry: CacheEntry<K, V>, now: int) returns (r: Result<()>)
      requires Valid()
      modifies this, keys, values, timestamps, recorder
      ensures Valid()
      ensures r.Err? <==> !entry.BasicEntry? || entry.key.None?
      ensures r.Err? ==> r.error == (if entry.BasicEntry? then InvalidCacheEntry else IllegalCacheState)
      ensures r.Err? ==> Table() == old(Table()) && Logged(recorder, [])
      ensures r.Ok? ==> Table() == Stored(old(Table()), capacity, mode, entry.key.value, entry.value, Expiry(now), now)
      ensures r.Ok? ==> Logged(recorder, [PutEvent] + PutOutcome(old(Table()), capacity, entry.key.value))
    {
      if !entry.BasicEntry? {
        return Err(IllegalCacheState);
      }
      r := Put(entry.key, entry.value, now);
    }

    /** `remove(key)`: a held key is taken out (hit and remove recorded); otherwise a miss. */
    method Remove(key: Option<K>) returns (r: Result<()>)
      requires Valid()
      modifies this, keys, values, timestamps, recorder
      ensures Valid()
      ensures key.None? ==> r == Err(InvalidCacheEntry) && Table() == old(Table()) && Logged(recorder, [])
      ensures key.Some? ==> r == Ok(()) && Table() == Dropped(old(Table()), key.value)
      ensures key.Some? ==> Logged(recorder, if key in old(Keys()) then [HitEvent, RemoveEvent] else [MissEvent])
    {
      if key.None? {
        return Err(InvalidCacheEntry);
      }
      var index := IndexOf(key.value);
      if index >= 0 {
        if metricsEnabled {
          recorder.Hit();
          recorder.Remove();
          ReplayAppend(old(recorder.Counters()), [HitEvent], [RemoveEvent]);
        }
        assert Table() == old(Table());
        RemoveIndex(index);
        return Ok(());
      }
      if metricsEnabled {
        recorder.Miss();
      }
      return Ok(());
    }

    /** `clear()`: every slot nulled, size zero, one clear recorded. */
    method Clear()
      requires 1 <= capacity && keys.Length == capacity && values.Length == capacity && timestamps.Length == capacity
      requires keys as object != values as object && (metricsEnabled <==> recorder != null)
      modifies this, keys, values, timestamps, recorder
      ensures Valid() && Table() == Ranked([], [], []) && Logged(recorder, [ClearEvent])
    {
      if metricsEnabled {
        recorder.Clear();
      }
      Fill(keys, None);
      Fill(values, None);
      Fill(timestamps, 0);
      size := 0;
    }
  }

  // ----- the specification of the operations on the occupied slots -----

  /** The slots with the entry at `i` taken out and `key`, `value`, `stamp` pushed in at the front: the move-to-front loops. */
  function Fronted<K, V>(t: Ranked<K, V>, i: int, key: Option<K>, value: Option<V>, stamp: int): (r: Ranked<K, V>)
    requires t.Aligned() && 0 <= i < |t.keys|
    ensures r.Aligned() && |r.keys| == |t.keys|
  {
    Ranked([key] + RemoveAt(t.keys, i), [value] + RemoveAt(t.values, i), [stamp] + RemoveAt(t.ranks, i))
  }

  /** The slots after the private `get(i)`: under AFTER_ACCESS the entry moves to the front stamped `stamp`. */
  function Accessed<K, V>(t: Ranked<K, V>, mode: ExpireMode, i: int, stamp: int): (r: Ranked<K, V>)
    requires t.Aligned() && 0 <= i < |t.keys|
  {
    if mode.AfterAccess? then Fronted(t, i, t.keys[i], t.values[i], stamp) else t
  }

  /**
   * The slots after `put` of the non-null `key` stamped `stamp` at time
   * `now`: a held key gets the value, and a move to the front with the
   * stamp when `Refreshes` says so; a new key is pushed in at the front,
   * the bottom entry dropped when the cache is full.
   */
  ghost function Stored<K, V>(t: Ranked<K, V>, capacity: int, mode: ExpireMode, key: K, value: Option<V>, stamp: int, now: int): Ranked<K, V>
    requires t.Aligned() && 1 <= capacity && |t.keys| <= capacity
  {
    var at := Find(t.keys, key);
    if 0 <= at then
      if Refreshes(mode, t.ranks[at], now) then Fronted(t, at, Some(key), value, stamp)
      else t.(values := t.values[at := value])
    else
      var m := if |t.keys| < capacity then |t.keys| else capacity - 1;
      Ranked([Some(key)] + t.keys[..m], [value] + t.values[..m], [stamp] + t.ranks[..m])
  }

  /** What `put` of the non-null `key` records after the put itself: a hit for a held key, an eviction for a new key on a full cache. */
  ghost function PutOutcome<K, V>(t: Ranked<K, V>, capacity: int, key: K): seq<Event>
  {
    if Some(key) in t.keys then [HitEvent] else if |t.keys| == capacity then [EvictionEvent] else []
  }

  /** Whether `get(key)` at time `now` finds the key held and not `Expired`: a hit. */
  ghost predicate Fresh<K, V>(t: Ranked<K, V>, key: K, now: int)
    requires t.Aligned()
  {
    var at := Find(t.keys, key);
    0 <= at && !Expired(t.ranks[at], now)
  }

  /** The value `get(key)` returns at time `now`: the held value on a hit, otherwise null. */
  ghost function Fetched<K, V>(t: Ranked<K, V>, key: K, now: int): Option<V>
    requires t.Aligned()
  {
    if Fresh(t, key, now) then t.values[Find(t.keys, key)] else None
  }

  /** The slots after `get(key)` at time `now`: an expired key removed, a hit read through `get(int)`, an absent key changing nothing. */
  ghost function Read<K, V>(t: Ranked<K, V>, mode: ExpireMode, key: K, stamp: int, now: int): Ranked<K, V>
    requires t.Aligned()
  {
    var at := Find(t.keys, key);
    if at < 0 then t
    else if Expired(t.ranks[at], now) then Removed(t, at)
    else Accessed(t, mode, at, stamp)
  }

  /** The slots after `remove(key)` of a non-null key: the key's entry taken out when held. */
  ghost function Dropped<K, V>(t: Ranked<K, V>, key: K): Ranked<K, V>
    requires t.Aligned()
  {
    var at := Find(t.keys, key);
    if at < 0 then t else Removed(t, at)
  }

  // ----- facts -----

  /** Pushing a new key in front of distinct keys, possibly dropping the bottom one, keeps them distinct. */
  lemma DistinctNewFront<K>(ks: seq<Option<K>>, key: Option<K>, m: int)
    requires Distinct(ks) && key !in ks && 0 <= m <= |ks|
    ensures Distinct([key] + ks[..m])
  {
    assert forall x :: x in ks[..m] ==> x in ks;
  }

  /** For a new key, `Stored` is the entry written after the kept prefix and then moved to the front. */
  lemma StoredNew<K, V>(t: Ranked<K, V>, capacity: int, mode: ExpireMode, key: K, value: Option<V>, stamp: int, now: int)
    requires t.Aligned() && 1 <= capacity && |t.keys| <= capacity && Some(key) !in t.keys
    ensures var m := if |t.keys| < capacity then |t.keys| else capacity - 1;
      var p := Ranked(t.keys[..m] + [Some(key)], t.values[..m] + [value], t.ranks[..m] + [stamp]);
      Stored(t, capacity, mode, key, value, stamp, now) == Fronted(p, m, Some(key), value, stamp)
  {
    var m := if |t.keys| < capacity then |t.keys| else capacity - 1;
    RemoveAtLast(t.keys[..m] + [Some(key)]);
    RemoveAtLast(t.values[..m] + [value]);
    RemoveAtLast(t.ranks[..m] + [stamp]);
  }

  /** Moving the entry of `key` to the front with a new value and stamp leaves every other key's entry as it was. */
  lemma FrontedKeeps<K, V>(t: Ranked<K, V>, i: int, key: K, value: Option<V>, stamp: int, other: K)
    requires t.Aligned() && 0 <= i < |t.keys| && Distinct(t.keys) && t.keys[i] == Some(key) && other != key
    ensures Distinct(Fronted(t, i, Some(key), value, stamp).keys)
    ensures SameEntry(Fronted(t, i, Some(key), value, stamp), t, other)
  {
    var r := Fronted(t, i, Some(key), value, stamp);
    DistinctToFront(t.keys, i);
    var j := Find(t.keys, other);
    if 0 <= j {
      SameSlot(r, t, if j < i then j + 1 else j, j);
    } else {
      assert forall p :: 1 <= p < |r.keys| ==> r.keys[p] == t.keys[if p - 1 < i then p - 1 else p];
    }
  }

  /**
   * `put` keeps the cache invariants and stores the value: the keys stay
   * distinct and occupied, the size grows by one only for a new key on a
   * cache with room, the key then maps to the value, and a refreshed or new
   * key is at the top with the new timestamp. Every other key keeps its
   * value and its timestamp, except that a new key put into a full cache
   * evicts the bottom entry.
   */
  lemma StoredKeeps<K, V>(t: Ranked<K, V>, capacity: int, mode: ExpireMode, key: K, value: Option<V>, stamp: int, now: int, other: K)
    requires t.Aligned() && 1 <= capacity && |t.keys| <= capacity
    requires Distinct(t.keys) && Packed(t.keys, |t.keys|)
    ensures var r := Stored(t, capacity, mode, key, value, stamp, now);
      r.Aligned() && Distinct(r.keys) && Packed(r.keys, |r.keys|) &&
      |r.keys| == (if Some(key) in t.keys || |t.keys| == capacity then |t.keys| else |t.keys| + 1) &&
      Lookup(r.keys, r.values, key) == value
    ensures var at := Find(t.keys, key);
      at < 0 || Refreshes(mode, t.ranks[at], now) ==>
        var r := Stored(t, capacity, mode, key, value, stamp, now);
        r.keys[0] == Some(key) && r.ranks[0] == stamp
    ensures var r := Stored(t, capacity, mode, key, value, stamp, now);
      other != key ==>
        if Some(key) !in t.keys && |t.keys| == capacity && t.keys[capacity - 1] == Some(other) then Some(other) !in r.keys
        else SameEntry(r, t, other)
  {
    var at, r := Find(t.keys, key), Stored(t, capacity, mode, key, value, stamp, now);
    if 0 <= at {
      if Refreshes(mode, t.ranks[at], now) {
        DistinctToFront(t.keys, at);
        PackedToFront(t.keys, at);
        if other != key {
          FrontedKeeps(t, at, key, value, stamp, other);
        }
      } else {
        LookupAt(t.keys, t.values[at := value], at);
        if other != key {
          AssignedKeeps(t, at, value, t.ranks[at], other);
          assert t.ranks[at := t.ranks[at]] == t.ranks;
        }
      }
    } else {
      var m := if |t.keys| < capacity then |t.keys| else capacity - 1;
      DistinctNewFront(t.keys, Some(key), m);
      PushedKeeps(t, capacity, key, value, stamp, other);
    }
    LookupAt(r.keys, r.values, 0);
  }

  /** Moving an occupied key to the front of a packed sequence keeps it packed. */
  lemma PackedToFront<K>(ks: seq<Option<K>>, i: int)
    requires 0 <= i < |ks| && Packed(ks, |ks|)
    ensures Packed([ks[i]] + RemoveAt(ks, i), |ks|)
  {
    FrontMovePacked(ks, i, |ks|, ks[i]);
  }

  /**
   * `get` on a held key: an expired key is gone afterwards; a hit leaves
   * the key mapped to the value it returned, at the top under AFTER_ACCESS
   * with the new timestamp. Every other key keeps its value and its
   * timestamp either way.
   */
  lemma ReadKeeps<K, V>(t: Ranked<K, V>, mode: ExpireMode, key: K, stamp: int, now: int, other: K)
    requires t.Aligned() && Distinct(t.keys) && Some(key) in t.keys
    ensures var r := Read(t, mode, key, stamp, now);
      r.Aligned() && Distinct(r.keys) &&
      (!Fresh(t, key, now) ==> Some(key) !in r.keys && |r.keys| == |t.keys| - 1) &&
      (Fresh(t, key, now) ==> Lookup(r.keys, r.values, key) == Fetched(t, key, now) && |r.keys| == |t.keys|) &&
      (Fresh(t, key, now) && mode.AfterAccess? ==> r.keys[0] == Some(key) && r.ranks[0] == stamp)
    ensures other != key ==> SameEntry(Read(t, mode, key, stamp, now), t, other)
  {
    var at := Find(t.keys, key);
    if Fresh(t, key, now) {
      if mode.AfterAccess? {
        DistinctToFront(t.keys, at);
        LookupAt([t.keys[at]] + RemoveAt(t.keys, at), [t.values[at]] + RemoveAt(t.values, at), 0);
        if other != key {
          FrontedKeeps(t, at, key, t.values[at], stamp, other);
        }
      } else {
        LookupAt(t.keys, t.values, at);
      }
    } else {
      DistinctRemoveAt(t.keys, at);
      if other != key {
        RemovedKeepsRanks(t, at, other);
      }
    }
  }

  // ----- the expiry direction -----

  /**
   * As written, `get` calls an entry expired while its timestamp is still
   * ahead of the clock: a key just put with a positive time-to-live (new, or
   * held and refreshed) is reported absent by a `get` at the same instant,
   * and that `get` removes it.
   */
  lemma PutThenGetMisses<K, V>(t: Ranked<K, V>, capacity: int, mode: ExpireMode, key: K, value: Option<V>, ttl: int, now: int)
    requires t.Aligned() && 1 <= capacity && |t.keys| <= capacity
    requires Distinct(t.keys) && Packed(t.keys, |t.keys|) && 0 < ttl
    requires var at := Find(t.keys, key); at < 0 || Refreshes(mode, t.ranks[at], now)
    ensures var r := Stored(t, capacity, mode, key, value, now + ttl, now);
      Some(key) in r.keys && Fetched(r, key, now) == None &&
      Some(key) !in Read(r, mode, key, now + ttl, now).keys
  {
    var r := Stored(t, capacity, mode, key, value, now + ttl, now);
    StoredKeeps(t, capacity, mode, key, value, now + ttl, now, key);
    LookupAt(r.keys, r.values, 0);
    ReadKeeps(r, mode, key, now + ttl, now, key);
  }

  /** Whether a `get` with the intended expiry test `Lapsed` would find the key: held, and its time-to-live not yet over. */
  ghost predicate Live<K, V>(t: Ranked<K, V>, key: K, now: int)
    requires t.Aligned()
  {
    var at := Find(t.keys, key);
    0 <= at && !Lapsed(t.ranks[at], now)
  }

  /** The value a `get` with the intended expiry test returns: the held value while live, otherwise null. */
  ghost function Served<K, V>(t: Ranked<K, V>, key: K, now: int): Option<V>
    requires t.Aligned()
  {
    if Live(t, key, now) then t.values[Find(t.keys, key)] else None
  }

  /**
   * With the intended test, a key just put with a non-negative
   * time-to-live (new, or held and refreshed) is served with the value put,
   * and stays live until the clock passes `now + ttl`.
   */
  lemma PutThenGetServes<K, V>(t: Ranked<K, V>, capacity: int, mode: ExpireMode, key: K, value: Option<V>, ttl: int, now: int, later: int)
    requires t.Aligned() && 1 <= capacity && |t.keys| <= capacity
    requires Distinct(t.keys) && Packed(t.keys, |t.keys|) && 0 <= ttl
    requires var at := Find(t.keys, key); at < 0 || Refreshes(mode, t.ranks[at], now)
    ensures var r := Stored(t, capacity, mode, key, value, now + ttl, now);
      (Live(r, key, later) <==> later <= now + ttl) &&
      (later <= now + ttl ==> Served(r, key, later) == value)
  {
    var r := Stored(t, capacity, mode, key, value, now + ttl, now);
    StoredKeeps(t, capacity, mode, key, value, now + ttl, now, key);
    LookupAt(r.keys, r.values, 0);
  }
}
