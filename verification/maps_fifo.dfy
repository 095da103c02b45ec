/**
 * `maps/order/fixed/FIFOCache`: entries packed into a prefix, newest at
 * index 0. A new key is pushed in at the front; when full, the oldest
 * arrival at the back falls off. Reads never reorder. Optional metrics.
 */
module MapsFifo {
  import opened Cache
  import opened Slots
  import opened Recorder

  class FIFOCache<K(==), V> {
    var size: int
    const capacity: int
    const metricsEnabled: bool
    const keys: array<Option<K>>
    const values: array<Option<V>>
    const recorder: CacheRecorder?

    /** The occupied key slots, top (newest) first. */
    ghost function Keys(): seq<Option<K>>
      reads this, keys
      requires 0 <= size <= keys.Length
    {
      keys[..size]
    }

    /** The occupied value slots, aligned with `Keys()`. */
    ghost function Values(): seq<Option<V>>
      reads this, values
      requires 0 <= size <= values.Length
    {
      values[..size]
    }

    /** Distinct non-null keys fill the first `size` slots; every later slot is null. */
    ghost predicate Valid()
      reads this, keys, values
    {
      1 <= capacity && keys.Length == capacity && values.Length == capacity &&
      keys as object != values as object &&
      0 <= size <= capacity &&
      Packed(keys[..], size) && Vacant(values[..], size) &&
      Distinct(keys[..size]) &&
      (metricsEnabled <==> recorder != null)
    }

    /** The constructor: a capacity below one is refused. */
    static method Create(capacity: int, metricsEnabled: bool) returns (r: Result<FIFOCache<K, V>>)
      ensures r.Err? <==> capacity < 1
      ensures r.Err? ==> r.error == IllegalCacheState
      ensures r.Ok? ==> fresh(r.value) && fresh(r.value.keys) && fresh(r.value.values) && r.value.Valid()
      ensures r.Ok? ==> r.value.Keys() == [] && r.value.capacity == capacity && r.value.metricsEnabled == metricsEnabled
      ensures r.Ok? && metricsEnabled ==> fresh(r.value.recorder) && r.value.recorder.Counters() == Record(Zero, ClearEvent)
    {
      if capacity < 1 {
        return Err(IllegalCacheState);
      }
      var c := new FIFOCache(capacity, metricsEnabled);
      return Ok(c);
    }

    /** A fresh cache has recorded one clear: the constructor ends by calling `clear()`. */
    constructor(capacity: int, metricsEnabled: bool)
      requires 1 <= capacity
      ensures Valid() && fresh(keys) && fresh(values) && Keys() == []
      ensures this.capacity == capacity && this.metricsEnabled == metricsEnabled
      ensures metricsEnabled ==> fresh(recorder) && recorder.Counters() == Record(Zero, ClearEvent)
    {
      size := 0;
      this.capacity := capacity;
      this.metricsEnabled := metricsEnabled;
      keys := new Option<K>[capacity](_ => None);
      values := new Option<V>[capacity](_ => None);
      var rec: CacheRecorder? := null;
      if metricsEnabled {
        rec := new CacheRecorder();
      }
      recorder := rec;
      new;
      Clear();
    }

    /** `metrics()`: refused when metrics are off; otherwise size and capacity are recorded first. */
    method Metrics() returns (r: Result<map<string, int>>)
      requires Valid()
      modifies recorder
      ensures r.Err? <==> !metricsEnabled
      ensures r.Err? ==> r.error == IllegalCacheState
      ensures r.Ok? ==> recorder.Counters() == old(recorder.Counters()).(size := size, capacity := capacity)
      ensures r.Ok? ==> r.value == MetricsMap(recorder.Counters())
    {
      if !metricsEnabled {
        return Err(IllegalCacheState);
      }
      var _ := recorder.Size(size);
      var _ := recorder.Capacity(capacity);
      var m := recorder.Metrics();
      return Ok(m);
    }

    /** `isEmpty()`: true exactly when no entry is held. */
    method IsEmpty() returns (empty: bool)
      requires Valid()
      ensures empty <==> Keys() == []
    {
      return size == 0;
    }

    /** `has(key)`: a null key is refused; otherwise whether the key is held. */
    method Has(key: Option<K>) returns (r: Result<bool>)
      requires Valid()
      ensures r.Err? <==> key.None?
      ensures r.Err? ==> r.error == InvalidCacheEntry
      ensures r.Ok? ==> (r.value <==> key in Keys())
    {
      if key.None? {
        return Err(InvalidCacheEntry);
      }
      var index := IndexOf(key.value);
      return Ok(index != -1);
    }

    /** The private `indexOf`: the position of the key among the occupied slots, or -1. */
    method IndexOf(key: K) returns (index: int)
      requires Valid()
      ensures index == Find(Keys(), key)
      ensures index == -1 <==> Some(key) !in Keys()
    {
      index := IndexIn(keys, 0, size, key);
      assert keys[0..size] == Keys();
    }

    /** The private `get(int)`: the value at an occupied index; nothing moves. */
    method GetIndex(index: int) returns (value: Option<V>)
      requires Valid() && 0 <= index < size
      ensures value == Values()[index]
    {
      return values[index];
    }

    /** The private `remove(int)`: the entry at `index` is taken out and the gap closed. */
    method RemoveIndex(index: int)
      requires Valid() && 0 <= index < size
      modifies this, keys, values
      ensures Valid() && size == old(size) - 1
      ensures Keys() == Slots.RemoveAt(old(Keys()), index)
      ensures Values() == Slots.RemoveAt(old(Values()), index)
    {
      ghost var k0, v0 := keys[..], values[..];
      size := size - 1;
      PushBack(keys, index, size + 1, None);
      PushBack(values, index, size + 1, None);
      PushBackPacked(k0, index, size + 1);
      PushBackVacant(v0, index, size + 1);
      DistinctRemoveAt(k0[..size + 1], index);
    }

    /** `peekTop()`: the newest value, or null when empty. */
    method PeekTop() returns (value: Option<V>)
      requires Valid()
      ensures value == Top(Values())
    {
      if keys[0].None? {
        return None;
      }
      value := GetIndex(0);
    }

    /** `peekBottom()`: the oldest value; on an empty cache the read of slot -1 fails. */
    method PeekBottom() returns (r: Result<Option<V>>)
      requires Valid()
      ensures size == 0 ==> r == Err(ArrayIndexOutOfBounds)
      ensures size > 0 ==> r == Ok(Bottom(Values()))
    {
      if size == 0 {
        return Err(ArrayIndexOutOfBounds);
      }
      var value := GetIndex(size - 1);
      return Ok(value);
    }

    /** `elementTop()`: the newest value; an empty cache underflows. */
    method ElementTop() returns (r: Result<Option<V>>)
      requires Valid()
      ensures r == Element(Values(), true, CacheUnderflow)
    {
      if keys[0].None? {
        return Err(CacheUnderflow);
      }
      var value := GetIndex(0);
      return Ok(value);
    }

    /** `elementBottom()`: the oldest value; on an empty cache the read of slot -1 fails. */
    method ElementBottom() returns (r: Result<Option<V>>)
      requires Valid()
      ensures size == 0 ==> r == Err(ArrayIndexOutOfBounds)
      ensures size > 0 ==> r == Element(Values(), false, CacheUnderflow)
    {
      if size == 0 {
        return Err(ArrayIndexOutOfBounds);
      }
      var value := GetIndex(size - 1);
      return Ok(value);
    }

    /** `popTop()`: removes and returns the newest entry's value, or null when empty. */
    method PopTop() returns (value: Option<V>)
      requires Valid()
      modifies this, keys, values
      ensures Valid() && value == Top(old(Values()))
      ensures old(size) == 0 ==> size == 0
      ensures old(size) > 0 ==> size == old(size) - 1 && Keys() == old(Keys())[1..] && Values() == old(Values())[1..]
    {
      if keys[0].None? {
        return None;
      }
      value := values[0];
      RemoveAtFirst(Keys());
      RemoveAtFirst(Values());
      RemoveIndex(0);
    }

    /** `popBottom()`: removes and returns the oldest entry's value; on an empty cache the read of slot -1 fails. */
    method PopBottom() returns (r: Result<Option<V>>)
      requires Valid()
      modifies this, keys, values
      ensures Valid()
      ensures old(size) == 0 ==> r == Err(ArrayIndexOutOfBounds) && size == 0
      ensures old(size) > 0 ==> r == Ok(Bottom(old(Values()))) && size == old(size) - 1
      ensures old(size) > 0 ==> Keys() == old(Keys())[..old(size) - 1] && Values() == old(Values())[..old(size) - 1]
    {
      if size == 0 {
        return Err(ArrayIndexOutOfBounds);
      }
      var value := values[size - 1];
      RemoveIndex(size - 1);
      return Ok(value);
    }

    /** `pollTop()`: like `popTop()`, but an empty cache underflows. */
    method PollTop() returns (r: Result<Option<V>>)
      requires Valid()
      modifies this, keys, values
      ensures Valid() && r == Element(old(Values()), true, CacheUnderflow)
      ensures old(size) == 0 ==> size == 0
      ensures old(size) > 0 ==> size == old(size) - 1 && Keys() == old(Keys())[1..] && Values() == old(Values())[1..]
    {
      if keys[0].None? {
        return Err(CacheUnderflow);
      }
      var value := values[0];
      RemoveAtFirst(Keys());
      RemoveAtFirst(Values());
      RemoveIndex(0);
      return Ok(value);
    }

    /** `pollBottom()`: like `popBottom()`; the read of slot -1 fails before the underflow check. */
    method PollBottom() returns (r: Result<Option<V>>)
      requires Valid()
      modifies this, keys, values
      ensures Valid()
      ensures old(size) == 0 ==> r == Err(ArrayIndexOutOfBounds) && size == 0
      ensures old(size) > 0 ==> r == Element(old(Values()), false, CacheUnderflow) && size == old(size) - 1
      ensures old(size) > 0 ==> Keys() == old(Keys())[..old(size) - 1] && Values() == old(Values())[..old(size) - 1]
    {
      if size == 0 {
        return Err(ArrayIndexOutOfBounds);
      }
      var value := values[size - 1];
      RemoveIndex(size - 1);
      return Ok(value);
    }

    /** `get(key)`: the mapped value or null; nothing moves; one hit or one miss is recorded. */
    method Get(key: Option<K>) returns (r: Result<Option<V>>)
      requires Valid()
      modifies recorder
      ensures key.None? ==> r == Err(InvalidCacheEntry) && Logged(recorder, [])
      ensures key.Some? ==> r == Ok(Lookup(Keys(), Values(), key.value))
      ensures key.Some? && key in Keys() ==> Logged(recorder, [HitEvent])
      ensures key.Some? && key !in Keys() ==> Logged(recorder, [MissEvent])
    {
      if key.None? {
        return Err(InvalidCacheEntry);
      }
      var index := IndexOf(key.value);
      if index >= 0 {
        if metricsEnabled {
          recorder.Hit();
        }
        var value := GetIndex(index);
        return Ok(value);
      }
      if metricsEnabled {
        recorder.Miss();
      }
      return Ok(None);
    }

    /** `get(key, defaultValue)`: `get(key)`, with null replaced by the default. */
    method GetOrDefault(key: Option<K>, defaultValue: Option<V>) returns (r: Result<Option<V>>)
      requires Valid()
      modifies recorder
      ensures key.None? ==> r == Err(InvalidCacheEntry) && Logged(recorder, [])
      ensures key.Some? ==> r == Ok(OrDefault(Lookup(Keys(), Values(), key.value), defaultValue))
      ensures key.Some? && key in Keys() ==> Logged(recorder, [HitEvent])
      ensures key.Some? && key !in Keys() ==> Logged(recorder, [MissEvent])
    {
      r := Get(key);
      if r.Ok? {
        r := Ok(OrDefault(r.value, defaultValue));
      }
    }

    /**
     * `put(key, value)`: a held key gets the new value in place; a new key is
     * pushed in at the front, dropping the back entry when full.
     */
    method Put(key: Option<K>, value: Option<V>) returns (r: Result<()>)
      requires Valid()
      modifies this, keys, values, recorder
      ensures Valid()
      ensures key.None? ==> r == Err(InvalidCacheEntry) && Logged(recorder, [])
      ensures key.None? ==> size == old(size) && Keys() == old(Keys()) && Values() == old(Values())
      ensures key.Some? ==> r == Ok(())
      ensures key.Some? && key in old(Keys()) ==>
        size == old(size) && Keys() == old(Keys()) &&
        Values() == old(Values())[Find(old(Keys()), key.value) := value] &&
        Logged(recorder, [PutEvent, HitEvent])
      ensures key.Some? && key !in old(Keys()) && old(size) < capacity ==>
        size == old(size) + 1 && Keys() == [key] + old(Keys()) && Values() == [value] + old(Values()) &&
        Logged(recorder, [PutEvent])
      ensures key.Some? && key !in old(Keys()) && old(size) == capacity ==>
        size == capacity && Keys() == [key] + old(Keys())[..capacity - 1] &&
        Values() == [value] + old(Values())[..capacity - 1] &&
        Logged(recorder, [PutEvent, EvictionEvent])
      ensures key.Some? ==> (Keys(), Values()) == Stored(old(Keys()), old(Values()), capacity, key.value, value)
    {
      if key.None? {
        return Err(InvalidCacheEntry);
      }
      if metricsEnabled {
        recorder.Put();
      }
      var index := IndexOf(key.value);
      if index >= 0 {
        if metricsEnabled {
          recorder.Hit();
          ReplayAppend(old(recorder.Counters()), [PutEvent], [HitEvent]);
        }
        values[index] := value;
        assert values[..size] == old(Values())[index := value];
      } else {
        if size == capacity && metricsEnabled {
          recorder.Eviction();
          ReplayAppend(old(recorder.Counters()), [PutEvent], [EvictionEvent]);
        }
        Insert(key, value);
        assert key == Some(key.value) && Find(old(Keys()), key.value) < 0;
        assert old(Keys())[..old(size)] == old(Keys()) && old(Values())[..old(size)] == old(Values());
      }
      return Ok(());
    }

    /** The new-key branch of `put`: grow unless full, then push the entry in at the front. */
    method Insert(key: Option<K>, value: Option<V>)
      requires Valid() && key.Some? && key !in Keys()
      modifies this, keys, values
      ensures Valid()
      ensures old(size) < capacity ==>
        size == old(size) + 1 && Keys() == [key] + old(Keys()) && Values() == [value] + old(Values())
      ensures old(size) == capacity ==>
        size == capacity && Keys() == [key] + old(Keys())[..capacity - 1] &&
        Values() == [value] + old(Values())[..capacity - 1]
    {
      ghost var k0, v0, n := keys[..], values[..], size;
      if size < capacity {
        size := size + 1;
      }
      PushFront(keys, size - 1, key);
      PushFront(values, size - 1, value);
      PushFrontPacked(k0, size - 1, n, key);
      PushFrontVacant(v0, size - 1, n, value);
      DistinctConsPrefix(k0[..n], key, size - 1);
    }

    /** `put(entry)`: only a basic entry is accepted; its key and value are then put. */
    method PutEntry(entry: CacheEntry<K, V>) returns (r: Result<()>)
      requires Valid()
      modifies this, keys, values, recorder
      ensures Valid()
      ensures !entry.BasicEntry? ==> r == Err(IllegalCacheState) && Logged(recorder, [])
      ensures !entry.BasicEntry? || entry.key.None? ==> size == old(size) && Keys() == old(Keys()) && Values() == old(Values())
      ensures entry.BasicEntry? && entry.key.None? ==> r == Err(InvalidCacheEntry) && Logged(recorder, [])
      ensures entry.BasicEntry? && entry.key.Some? ==> r == Ok(())
      ensures entry.BasicEntry? && entry.key in old(Keys()) ==>
        size == old(size) && Keys() == old(Keys()) &&
        Values() == old(Values())[Find(old(Keys()), entry.key.value) := entry.value] &&
        Logged(recorder, [PutEvent, HitEvent])
      ensures entry.BasicEntry? && entry.key.Some? && entry.key !in old(Keys()) && old(size) < capacity ==>
        size == old(size) + 1 && Keys() == [entry.key] + old(Keys()) && Values() == [entry.value] + old(Values()) &&
        Logged(recorder, [PutEvent])
      ensures entry.BasicEntry? && entry.key.Some? && entry.key !in old(Keys()) && old(size) == capacity ==>
        size == capacity && Keys() == [entry.key] + old(Keys())[..capacity - 1] &&
        Values() == [entry.value] + old(Values())[..capacity - 1] &&
        Logged(recorder, [PutEvent, EvictionEvent])
      ensures entry.BasicEntry? && entry.key.Some? ==>
        (Keys(), Values()) == Stored(old(Keys()), old(Values()), capacity, entry.key.value, entry.value)
    {
      if !entry.BasicEntry? {
        return Err(IllegalCacheState);
      }
      r := Put(entry.key, entry.value);
    }

    /** `remove(key)`: a held key is taken out (hit and remove recorded); otherwise a miss. */
    method Remove(key: Option<K>) returns (r: Result<()>)
      requires Valid()
      modifies this, keys, values, recorder
      ensures Valid()
      ensures key.None? ==> r == Err(InvalidCacheEntry) && Logged(recorder, [])
      ensures key.Some? ==> r == Ok(())
      ensures key.Some? && key in old(Keys()) ==>
        size == old(size) - 1 &&
        Keys() == Slots.RemoveAt(old(Keys()), Find(old(Keys()), key.value)) &&
        Values() == Slots.RemoveAt(old(Values()), Find(old(Keys()), key.value)) &&
        key !in Keys() &&
        Logged(recorder, [HitEvent, RemoveEvent])
      ensures (key.None? || key !in old(Keys())) ==>
        size == old(size) && Keys() == old(Keys()) && Values() == old(Values())
      ensures key.Some? && key !in old(Keys()) ==> Logged(recorder, [MissEvent])
    {
      if key.None? {
        return Err(InvalidCacheEntry);
      }
      var index := IndexOf(key.value);
      if index >= 0 {
        if metricsEnabled {
          recorder.Hit();
          recorder.Remove();
          ReplayAppend(old(recorder.Counters()), [HitEvent], [RemoveEvent]);
        }
        DistinctRemoveAt(Keys(), index);
        RemoveIndex(index);
        return Ok(());
      }
      if metricsEnabled {
        recorder.Miss();
      }
      return Ok(());
    }

    /** `clear()`: every slot nulled, size zero, one clear recorded. */
    method Clear()
      modifies this, keys, values, recorder
      requires 1 <= capacity && keys.Length == capacity && values.Length == capacity
      requires keys as object != values as object && (metricsEnabled <==> recorder != null)
      ensures Valid() && Keys() == [] && Logged(recorder, [ClearEvent])
    {
      if metricsEnabled {
        recorder.Clear();
      }
      Fill(keys, None);
      Fill(values, None);
      size := 0;
    }
  }

  /** Pushing a new key in front of distinct keys, possibly dropping the back one, keeps them distinct. */
  lemma DistinctConsPrefix<K>(ks: seq<Option<K>>, key: Option<K>, m: int)
    requires Distinct(ks) && key !in ks && 0 <= m <= |ks|
    ensures Distinct([key] + ks[..m])
  {
  }

  // ----- specification of put -----

  /**
   * The keys and values after `put` of the non-null `key`: a held key gets
   * the value in its own slot; a new key is pushed in at the front, and on
   * a full cache the back entry, the one put in longest ago, drops out.
   */
  ghost function Stored<K, V>(keys: seq<Option<K>>, values: seq<Option<V>>, capacity: int, key: K, value: Option<V>): (seq<Option<K>>, seq<Option<V>>)
    requires |values| == |keys| <= capacity && 1 <= capacity
  {
    var at := Find(keys, key);
    if 0 <= at then (keys, values[at := value])
    else
      var m := if |keys| < capacity then |keys| else capacity - 1;
      ([Some(key)] + keys[..m], [value] + values[..m])
  }

  /**
   * `put` keeps the keys distinct and grows the size only for a new key on
   * a cache with room; afterwards the key maps to the value, and a new key
   * stands at the front. Every other key is held exactly when before and
   * keeps its value, except that a new key on a full cache evicts the back
   * entry, the oldest one.
   */
  lemma StoredKeeps<K, V>(keys: seq<Option<K>>, values: seq<Option<V>>, capacity: int, key: K, value: Option<V>, other: K)
    requires |values| == |keys| <= capacity && 1 <= capacity && Distinct(keys)
    ensures var (ks, vs) := Stored(keys, values, capacity, key, value);
      |vs| == |ks| && Distinct(ks) &&
      |ks| == (if Some(key) in keys || |keys| == capacity then |keys| else |keys| + 1) &&
      Lookup(ks, vs, key) == value && (Some(key) !in keys ==> ks[0] == Some(key))
    ensures var (ks, vs) := Stored(keys, values, capacity, key, value);
      other != key ==>
        if Some(key) !in keys && |keys| == capacity && keys[capacity - 1] == Some(other) then Some(other) !in ks
        else (Some(other) in ks <==> Some(other) in keys) && Lookup(ks, vs, other) == Lookup(keys, values, other)
  {
    var at, j := Find(keys, key), Find(keys, other);
    var (ks, vs) := Stored(keys, values, capacity, key, value);
    if 0 <= at {
      LookupAt(keys, vs, at);
      if other != key && 0 <= j {
        LookupAt(keys, vs, j);
        LookupAt(keys, values, j);
      }
    } else {
      var m := if |keys| < capacity then |keys| else capacity - 1;
      DistinctConsPrefix(keys, Some(key), m);
      LookupAt(ks, vs, 0);
      if other != key {
        if 0 <= j < m {
          assert ks[j + 1] == keys[j];
          LookupAt(ks, vs, j + 1);
          LookupAt(keys, values, j);
        } else {
          assert forall p :: 1 <= p < |ks| ==> ks[p] == keys[p - 1];
          assert Some(other) !in keys[..m];
        }
      }
    }
  }
}
