/**
 * `maps/extra/fixed/PriorityCache`: the priority cache of `extra/fixed`
 * with null checks on keys and priorities, the newer exception types and an
 * optional metrics recorder. Entries are packed into a prefix in
 * non-increasing priority order; a read raises the entry's priority by one
 * and re-sorts it.
 */
module MapsPriority {
  import opened Cache
  import opened Slots
  import opened Reorder
  import opened Recorder

  class PriorityCache<K(==), V> {
    var size: int
    const capacity: int
    const keys: array<Option<K>>
    const values: array<Option<V>>
    const priorities: array<int>
    const metricsEnabled: bool
    const recorder: CacheRecorder?

    /** The occupied key slots, top (highest priority) first. */
    ghost function Keys(): seq<Option<K>>
      reads this, keys
      requires 0 <= size <= keys.Length
    {
      keys[..size]
    }

    /** The occupied value slots, aligned with `Keys()`. */
    ghost function Values(): seq<Option<V>>
      reads this, values
      requires 0 <= size <= values.Length
    {
      values[..size]
    }

    /** The priorities of the occupied slots, aligned with `Keys()`. */
    ghost function Priorities(): seq<int>
      reads this, priorities
      requires 0 <= size <= priorities.Length
    {
      priorities[..size]
    }

    /** The layout: distinct non-null keys fill the first `size` slots, every later key and value slot is null. */
    ghost predicate Sound()
      reads this, keys, values, priorities
    {
      1 <= capacity && keys.Length == capacity && values.Length == capacity && priorities.Length == capacity &&
      keys as object != values as object &&
      0 <= size <= capacity &&
      Packed(keys[..], size) && Vacant(values[..], size) &&
      Distinct(keys[..size]) &&
      (metricsEnabled <==> recorder != null)
    }

    /** The layout, with the priorities in non-increasing order. */
    ghost predicate Valid()
      reads this, keys, values, priorities
    {
      Sound() && NonIncreasing(Priorities())
    }

    /** The constructor: a capacity below one is refused. */
    static method Create(capacity: int, metricsEnabled: bool) returns (r: Result<PriorityCache<K, V>>)
      ensures r.Err? <==> capacity < 1
      ensures r.Err? ==> r.error == IllegalCacheState
      ensures r.Ok? ==> fresh(r.value) && fresh(r.value.keys) && fresh(r.value.values) && fresh(r.value.priorities)
      ensures r.Ok? ==> r.value.Valid() && r.value.Keys() == [] && r.value.capacity == capacity
      ensures r.Ok? ==> r.value.metricsEnabled == metricsEnabled
      ensures r.Ok? && metricsEnabled ==> fresh(r.value.recorder) && r.value.recorder.Counters() == Record(Zero, ClearEvent)
    {
      if capacity < 1 {
        return Err(IllegalCacheState);
      }
      var c := new PriorityCache(capacity, metricsEnabled);
      return Ok(c);
    }

    /** A fresh cache is empty and has recorded one clear: the constructor ends by calling `clear()`. */
    constructor(capacity: int, metricsEnabled: bool)
      requires 1 <= capacity
      ensures Valid() && fresh(keys) && fresh(values) && fresh(priorities)
      ensures Keys() == [] && this.capacity == capacity && this.metricsEnabled == metricsEnabled
      ensures metricsEnabled ==> fresh(recorder) && recorder.Counters() == Record(Zero, ClearEvent)
    {
      size := 0;
      this.capacity := capacity;
      this.metricsEnabled := metricsEnabled;
      keys := new Option<K>[capacity](_ => None);
      values := new Option<V>[capacity](_ => None);
      priorities := new int[capacity](_ => 0);
      var rec: CacheRecorder? := null;
      if metricsEnabled {
        rec := new CacheRecorder();
      }
      recorder := rec;
      new;
      Clear();
    }

    /** `metrics()`: refused when metrics are off; otherwise size and capacity are recorded first. */
    method Metrics() returns (r: Result<map<string, int>>)
      requires Valid()
      modifies recorder
      ensures r.Err? <==> !metricsEnabled
      ensures r.Err? ==> r.error == IllegalCacheState
      ensures r.Ok? ==> recorder.Counters() == old(recorder.Counters()).(size := size, capacity := capacity)
      ensures r.Ok? ==> r.value == MetricsMap(recorder.Counters())
    {
      if !metricsEnabled {
        return Err(IllegalCacheState);
      }
      var _ := recorder.Size(size);
      var _ := recorder.Capacity(capacity);
      var m := recorder.Metrics();
      return Ok(m);
    }

    /** `isEmpty()`: true exactly when no entry is held. */
    method IsEmpty() returns (empty: bool)
      requires Valid()
      ensures empty <==> Keys() == []
    {
      return size == 0;
    }

    /** `has(key)`: a null key is refused; otherwise whether the key is held. */
    method Has(key: Option<K>) returns (r: Result<bool>)
      requires Valid()
      ensures r.Err? <==> key.None?
      ensures r.Err? ==> r.error == InvalidCacheEntry
      ensures r.Ok? ==> (r.value <==> key in Keys())
    {
      if key.None? {
        return Err(InvalidCacheEntry);
      }
      var index := IndexOf(key.value);
      return Ok(index != -1);
    }

    /** The private `indexOf`: the position of the key among the occupied slots, or -1. */
    method IndexOf(key: K) returns (index: int)
      requires Valid()
      ensures index == Find(Keys(), key)
      ensures index == -1 <==> Some(key) !in Keys()
    {
      index := IndexIn(keys, 0, size, key);
      assert keys[0..size] == Keys();
    }

    /**
     * The private `sort(int start)`: the entry at `start`, the only one that
     * may be out of order, is moved to the place `SortTarget` names, and
     * the priorities are in order again.
     */
    method Sort(start: int)
      requires Sound() && 0 <= start < size && NonIncreasing(RemoveAt(Priorities(), start))
      modifies keys, values, priorities
      ensures Valid()
      ensures Keys() == Resorted(old(Keys()), old(Priorities()), start)
      ensures Values() == Resorted(old(Values()), old(Priorities()), start)
      ensures Priorities() == Resorted(old(Priorities()), old(Priorities()), start)
    {
      if 0 < start < size - 1 {
        NeighboursOrdered(Priorities(), start);
      }
      ghost var k0, v0 := keys[..], values[..];
      ghost var to := Resort(keys, values, priorities, size, start);
      PackedMoveTo(k0, size, start, to);
      assert keys[..] == keys[..size] + keys[size..];
      assert values[..][size..] == values[size..];
      VacantSuffix(v0, values[..], size);
      DistinctMoveTo(old(Keys()), start, to);
      PlacedKeepsOrder(old(Priorities()), start, to);
      TargetUnique(old(Priorities()), start, to);
    }

    /**
     * The private `get(int)`: the value at an occupied index; the entry's
     * priority goes up by one and it is re-sorted, so it can only move up.
     */
    method GetIndex(index: int) returns (value: Option<V>)
      requires Valid() && 0 <= index < size
      modifies keys, values, priorities
      ensures Valid() && value == old(Values())[index]
      ensures Keys() == Resorted(old(Keys()), Raised(old(Priorities()), index), index)
      ensures Values() == Resorted(old(Values()), Raised(old(Priorities()), index), index)
      ensures Priorities() == Resorted(Raised(old(Priorities()), index), Raised(old(Priorities()), index), index)
    {
      value := values[index];
      ghost var p0 := Priorities();
      priorities[index] := priorities[index] + 1;
      assert Priorities() == p0[index := p0[index] + 1];
      RemoveAtUpdate(p0, index, p0[index] + 1);
      RemoveAtNonIncreasing(p0, index);
      Sort(index);
    }

    /** The private `remove(int)`: the entry at `index` is taken out and the gap closed. */
    method RemoveIndex(index: int)
      requires Valid() && 0 <= index < size
      modifies this, keys, values, priorities
      ensures Valid() && size == old(size) - 1
      ensures Keys() == RemoveAt(old(Keys()), index)
      ensures Values() == RemoveAt(old(Values()), index)
      ensures Priorities() == RemoveAt(old(Priorities()), index)
    {
      ghost var k0, v0, p0 := keys[..], values[..], priorities[..];
      size := size - 1;
      PushBack(keys, index, size + 1, None);
      PushBack(values, index, size + 1, None);
      PushBack(priorities, index, size + 1, 0);
      PushBackPacked(k0, index, size + 1);
      PushBackVacant(v0, index, size + 1);
      PushBackParts(p0, index, size + 1, 0);
      DistinctRemoveAt(k0[..size + 1], index);
      RemoveAtNonIncreasing(p0[..size + 1], index);
    }

    /** `peekTop()`: the top value, or null when empty; reading it raises its priority by one. */
    method PeekTop() returns (value: Option<V>)
      requires Valid()
      modifies keys, values, priorities
      ensures Valid() && value == Top(old(Values()))
      ensures old(size) == 0 ==> Keys() == [] && Priorities() == []
      ensures old(size) > 0 ==>
        Keys() == old(Keys()) && Values() == old(Values()) &&
        Priorities() == old(Priorities())[0 := old(Priorities()[0]) + 1]
    {
      if keys[0].None? {
        return None;
      }
      value := GetIndex(0);
      ghost var p1 := Raised(old(Priorities()), 0);
      RaisedRises(old(Priorities()), 0, p1[0]);
      ResortedInPlace(old(Keys()), p1, 0);
      ResortedInPlace(old(Values()), p1, 0);
      ResortedInPlace(p1, p1, 0);
    }

    /** `peekBottom()`: the bottom value; on an empty cache the read of slot -1 fails. */
    method PeekBottom() returns (r: Result<Option<V>>)
      requires Valid()
      modifies keys, values, priorities
      ensures Valid()
      ensures old(size) == 0 ==> r == Err(ArrayIndexOutOfBounds) && Keys() == []
      ensures old(size) > 0 ==>
        r == Ok(Bottom(old(Values()))) &&
        Keys() == Resorted(old(Keys()), Raised(old(Priorities()), old(size) - 1), old(size) - 1) &&
        Values() == Resorted(old(Values()), Raised(old(Priorities()), old(size) - 1), old(size) - 1) &&
        Priorities() == Resorted(Raised(old(Priorities()), old(size) - 1), Raised(old(Priorities()), old(size) - 1), old(size) - 1)
    {
      if size == 0 {
        return Err(ArrayIndexOutOfBounds);
      }
      var value := GetIndex(size - 1);
      return Ok(value);
    }

    /** `elementTop()`: like `peekTop()`, but an empty cache underflows. */
    method ElementTop() returns (r: Result<Option<V>>)
      requires Valid()
      modifies keys, values, priorities
      ensures Valid() && r == Element(old(Values()), true, CacheUnderflow)
      ensures old(size) == 0 ==> Keys() == []
      ensures old(size) > 0 ==>
        Keys() == old(Keys()) && Values() == old(Values()) &&
        Priorities() == old(Priorities())[0 := old(Priorities()[0]) + 1]
    {
      if keys[0].None? {
        return Err(CacheUnderflow);
      }
      var value := GetIndex(0);
      ghost var p1 := Raised(old(Priorities()), 0);
      RaisedRises(old(Priorities()), 0, p1[0]);
      ResortedInPlace(old(Keys()), p1, 0);
      ResortedInPlace(old(Values()), p1, 0);
      ResortedInPlace(p1, p1, 0);
      return Ok(value);
    }

    /** `elementBottom()`: like `peekBottom()`; the read of slot -1 fails before the emptiness check. */
    method ElementBottom() returns (r: Result<Option<V>>)
      requires Valid()
      modifies keys, values, priorities
      ensures Valid()
      ensures old(size) == 0 ==> r == Err(ArrayIndexOutOfBounds) && Keys() == []
      ensures old(size) > 0 ==>
        r == Element(old(Values()), false, CacheUnderflow) &&
        Keys() == Resorted(old(Keys()), Raised(old(Priorities()), old(size) - 1), old(size) - 1) &&
        Values() == Resorted(old(Values()), Raised(old(Priorities()), old(size) - 1), old(size) - 1) &&
        Priorities() == Resorted(Raised(old(Priorities()), old(size) - 1), Raised(old(Priorities()), old(size) - 1), old(size) - 1)
    {
      if size == 0 {
        return Err(ArrayIndexOutOfBounds);
      }
      var value := GetIndex(size - 1);
      return Ok(value);
    }

    /** `popTop()`: removes and returns the top entry's value, or null when empty; no priority changes. */
    method PopTop() returns (value: Option<V>)
      requires Valid()
      modifies this, keys, values, priorities
      ensures Valid() && value == Top(old(Values()))
      ensures old(size) == 0 ==> size == 0
      ensures old(size) > 0 ==>
        size == old(size) - 1 &&
        Keys() == old(Keys())[1..] && Values() == old(Values())[1..] && Priorities() == old(Priorities())[1..]
    {
      if keys[0].None? {
        return None;
      }
      value := values[0];
      RemoveAtFirst(Keys());
      RemoveAtFirst(Values());
      RemoveAtFirst(Priorities());
      RemoveIndex(0);
    }

    /** `popBottom()`: removes and returns the bottom entry's value; on an empty cache the read of slot -1 fails. */
    method PopBottom() returns (r: Result<Option<V>>)
      requires Valid()
      modifies this, keys, values, priorities
      ensures Valid()
      ensures old(size) == 0 ==> r == Err(ArrayIndexOutOfBounds) && size == 0
      ensures old(size) > 0 ==>
        r == Ok(Bottom(old(Values()))) && size == old(size) - 1 &&
        Keys() == old(Keys())[..size] && Values() == old(Values())[..size] && Priorities() == old(Priorities())[..size]
    {
      if size == 0 {
        return Err(ArrayIndexOutOfBounds);
      }
      var value := values[size - 1];
      RemoveAtLast(Keys());
      RemoveAtLast(Values());
      RemoveAtLast(Priorities());
      RemoveIndex(size - 1);
      return Ok(value);
    }

    /** `pollTop()`: like `popTop()`, but an empty cache underflows. */
    method PollTop() returns (r: Result<Option<V>>)
      requires Valid()
      modifies this, keys, values, priorities
      ensures Valid() && r == Element(old(Values()), true, CacheUnderflow)
      ensures old(size) == 0 ==> size == 0
      ensures old(size) > 0 ==>
        size == old(size) - 1 &&
        Keys() == old(Keys())[1..] && Values() == old(Values())[1..] && Priorities() == old(Priorities())[1..]
    {
      if keys[0].None? {
        return Err(CacheUnderflow);
      }
      var value := values[0];
      RemoveAtFirst(Keys());
      RemoveAtFirst(Values());
      RemoveAtFirst(Priorities());
      RemoveIndex(0);
      return Ok(value);
    }

    /** `pollBottom()`: like `popBottom()`; the read of slot -1 fails before the emptiness check. */
    method PollBottom() returns (r: Result<Option<V>>)
      requires Valid()
      modifies this, keys, values, priorities
      ensures Valid()
      ensures old(size) == 0 ==> r == Err(ArrayIndexOutOfBounds) && size == 0
      ensures old(size) > 0 ==>
        r == Element(old(Values()), false, CacheUnderflow) && size == old(size) - 1 &&
        Keys() == old(Keys())[..size] && Values() == old(Values())[..size] && Priorities() == old(Priorities())[..size]
    {
      if size == 0 {
        return Err(ArrayIndexOutOfBounds);
      }
      var value := values[size - 1];
      RemoveAtLast(Keys());
      RemoveAtLast(Values());
      RemoveAtLast(Priorities());
      RemoveIndex(size - 1);
      return Ok(value);
    }

    /** `get(key)`: the mapped value or null; a hit is recorded and raises the entry's priority by one, a miss is recorded. */
    method Get(key: Option<K>) returns (r: Result<Option<V>>, ghost at: int)
      requires Valid()
      modifies keys, values, priorities, recorder
      ensures Valid()
      ensures key.None? ==> r == Err(InvalidCacheEntry) && at == -1 && Logged(recorder, [])
      ensures key.Some? ==> r == Ok(Lookup(old(Keys()), old(Values()), key.value)) && at == Find(old(Keys()), key.value)
      ensures key.Some? && at < 0 ==> Logged(recorder, [MissEvent])
      ensures key.Some? && 0 <= at ==> Logged(recorder, [HitEvent])
      ensures at < 0 ==> Keys() == old(Keys()) && Values() == old(Values()) && Priorities() == old(Priorities())
      ensures 0 <= at ==>
        Keys() == Resorted(old(Keys()), Raised(old(Priorities()), at), at) &&
        Values() == Resorted(old(Values()), Raised(old(Priorities()), at), at) &&
        Priorities() == Resorted(Raised(old(Priorities()), at), Raised(old(Priorities()), at), at)
    {
      if key.None? {
        r, at := Err(InvalidCacheEntry), -1;
        return;
      }
      var value;
      value, at := GetKey(key.value);
      r := Ok(value);
    }

    /** The non-null branch of `get(key)`: a miss is recorded and changes nothing, a hit is recorded and read through `get(int)`. */
    method GetKey(key: K) returns (value: Option<V>, ghost at: int)
      requires Valid()
      modifies keys, values, priorities, recorder
      ensures Valid()
      ensures value == Lookup(old(Keys()), old(Values()), key) && at == Find(old(Keys()), key)
      ensures Logged(recorder, if at < 0 then [MissEvent] else [HitEvent])
      ensures at < 0 ==> Keys() == old(Keys()) && Values() == old(Values()) && Priorities() == old(Priorities())
      ensures 0 <= at ==>
        Keys() == Resorted(old(Keys()), Raised(old(Priorities()), at), at) &&
        Values() == Resorted(old(Values()), Raised(old(Priorities()), at), at) &&
        Priorities() == Resorted(Raised(old(Priorities()), at), Raised(old(Priorities()), at), at)
    {
      var index := IndexOf(key);
      at := index;
      assert Keys() == old(Keys()) && Values() == old(Values()) && Priorities() == old(Priorities());
      if index >= 0 {
        if metricsEnabled {
          recorder.Hit();
        }
        value := GetIndex(index);
      } else {
        if metricsEnabled {
          recorder.Miss();
        }
        value := None;
      }
    }

    /** `get(key, defaultValue)`: `get(key)`, with null replaced by the default. */
    method GetOrDefault(key: Option<K>, defaultValue: Option<V>) returns (r: Result<Option<V>>, ghost at: int)
      requires Valid()
      modifies keys, values, priorities, recorder
      ensures Valid()
      ensures key.None? ==> r == Err(InvalidCacheEntry) && at == -1 && Logged(recorder, [])
      ensures key.Some? ==>
        r == Ok(OrDefault(Lookup(old(Keys()), old(Values()), key.value), defaultValue)) && at == Find(old(Keys()), key.value)
      ensures key.Some? && at < 0 ==> Logged(recorder, [MissEvent])
      ensures key.Some? && 0 <= at ==> Logged(recorder, [HitEvent])
      ensures at < 0 ==> Keys() == old(Keys()) && Values() == old(Values()) && Priorities() == old(Priorities())
      ensures 0 <= at ==>
        Keys() == Resorted(old(Keys()), Raised(old(Priorities()), at), at) &&
        Values() == Resorted(old(Values()), Raised(old(Priorities()), at), at) &&
        Priorities() == Resorted(Raised(old(Priorities()), at), Raised(old(Priorities()), at), at)
    {
      r, at := Get(key);
      if r.Ok? {
        r := Ok(OrDefault(r.value, defaultValue));
      }
    }

    /**
     * `put(key, value, priority)`: a null key or priority is refused before
     * anything is recorded; otherwise one put is recorded. A held key records
     * a hit, gets the new value and priority and is re-sorted; a new key is
     * appended and sorted up when there is room, and on a full cache either
     * replaces the bottom entry (recording an eviction) when its priority is
     * strictly above the bottom one's, or is dropped. Each `Resorted` triple
     * in the contract is `Reorder.Rerank` of the rewritten, appended or
     * replaced slots, the form `Reorder.UpdateRerankKeeps`, `Reorder.AppendRerankKeeps` and
     * `Reorder.BottomRerankKeeps` are about.
     */
    method Put(key: Option<K>, value: Option<V>, priority: Option<int>) returns (r: Result<()>, ghost at: int)
      requires Valid()
      modifies this, keys, values, priorities, recorder
      ensures Valid()
      ensures key.None? || priority.None? ==>
        r == Err(InvalidCacheEntry) && at == -1 && Logged(recorder, []) &&
        size == old(size) && Keys() == old(Keys()) && Values() == old(Values()) && Priorities() == old(Priorities())
      ensures key.Some? && priority.Some? ==> r == Ok(()) && at == Find(old(Keys()), key.value)
      ensures 0 <= at ==>
        size == old(size) && Logged(recorder, [PutEvent, HitEvent]) &&
        Keys() == Resorted(old(Keys()), old(Priorities())[at := priority.value], at) &&
        Values() == Resorted(old(Values())[at := value], old(Priorities())[at := priority.value], at) &&
        Priorities() == Resorted(old(Priorities())[at := priority.value], old(Priorities())[at := priority.value], at)
      ensures r.Ok? && at < 0 && old(size) < capacity ==>
        size == old(size) + 1 && Logged(recorder, [PutEvent]) &&
        Keys() == Resorted(old(Keys()) + [key], old(Priorities()) + [priority.value], old(size)) &&
        Values() == Resorted(old(Values()) + [value], old(Priorities()) + [priority.value], old(size)) &&
        Priorities() == Resorted(old(Priorities()) + [priority.value], old(Priorities()) + [priority.value], old(size))
      ensures r.Ok? && at < 0 && old(size) == capacity && old(Priorities()[size - 1]) >= priority.value ==>
        size == old(size) && Logged(recorder, [PutEvent]) &&
        Keys() == old(Keys()) && Values() == old(Values()) && Priorities() == old(Priorities())
      ensures r.Ok? && at < 0 && old(size) == capacity && old(Priorities()[size - 1]) < priority.value ==>
        size == old(size) && Logged(recorder, [PutEvent, EvictionEvent]) &&
        Keys() == Resorted(old(Keys())[size - 1 := key], old(Priorities())[size - 1 := priority.value], size - 1) &&
        Values() == Resorted(old(Values())[size - 1 := value], old(Priorities())[size - 1 := priority.value], size - 1) &&
        Priorities() == Resorted(old(Priorities())[size - 1 := priority.value], old(Priorities())[size - 1 := priority.value], size - 1)
    {
      at := -1;
      if key.None? || priority.None? {
        r := Err(InvalidCacheEntry);
        return;
      }
      if metricsEnabled {
        recorder.Put();
      }
      at := PutKey(key, value, priority.value);
      if metricsEnabled {
        ReplayAppend(old(recorder.Counters()), [PutEvent],
          if at >= 0 then [HitEvent] else if old(size) == capacity && old(Priorities()[size - 1]) < priority.value then [EvictionEvent] else []);
      }
      r := Ok(());
    }

    /** The non-null branch of `put`, after the put is recorded: a held key records a hit and is updated, a new key is inserted. */
    method PutKey(key: Option<K>, value: Option<V>, priority: int) returns (ghost at: int)
      requires Valid() && key.Some?
      modifies this, keys, values, priorities, recorder
      ensures Valid() && at == Find(old(Keys()), key.value)
      ensures Logged(recorder, if 0 <= at then [HitEvent] else if old(size) == capacity && old(Priorities()[size - 1]) < priority then [EvictionEvent] else [])
      ensures 0 <= at ==>
        size == old(size) &&
        Keys() == Resorted(old(Keys()), old(Priorities())[at := priority], at) &&
        Values() == Resorted(old(Values())[at := value], old(Priorities())[at := priority], at) &&
        Priorities() == Resorted(old(Priorities())[at := priority], old(Priorities())[at := priority], at)
      ensures at < 0 && old(size) < capacity ==>
        size == old(size) + 1 &&
        Keys() == Resorted(old(Keys()) + [key], old(Priorities()) + [priority], old(size)) &&
        Values() == Resorted(old(Values()) + [value], old(Priorities()) + [priority], old(size)) &&
        Priorities() == Resorted(old(Priorities()) + [priority], old(Priorities()) + [priority], old(size))
      ensures at < 0 && old(size) == capacity && old(Priorities()[size - 1]) >= priority ==>
        size == old(size) && Keys() == old(Keys()) && Values() == old(Values()) && Priorities() == old(Priorities())
      ensures at < 0 && old(size) == capacity && old(Priorities()[size - 1]) < priority ==>
        size == old(size) &&
        Keys() == Resorted(old(Keys())[size - 1 := key], old(Priorities())[size - 1 := priority], size - 1) &&
        Values() == Resorted(old(Values())[size - 1 := value], old(Priorities())[size - 1 := priority], size - 1) &&
        Priorities() == Resorted(old(Priorities())[size - 1 := priority], old(Priorities())[size - 1 := priority], size - 1)
    {
      var index := IndexOf(key.value);
      at := index;
      assert Keys() == old(Keys()) && Values() == old(Values()) && Priorities() == old(Priorities());
      if index >= 0 {
        if metricsEnabled {
          recorder.Hit();
        }
        assert Keys() == old(Keys()) && Values() == old(Values()) && Priorities() == old(Priorities());
        Update(index, value, priority);
      } else {
        Insert(key, value, priority);
      }
    }

    /** The new-key branch of `put`: appended when there is room, else replacing the bottom entry (an eviction) or dropped. */
    method Insert(key: Option<K>, value: Option<V>, priority: int)
      requires Valid() && key.Some? && key !in Keys()
      modifies this, keys, values, priorities, recorder
      ensures Valid()
      ensures Logged(recorder, if old(size) == capacity && old(Priorities()[size - 1]) < priority then [EvictionEvent] else [])
      ensures old(size) < capacity ==>
        size == old(size) + 1 &&
        Keys() == Resorted(old(Keys()) + [key], old(Priorities()) + [priority], old(size)) &&
        Values() == Resorted(old(Values()) + [value], old(Priorities()) + [priority], old(size)) &&
        Priorities() == Resorted(old(Priorities()) + [priority], old(Priorities()) + [priority], old(size))
      ensures old(size) == capacity && old(Priorities()[size - 1]) >= priority ==>
        size == old(size) && Keys() == old(Keys()) && Values() == old(Values()) && Priorities() == old(Priorities())
      ensures old(size) == capacity && old(Priorities()[size - 1]) < priority ==>
        size == old(size) &&
        Keys() == Resorted(old(Keys())[size - 1 := key], old(Priorities())[size - 1 := priority], size - 1) &&
        Values() == Resorted(old(Values())[size - 1 := value], old(Priorities())[size - 1 := priority], size - 1) &&
        Priorities() == Resorted(old(Priorities())[size - 1 := priority], old(Priorities())[size - 1 := priority], size - 1)
    {
      if size < capacity {
        Append(key, value, priority);
      } else if priorities[size - 1] < priority {
        if metricsEnabled {
          recorder.Eviction();
        }
        ReplaceBottom(key, value, priority);
      }
    }

    /** The held-key branch of `put`: new value and priority at `index`, then re-sorted. */
    method Update(index: int, value: Option<V>, priority: int)
      requires Valid() && 0 <= index < size
      modifies keys, values, priorities
      ensures Valid()
      ensures Keys() == Resorted(old(Keys()), old(Priorities())[index := priority], index) &&
        Values() == Resorted(old(Values())[index := value], old(Priorities())[index := priority], index) &&
        Priorities() == Resorted(old(Priorities())[index := priority], old(Priorities())[index := priority], index)
    {
      ghost var k0, v0, p0 := Keys(), Values(), Priorities();
      values[index] := value;
      priorities[index] := priority;
      assert Keys() == k0 && Values() == v0[index := value] && Priorities() == p0[index := priority];
      assert values[..] == values[..size] + values[size..];
      RemoveAtUpdate(p0, index, priority);
      RemoveAtNonIncreasing(p0, index);
      Sort(index);
    }

    /** The new-key branch of `put` on a cache with room: one more slot, written at the bottom, sorted up. */
    method Append(key: Option<K>, value: Option<V>, priority: int)
      requires Valid() && key.Some? && key !in Keys() && size < capacity
      modifies this, keys, values, priorities
      ensures Valid() && size == old(size) + 1
      ensures Keys() == Resorted(old(Keys()) + [key], old(Priorities()) + [priority], old(size)) &&
        Values() == Resorted(old(Values()) + [value], old(Priorities()) + [priority], old(size)) &&
        Priorities() == Resorted(old(Priorities()) + [priority], old(Priorities()) + [priority], old(size))
    {
      ghost var k0, v0, p0 := keys[..], values[..], priorities[..];
      size := size + 1;
      keys[size - 1] := key;
      values[size - 1] := value;
      priorities[size - 1] := priority;
      GrowPacked(k0, size - 1, key);
      GrowVacant(v0, size - 1, value);
      GrowPrefix(p0, size - 1, priority);
      RemoveAtLast(old(Priorities()) + [priority]);
      Sort(size - 1);
    }

    /** The new-key branch of `put` on a full cache, past the rejection test: the bottom entry overwritten, then sorted up. */
    method ReplaceBottom(key: Option<K>, value: Option<V>, priority: int)
      requires Valid() && key.Some? && key !in Keys() && size == capacity
      modifies keys, values, priorities
      ensures Valid()
      ensures Keys() == Resorted(old(Keys())[size - 1 := key], old(Priorities())[size - 1 := priority], size - 1) &&
        Values() == Resorted(old(Values())[size - 1 := value], old(Priorities())[size - 1 := priority], size - 1) &&
        Priorities() == Resorted(old(Priorities())[size - 1 := priority], old(Priorities())[size - 1 := priority], size - 1)
    {
      ghost var k0, v0, p0 := Keys(), Values(), Priorities();
      var n := size - 1;
      keys[n] := key;
      values[n] := value;
      priorities[n] := priority;
      assert Keys() == k0[n := key] && Values() == v0[n := value] && Priorities() == p0[n := priority];
      DistinctReplace(k0, n, key);
      RemoveAtUpdate(p0, n, priority);
      RemoveAtNonIncreasing(p0, n);
      Sort(n);
    }

    /** `put(entry)`: only a priority entry is accepted; its key, value and priority are then put. */
    method PutEntry(entry: CacheEntry<K, V>) returns (r: Result<()>, ghost at: int)
      requires Valid()
      modifies this, keys, values, priorities, recorder
      ensures Valid()
      ensures !entry.PriorityEntry? ==>
        r == Err(IllegalCacheState) && at == -1 && Logged(recorder, []) &&
        size == old(size) && Keys() == old(Keys()) && Values() == old(Values()) && Priorities() == old(Priorities())
      ensures entry.PriorityEntry? && (entry.key.None? || entry.priority.None?) ==>
        r == Err(InvalidCacheEntry) && at == -1 && Logged(recorder, []) &&
        size == old(size) && Keys() == old(Keys()) && Values() == old(Values()) && Priorities() == old(Priorities())
      ensures entry.PriorityEntry? && entry.key.Some? && entry.priority.Some? ==>
        r == Ok(()) && at == Find(old(Keys()), entry.key.value)
      ensures 0 <= at ==>
        size == old(size) && Logged(recorder, [PutEvent, HitEvent]) &&
        Keys() == Resorted(old(Keys()), old(Priorities())[at := entry.priority.value], at) &&
        Values() == Resorted(old(Values())[at := entry.value], old(Priorities())[at := entry.priority.value], at) &&
        Priorities() == Resorted(old(Priorities())[at := entry.priority.value], old(Priorities())[at := entry.priority.value], at)
      ensures r.Ok? && at < 0 && old(size) < capacity ==>
        size == old(size) + 1 && Logged(recorder, [PutEvent]) &&
        Keys() == Resorted(old(Keys()) + [entry.key], old(Priorities()) + [entry.priority.value], old(size)) &&
        Values() == Resorted(old(Values()) + [entry.value], old(Priorities()) + [entry.priority.value], old(size)) &&
        Priorities() == Resorted(old(Priorities()) + [entry.priority.value], old(Priorities()) + [entry.priority.value], old(size))
      ensures r.Ok? && at < 0 && old(size) == capacity && old(Priorities()[size - 1]) >= entry.priority.value ==>
        size == old(size) && Logged(recorder, [PutEvent]) &&
        Keys() == old(Keys()) && Values() == old(Values()) && Priorities() == old(Priorities())
      ensures r.Ok? && at < 0 && old(size) == capacity && old(Priorities()[size - 1]) < entry.priority.value ==>
        size == old(size) && Logged(recorder, [PutEvent, EvictionEvent]) &&
        Keys() == Resorted(old(Keys())[size - 1 := entry.key], old(Priorities())[size - 1 := entry.priority.value], size - 1) &&
        Values() == Resorted(old(Values())[size - 1 := entry.value], old(Priorities())[size - 1 := entry.priority.value], size - 1) &&
        Priorities() == Resorted(old(Priorities())[size - 1 := entry.priority.value], old(Priorities())[size - 1 := entry.priority.value], size - 1)
    {
      if !entry.PriorityEntry? {
        r, at := Err(IllegalCacheState), -1;
        return;
      }
      r, at := Put(entry.key, entry.value, entry.priority);
    }

    /** `remove(key)`: a held key is taken out (hit and remove recorded); otherwise a miss is recorded. */
    method Remove(key: Option<K>) returns (r: Result<()>)
      requires Valid()
      modifies this, keys, values, priorities, recorder
      ensures Valid()
      ensures key.None? ==> r == Err(InvalidCacheEntry) && Logged(recorder, [])
      ensures key.Some? ==> r == Ok(())
      ensures key.Some? && key in old(Keys()) ==>
        var i := Find(old(Keys()), key.value);
        size == old(size) - 1 && key !in Keys() &&
        Keys() == RemoveAt(old(Keys()), i) && Values() == RemoveAt(old(Values()), i) &&
        Priorities() == RemoveAt(old(Priorities()), i) &&
        Logged(recorder, [HitEvent, RemoveEvent])
      ensures key.None? || key !in old(Keys()) ==>
        size == old(size) && Keys() == old(Keys()) && Values() == old(Values()) && Priorities() == old(Priorities())
      ensures key.Some? && key !in old(Keys()) ==> Logged(recorder, [MissEvent])
    {
      if key.None? {
        return Err(InvalidCacheEntry);
      }
      var index := IndexOf(key.value);
      if index >= 0 {
        if metricsEnabled {
          recorder.Hit();
          recorder.Remove();
          ReplayAppend(old(recorder.Counters()), [HitEvent], [RemoveEvent]);
        }
        DistinctRemoveAt(Keys(), index);
        RemoveIndex(index);
        return Ok(());
      }
      if metricsEnabled {
        recorder.Miss();
      }
      return Ok(());
    }

    /** `clear()`: every slot emptied, size zero, one clear recorded. */
    method Clear()
      requires 1 <= capacity && keys.Length == capacity && values.Length == capacity && priorities.Length == capacity
      requires keys as object != values as object && (metricsEnabled <==> recorder != null)
      modifies this, keys, values, priorities, recorder
      ensures Valid() && Keys() == [] && Logged(recorder, [ClearEvent])
    {
      if metricsEnabled {
        recorder.Clear();
      }
      Fill(keys, None);
      Fill(values, None);
      Fill(priorities, 0);
      size := 0;
    }
  }
}
