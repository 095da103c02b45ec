/**
 * `extra/fixed/PriorityCache`: entries packed into a prefix and kept in
 * non-increasing priority order, highest at index 0. Every read through
 * the private `get(int)` raises the entry's priority by one and re-sorts
 * it; a new key on a full cache replaces the bottom (lowest-priority) entry
 * only when its priority is strictly higher.
 */
module ExtraPriority {
  import opened Cache
  import opened Slots
  import opened Reorder

  class PriorityCache<K(==), V> {
    var size: int
    const capacity: int
    const keys: array<Option<K>>
    const values: array<Option<V>>
    const priorities: array<int>

    /** The occupied key slots, top (highest priority) first. */
    ghost function Keys(): seq<Option<K>>
      reads this, keys
      requires 0 <= size <= keys.Length
    {
      keys[..size]
    }

    /** The occupied value slots, aligned with `Keys()`. */
    ghost function Values(): seq<Option<V>>
      reads this, values
      requires 0 <= size <= values.Length
    {
      values[..size]
    }

    /** The priorities of the occupied slots, aligned with `Keys()`. */
    ghost function Priorities(): seq<int>
      reads this, priorities
      requires 0 <= size <= priorities.Length
    {
      priorities[..size]
    }

    /** The layout: distinct non-null keys fill the first `size` slots, every later key and value slot is null. */
    ghost predicate Sound()
      reads this, keys, values, priorities
    {
      1 <= capacity && keys.Length == capacity && values.Length == capacity && priorities.Length == capacity &&
      keys as object != values as object &&
      0 <= size <= capacity &&
      Packed(keys[..], size) && Vacant(values[..], size) &&
      Distinct(keys[..size])
    }

    /** The layout, with the priorities in non-increasing order. */
    ghost predicate Valid()
      reads this, keys, values, priorities
    {
      Sound() && NonIncreasing(Priorities())
    }

    /** The constructor: a capacity below one is refused. */
    static method Create(capacity: int) returns (r: Result<PriorityCache<K, V>>)
      ensures r.Err? <==> capacity < 1
      ensures r.Err? ==> r.error == IllegalArgument
      ensures r.Ok? ==> fresh(r.value) && fresh(r.value.keys) && fresh(r.value.values) && fresh(r.value.priorities)
      ensures r.Ok? ==> r.value.Valid() && r.value.Keys() == [] && r.value.capacity == capacity
    {
      if capacity < 1 {
        return Err(IllegalArgument);
      }
      var c := new PriorityCache(capacity);
      return Ok(c);
    }

    /** A fresh cache is empty. */
    constructor(capacity: int)
      requires 1 <= capacity
      ensures Valid() && fresh(keys) && fresh(values) && fresh(priorities)
      ensures Keys() == [] && this.capacity == capacity
    {
      size := 0;
      this.capacity := capacity;
      keys := new Option<K>[capacity](_ => None);
      values := new Option<V>[capacity](_ => None);
      priorities := new int[capacity](_ => 0);
      new;
      Clear();
    }

    /** `isEmpty()`: true exactly when no entry is held. */
    method IsEmpty() returns (empty: bool)
      requires Valid()
      ensures empty <==> Keys() == []
    {
      return size == 0;
    }

    /** `has(key)`: a null key is refused; otherwise whether the key is held. */
    method Has(key: Option<K>) returns (r: Result<bool>)
      requires Valid()
      ensures r.Err? <==> key.None?
      ensures r.Err? ==> r.error == IllegalArgument
      ensures r.Ok? ==> (r.value <==> key in Keys())
    {
      if key.None? {
        return Err(IllegalArgument);
      }
      var index := IndexOf(key.value);
      return Ok(index != -1);
    }

    /** The private `indexOf`: the position of the key among the occupied slots, or -1. */
    method IndexOf(key: K) returns (index: int)
      requires Valid()
      ensures index == Find(Keys(), key)
      ensures index == -1 <==> Some(key) !in Keys()
    {
      index := IndexIn(keys, 0, size, key);
      assert keys[0..size] == Keys();
    }

    /**
     * The private `sort(int start)`: the entry at `start`, the only one that
     * may be out of order, is moved to the place `SortTarget` names, and
     * the priorities are in order again.
     */
    method Sort(start: int)
      requires Sound() && 0 <= start < size && NonIncreasing(RemoveAt(Priorities(), start))
      modifies keys, values, priorities
      ensures Valid()
      ensures Keys() == Resorted(old(Keys()), old(Priorities()), start)
      ensures Values() == Resorted(old(Values()), old(Priorities()), start)
      ensures Priorities() == Resorted(old(Priorities()), old(Priorities()), start)
    {
      if 0 < start < size - 1 {
        NeighboursOrdered(Priorities(), start);
      }
      ghost var k0, v0 := keys[..], values[..];
      ghost var to := Resort(keys, values, priorities, size, start);
      PackedMoveTo(k0, size, start, to);
      assert keys[..] == keys[..size] + keys[size..];
      assert values[..][size..] == values[size..];
      VacantSuffix(v0, values[..], size);
      DistinctMoveTo(old(Keys()), start, to);
      PlacedKeepsOrder(old(Priorities()), start, to);
      TargetUnique(old(Priorities()), start, to);
    }

    /**
     * The private `get(int)`: the value at an occupied index; the entry's
     * priority goes up by one and it is re-sorted, so it can only move up.
     */
    method GetIndex(index: int) returns (value: Option<V>)
      requires Valid() && 0 <= index < size
      modifies keys, values, priorities
      ensures Valid() && value == old(Values())[index]
      ensures Keys() == Resorted(old(Keys()), Raised(old(Priorities()), index), index)
      ensures Values() == Resorted(old(Values()), Raised(old(Priorities()), index), index)
      ensures Priorities() == Resorted(Raised(old(Priorities()), index), Raised(old(Priorities()), index), index)
    {
      value := values[index];
      ghost var p0 := Priorities();
      priorities[index] := priorities[index] + 1;
      assert Priorities() == p0[index := p0[index] + 1];
      RemoveAtUpdate(p0, index, p0[index] + 1);
      RemoveAtNonIncreasing(p0, index);
      Sort(index);
    }

    /** The private `remove(int)`: the entry at `index` is taken out and the gap closed. */
    method RemoveIndex(index: int)
      requires Valid() && 0 <= index < size
      modifies this, keys, values, priorities
      ensures Valid() && size == old(size) - 1
      ensures Keys() == RemoveAt(old(Keys()), index)
      ensures Values() == RemoveAt(old(Values()), index)
      ensures Priorities() == RemoveAt(old(Priorities()), index)
    {
      ghost var k0, v0, p0 := keys[..], values[..], priorities[..];
      size := size - 1;
      PushBack(keys, index, size + 1, None);
      PushBack(values, index, size + 1, None);
      PushBack(priorities, index, size + 1, 0);
      PushBackPacked(k0, index, size + 1);
      PushBackVacant(v0, index, size + 1);
      PushBackParts(p0, index, size + 1, 0);
      DistinctRemoveAt(k0[..size + 1], index);
      RemoveAtNonIncreasing(p0[..size + 1], index);
    }

    /** `peekTop()`: the top value, or null when empty; reading it raises its priority by one. */
    method PeekTop() returns (value: Option<V>)
      requires Valid()
      modifies keys, values, priorities
      ensures Valid() && value == Top(old(Values()))
      ensures old(size) == 0 ==> Keys() == [] && Priorities() == []
      ensures old(size) > 0 ==>
        Keys() == old(Keys()) && Values() == old(Values()) &&
        Priorities() == old(Priorities())[0 := old(Priorities()[0]) + 1]
    {
      if keys[0].None? {
        return None;
      }
      value := GetIndex(0);
      ghost var p1 := Raised(old(Priorities()), 0);
      RaisedRises(old(Priorities()), 0, p1[0]);
      ResortedInPlace(old(Keys()), p1, 0);
      ResortedInPlace(old(Values()), p1, 0);
      ResortedInPlace(p1, p1, 0);
    }

    /** `peekBottom()`: the bottom value; on an empty cache the read of slot -1 fails. */
    method PeekBottom() returns (r: Result<Option<V>>)
      requires Valid()
      modifies keys, values, priorities
      ensures Valid()
      ensures old(size) == 0 ==> r == Err(ArrayIndexOutOfBounds) && Keys() == []
      ensures old(size) > 0 ==>
        r == Ok(Bottom(old(Values()))) &&
        Keys() == Resorted(old(Keys()), Raised(old(Priorities()), old(size) - 1), old(size) - 1) &&
        Values() == Resorted(old(Values()), Raised(old(Priorities()), old(size) - 1), old(size) - 1) &&
        Priorities() == Resorted(Raised(old(Priorities()), old(size) - 1), Raised(old(Priorities()), old(size) - 1), old(size) - 1)
    {
      if size == 0 {
        return Err(ArrayIndexOutOfBounds);
      }
      var value := GetIndex(size - 1);
      return Ok(value);
    }

    /** `elementTop()`: like `peekTop()`, but an empty cache has no such element. */
    method ElementTop() returns (r: Result<Option<V>>)
      requires Valid()
      modifies keys, values, priorities
      ensures Valid() && r == Element(old(Values()), true, NoSuchElement)
      ensures old(size) == 0 ==> Keys() == []
      ensures old(size) > 0 ==>
        Keys() == old(Keys()) && Values() == old(Values()) &&
        Priorities() == old(Priorities())[0 := old(Priorities()[0]) + 1]
    {
      if keys[0].None? {
        return Err(NoSuchElement);
      }
      var value := GetIndex(0);
      ghost var p1 := Raised(old(Priorities()), 0);
      RaisedRises(old(Priorities()), 0, p1[0]);
      ResortedInPlace(old(Keys()), p1, 0);
      ResortedInPlace(old(Values()), p1, 0);
      ResortedInPlace(p1, p1, 0);
      return Ok(value);
    }

    /** `elementBottom()`: like `peekBottom()`; the read of slot -1 fails before the emptiness check. */
    method ElementBottom() returns (r: Result<Option<V>>)
      requires Valid()
      modifies keys, values, priorities
      ensures Valid()
      ensures old(size) == 0 ==> r == Err(ArrayIndexOutOfBounds) && Keys() == []
      ensures old(size) > 0 ==>
        r == Element(old(Values()), false, NoSuchElement) &&
        Keys() == Resorted(old(Keys()), Raised(old(Priorities()), old(size) - 1), old(size) - 1) &&
        Values() == Resorted(old(Values()), Raised(old(Priorities()), old(size) - 1), old(size) - 1) &&
        Priorities() == Resorted(Raised(old(Priorities()), old(size) - 1), Raised(old(Priorities()), old(size) - 1), old(size) - 1)
    {
      if size == 0 {
        return Err(ArrayIndexOutOfBounds);
      }
      var value := GetIndex(size - 1);
      return Ok(value);
    }

    /** `popTop()`: removes and returns the top entry's value, or null when empty; no priority changes. */
    method PopTop() returns (value: Option<V>)
      requires Valid()
      modifies this, keys, values, priorities
      ensures Valid() && value == Top(old(Values()))
      ensures old(size) == 0 ==> size == 0
      ensures old(size) > 0 ==>
        size == old(size) - 1 &&
        Keys() == old(Keys())[1..] && Values() == old(Values())[1..] && Priorities() == old(Priorities())[1..]
    {
      if keys[0].None? {
        return None;
      }
      value := values[0];
      RemoveAtFirst(Keys());
      RemoveAtFirst(Values());
      RemoveAtFirst(Priorities());
      RemoveIndex(0);
    }

    /** `popBottom()`: removes and returns the bottom entry's value; on an empty cache the read of slot -1 fails. */
    method PopBottom() returns (r: Result<Option<V>>)
      requires Valid()
      modifies this, keys, values, priorities
      ensures Valid()
      ensures old(size) == 0 ==> r == Err(ArrayIndexOutOfBounds) && size == 0
      ensures old(size) > 0 ==>
        r == Ok(Bottom(old(Values()))) && size == old(size) - 1 &&
        Keys() == old(Keys())[..size] && Values() == old(Values())[..size] && Priorities() == old(Priorities())[..size]
    {
      if size == 0 {
        return Err(ArrayIndexOutOfBounds);
      }
      var value := values[size - 1];
      RemoveAtLast(Keys());
      RemoveAtLast(Values());
      RemoveAtLast(Priorities());
      RemoveIndex(size - 1);
      return Ok(value);
    }

    /** `pollTop()`: like `popTop()`, but an empty cache has no such element. */
    method PollTop() returns (r: Result<Option<V>>)
      requires Valid()
      modifies this, keys, values, priorities
      ensures Valid() && r == Element(old(Values()), true, NoSuchElement)
      ensures old(size) == 0 ==> size == 0
      ensures old(size) > 0 ==>
        size == old(size) - 1 &&
        Keys() == old(Keys())[1..] && Values() == old(Values())[1..] && Priorities() == old(Priorities())[1..]
    {
      if keys[0].None? {
        return Err(NoSuchElement);
      }
      var value := values[0];
      RemoveAtFirst(Keys());
      RemoveAtFirst(Values());
      RemoveAtFirst(Priorities());
      RemoveIndex(0);
      return Ok(value);
    }

    /** `pollBottom()`: like `popBottom()`; the read of slot -1 fails before the emptiness check. */
    method PollBottom() returns (r: Result<Option<V>>)
      requires Valid()
      modifies this, keys, values, priorities
      ensures Valid()
      ensures old(size) == 0 ==> r == Err(ArrayIndexOutOfBounds) && size == 0
      ensures old(size) > 0 ==>
        r == Element(old(Values()), false, NoSuchElement) && size == old(size) - 1 &&
        Keys() == old(Keys())[..size] && Values() == old(Values())[..size] && Priorities() == old(Priorities())[..size]
    {
      if size == 0 {
        return Err(ArrayIndexOutOfBounds);
      }
      var value := values[size - 1];
      RemoveAtLast(Keys());
      RemoveAtLast(Values());
      RemoveAtLast(Priorities());
      RemoveIndex(size - 1);
      return Ok(value);
    }

    /** `get(key)`: the mapped value or null; a hit raises the entry's priority by one and re-sorts it. */
    method Get(key: Option<K>) returns (r: Result<Option<V>>, ghost at: int)
      requires Valid()
      modifies keys, values, priorities
      ensures Valid()
      ensures key.None? ==> r == Err(IllegalArgument) && at == -1
      ensures key.Some? ==> r == Ok(Lookup(old(Keys()), old(Values()), key.value)) && at == Find(old(Keys()), key.value)
      ensures at < 0 ==> Keys() == old(Keys()) && Values() == old(Values()) && Priorities() == old(Priorities())
      ensures 0 <= at ==>
        Keys() == Resorted(old(Keys()), Raised(old(Priorities()), at), at) &&
        Values() == Resorted(old(Values()), Raised(old(Priorities()), at), at) &&
        Priorities() == Resorted(Raised(old(Priorities()), at), Raised(old(Priorities()), at), at)
    {
      if key.None? {
        r, at := Err(IllegalArgument), -1;
        return;
      }
      var value;
      value, at := GetKey(key.value);
      r := Ok(value);
    }

    /** The non-null branch of `get(key)`: a miss changes nothing, a hit is read through `get(int)`. */
    method GetKey(key: K) returns (value: Option<V>, ghost at: int)
      requires Valid()
      modifies keys, values, priorities
      ensures Valid()
      ensures value == Lookup(old(Keys()), old(Values()), key) && at == Find(old(Keys()), key)
      ensures at < 0 ==> Keys() == old(Keys()) && Values() == old(Values()) && Priorities() == old(Priorities())
      ensures 0 <= at ==>
        Keys() == Resorted(old(Keys()), Raised(old(Priorities()), at), at) &&
        Values() == Resorted(old(Values()), Raised(old(Priorities()), at), at) &&
        Priorities() == Resorted(Raised(old(Priorities()), at), Raised(old(Priorities()), at), at)
    {
      var index := IndexOf(key);
      at := index;
      assert Keys() == old(Keys()) && Values() == old(Values()) && Priorities() == old(Priorities());
      if index >= 0 {
        value := GetIndex(index);
      } else {
        value := None;
      }
    }

    /** `get(key, defaultValue)`: `get(key)`, with null replaced by the default. */
    method GetOrDefault(key: Option<K>, defaultValue: Option<V>) returns (r: Result<Option<V>>, ghost at: int)
      requires Valid()
      modifies keys, values, priorities
      ensures Valid()
      ensures key.None? ==> r == Err(IllegalArgument) && at == -1
      ensures key.Some? ==>
        r == Ok(OrDefault(Lookup(old(Keys()), old(Values()), key.value), defaultValue)) && at == Find(old(Keys()), key.value)
      ensures at < 0 ==> Keys() == old(Keys()) && Values() == old(Values()) && Priorities() == old(Priorities())
      ensures 0 <= at ==>
        Keys() == Resorted(old(Keys()), Raised(old(Priorities()), at), at) &&
        Values() == Resorted(old(Values()), Raised(old(Priorities()), at), at) &&
        Priorities() == Resorted(Raised(old(Priorities()), at), Raised(old(Priorities()), at), at)
    {
      r, at := Get(key);
      if r.Ok? {
        r := Ok(OrDefault(r.value, defaultValue));
      }
    }

    /**
     * `put(key, value, priority)`: a held key gets the new value and
     * priority and is re-sorted; a new key is appended and sorted up when
     * there is room, replaces the bottom entry when its priority is strictly
     * above the bottom one's, and is dropped otherwise.
     */
    method Put(key: Option<K>, value: Option<V>, priority: int) returns (r: Result<()>, ghost at: int)
      requires Valid()
      modifies this, keys, values, priorities
      ensures Valid()
      ensures key.None? ==> r == Err(IllegalArgument) && at == -1
      ensures key.Some? ==> r == Ok(()) && at == Find(old(Keys()), key.value)
      ensures key.None? ==> size == old(size) && Keys() == old(Keys()) && Values() == old(Values()) && Priorities() == old(Priorities())
      ensures 0 <= at ==>
        size == old(size) &&
        Keys() == Resorted(old(Keys()), old(Priorities())[at := priority], at) &&
        Values() == Resorted(old(Values())[at := value], old(Priorities())[at := priority], at) &&
        Priorities() == Resorted(old(Priorities())[at := priority], old(Priorities())[at := priority], at)
      ensures key.Some? && at < 0 && old(size) < capacity ==>
        size == old(size) + 1 &&
        Keys() == Resorted(old(Keys()) + [key], old(Priorities()) + [priority], old(size)) &&
        Values() == Resorted(old(Values()) + [value], old(Priorities()) + [priority], old(size)) &&
        Priorities() == Resorted(old(Priorities()) + [priority], old(Priorities()) + [priority], old(size))
      ensures key.Some? && at < 0 && old(size) == capacity && old(Priorities()[size - 1]) >= priority ==>
        size == old(size) && Keys() == old(Keys()) && Values() == old(Values()) && Priorities() == old(Priorities())
      ensures key.Some? && at < 0 && old(size) == capacity && old(Priorities()[size - 1]) < priority ==>
        size == old(size) &&
        Keys() == Resorted(old(Keys())[size - 1 := key], old(Priorities())[size - 1 := priority], size - 1) &&
        Values() == Resorted(old(Values())[size - 1 := value], old(Priorities())[size - 1 := priority], size - 1) &&
        Priorities() == Resorted(old(Priorities())[size - 1 := priority], old(Priorities())[size - 1 := priority], size - 1)
      ensures key.Some? ==>
        Ranked(Keys(), Values(), Priorities()) == Stored(Ranked(old(Keys()), old(Values()), old(Priorities())), capacity, key.value, value, priority)
    {
      at := -1;
      if key.None? {
        r := Err(IllegalArgument);
        return;
      }
      var index := IndexOf(key.value);
      at := index;
      assert Keys() == old(Keys()) && Values() == old(Values()) && Priorities() == old(Priorities());
      if index >= 0 {
        Update(index, value, priority);
      } else {
        Insert(key, value, priority);
      }
      r := Ok(());
    }

    /** The new-key branch of `put`: appended when there is room, else replacing the bottom entry or dropped. */
    method Insert(key: Option<K>, value: Option<V>, priority: int)
      requires Valid() && key.Some? && key !in Keys()
      modifies this, keys, values, priorities
      ensures Valid()
      ensures old(size) < capacity ==>
        size == old(size) + 1 &&
        Keys() == Resorted(old(Keys()) + [key], old(Priorities()) + [priority], old(size)) &&
        Values() == Resorted(old(Values()) + [value], old(Priorities()) + [priority], old(size)) &&
        Priorities() == Resorted(old(Priorities()) + [priority], old(Priorities()) + [priority], old(size))
      ensures old(size) == capacity && old(Priorities()[size - 1]) >= priority ==>
        size == old(size) && Keys() == old(Keys()) && Values() == old(Values()) && Priorities() == old(Priorities())
      ensures old(size) == capacity && old(Priorities()[size - 1]) < priority ==>
        size == old(size) &&
        Keys() == Resorted(old(Keys())[size - 1 := key], old(Priorities())[size - 1 := priority], size - 1) &&
        Values() == Resorted(old(Values())[size - 1 := value], old(Priorities())[size - 1 := priority], size - 1) &&
        Priorities() == Resorted(old(Priorities())[size - 1 := priority], old(Priorities())[size - 1 := priority], size - 1)
      ensures Ranked(Keys(), Values(), Priorities()) == Stored(Ranked(old(Keys()), old(Values()), old(Priorities())), capacity, key.value, value, priority)
    {
      ghost var t := Ranked(Keys(), Values(), Priorities());
      assert Find(t.keys, key.value) < 0;
      if size < capacity {
        Append(key, value, priority);
      } else if priorities[size - 1] < priority {
        ReplaceBottom(key, value, priority);
      }
    }

    /** The held-key branch of `put`: new value and priority at `index`, then re-sorted. */
    method Update(index: int, value: Option<V>, priority: int)
      requires Valid() && 0 <= index < size
      modifies keys, values, priorities
      ensures Valid()
      ensures Keys() == Resorted(old(Keys()), old(Priorities())[index := priority], index) &&
        Values() == Resorted(old(Values())[index := value], old(Priorities())[index := priority], index) &&
        Priorities() == Resorted(old(Priorities())[index := priority], old(Priorities())[index := priority], index)
      ensures Ranked(Keys(), Values(), Priorities()) == Rerank(Ranked(old(Keys()), old(Values())[index := value], old(Priorities())[index := priority]), index)
    {
      ghost var k0, v0, p0 := Keys(), Values(), Priorities();
      values[index] := value;
      priorities[index] := priority;
      assert Keys() == k0 && Values() == v0[index := value] && Priorities() == p0[index := priority];
      assert values[..] == values[..size] + values[size..];
      RemoveAtUpdate(p0, index, priority);
      RemoveAtNonIncreasing(p0, index);
      Sort(index);
    }

    /** The new-key branch of `put` on a cache with room: one more slot, written at the bottom, sorted up. */
    method Append(key: Option<K>, value: Option<V>, priority: int)
      requires Valid() && key.Some? && key !in Keys() && size < capacity
      modifies this, keys, values, priorities
      ensures Valid() && size == old(size) + 1
      ensures Keys() == Resorted(old(Keys()) + [key], old(Priorities()) + [priority], old(size)) &&
        Values() == Resorted(old(Values()) + [value], old(Priorities()) + [priority], old(size)) &&
        Priorities() == Resorted(old(Priorities()) + [priority], old(Priorities()) + [priority], old(size))
    {
      ghost var k0, v0, p0 := keys[..], values[..], priorities[..];
      size := size + 1;
      keys[size - 1] := key;
      values[size - 1] := value;
      priorities[size - 1] := priority;
      GrowPacked(k0, size - 1, key);
      GrowVacant(v0, size - 1, value);
      GrowPrefix(p0, size - 1, priority);
      RemoveAtLast(old(Priorities()) + [priority]);
      Sort(size - 1);
    }

    /** The new-key branch of `put` on a full cache, past the rejection test: the bottom entry overwritten, then sorted up. */
    method ReplaceBottom(key: Option<K>, value: Option<V>, priority: int)
      requires Valid() && key.Some? && key !in Keys() && size == capacity
      modifies keys, values, priorities
      ensures Valid()
      ensures Keys() == Resorted(old(Keys())[size - 1 := key], old(Priorities())[size - 1 := priority], size - 1) &&
        Values() == Resorted(old(Values())[size - 1 := value], old(Priorities())[size - 1 := priority], size - 1) &&
        Priorities() == Resorted(old(Priorities())[size - 1 := priority], old(Priorities())[size - 1 := priority], size - 1)
    {
      ghost var k0, v0, p0 := Keys(), Values(), Priorities();
      var n := size - 1;
      keys[n] := key;
      values[n] := value;
      priorities[n] := priority;
      assert Keys() == k0[n := key] && Values() == v0[n := value] && Priorities() == p0[n := priority];
      DistinctReplace(k0, n, key);
      RemoveAtUpdate(p0, n, priority);
      RemoveAtNonIncreasing(p0, n);
      Sort(n);
    }

    /** `put(key, value)`: `put(key, value, 0)`. */
    method PutDefault(key: Option<K>, value: Option<V>) returns (r: Result<()>, ghost at: int)
      requires Valid()
      modifies this, keys, values, priorities
      ensures Valid()
      ensures key.None? ==> r == Err(IllegalArgument) && at == -1
      ensures key.Some? ==> r == Ok(()) && at == Find(old(Keys()), key.value)
      ensures key.None? ==> size == old(size) && Keys() == old(Keys()) && Values() == old(Values()) && Priorities() == old(Priorities())
      ensures 0 <= at ==>
        size == old(size) &&
        Keys() == Resorted(old(Keys()), old(Priorities())[at := 0], at) &&
        Values() == Resorted(old(Values())[at := value], old(Priorities())[at := 0], at) &&
        Priorities() == Resorted(old(Priorities())[at := 0], old(Priorities())[at := 0], at)
      ensures key.Some? && at < 0 && old(size) < capacity ==>
        size == old(size) + 1 &&
        Keys() == Resorted(old(Keys()) + [key], old(Priorities()) + [0], old(size)) &&
        Values() == Resorted(old(Values()) + [value], old(Priorities()) + [0], old(size)) &&
        Priorities() == Resorted(old(Priorities()) + [0], old(Priorities()) + [0], old(size))
      ensures key.Some? && at < 0 && old(size) == capacity && old(Priorities()[size - 1]) >= 0 ==>
        size == old(size) && Keys() == old(Keys()) && Values() == old(Values()) && Priorities() == old(Priorities())
      ensures key.Some? && at < 0 && old(size) == capacity && old(Priorities()[size - 1]) < 0 ==>
        size == old(size) &&
        Keys() == Resorted(old(Keys())[size - 1 := key], old(Priorities())[size - 1 := 0], size - 1) &&
        Values() == Resorted(old(Values())[size - 1 := value], old(Priorities())[size - 1 := 0], size - 1) &&
        Priorities() == Resorted(old(Priorities())[size - 1 := 0], old(Priorities())[size - 1 := 0], size - 1)
    {
      r, at := Put(key, value, 0);
    }

    /** `remove(key)`: a held key is taken out; otherwise nothing changes. */
    method Remove(key: Option<K>) returns (r: Result<()>)
      requires Valid()
      modifies this, keys, values, priorities
      ensures Valid()
      ensures key.None? ==> r == Err(IllegalArgument)
      ensures key.Some? ==> r == Ok(())
      ensures key.Some? && key in old(Keys()) ==>
        var i := Find(old(Keys()), key.value);
        size == old(size) - 1 && key !in Keys() &&
        Keys() == RemoveAt(old(Keys()), i) && Values() == RemoveAt(old(Values()), i) &&
        Priorities() == RemoveAt(old(Priorities()), i)
      ensures key.None? || key !in old(Keys()) ==>
        size == old(size) && Keys() == old(Keys()) && Values() == old(Values()) && Priorities() == old(Priorities())
    {
      if key.None? {
        return Err(IllegalArgument);
      }
      var index := IndexOf(key.value);
      if index >= 0 {
        DistinctRemoveAt(Keys(), index);
        RemoveIndex(index);
      }
      return Ok(());
    }

    /** `clear()`: every slot emptied, size zero. */
    method Clear()
      requires 1 <= capacity && keys.Length == capacity && values.Length == capacity && priorities.Length == capacity
      requires keys as object != values as object
      modifies this, keys, values, priorities
      ensures Valid() && Keys() == []
    {
      Fill(keys, None);
      Fill(values, None);
      Fill(priorities, 0);
      size := 0;
    }
  }

  // ----- the specification of `put` on the occupied slots -----

  /**
   * Whether `put` of the non-null `key` with `priority` changes the cache:
   * a held key always, a new key while there is room, and on a full cache
   * only with a priority strictly above the bottom entry's.
   */
  ghost predicate Admits<K, V>(t: Ranked<K, V>, capacity: int, key: K, priority: int)
    requires t.Aligned() && 1 <= capacity && |t.keys| <= capacity
  {
    Some(key) in t.keys || |t.keys| < capacity || t.ranks[|t.keys| - 1] < priority
  }

  /**
   * The slots after `put` of the non-null `key` with `priority`: a held key
   * gets the value and the priority and is re-sorted; a new key is appended
   * and sorted up when there is room, written over the bottom entry and
   * sorted up when its priority is strictly above the bottom one's, and
   * otherwise dropped.
   */
  ghost function Stored<K, V>(t: Ranked<K, V>, capacity: int, key: K, value: Option<V>, priority: int): Ranked<K, V>
    requires t.Aligned() && 1 <= capacity && |t.keys| <= capacity
  {
    var at, n := Find(t.keys, key), |t.keys|;
    if 0 <= at then Rerank(Ranked(t.keys, t.values[at := value], t.ranks[at := priority]), at)
    else if n < capacity then Rerank(Ranked(t.keys + [Some(key)], t.values + [value], t.ranks + [priority]), n)
    else if t.ranks[n - 1] >= priority then t
    else Rerank(Ranked(t.keys[n - 1 := Some(key)], t.values[n - 1 := value], t.ranks[n - 1 := priority]), n - 1)
  }

  // ----- facts -----

  /**
   * `put` keeps the priorities in non-increasing order and the keys
   * distinct and occupied, and grows the size only for a new key on a
   * cache with room. When the put is admitted the key maps to the value
   * with the given priority; otherwise nothing changes. Every other key
   * keeps its value and its priority, except that an admitted new key on
   * a full cache evicts the bottom entry, the one of lowest priority.
   */
  lemma StoredKeeps<K, V>(t: Ranked<K, V>, capacity: int, key: K, value: Option<V>, priority: int, other: K)
    requires t.Aligned() && 1 <= capacity && |t.keys| <= capacity
    requires NonIncreasing(t.ranks) && Distinct(t.keys) && Packed(t.keys, |t.keys|)
    ensures var r := Stored(t, capacity, key, value, priority);
      r.Aligned() && NonIncreasing(r.ranks) && Distinct(r.keys) && Packed(r.keys, |r.keys|) &&
      |r.keys| == (if Some(key) in t.keys || |t.keys| == capacity then |t.keys| else |t.keys| + 1)
    ensures var r := Stored(t, capacity, key, value, priority);
      Admits(t, capacity, key, priority) ==> Lookup(r.keys, r.values, key) == value && RankOf(r, key) == priority
    ensures !Admits(t, capacity, key, priority) ==> Stored(t, capacity, key, value, priority) == t
    ensures var r := Stored(t, capacity, key, value, priority);
      other != key ==>
        if Admits(t, capacity, key, priority) && Some(key) !in t.keys && |t.keys| == capacity && t.keys[capacity - 1] == Some(other)
        then Some(other) !in r.keys
        else SameEntry(r, t, other)
  {
    var at, n := Find(t.keys, key), |t.keys|;
    if 0 <= at {
      UpdateRerankKeeps(t, at, value, priority, other);
    } else if n < capacity {
      AppendRerankKeeps(t, key, value, priority, other);
    } else if t.ranks[n - 1] < priority {
      BottomRerankKeeps(t, key, value, priority, other);
    }
  }
}
