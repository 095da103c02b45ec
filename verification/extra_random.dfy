/**
 * `extra/fixed/RandomCache`: entries packed into a prefix in arrival
 * order. A held key's value is replaced in place; a new key is appended
 * while there is room, and when full it is written over the slot
 * `nextIndex()` draws, evicting the entry there. Reads never reorder.
 *
 * `nextIndex()` is `random.nextInt(capacity)`: the model takes the drawn
 * index as the parameter `pick` of `put`, in `[0, capacity)` as the
 * library promises. The bottom peeks read `keys[size - 1]`, which is
 * `keys[-1]`, out of bounds, on an empty cache.
 */
module ExtraRandom {
  import opened Cache
  import opened Slots
  import opened Recency
  import opened Replacement

  class RandomCache<K(==), V> {
    var size: int
    const capacity: int
    const keys: array<Option<K>>
    const values: array<Option<V>>

    /** The held entries, top first. */
    ghost function View(): Entries<K, V>
      reads this, keys, values
      requires 0 <= size <= keys.Length && size <= values.Length
    {
      Entries(keys[..size], values[..size])
    }

    /** Distinct non-null keys fill the first `size` slots; every later slot is null. */
    ghost predicate Valid()
      reads this, keys, values
    {
      1 <= capacity && keys.Length == capacity && values.Length == capacity &&
      keys as object != values as object &&
      0 <= size <= capacity &&
      Packed(keys[..], size) && Vacant(values[..], size) &&
      Distinct(keys[..size])
    }

    /** The constructor: a capacity below one is refused. */
    static method Create(capacity: int) returns (r: Result<RandomCache<K, V>>)
      ensures r.Err? <==> capacity < 1
      ensures r.Err? ==> r.error == IllegalArgument
      ensures r.Ok? ==> fresh(r.value) && r.value.Valid() && r.value.View() == Entries([], []) && r.value.capacity == capacity
    {
      if capacity < 1 {
        return Err(IllegalArgument);
      }
      var c := new RandomCache(capacity);
      return Ok(c);
    }

    /** Allocates both arrays, empty. */
    constructor (capacity: int)
      requires 1 <= capacity
      ensures Valid() && View() == Entries([], []) && this.capacity == capacity
      ensures fresh(keys) && fresh(values)
    {
      this.capacity := capacity;
      keys := new Option<K>[capacity](_ => None);
      values := new Option<V>[capacity](_ => None);
      size := 0;
    }

    /** `isEmpty()`: exactly when no entry is held. */
    method IsEmpty() returns (empty: bool)
      requires Valid()
      ensures empty <==> View().keys == []
    {
      return size == 0;
    }

    /** `has(key)`: a null key is refused by `indexOf`; otherwise whether the key is held. */
    method Has(key: Option<K>) returns (r: Result<bool>)
      requires Valid()
      ensures key.None? <==> r.Err?
      ensures r.Err? ==> r.error == IllegalArgument
      ensures r.Ok? ==> (r.value <==> key in View().keys)
    {
      if key.None? {
        return Err(IllegalArgument);
      }
      var index := IndexOf(key.value);
      return Ok(index != -1);
    }

    /** The private `indexOf`: the position of the key among the held slots, or -1. */
    method IndexOf(key: K) returns (index: int)
      requires Valid()
      ensures index == Find(View().keys, key)
      ensures index == -1 <==> Some(key) !in View().keys
    {
      index := IndexIn(keys, 0, size, key);
      assert keys[0..size] == View().keys;
    }

    /** `peekTop()`: the top value, null when empty. */
    method PeekTop() returns (value: Option<V>)
      requires Valid()
      ensures value == Top(View().values)
    {
      if keys[0].None? {
        return None;
      }
      value := GetIndex(0);
    }

    /** `peekBottom()`: the bottom value; an empty cache reads `keys[-1]`. */
    method PeekBottom() returns (r: Result<Option<V>>)
      requires Valid()
      ensures size == 0 ==> r == Err(ArrayIndexOutOfBounds)
      ensures size > 0 ==> r == Ok(Bottom(View().values))
    {
      if size == 0 {
        return Err(ArrayIndexOutOfBounds);
      }
      var value := GetIndex(size - 1);
      return Ok(value);
    }

    /** `elementTop()`: like `peekTop()`, but an empty cache has no such element. */
    method ElementTop() returns (r: Result<Option<V>>)
      requires Valid()
      ensures r == Element(View().values, true, NoSuchElement)
    {
      if keys[0].None? {
        return Err(NoSuchElement);
      }
      var value := GetIndex(0);
      return Ok(value);
    }

    /** `elementBottom()`: like `peekBottom()`; the read of `keys[-1]` fails before any check for emptiness. */
    method ElementBottom() returns (r: Result<Option<V>>)
      requires Valid()
      ensures size == 0 ==> r == Err(ArrayIndexOutOfBounds)
      ensures size > 0 ==> r == Element(View().values, false, NoSuchElement)
    {
      if size == 0 {
        return Err(ArrayIndexOutOfBounds);
      }
      var value := GetIndex(size - 1);
      return Ok(value);
    }

    /** `popTop()`: the top value, taken out through `remove(0)`; null when empty. */
    method PopTop() returns (value: Option<V>)
      requires Valid()
      modifies this, keys, values
      ensures Valid() && value == Top(old(View()).values)
      ensures old(size) == 0 ==> View() == old(View())
      ensures old(size) > 0 ==> View() == Removed(old(View()), 0)
    {
      if keys[0].None? {
        return None;
      }
      value := values[0];
      RemoveIndex(0);
    }

    /** `popBottom()`: the bottom value, taken out through `remove(size - 1)`; an empty cache reads `keys[-1]`. */
    method PopBottom() returns (r: Result<Option<V>>)
      requires Valid()
      modifies this, keys, values
      ensures Valid()
      ensures old(size) == 0 ==> r == Err(ArrayIndexOutOfBounds) && View() == old(View())
      ensures old(size) > 0 ==> r == Ok(Bottom(old(View()).values)) && View() == Removed(old(View()), old(size) - 1)
    {
      if size == 0 {
        return Err(ArrayIndexOutOfBounds);
      }
      var value := values[size - 1];
      RemoveIndex(size - 1);
      return Ok(value);
    }

    /** `pollTop()`: like `popTop()`, but an empty cache has no such element. */
    method PollTop() returns (r: Result<Option<V>>)
      requires Valid()
      modifies this, keys, values
      ensures Valid() && r == Element(old(View()).values, true, NoSuchElement)
      ensures old(size) == 0 ==> View() == old(View())
      ensures old(size) > 0 ==> View() == Removed(old(View()), 0)
    {
      if keys[0].None? {
        return Err(NoSuchElement);
      }
      var value := values[0];
      RemoveIndex(0);
      return Ok(value);
    }

    /** `pollBottom()`: like `popBottom()`; the read of `keys[-1]` fails before any check for emptiness. */
    method PollBottom() returns (r: Result<Option<V>>)
      requires Valid()
      modifies this, keys, values
      ensures Valid()
      ensures old(size) == 0 ==> r == Err(ArrayIndexOutOfBounds) && View() == old(View())
      ensures old(size) > 0 ==>
        r == Element(old(View()).values, false, NoSuchElement) && View() == Removed(old(View()), old(size) - 1)
    {
      if size == 0 {
        return Err(ArrayIndexOutOfBounds);
      }
      var value := values[size - 1];
      RemoveIndex(size - 1);
      return Ok(value);
    }

    /** `get(key)`: a null key is refused; otherwise the key's value, null when absent; nothing moves. */
    method Get(key: Option<K>) returns (r: Result<Option<V>>)
      requires Valid()
      ensures key.None? ==> r == Err(IllegalArgument)
      ensures key.Some? ==> r == Ok(Lookup(View().keys, View().values, key.value))
    {
      if key.None? {
        return Err(IllegalArgument);
      }
      var index := IndexOf(key.value);
      if index < 0 {
        return Ok(None);
      }
      var value := GetIndex(index);
      return Ok(value);
    }

    /** `get(key, defaultValue)`: the default in place of a null result. */
    method GetOrDefault(key: Option<K>, defaultValue: Option<V>) returns (r: Result<Option<V>>)
      requires Valid()
      ensures key.None? ==> r == Err(IllegalArgument)
      ensures key.Some? ==> r == Ok(OrDefault(Lookup(View().keys, View().values, key.value), defaultValue))
    {
      r := Get(key);
      if r.Ok? {
        r := Ok(OrDefault(r.value, defaultValue));
      }
    }

    /** `put(key, value)` with `pick` the index `nextIndex()` draws: a null key is refused and nothing changes; otherwise the slots become what `Stored` describes. */
    method Put(key: Option<K>, value: Option<V>, pick: int) returns (r: Result<()>)
      requires Valid() && 0 <= pick < capacity
      modifies this, keys, values
      ensures Valid()
      ensures key.None? ==> r == Err(IllegalArgument) && View() == old(View())
      ensures key.Some? ==> r == Ok(()) && View() == Stored(old(View()), capacity, key.value, value, pick)
    {
      if key.None? {
        return Err(IllegalArgument);
      }
      var index := IndexOf(key.value);
      ghost var t := View();
      if index >= 0 {
        Assign(index, value);
      } else if size < capacity {
        Append(key, value);
      } else {
        Overwrite(pick, key, value);
      }
      assert View() == Stored(t, capacity, key.value, value, pick);
      return Ok(());
    }

    /** `put(entry)`: only a basic entry is accepted, and its key and value are put. */
    method PutEntry(entry: CacheEntry<K, V>, pick: int) returns (r: Result<()>)
      requires Valid() && 0 <= pick < capacity
      modifies this, keys, values
      ensures Valid()
      ensures !entry.BasicEntry? ==> r == Err(IllegalArgument) && View() == old(View())
      ensures entry.BasicEntry? && entry.key.None? ==> r == Err(IllegalArgument) && View() == old(View())
      ensures entry.BasicEntry? && entry.key.Some? ==>
        r == Ok(()) && View() == Stored(old(View()), capacity, entry.key.value, entry.value, pick)
    {
      if !entry.BasicEntry? {
        return Err(IllegalArgument);
      }
      r := Put(entry.key, entry.value, pick);
    }

    /** `remove(key)`: a null key is refused; a held key's entry is taken out. */
    method Remove(key: Option<K>) returns (r: Result<()>)
      requires Valid()
      modifies this, keys, values
      ensures Valid()
      ensures key.None? ==> r == Err(IllegalArgument) && View() == old(View())
      ensures key.Some? ==> r == Ok(()) && View() == Dropped(old(View()), key.value)
    {
      if key.None? {
        return Err(IllegalArgument);
      }
      var index := IndexOf(key.value);
      if index >= 0 {
        RemoveIndex(index);
      }
      return Ok(());
    }

    /** `clear()`: every slot emptied and `size` zero. */
    method Clear()
      requires Valid()
      modifies this, keys, values
      ensures Valid() && View() == Entries([], [])
    {
      Fill(keys, None);
      Fill(values, None);
      size := 0;
    }

    /** The private `get(int)`: the value at a held index; nothing moves. */
    method GetIndex(index: int) returns (value: Option<V>)
      requires Valid() && 0 <= index < size
      ensures value == View().values[index]
    {
      return values[index];
    }

    /** The held-key branch of `put`: the value replaced in place. */
    method Assign(index: int, value: Option<V>)
      requires Valid() && 0 <= index < size
      modifies values
      ensures Valid() && View() == Assigned(old(View()), index, value)
    {
      ghost var t := View();
      ghost var v0 := values[..];
      values[index] := value;
      ReplaceVacant(v0, size, index, value);
      assert View() == Assigned(t, index, value);
    }

    /** The new-key branch of `put` while there is room: `size` up and the pair written at `size - 1`. */
    method Append(key: Option<K>, value: Option<V>)
      requires Valid() && key.Some? && key !in View().keys && size < capacity
      modifies this, keys, values
      ensures Valid() && View() == Appended(old(View()), key.value, value)
    {
      ghost var t := View();
      ghost var k0, v0 := keys[..], values[..];
      size := size + 1;
      keys[size - 1] := key;
      values[size - 1] := value;
      GrowPacked(k0, size - 1, key);
      GrowVacant(v0, size - 1, value);
      DistinctSnocNew(t.keys, key);
      assert View() == Appended(t, key.value, value);
    }

    /** The new-key branch of `put` when full: the pair written over slot `pick`. */
    method Overwrite(pick: int, key: Option<K>, value: Option<V>)
      requires Valid() && key.Some? && key !in View().keys && size == capacity && 0 <= pick < capacity
      modifies keys, values
      ensures Valid() && View() == Entries(old(View()).keys[pick := key], old(View()).values[pick := value])
    {
      ghost var t := View();
      ghost var k0, v0 := keys[..], values[..];
      keys[pick] := key;
      values[pick] := value;
      ReplacePacked(k0, size, pick, key);
      ReplaceVacant(v0, size, pick, value);
      DistinctReplace(t.keys, pick, key);
      assert View() == Entries(t.keys[pick := key], t.values[pick := value]);
    }

    /** The private `remove(int)`: `size` down, the slots above `index` shifted toward index 0, slot `size` emptied. */
    method RemoveIndex(index: int)
      requires Valid() && 0 <= index < size
      modifies this, keys, values
      ensures Valid() && View() == Removed(old(View()), index)
    {
      ghost var t := View();
      ghost var k0, v0 := keys[..], values[..];
      var n := size;
      if size > 0 {
        size := size - 1;
      }
      PushBack(keys, index, n, None);
      PushBack(values, index, n, None);
      PushBackPacked(k0, index, n);
      PushBackVacant(v0, index, n);
      DistinctRemoveAt(t.keys, index);
      assert View() == Removed(t, index);
      assert Packed(keys[..], size) && Vacant(values[..], size);
    }
  }
}
