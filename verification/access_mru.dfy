/**
 * `access/fixed/MRUCache`: the held entries fill the prefix `[0, size)`,
 * the top at index 0 and the most recently used at `size - 1`. `get` and
 * `put` of a held key move the entry to `size - 1`; a new key is appended
 * while there is room, and when full it overwrites slot `size - 1`, so the
 * entry evicted is the most recently used one. `remove` closes the gap and
 * empties slot `size`.
 *
 * The bottom peeks read `keys[size - 1]`, which is `keys[-1]`, out of
 * bounds, on an empty cache; the peeks go through the private `get(int)`,
 * which moves the entry to the bottom.
 */
module AccessMru {
  import opened Cache
  import opened Slots
  import opened Recency

  class MRUCache<K(==), V> {
    var size: int
    const capacity: int
    const keys: array<Option<K>>
    const values: array<Option<V>>

    /** The held entries, top first. */
    ghost function View(): Entries<K, V>
      reads this, keys, values
      requires 0 <= size <= keys.Length && size <= values.Length
    {
      Entries(keys[..size], values[..size])
    }

    /** Distinct non-null keys fill the first `size` slots; every later slot is null. */
    ghost predicate Valid()
      reads this, keys, values
    {
      1 <= capacity && keys.Length == capacity && values.Length == capacity &&
      keys as object != values as object &&
      0 <= size <= capacity &&
      Packed(keys[..], size) && Vacant(values[..], size) &&
      Distinct(keys[..size])
    }

    /** The constructor: a capacity below one is refused. */
    static method Create(capacity: int) returns (r: Result<MRUCache<K, V>>)
      ensures r.Err? <==> capacity < 1
      ensures r.Err? ==> r.error == IllegalArgument
      ensures r.Ok? ==> fresh(r.value) && r.value.Valid() && r.value.View() == Entries([], []) && r.value.capacity == capacity
    {
      if capacity < 1 {
        return Err(IllegalArgument);
      }
      var c := new MRUCache(capacity);
      return Ok(c);
    }

    /** Allocates both arrays, empty. */
    constructor (capacity: int)
      requires 1 <= capacity
      ensures Valid() && View() == Entries([], []) && this.capacity == capacity
      ensures fresh(keys) && fresh(values)
    {
      this.capacity := capacity;
      keys := new Option<K>[capacity](_ => None);
      values := new Option<V>[capacity](_ => None);
      size := 0;
    }

    /** `isEmpty()`: exactly when no entry is held. */
    method IsEmpty() returns (empty: bool)
      requires Valid()
      ensures empty <==> View().keys == []
    {
      return size == 0;
    }

    /** `has(key)`: a null key is refused by `indexOf`; otherwise whether the key is held. */
    method Has(key: Option<K>) returns (r: Result<bool>)
      requires Valid()
      ensures key.None? <==> r.Err?
      ensures r.Err? ==> r.error == IllegalArgument
      ensures r.Ok? ==> (r.value <==> key in View().keys)
    {
      if key.None? {
        return Err(IllegalArgument);
      }
      var index := IndexOf(key.value);
      return Ok(index != -1);
    }

    /** The private `indexOf`: the position of the key among the held slots, or -1. */
    method IndexOf(key: K) returns (index: int)
      requires Valid()
      ensures index == Find(View().keys, key)
      ensures index == -1 <==> Some(key) !in View().keys
    {
      index := IndexIn(keys, 0, size, key);
      assert keys[0..size] == View().keys;
    }

    /** `peekTop()`: the top value, moved to the bottom by `get(0)`; null when empty. */
    method PeekTop() returns (value: Option<V>)
      requires Valid()
      modifies keys, values
      ensures Valid() && value == Top(old(View()).values)
      ensures old(size) == 0 ==> View() == old(View())
      ensures old(size) > 0 ==> View() == Backed(old(View()), 0, value)
    {
      if keys[0].None? {
        return None;
      }
      value := GetIndex(0);
    }

    /** `peekBottom()`: the bottom value, read through `get(size - 1)`, which leaves it in place; an empty cache reads `keys[-1]`. */
    method PeekBottom() returns (r: Result<Option<V>>)
      requires Valid()
      modifies keys, values
      ensures Valid() && View() == old(View())
      ensures old(size) == 0 ==> r == Err(ArrayIndexOutOfBounds)
      ensures old(size) > 0 ==> r == Ok(Bottom(old(View()).values))
    {
      if size == 0 {
        return Err(ArrayIndexOutOfBounds);
      }
      ghost var t := View();
      var value := GetIndex(size - 1);
      BackedLast(t);
      return Ok(value);
    }

    /** `elementTop()`: like `peekTop()`, but an empty cache has no such element. */
    method ElementTop() returns (r: Result<Option<V>>)
      requires Valid()
      modifies keys, values
      ensures Valid() && r == Element(old(View()).values, true, NoSuchElement)
      ensures old(size) == 0 ==> View() == old(View())
      ensures old(size) > 0 ==> View() == Backed(old(View()), 0, Top(old(View()).values))
    {
      if keys[0].None? {
        return Err(NoSuchElement);
      }
      var value := GetIndex(0);
      return Ok(value);
    }

    /** `elementBottom()`: like `peekBottom()`; the read of `keys[-1]` fails before any check for emptiness. */
    method ElementBottom() returns (r: Result<Option<V>>)
      requires Valid()
      modifies keys, values
      ensures Valid() && View() == old(View())
      ensures old(size) == 0 ==> r == Err(ArrayIndexOutOfBounds)
      ensures old(size) > 0 ==> r == Element(old(View()).values, false, NoSuchElement)
    {
      if size == 0 {
        return Err(ArrayIndexOutOfBounds);
      }
      ghost var t := View();
      var value := GetIndex(size - 1);
      BackedLast(t);
      return Ok(value);
    }

    /** `popTop()`: the top value, taken out through `remove(0)`; null when empty. */
    method PopTop() returns (value: Option<V>)
      requires Valid()
      modifies this, keys, values
      ensures Valid() && value == Top(old(View()).values)
      ensures old(size) == 0 ==> View() == old(View())
      ensures old(size) > 0 ==> View() == Removed(old(View()), 0)
    {
      if keys[0].None? {
        return None;
      }
      value := values[0];
      RemoveIndex(0);
    }

    /** `popBottom()`: the bottom value, taken out through `remove(size - 1)`; an empty cache reads `keys[-1]`. */
    method PopBottom() returns (r: Result<Option<V>>)
      requires Valid()
      modifies this, keys, values
      ensures Valid()
      ensures old(size) == 0 ==> r == Err(ArrayIndexOutOfBounds) && View() == old(View())
      ensures old(size) > 0 ==> r == Ok(Bottom(old(View()).values)) && View() == Removed(old(View()), old(size) - 1)
    {
      if size == 0 {
        return Err(ArrayIndexOutOfBounds);
      }
      var value := values[size - 1];
      RemoveIndex(size - 1);
      return Ok(value);
    }

    /** `pollTop()`: like `popTop()`, but an empty cache has no such element. */
    method PollTop() returns (r: Result<Option<V>>)
      requires Valid()
      modifies this, keys, values
      ensures Valid() && r == Element(old(View()).values, true, NoSuchElement)
      ensures old(size) == 0 ==> View() == old(View())
      ensures old(size) > 0 ==> View() == Removed(old(View()), 0)
    {
      if keys[0].None? {
        return Err(NoSuchElement);
      }
      var value := values[0];
      RemoveIndex(0);
      return Ok(value);
    }

    /** `pollBottom()`: like `popBottom()`; the read of `keys[-1]` fails before any check for emptiness. */
    method PollBottom() returns (r: Result<Option<V>>)
      requires Valid()
      modifies this, keys, values
      ensures Valid()
      ensures old(size) == 0 ==> r == Err(ArrayIndexOutOfBounds) && View() == old(View())
      ensures old(size) > 0 ==>
        r == Element(old(View()).values, false, NoSuchElement) && View() == Removed(old(View()), old(size) - 1)
    {
      if size == 0 {
        return Err(ArrayIndexOutOfBounds);
      }
      var value := values[size - 1];
      RemoveIndex(size - 1);
      return Ok(value);
    }

    /** `get(key)`: a null key is refused; a held key's value is returned and the entry moved to the bottom; an absent key reads as null. */
    method Get(key: Option<K>) returns (r: Result<Option<V>>)
      requires Valid()
      modifies keys, values
      ensures Valid()
      ensures key.None? ==> r == Err(IllegalArgument) && View() == old(View())
      ensures key.Some? ==> r == Ok(Lookup(old(View()).keys, old(View()).values, key.value)) && View() == Read(old(View()), key.value)
    {
      if key.None? {
        return Err(IllegalArgument);
      }
      var index := IndexOf(key.value);
      ghost var t := View();
      if index < 0 {
        return Ok(None);
      }
      var value := GetIndex(index);
      assert View() == Backed(t, index, t.values[index]);
      return Ok(value);
    }

    /** `get(key, defaultValue)`: the default in place of a null result. */
    method GetOrDefault(key: Option<K>, defaultValue: Option<V>) returns (r: Result<Option<V>>)
      requires Valid()
      modifies keys, values
      ensures Valid()
      ensures key.None? ==> r == Err(IllegalArgument) && View() == old(View())
      ensures key.Some? ==>
        r == Ok(OrDefault(Lookup(old(View()).keys, old(View()).values, key.value), defaultValue)) &&
        View() == Read(old(View()), key.value)
    {
      r := Get(key);
      if r.Ok? {
        r := Ok(OrDefault(r.value, defaultValue));
      }
    }

    /** `put(key, value)`: a null key is refused; otherwise the pair ends at the bottom. */
    method Put(key: Option<K>, value: Option<V>) returns (r: Result<()>)
      requires Valid()
      modifies this, keys, values
      ensures Valid()
      ensures key.None? ==> r == Err(IllegalArgument) && View() == old(View())
      ensures key.Some? ==> r == Ok(()) && View() == Stored(old(View()), capacity, key.value, value)
    {
      if key.None? {
        return Err(IllegalArgument);
      }
      var index := IndexOf(key.value);
      ghost var t := View();
      if index >= 0 {
        MoveBack(index, value);
      } else {
        Enter(key, value);
      }
      assert View() == Stored(t, capacity, key.value, value);
      return Ok(());
    }

    /** `put(entry)`: only a basic entry is accepted, and its key and value are put. */
    method PutEntry(entry: CacheEntry<K, V>) returns (r: Result<()>)
      requires Valid()
      modifies this, keys, values
      ensures Valid()
      ensures !entry.BasicEntry? ==> r == Err(IllegalArgument) && View() == old(View())
      ensures entry.BasicEntry? && entry.key.None? ==> r == Err(IllegalArgument) && View() == old(View())
      ensures entry.BasicEntry? && entry.key.Some? ==>
        r == Ok(()) && View() == Stored(old(View()), capacity, entry.key.value, entry.value)
    {
      if !entry.BasicEntry? {
        return Err(IllegalArgument);
      }
      r := Put(entry.key, entry.value);
    }

    /** `remove(key)`: a null key is refused; a held key's entry is taken out. */
    method Remove(key: Option<K>) returns (r: Result<()>)
      requires Valid()
      modifies this, keys, values
      ensures Valid()
      ensures key.None? ==> r == Err(IllegalArgument) && View() == old(View())
      ensures key.Some? ==> r == Ok(()) && View() == Dropped(old(View()), key.value)
    {
      if key.None? {
        return Err(IllegalArgument);
      }
      var index := IndexOf(key.value);
      if index >= 0 {
        RemoveIndex(index);
      }
      return Ok(());
    }

    /** `clear()`: every slot emptied and `size` zero. */
    method Clear()
      requires Valid()
      modifies this, keys, values
      ensures Valid() && View() == Entries([], [])
    {
      Fill(keys, None);
      Fill(values, None);
      size := 0;
    }

    /** The private `get(int)`: the value at a held index, whose entry moves to the bottom. */
    method GetIndex(index: int) returns (value: Option<V>)
      requires Valid() && 0 <= index < size
      modifies keys, values
      ensures Valid() && value == old(values[index])
      ensures View() == Backed(old(View()), index, value)
    {
      value := values[index];
      MoveBack(index, value);
    }

    /** The shift toward index 0 above `index`, then the entry written at `size - 1` with `value`. */
    method MoveBack(index: int, value: Option<V>)
      requires Valid() && 0 <= index < size
      modifies keys, values
      ensures Valid() && View() == Backed(old(View()), index, value)
    {
      ghost var t := View();
      ghost var k0, v0 := keys[..], values[..];
      var key := keys[index];
      PushBack(keys, index, size, key);
      PushBack(values, index, size, value);
      BackMovePacked(k0, index, size, key);
      BackMoveVacant(v0, index, size, value);
      DistinctToBack(t.keys, index);
      assert View() == Backed(t, index, value);
      assert Packed(keys[..], size) && Vacant(values[..], size);
    }

    /** The new-key branch of `put`: `size` up unless full, then the pair written at `size - 1`. */
    method Enter(key: Option<K>, value: Option<V>)
      requires Valid() && key.Some? && key !in View().keys
      modifies this, keys, values
      ensures Valid() && View() == Entered(old(View()), capacity, key.value, value)
    {
      ghost var t := View();
      ghost var k0, v0 := keys[..], values[..];
      ghost var n := size;
      if size < capacity {
        size := size + 1;
        keys[size - 1] := key;
        values[size - 1] := value;
        GrowPacked(k0, n, key);
        GrowVacant(v0, n, value);
        DistinctSnocNew(t.keys, key);
        assert View() == Appended(t, key.value, value);
      } else {
        keys[size - 1] := key;
        values[size - 1] := value;
        ReplaceLastPacked(k0, n, key);
        ReplaceLastVacant(v0, n, value);
        DistinctRemoveAt(t.keys, n - 1);
        assert key !in RemoveAt(t.keys, n - 1) by {
          assert forall x :: x in RemoveAt(t.keys, n - 1) ==> x in t.keys;
        }
        DistinctSnocNew(RemoveAt(t.keys, n - 1), key);
        assert View() == Appended(Removed(t, n - 1), key.value, value);
      }
      assert Packed(keys[..], size) && Vacant(values[..], size);
    }

    /** The private `remove(int)`: `size` down, the slots above `index` shifted toward index 0, slot `size` emptied. */
    method RemoveIndex(index: int)
      requires Valid() && 0 <= index < size
      modifies this, keys, values
      ensures Valid() && View() == Removed(old(View()), index)
    {
      ghost var t := View();
      ghost var k0, v0 := keys[..], values[..];
      var n := size;
      if size > 0 {
        size := size - 1;
      }
      PushBack(keys, index, n, None);
      PushBack(values, index, n, None);
      PushBackPacked(k0, index, n);
      PushBackVacant(v0, index, n);
      DistinctRemoveAt(t.keys, index);
      assert View() == Removed(t, index);
      assert Packed(keys[..], size) && Vacant(values[..], size);
    }
  }

  // ----- the specification of `put` on the held entries -----

  /** A new key at the bottom; when all `capacity` slots are held the bottom entry is overwritten. */
  function Entered<K, V>(t: Entries<K, V>, capacity: int, key: K, value: Option<V>): (r: Entries<K, V>)
    requires t.Aligned() && 1 <= capacity && |t.keys| <= capacity
    ensures r.Aligned() && |r.keys| == (if |t.keys| < capacity then |t.keys| + 1 else |t.keys|)
  {
    if |t.keys| < capacity then Appended(t, key, value) else Appended(Removed(t, |t.keys| - 1), key, value)
  }

  /** `put(key, value)`: a held key moves to the bottom with the new value; a new key enters. */
  ghost function Stored<K, V>(t: Entries<K, V>, capacity: int, key: K, value: Option<V>): Entries<K, V>
    requires t.Aligned() && 1 <= capacity && |t.keys| <= capacity
  {
    var j := Find(t.keys, key);
    if 0 <= j then Backed(t, j, value) else Entered(t, capacity, key, value)
  }

  // ----- facts -----

  /**
   * `put` keeps the keys distinct and at most `capacity` of them, leaves
   * the key at the bottom mapped to `value`, and every other key with its
   * value, except that a new key put into a full cache evicts the bottom
   * entry, the most recently placed or read.
   */
  lemma StoredKeeps<K, V>(t: Entries<K, V>, capacity: int, key: K, value: Option<V>, other: K)
    requires t.Aligned() && 1 <= capacity && |t.keys| <= capacity && Distinct(t.keys)
    ensures var r := Stored(t, capacity, key, value);
      r.Aligned() && Distinct(r.keys) && 1 <= |r.keys| <= capacity &&
      r.keys[|r.keys| - 1] == Some(key) && Lookup(r.keys, r.values, key) == value &&
      (other != key ==>
        Lookup(r.keys, r.values, other) ==
        (if Some(key) !in t.keys && |t.keys| == capacity && t.keys[|t.keys| - 1] == Some(other) then None
         else Lookup(t.keys, t.values, other)))
  {
    var j := Find(t.keys, key);
    if 0 <= j {
      BackedKeeps(t, j, value, key);
      BackedKeeps(t, j, value, other);
    } else if |t.keys| < capacity {
      AppendedKeeps(t, key, value, other);
    } else {
      var s := Removed(t, |t.keys| - 1);
      RemovedKeeps(t, |t.keys| - 1, other);
      assert Some(key) !in s.keys by {
        assert forall x :: x in s.keys ==> x in t.keys;
      }
      AppendedKeeps(s, key, value, other);
    }
  }

  /**
   * A cache of capacity 2 given keys 1 and 2, then asked for key 1 and
   * given key 3, holds keys 2 and 3: key 1, the most recently used, is the
   * one dropped.
   */
  lemma EvictsMostRecent()
    ensures var t0: Entries<int, int> := Entries([], []);
      var t1 := Stored(t0, 2, 1, Some(10));
      var t2 := Stored(t1, 2, 2, Some(20));
      var t3 := Read(t2, 1);
      var t4 := Stored(t3, 2, 3, Some(30));
      t4 == Entries([Some(2), Some(3)], [Some(20), Some(30)])
  {
    var t0: Entries<int, int> := Entries([], []);
    var t1 := Stored(t0, 2, 1, Some(10));
    assert t1 == Entries([Some(1)], [Some(10)]);
    assert Find(t1.keys, 2) == -1;
    var t2 := Stored(t1, 2, 2, Some(20));
    assert t2 == Entries([Some(1), Some(2)], [Some(10), Some(20)]);
    assert Find(t2.keys, 1) == 0;
    var t3 := Read(t2, 1);
    assert t3 == Entries([Some(2), Some(1)], [Some(20), Some(10)]);
    assert Find(t3.keys, 3) == -1;
  }

  /** Moving a held slot to the end of the held prefix keeps the layout; the prefix loses slot `i` and gains `x` last. */
  lemma BackMovePacked<T>(s: seq<Option<T>>, i: int, n: int, x: Option<T>)
    requires 0 <= i < n <= |s| && Packed(s, n) && x.Some?
    ensures Packed(RemoveAt(s[..n], i) + [x] + s[n..], n)
    ensures (RemoveAt(s[..n], i) + [x] + s[n..])[..n] == RemoveAt(s[..n], i) + [x]
  {
    PushBackParts(s, i, n, x);
  }

  /** The same move on the value array keeps the slots from `n` on empty. */
  lemma BackMoveVacant<T>(s: seq<Option<T>>, i: int, n: int, x: Option<T>)
    requires 0 <= i < n <= |s| && Vacant(s, n)
    ensures Vacant(RemoveAt(s[..n], i) + [x] + s[n..], n)
    ensures (RemoveAt(s[..n], i) + [x] + s[n..])[..n] == RemoveAt(s[..n], i) + [x]
  {
    PushBackParts(s, i, n, x);
  }

  /** Overwriting the last held slot keeps the layout; the prefix loses its last element and gains `x`. */
  lemma ReplaceLastPacked<T>(s: seq<Option<T>>, n: int, x: Option<T>)
    requires 1 <= n <= |s| && Packed(s, n) && x.Some?
    ensures Packed(s[n - 1 := x], n) && s[n - 1 := x][..n] == RemoveAt(s[..n], n - 1) + [x]
  {
    RemoveAtLast(s[..n]);
  }

  /** The same overwrite on the value array keeps the slots from `n` on empty. */
  lemma ReplaceLastVacant<T>(s: seq<Option<T>>, n: int, x: Option<T>)
    requires 1 <= n <= |s| && Vacant(s, n)
    ensures Vacant(s[n - 1 := x], n) && s[n - 1 := x][..n] == RemoveAt(s[..n], n - 1) + [x]
  {
    RemoveAtLast(s[..n]);
  }
}
