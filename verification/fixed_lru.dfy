/**
 * `fixed/LRUCache`: entries packed into a prefix, most recently used at
 * index 0. A read or a `put` of a held key moves the entry to the top; a
 * new key goes to the top after every slot shifts down one, the last slot
 * falling off the end.
 *
 * As written, `put` of a new key adds one to `size` with no capacity check,
 * while the arrays stop at `capacity` entries. The model therefore keeps the
 * number of held entries (the ghost `count`) apart from `size`: once `size`
 * passes `capacity`, the scan in `search` runs off the end of the arrays for
 * any key it does not find, and after removals `size` overstates the
 * entries held.
 */
module FixedLru {
  import opened Cache
  import opened Slots

  /** The held entries, top first, and the `size` field. */
  datatype State<K, V> = State(keys: seq<Option<K>>, values: seq<Option<V>>, size: int)

  class LRUCache<K(==), V> {
    var size: int
    ghost var count: int
    const capacity: int
    const keys: array<Option<K>>
    const values: array<Option<V>>

    /** The held key slots, most recently used first. */
    ghost function Keys(): seq<Option<K>>
      reads this, keys
      requires 0 <= count <= keys.Length
    {
      keys[..count]
    }

    /** The held value slots, aligned with `Keys()`. */
    ghost function Values(): seq<Option<V>>
      reads this, values
      requires 0 <= count <= values.Length
    {
      values[..count]
    }

    /** The held entries and the `size` field. */
    ghost function View(): State<K, V>
      reads this, keys, values
      requires 0 <= count <= keys.Length && count <= values.Length
    {
      State(Keys(), Values(), size)
    }

    /**
     * The layout: distinct non-null keys fill the first `count` slots,
     * every later key and value slot is null, and `size` is never below
     * `count` (it can be above it, and above `capacity`).
     */
    ghost predicate Valid()
      reads this, keys, values
    {
      1 <= capacity && keys.Length == capacity && values.Length == capacity &&
      keys as object != values as object &&
      0 <= count <= capacity && count <= size &&
      Packed(keys[..], count) && Vacant(values[..], count) &&
      Distinct(keys[..count])
    }

    /** The constructor: a capacity below one is refused. */
    static method Create(capacity: int) returns (r: Result<LRUCache<K, V>>)
      ensures r.Err? <==> capacity < 1
      ensures r.Err? ==> r.error == IllegalArgument
      ensures r.Ok? ==> fresh(r.value) && fresh(r.value.keys) && fresh(r.value.values)
      ensures r.Ok? ==> r.value.Valid() && r.value.View() == State([], [], 0) && r.value.capacity == capacity
    {
      if capacity < 1 {
        return Err(IllegalArgument);
      }
      var c := new LRUCache(capacity);
      return Ok(c);
    }

    /** A fresh cache is empty. */
    constructor(capacity: int)
      requires 1 <= capacity
      ensures Valid() && fresh(keys) && fresh(values) && View() == State([], [], 0)
      ensures this.capacity == capacity
    {
      this.capacity := capacity;
      keys := new Option<K>[capacity](_ => None);
      values := new Option<V>[capacity](_ => None);
      size := 0;
      count := 0;
      new;
      Clear();
    }

    /** `isEmpty()`: whether `size` is zero, which is not always whether an entry is held (see `SizeDrift`). */
    method IsEmpty() returns (empty: bool)
      requires Valid()
      ensures empty <==> size == 0
      ensures empty ==> Keys() == []
    {
      return size == 0;
    }

    /**
     * The private `search`: the scan over the first `size` slots. A held
     * key is found at its index, an absent one gives -1, unless `size` is
     * above `capacity`, when the scan reads past the end of the arrays.
     */
    method Search(key: K) returns (r: Result<int>)
      requires Valid()
      ensures r == Searched(View(), capacity, key)
    {
      var i := 0;
      while i < size
        invariant 0 <= i <= size && i <= capacity
        invariant Some(key) !in keys[..i]
      {
        if i >= capacity {
          assert Keys() == keys[..i][..count];
          return Err(ArrayIndexOutOfBounds);
        }
        if keys[i] == Some(key) {
          assert Keys()[..i] == keys[..i];
          return Ok(i);
        }
        assert keys[..i + 1] == keys[..i] + [keys[i]];
        i := i + 1;
      }
      assert Keys() == keys[..i][..count];
      return Ok(-1);
    }

    /** `has(key)`: whether the search finds the key; it fails as the search does. */
    method Has(key: K) returns (r: Result<bool>)
      requires Valid()
      ensures r.Err? <==> Searched(View(), capacity, key).Err?
      ensures r.Err? ==> r.error == ArrayIndexOutOfBounds
      ensures r.Ok? ==> (r.value <==> Some(key) in Keys())
    {
      var index := Search(key);
      if index.Err? {
        return Err(index.error);
      }
      return Ok(index.value != -1);
    }

    /** `peekTop()`: the top value without reordering, or null when slot 0 is empty. */
    method PeekTop() returns (value: Option<V>)
      requires Valid()
      ensures value == Top(Values())
    {
      if keys[0].None? {
        return None;
      }
      return values[0];
    }

    /**
     * `peekBottom()`: the value in slot `size - 1`. The read fails when
     * `size` is 0 or above `capacity`; the slot is empty, and null is
     * returned, when `size` overstates the entries held.
     */
    method PeekBottom() returns (r: Result<Option<V>>)
      requires Valid()
      ensures size < 1 || size > capacity ==> r == Err(ArrayIndexOutOfBounds)
      ensures 1 <= size <= capacity ==> r == Ok(if size == count then Bottom(Values()) else None)
    {
      if size < 1 || size > capacity {
        return Err(ArrayIndexOutOfBounds);
      }
      if keys[size - 1].None? {
        return Ok(None);
      }
      return Ok(values[size - 1]);
    }

    /** `elementTop()`: like `peekTop()`, but an empty slot 0 has no such element. */
    method ElementTop() returns (r: Result<Option<V>>)
      requires Valid()
      ensures r == Element(Values(), true, NoSuchElement)
    {
      if keys[0].None? {
        return Err(NoSuchElement);
      }
      return Ok(values[0]);
    }

    /** `elementBottom()`: like `peekBottom()`, but an empty slot `size - 1` has no such element. */
    method ElementBottom() returns (r: Result<Option<V>>)
      requires Valid()
      ensures size < 1 || size > capacity ==> r == Err(ArrayIndexOutOfBounds)
      ensures 1 <= size <= capacity ==> r == if size == count then Element(Values(), false, NoSuchElement) else Err(NoSuchElement)
    {
      if size < 1 || size > capacity {
        return Err(ArrayIndexOutOfBounds);
      }
      if keys[size - 1].None? {
        return Err(NoSuchElement);
      }
      return Ok(values[size - 1]);
    }

    /** `popTop()`: the top value, taken out through `remove(keys[0])`; null when slot 0 is empty. */
    method PopTop() returns (value: Option<V>)
      requires Valid()
      modifies this, keys, values
      ensures Valid() && value == Top(old(Values()))
      ensures old(count) == 0 ==> View() == old(View())
      ensures old(count) > 0 ==> View() == Removed(old(View()), 0)
    {
      if keys[0].None? {
        return None;
      }
      value := values[0];
      LookupAt(Keys(), Values(), 0);
      var _ := Remove(keys[0]);
    }

    /** `popBottom()`: the value in slot `size - 1`, taken out through `remove`; the read fails or gives null as in `peekBottom()`. */
    method PopBottom() returns (r: Result<Option<V>>)
      requires Valid()
      modifies this, keys, values
      ensures Valid()
      ensures old(size) < 1 || old(size) > capacity ==> r == Err(ArrayIndexOutOfBounds)
      ensures old(size) < 1 || old(size) > capacity || old(size) > old(count) ==> View() == old(View())
      ensures 1 <= old(size) <= capacity && old(size) > old(count) ==> r == Ok(None)
      ensures 1 <= old(size) <= capacity && old(size) == old(count) ==>
        r == Ok(Bottom(old(Values()))) && View() == Removed(old(View()), old(size) - 1)
    {
      if size < 1 || size > capacity {
        return Err(ArrayIndexOutOfBounds);
      }
      if keys[size - 1].None? {
        return Ok(None);
      }
      var value := values[size - 1];
      LookupAt(Keys(), Values(), size - 1);
      var _ := Remove(keys[size - 1]);
      return Ok(value);
    }

    /** `pollTop()`: like `popTop()`, but an empty slot 0 has no such element. */
    method PollTop() returns (r: Result<Option<V>>)
      requires Valid()
      modifies this, keys, values
      ensures Valid() && r == Element(old(Values()), true, NoSuchElement)
      ensures old(count) == 0 ==> View() == old(View())
      ensures old(count) > 0 ==> View() == Removed(old(View()), 0)
    {
      if keys[0].None? {
        return Err(NoSuchElement);
      }
      var value := values[0];
      LookupAt(Keys(), Values(), 0);
      var _ := Remove(keys[0]);
      return Ok(value);
    }

    /** `pollBottom()`: like `popBottom()`, but an empty slot `size - 1` has no such element. */
    method PollBottom() returns (r: Result<Option<V>>)
      requires Valid()
      modifies this, keys, values
      ensures Valid()
      ensures old(size) < 1 || old(size) > capacity ==> r == Err(ArrayIndexOutOfBounds)
      ensures old(size) < 1 || old(size) > capacity || old(size) > old(count) ==> View() == old(View())
      ensures 1 <= old(size) <= capacity && old(size) > old(count) ==> r == Err(NoSuchElement)
      ensures 1 <= old(size) <= capacity && old(size) == old(count) ==>
        r == Element(old(Values()), false, NoSuchElement) && View() == Removed(old(View()), old(size) - 1)
    {
      if size < 1 || size > capacity {
        return Err(ArrayIndexOutOfBounds);
      }
      if keys[size - 1].None? {
        return Err(NoSuchElement);
      }
      var value := values[size - 1];
      LookupAt(Keys(), Values(), size - 1);
      var _ := Remove(keys[size - 1]);
      return Ok(value);
    }

    /** `get(key)`: a null key is refused; a held key's value is returned and the entry moved to the top; an absent key reads as null. */
    method Get(key: Option<K>) returns (r: Result<Option<V>>)
      requires Valid()
      modifies keys, values
      ensures Valid()
      ensures key.None? ==> r == Err(IllegalArgument) && View() == old(View())
      ensures key.Some? ==> r == Fetched(old(View()), capacity, key.value) && View() == Read(old(View()), capacity, key.value)
    {
      if key.None? {
        return Err(IllegalArgument);
      }
      var index := Search(key.value);
      if index.Err? {
        return Err(index.error);
      }
      if index.value < 0 {
        return Ok(None);
      }
      var value := values[index.value];
      Front(index.value, value);
      return Ok(value);
    }

    /** `get(key, defaultValue)`: `get(key)`, with null replaced by the default. */
    method GetOrDefault(key: Option<K>, defaultValue: Option<V>) returns (r: Result<Option<V>>)
      requires Valid()
      modifies keys, values
      ensures Valid()
      ensures key.None? ==> r == Err(IllegalArgument) && View() == old(View())
      ensures key.Some? && Fetched(old(View()), capacity, key.value).Err? ==> r == Fetched(old(View()), capacity, key.value)
      ensures key.Some? && Fetched(old(View()), capacity, key.value).Ok? ==>
        r == Ok(OrDefault(Fetched(old(View()), capacity, key.value).value, defaultValue))
      ensures key.Some? ==> View() == Read(old(View()), capacity, key.value)
    {
      r := Get(key);
      if r.Ok? {
        r := Ok(OrDefault(r.value, defaultValue));
      }
    }

    /** `put(key, value)`: a null key is refused, the search may fail; otherwise the slots become what `Stored` describes. */
    method Put(key: Option<K>, value: Option<V>) returns (r: Result<()>)
      requires Valid()
      modifies this, keys, values
      ensures Valid()
      ensures key.None? ==> r == Err(IllegalArgument) && View() == old(View())
      ensures key.Some? && Searched(old(View()), capacity, key.value).Err? ==> r == Err(ArrayIndexOutOfBounds)
      ensures key.Some? && Searched(old(View()), capacity, key.value).Ok? ==> r == Ok(())
      ensures key.Some? ==> View() == Stored(old(View()), capacity, key.value, value)
    {
      if key.None? {
        return Err(IllegalArgument);
      }
      var index := Search(key.value);
      if index.Err? {
        return Err(index.error);
      }
      if index.value >= 0 {
        Front(index.value, value);
      } else {
        Enter(key, value);
      }
      return Ok(());
    }

    /** The move-to-front of `get` and of `put` of a held key: the entry at `index` goes to the top with `value`, the ones above it move down one. */
    method Front(index: int, value: Option<V>)
      requires Valid() && 0 <= index < count
      modifies keys, values
      ensures Valid() && View() == Fronted(old(View()), index, value)
    {
      ghost var k0, v0 := keys[..], values[..];
      var key := keys[index];
      PushFront(keys, index, key);
      PushFront(values, index, value);
      FrontMovePacked(k0, index, count, key);
      FrontMoveVacant(v0, index, count, value);
      DistinctToFront(k0[..count], index);
    }

    /** The new-key branch of `put`: `size` up by one, every slot shifted down one (the last one lost), the entry written at the top. */
    method Enter(key: Option<K>, value: Option<V>)
      requires Valid() && key.Some? && key !in Keys()
      modifies this, keys, values
      ensures Valid() && View() == Entered(old(View()), capacity, key.value, value)
    {
      ghost var k0, v0, c0 := keys[..], values[..], count;
      ghost var m := if count < capacity then count else capacity - 1;
      size := size + 1;
      ShiftInKeys(keys, c0, key);
      ShiftInValues(values, c0, value);
      DistinctNewTop(k0[..c0], key, m);
      count := m + 1;
    }

    /** `remove(key)`: a null key is refused, the search may fail; a held key is taken out and `size` goes down by one. */
    method Remove(key: Option<K>) returns (r: Result<()>)
      requires Valid()
      modifies this, keys, values
      ensures Valid()
      ensures key.None? ==> r == Err(IllegalArgument) && View() == old(View())
      ensures key.Some? && Searched(old(View()), capacity, key.value).Err? ==> r == Err(ArrayIndexOutOfBounds)
      ensures key.Some? && Searched(old(View()), capacity, key.value).Ok? ==> r == Ok(())
      ensures key.Some? ==> View() == Dropped(old(View()), capacity, key.value)
    {
      if key.None? {
        return Err(IllegalArgument);
      }
      var index := Search(key.value);
      if index.Err? {
        return Err(index.error);
      }
      if index.value >= 0 {
        RemoveIndex(index.value);
      }
      return Ok(());
    }

    /** The gap-closing part of `remove`: the slots after `index` move up one and the last slot is nulled. */
    method RemoveIndex(index: int)
      requires Valid() && 0 <= index < count
      modifies this, keys, values
      ensures Valid() && View() == Removed(old(View()), index)
    {
      ghost var k0, v0 := keys[..], values[..];
      size := size - 1;
      PushBack(keys, index, capacity, None);
      PushBack(values, index, capacity, None);
      ShiftOutPacked(k0, count, index);
      ShiftOutVacant(v0, count, index);
      DistinctRemoveAt(k0[..count], index);
      count := count - 1;
    }

    /** `clear()`: every slot nulled and `size` zero. */
    method Clear()
      requires 1 <= capacity && keys.Length == capacity && values.Length == capacity
      requires keys as object != values as object
      modifies this, keys, values
      ensures Valid() && View() == State([], [], 0)
    {
      Fill(keys, None);
      Fill(values, None);
      size := 0;
      count := 0;
    }
  }

  // ----- the specification of the operations on the held entries -----

  /**
   * The private `search` as written: the index of a held key; for an
   * absent key -1, or a read past the end of the arrays when `size` is
   * above `capacity`.
   */
  ghost function Searched<K, V>(t: State<K, V>, capacity: int, key: K): (r: Result<int>)
    ensures r.Ok? ==> -1 <= r.value < |t.keys|
    ensures r.Ok? && r.value >= 0 ==> t.keys[r.value] == Some(key)
    ensures r.Ok? && r.value == -1 ==> Some(key) !in t.keys && t.size <= capacity
    ensures r.Err? <==> Some(key) !in t.keys && t.size > capacity
    ensures r.Err? ==> r.error == ArrayIndexOutOfBounds
  {
    if Some(key) in t.keys then Ok(Find(t.keys, key))
    else if t.size > capacity then Err(ArrayIndexOutOfBounds)
    else Ok(-1)
  }

  /** The entry at `i` moved to the top with `value`, the ones above it one slot down. */
  function Fronted<K, V>(t: State<K, V>, i: int, value: Option<V>): (r: State<K, V>)
    requires |t.values| == |t.keys| && 0 <= i < |t.keys|
    ensures |r.keys| == |r.values| == |t.keys| && r.size == t.size
  {
    t.(keys := [t.keys[i]] + RemoveAt(t.keys, i), values := [value] + RemoveAt(t.values, i))
  }

  /** A new key at the top after every slot shifts down one: the bottom entry is lost when all `capacity` slots are held, and `size` goes up by one regardless. */
  function Entered<K, V>(t: State<K, V>, capacity: int, key: K, value: Option<V>): (r: State<K, V>)
    requires |t.values| == |t.keys| && 1 <= capacity && |t.keys| <= capacity
    ensures |r.keys| == (if |t.keys| < capacity then |t.keys| + 1 else capacity)
    ensures r.size == t.size + 1
  {
    var m := if |t.keys| < capacity then |t.keys| else capacity - 1;
    State([Some(key)] + t.keys[..m], [value] + t.values[..m], t.size + 1)
  }

  /** The entry at `i` taken out, the ones after it one slot up, and `size` down by one. */
  function Removed<K, V>(t: State<K, V>, i: int): (r: State<K, V>)
    requires |t.values| == |t.keys| && 0 <= i < |t.keys|
    ensures |r.keys| == |r.values| == |t.keys| - 1 && r.size == t.size - 1
  {
    State(RemoveAt(t.keys, i), RemoveAt(t.values, i), t.size - 1)
  }

  /** What `get(key)` of a non-null key returns. */
  ghost function Fetched<K, V>(t: State<K, V>, capacity: int, key: K): Result<Option<V>>
  {
    match Searched(t, capacity, key)
    case Err(e) => Err(e)
    case Ok(i) => Ok(if 0 <= i < |t.values| then t.values[i] else None)
  }

  /** The entries after `get(key)` of a non-null key: a held key moves to the top. */
  ghost function Read<K, V>(t: State<K, V>, capacity: int, key: K): State<K, V>
    requires |t.values| == |t.keys|
  {
    match Searched(t, capacity, key)
    case Ok(i) => if 0 <= i then Fronted(t, i, t.values[i]) else t
    case Err(_) => t
  }

  /** The entries after `put` of a non-null key: a held key moves to the top with the value, a new one enters at the top. */
  ghost function Stored<K, V>(t: State<K, V>, capacity: int, key: K, value: Option<V>): State<K, V>
    requires |t.values| == |t.keys| && 1 <= capacity && |t.keys| <= capacity
  {
    match Searched(t, capacity, key)
    case Ok(i) => if 0 <= i then Fronted(t, i, value) else Entered(t, capacity, key, value)
    case Err(_) => t
  }

  /** The entries after `remove(key)` of a non-null key. */
  ghost function Dropped<K, V>(t: State<K, V>, capacity: int, key: K): State<K, V>
    requires |t.values| == |t.keys|
  {
    match Searched(t, capacity, key)
    case Ok(i) => if 0 <= i then Removed(t, i) else t
    case Err(_) => t
  }

  /** The new-key branch of `put` as evidently intended: `size` grows only while below `capacity`. */
  function EnteredCapped<K, V>(t: State<K, V>, capacity: int, key: K, value: Option<V>): (r: State<K, V>)
    requires |t.values| == |t.keys| && 1 <= capacity && |t.keys| <= capacity
    ensures |r.keys| == (if |t.keys| < capacity then |t.keys| + 1 else capacity)
  {
    var m := if |t.keys| < capacity then |t.keys| else capacity - 1;
    State([Some(key)] + t.keys[..m], [value] + t.values[..m], if t.size < capacity then t.size + 1 else t.size)
  }

  // ----- facts -----

  /** Moving a held entry to the top keeps the keys distinct and leaves the other entries in their order. */
  lemma FrontedOrder<K, V>(t: State<K, V>, i: int, value: Option<V>)
    requires |t.values| == |t.keys| && 0 <= i < |t.keys| && Distinct(t.keys)
    ensures var r := Fronted(t, i, value);
      Distinct(r.keys) && r.keys[0] == t.keys[i] && r.values[0] == value &&
      r.keys[1..] == RemoveAt(t.keys, i) && r.values[1..] == RemoveAt(t.values, i)
  {
    DistinctToFront(t.keys, i);
  }

  /** Moving a held entry to the top keeps every key mapped to its value, the moved one to the new value. */
  lemma FrontedLookup<K, V>(t: State<K, V>, i: int, value: Option<V>, key: K)
    requires |t.values| == |t.keys| && 0 <= i < |t.keys| && Distinct(t.keys) && t.keys[i].Some?
    ensures var r := Fronted(t, i, value);
      (Some(key) in r.keys <==> Some(key) in t.keys) &&
      Lookup(r.keys, r.values, key) == (if t.keys[i] == Some(key) then value else Lookup(t.keys, t.values, key))
  {
    var r := Fronted(t, i, value);
    DistinctToFront(t.keys, i);
    var at := Find(t.keys, key);
    if 0 <= at {
      var a := if at == i then 0 else if at < i then at + 1 else at;
      assert r.keys[a] == t.keys[at];
      LookupAt(r.keys, r.values, a);
      LookupAt(t.keys, t.values, at);
    } else {
      forall a | 0 <= a < |r.keys|
        ensures r.keys[a] != Some(key)
      {
        if a > 0 {
          assert r.keys[a] == t.keys[if a - 1 < i then a - 1 else a];
        }
      }
    }
  }

  /**
   * `put` of a new key puts it at the top with its value, keeps the keys
   * distinct, and keeps every other entry except the bottom one when all
   * `capacity` slots were held.
   */
  lemma EnteredKeeps<K, V>(t: State<K, V>, capacity: int, key: K, value: Option<V>, other: K)
    requires |t.values| == |t.keys| && 1 <= capacity && |t.keys| <= capacity
    requires Distinct(t.keys) && Some(key) !in t.keys && other != key
    ensures var r := Entered(t, capacity, key, value);
      Distinct(r.keys) && r.keys[0] == Some(key) && Lookup(r.keys, r.values, key) == value &&
      (|t.keys| < capacity || Find(t.keys, other) != capacity - 1 ==>
        Lookup(r.keys, r.values, other) == Lookup(t.keys, t.values, other))
  {
    var r := Entered(t, capacity, key, value);
    var m := if |t.keys| < capacity then |t.keys| else capacity - 1;
    DistinctNewTop(t.keys, Some(key), m);
    LookupAt(r.keys, r.values, 0);
    var at := Find(t.keys, other);
    if 0 <= at && at < m {
      assert r.keys[at + 1] == t.keys[at];
      LookupAt(r.keys, r.values, at + 1);
      LookupAt(t.keys, t.values, at);
    } else if at < 0 {
      assert forall x :: x in t.keys[..m] ==> x in t.keys;
    }
  }

  /** Removing a held entry keeps the keys distinct and every other key mapped to its value. */
  lemma RemovedKeeps<K, V>(t: State<K, V>, i: int, key: K)
    requires |t.values| == |t.keys| && 0 <= i < |t.keys| && Distinct(t.keys) && t.keys[i] != Some(key)
    ensures var r := Removed(t, i);
      Distinct(r.keys) && t.keys[i] !in r.keys &&
      Lookup(r.keys, r.values, key) == Lookup(t.keys, t.values, key)
  {
    var r := Removed(t, i);
    DistinctRemoveAt(t.keys, i);
    var at := Find(t.keys, key);
    if 0 <= at {
      var a := if at < i then at else at - 1;
      assert r.keys[a] == t.keys[at];
      LookupAt(r.keys, r.values, a);
      LookupAt(t.keys, t.values, at);
    } else {
      assert forall x :: x in r.keys ==> x in t.keys;
    }
  }

  /**
   * As written, a cache of capacity 1 that is given keys 1 and 2 has
   * `size` 2 with one entry held; looking up key 3 then reads past the end
   * of the arrays, and removing key 2 leaves no entry but `size` 1.
   */
  lemma SizeDrift()
    ensures var t0: State<int, int> := State([], [], 0);
      var t1 := Stored(t0, 1, 1, Some(10));
      var t2 := Stored(t1, 1, 2, Some(20));
      t2 == State([Some(2)], [Some(20)], 2) &&
      Searched(t2, 1, 3) == Err(ArrayIndexOutOfBounds) &&
      Dropped(t2, 1, 2) == State([], [], 1)
  {
    var t0: State<int, int> := State([], [], 0);
    assert Searched(t0, 1, 1) == Ok(-1);
    var t1 := Stored(t0, 1, 1, Some(10));
    assert t1 == State([Some(1)], [Some(10)], 1);
    assert Searched(t1, 1, 2) == Ok(-1);
    var t2 := Stored(t1, 1, 2, Some(20));
    assert t2 == State([Some(2)], [Some(20)], 2);
    assert Searched(t2, 1, 2) == Ok(0);
  }

  /**
   * With `size` grown only while below `capacity`, `size` stays equal to
   * the number of entries held, and the search never reads past the end
   * of the arrays.
   */
  lemma CappedKeepsSize<K, V>(t: State<K, V>, capacity: int, key: K, value: Option<V>, probe: K)
    requires |t.values| == |t.keys| && 1 <= capacity && |t.keys| <= capacity && t.size == |t.keys|
    ensures Searched(t, capacity, probe).Ok?
    ensures var r := EnteredCapped(t, capacity, key, value); r.size == |r.keys| <= capacity
  {
  }

  /** The key array of the new-key branch of `put`: every slot shifted down one and `x` written at the top; one more key held unless all slots were. */
  method ShiftInKeys<T>(a: array<Option<T>>, ghost n: int, x: Option<T>)
    requires 1 <= a.Length && Packed(a[..], n) && x.Some?
    modifies a
    ensures var m := if n < a.Length then n else a.Length - 1;
      Packed(a[..], m + 1) && a[..m + 1] == [x] + old(a[..n])[..m]
  {
    ghost var s := a[..];
    PushFront(a, a.Length - 1, x);
    RemoveAtLast(s);
  }

  /** The value array of the new-key branch of `put`: every slot shifted down one and `x` written at the top; the later slots stay empty. */
  method ShiftInValues<T>(a: array<Option<T>>, ghost n: int, x: Option<T>)
    requires 1 <= a.Length && Vacant(a[..], n)
    modifies a
    ensures var m := if n < a.Length then n else a.Length - 1;
      Vacant(a[..], m + 1) && a[..m + 1] == [x] + old(a[..n])[..m]
  {
    ghost var s := a[..];
    PushFront(a, a.Length - 1, x);
    RemoveAtLast(s);
  }

  /** Closing the gap at a held slot and nulling the last one keeps the keys packed, one fewer held. */
  lemma ShiftOutPacked<T>(s: seq<Option<T>>, n: int, i: int)
    requires Packed(s, n) && 0 <= i < n
    ensures var r := RemoveAt(s[..|s|], i) + [None] + s[|s|..];
      Packed(r, n - 1) && r[..n - 1] == RemoveAt(s[..n], i)
  {
    assert s[..|s|] == s && s[|s|..] == [];
  }

  /** Closing the gap at a held slot and nulling the last one keeps the later value slots empty. */
  lemma ShiftOutVacant<T>(s: seq<Option<T>>, n: int, i: int)
    requires Vacant(s, n) && 0 <= i < n
    ensures var r := RemoveAt(s[..|s|], i) + [None] + s[|s|..];
      Vacant(r, n - 1) && r[..n - 1] == RemoveAt(s[..n], i)
  {
    assert s[..|s|] == s && s[|s|..] == [];
  }
}
