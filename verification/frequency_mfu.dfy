/**
 * `frequency/fixed/MFUCache`: entries packed into a prefix in non-decreasing
 * frequency order, the most frequently used at index `size - 1`. Every read
 * through the private `get(int)` and every `put` of a held key adds one to
 * the entry's frequency and re-sorts it by the one-way `sort(start)`; a new
 * key enters at index 0 with frequency 1, and when full the entry at the
 * bottom, the most frequently used, is dropped.
 *
 * As written, `remove(int)` closes the gap in the key and value arrays but
 * not in the frequency array, so the keys after the removed one take over
 * their left neighbours' frequencies (`RemovedAsWritten`).
 */
module FrequencyMfu {
  import opened Cache
  import opened Slots
  import opened Reorder

  class MFUCache<K(==), V> {
    var size: int
    const capacity: int
    const keys: array<Option<K>>
    const values: array<Option<V>>
    const frequencies: array<int>

    /** The occupied key slots, least frequently used first. */
    ghost function Keys(): seq<Option<K>>
      reads this, keys
      requires 0 <= size <= keys.Length
    {
      keys[..size]
    }

    /** The occupied value slots, aligned with `Keys()`. */
    ghost function Values(): seq<Option<V>>
      reads this, values
      requires 0 <= size <= values.Length
    {
      values[..size]
    }

    /** The frequencies of the occupied slots. */
    ghost function Frequencies(): seq<int>
      reads this, frequencies
      requires 0 <= size <= frequencies.Length
    {
      frequencies[..size]
    }

    /** The three views together. */
    ghost function Table(): Ranked<K, V>
      reads this, keys, values, frequencies
      requires 0 <= size <= keys.Length && size <= values.Length && size <= frequencies.Length
    {
      Ranked(Keys(), Values(), Frequencies())
    }

    /** The layout: distinct non-null keys fill the first `size` slots, every later key and value slot is null. */
    ghost predicate Sound()
      reads this, keys, values, frequencies
    {
      1 <= capacity && keys.Length == capacity && values.Length == capacity && frequencies.Length == capacity &&
      keys as object != values as object &&
      0 <= size <= capacity &&
      Packed(keys[..], size) && Vacant(values[..], size) &&
      Distinct(keys[..size])
    }

    /** The layout, with the frequencies in non-decreasing order. */
    ghost predicate Valid()
      reads this, keys, values, frequencies
    {
      Sound() && NonDecreasing(Frequencies())
    }

    /** The constructor: a capacity below one is refused. */
    static method Create(capacity: int) returns (r: Result<MFUCache<K, V>>)
      ensures r.Err? <==> capacity < 1
      ensures r.Err? ==> r.error == IllegalArgument
      ensures r.Ok? ==> fresh(r.value) && fresh(r.value.keys) && fresh(r.value.values) && fresh(r.value.frequencies)
      ensures r.Ok? ==> r.value.Valid() && r.value.Keys() == [] && r.value.capacity == capacity
    {
      if capacity < 1 {
        return Err(IllegalArgument);
      }
      var c := new MFUCache(capacity);
      return Ok(c);
    }

    /** A fresh cache is empty. */
    constructor(capacity: int)
      requires 1 <= capacity
      ensures Valid() && fresh(keys) && fresh(values) && fresh(frequencies) && Keys() == []
      ensures this.capacity == capacity
    {
      size := 0;
      this.capacity := capacity;
      keys := new Option<K>[capacity](_ => None);
      values := new Option<V>[capacity](_ => None);
      frequencies := new int[capacity](_ => 0);
      new;
      Clear();
    }

    /** `isEmpty()`: true exactly when no entry is held. */
    method IsEmpty() returns (empty: bool)
      requires Valid()
      ensures empty <==> Keys() == []
    {
      return size == 0;
    }

    /** `has(key)`: a null key is refused by `indexOf`; otherwise whether the key is held. */
    method Has(key: Option<K>) returns (r: Result<bool>)
      requires Valid()
      ensures r.Err? <==> key.None?
      ensures r.Err? ==> r.error == IllegalArgument
      ensures r.Ok? ==> (r.value <==> key in Keys())
    {
      if key.None? {
        return Err(IllegalArgument);
      }
      var index := IndexOf(key.value);
      return Ok(index != -1);
    }

    /** The private `indexOf`: the position of the key among the occupied slots, or -1. */
    method IndexOf(key: K) returns (index: int)
      requires Valid()
      ensures index == Find(Keys(), key)
      ensures index == -1 <==> Some(key) !in Keys()
    {
      index := IndexIn(keys, 0, size, key);
      assert keys[0..size] == Keys();
    }

    /**
     * The private `sort(start)`, called with every frequency but the one at
     * `start` in order and that one not below its left neighbour: the entry
     * is carried right past every neighbour whose frequency is not greater.
     */
    method Sort(start: int)
      requires Sound() && 0 <= start < size && NonDecreasing(RemoveAt(Frequencies(), start))
      requires start == 0 || frequencies[start - 1] <= frequencies[start]
      modifies keys, values, frequencies
      ensures Valid()
      ensures Table() == Sunk(old(Table()), start)
    {
      ghost var k0, v0 := keys[..], values[..];
      ghost var to := Sink(keys, values, frequencies, size, start);
      PackedMoveTo(k0, size, start, to);
      assert keys[..] == keys[..size] + keys[size..];
      assert values[..][size..] == values[size..];
      VacantSuffix(v0, values[..], size);
      DistinctMoveTo(old(Keys()), start, to);
      AdvancedKeepsOrder(old(Frequencies()), start, to);
      SinkTargetUnique(old(Frequencies()), start, to);
    }

    /** The private `get(int)`: the value at an occupied index, whose frequency goes up by one before it is re-sorted. */
    method GetIndex(index: int) returns (value: Option<V>)
      requires Valid() && 0 <= index < size
      modifies keys, values, frequencies
      ensures Valid() && value == old(Values())[index]
      ensures Table() == Used(old(Table()), index)
    {
      value := values[index];
      Touch(index);
    }

    /** The two steps `get(int)` and `put` of a held key end with: one more use of the entry at `index`, then `sort(index)`. */
    method Touch(index: int)
      requires Valid() && 0 <= index < size
      modifies keys, values, frequencies
      ensures Valid() && Table() == Used(old(Table()), index)
    {
      ghost var p0 := Frequencies();
      frequencies[index] := frequencies[index] + 1;
      assert Frequencies() == Raised(p0, index);
      RemoveAtUpdate(p0, index, p0[index] + 1);
      RemoveAtNonDecreasing(p0, index);
      assert index > 0 ==> Rank(p0, index - 1) <= Rank(p0, index);
      Sort(index);
    }

    /**
     * The private `remove(int)`: the keys and values after `index` move one
     * slot towards the top, but the frequencies stay where they are and
     * only the last occupied one is cleared.
     */
    method RemoveIndex(index: int)
      requires Valid() && 0 <= index < size
      modifies this, keys, values, frequencies
      ensures Valid() && Table() == RemovedAsWritten(old(Table()), index)
    {
      ghost var k0, v0, p0 := keys[..], values[..], Frequencies();
      size := size - 1;
      PushBack(keys, index, size + 1, None);
      PushBack(values, index, size + 1, None);
      frequencies[size] := 0;
      PushBackPacked(k0, index, size + 1);
      PushBackVacant(v0, index, size + 1);
      DistinctRemoveAt(k0[..size + 1], index);
      assert Frequencies() == p0[..size];
      NonDecreasingPrefix(p0, size);
    }

    /** `peekTop()`: the top value, or null when empty; the read goes through `get(0)`. */
    method PeekTop() returns (value: Option<V>)
      requires Valid()
      modifies keys, values, frequencies
      ensures Valid() && value == Top(old(Values()))
      ensures old(size) == 0 ==> Table() == old(Table())
      ensures old(size) > 0 ==> Table() == Used(old(Table()), 0)
    {
      if keys[0].None? {
        return None;
      }
      value := GetIndex(0);
    }

    /** `peekBottom()`: the bottom value through `get(size - 1)`; on an empty cache the read of slot -1 fails. */
    method PeekBottom() returns (r: Result<Option<V>>)
      requires Valid()
      modifies keys, values, frequencies
      ensures Valid()
      ensures old(size) == 0 ==> r == Err(ArrayIndexOutOfBounds) && Table() == old(Table())
      ensures old(size) > 0 ==> r == Ok(Bottom(old(Values()))) && Table() == Used(old(Table()), old(size) - 1)
    {
      if size == 0 {
        return Err(ArrayIndexOutOfBounds);
      }
      var value := GetIndex(size - 1);
      return Ok(value);
    }

    /** `elementTop()`: like `peekTop()`, but an empty cache has no such element. */
    method ElementTop() returns (r: Result<Option<V>>)
      requires Valid()
      modifies keys, values, frequencies
      ensures Valid() && r == Element(old(Values()), true, NoSuchElement)
      ensures old(size) == 0 ==> Table() == old(Table())
      ensures old(size) > 0 ==> Table() == Used(old(Table()), 0)
    {
      if keys[0].None? {
        return Err(NoSuchElement);
      }
      var value := GetIndex(0);
      return Ok(value);
    }

    /** `elementBottom()`: like `peekBottom()`; the read of slot -1 fails before the emptiness check. */
    method ElementBottom() returns (r: Result<Option<V>>)
      requires Valid()
      modifies keys, values, frequencies
      ensures Valid()
      ensures old(size) == 0 ==> r == Err(ArrayIndexOutOfBounds) && Table() == old(Table())
      ensures old(size) > 0 ==> r == Element(old(Values()), false, NoSuchElement) && Table() == Used(old(Table()), old(size) - 1)
    {
      if size == 0 {
        return Err(ArrayIndexOutOfBounds);
      }
      var value := GetIndex(size - 1);
      return Ok(value);
    }

    /** `popTop()`: removes and returns the top value, or null when empty. */
    method PopTop() returns (value: Option<V>)
      requires Valid()
      modifies this, keys, values, frequencies
      ensures Valid() && value == Top(old(Values()))
      ensures old(size) == 0 ==> Table() == old(Table())
      ensures old(size) > 0 ==> Table() == RemovedAsWritten(old(Table()), 0)
    {
      if keys[0].None? {
        return None;
      }
      value := values[0];
      RemoveIndex(0);
    }

    /** `popBottom()`: removes and returns the bottom value; on an empty cache the read of slot -1 fails. */
    method PopBottom() returns (r: Result<Option<V>>)
      requires Valid()
      modifies this, keys, values, frequencies
      ensures Valid()
      ensures old(size) == 0 ==> r == Err(ArrayIndexOutOfBounds) && Table() == old(Table())
      ensures old(size) > 0 ==> r == Ok(Bottom(old(Values()))) && Table() == RemovedAsWritten(old(Table()), old(size) - 1)
    {
      if size == 0 {
        return Err(ArrayIndexOutOfBounds);
      }
      var value := values[size - 1];
      RemoveIndex(size - 1);
      return Ok(value);
    }

    /** `pollTop()`: like `popTop()`, but an empty cache has no such element. */
    method PollTop() returns (r: Result<Option<V>>)
      requires Valid()
      modifies this, keys, values, frequencies
      ensures Valid() && r == Element(old(Values()), true, NoSuchElement)
      ensures old(size) == 0 ==> Table() == old(Table())
      ensures old(size) > 0 ==> Table() == RemovedAsWritten(old(Table()), 0)
    {
      if keys[0].None? {
        return Err(NoSuchElement);
      }
      var value := values[0];
      RemoveIndex(0);
      return Ok(value);
    }

    /** `pollBottom()`: like `popBottom()`; the read of slot -1 fails before the emptiness check. */
    method PollBottom() returns (r: Result<Option<V>>)
      requires Valid()
      modifies this, keys, values, frequencies
      ensures Valid()
      ensures old(size) == 0 ==> r == Err(ArrayIndexOutOfBounds) && Table() == old(Table())
      ensures old(size) > 0 ==> r == Element(old(Values()), false, NoSuchElement) && Table() == RemovedAsWritten(old(Table()), old(size) - 1)
    {
      if size == 0 {
        return Err(ArrayIndexOutOfBounds);
      }
      var value := values[size - 1];
      RemoveIndex(size - 1);
      return Ok(value);
    }

    /** `get(key)`: a null key is refused; a held key is read through `get(int)`; an absent key reads as null. */
    method Get(key: Option<K>) returns (r: Result<Option<V>>)
      requires Valid()
      modifies keys, values, frequencies
      ensures Valid()
      ensures key.None? ==> r == Err(IllegalArgument) && Table() == old(Table())
      ensures key.Some? ==> r == Ok(Lookup(old(Keys()), old(Values()), key.value))
      ensures key.Some? ==> Table() == Read(old(Table()), key.value)
    {
      if key.None? {
        return Err(IllegalArgument);
      }
      var index := IndexOf(key.value);
      if index < 0 {
        return Ok(None);
      }
      assert Table() == old(Table());
      var value := GetIndex(index);
      return Ok(value);
    }

    /** `get(key, defaultValue)`: `get(key)`, with null replaced by the default. */
    method GetOrDefault(key: Option<K>, defaultValue: Option<V>) returns (r: Result<Option<V>>)
      requires Valid()
      modifies keys, values, frequencies
      ensures Valid()
      ensures key.None? ==> r == Err(IllegalArgument) && Table() == old(Table())
      ensures key.Some? ==> r == Ok(OrDefault(Lookup(old(Keys()), old(Values()), key.value), defaultValue))
      ensures key.Some? ==> Table() == Read(old(Table()), key.value)
    {
      r := Get(key);
      if r.Ok? {
        r := Ok(OrDefault(r.value, defaultValue));
      }
    }

    /** `put(key, value)`: a null key is refused; otherwise the slots become what `Stored` describes. */
    method Put(key: Option<K>, value: Option<V>) returns (r: Result<()>)
      requires Valid()
      modifies this, keys, values, frequencies
      ensures Valid()
      ensures r.Err? <==> key.None?
      ensures r.Err? ==> r.error == IllegalArgument && Table() == old(Table())
      ensures r.Ok? ==> Table() == Stored(old(Table()), capacity, key.value, value)
    {
      if key.None? {
        return Err(IllegalArgument);
      }
      var index := IndexOf(key.value);
      assert Table() == old(Table());
      if index >= 0 {
        Update(index, key, value);
      } else {
        Insert(key, value);
      }
      return Ok(());
    }

    /** The held-key branch of `put`: the new value, then one more use and a re-sort. */
    method Update(index: int, key: Option<K>, value: Option<V>)
      requires Valid() && key.Some? && 0 <= index < size && index == Find(Keys(), key.value)
      modifies keys, values, frequencies
      ensures Valid()
      ensures Table() == Stored(old(Table()), capacity, key.value, value)
    {
      ghost var v0 := Values();
      values[index] := value;
      assert values[..] == values[..size] + values[size..];
      assert Table() == old(Table()).(values := v0[index := value]);
      Touch(index);
    }

    /** The new-key branch of `put`: one more slot unless full (the bottom entry is then dropped), the entry pushed in at the front with frequency 1, and a re-sort. */
    method Insert(key: Option<K>, value: Option<V>)
      requires Valid() && key.Some? && key !in Keys()
      modifies this, keys, values, frequencies
      ensures Valid()
      ensures Table() == Stored(old(Table()), capacity, key.value, value)
    {
      ghost var m := if size < capacity then size else capacity - 1;
      NonDecreasingPrefix(Frequencies(), m);
      Enter(key, value);
      assert RemoveAt(Frequencies(), 0) == old(Frequencies())[..m];
      Sort(0);
    }

    /** The shifting part of the new-key branch: the entry with frequency 1 at the front, the kept entries after it. */
    method Enter(key: Option<K>, value: Option<V>)
      requires Sound() && key.Some? && key !in Keys()
      modifies this, keys, values, frequencies
      ensures Sound() && size == (if old(size) < capacity then old(size) + 1 else capacity)
      ensures Table() == Ranked([key] + old(Keys())[..size - 1], [value] + old(Values())[..size - 1], [1] + old(Frequencies())[..size - 1])
    {
      ghost var m := if size < capacity then size else capacity - 1;
      ghost var k0, v0, p0 := Keys(), Values(), Frequencies();
      Place(key, value);
      RemoveAtLast(k0[..m] + [key]);
      RemoveAtLast(v0[..m] + [value]);
      RemoveAtLast(p0[..m] + [1]);
      assert size - 1 == m && frequencies[m] == 1;
      Front(size - 1, key, value);
    }

    /** The new entry written with frequency 1 in the slot after the occupied ones, or over the bottom entry when full. */
    method Place(key: Option<K>, value: Option<V>)
      requires Sound() && key.Some? && key !in Keys()
      modifies this, keys, values, frequencies
      ensures Sound() && 1 <= size && key == keys[size - 1]
      ensures var m := if old(size) < capacity then old(size) else capacity - 1;
        Table() == Ranked(old(Keys())[..m] + [key], old(Values())[..m] + [value], old(Frequencies())[..m] + [1])
    {
      if size < capacity {
        Grow(key, value);
      } else {
        Overwrite(key, value);
      }
    }

    /** The new entry written with frequency 1 in the slot after the occupied ones. */
    method Grow(key: Option<K>, value: Option<V>)
      requires Sound() && key.Some? && key !in Keys() && size < capacity
      modifies this, keys, values, frequencies
      ensures Sound() && size == old(size) + 1 && key == keys[size - 1]
      ensures Table() == Ranked(old(Keys()) + [key], old(Values()) + [value], old(Frequencies()) + [1])
    {
      ghost var k0, v0, p0 := keys[..], values[..], frequencies[..];
      size := size + 1;
      keys[size - 1] := key;
      values[size - 1] := value;
      frequencies[size - 1] := 1;
      GrowPacked(k0, size - 1, key);
      GrowVacant(v0, size - 1, value);
      GrowPrefix(p0, size - 1, 1);
      DistinctSnocNew(k0[..size - 1], key);
    }

    /** The new entry written with frequency 1 over the bottom entry of a full cache. */
    method Overwrite(key: Option<K>, value: Option<V>)
      requires Sound() && key.Some? && key !in Keys() && size == capacity
      modifies keys, values, frequencies
      ensures Sound() && key == keys[size - 1]
      ensures Table() == Ranked(old(Keys())[..size - 1] + [key], old(Values())[..size - 1] + [value], old(Frequencies())[..size - 1] + [1])
    {
      ghost var k0, v0, p0 := Keys(), Values(), Frequencies();
      DistinctReplace(k0, size - 1, key);
      keys[size - 1] := key;
      values[size - 1] := value;
      frequencies[size - 1] := 1;
      assert Keys() == k0[size - 1 := key] == k0[..size - 1] + [key];
      assert Values() == v0[size - 1 := value] == v0[..size - 1] + [value];
      assert Frequencies() == p0[size - 1 := 1] == p0[..size - 1] + [1];
    }

    /** The shift loop of `put`: the entry at `index` moves to the front, the entries above it move down one. */
    method Front(index: int, key: Option<K>, value: Option<V>)
      requires Sound() && 0 <= index < size && key == keys[index] && value == values[index]
      modifies keys, values, frequencies
      ensures Sound()
      ensures Table() == Ranked([key] + RemoveAt(old(Keys()), index), [value] + RemoveAt(old(Values()), index), [old(frequencies[index])] + RemoveAt(old(Frequencies()), index))
    {
      ghost var k0, v0, p0 := keys[..], values[..], frequencies[..];
      var f := frequencies[index];
      PushFront(keys, index, key);
      PushFront(values, index, value);
      PushFront(frequencies, index, f);
      FrontMovePacked(k0, index, size, key);
      FrontMoveVacant(v0, index, size, value);
      FrontMovePrefix(p0, index, size, f);
      DistinctToFront(k0[..size], index);
    }

    /** `put(entry)`: only a basic entry is accepted; its key and value are then put. */
    method PutEntry(entry: CacheEntry<K, V>) returns (r: Result<()>)
      requires Valid()
      modifies this, keys, values, frequencies
      ensures Valid()
      ensures r.Err? <==> !entry.BasicEntry? || entry.key.None?
      ensures r.Err? ==> r.error == IllegalArgument && Table() == old(Table())
      ensures r.Ok? ==> Table() == Stored(old(Table()), capacity, entry.key.value, entry.value)
    {
      if !entry.BasicEntry? {
        return Err(IllegalArgument);
      }
      r := Put(entry.key, entry.value);
    }

    /** `remove(key)`: a null key is refused; a held key is taken out through `remove(int)`. */
    method Remove(key: Option<K>) returns (r: Result<()>)
      requires Valid()
      modifies this, keys, values, frequencies
      ensures Valid()
      ensures r.Err? <==> key.None?
      ensures r.Err? ==> r.error == IllegalArgument && Table() == old(Table())
      ensures r.Ok? ==> Table() == Dropped(old(Table()), key.value)
    {
      if key.None? {
        return Err(IllegalArgument);
      }
      var index := IndexOf(key.value);
      if index >= 0 {
        RemoveIndex(index);
      }
      return Ok(());
    }

    /** `clear()`: every slot nulled and size zero. */
    method Clear()
      requires 1 <= capacity && keys.Length == capacity && values.Length == capacity && frequencies.Length == capacity
      requires keys as object != values as object
      modifies this, keys, values, frequencies
      ensures Valid() && Table() == Ranked([], [], [])
    {
      Fill(keys, None);
      Fill(values, None);
      Fill(frequencies, 0);
      size := 0;
    }
  }

  // ----- the specification of the operations on the occupied slots -----

  /** The slots after the private `get(i)`: the frequency at `i` up by one, then the one-way sort from `i`. */
  function Used<K, V>(t: Ranked<K, V>, i: int): (r: Ranked<K, V>)
    requires t.Aligned() && 0 <= i < |t.keys|
    ensures r.Aligned() && |r.keys| == |t.keys|
  {
    Sunk(t.(ranks := Raised(t.ranks, i)), i)
  }

  /** The slots after `get(key)` of a non-null key: a held key is used, an absent one changes nothing. */
  ghost function Read<K, V>(t: Ranked<K, V>, key: K): Ranked<K, V>
    requires t.Aligned()
  {
    var at := Find(t.keys, key);
    if at < 0 then t else Used(t, at)
  }

  /**
   * The slots after `put` of the non-null `key`: a held key gets the value
   * and one more use; a new key enters at the front with frequency 1, the
   * bottom entry dropped when the cache is full; either is then re-sorted.
   */
  ghost function Stored<K, V>(t: Ranked<K, V>, capacity: int, key: K, value: Option<V>): Ranked<K, V>
    requires t.Aligned() && 1 <= capacity && |t.keys| <= capacity
  {
    var at := Find(t.keys, key);
    if 0 <= at then Used(t.(values := t.values[at := value]), at)
    else
      var m := if |t.keys| < capacity then |t.keys| else capacity - 1;
      Sunk(Ranked([Some(key)] + t.keys[..m], [value] + t.values[..m], [1] + t.ranks[..m]), 0)
  }

  /** The slots after `remove(key)` of a non-null key. */
  ghost function Dropped<K, V>(t: Ranked<K, V>, key: K): Ranked<K, V>
    requires t.Aligned()
  {
    var at := Find(t.keys, key);
    if at < 0 then t else RemovedAsWritten(t, at)
  }

  // ----- facts -----

  /**
   * A read of a held key through `get(int)` keeps the invariants, keeps
   * the same keys, leaves the key mapped to its value and counts exactly
   * one more use of it; every other key keeps its value and its frequency.
   */
  lemma UsedKeeps<K, V>(t: Ranked<K, V>, i: int)
    requires t.Aligned() && 0 <= i < |t.keys| && NonDecreasing(t.ranks)
    requires Distinct(t.keys) && Packed(t.keys, |t.keys|)
    ensures var r := Used(t, i);
      NonDecreasing(r.ranks) && Distinct(r.keys) && Packed(r.keys, |r.keys|) &&
      multiset(r.keys) == multiset(t.keys) &&
      Lookup(r.keys, r.values, t.keys[i].value) == t.values[i] &&
      RankOf(r, t.keys[i].value) == t.ranks[i] + 1
    ensures forall k :: Some(k) != t.keys[i] ==> SameEntry(Used(t, i), t, k)
  {
    var u := t.(ranks := Raised(t.ranks, i));
    assert t.values[i := t.values[i]] == t.values;
    RemoveAtUpdate(t.ranks, i, t.ranks[i] + 1);
    RemoveAtNonDecreasing(t.ranks, i);
    assert i > 0 ==> Rank(t.ranks, i - 1) <= Rank(t.ranks, i);
    SunkKeeps(u, i);
    forall k | Some(k) != t.keys[i]
      ensures SameEntry(Used(t, i), t, k)
    {
      AssignedKeeps(t, i, t.values[i], t.ranks[i] + 1, k);
      assert SameEntry(Sunk(u, i), u, k);
    }
    var to := SinkTarget(u.ranks, i);
    MoveToFacts(u.ranks, i, to);
    LookupAt(Sunk(u, i).keys, Sunk(u, i).values, to);
  }

  /**
   * `put` keeps the invariants and stores the value: the keys stay
   * distinct and occupied, the size grows only for a new key on a cache
   * with room, the key then maps to the value, and its frequency is one
   * more than before for a held key and 1 for a new one. Every other key
   * keeps its value and its frequency, except that a new key put into a
   * full cache evicts the bottom entry, the one used most often.
   */
  lemma StoredKeeps<K, V>(t: Ranked<K, V>, capacity: int, key: K, value: Option<V>, other: K)
    requires t.Aligned() && 1 <= capacity && |t.keys| <= capacity && NonDecreasing(t.ranks)
    requires Distinct(t.keys) && Packed(t.keys, |t.keys|)
    ensures var r := Stored(t, capacity, key, value);
      NonDecreasing(r.ranks) && Distinct(r.keys) && Packed(r.keys, |r.keys|) &&
      |r.keys| == (if Some(key) in t.keys || |t.keys| == capacity then |t.keys| else |t.keys| + 1) &&
      Lookup(r.keys, r.values, key) == value &&
      RankOf(r, key) == (if Some(key) in t.keys then RankOf(t, key) + 1 else 1)
    ensures var r := Stored(t, capacity, key, value);
      other != key ==>
        if Some(key) !in t.keys && |t.keys| == capacity && t.keys[capacity - 1] == Some(other) then Some(other) !in r.keys
        else SameEntry(r, t, other)
  {
    var at := Find(t.keys, key);
    if 0 <= at {
      var u := t.(values := t.values[at := value]);
      UsedKeeps(u, at);
      if other != key {
        AssignedKeeps(t, at, value, t.ranks[at], other);
        assert t.ranks[at := t.ranks[at]] == t.ranks;
      }
    } else {
      var m := if |t.keys| < capacity then |t.keys| else capacity - 1;
      var u := Ranked([Some(key)] + t.keys[..m], [value] + t.values[..m], [1] + t.ranks[..m]);
      assert RemoveAt(u.ranks, 0) == t.ranks[..m];
      NonDecreasingPrefix(t.ranks, m);
      DistinctNewFront(t.keys, Some(key), m);
      PushedKeeps(t, capacity, key, value, 1, other);
      SunkKeeps(u, 0);
      var to := SinkTarget(u.ranks, 0);
      MoveToFacts(u.ranks, 0, to);
      LookupAt(Sunk(u, 0).keys, Sunk(u, 0).values, to);
      assert SameEntry(Sunk(u, 0), u, other);
    }
  }

  /** Pushing a new key in front of distinct keys, possibly dropping the bottom one, keeps them distinct. */
  lemma DistinctNewFront<K>(ks: seq<Option<K>>, key: Option<K>, m: int)
    requires Distinct(ks) && key !in ks && 0 <= m <= |ks|
    ensures Distinct([key] + ks[..m])
  {
    assert forall x :: x in ks[..m] ==> x in ks;
  }
}
