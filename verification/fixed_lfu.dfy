/**
 * `fixed/LFUCache`: entries packed into a prefix, meant to be kept in
 * non-increasing frequency order with the most frequently used at index 0.
 * `get(key)` and `put` of a held key add one to the entry's frequency; a new
 * key is written with frequency 1 in the slot after the occupied ones, or
 * over the bottom entry when the cache is full; both end with `sort()`.
 *
 * `sort()` rearranges the occupied slots only when some frequency is above
 * the top one (`Sorted`), so frequencies can stay out of order, and the
 * bottom entry a full cache drops is then not the least frequently used
 * one. `get(int)` and `remove(key)` move keys and values but not the
 * frequencies, so entries take over other entries' frequencies.
 */
module FixedLfu {
  import opened Cache
  import opened Slots
  import opened Reorder
  import opened StableOrder

  class LFUCache<K(==), V> {
    var size: int
    const capacity: int
    const keys: array<Option<K>>
    const values: array<Option<V>>
    const frequencies: array<int>

    /** The occupied key slots, top first. */
    ghost function Keys(): seq<Option<K>>
      reads this, keys
      requires 0 <= size <= keys.Length
    {
      keys[..size]
    }

    /** The occupied value slots, aligned with `Keys()`. */
    ghost function Values(): seq<Option<V>>
      reads this, values
      requires 0 <= size <= values.Length
    {
      values[..size]
    }

    /** The frequencies of the occupied slots. */
    ghost function Frequencies(): seq<int>
      reads this, frequencies
      requires 0 <= size <= frequencies.Length
    {
      frequencies[..size]
    }

    /** The three views together. */
    ghost function Table(): Ranked<K, V>
      reads this, keys, values, frequencies
      requires 0 <= size <= keys.Length && size <= values.Length && size <= frequencies.Length
    {
      Ranked(Keys(), Values(), Frequencies())
    }

    /**
     * The layout: distinct non-null keys fill the first `size` slots, every
     * later key and value slot is null. No order of the frequencies is
     * kept (see `SortSkipsDisorder`).
     */
    ghost predicate Valid()
      reads this, keys, values, frequencies
    {
      1 <= capacity && keys.Length == capacity && values.Length == capacity && frequencies.Length == capacity &&
      keys as object != values as object &&
      0 <= size <= capacity &&
      Packed(keys[..], size) && Vacant(values[..], size) &&
      Distinct(keys[..size])
    }

    /** The constructor: a capacity below one is refused. */
    static method Create(capacity: int) returns (r: Result<LFUCache<K, V>>)
      ensures r.Err? <==> capacity < 1
      ensures r.Err? ==> r.error == IllegalArgument
      ensures r.Ok? ==> fresh(r.value) && fresh(r.value.keys) && fresh(r.value.values) && fresh(r.value.frequencies)
      ensures r.Ok? ==> r.value.Valid() && r.value.Keys() == [] && r.value.capacity == capacity
    {
      if capacity < 1 {
        return Err(IllegalArgument);
      }
      var c := new LFUCache(capacity);
      return Ok(c);
    }

    /** A fresh cache is empty. */
    constructor(capacity: int)
      requires 1 <= capacity
      ensures Valid() && fresh(keys) && fresh(values) && fresh(frequencies) && Keys() == []
      ensures this.capacity == capacity
    {
      size := 0;
      this.capacity := capacity;
      keys := new Option<K>[capacity](_ => None);
      values := new Option<V>[capacity](_ => None);
      frequencies := new int[capacity](_ => 0);
      new;
      Clear();
    }

    /** `isEmpty()`: true exactly when no entry is held. */
    method IsEmpty() returns (empty: bool)
      requires Valid()
      ensures empty <==> Keys() == []
    {
      return size == 0;
    }

    /** `has(key)`: a null key is refused by `indexOf`; otherwise whether the key is held. */
    method Has(key: Option<K>) returns (r: Result<bool>)
      requires Valid()
      ensures r.Err? <==> key.None?
      ensures r.Err? ==> r.error == IllegalArgument
      ensures r.Ok? ==> (r.value <==> key in Keys())
    {
      if key.None? {
        return Err(IllegalArgument);
      }
      var index := IndexOf(key.value);
      return Ok(index != -1);
    }

    /** The private `indexOf`: the position of the key among the occupied slots, or -1. */
    method IndexOf(key: K) returns (index: int)
      requires Valid()
      ensures index == Find(Keys(), key)
      ensures index == -1 <==> Some(key) !in Keys()
    {
      index := IndexIn(keys, 0, size, key);
      assert keys[0..size] == Keys();
    }

    /**
     * The private `sort()`: with two or more entries, the stable order by
     * descending frequency is computed, and the slots are rearranged in
     * that order only if some frequency is above the top one.
     */
    method Sort()
      requires Valid()
      modifies keys, values, frequencies
      ensures Valid() && Table() == Sorted(old(Table()))
    {
      if size < 2 {
        return;
      }
      var order := Order(frequencies[..size], size);
      if !AnyAbove(frequencies[..size], frequencies[0]) {
        return;
      }
      OrderPermutes(frequencies[..size], size);
      Rearrange(order);
    }

    /** The copying part of `sort()`: slot `i` takes the key, value and frequency of slot `order[i]` of a snapshot. */
    method Rearrange(order: seq<int>)
      requires Valid() && |order| == size && InRange(order, size) && Distinct(order)
      modifies keys, values, frequencies
      ensures Valid() && Table() == Permuted(old(Table()), order)
    {
      var ks, vs, ps := keys[..size], values[..size], frequencies[..size];
      ghost var k0, v0 := keys[..], values[..];
      Gather(keys, ks, order);
      Gather(values, vs, order);
      Gather(frequencies, ps, order);
      assert keys[..size] == Permute(ks, order) && keys[size..] == k0[size..];
      VacantSuffix(v0, values[..], size);
      PermuteDistinct(ks, order);
    }

    /**
     * The private `get(int)`: the value at an occupied index; the keys and
     * values above it move down one and it goes to the top, while the
     * frequencies stay where they are.
     */
    method GetIndex(index: int) returns (value: Option<V>)
      requires Valid() && 0 <= index < size
      modifies keys, values
      ensures Valid() && value == old(Values())[index]
      ensures Table() == Fronted(old(Table()), index)
    {
      ghost var k0, v0 := keys[..], values[..];
      var key := keys[index];
      value := values[index];
      PushFront(keys, index, key);
      PushFront(values, index, value);
      FrontMovePacked(k0, index, size, key);
      FrontMoveVacant(v0, index, size, value);
      DistinctToFront(k0[..size], index);
    }

    /** `peekTop()`: the top value, or null when empty; the read goes through `get(0)`. */
    method PeekTop() returns (value: Option<V>)
      requires Valid()
      modifies keys, values
      ensures Valid() && value == Top(old(Values()))
      ensures Table() == old(Table())
    {
      if keys[0].None? {
        return None;
      }
      value := GetIndex(0);
      assert Fronted(old(Table()), 0) == old(Table());
    }

    /** `peekBottom()`: the bottom value through `get(size - 1)`; on an empty cache the read of slot -1 fails. */
    method PeekBottom() returns (r: Result<Option<V>>)
      requires Valid()
      modifies keys, values
      ensures Valid()
      ensures old(size) == 0 ==> r == Err(ArrayIndexOutOfBounds) && Table() == old(Table())
      ensures old(size) > 0 ==> r == Ok(Bottom(old(Values()))) && Table() == Fronted(old(Table()), old(size) - 1)
    {
      if size == 0 {
        return Err(ArrayIndexOutOfBounds);
      }
      var value := GetIndex(size - 1);
      return Ok(value);
    }

    /** `elementTop()`: like `peekTop()`, but an empty cache has no such element. */
    method ElementTop() returns (r: Result<Option<V>>)
      requires Valid()
      modifies keys, values
      ensures Valid() && r == Element(old(Values()), true, NoSuchElement)
      ensures Table() == old(Table())
    {
      if keys[0].None? {
        return Err(NoSuchElement);
      }
      var value := GetIndex(0);
      assert Fronted(old(Table()), 0) == old(Table());
      return Ok(value);
    }

    /** `elementBottom()`: like `peekBottom()`; the read of slot -1 fails before the emptiness check. */
    method ElementBottom() returns (r: Result<Option<V>>)
      requires Valid()
      modifies keys, values
      ensures Valid()
      ensures old(size) == 0 ==> r == Err(ArrayIndexOutOfBounds) && Table() == old(Table())
      ensures old(size) > 0 ==> r == Element(old(Values()), false, NoSuchElement) && Table() == Fronted(old(Table()), old(size) - 1)
    {
      if size == 0 {
        return Err(ArrayIndexOutOfBounds);
      }
      var value := GetIndex(size - 1);
      return Ok(value);
    }

    /** `popTop()`: the top value, taken out through `remove(keys[0])`; null when empty. */
    method PopTop() returns (value: Option<V>)
      requires Valid()
      modifies this, keys, values, frequencies
      ensures Valid() && value == Top(old(Values()))
      ensures old(size) == 0 ==> Table() == old(Table())
      ensures old(size) > 0 ==> Table() == RemovedAsWritten(old(Table()), 0)
    {
      if keys[0].None? {
        return None;
      }
      value := values[0];
      LookupAt(Keys(), Values(), 0);
      Drop(keys[0].value);
    }

    /** `popBottom()`: the bottom value, taken out through `remove(keys[size - 1])`; on an empty cache the read of slot -1 fails. */
    method PopBottom() returns (r: Result<Option<V>>)
      requires Valid()
      modifies this, keys, values, frequencies
      ensures Valid()
      ensures old(size) == 0 ==> r == Err(ArrayIndexOutOfBounds) && Table() == old(Table())
      ensures old(size) > 0 ==> r == Ok(Bottom(old(Values()))) && Table() == RemovedAsWritten(old(Table()), old(size) - 1)
    {
      if size == 0 {
        return Err(ArrayIndexOutOfBounds);
      }
      var value := values[size - 1];
      LookupAt(Keys(), Values(), size - 1);
      Drop(keys[size - 1].value);
      return Ok(value);
    }

    /** `pollTop()`: like `popTop()`, but an empty cache has no such element. */
    method PollTop() returns (r: Result<Option<V>>)
      requires Valid()
      modifies this, keys, values, frequencies
      ensures Valid() && r == Element(old(Values()), true, NoSuchElement)
      ensures old(size) == 0 ==> Table() == old(Table())
      ensures old(size) > 0 ==> Table() == RemovedAsWritten(old(Table()), 0)
    {
      if keys[0].None? {
        return Err(NoSuchElement);
      }
      var value := values[0];
      LookupAt(Keys(), Values(), 0);
      Drop(keys[0].value);
      return Ok(value);
    }

    /** `pollBottom()`: like `popBottom()`; the read of slot -1 fails before the emptiness check. */
    method PollBottom() returns (r: Result<Option<V>>)
      requires Valid()
      modifies this, keys, values, frequencies
      ensures Valid()
      ensures old(size) == 0 ==> r == Err(ArrayIndexOutOfBounds) && Table() == old(Table())
      ensures old(size) > 0 ==> r == Element(old(Values()), false, NoSuchElement) && Table() == RemovedAsWritten(old(Table()), old(size) - 1)
    {
      if size == 0 {
        return Err(ArrayIndexOutOfBounds);
      }
      var value := values[size - 1];
      LookupAt(Keys(), Values(), size - 1);
      Drop(keys[size - 1].value);
      return Ok(value);
    }

    /** `get(key)`: a null key is refused; a held key's value is returned and its frequency counted; an absent key reads as null. */
    method Get(key: Option<K>) returns (r: Result<Option<V>>)
      requires Valid()
      modifies keys, values, frequencies
      ensures Valid()
      ensures key.None? ==> r == Err(IllegalArgument) && Table() == old(Table())
      ensures key.Some? ==> r == Ok(Lookup(old(Keys()), old(Values()), key.value))
      ensures key.Some? ==> Table() == Read(old(Table()), key.value)
    {
      if key.None? {
        return Err(IllegalArgument);
      }
      var index := IndexOf(key.value);
      if index < 0 {
        return Ok(None);
      }
      var value := values[index];
      Count(index);
      return Ok(value);
    }

    /** `get(key, defaultValue)`: `get(key)`, with null replaced by the default. */
    method GetOrDefault(key: Option<K>, defaultValue: Option<V>) returns (r: Result<Option<V>>)
      requires Valid()
      modifies keys, values, frequencies
      ensures Valid()
      ensures key.None? ==> r == Err(IllegalArgument) && Table() == old(Table())
      ensures key.Some? ==> r == Ok(OrDefault(Lookup(old(Keys()), old(Values()), key.value), defaultValue))
      ensures key.Some? ==> Table() == Read(old(Table()), key.value)
    {
      r := Get(key);
      if r.Ok? {
        r := Ok(OrDefault(r.value, defaultValue));
      }
    }

    /** The step `get(key)` and `put` of a held key end with: the frequency at `index` up by one, then `sort()`. */
    method Count(index: int)
      requires Valid() && 0 <= index < size
      modifies keys, values, frequencies
      ensures Valid() && Table() == Counted(old(Table()), index)
    {
      frequencies[index] := frequencies[index] + 1;
      assert Table() == old(Table()).(ranks := Raised(old(Frequencies()), index));
      Sort();
    }

    /** `put(key, value)`: a null key is refused; otherwise the slots become what `Stored` describes. */
    method Put(key: Option<K>, value: Option<V>) returns (r: Result<()>)
      requires Valid()
      modifies this, keys, values, frequencies
      ensures Valid()
      ensures r.Err? <==> key.None?
      ensures r.Err? ==> r.error == IllegalArgument && Table() == old(Table())
      ensures r.Ok? ==> Table() == Stored(old(Table()), capacity, key.value, value)
    {
      if key.None? {
        return Err(IllegalArgument);
      }
      var index := IndexOf(key.value);
      assert Table() == old(Table());
      if index >= 0 {
        values[index] := value;
        assert values[..] == values[..size] + values[size..];
        assert Table() == old(Table()).(values := old(Values())[index := value]);
        Count(index);
      } else {
        Place(key, value);
        Sort();
      }
      return Ok(());
    }

    /** The new-key branch of `put` before `sort()`: one more slot unless full, and the entry written with frequency 1 in the last one. */
    method Place(key: Option<K>, value: Option<V>)
      requires Valid() && key.Some? && key !in Keys()
      modifies this, keys, values, frequencies
      ensures Valid()
      ensures var m := if old(size) < capacity then old(size) else capacity - 1;
        Table() == Ranked(old(Keys())[..m] + [key], old(Values())[..m] + [value], old(Frequencies())[..m] + [1])
    {
      if size < capacity {
        Grow(key, value);
      } else {
        Overwrite(key, value);
      }
    }

    /** The new entry written with frequency 1 in the slot after the occupied ones. */
    method Grow(key: Option<K>, value: Option<V>)
      requires Valid() && key.Some? && key !in Keys() && size < capacity
      modifies this, keys, values, frequencies
      ensures Valid() && size == old(size) + 1
      ensures Table() == Ranked(old(Keys()) + [key], old(Values()) + [value], old(Frequencies()) + [1])
    {
      ghost var k0, v0, p0 := keys[..], values[..], frequencies[..];
      size := size + 1;
      keys[size - 1] := key;
      values[size - 1] := value;
      frequencies[size - 1] := 1;
      GrowPacked(k0, size - 1, key);
      GrowVacant(v0, size - 1, value);
      GrowPrefix(p0, size - 1, 1);
      DistinctSnocNew(k0[..size - 1], key);
    }

    /** The new entry written with frequency 1 over the bottom entry of a full cache. */
    method Overwrite(key: Option<K>, value: Option<V>)
      requires Valid() && key.Some? && key !in Keys() && size == capacity
      modifies keys, values, frequencies
      ensures Valid()
      ensures Table() == Ranked(old(Keys())[..size - 1] + [key], old(Values())[..size - 1] + [value], old(Frequencies())[..size - 1] + [1])
    {
      ghost var k0, v0, p0 := Keys(), Values(), Frequencies();
      DistinctReplace(k0, size - 1, key);
      keys[size - 1] := key;
      values[size - 1] := value;
      frequencies[size - 1] := 1;
      assert Keys() == k0[size - 1 := key] == k0[..size - 1] + [key];
      assert Values() == v0[size - 1 := value] == v0[..size - 1] + [value];
      assert Frequencies() == p0[size - 1 := 1] == p0[..size - 1] + [1];
    }

    /** `remove(key)`: a null key is refused; otherwise the slots become what `Dropped` describes. */
    method Remove(key: Option<K>) returns (r: Result<()>)
      requires Valid()
      modifies this, keys, values, frequencies
      ensures Valid()
      ensures r.Err? <==> key.None?
      ensures r.Err? ==> r.error == IllegalArgument && Table() == old(Table())
      ensures r.Ok? ==> Table() == Dropped(old(Table()), key.value)
    {
      if key.None? {
        return Err(IllegalArgument);
      }
      Drop(key.value);
      return Ok(());
    }

    /**
     * `remove(key)` of a non-null key: when held, the keys and values after
     * it move one slot towards the top, while the frequencies stay where
     * they are and only the last occupied one is cleared.
     */
    method Drop(key: K)
      requires Valid()
      modifies this, keys, values, frequencies
      ensures Valid() && Table() == Dropped(old(Table()), key)
    {
      var index := IndexOf(key);
      if index >= 0 {
        RemoveIndex(index);
      }
    }

    /** The shifting part of `remove(key)`, for the held key's index. */
    method RemoveIndex(index: int)
      requires Valid() && 0 <= index < size
      modifies this, keys, values, frequencies
      ensures Valid() && Table() == RemovedAsWritten(old(Table()), index)
    {
      ghost var k0, v0, p0 := keys[..], values[..], Frequencies();
      size := size - 1;
      PushBack(keys, index, size + 1, None);
      PushBack(values, index, size + 1, None);
      frequencies[size] := 0;
      PushBackPacked(k0, index, size + 1);
      PushBackVacant(v0, index, size + 1);
      DistinctRemoveAt(k0[..size + 1], index);
      assert Frequencies() == p0[..size];
    }

    /** `clear()`: every key and value slot nulled and size zero; the frequencies are left as they are. */
    method Clear()
      requires 1 <= capacity && keys.Length == capacity && values.Length == capacity && frequencies.Length == capacity
      requires keys as object != values as object
      modifies this, keys, values
      ensures Valid() && Table() == Ranked([], [], [])
    {
      Fill(keys, None);
      Fill(values, None);
      size := 0;
    }
  }

  // ----- the specification of the operations on the occupied slots -----

  /** The slots read in the order `o`: slot `a` takes the entry of slot `o[a]`. */
  function Permuted<K, V>(t: Ranked<K, V>, o: seq<int>): (r: Ranked<K, V>)
    requires t.Aligned() && InRange(o, |t.keys|)
    ensures r.Aligned() && |r.keys| == |o|
  {
    Ranked(Permute(t.keys, o), Permute(t.values, o), Permute(t.ranks, o))
  }

  /**
   * The slots after `sort()` as written: unchanged with fewer than two
   * entries or when no frequency is above the top one; otherwise in the
   * stable order by descending frequency.
   */
  function Sorted<K, V>(t: Ranked<K, V>): (r: Ranked<K, V>)
    requires t.Aligned()
    ensures r.Aligned() && |r.keys| == |t.keys|
  {
    if |t.keys| < 2 || !AnyAbove(t.ranks, t.ranks[0]) then t
    else Permuted(t, Order(t.ranks, |t.ranks|))
  }

  /** The slots after `sort()` as evidently intended: always in the stable order by descending frequency. */
  function Ordered<K, V>(t: Ranked<K, V>): (r: Ranked<K, V>)
    requires t.Aligned()
    ensures r.Aligned() && |r.keys| == |t.keys|
  {
    Permuted(t, Order(t.ranks, |t.ranks|))
  }

  /** One more use of the entry at `i`, then `sort()`. */
  function Counted<K, V>(t: Ranked<K, V>, i: int): (r: Ranked<K, V>)
    requires t.Aligned() && 0 <= i < |t.keys|
    ensures r.Aligned() && |r.keys| == |t.keys|
  {
    Sorted(t.(ranks := Raised(t.ranks, i)))
  }

  /** The slots after `get(i)` as written: the key and value at `i` go to the top, the frequencies do not move. */
  function Fronted<K, V>(t: Ranked<K, V>, i: int): (r: Ranked<K, V>)
    requires t.Aligned() && 0 <= i < |t.keys|
    ensures r.Aligned() && |r.keys| == |t.keys|
  {
    Ranked([t.keys[i]] + RemoveAt(t.keys, i), [t.values[i]] + RemoveAt(t.values, i), t.ranks)
  }

  /** The slots after `get(i)` as evidently intended: the whole entry, frequency included, goes to the top. */
  function FrontedWithRank<K, V>(t: Ranked<K, V>, i: int): (r: Ranked<K, V>)
    requires t.Aligned() && 0 <= i < |t.keys|
    ensures r.Aligned() && |r.keys| == |t.keys|
  {
    Ranked([t.keys[i]] + RemoveAt(t.keys, i), [t.values[i]] + RemoveAt(t.values, i), [t.ranks[i]] + RemoveAt(t.ranks, i))
  }

  /** The slots after `get(key)` of a non-null key: a held key is counted, an absent one changes nothing. */
  ghost function Read<K, V>(t: Ranked<K, V>, key: K): Ranked<K, V>
    requires t.Aligned()
  {
    var at := Find(t.keys, key);
    if at < 0 then t else Counted(t, at)
  }

  /**
   * The slots after `put` of the non-null `key`: a held key gets the value
   * and one more use; a new key is written with frequency 1 after the
   * occupied slots, over the bottom entry when the cache is full; either
   * is then sorted.
   */
  ghost function Stored<K, V>(t: Ranked<K, V>, capacity: int, key: K, value: Option<V>): Ranked<K, V>
    requires t.Aligned() && 1 <= capacity && |t.keys| <= capacity
  {
    var at := Find(t.keys, key);
    if 0 <= at then Counted(t.(values := t.values[at := value]), at)
    else
      var m := if |t.keys| < capacity then |t.keys| else capacity - 1;
      Sorted(Ranked(t.keys[..m] + [Some(key)], t.values[..m] + [value], t.ranks[..m] + [1]))
  }

  /** The slots after `remove(key)` of a non-null key. */
  ghost function Dropped<K, V>(t: Ranked<K, V>, key: K): Ranked<K, V>
    requires t.Aligned()
  {
    var at := Find(t.keys, key);
    if at < 0 then t else RemovedAsWritten(t, at)
  }

  /** Entries of equal rank in `r` keep the order they had in `t`. */
  ghost predicate KeepsTies<K, V>(t: Ranked<K, V>, r: Ranked<K, V>)
    requires t.Aligned() && r.Aligned()
  {
    forall a, b {:trigger Rank(r.ranks, a), Rank(r.ranks, b)} ::
      0 <= a < b < |r.keys| && Rank(r.ranks, a) == Rank(r.ranks, b) && r.keys[a].Some? && r.keys[b].Some? ==>
        Find(t.keys, r.keys[a].value) < Find(t.keys, r.keys[b].value)
  }

  // ----- facts -----

  /**
   * Rearranging the slots along an order that holds every index once keeps
   * the keys distinct and occupied, and every key keeps its value and its
   * frequency.
   */
  lemma PermutedKeeps<K, V>(t: Ranked<K, V>, o: seq<int>, key: K)
    requires t.Aligned() && Distinct(t.keys) && Packed(t.keys, |t.keys|)
    requires |o| == |t.keys| && InRange(o, |t.keys|) && Distinct(o)
    requires forall j :: 0 <= j < |t.keys| ==> j in o
    ensures var r := Permuted(t, o);
      Distinct(r.keys) && Packed(r.keys, |r.keys|) &&
      (Some(key) in r.keys <==> Some(key) in t.keys) &&
      Lookup(r.keys, r.values, key) == Lookup(t.keys, t.values, key) &&
      RankOf(r, key) == RankOf(t, key)
  {
    var r := Permuted(t, o);
    PermuteDistinct(t.keys, o);
    var at := Find(t.keys, key);
    if 0 <= at {
      assert at in o;
      var a :| 0 <= a < |o| && o[a] == at;
      assert r.keys[a] == Some(key);
      LookupAt(r.keys, r.values, a);
    } else {
      assert forall a :: 0 <= a < |r.keys| ==> r.keys[a] == t.keys[o[a]];
    }
  }

  /** `sort()` keeps the keys distinct and occupied, and every key keeps its value and its frequency. */
  lemma SortedKeeps<K, V>(t: Ranked<K, V>, key: K)
    requires t.Aligned() && Distinct(t.keys) && Packed(t.keys, |t.keys|)
    ensures var r := Sorted(t);
      Distinct(r.keys) && Packed(r.keys, |r.keys|) &&
      (Some(key) in r.keys <==> Some(key) in t.keys) &&
      Lookup(r.keys, r.values, key) == Lookup(t.keys, t.values, key) &&
      RankOf(r, key) == RankOf(t, key)
  {
    OrderPermutes(t.ranks, |t.ranks|);
    PermutedKeeps(t, Order(t.ranks, |t.ranks|), key);
  }

  /**
   * One more use of a held key followed by `sort()` keeps the keys distinct
   * and occupied, the key with its value and one more use counted, and
   * every other key with its value and its frequency.
   */
  lemma CountedKeeps<K, V>(t: Ranked<K, V>, i: int, other: K)
    requires t.Aligned() && 0 <= i < |t.keys| && Distinct(t.keys) && Packed(t.keys, |t.keys|)
    ensures var r := Counted(t, i);
      Distinct(r.keys) && Packed(r.keys, |r.keys|) && Some(t.keys[i].value) in r.keys &&
      Lookup(r.keys, r.values, t.keys[i].value) == t.values[i] &&
      RankOf(r, t.keys[i].value) == t.ranks[i] + 1 &&
      (Some(other) != t.keys[i] ==> SameEntry(r, t, other))
  {
    var w := t.(ranks := Raised(t.ranks, i));
    var key := t.keys[i].value;
    SortedKeeps(w, key);
    LookupAt(w.keys, w.values, i);
    if Some(other) != t.keys[i] {
      SortedKeeps(w, other);
      AssignedKeeps(t, i, t.values[i], t.ranks[i] + 1, other);
      assert t.values[i := t.values[i]] == t.values;
    }
  }

  /**
   * `get(key)` on a held key counts one more use of it and keeps its value;
   * an absent key changes nothing. Every other key keeps its value and its
   * frequency.
   */
  lemma ReadKeeps<K, V>(t: Ranked<K, V>, key: K, other: K)
    requires t.Aligned() && Distinct(t.keys) && Packed(t.keys, |t.keys|)
    ensures var r := Read(t, key);
      Distinct(r.keys) && Packed(r.keys, |r.keys|) && |r.keys| == |t.keys| &&
      Lookup(r.keys, r.values, key) == Lookup(t.keys, t.values, key) &&
      RankOf(r, key) == (if Some(key) in t.keys then RankOf(t, key) + 1 else 0) &&
      (other != key ==> SameEntry(r, t, other))
  {
    var at := Find(t.keys, key);
    if 0 <= at {
      CountedKeeps(t, at, other);
      LookupAt(t.keys, t.values, at);
    }
  }

  /**
   * `put` keeps the keys distinct and occupied, grows the size only for a
   * new key on a cache with room, maps the key to the value with one more
   * use counted for a held key and a frequency of 1 for a new one. Every
   * other key keeps its value and its frequency, except that a new key put
   * into a full cache evicts the entry in the bottom slot.
   */
  lemma StoredKeeps<K, V>(t: Ranked<K, V>, capacity: int, key: K, value: Option<V>, other: K)
    requires t.Aligned() && 1 <= capacity && |t.keys| <= capacity
    requires Distinct(t.keys) && Packed(t.keys, |t.keys|)
    ensures var r := Stored(t, capacity, key, value);
      Distinct(r.keys) && Packed(r.keys, |r.keys|) &&
      |r.keys| == (if Some(key) in t.keys || |t.keys| == capacity then |t.keys| else |t.keys| + 1) &&
      Lookup(r.keys, r.values, key) == value &&
      RankOf(r, key) == (if Some(key) in t.keys then RankOf(t, key) + 1 else 1)
    ensures var r := Stored(t, capacity, key, value);
      other != key ==>
        if Some(key) !in t.keys && |t.keys| == capacity && t.keys[capacity - 1] == Some(other) then Some(other) !in r.keys
        else SameEntry(r, t, other)
  {
    var at := Find(t.keys, key);
    if 0 <= at {
      var u := t.(values := t.values[at := value]);
      CountedKeeps(u, at, other);
      if other != key {
        AssignedKeeps(t, at, value, t.ranks[at], other);
        assert t.ranks[at := t.ranks[at]] == t.ranks;
      }
    } else {
      var m := if |t.keys| < capacity then |t.keys| else capacity - 1;
      var u := Ranked(t.keys[..m] + [Some(key)], t.values[..m] + [value], t.ranks[..m] + [1]);
      PlacedKeeps(t, capacity, key, value, 1, other);
      assert Packed(u.keys, |u.keys|);
      LookupAt(u.keys, u.values, m);
      SortedKeeps(u, key);
      SortedKeeps(u, other);
    }
  }

  /**
   * The evidently intended `sort()` leaves the frequencies in
   * non-increasing order and entries of equal frequency in their old
   * order; as written, `sort()` does the same whenever some frequency is
   * above the top one.
   */
  lemma OrderedSorts<K, V>(t: Ranked<K, V>)
    requires t.Aligned() && Distinct(t.keys) && Packed(t.keys, |t.keys|)
    ensures NonIncreasing(Ordered(t).ranks) && KeepsTies(t, Ordered(t))
    ensures |t.keys| >= 2 && AnyAbove(t.ranks, t.ranks[0]) ==> Sorted(t) == Ordered(t)
  {
    var n := |t.ranks|;
    var o := Order(t.ranks, n);
    var r := Ordered(t);
    OrderSorted(t.ranks, n);
    forall a, b | 0 <= a < b < n
      ensures Rank(r.ranks, a) >= Rank(r.ranks, b)
      ensures Rank(r.ranks, a) == Rank(r.ranks, b) ==> Find(t.keys, r.keys[a].value) < Find(t.keys, r.keys[b].value)
    {
      assert At(t.ranks, o, a) >= At(t.ranks, o, b);
      LookupAt(t.keys, t.values, o[a]);
      LookupAt(t.keys, t.values, o[b]);
    }
  }

  /** Frequencies already in non-increasing order are left as they are by the intended `sort()`. */
  lemma OrderedIdentity<K, V>(t: Ranked<K, V>)
    requires t.Aligned() && NonIncreasing(t.ranks)
    ensures Ordered(t) == t
  {
    var n := |t.ranks|;
    forall a, b | 0 <= a < b < n
      ensures t.ranks[a] >= t.ranks[b]
    {
      assert Rank(t.ranks, a) >= Rank(t.ranks, b);
    }
    OrderIdentity(t.ranks, n);
  }

  /**
   * As written, `sort()` leaves the frequencies 5, 3, 4 out of order, and a
   * full cache then drops the entry of frequency 4 for a new key while the
   * one of frequency 3 stays.
   */
  lemma SortSkipsDisorder()
    ensures var t := Ranked([Some(1), Some(2), Some(3)], [Some(10), Some(20), Some(30)], [5, 3, 4]);
      Sorted(t) == t && !NonIncreasing(t.ranks) &&
      Stored(t, 3, 4, Some(40)).keys == [Some(1), Some(2), Some(4)]
  {
    var t := Ranked([Some(1), Some(2), Some(3)], [Some(10), Some(20), Some(30)], [5, 3, 4]);
    assert Rank(t.ranks, 1) < Rank(t.ranks, 2);
    assert !AnyAbove(t.ranks, 5);
    assert Find(t.keys, 4) == -1;
    var u := Ranked([Some(1), Some(2), Some(4)], [Some(10), Some(20), Some(40)], [5, 3, 1]);
    assert !AnyAbove(u.ranks, 5);
    assert t.keys[..2] + [Some(4)] == u.keys && t.values[..2] + [Some(40)] == u.values && t.ranks[..2] + [1] == u.ranks;
  }

  /**
   * As written, peeking at the bottom of a cache holding `1` (frequency 5)
   * and `2` (frequency 1) moves `2` to the top, where it takes over
   * frequency 5.
   */
  lemma FrontedGainsRank()
    ensures var t := Ranked([Some(1), Some(2)], [Some(10), Some(20)], [5, 1]);
      RankOf(t, 2) == 1 && RankOf(Fronted(t, 1), 2) == 5
  {
    var t := Ranked([Some(1), Some(2)], [Some(10), Some(20)], [5, 1]);
    assert Find(t.keys, 2) == 1;
    assert Fronted(t, 1).keys == [Some(2), Some(1)];
    assert Find(Fronted(t, 1).keys, 2) == 0;
  }

  /** Moving the whole entry to the top keeps every key's value and frequency. */
  lemma FrontedWithRankKeeps<K, V>(t: Ranked<K, V>, i: int, key: K)
    requires t.Aligned() && 0 <= i < |t.keys| && Distinct(t.keys) && Packed(t.keys, |t.keys|)
    ensures var r := FrontedWithRank(t, i);
      Distinct(r.keys) &&
      Lookup(r.keys, r.values, key) == Lookup(t.keys, t.values, key) &&
      RankOf(r, key) == RankOf(t, key)
  {
    var r := FrontedWithRank(t, i);
    DistinctToFront(t.keys, i);
    var at := Find(t.keys, key);
    if 0 <= at {
      var a := if at == i then 0 else if at < i then at + 1 else at;
      assert r.keys[a] == t.keys[at] && r.values[a] == t.values[at] && r.ranks[a] == t.ranks[at];
      LookupAt(r.keys, r.values, a);
    } else {
      forall a | 0 <= a < |r.keys|
        ensures r.keys[a] != Some(key)
      {
        if a > 0 {
          assert r.keys[a] == t.keys[if a - 1 < i then a - 1 else a];
        }
      }
    }
  }
}
