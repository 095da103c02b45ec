/**
 * `fixed/MRUCache`: the held entries fill the suffix `[capacity - size,
 * capacity)` of the arrays, the top at `capacity - size` and the most
 * recently used at `capacity - 1`. `get` and `put` of a held key move the
 * entry to `capacity - 1`; a new key is written there after every slot
 * shifts one step toward index 0, so a full cache loses the entry at index
 * 0, the least recently used one. `remove` shifts the slots above the gap
 * down one and empties slot 0.
 *
 * The top peeks read `keys[capacity - size]`, which is `keys[capacity]`,
 * out of bounds, on an empty cache; they and the bottom peeks go through
 * the private `get(int)`, which moves the entry to the bottom.
 */
module FixedMru {
  import opened Cache
  import opened Slots
  import opened Recency

  /** Empty slots below `start`, held slots from `start` on: the layout of the key array. */
  predicate Settled<T>(s: seq<Option<T>>, start: int)
  {
    0 <= start <= |s| &&
    (forall i :: 0 <= i < start ==> s[i].None?) &&
    (forall i :: start <= i < |s| ==> s[i].Some?)
  }

  /** Empty slots below `start`: the layout of the value array (a held value may be null). */
  predicate Blank<T>(s: seq<Option<T>>, start: int)
  {
    0 <= start <= |s| && forall i :: 0 <= i < start ==> s[i].None?
  }

  /**
   * The old `MRUCache`, despite its name, evicts the least recently used
   * entry: reads and puts move an entry to the bottom, and a full cache
   * drops the top one (`EvictsLeastRecent`).
   */
  class MRUCache<K(==), V> {
    var size: int
    const capacity: int
    const keys: array<Option<K>>
    const values: array<Option<V>>

    /** The held entries, top first. */
    ghost function View(): Entries<K, V>
      reads this, keys, values
      requires 0 <= capacity - size <= keys.Length && capacity - size <= values.Length
    {
      Entries(keys[capacity - size..], values[capacity - size..])
    }

    /**
     * The layout: empty slots below `capacity - size`, distinct non-null
     * keys from there to the end.
     */
    ghost predicate Valid()
      reads this, keys, values
    {
      1 <= capacity && keys.Length == capacity && values.Length == capacity &&
      keys as object != values as object &&
      0 <= size <= capacity &&
      Settled(keys[..], capacity - size) && Blank(values[..], capacity - size) &&
      Distinct(keys[capacity - size..])
    }

    /** The constructor: a capacity below one is refused. */
    static method Create(capacity: int) returns (r: Result<MRUCache<K, V>>)
      ensures r.Err? <==> capacity < 1
      ensures r.Err? ==> r.error == IllegalArgument
      ensures r.Ok? ==> fresh(r.value) && r.value.Valid() && r.value.View() == Entries([], []) && r.value.capacity == capacity
    {
      if capacity < 1 {
        return Err(IllegalArgument);
      }
      var c := new MRUCache(capacity);
      return Ok(c);
    }

    /** Allocates both arrays, empty. */
    constructor (capacity: int)
      requires 1 <= capacity
      ensures Valid() && View() == Entries([], []) && this.capacity == capacity
      ensures fresh(keys) && fresh(values)
    {
      this.capacity := capacity;
      keys := new Option<K>[capacity](_ => None);
      values := new Option<V>[capacity](_ => None);
      size := 0;
    }

    /** `isEmpty()`: exactly when no entry is held. */
    method IsEmpty() returns (empty: bool)
      requires Valid()
      ensures empty <==> View().keys == []
    {
      return size == 0;
    }

    /** `has(key)`: a null key is refused by `indexOf`; otherwise whether the key is held. */
    method Has(key: Option<K>) returns (r: Result<bool>)
      requires Valid()
      ensures key.None? <==> r.Err?
      ensures r.Err? ==> r.error == IllegalArgument
      ensures r.Ok? ==> (r.value <==> key in View().keys)
    {
      if key.None? {
        return Err(IllegalArgument);
      }
      var index := IndexOf(key.value);
      return Ok(index != -1);
    }

    /** The private `indexOf`: the array index of the key among the held slots, or -1. */
    method IndexOf(key: K) returns (index: int)
      requires Valid()
      ensures index == -1 <==> Some(key) !in View().keys
      ensures index != -1 ==> index == capacity - size + Find(View().keys, key)
    {
      index := IndexIn(keys, capacity - size, capacity, key);
      assert keys[capacity - size..capacity] == View().keys;
      if index != -1 {
        assert keys[capacity - size..index] == View().keys[..index - (capacity - size)];
      }
    }

    /** `peekTop()`: the top value, moved to the bottom by `get(int)`; an empty cache reads `keys[capacity]`. */
    method PeekTop() returns (r: Result<Option<V>>)
      requires Valid()
      modifies keys, values
      ensures Valid()
      ensures old(size) == 0 ==> r == Err(ArrayIndexOutOfBounds) && View() == old(View())
      ensures old(size) > 0 ==>
        r == Ok(Top(old(View()).values)) && View() == Backed(old(View()), 0, Top(old(View()).values))
    {
      if size == 0 {
        return Err(ArrayIndexOutOfBounds);
      }
      var value := GetIndex(capacity - size);
      return Ok(value);
    }

    /** `peekBottom()`: the bottom value, read through `get(int)`, which leaves it where it is; null when empty. */
    method PeekBottom() returns (value: Option<V>)
      requires Valid()
      modifies keys, values
      ensures Valid() && View() == old(View())
      ensures value == Bottom(old(View()).values)
    {
      if keys[capacity - 1].None? {
        return None;
      }
      ghost var t := View();
      value := GetIndex(capacity - 1);
      BackedLast(t);
    }

    /** `elementTop()`: like `peekTop()`; the read of `keys[capacity]` fails before any check for emptiness. */
    method ElementTop() returns (r: Result<Option<V>>)
      requires Valid()
      modifies keys, values
      ensures Valid()
      ensures old(size) == 0 ==> r == Err(ArrayIndexOutOfBounds) && View() == old(View())
      ensures old(size) > 0 ==>
        r == Element(old(View()).values, true, NoSuchElement) && View() == Backed(old(View()), 0, Top(old(View()).values))
    {
      if size == 0 {
        return Err(ArrayIndexOutOfBounds);
      }
      var value := GetIndex(capacity - size);
      return Ok(value);
    }

    /** `elementBottom()`: like `peekBottom()`, but an empty cache has no such element. */
    method ElementBottom() returns (r: Result<Option<V>>)
      requires Valid()
      modifies keys, values
      ensures Valid() && View() == old(View())
      ensures r == Element(old(View()).values, false, NoSuchElement)
    {
      if keys[capacity - 1].None? {
        return Err(NoSuchElement);
      }
      ghost var t := View();
      var value := GetIndex(capacity - 1);
      BackedLast(t);
      return Ok(value);
    }

    /** `popTop()`: the top value, taken out through `remove`; an empty cache reads `keys[capacity]`. */
    method PopTop() returns (r: Result<Option<V>>)
      requires Valid()
      modifies this, keys, values
      ensures Valid()
      ensures old(size) == 0 ==> r == Err(ArrayIndexOutOfBounds) && View() == old(View())
      ensures old(size) > 0 ==> r == Ok(Top(old(View()).values)) && View() == Removed(old(View()), 0)
    {
      if size == 0 {
        return Err(ArrayIndexOutOfBounds);
      }
      var value := values[capacity - size];
      LookupAt(View().keys, View().values, 0);
      var _ := Remove(keys[capacity - size]);
      return Ok(value);
    }

    /** `popBottom()`: the bottom value, taken out through `remove`; null when empty. */
    method PopBottom() returns (value: Option<V>)
      requires Valid()
      modifies this, keys, values
      ensures Valid() && value == Bottom(old(View()).values)
      ensures old(size) == 0 ==> View() == old(View())
      ensures old(size) > 0 ==> View() == Removed(old(View()), old(size) - 1)
    {
      if keys[capacity - 1].None? {
        return None;
      }
      value := values[capacity - 1];
      LookupAt(View().keys, View().values, size - 1);
      var _ := Remove(keys[capacity - 1]);
    }

    /** `pollTop()`: like `popTop()`; the read of `keys[capacity]` fails before any check for emptiness. */
    method PollTop() returns (r: Result<Option<V>>)
      requires Valid()
      modifies this, keys, values
      ensures Valid()
      ensures old(size) == 0 ==> r == Err(ArrayIndexOutOfBounds) && View() == old(View())
      ensures old(size) > 0 ==> r == Element(old(View()).values, true, NoSuchElement) && View() == Removed(old(View()), 0)
    {
      if size == 0 {
        return Err(ArrayIndexOutOfBounds);
      }
      var value := values[capacity - size];
      LookupAt(View().keys, View().values, 0);
      var _ := Remove(keys[capacity - size]);
      return Ok(value);
    }

    /** `pollBottom()`: like `popBottom()`, but an empty cache has no such element. */
    method PollBottom() returns (r: Result<Option<V>>)
      requires Valid()
      modifies this, keys, values
      ensures Valid() && r == Element(old(View()).values, false, NoSuchElement)
      ensures old(size) == 0 ==> View() == old(View())
      ensures old(size) > 0 ==> View() == Removed(old(View()), old(size) - 1)
    {
      if keys[capacity - 1].None? {
        return Err(NoSuchElement);
      }
      var value := values[capacity - 1];
      LookupAt(View().keys, View().values, size - 1);
      var _ := Remove(keys[capacity - 1]);
      return Ok(value);
    }

    /** `get(key)`: a null key is refused; a held key's value is returned and the entry moved to the bottom; an absent key reads as null. */
    method Get(key: Option<K>) returns (r: Result<Option<V>>)
      requires Valid()
      modifies keys, values
      ensures Valid()
      ensures key.None? ==> r == Err(IllegalArgument) && View() == old(View())
      ensures key.Some? ==> r == Ok(Lookup(old(View()).keys, old(View()).values, key.value)) && View() == Read(old(View()), key.value)
    {
      if key.None? {
        return Err(IllegalArgument);
      }
      var value := GetKey(key.value);
      return Ok(value);
    }

    /** The non-null branch of `get(key)`: a held key's entry moved to the bottom, its value returned; a miss gives null. */
    method GetKey(key: K) returns (value: Option<V>)
      requires Valid()
      modifies keys, values
      ensures Valid()
      ensures value == Lookup(old(View()).keys, old(View()).values, key) && View() == Read(old(View()), key)
    {
      var index := IndexOf(key);
      ghost var t := View();
      if index < 0 {
        return None;
      }
      ghost var j := index - (capacity - size);
      value := values[index];
      assert value == t.values[j];
      MoveBack(index, value);
    }

    /** `get(key, defaultValue)`: the default in place of a null result. */
    method GetOrDefault(key: Option<K>, defaultValue: Option<V>) returns (r: Result<Option<V>>)
      requires Valid()
      modifies keys, values
      ensures Valid()
      ensures key.None? ==> r == Err(IllegalArgument) && View() == old(View())
      ensures key.Some? ==>
        r == Ok(OrDefault(Lookup(old(View()).keys, old(View()).values, key.value), defaultValue)) &&
        View() == Read(old(View()), key.value)
    {
      r := Get(key);
      if r.Ok? {
        r := Ok(OrDefault(r.value, defaultValue));
      }
    }

    /** `put(key, value)`: a null key is refused; otherwise the pair ends at the bottom. */
    method Put(key: Option<K>, value: Option<V>) returns (r: Result<()>)
      requires Valid()
      modifies this, keys, values
      ensures Valid()
      ensures key.None? ==> r == Err(IllegalArgument) && View() == old(View())
      ensures key.Some? ==> r == Ok(()) && View() == Stored(old(View()), capacity, key.value, value)
    {
      if key.None? {
        return Err(IllegalArgument);
      }
      var index := IndexOf(key.value);
      ghost var t := View();
      if index >= 0 {
        MoveBack(index, value);
      } else {
        Enter(key, value);
      }
      assert View() == Stored(t, capacity, key.value, value);
      return Ok(());
    }

    /** `remove(key)`: a null key is refused; a held key's entry is taken out. */
    method Remove(key: Option<K>) returns (r: Result<()>)
      requires Valid()
      modifies this, keys, values
      ensures Valid()
      ensures key.None? ==> r == Err(IllegalArgument) && View() == old(View())
      ensures key.Some? ==> r == Ok(()) && View() == Dropped(old(View()), key.value)
    {
      if key.None? {
        return Err(IllegalArgument);
      }
      var index := IndexOf(key.value);
      if index >= 0 {
        Close(index);
      }
      return Ok(());
    }

    /** `clear()`: every slot emptied and `size` zero. */
    method Clear()
      requires Valid()
      modifies this, keys, values
      ensures Valid() && View() == Entries([], [])
    {
      Fill(keys, None);
      Fill(values, None);
      size := 0;
    }

    /** The private `get(int)`: the value at a held index, whose entry moves to the bottom. */
    method GetIndex(index: int) returns (value: Option<V>)
      requires Valid() && capacity - size <= index < capacity
      modifies keys, values
      ensures Valid() && value == old(values[index])
      ensures View() == Backed(old(View()), index - (capacity - size), value)
    {
      value := values[index];
      MoveBack(index, value);
    }

    /** The shift toward index 0 above `index`, then the entry written at `capacity - 1` with `value`. */
    method MoveBack(index: int, value: Option<V>)
      requires Valid() && capacity - size <= index < capacity
      modifies keys, values
      ensures Valid() && View() == Backed(old(View()), index - (capacity - size), value)
    {
      ghost var k0, v0 := keys[..], values[..];
      ghost var start := capacity - size;
      var key := keys[index];
      PushLast(keys, index, key);
      PushLast(values, index, value);
      BackLayout(k0, v0, start, index, value);
      assert keys[start..] == keys[..][start..] && values[start..] == values[..][start..];
    }

    /** The new-key branch of `put`: `size` up unless full, every slot shifted toward index 0, the pair written at `capacity - 1`. */
    method Enter(key: Option<K>, value: Option<V>)
      requires Valid() && key.Some? && key !in View().keys
      modifies this, keys, values
      ensures Valid() && View() == Entered(old(View()), capacity, key.value, value)
    {
      ghost var t := View();
      ghost var k0, v0 := keys[..], values[..];
      ghost var start := capacity - size;
      if size < capacity {
        size := size + 1;
      }
      PushLast(keys, 0, key);
      PushLast(values, 0, value);
      ShiftInSettled(k0, start, key);
      ShiftInBlank(v0, start, value);
      if start == 0 {
        DistinctRemoveAt(t.keys, 0);
        assert key !in RemoveAt(t.keys, 0);
        DistinctSnocNew(RemoveAt(t.keys, 0), key);
      } else {
        DistinctSnocNew(t.keys, key);
      }
    }

    /** The gap-closing part of `remove`: `size` down, the slots below `index` shifted up one, slot 0 emptied. */
    method Close(index: int)
      requires Valid() && capacity - size <= index < capacity
      modifies this, keys, values
      ensures Valid() && View() == Removed(old(View()), index - (capacity - old(size)))
    {
      ghost var t := View();
      ghost var k0, v0 := keys[..], values[..];
      ghost var start := capacity - size;
      if size > 0 {
        size := size - 1;
      }
      PushFront(keys, index, None);
      PushFront(values, index, None);
      ShiftOutSettled(k0, start, index);
      ShiftOutBlank(v0, start, index);
      DistinctRemoveAt(t.keys, index - start);
    }
  }

  // ----- the specification of the operations on the held entries -----

  /** A new key at the bottom; when all `capacity` slots are held the top entry is lost first. */
  function Entered<K, V>(t: Entries<K, V>, capacity: int, key: K, value: Option<V>): (r: Entries<K, V>)
    requires t.Aligned() && 1 <= capacity && |t.keys| <= capacity
    ensures r.Aligned() && |r.keys| == (if |t.keys| < capacity then |t.keys| + 1 else |t.keys|)
  {
    if |t.keys| < capacity then Appended(t, key, value) else Appended(Removed(t, 0), key, value)
  }

  /** `put(key, value)`: a held key moves to the bottom with the new value; a new key enters. */
  ghost function Stored<K, V>(t: Entries<K, V>, capacity: int, key: K, value: Option<V>): Entries<K, V>
    requires t.Aligned() && 1 <= capacity && |t.keys| <= capacity
  {
    var j := Find(t.keys, key);
    if 0 <= j then Backed(t, j, value) else Entered(t, capacity, key, value)
  }

  // ----- facts -----

  /**
   * `put` keeps the keys distinct and at most `capacity` of them, leaves
   * the key at the bottom mapped to `value`, and every other key with its
   * value, except that a new key put into a full cache evicts the top
   * entry, the one least recently placed or read.
   */
  lemma StoredKeeps<K, V>(t: Entries<K, V>, capacity: int, key: K, value: Option<V>, other: K)
    requires t.Aligned() && 1 <= capacity && |t.keys| <= capacity && Distinct(t.keys)
    ensures var r := Stored(t, capacity, key, value);
      r.Aligned() && Distinct(r.keys) && 1 <= |r.keys| <= capacity &&
      r.keys[|r.keys| - 1] == Some(key) && Lookup(r.keys, r.values, key) == value &&
      (other != key ==>
        Lookup(r.keys, r.values, other) ==
        (if Some(key) !in t.keys && |t.keys| == capacity && t.keys[0] == Some(other) then None
         else Lookup(t.keys, t.values, other)))
  {
    var j := Find(t.keys, key);
    var r := Stored(t, capacity, key, value);
    if 0 <= j {
      BackedKeeps(t, j, value, key);
      BackedKeeps(t, j, value, other);
    } else if |t.keys| < capacity {
      AppendedKeeps(t, key, value, other);
    } else {
      var s := Removed(t, 0);
      RemovedKeeps(t, 0, other);
      assert Some(key) !in s.keys by {
        assert forall x :: x in s.keys ==> x in t.keys;
      }
      AppendedKeeps(s, key, value, other);
    }
  }

  /**
   * A cache of capacity 2 given keys 1 and 2, then asked for key 1 and
   * given key 3, holds keys 1 and 3: key 2, the least recently used, is
   * the one dropped, not key 1, the most recently used.
   */
  lemma EvictsLeastRecent()
    ensures var t0: Entries<int, int> := Entries([], []);
      var t1 := Stored(t0, 2, 1, Some(10));
      var t2 := Stored(t1, 2, 2, Some(20));
      var t3 := Read(t2, 1);
      var t4 := Stored(t3, 2, 3, Some(30));
      t4 == Entries([Some(1), Some(3)], [Some(10), Some(30)])
  {
    var t0: Entries<int, int> := Entries([], []);
    var t1 := Stored(t0, 2, 1, Some(10));
    assert t1 == Entries([Some(1)], [Some(10)]);
    assert Find(t1.keys, 2) == -1;
    var t2 := Stored(t1, 2, 2, Some(20));
    assert t2 == Entries([Some(1), Some(2)], [Some(10), Some(20)]);
    assert Find(t2.keys, 1) == 0;
    var t3 := Read(t2, 1);
    assert t3 == Entries([Some(2), Some(1)], [Some(20), Some(10)]);
    assert Find(t3.keys, 3) == -1;
  }

  /** Moving the held slot `idx` to the end keeps the key layout; the held slots lose slot `idx` and gain `x` last. */
  lemma BackSettled<T>(s: seq<Option<T>>, start: int, idx: int, x: Option<T>)
    requires Settled(s, start) && start <= idx < |s| && x.Some?
    ensures var r := RemoveAt(s, idx) + [x];
      Settled(r, start) && r[start..] == RemoveAt(s[start..], idx - start) + [x]
  {
  }

  /**
   * Moving the held slot `idx` to the end of both arrays keeps the layout
   * and moves the entry to the bottom of the held ones, with `value`.
   */
  lemma BackLayout<K, V>(ks: seq<Option<K>>, vs: seq<Option<V>>, start: int, idx: int, value: Option<V>)
    requires Settled(ks, start) && Blank(vs, start) && |vs| == |ks| && Distinct(ks[start..]) && start <= idx < |ks|
    ensures var ks', vs' := RemoveAt(ks, idx) + [ks[idx]], RemoveAt(vs, idx) + [value];
      Settled(ks', start) && Blank(vs', start) && Distinct(ks'[start..]) &&
      Entries(ks'[start..], vs'[start..]) == Backed(Entries(ks[start..], vs[start..]), idx - start, value)
  {
    BackSettled(ks, start, idx, ks[idx]);
    BackBlank(vs, start, idx, value);
    assert ks[start..][idx - start] == ks[idx];
    DistinctToBack(ks[start..], idx - start);
  }

  /** The same move on the value array keeps the slots below `start` empty. */
  lemma BackBlank<T>(s: seq<Option<T>>, start: int, idx: int, x: Option<T>)
    requires Blank(s, start) && start <= idx < |s|
    ensures var r := RemoveAt(s, idx) + [x];
      Blank(r, start) && r[start..] == RemoveAt(s[start..], idx - start) + [x]
  {
  }

  /**
   * Shifting every slot toward index 0 and writing `x` last: one slot more
   * is held unless all were, in which case the first held slot is lost.
   */
  lemma ShiftInSettled<T>(s: seq<Option<T>>, start: int, x: Option<T>)
    requires Settled(s, start) && 1 <= |s| && x.Some?
    ensures var r := RemoveAt(s, 0) + [x]; var start' := if start == 0 then 0 else start - 1;
      Settled(r, start') && r[start'..] == (if start == 0 then RemoveAt(s[start..], 0) else s[start..]) + [x]
  {
  }

  /** The same shift on the value array keeps the slots below the new start empty. */
  lemma ShiftInBlank<T>(s: seq<Option<T>>, start: int, x: Option<T>)
    requires Blank(s, start) && 1 <= |s|
    ensures var r := RemoveAt(s, 0) + [x]; var start' := if start == 0 then 0 else start - 1;
      Blank(r, start') && r[start'..] == (if start == 0 then RemoveAt(s[start..], 0) else s[start..]) + [x]
  {
  }

  /** Shifting the slots below the held slot `idx` up one and emptying slot 0: one slot fewer is held. */
  lemma ShiftOutSettled<T>(s: seq<Option<T>>, start: int, idx: int)
    requires Settled(s, start) && start <= idx < |s|
    ensures var r := [None] + RemoveAt(s, idx);
      Settled(r, start + 1) && r[start + 1..] == RemoveAt(s[start..], idx - start)
  {
  }

  /** The same shift on the value array keeps the slots below the new start empty. */
  lemma ShiftOutBlank<T>(s: seq<Option<T>>, start: int, idx: int)
    requires Blank(s, start) && start <= idx < |s|
    ensures var r := [None] + RemoveAt(s, idx);
      Blank(r, start + 1) && r[start + 1..] == RemoveAt(s[start..], idx - start)
  {
  }
}
