/**
 * The oldest LRU cache, on `int` keys and values: two arrays of length
 * `capacity` in which -1 marks an empty slot. The held keys fill a prefix
 * of the key array, most recently used first, and every later key and
 * value slot holds -1. A negative key is never stored: `put` ignores it and
 * `get` answers -1 for it, the same answer as for a key that is not held.
 */
module IntLru {
  import opened Cache
  import opened Slots

  /** The mark of an empty slot, and the answer of `get` for a key that is not held. */
  const Empty := -1

  /** The two arrays as values. */
  datatype Table = Table(keys: seq<int>, values: seq<int>)

  /** The first index of `key` among all key slots, or -1: what `searchKey` returns. */
  ghost function Position(keys: seq<int>, key: int): (i: int)
    ensures -1 <= i < |keys|
    ensures i == -1 <==> key !in keys
    ensures 0 <= i ==> keys[i] == key && key !in keys[..i]
  {
    if key !in keys then -1 else FirstIndex(keys, key)
  }

  /**
   * The layout with `n` keys held: distinct non-negative keys in the first
   * `n` slots, -1 in every later key and value slot.
   */
  predicate Layout(t: Table, n: int)
  {
    |t.values| == |t.keys| && 0 <= n <= |t.keys| &&
    (forall a :: 0 <= a < n ==> t.keys[a] >= 0) &&
    (forall a :: n <= a < |t.keys| ==> t.keys[a] == Empty && t.values[a] == Empty) &&
    Distinct(t.keys[..n])
  }

  /** The value `get` answers for `key`: the value at its slot, or -1 for a negative key or one not held. */
  ghost function ValueOf(t: Table, key: int): int
  {
    var i := Position(t.keys, key);
    if key < 0 || i < 0 || |t.values| <= i then Empty else t.values[i]
  }

  /** Every slot of both arrays empty: a new or cleared cache. */
  function Cleared(capacity: nat): (r: Table)
    ensures Layout(r, 0) && |r.keys| == capacity
  {
    Table(seq(capacity, _ => Empty), seq(capacity, _ => Empty))
  }

  /** `key` and `value` written at index 0 after slots `[0, i)` shift down one; slot `i` is lost. */
  function Pushed(t: Table, i: int, key: int, value: int): (r: Table)
    requires |t.values| == |t.keys| && 0 <= i < |t.keys|
    ensures |r.keys| == |r.values| == |t.keys| && r.keys[0] == key && r.values[0] == value
  {
    Table([key] + RemoveAt(t.keys, i), [value] + RemoveAt(t.values, i))
  }

  /** `get(key)`: a held key moves to index 0 with its value; otherwise nothing changes. */
  ghost function Read(t: Table, key: int): Table
    requires |t.values| == |t.keys|
  {
    var i := Position(t.keys, key);
    if key < 0 || i < 0 then t else Pushed(t, i, key, t.values[i])
  }

  /**
   * `put(key, value)`: a negative key changes nothing; a held key moves to
   * index 0 with the new value; a new key goes to index 0 after every slot
   * shifts down one, the last slot being lost.
   */
  ghost function Stored(t: Table, key: int, value: int): Table
    requires |t.values| == |t.keys| && 1 <= |t.keys|
  {
    var i := Position(t.keys, key);
    if key < 0 then t else Pushed(t, if 0 <= i then i else |t.keys| - 1, key, value)
  }

  /** Slot `i` taken out, the later slots moved up one and -1 written into the last slot. */
  function Closed(t: Table, i: int): (r: Table)
    requires |t.values| == |t.keys| && 0 <= i < |t.keys|
    ensures |r.keys| == |r.values| == |t.keys|
    ensures r.keys[|t.keys| - 1] == Empty && r.values[|t.keys| - 1] == Empty
  {
    Table(RemoveAt(t.keys, i) + [Empty], RemoveAt(t.values, i) + [Empty])
  }

  /** `remove(key)`: the first slot holding `key`, if any, is closed up. */
  ghost function Dropped(t: Table, key: int): Table
    requires |t.values| == |t.keys|
  {
    var i := Position(t.keys, key);
    if i < 0 then t else Closed(t, i)
  }

  class LRUCache {
    const keys: array<int>
    const values: array<int>
    /** The number of keys held; the source keeps no such field. */
    ghost var count: int

    /** Both arrays. */
    ghost function View(): Table
      reads keys, values
    {
      Table(keys[..], values[..])
    }

    /** At least one slot, two separate arrays, and the layout with `count` keys held. */
    ghost predicate Valid()
      reads this, keys, values
    {
      1 <= keys.Length && keys != values && Layout(View(), count)
    }

    /** The constructor: a capacity below one is refused. */
    static method Create(capacity: int) returns (r: Result<LRUCache>)
      ensures r.Err? <==> capacity < 1
      ensures r.Err? ==> r.error == IllegalArgument
      ensures r.Ok? ==> fresh(r.value) && r.value.Valid() && r.value.View() == Cleared(capacity)
    {
      if capacity < 1 {
        return Err(IllegalArgument);
      }
      var c := new LRUCache(capacity);
      return Ok(c);
    }

    /** Allocates both arrays and fills every slot with -1. */
    constructor (capacity: int)
      requires 1 <= capacity
      ensures Valid() && View() == Cleared(capacity) && count == 0
      ensures fresh(keys) && fresh(values)
    {
      keys := new int[capacity];
      values := new int[capacity];
      count := 0;
      new;
      Fill(keys, Empty);
      Fill(values, Empty);
      assert View() == Cleared(capacity);
    }

    /** `getKeys()`: the key array itself, not a copy. */
    method GetKeys() returns (r: array<int>)
      ensures r == keys && r[..] == View().keys
    {
      return keys;
    }

    /** `getValues()`: the value array itself, not a copy. */
    method GetValues() returns (r: array<int>)
      ensures r == values && r[..] == View().values
    {
      return values;
    }

    /** `searchKey(key)`: the scan over all slots, empty ones included. */
    method SearchKey(key: int) returns (index: int)
      ensures index == Position(keys[..], key)
    {
      var i := 0;
      while i < keys.Length
        invariant 0 <= i <= keys.Length
        invariant key !in keys[..i]
      {
        if keys[i] == key {
          FirstPosition(keys[..], i, key);
          return i;
        }
        assert keys[..i + 1] == keys[..i] + [keys[i]];
        i := i + 1;
      }
      assert keys[..i] == keys[..];
      return -1;
    }

    /** `get(key)`: the value of a held key, which moves to index 0; -1 otherwise. */
    method Get(key: int) returns (value: int)
      requires Valid()
      modifies keys, values
      ensures Valid()
      ensures value == ValueOf(old(View()), key) && View() == Read(old(View()), key)
    {
      if key < 0 {
        return Empty;
      }
      var index := SearchKey(key);
      if index < 0 {
        return Empty;
      }
      PositionHeld(View(), count, key);
      value := values[index];
      Front(index, value);
    }

    /** `put(key, value)`: ignored for a negative key; otherwise the pair ends at index 0. */
    method Put(key: int, value: int)
      requires Valid()
      modifies this, keys, values
      ensures Valid() && View() == Stored(old(View()), key, value)
    {
      if key < 0 {
        return;
      }
      var index := SearchKey(key);
      if index >= 0 {
        PositionHeld(View(), count, key);
        Front(index, value);
      } else {
        Enter(key, value);
      }
    }

    /** The held-key branch of `get` and `put`: the entry at `index` moves to index 0 with `value`. */
    method Front(index: int, value: int)
      requires Valid() && 0 <= index < count
      modifies keys, values
      ensures Valid() && View() == Pushed(old(View()), index, old(keys[index]), value)
    {
      ghost var t := View();
      PushFront(keys, index, keys[index]);
      PushFront(values, index, value);
      assert View() == Pushed(t, index, t.keys[index], value);
      MovedLayout(t, count, index, value);
      assert Layout(View(), count);
    }

    /** The new-key branch of `put`: every slot shifts down one, the last being lost, and the pair goes to index 0. */
    method Enter(key: int, value: int)
      requires Valid() && 0 <= key && key !in keys[..]
      modifies this, keys, values
      ensures Valid() && View() == Pushed(old(View()), keys.Length - 1, key, value)
    {
      ghost var t := View();
      ghost var n := if count == keys.Length then count else count + 1;
      PushFront(keys, keys.Length - 1, key);
      PushFront(values, values.Length - 1, value);
      assert View() == Pushed(t, keys.Length - 1, key, value);
      EnteredLayout(t, count, key, value);
      assert Layout(View(), n);
      count := n;
    }

    /** `remove(key)`: the first slot holding `key` is closed up and -1 written last. */
    method Remove(key: int)
      requires Valid()
      modifies this, keys, values
      ensures Valid() && View() == Dropped(old(View()), key)
    {
      var index := SearchKey(key);
      if index < 0 {
        return;
      }
      Close(index);
    }

    /** The gap-closing part of `remove`: the slots after `index` move up one and -1 goes into the last slot. */
    method Close(index: int)
      requires Valid() && 0 <= index < keys.Length
      modifies this, keys, values
      ensures Valid() && View() == Closed(old(View()), index)
    {
      ghost var t := View();
      PushLast(keys, index, Empty);
      PushLast(values, index, Empty);
      assert View() == Closed(t, index);
      if index < count {
        ClosedLayout(t, count, index);
        assert Layout(View(), count - 1);
        count := count - 1;
      } else {
        ClosedEmpty(t, count, index);
      }
    }

    /** `clear()`: every slot back to -1. */
    method Clear()
      requires Valid()
      modifies this, keys, values
      ensures Valid() && View() == Cleared(keys.Length)
    {
      Fill(keys, Empty);
      Fill(values, Empty);
      count := 0;
      assert View() == Cleared(keys.Length);
    }
  }

  // ----- facts -----

  /** The scan stops at the first slot holding the key. */
  lemma FirstPosition(s: seq<int>, i: int, key: int)
    requires 0 <= i < |s| && s[i] == key && key !in s[..i]
    ensures Position(s, key) == i
  {
  }

  /** In the layout, a held key is found at its own slot and maps to the value beside it. */
  lemma ValueAt(t: Table, n: int, a: int)
    requires Layout(t, n) && 0 <= a < n
    ensures Position(t.keys, t.keys[a]) == a && ValueOf(t, t.keys[a]) == t.values[a]
  {
  }

  /** In the layout, a non-negative key is found among the held slots or nowhere. */
  lemma PositionHeld(t: Table, n: int, key: int)
    requires Layout(t, n) && 0 <= key
    ensures Position(t.keys, key) < n
  {
  }

  /** In the layout, a key not among the held slots has no value. */
  lemma NotHeld(t: Table, n: int, key: int)
    requires Layout(t, n) && key !in t.keys[..n]
    ensures ValueOf(t, key) == Empty
  {
    if 0 <= key {
      PositionHeld(t, n, key);
    }
  }

  /** Moving the held slot `i` to index 0, with any value, keeps the layout. */
  lemma MovedLayout(t: Table, n: int, i: int, value: int)
    requires Layout(t, n) && 0 <= i < n
    ensures Layout(Pushed(t, i, t.keys[i], value), n)
  {
    FrontMovePrefix(t.keys, i, n, t.keys[i]);
    assert t.keys[..n][i] == t.keys[i];
    DistinctToFront(t.keys[..n], i);
  }

  /** A new key pushed in at index 0, the last slot lost, keeps the layout with one more key held unless all slots were. */
  lemma EnteredLayout(t: Table, n: int, key: int, value: int)
    requires Layout(t, n) && 1 <= |t.keys| && 0 <= key && key !in t.keys
    ensures Layout(Pushed(t, |t.keys| - 1, key, value), if n == |t.keys| then n else n + 1)
  {
    var m := if n == |t.keys| then n - 1 else n;
    var r := Pushed(t, |t.keys| - 1, key, value);
    RemoveAtLast(t.keys);
    RemoveAtLast(t.values);
    DistinctNewTop(t.keys[..n], key, m);
    assert r.keys[..m + 1] == [key] + t.keys[..n][..m];
  }

  /** Moving the held slot `i` to index 0 with `value` gives its key that value and leaves every other key's value as it was. */
  lemma MovedKeeps(t: Table, n: int, i: int, value: int, other: int)
    requires Layout(t, n) && 0 <= i < n
    ensures ValueOf(Pushed(t, i, t.keys[i], value), other) == (if other == t.keys[i] then value else ValueOf(t, other))
  {
    var r := Pushed(t, i, t.keys[i], value);
    MovedLayout(t, n, i, value);
    ValueAt(t, n, i);
    if 0 <= other {
      var p := Position(t.keys, other);
      if 0 <= p {
        PositionHeld(t, n, other);
        var a := if p == i then 0 else if p < i then p + 1 else p;
        assert r.keys[a] == other && r.values[a] == (if p == i then value else t.values[p]);
        ValueAt(r, n, a);
        ValueAt(t, n, p);
      } else {
        forall a | 0 <= a < |r.keys|
          ensures r.keys[a] != other
        {
          assert r.keys[a] == t.keys[if a == 0 then i else if a - 1 < i then a - 1 else a];
        }
      }
    }
  }

  /**
   * A new key pushed in at index 0 gets `value`; every other key keeps its
   * value, except the key in the last slot, which is pushed out.
   */
  lemma EnteredKeeps(t: Table, n: int, key: int, value: int, other: int)
    requires Layout(t, n) && 1 <= |t.keys| && 0 <= key && key !in t.keys
    ensures ValueOf(Pushed(t, |t.keys| - 1, key, value), other) ==
      (if other == key then value else if Position(t.keys, other) == |t.keys| - 1 then Empty else ValueOf(t, other))
  {
    var r := Pushed(t, |t.keys| - 1, key, value);
    var n' := if n == |t.keys| then n else n + 1;
    EnteredLayout(t, n, key, value);
    ValueAt(r, n', 0);
    if other != key && 0 <= other {
      var p := Position(t.keys, other);
      if 0 <= p < |t.keys| - 1 {
        PositionHeld(t, n, other);
        assert r.keys[p + 1] == other && r.values[p + 1] == t.values[p];
        ValueAt(r, n', p + 1);
        ValueAt(t, n, p);
      } else {
        forall a | 0 <= a < |r.keys|
          ensures r.keys[a] != other
        {
          if 0 < a {
            assert r.keys[a] == t.keys[a - 1];
            if 0 <= p {
              assert t.keys[..p][a - 1] == t.keys[a - 1];
            }
          }
        }
      }
    }
  }

  /** `get` keeps the layout, puts a held key at index 0 and leaves the value of every key as it was. */
  lemma ReadKeeps(t: Table, n: int, key: int, other: int)
    requires Layout(t, n)
    ensures Layout(Read(t, key), n)
    ensures 0 <= key && key in t.keys ==> Read(t, key).keys[0] == key
    ensures ValueOf(Read(t, key), other) == ValueOf(t, other)
  {
    var i := Position(t.keys, key);
    if 0 <= key && 0 <= i {
      PositionHeld(t, n, key);
      MovedLayout(t, n, i, t.values[i]);
      MovedKeeps(t, n, i, t.values[i], other);
      ValueAt(t, n, i);
    }
  }

  /**
   * `put` of a non-negative key puts it at index 0 with `value`. Every
   * other key keeps its value, except that a new key arriving when all
   * slots are held pushes out the key in the last slot, the least recently used.
   */
  lemma StoredKeeps(t: Table, n: int, key: int, value: int, other: int)
    requires Layout(t, n) && 1 <= |t.keys| && 0 <= key
    ensures Stored(t, key, value).keys[0] == key
    ensures ValueOf(Stored(t, key, value), other) ==
      (if other == key then value
       else if key !in t.keys && Position(t.keys, other) == |t.keys| - 1 then Empty
       else ValueOf(t, other))
  {
    var i := Position(t.keys, key);
    if 0 <= i {
      PositionHeld(t, n, key);
      MovedKeeps(t, n, i, value, other);
    } else {
      EnteredKeeps(t, n, key, value, other);
    }
  }

  /** Closing up a held slot keeps the layout with one key fewer. */
  lemma ClosedLayout(t: Table, n: int, i: int)
    requires Layout(t, n) && 0 <= i < n
    ensures Layout(Closed(t, i), n - 1)
  {
    var r := Closed(t, i);
    assert r.keys[..n - 1] == RemoveAt(t.keys[..n], i);
    DistinctRemoveAt(t.keys[..n], i);
  }

  /** Closing up an empty slot changes nothing: every later slot is empty too. */
  lemma ClosedEmpty(t: Table, n: int, i: int)
    requires Layout(t, n) && n <= i < |t.keys|
    ensures Closed(t, i) == t
  {
    var r := Closed(t, i);
    assert r.keys == t.keys;
    assert r.values == t.values;
  }

  /** Closing up the held slot `i` keeps the value of the key at any other held slot `p`. */
  lemma ClosedMoves(t: Table, n: int, i: int, p: int)
    requires Layout(t, n) && 0 <= i < n && 0 <= p < n && p != i
    ensures ValueOf(Closed(t, i), t.keys[p]) == t.values[p]
  {
    var r := Closed(t, i);
    ClosedLayout(t, n, i);
    var a := if p < i then p else p - 1;
    assert r.keys[a] == t.keys[p] && r.values[a] == t.values[p];
    ValueAt(r, n - 1, a);
  }

  /** After closing up the held slot `i`, neither its key nor a key that was not held has a value. */
  lemma ClosedLoses(t: Table, n: int, i: int, other: int)
    requires Layout(t, n) && 0 <= i < n && (other == t.keys[i] || other !in t.keys)
    ensures ValueOf(Closed(t, i), other) == Empty
  {
    var r := Closed(t, i);
    ClosedLayout(t, n, i);
    var held := RemoveAt(t.keys[..n], i);
    assert r.keys[..n - 1] == held;
    DistinctRemoveAt(t.keys[..n], i);
    forall a | 0 <= a < |held|
      ensures held[a] != other
    {
      assert held[a] == t.keys[if a < i then a else a + 1];
    }
    NotHeld(r, n - 1, other);
  }

  /** Closing up the held slot `i` leaves its key without a value and every other key with the value it had. */
  lemma ClosedKeeps(t: Table, n: int, i: int, other: int)
    requires Layout(t, n) && 0 <= i < n
    ensures ValueOf(Closed(t, i), other) == (if other == t.keys[i] then Empty else ValueOf(t, other))
  {
    var p := Position(t.keys, other);
    ValueAt(t, n, i);
    if 0 <= other && 0 <= p && p != i {
      PositionHeld(t, n, other);
      ClosedMoves(t, n, i, p);
      ValueAt(t, n, p);
    } else if 0 <= other {
      ClosedLoses(t, n, i, other);
    }
  }

  /** `remove` keeps the layout, one key fewer when the key was held; a negative key changes nothing. */
  lemma DroppedLayout(t: Table, n: int, key: int)
    requires Layout(t, n)
    ensures var i := Position(t.keys, key);
      Layout(Dropped(t, key), if 0 <= i < n then n - 1 else n)
    ensures key < 0 ==> Dropped(t, key) == t
  {
    var i := Position(t.keys, key);
    if 0 <= i < n {
      ClosedLayout(t, n, i);
    } else if n <= i {
      ClosedEmpty(t, n, i);
    }
  }

  /** `remove` leaves its key without a value and every other key with the value it had. */
  lemma DroppedKeeps(t: Table, n: int, key: int, other: int)
    requires Layout(t, n)
    ensures ValueOf(Dropped(t, key), other) == (if other == key then Empty else ValueOf(t, other))
  {
    var i := Position(t.keys, key);
    if 0 <= i < n {
      ClosedKeeps(t, n, i, other);
    } else if n <= i {
      ClosedEmpty(t, n, i);
    }
  }

  /**
   * A cache of capacity 2 given keys 1 and 2, then asked for key 1 and
   * given key 3, holds keys 3 and 1: key 2, the least recently used, is gone.
   */
  lemma EvictsLeastRecent()
    ensures var t0 := Cleared(2);
      var t1 := Stored(t0, 1, 10);
      var t2 := Stored(t1, 2, 20);
      var t3 := Read(t2, 1);
      var t4 := Stored(t3, 3, 30);
      ValueOf(t2, 1) == 10 && t4 == Table([3, 1], [30, 10]) && ValueOf(t4, 2) == Empty
  {
    var t0 := Cleared(2);
    assert t0.keys == [Empty, Empty];
    assert Position(t0.keys, 1) == -1;
    var t1 := Stored(t0, 1, 10);
    assert t1 == Table([1, Empty], [10, Empty]);
    assert Position(t1.keys, 2) == -1;
    var t2 := Stored(t1, 2, 20);
    assert t2 == Table([2, 1], [20, 10]);
    FirstPosition(t2.keys, 1, 1);
    var t3 := Read(t2, 1);
    assert t3 == Table([1, 2], [10, 20]);
    assert Position(t3.keys, 3) == -1;
    var t4 := Stored(t3, 3, 30);
    assert t4 == Table([3, 1], [30, 10]);
    assert Position(t4.keys, 2) == -1;
  }
}
