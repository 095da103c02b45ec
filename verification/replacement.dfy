/**
 * The held entries of the two random-replacement caches and what `put`
 * does to them: a held key gets the new value in place; a new key is
 * appended while there is room, and when full it takes over the slot
 * drawn by `nextIndex()`, evicting the entry there. Reads never reorder.
 */
module Replacement {
  import opened Cache
  import opened Slots
  import opened Recency

  /** A held key's value replaced in place. */
  function Assigned<K, V>(t: Entries<K, V>, j: int, value: Option<V>): (r: Entries<K, V>)
    requires t.Aligned() && 0 <= j < |t.keys|
    ensures r.Aligned() && r.keys == t.keys
  {
    Entries(t.keys, t.values[j := value])
  }

  /** A new key appended when there is room, or written over slot `pick` when all `capacity` slots are held. */
  function Entered<K, V>(t: Entries<K, V>, capacity: int, key: K, value: Option<V>, pick: int): (r: Entries<K, V>)
    requires t.Aligned() && |t.keys| <= capacity && 0 <= pick < capacity
    ensures r.Aligned() && |r.keys| == (if |t.keys| < capacity then |t.keys| + 1 else |t.keys|)
  {
    if |t.keys| < capacity then Appended(t, key, value)
    else Entries(t.keys[pick := Some(key)], t.values[pick := value])
  }

  /** `put(key, value)` with `pick` the index `nextIndex()` draws. */
  ghost function Stored<K, V>(t: Entries<K, V>, capacity: int, key: K, value: Option<V>, pick: int): Entries<K, V>
    requires t.Aligned() && |t.keys| <= capacity && 0 <= pick < capacity
  {
    var j := Find(t.keys, key);
    if 0 <= j then Assigned(t, j, value) else Entered(t, capacity, key, value, pick)
  }

  // ----- facts -----

  /**
   * `put` keeps the keys distinct and at most `capacity` of them, maps the
   * key to `value`, and leaves every other key with its value, except that
   * a new key put into a full cache evicts the key in slot `pick`. A held
   * key keeps its slot, so the order of the keys is unchanged.
   */
  lemma StoredKeeps<K, V>(t: Entries<K, V>, capacity: int, key: K, value: Option<V>, pick: int, other: K)
    requires t.Aligned() && |t.keys| <= capacity && 0 <= pick < capacity && Distinct(t.keys)
    ensures var r := Stored(t, capacity, key, value, pick);
      r.Aligned() && Distinct(r.keys) && 1 <= |r.keys| <= capacity &&
      Some(key) in r.keys && Lookup(r.keys, r.values, key) == value &&
      (Some(key) in t.keys ==> r.keys == t.keys) &&
      (other != key ==>
        Lookup(r.keys, r.values, other) ==
        (if Some(key) !in t.keys && |t.keys| == capacity && t.keys[pick] == Some(other) then None
         else Lookup(t.keys, t.values, other)))
  {
    var j := Find(t.keys, key);
    var r := Stored(t, capacity, key, value, pick);
    if 0 <= j {
      LookupAt(r.keys, r.values, j);
      var at := Find(t.keys, other);
      if other != key && 0 <= at {
        LookupAt(r.keys, r.values, at);
        LookupAt(t.keys, t.values, at);
      }
    } else if |t.keys| < capacity {
      AppendedKeeps(t, key, value, other);
    } else {
      DistinctReplace(t.keys, pick, Some(key));
      LookupAt(r.keys, r.values, pick);
      var at := Find(t.keys, other);
      if other != key && 0 <= at && at != pick {
        LookupAt(r.keys, r.values, at);
        LookupAt(t.keys, t.values, at);
      } else if other != key && at < 0 {
        assert Some(other) !in r.keys by {
          assert forall a :: 0 <= a < |r.keys| && a != pick ==> r.keys[a] == t.keys[a];
        }
      } else if other != key && at == pick {
        assert Some(other) !in r.keys;
      }
    }
  }

  /**
   * Filling a cache of capacity 2 with keys 1 and 2 and putting key 3
   * with the draw 0 evicts key 1 and writes key 3 into its slot.
   */
  lemma EvictsDrawnSlot()
    ensures var t0: Entries<int, int> := Entries([], []);
      var t1 := Stored(t0, 2, 1, Some(10), 0);
      var t2 := Stored(t1, 2, 2, Some(20), 0);
      var t3 := Stored(t2, 2, 3, Some(30), 0);
      t3 == Entries([Some(3), Some(2)], [Some(30), Some(20)])
  {
    var t0: Entries<int, int> := Entries([], []);
    var t1 := Stored(t0, 2, 1, Some(10), 0);
    assert t1 == Entries([Some(1)], [Some(10)]);
    assert Find(t1.keys, 2) == -1;
    var t2 := Stored(t1, 2, 2, Some(20), 0);
    assert t2 == Entries([Some(1), Some(2)], [Some(10), Some(20)]);
    assert Find(t2.keys, 3) == -1;
  }

  /** Overwriting a held slot with a present key keeps the key layout and updates the same slot of the prefix. */
  lemma ReplacePacked<T>(s: seq<Option<T>>, n: int, i: int, x: Option<T>)
    requires Packed(s, n) && 0 <= i < n && x.Some?
    ensures Packed(s[i := x], n) && s[i := x][..n] == s[..n][i := x]
  {
  }

  /** Overwriting a held slot of the value array keeps the slots from `n` on empty. */
  lemma ReplaceVacant<T>(s: seq<Option<T>>, n: int, i: int, x: Option<T>)
    requires Vacant(s, n) && 0 <= i < n
    ensures Vacant(s[i := x], n) && s[i := x][..n] == s[..n][i := x]
  {
  }
}
