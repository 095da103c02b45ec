/**
 * The held entries of the two MRU caches as sequences, top first and the
 * most recently used entry at the bottom, and the changes their operations
 * make to them: an entry moved to the bottom, a new entry added at the
 * bottom, an entry taken out. The lemmas say what each change does to the
 * value every key maps to.
 */
module Recency {
  import opened Cache
  import opened Slots

  /** Held keys and values, aligned, top first. */
  datatype Entries<K, V> = Entries(keys: seq<Option<K>>, values: seq<Option<V>>)
  {
    predicate Aligned()
    {
      |values| == |keys|
    }
  }

  /** The entry at `j` moved to the bottom with `value`; the entries below it move up one. */
  function Backed<K, V>(t: Entries<K, V>, j: int, value: Option<V>): (r: Entries<K, V>)
    requires t.Aligned() && 0 <= j < |t.keys|
    ensures r.Aligned() && |r.keys| == |t.keys|
  {
    Entries(RemoveAt(t.keys, j) + [t.keys[j]], RemoveAt(t.values, j) + [value])
  }

  /** A new entry added at the bottom. */
  function Appended<K, V>(t: Entries<K, V>, key: K, value: Option<V>): (r: Entries<K, V>)
    requires t.Aligned()
    ensures r.Aligned() && |r.keys| == |t.keys| + 1
  {
    Entries(t.keys + [Some(key)], t.values + [value])
  }

  /** The entry at `j` taken out. */
  function Removed<K, V>(t: Entries<K, V>, j: int): (r: Entries<K, V>)
    requires t.Aligned() && 0 <= j < |t.keys|
    ensures r.Aligned() && |r.keys| == |t.keys| - 1
  {
    Entries(RemoveAt(t.keys, j), RemoveAt(t.values, j))
  }

  /** `get(key)` of a held key moves its entry to the bottom; otherwise nothing changes. */
  ghost function Read<K, V>(t: Entries<K, V>, key: K): Entries<K, V>
    requires t.Aligned()
  {
    var j := Find(t.keys, key);
    if j < 0 then t else Backed(t, j, t.values[j])
  }

  /** `remove(key)`: a held key's entry is taken out; otherwise nothing changes. */
  ghost function Dropped<K, V>(t: Entries<K, V>, key: K): Entries<K, V>
    requires t.Aligned()
  {
    var j := Find(t.keys, key);
    if j < 0 then t else Removed(t, j)
  }

  // ----- facts -----

  /**
   * Moving a held entry to the bottom keeps the keys distinct and the same
   * keys held, puts its key last, gives it `value`, and leaves every other
   * key with its value.
   */
  lemma BackedKeeps<K, V>(t: Entries<K, V>, j: int, value: Option<V>, key: K)
    requires t.Aligned() && 0 <= j < |t.keys| && Distinct(t.keys) && t.keys[j].Some?
    ensures var r := Backed(t, j, value);
      Distinct(r.keys) && r.keys[|r.keys| - 1] == t.keys[j] &&
      (Some(key) in r.keys <==> Some(key) in t.keys) &&
      Lookup(r.keys, r.values, key) == (if t.keys[j] == Some(key) then value else Lookup(t.keys, t.values, key))
  {
    var r := Backed(t, j, value);
    DistinctToBack(t.keys, j);
    var at := Find(t.keys, key);
    if 0 <= at {
      var a := if at == j then |t.keys| - 1 else if at < j then at else at - 1;
      assert r.keys[a] == t.keys[at];
      LookupAt(r.keys, r.values, a);
      LookupAt(t.keys, t.values, at);
    } else {
      forall a | 0 <= a < |r.keys|
        ensures r.keys[a] != Some(key)
      {
        assert r.keys[a] == t.keys[if a == |t.keys| - 1 then j else if a < j then a else a + 1];
      }
    }
  }

  /** Moving the bottom entry to the bottom with its own value changes nothing. */
  lemma BackedLast<K, V>(t: Entries<K, V>)
    requires t.Aligned() && 0 < |t.keys|
    ensures Backed(t, |t.keys| - 1, t.values[|t.keys| - 1]) == t
  {
    RemoveAtLast(t.keys);
    RemoveAtLast(t.values);
  }

  /** Adding a key not held keeps the keys distinct, maps the key to `value`, and leaves every other key with its value. */
  lemma AppendedKeeps<K, V>(t: Entries<K, V>, key: K, value: Option<V>, other: K)
    requires t.Aligned() && Distinct(t.keys) && Some(key) !in t.keys
    ensures var r := Appended(t, key, value);
      Distinct(r.keys) && Lookup(r.keys, r.values, key) == value &&
      (other != key ==> Lookup(r.keys, r.values, other) == Lookup(t.keys, t.values, other))
  {
    var r := Appended(t, key, value);
    DistinctSnocNew(t.keys, Some(key));
    LookupAt(r.keys, r.values, |t.keys|);
    var at := Find(t.keys, other);
    if other != key && 0 <= at {
      assert r.keys[at] == t.keys[at];
      LookupAt(r.keys, r.values, at);
      LookupAt(t.keys, t.values, at);
    }
  }

  /** Taking out a held entry keeps the keys distinct, leaves its key without a value and every other key with its value. */
  lemma RemovedKeeps<K, V>(t: Entries<K, V>, j: int, key: K)
    requires t.Aligned() && 0 <= j < |t.keys| && Distinct(t.keys)
    ensures var r := Removed(t, j);
      Distinct(r.keys) && t.keys[j] !in r.keys &&
      Lookup(r.keys, r.values, key) == (if t.keys[j] == Some(key) then None else Lookup(t.keys, t.values, key))
  {
    var r := Removed(t, j);
    DistinctRemoveAt(t.keys, j);
    var at := Find(t.keys, key);
    if 0 <= at && at != j {
      var a := if at < j then at else at - 1;
      assert r.keys[a] == t.keys[at];
      LookupAt(r.keys, r.values, a);
      LookupAt(t.keys, t.values, at);
    } else if at < 0 {
      assert forall x :: x in r.keys ==> x in t.keys;
    }
  }

  /**
   * A read keeps the keys distinct and every key with its value; a held
   * key ends at the bottom.
   */
  lemma ReadKeeps<K, V>(t: Entries<K, V>, key: K, other: K)
    requires t.Aligned() && Distinct(t.keys)
    ensures var r := Read(t, key);
      r.Aligned() && Distinct(r.keys) && |r.keys| == |t.keys| &&
      (Some(key) in t.keys ==> r.keys[|r.keys| - 1] == Some(key)) &&
      Lookup(r.keys, r.values, other) == Lookup(t.keys, t.values, other)
  {
    var j := Find(t.keys, key);
    if 0 <= j {
      BackedKeeps(t, j, t.values[j], other);
      LookupAt(t.keys, t.values, j);
    }
  }

  /** A removal keeps the keys distinct, leaves the key without a value and every other key with its value. */
  lemma DroppedKeeps<K, V>(t: Entries<K, V>, key: K, other: K)
    requires t.Aligned() && Distinct(t.keys)
    ensures var r := Dropped(t, key);
      r.Aligned() && Distinct(r.keys) && Some(key) !in r.keys &&
      |r.keys| == (if Some(key) in t.keys then |t.keys| - 1 else |t.keys|) &&
      Lookup(r.keys, r.values, other) == (if other == key then None else Lookup(t.keys, t.values, other))
  {
    var j := Find(t.keys, key);
    if 0 <= j {
      RemovedKeeps(t, j, other);
    } else if other == key {
      assert Find(t.keys, other) == -1;
    }
  }
}
