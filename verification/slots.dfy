/**
 * The in-place array routines every cache is built from, specified by
 * functions on sequences: shifting a range one slot right (front insert),
 * shifting a range one slot left (closing a gap), swapping two slots and
 * filling an array. The lemmas relate a shift followed by one write to the
 * sequence operations the caches promise: insert at the front, remove at
 * an index, move an entry to the front or to the back.
 */
module Slots {
  import opened Cache

  /** The sequence without its element at index `i`. */
  function RemoveAt<T>(s: seq<T>, i: int): (r: seq<T>)
    requires 0 <= i < |s|
    ensures |r| == |s| - 1
  {
    seq(|s| - 1, k requires 0 <= k < |s| - 1 => if k < i then s[k] else s[k + 1])
  }

  /** The sequence with `x` inserted so that it ends up at index `i`. */
  function InsertAt<T>(s: seq<T>, i: int, x: T): (r: seq<T>)
    requires 0 <= i <= |s|
    ensures |r| == |s| + 1 && r[i] == x
  {
    seq(|s| + 1, k requires 0 <= k < |s| + 1 => if k < i then s[k] else if k == i then x else s[k - 1])
  }

  /** The sequence with its element at `from` taken out and put back at index `to`. */
  function MoveTo<T>(s: seq<T>, from: int, to: int): seq<T>
    requires 0 <= from < |s| && 0 <= to < |s|
  {
    InsertAt(RemoveAt(s, from), to, s[from])
  }

  /** No element occurs twice. */
  predicate Distinct<T(==)>(s: seq<T>)
  {
    forall i, j :: 0 <= i < j < |s| ==> s[i] != s[j]
  }

  /**
   * The first position of `key` among the key slots, or -1: what every
   * cache's `indexOf`/`search` scan computes over its occupied slots.
   */
  ghost function Find<K>(keys: seq<Option<K>>, key: K): (i: int)
    ensures -1 <= i < |keys|
    ensures i == -1 <==> Some(key) !in keys
    ensures 0 <= i ==> keys[i] == Some(key) && Some(key) !in keys[..i]
  {
    if Some(key) !in keys then -1
    else
      FirstIndex(keys, Some(key))
  }

  /** The index of the first occurrence of an element that occurs. */
  ghost function FirstIndex<T>(s: seq<T>, x: T): (i: nat)
    requires x in s
    ensures i < |s| && s[i] == x && x !in s[..i]
  {
    if s[0] == x then 0
    else
      var j := FirstIndex(s[1..], x);
      assert s[..j + 1] == [s[0]] + s[1..][..j];
      j + 1
  }

  /** The value mapped to `key` by parallel key and value slots, or `null` when the key is absent. */
  ghost function Lookup<K, V>(keys: seq<Option<K>>, values: seq<Option<V>>, key: K): Option<V>
  {
    var i := Find(keys, key);
    if 0 <= i < |values| then values[i] else None
  }

  /** With distinct keys, the value mapped to the key at index `i` is the value at index `i`. */
  lemma LookupAt<K, V>(keys: seq<Option<K>>, values: seq<Option<V>>, i: int)
    requires Distinct(keys) && |values| == |keys| && 0 <= i < |keys| && keys[i].Some?
    ensures Find(keys, keys[i].value) == i
    ensures Lookup(keys, values, keys[i].value) == values[i]
  {
  }

  /** Every slot from `n` on is empty (`null`). */
  predicate Vacant<T>(s: seq<Option<T>>, n: int)
  {
    0 <= n <= |s| && forall i :: n <= i < |s| ==> s[i] == None
  }

  /** The occupied slots are exactly the first `n`. */
  predicate Packed<T>(s: seq<Option<T>>, n: int)
  {
    Vacant(s, n) && forall i :: 0 <= i < n ==> s[i].Some?
  }

  /** The array contents after slots `(lo, hi]` each take their left neighbour, copied from the top down. */
  function ShiftedRight<T>(s: seq<T>, lo: int, hi: int): seq<T>
    requires 0 <= lo <= hi < |s|
  {
    s[..lo + 1] + s[lo..hi] + s[hi + 1..]
  }

  /** The array contents after slots `[lo, hi - 1)` each take their right neighbour, copied from the bottom up. */
  function ShiftedLeft<T>(s: seq<T>, lo: int, hi: int): seq<T>
    requires 0 <= lo < hi <= |s|
  {
    s[..lo] + s[lo + 1..hi] + s[hi - 1..]
  }

  // ----- facts about the sequence operations -----

  /** Moving an element keeps the length and the multiset of elements, and puts the element at `to`. */
  lemma MoveToFacts<T>(s: seq<T>, from: int, to: int)
    requires 0 <= from < |s| && 0 <= to < |s|
    ensures |MoveTo(s, from, to)| == |s|
    ensures MoveTo(s, from, to)[to] == s[from]
    ensures multiset(MoveTo(s, from, to)) == multiset(s)
    ensures RemoveAt(MoveTo(s, from, to), to) == RemoveAt(s, from)
  {
    var r := RemoveAt(s, from);
    RemoveAtMultiset(s, from);
    InsertAtMultiset(r, to, s[from]);
    RemoveInsertAt(r, to, s[from]);
  }

  /** The index of `s` that the element at index `p` of `MoveTo(s, from, to)` came from. */
  function MovedFrom(from: int, to: int, p: int): int
  {
    if p == to then from
    else
      var q := if p < to then p else p - 1;
      if q < from then q else q + 1
  }

  /** Every element of a moved sequence is the element of `s` at `MovedFrom`. */
  lemma MoveToAt<T>(s: seq<T>, from: int, to: int, p: int)
    requires 0 <= from < |s| && 0 <= to < |s| && 0 <= p < |s|
    ensures 0 <= MovedFrom(from, to, p) < |s| && MoveTo(s, from, to)[p] == s[MovedFrom(from, to, p)]
  {
  }

  /** Inserting an element adds exactly one copy of it to the multiset. */
  lemma InsertAtMultiset<T>(r: seq<T>, i: int, x: T)
    requires 0 <= i <= |r|
    ensures multiset(InsertAt(r, i, x)) == multiset(r) + multiset{x}
  {
    assert InsertAt(r, i, x) == r[..i] + [x] + r[i..];
    assert r == r[..i] + r[i..];
  }

  /** Taking out an element just inserted gives back the sequence. */
  lemma RemoveInsertAt<T>(r: seq<T>, i: int, x: T)
    requires 0 <= i <= |r|
    ensures RemoveAt(InsertAt(r, i, x), i) == r
  {
  }

  /** Removing an element takes exactly one copy of it out of the multiset. */
  lemma RemoveAtMultiset<T>(s: seq<T>, i: int)
    requires 0 <= i < |s|
    ensures multiset(RemoveAt(s, i)) == multiset(s) - multiset{s[i]}
  {
    assert s == s[..i] + [s[i]] + s[i + 1..];
    assert RemoveAt(s, i) == s[..i] + s[i + 1..];
  }

  /** Distinctness is the same as every element occurring at most once. */
  lemma {:induction false} DistinctMultiset<T>(s: seq<T>)
    ensures Distinct(s) <==> forall x :: multiset(s)[x] <= 1
  {
    if s == [] {
    } else {
      var t := s[1..];
      assert s == [s[0]] + t;
      DistinctMultiset(t);
      if Distinct(s) {
        assert Distinct(t) by {
          forall i, j | 0 <= i < j < |t| ensures t[i] != t[j] {
            assert t[i] == s[i + 1] && t[j] == s[j + 1];
          }
        }
        assert s[0] !in t by {
          forall k | 0 <= k < |t| ensures t[k] != s[0] {
            assert t[k] == s[k + 1];
          }
        }
        forall x ensures multiset(s)[x] <= 1 {
          assert multiset(s)[x] == multiset{s[0]}[x] + multiset(t)[x];
        }
      }
      if forall x :: multiset(s)[x] <= 1 {
        assert multiset(s) == multiset{s[0]} + multiset(t);
        forall x ensures multiset(t)[x] <= 1 {
          assert multiset(s)[x] == multiset{s[0]}[x] + multiset(t)[x];
        }
        assert multiset(t)[s[0]] == 0 by {
          assert multiset(s)[s[0]] == 1 + multiset(t)[s[0]];
        }
        forall i, j | 0 <= i < j < |s| ensures s[i] != s[j] {
          if i == 0 {
            assert s[j] == t[j - 1];
            assert s[j] in t;
          } else {
            assert s[i] == t[i - 1] && s[j] == t[j - 1];
          }
        }
      }
    }
  }

  /** A rearrangement of a sequence without duplicates has none either. */
  lemma DistinctPermutation<T>(s: seq<T>, t: seq<T>)
    requires Distinct(s) && multiset(t) == multiset(s)
    ensures Distinct(t)
  {
    DistinctMultiset(s);
    DistinctMultiset(t);
  }

  /** Removing an element keeps distinctness, and the removed element no longer occurs. */
  lemma DistinctRemoveAt<T>(s: seq<T>, i: int)
    requires 0 <= i < |s| && Distinct(s)
    ensures Distinct(RemoveAt(s, i)) && s[i] !in RemoveAt(s, i)
  {
  }

  /** Moving an element keeps distinctness. */
  lemma DistinctMoveTo<T>(s: seq<T>, from: int, to: int)
    requires 0 <= from < |s| && 0 <= to < |s| && Distinct(s)
    ensures Distinct(MoveTo(s, from, to))
  {
    MoveToFacts(s, from, to);
    DistinctPermutation(s, MoveTo(s, from, to));
  }

  /** Appending an element not yet present keeps the elements distinct. */
  lemma DistinctSnocNew<T>(s: seq<T>, x: T)
    requires Distinct(s) && x !in s
    ensures Distinct(s + [x])
  {
  }

  /** Pushing a new element in front of distinct elements, possibly dropping the bottom one, keeps them distinct. */
  lemma DistinctNewTop<T>(s: seq<T>, x: T, m: int)
    requires Distinct(s) && x !in s && 0 <= m <= |s|
    ensures Distinct([x] + s[..m])
  {
    assert forall y :: y in s[..m] ==> y in s;
  }

  /** Overwriting one element of a sequence without repeats by a fresh one keeps it without repeats. */
  lemma DistinctReplace<T>(s: seq<T>, i: int, x: T)
    requires 0 <= i < |s| && Distinct(s) && x !in s
    ensures Distinct(s[i := x])
  {
  }

  /** Overwriting the slot that is then taken out makes no difference. */
  lemma RemoveAtUpdate<T>(s: seq<T>, i: int, x: T)
    requires 0 <= i < |s|
    ensures RemoveAt(s[i := x], i) == RemoveAt(s, i)
  {
    assert s[i := x][..i] == s[..i];
    assert s[i := x][i + 1..] == s[i + 1..];
  }

  /** Taking out the first element leaves the tail. */
  lemma RemoveAtFirst<T>(s: seq<T>)
    requires |s| > 0
    ensures RemoveAt(s, 0) == s[1..]
  {
  }

  /** Taking out the last element leaves the rest. */
  lemma RemoveAtLast<T>(s: seq<T>)
    requires |s| > 0
    ensures RemoveAt(s, |s| - 1) == s[..|s| - 1]
  {
  }

  /** Moving an occupied slot within the occupied prefix keeps the slots packed. */
  lemma PackedMoveTo<T>(s: seq<Option<T>>, n: int, from: int, to: int)
    requires Packed(s, n) && 0 <= from < n && 0 <= to < n
    ensures Packed(MoveTo(s[..n], from, to) + s[n..], n)
  {
    MoveToFacts(s[..n], from, to);
    var m := MoveTo(s[..n], from, to);
    forall i | 0 <= i < n
      ensures m[i].Some?
    {
      assert m[i] in multiset(s[..n]);
    }
  }

  /** Emptiness from `n` on depends only on the slots from `n` on. */
  lemma VacantSuffix<T>(s: seq<Option<T>>, t: seq<Option<T>>, n: int)
    requires Vacant(s, n) && |t| == |s| && t[n..] == s[n..]
    ensures Vacant(t, n)
  {
    forall i | n <= i < |t|
      ensures t[i] == None
    {
      assert t[i] == t[n..][i - n];
    }
  }

  // ----- the shifts, pointwise, and followed by one write -----

  /** Slot by slot, a right shift copies each slot of `(lo, hi]` from its left neighbour. */
  lemma ShiftedRightAt<T>(s: seq<T>, lo: int, hi: int)
    requires 0 <= lo <= hi < |s|
    ensures |ShiftedRight(s, lo, hi)| == |s|
    ensures forall k :: 0 <= k < |s| ==>
      ShiftedRight(s, lo, hi)[k] == if lo < k <= hi then s[k - 1] else s[k]
  {
  }

  /** Slot by slot, a left shift copies each slot of `[lo, hi - 1)` from its right neighbour. */
  lemma ShiftedLeftAt<T>(s: seq<T>, lo: int, hi: int)
    requires 0 <= lo < hi <= |s|
    ensures |ShiftedLeft(s, lo, hi)| == |s|
    ensures forall k :: 0 <= k < |s| ==>
      ShiftedLeft(s, lo, hi)[k] == if lo <= k < hi - 1 then s[k + 1] else s[k]
  {
  }

  /**
   * Shifting `[0, m)` right and writing `x` at index 0 inserts `x` at the
   * front and drops the element that was at `m`.
   */
  lemma ShiftRightWriteFront<T>(s: seq<T>, m: int, x: T)
    requires 0 <= m < |s|
    ensures ShiftedRight(s, 0, m)[0 := x] == [x] + RemoveAt(s, m)
  {
    ShiftedRightAt(s, 0, m);
  }

  /**
   * Shifting `(i, n)` left and writing `x` at index `n - 1` removes the
   * element at `i` from the prefix of length `n` and appends `x` to it.
   */
  lemma ShiftLeftWriteBack<T>(s: seq<T>, i: int, n: int, x: T)
    requires 0 <= i < n <= |s|
    ensures ShiftedLeft(s, i, n)[n - 1 := x] == RemoveAt(s[..n], i) + [x] + s[n..]
  {
    ShiftedLeftAt(s, i, n);
  }

  /** Inserting at the front is moving to index 0. */
  lemma MoveToFront<T>(s: seq<T>, i: int)
    requires 0 <= i < |s|
    ensures MoveTo(s, i, 0) == [s[i]] + RemoveAt(s, i)
  {
  }

  /** Appending at the back of the rest is moving to the last index. */
  lemma MoveToBack<T>(s: seq<T>, i: int)
    requires 0 <= i < |s|
    ensures MoveTo(s, i, |s| - 1) == RemoveAt(s, i) + [s[i]]
  {
  }

  /**
   * After a front insert that dropped the slot at `m`, the first `m + 1`
   * slots are `x` followed by the old first `m`, and the later slots are unchanged.
   */
  lemma FrontInsertPrefix<T>(s: seq<T>, m: int, x: T)
    requires 0 <= m < |s|
    ensures ([x] + RemoveAt(s, m))[..m + 1] == [x] + s[..m]
    ensures ([x] + RemoveAt(s, m))[m + 1..] == s[m + 1..]
  {
  }

  /**
   * After moving the slot at `i < n` to the front, the first `n` slots are
   * the old first `n` with that element moved to index 0, and the later slots are unchanged.
   */
  lemma FrontMovePrefix<T>(s: seq<T>, i: int, n: int, x: T)
    requires 0 <= i < n <= |s|
    ensures ([x] + RemoveAt(s, i))[..n] == [x] + RemoveAt(s[..n], i)
    ensures ([x] + RemoveAt(s, i))[n..] == s[n..]
  {
  }

  /** Moving an occupied slot `i < n` of a packed array to the front, with a present `x` written there: still packed to `n`. */
  lemma FrontMovePacked<T>(s: seq<Option<T>>, i: int, n: int, x: Option<T>)
    requires 0 <= i < n <= |s| && Packed(s, n) && x.Some?
    ensures Packed([x] + RemoveAt(s, i), n)
    ensures ([x] + RemoveAt(s, i))[..n] == [x] + RemoveAt(s[..n], i)
  {
    FrontMovePrefix(s, i, n, x);
  }

  /** The same move on an array vacant from `n`: still vacant from `n`. */
  lemma FrontMoveVacant<T>(s: seq<Option<T>>, i: int, n: int, x: Option<T>)
    requires 0 <= i < n <= |s| && Vacant(s, n)
    ensures Vacant([x] + RemoveAt(s, i), n)
    ensures ([x] + RemoveAt(s, i))[..n] == [x] + RemoveAt(s[..n], i)
  {
    FrontMovePrefix(s, i, n, x);
  }

  /** Moving an element of distinct elements to the front keeps them distinct. */
  lemma DistinctToFront<T>(s: seq<T>, i: int)
    requires 0 <= i < |s| && Distinct(s)
    ensures Distinct([s[i]] + RemoveAt(s, i))
  {
    MoveToFront(s, i);
    DistinctMoveTo(s, i, 0);
  }

  /** Moving an element of distinct elements to the back keeps them distinct. */
  lemma DistinctToBack<T>(s: seq<T>, i: int)
    requires 0 <= i < |s| && Distinct(s)
    ensures Distinct(RemoveAt(s, i) + [s[i]])
  {
    MoveToBack(s, i);
    DistinctMoveTo(s, i, |s| - 1);
  }

  /**
   * Pushing a present `x` in at the front of a packed array, dropping slot `m`
   * where `m` is the old count or the last occupied slot: packed to `m + 1`.
   */
  lemma PushFrontPacked<T>(s: seq<Option<T>>, m: int, n: int, x: Option<T>)
    requires 0 <= m < |s| && m <= n <= m + 1 && Packed(s, n) && x.Some?
    ensures Packed([x] + RemoveAt(s, m), m + 1)
    ensures ([x] + RemoveAt(s, m))[..m + 1] == [x] + s[..n][..m]
  {
    FrontInsertPrefix(s, m, x);
    assert s[..n][..m] == s[..m];
  }

  /** The same push on an array vacant from `n`: vacant from `m + 1`. */
  lemma PushFrontVacant<T>(s: seq<Option<T>>, m: int, n: int, x: Option<T>)
    requires 0 <= m < |s| && m <= n <= m + 1 && Vacant(s, n)
    ensures Vacant([x] + RemoveAt(s, m), m + 1)
    ensures ([x] + RemoveAt(s, m))[..m + 1] == [x] + s[..n][..m]
  {
    FrontInsertPrefix(s, m, x);
    assert s[..n][..m] == s[..m];
  }

  /** Writing `x` into the first free slot `n` extends the first `n` slots by `x`. */
  lemma GrowPrefix<T>(s: seq<T>, n: int, x: T)
    requires 0 <= n < |s|
    ensures s[n := x][..n + 1] == s[..n] + [x]
  {
  }

  /** Writing a present `x` into the first free slot of a packed array packs it to `n + 1`. */
  lemma GrowPacked<T>(s: seq<Option<T>>, n: int, x: Option<T>)
    requires 0 <= n < |s| && Packed(s, n) && x.Some?
    ensures Packed(s[n := x], n + 1) && s[n := x][..n + 1] == s[..n] + [x]
  {
  }

  /** Writing into the first free slot of an array vacant from `n` leaves it vacant from `n + 1`. */
  lemma GrowVacant<T>(s: seq<Option<T>>, n: int, x: Option<T>)
    requires 0 <= n < |s| && Vacant(s, n)
    ensures Vacant(s[n := x], n + 1) && s[n := x][..n + 1] == s[..n] + [x]
  {
  }

  /** The contents `PushBack` leaves: the first `n - 1` slots lose slot `i`, then `x`, then the rest. */
  lemma PushBackParts<T>(s: seq<T>, i: int, n: int, x: T)
    requires 0 <= i < n <= |s|
    ensures |RemoveAt(s[..n], i) + [x] + s[n..]| == |s|
    ensures (RemoveAt(s[..n], i) + [x] + s[n..])[..n - 1] == RemoveAt(s[..n], i)
    ensures (RemoveAt(s[..n], i) + [x] + s[n..])[n - 1..] == [x] + s[n..]
  {
  }

  /** Closing a gap among the first `n` slots of a packed array leaves it packed to `n - 1`. */
  lemma PushBackPacked<T>(s: seq<Option<T>>, i: int, n: int)
    requires 0 <= i < n <= |s| && Packed(s, n)
    ensures Packed(RemoveAt(s[..n], i) + [None] + s[n..], n - 1)
    ensures (RemoveAt(s[..n], i) + [None] + s[n..])[..n - 1] == RemoveAt(s[..n], i)
  {
    PushBackParts(s, i, n, None);
    var t := RemoveAt(s[..n], i) + [None] + s[n..];
    forall k | n - 1 <= k < |t| ensures t[k] == None {
      assert t[k] == t[n - 1..][k - (n - 1)];
    }
  }

  /** Closing a gap among the first `n` slots of an array vacant from `n` leaves it vacant from `n - 1`. */
  lemma PushBackVacant<T>(s: seq<Option<T>>, i: int, n: int)
    requires 0 <= i < n <= |s| && Vacant(s, n)
    ensures Vacant(RemoveAt(s[..n], i) + [None] + s[n..], n - 1)
    ensures (RemoveAt(s[..n], i) + [None] + s[n..])[..n - 1] == RemoveAt(s[..n], i)
  {
    PushBackParts(s, i, n, None);
    var t := RemoveAt(s[..n], i) + [None] + s[n..];
    forall k | n - 1 <= k < |t| ensures t[k] == None {
      assert t[k] == t[n - 1..][k - (n - 1)];
    }
  }

  // ----- the array routines -----

  /** The linear scan of `indexOf`: the first index of `key` in `[lo, hi)`, or -1 when it is not there. */
  method IndexIn<K(==)>(keys: array<Option<K>>, lo: int, hi: int, key: K) returns (index: int)
    requires 0 <= lo <= hi <= keys.Length
    ensures index == -1 || lo <= index < hi
    ensures index == -1 <==> Some(key) !in keys[lo..hi]
    ensures index != -1 ==> keys[index] == Some(key) && Some(key) !in keys[lo..index]
  {
    var i := lo;
    while i < hi
      invariant lo <= i <= hi
      invariant Some(key) !in keys[lo..i]
    {
      if keys[i].Some? && keys[i].value == key {
        return i;
      }
      assert keys[lo..i + 1] == keys[lo..i] + [keys[i]];
      i := i + 1;
    }
    return -1;
  }

  /** A right shift of `[0, m)` followed by writing `x` at index 0: `x` goes in front and slot `m` is dropped. */
  method PushFront<T>(a: array<T>, m: int, x: T)
    requires 0 <= m < a.Length
    modifies a
    ensures a[..] == [x] + RemoveAt(old(a[..]), m)
  {
    ShiftRight(a, 0, m);
    a[0] := x;
    ShiftRightWriteFront(old(a[..]), m, x);
  }

  /** A left shift of `(i, n)` followed by writing `x` at index `n - 1`: slot `i` is dropped and `x` goes last. */
  method PushBack<T>(a: array<T>, i: int, n: int, x: T)
    requires 0 <= i < n <= a.Length
    modifies a
    ensures a[..] == RemoveAt(old(a[..n]), i) + [x] + old(a[n..])
  {
    ShiftLeft(a, i, n);
    a[n - 1] := x;
    ShiftLeftWriteBack(old(a[..]), i, n, x);
  }

  /** `PushBack` over the whole array: slot `i` is dropped and `x` goes into the last slot. */
  method PushLast<T>(a: array<T>, i: int, x: T)
    requires 0 <= i < a.Length
    modifies a
    ensures a[..] == RemoveAt(old(a[..]), i) + [x]
  {
    ghost var s := a[..];
    assert s[..a.Length] == s && s[a.Length..] == [];
    PushBack(a, i, a.Length, x);
  }

  /** The downward copy loop that opens a gap: slots `(lo, hi]` take their left neighbours. */
  method ShiftRight<T>(a: array<T>, lo: int, hi: int)
    requires 0 <= lo <= hi < a.Length
    modifies a
    ensures a[..] == ShiftedRight(old(a[..]), lo, hi)
  {
    ghost var s := a[..];
    var i := hi - 1;
    while i >= lo
      invariant lo - 1 <= i <= hi - 1
      invariant forall k :: 0 <= k < a.Length && !(i + 1 < k <= hi) ==> a[k] == s[k]
      invariant forall k :: i + 1 < k <= hi ==> a[k] == s[k - 1]
    {
      a[i + 1] := a[i];
      i := i - 1;
    }
    ShiftedRightAt(s, lo, hi);
    assert a[..] == ShiftedRight(s, lo, hi);
  }

  /** The upward copy loop that closes a gap: slots `[lo, hi - 1)` take their right neighbours. */
  method ShiftLeft<T>(a: array<T>, lo: int, hi: int)
    requires 0 <= lo < hi <= a.Length
    modifies a
    ensures a[..] == ShiftedLeft(old(a[..]), lo, hi)
  {
    ghost var s := a[..];
    var i := lo + 1;
    while i < hi
      invariant lo + 1 <= i <= hi
      invariant forall k :: 0 <= k < a.Length && !(lo <= k < i - 1) ==> a[k] == s[k]
      invariant forall k :: lo <= k < i - 1 ==> a[k] == s[k + 1]
    {
      a[i - 1] := a[i];
      i := i + 1;
    }
    ShiftedLeftAt(s, lo, hi);
    assert a[..] == ShiftedLeft(s, lo, hi);
  }

  /** Exchanges two slots. */
  method Swap<T>(a: array<T>, i: int, j: int)
    requires 0 <= i < a.Length && 0 <= j < a.Length
    modifies a
    ensures a[..] == old(a[..])[i := old(a[j])][j := old(a[i])]
  {
    var t := a[i];
    a[i] := a[j];
    a[j] := t;
  }

  /** `Arrays.fill(a, x)` or the equivalent loop: every slot holds `x`. */
  method Fill<T>(a: array<T>, x: T)
    modifies a
    ensures forall k :: 0 <= k < a.Length ==> a[k] == x
  {
    var i := 0;
    while i < a.Length
      invariant 0 <= i <= a.Length
      invariant forall k :: 0 <= k < i ==> a[k] == x
    {
      a[i] := x;
      i := i + 1;
    }
  }
}
