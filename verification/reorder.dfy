/**
 * The reordering routines of the ranked caches. Each keeps three parallel
 * arrays (keys, values, ranks) in step by swapping neighbours, and each is
 * specified as moving one entry to a new index among the first `n` slots
 * (`Slots.MoveTo`) so that the ranks end up ordered.
 *
 * - `Resort`: the two-way `sort(int)` of the priority and expiry caches,
 *   ranks non-increasing. An entry whose rank went up rises to the front of
 *   its equals; one whose rank went down sinks to the back of its equals.
 * - `Sink`: the one-way `sort(int)` of the MFU cache, ranks non-decreasing.
 *   The entry moves right past every neighbour whose rank is not above its own.
 */
module Reorder {
  import opened Cache
  import opened Slots

  /**
   * The rank at index `i`. The ordering predicates below quantify over this
   * term, so the solver applies them where a proof names a rank rather than
   * at every index of every sequence in scope.
   */
  function Rank(s: seq<int>, i: int): int
    requires 0 <= i < |s|
  {
    s[i]
  }

  /** Ranks from the highest down. */
  predicate NonIncreasing(s: seq<int>)
  {
    forall i, j {:trigger Rank(s, i), Rank(s, j)} :: 0 <= i < j < |s| ==> Rank(s, i) >= Rank(s, j)
  }

  /** Ranks from the lowest up. */
  predicate NonDecreasing(s: seq<int>)
  {
    forall i, j {:trigger Rank(s, i), Rank(s, j)} :: 0 <= i < j < |s| ==> Rank(s, i) <= Rank(s, j)
  }

  /** In non-increasing `r`, index `to` is a place for `x` that keeps the order. */
  predicate Between(r: seq<int>, to: int, x: int)
  {
    0 <= to <= |r| && (to == 0 || r[to - 1] >= x) && (to == |r| || r[to] <= x)
  }

  /** In non-increasing `r`, index `to` is where `x` goes in front of every rank equal to it. */
  predicate FrontOfEquals(r: seq<int>, to: int, x: int)
  {
    0 <= to <= |r| && (to == 0 || r[to - 1] > x) && (to == |r| || r[to] <= x)
  }

  /** In non-increasing `r`, index `to` is where `x` goes behind every rank equal to it. */
  predicate BackOfEquals(r: seq<int>, to: int, x: int)
  {
    0 <= to <= |r| && (to == 0 || r[to - 1] >= x) && (to == |r| || r[to] < x)
  }

  /** In non-decreasing `r`, index `to` is where `x` goes behind every rank not above it. */
  predicate AfterNotAbove(r: seq<int>, to: int, x: int)
  {
    0 <= to <= |r| && (to == 0 || r[to - 1] <= x) && (to == |r| || r[to] > x)
  }

  /**
   * Where the two-way sort puts the entry at `start` of ranks `s`: in front
   * of its equals when it is above its left neighbour, behind its equals
   * when it is below its right neighbour, otherwise where it is; in every
   * case between a not-smaller and a not-larger rank.
   */
  predicate Placed(s: seq<int>, start: int, to: int)
    requires 0 <= start < |s|
  {
    0 <= to < |s| &&
    Between(RemoveAt(s, start), to, s[start]) &&
    (0 < start && s[start] > s[start - 1] ==> to < start && FrontOfEquals(RemoveAt(s, start), to, s[start])) &&
    (start < |s| - 1 && s[start] < s[start + 1] ==> start < to && BackOfEquals(RemoveAt(s, start), to, s[start])) &&
    ((start == 0 || s[start] <= s[start - 1]) && (start == |s| - 1 || s[start] >= s[start + 1]) ==> to == start)
  }

  /** The length of the leading run of ranks above `x`: the first index whose rank is not above `x`. */
  function RunAbove(r: seq<int>, x: int): (n: nat)
    ensures n <= |r|
  {
    if r == [] || r[0] <= x then 0 else 1 + RunAbove(r[1..], x)
  }

  /** The length of the leading run of ranks not below `x`: the first index whose rank is below `x`. */
  function RunAtLeast(r: seq<int>, x: int): (n: nat)
    ensures n <= |r|
  {
    if r == [] || r[0] < x then 0 else 1 + RunAtLeast(r[1..], x)
  }

  /** The leading run above `x` ends at the first rank not above `x`: every rank before it is above `x`. */
  lemma {:induction false} RunAboveEnds(r: seq<int>, x: int)
    ensures FrontOfEquals(r, RunAbove(r, x), x)
    ensures forall j :: 0 <= j < |r| && r[j] <= x ==> RunAbove(r, x) <= j
  {
    if r != [] && r[0] > x {
      RunAboveEnds(r[1..], x);
      forall j | 0 <= j < |r| && r[j] <= x
        ensures RunAbove(r, x) <= j
      {
        assert r[1..][j - 1] == r[j];
      }
    }
  }

  /** The leading run not below `x` ends at the first rank below `x`: every rank before it is at least `x`. */
  lemma {:induction false} RunAtLeastEnds(r: seq<int>, x: int)
    ensures BackOfEquals(r, RunAtLeast(r, x), x)
    ensures forall j :: 0 <= j < |r| && r[j] < x ==> RunAtLeast(r, x) <= j
  {
    if r != [] && r[0] >= x {
      RunAtLeastEnds(r[1..], x);
      forall j | 0 <= j < |r| && r[j] < x
        ensures RunAtLeast(r, x) <= j
      {
        assert r[1..][j - 1] == r[j];
      }
    }
  }

  /**
   * The index the two-way `sort(start)` moves the entry at `start` to: in
   * front of its equals when its rank is above its left neighbour's, behind
   * its equals when below its right neighbour's, otherwise where it is.
   */
  function SortTarget(s: seq<int>, start: int): (to: int)
    requires 0 <= start < |s|
    ensures 0 <= to < |s|
  {
    var r, x := RemoveAt(s, start), s[start];
    if 0 < start && x > s[start - 1] then RunAbove(r, x)
    else if start < |s| - 1 && x < s[start + 1] then RunAtLeast(r, x)
    else start
  }

  /** The slots `s` after the two-way `sort(start)` on the aligned ranks `ranks`. */
  function Resorted<T>(s: seq<T>, ranks: seq<int>, start: int): seq<T>
    requires |s| == |ranks| && 0 <= start < |s|
  {
    MoveTo(s, start, SortTarget(ranks, start))
  }

  /** The occupied slots of a ranked cache, top first: keys, values and ranks aligned index by index. */
  datatype Ranked<K, V> = Ranked(keys: seq<Option<K>>, values: seq<Option<V>>, ranks: seq<int>)
  {
    predicate Aligned()
    {
      |keys| == |values| == |ranks|
    }
  }

  /** The slots with the entry at `i` taken out of all three: the gap-closing `remove(int)`. */
  function Removed<K, V>(t: Ranked<K, V>, i: int): (r: Ranked<K, V>)
    requires t.Aligned() && 0 <= i < |t.keys|
    ensures r.Aligned() && |r.keys| == |t.keys| - 1
  {
    Ranked(RemoveAt(t.keys, i), RemoveAt(t.values, i), RemoveAt(t.ranks, i))
  }

  /** The slots after the two-way sort moves the entry at `start` into place in all three arrays. */
  function Rerank<K, V>(t: Ranked<K, V>, start: int): (r: Ranked<K, V>)
    requires t.Aligned() && 0 <= start < |t.keys|
    ensures r.Aligned() && |r.keys| == |t.keys|
  {
    Ranked(Resorted(t.keys, t.ranks, start), Resorted(t.values, t.ranks, start), Resorted(t.ranks, t.ranks, start))
  }

  /** The length of the leading run of ranks not above `x`: the first index whose rank is above `x`. */
  function RunNotAbove(r: seq<int>, x: int): (n: nat)
    ensures n <= |r|
  {
    if r == [] || r[0] > x then 0 else 1 + RunNotAbove(r[1..], x)
  }

  /**
   * The index the one-way `sort(start)` moves the entry at `start` to: past
   * every following rank that is not above its own, up to the first that is.
   */
  function SinkTarget(s: seq<int>, start: int): (to: int)
    requires 0 <= start < |s|
    ensures start <= to < |s|
  {
    start + RunNotAbove(RemoveAt(s, start)[start..], s[start])
  }

  /** The slots after the one-way sort moves the entry at `start` into place in all three arrays. */
  function Sunk<K, V>(t: Ranked<K, V>, start: int): (r: Ranked<K, V>)
    requires t.Aligned() && 0 <= start < |t.keys|
    ensures r.Aligned() && |r.keys| == |t.keys|
  {
    var to := SinkTarget(t.ranks, start);
    Ranked(MoveTo(t.keys, start, to), MoveTo(t.values, start, to), MoveTo(t.ranks, start, to))
  }

  /**
   * The gap-closing `remove(int)` of the two frequency caches as written:
   * keys and values close the gap, but the ranks stay where they are and
   * only the last occupied one is dropped.
   */
  function RemovedAsWritten<K, V>(t: Ranked<K, V>, i: int): (r: Ranked<K, V>)
    requires t.Aligned() && 0 <= i < |t.keys|
    ensures r.Aligned() && |r.keys| == |t.keys| - 1
    ensures r.keys == RemoveAt(t.keys, i) && r.values == RemoveAt(t.values, i) && r.ranks == t.ranks[..|t.ranks| - 1]
  {
    Ranked(RemoveAt(t.keys, i), RemoveAt(t.values, i), t.ranks[..|t.ranks| - 1])
  }

  /** The rank recorded for `key`, or 0 when it is not held. */
  ghost function RankOf<K, V>(t: Ranked<K, V>, key: K): int
    requires t.Aligned()
  {
    var at := Find(t.keys, key);
    if at < 0 then 0 else t.ranks[at]
  }

  /** `key` is held in `r` exactly when it is held in `t`, and maps to the same value and the same rank in both. */
  ghost predicate SameEntry<K, V>(r: Ranked<K, V>, t: Ranked<K, V>, key: K)
    requires r.Aligned() && t.Aligned()
  {
    (Some(key) in r.keys <==> Some(key) in t.keys) &&
    Lookup(r.keys, r.values, key) == Lookup(t.keys, t.values, key) &&
    RankOf(r, key) == RankOf(t, key)
  }

  // ----- facts -----

  /** When all ranks but the one at `start` are in order, its two neighbours are in order. */
  lemma NeighboursOrdered(s: seq<int>, start: int)
    requires 0 < start < |s| - 1 && NonIncreasing(RemoveAt(s, start))
    ensures s[start + 1] <= s[start - 1]
  {
    assert Rank(RemoveAt(s, start), start - 1) >= Rank(RemoveAt(s, start), start);
  }

  /** Taking one rank out of an ordered sequence leaves it ordered. */
  lemma RemoveAtNonIncreasing(s: seq<int>, i: int)
    requires 0 <= i < |s| && NonIncreasing(s)
    ensures NonIncreasing(RemoveAt(s, i))
  {
    var r := RemoveAt(s, i);
    forall a, b | 0 <= a < b < |r|
      ensures Rank(r, a) >= Rank(r, b)
    {
      assert Rank(s, if a < i then a else a + 1) >= Rank(s, if b < i then b else b + 1);
    }
  }

  /** Taking one rank out of an ordered sequence leaves it ordered. */
  lemma RemoveAtNonDecreasing(s: seq<int>, i: int)
    requires 0 <= i < |s| && NonDecreasing(s)
    ensures NonDecreasing(RemoveAt(s, i))
  {
    var r := RemoveAt(s, i);
    forall a, b | 0 <= a < b < |r|
      ensures Rank(r, a) <= Rank(r, b)
    {
      assert Rank(s, if a < i then a else a + 1) <= Rank(s, if b < i then b else b + 1);
    }
  }

  /** A prefix of an ordered sequence is ordered. */
  lemma NonDecreasingPrefix(s: seq<int>, m: int)
    requires NonDecreasing(s) && 0 <= m <= |s|
    ensures NonDecreasing(s[..m])
  {
    forall a, b | 0 <= a < b < m
      ensures Rank(s[..m], a) <= Rank(s[..m], b)
    {
      assert Rank(s, a) <= Rank(s, b);
    }
  }

  /** Placing the one out-of-order rank where the two-way sort puts it leaves all ranks non-increasing. */
  lemma PlacedKeepsOrder(s: seq<int>, start: int, to: int)
    requires 0 <= start < |s| && NonIncreasing(RemoveAt(s, start)) && Placed(s, start, to)
    ensures NonIncreasing(MoveTo(s, start, to))
  {
    InsertNonIncreasing(RemoveAt(s, start), to, s[start]);
  }

  /** Placing the one out-of-order rank where the one-way sort puts it leaves all ranks non-decreasing. */
  lemma AdvancedKeepsOrder(s: seq<int>, start: int, to: int)
    requires 0 <= start < |s| && 0 <= to < |s| && NonDecreasing(RemoveAt(s, start))
    requires AfterNotAbove(RemoveAt(s, start), to, s[start])
    ensures NonDecreasing(MoveTo(s, start, to))
  {
    InsertNonDecreasing(RemoveAt(s, start), to, s[start]);
  }

  /** `s` with the rank at `i` raised by one, as a read through `get(int)` does before re-sorting. */
  function Raised(s: seq<int>, i: int): seq<int>
    requires 0 <= i < |s|
  {
    s[i := s[i] + 1]
  }

  /** The target of the two-way sort is the place `Placed` describes. */
  lemma TargetPlaced(s: seq<int>, start: int)
    requires 0 <= start < |s| && NonIncreasing(RemoveAt(s, start))
    ensures Placed(s, start, SortTarget(s, start))
  {
    var r, x := RemoveAt(s, start), s[start];
    if 0 < start < |s| - 1 {
      NeighboursOrdered(s, start);
    }
    if 0 < start && x > s[start - 1] {
      RunAboveEnds(r, x);
      assert r[start - 1] == s[start - 1];
    } else if start < |s| - 1 && x < s[start + 1] {
      RunAtLeastEnds(r, x);
      var n := RunAtLeast(r, x);
      assert n < |r| ==> Rank(r, n) < x;
      assert Rank(r, start) > x;
    }
  }

  /** Only one index is in front of the equals of `x` in non-increasing ranks. */
  lemma FrontUnique(r: seq<int>, x: int, a: int, b: int)
    requires NonIncreasing(r) && FrontOfEquals(r, a, x) && FrontOfEquals(r, b, x) && a <= b
    ensures a == b
  {
    assert a < b ==> Rank(r, a) >= Rank(r, b - 1);
  }

  /** Only one index is behind the equals of `x` in non-increasing ranks. */
  lemma BackUnique(r: seq<int>, x: int, a: int, b: int)
    requires NonIncreasing(r) && BackOfEquals(r, a, x) && BackOfEquals(r, b, x) && a <= b
    ensures a == b
  {
    assert a < b ==> Rank(r, a) >= Rank(r, b - 1);
  }

  /** Every place `Placed` allows is the target of the two-way sort. */
  lemma TargetUnique(s: seq<int>, start: int, to: int)
    requires 0 <= start < |s| && NonIncreasing(RemoveAt(s, start)) && Placed(s, start, to)
    ensures to == SortTarget(s, start)
  {
    var r, x, t := RemoveAt(s, start), s[start], SortTarget(s, start);
    TargetPlaced(s, start);
    if 0 < start && x > s[start - 1] {
      if to <= t { FrontUnique(r, x, to, t); } else { FrontUnique(r, x, t, to); }
    } else if start < |s| - 1 && x < s[start + 1] {
      if to <= t { BackUnique(r, x, to, t); } else { BackUnique(r, x, t, to); }
    }
  }

  /**
   * The two-way sort restores the order: when every rank but the one at
   * `start` is in non-increasing order, all are afterwards, and the ranks
   * are the same multiset as before.
   */
  lemma ResortedOrdered(s: seq<int>, start: int)
    requires 0 <= start < |s| && NonIncreasing(RemoveAt(s, start))
    ensures NonIncreasing(Resorted(s, s, start))
    ensures multiset(Resorted(s, s, start)) == multiset(s)
  {
    TargetPlaced(s, start);
    PlacedKeepsOrder(s, start, SortTarget(s, start));
    MoveToFacts(s, start, SortTarget(s, start));
  }

  /** A rank raised in an ordered sequence can only move the entry towards index 0. */
  lemma RaisedRises(s: seq<int>, i: int, y: int)
    requires 0 <= i < |s| && NonIncreasing(s) && y >= s[i]
    ensures SortTarget(s[i := y], i) <= i
  {
    var r := RemoveAt(s[i := y], i);
    RunAboveEnds(r, y);
    if i < |s| - 1 {
      assert Rank(s, i) >= Rank(s, i + 1) && r[i] == s[i + 1];
    }
  }

  /** A rank lowered in an ordered sequence can only move the entry away from index 0. */
  lemma LoweredSinks(s: seq<int>, i: int, y: int)
    requires 0 <= i < |s| && NonIncreasing(s) && y <= s[i]
    ensures SortTarget(s[i := y], i) >= i
  {
    var r := RemoveAt(s[i := y], i);
    RunAtLeastEnds(r, y);
    if 0 < i {
      assert Rank(s, i - 1) >= Rank(s, i);
      forall j | 0 <= j < i
        ensures r[j] >= y
      {
        assert Rank(s, j) >= Rank(s, i);
      }
    }
  }

  /** An entry the sort leaves where it is leaves the slots unchanged. */
  lemma ResortedInPlace<T>(s: seq<T>, ranks: seq<int>, start: int)
    requires |s| == |ranks| && 0 <= start < |s| && SortTarget(ranks, start) == start
    ensures Resorted(s, ranks, start) == s
  {
    InsertRemove(s, start);
  }

  /**
   * The cache invariants survive the two-way sort: the ranks end in order,
   * the keys stay distinct and occupied, and the entries are permuted whole:
   * every key is held afterwards exactly when before, with the same value
   * and the same rank.
   */
  lemma RerankKeeps<K, V>(t: Ranked<K, V>, start: int)
    requires t.Aligned() && 0 <= start < |t.keys| && NonIncreasing(RemoveAt(t.ranks, start))
    requires Distinct(t.keys) && Packed(t.keys, |t.keys|)
    ensures NonIncreasing(Rerank(t, start).ranks)
    ensures Distinct(Rerank(t, start).keys) && Packed(Rerank(t, start).keys, |t.keys|)
    ensures multiset(Rerank(t, start).keys) == multiset(t.keys)
    ensures Lookup(Rerank(t, start).keys, Rerank(t, start).values, t.keys[start].value) == t.values[start]
    ensures forall k :: SameEntry(Rerank(t, start), t, k)
  {
    var to := SortTarget(t.ranks, start);
    var r := Rerank(t, start);
    forall k
      ensures SameEntry(r, t, k)
    {
      MovedKeeps(t, start, to, k);
    }
    ResortedOrdered(t.ranks, start);
    DistinctMoveTo(t.keys, start, to);
    MoveToFacts(t.keys, start, to);
    MoveToFacts(t.values, start, to);
    forall i | 0 <= i < |r.keys|
      ensures r.keys[i].Some?
    {
      assert r.keys[i] in multiset(t.keys);
    }
    LookupAt(r.keys, r.values, to);
  }

  /** The leading run not above `x` ends at the first rank above `x`. */
  lemma {:induction false} RunNotAboveEnds(r: seq<int>, x: int)
    ensures forall j :: 0 <= j < RunNotAbove(r, x) ==> r[j] <= x
    ensures RunNotAbove(r, x) < |r| ==> r[RunNotAbove(r, x)] > x
  {
    if r != [] && r[0] <= x {
      RunNotAboveEnds(r[1..], x);
      forall j | 0 <= j < RunNotAbove(r, x)
        ensures r[j] <= x
      {
        if 0 < j {
          assert r[1..][j - 1] == r[j];
        }
      }
    }
  }

  /**
   * On ranks that are non-decreasing apart from the one at `start`, which is
   * not below its left neighbour, the one place at or after `start` that
   * keeps the order is `SinkTarget`.
   */
  lemma SinkTargetUnique(s: seq<int>, start: int, to: int)
    requires 0 <= start <= to < |s| && NonDecreasing(RemoveAt(s, start))
    requires start == 0 || s[start - 1] <= s[start]
    requires AfterNotAbove(RemoveAt(s, start), to, s[start])
    ensures to == SinkTarget(s, start)
  {
    var r, x := RemoveAt(s, start), s[start];
    var n := RunNotAbove(r[start..], x);
    RunNotAboveEnds(r[start..], x);
    assert forall j :: start <= j < start + n ==> r[start..][j - start] == r[j];
    assert start + n < |r| ==> r[start..][n] == r[start + n];
    assert to > start + n ==> Rank(r, start + n) <= Rank(r, to - 1);
  }

  /** The target of the one-way sort keeps the order: every rank before it is not above the moved one, the next is above it. */
  lemma SinkTargetPlaced(s: seq<int>, start: int)
    requires 0 <= start < |s| && (start == 0 || s[start - 1] <= s[start])
    ensures AfterNotAbove(RemoveAt(s, start), SinkTarget(s, start), s[start])
  {
    var r, x := RemoveAt(s, start), s[start];
    var n := RunNotAbove(r[start..], x);
    RunNotAboveEnds(r[start..], x);
    if 0 < n {
      assert r[start..][n - 1] == r[start + n - 1];
    }
    if start + n < |r| {
      assert r[start..][n] == r[start + n];
    }
  }

  /**
   * The cache invariants survive the one-way sort: the ranks end
   * non-decreasing, the keys stay distinct and occupied, and the entries
   * are permuted whole: every key is held afterwards exactly when before,
   * with the same value and the same rank.
   */
  lemma SunkKeeps<K, V>(t: Ranked<K, V>, start: int)
    requires t.Aligned() && 0 <= start < |t.keys| && NonDecreasing(RemoveAt(t.ranks, start))
    requires start == 0 || t.ranks[start - 1] <= t.ranks[start]
    requires Distinct(t.keys) && Packed(t.keys, |t.keys|)
    ensures NonDecreasing(Sunk(t, start).ranks)
    ensures Distinct(Sunk(t, start).keys) && Packed(Sunk(t, start).keys, |t.keys|)
    ensures multiset(Sunk(t, start).keys) == multiset(t.keys)
    ensures multiset(Sunk(t, start).ranks) == multiset(t.ranks)
    ensures Lookup(Sunk(t, start).keys, Sunk(t, start).values, t.keys[start].value) == t.values[start]
    ensures forall k :: SameEntry(Sunk(t, start), t, k)
  {
    var to := SinkTarget(t.ranks, start);
    var r := Sunk(t, start);
    forall k
      ensures SameEntry(r, t, k)
    {
      MovedKeeps(t, start, to, k);
    }
    SinkTargetPlaced(t.ranks, start);
    AdvancedKeepsOrder(t.ranks, start, to);
    MoveToFacts(t.ranks, start, to);
    DistinctMoveTo(t.keys, start, to);
    MoveToFacts(t.keys, start, to);
    MoveToFacts(t.values, start, to);
    forall i | 0 <= i < |r.keys|
      ensures r.keys[i].Some?
    {
      assert r.keys[i] in multiset(t.keys);
    }
    LookupAt(r.keys, r.values, to);
  }

  /**
   * As written, removing the top entry of a cache holding `1` (rank 1) and
   * `2` (rank 2) leaves `2` with rank 1: the ranks were not moved with the
   * keys.
   */
  lemma RemoveLosesRank()
    ensures var t := Ranked([Some(1), Some(2)], [Some(10), Some(20)], [1, 2]);
      RankOf(t, 2) == 2 && RankOf(RemovedAsWritten(t, 0), 2) == 1
  {
    var t := Ranked([Some(1), Some(2)], [Some(10), Some(20)], [1, 2]);
    assert Find(t.keys, 2) == 1;
    assert RemovedAsWritten(t, 0).keys == [Some(2)];
    assert Find(RemovedAsWritten(t, 0).keys, 2) == 0;
  }

  /** Closing the gap in all three arrays (`Removed`) keeps every other key with its value and its rank. */
  lemma RemovedKeepsRanks<K, V>(t: Ranked<K, V>, i: int, key: K)
    requires t.Aligned() && 0 <= i < |t.keys| && Distinct(t.keys) && t.keys[i] != Some(key)
    ensures SameEntry(Removed(t, i), t, key)
  {
    var r := Removed(t, i);
    DistinctRemoveAt(t.keys, i);
    var at := Find(t.keys, key);
    if 0 <= at {
      var j := if at < i then at else at - 1;
      assert r.keys[j] == Some(key);
      LookupAt(r.keys, r.values, j);
    } else {
      assert forall x :: x in r.keys ==> x in t.keys;
    }
  }

  /** A key found at slot `p` of `r` and slot `q` of `t` with the same value and rank there has the same entry in both. */
  lemma SameSlot<K, V>(r: Ranked<K, V>, t: Ranked<K, V>, p: int, q: int)
    requires r.Aligned() && t.Aligned() && Distinct(r.keys) && Distinct(t.keys)
    requires 0 <= p < |r.keys| && 0 <= q < |t.keys| && r.keys[p].Some? && r.keys[p] == t.keys[q]
    requires r.values[p] == t.values[q] && r.ranks[p] == t.ranks[q]
    ensures SameEntry(r, t, r.keys[p].value)
  {
    LookupAt(r.keys, r.values, p);
    LookupAt(t.keys, t.values, q);
  }

  /** Moving one entry alike in all three arrays keeps every key with its value and its rank. */
  lemma MovedKeeps<K, V>(t: Ranked<K, V>, from: int, to: int, key: K)
    requires t.Aligned() && 0 <= from < |t.keys| && 0 <= to < |t.keys| && Distinct(t.keys)
    ensures SameEntry(Ranked(MoveTo(t.keys, from, to), MoveTo(t.values, from, to), MoveTo(t.ranks, from, to)), t, key)
  {
    var r := Ranked(MoveTo(t.keys, from, to), MoveTo(t.values, from, to), MoveTo(t.ranks, from, to));
    MoveToFacts(t.keys, from, to);
    MoveToFacts(t.values, from, to);
    MoveToFacts(t.ranks, from, to);
    DistinctMoveTo(t.keys, from, to);
    var p := Find(r.keys, key);
    if 0 <= p {
      MoveToAt(t.keys, from, to, p);
      MoveToAt(t.values, from, to, p);
      MoveToAt(t.ranks, from, to, p);
      SameSlot(r, t, p, MovedFrom(from, to, p));
    } else {
      assert Some(key) !in multiset(r.keys);
    }
  }

  /** A new value and rank written into the slot of one key leave every other key's entry as it was. */
  lemma AssignedKeeps<K, V>(t: Ranked<K, V>, j: int, value: Option<V>, rank: int, key: K)
    requires t.Aligned() && 0 <= j < |t.keys| && Distinct(t.keys) && t.keys[j] != Some(key)
    ensures SameEntry(Ranked(t.keys, t.values[j := value], t.ranks[j := rank]), t, key)
  {
    var q := Find(t.keys, key);
    if 0 <= q {
      SameSlot(Ranked(t.keys, t.values[j := value], t.ranks[j := rank]), t, q, q);
    }
  }

  /**
   * A new key pushed in at the top in front of the first `m` slots, where
   * `m` is every slot or, on a full cache, all but the bottom one: every
   * other key keeps its entry, except the bottom key of a full cache, which
   * is gone.
   */
  lemma PushedKeeps<K, V>(t: Ranked<K, V>, capacity: int, key: K, value: Option<V>, rank: int, other: K)
    requires t.Aligned() && 1 <= capacity && |t.keys| <= capacity && Distinct(t.keys) && Some(key) !in t.keys
    ensures var m := if |t.keys| < capacity then |t.keys| else capacity - 1;
      var u := Ranked([Some(key)] + t.keys[..m], [value] + t.values[..m], [rank] + t.ranks[..m]);
      Distinct(u.keys) &&
      (other != key ==>
        if |t.keys| == capacity && t.keys[capacity - 1] == Some(other) then Some(other) !in u.keys
        else SameEntry(u, t, other))
  {
    var m := if |t.keys| < capacity then |t.keys| else capacity - 1;
    var u := Ranked([Some(key)] + t.keys[..m], [value] + t.values[..m], [rank] + t.ranks[..m]);
    assert Distinct(u.keys) by {
      assert forall x :: x in t.keys[..m] ==> x in t.keys;
    }
    var j := Find(t.keys, other);
    if other != key {
      if 0 <= j < m {
        SameSlot(u, t, j + 1, j);
      } else {
        assert forall p :: 1 <= p < |u.keys| ==> u.keys[p] == t.keys[p - 1];
        assert Some(other) !in t.keys[..m];
      }
    }
  }

  /**
   * A new key written below the first `m` slots, where `m` is every slot
   * or, on a full cache, all but the bottom one: every other key keeps its
   * entry, except the bottom key of a full cache, which is gone.
   */
  lemma PlacedKeeps<K, V>(t: Ranked<K, V>, capacity: int, key: K, value: Option<V>, rank: int, other: K)
    requires t.Aligned() && 1 <= capacity && |t.keys| <= capacity && Distinct(t.keys) && Some(key) !in t.keys
    ensures var m := if |t.keys| < capacity then |t.keys| else capacity - 1;
      var u := Ranked(t.keys[..m] + [Some(key)], t.values[..m] + [value], t.ranks[..m] + [rank]);
      Distinct(u.keys) &&
      (other != key ==>
        if |t.keys| == capacity && t.keys[capacity - 1] == Some(other) then Some(other) !in u.keys
        else SameEntry(u, t, other))
  {
    var m := if |t.keys| < capacity then |t.keys| else capacity - 1;
    var u := Ranked(t.keys[..m] + [Some(key)], t.values[..m] + [value], t.ranks[..m] + [rank]);
    assert Distinct(u.keys) by {
      assert forall x :: x in t.keys[..m] ==> x in t.keys;
    }
    var j := Find(t.keys, other);
    if other != key {
      if 0 <= j < m {
        SameSlot(u, t, j, j);
      } else {
        assert forall p :: 0 <= p < m ==> u.keys[p] == t.keys[p];
        assert Some(other) !in t.keys[..m];
      }
    }
  }

  /**
   * A held key's slot rewritten with a new value and rank and then sorted
   * into place by the two-way sort: the invariants hold, the key maps to
   * the new value and rank, and every other key keeps its entry.
   */
  lemma UpdateRerankKeeps<K, V>(t: Ranked<K, V>, at: int, value: Option<V>, rank: int, other: K)
    requires t.Aligned() && 0 <= at < |t.keys| && NonIncreasing(t.ranks) && Distinct(t.keys) && Packed(t.keys, |t.keys|)
    ensures var r := Rerank(Ranked(t.keys, t.values[at := value], t.ranks[at := rank]), at);
      NonIncreasing(r.ranks) && Distinct(r.keys) && Packed(r.keys, |r.keys|) && |r.keys| == |t.keys| &&
      Lookup(r.keys, r.values, t.keys[at].value) == value && RankOf(r, t.keys[at].value) == rank &&
      (Some(other) != t.keys[at] ==> SameEntry(r, t, other))
  {
    var u := Ranked(t.keys, t.values[at := value], t.ranks[at := rank]);
    RemoveAtUpdate(t.ranks, at, rank);
    RemoveAtNonIncreasing(t.ranks, at);
    RerankKeeps(u, at);
    LookupAt(u.keys, u.values, at);
    assert SameEntry(Rerank(u, at), u, t.keys[at].value);
    if Some(other) != t.keys[at] {
      AssignedKeeps(t, at, value, rank, other);
      assert SameEntry(Rerank(u, at), u, other);
    }
  }

  /**
   * A new key appended below the occupied slots and sorted into place by
   * the two-way sort: the invariants hold, the key maps to its value and
   * rank, and every other key keeps its entry.
   */
  lemma AppendRerankKeeps<K, V>(t: Ranked<K, V>, key: K, value: Option<V>, rank: int, other: K)
    requires t.Aligned() && NonIncreasing(t.ranks) && Distinct(t.keys) && Packed(t.keys, |t.keys|) && Some(key) !in t.keys
    ensures var r := Rerank(Ranked(t.keys + [Some(key)], t.values + [value], t.ranks + [rank]), |t.keys|);
      NonIncreasing(r.ranks) && Distinct(r.keys) && Packed(r.keys, |r.keys|) && |r.keys| == |t.keys| + 1 &&
      Lookup(r.keys, r.values, key) == value && RankOf(r, key) == rank &&
      (other != key ==> SameEntry(r, t, other))
  {
    var n := |t.keys|;
    var u := Ranked(t.keys + [Some(key)], t.values + [value], t.ranks + [rank]);
    RemoveAtLast(t.ranks + [rank]);
    DistinctSnocNew(t.keys, Some(key));
    RerankKeeps(u, n);
    LookupAt(u.keys, u.values, n);
    assert SameEntry(Rerank(u, n), u, key);
    if other != key {
      assert t.keys[..n] == t.keys && t.values[..n] == t.values && t.ranks[..n] == t.ranks;
      PlacedKeeps(t, n + 1, key, value, rank, other);
      assert SameEntry(Rerank(u, n), u, other);
    }
  }

  /**
   * A new key written over the bottom entry and sorted into place by the
   * two-way sort: the invariants hold, the key maps to its value and rank,
   * the bottom key is gone, and every other key keeps its entry.
   */
  lemma BottomRerankKeeps<K, V>(t: Ranked<K, V>, key: K, value: Option<V>, rank: int, other: K)
    requires t.Aligned() && 1 <= |t.keys| && NonIncreasing(t.ranks) && Distinct(t.keys) && Packed(t.keys, |t.keys|)
    requires Some(key) !in t.keys
    ensures var n := |t.keys|;
      var r := Rerank(Ranked(t.keys[n - 1 := Some(key)], t.values[n - 1 := value], t.ranks[n - 1 := rank]), n - 1);
      NonIncreasing(r.ranks) && Distinct(r.keys) && Packed(r.keys, |r.keys|) && |r.keys| == n &&
      Lookup(r.keys, r.values, key) == value && RankOf(r, key) == rank &&
      (other != key ==> if t.keys[n - 1] == Some(other) then Some(other) !in r.keys else SameEntry(r, t, other))
  {
    var n := |t.keys|;
    var u := Ranked(t.keys[n - 1 := Some(key)], t.values[n - 1 := value], t.ranks[n - 1 := rank]);
    DistinctReplace(t.keys, n - 1, Some(key));
    RemoveAtUpdate(t.ranks, n - 1, rank);
    RemoveAtNonIncreasing(t.ranks, n - 1);
    RerankKeeps(u, n - 1);
    LookupAt(u.keys, u.values, n - 1);
    assert SameEntry(Rerank(u, n - 1), u, key);
    if other != key {
      assert u.keys == t.keys[..n - 1] + [Some(key)];
      assert u.values == t.values[..n - 1] + [value];
      assert u.ranks == t.ranks[..n - 1] + [rank];
      PlacedKeeps(t, n, key, value, rank, other);
      assert SameEntry(Rerank(u, n - 1), u, other);
    }
  }

  /** Taking an element out and putting it back at the same index changes nothing. */
  lemma InsertRemove<T>(s: seq<T>, i: int)
    requires 0 <= i < |s|
    ensures InsertAt(RemoveAt(s, i), i, s[i]) == s
  {
  }

  /** Swapping the inserted element with its left neighbour inserts it one index earlier. */
  lemma InsertAtSwapLeft<T>(r: seq<T>, i: int, x: T)
    requires 0 < i <= |r|
    ensures InsertAt(r, i, x)[i - 1 := x][i := r[i - 1]] == InsertAt(r, i - 1, x)
  {
  }

  /** Swapping the inserted element with its right neighbour inserts it one index later. */
  lemma InsertAtSwapRight<T>(r: seq<T>, i: int, x: T)
    requires 0 <= i < |r|
    ensures InsertAt(r, i, x)[i + 1 := x][i := r[i]] == InsertAt(r, i + 1, x)
  {
  }

  /** An element inserted between a not-smaller and a not-larger neighbour keeps a non-increasing sequence non-increasing. */
  lemma InsertNonIncreasing(r: seq<int>, to: int, x: int)
    requires NonIncreasing(r) && Between(r, to, x)
    ensures NonIncreasing(InsertAt(r, to, x))
  {
    var s := InsertAt(r, to, x);
    forall i, j | 0 <= i < j < |s|
      ensures Rank(s, i) >= Rank(s, j)
    {
      if j < to {
        assert Rank(r, i) >= Rank(r, j);
      } else if j == to {
        if i < to - 1 {
          assert Rank(r, i) >= Rank(r, to - 1);
        }
      } else if i < to {
        assert Rank(r, i) >= Rank(r, j - 1);
      } else if i == to {
        if to < j - 1 {
          assert Rank(r, to) >= Rank(r, j - 1);
        }
      } else {
        assert Rank(r, i - 1) >= Rank(r, j - 1);
      }
    }
  }

  /** An element inserted between a not-larger and a not-smaller neighbour keeps a non-decreasing sequence non-decreasing. */
  lemma InsertNonDecreasing(r: seq<int>, to: int, x: int)
    requires NonDecreasing(r) && AfterNotAbove(r, to, x)
    ensures NonDecreasing(InsertAt(r, to, x))
  {
    var s := InsertAt(r, to, x);
    forall i, j | 0 <= i < j < |s|
      ensures Rank(s, i) <= Rank(s, j)
    {
      if j < to {
        assert Rank(r, i) <= Rank(r, j);
      } else if j == to {
        if i < to - 1 {
          assert Rank(r, i) <= Rank(r, to - 1);
        }
      } else if i < to {
        assert Rank(r, i) <= Rank(r, j - 1);
      } else if i == to {
        if to < j - 1 {
          assert Rank(r, to) <= Rank(r, j - 1);
        }
      } else {
        assert Rank(r, i - 1) <= Rank(r, j - 1);
      }
    }
  }

  // ----- one swap of the moving entry -----

  /** One swap of the moving element with its left neighbour, among the first `n` slots. */
  method StepLeft<T>(a: array<T>, n: int, ghost r: seq<T>, i: int, ghost x: T)
    requires 0 < i <= |r| && |r| + 1 == n <= a.Length
    requires a[..n] == InsertAt(r, i, x)
    modifies a
    ensures a[..n] == InsertAt(r, i - 1, x) && a[n..] == old(a[n..])
  {
    a[i - 1], a[i] := a[i], a[i - 1];
    InsertAtSwapLeft(r, i, x);
    assert a[..n] == old(a[..n])[i - 1 := x][i := r[i - 1]];
  }

  /** One swap of the moving element with its right neighbour, among the first `n` slots. */
  method StepRight<T>(a: array<T>, n: int, ghost r: seq<T>, i: int, ghost x: T)
    requires 0 <= i < |r| && |r| + 1 == n <= a.Length
    requires a[..n] == InsertAt(r, i, x)
    modifies a
    ensures a[..n] == InsertAt(r, i + 1, x) && a[n..] == old(a[n..])
  {
    a[i + 1], a[i] := a[i], a[i + 1];
    InsertAtSwapRight(r, i, x);
    assert a[..n] == old(a[..n])[i + 1 := x][i := r[i]];
  }

  /** One swap of the moving entry with its right neighbour, in all three arrays. */
  method EntryRight<K, V>(keys: array<Option<K>>, values: array<Option<V>>, ranks: array<int>, n: int,
                          ghost kr: seq<Option<K>>, ghost vr: seq<Option<V>>, ghost pr: seq<int>, i: int,
                          ghost kx: Option<K>, ghost vx: Option<V>, ghost x: int)
    requires keys as object != values as object
    requires 0 <= i < |pr| && |pr| + 1 == n && |kr| == |vr| == |pr|
    requires n <= keys.Length && n <= values.Length && n <= ranks.Length
    requires keys[..n] == InsertAt(kr, i, kx) && values[..n] == InsertAt(vr, i, vx) && ranks[..n] == InsertAt(pr, i, x)
    modifies keys, values, ranks
    ensures keys[..n] == InsertAt(kr, i + 1, kx) && keys[n..] == old(keys[n..])
    ensures values[..n] == InsertAt(vr, i + 1, vx) && values[n..] == old(values[n..])
    ensures ranks[..n] == InsertAt(pr, i + 1, x) && ranks[n..] == old(ranks[n..])
  {
    StepRight(keys, n, kr, i, kx);
    StepRight(values, n, vr, i, vx);
    StepRight(ranks, n, pr, i, x);
  }

  /** One swap of the moving entry with its left neighbour, in all three arrays. */
  method EntryLeft<K, V>(keys: array<Option<K>>, values: array<Option<V>>, ranks: array<int>, n: int,
                         ghost kr: seq<Option<K>>, ghost vr: seq<Option<V>>, ghost pr: seq<int>, i: int,
                         ghost kx: Option<K>, ghost vx: Option<V>, ghost x: int)
    requires keys as object != values as object
    requires 0 < i <= |pr| && |pr| + 1 == n && |kr| == |vr| == |pr|
    requires n <= keys.Length && n <= values.Length && n <= ranks.Length
    requires keys[..n] == InsertAt(kr, i, kx) && values[..n] == InsertAt(vr, i, vx) && ranks[..n] == InsertAt(pr, i, x)
    modifies keys, values, ranks
    ensures keys[..n] == InsertAt(kr, i - 1, kx) && keys[n..] == old(keys[n..])
    ensures values[..n] == InsertAt(vr, i - 1, vx) && values[n..] == old(values[n..])
    ensures ranks[..n] == InsertAt(pr, i - 1, x) && ranks[n..] == old(ranks[n..])
  {
    StepLeft(keys, n, kr, i, kx);
    StepLeft(values, n, vr, i, vx);
    StepLeft(ranks, n, pr, i, x);
  }

  // ----- the routines -----

  /**
   * The upward loop of the two-way sort. The first `n` slots hold the
   * moving entry (`kx`, `vx`, rank `x`) at `start` inside the other entries
   * (`kr`, `vr`, ranks `pr`); it is swapped left past every neighbour whose
   * rank is not above its own.
   */
  method Rise<K, V>(keys: array<Option<K>>, values: array<Option<V>>, ranks: array<int>, n: int, start: int,
                    ghost kr: seq<Option<K>>, ghost vr: seq<Option<V>>, ghost pr: seq<int>,
                    ghost kx: Option<K>, ghost vx: Option<V>, ghost x: int)
    returns (ghost to: int)
    requires keys as object != values as object
    requires 0 < start <= |pr| && |pr| + 1 == n && |kr| == |vr| == |pr|
    requires n <= keys.Length && n <= values.Length && n <= ranks.Length
    requires keys[..n] == InsertAt(kr, start, kx) && values[..n] == InsertAt(vr, start, vx)
    requires ranks[..n] == InsertAt(pr, start, x)
    requires pr[start - 1] < x && (start == |pr| || pr[start] <= pr[start - 1])
    modifies keys, values, ranks
    ensures 0 <= to < start && FrontOfEquals(pr, to, x) && Between(pr, to, x)
    ensures start < n - 1 ==> ranks[start] >= ranks[start + 1]
    ensures keys[..n] == InsertAt(kr, to, kx) && keys[n..] == old(keys[n..])
    ensures values[..n] == InsertAt(vr, to, vx) && values[n..] == old(values[n..])
    ensures ranks[..n] == InsertAt(pr, to, x) && ranks[n..] == old(ranks[n..])
  {
    var i := start;
    while i >= 1
      invariant 0 <= i <= start
      invariant keys[..n] == InsertAt(kr, i, kx) && keys[n..] == old(keys[n..])
      invariant values[..n] == InsertAt(vr, i, vx) && values[n..] == old(values[n..])
      invariant ranks[..n] == InsertAt(pr, i, x) && ranks[n..] == old(ranks[n..])
      invariant i == |pr| || pr[i] <= x
      invariant i < start || pr[start - 1] < x
    {
      assert ranks[i - 1] == pr[i - 1] && ranks[i] == x;
      if ranks[i - 1] > ranks[i] {
        break;
      }
      EntryLeft(keys, values, ranks, n, kr, vr, pr, i, kx, vx, x);
      i := i - 1;
    }
    to := i;
    assert ranks[start] == pr[start - 1];
    assert start < n - 1 ==> ranks[start + 1] == pr[start];
  }

  /**
   * The downward loop of the two-way sort, laid out as for `Rise`: the
   * moving entry is swapped right past every neighbour whose rank is not
   * below its own.
   */
  method Fall<K, V>(keys: array<Option<K>>, values: array<Option<V>>, ranks: array<int>, n: int, start: int,
                    ghost kr: seq<Option<K>>, ghost vr: seq<Option<V>>, ghost pr: seq<int>,
                    ghost kx: Option<K>, ghost vx: Option<V>, ghost x: int)
    returns (ghost to: int)
    requires keys as object != values as object
    requires 0 <= start < |pr| && |pr| + 1 == n && |kr| == |vr| == |pr|
    requires n <= keys.Length && n <= values.Length && n <= ranks.Length
    requires keys[..n] == InsertAt(kr, start, kx) && values[..n] == InsertAt(vr, start, vx)
    requires ranks[..n] == InsertAt(pr, start, x)
    requires x < pr[start] && (start == 0 || pr[start - 1] >= pr[start])
    modifies keys, values, ranks
    ensures start < to < n && BackOfEquals(pr, to, x) && Between(pr, to, x)
    ensures keys[..n] == InsertAt(kr, to, kx) && keys[n..] == old(keys[n..])
    ensures values[..n] == InsertAt(vr, to, vx) && values[n..] == old(values[n..])
    ensures ranks[..n] == InsertAt(pr, to, x) && ranks[n..] == old(ranks[n..])
  {
    var i := start;
    while i < n - 1
      invariant start <= i <= n - 1
      invariant keys[..n] == InsertAt(kr, i, kx) && keys[n..] == old(keys[n..])
      invariant values[..n] == InsertAt(vr, i, vx) && values[n..] == old(values[n..])
      invariant ranks[..n] == InsertAt(pr, i, x) && ranks[n..] == old(ranks[n..])
      invariant i == 0 || pr[i - 1] >= x
      invariant start < i || pr[start] > x
    {
      assert ranks[i + 1] == pr[i] && ranks[i] == x;
      if ranks[i + 1] < ranks[i] {
        break;
      }
      EntryRight(keys, values, ranks, n, kr, vr, pr, i, kx, vx, x);
      i := i + 1;
    }
    to := i;
  }

  /**
   * The loop of the one-way sort, laid out as for `Rise`: the moving entry
   * is swapped right past every neighbour whose rank is not above its own.
   */
  method Advance<K, V>(keys: array<Option<K>>, values: array<Option<V>>, ranks: array<int>, n: int, start: int,
                       ghost kr: seq<Option<K>>, ghost vr: seq<Option<V>>, ghost pr: seq<int>,
                       ghost kx: Option<K>, ghost vx: Option<V>, ghost x: int)
    returns (ghost to: int)
    requires keys as object != values as object
    requires 0 <= start <= |pr| && |pr| + 1 == n && |kr| == |vr| == |pr|
    requires n <= keys.Length && n <= values.Length && n <= ranks.Length
    requires keys[..n] == InsertAt(kr, start, kx) && values[..n] == InsertAt(vr, start, vx)
    requires ranks[..n] == InsertAt(pr, start, x)
    requires start == 0 || pr[start - 1] <= x
    modifies keys, values, ranks
    ensures start <= to < n && AfterNotAbove(pr, to, x)
    ensures keys[..n] == InsertAt(kr, to, kx) && keys[n..] == old(keys[n..])
    ensures values[..n] == InsertAt(vr, to, vx) && values[n..] == old(values[n..])
    ensures ranks[..n] == InsertAt(pr, to, x) && ranks[n..] == old(ranks[n..])
  {
    var i := start;
    while i < n - 1
      invariant start <= i <= n - 1
      invariant keys[..n] == InsertAt(kr, i, kx) && keys[n..] == old(keys[n..])
      invariant values[..n] == InsertAt(vr, i, vx) && values[n..] == old(values[n..])
      invariant ranks[..n] == InsertAt(pr, i, x) && ranks[n..] == old(ranks[n..])
      invariant i == 0 || pr[i - 1] <= x
    {
      assert ranks[i + 1] == pr[i] && ranks[i] == x;
      if ranks[i + 1] > ranks[i] {
        break;
      }
      EntryRight(keys, values, ranks, n, kr, vr, pr, i, kx, vx, x);
      i := i + 1;
    }
    to := i;
  }

  /** The two phases of the two-way sort, laid out as for `Rise`. */
  method Settle<K, V>(keys: array<Option<K>>, values: array<Option<V>>, ranks: array<int>, n: int, start: int,
                      ghost kr: seq<Option<K>>, ghost vr: seq<Option<V>>, ghost pr: seq<int>,
                      ghost kx: Option<K>, ghost vx: Option<V>, ghost x: int)
    returns (ghost to: int)
    requires keys as object != values as object
    requires 0 <= start <= |pr| && |pr| + 1 == n && |kr| == |vr| == |pr|
    requires n <= keys.Length && n <= values.Length && n <= ranks.Length
    requires keys[..n] == InsertAt(kr, start, kx) && values[..n] == InsertAt(vr, start, vx)
    requires ranks[..n] == InsertAt(pr, start, x)
    requires 0 < start < |pr| ==> pr[start] <= pr[start - 1]
    modifies keys, values, ranks
    ensures 0 <= to < n && Between(pr, to, x)
    ensures 0 < start && x > pr[start - 1] ==> to < start && FrontOfEquals(pr, to, x)
    ensures start < |pr| && x < pr[start] ==> start < to && BackOfEquals(pr, to, x)
    ensures (start == 0 || x <= pr[start - 1]) && (start == |pr| || x >= pr[start]) ==> to == start
    ensures keys[..n] == InsertAt(kr, to, kx) && keys[n..] == old(keys[n..])
    ensures values[..n] == InsertAt(vr, to, vx) && values[n..] == old(values[n..])
    ensures ranks[..n] == InsertAt(pr, to, x) && ranks[n..] == old(ranks[n..])
  {
    to := start;
    assert start > 0 ==> ranks[start - 1] == pr[start - 1];
    assert start < n - 1 ==> ranks[start + 1] == pr[start];
    if start > 0 && ranks[start] > ranks[start - 1] {
      to := Rise(keys, values, ranks, n, start, kr, vr, pr, kx, vx, x);
    }
    if start < n - 1 && ranks[start] < ranks[start + 1] {
      to := Fall(keys, values, ranks, n, start, kr, vr, pr, kx, vx, x);
    }
  }

  /**
   * The two-way `sort(int start)` of the priority and expiry caches: the
   * entry at `start` rises to the front of its equals when its rank is
   * above its left neighbour's, otherwise sinks to the back of its equals
   * when its rank is below its right neighbour's, otherwise stays. The
   * caches call it with the other ranks non-increasing; then the new index
   * keeps them non-increasing (`PlacedKeepsOrder`).
   */
  method Resort<K, V>(keys: array<Option<K>>, values: array<Option<V>>, ranks: array<int>, n: int, start: int)
    returns (ghost to: int)
    requires keys as object != values as object
    requires 0 <= start < n <= keys.Length && n <= values.Length && n <= ranks.Length
    requires 0 < start < n - 1 ==> ranks[start + 1] <= ranks[start - 1]
    modifies keys, values, ranks
    ensures 0 <= to < n && Placed(old(ranks[..n]), start, to)
    ensures keys[..n] == MoveTo(old(keys[..n]), start, to) && keys[n..] == old(keys[n..])
    ensures values[..n] == MoveTo(old(values[..n]), start, to) && values[n..] == old(values[n..])
    ensures ranks[..n] == MoveTo(old(ranks[..n]), start, to) && ranks[n..] == old(ranks[n..])
  {
    ghost var kr, vr, pr := RemoveAt(keys[..n], start), RemoveAt(values[..n], start), RemoveAt(ranks[..n], start);
    ghost var kx, vx, x := keys[start], values[start], ranks[start];
    InsertRemove(keys[..n], start);
    InsertRemove(values[..n], start);
    InsertRemove(ranks[..n], start);
    assert start > 0 ==> pr[start - 1] == ranks[start - 1];
    assert start < n - 1 ==> pr[start] == ranks[start + 1];
    to := Settle(keys, values, ranks, n, start, kr, vr, pr, kx, vx, x);
    assert keys[..n] == MoveTo(old(keys[..n]), start, to);
    assert values[..n] == MoveTo(old(values[..n]), start, to);
    assert ranks[..n] == MoveTo(old(ranks[..n]), start, to);
  }

  /**
   * The one-way `sort(int start)` of the MFU cache, on ranks that are
   * non-decreasing apart from the one at `start`, which is not below its
   * left neighbour: the entry is swapped right past every neighbour whose
   * rank is not above its own. Afterwards the ranks are non-decreasing.
   */
  method Sink<K, V>(keys: array<Option<K>>, values: array<Option<V>>, ranks: array<int>, n: int, start: int)
    returns (ghost to: int)
    requires keys as object != values as object
    requires 0 <= start < n <= keys.Length && n <= values.Length && n <= ranks.Length
    requires start == 0 || ranks[start - 1] <= ranks[start]
    modifies keys, values, ranks
    ensures start <= to < n
    ensures AfterNotAbove(RemoveAt(old(ranks[..n]), start), to, old(ranks[start]))
    ensures keys[..n] == MoveTo(old(keys[..n]), start, to) && keys[n..] == old(keys[n..])
    ensures values[..n] == MoveTo(old(values[..n]), start, to) && values[n..] == old(values[n..])
    ensures ranks[..n] == MoveTo(old(ranks[..n]), start, to) && ranks[n..] == old(ranks[n..])
  {
    ghost var kr, vr, pr := RemoveAt(keys[..n], start), RemoveAt(values[..n], start), RemoveAt(ranks[..n], start);
    ghost var kx, vx, x := keys[start], values[start], ranks[start];
    InsertRemove(keys[..n], start);
    InsertRemove(values[..n], start);
    InsertRemove(ranks[..n], start);
    assert start == 0 || pr[start - 1] == ranks[start - 1];
    to := Advance(keys, values, ranks, n, start, kr, vr, pr, kx, vx, x);
    assert keys[..n] == MoveTo(old(keys[..n]), start, to);
    assert values[..n] == MoveTo(old(values[..n]), start, to);
    assert ranks[..n] == MoveTo(old(ranks[..n]), start, to);
  }
}
