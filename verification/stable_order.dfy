/**
 * The order `Arrays.sort(indexes, comparingInt(frequency).reversed())`
 * gives the occupied indexes in the old LFU cache's `sort()`: a stable sort
 * by descending frequency. The library's merge sort is stood in for by an
 * insertion sort with the same contract (`OrderSorted`, `OrderPermutes`):
 * the indexes end in non-increasing frequency, and indexes of equal
 * frequency keep their original order.
 */
module StableOrder {
  import opened Slots

  /** Every entry of `o` is an index below `n`. */
  predicate InRange(o: seq<int>, n: int)
  {
    forall a :: 0 <= a < |o| ==> 0 <= o[a] < n
  }

  /** The frequency of the index at position `a` of the order `o`. */
  function At(p: seq<int>, o: seq<int>, a: int): int
    requires 0 <= a < |o| && InRange(o, |p|)
  {
    p[o[a]]
  }

  /** Frequencies read along `o` do not increase. */
  predicate Descending(p: seq<int>, o: seq<int>)
    requires InRange(o, |p|)
  {
    forall a, b {:trigger At(p, o, a), At(p, o, b)} :: 0 <= a < b < |o| ==> At(p, o, a) >= At(p, o, b)
  }

  /** Indexes of equal frequency appear in `o` in increasing order. */
  predicate Stable(p: seq<int>, o: seq<int>)
    requires InRange(o, |p|)
  {
    forall a, b {:trigger At(p, o, a), At(p, o, b)} :: 0 <= a < b < |o| && At(p, o, a) == At(p, o, b) ==> o[a] < o[b]
  }

  /** The indexes `0, 1, ..., n - 1`. */
  function Range(n: nat): (r: seq<int>)
    ensures |r| == n && InRange(r, n)
    ensures forall a :: 0 <= a < n ==> r[a] == a
  {
    seq(n, a => a)
  }

  /** Index `i` inserted into the order `o` behind every index whose frequency is not below its own. */
  function InsertIndex(p: seq<int>, o: seq<int>, i: int): (r: seq<int>)
    requires InRange(o, |p|) && 0 <= i < |p|
    ensures |r| == |o| + 1 && InRange(r, |p|)
  {
    if o == [] || p[o[0]] < p[i] then [i] + o
    else
      assert o == [o[0]] + o[1..];
      [o[0]] + InsertIndex(p, o[1..], i)
  }

  /** The first `n` indexes of `p` in the order the stable descending sort gives them. */
  function Order(p: seq<int>, n: int): (o: seq<int>)
    requires 0 <= n <= |p|
    ensures |o| == n && InRange(o, |p|) && InRange(o, n)
  {
    if n == 0 then []
    else
      var o := Order(p, n - 1);
      InsertIndexBound(p, o, n - 1, n);
      InsertIndex(p, o, n - 1)
  }

  /** `s` read in the order `o`. */
  function Permute<T>(s: seq<T>, o: seq<int>): (r: seq<T>)
    requires InRange(o, |s|)
    ensures |r| == |o|
  {
    seq(|o|, a requires 0 <= a < |o| => s[o[a]])
  }

  /** Whether some frequency is above the first one: the flag the comparator raises in `sort()`. */
  function AnyAbove(p: seq<int>, x: int): (b: bool)
    ensures b <==> exists a :: 0 <= a < |p| && p[a] > x
  {
    if p == [] then false
    else if p[0] > x then true
    else
      assert forall a :: 1 <= a < |p| ==> p[a] == p[1..][a - 1];
      AnyAbove(p[1..], x)
  }

  // ----- facts -----

  /** Index `j` goes before index `x` in the stable descending order. */
  predicate Leads(p: seq<int>, j: int, x: int)
    requires 0 <= j < |p| && 0 <= x < |p|
  {
    p[j] > p[x] || (p[j] == p[x] && j < x)
  }

  /** Inserting an index below `b` into an order of indexes below `b` keeps them below `b`. */
  lemma {:induction false} InsertIndexBound(p: seq<int>, o: seq<int>, i: int, b: int)
    requires InRange(o, |p|) && 0 <= i < |p| && InRange(o, b) && 0 <= i < b
    ensures InRange(InsertIndex(p, o, i), b)
  {
    if o != [] && p[o[0]] >= p[i] {
      assert InRange(o[1..], b);
      InsertIndexBound(p, o[1..], i, b);
    }
  }

  /** An index that leads every index of `o` and `i` also leads every index of the order after the insertion. */
  lemma {:induction false} LeadsInsert(p: seq<int>, o: seq<int>, i: int, j: int)
    requires InRange(o, |p|) && 0 <= i < |p| && 0 <= j < |p|
    requires forall a :: 0 <= a < |o| ==> Leads(p, j, o[a])
    requires Leads(p, j, i)
    ensures forall c :: 0 <= c < |o| + 1 ==> Leads(p, j, InsertIndex(p, o, i)[c])
  {
    if o != [] && p[o[0]] >= p[i] {
      var o' := o[1..];
      assert forall a :: 0 <= a < |o'| ==> o'[a] == o[a + 1];
      LeadsInsert(p, o', i, j);
      var r := InsertIndex(p, o, i);
      assert r == [o[0]] + InsertIndex(p, o', i);
      forall c | 0 <= c < |o| + 1
        ensures Leads(p, j, r[c])
      {
        if c > 0 {
          assert r[c] == InsertIndex(p, o', i)[c - 1];
        }
      }
    }
  }

  /** Inserting a new, larger index keeps the order descending and stable. */
  lemma {:induction false} InsertIndexKeeps(p: seq<int>, o: seq<int>, i: int)
    requires InRange(o, |p|) && 0 <= i < |p| && Descending(p, o) && Stable(p, o) && InRange(o, i)
    ensures Descending(p, InsertIndex(p, o, i)) && Stable(p, InsertIndex(p, o, i))
  {
    var r := InsertIndex(p, o, i);
    if o == [] {
    } else if p[o[0]] < p[i] {
      forall a, b | 0 <= a < b < |r|
        ensures At(p, r, a) >= At(p, r, b)
        ensures At(p, r, a) == At(p, r, b) ==> r[a] < r[b]
      {
        if a == 0 {
          assert At(p, o, 0) >= At(p, o, b - 1);
        } else {
          assert At(p, o, a - 1) >= At(p, o, b - 1);
        }
      }
    } else {
      var o' := o[1..];
      assert forall a :: 0 <= a < |o'| ==> o'[a] == o[a + 1];
      assert Descending(p, o') && Stable(p, o') by {
        forall a, b | 0 <= a < b < |o'|
          ensures At(p, o', a) >= At(p, o', b)
          ensures At(p, o', a) == At(p, o', b) ==> o'[a] < o'[b]
        {
          assert At(p, o, a + 1) >= At(p, o, b + 1);
        }
      }
      InsertIndexKeeps(p, o', i);
      var r' := InsertIndex(p, o', i);
      assert r == [o[0]] + r';
      forall d | 0 <= d < |o'|
        ensures Leads(p, o[0], o'[d])
      {
        assert At(p, o, 0) >= At(p, o, d + 1);
      }
      LeadsInsert(p, o', i, o[0]);
      forall a, b | 0 <= a < b < |r|
        ensures At(p, r, a) >= At(p, r, b)
        ensures At(p, r, a) == At(p, r, b) ==> r[a] < r[b]
      {
        if a == 0 {
          assert r[b] == r'[b - 1];
          assert Leads(p, o[0], r'[b - 1]);
        } else {
          assert At(p, r', a - 1) >= At(p, r', b - 1);
        }
      }
    }
  }

  /** The stable descending sort: frequencies read along the order do not increase, and equal ones keep their index order. */
  lemma {:induction false} OrderSorted(p: seq<int>, n: int)
    requires 0 <= n <= |p|
    ensures Descending(p, Order(p, n)) && Stable(p, Order(p, n))
  {
    if n > 0 {
      OrderSorted(p, n - 1);
      InsertIndexKeeps(p, Order(p, n - 1), n - 1);
    }
  }

  /** Inserting adds exactly the one index, and adds no repeat when it was not there. */
  lemma {:induction false} InsertIndexHas(p: seq<int>, o: seq<int>, i: int)
    requires InRange(o, |p|) && 0 <= i < |p|
    ensures forall x :: x in InsertIndex(p, o, i) <==> x in o || x == i
    ensures Distinct(o) && i !in o ==> Distinct(InsertIndex(p, o, i))
  {
    if o != [] && p[o[0]] >= p[i] {
      var o' := o[1..];
      assert InRange(o', |p|);
      InsertIndexHas(p, o', i);
      assert o == [o[0]] + o';
      assert InsertIndex(p, o, i) == [o[0]] + InsertIndex(p, o', i);
      if Distinct(o) && i !in o {
        assert Distinct(o') && i !in o';
        assert o[0] !in o';
      }
    }
  }

  /** The order holds every index below `n` exactly once. */
  lemma {:induction false} OrderPermutes(p: seq<int>, n: int)
    requires 0 <= n <= |p|
    ensures Distinct(Order(p, n))
    ensures forall j :: 0 <= j < n ==> j in Order(p, n)
  {
    if n > 0 {
      var o := Order(p, n - 1);
      OrderPermutes(p, n - 1);
      InsertIndexHas(p, o, n - 1);
      assert n - 1 !in o;
    }
  }

  /** An index whose frequency is not above any already placed goes last. */
  lemma {:induction false} InsertLast(p: seq<int>, o: seq<int>, i: int)
    requires InRange(o, |p|) && 0 <= i < |p|
    requires forall a :: 0 <= a < |o| ==> p[o[a]] >= p[i]
    ensures InsertIndex(p, o, i) == o + [i]
  {
    if o != [] {
      assert forall a :: 0 <= a < |o| - 1 ==> o[1..][a] == o[a + 1];
      InsertLast(p, o[1..], i);
      assert o == [o[0]] + o[1..];
    }
  }

  /** Frequencies already in non-increasing order are left in place: the order is the identity. */
  lemma {:induction false} OrderIdentity(p: seq<int>, n: int)
    requires 0 <= n <= |p|
    requires forall a, b :: 0 <= a < b < n ==> p[a] >= p[b]
    ensures Order(p, n) == Range(n)
  {
    if n > 0 {
      OrderIdentity(p, n - 1);
      assert Range(n) == Range(n - 1) + [n - 1];
      InsertLast(p, Range(n - 1), n - 1);
    }
  }

  /** Reading distinct elements along an order without repeats gives distinct elements. */
  lemma PermuteDistinct<T>(s: seq<T>, o: seq<int>)
    requires InRange(o, |s|) && Distinct(s) && Distinct(o)
    ensures Distinct(Permute(s, o))
  {
    var r := Permute(s, o);
    forall a, b | 0 <= a < b < |r|
      ensures r[a] != r[b]
    {
      assert o[a] != o[b];
    }
  }

  /** The copy loop of `sort()` on one array: slot `i` takes element `order[i]` of the snapshot `s`. */
  method Gather<T>(a: array<T>, s: seq<T>, order: seq<int>)
    requires |order| <= a.Length && InRange(order, |s|)
    modifies a
    ensures a[..] == Permute(s, order) + old(a[|order|..])
  {
    var i := 0;
    while i < |order|
      invariant 0 <= i <= |order|
      invariant forall k :: 0 <= k < i ==> a[k] == s[order[k]]
      invariant forall k :: i <= k < a.Length ==> a[k] == old(a[k])
    {
      a[i] := s[order[i]];
      i := i + 1;
    }
    assert a[..] == Permute(s, order) + old(a[|order|..]);
  }
}
