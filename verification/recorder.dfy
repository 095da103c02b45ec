/**
 * The metrics recorder attached to the newest caches: eight counters, six of
 * them bumped by event methods and two (size, capacity) overwritten before
 * the metrics map is read.
 */
module Recorder {
  import opened Cache

  /** The counter values of a recorder. */
  datatype Counts = Counts(
    hits: int, misses: int, puts: int, removes: int,
    evictions: int, clears: int, size: int, capacity: int)

  /** The six events a cache reports to its recorder. */
  datatype Event = HitEvent | MissEvent | PutEvent | RemoveEvent | EvictionEvent | ClearEvent

  /** The counters after one event: its own counter goes up by one. */
  function Record(c: Counts, e: Event): Counts
  {
    match e
    case HitEvent => c.(hits := c.hits + 1)
    case MissEvent => c.(misses := c.misses + 1)
    case PutEvent => c.(puts := c.puts + 1)
    case RemoveEvent => c.(removes := c.removes + 1)
    case EvictionEvent => c.(evictions := c.evictions + 1)
    case ClearEvent => c.(clears := c.clears + 1)
  }

  /** The counters after a sequence of events, recorded in order. */
  function Replay(c: Counts, events: seq<Event>): Counts
    decreases |events|
  {
    if events == [] then c else Replay(Record(c, events[0]), events[1..])
  }

  /** How many times `e` occurs in `events`. */
  function Occurrences(events: seq<Event>, e: Event): nat
  {
    if events == [] then 0
    else (if events[0] == e then 1 else 0) + Occurrences(events[1..], e)
  }

  /** All counters start at zero. */
  const Zero := Counts(0, 0, 0, 0, 0, 0, 0, 0)

  /**
   * The metrics map for the given counters: exactly the eight identifiers, as
   * `MetricType.identifier()` spells them, each mapped to its counter.
   */
  function MetricsMap(c: Counts): (m: map<string, int>)
    ensures m.Keys == {"hits", "misses", "puts", "removes", "evictions", "clears", "size", "capacity"}
    ensures m["hits"] == c.hits && m["misses"] == c.misses && m["puts"] == c.puts
    ensures m["removes"] == c.removes && m["evictions"] == c.evictions && m["clears"] == c.clears
    ensures m["size"] == c.size && m["capacity"] == c.capacity
  {
    map["hits" := c.hits, "misses" := c.misses, "puts" := c.puts, "removes" := c.removes,
        "evictions" := c.evictions, "clears" := c.clears, "size" := c.size, "capacity" := c.capacity]
  }

  /** Each event adds exactly one to its own counter and leaves the other seven unchanged. */
  lemma RecordOne(c: Counts, e: Event)
    ensures Record(c, e).hits == c.hits + (if e == HitEvent then 1 else 0)
    ensures Record(c, e).misses == c.misses + (if e == MissEvent then 1 else 0)
    ensures Record(c, e).puts == c.puts + (if e == PutEvent then 1 else 0)
    ensures Record(c, e).removes == c.removes + (if e == RemoveEvent then 1 else 0)
    ensures Record(c, e).evictions == c.evictions + (if e == EvictionEvent then 1 else 0)
    ensures Record(c, e).clears == c.clears + (if e == ClearEvent then 1 else 0)
    ensures Record(c, e).size == c.size && Record(c, e).capacity == c.capacity
  {
  }

  /** Replaying a log adds to each counter the number of its events, and never touches size or capacity. */
  lemma {:induction false} ReplayCounts(c: Counts, events: seq<Event>)
    ensures Replay(c, events).hits == c.hits + Occurrences(events, HitEvent)
    ensures Replay(c, events).misses == c.misses + Occurrences(events, MissEvent)
    ensures Replay(c, events).puts == c.puts + Occurrences(events, PutEvent)
    ensures Replay(c, events).removes == c.removes + Occurrences(events, RemoveEvent)
    ensures Replay(c, events).evictions == c.evictions + Occurrences(events, EvictionEvent)
    ensures Replay(c, events).clears == c.clears + Occurrences(events, ClearEvent)
    ensures Replay(c, events).size == c.size && Replay(c, events).capacity == c.capacity
    decreases |events|
  {
    if events != [] {
      RecordOne(c, events[0]);
      ReplayCounts(Record(c, events[0]), events[1..]);
    }
  }

  /** The six event counters never decrease. */
  lemma ReplayMonotone(c: Counts, events: seq<Event>)
    ensures c.hits <= Replay(c, events).hits && c.misses <= Replay(c, events).misses
    ensures c.puts <= Replay(c, events).puts && c.removes <= Replay(c, events).removes
    ensures c.evictions <= Replay(c, events).evictions && c.clears <= Replay(c, events).clears
  {
    ReplayCounts(c, events);
  }

  /** Recording two logs one after the other is recording their concatenation. */
  lemma {:induction false} ReplayAppend(c: Counts, first: seq<Event>, second: seq<Event>)
    ensures Replay(c, first + second) == Replay(Replay(c, first), second)
    decreases |first|
  {
    if first != [] {
      assert (first + second)[1..] == first[1..] + second;
      ReplayAppend(Record(c, first[0]), first[1..], second);
    } else {
      assert first + second == second;
    }
  }

  /** The counters of a cache object; the recorder is shared by reference with its cache. */
  class CacheRecorder {
    var hits: int
    var misses: int
    var puts: int
    var removes: int
    var evictions: int
    var clears: int
    var size: int
    var capacity: int

    /** The eight counters as one value. */
    function Counters(): Counts
      reads this
    {
      Counts(hits, misses, puts, removes, evictions, clears, size, capacity)
    }

    /** A new recorder has all eight counters at zero. */
    constructor()
      ensures Counters() == Zero
    {
      hits, misses, puts, removes := 0, 0, 0, 0;
      evictions, clears, size, capacity := 0, 0, 0, 0;
    }

    /** `metrics()`: the map from the eight identifiers to the current counts; no counter changes. */
    method Metrics() returns (m: map<string, int>)
      ensures m == MetricsMap(Counters())
    {
      m := map[];
      m := m["hits" := hits];
      m := m["misses" := misses];
      m := m["puts" := puts];
      m := m["removes" := removes];
      m := m["evictions" := evictions];
      m := m["clears" := clears];
      m := m["size" := size];
      m := m["capacity" := capacity];
    }

    /** `hit()`: the hit counter up by one, the others unchanged. */
    method Hit()
      modifies this
      ensures Counters() == Record(old(Counters()), HitEvent)
    {
      hits := hits + 1;
    }

    /** `miss()`: the miss counter up by one, the others unchanged. */
    method Miss()
      modifies this
      ensures Counters() == Record(old(Counters()), MissEvent)
    {
      misses := misses + 1;
    }

    /** `put()`: the put counter up by one, the others unchanged. */
    method Put()
      modifies this
      ensures Counters() == Record(old(Counters()), PutEvent)
    {
      puts := puts + 1;
    }

    /** `remove()`: the remove counter up by one, the others unchanged. */
    method Remove()
      modifies this
      ensures Counters() == Record(old(Counters()), RemoveEvent)
    {
      removes := removes + 1;
    }

    /** `eviction()`: the eviction counter up by one, the others unchanged. */
    method Eviction()
      modifies this
      ensures Counters() == Record(old(Counters()), EvictionEvent)
    {
      evictions := evictions + 1;
    }

    /** `clear()`: the clear counter up by one, the others unchanged. */
    method Clear()
      modifies this
      ensures Counters() == Record(old(Counters()), ClearEvent)
    {
      clears := clears + 1;
    }

    /** `size(n)`: a negative size is refused; otherwise only the size counter changes. */
    method Size(n: int) returns (r: Result<()>)
      modifies this
      ensures r.Err? <==> n < 0
      ensures r.Err? ==> r.error == IllegalArgument && Counters() == old(Counters())
      ensures r.Ok? ==> Counters() == old(Counters()).(size := n)
    {
      if n < 0 {
        return Err(IllegalArgument);
      }
      size := n;
      return Ok(());
    }

    /** `capacity(n)`: a capacity below one is refused; otherwise only the capacity counter changes. */
    method Capacity(n: int) returns (r: Result<()>)
      modifies this
      ensures r.Err? <==> n < 1
      ensures r.Err? ==> r.error == IllegalArgument && Counters() == old(Counters())
      ensures r.Ok? ==> Counters() == old(Counters()).(capacity := n)
    {
      if n < 1 {
        return Err(IllegalArgument);
      }
      capacity := n;
      return Ok(());
    }
  }

  /** The log a cache writes: when it has a recorder, the recorder's counters advance by exactly `events`. */
  twostate predicate Logged(recorder: CacheRecorder?, events: seq<Event>)
    reads recorder
  {
    recorder != null ==> recorder.Counters() == Replay(old(recorder.Counters()), events)
  }
}
