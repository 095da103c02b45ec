/**
 * The vocabulary shared by every cache class: Java's nullable references,
 * the exceptions the caches throw, the entry records accepted by
 * `put(CacheEntry)`, and the read-only contract of the `Cache` interface
 * (what `peekTop`, `peekBottom`, `get(key, default)` return).
 */
module Cache {

  /** A Java reference that may be `null`. */
  datatype Option<+T> = None | Some(value: T)

  /** The exceptions thrown by the caches, one constructor per Java class. */
  datatype Error =
    | IllegalArgument        // java.lang.IllegalArgumentException
    | NoSuchElement          // java.util.NoSuchElementException
    | IndexOutOfBounds       // IndexOutOfBoundsException thrown by an explicit index guard
    | ArrayIndexOutOfBounds  // an array read at index -1 or at index capacity
    | InvalidCacheEntry      // InvalidCacheEntryException
    | IllegalCacheState      // IllegalCacheStateException
    | CacheUnderflow         // CacheUnderflowException

  /** The outcome of a call that may throw. */
  datatype Result<+T> = Ok(value: T) | Err(error: Error)

  /** `java.util.concurrent.TimeUnit`, the units accepted for a time-to-live. */
  datatype TimeUnit = Nanoseconds | Microseconds | Milliseconds | Seconds | Minutes | Hours | Days

  /** `unit.toMillis(d)` for a non-negative duration (saturation at Long.MAX_VALUE is not modelled). */
  function ToMillis(unit: TimeUnit, d: int): (ms: int)
    requires d >= 0
    ensures 0 <= ms
    ensures unit == Milliseconds ==> ms == d
    ensures unit.Nanoseconds? || unit.Microseconds? || unit.Milliseconds? ==> ms <= d
    ensures !(unit.Nanoseconds? || unit.Microseconds? || unit.Milliseconds?) ==> d <= ms
  {
    match unit
    case Nanoseconds => d / 1000000
    case Microseconds => d / 1000
    case Milliseconds => d
    case Seconds => d * 1000
    case Minutes => d * 60000
    case Hours => d * 3600000
    case Days => d * 86400000
  }

  /**
   * The time-to-live modes the time caches test for. Only AFTER_ACCESS and
   * AFTER_UPDATE are referenced by the caches; `OtherMode` stands for any
   * other constant of the enumeration.
   */
  datatype ExpireMode = AfterAccess | AfterUpdate | OtherMode

  /** The entry records a cache may be handed by `put(CacheEntry)`. */
  datatype CacheEntry<K, V> =
    | BasicEntry(key: Option<K>, value: Option<V>)
    | PriorityEntry(key: Option<K>, value: Option<V>, priority: Option<int>)
    | ExpireEntry(key: Option<K>, value: Option<V>, time: int, unit: Option<TimeUnit>)

  /** `get(key, defaultValue)`: a `null` result of `get(key)` becomes the default. */
  function OrDefault<V>(value: Option<V>, defaultValue: Option<V>): (r: Option<V>)
    ensures r == defaultValue || r == value
    ensures r.None? ==> value.None? && defaultValue.None?
    ensures value.Some? ==> r == value
  {
    if value.None? then defaultValue else value
  }

  /** The value the interface promises for `peekTop` on entries listed top first: `null` when empty. */
  function Top<V>(values: seq<Option<V>>): Option<V>
  {
    if values == [] then None else values[0]
  }

  /** The value the interface promises for `peekBottom`: `null` when empty. */
  function Bottom<V>(values: seq<Option<V>>): Option<V>
  {
    if values == [] then None else values[|values| - 1]
  }

  /** `elementTop`/`elementBottom`/`pollTop`/`pollBottom`: the given exception on an empty cache. */
  function Element<V>(values: seq<Option<V>>, top: bool, underflow: Error): (r: Result<Option<V>>)
    ensures values == [] <==> r.Err?
    ensures r.Err? ==> r.error == underflow
    ensures r.Ok? ==> r.value == (if top then Top(values) else Bottom(values))
  {
    if values == [] then Err(underflow)
    else if top then Ok(values[0])
    else Ok(values[|values| - 1])
  }
}
