/**
 * The two tests the time caches (`TimeCache`, `ExpireCache`) apply to a
 * stored timestamp, which is the instant (in milliseconds) at which the
 * entry's time-to-live ends.
 */
module Expiry {
  import opened Cache

  /**
   * The expiry test of `get(key)` as the code writes it: the entry counts as
   * expired when its timestamp is LATER than the current time.
   */
  predicate Expired(stamp: int, now: int)
  {
    stamp > now
  }

  /**
   * The expiry test the time-to-live evidently intends: the entry has expired
   * once the current time has passed its timestamp.
   */
  predicate Lapsed(stamp: int, now: int)
  {
    now > stamp
  }

  /**
   * Whether `put` of a held key stamped `stamp` refreshes it (a new
   * timestamp, and a new place): the stamp is after `now`, or the mode is
   * AFTER_ACCESS or AFTER_UPDATE.
   */
  predicate Refreshes(mode: ExpireMode, stamp: int, now: int)
  {
    stamp > now || mode.AfterAccess? || mode.AfterUpdate?
  }
}
