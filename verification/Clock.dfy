/** Moments of a monotonic clock. */
module Clock {

  /** `Instant::duration_since`, which never goes below zero. */
  function Elapsed(now: nat, since: nat): nat { if now >= since then now - since else 0 }
}
