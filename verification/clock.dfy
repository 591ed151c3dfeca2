/**
 * Time arithmetic of the quiz. Timestamps are milliseconds since the epoch as
 * kept in browser storage; the current time is always passed in as `now`.
 */
module Clock {
  import opened Options

  /**
   * Reading a stored timestamp: it counts only when it is a positive number.
   * `None` stands for an absent key or a value that does not parse as a finite number.
   */
  function ReadTimestamp(stored: Option<int>): (t: Option<int>)
    ensures t.Some? <==> stored.Some? && stored.value > 0
    ensures t.Some? ==> t.value == stored.value
  {
    if stored.Some? && stored.value > 0 then stored else None
  }

  /** `Math.floor(ms / 1000)`: whole seconds in a (possibly negative) span of milliseconds. */
  function WholeSeconds(ms: int): (s: int)
    ensures s * 1000 <= ms < s * 1000 + 1000
  {
    ms / 1000
  }

  /** Whole seconds elapsed since a stored timestamp, or `None` when the timestamp does not count. */
  function SecondsSince(stored: Option<int>, now: int): (r: Option<int>)
    ensures r.Some? <==> stored.Some? && stored.value > 0
    ensures r.Some? ==> r.value * 1000 <= now - stored.value < r.value * 1000 + 1000
  {
    match ReadTimestamp(stored)
    case None => None
    case Some(t) => Some(WholeSeconds(now - t))
  }

  /** A later reference point never yields more elapsed seconds. */
  lemma WholeSecondsMonotonic(a: int, b: int)
    requires a <= b
    ensures WholeSeconds(a) <= WholeSeconds(b)
  {
    var x, y := WholeSeconds(a), WholeSeconds(b);
    assert x * 1000 < y * 1000 + 1000;
  }
}
