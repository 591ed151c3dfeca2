/**
 * The score screen: elapsed time since the start, rendered as
 * `M min S s`, and the two counters.
 */
module Score {
  import opened Options
  import opened Text
  import opened Clock
  import opened State

  /** JavaScript's `%` for a positive divisor: the remainder takes the sign of the dividend. */
  function JsRemainder(a: int, b: int): (r: int)
    requires b > 0
    ensures a >= 0 ==> 0 <= r < b
    ensures a < 0 ==> -b < r <= 0
    ensures exists q :: a == q * b + r
  {
    if a >= 0 then
      assert a == (a / b) * b + a % b;
      a % b
    else
      var q := (-a) / b;
      assert a == (-q) * b - (-a) % b;
      -((-a) % b)
  }

  /** Truncating remainder is odd in the dividend, which is where it parts from the floor remainder. */
  lemma JsRemainderOdd(a: int, b: int)
    requires b > 0
    ensures JsRemainder(-a, b) == -JsRemainder(a, b)
  {
  }

  /** The split the page performs: `Math.floor(seconds / 60)` minutes and `seconds % 60` seconds. */
  function SplitAsWritten(seconds: int): (r: (int, int))
    ensures seconds >= 0 ==> r.0 * 60 + r.1 == seconds && 0 <= r.1 < 60
  {
    (seconds / 60, JsRemainder(seconds, 60))
  }

  /** The duration text as the page renders it. */
  function FormatDurationAsWritten(seconds: int): string {
    var (m, r) := SplitAsWritten(seconds);
    IntToDecimal(m) + " min " + IntToDecimal(r) + " s"
  }

  /**
   * A negative span (the clock set back after the code was entered) is
   * rendered with parts that do not add up: -5 s shows as "-1 min -5 s",
   * which reads as -65 s.
   */
  lemma NegativeSpanMisrendered()
    ensures SplitAsWritten(-5) == (-1, -5)
    ensures SplitAsWritten(-5).0 * 60 + SplitAsWritten(-5).1 != -5
    ensures FormatDurationAsWritten(-5) == "-1 min -5 s"
  {
    assert IntToDecimal(-1) == "-1";
    assert IntToDecimal(-5) == "-5";
  }

  /** Minutes and seconds with floor semantics for both parts: they recombine to the span. */
  function Split(seconds: int): (r: (int, int))
    ensures r.0 * 60 + r.1 == seconds
    ensures 0 <= r.1 < 60
  {
    (seconds / 60, seconds % 60)
  }

  /** The minute/second decomposition is unique. */
  lemma SplitUnique(seconds: int, m: int, r: int)
    requires m * 60 + r == seconds && 0 <= r < 60
    ensures Split(seconds) == (m, r)
  {
    var (m', r') := Split(seconds);
    assert (m - m') * 60 == r' - r;
  }

  /** For the spans that occur when the clock runs forward, the correction changes nothing. */
  lemma SplitAgreesWhenNonNegative(seconds: int)
    requires seconds >= 0
    ensures Split(seconds) == SplitAsWritten(seconds)
  {
    var (m, r) := SplitAsWritten(seconds);
    SplitUnique(seconds, m, r);
  }

  function FormatDuration(seconds: int): string {
    var (m, r) := Split(seconds);
    IntToDecimal(m) + " min " + IntToDecimal(r) + " s"
  }

  /** The duration text names the unique minutes and seconds that make up the span. */
  lemma FormatDurationParts(seconds: int, m: int, r: int)
    requires m * 60 + r == seconds && 0 <= r < 60
    ensures FormatDuration(seconds) == IntToDecimal(m) + " min " + IntToDecimal(r) + " s"
  {
    SplitUnique(seconds, m, r);
  }

  /** The em dash shown when no start time is recorded. */
  const NoTime: string := "\U{2014}"

  /** The time line of the score, from the raw stored start time. */
  function ScoreTime(startTime: Option<int>, now: int): (t: string)
    ensures startTime.None? || startTime.value == 0 ==> t == NoTime
    ensures startTime.Some? && startTime.value != 0 ==> t == FormatDuration(WholeSeconds(now - startTime.value))
  {
    if startTime.None? || startTime.value == 0 then NoTime
    else FormatDuration(WholeSeconds(now - startTime.value))
  }

  /**
   * `showScore`: the start time is read raw and tested for truthiness, so
   * an absent or zero value shows the dash while any other value is used.
   */
  function ShowScore(s: Session, now: int): (v: Feedback)
    ensures v.ScoreShown?
    ensures v.errors == s.totalErrors && v.hints == s.totalHints
    ensures v.time == ScoreTime(s.startTime, now)
  {
    ScoreShown(ScoreTime(s.startTime, now), s.totalErrors, s.totalHints)
  }

  /** 125 seconds after the start the score screen reads "2 min 5 s". */
  lemma ScoreAfter125Seconds(s: Session, start: int, now: int)
    requires s.startTime == Some(start) && start > 0
    requires 125000 <= now - start < 126000
    ensures ShowScore(s, now).time == "2 min 5 s"
  {
    assert WholeSeconds(now - start) == 125;
    FormatDurationParts(125, 2, 5);
    assert IntToDecimal(2) == "2";
    assert IntToDecimal(5) == "5";
  }
}
