/**
 * The progress arithmetic of one countdown card. The countdown hook's
 * breakdown (`TimeRemaining`) is an input; the ratio is exact.
 */
module CountdownCard {
  import opened Countdown

  /** `1000 * 60 * 60 * 24`. */
  const MsPerDay: int := 1000 * 60 * 60 * 24

  /** `Math.ceil(a / b)` for a positive divisor, on integers. */
  function CeilDiv(a: int, b: int): (q: int)
    requires b > 0
    ensures (q - 1) * b < a <= q * b
  {
    var f := (-a) / b;
    assert b * f <= -a < b * f + b;
    -f
  }

  /** `totalDays`: the whole days from creation to target, rounded up, negative spans included. */
  function TotalDays(targetMs: Instant, createdMs: Instant): (d: int)
    ensures (d - 1) * MsPerDay < targetMs - createdMs <= d * MsPerDay
  {
    CeilDiv(targetMs - createdMs, MsPerDay)
  }

  /** `totalDays` is positive exactly when the target lies after the creation instant. */
  lemma TotalDaysPositive(targetMs: Instant, createdMs: Instant)
    ensures TotalDays(targetMs, createdMs) > 0 <==> targetMs > createdMs
  {
    var d := TotalDays(targetMs, createdMs);
    if d > 0 {
      assert MsPerDay <= d * MsPerDay;
    } else {
      assert d * MsPerDay <= 0;
    }
  }

  /** The integer that the ceiling bounds pick out is unique, so `TotalDays` is the ceiling. */
  lemma TotalDaysIsCeiling(targetMs: Instant, createdMs: Instant, d: int)
    requires (d - 1) * MsPerDay < targetMs - createdMs <= d * MsPerDay
    ensures TotalDays(targetMs, createdMs) == d
  {
  }

  /** `TotalDays` is the ceiling of the exact quotient of the span by a day. */
  lemma TotalDaysRealCeiling(targetMs: Instant, createdMs: Instant)
    ensures var d := TotalDays(targetMs, createdMs);
            var q := (targetMs - createdMs) as real / MsPerDay as real;
            (d - 1) as real < q <= d as real
  {
  }

  /**
   * `progress`: 0 when `totalDays` is not positive, otherwise the elapsed share of
   * the days, clamped below at 0 and not clamped above.
   */
  function Progress(totalDays: int, remainingDays: int): (p: real)
    ensures 0.0 <= p
    ensures totalDays <= 0 ==> p == 0.0
    ensures 0 < totalDays && remainingDays >= totalDays ==> p == 0.0
    ensures 0 < totalDays && 0 <= remainingDays ==> p <= 100.0
    ensures 0 < totalDays && remainingDays == 0 ==> p == 100.0
  {
    if totalDays > 0 then
      var raw := (totalDays - remainingDays) as real / totalDays as real * 100.0;
      if raw > 0.0 then raw else 0.0
    else 0.0
  }

  /** With the total fixed, more remaining days never mean more progress. */
  lemma ProgressAntitone(totalDays: int, r1: int, r2: int)
    requires 0 < totalDays && r1 <= r2
    ensures Progress(totalDays, r2) <= Progress(totalDays, r1)
  {
    var t := totalDays as real;
    var q1 := (totalDays - r1) as real / t;
    var q2 := (totalDays - r2) as real / t;
    assert q1 * t == (totalDays - r1) as real;
    assert q2 * t == (totalDays - r2) as real;
    CancelPositiveLe(q2, q1, t);
  }

  /** The code has no upper clamp: a negative remaining count pushes progress past 100. */
  lemma ProgressUnclampedAbove(totalDays: int, remainingDays: int)
    requires 0 < totalDays && remainingDays < 0
    ensures Progress(totalDays, remainingDays) > 100.0
  {
    var t := totalDays as real;
    var n := (totalDays - remainingDays) as real;
    QuotientAboveOne(n, t);
  }

  lemma QuotientAboveOne(n: real, t: real)
    requires 0.0 < t < n
    ensures n / t * 100.0 > 100.0
  {
    var q := n / t;
    assert q * t == n;
    CancelPositive(q, 1.0, t);
  }

  lemma CancelPositive(a: real, b: real, t: real)
    requires t > 0.0 && a * t > b * t
    ensures a > b
  {
  }

  lemma CancelPositiveLe(a: real, b: real, t: real)
    requires t > 0.0 && a * t <= b * t
    ensures a <= b
  {
  }

  /** A ten-day countdown with six days left is at 40. */
  lemma ProgressTenDaysSixLeft()
    ensures Progress(10, 6) == 40.0
  {
  }

  /** The progress of an event's card for the hook's current breakdown. */
  function CardProgress(event: Event, remaining: TimeRemaining): (p: real)
    ensures event.targetDate <= event.createdAt ==> p == 0.0
    ensures 0.0 <= p
    ensures remaining.days >= 0 ==> p <= 100.0
  {
    Progress(TotalDays(event.targetDate, event.createdAt), remaining.days)
  }

  /** The value handed to the progress ring: 100 once expired, the computed progress before. */
  function RingValue(event: Event, remaining: TimeRemaining): (v: real)
    ensures remaining.isExpired ==> v == 100.0
    ensures !remaining.isExpired ==> v == CardProgress(event, remaining)
    ensures remaining.days >= 0 ==> 0.0 <= v <= 100.0
  {
    if remaining.isExpired then 100.0 else CardProgress(event, remaining)
  }

  /** The day count in the ring's centre: 0 once expired, the hook's days before. */
  function DayLabel(remaining: TimeRemaining): (n: int)
    ensures remaining.isExpired ==> n == 0
    ensures !remaining.isExpired ==> n == remaining.days
    ensures remaining.days >= 0 ==> n >= 0
  {
    if remaining.isExpired then 0 else remaining.days
  }

  /** Created on day 0, due on day 10, six days left, not expired: the ring shows 40 and the label 6. */
  lemma CardTenDaysSixLeft(event: Event, remaining: TimeRemaining)
    requires event.createdAt == 0 && event.targetDate == 10 * MsPerDay
    requires remaining.days == 6 && !remaining.isExpired
    ensures RingValue(event, remaining) == 40.0 && DayLabel(remaining) == 6
  {
  }

  /** A span one millisecond short of a day, or one millisecond negative, rounds toward positive infinity. */
  lemma TotalDaysRoundsUp()
    ensures TotalDays(MsPerDay - 1, 0) == 1
    ensures TotalDays(0, 1) == 0
    ensures TotalDays(0, MsPerDay + 1) == -1
  {
  }
}
