/** The countdown shown under the intro: the time left until the ceremony,
    split into days, hours, minutes and seconds (`calcLeft` in src/App.jsx). */
module Countdown {

  const MillisPerSecond: int := 1000
  const SecondsPerMinute: int := 60
  const SecondsPerHour: int := 3600
  const SecondsPerDay: int := 3600 * 24

  /** The record `{ days, hours, minutes, seconds }` that `calcLeft` returns. */
  datatype Breakdown = Breakdown(days: int, hours: int, minutes: int, seconds: int)

  /** Every field in the range a clock face shows. */
  predicate Normalized(b: Breakdown) {
    0 <= b.days && 0 <= b.hours < 24 && 0 <= b.minutes < 60 && 0 <= b.seconds < 60
  }

  /** The number of whole seconds a breakdown stands for. */
  function TotalSeconds(b: Breakdown): int {
    b.days * SecondsPerDay + b.hours * SecondsPerHour + b.minutes * SecondsPerMinute + b.seconds
  }

  function Max(a: int, b: int): int {
    if a < b then b else a
  }

  /** Whole seconds left until `target` at `now` (both in milliseconds), never negative. */
  function SecondsLeft(target: int, now: int): nat {
    Max(0, target - now) / MillisPerSecond
  }

  /** `calcLeft`: clamp the difference at zero, take whole seconds, split them. Both operands
      are non-negative, so Dafny's `/` and `%` agree with `Math.floor(x / y)` and `%` in JavaScript. */
  function CalcLeft(target: int, now: int): (b: Breakdown)
    ensures Normalized(b)
    ensures TotalSeconds(b) == SecondsLeft(target, now)
  {
    var diff := Max(0, target - now);
    var totalSeconds := diff / MillisPerSecond;
    var days := totalSeconds / SecondsPerDay;
    var hours := (totalSeconds % SecondsPerDay) / SecondsPerHour;
    var minutes := (totalSeconds % SecondsPerHour) / SecondsPerMinute;
    var seconds := totalSeconds % SecondsPerMinute;
    SplitSeconds(totalSeconds);
    Breakdown(days, hours, minutes, seconds)
  }

  /** Division with remainder has one answer: a quotient and an in-range remainder that
      rebuild `n` are the ones `/` and `%` give. */
  lemma DivModUnique(n: int, d: int, q: int, r: int)
    requires 0 < d && 0 <= r < d && n == q * d + r
    ensures n / d == q && n % d == r
  {
    var k := q - n / d;
    assert k * d == n % d - r;
    if k > 0 {
      MultipleAtLeast(k, d);
    } else if k < 0 {
      MultipleAtLeast(-k, d);
    }
  }

  lemma MultipleAtLeast(k: int, d: int)
    requires k >= 1 && d > 0
    ensures k * d >= d
  {
  }

  /** The split `calcLeft` performs on a non-negative number of seconds is in range and adds
      back up to it. */
  lemma SplitSeconds(n: int)
    requires n >= 0
    ensures var b := Breakdown(n / SecondsPerDay, (n % SecondsPerDay) / SecondsPerHour,
                               (n % SecondsPerHour) / SecondsPerMinute, n % SecondsPerMinute);
      Normalized(b) && TotalSeconds(b) == n
  {
    var d, r := n / SecondsPerDay, n % SecondsPerDay;
    var h, r2 := r / SecondsPerHour, r % SecondsPerHour;
    var m, s := r2 / SecondsPerMinute, r2 % SecondsPerMinute;
    assert n == d * SecondsPerDay + r;
    assert r == h * SecondsPerHour + r2;
    assert r2 == m * SecondsPerMinute + s;
    assert h < 24;
    DivModUnique(n, SecondsPerHour, d * 24 + h, r2);
    DivModUnique(n, SecondsPerMinute, d * 1440 + h * 60 + m, s);
  }

  /** Once the target has passed, every field is zero. */
  lemma CalcLeftExpired(target: int, now: int)
    requires now >= target
    ensures CalcLeft(target, now) == Breakdown(0, 0, 0, 0)
  {
  }

  /** Two normalized breakdowns of the same number of seconds are the same breakdown. */
  lemma BreakdownUnique(b1: Breakdown, b2: Breakdown)
    requires Normalized(b1) && Normalized(b2)
    requires TotalSeconds(b1) == TotalSeconds(b2)
    ensures b1 == b2
  {
    var t := TotalSeconds(b1);
    DivModUnique(t, SecondsPerMinute, b1.days * 1440 + b1.hours * 60 + b1.minutes, b1.seconds);
    DivModUnique(t, SecondsPerMinute, b2.days * 1440 + b2.hours * 60 + b2.minutes, b2.seconds);
    var u := t / SecondsPerMinute;
    DivModUnique(u, 60, b1.days * 24 + b1.hours, b1.minutes);
    DivModUnique(u, 60, b2.days * 24 + b2.hours, b2.minutes);
    var v := u / 60;
    DivModUnique(v, 24, b1.days, b1.hours);
    DivModUnique(v, 24, b2.days, b2.hours);
  }

  /** `CalcLeft` is exactly the normalized breakdown of the seconds left, in both directions. */
  lemma CalcLeftCharacterized(target: int, now: int, b: Breakdown)
    ensures b == CalcLeft(target, now) <==> Normalized(b) && TotalSeconds(b) == SecondsLeft(target, now)
  {
    if Normalized(b) && TotalSeconds(b) == SecondsLeft(target, now) {
      BreakdownUnique(b, CalcLeft(target, now));
    }
  }

  /** Round trip: a breakdown, turned into a target that far ahead (plus less than a second),
      is read back unchanged. */
  lemma CalcLeftRoundTrip(b: Breakdown, now: int, extraMillis: int)
    requires Normalized(b)
    requires 0 <= extraMillis < MillisPerSecond
    ensures CalcLeft(now + TotalSeconds(b) * MillisPerSecond + extraMillis, now) == b
  {
    CalcLeftCharacterized(now + TotalSeconds(b) * MillisPerSecond + extraMillis, now, b);
  }

  /** As time passes the number of seconds shown never goes up. */
  lemma CalcLeftNonIncreasing(target: int, now1: int, now2: int)
    requires now1 <= now2
    ensures TotalSeconds(CalcLeft(target, now2)) <= TotalSeconds(CalcLeft(target, now1))
  {
  }

  /** The ceremony at 2026-02-28T12:00:00-03:00 seen at 2026-02-27T12:00:00-03:00
      (epoch milliseconds 1772290800000 and 1772204400000) is one day away. */
  lemma OneDayBefore()
    ensures CalcLeft(1772290800000, 1772204400000) == Breakdown(1, 0, 0, 0)
  {
  }
}
