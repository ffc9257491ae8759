/**
 * The date arithmetic of `DateTimeExtensions` and the parts of .NET's `DateTime`
 * it relies on.
 *
 * A `DateTime` is modelled as a whole count of 100-nanosecond ticks since
 * 1970-01-01 00:00 on the same clock (the application reads the local clock, so
 * the epoch is local midnight too, exactly as `new DateTime(1970, 1, 1)` is).
 * .NET counts ticks from 0001-01-01, a whole number of days earlier, so flooring
 * to a day boundary here is the same as `DateTime.Date` there.
 */
module DateTimeExtensions {

  type DateTime = int

  const TicksPerSecond: int := 10_000_000
  const TicksPerMinute: int := 60 * TicksPerSecond
  const SecondsPerDay: int := 86_400
  const TicksPerDay: int := SecondsPerDay * TicksPerSecond

  /** `new DateTime(1970, 1, 1, 0, 0, 0, 0)` */
  const UnixEpoch: DateTime := 0

  /** The values of a C# `int`. */
  type Int32 = x: int | -0x8000_0000 <= x < 0x8000_0000
  const IntMin: Int32 := -0x8000_0000
  const IntMax: Int32 := 0x7FFF_FFFF

  /** C#'s unchecked `int` arithmetic: the two's-complement wrap-around of `x`. */
  function Wrap32(x: int): (r: Int32)
    ensures IntMin <= x <= IntMax ==> r == x
    ensures (r - x) % 0x1_0000_0000 == 0
  {
    (x + 0x8000_0000) % 0x1_0000_0000 - 0x8000_0000
  }

  /** .NET's `DayOfWeek`: Sunday is 0, Monday 1, ..., Saturday 6. */
  type DayOfWeek = d: int | 0 <= d < 7
  const Sunday: DayOfWeek := 0
  const Monday: DayOfWeek := 1

  /** Whole days since the epoch, rounded down. */
  function DaysSinceEpoch(t: DateTime): int {
    (t - UnixEpoch) / TicksPerDay
  }

  /** `DateTime.Date`: the midnight that starts the day of `t`. */
  function Date(t: DateTime): (r: DateTime)
    ensures (r - UnixEpoch) % TicksPerDay == 0
    ensures r <= t < r + TicksPerDay
  {
    UnixEpoch + DaysSinceEpoch(t) * TicksPerDay
  }

  /** `DateTime.DayOfWeek`; 1970-01-01 was a Thursday. */
  function GetDayOfWeek(t: DateTime): DayOfWeek {
    (DaysSinceEpoch(t) + 4) % 7
  }

  /** `DateTime.AddDays` for a whole number of days. */
  function AddDays(t: DateTime, days: int): DateTime {
    t + days * TicksPerDay
  }

  /** `DateTime.AddSeconds` for a whole number of seconds. */
  function AddSeconds(t: DateTime, seconds: int): DateTime {
    t + seconds * TicksPerSecond
  }

  /** Division that rounds toward zero, as C#'s `(int)` of a `double` does. */
  function TruncDiv(a: int, b: int): int
    requires b > 0
  {
    if a >= 0 then a / b else -((-a) / b)
  }

  /** Any `q`, `r` with `a == q * b + r` and `0 <= r < b` are Dafny's quotient and remainder. */
  lemma DivModUnique(a: int, b: int, q: int, r: int)
    requires b > 0 && 0 <= r < b && a == q * b + r
    ensures a / b == q && a % b == r
  {
    var q', r' := a / b, a % b;
    assert (q - q') * b == r' - r;
    SmallMultipleIsZero(q - q', b);
  }

  lemma SmallMultipleIsZero(x: int, b: int)
    requires b > 0 && -b < x * b < b
    ensures x == 0
  {
  }

  /** Moving by whole days moves the day count by the same amount. */
  lemma DaysAfterAddDays(t: DateTime, k: int)
    ensures DaysSinceEpoch(AddDays(t, k)) == DaysSinceEpoch(t) + k
  {
    var d := DaysSinceEpoch(t);
    DivModUnique(t - UnixEpoch + k * TicksPerDay, TicksPerDay, d + k, (t - UnixEpoch) % TicksPerDay);
  }

  /** The number of days `day` lies after `start` in the week, as `StartOfWeek` computes it. */
  function DaysBack(day: DayOfWeek, start: DayOfWeek): (diff: int)
    ensures 0 <= diff <= 6
    ensures (start + diff) % 7 == day
  {
    var diff := day - start;
    if diff < 0 then diff + 7 else diff
  }

  /**
   * `dt.StartOfWeek(startOfWeek)`: midnight of the latest day on or before `dt`
   * that falls on `startOfWeek`.
   */
  function StartOfWeek(dt: DateTime, startOfWeek: DayOfWeek): (r: DateTime)
    ensures Date(r) == r
    ensures GetDayOfWeek(r) == startOfWeek
    ensures r <= dt < AddDays(r, 7)
  {
    var diff := DaysBack(GetDayOfWeek(dt), startOfWeek);
    DaysBackToMidnight(dt, diff);
    Date(AddDays(dt, -1 * diff))
  }

  /** Going back `diff` days and truncating to midnight lands within the week before `dt`, `diff` weekdays earlier. */
  lemma DaysBackToMidnight(dt: DateTime, diff: int)
    requires 0 <= diff <= 6
    ensures var r := Date(AddDays(dt, -1 * diff));
      && DaysSinceEpoch(r) == DaysSinceEpoch(dt) - diff
      && Date(r) == r
      && r <= dt < AddDays(r, 7)
      && (GetDayOfWeek(r) + diff) % 7 == GetDayOfWeek(dt)
  {
    var d := DaysSinceEpoch(dt);
    DaysAfterAddDays(dt, -1 * diff);
    var r := Date(AddDays(dt, -1 * diff));
    assert r == UnixEpoch + (d - diff) * TicksPerDay;
    DivModUnique(r - UnixEpoch, TicksPerDay, d - diff, 0);
    assert DaysSinceEpoch(r) == d - diff;
    assert Date(dt) <= dt < Date(dt) + TicksPerDay;
    WeekdayShift(d, diff);
  }

  lemma WeekdayShift(days: int, k: int)
    ensures ((days - k + 4) % 7 + k) % 7 == (days + 4) % 7
  {
  }

  /** A midnight is its own `Date`, and its day count determines it. */
  lemma MidnightDays(m: DateTime)
    requires Date(m) == m
    ensures m == UnixEpoch + DaysSinceEpoch(m) * TicksPerDay
  {
  }

  /** A midnight lies at or before `t` exactly when it lies at or before `t`'s own midnight. */
  lemma MidnightAtOrBefore(m: DateTime, t: DateTime)
    requires Date(m) == m
    ensures m <= t <==> m <= Date(t)
  {
    MidnightDays(m);
    if m <= t {
      assert DaysSinceEpoch(m) <= DaysSinceEpoch(t);
    }
  }

  /**
   * `StartOfWeek` is the latest midnight on `startOfWeek` at or before `dt`:
   * any other such midnight lies at or before it.
   */
  lemma {:induction false} StartOfWeekIsLatest(dt: DateTime, startOfWeek: DayOfWeek, m: DateTime)
    requires Date(m) == m && GetDayOfWeek(m) == startOfWeek && m <= dt
    ensures m <= StartOfWeek(dt, startOfWeek)
  {
    var diff := DaysBack(GetDayOfWeek(dt), startOfWeek);
    DaysBackToMidnight(dt, diff);
    var r := StartOfWeek(dt, startOfWeek);
    var d, dm, dr := DaysSinceEpoch(dt), DaysSinceEpoch(m), DaysSinceEpoch(r);
    assert dr == d - diff;
    MidnightDays(m);
    MidnightDays(r);
    assert Date(dt) <= dt < Date(dt) + TicksPerDay;
    assert dm <= d;
    SameWeekdayWithinAWeek(dm, dr);
  }

  /** Two day counts on the same weekday less than a week apart are equal or in order. */
  lemma SameWeekdayWithinAWeek(a: int, b: int)
    requires a <= b + 6 && (a + 4) % 7 == (b + 4) % 7
    ensures a <= b
  {
  }

  /** `StartOfWeek` leaves its own result unchanged. */
  lemma StartOfWeekIdempotent(dt: DateTime, startOfWeek: DayOfWeek)
    ensures StartOfWeek(StartOfWeek(dt, startOfWeek), startOfWeek) == StartOfWeek(dt, startOfWeek)
  {
    var r := StartOfWeek(dt, startOfWeek);
    StartOfWeekIsLatest(r, startOfWeek, r);
  }

  /**
   * `time.ToUnixTime()`: whole seconds since the epoch, truncated toward zero and
   * cast to `int`. A second count outside the `int` range comes out as
   * `int.MinValue`, which is what an unchecked out-of-range `double`-to-`int`
   * cast gives on x86/x64.
   */
  function ToUnixTime(time: DateTime): (r: Int32)
    ensures r != IntMin ==> r == TruncDiv(time - UnixEpoch, TicksPerSecond)
  {
    var seconds := TruncDiv(time - UnixEpoch, TicksPerSecond);
    if IntMin <= seconds <= IntMax then seconds else IntMin
  }

  /**
   * `DateTimeExtensions.FromUnixTime(time)`: the epoch plus `time` seconds, a
   * whole number of seconds from the epoch whose second count is `time` again.
   */
  function FromUnixTime(time: int): (r: DateTime)
    ensures (r - UnixEpoch) % TicksPerSecond == 0
    ensures TruncDiv(r - UnixEpoch, TicksPerSecond) == time
  {
    if time >= 0 then
      DivModUnique(time * TicksPerSecond, TicksPerSecond, time, 0);
      AddSeconds(UnixEpoch, time)
    else
      DivModUnique(-time * TicksPerSecond, TicksPerSecond, -time, 0);
      AddSeconds(UnixEpoch, time)
  }

  /** Every `int` second count survives the trip through a `DateTime`. */
  lemma UnixTimeRoundTrip(t: Int32)
    ensures ToUnixTime(FromUnixTime(t)) == t
  {
  }

  /**
   * At or after the epoch, and before the `int` second count runs out,
   * `ToUnixTime` drops the fraction of a second: it brackets `d` within one second.
   */
  lemma UnixTimeTruncates(d: DateTime)
    requires UnixEpoch <= d < FromUnixTime(IntMax + 1)
    ensures FromUnixTime(ToUnixTime(d)) <= d < AddSeconds(FromUnixTime(ToUnixTime(d)), 1)
  {
  }

  /** Before the epoch the fraction is dropped toward zero, that is, upward. */
  lemma UnixTimeTruncatesBeforeEpoch(d: DateTime)
    requires FromUnixTime(IntMin - 1) < d < UnixEpoch
    ensures AddSeconds(FromUnixTime(ToUnixTime(d)), -1) < d <= FromUnixTime(ToUnixTime(d))
  {
  }

  /** Within the `int` second range a later date never has a smaller Unix time. */
  lemma UnixTimeMonotone(d1: DateTime, d2: DateTime)
    requires d1 <= d2 < FromUnixTime(IntMax + 1)
    ensures ToUnixTime(d1) <= ToUnixTime(d2)
  {
  }

  /** One second past the last `int` second count, `ToUnixTime` falls to `int.MinValue`. */
  lemma UnixTimeOverflow()
    ensures ToUnixTime(FromUnixTime(IntMax + 1)) == IntMin
    ensures ToUnixTime(FromUnixTime(IntMax)) == IntMax
  {
  }
}
