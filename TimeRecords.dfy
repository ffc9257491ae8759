/**
 * One row of the `TimeRecords` table as `MainWindow.RecordTime(now, totalMinutes)`
 * inserts it, and the minute arithmetic of a flush.
 *
 * `TotalMinutes` is a SQLite `DOUBLE` filled from a .NET `double`; it is
 * modelled as an exact `real`.
 */
module TimeRecords {
  import opened DateTimeExtensions

  datatype Row = Row(createdAt: Int32, createdAtDate: Int32, totalMinutes: real)

  /** `TimeSpan.TotalMinutes` of a span of `ticks`. */
  function Minutes(ticks: int): real {
    ticks as real / TicksPerMinute as real
  }

  /** The values `RecordTime(now, totalMinutes)` writes into its `INSERT`. */
  function MakeRow(now: DateTime, totalMinutes: real): (row: Row)
    ensures row.totalMinutes == totalMinutes
  {
    Row(ToUnixTime(now), ToUnixTime(Date(now)), totalMinutes)
  }

  /**
   * For a row written at or after the epoch and before the `int` second count
   * runs out, `CreatedAtDate` is the day's midnight in Unix seconds: a multiple
   * of a day that is at most one day behind `CreatedAt`.
   */
  lemma {:induction false} RowDateIsStartOfDay(now: DateTime, totalMinutes: real)
    requires UnixEpoch <= now < FromUnixTime(IntMax + 1)
    ensures var row := MakeRow(now, totalMinutes);
      && row.createdAtDate % SecondsPerDay == 0
      && row.createdAtDate <= row.createdAt < row.createdAtDate + SecondsPerDay
      && FromUnixTime(row.createdAtDate) == Date(now)
  {
    var d := Date(now);
    var days := DaysSinceEpoch(now);
    UnixTimeMonotone(d, now);
    UnixTimeTruncates(now);
    DivModUnique(d - UnixEpoch, TicksPerSecond, days * SecondsPerDay, 0);
  }

  /** The sum of a sequence of minute counts. */
  function Sum(xs: seq<real>): real {
    if xs == [] then 0.0 else Sum(xs[..|xs| - 1]) + xs[|xs| - 1]
  }

  /** Minutes from each anchor to the next, as successive flushes record them. */
  function Slices(anchors: seq<DateTime>): (r: seq<real>)
    ensures |r| == if anchors == [] then 0 else |anchors| - 1
    ensures forall i :: 0 <= i < |r| ==> r[i] == Minutes(anchors[i + 1] - anchors[i])
  {
    if |anchors| <= 1 then [] else Slices(anchors[..|anchors| - 1]) + [Minutes(anchors[|anchors| - 1] - anchors[|anchors| - 2])]
  }

  /**
   * Slices between consecutive flush anchors add up to the whole time from
   * the first anchor to the last: no time is lost or counted twice.
   */
  lemma {:induction false} SlicesAddUp(anchors: seq<DateTime>)
    requires |anchors| > 0
    ensures Sum(Slices(anchors)) == Minutes(anchors[|anchors| - 1] - anchors[0])
  {
    if |anchors| > 1 {
      var front := anchors[..|anchors| - 1];
      SlicesAddUp(front);
      assert Slices(anchors)[..|anchors| - 2] == Slices(front);
    }
  }
}
