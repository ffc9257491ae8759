/**
 * The non-UI part of `MainWindow.ViewReport_Click`: the week window, the
 * `GROUP BY CreatedAtDate ... ORDER BY CreatedAtDate` aggregation that the
 * report query asks SQLite for, and the text of each report line.
 */
module Report {
  import opened Wrappers
  import opened DateTimeExtensions
  import opened TimeRecords

  /** The half-open week `[start, end)` a report covers. */
  datatype Window = Window(start: DateTime, end: DateTime)

  /**
   * The window for a week offset typed by the user: the Monday midnight that
   * starts the week of `now + 7 * weekOffset` days, and seven days later. The
   * product `weekOffset * 7` is C# `int` arithmetic and wraps around.
   */
  function ReportWindow(now: DateTime, weekOffset: Int32): (w: Window)
    ensures Date(w.start) == w.start && GetDayOfWeek(w.start) == Monday
    ensures Date(w.end) == w.end && w.end == AddDays(w.start, 7)
    ensures w.start <= AddDays(now, Wrap32(weekOffset * 7)) < w.end
    ensures IntMin <= weekOffset * 7 <= IntMax ==> w.start <= AddDays(now, 7 * weekOffset) < w.end
  {
    var start := StartOfWeek(AddDays(now, Wrap32(weekOffset * 7)), Monday);
    DaysAfterAddDays(start, 7);
    Window(start, AddDays(start, 7))
  }

  /**
   * A row written at `t` has its `CreatedAtDate` inside the query's bounds
   * `[ToUnixTime(start), ToUnixTime(end))` exactly when `t` lies in the window,
   * provided everything is at or after the epoch and before the `int` second
   * count runs out.
   */
  lemma {:induction false} RowInWindow(t: DateTime, totalMinutes: real, w: Window)
    requires Date(w.start) == w.start && Date(w.end) == w.end
    requires UnixEpoch <= w.start <= w.end < FromUnixTime(IntMax + 1)
    requires UnixEpoch <= t < FromUnixTime(IntMax + 1)
    ensures var row := MakeRow(t, totalMinutes);
      ToUnixTime(w.start) <= row.createdAtDate < ToUnixTime(w.end) <==> w.start <= t < w.end
  {
    var row := MakeRow(t, totalMinutes);
    RowDateIsStartOfDay(t, totalMinutes);
    MidnightSeconds(w.start);
    MidnightSeconds(w.end);
    var lo, hi := ToUnixTime(w.start), ToUnixTime(w.end);
    assert lo <= row.createdAtDate <==> FromUnixTime(lo) <= FromUnixTime(row.createdAtDate);
    assert row.createdAtDate < hi <==> FromUnixTime(row.createdAtDate) < FromUnixTime(hi);
    MidnightAtOrBefore(w.start, t);
    MidnightAtOrBefore(w.end, t);
  }

  /** A midnight within range is a whole number of seconds, and `ToUnixTime` gives it exactly. */
  lemma MidnightSeconds(m: DateTime)
    requires Date(m) == m && UnixEpoch <= m < FromUnixTime(IntMax + 1)
    ensures FromUnixTime(ToUnixTime(m)) == m
  {
    DivModUnique(m - UnixEpoch, TicksPerSecond, DaysSinceEpoch(m) * SecondsPerDay, 0);
  }

  /** The rows whose `CreatedAtDate` satisfies `lo <= CreatedAtDate < hi`, in table order. */
  function Filter(rows: seq<Row>, lo: int, hi: int): (r: seq<Row>)
    ensures |r| <= |rows|
    ensures forall i :: 0 <= i < |r| ==> lo <= r[i].createdAtDate < hi
  {
    if rows == [] then []
    else
      var last := rows[|rows| - 1];
      Filter(rows[..|rows| - 1], lo, hi) + (if lo <= last.createdAtDate < hi then [last] else [])
  }

  /** `SUM(TotalMinutes)` over the rows whose `CreatedAtDate` is `date`. */
  function SumMinutes(rows: seq<Row>, date: int): real {
    if rows == [] then 0.0
    else
      var last := rows[|rows| - 1];
      SumMinutes(rows[..|rows| - 1], date) + (if last.createdAtDate == date then last.totalMinutes else 0.0)
  }

  /** The distinct `CreatedAtDate` values of `rows`. */
  function DatesOf(rows: seq<Row>): set<int> {
    set row | row in rows :: row.createdAtDate
  }

  /** Filtering on the date keeps exactly the rows whose date lies within the bounds. */
  lemma {:induction false} FilterMembers(rows: seq<Row>, lo: int, hi: int)
    ensures forall row :: row in Filter(rows, lo, hi) <==> row in rows && lo <= row.createdAtDate < hi
  {
    if rows != [] {
      var front, last := rows[..|rows| - 1], rows[|rows| - 1];
      FilterMembers(front, lo, hi);
      assert rows == front + [last];
    }
  }

  /** Filtering on the date keeps every date inside the bounds with its full sum. */
  lemma {:induction false} FilterKeepsSums(rows: seq<Row>, lo: int, hi: int, date: int)
    ensures SumMinutes(Filter(rows, lo, hi), date) == if lo <= date < hi then SumMinutes(rows, date) else 0.0
  {
    if rows != [] {
      var front, last := rows[..|rows| - 1], rows[|rows| - 1];
      FilterKeepsSums(front, lo, hi, date);
      var f := Filter(front, lo, hi);
      if lo <= last.createdAtDate < hi {
        assert Filter(rows, lo, hi) == f + [last];
        SumMinutesSnoc(f, last, date);
      } else {
        assert Filter(rows, lo, hi) == f;
      }
    }
  }

  lemma SumMinutesSnoc(rows: seq<Row>, row: Row, date: int)
    ensures SumMinutes(rows + [row], date) == SumMinutes(rows, date) + (if row.createdAtDate == date then row.totalMinutes else 0.0)
  {
    assert (rows + [row])[..|rows|] == rows;
  }

  /** One group of the `GROUP BY`: a date and the minutes summed for it. */
  datatype DayTotal = DayTotal(date: int, minutes: real)

  ghost predicate Ascending(g: seq<DayTotal>) {
    forall i, j :: 0 <= i < j < |g| ==> g[i].date < g[j].date
  }

  function Keys(g: seq<DayTotal>): set<int> {
    if g == [] then {} else {g[0].date} + Keys(g[1..])
  }

  lemma {:induction false} KeysAt(g: seq<DayTotal>)
    ensures forall k :: k in Keys(g) <==> exists i :: 0 <= i < |g| && g[i].date == k
  {
    if g != [] {
      KeysAt(g[1..]);
      forall k | k in Keys(g) ensures exists i :: 0 <= i < |g| && g[i].date == k {
        if k != g[0].date {
          assert k in Keys(g[1..]);
          var i :| 0 <= i < |g[1..]| && g[1..][i].date == k;
          assert g[i + 1].date == k;
        }
      }
      forall i | 0 <= i < |g| ensures g[i].date in Keys(g) {
        if i > 0 { assert g[1..][i - 1] == g[i]; }
      }
    }
  }

  /** Every group of `g` has a date above `x`. */
  ghost predicate Above(g: seq<DayTotal>, x: int) {
    forall i :: 0 <= i < |g| ==> x < g[i].date
  }

  lemma AscendingTail(g: seq<DayTotal>)
    requires Ascending(g) && g != []
    ensures Ascending(g[1..]) && Above(g[1..], g[0].date)
  {
  }

  lemma ConsAscending(x: DayTotal, g: seq<DayTotal>)
    requires Ascending(g) && Above(g, x.date)
    ensures Ascending([x] + g)
  {
  }

  lemma {:induction false} AboveNotIn(g: seq<DayTotal>, x: int)
    requires Above(g, x)
    ensures x !in Keys(g)
  {
    if g != [] {
      AboveNotIn(g[1..], x);
    }
  }

  /** The minutes grouped under `date`, or zero when there is no such group. */
  function Lookup(g: seq<DayTotal>, date: int): real {
    if g == [] then 0.0
    else if g[0].date == date then g[0].minutes
    else Lookup(g[1..], date)
  }

  lemma KeysCons(x: DayTotal, g: seq<DayTotal>)
    ensures Keys([x] + g) == {x.date} + Keys(g)
  {
    assert ([x] + g)[1..] == g;
  }

  lemma {:induction false} LookupAbsent(g: seq<DayTotal>, date: int)
    requires date !in Keys(g)
    ensures Lookup(g, date) == 0.0
  {
    if g != [] {
      assert g == [g[0]] + g[1..];
      KeysCons(g[0], g[1..]);
      LookupAbsent(g[1..], date);
    }
  }

  /** In an ascending grouping each group is found under its own date. */
  lemma {:induction false} LookupAt(g: seq<DayTotal>, i: int)
    requires Ascending(g) && 0 <= i < |g|
    ensures Lookup(g, g[i].date) == g[i].minutes
  {
    if i > 0 {
      assert g[1..][i - 1] == g[i];
      LookupAt(g[1..], i - 1);
    }
  }

  /** Adds `minutes` to the group for `date`, creating it in date order if it is new. */
  function Insert(g: seq<DayTotal>, date: int, minutes: real): (r: seq<DayTotal>)
    ensures |g| <= |r| <= |g| + 1
  {
    if g == [] then [DayTotal(date, minutes)]
    else if date < g[0].date then [DayTotal(date, minutes)] + g
    else if date == g[0].date then [DayTotal(date, g[0].minutes + minutes)] + g[1..]
    else [g[0]] + Insert(g[1..], date, minutes)
  }

  lemma {:induction false} InsertCorrect(g: seq<DayTotal>, date: int, minutes: real)
    requires Ascending(g)
    ensures Ascending(Insert(g, date, minutes))
    ensures Keys(Insert(g, date, minutes)) == Keys(g) + {date}
    ensures forall x :: Lookup(Insert(g, date, minutes), x) == Lookup(g, x) + (if x == date then minutes else 0.0)
  {
    if g != [] {
      var t := g[1..];
      assert g == [g[0]] + t;
      AscendingTail(g);
      KeysCons(g[0], t);
      if date < g[0].date {
        assert Above(g, date);
        ConsAscending(DayTotal(date, minutes), g);
        KeysCons(DayTotal(date, minutes), g);
        AboveNotIn(g, date);
        LookupAbsent(g, date);
      } else if date == g[0].date {
        ConsAscending(DayTotal(date, g[0].minutes + minutes), t);
        KeysCons(DayTotal(date, g[0].minutes + minutes), t);
      } else {
        var ht := Insert(t, date, minutes);
        InsertCorrect(t, date, minutes);
        InsertAbove(t, date, minutes, g[0].date);
        ConsAscending(g[0], ht);
        KeysCons(g[0], ht);
      }
    }
  }

  /** Inserting a date above `x` keeps every group above `x`. */
  lemma {:induction false} InsertAbove(g: seq<DayTotal>, date: int, minutes: real, x: int)
    requires Above(g, x) && x < date
    ensures Above(Insert(g, date, minutes), x)
  {
    if g != [] && date > g[0].date {
      InsertAbove(g[1..], date, minutes, x);
    }
  }

  /** The groups of `GROUP BY CreatedAtDate ORDER BY CreatedAtDate`, with `SUM(TotalMinutes)`. */
  function GroupByDate(rows: seq<Row>): (r: seq<DayTotal>)
    ensures |r| <= |rows|
    ensures r == [] <==> rows == []
  {
    if rows == [] then []
    else
      var last := rows[|rows| - 1];
      Insert(GroupByDate(rows[..|rows| - 1]), last.createdAtDate, last.totalMinutes)
  }

  /**
   * The grouping has one group per distinct date, in strictly ascending date
   * order, and each group holds the sum of its rows' minutes.
   */
  lemma {:induction false} GroupByDateCorrect(rows: seq<Row>)
    ensures Ascending(GroupByDate(rows))
    ensures Keys(GroupByDate(rows)) == DatesOf(rows)
    ensures forall x :: Lookup(GroupByDate(rows), x) == SumMinutes(rows, x)
  {
    if rows != [] {
      var front, last := rows[..|rows| - 1], rows[|rows| - 1];
      GroupByDateCorrect(front);
      InsertCorrect(GroupByDate(front), last.createdAtDate, last.totalMinutes);
      assert rows == front + [last];
      assert DatesOf(rows) == DatesOf(front) + {last.createdAtDate};
    }
  }

  /** One line of the report: a day and the hours recorded on it. */
  datatype ReportRow = ReportRow(date: int, totalHours: real)

  /**
   * The result of the report query `SELECT CreatedAtDate, SUM(TotalMinutes)/60 ...
   * WHERE CreatedAtDate >= lo AND CreatedAtDate < hi GROUP BY CreatedAtDate
   * ORDER BY CreatedAtDate`.
   */
  function WeekTotals(rows: seq<Row>, lo: int, hi: int): (r: seq<ReportRow>)
    ensures forall i, j :: 0 <= i < j < |r| ==> r[i].date < r[j].date
    ensures (set i | 0 <= i < |r| :: r[i].date) == (set row | row in rows && lo <= row.createdAtDate < hi :: row.createdAtDate)
    ensures forall i :: 0 <= i < |r| ==> r[i].totalHours == SumMinutes(rows, r[i].date) / 60.0
  {
    var g := GroupByDate(Filter(rows, lo, hi));
    GroupedWindow(rows, lo, hi);
    var r := seq(|g|, i requires 0 <= i < |g| => ReportRow(g[i].date, g[i].minutes / 60.0));
    assert forall i :: 0 <= i < |r| ==> r[i].date == g[i].date;
    assert (set i | 0 <= i < |r| :: r[i].date) == (set i | 0 <= i < |g| :: g[i].date);
    r
  }

  /** The groups of the rows within `[lo, hi)`, as the query's result before the division by 60. */
  lemma GroupedWindow(rows: seq<Row>, lo: int, hi: int)
    ensures var g := GroupByDate(Filter(rows, lo, hi));
      && Ascending(g)
      && (set i | 0 <= i < |g| :: g[i].date) == (set row | row in rows && lo <= row.createdAtDate < hi :: row.createdAtDate)
      && forall i :: 0 <= i < |g| ==> g[i].minutes == SumMinutes(rows, g[i].date)
  {
    var f := Filter(rows, lo, hi);
    var g := GroupByDate(f);
    GroupByDateCorrect(f);
    FilterMembers(rows, lo, hi);
    KeysAt(g);
    forall i | 0 <= i < |g| ensures g[i].minutes == SumMinutes(rows, g[i].date) {
      LookupAt(g, i);
      assert g[i].date in DatesOf(f);
      FilterKeepsSums(rows, lo, hi, g[i].date);
    }
    var dates := set row | row in rows && lo <= row.createdAtDate < hi :: row.createdAtDate;
    assert DatesOf(f) == dates;
    forall k | k in Keys(g) ensures k in (set i | 0 <= i < |g| :: g[i].date) {
      var i :| 0 <= i < |g| && g[i].date == k;
    }
  }

  /** `"Date:" + date + "|Total Hours:" + hours`, with the culture's date and number text. */
  function ReportLine(row: ReportRow, shortDate: DateTime -> string, hoursText: real -> string): (r: string)
    ensures var d, h := shortDate(FromUnixTime(row.date)), hoursText(row.totalHours);
      && |r| == 18 + |d| + |h|
      && r[..5] == "Date:"
      && r[5..5 + |d|] == d
      && r[5 + |d|..18 + |d|] == "|Total Hours:"
      && r[18 + |d|..] == h
  {
    "Date:" + shortDate(FromUnixTime(row.date)) + "|Total Hours:" + hoursText(row.totalHours)
  }

  /**
   * The lines `ViewReport_Click` writes for the table at time `now`, given what
   * `int.TryParse` made of the offset box: no query and no lines when it did not parse.
   */
  function ViewReport(table: seq<Row>, now: DateTime, weekOffset: Option<Int32>,
                      shortDate: DateTime -> string, hoursText: real -> string): (lines: Option<seq<string>>)
    ensures lines.None? <==> weekOffset.None?
    ensures weekOffset.Some? ==>
      var w := ReportWindow(now, weekOffset.value);
      var totals := WeekTotals(table, ToUnixTime(w.start), ToUnixTime(w.end));
      && |lines.value| == |totals|
      && forall i :: 0 <= i < |totals| ==> lines.value[i] == ReportLine(totals[i], shortDate, hoursText)
  {
    match weekOffset
    case None => None
    case Some(offset) =>
      var w := ReportWindow(now, offset);
      var totals := WeekTotals(table, ToUnixTime(w.start), ToUnixTime(w.end));
      Some(seq(|totals|, i requires 0 <= i < |totals| => ReportLine(totals[i], shortDate, hoursText)))
  }

  /** Three rows of the week of Monday 2024-01-01 (Unix second 1704067200). */
  const ExampleWeek: seq<Row> := [Row(1704196800, 1704153600, 30.0), Row(1704200400, 1704153600, 90.0),
                                  Row(1704456000, 1704412800, 60.0)]

  /** Every row of the example week passes the week's bounds. */
  lemma ExampleWeekFiltered()
    ensures Filter(ExampleWeek, 1704067200, 1704672000) == ExampleWeek
  {
    var one, two := ExampleWeek[..1], ExampleWeek[..2];
    assert two[..1] == one && one[..0] == [];
    assert Filter(one, 1704067200, 1704672000) == one;
    assert Filter(two, 1704067200, 1704672000) == two;
  }

  /** The example week groups into two days, in date order. */
  lemma ExampleWeekGrouped()
    ensures GroupByDate(ExampleWeek) == [DayTotal(1704153600, 120.0), DayTotal(1704412800, 60.0)]
  {
    var one, two := ExampleWeek[..1], ExampleWeek[..2];
    assert two[..1] == one && one[..0] == [];
    assert GroupByDate(one) == [DayTotal(1704153600, 30.0)];
    assert GroupByDate(two) == [DayTotal(1704153600, 120.0)];
    assert [DayTotal(1704153600, 120.0)][1..] == [];
    assert GroupByDate(ExampleWeek) == Insert(GroupByDate(two), 1704412800, 60.0);
  }

  /**
   * The week of Monday 2024-01-01: two rows on 2024-01-02 of 30 and 90
   * minutes and one on 2024-01-05 of 60 minutes give 2 hours and 1 hour, in
   * date order.
   */
  lemma WeekOf2024Jan1()
    ensures WeekTotals(ExampleWeek, 1704067200, 1704672000)
            == [ReportRow(1704153600, 2.0), ReportRow(1704412800, 1.0)]
  {
    ExampleWeekFiltered();
    ExampleWeekGrouped();
  }
}
