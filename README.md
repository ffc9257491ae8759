# TimeTracker core in Dafny

This project models the logic of the TimeTracker desktop application. A user starts and stops a timer. While it runs, a background loop saves the elapsed time every ten minutes and once more at stop, as rows of a `TimeRecords` table, and takes a screenshot each time. Later the user exports a weekly report that gives the hours per day.

The model covers three source files.

- `DateTimeExtensions` (module `DateTimeExtensions`). A .NET `DateTime` is an integer count of 100 ns ticks since 1970-01-01 00:00, on the same clock the application reads. `Date`, `DayOfWeek` (Sunday = 0), `AddDays` and `AddSeconds` are written out. `StartOfWeek`, `ToUnixTime` and `FromUnixTime` are modelled with their week-boundary, truncation, monotonicity and round-trip properties. `ToUnixTime` truncates toward zero. A second count outside the `int` range becomes `int.MinValue`, which is what the unchecked `double`-to-`int` cast gives on x86/x64. This happens from 2038-01-19 03:14:08 on (`UnixTimeOverflow`).
- `MainWindow`, without the UI. It is split into three modules:
  - `TimeRecords`: the row a flush writes, and the minute slices that successive flushes record.
  - `Report`: the week window, and the `GROUP BY CreatedAtDate ORDER BY CreatedAtDate` aggregation. The SQL is modelled as a pure function over the table's rows. The module also gives the report line text.
  - `Tracker`: the class `MainWindow`, with the play flag, the flush anchor `recordTime`, the seconds counter `trackedPerSession` and the background loop. `Tick(now)` models one pass of the loop. A ghost invariant, `Valid()`, keeps the session's anchors (its start, then each flush time) and states that each flushed slice is the time between two successive anchors; `SessionAddsUp` derives from it that the slices add up to the time from the session's start to the current anchor.
- `WrappedSqliteException` (module `WrappedSqlException`): the diagnostic query text built from a command and its parameters, and `ToString`.

Some values come from code outside the model, so they are parameters:
- the clock reading `now`;
- the result of `int.TryParse` (a function `string -> Option<Int32>` for the offline box, an `Option<Int32>` for the week offset);
- `ToShortDateString` and the text of the hours value;
- `Exception.ToString()` of the base class.

`TotalMinutes` is a SQLite `DOUBLE` and a .NET `double` in the source. Here it is an exact `real`.

Behaviours of the code worth noting:
- Offline entry calls `RecordTime(DateTime, double)`, which also saves a screenshot (MainWindow.xaml.cs:179, 144-168). So `AddOffline` counts one screenshot.
- Nothing in the loop catches a database error. An exception in a flush ends the background task.
- The report computes `weekOffset * 7` as an unchecked `int` product. The model wraps it (`Wrap32`).
- The clock is the local wall clock and is not assumed to be monotonic. A flush after the clock moves back records a negative slice. The model allows this, and the session invariant still holds.

## Model

| member | source | states |
|---|---|---|
| DateTimeExtensions.DaysBack | Desktop/TimeTracker/DateTimeExtensions.cs:9-13 | after the adjustment `diff` lies in 0..6, and going forward `diff` days from the start day reaches the given weekday (mod 7) |
| DateTimeExtensions.StartOfWeek | Desktop/TimeTracker/DateTimeExtensions.cs:7-16 | the result is a midnight, falls on the requested weekday, and satisfies `r <= dt < r + 7 days` |
| DateTimeExtensions.StartOfWeekIsLatest | Desktop/TimeTracker/DateTimeExtensions.cs:9-15 | every midnight on the requested weekday at or before `dt` is at or before `StartOfWeek(dt, s)`, so the result is the most recent such midnight |
| DateTimeExtensions.StartOfWeekIdempotent | Desktop/TimeTracker/DateTimeExtensions.cs:9-15 | applying `StartOfWeek` to its own result gives the same value |
| DateTimeExtensions.Wrap32 | Desktop/TimeTracker/MainWindow.xaml.cs:195 | C# unchecked `int` arithmetic: the identity on `int` values, and otherwise congruent to the exact value mod 2^32 |
| DateTimeExtensions.ToUnixTime | Desktop/TimeTracker/DateTimeExtensions.cs:18-21 | the result is an `int`; unless it is `int.MinValue`, it is the seconds since the epoch truncated toward zero |
| DateTimeExtensions.FromUnixTime | Desktop/TimeTracker/DateTimeExtensions.cs:23-26 | the result lies a whole number of seconds from the epoch, and that number of seconds, truncated toward zero, is `time` again |
| DateTimeExtensions.UnixTimeRoundTrip | Desktop/TimeTracker/DateTimeExtensions.cs:18-26 | `ToUnixTime(FromUnixTime(t)) == t` for every `int` `t` |
| DateTimeExtensions.UnixTimeTruncates | Desktop/TimeTracker/DateTimeExtensions.cs:18-26 | from the epoch until the `int` second count runs out, `FromUnixTime(ToUnixTime(d)) <= d < FromUnixTime(ToUnixTime(d)) + 1 s` |
| DateTimeExtensions.UnixTimeTruncatesBeforeEpoch | Desktop/TimeTracker/DateTimeExtensions.cs:18-26 | before the epoch the fraction is dropped toward zero: `FromUnixTime(ToUnixTime(d)) - 1 s < d <= FromUnixTime(ToUnixTime(d))` |
| DateTimeExtensions.UnixTimeMonotone | Desktop/TimeTracker/DateTimeExtensions.cs:18-21 | below the `int` overflow, `d1 <= d2` implies `ToUnixTime(d1) <= ToUnixTime(d2)` |
| DateTimeExtensions.UnixTimeOverflow | Desktop/TimeTracker/DateTimeExtensions.cs:20 | the last `int` second survives, and one second later `ToUnixTime` falls to `int.MinValue` |
| TimeRecords.MakeRow | Desktop/TimeTracker/MainWindow.xaml.cs:139-142 | the row keeps the minutes it is given; its two date columns are stated by `RowDateIsStartOfDay` |
| TimeRecords.RowDateIsStartOfDay | Desktop/TimeTracker/MainWindow.xaml.cs:139-142 | for a row written between the epoch and the `int` overflow, `CreatedAtDate` is a multiple of 86400, `CreatedAtDate <= CreatedAt < CreatedAtDate + 86400`, and it is the Unix time of `now.Date` |
| TimeRecords.Slices | Desktop/TimeTracker/MainWindow.xaml.cs:128-135 | one slice per pair of consecutive flush anchors, holding the minutes between them |
| TimeRecords.SlicesAddUp | Desktop/TimeTracker/MainWindow.xaml.cs:128-135 | the slices between successive anchors sum to the minutes from the first anchor to the last |
| Report.ReportWindow | Desktop/TimeTracker/MainWindow.xaml.cs:193-196 | the window starts at a Monday midnight, ends 7 days later at a midnight, and contains `now + 7 * weekOffset` days (with the `int` product wrapped, and exactly when it does not overflow) |
| Report.RowInWindow | Desktop/TimeTracker/MainWindow.xaml.cs:195-201 | a row written at `t` passes the query's `CreatedAtDate` bounds exactly when `t` lies in the window (everything between the epoch and the `int` overflow) |
| Report.Filter | Desktop/TimeTracker/MainWindow.xaml.cs:198-199 | the `WHERE` keeps no more rows than the table has, and every row it keeps has `lo <= CreatedAtDate < hi` |
| Report.FilterMembers | Desktop/TimeTracker/MainWindow.xaml.cs:198-201 | the `WHERE` clause keeps exactly the rows with `lo <= CreatedAtDate < hi` |
| Report.FilterKeepsSums | Desktop/TimeTracker/MainWindow.xaml.cs:198-201 | after the `WHERE`, a date in the bounds keeps its whole minute sum and a date outside sums to zero |
| Report.GroupByDate | Desktop/TimeTracker/MainWindow.xaml.cs:198-201 | at most one group per row, and no groups exactly when there are no rows |
| Report.GroupByDateCorrect | Desktop/TimeTracker/MainWindow.xaml.cs:198-201 | `GROUP BY ... ORDER BY CreatedAtDate` gives strictly ascending dates, one group per distinct date of the rows, each holding the sum of that date's minutes |
| Report.WeekTotals | Desktop/TimeTracker/MainWindow.xaml.cs:198-201 | the report rows have strictly ascending dates; their dates are exactly the distinct `CreatedAtDate` values in `[lo, hi)`; each row's hours are the date's minute sum over the whole table divided by 60 |
| Report.ReportLine | Desktop/TimeTracker/MainWindow.xaml.cs:212-214 | the line is `Date:`, then the short date of the row's Unix day, then `|Total Hours:`, then the hours text, each readable back at its offset |
| Report.ViewReport | Desktop/TimeTracker/MainWindow.xaml.cs:190-226 | an unparsable offset gives no query and no lines; otherwise one line per report row of the window, in order, each made of `Date:`, the short date, the `Total Hours:` label after a bar, and the hours text |
| Report.WeekOf2024Jan1 | Desktop/TimeTracker/MainWindow.xaml.cs:193-201 | the week of 2024-01-01: rows of 30 and 90 minutes on Jan 2 and 60 on Jan 5 give 2.0 and 1.0 hours in date order |
| Tracker.FlushDue | Desktop/TimeTracker/MainWindow.xaml.cs:113 | a periodic flush is due exactly when strictly more than 10 minutes' worth of ticks lie between the anchor and `now` |
| Tracker.MainWindow.constructor | Desktop/TimeTracker/MainWindow.xaml.cs:23-77 | a new window is paused, has no running loop, a zero counter, the anchor at `DateTime.MinValue`, and the existing table |
| Tracker.MainWindow.PlayPause | Desktop/TimeTracker/MainWindow.xaml.cs:97-107 | flips the play flag; switching to playing sets the anchor to `now`, starts one more loop and does not reset `trackedPerSession`; nothing is recorded |
| Tracker.MainWindow.Tick | Desktop/TimeTracker/MainWindow.xaml.cs:109-123 | while playing, exactly one second is added and a flush happens only when strictly more than 10 minutes have passed since the anchor; once paused, the loop exits with exactly one final flush; the session invariant is kept |
| Tracker.MainWindow.SessionAddsUp | Desktop/TimeTracker/MainWindow.xaml.cs:97-135 | in every state the tracker's methods keep, the minutes flushed in the current session add up to the time from the session's start to the current anchor |
| Tracker.MainWindow.RecordTime | Desktop/TimeTracker/MainWindow.xaml.cs:128-135 | a flush appends one row of `now - anchor` minutes, saves one screenshot, moves the anchor to `now` and adds it to the session's anchors, so the new slice is the time between the last two anchors |
| Tracker.MainWindow.RecordMinutes | Desktop/TimeTracker/MainWindow.xaml.cs:137-170 | appends the row `(ToUnixTime(now), ToUnixTime(now.Date), totalMinutes)` and saves one screenshot; touches nothing else |
| Tracker.MainWindow.AddOffline | Desktop/TimeTracker/MainWindow.xaml.cs:174-188 | text that is not an integer inserts nothing; an integer `m` inserts one row of `m` minutes; the box is cleared in both cases and the anchor, flag and session are unchanged |
| Tracker.MainWindow.OnClosing | Desktop/TimeTracker/MainWindow.xaml.cs:79-95 | when a background task is recorded the play flag is lowered, so that the loop's next pass does the final flush |
| WrappedSqlException.Join | Desktop/TimeTracker/Db/WrappedSqlException.cs:43 | `string.Join`: empty for no items, and otherwise the text starts with the first item |
| WrappedSqlException.JoinSnoc | Desktop/TimeTracker/Db/WrappedSqlException.cs:43 | joining one more item appends the separator and that item, so items appear in order, separated by `, ` |
| WrappedSqlException.ValueText | Desktop/TimeTracker/Db/WrappedSqlException.cs:31-37 | an `Int` value is printed bare, and a null `Int` as nothing; any other type is wrapped in single quotes around the value's text, with nothing between the quotes for a null |
| WrappedSqlException.Entries | Desktop/TimeTracker/Db/WrappedSqlException.cs:26-41 | one entry per parameter, in parameter order, each `"@" + name + " = " + value` |
| WrappedSqlException.GetQuery | Desktop/TimeTracker/Db/WrappedSqlException.cs:19-44 | with no parameters the query is exactly the command text |
| WrappedSqlException.GetQueryAppend | Desktop/TimeTracker/Db/WrappedSqlException.cs:26-43 | adding a parameter appends its entry after `exec <text> ` for the first parameter and after `, ` for each later one |
| WrappedSqlException.WrappedSqliteException.ToString | Desktop/TimeTracker/Db/WrappedSqlException.cs:46-49 | the text is `"\r\nSql Query: "`, then the query, then `"\r\n"` and the base exception's text, and the query can be read back at offset 13 |
| WrappedSqlException.Wrap | Desktop/TimeTracker/Db/WrappedSqlException.cs:13-17 | the wrapped exception keeps the inner message and its query is `GetQuery` of the command, which for a command with no parameters is the command text |

## Left out

- The `DateTime` range (years 1 to 9999) is not modelled. Times are unbounded integers, so the `ArgumentOutOfRangeException` of `AddDays` and `AddSeconds` is not modelled either.
- Floating point is not modelled. `TotalSeconds`, `TotalMinutes` and the report's `SUM(...)/60` are exact rationals, so the rounding of ticks to `double` is left out. One visible effect: .NET Framework computes `TotalSeconds` as `ticks * (1.0 / 1e7)`, which rounds the last 100 ns tick of a second up, so 2024-01-01 00:00:00.9999999 gives 1704067201. `UnixTimeTruncates`, and the `CreatedAt < CreatedAtDate + 86400` part of `RowDateIsStartOfDay` at 23:59:59.9999999, hold for the exact model only. `UnixTimeRoundTrip` is not affected: whole seconds stay exact.
- The `INSERT` text is not modelled: the formatting of `totalMinutes.ToString().Replace(",", ".")` and the SQL string. Only the values of the row are modelled.
- Screenshot capture is only counted: the bitmap, the PNG encoding, and the directory and file names built from a later `DateTime.Now`.
- Threading is not modelled: `Task.Factory.StartNew`, `Task.Delay`, `Dispatcher.Invoke`, and the `Wait` in `OnClosing`. A loop is a sequence of `Tick` calls. The loop's two clock readings, the flush test (line 113) and the flush (line 130), are one `now` per pass.
- Tracker.MainWindow.Tick: the interleaving of UI events with loop passes is modelled only at pass granularity. A pass never sees the flag change in the middle of its body.
- Display text is not modelled: the `Tracked` text and the play button's caption.
- Database errors are not modelled. Neither is any exception raised inside a flush, which would end the background task.
- `int.TryParse`, `ToShortDateString` and the culture's number formatting are parameters, not definitions.
- UI is not modelled: the save-file dialog (the report is modelled as the lines it would write, whether or not the user confirms), `MessageBox` texts, the window title and the deployment version.
- Database creation in the window constructor and the `TimeRecords` schema are not part of this model. Neither are Db/DataCommand.cs (connection handling, `Hash`) and Db/DatabaseInterface.cs.
- `Cast<SqlParameter>` over a SQLite parameter collection is not modelled. Parameters are abstract, with a name, whether the type is `Int`, and an optional value text.
- WrappedSqlException.GetQuery: the contract gives the empty case. The order and format of the entries are stated by `Entries` and `GetQueryAppend`.
- TimeRecords.MakeRow: its own contract gives only the minutes column; the date columns are stated by `RowDateIsStartOfDay`, for rows between the epoch and the `int` overflow.
