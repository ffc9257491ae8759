/**
 * The session tracker of `MainWindow`: the play flag, the flush anchor
 * `_recordTime`, the session counter `trackedPerSession`, the background loop
 * started by the play button, the flushes that write `TimeRecords` rows, and
 * the offline entry.
 *
 * The background loop is modelled one pass at a time: `Tick(now)` is one
 * check of `while (_isPlaying)` followed either by the loop body or by the
 * exit and its final flush, with `now` the clock reading of that pass. The
 * database table and the screenshot folder are fields of the window here.
 */
module Tracker {
  import opened Wrappers
  import opened DateTimeExtensions
  import opened TimeRecords

  /** `DateTime.MinValue` (0001-01-01), the value of a `DateTime` field never assigned. */
  const MinValue: DateTime := UnixEpoch - 719_162 * TicksPerDay

  /** `(now - recordTime).TotalMinutes > 10`: the periodic flush is due. */
  predicate FlushDue(recordTime: DateTime, now: DateTime): (due: bool)
    ensures due <==> now - recordTime > 10 * TicksPerMinute
  {
    Minutes(now - recordTime) > 10.0
  }

  class MainWindow {
    /** `_isPlaying` */
    var isPlaying: bool
    /** `_recordTime`: where the next flush starts counting from. */
    var recordTime: DateTime
    /** `trackedPerSession`, in whole seconds (it only ever grows by one second). */
    var trackedPerSession: int
    /** How many background loops started by the play button have not exited yet. */
    var runningLoops: nat
    /** `_playingTask != null` */
    var hasPlayingTask: bool
    /** The text of `OfflineBox`. */
    var offlineBox: string
    /** The `TimeRecords` table, in insertion order. */
    var table: seq<Row>
    /** How many screenshots have been saved. */
    var screenshots: nat

    /** When the current session started (the last switch to playing). */
    ghost var sessionStart: DateTime
    /** The minutes recorded by the flushes of the current session, in order. */
    ghost var sessionSlices: seq<real>
    /** The anchors of the current session: its start, then the time of each flush. */
    ghost var sessionAnchors: seq<DateTime>

    /**
     * The session's anchors run from its start to the current anchor, and each
     * flush recorded the minutes between two successive anchors.
     */
    ghost predicate Valid()
      reads this
    {
      && |sessionAnchors| > 0
      && sessionAnchors[0] == sessionStart
      && sessionAnchors[|sessionAnchors| - 1] == recordTime
      && sessionSlices == Slices(sessionAnchors)
    }

    /** The flushes of a session account for all the time up to the current anchor. */
    lemma SessionAddsUp()
      requires Valid()
      ensures Sum(sessionSlices) == Minutes(recordTime - sessionStart)
    {
      SlicesAddUp(sessionAnchors);
    }

    /** The window as it opens on an existing database. */
    constructor (table: seq<Row>)
      ensures Valid()
      ensures !isPlaying && recordTime == MinValue && trackedPerSession == 0
      ensures runningLoops == 0 && !hasPlayingTask && offlineBox == ""
      ensures this.table == table && screenshots == 0
    {
      isPlaying := false;
      recordTime := MinValue;
      trackedPerSession := 0;
      runningLoops := 0;
      hasPlayingTask := false;
      offlineBox := "";
      this.table := table;
      screenshots := 0;
      sessionStart := MinValue;
      sessionSlices := [];
      sessionAnchors := [MinValue];
    }

    /**
     * `PlayPause_Click`: flips the play flag; switching to playing moves the
     * anchor to `now` and starts one more background loop. Switching to paused
     * only clears the flag: the running loop notices it on its next pass.
     */
    method PlayPause(now: DateTime)
      requires Valid()
      modifies this
      ensures Valid()
      ensures isPlaying == !old(isPlaying)
      ensures isPlaying ==> recordTime == now && runningLoops == old(runningLoops) + 1 && hasPlayingTask
      ensures isPlaying ==> sessionStart == now && sessionSlices == [] && sessionAnchors == [now]
      ensures !isPlaying ==> recordTime == old(recordTime) && runningLoops == old(runningLoops)
      ensures !isPlaying ==> hasPlayingTask == old(hasPlayingTask)
      ensures !isPlaying ==> sessionStart == old(sessionStart) && sessionSlices == old(sessionSlices)
      ensures !isPlaying ==> sessionAnchors == old(sessionAnchors)
      ensures trackedPerSession == old(trackedPerSession) && offlineBox == old(offlineBox)
      ensures table == old(table) && screenshots == old(screenshots)
    {
      isPlaying := !isPlaying;
      if isPlaying {
        recordTime := now;
        sessionStart, sessionSlices, sessionAnchors := now, [], [now];
        runningLoops := runningLoops + 1;
        hasPlayingTask := true;
      }
    }

    /**
     * One pass of a background loop. While playing: one more second, and a
     * flush if more than ten minutes have passed since the anchor. Once the
     * flag is down: the loop exits with exactly one final flush.
     */
    method Tick(now: DateTime)
      requires Valid() && runningLoops > 0
      modifies this
      ensures Valid()
      ensures isPlaying == old(isPlaying) && offlineBox == old(offlineBox)
      ensures sessionStart == old(sessionStart)
      ensures old(isPlaying) ==> trackedPerSession == old(trackedPerSession) + 1
      ensures old(isPlaying) ==> runningLoops == old(runningLoops) && hasPlayingTask == old(hasPlayingTask)
      ensures !old(isPlaying) ==> trackedPerSession == old(trackedPerSession)
      ensures !old(isPlaying) ==> runningLoops == old(runningLoops) - 1 && !hasPlayingTask
      ensures var slice := Minutes(now - old(recordTime));
        if !old(isPlaying) || FlushDue(old(recordTime), now) then
          && table == old(table) + [MakeRow(now, slice)]
          && screenshots == old(screenshots) + 1
          && recordTime == now
          && sessionSlices == old(sessionSlices) + [slice]
          && sessionAnchors == old(sessionAnchors) + [now]
        else
          && table == old(table) && screenshots == old(screenshots)
          && recordTime == old(recordTime) && sessionSlices == old(sessionSlices)
          && sessionAnchors == old(sessionAnchors)
    {
      if isPlaying {
        trackedPerSession := trackedPerSession + 1;
        if FlushDue(recordTime, now) {
          RecordTime(now);
        }
      } else {
        RecordTime(now);
        hasPlayingTask := false;
        runningLoops := runningLoops - 1;
      }
    }

    /**
     * `RecordTime()`: records the minutes since the anchor as one row and
     * moves the anchor to `now`.
     */
    method RecordTime(now: DateTime)
      requires Valid()
      modifies this
      ensures Valid()
      ensures table == old(table) + [MakeRow(now, Minutes(now - old(recordTime)))]
      ensures screenshots == old(screenshots) + 1
      ensures recordTime == now
      ensures sessionSlices == old(sessionSlices) + [Minutes(now - old(recordTime))]
      ensures sessionAnchors == old(sessionAnchors) + [now]
      ensures isPlaying == old(isPlaying) && trackedPerSession == old(trackedPerSession)
      ensures runningLoops == old(runningLoops) && hasPlayingTask == old(hasPlayingTask)
      ensures offlineBox == old(offlineBox) && sessionStart == old(sessionStart)
    {
      var totalMinutes := Minutes(now - recordTime);
      recordTime := now;
      sessionSlices := sessionSlices + [totalMinutes];
      sessionAnchors := sessionAnchors + [now];
      assert sessionAnchors[..|sessionAnchors| - 1] == old(sessionAnchors);
      RecordMinutes(now, totalMinutes);
    }

    /**
     * `RecordTime(now, totalMinutes)`: inserts one row for `now` and saves one
     * screenshot; the anchor is not touched.
     */
    method RecordMinutes(now: DateTime, totalMinutes: real)
      modifies this`table, this`screenshots
      ensures table == old(table) + [MakeRow(now, totalMinutes)]
      ensures screenshots == old(screenshots) + 1
    {
      table := table + [MakeRow(now, totalMinutes)];
      screenshots := screenshots + 1;
    }

    /**
     * `AddOffline_OnClick`: when the offline box parses as an integer `m`
     * (`parse` stands for `int.TryParse`), records one row of `m` minutes at
     * `now`; otherwise records nothing. The box is cleared either way and the
     * session anchor stays where it was.
     */
    method AddOffline(now: DateTime, parse: string -> Option<Int32>)
      requires Valid()
      modifies this
      ensures Valid()
      ensures offlineBox == ""
      ensures parse(old(offlineBox)).None? ==> table == old(table) && screenshots == old(screenshots)
      ensures parse(old(offlineBox)).Some? ==>
        && table == old(table) + [MakeRow(now, parse(old(offlineBox)).value as real)]
        && screenshots == old(screenshots) + 1
      ensures recordTime == old(recordTime) && isPlaying == old(isPlaying)
      ensures trackedPerSession == old(trackedPerSession) && runningLoops == old(runningLoops)
      ensures hasPlayingTask == old(hasPlayingTask)
      ensures sessionStart == old(sessionStart) && sessionSlices == old(sessionSlices)
      ensures sessionAnchors == old(sessionAnchors)
    {
      var minutes := parse(offlineBox);
      if minutes.Some? {
        RecordMinutes(now, minutes.value as real);
      }
      offlineBox := "";
    }

    /**
     * `OnClosing`: when a background task is recorded, lowers the play flag so
     * that the loop leaves with its final flush.
     */
    method OnClosing()
      requires Valid()
      modifies this`isPlaying
      ensures Valid()
      ensures isPlaying == (old(isPlaying) && !hasPlayingTask)
    {
      if hasPlayingTask {
        isPlaying := false;
      }
    }
  }
}
