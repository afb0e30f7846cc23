/**
 * The five persisted statistics as one value, and the transitions of the
 * store's actions on them: loading the local tier and recording a day's
 * activity.
 */
module Snapshots {
  import opened Wrappers
  import opened ActivityLogs
  import opened TimeOfDay
  import opened Metrics
  import Streak

  /**
   * The statistics both tiers hold: what the local tier stores under its five
   * keys and what the server's GET returns and its POST accepts.
   */
  datatype Stats = Stats(
    currentStreak: int,
    longestStreak: int,
    lastActiveDate: Option<int>,
    activityLogs: seq<ActivityLog>,
    timeOfDayStats: seq<TimeStats>)

  /** A fresh store: no streak, no active date, an empty log and the four zeroed buckets. */
  const Initial: Stats := Stats(0, 0, None, [], DefaultStats)

  /** What one local-storage key yields: nothing, a payload that does not parse, or a value. */
  datatype Stored<T> = Absent | Malformed | Present(value: T)

  /**
   * The local tier's five keys. A streak counter or date that is missing or
   * empty is `None`; the two serialized collections may also be malformed.
   */
  datatype LocalSnapshot = LocalSnapshot(
    currentStreak: Option<int>,
    longestStreak: Option<int>,
    lastActiveDate: Option<int>,
    activityLogs: Stored<seq<ActivityLog>>,
    timeOfDayStats: Stored<seq<TimeStats>>)

  function OrKeep<T>(stored: Option<T>, current: T): T {
    if stored.Some? then stored.value else current
  }

  /** A serialized collection: kept when absent, replaced when present, the default when malformed. */
  function Parsed<T>(stored: Stored<T>, current: T, default: T): T {
    match stored
    case Absent => current
    case Malformed => default
    case Present(v) => v
  }

  /**
   * `loadFromLocalStorage`: each key that holds a value replaces its field;
   * an absent key leaves the field alone; a malformed log becomes empty and a
   * malformed tally becomes the four zeroed buckets.
   */
  function Loaded(s: Stats, local: LocalSnapshot): (r: Stats)
    ensures local.currentStreak.None? ==> r.currentStreak == s.currentStreak
    ensures local.currentStreak.Some? ==> r.currentStreak == local.currentStreak.value
    ensures local.longestStreak.None? ==> r.longestStreak == s.longestStreak
    ensures local.longestStreak.Some? ==> r.longestStreak == local.longestStreak.value
    ensures r.lastActiveDate == if local.lastActiveDate.Some? then local.lastActiveDate else s.lastActiveDate
    ensures local.activityLogs.Malformed? ==> r.activityLogs == []
    ensures local.activityLogs.Absent? ==> r.activityLogs == s.activityLogs
    ensures local.activityLogs.Present? ==> r.activityLogs == local.activityLogs.value
    ensures local.timeOfDayStats.Malformed? ==> r.timeOfDayStats == DefaultStats
    ensures local.timeOfDayStats.Absent? ==> r.timeOfDayStats == s.timeOfDayStats
    ensures local.timeOfDayStats.Present? ==> r.timeOfDayStats == local.timeOfDayStats.value
  {
    Stats(
      OrKeep(local.currentStreak, s.currentStreak),
      OrKeep(local.longestStreak, s.longestStreak),
      if local.lastActiveDate.Some? then local.lastActiveDate else s.lastActiveDate,
      Parsed(local.activityLogs, s.activityLogs, []),
      Parsed(local.timeOfDayStats, s.timeOfDayStats, DefaultStats))
  }

  /** Loading an empty local tier changes nothing. */
  lemma LoadedEmpty(s: Stats)
    ensures Loaded(s, LocalSnapshot(None, None, None, Absent, Absent)) == s
  {
  }

  function Max(a: int, b: int): (m: int)
    ensures m >= a && m >= b && (m == a || m == b)
  {
    if a > b then a else b
  }

  /**
   * `updateStreakInfo` on the statistics, for the day `today`, the hour of
   * the clock and today's task list: nothing happens unless some task is
   * completed; otherwise today becomes the last active date, the streak rule
   * runs on the date it then reads (today), the high-water mark follows the
   * streak, today's record is upserted and the hour's bucket is tallied.
   */
  function Recorded(s: Stats, today: int, hour: int, tasks: seq<bool>): (r: Stats)
    ensures r.longestStreak >= s.longestStreak
    ensures true in tasks ==> r.lastActiveDate == Some(today) && r.longestStreak >= r.currentStreak
  {
    if true !in tasks then s
    else
      var lastActiveDate := Some(today);
      var current := Streak.StreakAfter(lastActiveDate, today, s.currentStreak);
      Stats(
        current,
        Max(current, s.longestStreak),
        lastActiveDate,
        UpdatedLog(s.activityLogs, today, tasks),
        Tally(s.timeOfDayStats, hour))
  }

  /**
   * Recording a day's activity: with no completed task nothing changes; with
   * one, today is the last active date, the current streak stays as it was,
   * the longest streak becomes the larger of itself and the current one (so
   * it never decreases and ends at least the current streak), and today's
   * record holds the completed and total counts of the task list.
   */
  lemma RecordedEffect(s: Stats, today: int, hour: int, tasks: seq<bool>)
    ensures var r := Recorded(s, today, hour, tasks);
      && (true !in tasks ==> r == s)
      && (true in tasks ==>
            && r.lastActiveDate == Some(today)
            && r.currentStreak == s.currentStreak
            && r.longestStreak == Max(s.longestStreak, s.currentStreak)
            && r.longestStreak >= s.longestStreak
            && r.longestStreak >= r.currentStreak
            && r.activityLogs == UpdatedLog(s.activityLogs, today, tasks)
            && |r.activityLogs| <= Retention
            && r.timeOfDayStats == Tally(s.timeOfDayStats, hour))
  {
    UpdatedLogBounded(s.activityLogs, today, tasks);
  }

  /**
   * When the log has one record per date and none dated after today, today's
   * record after the update holds a positive completed count no larger than
   * the total.
   */
  lemma RecordedToday(s: Stats, today: int, hour: int, tasks: seq<bool>)
    requires true in tasks
    requires UniqueDates(s.activityLogs)
    requires forall k :: 0 <= k < |s.activityLogs| ==> s.activityLogs[k].date <= today
    ensures var r := Recorded(s, today, hour, tasks);
      && UniqueDates(r.activityLogs)
      && Lookup(r.activityLogs, today).Some?
      && var log := Lookup(r.activityLogs, today).value;
         0 < log.completedTasks <= log.totalTasks == |tasks|
  {
    UpdatedLogUnique(s.activityLogs, today, tasks);
    UpdatedLogKeepsLatest(s.activityLogs, today, tasks);
  }

  /**
   * Recording the same day twice in a row leaves the streak fields and the
   * last active date as the first call left them, on every input.
   */
  lemma RecordedSameDayStreak(s: Stats, today: int, hour: int, tasks: seq<bool>)
    ensures var once := Recorded(s, today, hour, tasks);
      var twice := Recorded(once, today, hour, tasks);
      && twice.currentStreak == once.currentStreak
      && twice.longestStreak == once.longestStreak
      && twice.lastActiveDate == once.lastActiveDate
  {
  }

  /**
   * Recording the same day twice in a row leaves the streak fields as the
   * first call left them, and, while no record is dated after today and dates
   * are unique, the log too.
   */
  lemma RecordedSameDayTwice(s: Stats, today: int, hour: int, tasks: seq<bool>)
    requires UniqueDates(s.activityLogs)
    requires forall k :: 0 <= k < |s.activityLogs| ==> s.activityLogs[k].date <= today
    ensures var once := Recorded(s, today, hour, tasks);
      var twice := Recorded(once, today, hour, tasks);
      && twice.currentStreak == once.currentStreak
      && twice.longestStreak == once.longestStreak
      && twice.lastActiveDate == once.lastActiveDate
      && twice.activityLogs == once.activityLogs
  {
    if true in tasks {
      UpdatedLogIdempotent(s.activityLogs, today, tasks);
    }
  }

  /**
   * The worked example: the log holds only yesterday's record with 3
   * completions and today five tasks are completed. Afterwards the weekly
   * series ends with yesterday's 3 and today's 5, each under its weekday, and
   * the current streak is what it was before.
   */
  lemma YesterdayAndToday(s: Stats, today: int, hour: int, yesterdayTotal: int)
    requires s.activityLogs == [ActivityLog(today - 1, 3, yesterdayTotal)]
    requires s.lastActiveDate == Some(today - 1)
    ensures var r := Recorded(s, today, hour, [true, true, true, true, true]);
      var series := WeekSeries(r.activityLogs, today);
      && series[5] == WeeklyProgressItem(DayLabel(today - 1), 3)
      && series[6] == WeeklyProgressItem(DayLabel(today), 5)
      && r.currentStreak == s.currentStreak
  {
    var tasks := [true, true, true, true, true];
    assert true in tasks;
    var prior := s.activityLogs[0];
    AppendedToday(prior, today, tasks);
    TwoDaySeries(prior, Entry(today, tasks), today);
  }

  /** Today's record is appended after yesterday's, and nothing is trimmed. */
  lemma AppendedToday(prior: ActivityLog, today: int, tasks: seq<bool>)
    requires prior.date == today - 1
    ensures UpdatedLog([prior], today, tasks) == [prior, Entry(today, tasks)]
  {
    assert !OnDate(today)(prior);
    var u := Upsert([prior], today, tasks);
    assert u[0] == prior;
    assert OnDate(today)(u[IndexOfDate(u, today)]);
  }

  lemma TwoDaySeries(prior: ActivityLog, e: ActivityLog, today: int)
    requires prior.date == today - 1 && e.date == today
    ensures WeekSeries([prior, e], today)[5] == WeeklyProgressItem(DayLabel(today - 1), prior.completedTasks)
    ensures WeekSeries([prior, e], today)[6] == WeeklyProgressItem(DayLabel(today), e.completedTasks)
  {
    hide WeekSeries, Lookup, DayLabel;
    var logs := [prior, e];
    assert UniqueDates(logs);
    LookupUnique(logs, 0);
    LookupUnique(logs, 1);
    WeekSeriesDays(logs, today, 1);
    WeekSeriesDays(logs, today, 0);
  }
}
