/**
 * The statistics store: the state object, its getters and its actions.
 *
 * Each action runs to completion as one step. The session flag, the day
 * (`today`, a day number), the hour of the clock, today's task list and the
 * outcome of every server request are parameters.
 */
module Store {
  import opened Wrappers
  import opened ActivityLogs
  import opened TimeOfDay
  import opened Metrics
  import opened Snapshots
  import Search
  import Streak

  /** The token the sync queue carries: the statistics need sending again. */
  const StatsToken: string := "stats"

  class StatisticsStore {
    var currentStreak: int
    var longestStreak: int
    var lastActiveDate: Option<int>
    var activityLogs: seq<ActivityLog>
    var timeOfDayStats: seq<TimeStats>
    var isInitialized: bool
    var syncQueue: seq<string>
    // The getters' memo fields; each counts as empty while it holds its
    // sentinel: 0, [], 0 and "None".
    var previousWeekTotalCache: int
    var weeklyProgressCache: seq<WeeklyProgressItem>
    var weekOverWeekChangeCache: int
    var mostProductiveDayCache: string

    /** The five persisted statistics. */
    ghost function Current(): Stats
      reads this
    {
      Stats(currentStreak, longestStreak, lastActiveDate, activityLogs, timeOfDayStats)
    }

    /**
     * The caches only ever hold what the getters put there: a seven-day
     * series of weekday labels, and the sentinel or a weekday label.
     */
    ghost predicate Valid()
      reads this`weeklyProgressCache, this`mostProductiveDayCache
    {
      && (weeklyProgressCache == [] ||
          (|weeklyProgressCache| == 7 &&
           forall k :: 0 <= k < 7 ==> weeklyProgressCache[k].day in DayNames))
      && (mostProductiveDayCache == NoDay || mostProductiveDayCache in DayNames)
    }

    ghost predicate CachesCleared()
      reads this
    {
      && previousWeekTotalCache == 0
      && weeklyProgressCache == []
      && weekOverWeekChangeCache == 0
      && mostProductiveDayCache == NoDay
    }

    /** Every cache holds its sentinel or what its getter computes for `today` from the current log. */
    ghost predicate Coherent(today: int)
      reads this
    {
      var series := WeekSeries(activityLogs, today);
      var prev := PrevWeekTotal(activityLogs, today);
      && (weeklyProgressCache == [] || weeklyProgressCache == series)
      && (previousWeekTotalCache == 0 || previousWeekTotalCache == prev)
      && (weekOverWeekChangeCache == 0 || weekOverWeekChangeCache == ChangePercent(TotalCompleted(series), prev))
      && (mostProductiveDayCache == NoDay || mostProductiveDayCache == MostProductive(series).day)
    }

    /** Cleared caches agree with any log on any day. */
    lemma ClearedCachesCoherent(today: int)
      requires CachesCleared()
      ensures Coherent(today)
    {
    }

    constructor ()
      ensures Current() == Initial
      ensures !isInitialized && syncQueue == []
      ensures CachesCleared() && Valid()
    {
      currentStreak := 0;
      longestStreak := 0;
      lastActiveDate := None;
      activityLogs := [];
      timeOfDayStats := DefaultStats;
      isInitialized := false;
      syncQueue := [];
      previousWeekTotalCache := 0;
      weeklyProgressCache := [];
      weekOverWeekChangeCache := 0;
      mostProductiveDayCache := NoDay;
    }

    /* ---------- getters ---------- */

    /** What `weeklyProgress` returns: the cache when filled, a fresh series otherwise. */
    ghost function WeeklyProgressView(today: int): seq<WeeklyProgressItem>
      reads this
    {
      if |weeklyProgressCache| > 0 then weeklyProgressCache else WeekSeries(activityLogs, today)
    }

    /** What `previousWeekTotal` returns: the cache when non-zero, a fresh total otherwise. */
    ghost function PreviousWeekTotalView(today: int): int
      reads this
    {
      if previousWeekTotalCache != 0 then previousWeekTotalCache else PrevWeekTotal(activityLogs, today)
    }

    method WeeklyProgress(today: int) returns (r: seq<WeeklyProgressItem>)
      requires Valid()
      modifies this`weeklyProgressCache
      ensures Valid()
      ensures r == old(WeeklyProgressView(today)) && |r| == 7
      ensures weeklyProgressCache == r
      ensures old(Coherent(today)) ==> Coherent(today) && r == WeekSeries(activityLogs, today)
    {
      if |weeklyProgressCache| > 0 {
        return weeklyProgressCache;
      }
      r := ComputeWeeklyProgress(activityLogs, today);
      weeklyProgressCache := r;
    }

    method PreviousWeekTotal(today: int) returns (r: int)
      requires Valid()
      modifies this`previousWeekTotalCache
      ensures Valid()
      ensures r == old(PreviousWeekTotalView(today))
      ensures previousWeekTotalCache == r
      ensures old(Coherent(today)) ==> Coherent(today) && r == PrevWeekTotal(activityLogs, today)
    {
      if previousWeekTotalCache != 0 {
        return previousWeekTotalCache;
      }
      r := ComputePreviousWeekTotal(activityLogs, today);
      previousWeekTotalCache := r;
    }

    /**
     * `weekOverWeekChange`: a non-zero cache is returned as is; otherwise the
     * change between what the two getters return, which is 0, and left
     * uncached, when the previous week's total is 0.
     */
    method WeekOverWeekChange(today: int) returns (r: int)
      requires Valid()
      modifies this`weeklyProgressCache, this`previousWeekTotalCache, this`weekOverWeekChangeCache
      ensures Valid()
      ensures old(weekOverWeekChangeCache) != 0 ==>
        && r == old(weekOverWeekChangeCache)
        && weeklyProgressCache == old(weeklyProgressCache)
        && previousWeekTotalCache == old(previousWeekTotalCache)
        && weekOverWeekChangeCache == old(weekOverWeekChangeCache)
      ensures old(weekOverWeekChangeCache) == 0 ==>
        && r == ChangePercent(TotalCompleted(old(WeeklyProgressView(today))), old(PreviousWeekTotalView(today)))
        && weeklyProgressCache == old(WeeklyProgressView(today))
        && previousWeekTotalCache == old(PreviousWeekTotalView(today))
        && weekOverWeekChangeCache == r
      ensures old(Coherent(today)) ==>
        && Coherent(today)
        && r == ChangePercent(TotalCompleted(WeekSeries(activityLogs, today)), PrevWeekTotal(activityLogs, today))
    {
      if weekOverWeekChangeCache != 0 {
        return weekOverWeekChangeCache;
      }
      var progress := WeeklyProgress(today);
      var thisWeek := TotalCompleted(progress);
      var prevWeekTotal := PreviousWeekTotal(today);
      if prevWeekTotal == 0 {
        return 0;
      }
      var change := ChangePercent(thisWeek, prevWeekTotal);
      weekOverWeekChangeCache := change;
      r := change;
    }

    /**
     * `mostProductiveDay`: a cached label is returned as is; otherwise the
     * label of the weekly entry with the most completions, the later entry on
     * a tie. The result is always a weekday label, never the sentinel.
     */
    method MostProductiveDay(today: int) returns (r: string)
      requires Valid()
      modifies this`weeklyProgressCache, this`mostProductiveDayCache
      ensures Valid()
      ensures r in DayNames && r != NoDay
      ensures mostProductiveDayCache == r
      ensures old(mostProductiveDayCache) != NoDay ==>
        r == old(mostProductiveDayCache) && weeklyProgressCache == old(weeklyProgressCache)
      ensures old(mostProductiveDayCache) == NoDay ==>
        && r == MostProductive(old(WeeklyProgressView(today))).day
        && weeklyProgressCache == old(WeeklyProgressView(today))
      ensures old(Coherent(today)) ==>
        Coherent(today) && r == MostProductive(WeekSeries(activityLogs, today)).day
    {
      hide WeekSeries, MostProductive;
      if mostProductiveDayCache != NoDay {
        return mostProductiveDayCache;
      }
      var progress := WeeklyProgress(today);
      r := if |progress| == 0 then NoDay else MostProductive(progress).day;
      mostProductiveDayCache := r;
    }

    /* ---------- actions ---------- */

    /** `updateActivityLog`: upsert the record for `date`, then keep the latest thirty. */
    method UpdateActivityLog(date: int, tasks: seq<bool>)
      requires Valid()
      modifies this`activityLogs
      ensures Valid()
      ensures activityLogs == UpdatedLog(old(activityLogs), date, tasks)
    {
      hide SortByDate, Lookup;
      var existingLogIndex := IndexOfDate(activityLogs, date);
      var completedCount := CountCompleted(tasks);
      var totalCount := |tasks|;
      if existingLogIndex != -1 {
        activityLogs := activityLogs[existingLogIndex := ActivityLog(date, completedCount, totalCount)];
      } else {
        activityLogs := activityLogs + [ActivityLog(date, completedCount, totalCount)];
      }
      if |activityLogs| > Retention {
        activityLogs := SortByDate(activityLogs);
        activityLogs := activityLogs[|activityLogs| - Retention..];
      }
    }

    /** `updateTimeOfDayStats`: one more completion in the first bucket named after the hour's day-part. */
    method UpdateTimeOfDayStats(hour: int)
      requires Valid()
      modifies this`timeOfDayStats
      ensures Valid()
      ensures timeOfDayStats == Tally(old(timeOfDayStats), hour)
    {
      var timeCategory := Category(hour);
      var index := Search.FirstMatch(timeOfDayStats, Named(timeCategory));
      if index != -1 {
        timeOfDayStats := timeOfDayStats[index := timeOfDayStats[index].(completed := timeOfDayStats[index].completed + 1)];
      }
    }

    /**
     * `updateStreakInfo`: when some task is completed, record the day, clear
     * the caches and, when logged in, send the statistics (queueing a retry if
     * the send fails); otherwise change nothing.
     */
    method UpdateStreakInfo(today: int, hour: int, tasks: seq<bool>, loggedIn: bool, saveOk: bool)
      requires Valid()
      modifies this
      ensures Valid()
      ensures Current() == Recorded(old(Current()), today, hour, tasks)
      ensures isInitialized == old(isInitialized)
      ensures true !in tasks ==> unchanged(this)
      ensures true in tasks ==>
        && CachesCleared()
        && syncQueue == old(syncQueue) + (if loggedIn && !saveOk then [StatsToken] else [])
    {
      // The new log and tally are only passed along here, never inspected,
      // and `RecordedEffect` gives the recorded statistics field by field.
      hide UpdatedLog, Tally, Recorded, Streak.StreakAfter;
      ghost var before := Current();
      RecordedEffect(before, today, hour, tasks);
      var tasksCompletedToday := true in tasks;
      if tasksCompletedToday {
        lastActiveDate := Some(today);
        currentStreak := Streak.StreakAfter(lastActiveDate, today, currentStreak);
        if currentStreak > longestStreak {
          longestStreak := currentStreak;
        }
        UpdateActivityLog(today, tasks);
        UpdateTimeOfDayStats(hour);
        ResetCaches();
        if loggedIn {
          SaveStatsToServer(loggedIn, saveOk);
        }
      }
    }

    /** Empties the four memo fields, so that every getter computes afresh. */
    method ResetCaches()
      modifies this`previousWeekTotalCache, this`weeklyProgressCache,
               this`weekOverWeekChangeCache, this`mostProductiveDayCache
      ensures CachesCleared() && mostProductiveDayCache == NoDay && Valid()
    {
      previousWeekTotalCache := 0;
      weeklyProgressCache := [];
      weekOverWeekChangeCache := 0;
      mostProductiveDayCache := NoDay;
    }

    /** `saveStatsToServer`: nothing when logged out; a failed send queues one retry token. */
    method SaveStatsToServer(loggedIn: bool, ok: bool)
      requires Valid()
      modifies this`syncQueue
      ensures Valid()
      ensures syncQueue == if loggedIn && !ok then old(syncQueue) + [StatsToken] else old(syncQueue)
    {
      if !loggedIn {
        return;
      }
      if !ok {
        syncQueue := syncQueue + [StatsToken];
      }
    }

    /**
     * `processSyncQueue`: when logged in with something queued, empty the
     * queue and send once; a failed send queues its own retry token, so the
     * queue ends empty on success and holding one token on failure.
     */
    method ProcessSyncQueue(loggedIn: bool, ok: bool)
      requires Valid()
      modifies this`syncQueue
      ensures Valid()
      ensures syncQueue ==
        if !loggedIn || old(syncQueue) == [] then old(syncQueue)
        else if ok then [] else [StatsToken]
      ensures loggedIn ==> |syncQueue| <= 1
    {
      if !loggedIn || |syncQueue| == 0 {
        return;
      }
      syncQueue := [];
      SaveStatsToServer(loggedIn, ok);
    }

    /**
     * `fetchStatsFromServer`: a successful fetch (`remote` holds the
     * statistics) overwrites the five fields and clears the caches; a failed
     * one changes nothing.
     */
    method FetchStatsFromServer(remote: Option<Stats>)
      requires Valid()
      modifies this
      ensures Valid()
      ensures remote.None? ==> unchanged(this)
      ensures remote.Some? ==> Current() == remote.value && CachesCleared()
      ensures isInitialized == old(isInitialized) && syncQueue == old(syncQueue)
    {
      if remote.Some? {
        var data := remote.value;
        currentStreak := data.currentStreak;
        longestStreak := data.longestStreak;
        lastActiveDate := data.lastActiveDate;
        activityLogs := data.activityLogs;
        timeOfDayStats := data.timeOfDayStats;
        ResetCaches();
      }
    }

    /** `loadFromLocalStorage`, given what the five keys hold. */
    method LoadFromLocalStorage(local: LocalSnapshot)
      requires Valid()
      modifies this`currentStreak, this`longestStreak, this`lastActiveDate, this`activityLogs, this`timeOfDayStats
      ensures Valid()
      ensures Current() == Loaded(old(Current()), local)
    {
      // `Loaded`'s contract gives the loaded statistics field by field.
      hide Loaded;
      if local.currentStreak.Some? {
        currentStreak := local.currentStreak.value;
      }
      if local.longestStreak.Some? {
        longestStreak := local.longestStreak.value;
      }
      if local.lastActiveDate.Some? {
        lastActiveDate := local.lastActiveDate;
      }
      match local.activityLogs {
        case Absent =>
        case Malformed => activityLogs := [];
        case Present(logs) => activityLogs := logs;
      }
      match local.timeOfDayStats {
        case Absent =>
        case Malformed => timeOfDayStats := DefaultStats;
        case Present(stats) => timeOfDayStats := stats;
      }
    }

    /**
     * `initialize`: once only, load the local tier, let a successful fetch
     * override it when logged in, then record today's activity.
     */
    method Initialize(local: LocalSnapshot, loggedIn: bool, remote: Option<Stats>,
                      today: int, hour: int, tasks: seq<bool>, saveOk: bool)
      requires Valid()
      modifies this
      ensures Valid()
      ensures old(isInitialized) ==> unchanged(this)
      ensures !old(isInitialized) ==>
        var loaded := Loaded(old(Current()), local);
        var synced := if loggedIn && remote.Some? then remote.value else loaded;
        && isInitialized
        && Current() == Recorded(synced, today, hour, tasks)
        && syncQueue == old(syncQueue) + (if true in tasks && loggedIn && !saveOk then [StatsToken] else [])
      ensures !old(isInitialized) && ((loggedIn && remote.Some?) || true in tasks) ==> CachesCleared()
      ensures !old(isInitialized) && !(loggedIn && remote.Some?) && true !in tasks ==>
        && previousWeekTotalCache == old(previousWeekTotalCache)
        && weeklyProgressCache == old(weeklyProgressCache)
        && weekOverWeekChangeCache == old(weekOverWeekChangeCache)
        && mostProductiveDayCache == old(mostProductiveDayCache)
    {
      if isInitialized {
        return;
      }
      LoadFromLocalStorage(local);
      if loggedIn {
        FetchStatsFromServer(remote);
      }
      UpdateStreakInfo(today, hour, tasks, loggedIn, saveOk);
      isInitialized := true;
    }
  }
}
