# Statistics store

A Dafny model of the task manager's statistics store (`stores/statistics.ts`,
a Pinia store). The store keeps five persisted statistics: the current and
longest streak, the last active date, a log of daily activity records and a
tally of completions per part of the day. It also keeps a sync queue, an
initialization flag and four memo fields for its getters.

The model is split into modules that follow the store:

- `Search` covers `findIndex` and `find` as linear searches.
- `ActivityLogs` covers the per-day activity log and `updateActivityLog`. That action upserts today's record. Once the log holds more than 30 records, it sorts them by date with a stable sort and keeps the last 30.
- `TimeOfDay` covers the hour-to-day-part classification and `updateTimeOfDayStats`.
- `Streak` covers the streak rule of `updateStreakInfo`. It holds the branch exactly as the store runs it, and beside it the evidently intended update (see Findings).
- `Metrics` covers the derived metrics behind the four getters. These are the seven-day series, the previous week's total, the week-over-week change in percent, and the most productive day, where a tie goes to the later entry.
- `Snapshots` holds the five statistics as one value, `Stats`. It defines what loading the local tier does to them (`Loaded`) and what recording a day's activity does (`Recorded`).
- `Store` holds the class `StatisticsStore`, with the store's fields, its getters (which fill their memo fields) and its actions. Every action is proved against the functions above.

Dates are day numbers, counted in days since 1970-01-01, which was a Thursday. An empty `lastActiveDate` is `None`. The clock, the day, the hour, the session flag, today's task list and the outcome of every server request are parameters of the operations. Each task is reduced to its `completed` flag.

Three behaviours of the store are easy to misread. The model follows the code in all three:

- A failed send while draining the sync queue is queued again. The drain empties the queue and then calls the save action. The save action catches its own failure and pushes a new `"stats"` token, so the queue ends with exactly one token.
- In `mostProductiveDay` a tie goes to the later entry. The `reduce` keeps the running best only while it is strictly ahead.
- Loading the local tier replaces the log but leaves the four memo fields alone. A getter run before `initialize` keeps returning its old value afterwards, unless a fetch succeeds or a task is completed, since only those clear the memos. For example, a new store computes `weeklyProgress` on an empty log, and then loads a log holding today's record with 4 completions. The memo still reports 0 for today, while the series of the loaded log reports 4. `LoadFromLocalStorage` changes only the five statistics, and `Initialize` leaves the memo fields as they were in that case.

## Model

| member | source | states |
|---|---|---|
| Search.FirstMatch | stores/statistics.ts:370-372 | `findIndex`: the result is -1 exactly when no element matches. Otherwise the element at the result matches and none before it does. |
| Search.Find | stores/statistics.ts:70-72 | `find`: the result is `None` exactly when no element matches. Otherwise it is the first element that matches. |
| ActivityLogs.CountCompleted | stores/statistics.ts:373 | The completed count is the number of `true` flags in the task list. So it is at most the number of tasks, 0 exactly when no task is completed, and the full length exactly when every task is. |
| ActivityLogs.Upsert | stores/statistics.ts:370-388 | Overwrites the first record for the date, or appends one when there is none. The length grows by one only on an append. A lookup of the date then finds the new record. Every other position is unchanged. |
| ActivityLogs.InsertByDate | stores/statistics.ts:392 | One insertion step of the sort: one more record, and the same records plus the inserted one. |
| ActivityLogs.SortByDate | stores/statistics.ts:392 | The sort is a permutation of the log: same length, same multiset of records. |
| ActivityLogs.InsertByDateSorted | stores/statistics.ts:392 | Inserting into a log ordered by date keeps it ordered. |
| ActivityLogs.SortByDateSorted | stores/statistics.ts:392 | The sorted log is ordered by date. |
| ActivityLogs.InsertByDateStable | stores/statistics.ts:392 | Insertion keeps the relative order of the records of each date. |
| ActivityLogs.SortByDateStable | stores/statistics.ts:392 | The sort is stable: the records of each date keep their original order. |
| ActivityLogs.Trim | stores/statistics.ts:390-394 | The trimmed log has min(n, 30) records and is the log itself when n <= 30. |
| ActivityLogs.TrimKeepsLatest | stores/statistics.ts:390-394 | Past 30 records, what remains is sorted and drawn from the log. No dropped record is dated after a kept one. |
| ActivityLogs.UpdatedLog | stores/statistics.ts:369-394 | The upsert followed by the retention trim. The log never holds more than 30 records afterwards. Its other properties are in `UpdatedLogBounded`, `UpdatedLogUnique`, `UpdatedLogKeepsLatest` and `UpdatedLogIdempotent`. |
| ActivityLogs.UpdatedLogBounded | stores/statistics.ts:369-394 | After an update the log has min(n + 1, 30) records when the date was new and min(n, 30) otherwise. It is the untrimmed upsert while that fits. |
| ActivityLogs.InsertByDateUnique | stores/statistics.ts:392 | Inserting a record whose date is not yet present keeps dates unique. |
| ActivityLogs.SortByDateUnique | stores/statistics.ts:392 | Sorting keeps dates unique. |
| ActivityLogs.UpsertUnique | stores/statistics.ts:370-388 | The upsert keeps at most one record per date. |
| ActivityLogs.UpdatedLogUnique | stores/statistics.ts:369-394 | The full update keeps at most one record per date. |
| ActivityLogs.LookupUnique | stores/statistics.ts:70-72 | With unique dates, looking up a record's date finds that record. |
| ActivityLogs.UpdatedLogKeepsLatest | stores/statistics.ts:369-394 | With unique dates, none after today, today's record survives trimming and is what a lookup of today finds. |
| ActivityLogs.UpsertSameRecord | stores/statistics.ts:376-381 | Upserting the record a lookup already finds leaves the log unchanged. |
| ActivityLogs.UpdatedLogIdempotent | stores/statistics.ts:369-394 | With unique dates, none after the day, updating twice with that day's tasks gives the same log as updating once. |
| TimeOfDay.Category | stores/statistics.ts:402-410 | The hour maps to one of the four day-part names. `CategoryIsArc` characterizes which one. |
| TimeOfDay.CategoryIsArc | stores/statistics.ts:399-410 | An hour is in a day-part exactly when it falls on that day-part's arc of the clock (5-11, 12-16, 17-21, 22-4). The four arcs cover 24 hours. |
| TimeOfDay.Tally | stores/statistics.ts:412-417 | Same length and same bucket names. Only the first bucket named after the hour's day-part gains one completion. |
| TimeOfDay.TallyDefaultBuckets | stores/statistics.ts:28-33 | On the four default buckets, exactly the hour's bucket grows by one, the total grows by one, and the names stay. |
| Streak.StreakAfter | stores/statistics.ts:322-338 | The streak branch either keeps the streak, extends it by one, or restarts it at 1. When the last active date is today it keeps it. `AsWrittenNeverAdvances` and `ReplayCountsTrailingRun` state its effect over a run of days. |
| Streak.AsWrittenStreakUnchanged | stores/statistics.ts:319-338 | With today stored before the branch, the branch always sees today and leaves the streak as it was. |
| Streak.AsWrittenNeverAdvances | stores/statistics.ts:317-339 | As written, no run of active days ever changes the current streak. |
| Streak.YesterdayThenToday | stores/statistics.ts:319-332 | The counterexample: active yesterday and again today, the as-written streak stays 1 where 2 is intended. |
| Streak.StepSameDay | stores/statistics.ts:333-334 | Under the intended update, recording the same day a second time changes nothing. |
| Streak.ReplayCountsTrailingRun | stores/statistics.ts:322-338 | Under the intended update, the streak after a strictly increasing run of active days is in 1..n. Its days are consecutive, and the day before them leaves a gap, so it is the longest trailing run. |
| Metrics.Weekday | stores/statistics.ts:73 | The weekday index is in 0..6. |
| Metrics.DayLabel | stores/statistics.ts:61-76 | A date's label is one of the seven day names, never the "None" sentinel. |
| Metrics.DayLabelCycle | stores/statistics.ts:73 | Labels repeat every 7 days, and consecutive days have consecutive weekdays. |
| Metrics.DayLabelEpoch | stores/statistics.ts:73 | Day 0, 1970-01-01, is labelled "Thu". With `DayLabelCycle` this fixes the label of every day. |
| Metrics.WeekSeries | stores/statistics.ts:64-79 | The series has 7 entries, each labelled with a day name. |
| Metrics.WeekSeriesDays | stores/statistics.ts:65-79 | Entry 6 - b is labelled with the weekday of the day b days ago. It carries that day's first record's completed count, or 0 when that day has no record. |
| Metrics.ComputeWeeklyProgress | stores/statistics.ts:60-83 | The getter's loop returns exactly the seven-day series ending today, oldest first. |
| Metrics.ComputePreviousWeekTotal | stores/statistics.ts:92-111 | The getter's loop returns the sum of the completed counts from 13 to 7 days ago. |
| Metrics.PrevWeekTotal | stores/statistics.ts:92-111 | The sum of the completed counts from 13 to 7 days ago. `ComputePreviousWeekTotal` proves the getter's loop computes it. `WeekTotals` proves it is this week's total taken a week earlier. |
| Metrics.WindowSumZero | stores/statistics.ts:96-107 | A window with nothing completed in it sums to 0. |
| Metrics.WindowSumNonNegative | stores/statistics.ts:96-107 | With no negative counts, a window's sum is not negative. |
| Metrics.TotalCompleted | stores/statistics.ts:120-123 | The left-to-right `reduce` sum of a series' counts. `WeekTotals` proves that on the weekly series it is the 7-day window ending today. |
| Metrics.WeekTotals | stores/statistics.ts:120-126 | This week's `reduce` total is the 7-day window ending today. The previous week's total is the same quantity taken a week earlier. |
| Metrics.FloorDiv | stores/statistics.ts:129-131 | Floor division for either sign of the divisor. |
| Metrics.ChangePercent | stores/statistics.ts:128-131 | 0 when the previous week is 0. Otherwise the integer nearest to 100 (t - p) / p, with halves rounded up as `Math.round` does. |
| Metrics.ChangeSign | stores/statistics.ts:128-131 | For a positive previous week, a positive change means growth and a negative one means decline. Equal weeks give 0. |
| Metrics.MostProductive | stores/statistics.ts:145-147 | The result is an entry of the series with the most completions, and no later entry ties it. |
| Metrics.TieGoesToLaterDay | stores/statistics.ts:145-147 | With Tue and Wed tied at the top, Wed is chosen. |
| Snapshots.Loaded | stores/statistics.ts:174-205 | Each key that holds a value replaces its field, and an absent key leaves it. A malformed log becomes empty and a malformed tally becomes the four zeroed buckets. |
| Snapshots.LoadedEmpty | stores/statistics.ts:181-204 | Loading an empty local tier changes nothing. |
| Snapshots.Recorded | stores/statistics.ts:317-350 | The longest streak never decreases. With a completed task, today becomes the last active date and the longest streak is at least the current one. `RecordedEffect` gives every field. |
| Snapshots.RecordedEffect | stores/statistics.ts:317-350 | With no completed task nothing changes. Otherwise today becomes the last active date and the current streak stays. The longest streak becomes the larger of the two, so it never decreases and is at least the current one. The log is updated and stays within 30 records, and the hour's bucket is tallied. |
| Snapshots.RecordedToday | stores/statistics.ts:347 | With unique dates, none after today, recording a completed task keeps dates unique, and today's record has 0 < completed <= total = number of tasks. |
| Snapshots.RecordedSameDayStreak | stores/statistics.ts:317-339 | On every input, recording the same day twice leaves the streak fields and the last active date as the first call left them. |
| Snapshots.RecordedSameDayTwice | stores/statistics.ts:317-347 | With unique dates, none after today, recording the same day twice also leaves the log as the first call left it, besides the streak fields and the last active date. |
| Snapshots.YesterdayAndToday | stores/statistics.ts:317-347 | Yesterday's 3 and today's 5 completions give a weekly series ending (yesterday, 3), (today, 5), and the current streak does not move. |
| Store.StatisticsStore.ClearedCachesCoherent | stores/statistics.ts:352-356 | Cleared memo fields agree with any log on any day. |
| Store.StatisticsStore.ResetCaches | stores/statistics.ts:352-356 | Empties the four memo fields (zero totals, no series, the "None" label). Only they change, and the store's memo invariant holds afterwards. |
| Store.StatisticsStore.constructor | stores/statistics.ts:23-44 | The initial state: zero streaks, no active date, an empty log, four zeroed buckets, not initialized, an empty queue, cleared memo fields. |
| Store.StatisticsStore.WeeklyProgress | stores/statistics.ts:55-84 | Returns the memo when it is filled, otherwise the fresh series, which it stores. From coherent memos it returns the series for today's log. |
| Store.StatisticsStore.PreviousWeekTotal | stores/statistics.ts:86-112 | Returns a non-zero memo, otherwise the fresh total, which it stores. From coherent memos it returns the previous week's total. |
| Store.StatisticsStore.WeekOverWeekChange | stores/statistics.ts:113-136 | A non-zero memo is returned as is. Otherwise it returns the change between what the two getters return, filling their memos. A 0 previous week returns 0 without storing it. From coherent memos it returns the change for today's log. |
| Store.StatisticsStore.MostProductiveDay | stores/statistics.ts:137-152 | A memo is returned as is. Otherwise it returns the label of the most productive entry of the weekly series and stores it. The result is always a day name. |
| Store.StatisticsStore.UpdateActivityLog | stores/statistics.ts:369-395 | The new log is `UpdatedLog` of the old one. Only the log changes. |
| Store.StatisticsStore.UpdateTimeOfDayStats | stores/statistics.ts:398-418 | The new tally is `Tally` of the old one for the hour. Only the tally changes. |
| Store.StatisticsStore.UpdateStreakInfo | stores/statistics.ts:306-366 | The statistics become `Recorded` of the old ones. With a completed task the memo fields are cleared, and a failed send while logged in queues one token. Without one nothing changes. |
| Store.StatisticsStore.SaveStatsToServer | stores/statistics.ts:252-281 | Logged out, nothing changes. A failed send appends one `"stats"` token. A successful send leaves the queue. |
| Store.StatisticsStore.ProcessSyncQueue | stores/statistics.ts:284-294 | Logged out or with an empty queue, nothing changes. Otherwise the queue ends empty on success and holds one token on failure, so it never holds more than one token after a drain. |
| Store.StatisticsStore.FetchStatsFromServer | stores/statistics.ts:220-249 | A successful fetch overwrites all five statistics with the server's and clears the memo fields. A failed one changes nothing. |
| Store.StatisticsStore.LoadFromLocalStorage | stores/statistics.ts:174-205 | The statistics become `Loaded` of the old ones and the local snapshot. |
| Store.StatisticsStore.Initialize | stores/statistics.ts:156-171 | A no-op once initialized. Otherwise it loads the local tier, lets a successful fetch override it when logged in, records today's activity and sets the flag. The memo fields end cleared when the fetch succeeded or a task was completed, and are unchanged otherwise. |

## Left out

- Local storage writes and removals (`persistToLocalStorage`, `clearLocalStorageStats`, Pinia's `persist`) are I/O. Reading the five keys is the `LocalSnapshot` parameter.
- HTTP requests and the JSON bodies are left out. A fetch is an `Option<Stats>`, `None` for a failed request, an exception or `success: false`. A send is a success flag.
- The sends are asynchronous and the save in `updateStreakInfo` is not awaited. The model applies its effect on the queue at once, and no interleaving is modelled.
- The `isLoggedIn` getter and `useUserSession` are not part of this model. The session flag is a parameter, and the same flag serves the getter and the save action's own check.
- The task store (`useTasksStore`) is not part of this model. Today's tasks are a `seq<bool>` of completion flags. The goals store is imported but unused.
- `Date` arithmetic, time zones and ISO strings are left out. Dates are day numbers, so the string comparison of the sort is integer comparison.
- `parseInt` yielding `NaN`, and a stored log or tally that parses as JSON but is not an array of records, are left out.
- Metrics.ChangePercent: computed exactly on integers, without modelling floating-point division and `Math.round` on doubles. The two can differ by one near a half. With this week 229 and previous week 200, the double path gives 14.499999999999998, which rounds to 14, while the exact value 14.5 rounds to 15.
- ActivityLogs.UpdatedLogIdempotent, Snapshots.RecordedToday, Snapshots.RecordedSameDayTwice: the log half of each is promised only with unique dates and no record dated after today. A log of 30 or more records all dated after today (a clock set back) sorts today's record to the front, where the slice to the last 30 drops it, so the store itself does not keep these promises there.
- The getters' memo fields are modelled as the store's own fields, filled by the getter methods. Vue's reactive `computed` caching around the getters is left out.

## Findings

| source | as written | input that shows it | evidently intended | confidence | as-written member | corrected member |
|---|---|---|---|---|---|---|
| stores/statistics.ts:319-338 | `lastActiveDate` is set to today before the streak branch reads it, so the branch always takes the "already today" case and the current streak never changes. | Active yesterday (`lastActiveDate` = yesterday, streak 1), a task completed today: the streak stays 1. | Read the previous active date first. Yesterday extends the streak, today keeps it, a gap or none restarts it at 1. | high; not executed | Streak.AsWrittenNeverAdvances | Streak.ReplayCountsTrailingRun |

The store in `Store` keeps the code as written, so `UpdateStreakInfo` and `Snapshots.Recorded` never move the current streak. The corrected rule is `Streak.Step` and `Streak.Replay`. `Streak.YesterdayThenToday` states both outcomes on the input above.
