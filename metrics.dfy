/**
 * The derived metrics the store's getters compute from the activity log:
 * the seven-day series, the previous week's total, the week-over-week change
 * and the most productive day.
 */
module Metrics {
  import opened Wrappers
  import opened ActivityLogs

  datatype WeeklyProgressItem = WeeklyProgressItem(day: string, completed: int)

  const DayNames: seq<string> := ["Sun", "Mon", "Tue", "Wed", "Thu", "Fri", "Sat"]

  /** The label the most-productive-day cache holds while it is empty. */
  const NoDay: string := "None"

  /** The weekday of a day number, 0 for Sunday; day 0 (1970-01-01) was a Thursday. */
  function Weekday(date: int): (w: nat)
    ensures w < 7
  {
    (date + 4) % 7
  }

  function DayLabel(date: int): (name: string)
    ensures name in DayNames && name != NoDay
  {
    DayNames[Weekday(date)]
  }

  /** Labels repeat every seven days and successive days have successive labels. */
  lemma DayLabelCycle(date: int)
    ensures DayLabel(date + 7) == DayLabel(date)
    ensures Weekday(date + 1) == (Weekday(date) + 1) % 7
  {
  }

  /** Day 0, 1970-01-01, is a Thursday; with `DayLabelCycle` this fixes every label. */
  lemma DayLabelEpoch()
    ensures DayLabel(0) == "Thu"
  {
  }

  /** Completed tasks on a date: the first record's count, or 0 with no record. */
  function CompletedOn(logs: seq<ActivityLog>, date: int): int {
    match Lookup(logs, date)
    case None => 0
    case Some(log) => log.completedTasks
  }

  function DayProgress(logs: seq<ActivityLog>, date: int): WeeklyProgressItem {
    WeeklyProgressItem(DayLabel(date), CompletedOn(logs, date))
  }

  /** The seven days ending today, oldest first. */
  function WeekSeries(logs: seq<ActivityLog>, today: int): (r: seq<WeeklyProgressItem>)
    ensures |r| == 7
    ensures forall k :: 0 <= k < 7 ==> r[k].day in DayNames
  {
    var r := seq(7, k => DayProgress(logs, today - 6 + k));
    assert forall k :: 0 <= k < 7 ==> r[k].day in DayNames by {
      forall k | 0 <= k < 7 ensures r[k].day in DayNames {
        assert r[k] == DayProgress(logs, today - 6 + k);
        assert r[k].day == DayLabel(today - 6 + k);
      }
    }
    r
  }

  /**
   * The series holds one entry per day from six days ago to today: each is
   * labelled with its weekday and carries that day's first record's count.
   */
  lemma WeekSeriesDays(logs: seq<ActivityLog>, today: int, back: nat)
    requires back < 7
    ensures var found := Lookup(logs, today - back);
      WeekSeries(logs, today)[6 - back] ==
        WeeklyProgressItem(DayLabel(today - back), if found.Some? then found.value.completedTasks else 0)
  {
    assert WeekSeries(logs, today)[6 - back] == DayProgress(logs, today - back);
  }

  /** The loop of the `weeklyProgress` getter, building the series day by day. */
  method ComputeWeeklyProgress(logs: seq<ActivityLog>, today: int) returns (result: seq<WeeklyProgressItem>)
    ensures result == WeekSeries(logs, today)
  {
    hide Lookup, DayLabel;
    result := [];
    var i := 6;
    while i >= 0
      invariant -1 <= i <= 6
      invariant |result| == 6 - i
      invariant forall k :: 0 <= k < |result| ==> result[k] == DayProgress(logs, today - 6 + k)
    {
      var date := today - i;
      var dayLog := Lookup(logs, date);
      result := result + [WeeklyProgressItem(DayLabel(date), if dayLog.Some? then dayLog.value.completedTasks else 0)];
      i := i - 1;
    }
  }

  /** Completed tasks summed over `count` days from `first` on, a day without a record counting 0. */
  function WindowSum(logs: seq<ActivityLog>, first: int, count: nat): int {
    if count == 0 then 0
    else WindowSum(logs, first, count - 1) + CompletedOn(logs, first + count - 1)
  }

  /** The previous week: the seven days from 13 to 7 days ago. */
  function PrevWeekTotal(logs: seq<ActivityLog>, today: int): int {
    WindowSum(logs, today - 13, 7)
  }

  /** The loop of the previousWeekTotal getter, adding each day's count from 13 days ago to 7. */
  method ComputePreviousWeekTotal(logs: seq<ActivityLog>, today: int) returns (total: int)
    ensures total == PrevWeekTotal(logs, today)
  {
    hide Lookup;
    total := 0;
    var i := 13;
    while i >= 7
      invariant 6 <= i <= 13
      invariant total == WindowSum(logs, today - 13, 13 - i)
    {
      var dayLog := Lookup(logs, today - i);
      if dayLog.Some? {
        total := total + dayLog.value.completedTasks;
      }
      i := i - 1;
    }
  }

  /** A window with no record in it, or only records with nothing completed, sums to 0. */
  lemma {:induction false} WindowSumZero(logs: seq<ActivityLog>, first: int, count: nat)
    requires forall k :: 0 <= k < |logs| && first <= logs[k].date < first + count ==>
               logs[k].completedTasks == 0
    ensures WindowSum(logs, first, count) == 0
  {
    if count > 0 {
      WindowSumZero(logs, first, count - 1);
      var date := first + count - 1;
      var found := Lookup(logs, date);
      if found.Some? {
        var k :| 0 <= k < |logs| && logs[k] == found.value && OnDate(date)(logs[k]);
      }
    }
  }

  /** With no negative counts in the log, a window's sum is not negative. */
  lemma {:induction false} WindowSumNonNegative(logs: seq<ActivityLog>, first: int, count: nat)
    requires forall k :: 0 <= k < |logs| ==> logs[k].completedTasks >= 0
    ensures WindowSum(logs, first, count) >= 0
  {
    if count > 0 {
      WindowSumNonNegative(logs, first, count - 1);
      var found := Lookup(logs, first + count - 1);
      if found.Some? {
        var k :| 0 <= k < |logs| && logs[k] == found.value;
      }
    }
  }

  /** The sum of `completed` over a series, as the getter's `reduce` adds it from the left. */
  function TotalCompleted(items: seq<WeeklyProgressItem>): int {
    if items == [] then 0
    else TotalCompleted(items[..|items| - 1]) + items[|items| - 1].completed
  }

  lemma {:induction false} SeriesPrefixTotal(logs: seq<ActivityLog>, today: int, n: nat)
    requires n <= 7
    ensures TotalCompleted(WeekSeries(logs, today)[..n]) == WindowSum(logs, today - 6, n)
  {
    hide CompletedOn, DayLabel;
    if n > 0 {
      SeriesPrefixTotal(logs, today, n - 1);
      var series := WeekSeries(logs, today);
      assert series[..n][..n - 1] == series[..n - 1];
      assert series[..n][n - 1] == DayProgress(logs, today - 6 + (n - 1));
    }
  }

  /**
   * This week's total is the seven-day window ending today, and the previous
   * week's total is the same quantity taken a week earlier.
   */
  lemma WeekTotals(logs: seq<ActivityLog>, today: int)
    ensures TotalCompleted(WeekSeries(logs, today)) == WindowSum(logs, today - 6, 7)
    ensures PrevWeekTotal(logs, today) == TotalCompleted(WeekSeries(logs, today - 7))
  {
    SeriesPrefixTotal(logs, today, 7);
    SeriesPrefixTotal(logs, today - 7, 7);
    assert WeekSeries(logs, today)[..7] == WeekSeries(logs, today);
    assert WeekSeries(logs, today - 7)[..7] == WeekSeries(logs, today - 7);
  }

  /** Floor division, for either sign of divisor. */
  function FloorDiv(n: int, d: int): (q: int)
    requires d != 0
    ensures d > 0 ==> q * d <= n < q * d + d
    ensures d < 0 ==> q * d >= n > q * d + d
  {
    if d > 0 then n / d else (-n) / (-d)
  }

  /**
   * The week-over-week change in percent, `Math.round(((t - p) / p) * 100)`,
   * computed exactly: `Math.round(x)` is the floor of `x + 1/2`, and
   * `x + 1/2 = (200 (t - p) + p) / (2 p)`. With no previous week it is 0.
   */
  function ChangePercent(thisWeek: int, prevWeek: int): (r: int)
    ensures prevWeek == 0 ==> r == 0
    ensures prevWeek > 0 ==>
      (2 * r - 1) * prevWeek <= 200 * (thisWeek - prevWeek) < (2 * r + 1) * prevWeek
    ensures prevWeek < 0 ==>
      (2 * r - 1) * prevWeek >= 200 * (thisWeek - prevWeek) > (2 * r + 1) * prevWeek
  {
    if prevWeek == 0 then 0
    else FloorDiv(200 * (thisWeek - prevWeek) + prevWeek, 2 * prevWeek)
  }

  /**
   * For a positive previous week the change has the sign of the difference
   * wherever it is not rounded to 0, and equal weeks give 0.
   */
  lemma ChangeSign(thisWeek: int, prevWeek: int)
    requires prevWeek > 0
    ensures var r := ChangePercent(thisWeek, prevWeek);
      && (r > 0 ==> thisWeek > prevWeek)
      && (r < 0 ==> thisWeek < prevWeek)
      && (thisWeek == prevWeek ==> r == 0)
      && (thisWeek > prevWeek ==> r >= 0)
      && (thisWeek < prevWeek ==> r <= 0)
  {
    hide ChangePercent;
    var r := ChangePercent(thisWeek, prevWeek);
    if r > 0 {
      MulSign(2 * r - 1, prevWeek);
    } else if r < 0 {
      MulSign(2 * r + 1, prevWeek);
    }
  }

  /** A positive multiple of `p > 0` is at least `p`; a negative one at most `-p`. */
  lemma {:induction false} MulSign(a: int, p: int)
    requires p > 0
    ensures a > 0 ==> a * p >= p
    ensures a < 0 ==> a * p <= -p
    decreases if a < 0 then -a else a
  {
    if a > 1 {
      MulSign(a - 1, p);
    } else if a < -1 {
      MulSign(a + 1, p);
    }
  }

  /**
   * `reduce((most, current) => most.completed > current.completed ? most : current)`:
   * the entry with the most completions; a later entry wins a tie, because an
   * entry is kept only while it is strictly ahead.
   */
  function MostProductive(items: seq<WeeklyProgressItem>): (r: WeeklyProgressItem)
    requires |items| > 0
    ensures r in items
    ensures forall k :: 0 <= k < |items| ==> items[k].completed <= r.completed
    ensures exists k :: 0 <= k < |items| && items[k] == r && LastFrom(items, k)
  {
    if |items| == 1 then items[0]
    else
      var prefix := items[..|items| - 1];
      var most := MostProductive(prefix);
      var current := items[|items| - 1];
      assert forall k :: 0 <= k < |prefix| ==> prefix[k] == items[k];
      if most.completed > current.completed then
        assert exists k :: 0 <= k < |items| && items[k] == most && LastFrom(items, k) by {
          var k :| 0 <= k < |prefix| && prefix[k] == most && LastFrom(prefix, k);
          assert LastFrom(items, k);
        }
        most
      else
        assert LastFrom(items, |items| - 1);
        current
  }

  /** Every entry after position `k` completed strictly less than entry `k`. */
  ghost predicate LastFrom(items: seq<WeeklyProgressItem>, k: nat)
    requires k < |items|
  {
    forall j :: k < j < |items| ==> items[j].completed < items[k].completed
  }

  /** With Tue and Wed tied at the top, the later entry, Wed, is chosen. */
  lemma TieGoesToLaterDay()
    ensures MostProductive([
      WeeklyProgressItem("Mon", 2), WeeklyProgressItem("Tue", 5), WeeklyProgressItem("Wed", 5),
      WeeklyProgressItem("Thu", 0), WeeklyProgressItem("Fri", 0), WeeklyProgressItem("Sat", 0),
      WeeklyProgressItem("Sun", 0)]).day == "Wed"
  {
    var items := [
      WeeklyProgressItem("Mon", 2), WeeklyProgressItem("Tue", 5), WeeklyProgressItem("Wed", 5),
      WeeklyProgressItem("Thu", 0), WeeklyProgressItem("Fri", 0), WeeklyProgressItem("Sat", 0),
      WeeklyProgressItem("Sun", 0)];
    hide MostProductive;
    var r := MostProductive(items);
    var k :| 0 <= k < |items| && items[k] == r && LastFrom(items, k);
    assert items[1].completed <= r.completed;
    assert !LastFrom(items, 1) by {
      assert !(items[2].completed < items[1].completed);
    }
    assert k == 0 || k == 1 || k == 2 || k == 3 || k == 4 || k == 5 || k == 6;
    assert k == 2;
  }
}
