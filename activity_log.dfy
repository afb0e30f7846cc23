/**
 * The activity log: one record per calendar day, upserted by date and kept to
 * the thirty latest dates.
 *
 * A calendar day is a day number (days since 1970-01-01). The store keys its
 * records by ISO 8601 extended calendar dates (`YYYY-MM-DD`), whose
 * lexicographic order, used when the log is sorted, is chronological order;
 * so comparing day numbers is comparing those strings.
 */
module ActivityLogs {
  import opened Wrappers
  import Search

  datatype ActivityLog = ActivityLog(date: int, completedTasks: int, totalTasks: int)

  /** How many records the log keeps once it grows past this bound. */
  const Retention: nat := 30

  /** The number of completed tasks in today's task list (`filter(...).length`). */
  function CountCompleted(tasks: seq<bool>): (n: nat)
    ensures n <= |tasks|
    ensures n == 0 <==> true !in tasks
    ensures n == |tasks| <==> false !in tasks
    ensures n == multiset(tasks)[true]
  {
    if tasks == [] then 0
    else
      assert tasks == [tasks[0]] + tasks[1..];
      (if tasks[0] then 1 else 0) + CountCompleted(tasks[1..])
  }

  /** The record written for `date` from the task list. */
  function Entry(date: int, tasks: seq<bool>): ActivityLog {
    ActivityLog(date, CountCompleted(tasks), |tasks|)
  }

  function OnDate(date: int): ActivityLog -> bool {
    (log: ActivityLog) => log.date == date
  }

  /** The index of the first record for `date`, or -1 (`findIndex`). */
  function IndexOfDate(logs: seq<ActivityLog>, date: int): int {
    Search.FirstMatch(logs, OnDate(date))
  }

  /** The first record for `date` (`find`). */
  function Lookup(logs: seq<ActivityLog>, date: int): Option<ActivityLog> {
    Search.Find(logs, OnDate(date))
  }

  /**
   * Overwrite the first record for `date`, or append one when there is none.
   * Every other position keeps its record.
   */
  function Upsert(logs: seq<ActivityLog>, date: int, tasks: seq<bool>): (r: seq<ActivityLog>)
    ensures var i := IndexOfDate(logs, date);
      && (i == -1 ==> |r| == |logs| + 1 && IndexOfDate(r, date) == |logs|)
      && (i != -1 ==> |r| == |logs| && IndexOfDate(r, date) == i)
    ensures Lookup(r, date) == Some(Entry(date, tasks))
    ensures forall k :: 0 <= k < |logs| && k != IndexOfDate(logs, date) ==> r[k] == logs[k]
  {
    var i := IndexOfDate(logs, date);
    var r := if i != -1 then logs[i := Entry(date, tasks)] else logs + [Entry(date, tasks)];
    assert OnDate(date)(r[IndexOfDate(logs, date) + (if i == -1 then |logs| + 1 else 0)]);
    r
  }

  /* ---------- sorting by date ---------- */

  ghost predicate SortedByDate(s: seq<ActivityLog>) {
    forall i, j :: 0 <= i < j < |s| ==> s[i].date <= s[j].date
  }

  /** The records of `s` dated `date`, in their order in `s`. */
  function RecordsOn(s: seq<ActivityLog>, date: int): seq<ActivityLog> {
    if s == [] then []
    else (if s[0].date == date then [s[0]] else []) + RecordsOn(s[1..], date)
  }

  /** Insert `x` before the first record whose date is not earlier than its own. */
  function InsertByDate(x: ActivityLog, s: seq<ActivityLog>): (r: seq<ActivityLog>)
    ensures |r| == |s| + 1
    ensures multiset(r) == multiset(s) + multiset{x}
  {
    if s == [] || x.date <= s[0].date then [x] + s
    else
      assert s == [s[0]] + s[1..];
      [s[0]] + InsertByDate(x, s[1..])
  }

  /**
   * The log sorted by date, as `sort((a, b) => a.date.localeCompare(b.date))`
   * does it: a stable sort (records with equal dates keep their order).
   */
  function SortByDate(s: seq<ActivityLog>): (r: seq<ActivityLog>)
    ensures |r| == |s|
    ensures multiset(r) == multiset(s)
  {
    if s == [] then []
    else
      assert s == [s[0]] + s[1..];
      InsertByDate(s[0], SortByDate(s[1..]))
  }

  lemma {:induction false} InsertByDateSorted(x: ActivityLog, s: seq<ActivityLog>)
    requires SortedByDate(s)
    ensures SortedByDate(InsertByDate(x, s))
  {
    if s == [] || x.date <= s[0].date {
      var r := [x] + s;
      forall i, j | 0 <= i < j < |r| ensures r[i].date <= r[j].date {
        assert r[j] == s[j - 1];
        if i > 0 { assert r[i] == s[i - 1]; }
      }
    } else {
      InsertByDateSorted(x, s[1..]);
      var t := InsertByDate(x, s[1..]);
      var b := s[1..] + [x];
      var NotBefore := (log: ActivityLog) => s[0].date <= log.date;
      forall k | 0 <= k < |b| ensures NotBefore(b[k]) {
        if k < |s| - 1 { assert b[k] == s[k + 1]; }
      }
      assert multiset(t) == multiset(b);
      AllByMultiset(t, b, NotBefore);
      var r := [s[0]] + t;
      forall i, j | 0 <= i < j < |r| ensures r[i].date <= r[j].date {
        assert r[j] == t[j - 1];
        if i > 0 { assert r[i] == t[i - 1]; }
      }
    }
  }

  /** The sorted log is ordered by date. */
  lemma {:induction false} SortByDateSorted(s: seq<ActivityLog>)
    ensures SortedByDate(SortByDate(s))
  {
    if s != [] {
      SortByDateSorted(s[1..]);
      InsertByDateSorted(s[0], SortByDate(s[1..]));
    }
  }

  lemma {:induction false} InsertByDateStable(x: ActivityLog, s: seq<ActivityLog>, date: int)
    ensures RecordsOn(InsertByDate(x, s), date) ==
            (if x.date == date then [x] else []) + RecordsOn(s, date)
  {
    if s == [] || x.date <= s[0].date {
      assert ([x] + s)[1..] == s;
    } else {
      InsertByDateStable(x, s[1..], date);
      assert ([s[0]] + InsertByDate(x, s[1..]))[1..] == InsertByDate(x, s[1..]);
    }
  }

  /** Sorting keeps the records of each date in their original order. */
  lemma {:induction false} SortByDateStable(s: seq<ActivityLog>, date: int)
    ensures RecordsOn(SortByDate(s), date) == RecordsOn(s, date)
  {
    if s != [] {
      SortByDateStable(s[1..], date);
      InsertByDateStable(s[0], SortByDate(s[1..]), date);
    }
  }

  /* ---------- facts about sequences of records ---------- */

  /** A property held by every record of `b` holds of every record of a sub-multiset `a`. */
  lemma AllByMultiset(a: seq<ActivityLog>, b: seq<ActivityLog>, P: ActivityLog -> bool)
    requires multiset(a) <= multiset(b)
    requires forall k :: 0 <= k < |b| ==> P(b[k])
    ensures forall k :: 0 <= k < |a| ==> P(a[k])
  {
    forall k | 0 <= k < |a| ensures P(a[k]) {
      assert a[k] in multiset(a);
      assert a[k] in b;
      var m :| 0 <= m < |b| && b[m] == a[k];
    }
  }

  /** A suffix of a sorted log is sorted and dated no earlier than what precedes it. */
  lemma SortedSuffix(s: seq<ActivityLog>, n: nat)
    requires SortedByDate(s) && n <= |s|
    ensures SortedByDate(s[n..])
    ensures forall i, j :: 0 <= i < n && 0 <= j < |s| - n ==> s[i].date <= s[n..][j].date
  {
    forall i, j | 0 <= i < j < |s| - n ensures s[n..][i].date <= s[n..][j].date {
      assert s[n..][i] == s[n + i] && s[n..][j] == s[n + j];
    }
    forall i, j | 0 <= i < n && 0 <= j < |s| - n ensures s[i].date <= s[n..][j].date {
      assert s[n..][j] == s[n + j];
    }
  }

  /* ---------- retention ---------- */

  /** Keep only the latest `Retention` records once the log has grown past it. */
  function Trim(logs: seq<ActivityLog>): (r: seq<ActivityLog>)
    ensures |r| == if |logs| > Retention then Retention else |logs|
    ensures |logs| <= Retention ==> r == logs
  {
    if |logs| > Retention then
      var sorted := SortByDate(logs);
      sorted[|sorted| - Retention..]
    else logs
  }

  /**
   * When the bound is exceeded, what remains is sorted by date, is taken from
   * the log, and no dropped record is dated after a kept one.
   */
  lemma TrimKeepsLatest(logs: seq<ActivityLog>)
    requires |logs| > Retention
    ensures var r := Trim(logs);
      && SortedByDate(r)
      && multiset(r) <= multiset(logs)
      && forall x, y :: x in multiset(logs) - multiset(r) && y in r ==> x.date <= y.date
  {
    var s := SortByDate(logs);
    SortByDateSorted(logs);
    var n := |s| - Retention;
    var kept := s[n..];
    assert Trim(logs) == kept;
    SortedSuffix(s, n);
    SplitMultiset(s, n);
    SortedSplit(s, n);
  }

  lemma SplitMultiset(s: seq<ActivityLog>, n: nat)
    requires n <= |s|
    ensures multiset(s) - multiset(s[n..]) == multiset(s[..n])
  {
    assert s == s[..n] + s[n..];
  }

  lemma SortedSplit(s: seq<ActivityLog>, n: nat)
    requires SortedByDate(s) && n <= |s|
    ensures forall x, y :: x in multiset(s[..n]) && y in s[n..] ==> x.date <= y.date
  {
    forall x, y | x in multiset(s[..n]) && y in s[n..]
      ensures x.date <= y.date
    {
      var i :| 0 <= i < n && s[..n][i] == x;
      var j :| 0 <= j < |s| - n && s[n..][j] == y;
      assert s[i] == x && s[n + j] == y;
    }
  }

  /** `updateActivityLog`: upsert today's record, then enforce the retention bound. */
  function UpdatedLog(logs: seq<ActivityLog>, date: int, tasks: seq<bool>): (r: seq<ActivityLog>)
    ensures |r| <= Retention
  {
    Trim(Upsert(logs, date, tasks))
  }

  /**
   * The log never holds more than `Retention` records after an update; it
   * grows by one exactly when `date` had no record, up to that bound, and is
   * left untrimmed while the upsert keeps it within the bound.
   */
  lemma UpdatedLogBounded(logs: seq<ActivityLog>, date: int, tasks: seq<bool>)
    ensures var n := |logs| + (if IndexOfDate(logs, date) == -1 then 1 else 0);
      |UpdatedLog(logs, date, tasks)| == if n > Retention then Retention else n
    ensures |Upsert(logs, date, tasks)| <= Retention ==>
              UpdatedLog(logs, date, tasks) == Upsert(logs, date, tasks)
  {
  }

  /* ---------- one record per date ---------- */

  ghost predicate UniqueDates(s: seq<ActivityLog>) {
    forall i, j :: 0 <= i < j < |s| ==> s[i].date != s[j].date
  }

  function NotOn(date: int): ActivityLog -> bool {
    (log: ActivityLog) => log.date != date
  }

  lemma {:induction false} InsertByDateUnique(x: ActivityLog, s: seq<ActivityLog>)
    requires UniqueDates(s)
    requires forall k :: 0 <= k < |s| ==> NotOn(x.date)(s[k])
    ensures UniqueDates(InsertByDate(x, s))
  {
    if s == [] || x.date <= s[0].date {
      var r := [x] + s;
      forall i, j | 0 <= i < j < |r| ensures r[i].date != r[j].date {
        assert r[j] == s[j - 1];
        if i > 0 { assert r[i] == s[i - 1]; }
      }
    } else {
      var t := InsertByDate(x, s[1..]);
      InsertByDateUnique(x, s[1..]);
      AllByMultiset(s[1..], s[1..], NotOn(s[0].date)) by {
        forall k | 0 <= k < |s[1..]| ensures NotOn(s[0].date)(s[1..][k]) {
          assert s[1..][k] == s[k + 1];
        }
      }
      assert forall k :: 0 <= k < |t| ==> NotOn(s[0].date)(t[k]) by {
        forall k | 0 <= k < |t| ensures NotOn(s[0].date)(t[k]) {
          assert t[k] in multiset(t);
          if t[k] != x {
            assert t[k] in multiset(s[1..]);
            assert t[k] in s[1..];
            var m :| 0 <= m < |s[1..]| && s[1..][m] == t[k];
          }
        }
      }
      var r := [s[0]] + t;
      forall i, j | 0 <= i < j < |r| ensures r[i].date != r[j].date {
        assert r[j] == t[j - 1];
        if i > 0 { assert r[i] == t[i - 1]; }
      }
    }
  }

  lemma {:induction false} SortByDateUnique(s: seq<ActivityLog>)
    requires UniqueDates(s)
    ensures UniqueDates(SortByDate(s))
  {
    if s != [] {
      assert UniqueDates(s[1..]) by {
        forall i, j | 0 <= i < j < |s[1..]| ensures s[1..][i].date != s[1..][j].date {
          assert s[1..][i] == s[i + 1] && s[1..][j] == s[j + 1];
        }
      }
      SortByDateUnique(s[1..]);
      forall k | 0 <= k < |s[1..]| ensures NotOn(s[0].date)(s[1..][k]) {
        assert s[1..][k] == s[k + 1];
      }
      AllByMultiset(SortByDate(s[1..]), s[1..], NotOn(s[0].date));
      InsertByDateUnique(s[0], SortByDate(s[1..]));
    }
  }

  lemma UpsertUnique(logs: seq<ActivityLog>, date: int, tasks: seq<bool>)
    requires UniqueDates(logs)
    ensures UniqueDates(Upsert(logs, date, tasks))
  {
    var u := Upsert(logs, date, tasks);
    var i := IndexOfDate(logs, date);
    if i == -1 {
      forall a, b | 0 <= a < b < |u| ensures u[a].date != u[b].date {
        assert u[a] == logs[a];
        if b < |logs| { assert u[b] == logs[b]; } else { assert !OnDate(date)(logs[a]); }
      }
    } else {
      assert OnDate(date)(u[i]) && OnDate(date)(logs[i]);
      assert forall k :: 0 <= k < |u| ==> u[k].date == logs[k].date;
    }
  }

  /** Updating the log keeps at most one record per date. */
  lemma UpdatedLogUnique(logs: seq<ActivityLog>, date: int, tasks: seq<bool>)
    requires UniqueDates(logs)
    ensures UniqueDates(UpdatedLog(logs, date, tasks))
  {
    var u := Upsert(logs, date, tasks);
    UpsertUnique(logs, date, tasks);
    if |u| > Retention {
      SortByDateUnique(u);
      var s := SortByDate(u);
      var t := s[|s| - Retention..];
      assert forall k :: 0 <= k < |t| ==> t[k] == s[|s| - Retention + k];
    }
  }

  /** In a log with unique dates, the lookup finds the one record for its date. */
  lemma LookupUnique(r: seq<ActivityLog>, k: nat)
    requires UniqueDates(r) && k < |r|
    ensures Lookup(r, r[k].date) == Some(r[k])
  {
    var i := Search.FirstMatch(r, OnDate(r[k].date));
    assert OnDate(r[k].date)(r[k]);
    assert OnDate(r[k].date)(r[i]);
  }

  /** Upserting a record dated `date` into a log dated no later keeps the log dated no later. */
  lemma UpsertNotAfter(logs: seq<ActivityLog>, date: int, tasks: seq<bool>)
    requires forall k :: 0 <= k < |logs| ==> logs[k].date <= date
    ensures var u := Upsert(logs, date, tasks);
      forall k :: 0 <= k < |u| ==> u[k].date <= date
  {
    var u := Upsert(logs, date, tasks);
    forall k | 0 <= k < |u| ensures u[k].date <= date {
      if k < |logs| && k != IndexOfDate(logs, date) {
        assert u[k] == logs[k];
      } else if k < |logs| {
        assert OnDate(date)(u[k]);
      } else {
        assert OnDate(date)(u[IndexOfDate(u, date)]);
      }
    }
  }

  /** The one record of the latest date ends up last once the log is sorted. */
  lemma LatestSortsLast(u: seq<ActivityLog>, e: ActivityLog)
    requires UniqueDates(u) && e in u
    requires forall k :: 0 <= k < |u| ==> u[k].date <= e.date
    ensures SortByDate(u)[|u| - 1] == e
  {
    hide SortByDate;
    var s := SortByDate(u);
    SortByDateSorted(u);
    SortByDateUnique(u);
    assert e in multiset(s);
    var p :| 0 <= p < |s| && s[p] == e;
    var AtMost := (log: ActivityLog) => log.date <= e.date;
    AllByMultiset(s, u, AtMost);
    var last := |s| - 1;
    assert s[p].date <= s[last].date;
    assert AtMost(s[last]);
    assert p == last;
  }

  /**
   * When no record is dated after `date` and dates are unique, the record just
   * written survives trimming and is the one a lookup finds.
   */
  lemma UpdatedLogKeepsLatest(logs: seq<ActivityLog>, date: int, tasks: seq<bool>)
    requires UniqueDates(logs)
    requires forall k :: 0 <= k < |logs| ==> logs[k].date <= date
    ensures Lookup(UpdatedLog(logs, date, tasks), date) == Some(Entry(date, tasks))
  {
    hide Upsert, SortByDate, Lookup;
    var u := Upsert(logs, date, tasks);
    var e := Entry(date, tasks);
    if |u| > Retention {
      UpsertUnique(logs, date, tasks);
      UpsertNotAfter(logs, date, tasks);
      var iu := IndexOfDate(u, date);
      assert OnDate(date)(u[iu]);
      LookupUnique(u, iu);
      assert u[iu] == e;
      LatestSortsLast(u, e);
      var s := SortByDate(u);
      SortByDateUnique(u);
      var r := s[|s| - Retention..];
      assert r[Retention - 1] == e;
      assert UniqueDates(r) by {
        forall i, j | 0 <= i < j < |r| ensures r[i].date != r[j].date {
          assert r[i] == s[|s| - Retention + i] && r[j] == s[|s| - Retention + j];
        }
      }
      LookupUnique(r, Retention - 1);
    }
  }

  /**
   * Updating twice with the same day's tasks is updating once, while dates
   * are unique and none is after that day.
   */
  lemma UpdatedLogIdempotent(logs: seq<ActivityLog>, date: int, tasks: seq<bool>)
    requires UniqueDates(logs)
    requires forall k :: 0 <= k < |logs| ==> logs[k].date <= date
    ensures var once := UpdatedLog(logs, date, tasks);
      UpdatedLog(once, date, tasks) == once
  {
    hide UpdatedLog;
    var once := UpdatedLog(logs, date, tasks);
    UpdatedLogKeepsLatest(logs, date, tasks);
    UpdatedLogBounded(logs, date, tasks);
    UpsertSameRecord(once, date, tasks);
    UpdatedLogBounded(once, date, tasks);
  }

  /** Upserting the record a lookup already finds leaves the log as it is. */
  lemma UpsertSameRecord(logs: seq<ActivityLog>, date: int, tasks: seq<bool>)
    requires Lookup(logs, date) == Some(Entry(date, tasks))
    ensures Upsert(logs, date, tasks) == logs
  {
    var i := IndexOfDate(logs, date);
    assert logs[i] == Entry(date, tasks);
    assert logs[i := Entry(date, tasks)] == logs;
  }
}
