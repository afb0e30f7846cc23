/**
 * The streak rule: how the current streak moves given the last active date
 * seen when it is updated.
 */
module Streak {
  import opened Wrappers

  /**
   * The branch of `updateStreakInfo` that updates the current streak, as a
   * function of the last active date it reads: no date starts a streak,
   * yesterday extends it, today keeps it, anything else restarts it.
   */
  function StreakAfter(lastActive: Option<int>, today: int, current: int): (r: int)
    ensures r == 1 || r == current || r == current + 1
    ensures lastActive == Some(today) ==> r == current
  {
    match lastActive
    case None => 1
    case Some(last) =>
      if last == today - 1 then current + 1
      else if last == today then current
      else 1
  }

  /**
   * As written, the update stores today as the last active date before it
   * reads it, so the branch always sees today: the streak never moves.
   */
  lemma AsWrittenStreakUnchanged(today: int, current: int)
    ensures StreakAfter(Some(today), today, current) == current
  {
  }

  /** The streak after a run of updates, one per active day, as the code is written. */
  function ReplayAsWritten(days: seq<int>, current: int): int {
    if days == [] then current
    else
      var today := days[|days| - 1];
      StreakAfter(Some(today), today, ReplayAsWritten(days[..|days| - 1], current))
  }

  /** Whatever the active days, the streak as written stays where it started. */
  lemma {:induction false} AsWrittenNeverAdvances(days: seq<int>, current: int)
    ensures ReplayAsWritten(days, current) == current
  {
    if days != [] {
      AsWrittenNeverAdvances(days[..|days| - 1], current);
    }
  }

  datatype StreakState = StreakState(lastActive: Option<int>, current: int)

  /**
   * The evidently intended update: the branch reads the last active date from
   * before this call, and only then is today recorded.
   */
  function Step(s: StreakState, today: int): StreakState {
    StreakState(Some(today), StreakAfter(s.lastActive, today, s.current))
  }

  /**
   * Under the intended update, recording the same day a second time changes
   * nothing: the second call sees today as the last active date.
   */
  lemma StepSameDay(s: StreakState, today: int)
    ensures Step(Step(s, today), today) == Step(s, today)
  {
  }

  /** The intended streak state after a run of active days, starting from a fresh store. */
  function Replay(days: seq<int>): StreakState {
    if days == [] then StreakState(None, 0)
    else Step(Replay(days[..|days| - 1]), days[|days| - 1])
  }

  ghost predicate Increasing(days: seq<int>) {
    forall i, j :: 0 <= i < j < |days| ==> days[i] < days[j]
  }

  /** The last `n` days of `days` are consecutive calendar days. */
  ghost predicate ConsecutiveTail(days: seq<int>, n: nat)
    requires n <= |days|
  {
    forall i :: |days| - n <= i < |days| ==> days[i] == days[|days| - 1] - (|days| - 1 - i)
  }

  /**
   * With the intended update, after any strictly increasing run of active
   * days the current streak is the length of the longest tail of consecutive
   * days ending at the last one: those days are consecutive, and the day
   * before them (if any) leaves a gap.
   */
  lemma {:induction false} ReplayCountsTrailingRun(days: seq<int>)
    requires Increasing(days) && days != []
    ensures var n := Replay(days).current;
      && 1 <= n <= |days|
      && ConsecutiveTail(days, n)
      && (n == |days| || days[|days| - 1 - n] != days[|days| - 1] - n)
  {
    var m := |days| - 1;
    var prefix := days[..m];
    if m > 0 {
      assert Increasing(prefix);
      ReplayCountsTrailingRun(prefix);
      var p := Replay(prefix).current;
      assert Replay(prefix).lastActive == Some(days[m - 1]);
      if days[m - 1] == days[m] - 1 {
        assert Replay(days).current == p + 1;
        forall i | |days| - (p + 1) <= i < |days| ensures days[i] == days[m] - (m - i) {
          if i < m { assert prefix[i] == prefix[m - 1] - (m - 1 - i); }
        }
        if p + 1 < |days| {
          assert prefix[m - 1 - p] != prefix[m - 1] - p;
        }
      } else {
        assert days[m - 1] < days[m];
        assert Replay(days).current == 1;
      }
    }
  }

  /** The input that shows the difference: yesterday active, today active again. */
  lemma YesterdayThenToday()
    ensures ReplayAsWritten([9, 10], 1) == 1
    ensures Replay([9, 10]).current == 2
  {
    assert [9, 10][..1] == [9];
    assert [9][..0] == [];
  }
}
