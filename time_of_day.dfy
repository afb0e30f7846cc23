/** The time-of-day tally: four named day-parts, each counting completion events. */
module TimeOfDay {
  import Search

  datatype TimeStats = TimeStats(time: string, completed: int)

  /** The bucket names, in the order the store creates them. */
  const Categories: seq<string> := ["Morning", "Afternoon", "Evening", "Night"]

  /** The tally a fresh store starts with, and the one malformed saved data falls back to. */
  const DefaultStats: seq<TimeStats> :=
    [TimeStats("Morning", 0), TimeStats("Afternoon", 0), TimeStats("Evening", 0), TimeStats("Night", 0)]

  /** The day-part of an hour of the clock. */
  function Category(hour: int): (r: string)
    ensures r in Categories
  {
    if 5 <= hour < 12 then "Morning"
    else if 12 <= hour < 17 then "Afternoon"
    else if 17 <= hour < 22 then "Evening"
    else "Night"
  }

  /** Each day-part as an arc of the 24-hour clock: where it starts and how many hours it spans. */
  const ArcStart: seq<int> := [5, 12, 17, 22]
  const ArcLength: seq<int> := [7, 5, 5, 7]

  /**
   * The classification agrees with the arcs: an hour of the day belongs to
   * the day-part whose arc contains it, and the four arcs cover the day once.
   */
  lemma CategoryIsArc(hour: int, i: nat)
    requires 0 <= hour < 24 && i < 4
    ensures Category(hour) == Categories[i] <==> (hour - ArcStart[i]) % 24 < ArcLength[i]
    ensures ArcLength[0] + ArcLength[1] + ArcLength[2] + ArcLength[3] == 24
  {
  }

  function Named(time: string): TimeStats -> bool {
    (stat: TimeStats) => stat.time == time
  }

  /**
   * `updateTimeOfDayStats` on the tally: the first bucket named after the
   * hour's day-part gains one completion; with no such bucket nothing changes.
   */
  function Tally(stats: seq<TimeStats>, hour: int): (r: seq<TimeStats>)
    ensures |r| == |stats|
    ensures forall k :: 0 <= k < |stats| ==> r[k].time == stats[k].time
    ensures var i := Search.FirstMatch(stats, Named(Category(hour)));
      forall k :: 0 <= k < |stats| ==>
        r[k].completed == stats[k].completed + (if k == i then 1 else 0)
  {
    var index := Search.FirstMatch(stats, Named(Category(hour)));
    if index != -1 then stats[index := stats[index].(completed := stats[index].completed + 1)]
    else stats
  }

  function Names(stats: seq<TimeStats>): seq<string> {
    seq(|stats|, k requires 0 <= k < |stats| => stats[k].time)
  }

  function TotalCount(stats: seq<TimeStats>): int {
    if stats == [] then 0 else TotalCount(stats[..|stats| - 1]) + stats[|stats| - 1].completed
  }

  lemma {:induction false} TotalCountPointwise(a: seq<TimeStats>, b: seq<TimeStats>, i: int)
    requires |a| == |b|
    requires forall k :: 0 <= k < |a| ==> b[k].completed == a[k].completed + (if k == i then 1 else 0)
    ensures TotalCount(b) == TotalCount(a) + (if 0 <= i < |a| then 1 else 0)
  {
    if a != [] {
      var n := |a| - 1;
      TotalCountPointwise(a[..n], b[..n], i);
    }
  }

  /**
   * On a tally holding the four day-parts, every event lands in exactly one
   * bucket: the one named after the hour's day-part grows by one, the others
   * keep their counts and the total grows by one.
   */
  lemma TallyDefaultBuckets(stats: seq<TimeStats>, hour: int)
    requires Names(stats) == Categories
    ensures var r := Tally(stats, hour);
      && Names(r) == Categories
      && TotalCount(r) == TotalCount(stats) + 1
      && forall k :: 0 <= k < 4 ==>
           r[k].completed == stats[k].completed + (if Categories[k] == Category(hour) then 1 else 0)
  {
    var r := Tally(stats, hour);
    var i := Search.FirstMatch(stats, Named(Category(hour)));
    assert forall k :: 0 <= k < 4 ==> stats[k].time == Names(stats)[k];
    assert Category(hour) in Categories;
    var c :| 0 <= c < 4 && Categories[c] == Category(hour);
    assert Named(Category(hour))(stats[c]);
    assert i != -1;
    assert Names(r) == Names(stats);
    TotalCountPointwise(stats, r, i);
  }
}
