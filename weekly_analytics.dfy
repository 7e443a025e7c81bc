// The weekly analytics panel: per habit, how many of the last seven days were done, the
// current and the best streak, and the change against the week before; then the overall
// rate and the habits singled out.

module WeeklyAnalytics {
  import opened Common
  import Habits
  import Streaks
  import HabitTable
  import Sorting

  // ---- the week ------------------------------------------------------------

  lemma DayRangeSnoc(lo: int, hi: int)
    requires lo <= hi
    ensures HabitTable.DayRange(lo, hi) == HabitTable.DayRange(lo, hi - 1) + [hi]
  {
  }

  /** The loop collecting `currentDay - 6 .. currentDay`, keeping only positive days. */
  method WeekDays(currentDay: int) returns (days: seq<int>)
    ensures days == HabitTable.DayRange(Common.Max(1, currentDay - 6), currentDay)
  {
    var lo := Common.Max(1, currentDay - 6);
    days := [];
    var i := 6;
    while i >= 0
      invariant -1 <= i <= 6
      invariant days == HabitTable.DayRange(lo, currentDay - i - 1)
      decreases i
    {
      var day := currentDay - i;
      if day > 0 {
        DayRangeSnoc(lo, day);
        days := days + [day];
      }
      i := i - 1;
    }
  }

  /** Within a month, the panel's week is the table's weekly view. */
  lemma WeekIsWeeklyView(currentDay: int, daysInMonth: int)
    requires currentDay <= daysInMonth
    ensures HabitTable.DayRange(Common.Max(1, currentDay - 6), currentDay)
      == HabitTable.VisibleDays(HabitTable.Weekly, currentDay, daysInMonth)
  {
  }

  /** `days.filter(d => d > 0)`. */
  function Positive(days: seq<int>): (r: seq<int>)
    ensures forall d :: d in r <==> d in days && d > 0
  {
    if days == [] then []
    else (if days[0] > 0 then [days[0]] else []) + Positive(days[1..])
  }

  /** `days.map(d => d - 7)`. */
  function WeekEarlier(days: seq<int>): (r: seq<int>)
    ensures |r| == |days| && forall i :: 0 <= i < |days| ==> r[i] == days[i] - 7
  {
    seq(|days|, i requires 0 <= i < |days| => days[i] - 7)
  }

  lemma {:induction false} PositiveOfRange(lo: int, hi: int)
    ensures Positive(HabitTable.DayRange(lo, hi)) == HabitTable.DayRange(Common.Max(1, lo), hi)
    decreases hi - lo
  {
    var r := HabitTable.DayRange(lo, hi);
    if lo <= hi {
      assert r[1..] == HabitTable.DayRange(lo + 1, hi);
      PositiveOfRange(lo + 1, hi);
      if lo <= 0 {
        assert Common.Max(1, lo + 1) == Common.Max(1, lo);
      }
    }
  }

  /** The week before is the seven days before the week, again clipped at day 1. */
  lemma PreviousWeek(currentDay: int)
    ensures Positive(WeekEarlier(HabitTable.DayRange(Common.Max(1, currentDay - 6), currentDay)))
      == HabitTable.DayRange(Common.Max(1, currentDay - 13), currentDay - 7)
  {
    var lo := Common.Max(1, currentDay - 6);
    assert WeekEarlier(HabitTable.DayRange(lo, currentDay)) == HabitTable.DayRange(lo - 7, currentDay - 7);
    PositiveOfRange(lo - 7, currentDay - 7);
  }

  // ---- counting done days in a week ----------------------------------------

  /** `completedDays.filter(d => week.includes(d))`. */
  function InWeek(days: seq<int>, week: seq<int>): (r: seq<int>)
    ensures forall d :: d in r <==> d in days && d in week
    ensures |r| <= |days|
  {
    if days == [] then []
    else (if days[0] in week then [days[0]] else []) + InWeek(days[1..], week)
  }

  lemma {:induction false} InWeekNoDuplicates(days: seq<int>, week: seq<int>)
    requires Habits.NoDuplicates(days)
    ensures Habits.NoDuplicates(InWeek(days, week))
  {
    if days != [] {
      assert Habits.NoDuplicates(days[1..]) by {
        forall i, j | 0 <= i < j < |days| - 1 ensures days[1..][i] != days[1..][j] {
          assert days[1..][i] == days[i + 1] && days[1..][j] == days[j + 1];
        }
      }
      InWeekNoDuplicates(days[1..], week);
      var rest := InWeek(days[1..], week);
      assert days[0] !in days[1..];
      assert days[0] !in rest;
    }
  }

  /** `(completed / total) * 100`, or 0 for an empty week; kept as a fraction. */
  function Rate(completed: int, total: int): real
  {
    if total > 0 then (completed as real / total as real) * 100.0 else 0.0
  }

  lemma RateBounded(completed: int, total: int)
    requires 0 <= completed <= total
    ensures 0.0 <= Rate(completed, total) <= 100.0
  {
    if total > 0 {
      var q := completed as real / total as real;
      assert q * total as real == completed as real;
      ScaleAtMostOne(q, total as real);
    }
  }

  lemma ScaleAtMostOne(q: real, t: real)
    requires t > 0.0 && q * t <= t
    ensures q <= 1.0
  {
  }

  /** With each day done at most once, a habit's weekly rate lies between 0 and 100. */
  lemma WeeklyRateBounded(days: seq<int>, currentDay: int)
    requires Habits.NoDuplicates(days)
    ensures var week := HabitTable.DayRange(Common.Max(1, currentDay - 6), currentDay);
      |InWeek(days, week)| <= |week|
      && 0.0 <= Rate(|InWeek(days, week)|, |week|) <= 100.0
  {
    var lo := Common.Max(1, currentDay - 6);
    var week := HabitTable.DayRange(lo, currentDay);
    var r := InWeek(days, week);
    InWeekNoDuplicates(days, week);
    forall k | 0 <= k < |r| ensures lo <= r[k] <= currentDay {
      assert r[k] in week;
    }
    Habits.DistinctInRange(r, lo, currentDay);
    RateBounded(|r|, |week|);
  }

  // ---- the best streak -----------------------------------------------------

  /** The longest run of done days ending on any day from 1 to n. */
  function BestRunUpTo(days: seq<int>, n: int): (r: int)
    ensures r >= 0 && forall d :: 1 <= d <= n ==> Streaks.RunBack(days, d) <= r
    decreases n
  {
    if n < 1 then 0
    else
      var m := BestRunUpTo(days, n - 1);
      if Streaks.RunBack(days, n) > m then Streaks.RunBack(days, n) else m
  }

  /** The best streak is a streak that ends on some day from 1 to n. */
  lemma {:induction false} BestRunAttained(days: seq<int>, n: int)
    ensures BestRunUpTo(days, n) == 0
      || exists d :: 1 <= d <= n && Streaks.RunBack(days, d) == BestRunUpTo(days, n)
    decreases n
  {
    if n >= 1 {
      BestRunAttained(days, n - 1);
      if Streaks.RunBack(days, n) > BestRunUpTo(days, n - 1) {
        assert Streaks.RunBack(days, n) == BestRunUpTo(days, n);
      }
    }
  }

  /** The forward loop over days 1 .. currentDay: a done day extends the running streak,
      any other day resets it. */
  method BestStreak(days: seq<int>, currentDay: int) returns (best: int)
    ensures best == BestRunUpTo(days, currentDay)
  {
    best := 0;
    var temp := 0;
    var day := 1;
    while day <= currentDay
      invariant 1 <= day && (day <= currentDay + 1 || day == 1)
      invariant temp == Streaks.RunBack(days, day - 1)
      invariant best == BestRunUpTo(days, day - 1)
    {
      if day in days {
        temp := temp + 1;
        best := if best >= temp then best else temp;
      } else {
        temp := 0;
      }
      day := day + 1;
    }
  }

  /** The best streak is never shorter than the current one. */
  lemma CurrentAtMostBest(days: seq<int>, currentDay: int)
    ensures Streaks.RunBack(days, currentDay) <= BestRunUpTo(days, currentDay)
  {
  }

  // ---- the best streak agrees with the streak counter's longest streak ------

  lemma {:induction false} ScanLongestAttained(s: seq<int>, cap: int, n: int)
    requires Streaks.Increasing(s) && Streaks.AllPositive(s) && 0 <= n <= |s|
    ensures var l := Streaks.Scan(s[..n], cap).longest;
      l == 0 || exists j :: 0 <= j < n && s[j] <= cap && l == Streaks.RunAt(s, j)
  {
    if n > 0 {
      ScanLongestAttained(s, cap, n - 1);
      assert s[..n][..n - 1] == s[..n - 1];
      if s[n - 1] <= cap {
        Streaks.ScanTracksRun(s, cap, n);
      }
    }
  }

  lemma {:induction false} RunAtAtMostRunBack(s: seq<int>, days: seq<int>, j: int)
    requires Streaks.Increasing(s) && Streaks.AllPositive(s) && 0 <= j < |s|
    requires forall x :: x in s ==> x in days
    ensures Streaks.RunAt(s, j) <= Streaks.RunBack(days, s[j])
  {
    assert s[j] in s;
    if j > 0 && s[j] == s[j - 1] + 1 {
      RunAtAtMostRunBack(s, days, j - 1);
    }
  }

  /** What sorting duplicate-free positive days gives the scan to work on. */
  lemma SortedDays(days: seq<int>)
    requires Habits.NoDuplicates(days) && forall k :: 0 <= k < |days| ==> days[k] >= 1
    ensures var s := Sorting.SortInts(days);
      Streaks.Increasing(s) && Streaks.AllPositive(s) && forall x :: x in s <==> x in days
  {
    var s := Sorting.SortInts(days);
    Streaks.SortedDistinctIncreasing(days);
    Streaks.SortKeepsMembers(days);
    forall i | 0 <= i < |s| ensures s[i] >= 1 {
      assert s[i] in s;
      assert s[i] in days;
      var j :| 0 <= j < |days| && days[j] == s[i];
    }
  }

  /** The scan finds every run the walk over the calendar finds. */
  lemma BestRunAtMostLongest(days: seq<int>, currentDay: int)
    requires Habits.NoDuplicates(days) && forall k :: 0 <= k < |days| ==> days[k] >= 1
    ensures BestRunUpTo(days, currentDay) <= Streaks.LongestOf(days, currentDay)
  {
    var s := Sorting.SortInts(days);
    SortedDays(days);
    var best := BestRunUpTo(days, currentDay);
    BestRunAttained(days, currentDay);
    if best > 0 {
      var d :| 1 <= d <= currentDay && Streaks.RunBack(days, d) == best;
      Streaks.RunBackMeaning(days, d);
      Streaks.ScanFindsRun(s, currentDay, d, best);
    }
  }

  /** Every run the scan reports ends on a day the walk visits. */
  lemma LongestAtMostBestRun(days: seq<int>, currentDay: int)
    requires Habits.NoDuplicates(days) && forall k :: 0 <= k < |days| ==> days[k] >= 1
    ensures Streaks.LongestOf(days, currentDay) <= BestRunUpTo(days, currentDay)
  {
    var s := Sorting.SortInts(days);
    SortedDays(days);
    var longest := Streaks.LongestOf(days, currentDay);
    assert s[..|s|] == s;
    ScanLongestAttained(s, currentDay, |s|);
    if longest > 0 {
      var j :| 0 <= j < |s| && s[j] <= currentDay && longest == Streaks.RunAt(s, j);
      RunAtAtMostRunBack(s, days, j);
    }
  }

  /** For duplicate-free positive days, the streak counter's longest streak (a scan over the
      sorted days) and this panel's best streak (a walk over the calendar) agree. */
  lemma LongestIsBestRun(days: seq<int>, currentDay: int)
    requires Habits.NoDuplicates(days) && forall k :: 0 <= k < |days| ==> days[k] >= 1
    ensures Streaks.LongestOf(days, currentDay) == BestRunUpTo(days, currentDay)
  {
    BestRunAtMostLongest(days, currentDay);
    LongestAtMostBestRun(days, currentDay);
  }

  // ---- per habit and overall ------------------------------------------------

  datatype HabitWeek = HabitWeek(
    habit: Habits.Habit,
    weeklyCompleted: int,
    weeklyTotal: int,
    weeklyRate: real,
    currentStreak: int,
    bestStreak: int,
    trend: real)

  /** What the panel shows for one habit, as a function of its days. */
  function HabitWeekOf(h: Habits.Habit, currentDay: int): HabitWeek
  {
    var week := HabitTable.DayRange(Common.Max(1, currentDay - 6), currentDay);
    var prev := Positive(WeekEarlier(week));
    var completed := |InWeek(h.completedDays, week)|;
    var rate := Rate(completed, |week|);
    HabitWeek(h, completed, |week|, rate,
      Streaks.RunBack(h.completedDays, currentDay), BestRunUpTo(h.completedDays, currentDay),
      rate - Rate(|InWeek(h.completedDays, prev)|, |prev|))
  }

  method HabitWeekStats(h: Habits.Habit, week: seq<int>, currentDay: int) returns (r: HabitWeek)
    requires week == HabitTable.DayRange(Common.Max(1, currentDay - 6), currentDay)
    ensures r == HabitWeekOf(h, currentDay)
  {
    var completed := |InWeek(h.completedDays, week)|;
    var rate := Rate(completed, |week|);
    var current := Streaks.CurrentStreak(h.completedDays, currentDay);
    var best := BestStreak(h.completedDays, currentDay);
    var prev := Positive(WeekEarlier(week));
    var trend := rate - Rate(|InWeek(h.completedDays, prev)|, |prev|);
    r := HabitWeek(h, completed, |week|, rate, current, best, trend);
  }

  datatype WeeklyReport = WeeklyReport(
    habitStats: seq<HabitWeek>,
    overallRate: real,
    bestHabit: Option<HabitWeek>,
    needsWork: Option<HabitWeek>,
    longestStreak: Option<HabitWeek>,
    weekDays: seq<int>,
    totalWeeklyCompleted: int,
    totalWeeklyPossible: int)

  function CompletedSum(stats: seq<HabitWeek>): int
  {
    if stats == [] then 0 else CompletedSum(stats[..|stats| - 1]) + stats[|stats| - 1].weeklyCompleted
  }

  /** The first habit with the highest weekly rate, the first with the lowest, and the first
      with the longest current streak; none without habits. */
  function Pick(stats: seq<HabitWeek>, key: HabitWeek -> real): (r: Option<HabitWeek>)
    ensures r.Some? <==> |stats| > 0
  {
    if stats == [] then None else Some(stats[ReduceBest(stats, key)])
  }

  /** What `Pick` keeps: the first habit whose key no other habit beats. */
  lemma PickIsFirstBest(stats: seq<HabitWeek>, key: HabitWeek -> real)
    requires |stats| > 0
    ensures exists i :: (0 <= i < |stats| && Pick(stats, key) == Some(stats[i])
                         && (forall j :: 0 <= j < |stats| ==> key(stats[j]) <= key(stats[i]))
                         && (forall j :: 0 <= j < i ==> key(stats[j]) < key(stats[i])))
  {
    var b := Common.ReduceBest(stats, key);
    Common.ReduceBestIsFirstMax(stats, key);
    assert Pick(stats, key) == Some(stats[b]);
  }

  function ByRate(s: HabitWeek): real { s.weeklyRate }
  function ByLowRate(s: HabitWeek): real { -s.weeklyRate }
  function ByStreak(s: HabitWeek): real { s.currentStreak as real }

  /** `habits.map(...)` together with the running total of done days. */
  method AllHabitWeeks(hs: seq<Habits.Habit>, week: seq<int>, currentDay: int)
    returns (stats: seq<HabitWeek>, total: int)
    requires week == HabitTable.DayRange(Common.Max(1, currentDay - 6), currentDay)
    ensures |stats| == |hs|
    ensures forall i :: 0 <= i < |hs| ==> stats[i] == HabitWeekOf(hs[i], currentDay)
    ensures total == CompletedSum(stats)
  {
    stats, total := [], 0;
    var i := 0;
    while i < |hs|
      invariant 0 <= i <= |hs|
      invariant |stats| == i
      invariant forall k :: 0 <= k < i ==> stats[k] == HabitWeekOf(hs[k], currentDay)
      invariant total == CompletedSum(stats)
    {
      var s := HabitWeekStats(hs[i], week, currentDay);
      assert (stats + [s])[..i] == stats;
      stats := stats + [s];
      total := total + s.weeklyCompleted;
      i := i + 1;
    }
  }

  /** The panel's `analytics`. */
  method Analyse(hs: seq<Habits.Habit>, currentDay: int) returns (r: WeeklyReport)
    ensures r.weekDays == HabitTable.DayRange(Common.Max(1, currentDay - 6), currentDay)
    ensures |r.habitStats| == |hs|
    ensures forall i :: 0 <= i < |hs| ==> r.habitStats[i] == HabitWeekOf(hs[i], currentDay)
    ensures r.totalWeeklyPossible == |hs| * |r.weekDays|
    ensures r.totalWeeklyCompleted == CompletedSum(r.habitStats)
    ensures r.overallRate == Rate(r.totalWeeklyCompleted, r.totalWeeklyPossible)
    ensures r.bestHabit == Pick(r.habitStats, ByRate)
    ensures r.needsWork == Pick(r.habitStats, ByLowRate)
    ensures r.longestStreak == Pick(r.habitStats, ByStreak)
  {
    var week := WeekDays(currentDay);
    var stats, total := AllHabitWeeks(hs, week, currentDay);
    var possible := |hs| * |week|;
    r := WeeklyReport(stats, Rate(total, possible), Pick(stats, ByRate), Pick(stats, ByLowRate),
      Pick(stats, ByStreak), week, total, possible);
  }

  /** The overall rate lies between 0 and 100 when no habit has a day twice. */
  lemma {:induction false} CompletedSumBounded(stats: seq<HabitWeek>, week: int)
    requires forall k :: 0 <= k < |stats| ==> 0 <= stats[k].weeklyCompleted <= week
    ensures 0 <= CompletedSum(stats) <= |stats| * week
  {
    if stats != [] {
      CompletedSumBounded(stats[..|stats| - 1], week);
    }
  }

  lemma OverallRateBounded(hs: seq<Habits.Habit>, currentDay: int, r: WeeklyReport)
    requires forall i :: 0 <= i < |hs| ==> Habits.NoDuplicates(hs[i].completedDays)
    requires |r.habitStats| == |hs|
    requires forall i :: 0 <= i < |hs| ==> r.habitStats[i] == HabitWeekOf(hs[i], currentDay)
    requires r.weekDays == HabitTable.DayRange(Common.Max(1, currentDay - 6), currentDay)
    requires r.totalWeeklyPossible == |hs| * |r.weekDays|
    requires r.totalWeeklyCompleted == CompletedSum(r.habitStats)
    requires r.overallRate == Rate(r.totalWeeklyCompleted, r.totalWeeklyPossible)
    ensures 0.0 <= r.overallRate <= 100.0
  {
    forall k | 0 <= k < |hs| ensures 0 <= r.habitStats[k].weeklyCompleted <= |r.weekDays| {
      WeeklyRateBounded(hs[k].completedDays, currentDay);
    }
    CompletedSumBounded(r.habitStats, |r.weekDays|);
    RateBounded(r.totalWeeklyCompleted, r.totalWeeklyPossible);
  }
}
