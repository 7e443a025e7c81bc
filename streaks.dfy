// The streak counter: for each habit the longest run of consecutive done days up to the
// current day, and the current run ending on it; then the best habit and the totals.

module Streaks {
  import opened Common
  import opened Sorting
  import Habits

  // ---- the current streak -------------------------------------------------

  /** The number of consecutive days d, d-1, ..., down to day 1, that are all done. */
  function RunBack(days: seq<int>, d: int): (n: nat)
    ensures n <= (if d < 0 then 0 else d)
    decreases d
  {
    if d < 1 || d !in days then 0 else 1 + RunBack(days, d - 1)
  }

  /** The current streak ends on day d and stops at the first day that is not done. */
  lemma {:induction false} RunBackMeaning(days: seq<int>, d: int)
    ensures forall x :: d - RunBack(days, d) < x <= d ==> x in days && x >= 1
    ensures d - RunBack(days, d) >= 1 ==> d - RunBack(days, d) !in days
    decreases d
  {
    if d >= 1 && d in days {
      RunBackMeaning(days, d - 1);
      assert RunBack(days, d) == 1 + RunBack(days, d - 1);
      forall x | d - RunBack(days, d) < x <= d ensures x in days && x >= 1 {
        if x < d { assert (d - 1) - RunBack(days, d - 1) < x; }
      }
    } else {
      assert RunBack(days, d) == 0;
    }
  }

  /** The loop counting backwards from the current day while days are done. */
  method CurrentStreak(days: seq<int>, currentDay: int) returns (streak: int)
    ensures streak == RunBack(days, currentDay)
  {
    streak := 0;
    var day := currentDay;
    while day >= 1
      invariant day <= currentDay || (day == currentDay && currentDay < 1)
      invariant streak == currentDay - day
      invariant RunBack(days, currentDay) == streak + RunBack(days, day)
      decreases day
    {
      if day in days {
        streak := streak + 1;
      } else {
        break;
      }
      day := day - 1;
    }
  }

  // ---- the longest streak -------------------------------------------------

  /** What the scan over the sorted days carries: the best run, the run it is in, and the
      last day it looked at (0 before any). */
  datatype ScanState = ScanState(longest: int, run: int, prev: int)

  /** The scan over sorted days as far as they go, skipping days after the current day:
      a day right after the previous one extends the run, any other day starts a new run. */
  function Scan(s: seq<int>, cap: int): (st: ScanState)
    ensures 0 <= st.run <= st.longest <= |s|
  {
    if s == [] then ScanState(0, 0, 0)
    else
      var st := Scan(s[..|s| - 1], cap);
      var day := s[|s| - 1];
      if day <= cap then
        var run := if st.prev == 0 || day == st.prev + 1 then st.run + 1 else 1;
        ScanState(if st.longest >= run then st.longest else run, run, day)
      else st
  }

  /** The longest-streak loop over the sorted days. */
  method LongestStreak(sorted: seq<int>, cap: int) returns (longest: int)
    ensures longest == Scan(sorted, cap).longest
  {
    longest := 0;
    var run, prev := 0, 0;
    var i := 0;
    while i < |sorted|
      invariant 0 <= i <= |sorted|
      invariant ScanState(longest, run, prev) == Scan(sorted[..i], cap)
    {
      var day := sorted[i];
      assert sorted[..i + 1][..i] == sorted[..i];
      if day <= cap {
        if prev == 0 || day == prev + 1 {
          run := run + 1;
        } else {
          run := 1;
        }
        longest := if longest >= run then longest else run;
        prev := day;
      }
      i := i + 1;
    }
    assert sorted[..|sorted|] == sorted;
  }

  predicate Increasing(s: seq<int>)
  {
    forall i, j :: 0 <= i < j < |s| ==> s[i] < s[j]
  }

  predicate AllPositive(s: seq<int>)
  {
    forall i :: 0 <= i < |s| ==> s[i] >= 1
  }

  /** The length of the run of consecutive days that ends at position j. */
  function RunAt(s: seq<int>, j: int): (n: int)
    requires 0 <= j < |s|
    ensures 1 <= n <= j + 1
  {
    if j == 0 || s[j] != s[j - 1] + 1 then 1 else RunAt(s, j - 1) + 1
  }

  /** On increasing positive days, the scan's run is the run ending at the last day kept,
      and the best run is at least that run. */
  lemma {:induction false} ScanTracksRun(s: seq<int>, cap: int, n: int)
    requires Increasing(s) && AllPositive(s)
    requires 1 <= n <= |s| && s[n - 1] <= cap
    ensures Scan(s[..n], cap).run == RunAt(s, n - 1)
    ensures Scan(s[..n], cap).prev == s[n - 1]
    ensures Scan(s[..n], cap).longest >= RunAt(s, n - 1)
  {
    assert s[..n][..n - 1] == s[..n - 1];
    if n == 1 {
      assert s[..0] == [];
    } else {
      ScanTracksRun(s, cap, n - 1);
    }
  }

  /** The best run never shrinks as the scan goes on. */
  lemma {:induction false} ScanLongestGrows(s: seq<int>, cap: int, n: int)
    requires 0 <= n <= |s|
    ensures Scan(s[..n], cap).longest <= Scan(s, cap).longest
    decreases |s| - n
  {
    if n < |s| {
      ScanLongestGrows(s, cap, n + 1);
      assert s[..n + 1][..n] == s[..n];
    } else {
      assert s[..n] == s;
    }
  }

  lemma {:induction false} IncreasingGap(s: seq<int>, i: int, j: int)
    requires Increasing(s) && 0 <= i <= j < |s|
    ensures s[j] - s[i] >= j - i
    decreases j - i
  {
    if i < j {
      IncreasingGap(s, i, j - 1);
    }
  }

  /** If the days c-k+1 .. c are all present, they sit right before c's position. */
  lemma {:induction false} ConsecutivePositions(s: seq<int>, j: int, k: int)
    requires Increasing(s) && 0 <= j < |s| && k >= 1
    requires forall x :: s[j] - k < x <= s[j] ==> x in s
    ensures j - k + 1 >= 0 && forall p :: j - k < p <= j ==> s[p] == s[j] - (j - p)
  {
    if k > 1 {
      ConsecutivePositions(s, j, k - 1);
      var c := s[j];
      assert c - (k - 1) in s;
      var p :| 0 <= p < |s| && s[p] == c - (k - 1);
      var q := j - (k - 2);
      assert s[q] == c - (k - 2);
      assert p < q;
      IncreasingGap(s, p, q);
      assert p == q - 1;
    }
  }

  lemma {:induction false} RunAtLeast(s: seq<int>, j: int, k: int)
    requires 0 <= j < |s| && 1 <= k && j - k + 1 >= 0
    requires forall p :: j - k < p <= j ==> s[p] == s[j] - (j - p)
    ensures RunAt(s, j) >= k
    decreases k
  {
    if k > 1 {
      assert s[j - 1] == s[j] - 1;
      RunAtLeast(s, j - 1, k - 1);
    }
  }

  /** A streak of k days ending on or before the current day makes the longest streak at
      least k. */
  lemma ScanFindsRun(s: seq<int>, cap: int, c: int, k: int)
    requires Increasing(s) && AllPositive(s)
    requires 1 <= k && c <= cap
    requires forall x :: c - k < x <= c ==> x in s
    ensures Scan(s, cap).longest >= k
  {
    assert c in s;
    var j :| 0 <= j < |s| && s[j] == c;
    ConsecutivePositions(s, j, k);
    RunAtLeast(s, j, k);
    ScanReachesRun(s, cap, j);
  }

  /** The longest streak is at least the run ending at any day the scan keeps. */
  lemma ScanReachesRun(s: seq<int>, cap: int, j: int)
    requires Increasing(s) && AllPositive(s)
    requires 0 <= j < |s| && s[j] <= cap
    ensures Scan(s, cap).longest >= RunAt(s, j)
  {
    assert Scan(s[..j + 1], cap).longest >= RunAt(s, j) by {
      ScanTracksRun(s, cap, j + 1);
    }
    ScanLongestGrows(s, cap, j + 1);
  }

  // ---- per habit and overall ------------------------------------------------

  /** The streaks of one habit as the counter computes them. */
  function LongestOf(days: seq<int>, currentDay: int): int
  {
    Scan(SortInts(days), currentDay).longest
  }

  lemma MultiplicityOfDistinct(s: seq<int>, x: int)
    requires Habits.NoDuplicates(s)
    ensures multiset(s)[x] <= 1
  {
    if s != [] {
      assert s == [s[0]] + s[1..];
      assert multiset(s) == multiset{s[0]} + multiset(s[1..]);
      assert Habits.NoDuplicates(s[1..]) by {
        forall i, j | 0 <= i < j < |s| - 1 ensures s[1..][i] != s[1..][j] {
          assert s[1..][i] == s[i + 1] && s[1..][j] == s[j + 1];
        }
      }
      MultiplicityOfDistinct(s[1..], x);
      if s[0] == x {
        assert x !in s[1..];
        assert multiset(s[1..])[x] == 0;
      }
    }
  }

  lemma TwoPositions(s: seq<int>, i: int, j: int)
    requires 0 <= i < j < |s| && s[i] == s[j]
    ensures multiset(s)[s[i]] >= 2
  {
    assert s == s[..j] + [s[j]] + s[j + 1..];
    assert multiset(s) == multiset(s[..j]) + multiset{s[j]} + multiset(s[j + 1..]);
    assert s[i] == s[..j][i];
    assert s[i] in multiset(s[..j]);
  }

  /** Sorting distinct days gives an increasing sequence. */
  lemma SortedDistinctIncreasing(days: seq<int>)
    requires Habits.NoDuplicates(days)
    ensures Increasing(SortInts(days))
  {
    var s := SortInts(days);
    forall i, j | 0 <= i < j < |s| ensures s[i] < s[j] {
      if s[i] == s[j] {
        TwoPositions(s, i, j);
        MultiplicityOfDistinct(days, s[i]);
        assert false;
      }
    }
  }

  lemma SortKeepsMembers(days: seq<int>)
    ensures forall x :: x in SortInts(days) <==> x in days
  {
    var s := SortInts(days);
    forall x ensures x in s <==> x in days {
      assert x in s <==> x in multiset(s);
      assert x in days <==> x in multiset(days);
    }
  }

  /** For duplicate-free days of the month, a habit's current streak never exceeds its
      longest streak. */
  lemma CurrentAtMostLongest(days: seq<int>, currentDay: int)
    requires Habits.NoDuplicates(days) && forall k :: 0 <= k < |days| ==> days[k] >= 1
    ensures RunBack(days, currentDay) <= LongestOf(days, currentDay)
  {
    var k := RunBack(days, currentDay);
    if k > 0 {
      var s := SortInts(days);
      SortedDistinctIncreasing(days);
      SortKeepsMembers(days);
      forall i | 0 <= i < |s| ensures s[i] >= 1 {
        assert s[i] in days;
        var j :| 0 <= j < |days| && days[j] == s[i];
      }
      RunBackMeaning(days, currentDay);
      assert forall x :: currentDay - k < x <= currentDay ==> x in s;
      ScanFindsRun(s, currentDay, currentDay, k);
    }
  }

  // ---- choosing the best habit --------------------------------------------

  /** The habit the counter reports as best: it replaces the current choice only when
      strictly better than the best so far, starting from 0. */
  function BestIndex(xs: seq<int>): (b: Option<nat>)
    ensures b.Some? ==> b.value < |xs|
  {
    if xs == [] then None
    else if xs[|xs| - 1] > MaxOrZero(xs[..|xs| - 1]) then Some(|xs| - 1)
    else BestIndex(xs[..|xs| - 1])
  }

  /** The best habit is the first one with the longest streak, and there is none when no
      habit has a streak. */
  lemma {:induction false} BestIndexIsFirstMax(xs: seq<int>)
    ensures BestIndex(xs).None? <==> MaxOrZero(xs) == 0
    ensures BestIndex(xs).Some? ==> var i := BestIndex(xs).value;
      i < |xs| && xs[i] == MaxOrZero(xs) && forall j :: 0 <= j < i ==> xs[j] < xs[i]
  {
    if xs != [] {
      var p := xs[..|xs| - 1];
      BestIndexIsFirstMax(p);
      MaxOrZeroIsMax(p);
      assert forall i :: 0 <= i < |p| ==> xs[i] == p[i];
    }
  }

  /** How the running maximum and the choice of best habit move with one more habit. */
  lemma PrefixStep(xs: seq<int>, i: int)
    requires 0 <= i < |xs|
    ensures MaxOrZero(xs[..i + 1]) == if xs[i] > MaxOrZero(xs[..i]) then xs[i] else MaxOrZero(xs[..i])
    ensures BestIndex(xs[..i + 1]) == if xs[i] > MaxOrZero(xs[..i]) then Some(i) else BestIndex(xs[..i])
  {
    assert xs[..i + 1][..i] == xs[..i];
  }

  datatype StreakInfo = StreakInfo(habitName: string, habitColor: string, currentStreak: int, longestStreak: int)

  datatype StreakSummary = StreakSummary(longestStreak: int, currentStreak: int, bestHabit: Option<StreakInfo>, totalActiveDays: int)

  function Longests(hs: seq<Habits.Habit>, currentDay: int): (r: seq<int>)
    ensures |r| == |hs| && forall i :: 0 <= i < |hs| ==> r[i] == LongestOf(hs[i].completedDays, currentDay)
  {
    seq(|hs|, i requires 0 <= i < |hs| => LongestOf(hs[i].completedDays, currentDay))
  }

  function Currents(hs: seq<Habits.Habit>, currentDay: int): (r: seq<int>)
    ensures |r| == |hs| && forall i :: 0 <= i < |hs| ==> r[i] == RunBack(hs[i].completedDays, currentDay)
  {
    seq(|hs|, i requires 0 <= i < |hs| => RunBack(hs[i].completedDays, currentDay))
  }

  /** One habit's two streaks: its days are copied, sorted and scanned for the longest
      run, and counted backwards from the current day for the current one. */
  method HabitStreaks(days: seq<int>, currentDay: int) returns (current: int, longest: int)
    ensures current == RunBack(days, currentDay)
    ensures longest == LongestOf(days, currentDay)
  {
    var a := new int[|days|](k requires 0 <= k < |days| => days[k]);
    assert a[..] == days;
    SortInPlace(a);
    longest := LongestStreak(a[..], currentDay);
    current := CurrentStreak(a[..], currentDay);
    RunBackSameDays(a[..], days, currentDay);
  }

  /** The counter's `streakData`, with `currentDay` as HabitTracker.CurrentDay gives it. The
      best habit is reported with its name, colour and both streaks. */
  method Summarise(hs: seq<Habits.Habit>, currentDay: int) returns (r: StreakSummary)
    ensures r.longestStreak == MaxOrZero(Longests(hs, currentDay))
    ensures r.currentStreak == MaxOrZero(Currents(hs, currentDay))
    ensures r.totalActiveDays == Habits.TotalCompleted(hs)
    ensures var b := BestIndex(Longests(hs, currentDay));
      r.bestHabit == if b.None? then None
        else Some(StreakInfo(hs[b.value].name, hs[b.value].color,
                             Currents(hs, currentDay)[b.value], Longests(hs, currentDay)[b.value]))
  {
    var overallLongest, overallCurrent := 0, 0;
    var best: Option<StreakInfo> := None;
    ghost var ls := Longests(hs, currentDay);
    ghost var cs := Currents(hs, currentDay);
    var i := 0;
    while i < |hs|
      invariant 0 <= i <= |hs|
      invariant overallLongest == MaxOrZero(ls[..i])
      invariant overallCurrent == MaxOrZero(cs[..i])
      invariant best == if BestIndex(ls[..i]).None? then None
        else var b := BestIndex(ls[..i]).value;
          Some(StreakInfo(hs[b].name, hs[b].color, cs[b], ls[b]))
    {
      var h := hs[i];
      var current, longest := HabitStreaks(h.completedDays, currentDay);
      assert ls[i] == longest && cs[i] == current;
      PrefixStep(ls, i);
      PrefixStep(cs, i);
      if longest > overallLongest {
        overallLongest := longest;
        best := Some(StreakInfo(h.name, h.color, current, longest));
      }
      overallCurrent := if overallCurrent >= current then overallCurrent else current;
      i := i + 1;
    }
    assert ls[..|hs|] == ls && cs[..|hs|] == cs;
    r := StreakSummary(overallLongest, overallCurrent, best, Habits.TotalCompleted(hs));
  }

  lemma {:induction false} RunBackSameDays(a: seq<int>, b: seq<int>, d: int)
    requires multiset(a) == multiset(b)
    ensures RunBack(a, d) == RunBack(b, d)
    decreases d
  {
    assert forall x :: x in a <==> x in b by {
      forall x ensures x in a <==> x in b {
        assert x in a <==> x in multiset(a);
        assert x in b <==> x in multiset(b);
      }
    }
    if d >= 1 {
      RunBackSameDays(a, b, d - 1);
    }
  }
}
