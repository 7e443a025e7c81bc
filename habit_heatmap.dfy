// The per-habit heatmap: the habit's completion rate and a highlighted cell per done day.

module HabitHeatmap {
  import opened Common
  import Habits

  /** `completionRate`: the rounded share of the month's days on which the habit was done. */
  function CompletionRate(h: Habits.Habit, daysInMonth: int): int
  {
    if daysInMonth > 0 then Percent(|h.completedDays|, daysInMonth) else 0
  }

  /** For a well-formed month the rate is a percentage. */
  lemma CompletionRateBounded(h: Habits.Habit, daysInMonth: int)
    requires daysInMonth >= 0 && Habits.WellFormed([h], daysInMonth)
    ensures 0 <= CompletionRate(h, daysInMonth) <= 100
  {
    assert [h][0] == h;
    Habits.BoundedDays(h.completedDays, daysInMonth);
    PercentBounds(|h.completedDays|, daysInMonth);
  }

  /** The cells for days 1..daysInMonth, true where the habit was done. */
  function DayCells(h: Habits.Habit, daysInMonth: int): (cells: seq<bool>)
    ensures |cells| == if daysInMonth < 0 then 0 else daysInMonth
    ensures forall i :: 0 <= i < |cells| ==> (cells[i] <==> i + 1 in h.completedDays)
  {
    if daysInMonth <= 0 then []
    else seq(daysInMonth, i requires 0 <= i < daysInMonth => i + 1 in h.completedDays)
  }

  function CountTrue(s: seq<bool>): (n: nat)
    ensures n <= |s|
  {
    if s == [] then 0 else (if s[|s| - 1] then 1 else 0) + CountTrue(s[..|s| - 1])
  }

  /** The done days between 1 and n. */
  function DoneUpTo(days: seq<int>, n: int): set<int>
  {
    set d | d in days && 1 <= d <= n
  }

  lemma {:induction false} CountCells(h: Habits.Habit, n: int)
    requires n >= 0
    ensures CountTrue(DayCells(h, n)) == |DoneUpTo(h.completedDays, n)|
    decreases n
  {
    if n > 0 {
      var cells := DayCells(h, n);
      assert cells[..n - 1] == DayCells(h, n - 1);
      CountCells(h, n - 1);
      if n in h.completedDays {
        assert DoneUpTo(h.completedDays, n) == DoneUpTo(h.completedDays, n - 1) + {n};
      } else {
        assert DoneUpTo(h.completedDays, n) == DoneUpTo(h.completedDays, n - 1);
      }
    }
  }

  /** In a well-formed month the highlighted cells are as many as the completed days shown
      in the legend ("x of n days completed"). */
  lemma HighlightedCellsMatchCount(h: Habits.Habit, daysInMonth: int)
    requires daysInMonth >= 0 && Habits.WellFormed([h], daysInMonth)
    ensures CountTrue(DayCells(h, daysInMonth)) == |h.completedDays|
  {
    assert [h][0] == h;
    CountCells(h, daysInMonth);
    assert DoneUpTo(h.completedDays, daysInMonth) == set d | d in h.completedDays;
    Habits.DistinctCardinality(h.completedDays);
  }
}
