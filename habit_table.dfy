// The habit table: which day cells can be clicked, which days a view shows, and the
// weekday column of each day.

module HabitTable {
  import opened Common
  import opened Calendar
  import Habits

  /** `isDayClickable`: only in the current month, only today and the two days before. */
  predicate IsDayClickable(isCurrentMonth: bool, currentDay: int, day: int)
  {
    isCurrentMonth && currentDay - 2 <= day <= currentDay
  }

  /** A day cell can be clicked exactly when the store lets the day be toggled. */
  lemma ClickableIsToggleWindow(selected: YearMonth, now: YearMonth, today: int, day: int)
    ensures IsDayClickable(selected == now, today, day) <==> Habits.CanToggle(selected, now, today, day)
  {
  }

  datatype ViewMode = Monthly | Weekly | Analytics

  /** `Array.from({ length: n }, (_, i) => start + i)`; a negative length gives no days. */
  function DayRange(start: int, end: int): (r: seq<int>)
    ensures |r| == if end < start then 0 else end - start + 1
    ensures forall i :: 0 <= i < |r| ==> r[i] == start + i
  {
    if end < start then [] else seq(end - start + 1, i requires 0 <= i < end - start + 1 => start + i)
  }

  /** `getVisibleDays`: the weekly view shows the last seven days up to the current day,
      clipped to the month; every other view shows the whole month. */
  function VisibleDays(mode: ViewMode, currentDay: int, daysInMonth: int): (r: seq<int>)
  {
    if mode == Weekly then DayRange(Max(1, currentDay - 6), Min(daysInMonth, currentDay))
    else DayRange(1, daysInMonth)
  }

  /** The weekly view shows, in increasing order, exactly the days of the month in the
      week ending on the current day; there are at most seven of them. */
  lemma WeeklyViewIsLastWeek(currentDay: int, daysInMonth: int)
    ensures var r := VisibleDays(Weekly, currentDay, daysInMonth);
      |r| <= 7
      && (forall d :: d in r <==> 1 <= d <= daysInMonth && currentDay - 6 <= d <= currentDay)
      && (forall i, j :: 0 <= i < j < |r| ==> r[i] < r[j])
  {
    var r := VisibleDays(Weekly, currentDay, daysInMonth);
    var lo, hi := Max(1, currentDay - 6), Min(daysInMonth, currentDay);
    forall d | 1 <= d <= daysInMonth && currentDay - 6 <= d <= currentDay ensures d in r {
      assert r[d - lo] == d;
    }
  }

  /** The monthly view shows every day of the month once, in order. */
  lemma MonthlyViewIsWholeMonth(mode: ViewMode, currentDay: int, daysInMonth: int)
    requires mode != Weekly && daysInMonth >= 0
    ensures var r := VisibleDays(mode, currentDay, daysInMonth);
      |r| == daysInMonth && forall d :: d in r <==> 1 <= d <= daysInMonth
  {
    var r := VisibleDays(mode, currentDay, daysInMonth);
    forall d | 1 <= d <= daysInMonth ensures d in r {
      assert r[d - 1] == d;
    }
  }

  /** `getDayOfWeek`: `(startOffset + day - 1) % 7`, 0 for Monday, with JavaScript's `%`. */
  function DayOfWeek(startOffset: int, day: int): int
  {
    JsRem(startOffset + day - 1, 7)
  }

  /** For a start offset in 0..6 the columns lie in 0..6, day 1 sits at the offset and
      each day sits one column right of the day before, wrapping after Sunday. */
  lemma DayOfWeekSteps(startOffset: int, day: int)
    requires 0 <= startOffset < 7 && day >= 1
    ensures 0 <= DayOfWeek(startOffset, day) < 7
    ensures DayOfWeek(startOffset, 1) == startOffset
    ensures DayOfWeek(startOffset, day + 1) == (DayOfWeek(startOffset, day) + 1) % 7
  {
    Mod7Add(startOffset + day - 1, 1);
  }

  lemma Mod7Shift(q: int, k: int)
    ensures (7 * q + k) % 7 == k % 7
  {
    var a, b := k / 7, k % 7;
    assert 7 * q + k == 7 * (q + a) + b;
  }

  lemma Mod7Add(a: int, b: int)
    ensures (a % 7 + b) % 7 == (a + b) % 7
  {
    Mod7Shift(a / 7, a % 7 + b);
  }

  /** For the days of a month the column is the date's weekday counted from Monday. */
  lemma DayOfWeekIsWeekday(ym: YearMonth, day: int)
    requires day >= 1
    ensures DayOfWeek(FirstColumn(ym), day) == (Weekday(MonthStartDay(ym) + day - 1) + 6) % 7
  {
    var f := MonthStartDay(ym);
    var c := FirstColumn(ym);
    assert c == ((f + 4) % 7 + 6) % 7;
    Mod7Add(f + 4, 6);
    assert c == (f + 10) % 7;
    assert DayOfWeek(c, day) == (c + day - 1) % 7;
    Mod7Add(f + 10, day - 1);
    Mod7Add(f + day + 3, 6);
  }
}
