// The month selector: stepping and picking months and years without ever landing on a
// month after the current one. Each handler gives the month it passes on, if any.

module MonthSelector {
  import opened Common
  import opened Calendar

  /** `isFutureMonth`: the month comes after the current month `now`. */
  function IsFutureMonth(ym: YearMonth, now: YearMonth): (r: bool)
    ensures r <==> MonthIndex(now) < MonthIndex(ym)
  {
    MonthBeforeIsIndexOrder(now, ym);
    ym.year > now.year || (ym.year == now.year && ym.month > now.month)
  }

  /** `handlePrevMonth`: always the month before. */
  function HandlePrevMonth(selected: YearMonth): (r: YearMonth)
    ensures MonthIndex(r) == MonthIndex(selected) - 1
  {
    Prev(selected)
  }

  /** `handleNextMonth`: the month after, unless that one is in the future. */
  function HandleNextMonth(selected: YearMonth, now: YearMonth): (r: Option<YearMonth>)
    ensures r.Some? <==> MonthIndex(selected) < MonthIndex(now)
    ensures r.Some? ==> MonthIndex(r.value) == MonthIndex(selected) + 1
  {
    var next := Next(selected);
    if !IsFutureMonth(next, now) then Some(next) else None
  }

  /** `handleMonthSelect`: the chosen month of the selected year, unless it is in the future. */
  function HandleMonthSelect(selected: YearMonth, month: Month0, now: YearMonth): (r: Option<YearMonth>)
    ensures r.Some? <==> MonthIndex(YearMonth(selected.year, month)) <= MonthIndex(now)
    ensures r.Some? ==> r.value == YearMonth(selected.year, month)
  {
    if !IsFutureMonth(YearMonth(selected.year, month), now) then Some(YearMonth(selected.year, month)) else None
  }

  /** `handleYearChange`: moves `delta` years unless that passes the current year; landing on
      the current year, a month after the current one is pulled back to it. */
  function HandleYearChange(selected: YearMonth, delta: int, now: YearMonth): (r: Option<YearMonth>)
    ensures r.Some? <==> selected.year + delta <= now.year
    ensures r.Some? ==> r.value.year == selected.year + delta && !IsFutureMonth(r.value, now)
    ensures r.Some? && (r.value.year < now.year || selected.month <= now.month) ==> r.value.month == selected.month
    ensures r.Some? && r.value.year == now.year && selected.month > now.month ==> r.value.month == now.month
  {
    var year := selected.year + delta;
    if year <= now.year then
      var month := if year == now.year && selected.month > now.month then now.month else selected.month;
      Some(YearMonth(year, month))
    else None
  }

  /** Starting from a month that is not in the future, no handler leads into the future. */
  lemma NeverIntoTheFuture(selected: YearMonth, now: YearMonth, month: Month0, delta: int)
    requires !IsFutureMonth(selected, now)
    ensures !IsFutureMonth(HandlePrevMonth(selected), now)
    ensures HandleNextMonth(selected, now).Some? ==> !IsFutureMonth(HandleNextMonth(selected, now).value, now)
    ensures HandleMonthSelect(selected, month, now).Some? ==> !IsFutureMonth(HandleMonthSelect(selected, month, now).value, now)
    ensures HandleYearChange(selected, delta, now).Some? ==> !IsFutureMonth(HandleYearChange(selected, delta, now).value, now)
  {
  }

  /** From the current month, going forward is refused and going back then forward returns. */
  lemma BackAndForth(now: YearMonth)
    ensures HandleNextMonth(now, now) == None
    ensures HandleNextMonth(HandlePrevMonth(now), now) == Some(now)
  {
    NextPrev(now);
  }
}
