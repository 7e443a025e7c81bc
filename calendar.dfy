// The Gregorian calendar as JavaScript's `Date` and date-fns see it, on integers:
// months numbered 0..11 as `getMonth()` numbers them, days as day numbers counted
// from 1970-01-01, instants as milliseconds of local time.

module Calendar {
  import opened Common


  /** A month as `getMonth()` returns it: 0 is January, 11 is December. */
  type Month0 = m: int | 0 <= m < 12

  /** The first day of a month, the value the application keeps as `selectedMonth`. */
  datatype YearMonth = YearMonth(year: int, month: Month0)

  predicate IsLeap(y: int)
  {
    (y % 4 == 0 && y % 100 != 0) || y % 400 == 0
  }

  /** `new Date(year, month + 1, 0).getDate()`. */
  function DaysInMonth(y: int, m: Month0): (d: int)
    ensures 28 <= d <= 31
    ensures m == 1 ==> (d == 29 <==> IsLeap(y))
  {
    if m == 1 then (if IsLeap(y) then 29 else 28)
    else if m == 3 || m == 5 || m == 8 || m == 10 then 30
    else 31
  }

  // ---- months as a sequence ------------------------------------------------

  /** Months counted continuously, so that consecutive months differ by one. */
  function MonthIndex(ym: YearMonth): int
  {
    ym.year * 12 + ym.month
  }

  function FromIndex(i: int): (ym: YearMonth)
    ensures MonthIndex(ym) == i
  {
    YearMonth(i / 12, i % 12)
  }

  lemma IndexInjective(a: YearMonth, b: YearMonth)
    requires MonthIndex(a) == MonthIndex(b)
    ensures a == b
  {
  }

  /** `addMonths(ym, 1)`, `new Date(year, month + 1, 1)`. */
  function Next(ym: YearMonth): (n: YearMonth)
    ensures MonthIndex(n) == MonthIndex(ym) + 1
  {
    if ym.month < 11 then YearMonth(ym.year, ym.month + 1) else YearMonth(ym.year + 1, 0)
  }

  /** `subMonths(ym, 1)`, `new Date(year, month - 1, 1)`. */
  function Prev(ym: YearMonth): (p: YearMonth)
    ensures MonthIndex(p) == MonthIndex(ym) - 1
  {
    if ym.month > 0 then YearMonth(ym.year, ym.month - 1) else YearMonth(ym.year - 1, 11)
  }

  /** Stepping a month back and forth returns to the same month. */
  lemma NextPrev(ym: YearMonth)
    ensures Prev(Next(ym)) == ym && Next(Prev(ym)) == ym
  {
    IndexInjective(Prev(Next(ym)), ym);
    IndexInjective(Next(Prev(ym)), ym);
  }

  /** Stepping a month from a month index is stepping the index. */
  lemma StepFromIndex(i: int)
    ensures Next(FromIndex(i)) == FromIndex(i + 1) && Prev(FromIndex(i + 1)) == FromIndex(i)
  {
    IndexInjective(Next(FromIndex(i)), FromIndex(i + 1));
    IndexInjective(Prev(FromIndex(i + 1)), FromIndex(i));
  }

  /** The chronological order of months. */
  predicate MonthBefore(a: YearMonth, b: YearMonth)
  {
    a.year < b.year || (a.year == b.year && a.month < b.month)
  }

  lemma MonthBeforeIsIndexOrder(a: YearMonth, b: YearMonth)
    ensures MonthBefore(a, b) <==> MonthIndex(a) < MonthIndex(b)
  {
    if a.year < b.year {
      assert MonthIndex(a) < a.year * 12 + 12 <= b.year * 12;
    } else if a.year > b.year {
      assert MonthIndex(b) < b.year * 12 + 12 <= a.year * 12;
    }
  }

  // ---- day numbers -------------------------------------------------------

  /** Days from 0000-03-01 to the first of March of year yy (proleptic Gregorian). */
  function MarchYearStart(yy: int): int
  {
    var era := yy / 400;
    var yoe := yy % 400;
    era * 146097 + yoe * 365 + yoe / 4 - yoe / 100
  }

  /** The day of a March-based year on which a month begins (0 for March). */
  function MarchMonthStart(mp: int): int
    requires 0 <= mp < 12
  {
    (153 * mp + 2) / 5
  }

  /** The day number of a calendar date, 1970-01-01 being day 0. */
  function DayNumber(y: int, m: Month0, d: int): int
  {
    MarchYearStart(MarchYear(y, m)) + MarchMonthStart(MarchMonth(m)) + d - 1 - 719468
  }

  /** The March-based year a month belongs to: January and February count with the year
      before. */
  function MarchYear(y: int, m: Month0): int
  {
    if m < 2 then y - 1 else y
  }

  /** A month's place in its March-based year, 0 for March. */
  function MarchMonth(m: Month0): (mp: int)
    ensures 0 <= mp < 12
  {
    if m >= 2 then m - 2 else m + 10
  }

  lemma EpochIsDayZero()
    ensures DayNumber(1970, 0, 1) == 0
  {
  }

  /** Days from 0000-03-01 to the first of March of year-of-era o. */
  function EraYearStart(o: int): int
  {
    o * 365 + o / 4 - o / 100
  }

  lemma EraYearStep(o: int)
    requires 0 <= o < 399
    ensures EraYearStart(o + 1) - EraYearStart(o)
         == 365 + (if (o + 1) % 4 == 0 then 1 else 0) - (if (o + 1) % 100 == 0 then 1 else 0)
  {
  }

  lemma DivMod400(x: int, q: int, r: int)
    requires x == 400 * q + r && 0 <= r < 400
    ensures x / 400 == q && x % 400 == r
  {
  }

  lemma Mod4And100(q: int, k: int)
    ensures (400 * q + k) % 4 == k % 4 && (400 * q + k) % 100 == k % 100
  {
    var a, b := k / 4, k % 4;
    assert 400 * q + k == 4 * (100 * q + a) + b;
    Mod4OfSum(100 * q + a, b);
    var c, d := k / 100, k % 100;
    assert 400 * q + k == 100 * (4 * q + c) + d;
    Mod100OfSum(4 * q + c, d);
  }

  lemma Mod4OfSum(n: int, r: int)
    requires 0 <= r < 4
    ensures (4 * n + r) % 4 == r
  {
  }

  lemma Mod100OfSum(n: int, r: int)
    requires 0 <= r < 100
    ensures (100 * n + r) % 100 == r
  {
  }

  /** A March-based year has 366 days exactly when the following February has 29. */
  lemma MarchYearLength(yy: int)
    ensures MarchYearStart(yy + 1) - MarchYearStart(yy) == if IsLeap(yy + 1) then 366 else 365
  {
    var era, yoe := yy / 400, yy % 400;
    assert yy == 400 * era + yoe;
    if yoe < 399 {
      DivMod400(yy + 1, era, yoe + 1);
      EraYearStep(yoe);
      Mod4And100(era, yoe + 1);
      assert (yy + 1) % 400 != 0;
      assert MarchYearStart(yy + 1) - MarchYearStart(yy) == EraYearStart(yoe + 1) - EraYearStart(yoe);
    } else {
      DivMod400(yy + 1, era + 1, 0);
      assert MarchYearStart(yy + 1) == (era + 1) * 146097;
      assert MarchYearStart(yy) == era * 146097 + EraYearStart(399);
    }
  }

  function MonthStartDay(ym: YearMonth): int
  {
    DayNumber(ym.year, ym.month, 1)
  }

  /** A month's first day and the next month's first day are DaysInMonth apart. */
  lemma MonthLength(ym: YearMonth)
    ensures MonthStartDay(Next(ym)) == MonthStartDay(ym) + DaysInMonth(ym.year, ym.month)
  {
    if ym.month == 1 {
      FebruaryLength(ym.year);
    } else {
      SameMarchYearLength(ym);
    }
  }

  /** February ends a March-based year, so its length is what that year has over 337. */
  lemma FebruaryLength(y: int)
    ensures MonthStartDay(YearMonth(y, 2)) == MonthStartDay(YearMonth(y, 1)) + DaysInMonth(y, 1)
  {
    MarchMonthStarts(11);
    MarchMonthStarts(0);
    MarchYearLength(y - 1);
  }

  /** Any other month and the next one lie in the same March-based year. */
  lemma SameMarchYearLength(ym: YearMonth)
    requires ym.month != 1
    ensures MonthStartDay(Next(ym)) == MonthStartDay(ym) + DaysInMonth(ym.year, ym.month)
  {
    var n := Next(ym);
    StartsInSameMarchYear(ym, n);
    MarchMonthStarts(MarchMonth(ym.month));
    MarchMonthStarts(MarchMonth(n.month));
  }

  /** Two months of one March-based year start as far apart as the month table says. */
  lemma StartsInSameMarchYear(a: YearMonth, b: YearMonth)
    requires MarchYear(a.year, a.month) == MarchYear(b.year, b.month)
    ensures MonthStartDay(b) - MonthStartDay(a)
         == MarchMonthStart(MarchMonth(b.month)) - MarchMonthStart(MarchMonth(a.month))
  {
  }

  /** The first day of each month of a March-based year. */
  lemma MarchMonthStarts(mp: int)
    requires 0 <= mp < 12
    ensures MarchMonthStart(mp) == [0, 31, 61, 92, 122, 153, 184, 214, 245, 275, 306, 337][mp]
  {
  }

  /** Later months start later. */
  lemma {:induction false} MonthStartMonotone(a: YearMonth, b: YearMonth)
    requires MonthIndex(a) <= MonthIndex(b)
    ensures MonthStartDay(a) <= MonthStartDay(b)
    decreases MonthIndex(b) - MonthIndex(a)
  {
    if MonthIndex(a) < MonthIndex(b) {
      var p := Prev(b);
      MonthStartMonotone(a, p);
      NextPrev(b);
      NextStartsLater(p);
      assert MonthStartDay(a) <= MonthStartDay(p) < MonthStartDay(b);
    }
  }

  lemma NextStartsLater(a: YearMonth)
    ensures MonthStartDay(a) < MonthStartDay(Next(a))
  {
    MonthLength(a);
  }

  /** The day lies in the month. */
  predicate InMonth(day: int, ym: YearMonth)
  {
    MonthStartDay(ym) <= day < MonthStartDay(Next(ym))
  }

  /** `getDay()` of a day number: 0 is Sunday; 1970-01-01 was a Thursday. */
  function Weekday(day: int): (w: int)
    ensures 0 <= w < 7
  {
    (day + 4) % 7
  }

  lemma WeekdayStep(day: int)
    ensures Weekday(day + 1) == (Weekday(day) + 1) % 7
  {
  }

  /** The Monday that starts the week of a day: `startOfWeek(day, { weekStartsOn: 1 })`. */
  function MondayOf(day: int): (m: int)
    ensures m <= day < m + 7 && Weekday(m) == 1
  {
    day - (Weekday(day) + 6) % 7
  }

  /** A later day never falls in an earlier week: two Mondays lie a multiple of seven days
      apart, and each day is less than seven days past its own. */
  lemma MondayOfMonotone(a: int, b: int)
    requires a <= b
    ensures MondayOf(a) <= MondayOf(b)
  {
    var ma, mb := MondayOf(a), MondayOf(b);
    assert (ma + 4) % 7 == (mb + 4) % 7;
    assert (ma - mb) % 7 == 0;
  }

  /** The column of a month's first day in a calendar grid whose weeks start on Monday:
      `firstDay === 0 ? 6 : firstDay - 1` with `firstDay` the `getDay()` of the first. */
  function FirstColumn(ym: YearMonth): (c: int)
    ensures 0 <= c < 7
  {
    var firstDay := Weekday(MonthStartDay(ym));
    if firstDay == 0 then 6 else firstDay - 1
  }

  /** The first day sits as many columns right as it is days past the Monday of its week. */
  lemma FirstColumnCountsFromMonday(ym: YearMonth)
    ensures FirstColumn(ym) == MonthStartDay(ym) - MondayOf(MonthStartDay(ym))
  {
  }

  // ---- instants ----------------------------------------------------------

  const MsPerDay: int := 86400000

  /** Local midnight of a day, what `parseISO('yyyy-MM-dd')` returns. */
  function Midnight(day: int): int
  {
    day * MsPerDay
  }

  /** `startOfDay(t)`, as a day number. */
  function DayOf(t: int): (d: int)
    ensures Midnight(d) <= t < Midnight(d) + MsPerDay
  {
    t / MsPerDay
  }

  lemma DayOfMidnight(day: int)
    ensures DayOf(Midnight(day)) == day
  {
  }

  /** `subDays(t, n)`: the same time of day, `n` days earlier. */
  function DaysBefore(t: int, n: int): (r: int)
    ensures DayOf(r) == DayOf(t) - n
    ensures r - Midnight(DayOf(r)) == t - Midnight(DayOf(t))
    ensures n >= 0 ==> r <= t
  {
    var r := t - n * MsPerDay;
    var d := DayOf(t) - n;
    assert Midnight(d) == Midnight(DayOf(t)) - n * MsPerDay;
    assert Midnight(d) <= r < Midnight(d) + MsPerDay;
    r
  }

  /** The instant a year before lies in the same month of the year before. */
  lemma YearBeforeInPriorYear(t: int, current: YearMonth)
    requires InMonth(DayOf(t), current)
    ensures InMonth(DayOf(YearBefore(t, current)), YearMonth(current.year - 1, current.month))
  {
  }

  /** `subMonths(t, 12)`: the same time of day on the same day of the month a year earlier,
      or on the last day of that month when it is shorter (29 February). `current` is the
      month t falls in. */
  function YearBefore(t: int, current: YearMonth): (r: int)
    requires InMonth(DayOf(t), current)
    ensures InMonth(DayOf(r), YearMonth(current.year - 1, current.month))
    ensures DayOf(r) - MonthStartDay(YearMonth(current.year - 1, current.month))
      == Min(DayOf(t) - MonthStartDay(current), DaysInMonth(current.year - 1, current.month) - 1)
    ensures r - Midnight(DayOf(r)) == t - Midnight(DayOf(t))
    ensures r < t
  {
    var prior := YearMonth(current.year - 1, current.month);
    var dom := Min(DayOf(t) - MonthStartDay(current), DaysInMonth(prior.year, prior.month) - 1);
    var day := MonthStartDay(prior) + dom;
    MonthLength(prior);
    MonthStartMonotone(Next(prior), current);
    SameTimeOn(t, day);
    Midnight(day) + (t - Midnight(DayOf(t)))
  }

  /** Moving t to another day at the same time of day; an earlier day gives an earlier
      instant. */
  lemma SameTimeOn(t: int, day: int)
    ensures var r := Midnight(day) + (t - Midnight(DayOf(t)));
      DayOf(r) == day && r - Midnight(DayOf(r)) == t - Midnight(DayOf(t)) &&
      (day < DayOf(t) ==> r < t)
  {
    var r := Midnight(day) + (t - Midnight(DayOf(t)));
    assert Midnight(day) <= r < Midnight(day) + MsPerDay;
    if day < DayOf(t) {
      assert Midnight(day) + MsPerDay <= Midnight(DayOf(t)) by {
        assert (DayOf(t) - day) * MsPerDay >= MsPerDay;
      }
    }
  }
}
