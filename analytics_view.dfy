// The analytics view: the month-by-month completion records of a range of months read
// from storage, and the bar, line and pie charts of the selected month.

module AnalyticsView {
  import opened Common
  import opened Calendar
  import opened Habits

  // ---- the monthly trend ---------------------------------------------------------

  /** `stored ? JSON.parse(stored) : []`: the habits kept under a month's key. */
  function StoredHabits(store: Storage, ym: YearMonth): (hs: seq<Habit>)
    ensures StorageKey(ym) !in store ==> hs == []
  {
    if StorageKey(ym) in store then store[StorageKey(ym)] else []
  }

  /** The completion percentage of a month as stored, 0 without habits. */
  function MonthPercentage(store: Storage, ym: YearMonth): int
  {
    Stats(StoredHabits(store, ym), DaysInMonth(ym.year, ym.month)).percentage
  }

  /** One point of the trend chart. */
  datatype MonthRecord = MonthRecord(
    month: YearMonth, completed: int, total: int, percentage: int, habits: nat, trend: int)

  /** The record of a month, its trend taken against the month before. */
  function RecordOf(store: Storage, ym: YearMonth): (r: MonthRecord)
    ensures var hs := StoredHabits(store, ym);
      r.month == ym && r.habits == |hs| && r.completed == TotalCompleted(hs)
    ensures r.total == 0 ==> r.percentage == 0
    ensures r.percentage == MonthPercentage(store, ym)
    ensures r.trend == r.percentage - MonthPercentage(store, Prev(ym))
  {
    var hs := StoredHabits(store, ym);
    var s := Stats(hs, DaysInMonth(ym.year, ym.month));
    MonthRecord(ym, s.completed, s.total, s.percentage, |hs|, s.percentage - MonthPercentage(store, Prev(ym)))
  }

  /** A month's total is its number of habits times its number of days. */
  lemma RecordTotal(store: Storage, ym: YearMonth)
    ensures RecordOf(store, ym).total == |StoredHabits(store, ym)| * DaysInMonth(ym.year, ym.month)
  {
  }

  /** The number of months from `first` to `last`, both included; none when `last` is
      earlier. */
  function MonthCount(first: YearMonth, last: YearMonth): (n: nat)
    ensures n == 0 <==> MonthIndex(last) < MonthIndex(first)
  {
    if MonthIndex(last) < MonthIndex(first) then 0 else MonthIndex(last) - MonthIndex(first) + 1
  }

  /** The records of the range: one per month from `first` to `last`, in order. */
  function RangeRecords(store: Storage, first: YearMonth, last: YearMonth): (r: seq<MonthRecord>)
    ensures |r| == MonthCount(first, last)
  {
    Walk(Recorder(store), first, MonthCount(first, last))
  }

  function Recorder(store: Storage): YearMonth -> MonthRecord
  {
    ym => RecordOf(store, ym)
  }

  /** `f` of each of the `n` months from `ym` on. */
  function Walk<T>(f: YearMonth -> T, ym: YearMonth, n: nat): (r: seq<T>)
    ensures |r| == n
    decreases n
  {
    if n == 0 then [] else [f(ym)] + Walk(f, Next(ym), n - 1)
  }

  /** The month `i` months after `ym`, stepping one month at a time. */
  function MonthAfter(ym: YearMonth, i: nat): (r: YearMonth)
    decreases i
  {
    if i == 0 then ym else MonthAfter(Next(ym), i - 1)
  }

  lemma {:induction false} MonthAfterIndex(ym: YearMonth, i: nat)
    ensures MonthAfter(ym, i) == FromIndex(MonthIndex(ym) + i)
    decreases i
  {
    if i == 0 {
      IndexInjective(ym, FromIndex(MonthIndex(ym)));
    } else {
      MonthAfterIndex(Next(ym), i - 1);
    }
  }

  /** One more step of the walk is one more month. */
  lemma {:induction false} MonthAfterStep(ym: YearMonth, i: nat)
    ensures MonthAfter(ym, i + 1) == Next(MonthAfter(ym, i))
    decreases i
  {
    if i > 0 {
      MonthAfterStep(Next(ym), i - 1);
    }
  }

  /** The `i`-th step of a walk visits the month `i` months after its start. */
  lemma {:induction false} WalkAt<T>(f: YearMonth -> T, ym: YearMonth, n: nat, i: nat)
    requires i < n
    ensures Walk(f, ym, n)[i] == f(MonthAfter(ym, i))
    decreases i
  {
    if i > 0 {
      WalkAt(f, Next(ym), n - 1, i - 1);
    }
  }

  /** The range holds, in order, the record of every month from `first` to `last`. */
  lemma RangeRecordsAt(store: Storage, first: YearMonth, last: YearMonth, i: nat)
    requires i < MonthCount(first, last)
    ensures RangeRecords(store, first, last)[i] == RecordOf(store, FromIndex(MonthIndex(first) + i))
  {
    WalkAt(Recorder(store), first, MonthCount(first, last), i);
    MonthAfterIndex(first, i);
  }

  /** `rangeData`: walks the months from the start month to the end month, pushing a record
      for each; `first` and `last` are the months the two ends of the range fall in. */
  method RangeData(store: Storage, first: YearMonth, last: YearMonth) returns (data: seq<MonthRecord>)
    ensures data == RangeRecords(store, first, last)
  {
    data := [];
    var current := first;
    while MonthIndex(current) <= MonthIndex(last)
      invariant data + Walk(Recorder(store), current, MonthCount(current, last)) == RangeRecords(store, first, last)
      decreases MonthIndex(last) - MonthIndex(current)
    {
      var record := RecordOf(store, current);
      var rest := Walk(Recorder(store), Next(current), MonthCount(Next(current), last));
      assert Recorder(store)(current) == record;
      assert Walk(Recorder(store), current, MonthCount(current, last)) == [record] + rest;
      AppendAssoc(data, [record], rest);
      data := data + [record];
      current := Next(current);
    }
    assert Walk(Recorder(store), current, MonthCount(current, last)) == [];
  }

  /** The records cover consecutive months, and past the first each trend is the change
      from the record before it. */
  lemma TrendIsChange(store: Storage, first: YearMonth, last: YearMonth, i: int)
    requires 0 < i < MonthCount(first, last)
    ensures var r := RangeRecords(store, first, last);
      MonthIndex(r[i].month) == MonthIndex(r[i - 1].month) + 1
      && r[i].trend == r[i].percentage - r[i - 1].percentage
  {
    var a := MonthAfter(first, i - 1);
    WalkPair(Recorder(store), first, MonthCount(first, last), i);
    var r := RangeRecords(store, first, last);
    assert r[i - 1] == Recorder(store)(a) == RecordOf(store, a);
    assert r[i] == Recorder(store)(Next(a)) == RecordOf(store, Next(a));
    TrendOfNext(store, a);
  }

  /** Two neighbouring steps of a walk visit a month and the month after it. */
  lemma WalkPair<T>(f: YearMonth -> T, ym: YearMonth, n: nat, i: nat)
    requires 0 < i < n
    ensures Walk(f, ym, n)[i - 1] == f(MonthAfter(ym, i - 1))
    ensures Walk(f, ym, n)[i] == f(Next(MonthAfter(ym, i - 1)))
  {
    WalkAt(f, ym, n, i);
    WalkAt(f, ym, n, i - 1);
    MonthAfterStep(ym, i - 1);
  }

  /** A month's trend is the change from the month before it. */
  lemma TrendOfNext(store: Storage, a: YearMonth)
    ensures MonthIndex(RecordOf(store, Next(a)).month) == MonthIndex(RecordOf(store, a).month) + 1
    ensures RecordOf(store, Next(a)).trend == RecordOf(store, Next(a)).percentage - RecordOf(store, a).percentage
  {
    NextPrev(a);
  }

  /** A month whose habits are well formed has a percentage from 0 to 100, and so a trend
      from -100 to 100 when its previous month is well formed too. */
  lemma TrendBounded(store: Storage, ym: YearMonth)
    requires WellFormed(StoredHabits(store, ym), DaysInMonth(ym.year, ym.month))
    requires WellFormed(StoredHabits(store, Prev(ym)), DaysInMonth(Prev(ym).year, Prev(ym).month))
    ensures 0 <= RecordOf(store, ym).percentage <= 100
    ensures -100 <= RecordOf(store, ym).trend <= 100
  {
    StatsPercentageBounded(StoredHabits(store, ym), DaysInMonth(ym.year, ym.month));
    StatsPercentageBounded(StoredHabits(store, Prev(ym)), DaysInMonth(Prev(ym).year, Prev(ym).month));
  }

  // ---- the charts of the selected month -----------------------------------------

  /** A name longer than twelve characters is cut to twelve and marked with '...'. */
  function ShortName(name: string): (r: string)
    ensures |name| <= 12 ==> r == name
    ensures |name| > 12 ==> |r| == 15 && r == name[..12] + "..."
  {
    if |name| > 12 then name[..12] + "..." else name
  }

  datatype Bar = Bar(name: string, fullName: string, completed: nat, total: int, percentage: int)

  /** `barChartData`: one bar per habit with its rounded completion percentage. */
  function BarChartData(hs: seq<Habit>, daysInMonth: int): (r: seq<Bar>)
    requires daysInMonth > 0
    ensures |r| == |hs|
    ensures forall i :: 0 <= i < |hs| ==>
      r[i].fullName == hs[i].name && r[i].name == ShortName(hs[i].name)
      && r[i].completed == |hs[i].completedDays| && r[i].total == daysInMonth
      && 2 * daysInMonth * r[i].percentage <= 200 * |hs[i].completedDays| + daysInMonth
      && 200 * |hs[i].completedDays| + daysInMonth < 2 * daysInMonth * (r[i].percentage + 1)
  {
    seq(|hs|, i requires 0 <= i < |hs| =>
      Bar(ShortName(hs[i].name), hs[i].name, |hs[i].completedDays|, daysInMonth,
          Percent(|hs[i].completedDays|, daysInMonth)))
  }

  /** On well-formed habits every bar lies from 0 to 100. */
  lemma BarsBounded(hs: seq<Habit>, daysInMonth: int, i: int)
    requires daysInMonth > 0 && WellFormed(hs, daysInMonth) && 0 <= i < |hs|
    ensures 0 <= BarChartData(hs, daysInMonth)[i].percentage <= 100
  {
    DaysWithinMonth(hs, daysInMonth, i);
    PercentBounds(|hs[i].completedDays|, daysInMonth);
  }

  lemma DaysWithinMonth(hs: seq<Habit>, daysInMonth: int, i: int)
    requires daysInMonth > 0 && WellFormed(hs, daysInMonth) && 0 <= i < |hs|
    ensures 0 <= |hs[i].completedDays| <= daysInMonth
  {
    assert InMonthDays(hs[i].completedDays, daysInMonth);
    BoundedDays(hs[i].completedDays, daysInMonth);
  }

  /** One point of the daily line: the day, how many habits were done on it, and that
      number as a rounded share of the habits. */
  datatype DayPoint = DayPoint(day: int, completed: nat, percentage: int)

  function PointOf(hs: seq<Habit>, day: int): (p: DayPoint)
    ensures p.day == day && p.completed == DoneOn(hs, day)
    ensures hs == [] ==> p.percentage == 0
    ensures hs != [] ==> p.percentage == Percent(DoneOn(hs, day), |hs|)
  {
    DayPoint(day, DoneOn(hs, day), if |hs| > 0 then Percent(DoneOn(hs, day), |hs|) else 0)
  }

  /** The line's points, for days 1 to daysInMonth. */
  function LinePoints(hs: seq<Habit>, daysInMonth: int): (r: seq<DayPoint>)
    ensures |r| == if daysInMonth > 0 then daysInMonth else 0
    ensures forall i :: 0 <= i < |r| ==> r[i] == PointOf(hs, i + 1)
  {
    if daysInMonth <= 0 then [] else seq(daysInMonth, i requires 0 <= i < daysInMonth => PointOf(hs, i + 1))
  }

  /** `lineChartData`: the loop over the days of the month. */
  method LineChartData(hs: seq<Habit>, daysInMonth: int) returns (data: seq<DayPoint>)
    ensures data == LinePoints(hs, daysInMonth)
  {
    data := [];
    var day := 1;
    while day <= daysInMonth
      invariant 1 <= day <= (if daysInMonth > 0 then daysInMonth else 0) + 1
      invariant |data| == day - 1
      invariant forall i :: 0 <= i < |data| ==> data[i] == PointOf(hs, i + 1)
    {
      data := data + [PointOf(hs, day)];
      day := day + 1;
    }
  }

  /** A day's point is 100 when every habit was done on it and 0 when none was; with fewer
      than 200 habits the converse holds too, while with more a day that all but one habit
      reached rounds up to 100. */
  lemma PointEnds(hs: seq<Habit>, day: int)
    requires hs != []
    ensures (forall i :: 0 <= i < |hs| ==> day in hs[i].completedDays) ==> PointOf(hs, day).percentage == 100
    ensures (forall i :: 0 <= i < |hs| ==> day !in hs[i].completedDays) ==> PointOf(hs, day).percentage == 0
    ensures |hs| < 200 && PointOf(hs, day).percentage == 100 ==> forall i :: 0 <= i < |hs| ==> day in hs[i].completedDays
    ensures |hs| < 200 && PointOf(hs, day).percentage == 0 ==> forall i :: 0 <= i < |hs| ==> day !in hs[i].completedDays
  {
    var n, t := DoneOn(hs, day), |hs|;
    PercentEnds(t);
    if 0 < n < t && t < 200 {
      PercentStrictlyInside(n, t);
    }
  }

  /** A share strictly between none and all of fewer than 200 rounds to a percentage strictly
      between 0 and 100. */
  lemma PercentStrictlyInside(n: int, t: int)
    requires 0 < n < t < 200
    ensures 0 < Percent(n, t) < 100
  {
    var p := Percent(n, t);
    assert 2 * t * p <= 200 * n + t < 2 * t * p + 2 * t;
    assert 200 * n <= 200 * (t - 1);
    assert 2 * t * p < 2 * t * 100;
    CancelLt(2 * t, p, 100);
    assert 2 * t * 1 < 2 * t * (p + 1);
    CancelLt(2 * t, 1, p + 1);
  }

  /** With 200 habits, a day that 199 of them reached shows 100. */
  lemma AllButOneRoundsUp()
    ensures Percent(199, 200) == 100
  {
  }

  datatype Slice = Slice(name: string, value: nat, color: string)

  /** `pieChartData`: one slice per habit, as large as its completed days. */
  function PieChartData(hs: seq<Habit>): (r: seq<Slice>)
    ensures |r| == |hs|
    ensures forall i :: 0 <= i < |hs| ==>
      r[i].name == hs[i].name && r[i].value == |hs[i].completedDays| && r[i].color == "hsl(" + hs[i].color + ")"
  {
    seq(|hs|, i requires 0 <= i < |hs| => Slice(hs[i].name, |hs[i].completedDays|, "hsl(" + hs[i].color + ")"))
  }

  function SliceTotal(ss: seq<Slice>): int
  {
    if ss == [] then 0 else ss[0].value + SliceTotal(ss[1..])
  }

  /** The slices together are all the month's completions. */
  lemma {:induction false} PieTotal(hs: seq<Habit>)
    ensures SliceTotal(PieChartData(hs)) == TotalCompleted(hs)
  {
    if hs != [] {
      PieTotal(hs[1..]);
      assert PieChartData(hs)[1..] == PieChartData(hs[1..]);
    }
  }
}
