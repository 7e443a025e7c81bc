// The goals analytics panel: the start of the chosen period, the goals created since,
// and the status, priority, duration and progress charts over them.

module GoalsAnalytics {
  import opened Common
  import opened Calendar
  import opened Goals

  datatype Period = Weekly | Monthly | Quarterly | HalfYearly | Yearly

  /** The month a calendar period starts in: the current month, the first month of its
      quarter, of its half-year, or January. */
  function StartMonth(p: Period, current: YearMonth): (r: YearMonth)
    requires p != Weekly
    ensures r.year == current.year && r.month <= current.month
    ensures p == Monthly ==> r == current
    ensures p == Quarterly ==> r.month % 3 == 0 && current.month - r.month < 3
    ensures p == HalfYearly ==> r.month % 6 == 0 && current.month - r.month < 6
    ensures p == Yearly ==> r.month == 0
  {
    match p
    case Monthly => current
    case Quarterly => YearMonth(current.year, (current.month / 3) * 3)
    case HalfYearly => YearMonth(current.year, if current.month >= 6 then 6 else 0)
    case Yearly => YearMonth(current.year, 0)
  }

  /** `filterGoalsByPeriod`'s `startDate`, as an instant: seven days before `now` for the
      weekly view, else local midnight of the first day of the start month. `current` is
      the month `now` falls in. */
  function PeriodStart(p: Period, now: int, current: YearMonth): (r: int)
    requires InMonth(DayOf(now), current)
    ensures r <= now
    ensures p == Weekly ==> r == now - 7 * MsPerDay
    ensures p != Weekly ==> r == Midnight(MonthStartDay(StartMonth(p, current)))
  {
    if p == Weekly then now - 7 * MsPerDay
    else
      var m := StartMonth(p, current);
      MonthStartMonotone(m, current);
      Midnight(MonthStartDay(m))
  }

  /** The filter `g => new Date(g.createdAt) >= startDate`. */
  function CreatedSince(start: int): Goal -> bool
  {
    (g: Goal) => g.createdAt >= start
  }

  /** The goals of the period: exactly those created at or after its start, in order. */
  function InPeriod(gs: seq<Goal>, start: int): (r: seq<Goal>)
    ensures |r| <= |gs|
    ensures forall g :: g in r <==> g in gs && g.createdAt >= start
  {
    Filter(gs, CreatedSince(start))
  }

  /** A longer period holds every goal a shorter one holds. */
  lemma EarlierStartKeepsMore(gs: seq<Goal>, s1: int, s2: int, g: Goal)
    requires s1 <= s2 && g in InPeriod(gs, s2)
    ensures g in InPeriod(gs, s1)
  {
  }

  /** `statusData`: the Done, On-Going and Not Yet counts. */
  function StatusData(fs: seq<Goal>): (r: seq<nat>)
    ensures |r| == 3
    ensures r[0] + r[1] + r[2] <= |fs|
    ensures (forall g :: g in fs ==> KnownStatus(g)) ==> r[0] + r[1] + r[2] == |fs|
  {
    StatusesPartition(fs);
    [|WithStatus(fs, Done)|, |WithStatus(fs, OnGoing)|, |WithStatus(fs, NotYet)|]
  }

  /** `valueData`: the VVIMP, VIMP, IMP and NIMP counts. */
  function ValueData(fs: seq<Goal>): (r: seq<nat>)
    ensures |r| == 4
    ensures r[0] + r[1] + r[2] + r[3] <= |fs|
    ensures (forall g :: g in fs ==> KnownValue(g)) ==> r[0] + r[1] + r[2] + r[3] == |fs|
  {
    ValuesPartition(fs);
    var b := ByValue(fs);
    [|b.vvimp|, |b.vimp|, |b.imp|, |b.nimp|]
  }

  /** The duration ranges of `daysData`, as (min, max) in days. */
  const Buckets: seq<(int, int)> := [(1, 7), (15, 30), (45, 90), (150, 180), (270, 365)]

  /** The index of the range a duration falls in. */
  function BucketOf(d: GoalDays): (k: nat)
    ensures k < |Buckets| && Buckets[k].0 <= d <= Buckets[k].1
    ensures forall j :: 0 <= j < |Buckets| && Buckets[j].0 <= d <= Buckets[j].1 ==> j == k
  {
    assert IsGoalDays(d);
    if d <= 7 then 0 else if d <= 30 then 1 else if d <= 90 then 2 else if d <= 180 then 3 else 4
  }

  /** The filter `g => g.days >= r.min && g.days <= r.max`. */
  function InRange(lo: int, hi: int): Goal -> bool
  {
    (g: Goal) => lo <= g.days <= hi
  }

  function BucketCount(fs: seq<Goal>, k: nat): nat
    requires k < |Buckets|
  {
    |Filter(fs, InRange(Buckets[k].0, Buckets[k].1))|
  }

  /** `daysData`: one count per range. */
  function DaysData(fs: seq<Goal>): (r: seq<nat>)
    ensures |r| == |Buckets|
    ensures forall k :: 0 <= k < |Buckets| ==> r[k] == BucketCount(fs, k)
  {
    seq(|Buckets|, k requires 0 <= k < |Buckets| => BucketCount(fs, k))
  }

  /** Every goal is counted in exactly one range, so the counts add up to the goals. */
  lemma {:induction false} BucketsPartition(fs: seq<Goal>)
    ensures var r := DaysData(fs); r[0] + r[1] + r[2] + r[3] + r[4] == |fs|
  {
    if fs != [] {
      var p := fs[..|fs| - 1];
      BucketsPartition(p);
      var k := BucketOf(fs[|fs| - 1].days);
    }
  }

  /** The completion-rate row: rounded percentages of the done, on-going and not-yet goals. */
  datatype ProgressRow = ProgressRow(done: int, ongoing: int, pending: int)

  /** `progressData`: empty without goals, else one row of rounded percentages. */
  function ProgressData(fs: seq<Goal>): (r: seq<ProgressRow>)
    ensures |r| == if fs == [] then 0 else 1
    ensures r != [] ==> var s := StatusData(fs);
      r[0] == ProgressRow(Percent(s[0], |fs|), Percent(s[1], |fs|), Percent(s[2], |fs|))
  {
    if |fs| == 0 then []
    else
      var s := StatusData(fs);
      [ProgressRow(Percent(s[0], |fs|), Percent(s[1], |fs|), Percent(s[2], |fs|))]
  }

  /** Each percentage lies between 0 and 100, and when every status is one of the three the
      three rounded percentages add up to 99, 100 or 101. */
  lemma ProgressBounds(fs: seq<Goal>)
    requires fs != []
    ensures var row := ProgressData(fs)[0];
      0 <= row.done <= 100 && 0 <= row.ongoing <= 100 && 0 <= row.pending <= 100
    ensures (forall g :: g in fs ==> KnownStatus(g)) ==>
      var row := ProgressData(fs)[0]; 99 <= row.done + row.ongoing + row.pending <= 101
  {
    var s := StatusData(fs);
    PercentBounds(s[0], |fs|);
    PercentBounds(s[1], |fs|);
    PercentBounds(s[2], |fs|);
    if forall g :: g in fs ==> KnownStatus(g) {
      PercentsOfWhole(s[0], s[1], s[2]);
    }
  }

  /** Three shares that make up a whole round to percentages summing to 99, 100 or 101. */
  lemma PercentsOfWhole(a: nat, b: nat, c: nat)
    requires a + b + c > 0
    ensures var t := a + b + c; 99 <= Percent(a, t) + Percent(b, t) + Percent(c, t) <= 101
  {
    var t := a + b + c;
    var u := 2 * t;
    var x, y, z := RoundDiv(100 * a, t), RoundDiv(100 * b, t), RoundDiv(100 * c, t);
    assert u * x + u * y + u * z == u * (x + y + z);
    var s := u * (x + y + z);
    assert s <= 203 * t && 197 * t < s;
    assert s < u * 102;
    CancelLt(u, x + y + z, 102);
    assert u * 98 < s;
    CancelLt(u, 98, x + y + z);
  }

  /** The four charts of the panel for one period. */
  datatype Charts = Charts(status: seq<nat>, value: seq<nat>, days: seq<nat>, progress: seq<ProgressRow>)

  function PanelOf(gs: seq<Goal>, p: Period, now: int, current: YearMonth): (c: Charts)
    requires InMonth(DayOf(now), current)
    ensures |c.status| == 3 && |c.value| == 4 && |c.days| == 5
    ensures var fs := InPeriod(gs, PeriodStart(p, now, current));
      c.status[0] + c.status[1] + c.status[2] <= |fs|
      && c.days[0] + c.days[1] + c.days[2] + c.days[3] + c.days[4] == |fs|
      && (c.progress == [] <==> fs == [])
  {
    var fs := InPeriod(gs, PeriodStart(p, now, current));
    BucketsPartition(fs);
    Charts(StatusData(fs), ValueData(fs), DaysData(fs), ProgressData(fs))
  }
}
