// The journal analytics panel: its own readings of the phone-usage labels, the entries
// of the chosen range in date order, the weekly phone-usage trend, the first-pickup
// distribution and the usage averages.

module JournalAnalytics {
  import opened Common
  import opened Text
  import opened Journal
  import Calendar
  import Sorting
  import Detox

  // ---- label readings ----------------------------------------------------------

  /** `screenTimeToHours`: 0 for an empty value, else the hours left after dropping `H+`
      and `H`, or 0 when they do not parse. */
  function ScreenTimeToHours(v: string): int
  {
    if v == [] then 0
    else match Detox.Hours(v) case Some(n) => n case None => 0
  }

  /** An empty value and one that does not parse read as 0 hours; any other reads as the
      number the detox rule compares. */
  lemma ScreenTimeReadings(v: string)
    ensures v == [] || Detox.Hours(v).None? ==> ScreenTimeToHours(v) == 0
    ensures v != [] && Detox.Hours(v).Some? ==> ScreenTimeToHours(v) == Detox.Hours(v).value
  {
  }

  /** The labels `nH` and `nH+` read as n hours. */
  lemma ScreenTimeOfLabel(n: nat)
    ensures ScreenTimeToHours(NatToString(n) + "H") == n
    ensures ScreenTimeToHours(NatToString(n) + "H+") == n
  {
    Detox.HoursOfLabel(n);
  }

  /** The form's screen-time labels read as 1 to 12 hours, in order. */
  lemma ScreenTimeOfOption(i: int)
    requires 0 <= i < |ScreenTimeOptions|
    ensures ScreenTimeToHours(ScreenTimeOptions[i]) == i + 1
  {
    ScreenTimeOptionIsNumeral(i);
    ScreenTimeOfLabel(i + 1);
  }

  /** A value the challenge rule counts as under a non-empty target also reads as fewer
      hours here: both readings agree on the parsed labels. */
  lemma ScreenTimeReadingsAgree(v: string, target: string)
    requires target != [] && Detox.IsScreenTimeUnder(v, target)
    ensures ScreenTimeToHours(v) < ScreenTimeToHours(target)
  {
  }

  /** `socialMediaToMinutes`: the middle of the first listed range the label contains, 0
      for an empty or unknown label. */
  function SocialMediaToMinutes(v: string): (m: int)
    ensures 0 <= m <= 330
  {
    if v == [] then 0
    else if Contains(v, "0-30") then 15
    else if Contains(v, "30min-1H") then 45
    else if Contains(v, "1-2") then 90
    else if Contains(v, "2-3") then 150
    else if Contains(v, "3-4") then 210
    else if Contains(v, "4-5") then 270
    else if Contains(v, "5H+") then 330
    else 0
  }

  /** A pattern differs from the text at position j when one of its characters does. */
  lemma MismatchAt(s: string, p: string, j: int, k: int)
    requires 0 <= k < |p| && 0 <= j && j + k < |s| && s[j + k] != p[k]
    ensures !OccursAt(s, p, j)
  {
  }

  /** `30min-1H` does not hold `0-30`: its only `0` is followed by `m`. */
  lemma NoLowRangeInHalfHour()
    ensures !Contains("30min-1H", "0-30")
  {
    var s, p := "30min-1H", "0-30";
    MismatchAt(s, p, 0, 0);
    MismatchAt(s, p, 1, 1);
    MismatchAt(s, p, 2, 0);
    MismatchAt(s, p, 3, 0);
    MismatchAt(s, p, 4, 0);
    assert IndexOf(s, p).None?;
  }

  /** The form's social-media labels read as 15, 45, 90, 150, 210, 270 and 330 minutes. */
  lemma SocialMediaOfOption(i: int)
    requires 0 <= i < |SocialMediaOptions|
    ensures SocialMediaToMinutes(SocialMediaOptions[i]) == [15, 45, 90, 150, 210, 270, 330][i]
  {
    if i < 3 {
      ShortOptionMinutes(i);
    } else {
      LongOptionMinutes(i);
    }
  }

  lemma ShortOptionMinutes(i: int)
    requires 0 <= i < 3
    ensures SocialMediaToMinutes(SocialMediaOptions[i]) == [15, 45, 90][i]
  {
    var v := SocialMediaOptions[i];
    if i == 0 { LowRangeMinutes(v); }
    else if i == 1 { HalfHourMinutes(v); }
    else { OneToTwoMinutes(v); }
  }

  lemma LongOptionMinutes(i: int)
    requires 3 <= i < 7
    ensures SocialMediaToMinutes(SocialMediaOptions[i]) == [150, 210, 270, 330][i - 3]
  {
    var v := SocialMediaOptions[i];
    if i == 3 { TwoToThreeMinutes(v); }
    else if i == 4 { ThreeToFourMinutes(v); }
    else if i == 5 { FourToFiveMinutes(v); }
    else { OverFiveMinutes(v); }
  }

  // Each label below holds its own fragment and lacks a character of every fragment checked
  // before it.

  lemma LowRangeMinutes(s: string)
    requires s == "0-30min"
    ensures SocialMediaToMinutes(s) == 15
  {
    ContainsAt(s, "0-30", 0);
  }

  lemma HalfHourMinutes(s: string)
    requires s == "30min-1H"
    ensures SocialMediaToMinutes(s) == 45
  {
    NoLowRangeInHalfHour();
    ContainsAt(s, "30min-1H", 0);
  }

  lemma OneToTwoMinutes(s: string)
    requires s == "1-2H"
    ensures SocialMediaToMinutes(s) == 90
  {
    MissingCharNotContained(s, "0-30", 0);
    MissingCharNotContained(s, "30min-1H", 2);
    ContainsAt(s, "1-2", 0);
  }

  lemma TwoToThreeMinutes(s: string)
    requires s == "2-3H"
    ensures SocialMediaToMinutes(s) == 150
  {
    MissingCharNotContained(s, "0-30", 0);
    MissingCharNotContained(s, "30min-1H", 2);
    MissingCharNotContained(s, "1-2", 0);
    ContainsAt(s, "2-3", 0);
  }

  lemma ThreeToFourMinutes(s: string)
    requires s == "3-4H"
    ensures SocialMediaToMinutes(s) == 210
  {
    MissingCharNotContained(s, "0-30", 0);
    MissingCharNotContained(s, "30min-1H", 2);
    MissingCharNotContained(s, "1-2", 0);
    MissingCharNotContained(s, "2-3", 0);
    ContainsAt(s, "3-4", 0);
  }

  lemma FourToFiveMinutes(s: string)
    requires s == "4-5H"
    ensures SocialMediaToMinutes(s) == 270
  {
    MissingCharNotContained(s, "0-30", 0);
    MissingCharNotContained(s, "30min-1H", 2);
    MissingCharNotContained(s, "1-2", 0);
    MissingCharNotContained(s, "2-3", 0);
    MissingCharNotContained(s, "3-4", 0);
    ContainsAt(s, "4-5", 0);
  }

  lemma OverFiveMinutes(s: string)
    requires s == "5H+"
    ensures SocialMediaToMinutes(s) == 330
  {
    MissingCharNotContained(s, "0-30", 0);
    MissingCharNotContained(s, "30min-1H", 2);
    MissingCharNotContained(s, "1-2", 0);
    MissingCharNotContained(s, "2-3", 0);
    MissingCharNotContained(s, "3-4", 0);
    MissingCharNotContained(s, "4-5", 0);
    ContainsAt(s, "5H+", 0);
  }

  // ---- the range -------------------------------------------------------------------

  /** `startDate` for a range of `days`: twelve calendar months before `now` for the year
      view, else that many whole days before. `current` is the month `now` falls in. */
  function RangeStart(days: int, now: int, current: Calendar.YearMonth): (r: int)
    requires Calendar.InMonth(Calendar.DayOf(now), current)
    ensures days >= 0 ==> r <= now
    ensures days != 365 ==> Calendar.DayOf(r) == Calendar.DayOf(now) - days
    ensures r - Calendar.Midnight(Calendar.DayOf(r)) == now - Calendar.Midnight(Calendar.DayOf(now))
  {
    if days == 365 then Calendar.YearBefore(now, current) else Calendar.DaysBefore(now, days)
  }

  /** The year view starts in the same month of the year before. */
  lemma YearRangeStart(now: int, current: Calendar.YearMonth)
    requires Calendar.InMonth(Calendar.DayOf(now), current)
    ensures Calendar.InMonth(Calendar.DayOf(RangeStart(365, now, current)), Calendar.YearMonth(current.year - 1, current.month))
  {
    Calendar.YearBeforeInPriorYear(now, current);
  }

  function ByDate(e: JournalEntry): int { e.date }

  /** `rangeEntries`: the entries of the interval, sorted by date; entries of the same date
      keep their order. */
  function RangeEntries(es: seq<JournalEntry>, start: int, end: int): (r: seq<JournalEntry>)
    ensures multiset(r) == multiset(EntriesInRange(es, start, end))
    ensures forall i, j :: 0 <= i < j < |r| ==> r[i].date <= r[j].date
  {
    var r := Sorting.SortBy(EntriesInRange(es, start, end), ByDate);
    assert forall i, j :: 0 <= i < j < |r| ==> ByDate(r[i]) <= ByDate(r[j]);
    r
  }

  /** The range entries are exactly the entries whose date lies in the interval. */
  lemma RangeEntriesMembers(es: seq<JournalEntry>, start: int, end: int)
    ensures forall e :: e in RangeEntries(es, start, end) <==> e in es && InRange(e, start, end)
    ensures |RangeEntries(es, start, end)| <= |es|
  {
    var r, w := RangeEntries(es, start, end), EntriesInRange(es, start, end);
    forall e ensures e in r <==> e in w {
      assert e in r <==> e in multiset(r);
      assert e in w <==> e in multiset(w);
    }
    assert |r| == |multiset(r)| == |multiset(w)| == |w|;
  }

  // ---- weekly phone usage -----------------------------------------------------------

  /** The running sums of one week of `weeks`; the week is named by its Monday. The page
      keys weeks by the label `MMM d`, which has no year. Two Mondays with the same label are
      364 or 371 days apart, and the longest range offered is 366 days, so within one range
      the label and the Monday name the same week. */
  datatype WeekTotals = WeekTotals(monday: int, screen: int, social: int, count: nat)

  function WeekKeys(ws: seq<WeekTotals>): (ks: seq<int>)
    ensures |ks| == |ws| && forall i :: 0 <= i < |ws| ==> ks[i] == ws[i].monday
  {
    seq(|ws|, i requires 0 <= i < |ws| => ws[i].monday)
  }

  /** `weeks.set(weekKey, ...)` for one entry: its week's sums grow by the entry's hours,
      minutes and one, or a new week is appended (a `Map` keeps insertion order). */
  function AddToWeek(ws: seq<WeekTotals>, e: JournalEntry): seq<WeekTotals>
  {
    Grow(ws, Calendar.MondayOf(e.date), ScreenTimeToHours(e.screenTime), SocialMediaToMinutes(e.socialMediaTime))
  }

  /** The week starting on m gains h hours, s minutes and one entry. */
  function Grow(ws: seq<WeekTotals>, m: int, h: int, s: int): seq<WeekTotals>
  {
    match Find(WeekKeys(ws), m)
    case Some(i) => ws[i := WeekTotals(m, ws[i].screen + h, ws[i].social + s, ws[i].count + 1)]
    case None => ws + [WeekTotals(m, h, s, 1)]
  }

  /** Adding an entry keeps the weeks, or appends the entry's week; every week keeps at
      least one entry. */
  lemma AddToWeekKeys(ws: seq<WeekTotals>, e: JournalEntry)
    ensures var m := Calendar.MondayOf(e.date);
      WeekKeys(AddToWeek(ws, e)) == if m in WeekKeys(ws) then WeekKeys(ws) else WeekKeys(ws) + [m]
    ensures (forall i :: 0 <= i < |ws| ==> ws[i].count > 0) ==>
      forall i :: 0 <= i < |AddToWeek(ws, e)| ==> AddToWeek(ws, e)[i].count > 0
  {
    GrowKeys(ws, Calendar.MondayOf(e.date), ScreenTimeToHours(e.screenTime), SocialMediaToMinutes(e.socialMediaTime));
  }

  lemma GrowKeys(ws: seq<WeekTotals>, m: int, h: int, s: int)
    ensures WeekKeys(Grow(ws, m, h, s)) == if m in WeekKeys(ws) then WeekKeys(ws) else WeekKeys(ws) + [m]
    ensures (forall i :: 0 <= i < |ws| ==> ws[i].count > 0) ==>
      forall i :: 0 <= i < |Grow(ws, m, h, s)| ==> Grow(ws, m, h, s)[i].count > 0
  {
  }

  /** The weeks after every entry has been added, in order of first appearance. */
  function WeeksOf(rs: seq<JournalEntry>): (ws: seq<WeekTotals>)
    ensures forall i :: 0 <= i < |ws| ==> ws[i].count > 0
  {
    if rs == [] then []
    else
      AddToWeekKeys(WeeksOf(rs[..|rs| - 1]), rs[|rs| - 1]);
      AddToWeek(WeeksOf(rs[..|rs| - 1]), rs[|rs| - 1])
  }

  /** The Monday of each entry's week. */
  function Mondays(rs: seq<JournalEntry>): (ms: seq<int>)
    ensures |ms| == |rs| && forall i :: 0 <= i < |rs| ==> ms[i] == Calendar.MondayOf(rs[i].date)
  {
    seq(|rs|, i requires 0 <= i < |rs| => Calendar.MondayOf(rs[i].date))
  }

  /** The weeks are the distinct weeks of the entries. */
  lemma {:induction false} WeeksOfKeys(rs: seq<JournalEntry>)
    ensures forall m :: m in WeekKeys(WeeksOf(rs)) <==> m in Mondays(rs)
    ensures forall i, j :: 0 <= i < j < |WeeksOf(rs)| ==> WeeksOf(rs)[i].monday != WeeksOf(rs)[j].monday
  {
    if rs != [] {
      var p, e := rs[..|rs| - 1], rs[|rs| - 1];
      WeeksOfKeys(p);
      assert rs == p + [e];
      KeysStep(WeeksOf(p), p, e);
    }
  }

  /** Adding one more entry to the distinct weeks of some entries gives the distinct weeks
      of all of them. */
  lemma KeysStep(w: seq<WeekTotals>, p: seq<JournalEntry>, e: JournalEntry)
    requires forall m :: m in WeekKeys(w) <==> m in Mondays(p)
    requires forall i, j :: 0 <= i < j < |w| ==> w[i].monday != w[j].monday
    ensures forall m :: m in WeekKeys(AddToWeek(w, e)) <==> m in Mondays(p + [e])
    ensures forall i, j :: 0 <= i < j < |AddToWeek(w, e)| ==> AddToWeek(w, e)[i].monday != AddToWeek(w, e)[j].monday
  {
    var m := Calendar.MondayOf(e.date);
    AddToWeekKeys(w, e);
    assert Mondays(p + [e]) == Mondays(p) + [m];
    var ks := WeekKeys(w);
    assert forall i, j :: 0 <= i < j < |ks| ==> ks[i] != ks[j];
    KeysStayDistinct(ks, m);
    var r := AddToWeek(w, e);
    assert forall i :: 0 <= i < |r| ==> r[i].monday == WeekKeys(r)[i];
  }

  /** Adding a key only when it is new keeps the keys distinct. */
  lemma KeysStayDistinct(ks: seq<int>, m: int)
    requires forall i, j :: 0 <= i < j < |ks| ==> ks[i] != ks[j]
    ensures var ks' := if m in ks then ks else ks + [m];
      forall i, j :: 0 <= i < j < |ks'| ==> ks'[i] != ks'[j]
  {
  }

  /** The filter of the entries of the week starting on Monday m. */
  function InWeek(m: int): JournalEntry -> bool
  {
    (e: JournalEntry) => Calendar.MondayOf(e.date) == m
  }

  /** A week's sums are those of the entries in it. */
  predicate SumsOfWeek(w: WeekTotals, rs: seq<JournalEntry>)
  {
    var f := Filter(rs, InWeek(w.monday));
    w.count == |f| && w.screen == ScreenHoursTotal(f) && w.social == SocialMinutesTotal(f)
  }

  /** Filtering one more entry keeps it exactly when it passes. */
  lemma FilterStep(rs: seq<JournalEntry>, m: int)
    requires rs != []
    ensures Filter(rs, InWeek(m))
      == Filter(rs[..|rs| - 1], InWeek(m)) + if InWeek(m)(rs[|rs| - 1]) then [rs[|rs| - 1]] else []
  {
  }

  lemma TotalsStep(f: seq<JournalEntry>, e: JournalEntry)
    ensures ScreenHoursTotal(f + [e]) == ScreenHoursTotal(f) + ScreenTimeToHours(e.screenTime)
    ensures SocialMinutesTotal(f + [e]) == SocialMinutesTotal(f) + SocialMediaToMinutes(e.socialMediaTime)
  {
    assert (f + [e])[..|f|] == f;
  }

  /** Entries of other weeks leave a week's sums alone; an entry of the week adds to them. */
  lemma SumsOfWeekStep(w: WeekTotals, rs: seq<JournalEntry>)
    requires rs != [] && SumsOfWeek(w, rs[..|rs| - 1])
    ensures var e := rs[|rs| - 1];
      if Calendar.MondayOf(e.date) == w.monday then
        SumsOfWeek(WeekTotals(w.monday, w.screen + ScreenTimeToHours(e.screenTime),
                              w.social + SocialMediaToMinutes(e.socialMediaTime), w.count + 1), rs)
      else SumsOfWeek(w, rs)
  {
    FilterStep(rs, w.monday);
    TotalsStep(Filter(rs[..|rs| - 1], InWeek(w.monday)), rs[|rs| - 1]);
  }

  /** No entry of a week that has no entries. */
  lemma EmptyWeek(rs: seq<JournalEntry>, m: int)
    requires m !in Mondays(rs)
    ensures Filter(rs, InWeek(m)) == []
  {
  }

  /** Each week counts the entries of that week and sums their hours and minutes. */
  lemma {:induction false} WeeksOfSums(rs: seq<JournalEntry>)
    ensures forall i :: 0 <= i < |WeeksOf(rs)| ==> SumsOfWeek(WeeksOf(rs)[i], rs)
  {
    if rs != [] {
      var p := rs[..|rs| - 1];
      var e := rs[|rs| - 1];
      var m := Calendar.MondayOf(e.date);
      WeeksOfSums(p);
      WeeksOfKeys(p);
      var w := WeeksOf(p);
      var r := WeeksOf(rs);
      var ks := WeekKeys(w);
      match Find(ks, m)
      case Some(k) =>
        forall i | 0 <= i < |r| ensures SumsOfWeek(r[i], rs) {
          SumsOfWeekStep(w[i], rs);
          if i != k {
            assert ks[i] == w[i].monday && ks[k] == m;
          }
        }
      case None =>
        forall i | 0 <= i < |r| ensures SumsOfWeek(r[i], rs) {
          if i < |w| {
            SumsOfWeekStep(w[i], rs);
            assert ks[i] == w[i].monday;
          } else {
            EmptyWeek(p, m);
            FilterStep(rs, m);
            TotalsStep([], e);
          }
        }
    }
  }

  predicate Increasing(s: seq<int>)
  {
    forall i, j :: 0 <= i < j < |s| ==> s[i] < s[j]
  }

  /** When the entries come in date order, so do their weeks, each week once. */
  lemma {:induction false} WeeksInOrder(rs: seq<JournalEntry>)
    requires forall i, j :: 0 <= i < j < |rs| ==> rs[i].date <= rs[j].date
    ensures Increasing(WeekKeys(WeeksOf(rs)))
  {
    if rs != [] {
      var p := rs[..|rs| - 1];
      var e := rs[|rs| - 1];
      var m := Calendar.MondayOf(e.date);
      WeeksInOrder(p);
      WeeksOfKeys(p);
      var ks := WeekKeys(WeeksOf(p));
      forall i | 0 <= i < |ks| ensures ks[i] <= m {
        assert ks[i] in Mondays(p);
        var j :| 0 <= j < |p| && Mondays(p)[j] == ks[i];
        Calendar.MondayOfMonotone(p[j].date, e.date);
      }
      AddToWeekKeys(WeeksOf(p), e);
      IncreasingAdd(ks, m);
    }
  }

  lemma IncreasingAdd(ks: seq<int>, m: int)
    requires Increasing(ks) && forall i :: 0 <= i < |ks| ==> ks[i] <= m
    ensures Increasing(if m in ks then ks else ks + [m])
  {
  }

  function TotalCount(ws: seq<WeekTotals>): nat
  {
    if ws == [] then 0 else TotalCount(ws[..|ws| - 1]) + ws[|ws| - 1].count
  }

  lemma {:induction false} TotalCountUpdate(ws: seq<WeekTotals>, i: nat, w: WeekTotals)
    requires i < |ws|
    ensures TotalCount(ws[i := w]) == TotalCount(ws) - ws[i].count + w.count
  {
    var p := ws[..|ws| - 1];
    if i < |ws| - 1 {
      assert ws[i := w][..|ws| - 1] == p[i := w];
      TotalCountUpdate(p, i, w);
    } else {
      assert ws[i := w][..|ws| - 1] == p;
    }
  }

  /** Adding an entry to its week counts it once. */
  lemma AddToWeekCount(ws: seq<WeekTotals>, e: JournalEntry)
    ensures TotalCount(AddToWeek(ws, e)) == TotalCount(ws) + 1
  {
    GrowCount(ws, Calendar.MondayOf(e.date), ScreenTimeToHours(e.screenTime), SocialMediaToMinutes(e.socialMediaTime));
  }

  lemma GrowCount(ws: seq<WeekTotals>, m: int, h: int, s: int)
    ensures TotalCount(Grow(ws, m, h, s)) == TotalCount(ws) + 1
  {
    var ks := WeekKeys(ws);
    match Find(ks, m)
    case Some(i) =>
      assert i < |ks| == |ws|;
      var w := WeekTotals(m, ws[i].screen + h, ws[i].social + s, ws[i].count + 1);
      assert Grow(ws, m, h, s) == ws[i := w];
      TotalCountUpdate(ws, i, w);
    case None =>
      var w := WeekTotals(m, h, s, 1);
      assert Grow(ws, m, h, s) == ws + [w];
      TotalCountSnoc(ws, w);
  }

  lemma TotalCountSnoc(ws: seq<WeekTotals>, w: WeekTotals)
    ensures TotalCount(ws + [w]) == TotalCount(ws) + w.count
  {
    var r := ws + [w];
    assert r[..|r| - 1] == ws;
  }

  /** The week counts add up to the number of entries. */
  lemma {:induction false} WeeksOfCountAll(rs: seq<JournalEntry>)
    ensures TotalCount(WeeksOf(rs)) == |rs|
  {
    if rs != [] {
      WeeksOfCountAll(rs[..|rs| - 1]);
      AddToWeekCount(WeeksOf(rs[..|rs| - 1]), rs[|rs| - 1]);
    }
  }

  /** One point of the weekly chart: the week, its mean screen time rounded to one decimal
      (kept as a whole number of tenths), its mean social-media minutes rounded, and its
      entry count. */
  datatype WeekUsage = WeekUsage(week: int, screenTenths: int, socialMedia: int, count: nat)
  {
    /** `Math.round(screenTime / count * 10) / 10`, the hours the chart shows. */
    function ScreenTime(): real
    {
      screenTenths as real / 10.0
    }
  }

  function Usage(w: WeekTotals): WeekUsage
    requires w.count > 0
  {
    WeekUsage(w.monday, Mean(10 * w.screen, w.count), Mean(w.social, w.count), w.count)
  }

  /** `Math.round(total / count)`: the same value as `RoundDiv`, stated without its bounds so
      that the lemmas about whole weeks do not reason about products. */
  function Mean(total: int, count: nat): int
    requires count > 0
  {
    (2 * total + count) / (2 * count)
  }

  function UsageRows(ws: seq<WeekTotals>): (us: seq<WeekUsage>)
    requires forall i :: 0 <= i < |ws| ==> ws[i].count > 0
    ensures |us| == |ws| && forall i :: 0 <= i < |ws| ==> us[i] == Usage(ws[i])
  {
    seq(|ws|, i requires 0 <= i < |ws| => Usage(ws[i]))
  }

  /** `slice(-n)`: the last n elements, or all of them when there are fewer. */
  function LastN<T>(xs: seq<T>, n: nat): (r: seq<T>)
    ensures |r| == if |xs| <= n then |xs| else n
    ensures forall k :: 0 <= k < |r| ==> r[k] == xs[|xs| - |r| + k]
  {
    if |xs| <= n then xs else xs[|xs| - n..]
  }

  /** `weeklyPhoneUsageData`: the points of the last eight of the entries' weeks (all of
      them when there are fewer). */
  function WeeklyPhoneUsage(rs: seq<JournalEntry>): (r: seq<WeekUsage>)
    ensures var ws := WeeksOf(rs); |r| == (if |ws| <= 8 then |ws| else 8)
  {
    if rs == [] then [] else LastN(UsageRows(WeeksOf(rs)), 8)
  }

  /** Each point counts the entries of its week, and its social-media mean stays within 0
      to 330 minutes. */
  lemma WeeklyPhoneUsagePoints(rs: seq<JournalEntry>)
    ensures forall u :: u in WeeklyPhoneUsage(rs) ==> PointOfWeek(u, rs)
  {
    if rs != [] {
      WeeksOfSums(rs);
      PointsOf(WeeksOf(rs), rs);
    }
  }

  /** The points of the last weeks, each week summing its own entries, are points of
      their weeks. */
  lemma PointsOf(ws: seq<WeekTotals>, rs: seq<JournalEntry>)
    requires forall i :: 0 <= i < |ws| ==> ws[i].count > 0 && SumsOfWeek(ws[i], rs)
    ensures forall u :: u in LastN(UsageRows(ws), 8) ==> PointOfWeek(u, rs)
  {
    var all := UsageRows(ws);
    RowsArePoints(ws, rs);
    var r := LastN(all, 8);
    forall k | 0 <= k < |r| ensures PointOfWeek(r[k], rs) {
      assert r[k] == all[|all| - |r| + k];
    }
  }

  /** The point of every week that sums its own entries is a point of its week. */
  lemma RowsArePoints(ws: seq<WeekTotals>, rs: seq<JournalEntry>)
    requires forall i :: 0 <= i < |ws| ==> ws[i].count > 0 && SumsOfWeek(ws[i], rs)
    ensures forall i :: 0 <= i < |ws| ==> PointOfWeek(UsageRows(ws)[i], rs)
  {
    forall i | 0 <= i < |ws| ensures PointOfWeek(UsageRows(ws)[i], rs) {
      UsageOfWeek(ws[i], rs);
    }
  }

  /** A point that counts the entries of its week and has a mean within 0 to 330. */
  predicate PointOfWeek(u: WeekUsage, rs: seq<JournalEntry>)
  {
    u.count == |Filter(rs, InWeek(u.week))| && 0 <= u.socialMedia <= 330
  }

  /** The point of one week counts the week's entries and has a mean within 0 to 330. */
  lemma UsageOfWeek(w: WeekTotals, rs: seq<JournalEntry>)
    requires SumsOfWeek(w, rs) && w.count > 0
    ensures Usage(w).count == |Filter(rs, InWeek(w.monday))| && 0 <= Usage(w).socialMedia <= 330
  {
    assert Mean(w.social, w.count) == RoundDiv(w.social, w.count);
    RoundDivBetween(w.social, w.count, 0, 330);
  }

  /** With the entries in date order the points run from the earliest shown week to the
      latest, and every week left out comes before every week shown. */
  lemma WeeklyPhoneUsageLatest(rs: seq<JournalEntry>)
    requires forall i, j :: 0 <= i < j < |rs| ==> rs[i].date <= rs[j].date
    ensures var r := WeeklyPhoneUsage(rs);
      forall i, j :: 0 <= i < j < |r| ==> r[i].week < r[j].week
    ensures var ws, r := WeeksOf(rs), WeeklyPhoneUsage(rs);
      forall i, k :: 0 <= i < |ws| - |r| && 0 <= k < |r| ==> ws[i].monday < r[k].week
  {
    WeeksInOrder(rs);
  }

  /** The first loop of `weeklyPhoneUsageData`: every entry added to its week, in order. */
  method GroupWeeks(rs: seq<JournalEntry>) returns (weeks: seq<WeekTotals>)
    ensures weeks == WeeksOf(rs)
  {
    weeks := [];
    for i := 0 to |rs|
      invariant weeks == WeeksOf(rs[..i])
    {
      assert rs[..i + 1][..i] == rs[..i];
      weeks := AddToWeek(weeks, rs[i]);
    }
    assert rs[..|rs|] == rs;
  }

  /** The second loop: one point pushed for each week, in the map's order. */
  method WeekPoints(weeks: seq<WeekTotals>) returns (data: seq<WeekUsage>)
    requires forall i :: 0 <= i < |weeks| ==> weeks[i].count > 0
    ensures data == UsageRows(weeks)
  {
    data := [];
    for j := 0 to |weeks|
      invariant |data| == j && forall k :: 0 <= k < j ==> data[k] == Usage(weeks[k])
    {
      data := data + [Usage(weeks[j])];
    }
  }

  /** The loops of `weeklyPhoneUsageData`: add every entry to its week, turn each week into
      a point, keep the last eight. */
  method WeeklyPhoneUsageData(rs: seq<JournalEntry>) returns (r: seq<WeekUsage>)
    ensures r == WeeklyPhoneUsage(rs)
  {
    if |rs| == 0 {
      return [];
    }
    var weeks := GroupWeeks(rs);
    var data := WeekPoints(weeks);
    r := LastN(data, 8);
  }

  // ---- first-pickup distribution -------------------------------------------------

  /** `parts[i]` of a split, or the text `undefined` that a missing part turns into when it
      is concatenated. */
  function PartOr(ps: seq<string>, i: nat): string
  {
    if i < |ps| then ps[i] else "undefined"
  }

  /** The distribution key of a first-pickup time: the text before the first `:`, then
      `:00 `, then the part between the first and second spaces. */
  function PickupBucket(t: string): string
  {
    Split(t, ':')[0] + ":00 " + PartOr(Split(t, ' '), 1)
  }

  /** A label `h:mm PERIOD` falls in the bucket `h:00 PERIOD` of its hour. */
  lemma PickupBucketOfLabel(h: nat, minutes: string, period: string)
    requires ' ' !in minutes && ':' !in minutes && ' ' !in period && ':' !in period
    ensures PickupBucket(NatToString(h) + ":" + minutes + " " + period) == NatToString(h) + ":00 " + period
  {
    var ds := NatToString(h);
    var time := ds + [':'] + minutes;
    var rest := minutes + [' '] + period;
    Detox.NumeralHasNoSeparators(h);
    CharNotInJoined(ds, ':', minutes, ' ');
    CharNotInJoined(minutes, ' ', period, ':');
    var t := ds + ":" + minutes + " " + period;
    assert t == time + [' '] + period;
    assert t == ds + [':'] + rest;
    Detox.SplitPair(time, period, ' ');
    Detox.SplitPair(ds, rest, ':');
  }

  /** A label without a space falls in the bucket `h:00 undefined`. */
  lemma PickupBucketWithoutPeriod(h: nat, minutes: string)
    requires ' ' !in minutes && ':' !in minutes
    ensures PickupBucket(NatToString(h) + ":" + minutes) == NatToString(h) + ":00 undefined"
  {
    var ds := NatToString(h);
    var t := ds + [':'] + minutes;
    Detox.NumeralHasNoSeparators(h);
    CharNotInJoined(ds, ':', minutes, ' ');
    assert ds + ":" + minutes == t;
    Detox.SplitPair(ds, minutes, ':');
  }

  /** `getHour` of a distribution key: the number before the first `:`, twelve hours later
      when the key holds `PM` (except 12), and 0 for 12 without `PM`; `None` stands for
      `NaN`. */
  function BucketHour(t: string): Option<int>
  {
    match ParseInt(Split(t, ':')[0])
    case None => None
    case Some(h) =>
      var pm := Contains(t, "PM");
      Some(if pm && h != 12 then h + 12 else if h == 12 && !pm then 0 else h)
  }

  function PeriodText(pm: bool): string { if pm then "PM" else "AM" }

  /** The bucket of the hour h of the morning or the afternoon, `h:00 AM` or `h:00 PM`. */
  function HourBucket(h: nat, pm: bool): string
  {
    NatToString(h) + ":00 " + PeriodText(pm)
  }

  /** The bucket of an AM or PM hour orders as that hour on a 24-hour clock, the same
      reading the challenge rule gives the labels. */
  lemma BucketHourOfLabel(h: int, pm: bool)
    requires 1 <= h <= 12
    ensures BucketHour(HourBucket(h, pm)) == Some(Detox.ClockHour(h, pm))
  {
    BucketHourPart(h, pm);
    BucketHourOfNumeral(HourBucket(h, pm), h);
    if pm {
      PmBucketHoldsPm(h);
    } else {
      AmBucketLacksPm(h);
    }
  }

  lemma BucketHourOfNumeral(t: string, h: int)
    requires 1 <= h <= 12 && Split(t, ':')[0] == NatToString(h)
    ensures BucketHour(t) == Some(Detox.ClockHour(h, Contains(t, "PM")))
  {
    ParseNatToString(h);
  }

  lemma BucketHourPart(h: nat, pm: bool)
    ensures Split(HourBucket(h, pm), ':')[0] == NatToString(h)
  {
    var ds := NatToString(h);
    var rest := "00 " + PeriodText(pm);
    assert ':' !in rest;
    assert HourBucket(h, pm) == ds + [':'] + rest;
    Detox.NumeralHasNoSeparators(h);
    Detox.SplitPair(ds, rest, ':');
  }

  lemma PmBucketHoldsPm(h: nat)
    ensures Contains(HourBucket(h, true), "PM")
  {
    var ds := NatToString(h);
    var t := HourBucket(h, true);
    assert t[|ds| + 4..|ds| + 6] == "PM";
    ContainsAt(t, "PM", |ds| + 4);
  }

  lemma AmBucketLacksPm(h: nat)
    ensures !Contains(HourBucket(h, false), "PM")
  {
    var ds := NatToString(h);
    var t := HourBucket(h, false);
    assert 'P' !in t by {
      forall k | 0 <= k < |t| ensures t[k] != 'P' {
        if k < |ds| {
          assert t[k] == ds[k] && IsDigit(ds[k]);
        }
      }
    }
    MissingCharNotContained(t, "PM", 0);
  }

  /** The sort key of a distribution row; a key that reads as `NaN` sorts as 0 here. */
  function RowHour(row: (string, nat)): int
  {
    match BucketHour(row.0) case Some(h) => h case None => 0
  }

  predicate HasPickup(e: JournalEntry) { e.firstPickupTime != [] }

  /** The buckets of the entries that have a first-pickup time, in entry order. */
  function PickupBuckets(rs: seq<JournalEntry>): (bs: seq<string>)
    ensures |bs| == |Filter(rs, HasPickup)|
  {
    if rs == [] then []
    else
      var e := rs[|rs| - 1];
      PickupBuckets(rs[..|rs| - 1]) + if HasPickup(e) then [PickupBucket(e.firstPickupTime)] else []
  }

  /** `pickupTimeData`: one row per bucket with its count, ordered by hour. */
  function PickupDistribution(rs: seq<JournalEntry>): (r: seq<(string, nat)>)
    ensures Sorting.SortedBy(r, RowHour)
    ensures multiset(r) == multiset(Tally(PickupBuckets(rs)))
  {
    Sorting.SortBy(Tally(PickupBuckets(rs)), RowHour)
  }

  /** Every row names a bucket of some entry and counts the entries in it, every such bucket
      has a row, and before ordering the counts add up to the entries with a pickup time. */
  lemma PickupDistributionCounts(rs: seq<JournalEntry>)
    ensures var bs := PickupBuckets(rs);
      forall row :: row in PickupDistribution(rs) ==> row.0 in bs && row.1 == multiset(bs)[row.0]
    ensures forall b :: b in PickupBuckets(rs) ==> exists n :: (b, n) in PickupDistribution(rs)
    ensures SumCounts(Tally(PickupBuckets(rs))) == |Filter(rs, HasPickup)|
  {
    var bs := PickupBuckets(rs);
    ReorderedTally(bs, PickupDistribution(rs));
    TallyTotal(bs);
  }

  /** One more entry adds its bucket, if it has a pickup time. */
  lemma PickupBucketsStep(rs: seq<JournalEntry>, i: nat)
    requires i < |rs|
    ensures PickupBuckets(rs[..i + 1])
      == PickupBuckets(rs[..i]) + if HasPickup(rs[i]) then [PickupBucket(rs[i].firstPickupTime)] else []
  {
    assert rs[..i + 1][..i] == rs[..i];
  }

  lemma TallyStep(bs: seq<string>, b: string)
    ensures Tally(bs + [b]) == Common.Bump(Tally(bs), b)
  {
    assert (bs + [b])[..|bs|] == bs;
  }

  /** The loop of `pickupTimeData`: count each entry's bucket, then order the rows. */
  method PickupTimeData(rs: seq<JournalEntry>) returns (r: seq<(string, nat)>)
    ensures r == PickupDistribution(rs)
  {
    var rows: seq<(string, nat)> := [];
    for i := 0 to |rs|
      invariant rows == Tally(PickupBuckets(rs[..i]))
    {
      PickupBucketsStep(rs, i);
      ghost var before := PickupBuckets(rs[..i]);
      if rs[i].firstPickupTime != [] {
        var b := PickupBucket(rs[i].firstPickupTime);
        TallyStep(before, b);
        rows := Common.Bump(rows, b);
        assert PickupBuckets(rs[..i + 1]) == before + [b];
      } else {
        assert PickupBuckets(rs[..i + 1]) == before;
      }
    }
    assert rs[..|rs|] == rs;
    r := Sorting.SortBy(rows, RowHour);
  }

  // ---- averages ----------------------------------------------------------------

  /** The filters `e => e.screenTime` and `e => e.socialMediaTime`. */
  predicate HasScreenTime(e: JournalEntry) { e.screenTime != [] }
  predicate HasSocialMedia(e: JournalEntry) { e.socialMediaTime != [] }

  function ScreenHoursTotal(rs: seq<JournalEntry>): int
  {
    if rs == [] then 0 else ScreenHoursTotal(rs[..|rs| - 1]) + ScreenTimeToHours(rs[|rs| - 1].screenTime)
  }

  function SocialMinutesTotal(rs: seq<JournalEntry>): (t: int)
    ensures 0 <= t <= 330 * |rs|
  {
    if rs == [] then 0 else SocialMinutesTotal(rs[..|rs| - 1]) + SocialMediaToMinutes(rs[|rs| - 1].socialMediaTime)
  }

  /** `avgScreenTime`: the mean hours of the entries that have a screen time, rounded to one
      decimal, or 0 when none has. */
  function AvgScreenTime(rs: seq<JournalEntry>): (a: real)
    ensures (forall e :: e in rs ==> !HasScreenTime(e)) ==> a == 0.0
  {
    var with := Filter(rs, HasScreenTime);
    if |with| == 0 then 0.0
    else
      assert with[0] in with;
      RoundDiv(10 * ScreenHoursTotal(with), |with|) as real / 10.0
  }

  /** `avgSocialMedia`: the mean minutes of the entries that have a social-media time,
      rounded, or 0 when none has. */
  function AvgSocialMedia(rs: seq<JournalEntry>): (a: int)
    ensures (forall e :: e in rs ==> !HasSocialMedia(e)) ==> a == 0
  {
    var with := Filter(rs, HasSocialMedia);
    if |with| == 0 then 0
    else
      assert with[0] in with;
      RoundDiv(SocialMinutesTotal(with), |with|)
  }

  /** The rounded mean of values between lo and hi lies between lo and hi. */
  lemma RoundDivBetween(total: int, n: int, lo: int, hi: int)
    requires n > 0 && lo * n <= total <= hi * n
    ensures lo <= RoundDiv(total, n) <= hi
  {
    var r := RoundDiv(total, n);
    assert 2 * n * r < 2 * n * (hi + 1);
    CancelLt(2 * n, r, hi + 1);
    assert 2 * n * lo < 2 * n * (r + 1);
    CancelLt(2 * n, lo, r + 1);
  }

  /** The average social-media time is between 0 and 330 minutes. */
  lemma AvgSocialMediaBounds(rs: seq<JournalEntry>)
    ensures 0 <= AvgSocialMedia(rs) <= 330
  {
    var with := Filter(rs, HasSocialMedia);
    if |with| > 0 {
      RoundDivBetween(SocialMinutesTotal(with), |with|, 0, 330);
    }
  }

  /** Screen times from the form keep the total between 1 and 12 hours per entry. */
  lemma {:induction false} ScreenTotalOfOptions(rs: seq<JournalEntry>)
    requires forall e :: e in rs ==> e.screenTime in ScreenTimeOptions
    ensures |rs| <= ScreenHoursTotal(rs) <= 12 * |rs|
  {
    if rs != [] {
      var p := rs[..|rs| - 1];
      assert forall e :: e in p ==> e in rs;
      ScreenTotalOfOptions(p);
      var v := rs[|rs| - 1].screenTime;
      assert rs[|rs| - 1] in rs;
      var i :| 0 <= i < |ScreenTimeOptions| && ScreenTimeOptions[i] == v;
      ScreenTimeOfOption(i);
    }
  }

  /** When every screen time comes from the form, the average is 0 (none given) or lies
      between 1 and 12 hours. */
  lemma AvgScreenTimeOfOptions(rs: seq<JournalEntry>)
    requires forall e :: e in rs && HasScreenTime(e) ==> e.screenTime in ScreenTimeOptions
    ensures AvgScreenTime(rs) == 0.0 || 1.0 <= AvgScreenTime(rs) <= 12.0
  {
    var with := Filter(rs, HasScreenTime);
    if |with| > 0 {
      ScreenTotalOfOptions(with);
      RoundDivBetween(10 * ScreenHoursTotal(with), |with|, 10, 120);
    }
  }
}
