// The monthly summary dialog: the entries of one month and the statistics it shows about
// them — completion, ratings, words, phone usage, and the best and hardest days.

module MonthlySummary {
  import opened Common
  import opened Text
  import opened Journal
  import Calendar
  import Sorting
  import JournalAnalytics

  // ---- the month's entries -------------------------------------------------------

  /** As written: `new Date(e.date)` reads `yyyy-MM-dd` as midnight UTC, and `isSameMonth`
      compares the local month of that instant. `offset` is how far local time is ahead of
      UTC, in milliseconds. */
  predicate SameMonthAsWritten(e: JournalEntry, ym: Calendar.YearMonth, offset: int)
  {
    Calendar.InMonth(Calendar.DayOf(Calendar.Midnight(e.date) + offset), ym)
  }

  function SameMonthFilter(ym: Calendar.YearMonth, offset: int): JournalEntry -> bool
  {
    (e: JournalEntry) => SameMonthAsWritten(e, ym, offset)
  }

  /** The month filter as written. */
  function MonthEntriesAsWritten(es: seq<JournalEntry>, ym: Calendar.YearMonth, offset: int): (r: seq<JournalEntry>)
    ensures forall e :: e in r <==> e in es && SameMonthAsWritten(e, ym, offset)
  {
    Filter(es, SameMonthFilter(ym, offset))
  }

  /** Local midnight of the month's first day, `startOfMonth`. */
  function MonthStart(ym: Calendar.YearMonth): int
  {
    Calendar.Midnight(Calendar.MonthStartDay(ym))
  }

  /** The last millisecond of the month's last day, `endOfMonth`. */
  function MonthEnd(ym: Calendar.YearMonth): int
  {
    Calendar.Midnight(Calendar.MonthStartDay(Calendar.Next(ym))) - 1
  }

  /** The month's entries, each date read as local midnight: exactly the entries dated in
      the month, in their stored order. */
  function MonthEntries(es: seq<JournalEntry>, ym: Calendar.YearMonth): (r: seq<JournalEntry>)
    ensures |r| <= |es|
    ensures forall e :: e in r <==> e in es && Calendar.InMonth(e.date, ym)
  {
    EntriesInRange(es, MonthStart(ym), MonthEnd(ym))
  }

  /** Both month filters keep the stored order: the month's entries of a concatenation are
      the concatenation of its parts' month entries, and a single entry is kept exactly when
      it is dated in the month. */
  lemma MonthEntriesConcat(a: seq<JournalEntry>, b: seq<JournalEntry>, ym: Calendar.YearMonth, offset: int)
    ensures MonthEntries(a + b, ym) == MonthEntries(a, ym) + MonthEntries(b, ym)
    ensures forall e :: MonthEntries([e], ym) == if Calendar.InMonth(e.date, ym) then [e] else []
    ensures MonthEntriesAsWritten(a + b, ym, offset)
      == MonthEntriesAsWritten(a, ym, offset) + MonthEntriesAsWritten(b, ym, offset)
    ensures forall e ::
      MonthEntriesAsWritten([e], ym, offset) == if SameMonthAsWritten(e, ym, offset) then [e] else []
  {
    EntriesInRangeConcat(a, b, MonthStart(ym), MonthEnd(ym));
    FilterConcat(a, b, SameMonthFilter(ym, offset));
    forall e ensures MonthEntries([e], ym) == if Calendar.InMonth(e.date, ym) then [e] else [] {
      assert e in MonthEntries([e], ym) <==> Calendar.InMonth(e.date, ym);
    }
  }

  /** West of UTC the first day of a month is counted in the month before: its UTC midnight
      is still the previous evening locally. */
  lemma AsWrittenMovesFirstOfMonth(ym: Calendar.YearMonth, offset: int, e: JournalEntry)
    requires -Calendar.MsPerDay <= offset < 0 && e.date == Calendar.MonthStartDay(ym)
    ensures e in MonthEntries([e], ym)
    ensures e !in MonthEntriesAsWritten([e], ym, offset)
    ensures e in MonthEntriesAsWritten([e], Calendar.Prev(ym), offset)
  {
    Calendar.MonthLength(ym);
    Calendar.MonthLength(Calendar.Prev(ym));
    Calendar.NextPrev(ym);
    assert Calendar.DayOf(Calendar.Midnight(e.date) + offset) == e.date - 1;
  }

  /** At UTC or east of it both readings pick the same entries. */
  lemma AsWrittenAgreesEastOfUtc(es: seq<JournalEntry>, ym: Calendar.YearMonth, offset: int)
    requires 0 <= offset < Calendar.MsPerDay
    ensures forall e :: e in MonthEntriesAsWritten(es, ym, offset) <==> e in MonthEntries(es, ym)
  {
    forall e | e in es ensures SameMonthAsWritten(e, ym, offset) <==> Calendar.InMonth(e.date, ym) {
      assert Calendar.DayOf(Calendar.Midnight(e.date) + offset) == e.date;
    }
  }

  /** `eachDayOfInterval` from the start to the end of the month has one day per day of the
      month. */
  lemma MonthDays(ym: Calendar.YearMonth)
    ensures DaysInRange(MonthStart(ym), MonthEnd(ym)) == Calendar.DaysInMonth(ym.year, ym.month)
  {
    Calendar.MonthLength(ym);
    var next := Calendar.MonthStartDay(Calendar.Next(ym));
    assert Calendar.DayOf(MonthEnd(ym)) == next - 1;
    assert Calendar.DayOf(MonthStart(ym)) == Calendar.MonthStartDay(ym);
  }

  // ---- completion and ratings ------------------------------------------------------

  /** An entry with some text under at least one of the five headings. */
  predicate Completed(e: JournalEntry)
  {
    e.howWasYourDay != [] || e.productiveThing != [] || e.learnedToday != [] || e.missedToday != []
    || e.tomorrowPlan != []
  }

  /** `completedDays`: the entries with some heading filled in, never more than the entries. */
  function CompletedDays(ms: seq<JournalEntry>): (n: nat)
    ensures n <= |ms|
    ensures n == 0 <==> forall e :: e in ms ==> !Completed(e)
  {
    var c := Filter(ms, Completed);
    if c != [] then assert c[0] in c; |c| else |c|
  }

  /** `completionRate`: completed days as a percentage of the month's days. */
  function CompletionRate(completed: nat, days: nat): (r: real)
    ensures r >= 0.0
    ensures days > 0 ==> r * days as real == 100.0 * completed as real
  {
    if days > 0 then (completed as real / days as real) * 100.0 else 0.0
  }

  /** With one entry per date a month holds at most as many entries as it has days. */
  lemma MonthAtMostDays(es: seq<JournalEntry>, ym: Calendar.YearMonth)
    requires DatesUnique(es)
    ensures |MonthEntries(es, ym)| <= Calendar.DaysInMonth(ym.year, ym.month)
  {
    RangeAtMostDays(es, MonthStart(ym), MonthEnd(ym));
    MonthDays(ym);
  }

  /** No more completed days than days gives a rate of at most 100%. */
  lemma RateAtMostAll(completed: nat, days: nat)
    requires completed <= days
    ensures CompletionRate(completed, days) <= 100.0
  {
    if days > 0 {
      MeanBetween(completed as real, days as real, 0.0, 1.0);
    }
  }

  /** With one entry per date the completion rate of a month is at most 100%. */
  lemma CompletionAtMostAll(es: seq<JournalEntry>, ym: Calendar.YearMonth)
    requires DatesUnique(es)
    ensures CompletionRate(CompletedDays(MonthEntries(es, ym)), Calendar.DaysInMonth(ym.year, ym.month)) <= 100.0
  {
    MonthAtMostDays(es, ym);
    RateAtMostAll(CompletedDays(MonthEntries(es, ym)), Calendar.DaysInMonth(ym.year, ym.month));
  }

  predicate Rated(e: JournalEntry) { e.dayRating > 0 }

  function RatingSum(rs: seq<JournalEntry>): int
  {
    if rs == [] then 0 else RatingSum(rs[..|rs| - 1]) + rs[|rs| - 1].dayRating
  }

  /** `avgRating`: the mean rating of the rated entries, or 0 when none is rated. */
  function AvgRating(ms: seq<JournalEntry>): (a: real)
    ensures (forall e :: e in ms ==> !Rated(e)) ==> a == 0.0
  {
    var rated := Filter(ms, Rated);
    if |rated| == 0 then 0.0
    else
      assert rated[0] in rated;
      RatingSum(rated) as real / |rated| as real
  }

  lemma {:induction false} RatingSumBounds(rs: seq<JournalEntry>)
    requires forall e :: e in rs ==> 1 <= e.dayRating <= 5
    ensures |rs| <= RatingSum(rs) <= 5 * |rs|
  {
    if rs != [] {
      var p := rs[..|rs| - 1];
      assert forall e :: e in p ==> e in rs;
      assert rs[|rs| - 1] in rs;
      RatingSumBounds(p);
    }
  }

  /** With ratings of at most five stars the average is 0 (nothing rated) or lies between
      1 and 5; unrated entries do not pull it down. */
  lemma AvgRatingBounds(ms: seq<JournalEntry>)
    requires forall e :: e in ms ==> e.dayRating <= 5
    ensures AvgRating(ms) == 0.0 || 1.0 <= AvgRating(ms) <= 5.0
  {
    var rated := Filter(ms, Rated);
    if |rated| > 0 {
      RatingSumBounds(rated);
      MeanBetween(RatingSum(rated) as real, |rated| as real, 1.0, 5.0);
    }
  }

  // ---- words -------------------------------------------------------------------------

  /** `totalWords`: each heading's whitespace-separated tokens, summed over the entries; the
      same as the heading totals of the journal analytics added up. */
  function TotalWords(ms: seq<JournalEntry>): (n: int)
    ensures n == SumOfFive(HeadingTotals(ms))
  {
    TotalWordsByEntry(ms);
    EntryWordsTotal(ms)
  }

  // ---- phone usage ---------------------------------------------------------------------

  /** The first run of digits, `s.match(/(\d+)/)[1]`, or nothing. */
  function FirstDigits(s: string): (d: string)
    ensures AllDigits(d)
    ensures d == [] <==> forall k :: 0 <= k < |s| ==> !IsDigit(s[k])
    ensures d != [] ==> exists i :: FirstRunAt(s, d, i)
  {
    if s == [] then []
    else if IsDigit(s[0]) then
      var d := LeadingDigits(s);
      assert FirstRunAt(s, d, 0);
      d
    else
      var d := FirstDigits(s[1..]);
      TailRun(s, d);
      d
  }

  /** `d` is the digit run starting at `i`, with no digit before it and none right after. */
  predicate FirstRunAt(s: string, d: string, i: int)
  {
    0 <= i <= |s| - |d| && s[i..i + |d|] == d && NoDigitBefore(s, i)
    && (i + |d| == |s| || !IsDigit(s[i + |d|]))
  }

  predicate NoDigitBefore(s: string, i: int)
    requires 0 <= i <= |s|
  {
    forall k :: 0 <= k < i ==> !IsDigit(s[k])
  }

  /** Behind a leading non-digit, the first digit run of the rest is the first of the whole. */
  lemma TailRun(s: string, d: string)
    requires s != [] && !IsDigit(s[0])
    requires d == [] <==> forall k :: 0 <= k < |s[1..]| ==> !IsDigit(s[1..][k])
    requires d != [] ==> exists i :: FirstRunAt(s[1..], d, i)
    ensures d == [] <==> forall k :: 0 <= k < |s| ==> !IsDigit(s[k])
    ensures d != [] ==> exists i :: FirstRunAt(s, d, i)
  {
    var t := s[1..];
    assert forall k :: 1 <= k < |s| ==> s[k] == t[k - 1];
    if d != [] {
      var i :| FirstRunAt(t, d, i);
      assert s[i + 1..i + 1 + |d|] == t[i..i + |d|];
      assert FirstRunAt(s, d, i + 1);
    } else {
      assert forall k :: 0 <= k < |s| ==> !IsDigit(s[k]) by {
        forall k | 0 <= k < |s| ensures !IsDigit(s[k]) {
          if k > 0 {
            assert s[k] == t[k - 1];
          }
        }
      }
    }
  }

  /** The summary's `screenTimeToHours`: the number formed by the first digit run, or 0. */
  function SummaryScreenHours(st: string): (h: int)
    ensures h >= 0
  {
    if st == [] then 0
    else
      var d := FirstDigits(st);
      if d == [] then 0 else DigitsValue(d)
  }

  /** A numeral followed by a non-digit is the leading digit run. */
  lemma {:induction false} LeadingDigitsOfNumeral(ds: string, rest: string)
    requires AllDigits(ds) && (rest == [] || !IsDigit(rest[0]))
    ensures LeadingDigits(ds + rest) == ds
  {
    if ds != [] {
      assert (ds + rest)[1..] == ds[1..] + rest;
      LeadingDigitsOfNumeral(ds[1..], rest);
    }
  }

  /** The form's screen-time labels read as 1 to 12 hours here too: on them both panels
      agree. */
  lemma SummaryScreenOfOption(i: int)
    requires 0 <= i < |ScreenTimeOptions|
    ensures SummaryScreenHours(ScreenTimeOptions[i]) == i + 1
    ensures SummaryScreenHours(ScreenTimeOptions[i]) == JournalAnalytics.ScreenTimeToHours(ScreenTimeOptions[i])
  {
    ScreenTimeOptionIsNumeral(i);
    SummaryScreenOfLabel(i + 1, if i < 11 then "H" else "H+");
    JournalAnalytics.ScreenTimeOfOption(i);
  }

  /** A numeral followed by `H` or `H+` reads as its number. */
  lemma SummaryScreenOfLabel(n: nat, suffix: string)
    requires suffix == "H" || suffix == "H+"
    ensures SummaryScreenHours(NatToString(n) + suffix) == n
  {
    var ds := NatToString(n);
    LeadingDigitsOfNumeral(ds, suffix);
    assert (ds + suffix)[0] == ds[0];
  }

  /** The summary's `socialToMinutes`: 30 for a label holding `30min`, then 90 for `1-2`,
      150 for `2-3` and 200 for `3+`; anything else is 0. */
  function SummarySocialMinutes(sm: string): (m: int)
    ensures m == 0 || m == 30 || m == 90 || m == 150 || m == 200
  {
    if sm == [] then 0
    else if Contains(sm, "30min") then 30
    else if Contains(sm, "1-2") then 90
    else if Contains(sm, "2-3") then 150
    else if Contains(sm, "3+") then 200
    else 0
  }

  /** The form's labels read as 30, 30, 90 and 150 minutes; the last three (3-4H, 4-5H,
      5H+) hold none of the fragments and read as 0. */
  lemma SummarySocialOfOption(i: int)
    requires 0 <= i < |SocialMediaOptions|
    ensures SummarySocialMinutes(SocialMediaOptions[i]) == [30, 30, 90, 150, 0, 0, 0][i]
  {
    if i == 0 { ContainsAt("0-30min", "30min", 2); }
    else if i == 1 { ContainsAt("30min-1H", "30min", 0); }
    else if i == 2 { SummaryOneToTwo(); }
    else if i == 3 { SummaryTwoToThree(); }
    else { SummaryUnread(SocialMediaOptions[i]); }
  }

  lemma SummaryOneToTwo()
    ensures SummarySocialMinutes("1-2H") == 90
  {
    MissingCharNotContained("1-2H", "30min", 2);
    ContainsAt("1-2H", "1-2", 0);
  }

  lemma SummaryTwoToThree()
    ensures SummarySocialMinutes("2-3H") == 150
  {
    var s := "2-3H";
    MissingCharNotContained(s, "30min", 2);
    MissingCharNotContained(s, "1-2", 0);
    ContainsAt(s, "2-3", 0);
  }

  /** `3-4H`, `4-5H` and `5H+` hold none of the fragments. */
  lemma SummaryUnread(s: string)
    requires s == "3-4H" || s == "4-5H" || s == "5H+"
    ensures SummarySocialMinutes(s) == 0
  {
    MissingCharNotContained(s, "30min", 2);
    MissingCharNotContained(s, "1-2", 0);
    MissingCharNotContained(s, "2-3", 0);
    if s == "3-4H" {
      MissingCharNotContained(s, "3+", 1);
    } else {
      MissingCharNotContained(s, "3+", 0);
    }
  }

  function SummaryScreenTotal(rs: seq<JournalEntry>): int
  {
    if rs == [] then 0 else SummaryScreenTotal(rs[..|rs| - 1]) + SummaryScreenHours(rs[|rs| - 1].screenTime)
  }

  function SummarySocialTotal(rs: seq<JournalEntry>): (t: int)
    ensures 0 <= t <= 200 * |rs|
  {
    if rs == [] then 0 else SummarySocialTotal(rs[..|rs| - 1]) + SummarySocialMinutes(rs[|rs| - 1].socialMediaTime)
  }

  /** `avgScreenTime`: the mean hours of the entries that have a screen time, or 0. */
  function SummaryAvgScreenTime(ms: seq<JournalEntry>): (a: real)
    ensures (forall e :: e in ms ==> !JournalAnalytics.HasScreenTime(e)) ==> a == 0.0
  {
    var with := Filter(ms, JournalAnalytics.HasScreenTime);
    if |with| == 0 then 0.0
    else
      assert with[0] in with;
      SummaryScreenTotal(with) as real / |with| as real
  }

  /** `avgSocialMedia`: the mean minutes of the entries that have a social-media time, or 0;
      it never exceeds 200 minutes. */
  function SummaryAvgSocialMedia(ms: seq<JournalEntry>): (a: real)
    ensures (forall e :: e in ms ==> !JournalAnalytics.HasSocialMedia(e)) ==> a == 0.0
  {
    var with := Filter(ms, JournalAnalytics.HasSocialMedia);
    if |with| == 0 then 0.0
    else
      assert with[0] in with;
      SummarySocialTotal(with) as real / |with| as real
  }

  /** The average social-media time of the summary lies between 0 and 200 minutes. */
  lemma SummaryAvgSocialBounds(ms: seq<JournalEntry>)
    ensures 0.0 <= SummaryAvgSocialMedia(ms) <= 200.0
  {
    var with := Filter(ms, JournalAnalytics.HasSocialMedia);
    if |with| > 0 {
      MeanBetween(SummarySocialTotal(with) as real, |with| as real, 0.0, 200.0);
    }
  }

  // ---- best and hardest days -------------------------------------------------------

  function DescendingRating(e: JournalEntry): int { -e.dayRating }
  function Rating(e: JournalEntry): int { e.dayRating }

  /** `bestDay`: the head of the entries sorted by descending rating, if any. */
  function BestDay(ms: seq<JournalEntry>): (b: Option<JournalEntry>)
    ensures b.None? <==> ms == []
  {
    if ms == [] then None else Some(Sorting.SortBy(ms, DescendingRating)[0])
  }

  /** `worstDay`: the head of the rated entries sorted by ascending rating, if any. */
  function WorstDay(ms: seq<JournalEntry>): (w: Option<JournalEntry>)
    ensures w.None? <==> forall e :: e in ms ==> !Rated(e)
  {
    var rated := Filter(ms, Rated);
    if rated == [] then None
    else
      assert rated[0] in rated;
      Some(Sorting.SortBy(rated, Rating)[0])
  }

  /** The best day is the first entry with the highest rating. */
  lemma BestDayIsFirstHighest(ms: seq<JournalEntry>)
    requires ms != []
    ensures exists i :: 0 <= i < |ms| && BestDay(ms) == Some(ms[i]) && HighestRated(ms, i)
  {
    var head := Sorting.SortBy(ms, DescendingRating)[0];
    assert BestDay(ms) == Some(head);
    Sorting.SortByHeadIsFirstMin(ms, DescendingRating);
    var i :| 0 <= i < |ms| && ms[i] == head && Sorting.IsFirstMin(ms, DescendingRating, i);
    HighestRatingAt(ms, i);
  }

  /** Entry i is rated at least as high as every entry, and higher than each before it. */
  predicate HighestRated(rs: seq<JournalEntry>, i: int)
    requires 0 <= i < |rs|
  {
    (forall j :: 0 <= j < |rs| ==> rs[j].dayRating <= rs[i].dayRating)
    && forall j :: 0 <= j < i ==> rs[j].dayRating < rs[i].dayRating
  }

  /** The first entry of least `DescendingRating` is the first of highest rating. */
  lemma HighestRatingAt(rs: seq<JournalEntry>, i: int)
    requires 0 <= i < |rs| && Sorting.IsFirstMin(rs, DescendingRating, i)
    ensures HighestRated(rs, i)
  {
    forall j | 0 <= j < |rs| ensures rs[j].dayRating <= rs[i].dayRating {
      assert DescendingRating(rs[i]) <= DescendingRating(rs[j]);
    }
    forall j | 0 <= j < i ensures rs[j].dayRating < rs[i].dayRating {
      assert DescendingRating(rs[j]) > DescendingRating(rs[i]);
    }
  }

  /** The hardest day is the first rated entry with the lowest rating. */
  lemma WorstDayIsFirstLowestRated(ms: seq<JournalEntry>)
    requires Filter(ms, Rated) != []
    ensures var rated := Filter(ms, Rated);
      exists i :: 0 <= i < |rated| && WorstDay(ms) == Some(rated[i]) && LowestRated(rated, i)
  {
    var rated := Filter(ms, Rated);
    var head := Sorting.SortBy(rated, Rating)[0];
    assert WorstDay(ms) == Some(head);
    LowestFirst(rated);
    var i :| 0 <= i < |rated| && head == rated[i] && LowestRated(rated, i);
  }

  lemma LowestFirst(rs: seq<JournalEntry>)
    requires rs != []
    ensures exists i :: 0 <= i < |rs| && Sorting.SortBy(rs, Rating)[0] == rs[i] && LowestRated(rs, i)
  {
    Sorting.SortByHeadIsFirstMin(rs, Rating);
    var i :| 0 <= i < |rs| && rs[i] == Sorting.SortBy(rs, Rating)[0] && Sorting.IsFirstMin(rs, Rating, i);
    LowestRatingAt(rs, i);
    assert 0 <= i < |rs| && Sorting.SortBy(rs, Rating)[0] == rs[i] && LowestRated(rs, i);
  }

  /** Entry i is rated no higher than any entry, and lower than each before it. */
  predicate LowestRated(rs: seq<JournalEntry>, i: int)
    requires 0 <= i < |rs|
  {
    (forall j :: 0 <= j < |rs| ==> rs[i].dayRating <= rs[j].dayRating)
    && forall j :: 0 <= j < i ==> rs[j].dayRating > rs[i].dayRating
  }

  /** The first entry of least `Rating` is the first of least rating. */
  lemma LowestRatingAt(rs: seq<JournalEntry>, i: int)
    requires 0 <= i < |rs| && Sorting.IsFirstMin(rs, Rating, i)
    ensures LowestRated(rs, i)
  {
    forall j | 0 <= j < |rs| ensures rs[i].dayRating <= rs[j].dayRating {
      assert Rating(rs[i]) <= Rating(rs[j]);
    }
    forall j | 0 <= j < i ensures rs[j].dayRating > rs[i].dayRating {
      assert Rating(rs[j]) > Rating(rs[i]);
    }
  }

  /** The hardest day is a rated entry of the month, rated no higher than any other. */
  lemma WorstDayIsLowestRated(ms: seq<JournalEntry>, e: JournalEntry)
    requires e in ms && Rated(e)
    ensures WorstDay(ms).Some? && WorstDay(ms).value in ms && Rated(WorstDay(ms).value)
    ensures WorstDay(ms).value.dayRating <= e.dayRating
  {
    var rated := Filter(ms, Rated);
    assert e in rated;
    WorstDayIsFirstLowestRated(ms);
    var i :| 0 <= i < |rated| && WorstDay(ms) == Some(rated[i]) && LowestRated(rated, i);
    assert rated[i] in rated;
    AtMostMember(rated, i, e);
  }

  /** An entry rated no higher than every entry of a list is rated no higher than any
      member of it. */
  lemma AtMostMember(rated: seq<JournalEntry>, i: int, e: JournalEntry)
    requires 0 <= i < |rated| && e in rated && LowestRated(rated, i)
    ensures rated[i].dayRating <= e.dayRating
  {
    var j :| 0 <= j < |rated| && rated[j] == e;
  }

  // ---- the summary ------------------------------------------------------------------

  datatype MonthlyStats = MonthlyStats(
    completionRate: real, avgRating: real, totalWords: int, avgScreenTime: real,
    avgSocialMedia: real, totalEntries: nat, daysInMonth: nat,
    bestDay: Option<JournalEntry>, worstDay: Option<JournalEntry>)

  /** `monthlyStats` for the month ym, each date read as local midnight. */
  function Summary(es: seq<JournalEntry>, ym: Calendar.YearMonth): (s: MonthlyStats)
    ensures s.totalEntries == |MonthEntries(es, ym)| && s.daysInMonth == Calendar.DaysInMonth(ym.year, ym.month)
    ensures s.totalEntries == 0 <==> s.bestDay.None?
  {
    var ms := MonthEntries(es, ym);
    var days := Calendar.DaysInMonth(ym.year, ym.month);
    var completed := CompletedDays(ms);
    MonthlyStats(CompletionRate(completed, days), AvgRating(ms), TotalWords(ms),
                 SummaryAvgScreenTime(ms), SummaryAvgSocialMedia(ms), |ms|, days,
                 BestDay(ms), WorstDay(ms))
  }

  /** With one entry per date and ratings of at most five stars, every figure of the
      summary lies in its range. */
  lemma SummaryBounds(es: seq<JournalEntry>, ym: Calendar.YearMonth)
    requires DatesUnique(es)
    requires forall e :: e in es ==> e.dayRating <= 5
    ensures var s := Summary(es, ym);
      0.0 <= s.completionRate <= 100.0
      && (s.avgRating == 0.0 || 1.0 <= s.avgRating <= 5.0)
      && 0.0 <= s.avgSocialMedia <= 200.0
      && s.totalEntries <= s.daysInMonth
  {
    var ms := MonthEntries(es, ym);
    CompletionAtMostAll(es, ym);
    AvgRatingBounds(ms);
    SummaryAvgSocialBounds(ms);
    MonthAtMostDays(es, ym);
  }
}
