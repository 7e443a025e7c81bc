// The journal store: one entry per date with five free-text headings, phone-usage labels
// and a rating; lookup and upsert by date, word counts, and the analytics over a range.

module Journal {
  import opened Common
  import opened Text
  import Calendar
  import Sorting
  import Habits

  /** A journal entry; `date` is the entry's day number and the two stamps are instants. */
  datatype JournalEntry = JournalEntry(
    id: string,
    date: int,
    howWasYourDay: string,
    productiveThing: string,
    learnedToday: string,
    missedToday: string,
    tomorrowPlan: string,
    screenTime: string,
    dayRating: int,
    socialMediaTime: string,
    firstPickupTime: string,
    createdAt: int,
    updatedAt: int)

  /** The text fields an update may set. */
  datatype TextField =
    | HowWasYourDay | ProductiveThing | LearnedToday | MissedToday | TomorrowPlan
    | ScreenTime | SocialMediaTime | FirstPickupTime

  /** The five headings, in the order the analytics count them. */
  const Headings: seq<TextField> := [HowWasYourDay, ProductiveThing, LearnedToday, MissedToday, TomorrowPlan]

  function FieldText(e: JournalEntry, f: TextField): string
  {
    match f
    case HowWasYourDay => e.howWasYourDay
    case ProductiveThing => e.productiveThing
    case LearnedToday => e.learnedToday
    case MissedToday => e.missedToday
    case TomorrowPlan => e.tomorrowPlan
    case ScreenTime => e.screenTime
    case SocialMediaTime => e.socialMediaTime
    case FirstPickupTime => e.firstPickupTime
  }

  /** The labels the entry form offers for screen time, social-media time and first pickup. */
  const ScreenTimeOptions: seq<string> :=
    ["1H", "2H", "3H", "4H", "5H", "6H", "7H", "8H", "9H", "10H", "11H", "12H+"]
  const SocialMediaOptions: seq<string> := ["0-30min", "30min-1H", "1-2H", "2-3H", "3-4H", "4-5H", "5H+"]
  const TimeOfDayOptions: seq<string> := [
    "5:00 AM", "6:00 AM", "7:00 AM", "8:00 AM", "9:00 AM", "10:00 AM", "11:00 AM", "12:00 PM",
    "1:00 PM", "2:00 PM", "3:00 PM", "4:00 PM", "5:00 PM", "6:00 PM", "7:00 PM", "8:00 PM",
    "9:00 PM", "10:00 PM", "11:00 PM", "12:00 AM", "1:00 AM", "2:00 AM"]

  /** The screen-time labels are the numerals 1 to 12 followed by `H`, the last by `H+`. */
  lemma ScreenTimeOptionIsNumeral(i: int)
    requires 0 <= i < |ScreenTimeOptions|
    ensures ScreenTimeOptions[i] == NatToString(i + 1) + (if i < 11 then "H" else "H+")
  {
    var n := i + 1;
    assert n < 10 ==> NatToString(n) == [DigitChar(n)];
    assert n >= 10 ==> NatToString(n) == [DigitChar(1), DigitChar(n % 10)];
  }

  /** A partial update: the text fields it sets and, perhaps, a rating. */
  datatype EntryUpdate = EntryUpdate(texts: map<TextField, string>, dayRating: Option<int>)

  function Pick(u: EntryUpdate, f: TextField, current: string): string
  {
    if f in u.texts then u.texts[f] else current
  }

  /** `{ ...e, ...updates }`: every field the update names is replaced, nothing else. */
  function Apply(e: JournalEntry, u: EntryUpdate): (r: JournalEntry)
    ensures forall f :: FieldText(r, f) == if f in u.texts then u.texts[f] else FieldText(e, f)
    ensures r.dayRating == if u.dayRating.Some? then u.dayRating.value else e.dayRating
    ensures r.id == e.id && r.date == e.date && r.createdAt == e.createdAt && r.updatedAt == e.updatedAt
  {
    e.(howWasYourDay := Pick(u, HowWasYourDay, e.howWasYourDay),
       productiveThing := Pick(u, ProductiveThing, e.productiveThing),
       learnedToday := Pick(u, LearnedToday, e.learnedToday),
       missedToday := Pick(u, MissedToday, e.missedToday),
       tomorrowPlan := Pick(u, TomorrowPlan, e.tomorrowPlan),
       screenTime := Pick(u, ScreenTime, e.screenTime),
       socialMediaTime := Pick(u, SocialMediaTime, e.socialMediaTime),
       firstPickupTime := Pick(u, FirstPickupTime, e.firstPickupTime),
       dayRating := if u.dayRating.Some? then u.dayRating.value else e.dayRating)
  }

  /** The entry created for a day that has none: every text empty, rating 0. */
  function Blank(id: string, date: int, now: int): (e: JournalEntry)
    ensures e.date == date && e.dayRating == 0 && forall f :: FieldText(e, f) == ""
  {
    JournalEntry(id, date, "", "", "", "", "", "", 0, "", "", now, now)
  }

  // ---- lookup and upsert ---------------------------------------------------

  predicate HasDate(es: seq<JournalEntry>, date: int)
  {
    exists i :: 0 <= i < |es| && es[i].date == date
  }

  /** `entries.find(e => e.date === dateStr)`: the first entry of that date. */
  function EntryByDate(es: seq<JournalEntry>, date: int): (r: Option<JournalEntry>)
    ensures r.None? <==> !HasDate(es, date)
    ensures r.Some? ==> exists i :: (0 <= i < |es| && es[i] == r.value && es[i].date == date
      && forall j :: 0 <= j < i ==> es[j].date != date)
  {
    if es == [] then None
    else if es[0].date == date then Some(es[0])
    else
      var r := EntryByDate(es[1..], date);
      assert forall i :: 1 <= i < |es| ==> es[i] == es[1..][i - 1];
      assert HasDate(es, date) ==> HasDate(es[1..], date) by {
        if HasDate(es, date) {
          var i :| 0 <= i < |es| && es[i].date == date;
          assert es[1..][i - 1].date == date;
        }
      }
      r
  }

  /** `getEntryByDate(date)`: the date is taken in local time. */
  function GetEntryByDate(es: seq<JournalEntry>, t: int): Option<JournalEntry>
  {
    EntryByDate(es, Calendar.DayOf(t))
  }

  /** No two entries share a date. */
  predicate DatesUnique(es: seq<JournalEntry>)
  {
    forall i, j :: 0 <= i < j < |es| ==> es[i].date != es[j].date
  }

  /** What `createOrUpdateEntry` leaves: the entries of that date get the update and the new
      stamp; without one, a blank entry with the update is appended. */
  function Upsert(es: seq<JournalEntry>, date: int, u: EntryUpdate, newId: string, now: int): seq<JournalEntry>
  {
    if HasDate(es, date) then
      seq(|es|, i requires 0 <= i < |es| => if es[i].date == date then Apply(es[i], u).(updatedAt := now) else es[i])
    else es + [Apply(Blank(newId, date, now), u)]
  }

  /** The number of entries grows by one exactly when the date had none. */
  lemma UpsertLength(es: seq<JournalEntry>, date: int, u: EntryUpdate, newId: string, now: int)
    ensures |Upsert(es, date, u, newId, now)| == |es| + (if HasDate(es, date) then 0 else 1)
  {
  }

  /** Upserting keeps every other entry in place and keeps dates unique. */
  lemma UpsertFrame(es: seq<JournalEntry>, date: int, u: EntryUpdate, newId: string, now: int)
    ensures var r := Upsert(es, date, u, newId, now);
      |es| <= |r| && forall i :: 0 <= i < |es| && es[i].date != date ==> r[i] == es[i]
    ensures DatesUnique(es) ==> DatesUnique(Upsert(es, date, u, newId, now))
  {
    var r := Upsert(es, date, u, newId, now);
    if DatesUnique(es) && !HasDate(es, date) {
      forall i, j | 0 <= i < j < |r| ensures r[i].date != r[j].date {
        if j == |es| {
          assert r[i] == es[i];
        }
      }
    }
  }

  /** Afterwards the date's entry carries the update: on the old entry when there was one,
      on a blank entry otherwise. */
  lemma UpsertFinds(es: seq<JournalEntry>, date: int, u: EntryUpdate, newId: string, now: int)
    requires DatesUnique(es)
    ensures var r := Upsert(es, date, u, newId, now);
      match EntryByDate(es, date)
      case Some(e) => EntryByDate(r, date) == Some(Apply(e, u).(updatedAt := now))
      case None => EntryByDate(r, date) == Some(Apply(Blank(newId, date, now), u))
  {
    var r := Upsert(es, date, u, newId, now);
    match EntryByDate(es, date)
    case Some(e) =>
      var i :| 0 <= i < |es| && es[i] == e && es[i].date == date && forall j :: 0 <= j < i ==> es[j].date != date;
      FirstDateIs(r, date, i);
    case None =>
      forall j | 0 <= j < |es| ensures r[j].date != date {
        assert r[j] == es[j];
      }
      FirstDateIs(r, date, |es|);
  }

  lemma FirstDateIs(es: seq<JournalEntry>, date: int, i: int)
    requires 0 <= i < |es| && es[i].date == date && forall j :: 0 <= j < i ==> es[j].date != date
    ensures EntryByDate(es, date) == Some(es[i])
  {
    var r := EntryByDate(es, date);
    var k :| 0 <= k < |es| && es[k] == r.value && es[k].date == date && forall j :: 0 <= j < k ==> es[j].date != date;
    assert k == i;
  }

  /** One field changed through the editor: `updateField(date, field, value)`. */
  datatype FieldUpdate = SetText(field: TextField, value: string) | SetRating(rating: int)

  function UpdateOf(f: FieldUpdate): (u: EntryUpdate)
    ensures f.SetText? ==> u.texts == map[f.field := f.value] && u.dayRating.None?
    ensures f.SetRating? ==> u.texts == map[] && u.dayRating == Some(f.rating)
  {
    match f
    case SetText(field, value) => EntryUpdate(map[field := value], None)
    case SetRating(r) => EntryUpdate(map[], Some(r))
  }

  /** The entries the journal holds; the browser storage behind them is not modelled. */
  class JournalStore {
    var entries: seq<JournalEntry>

    predicate Valid()
      reads this
    {
      DatesUnique(entries)
    }

    constructor(stored: seq<JournalEntry>)
      ensures entries == stored
    {
      entries := stored;
    }

    /** `createOrUpdateEntry(date, updates)`; the fresh id and the clock are parameters. */
    method CreateOrUpdateEntry(t: int, u: EntryUpdate, newId: string, now: int)
      modifies this
      ensures entries == Upsert(old(entries), Calendar.DayOf(t), u, newId, now)
      ensures old(Valid()) ==> Valid()
    {
      var date := Calendar.DayOf(t);
      UpsertFrame(entries, date, u, newId, now);
      var es := entries;
      if EntryByDate(es, date).Some? {
        entries := seq(|es|, i requires 0 <= i < |es| =>
          if es[i].date == date then Apply(es[i], u).(updatedAt := now) else es[i]);
      } else {
        entries := entries + [Apply(Blank(newId, date, now), u)];
      }
    }

    /** `updateField(date, field, value)`. */
    method UpdateField(t: int, f: FieldUpdate, newId: string, now: int)
      modifies this
      ensures entries == Upsert(old(entries), Calendar.DayOf(t), UpdateOf(f), newId, now)
      ensures old(Valid()) ==> Valid()
    {
      CreateOrUpdateEntry(t, UpdateOf(f), newId, now);
    }
  }

  // ---- word counts ---------------------------------------------------------

  /** The number of maximal runs of non-whitespace in a text. */
  function WordCount(text: string): int
  {
    |Words(text)|
  }

  /** `getWordCount(text)` as the source computes it: 0 for a blank text, else the pieces of
      the trimmed text split at whitespace runs. That is the word count above, and it is 0
      exactly for a blank text. */
  lemma GetWordCountIsWordCount(text: string)
    ensures (if Trim(text) == [] then 0 else |Words(Trim(text))|) == WordCount(text)
    ensures WordCount(text) == 0 <==> AllSpace(text)
  {
    WordsOfTrim(text);
    BlankIffAllSpace(text);
    NoWordsIffAllSpace(text);
  }

  // ---- the range -----------------------------------------------------------

  /** `isWithinInterval(parseISO(entry.date), { start, end })`: the entry's local midnight lies
      between the two instants, both included. */
  predicate InRange(e: JournalEntry, start: int, end: int)
  {
    start <= Calendar.Midnight(e.date) <= end
  }

  /** `getEntriesInRange(start, end)`. */
  function EntriesInRange(es: seq<JournalEntry>, start: int, end: int): (r: seq<JournalEntry>)
    ensures |r| <= |es|
    ensures forall e :: e in r <==> e in es && InRange(e, start, end)
  {
    if es == [] then []
    else (if InRange(es[0], start, end) then [es[0]] else []) + EntriesInRange(es[1..], start, end)
  }

  /** The range keeps the stored order: the range of a concatenation is the concatenation
      of the ranges, and a single entry is kept exactly when it is in the range. */
  lemma {:induction false} EntriesInRangeConcat(a: seq<JournalEntry>, b: seq<JournalEntry>, start: int, end: int)
    ensures EntriesInRange(a + b, start, end) == EntriesInRange(a, start, end) + EntriesInRange(b, start, end)
    ensures forall e :: EntriesInRange([e], start, end) == if InRange(e, start, end) then [e] else []
  {
    if a != [] {
      var x, a' := a[0], a[1..];
      var keep := if InRange(x, start, end) then [x] else [];
      assert a == [x] + a';
      AppendAssoc([x], a', b);
      EntriesInRangeCons(x, a' + b, start, end);
      EntriesInRangeCons(x, a', start, end);
      EntriesInRangeConcat(a', b, start, end);
      AppendAssoc(keep, EntriesInRange(a', start, end), EntriesInRange(b, start, end));
    } else {
      assert a + b == b;
    }
    forall e ensures EntriesInRange([e], start, end) == if InRange(e, start, end) then [e] else [] {
      assert [e] + [] == [e];
      EntriesInRangeCons(e, [], start, end);
    }
  }

  /** One step of the range: an entry in front is kept exactly when it is in the range. */
  lemma EntriesInRangeCons(x: JournalEntry, s: seq<JournalEntry>, start: int, end: int)
    ensures EntriesInRange([x] + s, start, end)
      == (if InRange(x, start, end) then [x] else []) + EntriesInRange(s, start, end)
  {
    var t := [x] + s;
    assert t[0] == x && t[1..] == s;
  }

  lemma {:induction false} RangeKeepsDatesUnique(es: seq<JournalEntry>, start: int, end: int)
    requires DatesUnique(es)
    ensures DatesUnique(EntriesInRange(es, start, end))
  {
    if es != [] {
      assert DatesUnique(es[1..]) by {
        forall i, j | 0 <= i < j < |es| - 1 ensures es[1..][i].date != es[1..][j].date {
          assert es[1..][i] == es[i + 1] && es[1..][j] == es[j + 1];
        }
      }
      RangeKeepsDatesUnique(es[1..], start, end);
      var rest := EntriesInRange(es[1..], start, end);
      forall k | 0 <= k < |rest| ensures rest[k].date != es[0].date {
        assert rest[k] in es[1..];
      }
    }
  }

  /** `eachDayOfInterval({ start, end }).length`. */
  function DaysInRange(start: int, end: int): (n: int)
    ensures n >= 0
  {
    var d := Calendar.DayOf(end) - Calendar.DayOf(start) + 1;
    if d > 0 then d else 0
  }

  /** With one entry per date, a range never holds more entries than it has days. */
  lemma RangeAtMostDays(es: seq<JournalEntry>, start: int, end: int)
    requires DatesUnique(es)
    ensures |EntriesInRange(es, start, end)| <= DaysInRange(start, end)
  {
    var r := EntriesInRange(es, start, end);
    RangeKeepsDatesUnique(es, start, end);
    var ds := seq(|r|, i requires 0 <= i < |r| => r[i].date);
    var lo, hi := Calendar.DayOf(start), Calendar.DayOf(end);
    forall k | 0 <= k < |ds| ensures lo <= ds[k] <= hi {
      assert r[k] in r;
      assert InRange(r[k], start, end);
      assert Calendar.Midnight(lo) <= start <= Calendar.Midnight(ds[k]);
      assert Calendar.Midnight(ds[k]) <= end < Calendar.Midnight(hi) + Calendar.MsPerDay;
    }
    Habits.DistinctInRange(ds, lo, hi);
  }

  // ---- analytics -----------------------------------------------------------

  function HeadingWords(e: JournalEntry, k: int): int
    requires 0 <= k < 5
  {
    WordCount(FieldText(e, Headings[k]))
  }

  /** The words an entry holds under all five headings: its `dailyWordCounts` value. */
  function EntryWords(e: JournalEntry): int
  {
    HeadingWords(e, 0) + HeadingWords(e, 1) + HeadingWords(e, 2) + HeadingWords(e, 3) + HeadingWords(e, 4)
  }

  /** The words written under heading k across the entries. */
  function HeadingTotal(es: seq<JournalEntry>, k: int): int
    requires 0 <= k < 5
  {
    if es == [] then 0 else HeadingTotal(es[..|es| - 1], k) + HeadingWords(es[|es| - 1], k)
  }

  function SumOfFive(c: seq<int>): int
    requires |c| == 5
  {
    c[0] + c[1] + c[2] + c[3] + c[4]
  }

  function EntryWordsTotal(es: seq<JournalEntry>): int
  {
    if es == [] then 0 else EntryWordsTotal(es[..|es| - 1]) + EntryWords(es[|es| - 1])
  }

  function HeadingTotals(es: seq<JournalEntry>): (c: seq<int>)
    ensures |c| == 5 && forall k :: 0 <= k < 5 ==> c[k] == HeadingTotal(es, k)
  {
    seq(5, k requires 0 <= k < 5 => HeadingTotal(es, k))
  }

  /** The words summed per heading are the words summed per entry. */
  lemma {:induction false} TotalWordsByEntry(es: seq<JournalEntry>)
    ensures SumOfFive(HeadingTotals(es)) == EntryWordsTotal(es)
  {
    if es != [] {
      TotalWordsByEntry(es[..|es| - 1]);
    }
  }

  function RatingTotal(es: seq<JournalEntry>): int
  {
    if es == [] then 0
    else RatingTotal(es[..|es| - 1]) + (if es[|es| - 1].dayRating > 0 then es[|es| - 1].dayRating else 0)
  }

  function RatedCount(es: seq<JournalEntry>): (n: int)
    ensures 0 <= n <= |es|
  {
    if es == [] then 0 else RatedCount(es[..|es| - 1]) + (if es[|es| - 1].dayRating > 0 then 1 else 0)
  }

  /** The entries rated exactly r. */
  function RatingCount(es: seq<JournalEntry>, r: int): (n: int)
    ensures 0 <= n <= |es|
  {
    if es == [] then 0 else RatingCount(es[..|es| - 1], r) + (if es[|es| - 1].dayRating == r then 1 else 0)
  }

  predicate RatingsInScale(es: seq<JournalEntry>)
  {
    forall i :: 0 <= i < |es| ==> 0 <= es[i].dayRating <= 5
  }

  /** With ratings from 0 to 5, the five rating slots together count the rated entries. */
  lemma {:induction false} DistributionCountsRated(es: seq<JournalEntry>)
    requires RatingsInScale(es)
    ensures RatingCount(es, 1) + RatingCount(es, 2) + RatingCount(es, 3) + RatingCount(es, 4)
      + RatingCount(es, 5) == RatedCount(es)
  {
    if es != [] {
      var p := es[..|es| - 1];
      assert forall i :: 0 <= i < |p| ==> p[i] == es[i];
      DistributionCountsRated(p);
    }
  }

  /** `ratingDistribution`: slot r counts the entries rated r, slot 0 stays 0. */
  function Distribution(es: seq<JournalEntry>): (d: seq<int>)
    ensures |d| == 6 && d[0] == 0 && forall r :: 1 <= r <= 5 ==> d[r] == RatingCount(es, r)
  {
    [0, RatingCount(es, 1), RatingCount(es, 2), RatingCount(es, 3), RatingCount(es, 4), RatingCount(es, 5)]
  }

  /** The entries with that screen-time label. */
  function ScreenCount(es: seq<JournalEntry>, name: string): (n: int)
    ensures 0 <= n <= |es|
  {
    if es == [] then 0 else ScreenCount(es[..|es| - 1], name) + (if es[|es| - 1].screenTime == name then 1 else 0)
  }

  /** `screenTimeData[s] = (screenTimeData[s] || 0) + 1` for a non-empty label. */
  function Bump(m: map<string, int>, s: string): map<string, int>
  {
    if s != "" then m[s := (if s in m then m[s] else 0) + 1] else m
  }

  /** `screenTimeData`, built entry by entry. */
  function ScreenTally(es: seq<JournalEntry>): map<string, int>
  {
    if es == [] then map[] else Bump(ScreenTally(es[..|es| - 1]), es[|es| - 1].screenTime)
  }

  /** `ratingDistribution[r]++`; a rating outside 1 to 5 has no slot and changes nothing. */
  function Tick(d: seq<int>, r: int): seq<int>
  {
    if 0 < r <= 5 && r < |d| then d[r := d[r] + 1] else d
  }

  /** The tally holds each non-empty label in use, with the number of entries using it. */
  lemma {:induction false} ScreenTallyCounts(es: seq<JournalEntry>)
    ensures forall s :: s in ScreenTally(es) <==> s != "" && ScreenCount(es, s) > 0
    ensures forall s :: s in ScreenTally(es) ==> ScreenTally(es)[s] == ScreenCount(es, s)
  {
    if es != [] {
      ScreenTallyCounts(es[..|es| - 1]);
    }
  }

  datatype HeadingRank = HeadingRank(key: TextField, count: int, percentage: real)

  datatype DayWordCount = DayWordCount(date: int, words: int)

  datatype Analytics = Analytics(
    totalEntries: int,
    totalWords: int,
    avgWordsPerEntry: int,
    avgRating: real,
    completionRate: int,
    headingWordCounts: seq<int>,
    headingRanks: seq<HeadingRank>,
    screenTimeData: map<string, int>,
    dailyWordCounts: seq<DayWordCount>,
    ratingDistribution: seq<int>)

  function RankOf(k: int, counts: seq<int>, total: int): HeadingRank
    requires 0 <= k < 5 && |counts| == 5
  {
    HeadingRank(Headings[k], counts[k], if total > 0 then counts[k] as real / total as real * 100.0 else 0.0)
  }

  function ByCountDescending(r: HeadingRank): int { -r.count }

  /** `headingRanks`: the headings with their counts and shares, most words first. */
  function Ranks(counts: seq<int>, total: int): (r: seq<HeadingRank>)
    requires |counts| == 5
    ensures |r| == 5
    ensures forall i, j :: 0 <= i < j < 5 ==> r[i].count >= r[j].count
    ensures multiset(r) == multiset(seq(5, k requires 0 <= k < 5 => RankOf(k, counts, total)))
  {
    var r := Sorting.SortBy(seq(5, k requires 0 <= k < 5 => RankOf(k, counts, total)), ByCountDescending);
    assert |multiset(r)| == 5;
    assert forall i, j :: 0 <= i < j < |r| ==> ByCountDescending(r[i]) <= ByCountDescending(r[j]);
    r
  }

  /** Every heading appears in the ranking exactly once. */
  lemma RanksHoldEveryHeading(counts: seq<int>, total: int)
    requires |counts| == 5
    ensures forall k :: 0 <= k < 5 ==> exists i :: 0 <= i < 5 && Ranks(counts, total)[i].key == Headings[k]
  {
    var r := Ranks(counts, total);
    var u := seq(5, k requires 0 <= k < 5 => RankOf(k, counts, total));
    forall k | 0 <= k < 5 ensures exists i :: 0 <= i < 5 && r[i].key == Headings[k] {
      assert u[k] in multiset(u);
      assert u[k] in r;
    }
  }

  /** `Math.round(x * 10) / 10`: the nearest tenth, halves rounded up. */
  function RoundTenth(x: real): (r: real)
    ensures x - 0.05 < r <= x + 0.05
    ensures (r * 10.0).Floor as real == r * 10.0
  {
    var n := Round(x * 10.0);
    n as real / 10.0
  }

  /** The analytics of a range as a function of the entries in it. */
  function AnalyticsOf(rs: seq<JournalEntry>, start: int, end: int): Analytics
  {
    var counts := HeadingTotals(rs);
    var total := SumOfFive(counts);
    var rated := RatedCount(rs);
    Analytics(
      |rs|,
      total,
      if |rs| > 0 then RoundDiv(total, |rs|) else 0,
      RoundTenth(if rated > 0 then RatingTotal(rs) as real / rated as real else 0.0),
      Percent(|rs|, DaysInRange(start, end)),
      counts,
      Ranks(counts, total),
      ScreenTally(rs),
      Daily(rs),
      Distribution(rs))
  }

  lemma {:induction false} TotalsNonNegative(rs: seq<JournalEntry>, k: int)
    requires 0 <= k < 5
    ensures HeadingTotal(rs, k) >= 0
  {
    if rs != [] {
      TotalsNonNegative(rs[..|rs| - 1], k);
    }
  }

  /** The daily word counts of the entries, in order. */
  function Daily(rs: seq<JournalEntry>): (d: seq<DayWordCount>)
    ensures |d| == |rs|
  {
    if rs == [] then [] else Daily(rs[..|rs| - 1]) + [DayWordCount(rs[|rs| - 1].date, EntryWords(rs[|rs| - 1]))]
  }

  /** One record per entry, in order, with that entry's date and words. */
  lemma {:induction false} DailyRecords(rs: seq<JournalEntry>)
    ensures forall i :: 0 <= i < |rs| ==> Daily(rs)[i] == DayWordCount(rs[i].date, EntryWords(rs[i]))
  {
    if rs != [] {
      var p := rs[..|rs| - 1];
      DailyRecords(p);
      forall i | 0 <= i < |p| ensures Daily(rs)[i] == DayWordCount(rs[i].date, EntryWords(rs[i])) {
        assert rs[i] == p[i];
      }
    }
  }

  /** How each count moves when the pass takes one more entry. */
  lemma CountsStep(rs: seq<JournalEntry>, i: int)
    requires 0 <= i < |rs|
    ensures forall k :: 0 <= k < 5 ==> HeadingTotal(rs[..i + 1], k) == HeadingTotal(rs[..i], k) + HeadingWords(rs[i], k)
  {
    assert rs[..i + 1][..i] == rs[..i];
  }

  lemma RatingStep(rs: seq<JournalEntry>, i: int)
    requires 0 <= i < |rs|
    ensures RatingTotal(rs[..i + 1]) == RatingTotal(rs[..i]) + (if rs[i].dayRating > 0 then rs[i].dayRating else 0)
    ensures RatedCount(rs[..i + 1]) == RatedCount(rs[..i]) + (if rs[i].dayRating > 0 then 1 else 0)
    ensures Distribution(rs[..i + 1]) == Tick(Distribution(rs[..i]), rs[i].dayRating)
  {
    assert rs[..i + 1][..i] == rs[..i];
  }

  lemma ScreenStep(rs: seq<JournalEntry>, i: int)
    requires 0 <= i < |rs|
    ensures ScreenTally(rs[..i + 1]) == Bump(ScreenTally(rs[..i]), rs[i].screenTime)
  {
    assert rs[..i + 1][..i] == rs[..i];
  }

  lemma DailyStep(rs: seq<JournalEntry>, i: int)
    requires 0 <= i < |rs|
    ensures Daily(rs[..i + 1]) == Daily(rs[..i]) + [DayWordCount(rs[i].date, EntryWords(rs[i]))]
  {
    assert rs[..i + 1][..i] == rs[..i];
  }

  /** The tallies of the first i entries. */
  predicate TalliedUpTo(rs: seq<JournalEntry>, i: int, counts: seq<int>, totalRating: int, ratedDays: int,
                        screen: map<string, int>, daily: seq<DayWordCount>, dist: seq<int>)
    requires 0 <= i <= |rs|
  {
    && |counts| == 5 && (forall k :: 0 <= k < 5 ==> counts[k] == HeadingTotal(rs[..i], k))
    && totalRating == RatingTotal(rs[..i]) && ratedDays == RatedCount(rs[..i])
    && dist == Distribution(rs[..i]) && screen == ScreenTally(rs[..i]) && daily == Daily(rs[..i])
  }

  /** One turn of the `forEach`: entry i joins every tally. */
  method Absorb(rs: seq<JournalEntry>, i: int, counts: seq<int>, totalRating: int, ratedDays: int,
                screen: map<string, int>, daily: seq<DayWordCount>, dist: seq<int>)
    returns (counts': seq<int>, totalRating': int, ratedDays': int,
             screen': map<string, int>, daily': seq<DayWordCount>, dist': seq<int>)
    requires 0 <= i < |rs| && TalliedUpTo(rs, i, counts, totalRating, ratedDays, screen, daily, dist)
    ensures TalliedUpTo(rs, i + 1, counts', totalRating', ratedDays', screen', daily', dist')
  {
    var e := rs[i];
    CountsStep(rs, i);
    RatingStep(rs, i);
    ScreenStep(rs, i);
    DailyStep(rs, i);
    counts' := seq(5, k requires 0 <= k < 5 => counts[k] + HeadingWords(e, k));
    daily' := daily + [DayWordCount(e.date, EntryWords(e))];
    totalRating', ratedDays', dist' := totalRating, ratedDays, dist;
    if e.dayRating > 0 {
      totalRating' := totalRating + e.dayRating;
      ratedDays' := ratedDays + 1;
      dist' := Tick(dist, e.dayRating);
    }
    screen' := Bump(screen, e.screenTime);
  }

  /** The `forEach` over the range entries. */
  method Pass(rs: seq<JournalEntry>)
    returns (counts: seq<int>, totalRating: int, ratedDays: int, screen: map<string, int>,
             daily: seq<DayWordCount>, dist: seq<int>)
    ensures |counts| == 5 && forall k :: 0 <= k < 5 ==> counts[k] == HeadingTotal(rs, k)
    ensures totalRating == RatingTotal(rs) && ratedDays == RatedCount(rs)
    ensures dist == Distribution(rs) && screen == ScreenTally(rs) && daily == Daily(rs)
  {
    counts := [0, 0, 0, 0, 0];
    totalRating, ratedDays := 0, 0;
    screen := map[];
    daily := [];
    dist := [0, 0, 0, 0, 0, 0];
    var i := 0;
    assert rs[..0] == [];
    while i < |rs|
      invariant 0 <= i <= |rs|
      invariant TalliedUpTo(rs, i, counts, totalRating, ratedDays, screen, daily, dist)
    {
      counts, totalRating, ratedDays, screen, daily, dist :=
        Absorb(rs, i, counts, totalRating, ratedDays, screen, daily, dist);
      i := i + 1;
    }
    assert rs[..|rs|] == rs;
  }

  /** `getAnalytics(start, end)`. */
  method GetAnalytics(es: seq<JournalEntry>, start: int, end: int) returns (a: Analytics)
    ensures a == AnalyticsOf(EntriesInRange(es, start, end), start, end)
  {
    var rs := EntriesInRange(es, start, end);
    var counts, totalRating, ratedDays, screen, daily, dist := Pass(rs);
    assert counts == HeadingTotals(rs);
    var total := SumOfFive(counts);
    var avgWords := if |rs| > 0 then RoundDiv(total, |rs|) else 0;
    var avgRating := RoundTenth(if ratedDays > 0 then totalRating as real / ratedDays as real else 0.0);
    a := Analytics(|rs|, total, avgWords, avgRating, Percent(|rs|, DaysInRange(start, end)),
      counts, Ranks(counts, total), screen, daily, dist);
  }

  /** What can be said about every analytics result: the total is the sum of the daily word
      counts, the rating slots add up to the rated entries, and with one entry per date the
      completion rate lies between 0 and 100. */
  lemma AnalyticsFacts(es: seq<JournalEntry>, start: int, end: int)
    requires DatesUnique(es)
    ensures var rs := EntriesInRange(es, start, end); var a := AnalyticsOf(rs, start, end);
      a.totalWords == EntryWordsTotal(rs)
      && a.totalEntries <= DaysInRange(start, end)
      && 0 <= a.completionRate <= 100
      && (RatingsInScale(rs) ==>
            a.ratingDistribution[1] + a.ratingDistribution[2] + a.ratingDistribution[3]
            + a.ratingDistribution[4] + a.ratingDistribution[5] == RatedCount(rs))
  {
    var rs := EntriesInRange(es, start, end);
    TotalWordsByEntry(rs);
    RangeAtMostDays(es, start, end);
    PercentBounds(|rs|, DaysInRange(start, end));
    if RatingsInScale(rs) {
      DistributionCountsRated(rs);
    }
  }
}
