// Digital-detox challenges: the label parsers behind the completion rule, the streak
// recomputation from the journal, and the challenge list.

module Detox {
  import opened Common
  import opened Text
  import Sorting
  import Journal

  datatype TargetType = ScreenTime | SocialMedia | FirstPickup | Custom

  /** A challenge; `startDate` and `completedDays` are day numbers. */
  datatype DetoxChallenge = DetoxChallenge(
    id: string,
    name: string,
    description: string,
    icon: string,
    targetType: TargetType,
    targetValue: string,
    isActive: bool,
    startDate: int,
    currentStreak: int,
    longestStreak: int,
    completedDays: seq<int>)

  /** What a challenge is made from: everything but its id, state and progress. */
  datatype Template = Template(name: string, description: string, icon: string, targetType: TargetType, targetValue: string)

  /** The six built-in challenges. */
  const DefaultChallenges: seq<Template> := [
    Template("Screen Time Under 4H", "Keep total screen time under 4 hours daily", "\U{1F4F1}", ScreenTime, "4H"),
    Template("No Social Before 10 AM", "Avoid social media before 10:00 AM", "\U{1F305}", FirstPickup, "10:00 AM"),
    Template("Social Media Under 1H", "Limit social media usage to under 1 hour", "\U{23F0}", SocialMedia, "1H"),
    Template("Screen Time Under 3H", "Keep total screen time under 3 hours daily", "\U{1F3AF}", ScreenTime, "3H"),
    Template("Social Media Under 30min", "Keep social media under 30 minutes", "\U{1F3C6}", SocialMedia, "30min"),
    Template("No Phone First Hour", "Wait at least 1 hour after waking before phone use", "\U{2600}\U{FE0F}", FirstPickup, "8:00 AM")]

  // ---- screen time -----------------------------------------------------------

  /** `parseInt(v.replace('H+', '').replace('H', ''))`; `NaN` is `None`. */
  function Hours(v: string): Option<int>
  {
    ParseInt(ReplaceFirst(ReplaceFirst(v, "H+", ""), "H", ""))
  }

  /** `isScreenTimeUnder`: never for an empty value, else the value's hours are strictly
      fewer than the target's; a comparison with `NaN` is false. */
  predicate IsScreenTimeUnder(value: string, target: string)
  {
    value != [] && Hours(value).Some? && Hours(target).Some? && Hours(value).value < Hours(target).value
  }

  lemma DigitsHaveNoH(ds: string, rest: string, j: int)
    requires AllDigits(ds) && 0 <= j < |ds| && j < |ds + rest|
    ensures (ds + rest)[j] != 'H'
  {
    assert (ds + rest)[j] == ds[j];
  }

  /** The first `H` of `n` followed by the rest is right after the digits. */
  lemma FirstHAfterDigits(n: nat, rest: string)
    requires rest != [] && rest[0] == 'H'
    ensures ReplaceFirst(NatToString(n) + rest, "H", "") == NatToString(n) + rest[1..]
  {
    var ds := NatToString(n);
    HRightAfterDigits(ds, rest);
    FirstOccurrence(ds + rest, "H", |ds|);
    DropAfterDigits(ds, rest);
  }

  /** In digits followed by `H…`, the first `H` is at the end of the digits. */
  lemma HRightAfterDigits(ds: string, rest: string)
    requires AllDigits(ds) && rest != [] && rest[0] == 'H'
    ensures OccursAt(ds + rest, "H", |ds|)
    ensures forall j :: 0 <= j < |ds| ==> !OccursAt(ds + rest, "H", j)
  {
    var s := ds + rest;
    assert s[|ds|..|ds| + 1] == [rest[0]];
    forall j | 0 <= j < |ds| ensures !OccursAt(s, "H", j) {
      DigitsHaveNoH(ds, rest, j);
      assert s[j..j + 1][0] == s[j];
    }
  }

  lemma DropAfterDigits(ds: string, rest: string)
    requires rest != []
    ensures var s := ds + rest; s[..|ds|] + "" + s[|ds| + 1..] == ds + rest[1..]
  {
    var s := ds + rest;
    assert s[..|ds|] == ds && s[|ds| + 1..] == rest[1..];
  }

  /** A numeral holds no `H`. */
  lemma NoHInNumeral(n: nat)
    ensures ReplaceFirst(NatToString(n), "H", "") == NatToString(n)
  {
    var ds := NatToString(n);
    MissingCharNotContained(ds, "H", 0);
  }

  /** `nH` holds no `H+`: the only `H` is last. */
  lemma NoHPlusInLabel(n: nat)
    ensures ReplaceFirst(NatToString(n) + "H", "H+", "") == NatToString(n) + "H"
  {
    var ds := NatToString(n);
    var a := ds + "H";
    forall j | 0 <= j <= |a| - 2 ensures !OccursAt(a, "H+", j) {
      DigitsHaveNoH(ds, "H", j);
      assert a[j..j + 2][0] == a[j];
    }
  }

  /** The first `H+` of `nH+` is right after the digits. */
  lemma FirstHPlusAfterDigits(n: nat)
    ensures ReplaceFirst(NatToString(n) + "H+", "H+", "") == NatToString(n)
  {
    var ds := NatToString(n);
    var b := ds + "H+";
    assert OccursAt(b, "H+", |ds|) by { assert b[|ds|..|ds| + 2] == "H+"; }
    var i := IndexOf(b, "H+").value;
    assert i == |ds| by {
      if i < |ds| {
        assert b[i..i + 2][0] == b[i];
        DigitsHaveNoH(ds, "H+", i);
      }
    }
    assert b[..i] == ds;
  }

  /** The labels `nH` and `nH+` both read as n hours. */
  lemma HoursOfLabel(n: nat)
    ensures Hours(NatToString(n) + "H") == Some(n)
    ensures Hours(NatToString(n) + "H+") == Some(n)
  {
    ParseNatToString(n);
    NoHPlusInLabel(n);
    FirstHAfterDigits(n, "H");
    assert NatToString(n) + "H"[1..] == NatToString(n);
    FirstHPlusAfterDigits(n);
    NoHInNumeral(n);
  }

  /** Between two hour labels the rule is the strict order of their hours. */
  lemma ScreenTimeUnderIsFewerHours(n: nat, m: nat, plusValue: bool, plusTarget: bool)
    ensures (IsScreenTimeUnder(NatToString(n) + (if plusValue then "H+" else "H"),
                               NatToString(m) + (if plusTarget then "H+" else "H")))
      <==> n < m
  {
    HoursOfLabel(n);
    HoursOfLabel(m);
  }

  /** An empty value never counts. */
  lemma EmptyScreenTimeNeverUnder(target: string)
    ensures !IsScreenTimeUnder("", target)
  {
  }

  // ---- social media ------------------------------------------------------------

  /** The minutes of a social-media label: the first listed fragment it contains decides,
      anything else is `parseInt(v) || 0`. */
  function SocialMinutes(v: string): int
  {
    if Contains(v, "30min") then 30
    else if Contains(v, "0-30") then 30
    else if Contains(v, "1H") || Contains(v, "1-2") then 60
    else if Contains(v, "2-3") then 150
    else if Contains(v, "3-4") then 210
    else if Contains(v, "4-5") then 270
    else if Contains(v, "5H+") then 300
    else match ParseInt(v) case Some(n) => n case None => 0
  }

  /** The target in minutes: 30 for `30min`, 60 for `1H`, 120 for anything else. */
  function TargetMinutes(target: string): (t: int)
    ensures t == 30 || t == 60 || t == 120
  {
    if target == "30min" then 30 else if target == "1H" then 60 else 120
  }

  /** `isSocialMediaUnder`: never for an empty value, else its minutes are at most the
      target's. */
  predicate IsSocialMediaUnder(value: string, target: string)
  {
    value != [] && SocialMinutes(value) <= TargetMinutes(target)
  }

  /** The minutes each form label reads as, in the form's order. */
  lemma SocialMinutesOfOption(i: int)
    requires 0 <= i < |Journal.SocialMediaOptions|
    ensures SocialMinutes(Journal.SocialMediaOptions[i]) == [30, 30, 60, 150, 210, 270, 300][i]
  {
    if i < 3 {
      ShortOptionMinutes(i);
    } else {
      LongOptionMinutes(i);
    }
  }

  lemma ShortOptionMinutes(i: int)
    requires 0 <= i < 3
    ensures SocialMinutes(Journal.SocialMediaOptions[i]) == [30, 30, 60][i]
  {
    var v := Journal.SocialMediaOptions[i];
    if i == 0 { SocialUpTo30(v); }
    else if i == 1 { Social30To60(v); }
    else { Social1To2(v); }
  }

  lemma LongOptionMinutes(i: int)
    requires 3 <= i < 7
    ensures SocialMinutes(Journal.SocialMediaOptions[i]) == [150, 210, 270, 300][i - 3]
  {
    var v := Journal.SocialMediaOptions[i];
    if i == 3 { Social2To3(v); }
    else if i == 4 { Social3To4(v); }
    else if i == 5 { Social4To5(v); }
    else { SocialOver5(v); }
  }

  // Each label below holds its own fragment and lacks a character of every fragment checked
  // before it.

  lemma SocialUpTo30(s: string)
    requires s == "0-30min"
    ensures SocialMinutes(s) == 30
  {
    ContainsAt(s, "30min", 2);
  }

  lemma Social30To60(s: string)
    requires s == "30min-1H"
    ensures SocialMinutes(s) == 30
  {
    ContainsAt(s, "30min", 0);
  }

  lemma Social1To2(s: string)
    requires s == "1-2H"
    ensures SocialMinutes(s) == 60
  {
    MissingCharNotContained(s, "30min", 3);
    MissingCharNotContained(s, "0-30", 0);
    ContainsAt(s, "1-2", 0);
  }

  lemma Social2To3(s: string)
    requires s == "2-3H"
    ensures SocialMinutes(s) == 150
  {
    MissingCharNotContained(s, "30min", 3);
    MissingCharNotContained(s, "0-30", 0);
    MissingCharNotContained(s, "1H", 0);
    MissingCharNotContained(s, "1-2", 0);
    ContainsAt(s, "2-3", 0);
  }

  lemma Social3To4(s: string)
    requires s == "3-4H"
    ensures SocialMinutes(s) == 210
  {
    MissingCharNotContained(s, "30min", 3);
    MissingCharNotContained(s, "0-30", 0);
    MissingCharNotContained(s, "1H", 0);
    MissingCharNotContained(s, "1-2", 0);
    MissingCharNotContained(s, "2-3", 0);
    ContainsAt(s, "3-4", 0);
  }

  lemma Social4To5(s: string)
    requires s == "4-5H"
    ensures SocialMinutes(s) == 270
  {
    MissingCharNotContained(s, "30min", 3);
    MissingCharNotContained(s, "0-30", 0);
    MissingCharNotContained(s, "1H", 0);
    MissingCharNotContained(s, "1-2", 0);
    MissingCharNotContained(s, "2-3", 0);
    MissingCharNotContained(s, "3-4", 0);
    ContainsAt(s, "4-5", 0);
  }

  lemma SocialOver5(s: string)
    requires s == "5H+"
    ensures SocialMinutes(s) == 300
  {
    MissingCharNotContained(s, "30min", 3);
    MissingCharNotContained(s, "0-30", 0);
    MissingCharNotContained(s, "1H", 0);
    MissingCharNotContained(s, "1-2", 0);
    MissingCharNotContained(s, "2-3", 0);
    MissingCharNotContained(s, "3-4", 0);
    MissingCharNotContained(s, "4-5", 0);
    ContainsAt(s, "5H+", 0);
  }

  /** Which form labels meet each target: under `30min` the first two, under `1H` the first
      three, and under any other target also the first three. */
  lemma SocialMediaUnderOptions(target: string, i: int)
    requires 0 <= i < |Journal.SocialMediaOptions|
    ensures IsSocialMediaUnder(Journal.SocialMediaOptions[i], target) <==>
      (if target == "30min" then i < 2 else i < 3)
  {
    SocialMinutesOfOption(i);
  }

  // ---- first pickup -------------------------------------------------------------

  /** The hour of an `h:mm AM/PM` label on a 24-hour clock: the number before the first
      `:` of the part before the first space; `PM` adds 12 except to 12, and `12 AM` is 0.
      A part that is not a number gives `NaN`, which no adjustment changes. */
  function PickupHour(v: string): Option<int>
  {
    var parts := Split(v, ' ');
    HourOf(parts[0], if |parts| > 1 then Some(parts[1]) else None)
  }

  /** The hour of the clock part of a label, adjusted by the period after it, if any. */
  function HourOf(time: string, period: Option<string>): Option<int>
  {
    match NumberOf(Split(time, ':')[0])
    case None => None
    case Some(h) =>
      if period == Some("PM") && h != 12 then Some(h + 12)
      else if period == Some("AM") && h == 12 then Some(0)
      else Some(h)
  }

  /** `isFirstPickupAfter`: never for an empty value, else the value's hour is at least the
      target's. */
  predicate IsFirstPickupAfter(value: string, target: string)
  {
    value != [] && PickupHour(value).Some? && PickupHour(target).Some?
    && PickupHour(value).value >= PickupHour(target).value
  }

  /** The hour of a clock label; `pm` chooses between the two halves of the day. */
  function ClockHour(h: int, pm: bool): (r: int)
    requires 1 <= h <= 12
    ensures 0 <= r <= 23
    ensures pm <==> r >= 12
    ensures r % 12 == h % 12
  {
    if pm then (if h == 12 then 12 else h + 12) else (if h == 12 then 0 else h)
  }

  /** Two pieces joined by a separator neither holds split back into those pieces. */
  lemma SplitPair(a: string, b: string, c: char)
    requires c !in a && c !in b
    ensures Split(a + [c] + b, c) == [a, b]
  {
    assert Join([a, b], [c]) == a + [c] + b;
    SplitJoin([a, b], c);
  }

  /** A numeral holds neither a space nor a colon. */
  lemma NumeralHasNoSeparators(n: nat)
    ensures ' ' !in NatToString(n) && ':' !in NatToString(n)
  {
    var ds := NatToString(n);
    assert forall k :: 0 <= k < |ds| ==> IsDigit(ds[k]);
  }

  /** The clock part `h:mm` reads as hour h, adjusted by the period. */
  lemma HourOfClock(h: int, minutes: string, pm: bool)
    requires 1 <= h <= 12 && ':' !in minutes
    ensures HourOf(NatToString(h) + [':'] + minutes, Some(if pm then "PM" else "AM")) == Some(ClockHour(h, pm))
  {
    var ds := NatToString(h);
    NumeralHasNoSeparators(h);
    SplitPair(ds, minutes, ':');
    NumberOfNatToString(h);
    assert Split(ds + [':'] + minutes, ':')[0] == ds;
    assert NumberOf(ds) == Some(h);
  }

  /** A label `h:mm AM` or `h:mm PM` reads as its hour on a 24-hour clock, minutes ignored. */
  lemma PickupHourOfLabel(h: int, minutes: string, pm: bool)
    requires 1 <= h <= 12
    requires ' ' !in minutes && ':' !in minutes
    ensures PickupHour(NatToString(h) + ":" + minutes + " " + (if pm then "PM" else "AM")) == Some(ClockHour(h, pm))
  {
    var ds := NatToString(h);
    var period := if pm then "PM" else "AM";
    var time := ds + [':'] + minutes;
    ClockHasNoSpace(h, minutes);
    PickupHourOfParts(time, period);
    assert ds + ":" + minutes + " " + period == time + [' '] + period;
    HourOfClock(h, minutes, pm);
  }

  /** A clock part `h:mm` holds no space. */
  lemma ClockHasNoSpace(h: nat, minutes: string)
    requires ' ' !in minutes
    ensures ' ' !in NatToString(h) + [':'] + minutes
  {
    var ds := NatToString(h);
    var time := ds + [':'] + minutes;
    NumeralHasNoSeparators(h);
    forall k | 0 <= k < |time| ensures time[k] != ' ' {
      if k < |ds| {
        assert time[k] == ds[k];
      } else if k > |ds| {
        assert time[k] == minutes[k - |ds| - 1];
      }
    }
  }

  /** A label is read as its clock part followed by its period. */
  lemma PickupHourOfParts(time: string, period: string)
    requires ' ' !in time && ' ' !in period
    ensures PickupHour(time + [' '] + period) == HourOf(time, Some(period))
  {
    SplitPair(time, period, ' ');
  }

  lemma TenOClock()
    ensures PickupHour("10:00 AM") == Some(10)
  {
    assert NatToString(10) == "10";
    assert "10" + ":" + "00" + " " + "AM" == "10:00 AM";
    PickupHourOfLabel(10, "00", false);
  }

  lemma EightOClock()
    ensures PickupHour("8:00 AM") == Some(8)
  {
    assert NatToString(8) == "8";
    assert "8" + ":" + "00" + " " + "AM" == "8:00 AM";
    PickupHourOfLabel(8, "00", false);
  }

  /** The two built-in pickup targets read as 10 and 8 o'clock in the morning. */
  lemma DefaultPickupTargets()
    ensures PickupHour(DefaultChallenges[1].targetValue) == Some(10)
    ensures PickupHour(DefaultChallenges[5].targetValue) == Some(8)
  {
    assert DefaultChallenges[1].targetValue == "10:00 AM" && DefaultChallenges[5].targetValue == "8:00 AM";
    TenOClock();
    EightOClock();
  }

  // ---- completion ----------------------------------------------------------------

  /** The entry field a target type reads. */
  function Reading(t: TargetType, e: Journal.JournalEntry): string
  {
    match t
    case ScreenTime => e.screenTime
    case SocialMedia => e.socialMediaTime
    case FirstPickup => e.firstPickupTime
    case Custom => ""
  }

  /** `checkChallengeCompletion`: the rule for the challenge's target type applied to the
      entry's value; a custom challenge is never completed, and nor is any challenge on an
      entry that leaves the value it reads empty. */
  predicate Completes(c: DetoxChallenge, e: Journal.JournalEntry)
    ensures Completes(c, e) ==> c.targetType != Custom && Reading(c.targetType, e) != []
  {
    match c.targetType
    case ScreenTime => IsScreenTimeUnder(e.screenTime, c.targetValue)
    case SocialMedia => IsSocialMediaUnder(e.socialMediaTime, c.targetValue)
    case FirstPickup => IsFirstPickupAfter(e.firstPickupTime, c.targetValue)
    case Custom => false
  }

  // ---- streaks -------------------------------------------------------------------

  /** The entries dated from `start` to `today`, in their stored order. */
  function InWindow(es: seq<Journal.JournalEntry>, start: int, today: int): (r: seq<Journal.JournalEntry>)
    ensures forall e :: e in r <==> e in es && start <= e.date <= today
  {
    if es == [] then []
    else
      var last := es[|es| - 1];
      var p := InWindow(es[..|es| - 1], start, today);
      assert forall e :: e in es <==> e in es[..|es| - 1] || e == last by {
        assert es == es[..|es| - 1] + [last];
      }
      if start <= last.date <= today then p + [last] else p
  }

  function NewestFirst(e: Journal.JournalEntry): int { -e.date }

  /** `relevantEntries`: the window's entries, most recent first. */
  function Relevant(es: seq<Journal.JournalEntry>, start: int, today: int): (r: seq<Journal.JournalEntry>)
    ensures multiset(r) == multiset(InWindow(es, start, today))
    ensures forall i, j :: 0 <= i < j < |r| ==> r[i].date >= r[j].date
  {
    var r := Sorting.SortBy(InWindow(es, start, today), NewestFirst);
    assert forall i, j :: 0 <= i < j < |r| ==> NewestFirst(r[i]) <= NewestFirst(r[j]);
    r
  }

  /** The relevant entries are the entries dated from `start` to `today`. */
  lemma RelevantMembers(es: seq<Journal.JournalEntry>, start: int, today: int)
    ensures forall e :: e in Relevant(es, start, today) <==> e in es && start <= e.date <= today
  {
    var r, w := Relevant(es, start, today), InWindow(es, start, today);
    forall e ensures e in r <==> e in w {
      assert e in r <==> e in multiset(r);
      assert e in w <==> e in multiset(w);
    }
  }

  /** Dates in non-increasing order, most recent first. */
  predicate NewestFirstDays(ds: seq<int>)
  {
    forall i, j :: 0 <= i < j < |ds| ==> ds[i] >= ds[j]
  }

  /** The dates of the entries that pass `ok`, in the entries' order. */
  function DatesWhere(ok: Journal.JournalEntry -> bool, rs: seq<Journal.JournalEntry>): seq<int>
  {
    if rs == [] then []
    else
      var p := DatesWhere(ok, rs[..|rs| - 1]);
      if ok(rs[|rs| - 1]) then p + [rs[|rs| - 1].date] else p
  }

  /** A date is listed exactly when some entry with that date passes. */
  lemma {:induction false} DatesWhereMembers(ok: Journal.JournalEntry -> bool, rs: seq<Journal.JournalEntry>)
    ensures forall d :: d in DatesWhere(ok, rs) <==> exists e :: e in rs && e.date == d && ok(e)
  {
    if rs != [] {
      var p := rs[..|rs| - 1];
      var last := rs[|rs| - 1];
      DatesWhereMembers(ok, p);
      assert rs == p + [last];
      forall d ensures d in DatesWhere(ok, rs) <==> exists e :: e in rs && e.date == d && ok(e) {
        if d in DatesWhere(ok, rs) {
          if d in DatesWhere(ok, p) {
            var e :| e in p && e.date == d && ok(e);
            assert e in rs;
          } else {
            assert last in rs && last.date == d && ok(last);
          }
        }
        if exists e :: e in rs && e.date == d && ok(e) {
          var e :| e in rs && e.date == d && ok(e);
          if e != last {
            assert e in p;
          }
        }
      }
    }
  }

  /** From entries in non-increasing date order the dates come out in that order too. */
  lemma {:induction false} DatesWhereOrdered(ok: Journal.JournalEntry -> bool, rs: seq<Journal.JournalEntry>)
    requires forall i, j :: 0 <= i < j < |rs| ==> rs[i].date >= rs[j].date
    ensures NewestFirstDays(DatesWhere(ok, rs))
  {
    if rs != [] {
      var p := rs[..|rs| - 1];
      var last := rs[|rs| - 1];
      DatesWhereOrdered(ok, p);
      DatesWhereMembers(ok, p);
      var dp := DatesWhere(ok, p);
      forall k | 0 <= k < |dp| ensures dp[k] >= last.date {
        assert dp[k] in dp;
        var e :| e in p && e.date == dp[k] && ok(e);
        var i :| 0 <= i < |p| && p[i] == e;
        assert rs[i] == e;
      }
      if ok(last) {
        var ds := dp + [last.date];
        assert DatesWhere(ok, rs) == ds;
        forall i, j | 0 <= i < j < |ds| ensures ds[i] >= ds[j] {
          if j < |dp| {
            assert ds[i] == dp[i] && ds[j] == dp[j];
          } else {
            assert ds[i] == dp[i];
          }
        }
      }
    }
  }

  /** The dates of the window's entries that pass `ok`, most recent first. */
  lemma {:induction false} WindowDates(ok: Journal.JournalEntry -> bool, es: seq<Journal.JournalEntry>, start: int, today: int)
    ensures forall d :: d in DatesWhere(ok, Relevant(es, start, today)) <==>
      exists e :: e in es && e.date == d && start <= d <= today && ok(e)
    ensures NewestFirstDays(DatesWhere(ok, Relevant(es, start, today)))
  {
    var rs := Relevant(es, start, today);
    RelevantMembers(es, start, today);
    DatesOfWindow(ok, rs, es, start, today);
    DatesWhereOrdered(ok, rs);
  }

  /** Listing the passing dates of exactly the window's entries gives the dates in the
      window whose entry passes. */
  lemma DatesOfWindow(ok: Journal.JournalEntry -> bool, rs: seq<Journal.JournalEntry>, es: seq<Journal.JournalEntry>, start: int, today: int)
    requires forall e :: e in rs <==> e in es && start <= e.date <= today
    ensures forall d :: d in DatesWhere(ok, rs) <==>
      exists e :: e in es && e.date == d && start <= d <= today && ok(e)
  {
    DatesWhereMembers(ok, rs);
    forall d ensures d in DatesWhere(ok, rs) <==> exists e :: e in es && e.date == d && start <= d <= today && ok(e) {
      if exists e :: e in rs && e.date == d && ok(e) {
        var e :| e in rs && e.date == d && ok(e);
        assert e in es && start <= d <= today;
      }
      if exists e :: e in es && e.date == d && start <= d <= today && ok(e) {
        var e :| e in es && e.date == d && start <= d <= today && ok(e);
        assert e in rs;
      }
    }
  }

  /** The completion rule of one challenge, as a test on entries. */
  function Passes(c: DetoxChallenge): Journal.JournalEntry -> bool
  {
    e => Completes(c, e)
  }

  /** `completedDays`. */
  function CompletedDays(c: DetoxChallenge, es: seq<Journal.JournalEntry>, today: int): seq<int>
  {
    DatesWhere(Passes(c), Relevant(es, c.startDate, today))
  }

  /** The completed days are the dates from the start date to today whose entry completes
      the challenge, most recent first. */
  lemma CompletedDaysMeaning(c: DetoxChallenge, es: seq<Journal.JournalEntry>, today: int)
    ensures forall d :: d in CompletedDays(c, es, today) <==>
      exists e :: e in es && e.date == d && c.startDate <= d <= today && Completes(c, e)
    ensures NewestFirstDays(CompletedDays(c, es, today))
  {
    var ok := Passes(c);
    WindowDates(ok, es, c.startDate, today);
    var ds := CompletedDays(c, es, today);
    forall d ensures d in ds <==> exists e :: e in es && e.date == d && c.startDate <= d <= today && Completes(c, e) {
      if d in ds {
        var e :| e in es && e.date == d && c.startDate <= d <= today && ok(e);
        assert Completes(c, e);
      }
      if exists e :: e in es && e.date == d && c.startDate <= d <= today && Completes(c, e) {
        var e :| e in es && e.date == d && c.startDate <= d <= today && Completes(c, e);
        assert ok(e);
      }
    }
  }

  /** The current streak as the loop counts it: today, the day before, and so on while the
      day is listed, for at most `limit` days. */
  function StreakBack(days: seq<int>, from: int, limit: int): (n: nat)
    ensures n <= (if limit < 0 then 0 else limit)
    decreases limit
  {
    if limit <= 0 || from !in days then 0 else 1 + StreakBack(days, from - 1, limit - 1)
  }

  /** The `n` days up to `from` are all listed, and unless `n` reached the limit, the day
      before them is not. */
  predicate IsRunBack(days: seq<int>, from: int, n: int, limit: int)
  {
    (forall x :: from - n < x <= from ==> x in days) && (n < limit ==> from - n !in days)
  }

  /** The streak's days are all listed, and unless the limit stopped it, the day before the
      streak is not. */
  lemma {:induction false} StreakBackMeaning(days: seq<int>, from: int, limit: int)
    ensures IsRunBack(days, from, StreakBack(days, from, limit), limit)
    decreases limit
  {
    if limit > 0 && from in days {
      StreakBackMeaning(days, from - 1, limit - 1);
    }
  }

  /** The challenge after `updateStreaks` saw the journal on `today`. */
  function Refreshed(c: DetoxChallenge, es: seq<Journal.JournalEntry>, today: int): DetoxChallenge
  {
    if !c.isActive then c
    else
      var done := CompletedDays(c, es, today);
      var current := StreakBack(done, today, |done|);
      c.(completedDays := done, currentStreak := current,
         longestStreak := if c.longestStreak >= current then c.longestStreak else current)
  }

  /** An inactive challenge is left as it is; an active one changes only in its progress,
      its current streak never exceeds its completed days, and its longest streak never
      drops and is never below the current one. */
  lemma RefreshedFacts(c: DetoxChallenge, es: seq<Journal.JournalEntry>, today: int)
    ensures var r := Refreshed(c, es, today);
      (!c.isActive ==> r == c)
      && r == c.(completedDays := r.completedDays, currentStreak := r.currentStreak, longestStreak := r.longestStreak)
      && (c.isActive ==>
            (r.completedDays == CompletedDays(c, es, today)
             && 0 <= r.currentStreak <= |r.completedDays|
             && r.longestStreak >= c.longestStreak && r.longestStreak >= r.currentStreak
             && (r.longestStreak == c.longestStreak || r.longestStreak == r.currentStreak)))
  {
  }

  /** The current streak counts today and the days before it that were completed, stopping
      at the first day that was not. */
  lemma RefreshedStreakIsRun(c: DetoxChallenge, es: seq<Journal.JournalEntry>, today: int)
    requires c.isActive
    ensures var r := Refreshed(c, es, today);
      IsRunBack(r.completedDays, today, r.currentStreak, |r.completedDays|)
  {
    var done := CompletedDays(c, es, today);
    StreakBackMeaning(done, today, |done|);
  }

  /** Only which days are listed matters to the streak. */
  lemma {:induction false} StreakBackSameDays(a: seq<int>, b: seq<int>, from: int, limit: int)
    requires forall x :: x in a <==> x in b
    ensures StreakBack(a, from, limit) == StreakBack(b, from, limit)
    decreases limit
  {
    if limit > 0 && from in a {
      StreakBackSameDays(a, b, from - 1, limit - 1);
    }
  }

  /** The `for` loop over `sortedCompleted`: count today and the days before while they are
      listed, at most once per listed day. */
  method CountBack(sorted: seq<int>, today: int) returns (streak: int)
    ensures streak == StreakBack(sorted, today, |sorted|)
  {
    streak := 0;
    var i := 0;
    while i < |sorted|
      invariant 0 <= i <= |sorted| && streak == i
      invariant StreakBack(sorted, today, |sorted|) == i + StreakBack(sorted, today - i, |sorted| - i)
    {
      if today - i in sorted {
        streak := streak + 1;
      } else {
        break;
      }
      i := i + 1;
    }
  }

  /** `updateStreaks` for one challenge. */
  method RefreshChallenge(c: DetoxChallenge, es: seq<Journal.JournalEntry>, today: int) returns (r: DetoxChallenge)
    ensures r == Refreshed(c, es, today)
  {
    if !c.isActive {
      return c;
    }
    var completed := CompletedDays(c, es, today);
    var sorted := Sorting.SortBy(completed, (d: int) => -d);
    forall x ensures x in sorted <==> x in completed {
      assert x in sorted <==> x in multiset(sorted);
      assert x in completed <==> x in multiset(completed);
    }
    var streak := CountBack(sorted, today);
    StreakBackSameDays(sorted, completed, today, |sorted|);
    var longest := if c.longestStreak >= streak then c.longestStreak else streak;
    r := c.(completedDays := completed, currentStreak := streak, longestStreak := longest);
  }

  // ---- the challenge list ------------------------------------------------------------

  /** A challenge made from a template on `today`: active, with no progress yet. */
  function Started(t: Template, id: string, today: int): (c: DetoxChallenge)
  {
    DetoxChallenge(id, t.name, t.description, t.icon, t.targetType, t.targetValue, true, today, 0, 0, [])
  }

  predicate HasChallengeId(cs: seq<DetoxChallenge>, id: string)
  {
    exists i :: 0 <= i < |cs| && cs[i].id == id
  }

  /** `challenges.filter(c => c.id !== id)`. */
  function WithoutChallenge(cs: seq<DetoxChallenge>, id: string): (r: seq<DetoxChallenge>)
    ensures forall c :: c in r <==> c in cs && c.id != id
    ensures |r| <= |cs|
  {
    if cs == [] then []
    else
      var p := WithoutChallenge(cs[..|cs| - 1], id);
      assert forall c :: c in cs <==> c in cs[..|cs| - 1] || c == cs[|cs| - 1] by {
        assert cs == cs[..|cs| - 1] + [cs[|cs| - 1]];
      }
      if cs[|cs| - 1].id != id then p + [cs[|cs| - 1]] else p
  }

  /** No two challenges share an id. */
  predicate IdsDistinct(cs: seq<DetoxChallenge>)
  {
    forall i, j :: 0 <= i < j < |cs| ==> cs[i].id != cs[j].id
  }

  /** Removing keeps ids distinct: a kept challenge's id differs from every earlier one's. */
  lemma {:induction false} WithoutChallengeKeepsDistinct(cs: seq<DetoxChallenge>, id: string)
    requires IdsDistinct(cs)
    ensures IdsDistinct(WithoutChallenge(cs, id))
    decreases |cs|
  {
    if cs != [] {
      var init, last := cs[..|cs| - 1], cs[|cs| - 1];
      assert IdsDistinct(init) by {
        forall i, j | 0 <= i < j < |init| ensures init[i].id != init[j].id {
          assert init[i] == cs[i] && init[j] == cs[j];
        }
      }
      WithoutChallengeKeepsDistinct(init, id);
      var p := WithoutChallenge(init, id);
      if last.id != id {
        assert WithoutChallenge(cs, id) == p + [last];
        forall k | 0 <= k < |p| ensures p[k].id != last.id {
          assert p[k] in init;
          var i :| 0 <= i < |init| && init[i] == p[k];
          assert cs[i] == init[i];
        }
      }
    }
  }

  /** Removing keeps the remaining challenges in their order: the result for a concatenation
      is the concatenation of the results, and a single challenge stays exactly when its id
      differs. */
  lemma {:induction false} WithoutChallengeConcat(a: seq<DetoxChallenge>, b: seq<DetoxChallenge>, id: string)
    ensures WithoutChallenge(a + b, id) == WithoutChallenge(a, id) + WithoutChallenge(b, id)
    ensures forall c :: WithoutChallenge([c], id) == if c.id == id then [] else [c]
    decreases |b|
  {
    if b != [] {
      var b', c := b[..|b| - 1], b[|b| - 1];
      var keep := if c.id == id then [] else [c];
      assert b == b' + [c];
      AppendAssoc(a, b', [c]);
      WithoutChallengeConcat(a, b', id);
      WithoutChallengeSnoc(a + b', c, id);
      WithoutChallengeSnoc(b', c, id);
      AppendAssoc(WithoutChallenge(a, id), WithoutChallenge(b', id), keep);
    } else {
      assert a + b == a;
    }
    forall c ensures WithoutChallenge([c], id) == if c.id == id then [] else [c] {
      assert [] + [c] == [c];
      WithoutChallengeSnoc([], c, id);
    }
  }

  /** One step of the filter: a challenge added last stays exactly when its id differs. */
  lemma WithoutChallengeSnoc(cs: seq<DetoxChallenge>, c: DetoxChallenge, id: string)
    ensures WithoutChallenge(cs + [c], id) == WithoutChallenge(cs, id) + if c.id == id then [] else [c]
  {
    var s := cs + [c];
    assert s[..|s| - 1] == cs && s[|s| - 1] == c;
  }

  /** Removing an id no challenge has changes nothing. */
  lemma {:induction false} WithoutAbsentChallenge(cs: seq<DetoxChallenge>, id: string)
    requires !HasChallengeId(cs, id)
    ensures WithoutChallenge(cs, id) == cs
  {
    if cs != [] {
      var p := cs[..|cs| - 1];
      assert forall i :: 0 <= i < |p| ==> p[i] == cs[i];
      WithoutAbsentChallenge(p, id);
      assert cs[|cs| - 1].id != id;
      assert p + [cs[|cs| - 1]] == cs;
    }
  }

  /** Removing a challenge just added, under a fresh id, gives back the list before. */
  lemma RemoveUndoesAdd(cs: seq<DetoxChallenge>, t: Template, id: string, today: int)
    requires !HasChallengeId(cs, id)
    ensures WithoutChallenge(cs + [Started(t, id, today)], id) == cs
  {
    var s := cs + [Started(t, id, today)];
    assert s[..|s| - 1] == cs;
    WithoutAbsentChallenge(cs, id);
  }

  /** `toggleChallenge`'s map: the challenges with that id flip between active and paused. */
  function Toggled(cs: seq<DetoxChallenge>, id: string): (r: seq<DetoxChallenge>)
    ensures |r| == |cs|
  {
    seq(|cs|, i requires 0 <= i < |cs| => if cs[i].id == id then cs[i].(isActive := !cs[i].isActive) else cs[i])
  }

  /** Toggling twice restores the list, and a toggle touches nothing but `isActive` of the
      matching challenges. */
  lemma ToggleTwiceRestores(cs: seq<DetoxChallenge>, id: string)
    ensures Toggled(Toggled(cs, id), id) == cs
    ensures forall i :: 0 <= i < |cs| ==>
      Toggled(cs, id)[i] == cs[i].(isActive := Toggled(cs, id)[i].isActive)
      && (Toggled(cs, id)[i].isActive != cs[i].isActive <==> cs[i].id == id)
  {
  }

  /** No challenge uses the template's name. */
  predicate NameFree(cs: seq<DetoxChallenge>, t: Template)
  {
    forall i :: 0 <= i < |cs| ==> cs[i].name != t.name
  }

  /** The templates whose name no challenge uses yet. */
  function Unused(ts: seq<Template>, cs: seq<DetoxChallenge>): (r: seq<Template>)
    ensures forall t :: t in r <==> t in ts && forall i :: 0 <= i < |cs| ==> cs[i].name != t.name
  {
    if ts == [] then []
    else
      var p := Unused(ts[..|ts| - 1], cs);
      var last := ts[|ts| - 1];
      assert forall t :: t in ts <==> t in ts[..|ts| - 1] || t == last by {
        assert ts == ts[..|ts| - 1] + [last];
      }
      if NameFree(cs, last) then p + [last] else p
  }

  /** The templates are offered in their own order: the unused templates of a
      concatenation are the concatenation of its parts' unused templates, and a single
      template is kept exactly when no challenge has its name. */
  lemma {:induction false} UnusedConcat(a: seq<Template>, b: seq<Template>, cs: seq<DetoxChallenge>)
    ensures Unused(a + b, cs) == Unused(a, cs) + Unused(b, cs)
    ensures forall t :: Unused([t], cs) == if NameFree(cs, t) then [t] else []
    decreases |b|
  {
    if b != [] {
      var b', t := b[..|b| - 1], b[|b| - 1];
      var keep := if NameFree(cs, t) then [t] else [];
      assert b == b' + [t];
      AppendAssoc(a, b', [t]);
      UnusedConcat(a, b', cs);
      UnusedSnoc(a + b', t, cs);
      UnusedSnoc(b', t, cs);
      AppendAssoc(Unused(a, cs), Unused(b', cs), keep);
    } else {
      assert a + b == a;
    }
    forall t ensures Unused([t], cs) == if NameFree(cs, t) then [t] else [] {
      assert [] + [t] == [t];
      UnusedSnoc([], t, cs);
    }
  }

  /** One step of Unused: a template added last is kept exactly when its name is free. */
  lemma UnusedSnoc(ts: seq<Template>, t: Template, cs: seq<DetoxChallenge>)
    ensures Unused(ts + [t], cs) == Unused(ts, cs) + if NameFree(cs, t) then [t] else []
  {
    var u := ts + [t];
    assert u[..|u| - 1] == ts && u[|u| - 1] == t;
  }

  /** A template stops being offered once a challenge is made from it. */
  lemma AddedTemplateNotAvailable(cs: seq<DetoxChallenge>, t: Template, id: string, today: int)
    ensures t !in Unused(DefaultChallenges, cs + [Started(t, id, today)])
  {
    var s := cs + [Started(t, id, today)];
    assert s[|cs|].name == t.name;
  }

  /** The list of challenges with the operations of the hook. */
  class ChallengeStore {
    var challenges: seq<DetoxChallenge>

    /** No two challenges share an id. */
    predicate Valid()
      reads this
    {
      IdsDistinct(challenges)
    }

    /** The store starts from what was saved. */
    constructor (stored: seq<DetoxChallenge>)
      ensures challenges == stored
    {
      challenges := stored;
    }

    /** `addChallenge`: a fresh id and today's date are given. */
    method AddChallenge(t: Template, id: string, today: int)
      requires !HasChallengeId(challenges, id)
      modifies this
      ensures challenges == old(challenges) + [Started(t, id, today)]
      ensures old(Valid()) ==> Valid()
    {
      challenges := challenges + [Started(t, id, today)];
    }

    /** `removeChallenge`. */
    method RemoveChallenge(id: string)
      modifies this
      ensures challenges == WithoutChallenge(old(challenges), id)
      ensures forall c :: c in challenges <==> c in old(challenges) && c.id != id
      ensures old(Valid()) ==> Valid()
    {
      if Valid() {
        WithoutChallengeKeepsDistinct(challenges, id);
      }
      challenges := WithoutChallenge(challenges, id);
    }

    /** `toggleChallenge`. */
    method ToggleChallenge(id: string)
      modifies this
      ensures challenges == Toggled(old(challenges), id)
      ensures old(Valid()) ==> Valid()
    {
      challenges := Toggled(challenges, id);
    }

    /** `updateStreaks`: every challenge refreshed against the journal on `today`. The source
        compares before saving only to skip a write that would change nothing. */
    method UpdateStreaks(es: seq<Journal.JournalEntry>, today: int)
      modifies this
      ensures |challenges| == |old(challenges)|
      ensures forall i :: 0 <= i < |challenges| ==> challenges[i] == Refreshed(old(challenges)[i], es, today)
      ensures old(Valid()) ==> Valid()
    {
      var cs := challenges;
      var updated: seq<DetoxChallenge> := [];
      var i := 0;
      while i < |cs|
        invariant 0 <= i <= |cs| && |updated| == i
        invariant forall k :: 0 <= k < i ==> updated[k] == Refreshed(cs[k], es, today)
      {
        var r := RefreshChallenge(cs[i], es, today);
        updated := updated + [r];
        i := i + 1;
      }
      challenges := updated;
    }

    /** The effect run when the number of journal entries changes: streaks are updated only
        when there are challenges and entries. */
    method JournalChanged(es: seq<Journal.JournalEntry>, today: int)
      modifies this
      ensures (|old(challenges)| == 0 || |es| == 0) ==> challenges == old(challenges)
      ensures |old(challenges)| > 0 && |es| > 0 ==>
        |challenges| == |old(challenges)|
        && forall i :: 0 <= i < |challenges| ==> challenges[i] == Refreshed(old(challenges)[i], es, today)
    {
      if |challenges| > 0 && |es| > 0 {
        UpdateStreaks(es, today);
      }
    }

    /** `availableChallenges`. */
    function AvailableChallenges(): (r: seq<Template>)
      reads this
      ensures forall t :: t in r <==> t in DefaultChallenges && forall i :: 0 <= i < |challenges| ==> challenges[i].name != t.name
    {
      Unused(DefaultChallenges, challenges)
    }
  }
}
