// The achievement badges: ten badges over the detox challenges and the journal, each
// unlocked when its metric reaches a threshold, with a progress value capped at it.

module Achievements {
  import opened Common
  import opened Text
  import opened Journal
  import Detox

  datatype Achievement = Achievement(id: string, unlocked: bool, progress: int, maxProgress: int)

  // ---- metrics -------------------------------------------------------------------

  function Longests(cs: seq<Detox.DetoxChallenge>): (s: seq<int>)
    ensures |s| == |cs| && forall i :: 0 <= i < |cs| ==> s[i] == cs[i].longestStreak
  {
    seq(|cs|, i requires 0 <= i < |cs| => cs[i].longestStreak)
  }

  function Currents(cs: seq<Detox.DetoxChallenge>): (s: seq<int>)
    ensures |s| == |cs| && forall i :: 0 <= i < |cs| ==> s[i] == cs[i].currentStreak
  {
    seq(|cs|, i requires 0 <= i < |cs| => cs[i].currentStreak)
  }

  /** `maxStreak`: the longest streak of any challenge, 0 without challenges. */
  function MaxStreak(cs: seq<Detox.DetoxChallenge>): (m: int)
    ensures m >= 0 && forall i :: 0 <= i < |cs| ==> cs[i].longestStreak <= m
    ensures m == 0 || exists i :: 0 <= i < |cs| && cs[i].longestStreak == m
  {
    MaxOrZeroIsMax(Longests(cs));
    MaxOrZero(Longests(cs))
  }

  /** `currentMaxStreak`: the current streak of any challenge, 0 without challenges. */
  function CurrentMaxStreak(cs: seq<Detox.DetoxChallenge>): (m: int)
    ensures m >= 0 && forall i :: 0 <= i < |cs| ==> cs[i].currentStreak <= m
    ensures m == 0 || exists i :: 0 <= i < |cs| && cs[i].currentStreak == m
  {
    MaxOrZeroIsMax(Currents(cs));
    MaxOrZero(Currents(cs))
  }

  /** When no challenge's current streak exceeds its longest, neither does the maximum. */
  lemma CurrentMaxAtMostMax(cs: seq<Detox.DetoxChallenge>)
    requires forall i :: 0 <= i < |cs| ==> cs[i].currentStreak <= cs[i].longestStreak
    ensures CurrentMaxStreak(cs) <= MaxStreak(cs)
  {
    var m := CurrentMaxStreak(cs);
    if m != 0 {
      var i :| 0 <= i < |cs| && cs[i].currentStreak == m;
    }
  }

  /** `totalCompletedDays`: the completed days of all challenges together. */
  function TotalCompletedDays(cs: seq<Detox.DetoxChallenge>): (n: nat)
    ensures n == 0 <==> forall i :: 0 <= i < |cs| ==> cs[i].completedDays == []
  {
    if cs == [] then 0
    else
      var p := cs[..|cs| - 1];
      assert forall i :: 0 <= i < |p| ==> p[i] == cs[i];
      TotalCompletedDays(p) + |cs[|cs| - 1].completedDays|
  }

  /** An entry that answers the first or the second heading. */
  predicate JournalDay(e: JournalEntry) { e.howWasYourDay != [] || e.productiveThing != [] }

  predicate FiveStarDay(e: JournalEntry) { e.dayRating == 5 }

  /** `replace(/\D/g, '')`: the digits of a text, in order. */
  function DigitsOnly(s: string): (d: string)
    ensures AllDigits(d) && |d| <= |s|
  {
    if s == [] then []
    else DigitsOnly(s[..|s| - 1]) + if IsDigit(s[|s| - 1]) then [s[|s| - 1]] else []
  }

  lemma {:induction false} DigitsOnlyAppend(a: string, b: string)
    ensures DigitsOnly(a + b) == DigitsOnly(a) + DigitsOnly(b)
  {
    if b != [] {
      var c := b[..|b| - 1];
      assert (a + b)[..|a + b| - 1] == a + c;
      DigitsOnlyAppend(a, c);
    } else {
      assert a + b == a;
    }
  }

  lemma {:induction false} DigitsOnlyOfDigits(s: string)
    requires AllDigits(s)
    ensures DigitsOnly(s) == s
  {
    if s != [] {
      DigitsOnlyOfDigits(s[..|s| - 1]);
    }
  }

  /** The hours read from the digits of a screen time; no digits (or no value) reads as 99. */
  function ScreenHours(st: string): (h: int)
    ensures h >= 0
    ensures DigitsOnly(st) == [] ==> h == 99
  {
    var d := DigitsOnly(st);
    if d == [] then 99 else DigitsValue(d)
  }

  /** A day with at most three hours of screen time. */
  predicate LowScreenDay(e: JournalEntry) { ScreenHours(e.screenTime) <= 3 }

  /** Of the form's labels, 1H, 2H and 3H make a low-screen day and the others do not. */
  lemma LowScreenOfOption(i: int)
    requires 0 <= i < |ScreenTimeOptions|
    ensures ScreenHours(ScreenTimeOptions[i]) == i + 1
    ensures ScreenHours(ScreenTimeOptions[i]) <= 3 <==> i < 3
  {
    ScreenTimeOptionIsNumeral(i);
    ScreenHoursOfLabel(i + 1, if i < 11 then "H" else "H+");
  }

  /** A numeral followed by `H` or `H+` reads as its number. */
  lemma ScreenHoursOfLabel(n: nat, suffix: string)
    requires suffix == "H" || suffix == "H+"
    ensures ScreenHours(NatToString(n) + suffix) == n
  {
    var ds := NatToString(n);
    DigitsOnlyAppend(ds, suffix);
    DigitsOnlyOfDigits(ds);
    if suffix == "H" {
      assert DigitsOnly(suffix) == [];
    } else {
      assert suffix[..1] == "H";
      assert DigitsOnly(suffix) == [];
    }
    assert DigitsOnly(ds + suffix) == ds + [] == ds;
  }

  predicate IsActive(c: Detox.DetoxChallenge) { c.isActive }

  /** The numbers the badges are computed from. */
  datatype Metrics = Metrics(
    maxStreak: int, currentMaxStreak: int, totalCompletedDays: int, journalDays: int,
    fiveStarDays: int, lowScreenDays: int, activeChallenges: int)

  function MetricsOf(cs: seq<Detox.DetoxChallenge>, es: seq<JournalEntry>): (m: Metrics)
    ensures m.maxStreak >= 0 && m.currentMaxStreak >= 0 && m.totalCompletedDays >= 0
    ensures 0 <= m.journalDays <= |es| && 0 <= m.fiveStarDays <= |es| && 0 <= m.lowScreenDays <= |es|
    ensures 0 <= m.activeChallenges <= |cs|
  {
    Metrics(MaxStreak(cs), CurrentMaxStreak(cs), TotalCompletedDays(cs), |Filter(es, JournalDay)|,
            |Filter(es, FiveStarDay)|, |Filter(es, LowScreenDay)|, |Filter(cs, IsActive)|)
  }

  // ---- badges ---------------------------------------------------------------------

  const BadgeIds: seq<string> := [
    "first-steps", "week-warrior", "two-week-titan", "monthly-master", "journal-starter",
    "journal-master", "perfect-week", "digital-minimalist", "challenge-collector", "legendary"]

  /** Each badge's threshold, its `maxProgress`. */
  const Thresholds: seq<int> := [1, 7, 14, 30, 7, 30, 7, 7, 3, 100]

  /** The badges that count streaks. */
  predicate StreakBadge(k: int) { k == 1 || k == 2 || k == 3 || k == 9 }

  /** The metric a badge unlocks on: the longest streak for the streak badges. */
  function UnlockMetric(m: Metrics, k: int): int
    requires 0 <= k < 10
  {
    if k == 0 then m.totalCompletedDays
    else if StreakBadge(k) then m.maxStreak
    else if k == 4 || k == 5 then m.journalDays
    else if k == 6 then m.fiveStarDays
    else if k == 7 then m.lowScreenDays
    else m.activeChallenges
  }

  /** The metric a badge shows progress on: the current streak for the streak badges. */
  function ProgressMetric(m: Metrics, k: int): int
    requires 0 <= k < 10
  {
    if StreakBadge(k) then m.currentMaxStreak else UnlockMetric(m, k)
  }

  function Badge(k: int, m: Metrics): (a: Achievement)
    requires 0 <= k < 10
    ensures a.id == BadgeIds[k] && a.maxProgress == Thresholds[k]
    ensures a.unlocked <==> UnlockMetric(m, k) >= Thresholds[k]
    ensures k != 8 ==> a.progress == Min(ProgressMetric(m, k), Thresholds[k])
    ensures k == 8 ==> a.progress == m.activeChallenges
  {
    var progress := ProgressMetric(m, k);
    Achievement(BadgeIds[k], UnlockMetric(m, k) >= Thresholds[k],
                if k == 8 then progress else Min(progress, Thresholds[k]), Thresholds[k])
  }

  /** `achievements`: the ten badges in display order. */
  function Badges(m: Metrics): (r: seq<Achievement>)
    ensures |r| == 10 && forall k :: 0 <= k < 10 ==> r[k] == Badge(k, m)
  {
    seq(10, k requires 0 <= k < 10 => Badge(k, m))
  }

  predicate IsUnlocked(a: Achievement) { a.unlocked }

  /** `unlockedCount`: at most the ten badges. */
  function UnlockedCount(badges: seq<Achievement>): (n: nat)
    ensures n <= |badges|
  {
    |Filter(badges, IsUnlocked)|
  }

  /** Capped progress never exceeds the threshold, and it is full only once the metric has
      reached it. */
  lemma ProgressCapped(m: Metrics, k: int)
    requires 0 <= k < 10 && k != 8
    ensures Badges(m)[k].progress <= Badges(m)[k].maxProgress
    ensures Badges(m)[k].progress == Badges(m)[k].maxProgress <==> ProgressMetric(m, k) >= Thresholds[k]
  {
  }

  /** When no challenge's current streak exceeds its longest, a badge whose progress is full
      is unlocked. The converse fails for streak badges, which unlock on the longest streak
      but show the current one. */
  lemma FullProgressIsUnlocked(cs: seq<Detox.DetoxChallenge>, es: seq<JournalEntry>, k: int)
    requires forall i :: 0 <= i < |cs| ==> cs[i].currentStreak <= cs[i].longestStreak
    requires 0 <= k < 10
    ensures var a := Badges(MetricsOf(cs, es))[k]; a.progress >= a.maxProgress ==> a.unlocked
  {
    CurrentMaxAtMostMax(cs);
  }

  /** A broken seven-day streak keeps the 7-Day Warrior badge but shows no progress. */
  lemma UnlockedWithoutProgress()
    ensures var m := Metrics(7, 0, 7, 0, 0, 0, 1);
      Badges(m)[1].unlocked && Badges(m)[1].progress == 0
  {
  }

  /** Metrics that are all at least as large unlock every badge unlocked before, and so at
      least as many badges. */
  lemma UnlocksMonotone(m1: Metrics, m2: Metrics)
    requires m1.maxStreak <= m2.maxStreak && m1.totalCompletedDays <= m2.totalCompletedDays
    requires m1.journalDays <= m2.journalDays && m1.fiveStarDays <= m2.fiveStarDays
    requires m1.lowScreenDays <= m2.lowScreenDays && m1.activeChallenges <= m2.activeChallenges
    ensures forall k :: 0 <= k < 10 && Badges(m1)[k].unlocked ==> Badges(m2)[k].unlocked
    ensures UnlockedCount(Badges(m1)) <= UnlockedCount(Badges(m2))
  {
    FilterLengthMonotone(Badges(m1), Badges(m2), IsUnlocked, IsUnlocked);
  }
}
