// The tracker page's navigation: the selected month, the section shown, and how swipes,
// the month arrows and the midnight check move them. The selection starts at the current
// month and, from there, never passes it.

module HabitTracker {
  import opened Common
  import opened Calendar
  import opened Swipe
  import MonthSelector

  datatype AppSection = HabitsSection | JournalSection | GoalsSection

  /** The sections in the order swipes move along them. */
  const Sections: seq<AppSection> := [HabitsSection, JournalSection, GoalsSection]

  /** `sections.indexOf(appSection)`. */
  function SectionIndex(s: AppSection): (i: nat)
    ensures i < |Sections| && Sections[i] == s
  {
    match s
    case HabitsSection => 0
    case JournalSection => 1
    case GoalsSection => 2
  }

  /** The threshold the page passes to its swipe handlers, in pixels. */
  const PageSwipeThreshold: real := 60.0

  /** `canGoNext`: the month after the selection is not after the current month `now`. */
  function CanGoNext(selected: YearMonth, now: YearMonth): (r: bool)
    ensures r <==> MonthIndex(Next(selected)) <= MonthIndex(now)
    ensures r <==> MonthIndex(selected) < MonthIndex(now)
  {
    var next := Next(selected);
    MonthBeforeIsIndexOrder(now, next);
    next.year < now.year || (next.year == now.year && next.month <= now.month)
  }

  /** The page and the month selector agree on when the next month may be shown. */
  lemma CanGoNextAgrees(selected: YearMonth, now: YearMonth)
    ensures CanGoNext(selected, now) <==> MonthSelector.HandleNextMonth(selected, now).Some?
    ensures CanGoNext(selected, now) <==> !MonthSelector.IsFutureMonth(Next(selected), now)
  {
  }

  /** `handleSwipeSection`: a left swipe moves to the next section and a right swipe to the
      previous one, staying put at either end. */
  function SectionAfter(s: AppSection, dir: Direction): (r: AppSection)
    requires dir == Left || dir == Right
    ensures dir == Left ==> SectionIndex(r) == Min(SectionIndex(s) + 1, |Sections| - 1)
    ensures dir == Right ==> SectionIndex(r) == Max(SectionIndex(s) - 1, 0)
  {
    var i := SectionIndex(s);
    if dir == Left && i < |Sections| - 1 then Sections[i + 1]
    else if dir == Right && i > 0 then Sections[i - 1]
    else s
  }

  /** A section swipe that moves is undone by the opposite swipe, and swipes past either end
      change nothing. */
  lemma SectionSwipeUndone(s: AppSection, dir: Direction)
    requires dir == Left || dir == Right
    ensures SectionAfter(s, dir) != s ==> SectionAfter(SectionAfter(s, dir), Opposite(dir)) == s
    ensures SectionAfter(GoalsSection, Left) == GoalsSection && SectionAfter(HabitsSection, Right) == HabitsSection
  {
    var r := SectionAfter(s, dir);
    if r != s {
      assert SectionIndex(r) != SectionIndex(s);
      assert SectionIndex(SectionAfter(r, Opposite(dir))) == SectionIndex(s);
    }
  }

  /** `currentDay`: today's day of the month when the current month is selected, otherwise
      the number of days of the selected month. */
  function CurrentDay(selected: YearMonth, now: YearMonth, today: int, daysInMonth: int): (d: int)
    ensures selected == now ==> d == today
    ensures selected != now ==> d == daysInMonth
  {
    if selected.year == now.year && selected.month == now.month then today else daysInMonth
  }

  /** With today a day of the current month, the current day is a day of the selected month. */
  lemma CurrentDayInMonth(selected: YearMonth, now: YearMonth, today: int)
    requires 1 <= today <= DaysInMonth(now.year, now.month)
    ensures var d := CurrentDay(selected, now, today, DaysInMonth(selected.year, selected.month));
      1 <= d <= DaysInMonth(selected.year, selected.month)
  {
  }

  /** The page's navigation state. */
  class Tracker {
    var selected: YearMonth
    var section: AppSection
    /** `swipeHint`: the arrow shown after a month change, until its timer clears it. */
    var hint: Option<Direction>

    /** No month after the current one is selected. */
    predicate Valid(now: YearMonth)
      reads this
    {
      MonthIndex(selected) <= MonthIndex(now)
    }

    /** The page opens on the habits of the current month. */
    constructor (now: YearMonth)
      ensures selected == now && section == HabitsSection && hint == None
      ensures Valid(now)
    {
      selected := now;
      section := HabitsSection;
      hint := None;
    }

    /** `handlePrevMonth`. */
    method PrevMonth()
      modifies this
      ensures selected == Prev(old(selected)) && section == old(section) && hint == Some(Right)
      ensures MonthIndex(selected) == MonthIndex(old(selected)) - 1
    {
      selected := Prev(selected);
      hint := Some(Right);
    }

    /** `handleNextMonth`: nothing happens unless the next month may be shown. */
    method NextMonth(now: YearMonth)
      modifies this
      ensures CanGoNext(old(selected), now) ==> selected == Next(old(selected)) && hint == Some(Left)
      ensures !CanGoNext(old(selected), now) ==> selected == old(selected) && hint == old(hint)
      ensures section == old(section)
      ensures old(Valid(now)) ==> Valid(now)
    {
      if CanGoNext(selected, now) {
        selected := Next(selected);
        hint := Some(Left);
      }
    }

    /** The hint's timer running out. */
    method HintExpires()
      modifies this
      ensures hint == None && selected == old(selected) && section == old(section)
    {
      hint := None;
    }

    /** `handleSwipeSection`. */
    method SwipeSection(dir: Direction)
      requires dir == Left || dir == Right
      modifies this
      ensures section == SectionAfter(old(section), dir) && selected == old(selected) && hint == old(hint)
    {
      section := SectionAfter(section, dir);
    }

    /** The page's swipe handlers: in the habits section a swipe changes the month, elsewhere
        the section; vertical swipes have no handler. */
    method OnSwipe(dir: Direction, now: YearMonth)
      modifies this
      ensures (dir == Up || dir == Down) ==>
        selected == old(selected) && section == old(section) && hint == old(hint)
      ensures old(section) == HabitsSection && dir == Left ==>
        section == HabitsSection
        && selected == (if CanGoNext(old(selected), now) then Next(old(selected)) else old(selected))
      ensures old(section) == HabitsSection && dir == Right ==>
        section == HabitsSection && selected == Prev(old(selected))
      ensures old(section) != HabitsSection && (dir == Left || dir == Right) ==>
        section == SectionAfter(old(section), dir) && selected == old(selected) && hint == old(hint)
      ensures old(Valid(now)) ==> Valid(now)
    {
      if dir == Left {
        if section == HabitsSection {
          NextMonth(now);
        } else {
          SwipeSection(Left);
        }
      } else if dir == Right {
        if section == HabitsSection {
          PrevMonth();
        } else {
          SwipeSection(Right);
        }
      }
    }

    /** `checkMonth`, run after midnight: when the selection is the month before the current
        one, the month has just turned and the selection follows it. */
    method CheckMonth(now: YearMonth)
      modifies this
      ensures old(selected) == Prev(now) ==> selected == now
      ensures old(selected) != Prev(now) ==> selected == old(selected)
      ensures section == old(section) && hint == old(hint)
      ensures old(Valid(Prev(now))) ==> Valid(now)
    {
      NextPrev(now);
      if selected != now {
        if selected == Prev(now) {
          selected := now;
        }
      }
    }
  }

  /** Opened in one month and checked after the month turns, the page shows the new month. */
  method Rollover(month: YearMonth) returns (shown: YearMonth)
    ensures shown == Next(month)
  {
    var t := new Tracker(month);
    NextPrev(month);
    t.CheckMonth(Next(month));
    shown := t.selected;
  }

  /** A swipe ending a touch on the page, with the page's threshold. */
  method TouchEndOnPage(t: Tracker, d: SwipeDetector, now: YearMonth) returns (fired: Option<Direction>)
    requires d.threshold == PageSwipeThreshold
    modifies t, d
    ensures old(d.touchStart).Some? && old(d.touchEnd).Some? ==>
      fired == Classify(old(d.touchStart).value, old(d.touchEnd).value, PageSwipeThreshold)
    ensures fired.None? ==> t.selected == old(t.selected) && t.section == old(t.section)
    ensures old(t.Valid(now)) ==> t.Valid(now)
  {
    fired := d.TouchEnd();
    if fired.Some? {
      t.OnSwipe(fired.value, now);
    }
  }
}
