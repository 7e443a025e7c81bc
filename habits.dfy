// The month-scoped habit store: habits with the days of the month on which they were
// done, kept per month under a storage key, created with the palette, toggled only
// inside the three-day editing window, summarised as completion figures and a heatmap.

module Habits {
  import opened Common
  import opened Text
  import opened Calendar

  /** An entry of the habit colour palette: a display name and an HSL triple. */
  datatype PaletteColor = PaletteColor(name: string, value: string)

  const Palette: seq<PaletteColor> := [
    PaletteColor("Teal", "187 100% 42%"),
    PaletteColor("Emerald", "160 84% 39%"),
    PaletteColor("Violet", "258 90% 66%"),
    PaletteColor("Rose", "350 89% 60%"),
    PaletteColor("Amber", "38 92% 50%"),
    PaletteColor("Sky", "199 89% 48%"),
    PaletteColor("Lime", "84 81% 44%"),
    PaletteColor("Pink", "330 81% 60%")
  ]

  /** A habit of one month. `completedDays` holds days of the month (1..31); the empty
      colour stands for a habit stored before colours existed. `createdAt` is an instant. */
  datatype Habit = Habit(id: string, name: string, color: string, completedDays: seq<int>, createdAt: int)

  /** The browser storage, each key holding the habits of one month. */
  type Storage = map<string, seq<Habit>>

  const KeyPrefix: string := "habit-tracker-data-"

  /** `habit-tracker-data-<year>-<month>`, the month counted from 0. */
  function StorageKey(ym: YearMonth): string
  {
    KeyPrefix + IntToString(ym.year) + "-" + IntToString(ym.month)
  }

  lemma SplitAtDash(a: string, b: string, c: string, d: string)
    requires '-' !in a && '-' !in c && a + "-" + b == c + "-" + d
    ensures a == c && b == d
  {
    var s := a + "-" + b;
    assert s[|a|] == '-' && s[|c|] == '-';
    assert forall i :: 0 <= i < |a| ==> s[i] == a[i];
    assert forall i :: 0 <= i < |c| ==> s[i] == c[i];
    assert |a| == |c|;
    assert a == s[..|a|] == c;
    assert b == s[|a| + 1..] == d;
  }

  /** Two texts with the same prefix are equal when the prefixed texts are. */
  lemma DropPrefix(p: string, a: string, b: string)
    requires p + a == p + b
    ensures a == b
  {
    assert a == (p + a)[|p|..];
    assert b == (p + b)[|p|..];
  }

  lemma DigitsHaveNoDash(n: nat)
    ensures '-' !in NatToString(n)
  {
  }

  /** Different months of the common era are stored under different keys. */
  lemma StorageKeyInjective(a: YearMonth, b: YearMonth)
    requires a.year >= 0 && b.year >= 0
    requires StorageKey(a) == StorageKey(b)
    ensures a == b
  {
    KeyOfMonth(a);
    KeyOfMonth(b);
    var ya, ma, yb, mb := NatToString(a.year), NatToString(a.month), NatToString(b.year), NatToString(b.month);
    DropPrefix(KeyPrefix, ya + "-" + ma, yb + "-" + mb);
    DigitsHaveNoDash(a.year);
    DigitsHaveNoDash(b.year);
    SplitAtDash(ya, ma, yb, mb);
    NatToStringInjective(a.year, b.year);
    NatToStringInjective(a.month, b.month);
  }

  lemma KeyOfMonth(ym: YearMonth)
    requires ym.year >= 0
    ensures StorageKey(ym) == KeyPrefix + (NatToString(ym.year) + "-" + NatToString(ym.month))
  {
  }

  // ---- moving to a new month ----------------------------------------------

  /** The habits with every completion removed. */
  function Cleared(hs: seq<Habit>): (r: seq<Habit>)
    ensures |r| == |hs|
    ensures forall i :: 0 <= i < |hs| ==> r[i] == hs[i].(completedDays := [])
  {
    seq(|hs|, i requires 0 <= i < |hs| => hs[i].(completedDays := []))
  }

  /** The carry-over run when the application opens: if nothing is stored for the current
      month and something is stored for the previous one, the previous month's habits are
      stored for the current month with their completions cleared. */
  function CarryOver(store: Storage, now: YearMonth): (r: Storage)
    ensures StorageKey(now) in store ==> r == store
    ensures StorageKey(now) !in store && StorageKey(Prev(now)) !in store ==> r == store
    ensures StorageKey(now) !in store && StorageKey(Prev(now)) in store ==>
      r.Keys == store.Keys + {StorageKey(now)} && r[StorageKey(now)] == Cleared(store[StorageKey(Prev(now))])
    ensures forall k :: k in store && k != StorageKey(now) ==> k in r && r[k] == store[k]
  {
    var cur := StorageKey(now);
    var last := StorageKey(Prev(now));
    if cur in store then store
    else if last in store then store[cur := Cleared(store[last])]
    else store
  }

  /** Opening the application twice carries over no more than opening it once. */
  lemma CarryOverIdempotent(store: Storage, now: YearMonth)
    ensures CarryOver(CarryOver(store, now), now) == CarryOver(store, now)
  {
  }

  /** The carried-over month has the same habits, in the same order, none of them done. */
  lemma CarryOverKeepsHabits(store: Storage, now: YearMonth)
    requires StorageKey(now) !in store && StorageKey(Prev(now)) in store
    ensures var hs := store[StorageKey(Prev(now))];
      var r := CarryOver(store, now)[StorageKey(now)];
      |r| == |hs| && forall i :: 0 <= i < |hs| ==>
        r[i].id == hs[i].id && r[i].name == hs[i].name && r[i].color == hs[i].color && r[i].completedDays == []
  {
  }

  /** Colour migration on load: a habit without colour takes the palette colour of its
      position, cycling through the palette. */
  function MigrateColors(hs: seq<Habit>): (r: seq<Habit>)
    ensures |r| == |hs|
    ensures forall i :: 0 <= i < |hs| ==> r[i].color != [] && (hs[i].color != [] ==> r[i] == hs[i])
    ensures forall i :: 0 <= i < |hs| ==> hs[i].color == [] ==> r[i] == hs[i].(color := Palette[i % 8].value)
  {
    seq(|hs|, i requires 0 <= i < |hs| =>
      if hs[i].color != [] then hs[i] else hs[i].(color := Palette[i % |Palette|].value))
  }

  lemma MigrateColorsIdempotent(hs: seq<Habit>)
    ensures MigrateColors(MigrateColors(hs)) == MigrateColors(hs)
  {
  }

  /** The habits of a month as the store loads them: the stored habits with their colours
      migrated, and nothing stored is no habits. */
  function Load(store: Storage, ym: YearMonth): (r: seq<Habit>)
    ensures StorageKey(ym) !in store ==> r == []
    ensures StorageKey(ym) in store ==> |r| == |store[StorageKey(ym)]| && r == MigrateColors(store[StorageKey(ym)])
    ensures forall i :: 0 <= i < |r| ==> r[i].color != []
  {
    if StorageKey(ym) in store then MigrateColors(store[StorageKey(ym)]) else []
  }

  // ---- operations on habit lists --------------------------------------------

  predicate IdsDistinct(hs: seq<Habit>)
  {
    forall i, j :: 0 <= i < j < |hs| ==> hs[i].id != hs[j].id
  }

  predicate HasId(hs: seq<Habit>, id: string)
  {
    exists i :: 0 <= i < |hs| && hs[i].id == id
  }

  /** `hs.filter(h => h.id !== id)`. */
  function WithoutId(hs: seq<Habit>, id: string): (r: seq<Habit>)
    ensures forall h :: h in r <==> h in hs && h.id != id
  {
    if hs == [] then []
    else if hs[0].id == id then WithoutId(hs[1..], id)
    else [hs[0]] + WithoutId(hs[1..], id)
  }

  /** Deleting keeps the remaining habits in their order: the result for a concatenation is
      the concatenation of the results, and a single habit stays exactly when its id differs. */
  lemma {:induction false} WithoutIdConcat(a: seq<Habit>, b: seq<Habit>, id: string)
    ensures WithoutId(a + b, id) == WithoutId(a, id) + WithoutId(b, id)
    ensures forall h :: WithoutId([h], id) == if h.id == id then [] else [h]
  {
    if a != [] {
      assert (a + b)[0] == a[0] && (a + b)[1..] == a[1..] + b;
      WithoutIdConcat(a[1..], b, id);
    } else {
      assert a + b == b;
    }
    forall h ensures WithoutId([h], id) == if h.id == id then [] else [h] {
      assert [h][1..] == [];
    }
  }

  /** Deleting leaves no habit with the id and keeps ids distinct. */
  lemma {:induction false} WithoutIdKeepsDistinct(hs: seq<Habit>, id: string)
    requires IdsDistinct(hs)
    ensures IdsDistinct(WithoutId(hs, id)) && !HasId(WithoutId(hs, id), id)
  {
    var r := WithoutId(hs, id);
    if hs != [] {
      var rest := WithoutId(hs[1..], id);
      TailIdsDistinct(hs);
      WithoutIdKeepsDistinct(hs[1..], id);
      if hs[0].id != id {
        HeadIdUnique(hs);
        assert r == [hs[0]] + rest;
        ConsIdsDistinct(hs[0], rest);
      }
    }
    forall k | 0 <= k < |r| ensures r[k].id != id {
      assert r[k] in r;
    }
  }

  lemma TailIdsDistinct(hs: seq<Habit>)
    requires hs != [] && IdsDistinct(hs)
    ensures IdsDistinct(hs[1..])
  {
    forall i, j | 0 <= i < j < |hs| - 1 ensures hs[1..][i].id != hs[1..][j].id {
      assert hs[1..][i] == hs[i + 1] && hs[1..][j] == hs[j + 1];
    }
  }

  /** The first habit's id is no later habit's. */
  lemma HeadIdUnique(hs: seq<Habit>)
    requires hs != [] && IdsDistinct(hs)
    ensures forall h :: h in hs[1..] ==> h.id != hs[0].id
  {
    forall h | h in hs[1..] ensures h.id != hs[0].id {
      var k :| 0 <= k < |hs[1..]| && hs[1..][k] == h;
      assert hs[k + 1] == h;
    }
  }

  lemma ConsIdsDistinct(h: Habit, rest: seq<Habit>)
    requires IdsDistinct(rest) && forall x :: x in rest ==> x.id != h.id
    ensures IdsDistinct([h] + rest)
  {
    var r := [h] + rest;
    forall i, j | 0 <= i < j < |r| ensures r[i].id != r[j].id {
      assert r[j] == rest[j - 1] && r[j] in rest;
      if i > 0 {
        assert r[i] == rest[i - 1];
      }
    }
  }

  /** Deleting an id that no habit has changes nothing. */
  lemma {:induction false} WithoutAbsentId(hs: seq<Habit>, id: string)
    requires !HasId(hs, id)
    ensures WithoutId(hs, id) == hs
  {
    if hs != [] {
      assert hs[0].id != id;
      assert !HasId(hs[1..], id);
      WithoutAbsentId(hs[1..], id);
      assert hs == [hs[0]] + hs[1..];
    }
  }

  /** The edit dialog's save: the habit with the id gets the new name, and the new colour
      when one is given (`color ?? h.color`); every other habit is unchanged. */
  function Renamed(hs: seq<Habit>, id: string, name: string, color: Option<string>): (r: seq<Habit>)
    ensures |r| == |hs|
    ensures forall i :: 0 <= i < |hs| ==> r[i].id == hs[i].id && r[i].completedDays == hs[i].completedDays
    ensures forall i :: 0 <= i < |hs| && hs[i].id != id ==> r[i] == hs[i]
    ensures forall i :: 0 <= i < |hs| && hs[i].id == id ==>
      r[i].name == name && r[i].color == (if color.Some? then color.value else hs[i].color)
  {
    seq(|hs|, i requires 0 <= i < |hs| =>
      if hs[i].id != id then hs[i]
      else hs[i].(name := name, color := if color.Some? then color.value else hs[i].color))
  }

  /** `days.filter(d => d !== day)`. */
  function RemoveDay(days: seq<int>, day: int): (r: seq<int>)
    ensures forall d :: d in r <==> d in days && d != day
    ensures |r| <= |days|
    ensures day !in days ==> r == days
  {
    if days == [] then []
    else if days[0] == day then RemoveDay(days[1..], day)
    else [days[0]] + RemoveDay(days[1..], day)
  }

  /** Toggling a day: a done day is removed (every copy of it), a day not done is appended. */
  function ToggleDays(days: seq<int>, day: int): seq<int>
  {
    if day in days then RemoveDay(days, day) else days + [day]
  }

  /** Toggling flips whether the day is done and leaves every other day as it was. */
  lemma ToggleFlips(days: seq<int>, day: int)
    ensures (day in ToggleDays(days, day)) <==> day !in days
    ensures forall d :: d != day ==> (d in ToggleDays(days, day) <==> d in days)
  {
  }

  /** Toggling a day that was not done and toggling it again restores the list exactly. */
  lemma ToggleTwiceRestores(days: seq<int>, day: int)
    requires day !in days
    ensures ToggleDays(ToggleDays(days, day), day) == days
  {
    RemoveAppended(days, day);
  }

  lemma {:induction false} RemoveAppended(days: seq<int>, day: int)
    requires day !in days
    ensures RemoveDay(days + [day], day) == days
  {
    if days == [] {
      assert [] + [day] == [day];
    } else {
      assert (days + [day])[1..] == days[1..] + [day];
      RemoveAppended(days[1..], day);
    }
  }

  predicate NoDuplicates(s: seq<int>)
  {
    forall i, j :: 0 <= i < j < |s| ==> s[i] != s[j]
  }

  /** Toggling keeps a duplicate-free list duplicate-free. */
  lemma {:induction false} ToggleKeepsNoDuplicates(days: seq<int>, day: int)
    requires NoDuplicates(days)
    ensures NoDuplicates(ToggleDays(days, day))
  {
    if day in days {
      RemoveKeepsNoDuplicates(days, day);
    }
  }

  lemma {:induction false} RemoveKeepsNoDuplicates(days: seq<int>, day: int)
    requires NoDuplicates(days)
    ensures NoDuplicates(RemoveDay(days, day))
  {
    if days != [] {
      RemoveKeepsNoDuplicates(days[1..], day);
      var rest := RemoveDay(days[1..], day);
      if days[0] != day {
        assert days[0] !in rest by {
          assert days[0] !in days[1..];
        }
        var r := [days[0]] + rest;
        forall i, j | 0 <= i < j < |r| ensures r[i] != r[j] {
          if i == 0 { assert r[j] in rest; }
          else { assert r[i] == rest[i - 1] && r[j] == rest[j - 1]; }
        }
      }
    }
  }

  /** The habit with the id has the day toggled; every other habit is unchanged. */
  function ToggleHabit(hs: seq<Habit>, id: string, day: int): (r: seq<Habit>)
    ensures |r| == |hs|
    ensures forall i :: 0 <= i < |hs| ==> r[i] == if hs[i].id == id
      then hs[i].(completedDays := ToggleDays(hs[i].completedDays, day)) else hs[i]
  {
    seq(|hs|, i requires 0 <= i < |hs| =>
      if hs[i].id == id then hs[i].(completedDays := ToggleDays(hs[i].completedDays, day)) else hs[i])
  }

  /** The editing window: only in the current month, and only today and the two days before. */
  predicate CanToggle(selected: YearMonth, now: YearMonth, today: int, day: int)
  {
    selected == now && today - 2 <= day <= today
  }

  /** At most three days of a month can be edited, and all of them lie in the current month. */
  lemma EditWindow(selected: YearMonth, now: YearMonth, today: int, day: int)
    requires CanToggle(selected, now, today, day)
    ensures selected == now && day in {today - 2, today - 1, today}
  {
  }

  // ---- month statistics -------------------------------------------------------

  /** Σ |completedDays| over the habits. */
  function TotalCompleted(hs: seq<Habit>): (n: int)
    ensures n >= 0
  {
    if hs == [] then 0 else |hs[0].completedDays| + TotalCompleted(hs[1..])
  }

  datatype CompletionStats = CompletionStats(completed: int, total: int, percentage: int)

  /** `getCompletionStats`: completions over habits × days of the month, as a percentage. */
  function Stats(hs: seq<Habit>, daysInMonth: int): (s: CompletionStats)
    ensures s.completed == TotalCompleted(hs) && s.total == |hs| * daysInMonth
    ensures s.total > 0 ==> 2 * s.total * s.percentage <= 200 * s.completed + s.total < 2 * s.total * (s.percentage + 1)
    ensures s.total <= 0 ==> s.percentage == 0
  {
    var total := |hs| * daysInMonth;
    var completed := TotalCompleted(hs);
    CompletionStats(completed, total, Percent(completed, total))
  }

  /** The habits record well-formed months: each lists distinct days of the month. */
  predicate WellFormed(hs: seq<Habit>, daysInMonth: int)
  {
    forall i :: 0 <= i < |hs| ==>
      NoDuplicates(hs[i].completedDays) && InMonthDays(hs[i].completedDays, daysInMonth)
  }

  predicate InMonthDays(days: seq<int>, daysInMonth: int)
  {
    forall k :: 0 <= k < |days| ==> 1 <= days[k] <= daysInMonth
  }

  lemma SubsetCardinality(a: set<int>, b: set<int>)
    requires a <= b
    ensures |a| <= |b|
  {
    assert b == a + (b - a);
  }

  function DaysUpTo(n: int): (r: set<int>)
    ensures forall d :: d in r <==> 1 <= d <= n
    ensures |r| == if n < 0 then 0 else n
    decreases n
  {
    if n <= 0 then {} else DaysUpTo(n - 1) + {n}
  }

  lemma {:induction false} DistinctCardinality(s: seq<int>)
    requires NoDuplicates(s)
    ensures |set x | x in s| == |s|
  {
    if s != [] {
      DistinctCardinality(s[1..]);
      assert (set x | x in s) == {s[0]} + (set x | x in s[1..]);
      assert s[0] !in s[1..];
    }
  }

  /** A month has at most daysInMonth distinct days. */
  lemma BoundedDays(days: seq<int>, n: int)
    requires NoDuplicates(days) && forall k :: 0 <= k < |days| ==> 1 <= days[k] <= n
    ensures |days| <= (if n < 0 then 0 else n)
  {
    DistinctCardinality(days);
    assert (set x | x in days) <= DaysUpTo(n);
    SubsetCardinality((set x | x in days), DaysUpTo(n));
  }

  /** Distinct days all lying in lo..hi are at most hi - lo + 1 many. */
  lemma DistinctInRange(s: seq<int>, lo: int, hi: int)
    requires NoDuplicates(s) && forall k :: 0 <= k < |s| ==> lo <= s[k] <= hi
    ensures |s| <= (if hi < lo then 0 else hi - lo + 1)
  {
    var t := seq(|s|, i requires 0 <= i < |s| => s[i] - lo + 1);
    assert NoDuplicates(t);
    BoundedDays(t, hi - lo + 1);
  }

  lemma {:induction false} TotalBounded(hs: seq<Habit>, n: int)
    requires WellFormed(hs, n) && n >= 0
    ensures TotalCompleted(hs) <= |hs| * n
  {
    if hs != [] {
      BoundedDays(hs[0].completedDays, n);
      assert WellFormed(hs[1..], n) by {
        forall i | 0 <= i < |hs[1..]| ensures hs[1..][i] == hs[i + 1] { }
      }
      TotalBounded(hs[1..], n);
    }
  }

  /** On well-formed habits the completion percentage lies between 0 and 100. */
  lemma StatsPercentageBounded(hs: seq<Habit>, daysInMonth: int)
    requires daysInMonth >= 0 && WellFormed(hs, daysInMonth)
    ensures 0 <= Stats(hs, daysInMonth).completed <= Stats(hs, daysInMonth).total
    ensures 0 <= Stats(hs, daysInMonth).percentage <= 100
  {
    TotalBounded(hs, daysInMonth);
    PercentBounds(TotalCompleted(hs), |hs| * daysInMonth);
  }

  /** Toggling in the editing window keeps a month well formed. */
  lemma ToggleKeepsWellFormed(hs: seq<Habit>, id: string, day: int, daysInMonth: int)
    requires WellFormed(hs, daysInMonth) && 1 <= day <= daysInMonth
    ensures WellFormed(ToggleHabit(hs, id, day), daysInMonth)
  {
    var r := ToggleHabit(hs, id, day);
    forall i | 0 <= i < |hs|
      ensures NoDuplicates(r[i].completedDays) && InMonthDays(r[i].completedDays, daysInMonth)
    {
      if hs[i].id == id {
        var ds := hs[i].completedDays;
        ToggleKeepsNoDuplicates(ds, day);
        ToggleFlips(ds, day);
        forall k | 0 <= k < |r[i].completedDays| ensures 1 <= r[i].completedDays[k] <= daysInMonth {
          var d := r[i].completedDays[k];
          assert d in ToggleDays(ds, day);
          if d != day {
            var j :| 0 <= j < |ds| && ds[j] == d;
          }
        }
      }
    }
  }

  /** The number of habits done on a day. */
  function DoneOn(hs: seq<Habit>, day: int): (n: nat)
    ensures n <= |hs|
    ensures n == |hs| <==> forall i :: 0 <= i < |hs| ==> day in hs[i].completedDays
    ensures n == 0 <==> forall i :: 0 <= i < |hs| ==> day !in hs[i].completedDays
  {
    if hs == [] then 0
    else
      var rest := DoneOn(hs[1..], day);
      assert forall i :: 1 <= i < |hs| ==> hs[i] == hs[1..][i - 1];
      (if day in hs[0].completedDays then 1 else 0) + rest
  }

  /** The store of the selected month. */
  class HabitStore {
    const month: YearMonth
    var habits: seq<Habit>

    /** No two habits share an id. */
    predicate Valid()
      reads this
    {
      IdsDistinct(habits)
    }

    /** Opening a month loads what is stored for it. */
    constructor (store: Storage, month: YearMonth)
      requires StorageKey(month) in store ==> IdsDistinct(store[StorageKey(month)])
      ensures this.month == month && habits == Load(store, month)
      ensures Valid()
    {
      this.month := month;
      habits := Load(store, month);
    }

    /** `addHabit`: a new habit with a fresh id and no completions at the end. */
    method AddHabit(id: string, name: string, color: string, createdAt: int)
      requires Valid() && !HasId(habits, id)
      modifies this
      ensures Valid()
      ensures habits == old(habits) + [Habit(id, name, color, [], createdAt)]
    {
      habits := habits + [Habit(id, name, color, [], createdAt)];
    }

    /** `deleteHabit`. */
    method DeleteHabit(id: string)
      requires Valid()
      modifies this
      ensures Valid()
      ensures habits == WithoutId(old(habits), id)
    {
      WithoutIdKeepsDistinct(habits, id);
      habits := WithoutId(habits, id);
    }

    /** `updateHabit`. */
    method UpdateHabit(id: string, name: string, color: Option<string>)
      requires Valid()
      modifies this
      ensures Valid()
      ensures habits == Renamed(old(habits), id, name, color)
    {
      habits := Renamed(habits, id, name, color);
    }

    /** `toggleDay`: outside the editing window nothing changes. `now` is the current month
        and `today` the current day of the month. */
    method ToggleDay(habitId: string, day: int, now: YearMonth, today: int)
      requires Valid()
      modifies this
      ensures Valid()
      ensures habits == if CanToggle(month, now, today, day) then ToggleHabit(old(habits), habitId, day) else old(habits)
    {
      if month != now {
        return;
      }
      if day < today - 2 || day > today {
        return;
      }
      habits := ToggleHabit(habits, habitId, day);
    }

    /** `getDaysInMonth`. */
    function DaysInSelectedMonth(): (n: int)
      reads this
      ensures 28 <= n <= 31
    {
      DaysInMonth(month.year, month.month)
    }

    /** `getCompletionStats`. */
    function CompletionStatsOfMonth(): (s: CompletionStats)
      reads this
      ensures s == Stats(habits, DaysInMonth(month.year, month.month))
    {
      Stats(habits, DaysInSelectedMonth())
    }

    /** `getHeatmapData`: for each day of the month, how many habits were done on it. */
    method HeatmapData() returns (heat: seq<int>)
      ensures |heat| == DaysInMonth(month.year, month.month)
      ensures forall k :: 0 <= k < |heat| ==> heat[k] == DoneOn(habits, k + 1)
    {
      var daysInMonth := DaysInSelectedMonth();
      heat := [];
      var day := 1;
      while day <= daysInMonth
        invariant 1 <= day <= daysInMonth + 1
        invariant |heat| == day - 1
        invariant forall k :: 0 <= k < |heat| ==> heat[k] == DoneOn(habits, k + 1)
      {
        heat := heat + [DoneOn(habits, day)];
        day := day + 1;
      }
    }
  }
}
