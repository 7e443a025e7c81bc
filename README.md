# Day manager, modelled in Dafny

Day manager is a single-page application with four trackers, each kept in the browser:

- **Habits**: one list per calendar month. Each habit records the days of that month on which it was done.
- **Digital-detox challenges**: driven by the phone-usage fields of the journal.
- **Journal**: one entry per date, with five written headings, a day rating and phone-usage fields.
- **Goals**: each with a status, a priority and a duration.

Around these trackers sit analytics panels: streaks, weekly and monthly summaries, achievement badges and charts. There is also a spreadsheet import and export, month navigation, swipe gestures, a time-of-day greeting and a contact form.

This project models the logic of those parts and leaves out React, storage and rendering. It proves in Dafny what each part promises.

## How the model is laid out

There is one module per source file of the application, plus four shared modules:

- `Common`: options, rounding, percentages, sums, filters and tallies.
- `Text`: JavaScript's whitespace, `trim`, word splitting, `parseInt`, `includes`, `split`, `join` and `replace` of the first match.
- `Calendar`: year-months, day numbers, weekdays and month lengths.
- `Sorting`: a stable insertion sort by key.

How the source's values are represented:

- **Dates.** A calendar date is an integer day number, with 1970-01-01 as day 0. An instant is an integer number of milliseconds on the local clock.
- **Outside values.** The current day, the current month, the hour of the clock, timezone offsets and fresh ids are parameters.
- **Stores.** A store the application updates in place is a class with sequence fields:
  - `Habits.HabitStore`, `Detox.ChallengeStore`, `Goals.GoalStore` and `Journal.JournalStore`;
  - the tracker page's navigation state, `HabitTracker.Tracker`;
  - the swipe handler, `Swipe.SwipeDetector`;
  - the contact form, `Support.SupportForm`.
- **Loops.** The source's loops are methods with loop invariants. Each is proved equal to a function that the lemmas reason about. These loops are:
  - the streak scans;
  - the analytics `forEach`;
  - the month walk of the analytics view;
  - the weekly phone-usage grouping;
  - the pickup-time tally;
  - the heatmap counter;
  - the in-place sort of the spreadsheet export.

`Math.round(x)` is `floor(x + 1/2)`. On a share of two integers it is computed exactly as `(2·100·n + d) / (2·d)`. Rates that the source keeps as floating-point numbers are exact reals.

## Model

| member | source | states |
|---|---|---|
| Common.RoundDiv | src/hooks/useHabits.ts:150 | the integer nearest to n/d with halves rounded up, stated by two-sided bounds |
| Common.RoundDivIsRound | src/hooks/useHabits.ts:150 | the integer form agrees with `Math.round` applied to the exact quotient |
| Common.Round | src/components/WeeklyAnalytics.tsx:114 | `Math.round(x)`: the integer r with r ≤ x + ½ < r + 1 |
| Common.PercentBounds | src/hooks/useHabits.ts:150 | a part of at most the whole rounds to a percentage in 0..100 |
| Common.PercentEnds | src/hooks/useHabits.ts:150 | the whole is 100 % and nothing is 0 % |
| Common.Percent | src/hooks/useHabits.ts:150 | no contract of its own: `total > 0 ? Math.round(part / total * 100) : 0`; its range is stated by Common.PercentBounds and Common.PercentEnds |
| Common.JsRem | src/components/HabitTable.tsx:208-210 | JavaScript `%`: the ordinary remainder for a non-negative dividend, a non-positive one otherwise |
| Common.MaxOrZeroIsMax | src/components/AchievementBadges.tsx:27-28 | `Math.max(0, ...s)` bounds every element and, unless 0, is one of them |
| Common.MaxOrZero | src/components/AchievementBadges.tsx:27-28 | `Math.max(0, ...s)` is never negative |
| Common.ReduceBestIsFirstMax | src/components/WeeklyAnalytics.tsx:71-80 | the element a strict `>` reduce keeps is the first one of greatest key |
| Common.ReduceBest | src/components/WeeklyAnalytics.tsx:71-80 | the element a strict-`>` reduce keeps is one of the elements |
| Common.FilterHead | src/hooks/useGoals.ts:89-95 | the first element a filter keeps is the earliest passing element |
| Common.FilterLengthMonotone | src/components/MonthlySummary.tsx:28-30 | pointwise weaker tests keep at least as many elements |
| Common.Filter | src/hooks/useGoals.ts:89-92 | `s.filter(p)` keeps at most the elements of s, and exactly those that pass |
| Common.FilterConcat | src/hooks/useGoals.ts:89-92 | a filter keeps the passing elements in their order: it distributes over concatenation, and a single element stays exactly when it passes |
| Common.Find | src/hooks/useJournal.ts:25-28 | `find`: the first index holding the value, or nothing exactly when it is absent |
| Common.TallyKeys | src/components/JournalAnalytics.tsx:143-151 | a tally's keys are the distinct inputs, in order of first occurrence |
| Common.TallyTotal | src/components/JournalAnalytics.tsx:143-151 | a tally's counts add up to the number of inputs |
| Common.TallyCounts | src/components/JournalAnalytics.tsx:143-151 | each row of a tally counts the occurrences of its key |
| Common.Tally | src/components/JournalAnalytics.tsx:143-151 | no contract of its own: `counts[k] = (counts[k] \|\| 0) + 1` over the keys in turn; its keys, counts and total are stated by Common.TallyKeys, Common.TallyCounts and Common.TallyTotal |
| Common.Bump | src/components/JournalAnalytics.tsx:148 | one more occurrence keeps the keys when the key is already counted, and appends it otherwise |
| Text.TrimStart | src/components/ExportDataDialog.tsx:198 | `trimStart()` removes exactly a leading whitespace run |
| Text.TrimEnd | src/components/ExportDataDialog.tsx:198 | `trimEnd()` removes exactly a trailing whitespace run |
| Text.Trim | src/components/ExportDataDialog.tsx:198 | `trim()` leaves a text that is empty or starts and ends with a non-whitespace character |
| Text.BlankIffAllSpace | src/pages/Support.tsx:52 | `s.trim() === ''` exactly when s is all whitespace |
| Text.WordsAreWords | src/hooks/useJournal.ts:68 | every word of `split(/\s+/).filter(w => w.length > 0)` is non-empty and has no whitespace |
| Text.NoWordsIffAllSpace | src/hooks/useJournal.ts:67-68 | a text has no words exactly when it is blank |
| Text.WordsOfTrim | src/hooks/useJournal.ts:68 | trimming before splitting does not change the words |
| Text.IndexOf | src/hooks/useDetoxChallenges.ts:19-25 | the first position at which a pattern occurs, or none when it occurs nowhere |
| Text.ReplaceFirst | src/hooks/useDetoxChallenges.ts:11 | `replace` with a string pattern rewrites only the first occurrence, and nothing without one |
| Text.Split | src/components/ExportDataDialog.tsx:198 | `split(c)` gives at least one piece, none containing c |
| Text.SplitJoin | src/components/ExportDataDialog.tsx:56 | splitting a joined list recovers it when no piece holds the separator |
| Text.JoinSplit | src/components/ExportDataDialog.tsx:198 | joining the pieces of a split gives the text back |
| Text.NatToString | src/components/ExportDataDialog.tsx:56 | `String(n)` is a non-empty digit string whose value is n |
| Text.NatToStringInjective | src/hooks/useHabits.ts:10-13 | different numbers have different numerals |
| Text.ParseInt | src/hooks/useDetoxChallenges.ts:11 | `parseInt` is NaN exactly when no digit follows the leading whitespace and sign |
| Text.ParseNatToString | src/components/ExportDataDialog.tsx:198 | `parseInt(String(n)) == n` |
| Text.NumberOfNatToString | src/hooks/useDetoxChallenges.ts:37 | `Number(String(n)) == n` |
| Text.NumberOf | src/hooks/useDetoxChallenges.ts:37 | `Number(s)` reads a text whose trimmed form is all digits as a non-negative number |
| Text.IntToString | src/components/ExportDataDialog.tsx:56 | `String(i)` is never empty |
| Text.LeadingDigitsOfDigits | src/components/MonthlySummary.tsx:47-51 | the leading digit run of a digit string is all of it |
| Text.UpperChar | src/components/ExportDataDialog.tsx:71 | `toUpperCase` on ASCII: maps lower-case ASCII letters to upper case and back under `toLowerCase`, and keeps every other character |
| Text.LowerChar | src/components/ExportDataDialog.tsx:221 | `toLowerCase` on ASCII: a capital A to Z becomes a small letter, every other character is kept |
| Text.Lower | src/components/ExportDataDialog.tsx:221 | `toLowerCase` on ASCII: maps each character on its own by Text.LowerChar and keeps the length |
| Sorting.SortBy | src/components/JournalAnalytics.tsx:54-60 | a stable sort by key: ordered by key, the same elements with the same multiplicities |
| Sorting.SortByHeadIsFirstMin | src/components/MonthlySummary.tsx:72-73 | the first element after sorting is the first element of smallest key |
| Sorting.SortInts | src/components/ExportDataDialog.tsx:56 | `sort((a, b) => a - b)` orders the numbers and keeps them as a multiset |
| Sorting.SortedUnique | src/components/ExportDataDialog.tsx:56 | two ordered sequences with the same elements are equal, so the sort has one answer |
| Sorting.SortInPlace | src/components/ExportDataDialog.tsx:56 | the array, sorted in place, holds the sorted contents of its old contents |
| Calendar.DaysInMonth | src/hooks/useHabits.ts:136-138 | `new Date(y, m + 1, 0).getDate()` lies in 28..31, and February has 29 exactly in leap years |
| Calendar.Next | src/components/AnalyticsView.tsx:166 | `new Date(y, m + 1, 1)` is the month whose continuous index is one more |
| Calendar.Prev | src/components/AnalyticsView.tsx:146 | `subMonths(m, 1)` is the month whose continuous index is one less |
| Calendar.NextPrev | src/components/AnalyticsView.tsx:146-166 | one month on and one month back cancel |
| Calendar.MonthBeforeIsIndexOrder | src/components/MonthSelector.tsx:25-29 | comparing (year, month) lexicographically is comparing continuous month indices |
| Calendar.MonthLength | src/hooks/useHabits.ts:136-138 | the next month starts `getDaysInMonth` days after this one |
| Calendar.Weekday | src/components/HabitTable.tsx:190 | `getDay()` lies in 0..6 |
| Calendar.WeekdayStep | src/components/HabitTable.tsx:208-210 | the next day's weekday is one more, modulo 7 |
| Calendar.MondayOf | src/components/JournalAnalytics.tsx:108 | `startOfWeek(d, { weekStartsOn: 1 })` is a Monday at most six days before d |
| Calendar.MondayOfMonotone | src/components/JournalAnalytics.tsx:107-108 | a later day never falls in an earlier week |
| Calendar.FirstColumn | src/components/HabitTable.tsx:190-192 | the Monday-first column of the month's first day lies in 0..6 |
| Calendar.FirstColumnCountsFromMonday | src/components/HabitTable.tsx:190-192 | that column is the number of days from the week's Monday to the first |
| Calendar.DayOf | src/components/JournalAnalytics.tsx:56 | `startOfDay`: the day whose midnight is at most t and whose next midnight is after t |
| Calendar.DayOfMidnight | src/components/JournalAnalytics.tsx:56 | the day of a parsed `yyyy-MM-dd` midnight is that day |
| Calendar.DaysBefore | src/components/JournalAnalytics.tsx:48 | `subDays(t, n)` is n days earlier at the same time of day, never later than t for n ≥ 0 |
| Calendar.YearBefore | src/components/JournalAnalytics.tsx:48 | `subMonths(t, 12)` lands in the same month a year earlier, on the same day of the month or that month's last day, at the same time of day and before t |
| Habits.StorageKeyInjective | src/hooks/useHabits.ts:10-13 | two months of the common era never share a storage key `habit-tracker-data-<year>-<month>` |
| Habits.KeyOfMonth | src/hooks/useHabits.ts:10-13 | the key is the prefix, the year's digits, a dash and the 0-based month's digits |
| Habits.StorageKey | src/hooks/useHabits.ts:10-13 | no contract of its own: `habit-tracker-data-<year>-<month>`; its shape is stated by Habits.KeyOfMonth and its injectivity by Habits.StorageKeyInjective |
| Habits.Cleared | src/hooks/useHabits.ts:30-33 | the same habits in the same order, each with no completed days and every other field kept |
| Habits.CarryOver | src/hooks/useHabits.ts:16-37 | the current month is filled only when it has no entry and the previous month has one, with that month's habits cleared; every other key is untouched |
| Habits.CarryOverIdempotent | src/hooks/useHabits.ts:16-37 | running the carry-over a second time changes nothing |
| Habits.CarryOverKeepsHabits | src/hooks/useHabits.ts:27-34 | the carried month has last month's ids, names and colours in order, none with a completion |
| Habits.MigrateColors | src/hooks/useHabits.ts:46-50 | every habit ends up with a colour; a coloured habit is unchanged, an uncoloured one takes palette entry `index % 8` |
| Habits.MigrateColorsIdempotent | src/hooks/useHabits.ts:46-50 | migrating twice is migrating once |
| Habits.Load | src/hooks/useHabits.ts:42-54 | a month with nothing stored loads no habits; otherwise exactly the stored habits with their colours migrated (Habits.MigrateColors), all coloured |
| Habits.WithoutId | src/hooks/useHabits.ts:83 | a habit survives the delete exactly when it was there and has another id |
| Habits.WithoutIdConcat | src/hooks/useHabits.ts:83 | the delete keeps the remaining habits in their order and multiplicity: it distributes over concatenation, and a single habit stays exactly when its id differs |
| Habits.WithoutIdKeepsDistinct | src/hooks/useHabits.ts:81-87 | after a delete no habit has the id, and distinct ids stay distinct |
| Habits.WithoutAbsentId | src/hooks/useHabits.ts:83 | deleting an id no habit has leaves the list exactly as it was |
| Habits.Renamed | src/hooks/useHabits.ts:89-102 | only the habit with the id changes: it gets the new name and, when one is given, the new colour (`color ?? h.color`); ids, completions and every other habit are kept |
| Habits.RemoveDay | src/hooks/useHabits.ts:127 | a day remains exactly when it was there and differs from the removed day; a missing day leaves the list as it was |
| Habits.ToggleFlips | src/hooks/useHabits.ts:123-128 | toggling flips whether the day is done and leaves every other day's membership alone |
| Habits.ToggleDays | src/hooks/useHabits.ts:123-128 | no contract of its own: a done day is filtered out, any other day appended; its effect is stated by Habits.ToggleFlips and Habits.ToggleTwiceRestores |
| Habits.ToggleTwiceRestores | src/hooks/useHabits.ts:123-128 | toggling a day that was not done twice restores the list exactly |
| Habits.RemoveAppended | src/hooks/useHabits.ts:127-128 | removing a just-appended new day gives back the original list |
| Habits.ToggleKeepsNoDuplicates | src/hooks/useHabits.ts:123-128 | a duplicate-free list stays duplicate-free under toggling |
| Habits.RemoveKeepsNoDuplicates | src/hooks/useHabits.ts:127 | filtering a day out keeps a duplicate-free list duplicate-free |
| Habits.ToggleHabit | src/hooks/useHabits.ts:120-130 | the habit with the id has its days toggled; every other habit is unchanged, and the length is kept |
| Habits.EditWindow | src/hooks/useHabits.ts:111-118 | an editable day lies in the current month and is today, yesterday or the day before |
| Habits.Stats | src/hooks/useHabits.ts:140-152 | total is habits × days, completed is the sum of list lengths, and the percentage is `Math.round(100·completed/total)` (stated by its bounds), 0 when total is 0 |
| Habits.TotalCompleted | src/hooks/useHabits.ts:145 | the sum of the completion lists' lengths is never negative |
| Habits.TotalBounded | src/hooks/useHabits.ts:143-145 | on well-formed months (distinct days within the month) completed ≤ habits × days |
| Habits.StatsPercentageBounded | src/hooks/useHabits.ts:147-151 | on well-formed months completed ≤ total and the percentage lies in 0..100 |
| Habits.ToggleKeepsWellFormed | src/hooks/useHabits.ts:120-130 | toggling a day of the month keeps every habit's days distinct and within the month |
| Habits.BoundedDays | src/hooks/useHabits.ts:143-145 | distinct days of a month number at most its length |
| Habits.DoneOn | src/hooks/useHabits.ts:159 | the number of habits done on a day is at most the number of habits, equal iff every habit has the day, 0 iff none has it |
| Habits.HabitStore.constructor | src/hooks/useHabits.ts:39-59 | the store opens on the selected month with the habits loaded for it |
| Habits.HabitStore.AddHabit | src/hooks/useHabits.ts:66-79 | exactly one habit, with no completions, is appended; ids stay distinct given a fresh id |
| Habits.HabitStore.DeleteHabit | src/hooks/useHabits.ts:81-87 | the habits become WithoutId of the old list, the remaining habits in their order (Habits.WithoutIdConcat), and stay id-distinct |
| Habits.HabitStore.UpdateHabit | src/hooks/useHabits.ts:89-102 | the habits become the renamed list and stay id-distinct |
| Habits.HabitStore.ToggleDay | src/hooks/useHabits.ts:108-134 | outside the current month or the three-day window nothing changes; inside it the matching habit's day is toggled |
| Habits.HabitStore.DaysInSelectedMonth | src/hooks/useHabits.ts:136-138 | the selected month has 28 to 31 days |
| Habits.HabitStore.CompletionStatsOfMonth | src/hooks/useHabits.ts:140-152 | the stats of the habits over the selected month's days |
| Habits.HabitStore.HeatmapData | src/hooks/useHabits.ts:154-164 | one entry per day of the month, entry `d-1` the number of habits done on day `d` |
| HabitTable.ClickableIsToggleWindow | src/components/HabitTable.tsx:78-81 | a day cell is clickable exactly when the store's toggle window admits the day: the current month, today or the two days before |
| HabitTable.IsDayClickable | src/components/HabitTable.tsx:78-81 | no contract of its own: the current month and a day from two days before the current day up to it; stated against the store by HabitTable.ClickableIsToggleWindow |
| HabitTable.DayRange | src/components/HabitTable.tsx:200 | `Array.from` gives end - start + 1 consecutive days from start, none for a negative length |
| HabitTable.WeeklyViewIsLastWeek | src/components/HabitTable.tsx:197-201 | the weekly view shows, increasing, exactly the days of the month in the seven days ending on the current day, so at most 7 |
| HabitTable.MonthlyViewIsWholeMonth | src/components/HabitTable.tsx:202 | any other view shows exactly the days 1..daysInMonth |
| HabitTable.VisibleDays | src/components/HabitTable.tsx:196-203 | no contract of its own: the weekly or the monthly range of days; stated by HabitTable.WeeklyViewIsLastWeek and HabitTable.MonthlyViewIsWholeMonth |
| HabitTable.DayOfWeekSteps | src/components/HabitTable.tsx:208-210 | `getDayOfWeek` lies in 0..6, day 1 sits at the start offset, and the next day one column further round |
| HabitTable.DayOfWeekIsWeekday | src/components/HabitTable.tsx:189-210 | the column of each day is its weekday counted from Monday |
| HabitTable.DayOfWeek | src/components/HabitTable.tsx:208-210 | no contract of its own: `(startOffset + day - 1) % 7` with JavaScript's remainder; stated by HabitTable.DayOfWeekSteps and HabitTable.DayOfWeekIsWeekday |
| Heatmap.HeatLevel | src/components/Heatmap.tsx:15-23 | the level lies in 0..4 and is 0 when nothing is done or the maximum is 0 |
| Heatmap.HeatLevelQuarters | src/components/Heatmap.tsx:18-22 | with both positive, level k holds exactly the values above (k-1)/4 and at most k/4 of the maximum (level 4 everything above 3/4) |
| Heatmap.HeatLevelMonotone | src/components/Heatmap.tsx:16-22 | a day with something done is shaded, and more done is never a lower level |
| Heatmap.RatioAtMost | src/components/Heatmap.tsx:18-21 | the floating ratio test `value / maxValue <= k/4` is the integer test `4·value <= k·maxValue` |
| Heatmap.Cells | src/components/Heatmap.tsx:48-61 | one cell per data entry, labelled index + 1, with that entry's level |
| HabitHeatmap.CompletionRateBounded | src/components/HabitHeatmap.tsx:33-34 | on a well-formed month the rounded completion rate lies in 0..100 |
| HabitHeatmap.CompletionRate | src/components/HabitHeatmap.tsx:34 | no contract of its own: the rounded percentage of the month's days done, 0 for a month without days; its range is stated by HabitHeatmap.CompletionRateBounded |
| HabitHeatmap.DayCells | src/components/HabitHeatmap.tsx:89-104 | one cell per day 1..daysInMonth, marked exactly when the day is completed |
| HabitHeatmap.CountCells | src/components/HabitHeatmap.tsx:89-91 | the marked cells are as many as the distinct completed days in 1..n |
| HabitHeatmap.HighlightedCellsMatchCount | src/components/HabitHeatmap.tsx:89-91 | in a well-formed month the marked cells are as many as the completed days counted |
| MonthSelector.IsFutureMonth | src/components/MonthSelector.tsx:25-29 | a month is in the future exactly when its continuous index exceeds the current month's |
| MonthSelector.HandlePrevMonth | src/components/MonthSelector.tsx:34-36 | always the month before |
| MonthSelector.HandleNextMonth | src/components/MonthSelector.tsx:38-44 | a month is passed on exactly when the selection is before the current month, and then it is the next one |
| MonthSelector.HandleMonthSelect | src/components/MonthSelector.tsx:46-51 | the chosen month of the selected year is passed on exactly when it is not in the future |
| MonthSelector.HandleYearChange | src/components/MonthSelector.tsx:53-63 | a year change is passed on exactly when it does not pass the current year; the month is kept, or pulled back to the current month when it would be in the future, so the result is never in the future |
| MonthSelector.NeverIntoTheFuture | src/components/MonthSelector.tsx:34-63 | from a selection that is not in the future, no handler passes on a future month |
| MonthSelector.BackAndForth | src/components/MonthSelector.tsx:34-44 | from the current month, next is refused and previous-then-next returns to it |
| HabitTracker.SectionIndex | src/components/HabitTracker.tsx:107-108 | `indexOf` finds each section at its place in [habits, journal, goals] |
| HabitTracker.CanGoNext | src/components/HabitTracker.tsx:85-89 | the next month may be shown exactly when it is not after the current month, that is when the selection is before it |
| HabitTracker.CanGoNextAgrees | src/components/HabitTracker.tsx:85-89 | the page's rule and the month selector's `handleNextMonth` agree |
| HabitTracker.SectionAfter | src/components/HabitTracker.tsx:106-114 | left moves one section on and right one back, clamped at the ends |
| HabitTracker.SectionSwipeUndone | src/components/HabitTracker.tsx:106-114 | a section swipe that moves is undone by the opposite swipe; swipes past either end change nothing |
| HabitTracker.CurrentDay | src/components/HabitTracker.tsx:193-199 | today's date in the current month, else the number of days of the selected month; StreakCounter computes the same value at StreakCounter.tsx:20-24 and passes it to Streaks.Summarise |
| HabitTracker.CurrentDayInMonth | src/components/HabitTracker.tsx:193-199 | the current day is always a day of the selected month |
| HabitTracker.Tracker.constructor | src/components/HabitTracker.tsx:72-80 | the page opens on the habits section of the current month, with no hint |
| HabitTracker.Tracker.PrevMonth | src/components/HabitTracker.tsx:91-95 | the selection steps one month back and the hint points right |
| HabitTracker.Tracker.NextMonth | src/components/HabitTracker.tsx:97-103 | without `canGoNext` nothing changes; otherwise one month on with the hint left; a valid selection stays valid |
| HabitTracker.Tracker.HintExpires | src/components/HabitTracker.tsx:94 | the hint's timer clears the hint and nothing else |
| HabitTracker.Tracker.SwipeSection | src/components/HabitTracker.tsx:106-114 | the section moves as `SectionAfter` says, nothing else changes |
| HabitTracker.Tracker.OnSwipe | src/components/HabitTracker.tsx:116-120 | in the habits section a horizontal swipe changes the month, elsewhere the section; vertical swipes change nothing; the selection never passes the current month |
| HabitTracker.Tracker.CheckMonth | src/components/HabitTracker.tsx:123-132 | the selection follows the current month only when it is exactly the month before |
| HabitTracker.Rollover | src/components/HabitTracker.tsx:122-145 | a page opened in one month and checked after the month turns shows the new month |
| HabitTracker.TouchEndOnPage | src/components/HabitTracker.tsx:116-120 | a touch end classified with threshold 60 is dispatched to the page; no direction changes nothing |
| Swipe.Classify | src/hooks/useSwipe.ts:47-65 | left, right, up and down each fire exactly under the source's condition: the dominant axis beyond the threshold, the sign choosing the side |
| Swipe.DiagonalIsNoSwipe | src/hooks/useSwipe.ts:53-65 | a move exactly as wide as it is high fires nothing |
| Swipe.ReverseIsOpposite | src/hooks/useSwipe.ts:53-65 | a swipe played backwards fires the opposite direction |
| Swipe.ThresholdMonotone | src/hooks/useSwipe.ts:53-59 | a direction fired at a higher threshold fires at every lower one |
| Swipe.SwipeDetector.constructor | src/hooks/useSwipe.ts:24-27 | the detector starts with no points and the given threshold |
| Swipe.SwipeDetector.TouchStart | src/hooks/useSwipe.ts:29-35 | the start is recorded and the end forgotten |
| Swipe.SwipeDetector.TouchMove | src/hooks/useSwipe.ts:37-42 | the end becomes the latest point, the start is kept |
| Swipe.SwipeDetector.TouchEnd | src/hooks/useSwipe.ts:44-69 | without both points nothing happens; otherwise the classified direction fires and both points are cleared |
| Swipe.Tap | src/hooks/useSwipe.ts:29-45 | a touch that starts and ends without a move fires nothing |
| Greeting.Bucket | src/components/GreetingPanel.tsx:15-24 | 5..11 morning, 12..16 afternoon, 17..20 evening, every other hour night, each an if-and-only-if |
| Greeting.TimeGreetingAt | src/components/GreetingPanel.tsx:14-25 | the greeting and emoji of the hour's bucket |
| Greeting.GreetingOf | src/components/GreetingPanel.tsx:16-23 | no contract of its own: the greeting and emoji of each bucket; that the four greetings differ is stated by Greeting.BucketsPartitionTheDay |
| Greeting.BucketsPartitionTheDay | src/components/GreetingPanel.tsx:14-25 | over 0..23 the buckets hold 7, 5, 4 and 8 hours, all 24, with four distinct greetings |
| Greeting.Run | src/components/GreetingPanel.tsx:16-24 | counting a run of hours that share a bucket adds the run's length to that bucket only |
| Greeting.GreetingChangesAtBoundaries | src/components/GreetingPanel.tsx:16-24 | from one hour to the next the greeting changes only at 5, 12, 17 and 21 |
| Support.ValidEmailIsPattern | src/pages/Support.tsx:57-60 | the first-'@' check used by the model is exactly the regular expression `^[^\s@]+@[^\s@]+\.[^\s@]+$` |
| Support.PatternIsNotBlank | src/pages/Support.tsx:52-60 | an address that fits the pattern never fails the blank check |
| Support.Validate | src/pages/Support.tsx:49-60 | blank fields are rejected first; then an email off the pattern; otherwise the message is sent; each outcome stated as an if-and-only-if |
| Support.BlankCheckFirst | src/pages/Support.tsx:52-55 | a blank name or message is reported as missing whatever the email |
| Support.PaddedEmailRejected | src/pages/Support.tsx:57-60 | an address with a leading space passes the blank check and fails the pattern |
| Support.SupportForm.constructor | src/pages/Support.tsx:44-47 | the form starts empty and not submitting |
| Support.SupportForm.Submit | src/pages/Support.tsx:49-72 | a rejection leaves the form as it was; a send clears the three fields and ends not submitting |
| Support.SubmitTwice | src/pages/Support.tsx:68-71 | after a send, an immediate second submit is rejected as blank |
| Streaks.RunBack | src/components/StreakCounter.tsx:51-58 | the backward count never exceeds the days from the current day down to day 1 |
| Streaks.RunBackMeaning | src/components/StreakCounter.tsx:51-58 | every day of the counted run is done, and the day just before it, if it is a day of the month, is not |
| Streaks.CurrentStreak | src/components/StreakCounter.tsx:51-58 | the loop counting back from the current day computes `RunBack` |
| Streaks.Scan | src/components/StreakCounter.tsx:34-48 | the scan's run never exceeds its best run, which never exceeds the number of days |
| Streaks.LongestStreak | src/components/StreakCounter.tsx:34-48 | the loop over the sorted days computes the scan's best run |
| Streaks.RunAt | src/components/StreakCounter.tsx:40-44 | the run ending at a position is at least 1 and at most the positions up to it |
| Streaks.ScanTracksRun | src/components/StreakCounter.tsx:38-47 | on increasing positive days the scan's run is the run of consecutive days ending at the last day kept, and the best run is at least that |
| Streaks.ScanLongestGrows | src/components/StreakCounter.tsx:45 | the best run never shrinks as the scan goes on |
| Streaks.ScanFindsRun | src/components/StreakCounter.tsx:34-48 | any k consecutive done days ending on or before the current day make the longest streak at least k |
| Streaks.SortedDistinctIncreasing | src/components/StreakCounter.tsx:31 | sorting duplicate-free days gives strictly increasing days |
| Streaks.SortKeepsMembers | src/components/StreakCounter.tsx:31 | sorting keeps exactly the same days |
| Streaks.CurrentAtMostLongest | src/components/StreakCounter.tsx:34-58 | for duplicate-free days of the month, a habit's current streak never exceeds its longest |
| Streaks.BestIndex | src/components/StreakCounter.tsx:60-68 | the chosen habit, if any, is one of the habits |
| Streaks.BestIndexIsFirstMax | src/components/StreakCounter.tsx:60-68 | no habit is chosen exactly when every longest streak is 0; otherwise the chosen one is the first with the overall longest streak |
| Streaks.PrefixStep | src/components/StreakCounter.tsx:60-70 | one more habit moves the running maximum and the choice exactly as the strict `>` comparison does |
| Streaks.Longests | src/components/StreakCounter.tsx:30-48 | one longest streak per habit, in order |
| Streaks.Currents | src/components/StreakCounter.tsx:50-58 | one current streak per habit, in order |
| Streaks.HabitStreaks | src/components/StreakCounter.tsx:31-58 | one habit's current and longest streaks, computed on an in-place sorted copy of its days |
| Streaks.Summarise | src/components/StreakCounter.tsx:19-82 | `streakData`: the maxima of the longest and current streaks, the first habit with the longest streak reported with its name, colour and both streaks, and the total number of done days |
| Streaks.RunBackSameDays | src/components/StreakCounter.tsx:53 | the current streak depends only on which days are done, so the sorted copy gives the same count |
| WeeklyAnalytics.WeekDays | src/components/WeeklyAnalytics.tsx:14-18 | the loop collects the days from max(1, currentDay - 6) to currentDay, in order |
| WeeklyAnalytics.WeekIsWeeklyView | src/components/WeeklyAnalytics.tsx:14-18 | on a day of the month, the panel's week is the habit table's weekly view |
| WeeklyAnalytics.Positive | src/components/WeeklyAnalytics.tsx:49 | keeps exactly the positive days |
| WeeklyAnalytics.WeekEarlier | src/components/WeeklyAnalytics.tsx:49 | each day shifted back by seven, in order |
| WeeklyAnalytics.PositiveOfRange | src/components/WeeklyAnalytics.tsx:17 | dropping non-positive days from a range of days clips it at day 1 |
| WeeklyAnalytics.PreviousWeek | src/components/WeeklyAnalytics.tsx:49 | the previous week is the days from max(1, currentDay - 13) to currentDay - 7 |
| WeeklyAnalytics.InWeek | src/components/WeeklyAnalytics.tsx:22 | keeps exactly the done days that are in the week, never more than there were |
| WeeklyAnalytics.InWeekNoDuplicates | src/components/WeeklyAnalytics.tsx:22 | filtering keeps the days duplicate-free |
| WeeklyAnalytics.RateBounded | src/components/WeeklyAnalytics.tsx:24 | a rate of at most all the days lies between 0 and 100 |
| WeeklyAnalytics.WeeklyRateBounded | src/components/WeeklyAnalytics.tsx:22-24 | with each day done once, a habit's weekly count is at most the week's length and its rate between 0 and 100 |
| WeeklyAnalytics.BestRunUpTo | src/components/WeeklyAnalytics.tsx:37-46 | no run of done days ending on a day from 1 to n is longer |
| WeeklyAnalytics.BestRunAttained | src/components/WeeklyAnalytics.tsx:37-46 | the best streak is 0 or the run ending on some day from 1 to n |
| WeeklyAnalytics.BestStreak | src/components/WeeklyAnalytics.tsx:37-46 | the forward loop computes the best run |
| WeeklyAnalytics.CurrentAtMostBest | src/components/WeeklyAnalytics.tsx:27-46 | the current streak never exceeds the best streak |
| WeeklyAnalytics.ScanLongestAttained | src/components/StreakCounter.tsx:34-48 | the streak counter's longest streak is 0 or the run ending at some day it keeps |
| WeeklyAnalytics.RunAtAtMostRunBack | src/components/StreakCounter.tsx:38-47 | a run of consecutive positions is a run of done days |
| WeeklyAnalytics.SortedDays | src/components/StreakCounter.tsx:31 | sorting duplicate-free positive days gives increasing positive days, the same ones |
| WeeklyAnalytics.BestRunAtMostLongest | src/components/WeeklyAnalytics.tsx:37-46 | the panel's best streak is at most the streak counter's longest |
| WeeklyAnalytics.LongestAtMostBestRun | src/components/WeeklyAnalytics.tsx:37-46 | the streak counter's longest streak is at most the panel's best |
| WeeklyAnalytics.LongestIsBestRun | src/components/WeeklyAnalytics.tsx:37-46 | for duplicate-free positive days the streak counter's sorted scan and the panel's walk over the calendar give the same longest streak |
| WeeklyAnalytics.HabitWeekStats | src/components/WeeklyAnalytics.tsx:21-63 | one habit's weekly count, total, rate, current and best streaks and trend against the previous week |
| WeeklyAnalytics.Pick | src/components/WeeklyAnalytics.tsx:71-80 | a habit is picked exactly when there are habits |
| WeeklyAnalytics.PickIsFirstBest | src/components/WeeklyAnalytics.tsx:71-80 | the habit picked is the first whose key no other habit beats, as the strict comparison starting from the first habit keeps it |
| WeeklyAnalytics.AllHabitWeeks | src/components/WeeklyAnalytics.tsx:21-67 | one row per habit in order, and their total of done days |
| WeeklyAnalytics.Analyse | src/components/WeeklyAnalytics.tsx:12-92 | the panel's `analytics`: the week, the rows, the totals, the overall rate and the first best, worst and longest-streak habits |
| WeeklyAnalytics.CompletedSumBounded | src/components/WeeklyAnalytics.tsx:66-67 | the total done is at most the number of habits times the week's length |
| WeeklyAnalytics.OverallRateBounded | src/components/WeeklyAnalytics.tsx:66-68 | with every habit's days duplicate-free, the overall rate lies between 0 and 100 |
| Detox.FirstHAfterDigits | src/hooks/useDetoxChallenges.ts:11 | removing the first `H` of a numeral followed by `H...` removes the one right after the digits |
| Detox.NoHInNumeral | src/hooks/useDetoxChallenges.ts:11 | removing `H` from a bare numeral changes nothing |
| Detox.NoHPlusInLabel | src/hooks/useDetoxChallenges.ts:11 | removing `H+` from `nH` changes nothing |
| Detox.FirstHPlusAfterDigits | src/hooks/useDetoxChallenges.ts:11 | removing `H+` from `nH+` leaves the numeral |
| Detox.HoursOfLabel | src/hooks/useDetoxChallenges.ts:11 | the labels `nH` and `nH+` both read as n hours |
| Detox.ScreenTimeUnderIsFewerHours | src/hooks/useDetoxChallenges.ts:9-13 | between two hour labels the screen-time rule holds exactly when the value's hours are strictly fewer than the target's |
| Detox.EmptyScreenTimeNeverUnder | src/hooks/useDetoxChallenges.ts:10 | an empty value never meets a screen-time target |
| Detox.IsScreenTimeUnder | src/hooks/useDetoxChallenges.ts:9-13 | no contract of its own: false for an empty value, else fewer hours than the target, a `NaN` reading comparing false; stated by Detox.ScreenTimeUnderIsFewerHours and Detox.EmptyScreenTimeNeverUnder |
| Detox.TargetMinutes | src/hooks/useDetoxChallenges.ts:28 | a social-media target is 30, 60 or 120 minutes |
| Detox.SocialMinutesOfOption | src/hooks/useDetoxChallenges.ts:18-27 | the seven journal labels read as 30, 30, 60, 150, 210, 270 and 300 minutes, the first matching fragment deciding |
| Detox.SocialMediaUnderOptions | src/hooks/useDetoxChallenges.ts:16-30 | under `30min` the first two labels meet the target, under any other target the first three |
| Detox.SocialMinutes | src/hooks/useDetoxChallenges.ts:18-27 | no contract of its own: the first fragment the label contains decides, else `parseInt(v) \|\| 0`; its readings are stated by Detox.SocialMinutesOfOption |
| Detox.IsSocialMediaUnder | src/hooks/useDetoxChallenges.ts:16-30 | no contract of its own: false for an empty value, else at most the target's minutes; stated by Detox.SocialMediaUnderOptions |
| Detox.SocialUpTo30 | src/hooks/useDetoxChallenges.ts:19 | `0-30min` reads as 30 minutes, by its `30min` fragment |
| Detox.Social30To60 | src/hooks/useDetoxChallenges.ts:19 | `30min-1H` reads as 30 minutes |
| Detox.Social1To2 | src/hooks/useDetoxChallenges.ts:21 | `1-2H` reads as 60 minutes |
| Detox.Social2To3 | src/hooks/useDetoxChallenges.ts:22 | `2-3H` reads as 150 minutes |
| Detox.Social3To4 | src/hooks/useDetoxChallenges.ts:23 | `3-4H` reads as 210 minutes |
| Detox.Social4To5 | src/hooks/useDetoxChallenges.ts:24 | `4-5H` reads as 270 minutes |
| Detox.SocialOver5 | src/hooks/useDetoxChallenges.ts:25 | `5H+` reads as 300 minutes |
| Detox.ClockHour | src/hooks/useDetoxChallenges.ts:38-39 | a 12-hour clock hour and its period give an hour of 0..23, in the afternoon half exactly for PM, congruent mod 12 |
| Detox.SplitPair | src/hooks/useDetoxChallenges.ts:36-37 | two pieces joined by a separator neither holds split back into the two |
| Detox.HourOfClock | src/hooks/useDetoxChallenges.ts:37-40 | the clock part `h:mm` with its period reads as the 24-hour hour |
| Detox.PickupHourOfLabel | src/hooks/useDetoxChallenges.ts:35-41 | a label `h:mm AM` or `h:mm PM` reads as its 24-hour hour, minutes ignored |
| Detox.PickupHourOfParts | src/hooks/useDetoxChallenges.ts:36 | a label is read as its clock part followed by its period |
| Detox.IsFirstPickupAfter | src/hooks/useDetoxChallenges.ts:33-43 | no contract of its own: false for an empty value, else the value's hour is at least the target's, a `NaN` hour comparing false; its readings are stated by Detox.PickupHourOfLabel and Detox.DefaultPickupTargets |
| Detox.DefaultPickupTargets | src/types/detoxChallenge.ts:28-56 | the two built-in pickup targets read as 10 and 8 |
| Detox.Completes | src/hooks/useDetoxChallenges.ts:91-102 | a challenge is met only for a screen-time, social-media or pickup target and a filled-in reading |
| Detox.InWindow | src/hooks/useDetoxChallenges.ts:112-113 | keeps exactly the entries dated from the start date to today |
| Detox.Relevant | src/hooks/useDetoxChallenges.ts:112-114 | the window's entries, as a permutation, most recent first |
| Detox.RelevantMembers | src/hooks/useDetoxChallenges.ts:112-114 | the relevant entries are exactly the entries dated from the start to today |
| Detox.DatesWhereMembers | src/hooks/useDetoxChallenges.ts:117-119 | a date is listed exactly when some entry with that date passes |
| Detox.DatesWhereOrdered | src/hooks/useDetoxChallenges.ts:117-119 | entries most recent first give their dates most recent first |
| Detox.WindowDates | src/hooks/useDetoxChallenges.ts:111-119 | the dates of the window's passing entries, most recent first |
| Detox.CompletedDaysMeaning | src/hooks/useDetoxChallenges.ts:111-119 | `completedDays` are the dates from the start date to today whose entry meets the challenge, most recent first |
| Detox.CompletedDays | src/hooks/useDetoxChallenges.ts:111-119 | no contract of its own: the dates of the window's entries that complete the challenge; stated in full by Detox.CompletedDaysMeaning |
| Detox.StreakBack | src/hooks/useDetoxChallenges.ts:125-135 | the streak never exceeds the number of completed days |
| Detox.StreakBackMeaning | src/hooks/useDetoxChallenges.ts:125-135 | today and the days before it that the streak covers are all completed, and unless every completed day was used, the day before is not |
| Detox.RefreshedFacts | src/hooks/useDetoxChallenges.ts:108-145 | an inactive challenge is unchanged; an active one changes only its progress, its current streak is at most its completed days, its longest streak never drops and is the old longest or the current streak |
| Detox.Refreshed | src/hooks/useDetoxChallenges.ts:108-145 | no contract of its own: one challenge after `updateStreaks`; stated by Detox.RefreshedFacts and Detox.RefreshedStreakIsRun |
| Detox.RefreshedStreakIsRun | src/hooks/useDetoxChallenges.ts:121-135 | the current streak counts back from today over completed days and stops at the first day missing |
| Detox.StreakBackSameDays | src/hooks/useDetoxChallenges.ts:123-130 | the streak depends only on which days are listed, so the sorted copy gives the same count |
| Detox.CountBack | src/hooks/useDetoxChallenges.ts:125-135 | the loop computes `StreakBack` with the number of completed days as its limit |
| Detox.RefreshChallenge | src/hooks/useDetoxChallenges.ts:108-145 | one challenge as `updateStreaks` leaves it |
| Detox.WithoutChallenge | src/hooks/useDetoxChallenges.ts:81 | keeps exactly the challenges with another id |
| Detox.WithoutChallengeConcat | src/hooks/useDetoxChallenges.ts:81 | the removal keeps the remaining challenges in their order and multiplicity: it distributes over concatenation, and a single challenge stays exactly when its id differs |
| Detox.WithoutChallengeSnoc | src/hooks/useDetoxChallenges.ts:81 | a challenge at the end of the list stays exactly when its id differs, after the filtered rest |
| Detox.WithoutAbsentChallenge | src/hooks/useDetoxChallenges.ts:81 | removing an id no challenge has changes nothing |
| Detox.RemoveUndoesAdd | src/hooks/useDetoxChallenges.ts:77-81 | removing a challenge just added under a fresh id gives back the list before |
| Detox.Toggled | src/hooks/useDetoxChallenges.ts:85-87 | the list keeps its length |
| Detox.ToggleTwiceRestores | src/hooks/useDetoxChallenges.ts:85-87 | toggling twice restores the list, and a toggle flips `isActive` of exactly the challenges with that id and changes nothing else |
| Detox.Unused | src/hooks/useDetoxChallenges.ts:164-166 | keeps exactly the templates whose name no challenge uses, in the templates' order and multiplicity (Detox.UnusedConcat) |
| Detox.UnusedConcat | src/hooks/useDetoxChallenges.ts:164-166 | the templates are offered in their own order: Unused distributes over concatenation, and a single template stays exactly when no challenge has its name |
| Detox.AddedTemplateNotAvailable | src/hooks/useDetoxChallenges.ts:77-166 | a template is no longer offered once a challenge is made from it |
| Detox.ChallengeStore.constructor | src/hooks/useDetoxChallenges.ts:49-54 | the store starts from what was saved |
| Detox.ChallengeStore.AddChallenge | src/hooks/useDetoxChallenges.ts:61-78 | the new active challenge with no progress is appended, and ids stay distinct |
| Detox.ChallengeStore.RemoveChallenge | src/hooks/useDetoxChallenges.ts:80-82 | the challenges become WithoutChallenge of the old list: those with that id are removed and the others stay in their order (Detox.WithoutChallengeConcat); ids stay distinct |
| Detox.WithoutChallengeKeepsDistinct | src/hooks/useDetoxChallenges.ts:81 | removing challenges keeps the remaining ids distinct |
| Detox.ChallengeStore.ToggleChallenge | src/hooks/useDetoxChallenges.ts:84-88 | the challenges with that id are toggled, and ids stay distinct |
| Detox.ChallengeStore.UpdateStreaks | src/hooks/useDetoxChallenges.ts:105-150 | every challenge refreshed against the journal on today, in place, ids kept distinct |
| Detox.ChallengeStore.JournalChanged | src/hooks/useDetoxChallenges.ts:153-157 | streaks are refreshed only when there are challenges and journal entries |
| Detox.ChallengeStore.AvailableChallenges | src/hooks/useDetoxChallenges.ts:164-166 | exactly the built-in templates whose name no challenge uses, in the built-in order, since it is Unused of DEFAULT_CHALLENGES (Detox.UnusedConcat) |
| Achievements.Longests | src/components/AchievementBadges.tsx:27 | the challenges' longest streaks, in order |
| Achievements.Currents | src/components/AchievementBadges.tsx:28 | the challenges' current streaks, in order |
| Achievements.MaxStreak | src/components/AchievementBadges.tsx:27 | `Math.max(0, ...)`: no challenge's longest streak exceeds it, and it is 0 or one of them |
| Achievements.CurrentMaxStreak | src/components/AchievementBadges.tsx:28 | no challenge's current streak exceeds it, and it is 0 or one of them |
| Achievements.CurrentMaxAtMostMax | src/components/AchievementBadges.tsx:27-28 | when no challenge's current streak exceeds its longest, neither does the maximum |
| Achievements.TotalCompletedDays | src/components/AchievementBadges.tsx:29 | the total is 0 exactly when no challenge has a completed day |
| Achievements.DigitsOnly | src/components/AchievementBadges.tsx:33 | the digits of a text, never longer than it |
| Achievements.DigitsOnlyAppend | src/components/AchievementBadges.tsx:33 | removing non-digits distributes over concatenation |
| Achievements.DigitsOnlyOfDigits | src/components/AchievementBadges.tsx:33 | a text of digits is kept whole |
| Achievements.ScreenHours | src/components/AchievementBadges.tsx:33 | a text without digits reads as 99 hours |
| Achievements.LowScreenOfOption | src/components/AchievementBadges.tsx:32-35 | the form's twelve labels `1H` to `12H+` read as 1 to 12 hours, so only 1H, 2H and 3H make a low-screen day |
| Achievements.ScreenHoursOfLabel | src/components/AchievementBadges.tsx:33 | `nH` and `nH+` read as n hours |
| Achievements.MetricsOf | src/components/AchievementBadges.tsx:27-35 | the streak maxima and totals are non-negative and the day and challenge counts at most the entries and challenges |
| Achievements.Badge | src/components/AchievementBadges.tsx:37-138 | each badge unlocks exactly when its metric reaches its threshold; its progress is the progress metric capped at the threshold, uncapped for the active-challenge badge |
| Achievements.Badges | src/components/AchievementBadges.tsx:37-138 | the ten badges in display order |
| Achievements.UnlockedCount | src/components/AchievementBadges.tsx:141 | at most the number of badges |
| Achievements.ProgressCapped | src/components/AchievementBadges.tsx:45-135 | capped progress never exceeds the threshold and is full exactly when the metric has reached it |
| Achievements.FullProgressIsUnlocked | src/components/AchievementBadges.tsx:44-136 | when no current streak exceeds its longest, a badge with full progress is unlocked |
| Achievements.UnlockedWithoutProgress | src/components/AchievementBadges.tsx:54-55 | a broken seven-day streak keeps the 7-Day Warrior badge with no progress shown |
| Achievements.UnlocksMonotone | src/components/AchievementBadges.tsx:37-141 | larger metrics unlock every badge unlocked before, so at least as many |
| MonthlySummary.MonthEntriesAsWritten | src/components/MonthlySummary.tsx:22-25 | as written: keeps exactly the entries whose date, read as UTC midnight, falls in the month on the local clock, in their stored order (MonthlySummary.MonthEntriesConcat) |
| MonthlySummary.MonthEntries | src/components/MonthlySummary.tsx:18-25 | keeps exactly the entries dated in the month, read as local midnight, in their stored order (MonthlySummary.MonthEntriesConcat) |
| MonthlySummary.MonthEntriesConcat | src/components/MonthlySummary.tsx:22-25 | both month filters keep the stored order and multiplicity: each distributes over concatenation, and a single entry stays exactly when it is in the month |
| MonthlySummary.AsWrittenMovesFirstOfMonth | src/components/MonthlySummary.tsx:23-24 | west of UTC an entry on the first of a month is counted in the month before |
| MonthlySummary.AsWrittenAgreesEastOfUtc | src/components/MonthlySummary.tsx:23-24 | at UTC or east of it both readings keep the same entries |
| MonthlySummary.MonthDays | src/components/MonthlySummary.tsx:18-20 | the days from the start to the end of the month are as many as the month has days |
| MonthlySummary.CompletedDays | src/components/MonthlySummary.tsx:28-30 | at most the entries, and 0 exactly when no entry has a heading filled in |
| MonthlySummary.CompletionRate | src/components/MonthlySummary.tsx:31 | the rate times the month's days is 100 times the completed days |
| MonthlySummary.MonthAtMostDays | src/components/MonthlySummary.tsx:22-25 | with one entry per date, a month holds at most as many entries as days |
| MonthlySummary.RateAtMostAll | src/components/MonthlySummary.tsx:31 | no more completed days than days gives at most 100% |
| MonthlySummary.CompletionAtMostAll | src/components/MonthlySummary.tsx:27-31 | with one entry per date the completion rate is at most 100% |
| MonthlySummary.AvgRating | src/components/MonthlySummary.tsx:34-37 | 0 when no entry is rated |
| MonthlySummary.RatingSumBounds | src/components/MonthlySummary.tsx:36 | ratings of 1 to 5 sum to between the count and five times it |
| MonthlySummary.AvgRatingBounds | src/components/MonthlySummary.tsx:34-37 | with ratings of at most five, the average is 0 or between 1 and 5 |
| MonthlySummary.TotalWords | src/components/MonthlySummary.tsx:40-44 | the month's words are the journal analytics' five heading totals added up |
| MonthlySummary.FirstDigits | src/components/MonthlySummary.tsx:49-50 | the first run of digits: empty exactly when there is no digit, otherwise a maximal run with no digit before it |
| MonthlySummary.TailRun | src/components/MonthlySummary.tsx:49 | behind a leading non-digit the first run of the rest is the first of the whole |
| MonthlySummary.SummaryScreenHours | src/components/MonthlySummary.tsx:47-51 | never negative |
| MonthlySummary.LeadingDigitsOfNumeral | src/components/MonthlySummary.tsx:49 | a numeral followed by a non-digit is the leading run |
| MonthlySummary.SummaryScreenOfOption | src/components/MonthlySummary.tsx:47-51 | the form's labels read as 1 to 12 hours, as in the journal analytics |
| MonthlySummary.SummaryScreenOfLabel | src/components/MonthlySummary.tsx:47-51 | `nH` and `nH+` read as n hours |
| MonthlySummary.SummarySocialMinutes | src/components/MonthlySummary.tsx:58-65 | a label reads as 0, 30, 90, 150 or 200 minutes |
| MonthlySummary.SummaryOneToTwo | src/components/MonthlySummary.tsx:61 | `1-2H` reads as 90 minutes in the monthly summary |
| MonthlySummary.SummarySocialOfOption | src/components/MonthlySummary.tsx:58-65 | the form's labels read as 30, 30, 90, 150, 0, 0 and 0 minutes: the last three match no fragment |
| MonthlySummary.SummaryUnread | src/components/MonthlySummary.tsx:58-65 | `3-4H`, `4-5H` and `5H+` read as 0 minutes |
| MonthlySummary.SummarySocialTotal | src/components/MonthlySummary.tsx:68 | at most 200 minutes per entry |
| MonthlySummary.SummaryAvgScreenTime | src/components/MonthlySummary.tsx:52-55 | 0 when no entry has a screen time |
| MonthlySummary.SummaryAvgSocialMedia | src/components/MonthlySummary.tsx:66-69 | 0 when no entry has a social-media time |
| MonthlySummary.SummaryAvgSocialBounds | src/components/MonthlySummary.tsx:66-69 | the average lies between 0 and 200 minutes |
| MonthlySummary.BestDay | src/components/MonthlySummary.tsx:72 | absent exactly when the month has no entries |
| MonthlySummary.WorstDay | src/components/MonthlySummary.tsx:73 | absent exactly when no entry is rated |
| MonthlySummary.BestDayIsFirstHighest | src/components/MonthlySummary.tsx:72 | the best day is the first entry with the highest rating |
| MonthlySummary.WorstDayIsFirstLowestRated | src/components/MonthlySummary.tsx:73 | the hardest day is the first rated entry with the lowest rating |
| MonthlySummary.LowestFirst | src/components/MonthlySummary.tsx:73 | the head of the ascending sort is a first entry of least rating |
| MonthlySummary.WorstDayIsLowestRated | src/components/MonthlySummary.tsx:73 | given any rated entry, the hardest day exists, is rated and is rated no higher |
| MonthlySummary.Summary | src/components/MonthlySummary.tsx:17-86 | the month's entry count and days, with a best day exactly when there are entries; the entries are chosen by the corrected MonthEntries, which agrees with the source at UTC or east of it (MonthlySummary.AsWrittenAgreesEastOfUtc) |
| MonthlySummary.SummaryBounds | src/components/MonthlySummary.tsx:27-69 | with one entry per date and ratings of at most five, completion is within 0..100, the average rating 0 or 1..5, social media 0..200 minutes, and the entries at most the days |
| Goals.Merge | src/hooks/useGoals.ts:49 | `{ ...g, ...updates }` never changes the id or creation time, and an empty update changes nothing |
| Goals.MergeIdempotent | src/hooks/useGoals.ts:49 | merging the same update twice is merging it once |
| Goals.UpdatedAsWritten | src/hooks/useGoals.ts:47-55 | as written: a move to done stamps now, and a done goal loses its stamp under any update that does not set done, even one with no status |
| Goals.AsWrittenUnstampsDoneGoal | src/hooks/useGoals.ts:52-54 | changing only the duration of a done goal leaves it done without a completion time |
| Goals.Updated | src/hooks/useGoals.ts:47-55 | corrected: a goal becoming done is stamped now, a done goal leaving done is unstamped, and an update keeping the status and not setting the time keeps it |
| Goals.UpdatedKeepsStamped | src/hooks/useGoals.ts:50-54 | an update that does not set the completion time keeps "done exactly when stamped" |
| Goals.RulesAgreeWhenStatusGiven | src/hooks/useGoals.ts:50-54 | the two rules differ only on status-less updates of done goals |
| Goals.NewGoal | src/hooks/useGoals.ts:21-29 | the new goal has the given id, is created now and not completed |
| Goals.WithoutGoal | src/hooks/useGoals.ts:39 | keeps exactly the goals with another id |
| Goals.WithoutGoalConcat | src/hooks/useGoals.ts:39 | the delete keeps the remaining goals in their order and multiplicity: it distributes over concatenation, and a single goal stays exactly when its id differs |
| Goals.WithoutAbsentGoal | src/hooks/useGoals.ts:39 | deleting an id no goal has changes nothing |
| Goals.DeleteUndoesAdd | src/hooks/useGoals.ts:21-43 | deleting a goal just added under a fresh id gives back the list before |
| Goals.UpdatedAll | src/hooks/useGoals.ts:47-56 | the list keeps its length and ids, and goals with another id are untouched; the goals with the id are updated by the corrected rule Goals.Updated (see Findings) |
| Goals.UpdateKeepsIds | src/hooks/useGoals.ts:45-60 | an update keeps ids distinct, and updating an id no goal has changes nothing |
| Goals.GoalStore.constructor | src/hooks/useGoals.ts:9-14 | the store starts from what was saved |
| Goals.GoalStore.AddGoal | src/hooks/useGoals.ts:21-35 | the new goal is appended and ids stay distinct |
| Goals.GoalStore.DeleteGoal | src/hooks/useGoals.ts:37-43 | the goals become WithoutGoal of the old list: those with that id are removed and the others stay in their order (Goals.WithoutGoalConcat); ids stay distinct |
| Goals.WithoutGoalKeepsDistinct | src/hooks/useGoals.ts:39 | deleting goals keeps the remaining ids distinct |
| Goals.GoalStore.UpdateGoal | src/hooks/useGoals.ts:45-60 | the goals become UpdatedAll of the old list, under the corrected completion-time rule, and ids stay distinct |
| Goals.GoalStore.ReorderGoals | src/hooks/useGoals.ts:62-64 | the list becomes the reordered one |
| Goals.WithStatus | src/hooks/useGoals.ts:68-70 | keeps exactly the goals of that status |
| Goals.WithValue | src/hooks/useGoals.ts:77-80 | keeps exactly the goals of that priority |
| Goals.Stats | src/hooks/useGoals.ts:66-73 | the total is the number of goals, and the three counts add up to at most it, to exactly it when every status is one of the three |
| Goals.StatusesPartition | src/hooks/useGoals.ts:67-70 | the status counts partition the goals whose status is known |
| Goals.ByValue | src/hooks/useGoals.ts:75-82 | each group holds exactly the goals of its priority |
| Goals.ValuesPartition | src/hooks/useGoals.ts:75-82 | the four groups partition the goals whose priority is known |
| Goals.UrgentMessageNamesGoal | src/hooks/useGoals.ts:94 | the urgent suggestion's text contains the goal's name |
| Goals.UrgentRule | src/hooks/useGoals.ts:89-95 | fires exactly when some goal of the two highest priorities is not started |
| Goals.ShortDeadlineRule | src/hooks/useGoals.ts:98-103 | fires exactly when some on-going goal lasts at most 7 days |
| Goals.LongTermRule | src/hooks/useGoals.ts:106-111 | fires exactly when some on-going goal lasts 180 days or more |
| Goals.CelebrateRule | src/hooks/useGoals.ts:114-122 | fires exactly when some done goal was completed at most 7 whole days ago |
| Goals.RecentlyCompleted | src/hooks/useGoals.ts:114-119 | no contract of its own: a done goal with a completion time at most 7 whole days (rounded down) before now; stated by Goals.CelebrateRule |
| Goals.BalanceRule | src/hooks/useGoals.ts:125-128 | fires exactly when there are more goals of no importance than of the two highest priorities |
| Goals.LaterRules | src/hooks/useGoals.ts:98-128 | at most four suggestions, none urgent and none the fallback, and none exactly when the four rules do not fire |
| Goals.Fired | src/hooks/useGoals.ts:88-128 | none exactly when no rule fires; the urgent suggestion first exactly when some goal is urgent, and nowhere else |
| Goals.UrgentThenLater | src/hooks/useGoals.ts:88-128 | an optional urgent suggestion before up to four others keeps the urgent one first and only there |
| Goals.Suggestions | src/hooks/useGoals.ts:130-134 | one to four suggestions; the fallback exactly when no rule fires; an urgent one exactly when some goal is urgent |
| Goals.UrgentNamesFirst | src/hooks/useGoals.ts:89-95 | the first suggestion counts the urgent goals and names the first urgent goal in list order |
| Goals.PushIfFired | src/hooks/useGoals.ts:93-95 | a rule that fired appends its suggestion, one that did not appends nothing |
| Goals.GetSuggestions | src/hooks/useGoals.ts:84-135 | the pushes, the fallback and the cut to four compute `Suggestions` |
| GoalsAnalytics.StartMonth | src/components/GoalsAnalytics.tsx:149-160 | a month of the same year, not after the current one: the current month, the first month of its quarter or half-year, or January |
| GoalsAnalytics.PeriodStart | src/components/GoalsAnalytics.tsx:145-161 | seven days of milliseconds before now for the week, else local midnight of the start month's first day; never after now |
| GoalsAnalytics.InPeriod | src/components/GoalsAnalytics.tsx:163 | keeps exactly the goals created at or after the start |
| GoalsAnalytics.EarlierStartKeepsMore | src/components/GoalsAnalytics.tsx:163 | an earlier start keeps every goal a later one keeps |
| GoalsAnalytics.StatusData | src/components/GoalsAnalytics.tsx:166-170 | three counts adding up to at most the goals, exactly them when every status is known |
| GoalsAnalytics.ValueData | src/components/GoalsAnalytics.tsx:172-177 | four counts adding up to at most the goals, exactly them when every priority is known |
| GoalsAnalytics.BucketOf | src/components/GoalsAnalytics.tsx:180-186 | every goal duration falls in exactly one of the five ranges |
| GoalsAnalytics.DaysData | src/components/GoalsAnalytics.tsx:187-190 | one count per range, in order |
| GoalsAnalytics.BucketsPartition | src/components/GoalsAnalytics.tsx:179-191 | the five range counts add up to the number of goals |
| GoalsAnalytics.ProgressData | src/components/GoalsAnalytics.tsx:193-200 | empty without goals, else one row of the rounded status percentages |
| GoalsAnalytics.ProgressBounds | src/components/GoalsAnalytics.tsx:198 | each percentage lies in 0..100, and with known statuses the three add up to 99, 100 or 101 |
| GoalsAnalytics.PercentsOfWhole | src/components/GoalsAnalytics.tsx:198 | three shares of a whole round to percentages summing to 99..101 |
| GoalsAnalytics.PanelOf | src/components/GoalsAnalytics.tsx:141-200 | the charts for one period: 3, 4 and 5 bars, the status bars at most the period's goals, the range bars exactly them, and a progress row exactly when there are goals |
| Journal.ScreenTimeOptionIsNumeral | src/types/journal.ts:18-20 | the screen-time labels are the numerals 1 to 12 followed by `H`, the last by `H+` |
| Journal.Apply | src/hooks/useJournal.ts:37 | `{ ...e, ...updates }`: every field the update names is replaced, every other field and the stamps kept |
| Journal.Blank | src/hooks/useJournal.ts:42-55 | the new entry has the date, rating 0 and every text empty |
| Journal.EntryByDate | src/hooks/useJournal.ts:27 | absent exactly when no entry has the date, else the first entry with it |
| Journal.GetEntryByDate | src/hooks/useJournal.ts:25-28 | no contract of its own: the entry of the instant's local date; Journal.EntryByDate states its result |
| Journal.UpsertLength | src/hooks/useJournal.ts:30-60 | the entries grow by one exactly when the date had none |
| Journal.UpsertFrame | src/hooks/useJournal.ts:34-58 | entries of other dates stay in place, nothing is dropped, and dates stay unique |
| Journal.UpsertFinds | src/hooks/useJournal.ts:30-60 | afterwards the date's entry carries the update: the old entry restamped, or a blank entry with the update |
| Journal.Upsert | src/hooks/useJournal.ts:30-60 | no contract of its own: the update applied to the date's entry, or a blank entry appended; stated by Journal.UpsertLength, Journal.UpsertFrame and Journal.UpsertFinds |
| Journal.FirstDateIs | src/hooks/useJournal.ts:27 | the lookup finds the first entry with the date |
| Journal.UpdateOf | src/hooks/useJournal.ts:62-64 | `{ [field]: value }`: an update of exactly that one field |
| Journal.JournalStore.constructor | src/hooks/useJournal.ts:11-16 | the journal starts from what was saved |
| Journal.JournalStore.CreateOrUpdateEntry | src/hooks/useJournal.ts:30-60 | the entries become the upsert for the local date, dates staying unique |
| Journal.JournalStore.UpdateField | src/hooks/useJournal.ts:62-64 | a one-field upsert, dates staying unique |
| Journal.GetWordCountIsWordCount | src/hooks/useJournal.ts:66-69 | the trimmed split counts the maximal runs of non-whitespace, and gives 0 exactly for a blank text |
| Journal.WordCount | src/hooks/useJournal.ts:66-69 | no contract of its own: the number of maximal runs of non-whitespace; Journal.GetWordCountIsWordCount ties it to the source's trimmed split |
| Journal.EntriesInRange | src/hooks/useJournal.ts:71-76 | keeps exactly the entries whose local midnight lies between the two instants, in their stored order (Journal.EntriesInRangeConcat) |
| Journal.EntriesInRangeConcat | src/hooks/useJournal.ts:71-76 | the range keeps the stored order and multiplicity: it distributes over concatenation, and a single entry stays exactly when it is in the range |
| Journal.RangeKeepsDatesUnique | src/hooks/useJournal.ts:71-76 | filtering keeps dates unique |
| Journal.DaysInRange | src/hooks/useJournal.ts:80 | the days of the interval, never negative |
| Journal.RangeAtMostDays | src/hooks/useJournal.ts:79-80 | with one entry per date a range holds at most as many entries as days |
| Journal.HeadingTotals | src/hooks/useJournal.ts:83-103 | one total per heading |
| Journal.TotalWordsByEntry | src/hooks/useJournal.ts:106-126 | the words summed per heading are the words summed per entry |
| Journal.RatedCount | src/hooks/useJournal.ts:114-116 | at most the entries |
| Journal.RatingCount | src/hooks/useJournal.ts:117 | at most the entries |
| Journal.DistributionCountsRated | src/hooks/useJournal.ts:114-118 | with ratings 0 to 5, the five rating slots add up to the rated entries |
| Journal.Distribution | src/hooks/useJournal.ts:95-118 | slot 0 stays 0 and slot r counts the entries rated r |
| Journal.ScreenCount | src/hooks/useJournal.ts:121-123 | at most the entries |
| Journal.ScreenTallyCounts | src/hooks/useJournal.ts:121-123 | the tally holds exactly the non-empty labels in use, each with the number of entries using it |
| Journal.Ranks | src/hooks/useJournal.ts:131-133 | a permutation of the five headings, most words first |
| Journal.RanksHoldEveryHeading | src/hooks/useJournal.ts:131-133 | every heading is ranked |
| Journal.TotalsNonNegative | src/hooks/useJournal.ts:99-103 | heading totals are never negative |
| Journal.Daily | src/hooks/useJournal.ts:111 | one record per entry |
| Journal.DailyRecords | src/hooks/useJournal.ts:105-111 | each record holds its entry's date and words, in order |
| Journal.CountsStep | src/hooks/useJournal.ts:99-103 | one more entry adds its words to each heading |
| Journal.RatingStep | src/hooks/useJournal.ts:114-118 | one more entry moves the rating sums and slots as the rated branch does |
| Journal.ScreenStep | src/hooks/useJournal.ts:121-123 | one more entry bumps its label |
| Journal.DailyStep | src/hooks/useJournal.ts:111 | one more entry appends its record |
| Journal.Absorb | src/hooks/useJournal.ts:97-124 | one turn of the `forEach` keeps every tally equal to its function of the entries seen |
| Journal.Pass | src/hooks/useJournal.ts:91-124 | the `forEach` computes each tally as a function of the range's entries |
| Journal.RoundTenth | src/hooks/useJournal.ts:139 | the nearest tenth, within 0.05 of the value |
| Journal.GetAnalytics | src/hooks/useJournal.ts:78-147 | the analytics of the entries in range, as a function of them |
| Journal.AnalyticsOf | src/hooks/useJournal.ts:78-147 | no contract of its own: the analytics object as a function of the range's entries; Journal.GetAnalytics computes it and Journal.AnalyticsFacts states its properties |
| Journal.AnalyticsFacts | src/hooks/useJournal.ts:78-147 | the total is the sum of the daily counts, the entries at most the days, completion within 0..100, and with ratings 0..5 the slots add up to the rated entries |
| JournalAnalytics.ScreenTimeReadings | src/components/JournalAnalytics.tsx:22-26 | an empty or unparsable value reads as 0 hours, any other as the number left after dropping `H+` and `H` |
| JournalAnalytics.ScreenTimeToHours | src/components/JournalAnalytics.tsx:22-26 | no contract of its own: stated by JournalAnalytics.ScreenTimeReadings, whose contract is kept apart so that the weekly proofs do not unfold it |
| JournalAnalytics.ScreenTimeOfLabel | src/components/JournalAnalytics.tsx:22-26 | a label `nH` or `nH+` reads as n hours |
| JournalAnalytics.ScreenTimeOfOption | src/types/journal.ts:18-20 | the form's screen-time labels read as 1 to 12 hours, in order |
| JournalAnalytics.ScreenTimeReadingsAgree | src/components/JournalAnalytics.tsx:22-26 | a value the detox rule counts as under a target also reads as fewer hours than the target |
| JournalAnalytics.SocialMediaToMinutes | src/components/JournalAnalytics.tsx:29-39 | every reading lies between 0 and 330 minutes |
| JournalAnalytics.NoLowRangeInHalfHour | src/components/JournalAnalytics.tsx:31-32 | `30min-1H` does not contain `0-30`, so the first test does not capture it |
| JournalAnalytics.SocialMediaOfOption | src/types/journal.ts:22-24 | the form's social-media labels read as 15, 45, 90, 150, 210, 270 and 330 minutes |
| JournalAnalytics.LowRangeMinutes | src/components/JournalAnalytics.tsx:31 | `0-30min` reads as 15 minutes |
| JournalAnalytics.HalfHourMinutes | src/components/JournalAnalytics.tsx:32 | `30min-1H` reads as 45 minutes |
| JournalAnalytics.OneToTwoMinutes | src/components/JournalAnalytics.tsx:33 | `1-2H` reads as 90 minutes |
| JournalAnalytics.TwoToThreeMinutes | src/components/JournalAnalytics.tsx:34 | `2-3H` reads as 150 minutes |
| JournalAnalytics.ThreeToFourMinutes | src/components/JournalAnalytics.tsx:35 | `3-4H` reads as 210 minutes |
| JournalAnalytics.FourToFiveMinutes | src/components/JournalAnalytics.tsx:36 | `4-5H` reads as 270 minutes |
| JournalAnalytics.OverFiveMinutes | src/components/JournalAnalytics.tsx:37 | `5H+` reads as 330 minutes |
| JournalAnalytics.RangeStart | src/components/JournalAnalytics.tsx:46-49 | the range starts `days` calendar days before now, at the same time of day, and never after now |
| JournalAnalytics.YearRangeStart | src/components/JournalAnalytics.tsx:48 | the year view starts in the same month of the year before |
| JournalAnalytics.RangeEntries | src/components/JournalAnalytics.tsx:54-60 | a permutation of the entries in the interval, ordered by date |
| JournalAnalytics.RangeEntriesMembers | src/components/JournalAnalytics.tsx:54-60 | an entry is in the range exactly when it is an entry dated in the interval |
| JournalAnalytics.AddToWeekKeys | src/components/JournalAnalytics.tsx:106-117 | adding an entry keeps the weeks or appends the entry's week, and no week is left empty |
| JournalAnalytics.WeeksOf | src/components/JournalAnalytics.tsx:104-117 | every week in the map holds at least one entry |
| JournalAnalytics.WeeksOfKeys | src/components/JournalAnalytics.tsx:106-117 | the weeks are exactly the Mondays of the entries, each once |
| JournalAnalytics.WeeksOfSums | src/components/JournalAnalytics.tsx:111-116 | each week's sums are the hours, minutes and count of the entries of that week |
| JournalAnalytics.WeeksInOrder | src/components/JournalAnalytics.tsx:106-119 | with the entries in date order, the weeks come in increasing order |
| JournalAnalytics.AddToWeekCount | src/components/JournalAnalytics.tsx:111-116 | adding an entry counts it exactly once |
| JournalAnalytics.WeeksOfCountAll | src/components/JournalAnalytics.tsx:106-117 | the week counts add up to the number of entries |
| JournalAnalytics.UsageRows | src/components/JournalAnalytics.tsx:119-126 | one point per week, in the map's order |
| JournalAnalytics.LastN | src/components/JournalAnalytics.tsx:128 | `slice(-n)`: the last n elements, or all when there are fewer |
| JournalAnalytics.WeeklyPhoneUsage | src/components/JournalAnalytics.tsx:99-129 | one point for each of the last eight weeks of the entries, or for every week when there are fewer; what each point holds and their order are stated by JournalAnalytics.WeeklyPhoneUsagePoints and JournalAnalytics.WeeklyPhoneUsageLatest |
| JournalAnalytics.WeeklyPhoneUsagePoints | src/components/JournalAnalytics.tsx:119-126 | each point counts its week's entries and its social-media mean lies in 0..330 |
| JournalAnalytics.UsageOfWeek | src/components/JournalAnalytics.tsx:120-125 | a week's point counts the week's entries and its mean lies in 0..330 |
| JournalAnalytics.Usage | src/components/JournalAnalytics.tsx:119-126 | no contract of its own: a week's point, the means rounded as `Math.round`; stated by JournalAnalytics.UsageOfWeek |
| JournalAnalytics.WeeklyPhoneUsageLatest | src/components/JournalAnalytics.tsx:128 | the points are in week order and every week dropped is earlier than every week shown |
| JournalAnalytics.GroupWeeks | src/components/JournalAnalytics.tsx:106-117 | the `forEach` adds every entry to its week, in order |
| JournalAnalytics.WeekPoints | src/components/JournalAnalytics.tsx:119-126 | one point is pushed for each week, in the map's order |
| JournalAnalytics.WeeklyPhoneUsageData | src/components/JournalAnalytics.tsx:99-129 | the loops compute the weekly points |
| JournalAnalytics.PickupBucketOfLabel | src/components/JournalAnalytics.tsx:147 | a time `h:mm PERIOD` falls in the bucket `h:00 PERIOD` |
| JournalAnalytics.PickupBucketWithoutPeriod | src/components/JournalAnalytics.tsx:147 | a time without a space falls in the bucket `h:00 undefined` |
| JournalAnalytics.PickupBucket | src/components/JournalAnalytics.tsx:147 | no contract of its own: the text before the first `:`, `:00 `, and the second space-separated part; stated by JournalAnalytics.PickupBucketOfLabel and JournalAnalytics.PickupBucketWithoutPeriod |
| JournalAnalytics.BucketHourOfLabel | src/components/JournalAnalytics.tsx:154-157 | an AM or PM bucket sorts as its hour on a 24-hour clock, 12 AM as 0 and 12 PM as 12 |
| JournalAnalytics.BucketHourOfNumeral | src/components/JournalAnalytics.tsx:155-156 | a key whose text before `:` is an hour 1..12 sorts as that hour, moved to the afternoon when the key holds `PM` |
| JournalAnalytics.BucketHour | src/components/JournalAnalytics.tsx:154-157 | no contract of its own: `getHour` of a key, `None` for `NaN`; stated by JournalAnalytics.BucketHourOfLabel and JournalAnalytics.BucketHourOfNumeral |
| JournalAnalytics.RowHour | src/components/JournalAnalytics.tsx:153-158 | no contract of its own: a row's sort key, BucketHour or 0 for `NaN` (see Left out) |
| JournalAnalytics.PickupBuckets | src/components/JournalAnalytics.tsx:145-150 | one bucket per entry with a first-pickup time |
| JournalAnalytics.PickupDistribution | src/components/JournalAnalytics.tsx:143-160 | the tally of the buckets, reordered by hour |
| JournalAnalytics.PickupDistributionCounts | src/components/JournalAnalytics.tsx:143-152 | every row is a bucket with its number of entries, every bucket has a row, and the counts add up to the entries with a pickup time |
| JournalAnalytics.PickupTimeData | src/components/JournalAnalytics.tsx:143-160 | the loop computes the pickup distribution |
| JournalAnalytics.SocialMinutesTotal | src/components/JournalAnalytics.tsx:173 | the sum of the minutes lies in 0..330 per entry |
| JournalAnalytics.AvgScreenTime | src/components/JournalAnalytics.tsx:163-168 | 0 when no entry has a screen time |
| JournalAnalytics.AvgSocialMedia | src/components/JournalAnalytics.tsx:170-175 | 0 when no entry has a social-media time |
| JournalAnalytics.AvgSocialMediaBounds | src/components/JournalAnalytics.tsx:170-175 | the mean social-media time lies in 0..330 minutes |
| JournalAnalytics.ScreenTotalOfOptions | src/components/JournalAnalytics.tsx:166 | with form labels, the total lies between 1 and 12 hours per entry |
| JournalAnalytics.AvgScreenTimeOfOptions | src/components/JournalAnalytics.tsx:163-168 | with form labels the mean is 0 or lies between 1 and 12 hours |
| ExportData.Numerals | src/components/ExportDataDialog.tsx:56 | `String` of each day, in order |
| ExportData.HabitDaysCell | src/components/ExportDataDialog.tsx:56 | the 'Completed Days' cell is empty exactly when the habit has no days |
| ExportData.NumeralsNotEmpty | src/components/ExportDataDialog.tsx:56 | the joined cell is empty exactly when the list is |
| ExportData.ExportDaysCell | src/components/ExportDataDialog.tsx:56 | the habit's day array is sorted ascending in place, and the cell is the sorted days joined by `, ` |
| ExportData.Numbers | src/components/ExportDataDialog.tsx:198 | dropping the NaN pieces keeps at most as many values as pieces |
| ExportData.PieceValues | src/components/ExportDataDialog.tsx:198 | `parseInt(d.trim())` of each piece, in order |
| ExportData.ImportDays | src/components/ExportDataDialog.tsx:197-199 | an empty cell gives no days, and never more days than comma-separated pieces |
| ExportData.JoinCommaSpace | src/components/ExportDataDialog.tsx:56 | joining with `, ` is joining with `,` the pieces after the first prefixed by a space |
| ExportData.ParseIntToString | src/components/ExportDataDialog.tsx:198 | `parseInt` reads back `String(i)` for every integer |
| ExportData.NumeralPiece | src/components/ExportDataDialog.tsx:198 | a numeral, with or without a leading space, has no comma and reads back as its number |
| ExportData.DaysCellRoundTrip | src/components/ExportDataDialog.tsx:197-199 | a days cell reads back as exactly the list written, for any integers |
| ExportData.HabitDaysRoundTrip | src/components/ExportDataDialog.tsx:56 | export then import of a habit's days gives them in ascending order |
| ExportData.StatusLabel | src/components/ExportDataDialog.tsx:71 | the label has as many characters as the stored status |
| ExportData.ImportStatus | src/components/ExportDataDialog.tsx:221 | a blank cell is `not-yet` |
| ExportData.StatusRoundTrip | src/components/ExportDataDialog.tsx:71 | each of the three statuses reads back from its label |
| ExportData.DoneLabel | src/components/ExportDataDialog.tsx:71 | `done` is written `Done` |
| ExportData.OnGoingLabel | src/components/ExportDataDialog.tsx:71 | `on-going` is written `On going` |
| ExportData.NotYetLabel | src/components/ExportDataDialog.tsx:71 | `not-yet` is written `Not yet` |
| ExportData.ReadDone | src/components/ExportDataDialog.tsx:221 | `Done` is read as `done` |
| ExportData.ReadOnGoing | src/components/ExportDataDialog.tsx:221 | `On going` is read as `on-going` |
| ExportData.ReadNotYet | src/components/ExportDataDialog.tsx:221 | `Not yet` is read as `not-yet` |
| ExportData.ImportStatusOf | src/components/ExportDataDialog.tsx:221 | a cell whose lower-cased, first-space-dashed form is a status name imports as that status |
| ExportData.TemplateStatusIsOnGoing | src/components/ExportDataDialog.tsx:278 | the template's `On-Going` imports as `on-going` |
| ExportData.ImportValue | src/components/ExportDataDialog.tsx:222 | a blank priority is `IMP`, any other text is kept as it is |
| ExportData.ValueRoundTrip | src/components/ExportDataDialog.tsx:72 | every priority with a non-blank code reads back from its cell |
| ExportData.ParsedDuration | src/components/ExportDataDialog.tsx:213 | `parseInt(cell) \|\| 30`: never 0, 30 for a cell that is not a number, otherwise the number |
| ExportData.Closest | src/components/ExportDataDialog.tsx:211-216 | an allowed duration no farther from the parsed value than any other, and strictly nearer than every smaller one |
| ExportData.OptionsAscending | src/components/ExportDataDialog.tsx:211 | the allowed durations are in increasing order |
| ExportData.ClosestOfAllowed | src/components/ExportDataDialog.tsx:211-216 | an allowed duration snaps to itself |
| ExportData.ClosestTies | src/components/ExportDataDialog.tsx:214-216 | a tie goes to the smaller duration: 4 snaps to 1 and 11 to 7 |
| ExportData.UnparsableDurationIs30 | src/components/ExportDataDialog.tsx:213-216 | a cell that is not a number, or is 0, imports as 30 days |
| ExportData.DurationRoundTrip | src/components/ExportDataDialog.tsx:73 | every goal's duration reads back from its exported number |
| ExportData.Placeholder | src/components/ExportDataDialog.tsx:92-97 | the cell is never empty, and a non-empty text is written as itself |
| ExportData.Unplaced | src/components/ExportDataDialog.tsx:240-245 | any cell other than `-` is read as itself |
| ExportData.PlaceholderRoundTrip | src/components/ExportDataDialog.tsx:92-97 | a text field reads back exactly when it is not `-` itself |
| ExportData.RatingCell | src/components/ExportDataDialog.tsx:98 | a rating that is not positive is written `-` |
| ExportData.ImportRatingAsWritten | src/components/ExportDataDialog.tsx:248 | a blank cell is 0, any other goes through `parseInt` |
| ExportData.AsWrittenUnratedIsNaN | src/components/ExportDataDialog.tsx:248 | a rating of 0, written `-`, reads back as NaN |
| ExportData.ImportRating | src/components/ExportDataDialog.tsx:248 | a cell that reads as a number gives it, any other gives 0 |
| ExportData.ParseRatingCell | src/components/ExportDataDialog.tsx:248 | `parseInt` reads `r/5` as r |
| ExportData.DashIsNotANumber | src/components/ExportDataDialog.tsx:248 | `parseInt('-')` is NaN |
| ExportData.RatingRoundTrip | src/components/ExportDataDialog.tsx:98 | every rating reads back from its cell; one that is not positive reads back as 0 |
| ExportData.ExportHabit | src/components/ExportDataDialog.tsx:52-57 | the row keeps the name, counts the days and its days cell reads back as the sorted days |
| ExportData.ImportHabit | src/components/ExportDataDialog.tsx:193-201 | the given id and instant, the teal colour, 'Unnamed Habit' for a blank name, and the days read from the cell |
| ExportData.HabitRoundTrip | src/components/ExportDataDialog.tsx:193-201 | a habit read back from its own row keeps its name and its days, sorted |
| ExportData.ExportGoal | src/components/ExportDataDialog.tsx:69-76 | the row holds the name, the status label, the priority and the duration |
| ExportData.ImportGoal | src/components/ExportDataDialog.tsx:212-227 | created now and not completed, 'Unnamed Goal' for a blank name, with the status, priority and duration read from the cells |
| ExportData.GoalRoundTrip | src/components/ExportDataDialog.tsx:212-227 | a goal with a named status and priority reads back unchanged but for its id, creation instant and completion |
| ExportData.ExportEntry | src/components/ExportDataDialog.tsx:90-99 | the row holds the date, the rating cell and, for each of the six text fields, its placeholder |
| ExportData.ImportEntry | src/components/ExportDataDialog.tsx:237-251 | each of the six text cells read back by Unplaced, today for a row without a date, and the phone-usage fields the sheet lacks left empty; the rating is read by the corrected ExportData.ImportRating (see Findings) |
| ExportData.EntryRoundTrip | src/components/ExportDataDialog.tsx:237-251 | under the corrected rating import, an entry rated 0..5 with no field `-` itself reads back but for its id, instants and phone-usage fields |
| ExportData.GoalsInRange | src/components/ExportDataDialog.tsx:64-67 | exactly the goals created within the interval |
| ExportData.EntriesInRange | src/components/ExportDataDialog.tsx:85-88 | exactly the entries whose day starts within the interval |
| ExportData.WiderRangeKeepsMore | src/components/ExportDataDialog.tsx:64-88 | widening the interval keeps every item it kept |
| ExportData.SheetNames | src/components/ExportDataDialog.tsx:51-105 | a sheet is written exactly when it is chosen and has at least one row |
| AnalyticsView.StoredHabits | src/components/AnalyticsView.tsx:136-138 | a month with nothing stored under its key has no habits |
| AnalyticsView.RecordOf | src/components/AnalyticsView.tsx:136-164 | a month's record counts its habits and completions, its percentage is 0 without habits, and its trend is the change from the month before |
| AnalyticsView.MonthPercentage | src/components/AnalyticsView.tsx:136-143 | no contract of its own: the stored month's rounded completion percentage; RecordOf states it is 0 without habits |
| AnalyticsView.RecordTotal | src/components/AnalyticsView.tsx:141 | the possible total is the number of habits times the days of the month |
| AnalyticsView.MonthCount | src/components/AnalyticsView.tsx:132-135 | no month is visited exactly when the end month comes before the start month |
| AnalyticsView.RangeRecords | src/components/AnalyticsView.tsx:130-170 | one record per month of the range |
| AnalyticsView.RangeRecordsAt | src/components/AnalyticsView.tsx:130-170 | the i-th record is that of the month i months after the start month |
| AnalyticsView.Walk | src/components/AnalyticsView.tsx:135-167 | the walk over n months from a start month gives n values |
| AnalyticsView.MonthAfter | src/components/AnalyticsView.tsx:166 | no contract of its own: the month i steps of `new Date(y, m + 1, 1)` after the start; AnalyticsView.RangeRecordsAt places each record there |
| AnalyticsView.RangeData | src/components/AnalyticsView.tsx:130-170 | the loop pushes the record of every month from the start month to the end month, in order |
| AnalyticsView.TrendIsChange | src/components/AnalyticsView.tsx:146-163 | consecutive records are of consecutive months, and each trend past the first is the change from the record before |
| AnalyticsView.TrendOfNext | src/components/AnalyticsView.tsx:146-163 | a month's trend is its percentage less that of the month before |
| AnalyticsView.TrendBounded | src/components/AnalyticsView.tsx:141-163 | with well-formed habits the percentage lies in 0..100 and the trend in -100..100 |
| AnalyticsView.ShortName | src/components/AnalyticsView.tsx:175 | a name over twelve characters (code points) is cut to twelve and followed by `...`; a shorter one is kept |
| AnalyticsView.BarChartData | src/components/AnalyticsView.tsx:173-182 | one bar per habit with its name, its short name, its completed days and the days of the month |
| AnalyticsView.BarsBounded | src/components/AnalyticsView.tsx:179 | on well-formed habits every bar's percentage lies in 0..100 |
| AnalyticsView.PointOf | src/components/AnalyticsView.tsx:188-193 | a day's point counts the habits done on it and is 0 without habits, otherwise their rounded share |
| AnalyticsView.LinePoints | src/components/AnalyticsView.tsx:185-196 | one point for each day 1 to the days of the month |
| AnalyticsView.LineChartData | src/components/AnalyticsView.tsx:185-196 | the loop over the days computes the line's points |
| AnalyticsView.PointEnds | src/components/AnalyticsView.tsx:192 | 100 when every habit was done and 0 when none was, and for fewer than 200 habits only then |
| AnalyticsView.PercentStrictlyInside | src/components/AnalyticsView.tsx:192 | some but not all of fewer than 200 rounds strictly between 0 and 100 |
| AnalyticsView.AllButOneRoundsUp | src/components/AnalyticsView.tsx:192 | 199 of 200 habits shows as 100 |
| AnalyticsView.PieChartData | src/components/AnalyticsView.tsx:199-205 | one slice per habit, its value the habit's completed days and its colour `hsl(...)` of the habit's |
| AnalyticsView.PieTotal | src/components/AnalyticsView.tsx:199-205 | the slices add up to all the month's completions |

## Left out

- Storage: `localStorage` and JSON parsing and writing are left out. Each store is an in-memory sequence, and a month's stored habits are a map from storage key to habits.
- Browser events: the `storage`, `journal-updated` and `focus` listeners are left out.
- Scheduling: React state and effects, the 300 ms load delay, the midnight interval and the timer that clears the swipe hint are left out. The hint's expiry is a method of its own. The contact form's simulated delay and its toasts are also left out.
- Rendering: charts, drag-and-drop reordering (`arrayMove`, a library call) and all markup are left out.
- Spreadsheet files:
  - XLSX workbook reading and writing, jsPDF and `FileReader` are library I/O.
  - The PDF journal report and its statistics are left out with them.
  - Cells are modelled as the texts and numbers the rows hold.
- Date formatting: the display formats of date cells (`MMM d, yyyy`) and chart labels are not modelled. A date cell is the day it names.
- `parseInt` reads a decimal prefix after optional whitespace and one `+` or `-` sign. The `0x` hexadecimal prefix is not modelled: `parseInt("0x10")` is 16 in JavaScript and 0 here. No label of the application has that prefix.
- Text.NumberOf: reads integer texts only. JavaScript's `Number` also accepts decimal fractions (`"1.5"`), exponents (`"1e2"`), hexadecimal (`"0x10"`) and `Infinity`, which this reads as `NaN`. Its one caller reads the hour of the form's `h:mm AM/PM` clock labels, and those never contain such text.
- Timezones are not modelled beyond the offset by which the monthly summary's date parse is shown to go wrong.
- Floating-point arithmetic is modelled by exact reals and integers. The rounding of a float product such as `x * 10` before `Math.round` is exact here.
- JournalAnalytics.RowHour: a distribution key that reads as `NaN` (a pickup time with no number before its `:`) sorts as hour 0. In the source, a comparison with `NaN` leaves the order to the engine.
- Greeting: the random choice of a greeting line and an emoji and the rotating quote are left out. Only the time-of-day bucket is modelled.
- Support.SupportForm.Submit: the `isSubmitting` window during the simulated send is set and cleared within the one call.
- AnalyticsView.BarChartData: requires a positive number of days. The source divides by `daysInMonth`, which is always 28 to 31 there.
- A date interval whose start lies after its end matches nothing. `isWithinInterval` throws on such an interval.
- Sorting: JavaScript's `Array.prototype.sort` is modelled by a stable insertion sort. For comparators that are total preorders, which all of the application's comparators are, the engine's stable sort gives the same order.
- Detox.ChallengeStore.AddChallenge: `crypto.randomUUID` is a fresh-id parameter required not to be in use.
- Goals.GoalStore.AddGoal: the same, for the goals' ids.
- Journal.Tick: a rating outside 0..5 leaves the six slots unchanged. The source's `ratingDistribution[r]++` would instead grow the array with a `NaN` slot.
- Text.LowerChar: maps only the ASCII letters A to Z. JavaScript's `toLowerCase` also maps other letters, such as 'É' to 'é'.
- Text.Lower: lower-cases ASCII only, by Text.LowerChar. A status or priority cell with a non-ASCII capital reads differently from the source.
- Text.UpperChar: maps only the ASCII letters a to z. JavaScript's `toUpperCase` also maps other letters, such as 'é' to 'É'.
- AnalyticsView.ShortName: counts a name's length in code points. The source's `length` and `slice(0, 12)` count UTF-16 units, so a name with characters outside the Basic Multilingual Plane (emoji) is cut later here, or not at all. A cut through a surrogate pair has no counterpart in Dafny's strings.
- Goals.UpdatedAll: maps the goals with the id through the corrected rule Goals.Updated. The source's rule, Goals.UpdatedAsWritten, also clears a done goal's completion time on an update without a status, such as `{ days }` from the goals table (see Findings).
- Goals.GoalStore.UpdateGoal: its new state is the corrected Goals.UpdatedAll, so it does not capture that clearing either.
- ExportData.ImportEntry: reads the rating with the corrected ExportData.ImportRating, which gives 0 for the `-` cell of an unrated entry. The source's `parseInt('-')` gives `NaN`; that reading is ExportData.ImportRatingAsWritten (see Findings).
- ExportData.EntryRoundTrip: holds for the corrected rating import only. Under the source's import an unrated entry comes back with a `NaN` rating (ExportData.AsWrittenUnratedIsNaN).
- JournalAnalytics.AvgScreenTime: states only the empty case in its own contract. Its bounds for form labels are in JournalAnalytics.AvgScreenTimeOfOptions.

## Findings

| source | as written | input that shows it | evidently intended | confidence | as-written member | corrected member |
|---|---|---|---|---|---|---|
| src/components/ExportDataDialog.tsx:248 | the import reads a non-blank 'Day Rating' cell with `parseInt` | an unrated entry (rating 0) is exported as `-` (line 98) and imports with a rating of `NaN` | a cell that is not a number means no rating, 0, so every rating reads back | not executed | ExportData.AsWrittenUnratedIsNaN | ExportData.RatingRoundTrip |
| src/components/MonthlySummary.tsx:23-24 | `new Date(e.date)` reads `yyyy-MM-dd` as UTC midnight, and `isSameMonth` compares it on the local clock | west of UTC, an entry dated the first of a month counts in the month before | each entry counts in the month of its own date | not executed | MonthlySummary.AsWrittenMovesFirstOfMonth | MonthlySummary.MonthEntries |
| src/hooks/useGoals.ts:52-54 | any update whose status is not `done` clears a done goal's completion time | changing only the duration of a done goal leaves it done with no completion time | the completion time is cleared only when the status moves away from done | not executed | Goals.AsWrittenUnstampsDoneGoal | Goals.UpdatedKeepsStamped |
