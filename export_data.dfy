// The spreadsheet export and import of habits, goals and journal entries: how each field
// is written into a cell and read back from one, and which items an export keeps.

module ExportData {
  import opened Common
  import opened Text
  import opened Habits
  import opened Goals
  import opened Journal
  import Calendar
  import Sorting

  // ---- completed days ------------------------------------------------------------

  /** `String(x)` of each day. */
  function Numerals(xs: seq<int>): (ns: seq<string>)
    ensures |ns| == |xs| && forall i :: 0 <= i < |xs| ==> ns[i] == IntToString(xs[i])
  {
    seq(|xs|, i requires 0 <= i < |xs| => IntToString(xs[i]))
  }

  /** `days.join(', ')`: the 'Completed Days' cell of a list already sorted. */
  function DaysCell(days: seq<int>): string
  {
    Join(Numerals(days), ", ")
  }

  /** The 'Completed Days' cell of a habit: its days in ascending order, comma-separated. */
  function HabitDaysCell(h: Habit): (cell: string)
    ensures cell == [] <==> h.completedDays == []
  {
    var s := Sorting.SortInts(h.completedDays);
    assert |s| == |multiset(s)| == |h.completedDays|;
    NumeralsNotEmpty(s);
    DaysCell(s)
  }

  lemma NumeralsNotEmpty(xs: seq<int>)
    ensures DaysCell(xs) != [] <==> xs != []
  {
    var ns := Numerals(xs);
    if |ns| > 1 {
      assert Join(ns, ", ") == ns[0] + ", " + Join(ns[1..], ", ");
    }
  }

  /** The export sorts the habit's own day list in place before writing the cell. */
  method ExportDaysCell(days: array<int>) returns (cell: string)
    modifies days
    ensures days[..] == Sorting.SortInts(old(days[..]))
    ensures cell == DaysCell(days[..])
  {
    Sorting.SortInPlace(days);
    cell := DaysCell(days[..]);
  }

  /** The values of the pieces that are numbers, in order: `.filter(n => !isNaN(n))`. */
  function Numbers(vs: seq<Option<int>>): (xs: seq<int>)
    ensures |xs| <= |vs|
  {
    if vs == [] then []
    else Numbers(vs[..|vs| - 1]) + match vs[|vs| - 1] case Some(n) => [n] case None => []
  }

  /** `.map(d => parseInt(d.trim()))`. */
  function PieceValues(ps: seq<string>): (vs: seq<Option<int>>)
    ensures |vs| == |ps| && forall i :: 0 <= i < |ps| ==> vs[i] == PieceValue(ps[i])
  {
    seq(|ps|, i requires 0 <= i < |ps| => PieceValue(ps[i]))
  }

  /** The imported `completedDays`: an empty cell gives no days, else the cell is split at
      commas and every piece that reads as a number is kept, in order. */
  function ImportDays(cell: string): (xs: seq<int>)
    ensures cell == [] ==> xs == []
    ensures |xs| <= |Split(cell, ',')|
  {
    if cell == [] then [] else Numbers(PieceValues(Split(cell, ',')))
  }

  /** Each piece after the first, with the space that followed the comma. */
  function Spaced(ns: seq<string>): (ps: seq<string>)
    requires ns != []
    ensures |ps| == |ns| && ps[0] == ns[0]
    ensures forall i :: 1 <= i < |ns| ==> ps[i] == " " + ns[i]
  {
    [ns[0]] + seq(|ns| - 1, i requires 0 <= i < |ns| - 1 => " " + ns[i + 1])
  }

  lemma SpacedTail(ns: seq<string>)
    requires |ns| >= 2
    ensures Spaced(ns)[1..] == [" " + ns[1]] + Spaced(ns[1..])[1..]
  {
  }

  /** Joining with ", " is joining the spaced pieces with ",". */
  lemma {:induction false} JoinCommaSpace(ns: seq<string>)
    requires ns != []
    ensures Join(ns, ", ") == Join(Spaced(ns), ",")
  {
    if |ns| > 1 {
      var ms := ns[1..];
      JoinCommaSpace(ms);
      var ps := Spaced(ns);
      SpacedTail(ns);
      assert Join(ps, ",") == ns[0] + "," + Join(ps[1..], ",");
      if |ms| == 1 {
        assert ps[1..] == [" " + ms[0]];
      } else {
        var qs := Spaced(ms);
        assert Join(ps[1..], ",") == " " + ms[0] + "," + Join(ps[1..][1..], ",");
        assert ps[1..][1..] == qs[1..];
        assert Join(qs, ",") == ms[0] + "," + Join(qs[1..], ",");
      }
    }
  }

  /** `String(i)` is made of digits after an optional minus sign, and ends in a digit. */
  lemma IntToStringShape(i: int)
    ensures var s := IntToString(i);
      (forall j :: 0 <= j < |s| ==> s[j] == '-' || IsDigit(s[j])) && IsDigit(s[|s| - 1])
  {
    var s := IntToString(i);
    if i < 0 {
      var n := NatToString(-i);
      assert forall j :: 1 <= j < |s| ==> s[j] == n[j - 1];
    }
  }

  /** A text that neither starts nor ends with whitespace is its own trim, also after one
      leading space. */
  lemma TrimOfUnpadded(s: string)
    requires s != [] && !IsSpace(s[0]) && !IsSpace(s[|s| - 1])
    ensures Trim(s) == s && Trim(" " + s) == s
  {
    assert TrimStart(s) == s;
    assert TrimEnd(s) == s;
    assert (" " + s)[1..] == s;
  }

  /** `parseInt` reads back `String(i)` for every integer. */
  lemma ParseIntToString(i: int)
    ensures ParseInt(IntToString(i)) == Some(i)
  {
    if i < 0 {
      var s := IntToString(i);
      var n := NatToString(-i);
      assert TrimStart(s) == s;
      assert s[1..] == n;
      LeadingDigitsOfDigits(n);
    } else {
      ParseNatToString(i);
    }
  }

  /** A piece of the cell, as the import reads it. */
  function PieceValue(p: string): Option<int>
  {
    ParseInt(Trim(p))
  }

  lemma {:induction false} NumbersOfValues(vs: seq<Option<int>>, xs: seq<int>)
    requires |vs| == |xs| && forall i :: 0 <= i < |vs| ==> vs[i] == Some(xs[i])
    ensures Numbers(vs) == xs
  {
    if vs != [] {
      var n := |vs| - 1;
      NumbersOfValues(vs[..n], xs[..n]);
      assert xs == xs[..n] + [xs[n]];
    }
  }

  /** A numeral, with or without the space before it, holds no comma and reads back. */
  lemma NumeralPiece(i: int, p: string)
    requires p == IntToString(i) || p == " " + IntToString(i)
    ensures ',' !in p && PieceValue(p) == Some(i)
  {
    NumeralHasNoComma(i, p);
    var n := IntToString(i);
    IntToStringShape(i);
    TrimOfUnpadded(n);
    ParseIntToString(i);
  }

  lemma NumeralHasNoComma(i: int, p: string)
    requires p == IntToString(i) || p == " " + IntToString(i)
    ensures ',' !in p
  {
    var n := IntToString(i);
    IntToStringShape(i);
    if p != n { assert forall j :: 1 <= j < |p| ==> p[j] == n[j - 1]; }
  }

  /** The days cell reads back as exactly the list that was written, for any integers. */
  lemma DaysCellRoundTrip(xs: seq<int>)
    ensures ImportDays(DaysCell(xs)) == xs
  {
    if xs != [] {
      var ns := Numerals(xs);
      var ps := Spaced(ns);
      NumeralsNotEmpty(xs);
      JoinCommaSpace(ns);
      forall k | 0 <= k < |ps| ensures ',' !in ps[k] && PieceValue(ps[k]) == Some(xs[k]) {
        NumeralPiece(xs[k], ps[k]);
      }
      SplitJoin(ps, ',');
      NumbersOfValues(PieceValues(ps), xs);
    }
  }

  /** Export then import of a habit's days gives them back in ascending order. */
  lemma HabitDaysRoundTrip(h: Habit)
    ensures ImportDays(HabitDaysCell(h)) == Sorting.SortInts(h.completedDays)
  {
    DaysCellRoundTrip(Sorting.SortInts(h.completedDays));
  }

  // ---- goal status and priority --------------------------------------------------

  /** The status as the application stores it. */
  function StatusCode(st: GoalStatus): string
  {
    match st
    case Done => "done"
    case OnGoing => "on-going"
    case NotYet => "not-yet"
    case OtherStatus(t) => t
  }

  /** The 'Status' cell: the first letter upper-cased and the first '-' made a space. */
  function StatusLabel(st: GoalStatus): (cell: string)
    ensures |cell| == |StatusCode(st)|
  {
    var s := StatusCode(st);
    if s == [] then [] else [UpperChar(s[0])] + ReplaceFirst(s[1..], "-", " ")
  }

  /** The imported status: the cell lower-cased with its first space made a '-'; a blank
      cell is 'not-yet', and any other label is kept as it reads. */
  function ImportStatus(cell: string): (st: GoalStatus)
    ensures cell == [] ==> st == NotYet
  {
    var s := ReplaceFirst(Lower(cell), " ", "-");
    if s == [] then NotYet
    else if s == "done" then Done
    else if s == "on-going" then OnGoing
    else if s == "not-yet" then NotYet
    else OtherStatus(s)
  }

  /** Replacing the first occurrence of a character, found at position i. */
  lemma ReplaceCharAt(s: string, c: char, d: char, i: int)
    requires 0 <= i < |s| && s[i] == c && forall j :: 0 <= j < i ==> s[j] != c
    ensures ReplaceFirst(s, [c], [d]) == s[..i] + [d] + s[i + 1..]
  {
    assert OccursAt(s, [c], i);
    var r := IndexOf(s, [c]);
    assert r.Some? && r.value <= i;
    assert s[r.value..r.value + 1] == [c];
    assert s[r.value] == c;
  }

  /** Replacing the first occurrence of a character, found at position i, gives the text
      that differs from s at i alone. */
  lemma ReplacedAt(s: string, c: char, d: char, i: int, t: string)
    requires 0 <= i < |s| && s[i] == c && forall j :: 0 <= j < i ==> s[j] != c
    requires |t| == |s| && t[i] == d && forall j :: 0 <= j < |s| && j != i ==> t[j] == s[j]
    ensures ReplaceFirst(s, [c], [d]) == t
  {
    ReplaceCharAt(s, c, d, i);
    var r := s[..i] + [d] + s[i + 1..];
    assert |r| == |t|;
    forall j | 0 <= j < |r| ensures r[j] == t[j] {
      if j < i {
        assert r[j] == s[j];
      } else if j > i {
        assert r[j] == s[i + 1..][j - i - 1];
      }
    }
  }

  lemma ReplaceMissingChar(s: string, c: char, d: char)
    requires c !in s
    ensures ReplaceFirst(s, [c], [d]) == s
  {
    MissingCharNotContained(s, [c], 0);
  }

  /** Each of the three statuses reads back from the label it is written as. */
  lemma StatusRoundTrip(st: GoalStatus)
    requires st == Done || st == OnGoing || st == NotYet
    ensures ImportStatus(StatusLabel(st)) == st
  {
    if st == Done { DoneRoundTrip(); }
    else if st == OnGoing { OnGoingRoundTrip(); }
    else { NotYetRoundTrip(); }
  }

  lemma DoneRoundTrip()
    ensures ImportStatus(StatusLabel(Done)) == Done
  {
    DoneLabel();
    ReadDone();
  }

  lemma DoneLetters()
    ensures StatusCode(Done) == ['d'] + "one" && [UpperChar('d')] + "one" == "Done"
  {
  }

  lemma DoneLabel()
    ensures StatusLabel(Done) == "Done"
  {
    ReplaceMissingChar("one", '-', ' ');
    DoneLetters();
    StatusLabelParts(Done, 'd', "one", "one");
  }

  lemma ReadDone()
    ensures ImportStatus("Done") == Done
  {
    LowerCapitalised('D', "one");
    assert ['D'] + "one" == "Done" && [LowerChar('D')] + "one" == "done";
    ReplaceMissingChar("done", ' ', '-');
    ImportStatusOf("Done", "done");
  }

  lemma OnGoingRoundTrip()
    ensures ImportStatus(StatusLabel(OnGoing)) == OnGoing
  {
    OnGoingLabel();
    ReadOnGoing();
  }

  lemma OnGoingLetters()
    ensures StatusCode(OnGoing) == ['o'] + "n-going" && [UpperChar('o')] + "n going" == "On going"
  {
  }

  lemma OnGoingLabel()
    ensures StatusLabel(OnGoing) == "On going"
  {
    OnGoingSpaced();
    OnGoingLetters();
    StatusLabelParts(OnGoing, 'o', "n-going", "n going");
  }

  lemma OnGoingSpaced()
    ensures ReplaceFirst("n-going", "-", " ") == "n going"
  {
    ReplacedAt("n-going", '-', ' ', 1, "n going");
  }

  lemma ReadOnGoing()
    ensures ImportStatus("On going") == OnGoing
  {
    LowerCapitalised('O', "n going");
    assert ['O'] + "n going" == "On going" && [LowerChar('O')] + "n going" == "on going";
    OnGoingDashed();
    ImportStatusOf("On going", "on-going");
  }

  lemma OnGoingDashed()
    ensures ReplaceFirst("on going", " ", "-") == "on-going"
  {
    ReplacedAt("on going", ' ', '-', 2, "on-going");
  }

  lemma NotYetRoundTrip()
    ensures ImportStatus(StatusLabel(NotYet)) == NotYet
  {
    NotYetLabel();
    ReadNotYet();
  }

  lemma NotYetLetters()
    ensures StatusCode(NotYet) == ['n'] + "ot-yet" && [UpperChar('n')] + "ot yet" == "Not yet"
  {
  }

  lemma NotYetLabel()
    ensures StatusLabel(NotYet) == "Not yet"
  {
    NotYetSpaced();
    NotYetLetters();
    StatusLabelParts(NotYet, 'n', "ot-yet", "ot yet");
  }

  lemma NotYetSpaced()
    ensures ReplaceFirst("ot-yet", "-", " ") == "ot yet"
  {
    ReplacedAt("ot-yet", '-', ' ', 2, "ot yet");
  }

  lemma ReadNotYet()
    ensures ImportStatus("Not yet") == NotYet
  {
    LowerCapitalised('N', "ot yet");
    assert ['N'] + "ot yet" == "Not yet" && [LowerChar('N')] + "ot yet" == "not yet";
    NotYetDashed();
    ImportStatusOf("Not yet", "not-yet");
  }

  lemma NotYetDashed()
    ensures ReplaceFirst("not yet", " ", "-") == "not-yet"
  {
    ReplacedAt("not yet", ' ', '-', 3, "not-yet");
  }

  /** The label of a status whose code is `c` followed by `tail`. */
  lemma StatusLabelParts(st: GoalStatus, c: char, tail: string, spaced: string)
    requires StatusCode(st) == [c] + tail && ReplaceFirst(tail, "-", " ") == spaced
    ensures StatusLabel(st) == [UpperChar(c)] + spaced
  {
    assert ([c] + tail)[1..] == tail;
  }

  /** The imported status of a cell whose lower-cased, first-space-replaced form is `s`. */
  lemma ImportStatusOf(cell: string, s: string)
    requires ReplaceFirst(Lower(cell), " ", "-") == s
    ensures s == "done" ==> ImportStatus(cell) == Done
    ensures s == "on-going" ==> ImportStatus(cell) == OnGoing
    ensures s == "not-yet" ==> ImportStatus(cell) == NotYet
  {
  }

  /** Lower-casing a capitalised word changes only its first letter. */
  lemma LowerCapitalised(c: char, rest: string)
    requires forall i :: 0 <= i < |rest| ==> !('A' <= rest[i] <= 'Z')
    ensures Lower([c] + rest) == [LowerChar(c)] + rest
  {
    var s := [c] + rest;
    assert forall i :: 1 <= i < |s| ==> s[i] == rest[i - 1];
  }

  /** The label the import template writes, 'On-Going', reads as on-going. */
  lemma TemplateStatusIsOnGoing()
    ensures ImportStatus("On-Going") == OnGoing
  {
    assert Lower("On-Going") == "on-going";
    ReplaceMissingChar("on-going", ' ', '-');
  }

  /** The priority as the application stores it, which is also its 'Priority' cell. */
  function ValueCode(v: GoalValue): string
  {
    match v
    case VVIMP => "VVIMP"
    case VIMP => "VIMP"
    case IMP => "IMP"
    case NIMP => "NIMP"
    case OtherValue(t) => t
  }

  /** The imported priority: a blank cell is 'IMP', any other text is taken as it is. */
  function ImportValue(cell: string): (v: GoalValue)
    ensures cell == [] ==> v == IMP
    ensures cell != [] ==> ValueCode(v) == cell
  {
    if cell == [] then IMP
    else if cell == "VVIMP" then VVIMP
    else if cell == "VIMP" then VIMP
    else if cell == "IMP" then IMP
    else if cell == "NIMP" then NIMP
    else OtherValue(cell)
  }

  /** Every priority whose code is not blank reads back from its cell. */
  lemma ValueRoundTrip(v: GoalValue)
    requires ValueCode(v) != []
    requires v.OtherValue? ==> v.text !in ["VVIMP", "VIMP", "IMP", "NIMP"]
    ensures ImportValue(ValueCode(v)) == v
  {
  }

  // ---- goal duration -------------------------------------------------------------

  /** `parseInt(cell) || 30`: a cell that is not a number, or is 0, gives 30. */
  function ParsedDuration(cell: string): (d: int)
    ensures d != 0
    ensures ParseInt(cell).None? ==> d == 30
    ensures ParseInt(cell).Some? && ParseInt(cell).value != 0 ==> d == ParseInt(cell).value
  {
    match ParseInt(cell)
    case None => 30
    case Some(n) => if n == 0 then 30 else n
  }

  function Distance(a: int, b: int): (d: nat)
  {
    if a >= b then a - b else b - a
  }

  /** The key under which the reduce keeps a duration: nearer to `parsed` is greater. */
  function Nearness(parsed: int): GoalDays -> real
  {
    (v: GoalDays) => -(Distance(v, parsed) as real)
  }

  /** The allowed duration nearest to `parsed`; a later option replaces the kept one only
      when strictly nearer, so a tie goes to the smaller duration. */
  function Closest(parsed: int): (d: GoalDays)
    ensures forall i :: 0 <= i < |GoalDaysOptions| ==>
      Distance(d, parsed) <= Distance(GoalDaysOptions[i], parsed)
    ensures forall i :: 0 <= i < |GoalDaysOptions| && GoalDaysOptions[i] < d ==>
      Distance(d, parsed) < Distance(GoalDaysOptions[i], parsed)
  {
    var b := ReduceBest(GoalDaysOptions, Nearness(parsed));
    ReduceBestIsFirstMax(GoalDaysOptions, Nearness(parsed));
    OptionsAscending();
    GoalDaysOptions[b]
  }

  lemma OptionsAscending()
    ensures forall i, j :: 0 <= i < j < |GoalDaysOptions| ==> GoalDaysOptions[i] < GoalDaysOptions[j]
  {
  }

  /** An allowed duration snaps to itself. */
  lemma ClosestOfAllowed(d: GoalDays)
    ensures Closest(d) == d
  {
    assert IsGoalDays(d);
    var i := if d == 1 then 0 else if d == 7 then 1 else if d == 15 then 2 else if d == 30 then 3
      else if d == 45 then 4 else if d == 90 then 5 else if d == 150 then 6 else if d == 180 then 7
      else if d == 270 then 8 else 9;
    assert GoalDaysOptions[i] == d;
  }

  /** Ties go to the smaller duration: 4 lies 3 from both 1 and 7, 11 lies 4 from 7 and 15. */
  lemma ClosestTies()
    ensures Closest(4) == 1 && Closest(11) == 7
  {
    var a := Closest(4);
    assert Distance(a, 4) <= Distance(GoalDaysOptions[0], 4);
    var b := Closest(11);
    assert Distance(b, 11) <= Distance(GoalDaysOptions[1], 11);
  }

  /** A duration cell that is blank, not a number or 0 imports as 30 days. */
  lemma UnparsableDurationIs30(cell: string)
    requires ParseInt(cell).None? || ParseInt(cell) == Some(0)
    ensures Closest(ParsedDuration(cell)) == 30
  {
    ClosestOfAllowed(30);
  }

  /** Every goal's duration reads back from the number it is exported as. */
  lemma DurationRoundTrip(d: GoalDays)
    ensures Closest(ParsedDuration(IntToString(d))) == d
  {
    assert IsGoalDays(d);
    ParseNatToString(d);
    ClosestOfAllowed(d);
  }

  // ---- journal text fields and rating --------------------------------------------

  /** `text || '-'`: an empty field is written as '-'. */
  function Placeholder(text: string): (cell: string)
    ensures cell != []
    ensures text != [] ==> cell == text
  {
    if text == [] then "-" else text
  }

  /** `cell !== '-' ? cell : ''`. */
  function Unplaced(cell: string): (text: string)
    ensures cell != "-" ==> text == cell
  {
    if cell == "-" then [] else cell
  }

  /** A text field reads back from its cell exactly when it is not the text '-' itself. */
  lemma PlaceholderRoundTrip(text: string)
    ensures Unplaced(Placeholder(text)) == text <==> text != "-"
  {
  }

  /** The 'Day Rating' cell: 'r/5' for a positive rating, '-' otherwise. */
  function RatingCell(r: int): (cell: string)
    ensures r <= 0 ==> cell == "-"
  {
    if r > 0 then NatToString(r) + "/5" else "-"
  }

  /** The import as written: a non-blank cell goes through `parseInt`, so '-' gives NaN,
      modelled as `None`. */
  function ImportRatingAsWritten(cell: string): (r: Option<int>)
    ensures cell == [] ==> r == Some(0)
    ensures cell != [] ==> r == ParseInt(cell)
  {
    if cell == [] then Some(0) else ParseInt(cell)
  }

  /** A rating of 0 is written as '-', which the import as written reads as NaN. */
  lemma AsWrittenUnratedIsNaN()
    ensures ImportRatingAsWritten(RatingCell(0)) == None
  {
  }

  /** The import as intended: a cell that is not a number, '-' included, means no rating. */
  function ImportRating(cell: string): (r: int)
    ensures ParseInt(cell).Some? ==> r == ParseInt(cell).value
    ensures ParseInt(cell).None? ==> r == 0
  {
    match ParseInt(cell)
    case Some(n) => n
    case None => 0
  }

  lemma ParseRatingCell(r: nat)
    requires r > 0
    ensures ParseInt(NatToString(r) + "/5") == Some(r)
  {
    var n := NatToString(r);
    var s := n + "/5";
    assert TrimStart(s) == s;
    assert Unsigned(s) == s;
    assert s[..|n|] == n && s[|n|] == '/';
    LeadingDigitsOfDigits(n);
    LeadingDigitsPrefix(s, |n|);
  }

  /** A text whose first k characters are digits and whose k-th is not has those k digits as
      its leading run. */
  lemma {:induction false} LeadingDigitsPrefix(s: string, k: nat)
    requires k < |s| && AllDigits(s[..k]) && !IsDigit(s[k])
    ensures LeadingDigits(s) == s[..k]
  {
  }

  lemma DashIsNotANumber()
    ensures ParseInt("-") == None
  {
    var s := "-";
    assert !IsSpace(s[0]);
    assert TrimStart(s) == s;
    assert Unsigned(s) == [];
    assert LeadingDigits([]) == [];
  }

  /** Every rating reads back from its cell; one that is not positive reads back as 0. */
  lemma RatingRoundTrip(r: int)
    ensures ImportRating(RatingCell(r)) == if r > 0 then r else 0
  {
    if r > 0 {
      ParseRatingCell(r);
    } else {
      DashIsNotANumber();
    }
  }

  // ---- rows ----------------------------------------------------------------------

  /** A 'Habits' row: the name, the number of completed days and the days. */
  datatype HabitRow = HabitRow(name: string, totalCompleted: nat, completedDays: string)

  function ExportHabit(h: Habit): (row: HabitRow)
    ensures row.name == h.name && row.totalCompleted == |h.completedDays|
    ensures ImportDays(row.completedDays) == Sorting.SortInts(h.completedDays)
  {
    HabitDaysRoundTrip(h);
    HabitRow(h.name, |h.completedDays|, HabitDaysCell(h))
  }

  /** The default colour of an imported habit, teal. */
  const DefaultColor: string := "187 100% 42%"

  /** An imported habit; the id and the creation instant are given. */
  function ImportHabit(row: HabitRow, id: string, now: int): (h: Habit)
    ensures h.id == id && h.createdAt == now && h.color == DefaultColor
    ensures h.name == if row.name == [] then "Unnamed Habit" else row.name
    ensures h.completedDays == ImportDays(row.completedDays)
  {
    Habit(id, if row.name == [] then "Unnamed Habit" else row.name, DefaultColor,
          ImportDays(row.completedDays), now)
  }

  /** A habit read back from its own row keeps its name and its days, sorted. */
  lemma HabitRoundTrip(h: Habit, id: string, now: int)
    requires h.name != []
    ensures var g := ImportHabit(ExportHabit(h), id, now);
      g.name == h.name && g.completedDays == Sorting.SortInts(h.completedDays)
  {
  }

  /** A 'Goals' row; the creation and completion dates are given as instants, an absent
      completion written '-'. */
  datatype GoalRow = GoalRow(name: string, status: string, priority: string, duration: string,
                             createdAt: int, completedAt: Option<int>)

  function ExportGoal(g: Goal): (row: GoalRow)
    ensures row.name == g.name && row.status == StatusLabel(g.status)
    ensures row.priority == ValueCode(g.value) && row.duration == IntToString(g.days)
  {
    GoalRow(g.name, StatusLabel(g.status), ValueCode(g.value), IntToString(g.days), g.createdAt, g.completedAt)
  }

  /** An imported goal: created now, not completed. */
  function ImportGoal(row: GoalRow, id: string, now: int): (g: Goal)
    ensures g.id == id && g.createdAt == now && g.completedAt == None
    ensures g.name == if row.name == [] then "Unnamed Goal" else row.name
    ensures g.status == ImportStatus(row.status) && g.value == ImportValue(row.priority)
    ensures g.days == Closest(ParsedDuration(row.duration))
  {
    Goal(id, if row.name == [] then "Unnamed Goal" else row.name, ImportStatus(row.status),
         Closest(ParsedDuration(row.duration)), ImportValue(row.priority), now, None)
  }

  /** A goal with a named status and priority reads back from its row unchanged, but for
      its id, its creation instant and its completion, which the import drops. */
  lemma GoalRoundTrip(g: Goal, id: string, now: int)
    requires g.name != []
    requires g.status == Done || g.status == OnGoing || g.status == NotYet
    requires g.value == VVIMP || g.value == VIMP || g.value == IMP || g.value == NIMP
    ensures ImportGoal(ExportGoal(g), id, now) == g.(id := id, createdAt := now, completedAt := None)
  {
    StatusRoundTrip(g.status);
    ValueRoundTrip(g.value);
    DurationRoundTrip(g.days);
  }

  /** A 'Journal' row; the date cell is given as the day it names. */
  datatype JournalRow = JournalRow(
    date: Option<int>, howWasYourDay: string, productiveThing: string, learnedToday: string,
    missedToday: string, tomorrowPlan: string, screenTime: string, dayRating: string)

  function ExportEntry(e: JournalEntry): (row: JournalRow)
    ensures row.date == Some(e.date) && row.dayRating == RatingCell(e.dayRating)
    ensures row.howWasYourDay == Placeholder(e.howWasYourDay) && row.productiveThing == Placeholder(e.productiveThing)
    ensures row.learnedToday == Placeholder(e.learnedToday) && row.missedToday == Placeholder(e.missedToday)
    ensures row.tomorrowPlan == Placeholder(e.tomorrowPlan) && row.screenTime == Placeholder(e.screenTime)
  {
    JournalRow(Some(e.date), Placeholder(e.howWasYourDay), Placeholder(e.productiveThing),
               Placeholder(e.learnedToday), Placeholder(e.missedToday), Placeholder(e.tomorrowPlan),
               Placeholder(e.screenTime), RatingCell(e.dayRating))
  }

  /** An imported entry: a row without a date is dated today; the phone-usage fields the
      sheet lacks are empty. */
  function ImportEntry(row: JournalRow, id: string, today: int, now: int): (e: JournalEntry)
    ensures e.id == id && e.createdAt == now && e.updatedAt == now
    ensures e.date == if row.date.Some? then row.date.value else today
    ensures e.howWasYourDay == Unplaced(row.howWasYourDay) && e.productiveThing == Unplaced(row.productiveThing)
    ensures e.learnedToday == Unplaced(row.learnedToday) && e.missedToday == Unplaced(row.missedToday)
    ensures e.tomorrowPlan == Unplaced(row.tomorrowPlan) && e.screenTime == Unplaced(row.screenTime)
    ensures e.socialMediaTime == [] && e.firstPickupTime == []
    ensures e.dayRating == ImportRating(row.dayRating)
  {
    JournalEntry(id, if row.date.Some? then row.date.value else today,
                 Unplaced(row.howWasYourDay), Unplaced(row.productiveThing), Unplaced(row.learnedToday),
                 Unplaced(row.missedToday), Unplaced(row.tomorrowPlan), Unplaced(row.screenTime),
                 ImportRating(row.dayRating), [], [], now, now)
  }

  /** An entry with a rating from 0 to 5 and no field that is '-' itself reads back from its
      row, but for its id, its instants and the phone-usage fields the sheet does not hold. */
  lemma EntryRoundTrip(e: JournalEntry, id: string, today: int, now: int)
    requires 0 <= e.dayRating <= 5
    requires e.howWasYourDay != "-" && e.productiveThing != "-" && e.learnedToday != "-"
    requires e.missedToday != "-" && e.tomorrowPlan != "-" && e.screenTime != "-"
    ensures ImportEntry(ExportEntry(e), id, today, now)
      == e.(id := id, socialMediaTime := [], firstPickupTime := [], createdAt := now, updatedAt := now)
  {
    RatingRoundTrip(e.dayRating);
  }

  // ---- the date range ------------------------------------------------------------

  function GoalCreatedIn(start: int, end: int): Goal -> bool
  {
    (g: Goal) => start <= g.createdAt <= end
  }

  /** The goals exported: those created within [start, end], in order. */
  function GoalsInRange(gs: seq<Goal>, start: int, end: int): (r: seq<Goal>)
    ensures forall g :: g in r <==> g in gs && start <= g.createdAt <= end
  {
    Filter(gs, GoalCreatedIn(start, end))
  }

  function EntryDatedIn(start: int, end: int): JournalEntry -> bool
  {
    (e: JournalEntry) => start <= Calendar.Midnight(e.date) <= end
  }

  /** The entries exported: those whose day starts within [start, end], in order. */
  function EntriesInRange(es: seq<JournalEntry>, start: int, end: int): (r: seq<JournalEntry>)
    ensures forall e :: e in r <==> e in es && start <= Calendar.Midnight(e.date) <= end
  {
    Filter(es, EntryDatedIn(start, end))
  }

  /** Widening the range keeps every item it kept. */
  lemma WiderRangeKeepsMore(gs: seq<Goal>, es: seq<JournalEntry>, s1: int, e1: int, s2: int, e2: int)
    requires s2 <= s1 && e1 <= e2
    ensures forall g :: g in GoalsInRange(gs, s1, e1) ==> g in GoalsInRange(gs, s2, e2)
    ensures forall e :: e in EntriesInRange(es, s1, e1) ==> e in EntriesInRange(es, s2, e2)
  {
  }

  /** The sheets the export writes: Habits when chosen and there are habits, Goals and
      Journal when chosen and some item lies in the range. */
  function SheetNames(withHabits: bool, withGoals: bool, withJournal: bool, hs: seq<Habit>,
                      gs: seq<Goal>, es: seq<JournalEntry>, start: int, end: int): (r: seq<string>)
    ensures "Habits" in r <==> withHabits && hs != []
    ensures "Goals" in r <==> withGoals && exists g :: g in gs && start <= g.createdAt <= end
    ensures "Journal" in r <==> withJournal && exists e :: e in es && start <= Calendar.Midnight(e.date) <= end
  {
    var fg := GoalsInRange(gs, start, end);
    var fe := EntriesInRange(es, start, end);
    assert fg != [] ==> fg[0] in fg;
    assert fe != [] ==> fe[0] in fe;
    (if withHabits && hs != [] then ["Habits"] else [])
      + (if withGoals && fg != [] then ["Goals"] else [])
      + (if withJournal && fe != [] then ["Journal"] else [])
  }
}
