// JavaScript string operations the application relies on, over `seq<char>`.

module Text {
  import opened Common

  /** The characters matched by the regular-expression class `\s` and removed by `trim()`. */
  predicate IsSpace(c: char)
  {
    c == ' ' || c == '\t' || c == '\n' || c == '\r' || c == '\U{000B}' || c == '\U{000C}'
    || c == '\U{00A0}' || c == '\U{1680}' || ('\U{2000}' <= c <= '\U{200A}')
    || c == '\U{2028}' || c == '\U{2029}' || c == '\U{202F}' || c == '\U{205F}'
    || c == '\U{3000}' || c == '\U{FEFF}'
  }

  predicate AllSpace(s: string)
  {
    forall i :: 0 <= i < |s| ==> IsSpace(s[i])
  }

  predicate NoSpace(s: string)
  {
    forall i :: 0 <= i < |s| ==> !IsSpace(s[i])
  }

  lemma AllSpaceAppend(a: string, b: string)
    ensures AllSpace(a + b) <==> AllSpace(a) && AllSpace(b)
  {
    if AllSpace(a) && AllSpace(b) {
      forall i | 0 <= i < |a + b| ensures IsSpace((a + b)[i]) {
        if i < |a| {
          assert (a + b)[i] == a[i];
        } else {
          assert (a + b)[i] == b[i - |a|];
        }
      }
    }
    if AllSpace(a + b) {
      assert forall i :: 0 <= i < |a| ==> a[i] == (a + b)[i];
      assert forall i :: 0 <= i < |b| ==> b[i] == (a + b)[|a| + i];
    }
  }

  /** `trimStart()`. */
  function TrimStart(s: string): (r: string)
    ensures |r| <= |s| && r == s[|s| - |r|..]
    ensures AllSpace(s[..|s| - |r|])
    ensures r == [] || !IsSpace(r[0])
  {
    if s != [] && IsSpace(s[0]) then
      var r := TrimStart(s[1..]);
      TrimStartStep(s, r);
      r
    else s
  }

  /** Dropping one more leading space keeps the trimmed text a suffix behind spaces. */
  lemma TrimStartStep(s: string, r: string)
    requires s != [] && IsSpace(s[0])
    requires |r| <= |s| - 1 && r == s[1..][|s| - 1 - |r|..]
    requires AllSpace(s[1..][..|s| - 1 - |r|])
    ensures r == s[|s| - |r|..] && AllSpace(s[..|s| - |r|])
  {
    assert s[..|s| - |r|] == [s[0]] + s[1..][..|s| - 1 - |r|];
    AllSpaceAppend([s[0]], s[1..][..|s| - 1 - |r|]);
  }

  /** `trimEnd()`. */
  function TrimEnd(s: string): (r: string)
    ensures |r| <= |s| && r == s[..|r|]
    ensures AllSpace(s[|r|..])
    ensures r == [] || !IsSpace(r[|r| - 1])
  {
    if s != [] && IsSpace(s[|s| - 1]) then
      var r := TrimEnd(s[..|s| - 1]);
      assert s[|r|..] == s[..|s| - 1][|r|..] + [s[|s| - 1]];
      AllSpaceAppend(s[..|s| - 1][|r|..], [s[|s| - 1]]);
      r
    else s
  }

  /** `trim()`: whitespace removed from both ends. */
  function Trim(s: string): (r: string)
    ensures r == [] || (!IsSpace(r[0]) && !IsSpace(r[|r| - 1]))
  {
    TrimEnd(TrimStart(s))
  }

  /** A string is blank, `s.trim() === ''`, exactly when it is made of whitespace only. */
  lemma BlankIffAllSpace(s: string)
    ensures (Trim(s) == []) <==> AllSpace(s)
  {
    var a := TrimStart(s);
    var r := TrimEnd(a);
    if r == [] {
      assert a == a[|r|..];
      assert a == [];
      assert s == s[..|s| - |a|];
    } else {
      assert s[|s| - |a|] == a[0] == r[0];
    }
  }

  // ---- words -------------------------------------------------------------

  /** The leading run of non-whitespace characters. */
  function TakeWord(s: string): (w: string)
    ensures |w| <= |s| && w == s[..|w|] && NoSpace(w)
    ensures |w| == |s| || IsSpace(s[|w|])
  {
    if s == [] || IsSpace(s[0]) then []
    else
      var w := TakeWord(s[1..]);
      assert [s[0]] + w == s[..|w| + 1];
      [s[0]] + w
  }

  /** The whitespace-separated words of a text: `s.split(/\s+/).filter(w => w.length > 0)`. */
  function Words(s: string): (ws: seq<string>)
    decreases |s|
  {
    if s == [] then []
    else if IsSpace(s[0]) then Words(s[1..])
    else
      var w := TakeWord(s);
      [w] + Words(s[|w|..])
  }

  /** Every word is a non-empty run without whitespace. */
  lemma {:induction false} WordsAreWords(s: string)
    ensures forall k :: 0 <= k < |Words(s)| ==> Words(s)[k] != [] && NoSpace(Words(s)[k])
    decreases |s|
  {
    if s == [] {
    } else if IsSpace(s[0]) {
      WordsAreWords(s[1..]);
    } else {
      var w := TakeWord(s);
      WordsAreWords(s[|w|..]);
      assert Words(s) == [w] + Words(s[|w|..]);
    }
  }

  /** A text has no words exactly when it is blank. */
  lemma {:induction false} NoWordsIffAllSpace(s: string)
    ensures (Words(s) == []) <==> AllSpace(s)
    decreases |s|
  {
    if s == [] {
    } else if IsSpace(s[0]) {
      NoWordsIffAllSpace(s[1..]);
      assert AllSpace(s) <==> AllSpace(s[1..]) by {
        assert forall k :: 1 <= k < |s| ==> s[k] == s[1..][k - 1];
      }
    } else {
      assert Words(s) != [];
    }
  }

  /** Whitespace before a text does not change its words. */
  lemma {:induction false} WordsSkipSpace(a: string, s: string)
    requires AllSpace(a)
    ensures Words(a + s) == Words(s)
    decreases |a|
  {
    if a != [] {
      assert (a + s)[1..] == a[1..] + s;
      WordsSkipSpace(a[1..], s);
    } else {
      assert a + s == s;
    }
  }

  /** Whitespace after a text does not change its words. */
  lemma {:induction false} WordsDropSpace(s: string, b: string)
    requires AllSpace(b)
    ensures Words(s + b) == Words(s)
    decreases |s|
  {
    if s == [] {
      NoWordsIffAllSpace(b);
      assert s + b == b;
    } else if IsSpace(s[0]) {
      assert (s + b)[1..] == s[1..] + b;
      WordsDropSpace(s[1..], b);
    } else {
      var w := TakeWord(s);
      var w' := TakeWord(s + b);
      if |w| < |s| {
        TakeWordPrefix(s, b);
        assert (s + b)[|w|..] == s[|w|..] + b;
        WordsDropSpace(s[|w|..], b);
      } else {
        TakeWordPrefix(s, b);
        assert w' == s;
        assert (s + b)[|w'|..] == b;
        assert s[|w|..] == [];
        NoWordsIffAllSpace(b);
      }
    }
  }

  lemma {:induction false} TakeWordPrefix(s: string, b: string)
    requires s != [] && !IsSpace(s[0]) && AllSpace(b)
    ensures TakeWord(s + b) == TakeWord(s)
    decreases |s|
  {
    if |s| == 1 {
      assert (s + b)[1..] == b;
      if b != [] { assert IsSpace(b[0]); }
    } else if IsSpace(s[1]) {
      assert (s + b)[1..] == s[1..] + b;
    } else {
      assert (s + b)[1..] == s[1..] + b;
      TakeWordPrefix(s[1..], b);
    }
  }

  /** Trimming a text keeps its words. */
  lemma WordsOfTrim(s: string)
    ensures Words(Trim(s)) == Words(s)
  {
    var before, r, after := TrimParts(s);
    WordsOfPadded(before, r, after);
  }

  /** A text is its trimmed form with the whitespace trimmed away on either side. */
  lemma TrimParts(s: string) returns (before: string, r: string, after: string)
    ensures AllSpace(before) && AllSpace(after)
    ensures s == before + (r + after) && Trim(s) == r
  {
    var a := TrimStart(s);
    r := TrimEnd(a);
    before, after := s[..|s| - |a|], a[|r|..];
    Rejoin(s, a, r);
  }

  /** A suffix a of s and a prefix r of a put s back together. */
  lemma Rejoin(s: string, a: string, r: string)
    requires |a| <= |s| && a == s[|s| - |a|..] && |r| <= |a| && r == a[..|r|]
    ensures s == s[..|s| - |a|] + (r + a[|r|..])
  {
    assert a == r + a[|r|..];
  }

  /** Whitespace on both sides of a text does not change its words. */
  lemma WordsOfPadded(before: string, r: string, after: string)
    requires AllSpace(before) && AllSpace(after)
    ensures Words(before + (r + after)) == Words(r)
  {
    WordsSkipSpace(before, r + after);
    WordsDropSpace(r, after);
  }

  // ---- search and replace ------------------------------------------------

  predicate StartsWith(s: string, p: string)
  {
    |p| <= |s| && s[..|p|] == p
  }

  predicate OccursAt(s: string, p: string, i: int)
  {
    0 <= i && i + |p| <= |s| && s[i..i + |p|] == p
  }

  /** `s.indexOf(p)`: the first position at which p occurs, or nothing. */
  function IndexOf(s: string, p: string): (r: Option<nat>)
    ensures r.Some? ==> OccursAt(s, p, r.value) && forall j :: 0 <= j < r.value ==> !OccursAt(s, p, j)
    ensures r.None? ==> forall j :: 0 <= j <= |s| - |p| ==> !OccursAt(s, p, j)
    decreases |s|
  {
    if |p| > |s| then None
    else if StartsWith(s, p) then Some(0)
    else
      match IndexOf(s[1..], p)
      case None =>
        forall j | 1 <= j <= |s| - |p| ensures OccursAt(s, p, j) <==> OccursAt(s[1..], p, j - 1) {
          OccursShift(s, p, j);
        }
        None
      case Some(k) =>
        forall j | 1 <= j <= |s| - |p| ensures OccursAt(s, p, j) <==> OccursAt(s[1..], p, j - 1) {
          OccursShift(s, p, j);
        }
        Some(k + 1)
  }

  lemma OccursShift(s: string, p: string, j: int)
    requires 1 <= j <= |s| - |p|
    ensures OccursAt(s, p, j) <==> OccursAt(s[1..], p, j - 1)
  {
    var a, b := s[j..j + |p|], s[1..][j - 1..j - 1 + |p|];
    assert |a| == |b| && forall k :: 0 <= k < |a| ==> a[k] == b[k];
    assert a == b;
  }

  /** `s.includes(p)`. */
  predicate Contains(s: string, p: string)
  {
    IndexOf(s, p).Some?
  }

  /** A text holds a pattern when the pattern occurs at some position. */
  lemma ContainsAt(s: string, p: string, i: int)
    requires OccursAt(s, p, i)
    ensures Contains(s, p)
  {
  }

  /** A text that lacks one of the pattern's characters does not hold the pattern. */
  lemma MissingCharNotContained(s: string, p: string, k: int)
    requires 0 <= k < |p| && p[k] !in s
    ensures !Contains(s, p)
  {
  }

  /** A non-empty text holds a pattern when it starts with it or its tail holds it. */
  lemma ContainsStep(s: string, p: string)
    requires s != []
    ensures Contains(s, p) <==> StartsWith(s, p) || Contains(s[1..], p)
  {
  }

  /** A character in neither part nor the separator is not in the joined text. */
  lemma CharNotInJoined(a: string, x: char, b: string, c: char)
    requires c !in a && c != x && c !in b
    ensures c !in a + [x] + b
  {
  }

  /** A position where p occurs, with no occurrence before it, is what `indexOf` finds. */
  lemma FirstOccurrence(s: string, p: string, i: int)
    requires OccursAt(s, p, i) && forall j :: 0 <= j < i ==> !OccursAt(s, p, j)
    ensures IndexOf(s, p) == Some(i)
  {
  }

  /** `s.replace(p, q)` with a string pattern: only the first occurrence is replaced. */
  function ReplaceFirst(s: string, p: string, q: string): (r: string)
    ensures !Contains(s, p) ==> r == s
    ensures Contains(s, p) ==> exists i :: OccursAt(s, p, i) && r == s[..i] + q + s[i + |p|..]
  {
    match IndexOf(s, p)
    case None => s
    case Some(i) => s[..i] + q + s[i + |p|..]
  }

  // ---- splitting and joining ---------------------------------------------

  /** `s.split(c)` for a one-character separator; there is always at least one piece. */
  function Split(s: string, c: char): (ps: seq<string>)
    ensures |ps| >= 1
    ensures forall k :: 0 <= k < |ps| ==> c !in ps[k]
    decreases |s|
  {
    if c in s then
      var i := FirstIndex(s, c);
      [s[..i]] + Split(s[i + 1..], c)
    else [s]
  }

  function FirstIndex(s: string, c: char): (i: nat)
    requires c in s
    ensures i < |s| && s[i] == c && c !in s[..i]
  {
    if s[0] == c then 0
    else
      assert c in s[1..] by { var j :| 0 <= j < |s| && s[j] == c; assert s[1..][j - 1] == c; }
      var i := FirstIndex(s[1..], c);
      assert s[..i + 1] == [s[0]] + s[1..][..i];
      i + 1
  }

  /** `xs.join(sep)`. */
  function Join(xs: seq<string>, sep: string): string
  {
    if xs == [] then []
    else if |xs| == 1 then xs[0]
    else xs[0] + sep + Join(xs[1..], sep)
  }

  /** Splitting a joined list recovers the list when no piece contains the separator. */
  lemma {:induction false} SplitJoin(xs: seq<string>, c: char)
    requires |xs| >= 1
    requires forall k :: 0 <= k < |xs| ==> c !in xs[k]
    ensures Split(Join(xs, [c]), c) == xs
  {
    if |xs| == 1 {
    } else {
      var s := Join(xs, [c]);
      assert s == xs[0] + [c] + Join(xs[1..], [c]);
      assert s[|xs[0]|] == c;
      var i := FirstIndex(s, c);
      assert s[..|xs[0]|] == xs[0];
      assert i >= |xs[0]| by {
        assert forall k :: 0 <= k < |xs[0]| ==> s[k] == xs[0][k];
      }
      assert s[..i] == xs[0];
      assert s[i + 1..] == Join(xs[1..], [c]);
      SplitJoin(xs[1..], c);
    }
  }

  /** Splitting a text and joining the pieces gives back the text. */
  lemma {:induction false} JoinSplit(s: string, c: char)
    ensures Join(Split(s, c), [c]) == s
    decreases |s|
  {
    if c in s {
      var i := FirstIndex(s, c);
      var rest := Split(s[i + 1..], c);
      assert Split(s, c) == [s[..i]] + rest;
      JoinCons(s[..i], rest, [c]);
      JoinSplit(s[i + 1..], c);
      CutAt(s, i);
    }
  }

  /** Joining a piece in front of a non-empty list puts the separator after it. */
  lemma JoinCons(p: string, rest: seq<string>, sep: string)
    requires |rest| >= 1
    ensures Join([p] + rest, sep) == p + sep + Join(rest, sep)
  {
    var ps := [p] + rest;
    assert ps[0] == p && ps[1..] == rest;
  }

  /** A text is the part before position i, the character there, and the part after. */
  lemma CutAt(s: string, i: int)
    requires 0 <= i < |s|
    ensures s == s[..i] + [s[i]] + s[i + 1..]
  {
  }

  // ---- numbers -----------------------------------------------------------

  predicate IsDigit(c: char)
  {
    '0' <= c <= '9'
  }

  predicate AllDigits(s: string)
  {
    forall i :: 0 <= i < |s| ==> IsDigit(s[i])
  }

  function DigitValue(c: char): int
    requires IsDigit(c)
  {
    c as int - '0' as int
  }

  function DigitChar(d: int): (c: char)
    requires 0 <= d < 10
    ensures IsDigit(c) && DigitValue(c) == d
  {
    ('0' as int + d) as char
  }

  /** The value of a string of decimal digits, read most significant first. */
  function DigitsValue(s: string): (n: nat)
    requires AllDigits(s)
  {
    if s == [] then 0 else DigitsValue(s[..|s| - 1]) * 10 + DigitValue(s[|s| - 1])
  }

  /** The decimal numeral of a natural number, as `String(n)` writes it. */
  function NatToString(n: nat): (s: string)
    ensures s != [] && AllDigits(s)
    ensures DigitsValue(s) == n
  {
    if n < 10 then [DigitChar(n)]
    else
      var s := NatToString(n / 10) + [DigitChar(n % 10)];
      assert s[..|s| - 1] == NatToString(n / 10);
      s
  }

  /** `String(i)` for any integer. */
  function IntToString(i: int): (s: string)
    ensures s != []
  {
    if i < 0 then "-" + NatToString(-i) else NatToString(i)
  }

  /** The leading run of decimal digits. */
  function LeadingDigits(s: string): (d: string)
    ensures |d| <= |s| && d == s[..|d|] && AllDigits(d)
    ensures |d| == |s| || !IsDigit(s[|d|])
  {
    if s == [] || !IsDigit(s[0]) then []
    else
      var d := LeadingDigits(s[1..]);
      assert [s[0]] + d == s[..|d| + 1];
      [s[0]] + d
  }

  lemma {:induction false} LeadingDigitsOfDigits(s: string)
    requires AllDigits(s)
    ensures LeadingDigits(s) == s
  {
  }

  /** `parseInt(s)` in base ten: leading whitespace and a sign are skipped, then the
      longest run of digits is read; no digits at all gives `NaN`, modelled as `None`. */
  function ParseInt(s: string): (r: Option<int>)
    ensures r.None? <==> LeadingDigits(Unsigned(TrimStart(s))) == []
  {
    var t := TrimStart(s);
    var u := Unsigned(t);
    var d := LeadingDigits(u);
    if d == [] then None
    else if t != [] && t[0] == '-' then Some(0 - DigitsValue(d) as int)
    else Some(DigitsValue(d))
  }

  /** A text without its leading sign. */
  function Unsigned(t: string): string
  {
    if t != [] && (t[0] == '-' || t[0] == '+') then t[1..] else t
  }

  /** `parseInt` reads back every numeral that `String` writes for a natural number. */
  lemma ParseNatToString(n: nat)
    ensures ParseInt(NatToString(n)) == Some(n)
  {
    var s := NatToString(n);
    NumeralIsTrimmed(n);
    assert Unsigned(s) == s;
    LeadingDigitsOfDigits(s);
  }

  /** `Number` reads back every numeral that `String` writes for a natural number. */
  lemma NumberOfNatToString(n: nat)
    ensures NumberOf(NatToString(n)) == Some(n)
  {
    var s := NatToString(n);
    NumeralIsTrimmed(n);
    assert Unsigned(s) == s;
  }

  /** A numeral starts and ends with a digit, so trimming leaves it as it is. */
  lemma NumeralIsTrimmed(n: nat)
    ensures TrimStart(NatToString(n)) == NatToString(n) && Trim(NatToString(n)) == NatToString(n)
  {
    var s := NatToString(n);
    DigitIsNotSpace(s[0]);
    DigitIsNotSpace(s[|s| - 1]);
    assert TrimStart(s) == s;
    assert TrimEnd(s) == s;
  }

  lemma DigitIsNotSpace(c: char)
    requires IsDigit(c)
    ensures !IsSpace(c)
  {
  }

  /** Different natural numbers have different numerals. */
  lemma NatToStringInjective(m: nat, n: nat)
    requires NatToString(m) == NatToString(n)
    ensures m == n
  {
  }

  /** `Number(s)` for texts that denote integers: surrounding whitespace is ignored, a blank
      text is 0, and an optional sign followed by digits is that integer. Every other text is
      read as `NaN`; decimal, exponent, hexadecimal and `Infinity` syntax is not modelled. */
  function NumberOf(s: string): (r: Option<int>)
    ensures AllDigits(Trim(s)) ==> r.Some? && r.value >= 0
  {
    var t := Trim(s);
    if t == [] then Some(0)
    else
      var u := Unsigned(t);
      if u == [] || !AllDigits(u) then None
      else if t[0] == '-' then Some(0 - DigitsValue(u) as int)
      else Some(DigitsValue(u))
  }

  // ---- letter case ---------------------------------------------------------

  /** `toLowerCase()` on ASCII letters. */
  function LowerChar(c: char): (r: char)
    ensures ('A' <= c <= 'Z') ==> 'a' <= r <= 'z'
    ensures !('A' <= c <= 'Z') ==> r == c
  {
    if 'A' <= c <= 'Z' then (c as int + 32) as char else c
  }

  /** `toUpperCase()` on ASCII letters. */
  function UpperChar(c: char): (r: char)
    ensures ('a' <= c <= 'z') ==> 'A' <= r <= 'Z' && LowerChar(r) == c
    ensures !('a' <= c <= 'z') ==> r == c
  {
    if 'a' <= c <= 'z' then (c as int - 32) as char else c
  }

  function Lower(s: string): (r: string)
    ensures |r| == |s| && forall i :: 0 <= i < |s| ==> r[i] == LowerChar(s[i])
  {
    seq(|s|, i requires 0 <= i < |s| => LowerChar(s[i]))
  }
}
