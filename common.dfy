// Shared vocabulary: optional values, JavaScript rounding and remainder, sums.

module Common {

  /** A value that may be absent (`undefined`, `null` or `NaN` in the application). */
  datatype Option<T> = None | Some(value: T)

  /** `Math.round(n / d)` for an integer quotient: JavaScript rounds halves up. */
  function RoundDiv(n: int, d: int): (r: int)
    requires d > 0
    ensures 2 * d * r <= 2 * n + d < 2 * d * r + 2 * d
  {
    var q := (2 * n + d) / (2 * d);
    assert 2 * n + d == (2 * d) * q + (2 * n + d) % (2 * d);
    q
  }

  /** `Math.round(x)`: the integer nearest to x, halves rounded up. */
  function Round(x: real): (r: int)
    ensures r as real <= x + 0.5 < r as real + 1.0
  {
    (x + 0.5).Floor
  }

  /** The rounded percentage `total > 0 ? Math.round(part / total * 100) : 0`. */
  function Percent(part: int, total: int): int
  {
    if total > 0 then RoundDiv(100 * part, total) else 0
  }

  lemma AppendAssoc<T>(a: seq<T>, b: seq<T>, c: seq<T>)
    ensures a + b + c == a + (b + c)
  {
  }

  /** Dividing both sides of a strict inequality by a positive factor. */
  lemma CancelLt(c: int, a: int, b: int)
    requires c > 0 && c * a < c * b
    ensures a < b
  {
  }

  lemma CancelLtReal(c: real, a: real, b: real)
    requires c > 0.0 && c * a < c * b
    ensures a < b
  {
  }

  lemma CancelLeReal(c: real, a: real, b: real)
    requires c > 0.0 && c * a <= c * b
    ensures a <= b
  {
  }

  /** A mean of values between lo and hi lies between lo and hi. */
  lemma MeanBetween(t: real, n: real, lo: real, hi: real)
    requires n > 0.0 && lo * n <= t <= hi * n
    ensures lo <= t / n <= hi
  {
    assert (t / n) * n == t;
  }

  /** The integer form is `Math.round` of the exact quotient. */
  lemma RoundDivIsRound(n: int, d: int)
    requires d > 0
    ensures RoundDiv(n, d) == Round(n as real / d as real)
  {
    HalfUp(n, d);
    FloorOfQuotient(2 * n + d, 2 * d);
  }

  /** n / d + 1/2 == (2n + d) / (2d). */
  lemma HalfUp(n: int, d: int)
    requires d > 0
    ensures n as real / d as real + 0.5 == (2 * n + d) as real / (2 * d) as real
  {
    var D := d as real;
    var x := n as real / D + 0.5;
    assert n as real / D * D == n as real;
    assert x * (2.0 * D) == 2.0 * n as real + D;
    QuotientOfProduct(x, 2.0 * D, 2.0 * n as real + D);
  }

  lemma QuotientOfProduct(x: real, c: real, p: real)
    requires c != 0.0 && x * c == p
    ensures x == p / c
  {
  }

  /** The floor of a quotient of integers is their integer quotient. */
  lemma FloorOfQuotient(a: int, b: int)
    requires b > 0
    ensures (a as real / b as real).Floor == a / b
  {
    var q, m := a / b, a % b;
    DivisionInReals(a, b);
    Between(b as real, q as real, m as real, a as real / b as real);
  }

  /** Euclidean division read in the reals. */
  lemma DivisionInReals(a: int, b: int)
    requires b > 0
    ensures a as real == b as real * (a / b) as real + (a % b) as real
    ensures 0.0 <= (a % b) as real < b as real
    ensures b as real * (a as real / b as real) == a as real
  {
    CastProduct(b, a / b);
  }

  /** y = (B Q + M) / B with 0 <= M < B lies in [Q, Q + 1). */
  lemma Between(B: real, Q: real, M: real, y: real)
    requires 0.0 <= M < B && B * y == B * Q + M
    ensures Q <= y < Q + 1.0
  {
    CancelLeReal(B, Q, y);
    CancelLtReal(B, y, Q + 1.0);
  }

  lemma CastProduct(a: int, b: int)
    ensures (a * b) as real == a as real * b as real
  {
  }

  /** A share of at most the whole is a percentage between 0 and 100. */
  lemma PercentBounds(part: int, total: int)
    requires 0 <= part <= total
    ensures 0 <= Percent(part, total) <= 100
  {
    if total > 0 {
      var r := RoundDiv(100 * part, total);
      assert 2 * total * r < 2 * total * 101;
      CancelLt(2 * total, r, 101);
      assert 2 * total * (-1) < 2 * total * r;
      CancelLt(2 * total, -1, r);
    }
  }

  /** The whole is 100 percent, nothing is 0 percent. */
  lemma PercentEnds(total: int)
    requires total > 0
    ensures Percent(total, total) == 100 && Percent(0, total) == 0
  {
    var r := RoundDiv(100 * total, total);
    assert 2 * total * r < 2 * total * 101;
    CancelLt(2 * total, r, 101);
    assert 2 * total * 99 < 2 * total * r;
    CancelLt(2 * total, 99, r);
    var z := RoundDiv(0, total);
    assert 2 * total * z < 2 * total * 1;
    CancelLt(2 * total, z, 1);
    assert 2 * total * (-1) < 2 * total * z;
    CancelLt(2 * total, -1, z);
  }

  /** JavaScript's `a % b` for b > 0: the remainder takes the sign of a. */
  function JsRem(a: int, b: int): (r: int)
    requires b > 0
    ensures a >= 0 ==> r == a % b
    ensures a < 0 ==> -b < r <= 0 && r == -((-a) % b)
  {
    if a >= 0 then a % b else -((-a) % b)
  }

  function Sum(s: seq<int>): int
  {
    if s == [] then 0 else s[0] + Sum(s[1..])
  }

  lemma {:induction false} SumAppend(s: seq<int>, t: seq<int>)
    ensures Sum(s + t) == Sum(s) + Sum(t)
  {
    if s == [] {
      assert s + t == t;
    } else {
      assert (s + t)[1..] == s[1..] + t;
      SumAppend(s[1..], t);
    }
  }

  /** The largest element, or 0 for no elements and when every element is negative:
      a running maximum that starts at 0 (`Math.max(0, ...s)`). */
  function MaxOrZero(s: seq<int>): (m: int)
    ensures m >= 0
  {
    if s == [] then 0
    else
      var m := MaxOrZero(s[..|s| - 1]);
      if s[|s| - 1] > m then s[|s| - 1] else m
  }

  /** No element exceeds it, and unless it is 0 some element equals it. */
  lemma {:induction false} MaxOrZeroIsMax(s: seq<int>)
    ensures forall i :: 0 <= i < |s| ==> s[i] <= MaxOrZero(s)
    ensures MaxOrZero(s) == 0 || exists i :: 0 <= i < |s| && s[i] == MaxOrZero(s)
  {
    if s != [] {
      var t := s[..|s| - 1];
      MaxOrZeroIsMax(t);
      assert forall i :: 0 <= i < |s| - 1 ==> s[i] == t[i];
      if MaxOrZero(s) != 0 && MaxOrZero(s) != s[|s| - 1] {
        var i :| 0 <= i < |t| && t[i] == MaxOrZero(t);
        assert s[i] == MaxOrZero(s);
      }
    }
  }

  /** `xs.reduce((best, curr) => key(curr) > key(best) ? curr : best, xs[0])`, as the
      index of the element kept. */
  function ReduceBest<T>(xs: seq<T>, key: T -> real): (b: nat)
    requires |xs| > 0
    ensures b < |xs|
  {
    if |xs| == 1 then 0
    else
      var b := ReduceBest(xs[..|xs| - 1], key);
      if key(xs[|xs| - 1]) > key(xs[b]) then |xs| - 1 else b
  }

  /** The element kept is the first one with the greatest key. */
  lemma {:induction false} ReduceBestIsFirstMax<T>(xs: seq<T>, key: T -> real)
    requires |xs| > 0
    ensures var b := ReduceBest(xs, key);
      (forall j :: 0 <= j < |xs| ==> key(xs[j]) <= key(xs[b]))
      && (forall j :: 0 <= j < b ==> key(xs[j]) < key(xs[b]))
  {
    if |xs| > 1 {
      var p := xs[..|xs| - 1];
      ReduceBestIsFirstMax(p, key);
      assert forall j :: 0 <= j < |p| ==> xs[j] == p[j];
    }
  }

  /** `s.filter(p)`: the elements that pass, in their order. */
  function Filter<T(!new)>(s: seq<T>, p: T -> bool): (r: seq<T>)
    ensures |r| <= |s|
    ensures forall x :: x in r <==> x in s && p(x)
  {
    if s == [] then []
    else
      var q := Filter(s[..|s| - 1], p);
      var last := s[|s| - 1];
      assert forall x :: x in s <==> x in s[..|s| - 1] || x == last by {
        assert s == s[..|s| - 1] + [last];
      }
      if p(last) then q + [last] else q
  }

  /** Filtering keeps the order: the filter of a concatenation is the concatenation of the
      filters, and a single element is kept exactly when it passes. */
  lemma {:induction false} FilterConcat<T(!new)>(a: seq<T>, b: seq<T>, p: T -> bool)
    ensures Filter(a + b, p) == Filter(a, p) + Filter(b, p)
    ensures forall x :: Filter([x], p) == if p(x) then [x] else []
    decreases |b|
  {
    if b != [] {
      var b', x := b[..|b| - 1], b[|b| - 1];
      var keep := if p(x) then [x] else [];
      assert b == b' + [x];
      AppendAssoc(a, b', [x]);
      FilterConcat(a, b', p);
      FilterSnoc(a + b', x, p);
      FilterSnoc(b', x, p);
      AppendAssoc(Filter(a, p), Filter(b', p), keep);
    } else {
      assert a + b == a;
    }
    forall x ensures Filter([x], p) == if p(x) then [x] else [] {
      assert [] + [x] == [x];
      FilterSnoc([], x, p);
    }
  }

  /** One step of the filter: an element added last is kept exactly when it passes. */
  lemma FilterSnoc<T(!new)>(s: seq<T>, x: T, p: T -> bool)
    ensures Filter(s + [x], p) == Filter(s, p) + if p(x) then [x] else []
  {
    var t := s + [x];
    assert t[..|t| - 1] == s && t[|t| - 1] == x;
  }

  /** Filtering two equally long sequences keeps no more of the first when every element
      that passes there is matched by one that passes in the second. */
  lemma {:induction false} FilterLengthMonotone<T(!new)>(xs: seq<T>, ys: seq<T>, p: T -> bool, q: T -> bool)
    requires |xs| == |ys| && forall i :: 0 <= i < |xs| && p(xs[i]) ==> q(ys[i])
    ensures |Filter(xs, p)| <= |Filter(ys, q)|
  {
    if xs != [] {
      var n := |xs| - 1;
      assert forall i :: 0 <= i < n ==> xs[..n][i] == xs[i] && ys[..n][i] == ys[i];
      FilterLengthMonotone(xs[..n], ys[..n], p, q);
    }
  }

  /** The first element kept is the first element of s that passes. */
  lemma {:induction false} FilterHead<T(!new)>(s: seq<T>, p: T -> bool)
    requires Filter(s, p) != []
    ensures exists i :: 0 <= i < |s| && s[i] == Filter(s, p)[0] && p(s[i])
                        && forall j :: 0 <= j < i ==> !p(s[j])
  {
    var q := s[..|s| - 1];
    assert forall j :: 0 <= j < |q| ==> q[j] == s[j];
    if Filter(q, p) != [] {
      FilterHead(q, p);
      var i :| 0 <= i < |q| && q[i] == Filter(q, p)[0] && p(q[i]) && forall j :: 0 <= j < i ==> !p(q[j]);
      assert s[i] == Filter(s, p)[0];
    } else {
      assert forall j :: 0 <= j < |q| ==> !p(s[j]) by {
        forall j | 0 <= j < |q| ensures !p(s[j]) {
          assert q[j] in q;
        }
      }
      assert s[|s| - 1] == Filter(s, p)[0];
    }
  }

  /** The index of the first occurrence of x, if any. */
  function Find<T(==)>(s: seq<T>, x: T): (r: Option<nat>)
    ensures r.Some? ==> r.value < |s| && s[r.value] == x && forall j :: 0 <= j < r.value ==> s[j] != x
    ensures r.None? <==> x !in s
  {
    if s == [] then None
    else if s[0] == x then Some(0)
    else
      match Find(s[1..], x)
      case None => assert s == [s[0]] + s[1..]; None
      case Some(i) => Some(i + 1)
  }

  function Max(a: int, b: int): int { if a >= b then a else b }
  function Min(a: int, b: int): int { if a <= b then a else b }

  // ---- counting by key -----------------------------------------------------

  /** The keys of a table of counts, in row order. */
  function Keys<K>(rows: seq<(K, nat)>): (ks: seq<K>)
    ensures |ks| == |rows| && forall i :: 0 <= i < |rows| ==> ks[i] == rows[i].0
  {
    seq(|rows|, i requires 0 <= i < |rows| => rows[i].0)
  }

  /** One more occurrence of k: its row counts one more, or a new row is appended
      (`counts[k] = (counts[k] || 0) + 1` on an object or a `Map`, which keep their keys in
      insertion order). */
  function Bump<K(==)>(rows: seq<(K, nat)>, k: K): (r: seq<(K, nat)>)
    ensures Keys(r) == if k in Keys(rows) then Keys(rows) else Keys(rows) + [k]
  {
    match Find(Keys(rows), k)
    case Some(i) => rows[i := (k, rows[i].1 + 1)]
    case None => rows + [(k, 1)]
  }

  /** The occurrences of each key, keys in order of first occurrence. */
  function Tally<K(==)>(ks: seq<K>): seq<(K, nat)>
  {
    if ks == [] then [] else Bump(Tally(ks[..|ks| - 1]), ks[|ks| - 1])
  }

  function SumCounts<K>(rows: seq<(K, nat)>): nat
  {
    if rows == [] then 0 else SumCounts(rows[..|rows| - 1]) + rows[|rows| - 1].1
  }

  lemma {:induction false} SumCountsUpdate<K>(rows: seq<(K, nat)>, i: nat, row: (K, nat))
    requires i < |rows|
    ensures SumCounts(rows[i := row]) == SumCounts(rows) - rows[i].1 + row.1
  {
    var p := rows[..|rows| - 1];
    if i < |rows| - 1 {
      assert rows[i := row][..|rows| - 1] == p[i := row];
      SumCountsUpdate(p, i, row);
    } else {
      assert rows[i := row][..|rows| - 1] == p;
    }
  }

  /** The tally's keys are the distinct keys of the input, in order of first occurrence. */
  lemma {:induction false} TallyKeys<K>(ks: seq<K>)
    ensures forall k :: k in Keys(Tally(ks)) <==> k in ks
    ensures forall i, j :: 0 <= i < j < |Tally(ks)| ==> Tally(ks)[i].0 != Tally(ks)[j].0
  {
    if ks != [] {
      var p, k := ks[..|ks| - 1], ks[|ks| - 1];
      TallyKeys(p);
      BumpKeys(Tally(p), k);
      assert ks == p + [k];
    }
  }

  /** Bumping a table with distinct keys adds k to its keys and keeps them distinct. */
  lemma BumpKeys<K>(t: seq<(K, nat)>, k: K)
    requires forall i, j :: 0 <= i < j < |t| ==> t[i].0 != t[j].0
    ensures var r := Bump(t, k);
      (forall x :: x in Keys(r) <==> x in Keys(t) || x == k)
      && forall i, j :: 0 <= i < j < |r| ==> r[i].0 != r[j].0
  {
    var r := Bump(t, k);
    assert forall i :: 0 <= i < |r| ==> r[i].0 == Keys(r)[i];
    assert forall i :: 0 <= i < |t| ==> t[i].0 == Keys(t)[i];
  }

  /** The counts add up to the number of keys counted. */
  lemma {:induction false} TallyTotal<K>(ks: seq<K>)
    ensures SumCounts(Tally(ks)) == |ks|
  {
    if ks != [] {
      var p := ks[..|ks| - 1];
      TallyTotal(p);
      BumpTotal(Tally(p), ks[|ks| - 1]);
    }
  }

  /** A bump adds one to the total. */
  lemma {:induction false} BumpTotal<K>(rows: seq<(K, nat)>, k: K)
    ensures SumCounts(Bump(rows, k)) == SumCounts(rows) + 1
  {
    var ks := Keys(rows);
    match Find(ks, k)
    case Some(i) =>
      assert i < |ks| == |rows|;
      var row := (k, rows[i].1 + 1);
      assert Bump(rows, k) == rows[i := row];
      SumCountsUpdate(rows, i, row);
    case None =>
      assert Bump(rows, k) == rows + [(k, 1)];
      SumCountsSnoc(rows, (k, 1));
  }

  lemma SumCountsSnoc<K>(rows: seq<(K, nat)>, row: (K, nat))
    ensures SumCounts(rows + [row]) == SumCounts(rows) + row.1
  {
    var r := rows + [row];
    assert r[..|r| - 1] == rows;
  }

  /** Each row counts the occurrences of its key. */
  lemma {:induction false} TallyCounts<K>(ks: seq<K>)
    ensures forall i :: 0 <= i < |Tally(ks)| ==> Tally(ks)[i].1 == multiset(ks)[Tally(ks)[i].0]
  {
    if ks != [] {
      var p := ks[..|ks| - 1];
      var k := ks[|ks| - 1];
      TallyCounts(p);
      TallyKeys(p);
      assert ks == p + [k];
      assert multiset(ks) == multiset(p) + multiset{k};
      BumpCounts(Tally(p), k, multiset(p));
    }
  }

  /** In any reordering of a tally, each row holds a key of the list and the number of
      times it occurs there, and each key of the list has a row. */
  lemma ReorderedTally<K>(ks: seq<K>, r: seq<(K, nat)>)
    requires multiset(r) == multiset(Tally(ks))
    ensures forall row :: row in r ==> row.0 in ks && row.1 == multiset(ks)[row.0]
    ensures forall k :: k in ks ==> exists n :: (k, n) in r
  {
    var t := Tally(ks);
    TallyKeys(ks);
    TallyCounts(ks);
    forall row | row in r ensures row.0 in ks && row.1 == multiset(ks)[row.0] {
      assert row in multiset(t);
      var i :| 0 <= i < |t| && t[i] == row;
      assert Keys(t)[i] == row.0;
    }
    forall k | k in ks ensures exists n :: (k, n) in r {
      var i :| 0 <= i < |t| && Keys(t)[i] == k;
      assert t[i] in multiset(r);
      assert (k, t[i].1) in r;
    }
  }

  /** Bumping a table of counts of `m`, with distinct keys, gives the counts of `m` and one
      more `k`. */
  lemma BumpCounts<K>(t: seq<(K, nat)>, k: K, m: multiset<K>)
    requires forall i :: 0 <= i < |t| ==> t[i].1 == m[t[i].0]
    requires forall i, j :: 0 <= i < j < |t| ==> t[i].0 != t[j].0
    requires k !in Keys(t) ==> m[k] == 0
    ensures var r := Bump(t, k); forall i :: 0 <= i < |r| ==> r[i].1 == (m + multiset{k})[r[i].0]
  {
    var r := Bump(t, k);
    var kt := Keys(t);
    match Find(kt, k)
    case Some(i) =>
      assert r == t[i := (k, t[i].1 + 1)];
      forall j | 0 <= j < |r| ensures r[j].1 == (m + multiset{k})[r[j].0] {
        if j != i {
          assert kt[j] == t[j].0;
          assert r[j] == t[j];
        }
      }
    case None =>
      assert r == t + [(k, 1)];
      forall j | 0 <= j < |r| ensures r[j].1 == (m + multiset{k})[r[j].0] {
        if j < |t| {
          assert kt[j] == t[j].0;
          assert r[j] == t[j];
        }
      }
  }
}
