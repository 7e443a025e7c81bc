// Stable sorting as `Array.prototype.sort` does it with a numeric comparator
// (`(a, b) => key(a) - key(b)`), on values and in place.

module Sorting {

  predicate SortedBy<T>(s: seq<T>, key: T -> int)
  {
    forall i, j :: 0 <= i < j < |s| ==> key(s[i]) <= key(s[j])
  }

  /** Insert x before the first element whose key is not smaller. */
  function InsertBy<T>(x: T, s: seq<T>, key: T -> int): (r: seq<T>)
    requires SortedBy(s, key)
    ensures SortedBy(r, key)
    ensures multiset(r) == multiset(s) + multiset{x}
  {
    if s == [] || key(x) <= key(s[0]) then [x] + s
    else
      var t := InsertBy(x, s[1..], key);
      InsertBehind(x, s, t, key);
      [s[0]] + t
  }

  /** Putting the head back in front of x inserted into the tail keeps the order and
      the elements. */
  lemma InsertBehind<T>(x: T, s: seq<T>, t: seq<T>, key: T -> int)
    requires s != [] && SortedBy(s, key) && key(s[0]) < key(x)
    requires SortedBy(t, key) && multiset(t) == multiset(s[1..]) + multiset{x}
    ensures SortedBy([s[0]] + t, key)
    ensures multiset([s[0]] + t) == multiset(s) + multiset{x}
  {
    assert s == [s[0]] + s[1..];
    KeysAtLeast(t, s[1..], x, key, key(s[0]));
  }

  /** Every key of a sequence holding `s` and `x` is at least `lo` when theirs are. */
  lemma KeysAtLeast<T>(t: seq<T>, s: seq<T>, x: T, key: T -> int, lo: int)
    requires multiset(t) == multiset(s) + multiset{x}
    requires lo <= key(x) && forall k :: 0 <= k < |s| ==> lo <= key(s[k])
    ensures forall k :: 0 <= k < |t| ==> lo <= key(t[k])
  {
    forall k | 0 <= k < |t| ensures lo <= key(t[k]) {
      assert t[k] in multiset(t);
      assert t[k] in multiset(s) || t[k] == x;
      if t[k] != x {
        var i :| 0 <= i < |s| && s[i] == t[k];
      }
    }
  }

  /** Insertion sort: the result is ordered by key and holds the same elements. */
  function SortBy<T>(s: seq<T>, key: T -> int): (r: seq<T>)
    ensures SortedBy(r, key)
    ensures multiset(r) == multiset(s) && |r| == |s|
  {
    if s == [] then []
    else
      assert s == [s[0]] + s[1..];
      InsertBy(s[0], SortBy(s[1..], key), key)
  }

  /** The first element of the sorted sequence is the first element of smallest key: a
      stable sort keeps the earliest of equal keys in front. */
  lemma {:induction false} SortByHeadIsFirstMin<T>(s: seq<T>, key: T -> int)
    requires s != []
    ensures exists i :: 0 <= i < |s| && s[i] == SortBy(s, key)[0] && IsFirstMin(s, key, i)
  {
    var t := s[1..];
    if t == [] {
      assert IsFirstMin(s, key, 0);
    } else {
      SortByHeadIsFirstMin(t, key);
      var i :| 0 <= i < |t| && t[i] == SortBy(t, key)[0] && IsFirstMin(t, key, i);
      var sorted := SortBy(t, key);
      assert SortBy(s, key) == InsertBy(s[0], sorted, key);
      InsertByHead(s[0], sorted, key);
      if key(s[0]) <= key(sorted[0]) {
        FirstMinFront(s, key, i);
      } else {
        FirstMinLater(s, key, i);
      }
    }
  }

  lemma FirstMinFront<T>(s: seq<T>, key: T -> int, i: int)
    requires 0 <= i < |s| - 1 && IsFirstMin(s[1..], key, i) && key(s[0]) <= key(s[1..][i])
    ensures IsFirstMin(s, key, 0)
  {
    forall j | 0 <= j < |s| ensures key(s[0]) <= key(s[j]) {
      if j > 0 {
        assert s[j] == s[1..][j - 1];
      }
    }
  }

  lemma FirstMinLater<T>(s: seq<T>, key: T -> int, i: int)
    requires 0 <= i < |s| - 1 && IsFirstMin(s[1..], key, i) && key(s[0]) > key(s[1..][i])
    ensures IsFirstMin(s, key, i + 1)
  {
    forall j | 0 <= j < |s| ensures key(s[i + 1]) <= key(s[j]) && (j < i + 1 ==> key(s[j]) > key(s[i + 1])) {
      if j > 0 {
        assert s[j] == s[1..][j - 1];
      }
    }
  }

  lemma InsertByHead<T>(x: T, s: seq<T>, key: T -> int)
    requires SortedBy(s, key)
    ensures InsertBy(x, s, key)[0] == if s == [] || key(x) <= key(s[0]) then x else s[0]
  {
  }

  /** s[i] has the smallest key, and every element before it a larger one. */
  predicate IsFirstMin<T>(s: seq<T>, key: T -> int, i: int)
    requires 0 <= i < |s|
  {
    (forall j :: 0 <= j < |s| ==> key(s[i]) <= key(s[j])) && forall j :: 0 <= j < i ==> key(s[j]) > key(s[i])
  }

  // ---- integers ------------------------------------------------------------

  predicate Sorted(s: seq<int>)
  {
    forall i, j :: 0 <= i < j < |s| ==> s[i] <= s[j]
  }

  /** `[...s].sort((a, b) => a - b)`. */
  function SortInts(s: seq<int>): (r: seq<int>)
    ensures Sorted(r) && multiset(r) == multiset(s)
  {
    var r := SortBy(s, (x: int) => x);
    assert SortedBy(r, (x: int) => x);
    r
  }

  /** The least element of a non-empty sorted sequence comes first. */
  lemma SortedHeadIsMin(s: seq<int>)
    requires Sorted(s) && s != []
    ensures forall x :: x in multiset(s) ==> s[0] <= x
  {
  }

  lemma MultisetTail(s: seq<int>)
    requires s != []
    ensures multiset(s[1..]) == multiset(s) - multiset{s[0]}
  {
    assert s == [s[0]] + s[1..];
    assert multiset(s) == multiset{s[0]} + multiset(s[1..]);
  }

  lemma SortedHeads(a: seq<int>, b: seq<int>)
    requires Sorted(a) && Sorted(b) && multiset(a) == multiset(b) && a != []
    ensures b != [] && a[0] == b[0]
  {
    assert a[0] in multiset(b);
    assert b != [];
    assert b[0] in multiset(a);
    SortedHeadIsMin(a);
    SortedHeadIsMin(b);
  }

  lemma SortedTail(s: seq<int>)
    requires Sorted(s) && s != []
    ensures Sorted(s[1..])
  {
    forall i, j | 0 <= i < j < |s| - 1 ensures s[1..][i] <= s[1..][j] {
      assert s[1..][i] == s[i + 1] && s[1..][j] == s[j + 1];
    }
  }

  /** Two sorted sequences with the same elements are equal: sorting has one answer. */
  lemma {:induction false} SortedUnique(a: seq<int>, b: seq<int>)
    requires Sorted(a) && Sorted(b) && multiset(a) == multiset(b)
    ensures a == b
    decreases |a|
  {
    if a == [] {
      assert |b| == |multiset(b)| == 0;
    } else {
      SortedHeads(a, b);
      MultisetTail(a);
      MultisetTail(b);
      SortedTail(a);
      SortedTail(b);
      SortedUnique(a[1..], b[1..]);
      assert a == [a[0]] + a[1..] && b == [b[0]] + b[1..];
    }
  }

  /** `a.sort((x, y) => x - y)` in place. */
  method SortInPlace(a: array<int>)
    modifies a
    ensures a[..] == SortInts(old(a[..]))
  {
    var i := 0;
    while i < a.Length
      invariant 0 <= i <= a.Length
      invariant Sorted(a[..i])
      invariant multiset(a[..]) == multiset(old(a[..]))
    {
      InsertLast(a, i);
      i := i + 1;
    }
    assert a[..] == a[..a.Length];
    SortedUnique(a[..], SortInts(old(a[..])));
  }

  /** Moves a[i] left into the sorted prefix a[..i]. */
  method InsertLast(a: array<int>, i: int)
    requires 0 <= i < a.Length && Sorted(a[..i])
    modifies a
    ensures Sorted(a[..i + 1])
    ensures multiset(a[..]) == multiset(old(a[..]))
  {
    var j := i;
    InsertStart(a[..], i);
    while j > 0 && a[j - 1] > a[j]
      invariant 0 <= j <= i
      invariant SortedBesides(a[..], j, i) && SmallestFrom(a[..], j, i)
      invariant multiset(a[..]) == multiset(old(a[..]))
    {
      SwapLeft(a[..], j, i);
      a[j - 1], a[j] := a[j], a[j - 1];
      j := j - 1;
    }
    InsertDone(a[..], j, i);
  }

  /** a[..i + 1] is in order once the element at j is left out. */
  predicate SortedBesides(s: seq<int>, j: int, i: int)
    requires 0 <= j <= i < |s|
  {
    forall p, q :: 0 <= p < q <= i && p != j && q != j ==> s[p] <= s[q]
  }

  /** The element at j is at most every element after it up to i. */
  predicate SmallestFrom(s: seq<int>, j: int, i: int)
    requires 0 <= j <= i < |s|
  {
    forall q :: j < q <= i ==> s[j] <= s[q]
  }

  lemma InsertStart(s: seq<int>, i: int)
    requires 0 <= i < |s| && Sorted(s[..i])
    ensures SortedBesides(s, i, i) && SmallestFrom(s, i, i)
  {
    forall p, q | 0 <= p < q <= i && p != i && q != i ensures s[p] <= s[q] {
      assert s[p] == s[..i][p] && s[q] == s[..i][q];
    }
  }

  /** Swapping the moving element with a larger left neighbour keeps both invariants. */
  lemma SwapLeft(s: seq<int>, j: int, i: int)
    requires 0 < j <= i < |s| && s[j - 1] > s[j]
    requires SortedBesides(s, j, i) && SmallestFrom(s, j, i)
    ensures var t := s[j - 1 := s[j]][j := s[j - 1]];
      SortedBesides(t, j - 1, i) && SmallestFrom(t, j - 1, i) && multiset(t) == multiset(s)
  {
    var t := s[j - 1 := s[j]][j := s[j - 1]];
    forall p, q | 0 <= p < q <= i && p != j - 1 && q != j - 1 ensures t[p] <= t[q] {
      if q == j {
        assert t[q] == s[j - 1];
        if p < j - 1 {
          assert s[p] <= s[j - 1];
        }
      } else if p == j {
        assert s[j - 1] <= s[q];
      }
    }
  }

  lemma InsertDone(s: seq<int>, j: int, i: int)
    requires 0 <= j <= i < |s| && (j == 0 || s[j - 1] <= s[j])
    requires SortedBesides(s, j, i) && SmallestFrom(s, j, i)
    ensures Sorted(s[..i + 1])
  {
    forall p, q | 0 <= p < q <= i ensures s[p] <= s[q] {
      if q == j && p < j - 1 {
        assert s[p] <= s[j - 1];
      } else if p != j && q != j {
      }
    }
  }
}
