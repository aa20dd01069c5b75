/**
 * Orders used by the store's listings: Python's (and SQLite's BINARY) code-point order
 * on text, SQLite's NOCASE collation, and the `ORDER BY surface_form COLLATE NOCASE,
 * lemma` order on rows; plus sorting a finite set into a sequence under a strict order.
 */
module Ordering {
  import opened Text

  /** Code-point lexicographic order: Python's `<` on `str`, SQLite's BINARY collation. */
  predicate LexLess(a: string, b: string) {
    if a == [] then b != []
    else b != [] && (a[0] < b[0] || (a[0] == b[0] && LexLess(a[1..], b[1..])))
  }

  lemma {:induction false} LexLessIrreflexive(a: string)
    ensures !LexLess(a, a)
  {
    if a != [] {
      LexLessIrreflexive(a[1..]);
    }
  }

  lemma {:induction false} LexLessTransitive(a: string, b: string, c: string)
    requires LexLess(a, b) && LexLess(b, c)
    ensures LexLess(a, c)
  {
    if a != [] && b != [] && c != [] && a[0] == b[0] && b[0] == c[0] {
      LexLessTransitive(a[1..], b[1..], c[1..]);
    }
  }

  lemma {:induction false} LexLessTotal(a: string, b: string)
    requires a != b
    ensures LexLess(a, b) || LexLess(b, a)
  {
    if a != [] && b != [] && a[0] == b[0] {
      assert a == [a[0]] + a[1..] && b == [b[0]] + b[1..];
      LexLessTotal(a[1..], b[1..]);
    }
  }

  /** SQLite's NOCASE collation: fold ASCII upper case to lower case, then compare by code point. */
  predicate NoCaseLess(a: string, b: string) {
    LexLess(AsciiLower(a), AsciiLower(b))
  }

  /** `ORDER BY surface COLLATE NOCASE, lemma` on (surface, lemma) rows. */
  predicate RowBefore(x: (string, string), y: (string, string)) {
    NoCaseLess(x.0, y.0) || (AsciiLower(x.0) == AsciiLower(y.0) && LexLess(x.1, y.1))
  }

  /** Every two elements of `xs` are ordered one way exactly, and the order chains. */
  ghost predicate StrictTotalOn<T>(less: (T, T) -> bool, xs: set<T>) {
    (forall x :: x in xs ==> !less(x, x))
    && (forall x, y :: x in xs && y in xs && x != y ==> less(x, y) || less(y, x))
    && (forall x, y, z :: x in xs && y in xs && z in xs && less(x, y) && less(y, z) ==> less(x, z))
  }

  lemma LexLessStrictTotal(xs: set<string>)
    ensures StrictTotalOn(LexLess, xs)
  {
    forall x | x in xs
      ensures !LexLess(x, x)
    {
      LexLessIrreflexive(x);
    }
    forall x, y | x in xs && y in xs && x != y
      ensures LexLess(x, y) || LexLess(y, x)
    {
      LexLessTotal(x, y);
    }
    forall x, y, z | x in xs && y in xs && z in xs && LexLess(x, y) && LexLess(y, z)
      ensures LexLess(x, z)
    {
      LexLessTransitive(x, y, z);
    }
  }

  /**
   * On rows whose lemmas are pairwise distinct the listing order is a strict total
   * order, so the listing is fully determined.
   */
  lemma RowBeforeStrictTotal(rows: set<(string, string)>)
    requires forall x, y :: x in rows && y in rows && x.1 == y.1 ==> x == y
    ensures StrictTotalOn(RowBefore, rows)
  {
    forall x | x in rows
      ensures !RowBefore(x, x)
    {
      LexLessIrreflexive(AsciiLower(x.0));
      LexLessIrreflexive(x.1);
    }
    forall x, y | x in rows && y in rows && x != y
      ensures RowBefore(x, y) || RowBefore(y, x)
    {
      if AsciiLower(x.0) == AsciiLower(y.0) {
        LexLessTotal(x.1, y.1);
      } else {
        LexLessTotal(AsciiLower(x.0), AsciiLower(y.0));
      }
    }
    forall x, y, z | x in rows && y in rows && z in rows && RowBefore(x, y) && RowBefore(y, z)
      ensures RowBefore(x, z)
    {
      var a, b, c := AsciiLower(x.0), AsciiLower(y.0), AsciiLower(z.0);
      if LexLess(a, b) && LexLess(b, c) {
        LexLessTransitive(a, b, c);
      } else if a == b && b == c {
        LexLessTransitive(x.1, y.1, z.1);
      }
    }
  }

  predicate SortedBy<T>(s: seq<T>, less: (T, T) -> bool) {
    forall i, j :: 0 <= i < j < |s| ==> less(s[i], s[j])
  }

  /** Insert `x` before the first element it precedes. */
  function InsertSorted<T>(x: T, s: seq<T>, less: (T, T) -> bool): seq<T> {
    if s == [] then [x]
    else if less(x, s[0]) then [x] + s
    else [s[0]] + InsertSorted(x, s[1..], less)
  }

  lemma {:induction false} InsertSortedElements<T>(x: T, s: seq<T>, less: (T, T) -> bool)
    ensures var r := InsertSorted(x, s, less);
      |r| == |s| + 1 && (forall y :: y in r <==> y == x || y in s)
  {
    if s != [] && !less(x, s[0]) {
      InsertSortedElements(x, s[1..], less);
      assert s == [s[0]] + s[1..];
    }
  }

  lemma {:induction false} InsertSortedFacts<T>(x: T, s: seq<T>, less: (T, T) -> bool, xs: set<T>)
    requires StrictTotalOn(less, xs)
    requires x in xs && forall y :: y in s ==> y in xs
    requires x !in s
    requires SortedBy(s, less)
    ensures var r := InsertSorted(x, s, less);
      SortedBy(r, less) && |r| == |s| + 1 && (forall y :: y in r <==> y == x || y in s)
  {
    InsertSortedElements(x, s, less);
    var r := InsertSorted(x, s, less);
    if s == [] {
    } else if less(x, s[0]) {
      forall i, j | 0 <= i < j < |r|
        ensures less(r[i], r[j])
      {
        if i == 0 && j > 1 {
          assert r[j] == s[j - 1] && less(s[0], s[j - 1]);
        }
      }
    } else {
      assert s[0] in xs;
      InsertSortedFacts(x, s[1..], less, xs);
      var t := InsertSorted(x, s[1..], less);
      assert r == [s[0]] + t;
      forall y | y in s[1..]
        ensures less(s[0], y)
      {
        var k :| 0 <= k < |s| - 1 && s[1..][k] == y;
        assert s[k + 1] == y;
      }
      InsertSortedAbove(s[0], x, s[1..], less);
      forall i, j | 0 <= i < j < |r|
        ensures less(r[i], r[j])
      {
        if i == 0 {
          assert r[j] == t[j - 1] && t[j - 1] in t;
        } else {
          assert r[i] == t[i - 1] && r[j] == t[j - 1];
        }
      }
    }
  }

  lemma InsertSortedAbove<T>(a: T, x: T, s: seq<T>, less: (T, T) -> bool)
    requires less(a, x) && forall y :: y in s ==> less(a, y)
    ensures forall y :: y in InsertSorted(x, s, less) ==> less(a, y)
  {
    InsertSortedElements(x, s, less);
  }

  /** Two sorted sequences with the same elements are equal: a strict order leaves one arrangement. */
  lemma {:induction false} SortedUnique<T>(a: seq<T>, b: seq<T>, less: (T, T) -> bool, xs: set<T>)
    requires StrictTotalOn(less, xs)
    requires forall y :: y in a ==> y in xs
    requires SortedBy(a, less) && SortedBy(b, less)
    requires forall y :: y in a <==> y in b
    ensures a == b
  {
    assert a != [] ==> a[0] in b;
    assert b != [] ==> b[0] in a;
    if a != [] && b != [] {
      if a[0] != b[0] {
        assert false;
      }
      assert a[0] in xs;
      forall y
        ensures y in a[1..] <==> y in b[1..]
      {
        if y in a[1..] {
          var k :| 1 <= k < |a| && a[k] == y;
          assert less(a[0], y);
          assert y != a[0];
          assert y in a && y in b;
          var m :| 0 <= m < |b| && b[m] == y;
          assert m != 0;
          assert b[1..][m - 1] == y;
        }
        if y in b[1..] {
          var k :| 1 <= k < |b| && b[k] == y;
          assert less(b[0], y);
          assert y != b[0];
          assert y in b && y in a;
          var m :| 0 <= m < |a| && a[m] == y;
          assert m != 0;
          assert a[1..][m - 1] == y;
        }
      }
      SortedUnique(a[1..], b[1..], less, xs);
      assert a == [a[0]] + a[1..] && b == [b[0]] + b[1..];
    }
  }

  /** Lists a finite set in increasing order: the rows an `ORDER BY` query returns. */
  method SortSet<T(==)>(xs: set<T>, less: (T, T) -> bool) returns (s: seq<T>)
    requires StrictTotalOn(less, xs)
    ensures SortedBy(s, less)
    ensures forall y :: y in s <==> y in xs
    ensures |s| == |xs|
  {
    s := [];
    var rest := xs;
    while rest != {}
      invariant rest <= xs
      invariant SortedBy(s, less)
      invariant forall y :: y in s <==> y in xs && y !in rest
      invariant |s| + |rest| == |xs|
      decreases |rest|
    {
      var x :| x in rest;
      InsertSortedFacts(x, s, less, xs);
      s := InsertSorted(x, s, less);
      rest := rest - {x};
    }
  }
}
