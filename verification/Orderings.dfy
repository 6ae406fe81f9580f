/**
 Tables are finite sets of rows; an ORDER BY query or a `sorted` call returns some
 sequence that lists the rows in the requested order. Rows that compare equal may
 come out in any order, as SQL and a Python set leave it open.
 */
module Orderings {
  ghost predicate TotalPreorder<T(!new)>(leq: (T, T) -> bool) {
    && (forall x, y :: leq(x, y) || leq(y, x))
    && (forall x, y, z :: leq(x, y) && leq(y, z) ==> leq(x, z))
  }

  /** s lists the elements of items, each exactly once. */
  ghost predicate Lists<T(!new)>(items: set<T>, s: seq<T>) {
    && (forall x :: x in s <==> x in items)
    && (forall i, j :: 0 <= i < j < |s| ==> s[i] != s[j])
  }

  ghost predicate SortedBy<T>(leq: (T, T) -> bool, s: seq<T>) {
    forall i, j :: 0 <= i < j < |s| ==> leq(s[i], s[j])
  }

  ghost predicate OrderedBy<T(!new)>(items: set<T>, leq: (T, T) -> bool, s: seq<T>) {
    Lists(items, s) && SortedBy(leq, s)
  }

  ghost predicate Least<T(!new)>(items: set<T>, leq: (T, T) -> bool, x: T) {
    x in items && forall y :: y in items ==> leq(x, y)
  }

  lemma LeastOfTwo<T(!new)>(items: set<T>, leq: (T, T) -> bool, x: T, m: T)
    requires TotalPreorder(leq)
    requires x in items && Least(items - {x}, leq, m)
    ensures Least(items, leq, if leq(x, m) then x else m)
  {
    var least := if leq(x, m) then x else m;
    forall y | y in items
      ensures leq(least, y)
    {
      if y != x {
        assert leq(m, y);
      }
    }
  }

  lemma {:induction false} LeastExists<T(!new)>(items: set<T>, leq: (T, T) -> bool) returns (least: T)
    requires TotalPreorder(leq) && items != {}
    ensures Least(items, leq, least)
  {
    least :| least in items;
    if items != {least} {
      var x := least;
      var m := LeastExists(items - {x}, leq);
      LeastOfTwo(items, leq, x, m);
      least := if leq(x, m) then x else m;
    }
  }

  /** Every finite set has such a listing. */
  lemma {:induction false} ListingExists<T(!new)>(items: set<T>, leq: (T, T) -> bool) returns (s: seq<T>)
    requires TotalPreorder(leq)
    ensures OrderedBy(items, leq, s)
  {
    if items == {} { return []; }
    var least := LeastExists(items, leq);
    var rest := ListingExists(items - {least}, leq);
    s := [least] + rest;
    forall i, j | 0 <= i < j < |s|
      ensures s[i] != s[j] && leq(s[i], s[j])
    {
      assert s[j] == rest[j - 1] && rest[j - 1] in rest;
      if i > 0 { assert s[i] == rest[i - 1]; }
    }
  }

  /** SELECT ... ORDER BY, or Python's sorted over a set. */
  method Select<T(==, !new)>(items: set<T>, leq: (T, T) -> bool) returns (s: seq<T>)
    requires TotalPreorder(leq)
    ensures OrderedBy(items, leq, s)
  {
    s := [];
    var rest := items;
    while rest != {}
      invariant rest <= items
      invariant Lists(items - rest, s)
      invariant SortedBy(leq, s)
      invariant forall x, y :: x in s && y in rest ==> leq(x, y)
      decreases rest
    {
      ghost var least := LeastExists(rest, leq);
      var x :| x in rest && forall y :: y in rest ==> leq(x, y);
      assert x !in s;
      s, rest := s + [x], rest - {x};
    }
  }

  lemma SubsetSize<T>(a: set<T>, b: set<T>)
    requires a <= b
    ensures |a| <= |b|
  {
    assert b == a + (b - a);
  }

  /** Two listings of one set have the same length. */
  lemma ListsSize<T(!new)>(items: set<T>, s: seq<T>)
    requires Lists(items, s)
    ensures |s| == |items|
  {
    if s != [] {
      var n := |s| - 1;
      assert s == s[..n] + [s[n]];
      assert Lists(items - {s[n]}, s[..n]);
      ListsSize(items - {s[n]}, s[..n]);
    }
  }

  /** When the order separates the rows, the query has one answer only. */
  lemma {:induction false} OrderedByUnique<T(!new)>(items: set<T>, leq: (T, T) -> bool, s: seq<T>, t: seq<T>)
    requires OrderedBy(items, leq, s) && OrderedBy(items, leq, t)
    requires forall x, y :: x in items && y in items && leq(x, y) && leq(y, x) ==> x == y
    ensures s == t
    decreases |s|
  {
    ListsSize(items, s);
    ListsSize(items, t);
    if s != [] {
      assert s[0] in t && t[0] in s;
      var i :| 0 <= i < |t| && t[i] == s[0];
      var j :| 0 <= j < |s| && s[j] == t[0];
      assert s[0] == t[0];
      var rest := items - {s[0]};
      assert OrderedBy(rest, leq, s[1..]);
      assert OrderedBy(rest, leq, t[1..]);
      OrderedByUnique(rest, leq, s[1..], t[1..]);
      assert s == [s[0]] + s[1..] && t == [t[0]] + t[1..];
    }
  }

  // ---------- Text ----------

  /** Lexicographic order by character code. */
  predicate TextLeq(a: string, b: string) {
    a == "" || (b != "" && (a[0] < b[0] || (a[0] == b[0] && TextLeq(a[1..], b[1..]))))
  }

  lemma {:induction false} TextTotal(a: string, b: string)
    ensures TextLeq(a, b) || TextLeq(b, a)
    ensures TextLeq(a, b) && TextLeq(b, a) ==> a == b
  {
    if a != "" && b != "" && a[0] == b[0] {
      TextTotal(a[1..], b[1..]);
      assert a == [a[0]] + a[1..] && b == [b[0]] + b[1..];
    }
  }

  lemma {:induction false} TextTransitive(a: string, b: string, c: string)
    requires TextLeq(a, b) && TextLeq(b, c)
    ensures TextLeq(a, c)
  {
    if a != "" && a[0] == b[0] == c[0] {
      TextTransitive(a[1..], b[1..], c[1..]);
    }
  }
}
