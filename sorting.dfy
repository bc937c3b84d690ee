/**
 * Stable sorting by a string key, as Python's `sorted(..., key=k, reverse=...)`
 * and pandas' `sort_values` use it, and `sorted(set(...))` for strings.
 */
module Sorting {
  import opened Strings

  /** `a` may stand before `b` in an ascending (or, with `desc`, descending) order. */
  predicate InOrder(a: string, b: string, desc: bool)
  {
    if desc then LexLe(b, a) else LexLe(a, b)
  }

  predicate SortedBy<T>(s: seq<T>, key: T -> string, desc: bool)
  {
    forall i, j :: 0 <= i < j < |s| ==> InOrder(key(s[i]), key(s[j]), desc)
  }

  /** `x` goes strictly before `y`: their keys differ in the sort direction. */
  predicate Before(x: string, y: string, desc: bool)
  {
    if desc then LexLess(y, x) else LexLess(x, y)
  }

  lemma BeforeInOrder(x: string, y: string, desc: bool)
    ensures Before(x, y, desc) ==> InOrder(x, y, desc)
    ensures !Before(x, y, desc) ==> InOrder(y, x, desc)
  {
    if !Before(x, y, desc) {
      if desc { NotLexLess(y, x); } else { NotLexLess(x, y); }
    }
  }

  lemma InOrderTransitive(a: string, b: string, c: string, desc: bool)
    requires InOrder(a, b, desc) && InOrder(b, c, desc)
    ensures InOrder(a, c, desc)
  {
    if desc { LexLeTransitive(c, b, a); } else { LexLeTransitive(a, b, c); }
  }

  /**
   * Inserts `x` into a sorted `s` after every element whose key is not
   * strictly after `x`'s, so equal keys keep their arrival order.
   */
  function Insert<T>(x: T, s: seq<T>, key: T -> string, desc: bool): (r: seq<T>)
    requires SortedBy(s, key, desc)
    ensures SortedBy(r, key, desc)
    ensures multiset(r) == multiset(s) + multiset{x}
    ensures |r| == |s| + 1
  {
    if s == [] then [x]
    else if Before(key(x), key(s[0]), desc) then
      InsertFront(x, s, key, desc);
      [x] + s
    else
      var rest := Insert(x, s[1..], key, desc);
      InsertBehind(x, s, rest, key, desc);
      assert s == [s[0]] + s[1..];
      [s[0]] + rest
  }

  lemma InsertFront<T>(x: T, s: seq<T>, key: T -> string, desc: bool)
    requires s != [] && SortedBy(s, key, desc)
    requires Before(key(x), key(s[0]), desc)
    ensures SortedBy([x] + s, key, desc)
  {
    BeforeInOrder(key(x), key(s[0]), desc);
    var r := [x] + s;
    forall i, j | 0 <= i < j < |r| ensures InOrder(key(r[i]), key(r[j]), desc) {
      if i == 0 && j > 1 {
        InOrderTransitive(key(x), key(s[0]), key(s[j - 1]), desc);
      }
    }
  }

  lemma InsertBehind<T>(x: T, s: seq<T>, rest: seq<T>, key: T -> string, desc: bool)
    requires s != [] && SortedBy(s, key, desc)
    requires !Before(key(x), key(s[0]), desc)
    requires SortedBy(rest, key, desc)
    requires multiset(rest) == multiset(s[1..]) + multiset{x}
    ensures SortedBy([s[0]] + rest, key, desc)
  {
    BeforeInOrder(key(x), key(s[0]), desc);
    var r := [s[0]] + rest;
    forall j | 0 <= j < |rest| ensures InOrder(key(s[0]), key(rest[j]), desc) {
      assert rest[j] in multiset(rest);
      if rest[j] != x {
        assert rest[j] in multiset(s[1..]);
        var k :| 0 <= k < |s[1..]| && s[1..][k] == rest[j];
        assert s[k + 1] == rest[j];
      }
    }
    forall i, j | 0 <= i < j < |r| ensures InOrder(key(r[i]), key(r[j]), desc) {
      if i > 0 {
        assert r[i] == rest[i - 1] && r[j] == rest[j - 1];
      }
    }
  }

  /** Stable insertion sort by `key`; `desc` is Python's `reverse=True`. */
  function SortBy<T>(s: seq<T>, key: T -> string, desc: bool): (r: seq<T>)
    ensures SortedBy(r, key, desc)
    ensures multiset(r) == multiset(s)
    ensures |r| == |s|
  {
    if s == [] then []
    else
      assert s == s[..|s| - 1] + [s[|s| - 1]];
      Insert(s[|s| - 1], SortBy(s[..|s| - 1], key, desc), key, desc)
  }

  // ----- sorted(set(...)) on strings ----------------------------------------

  predicate StrictlyAscending(s: seq<string>)
  {
    forall i, j :: 0 <= i < j < |s| ==> LexLess(s[i], s[j])
  }

  /** Adds `x` to a strictly ascending list unless it is already there. */
  function InsertUnique(x: string, s: seq<string>): (r: seq<string>)
    requires StrictlyAscending(s)
    ensures StrictlyAscending(r)
    ensures forall y :: y in r <==> y == x || y in s
  {
    if s == [] then [x]
    else if x == s[0] then s
    else if LexLess(x, s[0]) then
      assert forall j :: 0 < j < |s| ==> LexLess(x, s[j]) by {
        forall j | 0 < j < |s| ensures LexLess(x, s[j]) {
          LexLessTransitive(x, s[0], s[j]);
        }
      }
      [x] + s
    else
      var rest := InsertUnique(x, s[1..]);
      NotLexLess(x, s[0]);
      assert forall y :: y in rest ==> LexLess(s[0], y);
      assert s == [s[0]] + s[1..];
      [s[0]] + rest
  }

  /** Python's `sorted(set(s))` on strings: ascending, without repeats. */
  function SortedUnique(s: seq<string>): (r: seq<string>)
    ensures StrictlyAscending(r)
    ensures forall y :: y in r <==> y in s
    ensures |r| <= |s|
  {
    if s == [] then []
    else
      var r := InsertUnique(s[|s| - 1], SortedUnique(s[..|s| - 1]));
      assert s == s[..|s| - 1] + [s[|s| - 1]];
      DistinctBound(r, s);
      r
  }

  /** A list without repeats is no longer than a list holding all its elements. */
  lemma {:induction false} DistinctBound(r: seq<string>, s: seq<string>)
    requires StrictlyAscending(r)
    requires forall y :: y in r ==> y in s
    ensures |r| <= |s|
    decreases |r|
  {
    if r != [] {
      var x := r[0];
      assert x in r;
      var k :| 0 <= k < |s| && s[k] == x;
      var s' := s[..k] + s[k + 1..];
      forall y | y in r[1..] ensures y in s' {
        var j :| 0 <= j < |r[1..]| && r[1..][j] == y;
        assert LexLess(x, r[j + 1]);
        assert y != x by {
          if y == x { LexLessIrreflexive(x); }
        }
        assert y in r;
        var m :| 0 <= m < |s| && s[m] == y;
        if m < k { assert s'[m] == y; } else { assert s'[m - 1] == y; }
      }
      DistinctBound(r[1..], s');
    }
  }
}
