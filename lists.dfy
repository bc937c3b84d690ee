/**
 * Keeping the elements of a list that pass a test, in order and with their
 * repeats, as Python's list comprehensions with an `if`, append-loops with a
 * `continue` and pandas' boolean masks all do.
 */
module Lists {

  /** The elements of `s` that satisfy `p`, in their order in `s`, repeats included. */
  function Filter<T>(s: seq<T>, p: T -> bool): (r: seq<T>)
    ensures |r| <= |s|
    ensures forall i :: 0 <= i < |r| ==> p(r[i])
  {
    if s == [] then []
    else Filter(s[..|s| - 1], p) + (if p(s[|s| - 1]) then [s[|s| - 1]] else [])
  }

  /** `[f(x) for x in s]`. */
  function MapEach<T, U>(s: seq<T>, f: T -> U): (r: seq<U>)
    ensures |r| == |s|
    ensures forall i :: 0 <= i < |s| ==> r[i] == f(s[i])
  {
    seq(|s|, i requires 0 <= i < |s| => f(s[i]))
  }

  lemma MapEachAppend<T, U>(a: seq<T>, b: seq<T>, f: T -> U)
    ensures MapEach(a + b, f) == MapEach(a, f) + MapEach(b, f)
  {
    var l, r := MapEach(a + b, f), MapEach(a, f) + MapEach(b, f);
    forall k | 0 <= k < |l| ensures l[k] == r[k] {
      if k < |a| {
        assert (a + b)[k] == a[k];
      } else {
        assert (a + b)[k] == b[k - |a|];
      }
    }
  }

  /** A slice of a suffix is a slice of the whole. */
  lemma SliceOfDrop<T>(s: seq<T>, d: nat, lo: nat, hi: nat)
    requires d <= |s| && lo <= hi <= |s| - d
    ensures s[d..][lo..hi] == s[d + lo..d + hi]
  {
    forall k | 0 <= k < hi - lo ensures s[d..][lo..hi][k] == s[d + lo..d + hi][k] {
      assert s[d..][lo..hi][k] == s[d + lo + k];
    }
  }

  /** One more element of the input adds itself when it passes. */
  lemma FilterStep<T>(s: seq<T>, i: nat, p: T -> bool)
    requires i < |s|
    ensures Filter(s[..i + 1], p) == Filter(s[..i], p) + if p(s[i]) then [s[i]] else []
  {
    assert s[..i + 1][..i] == s[..i];
  }

  /** `a` can be obtained from `b` by deleting elements: order is kept. */
  predicate IsSubsequence<T(==)>(a: seq<T>, b: seq<T>)
    decreases |b|
  {
    if a == [] then true
    else if b == [] then false
    else if a[|a| - 1] == b[|b| - 1] then IsSubsequence(a[..|a| - 1], b[..|b| - 1])
    else IsSubsequence(a, b[..|b| - 1])
  }

  /** How many times `x` occurs in `s`. */
  function Occurrences<T(==)>(s: seq<T>, x: T): nat
  {
    multiset(s)[x]
  }

  /** Filtering splits over concatenation: order is kept across the two halves. */
  lemma {:induction false} FilterAppend<T>(a: seq<T>, b: seq<T>, p: T -> bool)
    ensures Filter(a + b, p) == Filter(a, p) + Filter(b, p)
    decreases |b|
  {
    if b == [] {
      assert a + b == a;
    } else {
      var b' := b[..|b| - 1];
      assert (a + b)[..|a + b| - 1] == a + b';
      FilterAppend(a, b', p);
    }
  }

  /** An element is kept exactly when it occurs in `s` and passes `p`. */
  lemma {:induction false} FilterMembers<T>(s: seq<T>, p: T -> bool)
    ensures forall x :: x in Filter(s, p) <==> x in s && p(x)
    decreases |s|
  {
    if s != [] {
      var s' := s[..|s| - 1];
      FilterMembers(s', p);
      assert s == s' + [s[|s| - 1]];
    }
  }

  /** Every passing element is kept as often as it occurs; every failing one is gone. */
  lemma {:induction false} FilterOccurrences<T>(s: seq<T>, p: T -> bool, x: T)
    ensures Occurrences(Filter(s, p), x) == if p(x) then Occurrences(s, x) else 0
    decreases |s|
  {
    if s != [] {
      var s' := s[..|s| - 1];
      FilterOccurrences(s', p, x);
      assert s == s' + [s[|s| - 1]];
    }
  }

  /** When every element passes, nothing is filtered out. */
  lemma {:induction false} FilterAll<T>(s: seq<T>, p: T -> bool)
    requires forall i :: 0 <= i < |s| ==> p(s[i])
    ensures Filter(s, p) == s
    decreases |s|
  {
    if s != [] {
      FilterAll(s[..|s| - 1], p);
      assert s == s[..|s| - 1] + [s[|s| - 1]];
    }
  }

  /** A list is its first `n` elements followed by the rest. */
  lemma SplitAt<T>(s: seq<T>, n: nat)
    requires n <= |s|
    ensures s[..n] + s[n..] == s
  {
  }

  /** When no element passes, nothing is kept. */
  lemma {:induction false} FilterNone<T>(s: seq<T>, p: T -> bool)
    requires forall i :: 0 <= i < |s| ==> !p(s[i])
    ensures Filter(s, p) == []
    decreases |s|
  {
    if s != [] {
      FilterNone(s[..|s| - 1], p);
    }
  }

  /** A filtered list is a subsequence of its input. */
  lemma {:induction false} FilterIsSubsequence<T>(s: seq<T>, p: T -> bool)
    ensures IsSubsequence(Filter(s, p), s)
    decreases |s|
  {
    if s != [] {
      var s' := s[..|s| - 1];
      FilterIsSubsequence(s', p);
      if !p(s[|s| - 1]) {
        assert Filter(s, p) == Filter(s', p);
        SubsequenceDropLast(Filter(s', p), s');
      }
    }
  }

  /** A subsequence of `b` is also one of `b` with one more element. */
  lemma {:induction false} SubsequenceDropLast<T>(a: seq<T>, b': seq<T>)
    requires IsSubsequence(a, b')
    ensures forall x :: IsSubsequence(a, b' + [x])
    decreases |b'|, 1
  {
    forall x ensures IsSubsequence(a, b' + [x]) {
      var b := b' + [x];
      assert b[..|b| - 1] == b';
      if a != [] && a[|a| - 1] == x {
        SubsequencePrefix(a, b');
      }
    }
  }

  /** Dropping the last element of a subsequence keeps it a subsequence. */
  lemma {:induction false} SubsequencePrefix<T>(a: seq<T>, b: seq<T>)
    requires a != [] && IsSubsequence(a, b)
    ensures IsSubsequence(a[..|a| - 1], b)
    decreases |b|, 0
  {
    var a' := a[..|a| - 1];
    var b' := b[..|b| - 1];
    if a[|a| - 1] == b[|b| - 1] {
      SubsequenceDropLast(a', b');
      assert b == b' + [b[|b| - 1]];
    } else {
      SubsequencePrefix(a, b');
      SubsequenceDropLast(a', b');
      assert b == b' + [b[|b| - 1]];
    }
  }

  /** Subsequences of two lists concatenate to a subsequence of their concatenation. */
  lemma {:induction false} SubsequenceConcat<T>(a1: seq<T>, b1: seq<T>, a2: seq<T>, b2: seq<T>)
    requires IsSubsequence(a1, b1) && IsSubsequence(a2, b2)
    ensures IsSubsequence(a1 + a2, b1 + b2)
    decreases |b2|
  {
    if b2 == [] {
      assert a2 == [];
      assert a1 + a2 == a1 && b1 + b2 == b1;
    } else {
      var b2' := b2[..|b2| - 1];
      assert (b1 + b2)[..|b1 + b2| - 1] == b1 + b2';
      if a2 != [] && a2[|a2| - 1] == b2[|b2| - 1] {
        var a2' := a2[..|a2| - 1];
        SubsequenceConcat(a1, b1, a2', b2');
        assert (a1 + a2)[..|a1 + a2| - 1] == a1 + a2';
      } else {
        SubsequenceConcat(a1, b1, a2, b2');
        SubsequenceDropLast(a1 + a2, b1 + b2');
        assert b1 + b2 == b1 + b2' + [b2[|b2| - 1]];
      }
    }
  }

  /** Two equal elements at different positions occur at least twice. */
  lemma TwoPositions<T>(s: seq<T>, i: nat, j: nat)
    requires i < j < |s| && s[i] == s[j]
    ensures Occurrences(s, s[i]) >= 2
  {
    assert s == s[..i] + [s[i]] + s[i + 1..j] + [s[j]] + s[j + 1..];
  }

  /** An element occurring at least twice sits at two different positions. */
  lemma {:induction false} RepeatedElement<T>(s: seq<T>, x: T)
    requires Occurrences(s, x) >= 2
    ensures exists i, j :: 0 <= i < j < |s| && s[i] == x && s[j] == x
    decreases |s|
  {
    var init := s[..|s| - 1];
    assert s == init + [s[|s| - 1]];
    if s[|s| - 1] == x {
      assert x in multiset(init);
      var i :| 0 <= i < |init| && init[i] == x;
      assert s[i] == x;
    } else {
      RepeatedElement(init, x);
      var i, j :| 0 <= i < j < |init| && init[i] == x && init[j] == x;
      assert s[i] == x && s[j] == x;
    }
  }
}
