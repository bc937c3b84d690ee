/**
 * The column statistics the screens use (pandas' `sum`, `mean`, `min`, the
 * squared deviations behind `std`), on exact reals.
 */
module Stats {
  import opened Wrappers

  function Sum(s: seq<real>): real
  {
    if s == [] then 0.0 else Sum(s[..|s| - 1]) + s[|s| - 1]
  }

  /** A non-empty sum of positive terms is positive. */
  lemma {:induction false} SumPositive(s: seq<real>)
    requires |s| > 0 && forall i :: 0 <= i < |s| ==> s[i] > 0.0
    ensures Sum(s) > 0.0
  {
    if |s| > 1 {
      SumPositive(s[..|s| - 1]);
    }
  }

  /** A sum of `|s|` terms each at least `lo` is at least `|s|·lo`. */
  lemma {:induction false} SumAtLeast(s: seq<real>, lo: real)
    requires forall i :: 0 <= i < |s| ==> lo <= s[i]
    ensures |s| as real * lo <= Sum(s)
  {
    if s != [] {
      var init := s[..|s| - 1];
      assert forall i :: 0 <= i < |init| ==> lo <= init[i] by {
        forall i | 0 <= i < |init| ensures lo <= init[i] { assert init[i] == s[i]; }
      }
      SumAtLeast(init, lo);
      Distribute(|init| as real, lo);
    }
  }

  /** A sum of `|s|` terms each at most `hi` is at most `|s|·hi`. */
  lemma {:induction false} SumAtMost(s: seq<real>, hi: real)
    requires forall i :: 0 <= i < |s| ==> s[i] <= hi
    ensures Sum(s) <= |s| as real * hi
  {
    if s != [] {
      var init := s[..|s| - 1];
      assert forall i :: 0 <= i < |init| ==> init[i] <= hi by {
        forall i | 0 <= i < |init| ensures init[i] <= hi { assert init[i] == s[i]; }
      }
      SumAtMost(init, hi);
      Distribute(|init| as real, hi);
    }
  }

  lemma Distribute(n: real, x: real)
    ensures (n + 1.0) * x == n * x + x
  {
  }

  lemma SumBounds(s: seq<real>, lo: real, hi: real)
    requires forall i :: 0 <= i < |s| ==> lo <= s[i] <= hi
    ensures |s| as real * lo <= Sum(s) <= |s| as real * hi
  {
    SumAtLeast(s, lo);
    SumAtMost(s, hi);
  }

  /** Every term equal to `c`: the sum is `|s|·c`. */
  lemma SumConstant(s: seq<real>, c: real)
    requires forall i :: 0 <= i < |s| ==> s[i] == c
    ensures Sum(s) == |s| as real * c
  {
    SumBounds(s, c, c);
  }

  /** Sums split at any point. */
  lemma {:induction false} SumAppend(a: seq<real>, b: seq<real>)
    ensures Sum(a + b) == Sum(a) + Sum(b)
    decreases |b|
  {
    if b != [] {
      var b' := b[..|b| - 1];
      assert (a + b)[..|a + b| - 1] == a + b';
      SumAppend(a, b');
    } else {
      assert a + b == a;
    }
  }

  /** pandas' `mean()` of a non-empty column without missing values. */
  function Mean(s: seq<real>): real
    requires |s| > 0
  {
    Sum(s) / |s| as real
  }

  /** The mean of positive terms is positive. */
  lemma MeanPositive(s: seq<real>)
    requires |s| > 0 && forall i :: 0 <= i < |s| ==> s[i] > 0.0
    ensures Mean(s) > 0.0
  {
    SumPositive(s);
  }

  lemma QuotientBounds(a: real, n: real, lo: real, hi: real)
    requires n > 0.0 && n * lo <= a <= n * hi
    ensures lo <= a / n <= hi
  {
  }

  /** A mean lies between any lower and upper bound of its terms. */
  lemma MeanBounds(s: seq<real>, lo: real, hi: real)
    requires |s| > 0
    requires forall i :: 0 <= i < |s| ==> lo <= s[i] <= hi
    ensures lo <= Mean(s) <= hi
  {
    SumBounds(s, lo, hi);
    QuotientBounds(Sum(s), |s| as real, lo, hi);
  }

  /** pandas' `min()` of a non-empty column. */
  function Min(s: seq<real>): (m: real)
    requires |s| > 0
    ensures m in s
    ensures forall i :: 0 <= i < |s| ==> m <= s[i]
  {
    if |s| == 1 then s[0]
    else
      var rest := Min(s[..|s| - 1]);
      if s[|s| - 1] < rest then s[|s| - 1] else rest
  }

  function Abs(x: real): (r: real)
    ensures r >= 0.0 && (r == x || r == -x)
  {
    if x < 0.0 then -x else x
  }

  function Max(a: real, b: real): (r: real)
    ensures r >= a && r >= b && (r == a || r == b)
  {
    if a < b then b else a
  }

  function MinOf(a: real, b: real): (r: real)
    ensures r <= a && r <= b && (r == a || r == b)
  {
    if b < a then b else a
  }

  /** The sum of squared deviations from `m`: the numerator of the sample variance. */
  function SquaredDeviations(s: seq<real>, m: real): (r: real)
    ensures r >= 0.0
  {
    if s == [] then 0.0
    else
      var d := s[|s| - 1] - m;
      assert d * d >= 0.0;
      SquaredDeviations(s[..|s| - 1], m) + d * d
  }

  /** A column whose entries all equal `m` has no deviation from `m`. */
  lemma {:induction false} NoDeviation(s: seq<real>, m: real)
    requires forall i :: 0 <= i < |s| ==> s[i] == m
    ensures SquaredDeviations(s, m) == 0.0
  {
    if s != [] {
      NoDeviation(s[..|s| - 1], m);
    }
  }

  // ----- Missing values -------------------------------------------------------

  /** The present entries of a column in which `None` stands for NaN. */
  function Present(s: seq<Option<real>>): (r: seq<real>)
    ensures |r| <= |s|
    ensures forall x :: x in r <==> Some(x) in s
  {
    if s == [] then []
    else
      var init := Present(s[..|s| - 1]);
      assert s == s[..|s| - 1] + [s[|s| - 1]];
      match s[|s| - 1]
      case Some(x) => init + [x]
      case None => init
  }

  /** pandas' `mean()`, which skips NaN; `None` when nothing is present (NaN). */
  function NanMean(s: seq<Option<real>>): (r: Option<real>)
    ensures r.None? <==> forall i :: 0 <= i < |s| ==> s[i].None?
  {
    var p := Present(s);
    if p == [] then None
    else
      assert p[0] in p;
      Some(Mean(p))
  }

  /** A NaN-skipping mean lies within the bounds of the present values. */
  lemma NanMeanBounds(s: seq<Option<real>>, lo: real, hi: real)
    requires forall i :: 0 <= i < |s| && s[i].Some? ==> lo <= s[i].value <= hi
    ensures NanMean(s).Some? ==> lo <= NanMean(s).value <= hi
  {
    var p := Present(s);
    if p != [] {
      forall i | 0 <= i < |p| ensures lo <= p[i] <= hi {
        assert p[i] in p;
        var j :| 0 <= j < |s| && s[j] == Some(p[i]);
      }
      MeanBounds(p, lo, hi);
    }
  }

  /** With no NaN in the column the NaN-skipping mean is the plain mean. */
  lemma {:induction false} PresentAll(s: seq<real>)
    ensures Present(seq(|s|, i requires 0 <= i < |s| => Some(s[i]))) == s
  {
    if s != [] {
      var w := seq(|s|, i requires 0 <= i < |s| => Some(s[i]));
      var init := s[..|s| - 1];
      assert w[..|w| - 1] == seq(|init|, i requires 0 <= i < |init| => Some(init[i]));
      PresentAll(init);
      assert s == init + [s[|s| - 1]];
    }
  }
}
