/**
 * The handful of Python `str` operations the system relies on: ordering by
 * code point, `strip()`, `split(",")` and the substring test `p in s`.
 */
module Strings {
  import opened Lists

  // ----- Ordering -----------------------------------------------------------

  /** Python's `a < b` on `str`: lexicographic comparison by code point. */
  predicate LexLess(a: string, b: string)
    decreases |a|
  {
    if |a| == 0 then |b| > 0
    else if |b| == 0 then false
    else if a[0] != b[0] then a[0] < b[0]
    else LexLess(a[1..], b[1..])
  }

  /** Python's `a <= b` on `str`. */
  predicate LexLe(a: string, b: string)
  {
    a == b || LexLess(a, b)
  }

  lemma {:induction false} LexLessIrreflexive(a: string)
    ensures !LexLess(a, a)
    decreases |a|
  {
    if |a| > 0 {
      LexLessIrreflexive(a[1..]);
    }
  }

  lemma {:induction false} LexLessTransitive(a: string, b: string, c: string)
    requires LexLess(a, b) && LexLess(b, c)
    ensures LexLess(a, c)
    decreases |a|
  {
    if |a| > 0 && |b| > 0 && |c| > 0 && a[0] == b[0] && b[0] == c[0] {
      LexLessTransitive(a[1..], b[1..], c[1..]);
    }
  }

  lemma {:induction false} LexLessTotal(a: string, b: string)
    requires a != b
    ensures LexLess(a, b) || LexLess(b, a)
    decreases |a|
  {
    if |a| > 0 && |b| > 0 && a[0] == b[0] {
      assert a == [a[0]] + a[1..] && b == [b[0]] + b[1..];
      LexLessTotal(a[1..], b[1..]);
    }
  }

  lemma LexLessAsymmetric(a: string, b: string)
    requires LexLess(a, b)
    ensures !LexLess(b, a)
  {
    if LexLess(b, a) {
      LexLessTransitive(a, b, a);
      LexLessIrreflexive(a);
    }
  }

  /** `<=` on strings is a total order. */
  lemma LexLeTotal(a: string, b: string)
    ensures LexLe(a, b) || LexLe(b, a)
  {
    if a != b {
      LexLessTotal(a, b);
    }
  }

  lemma LexLeTransitive(a: string, b: string, c: string)
    requires LexLe(a, b) && LexLe(b, c)
    ensures LexLe(a, c)
  {
    if a != b && b != c {
      LexLessTransitive(a, b, c);
    }
  }

  lemma LexLeAntisymmetric(a: string, b: string)
    requires LexLe(a, b) && LexLe(b, a)
    ensures a == b
  {
    if a != b {
      LexLessAsymmetric(a, b);
    }
  }

  /** `!(a < b)` is `b <= a`. */
  lemma NotLexLess(a: string, b: string)
    requires !LexLess(a, b)
    ensures LexLe(b, a)
  {
    if a != b {
      LexLessTotal(a, b);
    }
  }

  // ----- Whitespace and strip() ---------------------------------------------

  /** The characters Python's `str.isspace()` accepts. */
  predicate IsSpace(c: char)
  {
    || c == ' '
    || ('\t' <= c <= '\r')
    || ('\U{1C}' <= c <= '\U{1F}')
    || c == '\U{85}' || c == '\U{A0}' || c == '\U{1680}'
    || ('\U{2000}' <= c <= '\U{200A}')
    || c == '\U{2028}' || c == '\U{2029}' || c == '\U{202F}' || c == '\U{205F}' || c == '\U{3000}'
  }

  predicate AllSpace(s: string)
  {
    forall i :: 0 <= i < |s| ==> IsSpace(s[i])
  }

  /** How many whitespace characters `str.lstrip()` removes from `s`. */
  function LeadingSpaces(s: string): (k: nat)
    ensures k <= |s| && AllSpace(s[..k])
    ensures k < |s| ==> !IsSpace(s[k])
    decreases |s|
  {
    if |s| > 0 && IsSpace(s[0]) then LeadingSpaces(s[1..]) + 1 else 0
  }

  /** How many whitespace characters `str.rstrip()` removes from `s`. */
  function TrailingSpaces(s: string): (k: nat)
    ensures k <= |s| && AllSpace(s[|s| - k..])
    ensures k < |s| ==> !IsSpace(s[|s| - k - 1])
    decreases |s|
  {
    if |s| > 0 && IsSpace(s[|s| - 1]) then
      var k := TrailingSpaces(s[..|s| - 1]);
      TrailingStep(s, k);
      k + 1
    else 0
  }

  /** One more trailing whitespace character extends the all-whitespace suffix. */
  lemma TrailingStep(s: string, k: nat)
    requires |s| > 0 && IsSpace(s[|s| - 1]) && k <= |s| - 1
    requires AllSpace(s[..|s| - 1][|s| - 1 - k..])
    requires k < |s| - 1 ==> !IsSpace(s[..|s| - 1][|s| - 1 - k - 1])
    ensures AllSpace(s[|s| - (k + 1)..])
    ensures k + 1 < |s| ==> !IsSpace(s[|s| - k - 2])
  {
    var u := s[|s| - (k + 1)..];
    var v := s[..|s| - 1][|s| - 1 - k..];
    forall m | 0 <= m < |u| ensures IsSpace(u[m]) {
      if m < k {
        assert u[m] == v[m];
      }
    }
    if k + 1 < |s| {
      assert s[..|s| - 1][|s| - 1 - k - 1] == s[|s| - k - 2];
    }
  }

  /** Python's `str.strip()`: what remains after whitespace is cut from both ends. */
  function Strip(s: string): (r: string)
    ensures |r| <= |s|
    ensures r == [] || (!IsSpace(r[0]) && !IsSpace(r[|r| - 1]))
    ensures
      var i := LeadingSpaces(s);
      0 <= i <= |s| - |r| && r == s[i..i + |r|] && AllSpace(s[..i]) && AllSpace(s[i + |r|..])
  {
    var i := LeadingSpaces(s);
    var t := s[i..];
    var j := TrailingSpaces(t);
    StripEnds(s, i, t, j);
    StripSlice(s, i, t, j);
    t[..|t| - j]
  }

  /** Neither end of the stripped string is whitespace. */
  lemma StripEnds(s: string, i: nat, t: string, j: nat)
    requires i == LeadingSpaces(s) && t == s[i..] && j == TrailingSpaces(t)
    ensures var r := t[..|t| - j]; r == [] || (!IsSpace(r[0]) && !IsSpace(r[|r| - 1]))
  {
    var r := t[..|t| - j];
    if r != [] {
      assert r[0] == s[i];
      assert r[|r| - 1] == t[|t| - j - 1];
    }
  }

  /** The stripped string is the slice of `s` between its leading and trailing whitespace. */
  lemma StripSlice(s: string, i: nat, t: string, j: nat)
    requires i == LeadingSpaces(s) && t == s[i..] && j == TrailingSpaces(t)
    ensures var r := t[..|t| - j];
      0 <= i <= |s| - |r| && r == s[i..i + |r|] && AllSpace(s[..i]) && AllSpace(s[i + |r|..])
  {
    var n := |t| - j;
    assert t[..n] == s[i..i + n];
    var tail := s[i + n..];
    forall k | 0 <= k < |tail| ensures IsSpace(tail[k]) {
      assert tail[k] == t[|t| - j..][k];
    }
  }

  /** `strip()` gives the empty string exactly on whitespace-only input. */
  lemma StripEmptyIffBlank(s: string)
    ensures Strip(s) == [] <==> AllSpace(s)
  {
    var r := Strip(s);
    var i := LeadingSpaces(s);
    if r == [] {
      assert i == |s|;
      assert s == s[..i];
    } else {
      assert s[i] == r[0];
    }
  }

  /** A string with no whitespace at either end is its own `strip()`. */
  lemma StripUnchanged(s: string)
    requires s == [] || (!IsSpace(s[0]) && !IsSpace(s[|s| - 1]))
    ensures Strip(s) == s
  {
    var i := LeadingSpaces(s);
    assert i == 0;
    assert s[i..] == s;
  }

  /** Each string with surrounding whitespace removed. */
  function StripEach(codes: seq<string>): (r: seq<string>)
    ensures |r| == |codes|
    ensures forall i :: 0 <= i < |codes| ==> r[i] == Strip(codes[i])
  {
    MapEach(codes, StripFn())
  }

  function StripFn(): string -> string
  {
    s => Strip(s)
  }

  lemma StripEachAppend(a: seq<string>, b: seq<string>)
    ensures StripEach(a + b) == StripEach(a) + StripEach(b)
  {
    MapEachAppend(a, b, StripFn());
  }

  /** `strip()` is idempotent. */
  lemma StripIdempotent(s: string)
    ensures Strip(Strip(s)) == Strip(s)
  {
  }

  // ----- split(sep) and join ------------------------------------------------

  /** Python's `sep.join(parts)` with a one-character separator. */
  function Join(parts: seq<string>, sep: char): string
  {
    if |parts| == 0 then ""
    else if |parts| == 1 then parts[0]
    else parts[0] + [sep] + Join(parts[1..], sep)
  }

  /** Python's `s.split(sep)` with a one-character separator: `Join` undoes it. */
  function Split(s: string, sep: char): (parts: seq<string>)
    ensures |parts| >= 1
    ensures forall p :: p in parts ==> sep !in p
    ensures Join(parts, sep) == s
    decreases |s|
  {
    if |s| == 0 then [""]
    else
      var rest := Split(s[1..], sep);
      if s[0] == sep then
        assert Join([""] + rest, sep) == [sep] + Join(rest, sep) by {
          assert ([""] + rest)[1..] == rest;
        }
        [""] + rest
      else
        var parts := [[s[0]] + rest[0]] + rest[1..];
        assert Join(parts, sep) == [s[0]] + Join(rest, sep) by {
          if |rest| > 1 {
            assert parts[1..] == rest[1..];
          }
        }
        parts
  }

  /** Splitting a join of separator-free pieces gives back the pieces. */
  lemma {:induction false} SplitJoin(parts: seq<string>, sep: char)
    requires |parts| >= 1
    requires forall p :: p in parts ==> sep !in p
    ensures Split(Join(parts, sep), sep) == parts
    decreases |Join(parts, sep)|
  {
    var s := Join(parts, sep);
    if |parts[0]| > 0 {
      var p0 := parts[0];
      var parts' := [p0[1..]] + parts[1..];
      assert forall p :: p in parts' ==> sep !in p by {
        forall p | p in parts' ensures sep !in p {
          if p == p0[1..] {
            assert p0 in parts;
          } else {
            assert p in parts;
          }
        }
      }
      assert Join(parts', sep) == s[1..] by {
        if |parts| > 1 {
          assert parts'[1..] == parts[1..];
        }
      }
      SplitJoin(parts', sep);
      assert s[0] == p0[0] && p0[0] != sep by {
        assert p0 in parts;
      }
      assert [p0[0]] + p0[1..] == p0;
      assert [p0] + parts[1..] == parts;
    } else if |parts| > 1 {
      assert s == [sep] + Join(parts[1..], sep);
      assert s[1..] == Join(parts[1..], sep);
      assert forall p :: p in parts[1..] ==> p in parts;
      SplitJoin(parts[1..], sep);
      assert [""] + parts[1..] == parts;
    }
  }

  // ----- Substrings ---------------------------------------------------------

  /** Python's `p in s` on strings: `p` occurs contiguously in `s`. */
  predicate Contains(s: string, p: string)
    decreases |s|
  {
    p <= s || (|s| > 0 && Contains(s[1..], p))
  }

  /** `Contains` means an occurrence at some offset. */
  lemma ContainsIffOccurs(s: string, p: string)
    ensures Contains(s, p) <==> exists i :: 0 <= i <= |s| && p <= s[i..]
  {
    if Contains(s, p) {
      var i := ContainsAt(s, p);
    }
    if exists i :: 0 <= i <= |s| && p <= s[i..] {
      var i :| 0 <= i <= |s| && p <= s[i..];
      OccursContains(s, p, i);
    }
  }

  /** An offset where a contained string occurs. */
  lemma {:induction false} ContainsAt(s: string, p: string) returns (i: nat)
    requires Contains(s, p)
    ensures i <= |s| && p <= s[i..]
    decreases |s|
  {
    if p <= s {
      i := 0;
    } else {
      var j := ContainsAt(s[1..], p);
      assert s[1..][j..] == s[j + 1..];
      i := j + 1;
    }
  }

  /** An occurrence at offset `i` is contained. */
  lemma {:induction false} OccursContains(s: string, p: string, i: nat)
    requires i <= |s| && p <= s[i..]
    ensures Contains(s, p)
    decreases i
  {
    if i > 0 {
      assert s[1..][i - 1..] == s[i..];
      OccursContains(s[1..], p, i - 1);
    }
  }
}
