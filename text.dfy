/**
  The string operations the script relies on: Python's `str(n)` for a
  non-negative integer, `str.endswith`, `str.replace(old, new)` (every
  occurrence, scanning left to right without overlap), and the ordering
  `sorted` uses on strings (code point by code point, a proper prefix first).
 */
module Text {
  import opened Common

  // ----- str(n) -----

  function DigitChar(d: nat): (c: char)
    requires d < 10
    ensures '0' <= c <= '9'
  {
    (48 + d) as char
  }

  /** The decimal representation of `n`, without sign or leading zeros. */
  function DecimalString(n: nat): (s: string)
    ensures |s| >= 1
    ensures forall i :: 0 <= i < |s| ==> '0' <= s[i] <= '9'
  {
    if n < 10 then [DigitChar(n)] else DecimalString(n / 10) + [DigitChar(n % 10)]
  }

  /** Different numbers are written differently. */
  lemma {:induction false} DecimalStringInjective(a: nat, b: nat)
    requires DecimalString(a) == DecimalString(b)
    ensures a == b
  {
    var sa, sb := DecimalString(a), DecimalString(b);
    if a >= 10 && b >= 10 {
      assert sa[|sa| - 1] == DigitChar(a % 10) && sb[|sb| - 1] == DigitChar(b % 10);
      assert sa[..|sa| - 1] == DecimalString(a / 10) && sb[..|sb| - 1] == DecimalString(b / 10);
      DecimalStringInjective(a / 10, b / 10);
    } else if a < 10 && b < 10 {
      assert sa[0] == DigitChar(a) && sb[0] == DigitChar(b);
    }
  }

  // ----- str.endswith -----

  predicate EndsWith(s: string, suffix: string)
  {
    |suffix| <= |s| && s[|s| - |suffix|..] == suffix
  }

  lemma EndsWithConcat(s: string, suffix: string)
    ensures EndsWith(s + suffix, suffix)
  {
    assert (s + suffix)[|s|..] == suffix;
  }

  // ----- str.replace -----

  /** `pat` occurs in `t` at position `i`. */
  predicate Occurs(t: string, pat: string, i: nat)
  {
    i + |pat| <= |t| && t[i..i + |pat|] == pat
  }

  /** `pat` occurs nowhere in `t`. */
  predicate Free(t: string, pat: string)
  {
    forall i :: 0 <= i < |t| ==> !Occurs(t, pat, i)
  }

  /** A head where no occurrence starts, followed by a text without one, has none. */
  lemma FreeAfterClearHead(head: string, rest: string, pat: string)
    requires Free(rest, pat)
    requires forall i :: 0 <= i < |head| ==> !Occurs(head + rest, pat, i)
    ensures Free(head + rest, pat)
  {
    var t := head + rest;
    forall i | |head| <= i < |t|
      ensures !Occurs(t, pat, i)
    {
      assert i + |pat| <= |t| ==> t[i..i + |pat|] == rest[i - |head|..i - |head| + |pat|];
      assert !Occurs(rest, pat, i - |head|);
    }
  }

  /** `t.replace(pat, rep)`: every occurrence of `pat`, taken left to right without overlap. */
  function ReplaceAll(t: string, pat: string, rep: string): (r: string)
    requires pat != []
    decreases |t|
  {
    if |t| < |pat| then t
    else if t[..|pat|] == pat then rep + ReplaceAll(t[|pat|..], pat, rep)
    else [t[0]] + ReplaceAll(t[1..], pat, rep)
  }

  /** A prefix in which no occurrence of `pat` starts is copied unchanged. */
  lemma {:induction false} ReplaceAllSkipsPrefix(p: string, q: string, pat: string, rep: string)
    requires pat != []
    requires forall i: nat :: i < |p| ==> !Occurs(p + q, pat, i)
    ensures ReplaceAll(p + q, pat, rep) == p + ReplaceAll(q, pat, rep)
    decreases |p|
  {
    if p == [] {
      assert p + q == q;
    } else {
      var t := p + q;
      if |t| >= |pat| {
        assert !Occurs(t, pat, 0);
        assert t[1..] == p[1..] + q;
        forall i: nat | i < |p[1..]|
          ensures !Occurs(p[1..] + q, pat, i)
        {
          assert !Occurs(t, pat, i + 1);
          if i + |pat| <= |t[1..]| {
            assert t[1..][i..i + |pat|] == t[i + 1..i + 1 + |pat|];
          }
        }
        ReplaceAllSkipsPrefix(p[1..], q, pat, rep);
        assert [t[0]] + (p[1..] + ReplaceAll(q, pat, rep)) == p + ReplaceAll(q, pat, rep);
      }
    }
  }

  /** A text without occurrences is left as it is. */
  lemma ReplaceAllFree(t: string, pat: string, rep: string)
    requires pat != [] && Free(t, pat)
    ensures ReplaceAll(t, pat, rep) == t
  {
    assert t + [] == t;
    ReplaceAllSkipsPrefix(t, [], pat, rep);
  }

  /** A text missing the last character of `pat` holds no occurrence of it. */
  lemma FreeWithoutLastChar(t: string, pat: string)
    requires pat != [] && pat[|pat| - 1] !in t
    ensures Free(t, pat)
  {
    forall i | 0 <= i < |t|
      ensures !Occurs(t, pat, i)
    {
      if i + |pat| <= |t| {
        assert t[i..i + |pat|][|pat| - 1] == t[i + |pat| - 1];
      }
    }
  }

  /**
    A segment without occurrences followed by a separator that is not part of
    `pat` is copied unchanged: no occurrence can start in it, not even one
    running into the separator.
   */
  lemma ReplaceAllSkipsSegment(x: string, sep: char, rest: string, pat: string, rep: string)
    requires pat != [] && Free(x, pat) && sep !in pat
    ensures ReplaceAll(x + [sep] + rest, pat, rep) == x + [sep] + ReplaceAll(rest, pat, rep)
  {
    var p := x + [sep];
    var t := p + rest;
    forall i: nat | i < |p|
      ensures !Occurs(t, pat, i)
    {
      if i + |pat| <= |x| {
        assert !Occurs(x, pat, i);
        assert t[i..i + |pat|] == x[i..i + |pat|];
      } else if i + |pat| <= |t| {
        assert t[|x|] == sep;
        assert t[i..i + |pat|][|x| - i] == sep;
      }
    }
    ReplaceAllSkipsPrefix(p, rest, pat, rep);
  }

  /** An occurrence at the very start is replaced. */
  lemma ReplaceAllAtStart(rest: string, pat: string, rep: string)
    requires pat != []
    ensures ReplaceAll(pat + rest, pat, rep) == rep + ReplaceAll(rest, pat, rep)
  {
    assert (pat + rest)[..|pat|] == pat;
    assert (pat + rest)[|pat|..] == rest;
  }

  // ----- splitting at a separator -----

  /** The first separator after a head without one is the one right after that head. */
  lemma FirstIndexAfter(x: string, y: string, c: char)
    requires c !in x
    ensures FirstIndex(x + [c] + y, c) == |x|
  {
    var t := x + [c] + y;
    assert t[|x|] == c;
    assert forall i :: 0 <= i < |x| ==> t[i] == x[i];
  }

  /** A separator that occurs in neither head splits a string in one way only. */
  lemma SplitAtSeparator(x1: string, y1: string, x2: string, y2: string, c: char)
    requires c !in x1 && c !in x2
    requires x1 + [c] + y1 == x2 + [c] + y2
    ensures x1 == x2 && y1 == y2
  {
    var t := x1 + [c] + y1;
    FirstIndexAfter(x1, y1, c);
    FirstIndexAfter(x2, y2, c);
    assert x1 == t[..|x1|] && x2 == t[..|x2|];
    assert y1 == t[|x1| + 1..] && y2 == t[|x2| + 1..];
  }

  // ----- the ordering of sorted() on strings -----

  /** `a <= b` on Python strings: the first differing code point decides; a proper prefix comes first. */
  predicate LexLe(a: string, b: string)
    decreases |a|
  {
    |a| == 0 || (|b| > 0 && (a[0] < b[0] || (a[0] == b[0] && LexLe(a[1..], b[1..]))))
  }

  lemma {:induction false} LexReflexive(a: string)
    ensures LexLe(a, a)
    decreases |a|
  {
    if |a| > 0 {
      LexReflexive(a[1..]);
    }
  }

  lemma {:induction false} LexTotal(a: string, b: string)
    ensures LexLe(a, b) || LexLe(b, a)
    decreases |a|
  {
    if |a| > 0 && |b| > 0 && a[0] == b[0] {
      LexTotal(a[1..], b[1..]);
    }
  }

  lemma {:induction false} LexTransitive(a: string, b: string, c: string)
    requires LexLe(a, b) && LexLe(b, c)
    ensures LexLe(a, c)
    decreases |a|
  {
    if |a| > 0 && a[0] == b[0] && b[0] == c[0] {
      LexTransitive(a[1..], b[1..], c[1..]);
    }
  }

  lemma {:induction false} LexAntisymmetric(a: string, b: string)
    requires LexLe(a, b) && LexLe(b, a)
    ensures a == b
    decreases |a|
  {
    if |a| > 0 {
      LexAntisymmetric(a[1..], b[1..]);
      assert a == [a[0]] + a[1..] && b == [b[0]] + b[1..];
    }
  }

  predicate SortedStrings(s: seq<string>)
  {
    forall i, j :: 0 <= i < j < |s| ==> LexLe(s[i], s[j])
  }

  /** Insert `x` before the first element it does not exceed. */
  function Insert(x: string, s: seq<string>): (r: seq<string>)
    ensures multiset(r) == multiset(s) + multiset{x}
    ensures SortedStrings(s) ==> SortedStrings(r)
  {
    if s == [] then [x]
    else if LexLe(x, s[0]) then
      InsertFrontSorted(x, s);
      [x] + s
    else
      assert s == [s[0]] + s[1..];
      var tail := Insert(x, s[1..]);
      LexTotal(x, s[0]);
      InsertBehindSorted(x, s, tail);
      [s[0]] + tail
  }

  lemma InsertFrontSorted(x: string, s: seq<string>)
    requires s != [] && LexLe(x, s[0])
    ensures SortedStrings(s) ==> SortedStrings([x] + s)
  {
    if SortedStrings(s) {
      var r := [x] + s;
      forall i, j | 0 <= i < j < |r|
        ensures LexLe(r[i], r[j])
      {
        if i == 0 && j > 1 {
          LexTransitive(x, s[0], s[j - 1]);
        }
      }
    }
  }

  lemma InsertBehindSorted(x: string, s: seq<string>, tail: seq<string>)
    requires s != [] && LexLe(s[0], x)
    requires multiset(tail) == multiset(s[1..]) + multiset{x}
    requires SortedStrings(s[1..]) ==> SortedStrings(tail)
    ensures SortedStrings(s) ==> SortedStrings([s[0]] + tail)
  {
    if SortedStrings(s) {
      var r := [s[0]] + tail;
      forall i, j | 0 <= i < j < |r|
        ensures LexLe(r[i], r[j])
      {
        if i == 0 {
          var y := tail[j - 1];
          assert y in multiset(tail);
          if y != x {
            assert y in multiset(s[1..]);
            var k :| 0 <= k < |s[1..]| && s[1..][k] == y;
            assert s[k + 1] == y;
          }
        }
      }
    }
  }

  /** `sorted(names)`: the same names, in ascending order. */
  function SortStrings(s: seq<string>): (r: seq<string>)
    ensures multiset(r) == multiset(s)
    ensures SortedStrings(r)
  {
    if s == [] then []
    else
      assert s == [s[0]] + s[1..];
      Insert(s[0], SortStrings(s[1..]))
  }

  lemma SortedHeadIsLeast(a: seq<string>, x: string)
    requires SortedStrings(a) && x in multiset(a)
    ensures LexLe(a[0], x)
  {
    var k :| 0 <= k < |a| && a[k] == x;
    if k == 0 {
      LexReflexive(x);
    }
  }

  lemma SortedTail(a: seq<string>)
    requires SortedStrings(a) && a != []
    ensures SortedStrings(a[1..])
  {
    forall i, j | 0 <= i < j < |a[1..]|
      ensures LexLe(a[1..][i], a[1..][j])
    {
      assert a[1..][i] == a[i + 1] && a[1..][j] == a[j + 1];
    }
  }

  lemma TailMultiset(a: seq<string>)
    requires a != []
    ensures multiset(a[1..]) == multiset(a) - multiset{a[0]}
  {
    assert a == [a[0]] + a[1..];
  }

  /** Two sorted lists holding the same strings start with the same one. */
  lemma SortedSameHead(a: seq<string>, b: seq<string>)
    requires a != [] && SortedStrings(a) && SortedStrings(b) && multiset(a) == multiset(b)
    ensures b != [] && a[0] == b[0]
  {
    assert a[0] in multiset(b);
    assert b[0] in multiset(a);
    SortedHeadIsLeast(b, a[0]);
    SortedHeadIsLeast(a, b[0]);
    LexAntisymmetric(a[0], b[0]);
  }

  lemma SameTailMultiset(a: seq<string>, b: seq<string>)
    requires a != [] && b != [] && a[0] == b[0] && multiset(a) == multiset(b)
    ensures multiset(a[1..]) == multiset(b[1..])
  {
    TailMultiset(a);
    TailMultiset(b);
  }

  /** Sorting leaves nothing to choose: a sorted permutation of the input is the sorted list. */
  lemma {:induction false} SortedPermutationUnique(a: seq<string>, b: seq<string>)
    requires SortedStrings(a) && SortedStrings(b) && multiset(a) == multiset(b)
    ensures a == b
    decreases |a|
  {
    if a != [] {
      SortedSameHead(a, b);
      SameTailMultiset(a, b);
      SortedTail(a);
      SortedTail(b);
      SortedPermutationUnique(a[1..], b[1..]);
      assert a == [a[0]] + a[1..] && b == [b[0]] + b[1..];
    } else {
      assert |multiset(b)| == 0;
    }
  }
}
