/** The three Python string operations the source depends on: `str(n)` of a
    non-negative integer, the substring test `pat in s`, and the ordering
    `a < b` that pandas uses when it sorts group keys. */
module Strings {

  /** The character of a decimal digit. */
  function DigitChar(d: nat): (c: char)
    requires d < 10
    ensures '0' <= c <= '9'
  {
    (48 + d) as char
  }

  /** `str(n)` for n >= 0: its decimal digits, most significant first, without
      leading zeros. */
  function NatToString(n: nat): (s: string)
    ensures |s| >= 1
    ensures forall i :: 0 <= i < |s| ==> '0' <= s[i] <= '9'
  {
    if n < 10 then [DigitChar(n)] else NatToString(n / 10) + [DigitChar(n % 10)]
  }

  /** A single character exactly for the one-digit numbers. */
  lemma NatToStringSingle(n: nat)
    ensures |NatToString(n)| == 1 <==> n < 10
  {
  }

  /** Numbers from 1000 to 9999 print with four digits. */
  lemma NatToStringFourDigits(n: nat)
    requires 1000 <= n <= 9999
    ensures |NatToString(n)| == 4
  {
    var d1, d2, d3 := n / 10, n / 10 / 10, n / 10 / 10 / 10;
    assert 1 <= d3 < 10 <= d2 && 10 <= d1;
    NatToStringSingle(d3);
    assert |NatToString(d2)| == |NatToString(d3)| + 1;
    assert |NatToString(d1)| == |NatToString(d2)| + 1;
  }

  /** Python's `a < b` on strings: lexicographic by code point, a proper prefix
      being the smaller. */
  predicate LexLess(a: string, b: string)
  {
    if |b| == 0 then false
    else if |a| == 0 then true
    else a[0] < b[0] || (a[0] == b[0] && LexLess(a[1..], b[1..]))
  }

  /** `<` on strings is a strict order: never `a < a` ... */
  lemma {:induction false} LexLessIrreflexive(a: string)
    ensures !LexLess(a, a)
  {
    if |a| > 0 {
      LexLessIrreflexive(a[1..]);
    }
  }

  /** ... and never both `a < b` and `b < a`. */
  lemma {:induction false} LexLessAsymmetric(a: string, b: string)
    ensures !(LexLess(a, b) && LexLess(b, a))
  {
    if |a| > 0 && |b| > 0 && a[0] == b[0] {
      LexLessAsymmetric(a[1..], b[1..]);
    }
  }

  /** Comparing strings of equal length is decided by those characters alone:
      whatever follows does not change the verdict. */
  lemma {:induction false} LexLessExtend(a: string, b: string, x: string, y: string)
    requires |a| == |b| && LexLess(a, b)
    ensures LexLess(a + x, b + y)
  {
    assert (a + x)[0] == a[0] && (b + y)[0] == b[0];
    if a[0] == b[0] && LexLess(a[1..], b[1..]) {
      LexLessExtend(a[1..], b[1..], x, y);
      assert (a + x)[1..] == a[1..] + x;
      assert (b + y)[1..] == b[1..] + y;
    }
  }

  /** Strings that agree up to a last character compare as those characters. */
  lemma {:induction false} LexLessLast(p: string, c: char, d: char)
    requires c < d
    ensures LexLess(p + [c], p + [d])
  {
    if |p| > 0 {
      LexLessLast(p[1..], c, d);
      assert (p + [c])[1..] == p[1..] + [c];
      assert (p + [d])[1..] == p[1..] + [d];
    }
  }

  /** Among numbers printed with the same number of digits, string order is
      numeric order. */
  lemma {:induction false} NatToStringOrder(n: nat, m: nat)
    requires |NatToString(n)| == |NatToString(m)|
    requires n < m
    ensures LexLess(NatToString(n), NatToString(m))
  {
    NatToStringSingle(n);
    NatToStringSingle(m);
    if n >= 10 {
      assert m >= 10;
      if n / 10 < m / 10 {
        NatToStringOrder(n / 10, m / 10);
        LexLessExtend(NatToString(n / 10), NatToString(m / 10), [DigitChar(n % 10)], [DigitChar(m % 10)]);
      } else {
        assert n / 10 == m / 10 && n % 10 < m % 10;
        LexLessLast(NatToString(n / 10), DigitChar(n % 10), DigitChar(m % 10));
      }
    }
  }

  /** `pat` occurs in `s` starting at index i. */
  ghost predicate OccursAt(s: string, pat: string, i: int)
  {
    0 <= i && i + |pat| <= |s| && s[i..i + |pat|] == pat
  }

  /** Python's `pat in s` on strings: a scan for the first position where `pat`
      starts. */
  predicate Contains(s: string, pat: string)
    decreases |s|
  {
    if |s| < |pat| then false else s[..|pat|] == pat || Contains(s[1..], pat)
  }

  /** The scan finds `pat` exactly when it occurs somewhere in `s`. */
  lemma {:induction false} ContainsIff(s: string, pat: string)
    ensures Contains(s, pat) <==> exists i :: OccursAt(s, pat, i)
    decreases |s|
  {
    if |s| >= |pat| {
      if s[..|pat|] == pat {
        assert OccursAt(s, pat, 0);
        return;
      }
      assert |s| > 0;
      ContainsIff(s[1..], pat);
      if Contains(s[1..], pat) {
        var i :| OccursAt(s[1..], pat, i);
        assert s[i + 1..i + 1 + |pat|] == s[1..][i..i + |pat|];
        assert OccursAt(s, pat, i + 1);
      } else {
        forall i | 1 <= i && i + |pat| <= |s|
          ensures OccursAt(s, pat, i) ==> OccursAt(s[1..], pat, i - 1)
        {
          assert s[1..][i - 1..i - 1 + |pat|] == s[i..i + |pat|];
        }
      }
    }
  }

  /** A string contains every string that is spliced into it. */
  lemma ContainsSpliced(a: string, pat: string, b: string)
    ensures Contains(a + pat + b, pat)
  {
    var s := a + pat + b;
    assert s[|a|..|a| + |pat|] == pat;
    assert OccursAt(s, pat, |a|);
    ContainsIff(s, pat);
  }
}
