/**
 * Python's `<` on `str`: code points compared left to right, a proper
 * prefix ordered first. Arrival times in stop_times.txt and the clock
 * reading are compared this way by `sort_values` and `searchsorted`.
 */
module Lexicographic {

  predicate Less(a: string, b: string)
    ensures |a| < |b| && a == b[..|a|] ==> Less(a, b)
    ensures Less(a, b) ==> a != b
    decreases |a|
  {
    if |a| == 0 then |b| > 0
    else if |b| == 0 then false
    else if a[0] != b[0] then a[0] < b[0]
    else Less(a[1..], b[1..])
  }

  /** `a` and `b` agree before position k and `a` has the smaller code point at k. */
  ghost predicate FirstDifferenceLess(a: string, b: string, k: int)
  {
    0 <= k < |a| && k < |b| && a[..k] == b[..k] && a[k] < b[k]
  }

  /** `a` is a proper prefix of `b`. */
  ghost predicate ProperPrefix(a: string, b: string)
  {
    |a| < |b| && a == b[..|a|]
  }

  /**
   * The order decided at the first position where the texts differ, or,
   * when one is a proper prefix of the other, by length.
   */
  lemma {:induction false} LessAtFirstDifference(a: string, b: string)
    ensures Less(a, b) <==> (exists k :: FirstDifferenceLess(a, b, k)) || ProperPrefix(a, b)
    decreases |a|
  {
    if |a| == 0 || |b| == 0 {
      assert |b| > 0 ==> ProperPrefix(a, b);
    } else if a[0] != b[0] {
      if a[0] < b[0] {
        assert FirstDifferenceLess(a, b, 0);
      } else {
        forall k | 0 <= k ensures !FirstDifferenceLess(a, b, k) {
          if 0 < k <= |a| && k <= |b| {
            assert a[..k][0] == a[0] && b[..k][0] == b[0];
          }
        }
        if |a| < |b| {
          assert b[..|a|][0] == b[0];
        }
      }
    } else {
      LessAtFirstDifference(a[1..], b[1..]);
      if exists k :: FirstDifferenceLess(a[1..], b[1..], k) {
        var k :| FirstDifferenceLess(a[1..], b[1..], k);
        ShiftFirstDifference(a, b, k);
      }
      if exists k :: FirstDifferenceLess(a, b, k) {
        var k :| FirstDifferenceLess(a, b, k);
        ShiftFirstDifference(a, b, k - 1);
      }
      ShiftProperPrefix(a, b);
    }
  }

  lemma ShiftFirstDifference(a: string, b: string, k: int)
    requires |a| > 0 && |b| > 0 && a[0] == b[0] && k >= 0
    ensures FirstDifferenceLess(a[1..], b[1..], k) <==> FirstDifferenceLess(a, b, k + 1)
  {
    if k < |a| - 1 && k < |b| - 1 {
      assert a[..k+1] == [a[0]] + a[1..][..k] && b[..k+1] == [b[0]] + b[1..][..k];
    }
  }

  lemma ShiftProperPrefix(a: string, b: string)
    requires |a| > 0 && |b| > 0 && a[0] == b[0]
    ensures ProperPrefix(a[1..], b[1..]) <==> ProperPrefix(a, b)
  {
    assert a == [a[0]] + a[1..];
    if |a| < |b| {
      assert b[..|a|] == [b[0]] + b[1..][..|a| - 1];
    }
  }

  /** An ascending column: no entry is strictly before an earlier one. */
  ghost predicate Ascending(ts: seq<string>)
  {
    forall i, j :: 0 <= i < j < |ts| ==> !Less(ts[j], ts[i])
  }

  lemma {:induction false} LessIrreflexive(a: string)
    ensures !Less(a, a)
    decreases |a|
  {
    if |a| > 0 {
      LessIrreflexive(a[1..]);
    }
  }

  lemma {:induction false} LessTransitive(a: string, b: string, c: string)
    requires Less(a, b) && Less(b, c)
    ensures Less(a, c)
    decreases |a|
  {
    if |a| > 0 && a[0] == b[0] && b[0] == c[0] {
      LessTransitive(a[1..], b[1..], c[1..]);
    }
  }

  lemma {:induction false} LessTrichotomy(a: string, b: string)
    ensures Less(a, b) || a == b || Less(b, a)
    decreases |a|
  {
    if |a| > 0 && |b| > 0 && a[0] == b[0] {
      LessTrichotomy(a[1..], b[1..]);
      if a[1..] == b[1..] {
        assert a == [a[0]] + a[1..] && b == [b[0]] + b[1..];
      }
    }
  }

  lemma LessAsymmetric(a: string, b: string)
    requires Less(a, b)
    ensures !Less(b, a)
  {
    if Less(b, a) {
      LessTransitive(a, b, a);
      LessIrreflexive(a);
    }
  }

  /** a <= b and b < c give a < c. */
  lemma AtMostThenLess(a: string, b: string, c: string)
    requires !Less(b, a) && Less(b, c)
    ensures Less(a, c)
  {
    LessTrichotomy(a, b);
    if Less(a, b) {
      LessTransitive(a, b, c);
    }
  }

  /** a <= b and b <= c give a <= c. */
  lemma AtMostTransitive(a: string, b: string, c: string)
    requires !Less(b, a) && !Less(c, b)
    ensures !Less(c, a)
  {
    if Less(c, a) {
      AtMostThenLess(c, a, b);
    }
  }

  // ---- Zero-padded clock text ------------------------------------------

  predicate IsDigit(c: char)
  {
    '0' <= c <= '9'
  }

  function Digit(c: char): (d: nat)
    requires IsDigit(c)
    ensures d <= 9
  {
    (c as int) - ('0' as int)
  }

  /**
   * "HH:MM:SS" with two-digit hours that may exceed 23 (GTFS writes
   * post-midnight service as "25:10:00"), minutes and seconds below 60.
   */
  predicate IsClockText(t: string)
  {
    && |t| == 8
    && IsDigit(t[0]) && IsDigit(t[1]) && t[2] == ':'
    && '0' <= t[3] <= '5' && IsDigit(t[4]) && t[5] == ':'
    && '0' <= t[6] <= '5' && IsDigit(t[7])
  }

  /** Seconds since the start of the service day. */
  function Seconds(t: string): (s: nat)
    requires IsClockText(t)
  {
    (10 * Digit(t[0]) + Digit(t[1])) * 3600
    + (10 * Digit(t[3]) + Digit(t[4])) * 60
    + 10 * Digit(t[6]) + Digit(t[7])
  }

  /** Comparing at position k once the prefixes before k agree. */
  lemma {:induction false} LessAt(a: string, b: string, k: nat)
    requires k < |a| && k < |b| && a[..k] == b[..k]
    ensures Less(a, b) <==> a[k] < b[k] || (a[k] == b[k] && Less(a[k+1..], b[k+1..]))
    decreases k
  {
    if k > 0 {
      assert a[0] == a[..k][0] == b[..k][0] == b[0];
      assert a[1..][..k-1] == a[1..k] == b[1..k] == b[1..][..k-1];
      LessAt(a[1..], b[1..], k - 1);
      assert a[1..][k..] == a[k+1..] && b[1..][k..] == b[k+1..];
    }
  }

  /**
   * For zero-padded clock text the string order of the source is the
   * order of the times of day, including hours past 23.
   */
  lemma LessMatchesSeconds(a: string, b: string)
    requires IsClockText(a) && IsClockText(b)
    ensures Less(a, b) <==> Seconds(a) < Seconds(b)
  {
    var k := 0;
    while k < 8 && a[k] == b[k]
      invariant 0 <= k <= 8
      invariant a[..k] == b[..k]
    {
      assert a[..k+1] == a[..k] + [a[k]];
      assert b[..k+1] == b[..k] + [b[k]];
      k := k + 1;
    }
    if k == 8 {
      assert a == a[..8] == b[..8] == b;
      LessIrreflexive(a);
    } else {
      LessAt(a, b, k);
      assert forall i :: 0 <= i < k ==> a[i] == a[..k][i] == b[..k][i] == b[i];
      assert k != 2 && k != 5;
    }
  }
}
