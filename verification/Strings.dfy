/** The string searches that identifiers are taken apart with. A search that finds nothing answers the length. */
module Strings {

  /** `tolower` in the C locale. */
  function LowerChar(c: char): char {
    if 'A' <= c <= 'Z' then (c as int + 32) as char else c
  }

  function Lower(s: string): (r: string)
    ensures |r| == |s|
  {
    seq(|s|, i requires 0 <= i < |s| => LowerChar(s[i]))
  }

  /** The first position at or after `from` that holds a character of `stop`. */
  function Scan(s: string, from: nat, stop: set<char>): (r: nat)
    requires from <= |s|
    ensures from <= r <= |s|
    ensures forall k | from <= k < r :: s[k] !in stop
    ensures r < |s| ==> s[r] in stop
    decreases |s| - from
  {
    if from == |s| || s[from] in stop then from else Scan(s, from + 1, stop)
  }

  lemma {:induction false} ScanIs(s: string, from: nat, stop: set<char>, r: nat)
    requires from <= r <= |s|
    requires forall k | from <= k < r :: s[k] !in stop
    requires r < |s| ==> s[r] in stop
    ensures Scan(s, from, stop) == r
    decreases r - from
  {
    if from < r {
      ScanIs(s, from + 1, stop, r);
    }
  }

  /** One past the last occurrence of `c` before `end`, or 0. */
  function LastBefore(s: string, end: nat, c: char): (r: nat)
    requires end <= |s|
    ensures r <= end
    ensures r > 0 ==> s[r - 1] == c
    ensures forall k | r <= k < end :: s[k] != c
  {
    if end == 0 || s[end - 1] == c then end else LastBefore(s, end - 1, c)
  }

  function AfterLast(s: string, c: char): (r: nat)
    ensures r <= |s|
    ensures r > 0 ==> s[r - 1] == c
    ensures forall k | r <= k < |s| :: s[k] != c
  {
    LastBefore(s, |s|, c)
  }

  predicate At(s: string, i: nat, pattern: string) {
    i + |pattern| <= |s| && s[i..i + |pattern|] == pattern
  }

  predicate Occurs(s: string, pattern: string) {
    exists i | 0 <= i <= |s| :: At(s, i, pattern)
  }

  function FindFrom(s: string, i: nat, pattern: string): (r: nat)
    requires i <= |s| && pattern != ""
    ensures i <= r <= |s| && (r < |s| ==> r + |pattern| <= |s|)
    decreases |s| - i
  {
    if i == |s| || At(s, i, pattern) then i else FindFrom(s, i + 1, pattern)
  }

  /** The first occurrence of a pattern. */
  function Find(s: string, pattern: string): (r: nat)
    requires pattern != ""
    ensures r <= |s| && (r < |s| ==> r + |pattern| <= |s|)
  {
    FindFrom(s, 0, pattern)
  }

  lemma {:induction false} FindFromFinds(s: string, i: nat, pattern: string)
    requires i <= |s| && pattern != ""
    ensures FindFrom(s, i, pattern) < |s| ==> At(s, FindFrom(s, i, pattern), pattern)
    ensures forall k | i <= k < FindFrom(s, i, pattern) :: !At(s, k, pattern)
    decreases |s| - i
  {
    if i < |s| && !At(s, i, pattern) {
      FindFromFinds(s, i + 1, pattern);
    }
  }

  lemma FindFinds(s: string, pattern: string)
    requires pattern != ""
    ensures Find(s, pattern) < |s| <==> Occurs(s, pattern)
    ensures Find(s, pattern) < |s| ==> At(s, Find(s, pattern), pattern)
    ensures forall k | 0 <= k < Find(s, pattern) :: !At(s, k, pattern)
  {
    FindFromFinds(s, 0, pattern);
  }

  lemma FindIs(s: string, pattern: string, r: nat)
    requires pattern != "" && r < |s| && At(s, r, pattern)
    requires forall k | 0 <= k < r :: !At(s, k, pattern)
    ensures Find(s, pattern) == r
  {
    FindFinds(s, pattern);
    assert Occurs(s, pattern);
  }

  lemma FindNone(s: string, pattern: string)
    requires pattern != "" && !Occurs(s, pattern)
    ensures Find(s, pattern) == |s|
  {
    FindFinds(s, pattern);
  }

  lemma OccursAt(s: string, i: nat, pattern: string)
    requires At(s, i, pattern)
    ensures Occurs(s, pattern)
  {
  }

  /** What occurs in a part occurs in the whole. */
  lemma OccursLeft(a: string, b: string, pattern: string)
    requires Occurs(a, pattern)
    ensures Occurs(a + b, pattern)
  {
    var i :| 0 <= i <= |a| && At(a, i, pattern);
    assert (a + b)[i..i + |pattern|] == a[i..i + |pattern|];
    OccursAt(a + b, i, pattern);
  }

  lemma OccursRight(a: string, b: string, pattern: string)
    requires Occurs(b, pattern)
    ensures Occurs(a + b, pattern)
  {
    var i :| 0 <= i <= |b| && At(b, i, pattern);
    assert (a + b)[|a| + i..|a| + i + |pattern|] == b[i..i + |pattern|];
    OccursAt(a + b, |a| + i, pattern);
  }

  /** A pattern without the separator `b[0]` cannot straddle it. */
  lemma OccursBeforeOrAfter(a: string, b: string, pattern: string)
    requires pattern != "" && Occurs(a + b, pattern)
    requires b != "" ==> b[0] !in pattern
    ensures Occurs(a, pattern) || Occurs(b, pattern)
  {
    var i :| 0 <= i <= |a + b| && At(a + b, i, pattern);
    assert forall m | i <= m < i + |pattern| :: (a + b)[m] == (a + b)[i..i + |pattern|][m - i] && (a + b)[m] in pattern;
    assert b != "" ==> (a + b)[|a|] == b[0];
    if i >= |a| {
      assert b[i - |a|..i - |a| + |pattern|] == (a + b)[i..i + |pattern|];
      OccursAt(b, i - |a|, pattern);
    } else {
      assert a[i..i + |pattern|] == (a + b)[i..i + |pattern|];
      OccursAt(a, i, pattern);
    }
  }

  lemma FreeBeside(a: string, b: string, pattern: string)
    requires pattern != "" && !Occurs(a, pattern) && !Occurs(b, pattern)
    requires b != "" ==> b[0] !in pattern
    ensures !Occurs(a + b, pattern)
  {
    if Occurs(a + b, pattern) {
      OccursBeforeOrAfter(a, b, pattern);
    }
  }

  lemma FreeBehind(c: char, s: string, pattern: string)
    requires pattern != "" && c !in pattern && !Occurs(s, pattern)
    ensures !Occurs([c] + s, pattern)
  {
    if Occurs([c] + s, pattern) {
      OccursBehind(c, s, pattern);
    }
  }

  lemma OccursBehind(c: char, s: string, pattern: string)
    requires pattern != "" && c !in pattern && Occurs([c] + s, pattern)
    ensures Occurs(s, pattern)
  {
    var i :| 0 <= i <= |s| + 1 && At([c] + s, i, pattern);
    assert ([c] + s)[i..i + |pattern|][0] == ([c] + s)[i];
    assert s[i - 1..i - 1 + |pattern|] == ([c] + s)[i..i + |pattern|];
    OccursAt(s, i - 1, pattern);
  }

  /** Lower-case text holds no pattern with a capital letter. */
  lemma NoCapitals(s: string, pattern: string, k: nat)
    requires k < |pattern| && 'A' <= pattern[k] <= 'Z'
    requires forall i | 0 <= i < |s| :: s[i] == LowerChar(s[i])
    ensures !Occurs(s, pattern)
  {
    forall i | 0 <= i <= |s| ensures !At(s, i, pattern) {
      if i + |pattern| <= |s| {
        assert s[i..i + |pattern|][k] == s[i + k];
      }
    }
  }

  lemma LacksOne(s: string, pattern: string, k: nat)
    requires k < |pattern| && pattern[k] !in s
    ensures !Occurs(s, pattern)
  {
    forall i | 0 <= i <= |s| ensures !At(s, i, pattern) {
      if i + |pattern| <= |s| {
        assert s[i..i + |pattern|][k] == s[i + k];
      }
    }
  }

  lemma LowerTwice(s: string)
    ensures Lower(Lower(s)) == Lower(s)
  {
  }
}
