/// What re.finditer(pattern, text) finds when the pattern is plain text:
/// the leftmost match first, then the next search resumes right after the
/// end of that match, so matches never overlap. An empty pattern, and the
/// one-character pattern "|" (an alternation of two empty patterns), match
/// the empty string at every position, end of text included.
module Matching {
  import opened Text

  /** p occurs in s at position k. */
  predicate MatchAt(s: String, p: String, k: nat) {
    k + |p| <= |s| && forall j :: 0 <= j < |p| ==> s[k + j] == p[j]
  }

  /** Start positions of the matches of a non-empty literal p found by scanning s from position i. */
  function OccurrencesFrom(s: String, p: String, i: nat): seq<nat>
    requires |p| > 0
    decreases |s| - i
  {
    if i + |p| > |s| then []
    else if MatchAt(s, p, i) then [i] + OccurrencesFrom(s, p, i + |p|)
    else OccurrencesFrom(s, p, i + 1)
  }

  /** Every start in r is an occurrence of p in s at or after i. */
  predicate AllMatchesFrom(s: String, p: String, i: nat, r: seq<nat>) {
    forall j :: 0 <= j < |r| ==> i <= r[j] && MatchAt(s, p, r[j])
  }

  /** Consecutive starts in r are at least |p| apart: the matches do not overlap. */
  predicate NonOverlapping(r: seq<nat>, p: String) {
    forall j :: 0 <= j < |r| - 1 ==> r[j] + |p| <= r[j + 1]
  }

  lemma ConsSound(s: String, p: String, i: nat, rest: seq<nat>)
    requires MatchAt(s, p, i)
    requires AllMatchesFrom(s, p, i + |p|, rest) && NonOverlapping(rest, p)
    ensures AllMatchesFrom(s, p, i, [i] + rest) && NonOverlapping([i] + rest, p)
  {
    var r := [i] + rest;
    forall j | 0 <= j < |r| ensures i <= r[j] && MatchAt(s, p, r[j]) {
      if j > 0 { assert r[j] == rest[j - 1]; }
    }
    forall j | 0 <= j < |r| - 1 ensures r[j] + |p| <= r[j + 1] {
      assert r[j + 1] == rest[j];
      if j > 0 { assert r[j] == rest[j - 1]; }
    }
  }

  /** Every reported start is a match of p at or after i, and the matches do not overlap. */
  lemma {:induction false} OccurrencesSound(s: String, p: String, i: nat)
    requires |p| > 0
    decreases |s| - i
    ensures AllMatchesFrom(s, p, i, OccurrencesFrom(s, p, i))
    ensures NonOverlapping(OccurrencesFrom(s, p, i), p)
  {
    if i + |p| <= |s| {
      if MatchAt(s, p, i) {
        OccurrencesSound(s, p, i + |p|);
        ConsSound(s, p, i, OccurrencesFrom(s, p, i + |p|));
      } else {
        OccurrencesSound(s, p, i + 1);
      }
    }
  }

  /** The m.start() values of re.finditer(p, s) for a literal p. */
  function Occurrences(s: String, p: String): seq<nat> {
    if |p| == 0 then seq(|s| + 1, j requires 0 <= j <= |s| => j)
    else OccurrencesFrom(s, p, 0)
  }

  /** The pattern is a regex that only ever matches the empty string. */
  predicate MatchesEmptyOnly(p: String) {
    p == [] || p == "|"
  }

  /** The m.start() values of re.finditer(p, s): literal patterns, "" and "|". */
  function MatchStarts(s: String, p: String): seq<nat> {
    if MatchesEmptyOnly(p) then Occurrences(s, []) else Occurrences(s, p)
  }

  /** len([m.start() for m in re.finditer(p, s)]). */
  function MatchCount(s: String, p: String): nat {
    |MatchStarts(s, p)|
  }

  /** Position k lies within the match reported at r[j]. */
  predicate CoveredBy(r: seq<nat>, p: String, j: int, k: int) {
    0 <= j < |r| && r[j] <= k < r[j] + |p|
  }

  /**
   * Greedy: every occurrence of p at or after the scan start is either
   * reported or starts strictly inside a reported match.
   */
  lemma {:induction false} OccurrencesGreedy(s: String, p: String, i: nat, k: nat)
    requires |p| > 0 && i <= k && MatchAt(s, p, k)
    decreases |s| - i
    ensures exists j :: CoveredBy(OccurrencesFrom(s, p, i), p, j, k)
  {
    var r := OccurrencesFrom(s, p, i);
    if MatchAt(s, p, i) {
      var rest := OccurrencesFrom(s, p, i + |p|);
      assert r == [i] + rest;
      if k < i + |p| {
        assert CoveredBy(r, p, 0, k);
      } else {
        OccurrencesGreedy(s, p, i + |p|, k);
        var j :| CoveredBy(rest, p, j, k);
        assert r[j + 1] == rest[j];
        assert CoveredBy(r, p, j + 1, k);
      }
    } else {
      OccurrencesGreedy(s, p, i + 1, k);
    }
  }

  /** t sits in s from position off to the end. */
  predicate SuffixAt(s: String, t: String, off: nat) {
    off + |t| == |s| && s[off..] == t
  }

  lemma MatchAtShift(s: String, t: String, off: nat, p: String, i: nat)
    requires SuffixAt(s, t, off) && i + |p| <= |t|
    ensures MatchAt(s, p, off + i) == MatchAt(t, p, i)
  {
    assert forall j :: 0 <= j < |t| ==> t[j] == s[off + j];
  }

  lemma ShiftMatchStep(s: String, t: String, off: nat, p: String, i: nat)
    requires |p| > 0 && SuffixAt(s, t, off) && i + |p| <= |t| && MatchAt(t, p, i)
    requires |OccurrencesFrom(s, p, off + (i + |p|))| == |OccurrencesFrom(t, p, i + |p|)|
    ensures |OccurrencesFrom(s, p, off + i)| == |OccurrencesFrom(t, p, i)|
  {
    MatchAtShift(s, t, off, p, i);
  }

  lemma ShiftSkipStep(s: String, t: String, off: nat, p: String, i: nat)
    requires |p| > 0 && SuffixAt(s, t, off) && i + |p| <= |t| && !MatchAt(t, p, i)
    requires |OccurrencesFrom(s, p, off + (i + 1))| == |OccurrencesFrom(t, p, i + 1)|
    ensures |OccurrencesFrom(s, p, off + i)| == |OccurrencesFrom(t, p, i)|
  {
    MatchAtShift(s, t, off, p, i);
  }

  /** Scanning s from inside its suffix t finds as many matches as scanning t itself. */
  lemma {:induction false} OccurrencesShift(s: String, t: String, off: nat, p: String, i: nat)
    requires |p| > 0 && SuffixAt(s, t, off)
    decreases |t| - i
    ensures |OccurrencesFrom(s, p, off + i)| == |OccurrencesFrom(t, p, i)|
  {
    if i + |p| <= |t| {
      if MatchAt(t, p, i) {
        OccurrencesShift(s, t, off, p, i + |p|);
        ShiftMatchStep(s, t, off, p, i);
      } else {
        OccurrencesShift(s, t, off, p, i + 1);
        ShiftSkipStep(s, t, off, p, i);
      }
    }
  }

  /** n copies of m, one after the other. */
  function Repeat(m: String, n: nat): (r: String)
    ensures |r| == n * |m|
  {
    if n == 0 then [] else m + Repeat(m, n - 1)
  }

  /** A text made of n copies of a plain motif holds exactly n matches of the motif. */
  lemma {:induction false} RepeatCount(m: String, n: nat)
    requires !MatchesEmptyOnly(m)
    ensures MatchCount(Repeat(m, n), m) == n
  {
    if n > 0 {
      RepeatCount(m, n - 1);
      var s := Repeat(m, n);
      assert s == m + Repeat(m, n - 1);
      assert s[0..|m|] == m;
      assert MatchAt(s, m, 0);
      assert SuffixAt(s, Repeat(m, n - 1), |m|);
      OccurrencesShift(s, Repeat(m, n - 1), |m|, m, 0);
      assert MatchCount(Repeat(m, n - 1), m) == |OccurrencesFrom(Repeat(m, n - 1), m, 0)|;
    }
  }
}
