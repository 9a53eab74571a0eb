/// Character-level helpers shared by every stage of the pipeline: ASCII
/// upper-casing, reversal, Python's slice semantics and the base translation
/// table 'ACGT' -> 'TGCA' that builds complement patterns.
module Text {

  type String = seq<char>

  /** Python's str.upper on one character, restricted to ASCII letters. */
  function UpperChar(c: char): char {
    if 'a' <= c <= 'z' then (c as int - 32) as char else c
  }

  function Upper(s: String): (r: String)
    ensures |r| == |s|
    ensures forall i :: 0 <= i < |s| ==> r[i] == UpperChar(s[i])
  {
    seq(|s|, i requires 0 <= i < |s| => UpperChar(s[i]))
  }

  /** No character of s changes under upper-casing. */
  predicate IsUpper(s: String) {
    forall i :: 0 <= i < |s| ==> UpperChar(s[i]) == s[i]
  }

  /** Python's s[::-1]. */
  function Reverse<T>(s: seq<T>): (r: seq<T>)
    ensures |r| == |s|
    ensures forall i :: 0 <= i < |s| ==> r[i] == s[|s| - 1 - i]
  {
    seq(|s|, i requires 0 <= i < |s| => s[|s| - 1 - i])
  }

  /** How Python normalises one bound of s[i:j] on a sequence of length n. */
  function SliceIndex(i: int, n: nat): (r: nat)
    ensures r <= n
    ensures 0 <= i <= n ==> r == i
  {
    if i < 0 then (if i + n < 0 then 0 else i + n)
    else if i > n then n
    else i
  }

  /** Python's s[i:j] for integer bounds, negative and out-of-range ones included. */
  function PySlice<T>(s: seq<T>, i: int, j: int): (r: seq<T>)
    ensures |r| <= |s|
    ensures 0 <= i <= j <= |s| ==> r == s[i..j]
  {
    var a, b := SliceIndex(i, |s|), SliceIndex(j, |s|);
    if a < b then s[a..b] else []
  }

  /** The translation table str.maketrans('ACGT', 'TGCA'); other characters are kept. */
  function ComplementChar(c: char): char {
    match c
    case 'A' => 'T'
    case 'C' => 'G'
    case 'G' => 'C'
    case 'T' => 'A'
    case _ => c
  }

  /** str.translate with that table: base complement, position by position, no reversal. */
  function Complement(s: String): (r: String)
    ensures |r| == |s|
    ensures forall i :: 0 <= i < |s| ==> r[i] == ComplementChar(s[i])
  {
    seq(|s|, i requires 0 <= i < |s| => ComplementChar(s[i]))
  }

  lemma UpperAppend(a: String, b: String)
    ensures Upper(a + b) == Upper(a) + Upper(b)
  {
    assert forall i :: 0 <= i < |a + b| ==> Upper(a + b)[i] == (Upper(a) + Upper(b))[i];
  }

  lemma UpperIsUpper(s: String)
    ensures IsUpper(Upper(s))
  {
  }

  lemma UpperOfUpper(s: String)
    requires IsUpper(s)
    ensures Upper(s) == s
  {
  }

  lemma SliceOfUpper(s: String, i: int, j: int)
    requires IsUpper(s)
    ensures IsUpper(PySlice(s, i, j))
  {
    var a, b := SliceIndex(i, |s|), SliceIndex(j, |s|);
    if a < b {
      forall t | 0 <= t < b - a ensures UpperChar(s[a..b][t]) == s[a..b][t] {
        assert s[a..b][t] == s[a + t];
      }
    }
  }

  /** Translating an upper-case string keeps it upper case. */
  lemma ComplementOfUpper(s: String)
    requires IsUpper(s)
    ensures IsUpper(Complement(s))
  {
  }

  /** Complementing twice gives the original string back. */
  lemma ComplementInvolution(s: String)
    ensures Complement(Complement(s)) == s
  {
  }

  /** Reversing twice gives the original sequence back. */
  lemma ReverseInvolution<T>(s: seq<T>)
    ensures Reverse(Reverse(s)) == s
  {
  }

  /** Upper-casing commutes with reversal. */
  lemma UpperReverse(s: String)
    ensures Upper(Reverse(s)) == Reverse(Upper(s))
  {
  }
}
