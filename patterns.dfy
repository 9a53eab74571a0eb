/// Pattern-set derivation (Topsicle/allsteps.py, pattern_scramble_telo and
/// patterns_to_search; Topsicle/descriptive_plot.py holds the same two
/// functions verbatim, so they are modelled once here).
module Patterns {
  import opened Text
  import opened Sorting

  /** The motif argument: one string (possibly "origin|complement"), or a list of patterns. */
  datatype MotifInput = Single(text: String) | Many(items: seq<String>)

  /** What patterns_to_search returns: a single concatenated string for a "|" motif, otherwise a list. */
  datatype PatternSet = Joined(text: String) | PatternList(items: seq<String>)

  // ---------------------------------------------------------------------------
  // Python's string order (code point by code point; a proper prefix is smaller)

  function LexLess(a: String, b: String): bool {
    if |a| == 0 then |b| > 0
    else if |b| == 0 then false
    else if a[0] < b[0] then true
    else if a[0] == b[0] then LexLess(a[1..], b[1..])
    else false
  }

  lemma {:induction false} LexIrreflexive(a: String)
    ensures !LexLess(a, a)
  {
    if |a| > 0 { LexIrreflexive(a[1..]); }
  }

  lemma {:induction false} LexTransitive(a: String, b: String, c: String)
    requires LexLess(a, b) && LexLess(b, c)
    ensures LexLess(a, c)
  {
    if |a| > 0 && a[0] == b[0] && b[0] == c[0] {
      LexTransitive(a[1..], b[1..], c[1..]);
    }
  }

  lemma {:induction false} LexTotal(a: String, b: String)
    requires a != b
    ensures LexLess(a, b) || LexLess(b, a)
  {
    if |a| > 0 && |b| > 0 && a[0] == b[0] {
      assert a == [a[0]] + a[1..] && b == [b[0]] + b[1..];
      LexTotal(a[1..], b[1..]);
    }
  }

  lemma LexLessIsStrictTotalOrder()
    ensures StrictTotalOrder(LexLess)
  {
    forall a | true ensures !LexLess(a, a) { LexIrreflexive(a); }
    forall a, b, c | LexLess(a, b) && LexLess(b, c) ensures LexLess(a, c) { LexTransitive(a, b, c); }
    forall a, b | a != b ensures LexLess(a, b) || LexLess(b, a) { LexTotal(a, b); }
  }

  // ---------------------------------------------------------------------------
  // pattern_scramble_telo

  /** len(range(len(d) - k + 1)): how many start positions the inner loop visits. */
  function Positions(d: String, k: int): nat {
    if |d| - k + 1 > 0 then |d| - k + 1 else 0
  }

  /** pattern[i:i + length], with Python's slice semantics. */
  function Cut(d: String, i: int, k: int): String {
    PySlice(d, i, i + k)
  }

  function CutsOfLength(d: String, k: int, n: nat): seq<String> {
    seq(n, i requires 0 <= i < n => Cut(d, i, k))
  }

  /** Every cut, in the order the nested loops produce them (duplicates included). */
  function CutsInOrder(d: String, lengths: seq<int>): seq<String> {
    if |lengths| == 0 then []
    else
      var k := lengths[|lengths| - 1];
      CutsInOrder(d, lengths[..|lengths| - 1]) + CutsOfLength(d, k, Positions(d, k))
  }

  /** The set the source accumulates: all cuts of every requested length. */
  ghost predicate IsCut(d: String, lengths: seq<int>, c: String) {
    exists j, i :: 0 <= j < |lengths| && 0 <= i < Positions(d, lengths[j]) && c == Cut(d, i, lengths[j])
  }

  /** sorted(set of cuts of the upper-cased doubled motif). */
  function PatternScramble(motif: String, lengths: seq<int>): seq<String> {
    SortUnique(CutsInOrder(Upper(motif + motif), lengths), LexLess)
  }

  lemma {:induction false} CutsInOrderElems(d: String, lengths: seq<int>)
    ensures forall c :: c in CutsInOrder(d, lengths) <==> IsCut(d, lengths, c)
  {
    if |lengths| > 0 {
      var init, k := lengths[..|lengths| - 1], lengths[|lengths| - 1];
      var last := CutsOfLength(d, k, Positions(d, k));
      CutsInOrderElems(d, init);
      assert CutsInOrder(d, lengths) == CutsInOrder(d, init) + last;
      forall c | c in CutsInOrder(d, lengths) ensures IsCut(d, lengths, c) {
        if c in CutsInOrder(d, init) {
          var j, i :| 0 <= j < |init| && 0 <= i < Positions(d, init[j]) && c == Cut(d, i, init[j]);
          assert lengths[j] == init[j];
        } else {
          var i :| 0 <= i < Positions(d, k) && last[i] == c;
          assert lengths[|lengths| - 1] == k;
        }
      }
      forall c | IsCut(d, lengths, c) ensures c in CutsInOrder(d, lengths) {
        var j, i :| 0 <= j < |lengths| && 0 <= i < Positions(d, lengths[j]) && c == Cut(d, i, lengths[j]);
        if j < |init| {
          assert init[j] == lengths[j];
          assert IsCut(d, init, c);
        } else {
          assert last[i] == c;
        }
      }
    }
  }

  lemma {:induction false} CutsOfUpper(d: String, lengths: seq<int>)
    requires IsUpper(d)
    ensures forall c :: c in CutsInOrder(d, lengths) ==> IsUpper(c)
  {
    CutsInOrderElems(d, lengths);
    forall c | c in CutsInOrder(d, lengths) ensures IsUpper(c) {
      var j, i :| 0 <= j < |lengths| && 0 <= i < Positions(d, lengths[j]) && c == Cut(d, i, lengths[j]);
      SliceOfUpper(d, i, i + lengths[j]);
    }
  }

  /** Every k-mer is upper case. */
  lemma ScrambleUpper(motif: String, lengths: seq<int>)
    ensures forall c :: c in PatternScramble(motif, lengths) ==> IsUpper(c)
  {
    var d := Upper(motif + motif);
    LexLessIsStrictTotalOrder();
    SortUniqueCorrect(CutsInOrder(d, lengths), LexLess);
    UpperIsUpper(motif + motif);
    CutsOfUpper(d, lengths);
    assert forall c :: c in PatternScramble(motif, lengths) ==> c in Elems(PatternScramble(motif, lengths));
  }

  /**
   * The k-mer list is strictly sorted in Python's string order, holds exactly
   * the cuts of the upper-cased doubled motif, each of them upper case.
   */
  lemma PatternScrambleSpec(motif: String, lengths: seq<int>)
    ensures StrictlySorted(PatternScramble(motif, lengths), LexLess)
    ensures forall c :: c in PatternScramble(motif, lengths) <==> IsCut(Upper(motif + motif), lengths, c)
    ensures forall c :: c in PatternScramble(motif, lengths) ==> IsUpper(c)
  {
    var d := Upper(motif + motif);
    LexLessIsStrictTotalOrder();
    SortUniqueCorrect(CutsInOrder(d, lengths), LexLess);
    CutsInOrderElems(d, lengths);
    ScrambleUpper(motif, lengths);
    assert forall c :: c in PatternScramble(motif, lengths) <==> c in Elems(PatternScramble(motif, lengths));
  }

  /** c occurs in d at position i. */
  predicate OccursAt(d: String, c: String, i: int) {
    0 <= i && i + |c| <= |d| && d[i..i + |c|] == c
  }

  /**
   * For one cut length k >= 0: every k-mer has length k and occurs in the
   * upper-cased doubled motif; the list is empty exactly when k > 2 * |motif|.
   */
  lemma ScrambleOneLength(motif: String, k: int)
    requires 0 <= k
    ensures forall c :: c in PatternScramble(motif, [k]) ==>
      |c| == k && exists i :: OccursAt(Upper(motif + motif), c, i)
    ensures PatternScramble(motif, [k]) == [] <==> k > 2 * |motif|
  {
    var d := Upper(motif + motif);
    var r := PatternScramble(motif, [k]);
    PatternScrambleSpec(motif, [k]);
    forall c | c in r ensures |c| == k && exists i :: OccursAt(d, c, i)
    {
      var j, i :| 0 <= j < 1 && 0 <= i < Positions(d, [k][j]) && c == Cut(d, i, [k][j]);
      assert OccursAt(d, c, i);
    }
    if k <= 2 * |motif| {
      assert [k][0] == k;
      assert IsCut(d, [k], Cut(d, 0, k));
      assert Cut(d, 0, k) in r;
    }
  }

  lemma ElemsAppend<T>(a: seq<T>, b: seq<T>)
    ensures Elems(a + b) == Elems(a) + Elems(b)
  {
    assert forall x :: x in a + b <==> x in a || x in b;
  }

  lemma CutsOfLengthStep(d: String, k: int, i: nat)
    ensures Elems(CutsOfLength(d, k, i + 1)) == Elems(CutsOfLength(d, k, i)) + {Cut(d, i, k)}
  {
    assert CutsOfLength(d, k, i + 1) == CutsOfLength(d, k, i) + [Cut(d, i, k)];
    ElemsAppend(CutsOfLength(d, k, i), [Cut(d, i, k)]);
  }

  lemma CutsInOrderStep(d: String, lengths: seq<int>, j: nat)
    requires j < |lengths|
    ensures Elems(CutsInOrder(d, lengths[..j + 1]))
         == Elems(CutsInOrder(d, lengths[..j])) + Elems(CutsOfLength(d, lengths[j], Positions(d, lengths[j])))
  {
    assert lengths[..j + 1][..j] == lengths[..j];
    ElemsAppend(CutsInOrder(d, lengths[..j]), CutsOfLength(d, lengths[j], Positions(d, lengths[j])));
  }

  /** The inner loop of pattern_scramble_telo: add every cut of one length. */
  method AddCutsOfLength(doubled: String, length: int, uniqueCuts: set<String>) returns (result: set<String>)
    ensures result == uniqueCuts + Elems(CutsOfLength(doubled, length, Positions(doubled, length)))
  {
    result := uniqueCuts;
    var i := 0;
    while i < |doubled| - length + 1
      invariant 0 <= i <= Positions(doubled, length)
      invariant result == uniqueCuts + Elems(CutsOfLength(doubled, length, i))
    {
      result := result + {PySlice(doubled, i, i + length)};
      CutsOfLengthStep(doubled, length, i);
      i := i + 1;
    }
  }

  /** The set the nested loops of pattern_scramble_telo collect. */
  method CollectCuts(doubled: String, cutLength: seq<int>) returns (uniqueCuts: set<String>)
    ensures uniqueCuts == Elems(CutsInOrder(doubled, cutLength))
  {
    uniqueCuts := {};
    var j := 0;
    while j < |cutLength|
      invariant 0 <= j <= |cutLength|
      invariant uniqueCuts == Elems(CutsInOrder(doubled, cutLength[..j]))
    {
      uniqueCuts := AddCutsOfLength(doubled, cutLength[j], uniqueCuts);
      CutsInOrderStep(doubled, cutLength, j);
      j := j + 1;
    }
    assert cutLength[..j] == cutLength;
  }

  /** sorted() of a set of strings. */
  method SortedSet(uniqueCuts: set<String>) returns (cuts: seq<String>)
    ensures StrictlySorted(cuts, LexLess)
    ensures Elems(cuts) == uniqueCuts
  {
    LexLessIsStrictTotalOrder();
    cuts := [];
    var rest := uniqueCuts;
    while rest != {}
      invariant StrictlySorted(cuts, LexLess)
      invariant Elems(cuts) + rest == uniqueCuts
      decreases |rest|
    {
      var x :| x in rest;
      InsertUniqueCorrect(cuts, x, LexLess);
      cuts := InsertUnique(cuts, x, LexLess);
      rest := rest - {x};
    }
  }

  /** pattern_scramble_telo: collect the cuts of the doubled motif into a set, then sort it. */
  method PatternScrambleTelo(pattern: String, cutLength: seq<int>) returns (cuts: seq<String>)
    ensures cuts == PatternScramble(pattern, cutLength)
  {
    var doubled := Upper(pattern + pattern);
    var uniqueCuts := CollectCuts(doubled, cutLength);
    cuts := SortedSet(uniqueCuts);
    LexLessIsStrictTotalOrder();
    SortUniqueCorrect(CutsInOrder(doubled, cutLength), LexLess);
    SortedUnique(cuts, PatternScramble(pattern, cutLength), LexLess);
  }

  // ---------------------------------------------------------------------------
  // patterns_to_search

  function UpperAll(xs: seq<String>): (r: seq<String>)
    ensures |r| == |xs|
  {
    seq(|xs|, i requires 0 <= i < |xs| => Upper(xs[i]))
  }

  function ComplementAll(xs: seq<String>): (r: seq<String>)
    ensures |r| == |xs|
  {
    seq(|xs|, i requires 0 <= i < |xs| => Complement(xs[i]))
  }

  function PatternsToSearch(telopattern: MotifInput, cutLength: int): PatternSet {
    match telopattern
    case Single(m) =>
      if '|' in m then Joined(Upper(m) + Upper(Complement(m)))
      else
        var origin := PatternScramble(m, [cutLength]);
        PatternList(UpperAll(origin + ComplementAll(origin)))
    case Many(items) => PatternList(UpperAll(items))
  }

  /**
   * A plain motif gives its k-mers followed by their base complements, in the
   * same order and without reversal; complementing the second half gives the
   * first half back.
   */
  lemma PlainMotifPatterns(m: String, k: int)
    requires '|' !in m
    ensures var origin := PatternScramble(m, [k]);
      var r := PatternsToSearch(Single(m), k);
      && r.PatternList?
      && |r.items| == 2 * |origin|
      && r.items[..|origin|] == origin
      && (forall i :: 0 <= i < |origin| ==> r.items[|origin| + i] == Complement(origin[i]))
      && (forall i :: 0 <= i < |origin| ==> Complement(r.items[|origin| + i]) == r.items[i])
  {
    var origin := PatternScramble(m, [k]);
    var both := origin + ComplementAll(origin);
    ScrambleUpper(m, [k]);
    ComplementAllUpper(origin);
    AllUpperAppend(origin, ComplementAll(origin));
    UpperAllOfUpper(both);
    assert PatternsToSearch(Single(m), k).items == both;
    assert both[..|origin|] == origin;
    forall i | 0 <= i < |origin| ensures Complement(both[|origin| + i]) == both[i] {
      ComplementInvolution(origin[i]);
    }
  }

  /** Every string in xs is already upper case. */
  predicate AllUpper(xs: seq<String>) {
    forall i :: 0 <= i < |xs| ==> IsUpper(xs[i])
  }

  lemma UpperAllOfUpper(xs: seq<String>)
    requires AllUpper(xs)
    ensures UpperAll(xs) == xs
  {
    forall i | 0 <= i < |xs| ensures UpperAll(xs)[i] == xs[i] {
      UpperOfUpper(xs[i]);
    }
  }

  lemma ComplementAllUpper(xs: seq<String>)
    requires forall c :: c in xs ==> IsUpper(c)
    ensures AllUpper(xs) && AllUpper(ComplementAll(xs))
  {
    forall i | 0 <= i < |xs| ensures IsUpper(xs[i]) && IsUpper(ComplementAll(xs)[i]) {
      assert xs[i] in xs;
      ComplementOfUpper(xs[i]);
    }
  }

  lemma AllUpperAppend(xs: seq<String>, ys: seq<String>)
    requires AllUpper(xs) && AllUpper(ys)
    ensures AllUpper(xs + ys)
  {
    forall i | 0 <= i < |xs + ys| ensures IsUpper((xs + ys)[i]) {
      if i >= |xs| { assert (xs + ys)[i] == ys[i - |xs|]; }
    }
  }

  /**
   * A motif containing "|" gives one string of length 2 * |m|: the upper-cased
   * motif, then its translation upper-cased. "|" and other non-ACGT characters
   * are kept, and a lower-case letter is upper-cased without being translated.
   */
  lemma JoinedMotifPattern(m: String, k: int)
    requires '|' in m
    ensures var r := PatternsToSearch(Single(m), k);
      && r.Joined?
      && |r.text| == 2 * |m|
      && r.text[..|m|] == Upper(m)
      && (forall i :: 0 <= i < |m| && m[i] in "ACGT" ==> r.text[|m| + i] == ComplementChar(m[i]))
      && (forall i :: 0 <= i < |m| && m[i] !in "ACGT" ==> r.text[|m| + i] == r.text[i])
  {
    var t := PatternsToSearch(Single(m), k).text;
    assert t == Upper(m) + Upper(Complement(m));
    forall i | 0 <= i < |m|
      ensures t[|m| + i] == UpperChar(ComplementChar(m[i])) && t[i] == UpperChar(m[i])
    {
    }
    forall i | 0 <= i < |m| ensures m[i] in "ACGT" ==> t[|m| + i] == ComplementChar(m[i])
      ensures m[i] !in "ACGT" ==> t[|m| + i] == t[i]
    {
      TranslateThenUpper(m[i]);
    }
  }

  /** Upper-casing after the translation: bases are complemented, other characters are only upper-cased. */
  lemma TranslateThenUpper(c: char)
    ensures c in "ACGT" ==> UpperChar(ComplementChar(c)) == ComplementChar(c)
    ensures c !in "ACGT" ==> UpperChar(ComplementChar(c)) == UpperChar(c)
  {
  }

  /** A list argument is only upper-cased, element by element. */
  lemma ListInputUppercased(items: seq<String>, k: int)
    ensures var r := PatternsToSearch(Many(items), k);
      r.PatternList? && |r.items| == |items| && forall i :: 0 <= i < |items| ==> r.items[i] == Upper(items[i])
  {
  }

  /** The strings the caller compiles: a joined string is walked character by character. */
  function SearchList(ps: PatternSet): (r: seq<String>)
    ensures ps.PatternList? ==> r == ps.items
    ensures ps.Joined? ==> |r| == |ps.text| && forall i :: 0 <= i < |r| ==> r[i] == [ps.text[i]]
  {
    match ps
    case PatternList(items) => items
    case Joined(t) => seq(|t|, i requires 0 <= i < |t| => [t[i]])
  }

  /** A pattern set handed back to patterns_to_search as its telopattern argument. */
  function AsMotifInput(ps: PatternSet): MotifInput {
    match ps
    case PatternList(items) => Many(items)
    case Joined(t) => Single(t)
  }

  /**
   * Expanding a plain motif a second time (as the boundary stage does with the
   * list it is handed) changes nothing, whatever cut length is passed along.
   */
  lemma ReexpandPlain(m: String, k: int, k2: int)
    requires '|' !in m
    ensures SearchList(PatternsToSearch(AsMotifInput(PatternsToSearch(Single(m), k)), k2))
         == SearchList(PatternsToSearch(Single(m), k))
  {
    var first := PatternsToSearch(Single(m), k);
    PlainMotifPatterns(m, k);
    var origin := PatternScramble(m, [k]);
    PatternScrambleSpec(m, [k]);
    forall i | 0 <= i < |first.items| ensures Upper(first.items[i]) == first.items[i] {
      if i < |origin| {
        assert first.items[i] == origin[i] && origin[i] in origin;
        UpperOfUpper(origin[i]);
      } else {
        assert origin[i - |origin|] in origin;
        ComplementOfUpper(origin[i - |origin|]);
        UpperOfUpper(Complement(origin[i - |origin|]));
      }
    }
  }

  /**
   * Expanding a "|" motif a second time goes through the "|" branch again, so
   * the boundary stage searches twice as many one-character patterns as the
   * scoring stage.
   */
  lemma ReexpandJoined(m: String, k: int, k2: int)
    requires '|' in m
    ensures |SearchList(PatternsToSearch(AsMotifInput(PatternsToSearch(Single(m), k)), k2))|
         == 2 * |SearchList(PatternsToSearch(Single(m), k))|
  {
    var t := PatternsToSearch(Single(m), k).text;
    var i :| 0 <= i < |m| && m[i] == '|';
    assert t[i] == '|';
  }

  /**
   * With a non-empty motif and a cut length of at most twice its length, both
   * the scoring stage and the boundary stage search at least one pattern.
   */
  lemma SearchListNonEmpty(m: String, k: int, k2: int)
    requires |m| > 0 && k <= 2 * |m|
    ensures |SearchList(PatternsToSearch(Single(m), k))| > 0
    ensures |SearchList(PatternsToSearch(AsMotifInput(PatternsToSearch(Single(m), k)), k2))| > 0
  {
    if '|' in m {
      ReexpandJoined(m, k, k2);
    } else {
      var d := Upper(m + m);
      PatternScrambleSpec(m, [k]);
      assert IsCut(d, [k], Cut(d, 0, k)) by { assert [k][0] == k; }
      ReexpandPlain(m, k, k2);
    }
  }

  lemma HumanDoubled()
    ensures Upper("TTAGGG" + "TTAGGG") == "TTAGGGTTAGGG"
  {
    assert "TTAGGG" + "TTAGGG" == "TTAGGGTTAGGG";
  }

  /** The nine 4-mer cuts of the doubled human motif, in loop order. */
  lemma HumanCuts()
    ensures CutsInOrder("TTAGGGTTAGGG", [4])
         == ["TTAG", "TAGG", "AGGG", "GGGT", "GGTT", "GTTA", "TTAG", "TAGG", "AGGG"]
  {
    var d := "TTAGGGTTAGGG";
    var cuts := CutsInOrder(d, [4]);
    assert [4][..0] == [] && [4][0] == 4 && Positions(d, 4) == 9;
    assert CutsInOrder(d, [4][..0]) == [];
    assert cuts == CutsOfLength(d, 4, 9);
    forall i | 0 <= i < 9 ensures cuts[i] == d[i..i + 4] { }
    assert d[0..4] == "TTAG";
    assert d[1..5] == "TAGG";
    assert d[2..6] == "AGGG";
    assert d[3..7] == "GGGT";
    assert d[4..8] == "GGTT";
    assert d[5..9] == "GTTA";
    assert d[6..10] == "TTAG";
    assert d[7..11] == "TAGG";
    assert d[8..12] == "AGGG";
  }

  lemma HumanSorted()
    ensures StrictlySorted(["AGGG", "GGGT", "GGTT", "GTTA", "TAGG", "TTAG"], LexLess)
  {
    var expected := ["AGGG", "GGGT", "GGTT", "GTTA", "TAGG", "TTAG"];
    LexLessIsStrictTotalOrder();
    assert LexLess("GGGT", "GGTT") && LexLess("GGTT", "GTTA") && LexLess("TAGG", "TTAG");
    ChainSorted(expected, LexLess);
  }

  lemma HumanElems()
    ensures Elems(["TTAG", "TAGG", "AGGG", "GGGT", "GGTT", "GTTA", "TTAG", "TAGG", "AGGG"])
         == Elems(["AGGG", "GGGT", "GGTT", "GTTA", "TAGG", "TTAG"])
  {
  }

  /** The 4-mers of the human motif TTAGGG: one per rotation, in sorted order. */
  lemma HumanMotifScramble()
    ensures PatternScramble("TTAGGG", [4]) == ["AGGG", "GGGT", "GGTT", "GTTA", "TAGG", "TTAG"]
  {
    HumanDoubled();
    HumanCuts();
    HumanElems();
    HumanSorted();
    LexLessIsStrictTotalOrder();
    SortUniqueCorrect(CutsInOrder("TTAGGGTTAGGG", [4]), LexLess);
    SortedUnique(PatternScramble("TTAGGG", [4]), ["AGGG", "GGGT", "GGTT", "GTTA", "TAGG", "TTAG"], LexLess);
  }

  lemma HumanComplements()
    ensures ComplementAll(["AGGG", "GGGT", "GGTT", "GTTA", "TAGG", "TTAG"])
         == ["TCCC", "CCCA", "CCAA", "CAAT", "ATCC", "AATC"]
  {
    assert Complement("AGGG") == "TCCC" && Complement("GGGT") == "CCCA" && Complement("GGTT") == "CCAA";
    assert Complement("GTTA") == "CAAT" && Complement("TAGG") == "ATCC" && Complement("TTAG") == "AATC";
  }

  /** With k = 4 the human motif gives those six 4-mers followed by their six complements. */
  lemma HumanMotifScenario()
    ensures PatternsToSearch(Single("TTAGGG"), 4)
         == PatternList(["AGGG", "GGGT", "GGTT", "GTTA", "TAGG", "TTAG",
                         "TCCC", "CCCA", "CCAA", "CAAT", "ATCC", "AATC"])
  {
    var origin := ["AGGG", "GGGT", "GGTT", "GTTA", "TAGG", "TTAG"];
    HumanMotifScramble();
    HumanComplements();
    ScrambleUpper("TTAGGG", [4]);
    ComplementAllUpper(origin);
    AllUpperAppend(origin, ComplementAll(origin));
    UpperAllOfUpper(origin + ComplementAll(origin));
  }
}
