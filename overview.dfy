/// The data behind the overview plot (Topsicle/descriptive_plot.py,
/// descriptive_plot). Each read longer than the minimum length gets one
/// line: the match starts of the motif and of its complement in the read's
/// first bases, and in its last bases read backwards. The drawing itself is
/// not modelled; the pattern functions this file repeats are those of
/// module Patterns.
module Overview {
  import opened Text
  import opened Matching
  import opened Patterns
  import Trc

  /** One plotted read: its name, its line on the y axis, and the match starts of each pattern at both ends. */
  datatype OverviewRow = OverviewRow(name: String, line: int, startMatches: seq<seq<nat>>, endMatches: seq<seq<nat>>)

  /** The two patterns searched: the motif upper-cased, and its translation upper-cased, not reversed. */
  function OverviewPatterns(pattern: String): seq<String> {
    [Upper(pattern), Upper(Complement(pattern))]
  }

  /**
   * The overview searches exactly two patterns of the motif's length: the
   * upper-cased motif, and its complement with non-base characters (and
   * lower-case bases, which the table does not translate) only upper-cased.
   * Together they are the string patterns_to_search builds for a motif
   * containing "|".
   */
  lemma OverviewPatternsSpec(pattern: String, k: int)
    ensures var r := OverviewPatterns(pattern);
      && |r| == 2 && r[0] == Upper(pattern) && |r[1]| == |pattern|
      && (forall i :: 0 <= i < |pattern| && pattern[i] in "ACGT" ==> r[1][i] == ComplementChar(pattern[i]))
      && (forall i :: 0 <= i < |pattern| && pattern[i] !in "ACGT" ==> r[1][i] == UpperChar(pattern[i]))
      && ('|' in pattern ==> PatternsToSearch(Single(pattern), k) == Joined(r[0] + r[1]))
  {
    forall i | 0 <= i < |pattern| {
      TranslateThenUpper(pattern[i]);
    }
  }

  /** For an upper-case motif the second pattern is the complement of the first, and complementing it again gives the first. */
  lemma OverviewPairOfUpper(pattern: String)
    requires IsUpper(pattern)
    ensures var r := OverviewPatterns(pattern);
      r[1] == Complement(r[0]) && Complement(r[1]) == r[0]
  {
    UpperOfUpper(pattern);
    ComplementOfUpper(pattern);
    UpperOfUpper(Complement(pattern));
    ComplementInvolution(pattern);
  }

  /** seq: the first minSeqLength bases, upper-cased. */
  function HeadTail(read: Trc.Read, minSeqLength: int): String {
    Upper(PySlice(read.sequence, 0, minSeqLength))
  }

  /** seq_2: the read reversed (not complemented), cut to minSeqLength, upper-cased. */
  function ReversedTail(read: Trc.Read, minSeqLength: int): String {
    Upper(PySlice(Text.Reverse(read.sequence), 0, minSeqLength))
  }

  /** The match starts of every pattern in a text. */
  function AllMatchStarts(text: String, patterns: seq<String>): (r: seq<seq<nat>>)
    ensures |r| == |patterns|
  {
    seq(|patterns|, i requires 0 <= i < |patterns| => MatchStarts(text, patterns[i]))
  }

  /** The line of one plotted read. */
  function ReadRow(read: Trc.Read, pattern: String, minSeqLength: int, line: int): OverviewRow {
    var patterns := OverviewPatterns(pattern);
    OverviewRow(read.name, line, AllMatchStarts(HeadTail(read, minSeqLength), patterns),
                AllMatchStarts(ReversedTail(read, minSeqLength), patterns))
  }

  /** The reads longer than minSeqLength, in file order. */
  function Passing(records: seq<Trc.Read>, minSeqLength: int): seq<Trc.Read> {
    if records == [] then []
    else
      var last := records[|records| - 1];
      Passing(records[..|records| - 1], minSeqLength) + (if |last.sequence| > minSeqLength then [last] else [])
  }

  /** The lines of some plotted reads, two apart from 0. */
  function RowsOf(plotted: seq<Trc.Read>, pattern: String, minSeqLength: int): (r: seq<OverviewRow>)
    ensures |r| == |plotted|
  {
    seq(|plotted|, i requires 0 <= i < |plotted| => ReadRow(plotted[i], pattern, minSeqLength, 2 * i))
  }

  /** The lines of the first `cap` passing reads. */
  function OverviewRows(records: seq<Trc.Read>, pattern: String, minSeqLength: int, cap: nat): (r: seq<OverviewRow>) {
    var plotted := Passing(records, minSeqLength);
    RowsOf(if |plotted| < cap then plotted else plotted[..cap], pattern, minSeqLength)
  }

  /** Every passing read is longer than minSeqLength and comes from the file; the passing reads of a prefix are a prefix. */
  lemma {:induction false} PassingSpec(records: seq<Trc.Read>, minSeqLength: int, n: nat)
    requires n <= |records|
    ensures forall r :: r in Passing(records, minSeqLength) ==> r in records && |r.sequence| > minSeqLength
    ensures Passing(records[..n], minSeqLength) <= Passing(records, minSeqLength)
    decreases |records|
  {
    if records != [] {
      var init := records[..|records| - 1];
      if n < |records| {
        PassingSpec(init, minSeqLength, n);
        assert init[..n] == records[..n];
      } else {
        PassingSpec(init, minSeqLength, 0);
        assert records[..n] == records;
      }
    }
  }

  /**
   * The overview has one line per passing read, up to `cap` of them, in file
   * order, at heights 0, 2, 4, ...; each line holds the match starts of the
   * two patterns in the read's head and in its reversed tail.
   */
  lemma OverviewRowsSpec(records: seq<Trc.Read>, pattern: String, minSeqLength: int, cap: nat)
    ensures var rows := OverviewRows(records, pattern, minSeqLength, cap);
      var plotted := Passing(records, minSeqLength);
      && |rows| <= cap
      && |rows| == (if |plotted| < cap then |plotted| else cap)
      && forall i :: 0 <= i < |rows| ==>
           && plotted[i] in records && |plotted[i].sequence| > minSeqLength
           && rows[i].name == plotted[i].name && rows[i].line == 2 * i
           && rows[i].startMatches == AllMatchStarts(HeadTail(plotted[i], minSeqLength), OverviewPatterns(pattern))
           && rows[i].endMatches == AllMatchStarts(ReversedTail(plotted[i], minSeqLength), OverviewPatterns(pattern))
  {
    PassingSpec(records, minSeqLength, 0);
  }

  /**
   * The head is the first minSeqLength bases and the other tail the read
   * reversed and cut to minSeqLength, both of exactly that length when the
   * read is longer.
   */
  lemma TailsOfPassingRead(read: Trc.Read, minSeqLength: int)
    requires 0 <= minSeqLength < |read.sequence|
    ensures HeadTail(read, minSeqLength) == Upper(read.sequence[..minSeqLength])
    ensures ReversedTail(read, minSeqLength) == Upper(Text.Reverse(read.sequence)[..minSeqLength])
    ensures |HeadTail(read, minSeqLength)| == |ReversedTail(read, minSeqLength)| == minSeqLength
  {
  }

  /** One more plotted read adds its line at the next height. */
  lemma RowsAppend(plotted: seq<Trc.Read>, read: Trc.Read, pattern: String, minSeqLength: int)
    ensures RowsOf(plotted + [read], pattern, minSeqLength)
         == RowsOf(plotted, pattern, minSeqLength) + [ReadRow(read, pattern, minSeqLength, 2 * |plotted|)]
  {
  }

  /** Once the reads of a prefix fill the cap, the overview is their lines. */
  lemma CapReached(records: seq<Trc.Read>, pattern: String, minSeqLength: int, cap: nat, n: nat)
    requires n <= |records| && |Passing(records[..n], minSeqLength)| == cap
    ensures OverviewRows(records, pattern, minSeqLength, cap) == RowsOf(Passing(records[..n], minSeqLength), pattern, minSeqLength)
  {
    PassingSpec(records, minSeqLength, n);
    var plotted := Passing(records, minSeqLength);
    assert plotted[..cap] == Passing(records[..n], minSeqLength);
  }

  /**
   * The overview loop as written: it stops once the count of plotted reads
   * is above `limit`; the source's limit is 40.
   */
  method PlotLoop(records: seq<Trc.Read>, pattern: String, minSeqLength: int, limit: nat) returns (rows: seq<OverviewRow>)
    ensures rows == OverviewRows(records, pattern, minSeqLength, limit + 1)
  {
    var kLine := 0;
    var iin := 0;
    rows := [];
    for n := 0 to |records|
      invariant iin == |Passing(records[..n], minSeqLength)| <= limit
      invariant kLine == 2 * iin
      invariant rows == RowsOf(Passing(records[..n], minSeqLength), pattern, minSeqLength)
    {
      var read := records[n];
      ghost var before := Passing(records[..n], minSeqLength);
      assert records[..n + 1][..n] == records[..n] && records[..n + 1][n] == read;
      if |read.sequence| > minSeqLength {
        iin := iin + 1;
        var row := ReadRow(read, pattern, minSeqLength, kLine);
        RowsAppend(before, read, pattern, minSeqLength);
        rows := rows + [row];
        kLine := kLine + 2;
      }
      if iin > limit {
        CapReached(records, pattern, minSeqLength, limit + 1, n + 1);
        return;
      }
    }
    assert records[..|records|] == records;
  }

  /** descriptive_plot as written: the check `iin > 40` lets 41 reads through. */
  method DescriptivePlotAsWritten(records: seq<Trc.Read>, pattern: String, minSeqLength: int) returns (rows: seq<OverviewRow>)
    ensures rows == OverviewRows(records, pattern, minSeqLength, 41)
  {
    rows := PlotLoop(records, pattern, minSeqLength, 40);
  }

  /** descriptive_plot with the cap its message announces: at most 40 reads. */
  method DescriptivePlot(records: seq<Trc.Read>, pattern: String, minSeqLength: int) returns (rows: seq<OverviewRow>)
    ensures rows == OverviewRows(records, pattern, minSeqLength, 40)
    ensures |rows| <= 40
  {
    rows := PlotLoop(records, pattern, minSeqLength, 39);
    OverviewRowsSpec(records, pattern, minSeqLength, 40);
  }

  /**
   * With 41 reads longer than the minimum the as-written overview plots all
   * 41, although its message says the plot keeps 40; the corrected one
   * plots the first 40.
   */
  lemma FortyOneReadsPlotted(records: seq<Trc.Read>, pattern: String, minSeqLength: int)
    requires |Passing(records, minSeqLength)| == 41
    ensures |OverviewRows(records, pattern, minSeqLength, 41)| == 41
    ensures OverviewRows(records, pattern, minSeqLength, 40) == OverviewRows(records, pattern, minSeqLength, 41)[..40]
  {
  }
}
