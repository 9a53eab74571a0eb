/// Telomere-like repeat count scoring (Topsicle/allsteps.py, patternTRC_count).
/// Each read longer than the minimum length is scored on its first noBp
/// bases and on its last noBp bases read backwards: for every search pattern,
/// the number of matches divided by the number a perfect repeat would give.
module Trc {
  import opened Text
  import opened Wrappers
  import opened Matching
  import opened Patterns

  /** One sequencing read: its identifier, its description line and its bases. */
  datatype Read = Read(id: String, name: String, sequence: String)

  /** Which end of the read a score belongs to: the start, or the end read backwards. */
  datatype Strand = Forward | Reverse

  /** One row of the scoring stage's output: read id, pattern, strand, TRC. */
  datatype TrcHit = TrcHit(id: String, pattern: String, strand: Strand, trc: real)

  /** The Python exceptions a scored read can raise. */
  datatype ScoreError =
    | ZeroDivision  // a motif of length 0, or noBp == 0 with at least one pattern
    | EmptyMax      // max() over an empty pattern list

  /** len(telopattern): characters of a string motif, items of a list motif. */
  function MotifLength(m: MotifInput): nat {
    match m
    case Single(t) => |t|
    case Many(items) => |items|
  }

  /** matches / (no_bp / len(telopattern)), in exact arithmetic. */
  function Trc(count: nat, noBp: int, motifLen: nat): real
    requires noBp != 0 && motifLen > 0
  {
    count as real / (noBp as real / motifLen as real)
  }

  /** seq[:no_bp].upper() */
  function HeadText(s: String, noBp: int): String {
    Upper(PySlice(s, 0, noBp))
  }

  /** seq[-no_bp:][::-1].upper() */
  function EndText(s: String, noBp: int): String {
    Upper(Text.Reverse(PySlice(s, -noBp, |s|)))
  }

  /** The TRC of every pattern on one strand's text, in pattern order. */
  function StrandScores(text: String, patterns: seq<String>, noBp: int, motifLen: nat): seq<real>
    requires noBp != 0 && motifLen > 0
  {
    seq(|patterns|, i requires 0 <= i < |patterns| => Trc(MatchCount(text, patterns[i]), noBp, motifLen))
  }

  /** max(rows, key=...) returns the first row with the largest key. */
  function FirstMaxIndex(xs: seq<real>): (r: nat)
    requires |xs| > 0
    ensures r < |xs|
    ensures forall j :: 0 <= j < |xs| ==> xs[j] <= xs[r]
    ensures forall j :: 0 <= j < r ==> xs[j] < xs[r]
  {
    if |xs| == 1 then 0
    else
      var m := FirstMaxIndex(xs[..|xs| - 1]);
      if xs[|xs| - 1] > xs[m] then |xs| - 1 else m
  }

  /** The read is long enough to be scored. */
  predicate Passes(read: Read, readLength: int) {
    |read.sequence| > readLength
  }

  /** No score of either list exceeds t. */
  predicate AllAtMost(fwd: seq<real>, rev: seq<real>, t: real) {
    (forall i :: 0 <= i < |fwd| ==> fwd[i] <= t) && (forall i :: 0 <= i < |rev| ==> rev[i] <= t)
  }

  /**
   * h is the row the source reports, given the per-pattern scores of both
   * strands: the best score over both, forward only when it beats every
   * reverse score, and on its strand the first pattern reaching that score.
   */
  predicate IsBestHit(id: String, patterns: seq<String>, fwd: seq<real>, rev: seq<real>, h: TrcHit)
    requires |fwd| == |rev| == |patterns|
  {
    var scores := if h.strand == Forward then fwd else rev;
    && h.id == id
    && AllAtMost(fwd, rev, h.trc)
    && (h.strand == Forward <==> forall i :: 0 <= i < |rev| ==> rev[i] < h.trc)
    && exists i :: 0 <= i < |patterns| && h.pattern == patterns[i] && scores[i] == h.trc
         && forall j :: 0 <= j < i ==> scores[j] < h.trc
  }

  /** The comparison of the two strands' maxima and the cutoff test. */
  function PickHit(id: String, patterns: seq<String>, fwd: seq<real>, rev: seq<real>, cutoff: real): Option<TrcHit>
    requires 0 < |fwd| == |rev| == |patterns|
  {
    var f := FirstMaxIndex(fwd);
    var b := FirstMaxIndex(rev);
    if fwd[f] > rev[b] then
      (if fwd[f] > cutoff then Some(TrcHit(id, patterns[f], Forward, fwd[f])) else None)
    else
      (if rev[b] > cutoff then Some(TrcHit(id, patterns[b], Reverse, rev[b])) else None)
  }

  /** A row is reported exactly when some score exceeds the cutoff, and it is the best hit. */
  lemma PickHitSpec(id: String, patterns: seq<String>, fwd: seq<real>, rev: seq<real>, cutoff: real)
    requires 0 < |fwd| == |rev| == |patterns|
    ensures PickHit(id, patterns, fwd, rev, cutoff).None? <==> AllAtMost(fwd, rev, cutoff)
    ensures PickHit(id, patterns, fwd, rev, cutoff).Some? ==>
      PickHit(id, patterns, fwd, rev, cutoff).value.trc > cutoff
      && IsBestHit(id, patterns, fwd, rev, PickHit(id, patterns, fwd, rev, cutoff).value)
  {
    var f := FirstMaxIndex(fwd);
    var b := FirstMaxIndex(rev);
    var r := PickHit(id, patterns, fwd, rev, cutoff);
    if fwd[f] > rev[b] {
      assert AllAtMost(fwd, rev, fwd[f]);
      if r.Some? {
        assert IsBestHit(id, patterns, fwd, rev, r.value);
      }
    } else {
      assert AllAtMost(fwd, rev, rev[b]);
      if r.Some? {
        assert IsBestHit(id, patterns, fwd, rev, r.value);
      }
    }
  }

  /** Score one read, raising as the source does (see ScoreReadSpec). */
  function ScoreRead(read: Read, patterns: seq<String>, readLength: int, noBp: int, motifLen: nat, cutoff: real)
    : Result<Option<TrcHit>, ScoreError>
  {
    if !Passes(read, readLength) then Ok(None)
    else if motifLen == 0 then Err(ZeroDivision)
    else if |patterns| > 0 && noBp == 0 then Err(ZeroDivision)
    else if |patterns| == 0 then Err(EmptyMax)
    else
      Ok(PickHit(read.id, patterns, StrandScores(HeadText(read.sequence, noBp), patterns, noBp, motifLen),
                 StrandScores(EndText(read.sequence, noBp), patterns, noBp, motifLen), cutoff))
  }

  /**
   * A read too short is skipped; a scored read raises exactly when the motif
   * is empty, noBp is 0 or there is no pattern; otherwise it is reported
   * exactly when some pattern scores above the cutoff on some strand, and the
   * row reported is the best hit (a tie between strands goes to reverse).
   */
  lemma ScoreReadSpec(read: Read, patterns: seq<String>, readLength: int, noBp: int, motifLen: nat, cutoff: real)
    ensures var r := ScoreRead(read, patterns, readLength, noBp, motifLen, cutoff);
      && (!Passes(read, readLength) ==> r == Ok(None))
      && (Passes(read, readLength) ==> (r.Err? <==> motifLen == 0 || noBp == 0 || |patterns| == 0))
      && (r.Ok? && Passes(read, readLength) ==>
            noBp != 0 && motifLen > 0
            && (r.value.None? <==> AllAtMost(StrandScores(HeadText(read.sequence, noBp), patterns, noBp, motifLen),
                                             StrandScores(EndText(read.sequence, noBp), patterns, noBp, motifLen), cutoff)))
      && (r.Ok? && r.value.Some? ==>
            Passes(read, readLength) && noBp != 0 && motifLen > 0 && r.value.value.trc > cutoff
            && IsBestHit(read.id, patterns, StrandScores(HeadText(read.sequence, noBp), patterns, noBp, motifLen),
                         StrandScores(EndText(read.sequence, noBp), patterns, noBp, motifLen), r.value.value))
  {
    if Passes(read, readLength) && motifLen > 0 && noBp != 0 && |patterns| > 0 {
      PickHitSpec(read.id, patterns, StrandScores(HeadText(read.sequence, noBp), patterns, noBp, motifLen),
                  StrandScores(EndText(read.sequence, noBp), patterns, noBp, motifLen), cutoff);
    }
  }

  /** The hits of a list of records, in read order; the first read that raises stops the stage. */
  function TrcHits(records: seq<Read>, patterns: seq<String>, readLength: int, noBp: int, motifLen: nat, cutoff: real)
    : Result<seq<TrcHit>, ScoreError>
  {
    if |records| == 0 then Ok([])
    else
      match TrcHits(records[..|records| - 1], patterns, readLength, noBp, motifLen, cutoff)
      case Err(e) => Err(e)
      case Ok(hits) =>
        match ScoreRead(records[|records| - 1], patterns, readLength, noBp, motifLen, cutoff)
        case Err(e) => Err(e)
        case Ok(None) => Ok(hits)
        case Ok(Some(h)) => Ok(hits + [h])
  }

  /**
   * The stage raises exactly when some read raises; otherwise it reports at
   * most one row per read, each for a read that passed the length filter and
   * above the cutoff.
   */
  lemma {:induction false} TrcHitsSpec(records: seq<Read>, patterns: seq<String>, readLength: int, noBp: int, motifLen: nat, cutoff: real)
    ensures var r := TrcHits(records, patterns, readLength, noBp, motifLen, cutoff);
      && (r.Err? <==> exists i :: 0 <= i < |records| && ScoreRead(records[i], patterns, readLength, noBp, motifLen, cutoff).Err?)
      && (r.Ok? ==> |r.value| <= |records|)
      && (r.Ok? ==> forall h :: h in r.value ==>
            h.trc > cutoff && exists i :: 0 <= i < |records| && records[i].id == h.id && Passes(records[i], readLength))

  {
    if |records| > 0 {
      var init, last := records[..|records| - 1], records[|records| - 1];
      TrcHitsSpec(init, patterns, readLength, noBp, motifLen, cutoff);
      ScoreReadSpec(last, patterns, readLength, noBp, motifLen, cutoff);
      assert forall i :: 0 <= i < |init| ==> init[i] == records[i];
      var r := TrcHits(records, patterns, readLength, noBp, motifLen, cutoff);
      if r.Ok? {
        var hits := TrcHits(init, patterns, readLength, noBp, motifLen, cutoff).value;
        forall h | h in r.value
          ensures h.trc > cutoff && exists i :: 0 <= i < |records| && records[i].id == h.id && Passes(records[i], readLength)
        {
          if h !in hits {
            assert records[|records| - 1].id == h.id;
          } else {
            var i :| 0 <= i < |init| && init[i].id == h.id && Passes(init[i], readLength);
            assert records[i] == init[i];
          }
        }
      }
    }
  }

  /** The row a single read reports is among the stage's rows. */
  lemma {:induction false} TrcHitsHas(records: seq<Read>, i: nat, patterns: seq<String>, readLength: int, noBp: int, motifLen: nat, cutoff: real)
    requires i < |records|
    requires TrcHits(records, patterns, readLength, noBp, motifLen, cutoff).Ok?
    requires ScoreRead(records[i], patterns, readLength, noBp, motifLen, cutoff) != Ok(None)
    ensures ScoreRead(records[i], patterns, readLength, noBp, motifLen, cutoff).Ok?
    ensures ScoreRead(records[i], patterns, readLength, noBp, motifLen, cutoff).value.value
              in TrcHits(records, patterns, readLength, noBp, motifLen, cutoff).value
    decreases |records|
  {
    var init, last := records[..|records| - 1], records[|records| - 1];
    var r := TrcHits(records, patterns, readLength, noBp, motifLen, cutoff);
    var hits := TrcHits(init, patterns, readLength, noBp, motifLen, cutoff);
    var sc := ScoreRead(last, patterns, readLength, noBp, motifLen, cutoff);
    assert hits.Ok? && sc.Ok?;
    assert hits.value <= r.value by {
      if sc.value.Some? {
        assert r.value == hits.value + [sc.value.value];
      } else {
        assert r.value == hits.value;
      }
    }
    if i < |init| {
      assert init[i] == records[i];
      TrcHitsHas(init, i, patterns, readLength, noBp, motifLen, cutoff);
    } else {
      assert records[i] == last;
      assert r.value == hits.value + [sc.value.value];
    }
  }

  /** Every read that reports a row contributes it: the stage drops no hit. */
  lemma TrcHitsComplete(records: seq<Read>, patterns: seq<String>, readLength: int, noBp: int, motifLen: nat, cutoff: real)
    ensures var r := TrcHits(records, patterns, readLength, noBp, motifLen, cutoff);
      r.Ok? ==> forall i :: 0 <= i < |records| && ScoreRead(records[i], patterns, readLength, noBp, motifLen, cutoff).Ok?
                            && ScoreRead(records[i], patterns, readLength, noBp, motifLen, cutoff).value.Some? ==>
                  ScoreRead(records[i], patterns, readLength, noBp, motifLen, cutoff).value.value in r.value
  {
    if TrcHits(records, patterns, readLength, noBp, motifLen, cutoff).Ok? {
      forall i | 0 <= i < |records| && ScoreRead(records[i], patterns, readLength, noBp, motifLen, cutoff).Ok?
                 && ScoreRead(records[i], patterns, readLength, noBp, motifLen, cutoff).value.Some?
        ensures ScoreRead(records[i], patterns, readLength, noBp, motifLen, cutoff).value.value
                  in TrcHits(records, patterns, readLength, noBp, motifLen, cutoff).value
      {
        TrcHitsHas(records, i, patterns, readLength, noBp, motifLen, cutoff);
      }
    }
  }

  /**
   * The stage over two runs of records is the stage over the first followed
   * by the stage over the second: hits come in read order, and the first
   * read that raises decides the error.
   */
  lemma {:induction false} TrcHitsAppend(a: seq<Read>, b: seq<Read>, patterns: seq<String>, readLength: int, noBp: int, motifLen: nat, cutoff: real)
    ensures var ra := TrcHits(a, patterns, readLength, noBp, motifLen, cutoff);
      var rb := TrcHits(b, patterns, readLength, noBp, motifLen, cutoff);
      TrcHits(a + b, patterns, readLength, noBp, motifLen, cutoff)
        == if ra.Err? then ra else if rb.Err? then rb else Ok(ra.value + rb.value)
    decreases |b|
  {
    if b == [] {
      assert a + b == a;
      var ra := TrcHits(a, patterns, readLength, noBp, motifLen, cutoff);
      assert TrcHits(b, patterns, readLength, noBp, motifLen, cutoff) == Ok([]);
      assert ra.Ok? ==> ra.value + [] == ra.value;
    } else {
      var init, last := b[..|b| - 1], b[|b| - 1];
      assert (a + b)[..|a + b| - 1] == a + init && (a + b)[|a + b| - 1] == last;
      TrcHitsAppend(a, init, patterns, readLength, noBp, motifLen, cutoff);
      var ra := TrcHits(a, patterns, readLength, noBp, motifLen, cutoff);
      var ri := TrcHits(init, patterns, readLength, noBp, motifLen, cutoff);
      var rb := TrcHits(b, patterns, readLength, noBp, motifLen, cutoff);
      var both := TrcHits(a + b, patterns, readLength, noBp, motifLen, cutoff);
      var sc := ScoreRead(last, patterns, readLength, noBp, motifLen, cutoff);
      if ra.Err? {
        assert both == ra;
      } else if ri.Err? {
        assert rb == ri && both == ri;
      } else if sc.Err? {
        assert rb == Err(sc.error) && both == Err(sc.error);
      } else if sc.value.None? {
        assert rb == ri && both == Ok(ra.value + ri.value);
      } else {
        assert rb == Ok(ri.value + [sc.value.value]);
        assert both == Ok(ra.value + ri.value + [sc.value.value]);
        assert ra.value + ri.value + [sc.value.value] == ra.value + (ri.value + [sc.value.value]);
      }
    }
  }

  /** Once a prefix of the records raises, the whole stage raises that error. */
  lemma {:induction false} TrcHitsErrorPersists(records: seq<Read>, n: nat, patterns: seq<String>, readLength: int, noBp: int, motifLen: nat, cutoff: real)
    requires n <= |records|
    requires TrcHits(records[..n], patterns, readLength, noBp, motifLen, cutoff).Err?
    ensures TrcHits(records, patterns, readLength, noBp, motifLen, cutoff) == TrcHits(records[..n], patterns, readLength, noBp, motifLen, cutoff)
    decreases |records| - n
  {
    if n < |records| {
      assert records[..n + 1][..n] == records[..n];
      TrcHitsErrorPersists(records, n + 1, patterns, readLength, noBp, motifLen, cutoff);
    } else {
      assert records[..n] == records;
    }
  }

  /** The loop over the compiled patterns: each pattern's TRC at the start and at the end. */
  method CountPatterns(seqStart: String, seqEnd: String, patterns: seq<String>, noBp: int, motifLen: nat)
    returns (forward: seq<real>, reverse: seq<real>)
    requires noBp != 0 && motifLen > 0
    ensures forward == StrandScores(seqStart, patterns, noBp, motifLen)
    ensures reverse == StrandScores(seqEnd, patterns, noBp, motifLen)
  {
    forward, reverse := [], [];
    for i := 0 to |patterns|
      invariant |forward| == i && |reverse| == i
      invariant forward == StrandScores(seqStart, patterns[..i], noBp, motifLen)
      invariant reverse == StrandScores(seqEnd, patterns[..i], noBp, motifLen)
    {
      var matchesStart := MatchCount(seqStart, patterns[i]);
      var matchesEnd := MatchCount(seqEnd, patterns[i]);
      forward := forward + [Trc(matchesStart, noBp, motifLen)];
      reverse := reverse + [Trc(matchesEnd, noBp, motifLen)];
      StrandScoresAppend(seqStart, patterns, i, noBp, motifLen);
      StrandScoresAppend(seqEnd, patterns, i, noBp, motifLen);
    }
    assert patterns[..|patterns|] == patterns;
  }

  lemma StrandScoresAppend(text: String, patterns: seq<String>, i: nat, noBp: int, motifLen: nat)
    requires noBp != 0 && motifLen > 0 && i < |patterns|
    ensures StrandScores(text, patterns[..i + 1], noBp, motifLen)
         == StrandScores(text, patterns[..i], noBp, motifLen) + [Trc(MatchCount(text, patterns[i]), noBp, motifLen)]
  {
  }

  /**
   * The body of patternTRC_count's loop for one read. The division by zero
   * that the source raises at the first pattern when noBp is 0 is checked
   * before the pattern loop, with the same outcome.
   */
  method ScoreOne(read: Read, patterns: seq<String>, readLength: int, noBp: int, motifLen: nat, cutoff: real)
    returns (r: Result<Option<TrcHit>, ScoreError>)
    ensures r == ScoreRead(read, patterns, readLength, noBp, motifLen, cutoff)
  {
    if |read.sequence| <= readLength {
      return Ok(None);
    }
    if motifLen == 0 || (|patterns| > 0 && noBp == 0) {
      return Err(ZeroDivision);
    }
    if |patterns| == 0 {
      return Err(EmptyMax);
    }
    var seqStart := HeadText(read.sequence, noBp);
    var seqEnd := EndText(read.sequence, noBp);
    var forward, reverse := CountPatterns(seqStart, seqEnd, patterns, noBp, motifLen);
    return Ok(PickHit(read.id, patterns, forward, reverse, cutoff));
  }

  /** patternTRC_count over the reads of one file. */
  method PatternTrcCount(records: seq<Read>, telopattern: MotifInput, readLength: int, kmer: int, noBp: int, cutoff: real)
    returns (r: Result<seq<TrcHit>, ScoreError>)
    ensures r == TrcHits(records, SearchList(PatternsToSearch(telopattern, kmer)), readLength, noBp, MotifLength(telopattern), cutoff)
  {
    var patterns := SearchList(PatternsToSearch(telopattern, kmer));
    var motifLen := MotifLength(telopattern);
    var findMatch: seq<TrcHit> := [];
    var n := 0;
    while n < |records|
      invariant 0 <= n <= |records|
      invariant TrcHits(records[..n], patterns, readLength, noBp, motifLen, cutoff) == Ok(findMatch)
    {
      var row := ScoreOne(records[n], patterns, readLength, noBp, motifLen, cutoff);
      assert records[..n + 1][..n] == records[..n] && records[..n + 1][n] == records[n];
      match row {
        case Err(e) =>
          TrcHitsErrorPersists(records, n + 1, patterns, readLength, noBp, motifLen, cutoff);
          return Err(e);
        case Ok(None) =>
        case Ok(Some(h)) =>
          findMatch := findMatch + [h];
      }
      n := n + 1;
    }
    assert records[..n] == records;
    return Ok(findMatch);
  }
}
