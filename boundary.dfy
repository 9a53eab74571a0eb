/// Telomere boundary detection on one read (Topsicle/allsteps.py,
/// bound_detect and rawCountPattern). Each tail of the read is cut into
/// windows; a window's value is the mean over the search patterns of the
/// pattern's match count, with a count of 0 raised to 1. The changepoint
/// search on the profile is an input function: only the mapping of its
/// breakpoints back to positions and their classification are modelled.
module Boundary {
  import opened Text
  import opened Wrappers
  import opened Matching
  import opened Patterns
  import opened Windows
  import Trc

  /** The Python exceptions boundary detection can raise. */
  datatype BoundError =
    | ZeroDivision  // a window to score and no search pattern
    | IndexOutOfRange  // a breakpoint that is not an index of the profile

  /** One point of a tail's profile: the tail, the window start, the window mean. */
  datatype Point = Point(strand: Trc.Strand, start: int, mean: real)

  /** One recorded boundary: the read and the position, 0 when rejected. */
  datatype TeloBoundary = TeloBoundary(id: String, position: int)

  /** One row of rawCountPattern: tail, window start, pattern, floored count. */
  datatype RawRow = RawRow(strand: Trc.Strand, position: int, pattern: String, count: nat)

  /** The changepoint search: breakpoint indices into the profile it is given, the last one being its length. */
  type Changepoints = seq<real> -> seq<int>

  /** `n or 1` */
  function AtLeastOne(n: nat): nat {
    if n == 0 then 1 else n
  }

  function Sum(xs: seq<nat>): nat {
    if xs == [] then 0 else xs[0] + Sum(xs[1..])
  }

  /** The floored match count of every pattern in one window. */
  function WindowCounts(text: String, patterns: seq<String>): (r: seq<nat>)
    ensures |r| == |patterns|
    ensures forall j :: 0 <= j < |patterns| ==> r[j] == AtLeastOne(MatchCount(text, patterns[j]))
  {
    seq(|patterns|, j requires 0 <= j < |patterns| => AtLeastOne(MatchCount(text, patterns[j])))
  }

  /** sum(count_matches_read) / len(count_matches_read), in exact arithmetic. */
  function WindowMean(text: String, patterns: seq<String>): real
    requires |patterns| > 0
  {
    Sum(WindowCounts(text, patterns)) as real / |patterns| as real
  }

  /** A sum of positive counts is at least their number, with equality exactly when all are 1. */
  lemma {:induction false} SumOfPositives(xs: seq<nat>)
    requires forall i :: 0 <= i < |xs| ==> xs[i] >= 1
    ensures Sum(xs) >= |xs|
    ensures Sum(xs) == |xs| <==> forall i :: 0 <= i < |xs| ==> xs[i] == 1
  {
    if xs != [] {
      SumOfPositives(xs[1..]);
      assert forall i :: 1 <= i < |xs| ==> xs[i] == xs[1..][i - 1];
    }
  }

  /** A mean of n counts is at least 1 exactly when their sum is at least n, and 1 exactly when it is n. */
  lemma MeanAgainstOne(sum: nat, n: nat)
    requires n > 0
    ensures sum as real / n as real >= 1.0 <==> sum >= n
    ensures sum as real / n as real == 1.0 <==> sum == n
  {
    var m := sum as real / n as real;
    assert m * n as real == sum as real;
  }

  /**
   * A window's value is at least 1, and it is exactly 1 when no pattern
   * occurs more than once in the window (in particular when none occurs).
   */
  lemma WindowMeanSpec(text: String, patterns: seq<String>)
    requires |patterns| > 0
    ensures WindowMean(text, patterns) >= 1.0
    ensures WindowMean(text, patterns) == 1.0 <==> forall j :: 0 <= j < |patterns| ==> MatchCount(text, patterns[j]) <= 1
  {
    var counts := WindowCounts(text, patterns);
    SumOfPositives(counts);
    MeanAgainstOne(Sum(counts), |patterns|);
  }

  /** The profile of one tail's windows, or the division by zero the first window raises. */
  function Profile(windows: seq<Window>, patterns: seq<String>, strand: Trc.Strand): Result<seq<Point>, BoundError> {
    if |windows| > 0 && |patterns| == 0 then Err(ZeroDivision)
    else Ok(seq(|windows|, i requires 0 <= i < |windows| => Point(strand, windows[i].start, WindowMean(windows[i].text, patterns))))
  }

  /** The window loop building mean_s or mean_e. */
  method MeanProfile(windows: seq<Window>, patterns: seq<String>, strand: Trc.Strand) returns (r: Result<seq<Point>, BoundError>)
    ensures r == Profile(windows, patterns, strand)
  {
    var mean: seq<Point> := [];
    for i := 0 to |windows|
      invariant |mean| == i
      invariant i > 0 ==> |patterns| > 0
      invariant forall k :: 0 <= k < i ==> mean[k] == Point(strand, windows[k].start, WindowMean(windows[k].text, patterns))
    {
      var countMatchesRead := WindowCounts(windows[i].text, patterns);
      if |countMatchesRead| == 0 {
        return Err(ZeroDivision);
      }
      mean := mean + [Point(strand, windows[i].start, Sum(countMatchesRead) as real / |countMatchesRead| as real)];
    }
    assert |windows| > 0 ==> |patterns| > 0;
    ghost var expected := Profile(windows, patterns, strand);
    assert expected.Ok? && |expected.value| == |mean|;
    assert forall k :: 0 <= k < |mean| ==> expected.value[k] == mean[k];
    assert mean == expected.value;
    return Ok(mean);
  }

  /** The profile points whose position start + trimfirst does not pass maxlen. */
  function Kept(mean: seq<Point>, trimfirst: int, maxlen: int): (r: seq<Point>)
    ensures forall p :: p in r ==> p in mean && p.start + trimfirst <= maxlen
    ensures forall i :: 0 <= i < |mean| && mean[i].start + trimfirst <= maxlen ==> mean[i] in r
    ensures |r| <= |mean|
  {
    if mean == [] then []
    else (if mean[0].start + trimfirst <= maxlen then [mean[0]] else []) + Kept(mean[1..], trimfirst, maxlen)
  }

  /** Filtering a profile piece by piece keeps the pieces' kept points in profile order. */
  lemma {:induction false} KeptAppend(a: seq<Point>, b: seq<Point>, trimfirst: int, maxlen: int)
    ensures Kept(a + b, trimfirst, maxlen) == Kept(a, trimfirst, maxlen) + Kept(b, trimfirst, maxlen)
  {
    if a != [] {
      assert (a + b)[0] == a[0] && (a + b)[1..] == a[1..] + b;
      KeptAppend(a[1..], b, trimfirst, maxlen);
    } else {
      assert a + b == b;
    }
  }

  /** The positions x of the kept points. */
  function Positions(kept: seq<Point>, trimfirst: int): (r: seq<int>)
    ensures |r| == |kept|
  {
    seq(|kept|, i requires 0 <= i < |kept| => kept[i].start + trimfirst)
  }

  /** The values y of the kept points. */
  function Values(kept: seq<Point>): (r: seq<real>)
    ensures |r| == |kept|
  {
    seq(|kept|, i requires 0 <= i < |kept| => kept[i].mean)
  }

  /** cp is a valid Python index into a list of length n. */
  predicate ValidIndex(cp: int, n: nat) {
    -(n as int) <= cp < n
  }

  /** xs[cp] with Python's negative indices. */
  function PyIndex(xs: seq<int>, cp: int): int
    requires ValidIndex(cp, |xs|)
  {
    if cp < 0 then xs[cp + |xs|] else xs[cp]
  }

  /**
   * process_mean: the first breakpoint, mapped back to a position, is
   * recorded when it lies in (0, maxlen] and replaced by 0 otherwise;
   * nothing is recorded when the profile, the kept points or the
   * breakpoints are empty.
   */
  function ProcessMean(mean: seq<Point>, trimfirst: int, maxlen: int, changepoints: Changepoints): Result<Option<int>, BoundError> {
    if mean == [] then Ok(None)
    else
      var kept := Kept(mean, trimfirst, maxlen);
      if kept == [] then Ok(None)
      else
        var x := Positions(kept, trimfirst);
        var breakpoints := PySlice(changepoints(Values(kept)), 0, -1);
        if exists j :: 0 <= j < |breakpoints| && !ValidIndex(breakpoints[j], |x|) then Err(IndexOutOfRange)
        else if breakpoints == [] then Ok(None)
        else
          var point := PyIndex(x, breakpoints[0]);
          Ok(Some(if point <= maxlen && point != 0 then point else 0))
  }

  /**
   * process_mean records nothing exactly when the profile keeps no point or
   * the search reports no breakpoint before the end; it raises exactly when
   * a breakpoint is not an index of the kept profile; otherwise it records
   * the position of the first breakpoint. That position belongs to a kept
   * point and so is never past maxlen: the test against maxlen and 0 never
   * replaces it.
   */
  lemma ProcessMeanSpec(mean: seq<Point>, trimfirst: int, maxlen: int, changepoints: Changepoints)
    ensures var r := ProcessMean(mean, trimfirst, maxlen, changepoints);
      var kept := Kept(mean, trimfirst, maxlen);
      var breakpoints := PySlice(changepoints(Values(kept)), 0, -1);
      && (r == Ok(None) <==> kept == [] || breakpoints == [])
      && (r.Err? <==> kept != [] && exists j :: 0 <= j < |breakpoints| && !ValidIndex(breakpoints[j], |kept|))
      && (r.Ok? && r.value.Some? ==>
            && breakpoints != [] && ValidIndex(breakpoints[0], |kept|)
            && r.value.value == PyIndex(Positions(kept, trimfirst), breakpoints[0])
            && r.value.value <= maxlen
            && exists p :: p in mean && p.start + trimfirst == r.value.value)
  {
    var r := ProcessMean(mean, trimfirst, maxlen, changepoints);
    var kept := Kept(mean, trimfirst, maxlen);
    if mean == [] {
      assert kept == [];
    }
    if r.Ok? && r.value.Some? {
      var x := Positions(kept, trimfirst);
      var breakpoints := PySlice(changepoints(Values(kept)), 0, -1);
      var cp := breakpoints[0];
      var i := if cp < 0 then cp + |x| else cp;
      assert x[i] == kept[i].start + trimfirst && kept[i] in kept;
      assert r.value.value == x[i];
    }
  }

  /** How the tail argument ('forward', 'reverse' or None) keeps the other side. */
  function Suppress(points: seq<Point>, side: Trc.Strand, tail: Option<Trc.Strand>): seq<Point> {
    if tail.Some? && tail.value != side then [] else points
  }

  /** The read's start, trimmed and cut at maxlen, upper-cased. */
  function StartTail(read: Trc.Read, trimfirst: int, maxlen: int): String {
    Upper(PySlice(read.sequence, trimfirst, maxlen))
  }

  /** The read reversed (not complemented), upper-cased, trimmed and cut at maxlen. */
  function EndTail(read: Trc.Read, trimfirst: int, maxlen: int): String {
    PySlice(Upper(Text.Reverse(read.sequence)), trimfirst, maxlen)
  }

  function OptionToSeq(o: Option<int>, id: String): seq<TeloBoundary> {
    if o.Some? then [TeloBoundary(id, o.value)] else []
  }

  /**
   * The boundaries bound_detect records for one matching read, with maxlen
   * already cut to the read's length: the reverse tail's before the forward
   * tail's.
   */
  function DetectOne(read: Trc.Read, id: String, patterns: seq<String>, windowSize: int, slide: int, trimfirst: int,
                     maxlen: int, tail: Option<Trc.Strand>, changepoints: Changepoints): Result<seq<TeloBoundary>, BoundError>
    requires slide > 0
  {
    var meanS := Profile(CutWindows(StartTail(read, trimfirst, maxlen), windowSize, slide), patterns, Trc.Forward);
    var meanE := Profile(CutWindows(EndTail(read, trimfirst, maxlen), windowSize, slide), patterns, Trc.Reverse);
    if meanS.Err? then Err(meanS.error)
    else if meanE.Err? then Err(meanE.error)
    else
      var fromEnd := ProcessMean(Suppress(meanE.value, Trc.Reverse, tail), trimfirst, maxlen, changepoints);
      var fromStart := ProcessMean(Suppress(meanS.value, Trc.Forward, tail), trimfirst, maxlen, changepoints);
      if fromEnd.Err? then Err(fromEnd.error)
      else if fromStart.Err? then Err(fromStart.error)
      else Ok(OptionToSeq(fromEnd.value, id) + OptionToSeq(fromStart.value, id))
  }

  /** The records bound_detect looks at: the requested read, when a window size is given. */
  predicate Selected(read: Trc.Read, id: String, windowSize: Option<int>) {
    read.id == id && windowSize.Some?
  }

  /** maxlengthtelo after the records seen so far: cut to each selected read's length in turn. */
  function MaxAfter(records: seq<Trc.Read>, id: String, windowSize: Option<int>, maxlen: int): (r: int)
    ensures r <= maxlen
  {
    if records == [] then maxlen
    else
      var m := MaxAfter(records[..|records| - 1], id, windowSize, maxlen);
      var last := records[|records| - 1];
      if Selected(last, id, windowSize) && |last.sequence| < m then |last.sequence| else m
  }

  /** bound_detect over the reads of one file; the first read that raises stops it. */
  function Bounds(records: seq<Trc.Read>, id: String, patterns: seq<String>, windowSize: Option<int>, slide: int,
                  trimfirst: int, maxlen: int, tail: Option<Trc.Strand>, changepoints: Changepoints)
    : Result<seq<TeloBoundary>, BoundError>
    requires slide > 0
  {
    if records == [] then Ok([])
    else
      var init, last := records[..|records| - 1], records[|records| - 1];
      match Bounds(init, id, patterns, windowSize, slide, trimfirst, maxlen, tail, changepoints)
      case Err(e) => Err(e)
      case Ok(found) =>
        if !Selected(last, id, windowSize) then Ok(found)
        else
          var m := MaxAfter(records, id, windowSize, maxlen);
          match DetectOne(last, id, patterns, windowSize.value, slide, trimfirst, m, tail, changepoints)
          case Err(e) => Err(e)
          case Ok(more) => Ok(found + more)
  }

  /** The clamp and the boundaries after one more record. */
  lemma BoundsStep(records: seq<Trc.Read>, n: nat, id: String, patterns: seq<String>, windowSize: Option<int>, slide: int,
                   trimfirst: int, maxlen: int, tail: Option<Trc.Strand>, changepoints: Changepoints)
    requires slide > 0 && n < |records|
    ensures var m0 := MaxAfter(records[..n], id, windowSize, maxlen);
      MaxAfter(records[..n + 1], id, windowSize, maxlen)
        == if Selected(records[n], id, windowSize) && |records[n].sequence| < m0 then |records[n].sequence| else m0
    ensures var r0 := Bounds(records[..n], id, patterns, windowSize, slide, trimfirst, maxlen, tail, changepoints);
      Bounds(records[..n + 1], id, patterns, windowSize, slide, trimfirst, maxlen, tail, changepoints)
        == if r0.Err? || !Selected(records[n], id, windowSize) then r0
           else
             var d := DetectOne(records[n], id, patterns, windowSize.value, slide, trimfirst,
                                MaxAfter(records[..n + 1], id, windowSize, maxlen), tail, changepoints);
             if d.Err? then Err(d.error) else Ok(r0.value + d.value)
  {
    assert records[..n + 1][..n] == records[..n] && records[..n + 1][n] == records[n];
  }

  /** The classification of a recorded position: 0, or at most maxlen and positive when nothing is trimmed from the end. */
  predicate Classified(position: int, trimfirst: int, maxlen: int) {
    position == 0 || (position <= maxlen && (trimfirst >= 0 ==> position > 0))
  }

  /** The window starts of a tail's profile are never negative. */
  lemma ProfileStarts(text: String, windowSize: int, slide: int, patterns: seq<String>, strand: Trc.Strand)
    requires slide > 0
    ensures var r := Profile(CutWindows(text, windowSize, slide), patterns, strand);
      r.Ok? ==> forall p :: p in r.value ==> p.start >= 0
  {
    CutWindowsSpec(text, windowSize, slide);
  }

  /**
   * What process_mean records for a profile whose starts are not negative
   * is at most one boundary, none for an empty profile, and it is for the
   * read and classified.
   */
  lemma RecordedClassified(mean: seq<Point>, trimfirst: int, maxlen: int, changepoints: Changepoints, id: String)
    requires forall p :: p in mean ==> p.start >= 0
    ensures var r := ProcessMean(mean, trimfirst, maxlen, changepoints);
      r.Ok? ==>
        && |OptionToSeq(r.value, id)| <= (if mean == [] then 0 else 1)
        && forall b :: b in OptionToSeq(r.value, id) ==> b.id == id && Classified(b.position, trimfirst, maxlen)
  {
    ProcessMeanSpec(mean, trimfirst, maxlen, changepoints);
  }

  /**
   * One read yields at most two boundaries, at most one when a tail is
   * given; each is for the requested read and is 0 or at most maxlen, and
   * positive unless 0 when the trim is not negative.
   */
  lemma DetectOneSpec(read: Trc.Read, id: String, patterns: seq<String>, windowSize: int, slide: int, trimfirst: int,
                      maxlen: int, tail: Option<Trc.Strand>, changepoints: Changepoints)
    requires slide > 0
    ensures var r := DetectOne(read, id, patterns, windowSize, slide, trimfirst, maxlen, tail, changepoints);
      r.Ok? ==>
        && |r.value| <= (if tail.Some? then 1 else 2)
        && forall b :: b in r.value ==> b.id == id && Classified(b.position, trimfirst, maxlen)
  {
    var meanS := Profile(CutWindows(StartTail(read, trimfirst, maxlen), windowSize, slide), patterns, Trc.Forward);
    var meanE := Profile(CutWindows(EndTail(read, trimfirst, maxlen), windowSize, slide), patterns, Trc.Reverse);
    if meanS.Ok? && meanE.Ok? {
      ProfileStarts(StartTail(read, trimfirst, maxlen), windowSize, slide, patterns, Trc.Forward);
      ProfileStarts(EndTail(read, trimfirst, maxlen), windowSize, slide, patterns, Trc.Reverse);
      var pointsE := Suppress(meanE.value, Trc.Reverse, tail);
      var pointsS := Suppress(meanS.value, Trc.Forward, tail);
      RecordedClassified(pointsE, trimfirst, maxlen, changepoints, id);
      RecordedClassified(pointsS, trimfirst, maxlen, changepoints, id);
      assert tail.Some? ==> pointsE == [] || pointsS == [];
    }
  }

  /** process_mean applied to the profile of one tail, or the error building that profile raises. */
  function TailBoundary(text: String, patterns: seq<String>, windowSize: int, slide: int, strand: Trc.Strand,
                        trimfirst: int, maxlen: int, changepoints: Changepoints): Result<Option<int>, BoundError>
    requires slide > 0
  {
    var mean := Profile(CutWindows(text, windowSize, slide), patterns, strand);
    if mean.Err? then Err(mean.error) else ProcessMean(mean.value, trimfirst, maxlen, changepoints)
  }

  /**
   * Which tails a read's boundaries come from: with no tail given, the
   * reverse tail's boundary and then the forward tail's, the reverse tail's
   * error coming first; with a tail given, exactly that tail's outcome.
   */
  lemma DetectOneTails(read: Trc.Read, id: String, patterns: seq<String>, windowSize: int, slide: int, trimfirst: int,
                       maxlen: int, tail: Option<Trc.Strand>, changepoints: Changepoints)
    requires slide > 0
    ensures var r := DetectOne(read, id, patterns, windowSize, slide, trimfirst, maxlen, tail, changepoints);
      var fwd := TailBoundary(StartTail(read, trimfirst, maxlen), patterns, windowSize, slide, Trc.Forward, trimfirst, maxlen, changepoints);
      var rev := TailBoundary(EndTail(read, trimfirst, maxlen), patterns, windowSize, slide, Trc.Reverse, trimfirst, maxlen, changepoints);
      && (tail.None? ==>
            r == if rev.Err? then Err(rev.error)
                 else if fwd.Err? then Err(fwd.error)
                 else Ok(OptionToSeq(rev.value, id) + OptionToSeq(fwd.value, id)))
      && (tail == Some(Trc.Forward) ==>
            r == if fwd.Err? then Err(fwd.error) else Ok(OptionToSeq(fwd.value, id)))
      && (tail == Some(Trc.Reverse) ==>
            r == if rev.Err? then Err(rev.error) else Ok(OptionToSeq(rev.value, id)))
  {
    var nothing := ProcessMean([], trimfirst, maxlen, changepoints);
    assert nothing == Ok(None);
    ProfilesFailTogether(read, patterns, windowSize, slide, trimfirst, maxlen);
    var r := DetectOne(read, id, patterns, windowSize, slide, trimfirst, maxlen, tail, changepoints);
    var meanS := Profile(CutWindows(StartTail(read, trimfirst, maxlen), windowSize, slide), patterns, Trc.Forward);
    var meanE := Profile(CutWindows(EndTail(read, trimfirst, maxlen), windowSize, slide), patterns, Trc.Reverse);
    var fwd := TailBoundary(StartTail(read, trimfirst, maxlen), patterns, windowSize, slide, Trc.Forward, trimfirst, maxlen, changepoints);
    var rev := TailBoundary(EndTail(read, trimfirst, maxlen), patterns, windowSize, slide, Trc.Reverse, trimfirst, maxlen, changepoints);
    if meanS.Err? {
      assert r == Err(ZeroDivision) && fwd == Err(ZeroDivision) && rev == Err(ZeroDivision);
    } else {
      assert fwd == ProcessMean(meanS.value, trimfirst, maxlen, changepoints);
      assert rev == ProcessMean(meanE.value, trimfirst, maxlen, changepoints);
      var fromEnd := ProcessMean(Suppress(meanE.value, Trc.Reverse, tail), trimfirst, maxlen, changepoints);
      var fromStart := ProcessMean(Suppress(meanS.value, Trc.Forward, tail), trimfirst, maxlen, changepoints);
      assert r == if fromEnd.Err? then Err(fromEnd.error)
                  else if fromStart.Err? then Err(fromStart.error)
                  else Ok(OptionToSeq(fromEnd.value, id) + OptionToSeq(fromStart.value, id));
      if tail == Some(Trc.Forward) {
        assert fromEnd == nothing && fromStart == fwd;
        if fwd.Ok? {
          assert OptionToSeq(fromEnd.value, id) + OptionToSeq(fromStart.value, id) == OptionToSeq(fwd.value, id);
        }
      } else if tail == Some(Trc.Reverse) {
        assert fromStart == nothing && fromEnd == rev;
        if rev.Ok? {
          assert OptionToSeq(fromEnd.value, id) + OptionToSeq(fromStart.value, id) == OptionToSeq(rev.value, id);
        }
      } else {
        assert fromStart == fwd && fromEnd == rev;
      }
    }
  }

  /** Both tails have the same length, so their profiles raise together, with the same error. */
  lemma ProfilesFailTogether(read: Trc.Read, patterns: seq<String>, windowSize: int, slide: int, trimfirst: int, maxlen: int)
    requires slide > 0
    ensures var meanS := Profile(CutWindows(StartTail(read, trimfirst, maxlen), windowSize, slide), patterns, Trc.Forward);
      var meanE := Profile(CutWindows(EndTail(read, trimfirst, maxlen), windowSize, slide), patterns, Trc.Reverse);
      (meanS.Err? <==> meanE.Err?) && (meanS.Err? ==> meanS.error == meanE.error == ZeroDivision)
  {
    var startTail, endTail := StartTail(read, trimfirst, maxlen), EndTail(read, trimfirst, maxlen);
    assert |startTail| == |endTail|;
    CutWindowsSpec(startTail, windowSize, slide);
    CutWindowsSpec(endTail, windowSize, slide);
  }

  /** The number of records bound_detect looks at. */
  function SelectedCount(records: seq<Trc.Read>, id: String, windowSize: Option<int>): nat {
    if records == [] then 0
    else SelectedCount(records[..|records| - 1], id, windowSize) + (if Selected(records[|records| - 1], id, windowSize) then 1 else 0)
  }

  /**
   * Every recorded boundary is for the requested read and is 0 or at most
   * maxlengthtelo, and positive unless 0 when the trim is not negative; there are at most two per selected read, and none
   * at all when no window size is given.
   */
  lemma {:induction false} BoundsSpec(records: seq<Trc.Read>, id: String, patterns: seq<String>, windowSize: Option<int>, slide: int,
                                      trimfirst: int, maxlen: int, tail: Option<Trc.Strand>, changepoints: Changepoints)
    requires slide > 0
    ensures var r := Bounds(records, id, patterns, windowSize, slide, trimfirst, maxlen, tail, changepoints);
      && (windowSize.None? ==> r == Ok([]))
      && (r.Ok? ==> |r.value| <= 2 * SelectedCount(records, id, windowSize))
      && (r.Ok? ==> forall b :: b in r.value ==> b.id == id && Classified(b.position, trimfirst, maxlen))
  {
    if records != [] {
      var init, last := records[..|records| - 1], records[|records| - 1];
      BoundsSpec(init, id, patterns, windowSize, slide, trimfirst, maxlen, tail, changepoints);
      if Selected(last, id, windowSize) {
        var m := MaxAfter(records, id, windowSize, maxlen);
        DetectOneSpec(last, id, patterns, windowSize.value, slide, trimfirst, m, tail, changepoints);
      }
    }
  }

  /** After a selected read, the running maxlengthtelo is at most that read's length and never above its earlier value. */
  lemma MaxAfterCutsToRead(records: seq<Trc.Read>, id: String, windowSize: Option<int>, maxlen: int)
    requires records != [] && Selected(records[|records| - 1], id, windowSize)
    ensures MaxAfter(records, id, windowSize, maxlen) <= |records[|records| - 1].sequence|
    ensures MaxAfter(records, id, windowSize, maxlen) <= MaxAfter(records[..|records| - 1], id, windowSize, maxlen)
  {
  }

  /** A file without the requested read gives no boundary. */
  lemma {:induction false} BoundsUnselected(records: seq<Trc.Read>, id: String, patterns: seq<String>, windowSize: Option<int>, slide: int,
                                            trimfirst: int, maxlen: int, tail: Option<Trc.Strand>, changepoints: Changepoints)
    requires slide > 0
    requires forall x :: x in records ==> x.id != id
    ensures Bounds(records, id, patterns, windowSize, slide, trimfirst, maxlen, tail, changepoints) == Ok([])
  {
    if records != [] {
      var init := records[..|records| - 1];
      assert forall x :: x in init ==> x in records;
      assert records[|records| - 1] in records;
      BoundsUnselected(init, id, patterns, windowSize, slide, trimfirst, maxlen, tail, changepoints);
    }
  }

  /** Once a prefix of the records raises, the whole call raises that error. */
  lemma {:induction false} BoundsErrorPersists(records: seq<Trc.Read>, n: nat, id: String, patterns: seq<String>, windowSize: Option<int>,
                                               slide: int, trimfirst: int, maxlen: int, tail: Option<Trc.Strand>, changepoints: Changepoints)
    requires slide > 0 && n <= |records|
    requires Bounds(records[..n], id, patterns, windowSize, slide, trimfirst, maxlen, tail, changepoints).Err?
    ensures Bounds(records, id, patterns, windowSize, slide, trimfirst, maxlen, tail, changepoints)
         == Bounds(records[..n], id, patterns, windowSize, slide, trimfirst, maxlen, tail, changepoints)
    decreases |records| - n
  {
    if n < |records| {
      assert records[..n + 1][..n] == records[..n];
      BoundsErrorPersists(records, n + 1, id, patterns, windowSize, slide, trimfirst, maxlen, tail, changepoints);
    } else {
      assert records[..n] == records;
    }
  }

  /** bound_detect(records, read, pattern_telo, ...) once the file has been read. */
  method BoundDetect(records: seq<Trc.Read>, read: String, patternTelo: MotifInput, windowSize: Option<int>, slide: int,
                     trimfirst: int, maxlengthtelo: int, cutLength: int, tail: Option<Trc.Strand>, changepoints: Changepoints)
    returns (r: Result<seq<TeloBoundary>, BoundError>)
    requires slide > 0
    ensures r == Bounds(records, read, SearchList(PatternsToSearch(patternTelo, cutLength)), windowSize, slide,
                        trimfirst, maxlengthtelo, tail, changepoints)
  {
    var patterns := SearchList(PatternsToSearch(patternTelo, cutLength));
    var boundary: seq<TeloBoundary> := [];
    var maxlen := maxlengthtelo;
    var n := 0;
    while n < |records|
      invariant 0 <= n <= |records|
      invariant maxlen == MaxAfter(records[..n], read, windowSize, maxlengthtelo)
      invariant Bounds(records[..n], read, patterns, windowSize, slide, trimfirst, maxlengthtelo, tail, changepoints) == Ok(boundary)
    {
      var s := records[n];
      BoundsStep(records, n, read, patterns, windowSize, slide, trimfirst, maxlengthtelo, tail, changepoints);
      if s.id != read || windowSize.None? {
        n := n + 1;
        continue;
      }
      if |s.sequence| < maxlen {
        maxlen := |s.sequence|;
      }
      var more := DetectRead(s, read, patterns, windowSize.value, slide, trimfirst, maxlen, tail, changepoints);
      if more.Err? {
        BoundsErrorPersists(records, n + 1, read, patterns, windowSize, slide, trimfirst, maxlengthtelo, tail, changepoints);
        return Err(more.error);
      }
      boundary := boundary + more.value;
      n := n + 1;
    }
    assert records[..n] == records;
    return Ok(boundary);
  }

  /** The loop body of bound_detect for one selected read. */
  method DetectRead(s: Trc.Read, read: String, patterns: seq<String>, windowSize: int, slide: int, trimfirst: int,
                    maxlen: int, tail: Option<Trc.Strand>, changepoints: Changepoints)
    returns (r: Result<seq<TeloBoundary>, BoundError>)
    requires slide > 0
    ensures r == DetectOne(s, read, patterns, windowSize, slide, trimfirst, maxlen, tail, changepoints)
  {
    var seqStart := StartTail(s, trimfirst, maxlen);
    var seqEnd := EndTail(s, trimfirst, maxlen);
    var windowsStart := SeqCutWindows(seqStart, windowSize, slide);
    var windowsEnd := SeqCutWindows(seqEnd, windowSize, slide);
    var meanS := MeanProfile(windowsStart, patterns, Trc.Forward);
    if meanS.Err? {
      return Err(meanS.error);
    }
    var meanE := MeanProfile(windowsEnd, patterns, Trc.Reverse);
    if meanE.Err? {
      return Err(meanE.error);
    }
    var pointsS, pointsE := meanS.value, meanE.value;
    if tail == Some(Trc.Forward) {
      pointsE := [];
    } else if tail == Some(Trc.Reverse) {
      pointsS := [];
    }
    var fromEnd := ProcessMean(pointsE, trimfirst, maxlen, changepoints);
    if fromEnd.Err? {
      return Err(fromEnd.error);
    }
    var fromStart := ProcessMean(pointsS, trimfirst, maxlen, changepoints);
    if fromStart.Err? {
      return Err(fromStart.error);
    }
    return Ok(OptionToSeq(fromEnd.value, read) + OptionToSeq(fromStart.value, read));
  }

  /** The rows of one window, one per pattern in pattern order. */
  function WindowRows(w: Window, patterns: seq<String>, strand: Trc.Strand): (r: seq<RawRow>)
    ensures |r| == |patterns|
  {
    seq(|patterns|, j requires 0 <= j < |patterns| => RawRow(strand, w.start, patterns[j], AtLeastOne(MatchCount(w.text, patterns[j]))))
  }

  /** rawpattern_s or rawpattern_e: windows in order, and the patterns in order within each window. */
  function RawRows(windows: seq<Window>, patterns: seq<String>, strand: Trc.Strand): seq<RawRow> {
    if windows == [] then [] else WindowRows(windows[0], patterns, strand) + RawRows(windows[1..], patterns, strand)
  }

  function CountsOf(rows: seq<RawRow>): (r: seq<nat>)
    ensures |r| == |rows|
  {
    seq(|rows|, i requires 0 <= i < |rows| => rows[i].count)
  }

  /** The rows of a tail are the windows' blocks in window order, one row per pattern in each block. */
  lemma {:induction false} RawRowsBlocks(windows: seq<Window>, patterns: seq<String>, strand: Trc.Strand, i: nat)
    requires i < |windows|
    ensures RawRows(windows, patterns, strand)
         == RawRows(windows[..i], patterns, strand) + WindowRows(windows[i], patterns, strand) + RawRows(windows[i + 1..], patterns, strand)
  {
    if i > 0 {
      RawRowsBlocks(windows[1..], patterns, strand, i - 1);
      assert windows[1..][..i - 1] == windows[..i][1..];
      assert windows[1..][i - 1 + 1..] == windows[i + 1..];
      assert windows[..i] != [] && windows[..i][0] == windows[0];
    } else {
      assert windows[..0] == [];
      assert windows[1..] == windows[i + 1..];
    }
  }

  /**
   * The block of a window counts each pattern in the window's text, floored
   * at 1, exactly as the profile does, so its mean is the profile's value.
   */
  lemma WindowRowsCounts(w: Window, patterns: seq<String>, strand: Trc.Strand)
    ensures CountsOf(WindowRows(w, patterns, strand)) == WindowCounts(w.text, patterns)
    ensures |patterns| > 0 ==>
      Sum(CountsOf(WindowRows(w, patterns, strand))) as real / |patterns| as real == WindowMean(w.text, patterns)
  {
    assert CountsOf(WindowRows(w, patterns, strand)) == WindowCounts(w.text, patterns);
  }

  /** Every raw row of a tail is for that tail, for a search pattern, with a count of at least 1. */
  lemma {:induction false} RawRowsRows(windows: seq<Window>, patterns: seq<String>, strand: Trc.Strand)
    ensures forall row :: row in RawRows(windows, patterns, strand) ==>
      row.strand == strand && row.pattern in patterns && row.count >= 1
  {
    if windows != [] {
      RawRowsRows(windows[1..], patterns, strand);
    }
  }

  /** The rows rawCountPattern keeps for one selected read: the forward tail's, then the reverse tail's. */
  function RawOne(read: Trc.Read, patterns: seq<String>, windowSize: int, slide: int, trimfirst: int, maxlen: int,
                  tail: Option<Trc.Strand>): seq<RawRow>
    requires slide > 0
  {
    var rowsS := RawRows(CutWindows(StartTail(read, trimfirst, maxlen), windowSize, slide), patterns, Trc.Forward);
    var rowsE := RawRows(CutWindows(EndTail(read, trimfirst, maxlen), windowSize, slide), patterns, Trc.Reverse);
    (if tail == Some(Trc.Reverse) then [] else rowsS) + (if tail == Some(Trc.Forward) then [] else rowsE)
  }

  /** rawCountPattern over the reads of one file; maxlengthtelo is not cut to the read here. */
  function RawCounts(records: seq<Trc.Read>, id: String, patterns: seq<String>, windowSize: Option<int>, slide: int,
                     trimfirst: int, maxlen: int, tail: Option<Trc.Strand>): seq<RawRow>
    requires slide > 0
  {
    if records == [] then []
    else
      var last := records[|records| - 1];
      RawCounts(records[..|records| - 1], id, patterns, windowSize, slide, trimfirst, maxlen, tail)
        + (if Selected(last, id, windowSize) then RawOne(last, patterns, windowSize.value, slide, trimfirst, maxlen, tail) else [])
  }

  /**
   * Every raw row counts a search pattern at least once, and comes from the
   * tail that was asked for; no window size gives no row.
   */
  lemma {:induction false} RawCountsSpec(records: seq<Trc.Read>, id: String, patterns: seq<String>, windowSize: Option<int>, slide: int,
                                         trimfirst: int, maxlen: int, tail: Option<Trc.Strand>)
    requires slide > 0
    ensures var rows := RawCounts(records, id, patterns, windowSize, slide, trimfirst, maxlen, tail);
      && (windowSize.None? ==> rows == [])
      && forall row :: row in rows ==> row.count >= 1 && row.pattern in patterns && (tail.Some? ==> row.strand == tail.value)
  {
    if records != [] {
      var last := records[|records| - 1];
      RawCountsSpec(records[..|records| - 1], id, patterns, windowSize, slide, trimfirst, maxlen, tail);
      if Selected(last, id, windowSize) {
        RawRowsRows(CutWindows(StartTail(last, trimfirst, maxlen), windowSize.value, slide), patterns, Trc.Forward);
        RawRowsRows(CutWindows(EndTail(last, trimfirst, maxlen), windowSize.value, slide), patterns, Trc.Reverse);
      }
    }
  }

  /** rawCountPattern(records, read, pattern_telo, ...) once the file has been read, as its rows. */
  method RawCountPattern(records: seq<Trc.Read>, read: String, patternTelo: MotifInput, windowSize: Option<int>, slide: int,
                         trimfirst: int, cutLength: int, maxlengthtelo: int, tail: Option<Trc.Strand>)
    returns (rawcountAll: seq<RawRow>)
    requires slide > 0
    ensures rawcountAll == RawCounts(records, read, SearchList(PatternsToSearch(patternTelo, cutLength)), windowSize, slide,
                                     trimfirst, maxlengthtelo, tail)
  {
    var patterns := SearchList(PatternsToSearch(patternTelo, cutLength));
    rawcountAll := [];
    for n := 0 to |records|
      invariant rawcountAll == RawCounts(records[..n], read, patterns, windowSize, slide, trimfirst, maxlengthtelo, tail)
    {
      var s := records[n];
      assert records[..n + 1][..n] == records[..n] && records[..n + 1][n] == s;
      assert RawCounts(records[..n + 1], read, patterns, windowSize, slide, trimfirst, maxlengthtelo, tail)
          == rawcountAll + (if Selected(s, read, windowSize)
                            then RawOne(s, patterns, windowSize.value, slide, trimfirst, maxlengthtelo, tail) else []);
      if s.id != read || windowSize.None? {
        continue;
      }
      var rows := RawRead(s, patterns, windowSize.value, slide, trimfirst, maxlengthtelo, tail);
      rawcountAll := rawcountAll + rows;
    }
    assert records[..|records|] == records;
  }

  /** The body of rawCountPattern's loop for one selected read. */
  method RawRead(s: Trc.Read, patterns: seq<String>, windowSize: int, slide: int, trimfirst: int, maxlengthtelo: int,
                 tail: Option<Trc.Strand>) returns (rows: seq<RawRow>)
    requires slide > 0
    ensures rows == RawOne(s, patterns, windowSize, slide, trimfirst, maxlengthtelo, tail)
  {
    var windowsStart := SeqCutWindows(StartTail(s, trimfirst, maxlengthtelo), windowSize, slide);
    var windowsEnd := SeqCutWindows(EndTail(s, trimfirst, maxlengthtelo), windowSize, slide);
    var rawpatternS := RawRows(windowsStart, patterns, Trc.Forward);
    var rawpatternE := RawRows(windowsEnd, patterns, Trc.Reverse);
    if tail == Some(Trc.Forward) {
      rawpatternE := [];
    } else if tail == Some(Trc.Reverse) {
      rawpatternS := [];
    }
    rows := rawpatternS + rawpatternE;
  }
}
