/// One Topsicle run (Topsicle/main.py, process_file and analysis_run): for
/// every k-mer length, score the reads of every input file, detect the
/// telomere boundary of each read that passed, collect the lengths and TRC
/// values per k-mer, and summarise them with a recommended cutoff. Files
/// are given as their reads; the changepoint search and the quadratic fit
/// are input functions.
module Run {
  import opened Text
  import opened Wrappers
  import opened Sorting
  import opened Patterns
  import opened Trc
  import opened Boundary
  import opened Calibration

  /** The command-line arguments the model uses, after argparse's defaults. */
  datatype Args = Args(
    pattern: String,
    minSeqLength: int,
    telophrase: Option<seq<int>>,
    cutoff: seq<real>,
    windowSize: int,
    slide: Option<int>,
    trimfirst: int,
    maxlengthtelo: int,
    readCheck: Option<String>)

  /** `if args.read_check:` — an absent or empty read id checks no single read. */
  predicate ChecksRead(args: Args) {
    args.readCheck.Some? && args.readCheck.value != []
  }

  /** Why a run stops. */
  datatype RunError =
    | Scoring(score: ScoreError)       // patternTRC_count raised in a worker
    | Detecting(bound: BoundError)     // bound_detect raised in a worker
    | NoBoundary                       // bound_res[0] of an empty list
    | NoTrcForRead                     // the checked read has no TRC: formatting "" with ".3f" raises
    | KmerTooLong                      // a k-mer longer than the pattern: sys.exit

  /** What process_file reports for one read: its k-mer, the boundaries found, its TRC. */
  datatype Entry = Entry(phrase: int, bounds: seq<TeloBoundary>, trc: real)

  /** The bases scored at each end of a read. */
  const NoBp: int := 1000

  // ---- Defaults -----------------------------------------------------------------

  /** The k-mer lengths: the given ones, or len(pattern) - 2. */
  function KmerLengths(args: Args): seq<int> {
    if args.telophrase.None? then [|args.pattern| - 2] else args.telophrase.value
  }

  /** The window step: --slide when it is set and not 0, else len(pattern). */
  function SlideStep(args: Args): int {
    if args.slide.Some? && args.slide.value != 0 then args.slide.value else |args.pattern|
  }

  /** The smallest cutoff given: the one patternTRC_count filters with. */
  function MinCutoff(cutoff: seq<real>): (r: real)
    requires |cutoff| > 0
    ensures r in cutoff && forall i :: 0 <= i < |cutoff| ==> r <= cutoff[i]
  {
    if |cutoff| == 1 then cutoff[0]
    else
      var m := MinCutoff(cutoff[1..]);
      assert forall i :: 1 <= i < |cutoff| ==> cutoff[i] == cutoff[1..][i - 1];
      if cutoff[0] <= m then cutoff[0] else m
  }

  /**
   * Without --telophrase the only k-mer length is len(pattern) - 2; without
   * --slide, or with --slide 0, the step is len(pattern), and otherwise it
   * is the given step.
   */
  lemma DefaultsSpec(args: Args)
    ensures args.telophrase.None? ==> KmerLengths(args) == [|args.pattern| - 2]
    ensures args.telophrase.Some? ==> KmerLengths(args) == args.telophrase.value
    ensures (args.slide.None? || args.slide == Some(0)) ==> SlideStep(args) == |args.pattern|
    ensures (args.slide.Some? && args.slide.value != 0) ==> SlideStep(args) == args.slide.value
  {
  }

  // ---- process_file --------------------------------------------------------------

  /** patternTRC_count as process_file calls it: the string motif, 1000 bases, the smallest cutoff. */
  function HitsOf(args: Args, records: seq<Read>, phrase: int): Result<seq<TrcHit>, ScoreError>
    requires |args.cutoff| > 0
  {
    TrcHits(records, SearchList(PatternsToSearch(Single(args.pattern), phrase)), args.minSeqLength, NoBp,
            |args.pattern|, MinCutoff(args.cutoff))
  }

  /** {item[0]: item[2] for item in hits}: a later hit for the same read overrides an earlier one. */
  function TailMap(hits: seq<TrcHit>): map<String, Strand> {
    if hits == [] then map[]
    else TailMap(hits[..|hits| - 1])[hits[|hits| - 1].id := hits[|hits| - 1].strand]
  }

  /** The map has a key for exactly the reads with a hit. */
  lemma {:induction false} TailMapKeys(hits: seq<TrcHit>)
    ensures forall id :: id in TailMap(hits) <==> exists i :: 0 <= i < |hits| && hits[i].id == id
  {
    if hits != [] {
      var init := hits[..|hits| - 1];
      TailMapKeys(init);
      assert forall i :: 0 <= i < |init| ==> init[i] == hits[i];
    }
  }

  /** The map gives each read the strand of its last hit. */
  lemma {:induction false} TailMapLast(hits: seq<TrcHit>, i: int)
    requires 0 <= i < |hits| && forall j :: i < j < |hits| ==> hits[j].id != hits[i].id
    ensures hits[i].id in TailMap(hits) && TailMap(hits)[hits[i].id] == hits[i].strand
  {
    var init := hits[..|hits| - 1];
    if i < |init| {
      assert forall j :: i < j < |init| ==> init[j] == hits[j];
      TailMapLast(init, i);
    }
  }

  /** The ids of the hits, in order: read_ID_w_telo_mver. */
  function Ids(hits: seq<TrcHit>): (r: seq<String>)
    ensures |r| == |hits| && forall i :: 0 <= i < |hits| ==> r[i] == hits[i].id
  {
    seq(|hits|, i requires 0 <= i < |hits| => hits[i].id)
  }

  /** The reads written to the temporary file: those whose id has a hit, in file order. */
  function Filtered(records: seq<Read>, ids: seq<String>): (r: seq<Read>)
    ensures forall x :: x in r ==> x in records && x.id in ids
    ensures forall i :: 0 <= i < |records| && records[i].id in ids ==> records[i] in r
  {
    if records == [] then []
    else
      var last := records[|records| - 1];
      Filtered(records[..|records| - 1], ids) + (if last.id in ids then [last] else [])
  }

  /** bound_detect on the temporary file for one read, as process_file calls it. */
  function DetectFor(args: Args, filtered: seq<Read>, id: String, phrase: int, patternSet: PatternSet, sliding: int,
                     tail: Option<Strand>, changepoints: Changepoints): Result<seq<TeloBoundary>, RunError>
    requires sliding > 0
  {
    match Bounds(filtered, id, SearchList(PatternsToSearch(AsMotifInput(patternSet), phrase)), Some(args.windowSize),
                 sliding, args.trimfirst, args.maxlengthtelo, tail, changepoints)
    case Err(e) => Err(Detecting(e))
    case Ok(b) => if b == [] then Err(NoBoundary) else Ok(b)
  }

  /** The entry of hit i: the read's boundaries, detected with the tail the map gives it, and its TRC. */
  function EntryFor(args: Args, filtered: seq<Read>, hits: seq<TrcHit>, i: nat, phrase: int, patternSet: PatternSet,
                    sliding: int, changepoints: Changepoints): Result<Entry, RunError>
    requires sliding > 0 && i < |hits|
  {
    var id := hits[i].id;
    var tails := TailMap(hits);
    var tail := if id in tails then Some(tails[id]) else None;
    match DetectFor(args, filtered, id, phrase, patternSet, sliding, tail, changepoints)
    case Err(e) => Err(e)
    case Ok(b) => Ok(Entry(phrase, b, hits[i].trc))
  }

  /** The outcome of every hit, in hit order. */
  function EntryOutcomes(args: Args, filtered: seq<Read>, hits: seq<TrcHit>, phrase: int, patternSet: PatternSet,
                         sliding: int, changepoints: Changepoints): (r: seq<Result<Entry, RunError>>)
    requires sliding > 0
    ensures |r| == |hits|
  {
    seq(|hits|, i requires 0 <= i < |hits| => EntryFor(args, filtered, hits, i, phrase, patternSet, sliding, changepoints))
  }

  /** The entries of all hits; the first hit whose detection fails stops process_file. */
  function EntriesOf(args: Args, filtered: seq<Read>, hits: seq<TrcHit>, phrase: int, patternSet: PatternSet,
                     sliding: int, changepoints: Changepoints): Result<seq<Entry>, RunError>
    requires sliding > 0
  {
    AllOk(EntryOutcomes(args, filtered, hits, phrase, patternSet, sliding, changepoints))
  }

  /** The index of the first occurrence of x, if any: list.index. */
  function IndexOf(xs: seq<String>, x: String): (r: Option<nat>)
    ensures r.Some? ==> r.value < |xs| && xs[r.value] == x && forall j :: 0 <= j < r.value ==> xs[j] != x
    ensures r.None? <==> x !in xs
  {
    if xs == [] then None
    else if xs[0] == x then Some(0)
    else
      var r := IndexOf(xs[1..], x);
      assert forall j :: 1 <= j < |xs| ==> xs[j] == xs[1..][j - 1];
      assert x in xs[1..] ==> x in xs;
      if r.Some? then Some(r.value + 1) else None
  }

  /** process_file on the reads of one file. */
  function ProcessFileSpec(args: Args, records: seq<Read>, phrase: int, patternSet: PatternSet, sliding: int,
                           changepoints: Changepoints): Result<seq<Entry>, RunError>
    requires |args.cutoff| > 0 && sliding > 0
  {
    match HitsOf(args, records, phrase)
    case Err(e) => Err(Scoring(e))
    case Ok(hits) =>
      var ids := Ids(hits);
      var filtered := Filtered(records, ids);
      if ChecksRead(args) then
        var id := args.readCheck.value;
        var tails := TailMap(hits);
        var tail := if id in tails then Some(tails[id]) else None;
        match DetectFor(args, filtered, id, phrase, patternSet, sliding, tail, changepoints)
        case Err(e) => Err(e)
        case Ok(b) =>
          var idx := IndexOf(ids, id);
          if idx.None? then Err(NoTrcForRead) else Ok([Entry(phrase, b, hits[idx.value].trc)])
      else EntriesOf(args, filtered, hits, phrase, patternSet, sliding, changepoints)
  }

  /** The entry of a hit has that read's TRC, at least one boundary, only boundaries of that read, and the k-mer. */
  lemma EntryForSpec(args: Args, filtered: seq<Read>, hits: seq<TrcHit>, i: nat, phrase: int, patternSet: PatternSet,
                     sliding: int, changepoints: Changepoints)
    requires sliding > 0 && i < |hits|
    ensures var r := EntryFor(args, filtered, hits, i, phrase, patternSet, sliding, changepoints);
      && (r.Err? ==> r.error.Detecting? || r.error == NoBoundary)
      && (r.Ok? ==>
            && r.value.phrase == phrase && r.value.trc == hits[i].trc && |r.value.bounds| > 0
            && forall b :: b in r.value.bounds ==> b.id == hits[i].id)
  {
    var id := hits[i].id;
    var tails := TailMap(hits);
    var tail := if id in tails then Some(tails[id]) else None;
    BoundsSpec(filtered, id, SearchList(PatternsToSearch(AsMotifInput(patternSet), phrase)), Some(args.windowSize),
               sliding, args.trimfirst, args.maxlengthtelo, tail, changepoints);
  }

  /**
   * Entry i belongs to hit i: it has that read's TRC, at least one boundary,
   * every boundary for that read, and the k-mer being run; a failure is the
   * first failing hit's, a detection error or a read without a boundary.
   */
  lemma EntriesOfSpec(args: Args, filtered: seq<Read>, hits: seq<TrcHit>, phrase: int, patternSet: PatternSet,
                      sliding: int, changepoints: Changepoints)
    requires sliding > 0
    ensures var r := EntriesOf(args, filtered, hits, phrase, patternSet, sliding, changepoints);
      && (r.Err? ==> r.error.Detecting? || r.error == NoBoundary)
      && (r.Ok? ==>
            && |r.value| == |hits|
            && forall i :: 0 <= i < |hits| ==>
                 && r.value[i].phrase == phrase && r.value[i].trc == hits[i].trc && |r.value[i].bounds| > 0
                 && forall b :: b in r.value[i].bounds ==> b.id == hits[i].id)
  {
    var outs := EntryOutcomes(args, filtered, hits, phrase, patternSet, sliding, changepoints);
    AllOkSpec(outs);
    forall i | 0 <= i < |hits| {
      EntryForSpec(args, filtered, hits, i, phrase, patternSet, sliding, changepoints);
    }
  }

  /**
   * process_file reports, in hit order, one entry per read that passed the
   * TRC filter (or one for the checked read), with that read's TRC and its
   * boundaries; a read without a boundary stops the run.
   */
  lemma ProcessFileAligned(args: Args, records: seq<Read>, phrase: int, patternSet: PatternSet, sliding: int,
                           changepoints: Changepoints)
    requires |args.cutoff| > 0 && sliding > 0
    ensures var r := ProcessFileSpec(args, records, phrase, patternSet, sliding, changepoints);
      && (r.Err? ==> r.error != KmerTooLong)
      && (r.Ok? ==>
            && HitsOf(args, records, phrase).Ok?
            && var hits := HitsOf(args, records, phrase).value;
            && (forall e :: e in r.value ==> e.phrase == phrase && |e.bounds| > 0)
            && (!ChecksRead(args) ==>
                  |r.value| == |hits|
                  && forall i :: 0 <= i < |hits| ==>
                       r.value[i].trc == hits[i].trc && forall b :: b in r.value[i].bounds ==> b.id == hits[i].id)
            && (ChecksRead(args) ==>
                  |r.value| == 1
                  && exists i :: 0 <= i < |hits| && hits[i].id == args.readCheck.value && r.value[0].trc == hits[i].trc))
  {
    var r := ProcessFileSpec(args, records, phrase, patternSet, sliding, changepoints);
    var scored := HitsOf(args, records, phrase);
    if scored.Ok? && !ChecksRead(args) {
      EntriesOfSpec(args, Filtered(records, Ids(scored.value)), scored.value, phrase, patternSet, sliding, changepoints);
    }
    if r.Ok? {
      var hits := HitsOf(args, records, phrase).value;
      if !ChecksRead(args) {
      } else {
        var idx := IndexOf(Ids(hits), args.readCheck.value);
        assert hits[idx.value].id == args.readCheck.value;
      }
    }
  }

  /**
   * With read_check naming a read that has no hit, that read is not in the
   * temporary file, so bound_detect finds no boundary and process_file fails
   * on bound_res[0].
   */
  lemma ReadCheckWithoutHit(args: Args, records: seq<Read>, phrase: int, patternSet: PatternSet, sliding: int,
                            changepoints: Changepoints)
    requires |args.cutoff| > 0 && sliding > 0
    requires ChecksRead(args) && HitsOf(args, records, phrase).Ok?
    requires args.readCheck.value !in Ids(HitsOf(args, records, phrase).value)
    ensures ProcessFileSpec(args, records, phrase, patternSet, sliding, changepoints) == Err(NoBoundary)
  {
    var id := args.readCheck.value;
    var filtered := Filtered(records, Ids(HitsOf(args, records, phrase).value));
    var tails := TailMap(HitsOf(args, records, phrase).value);
    var tail := if id in tails then Some(tails[id]) else None;
    BoundsUnselected(filtered, id, SearchList(PatternsToSearch(AsMotifInput(patternSet), phrase)), Some(args.windowSize),
                     sliding, args.trimfirst, args.maxlengthtelo, tail, changepoints);
  }

  /** The except branch for a checked read without a TRC is never reached: the read has no boundary first. */
  lemma NoTrcUnreachable(args: Args, records: seq<Read>, phrase: int, patternSet: PatternSet, sliding: int,
                         changepoints: Changepoints)
    requires |args.cutoff| > 0 && sliding > 0
    ensures ProcessFileSpec(args, records, phrase, patternSet, sliding, changepoints) != Err(NoTrcForRead)
  {
    if HitsOf(args, records, phrase).Ok? {
      var hits := HitsOf(args, records, phrase).value;
      var ids := Ids(hits);
      if !ChecksRead(args) {
        EntriesOfSpec(args, Filtered(records, ids), hits, phrase, patternSet, sliding, changepoints);
      } else if args.readCheck.value !in ids {
        ReadCheckWithoutHit(args, records, phrase, patternSet, sliding, changepoints);
      } else {
        assert IndexOf(ids, args.readCheck.value).Some?;
      }
    }
  }

  /** An empty --read_check is falsy: process_file then runs the loop over every hit, as with no --read_check. */
  lemma EmptyReadCheckAllHits(args: Args, records: seq<Read>, phrase: int, patternSet: PatternSet, sliding: int,
                             changepoints: Changepoints)
    requires |args.cutoff| > 0 && sliding > 0
    requires args.readCheck == Some([])
    ensures var r := ProcessFileSpec(args, records, phrase, patternSet, sliding, changepoints);
      && (HitsOf(args, records, phrase).Err? ==> r == Err(Scoring(HitsOf(args, records, phrase).error)))
      && (HitsOf(args, records, phrase).Ok? ==>
            var hits := HitsOf(args, records, phrase).value;
            r == EntriesOf(args, Filtered(records, Ids(hits)), hits, phrase, patternSet, sliding, changepoints))
  {
    assert !ChecksRead(args);
  }

  /** One pass of the loop over the hits: bound_detect for the read, with the tail the map gives it. */
  method DetectEntry(args: Args, filtered: seq<Read>, hits: seq<TrcHit>, idx: nat, tails: map<String, Strand>, phrase: int,
                     patternSet: PatternSet, sliding: int, changepoints: Changepoints) returns (r: Result<Entry, RunError>)
    requires sliding > 0 && idx < |hits| && tails == TailMap(hits)
    ensures r == EntryFor(args, filtered, hits, idx, phrase, patternSet, sliding, changepoints)
  {
    var read := hits[idx].id;
    var tail := if read in tails then Some(tails[read]) else None;
    var boundRes := BoundDetect(filtered, read, AsMotifInput(patternSet), Some(args.windowSize), sliding, args.trimfirst,
                                args.maxlengthtelo, phrase, tail, changepoints);
    if boundRes.Err? {
      return Err(Detecting(boundRes.error));
    }
    if boundRes.value == [] {
      return Err(NoBoundary);
    }
    return Ok(Entry(phrase, boundRes.value, hits[idx].trc));
  }

  /** The loop over the hits in process_file when no single read is checked. */
  method DetectAll(args: Args, filtered: seq<Read>, hits: seq<TrcHit>, phrase: int, patternSet: PatternSet, sliding: int,
                   changepoints: Changepoints) returns (r: Result<seq<Entry>, RunError>)
    requires sliding > 0
    ensures r == EntriesOf(args, filtered, hits, phrase, patternSet, sliding, changepoints)
  {
    ghost var outs := EntryOutcomes(args, filtered, hits, phrase, patternSet, sliding, changepoints);
    var tails := TailMap(hits);
    var boundAllDetected: seq<Entry> := [];
    for idx := 0 to |hits|
      invariant AllOk(outs[..idx]) == Ok(boundAllDetected)
    {
      var entry := DetectEntry(args, filtered, hits, idx, tails, phrase, patternSet, sliding, changepoints);
      AllOkStep(outs, idx);
      if entry.Err? {
        AllOkErrorPersists(outs, idx + 1);
        return Err(entry.error);
      }
      boundAllDetected := boundAllDetected + [entry.value];
    }
    assert outs[..|hits|] == outs;
    return Ok(boundAllDetected);
  }

  /** The temporary file's reads: those of the file whose id is in the id list. */
  method FilterRecords(records: seq<Read>, ids: seq<String>) returns (kept: seq<Read>)
    ensures kept == Filtered(records, ids)
  {
    kept := [];
    for n := 0 to |records|
      invariant kept == Filtered(records[..n], ids)
    {
      assert records[..n + 1][..n] == records[..n] && records[..n + 1][n] == records[n];
      if records[n].id in ids {
        kept := kept + [records[n]];
      }
    }
    assert records[..|records|] == records;
  }

  /** process_file(args, seq_loc, telo_phrase, pattern, sliding_val) on the reads of the file. */
  method ProcessFile(args: Args, records: seq<Read>, phrase: int, patternSet: PatternSet, sliding: int,
                     changepoints: Changepoints) returns (r: Result<seq<Entry>, RunError>)
    requires |args.cutoff| > 0 && sliding > 0
    ensures r == ProcessFileSpec(args, records, phrase, patternSet, sliding, changepoints)
  {
    var minCutoff := MinCutoff(args.cutoff);
    var scored := PatternTrcCount(records, Single(args.pattern), args.minSeqLength, phrase, NoBp, minCutoff);
    if scored.Err? {
      return Err(Scoring(scored.error));
    }
    var hits := scored.value;
    var readIds := Ids(hits);
    var tails := TailMap(hits);
    var fastaTemp := FilterRecords(records, readIds);
    if ChecksRead(args) {
      var read := args.readCheck.value;
      var tail := if read in tails then Some(tails[read]) else None;
      var boundRes := BoundDetect(fastaTemp, read, AsMotifInput(patternSet), Some(args.windowSize), sliding, args.trimfirst,
                                  args.maxlengthtelo, phrase, tail, changepoints);
      if boundRes.Err? {
        return Err(Detecting(boundRes.error));
      }
      if boundRes.value == [] {
        return Err(NoBoundary);
      }
      var idx := IndexOf(readIds, read);
      if idx.None? {
        return Err(NoTrcForRead);
      }
      return Ok([Entry(phrase, boundRes.value, hits[idx.value].trc)]);
    }
    r := DetectAll(args, fastaTemp, hits, phrase, patternSet, sliding, changepoints);
  }

  // ---- analysis_run: the lengths and TRC values of every k-mer ------------------

  /** phrase_to_telo and phrase_to_trc, with the order in which their keys first appeared. */
  datatype Lengths = Lengths(telo: map<int, seq<real>>, trc: map<int, seq<real>>, seen: seq<int>)

  /** Both dictionaries before the first entry. */
  const NoLengths: Lengths := Lengths(map[], map[], [])

  /** A defaultdict(list) lookup: a missing key reads as the empty list. */
  function Get(m: map<int, seq<real>>, k: int): seq<real> {
    if k in m then m[k] else []
  }

  /** Both lists of a k-mer have the same, positive length, and the keys are the k-mers seen. */
  ghost predicate Aligned(st: Lengths) {
    && st.telo.Keys == Elems(st.seen)
    && st.trc.Keys == Elems(st.seen)
    && forall k :: k in st.telo ==> |st.telo[k]| == |st.trc[k]| > 0
  }

  /** Every entry has a boundary, which process_file guarantees. */
  predicate HasBoundary(entries: seq<Entry>) {
    forall e :: e in entries ==> |e.bounds| > 0
  }

  /** float(entry[2][0][1]): the position of the first boundary. */
  function TeloLength(e: Entry): real
    requires |e.bounds| > 0
  {
    e.bounds[0].position as real
  }

  /** One pass of the inner aggregation loop. */
  function AddEntry(st: Lengths, e: Entry): Lengths
    requires |e.bounds| > 0
  {
    var k := e.phrase;
    Lengths(st.telo[k := Get(st.telo, k) + [TeloLength(e)]], st.trc[k := Get(st.trc, k) + [e.trc]],
            if k in st.telo then st.seen else st.seen + [k])
  }

  /** The aggregation of a list of entries, first to last. */
  function Collect(st: Lengths, entries: seq<Entry>): Lengths
    requires HasBoundary(entries)
  {
    if entries == [] then st
    else AddEntry(Collect(st, entries[..|entries| - 1]), entries[|entries| - 1])
  }

  /** The entries of a k-mer, in order. */
  function EntriesFor(entries: seq<Entry>, k: int): (r: seq<Entry>)
    ensures forall e :: e in r ==> e in entries && e.phrase == k
  {
    if entries == [] then []
    else
      var last := entries[|entries| - 1];
      EntriesFor(entries[..|entries| - 1], k) + (if last.phrase == k then [last] else [])
  }

  /** The telomere lengths of some entries. */
  function Telos(es: seq<Entry>): (r: seq<real>)
    requires HasBoundary(es)
    ensures |r| == |es|
  {
    seq(|es|, i requires 0 <= i < |es| => TeloLength(es[i]))
  }

  /** The TRC values of some entries. */
  function Trcs(es: seq<Entry>): (r: seq<real>)
    ensures |r| == |es|
  {
    seq(|es|, i requires 0 <= i < |es| => es[i].trc)
  }

  lemma AppendOne(es: seq<Entry>, e: Entry)
    requires HasBoundary(es) && |e.bounds| > 0
    ensures HasBoundary(es + [e])
    ensures Telos(es + [e]) == Telos(es) + [TeloLength(e)]
    ensures Trcs(es + [e]) == Trcs(es) + [e.trc]
  {
  }

  /** One entry appends its length and TRC to its k-mer's lists and leaves the other k-mers alone. */
  lemma AddEntryContents(st: Lengths, e: Entry)
    requires |e.bounds| > 0
    ensures var r := AddEntry(st, e);
      && (forall k :: Get(r.telo, k) == Get(st.telo, k) + (if k == e.phrase then [TeloLength(e)] else []))
      && (forall k :: Get(r.trc, k) == Get(st.trc, k) + (if k == e.phrase then [e.trc] else []))
  {
  }

  /** One entry adds its k-mer to the keys and keeps the lists aligned. */
  lemma AddEntryAligned(st: Lengths, e: Entry)
    requires |e.bounds| > 0
    ensures AddEntry(st, e).telo.Keys == st.telo.Keys + {e.phrase}
    ensures Aligned(st) ==> Aligned(AddEntry(st, e))
  {
    var r := AddEntry(st, e);
    var k := e.phrase;
    if Aligned(st) {
      if k in st.telo {
        assert r.seen == st.seen;
      } else {
        ElemsAppend(st.seen, [k]);
      }
      assert r.telo.Keys == Elems(r.seen) && r.trc.Keys == Elems(r.seen);
      forall j | j in r.telo ensures |r.telo[j]| == |r.trc[j]| > 0 {
        if j == k {
          assert |r.telo[j]| == |Get(st.telo, k)| + 1 && |r.trc[j]| == |Get(st.trc, k)| + 1;
        } else {
          assert r.telo[j] == st.telo[j] && r.trc[j] == st.trc[j];
        }
      }
    }
  }

  /** After collecting, k's lengths are the earlier ones followed by those of k's entries, in entry order. */
  lemma {:induction false} CollectTelos(st: Lengths, entries: seq<Entry>, k: int)
    requires HasBoundary(entries)
    ensures Get(Collect(st, entries).telo, k) == Get(st.telo, k) + Telos(EntriesFor(entries, k))
  {
    if entries != [] {
      var init := entries[..|entries| - 1];
      var last := entries[|entries| - 1];
      assert last in entries;
      CollectTelos(st, init, k);
      AddEntryContents(Collect(st, init), last);
      if k == last.phrase {
        AppendOne(EntriesFor(init, k), last);
      } else {
        assert EntriesFor(entries, k) == EntriesFor(init, k);
      }
    }
  }

  /** After collecting, k's TRC values are the earlier ones followed by those of k's entries, in entry order. */
  lemma {:induction false} CollectTrcs(st: Lengths, entries: seq<Entry>, k: int)
    requires HasBoundary(entries)
    ensures Get(Collect(st, entries).trc, k) == Get(st.trc, k) + Trcs(EntriesFor(entries, k))
  {
    if entries != [] {
      var init := entries[..|entries| - 1];
      var last := entries[|entries| - 1];
      assert last in entries;
      CollectTrcs(st, init, k);
      AddEntryContents(Collect(st, init), last);
      if k == last.phrase {
        AppendOne(EntriesFor(init, k), last);
      } else {
        assert EntriesFor(entries, k) == EntriesFor(init, k);
      }
    }
  }

  /**
   * After the aggregation, the lists of every k-mer are the earlier ones
   * followed by the lengths and the TRC values of its entries, in entry
   * order, so the i-th length and the i-th TRC of a k-mer come from the
   * same read.
   */
  lemma CollectSpec(st: Lengths, entries: seq<Entry>)
    requires HasBoundary(entries)
    ensures var r := Collect(st, entries);
      && (forall k :: Get(r.telo, k) == Get(st.telo, k) + Telos(EntriesFor(entries, k)))
      && (forall k :: Get(r.trc, k) == Get(st.trc, k) + Trcs(EntriesFor(entries, k)))
  {
    forall k
      ensures Get(Collect(st, entries).telo, k) == Get(st.telo, k) + Telos(EntriesFor(entries, k))
      ensures Get(Collect(st, entries).trc, k) == Get(st.trc, k) + Trcs(EntriesFor(entries, k))
    {
      CollectTelos(st, entries, k);
      CollectTrcs(st, entries, k);
    }
  }

  /**
   * A k-mer has lists once one of its entries has been collected, and
   * collecting keeps the two lists of every k-mer aligned.
   */
  lemma {:induction false} CollectKeys(st: Lengths, entries: seq<Entry>)
    requires HasBoundary(entries)
    ensures var r := Collect(st, entries);
      && (forall k :: k in r.telo <==> k in st.telo || exists e :: e in entries && e.phrase == k)
      && (Aligned(st) ==> Aligned(r))
  {
    if entries != [] {
      var init := entries[..|entries| - 1];
      var last := entries[|entries| - 1];
      assert last in entries;
      assert forall e :: e in entries <==> e in init || e == last;
      CollectKeys(st, init);
      AddEntryAligned(Collect(st, init), last);
    }
  }

  /** Collecting a + b is collecting a, then b. */
  lemma {:induction false} CollectAppend(st: Lengths, a: seq<Entry>, b: seq<Entry>)
    requires HasBoundary(a) && HasBoundary(b)
    ensures HasBoundary(a + b) && Collect(st, a + b) == Collect(Collect(st, a), b)
    decreases |b|
  {
    if b != [] {
      var b0 := b[..|b| - 1];
      assert forall e :: e in b0 ==> e in b;
      CollectAppend(st, a, b0);
      assert forall e :: e in a + b ==> e in a || e in b;
      assert (a + b)[..|a + b| - 1] == a + b0;
      assert (a + b)[|a + b| - 1] == b[|b| - 1];
      calc {
        Collect(st, a + b);
        AddEntry(Collect(st, a + b0), b[|b| - 1]);
        AddEntry(Collect(Collect(st, a), b0), b[|b| - 1]);
        Collect(Collect(st, a), b);
      }
    } else {
      assert a + b == a;
    }
  }

  /** The entries of all files, file after file. */
  function Flatten(results: seq<seq<Entry>>): seq<Entry> {
    if results == [] then [] else Flatten(results[..|results| - 1]) + results[|results| - 1]
  }

  /** Every file's entries have a boundary. */
  predicate AllHaveBoundary(results: seq<seq<Entry>>) {
    forall i :: 0 <= i < |results| ==> HasBoundary(results[i])
  }

  lemma {:induction false} FlattenMembers(results: seq<seq<Entry>>)
    ensures forall e :: e in Flatten(results) <==> exists i :: 0 <= i < |results| && e in results[i]
  {
    if results != [] {
      var init := results[..|results| - 1];
      FlattenMembers(init);
      assert forall i :: 0 <= i < |init| ==> init[i] == results[i];
    }
  }

  // ---- analysis_run: one k-mer over every file ------------------------------------

  /** process_file's outcome for every file, in file order. */
  function FileOutcomes(args: Args, files: seq<seq<Read>>, phrase: int, patternSet: PatternSet, sliding: int,
                        changepoints: Changepoints): (r: seq<Result<seq<Entry>, RunError>>)
    requires |args.cutoff| > 0 && sliding > 0
    ensures |r| == |files|
  {
    seq(|files|, i requires 0 <= i < |files| => ProcessFileSpec(args, files[i], phrase, patternSet, sliding, changepoints))
  }

  /** pool.starmap(process_file, ...) over the files; the first file that fails stops the run. */
  function FileResults(args: Args, files: seq<seq<Read>>, phrase: int, patternSet: PatternSet, sliding: int,
                       changepoints: Changepoints): Result<seq<seq<Entry>>, RunError>
    requires |args.cutoff| > 0 && sliding > 0
  {
    AllOk(FileOutcomes(args, files, phrase, patternSet, sliding, changepoints))
  }

  /**
   * The results are process_file's, file by file; every entry is of the
   * k-mer being run and has a boundary; and a failure is the first failing
   * file's, never a k-mer that is too long.
   */
  lemma FileResultsSpec(args: Args, files: seq<seq<Read>>, phrase: int, patternSet: PatternSet,
                        sliding: int, changepoints: Changepoints)
    requires |args.cutoff| > 0 && sliding > 0
    ensures var r := FileResults(args, files, phrase, patternSet, sliding, changepoints);
      && (r.Ok? ==>
            && |r.value| == |files|
            && AllHaveBoundary(r.value)
            && (forall i :: 0 <= i < |files| ==>
                  ProcessFileSpec(args, files[i], phrase, patternSet, sliding, changepoints) == Ok(r.value[i]))
            && (forall i, e :: 0 <= i < |files| && e in r.value[i] ==> e.phrase == phrase))
      && (r.Err? ==>
            && r.error != KmerTooLong
            && exists i :: 0 <= i < |files| && ProcessFileSpec(args, files[i], phrase, patternSet, sliding, changepoints) == Err(r.error))
  {
    var outs := FileOutcomes(args, files, phrase, patternSet, sliding, changepoints);
    AllOkSpec(outs);
    forall i | 0 <= i < |files| {
      ProcessFileAligned(args, files[i], phrase, patternSet, sliding, changepoints);
    }
  }

  /** One pass of the k-mer loop: check the k-mer against the pattern, run every file, collect the entries. */
  function PhraseStep(args: Args, files: seq<seq<Read>>, st: Lengths, k: int, sliding: int, changepoints: Changepoints)
    : Result<Lengths, RunError>
    requires |args.cutoff| > 0 && sliding > 0
  {
    if k > |args.pattern| then Err(KmerTooLong)
    else
      var patternSet := PatternsToSearch(Single(args.pattern), k);
      match FileResults(args, files, k, patternSet, sliding, changepoints)
      case Err(e) => Err(e)
      case Ok(rs) =>
        FileResultsSpec(args, files, k, patternSet, sliding, changepoints);
        FlattenMembers(rs);
        Ok(Collect(st, Flatten(rs)))
  }

  /**
   * A pass fails with KmerTooLong exactly when the k-mer is longer than the
   * pattern; a pass that succeeds keeps the lists aligned and adds no key
   * but its own k-mer.
   */
  lemma PhraseStepSpec(args: Args, files: seq<seq<Read>>, st: Lengths, k: int, sliding: int, changepoints: Changepoints)
    requires |args.cutoff| > 0 && sliding > 0
    ensures var r := PhraseStep(args, files, st, k, sliding, changepoints);
      && (r == Err(KmerTooLong) <==> k > |args.pattern|)
      && (r.Ok? ==>
            && (Aligned(st) ==> Aligned(r.value))
            && forall j :: j in r.value.telo ==> j in st.telo || j == k)
  {
    if k <= |args.pattern| {
      var patternSet := PatternsToSearch(Single(args.pattern), k);
      FileResultsSpec(args, files, k, patternSet, sliding, changepoints);
      var fr := FileResults(args, files, k, patternSet, sliding, changepoints);
      if fr.Ok? {
        FlattenMembers(fr.value);
        CollectKeys(st, Flatten(fr.value));
      }
    }
  }

  /** The loop over the k-mers, first to last; the first failing pass stops the run. */
  function RunPhrases(args: Args, files: seq<seq<Read>>, phrases: seq<int>, sliding: int, changepoints: Changepoints)
    : Result<Lengths, RunError>
    requires |args.cutoff| > 0 && sliding > 0
  {
    if phrases == [] then Ok(NoLengths)
    else
      match RunPhrases(args, files, phrases[..|phrases| - 1], sliding, changepoints)
      case Err(e) => Err(e)
      case Ok(st) => PhraseStep(args, files, st, phrases[|phrases| - 1], sliding, changepoints)
  }

  /** The run over a prefix one k-mer longer: one more pass after the shorter run, unless that failed. */
  lemma RunPhrasesStep(args: Args, files: seq<seq<Read>>, phrases: seq<int>, n: nat, sliding: int,
                       changepoints: Changepoints)
    requires |args.cutoff| > 0 && sliding > 0 && n < |phrases|
    ensures var r0 := RunPhrases(args, files, phrases[..n], sliding, changepoints);
      RunPhrases(args, files, phrases[..n + 1], sliding, changepoints)
        == if r0.Err? then r0 else PhraseStep(args, files, r0.value, phrases[n], sliding, changepoints)
  {
    assert phrases[..n + 1][..n] == phrases[..n] && phrases[..n + 1][n] == phrases[n];
  }

  /** The collected lists are aligned and keyed only by requested k-mers no longer than the pattern. */
  lemma {:induction false} RunPhrasesOk(args: Args, files: seq<seq<Read>>, phrases: seq<int>, sliding: int,
                                        changepoints: Changepoints)
    requires |args.cutoff| > 0 && sliding > 0
    ensures var r := RunPhrases(args, files, phrases, sliding, changepoints);
      r.Ok? ==> Aligned(r.value) && forall k :: k in r.value.telo ==> k in phrases && k <= |args.pattern|
  {
    if phrases != [] {
      var init := phrases[..|phrases| - 1];
      var k := phrases[|phrases| - 1];
      RunPhrasesOk(args, files, init, sliding, changepoints);
      var r0 := RunPhrases(args, files, init, sliding, changepoints);
      if r0.Ok? {
        PhraseStepSpec(args, files, r0.value, k, sliding, changepoints);
        assert forall j :: j in init ==> j in phrases;
      }
    }
  }

  /** KmerTooLong is reported only when a requested k-mer is longer than the pattern. */
  lemma {:induction false} TooLongOnlyIfRequested(args: Args, files: seq<seq<Read>>, phrases: seq<int>, sliding: int,
                                                  changepoints: Changepoints)
    requires |args.cutoff| > 0 && sliding > 0
    ensures RunPhrases(args, files, phrases, sliding, changepoints) == Err(KmerTooLong) ==>
      exists i :: 0 <= i < |phrases| && phrases[i] > |args.pattern|
  {
    if phrases != [] {
      var init := phrases[..|phrases| - 1];
      TooLongOnlyIfRequested(args, files, init, sliding, changepoints);
      var r0 := RunPhrases(args, files, init, sliding, changepoints);
      if r0.Ok? {
        PhraseStepSpec(args, files, r0.value, phrases[|phrases| - 1], sliding, changepoints);
      } else if r0 == Err(KmerTooLong) {
        var i :| 0 <= i < |init| && init[i] > |args.pattern|;
        assert phrases[i] == init[i];
      }
    }
  }

  /** A k-mer longer than the pattern stops the run over every prefix that includes it. */
  lemma {:induction false} TooLongStopsPrefix(args: Args, files: seq<seq<Read>>, phrases: seq<int>, sliding: int,
                                              changepoints: Changepoints, i: nat, n: nat)
    requires |args.cutoff| > 0 && sliding > 0
    requires i < n <= |phrases| && phrases[i] > |args.pattern|
    ensures RunPhrases(args, files, phrases[..n], sliding, changepoints).Err?
  {
    RunPhrasesStep(args, files, phrases, n - 1, sliding, changepoints);
    if i < n - 1 {
      TooLongStopsPrefix(args, files, phrases, sliding, changepoints, i, n - 1);
    }
  }

  /** A k-mer longer than the pattern always stops the run. */
  lemma TooLongStops(args: Args, files: seq<seq<Read>>, phrases: seq<int>, sliding: int,
                     changepoints: Changepoints, i: nat)
    requires |args.cutoff| > 0 && sliding > 0
    requires i < |phrases| && phrases[i] > |args.pattern|
    ensures RunPhrases(args, files, phrases, sliding, changepoints).Err?
  {
    TooLongStopsPrefix(args, files, phrases, sliding, changepoints, i, |phrases|);
    assert phrases[..|phrases|] == phrases;
  }

  /** When the first k-mer is longer than the pattern the run stops with KmerTooLong before any file is read. */
  lemma {:induction false} FirstTooLong(args: Args, files: seq<seq<Read>>, phrases: seq<int>, sliding: int,
                                        changepoints: Changepoints)
    requires |args.cutoff| > 0 && sliding > 0
    requires |phrases| > 0 && phrases[0] > |args.pattern|
    ensures RunPhrases(args, files, phrases, sliding, changepoints) == Err(KmerTooLong)
  {
    var init := phrases[..|phrases| - 1];
    if |init| == 0 {
      PhraseStepSpec(args, files, NoLengths, phrases[0], sliding, changepoints);
    } else {
      assert init[0] == phrases[0];
      FirstTooLong(args, files, init, sliding, changepoints);
    }
  }

  // ---- analysis_run: the summary of every k-mer ----------------------------------

  /** What analysis_run reports for one k-mer: the two medians and the cutoff recommendation. */
  datatype PhraseSummary = PhraseSummary(phrase: int, medianTelo: real, medianTrc: real, recommendation: Recommendation)

  /** sorted(phrase_to_telo): the k-mers seen, ascending, each once. */
  function SortedPhrases(st: Lengths): (r: seq<int>)
    ensures StrictlySorted(r, IntLess) && Elems(r) == Elems(st.seen)
  {
    IntLessIsStrictTotalOrder();
    SortUniqueCorrect(st.seen, IntLess);
    SortUnique(st.seen, IntLess)
  }

  /** The summary of one k-mer. */
  function Summarize(st: Lengths, k: int, inputTrc: real, vertexOf: (seq<real>, seq<real>) -> real): PhraseSummary
    requires Aligned(st) && k in st.telo
  {
    PhraseSummary(k, Median(st.telo[k]), Median(st.trc[k]), Calibrate(st.trc[k], st.telo[k], inputTrc, vertexOf))
  }

  /** The summaries of every k-mer seen, in ascending order. */
  function Summaries(st: Lengths, inputTrc: real, vertexOf: (seq<real>, seq<real>) -> real): seq<PhraseSummary>
    requires Aligned(st)
  {
    var keys := SortedPhrases(st);
    assert forall i :: 0 <= i < |keys| ==> keys[i] in Elems(keys);
    seq(|keys|, i requires 0 <= i < |keys| => Summarize(st, keys[i], inputTrc, vertexOf))
  }

  /** analysis_run on the reads of every input file, with the first --cutoff value as input TRC. */
  function AnalysisSpec(args: Args, files: seq<seq<Read>>, changepoints: Changepoints,
                        vertexOf: (seq<real>, seq<real>) -> real): Result<seq<PhraseSummary>, RunError>
    requires |args.cutoff| > 0 && SlideStep(args) > 0
  {
    match RunPhrases(args, files, KmerLengths(args), SlideStep(args), changepoints)
    case Err(e) => Err(e)
    case Ok(st) =>
      RunPhrasesOk(args, files, KmerLengths(args), SlideStep(args), changepoints);
      Ok(Summaries(st, args.cutoff[0], vertexOf))
  }

  /**
   * A finished run reports each k-mer that produced an entry once, in
   * ascending order; each is a requested k-mer no longer than the pattern,
   * and a recommended cutoff is never below min(0.4, input TRC). A k-mer longer than the
   * pattern stops the run, and only such a k-mer is reported as too long.
   */
  lemma AnalysisRunSpec(args: Args, files: seq<seq<Read>>, changepoints: Changepoints,
                        vertexOf: (seq<real>, seq<real>) -> real)
    requires |args.cutoff| > 0 && SlideStep(args) > 0
    ensures var r := AnalysisSpec(args, files, changepoints, vertexOf);
      && (r.Ok? ==>
            && (forall i, j :: 0 <= i < j < |r.value| ==> r.value[i].phrase < r.value[j].phrase)
            && (forall i :: 0 <= i < |r.value| ==> r.value[i].phrase in KmerLengths(args) && r.value[i].phrase <= |args.pattern|)
            && (forall i :: 0 <= i < |r.value| && r.value[i].recommendation.Recommended? ==>
                  r.value[i].recommendation.cutoff >= Min(0.4, args.cutoff[0])))
      && (RunPhrases(args, files, KmerLengths(args), SlideStep(args), changepoints).Ok? ==>
            var st := RunPhrases(args, files, KmerLengths(args), SlideStep(args), changepoints).value;
            r.Ok? && forall k :: k in st.telo ==>
              exists i :: 0 <= i < |r.value| && r.value[i].phrase == k)
      && (r == Err(KmerTooLong) <==> RunPhrases(args, files, KmerLengths(args), SlideStep(args), changepoints) == Err(KmerTooLong))
      && (r == Err(KmerTooLong) ==> exists i :: 0 <= i < |KmerLengths(args)| && KmerLengths(args)[i] > |args.pattern|)
      && ((exists i :: 0 <= i < |KmerLengths(args)| && KmerLengths(args)[i] > |args.pattern|) ==> r.Err?)
  {
    RunPhrasesOk(args, files, KmerLengths(args), SlideStep(args), changepoints);
    TooLongOnlyIfRequested(args, files, KmerLengths(args), SlideStep(args), changepoints);
    var phrases := KmerLengths(args);
    if exists i :: 0 <= i < |phrases| && phrases[i] > |args.pattern| {
      var i :| 0 <= i < |phrases| && phrases[i] > |args.pattern|;
      TooLongStops(args, files, phrases, SlideStep(args), changepoints, i);
    }
    var r := AnalysisSpec(args, files, changepoints, vertexOf);
    if r.Ok? {
      var st := RunPhrases(args, files, KmerLengths(args), SlideStep(args), changepoints).value;
      var keys := SortedPhrases(st);
      forall k | k in st.telo
        ensures exists i :: 0 <= i < |r.value| && r.value[i].phrase == k
      {
        assert k in Elems(keys);
        var i :| 0 <= i < |keys| && keys[i] == k;
        assert r.value[i].phrase == k;
      }
      forall i | 0 <= i < |r.value|
        ensures r.value[i].phrase in KmerLengths(args) && r.value[i].phrase <= |args.pattern|
        ensures r.value[i].recommendation.Recommended? ==> r.value[i].recommendation.cutoff >= Min(0.4, args.cutoff[0])
      {
        assert keys[i] in Elems(keys);
        CalibrateSpec(st.trc[keys[i]], st.telo[keys[i]], args.cutoff[0], vertexOf);
      }
    }
  }

  // ---- analysis_run: the loops -----------------------------------------------------

  /** The starmap over the files for one k-mer. */
  method ProcessFiles(args: Args, files: seq<seq<Read>>, phrase: int, patternSet: PatternSet, sliding: int,
                      changepoints: Changepoints) returns (r: Result<seq<seq<Entry>>, RunError>)
    requires |args.cutoff| > 0 && sliding > 0
    ensures r == FileResults(args, files, phrase, patternSet, sliding, changepoints)
  {
    ghost var outs := FileOutcomes(args, files, phrase, patternSet, sliding, changepoints);
    var results: seq<seq<Entry>> := [];
    for n := 0 to |files|
      invariant AllOk(outs[..n]) == Ok(results)
    {
      var fileResult := ProcessFile(args, files[n], phrase, patternSet, sliding, changepoints);
      AllOkStep(outs, n);
      if fileResult.Err? {
        AllOkErrorPersists(outs, n + 1);
        return Err(fileResult.error);
      }
      results := results + [fileResult.value];
    }
    assert outs[..|files|] == outs;
    return Ok(results);
  }

  /** The nested loop over the file results and their entries. */
  method CollectResults(st0: Lengths, results: seq<seq<Entry>>) returns (st: Lengths)
    requires AllHaveBoundary(results)
    ensures HasBoundary(Flatten(results)) && st == Collect(st0, Flatten(results))
  {
    FlattenMembers(results);
    st := st0;
    for i := 0 to |results|
      invariant HasBoundary(Flatten(results[..i])) && st == Collect(st0, Flatten(results[..i]))
    {
      var fileResult := results[i];
      ghost var done := Flatten(results[..i]);
      assert done + fileResult[..0] == done;
      for j := 0 to |fileResult|
        invariant HasBoundary(fileResult[..j]) && st == Collect(st0, done + fileResult[..j])
        invariant HasBoundary(done + fileResult[..j])
      {
        var entry := fileResult[j];
        assert entry in results[i];
        assert fileResult[..j + 1] == fileResult[..j] + [entry];
        assert done + fileResult[..j + 1] == (done + fileResult[..j]) + [entry];
        st := AddEntry(st, entry);
      }
      assert fileResult[..|fileResult|] == fileResult;
      assert results[..i + 1][..i] == results[..i];
      assert Flatten(results[..i + 1]) == done + fileResult;
    }
    assert results[..|results|] == results;
  }

  /** The summary loop over the sorted k-mers. */
  method SummarizeAll(st: Lengths, inputTrc: real, vertexOf: (seq<real>, seq<real>) -> real)
    returns (summaries: seq<PhraseSummary>)
    requires Aligned(st)
    ensures summaries == Summaries(st, inputTrc, vertexOf)
  {
    var phrases := SortedPhrases(st);
    ghost var all := Summaries(st, inputTrc, vertexOf);
    assert |all| == |phrases|;
    summaries := [];
    for i := 0 to |phrases|
      invariant summaries == all[..i]
    {
      var phrase := phrases[i];
      assert phrase in Elems(phrases);
      var medianTelo := Median(st.telo[phrase]);
      var medianTrc := Median(st.trc[phrase]);
      var recommendation := CalibratePhrase(st.trc[phrase], st.telo[phrase], inputTrc, vertexOf);
      assert all[i] == Summarize(st, phrase, inputTrc, vertexOf) == PhraseSummary(phrase, medianTelo, medianTrc, recommendation);
      assert all[..i + 1] == all[..i] + [all[i]];
      summaries := summaries + [PhraseSummary(phrase, medianTelo, medianTrc, recommendation)];
    }
    assert all[..|phrases|] == all;
  }

  /** The body of the k-mer loop after the length check: the step, the patterns, the files, the aggregation. */
  method RunPhrase(args: Args, files: seq<seq<Read>>, st: Lengths, telophrase: int, changepoints: Changepoints)
    returns (r: Result<Lengths, RunError>)
    requires |args.cutoff| > 0 && SlideStep(args) > 0 && telophrase <= |args.pattern|
    ensures r == PhraseStep(args, files, st, telophrase, SlideStep(args), changepoints)
  {
    var slidingVal := if args.slide.Some? && args.slide.value != 0 then args.slide.value else |args.pattern|;
    var pattern := PatternsToSearch(Single(args.pattern), telophrase);
    var results := ProcessFiles(args, files, telophrase, pattern, slidingVal, changepoints);
    if results.Err? {
      return Err(results.error);
    }
    FileResultsSpec(args, files, telophrase, pattern, slidingVal, changepoints);
    var collected := CollectResults(st, results.value);
    return Ok(collected);
  }

  /** The k-mer loop of analysis_run. */
  method RunAll(args: Args, files: seq<seq<Read>>, changepoints: Changepoints) returns (r: Result<Lengths, RunError>)
    requires |args.cutoff| > 0 && SlideStep(args) > 0
    ensures r == RunPhrases(args, files, KmerLengths(args), SlideStep(args), changepoints)
  {
    var telophrases := KmerLengths(args);
    var st := NoLengths;
    for n := 0 to |telophrases|
      invariant RunPhrases(args, files, telophrases[..n], SlideStep(args), changepoints) == Ok(st)
    {
      var telophrase := telophrases[n];
      RunPhrasesStep(args, files, telophrases, n, SlideStep(args), changepoints);
      if telophrase > |args.pattern| {
        RunPhrasesErrorPersists(args, files, telophrases, n + 1, SlideStep(args), changepoints);
        return Err(KmerTooLong);
      }
      var step := RunPhrase(args, files, st, telophrase, changepoints);
      if step.Err? {
        RunPhrasesErrorPersists(args, files, telophrases, n + 1, SlideStep(args), changepoints);
        return Err(step.error);
      }
      st := step.value;
    }
    assert telophrases[..|telophrases|] == telophrases;
    return Ok(st);
  }

  /** analysis_run(args) on the reads of every input file. */
  method AnalysisRun(args: Args, files: seq<seq<Read>>, changepoints: Changepoints,
                     vertexOf: (seq<real>, seq<real>) -> real) returns (r: Result<seq<PhraseSummary>, RunError>)
    requires |args.cutoff| > 0 && SlideStep(args) > 0
    ensures r == AnalysisSpec(args, files, changepoints, vertexOf)
  {
    var collected := RunAll(args, files, changepoints);
    if collected.Err? {
      return Err(collected.error);
    }
    RunPhrasesOk(args, files, KmerLengths(args), SlideStep(args), changepoints);
    var inputTrc := args.cutoff[0];
    var summaries := SummarizeAll(collected.value, inputTrc, vertexOf);
    return Ok(summaries);
  }

  /** Once the k-mers of a prefix fail, all of them fail the same way. */
  lemma {:induction false} RunPhrasesErrorPersists(args: Args, files: seq<seq<Read>>, phrases: seq<int>, n: nat,
                                                   sliding: int, changepoints: Changepoints)
    requires |args.cutoff| > 0 && sliding > 0 && n <= |phrases|
    requires RunPhrases(args, files, phrases[..n], sliding, changepoints).Err?
    ensures RunPhrases(args, files, phrases, sliding, changepoints) == RunPhrases(args, files, phrases[..n], sliding, changepoints)
    decreases |phrases| - n
  {
    if n < |phrases| {
      assert phrases[..n + 1][..n] == phrases[..n];
      RunPhrasesErrorPersists(args, files, phrases, n + 1, sliding, changepoints);
    } else {
      assert phrases[..n] == phrases;
    }
  }
}
