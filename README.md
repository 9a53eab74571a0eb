# Topsicle telomere-length core, modelled in Dafny

Topsicle estimates telomere length from long sequencing reads. It works in
four stages, each modelled here on values. Sequence files come in as
sequences of `Read(id, name, sequence)` records.

1. **Pattern derivation** (`Patterns`). A telomere motif such as `TTAGGG` is
   doubled and upper-cased. Its k-mers ("telophrases") are collected in a
   set and sorted. Their ACGT complements are appended after them.
   - A motif containing `|` is kept as one joined string instead.
   - A list input is only upper-cased.
2. **TRC scoring** (`Trc`). For each read longer than the minimum length, every
   pattern is counted in the read's first `no_bp` bases. It is also counted
   in the reversed last `no_bp` bases. Each count is scaled by
   `no_bp / len(motif)` (the telomere repeat content, TRC). The read's best
   strand is kept when its TRC is above the cutoff.
3. **Boundary detection** (`Windows`, `Boundary`). The trimmed head and the
   reversed tail of a read are cut into windows. Each window gets a mean
   pattern count, where a zero count is raised to 1. An external
   change-point search, a parameter of the model, finds the first break.
   That break's shifted window start is reported as the telomere boundary. `rawCountPattern` gives the same counts row by row.
4. **The run** (`Run`, `Calibration`). `process_file` and `analysis_run`
   work as follows:
   - default the k-mer length and the sliding step;
   - stop on a k-mer longer than the motif;
   - score and detect every file;
   - collect telomere lengths and TRCs per k-mer;
   - report medians;
   - for three or more reads, clamp a quadratic-fit vertex into a
     recommended TRC cutoff, and give the median length of the reads that
     reach it. This step is modelled with the fit call corrected (see
     "## Findings"): as written it raises `TypeError`.

The overview plot's data (`Overview`) is also modelled: one row of match
starts per read, with a cap on the number of reads.

Python behaviour is written out explicitly:
- slices with negative or out-of-range bounds (`Text.PySlice`);
- greedy, non-overlapping `re.finditer` on literal patterns (`Matching`);
- `sorted(set(...))` (`Sorting.SortUnique`);
- `np.median` and `max` (`Calibration`);
- `zip` truncation (`Calibration.FilterByTrc`);
- `defaultdict(list)` (`Run.Get`);
- exceptions, as `Result` values.

Two library calls are function parameters:
- `Changepoints`: the change-point search, `rpt.Binseg(...).predict`;
- `vertexOf`: the quadratic fit, `np.polyfit` followed by the vertex formula.

The vertex formula itself is `Calibration.Vertex`. Where the documentation
and the code disagree, the model follows the code:
- Windows hold `window_size - 1` characters, and the end clamp in
  `seq_cut_windows` is never taken.
- A negative `trimfirst` can produce a negative boundary.
- `bound_detect` lowers `maxlengthtelo` to a read's length, and that lowered
  value carries over to later records with the same id.
- The test `telo_boundary_point <= maxlengthtelo and telo_boundary_point != 0`
  never changes the recorded value. Only points with
  `start + trimfirst <= maxlengthtelo` are kept, so the first break is
  always within `maxlengthtelo`, and a break at 0 is recorded as 0 either way.

## Model

| member | source | states |
|---|---|---|
| Text.UpperIsUpper | Topsicle/allsteps.py:120 | upper-casing yields an upper-case string |
| Text.UpperOfUpper | Topsicle/allsteps.py:120 | upper-casing an upper-case string changes nothing, so upper-casing twice equals upper-casing once |
| Text.ReverseInvolution | Topsicle/allsteps.py:177 | reversing twice gives back the original sequence |
| Text.PySlice | Topsicle/allsteps.py:176-177 | a Python slice is never longer than its input and equals the plain subsequence when its bounds are in range |
| Text.ComplementInvolution | Topsicle/allsteps.py:112-115 | translating twice gives back the original string |
| Text.UpperReverse | Topsicle/allsteps.py:177 | upper-casing and reversing commute, so the order in `seq[-no_bp:][::-1].upper()` does not matter |
| Text.ComplementOfUpper | Topsicle/allsteps.py:115-120 | the complement of an upper-case string is upper-case, so the later `.upper()` changes nothing |
| Text.SliceOfUpper | Topsicle/allsteps.py:77 | any slice of the upper-cased doubled motif is upper-case |
| Sorting.SortUniqueCorrect | Topsicle/allsteps.py:82 | `sorted(list(set))` is strictly increasing and holds exactly the set's elements |
| Sorting.SortedUnique | Topsicle/allsteps.py:82 | two strictly sorted sequences with the same elements are equal, so the sorted output is determined by the set |
| Sorting.InsertUniqueCorrect | Topsicle/allsteps.py:79 | adding one element keeps the list strictly sorted and adds exactly that element |
| Sorting.IntLessIsStrictTotalOrder | Topsicle/main.py:250 | `<` on k-mer lengths is a strict total order, so `sorted(phrase_to_telo)` is well defined |
| Patterns.LexLessIsStrictTotalOrder | Topsicle/allsteps.py:82 | Python's string ordering is a strict total order |
| Matching.OccurrencesSound | Topsicle/allsteps.py:182 | every reported `finditer` start is a real match, and the matches do not overlap |
| Matching.OccurrencesGreedy | Topsicle/allsteps.py:182 | every match position is covered by a reported match, so the scan misses nothing |
| Matching.OccurrencesShift | Topsicle/allsteps.py:182 | counting in a suffix gives the same count as counting in the full string from that offset |
| Matching.RepeatCount | Topsicle/allsteps.py:178-185 | a string of n copies of a pattern holds exactly n matches, the perfect hit that makes TRC 1 |
| Patterns.PatternScrambleSpec | Topsicle/allsteps.py:57-82 | the result is strictly sorted, upper-case, and holds exactly the cuts of the given lengths of the upper-cased doubled motif |
| Patterns.CutsInOrderElems | Topsicle/allsteps.py:74-79 | a string is collected iff it is a cut of one of the lengths at an in-range position |
| Patterns.ScrambleOneLength | Topsicle/allsteps.py:74-79 | every cut has length k and occurs in the doubled motif; no cuts exist iff k exceeds twice the motif length |
| Patterns.PatternScrambleTelo | Topsicle/allsteps.py:57-82 | the imperative set-building loops plus sorting return exactly the scramble's specification |
| Patterns.CollectCuts | Topsicle/allsteps.py:74-79 | the nested loops leave exactly the elements of the in-order cut list in the set |
| Patterns.SortedSet | Topsicle/allsteps.py:82 | the result is strictly sorted and holds exactly the set |
| Patterns.PlainMotifPatterns | Topsicle/allsteps.py:104-120 | for a motif without `\|`, the patterns are the sorted k-mers followed by their complements, in the same order; complementing the second half gives back the first |
| Patterns.JoinedMotifPattern | Topsicle/allsteps.py:90-102 | a motif with `\|` yields one joined string: the upper-cased motif, then its translation character by character |
| Patterns.ListInputUppercased | Topsicle/allsteps.py:122-123 | a list input is returned upper-cased, element by element |
| Patterns.SearchList | Topsicle/allsteps.py:168 | compiling a list gives one pattern per item; iterating a joined string gives one single-character pattern per character |
| Patterns.ReexpandPlain | Topsicle/allsteps.py:249 | `bound_detect` expands the already expanded list again, which for a plain motif changes nothing |
| Patterns.ReexpandJoined | Topsicle/allsteps.py:249 | for a `\|` motif the second expansion appends the translation again, doubling the patterns |
| Patterns.SearchListNonEmpty | Topsicle/allsteps.py:84-125 | for a non-empty motif and k up to twice its length, at least one pattern is searched |
| Patterns.HumanMotifScenario | Topsicle/allsteps.py:84-125 | `TTAGGG` with k = 4 expands to the six sorted 4-mers and their six complements |
| Trc.FirstMaxIndex | Topsicle/allsteps.py:190-191 | `max(..., key=...)` picks a maximal score and is the first index that has it |
| Trc.PickHitSpec | Topsicle/allsteps.py:190-198 | no hit iff no score on either strand beats the cutoff; a hit has TRC above the cutoff, is the highest score on both strands, is forward iff it beats every reverse score, and names the first pattern that reaches it on its strand |
| Trc.ScoreReadSpec | Topsicle/allsteps.py:175-198 | reads not longer than `read_length` are skipped; a zero `no_bp`, an empty motif or no patterns raise; otherwise the hit is as `PickHitSpec` states, on the scaled counts of both ends |
| Trc.TrcHitsSpec | Topsicle/allsteps.py:174-204 | scoring fails iff some read's scoring fails; every hit beats the cutoff and names a read long enough |
| Trc.TrcHitsComplete | Topsicle/allsteps.py:174-198 | when scoring succeeds, every read's own hit is among the reported hits, so no hit is dropped |
| Trc.TrcHitsHas | Topsicle/allsteps.py:174-198 | a single read that reports a hit finds it in the stage's hits |
| Trc.TrcHitsAppend | Topsicle/allsteps.py:174-198 | scoring two runs of reads gives the hits of the first run followed by those of the second, or the first error; so hits come in read order |
| Trc.TrcHitsErrorPersists | Topsicle/allsteps.py:174-198 | once scoring fails, later reads do not change the outcome |
| Trc.CountPatterns | Topsicle/allsteps.py:181-187 | the counting loop yields exactly the scaled forward and reverse scores |
| Trc.ScoreOne | Topsicle/allsteps.py:175-198 | scoring one read imperatively matches its specification |
| Trc.PatternTrcCount | Topsicle/allsteps.py:152-204 | the whole scan over reads equals the hit list of the expanded patterns |
| Windows.WindowsFromSpec | Topsicle/allsteps.py:219-224 | windows start at `i, i+step, ...` below `len(s) - window_size + 1` and hold the slice `[start:start+ws-1]` |
| Windows.CutWindowsSpec | Topsicle/allsteps.py:207-225 | no windows iff the sequence is shorter than the window; the last start is the last multiple of the step that fits; each window has exactly `ws - 1` in-range characters |
| Windows.StartsIncrease | Topsicle/allsteps.py:219 | consecutive windows start exactly one step apart |
| Windows.SeqCutWindows | Topsicle/allsteps.py:207-225 | the loop builds exactly the specified windows |
| Boundary.WindowMeanSpec | Topsicle/allsteps.py:284 | a window's mean is at least 1, and exactly 1 iff no pattern occurs more than once |
| Boundary.MeanProfile | Topsicle/allsteps.py:279-291 | the profile loop computes the specified mean per window, and fails on an empty pattern list |
| Boundary.Kept | Topsicle/allsteps.py:304-305 | the kept points are exactly the profile points whose shifted start is within `maxlengthtelo`: every kept point is such a point, and every such point is kept |
| Boundary.KeptAppend | Topsicle/allsteps.py:304-305 | filtering two runs of points gives the kept points of the first followed by those of the second, so the profile's order is kept |
| Boundary.ProcessMeanSpec | Topsicle/allsteps.py:300-333 | nothing is recorded iff no point is kept or the search reports no break; an out-of-range break index raises; otherwise the recorded boundary is exactly the shifted start of the kept point at the first break, which is within `maxlengthtelo` |
| Boundary.RecordedClassified | Topsicle/allsteps.py:300-333 | one profile records at most one boundary, none for an empty profile, and each recorded boundary has the expected form |
| Boundary.DetectOneSpec | Topsicle/allsteps.py:261-336 | one read gives at most two boundaries, or one when the tail is known; all name the read and are 0 or a window start shifted by `trimfirst` |
| Boundary.DetectOneTails | Topsicle/allsteps.py:293-336 | with the tail known, a read's outcome is exactly that tail's profile outcome, its boundary or its error; with no tail, the reverse boundary comes before the forward one, and a failure carries the reverse tail's error first |
| Boundary.ProfilesFailTogether | Topsicle/allsteps.py:266-291 | the two trimmed tails have the same length, so their profiles raise together, both with the division by zero of an empty pattern list |
| Boundary.BoundsUnselected | Topsicle/allsteps.py:257-259 | a read id that no record has yields no boundary |
| Boundary.BoundsStep | Topsicle/allsteps.py:257-264 | one more record lowers `maxlengthtelo` to its length when it is the read asked for and shorter, and appends its boundaries |
| Boundary.MaxAfter | Topsicle/allsteps.py:263-264 | the running `maxlengthtelo` never grows |
| Boundary.MaxAfterCutsToRead | Topsicle/allsteps.py:263-264 | after a matching read, `maxlengthtelo` is at most that read's length and at most its earlier value |
| Boundary.BoundsSpec | Topsicle/allsteps.py:227-338 | no window size means no boundaries; at most two boundaries per matching record; all name the read and have the expected form |
| Boundary.BoundsErrorPersists | Topsicle/allsteps.py:257-336 | an exception in one record ends the scan with that error |
| Boundary.BoundDetect | Topsicle/allsteps.py:227-338 | the imperative scan returns exactly the specified boundaries |
| Boundary.DetectRead | Topsicle/allsteps.py:261-336 | the loop body for one record equals its specification |
| Boundary.RawRowsBlocks | Topsicle/allsteps.py:401-411 | the raw rows are the per-window blocks in window order |
| Boundary.WindowRowsCounts | Topsicle/allsteps.py:401-411 | a window's raw counts are exactly the counts whose mean `bound_detect` takes |
| Boundary.RawRowsRows | Topsicle/allsteps.py:401-411 | every raw row carries its strand, one of the patterns, and a count of at least 1 |
| Boundary.RawCountsSpec | Topsicle/allsteps.py:386-419 | no window size means no rows; rows carry a searched pattern and a count of at least 1, and only the known tail's strand |
| Boundary.RawCountPattern | Topsicle/allsteps.py:359-419 | the imperative scan returns exactly the specified rows, forward rows before reverse rows |
| Boundary.RawRead | Topsicle/allsteps.py:395-416 | the rows for one record equal their specification |
| Calibration.VertexSpec | Topsicle/allsteps.py:467-478 | the vertex zeroes the derivative and is the quadratic's minimum when `a > 0`, or its maximum when `a < 0` |
| Calibration.ClampVertexSpec | Topsicle/main.py:278-292 | the clamped cutoff is at least `min(0.4, inputtrc)`, equals the vertex when that is within `[0.4, max_trc]`, and is otherwise the median TRC, 0.9 or the input TRC |
| Calibration.ClampChainExample | Topsicle/main.py:278-292 | a vertex above the maximum is replaced by the median and then raised to the input cutoff |
| Calibration.MaxOf | Topsicle/main.py:270 | `max` returns a member that bounds all elements |
| Calibration.SortRealsSpec | Topsicle/main.py:261-262 | sorting for the median gives a sorted permutation |
| Calibration.MedianBounds | Topsicle/main.py:261-262 | the median lies at or below the maximum and at or above some element |
| Calibration.FilterByTrcSpec | Topsicle/main.py:297-300 | the filtered lengths are exactly those whose paired TRC reaches the cutoff, with `zip` truncation |
| Calibration.FilterByTrcAppend | Topsicle/main.py:297-300 | filtering distributes over concatenation of aligned lists |
| Calibration.CalibrateSpec | Topsicle/main.py:269-307 | a cutoff is recommended iff there are at least 3 lengths; it is at least `min(0.4, inputtrc)`; a filtered median exists iff some TRC reaches it, as it must when the cutoff is at most the maximum TRC, with the fit call corrected (see "## Findings") |
| Calibration.CalibrateAsWrittenFails | Topsicle/main.py:272-274 | with three lengths, the call as written fails with a `TypeError`, while the corrected call recommends a cutoff of at least 0.4 |
| Calibration.CalibratePhrase | Topsicle/main.py:260-307 | the per-k-mer reporting step equals its specification, with the fit call corrected (see "## Findings") |
| Overview.OverviewPatternsSpec | Topsicle/descriptive_plot.py:84 | the two plotted patterns are the upper-cased motif and its translation, which for a `\|` motif are the joined search string's halves |
| Overview.OverviewPairOfUpper | Topsicle/descriptive_plot.py:84 | for an upper-case motif the two patterns are each other's complement |
| Overview.PassingSpec | Topsicle/descriptive_plot.py:95 | only reads longer than `minSeqLength` are plotted, in file order |
| Overview.OverviewRowsSpec | Topsicle/descriptive_plot.py:94-115 | at most `cap` rows; row i names the i-th passing read, sits on line 2i, and holds the match starts of both patterns in the read's head and in its reversed tail |
| Overview.TailsOfPassingRead | Topsicle/descriptive_plot.py:98-100 | for a passing read, both plotted strings have exactly `minSeqLength` bases |
| Overview.CapReached | Topsicle/descriptive_plot.py:141-145 | once `cap` reads are plotted, later reads add nothing |
| Overview.PlotLoop | Topsicle/descriptive_plot.py:94-145 | the loop whose early return fires once more than `limit` reads are plotted returns the rows of the first `limit + 1` passing reads |
| Overview.DescriptivePlotAsWritten | Topsicle/descriptive_plot.py:141 | the check `iin > 40` plots up to 41 reads |
| Overview.FortyOneReadsPlotted | Topsicle/descriptive_plot.py:141-143 | with 41 passing reads the plot as written shows 41 rows, one more than the message says |
| Overview.DescriptivePlot | Topsicle/descriptive_plot.py:141-143 | the corrected cap plots at most 40 reads |
| Run.MinCutoff | Topsicle/main.py:56 | `min(args.cutoff)` is a member of the cutoffs and below all of them |
| Run.DefaultsSpec | Topsicle/main.py:190-216 | k-mer lengths default to `[len(pattern) - 2]`, and otherwise are the given list; the slide is the motif length when absent or 0, and otherwise the given value |
| Run.TailMapKeys | Topsicle/main.py:61 | the tail dictionary's keys are exactly the hit read ids |
| Run.TailMapLast | Topsicle/main.py:61 | for a repeated id the dictionary keeps the last hit's strand |
| Run.IndexOf | Topsicle/main.py:103 | `list.index` returns the first position holding the id, and fails iff the id is absent |
| Run.ReadCheckWithoutHit | Topsicle/main.py:93-100 | with a non-empty `read_check` naming a read without a TRC hit, `bound_detect` finds nothing and `bound_res[0]` fails with `NoBoundary` |
| Run.EmptyReadCheckAllHits | Topsicle/main.py:93 | an empty `read_check` is falsy, so `process_file` raises the scoring error or runs the loop over every hit, exactly as without `read_check` |
| Run.NoTrcUnreachable | Topsicle/main.py:102-106 | the `except ValueError` branch is never reached on a freshly filtered file |
| Run.EntryForSpec | Topsicle/main.py:126-141 | one filtered read's entry carries the k-mer and its TRC and at least one boundary naming that read; failures are detection errors or an empty boundary list |
| Run.EntriesOfSpec | Topsicle/main.py:126-153 | all entries line up with the hits, in order, or the first failing read's error is raised |
| Run.ProcessFileAligned | Topsicle/main.py:52-155 | a file yields one entry per hit when `read_check` is absent or empty (the truthiness test at line 93), and otherwise exactly one entry, for a hit with that id; every entry has a boundary and the k-mer |
| Run.DetectAll | Topsicle/main.py:126-153 | the per-read loop returns exactly the specified entries |
| Run.Filtered | Topsicle/main.py:84-87 | the filtered records are exactly the records whose id was hit: every kept record was hit, and every hit record is kept |
| Run.FilterRecords | Topsicle/main.py:84-87 | when the file is freshly written, the temporary file keeps exactly the records whose id was hit, in file order |
| Run.ProcessFile | Topsicle/main.py:52-155 | the imperative `process_file`, branching on the truthiness of `read_check`, equals its specification |
| Run.AddEntryContents | Topsicle/main.py:243-247 | adding an entry appends its length and TRC under its k-mer only |
| Run.AddEntryAligned | Topsicle/main.py:243-247 | adding an entry keeps the two per-k-mer lists the same length |
| Run.CollectSpec | Topsicle/main.py:241-247 | after aggregation each k-mer's lists are the previous ones followed by the lengths and TRCs of its entries, in order |
| Run.CollectKeys | Topsicle/main.py:241-247 | a k-mer has lists iff it had them or some entry carries it, and the lists stay aligned |
| Run.CollectAppend | Topsicle/main.py:241-242 | aggregating a concatenation is aggregating one part after the other |
| Run.FlattenMembers | Topsicle/main.py:241-242 | the nested loop visits exactly the entries of all file results |
| Run.FileResultsSpec | Topsicle/main.py:233-236 | the pool returns one result per file, each equal to `process_file` on it, or the first file's error |
| Run.PhraseStepSpec | Topsicle/main.py:207-247 | a k-mer longer than the motif stops the run, and only such a k-mer does; otherwise the lists stay aligned and only that k-mer is added |
| Run.RunPhrasesStep | Topsicle/main.py:207 | the k-mer loop is a left fold that stops at the first error |
| Run.RunPhrasesOk | Topsicle/main.py:207-247 | after a successful run the lists are aligned and keyed only by requested k-mers that fit the motif |
| Run.TooLongOnlyIfRequested | Topsicle/main.py:208-211 | the run stops for a too-long k-mer only if one was requested |
| Run.TooLongStops | Topsicle/main.py:208-211 | any requested k-mer longer than the motif makes the run fail |
| Run.FirstTooLong | Topsicle/main.py:208-211 | a too-long first k-mer stops the run before any file is read |
| Run.RunPhrasesErrorPersists | Topsicle/main.py:207-247 | once the run fails, later k-mers do not change the outcome |
| Run.SortedPhrases | Topsicle/main.py:250 | the reported k-mers are strictly increasing and exactly those with collected lengths |
| Run.AnalysisRunSpec | Topsicle/main.py:157-310 | every k-mer with collected lengths is reported, once and in increasing k-mer order; each reported k-mer is requested and fits the motif, with recommended cutoffs of at least `min(0.4, cutoff[0])`; the run fails for a too-long k-mer iff the k-mer loop does, and does fail when one is requested, with the fit call corrected (see "## Findings") |
| Run.ProcessFiles | Topsicle/main.py:233-236 | the per-file loop equals the pool's specified results |
| Run.CollectResults | Topsicle/main.py:241-247 | the nested aggregation loops equal the fold over all entries |
| Run.SummarizeAll | Topsicle/main.py:250-307 | the per-k-mer reporting loop equals its specification, with the fit call corrected (see "## Findings") |
| Run.RunPhrase | Topsicle/main.py:212-247 | one k-mer's pass equals its specification |
| Run.RunAll | Topsicle/main.py:207-247 | the k-mer loop equals the fold |
| Run.AnalysisRun | Topsicle/main.py:157-310 | the whole `analysis_run` equals its specification, with the fit call corrected (see "## Findings") |
| Wrappers.AllOkSpec | Topsicle/main.py:236 | collecting outcomes succeeds iff each does, with values in order; an error is the first failing outcome's |

## Left out

- File reading (FASTA/FASTQ, gzip), writing the temporary filtered file,
  the CSV outputs, logging, plots, the process pool, locks and thread counts
  are I/O. Files arrive as sequences of records.
- The pool's `starmap` stops at the first failing file, in file order.
  Concurrency and any other interleaving are not modelled.
- The change-point search (`rpt.Binseg`) and the least-squares fit
  (`np.polyfit`) are library calls. They are function parameters. Only the
  vertex formula and the index handling around them are modelled.
- Degenerate fits (`a == 0`, NaN, infinities) and all floating-point rounding
  are left out. TRCs, means and medians are exact reals.
- Regular-expression metacharacters in a motif are not modelled; patterns are
  matched as literals. In particular the `|` of a joined motif is not treated
  as alternation: a joined motif is searched character by character.
- `Run.ProcessFile` and `Boundary.BoundDetect` require a positive slide. With
  a negative explicit `--slide`, `range` would run backwards or produce
  nothing. The same requirement excludes an empty `--pattern` without
  `--slide`, whose default slide is 0. The source completes that run only
  when no read passes the length filter. Otherwise it raises
  `ZeroDivisionError` in `patternTRC_count` or `ValueError` from a `range`
  step of 0. Neither case is modelled.
- The `read_check` branch's raw-count call uses an undefined name (`read`),
  which raises `NameError`. Raw-count output is not modelled for that branch.
- With `read_check` naming a read without a TRC hit, the filtered file does
  not hold that read. `bound_res[0]` then raises `IndexError`
  (`Topsicle/main.py:100`), which the model reports as `NoBoundary`
  (`Run.ReadCheckWithoutHit`). The `except ValueError` branch
  (`Topsicle/main.py:102-110`) is modelled as the error `NoTrcForRead`, but
  no run of the model reaches it (`Run.NoTrcUnreachable`). In the source it
  is reached only through a reused temporary file.
- Reuse of the temporary file (`Topsicle/main.py:64-66`) is not modelled;
  the model always filters afresh. The file name holds the cutoff but not the
  k-mer. So with several `--telophrase` values on FASTA input, a later k-mer
  reuses the reads filtered for the first one. A read hit only for the later
  k-mer is then missing, and `bound_res[0]` raises `IndexError`
  (`Topsicle/main.py:134`).
- The change-point search is a total function parameter. Its own failure is
  not modelled: `rpt.Binseg(...).predict(n_bkps=1)` raises
  `BadSegmentationParameters` on a profile too short to split, fewer than 7
  kept points with the default jump 5 and minimum size 2, e.g. for a small
  `--maxlengthtelo`. Conversely the real search never returns an
  out-of-range index. The model's `IndexOutOfRange` error covers a search
  that does.
- Upper-casing is ASCII only (`Text.UpperChar`). Python's Unicode-aware
  `str.upper` (accented letters, `ß` to `SS`) is not modelled; reads and
  motifs are DNA letters.
- The refusal to overwrite an existing output file (`sys.exit(1)`) and
  `--override` are not modelled. `sys.exit()` for a too-long k-mer is the
  error `KmerTooLong`.
- `--cutoff` is a list of reals. Its default is the float `0.7`, for which
  the scalar side of the `isinstance(..., list)` branches is taken; the float
  default behaves as the list `[0.7]`.
- The duplicate `pattern_scramble_telo` and `patterns_to_search` in
  `Topsicle/descriptive_plot.py:149-214` differ from those in
  `Topsicle/allsteps.py:57-125` only in comments. They are modelled once, by
  the `Patterns` module.
- `patterns_vs_match_heatmap`, `check_file_type`, `unzip_file`,
  `plot_patterns` and the plotting in `rawCountPattern` only read files or
  draw. They are not part of this model.

## Findings

| source | as written | input that shows it | evidently intended | confidence | as-written member | corrected member |
|---|---|---|---|---|---|---|
| Topsicle/main.py:272-274 | `fit_quadratic_and_find_vertex` is called with keyword arguments `inputtrc`, `median_trc` and `save_path`, which its definition at `Topsicle/allsteps.py:467` does not accept, so the call raises `TypeError` | any k-mer with at least three collected lengths, e.g. TRCs `[0.5, 0.6, 0.7]`, lengths `[1000, 2000, 3000]` | fit the TRCs against the lengths and clamp the vertex | not executed | Calibration.CalibrateAsWritten | Calibration.Calibrate |
| Topsicle/descriptive_plot.py:141 | the early return fires only when `iin > 40`, after the 41st read has been plotted | a file with 41 reads longer than `minSeqLength` | the message says the plot has 40 reads, so the cap should be 40 | not executed | Overview.DescriptivePlotAsWritten | Overview.DescriptivePlot |
