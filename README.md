# rspec-timing-splitter, modelled in Dafny

rspec-timing-splitter spreads a Ruby project's RSpec files across a number of
parallel CI jobs. Each job gets a share of the files whose recorded run time
is about the same as the other jobs' shares. There are three subcommands, and
this project models the core of two of them:

- **parse** reads an RSpec JUnit report. It sums each spec file's test-case
  times into one record per file.
- **split** takes those records and the spec files currently on disk. It
  balances the records into `total` buckets and prints the paths of bucket
  `current`. The last bucket also gets every spec file that has no timing
  record.

The project has five modules:

- `Timings` (timings.dfy) holds the shared record `FileTiming(file_path,
  total_time)` of src/timings/mod.rs. It also has the `Option` and `Result`
  wrappers and small facts about sums, path lists and flattened bucket lists.
- `Split` (split.dfy) models `split_timings`, a greedy
  longest-processing-time-first partition. `SplitSpec` is its functional
  specification:
  - a stable descending sort (`SortDesc`);
  - then a fold (`Assign`) that gives each record to the leftmost bucket with
    the smallest running total (`MinIndex`).

  The method `SplitTimings` is the algorithm as written. It works in place
  over an `array` of aggregators and is proved equal to `SplitSpec`. The
  lemmas prove the properties the balancer promises:
  - the bucket count;
  - every record is placed exactly once;
  - each bucket's order and running total;
  - the balance bound.
- `Parse` (parse.dfy) models `parse_rspec_output`.
  - It has a hand-written scanner for the attribute pattern
    `\s*(\w+)="([^"]+)"\s*`, made of `MatchAt` and `Captures`.
  - `ScanFrom` handles one line: it keeps the last `file` and the last
    `time`.
  - `AccumulateFrom` sums the lines' contributions per path, starting from 0.
  - `ParseSpec` is the whole pass. `ParseRspecOutput` is the loop as written,
    proved against it.
- `ParseExamples` (parse_examples.dfy) works through the source's unit test
  report and derives its single record.
- `Cli` (cli.dfy) models the `split` arm of src/main.rs:
  - the range guard;
  - the `retain` filter that keeps timings of current spec files;
  - `paths_not_covered_by_timings`;
  - choosing one bucket and appending the uncovered paths on the last split
    only;
  - the `_spec` stem filter of the spec discovery.

  It proves that, over all splits, every discovered spec file is printed. A
  spec file is printed exactly once when the timing paths are distinct, and
  nothing else is printed.

Durations are `real`. The float parser is a parameter `parseTime: string ->
Option<real>`, a partial function from the attribute text to a number.
`Path::file_stem` is a parameter `stem: string -> string`. The directory walk
is the sequence of entries it visits. What `split` prints is the sequence of
paths it writes.

Three behaviours of the code are worth naming. The model keeps the first two and represents the third as a `Failure` with no paths:

- A malformed `time` fails the whole call, even on a line without `file`
  (src/timings/parse.rs:22; `ParseFailsIff`, `LineFailsIff`).
- Negative times are accepted, by the parser and by the balancer. Only the
  balance bound `SplitBalanced` requires `NonNegative`.
- The range guard prints a message and returns `Ok(())`
  (src/main.rs:36-42). The model returns `Failure(RangeError(total,
  current))` and no paths.

## Model

| member | source | states |
|---|---|---|
| Timings.Paths | src/main.rs:51-54 | the printed list of a bucket has one path per record, in record order |
| Split.InsertDesc | src/timings/split.rs:14 | one step of the stable descending sort: the record goes after every strictly longer record and ahead of every record of equal time; no contract beyond its length, characterised by Split.InsertDescPermutes, Split.InsertDescSorted and Split.InsertDescStable |
| Split.SortDesc | src/timings/split.rs:12-14 | the stable descending sort of the copied records; no contract beyond its length, characterised by Split.SortDescPermutes, Split.SortDescSorted and Split.SortDescStable |
| Split.SortDescPermutes | src/timings/split.rs:12-14 | the sorted copy holds exactly the input records (multiset equality) |
| Split.SortDescSorted | src/timings/split.rs:13-14 | the sorted copy is in non-increasing `total_time` order |
| Split.SortDescStable | src/timings/split.rs:14 | the sort is stable: records of any one duration keep their input order |
| Split.MinIndex | src/timings/split.rs:31-36 | the chosen index holds a minimal running total, and every bucket to its left is strictly larger |
| Split.MinIndexIsLeftmostMin | src/timings/split.rs:31-36 | an index is the leftmost minimum exactly when it is the scan's choice (both directions) |
| Split.Place | src/timings/split.rs:31-39 | one placement: the leftmost-minimum bucket gains the record at its end and its duration in its total; no contract beyond the bucket count, characterised by Split.AssignTotalled, Split.AssignConserves and Split.AssignKeepsSpread |
| Split.Assign | src/timings/split.rs:29-40 | the main loop as a fold of Split.Place over the pending records; no contract beyond the bucket count, characterised by Split.AssignTotalled, Split.AssignConserves, Split.AssignKeepsBucketsSorted and Split.AssignKeepsSpread |
| Split.Empty | src/timings/split.rs:21-27 | `k` aggregators, each with no records and a zero total |
| Split.Records | src/timings/split.rs:42-45 | one record list per aggregator, in bucket order, each the records in the order they were appended |
| Split.MinBucketIndex | src/timings/split.rs:31-36 | the `skip(1)` scan with strict `<` over the aggregator array returns the leftmost minimum |
| Split.NewBuckets | src/timings/split.rs:21-27 | the initialising loop yields `total_splits` fresh aggregators, each with no records and a zero total |
| Split.PlaceTiming | src/timings/split.rs:31-39 | one step of the main loop leaves the aggregator array as `Place` says: only the leftmost-minimum bucket changes, gaining the record at its end and its duration in its total |
| Split.PlaceAll | src/timings/split.rs:29-40 | the main loop over the sorted records leaves the array as the fold `Assign` of those records over its old contents |
| Split.SplitSpec | src/timings/split.rs:7-10 | the result has exactly `total_splits` buckets, so none when `total_splits == 0` |
| Split.SplitTimings | src/timings/split.rs:7-46 | the in-place algorithm (sort, `total_splits` empty aggregators, leftmost-minimum placement, records in bucket order) returns exactly `SplitSpec` and has `total_splits` buckets |
| Split.AssignTotalled | src/timings/split.rs:38-39 | placing records keeps every bucket's running total equal to the sum of its records |
| Split.AssignConserves | src/timings/split.rs:29-40 | after placing records, the buckets hold the previous records plus exactly the placed ones |
| Split.AssignKeepsBucketsSorted | src/timings/split.rs:29-39 | placing records in non-increasing order keeps every bucket non-increasing |
| Split.AssignKeepsSpread | src/timings/split.rs:29-40 | if the bucket totals differ by at most `d` and each record is between 0 and `d`, they still do after placement |
| Split.SplitConserves | src/timings/split.rs:29-45 | the buckets, concatenated, are a permutation of the input: every record is placed exactly once |
| Split.SplitTotals | src/timings/split.rs:38-39 | each final running total equals the sum of the durations in that bucket |
| Split.SplitBucketsSorted | src/timings/split.rs:13-14 | every bucket lists its records in non-increasing `total_time` order |
| Split.SplitBalanced | src/timings/split.rs:3-6 | with non-negative durations, any two bucket sums differ by at most the longest single duration |
| Split.SplitTwice | src/timings/split.rs:59-68 | two runs on the same input give the same buckets |
| Split.FewerTimingsThanBuckets | src/timings/split.rs:70-80 | `[(a,10),(b,20)]` over 3 buckets gives `[[b],[a],[]]`: `a` takes bucket 1, the leftmost of the two empty buckets |
| Split.MoreTimingsSorted | src/timings/split.rs:82-86 | the stable descending sort orders `a,b,c,d` (10, 20, 15, 5) as `b,c,a,d` |
| Split.MoreTimingsThanBuckets | src/timings/split.rs:82-95 | `[(a,10),(b,20),(c,15),(d,5)]` over 2 buckets gives `[[b,d],[c,a]]`: `b` takes bucket 0 on the tie between the empty buckets, and `d` joins bucket 0 (20 < 25), leaving both totals at 25 |
| Parse.MatchAt | src/timings/parse.rs:6 | the match the engine reports at one position; its contract says only that a match ends after its start and within the line, and it is characterised by Parse.MatchAtSound and Parse.MatchAtComplete |
| Parse.Captures | src/timings/parse.rs:16 | the leftmost-first, non-overlapping matches of `captures_iter`; no contract of its own, characterised by Parse.CapturesValid, Parse.CapturesOfAttributes and Parse.NoEqualsNoCaptures |
| Parse.MatchAtSound | src/timings/parse.rs:6 | every match the scanner reports has blanks, a non-empty word key, `="`, a non-empty quote-free value, `"`, then blanks, in that order |
| Parse.MatchAtComplete | src/timings/parse.rs:6 | wherever the pattern's language occurs at a position, the scanner matches there with the same key and value and consumes at least as far |
| Parse.CapturesValid | src/timings/parse.rs:6 | every captured key is a non-empty run of word characters and every value is non-empty with no `"` |
| Parse.NoEqualsNoCaptures | src/timings/parse.rs:6 | a line without `=` has no matches |
| Parse.MatchAttribute | src/timings/parse.rs:6 | a ` key="value"` attribute is matched at its leading blank with exactly that key and value |
| Parse.CapturesOfAttributes | src/timings/parse.rs:16 | `captures_iter` over a run of attributes yields exactly those attributes, in order (round trip) |
| Parse.TagLineCaptures | src/timings/parse.rs:16 | a line that is a tag name, then attributes, then a tail with no `=` yields exactly its attributes |
| Parse.ScanFrom | src/timings/parse.rs:16-24 | the inner loop over a line's captures; no contract of its own, characterised by Parse.ScanFailsIff and Parse.ScanKeepsLast |
| Parse.LineEntry | src/timings/parse.rs:14-29 | what one line contributes; no contract of its own, characterised by Parse.LineFailsIff, Parse.LineEntryIff and Parse.NoEqualsEntry |
| Parse.ScanFailsIff | src/timings/parse.rs:16-24 | reading a line's captures fails exactly when some `time` value does not parse, whether or not the line has a `file` |
| Parse.ScanKeepsLast | src/timings/parse.rs:16-24 | a successful read keeps the last `file` value and the parse of the last `time` value; other keys are ignored |
| Parse.LineFailsIff | src/timings/parse.rs:22 | a line errors exactly when one of its matched `time` values does not parse |
| Parse.LineEntryIff | src/timings/parse.rs:14-29 | a line adds to the totals exactly when it matched both a `file` and a `time` and has no bad `time`; it adds the last `time` to the last `file` |
| Parse.NoEqualsEntry | src/timings/parse.rs:14-29 | a garbage line without `=` adds nothing and raises no error |
| Parse.Lines | src/timings/parse.rs:13 | `str::lines`: split at `\n`, drop the `\r` of a `\r\n` ending, and add no empty line after a final `\n`; no contract of its own, characterised by Parse.LinesOfJoin |
| Parse.LinesOfJoin | src/timings/parse.rs:13 | splitting joined lines at `\n` gives the lines back, when no line holds a `\n` or ends in `\r` and the last is non-empty |
| Parse.AccumulateFrom | src/timings/parse.rs:12-29 | the map update `or_insert(0.0) +=` over the lines, stopping at the first error; no contract of its own, characterised by Parse.AccumulateFailsIff and Parse.AccumulateSums |
| Parse.ParseSpec | src/timings/parse.rs:9-39 | the whole pass over the text; no contract of its own, characterised by Parse.ParseFailsIff and Parse.ParseSums |
| Parse.AccumulateFailsIff | src/timings/parse.rs:13-30 | the pass fails exactly when some line fails |
| Parse.AccumulateSums | src/timings/parse.rs:12-29 | a path has an entry exactly when it had one before or some line contributes to it, and its total is the old total (0 when absent) plus the sum of its contributions |
| Parse.ParseFailsIff | src/timings/parse.rs:9-39 | `parse_rspec_output` fails exactly when some line has a `time` value that does not parse |
| Parse.ParseSums | src/timings/parse.rs:12-38 | on success, the paths in the result are exactly those some line contributes to, and each maps to the sum of its lines' times starting from 0 |
| Parse.ListsMapSingleton | src/timings/parse.rs:32-38 | a map with a single path is listed as exactly that one record |
| Parse.ScanLine | src/timings/parse.rs:14-29 | the per-line loop with its `file`/`time` options computes the line's entry, error included |
| Parse.CollectRecords | src/timings/parse.rs:32-38 | the map's entries become records, one per path with its total, in some order |
| Parse.AccumulateLines | src/timings/parse.rs:12-30 | the loop updating the map with `or_insert(0.0) +=` computes the accumulation, stopping at the first error |
| Parse.ParseRspecOutput | src/timings/parse.rs:9-39 | fails exactly when the specification fails, with the same bad value; on success it lists the specification's totals, one record per distinct path |
| ParseExamples.TestcaseCaptures | src/timings/parse.rs:50-51 | a `<testcase>` line of the test yields its four attributes `classname`, `name`, `file`, `time` |
| ParseExamples.TestcaseEntry | src/timings/parse.rs:50-51 | such a line adds its parsed time to `./spec/lib/deliveries/worker_spec.rb` |
| ParseExamples.WorkerSpecEntries | src/timings/parse.rs:47-52 | noise lines add nothing, and the two testcase lines each add their time to the worker spec |
| ParseExamples.WorkerSpecTotals | src/timings/parse.rs:54-60 | those entries sum to a single path holding both times |
| ParseExamples.ReportEntriesTotals | src/timings/parse.rs:47-60 | the test's lines accumulate to the single total 0.584580 for the worker spec |
| ParseExamples.ReportTotals | src/timings/parse.rs:45-61 | the test's report text parses to the single total 0.164580 + 0.42 = 0.584580 for the worker spec |
| ParseExamples.ReportRecords | src/timings/parse.rs:54-60 | the records listed for that result are exactly one `FileTiming` for the worker spec with 0.584580 |
| Cli.SpecPaths | src/main.rs:155-161 | the file branch of the walk: the visited non-directory entries whose stem ends in `_spec`; no contract of its own, characterised by Cli.SpecPathsIff |
| Cli.SpecPathsIff | src/main.rs:155-161 | a path is discovered exactly when a visited non-directory entry with that path has a stem ending in `_spec` |
| Cli.ReadSpecs | src/main.rs:152-163 | the file branch of the walk collects the spec paths in visiting order |
| Cli.Retain | src/main.rs:128 | `retain` against the set of spec paths; no contract of its own, characterised by Cli.RetainAppend, Cli.RetainCount, Cli.RetainMembers and Cli.RetainDistinct |
| Cli.Kept | src/main.rs:125-128 | the timings kept for the discovered spec paths; no contract of its own, characterised by Cli.LoadFileTimings and the Retain lemmas |
| Cli.RetainAppend | src/main.rs:128 | the filter distributes over concatenation, so kept records keep their relative order |
| Cli.RetainCount | src/main.rs:128 | a record is kept as often as it occurs when its path is a spec path, and never otherwise |
| Cli.RetainMembers | src/main.rs:128 | the kept records are exactly the input records whose path is a spec path |
| Cli.RetainDistinct | src/main.rs:128 | filtering keeps timing paths distinct |
| Cli.LoadFileTimings | src/main.rs:123-129 | the in-place `retain` over the decoded timings leaves exactly the filter's result |
| Cli.NotCovered | src/main.rs:132-146 | the set difference of discovered spec paths minus timing paths; no contract of its own, characterised by Cli.PathsNotCoveredByTimings |
| Cli.Uncovered | src/main.rs:58-61 | the paths appended on the last split: those not covered by the kept timings; no contract of its own, characterised by Cli.TimesPrintedAll and Cli.EverySpecPrinted |
| Cli.PathsNotCoveredByTimings | src/main.rs:132-146 | the result lists each discovered spec path that no timing names exactly once, and nothing else |
| Cli.SplitOutput | src/main.rs:36-42 | the split fails exactly when `current >= total` (including `total == 0`), with that range error |
| Cli.Buckets | src/main.rs:44-47 | the balancer's result has one bucket per split, so index `current` exists once the guard passes |
| Cli.RunSplit | src/main.rs:36-67 | the split arm fails exactly on the range error and then prints nothing; otherwise it prints bucket `current`'s paths in order, then, on the last split only, each uncovered spec path once |
| Cli.PrintsCount | src/main.rs:49-67 | the printed sequence holds a path as often as the bucket does, plus once if it is uncovered and this is the last split |
| Cli.SplitOccurrences | src/main.rs:44-67 | split `c` prints a path as often as bucket `c` holds it, plus once on the last split if it is uncovered |
| Cli.TimesPrintedPrefix | src/main.rs:44-67 | splits `0..n` together print what buckets `0..n` hold, plus the uncovered paths once all splits have run |
| Cli.TimesPrintedAll | src/main.rs:44-67 | over all splits, a path is printed as often as the kept timings name it, plus once if it is uncovered |
| Cli.EverySpecPrinted | tests/test_split.rs:76-90 | over all splits, every discovered spec file is printed at least once |
| Cli.SpecPrintedOnce | tests/test_split.rs:76-90 | with distinct timing paths, every discovered spec file is printed exactly once over all splits |
| Cli.OnlySpecsPrinted | src/main.rs:128-146 | no split prints a path that is not a discovered spec file |

## Left out

- File I/O and JSON (src/main.rs:20-26, 33, 124) are left out. The model starts from the decoded timing records and the report text, and their I/O and decoding errors are not modelled.
- Console output is left out: the space-joined text, the leading space before the uncovered paths (src/main.rs:59-60), and the range error's message text. The printed output is the sequence of paths.
- The `analyze` subcommand (src/main.rs:71-117) is left out. It is display-only and formats float sums.
- CLI parsing (src/opt.rs) is left out. It has no logic of its own.
- The directory walk of `read_specs_recursively` (src/main.rs:149-151, 156) is left out. Its push/pop worklist and `read_dir` order depend on the operating system. The model takes the sequence of visited entries and keeps the file branch only. `Path::file_stem` is the parameter `stem`, and paths are compared as plain strings, without `PathBuf` normalisation.
- Cli.RunSplit: takes one list of discovered spec paths for both uses. The source walks the directory twice (src/main.rs:125, 139), and the model assumes both walks see the same files.
- IEEE f64 behaviour is left out. This covers rounding of `+=` (src/timings/parse.rs:28), NaN in `partial_cmp().unwrap()` (src/timings/split.rs:14), and the `str::parse::<f64>` grammar (src/timings/parse.rs:22). Durations are exact reals, and the float parser is the parameter `parseTime`. ParseExamples.ReportTotals: the sum 0.584580 is exact with reals, and it is stated for any `parseTime` that reads the two time strings as those numbers.
- The general regex engine and `lazy_static` are left out. Only the one attribute pattern is modelled, and `\w` is restricted to ASCII letters, digits and `_`.
- HashMap and HashSet iteration order (src/timings/parse.rs:32, src/main.rs:145) is left out. Parse.CollectRecords and Cli.PathsNotCoveredByTimings pick elements in an arbitrary order, and their contracts fix no order.
- The library `sort_by` is left out as an algorithm. It is specified by the stable insertion sort `Split.SortDesc`, which Split.SplitTimings calls.
- The `split-pre-bucketed` mode of tests/test_split_pre_bucketed.rs is left out. No such subcommand exists in src/opt.rs or src/main.rs.
- The process-spawning test scaffolding of tests/test_dir/mod.rs is left out. The test tests/test_split.rs:76-90 is covered by the general lemmas Cli.EverySpecPrinted and Cli.SpecPrintedOnce.
- `total_splits` and `current_split` are `u32` in the CLI (`Cli.u32`). `Split.SplitTimings` takes a `nat`, which the CLI passes unchanged.
