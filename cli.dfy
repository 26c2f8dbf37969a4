/**
 * The `split` subcommand of src/main.rs: discovering spec files, dropping
 * timings of files that are no longer specs, choosing one bucket of the
 * split, and appending the spec files no timing covers on the last split.
 *
 * The directory walk is replaced by the sequence of entries it visits and
 * `Path::file_stem` by the parameter `stem`; paths are compared as plain
 * strings. What `split` prints is modelled as the sequence of paths it
 * writes, in order.
 */
module Cli {
  import opened Timings
  import opened Split

  /** The type of the `-s` and `-c` options. */
  newtype u32 = x: int | 0 <= x < 0x1_0000_0000

  // ---------------------------------------------------------------------
  // Spec discovery (read_specs_recursively)
  // ---------------------------------------------------------------------

  /** An entry the directory walk visits. */
  datatype DirEntry = DirEntry(path: string, isDir: bool)

  predicate EndsWith(s: string, suffix: string)
  {
    |suffix| <= |s| && s[|s| - |suffix|..] == suffix
  }

  /** A file, not a directory, whose stem ends in `_spec`. */
  predicate IsSpec(e: DirEntry, stem: string -> string)
  {
    !e.isDir && EndsWith(stem(e.path), "_spec")
  }

  /** The spec paths among the visited entries, in visiting order. */
  function SpecPaths(entries: seq<DirEntry>, stem: string -> string): seq<string>
  {
    if entries == [] then []
    else
      var e := entries[|entries| - 1];
      SpecPaths(entries[..|entries| - 1], stem) + (if IsSpec(e, stem) then [e.path] else [])
  }

  /** A path is discovered exactly when some visited entry with that path is a spec file. */
  lemma {:induction false} SpecPathsIff(entries: seq<DirEntry>, stem: string -> string, p: string)
    ensures p in SpecPaths(entries, stem) <==>
      exists i :: 0 <= i < |entries| && entries[i].path == p && IsSpec(entries[i], stem)
    decreases |entries|
  {
    if entries != [] {
      var n := |entries| - 1;
      SpecPathsIff(entries[..n], stem, p);
      if exists i :: 0 <= i < n && entries[..n][i].path == p && IsSpec(entries[..n][i], stem) {
        var i :| 0 <= i < n && entries[..n][i].path == p && IsSpec(entries[..n][i], stem);
        assert entries[i] == entries[..n][i];
      }
      if exists i :: 0 <= i < |entries| && entries[i].path == p && IsSpec(entries[i], stem) {
        var i :| 0 <= i < |entries| && entries[i].path == p && IsSpec(entries[i], stem);
        if i < n {
          assert entries[..n][i] == entries[i];
        }
      }
    }
  }

  /** The file branch of the walk: keep the paths whose stem ends in `_spec`. */
  method ReadSpecs(entries: seq<DirEntry>, stem: string -> string) returns (specs: seq<string>)
    ensures specs == SpecPaths(entries, stem)
  {
    specs := [];
    for i := 0 to |entries|
      invariant specs == SpecPaths(entries[..i], stem)
    {
      assert entries[..i + 1][..i] == entries[..i];
      var entry := entries[i];
      if !entry.isDir {
        var fileStem := stem(entry.path);
        if EndsWith(fileStem, "_spec") {
          specs := specs + [entry.path];
        }
      }
    }
    assert entries[..|entries|] == entries;
  }

  // ---------------------------------------------------------------------
  // load_file_timings: keep the timings of current spec files
  // ---------------------------------------------------------------------

  /** `Vec::retain` with the test `specs.contains(path)`. */
  function Retain(timings: seq<FileTiming>, specs: set<string>): seq<FileTiming>
  {
    if timings == [] then []
    else
      var t := timings[|timings| - 1];
      Retain(timings[..|timings| - 1], specs) + (if t.file_path in specs then [t] else [])
  }

  /** Retaining distributes over concatenation, so relative order is kept. */
  lemma {:induction false} RetainAppend(a: seq<FileTiming>, b: seq<FileTiming>, specs: set<string>)
    ensures Retain(a + b, specs) == Retain(a, specs) + Retain(b, specs)
    decreases |b|
  {
    if b == [] {
      assert a + b == a;
    } else {
      var n := |b| - 1;
      assert (a + b)[..|a + b| - 1] == a + b[..n];
      assert (a + b)[|a + b| - 1] == b[n];
      RetainAppend(a, b[..n], specs);
    }
  }

  /** Each record is kept as often as it occurs when its path is a spec, and dropped otherwise. */
  lemma {:induction false} RetainCount(timings: seq<FileTiming>, specs: set<string>, t: FileTiming)
    ensures multiset(Retain(timings, specs))[t] == if t.file_path in specs then multiset(timings)[t] else 0
    decreases |timings|
  {
    if timings != [] {
      var n := |timings| - 1;
      RetainCount(timings[..n], specs, t);
      assert timings == timings[..n] + [timings[n]];
    }
  }

  /** Every kept record comes from the input and has a spec path. */
  lemma RetainMembers(timings: seq<FileTiming>, specs: set<string>)
    ensures forall t :: t in Retain(timings, specs) <==> t in timings && t.file_path in specs
  {
    forall t ensures t in Retain(timings, specs) <==> t in timings && t.file_path in specs {
      RetainCount(timings, specs, t);
    }
  }

  /** Dropping records cannot make two paths collide. */
  lemma {:induction false} RetainDistinct(timings: seq<FileTiming>, specs: set<string>)
    requires DistinctPaths(timings)
    ensures DistinctPaths(Retain(timings, specs))
    decreases |timings|
  {
    if timings != [] {
      var n := |timings| - 1;
      var init := Retain(timings[..n], specs);
      RetainDistinct(timings[..n], specs);
      RetainMembers(timings[..n], specs);
      forall i | 0 <= i < |init| ensures init[i].file_path != timings[n].file_path {
        assert init[i] in timings[..n];
      }
    }
  }

  /** The timings the split arm keeps: those naming a discovered spec file. */
  function Kept(timings: seq<FileTiming>, specs: seq<string>): seq<FileTiming>
  {
    Retain(timings, set p | p in specs)
  }

  /** The in-place filter over the decoded timings. */
  method LoadFileTimings(fileTimings: seq<FileTiming>, specs: seq<string>) returns (kept: seq<FileTiming>)
    ensures kept == Kept(fileTimings, specs)
  {
    var specPaths := set p | p in specs;
    kept := [];
    for i := 0 to |fileTimings|
      invariant kept == Retain(fileTimings[..i], specPaths)
    {
      assert fileTimings[..i + 1][..i] == fileTimings[..i];
      if fileTimings[i].file_path in specPaths {
        kept := kept + [fileTimings[i]];
      }
    }
    assert fileTimings[..|fileTimings|] == fileTimings;
  }

  // ---------------------------------------------------------------------
  // paths_not_covered_by_timings
  // ---------------------------------------------------------------------

  function CoveredPaths(timings: seq<FileTiming>): set<string>
  {
    set i | 0 <= i < |timings| :: timings[i].file_path
  }

  /** The spec paths no timing record names. */
  function NotCovered(timings: seq<FileTiming>, specs: seq<string>): set<string>
  {
    set p | p in specs && p !in CoveredPaths(timings)
  }

  /** The set difference, listed once each in the set's unspecified iteration order. */
  method PathsNotCoveredByTimings(timings: seq<FileTiming>, specs: seq<string>) returns (paths: seq<string>)
    ensures Distinct(paths)
    ensures forall p :: p in paths <==> p in specs && p !in CoveredPaths(timings)
  {
    var coveredPaths: set<string> := {};
    for i := 0 to |timings|
      invariant coveredPaths == CoveredPaths(timings[..i])
    {
      assert CoveredPaths(timings[..i + 1]) == CoveredPaths(timings[..i]) + {timings[i].file_path} by {
        assert forall j :: 0 <= j < i ==> timings[..i + 1][j] == timings[..i][j];
      }
      coveredPaths := coveredPaths + {timings[i].file_path};
    }
    assert timings[..|timings|] == timings;
    var notCoveredPaths: set<string> := {};
    for i := 0 to |specs|
      invariant forall p :: p in notCoveredPaths <==> p in specs[..i] && p !in coveredPaths
    {
      assert specs[..i + 1] == specs[..i] + [specs[i]];
      if specs[i] !in coveredPaths {
        notCoveredPaths := notCoveredPaths + {specs[i]};
      }
    }
    assert specs[..|specs|] == specs;
    paths := [];
    var remaining := notCoveredPaths;
    while remaining != {}
      invariant remaining <= notCoveredPaths
      invariant Distinct(paths)
      invariant forall p :: p in paths <==> p in notCoveredPaths && p !in remaining
      decreases remaining
    {
      var p :| p in remaining;
      paths := paths + [p];
      remaining := remaining - {p};
    }
  }

  // ---------------------------------------------------------------------
  // The split arm
  // ---------------------------------------------------------------------

  datatype SplitError = RangeError(total: u32, current: u32)

  /** What one split prints: its bucket in order, then the uncovered paths in some order. */
  datatype Printed = Printed(bucket: seq<string>, uncovered: set<string>)

  /**
   * The split command for `-s total -c current`, with the timing file's
   * records and the discovered spec paths. The guard makes `total - 1`
   * safe in u32 arithmetic.
   */
  function SplitOutput(timings: seq<FileTiming>, specs: seq<string>, total: u32, current: u32)
    : (r: Result<Printed, SplitError>)
    ensures r.Failure? <==> current >= total
    ensures r.Failure? ==> r.error == RangeError(total, current)
  {
    if current >= total then Failure(RangeError(total, current))
    else
      var bucket := Paths(Buckets(timings, specs, total)[current]);
      Success(Printed(bucket, if current == total - 1 then Uncovered(timings, specs) else {}))
  }

  /** The balancer's buckets over the kept timings. */
  function Buckets(timings: seq<FileTiming>, specs: seq<string>, total: u32): (bs: seq<seq<FileTiming>>)
    ensures |bs| == total as nat
  {
    SplitSpec(Kept(timings, specs), total as nat)
  }

  /** The discovered spec files no kept timing names. */
  function Uncovered(timings: seq<FileTiming>, specs: seq<string>): set<string>
  {
    NotCovered(Kept(timings, specs), specs)
  }

  /** `out` is what a split with outcome `p` writes. */
  ghost predicate Prints(out: seq<string>, p: Printed)
  {
    && |p.bucket| <= |out|
    && out[..|p.bucket|] == p.bucket
    && Distinct(out[|p.bucket|..])
    && (forall x :: x in out[|p.bucket|..] <==> x in p.uncovered)
  }

  /** The split arm as written, on the decoded timings and the discovered spec paths. */
  method RunSplit(timings: seq<FileTiming>, specs: seq<string>, total: u32, current: u32)
    returns (r: Result<seq<string>, SplitError>)
    ensures r.Failure? <==> current >= total
    ensures r.Failure? ==> r.error == RangeError(total, current)
    ensures r.Success? ==> Prints(r.value, SplitOutput(timings, specs, total, current).value)
  {
    var fileTimings := LoadFileTimings(timings, specs);
    if current >= total {
      return Failure(RangeError(total, current));
    }
    var buckets := SplitTimings(fileTimings, total as nat);
    var bucket := buckets[current];
    var printed := Paths(bucket);
    if current == total - 1 {
      var uncovered := PathsNotCoveredByTimings(fileTimings, specs);
      printed := printed + uncovered;
    }
    assert printed[..|Paths(bucket)|] == Paths(bucket);
    r := Success(printed);
  }

  // ---------------------------------------------------------------------
  // Every spec file runs in some split
  // ---------------------------------------------------------------------

  /** How often split outcome `p` prints `x`. */
  function Occurrences(p: Printed, x: string): nat
  {
    multiset(p.bucket)[x] + (if x in p.uncovered then 1 else 0)
  }

  /** The printed sequence holds `x` as often as the outcome says. */
  lemma PrintsCount(out: seq<string>, p: Printed, x: string)
    requires Prints(out, p)
    ensures multiset(out)[x] == Occurrences(p, x)
  {
    var n := |p.bucket|;
    assert out == p.bucket + out[n..];
    DistinctCount(out[n..], x);
  }

  lemma {:induction false} DistinctCount(s: seq<string>, x: string)
    requires Distinct(s)
    ensures multiset(s)[x] == if x in s then 1 else 0
    decreases |s|
  {
    if s != [] {
      var n := |s| - 1;
      assert s == s[..n] + [s[n]];
      DistinctCount(s[..n], x);
      if s[n] == x {
        assert x !in s[..n];
      }
    }
  }

  /** How often splits `0 .. n - 1` together print `x`. */
  function TimesPrinted(timings: seq<FileTiming>, specs: seq<string>, total: u32, x: string, n: nat): nat
    requires n <= total as nat
  {
    if n == 0 then 0
    else TimesPrinted(timings, specs, total, x, n - 1)
         + Occurrences(SplitOutput(timings, specs, total, (n - 1) as u32).value, x)
  }

  /** Split `c` prints the paths of bucket `c`, and the uncovered paths when it is the last. */
  lemma SplitOccurrences(timings: seq<FileTiming>, specs: seq<string>, total: u32, c: u32, x: string)
    requires c < total
    ensures Occurrences(SplitOutput(timings, specs, total, c).value, x)
      == multiset(Paths(Buckets(timings, specs, total)[c]))[x]
         + (if c as int == total as int - 1 && x in Uncovered(timings, specs) then 1 else 0)
  {
  }

  /** One more bucket adds its own occurrences of `x`. */
  lemma FlattenPrefixCount(bs: seq<seq<FileTiming>>, n: nat, x: string)
    requires n < |bs|
    ensures multiset(Paths(Flatten(bs[..n + 1])))[x]
         == multiset(Paths(Flatten(bs[..n])))[x] + multiset(Paths(bs[n]))[x]
  {
    assert bs[..n + 1] == bs[..n] + [bs[n]];
    FlattenAppend(bs[..n], bs[n]);
    PathsAppend(Flatten(bs[..n]), bs[n]);
  }

  /** The first `n` splits print what the first `n` buckets hold, plus the uncovered paths once all have run. */
  lemma {:induction false} TimesPrintedPrefix(timings: seq<FileTiming>, specs: seq<string>, total: u32, x: string, n: nat)
    requires 0 < total && n <= total as nat
    ensures TimesPrinted(timings, specs, total, x, n)
      == multiset(Paths(Flatten(Buckets(timings, specs, total)[..n])))[x]
         + (if n == total as nat && x in Uncovered(timings, specs) then 1 else 0)
    decreases n
  {
    var bs := Buckets(timings, specs, total);
    if n == 0 {
      assert bs[..n] == [];
    } else {
      var c := (n - 1) as u32;
      var u := if n == total as nat && x in Uncovered(timings, specs) then 1 else 0;
      var before := multiset(Paths(Flatten(bs[..n - 1])))[x];
      var here := multiset(Paths(bs[n - 1]))[x];
      assert TimesPrinted(timings, specs, total, x, n - 1) == before by {
        TimesPrintedPrefix(timings, specs, total, x, n - 1);
      }
      assert Occurrences(SplitOutput(timings, specs, total, c).value, x) == here + u by {
        SplitOccurrences(timings, specs, total, c, x);
      }
      assert multiset(Paths(Flatten(bs[..n])))[x] == before + here by {
        FlattenPrefixCount(bs, n - 1, x);
      }
      assert TimesPrinted(timings, specs, total, x, n)
        == TimesPrinted(timings, specs, total, x, n - 1) + Occurrences(SplitOutput(timings, specs, total, c).value, x);
    }
  }

  /** Over all splits, `x` is printed as often as the kept timings name it, or once if none does. */
  lemma TimesPrintedAll(timings: seq<FileTiming>, specs: seq<string>, total: u32, x: string)
    requires total > 0
    ensures var kept := Kept(timings, specs);
      TimesPrinted(timings, specs, total, x, total as nat)
      == multiset(Paths(kept))[x] + (if x in NotCovered(kept, specs) then 1 else 0)
  {
    var kept := Kept(timings, specs);
    var bs := Buckets(timings, specs, total);
    TimesPrintedPrefix(timings, specs, total, x, total as nat);
    assert bs[..total as nat] == bs;
    SplitConserves(kept, total as nat);
    PathsPermutation(Flatten(bs), kept);
  }

  /** Taken over all splits, every discovered spec file is printed at least once. */
  lemma EverySpecPrinted(timings: seq<FileTiming>, specs: seq<string>, total: u32, x: string)
    requires total > 0 && x in specs
    ensures TimesPrinted(timings, specs, total, x, total as nat) >= 1
  {
    var kept := Kept(timings, specs);
    TimesPrintedAll(timings, specs, total, x);
    if x in CoveredPaths(kept) {
      var i :| 0 <= i < |kept| && kept[i].file_path == x;
      assert Paths(kept)[i] == x;
    }
  }

  /** With distinct timing paths, every discovered spec file is printed exactly once. */
  lemma SpecPrintedOnce(timings: seq<FileTiming>, specs: seq<string>, total: u32, x: string)
    requires total > 0 && x in specs && DistinctPaths(timings)
    ensures TimesPrinted(timings, specs, total, x, total as nat) == 1
  {
    var kept := Kept(timings, specs);
    EverySpecPrinted(timings, specs, total, x);
    TimesPrintedAll(timings, specs, total, x);
    RetainDistinct(timings, set p | p in specs);
    DistinctPathsCount(kept, x);
    if x !in CoveredPaths(kept) {
      assert x !in Paths(kept);
    }
  }

  /** No split prints a path that is not a discovered spec file. */
  lemma OnlySpecsPrinted(timings: seq<FileTiming>, specs: seq<string>, total: u32, x: string)
    requires total > 0 && x !in specs
    ensures TimesPrinted(timings, specs, total, x, total as nat) == 0
  {
    var kept := Kept(timings, specs);
    TimesPrintedAll(timings, specs, total, x);
    RetainMembers(timings, set p | p in specs);
    assert x !in Paths(kept);
  }
}
