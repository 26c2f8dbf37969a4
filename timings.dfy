/**
 * Shared vocabulary of the timing splitter: the per-file timing record
 * (src/timings/mod.rs), the Option and Result wrappers used for the
 * source's `Option` and `Result`, and small facts about sums, paths and
 * flattened bucket lists that the other modules rely on.
 */
module Timings {

  datatype Option<+T> = None | Some(value: T)

  datatype Result<+T, +E> = Success(value: T) | Failure(error: E)

  /** One file's accumulated test time, in seconds. */
  datatype FileTiming = FileTiming(file_path: string, total_time: real)

  /** Sum of the durations of a list of records. */
  function Sum(ts: seq<FileTiming>): real
  {
    if ts == [] then 0.0 else Sum(ts[..|ts| - 1]) + ts[|ts| - 1].total_time
  }

  /** The file paths of a list of records, in order. */
  function Paths(ts: seq<FileTiming>): (ps: seq<string>)
    ensures |ps| == |ts|
    ensures forall i :: 0 <= i < |ts| ==> ps[i] == ts[i].file_path
  {
    if ts == [] then [] else Paths(ts[..|ts| - 1]) + [ts[|ts| - 1].file_path]
  }

  /** All buckets, one after the other. */
  function Flatten(bs: seq<seq<FileTiming>>): seq<FileTiming>
  {
    if bs == [] then [] else Flatten(bs[..|bs| - 1]) + bs[|bs| - 1]
  }

  predicate NonNegative(ts: seq<FileTiming>)
  {
    forall i :: 0 <= i < |ts| ==> ts[i].total_time >= 0.0
  }

  /** No two records share a file path. */
  predicate DistinctPaths(ts: seq<FileTiming>)
  {
    forall i, j :: 0 <= i < j < |ts| ==> ts[i].file_path != ts[j].file_path
  }

  predicate Distinct<T(==)>(s: seq<T>)
  {
    forall i, j :: 0 <= i < j < |s| ==> s[i] != s[j]
  }

  lemma {:induction false} SumAppend(ts: seq<FileTiming>, t: FileTiming)
    ensures Sum(ts + [t]) == Sum(ts) + t.total_time
  {
    assert (ts + [t])[..|ts|] == ts;
  }

  lemma {:induction false} PathsAppend(a: seq<FileTiming>, b: seq<FileTiming>)
    ensures Paths(a + b) == Paths(a) + Paths(b)
  {
    var l, r := Paths(a + b), Paths(a) + Paths(b);
    forall i | 0 <= i < |l| ensures l[i] == r[i] {
      if i < |a| {
        assert (a + b)[i] == a[i];
      } else {
        assert (a + b)[i] == b[i - |a|];
      }
    }
  }

  lemma {:induction false} FlattenAppend(bs: seq<seq<FileTiming>>, b: seq<FileTiming>)
    ensures Flatten(bs + [b]) == Flatten(bs) + b
  {
    assert (bs + [b])[..|bs|] == bs;
  }

  /** Appending a record to one bucket adds exactly that record to the flattened multiset. */
  lemma {:induction false} FlattenAppendAt(bs: seq<seq<FileTiming>>, m: nat, t: FileTiming)
    requires m < |bs|
    ensures multiset(Flatten(bs[m := bs[m] + [t]])) == multiset(Flatten(bs)) + multiset{t}
    decreases |bs|
  {
    var n := |bs| - 1;
    var ub := bs[m := bs[m] + [t]];
    assert Flatten(bs) == Flatten(bs[..n]) + bs[n];
    assert Flatten(ub) == Flatten(ub[..n]) + ub[n];
    if m < n {
      assert ub[..n] == bs[..n][m := bs[..n][m] + [t]];
      FlattenAppendAt(bs[..n], m, t);
    } else {
      assert ub[..n] == bs[..n];
    }
  }

  lemma MultisetCancel<T>(a: multiset<T>, b: multiset<T>, x: T)
    requires a + multiset{x} == b + multiset{x}
    ensures a == b
  {
    forall y ensures a[y] == b[y] {
      assert (a + multiset{x})[y] == (b + multiset{x})[y];
    }
  }

  /** An element between two parts adds itself to the multiset of the parts. */
  lemma MultisetMiddle<T>(pre: seq<T>, x: T, post: seq<T>)
    ensures multiset(pre + [x] + post) == multiset(pre + post) + multiset{x}
  {
  }

  /** A record between two parts adds its path to the multiset of the parts' paths. */
  lemma PathsMiddle(pre: seq<FileTiming>, x: FileTiming, post: seq<FileTiming>)
    ensures multiset(Paths(pre + [x] + post)) == multiset(Paths(pre + post)) + multiset{x.file_path}
  {
    PathsAppend(pre + [x], post);
    PathsAppend(pre, [x]);
    PathsAppend(pre, post);
  }

  /** Two permutations of each other have permuted path lists too. */
  lemma {:induction false} PathsPermutation(a: seq<FileTiming>, b: seq<FileTiming>)
    requires multiset(a) == multiset(b)
    ensures multiset(Paths(a)) == multiset(Paths(b))
    decreases |a|
  {
    if a != [] {
      var n := |a| - 1;
      var x, init := a[n], a[..n];
      assert a == init + [x];
      assert x in multiset(b);
      var j :| 0 <= j < |b| && b[j] == x;
      var pre, post := b[..j], b[j + 1..];
      var rest := pre + post;
      assert b == pre + [x] + post;
      MultisetMiddle(pre, x, post);
      PathsMiddle(pre, x, post);
      MultisetCancel(multiset(init), multiset(rest), x);
      PathsPermutation(init, rest);
      PathsAppend(init, [x]);
    }
  }

  /** With distinct paths, a path occurs at most once among the record paths. */
  lemma {:induction false} DistinctPathsCount(ts: seq<FileTiming>, p: string)
    requires DistinctPaths(ts)
    ensures multiset(Paths(ts))[p] <= 1
    decreases |ts|
  {
    if ts != [] {
      var init := ts[..|ts| - 1];
      DistinctPathsCount(init, p);
      assert Paths(ts) == Paths(init) + [ts[|ts| - 1].file_path];
      if ts[|ts| - 1].file_path == p {
        assert p !in Paths(init);
      }
    }
  }
}
