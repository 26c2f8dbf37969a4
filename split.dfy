/**
 * The bucket balancer of src/timings/split.rs: a greedy
 * longest-processing-time-first partition of file timings into a fixed
 * number of buckets.
 *
 * The records are stably sorted by descending time (the library's stable
 * `sort_by`, specified here by the insertion sort SortDesc), then each one
 * goes to the leftmost bucket whose running total is smallest. SplitSpec is
 * the functional specification; SplitTimings is the in-place algorithm over
 * an array of aggregators, proved equal to it.
 */
module Split {
  import opened Timings

  /** One bucket while the split is being built: its records and their running total. */
  datatype Aggregator = Aggregator(timings: seq<FileTiming>, total_time: real)

  // ---------------------------------------------------------------------
  // Stable descending sort
  // ---------------------------------------------------------------------

  predicate NonIncreasing(s: seq<FileTiming>)
  {
    forall i, j :: 0 <= i < j < |s| ==> s[i].total_time >= s[j].total_time
  }

  /**
   * Inserts `t` in front of the first record that is not longer than it, so
   * that `t` stays ahead of every later record with the same time.
   */
  function InsertDesc(t: FileTiming, s: seq<FileTiming>): (r: seq<FileTiming>)
    ensures |r| == |s| + 1
  {
    if s == [] then [t]
    else if t.total_time >= s[0].total_time then [t] + s
    else [s[0]] + InsertDesc(t, s[1..])
  }

  /** The order `sort_by` with a descending comparator leaves the records in. */
  function SortDesc(ts: seq<FileTiming>): (r: seq<FileTiming>)
    ensures |r| == |ts|
  {
    if ts == [] then [] else InsertDesc(ts[0], SortDesc(ts[1..]))
  }

  lemma {:induction false} InsertDescPermutes(t: FileTiming, s: seq<FileTiming>)
    ensures multiset(InsertDesc(t, s)) == multiset(s) + multiset{t}
    decreases |s|
  {
    if s != [] && t.total_time < s[0].total_time {
      InsertDescPermutes(t, s[1..]);
      assert s == [s[0]] + s[1..];
    }
  }

  /** The sort only reorders: its output is a permutation of its input. */
  lemma {:induction false} SortDescPermutes(ts: seq<FileTiming>)
    ensures multiset(SortDesc(ts)) == multiset(ts)
    decreases |ts|
  {
    if ts != [] {
      SortDescPermutes(ts[1..]);
      InsertDescPermutes(ts[0], SortDesc(ts[1..]));
      assert ts == [ts[0]] + ts[1..];
    }
  }

  /** The records whose time is exactly `v`, in their order. */
  function WithTime(s: seq<FileTiming>, v: real): seq<FileTiming>
  {
    if s == [] then []
    else (if s[0].total_time == v then [s[0]] else []) + WithTime(s[1..], v)
  }

  lemma {:induction false} InsertDescSorted(t: FileTiming, s: seq<FileTiming>)
    requires NonIncreasing(s)
    ensures NonIncreasing(InsertDesc(t, s))
    decreases |s|
  {
    if s != [] && t.total_time < s[0].total_time {
      InsertDescSorted(t, s[1..]);
      InsertDescPermutes(t, s[1..]);
      var r := InsertDesc(t, s[1..]);
      forall x | x in r ensures x.total_time <= s[0].total_time {
        assert x in multiset(r);
      }
    }
  }

  lemma {:induction false} SortDescSorted(ts: seq<FileTiming>)
    ensures NonIncreasing(SortDesc(ts))
    decreases |ts|
  {
    if ts != [] {
      SortDescSorted(ts[1..]);
      InsertDescSorted(ts[0], SortDesc(ts[1..]));
    }
  }

  /** The records of one duration in a sequence with a known first record. */
  lemma WithTimeCons(x: FileTiming, r: seq<FileTiming>, v: real)
    ensures WithTime([x] + r, v) == (if x.total_time == v then [x] else []) + WithTime(r, v)
  {
    assert ([x] + r)[1..] == r;
  }

  /** Two sequences, one of them empty, can be put in front of a third in either order. */
  lemma SwapEmpty(a: seq<FileTiming>, b: seq<FileTiming>, c: seq<FileTiming>)
    requires a == [] || b == []
    ensures a + (b + c) == b + (a + c)
  {
  }

  /** The inductive step of InsertDescStable, when `t` goes behind the first record. */
  lemma InsertDescStableBehind(t: FileTiming, s: seq<FileTiming>, v: real)
    requires s != [] && t.total_time < s[0].total_time
    requires WithTime(InsertDesc(t, s[1..]), v) == (if t.total_time == v then [t] else []) + WithTime(s[1..], v)
    ensures WithTime(InsertDesc(t, s), v) == (if t.total_time == v then [t] else []) + WithTime(s, v)
  {
    var rest := InsertDesc(t, s[1..]);
    var mine := if t.total_time == v then [t] else [];
    var first := if s[0].total_time == v then [s[0]] else [];
    WithTimeCons(s[0], rest, v);
    WithTimeCons(s[0], s[1..], v);
    assert s == [s[0]] + s[1..];
    SwapEmpty(first, mine, WithTime(s[1..], v));
  }

  lemma {:induction false} InsertDescStable(t: FileTiming, s: seq<FileTiming>, v: real)
    ensures WithTime(InsertDesc(t, s), v) == (if t.total_time == v then [t] else []) + WithTime(s, v)
    decreases |s|
  {
    if s == [] {
      WithTimeCons(t, [], v);
    } else if t.total_time >= s[0].total_time {
      WithTimeCons(t, s, v);
    } else {
      InsertDescStable(t, s[1..], v);
      InsertDescStableBehind(t, s, v);
    }
  }

  /**
   * The sort is stable: the records of any one duration come out in the
   * order they went in.
   */
  lemma {:induction false} SortDescStable(ts: seq<FileTiming>, v: real)
    ensures WithTime(SortDesc(ts), v) == WithTime(ts, v)
    decreases |ts|
  {
    if ts != [] {
      SortDescStable(ts[1..], v);
      InsertDescStable(ts[0], SortDesc(ts[1..]), v);
    }
  }

  // ---------------------------------------------------------------------
  // Leftmost-minimum choice and the greedy fold
  // ---------------------------------------------------------------------

  /**
   * The left-to-right scan for the bucket with the smallest running total;
   * a later bucket replaces the current choice only when strictly smaller.
   */
  function MinIndex(bs: seq<Aggregator>): (m: nat)
    requires |bs| > 0
    ensures m < |bs|
    ensures forall j :: 0 <= j < |bs| ==> bs[m].total_time <= bs[j].total_time
    ensures forall j :: 0 <= j < m ==> bs[m].total_time < bs[j].total_time
    decreases |bs|
  {
    if |bs| == 1 then 0
    else
      var m := MinIndex(bs[..|bs| - 1]);
      if bs[|bs| - 1].total_time < bs[m].total_time then |bs| - 1 else m
  }

  /** A bucket with the minimal total and no bucket to its left as small. */
  ghost predicate IsLeftmostMin(bs: seq<Aggregator>, m: nat)
  {
    && m < |bs|
    && (forall j :: 0 <= j < |bs| ==> bs[m].total_time <= bs[j].total_time)
    && (forall j :: 0 <= j < m ==> bs[m].total_time < bs[j].total_time)
  }

  /** The scan's choice is the one and only leftmost minimum. */
  lemma MinIndexIsLeftmostMin(bs: seq<Aggregator>, m: nat)
    requires |bs| > 0
    ensures IsLeftmostMin(bs, m) <==> m == MinIndex(bs)
  {
  }

  /** Gives one record to the leftmost least-loaded bucket. */
  function Place(bs: seq<Aggregator>, t: FileTiming): (r: seq<Aggregator>)
    requires |bs| > 0
    ensures |r| == |bs|
  {
    var m := MinIndex(bs);
    bs[m := Aggregator(bs[m].timings + [t], bs[m].total_time + t.total_time)]
  }

  /** Places the pending records one after another, in order. */
  function Assign(pending: seq<FileTiming>, bs: seq<Aggregator>): (r: seq<Aggregator>)
    requires |bs| > 0
    ensures |r| == |bs|
    decreases |pending|
  {
    if pending == [] then bs else Assign(pending[1..], Place(bs, pending[0]))
  }

  lemma AssignStep(pending: seq<FileTiming>, i: nat, bs: seq<Aggregator>)
    requires i < |pending| && |bs| > 0
    ensures Assign(pending[i..], bs) == Assign(pending[i + 1..], Place(bs, pending[i]))
  {
    assert pending[i..][1..] == pending[i + 1..];
  }

  /** `k` empty buckets with zero totals. */
  function Empty(k: nat): (bs: seq<Aggregator>)
    ensures |bs| == k
    ensures forall i :: 0 <= i < k ==> bs[i] == Aggregator([], 0.0)
  {
    seq(k, _ => Aggregator([], 0.0))
  }

  /** The record lists of the buckets, in bucket order. */
  function Records(bs: seq<Aggregator>): (r: seq<seq<FileTiming>>)
    ensures |r| == |bs|
    ensures forall i :: 0 <= i < |bs| ==> r[i] == bs[i].timings
  {
    seq(|bs|, i requires 0 <= i < |bs| => bs[i].timings)
  }

  /** The result of `split_timings(timings, k)`. */
  function SplitSpec(timings: seq<FileTiming>, k: nat): (r: seq<seq<FileTiming>>)
    ensures |r| == k
  {
    if k == 0 then [] else Records(Assign(SortDesc(timings), Empty(k)))
  }

  // ---------------------------------------------------------------------
  // The algorithm as written: an array of aggregators updated in place
  // ---------------------------------------------------------------------

  /** The inner scan of the main loop: the leftmost bucket with the smallest total. */
  method MinBucketIndex(buckets: array<Aggregator>) returns (minBucketIndex: nat)
    requires buckets.Length > 0
    ensures minBucketIndex == MinIndex(buckets[..])
  {
    minBucketIndex := 0;
    for index := 1 to buckets.Length
      invariant minBucketIndex == MinIndex(buckets[..index])
    {
      assert buckets[..index + 1][..index] == buckets[..index];
      if buckets[index].total_time < buckets[minBucketIndex].total_time {
        minBucketIndex := index;
      }
    }
    assert buckets[..buckets.Length] == buckets[..];
  }

  /** `total_splits` empty aggregators. */
  method NewBuckets(totalSplits: nat) returns (buckets: array<Aggregator>)
    ensures fresh(buckets)
    ensures buckets[..] == Empty(totalSplits)
  {
    buckets := new Aggregator[totalSplits];
    for b := 0 to totalSplits
      invariant buckets[..b] == Empty(totalSplits)[..b]
    {
      buckets[b] := Aggregator([], 0.0);
    }
    assert buckets[..] == buckets[..totalSplits];
    assert Empty(totalSplits)[..totalSplits] == Empty(totalSplits);
  }

  /** One pass of the main loop: the record joins the leftmost emptiest bucket. */
  method PlaceTiming(buckets: array<Aggregator>, timing: FileTiming)
    requires buckets.Length > 0
    modifies buckets
    ensures buckets[..] == Place(old(buckets[..]), timing)
  {
    var minBucketIndex := MinBucketIndex(buckets);
    buckets[minBucketIndex] := Aggregator(
      buckets[minBucketIndex].timings + [timing],
      buckets[minBucketIndex].total_time + timing.total_time);
  }

  /** The main loop: every sorted record, in order, is placed. */
  method PlaceAll(buckets: array<Aggregator>, sorted: seq<FileTiming>)
    requires buckets.Length > 0
    modifies buckets
    ensures buckets[..] == Assign(sorted, old(buckets[..]))
  {
    ghost var start := buckets[..];
    assert sorted[0..] == sorted;
    for i := 0 to |sorted|
      invariant Assign(sorted[i..], buckets[..]) == Assign(sorted, start)
    {
      ghost var before := buckets[..];
      PlaceTiming(buckets, sorted[i]);
      AssignStep(sorted, i, before);
    }
  }

  method SplitTimings(timings: seq<FileTiming>, totalSplits: nat) returns (result: seq<seq<FileTiming>>)
    ensures result == SplitSpec(timings, totalSplits)
    ensures |result| == totalSplits
  {
    if totalSplits == 0 {
      return [];
    }
    var sorted := SortDesc(timings);
    var buckets := NewBuckets(totalSplits);
    PlaceAll(buckets, sorted);
    result := Records(buckets[..]);
  }

  // ---------------------------------------------------------------------
  // What the fold keeps
  // ---------------------------------------------------------------------

  /** Every bucket's running total is the sum of its records. */
  ghost predicate Totalled(bs: seq<Aggregator>)
  {
    forall i :: 0 <= i < |bs| ==> bs[i].total_time == Sum(bs[i].timings)
  }

  lemma {:induction false} AssignTotalled(pending: seq<FileTiming>, bs: seq<Aggregator>)
    requires |bs| > 0 && Totalled(bs)
    ensures Totalled(Assign(pending, bs))
    decreases |pending|
  {
    if pending != [] {
      var m := MinIndex(bs);
      SumAppend(bs[m].timings, pending[0]);
      AssignTotalled(pending[1..], Place(bs, pending[0]));
    }
  }

  lemma {:induction false} AssignConserves(pending: seq<FileTiming>, bs: seq<Aggregator>)
    requires |bs| > 0
    ensures multiset(Flatten(Records(Assign(pending, bs)))) == multiset(Flatten(Records(bs))) + multiset(pending)
    decreases |pending|
  {
    if pending != [] {
      var t := pending[0];
      var m := MinIndex(bs);
      assert Records(Place(bs, t)) == Records(bs)[m := Records(bs)[m] + [t]];
      FlattenAppendAt(Records(bs), m, t);
      AssignConserves(pending[1..], Place(bs, t));
      assert pending == [t] + pending[1..];
    }
  }

  /** No record in `s` is shorter than `v`. */
  predicate AllAtLeast(s: seq<FileTiming>, v: real)
  {
    forall i :: 0 <= i < |s| ==> s[i].total_time >= v
  }

  lemma {:induction false} AssignKeepsBucketsSorted(pending: seq<FileTiming>, bs: seq<Aggregator>)
    requires |bs| > 0
    requires NonIncreasing(pending)
    requires forall i :: 0 <= i < |bs| ==> NonIncreasing(bs[i].timings)
    requires pending != [] ==> forall i :: 0 <= i < |bs| ==> AllAtLeast(bs[i].timings, pending[0].total_time)
    ensures forall i :: 0 <= i < |bs| ==> NonIncreasing(Assign(pending, bs)[i].timings)
    decreases |pending|
  {
    if pending != [] {
      var t := pending[0];
      var bs' := Place(bs, t);
      forall i | 0 <= i < |bs'| ensures NonIncreasing(bs'[i].timings) {
        if i == MinIndex(bs) {
          assert bs'[i].timings == bs[i].timings + [t];
        }
      }
      if |pending| > 1 {
        forall i | 0 <= i < |bs'| ensures AllAtLeast(bs'[i].timings, pending[1].total_time) {
          assert AllAtLeast(bs[i].timings, t.total_time);
        }
      }
      AssignKeepsBucketsSorted(pending[1..], bs');
    }
  }

  /** No two buckets' totals differ by more than `d`. */
  ghost predicate Spread(bs: seq<Aggregator>, d: real)
  {
    forall i, j :: 0 <= i < |bs| && 0 <= j < |bs| ==> bs[i].total_time - bs[j].total_time <= d
  }

  lemma {:induction false} AssignKeepsSpread(pending: seq<FileTiming>, bs: seq<Aggregator>, d: real)
    requires |bs| > 0 && Spread(bs, d)
    requires forall i :: 0 <= i < |pending| ==> 0.0 <= pending[i].total_time <= d
    ensures Spread(Assign(pending, bs), d)
    decreases |pending|
  {
    if pending != [] {
      var t := pending[0];
      var m := MinIndex(bs);
      var bs' := Place(bs, t);
      forall i, j | 0 <= i < |bs'| && 0 <= j < |bs'|
        ensures bs'[i].total_time - bs'[j].total_time <= d
      {
        if i == m && j != m {
          assert bs[m].total_time <= bs[j].total_time;
        }
      }
      AssignKeepsSpread(pending[1..], bs', d);
    }
  }

  // ---------------------------------------------------------------------
  // Properties of split_timings
  // ---------------------------------------------------------------------

  /** The largest single duration (0 for no records). */
  function MaxTime(ts: seq<FileTiming>): (r: real)
    ensures forall i :: 0 <= i < |ts| ==> ts[i].total_time <= r
    ensures ts == [] ==> r == 0.0
    ensures ts != [] ==> exists i :: 0 <= i < |ts| && ts[i].total_time == r
  {
    if ts == [] then 0.0
    else
      var rest := MaxTime(ts[1..]);
      if ts[1..] == [] || ts[0].total_time >= rest then ts[0].total_time else rest
  }

  /** Every record ends up in exactly one place: the buckets together are a permutation of the input. */
  lemma SplitConserves(timings: seq<FileTiming>, k: nat)
    requires k > 0
    ensures multiset(Flatten(SplitSpec(timings, k))) == multiset(timings)
  {
    AssignConserves(SortDesc(timings), Empty(k));
    SortDescPermutes(timings);
    assert Flatten(Records(Empty(k))) == [] by {
      EmptyFlatten(k);
    }
  }

  lemma {:induction false} EmptyFlatten(k: nat)
    ensures Flatten(Records(Empty(k))) == []
  {
    if k > 0 {
      assert Records(Empty(k))[..k - 1] == Records(Empty(k - 1));
      EmptyFlatten(k - 1);
    }
  }

  /** Each bucket's total is the sum of the records placed in it. */
  lemma SplitTotals(timings: seq<FileTiming>, k: nat)
    requires k > 0
    ensures forall i :: 0 <= i < k ==> Assign(SortDesc(timings), Empty(k))[i].total_time == Sum(SplitSpec(timings, k)[i])
  {
    AssignTotalled(SortDesc(timings), Empty(k));
  }

  /** Each bucket lists its records from longest to shortest. */
  lemma SplitBucketsSorted(timings: seq<FileTiming>, k: nat)
    ensures forall i :: 0 <= i < k ==> NonIncreasing(SplitSpec(timings, k)[i])
  {
    if k > 0 {
      SortDescSorted(timings);
      AssignKeepsBucketsSorted(SortDesc(timings), Empty(k));
    }
  }

  /**
   * The balancing promise: with non-negative durations, the fullest and the
   * emptiest bucket differ by at most the longest single file.
   */
  lemma SplitBalanced(timings: seq<FileTiming>, k: nat)
    requires NonNegative(timings)
    ensures forall i, j :: 0 <= i < k && 0 <= j < k ==>
      Sum(SplitSpec(timings, k)[i]) - Sum(SplitSpec(timings, k)[j]) <= MaxTime(timings)
  {
    if k > 0 {
      var sorted := SortDesc(timings);
      var d := MaxTime(timings);
      SortDescPermutes(timings);
      forall i | 0 <= i < |sorted| ensures 0.0 <= sorted[i].total_time <= d {
        assert sorted[i] in multiset(timings);
      }
      assert d >= 0.0 by {
        if timings != [] { assert timings[0].total_time >= 0.0; }
      }
      AssignKeepsSpread(sorted, Empty(k), d);
      AssignTotalled(sorted, Empty(k));
    }
  }

  // ---------------------------------------------------------------------
  // The worked examples of the source's tests
  // ---------------------------------------------------------------------

  /**
   * The repeated-run test of the source: two calls on the same input give
   * the same buckets. This adds nothing to SplitTimings' own contract, which
   * already fixes its result to SplitSpec of the input.
   */
  method SplitTwice(timings: seq<FileTiming>, totalSplits: nat)
    returns (first: seq<seq<FileTiming>>, again: seq<seq<FileTiming>>)
    ensures first == again
    ensures |first| == totalSplits
  {
    first := SplitTimings(timings, totalSplits);
    again := SplitTimings(timings, totalSplits);
  }

  /** Two records over three buckets: the longer first, then `a` in the leftmost of the two empty buckets. */
  lemma FewerTimingsThanBuckets(a: FileTiming, b: FileTiming)
    requires a == FileTiming("a", 10.0) && b == FileTiming("b", 20.0)
    ensures SplitSpec([a, b], 3) == [[b], [a], []]
  {
    var e := Aggregator([], 0.0);
    assert SortDesc([a, b]) == [b, a] by {
      assert [a, b][1..] == [b];
      assert SortDesc([b]) == [b];
      assert InsertDesc(a, [b]) == [b, a];
    }
    assert Empty(3) == [e, e, e];
    var s1 := [Aggregator([b], 20.0), e, e];
    var s2 := [Aggregator([b], 20.0), Aggregator([a], 10.0), e];
    assert MinIndex([e, e, e]) == 0 by {
      assert [e, e, e][..2] == [e, e];
      assert [e, e][..1] == [e];
    }
    assert [] + [b] == [b];
    assert [e, e, e][0 := Aggregator([b], 20.0)] == s1;
    assert Place([e, e, e], b) == s1;
    assert MinIndex(s1) == 1 by {
      assert s1[..2] == [Aggregator([b], 20.0), e];
      assert s1[..2][..1] == [Aggregator([b], 20.0)];
    }
    assert [] + [a] == [a];
    assert s1[1 := Aggregator([a], 10.0)] == s2;
    assert Place(s1, a) == s2;
    assert Assign([b, a], [e, e, e]) == s2 by {
      assert [b, a][1..] == [a];
      assert Assign([a], s1) == Assign([], s2);
    }
  }

  lemma MoreTimingsSorted(a: FileTiming, b: FileTiming, c: FileTiming, d: FileTiming)
    requires a == FileTiming("a", 10.0) && b == FileTiming("b", 20.0)
    requires c == FileTiming("c", 15.0) && d == FileTiming("d", 5.0)
    ensures SortDesc([a, b, c, d]) == [b, c, a, d]
  {
    assert [a, b, c, d][1..] == [b, c, d];
    assert [b, c, d][1..] == [c, d];
    assert [c, d][1..] == [d];
    assert SortDesc([d]) == [d];
    assert SortDesc([c, d]) == [c, d];
    assert InsertDesc(b, [c, d]) == [b, c, d];
    assert SortDesc([b, c, d]) == [b, c, d];
    assert InsertDesc(a, [d]) == [a, d];
    assert InsertDesc(a, [c, d]) == [c, a, d];
    assert InsertDesc(a, [b, c, d]) == [b, c, a, d];
  }

  /**
   * Four records over two buckets: `b` takes bucket 0 on the tie between
   * the empty buckets, and `d` joins bucket 0 because 20 < 25, leaving both
   * totals at 25.
   */
  lemma MoreTimingsThanBuckets(a: FileTiming, b: FileTiming, c: FileTiming, d: FileTiming)
    requires a == FileTiming("a", 10.0) && b == FileTiming("b", 20.0)
    requires c == FileTiming("c", 15.0) && d == FileTiming("d", 5.0)
    ensures SplitSpec([a, b, c, d], 2) == [[b, d], [c, a]]
  {
    var e := Aggregator([], 0.0);
    MoreTimingsSorted(a, b, c, d);
    assert Empty(2) == [e, e];
    var s1 := [Aggregator([b], 20.0), e];
    var s2 := [Aggregator([b], 20.0), Aggregator([c], 15.0)];
    var s3 := [Aggregator([b], 20.0), Aggregator([c, a], 25.0)];
    var s4 := [Aggregator([b, d], 25.0), Aggregator([c, a], 25.0)];
    assert MinIndex([e, e]) == 0 by { assert [e, e][..1] == [e]; }
    assert [] + [b] == [b];
    assert [e, e][0 := Aggregator([b], 20.0)] == s1;
    assert Place([e, e], b) == s1;
    assert MinIndex(s1) == 1 by { assert s1[..1] == [s1[0]]; }
    assert [] + [c] == [c];
    assert s1[1 := Aggregator([c], 15.0)] == s2;
    assert Place(s1, c) == s2;
    assert MinIndex(s2) == 1 by { assert s2[..1] == [s2[0]]; }
    assert [c] + [a] == [c, a];
    assert s2[1 := Aggregator([c, a], 25.0)] == s3;
    assert Place(s2, a) == s3;
    assert MinIndex(s3) == 0 by { assert s3[..1] == [s3[0]]; }
    assert [b] + [d] == [b, d];
    assert s3[0 := Aggregator([b, d], 25.0)] == s4;
    assert Place(s3, d) == s4;
    assert Assign([b, c, a, d], [e, e]) == s4 by {
      assert [b, c, a, d][1..] == [c, a, d];
      assert [c, a, d][1..] == [a, d];
      assert [a, d][1..] == [d];
      assert Assign([d], s3) == Assign([], s4);
      assert Assign([a, d], s2) == Assign([d], s3);
      assert Assign([c, a, d], s1) == Assign([a, d], s2);
    }
  }
}
