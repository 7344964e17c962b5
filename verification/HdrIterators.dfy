/**
 The iterators of src/hdr_histogram.c and what is computed with them: percentiles, minimum, maximum,
 mean and the sum of two histograms.
 */
module HdrIterators {
  import opened Basics
  import opened HdrLayout
  import opened HdrCounts
  import opened HdrHistogram

  // What increment_bucket does to the position of slot k.
  lemma Increment(l: Layout, k: nat)
    ensures if SubAt(l, k) + 1 >= SubBucketCount(l)
            then BucketAt(l, k + 1) == BucketAt(l, k) + 1 && SubAt(l, k + 1) == HalfCount(l)
            else BucketAt(l, k + 1) == BucketAt(l, k) && SubAt(l, k + 1) == SubAt(l, k) + 1
  {
    SubFacts(l, k);
    SubFacts(l, k + 1);
    if BucketAt(l, k + 1) != BucketAt(l, k) {
      NextBucket(l, k);
    }
  }

  lemma SlotStart(l: Layout, k: nat)
    requires k < CountsLength(l) && l.buckets > 0
    ensures 0 <= SubAt(l, k) && ValueFromIndex(l, BucketAt(l, k), SubAt(l, k)) == Base(l, k)
    ensures HighestEquivalent(l, Base(l, k)) == Base(l, k + 1) - 1
  {
    SubFacts(l, k);
    IndexOfBase(l, k);
    Equivalents(l, Base(l, k));
  }

  class Iterator {
    const h: Histogram
    var bucketIndex: nat
    var subBucketIndex: int
    var countAtIndex: nat
    var countToIndex: nat
    var valueFromIndex: nat
    var highestEquivalent: int
    // The slots visited so far are those before this one.
    ghost var next: nat

    ghost predicate Valid()
      reads this, h, h.counts
    {
      && h.Valid() && next <= h.counts.Length
      && countToIndex == CountBelow(h.layout, h.recorded, next)
      && (next == 0 ==> bucketIndex == 0 && subBucketIndex == -1 && countAtIndex == 0)
      && (next > 0 ==>
          && bucketIndex == BucketAt(h.layout, next - 1) && subBucketIndex == SubAt(h.layout, next - 1)
          && countAtIndex == h.counts[next - 1] && valueFromIndex == Base(h.layout, next - 1)
          && highestEquivalent == Base(h.layout, next) - 1)
    }

    // hdr_iter_init
    constructor (h: Histogram)
      requires h.Valid()
      ensures Valid() && this.h == h && next == 0
    {
      this.h := h;
      bucketIndex, subBucketIndex, countAtIndex, countToIndex, valueFromIndex, highestEquivalent := 0, -1, 0, 0, 0, 0;
      next := 0;
      new;
      CountEnds(h.layout, h.recorded);
    }

    // increment_bucket
    method IncrementBucket()
      requires Valid()
      modifies `bucketIndex, `subBucketIndex
      ensures bucketIndex == BucketAt(h.layout, next) && subBucketIndex == SubAt(h.layout, next)
    {
      subBucketIndex := subBucketIndex + 1;
      if subBucketIndex >= SubBucketCount(h.layout) {
        subBucketIndex := HalfCount(h.layout);
        bucketIndex := bucketIndex + 1;
      }
      if next > 0 {
        Increment(h.layout, next - 1);
      }
    }

    // While counts are left there are slots left.
    lemma MoreSlots()
      requires Valid() && countToIndex < h.totalCount
      ensures next < h.counts.Length
    {
      CountEnds(h.layout, h.recorded);
    }

    // hdr_iter_next
    method Next() returns (more: bool)
      requires Valid()
      modifies this
      ensures Valid() && more == (old(countToIndex) < h.totalCount)
      ensures next == if more then old(next) + 1 else old(next)
    {
      if countToIndex >= h.totalCount {
        return false;
      }
      MoreSlots();
      var _ := MoveNext();
      more := true;
    }

    // move_next; it does not run out of buckets.
    method MoveNext() returns (moved: bool)
      requires Valid() && next < h.counts.Length
      modifies this
      ensures Valid() && moved && next == old(next) + 1
    {
      IndexOfSlot(h.layout, next);
      IncrementBucket();
      if bucketIndex >= h.layout.buckets {
        return false;
      }
      ReadSlot();
      moved := true;
    }

    method ReadSlot()
      requires h.Valid() && next < h.counts.Length && countToIndex == CountBelow(h.layout, h.recorded, next)
      requires bucketIndex == BucketAt(h.layout, next) && subBucketIndex == SubAt(h.layout, next)
      modifies this
      ensures Valid() && next == old(next) + 1
    {
      hide BucketAt, SubAt, CountBelow, CountIn, HighestEquivalent;
      IndexOfSlot(h.layout, next);
      CountStep(h.layout, h.recorded, next);
      SlotStart(h.layout, next);
      countAtIndex := h.counts[CountsIndex(h.layout, bucketIndex, subBucketIndex)];
      countToIndex := countToIndex + countAtIndex;
      valueFromIndex := ValueFromIndex(h.layout, bucketIndex, subBucketIndex);
      highestEquivalent := HighestEquivalent(h.layout, valueFromIndex);
      next := next + 1;
    }

    // hdr_recorded_iter_next: the next slot that counts something
    method NextRecorded() returns (more: bool)
      requires Valid()
      modifies this
      ensures Valid() && next >= old(next)
      ensures more ==> next > old(next) && countAtIndex != 0
      ensures more ==> forall k :: old(next) <= k < next - 1 ==> h.counts[k] == 0
      ensures !more ==> forall k :: old(next) <= k < h.counts.Length ==> h.counts[k] == 0
    {
      while true
        invariant Valid() && next >= old(next)
        invariant forall k :: old(next) <= k < next ==> h.counts[k] == 0
        decreases h.counts.Length - next
      {
        more := Next();
        if !more {
          NothingLeft();
          return;
        }
        if countAtIndex != 0 {
          return;
        }
      }
    }

    lemma NothingLeft()
      requires Valid() && countToIndex >= h.totalCount
      ensures forall k :: next <= k < h.counts.Length ==> h.counts[k] == 0
    {
      CountEnds(h.layout, h.recorded);
      forall k | next <= k < h.counts.Length ensures h.counts[k] == 0 {
        CountStep(h.layout, h.recorded, k);
        CountMonotone(h.layout, h.recorded, next, k);
        CountMonotone(h.layout, h.recorded, k + 1, h.counts.Length);
      }
    }
  }

  // ---- Percentiles -------------------------------------------------------------------------

  // The conversion of a real to an integer
  function Truncated(r: real): int {
    if r >= 0.0 then r.Floor else -((-r).Floor)
  }

  // The percentage of n, rounded to the nearest integer when truncated
  function Scale(percentile: real, n: nat): real {
    var requested := if percentile < 100.0 then percentile else 100.0;
    requested / 100.0 * n as real + 0.5
  }

  // Which of n values, in ascending order, a percentile asks for: the percentage of n, at most all of them,
  // rounded half up, but at least the first
  predicate IsRank(percentile: real, n: nat, k: nat) {
    var share := if percentile < 100.0 then percentile * n as real / 100.0 else n as real;
    if share < 0.5 then k == 1 else k as real - 0.5 <= share < k as real + 0.5
  }

  function Rank(percentile: real, n: nat): (k: nat)
    ensures k >= 1
  {
    var count := Truncated(Scale(percentile, n));
    if count > 1 then count else 1
  }

  lemma RankIs(percentile: real, n: nat)
    ensures IsRank(percentile, n, Rank(percentile, n))
  {
    ScaleIs(percentile, n);
  }

  lemma ScaleIs(percentile: real, n: nat)
    ensures Scale(percentile, n)
         == (if percentile < 100.0 then percentile * n as real / 100.0 else n as real) + 0.5
  {
    var x, y := percentile / 100.0, n as real;
    Quotient(percentile, 100.0);
    assert x * 100.0 * y == (x * y) * 100.0;
    Quotient(percentile * y, 100.0);
  }

  // There is only one.
  lemma OneRank(percentile: real, n: nat, k: nat)
    requires IsRank(percentile, n, k) && n > 0
    ensures k == Rank(percentile, n)
  {
    hide Rank;
    RankIs(percentile, n);
  }

  lemma ScaleMonotone(p: real, q: real, n: nat)
    requires p <= q
    ensures Scale(p, n) <= Scale(q, n)
  {
    MulMonotone((if p < 100.0 then p else 100.0) / 100.0, (if q < 100.0 then q else 100.0) / 100.0, n as real);
  }

  lemma MulMonotone(x: real, y: real, c: real)
    requires x <= y && c >= 0.0
    ensures x * c <= y * c
  {
    assert (y - x) * c >= 0.0;
  }

  lemma ScaleBound(percentile: real, n: nat)
    ensures Scale(percentile, n) <= n as real + 0.5
  {
    ScaleMonotone(percentile, if percentile < 100.0 then 100.0 else percentile, n);
    assert 100.0 / 100.0 * n as real == n as real;
  }

  lemma RankInRange(percentile: real, n: nat)
    requires n > 0
    ensures 1 <= Rank(percentile, n) <= n
  {
    hide Scale;
    ScaleBound(percentile, n);
    TruncatedMonotone(Scale(percentile, n), n as real + 0.5);
  }

  lemma RankMonotone(p: real, q: real, n: nat)
    requires p <= q
    ensures Rank(p, n) <= Rank(q, n)
  {
    hide Scale, Truncated;
    ScaleMonotone(p, q, n);
    TruncatedMonotone(Scale(p, n), Scale(q, n));
  }

  lemma TruncatedMonotone(x: real, y: real)
    requires x <= y
    ensures Truncated(x) <= Truncated(y)
  {
    FloorMonotone(x, y);
    FloorMonotone(-y, -x);
    FloorMonotone(0.0, y);
    FloorMonotone(0.0, -x);
  }

  lemma FloorMonotone(x: real, y: real)
    ensures x <= y ==> x.Floor <= y.Floor
    ensures (0.0).Floor == 0
  {
  }

  // The value at a percentile, as a function of the values recorded
  ghost function Percentile(l: Layout, vs: seq<nat>, percentile: real): int
    requires AllTrackable(l, vs) && vs != []
  {
    SortedFacts(vs);
    RankInRange(percentile, |vs|);
    HighestEquivalent(l, Sorted(vs)[Rank(percentile, |vs|) - 1])
  }

  lemma RanksAre(h: Histogram, percentile: real)
    requires h.Valid() && h.recorded != []
    ensures forall k: nat :: IsRank(percentile, |h.recorded|, k) ==>
              && 1 <= k <= |h.recorded| == |Sorted(h.recorded)|
              && Percentile(h.layout, h.recorded, percentile) == HighestEquivalent(h.layout, Sorted(h.recorded)[k - 1])
  {
    SortedFacts(h.recorded);
    RankInRange(percentile, |h.recorded|);
    hide IsRank, Rank, Sorted, HighestEquivalent;
    forall k: nat | IsRank(percentile, |h.recorded|, k) ensures k == Rank(percentile, |h.recorded|) {
      OneRank(percentile, |h.recorded|, k);
    }
  }

  // hdr_value_at_percentile refines the sorted list of the values.
  method ValueAtPercentile(h: Histogram, percentile: real) returns (value: int)
    requires h.Valid()
    ensures h.recorded == [] ==> value == 0
    ensures h.recorded != [] ==> value == Percentile(h.layout, h.recorded, percentile)
    ensures forall k: nat :: h.recorded != [] && IsRank(percentile, |h.recorded|, k) ==>
              && 1 <= k <= |h.recorded| == |Sorted(h.recorded)|
              && value == HighestEquivalent(h.layout, Sorted(h.recorded)[k - 1])
  {
    hide IndexFor, Base, BucketAt, SubAt, CountIn, CountBelow, Sorted, BucketIndex, LowestEquivalent,
        HighestEquivalent, Rank, IsRank;
    if h.recorded != [] {
      RanksAre(h, percentile);
    }
    var iter := new Iterator(h);
    var k := Rank(percentile, h.totalCount);
    var total := 0;
    if h.totalCount > 0 {
      RankInRange(percentile, h.totalCount);
    }
    CountEnds(h.layout, h.recorded);
    var more := iter.Next();
    while more
      invariant iter.Valid() && iter.h == h
      invariant more ==> iter.next > 0 && total == CountBelow(h.layout, h.recorded, iter.next - 1)
      invariant !more ==> iter.countToIndex >= h.totalCount && total == iter.countToIndex
      invariant total < k
      decreases h.counts.Length - iter.next, more
    {
      total := total + iter.countAtIndex;
      CountStep(h.layout, h.recorded, iter.next - 1);
      if total >= k {
        SlotOfRank(h.layout, h.recorded, k, iter.next - 1);
        SameSlot(h.layout, iter.next - 1, Sorted(h.recorded)[k - 1]);
        return HighestEquivalent(h.layout, iter.valueFromIndex);
      }
      more := iter.Next();
    }
    value := 0;
  }

  // Values of one slot have the same equivalents as its first value.
  lemma SameSlot(l: Layout, i: nat, value: nat)
    requires i < CountsLength(l) && l.buckets > 0 && Trackable(l, value) && IndexFor(l, value) == i
    ensures LowestEquivalent(l, value) == LowestEquivalent(l, Base(l, i)) == Base(l, i)
    ensures HighestEquivalent(l, value) == HighestEquivalent(l, Base(l, i)) == Base(l, i + 1) - 1
    ensures MedianEquivalent(l, value) == MedianEquivalent(l, Base(l, i))
  {
    IndexOfBase(l, i);
    Equivalents(l, value);
    Equivalents(l, Base(l, i));
  }

  // Percentiles ascend.
  lemma PercentileMonotone(l: Layout, vs: seq<nat>, p: real, q: real)
    requires AllTrackable(l, vs) && vs != [] && p <= q
    ensures Percentile(l, vs, p) <= Percentile(l, vs, q)
  {
    hide Sorted, Rank, CountBelow, Trackable, HighestEquivalent;
    SortedFacts(vs);
    CountSorted(l, vs, 0);
    RankInRange(p, |vs|);
    RankInRange(q, |vs|);
    RankMonotone(p, q, |vs|);
    var a, b := Sorted(vs)[Rank(p, |vs|) - 1], Sorted(vs)[Rank(q, |vs|) - 1];
    assert a in Sorted(vs) && b in Sorted(vs);
    HighestMonotone(l, a, b);
  }

  lemma HighestMonotone(l: Layout, a: nat, b: nat)
    requires Trackable(l, a) && Trackable(l, b) && a <= b
    ensures HighestEquivalent(l, a) <= HighestEquivalent(l, b)
  {
    IndexMonotone(l, a, b);
    Equivalents(l, a);
    Equivalents(l, b);
    BaseMonotone(l, IndexFor(l, a) + 1, IndexFor(l, b) + 1);
  }

  // ---- Minimum and maximum -----------------------------------------------------------------

  // Slots that count nothing do not change the prefix sum.
  lemma {:induction false} EmptySlots(l: Layout, vs: seq<nat>, m: nat, n: nat)
    requires AllTrackable(l, vs) && m <= n && forall k :: m <= k < n ==> CountIn(l, vs, k) == 0
    ensures CountBelow(l, vs, m) == CountBelow(l, vs, n)
    decreases n
  {
    if m < n {
      EmptySlots(l, vs, m, n - 1);
      CountStep(l, vs, n - 1);
    }
  }

  // The last slot that counts something holds the largest value, ...
  lemma LastSlot(h: Histogram, i: nat)
    requires h.Valid() && i < h.counts.Length && h.counts[i] != 0
    requires forall k :: i < k < h.counts.Length ==> h.counts[k] == 0
    ensures |Sorted(h.recorded)| == |h.recorded| > 0
    ensures LowestEquivalent(h.layout, Sorted(h.recorded)[|h.recorded| - 1]) == Base(h.layout, i)
  {
    CountEnds(h.layout, h.recorded);
    CountStep(h.layout, h.recorded, i);
    EmptySlots(h.layout, h.recorded, i + 1, h.counts.Length);
    SlotOfRank(h.layout, h.recorded, |h.recorded|, i);
    SameSlot(h.layout, i, Sorted(h.recorded)[|h.recorded| - 1]);
  }

  lemma HighestOfSlot(l: Layout, i: nat)
    requires i < CountsLength(l) && l.buckets > 0
    ensures Base(l, i + 1) > 0 && LowestEquivalent(l, Base(l, i + 1) - 1) == Base(l, i)
  {
    Contiguous(l, i);
    Members(l, i, Base(l, i + 1) - 1);
    SameSlot(l, i, Base(l, i + 1) - 1);
  }

  // ... and the first one the smallest.
  lemma FirstSlot(h: Histogram, i: nat)
    requires h.Valid() && i < h.counts.Length && h.counts[i] != 0
    requires forall k :: 0 <= k < i ==> h.counts[k] == 0
    ensures |Sorted(h.recorded)| == |h.recorded| > 0
    ensures LowestEquivalent(h.layout, Sorted(h.recorded)[0]) == Base(h.layout, i)
  {
    CountEnds(h.layout, h.recorded);
    EmptySlots(h.layout, h.recorded, 0, i);
    CountStep(h.layout, h.recorded, i);
    SlotOfRank(h.layout, h.recorded, 1, i);
    SameSlot(h.layout, i, Sorted(h.recorded)[0]);
  }

  lemma SomethingCounted(h: Histogram)
    requires h.Valid() && h.recorded != []
    ensures exists k :: 0 <= k < h.counts.Length && h.counts[k] != 0
  {
    var i := IndexFor(h.layout, h.recorded[0]);
    assert h.counts[i] == CountIn(h.layout, h.recorded, i);
  }

  lemma LowestOfZero(l: Layout)
    requires l.buckets > 0
    ensures LowestEquivalent(l, 0) == 0
  {
    SlotOf(l, 0);
  }

  // hdr_max
  method Max(h: Histogram) returns (value: nat)
    requires h.Valid()
    ensures h.recorded == [] ==> value == 0
    ensures h.recorded != [] ==>
      |Sorted(h.recorded)| == |h.recorded| && value == LowestEquivalent(h.layout, Sorted(h.recorded)[|h.recorded| - 1])
  {
    hide IndexFor, Base, BucketAt, SubAt, CountIn, CountBelow, Sorted, BucketIndex, LowestEquivalent, HighestEquivalent;
    var max: int := 0;
    ghost var last: int := -1;
    var iter := new Iterator(h);
    var more := iter.Next();
    while more
      invariant iter.Valid() && iter.h == h && -1 <= last < iter.next
      invariant more ==> iter.next > 0 && last < iter.next - 1
      invariant !more ==> iter.countToIndex >= h.totalCount
      invariant forall k :: last < k < (if more then iter.next - 1 else iter.next) ==> h.counts[k] == 0
      invariant if last == -1 then max == 0 else h.counts[last] != 0 && max == Base(h.layout, last + 1) - 1
      decreases h.counts.Length - iter.next, more
    {
      if iter.countAtIndex != 0 {
        max, last := iter.highestEquivalent, iter.next - 1;
      }
      more := iter.Next();
    }
    iter.NothingLeft();
    if last >= 0 {
      LastSlot(h, last);
      HighestOfSlot(h.layout, last);
    } else if h.recorded != [] {
      SomethingCounted(h);
    }
    LowestOfZero(h.layout);
    value := LowestEquivalent(h.layout, max);
  }

  // hdr_min
  method Min(h: Histogram) returns (value: nat)
    requires h.Valid()
    ensures h.recorded == [] ==> value == 0
    ensures h.recorded != [] ==>
      |Sorted(h.recorded)| == |h.recorded| && value == LowestEquivalent(h.layout, Sorted(h.recorded)[0])
  {
    hide IndexFor, Base, BucketAt, SubAt, CountIn, CountBelow, Sorted, BucketIndex, LowestEquivalent, HighestEquivalent;
    value := 0;
    var iter := new Iterator(h);
    var more := iter.Next();
    while more
      invariant iter.Valid() && iter.h == h && value == 0
      invariant more ==> iter.next > 0
      invariant !more ==> iter.countToIndex >= h.totalCount
      invariant forall k :: 0 <= k < (if more then iter.next - 1 else iter.next) ==> h.counts[k] == 0
      decreases h.counts.Length - iter.next, more
    {
      CountStep(h.layout, h.recorded, iter.next - 1);
      CountEnds(h.layout, h.recorded);
      EmptySlots(h.layout, h.recorded, 0, iter.next - 1);
      if iter.countToIndex != 0 && value == 0 {
        value := iter.valueFromIndex;
        FirstSlot(h, iter.next - 1);
        return;
      }
      more := iter.Next();
    }
    iter.NothingLeft();
    if h.recorded != [] {
      SomethingCounted(h);
    }
  }

  // ---- The mean ----------------------------------------------------------------------------

  ghost function Total(vs: seq<nat>): nat {
    if vs == [] then 0 else vs[0] + Total(vs[1..])
  }

  // The values, each taken as the median of its slot; those before slot n
  ghost function MediansBelow(l: Layout, vs: seq<nat>, n: nat): nat
    requires AllTrackable(l, vs)
  {
    if vs == [] then 0
    else (if IndexFor(l, vs[0]) < n then MedianEquivalent(l, vs[0]) else 0) + MediansBelow(l, vs[1..], n)
  }

  lemma {:induction false} MediansStep(l: Layout, vs: seq<nat>, n: nat)
    requires AllTrackable(l, vs) && n < CountsLength(l) && l.buckets > 0
    ensures MediansBelow(l, vs, n + 1) == MediansBelow(l, vs, n) + CountIn(l, vs, n) * MedianEquivalent(l, Base(l, n))
  {
    hide IndexFor, MedianEquivalent, Base;
    if vs != [] {
      MediansStep(l, vs[1..], n);
      if IndexFor(l, vs[0]) == n {
        SameSlot(l, n, vs[0]);
        OneMore(CountIn(l, vs[1..], n), MedianEquivalent(l, Base(l, n)));
      }
    }
  }

  lemma OneMore(c: nat, m: nat)
    ensures (1 + c) * m == m + c * m
  {
  }

  lemma {:induction false} MediansEnd(l: Layout, vs: seq<nat>, n: nat)
    requires AllTrackable(l, vs) && CountBelow(l, vs, n) == |vs|
    ensures MediansBelow(l, vs, n) == MediansBelow(l, vs, CountsLength(l))
  {
    if vs != [] {
      MediansEnd(l, vs[1..], n);
    }
  }

  lemma {:induction false} MediansStart(l: Layout, vs: seq<nat>)
    requires AllTrackable(l, vs)
    ensures MediansBelow(l, vs, 0) == 0
  {
    if vs != [] {
      MediansStart(l, vs[1..]);
    }
  }

  // The loop of hdr_mean
  method SumOfMedians(h: Histogram) returns (total: nat)
    requires h.Valid()
    ensures total == MediansBelow(h.layout, h.recorded, h.counts.Length)
  {
    hide IndexFor, Base, BucketAt, SubAt, CountIn, CountBelow, BucketIndex, MedianEquivalent, MediansBelow;
    total := 0;
    var iter := new Iterator(h);
    MediansStart(h.layout, h.recorded);
    var more := iter.Next();
    while more
      invariant iter.Valid() && iter.h == h
      invariant more ==> iter.next > 0
      invariant !more ==> iter.countToIndex >= h.totalCount
      invariant total == MediansBelow(h.layout, h.recorded, if more then iter.next - 1 else iter.next)
      decreases h.counts.Length - iter.next, more
    {
      MediansStep(h.layout, h.recorded, iter.next - 1);
      if iter.countAtIndex != 0 {
        total := total + iter.countAtIndex * MedianEquivalent(h.layout, iter.valueFromIndex);
      }
      more := iter.Next();
    }
    CountAtMost(h.layout, h.recorded, iter.next);
    MediansEnd(h.layout, h.recorded, iter.next);
  }

  lemma CountAtMost(l: Layout, vs: seq<nat>, n: nat)
    requires AllTrackable(l, vs)
    ensures CountBelow(l, vs, n) <= |vs|
  {
  }

  // hdr_mean, of a histogram that is not empty
  method Mean(h: Histogram) returns (mean: real)
    requires h.Valid() && h.recorded != []
    ensures IsMean(mean, MediansBelow(h.layout, h.recorded, h.counts.Length), |h.recorded|)
  {
    var total := SumOfMedians(h);
    mean := Ratio(total, h.totalCount);
  }

  predicate IsMean(mean: real, sum: nat, n: nat) {
    mean * n as real == sum as real
  }

  function Ratio(total: nat, n: nat): (r: real)
    requires n > 0
    ensures IsMean(r, total, n)
  {
    var x, y := total as real, n as real;
    Quotient(x, y);
    x / y
  }

  function Distance(a: nat, b: nat): nat {
    if a < b then b - a else a - b
  }

  // a is within one part in 2 * precision of b.
  predicate Close(a: nat, b: nat, precision: nat) {
    2 * precision * Distance(a, b) <= b
  }

  // With lowest value 1, a slot is one value wide or narrow enough for the significant figures.
  lemma SlotPrecision(l: Layout, precision: nat, value: nat)
    requires l.unit == 0 && precision <= HalfCount(l) && Trackable(l, value)
    ensures SizeOfRange(l, value) == 1 || SizeOfRange(l, value) * precision <= value
    ensures Close(MedianEquivalent(l, value), value, precision)
  {
    hide Close, MedianEquivalent, SizeOfRange, LowestEquivalent, HighestEquivalent, IndexFor, Pow2, Base;
    hide Width, BucketAt, Trackable, HalfCount;
    Equivalents(l, value);
    var i := IndexFor(l, value);
    InSlot(l, value);
    WidthIs(l, i);
    if BucketAt(l, i) == 0 {
      SelfClose(value, precision);
    } else {
      WidthPrecision(l, precision, i);
      MedianClose(Base(l, i), Pow2(BucketAt(l, i) - 1), precision, value);
    }
  }

  lemma InSlot(l: Layout, value: nat)
    requires Trackable(l, value)
    ensures var i := IndexFor(l, value); Base(l, i) <= value < Base(l, i) + Width(l, i)
  {
  }

  lemma WidthIs(l: Layout, i: nat)
    requires l.unit == 0
    ensures Width(l, i) == if BucketAt(l, i) == 0 then 1 else 2 * Pow2(BucketAt(l, i) - 1)
  {
    hide BucketAt;
    Pow2One();
    if BucketAt(l, i) > 0 {
      Pow2Next(BucketAt(l, i) - 1);
    }
  }

  lemma WidthPrecision(l: Layout, precision: nat, i: nat)
    requires precision <= HalfCount(l) && BucketAt(l, i) > 0
    ensures Width(l, i) * precision <= Base(l, i)
  {
    hide Pow2;
    SubFacts(l, i);
    Scaled(SubAt(l, i), SubBucketCount(l), precision, Width(l, i));
  }

  lemma SelfClose(value: nat, precision: nat)
    ensures Close(value, value, precision)
  {
  }

  lemma Pow2One()
    ensures Pow2(0) == 1
  {
  }

  lemma MedianClose(base: nat, half: nat, precision: nat, value: nat)
    requires precision * (2 * half) <= base <= value < base + 2 * half
    ensures Close(base + half, value, precision)
  {
    var off := Distance(base + half, value);
    MulAtMost(2 * off, 2 * half, precision);
    assert 2 * precision * off == (2 * off) * precision;
  }

  // So the sum behind the mean is within one part in 2 * 10^figures of the exact sum.
  lemma {:induction false} MeanPrecision(l: Layout, precision: nat, vs: seq<nat>)
    requires l.unit == 0 && precision <= HalfCount(l) && AllTrackable(l, vs)
    ensures Close(MediansBelow(l, vs, CountsLength(l)), Total(vs), precision)
  {
    hide Close, MedianEquivalent;
    SelfClose(0, precision);
    if vs != [] {
      SlotPrecision(l, precision, vs[0]);
      MeanPrecision(l, precision, vs[1..]);
      CloseSum(MedianEquivalent(l, vs[0]), vs[0], MediansBelow(l, vs[1..], CountsLength(l)), Total(vs[1..]), precision);
    }
  }

  lemma CloseSum(a: nat, b: nat, c: nat, d: nat, precision: nat)
    requires Close(a, b, precision) && Close(c, d, precision)
    ensures Close(a + c, b + d, precision)
  {
    var k, x, y, z := 2 * precision, Distance(a, b), Distance(c, d), Distance(a + c, b + d);
    MulAtMost(z, x + y, k);
    assert (x + y) * k == x * k + y * k;
  }

  // ---- Merging -----------------------------------------------------------------------------

  // hdr_add, for equally configured histograms: nothing is dropped, and the result is the histogram of
  // all the values recorded in either.
  method Add(h: Histogram, from: Histogram) returns (dropped: int)
    requires h.Valid() && from.Valid() && h != from && h.counts != from.counts && h.layout == from.layout
    modifies h, h.counts
    ensures h.Valid() && dropped == 0 && h.recorded == old(h.recorded) + from.recorded
    ensures from.Valid() && from.recorded == old(from.recorded)
    ensures forall i :: 0 <= i < h.counts.Length ==> h.counts[i] == old(h.counts[i]) + from.counts[i]
  {
    hide IndexFor, Base, BucketAt, SubAt, CountIn, CountBelow, Sorted, BucketIndex, LowestEquivalent, HighestEquivalent;
    dropped := 0;
    var iter := new Iterator(from);
    var more := iter.NextRecorded();
    while more
      invariant iter.Valid() && iter.h == from && h.Valid() && dropped == 0
      invariant more ==> iter.next > 0 && iter.countAtIndex != 0
      invariant from.recorded == old(from.recorded) && iter.next <= h.counts.Length
      invariant var done := if more then iter.next - 1 else h.counts.Length;
        && (forall i :: 0 <= i < done ==> h.counts[i] == old(h.counts[i]) + from.counts[i])
        && (forall i :: done <= i < h.counts.Length ==> h.counts[i] == old(h.counts[i]))
      decreases h.counts.Length - iter.next, more
    {
      var value, count := iter.valueFromIndex, iter.countAtIndex;
      IndexOfBase(from.layout, iter.next - 1);
      var ok := h.RecordValues(value, count);
      if !ok {
        dropped := dropped + count;
      }
      more := iter.NextRecorded();
    }
    MergeCounts(h.layout, h.recorded, old(h.recorded), from.recorded);
    h.recorded := old(h.recorded) + from.recorded;
  }

  // As many values as the slots count
  lemma SameCounts(l: Layout, a: seq<nat>, b: seq<nat>, n: nat)
    requires AllTrackable(l, a) && AllTrackable(l, b)
    requires forall i :: 0 <= i < n ==> CountIn(l, a, i) == CountIn(l, b, i)
    ensures CountBelow(l, a, n) == CountBelow(l, b, n)
  {
    hide CountIn, CountBelow;
    CountEnds(l, a);
    CountEnds(l, b);
    if n > 0 {
      SameCounts(l, a, b, n - 1);
      CountStep(l, a, n - 1);
      CountStep(l, b, n - 1);
    }
  }

  // Values with the counts of two lists together can stand for their concatenation.
  lemma MergeCounts(l: Layout, all: seq<nat>, a: seq<nat>, b: seq<nat>)
    requires AllTrackable(l, all) && AllTrackable(l, a) && AllTrackable(l, b)
    requires forall i :: 0 <= i < CountsLength(l) ==> CountIn(l, all, i) == CountIn(l, a, i) + CountIn(l, b, i)
    ensures AllTrackable(l, a + b) && |all| == |a| + |b|
    ensures forall i :: 0 <= i < CountsLength(l) ==> CountIn(l, a + b, i) == CountIn(l, all, i)
  {
    forall i ensures CountIn(l, a + b, i) == CountIn(l, a, i) + CountIn(l, b, i) {
      CountConcat(l, a, b, i);
    }
    SameCounts(l, all, a + b, CountsLength(l));
    CountEnds(l, all);
    CountEnds(l, a + b);
  }

  // Values that have given counts in the first n slots
  ghost function Standing(l: Layout, seen: seq<nat>, n: nat): seq<nat>
    requires n <= |seen|
  {
    if n == 0 then [] else Standing(l, seen, n - 1) + Repeat(Base(l, n - 1), seen[n - 1])
  }

  lemma {:induction false} CountStanding(l: Layout, seen: seq<nat>, n: nat, i: nat)
    requires n <= |seen| && n <= CountsLength(l) && l.buckets > 0
    ensures AllTrackable(l, Standing(l, seen, n))
    ensures CountIn(l, Standing(l, seen, n), i) == if i < n then seen[i] else 0
  {
    hide IndexFor, Base, CountIn;
    if n == 0 {
      NoCounts(l, i);
    } else {
      CountStanding(l, seen, n - 1, i);
      IndexOfBase(l, n - 1);
      CountRepeat(l, Base(l, n - 1), seen[n - 1], i);
      CountConcat(l, Standing(l, seen, n - 1), Repeat(Base(l, n - 1), seen[n - 1]), i);
    }
  }

  lemma NoCounts(l: Layout, i: nat)
    ensures CountIn(l, [], i) == 0
  {
  }

  lemma StandingGrows(l: Layout, seen: seq<nat>, n: nat)
    requires n < |seen| && n < CountsLength(l) && l.buckets > 0
    ensures |Standing(l, seen, n + 1)| == |Standing(l, seen, n)| + seen[n]
  {
    IndexOfBase(l, n);
    CountRepeat(l, Base(l, n), seen[n], n);
  }

  // hist_add_live of src/wrk.c.  `seen` is what the loop reads in the slots of the other histogram, which a
  // thread may be filling: whatever it reads is added, slot by slot, and the result is a histogram whose
  // total is that of its counts.
  method AddLive(h: Histogram, seen: seq<nat>)
    requires h.Valid()
    modifies h, h.counts
    ensures h.Valid()
    ensures var n := if |seen| < h.counts.Length then |seen| else h.counts.Length;
      h.recorded == old(h.recorded) + Standing(h.layout, seen, n)
    ensures forall i :: 0 <= i < h.counts.Length ==>
              h.counts[i] == old(h.counts[i]) + if i < |seen| then seen[i] else 0
  {
    hide CountIn, Base, IndexFor;
    ghost var l := h.layout;
    var i := 0;
    while i < h.counts.Length && i < |seen|
      invariant 0 <= i <= h.counts.Length && i <= |seen|
      invariant forall k :: 0 <= k < i ==> h.counts[k] == old(h.counts[k]) + seen[k]
      invariant forall k :: i <= k < h.counts.Length ==> h.counts[k] == old(h.counts[k])
      invariant h.totalCount == old(h.totalCount) + |Standing(l, seen, i)|
      invariant h.recorded == old(h.recorded)
    {
      StandingGrows(l, seen, i);
      var n := seen[i];
      h.counts[i] := h.counts[i] + n;
      h.totalCount := h.totalCount + n;
      i := i + 1;
    }
    ghost var more := Standing(l, seen, i);
    h.recorded := old(h.recorded) + more;
    CountStanding(l, seen, i, 0);
    CountConcat(l, old(h.recorded), more, 0);
    forall k | 0 <= k < h.counts.Length ensures h.counts[k] == CountIn(l, h.recorded, k) {
      CountStanding(l, seen, i, k);
      CountConcat(l, old(h.recorded), more, k);
    }
  }

  // When nobody fills the other histogram meanwhile, the result is that of hdr_add.
  method AddQuiet(h: Histogram, from: Histogram)
    requires h.Valid() && from.Valid() && h != from && h.counts != from.counts && h.layout == from.layout
    modifies h, h.counts
    ensures h.Valid() && h.recorded == old(h.recorded) + from.recorded
    ensures from.Valid() && from.recorded == old(from.recorded)
    ensures forall i :: 0 <= i < h.counts.Length ==> h.counts[i] == old(h.counts[i]) + from.counts[i]
  {
    hide CountIn, Base, IndexFor;
    AddLive(h, from.counts[..]);
    MergeCounts(h.layout, h.recorded, old(h.recorded), from.recorded);
    h.recorded := old(h.recorded) + from.recorded;
  }
}
