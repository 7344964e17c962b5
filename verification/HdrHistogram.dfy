/**
 The histogram of src/hdr_histogram.c with its recording, merging and iteration.  The values recorded
 since the last reset are ghost state: the counts are theirs, slot by slot.
 */
module HdrHistogram {
  import opened Basics
  import opened HdrLayout
  import opened HdrCounts

  function Repeat(value: nat, count: nat): seq<nat> {
    if count == 0 then [] else [value] + Repeat(value, count - 1)
  }

  lemma {:induction false} CountRepeat(l: Layout, value: nat, count: nat, i: nat)
    requires Trackable(l, value)
    ensures AllTrackable(l, Repeat(value, count)) && |Repeat(value, count)| == count
    ensures CountIn(l, Repeat(value, count), i) == if IndexFor(l, value) == i then count else 0
  {
    if count > 0 {
      CountRepeat(l, value, count - 1, i);
    }
  }

  // What hdr_record_corrected_value adds for the requests that were not sent while one was slow
  function Missing(value: int, interval: int): seq<nat>
    requires interval > 0
    decreases value
  {
    if value < interval then [] else [value] + Missing(value - interval, interval)
  }

  // They are the value less each multiple of the interval, down to the interval itself.
  lemma {:induction false} MissingAre(value: int, interval: int)
    requires interval > 0 && value >= 0
    ensures var missing := Missing(value, interval);
      && |missing| * interval <= value < (|missing| + 1) * interval
      && forall k :: 0 <= k < |missing| ==> missing[k] == value - k * interval
    decreases value
  {
    if value >= interval {
      var rest := Missing(value - interval, interval);
      MissingAre(value - interval, interval);
      forall k | 0 <= k < |rest| ensures rest[k] == value - (k + 1) * interval {
        assert rest[k] == value - interval - k * interval;
      }
      var missing := Missing(value, interval);
      forall k | 0 <= k < |missing| ensures missing[k] == value - k * interval {
        if k > 0 {
          assert missing[k] == rest[k - 1];
        }
      }
    }
  }

  class Histogram {
    const layout: Layout
    const lowest: nat
    const highest: nat
    const figures: nat
    const counts: array<nat>
    var totalCount: nat
    ghost var recorded: seq<nat>

    // The 32-bit shift in size_of_equivalent_value_range demands the bound on the magnitudes.
    ghost predicate Valid()
      reads this, counts
    {
      && layout.buckets > 0 && layout.unit + layout.buckets <= 31
      && counts.Length == CountsLength(layout) && AllTrackable(layout, recorded)
      && totalCount == |recorded|
      && forall i :: 0 <= i < counts.Length ==> counts[i] == CountIn(layout, recorded, i)
    }

    constructor (layout: Layout, lowest: nat, highest: nat, figures: nat)
      requires layout.buckets > 0 && layout.unit + layout.buckets <= 31
      ensures Valid() && recorded == [] && fresh(counts)
      ensures this.layout == layout && this.lowest == lowest && this.highest == highest && this.figures == figures
    {
      this.layout, this.lowest, this.highest, this.figures := layout, lowest, highest, figures;
      counts := new nat[CountsLength(layout)](_ => 0);
      totalCount, recorded := 0, [];
    }

    // hdr_reset
    method Reset()
      requires Valid()
      modifies this, counts
      ensures Valid() && recorded == []
    {
      totalCount := 0;
      for i := 0 to counts.Length
        invariant forall k :: 0 <= k < i ==> counts[k] == 0
        invariant totalCount == 0
      {
        counts[i] := 0;
      }
      recorded := [];
    }

    // hdr_record_values; the assertions of counts_index demand a trackable value.
    method RecordValues(value: nat, count: nat) returns (ok: bool)
      requires Valid() && Trackable(layout, value)
      modifies this, counts
      ensures Valid() && ok && recorded == old(recorded) + Repeat(value, count)
      ensures forall i :: 0 <= i < counts.Length ==>
                counts[i] == old(counts[i]) + if i == IndexFor(layout, value) then count else 0
    {
      var index := IndexFor(layout, value);
      if index < 0 || counts.Length <= index {
        return false;
      }
      counts[index] := counts[index] + count;
      totalCount := totalCount + count;
      recorded := recorded + Repeat(value, count);
      ok := true;
      CountRepeat(layout, value, count, 0);
      CountConcat(layout, old(recorded), Repeat(value, count), 0);
      forall i | 0 <= i < counts.Length ensures counts[i] == CountIn(layout, recorded, i) {
        CountRepeat(layout, value, count, i);
        CountConcat(layout, old(recorded), Repeat(value, count), i);
      }
    }

    // hdr_record_value
    method RecordValue(value: nat) returns (ok: bool)
      requires Valid() && Trackable(layout, value)
      modifies this, counts
      ensures Valid() && ok && recorded == old(recorded) + [value]
    {
      assert Repeat(value, 1) == [value] by { assert Repeat(value, 0) == []; }
      ok := RecordValues(value, 1);
    }

    // hdr_record_corrected_value
    method RecordCorrected(value: nat, interval: int) returns (ok: bool)
      requires Valid() && Trackable(layout, value)
      modifies this, counts
      ensures Valid() && ok
      ensures recorded == old(recorded) + [value]
                          + if interval <= 0 || value <= interval then [] else Missing(value - interval, interval)
    {
      ok := RecordValue(value);
      if interval <= 0 || value <= interval {
        return true;
      }
      ghost var start := recorded;
      var missing := value - interval;
      while missing >= interval
        invariant Valid() && 0 <= missing <= value
        invariant recorded + Missing(missing, interval) == start + Missing(value - interval, interval)
        decreases missing
      {
        SmallerTrackable(layout, missing, value);
        assert recorded + Missing(missing, interval) == (recorded + [missing]) + Missing(missing - interval, interval);
        ok := RecordValue(missing);
        missing := missing - interval;
      }
      assert Missing(missing, interval) == [] && recorded + [] == recorded;
    }
  }

  // ---- hdr_init ----------------------------------------------------------------------------

  function Power(base: nat, exp: nat): nat {
    if exp == 0 then 1 else base * Power(base, exp - 1)
  }

  // power()
  method ComputePower(base: nat, exp: nat) returns (result: nat)
    ensures result == Power(base, exp)
  {
    result := 1;
    var left := exp;
    while left > 0
      invariant result * Power(base, left) == Power(base, exp)
    {
      assert Power(base, left) == base * Power(base, left - 1);
      assert result * Power(base, left) == (result * base) * Power(base, left - 1);
      result := result * base;
      left := left - 1;
    }
  }

  // ceil(log2(n)) and floor(log2(n))
  function CeilLog2(n: nat): nat
    requires n > 0
  {
    BitLength(n - 1)
  }

  function FloorLog2(n: nat): nat
    requires n > 0
  {
    BitLengthBounds(n);
    BitLength(n) - 1
  }

  lemma Log2Bounds(n: nat)
    requires n > 0
    ensures n <= Pow2(CeilLog2(n)) && (n > 1 ==> CeilLog2(n) > 0 && Pow2(CeilLog2(n) - 1) < n)
    ensures Pow2(FloorLog2(n)) <= n < Pow2(FloorLog2(n) + 1)
  {
    BitLengthBounds(n - 1);
    BitLengthBounds(n);
  }

  // The magnitude of half a sub-bucket count, for a number of significant figures
  function HalfMagnitude(figures: nat): nat {
    Power10Positive(figures);
    var magnitude := CeilLog2(2 * Power(10, figures));
    (if magnitude > 1 then magnitude else 1) - 1
  }

  lemma {:induction false} Power10Positive(figures: nat)
    ensures Power(10, figures) > 0
  {
    if figures > 0 {
      Power10Positive(figures - 1);
    }
  }

  // Half the sub-buckets are enough for the significant figures.
  lemma HalfIsEnough(figures: nat)
    ensures Power(10, figures) <= Pow2(HalfMagnitude(figures))
  {
    Power10Positive(figures);
    Log2Bounds(2 * Power(10, figures));
    assert Pow2(HalfMagnitude(figures) + 1) == 2 * Pow2(HalfMagnitude(figures));
  }

  datatype InitError = InvalidFigures | OutOfMemory

  // The loop of hdr_init: as few doublings of the mask as reach the highest value
  method BucketsNeeded(mask: nat, highest: nat) returns (buckets: nat)
    requires mask > 0
    ensures buckets > 0 && highest <= mask * Pow2(buckets - 1)
    ensures buckets > 1 ==> mask * Pow2(buckets - 2) < highest
  {
    var trackable := mask;
    buckets := 1;
    while trackable < highest
      invariant buckets > 0 && trackable == mask * Pow2(buckets - 1) && trackable > 0
      invariant buckets > 1 ==> mask * Pow2(buckets - 2) < highest
      decreases highest - trackable
    {
      assert mask * (2 * Pow2(buckets - 1)) == 2 * (mask * Pow2(buckets - 1));
      trackable := 2 * trackable;
      buckets := buckets + 1;
    }
  }

  // The array covers every value up to the highest trackable one.
  lemma Covered(l: Layout, highest: nat, value: nat)
    requires l.buckets > 0 && highest <= Mask(l) * Pow2(l.buckets - 1) && value <= highest
    ensures Trackable(l, value)
  {
    hide Pow2, Mask, BucketIndex;
    BucketRange(l, value);
    MaskIs(l);
    var full := Pow2(l.buckets - 1);
    MulAtMost(Mask(l) + 1, Pow2(l.half + 1 + l.unit), full);
    assert (Mask(l) + 1) * full == Mask(l) * full + full;
    Pow2Add(l.half + 1 + l.unit, l.buckets - 1);
    var b := BucketIndex(l, value);
    if l.buckets <= b {
      Pow2Monotone(l.half + 1 + l.unit + (l.buckets - 1), b + l.unit + l.half);
    }
  }

  // The magnitudes of the histogram add up to at most 31, as the 32-bit shifts demand, and its mask has at
  // most 31 bits, as its 32-bit type does.
  predicate Narrow(lowest: nat, highest: nat, figures: nat)
    requires lowest >= 1
  {
    var unit := FloorLog2(lowest);
    && unit <= 30 && unit + HalfMagnitude(figures) + 1 <= 31
    && highest <= Mask(Layout(unit, HalfMagnitude(figures), 0)) * Pow2(30 - unit)
  }

  // The mask is a positive 32-bit number exactly when this sum is at most 31.
  lemma MaskFits(l: Layout)
    ensures Mask(l) < 0x8000_0000 <==> l.unit + l.half + 1 <= 31
  {
    hide Pow2, Mask;
    var bits := l.half + 1 + l.unit;
    MaskIs(l);
    TwoTo31();
    if bits <= 31 {
      Pow2Monotone(bits, 31);
    } else {
      Pow2Monotone(31, bits - 1);
      Pow2Monotone(l.unit, bits - 1);
      Pow2Next(bits - 1);
    }
  }

  lemma TwoTo31()
    ensures Pow2(31) == 0x8000_0000
  {
    Small();
    Pow2Add(15, 15);
    Pow2Add(30, 1);
    assert Pow2(1) == 2;
  }

  // Without the bound the mask does not fit, in a configuration that asks for little: the source would
  // compute a negative number and double it for ever.
  lemma TooWide(highest: nat)
    requires highest <= 1000000
    ensures Mask(Layout(FloorLog2(16384), HalfMagnitude(5), 0)) >= 0x8000_0000
    ensures !Narrow(16384, highest, 5)
  {
    hide Pow2, Mask;
    assert Power(10, 5) == 100000 by {
      assert Power(10, 3) == 1000 by { assert Power(10, 2) == 100; }
      assert Power(10, 4) == 10000;
    }
    LengthAt(199999, 18);
    LengthAt(16384, 15);
    MaskFits(Layout(14, 17, 0));
  }

  lemma LengthAt(v: nat, n: nat)
    requires (v == 199999 && n == 18) || (v == 16384 && n == 15)
    ensures BitLength(v) == n
  {
    Small();
    Pow2Next(13);
    Pow2Next(14);
    Pow2Next(15);
    Pow2Next(16);
    Pow2Next(17);
    LengthIs(v, n);
  }

  lemma FewBuckets(unit: nat, mask: nat, highest: nat, buckets: nat)
    requires unit <= 30 && highest <= mask * Pow2(30 - unit) && buckets > 0
    requires buckets > 1 ==> mask * Pow2(buckets - 2) < highest
    ensures unit + buckets <= 31
  {
    hide Pow2;
    if 30 - unit <= buckets - 2 {
      Pow2Monotone(30 - unit, buckets - 2);
      MulAtMost(Pow2(30 - unit), Pow2(buckets - 2), mask);
    }
  }

  // The configuration of wperfk: one day in microseconds, three figures
  const MAX_LATENCY: nat := 24 * 60 * 60 * 1000000

  lemma WperfkIsNarrow()
    ensures Narrow(1, MAX_LATENCY, 3)
  {
    assert Power(10, 0) == 1 && Power(10, 1) == 10 && Power(10, 2) == 100 && Power(10, 3) == 1000;
    Small();
    LengthIs(1999, 11);
    LengthIs(1, 1);
    Pow2Add(15, 15);
    assert Mask(Layout(0, 10, 0)) == 2047;
  }

  lemma Small()
    ensures Pow2(0) == 1 && Pow2(10) == 1024 && Pow2(11) == 2048 && Pow2(15) == 32768
  {
    assert Pow2(2) == 4 && Pow2(4) == 16 && Pow2(6) == 64 && Pow2(8) == 256;
    assert Pow2(13) == 8192;
  }

  // hdr_init; `memory` says whether malloc succeeds.
  method Init(lowest: nat, highest: nat, figures: int, memory: bool) returns (h: Histogram?, error: InitError)
    requires lowest >= 1 && (1 <= figures <= 5 ==> Narrow(lowest, highest, figures))
    ensures h == null <==> figures < 1 || 5 < figures || !memory
    ensures h == null ==> error == if figures < 1 || 5 < figures then InvalidFigures else OutOfMemory
    ensures h != null ==>
      && fresh(h) && fresh(h.counts) && h.Valid() && h.recorded == [] && h.highest == highest && h.lowest == lowest
      && h.layout.unit == FloorLog2(lowest) && Power(10, figures) <= HalfCount(h.layout)
      && Mask(h.layout) < 0x8000_0000
      && forall value: nat :: value <= highest ==> Trackable(h.layout, value)
  {
    hide Mask, Pow2, HalfMagnitude, FloorLog2, BucketIndex, Power;
    error := InvalidFigures;
    if figures < 1 || 5 < figures {
      return null, error;
    }
    var unit, half := FloorLog2(lowest), HalfMagnitude(figures);
    var mask := Mask(Layout(unit, half, 0));
    MaskPositive(Layout(unit, half, 0));
    var buckets := BucketsNeeded(mask, highest);
    error := OutOfMemory;
    if !memory {
      return null, error;
    }
    var layout := Layout(unit, half, buckets);
    MaskOf(layout, 0);
    FewBuckets(unit, mask, highest, buckets);
    h := new Histogram(layout, lowest, highest, figures);
    HalfIsEnough(figures);
    MaskFits(layout);
    forall value: nat | value <= highest ensures Trackable(layout, value) {
      Covered(layout, highest, value);
    }
  }

  lemma MaskOf(l: Layout, buckets: nat)
    ensures Mask(l) == Mask(l.(buckets := buckets))
  {
  }

  lemma MaskPositive(l: Layout)
    ensures Mask(l) > 0
  {
    MaskIs(l);
    Pow2Monotone(l.unit, l.half + l.unit);
    Pow2Next(l.half + l.unit);
  }
}
