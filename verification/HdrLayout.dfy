/**
 The index arithmetic of src/hdr_histogram.c: which slot of the counts array a value belongs to, and
 which values a slot stands for.
 */
module HdrLayout {
  import opened Basics

  // ---- Products and quotients --------------------------------------------------------------

  lemma MulAtMost(a: nat, b: nat, c: nat)
    requires a <= b
    ensures a * c <= b * c
  {
  }

  lemma DivBounds(x: nat, d: nat)
    requires d > 0
    ensures 0 <= x / d && x / d * d <= x < x / d * d + d
  {
  }

  // ---- Powers of two and bit lengths -------------------------------------------------------

  // 64 - __builtin_clzll, for a value that is not 0
  function BitLength(v: nat): nat {
    if v == 0 then 0 else 1 + BitLength(v / 2)
  }

  lemma {:induction false} BitLengthBounds(v: nat)
    ensures v < Pow2(BitLength(v))
    ensures v > 0 ==> BitLength(v) > 0 && Pow2(BitLength(v) - 1) <= v
  {
    if v > 0 {
      BitLengthBounds(v / 2);
    }
  }

  // The bitwise or of two values
  function Or(a: nat, b: nat): nat
    decreases a + b
  {
    if a == 0 && b == 0 then 0
    else 2 * Or(a / 2, b / 2) + (if a % 2 == 1 || b % 2 == 1 then 1 else 0)
  }

  lemma {:induction false} OrZero(a: nat, b: nat)
    ensures Or(a, b) == 0 <==> a == 0 && b == 0
    decreases a + b
  {
    if a + b > 0 {
      OrZero(a / 2, b / 2);
    }
  }

  lemma {:induction false} OrLength(a: nat, b: nat)
    ensures BitLength(Or(a, b)) == if BitLength(a) < BitLength(b) then BitLength(b) else BitLength(a)
    decreases a + b
  {
    OrZero(a, b);
    if a + b > 0 {
      OrLength(a / 2, b / 2);
      assert Or(a, b) / 2 == Or(a / 2, b / 2);
    }
  }

  // ---- The functions of the source ---------------------------------------------------------

  // unit_magnitude, sub_bucket_half_count_magnitude and bucket_count of a histogram
  datatype Layout = Layout(unit: nat, half: nat, buckets: nat)

  function HalfCount(l: Layout): nat {
    Pow2(l.half)
  }

  function SubBucketCount(l: Layout): nat {
    Pow2(l.half + 1)
  }

  function Mask(l: Layout): nat {
    MulAtMost(0, SubBucketCount(l) - 1, Pow2(l.unit));
    (SubBucketCount(l) - 1) * Pow2(l.unit)
  }

  function CountsLength(l: Layout): nat {
    (l.buckets + 1) * HalfCount(l)
  }

  // get_bucket_index
  function BucketIndex(l: Layout, value: nat): int {
    BitLength(Or(value, Mask(l))) - l.unit - (l.half + 1)
  }

  // get_sub_bucket_index
  function SubBucketIndex(l: Layout, value: nat, bucket: nat): nat {
    DivBounds(value, Pow2(bucket + l.unit));
    value / Pow2(bucket + l.unit)
  }

  // counts_index; its assertions are the precondition.
  function CountsIndex(l: Layout, bucket: nat, sub: nat): int
    requires bucket < l.buckets && sub < SubBucketCount(l) && (bucket == 0 || sub >= HalfCount(l))
  {
    (bucket + 1) * Pow2(l.half) + (sub - HalfCount(l))
  }

  // value_from_index
  function ValueFromIndex(l: Layout, bucket: nat, sub: nat): nat {
    sub * Pow2(bucket + l.unit)
  }

  // ---- Slots -------------------------------------------------------------------------------

  // Bucket and sub-bucket of the slot at an index
  function BucketAt(l: Layout, i: nat): nat {
    if i < SubBucketCount(l) then 0 else i / HalfCount(l) - 1
  }

  function SubAt(l: Layout, i: nat): int {
    i - BucketAt(l, i) * HalfCount(l)
  }

  // The values of slot i start at Base(i), and there are Width(i) of them.
  function Width(l: Layout, i: nat): nat {
    Pow2(BucketAt(l, i) + l.unit)
  }

  function Base(l: Layout, i: nat): (r: nat) {
    SubFacts(l, i);
    SubAt(l, i) * Width(l, i)
  }

  lemma SubFacts(l: Layout, i: nat)
    ensures 0 <= SubAt(l, i) < SubBucketCount(l) && (BucketAt(l, i) == 0 || SubAt(l, i) >= HalfCount(l))
  {
    var h := HalfCount(l);
    if i >= SubBucketCount(l) {
      var q, r := i / h, i % h;
      assert i == q * h + r && q >= 2 by { DivAtLeast(i, h, 2); }
      assert (q - 1) * h == q * h - h;
    }
  }

  lemma DivAtLeast(x: nat, d: nat, k: nat)
    requires d > 0 && x >= k * d
    ensures x / d >= k
  {
    assert (x / d + 1) * d == x / d * d + d;
    if x / d < k {
      MulAtMost(x / d + 1, k, d);
    }
  }

  // (bucket, sub-bucket) pairs and indices correspond one to one: there ...
  lemma IndexOfSlot(l: Layout, i: nat)
    requires i < CountsLength(l) && l.buckets > 0
    ensures BucketAt(l, i) < l.buckets
    ensures 0 <= SubAt(l, i) < SubBucketCount(l) && (BucketAt(l, i) == 0 || SubAt(l, i) >= HalfCount(l))
    ensures CountsIndex(l, BucketAt(l, i), SubAt(l, i)) == i
  {
    SubFacts(l, i);
    var h, b := HalfCount(l), BucketAt(l, i);
    assert (b + 1) * h == b * h + h && (l.buckets + 1) * h == l.buckets * h + h;
    assert b > 0 ==> i >= b * h + h;
    if l.buckets <= b {
      MulAtMost(l.buckets, b, h);
    }
  }

  // ... and back.
  lemma SlotOfIndex(l: Layout, bucket: nat, sub: nat)
    requires bucket < l.buckets && sub < SubBucketCount(l) && (bucket == 0 || sub >= HalfCount(l))
    ensures 0 <= CountsIndex(l, bucket, sub) < CountsLength(l)
    ensures BucketAt(l, CountsIndex(l, bucket, sub)) == bucket && SubAt(l, CountsIndex(l, bucket, sub)) == sub
  {
    var h, i := HalfCount(l), CountsIndex(l, bucket, sub);
    assert (bucket + 1) * h == bucket * h + h;
    assert i == bucket * h + sub;
    assert (l.buckets + 1) * h >= (bucket + 2) * h by { MulAtMost(bucket + 2, l.buckets + 1, h); }
    assert (bucket + 2) * h == bucket * h + 2 * h;
    if bucket > 0 {
      assert bucket * h >= h by { MulAtMost(1, bucket, h); }
      QuotientIs(i, h, bucket + 1);
    }
  }

  lemma QuotientIs(x: nat, d: nat, q: nat)
    requires d > 0 && q * d <= x < q * d + d
    ensures x / d == q
  {
    var y := x / d;
    assert y * d <= x < y * d + d;
    assert (y + 1) * d == y * d + d && (q + 1) * d == q * d + d;
    if y < q {
      MulAtMost(y + 1, q, d);
    } else if y > q {
      MulAtMost(q + 1, y, d);
    }
  }

  // ---- Slots partition the values ----------------------------------------------------------

  // The next slot starts where a slot ends.
  lemma Contiguous(l: Layout, i: nat)
    ensures Base(l, i + 1) == Base(l, i) + Width(l, i)
  {
    SubFacts(l, i);
    SubFacts(l, i + 1);
    var h, b, w := HalfCount(l), BucketAt(l, i), Width(l, i);
    if BucketAt(l, i + 1) == b {
      NextInBucket(l, i);
    } else {
      NextBucket(l, i);
      Pow2Next(b + l.unit);
      Twice(h, w);
    }
  }

  lemma NextInBucket(l: Layout, i: nat)
    requires BucketAt(l, i + 1) == BucketAt(l, i)
    ensures Base(l, i + 1) == Base(l, i) + Width(l, i)
  {
    hide Pow2;
    var s, w := SubAt(l, i), Width(l, i);
    assert SubAt(l, i + 1) == s + 1 && Width(l, i + 1) == w;
    assert (s + 1) * w == s * w + w;
  }

  lemma Pow2Next(n: nat)
    ensures Pow2(n + 1) == 2 * Pow2(n)
  {
  }

  lemma Twice(h: nat, w: nat)
    ensures h * (2 * w) == (2 * h - 1) * w + w
  {
  }

  // The first slot of the next bucket
  lemma NextBucket(l: Layout, i: nat)
    requires BucketAt(l, i + 1) != BucketAt(l, i)
    ensures BucketAt(l, i + 1) == BucketAt(l, i) + 1
    ensures SubAt(l, i + 1) == HalfCount(l) && SubAt(l, i) == 2 * HalfCount(l) - 1
  {
    var h := HalfCount(l);
    if i + 1 < 2 * h {
    } else if i + 1 == 2 * h {
      QuotientIs(i + 1, h, 2);
    } else {
      var q, r := i / h, i % h;
      assert i == q * h + r;
      if r + 1 < h {
        QuotientIs(i + 1, h, q);
      } else {
        assert (q + 1) * h == q * h + h && (q - 1) * h == q * h - h;
        QuotientIs(i + 1, h, q + 1);
      }
    }
  }

  lemma {:induction false} BaseMonotone(l: Layout, i: nat, j: nat)
    requires i <= j
    ensures Base(l, i) <= Base(l, j) && (i < j ==> Base(l, i) + Width(l, i) <= Base(l, j))
    decreases j
  {
    if i < j {
      Contiguous(l, j - 1);
      BaseMonotone(l, i, j - 1);
    }
  }

  // What get_bucket_index computes
  lemma BucketRange(l: Layout, value: nat)
    ensures var b := BucketIndex(l, value);
      && b >= 0 && value < Pow2(b + l.unit + l.half + 1)
      && (b > 0 ==> Pow2(b + l.unit + l.half) <= value)
  {
    OrLength(value, Mask(l));
    MaskLength(l);
    BitLengthBounds(value);
    var b := BucketIndex(l, value);
    if b == 0 {
      Pow2Monotone(BitLength(value), l.unit + l.half + 1);
    }
  }

  lemma MaskIs(l: Layout)
    ensures Mask(l) + Pow2(l.unit) == Pow2(l.half + 1 + l.unit)
  {
    hide Pow2;
    Pow2Add(l.half + 1, l.unit);
    var u := Pow2(l.unit);
    assert (SubBucketCount(l) - 1) * u == SubBucketCount(l) * u - u;
  }

  lemma MaskLength(l: Layout)
    ensures BitLength(Mask(l)) == l.unit + l.half + 1
  {
    MaskIs(l);
    Pow2Monotone(l.unit, l.half + l.unit);
    Pow2Next(l.half + l.unit);
    LengthIs(Mask(l), l.unit + l.half + 1);
  }

  lemma {:induction false} LengthIs(v: nat, n: nat)
    requires n > 0 && Pow2(n - 1) <= v < Pow2(n)
    ensures BitLength(v) == n
  {
    if n > 1 {
      LengthIs(v / 2, n - 1);
    }
  }

  predicate Trackable(l: Layout, value: nat) {
    BucketIndex(l, value) < l.buckets
  }

  // counts_index_for: the assertions of counts_index hold, and the slot contains the value.
  lemma SlotOf(l: Layout, value: nat)
    ensures BucketIndex(l, value) >= 0
    ensures var b := BucketIndex(l, value); var s := SubBucketIndex(l, value, b);
      && s < SubBucketCount(l) && (b == 0 || s >= HalfCount(l))
      && s * Pow2(b + l.unit) <= value < s * Pow2(b + l.unit) + Pow2(b + l.unit)
  {
    hide Pow2, BucketIndex;
    BucketRange(l, value);
    var b := BucketIndex(l, value);
    var w := Pow2(b + l.unit);
    DivBounds(value, w);
    Pow2Add(b + l.unit, l.half + 1);
    DivLess(value, w, SubBucketCount(l));
    if b > 0 {
      Pow2Add(b + l.unit, l.half);
      DivAtLeast(value, w, HalfCount(l));
    }
  }

  lemma DivLess(x: nat, d: nat, k: nat)
    requires d > 0 && x < k * d
    ensures x / d < k
  {
    if k <= x / d {
      MulAtMost(k, x / d, d);
    }
  }

  // counts_index_for
  function IndexFor(l: Layout, value: nat): (i: nat)
    requires Trackable(l, value)
    ensures i < CountsLength(l) && Base(l, i) <= value < Base(l, i) + Width(l, i)
  {
    SlotOf(l, value);
    var b := BucketIndex(l, value);
    var s := SubBucketIndex(l, value, b);
    SlotOfIndex(l, b, s);
    CountsIndex(l, b, s)
  }

  // Only the slot of a value contains it.
  lemma IndexUnique(l: Layout, value: nat, i: nat)
    requires Trackable(l, value) && Base(l, i) <= value < Base(l, i) + Width(l, i)
    ensures IndexFor(l, value) == i
  {
    hide IndexFor, Base, Width;
    var j := IndexFor(l, value);
    if i < j {
      BaseMonotone(l, i, j);
    } else if j < i {
      BaseMonotone(l, j, i);
    }
  }

  lemma IndexMonotone(l: Layout, a: nat, b: nat)
    requires Trackable(l, a) && Trackable(l, b) && a <= b
    ensures IndexFor(l, a) <= IndexFor(l, b)
  {
    hide IndexFor, Base, Width;
    if IndexFor(l, b) < IndexFor(l, a) {
      BaseMonotone(l, IndexFor(l, b), IndexFor(l, a));
    }
  }

  lemma SmallerTrackable(l: Layout, a: nat, b: nat)
    requires Trackable(l, b) && a <= b
    ensures Trackable(l, a)
  {
    BucketRange(l, a);
    BucketRange(l, b);
    var i, j := BucketIndex(l, a), BucketIndex(l, b);
    if j < i {
      Pow2Monotone(j + l.unit + l.half + 1, i + l.unit + l.half);
    }
  }

  // The first value of a slot belongs to it.
  lemma IndexOfBase(l: Layout, i: nat)
    requires i < CountsLength(l) && l.buckets > 0
    ensures Trackable(l, Base(l, i)) && IndexFor(l, Base(l, i)) == i
  {
    Contiguous(l, i);
    Members(l, i, Base(l, i));
  }

  // The values of a slot are all in its bucket.
  lemma BucketOfMember(l: Layout, i: nat, value: nat)
    requires i < CountsLength(l) && Base(l, i) <= value < Base(l, i) + Width(l, i)
    ensures BucketIndex(l, value) == BucketAt(l, i)
  {
    hide Pow2, BucketIndex, Base;
    MemberRange(l, i, value);
    var b, c := BucketAt(l, i), BucketIndex(l, value);
    BucketRange(l, value);
    if c < b {
      Pow2Monotone(c + l.unit + l.half + 1, b + l.unit + l.half);
    } else if b < c {
      Pow2Monotone(b + l.unit + l.half + 1, c + l.unit + l.half);
    }
  }

  lemma MemberRange(l: Layout, i: nat, value: nat)
    requires Base(l, i) <= value < Base(l, i) + Width(l, i)
    ensures var b := BucketAt(l, i);
      && value < Pow2(b + l.unit + l.half + 1)
      && (b > 0 ==> Pow2(b + l.unit + l.half) <= value)
  {
    hide Pow2, BucketAt;
    SubFacts(l, i);
    var b, s, w := BucketAt(l, i), SubAt(l, i), Width(l, i);
    Pow2Add(b + l.unit, l.half + 1);
    Pow2Add(b + l.unit, l.half);
    Scaled(s, SubBucketCount(l), HalfCount(l), w);
  }

  lemma Scaled(s: nat, most: nat, least: nat, w: nat)
    requires s < most
    ensures s * w + w <= w * most && (least <= s ==> w * least <= s * w)
  {
    MulAtMost(s + 1, most, w);
    assert (s + 1) * w == s * w + w;
    if least <= s {
      MulAtMost(least, s, w);
    }
  }

  // The values of a slot are those that map to it.
  lemma Members(l: Layout, i: nat, value: nat)
    requires i < CountsLength(l) && l.buckets > 0 && Base(l, i) <= value < Base(l, i + 1)
    ensures Trackable(l, value) && IndexFor(l, value) == i
  {
    Contiguous(l, i);
    IndexOfSlot(l, i);
    BucketOfMember(l, i, value);
    IndexUnique(l, value, i);
  }

  // ---- Equivalent values -------------------------------------------------------------------

  function LowestEquivalent(l: Layout, value: nat): nat {
    SlotOf(l, value);
    ValueFromIndex(l, BucketIndex(l, value), SubBucketIndex(l, value, BucketIndex(l, value)))
  }

  function SizeOfRange(l: Layout, value: nat): nat {
    SlotOf(l, value);
    var bucket := BucketIndex(l, value);
    var sub := SubBucketIndex(l, value, bucket);
    var adjusted := if sub >= SubBucketCount(l) then bucket + 1 else bucket;
    Pow2(l.unit + adjusted)
  }

  function NextNonEquivalent(l: Layout, value: nat): nat {
    LowestEquivalent(l, value) + SizeOfRange(l, value)
  }

  function HighestEquivalent(l: Layout, value: nat): int {
    NextNonEquivalent(l, value) - 1
  }

  function MedianEquivalent(l: Layout, value: nat): nat {
    LowestEquivalent(l, value) + SizeOfRange(l, value) / 2
  }

  // They are what the slot of the value says.
  lemma Equivalents(l: Layout, value: nat)
    requires Trackable(l, value)
    ensures var i := IndexFor(l, value);
      && LowestEquivalent(l, value) == Base(l, i) && SizeOfRange(l, value) == Width(l, i)
      && HighestEquivalent(l, value) == Base(l, i + 1) - 1
      && MedianEquivalent(l, value) == Base(l, i) + Width(l, i) / 2
  {
    SlotOf(l, value);
    var b := BucketIndex(l, value);
    SlotOfIndex(l, b, SubBucketIndex(l, value, b));
    Contiguous(l, IndexFor(l, value));
  }

  // The 32-bit shift of size_of_equivalent_value_range does not overflow.
  lemma ShiftFits(l: Layout, value: nat)
    requires Trackable(l, value) && l.unit + l.buckets <= 31
    ensures SizeOfRange(l, value) <= Pow2(30)
  {
    SlotOf(l, value);
    Pow2Monotone(l.unit + BucketIndex(l, value), 30);
  }
}
