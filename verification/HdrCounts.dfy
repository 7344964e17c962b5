/**
 Counting recorded values by slot: what the counts array of a histogram stands for, and how its
 prefix sums find the k-th smallest value.
 */
module HdrCounts {
  import opened HdrLayout

  ghost predicate AllTrackable(l: Layout, vs: seq<nat>) {
    forall v :: v in vs ==> Trackable(l, v)
  }

  // How many of the values belong to slot i
  ghost function CountIn(l: Layout, vs: seq<nat>, i: nat): nat
    requires AllTrackable(l, vs)
  {
    if vs == [] then 0
    else (if IndexFor(l, vs[0]) == i then 1 else 0) + CountIn(l, vs[1..], i)
  }

  // How many belong to a slot before n
  ghost function CountBelow(l: Layout, vs: seq<nat>, n: nat): (r: nat)
    requires AllTrackable(l, vs)
    ensures r <= |vs|
  {
    if vs == [] then 0
    else (if IndexFor(l, vs[0]) < n then 1 else 0) + CountBelow(l, vs[1..], n)
  }

  lemma {:induction false} CountConcat(l: Layout, a: seq<nat>, b: seq<nat>, n: nat)
    requires AllTrackable(l, a) && AllTrackable(l, b)
    ensures AllTrackable(l, a + b)
    ensures CountBelow(l, a + b, n) == CountBelow(l, a, n) + CountBelow(l, b, n)
    ensures CountIn(l, a + b, n) == CountIn(l, a, n) + CountIn(l, b, n)
  {
    if a == [] {
      assert a + b == b;
    } else {
      assert (a + b)[0] == a[0] && (a + b)[1..] == a[1..] + b;
      CountConcat(l, a[1..], b, n);
    }
  }

  // The counts of the slots are the steps of the prefix sums.
  lemma {:induction false} CountStep(l: Layout, vs: seq<nat>, n: nat)
    requires AllTrackable(l, vs)
    ensures CountBelow(l, vs, n + 1) == CountBelow(l, vs, n) + CountIn(l, vs, n)
  {
    if vs != [] {
      CountStep(l, vs[1..], n);
    }
  }

  lemma {:induction false} CountEnds(l: Layout, vs: seq<nat>)
    requires AllTrackable(l, vs)
    ensures CountBelow(l, vs, 0) == 0 && CountBelow(l, vs, CountsLength(l)) == |vs|
  {
    if vs != [] {
      CountEnds(l, vs[1..]);
    }
  }

  lemma {:induction false} CountMonotone(l: Layout, vs: seq<nat>, m: nat, n: nat)
    requires AllTrackable(l, vs) && m <= n
    ensures CountBelow(l, vs, m) <= CountBelow(l, vs, n)
  {
    if vs != [] {
      CountMonotone(l, vs[1..], m, n);
    }
  }

  // ---- Sorting -----------------------------------------------------------------------------

  ghost predicate Ordered(s: seq<nat>) {
    forall i, j :: 0 <= i < j < |s| ==> s[i] <= s[j]
  }

  function Insert(v: nat, s: seq<nat>): seq<nat> {
    if s == [] || v <= s[0] then [v] + s else [s[0]] + Insert(v, s[1..])
  }

  function Sorted(vs: seq<nat>): seq<nat> {
    if vs == [] then [] else Insert(vs[0], Sorted(vs[1..]))
  }

  lemma OrderedCons(x: nat, s: seq<nat>)
    requires Ordered(s) && forall y :: y in s ==> x <= y
    ensures Ordered([x] + s)
  {
    var r := [x] + s;
    assert forall j :: 1 <= j < |r| ==> r[j] == s[j - 1] && r[j] in s;
  }

  lemma {:induction false} InsertFacts(v: nat, s: seq<nat>)
    requires Ordered(s)
    ensures Ordered(Insert(v, s)) && multiset(Insert(v, s)) == multiset(s) + multiset{v}
    ensures forall x :: x in Insert(v, s) ==> x == v || x in s
  {
    if s == [] || v <= s[0] {
      assert forall x :: x in s ==> v <= x;
      OrderedCons(v, s);
    } else {
      InsertFacts(v, s[1..]);
      assert s == [s[0]] + s[1..];
      OrderedCons(s[0], Insert(v, s[1..]));
    }
  }

  lemma {:induction false} SortedFacts(vs: seq<nat>)
    ensures Ordered(Sorted(vs)) && |Sorted(vs)| == |vs| && multiset(Sorted(vs)) == multiset(vs)
  {
    if vs != [] {
      SortedFacts(vs[1..]);
      InsertFacts(vs[0], Sorted(vs[1..]));
      assert vs == [vs[0]] + vs[1..];
      assert |Sorted(vs)| == |multiset(Sorted(vs))| == |multiset(vs)|;
    }
  }

  lemma {:induction false} CountInsert(l: Layout, v: nat, s: seq<nat>, n: nat)
    requires AllTrackable(l, s) && Trackable(l, v)
    ensures AllTrackable(l, Insert(v, s))
    ensures CountBelow(l, Insert(v, s), n) == CountBelow(l, [v], n) + CountBelow(l, s, n)
  {
    if s == [] || v <= s[0] {
      CountConcat(l, [v], s, n);
    } else {
      CountInsert(l, v, s[1..], n);
      CountConcat(l, [s[0]], Insert(v, s[1..]), n);
      CountConcat(l, [s[0]], s[1..], n);
      assert s == [s[0]] + s[1..];
    }
  }

  // Sorting does not change what a slot counts.
  lemma {:induction false} CountSorted(l: Layout, vs: seq<nat>, n: nat)
    requires AllTrackable(l, vs)
    ensures AllTrackable(l, Sorted(vs)) && CountBelow(l, Sorted(vs), n) == CountBelow(l, vs, n)
  {
    if vs != [] {
      CountSorted(l, vs[1..], n);
      CountInsert(l, vs[0], Sorted(vs[1..]), n);
      CountConcat(l, [vs[0]], vs[1..], n);
      assert vs == [vs[0]] + vs[1..];
    }
  }

  lemma {:induction false} AllBelow(l: Layout, s: seq<nat>, n: nat)
    requires AllTrackable(l, s)
    requires forall v :: v in s ==> IndexFor(l, v) < n
    ensures CountBelow(l, s, n) == |s|
  {
    if s != [] {
      AllBelow(l, s[1..], n);
    }
  }

  lemma {:induction false} NoneBelow(l: Layout, s: seq<nat>, n: nat)
    requires AllTrackable(l, s)
    requires forall v :: v in s ==> IndexFor(l, v) >= n
    ensures CountBelow(l, s, n) == 0
  {
    if s != [] {
      NoneBelow(l, s[1..], n);
    }
  }

  // The k-th smallest value is in the first slot at which the prefix sum reaches k.
  lemma RankOfSlot(l: Layout, vs: seq<nat>, k: nat)
    requires AllTrackable(l, vs) && 0 < k <= |vs|
    ensures |Sorted(vs)| == |vs| && Trackable(l, Sorted(vs)[k - 1])
    ensures var i := IndexFor(l, Sorted(vs)[k - 1]); CountBelow(l, vs, i) < k <= CountBelow(l, vs, i + 1)
  {
    SortedFacts(vs);
    var s := Sorted(vs);
    CountSorted(l, vs, 0);
    var i := IndexFor(l, s[k - 1]);
    CountSorted(l, vs, i);
    CountSorted(l, vs, i + 1);
    OrderedRank(l, s, k);
  }

  lemma OrderedRank(l: Layout, s: seq<nat>, k: nat)
    requires AllTrackable(l, s) && Ordered(s) && 0 < k <= |s|
    ensures var i := IndexFor(l, s[k - 1]); CountBelow(l, s, i) < k <= CountBelow(l, s, i + 1)
  {
    RankReached(l, s, k);
    RankNotBefore(l, s, k);
  }

  lemma RankReached(l: Layout, s: seq<nat>, k: nat)
    requires AllTrackable(l, s) && Ordered(s) && 0 < k <= |s|
    ensures k <= CountBelow(l, s, IndexFor(l, s[k - 1]) + 1)
  {
    hide IndexFor, CountBelow;
    var low, n := s[..k], IndexFor(l, s[k - 1]) + 1;
    forall v | v in low ensures IndexFor(l, v) < n {
      var j :| 0 <= j < |low| && low[j] == v;
      assert s[j] <= s[k - 1];
      IndexMonotone(l, v, s[k - 1]);
    }
    AllBelow(l, low, n);
    CountConcat(l, low, s[k..], n);
    assert s == low + s[k..];
  }

  lemma RankNotBefore(l: Layout, s: seq<nat>, k: nat)
    requires AllTrackable(l, s) && Ordered(s) && 0 < k <= |s|
    ensures CountBelow(l, s, IndexFor(l, s[k - 1])) < k
  {
    hide IndexFor, CountBelow;
    var high, n := s[k - 1..], IndexFor(l, s[k - 1]);
    forall v | v in high ensures IndexFor(l, v) >= n {
      var j :| 0 <= j < |high| && high[j] == v;
      assert s[k - 1] <= s[k - 1 + j];
      IndexMonotone(l, s[k - 1], v);
    }
    NoneBelow(l, high, n);
    CountConcat(l, s[..k - 1], high, n);
    assert s == s[..k - 1] + high;
  }

  // There is only one such slot.
  lemma SlotOfRank(l: Layout, vs: seq<nat>, k: nat, i: nat)
    requires AllTrackable(l, vs) && 0 < k <= |vs|
    requires CountBelow(l, vs, i) < k <= CountBelow(l, vs, i + 1)
    ensures |Sorted(vs)| == |vs| && Trackable(l, Sorted(vs)[k - 1]) && IndexFor(l, Sorted(vs)[k - 1]) == i
  {
    RankOfSlot(l, vs, k);
    var j := IndexFor(l, Sorted(vs)[k - 1]);
    if i < j {
      CountMonotone(l, vs, i + 1, j);
    } else if j < i {
      CountMonotone(l, vs, j + 1, i);
    }
  }
}
