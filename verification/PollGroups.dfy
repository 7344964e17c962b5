/**
 The poll groups of deps/wepoll/wepoll.c: at most 32 sockets share one AFD device handle.  Full
 groups are kept at the start of the queue and every other one behind them, so the last group
 tells whether there is room.
 */
module PollGroups {
  import opened Basics
  import opened Queues

  // POLL_GROUP__MAX_GROUP_SIZE
  const MAX_GROUP_SIZE: nat := 32

  lemma {:induction false} SumConcat(a: seq<nat>, b: seq<nat>)
    ensures Sum(a + b) == Sum(a) + Sum(b)
  {
    if a == [] {
      assert a + b == b;
    } else {
      assert (a + b)[1..] == a[1..] + b;
      SumConcat(a[1..], b);
    }
  }

  lemma SumAround(s: seq<nat>, k: nat, x: nat)
    requires k < |s|
    ensures Sum(s) == Sum(s[..k] + s[k + 1..]) + s[k]
    ensures Sum(s[k := x]) == Sum(s) - s[k] + x
  {
    assert s == s[..k] + ([s[k]] + s[k + 1..]);
    assert s[k := x] == s[..k] + ([x] + s[k + 1..]);
    SumConcat(s[..k], [s[k]] + s[k + 1..]);
    SumConcat(s[..k], [x] + s[k + 1..]);
    SumConcat(s[..k], s[k + 1..]);
    assert ([x] + s[k + 1..])[1..] == ([s[k]] + s[k + 1..])[1..] == s[k + 1..];
  }

  lemma {:induction false} SumBounds(s: seq<nat>, bound: nat)
    requires forall i :: 0 <= i < |s| ==> s[i] <= bound
    ensures Sum(s) <= bound * |s|
    ensures Sum(s) == bound * |s| <==> forall i :: 0 <= i < |s| ==> s[i] == bound
  {
    if s != [] {
      SumBounds(s[1..], bound);
      assert forall i :: 0 <= i < |s[1..]| ==> s[1..][i] == s[i + 1];
      assert bound * |s| == bound + bound * |s[1..]|;
      if forall i :: 0 <= i < |s[1..]| ==> s[1..][i] == bound {
        assert forall i :: 1 <= i < |s| ==> s[i] == s[1..][i - 1];
      }
    }
  }

  // The number of groups that `peak` simultaneous sockets need.
  function GroupsFor(peak: nat): nat {
    (peak + MAX_GROUP_SIZE - 1) / MAX_GROUP_SIZE
  }

  // ---- On the sizes of the groups, in queue order ----------------------------------------

  // No group is too large and the full groups form a prefix.
  ghost predicate FullFirst(sizes: seq<nat>) {
    && (forall i :: 0 <= i < |sizes| ==> sizes[i] <= MAX_GROUP_SIZE)
    && (forall i, j :: 0 <= i < j < |sizes| && sizes[j] == MAX_GROUP_SIZE ==> sizes[i] == MAX_GROUP_SIZE)
  }

  // `held` acquisitions are outstanding, `peak` is the most there ever were.
  ghost predicate Exact(sizes: seq<nat>, held: nat, peak: nat) {
    FullFirst(sizes) && held == Sum(sizes) && held <= peak && |sizes| == GroupsFor(peak)
  }

  predicate NoRoom(sizes: seq<nat>) {
    sizes == [] || sizes[|sizes| - 1] >= MAX_GROUP_SIZE
  }

  function Acquired(sizes: seq<nat>): seq<nat> {
    if NoRoom(sizes) then sizes + [1]
    else
      var last := |sizes| - 1;
      if sizes[last] + 1 == MAX_GROUP_SIZE then [MAX_GROUP_SIZE] + sizes[..last] else sizes[last := sizes[last] + 1]
  }

  function Released(sizes: seq<nat>, k: nat): seq<nat>
    requires k < |sizes| && sizes[k] > 0
  {
    sizes[..k] + sizes[k + 1..] + [sizes[k] - 1]
  }

  // There is no room exactly when every group is full.
  lemma NoRoomMeansFull(sizes: seq<nat>)
    requires FullFirst(sizes)
    ensures NoRoom(sizes) <==> Sum(sizes) == MAX_GROUP_SIZE * |sizes|
  {
    SumBounds(sizes, MAX_GROUP_SIZE);
  }

  lemma AcquireExact(sizes: seq<nat>, held: nat, peak: nat)
    requires Exact(sizes, held, peak)
    ensures Exact(Acquired(sizes), held + 1, Max(peak, held + 1))
  {
    NoRoomMeansFull(sizes);
    SumBounds(sizes, MAX_GROUP_SIZE);
    AcquireFullFirst(sizes);
    hide FullFirst;
    if NoRoom(sizes) {
      SumConcat(sizes, [1]);
    } else {
      var last := |sizes| - 1;
      SumAround(sizes, last, sizes[last] + 1);
      SumConcat([MAX_GROUP_SIZE], sizes[..last]);
      assert sizes[..last] + sizes[last + 1..] == sizes[..last];
    }
  }

  lemma AcquireFullFirst(sizes: seq<nat>)
    requires FullFirst(sizes)
    ensures FullFirst(Acquired(sizes))
  {
    if NoRoom(sizes) && sizes != [] {
      SumBounds(sizes, MAX_GROUP_SIZE);
    }
  }

  lemma ReleaseExact(sizes: seq<nat>, k: nat, held: nat, peak: nat)
    requires Exact(sizes, held, peak) && k < |sizes| && sizes[k] > 0
    ensures held > 0 && Exact(Released(sizes, k), held - 1, peak)
  {
    SumAround(sizes, k, 0);
    var rest := sizes[..k] + sizes[k + 1..];
    SumConcat(rest, [sizes[k] - 1]);
    forall i, j | 0 <= i < j < |rest| && rest[j] == MAX_GROUP_SIZE ensures rest[i] == MAX_GROUP_SIZE {
      var i', j' := if i < k then i else i + 1, if j < k then j else j + 1;
      assert rest[i] == sizes[i'] && rest[j] == sizes[j'];
    }
    forall i | 0 <= i < |rest| ensures rest[i] <= MAX_GROUP_SIZE {
      assert rest[i] == sizes[if i < k then i else i + 1];
    }
  }

  // ---- Over any sequence of acquisitions and releases --------------------------------------

  datatype Op = Acquire | Release(k: nat)

  // What a release names has been acquired and not yet released.
  ghost predicate Runs(sizes: seq<nat>, ops: seq<Op>)
    decreases |ops|
  {
    ops != [] ==>
      match ops[0]
      case Acquire => Runs(Acquired(sizes), ops[1..])
      case Release(k) => k < |sizes| && sizes[k] > 0 && Runs(Released(sizes, k), ops[1..])
  }

  ghost function After(sizes: seq<nat>, ops: seq<Op>): seq<nat>
    requires Runs(sizes, ops)
    decreases |ops|
  {
    if ops == [] then sizes
    else
      match ops[0]
      case Acquire => After(Acquired(sizes), ops[1..])
      case Release(k) => After(Released(sizes, k), ops[1..])
  }

  // The most acquisitions outstanding at once, counted without looking at the groups
  function Peak(held: int, peak: nat, ops: seq<Op>): nat
    decreases |ops|
  {
    if ops == [] then peak
    else
      match ops[0]
      case Acquire => Peak(held + 1, if held + 1 > peak then held + 1 else peak, ops[1..])
      case Release(_) => Peak(held - 1, peak, ops[1..])
  }

  lemma {:induction false} RunsExact(sizes: seq<nat>, held: nat, peak: nat, ops: seq<Op>)
    requires Exact(sizes, held, peak) && Runs(sizes, ops)
    ensures FullFirst(After(sizes, ops)) && |After(sizes, ops)| == GroupsFor(Peak(held, peak, ops))
    decreases |ops|
  {
    hide GroupsFor, FullFirst, Sum, Acquired, Released;
    if ops != [] {
      if ops[0].Acquire? {
        AcquireExact(sizes, held, peak);
        RunsExact(Acquired(sizes), held + 1, Max(peak, held + 1), ops[1..]);
      } else {
        ReleaseExact(sizes, ops[0].k, held, peak);
        RunsExact(Released(sizes, ops[0].k), held - 1, peak, ops[1..]);
      }
    }
  }

  // From the empty queue on
  lemma GroupsNeeded(ops: seq<Op>)
    requires Runs([], ops)
    ensures FullFirst(After([], ops)) && |After([], ops)| == GroupsFor(Peak(0, 0, ops))
  {
    RunsExact([], 0, 0, ops);
  }

  // ---- The groups themselves --------------------------------------------------------------

  class PollGroup {
    var groupSize: nat

    constructor ()
      ensures groupSize == 0
    {
      groupSize := 0;
    }
  }

  class PollGroupQueue {
    var queue: seq<PollGroup>
    // The sizes of the groups, the acquisitions not yet released and the most there ever were.
    ghost var sizes: seq<nat>
    ghost var held: nat
    ghost var peak: nat

    ghost predicate Linked()
      reads `queue, `sizes, queue
    {
      && Distinct(queue) && |sizes| == |queue|
      && forall i :: 0 <= i < |queue| ==> queue[i].groupSize == sizes[i]
    }

    ghost predicate Valid()
      reads this, queue
    {
      Linked() && Exact(sizes, held, peak)
    }

    constructor ()
      ensures Valid() && queue == [] && held == 0 && peak == 0
    {
      queue, sizes, held, peak := [], [], 0, 0;
    }

    // poll_group_acquire; `created` says whether poll_group__new succeeds when it is called.
    method Acquire(created: bool) returns (group: PollGroup?)
      requires Valid()
      modifies this, queue
      ensures Valid()
      ensures group == null <==> !created && old(held) == MAX_GROUP_SIZE * old(|queue|)
      ensures group == null ==> unchanged(this) && unchanged(old(queue))
      ensures group != null ==> held == old(held) + 1 && peak == Max(old(peak), held)
      ensures group != null ==> sizes == Acquired(old(sizes)) && group in queue
      ensures group != null ==> if group in old(queue) then group.groupSize == old(group.groupSize) + 1
                                else fresh(group) && group.groupSize == 1
      ensures forall g :: g in queue && g != group ==> g in old(queue) && g.groupSize == old(g.groupSize)
      ensures forall g :: g in old(queue) ==> g in queue
    {
      hide Exact, NoRoom, Acquired;
      RoomLeft();
      AcquireExact(sizes, held, peak);
      group := Take(created);
      if group != null {
        held := held + 1;
        peak := Max(peak, held);
      }
    }

    lemma RoomLeft()
      requires Valid()
      ensures NoRoom(sizes) <==> held == MAX_GROUP_SIZE * |queue|
    {
      NoRoomMeansFull(sizes);
    }

    method Take(created: bool) returns (group: PollGroup?)
      requires Linked()
      modifies `queue, `sizes, queue
      ensures Linked()
      ensures group == null <==> !created && NoRoom(old(sizes))
      ensures group == null ==> unchanged(this) && unchanged(old(queue))
      ensures group != null ==> sizes == Acquired(old(sizes)) && group in queue
      ensures group != null ==> if group in old(queue) then group.groupSize == old(group.groupSize) + 1
                                else fresh(group) && group.groupSize == 1
      ensures forall g :: g in queue && g != group ==> g in old(queue) && g.groupSize == old(g.groupSize)
      ensures forall g :: g in old(queue) ==> g in queue
    {
      var last: PollGroup? := if queue != [] then queue[|queue| - 1] else null;
      var g: PollGroup;
      if last == null || last.groupSize >= MAX_GROUP_SIZE {
        if !created {
          return null;
        }
        g := new PollGroup();
        queue, sizes := queue + [g], sizes + [0];
      } else {
        g := last;
      }
      Bump(g);
      group := g;
    }

    // ++group_size of the last group, which moves to the start when that fills it.
    method Bump(g: PollGroup)
      requires Linked() && queue != [] && g == queue[|queue| - 1] && g.groupSize < MAX_GROUP_SIZE
      modifies `queue, `sizes, g
      ensures Linked() && g.groupSize == old(g.groupSize) + 1
      ensures sizes == var s, last := old(sizes), |old(sizes)| - 1;
                       if s[last] + 1 == MAX_GROUP_SIZE then [MAX_GROUP_SIZE] + s[..last] else s[last := s[last] + 1]
      ensures forall x :: x in queue <==> x in old(queue)
    {
      ghost var last := |queue| - 1;
      LastWithout(queue);
      g.groupSize := g.groupSize + 1;
      if g.groupSize == MAX_GROUP_SIZE {
        queue, sizes := [g] + Without(queue, g), [MAX_GROUP_SIZE] + sizes[..last];
      } else {
        sizes := sizes[last := sizes[last] + 1];
      }
    }

    // poll_group_release
    method Release(group: PollGroup)
      requires Valid() && group in queue && group.groupSize > 0
      modifies this, group
      ensures Valid()
      ensures held == old(held) - 1 && peak == old(peak)
      ensures group.groupSize == old(group.groupSize) - 1 && group.groupSize < MAX_GROUP_SIZE
      ensures queue == Without(old(queue), group) + [group]
      ensures forall g :: g in queue <==> g in old(queue)
    {
      ghost var k :| 0 <= k < |queue| && queue[k] == group;
      ReleaseExact(sizes, k, held, peak);
      MovedToEnd(queue, k);
      assert sizes[k] <= MAX_GROUP_SIZE;
      hide Exact, FullFirst, Without, Distinct;
      group.groupSize := group.groupSize - 1;
      queue := Without(queue, group) + [group];
      sizes := Released(sizes, k);
      held := held - 1;
    }

    // poll_group_delete, as port_delete calls it for one group after the other; its precondition
    // is the assertion at its start.
    method DeleteFirst()
      requires Linked() && queue != [] && queue[0].groupSize == 0
      modifies `queue, `sizes
      ensures Linked() && queue == old(queue)[1..]
    {
      queue, sizes := queue[1..], sizes[1..];
    }
  }

  // The member at k goes to the end, and those behind it move up.
  lemma MovedToEnd<T>(s: seq<T>, k: nat)
    requires k < |s| && Distinct(s)
    ensures var t := Without(s, s[k]) + [s[k]];
      && |t| == |s| && Distinct(t) && t[|s| - 1] == s[k] && (forall x :: x in t <==> x in s)
      && forall i :: 0 <= i < |s| - 1 ==> t[i] == s[if i < k then i else i + 1]
  {
    hide Without;
    WithoutAt(s, k);
    WithoutMembers(s, k);
  }

  lemma LastWithout<T>(s: seq<T>)
    requires s != [] && Distinct(s)
    ensures var last := |s| - 1; Without(s, s[last]) == s[..last] && s[last] !in s[..last] && Distinct(s[..last])
    ensures forall x :: x in s <==> x in s[..|s| - 1] || x == s[|s| - 1]
  {
    hide Distinct, Without;
    var last := |s| - 1;
    WithoutAt(s, last);
    assert s[..last] + s[last + 1..] == s[..last];
    assert s == s[..last] + [s[last]];
  }
}
