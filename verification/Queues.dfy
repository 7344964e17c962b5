/**
 The intrusive circular queues of deps/wepoll/wepoll.c: a head node and its members are linked
 in both directions; a node that is in no queue points at itself.
 */
module Queues {

  class QueueNode {
    var prev: QueueNode
    var next: QueueNode

    // queue_node_init
    constructor ()
      ensures !IsEnqueued() && next == this
    {
      prev, next := this, this;
    }

    // queue_is_enqueued
    predicate IsEnqueued()
      reads this
    {
      prev != this
    }
  }

  // The functions on sequences that the operations refine.
  function Without<T(==)>(s: seq<T>, x: T): seq<T> {
    if s == [] then [] else if s[0] == x then s[1..] else [s[0]] + Without(s[1..], x)
  }

  ghost predicate Distinct<T>(s: seq<T>) {
    forall i, j :: 0 <= i < j < |s| ==> s[i] != s[j]
  }

  lemma {:induction false} WithoutIs<T>(s: seq<T>, k: nat)
    requires k < |s| && Distinct(s)
    ensures Without(s, s[k]) == s[..k] + s[k + 1..]
  {
    if k == 0 {
      assert s[..0] + s[1..] == s[1..];
    } else {
      var t := s[1..];
      assert t[k - 1] == s[k] != s[0];
      WithoutIs(t, k - 1);
      assert s[..k] + s[k + 1..] == [s[0]] + (t[..k - 1] + t[k..]);
    }
  }

  lemma WithoutAt<T>(s: seq<T>, k: nat)
    requires k < |s| && Distinct(s)
    ensures Without(s, s[k]) == s[..k] + s[k + 1..]
    ensures s[k] !in Without(s, s[k]) && Distinct(Without(s, s[k]))
    ensures forall x :: x in Without(s, s[k]) ==> x in s
  {
    hide Without;
    WithoutIs(s, k);
  }

  lemma {:induction false} WithoutMembers<T>(s: seq<T>, k: nat)
    requires k < |s| && Distinct(s)
    ensures forall x :: x in Without(s, s[k]) <==> x in s && x != s[k]
  {
    assert s == [s[0]] + s[1..];
    if k > 0 {
      assert s[1..][k - 1] == s[k];
      WithoutMembers(s[1..], k - 1);
    }
  }

  // What is left after taking out an element, member or not.
  lemma {:induction false} WithoutFacts<T>(s: seq<T>, x: T)
    requires Distinct(s)
    ensures Distinct(Without(s, x))
    ensures forall y :: y in Without(s, x) <==> y in s && y != x
    ensures x !in s ==> Without(s, x) == s
    ensures x in s ==> |Without(s, x)| == |s| - 1
  {
    if x in s {
      var k :| 0 <= k < |s| && s[k] == x;
      WithoutAt(s, k);
      WithoutMembers(s, k);
    } else if s != [] {
      assert s == [s[0]] + s[1..];
      WithoutFacts(s[1..], x);
    }
  }

  // Leaving a member out of a ring.
  lemma CutRing<T>(head: T, items: seq<T>, k: nat)
    requires k < |items|
    ensures var cut := [head] + (items[..k] + items[k + 1..]) + [head];
            var ring := [head] + items + [head];
            && |cut| == |ring| - 1 == |items| + 1
            && (forall i :: 0 <= i <= k ==> cut[i] == ring[i])
            && (forall i :: k < i < |cut| ==> cut[i] == ring[i + 1])
  {
  }

  class Queue {
    const head: QueueNode
    ghost var items: seq<QueueNode>

    ghost function Ring(): seq<QueueNode>
      reads this
    {
      [head] + items + [head]
    }

    ghost function Members(): set<QueueNode>
      reads this
    {
      set n | n in items
    }

    // Neighbours in the ring point at each other.
    ghost predicate Valid()
      reads this, head, items
    {
      && head !in items && Distinct(items)
      && forall i :: 0 <= i < |items| + 1 ==> Ring()[i].next == Ring()[i + 1] && Ring()[i + 1].prev == Ring()[i]
    }

    // queue_init
    constructor ()
      ensures Valid() && items == [] && fresh(head)
    {
      head := new QueueNode();
      items := [];
    }

    // queue_is_empty
    predicate IsEmpty()
      requires Valid()
      reads this, head, items
      ensures IsEmpty() <==> items == []
    {
      assert Ring()[|items| + 1].prev == Ring()[|items|];
      assert items != [] ==> Ring()[|items|] in items;
      !head.IsEnqueued()
    }

    // queue_first
    function First(): (node: QueueNode?)
      requires Valid()
      reads this, head, items
      ensures node == if items == [] then null else items[0]
    {
      assert Ring()[0].next == Ring()[1];
      if !IsEmpty() then head.next else null
    }

    // queue_last
    function Last(): (node: QueueNode?)
      requires Valid()
      reads this, head, items
      ensures node == if items == [] then null else items[|items| - 1]
    {
      assert Ring()[|items| + 1].prev == Ring()[|items|];
      if !IsEmpty() then head.prev else null
    }

    // A member never points at itself.
    lemma MembersEnqueued(node: QueueNode)
      requires Valid() && node in items
      ensures node.IsEnqueued()
    {
      var k :| 0 <= k < |items| && items[k] == node;
      assert Ring()[k + 1].prev == Ring()[k];
      assert Ring()[k] == (if k == 0 then head else items[k - 1]);
    }

    // queue_prepend
    method Prepend(node: QueueNode)
      requires Valid() && node != head && node !in items
      modifies this, head, Members(), node
      ensures Valid() && items == [node] + old(items)
    {
      ghost var ring := Ring();
      assert ring[0].next == ring[1];
      node.next := head.next;
      node.prev := head;
      node.next.prev := node;
      head.next := node;
      items := [node] + items;
      assert Ring() == [head, node] + ring[1..];
    }

    // queue_append
    method Append(node: QueueNode)
      requires Valid() && node != head && node !in items
      modifies this, head, Members(), node
      ensures Valid() && items == old(items) + [node]
    {
      ghost var ring := Ring();
      assert ring[|items| + 1].prev == ring[|items|];
      node.next := head;
      node.prev := head.prev;
      node.prev.next := node;
      head.prev := node;
      items := items + [node];
      assert Ring() == ring[..|ring| - 1] + [node, head];
    }

    // queue__detach_node
    method Detach(node: QueueNode)
      requires Valid() && node in items
      modifies this, head, Members()
      ensures Valid() && items == Without(old(items), node)
      ensures node !in items && node != head && (forall x :: x in items ==> x in old(items))
      ensures node.prev == old(node.prev) && node.next == old(node.next)
    {
      ghost var k :| 0 <= k < |items| && items[k] == node;
      WithoutAt(items, k);
      ghost var whole := items;
      Bypass(node, k);
      hide Distinct, Without;
      items := items[..k] + items[k + 1..];
      StillLinked(whole, k);
    }

    // The neighbours of a node are linked to each other.
    method Bypass(node: QueueNode, ghost k: nat)
      requires Valid() && k < |items| && items[k] == node
      modifies head`next, head`prev, Members()`next, Members()`prev
      ensures node.prev == old(node.prev) && node.next == old(node.next)
      ensures var ring := Ring();
        && (forall j :: 0 <= j < |ring| - 1 && j != k && j != k + 1 ==> ring[j].next == ring[j + 1])
        && (forall j :: 0 <= j < |ring| - 1 && j != k && j != k + 1 ==> ring[j + 1].prev == ring[j])
        && ring[k].next == ring[k + 2] && ring[k + 2].prev == ring[k]
    {
      hide Distinct;
      ghost var ring := Ring();
      assert ring[k].next == ring[k + 1] == node && node.next == ring[k + 2];
      assert ring[k + 2].prev == node && node.prev == ring[k];
      RingApart(k);
      node.prev.next := node.next;
      node.next.prev := node.prev;
    }

    // Linked but for the member at k, which its neighbours bypass.
    lemma StillLinked(whole: seq<QueueNode>, k: nat)
      requires k < |whole| && items == whole[..k] + whole[k + 1..]
      requires head !in items && Distinct(items)
      requires var ring := [head] + whole + [head];
               && (forall j :: 0 <= j < |ring| - 1 && j != k && j != k + 1 ==> ring[j].next == ring[j + 1])
               && (forall j :: 0 <= j < |ring| - 1 && j != k && j != k + 1 ==> ring[j + 1].prev == ring[j])
               && ring[k].next == ring[k + 2] && ring[k + 2].prev == ring[k]
      ensures Valid()
    {
      var ring := [head] + whole + [head];
      CutRing(head, whole, k);
      hide Distinct;
      forall i | 0 <= i < |items| + 1
        ensures Ring()[i].next == Ring()[i + 1] && Ring()[i + 1].prev == Ring()[i]
      {
        if i < k {
          assert Ring()[i] == ring[i] && Ring()[i + 1] == ring[i + 1];
        } else if i > k {
          assert Ring()[i] == ring[i + 1] && Ring()[i + 1] == ring[i + 2];
        }
      }
    }

    lemma RingApart(k: nat)
      requires Valid() && k < |items|
      ensures forall j :: 0 <= j < |items| + 1 && j != k ==> Ring()[j] != Ring()[k]
      ensures forall j :: 1 <= j < |items| + 2 && j != k + 2 ==> Ring()[j] != Ring()[k + 2]
    {
      var r := Ring();
      assert forall j :: 1 <= j < |items| + 1 ==> r[j] == items[j - 1];
    }

    // queue_move_to_start
    method MoveToStart(node: QueueNode)
      requires Valid() && node in items
      modifies this, head, Members()
      ensures Valid() && items == [node] + Without(old(items), node)
    {
      Detach(node);
      assert Members() <= old(Members());
      Prepend(node);
    }

    // queue_move_to_end
    method MoveToEnd(node: QueueNode)
      requires Valid() && node in items
      modifies this, head, Members()
      ensures Valid() && items == Without(old(items), node) + [node]
    {
      Detach(node);
      assert Members() <= old(Members());
      Append(node);
    }

    // queue_remove
    method Remove(node: QueueNode)
      requires Valid() && node in items
      modifies this, head, Members()
      ensures Valid() && items == Without(old(items), node)
      ensures node !in items && !node.IsEnqueued()
    {
      Detach(node);
      node.prev, node.next := node, node;
    }
  }
}
