/**
 The port engine of deps/wepoll/wepoll.c.  Every method that the source runs with the port lock
 held is one locked step.  Its contract says which function of modules PortModel and PortRuns it
 carries out; the answers of the kernel are parameters.

 The socket tree is a map and the queues are sequences here; modules RedBlackTree and Queues
 prove that the linked forms implement the same operations.
 */
module Ports {
  import opened Queues
  import opened PollGroups
  import opened PortModel
  import opened PortRuns

  const INVALID_SOCKET: nat := 0xffff_ffff_ffff_ffff

  class SockState {
    const group: PollGroup
    const socket: nat
    var userData: int
    var userEvents: bv32
    var pendingEvents: bv32
    var polled: bv32
    var pollStatus: PollStatus
    var deletePending: bool

    constructor (socket: nat, group: PollGroup)
      ensures View() == Sock(socket, 0, 0, 0, 0, Idle, false) && this.group == group
    {
      this.socket, this.group := socket, group;
      userData, userEvents, pendingEvents, polled, pollStatus, deletePending := 0, 0, 0, 0, Idle, false;
    }

    function View(): Sock
      reads this
    {
      Sock(socket, userData, userEvents, pendingEvents, polled, pollStatus, deletePending)
    }
  }

  // ---- Who uses which poll group -----------------------------------------------------------

  ghost function Users(live: set<SockState>, g: PollGroup): set<SockState> {
    set s | s in live && s.group == g
  }

  lemma UsersAdd(live: set<SockState>, s: SockState, g: PollGroup)
    requires s !in live
    ensures |Users(live + {s}, g)| == |Users(live, g)| + if g == s.group then 1 else 0
  {
    assert Users(live + {s}, g) == Users(live, g) + if g == s.group then {s} else {};
  }

  lemma UsersRemove(live: set<SockState>, s: SockState, g: PollGroup)
    requires s in live
    ensures |Users(live - {s}, g)| == |Users(live, g)| - if g == s.group then 1 else 0
  {
    assert Users(live, g) == Users(live - {s}, g) + if g == s.group then {s} else {};
  }

  // ---- Steps unfolded ---------------------------------------------------------------------

  lemma NextAdd(w: World<SockState>, s: SockState, socket: nat, ev: EpollEvent, kernel: SockState -> Answer)
    requires WorldInv(w) && s !in w.st.socks && socket !in w.st.tree
    ensures Enabled(w, Add(s, socket, ev)) && Inv(EventSet(Created(w.st, s, socket), s, ev))
    ensures s in Created(w.st, s, socket).socks
    ensures Next(w, Add(s, socket, ev), kernel, kernel)
         == IfPolling(w.(st := EventSet(Created(w.st, s, socket), s, ev)), kernel)
    ensures WorldInv(Next(w, Add(s, socket, ev), kernel, kernel))
  {
    StepKeeps(w, Add(s, socket, ev), kernel, kernel);
    AddedKeeps(w.st, s, socket, ev);
    hide Inv, Claims, EventSet, Created, IfPolling;
  }

  lemma NextMod(w: World<SockState>, socket: nat, ev: EpollEvent, kernel: SockState -> Answer)
    requires WorldInv(w)
    ensures WorldInv(Next(w, Mod(socket, ev), kernel, kernel))
    ensures if socket in w.st.tree
            then w.st.tree[socket] in w.st.socks && Inv(EventSet(w.st, w.st.tree[socket], ev))
              && Next(w, Mod(socket, ev), kernel, kernel)
                 == IfPolling(w.(st := EventSet(w.st, w.st.tree[socket], ev)), kernel)
            else Next(w, Mod(socket, ev), kernel, kernel) == w
  {
    StepKeeps(w, Mod(socket, ev), kernel, kernel);
    if socket in w.st.tree {
      ModifiedKeeps(w.st, socket, ev);
    }
    hide Inv, Claims, EventSet, IfPolling;
  }

  lemma NextDeliver(w: World<SockState>, thread: nat, batch: seq<Packet<SockState>>, kernel: SockState -> Answer)
    requires WorldInv(w) && Enabled(w, Deliver(thread, batch))
    ensures Next(w, Deliver(thread, batch), kernel, kernel) == w.(taken := w.taken[thread := batch])
    ensures WorldInv(w.(taken := w.taken[thread := batch]))
  {
    DeliverKeeps(w, thread, batch);
  }

  lemma EnteredIs(w: World<SockState>, thread: nat, kernel: SockState -> Answer, again: SockState -> Answer)
    requires Inv(w.st) && thread !in w.taken
    ensures var (w', ok) := Refreshed(w, kernel);
      && Inv(w'.st) && w'.taken == w.taken && (ok <==> thread in Entered(w, thread, kernel, again).taken)
      && Entered(w, thread, kernel, again)
         == if ok then w'.(polls := w'.polls + 1, taken := w'.taken[thread := []]) else IfPolling(w', again)
  {
    AllUpdatedKeeps(w.st, kernel);
    hide Inv, AllUpdated;
  }

  lemma ResumedIs(w: World<SockState>, thread: nat)
    requires WorldInv(w) && thread in w.taken
    ensures w.polls > 0 && Inv(w.st) && Batch(w.taken[thread], w.st.outstanding)
    ensures var (w', events) := Resumed(w, thread);
      Inv(w'.st) && thread !in w'.taken && |events| <= |w.taken[thread]|
  {
    ResumedKeeps(w, thread);
    AllFedKeeps(w.st, w.taken[thread]);
    assert Batch(w.taken[thread], w.st.outstanding);
    hide Inv, AllFed, Batch;
  }

  lemma LeftIs(w: World<SockState>, thread: nat, more: bool, kernel: SockState -> Answer, again: SockState -> Answer)
    requires WorldInv(w) && thread in w.taken && Inv(Resumed(w, thread).0.st)
    ensures var (w', events) := Resumed(w, thread);
      Left(w, thread, more, kernel, again)
         == if w.taken[thread] != [] && events == [] && more then Entered(w', thread, kernel, again)
            else IfPolling(w', kernel)
  {
    hide WorldInv, Inv, Entered, IfPolling, Resumed;
  }

  lemma NextLeave(w: World<SockState>, thread: nat, more: bool, kernel: SockState -> Answer, again: SockState -> Answer)
    requires WorldInv(w) && thread in w.taken
    ensures Next(w, Leave(thread, more), kernel, again) == Left(w, thread, more, kernel, again)
    ensures WorldInv(Left(w, thread, more, kernel, again))
  {
    hide WorldInv, Left;
    StepKeeps(w, Leave(thread, more), kernel, again);
  }

  lemma IfPollingWaits(w: World<SockState>, kernel: SockState -> Answer)
    requires Inv(w.st)
    ensures IfPolling(w, kernel).taken == w.taken
  {
  }

  // ---- The port ----------------------------------------------------------------------------

  class Port {
    var sockTree: map<nat, SockState>
    var updateQueue: seq<SockState>
    var deletedQueue: seq<SockState>
    const groups: PollGroupQueue
    var activePollCount: nat

    // The sock_state objects that are allocated.
    ghost var live: set<SockState>
    // Every submitted poll whose completion has not been handled yet
    ghost var outstanding: multiset<SockState>
    // Some submission or cancellation was refused.
    ghost var refused: bool
    // The threads that wait for completions, and the packets they have been handed.
    ghost var taken: map<nat, seq<Packet<SockState>>>

    ghost function Socks(): map<SockState, Sock>
      reads `live, live
    {
      map s | s in live :: s.View()
    }

    ghost function Abs(): State<SockState>
      reads `sockTree, `updateQueue, `deletedQueue, `outstanding, `live, live
    {
      State(Socks(), sockTree, updateQueue, deletedQueue, outstanding)
    }

    ghost function World(): World<SockState>
      reads this, live
    {
      PortRuns.World(Abs(), activePollCount, refused, taken)
    }

    ghost function Repr(): set<object>
      reads `live, groups
    {
      {this, groups} + live + set g | g in groups.queue
    }

    // Every group counts the live sockets that use it.
    ghost predicate GroupsOk()
      reads `live, groups, groups.queue
    {
      && groups.Valid() && groups.held == |live|
      && (forall s :: s in live ==> s.group in groups.queue)
      && (forall g :: g in groups.queue ==> g.groupSize == |Users(live, g)|)
    }

    // The same, while one acquisition of `group` has no sock_state yet.
    ghost predicate Owing(group: PollGroup)
      reads `live, groups, groups.queue
    {
      && groups.Valid() && groups.held == |live| + 1 && group in groups.queue
      && (forall s :: s in live ==> s.group in groups.queue)
      && (forall g :: g in groups.queue ==> g.groupSize == |Users(live, g)| + if g == group then 1 else 0)
    }

    // port_new
    constructor ()
      ensures World() == Fresh() && GroupsOk() && groups.peak == 0
      ensures fresh(Repr())
    {
      groups := new PollGroupQueue();
      sockTree, updateQueue, deletedQueue := map[], [], [];
      activePollCount := 0;
      live, outstanding, refused, taken := {}, multiset{}, false, map[];
      new;
      assert Socks() == map[];
    }

    // A change of one socket's fields.
    lemma OneChanged(was: map<SockState, Sock>, s: SockState)
      requires s in live && was.Keys == live
      requires forall x :: x in live && x != s ==> x.View() == was[x]
      ensures Socks() == was[s := s.View()]
    {
    }

    // sock__cancel_poll
    method CancelPoll(s: SockState, cancelled: bool) returns (ok: bool)
      requires s.pollStatus == Pending && s in live
      modifies s`pollStatus, s`pendingEvents
      ensures ok == cancelled
      ensures s in old(Abs().socks) && old(Abs().socks[s]) == old(s.View())
      ensures Abs() == if ok then WithSock(old(Abs()), s, CancelledPoll(old(s.View()))) else old(Abs())
      ensures s.deletePending == old(s.deletePending)
    {
      if !cancelled {
        return false;
      }
      ghost var was := Socks();
      s.pollStatus, s.pendingEvents := Cancelled, 0;
      OneChanged(was, s);
      ok := true;
    }

    // sock__free after poll_group_release
    method Free(s: SockState)
      requires s in live && GroupsOk()
      modifies `live, `outstanding, groups, s.group
      ensures GroupsOk() && live == old(live) - {s} && outstanding == old(outstanding)[s := 0]
      ensures groups.peak == old(groups.peak)
      ensures forall g :: g in groups.queue <==> g in old(groups.queue)
    {
      forall g ensures |Users(live - {s}, g)| == |Users(live, g)| - if g == s.group then 1 else 0 {
        UsersRemove(live, s, g);
      }
      assert s in Users(live, s.group);
      hide Users, Exact;
      groups.Release(s.group);
      live, outstanding := live - {s}, outstanding[s := 0];
    }

    // sock__delete
    method Delete(s: SockState, force: bool, cancelled: bool)
      requires s in live && GroupsOk()
      modifies this, s, groups, s.group
      ensures Abs() == Deleted(old(Abs()), s, force, cancelled) && GroupsOk()
      ensures live <= old(live) && groups.peak == old(groups.peak)
      ensures forall g :: g in groups.queue <==> g in old(groups.queue)
      ensures activePollCount == old(activePollCount) && refused == old(refused) && taken == old(taken)
    {
      hide GroupsOk, Unregistered, Freed, Kept, Abs, Socks;
      Unregister(s, cancelled);
      SameView(s);
      if force || s.pollStatus == Idle {
        Discard(s);
      } else {
        AddDeleted(s);
      }
    }

    // The sock_state is freed now.
    method Discard(s: SockState)
      requires s in live && GroupsOk()
      modifies `updateQueue, `deletedQueue, `live, `outstanding, groups, s.group
      ensures s in old(Abs().socks) && Abs() == Freed(old(Abs()), s) && GroupsOk()
      ensures live <= old(live) && groups.peak == old(groups.peak)
      ensures forall g :: g in groups.queue <==> g in old(groups.queue)
    {
      hide GroupsOk, Without;
      ghost var socks := Socks();
      Unqueue(s);
      Free(s);
      assert Socks() == socks - {s};
    }

    method Unregister(s: SockState, cancelled: bool)
      requires s in live && GroupsOk()
      modifies `sockTree, `updateQueue, `deletedQueue, s`pollStatus, s`pendingEvents, s`deletePending
      ensures Abs() == Unregistered(old(Abs()), s, cancelled) && GroupsOk()
    {
      hide GroupsOk, Without, Abs, Socks;
      SameView(s);
      if !s.deletePending {
        if s.pollStatus == Pending {
          var _ := CancelPoll(s, cancelled);
        }
        SameView(s);
        Unqueue(s);
        Forget(s);
      }
    }

    // port_unregister_socket and what follows it in sock__delete
    method Forget(s: SockState)
      requires s in live
      modifies `sockTree, s`deletePending
      ensures var st, sock := old(Abs()), old(s.View());
        Abs() == st.(socks := st.socks[s := sock.(deletePending := true)], tree := st.tree - {sock.socket})
    {
      ghost var was := Socks();
      sockTree := sockTree - {s.socket};
      s.deletePending := true;
      OneChanged(was, s);
    }

    // sock_new with port_register_socket: `known` says whether ws_get_base_socket finds the socket,
    // `created` whether a poll group can be made and `memory` whether malloc succeeds.
    method NewSock(socket: nat, known: bool, created: bool, memory: bool) returns (s: SockState?)
      requires GroupsOk()
      modifies `sockTree, `live, groups, groups.queue
      ensures GroupsOk() && fresh(Repr() - old(Repr()))
      ensures s == null <==> socket == 0 || socket == INVALID_SOCKET || !known || !memory || socket in old(sockTree)
                             || (!created && old(groups.held) == MAX_GROUP_SIZE * old(|groups.queue|))
      ensures s == null ==> Abs() == old(Abs())
      ensures s != null ==> fresh(s) && s in live && Abs() == Created(old(Abs()), s, socket)
    {
      hide GroupsOk, Owing, Created, Abs, Socks;
      if socket == 0 || socket == INVALID_SOCKET || !known {
        return null;
      }
      var group := AcquireGroup(created);
      if group == null {
        return null;
      }
      if !memory || socket in sockTree {
        ReleaseGroup(group);
        return null;
      }
      s := Register(socket, group);
    }

    method Register(socket: nat, group: PollGroup) returns (s: SockState)
      requires Owing(group) && socket !in sockTree
      modifies `sockTree, `live
      ensures GroupsOk() && Repr() == old(Repr()) + {s}
      ensures fresh(s) && s in live && Abs() == Created(old(Abs()), s, socket)
    {
      hide GroupsOk, Owing;
      ghost var was := Socks();
      s := new SockState(socket, group);
      sockTree := sockTree[socket := s];
      Adopt(s);
      assert Socks() == was[s := Sock(socket, 0, 0, 0, 0, Idle, false)];
    }

    method AcquireGroup(created: bool) returns (group: PollGroup?)
      requires GroupsOk()
      modifies groups, groups.queue
      ensures Abs() == old(Abs())
      ensures group == null <==> !created && old(groups.held) == MAX_GROUP_SIZE * old(|groups.queue|)
      ensures group == null ==> GroupsOk()
      ensures group != null ==> Owing(group) && (group in old(groups.queue) || fresh(group))
      ensures fresh(Repr() - old(Repr()))
    {
      group := groups.Acquire(created);
      hide Exact;
      if group != null {
        assert group !in old(groups.queue) ==> Users(live, group) == {};
      }
    }

    method ReleaseGroup(group: PollGroup)
      requires Owing(group)
      modifies groups, group
      ensures Abs() == old(Abs())
      ensures GroupsOk() && Repr() == old(Repr())
    {
      hide Exact, Users;
      groups.Release(group);
    }

    ghost method Adopt(s: SockState)
      requires Owing(s.group) && s !in live
      modifies `live
      ensures GroupsOk() && live == old(live) + {s}
    {
      forall g ensures |Users(live + {s}, g)| == |Users(live, g)| + if g == s.group then 1 else 0 {
        UsersAdd(live, s, g);
      }
      hide Users, Exact;
      live := live + {s};
    }

    // sock_set_event
    method SetEvent(s: SockState, ev: EpollEvent)
      requires s in live
      modifies `updateQueue, s`userEvents, s`userData
      ensures Abs() == EventSet(old(Abs()), s, ev)
    {
      ghost var was := Socks();
      var events := WithErrors(ev.events);
      s.userEvents, s.userData := events, ev.data;
      hide Unwatched, WithErrors;
      OneChanged(was, s);
      if Unwatched(events, s.pendingEvents) != 0 {
        RequestUpdate(s);
      }
    }

    // port_request_socket_update
    method RequestUpdate(s: SockState)
      modifies `updateQueue
      ensures Abs() == Requested(old(Abs()), s)
    {
      if !Queued(s) {
        updateQueue := updateQueue + [s];
      }
      assert Socks() == old(Socks());
    }

    // queue_is_enqueued for the node of the sock_state, which may be in either queue
    predicate Queued(s: SockState)
      reads `updateQueue, `deletedQueue
    {
      s in updateQueue || s in deletedQueue
    }

    // sock_update
    method Update(s: SockState, answer: Submission, cancelled: bool) returns (ok: bool)
      requires s in live && GroupsOk() && !s.deletePending
      modifies this, s, groups, s.group
      ensures (Abs(), ok) == Updated(old(Abs()), s, answer, cancelled) && GroupsOk()
      ensures live <= old(live) && groups.peak == old(groups.peak)
      ensures forall g :: g in groups.queue <==> g in old(groups.queue)
      ensures activePollCount == old(activePollCount) && refused == old(refused) && taken == old(taken)
    {
      hide GroupsOk, Without, Unwatched, Deleted, Abs, Socks;
      SameView(s);
      if s.pollStatus == Idle && answer == SocketClosed {
        Delete(s, false, cancelled);
        ok := true;
      } else {
        ok := Attend(s, answer, cancelled);
      }
    }

    // The branches of sock_update that leave the socket registered
    method Attend(s: SockState, answer: Submission, cancelled: bool) returns (ok: bool)
      requires s in live && (s.pollStatus == Idle ==> answer != SocketClosed)
      modifies `updateQueue, `deletedQueue, `outstanding, s`pollStatus, s`pendingEvents, s`polled
      ensures s in old(Abs().socks) && (Abs(), ok) == Updated(old(Abs()), s, answer, cancelled)
    {
      hide Without, Unwatched, Deleted, Abs, Socks;
      SameView(s);
      if s.pollStatus == Pending && Unwatched(s.userEvents, s.pendingEvents) == 0 {
        // The poll that is pending watches all that the user asks for.
      } else if s.pollStatus == Pending {
        ok := CancelPoll(s, cancelled);
        if !ok {
          return false;
        }
      } else if s.pollStatus == Idle {
        ok := SubmitPoll(s, answer);
        if !ok {
          return false;
        }
      }
      Unqueue(s);
      ok := true;
    }

    lemma SameView(s: SockState)
      requires s in live
      ensures s in Abs().socks && Abs().socks[s] == s.View()
    {
    }

    // The submission in sock_update.
    method SubmitPoll(s: SockState, answer: Submission) returns (ok: bool)
      requires s in live && answer != SocketClosed
      modifies `outstanding, s`pollStatus, s`pendingEvents, s`polled
      ensures s in old(Abs().socks) && old(Abs().socks[s]) == old(s.View())
      ensures ok == (answer == Accepted)
      ensures Abs() == if !ok then old(Abs()) else
        WithSock(old(Abs()), s, SubmittedPoll(old(s.View()))).(outstanding := old(Abs().outstanding) + multiset{s})
    {
      if answer == Rejected {
        return false;
      }
      ghost var was := Socks();
      s.polled := ToAfd(s.userEvents);
      s.pollStatus, s.pendingEvents := Pending, s.userEvents;
      outstanding := outstanding + multiset{s};
      OneChanged(was, s);
      ok := true;
    }

    // port_cancel_socket_update and port_remove_deleted_socket
    method Unqueue(s: SockState)
      modifies `updateQueue, `deletedQueue
      ensures Abs() == Unqueued(old(Abs()), s)
    {
      if Queued(s) {
        if s in updateQueue {
          updateQueue := Without(updateQueue, s);
        } else {
          deletedQueue := Without(deletedQueue, s);
        }
      }
      assert Socks() == old(Socks());
    }

    // port_add_deleted_socket
    method AddDeleted(s: SockState)
      modifies `deletedQueue
      ensures Abs() == Kept(old(Abs()), s)
    {
      if !Queued(s) {
        deletedQueue := deletedQueue + [s];
      }
      assert Socks() == old(Socks());
    }

    // sock_feed_event; the kernel has reset the I/O status block before.
    method FeedEvent(s: SockState, outcome: Outcome) returns (events: seq<EpollEvent>)
      requires s in live && GroupsOk()
      modifies this, s, groups, s.group
      ensures (Abs(), events) == Fed(old(Abs()), s, outcome) && GroupsOk()
      ensures live <= old(live) && groups.peak == old(groups.peak)
      ensures forall g :: g in groups.queue <==> g in old(groups.queue)
      ensures activePollCount == old(activePollCount) && refused == old(refused) && taken == old(taken)
    {
      hide GroupsOk, ToEpoll, EventsOf, Wanted, OneShot, Closed, Deleted, Abs, Socks, Returned;
      PollReturned(s);
      SameView(s);
      if s.deletePending || Closed(outcome) {
        Delete(s, false, false);
        events := [];
      } else {
        events := Report(s, EventsOf(outcome));
      }
    }

    // The beginning of sock_feed_event
    method PollReturned(s: SockState)
      requires s in live
      modifies `outstanding, s`pollStatus, s`pendingEvents
      ensures s in old(Abs().socks) && Abs() == Returned(old(Abs()), s)
    {
      ghost var was := Socks();
      s.pollStatus, s.pendingEvents := Idle, 0;
      outstanding := outstanding - multiset{s};
      OneChanged(was, s);
    }

    // The rest of sock_feed_event: the socket is queued again and its events are filtered.
    method Report(s: SockState, found: bv32) returns (events: seq<EpollEvent>)
      requires s in live
      modifies `updateQueue, s`userEvents
      ensures var st := old(Abs()); var sock := st.socks[s]; var wanted := Wanted(found, sock.userEvents);
        && Abs() == Requested(WithSock(st, s, if wanted != 0 && OneShot(sock.userEvents)
                                              then sock.(userEvents := 0) else sock), s)
        && events == if wanted == 0 then [] else [EpollEvent(wanted, sock.userData)]
    {
      hide Wanted, OneShot;
      RequestUpdate(s);
      ghost var was := Socks();
      var epollEvents := Wanted(found, s.userEvents);
      if epollEvents == 0 {
        OneChanged(was, s);
        return [];
      }
      if OneShot(s.userEvents) {
        s.userEvents := 0;
      }
      OneChanged(was, s);
      events := [EpollEvent(epollEvents, s.userData)];
    }

    // A queued socket may be updated, a waited-for one may be fed.
    lemma QueuedIsLive(s: SockState)
      requires Inv(Abs()) && (s in updateQueue || s in outstanding)
      ensures s in live && (s in updateQueue ==> !s.deletePending)
    {
      assert Framed(Abs());
      assert s in live;
      assert Linked(Abs(), s);
    }

    lemma GroupIsQueued(s: SockState)
      requires GroupsOk() && s in live
      ensures s.group in groups.queue
    {
    }

    // port__update_events
    method UpdateEvents(kernel: SockState -> Answer) returns (ok: bool)
      requires Inv(Abs()) && GroupsOk()
      modifies this, live, groups, groups.queue
      ensures (World(), ok) == Refreshed(old(World()), kernel) && GroupsOk()
      ensures live <= old(live) && groups.peak == old(groups.peak)
      ensures forall g :: g in groups.queue <==> g in old(groups.queue)
    {
      hide Inv, GroupsOk, Updated;
      while updateQueue != []
        invariant Inv(Abs()) && GroupsOk()
        invariant AllUpdated(Abs(), kernel) == AllUpdated(old(Abs()), kernel)
        invariant live <= old(live) && groups.peak == old(groups.peak)
        invariant forall g :: g in groups.queue <==> g in old(groups.queue)
        invariant activePollCount == old(activePollCount) && refused == old(refused) && taken == old(taken)
        decreases |updateQueue|
      {
        var s := updateQueue[0];
        QueuedIsLive(s);
        UpdatedKeeps(Abs(), s, kernel(s).submission, kernel(s).cancelled);
        UpdatedShrinks(Abs(), s, kernel(s).submission, kernel(s).cancelled);
        GroupIsQueued(s);
        ok := Update(s, kernel(s).submission, kernel(s).cancelled);
        if !ok {
          refused := true;
          return false;
        }
      }
      ok := true;
    }

    // port__update_events_if_polling
    method UpdateEventsIfPolling(kernel: SockState -> Answer)
      requires Inv(Abs()) && GroupsOk()
      modifies this, live, groups, groups.queue
      ensures World() == IfPolling(old(World()), kernel) && GroupsOk()
      ensures live <= old(live) && groups.peak == old(groups.peak)
      ensures forall g :: g in groups.queue <==> g in old(groups.queue)
    {
      hide Inv, GroupsOk, Refreshed;
      if activePollCount > 0 {
        var _ := UpdateEvents(kernel);
      }
    }

    // port__feed_events
    method FeedEvents(batch: seq<Packet<SockState>>) returns (events: seq<EpollEvent>)
      requires Inv(Abs()) && GroupsOk() && Batch(batch, outstanding)
      modifies this, live, groups, groups.queue
      ensures (Abs(), events) == AllFed(old(Abs()), batch) && GroupsOk()
      ensures live <= old(live) && groups.peak == old(groups.peak)
      ensures forall g :: g in groups.queue <==> g in old(groups.queue)
      ensures activePollCount == old(activePollCount) && refused == old(refused) && taken == old(taken)
    {
      hide Inv, GroupsOk, Fed, Batch;
      events := [];
      var i := 0;
      assert batch[0..] == batch;
      while i < |batch|
        invariant 0 <= i <= |batch| && Inv(Abs()) && GroupsOk() && Batch(batch[i..], outstanding)
        invariant AllFed(Abs(), batch[i..]).0 == AllFed(old(Abs()), batch).0
        invariant events + AllFed(Abs(), batch[i..]).1 == AllFed(old(Abs()), batch).1
        invariant live <= old(live) && groups.peak == old(groups.peak)
        invariant forall g :: g in groups.queue <==> g in old(groups.queue)
        invariant activePollCount == old(activePollCount) && refused == old(refused) && taken == old(taken)
      {
        var p := batch[i];
        assert batch[i..][0] == p && batch[i..][1..] == batch[i + 1..];
        BatchTail(Abs(), batch[i..]);
        QueuedIsLive(p.s);
        FedKeeps(Abs(), p.s, p.outcome);
        GroupIsQueued(p.s);
        var found := FeedEvent(p.s, p.outcome);
        i := i + 1;
        assert events + (found + AllFed(Abs(), batch[i..]).1) == (events + found) + AllFed(Abs(), batch[i..]).1;
        events := events + found;
      }
      assert batch[i..] == [] && events + [] == events;
    }

    // The members of the tree are live.
    lemma FoundIsLive(socket: nat)
      requires Inv(Abs()) && socket in sockTree
      ensures sockTree[socket] in live
    {
      assert Framed(Abs());
      assert socket in Abs().tree;
    }

    // sock_set_event and what port__ctl_add and port__ctl_mod do after it.
    method Interest(s: SockState, ev: EpollEvent, kernel: SockState -> Answer)
      requires s in live && GroupsOk() && Inv(EventSet(Abs(), s, ev))
      modifies this, live, groups, groups.queue
      ensures World() == IfPolling(old(World()).(st := EventSet(old(Abs()), s, ev)), kernel) && GroupsOk()
      ensures live <= old(live) && groups.peak == old(groups.peak)
      ensures forall g :: g in groups.queue <==> g in old(groups.queue)
    {
      hide Inv, GroupsOk, EventSet, IfPolling;
      SetEvent(s, ev);
      UpdateEventsIfPolling(kernel);
    }

    // port__ctl_add, with the answers that sock_new needs.
    method CtlAdd(socket: nat, ev: EpollEvent, known: bool, created: bool, memory: bool, kernel: SockState -> Answer)
      returns (s: SockState?)
      requires WorldInv(World()) && GroupsOk()
      modifies this, live, groups, groups.queue
      ensures WorldInv(World()) && GroupsOk() && fresh(Repr() - old(Repr()))
      ensures s == null <==> socket == 0 || socket == INVALID_SOCKET || !known || !memory || socket in old(sockTree)
                             || (!created && old(groups.held) == MAX_GROUP_SIZE * old(|groups.queue|))
      ensures s == null ==> World() == old(World())
      ensures s != null ==> fresh(s) && World() == Next(old(World()), Add(s, socket, ev), kernel, kernel)
    {
      hide GroupsOk, WorldInv, Created, Next, Enabled, Abs, Socks;
      ghost var w := World();
      LiveAre();
      s := NewSock(socket, known, created, memory);
      if s != null {
        AddInterest(w, s, socket, ev, kernel);
      }
    }

    // The first interest of a new socket
    method AddInterest(ghost w: World<SockState>, s: SockState, ghost socket: nat, ev: EpollEvent,
                       kernel: SockState -> Answer)
      requires WorldInv(w) && s !in w.st.socks && socket !in w.st.tree
      requires s in live && GroupsOk() && World() == w.(st := Created(w.st, s, socket))
      modifies this, live, groups, groups.queue
      ensures Enabled(w, Add(s, socket, ev)) && World() == Next(w, Add(s, socket, ev), kernel, kernel)
      ensures WorldInv(World()) && GroupsOk()
      ensures live <= old(live) && forall g :: g in groups.queue <==> g in old(groups.queue)
    {
      hide GroupsOk, WorldInv, Inv, EventSet, Created, IfPolling, Next, Enabled, Abs, Socks;
      NextAdd(w, s, socket, ev, kernel);
      Interest(s, ev, kernel);
    }

    // port__ctl_mod
    method CtlMod(socket: nat, ev: EpollEvent, kernel: SockState -> Answer) returns (ok: bool)
      requires WorldInv(World()) && GroupsOk()
      modifies this, live, groups, groups.queue
      ensures WorldInv(World()) && GroupsOk()
      ensures ok == (socket in old(sockTree))
      ensures World() == Next(old(World()), Mod(socket, ev), kernel, kernel)
    {
      ghost var w := World();
      NextMod(w, socket, ev, kernel);
      ok := socket in sockTree;
      hide GroupsOk, WorldInv, EventSet, IfPolling, Next;
      if ok {
        Interest(sockTree[socket], ev, kernel);
      }
    }

    // port__ctl_del
    method CtlDel(socket: nat, kernel: SockState -> Answer) returns (ok: bool)
      requires WorldInv(World()) && GroupsOk()
      modifies this, live, groups, groups.queue
      ensures WorldInv(World()) && GroupsOk()
      ensures ok == (socket in old(sockTree))
      ensures World() == Next(old(World()), Del(socket), kernel, kernel)
    {
      ghost var w := World();
      StepKeeps(w, Del(socket), kernel, kernel);
      ok := socket in sockTree;
      if ok {
        var s := sockTree[socket];
        FoundIsLive(socket);
        GroupIsQueued(s);
        hide Inv, GroupsOk, Claims, Deleted;
        Delete(s, false, kernel(s).cancelled);
      }
    }

    // port_wait up to the point where it releases the lock, with port__poll; `waiting` says whether
    // the thread gets there.
    method Wait(ghost thread: nat, kernel: SockState -> Answer, again: SockState -> Answer) returns (waiting: bool)
      requires Inv(Abs()) && GroupsOk() && thread !in taken
      modifies this, live, groups, groups.queue
      ensures World() == Entered(old(World()), thread, kernel, again) && GroupsOk()
      ensures waiting == (thread in taken)
    {
      hide Inv, GroupsOk, Refreshed, Entered, IfPolling, Abs, Socks;
      EnteredIs(World(), thread, kernel, again);
      waiting := UpdateEvents(kernel);
      assert Repr() <= old(Repr());
      Proceed(waiting, thread, again);
    }

    method Proceed(ok: bool, ghost thread: nat, again: SockState -> Answer)
      requires Inv(Abs()) && GroupsOk()
      modifies this, live, groups, groups.queue
      ensures GroupsOk() && World() == var w := old(World());
        if ok then w.(polls := w.polls + 1, taken := w.taken[thread := []]) else IfPolling(w, again)
    {
      hide Inv, GroupsOk, IfPolling;
      if ok {
        StartPolling(thread);
      } else {
        UpdateEventsIfPolling(again);
      }
    }

    method StartPolling(ghost thread: nat)
      modifies `activePollCount, `taken
      ensures World() == var w := old(World()); w.(polls := w.polls + 1, taken := w.taken[thread := []])
    {
      activePollCount := activePollCount + 1;
      taken := taken[thread := []];
    }

    method StopPolling(ghost thread: nat)
      requires activePollCount > 0
      modifies `activePollCount, `taken
      ensures World() == var w := old(World()); w.(polls := w.polls - 1, taken := w.taken - {thread})
    {
      activePollCount := activePollCount - 1;
      taken := taken - {thread};
    }

    // The locked step that starts a call of port_wait.
    method WaitEnter(ghost thread: nat, kernel: SockState -> Answer, again: SockState -> Answer) returns (waiting: bool)
      requires WorldInv(World()) && GroupsOk() && thread !in taken
      modifies this, live, groups, groups.queue
      ensures WorldInv(World()) && GroupsOk() && waiting == (thread in taken)
      ensures World() == Next(old(World()), Enter(thread), kernel, again)
    {
      ghost var w := World();
      StepKeeps(w, Enter(thread), kernel, again);
      hide Inv, GroupsOk, Claims, Entered;
      waiting := Wait(thread, kernel, again);
    }

    // GetQueuedCompletionStatusEx hands packets to a thread; the lock is free.
    ghost method Deliver(thread: nat, batch: seq<Packet<SockState>>, kernel: SockState -> Answer)
      requires WorldInv(World()) && GroupsOk() && Enabled(World(), PortRuns.Deliver(thread, batch))
      modifies `taken
      ensures WorldInv(World()) && GroupsOk()
      ensures World() == Next(old(World()), PortRuns.Deliver(thread, batch), kernel, kernel)
    {
      hide WorldInv, GroupsOk, Next, Enabled, Abs, Socks;
      NextDeliver(World(), thread, batch, kernel);
      taken := taken[thread := batch];
    }

    // port_wait once it has the lock again.
    method WaitLeave(ghost thread: nat, batch: seq<Packet<SockState>>, more: bool,
                     kernel: SockState -> Answer, again: SockState -> Answer)
      returns (waiting: bool, events: seq<EpollEvent>)
      requires WorldInv(World()) && GroupsOk() && thread in taken && taken[thread] == batch
      modifies this, live, groups, groups.queue
      ensures WorldInv(World()) && GroupsOk() && waiting == (thread in taken)
      ensures World() == Next(old(World()), Leave(thread, more), kernel, again)
      ensures events == Resumed(old(World()), thread).1 && |events| <= |batch|
    {
      ResumedIs(World(), thread);
      LeftIs(World(), thread, more, kernel, again);
      NextLeave(World(), thread, more, kernel, again);
      hide WorldInv, Inv, GroupsOk, Entered, IfPolling, AllFed, Next, Batch, Abs;
      waiting, events := Return(thread, batch, more, kernel, again);
    }

    method Return(ghost thread: nat, batch: seq<Packet<SockState>>, more: bool,
                 kernel: SockState -> Answer, again: SockState -> Answer)
      returns (waiting: bool, events: seq<EpollEvent>)
      requires Inv(Abs()) && Batch(batch, outstanding) && activePollCount > 0 && GroupsOk()
      requires Inv(AllFed(Abs(), batch).0)
      modifies this, live, groups, groups.queue
      ensures GroupsOk() && waiting == (thread in taken) && events == AllFed(old(Abs()), batch).1
      ensures var w := old(World()).(st := AllFed(old(Abs()), batch).0, polls := old(activePollCount) - 1,
                                     taken := old(taken) - {thread});
        World() == if batch != [] && events == [] && more then Entered(w, thread, kernel, again)
                   else IfPolling(w, kernel)
    {
      hide Inv, GroupsOk, Entered, IfPolling, AllFed, Batch;
      events := Resume(thread, batch);
      assert Repr() <= old(Repr());
      if batch != [] && events == [] && more {
        waiting := Wait(thread, kernel, again);
      } else {
        IfPollingWaits(World(), kernel);
        UpdateEventsIfPolling(kernel);
        waiting := false;
      }
    }

    method Resume(ghost thread: nat, batch: seq<Packet<SockState>>) returns (events: seq<EpollEvent>)
      requires Inv(Abs()) && Batch(batch, outstanding) && activePollCount > 0 && GroupsOk()
      modifies this, live, groups, groups.queue
      ensures World() == old(World()).(st := AllFed(old(Abs()), batch).0, polls := old(activePollCount) - 1,
                                       taken := old(taken) - {thread})
      ensures events == AllFed(old(Abs()), batch).1 && GroupsOk()
      ensures live <= old(live)
      ensures forall g :: g in groups.queue <==> g in old(groups.queue)
    {
      hide Inv, GroupsOk, AllFed, Batch;
      events := FeedEvents(batch);
      StopPolling(thread);
    }

    // sock_force_delete
    method ForceDelete(s: SockState, cancelled: bool)
      requires s in live && Inv(Abs()) && GroupsOk() && s.group in groups.queue
      modifies this, live, groups, groups.queue
      ensures Inv(Abs()) && GroupsOk() && Repr() <= old(Repr())
      ensures Abs().socks.Keys == old(Abs()).socks.Keys - {s}
      ensures s in old(Abs()).deleted ==> Abs().tree == old(Abs()).tree
    {
      ForcedFrees(Abs(), s, cancelled);
      hide Inv, GroupsOk, Deleted, Abs;
      Delete(s, true, cancelled);
    }

    lemma LiveAre()
      ensures Abs().socks.Keys == live && Abs().tree == sockTree && Abs().deleted == deletedQueue
    {
    }

    method EmptyTree(kernel: SockState -> Answer)
      requires Inv(Abs()) && GroupsOk()
      modifies this, live, groups, groups.queue
      ensures Inv(Abs()) && GroupsOk() && Repr() <= old(Repr()) && sockTree == map[]
    {
      hide Inv, GroupsOk, Abs;
      while sockTree != map[]
        invariant Inv(Abs()) && GroupsOk() && Repr() <= old(Repr())
        decreases Abs().socks.Keys
      {
        var socket :| socket in sockTree;
        var s := sockTree[socket];
        FoundIsLive(socket);
        GroupIsQueued(s);
        LiveAre();
        ForceDelete(s, kernel(s).cancelled);
      }
    }

    method EmptyDeletedQueue(kernel: SockState -> Answer)
      requires Inv(Abs()) && GroupsOk() && sockTree == map[]
      modifies this, live, groups, groups.queue
      ensures Inv(Abs()) && GroupsOk() && Repr() <= old(Repr()) && sockTree == map[] && deletedQueue == []
    {
      hide Inv, GroupsOk, Abs;
      while deletedQueue != []
        invariant Inv(Abs()) && GroupsOk() && Repr() <= old(Repr()) && sockTree == map[]
        decreases Abs().socks.Keys
      {
        var s := deletedQueue[0];
        DeletedIsLive(s);
        GroupIsQueued(s);
        LiveAre();
        ForceDelete(s, kernel(s).cancelled);
        LiveAre();
      }
    }

    lemma DeletedIsLive(s: SockState)
      requires Inv(Abs()) && s in deletedQueue
      ensures s in live
    {
      assert Framed(Abs()) && s in Abs().deleted;
    }

    // port_delete, which reflock_unref_and_destroy lets run only when no thread uses the port: it
    // terminates, frees everything, and finds every group and the update queue empty.
    method DeletePort(kernel: SockState -> Answer)
      requires WorldInv(World()) && GroupsOk() && taken == map[]
      modifies this, live, groups, groups.queue
      ensures live == {} && outstanding == multiset{} && groups.queue == []
      ensures sockTree == map[] && updateQueue == [] && deletedQueue == []
    {
      hide GroupsOk, Inv, Exact;
      EmptyTree(kernel);
      EmptyDeletedQueue(kernel);
      NothingLeft(Abs());
      AllGroupsEmpty();
      DeleteGroups();
      assert updateQueue == [];
    }

    lemma AllGroupsEmpty()
      requires GroupsOk() && Socks() == map[]
      ensures live == {} && forall g :: g in groups.queue ==> g.groupSize == 0
      ensures groups.Linked()
    {
      assert live == Socks().Keys;
      assert forall g :: Users({}, g) == {};
    }

    method DeleteGroups()
      requires groups.Linked() && forall g :: g in groups.queue ==> g.groupSize == 0
      modifies groups
      ensures groups.queue == []
    {
      while groups.queue != []
        invariant groups.Linked() && forall g :: g in groups.queue ==> g.groupSize == 0
        decreases |groups.queue|
      {
        groups.DeleteFirst();
      }
    }
  }
}
