/**
 The socket states of a port of deps/wepoll/wepoll.c as values: what each operation on one
 socket does to them, and the invariant that all of them keep.  Module Ports proves that the
 methods on the real objects do exactly this.
 */
module PortModel {
  import opened Queues

  // ---- Event masks -------------------------------------------------------------------------

  const EPOLLIN: bv32 := 0x0001
  const EPOLLPRI: bv32 := 0x0002
  const EPOLLOUT: bv32 := 0x0004
  const EPOLLERR: bv32 := 0x0008
  const EPOLLHUP: bv32 := 0x0010
  const EPOLLRDNORM: bv32 := 0x0040
  const EPOLLRDBAND: bv32 := 0x0080
  const EPOLLWRNORM: bv32 := 0x0100
  const EPOLLWRBAND: bv32 := 0x0200
  const EPOLLMSG: bv32 := 0x0400
  const EPOLLRDHUP: bv32 := 0x2000
  const EPOLLONESHOT: bv32 := 0x8000_0000

  // SOCK__KNOWN_EPOLL_EVENTS
  const KNOWN_EPOLL_EVENTS: bv32 :=
    EPOLLIN | EPOLLPRI | EPOLLOUT | EPOLLERR | EPOLLHUP | EPOLLRDNORM
    | EPOLLRDBAND | EPOLLWRNORM | EPOLLWRBAND | EPOLLMSG | EPOLLRDHUP

  const AFD_POLL_RECEIVE: bv32 := 0x0001
  const AFD_POLL_RECEIVE_EXPEDITED: bv32 := 0x0002
  const AFD_POLL_SEND: bv32 := 0x0004
  const AFD_POLL_DISCONNECT: bv32 := 0x0008
  const AFD_POLL_ABORT: bv32 := 0x0010
  const AFD_POLL_LOCAL_CLOSE: bv32 := 0x0020
  const AFD_POLL_ACCEPT: bv32 := 0x0080
  const AFD_POLL_CONNECT_FAIL: bv32 := 0x0100

  function When(condition: bool, mask: bv32): bv32 {
    if condition then mask else 0
  }

  // sock__epoll_events_to_afd_events
  function ToAfd(e: bv32): bv32 {
    AFD_POLL_LOCAL_CLOSE
    | When(e & (EPOLLIN | EPOLLRDNORM) != 0, AFD_POLL_RECEIVE | AFD_POLL_ACCEPT)
    | When(e & (EPOLLPRI | EPOLLRDBAND) != 0, AFD_POLL_RECEIVE_EXPEDITED)
    | When(e & (EPOLLOUT | EPOLLWRNORM | EPOLLWRBAND) != 0, AFD_POLL_SEND)
    | When(e & (EPOLLIN | EPOLLRDNORM | EPOLLRDHUP) != 0, AFD_POLL_DISCONNECT)
    | When(e & EPOLLHUP != 0, AFD_POLL_ABORT)
    | When(e & EPOLLERR != 0, AFD_POLL_CONNECT_FAIL)
  }

  // sock__afd_events_to_epoll_events
  function ToEpoll(a: bv32): bv32 {
    When(a & (AFD_POLL_RECEIVE | AFD_POLL_ACCEPT) != 0, EPOLLIN | EPOLLRDNORM)
    | When(a & AFD_POLL_RECEIVE_EXPEDITED != 0, EPOLLPRI | EPOLLRDBAND)
    | When(a & AFD_POLL_SEND != 0, EPOLLOUT | EPOLLWRNORM | EPOLLWRBAND)
    | When(a & AFD_POLL_DISCONNECT != 0, EPOLLIN | EPOLLRDNORM | EPOLLRDHUP)
    | When(a & AFD_POLL_ABORT != 0, EPOLLHUP)
    | When(a & AFD_POLL_CONNECT_FAIL != 0,
           EPOLLIN | EPOLLOUT | EPOLLERR | EPOLLRDNORM | EPOLLWRNORM | EPOLLRDHUP)
  }

  // Whatever the user asks for, apart from EPOLLMSG, is watched: some AFD event of the submitted
  // mask is reported back as it.
  lemma EveryRequestIsWatched(e: bv32)
    ensures e & KNOWN_EPOLL_EVENTS & !EPOLLMSG & !ToEpoll(ToAfd(e)) == 0
  {
  }

  // The interesting events of `user` that a poll for `pending` does not watch.
  function Unwatched(user: bv32, pending: bv32): bv32 {
    user & KNOWN_EPOLL_EVENTS & !pending
  }

  // EPOLLERR and EPOLLHUP are watched even when the user does not ask for them.
  function WithErrors(events: bv32): bv32 {
    events | EPOLLERR | EPOLLHUP
  }

  // The events found that the user asked for.
  function Wanted(found: bv32, user: bv32): bv32 {
    found & user
  }

  predicate OneShot(user: bv32) {
    user & EPOLLONESHOT != 0
  }

  lemma WatchedItself(e: bv32)
    ensures Unwatched(e, e) == 0
  {
  }

  datatype EpollEvent = EpollEvent(events: bv32, data: int)

  datatype PollStatus = Idle | Pending | Cancelled

  // How the kernel answers a submitted poll.
  datatype Submission = Accepted | SocketClosed | Rejected

  // What a completion packet says.
  datatype Outcome = WasCancelled | Failed | NoHandles | Ready(afdEvents: bv32)

  // The poll reports that the socket was closed.
  predicate Closed(outcome: Outcome) {
    outcome.Ready? && outcome.afdEvents & AFD_POLL_LOCAL_CLOSE != 0
  }

  // ---- The state ---------------------------------------------------------------------------

  // `polled` are the AFD events of the latest poll that was submitted.
  datatype Sock = Sock(socket: nat, userData: int, userEvents: bv32, pendingEvents: bv32, polled: bv32,
                       status: PollStatus, deletePending: bool)

  // The identities I stand for the addresses of the sock_state objects.  `socks` are the allocated
  // ones, `outstanding` has an element for every submitted poll that has not been handled yet.
  datatype State<I> = State(socks: map<I, Sock>, tree: map<nat, I>, updates: seq<I>, deleted: seq<I>,
                            outstanding: multiset<I>)

  predicate Registered<I>(st: State<I>, s: I) {
    s in st.socks && !st.socks[s].deletePending
  }

  // The poll of a socket covers what its user asks for, or will be replaced once it returns.
  predicate Attended(s: Sock) {
    s.status == Cancelled || (s.status == Pending && Unwatched(s.userEvents, s.pendingEvents) == 0)
  }

  predicate InTree<I(==)>(st: State<I>, s: I)
    requires s in st.socks
  {
    st.socks[s].socket in st.tree && st.tree[st.socks[s].socket] == s
  }

  // The tree, the queues and the set of outstanding polls hold allocated sock_states only.
  ghost predicate Framed<I>(st: State<I>) {
    && (forall k :: k in st.tree ==> st.tree[k] in st.socks && st.socks[st.tree[k]].socket == k)
    && (forall s :: s in st.updates ==> s in st.socks)
    && (forall s :: s in st.deleted ==> s in st.socks)
    && (forall s :: s in st.outstanding ==> s in st.socks)
    && Distinct(st.updates) && Distinct(st.deleted)
  }

  // A sock_state is in the tree exactly while it is not being deleted, and in the deleted queue
  // only when it is; only members of the tree wait for an update; and one poll is outstanding
  // when the socket is not idle, and none when it is; and it watches what it was submitted for.
  predicate Linked<I(==)>(st: State<I>, s: I)
    requires s in st.socks
  {
    var sock := st.socks[s];
    && (InTree(st, s) <==> !sock.deletePending)
    && (s in st.deleted ==> sock.deletePending)
    && (s in st.updates ==> !sock.deletePending)
    && st.outstanding[s] == (if sock.status != Idle then 1 else 0)
    && (sock.status != Pending ==> sock.pendingEvents == 0)
    && (sock.status == Pending ==> sock.polled == ToAfd(sock.pendingEvents))
  }

  // No lost interest: a registered socket outside the update queue is attended to.  A socket that
  // is being deleted is in the deleted queue and still waits for its poll.
  predicate Settled<I(==)>(st: State<I>, s: I)
    requires s in st.socks
  {
    if st.socks[s].deletePending then s in st.deleted && st.socks[s].status != Idle
    else s in st.updates || Attended(st.socks[s])
  }

  // The invariant, but for some sockets that are just being handled.
  ghost predicate InvBut<I>(st: State<I>, handled: set<I>) {
    && Framed(st)
    && (forall s :: s in st.socks ==> Linked(st, s))
    && (forall s :: s in st.socks && s !in handled ==> Settled(st, s))
  }

  ghost predicate Inv<I>(st: State<I>) {
    InvBut(st, {})
  }

  // ---- The operations on one socket --------------------------------------------------------

  function WithSock<I>(st: State<I>, s: I, sock: Sock): State<I> {
    st.(socks := st.socks[s := sock])
  }

  // sock_new, once the socket is registered.
  function Created<I>(st: State<I>, s: I, socket: nat): State<I> {
    st.(socks := st.socks[s := Sock(socket, 0, 0, 0, 0, Idle, false)], tree := st.tree[socket := s])
  }

  // queue_is_enqueued: a sock_state has one queue node, for either queue.
  predicate Enqueued<I(==)>(st: State<I>, s: I) {
    s in st.updates || s in st.deleted
  }

  // queue_remove takes the node out of the queue that it is in.
  function Dequeued<I(==)>(st: State<I>, s: I): State<I> {
    if s in st.updates then st.(updates := Without(st.updates, s)) else st.(deleted := Without(st.deleted, s))
  }

  // port_cancel_socket_update and port_remove_deleted_socket
  function Unqueued<I(==)>(st: State<I>, s: I): State<I> {
    if Enqueued(st, s) then Dequeued(st, s) else st
  }

  // port_request_socket_update
  function Requested<I(==)>(st: State<I>, s: I): State<I> {
    if Enqueued(st, s) then st else st.(updates := st.updates + [s])
  }

  // sock__cancel_poll
  function CancelledPoll(sock: Sock): Sock {
    sock.(status := Cancelled, pendingEvents := 0)
  }

  // sock_update, when the kernel accepts the poll.
  function SubmittedPoll(sock: Sock): Sock {
    sock.(status := Pending, pendingEvents := sock.userEvents, polled := ToAfd(sock.userEvents))
  }

  // The first half of sock__delete: the socket leaves the update queue and the tree.
  function Unregistered<I(==)>(st: State<I>, s: I, cancelled: bool): (st': State<I>)
    requires s in st.socks
    ensures s in st'.socks
  {
    var sock := st.socks[s];
    if sock.deletePending then st
    else
      var sock' := if sock.status == Pending && cancelled then CancelledPoll(sock) else sock;
      Unqueued(st, s).(socks := st.socks[s := sock'.(deletePending := true)], tree := st.tree - {sock.socket})
  }

  // Its second half: the sock_state is freed, or kept until its poll returns.
  function Freed<I(==)>(st: State<I>, s: I): State<I> {
    Unqueued(st, s).(socks := st.socks - {s}, outstanding := st.outstanding[s := 0])
  }

  function Kept<I(==)>(st: State<I>, s: I): State<I> {
    if Enqueued(st, s) then st else st.(deleted := st.deleted + [s])
  }

  // sock__delete; `cancelled` says whether a cancellation it asks for is granted.
  function Deleted<I(==)>(st: State<I>, s: I, force: bool, cancelled: bool): State<I>
    requires s in st.socks
  {
    var st' := Unregistered(st, s, cancelled);
    if force || st'.socks[s].status == Idle then Freed(st', s) else Kept(st', s)
  }

  // sock_set_event
  function EventSet<I(==)>(st: State<I>, s: I, ev: EpollEvent): State<I>
    requires s in st.socks
  {
    var events := WithErrors(ev.events);
    var sock := st.socks[s].(userEvents := events, userData := ev.data);
    var st' := WithSock(st, s, sock);
    if Unwatched(events, sock.pendingEvents) != 0 then Requested(st', s) else st'
  }

  // sock_update, with the answers of the kernel; the flag says whether it succeeds.
  function Updated<I(==)>(st: State<I>, s: I, answer: Submission, cancelled: bool): (State<I>, bool)
    requires s in st.socks
  {
    var sock := st.socks[s];
    var dequeued := Unqueued(st, s);
    if sock.status == Pending && Unwatched(sock.userEvents, sock.pendingEvents) == 0 then (dequeued, true)
    else if sock.status == Pending then
      if cancelled then (WithSock(dequeued, s, CancelledPoll(sock)), true) else (st, false)
    else if sock.status == Cancelled then (dequeued, true)
    else
      match answer
      case Accepted =>
        (WithSock(dequeued, s, SubmittedPoll(sock))
           .(outstanding := st.outstanding + multiset{s}), true)
      case SocketClosed => (Deleted(st, s, false, cancelled), true)
      case Rejected => (st, false)
  }

  // The epoll events a packet stands for, before the filter of the user's mask.
  function EventsOf(outcome: Outcome): bv32 {
    match outcome
    case WasCancelled => 0
    case Failed => EPOLLERR
    case NoHandles => 0
    case Ready(afd) => ToEpoll(afd)
  }

  // The poll of a socket has returned and is not outstanding any more.
  function Returned<I>(st: State<I>, s: I): (st': State<I>)
    requires s in st.socks
    ensures st'.socks.Keys == st.socks.Keys
  {
    WithSock(st, s, st.socks[s].(status := Idle, pendingEvents := 0)).(outstanding := st.outstanding - multiset{s})
  }

  // sock_feed_event
  function Fed<I(==)>(st: State<I>, s: I, outcome: Outcome): (State<I>, seq<EpollEvent>)
    requires s in st.socks
  {
    var st' := Returned(st, s);
    var sock := st'.socks[s];
    if sock.deletePending || Closed(outcome) then
      (Deleted(st', s, false, false), [])
    else
      var events := Wanted(EventsOf(outcome), sock.userEvents);
      var sock' := if events != 0 && OneShot(sock.userEvents) then sock.(userEvents := 0) else sock;
      (Requested(WithSock(st', s, sock'), s), if events == 0 then [] else [EpollEvent(events, sock.userData)])
  }

  // ---- They keep the invariant -------------------------------------------------------------

  // What a step on another socket leaves alone.
  predicate Untouched<I(==)>(st: State<I>, st': State<I>, x: I) {
    && x in st.socks && x in st'.socks && st'.socks[x] == st.socks[x]
    && (InTree(st, x) <==> InTree(st', x))
    && (x in st.updates <==> x in st'.updates)
    && (x in st.deleted <==> x in st'.deleted)
    && st.outstanding[x] == st'.outstanding[x]
  }

  // A step on one socket has to be looked at for this socket only.
  lemma Step<I>(st: State<I>, st': State<I>, s: I, handled: set<I>)
    requires InvBut(st, {s}) && Framed(st') && handled <= {s}
    requires forall x :: x in st'.socks && x != s ==> Untouched(st, st', x)
    requires s in st'.socks ==> Linked(st', s) && (s in handled || Settled(st', s))
    ensures InvBut(st', handled)
  {
    hide Framed;
    forall x | x in st'.socks
      ensures Linked(st', x) && (x in handled || Settled(st', x))
    {
      if x != s {
        hide Attended;
        assert Untouched(st, st', x);
      }
    }
  }

  lemma CreatedKeeps<I>(st: State<I>, s: I, socket: nat)
    requires Inv(st) && s !in st.socks && socket !in st.tree
    ensures InvBut(Created(st, s, socket), {s})
  {
    hide ToAfd;
    var st' := Created(st, s, socket);
    hide Settled, Distinct;
    assert Framed(st');
    forall x | x in st'.socks && x != s ensures Untouched(st, st', x) {
      hide Linked;
    }
    Weaken(st, s);
    hide Framed, Untouched;
    Step(st, st', s, {s});
  }

  // A new or changed request on an idle socket always needs an update.
  lemma ErrorsAreKnown(e: bv32)
    ensures Unwatched(WithErrors(e), 0) != 0
  {
  }

  lemma Weaken<I>(st: State<I>, s: I)
    requires Inv(st)
    ensures InvBut(st, {s})
  {
    hide Framed, Linked, Settled;
  }

  lemma RequestedKeeps<I>(st: State<I>, s: I)
    requires InvBut(st, {s}) && Registered(st, s)
    ensures Inv(Requested(st, s))
  {
    hide ToAfd;
    var st' := Requested(st, s);
    assert Linked(st, s);
    assert forall x :: x in st'.updates <==> x in st.updates || x == s;
    Step(st, st', s, {});
  }

  // sock_set_event on a socket just created, or on any other one.
  lemma EventSetKeeps<I>(st: State<I>, s: I, ev: EpollEvent)
    requires Registered(st, s) && InvBut(st, {s})
    requires st.socks[s].status == Idle || Settled(st, s)
    ensures Inv(EventSet(st, s, ev))
  {
    var events := WithErrors(ev.events);
    ErrorsAreKnown(ev.events);
    assert st.socks[s].status == Idle ==> Unwatched(events, st.socks[s].pendingEvents) != 0 by {
      assert Linked(st, s);
    }
    hide Unwatched, WithErrors, InvBut;
    InterestKeeps(st, s, ev.data, events);
  }

  lemma InterestKeeps<I>(st: State<I>, s: I, data: int, events: bv32)
    requires Registered(st, s) && InvBut(st, {s})
    requires Unwatched(events, st.socks[s].pendingEvents) == 0 ==> Settled(st, s)
    ensures var st' := WithSock(st, s, st.socks[s].(userEvents := events, userData := data));
      Inv(if Unwatched(events, st.socks[s].pendingEvents) != 0 then Requested(st', s) else st')
  {
    hide Unwatched;
    var st' := WithSock(st, s, st.socks[s].(userEvents := events, userData := data));
    ChangedKeeps(st, s, st'.socks[s]);
    if Unwatched(events, st.socks[s].pendingEvents) != 0 {
      hide InvBut;
      RequestedKeeps(st', s);
    } else {
      assert Settled(st', s);
    }
  }

  lemma ChangedFramed<I>(st: State<I>, s: I, sock: Sock)
    requires Framed(st) && s in st.socks && sock.socket == st.socks[s].socket
    ensures var st' := WithSock(st, s, sock);
      Framed(st') && forall x :: x in st'.socks && x != s ==> Untouched(st, st', x)
  {
    hide Distinct;
  }

  // A change of one socket that keeps its poll: at most its interest is to be looked at.
  lemma ChangedKeeps<I>(st: State<I>, s: I, sock: Sock)
    requires InvBut(st, {s}) && s in st.socks
    requires sock == st.socks[s].(userEvents := sock.userEvents, userData := sock.userData)
    ensures InvBut(WithSock(st, s, sock), {s})
  {
    hide ToAfd, Settled, Framed, Untouched;
    var st' := WithSock(st, s, sock);
    ChangedFramed(st, s, sock);
    assert Linked(st, s) && Linked(st', s);
    hide Linked;
    Step(st, st', s, {s});
  }

  // The tests of the one queue node agree with what the socket's state says: before it is deleted, it
  // can only be in the update queue, and afterwards only in the deleted queue.
  lemma OneQueue<I>(st: State<I>, s: I)
    requires InvBut(st, {s}) && s in st.socks
    ensures !(s in st.updates && s in st.deleted)
    ensures !st.socks[s].deletePending ==>
      (Enqueued(st, s) <==> s in st.updates) && Unqueued(st, s) == st.(updates := Without(st.updates, s))
    ensures st.socks[s].deletePending ==>
      (Enqueued(st, s) <==> s in st.deleted) && Unqueued(st, s) == st.(deleted := Without(st.deleted, s))
  {
    WithoutFacts(st.updates, s);
    WithoutFacts(st.deleted, s);
    hide Without, Distinct, Settled;
    assert Linked(st, s);
  }

  // What the first half of a deletion leaves of the socket's fields
  predicate IsDeleted(sock: Sock, sock': Sock) {
    && sock'.deletePending && sock'.socket == sock.socket && (sock'.status == Idle <==> sock.status == Idle)
    && (sock'.status != Pending ==> sock.status != Pending || sock'.pendingEvents == 0)
    && (sock.status != Pending ==> sock'.pendingEvents == sock.pendingEvents)
    && (sock'.status == Pending ==> sock' == sock.(deletePending := true))
  }

  lemma UnregisteredIs<I>(st: State<I>, s: I, cancelled: bool)
    requires InvBut(st, {s}) && s in st.socks && !st.socks[s].deletePending
    ensures var st' := Unregistered(st, s, cancelled);
      && st' == State(st.socks[s := st'.socks[s]], st.tree - {st.socks[s].socket}, Without(st.updates, s), st.deleted,
                      st.outstanding)
      && IsDeleted(st.socks[s], st'.socks[s])
  {
    OneQueue(st, s);
    hide InvBut, Without, Unqueued;
  }

  lemma OutOfTree<I>(st: State<I>, s: I, sock: Sock)
    requires InvBut(st, {s}) && s in st.socks && !st.socks[s].deletePending && IsDeleted(st.socks[s], sock)
    ensures InvBut(State(st.socks[s := sock], st.tree - {st.socks[s].socket}, Without(st.updates, s), st.deleted,
                         st.outstanding), {s})
  {
    hide ToAfd;
    var st' := State(st.socks[s := sock], st.tree - {st.socks[s].socket}, Without(st.updates, s), st.deleted,
        st.outstanding);
    WithoutFacts(st.updates, s);
    hide Without, Distinct, Settled;
    assert Framed(st');
    assert Linked(st', s);
    assert forall x :: x in st'.socks && x != s ==> Untouched(st, st', x);
    hide Framed, Untouched, Linked;
    Step(st, st', s, {s});
  }

  lemma UnregisteredKeeps<I>(st: State<I>, s: I, cancelled: bool)
    requires InvBut(st, {s}) && s in st.socks
    ensures InvBut(Unregistered(st, s, cancelled), {s})
    ensures Unregistered(st, s, cancelled).socks[s].deletePending
  {
    hide InvBut, Without, Unqueued, Untouched;
    if !st.socks[s].deletePending {
      UnregisteredIs(st, s, cancelled);
      OutOfTree(st, s, Unregistered(st, s, cancelled).socks[s]);
    }
  }

  // What freeing a socket leaves
  lemma FreedIs<I>(st: State<I>, s: I)
    requires InvBut(st, {s}) && s in st.socks && st.socks[s].deletePending
    ensures Freed(st, s) == WithoutSock(st, s)
  {
    OneQueue(st, s);
    hide InvBut, Without, Unqueued;
  }

  function WithoutSock<I(==)>(st: State<I>, s: I): State<I> {
    State(st.socks - {s}, st.tree, st.updates, Without(st.deleted, s), st.outstanding[s := 0])
  }

  lemma Others<T>(deleted: seq<T>, s: T, all: set<T>)
    requires Distinct(deleted) && forall x :: x in deleted ==> x in all
    ensures Distinct(Without(deleted, s)) && forall x :: x in Without(deleted, s) ==> x in all - {s}
  {
    WithoutFacts(deleted, s);
  }

  lemma OthersFramed<I>(st: State<I>, s: I)
    requires InvBut(st, {s}) && s in st.socks && st.socks[s].deletePending
    ensures Framed(WithoutSock(st, s))
  {
    hide Without, Distinct, Settled;
    Others(st.deleted, s, st.socks.Keys);
    assert Linked(st, s);
    var st' := WithoutSock(st, s);
    assert forall k :: k in st'.tree ==> st.tree[k] in st.socks && st.socks[st.tree[k]].socket == k;
    assert forall x :: x in st'.outstanding ==> x in st.outstanding && x != s;
  }

  lemma OthersUntouched<I>(st: State<I>, s: I, x: I)
    requires x in st.socks && x != s && Distinct(st.deleted)
    ensures Untouched(st, WithoutSock(st, s), x)
  {
    WithoutFacts(st.deleted, s);
    hide Without, Distinct;
  }

  lemma OutOfQueue<I>(st: State<I>, s: I)
    requires InvBut(st, {s}) && s in st.socks && st.socks[s].deletePending
    ensures Inv(WithoutSock(st, s))
  {
    hide Linked, Settled, Untouched;
    OthersFramed(st, s);
    forall x | x in st.socks && x != s ensures Untouched(st, WithoutSock(st, s), x) {
      OthersUntouched(st, s, x);
    }
    hide Framed;
    Step(st, WithoutSock(st, s), s, {});
  }

  lemma FreedKeeps<I>(st: State<I>, s: I)
    requires InvBut(st, {s}) && s in st.socks && st.socks[s].deletePending
    ensures Inv(Freed(st, s))
  {
    hide InvBut, Freed, WithoutSock;
    FreedIs(st, s);
    OutOfQueue(st, s);
  }

  lemma KeptKeeps<I>(st: State<I>, s: I)
    requires InvBut(st, {s}) && s in st.socks && st.socks[s].deletePending && st.socks[s].status != Idle
    ensures Inv(Kept(st, s))
  {
    hide ToAfd;
    OneQueue(st, s);
    Step(st, Kept(st, s), s, {});
  }

  lemma DeletedKeeps<I>(st: State<I>, s: I, force: bool, cancelled: bool)
    requires InvBut(st, {s}) && s in st.socks
    ensures Inv(Deleted(st, s, force, cancelled))
  {
    hide InvBut;
    UnregisteredKeeps(st, s, cancelled);
    var st' := Unregistered(st, s, cancelled);
    hide Unregistered;
    if force || st'.socks[s].status == Idle {
      FreedKeeps(st', s);
    } else {
      KeptKeeps(st', s);
    }
  }

  lemma UpdatedKeeps<I>(st: State<I>, s: I, answer: Submission, cancelled: bool)
    requires Inv(st) && s in st.updates
    ensures Inv(Updated(st, s, answer, cancelled).0)
  {
    hide Settled, Unwatched;
    if st.socks[s].status == Idle && answer == SocketClosed {
      Weaken(st, s);
      DeletedKeeps(st, s, false, cancelled);
    } else if Updated(st, s, answer, cancelled).1 {
      DequeuedKeeps(st, s, answer, cancelled);
    }
  }

  lemma DequeuedKeeps<I>(st: State<I>, s: I, answer: Submission, cancelled: bool)
    requires Inv(st) && s in st.updates && Updated(st, s, answer, cancelled).1
    requires st.socks[s].status == Idle ==> answer == Accepted
    ensures Inv(Updated(st, s, answer, cancelled).0)
  {
    hide ToAfd, Unwatched, Without, Unqueued;
    WatchedItself(st.socks[s].userEvents);
    assert Linked(st, s);
    Weaken(st, s);
    OneQueue(st, s);
    var st' := Updated(st, s, answer, cancelled).0;
    assert st'.outstanding == st.outstanding[s := 1];
    assert st'.socks == st.socks[s := st'.socks[s]];
    hide InvBut;
    AttendedKeeps(st, s, st'.socks[s]);
    assert st' == State(st.socks[s := st'.socks[s]], st.tree, Without(st.updates, s), st.deleted,
        st.outstanding[s := 1]);
  }

  // A socket leaves the update queue with its interest attended to.
  lemma AttendedKeeps<I>(st: State<I>, s: I, sock: Sock)
    requires Inv(st) && s in st.updates && s in st.socks
    requires sock == st.socks[s].(status := sock.status, pendingEvents := sock.pendingEvents, polled := sock.polled)
    requires Attended(sock) && (sock.status == Cancelled ==> sock.pendingEvents == 0)
    requires sock.status == Pending ==> sock.polled == ToAfd(sock.pendingEvents)
    ensures Inv(State(st.socks[s := sock], st.tree, Without(st.updates, s), st.deleted, st.outstanding[s := 1]))
  {
    hide ToAfd, Unwatched, Untouched;
    var st' := State(st.socks[s := sock], st.tree, Without(st.updates, s), st.deleted, st.outstanding[s := 1]);
    AttendedFramed(st, s, sock);
    assert Linked(st, s);
    Weaken(st, s);
    hide Framed, InvBut;
    Step(st, st', s, {});
  }

  lemma AttendedFramed<I>(st: State<I>, s: I, sock: Sock)
    requires Inv(st) && s in st.updates && s in st.socks && sock.socket == st.socks[s].socket
    ensures var st' := State(st.socks[s := sock], st.tree, Without(st.updates, s), st.deleted, st.outstanding[s := 1]);
      && Framed(st') && s !in st'.updates && forall x :: x in st'.socks && x != s ==> Untouched(st, st', x)
  {
    hide Without, Distinct, Linked, Settled, Untouched;
    Others(st.updates, s, st.socks.Keys);
    forall x | x in st.socks && x != s
      ensures Untouched(st, State(st.socks[s := sock], st.tree, Without(st.updates, s), st.deleted,
                                  st.outstanding[s := 1]), x)
    {
      AttendedUntouched(st, s, sock, x);
    }
  }

  lemma AttendedUntouched<I>(st: State<I>, s: I, sock: Sock, x: I)
    requires x in st.socks && x != s && Distinct(st.updates)
    ensures Untouched(st, State(st.socks[s := sock], st.tree, Without(st.updates, s), st.deleted,
                                st.outstanding[s := 1]), x)
  {
    WithoutFacts(st.updates, s);
    hide Without, Distinct;
  }

  lemma ReturnedKeeps<I>(st: State<I>, s: I)
    requires Inv(st) && s in st.outstanding
    ensures InvBut(Returned(st, s), {s})
  {
    hide ToAfd, Settled;
    Weaken(st, s);
    Step(st, Returned(st, s), s, {s});
  }

  lemma FedKeeps<I>(st: State<I>, s: I, outcome: Outcome)
    requires Inv(st) && s in st.outstanding && s in st.socks
    ensures Inv(Fed(st, s, outcome).0)
  {
    hide InvBut, ToEpoll, EventsOf, Wanted, OneShot, Closed;
    ReturnedKeeps(st, s);
    var st' := Returned(st, s);
    var sock := st'.socks[s];
    if sock.deletePending || Closed(outcome) {
      DeletedKeeps(st', s, false, false);
    } else {
      var events := Wanted(EventsOf(outcome), sock.userEvents);
      var sock' := if events != 0 && OneShot(sock.userEvents) then sock.(userEvents := 0) else sock;
      ChangedKeeps(st', s, sock');
      RequestedKeeps(WithSock(st', s, sock'), s);
    }
  }

  // ---- port_delete -------------------------------------------------------------------------

  // sock_force_delete frees the socket whatever the state of its poll; the tree does not grow.
  lemma ForcedFrees<I>(st: State<I>, s: I, cancelled: bool)
    requires Inv(st) && s in st.socks
    ensures Inv(Deleted(st, s, true, cancelled))
    ensures Deleted(st, s, true, cancelled).socks.Keys == st.socks.Keys - {s}
    ensures s in st.deleted ==> Deleted(st, s, true, cancelled).tree == st.tree
  {
    Weaken(st, s);
    DeletedKeeps(st, s, true, cancelled);
    assert Linked(st, s);
  }

  // Once the tree and the deleted queue are empty nothing is left.
  lemma NothingLeft<I>(st: State<I>)
    requires Inv(st)
    ensures st.tree == map[] && st.deleted == []
        ==> st.socks == map[] && st.updates == [] && st.outstanding == multiset{}
  {
    FirstIsMember(st.updates);
    if s :| s in st.socks {
      assert Linked(st, s) && Settled(st, s);
    }
  }

  lemma FirstIsMember<T>(s: seq<T>)
    ensures s != [] ==> s[0] in s
  {
  }
}
