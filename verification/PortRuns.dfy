/**
 Whole runs of a port of deps/wepoll/wepoll.c.  Each body that runs under the port lock is one
 step; between the steps the kernel may hand completion packets of outstanding polls to threads
 that wait for them.  What every step keeps holds in every reachable state.
 */
module PortRuns {
  import opened Queues
  import opened PortModel

  // What the kernel answers, should the socket be polled or its poll be cancelled.
  datatype Answer = Answer(submission: Submission, cancelled: bool)

  datatype Packet<I> = Packet(s: I, outcome: Outcome)

  // `taken` has an entry for every thread that waits with the lock released: the packets it has
  // been handed; `refused` records that the kernel refused a submission or a cancellation.
  datatype World<I> = World(st: State<I>, polls: nat, refused: bool, taken: map<nat, seq<Packet<I>>>)

  // ---- Loops over sockets ------------------------------------------------------------------

  lemma UpdatedShrinks<I>(st: State<I>, s: I, answer: Submission, cancelled: bool)
    requires Inv(st) && s in st.updates
    ensures var (st', ok) := Updated(st, s, answer, cancelled);
      && (ok ==> |st'.updates| == |st.updates| - 1)
      && (!ok ==> st' == st)
      && st.outstanding <= st'.outstanding
  {
    WithoutFacts(st.updates, s);
    hide Without, Distinct, Unwatched;
    Weaken(st, s);
    OneQueue(st, s);
    assert Linked(st, s);
  }

  // port__update_events: every socket is updated once, so one answer for each is enough.
  function AllUpdated<I(==)>(st: State<I>, kernel: I -> Answer): (State<I>, bool)
    requires Inv(st)
    decreases |st.updates|
  {
    if st.updates == [] then (st, true)
    else
      var s := st.updates[0];
      var answer := kernel(s);
      UpdatedShrinks(st, s, answer.submission, answer.cancelled);
      UpdatedKeeps(st, s, answer.submission, answer.cancelled);
      var (st', ok) := Updated(st, s, answer.submission, answer.cancelled);
      if ok then AllUpdated(st', kernel) else (st', false)
  }

  // It empties the update queue unless the kernel refuses, and takes no poll away.
  lemma {:induction false} AllUpdatedKeeps<I>(st: State<I>, kernel: I -> Answer)
    requires Inv(st)
    ensures var (st', ok) := AllUpdated(st, kernel);
      && Inv(st') && st.outstanding <= st'.outstanding
      && (ok <==> st'.updates == [])
    decreases |st.updates|
  {
    if st.updates != [] {
      var s := st.updates[0];
      var answer := kernel(s);
      UpdatedShrinks(st, s, answer.submission, answer.cancelled);
      UpdatedKeeps(st, s, answer.submission, answer.cancelled);
      var (st', ok) := Updated(st, s, answer.submission, answer.cancelled);
      hide Inv, Updated;
      if ok {
        AllUpdatedKeeps(st', kernel);
      }
    }
  }

  // One packet per poll, and every poll outstanding.
  ghost predicate Batch<I>(batch: seq<Packet<I>>, outstanding: multiset<I>) {
    && (forall i, j :: 0 <= i < j < |batch| ==> batch[i].s != batch[j].s)
    && (forall p :: p in batch ==> p.s in outstanding)
  }

  function Handled<I(==)>(batch: seq<Packet<I>>): multiset<I> {
    multiset(set p | p in batch :: p.s)
  }

  lemma FedTakesOne<I>(st: State<I>, s: I, outcome: Outcome)
    requires Inv(st) && s in st.socks
    ensures Fed(st, s, outcome).0.outstanding == st.outstanding - multiset{s}
  {
    assert Linked(st, s);
  }

  lemma PolledIsThere<I>(st: State<I>, s: I)
    requires Inv(st) && s in st.outstanding
    ensures s in st.socks
  {
    assert Framed(st);
  }

  lemma BatchTail<I>(st: State<I>, batch: seq<Packet<I>>)
    requires Inv(st) && Batch(batch, st.outstanding) && batch != []
    ensures batch[0].s in st.outstanding && batch[0].s in st.socks
    ensures Batch(batch[1..], Fed(st, batch[0].s, batch[0].outcome).0.outstanding)
  {
    hide Fed, Inv;
    assert batch[0] in batch;
    PolledIsThere(st, batch[0].s);
    FedTakesOne(st, batch[0].s, batch[0].outcome);
    forall p | p in batch[1..] ensures p.s in st.outstanding - multiset{batch[0].s} {
      var i :| 0 <= i < |batch[1..]| && batch[1..][i] == p;
      assert batch[i + 1] == p;
    }
  }

  // port__feed_events
  function AllFed<I(==)>(st: State<I>, batch: seq<Packet<I>>): (State<I>, seq<EpollEvent>)
    requires Inv(st) && Batch(batch, st.outstanding)
    decreases |batch|
  {
    if batch == [] then (st, [])
    else
      BatchTail(st, batch);
      FedKeeps(st, batch[0].s, batch[0].outcome);
      var (st', events) := Fed(st, batch[0].s, batch[0].outcome);
      var (st'', more) := AllFed(st', batch[1..]);
      (st'', events + more)
  }

  // Feeding a batch handles exactly its polls, and reports at most one event for each packet.
  lemma {:induction false} AllFedKeeps<I>(st: State<I>, batch: seq<Packet<I>>)
    requires Inv(st) && Batch(batch, st.outstanding)
    ensures var (st', events) := AllFed(st, batch);
      && Inv(st') && st'.outstanding == st.outstanding - Handled(batch) && |events| <= |batch|
    decreases |batch|
  {
    hide Inv, Fed, Handled;
    HandledFirst(batch);
    if batch != [] {
      BatchTail(st, batch);
      var p := batch[0];
      FedKeeps(st, p.s, p.outcome);
      FedTakesOne(st, p.s, p.outcome);
      OneEvent(st, p.s, p.outcome);
      AllFedKeeps(Fed(st, p.s, p.outcome).0, batch[1..]);
    }
  }

  lemma OneEvent<I>(st: State<I>, s: I, outcome: Outcome)
    requires s in st.socks
    ensures |Fed(st, s, outcome).1| <= 1
  {
    hide EventsOf, Wanted, Closed, OneShot, Deleted, Requested;
  }

  lemma HandledFirst<I>(batch: seq<Packet<I>>)
    requires forall i, j :: 0 <= i < j < |batch| ==> batch[i].s != batch[j].s
    ensures Handled(batch) == if batch == [] then multiset{} else multiset{batch[0].s} + Handled(batch[1..])
  {
    if batch == [] {
      return;
    }
    var all, rest := set p | p in batch :: p.s, set p | p in batch[1..] :: p.s;
    assert batch == [batch[0]] + batch[1..] && batch[0] in batch;
    forall x | x in rest ensures x in all && x != batch[0].s {
      var p :| p in batch[1..] && p.s == x;
      assert p in batch;
      var i :| 0 <= i < |batch[1..]| && batch[1..][i] == p;
      assert batch[i + 1] == p;
    }
    assert all == {batch[0].s} + rest;
  }

  // The packet of a socket that has been deleted or closed makes it go away.
  lemma FedFrees<I>(st: State<I>, s: I, outcome: Outcome)
    requires Inv(st) && s in st.outstanding && s in st.socks
    requires st.socks[s].deletePending || Closed(outcome)
    ensures Fed(st, s, outcome).1 == [] && s !in Fed(st, s, outcome).0.socks
  {
    hide Without;
  }

  lemma DisarmedIsSilent<I>(st: State<I>, s: I, outcome: Outcome)
    requires s in st.socks && st.socks[s].userEvents == 0
    ensures Fed(st, s, outcome).1 == []
  {
    NoneOfNone(EventsOf(outcome));
    hide ToEpoll, EventsOf, Wanted, OneShot, Closed, Deleted;
  }

  lemma NoneOfNone(events: bv32)
    ensures Wanted(events, 0) == 0
  {
  }

  // ---- Steps -------------------------------------------------------------------------------

  datatype Step<I> =
    // port_ctl
    | Add(s: I, socket: nat, ev: EpollEvent)
    | Mod(socket: nat, ev: EpollEvent)
    | Del(socket: nat)
    // port_wait takes the lock and, unless that fails, starts to wait.
    | Enter(thread: nat)
    // GetQueuedCompletionStatusEx hands packets to a waiting thread.
    | Deliver(thread: nat, batch: seq<Packet<I>>)
    // port_wait takes the lock again; a batch without packets means that the wait failed or
    // timed out, and `again` that there is time left when no event was found.
    | Leave(thread: nat, again: bool)

  // port__update_events on the whole port
  function Refreshed<I(==)>(w: World<I>, kernel: I -> Answer): (World<I>, bool)
    requires Inv(w.st)
  {
    var (st, ok) := AllUpdated(w.st, kernel);
    (w.(st := st, refused := w.refused || !ok), ok)
  }

  // port__update_events_if_polling
  function IfPolling<I(==)>(w: World<I>, kernel: I -> Answer): World<I>
    requires Inv(w.st)
  {
    if w.polls > 0 then Refreshed(w, kernel).0 else w
  }

  // port__poll up to the point where the lock is released; after a refusal port_wait returns, but
  // not before it has tried again.
  function Entered<I(==)>(w: World<I>, thread: nat, kernel: I -> Answer, again: I -> Answer): World<I>
    requires Inv(w.st)
  {
    var (w', ok) := Refreshed(w, kernel);
    if ok then w'.(polls := w'.polls + 1, taken := w'.taken[thread := []])
    else
      AllUpdatedKeeps(w.st, kernel);
      IfPolling(w', again)
  }

  // port_wait, when it has the lock again and has fed its packets.
  function Resumed<I(==)>(w: World<I>, thread: nat): (World<I>, seq<EpollEvent>)
    requires WorldInv(w) && thread in w.taken
  {
    var (st, events) := AllFed(w.st, w.taken[thread]);
    (w.(st := st, polls := w.polls - 1, taken := w.taken - {thread}), events)
  }

  // port_wait from there on: another round, or the return to the caller.
  function Left<I(==)>(w: World<I>, thread: nat, more: bool, kernel: I -> Answer, again: I -> Answer): World<I>
    requires WorldInv(w) && thread in w.taken
  {
    AllFedKeeps(w.st, w.taken[thread]);
    var (w', events) := Resumed(w, thread);
    if w.taken[thread] != [] && events == [] && more then Entered(w', thread, kernel, again)
    else IfPolling(w', kernel)
  }

  ghost predicate Enabled<I>(w: World<I>, step: Step<I>) {
    match step
    case Add(s, socket, ev) => s !in w.st.socks
    case Mod(socket, ev) => true
    case Del(socket) => true
    case Enter(thread) => thread !in w.taken
    case Deliver(thread, batch) =>
      && thread in w.taken && w.taken[thread] == [] && Batch(batch, w.st.outstanding)
      && forall t, p, q :: t in w.taken && p in w.taken[t] && q in batch ==> p.s != q.s
    case Leave(thread, again) => thread in w.taken
  }

  function Next<I(==)>(w: World<I>, step: Step<I>, kernel: I -> Answer, again: I -> Answer): World<I>
    requires WorldInv(w) && Enabled(w, step)
  {
    match step
    case Add(s, socket, ev) =>
      if socket in w.st.tree then w
      else
        AddedKeeps(w.st, s, socket, ev);
        IfPolling(w.(st := EventSet(Created(w.st, s, socket), s, ev)), kernel)
    case Mod(socket, ev) =>
      if socket !in w.st.tree then w
      else
        ModifiedKeeps(w.st, socket, ev);
        IfPolling(w.(st := EventSet(w.st, w.st.tree[socket], ev)), kernel)
    case Del(socket) =>
      if socket !in w.st.tree then w
      else w.(st := Deleted(w.st, w.st.tree[socket], false, kernel(w.st.tree[socket]).cancelled))
    case Enter(thread) => Entered(w, thread, kernel, again)
    case Deliver(thread, batch) => w.(taken := w.taken[thread := batch])
    case Leave(thread, more) =>
      Left(w, thread, more, kernel, again)
  }

  // The threads that wait are counted, the packets they hold belong to distinct outstanding polls
  // and, unless the kernel refused something, nothing waits for an update while a thread does.
  ghost predicate Claims<I>(w: World<I>) {
    && (forall t :: t in w.taken ==> Batch(w.taken[t], w.st.outstanding))
    && (forall t, u, p, q ::
          t in w.taken && u in w.taken && t != u && p in w.taken[t] && q in w.taken[u] ==> p.s != q.s)
  }

  ghost predicate WorldInv<I>(w: World<I>) {
    && Inv(w.st) && Claims(w) && w.polls == |w.taken|
    && (w.polls > 0 && !w.refused ==> w.st.updates == [])
  }

  lemma AddedKeeps<I>(st: State<I>, s: I, socket: nat, ev: EpollEvent)
    requires Inv(st) && s !in st.socks && socket !in st.tree
    ensures s in Created(st, s, socket).socks && Inv(EventSet(Created(st, s, socket), s, ev))
    ensures EventSet(Created(st, s, socket), s, ev).outstanding == st.outstanding
  {
    CreatedKeeps(st, s, socket);
    hide InvBut;
    EventSetKeeps(Created(st, s, socket), s, ev);
  }

  lemma ModifiedKeeps<I>(st: State<I>, socket: nat, ev: EpollEvent)
    requires Inv(st) && socket in st.tree
    ensures st.tree[socket] in st.socks && !st.socks[st.tree[socket]].deletePending
    ensures Inv(EventSet(st, st.tree[socket], ev))
    ensures EventSet(st, st.tree[socket], ev).outstanding == st.outstanding
  {
    var s := st.tree[socket];
    assert Framed(st) && Linked(st, s) && Settled(st, s);
    Weaken(st, s);
    hide InvBut;
    EventSetKeeps(st, s, ev);
  }

  // ---- What every step keeps ---------------------------------------------------------------

  lemma RefreshedKeeps<I>(w: World<I>, kernel: I -> Answer)
    requires Inv(w.st) && Claims(w)
    ensures var (w', ok) := Refreshed(w, kernel);
      && Inv(w'.st) && Claims(w') && w.st.outstanding <= w'.st.outstanding
      && (ok || w'.refused) && (ok ==> w'.st.updates == [])
  {
    AllUpdatedKeeps(w.st, kernel);
  }

  lemma IfPollingKeeps<I>(w: World<I>, kernel: I -> Answer)
    requires Inv(w.st) && Claims(w) && w.polls == |w.taken|
    ensures WorldInv(IfPolling(w, kernel)) && w.st.outstanding <= IfPolling(w, kernel).st.outstanding
  {
    hide Inv, Claims;
    if w.polls > 0 {
      RefreshedKeeps(w, kernel);
    }
  }

  lemma EnteredKeeps<I>(w: World<I>, thread: nat, kernel: I -> Answer, again: I -> Answer)
    requires Inv(w.st) && Claims(w) && w.polls == |w.taken| && thread !in w.taken
    ensures WorldInv(Entered(w, thread, kernel, again))
    ensures w.st.outstanding <= Entered(w, thread, kernel, again).st.outstanding
  {
    hide Inv;
    RefreshedKeeps(w, kernel);
    var (w', ok) := Refreshed(w, kernel);
    hide Refreshed;
    if ok {
      WaitingKeeps(w', thread);
    } else {
      IfPollingKeeps(w', again);
    }
  }

  lemma NewcomerClaims<I>(w: World<I>, thread: nat)
    requires Claims(w) && Batch<I>([], w.st.outstanding)
    ensures Claims(w.(polls := w.polls + 1, taken := w.taken[thread := []]))
  {
    hide Batch;
    var taken := w.taken[thread := []];
    assert forall t :: t in taken ==> t == thread || t in w.taken;
  }

  lemma WaitingKeeps<I>(w: World<I>, thread: nat)
    requires Inv(w.st) && Claims(w) && w.polls == |w.taken| && thread !in w.taken && w.st.updates == []
    ensures WorldInv(w.(polls := w.polls + 1, taken := w.taken[thread := []]))
  {
    var w' := w.(polls := w.polls + 1, taken := w.taken[thread := []]);
    hide Inv;
    assert |w'.taken| == |w.taken| + 1;
    assert Batch<I>([], w.st.outstanding);
    hide Batch;
    NewcomerClaims(w, thread);
    hide Claims;
  }

  // The other threads' packets stay theirs when a thread has had its own handled.
  lemma LeftClaims<I>(w: World<I>, thread: nat, outstanding: multiset<I>)
    requires Claims(w) && thread in w.taken
    requires outstanding == w.st.outstanding - Handled(w.taken[thread])
    ensures forall t :: t in w.taken - {thread} ==> Batch(w.taken[t], outstanding)
  {
    forall t | t in w.taken && t != thread ensures Batch(w.taken[t], outstanding) {
      assert Batch(w.taken[t], w.st.outstanding);
      assert forall p :: p in w.taken[t] ==> p.s !in Handled(w.taken[thread]);
    }
  }

  lemma ResumedKeeps<I>(w: World<I>, thread: nat)
    requires WorldInv(w) && thread in w.taken
    ensures var w' := Resumed(w, thread).0;
      && Inv(w'.st) && Claims(w') && w'.polls == |w'.taken| && thread !in w'.taken
      && w'.st.outstanding == w.st.outstanding - Handled(w.taken[thread])
  {
    hide Inv, Claims, AllFed, Handled;
    InHand(w, thread);
    AllFedKeeps(w.st, w.taken[thread]);
    var w' := Resumed(w, thread).0;
    RestClaims(w, thread, w');
    assert w.taken == w'.taken[thread := w.taken[thread]];
  }

  lemma InHand<I>(w: World<I>, thread: nat)
    requires Claims(w) && thread in w.taken
    ensures Batch(w.taken[thread], w.st.outstanding)
  {
  }

  lemma RestClaims<I>(w: World<I>, thread: nat, w': World<I>)
    requires Claims(w) && thread in w.taken && w'.taken == w.taken - {thread}
    requires w'.st.outstanding == w.st.outstanding - Handled(w.taken[thread])
    ensures Claims(w')
  {
    hide Batch, Handled;
    LeftClaims(w, thread, w'.st.outstanding);
  }

  lemma LeaveKeeps<I>(w: World<I>, thread: nat, more: bool, kernel: I -> Answer, again: I -> Answer)
    requires WorldInv(w) && thread in w.taken
    ensures var w' := Left(w, thread, more, kernel, again);
      WorldInv(w') && w.st.outstanding - Handled(w.taken[thread]) <= w'.st.outstanding
  {
    ResumedKeeps(w, thread);
    var (w', events) := Resumed(w, thread);
    hide Inv, Claims, Handled, Resumed, Entered, IfPolling;
    if w.taken[thread] != [] && events == [] && more {
      EnteredKeeps(w', thread, kernel, again);
    } else {
      IfPollingKeeps(w', kernel);
    }
  }

  lemma AddKeeps<I>(w: World<I>, s: I, socket: nat, ev: EpollEvent, kernel: I -> Answer)
    requires WorldInv(w) && s !in w.st.socks && socket !in w.st.tree
    ensures Inv(EventSet(Created(w.st, s, socket), s, ev))
    ensures var w' := IfPolling(w.(st := EventSet(Created(w.st, s, socket), s, ev)), kernel);
      WorldInv(w') && w.st.outstanding <= w'.st.outstanding
  {
    AddedKeeps(w.st, s, socket, ev);
    hide Inv, Batch, EventSet, Created, IfPolling;
    IfPollingKeeps(w.(st := EventSet(Created(w.st, s, socket), s, ev)), kernel);
  }

  lemma ModKeeps<I>(w: World<I>, socket: nat, ev: EpollEvent, kernel: I -> Answer)
    requires WorldInv(w) && socket in w.st.tree
    ensures w.st.tree[socket] in w.st.socks && Inv(EventSet(w.st, w.st.tree[socket], ev))
    ensures var w' := IfPolling(w.(st := EventSet(w.st, w.st.tree[socket], ev)), kernel);
      WorldInv(w') && w.st.outstanding <= w'.st.outstanding
  {
    hide Inv, InvBut, Batch, EventSet, IfPolling;
    ModifiedKeeps(w.st, socket, ev);
    IfPollingKeeps(w.(st := EventSet(w.st, w.st.tree[socket], ev)), kernel);
  }

  lemma DeletedPolls<I>(st: State<I>, s: I, cancelled: bool)
    requires Inv(st) && s in st.socks
    ensures Deleted(st, s, false, cancelled).outstanding == st.outstanding
    ensures st.updates == [] ==> Deleted(st, s, false, cancelled).updates == []
  {
    assert Linked(st, s);
  }

  lemma DelKeeps<I>(w: World<I>, socket: nat, cancelled: bool)
    requires WorldInv(w) && socket in w.st.tree && w.st.tree[socket] in w.st.socks
    ensures var w' := w.(st := Deleted(w.st, w.st.tree[socket], false, cancelled));
      WorldInv(w') && w'.st.outstanding == w.st.outstanding
  {
    hide Inv, InvBut, Deleted;
    var s := w.st.tree[socket];
    Weaken(w.st, s);
    DeletedKeeps(w.st, s, false, cancelled);
    DeletedPolls(w.st, s, cancelled);
  }

  lemma DeliverKeeps<I>(w: World<I>, thread: nat, batch: seq<Packet<I>>)
    requires WorldInv(w) && Enabled(w, Deliver(thread, batch))
    ensures WorldInv(w.(taken := w.taken[thread := batch]))
  {
    hide Inv, Batch;
  }

  // The polls whose packets a step handles.
  function HandledBy<I(==)>(w: World<I>, step: Step<I>): multiset<I> {
    if step.Leave? && step.thread in w.taken then Handled(w.taken[step.thread]) else multiset{}
  }

  // Every step keeps the invariant, and a poll stays outstanding until its own packet is handled.
  lemma StepKeeps<I>(w: World<I>, step: Step<I>, kernel: I -> Answer, again: I -> Answer)
    requires WorldInv(w) && Enabled(w, step)
    ensures WorldInv(Next(w, step, kernel, again))
    ensures w.st.outstanding - HandledBy(w, step) <= Next(w, step, kernel, again).st.outstanding
  {
    match step
    case Add(s, socket, ev) =>
      if socket !in w.st.tree {
        hide Inv, Claims, EventSet, Created, IfPolling;
        AddKeeps(w, s, socket, ev, kernel);
      }
    case Mod(socket, ev) =>
      if socket in w.st.tree {
        hide Inv, Claims, EventSet, IfPolling;
        ModKeeps(w, socket, ev, kernel);
      }
    case Del(socket) =>
      if socket in w.st.tree {
        assert w.st.tree[socket] in w.st.socks by { assert Inv(w.st); }
        hide Inv, Claims, Deleted;
        DelKeeps(w, socket, kernel(w.st.tree[socket]).cancelled);
      }
    case Enter(thread) =>
      hide Inv, Claims, Entered;
      EnteredKeeps(w, thread, kernel, again);
    case Deliver(thread, batch) => DeliverKeeps(w, thread, batch);
    case Leave(thread, more) => LeaveKeeps(w, thread, more, kernel, again);
  }

  // A step together with the kernel's answers to it.
  datatype Choice<!I> = Choice(step: Step<I>, kernel: I -> Answer, again: I -> Answer)

  function Fresh<I>(): World<I> {
    World(State(map[], map[], [], [], multiset{}), 0, false, map[])
  }

  // The steps of a run are enabled one after the other.
  ghost predicate Runs<I>(w: World<I>, run: seq<Choice<I>>)
    requires WorldInv(w)
    decreases |run|
  {
    run != [] ==>
      && Enabled(w, run[0].step)
      && (StepKeeps(w, run[0].step, run[0].kernel, run[0].again);
          Runs(Next(w, run[0].step, run[0].kernel, run[0].again), run[1..]))
  }

  ghost function After<I>(w: World<I>, run: seq<Choice<I>>): (w': World<I>)
    requires WorldInv(w) && Runs(w, run)
    ensures WorldInv(w')
    decreases |run|
  {
    if run == [] then w
    else
      StepKeeps(w, run[0].step, run[0].kernel, run[0].again);
      After(Next(w, run[0].step, run[0].kernel, run[0].again), run[1..])
  }

  lemma FreshIsValid<I>()
    ensures WorldInv(Fresh<I>())
  {
  }

  // After any run, whatever the kernel answered: a socket that the user has registered is in the
  // update queue, or its poll watches all that the user asks for, or that poll was cancelled.  As
  // long as the kernel refused nothing and a thread waits, the update queue is empty, so the poll
  // of every registered socket is outstanding.
  lemma NoLostInterest<I>(run: seq<Choice<I>>, s: I)
    requires WorldInv(Fresh<I>()) && Runs(Fresh<I>(), run) && Registered(After(Fresh<I>(), run).st, s)
    ensures var w := After(Fresh<I>(), run);
      && (s in w.st.updates || Attended(w.st.socks[s]))
      && (w.taken != map[] && !w.refused ==> s in w.st.outstanding && Attended(w.st.socks[s]))
  {
    var w := After(Fresh<I>(), run);
    assert Linked(w.st, s) && Settled(w.st, s);
  }

  // After any run, an allocated socket is in exactly one of the tree and the deleted queue; the
  // update queue holds members of the tree only; it has at most one poll outstanding; and no socket with an
  // outstanding poll is freed, not even while its packet is in the hands of a thread.
  lemma Lifetimes<I>(run: seq<Choice<I>>, s: I)
    requires WorldInv(Fresh<I>()) && Runs(Fresh<I>(), run)
    ensures var w := After(Fresh<I>(), run);
      && (s in w.st.socks ==> (InTree(w.st, s) <==> s !in w.st.deleted))
      && (s in w.st.updates ==> s in w.st.socks && InTree(w.st, s))
      && (s in w.st.outstanding ==> s in w.st.socks) && w.st.outstanding[s] <= 1
      && (forall t, p :: t in w.taken && p in w.taken[t] ==> p.s in w.st.outstanding)
  {
    hide ToAfd;
    var w := After(Fresh<I>(), run);
    hide After, Runs;
    assert Framed(w.st) && Claims(w);
    if s in w.st.socks {
      assert Linked(w.st, s) && Settled(w.st, s);
    }
    assert forall t :: t in w.taken ==> Batch(w.taken[t], w.st.outstanding);
  }
}
