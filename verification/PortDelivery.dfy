/**
 The other half of what epoll_wait reports, over whole runs of a port: all that a completion packet
 signals and that the latest request for the socket asks for is in the reports of the thread that handles
 the packet; and all that is asked for is in the polls that are submitted.
 */
module PortDelivery {
  import opened Queues
  import opened PortModel
  import opened PortRuns
  import opened PortReports

  // ---- Single events -----------------------------------------------------------------------

  // One of the 32 bits of an epoll mask
  predicate OneBit(bit: bv32) {
    bit != 0 && bit & (bit - 1) == 0
  }

  predicate Has(events: bv32, bit: bv32) {
    events & bit != 0
  }

  // The AFD events that are reported as this epoll event
  function Causes(bit: bv32): bv32 {
    if bit == EPOLLIN || bit == EPOLLRDNORM then
      AFD_POLL_RECEIVE | AFD_POLL_ACCEPT | AFD_POLL_DISCONNECT | AFD_POLL_CONNECT_FAIL
    else if bit == EPOLLPRI || bit == EPOLLRDBAND then AFD_POLL_RECEIVE_EXPEDITED
    else if bit == EPOLLOUT || bit == EPOLLWRNORM then AFD_POLL_SEND | AFD_POLL_CONNECT_FAIL
    else if bit == EPOLLWRBAND then AFD_POLL_SEND
    else if bit == EPOLLERR then AFD_POLL_CONNECT_FAIL
    else if bit == EPOLLHUP then AFD_POLL_ABORT
    else if bit == EPOLLRDHUP then AFD_POLL_DISCONNECT | AFD_POLL_CONNECT_FAIL
    else 0
  }

  predicate Signalled(afd: bv32, bit: bv32) {
    Has(afd, Causes(bit))
  }

  // Errors and hang-ups are asked for in any case.
  predicate Asked(asked: bv32, bit: bv32) {
    Has(asked, bit) || bit == EPOLLERR || bit == EPOLLHUP
  }

  lemma EachBit(afd: bv32, bit: bv32)
    requires OneBit(bit)
    ensures Has(ToEpoll(afd), bit) <==> Signalled(afd, bit)
  {
  }

  lemma EachAsked(asked: bv32, bit: bv32)
    requires OneBit(bit)
    ensures Has(WithErrors(asked), bit) <==> Asked(asked, bit)
  {
    if bit != EPOLLERR && bit != EPOLLHUP {
      NotErrors(bit);
      InEither(asked, EPOLLERR | EPOLLHUP, bit);
    }
  }

  lemma NotErrors(bit: bv32)
    requires OneBit(bit) && bit != EPOLLERR && bit != EPOLLHUP
    ensures (EPOLLERR | EPOLLHUP) & bit == 0
  {
  }

  lemma InEither(x: bv32, y: bv32, bit: bv32)
    requires y & bit == 0
    ensures (x | y) & bit == x & bit
  {
  }

  lemma BothBits(x: bv32, y: bv32, bit: bv32)
    requires OneBit(bit)
    ensures Has(x & y, bit) <==> Has(x, bit) && Has(y, bit)
  {
  }

  lemma LowestBit(x: bv32)
    requires x != 0
    ensures OneBit(x & (!x + 1)) && Has(x, x & (!x + 1))
  {
  }

  lemma WantedBits(x: bv32, y: bv32, bit: bv32)
    requires OneBit(bit)
    ensures Has(Wanted(x, y), bit) <==> Has(x, bit) && Has(y, bit)
  {
    hide OneBit, Has;
    BothBits(x, y, bit);
  }

  // ---- One packet --------------------------------------------------------------------------

  // What a completion packet says of an event
  predicate Tells(outcome: Outcome, bit: bv32) {
    match outcome
    case WasCancelled => false
    case Failed => bit == EPOLLERR
    case NoHandles => false
    case Ready(afd) => afd & AFD_POLL_LOCAL_CLOSE == 0 && Signalled(afd, bit)
  }

  // Told and asked for, unless the request was for one report only and has had it
  predicate Due(ask: Ask, outcome: Outcome, bit: bv32) {
    && OneBit(bit) && Tells(outcome, bit) && Asked(ask.ev.events, bit)
    && (Has(ask.ev.events, EPOLLONESHOT) ==> ask.reports == 0)
  }

  // All that is due, nothing else, and the data of the request
  ghost predicate Covers(event: EpollEvent, ask: Ask, outcome: Outcome) {
    event.data == ask.ev.data && forall bit :: OneBit(bit) ==> (Has(event.events, bit) <==> Due(ask, outcome, bit))
  }

  lemma NoBits(bit: bv32)
    ensures !Has(0, bit)
  {
  }

  lemma ErrorBit(bit: bv32)
    requires OneBit(bit)
    ensures Has(EPOLLERR, bit) <==> bit == EPOLLERR
  {
  }

  // The events found, filtered by the mask that an honest socket has
  lemma FoundIsDue(sock: Sock, ask: Ask, outcome: Outcome, bit: bv32)
    requires Honest(sock, ask) && !Closed(outcome) && OneBit(bit)
    ensures Has(Wanted(EventsOf(outcome), sock.userEvents), bit) <==> Due(ask, outcome, bit)
  {
    hide ToEpoll, WithErrors, OneBit, Asked, Signalled, Wanted;
    NoBits(bit);
    WantedBits(EventsOf(outcome), sock.userEvents, bit);
    if OneShot(ask.ev.events) && ask.reports > 0 {
      assert Has(ask.ev.events, EPOLLONESHOT);
    } else {
      EachAsked(ask.ev.events, bit);
      match outcome
      case Ready(afd) => EachBit(afd, bit);
      case Failed => ErrorBit(bit);
      case _ =>
    }
  }

  lemma FoundCovers(sock: Sock, ask: Ask, outcome: Outcome)
    requires Honest(sock, ask) && !Closed(outcome)
    ensures var events := Wanted(EventsOf(outcome), sock.userEvents);
      && Covers(EpollEvent(events, sock.userData), ask, outcome)
      && (events != 0 <==> exists bit :: Due(ask, outcome, bit))
  {
    hide EventsOf, Due, Wanted, Has, Closed, OneBit;
    var events := Wanted(EventsOf(outcome), sock.userEvents);
    forall bit | OneBit(bit) ensures Has(events, bit) <==> Due(ask, outcome, bit) {
      FoundIsDue(sock, ask, outcome, bit);
    }
    SomeBit(events, ask, outcome);
  }

  lemma SomeBit(events: bv32, ask: Ask, outcome: Outcome)
    requires forall bit :: OneBit(bit) ==> (Has(events, bit) <==> Due(ask, outcome, bit))
    ensures events != 0 <==> exists bit :: Due(ask, outcome, bit)
  {
    hide OneBit, Tells, Asked, Has;
    if events != 0 {
      LowestBit(events);
      assert Due(ask, outcome, events & (!events + 1));
    } else {
      forall bit ensures !Due(ask, outcome, bit) {
        NoBits(bit);
      }
    }
  }

  lemma ClosedIsSilent(ask: Ask, outcome: Outcome, bit: bv32)
    requires Closed(outcome)
    ensures !Due(ask, outcome, bit)
  {
  }

  // What handling a packet reports: one event exactly when something is due to a socket that is not being
  // deleted, and then all that is due.
  ghost predicate Answered<I>(sock: Sock, ask: Ask, p: Packet<I>, reports: seq<Report<I>>) {
    && ((exists r :: r in reports && r.s == p.s) <==> !sock.deletePending && exists bit :: Due(ask, p.outcome, bit))
    && (forall r :: r in reports && r.s == p.s ==> r.ask == ask && Covers(r.event, ask, p.outcome))
  }

  lemma FedAnswered<I>(st: State<I>, p: Packet<I>, asks: map<I, Ask>)
    requires p.s in st.socks && p.s in asks && Honest(st.socks[p.s], asks[p.s])
    ensures Answered(st.socks[p.s], asks[p.s], p, FedNotes(st, p.s, p.outcome, asks).1)
  {
    hide Honest, EventsOf, Wanted, Due, Covers, Closed, OneShot, Deleted, Requested;
    var sock, ask := st.socks[p.s], asks[p.s];
    if Closed(p.outcome) {
      forall bit ensures !Due(ask, p.outcome, bit) {
        ClosedIsSilent(ask, p.outcome, bit);
      }
    } else if !sock.deletePending {
      FoundCovers(sock, ask, p.outcome);
      FedNoted(st, p, asks);
    }
  }

  lemma FedNoted<I>(st: State<I>, p: Packet<I>, asks: map<I, Ask>)
    requires p.s in st.socks && p.s in asks && !st.socks[p.s].deletePending && !Closed(p.outcome)
    ensures var sock := st.socks[p.s];
      var events := Wanted(EventsOf(p.outcome), sock.userEvents);
      FedNotes(st, p.s, p.outcome, asks).1
        == if events == 0 then [] else [Report(p.s, EpollEvent(events, sock.userData), asks[p.s])]
  {
    hide EventsOf, Wanted, Closed, OneShot, Deleted, Requested;
  }

  // ---- A batch -----------------------------------------------------------------------------

  // Handling a packet leaves the other sockets and their requests alone.
  lemma OthersFed<I>(st: State<I>, p: Packet<I>, asks: map<I, Ask>, x: I)
    requires p.s in st.socks && p.s in asks && x in st.socks && x != p.s && x in asks
    ensures x in Fed(st, p.s, p.outcome).0.socks && Fed(st, p.s, p.outcome).0.socks[x] == st.socks[x]
    ensures x in FedNotes(st, p.s, p.outcome, asks).0 && FedNotes(st, p.s, p.outcome, asks).0[x] == asks[x]
    ensures forall r :: r in FedNotes(st, p.s, p.outcome, asks).1 ==> r.s == p.s
    ensures |FedNotes(st, p.s, p.outcome, asks).1| <= 1
  {
    hide EventsOf, Wanted, Closed, OneShot, ToAfd;
  }

  lemma SameAnswered<I>(sock: Sock, ask: Ask, p: Packet<I>, one: seq<Report<I>>, all: seq<Report<I>>)
    requires Answered(sock, ask, p, one) && forall r: Report<I> | r.s == p.s :: r in one <==> r in all
    ensures Answered(sock, ask, p, all)
  {
    hide Due, Covers;
  }

  ghost predicate AllAnswered<I>(st: State<I>, batch: seq<Packet<I>>, asks: map<I, Ask>, reports: seq<Report<I>>) {
    && (forall p :: p in batch ==> p.s in st.socks && p.s in asks && Answered(st.socks[p.s], asks[p.s], p, reports))
    && (forall r :: r in reports ==> exists p :: p in batch && p.s == r.s)
    && (forall i, j :: 0 <= i < j < |reports| ==> reports[i].s != reports[j].s)
  }

  lemma {:induction false} BatchAnswered<I>(st: State<I>, batch: seq<Packet<I>>, asks: map<I, Ask>)
    requires Inv(st) && Batch(batch, st.outstanding) && AllHonest(st, asks)
    ensures AllAnswered(st, batch, asks, BatchNotes(st, batch, asks).1)
    decreases |batch|
  {
    hide Inv, Batch, AllHonest, Fed, FedNotes, AllAnswered;
    if batch == [] {
      NoneAnswered(st, batch, asks);
    } else {
      FedTail(st, batch, asks);
      var p := batch[0];
      IsHonest(st, p.s, asks);
      FedAnswered(st, p, asks);
      var st', asks' := Fed(st, p.s, p.outcome).0, FedNotes(st, p.s, p.outcome, asks).0;
      BatchAnswered(st', batch[1..], asks');
      MoreAnswered(st, batch, asks, FedNotes(st, p.s, p.outcome, asks).1, BatchNotes(st', batch[1..], asks').1);
    }
  }

  lemma NoneAnswered<I>(st: State<I>, batch: seq<Packet<I>>, asks: map<I, Ask>)
    requires batch == []
    ensures AllAnswered(st, batch, asks, [])
  {
  }

  lemma MoreAnswered<I>(st: State<I>, batch: seq<Packet<I>>, asks: map<I, Ask>,
                        first: seq<Report<I>>, more: seq<Report<I>>)
    requires Inv(st) && Batch(batch, st.outstanding) && batch != [] && AllHonest(st, asks)
    requires var p := batch[0];
      && p.s in st.socks && p.s in asks && Answered(st.socks[p.s], asks[p.s], p, first)
      && first == FedNotes(st, p.s, p.outcome, asks).1
      && AllAnswered(Fed(st, p.s, p.outcome).0, batch[1..], FedNotes(st, p.s, p.outcome, asks).0, more)
    ensures AllAnswered(st, batch, asks, first + more)
  {
    hide Inv, AllHonest, Answered, Fed, FedNotes, Batch;
    var p := batch[0];
    OnlyItsOwn(st, p, asks);
    RestDiffers(batch, st.outstanding);
    SameAnswered(st.socks[p.s], asks[p.s], p, first, first + more);
    forall q | q in batch[1..]
      ensures q.s in st.socks && q.s in asks && Answered(st.socks[q.s], asks[q.s], q, first + more)
    {
      Allocated(st, batch, q, asks);
      OthersFed(st, p, asks, q.s);
      SameAnswered(st.socks[q.s], asks[q.s], q, more, first + more);
    }
  }

  lemma RestDiffers<I>(batch: seq<Packet<I>>, outstanding: multiset<I>)
    requires Batch(batch, outstanding) && batch != []
    ensures forall q :: q in batch <==> q == batch[0] || q in batch[1..]
    ensures forall q :: q in batch[1..] ==> q.s != batch[0].s
  {
    assert batch == [batch[0]] + batch[1..];
    forall q | q in batch[1..] ensures q.s != batch[0].s {
      var i :| 0 <= i < |batch[1..]| && batch[1..][i] == q;
      assert batch[i + 1] == q;
    }
  }

  lemma Allocated<I>(st: State<I>, batch: seq<Packet<I>>, q: Packet<I>, asks: map<I, Ask>)
    requires Inv(st) && Batch(batch, st.outstanding) && q in batch && AllHonest(st, asks)
    ensures q.s in st.socks && q.s in asks
  {
    hide Honest;
    assert Framed(st);
  }

  lemma OnlyItsOwn<I>(st: State<I>, p: Packet<I>, asks: map<I, Ask>)
    requires p.s in st.socks && p.s in asks
    ensures forall r :: r in FedNotes(st, p.s, p.outcome, asks).1 ==> r.s == p.s
    ensures |FedNotes(st, p.s, p.outcome, asks).1| <= 1
  {
    hide Fed;
  }

  // ---- Runs --------------------------------------------------------------------------------

  // Where a run is before its step i, with the latest requests
  ghost function At<I>(w: World<I>, run: seq<Choice<I>>, asks: map<I, Ask>, i: nat): (at: (World<I>, map<I, Ask>))
    requires WorldInv(w) && Runs(w, run) && AllHonest(w.st, asks) && i <= |run|
    ensures WorldInv(at.0) && AllHonest(at.0.st, at.1) && (i < |run| ==> Enabled(at.0, run[i].step))
    decreases i
  {
    if i == 0 then (w, asks)
    else
      var c := run[0];
      StepKeeps(w, c.step, c.kernel, c.again);
      StepHonest(w, c.step, c.kernel, c.again, asks);
      At(Next(w, c.step, c.kernel, c.again), run[1..], Notes(w, c.step, asks).0, i - 1)
  }

  lemma {:induction false} AtEnd<I>(w: World<I>, run: seq<Choice<I>>, asks: map<I, Ask>)
    requires WorldInv(w) && Runs(w, run) && AllHonest(w.st, asks)
    ensures At(w, run, asks, |run|).0 == After(w, run)
    decreases |run|
  {
    hide WorldInv, Next, Enabled, Notes, AllHonest;
    if run != [] {
      var c := run[0];
      StepKeeps(w, c.step, c.kernel, c.again);
      StepHonest(w, c.step, c.kernel, c.again, asks);
      AtEnd(Next(w, c.step, c.kernel, c.again), run[1..], Notes(w, c.step, asks).0);
    }
  }

  // What a step reports is part of what the run reports.
  lemma {:induction false} StepReports<I>(w: World<I>, run: seq<Choice<I>>, asks: map<I, Ask>, i: nat)
    requires WorldInv(w) && Runs(w, run) && AllHonest(w.st, asks) && i < |run|
    ensures var (w', asks') := At(w, run, asks, i);
      forall r :: r in Notes(w', run[i].step, asks').1 ==> r in Reports(w, run, asks)
    decreases i
  {
    hide WorldInv, Next, Enabled, Notes, AllHonest;
    var c := run[0];
    StepKeeps(w, c.step, c.kernel, c.again);
    StepHonest(w, c.step, c.kernel, c.again, asks);
    if i > 0 {
      StepReports(Next(w, c.step, c.kernel, c.again), run[1..], Notes(w, c.step, asks).0, i - 1);
    }
  }

  // In every run, whatever the kernel answers: when a thread resumes, each packet it was handed is answered.
  // A socket that is not being deleted is reported exactly when an event is due to it, once, and with all
  // that is due; these are the events that epoll_wait gets.
  lemma EveryPacketIsAnswered<I>(run: seq<Choice<I>>, i: nat)
    requires WorldInv(Fresh<I>()) && Runs(Fresh<I>(), run) && AllHonest(Fresh<I>().st, map[])
    requires i < |run| && run[i].step.Leave?
    ensures var (w, asks) := At(Fresh<I>(), run, map[], i);
      var (thread, reports) := (run[i].step.thread, Notes(w, run[i].step, asks).1);
      && thread in w.taken && AllAnswered(w.st, w.taken[thread], asks, reports)
      && Events(reports) == Resumed(w, thread).1
      && forall r :: r in reports ==> r in Reports(Fresh<I>(), run, map[])
  {
    hide AllHonest, AllAnswered, Runs, Reports, BatchNotes, Batch, Inv, Claims, Resumed, Events, Truthful, AllFed;
    var (w, asks) := At(Fresh<I>(), run, map[], i);
    var step := run[i].step;
    StepReports(Fresh<I>(), run, map[], i);
    InHand(w, step.thread);
    BatchAnswered(w.st, w.taken[step.thread], asks);
    LeaveHonest(w, step.thread, step.again, run[i].kernel, run[i].again, asks);
  }

  // ---- What is polled ----------------------------------------------------------------------

  // A poll watches every AFD event that is reported as an event asked for, and whether the socket is closed.
  ghost predicate Watches(polled: bv32, asked: bv32) {
    && polled & AFD_POLL_LOCAL_CLOSE != 0
    && forall bit :: OneBit(bit) && Asked(asked, bit) ==> Causes(bit) & !polled == 0
  }

  lemma PolledFor(e: bv32, bit: bv32)
    requires OneBit(bit) && Has(e, EPOLLERR) && (Has(e, bit) || Causes(bit) == 0)
    ensures Causes(bit) & !ToAfd(e) == 0
  {
  }

  lemma AlwaysClosed(e: bv32)
    ensures ToAfd(e) & AFD_POLL_LOCAL_CLOSE != 0
  {
  }

  lemma KnownIsPending(user: bv32, pending: bv32, bit: bv32)
    requires OneBit(bit) && Unwatched(user, pending) == 0 && Has(user, bit)
    ensures Has(pending, bit) || Causes(bit) == 0
  {
    if Causes(bit) != 0 {
      assert bit & KNOWN_EPOLL_EVENTS == bit;
    }
  }

  lemma PendingWatches(asked: bv32, pending: bv32)
    requires Unwatched(WithErrors(asked), pending) == 0
    ensures Watches(ToAfd(pending), asked)
  {
    hide ToAfd, WithErrors, Unwatched, Has, Causes, Asked;
    AlwaysClosed(pending);
    assert OneBit(EPOLLERR) && Asked(asked, EPOLLERR) && Causes(EPOLLERR) != 0 by { ErrorsAreReal(asked); }
    EachAsked(asked, EPOLLERR);
    KnownIsPending(WithErrors(asked), pending, EPOLLERR);
    forall bit | OneBit(bit) && Asked(asked, bit) ensures Causes(bit) & !ToAfd(pending) == 0 {
      EachAsked(asked, bit);
      KnownIsPending(WithErrors(asked), pending, bit);
      PolledFor(pending, bit);
    }
  }

  lemma ErrorsAreReal(asked: bv32)
    ensures OneBit(EPOLLERR) && Asked(asked, EPOLLERR) && Causes(EPOLLERR) != 0
  {
  }

  // After any run: as long as the kernel refused nothing and a thread waits, a registered socket has a poll
  // outstanding, and unless that has been cancelled to be replaced, or the request was for one report and
  // has had it, it watches all that the latest request asks for.
  lemma AskedIsPolled<I>(run: seq<Choice<I>>, s: I)
    requires WorldInv(Fresh<I>()) && Runs(Fresh<I>(), run) && AllHonest(Fresh<I>().st, map[])
    ensures var (w, asks) := At(Fresh<I>(), run, map[], |run|);
      && w == After(Fresh<I>(), run)
      && (Registered(w.st, s) && w.taken != map[] && !w.refused ==>
            && s in asks && s in w.st.outstanding
            && (w.st.socks[s].status == Cancelled || (OneShot(asks[s].ev.events) && asks[s].reports > 0)
                || Watches(w.st.socks[s].polled, asks[s].ev.events)))
  {
    hide AllHonest, Runs, Watches, Unwatched, WithErrors, OneShot, WorldInv;
    var (w, asks) := At(Fresh<I>(), run, map[], |run|);
    AtEnd(Fresh<I>(), run, map[]);
    if Registered(w.st, s) && w.taken != map[] && !w.refused {
      NoLostInterest(run, s);
      IsHonest(w.st, s, asks);
      var sock := w.st.socks[s];
      if sock.status != Cancelled && !(OneShot(asks[s].ev.events) && asks[s].reports > 0) {
        Submitted(w, s);
        PendingWatches(asks[s].ev.events, sock.pendingEvents);
      }
    }
  }

  lemma Submitted<I>(w: World<I>, s: I)
    requires WorldInv(w) && s in w.st.socks && w.st.socks[s].status == Pending
    ensures w.st.socks[s].polled == ToAfd(w.st.socks[s].pendingEvents)
  {
    hide ToAfd;
    assert Linked(w.st, s);
  }
}
