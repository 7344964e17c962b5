/**
 What epoll_wait reports, over whole runs of a port: only what the latest request for the socket asks
 for, with the data of that request, and with EPOLLONESHOT only once for each request.
 */
module PortReports {
  import opened PortModel
  import opened PortRuns

  // The latest epoll_ctl for a socket, and how often the socket was reported since
  datatype Ask = Ask(ev: EpollEvent, reports: nat)

  // An event that was reported, and the request at that time
  datatype Report<I> = Report(s: I, event: EpollEvent, ask: Ask)

  predicate Truthful<I>(r: Report<I>) {
    && r.event.data == r.ask.ev.data
    && r.event.events != 0 && r.event.events & !WithErrors(r.ask.ev.events) == 0
    && (OneShot(r.ask.ev.events) ==> r.ask.reports == 0)
  }

  // What the fields of a socket say of the latest request: it is disarmed exactly when it was a one-shot
  // request and has been reported.
  predicate Honest(sock: Sock, ask: Ask) {
    && sock.userData == ask.ev.data
    && sock.userEvents == if OneShot(ask.ev.events) && ask.reports > 0 then 0 else WithErrors(ask.ev.events)
  }

  ghost predicate AllHonest<I>(st: State<I>, asks: map<I, Ask>) {
    forall s :: s in st.socks ==> s in asks && Honest(st.socks[s], asks[s])
  }

  // ---- Masks -------------------------------------------------------------------------------

  lemma SameShot(e: bv32)
    ensures OneShot(WithErrors(e)) == OneShot(e) && !OneShot(0)
  {
  }

  lemma WantedIsAsked(found: bv32, user: bv32)
    ensures Wanted(found, user) & !user == 0
  {
  }

  // ---- Steps that report nothing -----------------------------------------------------------

  // The sockets that are left have the same interest as before.
  ghost predicate SameInterest<I>(st: State<I>, st': State<I>) {
    forall s :: s in st'.socks ==>
      && s in st.socks
      && st'.socks[s].userEvents == st.socks[s].userEvents && st'.socks[s].userData == st.socks[s].userData
  }

  lemma SameHonest<I>(st: State<I>, st': State<I>, asks: map<I, Ask>)
    requires AllHonest(st, asks) && SameInterest(st, st')
    ensures AllHonest(st', asks)
  {
    hide WithErrors, OneShot;
  }

  lemma DeletedSame<I>(st: State<I>, s: I, force: bool, cancelled: bool)
    requires s in st.socks
    ensures SameInterest(st, Deleted(st, s, force, cancelled))
  {
    hide ToAfd, Unqueued;
  }

  lemma UpdatedSame<I>(st: State<I>, s: I, answer: Submission, cancelled: bool)
    requires s in st.socks
    ensures SameInterest(st, Updated(st, s, answer, cancelled).0)
  {
    hide Deleted, Unwatched;
    DeletedSame(st, s, false, cancelled);
  }

  lemma {:induction false} AllUpdatedSame<I>(st: State<I>, kernel: I -> Answer)
    requires Inv(st)
    ensures SameInterest(st, AllUpdated(st, kernel).0)
    decreases |st.updates|
  {
    hide Inv, Updated;
    if st.updates != [] {
      var s, answer := st.updates[0], kernel(st.updates[0]);
      QueuedIsThere(st, s);
      UpdatedShrinks(st, s, answer.submission, answer.cancelled);
      UpdatedKeeps(st, s, answer.submission, answer.cancelled);
      UpdatedSame(st, s, answer.submission, answer.cancelled);
      var (st', ok) := Updated(st, s, answer.submission, answer.cancelled);
      if ok {
        AllUpdatedSame(st', kernel);
      }
    }
  }

  lemma QueuedIsThere<I>(st: State<I>, s: I)
    requires Inv(st) && s in st.updates
    ensures s in st.socks
  {
  }

  lemma RefreshedSame<I>(w: World<I>, kernel: I -> Answer)
    requires Inv(w.st)
    ensures SameInterest(w.st, Refreshed(w, kernel).0.st)
    ensures SameInterest(w.st, IfPolling(w, kernel).st)
  {
    hide Inv;
    AllUpdatedSame(w.st, kernel);
  }

  lemma EnteredSame<I>(w: World<I>, thread: nat, kernel: I -> Answer, again: I -> Answer)
    requires Inv(w.st)
    ensures SameInterest(w.st, Entered(w, thread, kernel, again).st)
  {
    hide Inv;
    AllUpdatedKeeps(w.st, kernel);
    RefreshedSame(w, kernel);
    RefreshedSame(Refreshed(w, kernel).0, again);
  }

  // ---- Reports -----------------------------------------------------------------------------

  function FedNotes<I(==)>(st: State<I>, s: I, outcome: Outcome, asks: map<I, Ask>): (map<I, Ask>, seq<Report<I>>)
    requires s in st.socks && s in asks
  {
    var events := Fed(st, s, outcome).1;
    if events == [] then (asks, [])
    else (asks[s := Ask(asks[s].ev, asks[s].reports + 1)], [Report(s, events[0], asks[s])])
  }

  // What is left of a socket, and what is reported, when its poll has found something
  lemma ReportHonest<I>(s: I, sock: Sock, found: bv32, ask: Ask)
    requires Honest(sock, ask)
    ensures var events := Wanted(found, sock.userEvents);
      events != 0 ==>
        && Honest(if OneShot(sock.userEvents) then sock.(userEvents := 0) else sock, Ask(ask.ev, ask.reports + 1))
        && Truthful(Report(s, EpollEvent(events, sock.userData), ask))
  {
    hide Wanted, WithErrors, OneShot;
    SameShot(ask.ev.events);
    WantedIsAsked(found, sock.userEvents);
    NoneOfNone(found);
  }

  lemma ReturnedHonest<I>(st: State<I>, s: I, asks: map<I, Ask>)
    requires s in st.socks && AllHonest(st, asks)
    ensures AllHonest(Returned(st, s), asks)
  {
    hide WithErrors, OneShot;
  }

  lemma RequestedHonest<I>(st: State<I>, s: I, sock: Sock, ask: Ask, asks: map<I, Ask>)
    requires s in st.socks && AllHonest(st, asks) && Honest(sock, ask)
    ensures AllHonest(Requested(WithSock(st, s, sock), s), asks[s := ask])
  {
    hide Honest;
  }

  lemma FedHonest<I>(st: State<I>, s: I, outcome: Outcome, asks: map<I, Ask>)
    requires s in st.socks && AllHonest(st, asks)
    ensures var (asks', reports) := FedNotes(st, s, outcome, asks);
      && AllHonest(Fed(st, s, outcome).0, asks') && (forall r :: r in reports ==> Truthful(r))
      && |Fed(st, s, outcome).1| == |reports| <= 1 && (reports != [] ==> reports[0].event == Fed(st, s, outcome).1[0])
  {
    hide AllHonest, Honest, ToEpoll, EventsOf, Closed, Deleted, Wanted, OneShot, Requested, Truthful;
    var st' := Returned(st, s);
    IsHonest(st, s, asks);
    ReturnedHonest(st, s, asks);
    if st'.socks[s].deletePending || Closed(outcome) {
      DeletedSame(st', s, false, false);
      SameHonest(st', Deleted(st', s, false, false), asks);
    } else {
      var sock, found := st'.socks[s], EventsOf(outcome);
      IsHonest(st', s, asks);
      ReportHonest(s, sock, found, asks[s]);
      if Wanted(found, sock.userEvents) == 0 {
        assert asks[s := asks[s]] == asks;
        RequestedHonest(st', s, sock, asks[s], asks);
      } else {
        var sock' := if OneShot(sock.userEvents) then sock.(userEvents := 0) else sock;
        RequestedHonest(st', s, sock', Ask(asks[s].ev, asks[s].reports + 1), asks);
      }
    }
  }

  lemma IsHonest<I>(st: State<I>, s: I, asks: map<I, Ask>)
    requires s in st.socks && AllHonest(st, asks)
    ensures s in asks && Honest(st.socks[s], asks[s])
  {
  }

  lemma FedTail<I>(st: State<I>, batch: seq<Packet<I>>, asks: map<I, Ask>)
    requires Inv(st) && Batch(batch, st.outstanding) && batch != [] && AllHonest(st, asks)
    ensures batch[0].s in st.outstanding && batch[0].s in st.socks && batch[0].s in asks
    ensures Inv(Fed(st, batch[0].s, batch[0].outcome).0)
    ensures Batch(batch[1..], Fed(st, batch[0].s, batch[0].outcome).0.outstanding)
    ensures AllHonest(Fed(st, batch[0].s, batch[0].outcome).0, FedNotes(st, batch[0].s, batch[0].outcome, asks).0)
  {
    hide Inv, Fed, Batch, FedNotes;
    BatchTail(st, batch);
    FedKeeps(st, batch[0].s, batch[0].outcome);
    FedHonest(st, batch[0].s, batch[0].outcome, asks);
  }

  // port__feed_events
  ghost function BatchNotes<I>(st: State<I>, batch: seq<Packet<I>>, asks: map<I, Ask>): (map<I, Ask>, seq<Report<I>>)
    requires Inv(st) && Batch(batch, st.outstanding) && AllHonest(st, asks)
    decreases |batch|
  {
    if batch == [] then (asks, [])
    else
      FedTail(st, batch, asks);
      var (asks', first) := FedNotes(st, batch[0].s, batch[0].outcome, asks);
      var (asks'', more) := BatchNotes(Fed(st, batch[0].s, batch[0].outcome).0, batch[1..], asks');
      (asks'', first + more)
  }

  function Events<I>(reports: seq<Report<I>>): seq<EpollEvent> {
    seq(|reports|, i requires 0 <= i < |reports| => reports[i].event)
  }

  // The reports are the events that the thread gets.
  lemma {:induction false} BatchHonest<I>(st: State<I>, batch: seq<Packet<I>>, asks: map<I, Ask>)
    requires Inv(st) && Batch(batch, st.outstanding) && AllHonest(st, asks)
    ensures var (asks', reports) := BatchNotes(st, batch, asks);
      && AllHonest(AllFed(st, batch).0, asks') && (forall r :: r in reports ==> Truthful(r))
      && Events(reports) == AllFed(st, batch).1
    decreases |batch|
  {
    hide Inv, Fed, Batch, FedNotes, Truthful;
    if batch != [] {
      FedTail(st, batch, asks);
      var s, outcome := batch[0].s, batch[0].outcome;
      FedHonest(st, s, outcome, asks);
      BatchHonest(Fed(st, s, outcome).0, batch[1..], FedNotes(st, s, outcome, asks).0);
      Joined(FedNotes(st, s, outcome, asks).1,
             BatchNotes(Fed(st, s, outcome).0, batch[1..], FedNotes(st, s, outcome, asks).0).1, Fed(st, s, outcome).1);
    }
  }

  lemma Joined<I>(first: seq<Report<I>>, more: seq<Report<I>>, events: seq<EpollEvent>)
    requires |first| == |events| <= 1 && (first != [] ==> first[0].event == events[0])
    ensures Events(first + more) == events + Events(more)
  {
  }

  // ---- Runs --------------------------------------------------------------------------------

  // The requests after a step, and what it reports: epoll_ctl makes a request, epoll_wait reports.
  ghost function Notes<I>(w: World<I>, step: Step<I>, asks: map<I, Ask>): (map<I, Ask>, seq<Report<I>>)
    requires WorldInv(w) && Enabled(w, step) && AllHonest(w.st, asks)
  {
    match step
    case Add(s, socket, ev) => (if socket in w.st.tree then asks else asks[s := Ask(ev, 0)], [])
    case Mod(socket, ev) => (if socket in w.st.tree then asks[w.st.tree[socket] := Ask(ev, 0)] else asks, [])
    case Leave(thread, _) =>
      InHand(w, thread);
      BatchNotes(w.st, w.taken[thread], asks)
    case _ => (asks, [])
  }

  lemma SetHonest<I>(st: State<I>, s: I, ev: EpollEvent, asks: map<I, Ask>)
    requires s in st.socks && forall x :: x in st.socks && x != s ==> x in asks && Honest(st.socks[x], asks[x])
    ensures AllHonest(EventSet(st, s, ev), asks[s := Ask(ev, 0)])
  {
    hide WithErrors, OneShot, Unwatched;
  }

  lemma PollingHonest<I>(w: World<I>, kernel: I -> Answer, asks: map<I, Ask>)
    requires Inv(w.st) && AllHonest(w.st, asks)
    ensures AllHonest(IfPolling(w, kernel).st, asks)
  {
    hide Inv, IfPolling, AllHonest;
    RefreshedSame(w, kernel);
    SameHonest(w.st, IfPolling(w, kernel).st, asks);
  }

  lemma AddHonest<I>(w: World<I>, s: I, socket: nat, ev: EpollEvent, kernel: I -> Answer, asks: map<I, Ask>)
    requires WorldInv(w) && Enabled(w, Add(s, socket, ev)) && AllHonest(w.st, asks)
    ensures AllHonest(Next(w, Add(s, socket, ev), kernel, kernel).st, Notes(w, Add(s, socket, ev), asks).0)
  {
    hide Inv, Claims, EventSet, IfPolling, Honest;
    if socket !in w.st.tree {
      AddedKeeps(w.st, s, socket, ev);
      var st := Created(w.st, s, socket);
      SetHonest(st, s, ev, asks);
      PollingHonest(w.(st := EventSet(st, s, ev)), kernel, asks[s := Ask(ev, 0)]);
    }
  }

  lemma ModHonest<I>(w: World<I>, socket: nat, ev: EpollEvent, kernel: I -> Answer, asks: map<I, Ask>)
    requires WorldInv(w) && AllHonest(w.st, asks)
    ensures AllHonest(Next(w, Mod(socket, ev), kernel, kernel).st, Notes(w, Mod(socket, ev), asks).0)
  {
    hide Inv, Claims, EventSet, IfPolling, Honest;
    if socket in w.st.tree {
      ModifiedKeeps(w.st, socket, ev);
      var s := w.st.tree[socket];
      SetHonest(w.st, s, ev, asks);
      PollingHonest(w.(st := EventSet(w.st, s, ev)), kernel, asks[s := Ask(ev, 0)]);
    }
  }

  lemma LeaveHonest<I>(w: World<I>, thread: nat, more: bool, kernel: I -> Answer, again: I -> Answer, asks: map<I, Ask>)
    requires WorldInv(w) && thread in w.taken && AllHonest(w.st, asks)
    ensures var (asks', reports) := Notes(w, Leave(thread, more), asks);
      && AllHonest(Left(w, thread, more, kernel, again).st, asks') && (forall r :: r in reports ==> Truthful(r))
      && Events(reports) == Resumed(w, thread).1
  {
    hide Inv, Claims, Batch, AllFed, BatchNotes, Entered, IfPolling, AllHonest, Truthful, Events;
    InHand(w, thread);
    AllFedKeeps(w.st, w.taken[thread]);
    BatchHonest(w.st, w.taken[thread], asks);
    var (w', events) := Resumed(w, thread);
    var asks' := BatchNotes(w.st, w.taken[thread], asks).0;
    EnteredSame(w', thread, kernel, again);
    SameHonest(w'.st, Entered(w', thread, kernel, again).st, asks');
    PollingHonest(w', kernel, asks');
  }

  lemma StepHonest<I>(w: World<I>, step: Step<I>, kernel: I -> Answer, again: I -> Answer, asks: map<I, Ask>)
    requires WorldInv(w) && Enabled(w, step) && AllHonest(w.st, asks)
    ensures var (asks', reports) := Notes(w, step, asks);
      AllHonest(Next(w, step, kernel, again).st, asks') && forall r :: r in reports ==> Truthful(r)
  {
    hide Inv, Claims, Truthful, AllHonest, EventSet, Created, Deleted, IfPolling, Entered, Left, BatchNotes;
    match step
    case Add(s, socket, ev) => AddHonest(w, s, socket, ev, kernel, asks);
    case Mod(socket, ev) => ModHonest(w, socket, ev, kernel, asks);
    case Del(socket) =>
      if socket in w.st.tree {
        ModifiedKeeps(w.st, socket, EpollEvent(0, 0));
        var s := w.st.tree[socket];
        DeletedSame(w.st, s, false, kernel(s).cancelled);
        SameHonest(w.st, Deleted(w.st, s, false, kernel(s).cancelled), asks);
      }
    case Enter(thread) =>
      EnteredSame(w, thread, kernel, again);
      SameHonest(w.st, Entered(w, thread, kernel, again).st, asks);
    case Deliver(_, _) =>
    case Leave(thread, more) => LeaveHonest(w, thread, more, kernel, again, asks);
  }

  // All that is reported in a run, by whichever thread
  ghost function Reports<I>(w: World<I>, run: seq<Choice<I>>, asks: map<I, Ask>): seq<Report<I>>
    requires WorldInv(w) && Runs(w, run) && AllHonest(w.st, asks)
    decreases |run|
  {
    if run == [] then []
    else
      var c := run[0];
      StepKeeps(w, c.step, c.kernel, c.again);
      StepHonest(w, c.step, c.kernel, c.again, asks);
      Notes(w, c.step, asks).1 + Reports(Next(w, c.step, c.kernel, c.again), run[1..], Notes(w, c.step, asks).0)
  }

  lemma {:induction false} RunTruthful<I>(w: World<I>, run: seq<Choice<I>>, asks: map<I, Ask>)
    requires WorldInv(w) && Runs(w, run) && AllHonest(w.st, asks)
    ensures forall r :: r in Reports(w, run, asks) ==> Truthful(r)
    decreases |run|
  {
    hide WorldInv, Next, Enabled, Notes, AllHonest, Truthful;
    if run != [] {
      var c := run[0];
      StepKeeps(w, c.step, c.kernel, c.again);
      StepHonest(w, c.step, c.kernel, c.again, asks);
      RunTruthful(Next(w, c.step, c.kernel, c.again), run[1..], Notes(w, c.step, asks).0);
    }
  }

  // In every run, whatever the kernel answers: each event that is reported for a socket was asked for by the
  // latest epoll_ctl for it and carries its data, and a one-shot request is reported at most once.
  lemma ReportsAreAsked<I>(run: seq<Choice<I>>)
    requires WorldInv(Fresh<I>()) && Runs(Fresh<I>(), run)
    ensures AllHonest(Fresh<I>().st, map[])
    ensures forall r :: r in Reports(Fresh<I>(), run, map[]) ==> Truthful(r)
  {
    hide WorldInv, Runs, Reports, Truthful;
    RunTruthful(Fresh<I>(), run, map[]);
  }
}
