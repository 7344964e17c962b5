/**
 The -n option of src/wrk.c: the threads count responses in one shared counter with an atomic addition
 and stop at the N-th.  Every access to shared state is a step of its own, so the steps of different
 threads interleave freely.
 */
module StopCounter {

  // Where a thread is in response_complete, and the time at which the response came
  datatype Phase =
    | Idle
    // `stop` was not set when the thread looked.
    | Arrived(now: nat)
    // The response got the number n, at most N, but is not in thread->complete yet.
    | Accepted(n: nat, now: nat)
    // It was the N-th and is counted; the thread has not looked at its deadline yet.
    | Last(now: nat)

  // `stopping` says that aeStop was called, `left` that the event loop has ended.  In between the thread
  // still handles what the parser has in its buffer and the connections that are ready.
  datatype Thread = Thread(complete: nat, warming: bool, phase: Phase, stopping: bool, left: bool)

  // N is cfg.requests and `stopAt` the deadline of all threads; `total` is responses_total.  `lastAt` is the
  // time of the N-th response, once there is one, and `finished` says that it has stopped the run.
  datatype World = World(limit: nat, stopAt: nat, total: nat, lastAt: nat, stop: bool, finished: bool,
                         threads: seq<Thread>)

  datatype Step =
    // A response arrives; the thread looks at `stop`.
    | Respond(t: nat, now: nat)
    // The atomic addition and what depends on its result, or the count of a response during the warm-up
    | Admit(t: nat)
    // thread->complete++
    | Count(t: nat)
    // stop = 1
    | Finish(t: nat)
    // The deadline comes first.
    | Expire(t: nat)
    // end_warmup
    | EndWarmup(t: nat)
    // A timer of the thread calls aeStop.
    | StopLoop(t: nat)
    | Leave(t: nat)
    // The run is stopped from elsewhere: --bailout, a signal.
    | Halt(t: nat)

  predicate Enabled(w: World, step: Step) {
    && step.t < |w.threads|
    && var thread := w.threads[step.t];
       match step
       case Respond(t, now) => thread.phase == Idle && !thread.left
       case Admit(t) => thread.phase.Arrived?
       case Count(t) => thread.phase.Accepted?
       case Finish(t) => thread.phase.Last? && thread.phase.now < w.stopAt
       case Expire(t) => thread.phase.Last? && thread.phase.now >= w.stopAt
       case EndWarmup(t) => thread.phase == Idle && !thread.left && thread.warming
       case StopLoop(t) => thread.phase == Idle && !thread.left
       case Leave(t) => thread.phase == Idle && thread.stopping
       case Halt(t) => true
  }

  function With(w: World, t: nat, thread: Thread): World
    requires t < |w.threads|
  {
    w.(threads := w.threads[t := thread])
  }

  // A response is counted; at the deadline the event loop is to stop.
  function Counted(w: World, thread: Thread): Thread
    requires !thread.phase.Idle?
  {
    var last := thread.phase.Accepted? && thread.phase.n == w.limit;
    thread.(complete := thread.complete + 1,
            phase := if last then Last(thread.phase.now) else Idle,
            stopping := thread.stopping || (!last && thread.phase.now >= w.stopAt))
  }

  function Next(w: World, step: Step): World
    requires Enabled(w, step)
  {
    var thread := w.threads[step.t];
    match step
    case Respond(t, now) =>
      With(w, t, if w.stop then thread.(stopping := true) else thread.(phase := Arrived(now)))
    case Admit(t) =>
      if thread.warming then With(w, t, Counted(w, thread))
      else
        var n, now := w.total + 1, thread.phase.now;
        With(w.(total := n, lastAt := if n == w.limit then now else w.lastAt), t,
             if n > w.limit then thread.(phase := Idle, stopping := true) else thread.(phase := Accepted(n, now)))
    case Count(t) => With(w, t, Counted(w, thread))
    case Finish(t) => With(w.(stop := true, finished := true), t, thread.(phase := Idle, stopping := true))
    case Expire(t) => With(w, t, thread.(phase := Idle, stopping := true))
    case EndWarmup(t) => With(w, t, thread.(complete := 0, warming := false))
    case StopLoop(t) => With(w, t, thread.(stopping := true))
    case Leave(t) => With(w, t, thread.(left := true))
    case Halt(t) => w.(stop := true)
  }

  // What a thread has counted or has accepted and not counted yet, once it is past the warm-up
  function Share(thread: Thread): nat {
    if thread.warming then 0 else thread.complete + if thread.phase.Accepted? then 1 else 0
  }

  function Shares(threads: seq<Thread>): nat {
    if threads == [] then 0 else Share(threads[0]) + Shares(threads[1..])
  }

  function Min(a: nat, b: nat): nat {
    if a < b then a else b
  }

  // The thread that got the number N and is not done with it
  predicate HasLast(w: World, t: nat)
    requires t < |w.threads|
  {
    var phase := w.threads[t].phase;
    phase.Last? || (phase.Accepted? && phase.n == w.limit)
  }

  // Of a single thread
  predicate ThreadOk(w: World, thread: Thread) {
    && (thread.left ==> thread.phase == Idle)
    && (thread.warming ==> thread.phase == Idle || thread.phase.Arrived?)
    && (thread.phase.Accepted? ==> 0 < thread.phase.n <= w.limit && thread.phase.n <= w.total)
  }

  // The N-th response is on its way through exactly one thread, has stopped the run, or came at the deadline.
  ghost predicate OneLast(w: World) {
    && (w.total < w.limit ==> !w.finished && forall t :: 0 <= t < |w.threads| ==> !HasLast(w, t))
    && (w.finished ==> w.lastAt < w.stopAt && forall t :: 0 <= t < |w.threads| ==> !HasLast(w, t))
    && (w.total >= w.limit && !w.finished && w.lastAt < w.stopAt ==> exists t :: 0 <= t < |w.threads| && HasLast(w, t))
    && (forall t :: 0 <= t < |w.threads| && HasLast(w, t) ==> w.threads[t].phase.now == w.lastAt)
    && (forall t, u :: 0 <= t < u < |w.threads| ==> !(HasLast(w, t) && HasLast(w, u)))
  }

  ghost predicate Inv(w: World) {
    && w.limit > 0 && Shares(w.threads) == Min(w.total, w.limit)
    && (forall t :: 0 <= t < |w.threads| ==> ThreadOk(w, w.threads[t]))
    && OneLast(w)
  }

  lemma {:induction false} SharesUpdate(threads: seq<Thread>, t: nat, thread: Thread)
    requires t < |threads|
    ensures Shares(threads[t := thread]) == Shares(threads) - Share(threads[t]) + Share(thread)
  {
    if t > 0 {
      assert threads[t := thread][1..] == threads[1..][t - 1 := thread];
      SharesUpdate(threads[1..], t - 1, thread);
    } else {
      assert threads[0 := thread][1..] == threads[1..];
    }
  }

  lemma LastKeeps(w: World, step: Step)
    requires Inv(w) && Enabled(w, step)
    ensures OneLast(Next(w, step))
  {
    var w', t := Next(w, step), step.t;
    assert ThreadOk(w, w.threads[t]);
    forall u | 0 <= u < |w.threads| && u != t ensures HasLast(w', u) <==> HasLast(w, u) {
      assert w'.threads[u] == w.threads[u];
    }
    if w'.total >= w'.limit && !w'.finished && w'.lastAt < w'.stopAt && !HasLast(w', t) {
      var u :| 0 <= u < |w.threads| && HasLast(w, u);
      assert HasLast(w', u);
    }
    assert HasLast(w, t) ==> forall u :: 0 <= u < |w.threads| && u != t ==> !HasLast(w, u);
  }

  lemma ThreadKeeps(w: World, step: Step, u: nat)
    requires Enabled(w, step) && u < |w.threads| && w.limit > 0
    requires ThreadOk(w, w.threads[step.t]) && ThreadOk(w, w.threads[u])
    ensures var w' := Next(w, step); u < |w'.threads| && ThreadOk(w', w'.threads[u])
  {
  }

  lemma ShareKeeps(w: World, step: Step)
    requires Enabled(w, step) && w.limit > 0 && ThreadOk(w, w.threads[step.t])
    requires Shares(w.threads) == Min(w.total, w.limit)
    ensures Shares(Next(w, step).threads) == Min(Next(w, step).total, w.limit)
  {
    var w', t := Next(w, step), step.t;
    SharesUpdate(w.threads, t, w'.threads[t]);
    assert w'.threads == w.threads[t := w'.threads[t]];
  }

  lemma StepKeeps(w: World, step: Step)
    requires Inv(w) && Enabled(w, step)
    ensures Inv(Next(w, step))
  {
    hide OneLast, ThreadOk, Share, Shares, Counted;
    var w' := Next(w, step);
    LastKeeps(w, step);
    ShareKeeps(w, step);
    forall u | 0 <= u < |w'.threads| ensures ThreadOk(w', w'.threads[u]) {
      ThreadKeeps(w, step, u);
    }
  }

  // ---- Runs --------------------------------------------------------------------------------

  function Fresh(limit: nat, stopAt: nat, threads: nat, warmup: bool): World {
    World(limit, stopAt, 0, 0, false, false, seq(threads, _ => Thread(0, warmup, Idle, false, false)))
  }

  lemma {:induction false} FreshShares(threads: seq<Thread>)
    requires forall t :: 0 <= t < |threads| ==> Share(threads[t]) == 0
    ensures Shares(threads) == 0
  {
    if threads != [] {
      FreshShares(threads[1..]);
    }
  }

  lemma FreshIsValid(limit: nat, stopAt: nat, threads: nat, warmup: bool)
    requires limit > 0
    ensures Inv(Fresh(limit, stopAt, threads, warmup))
  {
    FreshShares(Fresh(limit, stopAt, threads, warmup).threads);
  }

  ghost predicate Runs(w: World, run: seq<Step>)
    requires Inv(w)
    decreases |run|
  {
    run != [] ==> Enabled(w, run[0]) && (StepKeeps(w, run[0]); Runs(Next(w, run[0]), run[1..]))
  }

  ghost function After(w: World, run: seq<Step>): (w': World)
    requires Inv(w) && Runs(w, run)
    ensures Inv(w') && w'.limit == w.limit && w'.stopAt == w.stopAt
    decreases |run|
  {
    if run == [] then w else (StepKeeps(w, run[0]); After(Next(w, run[0]), run[1..]))
  }

  // Nothing is on its way between the shared counter and a thread.
  predicate Quiet(w: World) {
    forall t :: 0 <= t < |w.threads| ==> !w.threads[t].phase.Accepted? && !w.threads[t].phase.Last?
  }

  // The number of responses that main() reports: the sum over all threads
  function Reported(threads: seq<Thread>): nat {
    if threads == [] then 0 else threads[0].complete + Reported(threads[1..])
  }

  // What is in it of threads that have not ended their warm-up
  function Warm(threads: seq<Thread>): nat {
    if threads == [] then 0 else (if threads[0].warming then threads[0].complete else 0) + Warm(threads[1..])
  }

  // A thread that is not past its warm-up and has counted something in it
  predicate StillWarm(thread: Thread) {
    thread.warming && thread.complete > 0
  }

  lemma {:induction false} ReportedIsShares(threads: seq<Thread>)
    ensures Reported(threads) <= Shares(threads) + Warm(threads)
    ensures (forall x :: x in threads ==> !x.phase.Accepted?) ==> Reported(threads) == Shares(threads) + Warm(threads)
  {
    if threads != [] {
      ReportedIsShares(threads[1..]);
      assert forall x :: x in threads <==> x == threads[0] || x in threads[1..];
    }
  }

  lemma {:induction false} WarmIs(threads: seq<Thread>)
    ensures Warm(threads) == 0 <==> forall x :: x in threads ==> !StillWarm(x)
  {
    if threads != [] {
      WarmIs(threads[1..]);
      assert threads[0] in threads;
      if Warm(threads) == 0 {
        forall x | x in threads ensures !StillWarm(x) {
          assert x == threads[0] || x in threads[1..];
        }
      } else if Warm(threads[1..]) != 0 {
        var x :| x in threads[1..] && StillWarm(x);
        assert x in threads;
      }
    }
  }

  // However the threads interleave: apart from what was counted in a warm-up that did not end, never more
  // than N responses are reported; when no thread is in the middle of one, exactly as many as the counter
  // says, but at most N, which is N once the N-th response has stopped the run.  The report is that number
  // if and only if no thread is still warm.
  lemma ExactCount(limit: nat, stopAt: nat, threads: nat, warmup: bool, run: seq<Step>)
    requires limit > 0 && Inv(Fresh(limit, stopAt, threads, warmup)) && Runs(Fresh(limit, stopAt, threads, warmup), run)
    ensures var w := After(Fresh(limit, stopAt, threads, warmup), run);
      && Reported(w.threads) <= limit + Warm(w.threads)
      && (Quiet(w) ==> Reported(w.threads) == Min(w.total, limit) + Warm(w.threads))
      && (Quiet(w) ==> (Reported(w.threads) == Min(w.total, limit) <==> forall x :: x in w.threads ==> !StillWarm(x)))
      && (Quiet(w) && w.finished ==> Min(w.total, limit) == limit)
  {
    hide Runs;
    var w := After(Fresh(limit, stopAt, threads, warmup), run);
    ReportedIsShares(w.threads);
    WarmIs(w.threads);
    if Quiet(w) {
      QuietMeansDone(w);
    }
  }

  // The report is made when the threads are joined; then nothing is on its way.
  lemma JoinedIsQuiet(w: World)
    requires Inv(w) && forall t :: 0 <= t < |w.threads| ==> w.threads[t].left
    ensures Quiet(w)
    ensures Reported(w.threads) == Min(w.total, w.limit) <==> forall x :: x in w.threads ==> !StillWarm(x)
  {
    assert forall t :: 0 <= t < |w.threads| ==> ThreadOk(w, w.threads[t]);
    ReportedIsShares(w.threads);
    WarmIs(w.threads);
  }

  // The N-th response stops the run if and only if it comes before the deadline.
  lemma QuietMeansDone(w: World)
    requires Inv(w) && Quiet(w)
    ensures w.finished <==> w.total >= w.limit && w.lastAt < w.stopAt
  {
    assert forall t :: 0 <= t < |w.threads| ==> !HasLast(w, t);
  }

  lemma Unrolled(w: World, run: seq<Step>)
    requires Inv(w) && run != [] && Enabled(w, run[0])
    ensures Inv(Next(w, run[0]))
    ensures Runs(Next(w, run[0]), run[1..]) ==> Runs(w, run) && After(w, run) == After(Next(w, run[0]), run[1..])
    ensures |run| == 1 ==> Runs(w, run) && After(w, run) == Next(w, run[0])
  {
    StepKeeps(w, run[0]);
  }

  // ---- When it stops -----------------------------------------------------------------------

  // A thread that is done with a response goes on if and only if nothing stops it: neither the number N nor
  // the deadline has been reached, and it was not to stop before.
  lemma DoneWithResponse(w: World, step: Step)
    requires Inv(w) && Enabled(w, step) && w.threads[step.t].phase != Idle
    requires Next(w, step).threads[step.t].phase == Idle
    ensures var before, after := w.threads[step.t], Next(w, step).threads[step.t];
      after.stopping
      <==> || before.stopping || before.phase.now >= w.stopAt
           || (!before.warming && if before.phase.Arrived? then w.total >= w.limit else before.phase.Last?)
  {
    assert ThreadOk(w, w.threads[step.t]);
  }

  // The threads that were past the look at `stop` when it was set
  function Arrivals(threads: seq<Thread>): nat {
    if threads == [] then 0 else (if threads[0].phase.Arrived? then 1 else 0) + Arrivals(threads[1..])
  }

  lemma {:induction false} ArrivalsUpdate(threads: seq<Thread>, t: nat, thread: Thread)
    requires t < |threads|
    ensures Arrivals(threads[t := thread])
         == Arrivals(threads) - (if threads[t].phase.Arrived? then 1 else 0) + (if thread.phase.Arrived? then 1 else 0)
  {
    if t > 0 {
      assert threads[t := thread][1..] == threads[1..][t - 1 := thread];
      ArrivalsUpdate(threads[1..], t - 1, thread);
    } else {
      assert threads[0 := thread][1..] == threads[1..];
    }
  }

  // Once `stop` is set it stays so, and only those threads may still take a number each.
  lemma {:induction false} StopsSoon(w: World, run: seq<Step>)
    requires Inv(w) && Runs(w, run) && w.stop
    ensures var w' := After(w, run);
      w'.stop && w'.total + Arrivals(w'.threads) <= w.total + Arrivals(w.threads)
    decreases |run|
  {
    hide Inv;
    if run != [] {
      var w1, t := Next(w, run[0]), run[0].t;
      ArrivalsUpdate(w.threads, t, w1.threads[t]);
      assert w1.threads == w.threads[t := w1.threads[t]];
      hide Next;
      Unrolled(w, run);
      StopsSoon(w1, run[1..]);
    }
  }

  // ---- Without a warm-up -------------------------------------------------------------------

  ghost predicate NoWarmup(w: World) {
    forall t :: 0 <= t < |w.threads| ==> !w.threads[t].warming
  }

  lemma NoneWarms(w: World, step: Step)
    requires NoWarmup(w) && Enabled(w, step)
    ensures NoWarmup(Next(w, step))
  {
    var w' := Next(w, step);
    forall t | 0 <= t < |w'.threads| ensures !w'.threads[t].warming {
      assert !w.threads[t].warming;
    }
  }

  lemma {:induction false} NeverWarm(w: World, run: seq<Step>)
    requires Inv(w) && Runs(w, run) && NoWarmup(w)
    ensures NoWarmup(After(w, run))
    decreases |run|
  {
    hide Inv, NoWarmup;
    if run != [] {
      NoneWarms(w, run[0]);
      Unrolled(w, run);
      NeverWarm(Next(w, run[0]), run[1..]);
    }
  }

  // So without --warmup the report is exact in every run.
  lemma ExactWithoutWarmup(limit: nat, stopAt: nat, threads: nat, run: seq<Step>)
    requires limit > 0 && Inv(Fresh(limit, stopAt, threads, false)) && Runs(Fresh(limit, stopAt, threads, false), run)
    ensures var w := After(Fresh(limit, stopAt, threads, false), run);
      && Reported(w.threads) <= limit
      && (Quiet(w) ==> Reported(w.threads) == Min(w.total, limit))
  {
    hide Runs, Inv, After;
    var w := After(Fresh(limit, stopAt, threads, false), run);
    NeverWarm(Fresh(limit, stopAt, threads, false), run);
    assert forall x :: x in w.threads ==> !StillWarm(x);
    ReportedIsShares(w.threads);
    WarmIs(w.threads);
    ExactCount(limit, stopAt, threads, false, run);
  }

  // ---- Two runs that are not as one would expect -------------------------------------------

  // The last response may come at the deadline, and then does not stop the run.
  lemma LateLast()
    ensures var w, run := Fresh(1, 5, 1, false), [Respond(0, 5), Admit(0), Count(0), Expire(0)];
      && Inv(w) && Runs(w, run) && Quiet(After(w, run))
      && After(w, run).total == 1 && !After(w, run).stop && !After(w, run).finished
  {
    FreshIsValid(1, 5, 1, false);
    var w, run := Fresh(1, 5, 1, false), [Respond(0, 5), Admit(0), Count(0), Expire(0)];
    var w1 := Next(w, run[0]);
    var w2 := Next(w1, run[1]);
    var w3 := Next(w2, run[2]);
    var w4 := Next(w3, run[3]);
    hide Inv, Next;
    Unrolled(w, run);
    Unrolled(w1, run[1..]);
    Unrolled(w2, run[2..]);
    Unrolled(w3, run[3..]);
  }

  // A thread may leave before its warm-up ends, and then what it has counted is reported: more than N.
  lemma StillWarmIsReported()
    ensures var w, run := Fresh(1, 5, 2, true), WarmupRun() + LastRun();
      && Inv(w) && Runs(w, run) && After(w, run).finished && Reported(After(w, run).threads) == 2
      && forall x :: x in After(w, run).threads ==> x.left
  {
    FreshIsValid(1, 5, 2, true);
    var w, run := Fresh(1, 5, 2, true), WarmupRun() + LastRun();
    var w1 := Next(w, run[0]);
    var w2 := Next(w1, run[1]);
    var w3 := Next(w2, run[2]);
    var w4 := Next(w3, run[3]);
    var w5 := Next(w4, run[4]);
    assert w5.threads == [Thread(0, false, Accepted(1, 1), false, false), Thread(1, true, Idle, false, false)];
    assert run[5..] == LastRun();
    hide Inv, Next, Runs, After;
    Unrolled(w, run);
    Unrolled(w1, run[1..]);
    Unrolled(w2, run[2..]);
    Unrolled(w3, run[3..]);
    Unrolled(w4, run[4..]);
    LastRunEnds(w5);
  }

  function WarmupRun(): seq<Step> {
    [Respond(1, 0), Admit(1), EndWarmup(0), Respond(0, 1), Admit(0)]
  }

  function LastRun(): seq<Step> {
    [Count(0), Finish(0), Leave(0), Respond(1, 2), Leave(1)]
  }

  lemma LastRunEnds(w: World)
    requires Inv(w) && w.limit == 1 && w.lastAt < w.stopAt
    requires w.threads == [Thread(0, false, Accepted(1, 1), false, false), Thread(1, true, Idle, false, false)]
    requires w.lastAt == 1
    ensures Runs(w, LastRun()) && After(w, LastRun()).finished && Reported(After(w, LastRun()).threads) == 2
    ensures forall x :: x in After(w, LastRun()).threads ==> x.left
  {
    var run := LastRun();
    var w1 := Next(w, run[0]);
    var w2 := Next(w1, run[1]);
    var w3 := Next(w2, run[2]);
    var w4 := Next(w3, run[3]);
    var w5 := Next(w4, run[4]);
    BothLeft(w5.threads);
    hide Inv, Next, Runs, After;
    Unrolled(w, run);
    Unrolled(w1, run[1..]);
    Unrolled(w2, run[2..]);
    Unrolled(w3, run[3..]);
    Unrolled(w4, run[4..]);
  }

  lemma BothLeft(threads: seq<Thread>)
    requires threads == [Thread(1, false, Idle, true, true), Thread(1, true, Idle, true, true)]
    ensures Reported(threads) == 2
  {
    assert threads[1..][1..] == [];
    assert Reported(threads[1..]) == 1;
  }
}
