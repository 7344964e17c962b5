/**
 The constant-rate scheduler of src/wrk.c: when a connection may send its next batch of requests, and
 the latency that is recorded against the plan.  Times are in microseconds; the rates of the source
 are taken as reals, and the conversions to integers truncate as they do there.
 */
module Pacing {
  import opened Basics

  // ---- The plan ----------------------------------------------------------------------------

  // thread_start + (complete / throughput), truncated
  function PlannedAt(start: nat, complete: nat, throughput: real): nat
    requires throughput > 0.0
  {
    QuotientNonNegative(complete as real, throughput);
    start + (complete as real / throughput).Floor
  }

  lemma QuotientNonNegative(x: real, y: real)
    requires x >= 0.0 && y > 0.0
    ensures x / y >= 0.0
  {
  }

  // A time is not before the plan exactly when the rate, up to the truncation to a microsecond, has room
  // for one more request by then.
  lemma NotAhead(start: nat, complete: nat, throughput: real, now: nat)
    requires throughput > 0.0
    ensures PlannedAt(start, complete, throughput) <= now
       <==> complete as real < (now as real - start as real + 1.0) * throughput
  {
    if PlannedAt(start, complete, throughput) <= now {
      Below(complete as real, throughput, now as real - start as real + 1.0);
    } else {
      Above(complete as real, throughput, now as real - start as real + 1.0);
    }
  }

  lemma Above(x: real, y: real, limit: real)
    requires y > 0.0 && x / y >= limit
    ensures x >= limit * y
  {
    Quotient(x, y);
    var q := x / y;
    assert (q - limit) * y >= 0.0;
    assert (q - limit) * y == q * y - limit * y;
  }

  lemma Below(x: real, y: real, limit: real)
    requires y > 0.0 && x / y < limit
    ensures x < limit * y
  {
    Quotient(x, y);
    var q := x / y;
    assert (limit - q) * y > 0.0;
    assert (limit - q) * y == limit * y - q * y;
  }

  // The two plans as real numbers: they meet after twice the backlog.
  lemma RealPlans(start: nat, throughput: real, since: nat, before: nat, complete: nat)
    requires throughput > 0.0
    ensures var backlog := throughput * (since as real - start as real) - before as real;
      var plan := start as real + complete as real / throughput;
      var caught := since as real + (complete as real - before as real) / (2.0 * throughput);
      (plan - caught) * (2.0 * throughput) == (complete as real - before as real) - 2.0 * backlog
  {
    var t := 2.0 * throughput;
    var a := complete as real / throughput;
    var b := (complete as real - before as real) / t;
    Quotient(complete as real, throughput);
    Quotient(complete as real - before as real, t);
    var elapsed := since as real - start as real;
    assert a * t == 2.0 * (a * throughput);
    assert elapsed * t == 2.0 * (throughput * elapsed);
    var plan, caught := start as real + a, since as real + b;
    assert plan - caught == a - b - elapsed;
    assert (a - b - elapsed) * t == a * t - b * t - elapsed * t;
  }

  // The sign of a difference, from that of its multiple
  lemma Signs(difference: real, t: real, multiple: real)
    requires t > 0.0 && difference * t == multiple
    ensures multiple >= 0.0 ==> difference >= 0.0
    ensures multiple <= 0.0 ==> difference <= 0.0
    ensures multiple <= -t ==> difference <= -1.0
  {
    if difference < 0.0 {
      assert difference * t < 0.0;
    }
    if difference > 0.0 {
      assert difference * t > 0.0;
    }
    if difference > -1.0 {
      assert (difference + 1.0) * t == multiple + t;
      assert (difference + 1.0) * t > 0.0;
    }
  }

  lemma Floors(start: nat, x: real, since: nat, y: real)
    ensures start as real + x >= since as real + y ==> start + x.Floor >= since + y.Floor
    ensures start as real + x <= since as real + y ==> start + x.Floor <= since + y.Floor
    ensures start as real + x <= since as real + y - 1.0 ==> start + x.Floor < since + y.Floor
  {
  }

  // How many requests the connection was late when it began to catch up
  function Backlog(start: nat, throughput: real, since: nat, before: nat): real {
    throughput * (since as real - start as real) - before as real
  }

  // While catching up, the plan with twice the rate is the later one at first.  The original plan binds
  // again after twice the backlog, and not before, up to what is planned for one microsecond.
  lemma PlanBindsAgain(start: nat, throughput: real, since: nat, before: nat, complete: nat)
    requires throughput > 0.0 && before <= complete
    ensures var n, twice := complete - before, 2.0 * Backlog(start, throughput, since, before);
      var plan, caught := PlannedAt(start, complete, throughput), PlannedAt(since, n, 2.0 * throughput);
      && (n as real >= twice ==> caught <= plan)
      && (n as real <= twice ==> plan <= caught)
      && (n as real + 2.0 * throughput <= twice ==> plan < caught)
  {
    var t := 2.0 * throughput;
    var a, b := complete as real / throughput, (complete - before) as real / t;
    RealPlans(start, throughput, since, before, complete);
    var n, twice := complete - before, 2.0 * Backlog(start, throughput, since, before);
    assert n as real == complete as real - before as real;
    Signs((start as real + a) - (since as real + b), t, n as real - twice);
    Floors(start, a, since, b);
  }

  // ---- A connection ------------------------------------------------------------------------

  // A send that the plan had to allow, the plan it was allowed under, and the time when it began: the
  // beginning of a batch, or the beginning of its requests once more, after a reconnect
  datatype Start =
    Start(at: nat, complete: nat, catchingUp: bool, since: nat, before: nat, again: bool, began: nat)

  // The batch that the latest responses belong to; a connection starts out with times of 0
  function Latest(starts: seq<Start>): (batch: Start) {
    if starts == [] then Start(0, 0, false, 0, 0, false, 0)
    else if starts[|starts| - 1].again then Latest(starts[..|starts| - 1])
    else starts[|starts| - 1]
  }

  // It is the last send that was not one more attempt.
  lemma {:induction false} LatestIs(starts: seq<Start>, k: nat)
    requires k < |starts| && !starts[k].again && forall i :: k < i < |starts| ==> starts[i].again
    ensures Latest(starts) == starts[k]
  {
    if k < |starts| - 1 {
      LatestIs(starts[..|starts| - 1], k);
    }
  }

  // What a response added to the two histograms: at which time, and after how many sends
  datatype Record = Record(at: nat, sends: nat, latency: int, actual: int)

  // How sock.write answers
  datatype Written = Sent(n: nat) | Again | Broken

  class Connection {
    const throughput: real
    const catchUpThroughput: real
    const pipeline: nat
    const length: nat
    const threadStart: nat

    var complete: nat
    var completeAtLastBatchStart: nat
    var catchUpStartTime: nat
    var completeAtCatchUpStart: nat
    var start: nat
    var actualLatencyStart: nat
    var written: nat
    var pending: int
    var hasPending: bool
    var delayed: bool
    var caughtUp: bool

    // The latest time seen; the sends that were allowed and the latencies recorded so far
    ghost var clock: nat
    ghost var starts: seq<Start>
    ghost var records: seq<Record>

    // A send did not begin before its time, neither by the plan nor, while the connection was
    // catching up, by the plan with twice the rate.
    ghost predicate OnPlan(s: Start) {
      && throughput > 0.0 && catchUpThroughput == 2.0 * throughput
      && PlannedAt(threadStart, s.complete, throughput) <= s.at
      && s.before <= s.complete && s.since <= s.at
      && PlannedAt(s.since, s.complete - s.before, catchUpThroughput) <= s.at
    }

    // The plan neither depends on whether the batch is new nor on when it begins.
    lemma AnyBegin(s: Start, again: bool, began: nat)
      ensures OnPlan(s.(again := again, began := began)) == OnPlan(s)
    {
      hide PlannedAt;
    }

    // A latency is the time since the plan for its batch, the uncorrected one the time since the batch began.
    ghost predicate Measured(sends: seq<Start>, r: Record) {
      && throughput > 0.0 && r.sends <= |sends|
      && r.latency == r.at - PlannedAt(threadStart, Latest(sends[..r.sends]).complete, throughput)
      && r.actual == r.at - Latest(sends[..r.sends]).began
      && r.latency >= 0 && r.actual >= 0
    }

    lemma MoreSends(sends: seq<Start>, s: Start, r: Record)
      requires Measured(sends, r)
      ensures Measured(sends + [s], r)
    {
      hide PlannedAt, Latest;
      assert (sends + [s])[..r.sends] == sends[..r.sends];
    }

    lemma StillMeasured(sends: seq<Start>, s: Start, records: seq<Record>)
      requires forall r :: r in records ==> Measured(sends, r)
      ensures forall r :: r in records ==> Measured(sends + [s], r)
    {
      hide *;
      forall r | r in records ensures Measured(sends + [s], r) {
        MoreSends(sends, s, r);
      }
    }

    lemma NextLatest(sends: seq<Start>, s: Start)
      ensures Latest(sends + [s]) == if s.again then Latest(sends) else s
    {
      assert (sends + [s])[..|sends|] == sends;
    }

    ghost predicate Valid()
      reads this
    {
      && throughput > 0.0 && catchUpThroughput == 2.0 * throughput && threadStart <= clock
      && PlannedAt(threadStart, completeAtLastBatchStart, throughput) <= clock
      && completeAtLastBatchStart <= complete && completeAtCatchUpStart <= complete && catchUpStartTime <= clock
      && actualLatencyStart <= clock && written <= length
      && (forall s :: s in starts ==> OnPlan(s))
      && completeAtLastBatchStart == Latest(starts).complete && actualLatencyStart == Latest(starts).began
      && (forall r :: r in records ==> Measured(starts, r))
    }

    // thread_main and delayed_initial_connect
    constructor (throughput: real, pipeline: nat, length: nat, now: nat)
      requires throughput > 0.0
      ensures Valid() && starts == [] && records == [] && clock == now == threadStart && complete == 0
    {
      this.throughput, this.catchUpThroughput := throughput, throughput * 2.0;
      this.pipeline, this.length, this.threadStart := pipeline, length, now;
      complete, completeAtLastBatchStart, catchUpStartTime, completeAtCatchUpStart := 0, 0, 0, 0;
      start, actualLatencyStart, written, pending := 0, 0, 0, 0;
      hasPending, delayed, caughtUp := false, false, true;
      clock, starts, records := now, [], [];
      new;
      assert 0.0 / throughput == 0.0 by { Quotient(0.0, throughput); }
    }

    // So at every such send the requests completed are no more than the rate allows for the time since the
    // beginning, and since the connection fell behind no more than twice the rate allows.
    lemma RateBounds(s: Start)
      requires Valid() && s in starts
      ensures s.complete as real < (s.at as real - threadStart as real + 1.0) * throughput
      ensures (s.complete - s.before) as real < (s.at as real - s.since as real + 1.0) * (2.0 * throughput)
    {
      hide PlannedAt;
      NotAhead(threadStart, s.complete, throughput, s.at);
      NotAhead(s.since, s.complete - s.before, catchUpThroughput, s.at);
    }

    // The time at which the plan that holds the connection back allows the next batch
    ghost function NextStart(): nat
      requires Valid()
      reads this
    {
      if caughtUp then PlannedAt(threadStart, complete, throughput)
      else PlannedAt(catchUpStartTime, complete - completeAtCatchUpStart, catchUpThroughput)
    }

    // The completions of this catch-up episode that bring the connection back to its plan
    ghost predicate Recovered()
      requires Valid()
      reads this
    {
      (complete - completeAtCatchUpStart) as real
        >= 2.0 * Backlog(threadStart, throughput, catchUpStartTime, completeAtCatchUpStart)
    }

    // A send that begins at `later`, when the plan is asked at `now`
    ghost function Allowed(now: nat, later: nat): Start
      reads this
    {
      Start(now, complete, !caughtUp, catchUpStartTime, completeAtCatchUpStart, hasPending, later)
    }

    // What asking for the plan leaves behind: whether the connection is on its plan, and since when it is late
    twostate predicate Asked(now: nat)
      reads this
    {
      && throughput > 0.0
      && (caughtUp <==> PlannedAt(threadStart, complete, throughput) > now)
      && (catchUpStartTime, completeAtCatchUpStart)
         == if old(caughtUp) && !caughtUp then (now, complete)
            else (old(catchUpStartTime), old(completeAtCatchUpStart))
    }

    // usec_to_next_send in rate mode: 0 only when both plans allow a batch now, and otherwise exactly the
    // time that is missing.  In a catch-up episode the original plan alone decides once the connection has
    // recovered, and until then the plan with twice the rate does.
    method UsecToNextSend(now: nat) returns (wait: nat)
      requires Valid() && clock <= now
      modifies `clock, `caughtUp, `catchUpStartTime, `completeAtCatchUpStart
      ensures Valid() && clock == now
      ensures wait == 0 <==> OnPlan(Allowed(now, now))
      ensures old(!caughtUp && Recovered()) ==> (wait == 0 <==> PlannedAt(threadStart, complete, throughput) <= now)
      ensures old(!caughtUp && !Recovered()) ==> (wait == 0 <==> old(NextStart()) <= now)
      ensures wait > 0 ==> now + wait == NextStart()
      ensures Asked(now)
    {
      clock := now;
      PlanBindsAgain(threadStart, throughput, catchUpStartTime, completeAtCatchUpStart, complete);
      var next := PlannedAt(threadStart, complete, throughput);
      var sendNow := true;
      if next > now {
        caughtUp := true;
        sendNow := false;
      } else {
        if caughtUp {
          caughtUp := false;
          catchUpStartTime := now;
          completeAtCatchUpStart := complete;
        }
        next := PlannedAt(catchUpStartTime, complete - completeAtCatchUpStart, catchUpThroughput);
        if next > now {
          sendNow := false;
        }
      }
      wait := if sendNow then 0 else next - now;
    }

    // socket_writeable; `delay` is what script_delay asks for, `later` the time when the batch starts.
    // The result is the time after which a timer is to call it again, when the batch may not start.
    method Writeable(now: nat, later: nat, delay: nat, result: Written) returns (wait: nat)
      requires Valid() && clock <= now <= later
      requires result.Sent? ==> written + result.n <= length
      modifies this
      ensures Valid() && clock <= later && complete == old(complete)
      ensures records == old(records)
      ensures old(written) > 0 ==> wait == 0
      ensures starts == if old(written) > 0 || wait > 0 then old(starts) else
        old(starts) + [Allowed(now, later).(again := old(hasPending))]
      ensures old(written) == 0 && wait == 0 ==> hasPending && pending == pipeline && start == later && !delayed
      ensures completeAtLastBatchStart
           == if old(written) > 0 || wait > 0 || old(hasPending) then old(completeAtLastBatchStart) else complete
      ensures actualLatencyStart
           == if old(written) > 0 || wait > 0 || old(hasPending) then old(actualLatencyStart) else later
      ensures old(written) > 0 || wait > 0 ==> hasPending == old(hasPending) && pending == old(pending)
      ensures written == if wait > 0 then old(written) else Progress(old(written), result)
      ensures old(written) == 0 ==> Asked(now) && Answered(now, delay, wait)
      ensures old(written) > 0 ==> (catchUpStartTime, completeAtCatchUpStart, caughtUp, delayed, start)
                                   == old((catchUpStartTime, completeAtCatchUpStart, caughtUp, delayed, start))
    {
      hide OnPlan, PlannedAt;
      wait := 0;
      if written == 0 {
        wait := TryStart(now, later, delay);
        if wait > 0 {
          return;
        }
      }
      clock := later;
      if result.Sent? {
        written := written + result.n;
        if written == length {
          written := 0;
        }
      }
    }

    // What is left of the requests of a batch after a write
    ghost function Progress(written: nat, result: Written): nat {
      match result
      case Sent(n) => if written + n == length then 0 else written + n
      case _ => written
    }

    // A batch begins exactly when the plan allows it and the script does not put it off.  Otherwise the timer
    // is set to the time that the plan or the script names, and the script is not asked twice for one batch.
    twostate predicate Answered(now: nat, delay: nat, wait: nat)
      requires Valid()
      reads this
    {
      var allowed := OnPlan(Allowed(now, now));
      && (wait == 0 <==> allowed && (delay == 0 || old(delayed)))
      && (wait > 0 && allowed ==> wait == delay && delayed)
      && (wait > 0 && !allowed ==> now + wait == NextStart() && delayed == old(delayed))
    }

    method TryStart(now: nat, later: nat, delay: nat) returns (wait: nat)
      requires Valid() && clock <= now <= later && written == 0
      modifies `clock, `caughtUp, `catchUpStartTime, `completeAtCatchUpStart, `delayed, `start, `starts,
        `actualLatencyStart, `completeAtLastBatchStart, `hasPending, `pending
      ensures Valid() && clock <= later
      ensures starts == if wait > 0 then old(starts) else
        old(starts) + [Allowed(now, later).(again := old(hasPending))]
      ensures completeAtLastBatchStart
           == if wait > 0 || old(hasPending) then old(completeAtLastBatchStart) else complete
      ensures actualLatencyStart == if wait > 0 || old(hasPending) then old(actualLatencyStart) else later
      ensures if wait > 0 then hasPending == old(hasPending) && pending == old(pending)
              else hasPending && pending == pipeline && start == later && !delayed
      ensures Asked(now) && Answered(now, delay, wait)
    {
      hide OnPlan, PlannedAt, Latest, NextStart, Measured;
      wait := UsecToNextSend(now);
      AnyBegin(Allowed(now, now), true, now);
      if wait > 0 {
        return;
      }
      if delay > 0 && !delayed {
        delayed := true;
        return delay;
      }
      delayed := false;
      start := later;
      AnyBegin(Allowed(now, now), hasPending, later);
      BeginBatch(now);
      pending := pipeline;
    }

    // The plan allows the send; a batch that is just being resumed keeps its start.
    method BeginBatch(ghost now: nat)
      requires Valid() && now <= clock <= start
      requires OnPlan(Allowed(now, start))
      modifies `starts, `actualLatencyStart, `completeAtLastBatchStart, `hasPending, `clock
      ensures Valid() && hasPending && clock == start
      ensures completeAtLastBatchStart == if old(hasPending) then old(completeAtLastBatchStart) else complete
      ensures actualLatencyStart == if old(hasPending) then old(actualLatencyStart) else start
      ensures starts == old(starts) + [Allowed(now, start).(again := old(hasPending))]
    {
      hide PlannedAt, Latest, Measured;
      clock := start;
      NextLatest(starts, Allowed(now, start));
      StillMeasured(starts, Allowed(now, start), records);
      starts := starts + [Allowed(now, start)];
      if !hasPending {
        actualLatencyStart := start;
        completeAtLastBatchStart := complete;
        hasPending := true;
      }
    }

    // delay_request
    method DelayRequest(now: nat) returns (wait: nat)
      requires Valid() && clock <= now
      modifies `clock, `caughtUp, `catchUpStartTime, `completeAtCatchUpStart
      ensures Valid() && clock == now
      ensures wait > 0 ==> now + wait == NextStart()
      ensures wait == 0 <==> OnPlan(Allowed(now, now))
      ensures Asked(now)
    {
      wait := UsecToNextSend(now);
    }

    // socket_connected, after the first connect or a reconnect in the middle of a batch
    method Connected(now: nat)
      requires Valid() && clock <= now
      modifies `written, `clock
      ensures Valid() && clock == now && written == 0
    {
      written := 0;
      clock := now;
    }

    ghost function NextRecord(now: nat): Record
      requires Valid()
      reads this
    {
      var plan := PlannedAt(threadStart, completeAtLastBatchStart, throughput);
      Record(now, |starts|, now - plan, now - actualLatencyStart)
    }

    lemma Measurable(now: nat)
      requires Valid() && clock <= now
      ensures Measured(starts, NextRecord(now))
    {
      hide PlannedAt, Latest, OnPlan;
      assert starts[..|starts|] == starts;
    }

    // The part of response_complete that accounts for a response; `all` is record_all_responses, and
    // `counts` says that neither `stop`, -n nor the deadline makes it return before.
    method ResponseComplete(now: nat, all: bool, counts: bool) returns (latency: int, actual: int)
      requires Valid() && clock <= now
      modifies this
      ensures Valid() && clock == now && starts == old(starts)
      ensures complete == old(complete) + if counts then 1 else 0
      ensures latency == now - PlannedAt(threadStart, completeAtLastBatchStart, throughput) && latency >= 0
      ensures actual == now - actualLatencyStart && actual >= 0
      ensures pending == old(pending) - (if counts then 1 else 0)
      ensures hasPending == (old(hasPending) && !(counts && pending == 0))
      ensures var recorded := counts && (all || !hasPending);
        records == old(records) + (if recorded then [Record(now, |starts|, latency, actual)] else [])
      ensures completeAtLastBatchStart == old(completeAtLastBatchStart) && actualLatencyStart == old(actualLatencyStart)
    {
      hide PlannedAt, Latest, OnPlan, Measured;
      assert Measured(starts, NextRecord(now)) by { Measurable(now); }
      clock := now;
      latency := now - PlannedAt(threadStart, completeAtLastBatchStart, throughput);
      actual := now - actualLatencyStart;
      if !counts {
        return;
      }
      complete := complete + 1;
      pending := pending - 1;
      if pending == 0 {
        hasPending := false;
      }
      if all || !hasPending {
        records := records + [Record(now, |starts|, latency, actual)];
      }
    }
  }

  // ---- Runs --------------------------------------------------------------------------------

  datatype Event =
    | CanWrite(now: nat, later: nat, delay: nat, result: Written)
    | TimerFired(now: nat)
    | ConnectedAgain(now: nat)
    | Completed(now: nat, all: bool, counts: bool)

  // Whatever happens in whatever order, with a clock that does not go back: no batch was started before
  // its time, no latency was negative, and each is the time since the plan for its batch, or since the
  // batch began.
  method Run(c: Connection, events: seq<Event>, now: nat)
    requires c.Valid() && c.clock <= now
    modifies c
    ensures c.Valid()
    ensures forall s :: s in c.starts ==> c.OnPlan(s)
    ensures forall r :: r in c.records ==> c.Measured(c.starts, r)
  {
    var last := now;
    for i := 0 to |events|
      invariant c.Valid() && c.clock <= last
    {
      if last <= events[i].now {
        match events[i] {
          case CanWrite(now, later, delay, result) =>
            if now <= later && (result.Sent? ==> c.written + result.n <= c.length) {
              var _ := c.Writeable(now, later, delay, result);
              last := later;
            }
          case TimerFired(now) =>
            var _ := c.DelayRequest(now);
            last := now;
          case ConnectedAgain(now) =>
            c.Connected(now);
            last := now;
          case Completed(now, all, counts) =>
            var _, _ := c.ResponseComplete(now, all, counts);
            last := now;
        }
      }
    }
  }
}
