/**
 The engine of deps/llhttp/llhttp.c: a run to the end of the buffer, which skips the bytes of a body
 of known length in one step, matches fixed sequences in a loop that survives the end of the buffer,
 and hands out a span in one fragment for each buffer it reaches into.
 */
module ResponseEngine {
  import opened Basics
  import opened FramingRules
  import opened ResponseStates
  import opened ResponseFold
  import opened ResponseLoss

  // A callback as the user of the parser sees it.
  datatype Event = Fragment(span: Span, data: seq<byte>) | Callback(call: Call)

  function Flat(trace: seq<Event>): seq<Out> {
    if trace == [] then []
    else
      Flat(trace[..|trace| - 1])
      + match trace[|trace| - 1]
        case Fragment(span, data) => SpanData(Some(span), data)
        case Callback(call) => [Called(call)]
  }

  function Callbacks(calls: seq<Call>): seq<Event> {
    seq(|calls|, i requires 0 <= i < |calls| => Callback(calls[i]))
  }

  lemma FlatOne(trace: seq<Event>, event: Event)
    ensures Flat(trace + [event]) == Flat(trace) + Flat([event])
  {
    assert (trace + [event])[..|trace|] == trace;
    assert [event][..0] == [];
  }

  lemma FlatCall(trace: seq<Event>, call: Call)
    ensures Flat(trace + [Callback(call)]) == Flat(trace) + [Called(call)]
  {
    assert (trace + [Callback(call)])[..|trace|] == trace;
  }

  lemma {:induction false} FlatCallbacks(trace: seq<Event>, calls: seq<Call>)
    ensures Flat(trace + Callbacks(calls)) == Flat(trace) + Calls(calls)
  {
    hide Flat;
    if calls == [] {
      assert trace + Callbacks(calls) == trace;
    } else {
      var k := |calls| - 1;
      FlatCallbacks(trace, calls[..k]);
      assert trace + Callbacks(calls) == (trace + Callbacks(calls[..k])) + [Callback(calls[k])];
      FlatCall(trace + Callbacks(calls[..k]), calls[k]);
      assert Calls(calls) == Calls(calls[..k]) + [Called(calls[k])];
    }
  }

  // Where a buffer leads: the parser, what the bytes mean, and what is held back at the end
  datatype Goal = Goal(parser: Parser, outs: seq<Out>, held: seq<Out>)

  class ResponseParser {
    var core: Core
    // _span_cb0 and, while a span is open, _span_pos0 as an index into the buffer
    var span: Option<Span>
    var spanPos: nat
    // The callbacks made so far
    var trace: seq<Event>
    // Data of a span that an error has cut off in this buffer
    ghost var lost: seq<Out>

    ghost function Parser(): Parser
      reads this
    {
      ResponseFold.Parser(core, span)
    }

    // llhttp_init
    constructor ()
      ensures Parser() == FRESH && trace == [] && Ok(Parser())
    {
      core, span, spanPos, trace, lost := INITIAL, None, 0, [], [];
    }

    // What the open span has consumed of the buffer so far
    ghost function Pending(data: seq<byte>, p: nat): seq<Out>
      requires p <= |data| && (span.Some? ==> spanPos <= p)
      reads `span, `spanPos
    {
      if span.Some? then SpanData(span, data[spanPos..p]) else []
    }

    // What this buffer has brought and is not handed out, and never will be if an error comes now
    ghost function Holding(data: seq<byte>, p: nat): seq<Out>
      requires p <= |data| && (span.Some? ==> spanPos <= p)
      reads `span, `spanPos, `lost
    {
      lost + Pending(data, p)
    }

    // All that has been shown to the user or will be
    ghost function Seen(data: seq<byte>, p: nat): seq<Out>
      requires p <= |data| && (span.Some? ==> spanPos <= p)
      reads `span, `spanPos, `trace, `lost
    {
      Flat(trace) + Holding(data, p)
    }

    // Parsing the rest of the buffer leads to `goal`.
    ghost predicate HeadedFor(goal: Goal, data: seq<byte>, p: nat)
      reads this
    {
      && p <= |data| && Ok(Parser()) && (span.Some? ==> spanPos <= p) && (core.error == 0 ==> lost == [])
      && var (q, outs) := Parsed(Parser(), data[p..]);
         goal == Goal(q, Seen(data, p) + outs, Held(Parser(), data[p..], Holding(data, p)))
    }

    // The span callback at the end of a span or of the buffer
    method Emit(data: seq<byte>, p: nat)
      requires span.Some? && spanPos <= p <= |data|
      modifies `trace
      ensures Flat(trace) == old(Flat(trace)) + Pending(data, p)
    {
      FlatOne(trace, Fragment(span.value, data[spanPos..p]));
      assert [Fragment(span.value, data[spanPos..p])][..0] == [];
      trace := trace + [Fragment(span.value, data[spanPos..p])];
    }

    method Invoke(calls: seq<Call>)
      modifies `trace
      ensures Flat(trace) == old(Flat(trace)) + Calls(calls)
    {
      FlatCallbacks(trace, calls);
      trace := trace + Callbacks(calls);
    }

    // What a state does before it consumes the byte
    method Before(e: Effect, data: seq<byte>, p: nat)
      requires p <= |data| && (span.Some? ==> spanPos <= p) && lost == []
      requires (e.open.Some? ==> span == None) && (e.shut ==> e.open.Some? || span.Some?)
      requires e.before != [] ==> e.open.Some? || SpanAt(span, e) == None
      modifies `span, `spanPos, `trace
      ensures span == SpanAt(old(span), e) && (span.Some? ==> spanPos <= p)
      ensures Seen(data, p) == old(Seen(data, p)) + Calls(e.before)
      ensures Holding(data, p) == if e.shut || e.open.Some? then [] else old(Holding(data, p))
    {
      if e.open.Some? {
        span, spanPos := e.open, p;
      }
      if e.shut {
        EndSpan(data, p);
      }
      assert Seen(data, p) == old(Seen(data, p));
      InvokeOutside(e.before, data, p);
    }

    method EndSpan(data: seq<byte>, p: nat)
      requires span.Some? && spanPos <= p <= |data| && lost == []
      modifies `trace, `span
      ensures span == None && Seen(data, p) == old(Seen(data, p)) && Holding(data, p) == []
    {
      hide Flat, SpanData;
      Emit(data, p);
      span := None;
    }

    // What it does when it has consumed the byte
    method After(e: Effect, data: seq<byte>, p: nat)
      requires p < |data| && (span.Some? ==> spanPos <= p) && lost == []
      requires (e.shutAfter ==> span.Some?) && (e.after != [] ==> e.shutAfter || span == None)
      modifies `span, `trace
      ensures span == if e.shutAfter then None else old(span)
      ensures Seen(data, p + 1) == old(Seen(data, p)) + (Consumed(old(span), data[p]) + Calls(e.after))
      ensures Holding(data, p + 1) == if e.shutAfter then [] else old(Holding(data, p)) + Consumed(old(span), data[p])
    {
      hide Flat, SpanData, Calls, Consumed;
      OneMore(data, p);
      if e.shutAfter {
        EndSpan(data, p + 1);
      }
      InvokeOutside(e.after, data, p + 1);
      assert (old(Seen(data, p)) + Consumed(old(span), data[p])) + Calls(e.after)
          == old(Seen(data, p)) + (Consumed(old(span), data[p]) + Calls(e.after));
    }

    // Callbacks that do not cut into a span
    method InvokeOutside(calls: seq<Call>, data: seq<byte>, p: nat)
      requires p <= |data| && (span.Some? ==> spanPos <= p) && lost == []
      requires calls != [] ==> Pending(data, p) == []
      modifies `trace
      ensures Seen(data, p) == old(Seen(data, p)) + Calls(calls) && Holding(data, p) == old(Holding(data, p))
    {
      assert Calls([]) == [];
      Invoke(calls);
    }

    lemma OneMore(data: seq<byte>, p: nat)
      requires p < |data| && (span.Some? ==> spanPos <= p)
      ensures Seen(data, p + 1) == Seen(data, p) + Consumed(span, data[p])
      ensures Holding(data, p + 1) == Holding(data, p) + Consumed(span, data[p])
    {
      assert span.Some? ==>
          SpanData(span, data[spanPos..p + 1]) == SpanData(span, data[spanPos..p]) + Consumed(span, data[p]);
    }

    // The transitions of a state for one byte
    method Step(data: seq<byte>, p: nat) returns (p': nat)
      requires p < |data| && Ok(Parser()) && (span.Some? ==> spanPos <= p) && core.error == 0 && lost == []
      modifies this
      ensures var e := Look(old(core), data[p]);
        && p' == (if e.consumed then p + 1 else p) && Parser() == ResponseFold.After(old(Parser()), e)
        && (span.Some? ==> spanPos <= p') && (core.error == 0 ==> lost == [])
        && Seen(data, p') == old(Seen(data, p)) + Shown(old(Parser()), data[p], e)
        && Holding(data, p') == HeldAfter(old(span), e, data[p], old(Holding(data, p)))
    {
      hide Look, Seen, Holding, Flat, SpanData, Calls, Consumed;
      var e := Look(core, data[p]);
      LookSpans(core, data[p]);
      AfterOk(Parser(), data[p]);
      ghost var seen := Seen(data, p);
      Before(e, data, p);
      core := e.core;
      p' := p;
      if e.consumed {
        After(e, data, p);
        p' := p + 1;
        assert seen + Calls(e.before) + (Consumed(SpanAt(old(span), e), data[p]) + Calls(e.after))
            == seen + (Calls(e.before) + (Consumed(SpanAt(old(span), e), data[p]) + Calls(e.after)));
      }
      assert seen + (Calls(e.before) + []) == seen + Calls(e.before);
      assert Seen(data, p') == seen + Shown(old(Parser()), data[p], e);
      if core.error != 0 {
        DropSpan(data, p');
      }
    }

    // After an error the data of an open span is not handed out any more.
    method DropSpan(data: seq<byte>, p: nat)
      requires p <= |data| && (span.Some? ==> spanPos <= p) && lost == []
      modifies `span, `lost
      ensures span == None && Seen(data, p) == old(Seen(data, p)) && Holding(data, p) == old(Holding(data, p))
    {
      lost := Pending(data, p);
      span := None;
    }

    // What is left of the buffer lies within the body.
    lemma Inside(goal: Goal, data: seq<byte>, p: nat)
      requires HeadedFor(goal, data, p) && core.error == 0 && Consuming(core.state) && |data| - p < core.contentLength
      ensures Ok(Skipped(Parser(), |data| - p)) && span.Some? && spanPos <= p
      ensures goal == Goal(Skipped(Parser(), |data| - p), Seen(data, p) + SpanData(span, data[p..]),
                           Holding(data, p) + SpanData(span, data[p..]))
    {
      hide SpanData, Seen, Holding;
      HeldSkip(Parser(), data[p..], |data[p..]|, Holding(data, p));
      var rest := data[p..];
      BulkSkip(Parser(), rest, |rest|);
      assert rest[..|rest|] == rest && rest[|rest|..] == [];
      assert SpanData(span, rest) + [] == SpanData(span, rest);
    }

    // The body ends in this buffer.
    lemma Beyond(goal: Goal, data: seq<byte>, p: nat)
      requires HeadedFor(goal, data, p) && core.error == 0 && Consuming(core.state) && core.contentLength <= |data| - p
      ensures var p', e := p + core.contentLength, ConsumeDone(core.(contentLength := 0));
        && p < p' && Ok(ResponseFold.Parser(e.core, None)) && span.Some? && spanPos <= p && lost == []
        && var (q, outs) := Parsed(ResponseFold.Parser(e.core, None), data[p'..]);
           goal == Goal(q, Seen(data, p) + SpanData(span, data[p..p']) + Calls(e.after) + outs,
                        Held(ResponseFold.Parser(e.core, None), data[p'..], []))
    {
      hide SpanData, Seen, ConsumeDone, Calls, Parsed, CoreOk, Held, Holding;
      ConsumedOk(Parser());
      HeldSkipAll(Parser(), data[p..], Holding(data, p));
      var need, e := core.contentLength, ConsumeDone(core.(contentLength := 0));
      SkipAll(Parser(), data[p..]);
      assert data[p..][need..] == data[p + need..] && data[p..][..need] == data[p..p + need];
      Regroup(Seen(data, p), SpanData(span, data[p..p + need]), Calls(e.after),
              Parsed(ResponseFold.Parser(e.core, None), data[p + need..]).1);
    }

    lemma MoreData(data: seq<byte>, p: nat, p': nat)
      requires p <= p' <= |data| && span.Some? && spanPos <= p
      ensures Seen(data, p') == Seen(data, p) + SpanData(span, data[p..p'])
      ensures Holding(data, p') == Holding(data, p) + SpanData(span, data[p..p'])
    {
      hide SpanData, Flat;
      assert data[spanPos..p'] == data[spanPos..p] + data[p..p'];
      SpanDataConcat(span, data[spanPos..p], data[p..p']);
    }

    // The buffer holds what is left of the body.
    method ConsumeAll(data: seq<byte>, p: nat) returns (p': nat)
      requires p + core.contentLength <= |data| && span.Some? && spanPos <= p && lost == []
      modifies this
      ensures p' == p + old(core).contentLength && lost == []
      ensures var e := ConsumeDone(old(core).(contentLength := 0));
        && core == e.core && span == None && Holding(data, p') == []
        && Seen(data, p') == old(Seen(data, p)) + SpanData(old(span), data[p..p']) + Calls(e.after)
    {
      hide SpanData, Flat, Calls;
      p' := p + core.contentLength;
      MoreData(data, p, p');
      core := core.(contentLength := 0);
      EndSpan(data, p');
      var e := ConsumeDone(core);
      InvokeOutside(e.after, data, p');
      core := e.core;
    }

    // consume_content_length
    method Consume(ghost goal: Goal, data: seq<byte>, p: nat) returns (p': nat)
      requires HeadedFor(goal, data, p) && p < |data| && core.error == 0 && Consuming(core.state)
      modifies this
      ensures HeadedFor(goal, data, p') && p < p'
    {
      hide SpanData, Seen, ConsumeDone, Calls, Parsed, CoreOk, Held, Holding;
      var avail, need := |data| - p, core.contentLength;
      if avail >= need {
        Beyond(goal, data, p);
        p' := ConsumeAll(data, p);
        assert Parser() == ResponseFold.Parser(core, None);
      } else {
        Inside(goal, data, p);
        p' := |data|;
        assert data[p..] == data[p..p'];
        MoreData(data, p, p');
        core := core.(contentLength := need - avail);
        AtEnd(data);
      }
    }

    lemma AtEnd(data: seq<byte>)
      requires span.Some? ==> spanPos <= |data|
      ensures var (q, outs) := Parsed(Parser(), data[|data|..]);
        q == Parser() && Seen(data, |data|) + outs == Seen(data, |data|)
      ensures Held(Parser(), data[|data|..], Holding(data, |data|)) == Holding(data, |data|)
    {
      assert data[|data|..] == [];
    }

    // The same as HeadedFor, with another position in the sequence that is being matched.
    ghost predicate Matched(goal: Goal, data: seq<byte>, p: nat, index: nat)
      reads this
    {
      && p <= |data| && Ok(Parser()) && (span.Some? ==> spanPos <= p) && (core.error == 0 ==> lost == [])
      && var (q, outs) := Parsed(ResponseFold.Parser(core.(index := index), span), data[p..]);
         goal == Goal(q, Seen(data, p) + outs,
                      Held(ResponseFold.Parser(core.(index := index), span), data[p..], Holding(data, p)))
    }

    lemma OneMatched(goal: Goal, data: seq<byte>, p: nat, index: nat)
      requires Matched(goal, data, p, index) && p < |data| && Matching(core.state)
      requires Fits(core.state, index, data[p]) && index + 1 < |Pattern(core.state).1|
      ensures Matched(goal, data, p + 1, index + 1)
    {
      hide Parsed, Seen, Fits, Pattern, Consumed, Held, Holding;
      MatchMore(ResponseFold.Parser(core.(index := index), span), data[p..]);
      HeldMatchMore(ResponseFold.Parser(core.(index := index), span), data[p..], Holding(data, p));
      assert data[p..][1..] == data[p + 1..];
      OneMore(data, p);
      var outs := Parsed(ResponseFold.Parser(core.(index := index + 1), span), data[p + 1..]).1;
      assert Seen(data, p) + (Consumed(span, data[p]) + outs) == (Seen(data, p) + Consumed(span, data[p])) + outs;
    }

    lemma OneStep(goal: Goal, data: seq<byte>, p: nat)
      requires HeadedFor(goal, data, p) && p < |data| && core.error == 0
      ensures var e := Look(core, data[p]);
        var (q, outs) := Parsed(ResponseFold.After(Parser(), e), data[if e.consumed then p + 1 else p..]);
        goal == Goal(q, Seen(data, p) + Shown(Parser(), data[p], e) + outs,
                     Held(ResponseFold.After(Parser(), e), data[if e.consumed then p + 1 else p..],
                          HeldAfter(span, e, data[p], Holding(data, p))))
    {
      hide Parsed, Seen, Look, Shown, Holding, HeldAfter;
      ParsedLook(Parser(), data[p..]);
      assert data[p..][1..] == data[p + 1..];
      var e := Look(core, data[p]);
      var outs := Parsed(ResponseFold.After(Parser(), e), data[if e.consumed then p + 1 else p..]).1;
      assert Seen(data, p) + (Shown(Parser(), data[p], e) + outs) == Seen(data, p) + Shown(Parser(), data[p], e) + outs;
    }

    // A byte of any other state
    method Other(ghost goal: Goal, data: seq<byte>, p: nat) returns (p': nat)
      requires HeadedFor(goal, data, p) && p < |data| && core.error == 0
      modifies this
      ensures HeadedFor(goal, data, p')
      ensures p' == p + 1 || (p' == p && Rank(core.state) < Rank(old(core).state))
    {
      hide Parsed, Seen, Look, Shown, Rank, CoreOk, Held, Holding, HeldAfter;
      OneStep(goal, data, p);
      LookRank(core, data[p]);
      AfterOk(Parser(), data[p]);
      p' := Step(data, p);
    }

    // llparse__match_sequence_* and what follows when it is complete or does not match
    method Match(ghost goal: Goal, data: seq<byte>, p: nat) returns (p': nat)
      requires HeadedFor(goal, data, p) && p < |data| && core.error == 0 && Matching(core.state)
      modifies this
      ensures HeadedFor(goal, data, p')
      ensures p < p' || (p' == p && Rank(core.state) < Rank(old(core).state))
    {
      hide Parsed, Seen, Rank, Pattern, Fits, Held, Holding;
      var index: nat := core.index;
      p' := p;
      while p' < |data| && Fits(core.state, index, data[p']) && index + 1 < |Pattern(core.state).1|
        invariant p <= p' && Matched(goal, data, p', index) && core == old(core)
      {
        OneMatched(goal, data, p', index);
        index, p' := index + 1, p' + 1;
      }
      core := core.(index := index);
      if p' < |data| {
        p' := Other(goal, data, p');
      }
    }

    // llhttp__internal__run
    method RunToEnd(ghost goal: Goal, data: seq<byte>) returns (p: nat)
      requires HeadedFor(goal, data, 0) && core.error == 0
      modifies this
      ensures HeadedFor(goal, data, p) && (p == |data| || core.error != 0)
    {
      hide Parsed, Seen, CoreOk, Rank, Held, Holding;
      p := 0;
      while p < |data| && core.error == 0
        invariant HeadedFor(goal, data, p)
        decreases |data| - p, Rank(core.state)
      {
        if Consuming(core.state) {
          p := Consume(goal, data, p);
        } else if Matching(core.state) {
          p := Match(goal, data, p);
        } else {
          p := Other(goal, data, p);
        }
      }
    }

    // llhttp__internal_execute: after any buffer the parser is where the fold over its bytes leads, and
    // the callbacks have shown what the fold shows.  Only an error can keep data of an open span back.
    method Execute(data: seq<byte>) returns (error: nat)
      requires Ok(Parser())
      modifies this
      ensures Ok(Parser()) && error == core.error
      ensures Parser() == Parsed(old(Parser()), data).0
      ensures Flat(trace) == Flat(old(trace)) + Handed(old(Parser()), data) && lost == Lost(old(Parser()), data)
    {
      hide Parsed, Seen, CoreOk, Rank, Flat, Held, Holding, Handed, Lost;
      lost := [];
      if core.error != 0 {
        FailedHands(Parser(), data, Flat(trace));
        return core.error;
      }
      spanPos := 0;
      ghost var goal := Goal(Parsed(Parser(), data).0, Flat(trace) + Parsed(Parser(), data).1,
                             Held(Parser(), data, []));
      Starting(goal, data);
      var p := RunToEnd(goal, data);
      Finish(goal, data, p);
      error := core.error;
      LostIs(old(Parser()), data, goal.held);
      HandedIs(old(Parser()), data, Flat(old(trace)), Flat(trace), lost);
    }

    // The end of the buffer, or an error
    method Finish(ghost goal: Goal, data: seq<byte>, ghost p: nat)
      requires HeadedFor(goal, data, p) && (p == |data| || core.error != 0)
      modifies `trace
      ensures goal.parser == Parser() && Flat(trace) + lost == goal.outs
      ensures core.error == 0 ==> lost == []
      ensures core.error != 0 ==> lost == goal.held
    {
      hide Parsed, Seen, CoreOk, Flat, Held, Holding;
      Stopped(goal, data, p);
      if span.Some? {
        EndBuffer(data);
      } else {
        NothingPending(data, p);
      }
    }

    lemma NothingPending(data: seq<byte>, p: nat)
      requires p <= |data| && span == None
      ensures Seen(data, p) == Flat(trace) + lost
    {
      assert lost + [] == lost;
    }

    lemma Starting(goal: Goal, data: seq<byte>)
      requires Ok(Parser()) && spanPos == 0 && lost == []
      requires var (q, outs) := Parsed(Parser(), data); goal == Goal(q, Flat(trace) + outs, Held(Parser(), data, []))
      ensures HeadedFor(goal, data, 0)
    {
      assert data[0..] == data && data[0..0] == [];
      assert Seen(data, 0) == Flat(trace);
    }

    lemma Stopped(goal: Goal, data: seq<byte>, p: nat)
      requires HeadedFor(goal, data, p) && (p == |data| || core.error != 0)
      ensures goal == Goal(Parser(), Seen(data, p), Holding(data, p))
      ensures core.error != 0 ==> span == None && Seen(data, p) == Flat(trace) + lost && Holding(data, p) == lost
      ensures core.error == 0 ==> lost == [] && p == |data|
    {
      if core.error != 0 {
        FailedStays(Parser(), data[p..]);
        assert Seen(data, p) == Seen(data, p) + [] && Seen(data, p) == Flat(trace) + lost;
      } else {
        AtEnd(data);
      }
    }

    // The span callback at the end of a buffer; the span stays open.
    method EndBuffer(data: seq<byte>)
      requires span.Some? && spanPos <= |data| && lost == []
      modifies `trace
      ensures Flat(trace) + lost == old(Seen(data, |data|))
    {
      Emit(data, |data|);
    }
  }

  lemma FailedHands(p: Parser, data: seq<byte>, trace: seq<Out>)
    requires Ok(p) && p.core.error != 0
    ensures Parsed(p, data).0 == p && Lost(p, data) == [] && trace == trace + Handed(p, data)
  {
    FailedStays(p, data);
    assert |Handed(p, data) + []| == 0;
  }

  lemma LostIs(p: Parser, data: seq<byte>, held: seq<Out>)
    requires p.core.error == 0 && held == Held(p, data, [])
    ensures Lost(p, data) == if Parsed(p, data).0.core.error == 0 then [] else held
  {
  }

  lemma HandedIs(p: Parser, data: seq<byte>, before: seq<Out>, after: seq<Out>, lost: seq<Out>)
    requires Ok(p) && lost == Lost(p, data) && after + lost == before + Parsed(p, data).1
    ensures after == before + Handed(p, data)
  {
    hide Parsed, Lost, Ok, Handed;
    assert (before + Handed(p, data)) + lost == before + (Handed(p, data) + lost);
    SameStart(after, before + Handed(p, data), lost);
  }

  // Two buffers one after the other, whatever state the first one ended in, leave the same parser as one
  // buffer with all the bytes.  They show the same, too, with the exception that SplitHanded names.
  method ExecuteBoth(parser: ResponseParser, a: seq<byte>, b: seq<byte>) returns (error: nat)
    requires Ok(parser.Parser())
    modifies parser
    ensures Ok(parser.Parser()) && error == parser.core.error
    ensures var p := old(parser.Parser()); var one := Flat(old(parser.trace)) + Handed(p, a + b);
      && parser.Parser() == Parsed(p, a + b).0
      && (Flat(parser.trace) == one <==> !CutOff(p, a, b))
      && (CutOff(p, a, b) ==> Flat(parser.trace) == one + Held(p, a, []))
      && (error == 0 ==> Flat(parser.trace) == Flat(old(parser.trace)) + Parsed(p, a + b).1)
  {
    hide Parsed, Flat, CoreOk, Handed, Lost, Held, CutOff;
    ghost var p, shown := parser.Parser(), Flat(parser.trace);
    ParsedConcat(p, a, b);
    SplitHanded(p, a, b);
    error := parser.Execute(a);
    ghost var p' := parser.Parser();
    error := parser.Execute(b);
    if error == 0 {
      NothingLost(p, a + b);
    }
    Shifted(shown, Handed(p, a), Handed(p', b), Handed(p, a + b), Held(p, a, []));
  }

  lemma NothingLost(p: Parser, data: seq<byte>)
    requires Ok(p) && Parsed(p, data).0.core.error == 0
    ensures Handed(p, data) == Parsed(p, data).1
  {
    assert Handed(p, data) + [] == Handed(p, data);
  }

  lemma Shifted<T>(shown: seq<T>, first: seq<T>, second: seq<T>, one: seq<T>, more: seq<T>)
    ensures shown + first + second == shown + one <==> first + second == one
    ensures first + second == one + more ==> shown + first + second == shown + one + more
  {
    assert shown + first + second == shown + (first + second) && shown + one + more == shown + (one + more);
    assert (shown + (first + second))[|shown|..] == first + second && (shown + one)[|shown|..] == one;
  }
}
