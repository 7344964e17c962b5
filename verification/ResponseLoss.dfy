/**
 What an error makes the parser lose: the data of the open span that came with the last buffer.  That
 depends on how the stream is cut into buffers, and this module says exactly how.
 */
module ResponseLoss {
  import opened Basics
  import opened FramingRules
  import opened ResponseStates
  import opened ResponseFold

  // The data held back after one look at a byte; what a span held ends with it.
  function HeldAfter(span: Option<Span>, e: Effect, b: byte, held: seq<Out>): seq<Out> {
    if e.shutAfter then []
    else (if e.shut || e.open.Some? then [] else held) + if e.consumed then Consumed(SpanAt(span, e), b) else []
  }

  // The data of the open span that the buffer has brought: not handed out before the span or the buffer
  // ends, and never after an error.
  function Held(p: Parser, data: seq<byte>, held: seq<Out>): seq<Out>
    decreases |data|, Rank(p.core.state)
  {
    if data == [] || p.core.error != 0 then held
    else
      var e := Look(p.core, data[0]);
      LookRank(p.core, data[0]);
      Held(After(p, e), if e.consumed then data[1..] else data, HeldAfter(p.span, e, data[0], held))
  }

  // What is lost when the parser is given a buffer
  function Lost(p: Parser, data: seq<byte>): seq<Out> {
    if p.core.error != 0 || Parsed(p, data).0.core.error == 0 then [] else Held(p, data, [])
  }

  // The span that is open stays so to the end of the buffer or to the error.
  predicate StaysOpen(p: Parser, data: seq<byte>)
    decreases |data|, Rank(p.core.state)
  {
    data == [] || p.core.error != 0 ||
    var e := Look(p.core, data[0]);
    LookRank(p.core, data[0]);
    !e.shut && e.open.None? && !e.shutAfter && StaysOpen(After(p, e), if e.consumed then data[1..] else data)
  }

  // ---- Bulk steps --------------------------------------------------------------------------

  lemma HeldFailed(p: Parser, data: seq<byte>, held: seq<Out>)
    requires p.core.error != 0
    ensures Held(p, data, held) == held
  {
  }

  lemma HeldOne(p: Parser, data: seq<byte>, held: seq<Out>, c: Core)
    requires data != [] && p.core.error == 0 && Look(p.core, data[0]) == TakeThen(c, []) && !c.state.Failed?
    ensures Held(p, data, held) == Held(Parser(c, p.span), data[1..], held + Consumed(p.span, data[0]))
  {
    hide Look;
  }

  lemma HeldSkipOne(p: Parser, data: seq<byte>, held: seq<Out>)
    requires p.core.error == 0 && Consuming(p.core.state) && data != [] && 1 < p.core.contentLength
    ensures Held(p, data, held) == Held(Skipped(p, 1), data[1..], held + SpanData(p.span, data[..1]))
  {
    hide Held;
    assert Look(p.core, data[0]) == TakeThen(Skipped(p, 1).core, []);
    HeldOne(p, data, held, Skipped(p, 1).core);
    assert Consumed(p.span, data[0]) == SpanData(p.span, data[..1]);
  }

  lemma {:induction false} HeldSkip(p: Parser, data: seq<byte>, n: nat, held: seq<Out>)
    requires p.core.error == 0 && Consuming(p.core.state) && n <= |data| && n < p.core.contentLength
    ensures Held(p, data, held) == Held(Skipped(p, n), data[n..], held + SpanData(p.span, data[..n]))
    decreases n
  {
    hide Held, SpanData;
    if n == 0 {
      assert data[0..] == data && Skipped(p, 0) == p;
      NoSpanData(p.span);
      assert data[..0] == [] && held + [] == held;
    } else {
      HeldSkipOne(p, data, held);
      var first, rest := data[..1], data[1..][..n - 1];
      HeldSkip(Skipped(p, 1), data[1..], n - 1, held + SpanData(p.span, first));
      assert data[1..][n - 1..] == data[n..] && Skipped(Skipped(p, 1), n - 1) == Skipped(p, n);
      assert data[..n] == first + rest;
      SpanDataConcat(p.span, first, rest);
      assert (held + SpanData(p.span, first)) + SpanData(p.span, rest)
          == held + (SpanData(p.span, first) + SpanData(p.span, rest));
    }
  }

  lemma NoSpanData(span: Option<Span>)
    ensures SpanData(span, []) == []
  {
  }

  lemma HeldLastByte(p: Parser, data: seq<byte>, held: seq<Out>)
    requires p.core.error == 0 && Consuming(p.core.state) && p.core.contentLength == 1 && data != []
    ensures var e := ConsumeDone(p.core.(contentLength := 0));
      Held(p, data, held) == Held(Parser(e.core, None), data[1..], [])
  {
    var e := Look(p.core, data[0]);
    assert e == ConsumeDone(p.core.(contentLength := 0));
    assert e.consumed && e.shutAfter && !e.shut && e.open == None;
  }

  // The end of a body hands out what was held.
  lemma HeldSkipAll(p: Parser, data: seq<byte>, held: seq<Out>)
    requires p.core.error == 0 && Consuming(p.core.state) && 0 < p.core.contentLength <= |data|
    ensures var need, e := p.core.contentLength, ConsumeDone(p.core.(contentLength := 0));
      Held(p, data, held) == Held(Parser(e.core, None), data[need..], [])
  {
    hide Held, ConsumeDone, SpanData;
    var need := p.core.contentLength;
    var p', rest := Skipped(p, need - 1), data[need - 1..];
    HeldSkip(p, data, need - 1, held);
    HeldLastByte(p', rest, held + SpanData(p.span, data[..need - 1]));
    assert rest[1..] == data[need..];
    assert p'.core.(contentLength := 0) == p.core.(contentLength := 0);
  }

  lemma HeldMatchMore(p: Parser, data: seq<byte>, held: seq<Out>)
    requires p.core.error == 0 && CoreOk(p.core)
    requires data != [] && Matching(p.core.state) && Fits(p.core.state, p.core.index, data[0])
    requires p.core.index + 1 < |Pattern(p.core.state).1|
    ensures var p' := p.(core := p.core.(index := p.core.index + 1));
      Held(p, data, held) == Held(p', data[1..], held + Consumed(p.span, data[0]))
  {
    hide Held, Fits, Pattern;
    var c := p.core.(index := p.core.index + 1);
    assert Look(p.core, data[0]) == TakeThen(c, []);
    HeldOne(p, data, held, c);
  }

  // ---- Two buffers -------------------------------------------------------------------------

  // What is held at the end of a first buffer is handed on.
  lemma {:induction false} HeldConcat(p: Parser, a: seq<byte>, b: seq<byte>, held: seq<Out>)
    requires Ok(p)
    ensures Held(p, a + b, held) == Held(Parsed(p, a).0, b, Held(p, a, held))
    decreases |a|, Rank(p.core.state)
  {
    hide Look, Rank, Ok, HeldAfter, CoreOk;
    if a == [] {
      assert a + b == b;
    } else if p.core.error != 0 {
      FailedStays(p, a);
    } else {
      var e := Look(p.core, a[0]);
      LookRank(p.core, a[0]);
      AfterOk(p, a[0]);
      ParsedLook(p, a);
      var rest := if e.consumed then a[1..] else a;
      assert (a + b)[0] == a[0] && (if e.consumed then (a + b)[1..] else a + b) == rest + b;
      assert After(p, e).core == e.core;
      HeldConcat(After(p, e), rest, b, HeldAfter(p.span, e, a[0], held));
    }
  }

  // Data held before matters exactly as long as its span stays open.
  lemma {:induction false} HeldBefore(p: Parser, data: seq<byte>, held: seq<Out>, more: seq<Out>)
    ensures Held(p, data, held + more)
        == (if StaysOpen(p, data) then held + Held(p, data, more) else Held(p, data, more))
    decreases |data|, Rank(p.core.state)
  {
    hide Look, Rank;
    if data != [] && p.core.error == 0 {
      var e := Look(p.core, data[0]);
      LookRank(p.core, data[0]);
      var rest := if e.consumed then data[1..] else data;
      var shown := if e.consumed then Consumed(SpanAt(p.span, e), data[0]) else [];
      if !e.shut && e.open.None? && !e.shutAfter {
        assert After(p, e).core == e.core;
        HeldBefore(After(p, e), rest, held, more + shown);
        assert (held + more) + shown == held + (more + shown);
      }
    }
  }

  // ---- What is handed out ------------------------------------------------------------------

  predicate EndsWith(s: seq<Out>, end: seq<Out>) {
    |end| <= |s| && s[|s| - |end|..] == end
  }

  // One look keeps the held data at the end of what is shown.
  lemma HeldAfterEnds(p: Parser, b: byte, shown: seq<Out>, held: seq<Out>)
    requires p.core.error == 0 && Ok(p) && EndsWith(shown, held) && (p.span == None ==> held == [])
    ensures var e := Look(p.core, b);
      && EndsWith(shown + Shown(p, b, e), HeldAfter(p.span, e, b, held))
      && (After(p, e).span == None && After(p, e).core.error == 0 ==> HeldAfter(p.span, e, b, held) == [])
  {
    hide Look, Ok;
    var e := Look(p.core, b);
    LookSpans(p.core, b);
    OkSpan(p);
    LookFails(p, b);
    assert Calls([]) == [];
  }

  lemma OkSpan(p: Parser)
    requires Ok(p)
    ensures p.span == SpanOf(p.core.state)
  {
  }

  lemma LookFails(p: Parser, b: byte)
    requires Ok(p) && p.core.error == 0
    ensures var e := Look(p.core, b); e.core.state.Failed? <==> e.core.error != 0
  {
    LookOk(p.core, b);
  }

  // So what is lost is the end of what the bytes mean.
  lemma {:induction false} HeldEnds(p: Parser, data: seq<byte>, shown: seq<Out>, held: seq<Out>)
    requires Ok(p) && EndsWith(shown, held) && (p.core.error == 0 && p.span == None ==> held == [])
    ensures EndsWith(shown + Parsed(p, data).1, Held(p, data, held))
    decreases |data|, Rank(p.core.state)
  {
    hide Look, Rank, Ok, HeldAfter, CoreOk, Shown;
    if data == [] {
      assert shown + [] == shown;
    } else if p.core.error != 0 {
      FailedStays(p, data);
      assert shown + [] == shown;
    } else {
      var e := Look(p.core, data[0]);
      LookRank(p.core, data[0]);
      AfterOk(p, data[0]);
      ParsedLook(p, data);
      HeldAfterEnds(p, data[0], shown, held);
      assert After(p, e).core == e.core;
      var rest := if e.consumed then data[1..] else data;
      HeldEnds(After(p, e), rest, shown + Shown(p, data[0], e), HeldAfter(p.span, e, data[0], held));
      assert (shown + Shown(p, data[0], e)) + Parsed(After(p, e), rest).1
          == shown + (Shown(p, data[0], e) + Parsed(After(p, e), rest).1);
    }
  }

  // What one call with a buffer hands out: all that the bytes mean but what is lost
  function Handed(p: Parser, data: seq<byte>): (outs: seq<Out>)
    requires Ok(p)
    ensures outs + Lost(p, data) == Parsed(p, data).1
  {
    HeldEnds(p, data, [], []);
    assert [] + Parsed(p, data).1 == Parsed(p, data).1;
    var all := Parsed(p, data).1;
    all[..|all| - |Lost(p, data)|]
  }

  // The error in b cuts off a span that was open, with some data, at the end of a.
  predicate CutOff(p: Parser, a: seq<byte>, b: seq<byte>) {
    var p' := Parsed(p, a).0;
    && p.core.error == 0 && p'.core.error == 0 && Parsed(p', b).0.core.error != 0
    && Held(p, a, []) != [] && StaysOpen(p', b)
  }

  // Two buffers hand out the same as one with all the bytes, unless the error cuts off a span that reaches
  // over the boundary; then the part of its data that the first buffer holds is handed out as well.
  lemma SplitHanded(p: Parser, a: seq<byte>, b: seq<byte>)
    requires Ok(p)
    ensures Ok(Parsed(p, a).0)
    ensures var p', one := Parsed(p, a).0, Handed(p, a + b); var two := Handed(p, a) + Handed(p', b);
      && (two == one <==> !CutOff(p, a, b))
      && (CutOff(p, a, b) ==> two == one + Held(p, a, []))
  {
    hide Parsed, Held, StaysOpen, Ok, CoreOk, Handed, Lost, CutOff;
    ParsedOk(p, a);
    ParsedConcat(p, a, b);
    NoLoss(p, a, b);
    var p' := Parsed(p, a).0;
    var carried := if CutOff(p, a, b) then Held(p, a, []) else [];
    var one, first, second := Handed(p, a + b), Handed(p, a), Handed(p', b);
    LossIs(p, a, b, carried);
    if p'.core.error != 0 {
      FailedStays(p', b);
      Stopped(one, first, second, Lost(p, a), Lost(p', b), Parsed(p, a).1);
    } else {
      Went(one, carried, first, second, Lost(p', b), Parsed(p, a).1, Parsed(p', b).1);
    }
  }

  lemma Stopped<T>(one: seq<T>, first: seq<T>, second: seq<T>, lost: seq<T>, none: seq<T>, outs: seq<T>)
    requires one + lost == outs + [] && first + lost == outs && second + none == []
    ensures first + second == one == one + []
  {
    assert |second + none| == 0;
    SameStart(one, first, lost);
  }

  lemma Went<T>(one: seq<T>, carried: seq<T>, first: seq<T>, second: seq<T>, lost: seq<T>, a: seq<T>, b: seq<T>)
    requires one + (carried + lost) == a + b && first + [] == a && second + lost == b
    ensures first + second == one + carried
  {
    assert (one + carried) + lost == one + (carried + lost) && (first + second) + lost == first + (second + lost);
    SameStart(one + carried, first + second, lost);
  }

  lemma NoLoss(p: Parser, a: seq<byte>, b: seq<byte>)
    ensures Parsed(p, a).0.core.error == 0 ==> Lost(p, a) == []
    ensures CutOff(p, a, b) ==> Held(p, a, []) != [] && Parsed(p, a).0.core.error == 0
  {
  }

  lemma SameStart<T>(a: seq<T>, b: seq<T>, end: seq<T>)
    requires a + end == b + end
    ensures a == b
  {
    assert |a| == |b|;
    assert (a + end)[..|a|] == a && (b + end)[..|b|] == b;
  }

  lemma LossIs(p: Parser, a: seq<byte>, b: seq<byte>, carried: seq<Out>)
    requires Ok(p) && carried == if CutOff(p, a, b) then Held(p, a, []) else []
    ensures var p' := Parsed(p, a).0;
      Lost(p, a + b) == if p'.core.error != 0 then Lost(p, a) else carried + Lost(p', b)
  {
    hide Parsed, Held, StaysOpen, Ok, CoreOk;
    ParsedConcat(p, a, b);
    var p' := Parsed(p, a).0;
    if p.core.error != 0 {
      FailedStays(p, a);
      FailedStays(p, b);
    } else if p'.core.error != 0 {
      ParsedOk(p, a);
      FailedStays(p', b);
      HeldConcat(p, a, b, []);
      HeldFailed(p', b, Held(p, a, []));
    } else {
      HeldConcat(p, a, b, []);
      HeldBefore(p', b, Held(p, a, []), []);
      assert Held(p, a, []) + [] == Held(p, a, []);
    }
  }
}
