/**
 The end of the stream: wperfk accepts it inside a response exactly where the body is read until the
 server closes the connection (src/wrk.c, section 3.3.3 of RFC 7230).
 */
module ResponseEof {
  import opened Basics
  import opened FramingRules
  import opened ResponseStates
  import opened ResponseFold

  // connection->in_response, which response_begin sets and response_complete clears.
  function Responding(was: bool, outs: seq<Out>): bool
    decreases |outs|
  {
    if outs == [] then was
    else
      var now := if outs[0] == Called(MessageBegin) then true
          else if outs[0] == Called(MessageComplete) then false else was;
      Responding(now, outs[1..])
  }

  lemma {:induction false} RespondingConcat(was: bool, a: seq<Out>, b: seq<Out>)
    ensures Responding(was, a + b) == Responding(Responding(was, a), b)
    decreases |a|
  {
    if a == [] {
      assert a + b == b;
    } else {
      assert (a + b)[0] == a[0] && (a + b)[1..] == a[1..] + b;
      var now := if a[0] == Called(MessageBegin) then true else if a[0] == Called(MessageComplete) then false else was;
      RespondingConcat(now, a[1..], b);
    }
  }

  // ---- The agreement of the two framing functions ------------------------------------------

  // llhttp_message_needs_eof agrees with the decision to read until the connection closes exactly for
  // the statuses that are not informational.
  lemma EofAgreement(f: Framing, contentLength: nat)
    requires AfterHeadersComplete(f, contentLength) == EofBody
    ensures MessageNeedsEof(f) <==> f.status / 100 != 1
  {
  }

  // ---- Callbacks that begin or complete a message ------------------------------------------

  function Heard(was: bool, calls: seq<Call>): bool {
    if calls == [] then was
    else
      match calls[|calls| - 1]
      case MessageBegin => true
      case MessageComplete => false
      case _ => was
  }

  // Such a callback is the last of at most two.
  predicate LastOnly(calls: seq<Call>) {
    |calls| <= 2 && (|calls| == 2 ==> !calls[0].MessageBegin? && !calls[0].MessageComplete?)
  }

  lemma HeardIs(was: bool, calls: seq<Call>)
    requires LastOnly(calls)
    ensures Responding(was, Calls(calls)) == Heard(was, calls)
  {
    if |calls| == 1 {
      assert Calls(calls)[1..] == [];
    } else if |calls| == 2 {
      assert Calls(calls) == [Called(calls[0])] + [Called(calls[1])];
      assert Calls(calls)[1..] == [Called(calls[1])] && Calls(calls)[1..][1..] == [];
      assert Responding(was, [Called(calls[1])]) == Heard(was, calls);
    }
  }

  // A response is going on exactly while the end of the stream is not safe.
  predicate StepHeard(c: Core, e: Effect) {
    && LastOnly(e.before) && LastOnly(e.after)
    && (e.core.error == 0 ==> Heard(Heard(c.finish != Safe, e.before), e.after) == (e.core.finish != Safe))
  }

  lemma MatchHeard(c: Core, b: byte)
    requires CoreOk(c) && Matching(c.state)
    ensures StepHeard(c, MatchStep(c, b))
  {
    hide Fits, Pattern, CoreOk;
  }

  lemma VersionHeard(c: Core, b: byte)
    requires c.state.Line?
    ensures StepHeard(c, VersionStep(c, b))
  {
    hide Digit, DigitValue, KnownVersion;
  }

  lemma StatusHeard(c: Core, b: byte)
    requires c.state.Line?
    ensures StepHeard(c, StatusStep(c, b))
  {
    hide Digit, DigitValue, AddToCode;
  }

  lemma NameHeard(c: Core, b: byte)
    requires c.state.Field?
    ensures StepHeard(c, NameStep(c, b))
  {
    hide TokenChar, ToLower;
  }

  lemma HeadersDoneHeard(c: Core)
    requires c.finish == Unsafe && c.error == 0
    ensures StepHeard(c, HeadersEnd(c))
  {
    hide ShouldKeepAlive, MessageNeedsEof;
  }

  lemma BetweenHeard(c: Core, b: byte)
    requires c.state.Field? && c.finish == Unsafe && c.error == 0
    ensures StepHeard(c, BetweenStep(c, b))
  {
    hide HeadersEnd;
    HeadersDoneHeard(c);
  }

  lemma EdgeHeard(c: Core, b: byte)
    requires c.state.Value?
    ensures StepHeard(c, EdgeStep(c, b))
  {
    hide ValueChar;
  }

  lemma OptionHeard(c: Core, b: byte)
    requires c.state.Value?
    ensures StepHeard(c, OptionStep(c, b))
  {
    hide ListChar, ToLower;
  }

  lemma FramingHeard(c: Core, b: byte)
    requires c.state.Value?
    ensures StepHeard(c, FramingStep(c, b))
  {
    hide AddToLength, ListChar, Digit, DigitValue;
  }

  lemma ChunkHeard(c: Core, b: byte)
    requires c.state.Chunk? && !Consuming(c.state)
    ensures StepHeard(c, ChunkStep(c, b))
  {
    hide AddToLength, HexDigit, HexValue, ExtensionStep;
    ExtensionHeard(c, b);
  }

  lemma QuotedHeard(c: Core, b: byte)
    requires c.state.Chunk?
    ensures StepHeard(c, QuotedStep(c, b))
  {
    hide ValueChar, QuotedChar;
  }

  lemma ExtensionHeard(c: Core, b: byte)
    requires c.state.Chunk?
    ensures StepHeard(c, ExtensionStep(c, b))
  {
    hide TokenChar, QuotedStep;
    QuotedHeard(c, b);
  }

  lemma ConsumeHeard(c: Core)
    requires CoreOk(c) && c.error == 0 && Consuming(c.state)
    ensures StepHeard(c, ConsumeStep(c))
  {
  }

  lemma LookHeard(c: Core, b: byte)
    requires CoreOk(c) && c.error == 0
    ensures StepHeard(c, Look(c, b))
  {
    hide MatchStep, VersionStep, StatusStep, NameStep, BetweenStep, EdgeStep, OptionStep, FramingStep, ChunkStep;
    hide ConsumeStep;
    if Matching(c.state) {
      MatchHeard(c, b);
    } else if Consuming(c.state) {
      ConsumeHeard(c);
    } else {
      match c.state
      case Line(_) => VersionHeard(c, b); StatusHeard(c, b);
      case Field(_) =>
        NameHeard(c, b);
        BetweenHeard(c, b);
      case Value(_) =>
        EdgeHeard(c, b);
        OptionHeard(c, b);
        FramingHeard(c, b);
      case Chunk(_) => ChunkHeard(c, b);
      case _ =>
    }
  }

  // ---- The rule ----------------------------------------------------------------------------

  predicate Busy(p: Parser) {
    p.core.finish != Safe
  }

  lemma DataIsSilent(was: bool, span: Option<Span>, b: byte)
    ensures Responding(was, Consumed(span, b)) == was
  {
  }

  lemma ShownHeard(p: Parser, b: byte)
    requires Ok(p) && p.core.error == 0
    ensures var e := Look(p.core, b);
      After(p, e).core.error == 0 ==> Responding(Busy(p), Shown(p, b, e)) == Busy(After(p, e))
  {
    hide Look, Responding, Calls, Consumed;
    var e := Look(p.core, b);
    LookHeard(p.core, b);
    HeardIs(Busy(p), e.before);
    var now := Responding(Busy(p), Calls(e.before));
    HeardIs(now, e.after);
    LookSpans(p.core, b);
    if e.consumed {
      var data := Consumed(SpanAt(p.span, e), b);
      RespondingConcat(Busy(p), Calls(e.before), data + Calls(e.after));
      RespondingConcat(now, data, Calls(e.after));
      DataIsSilent(now, SpanAt(p.span, e), b);
    } else {
      assert Shown(p, b, e) == Calls(e.before);
    }
  }

  lemma {:induction false} ParsedHeard(p: Parser, data: seq<byte>)
    requires Ok(p) && p.core.error == 0
    ensures var (q, outs) := Parsed(p, data);
      q.core.error == 0 ==> Responding(Busy(p), outs) == Busy(q)
    decreases |data|, Rank(p.core.state)
  {
    hide Look, Shown, Rank, CoreOk;
    if data != [] {
      ParsedLook(p, data);
      ShownHeard(p, data[0]);
      AfterOk(p, data[0]);
      LookRank(p.core, data[0]);
      var e := Look(p.core, data[0]);
      var rest := if e.consumed then data[1..] else data;
      if e.core.error == 0 {
        ParsedHeard(After(p, e), rest);
        RespondingConcat(Busy(p), Shown(p, data[0], e), Parsed(After(p, e), rest).1);
      } else {
        FailedStays(After(p, e), rest);
      }
    }
  }

  // llhttp_finish does not return an error.
  predicate FinishAccepts(c: Core) {
    c.error != 0 || c.finish != Unsafe
  }

  // What socket_readable does at the end of the stream: the response is complete, or the connection
  // has failed.
  predicate EofCompletes(c: Core, inResponse: bool) {
    inResponse && MessageNeedsEof(c.framing) && FinishAccepts(c)
  }

  // After any bytes from the server that parse without an error, the end of the stream completes a
  // response if and only if its body is being read until the connection closes and its status is not
  // informational.
  lemma EofRule(data: seq<byte>)
    ensures var (p, outs) := Parsed(FRESH, data);
      p.core.error == 0 ==>
        (EofCompletes(p.core, Responding(false, outs))
         <==> ReadingUntilClose(p.core.state) && p.core.framing.status / 100 != 1)
  {
    hide Parsed, Responding;
    ParsedOk(FRESH, data);
    ParsedHeard(FRESH, data);
    var (p, outs) := Parsed(FRESH, data);
    if p.core.error == 0 && ReadingUntilClose(p.core.state) {
      EofAgreement(p.core.framing, p.core.contentLength);
    }
  }
}
