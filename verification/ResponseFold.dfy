/**
 What the response parser means: a fold over the bytes, one at a time.  Module ResponseEngine
 proves that the engine, which works on whole buffers, does the same.
 */
module ResponseFold {
  import opened Basics
  import opened FramingRules
  import opened ResponseStates

  // A parser and the span that is open.
  datatype Parser = Parser(core: Core, span: Option<Span>)

  const FRESH: Parser := Parser(INITIAL, None)

  // The callback trace, with the data of a span byte by byte, so that it does not matter how it was
  // cut into fragments.
  datatype Out = DataByte(span: Span, b: byte) | Called(call: Call)

  function Calls(calls: seq<Call>): seq<Out> {
    seq(|calls|, i requires 0 <= i < |calls| => Called(calls[i]))
  }

  // The span that is open when the byte is consumed.
  function SpanAt(span: Option<Span>, e: Effect): Option<Span> {
    if e.shut then None else if e.open.Some? then e.open else span
  }

  // After an error no span counts as open.
  function SpanAfter(span: Option<Span>, e: Effect): Option<Span> {
    if e.shutAfter || e.core.state.Failed? then None else SpanAt(span, e)
  }

  // The byte belongs to the span that is open when it is consumed.
  function Consumed(span: Option<Span>, b: byte): seq<Out> {
    if span.Some? then [DataByte(span.value, b)] else []
  }

  // How many states may still look at a byte before it is consumed.
  function Rank(state: State): nat {
    match state
    case Start => 10
    case Closed => 1
    case Failed => 0
    case Line(l) =>
      (match l
       case ProtocolStart => 2
       case VersionStart => 2
       case TextStart => 2
       case _ => 1)
    case Field(f) =>
      (match f
       case HeadersStart => 6
       case FieldStart => 5
       case NameStart => 4
       case General => 2
       case HeadersAlmostDone => 1
       case GeneralEnd => 1
       case _ => 3)
    case Value(v) =>
      (match v
       case ValueAlmostDone => 1
       case ValueEnd => 2
       case Plain => 3
       case OptionToken => 3
       case LengthWs => 3
       case Coding => 4
       case Chunked => 5
       case ChunkedLast => 6
       case CodingOws => 6
       case ValueStart => 7
       case DiscardWs => 8
       case EmptyValue => 6
       case DiscardLws => 7
       case Lws => 6
       case DiscardWsAlmostDone => 1
       case _ => 6)
    case Chunk(k) =>
      (match k
       case Size => 2
       case SizeAlmostDone => 1
       case SizeEnd => 1
       case DataStart => 2
       case Extension => 4
       case ExtNameStart => 3
       case ExtName => 2
       case ExtValueStart => 3
       case ExtValue => 2
       case ExtQuotedEnd => 2
       case _ => 1)
    case Body(b) =>
      (match b
       case IdentityStart => 2
       case UntilCloseStart => 2
       case _ => 1)
  }

  lemma MatchRank(c: Core, b: byte)
    requires Matching(c.state)
    ensures !MatchStep(c, b).consumed ==> Rank(MatchStep(c, b).core.state) < Rank(c.state)
  {
    hide Fits;
  }

  lemma LineRank(c: Core, b: byte)
    requires c.state.Line? && !Matching(c.state)
    ensures !LineStep(c, b).consumed ==> Rank(LineStep(c, b).core.state) < Rank(c.state)
  {
    hide Matching;
  }

  lemma FieldRank(c: Core, b: byte)
    requires c.state.Field? && !Matching(c.state)
    ensures !FieldStep(c, b).consumed ==> Rank(FieldStep(c, b).core.state) < Rank(c.state)
  {
    hide Matching;
  }

  lemma EdgeRank(c: Core, b: byte)
    requires c.state.Value? && !Matching(c.state) && !InOptions(c.state.value) && !InFraming(c.state.value)
    ensures !EdgeStep(c, b).consumed ==> Rank(EdgeStep(c, b).core.state) < Rank(c.state)
  {
    hide ValueChar;
  }

  lemma ListRank(c: Core, b: byte)
    requires c.state.Value?
    ensures InOptions(c.state.value) && !OptionStep(c, b).consumed ==>
              Rank(OptionStep(c, b).core.state) < Rank(c.state)
    ensures InFraming(c.state.value) && !FramingStep(c, b).consumed ==>
              Rank(FramingStep(c, b).core.state) < Rank(c.state)
  {
    hide ListChar, ToLower, Digit, DigitValue, AddToLength;
  }

  lemma ValueRank(c: Core, b: byte)
    requires c.state.Value? && !Matching(c.state)
    ensures !ValueStep(c, b).consumed ==> Rank(ValueStep(c, b).core.state) < Rank(c.state)
  {
    hide EdgeStep, OptionStep, FramingStep, Rank;
    if InOptions(c.state.value) || InFraming(c.state.value) {
      ListRank(c, b);
    } else {
      EdgeRank(c, b);
    }
  }

  lemma ExtensionRank(c: Core, b: byte)
    requires c.state.Chunk? && (c.state.chunk.Extension? || c.state.chunk.ExtNameStart? || c.state.chunk.ExtName?
      || c.state.chunk.ExtValueStart? || c.state.chunk.ExtValue? || InQuotes(c.state.chunk))
    ensures !ExtensionStep(c, b).consumed ==> Rank(ExtensionStep(c, b).core.state) < Rank(c.state)
  {
    hide TokenChar, QuotedChar, ValueChar;
  }

  lemma ChunkRank(c: Core, b: byte)
    requires c.state.Chunk? && !Consuming(c.state)
    ensures !ChunkStep(c, b).consumed ==> Rank(ChunkStep(c, b).core.state) < Rank(c.state)
  {
    hide ExtensionStep, HexDigit;
    if c.state.chunk.Extension? || c.state.chunk.ExtNameStart? || c.state.chunk.ExtName?
      || c.state.chunk.ExtValueStart? || c.state.chunk.ExtValue? || InQuotes(c.state.chunk) {
      ExtensionRank(c, b);
    }
  }

  // Every byte is consumed in the end.
  lemma LookRank(c: Core, b: byte)
    ensures !Look(c, b).consumed ==> Rank(Look(c, b).core.state) < Rank(c.state)
  {
    hide Matching, MatchStep, LineStep, FieldStep, ValueStep, ChunkStep;
    if Matching(c.state) {
      MatchRank(c, b);
    } else if !Consuming(c.state) {
      match c.state
      case Line(_) => LineRank(c, b);
      case Field(_) => FieldRank(c, b);
      case Value(_) => ValueRank(c, b);
      case Chunk(_) => ChunkRank(c, b);
      case _ =>
    }
  }

  function ByteStep(p: Parser, b: byte): (Parser, seq<Out>)
    decreases Rank(p.core.state)
  {
    var e := Look(p.core, b);
    LookRank(p.core, b);
    if e.consumed then
      (Parser(e.core, SpanAfter(p.span, e)), Calls(e.before) + Consumed(SpanAt(p.span, e), b) + Calls(e.after))
    else
      var (p', outs) := ByteStep(Parser(e.core, SpanAfter(p.span, e)), b);
      (p', Calls(e.before) + outs)
  }

  function Parsed(p: Parser, data: seq<byte>): (Parser, seq<Out>)
    decreases |data|
  {
    if data == [] then (p, [])
    else
      var (p', outs) := ByteStep(p, data[0]);
      var (p'', more) := Parsed(p', data[1..]);
      (p'', outs + more)
  }

  // Split independence of the fold: parsing two pieces one after the other is parsing them joined.
  lemma {:induction false} ParsedConcat(p: Parser, a: seq<byte>, b: seq<byte>)
    ensures var (p', outs) := Parsed(p, a); var (p'', more) := Parsed(p', b);
      Parsed(p, a + b) == (p'', outs + more)
    decreases |a|
  {
    hide ByteStep;
    if a == [] {
      assert a + b == b;
      assert [] + Parsed(p, b).1 == Parsed(p, b).1;
    } else {
      var (p', outs) := ByteStep(p, a[0]);
      ParsedConcat(p', a[1..], b);
      assert (a + b)[0] == a[0] && (a + b)[1..] == a[1..] + b;
      var (q, first) := Parsed(p', a[1..]);
      var (q', second) := Parsed(q, b);
      assert outs + (first + second) == (outs + first) + second;
    }
  }

  // ---- What holds in every state -----------------------------------------------------------

  // The span that is open is determined by the state.
  function SpanOf(state: State): Option<Span> {
    match state
    case Line(l) =>
      (match l
       case Protocol => Some(ProtocolSpan)
       case Http => Some(ProtocolSpan)
       case Ice => Some(ProtocolSpan)
       case Rtsp => Some(ProtocolSpan)
       case Major => Some(VersionSpan)
       case Dot => Some(VersionSpan)
       case Minor => Some(VersionSpan)
       case Text => Some(StatusSpan)
       case _ => None)
    case Field(f) => if InName(f) then Some(NameSpan) else None
    case Value(v) =>
      if v.DiscardWs? || v.DiscardWsAlmostDone? || v.DiscardLws? || v.EmptyValue? || v.ValueStart?
        || v.ValueAlmostDone? || v.Lws? then None
      else Some(ValueSpan)
    case Chunk(k) =>
      (match k
       case Content => Some(BodySpan)
       case ExtName => Some(ExtNameSpan)
       case ExtValue => Some(ExtValueSpan)
       case ExtQuoted => Some(ExtValueSpan)
       case ExtPair => Some(ExtValueSpan)
       case _ => None)
    case Body(b) => if b.Identity? || b.UntilClose? then Some(BodySpan) else None
    case _ => None
  }

  predicate ReadingUntilClose(state: State) {
    state.Body? && (state.body.UntilCloseStart? || state.body.UntilClose?)
  }

  // The field `finish` says where the end of the stream is acceptable.
  function FinishOf(state: State): Finish {
    if state.Start? || state.Closed? then Safe
    else if ReadingUntilClose(state) then SafeWithCb
    else Unsafe
  }

  predicate Lengthy(state: State) {
    (state.Chunk? && (state.chunk.Content? || state.chunk.DataStart?))
    || (state.Body? && (state.body.Identity? || state.body.IdentityStart?))
  }

  predicate CoreOk(c: Core) {
    && (c.error == 0 <==> !c.state.Failed?)
    && c.contentLength <= MAX_LENGTH
    && (c.error == 0 ==> c.finish == FinishOf(c.state))
    && (c.error == 0 && Lengthy(c.state) ==> c.contentLength > 0)
    && (c.error == 0 && c.state.Chunk? && c.state.chunk.SizeFirst? ==> c.contentLength == 0)
    && (c.error == 0 && ReadingUntilClose(c.state) ==> AfterHeadersComplete(c.framing, c.contentLength) == EofBody)
  }

  // A step within the status line or the headers, or one that fails
  predicate InHead(c: Core, c': Core) {
    && (c'.error == 0 <==> !c'.state.Failed?)
    && c'.contentLength <= MAX_LENGTH && c'.finish == c.finish
    && (c'.state.Failed? || c'.state.Line? || c'.state.Field? || c'.state.Value?)
  }

  lemma MatchOk(c: Core, b: byte)
    requires c.error == 0 && c.contentLength <= MAX_LENGTH && Matching(c.state)
    ensures InHead(c, MatchStep(c, b).core)
  {
    hide Fits, Pattern;
  }

  lemma VersionOk(c: Core, b: byte)
    requires c.error == 0 && c.contentLength <= MAX_LENGTH && c.state.Line?
    ensures InHead(c, VersionStep(c, b).core)
  {
    hide Digit, DigitValue, KnownVersion;
  }

  lemma StatusOk(c: Core, b: byte)
    requires c.error == 0 && c.contentLength <= MAX_LENGTH && c.state.Line?
    ensures InHead(c, StatusStep(c, b).core)
  {
    hide Digit, DigitValue, AddToCode;
  }

  lemma LineOk(c: Core, b: byte)
    requires c.error == 0 && c.contentLength <= MAX_LENGTH && c.state.Line? && !Matching(c.state)
    ensures InHead(c, LineStep(c, b).core)
  {
    hide InHead, VersionStep, StatusStep;
    VersionOk(c, b);
    StatusOk(c, b);
  }

  lemma HeadersDoneOk(c: Core)
    requires c.error == 0 && c.contentLength <= MAX_LENGTH && c.finish == Unsafe
    ensures CoreOk(HeadersDone(c).0)
  {
    hide ShouldKeepAlive, MessageNeedsEof;
  }

  lemma FieldOk(c: Core, b: byte)
    requires c.error == 0 && c.contentLength <= MAX_LENGTH && c.finish == Unsafe && c.state.Field? && !Matching(c.state)
    ensures InHead(c, FieldStep(c, b).core) || CoreOk(FieldStep(c, b).core)
  {
    hide TokenChar, ToLower, CoreOk, HeadersDone, Matching;
    HeadersDoneOk(c);
  }

  lemma EdgeOk(c: Core, b: byte)
    requires c.error == 0 && c.contentLength <= MAX_LENGTH && c.state.Value?
    ensures InHead(c, EdgeStep(c, b).core)
  {
    hide ValueChar;
  }

  lemma OptionOk(c: Core, b: byte)
    requires c.error == 0 && c.contentLength <= MAX_LENGTH && c.state.Value?
    ensures InHead(c, OptionStep(c, b).core)
  {
    hide ListChar, ToLower;
  }

  lemma FramingOk(c: Core, b: byte)
    requires c.error == 0 && c.contentLength <= MAX_LENGTH && c.state.Value?
    ensures InHead(c, FramingStep(c, b).core)
  {
    hide AddToLength, ListChar, Digit, DigitValue;
  }

  lemma ValueOk(c: Core, b: byte)
    requires c.error == 0 && c.contentLength <= MAX_LENGTH && c.state.Value? && !Matching(c.state)
    ensures InHead(c, ValueStep(c, b).core)
  {
    hide InHead, EdgeStep, OptionStep, FramingStep;
    EdgeOk(c, b);
    OptionOk(c, b);
    FramingOk(c, b);
  }

  lemma ChunkOk(c: Core, b: byte)
    requires CoreOk(c) && c.error == 0 && c.state.Chunk? && !Consuming(c.state)
    ensures CoreOk(ChunkStep(c, b).core)
  {
    hide ExtensionStep;
    if InSizes(c.state.chunk) {
      SizesOk(c, b);
    } else {
      hide CoreOk;
      ExtensionCore(c, b);
    }
  }

  lemma ExtensionCore(c: Core, b: byte)
    requires CoreOk(c) && c.error == 0 && c.state.Chunk?
    ensures CoreOk(ExtensionStep(c, b).core)
  {
    hide ExtensionStep;
    ExtensionOk(c, b);
  }

  lemma SizesOk(c: Core, b: byte)
    requires CoreOk(c) && c.error == 0 && c.state.Chunk? && InSizes(c.state.chunk)
    ensures CoreOk(ChunkStep(c, b).core)
  {
    hide AddToLength, HexDigit, HexValue, SizeDone;
    SizeDoneOk(c);
  }

  lemma SizeDoneOk(c: Core)
    requires c.error == 0 && c.contentLength <= MAX_LENGTH && c.finish == Unsafe
    ensures CoreOk(SizeDone(c).core)
  {
  }

  predicate InExtension(c: Core, c': Core) {
    && c'.contentLength == c.contentLength && c'.finish == c.finish && (c'.error == 0 <==> !c'.state.Failed?)
    && (c'.state.Failed? || (c'.state.Chunk? && (!InSizes(c'.state.chunk) || c'.state.chunk.SizeAlmostDone?)))
    && !Lengthy(c'.state)
  }

  lemma ExtensionOk(c: Core, b: byte)
    requires c.error == 0 && c.state.Chunk?
    ensures InExtension(c, ExtensionStep(c, b).core)
  {
    hide TokenChar, QuotedStep;
    QuotedOk(c, b);
  }

  lemma QuotedOk(c: Core, b: byte)
    requires c.error == 0 && c.state.Chunk?
    ensures InExtension(c, QuotedStep(c, b).core)
  {
    hide ValueChar, QuotedChar;
  }

  lemma LookOk(c: Core, b: byte)
    requires CoreOk(c) && c.error == 0
    ensures CoreOk(Look(c, b).core)
  {
    hide MatchStep, LineStep, FieldStep, ValueStep, ChunkStep;
    if Matching(c.state) {
      MatchOk(c, b);
    } else if !Consuming(c.state) {
      match c.state
      case Line(_) => LineOk(c, b);
      case Field(_) => FieldOk(c, b);
      case Value(_) => ValueOk(c, b);
      case Chunk(_) => ChunkOk(c, b);
      case _ =>
    }
  }

  // Only a span that is open is shut, no callback runs within the data of a span, and the state tells
  // which span is open.
  predicate SpanOk(c: Core, e: Effect) {
    && (e.open.Some? ==> SpanOf(c.state) == None)
    && (e.before != [] ==> e.open.Some? || SpanAt(SpanOf(c.state), e) == None)
    && (e.after != [] ==> e.consumed && (e.shutAfter || SpanAt(SpanOf(c.state), e) == None))
    && (e.shut ==> e.open.Some? || SpanOf(c.state).Some?)
    && (e.shutAfter ==> e.consumed && SpanAt(SpanOf(c.state), e).Some?)
    && SpanAfter(SpanOf(c.state), e) == SpanOf(e.core.state)
  }

  lemma MatchSpans(c: Core, b: byte)
    requires Matching(c.state)
    ensures SpanOk(c, MatchStep(c, b))
  {
    hide Fits, Pattern;
  }

  lemma VersionSpans(c: Core, b: byte)
    requires c.state.Line? && InVersion(c.state.line)
    ensures SpanOk(c, VersionStep(c, b))
  {
    hide Digit, DigitValue, KnownVersion;
  }

  lemma StatusSpans(c: Core, b: byte)
    requires c.state.Line? && !InVersion(c.state.line) && !Matching(c.state)
    ensures SpanOk(c, StatusStep(c, b))
  {
    hide Digit, DigitValue, AddToCode;
  }

  lemma NameSpans(c: Core, b: byte)
    requires c.state.Field? && !Matching(c.state) && InName(c.state.field)
    ensures SpanOk(c, NameStep(c, b))
  {
    hide TokenChar, ToLower, NameDone;
    NameDoneSpans(c);
  }

  lemma BetweenSpans(c: Core, b: byte)
    requires c.state.Field? && !InName(c.state.field)
    ensures SpanOk(c, BetweenStep(c, b))
  {
    hide HeadersDone;
    HeadersDoneSpans(c);
  }

  lemma NameDoneSpans(c: Core)
    requires c.state.Field? && SpanOf(c.state).Some?
    ensures SpanOk(c, NameDone(c))
  {
  }

  lemma HeadersDoneSpans(c: Core)
    ensures SpanOf(HeadersDone(c).0.state) == None
  {
    hide ShouldKeepAlive, AfterHeadersComplete;
  }

  lemma EdgeSpans(c: Core, b: byte)
    requires c.state.Value? && !Matching(c.state) && !InOptions(c.state.value) && !InFraming(c.state.value)
    ensures SpanOk(c, EdgeStep(c, b))
  {
    hide ValueChar;
  }

  lemma OptionSpans(c: Core, b: byte)
    requires c.state.Value? && InOptions(c.state.value)
    ensures SpanOk(c, OptionStep(c, b))
  {
    hide ListChar, ToLower;
  }

  lemma FramingSpans(c: Core, b: byte)
    requires c.state.Value? && InFraming(c.state.value)
    ensures SpanOk(c, FramingStep(c, b))
  {
    hide AddToLength, ListChar, Digit, DigitValue;
  }

  lemma ChunkSpans(c: Core, b: byte)
    requires c.state.Chunk? && !Consuming(c.state)
    ensures SpanOk(c, ChunkStep(c, b))
  {
    hide AddToLength, HexDigit, HexValue, ExtensionStep;
    if !InSizes(c.state.chunk) {
      ExtensionSpans(c, b);
    }
  }

  lemma ExtensionSpans(c: Core, b: byte)
    requires c.state.Chunk? && !Consuming(c.state) && !InSizes(c.state.chunk)
    ensures SpanOk(c, ExtensionStep(c, b))
  {
    hide TokenChar, QuotedStep;
    if InQuotes(c.state.chunk) {
      QuotedSpans(c, b);
    }
  }

  lemma QuotedSpans(c: Core, b: byte)
    requires c.state.Chunk? && InQuotes(c.state.chunk)
    ensures SpanOk(c, QuotedStep(c, b))
  {
    hide ValueChar, QuotedChar;
  }

  lemma LookSpans(c: Core, b: byte)
    ensures SpanOk(c, Look(c, b))
  {
    hide MatchStep, VersionStep, StatusStep, NameStep, BetweenStep, EdgeStep, OptionStep, FramingStep, ChunkStep;
    if Matching(c.state) {
      MatchSpans(c, b);
    } else if c.state.Line? {
      if InVersion(c.state.line) {
        VersionSpans(c, b);
      } else {
        StatusSpans(c, b);
      }
    } else if c.state.Field? {
      if InName(c.state.field) {
        NameSpans(c, b);
      } else {
        BetweenSpans(c, b);
      }
    } else if c.state.Value? {
      if InOptions(c.state.value) {
        OptionSpans(c, b);
      } else if InFraming(c.state.value) {
        FramingSpans(c, b);
      } else {
        EdgeSpans(c, b);
      }
    } else if c.state.Chunk? && !Consuming(c.state) {
      ChunkSpans(c, b);
    }
  }

  // ---- What holds in every reachable parser ------------------------------------------------

  predicate Ok(p: Parser) {
    CoreOk(p.core) && p.span == SpanOf(p.core.state)
  }

  // The parser after one look at a byte, and what the look makes known.
  function After(p: Parser, e: Effect): Parser {
    Parser(e.core, SpanAfter(p.span, e))
  }

  function Shown(p: Parser, b: byte, e: Effect): seq<Out> {
    Calls(e.before) + if e.consumed then Consumed(SpanAt(p.span, e), b) + Calls(e.after) else []
  }

  lemma AfterOk(p: Parser, b: byte)
    requires Ok(p)
    ensures Ok(After(p, Look(p.core, b)))
  {
    LookSpans(p.core, b);
    if p.core.error == 0 {
      LookOk(p.core, b);
    }
  }

  lemma {:induction false} ByteStepOk(p: Parser, b: byte)
    requires Ok(p)
    ensures Ok(ByteStep(p, b).0)
    decreases Rank(p.core.state)
  {
    hide Ok, Look, Rank;
    AfterOk(p, b);
    LookRank(p.core, b);
    var e := Look(p.core, b);
    if !e.consumed {
      ByteStepOk(After(p, e), b);
    }
  }

  lemma {:induction false} ParsedOk(p: Parser, data: seq<byte>)
    requires Ok(p)
    ensures Ok(Parsed(p, data).0)
    decreases |data|
  {
    hide Ok, ByteStep;
    if data != [] {
      ByteStepOk(p, data[0]);
      ParsedOk(ByteStep(p, data[0]).0, data[1..]);
    }
  }

  // After an error nothing happens any more.
  lemma {:induction false} FailedStays(p: Parser, data: seq<byte>)
    requires Ok(p) && p.core.error != 0
    ensures Parsed(p, data) == (p, [])
    decreases |data|
  {
    if data != [] {
      assert Look(p.core, data[0]) == TakeThen(p.core, []);
      assert Calls([]) + Consumed(None, data[0]) + Calls([]) == [];
      FailedStays(p, data[1..]);
    }
  }

  // One look at a time
  lemma ParsedLook(p: Parser, data: seq<byte>)
    requires data != []
    ensures var e := Look(p.core, data[0]);
      var (q, outs) := Parsed(After(p, e), if e.consumed then data[1..] else data);
      Parsed(p, data) == (q, Shown(p, data[0], e) + outs)
  {
    hide Look, Rank;
    var e := Look(p.core, data[0]);
    LookRank(p.core, data[0]);
    if !e.consumed {
      var (p', outs) := ByteStep(After(p, e), data[0]);
      var (q, more) := Parsed(p', data[1..]);
      assert (Calls(e.before) + outs) + more == (Calls(e.before) + []) + (outs + more);
    } else {
      assert Calls(e.before) + Consumed(SpanAt(p.span, e), data[0]) + Calls(e.after) == Shown(p, data[0], e);
    }
  }

  // The data of a span
  function SpanData(span: Option<Span>, data: seq<byte>): seq<Out> {
    if span.None? then [] else seq(|data|, i requires 0 <= i < |data| => DataByte(span.value, data[i]))
  }

  function Skipped(p: Parser, n: nat): Parser
    requires n <= p.core.contentLength
  {
    p.(core := p.core.(contentLength := p.core.contentLength - n))
  }

  lemma SkipOne(p: Parser, data: seq<byte>)
    requires p.core.error == 0 && Consuming(p.core.state) && data != [] && 1 < p.core.contentLength
    ensures var (q, outs) := Parsed(Skipped(p, 1), data[1..]);
      Parsed(p, data) == (q, SpanData(p.span, data[..1]) + outs)
  {
    hide Parsed;
    ParsedLook(p, data);
    var e := Look(p.core, data[0]);
    assert e == TakeThen(Skipped(p, 1).core, []);
    assert Shown(p, data[0], e) == SpanData(p.span, data[..1]);
  }

  // consume_content_length skips as many bytes as there are, or as the body still has.
  lemma {:induction false} BulkSkip(p: Parser, data: seq<byte>, n: nat)
    requires p.core.error == 0 && Consuming(p.core.state) && n <= |data| && n < p.core.contentLength
    ensures var (q, outs) := Parsed(Skipped(p, n), data[n..]);
      Parsed(p, data) == (q, SpanData(p.span, data[..n]) + outs)
    decreases n
  {
    hide Parsed;
    if n == 0 {
      assert data[0..] == data && Skipped(p, 0) == p;
      assert SpanData(p.span, data[..0]) + Parsed(p, data).1 == Parsed(p, data).1;
    } else {
      SkipOne(p, data);
      BulkSkip(Skipped(p, 1), data[1..], n - 1);
      assert data[1..][n - 1..] == data[n..] && Skipped(Skipped(p, 1), n - 1) == Skipped(p, n);
      var first, rest := SpanData(p.span, data[..1]), SpanData(p.span, data[1..][..n - 1]);
      assert SpanData(p.span, data[..n]) == first + rest;
      var outs := Parsed(Skipped(p, n), data[n..]).1;
      assert first + (rest + outs) == (first + rest) + outs;
    }
  }

  lemma SpanDataConcat(span: Option<Span>, a: seq<byte>, b: seq<byte>)
    ensures SpanData(span, a + b) == SpanData(span, a) + SpanData(span, b)
  {
  }

  // When the buffer holds the rest of the body, this ends.
  lemma SkipAll(p: Parser, data: seq<byte>)
    requires p.core.error == 0 && Consuming(p.core.state) && 0 < p.core.contentLength <= |data| && p.span.Some?
    ensures var need, e := p.core.contentLength, ConsumeDone(p.core.(contentLength := 0));
      var (q, outs) := Parsed(Parser(e.core, None), data[need..]);
      Parsed(p, data) == (q, SpanData(p.span, data[..need]) + Calls(e.after) + outs)
  {
    hide Parsed, Calls, ConsumeDone, SpanData;
    var need := p.core.contentLength;
    var p', rest := Skipped(p, need - 1), data[need - 1..];
    BulkSkip(p, data, need - 1);
    LastByte(p', rest);
    assert rest[1..] == data[need..];
    assert data[..need] == data[..need - 1] + rest[..1];
    SpanDataConcat(p.span, data[..need - 1], rest[..1]);
    assert p'.core.(contentLength := 0) == p.core.(contentLength := 0);
    var e := ConsumeDone(p.core.(contentLength := 0));
    Regroup(SpanData(p.span, data[..need - 1]), SpanData(p.span, rest[..1]), Calls(e.after),
            Parsed(Parser(e.core, None), data[need..]).1);
  }

  // The body ends where its length is used up.
  lemma ConsumedOk(p: Parser)
    requires Ok(p) && p.core.error == 0 && Consuming(p.core.state)
    ensures Ok(Parser(ConsumeDone(p.core.(contentLength := 0)).core, None)) && p.span.Some?
    ensures p.core.contentLength > 0
  {
  }

  lemma Regroup<T>(a: seq<T>, b: seq<T>, c: seq<T>, d: seq<T>)
    ensures a + (b + c + d) == a + b + c + d
  {
  }

  lemma LastByte(p: Parser, data: seq<byte>)
    requires p.core.error == 0 && Consuming(p.core.state) && p.core.contentLength == 1 && data != []
    requires p.span.Some?
    ensures var e := ConsumeDone(p.core.(contentLength := 0));
      var (q, outs) := Parsed(Parser(e.core, None), data[1..]);
      Parsed(p, data) == (q, SpanData(p.span, data[..1]) + Calls(e.after) + outs)
  {
    hide Parsed;
    ParsedLook(p, data);
    var e := Look(p.core, data[0]);
    assert e == ConsumeDone(p.core.(contentLength := 0));
    assert e.before == [] && e.consumed && e.shutAfter && !e.shut && e.open == None;
    assert Shown(p, data[0], e) == SpanData(p.span, data[..1]) + Calls(e.after);
  }

  // One more byte of a sequence that is not complete yet
  lemma MatchMore(p: Parser, data: seq<byte>)
    requires data != [] && Matching(p.core.state) && Fits(p.core.state, p.core.index, data[0])
    requires p.core.index + 1 < |Pattern(p.core.state).1|
    ensures var p' := p.(core := p.core.(index := p.core.index + 1));
      var (q, outs) := Parsed(p', data[1..]);
      Parsed(p, data) == (q, Consumed(p.span, data[0]) + outs)
  {
    hide Parsed, Fits, Pattern;
    ParsedLook(p, data);
    var e := Look(p.core, data[0]);
    assert e == TakeThen(p.core.(index := p.core.index + 1), []);
    ShownOnly(p, data[0], e.core);
  }

  // A byte that is left to the next state
  lemma Passed(p: Parser, data: seq<byte>, state: State)
    requires data != [] && Look(p.core, data[0]) == Pass(p.core, state) && !state.Failed?
    ensures Parsed(p, data) == Parsed(Parser(Goto(p.core, state), p.span), data)
  {
    hide Parsed, Look;
    ParsedLook(p, data);
    assert Shown(p, data[0], Look(p.core, data[0])) == [];
    assert [] + Parsed(Parser(Goto(p.core, state), p.span), data).1
        == Parsed(Parser(Goto(p.core, state), p.span), data).1;
  }

  // A byte outside all spans that is consumed
  lemma Taken(p: Parser, data: seq<byte>, c: Core, calls: seq<Call>)
    requires data != [] && p.span == None && Look(p.core, data[0]) == TakeThen(c, calls)
    ensures var (q, outs) := Parsed(Parser(c, None), data[1..]); Parsed(p, data) == (q, Calls(calls) + outs)
  {
    hide Parsed, Look;
    ParsedLook(p, data);
    assert Shown(p, data[0], Look(p.core, data[0])) == Calls(calls);
  }

  // A byte that is consumed and nothing else
  lemma ShownOnly(p: Parser, b: byte, c: Core)
    ensures Shown(p, b, TakeThen(c, [])) == Consumed(p.span, b)
  {
  }
}
