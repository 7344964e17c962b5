/**
 Whole responses: the parser undoes their printing.  From a status line, header fields and a body whose
 length is given, or that is sent in chunks, it hands out exactly what was printed, completes the message
 once, at its last byte, and is then ready for the next response or closed.
 */
module ResponseMessages {
  import opened Basics
  import opened FramingRules
  import opened ResponseStates
  import opened ResponseFold
  import opened ResponseEof
  import opened ResponseBodies
  import opened ResponseChunks
  import opened ResponseNames
  import opened ResponseValues
  import opened ResponseLists
  import opened ResponseHeads
  import opened ResponseLines
  import opened ResponseExtensions

  // What follows the head: nothing, as many bytes as announced, or chunks
  datatype Content = Nothing | Announced(data: seq<byte>) | Chunks(body: seq<ChunkSent>, last: LastSent)

  // A response as it is sent
  datatype Response = Response(line: StatusLine, headers: seq<Header>, end: seq<byte>, content: Content)

  predicate HeadOk(r: Response) {
    StatusLineOk(r.line) && AllHeadersOk(r.headers) && Consistent(r.headers) && LineEnd(r.end)
  }

  // Responses that never have a body
  predicate Bodiless(status: nat) {
    status == 100 || status == 102 || status == 103 || status == 204 || status == 304
  }

  // What the head says about the body
  predicate InChunks(r: Response) {
    LastChunked(r.headers)
  }

  ghost predicate HasLength(r: Response, n: nat) {
    Any(r.headers, LengthHeader)
    && forall h :: h in r.headers && Says(h, LengthHeader) ==> LengthIs(h.value) == n
  }

  // The content is what the head announces.  An interim response has none unless it announces it, and with
  // status 101 another protocol begins.
  ghost predicate ResponseOk(r: Response) {
    && HeadOk(r) && StatusOf(r.line) != 101
    && match r.content
       case Nothing =>
         || Bodiless(StatusOf(r.line))
         || (!InChunks(r) && HasLength(r, 0))
         || (!Any(r.headers, EncodingHeader) && !Any(r.headers, LengthHeader) && StatusOf(r.line) / 100 == 1)
       case Announced(data) =>
         !Bodiless(StatusOf(r.line)) && !InChunks(r) && data != [] && HasLength(r, |data|)
       case Chunks(body, last) =>
         !Bodiless(StatusOf(r.line)) && InChunks(r) && BodySentOk(body, last)
  }

  function HeadLines(r: Response): seq<byte> {
    LineText(r.line) + HeadersText(r.headers)
  }

  function ContentText(content: Content): seq<byte> {
    match content
    case Nothing => []
    case Announced(data) => data
    case Chunks(body, last) => BodyLines(body, last) + last.end
  }

  function ResponseText(r: Response): seq<byte> {
    HeadLines(r) + (r.end + ContentText(r.content))
  }

  function ChunksData(body: seq<ChunkSent>): seq<byte> {
    if body == [] then [] else body[0].piece.data + ChunksData(body[1..])
  }

  // The data that was sent
  function Payload(content: Content): seq<byte> {
    match content
    case Nothing => []
    case Announced(data) => data
    case Chunks(body, _) => ChunksData(body)
  }

  function ContentTrace(content: Content): seq<Out> {
    match content
    case Nothing => [Called(MessageComplete)]
    case Announced(data) => SpanData(Some(BodySpan), data) + [Called(MessageComplete)]
    case Chunks(body, last) => BodyLinesTrace(body, last) + [Called(ChunkComplete), Called(MessageComplete)]
  }

  // A response after another one begins with a reset.
  function Begin(again: bool): seq<Call> {
    if again then [Reset, MessageBegin] else [MessageBegin]
  }

  function HeadTrace(r: Response, again: bool): seq<Out> {
    Calls(Begin(again)) + (LineTrace(r.line) + HeadersTrace(r.headers))
  }

  function ResponseTrace(r: Response, again: bool): seq<Out> {
    HeadTrace(r, again) + ([Called(HeadersComplete)] + ContentTrace(r.content))
  }

  // Where a response may begin, and where none may any more
  predicate Ready(p: Parser) {
    && p.core.state == Start && p.span == None && p.core.index == 0 && p.core.error == 0 && p.core.finish == Safe
    && p.core.contentLength == 0 && p.core.framing.flags == NO_FLAGS
  }

  predicate ClosedDown(p: Parser) {
    p.core.state == Closed && p.span == None && p.core.error == 0 && p.core.finish == Safe
  }

  // The connection stays open: with HTTP/1.1 unless the response says close, and with other versions if it
  // says keep-alive.
  predicate StaysAlive(r: Response) {
    if VersionIs(r.line, 1, 1) then !AnyOption(r.headers, CLOSE) else AnyOption(r.headers, KEEP_ALIVE)
  }

  predicate AfterResponse(q: Parser, r: Response)
    requires StatusLineOk(r.line)
  {
    && q.core.framing.status == StatusOf(r.line)
    && if StaysAlive(r) then Ready(q) && q.core.completedBefore else ClosedDown(q)
  }

  // ---- The head ----------------------------------------------------------------------------

  // The parser where the first byte of a response has been seen
  function Begun(p: Parser): Parser {
    Parser(p.core.(finish := Unsafe, state := Line(ProtocolStart)), None)
  }

  lemma Begins(p: Parser, data: seq<byte>)
    requires Ready(p) && data != [] && data[0] != CR && data[0] != LF
    ensures Reaches(p, data, Calls(Begin(p.core.completedBefore)), Begun(p), data)
  {
    hide Reaches;
    var e := PassAfter(Begun(p).core, Begin(p.core.completedBefore));
    assert Look(p.core, data[0]) == e;
    Looks(p, data, e);
    assert Shown(p, data[0], e) == Calls(Begin(p.core.completedBefore));
  }

  // What is known of the parser at the end of the head
  ghost predicate HeadKnown(p: Parser, r: Response)
    requires StatusLineOk(r.line)
  {
    && AtField(p) && Sane(p.core) && HeadIs(p.core, r.headers)
    && p.core.framing.status == StatusOf(r.line)
    && VersionIs(r.line, p.core.framing.major, p.core.framing.minor)
  }

  lemma LineKnown(p: Parser, r: Response)
    requires Ready(p) && StatusLineOk(r.line)
    ensures HeadKnown(LineRead(Begun(p), r.line), r.(headers := []))
  {
    hide DecimalAfter;
  }

  lemma HeadReads(p: Parser, r: Response, rest: seq<byte>) returns (q: Parser)
    requires Ready(p) && HeadOk(r) && !Continues(rest)
    ensures Reaches(p, HeadLines(r) + rest, HeadTrace(r, p.core.completedBefore), q, rest) && HeadKnown(q, r)
  {
    hide Reaches, HeadIs, Sane, AllHeadersOk, Consistent, DecimalAfter, LineText, LineTrace, HeadersTrace, Calls;
    var fields := HeadersText(r.headers) + rest;
    var data, p', f := HeadLines(r) + rest, Begun(p), LineRead(Begun(p), r.line);
    assert data == LineText(r.line) + fields;
    LineStarts(r.line, fields);
    Begins(p, data);
    NotContinued(r.headers, rest);
    LineReads(p', r.line, fields);
    LineKnown(p, r);
    assert [] + r.headers == r.headers;
    q := HeadersRead(f, [], r.headers, rest);
    Chain(p', data, LineTrace(r.line), f, fields, HeadersTrace(r.headers), q, rest);
    var shown := LineTrace(r.line) + HeadersTrace(r.headers);
    Chain(p, data, Calls(Begin(p.core.completedBefore)), p', data, shown, q, rest);
  }

  lemma LineStarts(line: StatusLine, rest: seq<byte>)
    ensures LineText(line) + rest != [] && (LineText(line) + rest)[0] == 'H' as int
  {
  }

  // The empty line
  lemma HeadShuts(p: Parser, end: seq<byte>, rest: seq<byte>)
    requires AtField(p) && LineEnd(end)
    ensures Reaches(p, end + rest, Calls(HeadersDone(p.core).1), Parser(HeadersDone(p.core).0, None), rest)
  {
    hide Look, Reaches, HeadersDone, Calls;
    var data, lf := end + rest, [LF] + rest;
    var q, done := p.(core := Goto(p.core, Field(HeadersAlmostDone))), HeadersDone(p.core);
    assert lf[1..] == rest;
    SameDone(p.core);
    EndLooks(p.core);
    if end == CRLF {
      assert data[1..] == lf;
      Takes(p, data, q.core);
      Looks(q, lf, HeadersEnd(p.core));
      ShownCalls(q, LF, done.0, done.1);
      Silently(p, data, q, lf, Calls(done.1), Parser(done.0, None), rest);
    } else {
      assert data == lf;
      Looks(p, lf, HeadersEnd(p.core));
      ShownCalls(p, LF, done.0, done.1);
    }
  }

  lemma ShownCalls(p: Parser, b: byte, c: Core, calls: seq<Call>)
    requires p.span == None
    ensures Shown(p, b, TakeThen(c, calls)) == Calls(calls) && After(p, TakeThen(c, calls)) == Parser(c, None)
  {
  }

  lemma SameDone(c: Core)
    ensures HeadersDone(Goto(c, Field(HeadersAlmostDone))) == HeadersDone(c)
  {
    hide ShouldKeepAlive;
  }

  lemma EndLooks(c: Core)
    requires c.state == Field(FieldStart)
    ensures Look(c, LF) == HeadersEnd(c)
    ensures Look(c, CR) == TakeThen(Goto(c, Field(HeadersAlmostDone)), [])
    ensures Look(Goto(c, Field(HeadersAlmostDone)), LF) == HeadersEnd(Goto(c, Field(HeadersAlmostDone)))
  {
    hide HeadersDone;
  }

  // ---- What the head leads to --------------------------------------------------------------

  // The framing after the head, with the flags that the headers have set
  lemma FramingKnown(p: Parser, r: Response)
    requires ResponseOk(r) && HeadKnown(p, r)
    ensures var f := BeforeHeadersComplete(p.core.framing);
      && f.flags == FlagsOf(r.headers) && f.status == StatusOf(r.line) && !f.upgrade
      && VersionIs(r.line, f.major, f.minor)
      && (!Any(r.headers, LengthHeader) ==> p.core.contentLength == 0)
      && (forall n :: HasLength(r, n) ==> p.core.contentLength == n)
      && (Any(r.headers, LengthHeader) ==> !f.flags.transferEncoding)
  {
    hide Any, AnyOption, LengthIs, LastChunked, Says;
    NotBoth(r);
    forall n | HasLength(r, n) ensures p.core.contentLength == n {
      LengthKnown(p.core, r, n);
    }
  }

  lemma NotBoth(r: Response)
    requires ResponseOk(r)
    ensures Any(r.headers, LengthHeader) ==> !Any(r.headers, EncodingHeader)
  {
    hide Any, StatusLineOk, HasLength;
  }

  lemma LengthKnown(c: Core, r: Response, n: nat)
    requires HeadIs(c, r.headers) && HasLength(r, n)
    ensures c.contentLength == n
  {
    hide Says, LengthIs;
    var h :| h in r.headers && Says(h, LengthHeader);
  }

  // The parser keeps the connection exactly when it stays alive.
  lemma AliveIs(f: Framing, r: Response)
    requires StatusLineOk(r.line) && VersionIs(r.line, f.major, f.minor) && !MessageNeedsEof(f)
    requires f.flags.close == AnyOption(r.headers, CLOSE) && f.flags.keepAlive == AnyOption(r.headers, KEEP_ALIVE)
    ensures ShouldKeepAlive(f) <==> StaysAlive(r)
  {
    hide AnyOption, MessageNeedsEof, Decimal, LineEnd, ReasonOk;
  }

  lemma DoneIs(p: Parser, f: Framing, r: Response)
    requires StatusLineOk(r.line) && f.status == StatusOf(r.line) && VersionIs(r.line, f.major, f.minor)
    requires !MessageNeedsEof(f) && p.core.framing == f && p.span == None && p.core.index == 0 && p.core.error == 0
    requires f.flags.close == AnyOption(r.headers, CLOSE) && f.flags.keepAlive == AnyOption(r.headers, KEEP_ALIVE)
    ensures AfterResponse(Parser(AfterMessage(p.core), None), r)
  {
    hide AnyOption, MessageNeedsEof, StatusLineOk, ShouldKeepAlive, StaysAlive, VersionIs;
    AliveIs(f, r);
  }

  // Nothing follows: the message is complete with the head.
  lemma NothingFollows(p: Parser, r: Response)
    requires ResponseOk(r) && HeadKnown(p, r) && r.content == Nothing
    ensures HeadersDone(p.core).1 == [HeadersComplete, MessageComplete]
    ensures AfterResponse(Parser(HeadersDone(p.core).0, None), r)
  {
    hide HeadIs, AnyOption, Any, StatusLineOk, AfterMessage, AfterResponse, HeadOk, Decimal, DecimalAfter, Says;
    FramingKnown(p, r);
    LineFine(r);
    LastIsOne(r.headers);
    var f := BeforeHeadersComplete(p.core.framing);
    var c := p.core.(framing := f);
    DoneIs(Parser(c, None), f, r);
  }

  lemma {:induction false} LastIsOne(hs: seq<Header>)
    ensures LastChunked(hs) ==> Any(hs, EncodingHeader)
  {
    hide Says, EndsChunked;
    if hs != [] {
      LastIsOne(hs[..|hs| - 1]);
      assert hs == hs[..|hs| - 1] + [hs[|hs| - 1]];
      AnyMore(hs[..|hs| - 1], hs[|hs| - 1]);
    }
  }

  lemma LineFine(r: Response)
    requires HeadOk(r)
    ensures StatusLineOk(r.line)
  {
  }

  lemma DataFollows(p: Parser, r: Response)
    requires ResponseOk(r) && HeadKnown(p, r) && r.content.Announced?
    ensures HeadersDone(p.core).1 == [HeadersComplete]
    ensures var (q, data) := (Parser(HeadersDone(p.core).0, None), r.content.data);
      && Ok(q) && q.core.error == 0 && q.core.state == Body(IdentityStart) && |data| == q.core.contentLength
      && AfterResponse(Parser(MessageDone(q.core.(contentLength := 0, state := Body(Identity))), None), r)
  {
    hide HeadIs, AnyOption, Any, StatusLineOk, AfterMessage, AfterResponse, HeadOk, Decimal, DecimalAfter, Says;
    FramingKnown(p, r);
    LineFine(r);
    var f := BeforeHeadersComplete(p.core.framing);
    var c := p.core.(framing := f);
    assert HeadersDone(p.core) == (Goto(c, Body(IdentityStart)), [HeadersComplete]);
    DoneIs(Parser(c.(contentLength := 0, state := Body(Identity)), None), f, r);
  }

  lemma ChunksFollow(p: Parser, r: Response)
    requires ResponseOk(r) && HeadKnown(p, r) && r.content.Chunks?
    ensures HeadersDone(p.core).1 == [HeadersComplete]
    ensures var q := Parser(HeadersDone(p.core).0, None);
      && Expecting(q) && q.core.index == 0
      && forall t :: SameHeader(Trailing(q), t) ==> AfterResponse(Parser(MessageDone(t.core), None), r)
  {
    hide HeadIs, AnyOption, Any, HasLength, StatusLineOk, AfterMessage, AfterResponse, HeadOk, BodySentOk;
    FramingKnown(p, r);
    LineFine(r);
    var f := BeforeHeadersComplete(p.core.framing);
    var c := p.core.(framing := f);
    assert HeadersDone(p.core) == (c.(contentLength := 0, state := Chunk(SizeFirst)), [HeadersComplete]);
    var q := Parser(HeadersDone(p.core).0, None);
    forall t | SameHeader(Trailing(q), t) ensures AfterResponse(Parser(MessageDone(t.core), None), r) {
      DoneIs(t, t.core.framing, r);
    }
  }

  // The empty line and what follows it
  lemma ContentReads(p: Parser, r: Response)
    requires ResponseOk(r) && HeadKnown(p, r)
    ensures var (q, outs) := Parsed(p, r.end + ContentText(r.content));
      outs == [Called(HeadersComplete)] + ContentTrace(r.content) && AfterResponse(q, r)
  {
    hide Parsed, Calls, HeadKnown, HeadersDone, AfterResponse, HasLength, Bodiless, StatusLineOk, BodySentOk,
      Expecting, Trailing, SameHeader, BodyLines, BodyLinesTrace, SpanData, Ok, MessageDone;
    LineFine(r);
    var q, content := Parser(HeadersDone(p.core).0, None), ContentText(r.content);
    HeadShutsFor(p, r, content);
    match r.content
    case Nothing =>
      NothingFollows(p, r);
      TwoCalls(HeadersComplete, MessageComplete);
      NothingLeft(q);
      assert [Called(HeadersComplete), Called(MessageComplete)] + []
          == [Called(HeadersComplete)] + [Called(MessageComplete)];
    case Announced(data) =>
      DataFollows(p, r);
      IdentityRoundTrip(q, data);
      NoCalls(HeadersComplete);
    case Chunks(body, last) =>
      ChunksFollow(p, r);
      var t := BodyReads(q, body, last);
      NoCalls(HeadersComplete);
  }

  lemma NothingLeft(p: Parser)
    ensures Parsed(p, []) == (p, [])
  {
  }

  lemma HeadShutsFor(p: Parser, r: Response, content: seq<byte>)
    requires ResponseOk(r) && HeadKnown(p, r)
    ensures var q := Parser(HeadersDone(p.core).0, None);
      Parsed(p, r.end + content) == (Parsed(q, content).0, Calls(HeadersDone(p.core).1) + Parsed(q, content).1)
  {
    hide HeadIs, StatusLineOk, Parsed, HeadersDone, Calls;
    HeadShuts(p, r.end, content);
  }

  // ---- What the user gets ------------------------------------------------------------------

  // Neither data of a body nor the end of a message
  predicate Quiet(outs: seq<Out>) {
    forall out :: out in outs ==> out != Called(MessageComplete) && !(out.DataByte? && out.span == BodySpan)
  }

  lemma {:induction false} QuietBody(outs: seq<Out>)
    requires Quiet(outs)
    ensures BodyOf(outs) == [] && Called(MessageComplete) !in outs
  {
    if outs != [] {
      assert outs[0] in outs && forall out :: out in outs[1..] ==> out in outs;
      QuietBody(outs[1..]);
    }
  }

  lemma QuietParts(span: Span, data: seq<byte>, call: Call)
    requires span != BodySpan && call != MessageComplete
    ensures Quiet(SpanData(Some(span), data)) && Quiet([Called(call)])
  {
  }

  lemma BothQuiet(a: seq<Out>, b: seq<Out>)
    requires Quiet(a) && Quiet(b)
    ensures Quiet(a + b)
  {
  }

  lemma QuietLine(line: StatusLine)
    ensures Quiet(LineTrace(line))
  {
    hide SpanData, Quiet, VersionText;
    QuietParts(ProtocolSpan, PROTOCOL, ProtocolComplete);
    QuietParts(VersionSpan, VersionText(line), VersionComplete);
    QuietParts(StatusSpan, if line.reason.Some? then line.reason.value else [], StatusComplete);
    BothQuiet(SpanData(Some(ProtocolSpan), PROTOCOL), [Called(ProtocolComplete)]);
    BothQuiet(SpanData(Some(VersionSpan), VersionText(line)), [Called(VersionComplete)]);
    assert Quiet(ReasonTrace(line)) by { QuietReason(line); }
    BothQuiet(ReasonTrace(line), [Called(StatusComplete)]);
    var version := SpanData(Some(VersionSpan), VersionText(line)) + [Called(VersionComplete)];
    BothQuiet(version, ReasonTrace(line) + [Called(StatusComplete)]);
    BothQuiet(SpanData(Some(ProtocolSpan), PROTOCOL) + [Called(ProtocolComplete)],
              version + (ReasonTrace(line) + [Called(StatusComplete)]));
  }

  lemma QuietReason(line: StatusLine)
    ensures Quiet(ReasonTrace(line))
  {
  }

  lemma {:induction false} QuietHeaders(hs: seq<Header>)
    ensures Quiet(HeadersTrace(hs))
    decreases |hs|
  {
    hide SpanData, Quiet;
    if hs == [] {
      NothingQuiet();
    } else {
      var h := hs[0];
      QuietParts(NameSpan, h.name, NameComplete);
      QuietParts(ValueSpan, h.value, ValueComplete);
      BothQuiet(SpanData(Some(NameSpan), h.name), [Called(NameComplete)]);
      BothQuiet(SpanData(Some(ValueSpan), h.value), [Called(ValueComplete)]);
      BothQuiet(SpanData(Some(NameSpan), h.name) + [Called(NameComplete)],
                SpanData(Some(ValueSpan), h.value) + [Called(ValueComplete)]);
      QuietHeaders(hs[1..]);
      BothQuiet(HeaderTrace(h), HeadersTrace(hs[1..]));
    }
  }

  lemma NothingQuiet()
    ensures Quiet([])
  {
  }

  lemma QuietHead(r: Response, again: bool)
    ensures Quiet(HeadTrace(r, again))
  {
    hide Quiet, LineTrace, HeadersTrace;
    QuietLine(r.line);
    QuietHeaders(r.headers);
    BothQuiet(LineTrace(r.line), HeadersTrace(r.headers));
    BeginQuiet(again);
    BothQuiet(Calls(Begin(again)), LineTrace(r.line) + HeadersTrace(r.headers));
  }

  lemma BeginQuiet(again: bool)
    ensures Quiet(Calls(Begin(again)))
  {
  }

  // The last callback, and no other one, says that the message is complete.
  predicate CompletesOnce(outs: seq<Out>) {
    outs != [] && outs[|outs| - 1] == Called(MessageComplete) && Called(MessageComplete) !in outs[..|outs| - 1]
  }

  lemma ContentShows(content: Content)
    ensures BodyOf(ContentTrace(content)) == Payload(content) && CompletesOnce(ContentTrace(content))
  {
    hide BodyOf, SpanData;
    match content
    case Nothing =>
      CompleteIsNoData();
    case Announced(data) =>
      var shown := SpanData(Some(BodySpan), data);
      BodyOfSpan(data);
      CompleteIsNoData();
      BodyOfConcat(shown, [Called(MessageComplete)]);
      OnlyData(data);
      assert ContentTrace(content)[..|shown|] == shown;
    case Chunks(body, last) => ChunksShow(body, last);
  }

  lemma {:induction false} QuietExtensions(xs: seq<Extension>)
    ensures Quiet(ExtensionsTrace(xs))
    decreases |xs|
  {
    hide Quiet, ExtensionTrace;
    if xs == [] {
      NothingQuiet();
    } else {
      QuietExtension(xs[0]);
      QuietExtensions(xs[1..]);
      BothQuiet(ExtensionTrace(xs[0]), ExtensionsTrace(xs[1..]));
    }
  }

  lemma QuietExtension(x: Extension)
    ensures Quiet(ExtensionTrace(x))
  {
    hide Quiet, SpanData;
    QuietParts(ExtNameSpan, x.name, ExtNameComplete);
    BothQuiet(SpanData(Some(ExtNameSpan), x.name), [Called(ExtNameComplete)]);
    NothingQuiet();
    if x.value.Some? {
      var text := ExtValueText(x.value.value);
      QuietParts(ExtValueSpan, text, ExtValueComplete);
      BothQuiet(SpanData(Some(ExtValueSpan), text), [Called(ExtValueComplete)]);
    }
    BothQuiet(SpanData(Some(ExtNameSpan), x.name) + [Called(ExtNameComplete)],
              match x.value
              case None => []
              case Some(value) => SpanData(Some(ExtValueSpan), ExtValueText(value)) + [Called(ExtValueComplete)]);
  }

  // The bytes of the body and whether the message is complete, for one trace after another
  lemma Both(a: seq<Out>, b: seq<Out>)
    requires Called(MessageComplete) !in a && Called(MessageComplete) !in b
    ensures BodyOf(a + b) == BodyOf(a) + BodyOf(b) && Called(MessageComplete) !in a + b
  {
    BodyOfConcat(a, b);
  }

  lemma {:induction false} ChunksBody(body: seq<ChunkSent>)
    ensures BodyOf(ChunksTrace(body)) == ChunksData(body) && Called(MessageComplete) !in ChunksTrace(body)
    decreases |body|
  {
    hide BodyOf, ChunkTrace;
    if body == [] {
      NothingShownYet();
    } else {
      ChunkBody(body[0]);
      ChunksBody(body[1..]);
      Both(ChunkTrace(body[0]), ChunksTrace(body[1..]));
    }
  }

  lemma ChunkBody(chunk: ChunkSent)
    ensures BodyOf(ChunkTrace(chunk)) == chunk.piece.data && Called(MessageComplete) !in ChunkTrace(chunk)
  {
    hide BodyOf, Reported, ExtensionsTrace, Quiet;
    QuietExtensions(chunk.extensions);
    QuietBody(ExtensionsTrace(chunk.extensions));
    BodyOfPiece(chunk.piece);
    NotComplete(chunk.piece);
    Both(ExtensionsTrace(chunk.extensions), Reported(chunk.piece));
  }

  lemma LastQuiet(last: LastSent)
    ensures Quiet(LastLinesTrace(last))
  {
    hide Quiet, ExtensionsTrace, HeadersTrace;
    QuietExtensions(last.extensions);
    QuietHeaders(last.trailer);
    QuietParts(NameSpan, [], ChunkHeader(0));
    BothQuiet(ExtensionsTrace(last.extensions), [Called(ChunkHeader(0))]);
    BothQuiet(ExtensionsTrace(last.extensions) + [Called(ChunkHeader(0))], HeadersTrace(last.trailer));
  }

  lemma LinesBody(body: seq<ChunkSent>, last: LastSent)
    ensures BodyOf(BodyLinesTrace(body, last)) == ChunksData(body)
    ensures Called(MessageComplete) !in BodyLinesTrace(body, last)
  {
    hide BodyOf, Quiet, ChunksTrace, LastLinesTrace;
    ChunksBody(body);
    LastQuiet(last);
    QuietBody(LastLinesTrace(last));
    Both(ChunksTrace(body), LastLinesTrace(last));
  }

  lemma ChunksShow(body: seq<ChunkSent>, last: LastSent)
    ensures var outs := BodyLinesTrace(body, last) + [Called(ChunkComplete), Called(MessageComplete)];
      BodyOf(outs) == ChunksData(body) && CompletesOnce(outs)
  {
    hide BodyOf, BodyLinesTrace;
    LinesBody(body, last);
    var lines, end := BodyLinesTrace(body, last), [Called(ChunkComplete), Called(MessageComplete)];
    BodyOfConcat(lines, end);
    EndIsNoData();
    var outs := lines + end;
    assert outs[..|outs| - 1] == lines + [Called(ChunkComplete)];
  }

  lemma EndIsNoData()
    ensures BodyOf([Called(ChunkComplete), Called(MessageComplete)]) == []
  {
    CompleteIsNoData();
    assert [Called(ChunkComplete), Called(MessageComplete)][1..] == [Called(MessageComplete)];
  }

  lemma OnlyData(data: seq<byte>)
    ensures Called(MessageComplete) !in SpanData(Some(BodySpan), data)
  {
  }

  lemma CompleteIsNoData()
    ensures BodyOf([Called(MessageComplete)]) == []
  {
    assert [Called(MessageComplete)][1..] == [];
  }

  lemma QuietBefore(head: seq<Out>, outs: seq<Out>)
    requires Quiet(head) && CompletesOnce(outs)
    ensures BodyOf(head + outs) == BodyOf(outs) && CompletesOnce(head + outs)
  {
    QuietBody(head);
    BodyOfConcat(head, outs);
    hide Quiet, BodyOf;
    var all := head + outs;
    assert all[..|all| - 1] == head + outs[..|outs| - 1];
  }

  // ---- One response ------------------------------------------------------------------------

  lemma TextStarts(r: Response)
    requires ResponseOk(r)
    ensures !Continues(r.end + ContentText(r.content))
  {
    hide StatusLineOk, AllHeadersOk, Consistent, HasLength, BodySentOk, Bodiless;
  }

  // Decoding undoes encoding: of a response exactly the parts are handed out, and the parser knows its status
  // and whether the connection stays open.
  lemma ResponseReads(p: Parser, r: Response)
    requires Ready(p) && ResponseOk(r)
    ensures var (q, outs) := Parsed(p, ResponseText(r));
      outs == ResponseTrace(r, p.core.completedBefore) && AfterResponse(q, r)
  {
    hide Parsed, Ready, AfterResponse, HeadKnown, HeadTrace, HeadLines, Continues, ContentText, ContentTrace;
    var rest := r.end + ContentText(r.content);
    TextStarts(r);
    assert HeadOk(r) && StatusLineOk(r.line);
    hide HeadOk;
    var q := HeadReads(p, r, rest);
    ContentReads(q, r);
  }

  // So the user gets the data that was sent, and the message is complete exactly once, after all of it.
  lemma ResponseDecodes(p: Parser, r: Response)
    requires Ready(p) && ResponseOk(r)
    ensures var (q, outs) := Parsed(p, ResponseText(r));
      BodyOf(outs) == Payload(r.content) && CompletesOnce(outs) && AfterResponse(q, r)
  {
    hide Parsed, Ready, AfterResponse, HeadTrace, ResponseText, ContentTrace, BodyOf, CompletesOnce;
    var again := p.core.completedBefore;
    ResponseReads(p, r);
    hide ResponseOk;
    QuietHead(r, again);
    QuietCall();
    BothQuiet(HeadTrace(r, again), [Called(HeadersComplete)]);
    ContentShows(r.content);
    QuietBefore(HeadTrace(r, again) + [Called(HeadersComplete)], ContentTrace(r.content));
    assert HeadTrace(r, again) + [Called(HeadersComplete)] + ContentTrace(r.content)
        == HeadTrace(r, again) + ([Called(HeadersComplete)] + ContentTrace(r.content));
  }

  lemma QuietCall()
    ensures Quiet([Called(HeadersComplete)])
  {
  }

  // ---- Not before the last byte ------------------------------------------------------------

  // What is shown early stays shown.
  lemma ShownBefore(p: Parser, data: seq<byte>, more: seq<byte>, out: Out)
    requires out in Parsed(p, data).1
    ensures out in Parsed(p, data + more).1
  {
    hide Parsed;
    ParsedConcat(p, data, more);
  }

  // Within the head the message is not complete.
  lemma HeadIsOpen(p: Parser, r: Response)
    requires Ready(p) && HeadOk(r)
    ensures Called(MessageComplete) !in Parsed(p, HeadLines(r)).1
    ensures Called(MessageComplete) !in Parsed(p, HeadLines(r) + [CR]).1
  {
    hide Parsed, Ready, HeadOk, HeadLines, HeadTrace, HeadKnown;
    LineFine(r);
    var q := HeadReads(p, r, [CR]);
    OnlyCr(q, r);
    QuietHead(r, p.core.completedBefore);
    QuietBody(HeadTrace(r, p.core.completedBefore));
    if Called(MessageComplete) in Parsed(p, HeadLines(r)).1 {
      ShownBefore(p, HeadLines(r), [CR], Called(MessageComplete));
    }
  }

  lemma OnlyCr(p: Parser, r: Response)
    requires StatusLineOk(r.line) && HeadKnown(p, r)
    ensures Parsed(p, [CR]).1 == []
  {
    hide Parsed, HeadIs, Look;
    EndLooks(p.core);
    Taken(p, [CR], Goto(p.core, Field(HeadersAlmostDone)), []);
    assert [CR][1..] == [];
    NothingLeft(Parser(Goto(p.core, Field(HeadersAlmostDone)), None));
    assert Calls([]) + [] == [];
  }

  // A body whose length was given, but for its last byte
  lemma DataIsOpen(p: Parser, data: seq<byte>)
    requires p.core.error == 0 && p.core.state == Body(IdentityStart) && |data| < p.core.contentLength
    ensures Called(MessageComplete) !in Parsed(p, data).1
  {
    hide Parsed, SpanData, Look;
    if data == [] {
      NothingLeft(p);
    } else {
      var p' := Parser(Goto(p.core, Body(Identity)), Some(BodySpan));
      BodyOpens(p, data);
      BulkSkip(p', data, |data|);
      assert data[|data|..] == [] && data[..|data|] == data;
      NothingLeft(Skipped(p', |data|));
      OnlyData(data);
    }
  }

  lemma BodyOpens(p: Parser, data: seq<byte>)
    requires p.core.error == 0 && p.core.state == Body(IdentityStart) && data != []
    ensures Parsed(p, data) == Parsed(Parser(Goto(p.core, Body(Identity)), Some(BodySpan)), data)
  {
    hide Parsed;
    var p' := Parser(Goto(p.core, Body(Identity)), Some(BodySpan));
    Opens(p, data, BodySpan, p'.core);
    assert [] + Parsed(p', data).1 == Parsed(p', data).1;
  }

  // A body in chunks, but for its last byte
  lemma ChunksAreOpen(p: Parser, body: seq<ChunkSent>, last: LastSent)
    requires Expecting(p) && p.core.index == 0 && BodySentOk(body, last)
    ensures var text := BodyLines(body, last) + last.end;
      text != [] && Called(MessageComplete) !in Parsed(p, text[..|text| - 1]).1
  {
    hide Parsed, Expecting, BodyLines, BodyLinesTrace, ChunkSentOk, AllHeadersOk, SizeIs, SizeLineOk;
    var lines, text := BodyLines(body, last), BodyLines(body, last) + last.end;
    BodyIsOpen(p, body, last);
    LinesBody(body, last);
    if last.end == CRLF {
      assert text[..|text| - 1] == lines + [CR];
    } else {
      assert text[..|text| - 1] == lines;
      if Called(MessageComplete) in Parsed(p, lines).1 {
        ShownBefore(p, lines, [CR], Called(MessageComplete));
      }
    }
  }

  lemma ContentIsOpen(p: Parser, r: Response)
    requires ResponseOk(r) && HeadKnown(p, r) && r.content != Nothing
    ensures var text := ContentText(r.content);
      text != [] && Called(MessageComplete) !in Parsed(p, r.end + text[..|text| - 1]).1
  {
    hide Parsed, HeadKnown, HeadersDone, AfterResponse, HasLength, Bodiless, StatusLineOk, BodySentOk, Expecting,
      SpanData, Ok, MessageDone, HeadOk, BodyLines, BodyLinesTrace;
    LineFine(r);
    var q, text := Parser(HeadersDone(p.core).0, None), ContentText(r.content);
    NoCalls(HeadersComplete);
    match r.content
    case Announced(data) =>
      DataFollows(p, r);
      HeadShutsFor(p, r, text[..|text| - 1]);
      DataIsOpen(q, text[..|text| - 1]);
    case Chunks(body, last) =>
      ChunksFollow(p, r);
      ChunksAreOpen(q, body, last);
      HeadShutsFor(p, r, text[..|text| - 1]);
  }

  // Whatever the body, the message is not complete before the last byte of the response.
  lemma NotBefore(p: Parser, r: Response)
    requires Ready(p) && ResponseOk(r)
    ensures var text := ResponseText(r);
      text != [] && Called(MessageComplete) !in Parsed(p, text[..|text| - 1]).1
  {
    hide Parsed, Ready, HeadLines, HeadTrace, HeadKnown, ContentText, AfterResponse, HeadOk;
    var head, content := HeadLines(r), ContentText(r.content);
    var text := ResponseText(r);
    LineFine(r);
    EndIs(r);
    if r.content == Nothing {
      HeadIsOpen(p, r);
      assert text[..|text| - 1] == head + r.end[..|r.end| - 1];
      assert head + [] == head;
    } else {
      var rest := r.end + content[..|content| - 1];
      NotContinuedContent(r);
      var q := HeadReads(p, r, rest);
      ContentIsOpen(q, r);
      assert text[..|text| - 1] == head + rest;
      QuietHead(r, p.core.completedBefore);
      QuietBody(HeadTrace(r, p.core.completedBefore));
    }
  }

  lemma EndIs(r: Response)
    requires ResponseOk(r)
    ensures r.end != [] && (r.end[..|r.end| - 1] == [] || r.end[..|r.end| - 1] == [CR])
    ensures r.content == Nothing ==> ContentText(r.content) == []
    ensures r.content != Nothing ==> ContentText(r.content) != []
  {
    hide StatusLineOk, AllHeadersOk, Consistent, HasLength, Bodiless, DecimalAfter;
  }

  lemma NotContinuedContent(r: Response)
    requires ResponseOk(r)
    ensures forall rest: seq<byte> :: !Continues(r.end + rest)
  {
    hide StatusLineOk, AllHeadersOk, Consistent, HasLength, Bodiless, BodySentOk;
    forall rest: seq<byte> ensures !Continues(r.end + rest) {
      assert (r.end + rest)[0] == r.end[0];
    }
  }

  // ---- Many responses ----------------------------------------------------------------------

  function AllTexts(rs: seq<Response>): seq<byte> {
    if rs == [] then [] else ResponseText(rs[0]) + AllTexts(rs[1..])
  }

  function AllTraces(rs: seq<Response>, again: bool): seq<Out> {
    if rs == [] then [] else ResponseTrace(rs[0], again) + AllTraces(rs[1..], true)
  }

  function Payloads(rs: seq<Response>): seq<byte> {
    if rs == [] then [] else Payload(rs[0].content) + Payloads(rs[1..])
  }

  // All but the last one keep the connection open.
  ghost predicate InTurn(rs: seq<Response>) {
    && (forall r :: r in rs ==> ResponseOk(r))
    && forall i :: 0 <= i < |rs| - 1 ==> StaysAlive(rs[i])
  }

  // How many messages were completed
  function Completions(outs: seq<Out>): nat {
    if outs == [] then 0 else (if outs[0] == Called(MessageComplete) then 1 else 0) + Completions(outs[1..])
  }

  lemma {:induction false} CompletionsConcat(a: seq<Out>, b: seq<Out>)
    ensures Completions(a + b) == Completions(a) + Completions(b)
  {
    if a == [] {
      assert a + b == b;
    } else {
      assert (a + b)[0] == a[0] && (a + b)[1..] == a[1..] + b;
      CompletionsConcat(a[1..], b);
    }
  }

  lemma {:induction false} NoCompletion(outs: seq<Out>)
    requires Called(MessageComplete) !in outs
    ensures Completions(outs) == 0
  {
    if outs != [] {
      assert outs[0] in outs && forall out :: out in outs[1..] ==> out in outs;
      NoCompletion(outs[1..]);
    }
  }

  lemma OneCompletion(outs: seq<Out>)
    requires CompletesOnce(outs)
    ensures Completions(outs) == 1
  {
    var last := [Called(MessageComplete)];
    assert outs == outs[..|outs| - 1] + last && last[1..] == [];
    NoCompletion(outs[..|outs| - 1]);
    CompletionsConcat(outs[..|outs| - 1], last);
  }

  // Responses one after the other on a connection, with nothing lost or mixed up between them: each is
  // handed out as if it came alone, one message is completed for each, and the data is that of all of them.
  lemma {:induction false} StreamDecodes(p: Parser, rs: seq<Response>)
    requires Ready(p) && InTurn(rs)
    ensures var (q, outs) := Parsed(p, AllTexts(rs));
      && outs == AllTraces(rs, p.core.completedBefore) && BodyOf(outs) == Payloads(rs) && Completions(outs) == |rs|
      && (rs != [] ==> StatusLineOk(rs[|rs| - 1].line) && AfterResponse(q, rs[|rs| - 1]))
    decreases |rs|
  {
    hide Parsed, Ready, ResponseText, ResponseTrace, ResponseOk, StaysAlive, BodyOf, Completions, CompletesOnce;
    if rs == [] {
      NothingLeft(p);
      NothingShownYet();
    } else {
      var r, rest := rs[0], rs[1..];
      assert r in rs && forall x :: x in rest ==> x in rs;
      LastFine(r);
      ResponseReads(p, r);
      ResponseDecodes(p, r);
      var (q, outs) := Parsed(p, ResponseText(r));
      OneCompletion(outs);
      ParsedConcat(p, ResponseText(r), AllTexts(rest));
      var more := Parsed(q, AllTexts(rest)).1;
      BodyOfConcat(outs, more);
      CompletionsConcat(outs, more);
      if rest == [] {
        NothingLeft(q);
        NothingShownYet();
        assert outs + [] == outs;
      } else {
        assert StaysAlive(rs[0]);
        StreamDecodes(q, rest);
      }
    }
  }

  lemma NothingShownYet()
    ensures BodyOf([]) == [] && Completions([]) == 0
  {
  }

  lemma LastFine(r: Response)
    requires ResponseOk(r)
    ensures StatusLineOk(r.line)
  {
    hide StatusLineOk, HasLength, BodySentOk;
  }

  // ---- Until the connection is closed ------------------------------------------------------

  // The head announces nothing, and the status lets a body follow.
  ghost predicate LengthUnknown(r: Response) {
    && HeadOk(r) && !InChunks(r) && !Any(r.headers, LengthHeader)
    && StatusOf(r.line) / 100 != 1 && !Bodiless(StatusOf(r.line))
  }

  lemma {:induction false} ReadOn(p: Parser, data: seq<byte>)
    requires p.core.state == Body(UntilClose) && p.span == Some(BodySpan)
    ensures Parsed(p, data) == (p, SpanData(p.span, data))
    decreases |data|
  {
    hide Parsed, Reaches, SpanData;
    if data == [] {
      Stays(p, data);
      NothingLeft(p);
    } else {
      Takes(p, data, p.core);
      ReadOn(p, data[1..]);
      FirstData(p.span, data);
      assert Parsed(p, data) == (Parsed(p, data[1..]).0, Consumed(p.span, data[0]) + Parsed(p, data[1..]).1) by {
        ReachesIs(p, data, Consumed(p.span, data[0]), p, data[1..]);
      }
    }
  }

  lemma ReachesIs(p: Parser, data: seq<byte>, outs: seq<Out>, q: Parser, rest: seq<byte>)
    requires Reaches(p, data, outs, q, rest)
    ensures Parsed(p, data) == (Parsed(q, rest).0, outs + Parsed(q, rest).1)
  {
  }

  lemma ReadUntilClose(p: Parser, data: seq<byte>)
    requires p.core.state == Body(UntilCloseStart) && p.span == None
    ensures var (q, outs) := Parsed(p, data);
      && outs == SpanData(Some(BodySpan), data) && q.core == p.core.(state := q.core.state)
      && ReadingUntilClose(q.core.state)
  {
    hide Parsed, Reaches, SpanData;
    if data == [] {
      Stays(p.(span := Some(BodySpan)), data);
      NothingLeft(p);
    } else {
      var q := Parser(Goto(p.core, Body(UntilClose)), Some(BodySpan));
      Opens(p, data, BodySpan, q.core);
      ReadOn(q, data);
      ReachesIs(p, data, [], q, data);
      assert [] + SpanData(q.span, data) == SpanData(q.span, data);
    }
  }

  lemma EofFollows(p: Parser, r: Response)
    requires LengthUnknown(r) && HeadKnown(p, r)
    ensures HeadersDone(p.core) == (p.core.(framing := BeforeHeadersComplete(p.core.framing), finish := SafeWithCb,
                                            state := Body(UntilCloseStart)), [HeadersComplete])
    ensures MessageNeedsEof(BeforeHeadersComplete(p.core.framing))
  {
    hide Any, AnyOption, LengthIs, LastChunked, Says, StatusLineOk;
  }

  lemma {:induction false} StillResponding(outs: seq<Out>)
    requires Called(MessageComplete) !in outs
    ensures Responding(true, outs)
  {
    if outs != [] {
      assert outs[0] in outs && forall out :: out in outs[1..] ==> out in outs;
      StillResponding(outs[1..]);
    }
  }

  lemma RespondingFrom(again: bool, outs: seq<Out>)
    requires Called(MessageComplete) !in outs
    ensures Responding(false, Calls(Begin(again)) + outs)
  {
    RespondingConcat(false, Calls(Begin(again)), outs);
    StillResponding(outs);
    if again {
      TwoCalls(Reset, MessageBegin);
      assert [Called(Reset), Called(MessageBegin)][1..] == [Called(MessageBegin)];
    } else {
      NoCalls(MessageBegin);
    }
    assert [Called(MessageBegin)][1..] == [];
  }

  lemma EofReads(p: Parser, r: Response, data: seq<byte>)
    requires LengthUnknown(r) && HeadKnown(p, r)
    ensures var (q, outs) := Parsed(p, r.end + data);
      && outs == [Called(HeadersComplete)] + SpanData(Some(BodySpan), data)
      && MessageNeedsEof(q.core.framing) && FinishAccepts(q.core) && q.core.framing.status == StatusOf(r.line)
  {
    hide Parsed, Reaches, HeadIs, SpanData, StatusLineOk, Any, AllHeadersOk, Consistent, HeadersDone, MessageNeedsEof;
    HeadShuts(p, r.end, data);
    EofFollows(p, r);
    var b := Parser(HeadersDone(p.core).0, None);
    ReachesIs(p, r.end + data, Calls(HeadersDone(p.core).1), b, data);
    ReadUntilClose(b, data);
    NoCalls(HeadersComplete);
  }

  // A body of unknown length goes on as long as the connection is open; what has come is handed out, the
  // message is not complete, and the end of the stream completes it.
  lemma UntilClosed(p: Parser, r: Response, data: seq<byte>)
    requires Ready(p) && LengthUnknown(r)
    ensures var (q, outs) := Parsed(p, HeadLines(r) + (r.end + data));
      && BodyOf(outs) == data && Called(MessageComplete) !in outs && q.core.framing.status == StatusOf(r.line)
      && EofCompletes(q.core, Responding(false, outs))
  {
    hide Parsed, Ready, HeadLines, HeadKnown, SpanData, BodyOf, Calls, LineTrace, HeadersTrace, Quiet, LengthUnknown,
      MessageNeedsEof, Responding, FinishAccepts, Continues;
    var again, rest := p.core.completedBefore, r.end + data;
    KnownEnd(r, data);
    var q := HeadReads(p, r, rest);
    ReachesIs(p, HeadLines(r) + rest, HeadTrace(r, again), q, rest);
    EofReads(q, r, data);
    var shown := SpanData(Some(BodySpan), data);
    var fields := LineTrace(r.line) + HeadersTrace(r.headers);
    QuietHead(r, again);
    QuietCall();
    BothQuiet(HeadTrace(r, again), [Called(HeadersComplete)]);
    QuietBody(HeadTrace(r, again) + [Called(HeadersComplete)]);
    BodyOfSpan(data);
    BodyOfConcat(HeadTrace(r, again) + [Called(HeadersComplete)], shown);
    OnlyData(data);
    RespondingFrom(again, fields + ([Called(HeadersComplete)] + shown));
    assert HeadTrace(r, again) + ([Called(HeadersComplete)] + shown)
        == Calls(Begin(again)) + (fields + ([Called(HeadersComplete)] + shown));
    assert HeadTrace(r, again) + ([Called(HeadersComplete)] + shown)
        == HeadTrace(r, again) + [Called(HeadersComplete)] + shown;
  }

  lemma KnownEnd(r: Response, data: seq<byte>)
    requires LengthUnknown(r)
    ensures HeadOk(r) && StatusLineOk(r.line) && !Continues(r.end + data)
  {
    hide StatusLineOk, AllHeadersOk, Consistent, Any;
    assert (r.end + data)[0] == r.end[0];
  }

  // ---- Heads that contradict themselves ----------------------------------------------------

  // A response with two lengths, or with a length and chunks, is an error, whatever comes after it.
  lemma ConflictIsError(p: Parser, r: Response, content: seq<byte>)
    requires Ready(p) && StatusLineOk(r.line) && AllHeadersOk(r.headers) && LineEnd(r.end) && !Consistent(r.headers)
    ensures Refused(Parsed(p, HeadLines(r) + (r.end + content)).0.core.error)
  {
    hide Parsed, Reaches, HeadIs, Sane, AllHeadersOk, Consistent, DecimalAfter, LineText, LineTrace, Calls, Refused;
    var rest := r.end + content;
    assert rest[0] == r.end[0];
    var fields := HeadersText(r.headers) + rest;
    var data, p', f := HeadLines(r) + rest, Begun(p), LineRead(Begun(p), r.line);
    assert data == LineText(r.line) + fields;
    LineStarts(r.line, fields);
    Begins(p, data);
    NotContinued(r.headers, rest);
    LineReads(p', r.line, fields);
    LineKnown(p, r);
    assert [] + r.headers == r.headers;
    NoHeaders();
    HeadersRefused(f, [], r.headers, rest);
    SameEnd(p', data, LineTrace(r.line), f, fields);
    SameEnd(p, data, Calls(Begin(p.core.completedBefore)), p', data);
  }

  lemma NoHeaders()
    ensures Consistent([])
  {
  }
}
