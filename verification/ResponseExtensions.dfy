/**
 Chunked bodies with all that section 4.1 of RFC 7230 allows in them: extensions behind the sizes of chunks,
 and a trailer of header fields behind the last one.
 */
module ResponseExtensions {
  import opened Basics
  import opened FramingRules
  import opened ResponseStates
  import opened ResponseFold
  import opened ResponseBodies
  import opened ResponseChunks
  import opened ResponseNames
  import opened ResponseValues
  import opened ResponseHeads

  // ---- Extensions --------------------------------------------------------------------------

  // The value of an extension, bare or in quotation marks
  datatype ExtValue = Bare(text: seq<byte>) | Quoted(text: seq<byte>)

  datatype Extension = Extension(name: seq<byte>, value: Option<ExtValue>)

  const SEMICOLON: byte := 59
  const EQUALS: byte := 61
  const QUOTE: byte := 34
  const BACKSLASH: byte := 92

  // Text between quotation marks; a backslash may stand before any character of it.
  predicate QuotedText(text: seq<byte>)
    decreases |text|
  {
    || text == []
    || (QuotedChar(text[0]) && QuotedText(text[1..]))
    || (text[0] == BACKSLASH && |text| > 1 && ValueChar(text[1]) && QuotedText(text[2..]))
  }

  predicate ExtValueOk(value: ExtValue) {
    match value
    case Bare(text) => Tokens(text)
    case Quoted(text) => QuotedText(text)
  }

  predicate ExtensionOk(x: Extension) {
    x.name != [] && Tokens(x.name) && (x.value.Some? ==> ExtValueOk(x.value.value))
  }

  function ExtValueText(value: ExtValue): seq<byte> {
    match value
    case Bare(text) => text
    case Quoted(text) => [QUOTE] + (text + [QUOTE])
  }

  // An extension behind its semicolon
  function ExtensionText(x: Extension): seq<byte> {
    x.name + (match x.value case None => [] case Some(value) => [EQUALS] + ExtValueText(value))
  }

  function ExtensionTrace(x: Extension): seq<Out> {
    SpanData(Some(ExtNameSpan), x.name) + [Called(ExtNameComplete)]
    + match x.value
      case None => []
      case Some(value) => SpanData(Some(ExtValueSpan), ExtValueText(value)) + [Called(ExtValueComplete)]
  }

  // What ends an extension: another one, or the line end
  predicate Terminates(tail: seq<byte>) {
    tail != [] && (tail[0] == SEMICOLON || tail[0] == CR || tail[0] == LF)
  }

  // The parser behind an extension, and what it leaves to be read; a bare line feed is still to come.
  function Behind(c: Core, tail: seq<byte>): Parser
    requires Terminates(tail)
  {
    Parser(Goto(c, Chunk(if tail[0] == SEMICOLON then ChunkState.Extension else SizeAlmostDone)), None)
  }

  function LeftOf(tail: seq<byte>): seq<byte>
    requires Terminates(tail)
  {
    if tail[0] == LF then tail else tail[1..]
  }

  lemma ExtensionLook(c: Core, b: byte)
    requires c.state.Chunk? && !InSizes(c.state.chunk) && !c.state.chunk.Content?
    ensures Look(c, b) == ExtensionStep(c, b)
  {
    hide ExtensionStep;
  }

  lemma {:induction false} SkipTokens(p: Parser, text: seq<byte>, rest: seq<byte>)
    requires (p.core.state == Chunk(ExtName) || p.core.state == Chunk(ExtValue)) && Tokens(text)
    ensures Reaches(p, text + rest, SpanData(p.span, text), p, rest)
    decreases |text|
  {
    hide Look, Reaches, SpanData, TokenChar;
    if text == [] {
      assert text + rest == rest;
      Stays(p, rest);
    } else {
      var data := text + rest;
      assert data[0] == text[0] && data[1..] == text[1..] + rest;
      ExtensionLook(p.core, data[0]);
      Takes(p, data, p.core);
      SkipTokens(p, text[1..], rest);
      FirstData(p.span, text);
      Chain(p, data, Consumed(p.span, data[0]), p, data[1..], SpanData(p.span, text[1..]), p, rest);
    }
  }

  lemma {:induction false} SkipQuoted(p: Parser, text: seq<byte>, rest: seq<byte>)
    requires p.core.state == Chunk(ExtQuoted) && QuotedText(text)
    ensures Reaches(p, text + rest, SpanData(p.span, text), p, rest)
    decreases |text|
  {
    hide Look, Reaches, SpanData, ValueChar;
    if text == [] {
      assert text + rest == rest;
      Stays(p, rest);
    } else {
      var data := text + rest;
      assert data[0] == text[0] && data[1..] == text[1..] + rest;
      ExtensionLook(p.core, data[0]);
      FirstData(p.span, text);
      if QuotedChar(text[0]) && QuotedText(text[1..]) {
        Takes(p, data, p.core);
        SkipQuoted(p, text[1..], rest);
        Chain(p, data, Consumed(p.span, data[0]), p, data[1..], SpanData(p.span, text[1..]), p, rest);
      } else {
        var q := p.(core := Goto(p.core, Chunk(ExtPair)));
        Takes(p, data, q.core);
        assert data[1..][0] == text[1] && data[1..][1..] == text[2..] + rest && text[1..][1..] == text[2..];
        ExtensionLook(q.core, text[1]);
        Takes(q, data[1..], p.core);
        SkipQuoted(p, text[2..], rest);
        FirstData(p.span, text[1..]);
        Chain(q, data[1..], Consumed(p.span, text[1]), p, text[2..] + rest, SpanData(p.span, text[2..]), p, rest);
        Chain(p, data, Consumed(p.span, text[0]), q, data[1..], SpanData(p.span, text[1..]), p, rest);
      }
    }
  }

  // A span of an extension ends.
  lemma SpanTerminates(p: Parser, tail: seq<byte>, call: Call)
    requires Terminates(tail)
    requires (p.core.state == Chunk(ExtName) && call == ExtNameComplete)
          || (p.core.state == Chunk(ExtValue) && call == ExtValueComplete)
    ensures Reaches(p, tail, [Called(call)], Behind(p.core, tail), LeftOf(tail))
  {
    hide Look, Reaches;
    ExtensionLook(p.core, tail[0]);
    NoCalls(call);
    var q := Behind(p.core, tail);
    if tail[0] == LF {
      Looks(p, tail, ShutPass(q.core, [call]));
      assert Shown(p, tail[0], ShutPass(q.core, [call])) == [Called(call)];
    } else {
      ShutsBefore(p, tail, q.core, [call]);
    }
  }

  lemma QuoteTerminates(p: Parser, tail: seq<byte>)
    requires Terminates(tail) && p.core.state == Chunk(ExtQuotedEnd) && p.span == None
    ensures Reaches(p, tail, [], Behind(p.core, tail), LeftOf(tail))
  {
    hide Look, Reaches;
    ExtensionLook(p.core, tail[0]);
    var q := Behind(p.core, tail);
    if tail[0] == LF {
      Passes(p, tail, q.core);
    } else {
      Takes(p, tail, q.core);
    }
  }

  // ---- One extension -----------------------------------------------------------------------

  lemma ExtensionOpens(p: Parser, data: seq<byte>)
    requires p.core.state == Chunk(ChunkState.Extension) && p.span == None && data != [] && TokenChar(data[0])
    ensures Reaches(p, data, [], Parser(Goto(p.core, Chunk(ExtName)), Some(ExtNameSpan)), data)
  {
    hide Look, Reaches;
    var a, q := p.(core := Goto(p.core, Chunk(ExtNameStart))), Parser(Goto(p.core, Chunk(ExtName)), Some(ExtNameSpan));
    ExtensionLook(p.core, data[0]);
    Passes(p, data, a.core);
    ExtensionLook(a.core, data[0]);
    Opens(a, data, ExtNameSpan, q.core);
    Silently(p, data, a, data, [], q, data);
  }

  // The equals sign, and the first look at the value
  lemma ValueBegun(p: Parser, rest: seq<byte>)
    requires p.core.state == Chunk(ExtName) && rest != []
    ensures Reaches(p, [EQUALS] + rest, [Called(ExtNameComplete)],
                    Parser(Goto(p.core, Chunk(ExtValue)), Some(ExtValueSpan)), rest)
  {
    hide Look, Reaches;
    var data, a := [EQUALS] + rest, Parser(Goto(p.core, Chunk(ExtValueStart)), None);
    var q := Parser(Goto(p.core, Chunk(ExtValue)), Some(ExtValueSpan));
    assert data[1..] == rest;
    ExtensionLook(p.core, EQUALS);
    ShutsBefore(p, data, a.core, []);
    ExtensionLook(a.core, rest[0]);
    var e := Effect(q.core, Some(ExtValueSpan), false, [ExtNameComplete], false, false, []);
    Looks(a, rest, e);
    NoCalls(ExtNameComplete);
    assert Shown(a, rest[0], e) == [Called(ExtNameComplete)];
    Silently(p, data, a, rest, [Called(ExtNameComplete)], q, rest);
  }

  lemma QuotedRead(p: Parser, text: seq<byte>, tail: seq<byte>)
    requires p.core.state == Chunk(ExtValue) && p.span == Some(ExtValueSpan) && QuotedText(text) && Terminates(tail)
    ensures Reaches(p, [QUOTE] + (text + [QUOTE]) + tail,
                    SpanData(p.span, [QUOTE] + (text + [QUOTE])) + [Called(ExtValueComplete)],
                    Behind(p.core, tail), LeftOf(tail))
  {
    hide Look, Reaches, SpanData, QuotedText;
    var end, more := [QUOTE] + tail, text + ([QUOTE] + tail);
    var data, a := [QUOTE] + (text + [QUOTE]) + tail, p.(core := Goto(p.core, Chunk(ExtQuoted)));
    var b, q := Parser(Goto(p.core, Chunk(ExtQuotedEnd)), None), Behind(p.core, tail);
    assert data[0] == QUOTE && data[1..] == more && end[1..] == tail;
    ExtensionLook(p.core, QUOTE);
    Takes(p, data, a.core);
    SkipQuoted(a, text, end);
    ExtensionLook(a.core, QUOTE);
    ShutsAfter(a, end, b.core, [ExtValueComplete]);
    NoCalls(ExtValueComplete);
    QuoteTerminates(b, tail);
    ThenLeft(a, end, Consumed(p.span, QUOTE) + [Called(ExtValueComplete)], b, tail, q, LeftOf(tail));
    var shown := Consumed(p.span, QUOTE) + [Called(ExtValueComplete)];
    Chain(a, more, SpanData(p.span, text), a, end, shown, q, LeftOf(tail));
    Chain(p, data, Consumed(p.span, QUOTE), a, more, SpanData(p.span, text) + shown, q, LeftOf(tail));
    QuotedShown(p.span, text);
  }

  lemma ThenLeft(p: Parser, data: seq<byte>, outs: seq<Out>, q: Parser, rest: seq<byte>, r: Parser, end: seq<byte>)
    requires Reaches(p, data, outs, q, rest) && Reaches(q, rest, [], r, end)
    ensures Reaches(p, data, outs, r, end)
  {
    hide Reaches;
    Chain(p, data, outs, q, rest, [], r, end);
    assert outs + [] == outs;
  }

  lemma QuotedShown(span: Option<Span>, text: seq<byte>)
    ensures Consumed(span, QUOTE) + (SpanData(span, text) + (Consumed(span, QUOTE) + [Called(ExtValueComplete)]))
         == SpanData(span, [QUOTE] + (text + [QUOTE])) + [Called(ExtValueComplete)]
  {
  }

  lemma ExtValueRead(p: Parser, value: ExtValue, tail: seq<byte>)
    requires p.core.state == Chunk(ExtValue) && p.span == Some(ExtValueSpan) && ExtValueOk(value) && Terminates(tail)
    ensures Reaches(p, ExtValueText(value) + tail, SpanData(p.span, ExtValueText(value)) + [Called(ExtValueComplete)],
                    Behind(p.core, tail), LeftOf(tail))
  {
    hide Reaches, SpanData, QuotedText, Tokens;
    match value
    case Bare(text) =>
      SkipTokens(p, text, tail);
      SpanTerminates(p, tail, ExtValueComplete);
      var shown := [Called(ExtValueComplete)];
      Chain(p, text + tail, SpanData(p.span, text), p, tail, shown, Behind(p.core, tail), LeftOf(tail));
    case Quoted(text) => QuotedRead(p, text, tail);
  }

  lemma ExtensionRead(p: Parser, x: Extension, tail: seq<byte>)
    requires p.core.state == Chunk(ChunkState.Extension) && p.span == None && ExtensionOk(x) && Terminates(tail)
    ensures Reaches(p, ExtensionText(x) + tail, ExtensionTrace(x), Behind(p.core, tail), LeftOf(tail))
  {
    hide Reaches, SpanData, TokenChar, ExtValueText, ExtValueOk;
    var a := Parser(Goto(p.core, Chunk(ExtName)), Some(ExtNameSpan));
    var data, q, left := ExtensionText(x) + tail, Behind(p.core, tail), LeftOf(tail);
    assert data[0] == x.name[0];
    ExtensionOpens(p, data);
    match x.value
    case None =>
      assert data == x.name + tail;
      SkipTokens(a, x.name, tail);
      SpanTerminates(a, tail, ExtNameComplete);
      Chain(a, data, SpanData(a.span, x.name), a, tail, [Called(ExtNameComplete)], q, left);
      Silently(p, data, a, data, SpanData(a.span, x.name) + [Called(ExtNameComplete)], q, left);
      assert ExtensionTrace(x) == SpanData(a.span, x.name) + [Called(ExtNameComplete)];
    case Some(value) =>
      var b := Parser(Goto(p.core, Chunk(ExtValue)), Some(ExtValueSpan));
      var text := ExtValueText(value) + tail;
      var shown := SpanData(b.span, ExtValueText(value)) + [Called(ExtValueComplete)];
      assert data == x.name + ([EQUALS] + text);
      SkipTokens(a, x.name, [EQUALS] + text);
      ValueBegun(a, text);
      ExtValueRead(b, value, tail);
      Chain(a, [EQUALS] + text, [Called(ExtNameComplete)], b, text, shown, q, left);
      Chain(a, data, SpanData(a.span, x.name), a, [EQUALS] + text, [Called(ExtNameComplete)] + shown, q, left);
      Silently(p, data, a, data, SpanData(a.span, x.name) + ([Called(ExtNameComplete)] + shown), q, left);
      assert ExtensionTrace(x) == SpanData(a.span, x.name) + ([Called(ExtNameComplete)] + shown);
  }

  // ---- The line of a size ------------------------------------------------------------------

  function ExtensionsText(xs: seq<Extension>): seq<byte> {
    if xs == [] then [] else [SEMICOLON] + (ExtensionText(xs[0]) + ExtensionsText(xs[1..]))
  }

  function ExtensionsTrace(xs: seq<Extension>): seq<Out> {
    if xs == [] then [] else ExtensionTrace(xs[0]) + ExtensionsTrace(xs[1..])
  }

  // Behind an extension a bare line feed is enough, behind the size itself it is not.
  predicate SizeLineOk(xs: seq<Extension>, end: seq<byte>) {
    && (forall x :: x in xs ==> ExtensionOk(x))
    && LineEnd(end) && (xs == [] ==> end == CRLF)
  }

  // The parser where the line feed behind a size is to come
  function AtSizeEnd(p: Parser): Parser {
    Parser(Goto(p.core, Chunk(SizeAlmostDone)), None)
  }

  lemma {:induction false} ExtensionsRead(p: Parser, xs: seq<Extension>, end: seq<byte>, rest: seq<byte>)
    requires p.core.state == Chunk(ChunkState.Extension) && p.span == None && xs != [] && SizeLineOk(xs, end)
    ensures Reaches(p, ExtensionsText(xs)[1..] + (end + rest), ExtensionsTrace(xs), AtSizeEnd(p), [LF] + rest)
    decreases |xs|
  {
    hide Reaches, ExtensionText, ExtensionTrace, ExtensionOk, Behind, LeftOf, Terminates, LineEnd;
    var x, more := xs[0], xs[1..];
    assert x in xs && forall y :: y in more ==> y in xs;
    var tail := ExtensionsText(more) + (end + rest);
    Behead(SEMICOLON, ExtensionText(x), ExtensionsText(more), end + rest);
    TailIs(p, more, end, rest);
    ExtensionRead(p, x, tail);
    if more == [] {
      assert ExtensionTrace(x) + [] == ExtensionTrace(x);
    } else {
      ExtensionsRead(p, more, end, rest);
      var shown := ExtensionsTrace(more);
      Chain(p, ExtensionText(x) + tail, ExtensionTrace(x), p, tail[1..], shown, AtSizeEnd(p), [LF] + rest);
    }
  }

  lemma Behead<T>(first: T, a: seq<T>, b: seq<T>, c: seq<T>)
    ensures ([first] + (a + b))[1..] + c == a + (b + c)
  {
    assert ([first] + (a + b))[1..] == a + b;
  }

  lemma TailIs(p: Parser, more: seq<Extension>, end: seq<byte>, rest: seq<byte>)
    requires p.core.state == Chunk(ChunkState.Extension) && p.span == None && LineEnd(end)
    ensures var tail := ExtensionsText(more) + (end + rest);
      && Terminates(tail)
      && (more == [] ==> Behind(p.core, tail) == AtSizeEnd(p) && LeftOf(tail) == [LF] + rest)
      && (more != [] ==> Behind(p.core, tail) == p
                         && LeftOf(tail) == tail[1..] == ExtensionsText(more)[1..] + (end + rest))
  {
    hide ExtensionText;
    var tail := ExtensionsText(more) + (end + rest);
    if more == [] {
      assert tail == end + rest;
      assert end == CRLF ==> tail[1..] == [LF] + rest;
    } else {
      assert tail[0] == SEMICOLON;
    }
  }

  lemma SizeLineRead(p: Parser, xs: seq<Extension>, end: seq<byte>, rest: seq<byte>)
    requires p.core.state == Chunk(Size) && p.span == None && SizeLineOk(xs, end)
    ensures Reaches(p, ExtensionsText(xs) + (end + rest), ExtensionsTrace(xs), AtSizeEnd(p), [LF] + rest)
  {
    hide Reaches, Look, ExtensionText, ExtensionTrace, ExtensionOk;
    var data, a := ExtensionsText(xs) + (end + rest), p.(core := Goto(p.core, Chunk(SizeEnd)));
    SizeEndLooks(p.core);
    Passes(p, data, a.core);
    if xs == [] {
      assert data == CRLF + rest && data[1..] == [LF] + rest;
      Takes(a, data, Goto(p.core, Chunk(SizeAlmostDone)));
    } else {
      var b := p.(core := Goto(p.core, Chunk(ChunkState.Extension)));
      assert data[0] == SEMICOLON && data[1..] == ExtensionsText(xs)[1..] + (end + rest);
      Takes(a, data, b.core);
      ExtensionsRead(b, xs, end, rest);
      Silently(a, data, b, data[1..], ExtensionsTrace(xs), AtSizeEnd(p), [LF] + rest);
    }
    Silently(p, data, a, data, ExtensionsTrace(xs), AtSizeEnd(p), [LF] + rest);
  }

  lemma SizeEndLooks(c: Core)
    requires c.state == Chunk(Size)
    ensures Look(c, CR) == Look(c, SEMICOLON) == Pass(c, Chunk(SizeEnd))
    ensures Look(Goto(c, Chunk(SizeEnd)), CR) == TakeThen(Goto(c, Chunk(SizeAlmostDone)), [])
    ensures Look(Goto(c, Chunk(SizeEnd)), SEMICOLON) == TakeThen(Goto(c, Chunk(ChunkState.Extension)), [])
  {
  }

  lemma SizeFeed(p: Parser, rest: seq<byte>)
    requires p.core.state == Chunk(SizeAlmostDone) && p.span == None
    ensures Reaches(p, [LF] + rest, [Called(ChunkHeader(p.core.contentLength))],
                    Parser(SizeDone(p.core).core, None), rest)
  {
    hide Reaches, Look;
    var data, q := [LF] + rest, Parser(SizeDone(p.core).core, None);
    assert data[1..] == rest;
    assert Look(p.core, LF) == SizeDone(p.core) by { FeedLooks(p.core); }
    Looks(p, data, SizeDone(p.core));
    NoCalls(ChunkHeader(p.core.contentLength));
    assert Shown(p, LF, SizeDone(p.core)) == [Called(ChunkHeader(p.core.contentLength))];
  }

  lemma FeedLooks(c: Core)
    requires c.state == Chunk(SizeAlmostDone)
    ensures Look(c, LF) == SizeDone(c)
  {
    hide SizeDone;
  }

  // The digits of a size, its extensions and the line end
  lemma SizeReads(p: Parser, size: seq<byte>, n: nat, xs: seq<Extension>, end: seq<byte>, rest: seq<byte>)
    requires Expecting(p) && SizeIs(size, n) && SizeLineOk(xs, end)
    ensures Reaches(p, size + (ExtensionsText(xs) + (end + rest)), ExtensionsTrace(xs) + [Called(ChunkHeader(n))],
                    Parser(SizeDone(AtSizeEnd(Sized(p, n)).core).core, None), rest)
  {
    hide Reaches, Parsed, SizeDone, Expecting, HexAfter, Hexadecimal, SizeLineOk;
    var data, q := ExtensionsText(xs) + (end + rest), Parser(SizeDone(AtSizeEnd(Sized(p, n)).core).core, None);
    var shown := ExtensionsTrace(xs) + [Called(ChunkHeader(n))];
    ExpectingIs(p);
    AfterDigits(p, size, n);
    FromParsed(p, size, [], Sized(p, n), data);
    SizeLineRead(Sized(p, n), xs, end, rest);
    SizeFeed(AtSizeEnd(p.(core := Sized(p, n).core)), rest);
    var a := Sized(p, n);
    Chain(a, data, ExtensionsTrace(xs), AtSizeEnd(a), [LF] + rest, [Called(ChunkHeader(n))], q, rest);
    Silently(p, size + data, a, data, shown, q, rest);
  }

  // ---- Chunks ------------------------------------------------------------------------------

  // A chunk as it may be sent
  datatype ChunkSent = ChunkSent(piece: Piece, extensions: seq<Extension>, sizeEnd: seq<byte>, dataEnd: seq<byte>)

  predicate ChunkSentOk(chunk: ChunkSent) {
    PieceOk(chunk.piece) && SizeLineOk(chunk.extensions, chunk.sizeEnd) && LineEnd(chunk.dataEnd)
  }

  function ChunkText(chunk: ChunkSent): seq<byte> {
    chunk.piece.size + (ExtensionsText(chunk.extensions) + (chunk.sizeEnd + (chunk.piece.data + chunk.dataEnd)))
  }

  function ChunkTrace(chunk: ChunkSent): seq<Out> {
    ExtensionsTrace(chunk.extensions) + Reported(chunk.piece)
  }

  // A chunk is reported with its extensions, and then the next one is expected.
  lemma ChunkReads(p: Parser, chunk: ChunkSent, rest: seq<byte>)
    requires Expecting(p) && ChunkSentOk(chunk)
    ensures Reaches(p, ChunkText(chunk) + rest, ChunkTrace(chunk), p, rest)
  {
    hide Reaches, Parsed, Expecting, SpanData, SizeLineOk, LineEnd, HexAfter, Hexadecimal;
    var data, n := chunk.piece.data, |chunk.piece.data|;
    var body := data + chunk.dataEnd + rest;
    ExpectingIs(p);
    var a := Parser(SizeDone(AtSizeEnd(Sized(p, n)).core).core, None);
    assert a == Parser(Goto(Sized(p, n).core, Chunk(DataStart)), None);
    SizeReads(p, chunk.piece.size, n, chunk.extensions, chunk.sizeEnd, body);
    DecodeData(a, data, chunk.dataEnd);
    assert Parser(a.core.(contentLength := 0, state := Chunk(SizeFirst)), None) == p;
    var shown := SpanData(Some(BodySpan), data) + [Called(ChunkComplete)];
    FromParsed(a, data + chunk.dataEnd, shown, p, rest);
    var text := chunk.piece.size + (ExtensionsText(chunk.extensions) + (chunk.sizeEnd + body));
    assert ChunkText(chunk) + rest == text;
    var first := ExtensionsTrace(chunk.extensions) + [Called(ChunkHeader(n))];
    Chain(p, text, first, a, body, shown, p, rest);
    assert first + shown == ChunkTrace(chunk);
  }

  // ---- The last chunk and the trailer ------------------------------------------------------

  datatype LastSent =
    LastSent(zeros: seq<byte>, extensions: seq<Extension>, sizeEnd: seq<byte>, trailer: seq<Header>, end: seq<byte>)

  // A trailer holds no headers that the parser takes notice of.
  predicate LastSentOk(last: LastSent) {
    && SizeIs(last.zeros, 0) && SizeLineOk(last.extensions, last.sizeEnd) && LineEnd(last.end)
    && AllHeadersOk(last.trailer) && (forall h :: h in last.trailer ==> HeaderOf(h.name) == GeneralHeader)
  }

  // All but the empty line
  function LastLinesText(last: LastSent): seq<byte> {
    last.zeros + (ExtensionsText(last.extensions) + (last.sizeEnd + HeadersText(last.trailer)))
  }

  function LastLinesTrace(last: LastSent): seq<Out> {
    ExtensionsTrace(last.extensions) + [Called(ChunkHeader(0))] + HeadersTrace(last.trailer)
  }

  // The same parser, but for what it keeps of the last name
  predicate SameHeader(p: Parser, q: Parser) {
    q == p.(core := p.core.(header := q.core.header))
  }

  lemma {:induction false} TrailerReads(p: Parser, hs: seq<Header>, rest: seq<byte>) returns (q: Parser)
    requires AtField(p) && Sane(p.core) && AllHeadersOk(hs) && !Continues(rest)
    requires forall h :: h in hs ==> HeaderOf(h.name) == GeneralHeader
    ensures Reaches(p, HeadersText(hs) + rest, HeadersTrace(hs), q, rest) && SameHeader(p, q)
    decreases |hs|
  {
    hide Reaches, HeaderOk, HeaderOf, HeaderText, HeaderTrace;
    if hs == [] {
      q := p;
      assert HeadersText(hs) + rest == rest;
      Stays(p, rest);
    } else {
      var h, more := hs[0], hs[1..];
      var data := HeadersText(more) + rest;
      assert HeadersText(hs) + rest == HeaderText(h) + data;
      assert h in hs && forall x :: x in more ==> x in hs;
      NotContinued(more, rest);
      var p' := HeaderReads(p, h, data);
      GeneralNoted(p, p', h);
      q := TrailerReads(p', more, rest);
      Chain(p, HeadersText(hs) + rest, HeaderTrace(h), p', data, HeadersTrace(more), q, rest);
    }
  }

  lemma GeneralNoted(p: Parser, q: Parser, h: Header)
    requires HeaderOf(h.name) == GeneralHeader && AtField(p) && AtField(q)
    requires IsNoted(p.core, q.core, HeaderOf(h.name), h.value)
    ensures SameHeader(p, q)
  {
    hide HeaderOf;
  }

  // The last chunk up to its trailer, and the trailer
  lemma LastLines(p: Parser, last: LastSent, rest: seq<byte>) returns (q: Parser)
    requires Expecting(p) && p.core.index == 0 && LastSentOk(last) && !Continues(rest)
    ensures Reaches(p, LastLinesText(last) + rest, LastLinesTrace(last), q, rest)
    ensures SameHeader(Trailing(p), q)
  {
    hide Reaches, Expecting, SizeLineOk, SizeIs, AllHeadersOk, LineEnd;
    var a, trailer := Trailing(p), HeadersText(last.trailer) + rest;
    ExpectingIs(p);
    TrailingIs(p);
    SizeReads(p, last.zeros, 0, last.extensions, last.sizeEnd, trailer);
    assert Parser(SizeDone(AtSizeEnd(Sized(p, 0)).core).core, None) == a;
    q := TrailerReads(a, last.trailer, rest);
    assert LastLinesText(last) + rest == last.zeros + (ExtensionsText(last.extensions) + (last.sizeEnd + trailer));
    var shown := ExtensionsTrace(last.extensions) + [Called(ChunkHeader(0))];
    Chain(p, LastLinesText(last) + rest, shown, a, trailer, HeadersTrace(last.trailer), q, rest);
  }

  lemma TrailingIs(p: Parser)
    requires Expecting(p)
    ensures Sane(Trailing(p).core) && Trailing(p).core.index == p.core.index
  {
  }

  // ---- Bodies ------------------------------------------------------------------------------

  function ChunksText(body: seq<ChunkSent>): seq<byte> {
    if body == [] then [] else ChunkText(body[0]) + ChunksText(body[1..])
  }

  function ChunksTrace(body: seq<ChunkSent>): seq<Out> {
    if body == [] then [] else ChunkTrace(body[0]) + ChunksTrace(body[1..])
  }

  // A body up to the empty line behind its trailer
  function BodyLines(body: seq<ChunkSent>, last: LastSent): seq<byte> {
    ChunksText(body) + LastLinesText(last)
  }

  function BodyLinesTrace(body: seq<ChunkSent>, last: LastSent): seq<Out> {
    ChunksTrace(body) + LastLinesTrace(last)
  }

  predicate BodySentOk(body: seq<ChunkSent>, last: LastSent) {
    (forall chunk :: chunk in body ==> ChunkSentOk(chunk)) && LastSentOk(last)
  }

  lemma {:induction false} ChunksRead(p: Parser, body: seq<ChunkSent>, rest: seq<byte>)
    requires Expecting(p) && forall chunk :: chunk in body ==> ChunkSentOk(chunk)
    ensures Reaches(p, ChunksText(body) + rest, ChunksTrace(body), p, rest)
    decreases |body|
  {
    hide Reaches, Expecting, ChunkSentOk, ChunkText, ChunkTrace;
    if body == [] {
      assert ChunksText(body) + rest == rest;
      Stays(p, rest);
    } else {
      var more := ChunksText(body[1..]) + rest;
      assert ChunksText(body) + rest == ChunkText(body[0]) + more;
      assert body[0] in body && forall chunk :: chunk in body[1..] ==> chunk in body;
      ChunkReads(p, body[0], more);
      ChunksRead(p, body[1..], rest);
      Chain(p, ChunksText(body) + rest, ChunkTrace(body[0]), p, more, ChunksTrace(body[1..]), p, rest);
    }
  }

  lemma BodyLinesRead(p: Parser, body: seq<ChunkSent>, last: LastSent, rest: seq<byte>) returns (q: Parser)
    requires Expecting(p) && p.core.index == 0 && BodySentOk(body, last) && !Continues(rest)
    ensures Reaches(p, BodyLines(body, last) + rest, BodyLinesTrace(body, last), q, rest) && SameHeader(Trailing(p), q)
  {
    hide Reaches, Expecting, ChunkSentOk, LastSentOk, LastLinesText, LastLinesTrace, Trailing, SameHeader;
    var lines := LastLinesText(last) + rest;
    assert BodyLines(body, last) + rest == ChunksText(body) + lines;
    ChunksRead(p, body, lines);
    q := LastLines(p, last, rest);
    Chain(p, BodyLines(body, last) + rest, ChunksTrace(body), p, lines, LastLinesTrace(last), q, rest);
  }

  // A whole body, whatever extensions and trailer it has: all of it is handed out, and at the empty line the
  // message is complete.
  lemma BodyReads(p: Parser, body: seq<ChunkSent>, last: LastSent) returns (q: Parser)
    requires Expecting(p) && p.core.index == 0 && BodySentOk(body, last)
    ensures SameHeader(Trailing(p), q)
    ensures Parsed(p, BodyLines(body, last) + last.end)
         == (Parser(MessageDone(q.core), None),
             BodyLinesTrace(body, last) + [Called(ChunkComplete), Called(MessageComplete)])
  {
    hide Parsed, Expecting, BodyLines, BodyLinesTrace, MessageDone, AllHeadersOk, SizeIs, SizeLineOk, ChunkSentOk;
    q := BodyLinesRead(p, body, last, last.end);
    AfterTrailer(q, last.end);
  }

  // Before the last byte of the empty line it is not.
  lemma BodyIsOpen(p: Parser, body: seq<ChunkSent>, last: LastSent)
    requires Expecting(p) && p.core.index == 0 && BodySentOk(body, last)
    ensures Parsed(p, BodyLines(body, last) + [CR]).1 == BodyLinesTrace(body, last)
  {
    hide Parsed, Expecting, BodyLines, BodyLinesTrace, AllHeadersOk, SizeIs, SizeLineOk, ChunkSentOk, Calls, Look;
    var q := BodyLinesRead(p, body, last, [CR]);
    TrailerLooks(q.core);
    Taken(q, [CR], Goto(q.core, Field(HeadersAlmostDone)), []);
    assert [CR][1..] == [LF][1..];
    ParsedNothing(Parser(Goto(q.core, Field(HeadersAlmostDone)), None));
    NoCalls(MessageComplete);
    Unchanged(BodyLinesTrace(body, last));
  }
}
