/**
 The status line of a response: what the parser hands out and keeps of it, for every version it knows, every
 status and every reason phrase.
 */
module ResponseLines {
  import opened Basics
  import opened FramingRules
  import opened ResponseStates
  import opened ResponseFold
  import opened ResponseBodies
  import opened ResponseChunks
  import opened ResponseNames
  import opened ResponseValues

  // A status line as it is sent; the reason phrase and the space before it may be missing.
  datatype StatusLine = StatusLine(major: byte, minor: byte, code: seq<byte>, reason: Option<seq<byte>>, end: seq<byte>)

  predicate ReasonOk(reason: seq<byte>) {
    forall i :: 0 <= i < |reason| ==> reason[i] != CR && reason[i] != LF
  }

  predicate VersionIs(line: StatusLine, major: nat, minor: nat) {
    Digit(line.major) && Digit(line.minor) && DigitValue(line.major) == major && DigitValue(line.minor) == minor
  }

  predicate StatusLineOk(line: StatusLine) {
    && (VersionIs(line, 0, 9) || VersionIs(line, 1, 0) || VersionIs(line, 1, 1) || VersionIs(line, 2, 0))
    && |line.code| == 3 && Decimal(line.code) && LineEnd(line.end)
    && (line.reason.Some? ==> ReasonOk(line.reason.value))
  }

  function StatusOf(line: StatusLine): nat
    requires StatusLineOk(line)
  {
    DecimalAfter(0, line.code)
  }

  const PROTOCOL: seq<byte> := ['H' as int, 'T' as int, 'T' as int, 'P' as int]

  function VersionText(line: StatusLine): seq<byte> {
    [line.major, '.' as int, line.minor]
  }

  function ReasonText(line: StatusLine): seq<byte> {
    match line.reason
    case None => []
    case Some(reason) => [SP] + reason
  }

  function LineText(line: StatusLine): seq<byte> {
    PROTOCOL + (['/' as int] + (VersionText(line) + ([SP] + (line.code + (ReasonText(line) + line.end)))))
  }

  function ReasonTrace(line: StatusLine): seq<Out> {
    match line.reason
    case None => []
    case Some(reason) => SpanData(Some(StatusSpan), reason)
  }

  function LineTrace(line: StatusLine): seq<Out> {
    SpanData(Some(ProtocolSpan), PROTOCOL) + [Called(ProtocolComplete)]
    + (SpanData(Some(VersionSpan), VersionText(line)) + [Called(VersionComplete)]
       + (ReasonTrace(line) + [Called(StatusComplete)]))
  }

  // ---- The protocol and the version --------------------------------------------------------

  lemma LineLook(c: Core, b: byte)
    requires c.state.Line? && !Matching(c.state)
    ensures Look(c, b) == if InVersion(c.state.line) then VersionStep(c, b) else StatusStep(c, b)
  {
    hide VersionStep, StatusStep, MatchStep;
  }

  function InLine(p: Parser, line: LineState, span: Option<Span>): Parser {
    Parser(Goto(p.core, Line(line)), span)
  }

  lemma ReadProtocol(p: Parser, rest: seq<byte>)
    requires p.core.state == Line(ProtocolStart) && p.span == None && p.core.index == 0
    ensures Reaches(p, PROTOCOL + rest, SpanData(Some(ProtocolSpan), PROTOCOL) + [Called(ProtocolComplete)],
                    InLine(p, AfterProtocol, None), rest)
  {
    hide Look, Reaches, SpanData;
    var data, ttp := PROTOCOL + rest, PROTOCOL[1..] + rest;
    var span := Some(ProtocolSpan);
    var a, b, q := InLine(p, Protocol, span), InLine(p, Http, span), InLine(p, AfterProtocol, None);
    assert data[0] == 'H' as int && data[1..] == ttp;
    LineLook(p.core, data[0]);
    Opens(p, data, ProtocolSpan, a.core);
    LineLook(a.core, data[0]);
    Takes(a, data, b.core);
    ReadTtp(b, rest);
    FirstData(span, PROTOCOL);
    var shown := SpanData(span, PROTOCOL[1..]) + [Called(ProtocolComplete)];
    Chain(a, data, Consumed(span, data[0]), b, ttp, shown, q, rest);
    assert Consumed(span, data[0]) + shown == SpanData(span, PROTOCOL) + [Called(ProtocolComplete)];
    Silently(p, data, a, data, SpanData(span, PROTOCOL) + [Called(ProtocolComplete)], q, rest);
  }

  lemma ReadTtp(p: Parser, rest: seq<byte>)
    requires p.core.state == Line(Http) && p.span == Some(ProtocolSpan) && p.core.index == 0
    ensures Reaches(p, PROTOCOL[1..] + rest, SpanData(p.span, PROTOCOL[1..]) + [Called(ProtocolComplete)],
                    InLine(p, AfterProtocol, None), rest)
  {
    hide Look, Reaches, SpanData;
    var tt, last := PROTOCOL[1..3], ['P' as int] + rest;
    var q, r := p.(core := p.core.(index := 2)), InLine(p, AfterProtocol, None);
    assert PROTOCOL[1..] + rest == tt + last && last[1..] == rest && PROTOCOL[1..][..2] == tt;
    MatchMost(p, tt, last);
    LastOne(q.core, last[0]);
    ShutsAfter(q, last, r.core, [ProtocolComplete]);
    NoCalls(ProtocolComplete);
    LastData(p.span, PROTOCOL[1..]);
    var shown := Consumed(p.span, last[0]) + [Called(ProtocolComplete)];
    Chain(p, PROTOCOL[1..] + rest, SpanData(p.span, tt), q, last, shown, r, rest);
    assert SpanData(p.span, tt) + shown == SpanData(p.span, PROTOCOL[1..]) + [Called(ProtocolComplete)];
  }

  // The parser after the version
  function Versioned(p: Parser, line: StatusLine): Parser
    requires StatusLineOk(line)
  {
    var framing := p.core.framing.(major := DigitValue(line.major), minor := DigitValue(line.minor));
    Parser(p.core.(state := Line(AfterVersion), framing := framing), None)
  }

  lemma ReadVersion(p: Parser, line: StatusLine, rest: seq<byte>)
    requires p.core.state == Line(AfterProtocol) && p.span == None && StatusLineOk(line)
    ensures Reaches(p, ['/' as int] + (VersionText(line) + rest),
                    SpanData(Some(VersionSpan), VersionText(line)) + [Called(VersionComplete)],
                    Versioned(p, line), rest)
  {
    hide Look, Reaches, SpanData;
    var text := VersionText(line) + rest;
    var data, span := ['/' as int] + text, Some(VersionSpan);
    var a, b := InLine(p, VersionStart, None), InLine(p, Major, span);
    assert data[1..] == text && text[0] == line.major;
    LineLook(p.core, data[0]);
    Takes(p, data, a.core);
    LineLook(a.core, text[0]);
    Opens(a, text, VersionSpan, b.core);
    ReadNumbers(b, line, rest);
    assert Versioned(b, line) == Versioned(p, line);
    var shown := SpanData(span, VersionText(line)) + [Called(VersionComplete)];
    Silently(a, text, b, text, shown, Versioned(p, line), rest);
    Silently(p, data, a, text, shown, Versioned(p, line), rest);
  }

  lemma ReadNumbers(p: Parser, line: StatusLine, rest: seq<byte>)
    requires p.core.state == Line(Major) && p.span == Some(VersionSpan) && StatusLineOk(line)
    ensures Reaches(p, VersionText(line) + rest, SpanData(p.span, VersionText(line)) + [Called(VersionComplete)],
                    Versioned(p, line), rest)
  {
    hide Look, Reaches;
    var major, minor := [line.major, '.' as int, line.minor] + rest, ['.' as int, line.minor] + rest;
    var last := [line.minor] + rest;
    assert major[1..] == minor && minor[1..] == last && last[1..] == rest;
    var framing := p.core.framing.(major := DigitValue(line.major));
    var a := p.(core := p.core.(state := Line(Dot), framing := framing));
    var b := p.(core := p.core.(state := Line(Minor), framing := framing));
    LineLook(p.core, major[0]);
    Takes(p, major, a.core);
    LineLook(a.core, minor[0]);
    Takes(a, minor, b.core);
    LineLook(b.core, last[0]);
    ShutsAfter(b, last, Versioned(p, line).core, [VersionComplete]);
    NoCalls(VersionComplete);
    var shown := Consumed(p.span, line.minor) + [Called(VersionComplete)];
    Chain(a, minor, Consumed(p.span, '.' as int), b, last, shown, Versioned(p, line), rest);
    var more := Consumed(p.span, '.' as int) + shown;
    Chain(p, major, Consumed(p.span, line.major), a, minor, more, Versioned(p, line), rest);
    assert Consumed(p.span, line.major) + (Consumed(p.span, '.' as int) + shown)
        == SpanData(p.span, VersionText(line)) + [Called(VersionComplete)];
  }

  // ---- The status and the reason phrase ----------------------------------------------------

  function WithStatus(p: Parser, line: LineState, status: nat): Parser {
    Parser(p.core.(state := Line(line), framing := p.core.framing.(status := status)), None)
  }

  lemma CodeByte(p: Parser, line: LineState, next: LineState, status: nat, data: seq<byte>)
    requires p.core.framing.status == status <= 99 && p.span == None && data != [] && Digit(data[0])
    requires p.core.state == Line(line)
    requires (line, next) == (CodeDigit1, CodeDigit2) || (line, next) == (CodeDigit2, CodeDigit3)
          || (line, next) == (CodeDigit3, CodeDone)
    ensures Reaches(p, data, [], WithStatus(p, next, 10 * status + DigitValue(data[0])), data[1..])
  {
    hide Look, Reaches;
    LineLook(p.core, data[0]);
    Takes(p, data, WithStatus(p, next, 10 * status + DigitValue(data[0])).core);
  }

  lemma ThreeDigits(code: seq<byte>)
    requires |code| == 3 && Decimal(code)
    ensures DecimalAfter(0, code)
         == 10 * (10 * DigitValue(code[0]) + DigitValue(code[1])) + DigitValue(code[2])
  {
    hide DigitValue;
    assert code[1..][0] == code[1] && code[1..][1..] == code[2..] && code[2..][0] == code[2] && code[2..][1..] == [];
    assert DecimalAfter(0, code) == DecimalAfter(DigitValue(code[0]), code[1..]);
    assert DecimalAfter(DigitValue(code[0]), code[1..])
        == DecimalAfter(10 * DigitValue(code[0]) + DigitValue(code[1]), code[2..]);
  }

  lemma ReadCode(p: Parser, code: seq<byte>, rest: seq<byte>)
    requires p.core.state == Line(AfterVersion) && p.span == None && |code| == 3 && Decimal(code)
    ensures Reaches(p, [SP] + (code + rest), [], WithStatus(p, CodeDone, DecimalAfter(0, code)), rest)
  {
    hide Look, Reaches, DecimalAfter, DigitValue;
    var data, all, a := [SP] + (code + rest), code + rest, WithStatus(p, CodeDigit1, 0);
    assert data[1..] == all;
    LineLook(p.core, SP);
    Takes(p, data, a.core);
    ReadDigits(a, code, rest);
    Silently(p, data, a, all, [], WithStatus(p, CodeDone, DecimalAfter(0, code)), rest);
  }

  lemma ReadDigits(p: Parser, code: seq<byte>, rest: seq<byte>)
    requires p.core.state == Line(CodeDigit1) && p.span == None && p.core.framing.status == 0
    requires |code| == 3 && Decimal(code)
    ensures Reaches(p, code + rest, [], WithStatus(p, CodeDone, DecimalAfter(0, code)), rest)
  {
    hide Look, Reaches, DecimalAfter, DigitValue;
    ThreeDigits(code);
    var all, two, one := code + rest, code[1..] + rest, code[2..] + rest;
    assert all[1..] == two && two[1..] == one && one[1..] == rest;
    var n1 := DigitValue(code[0]);
    var n2 := 10 * n1 + DigitValue(code[1]);
    var b, c := WithStatus(p, CodeDigit2, n1), WithStatus(p, CodeDigit3, n2);
    var d := WithStatus(p, CodeDone, DecimalAfter(0, code));
    DigitsAreSmall(code[0], code[1]);
    CodeByte(p, CodeDigit1, CodeDigit2, 0, all);
    CodeByte(b, CodeDigit2, CodeDigit3, n1, two);
    CodeByte(c, CodeDigit3, CodeDone, n2, one);
    Silently(b, two, c, one, [], d, rest);
    Silently(p, all, b, two, [], d, rest);
  }

  lemma DigitsAreSmall(a: byte, b: byte)
    requires Digit(a) && Digit(b)
    ensures 0 <= DigitValue(a) <= 9 && 10 * DigitValue(a) + DigitValue(b) <= 99
  {
  }

  // The parser where the first header line may begin
  function HeadersAt(p: Parser): Parser {
    Parser(Goto(p.core, Field(FieldStart)), None)
  }

  lemma FirstLine(p: Parser, rest: seq<byte>)
    requires p.core.state == Field(HeadersStart) && p.span == None && !Continues(rest)
    ensures Reaches(p, rest, [], HeadersAt(p), rest)
  {
    hide Reaches;
    Passes(p, rest, HeadersAt(p).core);
  }

  // The line feed that ends the status line
  lemma ReadLf(p: Parser, rest: seq<byte>)
    requires p.core.state == Line(LineAlmostDone) && p.span == None && !Continues(rest)
    ensures Reaches(p, [LF] + rest, [Called(StatusComplete)], HeadersAt(p), rest)
  {
    hide Look, Reaches;
    var data, q := [LF] + rest, Parser(Goto(p.core, Field(HeadersStart)), None);
    assert data[1..] == rest;
    LineLook(p.core, LF);
    var e := TakeThen(q.core, [StatusComplete]);
    Looks(p, data, e);
    NoCalls(StatusComplete);
    assert Shown(p, LF, e) == [Called(StatusComplete)];
    FirstLine(q, rest);
    ThenNothing(p, data, [Called(StatusComplete)], q, rest, HeadersAt(p));
  }

  // The end of the line after the status
  lemma ReadEnd(p: Parser, end: seq<byte>, rest: seq<byte>)
    requires p.core.state == Line(CodeDone) && p.span == None && LineEnd(end) && !Continues(rest)
    ensures Reaches(p, end + rest, [Called(StatusComplete)], HeadersAt(p), rest)
  {
    hide Look, Reaches;
    var data, lf := end + rest, [LF] + rest;
    LineLook(p.core, data[0]);
    if end == CRLF {
      var q := InLine(p, LineAlmostDone, None);
      assert data[1..] == lf;
      Takes(p, data, q.core);
      ReadLf(q, rest);
      Silently(p, data, q, lf, [Called(StatusComplete)], HeadersAt(p), rest);
    } else {
      var q := Parser(Goto(p.core, Field(HeadersStart)), None);
      assert data[1..] == rest;
      var e := TakeThen(q.core, [StatusComplete]);
      Looks(p, data, e);
      NoCalls(StatusComplete);
      assert Shown(p, LF, e) == [Called(StatusComplete)];
      FirstLine(q, rest);
      ThenNothing(p, data, [Called(StatusComplete)], q, rest, HeadersAt(p));
    }
  }

  lemma {:induction false} ReadReason(p: Parser, reason: seq<byte>, rest: seq<byte>)
    requires p.core.state == Line(Text) && p.span == Some(StatusSpan) && ReasonOk(reason)
    ensures Reaches(p, reason + rest, SpanData(p.span, reason), p, rest)
    decreases |reason|
  {
    hide Look, Reaches, SpanData;
    if reason == [] {
      assert reason + rest == rest;
      Stays(p, rest);
    } else {
      var data := reason + rest;
      assert data[0] == reason[0] && data[1..] == reason[1..] + rest;
      LineLook(p.core, data[0]);
      Takes(p, data, p.core);
      ReadReason(p, reason[1..], rest);
      FirstData(p.span, reason);
      Chain(p, data, Consumed(p.span, data[0]), p, data[1..], SpanData(p.span, reason[1..]), p, rest);
    }
  }

  // The end of the line after a reason phrase
  lemma ReasonEnds(p: Parser, end: seq<byte>, rest: seq<byte>)
    requires p.core.state == Line(Text) && p.span == Some(StatusSpan) && LineEnd(end) && !Continues(rest)
    ensures Reaches(p, end + rest, [Called(StatusComplete)], HeadersAt(p), rest)
  {
    hide Look, Reaches;
    var data, lf := end + rest, [LF] + rest;
    LineLook(p.core, data[0]);
    NoCalls(StatusComplete);
    if end == CRLF {
      var q := InLine(p, LineAlmostDone, None);
      assert data[1..] == lf;
      ShutsBefore(p, data, q.core, []);
      ReadLf(q, rest);
      Silently(p, data, q, lf, [Called(StatusComplete)], HeadersAt(p), rest);
    } else {
      var q := Parser(Goto(p.core, Field(HeadersStart)), None);
      assert data[1..] == rest;
      ShutsBefore(p, data, q.core, [StatusComplete]);
      FirstLine(q, rest);
      ThenNothing(p, data, [Called(StatusComplete)], q, rest, HeadersAt(p));
    }
  }

  lemma ReadLineEnd(p: Parser, line: StatusLine, rest: seq<byte>)
    requires p.core.state == Line(CodeDone) && p.span == None && StatusLineOk(line) && !Continues(rest)
    ensures Reaches(p, ReasonText(line) + (line.end + rest), ReasonTrace(line) + [Called(StatusComplete)],
                    HeadersAt(p), rest)
  {
    hide Look, Reaches, SpanData, LineEnd;
    var end := line.end + rest;
    match line.reason
    case None =>
      assert ReasonText(line) + end == end;
      assert ReasonTrace(line) + [Called(StatusComplete)] == [Called(StatusComplete)];
      ReadEnd(p, line.end, rest);
    case Some(reason) =>
      var data, text := ReasonText(line) + end, reason + end;
      var a, b := InLine(p, TextStart, None), InLine(p, Text, Some(StatusSpan));
      assert data[0] == SP && data[1..] == text;
      assert text != [] by { NotEmpty(line.end); }
      LineLook(p.core, SP);
      Takes(p, data, a.core);
      LineLook(a.core, text[0]);
      Opens(a, text, StatusSpan, b.core);
      ReadReason(b, reason, end);
      ReasonEnds(b, line.end, rest);
      var shown := SpanData(b.span, reason) + [Called(StatusComplete)];
      Chain(b, text, SpanData(b.span, reason), b, end, [Called(StatusComplete)], HeadersAt(p), rest);
      Silently(a, text, b, text, shown, HeadersAt(p), rest);
      Silently(p, data, a, text, shown, HeadersAt(p), rest);
  }

  lemma NotEmpty(end: seq<byte>)
    requires LineEnd(end)
    ensures end != []
  {
  }

  // The parser after the status line
  function LineRead(p: Parser, line: StatusLine): Parser
    requires StatusLineOk(line)
  {
    var framing := p.core.framing.(major := DigitValue(line.major), minor := DigitValue(line.minor),
                                   status := StatusOf(line));
    Parser(p.core.(state := Field(FieldStart), framing := framing), None)
  }

  lemma LineReads(p: Parser, line: StatusLine, rest: seq<byte>)
    requires p.core.state == Line(ProtocolStart) && p.span == None && p.core.index == 0
    requires StatusLineOk(line) && !Continues(rest)
    ensures Reaches(p, LineText(line) + rest, LineTrace(line), LineRead(p, line), rest)
  {
    hide Reaches, SpanData, StatusLineOk, VersionText, ReasonText, ReasonTrace, DecimalAfter;
    assert |line.code| == 3 && Decimal(line.code) by { CodeOk(line); }
    var end := ReasonText(line) + (line.end + rest);
    var code := [SP] + (line.code + end);
    var version := ['/' as int] + (VersionText(line) + code);
    assert LineText(line) + rest == PROTOCOL + version;
    var a, q := InLine(p, AfterProtocol, None), LineRead(p, line);
    var b := Versioned(a, line);
    var c := WithStatus(b, CodeDone, DecimalAfter(0, line.code));
    var o1 := SpanData(Some(ProtocolSpan), PROTOCOL) + [Called(ProtocolComplete)];
    var o2 := SpanData(Some(VersionSpan), VersionText(line)) + [Called(VersionComplete)];
    var o3 := ReasonTrace(line) + [Called(StatusComplete)];
    ReadProtocol(p, version);
    ReadVersion(a, line, code);
    ReadCode(b, line.code, end);
    ReadLineEnd(c, line, rest);
    Silently(b, code, c, end, o3, q, rest);
    Chain(a, version, o2, b, code, o3, q, rest);
    Chain(p, PROTOCOL + version, o1, a, version, o2 + o3, q, rest);
  }

  lemma CodeOk(line: StatusLine)
    requires StatusLineOk(line)
    ensures |line.code| == 3 && Decimal(line.code)
  {
  }
}
