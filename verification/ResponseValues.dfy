/**
 The values of header fields, one kind at a time: text as it is, a length, and the words that the parser
 compares.
 */
module ResponseValues {
  import opened Basics
  import opened FramingRules
  import opened ResponseStates
  import opened ResponseFold
  import opened ResponseBodies
  import opened ResponseChunks
  import opened ResponseNames

  // ---- White space -------------------------------------------------------------------------

  predicate Blank(b: byte) {
    b == HT || b == SP
  }

  predicate Blanks(text: seq<byte>) {
    forall i :: 0 <= i < |text| ==> Blank(text[i])
  }

  predicate PlainText(text: seq<byte>) {
    (forall i :: 0 <= i < |text| ==> ValueChar(text[i])) && (text != [] ==> !Blank(text[0]))
  }

  // ---- Around a value ----------------------------------------------------------------------

  lemma EdgeLook(c: Core, b: byte)
    requires c.state.Value? && !Matching(c.state) && !InOptions(c.state.value) && !InFraming(c.state.value)
    ensures Look(c, b) == EdgeStep(c, b)
  {
    hide EdgeStep, MatchStep;
  }

  lemma FramingLook(c: Core, b: byte)
    requires c.state.Value? && InFraming(c.state.value)
    ensures Look(c, b) == FramingStep(c, b)
  {
    hide FramingStep, MatchStep;
  }

  lemma OptionLook(c: Core, b: byte)
    requires c.state.Value? && InOptions(c.state.value)
    ensures Look(c, b) == OptionStep(c, b)
  {
    hide OptionStep, MatchStep;
  }

  lemma {:induction false} SkipBlanks(p: Parser, blanks: seq<byte>, rest: seq<byte>)
    requires p.core.state == Value(DiscardWs) && p.span == None && Blanks(blanks)
    ensures Reaches(p, blanks + rest, [], p, rest)
    decreases |blanks|
  {
    hide Look, Reaches;
    if blanks == [] {
      assert blanks + rest == rest;
      Stays(p, rest);
    } else {
      var data := blanks + rest;
      assert data[0] == blanks[0] && data[1..] == blanks[1..] + rest;
      EdgeLook(p.core, data[0]);
      assert Look(p.core, data[0]) == TakeThen(p.core, []);
      Takes(p, data, p.core);
      SkipBlanks(p, blanks[1..], rest);
      Silently(p, data, p, data[1..], [], p, rest);
    }
  }

  // The parser where a value has ended, and after the line end and the first byte of the next line, which
  // does not continue it
  predicate AtValueEnd(p: Parser) {
    p.core.state == Value(ValueEnd) && p.span == Some(ValueSpan) && p.core.index == 0
  }

  function NextLine(c: Core): Parser {
    Parser(Goto(NoteElement(c), Field(FieldStart)), None)
  }

  predicate Continues(rest: seq<byte>) {
    rest == [] || Blank(rest[0])
  }

  lemma LwsShuts(p: Parser, rest: seq<byte>)
    requires p.core.state == Value(Lws) && p.span == None && !Continues(rest)
    ensures Reaches(p, rest, [Called(ValueComplete)], NextLine(p.core), rest)
  {
    hide Look, Reaches, NoteElement;
    EdgeLook(p.core, rest[0]);
    var e := PassAfter(NextLine(p.core).core, [ValueComplete]);
    assert Look(p.core, rest[0]) == e;
    Looks(p, rest, e);
    NoCalls(ValueComplete);
    assert Shown(p, rest[0], e) == [Called(ValueComplete)];
  }

  lemma AlmostDone(p: Parser, rest: seq<byte>)
    requires p.core.state == Value(ValueAlmostDone) && p.span == None && !Continues(rest)
    ensures Reaches(p, [LF] + rest, [Called(ValueComplete)], NextLine(p.core), rest)
  {
    hide Look, Reaches, NoteElement;
    var q, data := p.(core := Goto(p.core, Value(Lws))), [LF] + rest;
    assert data[1..] == rest;
    EdgeLook(p.core, LF);
    Takes(p, data, q.core);
    LwsShuts(q, rest);
    SameLine(p.core, Value(Lws));
    Silently(p, data, q, rest, [Called(ValueComplete)], NextLine(p.core), rest);
  }

  lemma SameLine(c: Core, state: State)
    ensures NextLine(Goto(c, state)) == NextLine(c)
  {
  }

  lemma ValueShuts(p: Parser, end: seq<byte>, rest: seq<byte>)
    requires AtValueEnd(p) && LineEnd(end) && !Continues(rest)
    ensures Reaches(p, end + rest, [Called(ValueComplete)], NextLine(p.core), rest)
  {
    hide Look, Reaches, NoteElement;
    var q, data, lf := Parser(Goto(p.core, Value(ValueAlmostDone)), None), end + rest, [LF] + rest;
    EdgeLook(p.core, data[0]);
    SameLine(p.core, Value(ValueAlmostDone));
    AlmostDone(q, rest);
    if end == CRLF {
      assert data[1..] == lf;
      ShutsBefore(p, data, q.core, []);
    } else {
      assert data == lf;
      Looks(p, data, ShutPass(q.core, []));
      assert Shown(p, data[0], ShutPass(q.core, [])) == [];
    }
    NoCalls(ValueComplete);
    Silently(p, data, q, lf, [Called(ValueComplete)], NextLine(p.core), rest);
  }

  // The first byte of a value that is not empty
  lemma ValueOpens(p: Parser, data: seq<byte>)
    requires p.core.state == Value(DiscardWs) && p.span == None && data != [] && !Blank(data[0])
    requires data[0] != LF && data[0] != CR && !ValueBegins(p.core).state.Failed?
    ensures Reaches(p, data, [], Parser(ValueBegins(p.core), Some(ValueSpan)), data)
  {
    hide Look, Reaches, ValueBegins;
    var q := p.(core := Goto(p.core, Value(ValueStart)));
    EdgeLook(p.core, data[0]);
    Passes(p, data, q.core);
    EdgeLook(q.core, data[0]);
    assert ValueBegins(q.core) == ValueBegins(p.core) by { BeginsSame(p.core, Value(ValueStart)); }
    Opens(q, data, ValueSpan, ValueBegins(p.core));
    Silently(p, data, q, data, [], Parser(ValueBegins(p.core), Some(ValueSpan)), data);
  }

  lemma BeginsSame(c: Core, state: State)
    ensures ValueBegins(Goto(c, state)) == ValueBegins(c)
  {
  }

  // ---- Values ------------------------------------------------------------------------------

  predicate LineEnds(data: seq<byte>) {
    data != [] && (data[0] == CR || data[0] == LF)
  }

  // The parser where the value has ended
  function ValueEnded(c: Core): Parser {
    Parser(Goto(c, Value(ValueEnd)), Some(ValueSpan))
  }

  // A state that leaves the line end to the end of the value
  lemma EndsHere(p: Parser, line: seq<byte>, c: Core)
    requires LineEnds(line) && p.span == Some(ValueSpan) && Look(p.core, line[0]) == Pass(c, Value(ValueEnd))
    ensures Reaches(p, line, [], ValueEnded(c), line)
  {
    hide Look, Reaches;
    Passes(p, line, ValueEnded(c).core);
  }

  lemma {:induction false} PlainValue(p: Parser, value: seq<byte>, line: seq<byte>)
    requires p.core.state == Value(Plain) && p.span == Some(ValueSpan) && LineEnds(line)
    requires forall i :: 0 <= i < |value| ==> ValueChar(value[i])
    ensures Reaches(p, value + line, SpanData(p.span, value), ValueEnded(p.core), line)
    decreases |value|
  {
    hide Look, Reaches, SpanData;
    var data := value + line;
    EdgeLook(p.core, data[0]);
    if value == [] {
      assert data == line;
      EndsHere(p, line, p.core);
      Stays(p, line);
    } else {
      assert data[0] == value[0] && data[1..] == value[1..] + line;
      Takes(p, data, p.core);
      PlainValue(p, value[1..], line);
      FirstData(p.span, value);
      Chain(p, data, Consumed(p.span, data[0]), p, data[1..], SpanData(p.span, value[1..]), ValueEnded(p.core), line);
    }
  }

  lemma FromParsed(p: Parser, data: seq<byte>, outs: seq<Out>, q: Parser, rest: seq<byte>)
    requires Parsed(p, data) == (q, outs)
    ensures Reaches(p, data + rest, outs, q, rest)
  {
    hide Parsed;
    ParsedConcat(p, data, rest);
  }

  // Within the head of a response that is going well
  predicate Sane(c: Core) {
    c.error == 0 && c.finish == Unsafe && c.contentLength <= MAX_LENGTH
  }

  lemma {:induction false} LengthBlanks(p: Parser, blanks: seq<byte>, rest: seq<byte>)
    requires p.core.state == Value(LengthWs) && Blanks(blanks)
    ensures Reaches(p, blanks + rest, SpanData(p.span, blanks), p, rest)
    decreases |blanks|
  {
    hide Look, Reaches, SpanData;
    if blanks == [] {
      assert blanks + rest == rest;
      Stays(p, rest);
    } else {
      var data := blanks + rest;
      assert data[0] == blanks[0] && data[1..] == blanks[1..] + rest;
      FramingLook(p.core, data[0]);
      Takes(p, data, p.core);
      LengthBlanks(p, blanks[1..], rest);
      FirstData(p.span, blanks);
      Chain(p, data, Consumed(p.span, data[0]), p, data[1..], SpanData(p.span, blanks[1..]), p, rest);
    }
  }

  lemma LengthEnds(p: Parser, blanks: seq<byte>, line: seq<byte>)
    requires p.core.state == Value(Length) && p.span == Some(ValueSpan) && LineEnds(line) && Blanks(blanks)
    ensures Reaches(p, blanks + line, SpanData(p.span, blanks),
                    ValueEnded(WithFlags(p.core, p.core.framing.flags.(contentLength := true))), line)
  {
    hide Look, Reaches, SpanData;
    var data, q := blanks + line, p.(core := Goto(p.core, Value(LengthWs)));
    var end := ValueEnded(WithFlags(p.core, p.core.framing.flags.(contentLength := true)));
    assert !Digit(data[0]) by { NoDigit(blanks, line); }
    FramingLook(p.core, data[0]);
    Passes(p, data, q.core);
    LengthBlanks(q, blanks, line);
    FramingLook(q.core, line[0]);
    EndsHere(q, line, WithFlags(q.core, p.core.framing.flags.(contentLength := true)));
    ThenNothing(q, data, SpanData(p.span, blanks), q, line, end);
    Silently(p, data, q, data, SpanData(p.span, blanks), end, line);
  }

  lemma NoDigit(blanks: seq<byte>, line: seq<byte>)
    requires Blanks(blanks) && LineEnds(line)
    ensures !Digit((blanks + line)[0])
  {
  }

  // The digits of a length and white space after them
  lemma LengthValue(p: Parser, digits: seq<byte>, blanks: seq<byte>, line: seq<byte>)
    requires Sane(p.core) && p.core.state == Value(Length) && p.span == Some(ValueSpan) && LineEnds(line)
    requires Decimal(digits) && DecimalAfter(p.core.contentLength, digits) <= MAX_LENGTH && Blanks(blanks)
    ensures var c := p.core.(contentLength := DecimalAfter(p.core.contentLength, digits));
      Reaches(p, digits + blanks + line, SpanData(p.span, digits + blanks),
              ValueEnded(WithFlags(c, c.framing.flags.(contentLength := true))), line)
  {
    hide Look, Reaches, SpanData, DecimalAfter;
    var c := p.core.(contentLength := DecimalAfter(p.core.contentLength, digits));
    var q, end := p.(core := c), ValueEnded(WithFlags(c, c.framing.flags.(contentLength := true)));
    ContentLengthLaw(p, digits);
    assert digits + blanks + line == digits + (blanks + line);
    FromParsed(p, digits, SpanData(p.span, digits), q, blanks + line);
    LengthEnds(q, blanks, line);
    SpanDataConcat(p.span, digits, blanks);
    Chain(p, digits + blanks + line, SpanData(p.span, digits), q, blanks + line, SpanData(p.span, blanks), end, line);
  }

  lemma ThenNothing(p: Parser, data: seq<byte>, outs: seq<Out>, q: Parser, rest: seq<byte>, r: Parser)
    requires Reaches(p, data, outs, q, rest) && Reaches(q, rest, [], r, rest)
    ensures Reaches(p, data, outs, r, rest)
  {
    hide Reaches;
    Chain(p, data, outs, q, rest, [], r, rest);
    assert outs + [] == outs;
  }

  // ---- Words that are matched --------------------------------------------------------------

  // The text is what the state still compares, but for its last byte.
  predicate FitsOn(c: Core, text: seq<byte>)
    requires Matching(c.state)
  {
    && c.index + |text| < |Pattern(c.state).1|
    && forall i :: 0 <= i < |text| ==> Folded(Pattern(c.state).0, text[i]) == Pattern(c.state).1[c.index + i] as int
  }

  lemma {:induction false} MatchMost(p: Parser, text: seq<byte>, rest: seq<byte>)
    requires Matching(p.core.state) && FitsOn(p.core, text)
    ensures Reaches(p, text + rest, SpanData(p.span, text), p.(core := p.core.(index := p.core.index + |text|)), rest)
    decreases |text|
  {
    hide Look, Reaches, SpanData, Pattern, Folded, Matching, MatchStep;
    if text == [] {
      assert text + rest == rest;
      Stays(p, rest);
    } else {
      var data, q := text + rest, p.(core := p.core.(index := p.core.index + 1));
      assert data[0] == text[0] && data[1..] == text[1..] + rest;
      MatchLook(p.core, data[0]);
      OneMore(p.core, data[0]);
      Takes(p, data, q.core);
      MatchMost(q, text[1..], rest);
      FirstData(p.span, text);
      Chain(p, data, Consumed(p.span, data[0]), q, data[1..], SpanData(p.span, text[1..]),
            p.(core := p.core.(index := p.core.index + |text|)), rest);
    }
  }

  lemma OneMore(c: Core, b: byte)
    requires Matching(c.state) && Fits(c.state, c.index, b) && c.index + 1 < |Pattern(c.state).1|
    ensures MatchStep(c, b) == TakeThen(c.(index := c.index + 1), []) && !c.state.Failed?
  {
    hide Fits, Pattern;
  }

  lemma LastOne(c: Core, b: byte)
    requires Matching(c.state) && Fits(c.state, c.index, b) && c.index + 1 == |Pattern(c.state).1|
    ensures Look(c, b) == Matched(c.(index := 0))
  {
    hide Fits, Pattern, Look;
    MatchLook(c, b);
  }

  lemma LastData(span: Option<Span>, data: seq<byte>)
    requires data != []
    ensures SpanData(span, data[..|data| - 1]) + Consumed(span, data[|data| - 1]) == SpanData(span, data)
  {
  }
}
