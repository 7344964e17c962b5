/**
 The header fields of a response: the parser undoes their printing.  What it hands out are the names and the
 values, and what it keeps is exactly what the framing headers say.
 */
module ResponseHeads {
  import opened Basics
  import opened FramingRules
  import opened ResponseStates
  import opened ResponseFold
  import opened ResponseBodies
  import opened ResponseChunks
  import opened ResponseNames
  import opened ResponseValues
  import opened ResponseLists

  // ---- Header fields -----------------------------------------------------------------------

  // A header as it is sent: its name, the white space before its value, its value, and the line end
  datatype Header = Header(name: seq<byte>, blanks: seq<byte>, value: seq<byte>, end: seq<byte>)

  // The digits that a text begins with
  function DigitsOf(text: seq<byte>): (digits: seq<byte>)
    ensures Decimal(digits) && |digits| <= |text| && digits == text[..|digits|]
  {
    if text == [] || !Digit(text[0]) then [] else [text[0]] + DigitsOf(text[1..])
  }

  function LengthIs(value: seq<byte>): nat {
    DecimalAfter(0, DigitsOf(value))
  }

  // A length has white space at most after its digits and fits 64 bits; a coding is not empty; any other value
  // may be any text.
  predicate ValueOk(header: HeaderState, value: seq<byte>) {
    match header
    case LengthHeader =>
      value != [] && !Blank(value[0]) && Blanks(value[|DigitsOf(value)|..]) && LengthIs(value) <= MAX_LENGTH
    case EncodingHeader => value != [] && PlainText(value)
    case _ => PlainText(value)
  }

  predicate HeaderOk(h: Header) {
    h.name != [] && Tokens(h.name) && Blanks(h.blanks) && LineEnd(h.end) && ValueOk(HeaderOf(h.name), h.value)
  }

  function HeaderText(h: Header): seq<byte> {
    h.name + ([':' as int] + (h.blanks + (h.value + h.end)))
  }

  function HeaderTrace(h: Header): seq<Out> {
    SpanData(Some(NameSpan), h.name) + [Called(NameComplete)]
    + (SpanData(Some(ValueSpan), h.value) + [Called(ValueComplete)])
  }

  // ---- What a header says ------------------------------------------------------------------

  // The flags after a header
  function FlagsAfter(flags: Flags, header: HeaderState, value: seq<byte>): Flags {
    if value == [] then flags
    else
      match header
      case LengthHeader => flags.(contentLength := true)
      case EncodingHeader => flags.(transferEncoding := true, chunked := EndsChunked(value))
      case ConnectionHeader => ListFlags(flags, value)
      case UpgradeHeader => flags.(upgrade := true)
      case _ => flags
  }

  function LengthAfter(length: nat, header: HeaderState, value: seq<byte>): nat {
    if header.LengthHeader? then LengthIs(value) else length
  }

  // The parser has noted this header and nothing else.
  predicate IsNoted(c: Core, c': Core, header: HeaderState, value: seq<byte>) {
    c' == c.(state := c'.state, header := c'.header, contentLength := LengthAfter(c.contentLength, header, value),
             framing := c.framing.(flags := FlagsAfter(c.framing.flags, header, value)))
  }

  // The parser before a value, with nothing in the way of it
  predicate AtValue(p: Parser) {
    && p.core.state == Value(DiscardWs) && p.span == None && p.core.index == 0 && Sane(p.core)
    && (p.core.header.LengthHeader? ==> !p.core.framing.flags.contentLength && p.core.contentLength == 0)
    && !p.core.header.KeepAliveSeen? && !p.core.header.CloseSeen? && !p.core.header.UpgradeSeen?
    && !p.core.header.ChunkedSeen?
  }

  // A value that is not empty, up to its line end
  lemma ValueRead(p: Parser, value: seq<byte>, line: seq<byte>) returns (c: Core)
    requires AtValue(p) && ValueOk(p.core.header, value) && value != [] && LineEnds(line)
    ensures Reaches(p, value + line, SpanData(Some(ValueSpan), value), ValueEnded(c), line)
    ensures IsNoted(p.core, NoteElement(c), p.core.header, value)
  {
    hide Reaches, SpanData, DecimalAfter, DigitsOf, NoteElement, IsNoted, EndsChunked, ListFlags, ValueChar,
      ValueBegins;
    var data, p' := value + line, Parser(ValueBegins(p.core), Some(ValueSpan));
    assert data[0] == value[0];
    ValueStarts(p.core.header, value);
    BeginsFine(p);
    ValueOpens(p, data);
    c := ValueGoesOn(p, value, line);
    Silently(p, data, p', data, SpanData(Some(ValueSpan), value), ValueEnded(c), line);
  }

  lemma BeginsFine(p: Parser)
    requires AtValue(p)
    ensures !ValueBegins(p.core).state.Failed?
  {
  }

  lemma ValueGoesOn(p: Parser, value: seq<byte>, line: seq<byte>) returns (c: Core)
    requires AtValue(p) && ValueOk(p.core.header, value) && value != [] && LineEnds(line)
    ensures Reaches(Parser(ValueBegins(p.core), Some(ValueSpan)), value + line, SpanData(Some(ValueSpan), value),
                    ValueEnded(c), line)
    ensures IsNoted(p.core, NoteElement(c), p.core.header, value)
  {
    hide Reaches, SpanData, DecimalAfter, Decimal, EndsChunked, ListFlags, ValueChar;
    var p' := Parser(ValueBegins(p.core), Some(ValueSpan));
    if p.core.header.LengthHeader? {
      var digits := DigitsOf(value);
      var blanks := value[|digits|..];
      assert value == digits + blanks;
      LengthValue(p', digits, blanks, line);
      c := WithFlags(p'.core.(contentLength := LengthIs(value)), p'.core.framing.flags.(contentLength := true));
    } else if p.core.header.EncodingHeader? {
      CodingsRead(p', value, line);
      c := Coded(p'.core, EndsChunked(value));
    } else if p.core.header.ConnectionHeader? {
      c := OptionsRead(p', value, line);
    } else {
      PlainValue(p', value, line);
      c := p'.core;
    }
  }

  lemma ValueStarts(header: HeaderState, value: seq<byte>)
    requires ValueOk(header, value) && value != []
    ensures !Blank(value[0]) && value[0] != LF && value[0] != CR
  {
    hide DecimalAfter;
  }

  // No value at all: the parser knows when the next line has begun.
  lemma NoValue(p: Parser, end: seq<byte>, rest: seq<byte>)
    requires AtValue(p) && !p.core.header.LengthHeader? && !p.core.header.EncodingHeader?
    requires LineEnd(end) && !Continues(rest)
    ensures Reaches(p, end + rest, [Called(ValueComplete)], Parser(Goto(p.core, Field(FieldStart)), None), rest)
  {
    hide Look, Reaches;
    var data, lf := end + rest, [LF] + rest;
    assert lf[1..] == rest;
    if end == CRLF {
      var q := p.(core := Goto(p.core, Value(DiscardWsAlmostDone)));
      assert data[1..] == lf;
      EdgeLook(p.core, data[0]);
      Takes(p, data, q.core);
      EdgeLook(q.core, LF);
      Takes(q, lf, Goto(p.core, Value(DiscardLws)));
      Silently(p, data, q, lf, [], p.(core := Goto(p.core, Value(DiscardLws))), rest);
    } else {
      assert data == lf;
      EdgeLook(p.core, LF);
      Takes(p, data, Goto(p.core, Value(DiscardLws)));
    }
    NextIsNew(p, rest);
    Silently(p, data, p.(core := Goto(p.core, Value(DiscardLws))), rest, [Called(ValueComplete)],
             Parser(Goto(p.core, Field(FieldStart)), None), rest);
  }

  lemma NextIsNew(p: Parser, rest: seq<byte>)
    requires AtValue(p) && !p.core.header.LengthHeader? && !p.core.header.EncodingHeader? && !Continues(rest)
    ensures Reaches(p.(core := Goto(p.core, Value(DiscardLws))), rest, [Called(ValueComplete)],
                    Parser(Goto(p.core, Field(FieldStart)), None), rest)
  {
    hide Look, Reaches;
    var q, r := p.(core := Goto(p.core, Value(DiscardLws))), p.(core := Goto(p.core, Value(EmptyValue)));
    var next := Parser(Goto(p.core, Field(FieldStart)), None);
    EdgeLook(q.core, rest[0]);
    Passes(q, rest, r.core);
    EdgeLook(r.core, rest[0]);
    var e := Effect(next.core, Some(ValueSpan), true, [ValueComplete], false, false, []);
    Looks(r, rest, e);
    NoCalls(ValueComplete);
    assert Shown(r, rest[0], e) == [Called(ValueComplete)];
    Silently(q, rest, r, rest, [Called(ValueComplete)], next, rest);
  }

  // What the parser accepts at this point: neither a second length nor both framing headers
  predicate Allowed(c: Core, header: HeaderState) {
    && !Refuses(c.framing.flags, header)
    && (header.LengthHeader? ==> !c.framing.flags.contentLength && c.contentLength == 0)
  }

  lemma NamedIs(p: Parser, header: HeaderState)
    requires AtField(p) && Sane(p.core) && Allowed(p.core, header)
    requires !header.KeepAliveSeen? && !header.CloseSeen? && !header.UpgradeSeen? && !header.ChunkedSeen?
    ensures Named(p, header) == Parser(Goto(p.core.(header := header), Value(DiscardWs)), None)
    ensures AtValue(Named(p, header))
  {
  }

  lemma HeaderKinds(name: seq<byte>)
    ensures var header := HeaderOf(name);
      !header.KeepAliveSeen? && !header.CloseSeen? && !header.UpgradeSeen? && !header.ChunkedSeen?
  {
  }

  // The value of a header and its line end
  lemma ValueLine(p: Parser, value: seq<byte>, end: seq<byte>, rest: seq<byte>) returns (q: Parser)
    requires AtValue(p) && ValueOk(p.core.header, value) && LineEnd(end) && !Continues(rest)
    ensures Reaches(p, value + (end + rest), SpanData(Some(ValueSpan), value) + [Called(ValueComplete)], q, rest)
    ensures q.core.state == Field(FieldStart) && q.span == None && IsNoted(p.core, q.core, p.core.header, value)
  {
    hide Reaches, SpanData, NoteElement, LengthIs, ListFlags, EndsChunked, ValueOk;
    if value == [] {
      q := Parser(Goto(p.core, Field(FieldStart)), None);
      assert value + (end + rest) == end + rest;
      NothingShown(p);
      NoLength(p.core.header, value);
      NoValue(p, end, rest);
    } else {
      var c := ValueRead(p, value, end + rest);
      q := NextLine(c);
      IndexStays(c);
      var p' := ValueEnded(c);
      SameLine(c, Value(ValueEnd));
      ValueShuts(p', end, rest);
      var line := end + rest;
      Chain(p, value + line, SpanData(Some(ValueSpan), value), p', line, [Called(ValueComplete)], q, rest);
    }
  }

  lemma IndexStays(c: Core)
    ensures NoteElement(c).index == c.index
  {
  }

  lemma NothingShown(p: Parser)
    ensures SpanData(Some(ValueSpan), []) + [Called(ValueComplete)] == [Called(ValueComplete)]
  {
  }

  lemma NoLength(header: HeaderState, value: seq<byte>)
    requires ValueOk(header, value) && value == []
    ensures !header.LengthHeader? && !header.EncodingHeader?
  {
  }

  // A header field: its name and its value are handed out, and what it says is noted.
  lemma HeaderReads(p: Parser, h: Header, rest: seq<byte>) returns (q: Parser)
    requires AtField(p) && Sane(p.core) && HeaderOk(h) && Allowed(p.core, HeaderOf(h.name)) && !Continues(rest)
    ensures Reaches(p, HeaderText(h) + rest, HeaderTrace(h), q, rest)
    ensures AtField(q) && IsNoted(p.core, q.core, HeaderOf(h.name), h.value)
  {
    hide Reaches, SpanData, HeaderOf, Named, ValueOk, IsNoted, Sane, Tokens, Blanks, LineEnd;
    var header := HeaderOf(h.name);
    HeaderKinds(h.name);
    NamedIs(p, header);
    var line := h.value + (h.end + rest);
    assert HeaderText(h) + rest == h.name + ([':' as int] + (h.blanks + line));
    var v := Named(p, header);
    NameRecognised(p, h.name, h.blanks + line);
    SkipBlanks(v, h.blanks, line);
    q := ValueLine(v, h.value, h.end, rest);
    NotedSame(p.core, q.core, header, h.value);
    var shown := SpanData(Some(ValueSpan), h.value) + [Called(ValueComplete)];
    Silently(v, h.blanks + line, v, line, shown, q, rest);
    Chain(p, HeaderText(h) + rest, SpanData(Some(NameSpan), h.name) + [Called(NameComplete)], v, h.blanks + line,
          shown, q, rest);
  }

  lemma NotedSame(c: Core, c': Core, header: HeaderState, value: seq<byte>)
    requires c.index == 0 && IsNoted(Goto(c.(header := header), Value(DiscardWs)), c', header, value)
    ensures IsNoted(c, c', header, value) && c'.index == 0
  {
    hide LengthIs, ListFlags, EndsChunked;
  }

  // ---- All header fields -------------------------------------------------------------------

  predicate Says(h: Header, header: HeaderState) {
    HeaderOf(h.name) == header && h.value != []
  }

  predicate SaysOption(h: Header, word: string) {
    HeaderOf(h.name) == ConnectionHeader && HasOption(h.value, word)
  }

  predicate Any(hs: seq<Header>, header: HeaderState) {
    exists h :: h in hs && Says(h, header)
  }

  predicate AnyOption(hs: seq<Header>, word: string) {
    exists h :: h in hs && SaysOption(h, word)
  }

  // At most one length, and not together with chunks
  predicate Consistent(hs: seq<Header>) {
    && (forall i, j :: 0 <= i < j < |hs| ==> !(Says(hs[i], LengthHeader) && Says(hs[j], LengthHeader)))
    && !(Any(hs, LengthHeader) && Any(hs, EncodingHeader))
  }

  predicate AllHeadersOk(hs: seq<Header>) {
    forall h :: h in hs ==> HeaderOk(h)
  }

  // The last Transfer-Encoding ends with chunked.
  predicate LastChunked(hs: seq<Header>) {
    hs != []
    && var last := hs[|hs| - 1];
       if Says(last, EncodingHeader) then EndsChunked(last.value) else LastChunked(hs[..|hs| - 1])
  }

  function FlagsOf(hs: seq<Header>): Flags {
    Flags(AnyOption(hs, KEEP_ALIVE), AnyOption(hs, CLOSE), AnyOption(hs, UPGRADE), LastChunked(hs),
          Any(hs, UpgradeHeader), Any(hs, LengthHeader), false, false, Any(hs, EncodingHeader))
  }

  // The parser has noted exactly what the headers say.
  ghost predicate HeadIs(c: Core, hs: seq<Header>) {
    && c.framing.flags == FlagsOf(hs)
    && (forall h :: h in hs && Says(h, LengthHeader) ==> c.contentLength == LengthIs(h.value))
    && (!Any(hs, LengthHeader) ==> c.contentLength == 0)
  }

  lemma LastMore(hs: seq<Header>, h: Header)
    ensures LastChunked(hs + [h]) <==> if Says(h, EncodingHeader) then EndsChunked(h.value) else LastChunked(hs)
  {
    hide Says, EndsChunked;
    assert (hs + [h])[..|hs|] == hs;
  }

  lemma AnyMore(hs: seq<Header>, h: Header)
    ensures forall header :: Any(hs + [h], header) <==> Any(hs, header) || Says(h, header)
    ensures forall word :: AnyOption(hs + [h], word) <==> AnyOption(hs, word) || SaysOption(h, word)
  {
    hide Says, SaysOption;
    forall header ensures Any(hs + [h], header) <==> Any(hs, header) || Says(h, header) {
      assert h in hs + [h];
      if Any(hs, header) {
        var x :| x in hs && Says(x, header);
        assert x in hs + [h];
      }
    }
    forall word ensures AnyOption(hs + [h], word) <==> AnyOption(hs, word) || SaysOption(h, word) {
      assert h in hs + [h];
      if AnyOption(hs, word) {
        var x :| x in hs && SaysOption(x, word);
        assert x in hs + [h];
      }
    }
  }

  // An empty value has no options.
  lemma NoOptions(word: string)
    requires word != ""
    ensures !HasOption([], word)
  {
    assert Elements([]) == [[]] && TrimLeft([]) == [];
  }

  // What a header adds to the flags
  predicate Adds(flags: Flags, f: Flags, h: Header) {
    && f.keepAlive == (flags.keepAlive || SaysOption(h, KEEP_ALIVE))
    && f.close == (flags.close || SaysOption(h, CLOSE))
    && f.connUpgrade == (flags.connUpgrade || SaysOption(h, UPGRADE))
    && f.chunked == (if Says(h, EncodingHeader) then EndsChunked(h.value) else flags.chunked)
    && f.upgrade == (flags.upgrade || Says(h, UpgradeHeader))
    && f.contentLength == (flags.contentLength || Says(h, LengthHeader))
    && f.transferEncoding == (flags.transferEncoding || Says(h, EncodingHeader))
    && f.skipBody == flags.skipBody && f.trailing == flags.trailing
  }

  lemma AddsOptions(flags: Flags, h: Header)
    requires HeaderOf(h.name) == ConnectionHeader
    ensures Adds(flags, FlagsAfter(flags, HeaderOf(h.name), h.value), h)
  {
    hide HeaderOf, HasOption, EndsChunked;
    if h.value == [] {
      NoOptions(CLOSE);
      NoOptions(KEEP_ALIVE);
      NoOptions(UPGRADE);
    }
  }

  lemma AddsFlag(flags: Flags, h: Header)
    requires HeaderOf(h.name) != ConnectionHeader
    ensures Adds(flags, FlagsAfter(flags, HeaderOf(h.name), h.value), h)
  {
    hide HeaderOf, HasOption, EndsChunked, ListFlags;
  }

  lemma FlagsGrow(c: Core, c': Core, hs: seq<Header>, h: Header)
    requires c.framing.flags == FlagsOf(hs) && IsNoted(c, c', HeaderOf(h.name), h.value)
    ensures c'.framing.flags == FlagsOf(hs + [h])
  {
    hide HeaderOf, Says, SaysOption, Any, AnyOption, EndsChunked, LastChunked, LengthAfter, FlagsAfter;
    if HeaderOf(h.name) == ConnectionHeader {
      AddsOptions(c.framing.flags, h);
    } else {
      AddsFlag(c.framing.flags, h);
    }
    AnyMore(hs, h);
    LastMore(hs, h);
  }

  lemma LengthGrows(c: Core, c': Core, h: Header)
    requires IsNoted(c, c', HeaderOf(h.name), h.value) && HeaderOk(h)
    ensures Says(h, LengthHeader) ==> c'.contentLength == LengthIs(h.value)
    ensures !Says(h, LengthHeader) ==> c'.contentLength == c.contentLength
    ensures c.contentLength <= MAX_LENGTH ==> c'.contentLength <= MAX_LENGTH
  {
    hide HeaderOf, LengthIs, FlagsAfter, Tokens, Blanks, PlainText, LineEnd, DigitsOf;
  }

  lemma HeadGrows(c: Core, c': Core, hs: seq<Header>, h: Header)
    requires HeadIs(c, hs) && HeaderOk(h) && Consistent(hs + [h]) && IsNoted(c, c', HeaderOf(h.name), h.value)
    ensures HeadIs(c', hs + [h])
  {
    hide HeaderOf, HeaderOk, IsNoted, Says, LengthIs, Any, FlagsOf, Consistent;
    AnyMore(hs, h);
    FlagsGrow(c, c', hs, h);
    LengthGrows(c, c', h);
    OnlyLength(hs, h);
    forall x | x in hs + [h] && Says(x, LengthHeader) ensures c'.contentLength == LengthIs(x.value) {
      if x in hs {
        ThenAny(hs, x, LengthHeader);
      }
    }
  }

  lemma ThenAny(hs: seq<Header>, x: Header, header: HeaderState)
    requires x in hs && Says(x, header)
    ensures Any(hs, header)
  {
  }

  lemma OnlyLength(hs: seq<Header>, h: Header)
    requires Consistent(hs + [h])
    ensures Says(h, LengthHeader) ==> !Any(hs, LengthHeader) && !Any(hs, EncodingHeader)
    ensures Says(h, EncodingHeader) ==> !Any(hs, LengthHeader)
  {
    hide Says;
    AnyMore(hs, h);
    var all := hs + [h];
    if x :| x in hs && Says(x, LengthHeader) {
      var i :| 0 <= i < |hs| && hs[i] == x;
      assert all[i] == x && all[|hs|] == h;
    }
  }

  function HeadersText(hs: seq<Header>): seq<byte> {
    if hs == [] then [] else HeaderText(hs[0]) + HeadersText(hs[1..])
  }

  function HeadersTrace(hs: seq<Header>): seq<Out> {
    if hs == [] then [] else HeaderTrace(hs[0]) + HeadersTrace(hs[1..])
  }

  // What follows a line of the head does not begin with white space.
  lemma NotContinued(hs: seq<Header>, rest: seq<byte>)
    requires AllHeadersOk(hs) && !Continues(rest)
    ensures !Continues(HeadersText(hs) + rest)
  {
    hide HeaderOf, ValueOk, Blanks, LineEnd;
    if hs != [] {
      var h := hs[0];
      assert h in hs && TokenChar(h.name[0]);
      assert (HeadersText(hs) + rest)[0] == h.name[0];
    }
  }

  lemma NowAllowed(c: Core, hs: seq<Header>, h: Header)
    requires HeadIs(c, hs) && Consistent(hs + [h]) && HeaderOk(h)
    ensures Allowed(c, HeaderOf(h.name))
  {
    hide HeaderOf, LengthIs, Any, FlagsOf, Consistent, Tokens, Blanks, LineEnd, ValueOk;
    OnlyLength(hs, h);
    assert c.framing.flags == FlagsOf(hs);
    FlagsSay(hs);
    if h.value == [] {
      NoLength(HeaderOf(h.name), h.value);
    }
  }

  lemma FlagsSay(hs: seq<Header>)
    ensures FlagsOf(hs).contentLength == Any(hs, LengthHeader)
    ensures FlagsOf(hs).transferEncoding == Any(hs, EncodingHeader)
  {
    hide Any, AnyOption, LastChunked;
  }

  // Only what the headers change differs.
  predicate SameBut(c: Core, c': Core) {
    c' == c.(framing := c.framing.(flags := c'.framing.flags), header := c'.header, contentLength := c'.contentLength)
  }

  lemma {:induction false} HeadersRead(p: Parser, done: seq<Header>, hs: seq<Header>, rest: seq<byte>)
    returns (q: Parser)
    requires AtField(p) && Sane(p.core) && HeadIs(p.core, done)
    requires AllHeadersOk(hs) && Consistent(done + hs) && !Continues(rest)
    ensures Reaches(p, HeadersText(hs) + rest, HeadersTrace(hs), q, rest)
    ensures AtField(q) && Sane(q.core) && HeadIs(q.core, done + hs) && SameBut(p.core, q.core)
    decreases |hs|
  {
    hide Reaches, HeadIs, HeaderOk, Consistent, HeaderText, HeaderTrace, Sane, Allowed, IsNoted, HeaderOf, SpanData;
    if hs == [] {
      q := p;
      assert HeadersText(hs) + rest == rest && done + hs == done;
      Stays(p, rest);
    } else {
      var h, more := hs[0], hs[1..];
      var data := HeadersText(more) + rest;
      assert done + hs == done + [h] + more && HeadersText(hs) + rest == HeaderText(h) + data;
      assert h in hs;
      ConsistentPrefix(done + [h], more);
      NotContinued(more, rest);
      NowAllowed(p.core, done, h);
      var p' := HeaderReads(p, h, data);
      NextField(p, p', done, h);
      q := HeadersRead(p', done + [h], more, rest);
      Chain(p, HeadersText(hs) + rest, HeaderTrace(h), p', data, HeadersTrace(more), q, rest);
    }
  }

  lemma ConsistentPrefix(hs: seq<Header>, more: seq<Header>)
    requires Consistent(hs + more)
    ensures Consistent(hs)
  {
    hide Says;
    var all := hs + more;
    assert forall i :: 0 <= i < |hs| ==> all[i] == hs[i];
    assert forall h :: h in hs ==> h in all;
    assert forall header :: Any(hs, header) ==> Any(all, header);
  }

  lemma NextField(p: Parser, q: Parser, hs: seq<Header>, h: Header)
    requires Sane(p.core) && HeadIs(p.core, hs) && HeaderOk(h) && Consistent(hs + [h])
    requires AtField(q) && AtField(p) && IsNoted(p.core, q.core, HeaderOf(h.name), h.value)
    ensures Sane(q.core) && HeadIs(q.core, hs + [h]) && SameBut(p.core, q.core)
  {
    hide HeadIs, Consistent, HeaderOf, FlagsAfter, LengthAfter, HeaderOk;
    LengthGrows(p.core, q.core, h);
    HeadGrows(p.core, q.core, hs, h);
  }

  // ---- Heads that are refused --------------------------------------------------------------

  // A second length (4), a length with chunks (11), and chunks with a length (15)
  predicate Refused(error: nat) {
    error == 4 || error == 11 || error == 15
  }

  lemma FirstConflict(done: seq<Header>, h: Header)
    requires Consistent(done) && !Consistent(done + [h])
    ensures (Says(h, LengthHeader) && (Any(done, LengthHeader) || Any(done, EncodingHeader)))
         || (Says(h, EncodingHeader) && Any(done, LengthHeader))
  {
    hide Says, Any;
    AnyMore(done, h);
    OneKind(h);
    var all := done + [h];
    assert all[|done|] == h;
    if !Says(h, LengthHeader) {
      forall i, j | 0 <= i < j < |all| ensures !(Says(all[i], LengthHeader) && Says(all[j], LengthHeader)) {
        if j < |done| {
          assert all[i] == done[i] && all[j] == done[j];
        }
      }
    } else if !Any(done, LengthHeader) {
      forall i, j | 0 <= i < j < |all| ensures !(Says(all[i], LengthHeader) && Says(all[j], LengthHeader)) {
        assert all[i] == done[i];
        NotAny(done, done[i], LengthHeader);
        assert !Says(all[i], LengthHeader);
      }
    }
  }

  lemma OneKind(h: Header)
    ensures !(Says(h, LengthHeader) && Says(h, EncodingHeader))
  {
  }

  lemma NotAny(hs: seq<Header>, h: Header, header: HeaderState)
    requires h in hs && !Any(hs, header)
    ensures !Says(h, header)
  {
  }

  // After the error nothing else is read.
  lemma EndsFailed(p: Parser, data: seq<byte>, outs: seq<Out>, q: Parser, rest: seq<byte>)
    requires Reaches(p, data, outs, q, rest) && Ok(q) && q.core.error != 0
    ensures Parsed(p, data).0 == q
  {
    hide Parsed, Ok;
    FailedStays(q, rest);
  }

  // A second Content-Length is an error where its value begins.
  lemma LengthTwice(p: Parser, data: seq<byte>)
    requires p.core.state == Value(DiscardWs) && p.span == None && p.core.index == 0 && Sane(p.core)
    requires p.core.header.LengthHeader? && p.core.framing.flags.contentLength
    requires data != [] && !Blank(data[0]) && data[0] != LF && data[0] != CR
    ensures Parsed(p, data).0.core.error == 4
  {
    hide Look, Reaches, Parsed;
    var q := p.(core := Goto(p.core, Value(ValueStart)));
    EdgeLook(p.core, data[0]);
    Passes(p, data, q.core);
    EdgeLook(q.core, data[0]);
    var e := Effect(Fail(q.core, 4), Some(ValueSpan), false, [], false, false, []);
    assert Look(q.core, data[0]) == e;
    Looks(q, data, e);
    assert Shown(q, data[0], e) == [];
    Silently(p, data, q, data, [], After(q, e), data);
    EndsFailed(p, data, [], After(q, e), data);
  }

  lemma HeaderRefused(p: Parser, done: seq<Header>, h: Header, rest: seq<byte>)
    requires AtField(p) && Sane(p.core) && HeadIs(p.core, done) && HeaderOk(h)
    requires Consistent(done) && !Consistent(done + [h])
    ensures Refused(Parsed(p, HeaderText(h) + rest).0.core.error)
  {
    hide Reaches, SpanData, Named, Parsed, HeadIs, Consistent, Any, HeaderOf, Decimal, DecimalAfter, Is, Tokens, Blanks,
      LineEnd, Ok;
    FirstConflict(done, h);
    var header := HeaderOf(h.name);
    var text := h.blanks + (h.value + (h.end + rest));
    var data, q := h.name + ([':' as int] + text), Named(p, header);
    assert HeaderText(h) + rest == data;
    NameRecognised(p, h.name, text);
    NamedConflict(p, header, done);
    if q.core.error != 0 {
      EndsFailed(p, data, SpanData(Some(NameSpan), h.name) + [Called(NameComplete)], q, text);
    } else {
      SkipBlanks(q, h.blanks, h.value + (h.end + rest));
      ValueStarts(header, h.value);
      var value := h.value + (h.end + rest);
      assert value[0] == h.value[0];
      LengthTwice(q, value);
      SameEnd(p, data, SpanData(Some(NameSpan), h.name) + [Called(NameComplete)], q, text);
      SameEnd(q, text, [], q, value);
    }
  }

  lemma SameEnd(p: Parser, data: seq<byte>, outs: seq<Out>, q: Parser, rest: seq<byte>)
    requires Reaches(p, data, outs, q, rest)
    ensures Parsed(p, data).0 == Parsed(q, rest).0
  {
  }

  lemma NamedConflict(p: Parser, header: HeaderState, done: seq<Header>)
    requires AtField(p) && Sane(p.core) && HeadIs(p.core, done)
    requires (header.LengthHeader? && (Any(done, LengthHeader) || Any(done, EncodingHeader)))
          || (header.EncodingHeader? && Any(done, LengthHeader))
    ensures var q := Named(p, header);
      && Ok(q) && (q.core.error != 0 ==> Refused(q.core.error))
      && (q.core.error == 0 ==>
            && q.core.state == Value(DiscardWs) && q.span == None && q.core.index == 0 && Sane(q.core)
            && q.core.header.LengthHeader? && q.core.framing.flags.contentLength)
  {
    hide Any, AnyOption, Decimal, DecimalAfter, Says;
  }

  lemma {:induction false} HeadersRefused(p: Parser, done: seq<Header>, hs: seq<Header>, rest: seq<byte>)
    requires AtField(p) && Sane(p.core) && HeadIs(p.core, done)
    requires AllHeadersOk(hs) && Consistent(done) && !Consistent(done + hs) && !Continues(rest)
    ensures Refused(Parsed(p, HeadersText(hs) + rest).0.core.error)
    decreases |hs|
  {
    hide Reaches, HeadIs, HeaderOk, Consistent, HeaderText, HeaderTrace, Sane, Allowed, IsNoted, HeaderOf, SpanData,
      Parsed, Refused;
    assert hs != [] by { assert done + [] == done; }
    var h, more := hs[0], hs[1..];
    var data := HeadersText(more) + rest;
    assert done + hs == done + [h] + more && HeadersText(hs) + rest == HeaderText(h) + data;
    assert h in hs;
    if !Consistent(done + [h]) {
      HeaderRefused(p, done, h, data);
    } else {
      NotContinued(more, rest);
      NowAllowed(p.core, done, h);
      var p' := HeaderReads(p, h, data);
      NextField(p, p', done, h);
      HeadersRefused(p', done + [h], more, rest);
      SameEnd(p, HeadersText(hs) + rest, HeaderTrace(h), p', data);
    }
  }
}
