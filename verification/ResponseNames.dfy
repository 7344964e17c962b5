/**
 The names of header fields.  The parser compares a name with those of the framing headers byte by byte,
 while it reads it; after the colon it knows exactly whether it was one of them, in any letter case.
 */
module ResponseNames {
  import opened Basics
  import opened FramingRules
  import opened ResponseStates
  import opened ResponseFold
  import opened ResponseBodies

  // ---- From one situation to the next ------------------------------------------------------

  // The parser p, given data, comes to be the parser q with the rest, and has shown outs on the way.
  ghost predicate Reaches(p: Parser, data: seq<byte>, outs: seq<Out>, q: Parser, rest: seq<byte>) {
    Parsed(p, data) == (Parsed(q, rest).0, outs + Parsed(q, rest).1)
  }

  lemma Chain(p: Parser, data: seq<byte>, outs: seq<Out>, q: Parser, rest: seq<byte>, more: seq<Out>, r: Parser,
              end: seq<byte>)
    requires Reaches(p, data, outs, q, rest) && Reaches(q, rest, more, r, end)
    ensures Reaches(p, data, outs + more, r, end)
  {
    hide Parsed;
    assert outs + (more + Parsed(r, end).1) == outs + more + Parsed(r, end).1;
  }

  // Without a callback in between
  lemma Silently(p: Parser, data: seq<byte>, q: Parser, rest: seq<byte>, outs: seq<Out>, r: Parser, end: seq<byte>)
    requires Reaches(p, data, [], q, rest) && Reaches(q, rest, outs, r, end)
    ensures Reaches(p, data, outs, r, end)
  {
    hide Reaches;
    Chain(p, data, [], q, rest, outs, r, end);
    assert [] + outs == outs;
  }

  lemma Looks(p: Parser, data: seq<byte>, e: Effect)
    requires data != [] && Look(p.core, data[0]) == e
    ensures Reaches(p, data, Shown(p, data[0], e), After(p, e), if e.consumed then data[1..] else data)
  {
    hide Look, Parsed, Shown, After;
    ParsedLook(p, data);
  }

  lemma Passes(p: Parser, data: seq<byte>, c: Core)
    requires data != [] && Look(p.core, data[0]) == PassAfter(c, []) && !c.state.Failed?
    ensures Reaches(p, data, [], p.(core := c), data)
  {
    hide Look, Reaches;
    Looks(p, data, PassAfter(c, []));
    assert Shown(p, data[0], PassAfter(c, [])) == [];
  }

  lemma Opens(p: Parser, data: seq<byte>, span: Span, c: Core)
    requires data != [] && Look(p.core, data[0]) == Effect(c, Some(span), false, [], false, false, [])
    requires !c.state.Failed?
    ensures Reaches(p, data, [], Parser(c, Some(span)), data)
  {
    hide Look, Reaches;
    var e := Effect(c, Some(span), false, [], false, false, []);
    Looks(p, data, e);
    assert Shown(p, data[0], e) == [];
  }

  lemma Takes(p: Parser, data: seq<byte>, c: Core)
    requires data != [] && Look(p.core, data[0]) == TakeThen(c, []) && !c.state.Failed?
    ensures Reaches(p, data, Consumed(p.span, data[0]), p.(core := c), data[1..])
  {
    hide Look, Reaches;
    Looks(p, data, TakeThen(c, []));
    ShownOnly(p, data[0], c);
  }

  // A byte that ends a span and is not part of it
  lemma ShutsBefore(p: Parser, data: seq<byte>, c: Core, calls: seq<Call>)
    requires data != [] && Look(p.core, data[0]) == ShutTake(c, calls)
    ensures Reaches(p, data, Calls(calls), Parser(c, None), data[1..])
  {
    hide Look, Reaches;
    Looks(p, data, ShutTake(c, calls));
    assert Shown(p, data[0], ShutTake(c, calls)) == Calls(calls);
  }

  // The last byte of a span
  lemma ShutsAfter(p: Parser, data: seq<byte>, c: Core, calls: seq<Call>)
    requires data != [] && Look(p.core, data[0]) == TakeShut(c, calls)
    ensures Reaches(p, data, Consumed(p.span, data[0]) + Calls(calls), Parser(c, None), data[1..])
  {
    hide Look, Reaches;
    Looks(p, data, TakeShut(c, calls));
    assert Shown(p, data[0], TakeShut(c, calls)) == Consumed(p.span, data[0]) + Calls(calls);
  }

  // ---- Words in any letter case ------------------------------------------------------------

  predicate Starts(text: seq<byte>, word: string) {
    |text| <= |word| && forall i :: 0 <= i < |text| ==> ToLower(text[i]) == word[i] as int
  }

  predicate Is(text: seq<byte>, word: string) {
    Starts(text, word) && |text| == |word|
  }

  const CONNECTION := "connection"
  const CONTENT_LENGTH := "content-length"
  const PROXY_CONNECTION := "proxy-connection"
  const TRANSFER_ENCODING := "transfer-encoding"
  const UPGRADE := "upgrade"

  // What a header is for, by its name
  function HeaderOf(name: seq<byte>): HeaderState {
    if Is(name, CONNECTION) || Is(name, PROXY_CONNECTION) then ConnectionHeader
    else if Is(name, CONTENT_LENGTH) then LengthHeader
    else if Is(name, TRANSFER_ENCODING) then EncodingHeader
    else if Is(name, UPGRADE) then UpgradeHeader
    else GeneralHeader
  }

  predicate Foreign(text: seq<byte>) {
    && !Starts(text, CONNECTION) && !Starts(text, CONTENT_LENGTH) && !Starts(text, PROXY_CONNECTION)
    && !Starts(text, TRANSFER_ENCODING) && !Starts(text, UPGRADE)
  }

  // ---- While a name is read ----------------------------------------------------------------

  predicate Comparing(field: FieldState) {
    field.Co? || field.Con? || field.Connection? || field.ContentLength? || field.ProxyConnection?
    || field.TransferEncoding? || field.Upgrade?
  }

  // The name that may still come, and how much of it has been read when the state is entered
  function WordOf(field: FieldState): string {
    match field
    case Co => "con"
    case Con => "con"
    case Connection => CONNECTION
    case ContentLength => CONTENT_LENGTH
    case ProxyConnection => PROXY_CONNECTION
    case TransferEncoding => TRANSFER_ENCODING
    case _ => UPGRADE
  }

  function OffsetOf(field: FieldState): nat {
    match field
    case Con => 3
    case Connection => 4
    case ContentLength => 4
    case _ => 1
  }

  lemma PatternIs(field: FieldState)
    requires Matching(Field(field))
    ensures Pattern(Field(field)) == (Lower, WordOf(field)[OffsetOf(field)..]) && OffsetOf(field) < |WordOf(field)|
  {
  }

  // What the state says of the bytes of the name that have been read
  predicate Reading(c: Core, read: seq<byte>) {
    && c.state.Field?
    && match c.state.field
       case Name => c.index == 0 && read == []
       case Colon => c.index == 0 && c.header == HeaderOf(read) != GeneralHeader
       case General => c.index == 0 && c.header == GeneralHeader && Foreign(read)
       case field =>
         && Comparing(field) && Starts(read, WordOf(field)) && |read| == OffsetOf(field) + c.index
         && (field.Con? ==> c.index == 0) && (!field.Con? ==> |read| < |WordOf(field)|)
  }

  // Only the fields that follow the name have changed.
  predicate SameHead(c: Core, c': Core) {
    c' == c.(state := c'.state, index := c'.index, header := c'.header)
  }

  // ---- One more byte of a name -------------------------------------------------------------

  lemma NameLook(c: Core, b: byte)
    requires c.state.Field? && InName(c.state.field) && !Matching(c.state)
    ensures Look(c, b) == NameStep(c, b)
  {
    hide NameStep, MatchStep;
  }

  lemma MatchLook(c: Core, b: byte)
    requires Matching(c.state)
    ensures Look(c, b) == MatchStep(c, b)
  {
    hide MatchStep;
  }

  // The next byte is that of a word, or the name is not that word.
  lemma MoreStarts(read: seq<byte>, b: byte, word: string)
    ensures Starts(read + [b], word)
       <==> Starts(read, word) && |read| < |word| && ToLower(b) == word[|read|] as int
  {
    hide ToLower;
    var more := read + [b];
    assert forall i :: 0 <= i < |read| ==> more[i] == read[i];
    if Starts(more, word) {
      assert more[|read|] == b;
    }
  }

  lemma MoreForeign(read: seq<byte>, b: byte)
    requires Foreign(read)
    ensures Foreign(read + [b])
  {
    hide Starts;
    MoreStarts(read, b, CONNECTION);
    MoreStarts(read, b, CONTENT_LENGTH);
    MoreStarts(read, b, PROXY_CONNECTION);
    MoreStarts(read, b, TRANSFER_ENCODING);
    MoreStarts(read, b, UPGRADE);
  }

  lemma GeneralByte(p: Parser, read: seq<byte>, b: byte, rest: seq<byte>)
    requires Reading(p.core, read) && p.core.state.field.General? && TokenChar(b)
    ensures Reaches(p, [b] + rest, Consumed(p.span, b), p, rest) && Reading(p.core, read + [b])
  {
    hide Look, Reaches, TokenChar, Foreign;
    MoreForeign(read, b);
    NameLook(p.core, b);
    assert Look(p.core, b) == Take(p.core, Field(General));
    Takes(p, [b] + rest, p.core);
    assert ([b] + rest)[1..] == rest;
  }

  // The name is none of the known ones, after all.
  lemma Strange(p: Parser, c: Core, read: seq<byte>, b: byte, rest: seq<byte>) returns (q: Parser)
    requires TokenChar(b) && Foreign(read + [b])
    requires c == p.core.(index := c.index, header := GeneralHeader) && c.index == 0
    requires Look(p.core, b) == Pass(c, Field(General))
    ensures Reaches(p, [b] + rest, Consumed(p.span, b), q, rest) && q.span == p.span
    ensures Reading(q.core, read + [b]) && SameHead(p.core, q.core)
  {
    hide Look, Reaches, TokenChar, Foreign;
    q := p.(core := Goto(c, Field(General)));
    Passes(p, [b] + rest, q.core);
    NameLook(q.core, b);
    assert Look(q.core, b) == Take(q.core, Field(General));
    Takes(q, [b] + rest, q.core);
    assert ([b] + rest)[1..] == rest;
    Silently(p, [b] + rest, q, [b] + rest, Consumed(p.span, b), q, rest);
  }

  // A name that departs from the word it was compared with is none of the known ones.
  lemma Departs(field: FieldState, read: seq<byte>, b: byte)
    requires Matching(Field(field)) && Starts(read, WordOf(field)) && OffsetOf(field) <= |read| < |WordOf(field)|
    requires ToLower(b) != WordOf(field)[|read|] as int
    ensures Foreign(read + [b])
  {
    hide ToLower, Starts;
    OtherWords(field, read);
    MoreStarts(read, b, CONNECTION);
    MoreStarts(read, b, CONTENT_LENGTH);
    MoreStarts(read, b, PROXY_CONNECTION);
    MoreStarts(read, b, TRANSFER_ENCODING);
    MoreStarts(read, b, UPGRADE);
  }

  // What has been compared so far fits one of the words only; before the fourth letter, it fits two.
  lemma OtherWords(field: FieldState, read: seq<byte>)
    requires Matching(Field(field)) && Starts(read, WordOf(field)) && OffsetOf(field) <= |read|
    ensures Starts(read, CONNECTION) ==> field.Co? || field.Connection?
    ensures Starts(read, CONTENT_LENGTH) ==> field.Co? || field.ContentLength?
    ensures Starts(read, PROXY_CONNECTION) ==> field.ProxyConnection?
    ensures Starts(read, TRANSFER_ENCODING) ==> field.TransferEncoding?
    ensures Starts(read, UPGRADE) ==> field.Upgrade?
  {
    hide ToLower;
    var word := WordOf(field);
    assert ToLower(read[0]) == word[0] as int;
    if field.Connection? || field.ContentLength? {
      assert ToLower(read[3]) == word[3] as int;
    }
  }

  lemma WholeWord(field: FieldState, name: seq<byte>)
    requires Matching(Field(field)) && !field.Co? && Is(name, WordOf(field))
    ensures HeaderOf(name) == if field.ContentLength? then LengthHeader
      else if field.TransferEncoding? then EncodingHeader
      else if field.Upgrade? then UpgradeHeader else ConnectionHeader
  {
    hide Starts;
    OtherWords(field, name);
  }

  lemma NotWhole(field: FieldState, name: seq<byte>)
    requires Comparing(field) && Starts(name, WordOf(field)) && OffsetOf(field) <= |name|
    requires if field.Con? then |name| == 3 else |name| < |WordOf(field)|
    ensures HeaderOf(name) == GeneralHeader
  {
    hide Starts;
    if field.Con? {
      NotThree(name);
    } else {
      OtherWords(field, name);
    }
  }

  lemma NotThree(name: seq<byte>)
    requires |name| == 3
    ensures HeaderOf(name) == GeneralHeader
  {
  }

  // Where a state that compares goes with the next byte
  lemma FitsNext(c: Core, read: seq<byte>, b: byte)
    requires Reading(c, read) && Matching(c.state)
    ensures Fits(c.state, c.index, b) <==> Starts(read + [b], WordOf(c.state.field))
    ensures c.index + 1 == |Pattern(c.state).1| <==> |read| + 1 == |WordOf(c.state.field)|
    ensures |read| < |WordOf(c.state.field)|
  {
    hide ToLower, Foreign, HeaderOf, Pattern, WordOf, OffsetOf;
    PatternIs(c.state.field);
    MoreStarts(read, b, WordOf(c.state.field));
  }

  function MatchedCore(c: Core): Core
    requires c.state.Field?
  {
    var c' := c.(index := 0);
    if c.state.field.Co? then Goto(c', Field(Con))
    else Goto(c', Field(Colon)).(header :=
      if c.state.field.ContentLength? then LengthHeader
      else if c.state.field.TransferEncoding? then EncodingHeader
      else if c.state.field.Upgrade? then UpgradeHeader else ConnectionHeader)
  }

  lemma MatchIs(c: Core, b: byte)
    requires Matching(c.state) && c.state.Field?
    ensures MatchStep(c, b)
         == if !Fits(c.state, c.index, b) then Pass(c.(index := 0, header := GeneralHeader), Field(General))
            else TakeThen(if c.index + 1 == |Pattern(c.state).1| then MatchedCore(c) else c.(index := c.index + 1), [])
  {
    hide Fits, Pattern;
  }

  lemma MatchByte(p: Parser, read: seq<byte>, b: byte, rest: seq<byte>) returns (q: Parser)
    requires Reading(p.core, read) && Matching(p.core.state) && TokenChar(b)
    ensures Reaches(p, [b] + rest, Consumed(p.span, b), q, rest) && q.span == p.span
    ensures Reading(q.core, read + [b]) && SameHead(p.core, q.core)
  {
    hide Look, Reaches, TokenChar, Foreign, HeaderOf, WordOf, OffsetOf, Pattern, Fits, Starts, MatchStep;
    var c := p.core;
    MatchLook(c, b);
    MatchIs(c, b);
    FitsNext(c, read, b);
    if !Fits(c.state, c.index, b) {
      MoreStarts(read, b, WordOf(c.state.field));
      Departs(c.state.field, read, b);
      q := Strange(p, c.(index := 0, header := GeneralHeader), read, b, rest);
    } else {
      q := p.(core := if c.index + 1 == |Pattern(c.state).1| then MatchedCore(c) else c.(index := c.index + 1));
      Takes(p, [b] + rest, q.core);
      assert ([b] + rest)[1..] == rest;
      MatchedReading(c, read, b);
    }
  }

  lemma MatchedReading(c: Core, read: seq<byte>, b: byte)
    requires Reading(c, read) && Matching(c.state) && Fits(c.state, c.index, b)
    ensures Reading(if c.index + 1 == |Pattern(c.state).1| then MatchedCore(c) else c.(index := c.index + 1),
                    read + [b])
  {
    hide Foreign, HeaderOf, Fits, Pattern, Starts;
    FitsNext(c, read, b);
    if c.index + 1 == |Pattern(c.state).1| {
      if !c.state.field.Co? {
        WholeWord(c.state.field, read + [b]);
      }
    }
  }

  // The first byte of a name
  lemma FirstByte(p: Parser, b: byte, rest: seq<byte>) returns (q: Parser)
    requires Reading(p.core, []) && p.core.state.field.Name? && TokenChar(b)
    ensures Reaches(p, [b] + rest, Consumed(p.span, b), q, rest) && q.span == p.span
    ensures Reading(q.core, [b]) && SameHead(p.core, q.core)
  {
    hide Look, Reaches, TokenChar, Foreign, Starts;
    var c, lower := p.core, ToLower(b);
    NameLook(c, b);
    FirstStarts(b);
    assert [] + [b] == [b] && ([b] + rest)[1..] == rest;
    if lower == 'c' as int || lower == 'p' as int || lower == 't' as int || lower == 'u' as int {
      q := p.(core := Look(c, b).core);
      Takes(p, [b] + rest, q.core);
    } else {
      q := Strange(p, c.(header := GeneralHeader), [], b, rest);
    }
  }

  lemma FirstStarts(b: byte)
    ensures Starts([b], "con") <==> ToLower(b) == 'c' as int
    ensures Starts([b], PROXY_CONNECTION) <==> ToLower(b) == 'p' as int
    ensures Starts([b], TRANSFER_ENCODING) <==> ToLower(b) == 't' as int
    ensures Starts([b], UPGRADE) <==> ToLower(b) == 'u' as int
    ensures ToLower(b) != 'c' as int ==> !Starts([b], CONNECTION) && !Starts([b], CONTENT_LENGTH)
    ensures (!Starts([b], "con") && !Starts([b], PROXY_CONNECTION) && !Starts([b], TRANSFER_ENCODING)
             && !Starts([b], UPGRADE)) ==> Foreign([b])
  {
    hide ToLower;
    assert [b][0] == b;
  }

  // The fourth byte of a name that begins with "con"
  lemma FourthByte(p: Parser, read: seq<byte>, b: byte, rest: seq<byte>) returns (q: Parser)
    requires Reading(p.core, read) && p.core.state.field.Con? && TokenChar(b)
    ensures Reaches(p, [b] + rest, Consumed(p.span, b), q, rest) && q.span == p.span
    ensures Reading(q.core, read + [b]) && SameHead(p.core, q.core)
  {
    hide Look, Reaches, TokenChar, Foreign, Starts;
    var c, lower := p.core, ToLower(b);
    NameLook(c, b);
    FourthStarts(read, b);
    assert ([b] + rest)[1..] == rest;
    if lower == 'n' as int || lower == 't' as int {
      q := p.(core := Look(c, b).core);
      Takes(p, [b] + rest, q.core);
    } else {
      q := Strange(p, c.(header := GeneralHeader), read, b, rest);
    }
  }

  lemma FourthStarts(read: seq<byte>, b: byte)
    requires |read| == 3 && Starts(read, "con")
    ensures Starts(read + [b], CONNECTION) <==> ToLower(b) == 'n' as int
    ensures Starts(read + [b], CONTENT_LENGTH) <==> ToLower(b) == 't' as int
    ensures ToLower(b) != 'n' as int && ToLower(b) != 't' as int ==> Foreign(read + [b])
  {
    hide ToLower;
    var more := read + [b];
    assert more[0] == read[0] && more[1] == read[1] && more[2] == read[2] && more[3] == b;
    assert ToLower(more[0]) == 'c' as int;
  }

  // A byte more than a known name
  lemma ExtraByte(p: Parser, read: seq<byte>, b: byte, rest: seq<byte>) returns (q: Parser)
    requires Reading(p.core, read) && p.core.state.field.Colon? && TokenChar(b)
    ensures Reaches(p, [b] + rest, Consumed(p.span, b), q, rest) && q.span == p.span
    ensures Reading(q.core, read + [b]) && SameHead(p.core, q.core)
  {
    hide Look, Reaches, Foreign, Starts, HeaderOf;
    NameLook(p.core, b);
    Longer(read, b);
    q := Strange(p, p.core.(header := GeneralHeader), read, b, rest);
  }

  // The state that has compared a known name
  function KnownField(name: seq<byte>): (field: FieldState)
    requires HeaderOf(name) != GeneralHeader
    ensures Matching(Field(field)) && Is(name, WordOf(field)) && OffsetOf(field) <= |name| && !field.Co?
  {
    hide Starts;
    if Is(name, CONNECTION) then Connection
    else if Is(name, PROXY_CONNECTION) then ProxyConnection
    else if Is(name, CONTENT_LENGTH) then ContentLength
    else if Is(name, TRANSFER_ENCODING) then TransferEncoding
    else Upgrade
  }

  lemma Longer(read: seq<byte>, b: byte)
    requires HeaderOf(read) != GeneralHeader
    ensures Foreign(read + [b])
  {
    hide ToLower, Starts;
    OtherWords(KnownField(read), read);
    MoreStarts(read, b, CONNECTION);
    MoreStarts(read, b, CONTENT_LENGTH);
    MoreStarts(read, b, PROXY_CONNECTION);
    MoreStarts(read, b, TRANSFER_ENCODING);
    MoreStarts(read, b, UPGRADE);
  }

  // ---- Whole names -------------------------------------------------------------------------

  predicate Tokens(name: seq<byte>) {
    forall i :: 0 <= i < |name| ==> TokenChar(name[i])
  }

  const TOKEN_MARKS := "!#$%&'*+-.^_`|~"

  // The bytes of a token are those of section 3.2.6 of RFC 7230.
  lemma TokenBytes(b: byte)
    ensures TokenChar(b)
       <==> || '0' <= b as char <= '9' || 'A' <= b as char <= 'Z' || 'a' <= b as char <= 'z'
            || b as char in TOKEN_MARKS
  {
    if b as char in TOKEN_MARKS {
      var i :| 0 <= i < |TOKEN_MARKS| && TOKEN_MARKS[i] == b as char;
    } else {
      assert forall i :: 0 <= i < |TOKEN_MARKS| ==> TOKEN_MARKS[i] != b as char;
      assert TOKEN_MARKS[0] == '!' && TOKEN_MARKS[1] == '#' && TOKEN_MARKS[2] == '$' && TOKEN_MARKS[3] == '%';
      assert TOKEN_MARKS[4] == '&' && TOKEN_MARKS[5] == '\'' && TOKEN_MARKS[6] == '*' && TOKEN_MARKS[7] == '+';
      assert TOKEN_MARKS[8] == '-' && TOKEN_MARKS[9] == '.' && TOKEN_MARKS[10] == '^' && TOKEN_MARKS[11] == '_';
      assert TOKEN_MARKS[12] == '`' && TOKEN_MARKS[13] == '|' && TOKEN_MARKS[14] == '~';
    }
  }

  lemma NameByte(p: Parser, read: seq<byte>, b: byte, rest: seq<byte>) returns (q: Parser)
    requires Reading(p.core, read) && TokenChar(b)
    ensures Reaches(p, [b] + rest, Consumed(p.span, b), q, rest) && q.span == p.span
    ensures Reading(q.core, read + [b]) && SameHead(p.core, q.core)
  {
    hide Reaches, TokenChar, Foreign, Starts, HeaderOf, WordOf, OffsetOf;
    match p.core.state.field
    case Name =>
      assert read + [b] == [b];
      q := FirstByte(p, b, rest);
    case Con => q := FourthByte(p, read, b, rest);
    case Colon => q := ExtraByte(p, read, b, rest);
    case General =>
      q := p;
      GeneralByte(p, read, b, rest);
    case _ => q := MatchByte(p, read, b, rest);
  }

  lemma {:induction false} ReadName(p: Parser, read: seq<byte>, name: seq<byte>, rest: seq<byte>) returns (q: Parser)
    requires Reading(p.core, read) && Tokens(name)
    ensures Reaches(p, name + rest, SpanData(p.span, name), q, rest) && q.span == p.span
    ensures Reading(q.core, read + name) && SameHead(p.core, q.core)
    decreases |name|
  {
    hide Reaches, Reading, TokenChar, Consumed, SpanData;
    if name == [] {
      q := p;
      assert name + rest == rest && read + name == read;
      Stays(p, rest);
    } else {
      var b, more := name[0], name[1..];
      assert name + rest == [b] + (more + rest) && read + name == read + [b] + more;
      var p' := NameByte(p, read, b, more + rest);
      q := ReadName(p', read + [b], more, rest);
      FirstData(p.span, name);
      Chain(p, name + rest, Consumed(p.span, b), p', more + rest, SpanData(p.span, more), q, rest);
    }
  }

  lemma Stays(p: Parser, data: seq<byte>)
    ensures Reaches(p, data, [], p, data) && SpanData(p.span, []) == []
  {
    hide Parsed;
    assert [] + Parsed(p, data).1 == Parsed(p, data).1;
  }

  // The parser refuses both framing headers in one response.
  predicate Refuses(flags: Flags, header: HeaderState) {
    (header.LengthHeader? && flags.transferEncoding) || (header.EncodingHeader? && flags.contentLength)
  }

  // After the colon, and however the name came to be complete
  function Named(p: Parser, header: HeaderState): Parser {
    Parser(NameDone(p.core.(index := 0, header := header)).core, None)
  }

  lemma NameShuts(p: Parser, data: seq<byte>)
    requires data != [] && p.core.index == 0 && Look(p.core, data[0]) == NameDone(p.core)
    ensures Reaches(p, data, [Called(NameComplete)], Named(p, p.core.header), data[1..])
  {
    hide Look, Reaches;
    NoCalls(NameComplete);
    ShutsBefore(p, data, NameDone(p.core).core, [NameComplete]);
    assert p.core.(index := 0, header := p.core.header) == p.core;
  }

  lemma NamedSame(p: Parser, state: State, header: HeaderState)
    ensures Named(p.(core := p.core.(state := state, index := 0, header := header)), header) == Named(p, header)
  {
  }

  lemma GeneralColon(p: Parser, rest: seq<byte>)
    requires p.core.state == Field(General) && p.core.index == 0 && p.core.header == GeneralHeader
    ensures Reaches(p, [':' as int] + rest, [Called(NameComplete)], Named(p, GeneralHeader), rest)
  {
    hide Look, Reaches, NameDone, Named;
    var q, data := p.(core := Goto(p.core, Field(GeneralEnd))), [':' as int] + rest;
    assert data[1..] == rest;
    NameLook(p.core, data[0]);
    Passes(p, data, q.core);
    NameLook(q.core, data[0]);
    NameShuts(q, data);
    NamedSame(p, Field(GeneralEnd), GeneralHeader);
    Silently(p, data, q, data, [Called(NameComplete)], Named(p, GeneralHeader), rest);
  }

  // The colon comes before the name is one of the known ones.
  lemma EarlyColon(p: Parser, rest: seq<byte>)
    requires Look(p.core, ':' as int) == Pass(p.core.(index := 0, header := GeneralHeader), Field(General))
    ensures Reaches(p, [':' as int] + rest, [Called(NameComplete)], Named(p, GeneralHeader), rest)
  {
    hide Look, Reaches, NameDone, Named;
    var q, data := p.(core := Goto(p.core.(index := 0, header := GeneralHeader), Field(General))), [':' as int] + rest;
    Passes(p, data, q.core);
    GeneralColon(q, rest);
    NamedSame(p, Field(General), GeneralHeader);
    Silently(p, data, q, data, [Called(NameComplete)], Named(p, GeneralHeader), rest);
  }

  lemma NoColon(word: string, name: seq<byte>)
    requires forall i :: 0 <= i < |word| ==> word[i] != ':'
    ensures !Starts(name + [':' as int], word)
  {
    hide Starts;
    MoreStarts(name, ':' as int, word);
  }

  // At the colon the parser knows exactly what the header is for.
  lemma NameColon(p: Parser, name: seq<byte>, rest: seq<byte>)
    requires Reading(p.core, name) && name != []
    ensures Reaches(p, [':' as int] + rest, [Called(NameComplete)], Named(p, HeaderOf(name)), rest)
  {
    hide Look, Reaches, Starts, NameDone, Named, MatchStep, Fits, Pattern;
    var c, colon := p.core, ':' as int;
    if c.state.field.Colon? {
      NameLook(c, colon);
      NameShuts(p, [colon] + rest);
      assert ([colon] + rest)[1..] == rest;
    } else if c.state.field.General? {
      ForeignIsGeneral(name);
      GeneralColon(p, rest);
    } else if c.state.field.Con? {
      NameLook(c, colon);
      NotWhole(c.state.field, name);
      EarlyColon(p, rest);
    } else {
      FitsNext(c, name, colon);
      NoColon(WordOf(c.state.field), name);
      MatchLook(c, colon);
      MatchIs(c, colon);
      NotWhole(c.state.field, name);
      EarlyColon(p, rest);
    }
  }

  lemma ForeignIsGeneral(name: seq<byte>)
    requires Foreign(name)
    ensures HeaderOf(name) == GeneralHeader
  {
    hide Starts;
  }

  // ---- The first byte of a line of the head ------------------------------------------------

  // Where a line of the head begins
  predicate AtField(p: Parser) {
    p.core.state == Field(FieldStart) && p.span == None && p.core.index == 0
  }

  lemma NameOpens(p: Parser, data: seq<byte>)
    requires AtField(p) && data != [] && TokenChar(data[0])
    ensures Reaches(p, data, [], Parser(Goto(p.core, Field(Name)), Some(NameSpan)), data)
  {
    hide Reaches;
    var q := p.(core := Goto(p.core, Field(NameStart)));
    Passes(p, data, q.core);
    Opens(q, data, NameSpan, Goto(p.core, Field(Name)));
    Silently(p, data, q, data, [], Parser(Goto(p.core, Field(Name)), Some(NameSpan)), data);
  }

  // A name and its colon: what is handed out is the name, and what the header is for depends on the name as
  // a whole.
  lemma NameRecognised(p: Parser, name: seq<byte>, rest: seq<byte>)
    requires AtField(p) && name != [] && Tokens(name)
    ensures Reaches(p, name + ([':' as int] + rest), SpanData(Some(NameSpan), name) + [Called(NameComplete)],
                    Named(p, HeaderOf(name)), rest)
  {
    hide Reaches, HeaderOf, Named, TokenChar, SpanData;
    var colon := [':' as int] + rest;
    var data := name + colon;
    assert data[0] == name[0];
    NameOpens(p, data);
    var p' := Parser(Goto(p.core, Field(Name)), Some(NameSpan));
    var q := ReadName(p', [], name, colon);
    assert [] + name == name;
    NameColon(q, name, rest);
    assert Named(q, HeaderOf(name)) == Named(p, HeaderOf(name)) by { NamedHead(p.core, q, HeaderOf(name)); }
    Chain(p', data, SpanData(Some(NameSpan), name), q, colon, [Called(NameComplete)], Named(p, HeaderOf(name)), rest);
    var shown := SpanData(Some(NameSpan), name) + [Called(NameComplete)];
    Silently(p, data, p', data, shown, Named(p, HeaderOf(name)), rest);
  }

  lemma NamedHead(c: Core, q: Parser, header: HeaderState)
    requires SameHead(Goto(c, Field(Name)), q.core)
    ensures Named(q, header) == Named(Parser(c, None), header)
  {
  }
}
