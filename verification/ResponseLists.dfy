/**
 Header values that are lists: the options of Connection and the codings of Transfer-Encoding.  The parser
 compares each element with the words it knows while it reads it; what it knows in the end is exactly which
 of them the list has.
 */
module ResponseLists {
  import opened Basics
  import opened FramingRules
  import opened ResponseStates
  import opened ResponseFold
  import opened ResponseBodies
  import opened ResponseNames
  import opened ResponseValues

  // ---- Lists -------------------------------------------------------------------------------

  const COMMA: byte := 44

  const CLOSE := "close"
  const KEEP_ALIVE := "keep-alive"
  const CHUNKED := "chunked"

  function CommaAt(value: seq<byte>): (k: nat)
    ensures k <= |value| && COMMA !in value[..k] && (k < |value| ==> value[k] == COMMA)
  {
    if value == [] || value[0] == COMMA then 0
    else
      var k := CommaAt(value[1..]);
      assert value[..k + 1] == [value[0]] + value[1..][..k];
      k + 1
  }

  // The texts between the commas
  function Elements(value: seq<byte>): (elements: seq<seq<byte>>)
    ensures elements != []
    decreases |value|
  {
    var k := CommaAt(value);
    if k == |value| then [value] else [value[..k]] + Elements(value[k + 1..])
  }

  function TrimLeft(text: seq<byte>): seq<byte> {
    if text != [] && Blank(text[0]) then TrimLeft(text[1..]) else text
  }

  predicate WordThenBlanks(text: seq<byte>, word: string) {
    |word| <= |text| && Is(text[..|word|], word) && Blanks(text[|word|..])
  }

  // A word with white space around it
  predicate IsOption(element: seq<byte>, word: string) {
    WordThenBlanks(TrimLeft(element), word)
  }

  predicate AnyIsOption(elements: seq<seq<byte>>, word: string) {
    exists element :: element in elements && IsOption(element, word)
  }

  predicate HasOption(value: seq<byte>, word: string) {
    AnyIsOption(Elements(value), word)
  }

  predicate Spaces(text: seq<byte>) {
    forall i :: 0 <= i < |text| ==> text[i] == SP
  }

  // The chunked coding, in any letter case; behind it, other than before it, a tab does not count as white
  // space.
  predicate IsChunked(element: seq<byte>) {
    ChunkedThenSpaces(TrimLeft(element))
  }

  predicate ChunkedThenSpaces(text: seq<byte>) {
    |CHUNKED| <= |text| && Is(text[..|CHUNKED|], CHUNKED) && Spaces(text[|CHUNKED|..])
  }

  // The last coding is chunked.
  predicate EndsChunked(value: seq<byte>) {
    var elements := Elements(value);
    IsChunked(elements[|elements| - 1])
  }

  // ---- A word that is compared -------------------------------------------------------------

  predicate Listed(text: seq<byte>) {
    forall i :: 0 <= i < |text| ==> ListChar(text[i])
  }

  // Behind an element
  predicate Ends(rest: seq<byte>) {
    rest != [] && (rest[0] == COMMA || rest[0] == CR || rest[0] == LF)
  }

  // The text goes on with all that is still compared.
  predicate Agrees(c: Core, text: seq<byte>)
    requires Matching(c.state) && c.index <= |Pattern(c.state).1|
  {
    var n := |Pattern(c.state).1| - c.index;
    && n <= |text|
    && forall i :: 0 <= i < n ==> Folded(Pattern(c.state).0, text[i]) == Pattern(c.state).1[c.index + i] as int
  }

  lemma NoFit(state: State, index: nat, b: byte)
    requires Matching(state) && state.Value? && (b == COMMA || b == CR || b == LF)
    ensures !Fits(state, index, b)
  {
  }

  lemma ValueMatch(c: Core)
    requires Matching(c.state) && c.state.Value?
    ensures Matched(c) == TakeThen(Matched(c).core, []) && !Matched(c).core.state.Failed?
    ensures Mismatched(c) == PassAfter(Mismatched(c).core, []) && !Mismatched(c).core.state.Failed?
  {
  }

  lemma CompareLooks(c: Core, b: byte)
    requires Matching(c.state)
    ensures Look(c, b)
         == if !Fits(c.state, c.index, b) then Mismatched(c.(index := 0))
            else if c.index + 1 == |Pattern(c.state).1| then Matched(c.(index := 0))
            else TakeThen(c.(index := c.index + 1), [])
  {
    hide Fits, Pattern, Look, Matched, Mismatched;
    MatchLook(c, b);
  }

  lemma AgreesMore(c: Core, text: seq<byte>)
    requires Matching(c.state) && c.index < |Pattern(c.state).1| && text != []
    ensures Agrees(c, text) <==> Fits(c.state, c.index, text[0]) && Agrees(c.(index := c.index + 1), text[1..])
  {
    hide Folded, Pattern, Matching;
    var pattern, n := Pattern(c.state).1, |Pattern(c.state).1| - c.index;
    if Fits(c.state, c.index, text[0]) && Agrees(c.(index := c.index + 1), text[1..]) {
      forall i | 0 <= i < n ensures Folded(Pattern(c.state).0, text[i]) == pattern[c.index + i] as int {
        if i > 0 {
          assert text[i] == text[1..][i - 1];
        }
      }
    }
    if Agrees(c, text) {
      assert text[0] == text[0 + 0];
      forall i | 0 <= i < n - 1 ensures Folded(Pattern(c.state).0, text[1..][i]) == pattern[c.index + 1 + i] as int {
        assert text[1..][i] == text[i + 1];
      }
    }
  }

  // The rest of an element is compared up to where it departs, or where the word is complete.
  lemma {:induction false} Compare(p: Parser, text: seq<byte>, rest: seq<byte>) returns (q: Parser, k: nat)
    requires Matching(p.core.state) && p.core.state.Value? && p.core.index < |Pattern(p.core.state).1| && Ends(rest)
    ensures k <= |text| && Reaches(p, text + rest, SpanData(p.span, text[..k]), q, text[k..] + rest)
    ensures if Agrees(p.core, text)
            then k == |Pattern(p.core.state).1| - p.core.index && q == p.(core := Matched(p.core.(index := 0)).core)
            else q == p.(core := Mismatched(p.core.(index := 0)).core)
    decreases |text|
  {
    hide Look, Reaches, SpanData, Pattern, Matching, Matched, Mismatched, Fits, Agrees;
    var c, data := p.core, text + rest;
    CompareLooks(c, data[0]);
    ValueMatch(c.(index := 0));
    if text == [] {
      NoFit(c.state, c.index, data[0]);
      NothingAgrees(c);
      q, k := p.(core := Mismatched(c.(index := 0)).core), 0;
      Passes(p, data, q.core);
      assert text[..0] == [] && text[0..] == text;
      Stays(p, data);
    } else {
      AgreesMore(c, text);
      assert data[0] == text[0] && data[1..] == text[1..] + rest;
      if !Fits(c.state, c.index, text[0]) {
        q, k := p.(core := Mismatched(c.(index := 0)).core), 0;
        Passes(p, data, q.core);
        assert text[..0] == [] && text[0..] == text;
        Stays(p, data);
      } else if c.index + 1 == |Pattern(c.state).1| {
        AgreesAtEnd(c.(index := c.index + 1), text[1..]);
        q, k := p.(core := Matched(c.(index := 0)).core), 1;
        Takes(p, data, q.core);
        OneShown(p.span, text);
      } else {
        var p' := p.(core := c.(index := c.index + 1));
        Takes(p, data, p'.core);
        q, k := Compare(p', text[1..], rest);
        FirstData(p.span, text[..k + 1]);
        assert text[..k + 1][1..] == text[1..][..k] && text[1..][k..] == text[k + 1..];
        var shown := SpanData(p.span, text[1..][..k]);
        Chain(p, data, Consumed(p.span, text[0]), p', data[1..], shown, q, text[k + 1..] + rest);
        k := k + 1;
      }
    }
  }

  lemma NothingAgrees(c: Core)
    requires Matching(c.state) && c.index < |Pattern(c.state).1|
    ensures !Agrees(c, [])
  {
    hide Pattern;
  }

  lemma AgreesAtEnd(c: Core, text: seq<byte>)
    requires Matching(c.state) && c.index == |Pattern(c.state).1|
    ensures Agrees(c, text)
  {
    hide Pattern;
  }

  lemma OneShown(span: Option<Span>, text: seq<byte>)
    requires text != []
    ensures SpanData(span, text[..1]) == Consumed(span, text[0])
  {
  }

  // ---- The options of Connection -----------------------------------------------------------

  // Text of no known word
  lemma {:induction false} SkipToken(p: Parser, text: seq<byte>, rest: seq<byte>)
    requires (p.core.state == Value(OptionToken) || p.core.state == Value(Coding)) && Listed(text)
    ensures Reaches(p, text + rest, SpanData(p.span, text), p, rest)
    decreases |text|
  {
    hide Look, Reaches, SpanData, ListChar;
    if text == [] {
      assert text + rest == rest;
      Stays(p, rest);
    } else {
      var data := text + rest;
      assert data[0] == text[0] && data[1..] == text[1..] + rest;
      if p.core.state == Value(OptionToken) {
        OptionLook(p.core, data[0]);
      } else {
        FramingLook(p.core, data[0]);
      }
      Takes(p, data, p.core);
      SkipToken(p, text[1..], rest);
      FirstData(p.span, text);
      Chain(p, data, Consumed(p.span, data[0]), p, data[1..], SpanData(p.span, text[1..]), p, rest);
    }
  }

  // A byte that belongs to a text of no known word
  lemma ToToken(p: Parser, text: seq<byte>, rest: seq<byte>, q: Parser)
    requires text + rest != [] && Look(p.core, (text + rest)[0]) == PassAfter(q.core, []) && q.span == p.span
    requires (q.core.state == Value(OptionToken) || q.core.state == Value(Coding)) && Listed(text)
    ensures Reaches(p, text + rest, SpanData(p.span, text), q, rest)
  {
    hide Look, Reaches, SpanData, ListChar;
    Passes(p, text + rest, q.core);
    SkipToken(q, text, rest);
    Silently(p, text + rest, q, text + rest, SpanData(p.span, text), q, rest);
  }

  lemma BlanksMore(text: seq<byte>)
    requires text != []
    ensures Blanks(text) <==> Blank(text[0]) && Blanks(text[1..])
  {
  }

  lemma ListedTail(text: seq<byte>, k: nat)
    requires Listed(text) && k <= |text|
    ensures Listed(text[k..])
  {
    hide ListChar;
  }

  lemma NotListed(b: byte)
    ensures b == COMMA || b == CR || b == LF ==> !ListChar(b)
    ensures Blank(b) ==> ListChar(b)
  {
  }

  // Behind a known option only white space may follow.
  lemma {:induction false} AfterOption(p: Parser, text: seq<byte>, rest: seq<byte>) returns (q: Parser)
    requires p.core.state == Value(OptionEnd) && Listed(text)
    ensures Reaches(p, text + rest, SpanData(p.span, text), q, rest)
    ensures q == if Blanks(text) then p else p.(core := p.core.(state := Value(OptionToken), header := GeneralHeader))
    decreases |text|
  {
    hide Look, Reaches, SpanData, ListChar;
    if text == [] {
      q := p;
      assert text + rest == rest;
      Stays(p, rest);
    } else {
      var data := text + rest;
      assert data[0] == text[0] && data[1..] == text[1..] + rest;
      NotListed(text[0]);
      BlanksMore(text);
      OptionLook(p.core, data[0]);
      if Blank(text[0]) {
        Takes(p, data, p.core);
        ListedTail(text, 1);
        q := AfterOption(p, text[1..], rest);
        FirstData(p.span, text);
        Chain(p, data, Consumed(p.span, data[0]), p, data[1..], SpanData(p.span, text[1..]), q, rest);
      } else {
        q := p.(core := p.core.(state := Value(OptionToken), header := GeneralHeader));
        ToToken(p, text, rest, q);
      }
    }
  }

  // A known option, the state in which it is compared, and what is noted of it
  datatype Known = Known(state: State, word: string, header: HeaderState)

  const KNOWN_CLOSE := Known(Value(Close), CLOSE, CloseSeen)
  const KNOWN_KEEP_ALIVE := Known(Value(KeepAlive), KEEP_ALIVE, KeepAliveSeen)
  const KNOWN_UPGRADE := Known(Value(UpgradeOption), UPGRADE, UpgradeSeen)

  predicate IsKnown(known: Known) {
    known == KNOWN_CLOSE || known == KNOWN_KEEP_ALIVE || known == KNOWN_UPGRADE
  }

  lemma KnownIs(known: Known, c: Core)
    requires IsKnown(known) && c.state == known.state
    ensures Matching(c.state) && Pattern(c.state) == (Lower, known.word[1..]) && |known.word| > 1
    ensures Matched(c).core == c.(state := Value(OptionEnd), header := known.header)
    ensures Mismatched(c).core == c.(state := Value(OptionToken))
  {
  }

  // The element is the option exactly when it goes on as the word does and has only white space behind it.
  lemma WordGoesOn(known: Known, c: Core, text: seq<byte>)
    requires IsKnown(known) && c.state == known.state && c.index == 0
    requires text != [] && ToLower(text[0]) == known.word[0] as int
    ensures Matching(c.state)
    ensures WordThenBlanks(text, known.word)
       <==> Agrees(c, text[1..]) && Blanks(text[|known.word|..])
  {
    hide ToLower, Matched, Mismatched, Blank, Pattern;
    KnownIs(known, c);
    var word := known.word;
    if |word| <= |text| {
      if Agrees(c, text[1..]) {
        forall i | 0 <= i < |word| ensures ToLower(text[..|word|][i]) == word[i] as int {
          if i > 0 {
            assert text[1..][i - 1] == text[i] && word[1..][i - 1] == word[i];
          }
        }
      }
      if Is(text[..|word|], word) {
        forall i | 0 <= i < |word| - 1 ensures ToLower(text[1..][i]) == word[1..][i] as int {
          assert text[1..][i] == text[..|word|][i + 1];
        }
      }
    }
  }

  // What the parser has seen in an element without white space before it
  predicate OptionRead(c: Core, c': Core, text: seq<byte>) {
    && c' == c.(state := c'.state, header := c'.header)
    && (WordThenBlanks(text, CLOSE) ==> c'.state == Value(OptionEnd) && c'.header == CloseSeen)
    && (WordThenBlanks(text, KEEP_ALIVE) ==> c'.state == Value(OptionEnd) && c'.header == KeepAliveSeen)
    && (WordThenBlanks(text, UPGRADE) ==> c'.state == Value(OptionEnd) && c'.header == UpgradeSeen)
    && (!WordThenBlanks(text, CLOSE) && !WordThenBlanks(text, KEEP_ALIVE) && !WordThenBlanks(text, UPGRADE) ==>
          && (c'.state == Value(OptionToken) || c'.state == Value(Options))
          && (c'.header == c.header || c'.header == GeneralHeader))
  }

  lemma OnlyOne(text: seq<byte>, known: Known)
    requires IsKnown(known) && text != [] && ToLower(text[0]) == known.word[0] as int
    ensures WordThenBlanks(text, CLOSE) ==> known == KNOWN_CLOSE
    ensures WordThenBlanks(text, KEEP_ALIVE) ==> known == KNOWN_KEEP_ALIVE
    ensures WordThenBlanks(text, UPGRADE) ==> known == KNOWN_UPGRADE
  {
    hide ToLower, Blanks;
    FirstOf(text, CLOSE);
    FirstOf(text, KEEP_ALIVE);
    FirstOf(text, UPGRADE);
  }

  lemma FirstOf(text: seq<byte>, word: string)
    requires text != [] && word != ""
    ensures WordThenBlanks(text, word) ==> ToLower(text[0]) == word[0] as int
  {
    hide ToLower, Blanks;
    if WordThenBlanks(text, word) {
      assert text[..|word|][0] == text[0];
    }
  }

  // An element that begins like a known option
  lemma MaybeKnown(p: Parser, known: Known, text: seq<byte>, rest: seq<byte>) returns (q: Parser)
    requires p.core.state == Value(Options) && p.core.index == 0 && IsKnown(known) && Ends(rest) && Listed(text)
    requires text != [] && ToLower(text[0]) == known.word[0] as int
    ensures Reaches(p, text + rest, SpanData(p.span, text), q, rest) && q.span == p.span
    ensures OptionRead(p.core, q.core, text)
  {
    hide Look, Reaches, SpanData, ListChar, ToLower, WordThenBlanks, Blanks, Pattern, Matched, Mismatched, Agrees;
    var data, c := text + rest, Goto(p.core, known.state);
    assert data[0] == text[0] && data[1..] == text[1..] + rest;
    KnownIs(known, c);
    WordGoesOn(known, c, text);
    OnlyOne(text, known);
    OptionLook(p.core, text[0]);
    KnownLetter(p.core, text[0], known);
    Takes(p, data, c);
    ListedTail(text, 1);
    var a, k := Compare(p.(core := c), text[1..], rest);
    var more := text[1..][k..];
    ListedTail(text[1..], k);
    assert more == text[k + 1..];
    if Agrees(c, text[1..]) {
      q := AfterOption(a, more, rest);
    } else {
      q := a;
      SkipToken(a, more, rest);
    }
    assert text[1..] == text[1..][..k] + more;
    SpanDataConcat(p.span, text[1..][..k], more);
    Chain(p.(core := c), data[1..], SpanData(p.span, text[1..][..k]), a, more + rest, SpanData(p.span, more), q, rest);
    FirstData(p.span, text);
    Chain(p, data, Consumed(p.span, text[0]), p.(core := c), data[1..], SpanData(p.span, text[1..]), q, rest);
  }

  lemma KnownLetter(c: Core, b: byte, known: Known)
    requires c.state == Value(Options) && IsKnown(known) && ToLower(b) == known.word[0] as int
    ensures OptionStep(c, b) == TakeThen(Goto(c, known.state), [])
  {
  }

  lemma NoWord(text: seq<byte>, b: byte, known: Known)
    requires text != [] && IsKnown(known) && ToLower(text[0]) != known.word[0] as int
    ensures !WordThenBlanks(text, known.word)
  {
    hide ToLower, Blanks;
    FirstOf(text, known.word);
  }

  // An element, from its first byte that is not white space
  lemma TextRead(p: Parser, text: seq<byte>, rest: seq<byte>) returns (q: Parser)
    requires p.core.state == Value(Options) && p.core.index == 0 && Ends(rest) && Listed(text)
    requires text != [] ==> !Blank(text[0])
    ensures Reaches(p, text + rest, SpanData(p.span, text), q, rest) && q.span == p.span
    ensures OptionRead(p.core, q.core, text)
  {
    hide Look, Reaches, SpanData, ListChar, WordThenBlanks, ToLower;
    if text == [] {
      q := p;
      assert text + rest == rest;
      Stays(p, rest);
      NothingKnown();
    } else {
      var lower := ToLower(text[0]);
      assert (text + rest)[0] == text[0];
      if lower == 'c' as int {
        q := MaybeKnown(p, KNOWN_CLOSE, text, rest);
      } else if lower == 'k' as int {
        q := MaybeKnown(p, KNOWN_KEEP_ALIVE, text, rest);
      } else if lower == 'u' as int {
        q := MaybeKnown(p, KNOWN_UPGRADE, text, rest);
      } else {
        q := p.(core := Goto(p.core, Value(OptionToken)));
        OptionLook(p.core, text[0]);
        ToToken(p, text, rest, q);
        NoWord(text, text[0], KNOWN_CLOSE);
        NoWord(text, text[0], KNOWN_KEEP_ALIVE);
        NoWord(text, text[0], KNOWN_UPGRADE);
      }
    }
  }

  lemma NothingKnown()
    ensures !WordThenBlanks([], CLOSE) && !WordThenBlanks([], KEEP_ALIVE) && !WordThenBlanks([], UPGRADE)
  {
  }

  // A whole element
  lemma {:induction false} ElementRead(p: Parser, text: seq<byte>, rest: seq<byte>) returns (q: Parser)
    requires p.core.state == Value(Options) && p.core.index == 0 && Ends(rest) && Listed(text)
    ensures Reaches(p, text + rest, SpanData(p.span, text), q, rest) && q.span == p.span
    ensures OptionRead(p.core, q.core, TrimLeft(text))
    decreases |text|
  {
    hide Look, Reaches, SpanData, ListChar, OptionRead;
    if text == [] || !Blank(text[0]) {
      q := TextRead(p, text, rest);
    } else {
      var data := text + rest;
      assert data[0] == text[0] && data[1..] == text[1..] + rest;
      OptionLook(p.core, data[0]);
      Takes(p, data, p.core);
      ListedTail(text, 1);
      q := ElementRead(p, text[1..], rest);
      FirstData(p.span, text);
      Chain(p, data, Consumed(p.span, data[0]), p, data[1..], SpanData(p.span, text[1..]), q, rest);
    }
  }

  // Between elements the option before takes effect.
  predicate Listing(c: Core) {
    c.state == Value(Options) && c.index == 0 && (c.header == ConnectionHeader || c.header == GeneralHeader)
  }

  // The flags with what a text says
  function WithOptions(flags: Flags, close: bool, keepAlive: bool, upgrade: bool): Flags {
    flags.(close := flags.close || close, keepAlive := flags.keepAlive || keepAlive,
           connUpgrade := flags.connUpgrade || upgrade)
  }

  function ElementFlags(flags: Flags, element: seq<byte>): Flags {
    WithOptions(flags, IsOption(element, CLOSE), IsOption(element, KEEP_ALIVE), IsOption(element, UPGRADE))
  }

  function ListFlags(flags: Flags, value: seq<byte>): Flags {
    WithOptions(flags, HasOption(value, CLOSE), HasOption(value, KEEP_ALIVE), HasOption(value, UPGRADE))
  }

  lemma Distinct(text: seq<byte>)
    ensures WordThenBlanks(text, CLOSE) ==> !WordThenBlanks(text, KEEP_ALIVE) && !WordThenBlanks(text, UPGRADE)
    ensures WordThenBlanks(text, KEEP_ALIVE) ==> !WordThenBlanks(text, UPGRADE)
  {
    hide ToLower, Blanks, WordThenBlanks;
    if text != [] {
      FirstOf(text, CLOSE);
      FirstOf(text, KEEP_ALIVE);
      FirstOf(text, UPGRADE);
    } else {
      NothingKnown();
    }
  }

  lemma ElementNoted(c: Core, c': Core, element: seq<byte>)
    requires Listing(c) && OptionRead(c, c', TrimLeft(element))
    ensures NoteElement(c').framing == c.framing.(flags := ElementFlags(c.framing.flags, element))
    ensures NoteElement(c')
         == c.(framing := NoteElement(c').framing, state := c'.state, header := NoteElement(c').header)
    ensures NoteElement(c').header == ConnectionHeader || NoteElement(c').header == GeneralHeader
  {
    hide WordThenBlanks, TrimLeft;
    Distinct(TrimLeft(element));
  }

  // The comma after an element
  lemma CommaRead(p: Parser, c: Core, element: seq<byte>, rest: seq<byte>) returns (q: Parser)
    requires Listing(c) && OptionRead(c, p.core, TrimLeft(element))
    ensures Reaches(p, [COMMA] + rest, Consumed(p.span, COMMA), q, rest) && q.span == p.span
    ensures Listing(q.core) && q.core == c.(header := q.core.header, framing := q.core.framing)
    ensures q.core.framing == c.framing.(flags := ElementFlags(c.framing.flags, element))
  {
    hide Look, Reaches, WordThenBlanks, TrimLeft, NoteElement, ElementFlags;
    ElementNoted(c, p.core, element);
    var data := [COMMA] + rest;
    assert data[1..] == rest;
    NotListed(COMMA);
    OptionLook(p.core, COMMA);
    q := p.(core := Goto(NoteElement(p.core), Value(Options)));
    if p.core.state == Value(OptionEnd) {
      Takes(p, data, q.core);
    } else {
      NothingNoted(p.core);
      var a := p.(core := Goto(p.core, Value(OptionToken)));
      OptionLook(a.core, COMMA);
      Takes(a, data, q.core);
      if p.core.state == Value(Options) {
        Passes(p, data, a.core);
        Silently(p, data, a, data, Consumed(p.span, COMMA), q, rest);
      }
    }
  }

  lemma NothingNoted(c: Core)
    requires c.header == ConnectionHeader || c.header == GeneralHeader
    ensures NoteElement(c) == c
  {
  }

  // The line end after the last element
  lemma ListEnds(p: Parser, c: Core, element: seq<byte>, line: seq<byte>)
    requires Listing(c) && OptionRead(c, p.core, TrimLeft(element)) && p.span == Some(ValueSpan) && LineEnds(line)
    ensures Reaches(p, line, [], ValueEnded(p.core), line)
  {
    hide Look, Reaches, WordThenBlanks, TrimLeft;
    OneState(c, p.core, element);
    NotListed(line[0]);
    OptionLook(p.core, line[0]);
    if p.core.state == Value(Options) {
      var a := p.(core := Goto(p.core, Value(OptionToken)));
      NoLetter(line[0]);
      Passes(p, line, a.core);
      OptionLook(a.core, line[0]);
      EndsHere(a, line, a.core);
      Silently(p, line, a, line, [], ValueEnded(p.core), line);
    } else {
      EndsHere(p, line, p.core);
    }
  }

  lemma OneState(c: Core, c': Core, element: seq<byte>)
    requires OptionRead(c, c', TrimLeft(element))
    ensures c'.state == Value(Options) || c'.state == Value(OptionToken) || c'.state == Value(OptionEnd)
  {
    hide WordThenBlanks, TrimLeft;
  }

  lemma NoLetter(b: byte)
    requires b == CR || b == LF
    ensures ToLower(b) == b && !Blank(b)
  {
  }

  lemma HasOptionMore(value: seq<byte>, word: string)
    ensures var k := CommaAt(value);
      HasOption(value, word)
      <==> if k == |value| then IsOption(value, word)
           else IsOption(value[..k], word) || HasOption(value[k + 1..], word)
  {
    hide IsOption, AnyIsOption, Elements;
    ElementsMore(value);
    var k := CommaAt(value);
    if k == |value| {
      AnyMoreElements(value, [], word);
      assert [value] + [] == [value];
    } else {
      AnyMoreElements(value[..k], Elements(value[k + 1..]), word);
    }
  }

  lemma ElementsMore(value: seq<byte>)
    ensures var k := CommaAt(value);
      Elements(value) == if k == |value| then [value] else [value[..k]] + Elements(value[k + 1..])
  {
  }

  lemma AnyMoreElements(element: seq<byte>, rest: seq<seq<byte>>, word: string)
    ensures AnyIsOption([element] + rest, word) <==> IsOption(element, word) || AnyIsOption(rest, word)
    ensures !AnyIsOption([], word)
  {
    hide IsOption;
    var all := [element] + rest;
    assert all[0] == element;
    assert forall e :: e in all <==> e == element || e in rest;
  }

  lemma ListFlagsMore(flags: Flags, value: seq<byte>)
    ensures var k := CommaAt(value);
      ListFlags(flags, value)
      == if k == |value| then ElementFlags(flags, value)
         else ListFlags(ElementFlags(flags, value[..k]), value[k + 1..])
  {
    hide IsOption, HasOption;
    HasOptionMore(value, CLOSE);
    HasOptionMore(value, KEEP_ALIVE);
    HasOptionMore(value, UPGRADE);
  }

  lemma ListedElement(value: seq<byte>)
    requires forall i :: 0 <= i < |value| ==> ValueChar(value[i])
    ensures Listed(value[..CommaAt(value)])
  {
    hide ValueChar;
    var first := value[..CommaAt(value)];
    forall i | 0 <= i < |first| ensures ListChar(first[i]) {
      assert first[i] == value[i] && first[i] in first;
    }
  }

  // The whole list: after it, exactly the options that it has are noted.
  lemma {:induction false} OptionsRead(p: Parser, value: seq<byte>, line: seq<byte>) returns (c: Core)
    requires Listing(p.core) && p.span == Some(ValueSpan) && LineEnds(line)
    requires forall i :: 0 <= i < |value| ==> ValueChar(value[i])
    ensures Reaches(p, value + line, SpanData(p.span, value), ValueEnded(c), line)
    ensures NoteElement(c).framing == p.core.framing.(flags := ListFlags(p.core.framing.flags, value))
    ensures NoteElement(c)
         == p.core.(framing := NoteElement(c).framing, state := c.state, header := NoteElement(c).header)
    decreases |value|
  {
    hide Look, Reaches, SpanData, ValueChar, OptionRead, NoteElement, ListFlags, ElementFlags, Elements, Listed;
    var k := CommaAt(value);
    var e := value[..k];
    ListFlagsMore(p.core.framing.flags, value);
    ListedElement(value);
    if k == |value| {
      assert e == value;
      var q := ElementRead(p, value, line);
      c := q.core;
      ElementNoted(p.core, c, value);
      ListEnds(q, p.core, value, line);
      ThenNothing(p, value + line, SpanData(p.span, value), q, line, ValueEnded(c));
    } else {
      var more := value[k + 1..];
      var rest := more + line;
      var a := ElementRead(p, e, [COMMA] + rest);
      var b := CommaRead(a, p.core, e, rest);
      c := OptionsRead(b, more, line);
      Joined(p, e, a, b, more, ValueEnded(c), line);
      assert value == e + ([COMMA] + more);
    }
  }

  // An element, a comma and the rest of the list
  lemma Joined(p: Parser, element: seq<byte>, a: Parser, b: Parser, more: seq<byte>, q: Parser, line: seq<byte>)
    requires a.span == p.span && b.span == p.span
    requires Reaches(p, element + ([COMMA] + (more + line)), SpanData(p.span, element), a, [COMMA] + (more + line))
    requires Reaches(a, [COMMA] + (more + line), Consumed(p.span, COMMA), b, more + line)
    requires Reaches(b, more + line, SpanData(p.span, more), q, line)
    ensures Reaches(p, element + ([COMMA] + more) + line, SpanData(p.span, element + ([COMMA] + more)), q, line)
  {
    hide Reaches, SpanData;
    var rest := more + line;
    Chain(a, [COMMA] + rest, Consumed(p.span, COMMA), b, rest, SpanData(p.span, more), q, line);
    Chain(p, element + ([COMMA] + rest), SpanData(p.span, element), a, [COMMA] + rest,
          Consumed(p.span, COMMA) + SpanData(p.span, more), q, line);
    SpanDataConcat(p.span, element, [COMMA] + more);
    FirstData(p.span, [COMMA] + more);
    assert ([COMMA] + more)[1..] == more;
    assert element + ([COMMA] + rest) == element + ([COMMA] + more) + line;
  }

  // ---- The codings of Transfer-Encoding ----------------------------------------------------

  lemma SameFold(b: byte, letter: char)
    requires 'a' <= letter <= 'z'
    ensures Folded(LowerUnsafe, b) == letter as int <==> ToLower(b) == letter as int
  {
  }

  lemma ChunkedIs(c: Core, text: seq<byte>)
    requires c.state == Value(Chunked) && c.index == 0
    ensures Matching(c.state) && |Pattern(c.state).1| == |CHUNKED|
    ensures Agrees(c, text) <==> |CHUNKED| <= |text| && Is(text[..|CHUNKED|], CHUNKED)
    ensures Matched(c).core == Goto(c, Value(ChunkedLast)) && Mismatched(c).core == Goto(c, Value(Coding))
  {
    hide ToLower, ToLowerUnsafe;
    if |CHUNKED| <= |text| {
      forall i | 0 <= i < |CHUNKED|
        ensures Folded(LowerUnsafe, text[i]) == CHUNKED[i] as int <==> ToLower(text[i]) == CHUNKED[i] as int
      {
        SameFold(text[i], CHUNKED[i]);
      }
      assert forall i :: 0 <= i < |CHUNKED| ==> text[..|CHUNKED|][i] == text[i];
    }
  }

  lemma SpacesMore(text: seq<byte>)
    requires text != []
    ensures Spaces(text) <==> text[0] == SP && Spaces(text[1..])
  {
  }

  // Behind "chunked" only spaces may follow.
  lemma {:induction false} AfterChunked(p: Parser, text: seq<byte>, rest: seq<byte>) returns (q: Parser)
    requires p.core.state == Value(ChunkedLast) && Listed(text)
    ensures Reaches(p, text + rest, SpanData(p.span, text), q, rest)
    ensures q == if Spaces(text) then p else p.(core := Goto(p.core, Value(Coding)))
    decreases |text|
  {
    hide Look, Reaches, SpanData, ListChar;
    if text == [] {
      q := p;
      assert text + rest == rest;
      Stays(p, rest);
    } else {
      var data := text + rest;
      assert data[0] == text[0] && data[1..] == text[1..] + rest;
      NotListed(text[0]);
      SpacesMore(text);
      FramingLook(p.core, data[0]);
      if text[0] == SP {
        Takes(p, data, p.core);
        ListedTail(text, 1);
        q := AfterChunked(p, text[1..], rest);
        FirstData(p.span, text);
        Chain(p, data, Consumed(p.span, data[0]), p, data[1..], SpanData(p.span, text[1..]), q, rest);
      } else {
        q := p.(core := Goto(p.core, Value(Coding)));
        ToToken(p, text, rest, q);
      }
    }
  }

  // The parser behind a coding
  function CodingIs(p: Parser, chunked: bool): Parser {
    p.(core := Goto(p.core, Value(if chunked then ChunkedLast else Coding)))
  }

  // A coding, from its first byte that is not white space
  lemma CodingRead(p: Parser, text: seq<byte>, rest: seq<byte>)
    requires p.core.state == Value(Chunked) && p.core.index == 0 && Ends(rest) && Listed(text)
    ensures Reaches(p, text + rest, SpanData(p.span, text), CodingIs(p, ChunkedThenSpaces(text)), rest)
  {
    hide Look, Reaches, SpanData, ListChar, Is, Pattern, Matched, Mismatched, Agrees, Spaces;
    ChunkedIs(p.core, text);
    var a, k := Compare(p, text, rest);
    var more, q := text[k..], CodingIs(p, ChunkedThenSpaces(text));
    ListedTail(text, k);
    assert p.core.(index := 0) == p.core && text == text[..k] + more;
    if Agrees(p.core, text) {
      var b := AfterChunked(a, more, rest);
      assert b == q;
    } else {
      SkipToken(a, more, rest);
    }
    SpanDataConcat(p.span, text[..k], more);
    Chain(p, text + rest, SpanData(p.span, text[..k]), a, more + rest, SpanData(p.span, more), q, rest);
  }

  // A coding after a comma, with white space before it
  lemma {:induction false} NextCoding(p: Parser, text: seq<byte>, rest: seq<byte>)
    requires p.core.state == Value(CodingOws) && p.core.index == 0 && Ends(rest) && Listed(text)
    ensures Reaches(p, text + rest, SpanData(p.span, text), CodingIs(p, IsChunked(text)), rest)
    decreases |text|
  {
    hide Look, Reaches, SpanData, ListChar, ChunkedThenSpaces;
    var data, q := text + rest, CodingIs(p, IsChunked(text));
    FramingLook(p.core, data[0]);
    if text != [] && Blank(text[0]) {
      assert data[0] == text[0] && data[1..] == text[1..] + rest;
      Takes(p, data, p.core);
      ListedTail(text, 1);
      NextCoding(p, text[1..], rest);
      FirstData(p.span, text);
      Chain(p, data, Consumed(p.span, data[0]), p, data[1..], SpanData(p.span, text[1..]), q, rest);
    } else {
      var a := p.(core := Goto(p.core, Value(Chunked)));
      Passes(p, data, a.core);
      CodingRead(a, text, rest);
      Silently(p, data, a, data, SpanData(p.span, text), q, rest);
    }
  }

  lemma CodingComma(p: Parser, chunked: bool, rest: seq<byte>)
    requires p.core.index == 0
    ensures Reaches(CodingIs(p, chunked), [COMMA] + rest, Consumed(p.span, COMMA),
                    p.(core := Goto(p.core, Value(CodingOws))), rest)
  {
    hide Look, Reaches, MatchStep;
    var data, a, q := [COMMA] + rest, CodingIs(p, false), p.(core := Goto(p.core, Value(CodingOws)));
    assert data[1..] == rest;
    NotListed(COMMA);
    FramingLook(a.core, COMMA);
    Takes(a, data, q.core);
    if chunked {
      var b, c := CodingIs(p, true), p.(core := Goto(p.core, Value(Chunked)));
      FramingLook(b.core, COMMA);
      Passes(b, data, c.core);
      CompareLooks(c.core, COMMA);
      NoFit(c.core.state, 0, COMMA);
      Passes(c, data, a.core);
      Silently(c, data, a, data, Consumed(p.span, COMMA), q, rest);
      Silently(b, data, c, data, Consumed(p.span, COMMA), q, rest);
    }
  }

  function Coded(c: Core, chunked: bool): Core {
    c.(header := if chunked then ChunkedSeen else GeneralHeader)
  }

  lemma CodingLine(p: Parser, chunked: bool, line: seq<byte>)
    requires p.core.index == 0 && p.span == Some(ValueSpan) && LineEnds(line)
    ensures Reaches(CodingIs(p, chunked), line, [], ValueEnded(Coded(p.core, chunked)), line)
  {
    hide Look, Reaches;
    var a := CodingIs(p, chunked);
    NotListed(line[0]);
    FramingLook(a.core, line[0]);
    if chunked {
      EndsHere(a, line, a.core.(header := ChunkedSeen));
    } else {
      var b := p.(core := p.core.(header := GeneralHeader, state := Value(Plain)));
      Passes(a, line, b.core);
      EdgeLook(b.core, line[0]);
      EndsHere(b, line, b.core);
      Silently(a, line, b, line, [], ValueEnded(Coded(p.core, chunked)), line);
    }
  }

  // Where a coding may begin, and the coding that does
  predicate AtCoding(p: Parser, text: seq<byte>) {
    && p.core.index == 0 && p.span == Some(ValueSpan)
    && (p.core.state == Value(CodingOws) || (p.core.state == Value(Chunked) && (text == [] || !Blank(text[0]))))
  }

  lemma AnyCoding(p: Parser, text: seq<byte>, rest: seq<byte>)
    requires AtCoding(p, text) && Ends(rest) && Listed(text)
    ensures Reaches(p, text + rest, SpanData(p.span, text), CodingIs(p, IsChunked(text)), rest)
  {
    hide Reaches, SpanData, ListChar, ChunkedThenSpaces;
    if p.core.state == Value(CodingOws) {
      NextCoding(p, text, rest);
    } else {
      CodingRead(p, text, rest);
    }
  }

  lemma EndsMore(value: seq<byte>)
    ensures var k := CommaAt(value);
      EndsChunked(value) <==> if k == |value| then IsChunked(value) else EndsChunked(value[k + 1..])
  {
    hide Elements, IsChunked, CommaAt, EndsChunked;
    ElementsMore(value);
    var k := CommaAt(value);
    EndsIs(value, Elements(value));
    if k < |value| {
      var rest := Elements(value[k + 1..]);
      EndsIs(value[k + 1..], rest);
      LastOf(value[..k], rest);
    }
  }

  lemma EndsIs(value: seq<byte>, elements: seq<seq<byte>>)
    requires elements == Elements(value)
    ensures EndsChunked(value) == IsChunked(elements[|elements| - 1])
  {
    hide Elements, IsChunked;
  }

  lemma LastOf<T>(first: T, rest: seq<T>)
    requires rest != []
    ensures var all := [first] + rest; all[|all| - 1] == rest[|rest| - 1]
  {
  }

  // The whole list: after it, the parser knows whether its last element is chunked.
  lemma {:induction false} CodingsRead(p: Parser, value: seq<byte>, line: seq<byte>)
    requires AtCoding(p, value) && LineEnds(line)
    requires forall i :: 0 <= i < |value| ==> ValueChar(value[i])
    ensures Reaches(p, value + line, SpanData(p.span, value), ValueEnded(Coded(p.core, EndsChunked(value))), line)
    decreases |value|
  {
    hide Reaches, SpanData, ValueChar, IsChunked, EndsChunked, Listed;
    var k := CommaAt(value);
    ListedElement(value);
    EndsMore(value);
    var q := ValueEnded(Coded(p.core, EndsChunked(value)));
    if k == |value| {
      assert value[..k] == value;
      AnyCoding(p, value, line);
      CodingLine(p, IsChunked(value), line);
      ThenNothing(p, value + line, SpanData(p.span, value), CodingIs(p, IsChunked(value)), line, q);
    } else {
      var e, more, b := value[..k], value[k + 1..], p.(core := Goto(p.core, Value(CodingOws)));
      AnyCoding(p, e, [COMMA] + (more + line));
      CodingComma(p, IsChunked(e), more + line);
      CodingsRead(b, more, line);
      Joined(p, e, CodingIs(p, IsChunked(e)), b, more, q, line);
      assert value == e + ([COMMA] + more);
    }
  }

  // White space around a coding is as around an option but for tabs behind it, which make it an unknown one.
  lemma TabIsNoSpace(element: seq<byte>)
    ensures IsChunked(element)
       <==> IsOption(element, CHUNKED) && HT !in TrimLeft(element)[|CHUNKED|..]
  {
    hide TrimLeft, Is;
    var text := TrimLeft(element);
    if |CHUNKED| <= |text| {
      var behind := text[|CHUNKED|..];
      if Spaces(behind) {
        assert Blanks(behind) && HT !in behind;
      }
      if Blanks(behind) && HT !in behind {
        assert forall i :: 0 <= i < |behind| ==> behind[i] in behind;
      }
    }
  }

  lemma ChunkedAndTab()
    ensures var element := ['c' as int, 'h' as int, 'u' as int, 'n' as int, 'k' as int, 'e' as int, 'd' as int, HT];
      IsOption(element, CHUNKED) && !IsChunked(element)
  {
    var element := ['c' as int, 'h' as int, 'u' as int, 'n' as int, 'k' as int, 'e' as int, 'd' as int, HT];
    assert TrimLeft(element) == element && element[|CHUNKED|..] == [HT] && [HT][0] == HT;
  }
}
