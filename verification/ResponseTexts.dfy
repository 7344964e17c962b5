/**
 Two texts that a parser may receive, read byte for byte: one whose end the framing functions see
 differently, and one that shows something else when it is cut in two.
 */
module ResponseTexts {
  import opened Basics
  import opened FramingRules
  import opened ResponseStates
  import opened ResponseFold
  import opened ResponseLoss
  import opened ResponseEof

  function Bytes(s: string): (r: seq<byte>)
    requires forall i :: 0 <= i < |s| ==> s[i] as int < 256
  {
    seq(|s|, i requires 0 <= i < |s| => s[i] as int)
  }

  // A parser within the head of a first response
  function Head(state: State, index: nat, span: Option<Span>, header: HeaderState, f: Framing): Parser {
    Parser(Core(state, index, 0, header, f, Unsafe, false, 0), span)
  }

  // In the status line
  function InLine(line: LineState, index: nat, span: Option<Span>, f: Framing): Parser {
    Head(Line(line), index, span, GeneralHeader, f)
  }

  const VERSION: Framing := NO_FRAMING.(major := 1, minor := 1)
  const STATUS: Framing := VERSION.(status := 110)
  const CODED: Framing := STATUS.(flags := NO_FLAGS.(transferEncoding := true))

  function Read(p: Parser, data: seq<byte>): Parser {
    Parsed(p, data).0
  }

  lemma Cons(p: Parser, data: seq<byte>)
    requires data != []
    ensures Read(p, data) == Read(ByteStep(p, data[0]).0, data[1..])
  {
  }

  lemma ReadConcat(p: Parser, a: seq<byte>, b: seq<byte>)
    ensures Read(p, a + b) == Read(Read(p, a), b)
  {
    ParsedConcat(p, a, b);
  }

  // A byte that is left to the next state, and one that is consumed
  lemma Left(p: Parser, b: byte)
    requires !Look(p.core, b).consumed
    ensures ByteStep(p, b).0 == ByteStep(After(p, Look(p.core, b)), b).0
  {
  }

  lemma Eaten(p: Parser, b: byte)
    requires Look(p.core, b).consumed
    ensures ByteStep(p, b).0 == After(p, Look(p.core, b))
  {
  }

  // ---- The status line ---------------------------------------------------------------------

  lemma ReadH()
    ensures ByteStep(FRESH, 'H' as int).0 == InLine(Http, 0, Some(ProtocolSpan), NO_FRAMING)
  {
  }

  lemma ReadTtp()
    ensures var span := Some(ProtocolSpan);
      && ByteStep(InLine(Http, 0, span, NO_FRAMING), 'T' as int).0 == InLine(Http, 1, span, NO_FRAMING)
      && ByteStep(InLine(Http, 1, span, NO_FRAMING), 'T' as int).0 == InLine(Http, 2, span, NO_FRAMING)
      && ByteStep(InLine(Http, 2, span, NO_FRAMING), 'P' as int).0 == InLine(AfterProtocol, 0, None, NO_FRAMING)
  {
  }

  lemma ReadMajor()
    ensures ByteStep(InLine(AfterProtocol, 0, None, NO_FRAMING), '/' as int).0
        == InLine(VersionStart, 0, None, NO_FRAMING)
    ensures ByteStep(InLine(VersionStart, 0, None, NO_FRAMING), '1' as int).0
         == InLine(Dot, 0, Some(VersionSpan), NO_FRAMING.(major := 1))
  {
    hide ByteStep;
    Eaten(InLine(AfterProtocol, 0, None, NO_FRAMING), '/' as int);
    Left(InLine(VersionStart, 0, None, NO_FRAMING), '1' as int);
    Eaten(InLine(Major, 0, Some(VersionSpan), NO_FRAMING), '1' as int);
  }

  lemma ReadMinor()
    ensures var span, f := Some(VersionSpan), NO_FRAMING.(major := 1);
      && ByteStep(InLine(Dot, 0, span, f), '.' as int).0 == InLine(Minor, 0, span, f)
      && ByteStep(InLine(Minor, 0, span, f), '1' as int).0 == InLine(AfterVersion, 0, None, VERSION)
  {
    hide ByteStep;
    Eaten(InLine(Dot, 0, Some(VersionSpan), NO_FRAMING.(major := 1)), '.' as int);
    Eaten(InLine(Minor, 0, Some(VersionSpan), NO_FRAMING.(major := 1)), '1' as int);
  }

  lemma ReadSpace()
    ensures ByteStep(InLine(AfterVersion, 0, None, VERSION), SP).0 == InLine(CodeDigit1, 0, None, VERSION)
  {
    hide ByteStep;
    Eaten(InLine(AfterVersion, 0, None, VERSION), SP);
  }

  lemma ReadDigit1()
    ensures ByteStep(InLine(CodeDigit1, 0, None, VERSION), '1' as int).0
         == InLine(CodeDigit2, 0, None, VERSION.(status := 1))
  {
    hide ByteStep;
    Eaten(InLine(CodeDigit1, 0, None, VERSION), '1' as int);
  }

  lemma ReadDigit2()
    ensures ByteStep(InLine(CodeDigit2, 0, None, VERSION.(status := 1)), '1' as int).0
         == InLine(CodeDigit3, 0, None, VERSION.(status := 11))
  {
    hide ByteStep;
    Eaten(InLine(CodeDigit2, 0, None, VERSION.(status := 1)), '1' as int);
  }

  lemma ReadDigit3()
    ensures ByteStep(InLine(CodeDigit3, 0, None, VERSION.(status := 11)), '0' as int).0
         == InLine(CodeDone, 0, None, STATUS)
  {
    hide ByteStep;
    Eaten(InLine(CodeDigit3, 0, None, VERSION.(status := 11)), '0' as int);
  }

  lemma ReadLineCr()
    ensures ByteStep(InLine(CodeDone, 0, None, STATUS), CR).0 == InLine(LineAlmostDone, 0, None, STATUS)
  {
    hide ByteStep;
    Eaten(InLine(CodeDone, 0, None, STATUS), CR);
  }

  lemma ReadLineLf()
    ensures ByteStep(InLine(LineAlmostDone, 0, None, STATUS), LF).0
         == Head(Field(HeadersStart), 0, None, GeneralHeader, STATUS)
  {
    hide ByteStep;
    Eaten(InLine(LineAlmostDone, 0, None, STATUS), LF);
  }

  const STATUS_LINE: seq<byte> := Bytes("HTTP") + (Bytes("/1.1") + (Bytes(" 110") + [CR, LF]))

  lemma Four(p: Parser, data: seq<byte>)
    requires |data| == 4
    ensures Read(p, data)
         == ByteStep(ByteStep(ByteStep(ByteStep(p, data[0]).0, data[1]).0, data[2]).0, data[3]).0
  {
    hide ByteStep;
    var p1 := ByteStep(p, data[0]).0;
    var p2 := ByteStep(p1, data[1]).0;
    Cons(p, data);
    Cons(p1, data[1..]);
    Cons(p2, data[2..]);
    assert data[1..][1..] == data[2..] && data[2..][1..] == data[3..];
    Cons(ByteStep(p2, data[2]).0, data[3..]);
  }

  lemma Two(p: Parser, data: seq<byte>)
    requires |data| == 2
    ensures Read(p, data) == ByteStep(ByteStep(p, data[0]).0, data[1]).0
  {
    hide ByteStep;
    Cons(p, data);
    Cons(ByteStep(p, data[0]).0, data[1..]);
  }

  lemma ReadStatusLine()
    ensures Read(FRESH, STATUS_LINE) == Head(Field(HeadersStart), 0, None, GeneralHeader, STATUS)
  {
    hide ByteStep, Read;
    ReadH();
    ReadTtp();
    ReadMajor();
    ReadMinor();
    ReadSpace();
    ReadDigit1();
    ReadDigit2();
    ReadDigit3();
    ReadLineCr();
    ReadLineLf();
    var a, b, c, d := Bytes("HTTP"), Bytes("/1.1"), Bytes(" 110"), [CR, LF];
    Four(FRESH, a);
    Four(InLine(AfterProtocol, 0, None, NO_FRAMING), b);
    Four(InLine(AfterVersion, 0, None, VERSION), c);
    Two(InLine(CodeDone, 0, None, STATUS), d);
    ReadConcat(FRESH, a, b + (c + d));
    ReadConcat(InLine(AfterProtocol, 0, None, NO_FRAMING), b, c + d);
    ReadConcat(InLine(AfterVersion, 0, None, VERSION), c, d);
  }

  // ---- A coding that is not chunked --------------------------------------------------------

  lemma NameOpens(b: byte)
    requires b != SP && b != LF && b != CR && b != ':' as int
    ensures ByteStep(Head(Field(HeadersStart), 0, None, GeneralHeader, STATUS), b).0
         == ByteStep(Head(Field(Name), 0, Some(NameSpan), GeneralHeader, STATUS), b).0
  {
    hide ByteStep;
    Left(Head(Field(HeadersStart), 0, None, GeneralHeader, STATUS), b);
    Left(Head(Field(FieldStart), 0, None, GeneralHeader, STATUS), b);
    Left(Head(Field(NameStart), 0, None, GeneralHeader, STATUS), b);
  }

  lemma ReadT()
    ensures ByteStep(Head(Field(HeadersStart), 0, None, GeneralHeader, STATUS), 'T' as int).0
         == Head(Field(TransferEncoding), 0, Some(NameSpan), GeneralHeader, STATUS)
  {
    hide ByteStep;
    NameOpens('T' as int);
    Eaten(Head(Field(Name), 0, Some(NameSpan), GeneralHeader, STATUS), 'T' as int);
  }

  const NAME_REST := "ransfer-encoding"

  lemma MatchedByte(k: nat)
    requires k < |NAME_REST|
    ensures ByteStep(Head(Field(TransferEncoding), k, Some(NameSpan), GeneralHeader, STATUS), NAME_REST[k] as int).0
         == if k + 1 < |NAME_REST| then Head(Field(TransferEncoding), k + 1, Some(NameSpan), GeneralHeader, STATUS)
            else Head(Field(Colon), 0, Some(NameSpan), EncodingHeader, STATUS)
  {
    assert ToLower(NAME_REST[k] as int) == NAME_REST[k] as int;
  }

  lemma {:induction false} ReadNameRest(k: nat)
    requires k < |NAME_REST|
    ensures Read(Head(Field(TransferEncoding), k, Some(NameSpan), GeneralHeader, STATUS), Bytes(NAME_REST[k..]))
         == Head(Field(Colon), 0, Some(NameSpan), EncodingHeader, STATUS)
    decreases |NAME_REST| - k
  {
    hide ByteStep, Parsed;
    var data := Bytes(NAME_REST[k..]);
    var p := Head(Field(TransferEncoding), k, Some(NameSpan), GeneralHeader, STATUS);
    Cons(p, data);
    MatchedByte(k);
    if k + 1 < |NAME_REST| {
      assert data[1..] == Bytes(NAME_REST[k + 1..]);
      ReadNameRest(k + 1);
    } else {
      assert data[1..] == [];
      ReadNothing(ByteStep(p, data[0]).0);
    }
  }

  lemma ReadNothing(p: Parser)
    ensures Read(p, []) == p
  {
  }

  lemma ReadColon()
    ensures ByteStep(Head(Field(Colon), 0, Some(NameSpan), EncodingHeader, STATUS), ':' as int).0
         == Head(Value(DiscardWs), 0, None, EncodingHeader, STATUS)
  {
    hide ByteStep;
    Eaten(Head(Field(Colon), 0, Some(NameSpan), EncodingHeader, STATUS), ':' as int);
  }

  lemma CodingOpens()
    ensures ByteStep(Head(Value(DiscardWs), 0, None, EncodingHeader, STATUS), 'x' as int).0
         == ByteStep(Head(Value(Chunked), 0, Some(ValueSpan), EncodingHeader, CODED), 'x' as int).0
  {
    hide ByteStep;
    Left(Head(Value(DiscardWs), 0, None, EncodingHeader, STATUS), 'x' as int);
    Left(Head(Value(ValueStart), 0, None, EncodingHeader, STATUS), 'x' as int);
  }

  lemma NotChunked()
    ensures ByteStep(Head(Value(Chunked), 0, Some(ValueSpan), EncodingHeader, CODED), 'x' as int).0
         == ByteStep(Head(Value(Coding), 0, Some(ValueSpan), EncodingHeader, CODED), 'x' as int).0
  {
    hide ByteStep;
    Left(Head(Value(Chunked), 0, Some(ValueSpan), EncodingHeader, CODED), 'x' as int);
  }

  lemma ReadCoding()
    ensures ByteStep(Head(Value(DiscardWs), 0, None, EncodingHeader, STATUS), 'x' as int).0
         == Head(Value(Coding), 0, Some(ValueSpan), EncodingHeader, CODED)
  {
    hide ByteStep;
    CodingOpens();
    NotChunked();
    Eaten(Head(Value(Coding), 0, Some(ValueSpan), EncodingHeader, CODED), 'x' as int);
  }

  lemma CodingEnds()
    ensures ByteStep(Head(Value(Coding), 0, Some(ValueSpan), EncodingHeader, CODED), CR).0
         == ByteStep(Head(Value(Plain), 0, Some(ValueSpan), GeneralHeader, CODED), CR).0
  {
    hide ByteStep;
    Left(Head(Value(Coding), 0, Some(ValueSpan), EncodingHeader, CODED), CR);
  }

  lemma ReadValueCr()
    ensures ByteStep(Head(Value(Coding), 0, Some(ValueSpan), EncodingHeader, CODED), CR).0
         == Head(Value(ValueAlmostDone), 0, None, GeneralHeader, CODED)
  {
    hide ByteStep;
    CodingEnds();
    Left(Head(Value(Plain), 0, Some(ValueSpan), GeneralHeader, CODED), CR);
    Eaten(Head(Value(ValueEnd), 0, Some(ValueSpan), GeneralHeader, CODED), CR);
  }

  lemma ReadValueLf()
    ensures ByteStep(Head(Value(ValueAlmostDone), 0, None, GeneralHeader, CODED), LF).0
         == Head(Value(Lws), 0, None, GeneralHeader, CODED)
  {
    hide ByteStep;
    Eaten(Head(Value(ValueAlmostDone), 0, None, GeneralHeader, CODED), LF);
  }

  lemma ReadHeadersCr()
    ensures ByteStep(Head(Value(Lws), 0, None, GeneralHeader, CODED), CR).0
         == Head(Field(HeadersAlmostDone), 0, None, GeneralHeader, CODED)
  {
    hide ByteStep;
    Left(Head(Value(Lws), 0, None, GeneralHeader, CODED), CR);
    Eaten(Head(Field(FieldStart), 0, None, GeneralHeader, CODED), CR);
  }

  lemma ReadHeadersLf()
    ensures ByteStep(Head(Field(HeadersAlmostDone), 0, None, GeneralHeader, CODED), LF).0
         == Parser(Core(Body(UntilCloseStart), 0, 0, GeneralHeader, CODED, SafeWithCb, false, 0), None)
  {
    hide ByteStep;
    Eaten(Head(Field(HeadersAlmostDone), 0, None, GeneralHeader, CODED), LF);
  }

  // HTTP/1.1 110, Transfer-Encoding:x and nothing else
  const CODED_RESPONSE: seq<byte> :=
    STATUS_LINE + (['T' as int] + (Bytes(NAME_REST) + ([':' as int, 'x' as int, CR, LF] + [CR, LF])))

  lemma One(p: Parser, b: byte)
    ensures Read(p, [b]) == ByteStep(p, b).0
  {
    hide ByteStep;
    Cons(p, [b]);
    ReadNothing(ByteStep(p, b).0);
  }

  lemma ReadCodedResponse()
    ensures Read(FRESH, CODED_RESPONSE)
         == Parser(Core(Body(UntilCloseStart), 0, 0, GeneralHeader, CODED, SafeWithCb, false, 0), None)
  {
    hide ByteStep, Read;
    ReadStatusLine();
    ReadT();
    ReadNameRest(0);
    ReadColon();
    ReadCoding();
    ReadValueCr();
    ReadValueLf();
    ReadHeadersCr();
    ReadHeadersLf();
    var t, name, value, end := ['T' as int], Bytes(NAME_REST), [':' as int, 'x' as int, CR, LF], [CR, LF];
    assert NAME_REST[0..] == NAME_REST;
    ReadConcat(FRESH, STATUS_LINE, t + (name + (value + end)));
    ReadConcat(Head(Field(HeadersStart), 0, None, GeneralHeader, STATUS), t, name + (value + end));
    ReadConcat(Head(Field(TransferEncoding), 0, Some(NameSpan), GeneralHeader, STATUS), name, value + end);
    ReadConcat(Head(Field(Colon), 0, Some(NameSpan), EncodingHeader, STATUS), value, end);
    One(Head(Field(HeadersStart), 0, None, GeneralHeader, STATUS), 'T' as int);
    Four(Head(Field(Colon), 0, Some(NameSpan), EncodingHeader, STATUS), value);
    Two(Head(Value(Lws), 0, None, GeneralHeader, CODED), end);
  }

  // A response that goes on until the connection is closed, and does not count as complete when it is.
  lemma EofDisagreement()
    ensures var (p, outs) := Parsed(FRESH, CODED_RESPONSE);
      && p.core.error == 0 && ReadingUntilClose(p.core.state) && p.core.framing.status == 110
      && Responding(false, outs) && !EofCompletes(p.core, Responding(false, outs))
  {
    hide ByteStep, Responding, EofCompletes;
    ReadCodedResponse();
    ParsedHeard(FRESH, CODED_RESPONSE);
    EofRule(CODED_RESPONSE);
  }

  // ---- A text cut in two -------------------------------------------------------------------

  // The head of a name, and a byte that no name has
  const NAME_HEAD: seq<byte> := ['X' as int]
  const NO_NAME: seq<byte> := [1]

  lemma ReadX()
    ensures ByteStep(Head(Field(HeadersStart), 0, None, GeneralHeader, STATUS), 'X' as int).0
         == Head(Field(General), 0, Some(NameSpan), GeneralHeader, STATUS)
  {
    hide ByteStep;
    NameOpens('X' as int);
    Left(Head(Field(Name), 0, Some(NameSpan), GeneralHeader, STATUS), 'X' as int);
    Eaten(Head(Field(General), 0, Some(NameSpan), GeneralHeader, STATUS), 'X' as int);
  }

  // One look at a byte, for what is held and whether a span stays open
  lemma HeldLook(p: Parser, b: byte, held: seq<Out>)
    requires p.core.error == 0
    ensures var e := Look(p.core, b); var rest := if e.consumed then [] else [b];
      && Held(p, [b], held) == Held(After(p, e), rest, HeldAfter(p.span, e, b, held))
      && (StaysOpen(p, [b]) <==> !e.shut && e.open.None? && !e.shutAfter && StaysOpen(After(p, e), rest))
  {
  }

  lemma HeldNothing(p: Parser, held: seq<Out>)
    ensures Held(p, [], held) == held && StaysOpen(p, [])
  {
  }

  lemma HoldsName(held: seq<Out>)
    ensures Held(Head(Field(HeadersStart), 0, None, GeneralHeader, STATUS), NAME_HEAD, held)
         == [DataByte(NameSpan, 'X' as int)]
  {
    hide Held, StaysOpen;
    Unheld(held);
    HeldLook(Head(Field(HeadersStart), 0, None, GeneralHeader, STATUS), 'X' as int, held);
    HeldLook(Head(Field(FieldStart), 0, None, GeneralHeader, STATUS), 'X' as int, held);
    var start := Head(Field(NameStart), 0, None, GeneralHeader, STATUS);
    assert HeldAfter(None, Look(start.core, 'X' as int), 'X' as int, held) == [];
    HeldLook(start, 'X' as int, held);
    NameHeld();
  }

  lemma Unheld(held: seq<Out>)
    ensures held + [] == held == [] + held
  {
  }

  lemma NameHeld()
    ensures Held(Head(Field(Name), 0, Some(NameSpan), GeneralHeader, STATUS), NAME_HEAD, [])
         == [DataByte(NameSpan, 'X' as int)]
  {
    hide Held, StaysOpen;
    Unheld([]);
    Unheld([DataByte(NameSpan, 'X' as int)]);
    HeldLook(Head(Field(Name), 0, Some(NameSpan), GeneralHeader, STATUS), 'X' as int, []);
    HeldLook(Head(Field(General), 0, Some(NameSpan), GeneralHeader, STATUS), 'X' as int, []);
    HeldNothing(Head(Field(General), 0, Some(NameSpan), GeneralHeader, STATUS), [DataByte(NameSpan, 'X' as int)]);
  }

  lemma NameBreaks()
    ensures var p := Head(Field(General), 0, Some(NameSpan), GeneralHeader, STATUS);
      ByteStep(p, 1).0.core.error == 10 && StaysOpen(p, NO_NAME)
  {
    hide ByteStep, Held, StaysOpen;
    var p, p' := Head(Field(General), 0, Some(NameSpan), GeneralHeader, STATUS),
                 Head(Field(GeneralEnd), 0, Some(NameSpan), GeneralHeader, STATUS);
    Left(p, 1);
    Left(p', 1);
    HeldLook(p, 1, []);
    HeldLook(p', 1, []);
    var q := After(p', Look(p'.core, 1));
    OpenAtError(q, NO_NAME);
    ErrorStays(q, 1);
  }

  lemma OpenAtError(p: Parser, data: seq<byte>)
    requires p.core.error != 0
    ensures StaysOpen(p, data)
  {
  }

  lemma ErrorStays(p: Parser, b: byte)
    requires p.core.state.Failed?
    ensures ByteStep(p, b).0.core == p.core
  {
  }

  // In one buffer, the name of the header is not shown at all; cut in two, its first byte is.
  lemma CutInTwo()
    ensures var a, b := STATUS_LINE + NAME_HEAD, NO_NAME;
      && CutOff(FRESH, a, b) && Ok(FRESH) && Ok(Parsed(FRESH, a).0)
      && Handed(FRESH, a) + Handed(Parsed(FRESH, a).0, b) == Handed(FRESH, a + b) + [DataByte(NameSpan, 'X' as int)]
  {
    hide ByteStep, Held, StaysOpen, Handed, Read, Ok;
    var a, b := STATUS_LINE + NAME_HEAD, NO_NAME;
    var p := Head(Field(HeadersStart), 0, None, GeneralHeader, STATUS);
    FreshOk();
    ReadStatusLine();
    ReadX();
    ReadConcat(FRESH, STATUS_LINE, NAME_HEAD);
    One(p, 'X' as int);
    NameBreaks();
    One(Head(Field(General), 0, Some(NameSpan), GeneralHeader, STATUS), 1);
    ReadIs(FRESH, a);
    ReadIs(FRESH, STATUS_LINE);
    ReadIs(Parsed(FRESH, a).0, b);
    HeldConcat(FRESH, STATUS_LINE, NAME_HEAD, []);
    HoldsName(Held(FRESH, STATUS_LINE, []));
    SplitHanded(FRESH, a, b);
  }

  lemma FreshOk()
    ensures Ok(FRESH)
  {
  }

  lemma ReadIs(p: Parser, data: seq<byte>)
    ensures Read(p, data) == Parsed(p, data).0
  {
  }
}
