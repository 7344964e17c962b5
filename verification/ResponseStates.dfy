/**
 The response path of the llhttp parser as wperfk configures it (deps/llhttp/llhttp.c): what the
 parser does when it looks at one byte.  A state here is one in which the generated code waits for
 input; the states it only passes through are folded into the step before them.
 */
module ResponseStates {
  import opened Basics
  import opened FramingRules

  type byte = x: int | 0 <= x < 256

  const HT: byte := 9
  const LF: byte := 10
  const CR: byte := 13
  const SP: byte := 32

  // ---- States ------------------------------------------------------------------------------

  datatype LineState =
    | ProtocolStart | Protocol | Http | Ice | Rtsp | AfterProtocol
    | VersionStart | Major | Dot | Minor | AfterVersion
    | CodeDigit1 | CodeDigit2 | CodeDigit3 | CodeDone | LineAlmostDone | TextStart | Text

  datatype FieldState =
    | HeadersStart | FieldStart | HeadersAlmostDone | NameStart | Name
    | Co | Con | Connection | ContentLength | ProxyConnection | TransferEncoding | Upgrade
    | Colon | General | GeneralEnd

  datatype ValueState =
    | DiscardWs | DiscardWsAlmostDone | DiscardLws | EmptyValue | ValueStart | Plain | ValueEnd | ValueAlmostDone | Lws
    | Options | Close | KeepAlive | UpgradeOption | OptionEnd | OptionToken
    | Length | LengthWs
    | Chunked | ChunkedLast | Coding | CodingOws

  datatype ChunkState =
    | SizeFirst | Size | SizeEnd | SizeAlmostDone | DataStart | Content | DataAlmostDone | DataAlmostDoneLf
    | Extension | ExtNameStart | ExtName | ExtValueStart | ExtValue | ExtQuoted | ExtPair | ExtQuotedEnd

  datatype BodyState = IdentityStart | Identity | UntilCloseStart | UntilClose

  datatype State =
    | Start
    | Closed
    | Failed
    | Line(line: LineState)
    | Field(field: FieldState)
    | Value(value: ValueState)
    | Chunk(chunk: ChunkState)
    | Body(body: BodyState)

  // The values of header_state, in the order of the source.
  datatype HeaderState =
    | GeneralHeader | ConnectionHeader | LengthHeader | EncodingHeader | UpgradeHeader
    | KeepAliveSeen | CloseSeen | UpgradeSeen | ChunkedSeen

  // The fields of llhttp__internal_t that the response path uses.
  datatype Core = Core(state: State, index: nat, contentLength: nat, header: HeaderState, framing: Framing,
                       finish: Finish, completedBefore: bool, error: nat)

  datatype Span = ProtocolSpan | VersionSpan | StatusSpan | NameSpan | ValueSpan | BodySpan | ExtNameSpan | ExtValueSpan

  // A callback without data.
  datatype Call =
    | Reset | MessageBegin | ProtocolComplete | VersionComplete | StatusComplete | NameComplete | ValueComplete
    | HeadersComplete | ChunkHeader(size: nat) | ChunkComplete | MessageComplete | ExtNameComplete | ExtValueComplete

  // One look at a byte: a span may open and shut, callbacks may run, the byte may be consumed, and
  // then the span may shut and callbacks run.
  datatype Effect = Effect(core: Core, open: Option<Span>, shut: bool, before: seq<Call>,
                           consumed: bool, shutAfter: bool, after: seq<Call>)

  // llhttp_init for responses
  const INITIAL: Core := Core(Start, 0, 0, GeneralHeader, NO_FRAMING, Safe, false, 0)

  function Goto(c: Core, state: State): Core {
    c.(state := state)
  }

  // An error state; no byte is looked at any more.
  function Fail(c: Core, error: nat): Core {
    c.(state := Failed, error := error)
  }

  function Take(c: Core, state: State): Effect {
    TakeThen(Goto(c, state), [])
  }

  // The byte is consumed before the callbacks run.
  function TakeThen(c: Core, calls: seq<Call>): Effect {
    Effect(c, None, false, [], true, false, calls)
  }

  // The span ends after the byte.
  function TakeShut(c: Core, calls: seq<Call>): Effect {
    Effect(c, None, false, [], true, true, calls)
  }

  // The span ends before the byte, which is consumed before the callbacks run.
  function ShutTake(c: Core, calls: seq<Call>): Effect {
    Effect(c, None, true, [], true, false, calls)
  }

  // The byte is left to the next state.
  function Pass(c: Core, state: State): Effect {
    PassAfter(Goto(c, state), [])
  }

  function PassAfter(c: Core, calls: seq<Call>): Effect {
    Effect(c, None, false, calls, false, false, [])
  }

  function ShutPass(c: Core, calls: seq<Call>): Effect {
    Effect(c, None, true, calls, false, false, [])
  }

  function Error(c: Core, error: nat): Effect {
    PassAfter(Fail(c, error), [])
  }

  // The span ends before the error.
  function ErrorShut(c: Core, error: nat): Effect {
    ShutPass(Fail(c, error), [])
  }

  // The byte is the first of a span.
  function OpenThen(c: Core, span: Span, state: State): Effect {
    Effect(Goto(c, state), Some(span), false, [], false, false, [])
  }

  // ---- Characters --------------------------------------------------------------------------

  predicate Digit(b: byte) {
    '0' as int <= b <= '9' as int
  }

  function DigitValue(b: byte): nat
    requires Digit(b)
  {
    b - '0' as int
  }

  predicate HexDigit(b: byte) {
    Digit(b) || 'A' as int <= b <= 'F' as int || 'a' as int <= b <= 'f' as int
  }

  function HexValue(b: byte): nat
    requires HexDigit(b)
    ensures HexValue(b) < 16
  {
    if Digit(b) then b - '0' as int
    else if b <= 'F' as int then b - 'A' as int + 10
    else b - 'a' as int + 10
  }

  predicate TokenChar(b: byte) {
    b == 33 || 35 <= b <= 39 || b == 42 || b == 43 || b == 45 || b == 46 || 48 <= b <= 57 || 65 <= b <= 90
    || 94 <= b <= 122 || b == 124 || b == 126
  }

  predicate ValueChar(b: byte) {
    b == HT || 32 <= b <= 126 || 128 <= b
  }

  // A value character but the comma that separates list elements.
  predicate ListChar(b: byte) {
    ValueChar(b) && b != 44
  }

  predicate QuotedChar(b: byte) {
    ValueChar(b) && b != 34 && b != 92
  }

  function ToLower(b: byte): byte {
    if 65 <= b <= 90 then b + 32 else b
  }

  // The byte with bit 0x20 set.
  function ToLowerUnsafe(b: byte): byte {
    if b / 32 % 2 == 0 then b + 32 else b
  }

  // ---- Sequences matched byte by byte ------------------------------------------------------

  datatype Fold = Exact | Lower | LowerUnsafe

  function Folded(fold: Fold, b: byte): byte {
    match fold
    case Exact => b
    case Lower => ToLower(b)
    case LowerUnsafe => ToLowerUnsafe(b)
  }

  // The states that match a fixed sequence
  predicate Matching(state: State) {
    match state
    case Line(l) => l.Http? || l.Ice? || l.Rtsp?
    case Field(f) =>
      f.Co? || f.Connection? || f.ContentLength? || f.ProxyConnection? || f.TransferEncoding? || f.Upgrade?
    case Value(v) => v.Close? || v.KeepAlive? || v.UpgradeOption? || v.Chunked?
    case _ => false
  }

  function Pattern(state: State): (r: (Fold, string))
    requires Matching(state)
    ensures r.1 != "" && forall i :: 0 <= i < |r.1| ==> r.1[i] as int < 128
  {
    match state
    case Line(Http) => (Exact, "TTP")
    case Line(Ice) => (Exact, "CE")
    case Line(_) => (Exact, "TSP")
    case Field(Co) => (Lower, "on")
    case Field(Connection) => (Lower, "ection")
    case Field(ContentLength) => (Lower, "ent-length")
    case Field(ProxyConnection) => (Lower, "roxy-connection")
    case Field(TransferEncoding) => (Lower, "ransfer-encoding")
    case Field(_) => (Lower, "pgrade")
    case Value(Close) => (Lower, "lose")
    case Value(KeepAlive) => (Lower, "eep-alive")
    case Value(UpgradeOption) => (Lower, "pgrade")
    case Value(_) => (LowerUnsafe, "chunked")
  }

  predicate Fits(state: State, index: nat, b: byte)
    requires Matching(state)
  {
    index < |Pattern(state).1| && Folded(Pattern(state).0, b) == Pattern(state).1[index] as int
  }

  // llparse__match_sequence_*, one byte of it: either the whole sequence is matched, or one more
  // byte of it, or the byte is left to the state for other input.
  function MatchStep(c: Core, b: byte): Effect
    requires Matching(c.state)
  {
    if !Fits(c.state, c.index, b) then Mismatched(c.(index := 0))
    else if c.index + 1 == |Pattern(c.state).1| then Matched(c.(index := 0))
    else TakeThen(c.(index := c.index + 1), [])
  }

  function Mismatched(c: Core): Effect {
    match c.state
    case Line(_) => ErrorShut(c, 8)
    case Field(_) => Pass(c.(header := GeneralHeader), Field(General))
    case Value(Chunked) => Pass(c, Value(Coding))
    case _ => Pass(c, Value(OptionToken))
  }

  function Matched(c: Core): Effect {
    match c.state
    case Line(_) => TakeShut(Goto(c, Line(AfterProtocol)), [ProtocolComplete])
    case Field(Co) => Take(c, Field(Con))
    case Field(Connection) => Take(c.(header := ConnectionHeader), Field(Colon))
    case Field(ContentLength) => Take(c.(header := LengthHeader), Field(Colon))
    case Field(ProxyConnection) => Take(c.(header := ConnectionHeader), Field(Colon))
    case Field(TransferEncoding) => Take(c.(header := EncodingHeader), Field(Colon))
    case Field(_) => Take(c.(header := UpgradeHeader), Field(Colon))
    case Value(Close) => Take(c.(header := CloseSeen), Value(OptionEnd))
    case Value(KeepAlive) => Take(c.(header := KeepAliveSeen), Value(OptionEnd))
    case Value(UpgradeOption) => Take(c.(header := UpgradeSeen), Value(OptionEnd))
    case _ => Take(c, Value(ChunkedLast))
  }

  // ---- The status line ---------------------------------------------------------------------

  // mul_add_status_code on a 16-bit field
  function AddToCode(code: nat, digit: nat): (nat, bool) {
    if code > 0xffff / 10 then (code, false)
    else if code * 10 > 0xffff - digit then (code * 10, false)
    else (code * 10 + digit, true)
  }

  function CodeDigit(c: Core, b: byte, next: LineState): Effect {
    if !Digit(b) then Error(c, 13)
    else
      var (code, ok) := AddToCode(c.framing.status, DigitValue(b));
      if ok then Take(c.(framing := c.framing.(status := code)), Line(next)) else Error(c, 13)
  }

  predicate KnownVersion(major: nat, minor: nat) {
    (major == 0 && minor == 9) || (major == 1 && minor <= 1) || (major == 2 && minor == 0)
  }

  predicate InVersion(line: LineState) {
    line.ProtocolStart? || line.Protocol? || line.AfterProtocol? || line.VersionStart? || line.Major? || line.Dot?
    || line.Minor?
  }

  function VersionStep(c: Core, b: byte): Effect
    requires c.state.Line?
  {
    match c.state.line
    case ProtocolStart => OpenThen(c, ProtocolSpan, Line(Protocol))
    case Protocol =>
      if b == 'H' as int then Take(c, Line(Http))
      else if b == 'I' as int then Take(c, Line(Ice))
      else if b == 'R' as int then Take(c, Line(Rtsp))
      else ErrorShut(c, 8)
    case AfterProtocol => if b == '/' as int then Take(c, Line(VersionStart)) else Error(c, 8)
    case VersionStart => OpenThen(c, VersionSpan, Line(Major))
    case Major =>
      if Digit(b) then Take(c.(framing := c.framing.(major := DigitValue(b))), Line(Dot)) else ErrorShut(c, 9)
    case Dot => if b == '.' as int then Take(c, Line(Minor)) else ErrorShut(c, 9)
    case _ =>
      if !Digit(b) then ErrorShut(c, 9)
      else
        var c' := c.(framing := c.framing.(minor := DigitValue(b)));
        if KnownVersion(c'.framing.major, c'.framing.minor)
        then TakeShut(Goto(c', Line(AfterVersion)), [VersionComplete])
        else TakeShut(Fail(c', 9), [])
  }

  function StatusStep(c: Core, b: byte): Effect
    requires c.state.Line?
  {
    match c.state.line
    case AfterVersion =>
      if b == SP then Take(c.(framing := c.framing.(status := 0)), Line(CodeDigit1)) else Error(c, 9)
    case CodeDigit1 => CodeDigit(c, b, CodeDigit2)
    case CodeDigit2 => CodeDigit(c, b, CodeDigit3)
    case CodeDigit3 => CodeDigit(c, b, CodeDone)
    case CodeDone =>
      if b == LF then TakeThen(Goto(c, Field(HeadersStart)), [StatusComplete])
      else if b == CR then Take(c, Line(LineAlmostDone))
      else if b == SP then Take(c, Line(TextStart))
      else Error(c, 13)
    case LineAlmostDone =>
      if b == LF then TakeThen(Goto(c, Field(HeadersStart)), [StatusComplete]) else Error(c, 2)
    case TextStart => OpenThen(c, StatusSpan, Line(Text))
    case _ =>
      if b == LF then ShutTake(Goto(c, Field(HeadersStart)), [StatusComplete])
      else if b == CR then ShutTake(Goto(c, Line(LineAlmostDone)), [])
      else Take(c, Line(Text))
  }

  function LineStep(c: Core, b: byte): Effect
    requires c.state.Line? && !Matching(c.state)
  {
    if InVersion(c.state.line) then VersionStep(c, b) else StatusStep(c, b)
  }

  // ---- Header names ------------------------------------------------------------------------

  // llhttp__after_message_complete and the restart
  function AfterMessage(c: Core): Core {
    var c' := c.(finish := Safe, framing := c.framing.(flags := NO_FLAGS));
    if ShouldKeepAlive(c.framing) then c'.(contentLength := 0, completedBefore := true, state := Start)
    else Goto(c', Closed)
  }

  // After on_message_complete, but for messages that cannot have a body
  function MessageDone(c: Core): Core {
    if c.framing.upgrade then Fail(c, 22) else AfterMessage(c)
  }

  // The end of the headers, or of the trailer of a chunked body.
  function HeadersDone(c: Core): (Core, seq<Call>) {
    if c.framing.flags.trailing then (MessageDone(c), [ChunkComplete, MessageComplete])
    else
      var c' := c.(framing := BeforeHeadersComplete(c.framing));
      match AfterHeadersComplete(c'.framing, c'.contentLength)
      case NoBody => (AfterMessage(c'), [HeadersComplete, MessageComplete])
      case OtherProtocol => (Fail(c', 22), [HeadersComplete, MessageComplete])
      case ChunkedBody => (c'.(contentLength := 0, state := Chunk(SizeFirst)), [HeadersComplete])
      case IdentityBody => (Goto(c', Body(IdentityStart)), [HeadersComplete])
      case EofBody => (c'.(finish := SafeWithCb, state := Body(UntilCloseStart)), [HeadersComplete])
  }

  function HeadersEnd(c: Core): Effect {
    var (c', calls) := HeadersDone(c);
    TakeThen(c', calls)
  }

  // After the colon: on_header_field_complete and the checks of the framing headers.
  function NameDone(c: Core): Effect {
    var c' :=
      if c.header.LengthHeader? && c.framing.flags.transferEncoding then Fail(c, 11)
      else if c.header.EncodingHeader? && c.framing.flags.contentLength then Fail(c, 15)
      else Goto(c, Value(DiscardWs));
    ShutTake(c', [NameComplete])
  }

  predicate InName(field: FieldState) {
    !field.HeadersStart? && !field.FieldStart? && !field.HeadersAlmostDone? && !field.NameStart?
  }

  // Between the lines of the headers
  function BetweenStep(c: Core, b: byte): Effect
    requires c.state.Field?
  {
    match c.state.field
    case HeadersStart => if b == SP then Error(c, 30) else Pass(c, Field(FieldStart))
    case FieldStart =>
      if b == LF then HeadersEnd(c)
      else if b == CR then Take(c, Field(HeadersAlmostDone))
      else if b == ':' as int then Error(c, 10)
      else Pass(c, Field(NameStart))
    case HeadersAlmostDone => if b == LF then HeadersEnd(c) else Error(c, 2)
    case _ => OpenThen(c, NameSpan, Field(Name))
  }

  function NameStep(c: Core, b: byte): Effect
    requires c.state.Field?
  {
    match c.state.field
    case Name =>
      var lower := ToLower(b);
      if lower == 'c' as int then Take(c, Field(Co))
      else if lower == 'p' as int then Take(c, Field(ProxyConnection))
      else if lower == 't' as int then Take(c, Field(TransferEncoding))
      else if lower == 'u' as int then Take(c, Field(Upgrade))
      else Pass(c.(header := GeneralHeader), Field(General))
    case Con =>
      var lower := ToLower(b);
      if lower == 'n' as int then Take(c, Field(Connection))
      else if lower == 't' as int then Take(c, Field(ContentLength))
      else Pass(c.(header := GeneralHeader), Field(General))
    case Colon =>
      if b == SP then ErrorShut(c, 10)
      else if b == ':' as int then NameDone(c)
      else Pass(c.(header := GeneralHeader), Field(General))
    case General => if TokenChar(b) then Take(c, Field(General)) else Pass(c, Field(GeneralEnd))
    case _ => if b == ':' as int then NameDone(c) else Error(c, 10)
  }

  function FieldStep(c: Core, b: byte): Effect
    requires c.state.Field? && !Matching(c.state)
  {
    if InName(c.state.field) then NameStep(c, b) else BetweenStep(c, b)
  }

  // ---- Header values -----------------------------------------------------------------------

  function WithFlags(c: Core, flags: Flags): Core {
    c.(framing := c.framing.(flags := flags))
  }

  // The Connection options and the chunked coding take effect where an element ends.
  function NoteElement(c: Core): Core {
    var flags := c.framing.flags;
    match c.header
    case KeepAliveSeen => WithFlags(c, flags.(keepAlive := true)).(header := ConnectionHeader)
    case CloseSeen => WithFlags(c, flags.(close := true)).(header := ConnectionHeader)
    case UpgradeSeen => WithFlags(c, flags.(connUpgrade := true)).(header := ConnectionHeader)
    case ChunkedSeen => WithFlags(c, flags.(chunked := true))
    case _ => c
  }

  // The first byte of a value decides how it is read.
  function ValueBegins(c: Core): Core {
    var flags := c.framing.flags;
    match c.header
    case ConnectionHeader => Goto(c, Value(Options))
    case LengthHeader => if flags.contentLength then Fail(c, 4) else Goto(c, Value(Length))
    case EncodingHeader => Goto(WithFlags(c, flags.(transferEncoding := true, chunked := false)), Value(Chunked))
    case UpgradeHeader => Goto(WithFlags(c, flags.(upgrade := true)).(header := GeneralHeader), Value(Plain))
    case _ => Goto(c, Value(Plain))
  }

  // mul_add_content_length_1 on a 64-bit field
  const MAX_LENGTH: nat := 0xffff_ffff_ffff_ffff

  function AddToLength(length: nat, base: nat, digit: nat): (r: (nat, bool))
    requires base > 0
    ensures length <= MAX_LENGTH ==> r.0 <= MAX_LENGTH
  {
    if length > MAX_LENGTH / base then (length, false)
    else if length * base > MAX_LENGTH - digit then (length * base, false)
    else (length * base + digit, true)
  }

  // Around the text of a value
  function EdgeStep(c: Core, b: byte): Effect
    requires c.state.Value?
  {
    match c.state.value
    case DiscardWs =>
      if b == HT || b == SP then Take(c, Value(DiscardWs))
      else if b == LF then Take(c, Value(DiscardLws))
      else if b == CR then Take(c, Value(DiscardWsAlmostDone))
      else Pass(c, Value(ValueStart))
    case DiscardWsAlmostDone => if b == LF then Take(c, Value(DiscardLws)) else Error(c, 2)
    case DiscardLws =>
      if b == HT || b == SP then Error(c, 10)
      else if c.header.LengthHeader? then Error(c, 11)
      else if c.header.EncodingHeader? then Error(c, 15)
      else Pass(NoteElement(c), Value(EmptyValue))
    case EmptyValue => Effect(Goto(c, Field(FieldStart)), Some(ValueSpan), true, [ValueComplete], false, false, [])
    case ValueStart => Effect(ValueBegins(c), Some(ValueSpan), false, [], false, false, [])
    case Plain => if ValueChar(b) then Take(c, Value(Plain)) else Pass(c, Value(ValueEnd))
    case ValueEnd =>
      if b == LF then ShutPass(Goto(c, Value(ValueAlmostDone)), [])
      else if b == CR then ShutTake(Goto(c, Value(ValueAlmostDone)), [])
      else ErrorShut(c, 10)
    case ValueAlmostDone => if b == LF then Take(c, Value(Lws)) else Error(c, 3)
    case _ =>
      if b == HT || b == SP then Error(c, 10)
      else PassAfter(Goto(NoteElement(c), Field(FieldStart)), [ValueComplete])
  }

  predicate InOptions(value: ValueState) {
    value.Options? || value.OptionEnd? || value.OptionToken?
  }

  // The options of a Connection header
  function OptionStep(c: Core, b: byte): Effect
    requires c.state.Value?
  {
    match c.state.value
    case Options =>
      var lower := ToLower(b);
      if b == HT || b == SP then Take(c, Value(Options))
      else if lower == 'c' as int then Take(c, Value(Close))
      else if lower == 'k' as int then Take(c, Value(KeepAlive))
      else if lower == 'u' as int then Take(c, Value(UpgradeOption))
      else Pass(c, Value(OptionToken))
    case OptionEnd =>
      if b == HT || b == SP then Take(c, Value(OptionEnd))
      else if b == LF || b == CR then Pass(c, Value(ValueEnd))
      else if b == ',' as int then Take(NoteElement(c), Value(Options))
      else Pass(c.(header := GeneralHeader), Value(OptionToken))
    case _ =>
      if ListChar(b) then Take(c, Value(OptionToken))
      else if b == ',' as int then Take(c, Value(Options))
      else Pass(c, Value(ValueEnd))
  }

  predicate InFraming(value: ValueState) {
    value.Length? || value.LengthWs? || value.ChunkedLast? || value.Coding? || value.CodingOws?
  }

  // The values of Content-Length and Transfer-Encoding
  function FramingStep(c: Core, b: byte): Effect
    requires c.state.Value?
  {
    match c.state.value
    case Length =>
      if !Digit(b) then Pass(c, Value(LengthWs))
      else
        var (length, ok) := AddToLength(c.contentLength, 10, DigitValue(b));
        if ok then Take(c.(contentLength := length), Value(Length)) else TakeShut(Fail(c, 11), [])
    case LengthWs =>
      if b == HT || b == SP then Take(c, Value(LengthWs))
      else if b == LF || b == CR then
        Pass(WithFlags(c, c.framing.flags.(contentLength := true)), Value(ValueEnd))
      else ErrorShut(c, 11)
    case ChunkedLast =>
      if b == LF || b == CR then Pass(c.(header := ChunkedSeen), Value(ValueEnd))
      else if b == SP then Take(c, Value(ChunkedLast))
      else if b == ',' as int then Pass(c, Value(Chunked))
      else Pass(c, Value(Coding))
    case Coding =>
      if ListChar(b) then Take(c, Value(Coding))
      else if b == ',' as int then Take(c, Value(CodingOws))
      else Pass(c.(header := GeneralHeader), Value(Plain))
    case _ => if b == HT || b == SP then Take(c, Value(CodingOws)) else Pass(c, Value(Chunked))
  }

  function ValueStep(c: Core, b: byte): Effect
    requires c.state.Value? && !Matching(c.state)
  {
    if InOptions(c.state.value) then OptionStep(c, b)
    else if InFraming(c.state.value) then FramingStep(c, b)
    else EdgeStep(c, b)
  }

  // ---- Chunks ------------------------------------------------------------------------------

  // on_chunk_header, then the data or, for a chunk of size 0, the trailer.
  function SizeDone(c: Core): Effect {
    var call := ChunkHeader(c.contentLength);
    if c.contentLength == 0 then
      TakeThen(Goto(WithFlags(c, c.framing.flags.(trailing := true)), Field(FieldStart)), [call])
    else TakeThen(Goto(c, Chunk(DataStart)), [call])
  }

  function SizeDigit(c: Core, b: byte): Effect
    requires HexDigit(b)
  {
    var (length, ok) := AddToLength(c.contentLength, 16, HexValue(b));
    if ok then Take(c.(contentLength := length), Chunk(Size)) else Error(c, 12)
  }

  predicate InSizes(chunk: ChunkState) {
    chunk.SizeFirst? || chunk.Size? || chunk.SizeEnd? || chunk.SizeAlmostDone? || chunk.DataStart?
    || chunk.DataAlmostDone? || chunk.DataAlmostDoneLf?
  }

  function ChunkStep(c: Core, b: byte): Effect
    requires c.state.Chunk? && !c.state.chunk.Content?
  {
    match c.state.chunk
    case SizeFirst => if HexDigit(b) then SizeDigit(c, b) else Error(c, 12)
    case Size => if HexDigit(b) then SizeDigit(c, b) else Pass(c, Chunk(SizeEnd))
    case SizeEnd =>
      if b == CR || b == LF then Take(c, Chunk(SizeAlmostDone))
      else if b == ';' as int then Take(c, Chunk(Extension))
      else Error(c, 12)
    case SizeAlmostDone => if b == LF then SizeDone(c) else Error(c, 2)
    case DataStart => OpenThen(c, BodySpan, Chunk(Content))
    case DataAlmostDone =>
      if b == LF then TakeThen(c.(contentLength := 0, state := Chunk(SizeFirst)), [ChunkComplete])
      else if b == CR then Take(c, Chunk(DataAlmostDoneLf))
      else Error(c, 2)
    case DataAlmostDoneLf =>
      if b == LF then TakeThen(c.(contentLength := 0, state := Chunk(SizeFirst)), [ChunkComplete])
      else Error(c, 2)
    case _ => ExtensionStep(c, b)
  }

  predicate InQuotes(chunk: ChunkState) {
    chunk.ExtQuoted? || chunk.ExtPair? || chunk.ExtQuotedEnd?
  }

  // Quoted values of chunk extensions
  function QuotedStep(c: Core, b: byte): Effect
    requires c.state.Chunk?
  {
    match c.state.chunk
    case ExtQuoted =>
      if QuotedChar(b) then Take(c, Chunk(ExtQuoted))
      else if b == '"' as int then TakeShut(Goto(c, Chunk(ExtQuotedEnd)), [ExtValueComplete])
      else if b == '\\' as int then Take(c, Chunk(ExtPair))
      else ErrorShut(c, 2)
    case ExtPair => if ValueChar(b) then Take(c, Chunk(ExtQuoted)) else ErrorShut(c, 2)
    case _ =>
      if b == LF then Pass(c, Chunk(SizeAlmostDone))
      else if b == CR then Take(c, Chunk(SizeAlmostDone))
      else if b == ';' as int then Take(c, Chunk(Extension))
      else Error(c, 2)
  }

  // Chunk extensions
  function ExtensionStep(c: Core, b: byte): Effect
    requires c.state.Chunk?
  {
    match c.state.chunk
    case Extension => if b == CR || b == SP then Error(c, 2) else Pass(c, Chunk(ExtNameStart))
    case ExtNameStart => OpenThen(c, ExtNameSpan, Chunk(ExtName))
    case ExtName =>
      if TokenChar(b) then Take(c, Chunk(ExtName))
      else if b == LF then ShutPass(Goto(c, Chunk(SizeAlmostDone)), [ExtNameComplete])
      else if b == CR then ShutTake(Goto(c, Chunk(SizeAlmostDone)), [ExtNameComplete])
      else if b == ';' as int then ShutTake(Goto(c, Chunk(Extension)), [ExtNameComplete])
      else if b == '=' as int then ShutTake(Goto(c, Chunk(ExtValueStart)), [])
      else ErrorShut(c, 2)
    case ExtValueStart =>
      Effect(Goto(c, Chunk(ExtValue)), Some(ExtValueSpan), false, [ExtNameComplete], false, false, [])
    case ExtValue =>
      if TokenChar(b) then Take(c, Chunk(ExtValue))
      else if b == '"' as int then Take(c, Chunk(ExtQuoted))
      else if b == LF then ShutPass(Goto(c, Chunk(SizeAlmostDone)), [ExtValueComplete])
      else if b == CR then ShutTake(Goto(c, Chunk(SizeAlmostDone)), [ExtValueComplete])
      else if b == ';' as int then ShutTake(Goto(c, Chunk(Extension)), [ExtValueComplete])
      else ErrorShut(c, 2)
    case _ => QuotedStep(c, b)
  }

  // ---- Bodies ------------------------------------------------------------------------------

  predicate Consuming(state: State) {
    (state.Chunk? && state.chunk.Content?) || (state.Body? && state.body.Identity?)
  }

  // One byte of consume_content_length
  function ConsumeStep(c: Core): Effect
    requires Consuming(c.state)
  {
    if c.contentLength > 1 then TakeThen(c.(contentLength := c.contentLength - 1), [])
    else ConsumeDone(c.(contentLength := 0))
  }

  function ConsumeDone(c: Core): Effect {
    if c.state.Chunk? then TakeShut(Goto(c, Chunk(DataAlmostDone)), [])
    else TakeShut(MessageDone(c), [MessageComplete])
  }

  function BodyStep(c: Core): Effect
    requires c.state.Body? && !c.state.body.Identity?
  {
    match c.state.body
    case IdentityStart => OpenThen(c, BodySpan, Body(Identity))
    case UntilCloseStart => OpenThen(c, BodySpan, Body(UntilClose))
    case _ => Take(c, Body(UntilClose))
  }

  // ---- One look at a byte ------------------------------------------------------------------

  function StartStep(c: Core, b: byte): Effect {
    if b == CR || b == LF then Take(c, Start)
    else PassAfter(c.(finish := Unsafe, state := Line(ProtocolStart)),
                   if c.completedBefore then [Reset, MessageBegin] else [MessageBegin])
  }

  function Look(c: Core, b: byte): Effect {
    if Matching(c.state) then MatchStep(c, b)
    else if Consuming(c.state) then ConsumeStep(c)
    else
      match c.state
      case Start => StartStep(c, b)
      case Closed => if b == CR || b == LF then Take(c, Closed) else Error(c, 5)
      case Failed => TakeThen(c, [])
      case Line(_) => LineStep(c, b)
      case Field(_) => FieldStep(c, b)
      case Value(_) => ValueStep(c, b)
      case Chunk(_) => ChunkStep(c, b)
      case Body(_) => BodyStep(c)
  }
}
