/**
 Chunked bodies.  The parser undoes their encoding as section 4.1 of RFC 7230 prints it, and also with a
 bare line feed after the data of a chunk and after the trailer.  After the size of a chunk a bare line feed
 is not enough, although the option to leave out the CR is set.
 */
module ResponseChunks {
  import opened Basics
  import opened FramingRules
  import opened ResponseStates
  import opened ResponseFold
  import opened ResponseBodies

  // A chunk: its size in hexadecimal digits and its data
  datatype Piece = Piece(size: seq<byte>, data: seq<byte>)

  predicate SizeIs(size: seq<byte>, n: nat) {
    size != [] && Hexadecimal(size) && HexAfter(0, size) == n <= MAX_LENGTH
  }

  predicate PieceOk(piece: Piece) {
    SizeIs(piece.size, |piece.data|) && piece.data != []
  }

  const CRLF: seq<byte> := [CR, LF]

  predicate LineEnd(end: seq<byte>) {
    end == CRLF || end == [LF]
  }

  // A chunk as it is sent, with the line ends after its size and after its data
  datatype Sent = Sent(piece: Piece, sizeEnd: seq<byte>, dataEnd: seq<byte>)

  predicate SentOk(sent: Sent) {
    PieceOk(sent.piece) && LineEnd(sent.sizeEnd) && LineEnd(sent.dataEnd)
  }

  function Printed(sent: Sent): seq<byte> {
    sent.piece.size + (sent.sizeEnd + (sent.piece.data + sent.dataEnd))
  }

  function Reported(piece: Piece): seq<Out> {
    [Called(ChunkHeader(|piece.data|))] + SpanData(Some(BodySpan), piece.data) + [Called(ChunkComplete)]
  }

  // Where a chunk is expected
  predicate Expecting(p: Parser) {
    Ok(p) && p.core.error == 0 && p.core.state == Chunk(SizeFirst)
  }

  // ---- Line ends ---------------------------------------------------------------------------

  lemma SizeLooks(c: Core)
    requires c.state == Chunk(Size)
    ensures Look(c, CR) == Pass(c, Chunk(SizeEnd))
    ensures Look(Goto(c, Chunk(SizeEnd)), CR) == TakeThen(Goto(c, Chunk(SizeAlmostDone)), [])
    ensures Look(Goto(c, Chunk(SizeAlmostDone)), LF) == SizeDone(Goto(c, Chunk(SizeAlmostDone)))
  {
  }

  // The line end after the size of a chunk with data
  lemma AfterSize(p: Parser)
    requires p.core.state == Chunk(Size) && p.span == None && p.core.contentLength > 0
    ensures Parsed(p, CRLF)
         == (Parser(Goto(p.core, Chunk(DataStart)), None), [Called(ChunkHeader(p.core.contentLength))])
  {
    SizeLooks(p.core);
    hide Look, Parsed, Calls;
    var c := Goto(p.core, Chunk(SizeAlmostDone));
    Passed(p, CRLF, Chunk(SizeEnd));
    Taken(Parser(Goto(p.core, Chunk(SizeEnd)), None), CRLF, c, []);
    assert CRLF[1..] == [LF];
    Taken(Parser(c, None), [LF], Goto(p.core, Chunk(DataStart)), [ChunkHeader(p.core.contentLength)]);
    NoCalls(ChunkHeader(p.core.contentLength));
    ParsedNothing(Parser(Goto(p.core, Chunk(DataStart)), None));
    assert [] + ([Called(ChunkHeader(p.core.contentLength))] + []) == [Called(ChunkHeader(p.core.contentLength))];
  }

  // A bare line feed leads to where the line feed is still expected.
  lemma LfAfterSize(p: Parser)
    requires p.core.state == Chunk(Size) && p.span == None
    ensures Parsed(p, [LF]) == (Parser(Goto(p.core, Chunk(SizeAlmostDone)), None), [])
  {
    assert Look(p.core, LF) == Pass(p.core, Chunk(SizeEnd));
    assert Look(Goto(p.core, Chunk(SizeEnd)), LF) == TakeThen(Goto(p.core, Chunk(SizeAlmostDone)), []);
    hide Look, Parsed, Calls;
    Passed(p, [LF], Chunk(SizeEnd));
    Taken(Parser(Goto(p.core, Chunk(SizeEnd)), None), [LF], Goto(p.core, Chunk(SizeAlmostDone)), []);
    ParsedNothing(Parser(Goto(p.core, Chunk(SizeAlmostDone)), None));
    NoCalls(ChunkComplete);
    Unchanged([]);
  }

  lemma Unchanged(outs: seq<Out>)
    ensures outs + [] == outs == [] + outs
  {
  }

  // There only another line feed is accepted.
  lemma AnotherLf(p: Parser, b: byte)
    requires p.core.error == 0 && p.core.state == Chunk(SizeAlmostDone) && p.span == None
    ensures b != LF ==> Parsed(p, [b]).0.core.error == 2 && Parsed(p, [b]).1 == []
    ensures b == LF ==>
      Parsed(p, [b]) == (Parser(SizeDone(p.core).core, None), [Called(ChunkHeader(p.core.contentLength))])
  {
    if b == LF {
      assert Look(p.core, LF) == SizeDone(p.core);
      hide Look, Parsed, Calls;
      Taken(p, [LF], SizeDone(p.core).core, [ChunkHeader(p.core.contentLength)]);
      ParsedNothing(Parser(SizeDone(p.core).core, None));
      NoCalls(ChunkHeader(p.core.contentLength));
      Unchanged([Called(ChunkHeader(p.core.contentLength))]);
    } else {
      WrongByte(p, b, Error(p.core, 2));
    }
  }

  lemma WrongByte(p: Parser, b: byte, e: Effect)
    requires Look(p.core, b) == e == Error(p.core, 2)
    ensures Parsed(p, [b]).0.core.error == 2 && Parsed(p, [b]).1 == []
  {
    hide Look, Parsed;
    ParsedLook(p, [b]);
    FailedTake(After(p, e), b);
    assert Shown(p, b, e) == [];
  }

  lemma FailedTake(p: Parser, b: byte)
    requires p.core.state == Failed && p.span == None
    ensures Parsed(p, [b]) == (p, [])
  {
    assert Look(p.core, b) == TakeThen(p.core, []);
    hide Look, Parsed, Calls;
    Taken(p, [b], p.core, []);
    NoCalls(ChunkComplete);
    Ended(p, b);
    Unchanged([]);
  }

  lemma Ended(p: Parser, b: byte)
    ensures Parsed(p, [b][1..]) == (p, [])
  {
  }

  lemma DataOpens(p: Parser, b: byte)
    requires p.core.error == 0 && p.core.state == Chunk(DataStart) && p.span == None
    ensures var e := Look(p.core, b);
      && !e.consumed && Shown(p, b, e) == []
      && After(p, e) == Parser(Goto(p.core, Chunk(ChunkState.Content)), Some(BodySpan))
  {
  }

  lemma DataDone(c: Core)
    requires c.state == Chunk(ChunkState.Content) && c.contentLength == 0
    ensures ConsumeDone(c).core == Goto(c, Chunk(DataAlmostDone)) && Calls(ConsumeDone(c).after) == []
  {
  }

  // The data of a chunk
  lemma AfterHeader(p: Parser, data: seq<byte>)
    requires p.core.error == 0 && p.core.state == Chunk(DataStart) && p.span == None
        && 0 < |data| == p.core.contentLength
    ensures Parsed(p, data) == (Parser(p.core.(contentLength := 0, state := Chunk(DataAlmostDone)), None),
                                SpanData(Some(BodySpan), data))
  {
    hide Look, Parsed, SpanData, Shown, ConsumeDone, After;
    var p' := Parser(Goto(p.core, Chunk(ChunkState.Content)), Some(BodySpan));
    ParsedLook(p, data);
    DataOpens(p, data[0]);
    SkipAll(p', data);
    var c := p'.core.(contentLength := 0);
    DataDone(c);
    assert data[|data|..] == [] && data[..|data|] == data;
    NoData(Parser(ConsumeDone(c).core, None));
    assert [] + (SpanData(p'.span, data) + [] + []) == SpanData(p'.span, data);
  }

  lemma DataLooks(c: Core)
    requires c.state == Chunk(DataAlmostDone)
    ensures Look(c, CR) == TakeThen(Goto(c, Chunk(DataAlmostDoneLf)), [])
    ensures Look(c, LF) == Look(Goto(c, Chunk(DataAlmostDoneLf)), LF)
         == TakeThen(c.(contentLength := 0, state := Chunk(SizeFirst)), [ChunkComplete])
  {
  }

  // The line end after the data
  lemma AfterData(p: Parser, end: seq<byte>)
    requires p.core.state == Chunk(DataAlmostDone) && p.span == None && LineEnd(end)
    ensures Parsed(p, end)
         == (Parser(p.core.(contentLength := 0, state := Chunk(SizeFirst)), None), [Called(ChunkComplete)])
  {
    DataLooks(p.core);
    hide Look, Parsed, Calls;
    var c, c' := Goto(p.core, Chunk(DataAlmostDoneLf)), p.core.(contentLength := 0, state := Chunk(SizeFirst));
    NoCalls(ChunkComplete);
    ParsedNothing(Parser(c', None));
    if end == CRLF {
      Taken(p, CRLF, c, []);
      assert CRLF[1..] == [LF];
      Taken(Parser(c, None), [LF], c', [ChunkComplete]);
      assert [] + ([Called(ChunkComplete)] + []) == [Called(ChunkComplete)];
    } else {
      Taken(p, [LF], c', [ChunkComplete]);
      Unchanged([Called(ChunkComplete)]);
    }
  }

  // ---- One chunk ---------------------------------------------------------------------------

  // What follows the size, once its line is done: the data and its line end
  lemma DecodeData(p: Parser, data: seq<byte>, end: seq<byte>)
    requires p.core.error == 0 && p.core.state == Chunk(DataStart) && p.span == None && LineEnd(end)
    requires 0 < |data| == p.core.contentLength
    ensures Parsed(p, data + end) == (Parser(p.core.(contentLength := 0, state := Chunk(SizeFirst)), None),
                                      SpanData(Some(BodySpan), data) + [Called(ChunkComplete)])
  {
    hide Parsed, SpanData;
    AfterHeader(p, data);
    AfterData(Parser(p.core.(contentLength := 0, state := Chunk(DataAlmostDone)), None), end);
    ParsedConcat(p, data, end);
  }

  lemma ExpectingIs(p: Parser)
    requires Expecting(p)
    ensures Ok(p) && p.core.error == 0 && p.core.state == Chunk(SizeFirst) && p.core.contentLength == 0
        && p.span == None
  {
  }

  // The parser after the digits of a size
  function Sized(p: Parser, size: nat): Parser {
    p.(core := p.core.(state := Chunk(Size), contentLength := size))
  }

  lemma AfterDigits(p: Parser, size: seq<byte>, n: nat)
    requires Expecting(p) && SizeIs(size, n)
    ensures Parsed(p, size) == (Sized(p, n), [])
  {
    hide Parsed, HexAfter, Expecting;
    ExpectingIs(p);
    ChunkSizeLaw(p, size);
  }

  // With CR LF after its size, the data of a chunk is reported and the next chunk is expected.
  lemma DecodeChunk(p: Parser, sent: Sent)
    requires Expecting(p) && SentOk(sent) && sent.sizeEnd == CRLF
    ensures Parsed(p, Printed(sent)) == (p, Reported(sent.piece))
  {
    hide Parsed, SpanData, Expecting, Hexadecimal, HexAfter;
    var piece, n := sent.piece, |sent.piece.data|;
    ExpectingIs(p);
    AfterDigits(p, piece.size, n);
    AfterSize(Sized(p, n));
    var p2 := Parser(Goto(Sized(p, n).core, Chunk(DataStart)), None);
    DecodeData(p2, piece.data, sent.dataEnd);
    ParsedConcat(p, piece.size, CRLF + (piece.data + sent.dataEnd));
    ParsedConcat(Sized(p, n), CRLF, piece.data + sent.dataEnd);
    assert Parser(p2.core.(contentLength := 0, state := Chunk(SizeFirst)), None) == p;
    var header, data := [Called(ChunkHeader(n))], SpanData(Some(BodySpan), piece.data);
    assert [] + (header + (data + [Called(ChunkComplete)])) == header + data + [Called(ChunkComplete)];
  }

  // ---- A bare line feed after the size -----------------------------------------------------

  // The chunk whose data has lost its first byte and taken in the CR behind it
  function Shifted(piece: Piece): Piece
    requires piece.data != []
  {
    Piece(piece.size, piece.data[1..] + [CR])
  }

  lemma {:induction false} ShiftShows(data: seq<byte>)
    requires data != [] && data[0] == LF
    ensures data[1..] + [CR] != data
    decreases |data|
  {
    if |data| > 1 && data[1..] + [CR] == data {
      var t := data[1..];
      assert t[0] == (data[1..] + [CR])[0] == data[0] == LF;
      assert t[1..] + [CR] == (data[1..] + [CR])[1..] == data[1..] == t;
      ShiftShows(t);
    }
  }

  // The parser after the size line with the bare line feed, and after one more
  function Awaiting(p: Parser, size: nat): Parser {
    Parser(p.core.(state := Chunk(SizeAlmostDone), contentLength := size), None)
  }

  lemma AfterSizeLf(p: Parser, size: seq<byte>, n: nat)
    requires Expecting(p) && SizeIs(size, n)
    ensures Parsed(p, size + [LF]) == (Awaiting(p, n), [])
  {
    hide Parsed, Expecting, SizeIs;
    ExpectingIs(p);
    AfterDigits(p, size, n);
    LfAfterSize(Sized(p, n));
    ParsedConcat(p, size, [LF]);
    Unchanged([]);
  }

  // Any other byte than a line feed is an error.
  lemma LfIsError(p: Parser, size: seq<byte>, n: nat, rest: seq<byte>)
    requires Expecting(p) && SizeIs(size, n) && rest != [] && rest[0] != LF
    ensures Parsed(p, size + ([LF] + rest)).0.core.error == 2 && Parsed(p, size + ([LF] + rest)).1 == []
  {
    hide Parsed, Expecting, SizeIs, Ok;
    ExpectingIs(p);
    AfterSizeLf(p, size, n);
    AnotherLf(Awaiting(p, n), rest[0]);
    ParsedOk(p, size + [LF]);
    WrongStays(Awaiting(p, n), rest);
    ParsedConcat(p, size + [LF], rest);
    assert size + ([LF] + rest) == size + [LF] + rest;
  }

  // After an error the rest does not matter.
  lemma WrongStays(q: Parser, rest: seq<byte>)
    requires Ok(q) && rest != [] && Parsed(q, [rest[0]]).0.core.error == 2 && Parsed(q, [rest[0]]).1 == []
    ensures Parsed(q, rest).0.core.error == 2 && Parsed(q, rest).1 == []
  {
    hide Parsed, Ok;
    ParsedConcat(q, [rest[0]], rest[1..]);
    assert [rest[0]] + rest[1..] == rest;
    ParsedOk(q, [rest[0]]);
    FailedStays(Parsed(q, [rest[0]]).0, rest[1..]);
  }

  // Otherwise that line feed ends the size line, and the data starts behind it.
  lemma LfIsTaken(p: Parser, size: seq<byte>, n: nat, rest: seq<byte>)
    requires Expecting(p) && SizeIs(size, n)
    ensures var p' := Parser(SizeDone(Awaiting(p, n).core).core, None);
      Parsed(p, size + ([LF] + ([LF] + rest))) == (Parsed(p', rest).0, [Called(ChunkHeader(n))] + Parsed(p', rest).1)
  {
    hide Parsed, Expecting, SizeIs, SizeDone;
    AfterSizeLf(p, size, n);
    ExpectingIs(p);
    AnotherLf(Awaiting(p, n), LF);
    ParsedConcat(p, size + [LF], [LF] + rest);
    ParsedConcat(Awaiting(p, n), [LF], rest);
    var p' := Parser(SizeDone(Awaiting(p, n).core).core, None);
    Unchanged([Called(ChunkHeader(n))] + Parsed(p', rest).1);
    assert size + ([LF] + ([LF] + rest)) == size + [LF] + ([LF] + rest);
  }

  // Data that begins with a line feed is shifted by one byte, without an error.
  lemma LfShifts(p: Parser, piece: Piece)
    requires Expecting(p) && PieceOk(piece) && piece.data[0] == LF
    ensures Parsed(p, Printed(Sent(piece, [LF], CRLF))) == (p, Reported(Shifted(piece)))
  {
    hide Parsed, SpanData, Expecting, Hexadecimal, HexAfter;
    var n, data := |piece.data|, Shifted(piece).data;
    ExpectingIs(p);
    LfIsTaken(p, piece.size, n, data + [LF]);
    var p' := Parser(p.core.(state := Chunk(DataStart), contentLength := n), None);
    DecodeData(p', data, [LF]);
    assert piece.data == [LF] + piece.data[1..];
    assert piece.data + CRLF == [LF] + (data + [LF]);
    assert Parser(p'.core.(contentLength := 0, state := Chunk(SizeFirst)), None) == p;
    var header, shown := [Called(ChunkHeader(n))], SpanData(Some(BodySpan), data);
    assert header + (shown + [Called(ChunkComplete)]) == header + shown + [Called(ChunkComplete)];
  }

  // With a bare line feed after the data, too, the line end after the data is still to come.
  lemma LfLacks(p: Parser, piece: Piece)
    requires Expecting(p) && PieceOk(piece) && piece.data[0] == LF
    ensures Parsed(p, Printed(Sent(piece, [LF], [LF])))
         == (Parser(p.core.(state := Chunk(DataAlmostDone)), None),
             [Called(ChunkHeader(|piece.data|))] + SpanData(Some(BodySpan), piece.data[1..] + [LF]))
  {
    hide Parsed, SpanData, Expecting, Hexadecimal, HexAfter;
    var n, data := |piece.data|, piece.data[1..] + [LF];
    ExpectingIs(p);
    LfIsTaken(p, piece.size, n, data);
    var p' := Parser(p.core.(state := Chunk(DataStart), contentLength := n), None);
    AfterHeader(p', data);
    assert piece.data == [LF] + piece.data[1..];
    assert piece.data + [LF] == [LF] + data;
  }

  // So a chunk is decoded if and only if its size ends with CR LF.
  lemma ChunkDecodes(p: Parser, sent: Sent)
    requires Expecting(p) && SentOk(sent)
    ensures Parsed(p, Printed(sent)) == (p, Reported(sent.piece)) <==> sent.sizeEnd == CRLF
  {
    hide Parsed, SpanData, Expecting, Hexadecimal, HexAfter;
    var piece := sent.piece;
    ExpectingIs(p);
    if sent.sizeEnd == CRLF {
      DecodeChunk(p, sent);
    } else if piece.data[0] != LF {
      LfIsError(p, piece.size, |piece.data|, piece.data + sent.dataEnd);
    } else if sent.dataEnd == CRLF {
      LfShifts(p, piece);
      ShiftShows(piece.data);
      Unchanged(Reported(piece));
      Unchanged(Reported(Shifted(piece)));
      if Reported(piece) == Reported(Shifted(piece)) {
        ReportsDiffer(piece, Shifted(piece), [], []);
      }
    } else {
      LfLacks(p, piece);
    }
  }

  // Different data of the same length shows, whatever follows.
  lemma ReportsDiffer(a: Piece, b: Piece, more: seq<Out>, others: seq<Out>)
    requires |a.data| == |b.data| && Reported(a) + more == Reported(b) + others
    ensures a.data == b.data
  {
    forall i | 0 <= i < |a.data| ensures a.data[i] == b.data[i] {
      assert (Reported(a) + more)[i + 1] == DataByte(BodySpan, a.data[i]);
      assert (Reported(b) + others)[i + 1] == DataByte(BodySpan, b.data[i]);
    }
  }

  // ---- The last chunk, without a trailer ---------------------------------------------------

  datatype Last = Last(zeros: seq<byte>, sizeEnd: seq<byte>, trailerEnd: seq<byte>)

  predicate LastOk(last: Last) {
    SizeIs(last.zeros, 0) && LineEnd(last.sizeEnd) && LineEnd(last.trailerEnd)
  }

  function LastPrinted(last: Last): seq<byte> {
    last.zeros + (last.sizeEnd + last.trailerEnd)
  }

  // The parser where a trailer may begin
  function Trailing(p: Parser): Parser {
    Parser(Goto(WithFlags(p.core, p.core.framing.flags.(trailing := true)), Field(FieldStart)), None)
  }

  // The parser after the body
  function Trailed(p: Parser): Parser {
    Parser(MessageDone(Trailing(p).core), None)
  }

  lemma LastSize(p: Parser)
    requires p.core.state == Chunk(Size) && p.span == None && p.core.contentLength == 0
    ensures Parsed(p, CRLF) == (Trailing(p), [Called(ChunkHeader(0))])
  {
    SizeLooks(p.core);
    hide Look, Parsed, Calls;
    var c := Goto(p.core, Chunk(SizeAlmostDone));
    Passed(p, CRLF, Chunk(SizeEnd));
    Taken(Parser(Goto(p.core, Chunk(SizeEnd)), None), CRLF, c, []);
    assert CRLF[1..] == [LF];
    Taken(Parser(c, None), [LF], Trailing(p).core, [ChunkHeader(0)]);
    NoCalls(ChunkHeader(0));
    ParsedNothing(Trailing(p));
    Unchanged([Called(ChunkHeader(0))]);
  }

  lemma TrailerLooks(c: Core)
    requires c.state == Field(FieldStart) && c.framing.flags.trailing
    ensures Look(c, CR) == TakeThen(Goto(c, Field(HeadersAlmostDone)), [])
    ensures Look(c, LF) == Look(Goto(c, Field(HeadersAlmostDone)), LF)
         == TakeThen(MessageDone(c), [ChunkComplete, MessageComplete])
  {
  }

  lemma AfterTrailer(p: Parser, end: seq<byte>)
    requires p.core.state == Field(FieldStart) && p.span == None && p.core.framing.flags.trailing && LineEnd(end)
    ensures Parsed(p, end) == (Parser(MessageDone(p.core), None), [Called(ChunkComplete), Called(MessageComplete)])
  {
    TrailerLooks(p.core);
    hide Look, Parsed, Calls, MessageDone;
    var done, calls := MessageDone(p.core), [Called(ChunkComplete), Called(MessageComplete)];
    NoCalls(ChunkComplete);
    TwoCalls(ChunkComplete, MessageComplete);
    ParsedNothing(Parser(done, None));
    Unchanged(calls);
    if end == CRLF {
      Taken(p, CRLF, Goto(p.core, Field(HeadersAlmostDone)), []);
      assert CRLF[1..] == [LF];
      Taken(Parser(Goto(p.core, Field(HeadersAlmostDone)), None), [LF], done, [ChunkComplete, MessageComplete]);
    } else {
      Taken(p, [LF], done, [ChunkComplete, MessageComplete]);
    }
  }

  const LAST_REPORTED: seq<Out> := [Called(ChunkHeader(0)), Called(ChunkComplete), Called(MessageComplete)]

  lemma LastParts(p: Parser, last: Last)
    requires Expecting(p) && LastOk(last) && last.sizeEnd == CRLF
    ensures Parsed(p, last.zeros + CRLF) == (Trailing(p), [Called(ChunkHeader(0))])
  {
    hide Parsed, HexAfter, Expecting;
    ExpectingIs(p);
    AfterDigits(p, last.zeros, 0);
    LastSize(Sized(p, 0));
    ParsedConcat(p, last.zeros, CRLF);
    assert Trailing(Sized(p, 0)) == Trailing(p);
    Unchanged([Called(ChunkHeader(0))]);
  }

  lemma DecodeLast(p: Parser, last: Last)
    requires Expecting(p) && LastOk(last) && last.sizeEnd == CRLF
    ensures Parsed(p, LastPrinted(last)) == (Trailed(p), LAST_REPORTED)
  {
    hide Parsed, HexAfter, MessageDone, Expecting;
    LastParts(p, last);
    AfterTrailer(Trailing(p), last.trailerEnd);
    ParsedConcat(p, last.zeros + CRLF, last.trailerEnd);
    assert last.zeros + (CRLF + last.trailerEnd) == last.zeros + CRLF + last.trailerEnd;
    assert [Called(ChunkHeader(0))] + [Called(ChunkComplete), Called(MessageComplete)] == LAST_REPORTED;
  }

  lemma TrailedIs(p: Parser)
    requires Expecting(p)
    ensures Trailed(p).core.error != 2 && !Trailed(p).core.state.Field?
  {
  }

  // The last chunk, too, needs CR LF after its size.
  lemma LastDecodes(p: Parser, last: Last)
    requires Expecting(p) && LastOk(last)
    ensures Parsed(p, LastPrinted(last)) == (Trailed(p), LAST_REPORTED) <==> last.sizeEnd == CRLF
  {
    hide Parsed, HexAfter, MessageDone, Expecting, SizeIs;
    TrailedIs(p);
    if last.sizeEnd == CRLF {
      DecodeLast(p, last);
    } else if last.trailerEnd == CRLF {
      LfIsError(p, last.zeros, 0, CRLF);
    } else {
      LfIsTaken(p, last.zeros, 0, []);
      LastLacks(p);
    }
  }

  lemma LastLacks(p: Parser)
    ensures Parsed(Parser(SizeDone(Awaiting(p, 0).core).core, None), []).0.core.state == Field(FieldStart)
    ensures [LF] + [] == [LF]
  {
  }

  // ---- Bodies ------------------------------------------------------------------------------

  function AllPrinted(body: seq<Sent>, last: Last): seq<byte> {
    if body == [] then LastPrinted(last) else Printed(body[0]) + AllPrinted(body[1..], last)
  }

  function AllReported(body: seq<Sent>): seq<Out> {
    if body == [] then LAST_REPORTED else Reported(body[0].piece) + AllReported(body[1..])
  }

  predicate BodyOk(body: seq<Sent>, last: Last) {
    (forall sent :: sent in body ==> SentOk(sent)) && LastOk(last)
  }

  // Every size ends with CR LF.
  predicate Strict(body: seq<Sent>, last: Last) {
    (forall sent :: sent in body ==> sent.sizeEnd == CRLF) && last.sizeEnd == CRLF
  }

  lemma BodyTail(body: seq<Sent>, last: Last)
    requires BodyOk(body, last) && body != []
    ensures SentOk(body[0]) && BodyOk(body[1..], last)
    ensures Strict(body, last) <==> body[0].sizeEnd == CRLF && Strict(body[1..], last)
  {
    assert body == [body[0]] + body[1..];
  }

  lemma BodyStarts(body: seq<Sent>, last: Last)
    requires BodyOk(body, last)
    ensures AllPrinted(body, last) != [] && AllPrinted(body, last)[0] != CR && AllPrinted(body, last)[0] != LF
  {
    if body != [] {
      assert body[0] in body;
    }
  }

  // A size where the line end after the data is still to come
  lemma NoLineEnd(p: Parser, rest: seq<byte>)
    requires Ok(p) && p.core.error == 0 && p.core.state == Chunk(DataAlmostDone) && p.span == None
    requires rest != [] && rest[0] != CR && rest[0] != LF
    ensures Parsed(p, rest).0.core.error == 2
  {
    hide Parsed;
    WrongByte(p, rest[0], Error(p.core, 2));
    WrongStays(p, rest);
  }

  // A body whose first chunk has a bare line feed after its size
  lemma FirstIsWrong(p: Parser, sent: Sent, rest: seq<byte>, outs: seq<Out>)
    requires Expecting(p) && SentOk(sent) && sent.sizeEnd == [LF] && rest != [] && rest[0] != CR && rest[0] != LF
    ensures Parsed(p, Printed(sent) + rest) != (Trailed(p), Reported(sent.piece) + outs)
  {
    hide Parsed, Expecting, SizeIs, Reported, Trailed, SpanData, Ok;
    var piece := sent.piece;
    TrailedIs(p);
    ExpectingIs(p);
    ParsedConcat(p, Printed(sent), rest);
    if piece.data[0] != LF {
      LfIsError(p, piece.size, |piece.data|, piece.data + sent.dataEnd);
      ParsedOk(p, Printed(sent));
      FailedStays(Parsed(p, Printed(sent)).0, rest);
    } else if sent.dataEnd == CRLF {
      LfShifts(p, piece);
      ShiftShows(piece.data);
      if Reported(piece) + outs == Reported(Shifted(piece)) + Parsed(p, rest).1 {
        ReportsDiffer(piece, Shifted(piece), outs, Parsed(p, rest).1);
      }
    } else {
      LfLacks(p, piece);
      ParsedOk(p, Printed(sent));
      NoLineEnd(Parsed(p, Printed(sent)).0, rest);
    }
  }

  // For every body and whatever the line ends: exactly its chunks are reported, and the message is complete,
  // if and only if every size ends with CR LF.
  lemma {:induction false} BodyDecodes(p: Parser, body: seq<Sent>, last: Last)
    requires Expecting(p) && BodyOk(body, last)
    ensures Parsed(p, AllPrinted(body, last)) == (Trailed(p), AllReported(body)) <==> Strict(body, last)
    decreases |body|
  {
    hide Parsed, Expecting, SentOk, LastOk, Printed, LastPrinted, Reported, Trailed;
    if body == [] {
      LastDecodes(p, last);
    } else {
      var sent, rest := body[0], AllPrinted(body[1..], last);
      BodyTail(body, last);
      BodyStarts(body[1..], last);
      if sent.sizeEnd == CRLF {
        DecodeChunk(p, sent);
        ParsedConcat(p, Printed(sent), rest);
        BodyDecodes(p, body[1..], last);
        SamePrefix(Reported(sent.piece), Parsed(p, rest).1, AllReported(body[1..]));
      } else {
        EndIsLf(sent);
        FirstIsWrong(p, sent, rest, AllReported(body[1..]));
      }
    }
  }

  lemma EndIsLf(sent: Sent)
    requires SentOk(sent) && sent.sizeEnd != CRLF
    ensures sent.sizeEnd == [LF]
  {
  }

  lemma SamePrefix<T>(prefix: seq<T>, a: seq<T>, b: seq<T>)
    ensures prefix + a == prefix + b <==> a == b
  {
    assert (prefix + a)[|prefix|..] == a && (prefix + b)[|prefix|..] == b;
  }

  // ---- What the user gets ------------------------------------------------------------------

  function BodyOf(outs: seq<Out>): seq<byte> {
    if outs == [] then []
    else (match outs[0] case DataByte(BodySpan, b) => [b] case _ => []) + BodyOf(outs[1..])
  }

  lemma {:induction false} BodyOfConcat(a: seq<Out>, b: seq<Out>)
    ensures BodyOf(a + b) == BodyOf(a) + BodyOf(b)
  {
    if a == [] {
      assert a + b == b;
    } else {
      assert (a + b)[0] == a[0] && (a + b)[1..] == a[1..] + b;
      BodyOfConcat(a[1..], b);
    }
  }

  lemma {:induction false} BodyOfSpan(data: seq<byte>)
    ensures BodyOf(SpanData(Some(BodySpan), data)) == data
  {
    if data != [] {
      assert SpanData(Some(BodySpan), data)[1..] == SpanData(Some(BodySpan), data[1..]);
      BodyOfSpan(data[1..]);
      assert data == [data[0]] + data[1..];
    }
  }

  lemma BodyOfLast()
    ensures BodyOf(LAST_REPORTED) == []
  {
    assert LAST_REPORTED[1..] == [Called(ChunkComplete), Called(MessageComplete)];
    assert LAST_REPORTED[1..][1..] == [Called(MessageComplete)] && LAST_REPORTED[1..][1..][1..] == [];
  }

  function DataOf(body: seq<Sent>): seq<byte> {
    if body == [] then [] else body[0].piece.data + DataOf(body[1..])
  }

  lemma BodyOfPiece(piece: Piece)
    ensures BodyOf(Reported(piece)) == piece.data
  {
    var header, middle := [Called(ChunkHeader(|piece.data|))], SpanData(Some(BodySpan), piece.data);
    BodyOfSpan(piece.data);
    BodyOfConcat(header, middle);
    BodyOfConcat(header + middle, [Called(ChunkComplete)]);
  }

  lemma {:induction false} BodyOfChunks(body: seq<Sent>)
    ensures BodyOf(AllReported(body)) == DataOf(body)
    ensures var outs := AllReported(body);
      outs != [] && outs[|outs| - 1] == Called(MessageComplete) && Called(MessageComplete) !in outs[..|outs| - 1]
    decreases |body|
  {
    hide BodyOf, Reported;
    if body == [] {
      BodyOfLast();
      assert LAST_REPORTED[..2] == [Called(ChunkHeader(0)), Called(ChunkComplete)];
    } else {
      var rest := AllReported(body[1..]);
      BodyOfPiece(body[0].piece);
      NotComplete(body[0].piece);
      BodyOfConcat(Reported(body[0].piece), rest);
      BodyOfChunks(body[1..]);
      var outs := AllReported(body);
      assert outs[..|outs| - 1] == Reported(body[0].piece) + rest[..|rest| - 1];
    }
  }

  // Decoding undoes encoding: of a body printed in chunks exactly the data is handed out, and
  // on_message_complete runs once, last, at the last byte.  The line ends after the data of the chunks and
  // after the trailer may be CR LF or LF.
  lemma ChunkedRoundTrip(p: Parser, body: seq<Sent>, last: Last)
    requires Expecting(p) && BodyOk(body, last) && Strict(body, last)
    ensures var (q, outs) := Parsed(p, AllPrinted(body, last));
      && q == Trailed(p) && BodyOf(outs) == DataOf(body)
      && outs != [] && outs[|outs| - 1] == Called(MessageComplete) && Called(MessageComplete) !in outs[..|outs| - 1]
  {
    hide Parsed, Expecting, BodyOk, Strict, Trailed;
    BodyDecodes(p, body, last);
    BodyOfChunks(body);
  }

  // Up to the last line feed
  lemma BeforeLast(p: Parser, last: Last)
    requires Expecting(p) && LastOk(last) && last.sizeEnd == CRLF
    ensures var text := LastPrinted(last);
      && text != [] && text[|text| - 1] == LF && Parsed(p, text[..|text| - 1]).1 == [Called(ChunkHeader(0))]
  {
    hide Parsed, HexAfter, Expecting, Look, Calls;
    LastParts(p, last);
    var text := LastPrinted(last);
    if last.trailerEnd == CRLF {
      TrailerLooks(Trailing(p).core);
      assert [CR][1..] == [LF][1..];
      Taken(Trailing(p), [CR], Goto(Trailing(p).core, Field(HeadersAlmostDone)), []);
      NoCalls(MessageComplete);
      ParsedNothing(Parser(Goto(Trailing(p).core, Field(HeadersAlmostDone)), None));
      ParsedConcat(p, last.zeros + CRLF, [CR]);
      assert text[..|text| - 1] == last.zeros + CRLF + [CR];
      Unchanged([Called(ChunkHeader(0))]);
    } else {
      assert text[..|text| - 1] == last.zeros + CRLF;
    }
  }

  // Not before the last byte.
  lemma {:induction false} CompleteAtLastByte(p: Parser, body: seq<Sent>, last: Last)
    requires Expecting(p) && BodyOk(body, last) && Strict(body, last)
    ensures var text := AllPrinted(body, last);
      && text != [] && text[|text| - 1] == LF && Called(MessageComplete) !in Parsed(p, text[..|text| - 1]).1
    decreases |body|
  {
    hide Parsed, Expecting, SentOk, LastOk, Printed, LastPrinted;
    if body == [] {
      BeforeLast(p, last);
    } else {
      BodyTail(body, last);
      DecodeChunk(p, body[0]);
      CompleteAtLastByte(p, body[1..], last);
      var first, rest := Printed(body[0]), AllPrinted(body[1..], last);
      var text := AllPrinted(body, last);
      assert text[..|text| - 1] == first + rest[..|rest| - 1];
      ParsedConcat(p, first, rest[..|rest| - 1]);
      NotComplete(body[0].piece);
    }
  }

  lemma NotComplete(piece: Piece)
    ensures Called(MessageComplete) !in Reported(piece)
  {
  }

  // A chunk with a line feed as its data, sent with a bare line feed after its size: the parser hands out a
  // carriage return instead, and finds nothing wrong with the body.
  lemma OtherData(p: Parser)
    requires Expecting(p)
    ensures var text := ['1' as int, LF, LF, CR, LF] + ['0' as int, CR, LF, CR, LF];
      var sent, last := Sent(Piece(['1' as int], [LF]), [LF], CRLF), Last(['0' as int], CRLF, CRLF);
      && BodyOk([sent], last) && text == AllPrinted([sent], last)
      && Parsed(p, text).0 == Trailed(p) && BodyOf(Parsed(p, text).1) == [CR] && DataOf([sent]) == [LF]
  {
    hide Parsed, Expecting, Trailed;
    var piece, last := Piece(['1' as int], [LF]), Last(['0' as int], CRLF, CRLF);
    var sent := Sent(piece, [LF], CRLF);
    OneAndZero();
    assert [sent][1..] == [];
    assert Printed(sent) == ['1' as int, LF, LF, CR, LF] && LastPrinted(last) == ['0' as int, CR, LF, CR, LF];
    LfShifts(p, piece);
    DecodeLast(p, last);
    ParsedConcat(p, Printed(sent), LastPrinted(last));
    assert piece.data[1..] + [CR] == [CR];
    var shown := Sent(Shifted(piece), CRLF, CRLF);
    assert [shown][1..] == [];
    BodyOfChunks([shown]);
    assert AllReported([shown]) == Reported(Shifted(piece)) + LAST_REPORTED;
    assert DataOf([shown]) == [CR] + DataOf([]) && DataOf([sent]) == [LF] + DataOf([]);
  }

  lemma OneAndZero()
    ensures SizeIs(['1' as int], 1) && SizeIs(['0' as int], 0)
  {
    assert ['1' as int][1..] == [] && ['0' as int][1..] == [];
  }
}
