/**
 The lengths of bodies: the response parser accepts one exactly when it fits the 64 bits kept for it, and a
 body of a given length is handed out exactly.
 */
module ResponseBodies {
  import opened Basics
  import opened FramingRules
  import opened ResponseStates
  import opened ResponseFold

  // ---- Numbers -----------------------------------------------------------------------------

  predicate Decimal(digits: seq<byte>) {
    forall i :: 0 <= i < |digits| ==> Digit(digits[i])
  }

  predicate Hexadecimal(digits: seq<byte>) {
    forall i :: 0 <= i < |digits| ==> HexDigit(digits[i])
  }

  // The number that digits denote when they follow the number v.
  function DecimalAfter(v: nat, digits: seq<byte>): (r: nat)
    requires Decimal(digits)
    ensures v <= r
    decreases |digits|
  {
    if digits == [] then v else DecimalAfter(10 * v + DigitValue(digits[0]), digits[1..])
  }

  function HexAfter(v: nat, digits: seq<byte>): (r: nat)
    requires Hexadecimal(digits)
    ensures v <= r
    decreases |digits|
  {
    if digits == [] then v else HexAfter(16 * v + HexValue(digits[0]), digits[1..])
  }

  // The overflow checks of mul_add_content_length are exact.
  lemma AddHexExact(length: nat, digit: nat)
    requires digit < 16
    ensures AddToLength(length, 16, digit)
         == if 16 * length + digit <= MAX_LENGTH then (16 * length + digit, true) else (length, false)
  {
  }

  lemma AddDecimalExact(length: nat, digit: nat)
    requires digit < 10
    ensures AddToLength(length, 10, digit)
         == if 10 * length + digit <= MAX_LENGTH then (10 * length + digit, true)
            else (if 10 * length <= MAX_LENGTH then 10 * length else length, false)
  {
  }

  lemma SizeDigitLooks(p: Parser, b: byte)
    requires p.core.error == 0 && p.span == None && HexDigit(b)
    requires p.core.state == Chunk(Size) || p.core.state == Chunk(SizeFirst)
    ensures var e, size := Look(p.core, b), 16 * p.core.contentLength + HexValue(b);
      && Shown(p, b, e) == []
      && if size <= MAX_LENGTH
         then e.consumed && After(p, e) == p.(core := p.core.(state := Chunk(Size), contentLength := size))
         else !e.consumed && After(p, e).core.error == 12
  {
    AddHexExact(p.core.contentLength, HexValue(b));
  }

  // A chunk size is accepted exactly when it is below 2^64, and is then the number the digits denote.
  lemma {:induction false} ChunkSizeLaw(p: Parser, digits: seq<byte>)
    requires Ok(p) && p.core.error == 0 && p.span == None && Hexadecimal(digits)
    requires p.core.state == Chunk(Size) || (p.core.state == Chunk(SizeFirst) && digits != [])
    ensures var size := HexAfter(p.core.contentLength, digits);
      if size <= MAX_LENGTH
      then Parsed(p, digits) == (p.(core := p.core.(state := Chunk(Size), contentLength := size)), [])
      else Parsed(p, digits).0.core.error == 12
    decreases |digits|
  {
    hide Parsed, SizeDigit;
    if digits != [] {
      ParsedLook(p, digits);
      assert HexDigit(digits[0]);
      SizeDigitLooks(p, digits[0]);
      var p' := After(p, Look(p.core, digits[0]));
      AfterOk(p, digits[0]);
      if p'.core.error == 0 {
        ChunkSizeLaw(p', digits[1..]);
      } else {
        FailedStays(p', digits);
      }
    } else {
      NoData(p);
    }
  }

  lemma FirstData(span: Option<Span>, data: seq<byte>)
    requires data != []
    ensures SpanData(span, data) == Consumed(span, data[0]) + SpanData(span, data[1..])
  {
  }

  lemma NoData(p: Parser)
    ensures Parsed(p, []) == (p, []) && SpanData(p.span, []) == []
  {
  }

  // So is the value of Content-Length.
  lemma {:induction false} ContentLengthLaw(p: Parser, digits: seq<byte>)
    requires Ok(p) && p.core.error == 0 && p.core.state == Value(Length) && Decimal(digits)
    ensures var length := DecimalAfter(p.core.contentLength, digits);
      if length <= MAX_LENGTH
      then Parsed(p, digits) == (p.(core := p.core.(contentLength := length)), SpanData(p.span, digits))
      else Parsed(p, digits).0.core.error == 11
    decreases |digits|
  {
    hide Parsed, SpanData;
    if digits != [] {
      ParsedLook(p, digits);
      AddDecimalExact(p.core.contentLength, DigitValue(digits[0]));
      var e := Look(p.core, digits[0]);
      var p' := After(p, e);
      AfterOk(p, digits[0]);
      if p'.core.error == 0 {
        assert e == TakeThen(e.core, []);
        ShownOnly(p, digits[0], e.core);
        FirstData(p.span, digits);
        ContentLengthLaw(p', digits[1..]);
      } else {
        FailedStays(p', digits[1..]);
      }
    } else {
      NoData(p);
    }
  }

  // ---- Small steps ------------------------------------------------------------------------

  lemma NoCalls(call: Call)
    ensures Calls([]) == [] && Calls([call]) == [Called(call)]
  {
  }

  lemma ParsedNothing(p: Parser)
    ensures Parsed(p, [LF][1..]) == (p, [])
  {
  }

  lemma TwoCalls(a: Call, b: Call)
    ensures Calls([a, b]) == [Called(a), Called(b)]
  {
  }

  // A body whose length was given: exactly so many bytes, and then the message is complete.
  lemma IdentityRoundTrip(p: Parser, data: seq<byte>)
    requires Ok(p) && p.core.error == 0 && p.core.state == Body(IdentityStart) && |data| == p.core.contentLength
    ensures Parsed(p, data) == (Parser(MessageDone(p.core.(contentLength := 0, state := Body(Identity))), None),
                                SpanData(Some(BodySpan), data) + [Called(MessageComplete)])
  {
    var p' := Parser(Goto(p.core, Body(Identity)), Some(BodySpan));
    ParsedLook(p, data);
    assert Look(p.core, data[0]) == OpenThen(p.core, BodySpan, Body(Identity));
    assert Shown(p, data[0], Look(p.core, data[0])) == [];
    SkipAll(p', data);
    assert data[|data|..] == [] && data[..|data|] == data;
    hide Look, SpanData, MessageDone;
    NoCalls(MessageComplete);
    assert [] + (SpanData(p'.span, data) + [Called(MessageComplete)] + [])
        == SpanData(p'.span, data) + [Called(MessageComplete)];
  }
}
