/**
 How the length of a response body is determined: deps/llhttp/http.c for responses.
 */
module FramingRules {

  datatype Finish = Safe | SafeWithCb | Unsafe

  // The flag bits of the parser.
  datatype Flags = Flags(keepAlive: bool, close: bool, connUpgrade: bool, chunked: bool, upgrade: bool,
                         contentLength: bool, skipBody: bool, trailing: bool, transferEncoding: bool)

  const NO_FLAGS: Flags := Flags(false, false, false, false, false, false, false, false, false)

  // The fields that decide about the body; the parser's method is never CONNECT for a response.
  datatype Framing = Framing(flags: Flags, status: nat, major: nat, minor: nat, upgrade: bool)

  const NO_FRAMING: Framing := Framing(NO_FLAGS, 0, 0, 0, false)

  datatype BodyKind = NoBody | OtherProtocol | ChunkedBody | IdentityBody | EofBody

  // llhttp__before_headers_complete
  function BeforeHeadersComplete(f: Framing): Framing {
    f.(upgrade := f.flags.upgrade && f.flags.connUpgrade && f.status == 101)
  }

  // llhttp__after_headers_complete; the value 5 is for requests only.
  function AfterHeadersComplete(f: Framing, contentLength: nat): BodyKind {
    var hasBody := f.flags.chunked || contentLength > 0;
    if (f.upgrade && (f.flags.skipBody || !hasBody)) || f.status == 101 then OtherProtocol
    else if f.status == 100 then NoBody
    else if f.flags.skipBody || f.status == 102 || f.status == 103 || f.status == 204 || f.status == 304 then NoBody
    else if f.flags.chunked then ChunkedBody
    else if f.flags.transferEncoding then EofBody
    else if !f.flags.contentLength then if MessageNeedsEof(f) then EofBody else NoBody
    else if contentLength == 0 then NoBody
    else IdentityBody
  }

  // llhttp_message_needs_eof
  predicate MessageNeedsEof(f: Framing) {
    if f.status / 100 == 1 || f.status == 204 || f.status == 304 || f.flags.skipBody then false
    else if f.flags.transferEncoding && !f.flags.chunked then true
    else !f.flags.chunked && !f.flags.contentLength
  }

  // llhttp_should_keep_alive
  predicate ShouldKeepAlive(f: Framing) {
    (if f.major > 0 && f.minor > 0 then !f.flags.close else f.flags.keepAlive) && !MessageNeedsEof(f)
  }
}
