/**
 The URL parser of src/url.c, for the generic syntax of section 3 of RFC 3986: its cursor loops refine
 a specification by first positions, and parsing undoes printing.
 */
module UrlParser {
  import opened Basics

  // ---- Character classes -------------------------------------------------------------------

  predicate IsAlpha(c: char) {
    'a' <= c <= 'z' || 'A' <= c <= 'Z'
  }

  predicate IsHexDigit(c: char) {
    IsDigit(c) || 'a' <= c <= 'f' || 'A' <= c <= 'F'
  }

  predicate IsHostChar(c: char) {
    IsAlpha(c) || IsDigit(c) || c == '.' || c == '-' || c == '_'
  }

  predicate IsIpv6Char(c: char) {
    IsHexDigit(c) || c == ':' || c == '.'
  }

  predicate IsUrlChar(c: char) {
    0x20 < c as int < 0x7f
  }

  // strchr finds the terminating zero as well.
  predicate IsUserinfoChar(c: char) {
    IsAlpha(c) || IsDigit(c) || c in "-_.!~*'()%;:&=+$," || c as int == 0
  }

  predicate InAuthority(c: char) {
    c != '/' && c != '?' && c != '#'
  }

  predicate InPath(c: char) {
    c != '?' && c != '#'
  }

  predicate NoHash(c: char) {
    c != '#'
  }

  predicate IsHash(c: char) {
    c == '#'
  }

  predicate NoColon(c: char) {
    c != ':'
  }

  predicate NoBracket(c: char) {
    c != ']'
  }

  predicate Anything(c: char) {
    true
  }

  predicate All(s: string, p: char -> bool) {
    forall i :: 0 <= i < |s| ==> p(s[i])
  }

  // ---- The result --------------------------------------------------------------------------

  datatype Name = Schema | Host | Port | Path | Query | Fragment | Userinfo

  datatype Field = Field(off: nat, len: nat)

  // field_set and field_data, and the converted port
  datatype Url = Url(fields: map<Name, Field>, port: nat)

  const EMPTY: Url := Url(map[], 0)

  const UINT16_MAX: nat := 65535

  // set(), with the conversion to 16 bits
  function Set(u: Url, name: Name, off: nat, len: nat): Url {
    u.(fields := u.fields[name := Field(off % 65536, len % 65536)])
  }

  function SetUnlessEmpty(u: Url, name: Name, off: nat, end: nat): Url
    requires off <= end
  {
    if end > off then Set(u, name, off, end - off) else u
  }

  // ---- The specification -------------------------------------------------------------------

  // The first position from i on, before `end`, that is not in the class; else `end`
  function Skip(s: string, i: nat, end: nat, p: char -> bool): (j: nat)
    requires i <= end <= |s|
    ensures i <= j <= end && (j < end ==> !p(s[j]))
    ensures All(s[i..j], p)
    decreases end - i
  {
    if i < end && p(s[i]) then
      var j := Skip(s, i + 1, end, p);
      assert s[i..j] == [s[i]] + s[i + 1..j];
      j
    else i
  }

  // The last '@' in a range
  function LastAt(s: string, i: nat, end: nat): (r: Option<nat>)
    requires i <= end <= |s|
    ensures r.Some? ==> i <= r.value < end && s[r.value] == '@'
    decreases end
  {
    if i == end then None else if s[end - 1] == '@' then Some(end - 1) else LastAt(s, i, end - 1)
  }

  function Number(digits: string): nat
    requires All(digits, IsDigit)
  {
    if digits == "" then 0
    else 10 * Number(digits[..|digits| - 1]) + (digits[|digits| - 1] as int - '0' as int)
  }

  // [/path][?query][#fragment]
  function ParsePath(s: string, start: nat, u: Url): Option<Url>
    requires start <= |s|
  {
    var i := Skip(s, start, |s|, InPath);
    if !All(s[start..i], IsUrlChar) then None
    else ParseQuery(s, i, SetUnlessEmpty(u, Path, start, i))
  }

  function ParseQuery(s: string, i: nat, u: Url): Option<Url>
    requires i <= |s|
  {
    if i < |s| && s[i] == '?' then
      var j := Skip(s, i + 1, |s|, NoHash);
      if !All(s[i + 1..j], IsUrlChar) then None else ParseFragment(s, j, SetUnlessEmpty(u, Query, i + 1, j))
    else ParseFragment(s, i, u)
  }

  function ParseFragment(s: string, i: nat, u: Url): Option<Url>
    requires i <= |s|
  {
    if i < |s| && s[i] == '#' then
      var j := Skip(s, i, |s|, IsHash);
      if !All(s[j..], IsUrlChar) then None else Some(SetUnlessEmpty(u, Fragment, j, |s|))
    else Some(u)
  }

  function ParsePort(s: string, hostEnd: nat, end: nat, u: Url): Option<Url>
    requires hostEnd <= end <= |s|
  {
    if hostEnd == end then ParsePath(s, end, u)
    else if s[hostEnd] != ':' || hostEnd + 1 == end then None
    else
      var digits := s[hostEnd + 1..end];
      if !All(digits, IsDigit) || Number(digits) > 65535 then None
      else ParsePath(s, end, Set(u, Port, hostEnd + 1, |digits|).(port := Number(digits)))
  }

  function ParseHost(s: string, h: nat, end: nat, u: Url): Option<Url>
    requires h <= end <= |s|
  {
    if h < end && s[h] == '[' then
      var close := Skip(s, h + 1, end, NoBracket);
      if !All(s[h + 1..close], IsIpv6Char) || close == end || close == h + 1 then None
      else ParsePort(s, close + 1, end, Set(u, Host, h + 1, close - h - 1))
    else
      var hostEnd := Skip(s, h, end, NoColon);
      if !All(s[h..hostEnd], IsHostChar) || hostEnd == h then None
      else ParsePort(s, hostEnd, end, Set(u, Host, h, hostEnd - h))
  }

  function ParseAuthority(s: string, auth: nat, u: Url): Option<Url>
    requires auth <= |s|
  {
    var end := Skip(s, auth, |s|, InAuthority);
    match LastAt(s, auth, end)
    case None => ParseHost(s, auth, end, u)
    case Some(at) =>
      if !All(s[auth..at], IsUserinfoChar) then None
      else ParseHost(s, at + 1, end, SetUnlessEmpty(u, Userinfo, auth, at))
  }

  function Parse(s: string): Option<Url> {
    if |s| > UINT16_MAX then None
    else if s == "" then Some(EMPTY)
    else if s[0] == '/' then ParsePath(s, 0, EMPTY)
    else
      var i := Skip(s, 0, |s|, IsAlpha);
      if i == 0 || |s| - i < 3 || s[i..i + 3] != "://" then None
      else ParseAuthority(s, i + 3, Set(EMPTY, Schema, 0, i))
  }

  // ---- The cursor loops --------------------------------------------------------------------

  // The first position that ends the loop is where Skip ends.
  lemma {:induction false} SkipIs(s: string, i: nat, end: nat, p: char -> bool, j: nat)
    requires i <= j <= end <= |s| && All(s[i..j], p) && (j < end ==> !p(s[j]))
    ensures Skip(s, i, end, p) == j
    decreases j - i
  {
    if i < j {
      assert s[i..j][0] == s[i] && s[i..j][1..] == s[i + 1..j];
      SkipIs(s, i + 1, end, p, j);
    }
  }

  // while (goes on) { if (!allowed) return 1; i++; }
  method Scan(s: string, start: nat, end: nat, goes: char -> bool, allowed: char -> bool) returns (ok: bool, i: nat)
    requires start <= end <= |s|
    ensures var j := Skip(s, start, end, goes); ok == All(s[start..j], allowed) && (ok ==> i == j)
  {
    i := start;
    ghost var j := Skip(s, start, end, goes);
    while i < end && goes(s[i])
      invariant start <= i <= end && All(s[start..i], goes) && All(s[start..i], allowed)
    {
      if !allowed(s[i]) {
        Reached(s, start, end, goes, i);
        assert s[start..j][i - start] == s[i];
        return false, i;
      }
      i := i + 1;
      assert s[start..i] == s[start..i - 1] + [s[i - 1]];
    }
    SkipIs(s, start, end, goes, i);
    ok := true;
  }

  // Skip does not stop within the class.
  lemma {:induction false} Reached(s: string, start: nat, end: nat, p: char -> bool, i: nat)
    requires start <= i < end <= |s| && All(s[start..i], p) && p(s[i])
    ensures i < Skip(s, start, end, p)
    decreases i - start
  {
    if start < i {
      assert s[start..i][0] == s[start] && s[start..i][1..] == s[start + 1..i];
      Reached(s, start + 1, end, p, i);
    }
  }

  // The loop that finds the last '@'
  method FindLastAt(s: string, auth: nat, end: nat) returns (at: nat)
    requires auth <= end <= |s|
    ensures LastAt(s, auth, end) == if at == end then None else Some(at)
    ensures auth <= at <= end
  {
    at := end;
    for k := auth to end
      invariant at == end || auth <= at < k
      invariant LastAt(s, auth, k) == if at == end then None else Some(at)
    {
      if s[k] == '@' {
        at := k;
      }
    }
  }

  lemma {:induction false} NumberGrows(digits: string, k: nat)
    requires All(digits, IsDigit) && k <= |digits|
    ensures All(digits[..k], IsDigit) && Number(digits[..k]) <= Number(digits)
    decreases |digits|
  {
    if k < |digits| {
      var most := digits[..|digits| - 1];
      assert most[..k] == digits[..k];
      assert Number(digits) >= 10 * Number(most) >= Number(most);
      NumberGrows(most, k);
    } else {
      assert digits[..k] == digits;
    }
  }

  // The loop over the port, which fails as soon as the value is too large
  method ScanPort(s: string, p: nat, end: nat) returns (ok: bool, port: nat)
    requires p <= end <= |s|
    ensures ok == (All(s[p..end], IsDigit) && Number(s[p..end]) <= 65535)
    ensures ok ==> port == Number(s[p..end])
  {
    port := 0;
    for k := p to end
      invariant All(s[p..k], IsDigit) && port == Number(s[p..k]) <= 65535
    {
      if !IsDigit(s[k]) {
        assert s[p..end][k - p] == s[k];
        return false, 0;
      }
      assert s[p..k + 1] == s[p..k] + [s[k]] && s[p..k + 1][..k - p] == s[p..k];
      port := port * 10 + (s[k] as int - '0' as int);
      if port > 65535 {
        if All(s[p..end], IsDigit) {
          NumberGrows(s[p..end], k + 1 - p);
          assert s[p..end][..k + 1 - p] == s[p..k + 1];
        }
        return false, 0;
      }
    }
    ok := true;
  }

  // What a method and its specification agree on
  predicate Agrees(code: nat, r: Url, result: Option<Url>) {
    match result
    case None => code == 1
    case Some(u) => code == 0 && r == u
  }

  // From the label `path` on
  method ScanTail(s: string, from: nat, u: Url) returns (code: nat, r: Url)
    requires from <= |s|
    ensures Agrees(code, r, ParsePath(s, from, u))
  {
    hide ParseQuery, All;
    r := u;
    var ok, i := Scan(s, from, |s|, InPath, IsUrlChar);
    if !ok {
      return 1, r;
    }
    r := SetUnlessEmpty(r, Path, from, i);
    code, r := ScanQuery(s, i, r);
  }

  method ScanQuery(s: string, from: nat, u: Url) returns (code: nat, r: Url)
    requires from <= |s|
    ensures Agrees(code, r, ParseQuery(s, from, u))
  {
    hide ParseFragment, All;
    r := u;
    var i := from;
    if i < |s| && s[i] == '?' {
      var ok;
      ok, i := Scan(s, from + 1, |s|, NoHash, IsUrlChar);
      if !ok {
        return 1, r;
      }
      r := SetUnlessEmpty(r, Query, from + 1, i);
    }
    code, r := ScanFragment(s, i, r);
  }

  method ScanFragment(s: string, from: nat, u: Url) returns (code: nat, r: Url)
    requires from <= |s|
    ensures Agrees(code, r, ParseFragment(s, from, u))
  {
    r := u;
    if from < |s| && s[from] == '#' {
      var _, start := Scan(s, from, |s|, IsHash, Anything);
      var ok, i := Scan(s, start, |s|, Anything, IsUrlChar);
      SkipIs(s, start, |s|, Anything, |s|);
      assert s[start..] == s[start..|s|];
      if !ok {
        return 1, r;
      }
      r := SetUnlessEmpty(r, Fragment, start, i);
    }
    code := 0;
  }

  method ScanHost(s: string, h: nat, end: nat, u: Url) returns (code: nat, r: Url)
    requires h <= end <= |s|
    ensures Agrees(code, r, ParseHost(s, h, end, u))
  {
    hide ParsePort, All;
    r := u;
    var hostEnd: nat;
    if h < end && s[h] == '[' {
      var ok, close := Scan(s, h + 1, end, NoBracket, IsIpv6Char);
      if !ok || close >= end || close == h + 1 {
        return 1, r;
      }
      r := Set(r, Host, h + 1, close - h - 1);
      hostEnd := close + 1;
    } else {
      var ok;
      ok, hostEnd := Scan(s, h, end, NoColon, IsHostChar);
      if !ok || hostEnd == h {
        return 1, r;
      }
      r := Set(r, Host, h, hostEnd - h);
    }
    code, r := ScanAfterHost(s, hostEnd, end, r);
  }

  method ScanAfterHost(s: string, hostEnd: nat, end: nat, u: Url) returns (code: nat, r: Url)
    requires hostEnd <= end <= |s|
    ensures Agrees(code, r, ParsePort(s, hostEnd, end, u))
  {
    hide ParsePath, Number;
    r := u;
    if hostEnd < end {
      if s[hostEnd] != ':' || hostEnd + 1 == end {
        return 1, r;
      }
      var ok, port := ScanPort(s, hostEnd + 1, end);
      if !ok {
        return 1, r;
      }
      r := Set(r, Port, hostEnd + 1, end - (hostEnd + 1)).(port := port);
    }
    code, r := ScanTail(s, end, r);
  }

  method ScanAuthority(s: string, from: nat, u: Url) returns (code: nat, r: Url)
    requires from <= |s|
    ensures Agrees(code, r, ParseAuthority(s, from, u))
  {
    hide ParseHost;
    r := u;
    var auth := from;
    var _, end := Scan(s, from, |s|, InAuthority, Anything);
    var at := FindLastAt(s, from, end);
    if at != end {
      var ok, i := Scan(s, from, at, Anything, IsUserinfoChar);
      SkipIs(s, from, at, Anything, at);
      if !ok {
        return 1, r;
      }
      r := SetUnlessEmpty(r, Userinfo, from, at);
      auth := at + 1;
    }
    code, r := ScanHost(s, auth, end, r);
  }

  // http_parser_parse_url
  method ParseUrl(s: string, isConnect: bool) returns (code: nat, u: Url)
    ensures Agrees(code, u, if isConnect then None else Parse(s))
  {
    hide ParseAuthority, ParsePath;
    u := EMPTY;
    if isConnect || |s| > UINT16_MAX {
      return 1, u;
    }
    if |s| == 0 {
      return 0, u;
    }
    if s[0] == '/' {
      code, u := ScanTail(s, 0, u);
      return;
    }
    var _, i := Scan(s, 0, |s|, IsAlpha, Anything);
    if i == 0 || |s| - i < 3 || s[i..i + 3] != "://" {
      return 1, u;
    }
    u := Set(u, Schema, 0, i);
    code, u := ScanAuthority(s, i + 3, u);
  }

  // ---- Printing ----------------------------------------------------------------------------

  datatype HostText = HostName(text: string) | Ipv6(text: string)

  // The components of a URL; a missing component is not the same as an empty one.
  datatype Parts = Parts(scheme: string, userinfo: Option<string>, host: HostText, port: Option<string>,
                         path: string, query: Option<string>, fragment: Option<string>)

  function Prefixed(prefix: string, part: Option<string>): string {
    if part.Some? then prefix + part.value else ""
  }

  function HostPrinted(host: HostText): string {
    if host.Ipv6? then "[" + host.text + "]" else host.text
  }

  function UserinfoPrinted(userinfo: Option<string>): string {
    if userinfo.Some? then userinfo.value + "@" else ""
  }

  // Section 5.3 of RFC 3986
  function Printed(p: Parts): string {
    p.scheme + "://" + UserinfoPrinted(p.userinfo) + HostPrinted(p.host) + Prefixed(":", p.port)
    + p.path + Prefixed("?", p.query) + Prefixed("#", p.fragment)
  }

  predicate IsPathChar(c: char) {
    IsUrlChar(c) && InPath(c)
  }

  predicate IsQueryChar(c: char) {
    IsUrlChar(c) && NoHash(c)
  }

  ghost predicate PartsOk(p: Parts) {
    && p.scheme != "" && All(p.scheme, IsAlpha)
    && (p.userinfo.Some? ==> All(p.userinfo.value, IsUserinfoChar))
    && p.host.text != "" && (if p.host.Ipv6? then All(p.host.text, IsIpv6Char) else All(p.host.text, IsHostChar))
    && (p.port.Some? ==> p.port.value != "" && All(p.port.value, IsDigit) && Number(p.port.value) <= 65535)
    && (p.path != "" ==> p.path[0] == '/') && All(p.path, IsPathChar)
    && (p.query.Some? ==> All(p.query.value, IsQueryChar))
    && (p.fragment.Some? ==> All(p.fragment.value, IsUrlChar)
                             && (p.fragment.value != "" ==> p.fragment.value[0] != '#'))
    && |Printed(p)| <= UINT16_MAX
  }

  // A set field names the text of its component.
  predicate Shows(s: string, u: Url, name: Name, text: Option<string>) {
    if text.None? || text.value == "" then name !in u.fields
    else
      && name in u.fields && u.fields[name].off + u.fields[name].len <= |s|
      && s[u.fields[name].off..u.fields[name].off + u.fields[name].len] == text.value
  }

  // The part of a text between two positions
  predicate At(s: string, i: nat, text: string) {
    i + |text| <= |s| && s[i..i + |text|] == text
  }

  lemma AtJoined(s: string, i: nat, a: string, b: string)
    requires At(s, i, a + b)
    ensures At(s, i, a) && At(s, i + |a|, b)
  {
    assert s[i..i + |a|] == s[i..i + |a + b|][..|a|];
    assert s[i + |a|..i + |a| + |b|] == s[i..i + |a + b|][|a|..];
  }

  // ---- Parsing undoes printing, from the back ------------------------------------------------

  lemma FragmentRoundTrip(s: string, i: nat, fragment: Option<string>, u: Url)
    requires |s| <= UINT16_MAX && i <= |s| && At(s, i, Prefixed("#", fragment)) && i + |Prefixed("#", fragment)| == |s|
    requires fragment.Some? ==> All(fragment.value, IsUrlChar) && (fragment.value != "" ==> fragment.value[0] != '#')
    ensures ParseFragment(s, i, u)
         == Some(if fragment.Some? then SetUnlessEmpty(u, Fragment, i + 1, |s|) else u)
  {
    if fragment.Some? {
      AtJoined(s, i, "#", fragment.value);
      assert s[i] == s[i..i + 1][0] == '#';
      assert s[i + 1..] == s[i + 1..i + 1 + |fragment.value|] == fragment.value;
      assert s[i..i + 1] == "#";
      SkipIs(s, i, |s|, IsHash, i + 1);
    }
  }

  lemma QueryRoundTrip(s: string, i: nat, query: Option<string>, fragment: Option<string>, u: Url)
    requires |s| <= UINT16_MAX && i <= |s| && At(s, i, Prefixed("?", query) + Prefixed("#", fragment))
    requires i + |Prefixed("?", query) + Prefixed("#", fragment)| == |s|
    requires query.Some? ==> All(query.value, IsQueryChar)
    ensures var j := i + |Prefixed("?", query)|;
      && j <= |s| && At(s, j, Prefixed("#", fragment))
      && ParseQuery(s, i, u) == ParseFragment(s, j, if query.Some? then SetUnlessEmpty(u, Query, i + 1, j) else u)
  {
    AtJoined(s, i, Prefixed("?", query), Prefixed("#", fragment));
    var j := i + |Prefixed("?", query)|;
    StartsWith(s, j, fragment);
    if query.Some? {
      AtJoined(s, i, "?", query.value);
      assert s[i] == s[i..i + 1][0] == '?';
      assert s[i + 1..j] == query.value;
      SkipIs(s, i + 1, |s|, NoHash, j);
    } else {
      assert i < |s| ==> s[i] == '#';
    }
  }

  // Where the fragment starts, if there is one
  lemma StartsWith(s: string, j: nat, fragment: Option<string>)
    requires j <= |s| && At(s, j, Prefixed("#", fragment)) && j + |Prefixed("#", fragment)| == |s|
    ensures j < |s| ==> s[j] == '#'
  {
    if fragment.Some? {
      assert s[j] == s[j..j + |Prefixed("#", fragment)|][0];
    }
  }

  lemma PathRoundTrip(s: string, i: nat, path: string, query: Option<string>, fragment: Option<string>, u: Url)
    requires |s| <= UINT16_MAX && i <= |s| && At(s, i, path + (Prefixed("?", query) + Prefixed("#", fragment)))
    requires i + |path + (Prefixed("?", query) + Prefixed("#", fragment))| == |s|
    requires All(path, IsPathChar)
    ensures At(s, i + |path|, Prefixed("?", query) + Prefixed("#", fragment))
    ensures ParsePath(s, i, u) == ParseQuery(s, i + |path|, SetUnlessEmpty(u, Path, i, i + |path|))
  {
    hide ParseQuery, SetUnlessEmpty;
    AtJoined(s, i, path, Prefixed("?", query) + Prefixed("#", fragment));
    var j := i + |path|;
    assert j < |s| ==> s[j] == s[j..j + |Prefixed("?", query) + Prefixed("#", fragment)|][0];
    assert s[i..j] == path;
    SkipIs(s, i, |s|, InPath, j);
  }

  lemma PortRoundTrip(s: string, i: nat, port: Option<string>, end: nat, u: Url)
    requires |s| <= UINT16_MAX && end <= |s| && At(s, i, Prefixed(":", port)) && i + |Prefixed(":", port)| == end
    requires port.Some? ==> port.value != "" && All(port.value, IsDigit) && Number(port.value) <= 65535
    ensures ParsePort(s, i, end, u)
         == ParsePath(s, end, if port.Some? then Set(u, Port, i + 1, |port.value|).(port := Number(port.value)) else u)
  {
    if port.Some? {
      AtJoined(s, i, ":", port.value);
      assert s[i] == s[i..i + 1][0] == ':';
      assert s[i + 1..end] == port.value;
    }
  }

  lemma NameRoundTrip(s: string, h: nat, name: string, end: nat, u: Url)
    requires h + |name| <= end <= |s| && At(s, h, name) && name != "" && All(name, IsHostChar)
    requires h + |name| < end ==> s[h + |name|] == ':'
    ensures ParseHost(s, h, end, u) == ParsePort(s, h + |name|, end, Set(u, Host, h, |name|))
  {
    hide ParsePort;
    var hostEnd := h + |name|;
    assert s[h..hostEnd] == name;
    assert s[h] == name[0] != '[';
    SkipIs(s, h, end, NoColon, hostEnd);
  }

  lemma Ipv6RoundTrip(s: string, h: nat, address: string, end: nat, u: Url)
    requires h + |address| + 2 <= end <= |s| && At(s, h, "[" + address + "]") && address != ""
        && All(address, IsIpv6Char)
    ensures At(s, h + 1, address)
    ensures ParseHost(s, h, end, u) == ParsePort(s, h + |address| + 2, end, Set(u, Host, h + 1, |address|))
  {
    hide ParsePort;
    AtJoined(s, h, "[" + address, "]");
    AtJoined(s, h, "[", address);
    var close := h + 1 + |address|;
    assert s[h] == s[h..h + 1][0] == '[' && s[close] == s[close..close + 1][0] == ']';
    assert s[h + 1..close] == address;
    SkipIs(s, h + 1, end, NoBracket, close);
  }

  // Where the text of the host is
  function HostAt(h: nat, host: HostText): nat {
    if host.Ipv6? then h + 1 else h
  }

  lemma HostRoundTrip(s: string, h: nat, host: HostText, port: Option<string>, end: nat, u: Url)
    requires |s| <= UINT16_MAX && end <= |s| && At(s, h, HostPrinted(host) + Prefixed(":", port))
    requires h + |HostPrinted(host) + Prefixed(":", port)| == end
    requires host.text != "" && (if host.Ipv6? then All(host.text, IsIpv6Char) else All(host.text, IsHostChar))
    ensures At(s, h + |HostPrinted(host)|, Prefixed(":", port)) && At(s, HostAt(h, host), host.text)
    ensures ParseHost(s, h, end, u)
         == ParsePort(s, h + |HostPrinted(host)|, end, Set(u, Host, HostAt(h, host), |host.text|))
  {
    hide ParseHost, ParsePort;
    AtJoined(s, h, HostPrinted(host), Prefixed(":", port));
    var hostEnd := h + |HostPrinted(host)|;
    assert hostEnd < end ==> s[hostEnd] == s[hostEnd..hostEnd + |Prefixed(":", port)|][0] == ':';
    if host.Ipv6? {
      Ipv6RoundTrip(s, h, host.text, end, u);
    } else {
      NameRoundTrip(s, h, host.text, end, u);
    }
  }

  lemma {:induction false} NoAt(s: string, i: nat, end: nat)
    requires i <= end <= |s| && forall k :: i <= k < end ==> s[k] != '@'
    ensures LastAt(s, i, end) == None
    decreases end
  {
    if i < end {
      NoAt(s, i, end - 1);
    }
  }

  lemma {:induction false} OneAt(s: string, i: nat, at: nat, end: nat)
    requires i <= at < end <= |s| && s[at] == '@' && forall k :: at < k < end ==> s[k] != '@'
    ensures LastAt(s, i, end) == Some(at)
    decreases end
  {
    if at < end - 1 {
      OneAt(s, i, at, end - 1);
    }
  }

  // Neither a host nor a port contains what ends the authority or its userinfo.
  lemma HostAndPortChars(host: HostText, port: Option<string>)
    requires if host.Ipv6? then All(host.text, IsIpv6Char) else All(host.text, IsHostChar)
    requires port.Some? ==> All(port.value, IsDigit)
    ensures var t := HostPrinted(host) + Prefixed(":", port);
      forall k :: 0 <= k < |t| ==> InAuthority(t[k]) && t[k] != '@'
  {
  }

  lemma AuthorityRoundTrip(s: string, i: nat, userinfo: Option<string>, rest: string, end: nat, u: Url)
    requires |s| <= UINT16_MAX && end <= |s| && At(s, i, UserinfoPrinted(userinfo) + rest)
    requires i + |UserinfoPrinted(userinfo) + rest| == end && (end < |s| ==> !InAuthority(s[end]))
    requires userinfo.Some? ==> All(userinfo.value, IsUserinfoChar)
    requires forall k :: 0 <= k < |rest| ==> InAuthority(rest[k]) && rest[k] != '@'
    ensures var h := i + |UserinfoPrinted(userinfo)|;
      && h <= end && At(s, h, rest)
      && ParseAuthority(s, i, u)
         == ParseHost(s, h, end, if userinfo.Some? then SetUnlessEmpty(u, Userinfo, i, i + |userinfo.value|) else u)
  {
    hide ParseHost;
    AuthorityEnds(s, i, userinfo, rest, end);
    var h := i + |UserinfoPrinted(userinfo)|;
    AtJoined(s, i, UserinfoPrinted(userinfo), rest);
    if userinfo.Some? {
      AtJoined(s, i, userinfo.value, "@");
      assert s[i..i + |userinfo.value|] == userinfo.value;
    }
  }

  // Where the authority and its userinfo end
  lemma AuthorityEnds(s: string, i: nat, userinfo: Option<string>, rest: string, end: nat)
    requires end <= |s| && At(s, i, UserinfoPrinted(userinfo) + rest)
    requires i + |UserinfoPrinted(userinfo) + rest| == end && (end < |s| ==> !InAuthority(s[end]))
    requires userinfo.Some? ==> All(userinfo.value, IsUserinfoChar)
    requires forall k :: 0 <= k < |rest| ==> InAuthority(rest[k]) && rest[k] != '@'
    ensures Skip(s, i, |s|, InAuthority) == end
    ensures LastAt(s, i, end) == if userinfo.Some? then Some(i + |userinfo.value|) else None
  {
    hide LastAt, Skip;
    var h := i + |UserinfoPrinted(userinfo)|;
    AtJoined(s, i, UserinfoPrinted(userinfo), rest);
    Within(s, h, rest);
    if userinfo.Some? {
      var at := i + |userinfo.value|;
      AtJoined(s, i, userinfo.value, "@");
      Within(s, i, userinfo.value);
      Within(s, at, "@");
      assert "@"[0] == s[at];
      UserinfoChars(userinfo.value);
      OneAt(s, i, at, end);
    } else {
      NoAt(s, i, end);
    }
    AuthoritySpan(s, i, end);
  }

  lemma Within(s: string, i: nat, text: string)
    requires At(s, i, text)
    ensures forall k :: i <= k < i + |text| ==> s[k] == text[k - i]
  {
    assert forall k :: i <= k < i + |text| ==> s[k] == s[i..i + |text|][k - i];
  }

  lemma UserinfoChars(text: string)
    requires All(text, IsUserinfoChar)
    ensures forall k :: 0 <= k < |text| ==> InAuthority(text[k]) && text[k] != '@'
  {
  }

  lemma AuthoritySpan(s: string, i: nat, end: nat)
    requires i <= end <= |s| && (forall k :: i <= k < end ==> InAuthority(s[k])) && (end < |s| ==> !InAuthority(s[end]))
    ensures Skip(s, i, |s|, InAuthority) == end
  {
    AllFrom(s, i, end, InAuthority);
    SkipIs(s, i, |s|, InAuthority, end);
  }

  lemma AllFrom(s: string, i: nat, end: nat, p: char -> bool)
    requires i <= end <= |s| && forall k :: i <= k < end ==> p(s[k])
    ensures All(s[i..end], p)
  {
  }

  // ---- The whole URL -----------------------------------------------------------------------

  function SetPart(u: Url, name: Name, off: nat, part: Option<string>): Url {
    if part.Some? && part.value != "" then Set(u, name, off, |part.value|) else u
  }

  // Where the components of a printed URL are
  datatype Places = Places(auth: nat, host: nat, port: nat, path: nat, query: nat, fragment: nat)

  function PlacesOf(p: Parts): Places {
    var auth := |p.scheme| + 3;
    var host := auth + |UserinfoPrinted(p.userinfo)|;
    var port := host + |HostPrinted(p.host)|;
    var path := port + |Prefixed(":", p.port)|;
    var query := path + |p.path|;
    Places(auth, host, port, path, query, query + |Prefixed("?", p.query)|)
  }

  function Front(p: Parts): Url {
    var at := PlacesOf(p);
    var u := SetPart(SetPart(EMPTY, Schema, 0, Some(p.scheme)), Userinfo, at.auth, p.userinfo);
    var v := SetPart(SetPart(u, Host, HostAt(at.host, p.host), Some(p.host.text)), Port, at.port + 1, p.port);
    if p.port.Some? && All(p.port.value, IsDigit) then v.(port := Number(p.port.value)) else v
  }

  function Expected(p: Parts): Url {
    var at := PlacesOf(p);
    SetPart(SetPart(SetPart(Front(p), Path, at.path, Some(p.path)), Query, at.query + 1, p.query),
            Fragment, at.fragment + 1, p.fragment)
  }

  // The text, from the authority on and from the path on
  lemma PrintedPlaces(p: Parts)
    requires PartsOk(p)
    ensures var s, at := Printed(p), PlacesOf(p);
      && At(s, 0, p.scheme) && s[|p.scheme|..at.auth] == "://" && at.path <= |s|
      && At(s, at.auth, UserinfoPrinted(p.userinfo) + (HostPrinted(p.host) + Prefixed(":", p.port)))
      && At(s, at.path, p.path + (Prefixed("?", p.query) + Prefixed("#", p.fragment)))
      && at.path + |p.path + (Prefixed("?", p.query) + Prefixed("#", p.fragment))| == |s|
      && (at.path < |s| ==> !InAuthority(s[at.path]))
  {
    hide Printed, PlacesOf, At, UserinfoPrinted, HostPrinted, Prefixed;
    PrintedIs(p);
    var s, at := Printed(p), PlacesOf(p);
    var middle := UserinfoPrinted(p.userinfo) + (HostPrinted(p.host) + Prefixed(":", p.port));
    var tail := p.path + (Prefixed("?", p.query) + Prefixed("#", p.fragment));
    Cut(p.scheme, middle, tail);
    TailStarts(p);
  }

  lemma PrintedIs(p: Parts)
    ensures var at := PlacesOf(p);
      var middle := UserinfoPrinted(p.userinfo) + (HostPrinted(p.host) + Prefixed(":", p.port));
      var tail := p.path + (Prefixed("?", p.query) + Prefixed("#", p.fragment));
      && Printed(p) == (p.scheme + "://") + middle + tail
      && at.auth == |p.scheme| + 3 && at.path == at.auth + |middle|
  {
    hide UserinfoPrinted, HostPrinted, Prefixed;
    Regrouped(p.scheme, UserinfoPrinted(p.userinfo), HostPrinted(p.host), Prefixed(":", p.port), p.path,
              Prefixed("?", p.query), Prefixed("#", p.fragment));
  }

  lemma Cut(scheme: string, middle: string, tail: string)
    ensures var s, auth := (scheme + "://") + middle + tail, |scheme| + 3;
      && At(s, 0, scheme) && s[|scheme|..auth] == "://" && At(s, auth, middle) && At(s, auth + |middle|, tail)
      && auth + |middle| + |tail| == |s| && (auth + |middle| < |s| ==> tail != "" && s[auth + |middle|] == tail[0])
  {
    var s := (scheme + "://") + middle + tail;
    Ahead(scheme, middle + tail);
    assert s == scheme + "://" + (middle + tail);
    Middle(scheme + "://", middle, tail);
    Middle(scheme + "://" + middle, tail, "");
    assert s == scheme + "://" + middle + tail + "";
  }

  lemma Ahead(scheme: string, rest: string)
    ensures var s := scheme + "://" + rest;
      At(s, 0, scheme) && s[|scheme|..|scheme| + 3] == "://"
  {
    var s := scheme + "://" + rest;
    Middle("", scheme, "://" + rest);
    Middle(scheme, "://", rest);
    assert s == "" + scheme + ("://" + rest);
  }

  lemma Regrouped(a: string, b: string, c: string, d: string, e: string, f: string, g: string)
    ensures a + "://" + b + c + d + e + f + g == (a + "://") + (b + (c + d)) + (e + (f + g))
  {
  }

  lemma Middle(a: string, b: string, c: string)
    ensures At(a + b + c, |a|, b)
  {
  }

  lemma TailStarts(p: Parts)
    requires PartsOk(p)
    ensures var tail := p.path + (Prefixed("?", p.query) + Prefixed("#", p.fragment));
      tail != "" ==> !InAuthority(tail[0])
  {
  }

  lemma SchemeRoundTrip(p: Parts)
    requires PartsOk(p)
    ensures PlacesOf(p).auth <= |Printed(p)|
    ensures Parse(Printed(p))
         == ParseAuthority(Printed(p), PlacesOf(p).auth, SetPart(EMPTY, Schema, 0, Some(p.scheme)))
  {
    hide ParseAuthority, ParsePath, Printed;
    var s, at := Printed(p), PlacesOf(p);
    PrintedPlaces(p);
    assert s[0] == s[0..|p.scheme|][0] != '/' && s[..|p.scheme|] == p.scheme;
    assert s[|p.scheme|] == s[|p.scheme|..at.auth][0] == ':';
    SkipIs(s, 0, |s|, IsAlpha, |p.scheme|);
  }

  lemma MiddleRoundTrip(p: Parts)
    requires PartsOk(p)
    ensures PlacesOf(p).path <= |Printed(p)|
    ensures var u := SetPart(EMPTY, Schema, 0, Some(p.scheme));
      ParseAuthority(Printed(p), PlacesOf(p).auth, u) == ParsePath(Printed(p), PlacesOf(p).path, Front(p))
  {
    hide ParseAuthority, ParseHost, ParsePort, ParsePath, Printed, At, All;
    var s, at := Printed(p), PlacesOf(p);
    PrintedPlaces(p);
    HostAndPortChars(p.host, p.port);
    var u := SetPart(EMPTY, Schema, 0, Some(p.scheme));
    AuthorityRoundTrip(s, at.auth, p.userinfo, HostPrinted(p.host) + Prefixed(":", p.port), at.path, u);
    u := SetPart(u, Userinfo, at.auth, p.userinfo);
    HostRoundTrip(s, at.host, p.host, p.port, at.path, u);
    u := SetPart(u, Host, HostAt(at.host, p.host), Some(p.host.text));
    PortRoundTrip(s, at.port, p.port, at.path, u);
  }

  lemma FrontRoundTrip(p: Parts)
    requires PartsOk(p)
    ensures PlacesOf(p).path <= |Printed(p)| && Parse(Printed(p)) == ParsePath(Printed(p), PlacesOf(p).path, Front(p))
  {
    hide Parse, ParseAuthority, ParsePath, Printed, Front;
    SchemeRoundTrip(p);
    MiddleRoundTrip(p);
  }

  lemma BackRoundTrip(p: Parts)
    requires PartsOk(p) && PlacesOf(p).path <= |Printed(p)|
    ensures ParsePath(Printed(p), PlacesOf(p).path, Front(p)) == Some(Expected(p))
  {
    hide ParsePath, ParseQuery, ParseFragment, Printed, Front, All, At;
    var s, at := Printed(p), PlacesOf(p);
    PrintedPlaces(p);
    var u := Front(p);
    PathRoundTrip(s, at.path, p.path, p.query, p.fragment, u);
    u := SetPart(u, Path, at.path, Some(p.path));
    QueryRoundTrip(s, at.query, p.query, p.fragment, u);
    u := SetPart(u, Query, at.query + 1, p.query);
    FragmentRoundTrip(s, at.fragment, p.fragment, u);
  }

  lemma PartShows(s: string, u: Url, name: Name, off: nat, part: Option<string>)
    requires |s| <= UINT16_MAX && (part.Some? ==> At(s, off, part.value)) && name !in u.fields
    ensures Shows(s, SetPart(u, name, off, part), name, part)
    ensures SetPart(u, name, off, part).fields.Keys <= u.fields.Keys + {name}
  {
  }

  // What is to be set
  datatype Setting = Setting(name: Name, off: nat, part: Option<string>)

  function Applied(settings: seq<Setting>): Url
    decreases |settings|
  {
    if settings == [] then EMPTY
    else
      var last := settings[|settings| - 1];
      SetPart(Applied(settings[..|settings| - 1]), last.name, last.off, last.part)
  }

  lemma {:induction false} OnlyApplied(settings: seq<Setting>, name: Name)
    requires forall i :: 0 <= i < |settings| ==> settings[i].name != name
    ensures name !in Applied(settings).fields
    decreases |settings|
  {
    if settings != [] {
      OnlyApplied(settings[..|settings| - 1], name);
    }
  }

  // Settings of different names do not get into each other's way.
  lemma {:induction false} AppliedShows(s: string, settings: seq<Setting>)
    requires |s| <= UINT16_MAX
    requires forall i, j :: 0 <= i < j < |settings| ==> settings[i].name != settings[j].name
    requires forall x :: x in settings && x.part.Some? ==> At(s, x.off, x.part.value)
    ensures forall x :: x in settings ==> Shows(s, Applied(settings), x.name, x.part)
    decreases |settings|
  {
    hide Shows, SetPart, At;
    if settings != [] {
      var most, last := settings[..|settings| - 1], settings[|settings| - 1];
      AppliedShows(s, most);
      OnlyApplied(most, last.name);
      PartShows(s, Applied(most), last.name, last.off, last.part);
      assert settings == most + [last];
      forall x | x in settings ensures Shows(s, Applied(settings), x.name, x.part) {
        if x in most {
          var i :| 0 <= i < |most| && most[i] == x;
          assert settings[i].name != last.name;
          StillShows(s, Applied(most), x.name, x.part, last.name, last.off, last.part);
        }
      }
    }
  }

  // A component that is set keeps showing its text when another one is set.
  lemma StillShows(s: string, u: Url, name: Name, text: Option<string>, other: Name, off: nat, part: Option<string>)
    requires Shows(s, u, name, text) && name != other
    ensures Shows(s, SetPart(u, other, off, part), name, text)
  {
  }

  function SettingsOf(p: Parts): seq<Setting> {
    var at := PlacesOf(p);
    [Setting(Schema, 0, Some(p.scheme)), Setting(Userinfo, at.auth, p.userinfo),
     Setting(Host, HostAt(at.host, p.host), Some(p.host.text)), Setting(Port, at.port + 1, p.port),
     Setting(Path, at.path, Some(p.path)), Setting(Query, at.query + 1, p.query),
     Setting(Fragment, at.fragment + 1, p.fragment)]
  }

  lemma AppliedNext(x: seq<Setting>, k: nat)
    requires k < |x|
    ensures Applied(x[..k + 1]) == SetPart(Applied(x[..k]), x[k].name, x[k].off, x[k].part)
  {
    assert x[..k + 1][..k] == x[..k];
  }

  lemma ExpectedFields(p: Parts)
    ensures Expected(p).fields == Applied(SettingsOf(p)).fields
  {
    hide PlacesOf, Applied;
    var x := SettingsOf(p);
    AppliedNext(x, 0);
    AppliedNext(x, 1);
    AppliedNext(x, 2);
    AppliedNext(x, 3);
    AppliedNext(x, 4);
    AppliedNext(x, 5);
    AppliedNext(x, 6);
    AppliedNone(x);
    assert x[..7] == x;
    assert Applied(x[..4]).fields == Front(p).fields;
  }

  lemma AppliedNone(x: seq<Setting>)
    ensures Applied(x[..0]) == EMPTY
  {
  }

  // Parsing a printed URL succeeds and returns exactly its components and the value of its port.
  lemma UrlRoundTrip(p: Parts)
    requires PartsOk(p)
    ensures Parse(Printed(p)) == Some(Expected(p))
    ensures var s, u := Printed(p), Expected(p);
      && Shows(s, u, Schema, Some(p.scheme)) && Shows(s, u, Userinfo, p.userinfo)
          && Shows(s, u, Host, Some(p.host.text))
      && Shows(s, u, Port, p.port) && Shows(s, u, Path, Some(p.path)) && Shows(s, u, Query, p.query)
      && Shows(s, u, Fragment, p.fragment)
      && u.port == if p.port.Some? then Number(p.port.value) else 0
  {
    FrontRoundTrip(p);
    BackRoundTrip(p);
    ExpectedShows(p);
  }

  lemma FrontStands(p: Parts)
    requires PartsOk(p)
    ensures var s, at := Printed(p), PlacesOf(p);
      && At(s, 0, p.scheme) && At(s, HostAt(at.host, p.host), p.host.text)
      && (p.userinfo.Some? ==> At(s, at.auth, p.userinfo.value)) && (p.port.Some? ==> At(s, at.port + 1, p.port.value))
  {
    hide Printed, At, PartsOk;
    var s, at := Printed(p), PlacesOf(p);
    PrintedPlaces(p);
    AtJoined(s, at.auth, UserinfoPrinted(p.userinfo), HostPrinted(p.host) + Prefixed(":", p.port));
    AtJoined(s, at.host, HostPrinted(p.host), Prefixed(":", p.port));
    if p.userinfo.Some? {
      AtJoined(s, at.auth, p.userinfo.value, "@");
    }
    if p.host.Ipv6? {
      AtJoined(s, at.host, "[" + p.host.text, "]");
      AtJoined(s, at.host, "[", p.host.text);
    }
    if p.port.Some? {
      AtJoined(s, at.port, ":", p.port.value);
    }
  }

  lemma PartStands(s: string, i: nat, prefix: string, part: Option<string>)
    requires At(s, i, Prefixed(prefix, part)) && |prefix| == 1 && part.Some?
    ensures At(s, i + 1, part.value)
  {
    hide At;
    AtJoined(s, i, prefix, part.value);
  }

  lemma TailStands(p: Parts)
    requires PartsOk(p)
    ensures var s, at := Printed(p), PlacesOf(p);
      && At(s, at.path, p.path) && At(s, at.query, Prefixed("?", p.query))
      && At(s, at.fragment, Prefixed("#", p.fragment))
  {
    hide Printed, At, PartsOk, Prefixed, UserinfoPrinted, HostPrinted;
    var s, at := Printed(p), PlacesOf(p);
    PrintedPlaces(p);
    AtJoined(s, at.path, p.path, Prefixed("?", p.query) + Prefixed("#", p.fragment));
    AtJoined(s, at.query, Prefixed("?", p.query), Prefixed("#", p.fragment));
  }

  lemma BackStands(p: Parts)
    requires PartsOk(p)
    ensures var s, at := Printed(p), PlacesOf(p);
      && At(s, at.path, p.path) && (p.query.Some? ==> At(s, at.query + 1, p.query.value))
      && (p.fragment.Some? ==> At(s, at.fragment + 1, p.fragment.value))
  {
    hide Printed, At, PartsOk, Prefixed, PlacesOf;
    var s, at := Printed(p), PlacesOf(p);
    TailStands(p);
    if p.query.Some? {
      PartStands(s, at.query, "?", p.query);
    }
    if p.fragment.Some? {
      PartStands(s, at.fragment, "#", p.fragment);
    }
  }

  // Every component stands where it is said to.
  lemma PlacesShow(p: Parts)
    requires PartsOk(p)
    ensures forall x :: x in SettingsOf(p) && x.part.Some? ==> At(Printed(p), x.off, x.part.value)
  {
    hide Printed, At, PlacesOf;
    FrontStands(p);
    BackStands(p);
  }

  lemma ExpectedShows(p: Parts)
    requires PartsOk(p)
    ensures var s, u := Printed(p), Expected(p);
      && Shows(s, u, Schema, Some(p.scheme)) && Shows(s, u, Userinfo, p.userinfo)
          && Shows(s, u, Host, Some(p.host.text))
      && Shows(s, u, Port, p.port) && Shows(s, u, Path, Some(p.path)) && Shows(s, u, Query, p.query)
      && Shows(s, u, Fragment, p.fragment)
      && u.port == if p.port.Some? then Number(p.port.value) else 0
  {
    hide Applied, Printed, PlacesOf, Shows, At, Expected;
    var s, x := Printed(p), SettingsOf(p);
    PlacesShow(p);
    AppliedShows(s, x);
    ExpectedFields(p);
    assert x[0] in x && x[1] in x && x[2] in x && x[3] in x && x[4] in x && x[5] in x && x[6] in x;
    SameFields(s, Applied(x), Expected(p));
    PortOf(p);
  }

  lemma PortOf(p: Parts)
    requires PartsOk(p)
    ensures Expected(p).port == if p.port.Some? then Number(p.port.value) else 0
  {
  }

  lemma SameFields(s: string, u: Url, v: Url)
    requires u.fields == v.fields
    ensures forall name, text :: Shows(s, u, name, text) ==> Shows(s, v, name, text)
  {
  }

  // A component that is there
  predicate Present(x: Setting) {
    x.part.Some? && x.part.value != ""
  }

  predicate Placed(u: Url, x: Setting) {
    Present(x) ==> x.name in u.fields && u.fields[x.name] == Field(x.off, |x.part.value|)
  }

  lemma {:induction false} AppliedPlaces(s: string, settings: seq<Setting>)
    requires |s| <= UINT16_MAX
    requires forall i, j :: 0 <= i < j < |settings| ==> settings[i].name != settings[j].name
    requires forall x :: x in settings && x.part.Some? ==> At(s, x.off, x.part.value)
    ensures forall x :: x in settings ==> Placed(Applied(settings), x)
    decreases |settings|
  {
    if settings != [] {
      var most, last := settings[..|settings| - 1], settings[|settings| - 1];
      AppliedPlaces(s, most);
      assert settings == most + [last];
      forall x | x in settings ensures Placed(Applied(settings), x) {
        if x in most {
          var i :| 0 <= i < |most| && most[i] == x;
          assert settings[i].name != last.name;
        }
      }
    }
  }

  // The components are reported in the order of the text, and none overlaps another.
  lemma UrlOrdered(p: Parts, i: nat, j: nat)
    requires PartsOk(p) && i < j < |SettingsOf(p)| && Present(SettingsOf(p)[i]) && Present(SettingsOf(p)[j])
    ensures var u, a, b := Expected(p), SettingsOf(p)[i].name, SettingsOf(p)[j].name;
      a in u.fields && b in u.fields && u.fields[a].off + u.fields[a].len <= u.fields[b].off
  {
    hide SettingsOf, Applied, Printed, PlacesOf, At, Expected, PartsOk;
    var x := SettingsOf(p);
    PlacesShow(p);
    PlacesAscend(p);
    ExpectedFields(p);
    SettingsDiffer(p);
    AppliedPlaces(Printed(p), x);
    assert x[i] in x && x[j] in x;
  }

  lemma SettingsDiffer(p: Parts)
    ensures |SettingsOf(p)| == 7
    ensures forall i, j :: 0 <= i < j < 7 ==> SettingsOf(p)[i].name != SettingsOf(p)[j].name
    ensures PartsOk(p) ==> |Printed(p)| <= UINT16_MAX
  {
    hide Printed, PlacesOf;
  }

  lemma PlacesAscend(p: Parts)
    ensures var x := SettingsOf(p);
      forall i, j :: 0 <= i < j < 7 && Present(x[i]) && Present(x[j]) ==> x[i].off + |x[i].part.value| <= x[j].off
  {
  }
}
