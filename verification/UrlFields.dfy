/**
 What http_parser_parse_url of src/url.c reports for any text that it accepts, printed by whomever: the
 components lie in the text in their order, none overlaps another, and each is in its character class.
 */
module UrlFields {
  import opened Basics
  import opened UrlParser
  import HistFiles

  // The place of a component in the text
  function Rank(name: Name): nat {
    match name
    case Schema => 0
    case Userinfo => 1
    case Host => 2
    case Port => 3
    case Path => 4
    case Query => 5
    case Fragment => 6
  }

  predicate IsPortText(text: string) {
    All(text, IsDigit) && Number(text) <= 65535
  }

  predicate InClass(name: Name, text: string) {
    match name
    case Schema => All(text, IsAlpha)
    case Userinfo => All(text, IsUserinfoChar)
    case Host => All(text, IsHostChar) || All(text, IsIpv6Char)
    case Port => IsPortText(text)
    case Path => All(text, IsUrlChar) && All(text, InPath)
    case Query => All(text, IsUrlChar) && All(text, NoHash)
    case Fragment => All(text, IsUrlChar) && text != "" && text[0] != '#'
  }

  // A component lies before `limit`, is not empty and in its class.
  predicate Fits(s: string, f: Field, name: Name, limit: nat) {
    f.len > 0 && f.off + f.len <= limit <= |s| && InClass(name, s[f.off..f.off + f.len])
  }

  // The number is that of the digits in the text.
  predicate PortFits(s: string, u: Url) {
    if Port in u.fields then
      var f := u.fields[Port];
      f.off + f.len <= |s| && IsPortText(s[f.off..f.off + f.len]) && u.port == Number(s[f.off..f.off + f.len])
    else u.port == 0
  }

  // Only components before the place `r` are there, all of them before `limit` and in order.
  ghost predicate Laid(s: string, u: Url, limit: nat, r: nat) {
    && limit <= |s| <= UINT16_MAX && PortFits(s, u)
    && (forall name :: name in u.fields ==> Rank(name) < r && Fits(s, u.fields[name], name, limit))
    && (forall a, b :: a in u.fields && b in u.fields && Rank(a) < Rank(b)
          ==> u.fields[a].off + u.fields[a].len <= u.fields[b].off)
  }

  lemma Later(s: string, u: Url, limit: nat, r: nat, limit': nat, r': nat)
    requires Laid(s, u, limit, r) && limit <= limit' <= |s| && r <= r'
    ensures Laid(s, u, limit', r')
  {
  }

  lemma PortStays(s: string, u: Url, name: Name, off: nat, len: nat)
    requires PortFits(s, u) && name != Port
    ensures PortFits(s, Set(u, name, off, len))
  {
    hide IsPortText;
  }

  lemma FitsLater(s: string, f: Field, name: Name, limit: nat, limit': nat)
    requires Fits(s, f, name, limit) && limit <= limit' <= |s|
    ensures Fits(s, f, name, limit') && f.off + f.len <= limit
  {
  }

  // One more component
  lemma OneMore(s: string, u: Url, limit: nat, r: nat, name: Name, off: nat, len: nat)
    requires Laid(s, u, limit, r) && r <= Rank(name) && name != Port && limit <= off && 0 < len && off + len <= |s|
    requires InClass(name, s[off..off + len])
    ensures Laid(s, Set(u, name, off, len), off + len, Rank(name) + 1)
  {
    hide Fits, PortFits;
    PortStays(s, u, name, off, len);
    forall other | other in u.fields
      ensures Fits(s, u.fields[other], other, off + len) && u.fields[other].off + u.fields[other].len <= limit
    {
      FitsLater(s, u.fields[other], other, limit, off + len);
    }
    FitsNew(s, name, off, len);
  }

  lemma FitsNew(s: string, name: Name, off: nat, len: nat)
    requires 0 < len && off + len <= |s| && InClass(name, s[off..off + len])
    ensures Fits(s, Field(off, len), name, off + len)
  {
  }

  lemma PortMore(s: string, u: Url, limit: nat, off: nat, len: nat)
    requires Laid(s, u, limit, 3) && limit <= off && 0 < len && off + len <= |s| && IsPortText(s[off..off + len])
    ensures Laid(s, Set(u, Port, off, len).(port := Number(s[off..off + len])), off + len, 4)
  {
    hide All, IsPortText;
  }

  // A component that may be empty
  lemma PerhapsMore(s: string, u: Url, limit: nat, r: nat, name: Name, off: nat, end: nat)
    requires Laid(s, u, limit, r) && r <= Rank(name) && name != Port && limit <= off <= end <= |s|
    requires off < end ==> InClass(name, s[off..end])
    ensures Laid(s, SetUnlessEmpty(u, name, off, end), end, Rank(name) + 1)
  {
    hide Laid, InClass;
    Later(s, u, limit, r, end, Rank(name) + 1);
    if off < end {
      OneMore(s, u, limit, r, name, off, end - off);
    }
  }

  lemma FragmentLaid(s: string, i: nat, u: Url)
    requires i <= |s| && Laid(s, u, i, 6) && ParseFragment(s, i, u).Some?
    ensures Laid(s, ParseFragment(s, i, u).value, |s|, 7)
  {
    hide Laid, All;
    Later(s, u, i, 6, |s|, 7);
    if i < |s| && s[i] == '#' {
      var j := Skip(s, i, |s|, IsHash);
      assert s[j..] == s[j..|s|];
      PerhapsMore(s, u, i, 6, Fragment, j, |s|);
    }
  }

  lemma QueryLaid(s: string, i: nat, u: Url)
    requires i <= |s| && Laid(s, u, i, 5) && ParseQuery(s, i, u).Some?
    ensures Laid(s, ParseQuery(s, i, u).value, |s|, 7)
  {
    hide Laid, All, ParseFragment;
    if i < |s| && s[i] == '?' {
      var j := Skip(s, i + 1, |s|, NoHash);
      PerhapsMore(s, u, i, 5, Query, i + 1, j);
      FragmentLaid(s, j, SetUnlessEmpty(u, Query, i + 1, j));
    } else {
      Later(s, u, i, 5, i, 6);
      FragmentLaid(s, i, u);
    }
  }

  lemma PathLaid(s: string, start: nat, u: Url)
    requires start <= |s| && Laid(s, u, start, 4) && ParsePath(s, start, u).Some?
    ensures Laid(s, ParsePath(s, start, u).value, |s|, 7)
  {
    hide Laid, All, ParseQuery;
    var i := Skip(s, start, |s|, InPath);
    PerhapsMore(s, u, start, 4, Path, start, i);
    QueryLaid(s, i, SetUnlessEmpty(u, Path, start, i));
  }

  lemma PortLaid(s: string, hostEnd: nat, end: nat, u: Url)
    requires hostEnd <= end <= |s| && Laid(s, u, hostEnd, 3) && ParsePort(s, hostEnd, end, u).Some?
    ensures Laid(s, ParsePort(s, hostEnd, end, u).value, |s|, 7)
  {
    hide Laid, All, ParsePath;
    if hostEnd == end {
      Later(s, u, end, 3, end, 4);
      PathLaid(s, end, u);
    } else {
      var digits := s[hostEnd + 1..end];
      PortMore(s, u, hostEnd, hostEnd + 1, |digits|);
      PathLaid(s, end, Set(u, Port, hostEnd + 1, |digits|).(port := Number(digits)));
    }
  }

  lemma HostLaid(s: string, h: nat, end: nat, u: Url)
    requires h <= end <= |s| && Laid(s, u, h, 2) && ParseHost(s, h, end, u).Some?
    ensures Laid(s, ParseHost(s, h, end, u).value, |s|, 7)
  {
    hide Laid, All, ParsePort;
    if h < end && s[h] == '[' {
      var close := Skip(s, h + 1, end, NoBracket);
      OneMore(s, u, h, 2, Host, h + 1, close - h - 1);
      var u' := Set(u, Host, h + 1, close - h - 1);
      Later(s, u', close, 3, close + 1, 3);
      PortLaid(s, close + 1, end, u');
    } else {
      var hostEnd := Skip(s, h, end, NoColon);
      OneMore(s, u, h, 2, Host, h, hostEnd - h);
      PortLaid(s, hostEnd, end, Set(u, Host, h, hostEnd - h));
    }
  }

  lemma AuthorityLaid(s: string, auth: nat, u: Url)
    requires auth <= |s| && Laid(s, u, auth, 1) && ParseAuthority(s, auth, u).Some?
    ensures Laid(s, ParseAuthority(s, auth, u).value, |s|, 7)
  {
    hide Laid, All, ParseHost;
    var end := Skip(s, auth, |s|, InAuthority);
    var last := LastAt(s, auth, end);
    if last.Some? {
      var at := last.value;
      PerhapsMore(s, u, auth, 1, Userinfo, auth, at);
      var u' := SetUnlessEmpty(u, Userinfo, auth, at);
      Later(s, u', at, 2, at + 1, 2);
      HostLaid(s, at + 1, end, u');
    } else {
      Later(s, u, auth, 1, auth, 2);
      HostLaid(s, auth, end, u);
    }
  }

  // Every accepted text
  lemma AcceptedLaid(s: string)
    requires Parse(s).Some?
    ensures Laid(s, Parse(s).value, |s|, 7)
  {
    hide All, ParseAuthority, ParsePath;
    assert Laid(s, EMPTY, 0, 0);
    if s != "" && s[0] == '/' {
      Later(s, EMPTY, 0, 0, 0, 4);
      PathLaid(s, 0, EMPTY);
    } else if s != "" {
      var i := Skip(s, 0, |s|, IsAlpha);
      OneMore(s, EMPTY, 0, 0, Schema, 0, i);
      var u := Set(EMPTY, Schema, 0, i);
      Later(s, u, i, 1, i + 3, 1);
      AuthorityLaid(s, i + 3, u);
    }
  }

  // ---- The number of a port ----------------------------------------------------------------

  function Zeros(k: nat): string {
    seq(k, i => '0')
  }

  // A port is read as the decimal number that its digits print, after any leading zeros.
  lemma {:induction false} NumberIsPrinted(digits: string) returns (zeros: nat)
    requires digits != "" && All(digits, IsDigit)
    ensures digits == Zeros(zeros) + HistFiles.Decimal(Number(digits))
    decreases |digits|
  {
    var most, last := digits[..|digits| - 1], digits[|digits| - 1];
    assert digits == most + [last] && IsDigit(last);
    if most == "" {
      zeros := 0;
      assert Number(digits) == HistFiles.DigitValue(last);
    } else {
      zeros := NumberIsPrinted(most);
      if Number(most) == 0 {
        assert most == Zeros(zeros + 1);
        zeros := zeros + 1;
      }
    }
  }

  lemma {:induction false} NoNumber(k: nat)
    ensures All(Zeros(k), IsDigit) && Number(Zeros(k)) == 0
  {
    if k > 0 {
      assert Zeros(k)[..k - 1] == Zeros(k - 1);
      NoNumber(k - 1);
    }
  }

  lemma OneMoreDigit(most: string, n: nat)
    requires All(most, IsDigit) && n < 10
    ensures var digits := most + [HistFiles.DigitOf(n)]; All(digits, IsDigit) && Number(digits) == 10 * Number(most) + n
  {
    assert (most + [HistFiles.DigitOf(n)])[..|most|] == most;
  }

  lemma {:induction false} PrintedIsNumber(zeros: nat, n: nat)
    ensures var digits := Zeros(zeros) + HistFiles.Decimal(n); All(digits, IsDigit) && Number(digits) == n
    decreases n
  {
    NoNumber(zeros);
    if n < 10 {
      OneMoreDigit(Zeros(zeros), n);
    } else {
      PrintedIsNumber(zeros, n / 10);
      OneMoreDigit(Zeros(zeros) + HistFiles.Decimal(n / 10), n % 10);
      assert Zeros(zeros) + HistFiles.Decimal(n)
          == Zeros(zeros) + HistFiles.Decimal(n / 10) + [HistFiles.DigitOf(n % 10)];
    }
  }
}
