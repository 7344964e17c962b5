/**
 The histogram files of src/wrk.c: a sparse printer of the counts, its reader, and the merge of several
 files.  A file is a list of lines; numbers are printed in decimal and read as sscanf reads them.
 */
module HistFiles {
  import opened Basics

  // ---- Numbers -----------------------------------------------------------------------------

  predicate IsSpace(c: char) {
    c == ' ' || 9 <= c as int <= 13
  }

  function DigitOf(n: nat): char
    requires n < 10
  {
    ('0' as int + n) as char
  }

  // %d, %PRId64 or %PRIu64 of a number that is not negative
  function Decimal(n: nat): string {
    if n < 10 then [DigitOf(n)] else Decimal(n / 10) + [DigitOf(n % 10)]
  }

  function DigitValue(c: char): nat
    requires IsDigit(c)
  {
    c as int - '0' as int
  }

  // Digits after a number v
  function ReadDigits(s: string, v: nat): (nat, string)
    decreases |s|
  {
    if s != "" && IsDigit(s[0]) then ReadDigits(s[1..], 10 * v + DigitValue(s[0])) else (v, s)
  }

  function SkipSpace(s: string): string
    decreases |s|
  {
    if s != "" && IsSpace(s[0]) then SkipSpace(s[1..]) else s
  }

  // One integer conversion of sscanf: the value and what follows it
  function ReadInt(s: string): Option<(int, string)> {
    var t := SkipSpace(s);
    var negative := t != "" && t[0] == '-';
    var u := if t != "" && (t[0] == '-' || t[0] == '+') then t[1..] else t;
    if u == "" || !IsDigit(u[0]) then None
    else
      var (v, rest) := ReadDigits(u, 0);
      var value: int := v;
      Some((if negative then -value else value, rest))
  }

  const INT32: int := 0x8000_0000
  const UINT32: int := 0x1_0000_0000
  const INT64: int := 0x8000_0000_0000_0000
  const UINT64: int := 0x1_0000_0000_0000_0000

  // %ld and %d, as strtol reads them: what is too large saturates, and is cut to the width of the variable.
  function Signed64(v: int): int {
    if v >= INT64 then INT64 - 1 else if v < -INT64 then -INT64 else v
  }

  function Signed32(v: int): int {
    (Signed64(v) + INT32) % UINT32 - INT32
  }

  // %lu and %u, as strtoul reads them: a negative number counts from the top.
  function Unsigned64(v: int): (r: nat)
    ensures r < UINT64
  {
    if v >= UINT64 || v <= -UINT64 then UINT64 - 1 else v % UINT64
  }

  function Unsigned32(v: int): (r: nat)
    ensures r < UINT32
  {
    Unsigned64(v) % UINT32
  }

  // A text that does not go on with a digit
  predicate Ends(rest: string) {
    rest == "" || !IsDigit(rest[0])
  }

  lemma {:induction false} DecimalDigits(n: nat)
    ensures Decimal(n) != "" && IsDigit(Decimal(n)[0])
  {
    if n >= 10 {
      DecimalDigits(n / 10);
    }
  }

  // Reading the digits of a number continues with what follows them.
  lemma {:induction false} ReadDecimal(n: nat, rest: string)
    ensures ReadDigits(Decimal(n) + rest, 0) == ReadDigits(rest, n)
    decreases n
  {
    var last := [DigitOf(n % 10)];
    assert (last + rest)[1..] == rest && DigitValue(last[0]) == n % 10;
    if n >= 10 {
      assert Decimal(n) + rest == Decimal(n / 10) + (last + rest);
      ReadDecimal(n / 10, last + rest);
    }
  }

  // Reading undoes printing.
  lemma ReadPrinted(n: nat, rest: string)
    requires Ends(rest)
    ensures ReadInt(Decimal(n) + rest) == Some((n, rest)) && ReadInt(" " + Decimal(n) + rest) == Some((n, rest))
  {
    var s := Decimal(n) + rest;
    DecimalDigits(n);
    assert s[0] == Decimal(n)[0];
    assert SkipSpace(s) == s;
    assert (" " + Decimal(n) + rest)[1..] == s;
    ReadDecimal(n, rest);
  }

  // ---- Counts ------------------------------------------------------------------------------

  function CountLine(i: nat, count: nat): string {
    Decimal(i) + " " + Decimal(count)
  }

  // The loop of write_hist_counts from slot k on
  function CountLines(counts: seq<nat>, k: nat): seq<string>
    requires k <= |counts|
    decreases |counts| - k
  {
    if k == |counts| then []
    else (if counts[k] != 0 then [CountLine(k, counts[k])] else []) + CountLines(counts, k + 1)
  }

  // sscanf(buf, "%d %ld", ...) == 2
  function TwoInts(line: string): Option<(int, int)> {
    match ReadInt(line)
    case None => None
    case Some((a, rest)) =>
      match ReadInt(rest)
      case None => None
      case Some((b, _)) => Some((a, b))
  }

  predicate Starts(line: string, prefix: string) {
    |prefix| <= |line| && line[..|prefix|] == prefix
  }

  datatype Counted = Counted(counts: seq<nat>, total: nat)

  function Plus(h: Counted, i: nat, count: nat): Counted
    requires i < |h.counts|
  {
    Counted(h.counts[i := h.counts[i] + count], h.total + count)
  }

  // A text, line by line, and how long it is with the line feeds
  function Length(text: seq<string>): nat {
    if text == [] then 0 else |text[0]| + 1 + Length(text[1..])
  }

  // fgets with a buffer of the given size: a line, or as much of it as fits; and what is left of the text
  function Fgets(text: seq<string>, size: nat): (r: (string, seq<string>))
    requires text != [] && size >= 2
    ensures Length(r.1) < Length(text)
  {
    if |text[0]| + 1 < size then (text[0], text[1..])
    else
      var rest := [text[0][size - 1..]] + text[1..];
      assert rest[1..] == text[1..];
      (text[0][..size - 1], rest)
  }

  lemma ShortLine(line: string, rest: seq<string>, size: nat)
    requires |line| + 1 < size
    ensures [line] + rest != [] && Fgets([line] + rest, size) == (line, rest)
  {
    assert ([line] + rest)[1..] == rest;
  }

  // The loop of read_hist_counts: what is counted, and the text after the end marker
  function ReadLines(text: seq<string>, h: Counted): Option<(Counted, seq<string>)>
    decreases Length(text)
  {
    if text == [] then Some((h, []))
    else
      var (line, rest) := Fgets(text, 128);
      if Starts(line, "end") then Some((h, rest))
      else
        match TwoInts(line)
        case None => None
        case Some((i, count)) =>
          if Signed32(i) < 0 || Signed32(i) >= |h.counts| || Signed64(count) < 0 then None
          else ReadLines(rest, Plus(h, Signed32(i), Signed64(count)))
  }

  // The sum of two histograms from slot k on
  function Added(a: seq<nat>, b: seq<nat>, k: nat): (r: seq<nat>)
    requires |a| == |b| && k <= |a|
    ensures |r| == |a| && forall i :: 0 <= i < |a| ==> r[i] == if i < k then a[i] else a[i] + b[i]
  {
    seq(|a|, i requires 0 <= i < |a| => if i < k then a[i] else a[i] + b[i])
  }

  lemma CountLineReads(i: nat, count: nat)
    ensures TwoInts(CountLine(i, count)) == Some((i as int, count as int)) && !Starts(CountLine(i, count), "end")
  {
    ReadPrinted(i, " " + Decimal(count));
    assert CountLine(i, count) == Decimal(i) + (" " + Decimal(count));
    ReadPrinted(count, "");
    assert " " + Decimal(count) + "" == " " + Decimal(count);
    DecimalDigits(i);
    assert CountLine(i, count)[0] == Decimal(i)[0] != "end"[0];
  }

  function Power10(k: nat): nat {
    if k == 0 then 1 else 10 * Power10(k - 1)
  }

  lemma {:induction false} DecimalLength(n: nat, k: nat)
    requires k > 0 && n < Power10(k)
    ensures |Decimal(n)| <= k
    decreases k
  {
    if k > 1 {
      DecimalLength(n / 10, k - 1);
    }
  }

  lemma TwentyDigits(n: nat)
    requires n < UINT64
    ensures |Decimal(n)| <= 20
  {
    assert Power10(5) == 100000 by { assert Power10(3) == 1000; }
    assert Power10(10) == 10000000000 by { assert Power10(8) == 100000000; }
    assert Power10(15) == 1000000000000000 by { assert Power10(13) == 10000000000000; }
    assert Power10(20) == 100000000000000000000 by { assert Power10(18) == 1000000000000000000; }
    DecimalLength(n, 20);
  }

  lemma CountLineShort(i: nat, count: nat)
    requires i < UINT64 && count < UINT64
    ensures |CountLine(i, count)| <= 41
  {
    TwentyDigits(i);
    TwentyDigits(count);
  }

  // Adding the slots from k on starts with slot k.
  lemma AddedStep(a: seq<nat>, b: seq<nat>, k: nat)
    requires k <= |a| == |b|
    ensures if k == |a| then Added(a, b, k) == a
            else
              && Added(a, b, k) == Added(a[k := a[k] + b[k]], b, k + 1)
              && (b[k] == 0 ==> Added(a, b, k) == Added(a, b, k + 1))
  {
    if k < |a| {
      assert Added(a, b, k) == Added(a[k := a[k] + b[k]], b, k + 1);
    }
  }

  lemma EndStops(rest: seq<string>, h: Counted)
    ensures ReadLines(["end"] + rest, h) == Some((h, rest))
  {
    ShortLine("end", rest, 128);
  }

  lemma CountIsAdded(i: nat, count: nat, rest: seq<string>, h: Counted)
    requires i < |h.counts| < INT32 && count < INT64
    ensures ReadLines([CountLine(i, count)] + rest, h) == ReadLines(rest, Plus(h, i, count))
  {
    hide CountLine, TwoInts, Starts;
    CountLineReads(i, count);
    CountLineShort(i, count);
    ShortLine(CountLine(i, count), rest, 128);
  }

  // The reader adds back exactly the counts that were printed, and their total.
  lemma {:induction false} CountsRoundTrip(counts: seq<nat>, k: nat, h: Counted, rest: seq<string>)
    requires k <= |counts| == |h.counts| < INT32 && forall v :: v in counts ==> v < INT64
    ensures ReadLines(CountLines(counts, k) + ["end"] + rest, h)
         == Some((Counted(Added(h.counts, counts, k), h.total + Sum(counts[k..])), rest))
    decreases |counts| - k
  {
    hide CountLine, ReadLines, Added;
    AddedStep(h.counts, counts, k);
    var lines := CountLines(counts, k) + ["end"] + rest;
    if k == |counts| {
      assert lines == ["end"] + rest;
      EndStops(rest, h);
    } else {
      assert counts[k..][1..] == counts[k + 1..];
      var next := CountLines(counts, k + 1) + ["end"] + rest;
      if counts[k] == 0 {
        assert lines == next;
        CountsRoundTrip(counts, k + 1, h, rest);
      } else {
        assert counts[k] in counts;
        assert lines == [CountLine(k, counts[k])] + next;
        CountIsAdded(k, counts[k], next, h);
        CountsRoundTrip(counts, k + 1, Plus(h, k, counts[k]), rest);
      }
    }
  }

  // ---- The loops ---------------------------------------------------------------------------

  // write_hist_counts
  method WriteCounts(header: string, counts: array<nat>) returns (lines: seq<string>)
    ensures lines == [header] + CountLines(counts[..], 0) + ["end"]
  {
    lines := [header];
    var i := 0;
    while i < counts.Length
      invariant 0 <= i <= counts.Length
      invariant lines + CountLines(counts[..], i) == [header] + CountLines(counts[..], 0)
    {
      if counts[i] != 0 {
        lines := lines + [CountLine(i, counts[i])];
      }
      i := i + 1;
    }
    lines := lines + ["end"];
  }

  // The loop of read_hist_counts, on the array of a histogram; the result is 0 or -1.
  method ReadCounts(text: seq<string>, counts: array<nat>, total: nat)
    returns (rc: int, total': nat, rest: seq<string>)
    modifies counts
    ensures rc == 0 || rc == -1
    ensures match ReadLines(text, Counted(old(counts[..]), total))
            case None => rc == -1
            case Some((h, after)) => rc == 0 && counts[..] == h.counts && total' == h.total && rest == after
  {
    hide TwoInts, Signed32, Signed64, Starts, Fgets;
    rest, total' := text, total;
    while rest != []
      invariant ReadLines(rest, Counted(counts[..], total')) == ReadLines(text, Counted(old(counts[..]), total))
      decreases Length(rest)
    {
      var (line, after) := Fgets(rest, 128);
      if Starts(line, "end") {
        return 0, total', after;
      }
      var two := TwoInts(line);
      if two.None? {
        return -1, total', after;
      }
      var i, count := Signed32(two.value.0), Signed64(two.value.1);
      if i < 0 || i >= counts.Length || count < 0 {
        return -1, total', after;
      }
      ghost var before := counts[..];
      counts[i] := counts[i] + count;
      total' := total' + count;
      assert counts[..] == before[i := before[i] + count];
      rest := after;
    }
    rc := 0;
  }
}
