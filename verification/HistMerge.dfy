/**
 The merge of histogram files of src/wrk.c: whatever the order of the files, the result is the sum of
 the histograms and of the status counts of all runs.
 */
module HistMerge {
  import opened Basics
  import opened HistFiles

  // ---- Runs and their files ----------------------------------------------------------------

  // The parameters that the histograms of all files must share
  datatype Config = Config(lowest: nat, highest: nat, figures: nat, len: nat)

  // What a run leaves behind: url; rate, threads, connections, runtime_us, requests and bytes; six error
  // counts; the responses by status; and the two histograms
  datatype Run = Run(url: string, values: seq<nat>, errors: seq<nat>, codes: seq<nat>,
                     latency: seq<nat>, uLatency: seq<nat>)

  const KEYS: seq<string> := ["rate", "threads", "connections", "runtime_us", "requests", "bytes"]

  predicate NoSpace(s: string) {
    forall i :: 0 <= i < |s| ==> !IsSpace(s[i])
  }

  // A run never counts status 0, its URL is a word, and its numbers have the widths of their types.
  ghost predicate RunOk(config: Config, run: Run) {
    && run.url != "" && NoSpace(run.url)
    && ConfigOk(config)
    && |run.values| == 6 && |run.errors| == 6 && |run.codes| == 600 && run.codes[0] == 0
    && |run.latency| == |run.uLatency| == config.len
    && (forall v :: v in run.values || v in run.codes ==> v < UINT64) && (forall v :: v in run.errors ==> v < UINT32)
    && (forall v :: v in run.latency || v in run.uLatency ==> v < INT64)
  }

  function ValueLines(values: seq<nat>, k: nat): seq<string>
    requires |values| == 6 && k <= 6
    decreases 6 - k
  {
    if k == 6 then [] else [KEYS[k] + " " + Decimal(values[k])] + ValueLines(values, k + 1)
  }

  function Numbers(ns: seq<nat>): string {
    if ns == [] then "" else " " + Decimal(ns[0]) + Numbers(ns[1..])
  }

  function StatusLine(code: nat, count: nat): string {
    "status " + Decimal(code) + " " + Decimal(count)
  }

  function StatusLines(codes: seq<nat>, k: nat): seq<string>
    requires k <= |codes|
    decreases |codes| - k
  {
    if k == |codes| then []
    else (if codes[k] != 0 then [StatusLine(k, codes[k])] else []) + StatusLines(codes, k + 1)
  }

  function Header(name: string, config: Config): string {
    "hist " + name + Numbers([config.lowest, config.highest, config.figures, config.len])
  }

  function HistLines(name: string, config: Config, counts: seq<nat>): seq<string> {
    [Header(name, config)] + CountLines(counts, 0) + ["end"]
  }

  // write_hist
  function FileLines(config: Config, run: Run): seq<string>
    requires |run.values| == 6
  {
    ["wperfk-hist 1"] + (["url " + run.url] + ValueLines(run.values, 0) + ["errors" + Numbers(run.errors)])
    + StatusLines(run.codes, 0)
    + HistLines("latency", config, run.latency) + HistLines("u_latency", config, run.uLatency)
  }

  // ---- Reading a line ----------------------------------------------------------------------

  // sscanf(line, "<key> %lu", ...) == 1
  function FieldOf(line: string, key: string): Option<nat> {
    if !Starts(line, key) then None
    else
      match ReadInt(line[|key|..])
      case None => None
      case Some((v, _)) => Some(Unsigned64(v))
  }

  // The first of the keys, from k on, that the line has
  function KeyOf(line: string, k: nat): Option<(nat, nat)>
    requires k <= 6
    ensures KeyOf(line, k).Some? ==> k <= KeyOf(line, k).value.0 < 6
    decreases 6 - k
  {
    if k == 6 then None
    else
      match FieldOf(line, KEYS[k])
      case Some(v) => Some((k, v))
      case None => KeyOf(line, k + 1)
  }

  // n integer conversions
  function ReadInts(s: string, n: nat): (r: Option<seq<int>>)
    ensures r.Some? ==> |r.value| == n
    decreases n
  {
    if n == 0 then Some([])
    else
      match ReadInt(s)
      case None => None
      case Some((v, rest)) =>
        match ReadInts(rest, n - 1)
        case None => None
        case Some(vs) => Some([v] + vs)
  }

  // %<n>s after white space: a word of at most n characters
  function Word(s: string, n: nat): string {
    if s == "" || n == 0 || IsSpace(s[0]) then "" else [s[0]] + Word(s[1..], n - 1)
  }

  // sscanf(line, "url %4095s", ...) == 1
  predicate IsUrlLine(line: string) {
    Starts(line, "url") && SkipSpace(line[3..]) != ""
  }

  // The results of up to n conversions %u
  function ReadCounters(s: string, n: nat): (r: seq<nat>)
    ensures |r| <= n
    decreases n
  {
    if n == 0 then []
    else
      match ReadInt(s)
      case None => []
      case Some((v, rest)) => [Unsigned32(v)] + ReadCounters(rest, n - 1)
  }

  function UrlOf(line: string): string
    requires IsUrlLine(line)
  {
    Word(SkipSpace(line[3..]), 4095)
  }

  // sscanf(line, "errors %u %u %u %u %u %u", ...): a short line still sets the counts that it has.
  function ErrorsIn(line: string, errors: seq<nat>): (r: seq<nat>)
    requires Starts(line, "errors") && |errors| == 6
    ensures |r| == 6
  {
    var read := ReadCounters(line[6..], 6);
    read + errors[|read|..]
  }

  // sscanf(line, "status %d %lu", ...) == 2 with a code in range
  function StatusOf(line: string): (r: Option<(nat, nat)>)
    ensures r.Some? ==> 0 < r.value.0 < 600
  {
    if !Starts(line, "status") then None
    else
      match ReadInts(line[6..], 2)
      case None => None
      case Some(vs) => if 0 < Signed32(vs[0]) < 600 then Some((Signed32(vs[0]), Unsigned64(vs[1]))) else None
  }

  // The check at the start of read_hist_counts; `name` has been looked at before.
  predicate HeaderFits(line: string, name: string, config: Config) {
    && |line| >= 5 + |name|
    && match ReadInts(line[5 + |name|..], 4)
       case None => false
       case Some(vs) =>
         && Signed64(vs[0]) == config.lowest && Signed64(vs[1]) == config.highest
         && Signed64(vs[2]) == config.figures && Signed32(vs[3]) == config.len
  }

  // ---- Reading a file ----------------------------------------------------------------------

  // hist_meta: the values by key, and the error counts
  datatype Meta = Meta(values: seq<nat>, errors: seq<nat>)

  // The URL of all runs so far, or that there are several
  function Seen(url: string, u: string): string {
    if url == "" || url == u then u else "(multiple)"
  }

  datatype Totals = Totals(url: string, codes: seq<nat>, latency: Counted, uLatency: Counted)

  ghost predicate TotalsOk(config: Config, t: Totals) {
    |t.codes| == 600 && |t.latency.counts| == |t.uLatency.counts| == config.len
  }

  lemma {:induction false} ReadShrinks(text: seq<string>, h: Counted)
    ensures var r := ReadLines(text, h);
      r.Some? ==> Length(r.value.1) <= Length(text) && |r.value.0.counts| == |h.counts|
    decreases Length(text)
  {
    hide TwoInts, Signed32, Signed64, Starts, Fgets;
    if text != [] {
      var (line, rest) := Fgets(text, 128);
      var two := TwoInts(line);
      if !Starts(line, "end") && two.Some? {
        var i, count := Signed32(two.value.0), Signed64(two.value.1);
        if 0 <= i < |h.counts| && count >= 0 {
          ReadShrinks(rest, Plus(h, i, count));
        }
      }
    }
  }

  predicate IsPlain(line: string) {
    IsUrlLine(line) || KeyOf(line, 0).Some? || Starts(line, "errors") || StatusOf(line).Some?
  }

  // A line outside the histograms: the values of the run are those of the last line with the key, and
  // status counts are added to the totals.
  function Plain(line: string, m: Meta, t: Totals): (r: (Meta, Totals))
    requires |m.values| == |m.errors| == 6 && |t.codes| == 600
    ensures |r.0.values| == |r.0.errors| == 6 && |r.1.codes| == 600
    ensures r.1.latency == t.latency && r.1.uLatency == t.uLatency
  {
    if IsUrlLine(line) then (m, t.(url := Seen(t.url, UrlOf(line))))
    else if KeyOf(line, 0).Some? then
      var (k, v) := KeyOf(line, 0).value;
      (m.(values := m.values[k := v]), t)
    else if Starts(line, "errors") then (m.(errors := ErrorsIn(line, m.errors)), t)
    else if StatusOf(line).Some? then
      var (code, count) := StatusOf(line).value;
      (m, t.(codes := t.codes[code := t.codes[code] + count]))
    else (m, t)
  }

  // One turn of the loop over the text of a file
  function Turn(config: Config, text: seq<string>, m: Meta, t: Totals): (r: Option<(seq<string>, Meta, Totals)>)
    requires text != [] && |m.values| == |m.errors| == 6 && |t.codes| == 600
    ensures r.Some? ==> Length(r.value.0) < Length(text)
    ensures r.Some? ==> |r.value.1.values| == |r.value.1.errors| == 6 && |r.value.2.codes| == 600
  {
    var (line, rest) := Fgets(text, 4096);
    if !IsPlain(line) && Starts(line, "hist latency ") then
      if !HeaderFits(line, "latency", config) then None
      else
        ReadShrinks(rest, t.latency);
        match ReadLines(rest, t.latency)
        case None => None
        case Some((h, after)) => Some((after, m, t.(latency := h)))
    else if !IsPlain(line) && Starts(line, "hist u_latency ") then
      if !HeaderFits(line, "u_latency", config) then None
      else
        ReadShrinks(rest, t.uLatency);
        match ReadLines(rest, t.uLatency)
        case None => None
        case Some((h, after)) => Some((after, m, t.(uLatency := h)))
    else
      var (m', t') := Plain(line, m, t);
      Some((rest, m', t'))
  }

  // The text of a file after the first line
  function MergeLines(config: Config, text: seq<string>, m: Meta, t: Totals): (r: Option<(Meta, Totals)>)
    requires |m.values| == |m.errors| == 6 && |t.codes| == 600
    ensures r.Some? ==> |r.value.0.values| == |r.value.0.errors| == 6 && |r.value.1.codes| == 600
    decreases Length(text)
  {
    if text == [] then Some((m, t))
    else
      match Turn(config, text, m, t)
      case None => None
      case Some((rest, m', t')) => MergeLines(config, rest, m', t')
  }

  // A line that fits into the buffer and does not start a histogram
  lemma PlainLine(config: Config, line: string, rest: seq<string>, m: Meta, t: Totals)
    requires |m.values| == |m.errors| == 6 && |t.codes| == 600 && |line| < 4095
    requires IsPlain(line) || (!Starts(line, "hist latency ") && !Starts(line, "hist u_latency "))
    ensures var (m', t') := Plain(line, m, t);
      MergeLines(config, [line] + rest, m, t) == MergeLines(config, rest, m', t')
  {
    hide Plain, IsPlain, Starts, HeaderFits, ReadLines;
    ShortLine(line, rest, 4096);
  }

  // ---- Which line is which -----------------------------------------------------------------

  lemma Differs(line: string, prefix: string, i: nat)
    requires i < |prefix| && (i < |line| ==> line[i] != prefix[i])
    ensures !Starts(line, prefix)
  {
  }

  function Ints(ns: seq<nat>): seq<int> {
    seq(|ns|, i requires 0 <= i < |ns| => ns[i])
  }

  lemma {:induction false} ReadNumbers(ns: seq<nat>, rest: string)
    requires Ends(rest)
    ensures ReadInts(Numbers(ns) + rest, |ns|) == Some(Ints(ns))
    decreases |ns|
  {
    if ns == [] {
      assert Ints(ns) == [];
    } else {
      var tail := Numbers(ns[1..]) + rest;
      assert Numbers(ns) + rest == " " + Decimal(ns[0]) + tail;
      assert ns[1..] != [] ==> tail[0] == ' ';
      ReadPrinted(ns[0], tail);
      ReadNumbers(ns[1..], rest);
      assert Ints(ns) == [ns[0] as int] + Ints(ns[1..]);
    }
  }

  lemma NumbersBegin(ns: seq<nat>)
    ensures Ends(Numbers(ns))
    ensures Numbers(ns) == if ns == [] then "" else " " + Decimal(ns[0]) + Numbers(ns[1..])
  {
    hide Decimal;
  }

  lemma {:induction false} ReadErrors(ns: seq<nat>)
    requires forall v :: v in ns ==> v < UINT32
    ensures ReadCounters(Numbers(ns), |ns|) == ns
    decreases |ns|
  {
    hide Decimal, ReadInt, Numbers;
    NumbersBegin(ns);
    if ns != [] {
      NumbersBegin(ns[1..]);
      ReadPrinted(ns[0], Numbers(ns[1..]));
      assert forall v :: v in ns[1..] ==> v in ns;
      assert ns[0] in ns;
      ReadErrors(ns[1..]);
    }
  }

  // The keys tell the lines apart: the position where two of them differ.
  lemma KeysDiffer(j: nat, k: nat, text: string)
    requires j < k < 6
    ensures !Starts(KEYS[k] + " " + text, KEYS[j])
  {
    var line := KEYS[k] + " " + text;
    if j == 0 {
      Differs(line, KEYS[j], if k == 3 || k == 4 then 1 else 0);
    } else if j == 4 || j == 3 {
      Differs(line, KEYS[j], if k == 4 then 1 else 0);
    } else {
      Differs(line, KEYS[j], 0);
    }
  }

  lemma {:induction false} ValueKey(k: nat, v: nat, j: nat)
    requires j <= k < 6
    ensures KeyOf(KEYS[k] + " " + Decimal(v), j) == Some((k, Unsigned64(v)))
    decreases k - j
  {
    var line := KEYS[k] + " " + Decimal(v);
    if j < k {
      KeysDiffer(j, k, Decimal(v));
      ValueKey(k, v, j + 1);
    } else {
      assert line[..|KEYS[k]|] == KEYS[k] && line[|KEYS[k]|..] == " " + Decimal(v) + "";
      ReadPrinted(v, "");
    }
  }

  lemma ValueIsNoUrl(k: nat, text: string)
    requires k < 6
    ensures !Starts(KEYS[k] + " " + text, "url")
  {
    Differs(KEYS[k] + " " + text, "url", 0);
  }

  // A line that starts with none of the keys
  lemma {:induction false} NoKey(line: string, k: nat)
    requires k <= 6 && forall j :: k <= j < 6 ==> !Starts(line, KEYS[j])
    ensures KeyOf(line, k) == None
    decreases 6 - k
  {
    if k < 6 {
      NoKey(line, k + 1);
    }
  }

  lemma OtherLines(line: string)
    requires Starts(line, "errors") || Starts(line, "status") || Starts(line, "hist")
    ensures !Starts(line, "url") && KeyOf(line, 0) == None
    ensures Starts(line, "status") || Starts(line, "hist") ==> !Starts(line, "errors")
    ensures Starts(line, "hist") ==> !Starts(line, "status")
  {
    var word := if Starts(line, "errors") then "errors" else if Starts(line, "status") then "status" else "hist";
    assert line[0] == line[..|word|][0];
    Differs(line, "url", 0);
    forall j | 0 <= j < 6 ensures !Starts(line, KEYS[j]) {
      Differs(line, KEYS[j], 0);
    }
    NoKey(line, 0);
    if word != "errors" {
      Differs(line, "errors", 0);
    }
    if word == "hist" {
      Differs(line, "status", 0);
    }
  }

  // ---- The URL -----------------------------------------------------------------------------

  // How fgets cuts a line, or the rest of one, that does not fit into the buffer
  function Pieces(tail: string): seq<string> {
    if |tail| < 4095 then [tail] else [tail[..4095]] + Pieces(tail[4095..])
  }

  // The line of a URL holds so much of it; the rest makes up lines of its own.
  function FirstPiece(url: string): string {
    if |url| < 4091 then url else url[..4091]
  }

  function LaterPieces(url: string): seq<string> {
    if |url| < 4091 then [] else Pieces(url[4091..])
  }

  function PlainAll(pieces: seq<string>, m: Meta, t: Totals): (r: (Meta, Totals))
    requires |m.values| == |m.errors| == 6 && |t.codes| == 600
    ensures |r.0.values| == |r.0.errors| == 6 && |r.1.codes| == 600
  {
    if pieces == [] then (m, t)
    else
      var (m', t') := Plain(pieces[0], m, t);
      PlainAll(pieces[1..], m', t')
  }

  lemma NoSpaceNoHist(piece: string)
    requires NoSpace(piece)
    ensures !Starts(piece, "hist latency ") && !Starts(piece, "hist u_latency ")
  {
    if |piece| > 4 {
      assert !IsSpace(piece[4]);
    }
    Differs(piece, "hist latency ", 4);
    Differs(piece, "hist u_latency ", 4);
  }

  // The rest of a URL is read as if each piece were a line.
  lemma {:induction false} PiecesStep(config: Config, tail: string, rest: seq<string>, m: Meta, t: Totals)
    requires |m.values| == |m.errors| == 6 && |t.codes| == 600 && NoSpace(tail)
    ensures var (m', t') := PlainAll(Pieces(tail), m, t);
      MergeLines(config, [tail] + rest, m, t) == MergeLines(config, rest, m', t')
    decreases |tail|
  {
    hide Plain, IsPlain, MergeLines;
    if |tail| < 4095 {
      NoSpaceNoHist(tail);
      PlainLine(config, tail, rest, m, t);
      assert Pieces(tail)[1..] == [];
    } else {
      var piece, left := tail[..4095], tail[4095..];
      NoSpaceNoHist(piece);
      LongLine(config, tail, rest, m, t);
      var (m', t') := Plain(piece, m, t);
      PiecesStep(config, left, rest, m', t');
      assert Pieces(tail)[1..] == Pieces(left);
    }
  }

  // The beginning of a line that does not fit
  lemma LongLine(config: Config, line: string, rest: seq<string>, m: Meta, t: Totals)
    requires |m.values| == |m.errors| == 6 && |t.codes| == 600 && |line| >= 4095
    requires var piece := line[..4095];
      IsPlain(piece) || (!Starts(piece, "hist latency ") && !Starts(piece, "hist u_latency "))
    ensures var (m', t') := Plain(line[..4095], m, t);
      MergeLines(config, [line] + rest, m, t) == MergeLines(config, [line[4095..]] + rest, m', t')
  {
    hide Plain, IsPlain, Starts, HeaderFits, ReadLines;
    assert ([line] + rest)[1..] == rest;
    assert Fgets([line] + rest, 4096) == (line[..4095], [line[4095..]] + rest);
  }

  // ---- What is read of a URL ---------------------------------------------------------------

  function SeenAll(url: string, words: seq<string>): string
    decreases |words|
  {
    if words == [] then url else SeenAll(Seen(url, words[0]), words[1..])
  }

  // Pieces that look like a line with a URL, and those that look like a count of responses
  function WordsOf(pieces: seq<string>): seq<string> {
    if pieces == [] then []
    else (if IsUrlLine(pieces[0]) then [UrlOf(pieces[0])] else []) + WordsOf(pieces[1..])
  }

  function CountAt(piece: string, code: nat): nat {
    match StatusOf(piece)
    case None => 0
    case Some((c, count)) => if c == code then count else 0
  }

  function MisreadAt(pieces: seq<string>, code: nat): nat {
    if pieces == [] then 0 else CountAt(pieces[0], code) + MisreadAt(pieces[1..], code)
  }

  lemma MisreadOne(line: string, code: nat)
    ensures MisreadAt([line], code) == CountAt(line, code)
  {
    assert [line][1..] == [];
  }

  function Misread(pieces: seq<string>): (r: seq<nat>)
    ensures |r| == 600 && forall code :: 0 <= code < 600 ==> r[code] == MisreadAt(pieces, code)
  {
    seq(600, code requires 0 <= code < 600 => MisreadAt(pieces, code))
  }

  // All words that are read of a URL
  function UrlWords(url: string): seq<string> {
    [FirstPiece(url)] + WordsOf(LaterPieces(url))
  }

  // The totals after the line of a URL and the lines that its rest makes up
  function UrlRead(t: Totals, url: string): Totals
    requires |t.codes| == 600
  {
    t.(url := SeenAll(t.url, UrlWords(url)),
       codes := Added(t.codes, Misread(LaterPieces(url)), 0))
  }

  lemma StatusIsNothingElse(line: string)
    requires StatusOf(line).Some?
    ensures !IsUrlLine(line) && KeyOf(line, 0) == None && !Starts(line, "errors")
  {
    OtherLines(line);
  }

  lemma PlainIs(line: string, m: Meta, t: Totals)
    requires |m.values| == |m.errors| == 6 && |t.codes| == 600
    ensures var t' := Plain(line, m, t).1;
      t' == t.(url := SeenAll(t.url, WordsOf([line])), codes := Added(t.codes, Misread([line]), 0))
  {
    hide KeyOf, StatusOf, ErrorsIn, IsUrlLine, UrlOf, Seen, MisreadAt;
    assert [line][1..] == [];
    forall code | 0 <= code < 600 ensures Misread([line])[code] == CountAt(line, code) {
      MisreadOne(line, code);
    }
    if StatusOf(line).Some? {
      StatusIsNothingElse(line);
      var (code, count) := StatusOf(line).value;
      assert Added(t.codes, Misread([line]), 0) == t.codes[code := t.codes[code] + count];
    } else {
      assert Added(t.codes, Misread([line]), 0) == t.codes;
    }
    assert IsUrlLine(line) ==> [UrlOf(line)][1..] == [];
  }

  lemma {:induction false} PlainAllIs(pieces: seq<string>, m: Meta, t: Totals)
    requires |m.values| == |m.errors| == 6 && |t.codes| == 600
    ensures var t' := PlainAll(pieces, m, t).1;
      t' == t.(url := SeenAll(t.url, WordsOf(pieces)), codes := Added(t.codes, Misread(pieces), 0))
    decreases |pieces|
  {
    hide Plain, StatusOf, IsUrlLine, UrlOf, Seen;
    if pieces == [] {
      assert Added(t.codes, Misread([]), 0) == t.codes;
    } else {
      var (m', t') := Plain(pieces[0], m, t);
      PlainIs(pieces[0], m, t);
      PlainAllIs(pieces[1..], m', t');
      assert [pieces[0]][1..] == [];
      SeenJoined(t.url, WordsOf([pieces[0]]), WordsOf(pieces[1..]));
      assert WordsOf(pieces) == WordsOf([pieces[0]]) + WordsOf(pieces[1..]);
      forall code | 0 <= code < 600
        ensures Misread(pieces)[code] == Misread([pieces[0]])[code] + Misread(pieces[1..])[code]
      {
        MisreadOne(pieces[0], code);
      }
      assert Added(Added(t.codes, Misread([pieces[0]]), 0), Misread(pieces[1..]), 0)
          == Added(t.codes, Misread(pieces), 0);
    }
  }

  lemma {:induction false} SeenJoined(url: string, a: seq<string>, b: seq<string>)
    ensures SeenAll(SeenAll(url, a), b) == SeenAll(url, a + b)
    decreases |a|
  {
    if a == [] {
      assert a + b == b;
    } else {
      SeenJoined(Seen(url, a[0]), a[1..], b);
      assert (a + b)[1..] == a[1..] + b;
    }
  }

  lemma {:induction false} WordWhole(s: string, n: nat)
    requires |s| <= n && NoSpace(s)
    ensures Word(s, n) == s
    decreases |s|
  {
    if s != "" {
      WordWhole(s[1..], n - 1);
    }
  }

  lemma UrlLine(url: string, m: Meta, t: Totals)
    requires |m.values| == |m.errors| == 6 && |t.codes| == 600 && 0 < |url| <= 4095 && NoSpace(url)
    ensures IsPlain("url " + url) && Plain("url " + url, m, t) == (m, t.(url := Seen(t.url, url)))
  {
    WordWhole(url, 4095);
    var line := "url " + url;
    assert line[..3] == "url" && line[3..] == " " + url && line[3..][1..] == url;
    assert SkipSpace(url) == url;
  }

  // The line of a URL: what is read of other values does not matter, since their lines follow.
  lemma UrlStep(config: Config, url: string, rest: seq<string>, m: Meta, t: Totals) returns (m': Meta)
    requires |m.values| == |m.errors| == 6 && |t.codes| == 600 && url != "" && NoSpace(url)
    ensures |m'.values| == |m'.errors| == 6
    ensures MergeLines(config, ["url " + url] + rest, m, t) == MergeLines(config, rest, m', UrlRead(t, url))
  {
    hide Plain, IsPlain, MergeLines, Seen, PlainAll, StatusOf, IsUrlLine;
    var line, first := "url " + url, FirstPiece(url);
    UrlLine(first, m, t);
    var t1 := t.(url := Seen(t.url, first));
    SeenJoined(t.url, [first], WordsOf(LaterPieces(url)));
    assert [first][1..] == [];
    if |url| < 4091 {
      PlainLine(config, line, rest, m, t);
      assert Added(t.codes, Misread([]), 0) == t.codes;
      m' := m;
    } else {
      var tail := url[4091..];
      assert line[..4095] == "url " + first && line[4095..] == tail;
      LongLine(config, line, rest, m, t);
      PiecesStep(config, tail, rest, m, t1);
      PlainAllIs(Pieces(tail), m, t1);
      m' := PlainAll(Pieces(tail), m, t1).0;
    }
  }

  // ---- The sections of a file --------------------------------------------------------------

  lemma ValueStep(config: Config, k: nat, v: nat, rest: seq<string>, m: Meta, t: Totals)
    requires |m.values| == |m.errors| == 6 && |t.codes| == 600 && k < 6 && v < UINT64
    ensures MergeLines(config, [KEYS[k] + " " + Decimal(v)] + rest, m, t)
         == MergeLines(config, rest, m.(values := m.values[k := v]), t)
  {
    hide KeyOf, Decimal, MergeLines;
    var line := KEYS[k] + " " + Decimal(v);
    ValueKey(k, v, 0);
    ValueIsNoUrl(k, Decimal(v));
    TwentyDigits(v);
    PlainLine(config, line, rest, m, t);
  }

  lemma NoValueLines(values: seq<nat>, rest: seq<string>, m: Meta)
    requires |values| == |m.values| == 6
    ensures ValueLines(values, 6) + rest == rest && m.(values := m.values[..6] + values[6..]) == m
  {
  }

  lemma MoreValueLines(values: seq<nat>, k: nat, rest: seq<string>)
    requires |values| == 6 && k < 6
    ensures ValueLines(values, k) + rest
         == [KEYS[k] + " " + Decimal(values[k])] + (ValueLines(values, k + 1) + rest)
  {
    hide Decimal;
  }

  // The values from k on replace those that were there.
  lemma {:induction false} ValueSteps(config: Config, values: seq<nat>, k: nat, rest: seq<string>, m: Meta, t: Totals)
    requires |values| == |m.values| == |m.errors| == 6 && |t.codes| == 600 && k <= 6
        && forall v :: v in values ==> v < UINT64
    ensures MergeLines(config, ValueLines(values, k) + rest, m, t)
         == MergeLines(config, rest, m.(values := m.values[..k] + values[k..]), t)
    decreases 6 - k
  {
    hide MergeLines, Decimal;
    if k == 6 {
      NoValueLines(values, rest, m);
    } else {
      var next := ValueLines(values, k + 1) + rest;
      MoreValueLines(values, k, rest);
      assert values[k] in values;
      ValueStep(config, k, values[k], next, m, t);
      var m' := m.(values := m.values[k := values[k]]);
      ValueSteps(config, values, k + 1, rest, m', t);
      assert m'.values[..k + 1] + values[k + 1..] == m.values[..k] + values[k..];
    }
  }

  lemma ErrorsRead(errors: seq<nat>, before: seq<nat>)
    requires |errors| == |before| == 6 && forall v :: v in errors ==> v < UINT32
    ensures var line := "errors" + Numbers(errors); Starts(line, "errors") && ErrorsIn(line, before) == errors
  {
    var line := "errors" + Numbers(errors);
    assert line[..6] == "errors" && line[6..] == Numbers(errors);
    ReadErrors(errors);
  }

  lemma ErrorsStep(config: Config, errors: seq<nat>, rest: seq<string>, m: Meta, t: Totals)
    requires |m.values| == |m.errors| == 6 && |t.codes| == 600 && |errors| == 6
        && forall v :: v in errors ==> v < UINT32
    ensures MergeLines(config, ["errors" + Numbers(errors)] + rest, m, t)
         == MergeLines(config, rest, m.(errors := errors), t)
  {
    hide ErrorsIn, Numbers, KeyOf, MergeLines, StatusOf;
    var line := "errors" + Numbers(errors);
    ErrorsRead(errors, m.errors);
    OtherLines(line);
    NumbersShort(errors);
    PlainLine(config, line, rest, m, t);
  }

  lemma {:induction false} NumbersShort(ns: seq<nat>)
    requires forall v :: v in ns ==> v < UINT64
    ensures |Numbers(ns)| <= 21 * |ns|
    decreases |ns|
  {
    if ns != [] {
      assert ns[0] in ns && forall v :: v in ns[1..] ==> v in ns;
      TwentyDigits(ns[0]);
      NumbersShort(ns[1..]);
    }
  }

  lemma StatusReads(code: nat, count: nat)
    requires 0 < code < 600 && count < UINT64
    ensures Starts(StatusLine(code, count), "status") && StatusOf(StatusLine(code, count)) == Some((code, count))
  {
    hide ReadInts, Numbers, Decimal;
    var line, ns := StatusLine(code, count), [code, count];
    TwoNumbers(code, count);
    assert line == "status" + Numbers(ns);
    assert line[..6] == "status" && line[6..] == Numbers(ns) + "";
    ReadNumbers(ns, "");
    assert Ints(ns) == [code as int, count as int];
  }

  lemma TwoNumbers(a: nat, b: nat)
    ensures Numbers([a, b]) == " " + Decimal(a) + " " + Decimal(b)
  {
    assert [a, b][1..] == [b] && [b][1..] == [];
    assert Numbers([b]) == " " + Decimal(b) + "" == " " + Decimal(b);
  }

  lemma StatusStep(config: Config, code: nat, count: nat, rest: seq<string>, m: Meta, t: Totals)
    requires |m.values| == |m.errors| == 6 && |t.codes| == 600 && 0 < code < 600 && count < UINT64
    ensures MergeLines(config, [StatusLine(code, count)] + rest, m, t)
         == MergeLines(config, rest, m, t.(codes := t.codes[code := t.codes[code] + count]))
  {
    hide StatusOf, KeyOf, ErrorsIn, MergeLines, Decimal;
    var line := StatusLine(code, count);
    StatusReads(code, count);
    OtherLines(line);
    TwentyDigits(code);
    TwentyDigits(count);
    PlainLine(config, line, rest, m, t);
  }

  lemma {:induction false} StatusSteps(config: Config, codes: seq<nat>, k: nat, rest: seq<string>, m: Meta, t: Totals)
    requires |m.values| == |m.errors| == 6 && |t.codes| == |codes| == 600 && k <= 600
    requires codes[0] == 0 && forall v :: v in codes ==> v < UINT64
    ensures MergeLines(config, StatusLines(codes, k) + rest, m, t)
         == MergeLines(config, rest, m, t.(codes := Added(t.codes, codes, k)))
    decreases 600 - k
  {
    hide Added, StatusLine, MergeLines;
    AddedStep(t.codes, codes, k);
    if k == 600 {
      assert StatusLines(codes, k) + rest == rest;
    } else {
      var next := StatusLines(codes, k + 1) + rest;
      if codes[k] == 0 {
        assert StatusLines(codes, k) + rest == next;
        StatusSteps(config, codes, k + 1, rest, m, t);
      } else {
        var line := StatusLine(k, codes[k]);
        assert StatusLines(codes, k) + rest == [line] + next;
        assert codes[k] in codes;
        StatusStep(config, k, codes[k], next, m, t);
        StatusSteps(config, codes, k + 1, rest, m, t.(codes := t.codes[k := t.codes[k] + codes[k]]));
      }
    }
  }

  lemma NoStatus(line: string)
    ensures !Starts(line, "status") ==> StatusOf(line) == None
  {
  }

  ghost predicate ConfigOk(config: Config) {
    config.lowest < INT64 && config.highest < INT64 && config.figures < INT64 && config.len < INT32
  }

  lemma HeaderReads(name: string, config: Config)
    requires ConfigOk(config)
    ensures |Header(name, config)| <= 89 + |name|
    ensures HeaderFits(Header(name, config), name, config) && Starts(Header(name, config), "hist " + name)
    ensures Starts(Header(name, config), "hist " + name + " ") && Starts(Header(name, config), "hist")
  {
    var ns := [config.lowest, config.highest, config.figures, config.len];
    var line := Header(name, config);
    assert line[5 + |name|..] == Numbers(ns) + "";
    ReadNumbers(ns, "");
    NumbersShort(ns);
    assert Ints(ns) == [config.lowest as int, config.highest as int, config.figures as int, config.len as int];
    assert Numbers(ns)[0] == ' ';
    assert line[..4] == "hist";
  }

  lemma HistIsNothingElse(line: string)
    requires Starts(line, "hist")
    ensures !IsUrlLine(line) && KeyOf(line, 0) == None && !Starts(line, "errors") && StatusOf(line) == None
  {
    OtherLines(line);
    NoStatus(line);
  }

  lemma HistStep(config: Config, line: string, rest: seq<string>, h: Counted, after: seq<string>, m: Meta, t: Totals)
    requires |m.values| == |m.errors| == 6 && |t.codes| == 600 && Starts(line, "hist") && |line| < 4095
    ensures Starts(line, "hist latency ") && HeaderFits(line, "latency", config)
        && ReadLines(rest, t.latency) == Some((h, after))
      ==> MergeLines(config, [line] + rest, m, t) == MergeLines(config, after, m, t.(latency := h))
    ensures Starts(line, "hist u_latency ") && !Starts(line, "hist latency ") && HeaderFits(line, "u_latency", config)
      && ReadLines(rest, t.uLatency) == Some((h, after))
      ==> MergeLines(config, [line] + rest, m, t) == MergeLines(config, after, m, t.(uLatency := h))
  {
    hide HeaderFits, IsUrlLine, KeyOf, ErrorsIn, StatusOf, ReadLines;
    HistIsNothingElse(line);
    ShortLine(line, rest, 4096);
    ReadShrinks(rest, t.latency);
    ReadShrinks(rest, t.uLatency);
  }

  lemma HistSplit(name: string, config: Config, counts: seq<nat>, rest: seq<string>)
    ensures HistLines(name, config, counts) + rest == [Header(name, config)] + (CountLines(counts, 0) + ["end"] + rest)
  {
    var h, c, e := [Header(name, config)], CountLines(counts, 0), ["end"];
    assert h + c + e + rest == h + (c + e + rest);
  }

  lemma LatencyHeader(config: Config)
    requires ConfigOk(config)
    ensures |Header("latency", config)| < 4095
    ensures var line := Header("latency", config);
      HeaderFits(line, "latency", config) && Starts(line, "hist latency ") && Starts(line, "hist")
  {
    HeaderReads("latency", config);
    assert "hist " + "latency" + " " == "hist latency ";
  }

  lemma ULatencyHeader(config: Config)
    requires ConfigOk(config)
    ensures |Header("u_latency", config)| < 4095
    ensures var line := Header("u_latency", config);
      && HeaderFits(line, "u_latency", config) && Starts(line, "hist u_latency ") && Starts(line, "hist")
      && !Starts(line, "hist latency ")
  {
    var line := Header("u_latency", config);
    HeaderReads("u_latency", config);
    assert "hist " + "u_latency" + " " == "hist u_latency ";
    assert line[..6] == "hist u";
    Differs(line, "hist latency ", 5);
  }

  lemma CountsRead(counts: seq<nat>, h: Counted, rest: seq<string>)
    requires |counts| == |h.counts| < INT32 && forall v :: v in counts ==> v < INT64
    ensures ReadLines(CountLines(counts, 0) + ["end"] + rest, h) == Some((Sumup(h, counts), rest))
  {
    hide Added, ReadLines, CountLines, Sum;
    CountsRoundTrip(counts, 0, h, rest);
    assert counts[0..] == counts;
  }

  // read_hist_counts of a printed histogram
  lemma LatencyStep(config: Config, counts: seq<nat>, rest: seq<string>, m: Meta, t: Totals)
    requires |m.values| == |m.errors| == 6 && |t.codes| == 600 && |counts| == |t.latency.counts| == config.len
    requires ConfigOk(config) && forall v :: v in counts ==> v < INT64
    ensures MergeLines(config, HistLines("latency", config, counts) + rest, m, t)
         == MergeLines(config, rest, m, t.(latency := Sumup(t.latency, counts)))
  {
    hide Header, HeaderFits, MergeLines, ReadLines, CountLines, Starts, HistLines, Sumup;
    var line := Header("latency", config);
    var next := CountLines(counts, 0) + ["end"] + rest;
    HistSplit("latency", config, counts, rest);
    LatencyHeader(config);
    HistStep(config, line, next, Sumup(t.latency, counts), rest, m, t);
    CountsRead(counts, t.latency, rest);
  }

  lemma ULatencyStep(config: Config, counts: seq<nat>, rest: seq<string>, m: Meta, t: Totals)
    requires |m.values| == |m.errors| == 6 && |t.codes| == 600 && |counts| == |t.uLatency.counts| == config.len
    requires ConfigOk(config) && forall v :: v in counts ==> v < INT64
    ensures MergeLines(config, HistLines("u_latency", config, counts) + rest, m, t)
         == MergeLines(config, rest, m, t.(uLatency := Sumup(t.uLatency, counts)))
  {
    hide Header, HeaderFits, MergeLines, ReadLines, CountLines, Starts, HistLines, Sumup;
    var line := Header("u_latency", config);
    var next := CountLines(counts, 0) + ["end"] + rest;
    HistSplit("u_latency", config, counts, rest);
    ULatencyHeader(config);
    HistStep(config, line, next, Sumup(t.uLatency, counts), rest, m, t);
    CountsRead(counts, t.uLatency, rest);
  }

  // Two histograms added slot by slot
  function Sumup(h: Counted, counts: seq<nat>): Counted
    requires |counts| == |h.counts|
  {
    Counted(Added(h.counts, counts, 0), h.total + Sum(counts))
  }

  function WithRun(t: Totals, run: Run): Totals
    requires |t.codes| == |run.codes| == 600
    requires |t.latency.counts| == |run.latency| && |t.uLatency.counts| == |run.uLatency|
  {
    var t' := UrlRead(t, run.url);
    Totals(t'.url, Added(t'.codes, run.codes, 0), Sumup(t.latency, run.latency), Sumup(t.uLatency, run.uLatency))
  }

  // Reading the file of a run gives back its values and error counts, and adds exactly its histograms to the
  // totals, and its status counts and what is misread of its URL.
  lemma FileRoundTrip(config: Config, run: Run, m: Meta, t: Totals)
    requires RunOk(config, run) && TotalsOk(config, t) && |m.values| == |m.errors| == 6
    ensures FileLines(config, run)[0] == "wperfk-hist 1"
    ensures MergeLines(config, FileLines(config, run)[1..], m, t)
        == Some((Meta(run.values, run.errors), WithRun(t, run)))
  {
    hide MergeLines, Added, Sum, HistLines, StatusLines, Numbers, Pieces, Misread, WordsOf, SeenAll;
    var d := HistLines("u_latency", config, run.uLatency);
    var c := HistLines("latency", config, run.latency) + d;
    var b := StatusLines(run.codes, 0) + c;
    var a := ["errors" + Numbers(run.errors)] + b;
    var v := ValueLines(run.values, 0) + a;
    assert FileLines(config, run)[1..] == ["url " + run.url] + v;
    var m0 := UrlStep(config, run.url, v, m, t);
    var t0 := UrlRead(t, run.url);
    ValueSteps(config, run.values, 0, a, m0, t0);
    assert m0.values[..0] + run.values[0..] == run.values;
    var m1 := m0.(values := run.values);
    ErrorsStep(config, run.errors, b, m1, t0);
    var m2 := m1.(errors := run.errors);
    StatusSteps(config, run.codes, 0, c, m2, t0);
    var t1 := t0.(codes := Added(t0.codes, run.codes, 0));
    LatencyStep(config, run.latency, d, m2, t1);
    var t2 := t1.(latency := Sumup(t1.latency, run.latency));
    assert d == d + [];
    ULatencyStep(config, run.uLatency, [], m2, t2);
    Finished(config, m2, t2.(uLatency := Sumup(t2.uLatency, run.uLatency)));
  }

  lemma Finished(config: Config, m: Meta, t: Totals)
    requires |m.values| == |m.errors| == 6 && |t.codes| == 600
    ensures MergeLines(config, [], m, t) == Some((m, t))
  {
  }

  // ---- All files ---------------------------------------------------------------------------

  const NO_META: Meta := Meta([0, 0, 0, 0, 0, 0], [0, 0, 0, 0, 0, 0])

  // The totals over runs; the runs were concurrent, so the run time is the longest one.
  function Combined(a: Meta, b: Meta): Meta
    requires |a.values| == |b.values| == 6 && |a.errors| == |b.errors| == 6
  {
    Meta(seq(6, i requires 0 <= i < 6 => if i == 3 then Max(a.values[i], b.values[i]) else a.values[i] + b.values[i]),
         seq(6, i requires 0 <= i < 6 => a.errors[i] + b.errors[i]))
  }

  // The loop of merge_main over the files
  function MergeFiles(config: Config, files: seq<seq<string>>, sum: Meta, t: Totals): Option<(Meta, Totals)>
    requires |sum.values| == |sum.errors| == 6 && |t.codes| == 600
    decreases |files|
  {
    if files == [] then Some((sum, t))
    else if files[0] == [] then None
    else
      var (line, rest) := Fgets(files[0], 4096);
      if !Starts(line, "wperfk-hist 1") then None
      else
        match MergeLines(config, rest, NO_META, t)
        case None => None
        case Some((m, t')) => MergeFiles(config, files[1..], Combined(sum, m), t')
  }

  function Files(config: Config, runs: seq<Run>): seq<seq<string>>
    requires forall run :: run in runs ==> |run.values| == 6
  {
    if runs == [] then [] else [FileLines(config, runs[0])] + Files(config, runs[1..])
  }

  // Sums over runs
  datatype Result = Result(meta: Meta, totals: Totals)

  ghost predicate ResultOk(config: Config, r: Result) {
    |r.meta.values| == |r.meta.errors| == 6 && TotalsOk(config, r.totals)
  }

  ghost function PlusRun(config: Config, r: Result, run: Run): (r': Result)
    requires ResultOk(config, r) && RunOk(config, run)
    ensures ResultOk(config, r')
  {
    Result(Combined(r.meta, Meta(run.values, run.errors)), WithRun(r.totals, run))
  }

  ghost predicate AllOk(config: Config, runs: seq<Run>) {
    forall run :: run in runs ==> RunOk(config, run)
  }

  ghost function PlusRuns(config: Config, r: Result, runs: seq<Run>): (r': Result)
    requires ResultOk(config, r) && AllOk(config, runs)
    ensures ResultOk(config, r')
    decreases |runs|
  {
    if runs == [] then r else PlusRuns(config, PlusRun(config, r, runs[0]), runs[1..])
  }

  // Merging the files of any runs gives their sum.
  lemma {:induction false} MergeRoundTrip(config: Config, runs: seq<Run>, r: Result)
    requires ResultOk(config, r) && AllOk(config, runs)
    ensures var r' := PlusRuns(config, r, runs);
      MergeFiles(config, Files(config, runs), r.meta, r.totals) == Some((r'.meta, r'.totals))
    decreases |runs|
  {
    hide FileLines, MergeLines, Combined, WithRun;
    if runs != [] {
      assert forall run :: run in runs[1..] ==> run in runs;
      FileRoundTrip(config, runs[0], NO_META, r.totals);
      FileStarts(config, runs[0]);
      MergeRoundTrip(config, runs[1..], PlusRun(config, r, runs[0]));
    }
  }

  lemma FileStarts(config: Config, run: Run)
    requires |run.values| == 6
    ensures var text := FileLines(config, run);
      text != [] && Fgets(text, 4096) == ("wperfk-hist 1", text[1..]) && Starts("wperfk-hist 1", "wperfk-hist 1")
  {
    assert "wperfk-hist 1"[..13] == "wperfk-hist 1";
    var text := FileLines(config, run);
    assert text == ["wperfk-hist 1"] + text[1..];
    ShortLine("wperfk-hist 1", text[1..], 4096);
  }

  // ---- In any order ------------------------------------------------------------------------

  lemma AddedCommutes(a: seq<nat>, b: seq<nat>, c: seq<nat>)
    requires |a| == |b| == |c|
    ensures Added(Added(a, b, 0), c, 0) == Added(Added(a, c, 0), b, 0)
  {
  }

  lemma CombinedCommutes(a: Meta, b: Meta, c: Meta)
    requires |a.values| == |b.values| == |c.values| == 6 && |a.errors| == |b.errors| == |c.errors| == 6
    ensures Combined(Combined(a, b), c) == Combined(Combined(a, c), b)
  {
    assert Combined(Combined(a, b), c).values == Combined(Combined(a, c), b).values;
    assert Combined(Combined(a, b), c).errors == Combined(Combined(a, c), b).errors;
  }

  lemma SeenCommutes(url: string, u: string, v: string)
    requires u != "" && v != ""
    ensures Seen(Seen(url, u), v) == Seen(Seen(url, v), u)
  {
  }

  lemma {:induction false} SeenLater(url: string, u: string, words: seq<string>)
    requires u != "" && forall w :: w in words ==> w != ""
    ensures SeenAll(Seen(url, u), words) == Seen(SeenAll(url, words), u)
    decreases |words|
  {
    hide Seen;
    if words != [] {
      assert words[0] in words && forall w :: w in words[1..] ==> w in words;
      SeenCommutes(url, u, words[0]);
      SeenLater(Seen(url, words[0]), u, words[1..]);
    }
  }

  lemma {:induction false} SeenAllCommutes(url: string, a: seq<string>, b: seq<string>)
    requires (forall w :: w in a ==> w != "") && (forall w :: w in b ==> w != "")
    ensures SeenAll(SeenAll(url, a), b) == SeenAll(SeenAll(url, b), a)
    decreases |a|
  {
    hide Seen;
    if a != [] {
      assert a[0] in a && forall w :: w in a[1..] ==> w in a;
      SeenAllCommutes(Seen(url, a[0]), a[1..], b);
      SeenLater(url, a[0], b);
    }
  }

  lemma {:induction false} WordsAreWords(pieces: seq<string>)
    ensures forall w :: w in WordsOf(pieces) ==> w != ""
  {
    if pieces != [] {
      WordsAreWords(pieces[1..]);
      if IsUrlLine(pieces[0]) {
        SkipsToWord(pieces[0][3..]);
      }
    }
  }

  lemma {:induction false} SkipsToWord(s: string)
    ensures SkipSpace(s) == "" || !IsSpace(SkipSpace(s)[0])
    decreases |s|
  {
    if s != "" && IsSpace(s[0]) {
      SkipsToWord(s[1..]);
    }
  }

  lemma UrlWordsAreWords(url: string)
    requires url != ""
    ensures forall w :: w in UrlWords(url) ==> w != ""
  {
    WordsAreWords(LaterPieces(url));
  }

  lemma FourAdded(a: seq<nat>, x: seq<nat>, y: seq<nat>, u: seq<nat>, v: seq<nat>)
    requires |a| == |x| == |y| == |u| == |v|
    ensures Added(Added(Added(Added(a, x, 0), y, 0), u, 0), v, 0)
         == Added(Added(Added(Added(a, u, 0), v, 0), x, 0), y, 0)
  {
    AddedCommutes(Added(a, x, 0), y, u);
    AddedCommutes(a, x, u);
    AddedCommutes(Added(Added(a, u, 0), x, 0), y, v);
    AddedCommutes(Added(a, u, 0), x, v);
  }

  lemma PlusCommutes(config: Config, r: Result, x: Run, y: Run)
    requires ResultOk(config, r) && RunOk(config, x) && RunOk(config, y)
    ensures PlusRun(config, PlusRun(config, r, x), y) == PlusRun(config, PlusRun(config, r, y), x)
  {
    hide Added, Combined, SeenAll, Misread, WordsOf, LaterPieces, FirstPiece;
    UrlWordsAreWords(x.url);
    UrlWordsAreWords(y.url);
    SeenAllCommutes(r.totals.url, UrlWords(x.url), UrlWords(y.url));
    CombinedCommutes(r.meta, Meta(x.values, x.errors), Meta(y.values, y.errors));
    FourAdded(r.totals.codes, Misread(LaterPieces(x.url)), x.codes, Misread(LaterPieces(y.url)), y.codes);
    AddedCommutes(r.totals.latency.counts, x.latency, y.latency);
    AddedCommutes(r.totals.uLatency.counts, x.uLatency, y.uLatency);
  }

  // A run may as well come first.
  lemma {:induction false} ComesFirst(config: Config, r: Result, runs: seq<Run>, k: nat)
    requires ResultOk(config, r) && AllOk(config, runs) && k < |runs|
    ensures AllOk(config, runs[..k] + runs[k + 1..]) && RunOk(config, runs[k])
    ensures PlusRuns(config, r, runs) == PlusRuns(config, PlusRun(config, r, runs[k]), runs[..k] + runs[k + 1..])
    decreases k
  {
    hide PlusRun, RunOk, ResultOk;
    var rest := runs[..k] + runs[k + 1..];
    assert forall run :: run in rest ==> run in runs;
    if k == 0 {
      assert rest == runs[1..];
    } else {
      assert forall run :: run in runs[1..] ==> run in runs;
      ComesFirst(config, PlusRun(config, r, runs[0]), runs[1..], k - 1);
      assert rest[1..] == runs[1..][..k - 1] + runs[1..][k..];
      PlusCommutes(config, r, runs[0], runs[k]);
    }
  }

  // One element less on both sides
  lemma WithoutOne<T>(a: seq<T>, b: seq<T>, k: nat)
    requires a != [] && k < |b| && a[0] == b[k] && multiset(a) == multiset(b)
    ensures multiset(a[1..]) == multiset(b[..k] + b[k + 1..])
  {
    assert a == [a[0]] + a[1..] && b == b[..k] + [b[k]] + b[k + 1..];
    assert multiset(a) == multiset{a[0]} + multiset(a[1..]);
    assert multiset(b) == multiset{b[k]} + multiset(b[..k] + b[k + 1..]);
    assert multiset(a[1..]) == multiset(a) - multiset{a[0]};
  }

  lemma SameElements<T>(a: seq<T>, b: seq<T>)
    requires multiset(a) == multiset(b)
    ensures |a| == |b| && forall x :: x in a ==> x in b
  {
    assert |multiset(a)| == |a| && |multiset(b)| == |b|;
    forall x | x in a ensures x in b {
      assert x in multiset(a);
    }
  }

  // The result does not depend on the order of the files.
  lemma {:induction false} AnyOrder(config: Config, r: Result, a: seq<Run>, b: seq<Run>)
    requires ResultOk(config, r) && AllOk(config, a) && AllOk(config, b) && multiset(a) == multiset(b)
    ensures PlusRuns(config, r, a) == PlusRuns(config, r, b)
    decreases |a|
  {
    hide PlusRun, RunOk, ResultOk;
    SameElements(a, b);
    if a != [] {
      assert a[0] in b;
      var k :| 0 <= k < |b| && b[k] == a[0];
      ComesFirst(config, r, b, k);
      WithoutOne(a, b, k);
      assert forall run :: run in a[1..] ==> run in a;
      AnyOrder(config, PlusRun(config, r, a[0]), a[1..], b[..k] + b[k + 1..]);
    }
  }

  // One number of every run, summed up over several runs
  function Over(runs: seq<Run>, number: Run -> nat): nat {
    if runs == [] then 0 else number(runs[0]) + Over(runs[1..], number)
  }

  function Slot(counts: seq<nat>, i: nat): nat {
    if i < |counts| then counts[i] else 0
  }

  // Responses with a status that a run has counted, and that are misread of its URL
  function CodeOf(code: nat): Run -> nat {
    (run: Run) => Slot(run.codes, code)
  }

  function MisreadOf(code: nat): Run -> nat {
    (run: Run) => MisreadAt(LaterPieces(run.url), code)
  }

  // Pointwise sums: every slot and the total of both histograms, and every status code, over all runs
  lemma {:induction false} Pointwise(config: Config, r: Result, runs: seq<Run>, i: nat, code: nat)
    requires ResultOk(config, r) && AllOk(config, runs) && i < config.len && code < 600
    ensures var t, t' := r.totals, PlusRuns(config, r, runs).totals;
      && t'.latency.counts[i] == t.latency.counts[i] + Over(runs, (run: Run) => Slot(run.latency, i))
      && t'.uLatency.counts[i] == t.uLatency.counts[i] + Over(runs, (run: Run) => Slot(run.uLatency, i))
      && t'.latency.total == t.latency.total + Over(runs, (run: Run) => Sum(run.latency))
      && t'.uLatency.total == t.uLatency.total + Over(runs, (run: Run) => Sum(run.uLatency))
      && t'.codes[code] == t.codes[code] + Over(runs, CodeOf(code)) + Over(runs, MisreadOf(code))
    decreases |runs|
  {
    hide SeenAll, MisreadAt, WordsOf, LaterPieces, FirstPiece, Combined, ConfigOk;
    if runs != [] {
      assert forall run :: run in runs[1..] ==> run in runs;
      Pointwise(config, PlusRun(config, r, runs[0]), runs[1..], i, code);
    }
  }

  // What a run says under a key, and an error count
  function ValueOf(k: nat): Run -> nat {
    (run: Run) => Slot(run.values, k)
  }

  function ErrorOf(k: nat): Run -> nat {
    (run: Run) => Slot(run.errors, k)
  }

  // The runs were concurrent: rate, threads, connections, requests, bytes and all errors of the result are
  // sums, and its run time is the longest of all.
  lemma {:induction false} MetaSums(config: Config, r: Result, runs: seq<Run>, k: nat)
    requires ResultOk(config, r) && AllOk(config, runs) && k < 6
    ensures var m, m' := r.meta, PlusRuns(config, r, runs).meta;
      && m'.errors[k] == m.errors[k] + Over(runs, ErrorOf(k))
      && (KEYS[k] != "runtime_us" ==> m'.values[k] == m.values[k] + Over(runs, ValueOf(k)))
      && (KEYS[k] == "runtime_us" ==>
            && m.values[k] <= m'.values[k] && (forall run :: run in runs ==> run.values[k] <= m'.values[k])
            && (m'.values[k] == m.values[k] || exists run :: run in runs && run.values[k] == m'.values[k]))
    decreases |runs|
  {
    hide WithRun, ConfigOk;
    RuntimeKey(k);
    if runs != [] {
      assert runs == [runs[0]] + runs[1..];
      MetaSums(config, PlusRun(config, r, runs[0]), runs[1..], k);
    }
  }

  lemma RuntimeKey(k: nat)
    requires k < 6
    ensures KEYS[k] == "runtime_us" <==> k == 3
  {
    assert |KEYS[k]| == [4, 7, 11, 10, 8, 5][k];
  }

  lemma OneSeen(url: string, u: string)
    ensures SeenAll(url, [u]) == Seen(url, u)
  {
    assert [u][1..] == [];
    assert SeenAll(Seen(url, u), []) == Seen(url, u);
  }

  // A URL that fits into its line is read whole.
  lemma WholeUrl(t: Totals, url: string)
    requires |t.codes| == 600 && |url| <= 4091
    ensures UrlRead(t, url).url == Seen(t.url, url)
  {
    hide Seen, Misread, Added;
    if |url| == 4091 {
      assert url[4091..] == "" && url[..4091] == url;
      assert Pieces("") == [""] && [""][1..] == [];
      Differs("", "url", 0);
      assert WordsOf([""]) == [];
    }
    assert UrlWords(url) == [url];
    OneSeen(t.url, url);
  }

  // The URL of the result, when all fit into their lines: the one of all runs, or that there are several
  lemma {:induction false} UrlAfter(config: Config, r: Result, runs: seq<Run>)
    requires ResultOk(config, r) && AllOk(config, runs) && forall run :: run in runs ==> |run.url| <= 4091
    requires r.totals.url != ""
    ensures PlusRuns(config, r, runs).totals.url
         == if forall run :: run in runs ==> run.url == r.totals.url then r.totals.url else "(multiple)"
    decreases |runs|
  {
    hide UrlRead, Added, Sumup, Combined, ConfigOk, NoSpace;
    if runs != [] {
      assert runs == [runs[0]] + runs[1..];
      WholeUrl(r.totals, runs[0].url);
      UrlAfter(config, PlusRun(config, r, runs[0]), runs[1..]);
    }
  }

  lemma UrlOfAll(config: Config, r: Result, runs: seq<Run>)
    requires ResultOk(config, r) && AllOk(config, runs) && forall run :: run in runs ==> |run.url| <= 4091
    requires r.totals.url == "" && runs != []
    ensures PlusRuns(config, r, runs).totals.url
         == if forall run :: run in runs ==> run.url == runs[0].url then runs[0].url else "(multiple)"
  {
    hide UrlRead, Added, Sumup, Combined, ConfigOk, NoSpace;
    assert runs == [runs[0]] + runs[1..];
    WholeUrl(r.totals, runs[0].url);
    UrlAfter(config, PlusRun(config, r, runs[0]), runs[1..]);
  }

  // ---- When the status counts are exact ----------------------------------------------------

  // No later piece of the URL reads like a count of responses.
  predicate Harmless(url: string) {
    forall piece :: piece in LaterPieces(url) ==> CountsNothing(piece)
  }

  predicate CountsNothing(piece: string) {
    StatusOf(piece).None? || StatusOf(piece).value.1 == 0
  }

  lemma {:induction false} MisreadIsZero(pieces: seq<string>)
    ensures (forall piece :: piece in pieces ==> CountsNothing(piece))
       <==> (forall code :: 0 <= code < 600 ==> MisreadAt(pieces, code) == 0)
    decreases |pieces|
  {
    hide StatusOf;
    if pieces != [] {
      MisreadIsZero(pieces[1..]);
      assert forall piece :: piece in pieces <==> piece == pieces[0] || piece in pieces[1..];
      if !CountsNothing(pieces[0]) {
        assert pieces[0] in pieces;
        assert MisreadAt(pieces, StatusOf(pieces[0]).value.0) != 0;
      } else {
        forall code | 0 <= code < 600 ensures MisreadAt(pieces, code) == MisreadAt(pieces[1..], code) {
          assert CountAt(pieces[0], code) == 0;
        }
        if piece :| piece in pieces[1..] && !CountsNothing(piece) {
          assert piece in pieces;
          var code :| 0 <= code < 600 && MisreadAt(pieces[1..], code) != 0;
          assert MisreadAt(pieces, code) != 0;
        } else {
          assert forall code :: 0 <= code < 600 ==> MisreadAt(pieces[1..], code) == 0;
          forall piece | piece in pieces ensures CountsNothing(piece) {
            assert piece == pieces[0] || piece in pieces[1..];
          }
        }
      }
    }
  }

  lemma HarmlessIs(url: string)
    ensures Harmless(url) <==> forall code :: 0 <= code < 600 ==> MisreadAt(LaterPieces(url), code) == 0
  {
    hide StatusOf, LaterPieces, MisreadAt;
    MisreadIsZero(LaterPieces(url));
  }

  // The whole URL fits into its line.
  lemma ShortIsHarmless(url: string)
    requires |url| <= 4091
    ensures Harmless(url) && FirstPiece(url) == url
  {
    if |url| == 4091 {
      assert url[4091..] == "" && url[..4091] == url;
      Differs("", "status", 0);
    }
  }

  // The merge of any runs has exactly the sums of their status counts if and only if every URL is harmless,
  // for instance because none is longer than 4091 characters.
  lemma CodesAreExact(config: Config, r: Result, runs: seq<Run>)
    requires ResultOk(config, r) && AllOk(config, runs)
    ensures (forall code :: 0 <= code < 600 ==>
              PlusRuns(config, r, runs).totals.codes[code] == r.totals.codes[code] + Over(runs, CodeOf(code)))
       <==> (forall run :: run in runs ==> Harmless(run.url))
  {
    hide PlusRuns, LaterPieces, Harmless, MisreadAt, RunOk;
    forall code | 0 <= code < 600
      ensures PlusRuns(config, r, runs).totals.codes[code]
           == r.totals.codes[code] + Over(runs, CodeOf(code)) + Over(runs, MisreadOf(code))
    {
      CodeSums(config, r, runs, code);
    }
    if forall run :: run in runs ==> Harmless(run.url) {
      forall code | 0 <= code < 600 ensures Over(runs, MisreadOf(code)) == 0 {
        forall run | run in runs ensures MisreadOf(code)(run) == 0 {
          HarmlessIs(run.url);
          assert MisreadAt(LaterPieces(run.url), code) == 0;
        }
        OverIsZero(runs, MisreadOf(code));
      }
    } else {
      var run :| run in runs && !Harmless(run.url);
      HarmlessIs(run.url);
      var code :| 0 <= code < 600 && MisreadAt(LaterPieces(run.url), code) != 0;
      OverIsZero(runs, MisreadOf(code));
      assert MisreadOf(code)(run) != 0;
    }
  }

  lemma {:induction false} OverIsZero(runs: seq<Run>, number: Run -> nat)
    ensures Over(runs, number) == 0 <==> forall run :: run in runs ==> number(run) == 0
  {
    if runs != [] {
      assert runs == [runs[0]] + runs[1..];
      OverIsZero(runs[1..], number);
    }
  }

  lemma {:induction false} CodeSums(config: Config, r: Result, runs: seq<Run>, code: nat)
    requires ResultOk(config, r) && AllOk(config, runs) && code < 600
    ensures PlusRuns(config, r, runs).totals.codes[code]
         == r.totals.codes[code] + Over(runs, CodeOf(code)) + Over(runs, MisreadOf(code))
    decreases |runs|
  {
    hide SeenAll, MisreadAt, WordsOf, LaterPieces, FirstPiece, Combined, ConfigOk, Sum;
    if runs != [] {
      assert forall run :: run in runs[1..] ==> run in runs;
      CodeSums(config, PlusRun(config, r, runs[0]), runs[1..], code);
    }
  }

  // A URL whose end reads like a count of responses that there never were
  const MISREAD_URL: string := "http://h/" + seq(4082, _ => 'a') + "status200+7"

  lemma UrlIsMisread()
    ensures forall i :: 0 <= i < |MISREAD_URL| ==> 0x20 < MISREAD_URL[i] as int < 0x7f
    ensures NoSpace(MISREAD_URL) && LaterPieces(MISREAD_URL) == ["status200+7"]
    ensures StatusOf("status200+7") == Some((200, 7)) && !Harmless(MISREAD_URL)
    ensures MisreadAt(LaterPieces(MISREAD_URL), 200) == 7
  {
    hide StatusOf;
    var tail := "status200+7";
    assert MISREAD_URL[4091..] == tail;
    StatusIsRead();
    MisreadOne(tail, 200);
    assert tail in LaterPieces(MISREAD_URL);
  }

  lemma StatusIsRead()
    ensures StatusOf("status200+7") == Some((200, 7))
  {
    hide ReadInt, Decimal;
    var line := "status200+7";
    assert line[..6] == "status" && line[6..] == "200+7";
    TwoHundred();
    ReadPrinted(200, "+7");
    assert Decimal(200) + "+7" == "200+7";
    SevenIsRead();
  }

  lemma SevenIsRead()
    ensures ReadInt("+7") == Some((7, ""))
  {
    assert "+7"[1..] == "7" && "7"[1..] == "";
  }

  lemma TwoHundred()
    ensures Decimal(200) == "200"
  {
    assert Decimal(2) == "2" && Decimal(20) == "20";
  }

  // ---- The loops ---------------------------------------------------------------------------

  ghost function Tally(url: string, codes: seq<nat>, l: seq<nat>, lTotal: nat, u: seq<nat>, uTotal: nat): Totals {
    Totals(url, codes, Counted(l, lTotal), Counted(u, uTotal))
  }

  // merge_main: what it accumulates into
  class Merge {
    const config: Config
    var url: string
    const codes: array<nat>
    const latency: array<nat>
    const uLatency: array<nat>
    var latencyTotal: nat
    var uLatencyTotal: nat

    ghost predicate Valid() {
      && codes.Length == 600 && latency.Length == uLatency.Length == config.len
      && codes != latency && codes != uLatency && latency != uLatency
    }

    ghost function Value(): (t: Totals)
      reads this, codes, latency, uLatency
      ensures |t.codes| == codes.Length
    {
      Tally(url, codes[..], latency[..], latencyTotal, uLatency[..], uLatencyTotal)
    }

    constructor (config: Config)
      ensures Valid() && this.config == config && fresh(codes) && fresh(latency) && fresh(uLatency)
      ensures Value() == Tally("", Zeros(600), Zeros(config.len), 0, Zeros(config.len), 0)
    {
      this.config := config;
      url, latencyTotal, uLatencyTotal := "", 0, 0;
      codes := new nat[600](i => 0);
      latency := new nat[config.len](i => 0);
      uLatency := new nat[config.len](i => 0);
      new;
      assert codes[..] == Zeros(600) && latency[..] == Zeros(config.len) && uLatency[..] == Zeros(config.len);
    }

    // A histogram in a file
    method ReadHist(lines: seq<string>, inner: bool) returns (rc: int, rest: seq<string>)
      requires Valid()
      modifies this, latency, uLatency
      ensures Valid() && (rc == 0 || rc == -1)
      ensures match ReadLines(lines, if inner then old(Value().uLatency) else old(Value().latency))
              case None => rc == -1
              case Some((h, after)) =>
                && rc == 0 && rest == after
                && Value() == if inner then old(Value()).(uLatency := h) else old(Value()).(latency := h)
    {
      if inner {
        rc, uLatencyTotal, rest := ReadCounts(lines, uLatency, uLatencyTotal);
      } else {
        rc, latencyTotal, rest := ReadCounts(lines, latency, latencyTotal);
      }
    }

    method CountStatus(code: nat, count: nat)
      requires Valid() && code < 600
      modifies codes
      ensures Value() == old(Value()).(codes := old(codes[..])[code := old(codes[..])[code] + count])
    {
      ghost var before := codes[..];
      codes[code] := codes[code] + count;
      assert codes[..] == before[code := before[code] + count];
    }

    method ReadTurn(text: seq<string>, m: Meta) returns (rc: int, rest: seq<string>, m': Meta)
      requires Valid() && text != [] && |m.values| == |m.errors| == 6
      modifies this, codes, latency, uLatency
      ensures Valid() && (rc == 0 || rc == -1)
      ensures match Turn(config, text, m, old(Value()))
              case None => rc == -1
              case Some((rest', m'', t)) => rc == 0 && rest == rest' && m' == m'' && Value() == t
    {
      hide KeyOf, StatusOf, ErrorsIn, HeaderFits, ReadLines, Seen, Starts, UrlOf, IsUrlLine, Fgets;
      var (line, after) := Fgets(text, 4096);
      rc, rest, m' := 0, after, m;
      if IsUrlLine(line) {
        url := Seen(url, UrlOf(line));
      } else if KeyOf(line, 0).Some? {
        var (k, v) := KeyOf(line, 0).value;
        m' := m.(values := m.values[k := v]);
      } else if Starts(line, "errors") {
        m' := m.(errors := ErrorsIn(line, m.errors));
      } else if StatusOf(line).Some? {
        var (code, count) := StatusOf(line).value;
        CountStatus(code, count);
      } else if Starts(line, "hist latency ") {
        if !HeaderFits(line, "latency", config) {
          return -1, rest, m;
        }
        rc, rest := ReadHist(rest, false);
      } else if Starts(line, "hist u_latency ") {
        if !HeaderFits(line, "u_latency", config) {
          return -1, rest, m;
        }
        rc, rest := ReadHist(rest, true);
      }
    }

    // The loop over the lines of one file; the result is 0 or -1.
    method ReadFile(lines: seq<string>) returns (rc: int, m: Meta)
      requires Valid()
      modifies this, codes, latency, uLatency
      ensures Valid() && |m.values| == |m.errors| == 6
      ensures match MergeLines(config, lines, NO_META, old(Value()))
              case None => rc == -1
              case Some((m', t)) => rc == 0 && m == m' && Value() == t
    {
      hide Turn, Value;
      var rest := lines;
      m, rc := NO_META, 0;
      while rc == 0 && rest != []
        invariant Valid() && |m.values| == |m.errors| == 6 && (rc == 0 || rc == -1)
        invariant |Value().codes| == 600
        invariant rc == 0 ==> MergeLines(config, rest, m, Value()) == MergeLines(config, lines, NO_META, old(Value()))
        invariant rc == -1 ==> MergeLines(config, lines, NO_META, old(Value())) == None
        decreases if rc == 0 then Length(rest) + 1 else 0
      {
        var m';
        rc, rest, m' := ReadTurn(rest, m);
        if rc == 0 {
          m := m';
        }
      }
    }

    // The loop over the files: what merge prints, or that it gives up
    method ReadFiles(files: seq<seq<string>>) returns (ok: bool, total: Meta)
      requires Valid()
      modifies this, codes, latency, uLatency
      ensures Valid()
      ensures match MergeFiles(config, files, NO_META, old(Value()))
              case None => !ok
              case Some((m, t)) => ok && total == m && Value() == t
    {
      total, ok := NO_META, true;
      var i := 0;
      while i < |files|
        invariant Valid() && 0 <= i <= |files| && |total.values| == |total.errors| == 6
        invariant MergeFiles(config, files[i..], total, Value()) == MergeFiles(config, files, NO_META, old(Value()))
      {
        assert files[i..][0] == files[i] && files[i..][1..] == files[i + 1..];
        if files[i] == [] {
          return false, total;
        }
        var (line, rest) := Fgets(files[i], 4096);
        if !Starts(line, "wperfk-hist 1") {
          return false, total;
        }
        var rc, m := ReadFile(rest);
        if rc != 0 {
          return false, total;
        }
        total := Combined(total, m);
        i := i + 1;
      }
    }
  }

  function Zeros(n: nat): seq<nat> {
    seq(n, i => 0)
  }
}
