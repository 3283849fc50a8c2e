/** `parse_uart_log` of run_firesim.py: the statistics FireSim prints at the
    end of a simulation's UART log, scraped from the log's last ten lines
    into a dictionary keyed by six fixed column names. */
module UartLog {
  import opened Wrappers

  // ---------------------------------------------------------------------
  // Python's string primitives
  // ---------------------------------------------------------------------

  /** `str.isspace` for one character: the ASCII tab to carriage return,
      the four separators U+001C to U+001F, the space, and the Unicode
      spaces and line/paragraph separators. */
  predicate IsSpace(c: char)
  {
    || ('\U{9}' <= c <= '\U{D}')
    || ('\U{1C}' <= c <= '\U{1F}')
    || c == ' ' || c == '\U{85}' || c == '\U{A0}' || c == '\U{1680}'
    || ('\U{2000}' <= c <= '\U{200A}')
    || c == '\U{2028}' || c == '\U{2029}' || c == '\U{202F}' || c == '\U{205F}' || c == '\U{3000}'
  }

  /** The number of whitespace characters `s` starts with. */
  function LeadingSpaces(s: string): (n: nat)
    ensures n <= |s|
    ensures forall k :: 0 <= k < n ==> IsSpace(s[k])
    ensures n < |s| ==> !IsSpace(s[n])
  {
    if |s| > 0 && IsSpace(s[0]) then 1 + LeadingSpaces(s[1..]) else 0
  }

  /** Where the whitespace `s` ends with begins. */
  function TrailingStart(s: string): (n: nat)
    ensures n <= |s|
    ensures forall k :: n <= k < |s| ==> IsSpace(s[k])
    ensures n > 0 ==> !IsSpace(s[n - 1])
  {
    if |s| > 0 && IsSpace(s[|s| - 1]) then TrailingStart(s[..|s| - 1]) else |s|
  }

  /** `str.strip()` with no argument. */
  function Strip(s: string): (r: string)
    ensures |r| <= |s|
    ensures |r| > 0 ==> !IsSpace(r[0]) && !IsSpace(r[|r| - 1])
  {
    var i := LeadingSpaces(s);
    if i == |s| then [] else s[i..TrailingStart(s)]
  }

  /** What strip removes is whitespace, on both sides, and only that. */
  lemma StripExact(s: string)
    ensures exists i, j ::
              && 0 <= i <= j <= |s| && Strip(s) == s[i..j]
              && (forall k :: 0 <= k < i ==> IsSpace(s[k]))
              && (forall k :: j <= k < |s| ==> IsSpace(s[k]))
  {
    var i := LeadingSpaces(s);
    if i == |s| {
      assert Strip(s) == s[i..i];
    } else {
      assert Strip(s) == s[i..TrailingStart(s)];
    }
  }

  /** Stripping twice is stripping once. */
  lemma StripIdempotent(s: string)
    ensures Strip(Strip(s)) == Strip(s)
  {
    var r := Strip(s);
    if |r| > 0 {
      assert LeadingSpaces(r) == 0;
      assert TrailingStart(r) == |r|;
      assert r[0..|r|] == r;
    }
  }

  /** `s.split(":")[-1]`: the text after the last colon, or all of `s`
      when it has none. */
  function AfterLastColon(s: string): (r: string)
    ensures |r| <= |s| && r == s[|s| - |r|..]
    ensures ':' !in r
    ensures |r| < |s| ==> s[|s| - |r| - 1] == ':'
  {
    if |s| == 0 || s[|s| - 1] == ':' then []
    else AfterLastColon(s[..|s| - 1]) + [s[|s| - 1]]
  }

  /** The text after a colon that no other colon follows. */
  lemma AfterColonAt(s: string, i: nat)
    requires i < |s| && s[i] == ':' && ':' !in s[i + 1..]
    ensures AfterLastColon(s) == s[i + 1..]
  {
  }

  /** `p in s` for strings: `p` occurs somewhere in `s`. */
  function IsInfix(p: string, s: string): bool
  {
    p <= s || (|s| > 0 && IsInfix(p, s[1..]))
  }

  /** A string holding a character that `s` lacks does not occur in `s`. */
  lemma {:induction false} MissingChar(p: string, s: string, c: char)
    requires c in p && c !in s
    ensures !IsInfix(p, s)
    decreases |s|
  {
    if |s| > 0 {
      assert c !in s[1..];
      MissingChar(p, s[1..], c);
    }
  }

  /** `p` occurs in `s` at position `i`. */
  predicate OccursAt(p: string, s: string, i: nat)
  {
    i + |p| <= |s| && s[i..i + |p|] == p
  }

  /** The search agrees with the definition of a substring by position. */
  lemma {:induction false} IsInfixExact(p: string, s: string)
    ensures IsInfix(p, s) <==> exists i: nat :: OccursAt(p, s, i)
    decreases |s|
  {
    if p <= s {
      assert s[0..|p|] == p;
      assert OccursAt(p, s, 0);
    } else if |s| == 0 {
    } else {
      IsInfixExact(p, s[1..]);
      if IsInfix(p, s[1..]) {
        var i: nat :| OccursAt(p, s[1..], i);
        assert s[i + 1..i + 1 + |p|] == s[1..][i..i + |p|];
        assert OccursAt(p, s, i + 1);
      }
      if exists i: nat :: OccursAt(p, s, i) {
        var i: nat :| OccursAt(p, s, i);
        assert i != 0;
        assert s[1..][i - 1..i - 1 + |p|] == s[i..i + |p|];
        assert OccursAt(p, s[1..], i - 1);
      }
    }
  }

  // ---------------------------------------------------------------------
  // Reading the log
  // ---------------------------------------------------------------------

  /** Text-mode reading with universal newlines: `\r\n` and a lone `\r`
      both read as `\n`. */
  function Newlines(s: string): (r: string)
    ensures '\r' !in r
    ensures |r| <= |s|
  {
    if |s| == 0 then []
    else if s[0] == '\r' then ['\n'] + Newlines(if |s| > 1 && s[1] == '\n' then s[2..] else s[1..])
    else [s[0]] + Newlines(s[1..])
  }

  /** The length of the first line of `s`, its `\n` included. */
  function FirstLine(s: string): (n: nat)
    requires |s| > 0
    ensures 0 < n <= |s|
    ensures forall k :: 0 <= k < n - 1 ==> s[k] != '\n'
    ensures s[n - 1] == '\n' || n == |s|
  {
    if s[0] == '\n' || |s| == 1 then 1 else 1 + FirstLine(s[1..])
  }

  /** `file.readlines()`: the lines of `s`, each with its `\n` except
      perhaps the last. */
  function ReadLines(s: string): (ls: seq<string>)
    ensures forall i :: 0 <= i < |ls| ==> |ls[i]| > 0
    decreases |s|
  {
    if |s| == 0 then [] else [s[..FirstLine(s)]] + ReadLines(s[FirstLine(s)..])
  }

  function Concat(ls: seq<string>): string
  {
    if ls == [] then [] else ls[0] + Concat(ls[1..])
  }

  lemma ConcatCons(l: string, ls: seq<string>)
    ensures Concat([l] + ls) == l + Concat(ls)
  {
    assert ([l] + ls)[1..] == ls;
  }

  /** The lines put back together are the text. */
  lemma {:induction false} ReadLinesConcat(s: string)
    ensures Concat(ReadLines(s)) == s
    decreases |s|
  {
    if |s| > 0 {
      var n := FirstLine(s);
      var rest := s[n..];
      assert ReadLines(s) == [s[..n]] + ReadLines(rest);
      ReadLinesConcat(rest);
      ConcatCons(s[..n], ReadLines(rest));
      assert s[..n] + rest == s;
    }
  }

  /** Every line but the last ends in its one `\n`, and no line has
      another. */
  lemma {:induction false} ReadLinesShape(s: string)
    ensures forall i :: 0 <= i < |ReadLines(s)| ==>
      (forall k :: 0 <= k < |ReadLines(s)[i]| - 1 ==> ReadLines(s)[i][k] != '\n')
      && (i < |ReadLines(s)| - 1 ==> ReadLines(s)[i][|ReadLines(s)[i]| - 1] == '\n')
    decreases |s|
  {
    if |s| > 0 {
      var n := FirstLine(s);
      var ls := ReadLines(s);
      ReadLinesShape(s[n..]);
      assert ls[1..] == ReadLines(s[n..]);
      if n == |s| {
        assert ReadLines(s[n..]) == [];
      }
    }
  }

  /** `readlines()[-10:]`: the last ten lines, or all of them. */
  function LastLines(ls: seq<string>): (w: seq<string>)
    ensures |w| == if |ls| < 10 then |ls| else 10
    ensures w == ls[|ls| - |w|..]
  {
    if |ls| <= 10 then ls else ls[|ls| - 10..]
  }

  // ---------------------------------------------------------------------
  // Scraping
  // ---------------------------------------------------------------------

  /** What the log prints before each statistic, in the order the lines are
      tested. */
  const LABELS: seq<string> := [
    "Wallclock Time Elapsed", "Host Cycles Executed", "Host Frequency",
    "Target Cycles Emulated", "Effective Target Frequency", "FMR"]

  /** The dictionary key each statistic is stored under. */
  const KEYS: seq<string> := [
    "Wallclock Time Elapsed (s)", "Host Cycles Executed", "Host Frequency (MHz)",
    "Target Cycles Emulated", "Effective Target Frequency (MHz)", "FMR"]

  /** A statistic, as its position in LABELS and KEYS. */
  type Stat = i: nat | i < 6

  /** The first label, from `from` on, that the line contains. */
  function ClassifyFrom(line: string, from: nat): (c: Option<Stat>)
    requires from <= |LABELS|
    ensures c.Some? ==> from <= c.value
    decreases |LABELS| - from
  {
    if from == |LABELS| then None
    else if IsInfix(LABELS[from], line) then Some(from)
    else ClassifyFrom(line, from + 1)
  }

  /** The `if`/`elif` chain: the statistic a line reports, if any. */
  function Classify(line: string): Option<Stat>
  {
    ClassifyFrom(line, 0)
  }

  lemma {:induction false} ClassifyFromFirst(line: string, from: nat)
    requires from <= |LABELS|
    ensures var c := ClassifyFrom(line, from);
      && (c.Some? ==> IsInfix(LABELS[c.value], line))
      && (forall j :: from <= j < |LABELS| && (c.None? || j < c.value) ==> !IsInfix(LABELS[j], line))
    decreases |LABELS| - from
  {
    if from < |LABELS| && !IsInfix(LABELS[from], line) {
      ClassifyFromFirst(line, from + 1);
    }
  }

  /** A line reports the first statistic, in the order tested, whose label
      it contains, and none when it contains no label. */
  lemma ClassifyFirst(line: string)
    ensures Classify(line).Some? ==> IsInfix(LABELS[Classify(line).value], line)
    ensures forall j :: 0 <= j < |LABELS| && (Classify(line).None? || j < Classify(line).value) ==>
      !IsInfix(LABELS[j], line)
  {
    ClassifyFromFirst(line, 0);
  }

  /** The converse: a line that contains label `i` and no earlier label
      reports statistic `i`. */
  lemma ClassifyIs(line: string, i: Stat)
    requires IsInfix(LABELS[i], line)
    requires forall j :: 0 <= j < i ==> !IsInfix(LABELS[j], line)
    ensures Classify(line) == Some(i)
  {
    ClassifyFirst(line);
  }

  /** A line that contains no label reports nothing. */
  lemma ClassifyNone(line: string)
    requires forall j :: 0 <= j < |LABELS| ==> !IsInfix(LABELS[j], line)
    ensures Classify(line) == None
  {
    ClassifyFirst(line);
  }

  /** What one line contributes: a statistic and the text stored for it. */
  datatype Reading = Reading(stat: Stat, value: string)

  /** The value stored for a reporting line: the text after its last colon,
      stripped. */
  function ReadingOf(line: string): (r: Option<Reading>)
    ensures r.Some? <==> Classify(line).Some?
    ensures r.Some? ==> r.value.stat == Classify(line).value && r.value.value == Strip(AfterLastColon(line))
  {
    match Classify(line)
    case None => None
    case Some(i) => Some(Reading(i, Strip(AfterLastColon(line))))
  }

  /** A line printed as a label, a colon and a value reports the stripped
      value under that label's statistic, provided no label tested earlier
      occurs in it. */
  lemma StatisticLine(i: Stat, v: string)
    requires ':' !in v
    requires forall j :: 0 <= j < i ==> !IsInfix(LABELS[j], LABELS[i] + ":" + v)
    ensures ReadingOf(LABELS[i] + ":" + v) == Some(Reading(i, Strip(v)))
  {
    var line := LABELS[i] + ":" + v;
    assert LABELS[i] <= line;
    ClassifyIs(line, i);
    AfterColonAt(line, |LABELS[i]|);
    assert line[|LABELS[i]| + 1..] == v;
  }

  /** `Host Cycles Executed: 123456` and the like: the line reports the host
      cycles, whatever the value, as long as it has no colon and cannot hold
      the Wallclock label. */
  lemma HostCyclesReading(v: string)
    requires ':' !in v && 'W' !in v
    ensures ReadingOf(LABELS[1] + ":" + v) == Some(Reading(1, Strip(v)))
  {
    assert 'W' !in LABELS[1] + ":" + v;
    MissingChar(LABELS[0], LABELS[1] + ":" + v, 'W');
    StatisticLine(1, v);
  }

  function Readings(lines: seq<string>): (rs: seq<Option<Reading>>)
    ensures |rs| == |lines| && forall j :: 0 <= j < |lines| ==> rs[j] == ReadingOf(lines[j])
  {
    seq(|lines|, j requires 0 <= j < |lines| => ReadingOf(lines[j]))
  }

  /** One pass of the loop: a reporting line sets (or resets) its key. */
  function Record(m: map<string, string>, r: Option<Reading>): map<string, string>
  {
    match r
    case None => m
    case Some(Reading(i, v)) => m[KEYS[i] := v]
  }

  /** The dictionary after the loop has seen lines with these readings. */
  function Scrape(rs: seq<Option<Reading>>): map<string, string>
  {
    if rs == [] then map[] else Record(Scrape(rs[..|rs| - 1]), rs[|rs| - 1])
  }

  /** The whole of `parse_uart_log` on the log's text. */
  function ParseUart(text: string): map<string, string>
  {
    Scrape(Readings(LastLines(ReadLines(Newlines(text)))))
  }

  /** Only the six fixed names ever become keys. */
  lemma {:induction false} ScrapeKeys(rs: seq<Option<Reading>>)
    ensures forall k :: k in Scrape(rs) ==> k in KEYS
  {
    if rs != [] {
      ScrapeKeys(rs[..|rs| - 1]);
    }
  }

  lemma KeysDistinct(a: Stat, b: Stat)
    requires a != b
    ensures KEYS[a] != KEYS[b]
  {
  }

  /** Some line reports statistic `i`. */
  predicate Reports(rs: seq<Option<Reading>>, j: int, i: Stat)
  {
    0 <= j < |rs| && rs[j].Some? && rs[j].value.stat == i
  }

  /** A statistic's key is present exactly when some line reports it. */
  lemma {:induction false} ScrapePresent(rs: seq<Option<Reading>>, i: Stat)
    ensures KEYS[i] in Scrape(rs) <==> exists j :: Reports(rs, j, i)
  {
    if rs != [] {
      var n := |rs| - 1;
      var prev := rs[..n];
      ScrapePresent(prev, i);
      if Reports(rs, n, i) {
        assert KEYS[i] in Scrape(rs);
      } else {
        if rs[n].Some? {
          KeysDistinct(rs[n].value.stat, i);
        }
        assert KEYS[i] in Scrape(rs) <==> KEYS[i] in Scrape(prev);
        if KEYS[i] in Scrape(prev) {
          var j :| Reports(prev, j, i);
          assert Reports(rs, j, i);
        }
        if exists j :: Reports(rs, j, i) {
          var j :| Reports(rs, j, i);
          assert Reports(prev, j, i);
        }
      }
    }
  }

  /** A present key holds the value of the last line that reports it:
      later lines overwrite earlier ones. */
  lemma {:induction false} ScrapeLastWins(rs: seq<Option<Reading>>, i: Stat)
    requires KEYS[i] in Scrape(rs)
    ensures exists j ::
              && Reports(rs, j, i) && Scrape(rs)[KEYS[i]] == rs[j].value.value
              && forall j' :: j < j' < |rs| ==> !Reports(rs, j', i)
  {
    var n := |rs| - 1;
    var prev := rs[..n];
    if Reports(rs, n, i) {
      assert Scrape(rs)[KEYS[i]] == rs[n].value.value;
    } else {
      if rs[n].Some? {
        KeysDistinct(rs[n].value.stat, i);
      }
      assert KEYS[i] in Scrape(prev) && Scrape(rs)[KEYS[i]] == Scrape(prev)[KEYS[i]];
      ScrapeLastWins(prev, i);
      var j :| && Reports(prev, j, i) && Scrape(prev)[KEYS[i]] == prev[j].value.value
               && forall j' :: j < j' < |prev| ==> !Reports(prev, j', i);
      assert Reports(rs, j, i);
      forall j' | j < j' < |rs| ensures !Reports(rs, j', i) {
        if j' < n {
          assert !Reports(prev, j', i);
        }
      }
    }
  }

  /** Only the last ten lines are read: the result is the scrape of that
      suffix of the log, whatever comes before it. */
  lemma ParseUartWindow(text: string)
    ensures var ls := ReadLines(Newlines(text));
      var w := if |ls| < 10 then |ls| else 10;
      ParseUart(text) == Scrape(Readings(ls[|ls| - w..]))
  {
  }

  /** `parse_uart_log`: the loop over the last ten lines, assigning into the
      results dictionary. */
  method ParseUartLog(text: string) returns (results: map<string, string>)
    ensures results == ParseUart(text)
  {
    var lastLines := LastLines(ReadLines(Newlines(text)));
    results := map[];
    for k := 0 to |lastLines|
      invariant results == Scrape(Readings(lastLines[..k]))
    {
      var line := lastLines[k];
      ScrapeStep(lastLines, k, results);
      results := ScrapeLine(results, line);
    }
    assert lastLines[..|lastLines|] == lastLines;
  }

  /** The body of the loop: the `if`/`elif` chain over one line. */
  method ScrapeLine(results: map<string, string>, line: string) returns (r: map<string, string>)
    ensures r == Record(results, ReadingOf(line))
  {
    r := results;
    if IsInfix("Wallclock Time Elapsed", line) {
      ClassifyIs(line, 0);
      RecordStat(results, line, 0);
      r := r["Wallclock Time Elapsed (s)" := Strip(AfterLastColon(line))];
    } else if IsInfix("Host Cycles Executed", line) {
      ClassifyIs(line, 1);
      RecordStat(results, line, 1);
      r := r["Host Cycles Executed" := Strip(AfterLastColon(line))];
    } else if IsInfix("Host Frequency", line) {
      ClassifyIs(line, 2);
      RecordStat(results, line, 2);
      r := r["Host Frequency (MHz)" := Strip(AfterLastColon(line))];
    } else if IsInfix("Target Cycles Emulated", line) {
      ClassifyIs(line, 3);
      RecordStat(results, line, 3);
      r := r["Target Cycles Emulated" := Strip(AfterLastColon(line))];
    } else if IsInfix("Effective Target Frequency", line) {
      ClassifyIs(line, 4);
      RecordStat(results, line, 4);
      r := r["Effective Target Frequency (MHz)" := Strip(AfterLastColon(line))];
    } else if IsInfix("FMR", line) {
      ClassifyIs(line, 5);
      RecordStat(results, line, 5);
      r := r["FMR" := Strip(AfterLastColon(line))];
    } else {
      ClassifyNone(line);
    }
  }

  /** One more line scraped is one more `Record`. */
  lemma ScrapeStep(lines: seq<string>, k: nat, m: map<string, string>)
    requires k < |lines| && m == Scrape(Readings(lines[..k]))
    ensures Scrape(Readings(lines[..k + 1])) == Record(m, ReadingOf(lines[k]))
  {
    var rs := Readings(lines[..k + 1]);
    assert rs[..k] == Readings(lines[..k]);
    assert rs[k] == ReadingOf(lines[k]);
  }

  /** Recording the reading of a line that reports statistic `i`. */
  lemma RecordStat(m: map<string, string>, line: string, i: Stat)
    requires Classify(line) == Some(i)
    ensures Record(m, ReadingOf(line)) == m[KEYS[i] := Strip(AfterLastColon(line))]
  {
  }
}
