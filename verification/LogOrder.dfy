/**
 The multi-process log. Every child puts its file number in front of each message, the log process
 writes the records in arrival order, and afterwards the lines of the file are sorted by the number
 parsed from each line: a record of several lines has its number on the first one only.
 */
module LogOrder {

  import StableSort

  // ---- Decimal numbers ----

  predicate IsDigit(c: char) {
    '0' <= c <= '9'
  }

  function DigitValue(c: char): (v: nat)
    requires IsDigit(c)
    ensures v < 10
  {
    (c as int) - ('0' as int)
  }

  function Digit(v: nat): (c: char)
    requires v < 10
    ensures IsDigit(c) && DigitValue(c) == v
  {
    ('0' as int + v) as char
  }

  /** How %d and f-strings print a natural number. */
  function Decimal(n: nat): (s: string)
    ensures |s| > 0 && forall i :: 0 <= i < |s| ==> IsDigit(s[i])
  {
    if n < 10 then [Digit(n)] else Decimal(n / 10) + [Digit(n % 10)]
  }

  /** int() of a digit string. */
  function ParseDigits(s: string): nat
    requires forall i :: 0 <= i < |s| ==> IsDigit(s[i])
  {
    if |s| == 0 then 0 else 10 * ParseDigits(s[..|s| - 1]) + DigitValue(s[|s| - 1])
  }

  lemma {:induction false} ParseOfDecimal(n: nat)
    ensures ParseDigits(Decimal(n)) == n
  {
    var s := Decimal(n);
    if n < 10 {
      assert s[..0] == [];
    } else {
      ParseOfDecimal(n / 10);
      assert s[..|s| - 1] == Decimal(n / 10);
    }
  }

  /** Positional notation: appending a digit multiplies by ten and adds its value. */
  lemma ParsePositional(s: string, c: char)
    requires (forall i :: 0 <= i < |s| ==> '0' <= s[i] <= '9') && '0' <= c <= '9'
    ensures ParseDigits([]) == 0 && ParseDigits(s + [c]) == 10 * ParseDigits(s) + (c as int - '0' as int)
  {
    assert (s + [c])[..|s|] == s;
  }

  /** Numbers are printed without leading zeros. */
  lemma {:induction false} NoLeadingZero(n: nat)
    ensures Decimal(0) == "0" && (n > 0 ==> Decimal(n)[0] != '0')
  {
    if n >= 10 {
      NoLeadingZero(n / 10);
      assert Decimal(n)[0] == Decimal(n / 10)[0];
    }
  }

  // ---- The tag [fN] ----

  /** Length of the run of digits that starts at i. */
  function DigitRun(line: string, i: nat): (k: nat)
    requires i <= |line|
    ensures i + k <= |line|
    ensures forall j :: i <= j < i + k ==> IsDigit(line[j])
    ensures i + k < |line| ==> !IsDigit(line[i + k])
    decreases |line| - i
  {
    if i < |line| && IsDigit(line[i]) then 1 + DigitRun(line, i + 1) else 0
  }

  /** The pattern \[f(\d+)\] matches at position i. */
  predicate TagAt(line: string, i: nat)
  {
    && i + 2 <= |line| && line[i] == '[' && line[i + 1] == 'f'
    && var k := DigitRun(line, i + 2); k > 0 && i + 2 + k < |line| && line[i + 2 + k] == ']'
  }

  predicate AllDigits(d: string) {
    forall j :: 0 <= j < |d| ==> '0' <= d[j] <= '9'
  }

  /** That is, '[f', one or more digits and ']' stand there. */
  lemma TagAtIff(line: string, i: nat)
    requires i <= |line|
    ensures TagAt(line, i) <==> exists d: string :: |d| > 0 && AllDigits(d) && "[f" + d + "]" <= line[i..]
  {
    if TagAt(line, i) {
      var k := DigitRun(line, i + 2);
      var d := line[i + 2..i + 2 + k];
      assert AllDigits(d) && "[f" + d + "]" == line[i..][..k + 3];
    }
    if d: string :| |d| > 0 && AllDigits(d) && "[f" + d + "]" <= line[i..] {
      TagStandsAt(line, i, d);
    }
  }

  lemma TagStandsAt(line: string, i: nat, d: string)
    requires i <= |line| && |d| > 0 && AllDigits(d) && "[f" + d + "]" <= line[i..]
    ensures TagAt(line, i)
  {
    var t := "[f" + d + "]";
    assert forall j :: 0 <= j < |t| ==> line[i..][j] == t[j];
    assert line[i] == t[0] && line[i + 1] == t[1] && line[i + 2 + |d|] == t[2 + |d|];
    forall j | i + 2 <= j < i + 2 + |d|
      ensures IsDigit(line[j])
    {
      assert line[j] == t[j - i] == d[j - i - 2];
    }
    RunOfDigits(line, i + 2, |d|);
  }

  function TagValue(line: string, i: nat): nat
    requires TagAt(line, i)
  {
    ParseDigits(line[i + 2..i + 2 + DigitRun(line, i + 2)])
  }

  /** re.search from position i on: the number of the first tag, or 0 if there is none. */
  function KeyFrom(line: string, i: nat): nat
    requires i <= |line|
    decreases |line| - i
  {
    if i == |line| then 0
    else if TagAt(line, i) then TagValue(line, i)
    else KeyFrom(line, i + 1)
  }

  /** custom_key */
  function Key(line: string): nat {
    KeyFrom(line, 0)
  }

  predicate NoTag(s: string) {
    forall i :: 0 <= i < |s| ==> !TagAt(s, i)
  }

  function Tag(n: nat): string {
    "[f" + Decimal(n) + "]"
  }

  /** The run of digits in a longer text, when the text goes on after it. */
  lemma {:induction false} RunInContext(s: string, t: string, i: nat)
    requires i <= |s| && i + DigitRun(s + t, i) < |s|
    ensures DigitRun(s, i) == DigitRun(s + t, i)
    decreases |s| - i
  {
    if i < |s| && IsDigit(s[i]) {
      RunInContext(s, t, i + 1);
    }
  }

  /** A tag that starts inside a tag-free prefix would have to contain the '[' of the next tag. */
  lemma NoEarlierTag(p: string, t: string, i: nat)
    requires NoTag(p) && |t| > 0 && t[0] == '[' && i < |p|
    ensures !TagAt(p + t, i)
  {
    var line := p + t;
    assert line[|p|] == '[';
    if TagAt(line, i) {
      var k := DigitRun(line, i + 2);
      assert line[|p|] == '[' && !IsDigit(line[|p|]) && line[|p|] != 'f' && line[|p|] != ']';
      assert i + 2 + k < |p|;
      RunInContext(p, t, i + 2);
      assert TagAt(p, i);
    }
  }

  lemma {:induction false} RunOfDigits(line: string, i: nat, k: nat)
    requires i + k < |line| && !IsDigit(line[i + k])
    requires forall j :: i <= j < i + k ==> IsDigit(line[j])
    ensures DigitRun(line, i) == k
    decreases k
  {
    if k > 0 { RunOfDigits(line, i + 1, k - 1); }
  }

  lemma {:induction false} KeySkips(line: string, i: nat, j: nat)
    requires i <= j < |line| && TagAt(line, j)
    requires forall m :: i <= m < j ==> !TagAt(line, m)
    ensures KeyFrom(line, i) == TagValue(line, j)
    decreases j - i
  {
    if i < j { KeySkips(line, i + 1, j); }
  }

  /** Parsing a printed tag returns its number, after any prefix that contains no tag. */
  lemma KeyOfTagged(prefix: string, n: nat, rest: string)
    requires NoTag(prefix)
    ensures Key(prefix + Tag(n) + rest) == n
  {
    var d := Decimal(n);
    var line := prefix + Tag(n) + rest;
    var at := |prefix|;
    assert line == prefix + (Tag(n) + rest);
    assert line[at] == '[' && line[at + 1] == 'f' && line[at + 2 + |d|] == ']';
    forall j | at + 2 <= j < at + 2 + |d|
      ensures IsDigit(line[j])
    {
      assert line[j] == d[j - at - 2];
    }
    RunOfDigits(line, at + 2, |d|);
    assert line[at + 2..at + 2 + |d|] == d;
    forall m | 0 <= m < at
      ensures !TagAt(line, m)
    {
      NoEarlierTag(prefix, Tag(n) + rest, m);
    }
    KeySkips(line, 0, at);
    ParseOfDecimal(n);
  }

  lemma {:induction false} NoTagKey(line: string, i: nat)
    requires i <= |line| && NoTag(line)
    ensures KeyFrom(line, i) == 0
    decreases |line| - i
  {
    if i < |line| { NoTagKey(line, i + 1); }
  }

  // ---- Records and lines ----

  predicate IsBreak(c: char) {
    c == '\n' || c == '\r'
  }

  predicate OneLine(s: string) {
    forall i :: 0 <= i < |s| ==> !IsBreak(s[i])
  }

  /** Index of the first line break, or the length. */
  function FirstBreak(t: string): (n: nat)
    ensures n <= |t| && (n < |t| ==> IsBreak(t[n]))
    ensures forall i :: 0 <= i < n ==> !IsBreak(t[i])
  {
    if |t| == 0 || IsBreak(t[0]) then 0 else 1 + FirstBreak(t[1..])
  }

  /** Index after the line break at n; "\r\n" is one break. */
  function AfterBreak(t: string, n: nat): (k: nat)
    requires n < |t|
    ensures n < k <= |t|
  {
    if t[n] == '\r' && n + 1 < |t| && t[n + 1] == '\n' then n + 2 else n + 1
  }

  /** readlines() on a text file, line ends left off. */
  function ReadLines(t: string): seq<string> {
    if |t| == 0 then []
    else
      var n := FirstBreak(t);
      if n == |t| then [t] else [t[..n]] + ReadLines(t[AfterBreak(t, n)..])
  }

  /** Where a text's first line ends, and what follows it. */
  ghost predicate Splits(t: string, first: string, rest: string) {
    var n := FirstBreak(t);
    n < |t| && first == t[..n] && rest == t[AfterBreak(t, n)..]
  }

  lemma ReadFirst(t: string, first: string, rest: string)
    requires Splits(t, first, rest)
    ensures ReadLines(t) == [first] + ReadLines(rest)
  {}

  lemma BreakIsFirst(t: string, n: nat)
    requires n < |t| && IsBreak(t[n]) && forall i :: 0 <= i < n ==> !IsBreak(t[i])
    ensures FirstBreak(t) == n
  {}

  lemma SplitsInContext(a: string, b: string, first: string, rest: string)
    requires |a| > 0 && a[|a| - 1] == '\n' && Splits(a, first, rest)
    ensures Splits(a + b, first, rest + b)
  {
    var n, t := FirstBreak(a), a + b;
    assert forall i :: 0 <= i < |a| ==> t[i] == a[i];
    BreakIsFirst(t, n);
    assert AfterBreak(t, n) == AfterBreak(a, n);
    CutOfAppend(a, b, n);
    CutOfAppend(a, b, AfterBreak(a, n));
  }

  lemma CutOfAppend(a: string, b: string, n: nat)
    requires n <= |a|
    ensures (a + b)[..n] == a[..n] && (a + b)[n..] == a[n..] + b
  {}

  lemma JoinFirst(first: string, rest: seq<string>, more: seq<string>)
    ensures [first] + (rest + more) == [first] + rest + more
  {}

  /** A text that ends in a newline is read independently of what follows it. */
  lemma {:induction false} ReadLinesAppend(a: string, b: string)
    requires |a| > 0 && a[|a| - 1] == '\n'
    ensures ReadLines(a + b) == ReadLines(a) + ReadLines(b)
    decreases |a|
  {
    var first, rest := a[..FirstBreak(a)], a[AfterBreak(a, FirstBreak(a))..];
    ReadFirst(a, first, rest);
    SplitsInContext(a, b, first, rest);
    ReadFirst(a + b, first, rest + b);
    if |rest| > 0 {
      ReadLinesAppend(rest, b);
      JoinFirst(first, ReadLines(rest), ReadLines(b));
    } else {
      assert rest + b == b;
    }
  }

  lemma {:induction false} LinesHaveNoBreak(t: string)
    ensures forall line :: line in ReadLines(t) ==> OneLine(line)
    decreases |t|
  {
    if |t| > 0 {
      var n := FirstBreak(t);
      if n < |t| { LinesHaveNoBreak(t[AfterBreak(t, n)..]); }
    }
  }

  lemma WrittenCons(first: string, lines: seq<string>)
    ensures Written([first] + lines) == first + "\n" + Written(lines)
  {
    assert ([first] + lines)[1..] == lines;
  }

  lemma CutAt(t: string, n: nat)
    requires n < |t|
    ensures t == t[..n] + [t[n]] + t[n + 1..]
  {}

  /** Reading undoes writing: of a text with newlines only, the lines and their newlines are the text again. */
  lemma {:induction false} WrittenOfRead(t: string)
    requires |t| > 0 && t[|t| - 1] == '\n' && forall i :: 0 <= i < |t| ==> t[i] != '\r'
    ensures Written(ReadLines(t)) == t
    decreases |t|
  {
    var n := FirstBreak(t);
    var first, rest := t[..n], t[n + 1..];
    CutAt(t, n);
    ReadFirst(t, first, rest);
    WrittenCons(first, ReadLines(rest));
    if |rest| > 0 {
      RestHasNoReturn(t, n + 1);
      WrittenOfRead(rest);
    }
  }

  lemma RestHasNoReturn(t: string, k: nat)
    requires k < |t| && t[|t| - 1] == '\n' && forall i :: 0 <= i < |t| ==> t[i] != '\r'
    ensures t[k..][|t[k..]| - 1] == '\n' && forall i :: 0 <= i < |t[k..]| ==> t[k..][i] != '\r'
  {}

  /** A carriage return ends a line as well, together with a newline right after it. */
  lemma ReadCarriageReturn(first: string, rest: string)
    requires OneLine(first) && (|rest| == 0 || rest[0] != '\n')
    ensures ReadLines(first + "\r" + rest) == [first] + ReadLines(rest)
  {
    var t, n := first + "\r" + rest, |first|;
    assert t[n] == '\r' && forall i :: 0 <= i < n ==> t[i] == first[i];
    BreakIsFirst(t, n);
    assert t[..n] == first && t[n + 1..] == rest;
    ReadFirst(t, first, rest);
  }

  lemma ReadReturnAndNewline(first: string, rest: string)
    requires OneLine(first)
    ensures ReadLines(first + "\r\n" + rest) == [first] + ReadLines(rest)
  {
    var t, n := first + "\r\n" + rest, |first|;
    assert t[n] == '\r' && t[n + 1] == '\n' && forall i :: 0 <= i < n ==> t[i] == first[i];
    BreakIsFirst(t, n);
    assert t[..n] == first && t[n + 2..] == rest;
    ReadFirst(t, first, rest);
  }

  /** The file the log process writes: each record and a newline. */
  function Written(records: seq<string>): string {
    if |records| == 0 then "" else records[0] + "\n" + Written(records[1..])
  }

  /** The lines a record takes up in the file. */
  function RecordLines(record: string): seq<string> {
    ReadLines(record + "\n")
  }

  /** The lines of the log file. */
  function LinesOf(records: seq<string>): seq<string> {
    ReadLines(Written(records))
  }

  lemma LinesOfCons(records: seq<string>)
    requires |records| > 0
    ensures LinesOf(records) == RecordLines(records[0]) + LinesOf(records[1..])
  {
    ReadLinesAppend(records[0] + "\n", Written(records[1..]));
  }

  lemma RecordTakesLines(record: string)
    ensures |RecordLines(record)| > 0
  {
    var t := record + "\n";
    assert t[|t| - 1] == '\n' && |t| > 0;
  }

  /** The first records of a log take up fewer lines than all of them. */
  lemma {:induction false} PartHasFewerLines(records: seq<string>, n: nat)
    requires n <= |records|
    ensures |LinesOf(records[..n])| <= |LinesOf(records)|
    ensures n < |records| ==> |LinesOf(records[..n])| < |LinesOf(records)|
    decreases |records|
  {
    if |records| > 0 {
      LinesOfCons(records);
      RecordTakesLines(records[0]);
      if n == 0 {
        assert records[..n] == [] && Written([]) == "";
      } else {
        LinesOfCons(records[..n]);
        assert records[..n][1..] == records[1..][..n - 1] && records[..n][0] == records[0];
        PartHasFewerLines(records[1..], n - 1);
      }
    } else {
      assert records[..n] == records;
    }
  }

  /** Every line's number has property p. */
  ghost predicate AllKeys(lines: seq<string>, p: nat -> bool) {
    forall line :: line in lines ==> p(Key(line))
  }

  lemma AllKeysAppend(a: seq<string>, b: seq<string>, p: nat -> bool)
    ensures AllKeys(a + b, p) <==> AllKeys(a, p) && AllKeys(b, p)
  {
    assert forall line :: line in a + b <==> line in a || line in b;
  }

  lemma {:induction false} LinesOfKeys(records: seq<string>, p: nat -> bool)
    ensures AllKeys(LinesOf(records), p) <==> forall r :: r in records ==> AllKeys(RecordLines(r), p)
  {
    if |records| == 0 {
      assert Written(records) == "";
    } else {
      LinesOfCons(records);
      AllKeysAppend(RecordLines(records[0]), LinesOf(records[1..]), p);
      LinesOfKeys(records[1..], p);
      assert records == [records[0]] + records[1..];
    }
  }

  /** The lines of each stream of records. */
  function LinesOfEach(streams: seq<seq<string>>): (t: seq<seq<string>>)
    ensures |t| == |streams| && forall f :: 0 <= f < |t| ==> t[f] == LinesOf(streams[f])
  {
    seq(|streams|, f requires 0 <= f < |streams| => LinesOf(streams[f]))
  }

  /** If the records interleave, so do their lines. */
  lemma {:induction false} LinesInterleave(log: seq<string>, streams: seq<seq<string>>)
    requires StableSort.Interleaves(log, streams)
    ensures StableSort.Interleaves(LinesOf(log), LinesOfEach(streams))
    decreases |log|
  {
    if |log| == 0 {
      assert Written([]) == "";
    } else {
      var k :| 0 <= k < |streams| && streams[k] != [] && streams[k][0] == log[0]
        && StableSort.Interleaves(log[1..], streams[k := streams[k][1..]]);
      var rest := streams[k := streams[k][1..]];
      LinesInterleave(log[1..], rest);
      LinesOfCons(log);
      LinesOfCons(streams[k]);
      var p, t := RecordLines(log[0]), LinesOfEach(streams);
      assert t[k] == p + LinesOf(rest[k]);
      assert t[k][|p|..] == LinesOf(rest[k]);
      assert t[k := t[k][|p|..]] == LinesOfEach(rest);
      StableSort.SentFirst(p, LinesOf(log[1..]), t, k);
    }
  }

  // ---- Sorting the log ----

  /** sort_file_by_number: reads the lines of the log and rewrites it sorted by the number of the first tag. */
  method SortLog(text: string) returns (out: seq<string>)
    ensures StableSort.StableSortOf(Key, out, ReadLines(text))
  {
    out := StableSort.Sort(Key, ReadLines(text));
  }

  /** The record a child's message becomes: a header with no tag, the tag, the message. */
  function Formatted(header: string, filenum: nat, message: string): string {
    header + Tag(filenum) + " " + message
  }

  lemma FormattedIs(header: string, n: nat, message: string)
    ensures Formatted(header, n, message) == header + ("[f" + Decimal(n) + "] " + message)
  {}

  /** The first line of a record carries the file's number, whatever the message. */
  lemma FirstLineIsTagged(header: string, n: nat, message: string)
    requires NoTag(header) && OneLine(header)
    ensures var lines := RecordLines(Formatted(header, n, message)); |lines| > 0 && Key(lines[0]) == n
  {
    var front := header + Tag(n) + " ";
    var t := front + message + "\n";
    assert Formatted(header, n, message) == front + message;
    assert OneLine(front);
    var k := FirstBreak(t);
    assert forall i :: 0 <= i < |front| ==> t[i] == front[i];
    assert t[|t| - 1] == '\n';
    assert t[..k] == header + Tag(n) + t[|front| - 1..k];
    KeyOfTagged(header, n, t[|front| - 1..k]);
  }

  /** A line without a tag that a message goes on with is a later line of its record, and sorts as file 0. */
  lemma UntaggedContinuation(header: string, n: nat, first: string, line: string, rest: string)
    requires NoTag(line) && OneLine(line)
    ensures var lines := RecordLines(Formatted(header, n, first + "\n" + line + "\n" + rest));
            |lines| > 0 && line in lines[1..] && Key(line) == 0
  {
    var a := header + Tag(n) + " " + first;
    assert Formatted(header, n, first + "\n" + line + "\n" + rest) + "\n"
        == (a + "\n") + ((line + "\n") + (rest + "\n"));
    ReadLinesAppend(a + "\n", (line + "\n") + (rest + "\n"));
    ReadLinesAppend(line + "\n", rest + "\n");
    OneLineRecord(line);
    NoTagKey(line, 0);
    var above, here := RecordLines(a), RecordLines(rest);
    assert (above + ([line] + here))[|above|] == line;
    assert |above| > 0;
    assert (above + ([line] + here))[1..][|above| - 1] == line;
  }

  lemma OneLineRecord(s: string)
    requires OneLine(s)
    ensures RecordLines(s) == [s]
  {
    var t := s + "\n";
    assert t[..|s|] == s;
    BreakIsFirst(t, |s|);
    assert t[|s| + 1..] == "";
    ReadFirst(t, s, "");
  }
}
