/**
 The log of a multi-process run: what the log process has written when every child is joined, and
 what sorting that file by file number gives. The log process is never waited for, and a message of
 several lines has its file's number on the first one only; both can spoil the sorted log, and the
 results say exactly when they do.
 */
module ProcessLog {
  import opened Numbers
  import opened Chain
  import opened ChainProcesses
  import LogOrder
  import StableSort

  // ---- A file's log, spelled out ----

  /** What the first m algorithms say, given the dictionaries they work on. */
  function Said(j: Job, f: nat, ds: seq<Dict>, m: nat): seq<string>
    requires f < |j.files| && m <= |ds|
  {
    StableSort.Concat(seq(m, k requires 0 <= k < m => j.c.says(k, j.files[f], ds[k])))
  }

  /** What finalize() of algorithms 0..m-1 says, if none raises. */
  function AllBids(c: Spec, m: nat): seq<string> {
    StableSort.Concat(seq(m, k requires 0 <= k < m => c.bids(k)))
  }

  lemma SaidOneMore(j: Job, f: nat, ds: seq<Dict>, m: nat)
    requires f < |j.files| && m < |ds|
    ensures Said(j, f, ds, m + 1) == Said(j, f, ds, m) + j.c.says(m, j.files[f], ds[m])
  {
    var a := seq(m, k requires 0 <= k < m => j.c.says(k, j.files[f], ds[k]));
    var b := seq(m + 1, k requires 0 <= k < m + 1 => j.c.says(k, j.files[f], ds[k]));
    StableSort.ConcatOfSame(a, b, m);
  }

  lemma BidsOneMore(c: Spec, m: nat)
    ensures AllBids(c, m + 1) == AllBids(c, m) + c.bids(m)
  {
    var a := seq(m, k requires 0 <= k < m => c.bids(k));
    var b := seq(m + 1, k requires 0 <= k < m + 1 => c.bids(k));
    StableSort.ConcatOfSame(a, b, m);
  }

  lemma {:induction false} FarewellIsBids(c: Spec, m: nat)
    requires forall i :: 0 <= i < m - 1 ==> c.finalizeError(i).None?
    ensures Farewell(c, m) == AllBids(c, m)
  {
    if m > 0 {
      FarewellIsBids(c, m - 1);
      BidsOneMore(c, m - 1);
    }
  }

  lemma {:induction false} FarewellStops(c: Spec, k: nat, m: nat)
    requires k < m && c.finalizeError(k).Some? && forall i :: 0 <= i < k ==> c.finalizeError(i).None?
    ensures Farewell(c, m) == AllBids(c, k + 1)
  {
    if k + 1 < m {
      FirstErrorBelow(c, k, m - 1);
      FarewellStops(c, k, m - 1);
    } else {
      FarewellIsBids(c, m);
    }
  }

  /** The last messages of a child: what finalize() says, if none raises. */
  lemma LastWordsAre(c: Spec, m: nat)
    requires forall i :: 0 <= i < m ==> c.finalizeError(i).None?
    ensures LastWords(c, m) == AllBids(c, m)
  {
    FarewellIsBids(c, m);
  }

  /** Or what it says up to the first that raises, and the exception. */
  lemma LastWordsStop(c: Spec, k: nat, m: nat)
    requires k < m && c.finalizeError(k).Some? && forall i :: 0 <= i < k ==> c.finalizeError(i).None?
    ensures LastWords(c, m) == AllBids(c, k + 1) + [c.finalizeError(k).value]
  {
    FirstErrorBelow(c, k, m);
    FarewellStops(c, k, m);
  }

  lemma {:induction false} LogReaches(j: Job, f: nat, ds: seq<Dict>, m: nat)
    requires f < |j.files| && Passes(j.c, true, j.files[f], ds, m)
    ensures LogFrom(j, f, 0, ds[0]) == Said(j, f, ds, m) + LogFrom(j, f, m, ds[m])
    decreases m
  {
    if m > 0 {
      LogReaches(j, f, ds[..m], m - 1);
      assert TakeTurn(j.c, true, j.files[f], m - 1, ds[m - 1]) == Go(ds[m]);
      SaidOneMore(j, f, ds, m - 1);
      SaidOfPrefix(j, f, ds, m - 1, m);
    } else {
      assert Said(j, f, ds, 0) == [];
    }
  }

  lemma SaidOfPrefix(j: Job, f: nat, ds: seq<Dict>, m: nat, n: nat)
    requires f < |j.files| && m <= n <= |ds|
    ensures Said(j, f, ds[..n], m) == Said(j, f, ds, m)
  {
    var a := seq(m, k requires 0 <= k < m => j.c.says(k, j.files[f], ds[..n][k]));
    var b := seq(m, k requires 0 <= k < m => j.c.says(k, j.files[f], ds[k]));
    assert a == b;
  }

  /** A file that the turn of algorithm m ends logs what the algorithms up to m say and then its closing. */
  lemma LogAtEnd(j: Job, f: nat, ds: seq<Dict>, m: nat, e: Ending)
    requires f < |j.files| && Passes(j.c, true, j.files[f], ds, m)
    requires m < j.c.n && TakeTurn(j.c, true, j.files[f], m, ds[m]) == End(e)
    ensures FileLog(j, f)
         == j.c.greets(j.files[f]) + (Said(j, f, ds, m + 1) + Closing(j, f, e, InitsAtEnd(j.c, m)))
  {
    LogReaches(j, f, ds, m);
    SaidOneMore(j, f, ds, m);
    var before, says := Said(j, f, ds, m), j.c.says(m, j.files[f], ds[m]);
    Regroup(before, says, Closing(j, f, e, InitsAtEnd(j.c, m)));
  }

  lemma Regroup(a: seq<string>, b: seq<string>, c: seq<string>)
    ensures a + (b + c) == a + b + c
  {}

  /** A file that gets through logs its greeting, what each algorithm says, and what finalize() says. */
  lemma CompletedLogIs(j: Job, f: nat, ds: seq<Dict>)
    requires f < |j.files| && Passes(j.c, true, j.files[f], ds, j.c.n)
    ensures FileLog(j, f) == j.c.greets(j.files[f]) + (Said(j, f, ds, j.c.n) + LastWords(j.c, j.c.n))
  {
    LogReaches(j, f, ds, j.c.n);
  }

  /** A file that an algorithm refuses logs the refusal before what finalize() says. */
  lemma RefusedLogIs(j: Job, f: nat, ds: seq<Dict>, m: nat, error: string)
    requires f < |j.files| && Passes(j.c, true, j.files[f], ds, m) && m < j.c.n
    requires
      j.c.init(m) == Refuses(error) || (j.c.init(m).Ready? && j.c.process(m, j.files[f], ds[m]) == Stopped(error))
    ensures FileLog(j, f) == j.c.greets(j.files[f]) + (Said(j, f, ds, m + 1)
      + ([RefusalText(f, j.files[f], error)] + LastWords(j.c, if j.c.init(m).Ready? then m + 1 else m)))
  {
    LogAtEnd(j, f, ds, m, Refused(error));
    RefusalIs(f, j.files[f], error);
  }

  /** A file that raises logs just the exception after that. */
  lemma CrashedLogIs(j: Job, f: nat, ds: seq<Dict>, m: nat, error: string)
    requires f < |j.files| && Passes(j.c, true, j.files[f], ds, m) && m < j.c.n
    requires
      j.c.init(m) == Throws(error) || (j.c.init(m).Ready? && j.c.process(m, j.files[f], ds[m]) == Raised(error))
    ensures FileLog(j, f) == j.c.greets(j.files[f]) + (Said(j, f, ds, m + 1) + [error])
  {
    LogAtEnd(j, f, ds, m, Crashed(error));
  }

  /** A file that ends at a breakpoint logs as if through, or the exception of writing the dictionary. */
  lemma BreakpointLogIs(j: Job, f: nat, ds: seq<Dict>, m: nat, d: Dict)
    requires f < |j.files| && Passes(j.c, true, j.files[f], ds, m) && m < j.c.n && j.c.init(m).Ready?
    requires j.c.process(m, j.files[f], ds[m]) == Done(d) && j.c.breakAfter(m)
    ensures FileLog(j, f) == j.c.greets(j.files[f]) + (Said(j, f, ds, m + 1)
      + match j.c.writeError(j.files[f], d) case None => LastWords(j.c, m + 1) case Some(error) => [error])
  {
    var w := j.c.writeError(j.files[f], d);
    LogAtEnd(j, f, ds, m, if w.Some? then Crashed(w.value) else Completed);
  }

  /** A file that cannot be opened has its greeting and the exception. */
  lemma UnopenedLogIs(j: Job, f: nat)
    requires f < |j.files| && j.c.openError(j.files[f]).Some?
    ensures FileLog(j, f) == j.c.greets(j.files[f]) + [j.c.openError(j.files[f]).value]
  {}

  /** The message about a file that was refused, by whether its error asks to skip it. */
  ghost function RefusalText(f: nat, file: string, error: string): string {
    if AsksToSkip(error)
    then "Processing of L1b file " + LogOrder.Decimal(f) + " : " + file + " SKIPPED because " + error
    else "Processing of L1b file " + LogOrder.Decimal(f) + " : " + file + " stopped because " + error
  }

  lemma RefusalIs(f: nat, file: string, error: string)
    ensures Refusal(f, file, error) == RefusalText(f, file, error)
  {
    SaysSkipIff(FileResult(false, error));
  }

  // ---- The sorted log ----

  /** The records of the files' own logs, in file order. */
  function FileLogs(j: Job): (logs: seq<seq<string>>)
    ensures |logs| == |j.files|
    ensures forall f :: 0 <= f < |j.files| ==> logs[f] == Records(j, f, FileLog(j, f))
  {
    seq(|j.files|, f requires 0 <= f < |j.files| => Records(j, f, FileLog(j, f)))
  }

  /** The same as the lines of a file. */
  function FileTexts(j: Job): (texts: seq<seq<string>>)
    ensures |texts| == |j.files|
    ensures forall f :: 0 <= f < |j.files| ==> texts[f] == LogOrder.LinesOf(FileLogs(j)[f])
  {
    LogOrder.LinesOfEach(FileLogs(j))
  }

  /** Every file's own log, in file order: what the sorted log should be. */
  function InOrder(j: Job): seq<string> {
    StableSort.Concat(FileTexts(j))
  }

  /** out is the log file as it is when every child is joined, sorted. */
  ghost predicate SortedLog(j: Job, run: seq<Event>, out: seq<string>) {
    && CompleteRun(j, run) && Final(j, run).written <= |Final(j, run).log|
    && StableSort.StableSortOf(LogOrder.Key, out, LogOrder.LinesOf(Final(j, run).log[..Final(j, run).written]))
  }

  /** The log process has written all it was sent. */
  ghost predicate AllWritten(j: Job, run: seq<Event>)
    requires CompleteRun(j, run)
  {
    Final(j, run).written == |Final(j, run).log|
  }

  // ---- Lines and their numbers ----

  /** The lines of a record after its first. */
  function Continuation(r: string): seq<string> {
    var lines := LogOrder.RecordLines(r);
    if |lines| == 0 then [] else lines[1..]
  }

  /** Every line that a file's messages go on with carries the file's number itself. */
  ghost predicate ContinuationsTagged(j: Job) {
    forall f, r :: 0 <= f < |j.files| && r in FileLogs(j)[f] ==> LogOrder.AllKeys(Continuation(r), k => k == f)
  }

  /** No line that a file's messages go on with carries the number of a later file. */
  ghost predicate NoLaterTag(j: Job) {
    forall f, r :: 0 <= f < |j.files| && r in FileLogs(j)[f] ==> LogOrder.AllKeys(Continuation(r), k => k <= f)
  }

  lemma RecordSplits(j: Job, f: nat, r: string)
    requires j.Valid() && f < |j.files| && r in FileLogs(j)[f]
    ensures var lines := LogOrder.RecordLines(r);
            |lines| > 0 && LogOrder.Key(lines[0]) == f && lines == [lines[0]] + Continuation(r)
  {
    var log := FileLog(j, f);
    var i :| 0 <= i < |log| && r == Record(j, f, i, log[i]);
    LogOrder.FirstLineIsTagged(j.header(f, i), f, log[i]);
  }

  /** A file's lines have a property of keys that f itself has exactly when the continuation lines have it. */
  lemma TextKeysIff(j: Job, f: nat, p: nat -> bool)
    requires j.Valid() && f < |j.files| && p(f)
    ensures LogOrder.AllKeys(FileTexts(j)[f], p) <==>
            forall r :: r in FileLogs(j)[f] ==> LogOrder.AllKeys(Continuation(r), p)
  {
    var log := FileLogs(j)[f];
    LogOrder.LinesOfKeys(log, p);
    forall r | r in log
      ensures LogOrder.AllKeys(LogOrder.RecordLines(r), p) <==> LogOrder.AllKeys(Continuation(r), p)
    {
      RecordSplits(j, f, r);
      LogOrder.AllKeysAppend([LogOrder.RecordLines(r)[0]], Continuation(r), p);
    }
  }

  /** A file's text opens with a line of its own number. */
  lemma TextOpens(j: Job, f: nat)
    requires j.Valid() && f < |j.files|
    ensures FileTexts(j)[f] != [] ==> LogOrder.Key(FileTexts(j)[f][0]) == f
  {
    var log := FileLogs(j)[f];
    if |log| == 0 {
      assert LogOrder.Written(log) == "";
    } else {
      assert log[0] in log;
      RecordSplits(j, f, log[0]);
      LogOrder.LinesOfCons(log);
    }
  }

  lemma TaggedIff(j: Job)
    requires j.Valid()
    ensures StableSort.Tagged(LogOrder.Key, FileTexts(j)) <==> ContinuationsTagged(j)
  {
    var texts := FileTexts(j);
    forall f | 0 <= f < |j.files|
      ensures (forall i :: 0 <= i < |texts[f]| ==> LogOrder.Key(texts[f][i]) == f) <==>
              forall r :: r in FileLogs(j)[f] ==> LogOrder.AllKeys(Continuation(r), k => k == f)
    {
      TextKeysIff(j, f, k => k == f);
      assert forall i :: 0 <= i < |texts[f]| ==> texts[f][i] in texts[f];
    }
  }

  lemma TextsAreOpened(j: Job)
    requires j.Valid() && NoLaterTag(j)
    ensures StableSort.Opened(LogOrder.Key, FileTexts(j))
  {
    var texts := FileTexts(j);
    forall f | 0 <= f < |j.files| && texts[f] != []
      ensures LogOrder.Key(texts[f][0]) == f && forall i :: 0 <= i < |texts[f]| ==> LogOrder.Key(texts[f][i]) <= f
    {
      TextOpens(j, f);
      TextKeysIff(j, f, k => k <= f);
      assert forall i :: 0 <= i < |texts[f]| ==> texts[f][i] in texts[f];
    }
  }

  // ---- What was sent and what was written ----

  /** The records sent in a complete run interleave the files' own, and so do their lines. */
  lemma LogInterleavesTexts(j: Job, run: seq<Event>)
    requires j.Chunked() && CompleteRun(j, run)
    ensures StableSort.Interleaves(LogOrder.LinesOf(Final(j, run).log), FileTexts(j))
  {
    FinalOk(j, run);
    var s := Final(j, run);
    forall f | 0 <= f < |j.files|
      ensures s.emitted[f] == FileLog(j, f)
    {
      assert ChildOk(j, f, s.children[f], s.emitted[f]);
      assert Pending(j, f, s.children[f]) == [];
      assert s.emitted[f] + [] == s.emitted[f];
    }
    assert AllRecords(j, s.emitted) == FileLogs(j);
    LogOrder.LinesInterleave(s.log, FileLogs(j));
  }

  /** A log sorted before the log process is through lacks lines, on every schedule. */
  lemma SortedTooEarly(j: Job, run: seq<Event>, out: seq<string>)
    requires j.Chunked() && SortedLog(j, run, out) && !AllWritten(j, run)
    ensures |out| < |InOrder(j)|
  {
    var s := Final(j, run);
    LogInterleavesTexts(j, run);
    StableSort.InterleavingLength(LogOrder.LinesOf(s.log), FileTexts(j));
    LogOrder.PartHasFewerLines(s.log, s.written);
    StableSort.SortKeepsLength(LogOrder.Key, out, LogOrder.LinesOf(s.log[..s.written]));
  }

  /**
   End to end, for every schedule of the parent, the children and the log process. If all lines that
   a message goes on with carry its file's number, sorting the log gives each file's own log, in file
   order, exactly when the log process has written everything by then. As long as no such line carries
   the number of a later file, those two conditions together are exact.
   */
  lemma SortedLogIff(j: Job, run: seq<Event>, out: seq<string>)
    requires j.Valid() && SortedLog(j, run, out)
    ensures ContinuationsTagged(j) ==> (out == InOrder(j) <==> AllWritten(j, run))
    ensures NoLaterTag(j) ==> (out == InOrder(j) <==> AllWritten(j, run) && ContinuationsTagged(j))
  {
    var s := Final(j, run);
    if AllWritten(j, run) {
      assert s.log[..s.written] == s.log;
      SortedWholeLogIff(j, run, LogOrder.LinesOf(s.log), out);
    } else {
      SortedTooEarly(j, run, out);
    }
  }

  lemma SortedWholeLogIff(j: Job, run: seq<Event>, lines: seq<string>, out: seq<string>)
    requires j.Valid() && CompleteRun(j, run) && lines == LogOrder.LinesOf(Final(j, run).log)
    requires StableSort.StableSortOf(LogOrder.Key, out, lines)
    ensures ContinuationsTagged(j) ==> out == InOrder(j)
    ensures NoLaterTag(j) ==> (out == InOrder(j) <==> ContinuationsTagged(j))
  {
    LogInterleavesTexts(j, run);
    TaggedIff(j);
    if ContinuationsTagged(j) { StableSort.SortUndoesInterleaving(LogOrder.Key, lines, FileTexts(j), out); }
    if NoLaterTag(j) {
      TextsAreOpened(j);
      StableSort.OpenedSortsIffTagged(LogOrder.Key, lines, FileTexts(j), out);
    }
  }

  // ---- When the log process is late ----

  /**
   It can always be late: every job whose first file logs anything has a schedule that joins every
   child before anything is written, and then the sorted log is empty.
   */
  lemma LogCanBeEmpty(j: Job) returns (run: seq<Event>)
    requires j.Chunked() && |FileLog(j, 0)| > 0
    ensures CompleteRun(j, run) && Final(j, run).written == 0 && !AllWritten(j, run)
    ensures forall out :: SortedLog(j, run, out) ==> out == [] && out != InOrder(j)
  {
    InitialOk(j);
    run := CompleteWithoutWriting(j, Initial(j));
    var s := Final(j, run);
    LogInterleavesTexts(j, run);
    SomethingWasSent(j, run);
    assert s.log[..0] == [] && LogOrder.Written([]) == "";
    forall out | SortedLog(j, run, out)
      ensures out == [] && out != InOrder(j)
    {
      SortedTooEarly(j, run, out);
      StableSort.SortKeepsLength(LogOrder.Key, out, []);
    }
  }

  lemma SomethingWasSent(j: Job, run: seq<Event>)
    requires j.Chunked() && CompleteRun(j, run) && |FileLog(j, 0)| > 0
    ensures |Final(j, run).log| > 0
  {
    var s := Final(j, run);
    FinalOk(j, run);
    assert ChildOk(j, 0, s.children[0], s.emitted[0]);
    assert Pending(j, 0, s.children[0]) == [];
    assert |AllRecords(j, s.emitted)[0]| > 0;
  }

  /** And it can always catch up: any complete run goes on, by writing alone, until everything is written. */
  lemma LogCatchesUp(j: Job, run: seq<Event>) returns (all: seq<Event>)
    requires j.Chunked() && CompleteRun(j, run)
    ensures run <= all && CompleteRun(j, all) && AllWritten(j, all)
    ensures Final(j, all).log == Final(j, run).log && Final(j, all).totals == Final(j, run).totals
  {
    FinalOk(j, run);
    var more := WriteRest(j, Final(j, run));
    RunsJoin(j, Initial(j), run, more);
    all := run + more;
  }

  lemma {:induction false} WriteRest(j: Job, s: State) returns (more: seq<Event>)
    requires Inv(j, s)
    ensures CanRun(j, s, more) && Run(j, s, more) == s.(written := |s.log|)
    decreases |s.log| - s.written
  {
    if s.written == |s.log| {
      more := [];
    } else {
      NextKeepsInv(j, s, Write);
      var rest := WriteRest(j, Next(j, s, Write));
      more := [Write] + rest;
      assert more[1..] == rest;
    }
  }

  lemma {:induction false} RunsJoin(j: Job, s: State, a: seq<Event>, b: seq<Event>)
    requires CanRun(j, s, a) && CanRun(j, Run(j, s, a), b)
    ensures CanRun(j, s, a + b) && Run(j, s, a + b) == Run(j, Run(j, s, a), b)
    decreases |a|
  {
    if |a| == 0 {
      assert a + b == b;
    } else {
      assert (a + b)[1..] == a[1..] + b;
      RunsJoin(j, Next(j, s, a[0]), a[1..], b);
    }
  }

  // ---- Lines without their file's number ----

  /** Without any proviso: a continuation line with a lower number, or none, breaks the order on every schedule. */
  lemma StrayLineBreaksOrder(j: Job, run: seq<Event>, out: seq<string>, f: nat, r: string, line: string)
    requires j.Valid() && SortedLog(j, run, out)
    requires f < |j.files| && r in FileLogs(j)[f] && line in Continuation(r) && LogOrder.Key(line) < f
    ensures out != InOrder(j)
  {
    var s := Final(j, run);
    if AllWritten(j, run) {
      var texts := FileTexts(j);
      assert s.log[..s.written] == s.log;
      LogInterleavesTexts(j, run);
      TextKeysIff(j, f, k => k >= f);
      assert !LogOrder.AllKeys(Continuation(r), k => k >= f);
      var x :| x in texts[f] && LogOrder.Key(x) < f;
      var i :| 0 <= i < |texts[f]| && texts[f][i] == x;
      TextOpens(j, f);
      StableSort.LowerKeyMovesUp(LogOrder.Key, LogOrder.LinesOf(s.log), texts, out, f, i);
    } else {
      SortedTooEarly(j, run, out);
    }
  }

  lemma {:induction false} CrashIsLoggedFrom(j: Job, f: nat, k: nat, dict: Dict, error: string)
    requires f < |j.files| && EndingFrom(j.c, true, j.files[f], k, dict) == Crashed(error)
    ensures error in LogFrom(j, f, k, dict)
    decreases j.c.n - k
  {
    var t := TakeTurn(j.c, true, j.files[f], k, dict);
    if t.Go? { CrashIsLoggedFrom(j, f, k + 1, t.dict, error); }
  }

  /** The message of a crash, traceback and all, is one of the file's messages. */
  lemma CrashIsLogged(j: Job, f: nat, error: string)
    requires f < |j.files| && FileEnding(j.c, true, j.files[f]) == Crashed(error)
    ensures error in FileLog(j, f)
  {
    if j.c.openError(j.files[f]).None? { CrashIsLoggedFrom(j, f, 0, j.c.start(j.files[f]), error); }
  }

  /**
   So any run in which a file other than the first raises, with a traceback that has a later line
   without a tag, ends with a sorted log that is out of order.
   */
  lemma CrashBreaksOrder(j: Job, run: seq<Event>, out: seq<string>, f: nat, first: string, line: string, rest: string)
    requires j.Valid() && SortedLog(j, run, out) && 0 < f < |j.files|
    requires FileEnding(j.c, true, j.files[f]) == Crashed(first + "\n" + line + "\n" + rest)
    requires LogOrder.OneLine(line) && LogOrder.NoTag(line)
    ensures out != InOrder(j)
  {
    var error, log := first + "\n" + line + "\n" + rest, FileLog(j, f);
    CrashIsLogged(j, f, error);
    var i :| 0 <= i < |log| && log[i] == error;
    assert FileLogs(j)[f][i] == Record(j, f, i, error);
    LogOrder.UntaggedContinuation(j.header(f, i), f, first, line, rest);
    StrayLineBreaksOrder(j, run, out, f, Record(j, f, i, error), line);
  }
}
