/**
 One file through the chain, and the sequential run over all files. What an algorithm's process()
 does is an arbitrary function of the file and the shared dictionary.
 */
module Chain {
  import opened Numbers

  type Dict = map<string, seq<real>>

  /**
   What process() does after its common set-up: succeed, return False, or raise a caught exception.
   The error of an exception is the message the chain makes of it, traceback included.
   */
  datatype Outcome = Done(dict: Dict) | Stopped(error: string) | Raised(error: string)

  /** What init() does: succeed, return (False, error), or raise a caught exception. */
  datatype InitOutcome = Ready | Refuses(error: string) | Throws(error: string)

  /** The loaded algorithms 0..n-1 of a chain, and the files' and algorithms' behaviour. */
  datatype Spec = Spec(
    n: nat,
    process: (nat, string, Dict) -> Outcome,
    init: nat -> InitOutcome,
    finalizeError: nat -> Option<string>,      // finalize() raising a caught exception
    openError: string -> Option<string>,       // opening the L1b file raises
    start: string -> Dict,                     // {"l1b_file_name": file}
    breakAfter: nat -> bool,                   // the algorithm's name is the breakpoint's
    writeError: (string, Dict) -> Option<string>,  // writing the breakpoint file raises
    says: (nat, string, Dict) -> seq<string>,  // messages logged while an algorithm runs
    greets: string -> seq<string>,             // messages logged before the first algorithm
    bids: nat -> seq<string>)                  // messages logged by finalize()

  /** (success, error_str) of run_chain_on_single_file. */
  datatype FileResult = FileResult(success: bool, error: string)

  /** How a file ends. Only the first two endings run the finalize loops of a child process. */
  datatype Ending = Completed | Refused(error: string) | Crashed(error: string)

  function ResultOf(e: Ending): (r: FileResult)
    ensures r.success ==> r.error == ""
  {
    match e
    case Completed => FileResult(true, "")
    case Refused(error) => FileResult(false, error)
    case Crashed(error) => FileResult(false, error)
  }

  /** One turn of the loop over algorithms: go on with the next one, or end. */
  datatype Turn = Go(dict: Dict) | End(ending: Ending)

  function TakeTurn(c: Spec, mp: bool, file: string, k: nat, dict: Dict): Turn {
    if mp && c.init(k).Refuses? then End(Refused(c.init(k).error))
    else if mp && c.init(k).Throws? then End(Crashed(c.init(k).error))
    else
      match c.process(k, file, dict)
      case Stopped(error) => End(Refused(error))
      case Raised(error) => End(Crashed(error))
      case Done(d) =>
        if !c.breakAfter(k) then Go(d)
        else if c.writeError(file, d).Some? then End(Crashed(c.writeError(file, d).value))
        else End(Completed)
  }

  function EndingFrom(c: Spec, mp: bool, file: string, k: nat, dict: Dict): Ending
    decreases c.n - k
  {
    if k >= c.n then Completed
    else
      match TakeTurn(c, mp, file, k, dict)
      case End(e) => e
      case Go(d) => EndingFrom(c, mp, file, k + 1, d)
  }

  /** How run_chain_on_single_file ends on a file. */
  function FileEnding(c: Spec, mp: bool, file: string): Ending {
    if c.openError(file).Some? then Crashed(c.openError(file).value)
    else EndingFrom(c, mp, file, 0, c.start(file))
  }

  function RunFile(c: Spec, mp: bool, file: string): FileResult {
    ResultOf(FileEnding(c, mp, file))
  }

  /** Number of algorithms whose init() succeeded in a child process, counted from k. */
  function InitsFrom(c: Spec, file: string, k: nat, dict: Dict): (m: nat)
    requires k <= c.n
    ensures k <= m <= c.n
    decreases c.n - k
  {
    if k == c.n then k
    else if !c.init(k).Ready? then k
    else
      match TakeTurn(c, true, file, k, dict)
      case End(_) => k + 1
      case Go(d) => InitsFrom(c, file, k + 1, d)
  }

  function Inits(c: Spec, file: string): (m: nat)
    ensures m <= c.n
  {
    if c.openError(file).Some? then 0 else InitsFrom(c, file, 0, c.start(file))
  }

  /** The first exception raised by a finalize loop over the initialised algorithms 0..m-1. */
  function FinalizeErrorBelow(c: Spec, m: nat): (e: Option<string>)
    ensures e.None? <==> forall k :: 0 <= k < m ==> c.finalizeError(k).None?
  {
    if m == 0 then None
    else if FinalizeErrorBelow(c, m - 1).Some? then FinalizeErrorBelow(c, m - 1)
    else c.finalizeError(m - 1)
  }

  /** Calls a finalize loop over the initialised algorithms 0..m-1 makes: all, or up to the first that raises. */
  function FinalizeCalls(c: Spec, m: nat): (n: nat)
    ensures n <= m && (n == 0 <==> m == 0)
    ensures forall k :: 0 <= k < n - 1 ==> c.finalizeError(k).None?
    ensures n < m ==> c.finalizeError(n - 1).Some?
    ensures FinalizeErrorBelow(c, m).None? ==> n == m
  {
    if m == 0 then 0 else if FinalizeErrorBelow(c, m - 1).Some? then FinalizeCalls(c, m - 1) else m
  }

  /** Results a child process puts on its queue when it ends with m algorithms initialised. */
  function QueueAt(c: Spec, e: Ending, m: nat): seq<FileResult> {
    var f := FinalizeErrorBelow(c, m);
    match e
    case Crashed(_) => [ResultOf(e)]
    case Refused(_) => if f.Some? then [ResultOf(e), FileResult(false, f.value)] else [ResultOf(e)]
    case Completed => if f.Some? then [FileResult(false, f.value)] else [ResultOf(e)]
  }

  function Queue(c: Spec, file: string): seq<FileResult> {
    QueueAt(c, FileEnding(c, true, file), Inits(c, file))
  }

  /** A child queues just its file's result unless a finalize() raises after the file ended normally. */
  lemma QueueIsResultIff(c: Spec, file: string)
    ensures Queue(c, file) == [RunFile(c, true, file)] <==>
              FileEnding(c, true, file).Crashed? || FinalizeErrorBelow(c, Inits(c, file)).None?
    ensures |Queue(c, file)| != 1 <==>
              FileEnding(c, true, file).Refused? && FinalizeErrorBelow(c, Inits(c, file)).Some?
  {
    var q, r := Queue(c, file), RunFile(c, true, file);
    assert q == [r] <==> |q| == 1 && q[0] == r;
  }

  // ---- A file's run, algorithm by algorithm ----

  /**
   The first m algorithms all succeed, each working on the dictionary that the one before it left:
   ds[0] is the one the chain starts with and ds[k + 1] the one after algorithm k.
   */
  ghost predicate Passes(c: Spec, mp: bool, file: string, ds: seq<Dict>, m: nat) {
    && c.openError(file).None? && m <= c.n && |ds| == m + 1 && ds[0] == c.start(file)
    && forall k :: 0 <= k < m ==>
         (mp ==> c.init(k).Ready?) && c.process(k, file, ds[k]) == Done(ds[k + 1]) && !c.breakAfter(k)
  }

  lemma {:induction false} PassesReach(c: Spec, mp: bool, file: string, ds: seq<Dict>, m: nat)
    requires Passes(c, mp, file, ds, m)
    ensures FileEnding(c, mp, file) == EndingFrom(c, mp, file, m, ds[m])
    ensures mp ==> Inits(c, file) == InitsFrom(c, file, m, ds[m])
    decreases m
  {
    if m > 0 {
      PassesReach(c, mp, file, ds[..m], m - 1);
      assert TakeTurn(c, mp, file, m - 1, ds[m - 1]) == Go(ds[m]);
    }
  }

  /** After m algorithms, what the next one does decides the file's result. */
  lemma FileEndsAs(c: Spec, mp: bool, file: string, ds: seq<Dict>, m: nat)
    requires Passes(c, mp, file, ds, m)
    ensures m == c.n ==> FileEnding(c, mp, file) == Completed
    ensures m < c.n && mp && c.init(m).Refuses? ==> FileEnding(c, mp, file) == Refused(c.init(m).error)
    ensures m < c.n && mp && c.init(m).Throws? ==> FileEnding(c, mp, file) == Crashed(c.init(m).error)
    ensures m < c.n && (mp ==> c.init(m).Ready?) ==>
      match c.process(m, file, ds[m])
      case Stopped(error) => FileEnding(c, mp, file) == Refused(error)
      case Raised(error) => FileEnding(c, mp, file) == Crashed(error)
      case Done(d) => c.breakAfter(m) ==>
        FileEnding(c, mp, file) ==
          if c.writeError(file, d).Some? then Crashed(c.writeError(file, d).value) else Completed
    ensures mp && (m == c.n || !c.init(m).Ready?) ==> Inits(c, file) == m
    ensures mp && m < c.n && c.init(m).Ready? && (!c.process(m, file, ds[m]).Done? || c.breakAfter(m)) ==>
      Inits(c, file) == m + 1
  {
    PassesReach(c, mp, file, ds, m);
  }

  /** A file that cannot be opened crashes, and nothing is initialised for it. */
  lemma UnopenedFileCrashes(c: Spec, mp: bool, file: string)
    requires c.openError(file).Some?
    ensures FileEnding(c, mp, file) == Crashed(c.openError(file).value) && Inits(c, file) == 0
  {}

  /** Every file that opens runs in this way up to the algorithm that ends it, or through all. */
  lemma EveryFilePasses(c: Spec, mp: bool, file: string) returns (ds: seq<Dict>, m: nat)
    requires c.openError(file).None?
    ensures Passes(c, mp, file, ds, m)
    ensures m == c.n || (mp && !c.init(m).Ready?) || !c.process(m, file, ds[m]).Done? || c.breakAfter(m)
  {
    ds, m := [c.start(file)], 0;
    while m < c.n && (mp ==> c.init(m).Ready?) && c.process(m, file, ds[m]).Done? && !c.breakAfter(m)
      invariant Passes(c, mp, file, ds, m)
      decreases c.n - m
    {
      ds, m := ds + [c.process(m, file, ds[m]).dict], m + 1;
    }
  }

  /** The result of an ending, which is also all that a child queues if no finalize() raises. */
  lemma ResultSpelledOut(c: Spec, mp: bool, file: string)
    ensures RunFile(c, mp, file) ==
      match FileEnding(c, mp, file)
      case Completed => FileResult(true, "")
      case Refused(error) => FileResult(false, error)
      case Crashed(error) => FileResult(false, error)
    ensures (forall k :: 0 <= k < Inits(c, file) ==> c.finalizeError(k).None?) ==>
      Queue(c, file) == [RunFile(c, true, file)]
  {}

  lemma {:induction false} FirstErrorBelow(c: Spec, k: nat, m: nat)
    requires k < m && c.finalizeError(k).Some? && forall i :: 0 <= i < k ==> c.finalizeError(i).None?
    ensures FinalizeErrorBelow(c, m) == c.finalizeError(k) && FinalizeCalls(c, m) == k + 1
  {
    if k + 1 < m { FirstErrorBelow(c, k, m - 1); }
  }

  /** What it queues if finalize() of algorithm k is the first that raises. */
  lemma QueueSpelledOut(c: Spec, file: string, k: nat)
    requires k < Inits(c, file) && c.finalizeError(k).Some? && forall i :: 0 <= i < k ==> c.finalizeError(i).None?
    ensures Queue(c, file) ==
      match FileEnding(c, true, file)
      case Completed => [FileResult(false, c.finalizeError(k).value)]
      case Refused(error) => [FileResult(false, error), FileResult(false, c.finalizeError(k).value)]
      case Crashed(error) => [FileResult(false, error)]
  {
    FirstErrorBelow(c, k, Inits(c, file));
  }

  /** A chain of n algorithms that do nothing, with the given init() and finalize() behaviour. */
  function Idle(n: nat, init: nat -> InitOutcome, finalizeError: nat -> Option<string>): Spec {
    Spec(n, (_, _, d) => Done(d), init, finalizeError, _ => None, _ => map[], _ => false,
         (_, _) => None, (_, _, _) => [], _ => [], _ => [])
  }

  /** The two results: a refused file, then the exception of a finalize() meant to clean up after it. */
  lemma RefusedFileQueuesTwice(file: string)
    ensures var c := Idle(1, _ => Ready, _ => Some("busy")).(process := (_, _, _) => Stopped("no ice"));
            Queue(c, file) == [FileResult(false, "no ice"), FileResult(false, "busy")]
  {
    var c := Idle(1, _ => Ready, _ => Some("busy")).(process := (_, _, _) => Stopped("no ice"));
    assert FileEnding(c, true, file) == Refused("no ice");
    assert Inits(c, file) == 1;
    assert FinalizeErrorBelow(c, 0).None? && FinalizeErrorBelow(c, 1) == Some("busy");
  }

  // ---- The two modes against each other ----

  ghost predicate InitsSucceed(c: Spec) {
    forall k :: 0 <= k < c.n ==> c.init(k).Ready?
  }

  /** With every init() succeeding, a file ends the same way in both modes. */
  lemma {:induction false} SameEndingFrom(c: Spec, file: string, k: nat, dict: Dict)
    requires InitsSucceed(c)
    ensures EndingFrom(c, true, file, k, dict) == EndingFrom(c, false, file, k, dict)
    decreases c.n - k
  {
    if k < c.n {
      var t := TakeTurn(c, true, file, k, dict);
      if t.Go? { SameEndingFrom(c, file, k + 1, t.dict); }
    }
  }

  lemma SameEnding(c: Spec, file: string)
    requires InitsSucceed(c)
    ensures FileEnding(c, true, file) == FileEnding(c, false, file)
  {
    if c.openError(file).None? { SameEndingFrom(c, file, 0, c.start(file)); }
  }

  /** In sequential mode idle algorithms complete, whatever init() did. */
  lemma {:induction false} IdleCompletes(c: Spec, file: string, k: nat)
    requires c == Idle(c.n, c.init, c.finalizeError)
    ensures EndingFrom(c, false, file, k, map[]) == Completed
    decreases c.n - k
  {
    if k < c.n {
      assert TakeTurn(c, false, file, k, map[]) == Go(map[]);
      IdleCompletes(c, file, k + 1);
    }
  }

  /** In a child they complete, all initialised, exactly when every init() succeeds. */
  lemma {:induction false} IdleChild(c: Spec, file: string, k: nat)
    requires c == Idle(c.n, c.init, c.finalizeError) && k <= c.n
    ensures EndingFrom(c, true, file, k, map[]).Completed? <==> forall i :: k <= i < c.n ==> c.init(i).Ready?
    ensures EndingFrom(c, true, file, k, map[]).Completed? ==> InitsFrom(c, file, k, map[]) == c.n
    decreases c.n - k
  {
    if k < c.n && c.init(k).Ready? {
      assert TakeTurn(c, true, file, k, map[]) == Go(map[]);
      IdleChild(c, file, k + 1);
    }
  }

  /** Every init() and finalize() of n algorithms succeeds. */
  ghost predicate AllSucceed(n: nat, init: nat -> InitOutcome, finalizeError: nat -> Option<string>) {
    forall k :: 0 <= k < n ==> init(k).Ready? && finalizeError(k).None?
  }

  /** Then a child queues just the result of the sequential mode. */
  lemma SameResult(c: Spec, file: string)
    requires AllSucceed(c.n, c.init, c.finalizeError)
    ensures Queue(c, file) == [RunFile(c, false, file)]
  {
    SameEnding(c, file);
    QueueIsResultIff(c, file);
  }

  /** Otherwise a child running idle algorithms queues a failure first, though the sequential mode succeeds. */
  lemma IdleChildFails(c: Spec, file: string)
    requires c == Idle(c.n, c.init, c.finalizeError) && !AllSucceed(c.n, c.init, c.finalizeError)
    ensures RunFile(c, false, file) == FileResult(true, "")
    ensures |Queue(c, file)| > 0 && !Queue(c, file)[0].success
  {
    IdleCompletes(c, file, 0);
    IdleChild(c, file, 0);
    if FileEnding(c, true, file).Completed? {
      assert FinalizeErrorBelow(c, c.n).Some?;
    }
  }

  /**
   An init() that fails is ignored in sequential mode, or stops it while it loads, and ends the file in
   a child; a finalize() that raises spoils a child's result. So n algorithms with these init() and
   finalize() results give every file the same one result in both modes, whatever else they do,
   exactly when every init() and finalize() succeeds.
   */
  lemma SameResultIff(n: nat, init: nat -> InitOutcome, finalizeError: nat -> Option<string>)
    ensures (forall c: Spec, file: string :: c.n == n && c.init == init && c.finalizeError == finalizeError ==>
               Queue(c, file) == [RunFile(c, false, file)])
      <==> AllSucceed(n, init, finalizeError)
  {
    if AllSucceed(n, init, finalizeError) {
      forall c: Spec, file: string | c.n == n && c.init == init && c.finalizeError == finalizeError
        ensures Queue(c, file) == [RunFile(c, false, file)]
      {
        SameResult(c, file);
      }
    } else {
      var c := Idle(n, init, finalizeError);
      IdleChildFails(c, "");
      assert c.n == n && c.init == init && c.finalizeError == finalizeError;
      assert Queue(c, "") != [RunFile(c, false, "")];
    }
  }

  /** The smallest cases: one algorithm whose init() returns False, or whose finalize() raises. */
  lemma OneFailureSeparatesModes(file: string)
    ensures var c := Idle(1, _ => Refuses("no DEM"), _ => None);
            RunFile(c, false, file).success && Queue(c, file) == [FileResult(false, "no DEM")]
    ensures var c := Idle(1, _ => Ready, _ => Some("busy"));
            RunFile(c, false, file).success && Queue(c, file) == [FileResult(false, "busy")]
  {
    var c := Idle(1, _ => Ready, _ => Some("busy"));
    IdleCompletes(c, file, 0);
    IdleChild(c, file, 0);
    assert FinalizeErrorBelow(c, 0).None? && FinalizeErrorBelow(c, 1) == Some("busy");
    var d := Idle(1, _ => Refuses("no DEM"), _ => None);
    IdleCompletes(d, file, 0);
    assert FileEnding(d, true, file) == Refused("no DEM");
  }

  // ---- Counting ----

  predicate OccursAt(s: string, sub: string, i: nat) {
    i + |sub| <= |s| && s[i..i + |sub|] == sub
  }

  /** Python's "sub in s". */
  predicate Contains(s: string, sub: string) {
    exists i :: 0 <= i <= |s| && OccursAt(s, sub, i)
  }

  predicate SaysSkip(r: FileResult) {
    Contains(r.error, "SKIP_OK")
  }

  datatype Totals = Totals(errors: nat, processed: nat, skipped: nat)

  /** How the sequential loop counts one result. */
  function TallySequential(t: Totals, r: FileResult): Totals {
    if !r.success && SaysSkip(r) then Totals(t.errors, t.processed + 1, t.skipped + 1)
    else if !r.success then Totals(t.errors + 1, t.processed + 1, t.skipped)
    else Totals(t.errors, t.processed + 1, t.skipped)
  }

  /** How the parent counts one result taken from a child's queue. */
  function TallyQueued(t: Totals, r: FileResult): Totals {
    Totals(t.errors + (if !r.success && !SaysSkip(r) then 1 else 0),
           t.processed + 1,
           t.skipped + (if SaysSkip(r) then 1 else 0))
  }

  lemma TalliesAgree(t: Totals, e: Ending)
    ensures TallySequential(t, ResultOf(e)) == TallyQueued(t, ResultOf(e))
  {
    if ResultOf(e).success {
      assert |ResultOf(e).error| == 0;
    }
  }

  predicate IsError(r: FileResult) {
    !r.success && !SaysSkip(r)
  }

  /** The success flag run_chain returns with its counts. */
  predicate ChainSucceeds(t: Totals) {
    t.errors == 0
  }

  /** Totals of a sequential run over the first m files without stopping. */
  function TotalsOf(c: Spec, files: seq<string>, m: nat): Totals
    requires m <= |files|
  {
    if m == 0 then Totals(0, 0, 0)
    else TallySequential(TotalsOf(c, files, m - 1), RunFile(c, false, files[m - 1]))
  }

  /** Number of files a sequential run gets through: all, or up to the first error if it stops there. */
  function FilesRun(c: Spec, files: seq<string>, stopOnError: bool, i: nat): (m: nat)
    requires i <= |files|
    ensures i <= m <= |files|
    ensures !stopOnError ==> m == |files|
    ensures stopOnError && m < |files| ==> m > i
    ensures stopOnError && m > i && m < |files| ==> IsError(RunFile(c, false, files[m - 1]))
    ensures stopOnError ==> forall j :: i <= j < m - 1 ==> !IsError(RunFile(c, false, files[j]))
    decreases |files| - i
  {
    if i == |files| then i
    else if stopOnError && IsError(RunFile(c, false, files[i])) then i + 1
    else FilesRun(c, files, stopOnError, i + 1)
  }

  /** Some init() raises, which ends a sequential run while it loads. */
  predicate SomeInitThrows(c: Spec, m: nat) {
    exists k :: 0 <= k < m && c.init(k).Throws?
  }

  /** The counts of a sequential run; a finalize() that raises at its end keeps it from returning them. */
  function SequentialTotals(c: Spec, files: seq<string>, stopOnError: bool): Totals {
    if SomeInitThrows(c, c.n) then Totals(1, 0, 0) else TotalsOf(c, files, FilesRun(c, files, stopOnError, 0))
  }

  lemma {:induction false} TotalsCountFiles(c: Spec, files: seq<string>, m: nat)
    requires m <= |files|
    ensures TotalsOf(c, files, m).processed == m
    ensures TotalsOf(c, files, m).errors > 0 <==> exists j :: 0 <= j < m && IsError(RunFile(c, false, files[j]))
  {
    if m > 0 {
      TotalsCountFiles(c, files, m - 1);
      assert IsError(RunFile(c, false, files[m - 1])) || !IsError(RunFile(c, false, files[m - 1]));
    }
  }

  /** Python's "SKIP_OK" in error. */
  ghost predicate AsksToSkip(error: string) {
    exists a, b :: error == a + "SKIP_OK" + b
  }

  lemma SaysSkipIff(r: FileResult)
    ensures SaysSkip(r) <==> AsksToSkip(r.error)
  {
    var s := r.error;
    if SaysSkip(r) {
      var i :| 0 <= i <= |s| && OccursAt(s, "SKIP_OK", i);
      assert s == s[..i] + "SKIP_OK" + s[i + 7..];
    }
    if AsksToSkip(s) {
      var a, b :| s == a + "SKIP_OK" + b;
      assert OccursAt(s, "SKIP_OK", |a|);
    }
  }

  /** The file fails, and its error asks to skip it or does not. */
  ghost predicate Fails(c: Spec, file: string, skip: bool) {
    !RunFile(c, false, file).success && (AsksToSkip(RunFile(c, false, file).error) <==> skip)
  }

  /** The files among the first m that fail so. */
  ghost function Failing(c: Spec, files: seq<string>, m: nat, skip: bool): set<nat>
    requires m <= |files|
  {
    set j: nat | j < m && Fails(c, files[j], skip)
  }

  lemma OneMoreFile(c: Spec, files: seq<string>, m: nat, skip: bool)
    requires m < |files|
    ensures |Failing(c, files, m + 1, skip)| == |Failing(c, files, m, skip)| + if Fails(c, files[m], skip) then 1 else 0
  {
    var before := Failing(c, files, m, skip);
    assert Failing(c, files, m + 1, skip) == before + if Fails(c, files[m], skip) then {m} else {};
    assert m !in before;
  }

  lemma TotalsOneMore(c: Spec, files: seq<string>, m: nat)
    requires m < |files|
    ensures var t := TotalsOf(c, files, m);
            TotalsOf(c, files, m + 1) ==
              Totals(t.errors + (if Fails(c, files[m], false) then 1 else 0), t.processed + 1,
                     t.skipped + if Fails(c, files[m], true) then 1 else 0)
  {
    SaysSkipIff(RunFile(c, false, files[m]));
  }

  /** The counts are numbers of files: failed, run, and failed with a request to skip. */
  lemma {:induction false} TotalsAreNumbersOfFiles(c: Spec, files: seq<string>, m: nat)
    requires m <= |files|
    ensures TotalsOf(c, files, m) == Totals(|Failing(c, files, m, false)|, m, |Failing(c, files, m, true)|)
  {
    if m > 0 {
      var k := m - 1;
      TotalsAreNumbersOfFiles(c, files, k);
      TotalsOneMore(c, files, k);
      OneMoreFile(c, files, k, false);
      OneMoreFile(c, files, k, true);
    } else {
      assert Failing(c, files, 0, false) == {} && Failing(c, files, 0, true) == {};
    }
  }

  /** With stop_on_error, the processed count is the index of the first error plus one, or all files. */
  lemma StopsAtFirstError(c: Spec, files: seq<string>, first: nat)
    requires first <= |files|
    requires forall j :: 0 <= j < first ==> !IsError(RunFile(c, false, files[j]))
    requires first < |files| ==> IsError(RunFile(c, false, files[first]))
    ensures TotalsOf(c, files, FilesRun(c, files, true, 0)).processed == if first < |files| then first + 1 else |files|
  {
    var m := FilesRun(c, files, true, 0);
    TotalsCountFiles(c, files, m);
    if m < |files| { assert IsError(RunFile(c, false, files[m - 1])); }
  }
}
