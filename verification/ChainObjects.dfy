/**
 The algorithm objects and their initialized flag: which instances each mode initialises, which it
 finalises, and that on a run where nothing raises every initialised instance is finalised once.
 */
module ChainObjects {
  import opened Numbers
  import opened Chain

  /** How process_setup() ends: (True, ""), (False, error), or an exception. */
  datatype Setup = Proceed | Return(error: string) | Raise(error: string)

  class BaseAlgorithm {
    var initialized: bool
    ghost var finals: nat   // calls of finalize so far

    /** __init__: in multi-processing mode only a shared-memory instance is initialised here. */
    constructor (mp: bool, useSharedMemory: bool, initSharedMem: bool)
      ensures initialized <==> !mp || (useSharedMemory && initSharedMem)
      ensures finals == 0
    {
      initialized := false;
      finals := 0;
      new;
      if mp {
        if !useSharedMemory { return; }
        if !initSharedMem { return; }
      }
      initialized := true;
    }

    /** process_setup: in multi-processing mode init() runs here, in the child; the input must be a Dataset. */
    method ProcessSetup(mp: bool, init: InitOutcome, isDataset: bool) returns (r: Setup)
      modifies this`initialized
      ensures r.Proceed? <==> isDataset && (mp ==> init.Ready?)
      ensures mp && init.Refuses? ==> r == Return(init.error)
      ensures r.Raise? <==> mp && init.Throws?
      ensures r.Raise? ==> r.error == init.error
      ensures initialized <==> old(initialized) || (mp && init.Ready?)
    {
      if mp {
        match init {
          case Refuses(error) => return Return(error);
          case Throws(error) => return Raise(error);
          case Ready => initialized := true;
        }
      }
      if !isDataset { return Return("l1b parameter is not a netCDF4 Dataset type"); }
      r := Proceed;
    }

    method Finalize()
      modifies this`finals
      ensures finals == old(finals) + 1
    {
      finals := finals + 1;
    }
  }

  /** for alg_obj in list: if alg_obj.initialized: alg_obj.finalize(), up to the first that raises. */
  method FinalizeInitialized(c: Spec, algs: seq<BaseAlgorithm>, ghost m: nat) returns (error: Option<string>)
    requires Distinct(algs) && m <= |algs|
    requires forall i :: 0 <= i < |algs| ==> (algs[i].initialized <==> i < m)
    modifies algs`finals
    ensures error == FinalizeErrorBelow(c, m)
    ensures forall i :: 0 <= i < |algs| ==>
      algs[i].finals == old(algs[i].finals) + if i < FinalizeCalls(c, m) then 1 else 0
  {
    error := None;
    for k := 0 to |algs|
      invariant FinalizeErrorBelow(c, if k < m then k else m).None?
      invariant forall i :: 0 <= i < k ==>
        algs[i].finals == old(algs[i].finals) + if algs[i].initialized then 1 else 0
      invariant forall i :: k <= i < |algs| ==> algs[i].finals == old(algs[i].finals)
    {
      if algs[k].initialized {
        algs[k].Finalize();
        if c.finalizeError(k).Some? {
          error := c.finalizeError(k);
          FirstErrorBelow(c, k, m);
          return;
        }
      }
    }
  }

  /** The instances of a child process after m of them were initialised, none finalised yet. */
  ghost predicate ChildState(algs: seq<BaseAlgorithm>, m: nat)
    reads algs
  {
    forall i :: 0 <= i < |algs| ==> (algs[i].initialized <==> i < m) && algs[i].finals == 0
  }

  /** The same when the child has ended, having finalised the first calls instances once. */
  ghost predicate ChildEnd(algs: seq<BaseAlgorithm>, m: nat, calls: nat)
    reads algs
  {
    forall i :: 0 <= i < |algs| ==> (algs[i].initialized <==> i < m) && algs[i].finals == if i < calls then 1 else 0
  }

  /** Exactly once if it was initialised, never if it was not. */
  ghost predicate FinalizedRight(a: BaseAlgorithm)
    reads a
  {
    a.finals == if a.initialized then 1 else 0
  }

  /** Finalize calls a child makes on a file: none if the file raised, else up to the first that raises. */
  function CallsOnFile(c: Spec, file: string): (n: nat)
    ensures n <= Inits(c, file)
  {
    if FileEnding(c, true, file).Crashed? then 0 else FinalizeCalls(c, Inits(c, file))
  }

  lemma EndedRightIff(algs: seq<BaseAlgorithm>, m: nat, calls: nat)
    requires ChildEnd(algs, m, calls) && calls <= m <= |algs|
    ensures (forall a :: a in algs ==> FinalizedRight(a)) <==> calls == m
  {
    if calls < m {
      assert algs[calls] in algs && !FinalizedRight(algs[calls]);
    }
  }

  /** A child whose file ended without an exception: queue the result, finalise, queue again if that raises. */
  method EndChild(c: Spec, algs: seq<BaseAlgorithm>, e: Ending, ghost m: nat)
    returns (r: FileResult, queued: seq<FileResult>)
    requires Distinct(algs) && m <= |algs| && ChildState(algs, m) && !e.Crashed?
    modifies algs`finals
    ensures queued == QueueAt(c, e, m)
    ensures |queued| > 0 && r == queued[|queued| - 1]
    ensures ChildEnd(algs, m, FinalizeCalls(c, m))
  {
    r := ResultOf(e);
    queued := if e.Refused? then [r] else [];
    var error := FinalizeInitialized(c, algs, m);
    if error.Some? {
      r := FileResult(false, error.value);
      queued := queued + [r];
    } else if e.Completed? {
      queued := [r];
    }
  }

  /** The loop over the algorithms, up to the way the file ends. */
  method RunAlgorithms(c: Spec, mp: bool, file: string, algs: seq<BaseAlgorithm>) returns (e: Ending)
    requires Distinct(algs) && |algs| == c.n
    requires mp ==> ChildState(algs, 0)
    modifies algs`initialized
    ensures e == FileEnding(c, mp, file)
    ensures mp ==> ChildState(algs, Inits(c, file))
    ensures !mp ==> forall a :: a in algs ==> a.initialized == old(a.initialized)
  {
    if c.openError(file).Some? { return Crashed(c.openError(file).value); }
    var dict := c.start(file);
    for k := 0 to |algs|
      invariant !mp ==> forall a :: a in algs ==> a.initialized == old(a.initialized)
      invariant mp ==> ChildState(algs, k)
      invariant FileEnding(c, mp, file) == EndingFrom(c, mp, file, k, dict)
      invariant mp ==> Inits(c, file) == InitsFrom(c, file, k, dict)
    {
      var setup := algs[k].ProcessSetup(mp, c.init(k), true);
      if setup.Return? { return Refused(setup.error); }
      if setup.Raise? { return Crashed(setup.error); }
      var outcome := c.process(k, file, dict);
      match outcome {
        case Stopped(error) => return Refused(error);
        case Raised(error) => return Crashed(error);
        case Done(d) => dict := d;
      }
      if c.breakAfter(k) {
        if c.writeError(file, dict).Some? { return Crashed(c.writeError(file, dict).value); }
        return Completed;
      }
    }
    e := Completed;
  }

  /**
   run_chain_on_single_file. In multi-processing mode it runs in a child, on copies of the instances
   made before any was initialised; it queues its result and finalises what it initialised. That
   leaves every instance finalised as it should be exactly when nothing was initialised, or the file
   did not raise and no finalize() but the last one did.
   */
  method RunChainOnSingleFile(c: Spec, mp: bool, file: string, algs: seq<BaseAlgorithm>)
    returns (r: FileResult, queued: seq<FileResult>)
    requires Distinct(algs) && |algs| == c.n
    requires mp ==> ChildState(algs, 0)
    modifies algs
    ensures !mp ==> r == RunFile(c, false, file) && queued == []
    ensures !mp ==> forall a :: a in algs ==> a.initialized == old(a.initialized) && a.finals == old(a.finals)
    ensures mp ==> queued == Queue(c, file) && |queued| > 0 && r == queued[|queued| - 1]
    ensures mp ==> ChildEnd(algs, Inits(c, file), CallsOnFile(c, file))
    ensures mp ==> ((forall a :: a in algs ==> FinalizedRight(a)) <==>
      || Inits(c, file) == 0
      || (!FileEnding(c, true, file).Crashed? && forall k: nat :: k + 1 < Inits(c, file) ==> c.finalizeError(k).None?))
  {
    var e := RunAlgorithms(c, mp, file, algs);
    r, queued := ResultOf(e), [];
    if mp {
      if e.Crashed? {
        queued := [r];
      } else {
        r, queued := EndChild(c, algs, e, Inits(c, file));
      }
      EndedRightIff(algs, Inits(c, file), CallsOnFile(c, file));
      AllCalledIff(c, Inits(c, file));
    }
  }

  lemma AllCalledIff(c: Spec, m: nat)
    ensures FinalizeCalls(c, m) == m <==> forall k: nat :: k + 1 < m ==> c.finalizeError(k).None?
  {
    var n := FinalizeCalls(c, m);
    if n < m { assert (n - 1) + 1 < m && c.finalizeError(n - 1).Some?; }
  }

  /** The failing case: a file that raises in its first algorithm leaves it initialised and not finalised. */
  lemma CrashedChildFinalizesNothing(file: string)
    ensures var c := Idle(1, _ => Ready, _ => None).(process := (_, _, _) => Raised("KeyError"));
            FileEnding(c, true, file).Crashed? && Inits(c, file) == 1 && CallsOnFile(c, file) == 0
  {
    var c := Idle(1, _ => Ready, _ => None).(process := (_, _, _) => Raised("KeyError"));
    assert TakeTurn(c, true, file, 0, map[]) == End(Crashed("KeyError"));
  }

  ghost predicate FinalizesSucceed(c: Spec) {
    forall k: nat :: c.finalizeError(k).None?
  }

  /** An init() that run_chain calls while it loads algorithms 0..m-1 raises. */
  predicate LoadRaises(c: Spec, mp: bool, useSharedMemory: bool, m: nat) {
    (!mp || useSharedMemory) && SomeInitThrows(c, m)
  }

  /**
   The loading loop: one instance per algorithm, and a second one that sets up shared memory. If an
   init() raises, the shared-memory instances made so far are finalised, the others are not.
   */
  method Load(c: Spec, mp: bool, useSharedMemory: bool)
    returns (ok: bool, algs: seq<BaseAlgorithm>, shared: seq<BaseAlgorithm>)
    requires FinalizesSucceed(c)
    ensures ok <==> !LoadRaises(c, mp, useSharedMemory, c.n)
    ensures ok ==> |algs| == c.n && |shared| == if mp && useSharedMemory then c.n else 0
    ensures !ok && !mp ==> |algs| < c.n && c.init(|algs|).Throws? && !LoadRaises(c, mp, useSharedMemory, |algs|)
    ensures Distinct(algs) && Distinct(shared) && forall a :: a in algs ==> a !in shared
    ensures forall a :: a in algs ==> fresh(a) && a.finals == 0 && (a.initialized <==> !mp)
    ensures forall a :: a in shared ==> fresh(a) && a.initialized && a.finals == if ok then 0 else 1
    ensures fresh(set a | a in algs) && fresh(set a | a in shared)
  {
    algs, shared := [], [];
    for k := 0 to c.n
      invariant |algs| == k && |shared| == if mp && useSharedMemory then k else 0
      invariant !LoadRaises(c, mp, useSharedMemory, k)
      invariant Distinct(algs) && Distinct(shared) && forall a :: a in algs ==> a !in shared
      invariant forall a :: a in algs ==> fresh(a) && a.finals == 0 && (a.initialized <==> !mp)
      invariant forall a :: a in shared ==> fresh(a) && a.finals == 0 && a.initialized
    {
      if !mp && c.init(k).Throws? { return false, algs, shared; }
      var a := new BaseAlgorithm(mp, useSharedMemory, false);
      algs := algs + [a];
      if mp && useSharedMemory {
        if c.init(k).Throws? {
          forall i | 0 <= i < |shared|
            ensures fresh(shared[i])
          {
            assert shared[i] in shared;
          }
          var _ := FinalizeInitialized(c, shared, |shared|);
          return false, algs, shared;
        }
        var b := new BaseAlgorithm(mp, useSharedMemory, true);
        shared := shared + [b];
      }
    }
    ok := true;
  }

  /** The final loops of run_chain over both lists. */
  method FinalizeAll(c: Spec, algs: seq<BaseAlgorithm>, shared: seq<BaseAlgorithm>, ghost mp: bool)
    requires FinalizesSucceed(c)
    requires Distinct(algs) && Distinct(shared) && forall a :: a in algs ==> a !in shared
    requires forall a :: a in algs ==> (a.initialized <==> !mp) && a.finals == 0
    requires forall a :: a in shared ==> a.initialized && a.finals == 0
    modifies algs`finals, shared`finals
    ensures forall a :: a in algs || a in shared ==> FinalizedRight(a)
  {
    var _ := FinalizeInitialized(c, shared, |shared|);
    var _ := FinalizeInitialized(c, algs, if mp then 0 else |algs|);
  }

  /**
   run_chain in sequential mode, from loading to the returned counts. If an init() raises while it
   loads, it returns one error and no file, and leaves the instances before it initialised.
   */
  method RunSequential(c: Spec, files: seq<string>, stopOnError: bool)
    returns (success: bool, totals: Totals, instances: seq<BaseAlgorithm>)
    requires FinalizesSucceed(c)
    ensures totals == SequentialTotals(c, files, stopOnError)
    ensures success <==> totals.errors == 0
    ensures (exists k :: 0 <= k < c.n && c.init(k).Throws?) ==> totals == Totals(1, 0, 0)
    ensures forall a :: a in instances ==> a.initialized
    ensures if SomeInitThrows(c, c.n) then |instances| < c.n && c.init(|instances|).Throws? else |instances| == c.n
    ensures (forall a :: a in instances ==> FinalizedRight(a)) <==> !SomeInitThrows(c, c.n) || |instances| == 0
  {
    var ok, algs, shared := Load(c, false, false);
    instances := algs;
    if !ok {
      if |algs| > 0 { assert algs[0] in algs && !FinalizedRight(algs[0]); }
      return false, Totals(1, 0, 0), algs;
    }
    totals := RunFiles(c, files, stopOnError, algs);
    FinalizeAll(c, algs, shared, false);
    success := totals.errors == 0;
  }

  /** The failing case: a second algorithm whose init() raises leaves the first one's instance behind. */
  lemma ThrowingInitLeaksInstance()
    ensures var c := Idle(2, k => if k == 0 then Ready else Throws("no mask"), _ => None);
            SomeInitThrows(c, c.n) && forall m: nat :: m < c.n && c.init(m).Throws? ==> m == 1
  {
    var c := Idle(2, k => if k == 0 then Ready else Throws("no mask"), _ => None);
    assert c.init(1).Throws?;
  }

  /** The loop over the files. */
  method RunFiles(c: Spec, files: seq<string>, stopOnError: bool, algs: seq<BaseAlgorithm>) returns (totals: Totals)
    requires Distinct(algs) && |algs| == c.n && forall a :: a in algs ==> a.initialized && a.finals == 0
    modifies algs
    ensures totals == TotalsOf(c, files, FilesRun(c, files, stopOnError, 0))
    ensures forall a :: a in algs ==> a.initialized && a.finals == 0
  {
    totals := Totals(0, 0, 0);
    var i := 0;
    var stopped := false;
    while i < |files| && !stopped
      invariant i <= |files|
      invariant totals == TotalsOf(c, files, i)
      invariant stopped ==> FilesRun(c, files, stopOnError, 0) == i
      invariant !stopped ==> FilesRun(c, files, stopOnError, 0) == FilesRun(c, files, stopOnError, i)
      invariant forall a :: a in algs ==> a.initialized && a.finals == 0
      decreases |files| - i, !stopped
    {
      var r, _ := RunChainOnSingleFile(c, false, files[i], algs);
      totals := totals.(processed := totals.processed + 1);
      if !r.success && SaysSkip(r) {
        totals := totals.(skipped := totals.skipped + 1);
      } else if !r.success {
        totals := totals.(errors := totals.errors + 1);
        stopped := stopOnError;
      }
      i := i + 1;
    }
  }

  /**
   The parent's own instances in multi-processing mode: the children work on copies of algs. Also if
   loading fails, every instance of the parent is finalised as it should be.
   */
  method RunParentOfProcesses(c: Spec, useSharedMemory: bool)
    returns (ok: bool, algs: seq<BaseAlgorithm>, shared: seq<BaseAlgorithm>)
    requires FinalizesSucceed(c)
    ensures ok <==> !LoadRaises(c, true, useSharedMemory, c.n)
    ensures ok ==> |algs| == c.n && |shared| == if useSharedMemory then c.n else 0
    ensures forall a :: a in algs ==> !a.initialized
    ensures forall a :: a in shared ==> a.initialized
    ensures forall a :: a in algs || a in shared ==> FinalizedRight(a)
  {
    ok, algs, shared := Load(c, true, useSharedMemory);
    if ok { FinalizeAll(c, algs, shared, true); }
  }
}
