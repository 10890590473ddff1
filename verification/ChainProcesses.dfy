/**
 The multi-process run as a state machine: a parent that starts a chunk of children, joins them in
 order and empties their result queues, while the started children run and send log records in any
 interleaving, and the log process, which nobody waits for, writes the records it has received. The
 results here are about the counts that every run returns.
 */
module ChainProcesses {
  import opened Numbers
  import opened Chain
  import Chunks
  import LogOrder
  import StableSort

  /** A child process: messages still in its outbox go to the log queue one at a time. */
  datatype Child =
    | Waiting
    | Running(pc: nat, dict: Dict, outbox: seq<string>)
    | Ended(queue: seq<FileResult>, outbox: seq<string>)

  /** The level and time that the log format puts before the tag, by file and number of its record. */
  type Header = (nat, nat) -> string

  ghost predicate PlainHeader(header: Header) {
    forall f: nat, i: nat :: LogOrder.NoTag(header(f, i)) && LogOrder.OneLine(header(f, i))
  }

  /** The run's fixed data: chain, files, where each chunk of files starts, and how log records begin. */
  datatype Job = Job(c: Spec, files: seq<string>, bounds: seq<nat>, header: Header) {
    /** bounds[i]..bounds[i + 1] is chunk i; chunks are not empty, and an empty file list has none. */
    ghost predicate Chunked() {
      && |bounds| > 1 && bounds[0] == 0 && bounds[|bounds| - 1] == |files|
      && forall i, k :: 0 <= i < k < |bounds| ==> bounds[i] < bounds[k]
    }

    ghost predicate Valid() {
      Chunked() && PlainHeader(header)
    }
  }

  /** The chunks run_chain makes of a non-empty file list, for a limit of max processes. */
  function BoundsFor(n: nat, max: nat): seq<nat>
    requires n > 0 && max > 0
  {
    var k := Chunks.NumChunks(n, max);
    seq(k + 1, i requires 0 <= i <= k => Chunks.Bound(n, k, i))
  }

  /** They make a valid job, and chunk i runs just the files of the i-th chunk that the split gives. */
  lemma BoundsAreChunks(c: Spec, files: seq<string>, max: nat, header: Header)
    requires |files| > 0 && max > 0 && PlainHeader(header)
    ensures Job(c, files, BoundsFor(|files|, max), header).Valid()
    ensures var b := BoundsFor(|files|, max);
            forall i :: 0 <= i < Chunks.NumChunks(|files|, max) ==>
              b[i] <= b[i + 1] <= b[i] + max && Chunks.Range(b[i], b[i + 1]) == Chunks.Chunk(|files|, max, i)
  {
    var n, k := |files|, Chunks.NumChunks(|files|, max);
    Chunks.BoundEnds(n, k);
    forall i | 0 <= i < k
      ensures Chunks.Bound(n, k, i) < Chunks.Bound(n, k, i + 1) <= Chunks.Bound(n, k, i) + max
    {
      Chunks.BoundStep(n, k, i);
      Chunks.SizesFit(n, max, i, i);
    }
    forall i, m | 0 <= i < m <= k
      ensures Chunks.Bound(n, k, i) < Chunks.Bound(n, k, m)
    {
      Chunks.BoundOrdered(n, k, i + 1, m);
    }
  }

  /**
   emitted[f] is the messages that file f's child has sent so far, log the records in the order the
   log process receives them, and the first written of them are in the log file.
   */
  datatype State = State(children: seq<Child>, emitted: seq<seq<string>>, started: nat, joined: nat,
                         totals: Totals, log: seq<string>, written: nat)

  /** The i-th log record of file f. */
  function Record(j: Job, f: nat, i: nat, message: string): string {
    LogOrder.Formatted(j.header(f, i), f, message)
  }

  /** The log records of file f's messages. */
  function Records(j: Job, f: nat, messages: seq<string>): (r: seq<string>)
    ensures |r| == |messages| && forall i :: 0 <= i < |r| ==> r[i] == Record(j, f, i, messages[i])
  {
    seq(|messages|, i requires 0 <= i < |messages| => Record(j, f, i, messages[i]))
  }

  /** The records of every file. */
  function AllRecords(j: Job, emitted: seq<seq<string>>): (r: seq<seq<string>>)
    ensures |r| == |emitted| && forall f :: 0 <= f < |r| ==> r[f] == Records(j, f, emitted[f])
  {
    seq(|emitted|, f requires 0 <= f < |emitted| => Records(j, f, emitted[f]))
  }

  lemma RecordsGrow(j: Job, emitted: seq<seq<string>>, f: nat, message: string)
    requires f < |emitted|
    ensures AllRecords(j, emitted[f := emitted[f] + [message]])
         == AllRecords(j, emitted)[f := Records(j, f, emitted[f]) + [Record(j, f, |emitted[f]|, message)]]
  {
    var more := emitted[f] + [message];
    assert Records(j, f, more) == Records(j, f, emitted[f]) + [Record(j, f, |emitted[f]|, message)];
  }

  // ---- What a child logs as it ends ----

  /** The finalize loop over algorithms 0..m-1, up to the first that raises. */
  function Farewell(c: Spec, m: nat): seq<string> {
    if m == 0 then []
    else if FinalizeErrorBelow(c, m - 1).Some? then Farewell(c, m - 1)
    else Farewell(c, m - 1) + c.bids(m - 1)
  }

  /** The same with the message about the exception, if one ended the loop. */
  function LastWords(c: Spec, m: nat): seq<string> {
    Farewell(c, m) + if FinalizeErrorBelow(c, m).Some? then [FinalizeErrorBelow(c, m).value] else []
  }

  function Refusal(f: nat, file: string, error: string): string {
    "Processing of L1b file " + LogOrder.Decimal(f) + " : " + file +
    (if Contains(error, "SKIP_OK") then " SKIPPED because " else " stopped because ") + error
  }

  /** Messages after the last algorithm, when m algorithms were initialised. A crash logs its error and no more. */
  function Closing(j: Job, f: nat, e: Ending, m: nat): seq<string>
    requires f < |j.files|
  {
    match e
    case Crashed(error) => [error]
    case Refused(error) => [Refusal(f, j.files[f], error)] + LastWords(j.c, m)
    case Completed => LastWords(j.c, m)
  }

  // ---- One child ----

  function Begin(j: Job, f: nat): Child
    requires f < |j.files|
  {
    var file := j.files[f];
    var hello := j.c.greets(file);
    if j.c.openError(file).Some? then
      var e := Crashed(j.c.openError(file).value);
      Ended(QueueAt(j.c, e, 0), hello + Closing(j, f, e, 0))
    else Running(0, j.c.start(file), hello)
  }

  /** Algorithms initialised when the turn of algorithm k ends the file. */
  function InitsAtEnd(c: Spec, k: nat): nat {
    if c.init(k).Ready? then k + 1 else k
  }

  function Advance(j: Job, f: nat, ch: Child): Child
    requires f < |j.files| && ch.Running? && ch.outbox == []
  {
    var file, k := j.files[f], ch.pc;
    if k >= j.c.n then Ended(QueueAt(j.c, Completed, j.c.n), Closing(j, f, Completed, j.c.n))
    else
      var said := j.c.says(k, file, ch.dict);
      match TakeTurn(j.c, true, file, k, ch.dict)
      case Go(d) => Running(k + 1, d, said)
      case End(e) =>
        var m := InitsAtEnd(j.c, k);
        Ended(QueueAt(j.c, e, m), said + Closing(j, f, e, m))
  }

  /** Every message a child still logs once its outbox is empty. */
  function LogFrom(j: Job, f: nat, k: nat, dict: Dict): seq<string>
    requires f < |j.files|
    decreases j.c.n - k
  {
    if k >= j.c.n then Closing(j, f, Completed, j.c.n)
    else
      j.c.says(k, j.files[f], dict) +
      match TakeTurn(j.c, true, j.files[f], k, dict)
      case Go(d) => LogFrom(j, f, k + 1, d)
      case End(e) => Closing(j, f, e, InitsAtEnd(j.c, k))
  }

  /** All messages of one file's child, run on its own. */
  function FileLog(j: Job, f: nat): seq<string>
    requires f < |j.files|
  {
    var file := j.files[f];
    j.c.greets(file) +
    if j.c.openError(file).Some? then Closing(j, f, Crashed(j.c.openError(file).value), 0)
    else LogFrom(j, f, 0, j.c.start(file))
  }

  /** Where a child is, compared with running its file on its own. */
  ghost predicate OnPath(j: Job, f: nat, ch: Child)
    requires f < |j.files|
  {
    var file := j.files[f];
    match ch
    case Waiting => true
    case Running(k, dict, _) =>
      && k <= j.c.n && j.c.openError(file).None?
      && FileEnding(j.c, true, file) == EndingFrom(j.c, true, file, k, dict)
      && Inits(j.c, file) == InitsFrom(j.c, file, k, dict)
    case Ended(queue, _) => queue == Queue(j.c, file)
  }

  /** Every message a child has still to send. */
  function Pending(j: Job, f: nat, ch: Child): seq<string>
    requires f < |j.files|
  {
    match ch
    case Waiting => FileLog(j, f)
    case Running(k, dict, outbox) => outbox + LogFrom(j, f, k, dict)
    case Ended(_, outbox) => outbox
  }

  ghost predicate ChildOk(j: Job, f: nat, ch: Child, emitted: seq<string>)
    requires f < |j.files|
  {
    OnPath(j, f, ch) && emitted + Pending(j, f, ch) == FileLog(j, f)
  }

  lemma BeginOk(j: Job, f: nat)
    requires f < |j.files|
    ensures OnPath(j, f, Begin(j, f)) && !Begin(j, f).Waiting?
    ensures Pending(j, f, Begin(j, f)) == FileLog(j, f)
  {}

  lemma AdvanceOnPath(j: Job, f: nat, ch: Child)
    requires f < |j.files| && ch.Running? && ch.outbox == [] && OnPath(j, f, ch)
    ensures OnPath(j, f, Advance(j, f, ch))
  {
    if ch.pc < j.c.n && TakeTurn(j.c, true, j.files[f], ch.pc, ch.dict).End? {
      assert Inits(j.c, j.files[f]) == InitsAtEnd(j.c, ch.pc);
    }
  }

  lemma AdvancePending(j: Job, f: nat, ch: Child)
    requires f < |j.files| && ch.Running? && ch.outbox == []
    ensures Pending(j, f, Advance(j, f, ch)) == Pending(j, f, ch)
  {
    var rest := LogFrom(j, f, ch.pc, ch.dict);
    assert [] + rest == rest;
  }

  /** A child's turn keeps it on the path of its file run alone, log included. */
  lemma AdvanceOk(j: Job, f: nat, ch: Child, emitted: seq<string>)
    requires f < |j.files| && ch.Running? && ch.outbox == [] && ChildOk(j, f, ch, emitted)
    ensures ChildOk(j, f, Advance(j, f, ch), emitted)
  {
    AdvanceOnPath(j, f, ch);
    AdvancePending(j, f, ch);
  }

  /** Sending the first message of the outbox. */
  function Emit(ch: Child): Child
    requires !ch.Waiting? && ch.outbox != []
  {
    ch.(outbox := ch.outbox[1..])
  }

  lemma EmitPending(j: Job, f: nat, ch: Child)
    requires f < |j.files| && !ch.Waiting? && ch.outbox != []
    ensures [ch.outbox[0]] + Pending(j, f, Emit(ch)) == Pending(j, f, ch)
  {}

  lemma EmitOk(j: Job, f: nat, ch: Child, emitted: seq<string>)
    requires f < |j.files| && !ch.Waiting? && ch.outbox != [] && ChildOk(j, f, ch, emitted)
    ensures ChildOk(j, f, Emit(ch), emitted + [ch.outbox[0]])
  {
    EmitPending(j, f, ch);
    MoveOne(emitted, ch.outbox[0], Pending(j, f, Emit(ch)));
  }

  lemma MoveOne(a: seq<string>, x: string, b: seq<string>)
    ensures a + [x] + b == a + ([x] + b)
  {}

  // ---- The whole run ----

  datatype Event = StartChunk | Step(f: nat) | Join | Write

  ghost predicate Shape(j: Job, s: State) {
    && j.Chunked() && |s.children| == |s.emitted| == |j.files|
    && s.started < |j.bounds| && s.joined <= j.bounds[s.started] <= |j.files|
    && (s.started > 0 ==> j.bounds[s.started - 1] <= s.joined)
  }

  ghost predicate Enabled(j: Job, s: State, e: Event)
    requires Shape(j, s)
  {
    match e
    case StartChunk => s.joined == j.bounds[s.started] && s.started + 1 < |j.bounds|
    case Step(f) => f < |j.files| && (s.children[f].Running? || (s.children[f].Ended? && s.children[f].outbox != []))
    case Join => s.joined < j.bounds[s.started] && s.children[s.joined].Ended? && s.children[s.joined].outbox == []
    case Write => s.written < |s.log|
  }

  /** The parent empties a joined child's queue. */
  function TallyAll(t: Totals, queue: seq<FileResult>): Totals
    decreases |queue|
  {
    if |queue| == 0 then t else TallyAll(TallyQueued(t, queue[0]), queue[1..])
  }

  /** Start the processes of the next chunk. */
  function Launch(j: Job, s: State): seq<Child>
    requires s.started + 1 < |j.bounds| && |s.children| == |j.files|
  {
    seq(|j.files|, f requires 0 <= f < |j.files| =>
      if j.bounds[s.started] <= f < j.bounds[s.started + 1] then Begin(j, f) else s.children[f])
  }

  ghost function Next(j: Job, s: State, e: Event): State
    requires Shape(j, s) && Enabled(j, s, e)
  {
    match e
    case StartChunk => s.(children := Launch(j, s), started := s.started + 1)
    case Step(f) =>
      var ch := s.children[f];
      if ch.outbox == [] then s.(children := s.children[f := Advance(j, f, ch)])
      else s.(children := s.children[f := Emit(ch)],
              emitted := s.emitted[f := s.emitted[f] + [ch.outbox[0]]],
              log := s.log + [Record(j, f, |s.emitted[f]|, ch.outbox[0])])
    case Join => s.(totals := TallyAll(s.totals, s.children[s.joined].queue), joined := s.joined + 1)
    case Write => s.(written := s.written + 1)
  }

  function QueuedTotals(j: Job, m: nat): Totals
    requires m <= |j.files|
  {
    if m == 0 then Totals(0, 0, 0) else TallyAll(QueuedTotals(j, m - 1), Queue(j.c, j.files[m - 1]))
  }

  ghost predicate ChildrenOk(j: Job, children: seq<Child>, emitted: seq<seq<string>>) {
    && |children| == |emitted| == |j.files|
    && forall f :: 0 <= f < |j.files| ==> ChildOk(j, f, children[f], emitted[f])
  }

  /** Children below launched have started, and those below joined are through. */
  ghost predicate Reached(children: seq<Child>, launched: nat, joined: nat) {
    && joined <= |children|
    && (forall f :: 0 <= f < |children| ==> (children[f].Waiting? <==> f >= launched))
    && (forall f :: 0 <= f < joined ==> children[f].Ended? && children[f].outbox == [])
  }

  ghost predicate Sound(j: Job, s: State) {
    && Shape(j, s)
    && ChildrenOk(j, s.children, s.emitted)
    && Reached(s.children, j.bounds[s.started], s.joined)
    && StableSort.Interleaves(s.log, AllRecords(j, s.emitted))
    && s.written <= |s.log|
  }

  ghost predicate Inv(j: Job, s: State) {
    Sound(j, s) && s.totals == QueuedTotals(j, s.joined)
  }

  function Initial(j: Job): State {
    State(seq(|j.files|, _ => Waiting), seq(|j.files|, _ => []), 0, 0, Totals(0, 0, 0), [], 0)
  }

  lemma InitialOk(j: Job)
    requires j.Chunked()
    ensures Inv(j, Initial(j))
  {
    assert forall f :: 0 <= f < |j.files| ==> Records(j, f, []) == [];
  }

  lemma ChildrenOkUpdate(j: Job, children: seq<Child>, emitted: seq<seq<string>>, f: nat, ch: Child, sent: seq<string>)
    requires ChildrenOk(j, children, emitted) && f < |j.files| && ChildOk(j, f, ch, sent)
    ensures ChildrenOk(j, children[f := ch], emitted[f := sent])
  {}

  lemma ChildrenOkReplace(j: Job, children: seq<Child>, emitted: seq<seq<string>>, f: nat, ch: Child)
    requires ChildrenOk(j, children, emitted) && f < |j.files| && ChildOk(j, f, ch, emitted[f])
    ensures ChildrenOk(j, children[f := ch], emitted)
  {}

  /** A child that can step is started and not joined, and stays so. */
  lemma ReachedUpdate(children: seq<Child>, launched: nat, joined: nat, f: nat, ch: Child)
    requires Reached(children, launched, joined) && f < |children| && !ch.Waiting?
    requires children[f].Running? || (children[f].Ended? && children[f].outbox != [])
    ensures Reached(children[f := ch], launched, joined)
  {}

  lemma StepKeepsInv(j: Job, s: State, f: nat)
    requires Inv(j, s) && Enabled(j, s, Step(f))
    ensures Inv(j, Next(j, s, Step(f)))
  {
    if s.children[f].outbox == [] { AdvanceKeepsSound(j, s, f); } else { EmitKeepsSound(j, s, f); }
  }

  lemma AdvanceKeepsSound(j: Job, s: State, f: nat)
    requires Sound(j, s) && Enabled(j, s, Step(f)) && s.children[f].outbox == []
    ensures Sound(j, Next(j, s, Step(f)))
  {
    AdvanceOk(j, f, s.children[f], s.emitted[f]);
    ReplaceKeepsSound(j, s, f, Advance(j, f, s.children[f]));
  }

  lemma ReplaceKeepsSound(j: Job, s: State, f: nat, ch: Child)
    requires Sound(j, s) && Enabled(j, s, Step(f)) && ChildOk(j, f, ch, s.emitted[f]) && !ch.Waiting?
    ensures Sound(j, s.(children := s.children[f := ch]))
  {
    ChildrenOkReplace(j, s.children, s.emitted, f, ch);
    ReachedUpdate(s.children, j.bounds[s.started], s.joined, f, ch);
  }

  lemma EmitKeepsSound(j: Job, s: State, f: nat)
    requires Sound(j, s) && Enabled(j, s, Step(f)) && s.children[f].outbox != []
    ensures Sound(j, Next(j, s, Step(f)))
  {
    var ch := s.children[f];
    EmitOk(j, f, ch, s.emitted[f]);
    ChildrenOkUpdate(j, s.children, s.emitted, f, Emit(ch), s.emitted[f] + [ch.outbox[0]]);
    ReachedUpdate(s.children, j.bounds[s.started], s.joined, f, Emit(ch));
    RecordsGrow(j, s.emitted, f, ch.outbox[0]);
    StableSort.LogGrows(s.log, AllRecords(j, s.emitted), f, Record(j, f, |s.emitted[f]|, ch.outbox[0]));
  }

  lemma StartKeepsInv(j: Job, s: State)
    requires Inv(j, s) && Enabled(j, s, StartChunk)
    ensures Inv(j, Next(j, s, StartChunk))
  {
    StartKeepsSound(j, s);
  }

  lemma StartKeepsSound(j: Job, s: State)
    requires Sound(j, s) && Enabled(j, s, StartChunk)
    ensures Sound(j, Next(j, s, StartChunk))
  {
    LaunchOk(j, s);
    LaunchReached(j, s);
  }

  lemma LaunchOk(j: Job, s: State)
    requires Sound(j, s) && Enabled(j, s, StartChunk)
    ensures ChildrenOk(j, Launch(j, s), s.emitted)
  {
    forall f | 0 <= f < |j.files|
      ensures ChildOk(j, f, Launch(j, s)[f], s.emitted[f])
    {
      assert ChildOk(j, f, s.children[f], s.emitted[f]);
      if j.bounds[s.started] <= f < j.bounds[s.started + 1] { BeginOk(j, f); }
    }
  }

  lemma LaunchReached(j: Job, s: State)
    requires Shape(j, s) && Enabled(j, s, StartChunk) && Reached(s.children, j.bounds[s.started], s.joined)
    ensures Reached(Launch(j, s), j.bounds[s.started + 1], s.joined)
  {
    assert j.bounds[s.started] < j.bounds[s.started + 1];
  }

  lemma JoinKeepsInv(j: Job, s: State)
    requires Inv(j, s) && Enabled(j, s, Join)
    ensures Inv(j, Next(j, s, Join))
  {
    JoinKeepsSound(j, s);
    JoinKeepsTotals(j, s);
  }

  lemma JoinKeepsSound(j: Job, s: State)
    requires Sound(j, s) && Enabled(j, s, Join)
    ensures Sound(j, Next(j, s, Join))
  {
    OneMoreJoined(s.children, j.bounds[s.started], s.joined);
  }

  lemma JoinKeepsTotals(j: Job, s: State)
    requires Inv(j, s) && Enabled(j, s, Join)
    ensures Next(j, s, Join).totals == QueuedTotals(j, s.joined + 1)
  {
    JoinedQueue(j, s.children, s.emitted, s.joined);
    OneMoreCounted(j, s.joined);
  }

  lemma OneMoreJoined(children: seq<Child>, launched: nat, joined: nat)
    requires Reached(children, launched, joined) && joined < |children|
    requires children[joined].Ended? && children[joined].outbox == []
    ensures Reached(children, launched, joined + 1)
  {}

  lemma OneMoreCounted(j: Job, m: nat)
    requires m < |j.files|
    ensures QueuedTotals(j, m + 1) == TallyAll(QueuedTotals(j, m), Queue(j.c, j.files[m]))
  {}

  lemma JoinedQueue(j: Job, children: seq<Child>, emitted: seq<seq<string>>, f: nat)
    requires ChildrenOk(j, children, emitted) && f < |children| && children[f].Ended?
    ensures children[f].queue == Queue(j.c, j.files[f])
  {
    assert ChildOk(j, f, children[f], emitted[f]);
  }

  lemma NextKeepsInv(j: Job, s: State, e: Event)
    requires Inv(j, s) && Enabled(j, s, e)
    ensures Inv(j, Next(j, s, e))
  {
    match e
    case StartChunk => StartKeepsInv(j, s);
    case Step(f) => StepKeepsInv(j, s, f);
    case Join => JoinKeepsInv(j, s);
    case Write =>
  }

  ghost predicate CanRun(j: Job, s: State, run: seq<Event>)
    decreases |run|
  {
    |run| == 0 || (Shape(j, s) && Enabled(j, s, run[0]) && CanRun(j, Next(j, s, run[0]), run[1..]))
  }

  ghost function Run(j: Job, s: State, run: seq<Event>): State
    requires CanRun(j, s, run)
    decreases |run|
  {
    if |run| == 0 then s else Run(j, Next(j, s, run[0]), run[1..])
  }

  lemma {:induction false} RunKeepsInv(j: Job, s: State, run: seq<Event>)
    requires Inv(j, s) && CanRun(j, s, run)
    ensures Inv(j, Run(j, s, run))
    decreases |run|
  {
    if |run| > 0 {
      NextKeepsInv(j, s, run[0]);
      RunKeepsInv(j, Next(j, s, run[0]), run[1..]);
    }
  }

  ghost predicate Complete(j: Job, s: State) {
    s.joined == |j.files|
  }

  /**
   As long as not every child is joined, the parent or a child can take a step, whatever the log
   process does: the run never deadlocks.
   */
  lemma NeverStuck(j: Job, s: State) returns (e: Event)
    requires Inv(j, s) && !Complete(j, s)
    ensures Enabled(j, s, e) && e != Write
  {
    if s.joined == j.bounds[s.started] {
      e := StartChunk;
    } else {
      var ch := s.children[s.joined];
      e := if ch.Ended? && ch.outbox == [] then Join else Step(s.joined);
    }
  }

  /**
   A child that has started and is not joined belongs to the chunk started last. So with the bounds
   that run_chain makes, no more processes than its limit are ever alive.
   */
  lemma OneChunkAlive(j: Job, s: State, f: nat)
    requires Inv(j, s) && f < |j.files| && !s.children[f].Waiting? && s.joined <= f
    ensures s.started > 0 && j.bounds[s.started - 1] <= f < j.bounds[s.started]
  {}

  // ---- Every run ends ----

  /** Steps that are left for a child: turns to run, and messages to send, each to be written later. */
  ghost function ChildWork(j: Job, f: nat, ch: Child, emitted: seq<string>): int
    requires f < |j.files|
  {
    2 * (|FileLog(j, f)| - |emitted|) +
    match ch
    case Waiting => j.c.n + 2
    case Running(k, _, _) => j.c.n + 1 - k
    case Ended(_, _) => 0
  }

  ghost function Works(j: Job, s: State): (w: seq<int>)
    requires Shape(j, s)
    ensures |w| == |j.files| && forall f :: 0 <= f < |w| ==> w[f] == ChildWork(j, f, s.children[f], s.emitted[f])
  {
    seq(|j.files|, f requires 0 <= f < |j.files| => ChildWork(j, f, s.children[f], s.emitted[f]))
  }

  function Total(w: seq<int>): int {
    if |w| == 0 then 0 else Total(w[..|w| - 1]) + w[|w| - 1]
  }

  ghost function Work(j: Job, s: State): int
    requires Shape(j, s)
  {
    Total(Works(j, s)) + (|j.bounds| - s.started) + (|j.files| - s.joined) + (|s.log| - s.written)
  }

  lemma ChildWorkNotNegative(j: Job, f: nat, ch: Child, emitted: seq<string>)
    requires f < |j.files| && ChildOk(j, f, ch, emitted)
    ensures ChildWork(j, f, ch, emitted) >= 0
  {}

  /** If no entry grows and entry moved shrinks by some amount, so does the total. */
  lemma {:induction false} TotalShrinks(v: seq<int>, w: seq<int>, moved: nat, less: nat)
    requires |v| == |w| && forall f :: 0 <= f < |w| ==> v[f] <= w[f]
    requires moved < |w| ==> v[moved] + less <= w[moved]
    ensures Total(v) <= Total(w) && (moved < |w| ==> Total(v) + less <= Total(w))
  {
    if |w| > 0 {
      var n := |w| - 1;
      TotalShrinks(v[..n], w[..n], moved, less);
    }
  }

  lemma {:induction false} TotalNotNegative(w: seq<int>)
    requires forall f :: 0 <= f < |w| ==> w[f] >= 0
    ensures Total(w) >= 0
  {
    if |w| > 0 { TotalNotNegative(w[..|w| - 1]); }
  }

  lemma WorkNotNegative(j: Job, s: State)
    requires Inv(j, s)
    ensures Work(j, s) >= 0
  {
    var w := Works(j, s);
    forall f | 0 <= f < |w|
      ensures w[f] >= 0
    {
      ChildWorkNotNegative(j, f, s.children[f], s.emitted[f]);
    }
    TotalNotNegative(w);
  }

  lemma NextDoesWork(j: Job, s: State, e: Event)
    requires Inv(j, s) && Enabled(j, s, e)
    ensures Shape(j, Next(j, s, e)) && Work(j, Next(j, s, e)) < Work(j, s)
  {
    NextKeepsInv(j, s, e);
    var t := Next(j, s, e);
    var v, w := Works(j, t), Works(j, s);
    forall f | 0 <= f < |j.files|
      ensures v[f] <= w[f] && (e == Step(f) ==> v[f] + 1 + |t.log| - |s.log| <= w[f])
    {
      ChildDoesWork(j, s, e, f);
    }
    TotalShrinks(v, w, if e.Step? then e.f else |w|, 1 + |t.log| - |s.log|);
  }

  /** No event adds to a child's work; a step takes some off, and more if it hands a record to the log process. */
  lemma ChildDoesWork(j: Job, s: State, e: Event, f: nat)
    requires Inv(j, s) && Enabled(j, s, e) && f < |j.files|
    ensures var t := Next(j, s, e);
            var before := ChildWork(j, f, s.children[f], s.emitted[f]);
            var after := ChildWork(j, f, t.children[f], t.emitted[f]);
            after <= before && (e == Step(f) ==> after + 1 + |t.log| - |s.log| <= before)
  {
    assert ChildOk(j, f, s.children[f], s.emitted[f]);
  }

  /** No schedule goes on for ever: a run is never longer than the work it starts with. */
  lemma {:induction false} RunsEnd(j: Job, s: State, run: seq<Event>)
    requires Inv(j, s) && CanRun(j, s, run)
    ensures |run| <= Work(j, s)
    decreases |run|
  {
    if |run| == 0 {
      WorkNotNegative(j, s);
    } else {
      NextKeepsInv(j, s, run[0]);
      NextDoesWork(j, s, run[0]);
      RunsEnd(j, Next(j, s, run[0]), run[1..]);
    }
  }

  /** Every child can be joined before the log process has written anything. */
  lemma {:induction false} CompleteWithoutWriting(j: Job, s: State) returns (run: seq<Event>)
    requires Inv(j, s)
    ensures CanRun(j, s, run) && Complete(j, Run(j, s, run)) && Run(j, s, run).written == s.written
    decreases Work(j, s) + 1
  {
    if Complete(j, s) {
      run := [];
    } else {
      WorkNotNegative(j, s);
      var e := NeverStuck(j, s);
      NextDoesWork(j, s, e);
      NextKeepsInv(j, s, e);
      var rest := CompleteWithoutWriting(j, Next(j, s, e));
      run := [e] + rest;
      assert run[1..] == rest;
    }
  }

  // ---- Against the sequential run ----

  /** The schedule runs from the start and joins every child. */
  ghost predicate CompleteRun(j: Job, run: seq<Event>) {
    CanRun(j, Initial(j), run) && Complete(j, Run(j, Initial(j), run))
  }

  ghost function Final(j: Job, run: seq<Event>): State
    requires CompleteRun(j, run)
  {
    Run(j, Initial(j), run)
  }

  lemma FinalOk(j: Job, run: seq<Event>)
    requires j.Chunked() && CompleteRun(j, run)
    ensures Inv(j, Final(j, run))
  {
    InitialOk(j);
    RunKeepsInv(j, Initial(j), run);
  }

  lemma {:induction false} QueuedTotalsAreSequential(j: Job, m: nat)
    requires m <= |j.files| && AllSucceed(j.c.n, j.c.init, j.c.finalizeError)
    ensures QueuedTotals(j, m) == TotalsOf(j.c, j.files, m)
  {
    if m > 0 {
      QueuedTotalsAreSequential(j, m - 1);
      var file := j.files[m - 1];
      SameResultIff(j.c.n, j.c.init, j.c.finalizeError);
      var q := Queue(j.c, file);
      assert q == [RunFile(j.c, false, file)] && q[1..] == [];
      var before := TotalsOf(j.c, j.files, m - 1);
      TalliesAgree(before, FileEnding(j.c, false, file));
      assert TallyAll(before, q) == TallyAll(TallyQueued(before, q[0]), []);
    }
  }

  /** Every complete multi-process run returns the sequential run's counts, and its success flag. */
  lemma SameCountsAsSequential(j: Job, run: seq<Event>)
    requires j.Chunked() && AllSucceed(j.c.n, j.c.init, j.c.finalizeError) && CompleteRun(j, run)
    ensures Final(j, run).totals == SequentialTotals(j.c, j.files, false)
    ensures ChainSucceeds(Final(j, run).totals) <==>
      forall f :: 0 <= f < |j.files| ==> !IsError(RunFile(j.c, false, j.files[f]))
  {
    FinalOk(j, run);
    QueuedTotalsAreSequential(j, |j.files|);
    TotalsCountFiles(j.c, j.files, |j.files|);
  }

  lemma {:induction false} TallyAllGrows(t: Totals, queue: seq<FileResult>)
    ensures var r := TallyAll(t, queue);
            r.errors >= t.errors && r.skipped >= t.skipped && r.processed == t.processed + |queue|
    decreases |queue|
  {
    if |queue| > 0 { TallyAllGrows(TallyQueued(t, queue[0]), queue[1..]); }
  }

  // ---- What the counts count ----

  lemma {:induction false} TallyAllLast(t: Totals, q: seq<FileResult>)
    requires |q| > 0
    ensures TallyAll(t, q) == TallyQueued(TallyAll(t, q[..|q| - 1]), q[|q| - 1])
    decreases |q|
  {
    if |q| > 1 {
      TallyAllLast(TallyQueued(t, q[0]), q[1..]);
      assert q[1..][..|q| - 2] == q[..|q| - 1][1..];
    } else {
      assert q[1..] == [] && q[..0] == [];
    }
  }

  lemma {:induction false} TallyAllAppend(t: Totals, a: seq<FileResult>, b: seq<FileResult>)
    ensures TallyAll(t, a + b) == TallyAll(TallyAll(t, a), b)
    decreases |a|
  {
    if |a| == 0 {
      assert a + b == b;
    } else {
      assert (a + b)[1..] == a[1..] + b;
      TallyAllAppend(TallyQueued(t, a[0]), a[1..], b);
    }
  }

  /** Results that are errors, and results that ask to skip. */
  ghost function Errors(q: seq<FileResult>): set<nat> {
    set i: nat | i < |q| && !q[i].success && !AsksToSkip(q[i].error)
  }

  ghost function Skips(q: seq<FileResult>): set<nat> {
    set i: nat | i < |q| && AsksToSkip(q[i].error)
  }

  lemma OneMoreResult(q: seq<FileResult>, r: FileResult)
    ensures |Errors(q + [r])| == |Errors(q)| + if !r.success && !AsksToSkip(r.error) then 1 else 0
    ensures |Skips(q + [r])| == |Skips(q)| + if AsksToSkip(r.error) then 1 else 0
  {
    OneMoreError(q, r);
    OneMoreSkip(q, r);
  }

  lemma OneMoreError(q: seq<FileResult>, r: FileResult)
    ensures |Errors(q + [r])| == |Errors(q)| + if !r.success && !AsksToSkip(r.error) then 1 else 0
  {
    var n, all := |q|, q + [r];
    assert forall i: nat :: i < n ==> all[i] == q[i];
    assert Errors(all) == Errors(q) + if !r.success && !AsksToSkip(r.error) then {n} else {};
  }

  lemma OneMoreSkip(q: seq<FileResult>, r: FileResult)
    ensures |Skips(q + [r])| == |Skips(q)| + if AsksToSkip(r.error) then 1 else 0
  {
    var n, all := |q|, q + [r];
    assert forall i: nat :: i < n ==> all[i] == q[i];
    assert Skips(all) == Skips(q) + if AsksToSkip(r.error) then {n} else {};
  }

  lemma {:induction false} TallyAllCounts(q: seq<FileResult>)
    ensures TallyAll(Totals(0, 0, 0), q) == Totals(|Errors(q)|, |q|, |Skips(q)|)
  {
    if |q| == 0 {
      assert Errors(q) == {} && Skips(q) == {};
    } else {
      var front, last := q[..|q| - 1], q[|q| - 1];
      assert q == front + [last];
      TallyAllLast(Totals(0, 0, 0), q);
      TallyAllCounts(front);
      OneMoreResult(front, last);
      SaysSkipIff(last);
    }
  }

  /** The results of the first m files' children, one after the other. */
  function AllQueued(j: Job, m: nat): seq<FileResult>
    requires m <= |j.files|
  {
    StableSort.Concat(seq(m, f requires 0 <= f < m => Queue(j.c, j.files[f])))
  }

  lemma {:induction false} QueuedTotalsCount(j: Job, m: nat)
    requires m <= |j.files|
    ensures QueuedTotals(j, m) == TallyAll(Totals(0, 0, 0), AllQueued(j, m))
  {
    if m > 0 {
      QueuedTotalsCount(j, m - 1);
      var a := seq(m - 1, f requires 0 <= f < m - 1 => Queue(j.c, j.files[f]));
      var b := seq(m, f requires 0 <= f < m => Queue(j.c, j.files[f]));
      StableSort.ConcatOfSame(a, b, m - 1);
      assert AllQueued(j, m) == AllQueued(j, m - 1) + Queue(j.c, j.files[m - 1]);
      TallyAllAppend(Totals(0, 0, 0), AllQueued(j, m - 1), Queue(j.c, j.files[m - 1]));
    }
  }

  /** Whatever init() and finalize() do, a complete run's counts are those of all results its children queued. */
  lemma RunCountsResults(j: Job, run: seq<Event>)
    requires j.Chunked() && CompleteRun(j, run)
    ensures var all := AllQueued(j, |j.files|);
            Final(j, run).totals == Totals(|Errors(all)|, |all|, |Skips(all)|)
  {
    FinalOk(j, run);
    QueuedTotalsCount(j, |j.files|);
    TallyAllCounts(AllQueued(j, |j.files|));
  }

  /** One file through idle algorithms, in a chunk of its own. */
  function IdleJob(n: nat, init: nat -> InitOutcome, finalizeError: nat -> Option<string>): Job {
    Job(Idle(n, init, finalizeError), [""], [0, 1], (_, _) => "")
  }

  /** If an init() or finalize() fails, that job counts an error or a skipped file that the sequential run has not. */
  lemma IdleJobDiffers(n: nat, init: nat -> InitOutcome, finalizeError: nat -> Option<string>)
    requires !AllSucceed(n, init, finalizeError)
    ensures var j := IdleJob(n, init, finalizeError);
            j.Chunked() && QueuedTotals(j, 1) != SequentialTotals(j.c, j.files, false)
  {
    var j := IdleJob(n, init, finalizeError);
    IdleChildFails(j.c, "");
    var zero, q := Totals(0, 0, 0), Queue(j.c, "");
    assert QueuedTotals(j, 0) == zero;
    assert QueuedTotals(j, 1) == TallyAll(TallyQueued(zero, q[0]), q[1..]);
    TallyAllGrows(TallyQueued(zero, q[0]), q[1..]);
    assert TotalsOf(j.c, j.files, 0) == zero;
    assert TotalsOf(j.c, j.files, 1) == Totals(0, 1, 0);
  }

  /**
   The exact condition: n algorithms with these init() and finalize() results, whatever else they do,
   give every multi-process run past loading the counts of the sequential run exactly when every
   init() and finalize() succeeds.
   */
  lemma SameCountsIff(n: nat, init: nat -> InitOutcome, finalizeError: nat -> Option<string>)
    ensures (forall j: Job, run: seq<Event> ::
               && j.Chunked() && j.c.n == n && j.c.init == init && j.c.finalizeError == finalizeError
               && CompleteRun(j, run)
               ==> Final(j, run).totals == SequentialTotals(j.c, j.files, false))
      <==> AllSucceed(n, init, finalizeError)
  {
    if AllSucceed(n, init, finalizeError) {
      forall j: Job, run: seq<Event> |
        j.Chunked() && j.c.n == n && j.c.init == init && j.c.finalizeError == finalizeError && CompleteRun(j, run)
        ensures Final(j, run).totals == SequentialTotals(j.c, j.files, false)
      {
        SameCountsAsSequential(j, run);
      }
    } else {
      var j := IdleJob(n, init, finalizeError);
      IdleJobDiffers(n, init, finalizeError);
      InitialOk(j);
      var run := CompleteWithoutWriting(j, Initial(j));
      FinalOk(j, run);
      assert j.c.n == n && j.c.init == init && j.c.finalizeError == finalizeError && CompleteRun(j, run);
    }
  }
}
