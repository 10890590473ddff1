/**
 The life of the named shared-memory segments behind Dem and Mask objects. An object first tries
 to attach to a segment of its name; only if there is none does it load its file and create one;
 clean_up closes, and unlinks if the object was the creator. The attach, the create, the copy of
 the data and the clean-up of any number of objects, in any number of processes, interleave freely.
 Names resolve as shm_open and shm_unlink do (System Interfaces volume of IEEE Std 1003.1-2017):
 unlinking removes whatever segment the name denotes at that moment.
 */
module SharedSegments {

  datatype Phase =
    | Unopened                 // constructed, nothing tried yet
    | Missed                   // the attach raised FileNotFoundError
    | Attached(seg: nat)       // shared_mem_child is True
    | Creating(seg: nat)       // segment created, data not copied in yet
    | Creator(seg: nat)        // segment created and filled
    | Failed                   // the create raised FileExistsError
    | Cleaned(created: bool)   // clean_up has run

  datatype Handle = Handle(name: string, phase: Phase)

  /** The operating system's table of linked names, and a supply of segments never used before. */
  datatype Names = Names(linked: map<string, nat>, next: nat, filled: set<nat>)

  datatype Action = Attach | Create | Fill | CleanUp

  predicate Enabled(h: Handle, a: Action) {
    match a
    case Attach => h.phase.Unopened?
    case Create => h.phase.Missed?
    case Fill => h.phase.Creating?
    case CleanUp => h.phase.Attached? || h.phase.Creator?
  }

  /** Effect of one action of one object on the names and on the object. */
  function Act(os: Names, h: Handle, a: Action): (Names, Handle)
    requires Enabled(h, a)
  {
    match a
    case Attach =>
      if h.name in os.linked then (os, h.(phase := Attached(os.linked[h.name])))
      else (os, h.(phase := Missed))
    case Create =>
      if h.name in os.linked then (os, h.(phase := Failed))
      else (os.(linked := os.linked[h.name := os.next], next := os.next + 1), h.(phase := Creating(os.next)))
    case Fill => (os.(filled := os.filled + {h.phase.seg}), h.(phase := Creator(h.phase.seg)))
    case CleanUp =>
      if h.phase.Attached? then (os, h.(phase := Cleaned(false)))
      else (os.(linked := os.linked - {h.name}), h.(phase := Cleaned(true)))
  }

  // ---- The object's own methods ----

  class SystemNames {
    var names: Names

    constructor ()
      ensures names == Names(map[], 0, {})
    {
      names := Names(map[], 0, {});
    }
  }

  /** The shared-memory side of a Dem or a Mask. */
  class SharedArray {
    const name: string
    var sharedMem: int        // segment held, or -1 for None
    var sharedMemChild: bool
    ghost var phase: Phase

    ghost predicate Valid()
      reads this
    {
      match phase
      case Attached(seg) => sharedMem == seg && sharedMemChild
      case Creating(seg) => sharedMem == seg && !sharedMemChild
      case Creator(seg) => sharedMem == seg && !sharedMemChild
      case Cleaned(created) => sharedMem >= 0 && sharedMemChild == !created
      case _ => sharedMem == -1 && !sharedMemChild
    }

    ghost function View(): Handle
      reads this
    {
      Handle(name, phase)
    }

    constructor (name: string)
      ensures Valid() && View() == Handle(name, Unopened)
    {
      this.name := name;
      sharedMem, sharedMemChild, phase := -1, false, Unopened;
    }

    /** SharedMemory(name, create=False), and the except FileNotFoundError arm being entered. */
    method TryAttach(os: SystemNames) returns (found: bool)
      requires Valid() && Enabled(View(), Attach)
      modifies this
      ensures Valid()
      ensures (os.names, View()) == Act(old(os.names), old(View()), Attach)
      ensures found <==> name in os.names.linked
      ensures sharedMemChild == found && sharedMem == if found then os.names.linked[name] else -1
    {
      found := name in os.names.linked;
      if found {
        sharedMem, sharedMemChild := os.names.linked[name], true;
        phase := Attached(os.names.linked[name]);
      } else {
        phase := Missed;
      }
    }

    /** SharedMemory(name, create=True), which raises if another object got there first. */
    method TryCreate(os: SystemNames) returns (created: bool)
      requires Valid() && Enabled(View(), Create)
      modifies this, os
      ensures Valid()
      ensures (os.names, View()) == Act(old(os.names), old(View()), Create)
      ensures created <==> name !in old(os.names).linked
      ensures !sharedMemChild && sharedMem == if created then old(os.names).next else -1
      ensures created ==> os.names == Names(old(os.names).linked[name := old(os.names).next],
                                            old(os.names).next + 1, old(os.names).filled)
      ensures !created ==> os.names == old(os.names)
    {
      created := name !in os.names.linked;
      if created {
        sharedMem := os.names.next;
        phase := Creating(os.names.next);
        os.names := os.names.(linked := os.names.linked[name := os.names.next], next := os.names.next + 1);
      } else {
        phase := Failed;
      }
    }

    /** Copy the loaded array into the new segment. */
    method CopyIn(os: SystemNames)
      requires Valid() && Enabled(View(), Fill)
      modifies this, os
      ensures Valid()
      ensures (os.names, View()) == Act(old(os.names), old(View()), Fill)
      ensures sharedMem == old(sharedMem) >= 0 && !sharedMemChild
      ensures os.names == old(os.names).(filled := old(os.names).filled + {sharedMem})
    {
      os.names := os.names.(filled := os.names.filled + {sharedMem});
      phase := Creator(sharedMem);
    }

    /** clean_up: close, and unlink by name unless the object only attached. */
    method CleanUpOnce(os: SystemNames)
      requires Valid() && Enabled(View(), CleanUp)
      modifies this, os
      ensures Valid()
      ensures (os.names, View()) == Act(old(os.names), old(View()), CleanUp)
      ensures sharedMemChild == old(sharedMemChild)
      ensures os.names == if sharedMemChild then old(os.names)
                          else old(os.names).(linked := old(os.names).linked - {name})
    {
      if !sharedMemChild {
        os.names := os.names.(linked := os.names.linked - {name});
      }
      phase := Cleaned(!sharedMemChild);
    }
  }

  // ---- Any number of objects, any interleaving ----

  datatype State = State(os: Names, handles: seq<Handle>)

  predicate Initial(s: State) {
    s.os == Names(map[], 0, {}) && forall i :: 0 <= i < |s.handles| ==> s.handles[i].phase.Unopened?
  }

  function Next(s: State, i: nat, a: Action): State
    requires i < |s.handles| && Enabled(s.handles[i], a)
  {
    var (os, h) := Act(s.os, s.handles[i], a);
    State(os, s.handles[i := h])
  }

  /** One scheduled step: which object acts and how. */
  datatype Event = Event(who: nat, action: Action)

  predicate CanRun(s: State, run: seq<Event>)
    decreases |run|
  {
    |run| == 0 ||
    (&& run[0].who < |s.handles| && Enabled(s.handles[run[0].who], run[0].action)
     && CanRun(Next(s, run[0].who, run[0].action), run[1..]))
  }

  function Run(s: State, run: seq<Event>): State
    requires CanRun(s, run)
    decreases |run|
  {
    if |run| == 0 then s else Run(Next(s, run[0].who, run[0].action), run[1..])
  }

  /** Object i is the live creator of the segment its name is linked to. */
  predicate Owns(s: State, i: nat, name: string)
    requires i < |s.handles|
  {
    var h := s.handles[i];
    && h.name == name && (h.phase.Creating? || h.phase.Creator?)
    && name in s.os.linked && s.os.linked[name] == h.phase.seg
  }

  predicate Live(h: Handle) {
    h.phase.Creating? || h.phase.Creator?
  }

  ghost predicate OneOwner(s: State) {
    // every linked segment has a live creator
    && (forall n :: n in s.os.linked ==> exists i :: 0 <= i < |s.handles| && Owns(s, i, n))
    // every live creator's own segment is the one linked under its name
    && (forall i :: 0 <= i < |s.handles| && Live(s.handles[i]) ==> Owns(s, i, s.handles[i].name))
    // and no two live creators share a name
    && (forall i, j :: 0 <= i < j < |s.handles| && Live(s.handles[i]) && Live(s.handles[j]) ==>
          s.handles[i].name != s.handles[j].name)
  }

  /** Segments are never shared or reused, and are filled exactly from the creator's copy on. */
  ghost predicate FreshSegments(s: State) {
    && (forall n :: n in s.os.linked ==> s.os.linked[n] < s.os.next)
    && (forall seg :: seg in s.os.filled ==> seg < s.os.next)
    && (forall i, j :: 0 <= i < j < |s.handles| && Live(s.handles[i]) && Live(s.handles[j]) ==>
          s.handles[i].phase.seg != s.handles[j].phase.seg)
    && (forall i :: 0 <= i < |s.handles| && Live(s.handles[i]) ==>
          && s.handles[i].phase.seg < s.os.next
          && (s.handles[i].phase.Creator? <==> s.handles[i].phase.seg in s.os.filled))
  }

  ghost predicate Inv(s: State) {
    OneOwner(s) && FreshSegments(s)
  }

  lemma NextKeepsOwners(s: State, i: nat, a: Action)
    requires OneOwner(s) && i < |s.handles| && Enabled(s.handles[i], a)
    ensures forall n :: n in Next(s, i, a).os.linked ==> exists j :: 0 <= j < |s.handles| && Owns(Next(s, i, a), j, n)
  {
    var t := Next(s, i, a);
    forall n | n in t.os.linked
      ensures exists j :: 0 <= j < |s.handles| && Owns(t, j, n)
    {
      if n in s.os.linked {
        var j :| 0 <= j < |s.handles| && Owns(s, j, n);
        assert Owns(t, j, n);
      } else {
        assert Owns(t, i, n);
      }
    }
  }

  lemma NextKeepsCreators(s: State, i: nat, a: Action, j: nat)
    requires OneOwner(s) && i < |s.handles| && Enabled(s.handles[i], a)
    requires j < |s.handles| && Live(Next(s, i, a).handles[j])
    ensures Owns(Next(s, i, a), j, Next(s, i, a).handles[j].name)
  {
    if j != i {
      assert Owns(s, j, s.handles[j].name);
    } else if a == Fill {
      assert Owns(s, i, s.handles[i].name);
    }
  }

  /** Nobody live has the name of a segment just created, or the name would have been linked. */
  lemma NextKeepsNamesApart(s: State, i: nat, a: Action, j: nat)
    requires OneOwner(s) && i < |s.handles| && Enabled(s.handles[i], a) && j < |s.handles| && j != i
    requires Live(Next(s, i, a).handles[i]) && Live(s.handles[j])
    ensures s.handles[i].name != s.handles[j].name
  {
    assert Owns(s, j, s.handles[j].name);
    if a == Fill { assert Live(s.handles[i]); }
  }

  lemma NextKeepsOneOwner(s: State, i: nat, a: Action)
    requires OneOwner(s) && i < |s.handles| && Enabled(s.handles[i], a)
    ensures OneOwner(Next(s, i, a))
  {
    var t := Next(s, i, a);
    NextKeepsOwners(s, i, a);
    forall j | 0 <= j < |t.handles| && Live(t.handles[j])
      ensures Owns(t, j, t.handles[j].name)
    {
      NextKeepsCreators(s, i, a, j);
    }
    forall j | 0 <= j < |t.handles| && j != i && Live(t.handles[i]) && Live(t.handles[j])
      ensures t.handles[i].name != t.handles[j].name
    {
      NextKeepsNamesApart(s, i, a, j);
    }
  }

  lemma NextKeepsFreshSegments(s: State, i: nat, a: Action)
    requires FreshSegments(s) && i < |s.handles| && Enabled(s.handles[i], a)
    ensures FreshSegments(Next(s, i, a))
  {}

  /** Every step of every object keeps "exactly one live creator per linked segment". */
  lemma NextKeepsInv(s: State, i: nat, a: Action)
    requires Inv(s) && i < |s.handles| && Enabled(s.handles[i], a)
    ensures Inv(Next(s, i, a))
  {
    NextKeepsOneOwner(s, i, a);
    NextKeepsFreshSegments(s, i, a);
  }

  lemma {:induction false} RunKeepsInv(s: State, run: seq<Event>)
    requires Inv(s) && CanRun(s, run)
    ensures Inv(Run(s, run)) && |Run(s, run).handles| == |s.handles|
    decreases |run|
  {
    if |run| > 0 {
      NextKeepsInv(s, run[0].who, run[0].action);
      RunKeepsInv(Next(s, run[0].who, run[0].action), run[1..]);
    }
  }

  /** In every state of every run, each linked segment has exactly one live creator. */
  lemma ExactlyOneCreator(s: State, run: seq<Event>, name: string)
    requires Initial(s) && CanRun(s, run)
    requires name in Run(s, run).os.linked
    ensures |Run(s, run).handles| == |s.handles|
    ensures exists i :: 0 <= i < |s.handles| && Owns(Run(s, run), i, name)
    ensures forall i, j | 0 <= i < |s.handles| && 0 <= j < |s.handles| ::
      Owns(Run(s, run), i, name) && Owns(Run(s, run), j, name) ==> i == j
  {
    RunKeepsInv(s, run);
  }

  /** A name stops being linked only through the clean-up of the object that created its segment. */
  lemma OnlyCreatorsUnlink(s: State, i: nat, a: Action, name: string)
    requires Inv(s) && i < |s.handles| && Enabled(s.handles[i], a)
    requires name in s.os.linked && name !in Next(s, i, a).os.linked
    ensures a == CleanUp && s.handles[i].phase.Creator? && Owns(s, i, name)
  {}

  /** Once every object is cleaned up, or never got a segment, nothing remains linked. */
  lemma NothingLeftLinked(s: State, run: seq<Event>)
    requires Initial(s) && CanRun(s, run)
    requires forall h :: h in Run(s, run).handles ==>
      h.phase.Cleaned? || h.phase.Failed? || h.phase.Unopened? || h.phase.Missed?
    ensures Run(s, run).os.linked == map[]
  {
    RunKeepsInv(s, run);
    var t := Run(s, run);
    assert forall i :: 0 <= i < |t.handles| ==> t.handles[i] in t.handles;
    assert forall i, n :: 0 <= i < |t.handles| ==> !Owns(t, i, n);
  }

  // ---- What the "at most once" discipline is worth ----

  /** clean_up called again: it unlinks by name again if the object was a creator. */
  function CleanUpAgain(s: State, i: nat): State
    requires i < |s.handles| && s.handles[i].phase.Cleaned?
  {
    if s.handles[i].phase.created then s.(os := s.os.(linked := s.os.linked - {s.handles[i].name})) else s
  }

  /** A repeated clean_up is harmless exactly when the object only attached or its name is free. */
  lemma CleanUpAgainHarmlessIff(s: State, i: nat)
    requires Inv(s) && i < |s.handles| && s.handles[i].phase.Cleaned?
    ensures Inv(CleanUpAgain(s, i)) <==> !s.handles[i].phase.created || s.handles[i].name !in s.os.linked
  {
    var t := CleanUpAgain(s, i);
    var n := s.handles[i].name;
    if s.handles[i].phase.created && n in s.os.linked {
      var j :| 0 <= j < |s.handles| && Owns(s, j, n);
      assert !Owns(t, j, n);
    } else {
      assert t.os.linked == s.os.linked;
      assert t == s;
    }
  }

  /** Two objects of one name, the first cleaned up twice: the second loses its live segment. */
  lemma SecondCleanUpStealsSegment(name: string)
    ensures var s := State(Names(map[], 0, {}), [Handle(name, Unopened), Handle(name, Unopened)]);
            var run := [Event(0, Attach), Event(0, Create), Event(0, Fill), Event(0, CleanUp),
                        Event(1, Attach), Event(1, Create), Event(1, Fill)];
            && CanRun(s, run)
            && Run(s, run).handles == [Handle(name, Cleaned(true)), Handle(name, Creator(1))]
            && CleanUpAgain(Run(s, run), 0).os.linked == map[]
  {
    var h0, h1 := Handle(name, Unopened), Handle(name, Unopened);
    var s0 := State(Names(map[], 0, {}), [h0, h1]);
    var s1 := State(Names(map[], 0, {}), [Handle(name, Missed), h1]);
    var s2 := State(Names(map[name := 0], 1, {}), [Handle(name, Creating(0)), h1]);
    var s3 := State(Names(map[name := 0], 1, {0}), [Handle(name, Creator(0)), h1]);
    var s4 := State(Names(map[], 1, {0}), [Handle(name, Cleaned(true)), h1]);
    var s5 := State(Names(map[], 1, {0}), [Handle(name, Cleaned(true)), Handle(name, Missed)]);
    var s6 := State(Names(map[name := 1], 2, {0}), [Handle(name, Cleaned(true)), Handle(name, Creating(1))]);
    var s7 := State(Names(map[name := 1], 2, {0, 1}), [Handle(name, Cleaned(true)), Handle(name, Creator(1))]);
    RunNil(s7);
    RunCons(s6, 1, Fill, s7, []);
    RunCons(s5, 1, Create, s6, [Event(1, Fill)]);
    RunCons(s4, 1, Attach, s5, [Event(1, Create), Event(1, Fill)]);
    RunCons(s3, 0, CleanUp, s4, [Event(1, Attach), Event(1, Create), Event(1, Fill)]);
    RunCons(s2, 0, Fill, s3, [Event(0, CleanUp), Event(1, Attach), Event(1, Create), Event(1, Fill)]);
    RunCons(s1, 0, Create, s2, [Event(0, Fill), Event(0, CleanUp), Event(1, Attach), Event(1, Create), Event(1, Fill)]);
    RunCons(s0, 0, Attach, s1,
      [Event(0, Create), Event(0, Fill), Event(0, CleanUp), Event(1, Attach), Event(1, Create), Event(1, Fill)]);
    assert CleanUpAgain(s7, 0).os.linked == map[];
  }

  lemma RunNil(s: State)
    ensures CanRun(s, []) && Run(s, []) == s
  {}

  lemma RunCons(s: State, who: nat, action: Action, t: State, rest: seq<Event>)
    requires who < |s.handles| && Enabled(s.handles[who], action) && Next(s, who, action) == t && CanRun(t, rest)
    ensures CanRun(s, [Event(who, action)] + rest) && Run(s, [Event(who, action)] + rest) == Run(t, rest)
  {
    assert ([Event(who, action)] + rest)[1..] == rest;
  }

  /**
   An object that attaches sees complete data exactly when the creator has already copied it in:
   an attach between the create and the copy maps a segment that is not filled yet.
   */
  lemma AttachSeesCompleteDataIff(s: State, i: nat, owner: nat)
    requires Inv(s) && i < |s.handles| && s.handles[i].phase.Unopened?
    requires owner < |s.handles| && Owns(s, owner, s.handles[i].name)
    ensures Next(s, i, Attach).handles[i].phase.Attached?
    ensures Next(s, i, Attach).handles[i].phase.seg in s.os.filled <==> s.handles[owner].phase.Creator?
  {}

  /** A run that attaches in between: the second object maps a segment whose data is not there yet. */
  lemma AttachBeforeCopy(name: string)
    ensures var s := State(Names(map[], 0, {}), [Handle(name, Unopened), Handle(name, Unopened)]);
            var run := [Event(0, Attach), Event(0, Create), Event(1, Attach)];
            && CanRun(s, run)
            && Run(s, run).handles == [Handle(name, Creating(0)), Handle(name, Attached(0))]
            && Run(s, run).os.filled == {}
  {
    var h0, h1 := Handle(name, Unopened), Handle(name, Unopened);
    var s0 := State(Names(map[], 0, {}), [h0, h1]);
    var s1 := State(Names(map[], 0, {}), [Handle(name, Missed), h1]);
    var s2 := State(Names(map[name := 0], 1, {}), [Handle(name, Creating(0)), h1]);
    var s3 := State(Names(map[name := 0], 1, {}), [Handle(name, Creating(0)), Handle(name, Attached(0))]);
    RunNil(s3);
    RunCons(s2, 1, Attach, s3, []);
    RunCons(s1, 0, Create, s2, [Event(1, Attach)]);
    RunCons(s0, 0, Attach, s1, [Event(0, Create), Event(1, Attach)]);
  }
}
