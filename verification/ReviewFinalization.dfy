/**
 The two-phase RUL-002 review: prepare a write-ahead record, then consume it once, with a
 finalization file as the commit point. The process may die between any two changes of the
 disk, so an invocation is described by the list of changes it would make, and a crash by
 a prefix of that list. Invocations follow each other; they do not overlap.
 */
module ReviewFinalization {
  import opened NodeIds
  import opened Sorting
  import A = AcceptanceRun

  // ----- data model

  /** Records, or a log that is missing or cannot be read as records. */
  datatype Log = Unreadable | Records(records: seq<A.Record>)

  datatype Finalization = NoFile | Started | Failed | Complete

  /** The disk, and how often the review command was invoked so far. */
  datatype State = State(log: Log, finalization: Finalization, archive: bool, invoked: nat)

  /** The eighteen commands before the review, the review, and its two fixed texts. */
  datatype Contract = Contract(commands: seq<A.Command>, review: A.Command, ahead: string, final: string)

  /** A change that survives a crash. */
  datatype Change =
    | SetLog(log: Log)
    | SetFinalization(finalization: Finalization)
    | SetArchive(archive: bool)
    | InvokeReview

  function Apply(s: State, c: Change): State {
    match c
    case SetLog(log) => s.(log := log)
    case SetFinalization(f) => s.(finalization := f)
    case SetArchive(b) => s.(archive := b)
    case InvokeReview => s.(invoked := s.invoked + 1)
  }

  function ApplyAll(s: State, changes: seq<Change>): State {
    if changes == [] then s
    else Apply(ApplyAll(s, changes[..|changes| - 1]), changes[|changes| - 1])
  }

  // ----- what the code checks

  predicate CompletedValid(r: A.Record, c: A.Command) {
    && r.exactKeys && r.command == c.display && r.exitCode == c.expectedExit
    && A.Passing(r.result) && A.ValidDuration(r.duration)
  }

  predicate FirstValid(c: Contract, records: seq<A.Record>)
    requires |c.commands| <= |records|
  {
    forall i :: 0 <= i < |c.commands| ==> CompletedValid(records[i], c.commands[i])
  }

  /** The log holds exactly the valid first records. */
  predicate ReadyToPrepare(c: Contract, s: State) {
    && s.log.Records? && |s.log.records| == |c.commands| && FirstValid(c, s.log.records)
    && s.finalization.NoFile?
  }

  function Placeholder(c: Contract): A.Record {
    A.Record(true, c.review.display, A.Null, 0, c.ahead)
  }

  /** The log ends in the unconsumed write-ahead record. */
  predicate ReadyToReview(c: Contract, s: State) {
    && s.log.Records? && |s.log.records| == |c.commands| + 1 && FirstValid(c, s.log.records)
    && s.log.records[|c.commands|] == Placeholder(c)
    && s.finalization.NoFile?
  }

  /** The log of a completed review: the valid first records and the final one. */
  predicate FinalLog(c: Contract, log: Log) {
    && log.Records? && |log.records| == |c.commands| + 1 && FirstValid(c, log.records)
    && var last := log.records[|c.commands|];
    && last.exactKeys && last.command == c.review.display
    && last.exitCode == c.review.expectedExit && last.result == c.final
  }

  // ----- how the foreign calls of an invocation go

  datatype World = World(
    preconditions: bool, placeholderWrite: A.Write, startWrite: A.Write,
    review: Option<A.Ran>, reviewLeaves: bool,
    exactWrite: A.Write, evidence: bool, build: A.Build, validate: bool, completeWrite: A.Write,
    failLog: A.Write, failUnlink: bool, failEvidence: bool, failWrite: A.Write, reason: string,
    fullRun: Option<seq<A.Record>>, flushed: nat, torn: bool)

  function IfWritten(w: A.Write, c: Change): seq<Change> {
    if w.RaisedBefore? then [] else [c]
  }

  function ReplaceLast(c: Contract, log: Log, r: A.Record): Log
    requires log.Records? && |log.records| == |c.commands| + 1
  {
    Records(log.records[..|c.commands|] + [r])
  }

  function ExactRecord(c: Contract, w: World): A.Record
    requires w.review.Some?
  {
    A.Record(true, c.review.display, w.review.value.duration, w.review.value.exitCode, c.final)
  }

  function FailedRecord(c: Contract, w: World): A.Record
    requires w.review.Some?
  {
    A.Record(true, c.review.display, w.review.value.duration, w.review.value.exitCode, "FAIL: " + w.reason)
  }

  // ----- the changes of an invocation that is not interrupted

  function PrepareChanges(c: Contract, s: State, w: World): seq<Change> {
    if ReadyToPrepare(c, s)
    then IfWritten(w.placeholderWrite, SetLog(Records(s.log.records + [Placeholder(c)])))
    else []
  }

  /** Failing: rewrite the log, drop the archive, and, unless tidying the evidence raises,
      record the failure. Errors of the writes themselves are swallowed. */
  function FailChanges(c: Contract, s: State, w: World): seq<Change>
    requires ReadyToReview(c, s) && w.review.Some?
  {
    IfWritten(w.failLog, SetLog(ReplaceLast(c, s.log, FailedRecord(c, w)))) + FailTail(w)
  }

  function FailTail(w: World): seq<Change> {
    (if w.failUnlink then [SetArchive(false)] else [])
    + (if w.failEvidence then IfWritten(w.failWrite, SetFinalization(Failed)) else [])
  }

  /** After a passing review: the exact record, evidence, archive, and the commit. */
  function CommitChanges(c: Contract, s: State, w: World): seq<Change>
    requires ReadyToReview(c, s) && w.review.Some?
  {
    IfWritten(w.exactWrite, SetLog(ReplaceLast(c, s.log, ExactRecord(c, w))))
    + if !w.exactWrite.Written? || !w.evidence then FailChanges(c, s, w) else ArchiveChanges(c, s, w)
  }

  function ArchiveChanges(c: Contract, s: State, w: World): seq<Change>
    requires ReadyToReview(c, s) && w.review.Some?
  {
    [SetArchive(if w.build.Built? then true else w.build.leaves)]
    + if w.build.BuildRaised? || !w.validate then FailChanges(c, s, w) else CompleteChanges(c, s, w)
  }

  function CompleteChanges(c: Contract, s: State, w: World): seq<Change>
    requires ReadyToReview(c, s) && w.review.Some?
  {
    IfWritten(w.completeWrite, SetFinalization(Complete))
    + if w.completeWrite.Written? then [] else FailChanges(c, s, w)
  }

  predicate ReviewPasses(c: Contract, w: World) {
    w.review.Some? && w.review.value.exitCode == c.review.expectedExit && A.Passing(w.review.value.result)
  }

  /** The commit point is opened before the review command is invoked. */
  function ReviewChanges(c: Contract, s: State, w: World): seq<Change> {
    if !ReadyToReview(c, s) || !w.preconditions then []
    else if !w.startWrite.Written? then IfWritten(w.startWrite, SetFinalization(Started))
    else
      [SetFinalization(Started), InvokeReview, SetArchive(w.reviewLeaves)]
      + if w.review.None? then []
        else if ReviewPasses(c, w) then CommitChanges(c, s, w)
        else FailChanges(c, s, w)
  }

  /** The run without flags writes its log in place, line by line, and looks at nothing else. */
  function FullChanges(c: Contract, w: World): seq<Change> {
    if w.fullRun.None? || |w.fullRun.value| != |c.commands| then []
    else
      var k := if w.flushed < |c.commands| then w.flushed else |c.commands|;
      [SetLog(if w.torn then Unreadable else Records(w.fullRun.value[..k])), SetLog(Records(w.fullRun.value))]
  }

  /** The records of a run have the expected exit codes and pass. */
  predicate AsExpected(c: Contract, records: seq<A.Record>) {
    && |records| == |c.commands|
    && forall i :: 0 <= i < |records| ==>
      records[i].exitCode == c.commands[i].expectedExit && A.Passing(records[i].result)
  }

  // ----- the procedures, with a fuel of changes before the process dies

  datatype Exit = Code(code: int) | Raised | Died

  /** The fuel went into these changes: all of them, or as many as it sufficed for. */
  ghost predicate Advanced(fuel: nat, made: seq<Change>, changes: seq<Change>, fuel': nat, made': seq<Change>) {
    if |changes| <= fuel then fuel' == fuel - |changes| && made' == made + changes
    else fuel' == 0 && made' == made + changes[..fuel]
  }

  lemma AdvancedTwice(fuel: nat, made: seq<Change>, a: seq<Change>, b: seq<Change>,
                      fuel': nat, made': seq<Change>, fuel'': nat, made'': seq<Change>)
    requires |a| <= fuel && Advanced(fuel, made, a, fuel', made') && Advanced(fuel', made', b, fuel'', made'')
    ensures Advanced(fuel, made, a + b, fuel'', made'')
  {
    if |b| > fuel' {
      assert (a + b)[..fuel] == a + b[..fuel'];
      assert made + (a + b)[..fuel] == made + a + b[..fuel'];
    } else {
      assert made + (a + b) == made + a + b;
    }
  }

  lemma AdvancedDead(fuel: nat, made: seq<Change>, a: seq<Change>, b: seq<Change>, fuel': nat, made': seq<Change>)
    requires |a| > fuel && Advanced(fuel, made, a, fuel', made')
    ensures Advanced(fuel, made, a + b, fuel', made')
  {
    assert (a + b)[..fuel] == a[..fuel];
  }

  lemma ApplyAppend(s: State, changes: seq<Change>, c: Change)
    ensures ApplyAll(s, changes + [c]) == Apply(ApplyAll(s, changes), c)
  {
    assert (changes + [c])[..|changes|] == changes;
  }

  /** How an invocation ends that may have failed: dead, successful, or, unless tidying the evidence
      raises, with 1. */
  function ExitOf(dead: bool, success: bool, w: World): Exit {
    if dead then Died else if success then Code(0) else if w.failEvidence then Code(1) else Raised
  }

  class Process {
    var state: State
    var fuel: nat
    ghost var origin: State
    ghost var made: seq<Change>

    /** The disk is the original one with the changes made so far. */
    ghost predicate Valid()
      reads this
    {
      state == ApplyAll(origin, made)
    }

    constructor (s: State, fuel: nat)
      ensures Valid() && state == origin == s && this.fuel == fuel && made == []
    {
      state, origin, this.fuel := s, s, fuel;
      made := [];
    }

    /** One change of the disk, unless the process dies before it. */
    method Do(c: Change) returns (alive: bool)
      requires Valid()
      modifies this
      ensures Valid() && origin == old(origin)
      ensures Advanced(old(fuel), old(made), [c], fuel, made)
      ensures alive <==> old(fuel) >= 1
    {
      if fuel == 0 {
        return false;
      }
      ApplyAppend(origin, made, c);
      fuel, made, state := fuel - 1, made + [c], Apply(state, c);
      alive := true;
    }

    /** A write that may raise instead. */
    method DoWrite(w: A.Write, c: Change) returns (alive: bool)
      requires Valid()
      modifies this
      ensures Valid() && origin == old(origin)
      ensures Advanced(old(fuel), old(made), IfWritten(w, c), fuel, made)
      ensures alive <==> old(fuel) >= |IfWritten(w, c)|
    {
      if w.RaisedBefore? {
        return true;
      }
      alive := Do(c);
    }

    method Prepare(c: Contract, w: World) returns (exit: Exit)
      requires Valid()
      modifies this
      ensures Valid() && origin == old(origin)
      ensures Advanced(old(fuel), old(made), PrepareChanges(c, old(state), w), fuel, made)
      ensures exit ==
        if !ReadyToPrepare(c, old(state)) then Code(1)
        else if old(fuel) < |PrepareChanges(c, old(state), w)| then Died
        else if w.placeholderWrite.Written? then Code(0) else Raised
      ensures exit == Code(0) ==> ReadyToReview(c, state)
    {
      var s := state;
      if !s.log.Records? || |s.log.records| != |c.commands| || !FirstValid(c, s.log.records) {
        return Code(1);
      }
      if !s.finalization.NoFile? {
        return Code(1);
      }
      var change := SetLog(Records(s.log.records + [Placeholder(c)]));
      var alive := DoWrite(w.placeholderWrite, change);
      if !alive {
        return Died;
      }
      if !w.placeholderWrite.Written? {
        return Raised;
      }
      ApplyAppend(origin, old(made), change);
      return Code(0);
    }

    /** Give up the finalization of the log s was read with. */
    method FailFinalization(c: Contract, w: World, s: State) returns (exit: Exit)
      requires Valid() && ReadyToReview(c, s) && w.review.Some?
      modifies this
      ensures Valid() && origin == old(origin)
      ensures Advanced(old(fuel), old(made), FailChanges(c, s, w), fuel, made)
      ensures exit == ExitOf(old(fuel) < |FailChanges(c, s, w)|, false, w)
    {
      var change := SetLog(ReplaceLast(c, s.log, FailedRecord(c, w)));
      var alive := DoWrite(w.failLog, change);
      if !alive {
        AdvancedDead(old(fuel), old(made), IfWritten(w.failLog, change), FailTail(w), fuel, made);
        return Died;
      }
      ghost var fuel1, made1 := fuel, made;
      exit := RecordFailure(w);
      AdvancedTwice(old(fuel), old(made), IfWritten(w.failLog, change), FailTail(w), fuel1, made1, fuel, made);
    }

    method RecordFailure(w: World) returns (exit: Exit)
      requires Valid()
      modifies this
      ensures Valid() && origin == old(origin)
      ensures Advanced(old(fuel), old(made), FailTail(w), fuel, made)
      ensures exit == ExitOf(old(fuel) < |FailTail(w)|, false, w)
    {
      var unlink := if w.failUnlink then [SetArchive(false)] else [];
      var status := if w.failEvidence then IfWritten(w.failWrite, SetFinalization(Failed)) else [];
      var alive := DoWrite(if w.failUnlink then A.Written else A.RaisedBefore, SetArchive(false));
      if !alive {
        AdvancedDead(old(fuel), old(made), unlink, status, fuel, made);
        return Died;
      }
      ghost var fuel1, made1 := fuel, made;
      if w.failEvidence {
        alive := DoWrite(w.failWrite, SetFinalization(Failed));
        exit := if alive then Code(1) else Died;
      } else {
        exit := Raised;
      }
      AdvancedTwice(old(fuel), old(made), unlink, status, fuel1, made1, fuel, made);
    }

    /** The commit: COMPLETE, or failing when its write raises. */
    method WriteComplete(c: Contract, w: World, s: State) returns (exit: Exit)
      requires Valid() && ReadyToReview(c, s) && w.review.Some?
      modifies this
      ensures Valid() && origin == old(origin)
      ensures Advanced(old(fuel), old(made), CompleteChanges(c, s, w), fuel, made)
      ensures exit == ExitOf(old(fuel) < |CompleteChanges(c, s, w)|, w.completeWrite.Written?, w)
    {
      var part := IfWritten(w.completeWrite, SetFinalization(Complete));
      var alive := DoWrite(w.completeWrite, SetFinalization(Complete));
      if w.completeWrite.Written? {
        assert CompleteChanges(c, s, w) == part;
        return if alive then Code(0) else Died;
      }
      if !alive {
        AdvancedDead(old(fuel), old(made), part, FailChanges(c, s, w), fuel, made);
        return Died;
      }
      ghost var fuel1, made1 := fuel, made;
      exit := FailFinalization(c, w, s);
      AdvancedTwice(old(fuel), old(made), part, FailChanges(c, s, w), fuel1, made1, fuel, made);
    }

    method BuildArchive(c: Contract, w: World, s: State) returns (exit: Exit)
      requires Valid() && ReadyToReview(c, s) && w.review.Some?
      modifies this
      ensures Valid() && origin == old(origin)
      ensures Advanced(old(fuel), old(made), ArchiveChanges(c, s, w), fuel, made)
      ensures exit == ExitOf(old(fuel) < |ArchiveChanges(c, s, w)|,
                             w.build.Built? && w.validate && w.completeWrite.Written?, w)
    {
      var change := SetArchive(if w.build.Built? then true else w.build.leaves);
      var failing := w.build.BuildRaised? || !w.validate;
      ghost var rest := if failing then FailChanges(c, s, w) else CompleteChanges(c, s, w);
      var alive := Do(change);
      if !alive {
        AdvancedDead(old(fuel), old(made), [change], rest, fuel, made);
        return Died;
      }
      ghost var fuel1, made1 := fuel, made;
      if failing {
        exit := FailFinalization(c, w, s);
      } else {
        exit := WriteComplete(c, w, s);
      }
      AdvancedTwice(old(fuel), old(made), [change], rest, fuel1, made1, fuel, made);
    }

    method Commit(c: Contract, w: World, s: State) returns (exit: Exit)
      requires Valid() && ReadyToReview(c, s) && w.review.Some?
      modifies this
      ensures Valid() && origin == old(origin)
      ensures Advanced(old(fuel), old(made), CommitChanges(c, s, w), fuel, made)
      ensures exit == ExitOf(old(fuel) < |CommitChanges(c, s, w)|, CommitSucceeds(w), w)
    {
      var change := SetLog(ReplaceLast(c, s.log, ExactRecord(c, w)));
      var failing := !w.exactWrite.Written? || !w.evidence;
      ghost var part := IfWritten(w.exactWrite, change);
      ghost var rest := if failing then FailChanges(c, s, w) else ArchiveChanges(c, s, w);
      var alive := DoWrite(w.exactWrite, change);
      if !alive {
        AdvancedDead(old(fuel), old(made), part, rest, fuel, made);
        return Died;
      }
      ghost var fuel1, made1 := fuel, made;
      if failing {
        exit := FailFinalization(c, w, s);
      } else {
        exit := BuildArchive(c, w, s);
      }
      AdvancedTwice(old(fuel), old(made), part, rest, fuel1, made1, fuel, made);
    }

    /** Invoke the review, then commit or fail. */
    method InvokeAndFinalize(c: Contract, w: World, s: State) returns (exit: Exit)
      requires Valid() && ReadyToReview(c, s) && w.preconditions && w.startWrite.Written?
      modifies this
      ensures Valid() && origin == old(origin)
      ensures Advanced(old(fuel), old(made), ReviewChanges(c, s, w), fuel, made)
      ensures exit ==
        if w.review.None? && old(fuel) >= |ReviewChanges(c, s, w)| then Raised
        else ExitOf(old(fuel) < |ReviewChanges(c, s, w)|, ReviewPasses(c, w) && CommitSucceeds(w), w)
    {
      var opening := [SetFinalization(Started), InvokeReview, SetArchive(w.reviewLeaves)];
      ghost var rest :=
        if w.review.None? then []
        else if ReviewPasses(c, w) then CommitChanges(c, s, w)
        else FailChanges(c, s, w);
      var alive := Open(w.reviewLeaves);
      if !alive {
        AdvancedDead(old(fuel), old(made), opening, rest, fuel, made);
        return Died;
      }
      ghost var fuel1, made1 := fuel, made;
      if w.review.None? {
        exit := Raised;
      } else if w.review.value.exitCode == c.review.expectedExit && A.Passing(w.review.value.result) {
        exit := Commit(c, w, s);
      } else {
        exit := FailFinalization(c, w, s);
      }
      AdvancedTwice(old(fuel), old(made), opening, rest, fuel1, made1, fuel, made);
    }

    /** Open the finalization and run the review command. */
    method Open(leaves: bool) returns (alive: bool)
      requires Valid()
      modifies this
      ensures Valid() && origin == old(origin)
      ensures Advanced(old(fuel), old(made), [SetFinalization(Started), InvokeReview, SetArchive(leaves)], fuel, made)
      ensures alive <==> old(fuel) >= 3
    {
      alive := Do(SetFinalization(Started));
      if alive {
        alive := Do(InvokeReview);
      }
      if alive {
        alive := Do(SetArchive(leaves));
      }
    }

    /** The review-only invocation. */
    method ReviewOnly(c: Contract, w: World) returns (exit: Exit)
      requires Valid()
      modifies this
      ensures Valid() && origin == old(origin)
      ensures Advanced(old(fuel), old(made), ReviewChanges(c, old(state), w), fuel, made)
      ensures exit ==
        if !ReadyToReview(c, old(state)) || !w.preconditions then Code(1)
        else if old(fuel) < |ReviewChanges(c, old(state), w)| then Died
        else if !w.startWrite.Written? || w.review.None? then Raised
        else ExitOf(false, ReviewPasses(c, w) && CommitSucceeds(w), w)
    {
      var s := state;
      if !ReadyToReview(c, s) || !w.preconditions {
        return Code(1);
      }
      if !w.startWrite.Written? {
        var alive := DoWrite(w.startWrite, SetFinalization(Started));
        return if alive then Raised else Died;
      }
      exit := InvokeAndFinalize(c, w, s);
    }

    /** The run without flags. */
    method FullRun(c: Contract, w: World) returns (exit: Exit)
      requires Valid()
      modifies this
      ensures Valid() && origin == old(origin)
      ensures Advanced(old(fuel), old(made), FullChanges(c, w), fuel, made)
      ensures exit ==
        if FullChanges(c, w) == [] then Raised
        else if old(fuel) < 2 then Died
        else if AsExpected(c, w.fullRun.value) then Code(0) else Code(1)
    {
      if w.fullRun.None? || |w.fullRun.value| != |c.commands| {
        return Raised;
      }
      var k := if w.flushed < |c.commands| then w.flushed else |c.commands|;
      var partial := if w.torn then Unreadable else Records(w.fullRun.value[..k]);
      var alive := DoTwo(SetLog(partial), SetLog(Records(w.fullRun.value)));
      if !alive {
        return Died;
      }
      return if AsExpected(c, w.fullRun.value) then Code(0) else Code(1);
    }

    method DoTwo(first: Change, second: Change) returns (alive: bool)
      requires Valid()
      modifies this
      ensures Valid() && origin == old(origin)
      ensures Advanced(old(fuel), old(made), [first, second], fuel, made)
      ensures alive <==> old(fuel) >= 2
    {
      alive := Do(first);
      if alive {
        alive := Do(second);
      }
    }
  }

  ghost predicate CommitSucceeds(w: World) {
    && w.exactWrite.Written? && w.evidence && w.build.Built? && w.validate && w.completeWrite.Written?
  }

  // ----- whole runs: any sequence of invocations, each dying wherever it may

  datatype Step = PrepareStep(w: World, fuel: nat) | ReviewStep(w: World, fuel: nat) | FullStep(w: World, fuel: nat)
    | DeleteFinalization

  function Interrupted(changes: seq<Change>, fuel: nat): seq<Change> {
    if |changes| <= fuel then changes else changes[..fuel]
  }

  /** The state a step leaves: an invocation's changes as far as its fuel carried it. */
  function StepTo(c: Contract, s: State, step: Step): State {
    match step
    case PrepareStep(w, fuel) => ApplyAll(s, Interrupted(PrepareChanges(c, s, w), fuel))
    case ReviewStep(w, fuel) => ApplyAll(s, Interrupted(ReviewChanges(c, s, w), fuel))
    case FullStep(w, fuel) => ApplyAll(s, Interrupted(FullChanges(c, w), fuel))
    case DeleteFinalization => s.(finalization := NoFile)
  }

  function RunTo(c: Contract, s: State, steps: seq<Step>): State {
    if steps == [] then s
    else StepTo(c, RunTo(c, s, steps[..|steps| - 1]), steps[|steps| - 1])
  }

  // ----- at most one invocation

  /** Room for an invocation: the finalization file is not there. */
  function Room(s: State): nat {
    if s.finalization.NoFile? then 1 else 0
  }

  /** Changes that neither invoke the review nor remove the finalization file. */
  predicate Tame(c: Change) {
    !c.InvokeReview? && (c.SetFinalization? ==> !c.finalization.NoFile?)
  }

  lemma {:induction false} TameChanges(s: State, changes: seq<Change>)
    requires forall i :: 0 <= i < |changes| ==> Tame(changes[i])
    ensures var t := ApplyAll(s, changes); t.invoked == s.invoked && Room(t) <= Room(s)
  {
    if changes != [] {
      TameChanges(s, changes[..|changes| - 1]);
    }
  }

  lemma {:induction false} ApplyInTwo(s: State, a: seq<Change>, b: seq<Change>)
    ensures ApplyAll(s, a + b) == ApplyAll(ApplyAll(s, a), b)
  {
    if b == [] {
      assert a + b == a;
    } else {
      var n := |b| - 1;
      assert (a + b)[..|a| + n] == a + b[..n];
      ApplyInTwo(s, a, b[..n]);
    }
  }

  lemma ReviewTail(c: Contract, s: State, w: World)
    requires ReadyToReview(c, s) && w.review.Some?
    ensures forall i :: 0 <= i < |FailChanges(c, s, w)| ==> Tame(FailChanges(c, s, w)[i])
    ensures forall i :: 0 <= i < |CommitChanges(c, s, w)| ==> Tame(CommitChanges(c, s, w)[i])
  {
    assert forall i :: 0 <= i < |CompleteChanges(c, s, w)| ==> Tame(CompleteChanges(c, s, w)[i]);
    assert forall i :: 0 <= i < |ArchiveChanges(c, s, w)| ==> Tame(ArchiveChanges(c, s, w)[i]);
  }

  lemma OpeningState(s: State)
    ensures ApplyAll(s, [SetFinalization(Started), InvokeReview])
      == s.(finalization := Started, invoked := s.invoked + 1)
  {
    ApplyAppend(s, [], SetFinalization(Started));
    ApplyAppend(s, [] + [SetFinalization(Started)], InvokeReview);
    assert [] + [SetFinalization(Started)] + [InvokeReview] == [SetFinalization(Started), InvokeReview];
  }

  /** After the opening, a review invocation only makes tame changes. */
  lemma ReviewIsTameAfterOpening(c: Contract, s: State, w: World)
    requires ReadyToReview(c, s) && w.preconditions && w.startWrite.Written?
    ensures var changes := ReviewChanges(c, s, w);
      && |changes| >= 3 && changes[..2] == [SetFinalization(Started), InvokeReview]
      && forall i :: 2 <= i < |changes| ==> Tame(changes[i])
  {
    if w.review.Some? {
      ReviewTail(c, s, w);
    }
  }

  lemma NotYetInvoked(c: Contract, s: State, w: World)
    requires !(ReadyToReview(c, s) && w.preconditions && w.startWrite.Written?)
    ensures forall i :: 0 <= i < |ReviewChanges(c, s, w)| ==> Tame(ReviewChanges(c, s, w)[i])
  {
  }

  lemma OpeningUsesRoom(s: State, done: seq<Change>)
    requires s.finalization.NoFile? && |done| >= 2
    requires done[..2] == [SetFinalization(Started), InvokeReview]
    requires forall i :: 2 <= i < |done| ==> Tame(done[i])
    ensures var t := ApplyAll(s, done); t.invoked + Room(t) <= s.invoked + Room(s)
  {
    SplitAt(done, 2);
    OpeningState(s);
    TameChanges(ApplyAll(s, done[..2]), done[2..]);
    ApplyInTwo(s, done[..2], done[2..]);
  }

  /** A review invocation uses up its room before it invokes. */
  lemma ReviewUsesRoom(c: Contract, s: State, w: World, fuel: nat)
    ensures var t := StepTo(c, s, ReviewStep(w, fuel)); t.invoked + Room(t) <= s.invoked + Room(s)
  {
    var done := Interrupted(ReviewChanges(c, s, w), fuel);
    if ReadyToReview(c, s) && w.preconditions && w.startWrite.Written? {
      ReviewIsTameAfterOpening(c, s, w);
      if |done| >= 2 {
        OpeningUsesRoom(s, done);
      } else {
        TameChanges(s, done);
      }
    } else {
      NotYetInvoked(c, s, w);
      TameChanges(s, done);
    }
  }

  /** How often somebody deletes the finalization file. */
  ghost function Deletions(steps: seq<Step>): nat {
    |Filter((step: Step) => step.DeleteFinalization?, steps)|
  }

  lemma DeletionsLast(steps: seq<Step>)
    requires steps != []
    ensures var n := |steps| - 1;
      Deletions(steps) == Deletions(steps[..n]) + if steps[n].DeleteFinalization? then 1 else 0
  {
    SplitLast(steps);
    FilterAppend((step: Step) => step.DeleteFinalization?, steps[..|steps| - 1], steps[|steps| - 1]);
  }

  /** Every deletion of the finalization file makes room for one more invocation, and nothing else does. */
  lemma {:induction false} InvocationsBounded(c: Contract, s: State, steps: seq<Step>)
    ensures var t := RunTo(c, s, steps); t.invoked + Room(t) <= s.invoked + Room(s) + Deletions(steps)
  {
    if steps != [] {
      var n := |steps| - 1;
      InvocationsBounded(c, s, steps[..n]);
      DeletionsLast(steps);
      var u := RunTo(c, s, steps[..n]);
      match steps[n]
      case PrepareStep(w, fuel) => TameChanges(u, Interrupted(PrepareChanges(c, u, w), fuel));
      case ReviewStep(w, fuel) => ReviewUsesRoom(c, u, w, fuel);
      case FullStep(w, fuel) => TameChanges(u, Interrupted(FullChanges(c, w), fuel));
      case DeleteFinalization =>
    }
  }

  ghost predicate NoDeletion(steps: seq<Step>) {
    forall i :: 0 <= i < |steps| ==> !steps[i].DeleteFinalization?
  }

  lemma NothingDeleted(steps: seq<Step>)
    requires NoDeletion(steps)
    ensures Deletions(steps) == 0
  {
    var left := Filter((step: Step) => step.DeleteFinalization?, steps);
    if left != [] {
      assert left[0] in left;
    }
  }

  /**
   At-most-once finalization: as long as nobody deletes the finalization file, any sequence
   of invocations, dying anywhere, invokes the review command at most once, and not at all
   once the file is there.
   */
  lemma AtMostOnce(c: Contract, s: State, steps: seq<Step>)
    requires NoDeletion(steps)
    ensures var t := RunTo(c, s, steps);
      && t.invoked <= s.invoked + 1
      && (t.invoked == s.invoked + 1 ==> s.finalization.NoFile? && !t.finalization.NoFile?)
  {
    InvocationsBounded(c, s, steps);
    NothingDeleted(steps);
  }

  // ----- what COMPLETE says about the log

  lemma {:induction false} NothingCompletes(s: State, changes: seq<Change>)
    requires !s.finalization.Complete?
    requires forall i :: 0 <= i < |changes| ==> changes[i] != SetFinalization(Complete)
    ensures !ApplyAll(s, changes).finalization.Complete?
  {
    if changes != [] {
      NothingCompletes(s, changes[..|changes| - 1]);
    }
  }

  lemma {:induction false} LogUntouched(s: State, changes: seq<Change>)
    requires forall i :: 0 <= i < |changes| ==> !changes[i].SetLog?
    ensures ApplyAll(s, changes).log == s.log
  {
    if changes != [] {
      LogUntouched(s, changes[..|changes| - 1]);
    }
  }

  /** The six changes up to the commit of a review that goes well until then. */
  ghost function ToCommit(c: Contract, s: State, w: World): seq<Change>
    requires ReadyToReview(c, s) && w.review.Some?
  {
    [SetFinalization(Started), InvokeReview, SetArchive(w.reviewLeaves),
     SetLog(ReplaceLast(c, s.log, ExactRecord(c, w))), SetArchive(true), SetFinalization(Complete)]
  }

  /** Everything up to the commit goes well; the commit itself may raise after it is made. */
  ghost predicate ReachesCommit(c: Contract, s: State, w: World) {
    && ReadyToReview(c, s) && w.preconditions && w.startWrite.Written? && ReviewPasses(c, w)
    && w.exactWrite.Written? && w.evidence && w.build.Built? && w.validate && !w.completeWrite.RaisedBefore?
  }

  lemma ReviewToCommit(c: Contract, s: State, w: World)
    requires ReachesCommit(c, s, w)
    ensures ReviewChanges(c, s, w) == ToCommit(c, s, w) + if w.completeWrite.Written? then [] else FailChanges(c, s, w)
  {
  }

  lemma OtherwiseNoCommit(c: Contract, s: State, w: World)
    requires !ReachesCommit(c, s, w)
    ensures forall i :: 0 <= i < |ReviewChanges(c, s, w)| ==> ReviewChanges(c, s, w)[i] != SetFinalization(Complete)
  {
    if ReadyToReview(c, s) && w.review.Some? {
      assert forall i :: 0 <= i < |FailChanges(c, s, w)| ==> FailChanges(c, s, w)[i] != SetFinalization(Complete);
    }
  }

  lemma AfterCommit(c: Contract, s: State, w: World)
    requires ReadyToReview(c, s) && ReviewPasses(c, w)
    ensures var t := ApplyAll(s, ToCommit(c, s, w));
      t.finalization.Complete? && t.log == ReplaceLast(c, s.log, ExactRecord(c, w)) && FinalLog(c, t.log)
  {
    var all := ToCommit(c, s, w);
    assert all == all[..4] + all[4..];
    ApplyInTwo(s, all[..4], all[4..]);
    assert all[..4][..3] == all[..3];
    assert ApplyAll(s, all[..4]).log == ReplaceLast(c, s.log, ExactRecord(c, w));
    LogUntouched(ApplyAll(s, all[..4]), all[4..]);
  }

  /** A late raise: the write of COMPLETE raised after it was made, and failing rewrote the log. */
  predicate RewritesFinalLog(w: World, fuel: nat) {
    w.completeWrite.RaisedAfter? && !w.failLog.RaisedBefore? && fuel >= 7
  }

  /** Failing after a late raise got as far as replacing COMPLETE by FAILED. */
  predicate RecordsLateFailure(w: World, fuel: nat) {
    w.completeWrite.RaisedAfter? && WritesFailed(w) && fuel >= 7 + BeforeFailed(w)
  }

  /** COMPLETE is written and stays. */
  ghost predicate StaysComplete(c: Contract, s: State, w: World, fuel: nat) {
    ReachesCommit(c, s, w) && fuel >= 6 && !RecordsLateFailure(w, fuel)
  }

  /** COMPLETE stays over a log that failing has rewritten. */
  ghost predicate BreaksCommit(c: Contract, s: State, w: World, fuel: nat) {
    StaysComplete(c, s, w, fuel) && RewritesFinalLog(w, fuel)
  }

  /**
   When a review invocation leaves COMPLETE, and when it leaves it over another log than the
   final one, by how its world goes and where it dies.
   */
  lemma CompleteMeansFinalLog(c: Contract, s: State, w: World, fuel: nat)
    requires A.Passing(c.final) && s.finalization.NoFile?
    ensures var t := StepTo(c, s, ReviewStep(w, fuel));
      && (t.finalization.Complete? <==> StaysComplete(c, s, w, fuel))
      && (t.finalization.Complete? && !FinalLog(c, t.log) <==> BreaksCommit(c, s, w, fuel))
  {
    var done := Interrupted(ReviewChanges(c, s, w), fuel);
    if !ReachesCommit(c, s, w) {
      OtherwiseNoCommit(c, s, w);
      NothingCompletes(s, done);
    } else {
      ReviewToCommit(c, s, w);
      AfterCommit(c, s, w);
      var all := ToCommit(c, s, w);
      var tail := if w.completeWrite.Written? then [] else FailChanges(c, s, w);
      if fuel < 6 {
        InterruptedEarly(all, tail, fuel);
        NothingCompletes(s, done);
      } else {
        InterruptedLater(all, tail, fuel);
        ApplyInTwo(s, all, Interrupted(tail, fuel - 6));
        AfterLateRaise(c, s, w, fuel, ApplyAll(s, all), Interrupted(tail, fuel - 6));
        StatusAfterLateRaise(c, s, w, fuel, ApplyAll(s, all), Interrupted(tail, fuel - 6));
      }
    }
  }

  /** What failing does to the finalization after the commit was made. */
  lemma StatusAfterLateRaise(c: Contract, s: State, w: World, fuel: nat, t: State, rest: seq<Change>)
    requires ReadyToReview(c, s) && w.review.Some? && t.finalization.Complete? && fuel >= 6
    requires !w.completeWrite.RaisedBefore?
    requires rest == if w.completeWrite.Written? then [] else Interrupted(FailChanges(c, s, w), fuel - 6)
    ensures ApplyAll(t, rest).finalization.Complete? <==> !RecordsLateFailure(w, fuel)
  {
    FailOrder(c, s, w);
    if RecordsLateFailure(w, fuel) {
      LastStatusStands(t, rest);
    } else {
      StatusUntouched(t, rest);
    }
  }

  predicate WritesFailed(w: World) {
    w.failEvidence && !w.failWrite.RaisedBefore?
  }

  /** How many changes failing makes before it records FAILED. */
  function BeforeFailed(w: World): nat {
    (if w.failLog.RaisedBefore? then 0 else 1) + (if w.failUnlink then 1 else 0)
  }

  /** FAILED comes last, if at all. */
  lemma FailOrder(c: Contract, s: State, w: World)
    requires ReadyToReview(c, s) && w.review.Some?
    ensures var changes, n := FailChanges(c, s, w), BeforeFailed(w);
      && |changes| == n + (if WritesFailed(w) then 1 else 0)
      && (WritesFailed(w) ==> changes[n] == SetFinalization(Failed))
      && forall i :: 0 <= i < n ==> !changes[i].SetFinalization?
  {
  }

  lemma LastStatusStands(s: State, changes: seq<Change>)
    requires changes != [] && changes[|changes| - 1].SetFinalization?
    ensures ApplyAll(s, changes).finalization == changes[|changes| - 1].finalization
  {
  }

  lemma InterruptedEarly(a: seq<Change>, b: seq<Change>, fuel: nat)
    requires fuel < |a|
    ensures Interrupted(a + b, fuel) == a[..fuel]
  {
  }

  lemma InterruptedLater(a: seq<Change>, b: seq<Change>, fuel: nat)
    requires |a| <= fuel
    ensures Interrupted(a + b, fuel) == a + Interrupted(b, fuel - |a|)
  {
  }

  /** What failing does to the log after the commit was made. */
  lemma AfterLateRaise(c: Contract, s: State, w: World, fuel: nat, t: State, rest: seq<Change>)
    requires A.Passing(c.final) && ReadyToReview(c, s) && w.review.Some? && FinalLog(c, t.log) && fuel >= 6
    requires !w.completeWrite.RaisedBefore?
    requires rest == if w.completeWrite.Written? then [] else Interrupted(FailChanges(c, s, w), fuel - 6)
    ensures FinalLog(c, ApplyAll(t, rest).log) <==> !RewritesFinalLog(w, fuel)
  {
    if RewritesFinalLog(w, fuel) {
      var failed := ReplaceLast(c, s.log, FailedRecord(c, w));
      assert rest[0] == SetLog(failed);
      assert rest == [rest[0]] + rest[1..];
      ApplyInTwo(t, [rest[0]], rest[1..]);
      assert ApplyAll(t, [rest[0]]).log == failed by {
        assert [rest[0]][..0] == [];
      }
      LogUntouched(ApplyAll(t, [rest[0]]), rest[1..]);
      FailIsNotFinal(c, s, w);
    } else {
      LogUntouched(t, rest);
    }
  }

  lemma FailIsNotFinal(c: Contract, s: State, w: World)
    requires A.Passing(c.final) && ReadyToReview(c, s) && w.review.Some?
    ensures !FinalLog(c, ReplaceLast(c, s.log, FailedRecord(c, w)))
  {
    assert FailedRecord(c, w).result[0] == 'F' && c.final[0] == 'P';
  }

  /** All goes well, but the write of COMPLETE raises after it is made and that of FAILED before. */
  function LateRaise(c: Contract): World {
    World(
      true, A.Written, A.Written, Some(A.Ran(A.Number(true, 1.0), c.review.expectedExit, c.ahead)), true,
      A.Written, true, A.Built, true, A.RaisedAfter, A.Written, true, true, A.RaisedBefore, "late", None, 0, false)
  }

  /** The failing family is not empty: a late raise leaves COMPLETE over a failed log. */
  lemma BrokenCommitHappens(c: Contract, s: State)
    requires A.Passing(c.final) && ReadyToReview(c, s) && A.Passing(c.ahead)
    ensures exists w, fuel :: LeavesFailedLog(c, s, w, fuel)
  {
    CompleteMeansFinalLog(c, s, LateRaise(c), 10);
    assert LeavesFailedLog(c, s, LateRaise(c), 10);
  }

  ghost predicate LeavesFailedLog(c: Contract, s: State, w: World, fuel: nat) {
    var t := StepTo(c, s, ReviewStep(w, fuel));
    t.finalization.Complete? && !FinalLog(c, t.log)
  }

  lemma {:induction false} StatusUntouched(s: State, changes: seq<Change>)
    requires forall i :: 0 <= i < |changes| ==> !changes[i].SetFinalization?
    ensures ApplyAll(s, changes).finalization == s.finalization
  {
    if changes != [] {
      StatusUntouched(s, changes[..|changes| - 1]);
    }
  }

  // ----- COMPLETE over whole runs

  /** Only prepare and review-only invocations. */
  ghost predicate TwoPhase(steps: seq<Step>) {
    forall i :: 0 <= i < |steps| ==> steps[i].PrepareStep? || steps[i].ReviewStep?
  }

  /** No review invocation of the run breaks its commit. */
  ghost predicate NoneBreaks(c: Contract, s: State, steps: seq<Step>) {
    steps != [] ==>
      var n := |steps| - 1;
      && NoneBreaks(c, s, steps[..n])
      && (steps[n].ReviewStep? ==> !BreaksCommit(c, RunTo(c, s, steps[..n]), steps[n].w, steps[n].fuel))
  }

  ghost predicate CompleteIsFinal(c: Contract, s: State) {
    s.finalization.Complete? ==> FinalLog(c, s.log)
  }

  lemma PrepareKeepsStatus(c: Contract, s: State, w: World, fuel: nat)
    ensures var t := StepTo(c, s, PrepareStep(w, fuel));
      t.finalization == s.finalization && (!s.finalization.NoFile? ==> t == s)
  {
    StatusUntouched(s, Interrupted(PrepareChanges(c, s, w), fuel));
  }

  /** Once there is a finalization, neither phase changes anything. */
  lemma PhasesRest(c: Contract, s: State, step: Step)
    requires step.PrepareStep? || step.ReviewStep?
    requires !s.finalization.NoFile?
    ensures StepTo(c, s, step) == s
  {
    if step.PrepareStep? {
      PrepareKeepsStatus(c, s, step.w, step.fuel);
    }
  }

  /**
   Over any run of the two phases, dying anywhere, COMPLETE comes with the final log exactly
   when no invocation of the run broke its commit.
   */
  lemma {:induction false} CompleteRunsAreFinal(c: Contract, s: State, steps: seq<Step>)
    requires A.Passing(c.final) && CompleteIsFinal(c, s) && TwoPhase(steps)
    ensures var t := RunTo(c, s, steps);
      && (t.finalization.NoFile? ==> NoneBreaks(c, s, steps))
      && (t.finalization.Complete? ==> (FinalLog(c, t.log) <==> NoneBreaks(c, s, steps)))
  {
    if steps != [] {
      var n := |steps| - 1;
      CompleteRunsAreFinal(c, s, steps[..n]);
      var u := RunTo(c, s, steps[..n]);
      if !u.finalization.NoFile? {
        PhasesRest(c, u, steps[n]);
      } else {
        match steps[n]
        case PrepareStep(w, fuel) => PrepareKeepsStatus(c, u, w, fuel);
        case ReviewStep(w, fuel) => CompleteMeansFinalLog(c, u, w, fuel);
      }
    }
  }

  /** A run without flags that gets to open the log for writing. */
  predicate RewritesLog(c: Contract, step: Step) {
    step.FullStep? && step.fuel >= 1 && FullChanges(c, step.w) != []
  }

  ghost predicate NeverRewritten(c: Contract, steps: seq<Step>) {
    forall i :: 0 <= i < |steps| ==> !RewritesLog(c, steps[i])
  }

  lemma RewrittenByLast(c: Contract, steps: seq<Step>)
    requires steps != []
    ensures var n := |steps| - 1;
      NeverRewritten(c, steps) <==> NeverRewritten(c, steps[..n]) && !RewritesLog(c, steps[n])
  {
    var n := |steps| - 1;
    assert forall i :: 0 <= i < n ==> steps[..n][i] == steps[i];
  }

  lemma FullRunLog(c: Contract, s: State, w: World, fuel: nat)
    ensures var t := StepTo(c, s, FullStep(w, fuel));
      && t.finalization == s.finalization
      && (if RewritesLog(c, FullStep(w, fuel)) then !FinalLog(c, t.log) else t == s)
  {
    var changes := FullChanges(c, w);
    var done := Interrupted(changes, fuel);
    StatusUntouched(s, done);
    if |done| >= 1 {
      LastLogStands(s, done);
    }
  }

  lemma LastLogStands(s: State, changes: seq<Change>)
    requires changes != [] && changes[|changes| - 1].SetLog?
    ensures ApplyAll(s, changes).log == changes[|changes| - 1].log
  {
  }

  /**
   After a completed finalization nothing but a run without flags can disturb the log: it
   is still the final one exactly when no such run got to rewrite it.
   */
  lemma {:induction false} CompletedLogSurvives(c: Contract, s: State, steps: seq<Step>)
    requires s.finalization.Complete? && FinalLog(c, s.log) && NoDeletion(steps)
    ensures var t := RunTo(c, s, steps);
      && t.finalization.Complete?
      && (FinalLog(c, t.log) <==> NeverRewritten(c, steps))
  {
    if steps != [] {
      var n := |steps| - 1;
      CompletedLogSurvives(c, s, steps[..n]);
      var u := RunTo(c, s, steps[..n]);
      RewrittenByLast(c, steps);
      match steps[n]
      case PrepareStep(w, fuel) => PrepareKeepsStatus(c, u, w, fuel);
      case ReviewStep(w, fuel) =>
      case FullStep(w, fuel) => FullRunLog(c, u, w, fuel);
    }
  }

  /** A run without flags that repeats the first records of this log. */
  function Repeating(c: Contract, log: Log): World
    requires log.Records? && |c.commands| <= |log.records|
  {
    LateRaise(c).(fullRun := Some(log.records[..|c.commands|]))
  }

  /** Over any completed review a run without flags can succeed, and leaves COMPLETE over its own log. */
  lemma FullRunRewritesHappens(c: Contract, s: State)
    requires s.finalization.Complete? && FinalLog(c, s.log)
    ensures exists w :: CoversOtherLog(c, s, w)
  {
    var w := Repeating(c, s.log);
    FullRunLog(c, s, w, 2);
    assert CoversOtherLog(c, s, w);
  }

  /** The run without flags has the results it expects, and COMPLETE stands over another log than the final one. */
  ghost predicate CoversOtherLog(c: Contract, s: State, w: World) {
    var t := StepTo(c, s, FullStep(w, 2));
    t.finalization.Complete? && !FinalLog(c, t.log) && w.fullRun.Some? && AsExpected(c, w.fullRun.value)
  }

  // ----- the two phases in the terms of the log

  /** The records of the commands before the review, each passed as expected. */
  ghost predicate PassedFirst(c: Contract, records: seq<A.Record>) {
    && |records| == |c.commands|
    && forall i: nat :: i < |records| ==>
      && records[i].exactKeys && records[i].command == c.commands[i].display
      && records[i].exitCode == c.commands[i].expectedExit && "PASS:" <= records[i].result
      && records[i].duration.Number? && records[i].duration.finite && records[i].duration.value >= 0.0
  }

  /** Preparing succeeds exactly on such records and without a finalization. */
  lemma PrepareReadyMeans(c: Contract, s: State)
    ensures ReadyToPrepare(c, s) <==> s.log.Records? && PassedFirst(c, s.log.records) && s.finalization == NoFile
  {
  }

  /** The record written ahead of the review. */
  ghost predicate IsAhead(c: Contract, r: A.Record) {
    && r.exactKeys && r.command == c.review.display && r.duration == A.Null && r.exitCode == 0 && r.result == c.ahead
  }

  lemma FirstOf(c: Contract, records: seq<A.Record>)
    requires |records| == |c.commands| + 1
    ensures FirstValid(c, records) <==> PassedFirst(c, records[..|c.commands|])
  {
    var front := records[..|c.commands|];
    assert forall i: nat :: i < |front| ==> front[i] == records[i];
    if FirstValid(c, records) {
      assert forall i: nat :: i < |front| ==> CompletedValid(records[i], c.commands[i]);
    }
  }

  /** The review is run exactly on a log of such records and the one written ahead. */
  lemma ReviewReadyMeans(c: Contract, s: State)
    ensures ReadyToReview(c, s) <==>
      && s.log.Records? && |s.log.records| == |c.commands| + 1 && PassedFirst(c, s.log.records[..|c.commands|])
      && IsAhead(c, s.log.records[|c.commands|]) && s.finalization == NoFile
  {
    if s.log.Records? && |s.log.records| == |c.commands| + 1 {
      FirstOf(c, s.log.records);
    }
  }

  /** A final log: such records, and one of the review with the expected exit and the final text. */
  lemma FinalLogMeans(c: Contract, log: Log)
    ensures FinalLog(c, log) <==>
      && log.Records? && |log.records| == |c.commands| + 1 && PassedFirst(c, log.records[..|c.commands|])
      && var r := log.records[|c.commands|];
      r.exactKeys && r.command == c.review.display && r.exitCode == c.review.expectedExit && r.result == c.final
  {
    if log.Records? && |log.records| == |c.commands| + 1 {
      FirstOf(c, log.records);
    }
  }

  /** The review command exits as expected with a text that passes, and every call around it goes well. */
  ghost predicate GoesWell(c: Contract, w: World) {
    && w.preconditions && w.startWrite == A.Written
    && w.review.Some? && w.review.value.exitCode == c.review.expectedExit && "PASS:" <= w.review.value.result
    && w.exactWrite == A.Written && w.evidence && w.build == A.Built && w.validate && w.completeWrite == A.Written
  }

  lemma PrepareLeads(c: Contract, s: State, w: World)
    requires s.log.Records? && PassedFirst(c, s.log.records) && s.finalization == NoFile
    requires w.placeholderWrite == A.Written
    ensures StepTo(c, s, PrepareStep(w, 1))
         == s.(log := Records(s.log.records + [A.Record(true, c.review.display, A.Null, 0, c.ahead)]))
  {
    PrepareReadyMeans(c, s);
    ApplyAppend(s, [], SetLog(Records(s.log.records + [Placeholder(c)])));
    assert [] + [SetLog(Records(s.log.records + [Placeholder(c)]))]
        == [SetLog(Records(s.log.records + [Placeholder(c)]))];
  }

  lemma PreparedIsReady(c: Contract, s: State, records: seq<A.Record>, r: A.Record)
    requires PassedFirst(c, records) && IsAhead(c, r) && s.log == Records(records + [r]) && s.finalization == NoFile
    ensures ReadyToReview(c, s)
    ensures (records + [r])[..|c.commands|] == records
  {
    assert (records + [r])[..|c.commands|] == records;
    ReviewReadyMeans(c, s);
  }

  lemma SuccessLeads(c: Contract, s: State, w: World)
    requires ReadyToReview(c, s) && GoesWell(c, w)
    ensures var t := StepTo(c, s, ReviewStep(w, 6));
      && t.finalization == Complete && t.archive && t.invoked == s.invoked + 1
      && t.log == Records(s.log.records[..|c.commands|] + [A.Record(
           true, c.review.display, w.review.value.duration, w.review.value.exitCode, c.final)])
  {
    ReviewToCommit(c, s, w);
    var all := ToCommit(c, s, w);
    assert all + [] == all;
    AfterCommit(c, s, w);
    CommitEffects(c, s, w);
  }

  lemma CommitEffects(c: Contract, s: State, w: World)
    requires ReadyToReview(c, s) && w.review.Some?
    ensures var t := ApplyAll(s, ToCommit(c, s, w)); t.archive && t.invoked == s.invoked + 1
  {
    var all := ToCommit(c, s, w);
    var opening := [SetFinalization(Started), InvokeReview];
    assert all == opening + all[2..];
    OpeningState(s);
    ApplyInTwo(s, opening, all[2..]);
    TameChanges(ApplyAll(s, opening), all[2..]);
    assert all[2..] == all[2..4] + [SetArchive(true), SetFinalization(Complete)];
    var u := ApplyAll(ApplyAll(s, opening), all[2..4]);
    ApplyInTwo(ApplyAll(s, opening), all[2..4], [SetArchive(true), SetFinalization(Complete)]);
    ApplyAppend(u, [SetArchive(true)], SetFinalization(Complete));
    ApplyAppend(u, [], SetArchive(true));
    assert [] + [SetArchive(true)] == [SetArchive(true)];
    assert [SetArchive(true)] + [SetFinalization(Complete)] == [SetArchive(true), SetFinalization(Complete)];
  }

  /** From the passed first records the two phases, when everything goes well, lead to COMPLETE with
      an archive, one more invocation, and the record of the review, with its time and the final text. */
  lemma TwoPhasesSucceed(c: Contract, s: State, w: World, v: World)
    requires s.log.Records? && PassedFirst(c, s.log.records) && s.finalization == NoFile
    requires w.placeholderWrite == A.Written && GoesWell(c, v)
    ensures var t := StepTo(c, StepTo(c, s, PrepareStep(w, 1)), ReviewStep(v, 6));
      && t.finalization == Complete && t.archive && t.invoked == s.invoked + 1
      && t.log == Records(s.log.records + [A.Record(
           true, c.review.display, v.review.value.duration, v.review.value.exitCode, c.final)])
  {
    var u := StepTo(c, s, PrepareStep(w, 1));
    PrepareLeads(c, s, w);
    PreparedIsReady(c, u, s.log.records, A.Record(true, c.review.display, A.Null, 0, c.ahead));
    SuccessLeads(c, u, v);
  }

  /** Recording a failure goes well. */
  ghost predicate FailsWell(w: World) {
    w.failLog == A.Written && w.failUnlink && w.failEvidence && w.failWrite == A.Written
  }

  lemma FailureEffects(c: Contract, s: State, w: World)
    requires ReadyToReview(c, s) && w.review.Some? && FailsWell(w)
    ensures FailChanges(c, s, w)
         == [SetLog(ReplaceLast(c, s.log, FailedRecord(c, w))), SetArchive(false), SetFinalization(Failed)]
  {
  }

  lemma ThreeChanges(s: State, x: Change, y: Change, z: Change)
    ensures ApplyAll(s, [x, y, z]) == Apply(Apply(Apply(s, x), y), z)
  {
    ApplyAppend(s, [], x);
    assert [] + [x] == [x];
    ApplyAppend(s, [x], y);
    assert [x] + [y] == [x, y];
    ApplyAppend(s, [x, y], z);
    assert [x, y] + [z] == [x, y, z];
  }

  /** A review that does not exit as expected, or whose text does not pass, leads to FAILED without an
      archive, over the record of the review with its time, its exit code and the reason. */
  lemma FailedReviewLeads(c: Contract, s: State, w: World)
    requires ReadyToReview(c, s) && w.preconditions && w.startWrite == A.Written && FailsWell(w) && w.review.Some?
    requires w.review.value.exitCode != c.review.expectedExit || !("PASS:" <= w.review.value.result)
    ensures StepTo(c, s, ReviewStep(w, 6)) == s.(
      finalization := Failed, archive := false, invoked := s.invoked + 1,
      log := Records(s.log.records[..|c.commands|] + [A.Record(
        true, c.review.display, w.review.value.duration, w.review.value.exitCode, "FAIL: " + w.reason)]))
  {
    var opening := [SetFinalization(Started), InvokeReview, SetArchive(w.reviewLeaves)];
    FailureEffects(c, s, w);
    assert ReviewChanges(c, s, w) == opening + FailChanges(c, s, w);
    ApplyInTwo(s, opening, FailChanges(c, s, w));
    ThreeChanges(s, SetFinalization(Started), InvokeReview, SetArchive(w.reviewLeaves));
    ThreeChanges(ApplyAll(s, opening), SetLog(ReplaceLast(c, s.log, FailedRecord(c, w))), SetArchive(false),
                 SetFinalization(Failed));
  }

  /** A run without flags returns 0 exactly when its commands all ran, exited as expected and passed. */
  lemma ExpectedMeans(c: Contract, records: seq<A.Record>)
    ensures AsExpected(c, records) <==>
      && |records| == |c.commands|
      && forall i: nat :: i < |records| ==>
        records[i].exitCode == c.commands[i].expectedExit && "PASS:" <= records[i].result
  {
  }
}
