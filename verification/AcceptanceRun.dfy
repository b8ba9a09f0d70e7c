/**
 The NRM-006 acceptance run as it goes through its 32 commands, its write-ahead log, the
 guaranteed teardown, and the archive finalization. Every foreign call may fail; `World`
 says how each one goes, and the theorems hold for every world.
 */
module AcceptanceRun {
  import opened NodeIds
  import opened Sorting

  // ----- data model

  datatype Duration = Null | Number(finite: bool, value: real) | NotANumber

  /** A logged record; exactKeys says that it has the four keys and no others. */
  datatype Record = Record(exactKeys: bool, command: string, duration: Duration, exitCode: int, result: string)

  datatype Command = Command(display: string, expectedExit: int)

  /** The commands in order, the list the evidence gate demands, and the fixed result texts. */
  datatype Contract = Contract(
    commands: seq<Command>, mandatory: seq<string>,
    reviewAhead: string, reviewFinal: string, teardownAhead: string, teardownFinal: string)

  datatype Finalization = Absent | Complete | Failed

  /** What a run leaves behind: the command log, the review archive, the finalization file. */
  datatype Disk = Disk(log: Option<seq<Record>>, archive: bool, finalization: Finalization)

  const REVIEW: nat := 30
  const TEARDOWN: nat := 31
  const TOTAL: nat := 32

  predicate Passing(result: string) {
    "PASS:" <= result
  }

  predicate ValidDuration(d: Duration) {
    d.Number? && d.finite && d.value >= 0.0
  }

  // ----- how the foreign calls go

  datatype Ran = Ran(duration: Duration, exitCode: int, result: string)

  /** Deleting the generated outputs; when it raises, any of them may be left. */
  datatype Cleaning = Cleaned | CleanRaised(log: bool, archive: bool, finalization: bool)

  /** An atomic replacement; it can raise before it, or after it while tidying up. */
  datatype Write = Written | RaisedBefore | RaisedAfter

  /** Building the review pack: success leaves the archive, failure may or may not. */
  datatype Build = Built | BuildRaised(leaves: bool)

  datatype World = World(
    clean: Cleaning, archiveFirst: bool, setup: bool,
    runs: nat -> Option<Ran>, reviewLeaves: bool,
    textImport: bool, head: bool, aheadWrite: Write, blocked: bool, digest: bool, blockedAgain: bool,
    teardownImport: bool, logWrite: Write, unlink: bool, failedWrite: Write,
    finalImport: bool, finalHead: bool, complete: bool, finalDigest: bool, completeAgain: bool,
    build: Build, validate: bool, completeWrite: Write, lateUnlink: bool, lateFailedWrite: Write)

  datatype Exit = Code(code: int) | Raised

  // ----- the evidence gate

  predicate RowPasses(c: Contract, index: nat, r: Record) {
    && r.exitCode == 0 && Passing(r.result) && ValidDuration(r.duration)
    && r.result != c.reviewAhead && r.result != c.teardownAhead
    && (index == REVIEW ==> r.result == c.reviewFinal)
    && (index == TEARDOWN ==> r.result == c.teardownFinal)
  }

  predicate InOrder(c: Contract, records: seq<Record>) {
    && |records| == |c.mandatory|
    && forall i :: 0 <= i < |records| ==> records[i].command == c.mandatory[i]
  }

  /** The mandatory records in order, each with the four exact keys. */
  predicate WellFormed(c: Contract, records: seq<Record>) {
    InOrder(c, records) && forall i :: 0 <= i < |records| ==> records[i].exactKeys
  }

  /** The acceptance rows, PASS or not; None when the records are not well formed. */
  method Acceptance(c: Contract, records: seq<Record>) returns (rows: Option<seq<bool>>)
    ensures rows.Some? <==> WellFormed(c, records)
    ensures rows.Some? ==> |rows.value| == |records|
    ensures rows.Some? ==> forall i: nat :: i < |records| ==> rows.value[i] == RowPasses(c, i, records[i])
  {
    if |records| != |c.mandatory| || exists i :: 0 <= i < |records| && records[i].command != c.mandatory[i] {
      return None;
    }
    var result: seq<bool> := [];
    for i := 0 to |records|
      invariant |result| == i
      invariant forall j: nat :: j < i ==> records[j].exactKeys && result[j] == RowPasses(c, j, records[j])
    {
      var r := records[i];
      if !r.exactKeys {
        return None;
      }
      var passed := r.exitCode == 0 && Passing(r.result) && ValidDuration(r.duration)
        && r.result != c.reviewAhead && r.result != c.teardownAhead;
      if i == REVIEW {
        passed := passed && r.result == c.reviewFinal;
      } else if i == TEARDOWN {
        passed := passed && r.result == c.teardownFinal;
      }
      result := result + [passed];
    }
    return Some(result);
  }

  /** All the mandatory records, in order, and each of them passes. */
  predicate AllPass(c: Contract, records: seq<Record>) {
    WellFormed(c, records) && forall i: nat :: i < |records| ==> RowPasses(c, i, records[i])
  }

  // ----- which commands run, and what is recorded of them

  function RecordOf(c: Contract, w: World, i: nat): Record
    requires i < |c.commands| && w.runs(i).Some?
  {
    Record(true, c.commands[i].display, w.runs(i).value.duration, w.runs(i).value.exitCode, w.runs(i).value.result)
  }

  /** The record kept of a command that passed, with its fixed final text. */
  function FinalRecord(c: Contract, w: World, i: nat, text: string): Record
    requires i < |c.commands| && w.runs(i).Some?
  {
    Record(true, c.commands[i].display, w.runs(i).value.duration, 0, text)
  }

  /** The record written before a command has run. */
  function AheadRecord(c: Contract, i: nat, text: string): Record
    requires i < |c.commands|
  {
    Record(true, c.commands[i].display, Null, 0, text)
  }

  predicate CommandPasses(c: Contract, w: World, i: nat)
    requires i < |c.commands|
  {
    w.runs(i).Some? && w.runs(i).value.exitCode == c.commands[i].expectedExit && Passing(w.runs(i).value.result)
  }

  /** The first of the commands from k on that does not pass, or thirty when all of them do. */
  function FirstNotPassing(c: Contract, w: World, k: nat): (r: nat)
    requires |c.commands| == TOTAL && k <= REVIEW
    ensures k <= r <= REVIEW
    ensures forall i: nat :: k <= i < r ==> w.runs(i).Some? && CommandPasses(c, w, i)
    ensures r < REVIEW ==> !CommandPasses(c, w, r)
    decreases REVIEW - k
  {
    if k == REVIEW || !CommandPasses(c, w, k) then k else FirstNotPassing(c, w, k + 1)
  }

  predicate FirstThirtyPass(c: Contract, w: World)
    requires |c.commands| == TOTAL
  {
    FirstNotPassing(c, w, 0) == REVIEW
  }

  /** How many of the first thirty commands run: up to and with the first that does not pass. */
  function RanFirst(c: Contract, w: World): (n: nat)
    requires |c.commands| == TOTAL
    ensures n <= REVIEW
  {
    var j := FirstNotPassing(c, w, 0);
    if j == REVIEW then REVIEW else j + 1
  }

  /** The records of the first n commands; a command that raises leaves none. */
  function Records(c: Contract, w: World, n: nat): seq<Record>
    requires n <= |c.commands|
  {
    if n == 0 then []
    else if w.runs(n - 1).Some? then Records(c, w, n - 1) + [RecordOf(c, w, n - 1)]
    else Records(c, w, n - 1)
  }

  function FirstRecords(c: Contract, w: World): seq<Record>
    requires |c.commands| == TOTAL
  {
    Records(c, w, RanFirst(c, w))
  }

  /** The trace after the first j commands have run in order. */
  function TraceTo(before: seq<nat>, j: nat): seq<nat> {
    if j == 0 then before else TraceTo(before, j - 1) + [j - 1]
  }

  // ----- how far a run gets

  predicate Started(w: World) {
    w.clean.Cleaned? && w.setup
  }

  /** The write-ahead log is about to be written. */
  predicate Opened(c: Contract, w: World)
    requires |c.commands| == TOTAL
  {
    Started(w) && FirstThirtyPass(c, w) && w.textImport && w.head
  }

  ghost predicate DisplaysMatch(c: Contract) {
    |c.mandatory| == |c.commands| && forall i :: 0 <= i < |c.commands| ==> c.commands[i].display == c.mandatory[i]
  }

  /** The write-ahead evidence stands and the review command is run. */
  ghost predicate Announced(c: Contract, w: World)
    requires |c.commands| == TOTAL
  {
    Opened(c, w) && w.aheadWrite.Written? && DisplaysMatch(c) && w.blocked && w.digest && w.blockedAgain
  }

  ghost predicate ReviewRan(c: Contract, w: World)
    requires |c.commands| == TOTAL
  {
    Announced(c, w) && w.runs(REVIEW).Some?
  }

  /** Cleaning, setup, the first thirty commands, the write-ahead evidence and the review go well. */
  ghost predicate Prepared(c: Contract, w: World)
    requires |c.commands| == TOTAL
  {
    ReviewRan(c, w) && w.runs(REVIEW).value.exitCode == 0 && Passing(w.runs(REVIEW).value.result)
  }

  predicate TeardownPasses(w: World) {
    w.runs(TEARDOWN).Some? && w.runs(TEARDOWN).value.exitCode == 0 && Passing(w.runs(TEARDOWN).value.result)
  }

  /** The run gets beyond the teardown. */
  predicate Concludes(w: World) {
    w.runs(TEARDOWN).Some? && (TeardownPasses(w) ==> w.teardownImport)
  }

  // ----- the records a run ends with

  function AheadRecords(c: Contract, w: World): seq<Record>
    requires |c.commands| == TOTAL
  {
    FirstRecords(c, w) + [AheadRecord(c, REVIEW, c.reviewAhead), AheadRecord(c, TEARDOWN, c.teardownAhead)]
  }

  function KeptRecords(c: Contract, w: World): seq<Record>
    requires |c.commands| == TOTAL
  {
    if Started(w) then FirstRecords(c, w) else []
  }

  ghost function ReviewRecord(c: Contract, w: World): Option<Record>
    requires |c.commands| == TOTAL
  {
    if !ReviewRan(c, w) then None
    else if Prepared(c, w) then Some(FinalRecord(c, w, REVIEW, c.reviewFinal))
    else Some(RecordOf(c, w, REVIEW))
  }

  function TeardownRecord(c: Contract, w: World): Record
    requires |c.commands| == TOTAL && Concludes(w)
  {
    if TeardownPasses(w) then FinalRecord(c, w, TEARDOWN, c.teardownFinal) else RecordOf(c, w, TEARDOWN)
  }

  /** The log written after the teardown. */
  ghost function FinalRecords(c: Contract, w: World): seq<Record>
    requires |c.commands| == TOTAL && Concludes(w)
  {
    var review := ReviewRecord(c, w);
    KeptRecords(c, w) + (if review.None? then [] else [review.value]) + [TeardownRecord(c, w)]
  }

  /** What the commands of a run came to: whether the review left a record, whether preparation
      and teardown went well, the records to be logged, and whether they pass the gate. */
  datatype Course = Course(reviewed: bool, sound: bool, records: seq<Record>, passing: bool)

  ghost function CourseOf(c: Contract, w: World): Course
    requires |c.commands| == TOTAL && Concludes(w)
  {
    Course(ReviewRan(c, w), Prepared(c, w) && TeardownPasses(w), FinalRecords(c, w), AllPass(c, FinalRecords(c, w)))
  }

  // ----- the changes of the disk a run makes, in order

  datatype Change =
    | SetLog(log: Option<seq<Record>>)
    | SetArchive(archive: bool)
    | SetFinalization(finalization: Finalization)

  function Apply(s: Disk, c: Change): Disk {
    match c
    case SetLog(log) => s.(log := log)
    case SetArchive(b) => s.(archive := b)
    case SetFinalization(f) => s.(finalization := f)
  }

  function ApplyAll(s: Disk, changes: seq<Change>): Disk {
    if changes == [] then s
    else Apply(ApplyAll(s, changes[..|changes| - 1]), changes[|changes| - 1])
  }

  function When(b: bool, c: Change): seq<Change> {
    if b then [c] else []
  }

  /** A write changes the disk unless it raises before. */
  function IfWritten(w: Write, c: Change): seq<Change> {
    When(!w.RaisedBefore?, c)
  }

  /** The log is deleted first; the two files of the other directory come in either order. */
  function CleanChanges(w: World): seq<Change> {
    When(w.clean.Cleaned? || !w.clean.log, SetLog(None)) + CleanPackChanges(w)
  }

  function CleanPackChanges(w: World): seq<Change> {
    var archive := When(w.clean.Cleaned? || !w.clean.archive, SetArchive(false));
    var finalization := When(w.clean.Cleaned? || !w.clean.finalization, SetFinalization(Absent));
    if w.archiveFirst then archive + finalization else finalization + archive
  }

  /** From the write-ahead log to the review command, which may leave an archive. */
  ghost function AnnounceChanges(c: Contract, w: World): seq<Change>
    requires |c.commands| == TOTAL
  {
    if !Opened(c, w) then []
    else
      IfWritten(w.aheadWrite, SetLog(Some(AheadRecords(c, w))))
      + When(Announced(c, w), SetArchive(w.reviewLeaves))
  }

  /** Giving up: the archive goes first, then the failure is recorded. */
  function AbandonChanges(unlink: bool, write: Write): seq<Change> {
    if unlink then [SetArchive(false)] + IfWritten(write, SetFinalization(Failed)) else []
  }

  function FinalizeChanges(w: World, k: Course): seq<Change> {
    if !Building(w, k) then []
    else if w.build.BuildRaised? then [SetArchive(w.build.leaves)]
    else [SetArchive(true)] + if w.validate then IfWritten(w.completeWrite, SetFinalization(Complete)) else []
  }

  /** What follows the write of the final log. */
  function LoggedChanges(w: World, k: Course): seq<Change> {
    if !w.logWrite.Written? then []
    else if !k.reviewed then When(w.unlink, SetArchive(false))
    else if !k.sound then AbandonChanges(w.unlink, w.failedWrite)
    else
      FinalizeChanges(w, k)
      + if CommitsCleanly(w, k) then [] else AbandonChanges(w.lateUnlink, w.lateFailedWrite)
  }

  function ConcludeChanges(w: World, k: Course): seq<Change> {
    IfWritten(w.logWrite, SetLog(Some(k.records))) + LoggedChanges(w, k)
  }

  /** All changes of a run that found its tools. */
  ghost function RunChanges(c: Contract, w: World): seq<Change>
    requires |c.commands| == TOTAL
  {
    CleanChanges(w) + AnnounceChanges(c, w) + if Concludes(w) then ConcludeChanges(w, CourseOf(c, w)) else []
  }

  lemma ApplyAppend(s: Disk, changes: seq<Change>, c: Change)
    ensures ApplyAll(s, changes + [c]) == Apply(ApplyAll(s, changes), c)
  {
    assert (changes + [c])[..|changes|] == changes;
  }

  lemma {:induction false} ApplyInTwo(s: Disk, a: seq<Change>, b: seq<Change>)
    ensures ApplyAll(s, a + b) == ApplyAll(ApplyAll(s, a), b)
  {
    if b == [] {
      assert a + b == a;
    } else {
      var n := |b| - 1;
      assert (a + b)[..|a| + n] == a + b[..n];
      ApplyInTwo(s, a, b[..n]);
    }
  }

  lemma ApplyWhen(s: Disk, b: bool, c: Change)
    ensures ApplyAll(s, When(b, c)) == if b then Apply(s, c) else s
  {
    assert [c][..0] == [];
  }

  // ----- what a run leaves on the disk

  function AfterClean(w: World, s: Disk): Disk {
    match w.clean
    case Cleaned => Disk(None, false, Absent)
    case CleanRaised(keepLog, keepArchive, keepFinalization) =>
      Disk(if keepLog then s.log else None, keepArchive && s.archive,
           if keepFinalization then s.finalization else Absent)
  }

  ghost function AfterPrepare(c: Contract, w: World, s: Disk): Disk
    requires |c.commands| == TOTAL
  {
    if !Opened(c, w) then AfterClean(w, s)
    else
      Disk(if w.aheadWrite.RaisedBefore? then None else Some(AheadRecords(c, w)),
           Announced(c, w) && w.reviewLeaves, Absent)
  }

  /** Giving up: the archive goes first, then the failure is recorded. */
  function AfterAbandon(s: Disk, unlink: bool, write: Write): Disk {
    if !unlink then s
    else s.(archive := false, finalization := if write.RaisedBefore? then s.finalization else Failed)
  }

  /** The evidence is complete and the archive is about to be built. */
  predicate Building(w: World, k: Course) {
    w.finalImport && w.finalHead && k.passing && w.complete && w.finalDigest && w.completeAgain
  }

  /** The commit itself, the write of COMPLETE, is reached. */
  predicate Committing(w: World, k: Course) {
    k.sound && w.logWrite.Written? && Building(w, k) && w.build.Built? && w.validate
  }

  function AfterFinalize(w: World, k: Course, s: Disk): Disk {
    if !Building(w, k) then s
    else if w.build.BuildRaised? then s.(archive := w.build.leaves)
    else if !w.validate then s.(archive := true)
    else s.(archive := true, finalization := if w.completeWrite.RaisedBefore? then s.finalization else Complete)
  }

  function AfterConclude(w: World, k: Course, s: Disk): Disk {
    var logged := if w.logWrite.RaisedBefore? then s else s.(log := Some(k.records));
    if !w.logWrite.Written? then logged
    else if !k.reviewed then logged.(archive := logged.archive && !w.unlink)
    else if !k.sound then AfterAbandon(logged, w.unlink, w.failedWrite)
    else if CommitsCleanly(w, k) then AfterFinalize(w, k, logged)
    else AfterAbandon(AfterFinalize(w, k, logged), w.lateUnlink, w.lateFailedWrite)
  }

  /** The disk at the end of a run that found its tools. */
  ghost function EndState(c: Contract, w: World, s: Disk): Disk
    requires |c.commands| == TOTAL
  {
    if Concludes(w) then AfterConclude(w, CourseOf(c, w), AfterPrepare(c, w, s)) else AfterPrepare(c, w, s)
  }

  // ----- how a run exits

  predicate CommitsCleanly(w: World, k: Course) {
    Building(w, k) && w.build.Built? && w.validate && w.completeWrite.Written?
  }

  predicate ConcludesWithZero(w: World, k: Course) {
    w.logWrite.Written? && k.reviewed && k.sound && CommitsCleanly(w, k)
  }

  predicate ConcludesWithOne(w: World, k: Course) {
    && w.logWrite.Written?
    && if !k.reviewed then w.unlink
       else if !k.sound then w.unlink && w.failedWrite.Written?
       else !CommitsCleanly(w, k) && w.lateUnlink && w.lateFailedWrite.Written?
  }

  /** The worlds in which a run returns 0. */
  ghost predicate ReturnsZero(c: Contract, w: World)
    requires |c.commands| == TOTAL
  {
    Concludes(w) && ConcludesWithZero(w, CourseOf(c, w))
  }

  /** The worlds in which it returns 1; in every other one it raises. */
  ghost predicate ReturnsOne(c: Contract, w: World)
    requires |c.commands| == TOTAL
  {
    Concludes(w) && ConcludesWithOne(w, CourseOf(c, w))
  }

  class Repository {
    var disk: Disk
    ghost var trace: seq<nat>
    ghost var origin: Disk
    ghost var made: seq<Change>

    /** The disk is the original one with the changes made so far, in their order. */
    ghost predicate Valid()
      reads this
    {
      disk == ApplyAll(origin, made)
    }

    constructor (disk: Disk)
      ensures Valid() && this.disk == disk && trace == [] && made == []
    {
      this.disk, origin := disk, disk;
      trace, made := [], [];
    }

    method Do(c: Change)
      requires Valid()
      modifies this`disk, this`made
      ensures Valid() && disk == Apply(old(disk), c)
      ensures made == old(made) + [c]
    {
      ApplyAppend(origin, made, c);
      disk, made := Apply(disk, c), made + [c];
    }

    method DoWhen(b: bool, c: Change)
      requires Valid()
      modifies this`disk, this`made
      ensures Valid() && disk == if b then Apply(old(disk), c) else old(disk)
      ensures made == old(made) + When(b, c)
    {
      if b {
        Do(c);
      }
    }

    method DoTwo(a: bool, x: Change, b: bool, y: Change)
      requires Valid()
      modifies this`disk, this`made
      ensures Valid() && made == old(made) + (When(a, x) + When(b, y))
    {
      ConcatAssociates(made, When(a, x), When(b, y));
      DoWhen(a, x);
      DoWhen(b, y);
    }

    /** Delete the generated outputs; when it raises, any of them may be left. */
    method Clean(w: World) returns (ok: bool)
      requires Valid()
      modifies this`disk, this`made
      ensures Valid() && (ok <==> w.clean.Cleaned?)
      ensures made == old(made) + CleanChanges(w)
    {
      ok := w.clean.Cleaned?;
      var log, archive, finalization := ok || !w.clean.log, ok || !w.clean.archive, ok || !w.clean.finalization;
      ConcatAssociates(made, When(log, SetLog(None)), CleanPackChanges(w));
      DoWhen(log, SetLog(None));
      if w.archiveFirst {
        DoTwo(archive, SetArchive(false), finalization, SetFinalization(Absent));
      } else {
        DoTwo(finalization, SetFinalization(Absent), archive, SetArchive(false));
      }
    }

    /** Run one command. */
    method RunCommand(c: Contract, w: World, i: nat) returns (r: Option<Record>)
      requires i < |c.commands|
      modifies this`trace
      ensures trace == old(trace) + [i]
      ensures r == if w.runs(i).Some? then Some(RecordOf(c, w, i)) else None
    {
      trace := trace + [i];
      r := if w.runs(i).Some? then Some(RecordOf(c, w, i)) else None;
    }

    /** Replace the log or the finalization file. */
    method Replace(change: Change, outcome: Write) returns (ok: bool)
      requires Valid()
      modifies this`disk, this`made
      ensures Valid() && (ok <==> outcome.Written?)
      ensures disk == if outcome.RaisedBefore? then old(disk) else Apply(old(disk), change)
      ensures made == old(made) + IfWritten(outcome, change)
    {
      DoWhen(!outcome.RaisedBefore?, change);
      ok := outcome.Written?;
    }

    /** Generating evidence reads the log back; the remaining gates are the world's. */
    method Generate(c: Contract, complete: bool, rest: bool) returns (ok: bool)
      ensures ok <==>
        disk.log.Some? && WellFormed(c, disk.log.value) && rest && (complete ==> AllPass(c, disk.log.value))
    {
      if disk.log.None? {
        return false;
      }
      var rows := Acceptance(c, disk.log.value);
      if rows.None? || !rest {
        return false;
      }
      return !complete || forall i :: 0 <= i < |rows.value| ==> rows.value[i];
    }

    /** The first thirty commands, up to and with the first that does not pass. */
    method RunFirst(c: Contract, w: World) returns (records: seq<Record>, passed: bool)
      requires |c.commands| == TOTAL
      modifies this`trace
      ensures trace == TraceTo(old(trace), RanFirst(c, w))
      ensures records == FirstRecords(c, w)
      ensures passed <==> FirstThirtyPass(c, w)
    {
      records, passed := [], true;
      for i := 0 to REVIEW
        invariant AllPassedSoFar(c, w, i, old(trace), trace, records)
      {
        records, passed := RunOne(c, w, i, records, old(trace));
        if !passed {
          return;
        }
      }
    }

    method RunOne(c: Contract, w: World, i: nat, records: seq<Record>, ghost before: seq<nat>)
      returns (more: seq<Record>, passed: bool)
      requires |c.commands| == TOTAL && i < REVIEW && AllPassedSoFar(c, w, i, before, trace, records)
      modifies this`trace
      ensures
        if passed then AllPassedSoFar(c, w, i + 1, before, trace, more)
        else StoppedFirst(c, w, before, trace, more)
    {
      FirstStep(c, w, i, before, trace, records);
      var r := RunCommand(c, w, i);
      passed := r.Some? && r.value.exitCode == c.commands[i].expectedExit && Passing(r.value.result);
      more := if r.Some? then records + [r.value] else records;
    }

    /** The guarded part of the run: everything before the teardown. */
    method Prepare(c: Contract, w: World) returns (records: seq<Record>, review: Option<Record>, failure: bool)
      requires |c.commands| == TOTAL && Valid()
      modifies this`disk, this`made, this`trace
      ensures Valid() && made == old(made) + (CleanChanges(w) + AnnounceChanges(c, w))
      ensures trace == TraceTo(old(trace), RanBefore(c, w))
      ensures records == KeptRecords(c, w) && review == ReviewRecord(c, w)
      ensures failure <==> !Prepared(c, w)
    {
      ConcatAssociates(made, CleanChanges(w), AnnounceChanges(c, w));
      var ok;
      records, ok := Open(c, w);
      if !ok {
        return records, None, true;
      }
      review, failure := AnnounceAndReview(c, w, records);
    }

    /** Clean, set up and run the first thirty commands. */
    method Open(c: Contract, w: World) returns (records: seq<Record>, ok: bool)
      requires |c.commands| == TOTAL && Valid()
      modifies this`disk, this`made, this`trace
      ensures Valid() && made == old(made) + CleanChanges(w)
      ensures trace == if Started(w) then TraceTo(old(trace), RanFirst(c, w)) else old(trace)
      ensures records == KeptRecords(c, w)
      ensures ok <==> Opened(c, w)
    {
      ok := Clean(w);
      if !ok || !w.setup {
        return [], false;
      }
      records, ok := RunStarted(c, w);
    }

    method RunStarted(c: Contract, w: World) returns (records: seq<Record>, ok: bool)
      requires |c.commands| == TOTAL && Started(w)
      modifies this`trace
      ensures trace == TraceTo(old(trace), RanFirst(c, w))
      ensures records == FirstRecords(c, w)
      ensures ok <==> Opened(c, w)
    {
      records, ok := RunFirst(c, w);
      ok := ok && w.textImport && w.head;
    }

    /** Run the review command, which may leave an archive whatever its outcome. */
    method Review(c: Contract, w: World) returns (review: Option<Record>, failure: bool)
      requires |c.commands| == TOTAL && Valid() && Announced(c, w)
      modifies this`disk, this`made, this`trace
      ensures Valid() && made == old(made) + [SetArchive(w.reviewLeaves)] && trace == old(trace) + [REVIEW]
      ensures review == ReviewRecord(c, w) && (failure <==> !Prepared(c, w))
    {
      review := RunCommand(c, w, REVIEW);
      Do(SetArchive(w.reviewLeaves));
      failure := review.None? || review.value.exitCode != 0 || !Passing(review.value.result);
      if !failure {
        review := Some(FinalRecord(c, w, REVIEW, c.reviewFinal));
      }
    }

    /** Write ahead, then review. */
    method AnnounceAndReview(c: Contract, w: World, records: seq<Record>)
      returns (review: Option<Record>, failure: bool)
      requires |c.commands| == TOTAL && Valid() && Opened(c, w) && records == FirstRecords(c, w)
      modifies this`disk, this`made, this`trace
      ensures Valid() && made == old(made) + AnnounceChanges(c, w)
      ensures trace == if Announced(c, w) then old(trace) + [REVIEW] else old(trace)
      ensures review == ReviewRecord(c, w) && (failure <==> !Prepared(c, w))
    {
      var announced := Announce(c, w, records);
      if !announced {
        return None, true;
      }
      ConcatAssociates(old(made), IfWritten(w.aheadWrite, SetLog(Some(AheadRecords(c, w)))),
                       [SetArchive(w.reviewLeaves)]);
      review, failure := Review(c, w);
    }

    /** Write the log ahead of the last two commands, and the evidence of an unfinished run. */
    method Announce(c: Contract, w: World, records: seq<Record>) returns (ok: bool)
      requires |c.commands| == TOTAL && Valid() && Opened(c, w) && records == FirstRecords(c, w)
      modifies this`disk, this`made
      ensures Valid() && made == old(made) + IfWritten(w.aheadWrite, SetLog(Some(AheadRecords(c, w))))
      ensures ok <==> Announced(c, w)
    {
      var ahead := records + [AheadRecord(c, REVIEW, c.reviewAhead), AheadRecord(c, TEARDOWN, c.teardownAhead)];
      ok := Replace(SetLog(Some(ahead)), w.aheadWrite);
      if !ok {
        return;
      }
      OrderOfDisplays(c, w);
      ok := Generate(c, false, w.blocked);
      if !ok || !w.digest {
        return false;
      }
      ok := Generate(c, false, w.blockedAgain);
    }

    /** The finalization proper: evidence, archive, validation, commit. */
    method Finalize(c: Contract, w: World, ghost k: Course) returns (ok: bool)
      requires Valid() && disk.log == Some(k.records) && k.passing == AllPass(c, k.records)
      modifies this`disk, this`made
      ensures Valid() && (ok <==> CommitsCleanly(w, k))
      ensures made == old(made) + FinalizeChanges(w, k)
    {
      ok := CompleteEvidence(c, w, k);
      if !ok {
        return;
      }
      if w.build.BuildRaised? {
        Do(SetArchive(w.build.leaves));
        return false;
      }
      Do(SetArchive(true));
      if !w.validate {
        return false;
      }
      ok := Replace(SetFinalization(Complete), w.completeWrite);
    }

    method CompleteEvidence(c: Contract, w: World, ghost k: Course) returns (ok: bool)
      requires disk.log == Some(k.records) && k.passing == AllPass(c, k.records)
      ensures ok <==> Building(w, k)
    {
      if !w.finalImport || !w.finalHead {
        return false;
      }
      ok := Generate(c, true, w.complete);
      if !ok || !w.finalDigest {
        return false;
      }
      ok := Generate(c, true, w.completeAgain);
    }

    /** Remove the archive and record the failure. */
    method Abandon(unlink: bool, write: Write) returns (exit: Exit)
      requires Valid()
      modifies this`disk, this`made
      ensures Valid() && exit == if unlink && write.Written? then Code(1) else Raised
      ensures made == old(made) + AbandonChanges(unlink, write)
    {
      if !unlink {
        return Raised;
      }
      Do(SetArchive(false));
      var ok := Replace(SetFinalization(Failed), write);
      exit := if ok then Code(1) else Raised;
    }

    /** What follows the teardown: the final log, and then success or failure. */
    method Conclude(c: Contract, w: World, final: seq<Record>, reviewed: bool, failure: bool, ghost k: Course)
      returns (exit: Exit)
      requires Valid() && k == Course(reviewed, !failure, final, AllPass(c, final))
      modifies this`disk, this`made
      ensures exit ==
        if ConcludesWithZero(w, k) then Code(0) else if ConcludesWithOne(w, k) then Code(1) else Raised
      ensures Valid() && made == old(made) + ConcludeChanges(w, k)
    {
      ConcatAssociates(made, IfWritten(w.logWrite, SetLog(Some(final))), LoggedChanges(w, k));
      var ok := Replace(SetLog(Some(final)), w.logWrite);
      if !ok {
        return Raised;
      }
      exit := ConcludeLogged(c, w, reviewed, failure, k);
    }

    method ConcludeLogged(c: Contract, w: World, reviewed: bool, failure: bool, ghost k: Course)
      returns (exit: Exit)
      requires Valid() && w.logWrite.Written? && disk.log == Some(k.records) && k.passing == AllPass(c, k.records)
      requires k.reviewed == reviewed && k.sound == !failure
      modifies this`disk, this`made
      ensures exit ==
        if ConcludesWithZero(w, k) then Code(0) else if ConcludesWithOne(w, k) then Code(1) else Raised
      ensures Valid() && made == old(made) + LoggedChanges(w, k)
    {
      if !reviewed {
        DoWhen(w.unlink, SetArchive(false));
        return if w.unlink then Code(1) else Raised;
      }
      if failure {
        exit := Abandon(w.unlink, w.failedWrite);
        return;
      }
      ConcatAssociates(made, FinalizeChanges(w, k), AbandonChanges(w.lateUnlink, w.lateFailedWrite));
      var ok := Finalize(c, w, k);
      if ok {
        return Code(0);
      }
      exit := Abandon(w.lateUnlink, w.lateFailedWrite);
    }

    /**
     A whole run. Past the tool lookup the teardown runs exactly once and last, after a prefix
     of the other commands that ends at the first that does not pass. The exit and the changes
     of the disk, one by one, are fixed in every world; the lemmas below say what they mean.
     */
    method Run(c: Contract, w: World, toolsFound: bool) returns (exit: Exit)
      requires |c.commands| == TOTAL && Valid()
      modifies this`disk, this`made, this`trace
      ensures exit ==
        if !toolsFound then Code(2)
        else if ReturnsZero(c, w) then Code(0)
        else if ReturnsOne(c, w) then Code(1)
        else Raised
      ensures Valid() && made == old(made) + if toolsFound then RunChanges(c, w) else []
      ensures disk == if toolsFound then EndState(c, w, old(disk)) else old(disk)
      ensures trace == if !toolsFound then old(trace) else TraceTo(old(trace), RanBefore(c, w)) + [TEARDOWN]
    {
      if !toolsFound {
        return Code(2);
      }
      exit := RunCommands(c, w);
      ApplyInTwo(origin, old(made), RunChanges(c, w));
      ChangesEnd(c, w, old(disk));
    }

    method RunCommands(c: Contract, w: World) returns (exit: Exit)
      requires |c.commands| == TOTAL && Valid()
      modifies this`disk, this`made, this`trace
      ensures exit == if ReturnsZero(c, w) then Code(0) else if ReturnsOne(c, w) then Code(1) else Raised
      ensures Valid() && made == old(made) + RunChanges(c, w)
      ensures trace == TraceTo(old(trace), RanBefore(c, w)) + [TEARDOWN]
    {
      ghost var before, prepared := made, CleanChanges(w) + AnnounceChanges(c, w);
      var records, review, failure := Prepare(c, w);
      var teardown, failed := Teardown(c, w);
      if teardown.None? {
        assert RunChanges(c, w) == prepared;
        return Raised;
      }
      ConcatAssociates(before, prepared, ConcludeChanges(w, CourseOf(c, w)));
      exit := LogAndConclude(c, w, records, review, teardown.value, failure || failed);
    }

    method LogAndConclude(c: Contract, w: World, records: seq<Record>, review: Option<Record>, teardown: Record,
                          failure: bool) returns (exit: Exit)
      requires |c.commands| == TOTAL && Valid() && Concludes(w)
      requires records == KeptRecords(c, w) && review == ReviewRecord(c, w) && teardown == TeardownRecord(c, w)
      requires failure <==> !(Prepared(c, w) && TeardownPasses(w))
      modifies this`disk, this`made
      ensures exit == if ReturnsZero(c, w) then Code(0) else if ReturnsOne(c, w) then Code(1) else Raised
      ensures Valid() && made == old(made) + ConcludeChanges(w, CourseOf(c, w))
    {
      var final := records + (if review.None? then [] else [review.value]) + [teardown];
      ghost var k := CourseOf(c, w);
      assert k == Course(review.Some?, !failure, final, AllPass(c, final));
      exit := Conclude(c, w, final, review.Some?, failure, k);
    }

    /** The teardown, which runs whatever happened before; None when it or its import raises. */
    method Teardown(c: Contract, w: World) returns (r: Option<Record>, failed: bool)
      requires |c.commands| == TOTAL
      modifies this`trace
      ensures trace == old(trace) + [TEARDOWN]
      ensures r == if Concludes(w) then Some(TeardownRecord(c, w)) else None
      ensures failed <==> !TeardownPasses(w)
    {
      r := RunCommand(c, w, TEARDOWN);
      failed := r.None? || r.value.exitCode != 0 || !Passing(r.value.result);
      if !failed {
        r := if w.teardownImport then Some(FinalRecord(c, w, TEARDOWN, c.teardownFinal)) else None;
      }
    }
  }

  // ----- the changes lead to the closed form

  lemma CleanEnd(w: World, s: Disk)
    ensures ApplyAll(s, CleanChanges(w)) == AfterClean(w, s)
  {
    var log, archive, finalization :=
      w.clean.Cleaned? || !w.clean.log, w.clean.Cleaned? || !w.clean.archive, w.clean.Cleaned? || !w.clean.finalization;
    ApplyWhen(s, log, SetLog(None));
    var t := ApplyAll(s, When(log, SetLog(None)));
    ApplyInTwo(s, When(log, SetLog(None)), CleanPackChanges(w));
    TwoEnd(t, archive, SetArchive(false), finalization, SetFinalization(Absent));
    TwoEnd(t, finalization, SetFinalization(Absent), archive, SetArchive(false));
  }

  lemma TwoEnd(s: Disk, a: bool, x: Change, b: bool, y: Change)
    ensures ApplyAll(s, When(a, x) + When(b, y)) ==
      var t := if a then Apply(s, x) else s;
      if b then Apply(t, y) else t
  {
    ApplyInTwo(s, When(a, x), When(b, y));
    ApplyWhen(s, a, x);
    ApplyWhen(ApplyAll(s, When(a, x)), b, y);
  }

  lemma PrepareEnd(c: Contract, w: World, s: Disk)
    requires |c.commands| == TOTAL
    ensures ApplyAll(s, CleanChanges(w) + AnnounceChanges(c, w)) == AfterPrepare(c, w, s)
  {
    ApplyInTwo(s, CleanChanges(w), AnnounceChanges(c, w));
    CleanEnd(w, s);
    TwoEnd(AfterClean(w, s), !w.aheadWrite.RaisedBefore?, SetLog(Some(AheadRecords(c, w))),
           Announced(c, w), SetArchive(w.reviewLeaves));
  }

  lemma AbandonEnd(s: Disk, unlink: bool, write: Write)
    ensures ApplyAll(s, AbandonChanges(unlink, write)) == AfterAbandon(s, unlink, write)
  {
    TwoEnd(s, true, SetArchive(false), !write.RaisedBefore?, SetFinalization(Failed));
  }

  lemma FinalizeEnd(w: World, k: Course, s: Disk)
    ensures ApplyAll(s, FinalizeChanges(w, k)) == AfterFinalize(w, k, s)
  {
    ApplyWhen(s, true, SetArchive(w.build.Built? || w.build.leaves));
    ApplyWhen(s, true, SetArchive(true));
    TwoEnd(s, true, SetArchive(true), w.validate && !w.completeWrite.RaisedBefore?, SetFinalization(Complete));
  }

  lemma ConcludeEnd(w: World, k: Course, s: Disk)
    ensures ApplyAll(s, ConcludeChanges(w, k)) == AfterConclude(w, k, s)
  {
    var logged := if w.logWrite.RaisedBefore? then s else s.(log := Some(k.records));
    ApplyInTwo(s, IfWritten(w.logWrite, SetLog(Some(k.records))), LoggedChanges(w, k));
    ApplyWhen(s, !w.logWrite.RaisedBefore?, SetLog(Some(k.records)));
    ApplyWhen(logged, w.unlink, SetArchive(false));
    AbandonEnd(logged, w.unlink, w.failedWrite);
    FinalizeEnd(w, k, logged);
    ApplyInTwo(logged, FinalizeChanges(w, k), AbandonChanges(w.lateUnlink, w.lateFailedWrite));
    AbandonEnd(AfterFinalize(w, k, logged), w.lateUnlink, w.lateFailedWrite);
    assert FinalizeChanges(w, k) + [] == FinalizeChanges(w, k);
  }

  /** A run that is not interrupted ends in the state given for it. */
  lemma ChangesEnd(c: Contract, w: World, s: Disk)
    requires |c.commands| == TOTAL
    ensures ApplyAll(s, RunChanges(c, w)) == EndState(c, w, s)
  {
    var prepared := CleanChanges(w) + AnnounceChanges(c, w);
    PrepareEnd(c, w, s);
    if Concludes(w) {
      ApplyInTwo(s, prepared, ConcludeChanges(w, CourseOf(c, w)));
      ConcludeEnd(w, CourseOf(c, w), AfterPrepare(c, w, s));
    } else {
      assert prepared + [] == prepared;
    }
  }

  /** How many commands run before the teardown. */
  ghost function RanBefore(c: Contract, w: World): (n: nat)
    requires |c.commands| == TOTAL
    ensures n <= TEARDOWN
  {
    if !Started(w) then 0 else if Announced(c, w) then TEARDOWN else RanFirst(c, w)
  }

  /** The first i of the first thirty commands ran and passed. */
  ghost predicate AllPassedSoFar(c: Contract, w: World, i: nat, before: seq<nat>, trace: seq<nat>, records: seq<Record>)
    requires |c.commands| == TOTAL && i <= REVIEW
  {
    && FirstNotPassing(c, w, 0) == FirstNotPassing(c, w, i)
    && trace == TraceTo(before, i) && records == Records(c, w, i)
  }

  /** One of them did not pass, and none ran after it. */
  ghost predicate StoppedFirst(c: Contract, w: World, before: seq<nat>, trace: seq<nat>, records: seq<Record>)
    requires |c.commands| == TOTAL
  {
    !FirstThirtyPass(c, w) && trace == TraceTo(before, RanFirst(c, w)) && records == FirstRecords(c, w)
  }

  lemma FirstStep(c: Contract, w: World, i: nat, before: seq<nat>, trace: seq<nat>, records: seq<Record>)
    requires |c.commands| == TOTAL && i < REVIEW && AllPassedSoFar(c, w, i, before, trace, records)
    ensures CommandPasses(c, w, i) ==>
      AllPassedSoFar(c, w, i + 1, before, trace + [i], records + [RecordOf(c, w, i)])
    ensures !CommandPasses(c, w, i) ==>
      StoppedFirst(c, w, before, trace + [i], if w.runs(i).Some? then records + [RecordOf(c, w, i)] else records)
  {
  }

  lemma {:induction false} RecordAt(c: Contract, w: World, n: nat, i: nat)
    requires i < n <= |c.commands| && forall j: nat :: j < n ==> w.runs(j).Some?
    ensures |Records(c, w, n)| == n && Records(c, w, n)[i] == RecordOf(c, w, i)
  {
    if i < n - 1 {
      RecordAt(c, w, n - 1, i);
    } else if n > 1 {
      RecordAt(c, w, n - 1, 0);
    }
  }

  lemma FirstRecordAt(c: Contract, w: World, i: nat)
    requires |c.commands| == TOTAL && FirstThirtyPass(c, w) && i < REVIEW
    ensures w.runs(i).Some? && CommandPasses(c, w, i)
    ensures |FirstRecords(c, w)| == REVIEW && FirstRecords(c, w)[i] == RecordOf(c, w, i)
  {
    RecordAt(c, w, REVIEW, i);
  }

  lemma OrderOfDisplays(c: Contract, w: World)
    requires |c.commands| == TOTAL && FirstThirtyPass(c, w)
    ensures WellFormed(c, AheadRecords(c, w)) <==> DisplaysMatch(c)
  {
    var all := AheadRecords(c, w);
    FirstRecordAt(c, w, 0);
    forall i: nat | i < TOTAL ensures all[i].exactKeys && all[i].command == c.commands[i].display {
      if i < REVIEW {
        FirstRecordAt(c, w, i);
        assert all[i] == FirstRecords(c, w)[i];
      }
    }
  }

  // ----- what the exits mean

  /** Returning 0: 32 ordered passing records, none of them written ahead, archive, COMPLETE. */
  lemma ZeroMeans(c: Contract, w: World, s: Disk)
    requires |c.commands| == TOTAL && ReturnsZero(c, w)
    ensures EndState(c, w, s) == Disk(Some(FinalRecords(c, w)), true, Complete)
    ensures |FinalRecords(c, w)| == TOTAL && AllPass(c, FinalRecords(c, w))
    ensures !ReturnsOne(c, w) && RanBefore(c, w) == TEARDOWN
  {
    ThirtyTwoRecords(c, w);
  }

  lemma ThirtyTwoRecords(c: Contract, w: World)
    requires |c.commands| == TOTAL && Prepared(c, w) && Concludes(w)
    ensures |FinalRecords(c, w)| == TOTAL
    ensures forall i: nat :: i < REVIEW ==> FinalRecords(c, w)[i] == FirstRecords(c, w)[i]
    ensures FinalRecords(c, w)[REVIEW] == FinalRecord(c, w, REVIEW, c.reviewFinal)
    ensures FinalRecords(c, w)[TEARDOWN] == TeardownRecord(c, w)
  {
    FirstRecordAt(c, w, 0);
  }

  /** The initial cleaning raised and left an old COMPLETE. */
  predicate StaleComplete(w: World, s: Disk) {
    w.clean.CleanRaised? && w.clean.finalization && s.finalization.Complete?
  }

  predicate OutlivesCommit(w: World, k: Course) {
    Committing(w, k) && w.completeWrite.RaisedAfter? && !(w.lateUnlink && !w.lateFailedWrite.RaisedBefore?)
  }

  /** The commit raised after it was made, and the failure could not be recorded over it. */
  ghost predicate CommitOutlives(c: Contract, w: World)
    requires |c.commands| == TOTAL
  {
    Concludes(w) && CourseOf(c, w).reviewed && OutlivesCommit(w, CourseOf(c, w))
  }

  /** Returning 1 leaves no archive, and COMPLETE exactly when a raising cleaning left an old one. */
  lemma OneMeans(c: Contract, w: World, s: Disk)
    requires |c.commands| == TOTAL && ReturnsOne(c, w)
    ensures var t := EndState(c, w, s);
      && !t.archive && t.log == Some(FinalRecords(c, w))
      && (t.finalization.Complete? <==> StaleComplete(w, s))
  {
    BeforeTeardown(c, w, s);
    ConcludedWithOne(w, CourseOf(c, w), AfterPrepare(c, w, s));
  }

  lemma ConcludedWithOne(w: World, k: Course, s: Disk)
    requires ConcludesWithOne(w, k) && (k.reviewed ==> s.finalization.Absent?)
    ensures var t := AfterConclude(w, k, s);
      && !t.archive && t.log == Some(k.records)
      && (t.finalization.Complete? <==> s.finalization.Complete?)
  {
  }

  lemma BeforeTeardown(c: Contract, w: World, s: Disk)
    requires |c.commands| == TOTAL
    ensures AfterPrepare(c, w, s).finalization.Complete? <==> StaleComplete(w, s)
    ensures ReviewRan(c, w) ==> AfterPrepare(c, w, s).finalization.Absent? && !StaleComplete(w, s)
  {
  }

  lemma AfterTeardown(w: World, k: Course, s: Disk)
    requires k.reviewed ==> s.finalization.Absent?
    ensures AfterConclude(w, k, s).finalization.Complete?
      <==> s.finalization.Complete? || ConcludesWithZero(w, k) || (k.reviewed && OutlivesCommit(w, k))
  {
  }

  /** Over all exits, COMPLETE is on the disk exactly for one of three reasons. */
  lemma CompleteMeans(c: Contract, w: World, s: Disk)
    requires |c.commands| == TOTAL
    ensures EndState(c, w, s).finalization.Complete?
      <==> StaleComplete(w, s) || ReturnsZero(c, w) || CommitOutlives(c, w)
  {
    BeforeTeardown(c, w, s);
    if Concludes(w) {
      AfterTeardown(w, CourseOf(c, w), AfterPrepare(c, w, s));
    }
  }

  /** The commit outlives only runs that raise; the log passes, but the archive may be gone. */
  lemma OutlivingCommitMeans(c: Contract, w: World, s: Disk)
    requires |c.commands| == TOTAL && CommitOutlives(c, w)
    ensures !ReturnsZero(c, w) && !ReturnsOne(c, w)
    ensures EndState(c, w, s) == Disk(Some(FinalRecords(c, w)), !w.lateUnlink, Complete)
    ensures AllPass(c, FinalRecords(c, w))
  {
    OutlivedCommit(w, CourseOf(c, w), AfterPrepare(c, w, s));
  }

  lemma OutlivedCommit(w: World, k: Course, s: Disk)
    requires k.reviewed && OutlivesCommit(w, k)
    ensures !ConcludesWithZero(w, k) && !ConcludesWithOne(w, k) && k.passing
    ensures AfterConclude(w, k, s) == Disk(Some(k.records), !w.lateUnlink, Complete)
  {
  }

  /** A stale COMPLETE: the log holds the teardown alone, if it could be written. */
  lemma StaleCompleteMeans(c: Contract, w: World, s: Disk)
    requires |c.commands| == TOTAL && StaleComplete(w, s)
    ensures !ReturnsZero(c, w) && !CommitOutlives(c, w)
    ensures ReturnsOne(c, w) <==> Concludes(w) && w.logWrite.Written? && w.unlink
    ensures EndState(c, w, s) == Disk(
      if Concludes(w) && !w.logWrite.RaisedBefore? then Some([TeardownRecord(c, w)])
      else if w.clean.log then s.log else None,
      w.clean.archive && s.archive && !ReturnsOne(c, w), Complete)
  {
    if Concludes(w) {
      assert FinalRecords(c, w) == [TeardownRecord(c, w)];
    }
  }

  // ----- a run that dies between two changes

  ghost predicate LeavesLog(changes: seq<Change>) {
    forall x :: x in changes ==> !x.SetLog?
  }

  lemma {:induction false} LogStays(s: Disk, changes: seq<Change>)
    requires LeavesLog(changes)
    ensures ApplyAll(s, changes).log == s.log
  {
    if changes != [] {
      LogStays(s, changes[..|changes| - 1]);
    }
  }

  lemma LoggedLeavesLog(w: World, k: Course)
    ensures LeavesLog(LoggedChanges(w, k))
  {
    assert LeavesLog(FinalizeChanges(w, k));
    assert LeavesLog(AbandonChanges(w.unlink, w.failedWrite));
    assert LeavesLog(AbandonChanges(w.lateUnlink, w.lateFailedWrite));
  }

  /** COMPLETE was written, and no failure recorded over it. */
  ghost predicate Commits(changes: seq<Change>) {
    SetFinalization(Complete) in changes && SetFinalization(Failed) !in changes
  }

  /** What happens at a place of the list: a removal comes before, and a failure after, the commit. */
  ghost predicate OrderlyAt(changes: seq<Change>, j: nat)
    requires j < |changes|
  {
    && (changes[j] == SetFinalization(Complete) ==> SetFinalization(Failed) !in changes[..j])
    && (changes[j] == SetFinalization(Absent) ==> SetFinalization(Complete) !in changes[..j])
    && (changes[j].SetFinalization? ==> changes[j].finalization.Absent? || SetFinalization(Absent) in changes[..j])
  }

  ghost predicate Orderly(changes: seq<Change>) {
    forall j: nat :: j < |changes| ==> OrderlyAt(changes, j)
  }

  lemma OrderlyPrefix(changes: seq<Change>, n: nat)
    requires n <= |changes| && Orderly(changes)
    ensures Orderly(changes[..n])
  {
    forall j: nat | j < n ensures OrderlyAt(changes[..n], j) {
      assert OrderlyAt(changes, j);
      assert changes[..n][..j] == changes[..j];
    }
  }

  lemma {:induction false} StatusOf(s: Disk, changes: seq<Change>)
    requires Orderly(changes)
    ensures ApplyAll(s, changes).finalization.Complete?
         <==> (s.finalization.Complete? && SetFinalization(Absent) !in changes) || Commits(changes)
    ensures Commits(changes) ==> SetFinalization(Absent) in changes
  {
    if changes != [] {
      var n := |changes| - 1;
      OrderlyPrefix(changes, n);
      StatusOf(s, changes[..n]);
      assert OrderlyAt(changes, n);
      SplitLast(changes);
    }
  }

  /** Only removals of the finalization, or no change of it at all. */
  ghost predicate OnlyRemoves(changes: seq<Change>) {
    forall x :: x in changes && x.SetFinalization? ==> x.finalization.Absent?
  }

  ghost predicate LeavesStatus(changes: seq<Change>) {
    forall x :: x in changes ==> !x.SetFinalization?
  }

  /** No removal, and no failure before the commit. */
  ghost predicate Closing(changes: seq<Change>) {
    && SetFinalization(Absent) !in changes
    && forall i, j :: 0 <= i < j < |changes| && changes[j] == SetFinalization(Complete) ==>
      changes[i] != SetFinalization(Failed)
  }

  lemma ClosingJoin(a: seq<Change>, b: seq<Change>)
    requires Closing(a) && Closing(b) && (SetFinalization(Failed) !in a || SetFinalization(Complete) !in b)
    ensures Closing(a + b)
  {
    forall i, j | 0 <= i < j < |a + b| && (a + b)[j] == SetFinalization(Complete)
      ensures (a + b)[i] != SetFinalization(Failed)
    {
      if j < |a| {
        assert a[j] == SetFinalization(Complete);
      } else {
        assert b[j - |a|] == SetFinalization(Complete);
      }
    }
  }

  lemma OrderlyJoin(a: seq<Change>, b: seq<Change>)
    requires OnlyRemoves(a) && Closing(b) && (SetFinalization(Absent) in a || LeavesStatus(b))
    ensures Orderly(a + b)
  {
    forall j: nat | j < |a + b| ensures OrderlyAt(a + b, j) {
      if j < |a| {
        assert (a + b)[j] == a[j] && (a + b)[..j] == a[..j];
      } else {
        var k := j - |a|;
        assert (a + b)[j] == b[k] && (a + b)[..j] == a + b[..k];
      }
    }
  }

  lemma CleanOnlyRemoves(w: World)
    ensures OnlyRemoves(CleanChanges(w))
    ensures w.clean.Cleaned? ==> SetFinalization(Absent) in CleanChanges(w)
  {
  }

  lemma PartsClose(w: World, k: Course, unlink: bool, write: Write)
    ensures Closing(FinalizeChanges(w, k)) && SetFinalization(Failed) !in FinalizeChanges(w, k)
    ensures Closing(AbandonChanges(unlink, write)) && SetFinalization(Complete) !in AbandonChanges(unlink, write)
  {
  }

  lemma LoggedCloses(w: World, k: Course)
    ensures Closing(LoggedChanges(w, k))
    ensures !k.reviewed ==> LeavesStatus(LoggedChanges(w, k))
  {
    PartsClose(w, k, w.unlink, w.failedWrite);
    PartsClose(w, k, w.lateUnlink, w.lateFailedWrite);
    ClosingJoin(FinalizeChanges(w, k), AbandonChanges(w.lateUnlink, w.lateFailedWrite));
    ClosingJoin(FinalizeChanges(w, k), []);
  }

  lemma StatusFromLater(a: seq<Change>, b: seq<Change>)
    requires LeavesStatus(a) && Closing(b)
    ensures Closing(a + b) && (LeavesStatus(b) ==> LeavesStatus(a + b))
  {
    ClosingJoin(a, b);
  }

  lemma ConcludeCloses(w: World, k: Course)
    ensures Closing(ConcludeChanges(w, k))
    ensures !k.reviewed ==> LeavesStatus(ConcludeChanges(w, k))
  {
    LoggedCloses(w, k);
    StatusFromLater(IfWritten(w.logWrite, SetLog(Some(k.records))), LoggedChanges(w, k));
  }

  lemma AnnounceLeavesStatus(c: Contract, w: World)
    requires |c.commands| == TOTAL
    ensures LeavesStatus(AnnounceChanges(c, w))
  {
  }

  /** What a run does to the disk once it has cleaned. */
  ghost function LaterChanges(c: Contract, w: World): seq<Change>
    requires |c.commands| == TOTAL
  {
    AnnounceChanges(c, w) + if Concludes(w) then ConcludeChanges(w, CourseOf(c, w)) else []
  }

  lemma LaterCloses(c: Contract, w: World)
    requires |c.commands| == TOTAL
    ensures Closing(LaterChanges(c, w))
    ensures ReviewRan(c, w) || LeavesStatus(LaterChanges(c, w))
  {
    AnnounceLeavesStatus(c, w);
    if Concludes(w) {
      ConcludeCloses(w, CourseOf(c, w));
      StatusFromLater(AnnounceChanges(c, w), ConcludeChanges(w, CourseOf(c, w)));
    } else {
      StatusFromLater(AnnounceChanges(c, w), []);
    }
  }

  lemma RunIsOrderly(c: Contract, w: World)
    requires |c.commands| == TOTAL
    ensures RunChanges(c, w) == CleanChanges(w) + LaterChanges(c, w) && Orderly(RunChanges(c, w))
  {
    ConcatAssociates(CleanChanges(w), AnnounceChanges(c, w),
                     if Concludes(w) then ConcludeChanges(w, CourseOf(c, w)) else []);
    CleanOnlyRemoves(w);
    LaterCloses(c, w);
    OrderlyJoin(CleanChanges(w), LaterChanges(c, w));
  }

  lemma CommitComesLate(c: Contract, w: World)
    requires |c.commands| == TOTAL
    ensures SetFinalization(Complete) !in CleanChanges(w) + AnnounceChanges(c, w)
  {
    CleanOnlyRemoves(w);
    assert SetFinalization(Complete) !in AnnounceChanges(c, w);
  }

  /** The commit comes after the log, in a run that passes the gate. */
  lemma CommitFollowsLog(w: World, k: Course, n: nat)
    requires n <= |ConcludeChanges(w, k)| && SetFinalization(Complete) in ConcludeChanges(w, k)[..n]
    ensures w.logWrite.Written? && k.passing
    ensures n >= 1 && ConcludeChanges(w, k)[..n] == [SetLog(Some(k.records))] + LoggedChanges(w, k)[..n - 1]
  {
    assert SetFinalization(Complete) in LoggedChanges(w, k);
    PartsClose(w, k, w.unlink, w.failedWrite);
    PartsClose(w, k, w.lateUnlink, w.lateFailedWrite);
  }

  lemma LogOfCommit(w: World, k: Course, s: Disk, n: nat)
    requires n <= |ConcludeChanges(w, k)| && SetFinalization(Complete) in ConcludeChanges(w, k)[..n]
    ensures ApplyAll(s, ConcludeChanges(w, k)[..n]).log == Some(k.records)
  {
    CommitFollowsLog(w, k, n);
    LoggedLeavesLog(w, k);
    ApplyInTwo(s, [SetLog(Some(k.records))], LoggedChanges(w, k)[..n - 1]);
    ApplyWhen(s, true, SetLog(Some(k.records)));
    LogStays(ApplyAll(s, [SetLog(Some(k.records))]), LoggedChanges(w, k)[..n - 1]);
  }

  lemma NotYetMade(a: seq<Change>, b: seq<Change>, n: nat, x: Change)
    requires n <= |a| && x !in a
    ensures x !in (a + b)[..n]
  {
    assert (a + b)[..n] == a[..n];
  }

  /** A change of the second part only is made after the whole first part. */
  lemma MadeInSecond(a: seq<Change>, b: seq<Change>, n: nat, x: Change)
    requires n <= |a + b| && x !in a && x in (a + b)[..n]
    ensures |a| <= n && (a + b)[..n] == a + b[..n - |a|] && x in b[..n - |a|]
  {
    if n <= |a| {
      NotYetMade(a, b, n, x);
    }
  }

  lemma CommittedAfter(front: seq<Change>, w: World, k: Course, s: Disk, n: nat)
    requires SetFinalization(Complete) !in front && n <= |front + ConcludeChanges(w, k)|
    requires SetFinalization(Complete) in (front + ConcludeChanges(w, k))[..n]
    ensures k.passing && ApplyAll(s, (front + ConcludeChanges(w, k))[..n]).log == Some(k.records)
  {
    MadeInSecond(front, ConcludeChanges(w, k), n, SetFinalization(Complete));
    var m := n - |front|;
    CommitFollowsLog(w, k, m);
    LogOfCommit(w, k, ApplyAll(s, front), m);
    ApplyInTwo(s, front, ConcludeChanges(w, k)[..m]);
  }

  lemma CommittedLog(c: Contract, w: World, s: Disk, n: nat)
    requires |c.commands| == TOTAL && n <= |RunChanges(c, w)|
    requires SetFinalization(Complete) in RunChanges(c, w)[..n]
    ensures Concludes(w) && AllPass(c, FinalRecords(c, w))
    ensures ApplyAll(s, RunChanges(c, w)[..n]).log == Some(FinalRecords(c, w))
  {
    var front := CleanChanges(w) + AnnounceChanges(c, w);
    CommitComesLate(c, w);
    if Concludes(w) {
      CommittedAfter(front, w, CourseOf(c, w), s, n);
    } else {
      NotYetMade(front, [], n, SetFinalization(Complete));
    }
  }

  /**
   Wherever a run dies, COMPLETE is on the disk exactly when an old one has not been removed
   or this run has committed and not recorded a failure over it; and a commit always stands
   over the final log of a run that passes the gate.
   */
  lemma CrashMeans(c: Contract, w: World, s: Disk, n: nat)
    requires |c.commands| == TOTAL && n <= |RunChanges(c, w)|
    ensures var done := RunChanges(c, w)[..n];
      && (ApplyAll(s, done).finalization.Complete?
          <==> (s.finalization.Complete? && SetFinalization(Absent) !in done) || Commits(done))
      && (Commits(done) ==>
          Concludes(w) && AllPass(c, FinalRecords(c, w)) && ApplyAll(s, done).log == Some(FinalRecords(c, w)))
  {
    RunIsOrderly(c, w);
    OrderlyPrefix(RunChanges(c, w), n);
    StatusOf(s, RunChanges(c, w)[..n]);
    if Commits(RunChanges(c, w)[..n]) {
      CommittedLog(c, w, s, n);
    }
  }

  // ----- both failing families are inhabited

  /** The fixed displays, texts and exit codes allow some run to return 0. */
  ghost predicate Passable(c: Contract) {
    && |c.commands| == TOTAL == |c.mandatory|
    && (forall i :: 0 <= i < 32 ==> c.commands[i].display == c.mandatory[i])
    && (forall i :: 0 <= i < 30 ==> c.commands[i].expectedExit == 0)
    && "PASS:" <= c.reviewFinal && c.reviewFinal != c.reviewAhead && c.reviewFinal != c.teardownAhead
    && "PASS:" <= c.teardownFinal && c.teardownFinal != c.reviewAhead && c.teardownFinal != c.teardownAhead
  }

  /** Command i exits with 0 after a finite time that is not negative, with a text that passes; one
      of the first thirty does not use the texts written ahead. */
  ghost predicate Succeeds(c: Contract, w: World, i: nat) {
    && w.runs(i).Some? && w.runs(i).value.exitCode == 0 && "PASS:" <= w.runs(i).value.result
    && w.runs(i).value.duration.Number? && w.runs(i).value.duration.finite
    && w.runs(i).value.duration.value >= 0.0
    && (i < 30 ==> w.runs(i).value.result != c.reviewAhead && w.runs(i).value.result != c.teardownAhead)
  }

  ghost predicate AllSucceed(c: Contract, w: World) {
    forall i: nat :: i < 32 ==> Succeeds(c, w, i)
  }

  /** Everything around the commands goes well up to the commit. */
  ghost predicate WellUntilCommit(w: World) {
    && w.clean == Cleaned && w.setup && w.textImport && w.head && w.aheadWrite == Written
    && w.blocked && w.digest && w.blockedAgain && w.teardownImport && w.logWrite == Written
    && w.finalImport && w.finalHead && w.complete && w.finalDigest && w.completeAgain
    && w.build == Built && w.validate
  }

  lemma SuccessesPass(c: Contract, w: World, k: nat)
    requires Passable(c) && AllSucceed(c, w) && k <= REVIEW
    ensures FirstNotPassing(c, w, k) == REVIEW
    decreases REVIEW - k
  {
    if k < REVIEW {
      assert Succeeds(c, w, k);
      SuccessesPass(c, w, k + 1);
    }
  }

  lemma SuccessesPrepare(c: Contract, w: World)
    requires Passable(c) && AllSucceed(c, w) && WellUntilCommit(w)
    ensures Concludes(w) && Prepared(c, w) && TeardownPasses(w)
  {
    SuccessesPass(c, w, 0);
    assert Succeeds(c, w, REVIEW) && Succeeds(c, w, TEARDOWN);
  }

  lemma SuccessRow(c: Contract, w: World, i: nat)
    requires Passable(c) && AllSucceed(c, w) && Prepared(c, w) && TeardownPasses(w) && Concludes(w) && i < TOTAL
    ensures i < |FinalRecords(c, w)|
    ensures var r := FinalRecords(c, w)[i]; r.command == c.mandatory[i] && r.exactKeys && RowPasses(c, i, r)
  {
    ThirtyTwoRecords(c, w);
    assert Succeeds(c, w, i);
    if i < REVIEW {
      FirstRecordAt(c, w, i);
    }
  }

  lemma SuccessesPassGate(c: Contract, w: World)
    requires Passable(c) && AllSucceed(c, w) && Prepared(c, w) && TeardownPasses(w) && Concludes(w)
    ensures AllPass(c, FinalRecords(c, w))
  {
    ThirtyTwoRecords(c, w);
    forall i: nat | i < TOTAL
      ensures FinalRecords(c, w)[i].command == c.mandatory[i] && FinalRecords(c, w)[i].exactKeys
      ensures RowPasses(c, i, FinalRecords(c, w)[i])
    {
      SuccessRow(c, w, i);
    }
  }

  /** The records of a run that passes the gate, written out. */
  ghost predicate LogsSuccess(c: Contract, i: nat, r: Record)
    requires i < |c.mandatory|
  {
    && r.exactKeys && r.command == c.mandatory[i] && r.exitCode == 0 && "PASS:" <= r.result
    && r.duration.Number? && r.duration.finite && r.duration.value >= 0.0
    && r.result != c.reviewAhead && r.result != c.teardownAhead
    && (i == 30 ==> r.result == c.reviewFinal) && (i == 31 ==> r.result == c.teardownFinal)
  }

  /** A well-formed row passes exactly when its record is such a one. */
  lemma RowMeans(c: Contract, i: nat, r: Record)
    requires i < |c.mandatory| && r.exactKeys && r.command == c.mandatory[i]
    ensures RowPasses(c, i, r) <==> LogsSuccess(c, i, r)
  {
  }

  /** The gate passes exactly the lists of such records, one for each mandatory command. */
  lemma GateMeans(c: Contract, records: seq<Record>)
    ensures AllPass(c, records) <==>
      |records| == |c.mandatory| && forall i: nat :: i < |records| ==> LogsSuccess(c, i, records[i])
  {
  }

  lemma ZeroCommand(c: Contract, w: World, i: nat)
    requires |c.commands| == TOTAL && ReturnsZero(c, w) && i < TOTAL
    ensures Succeeds(c, w, i) && c.commands[i].display == c.mandatory[i]
    ensures i < REVIEW ==> c.commands[i].expectedExit == 0
  {
    ThirtyTwoRecords(c, w);
    assert RowPasses(c, i, FinalRecords(c, w)[i]);
    if i < REVIEW {
      FirstRecordAt(c, w, i);
    }
  }

  lemma ZeroIsPassable(c: Contract, w: World)
    requires |c.commands| == TOTAL && ReturnsZero(c, w)
    ensures Passable(c)
  {
    ThirtyTwoRecords(c, w);
    assert RowPasses(c, REVIEW, FinalRecords(c, w)[REVIEW]);
    assert RowPasses(c, TEARDOWN, FinalRecords(c, w)[TEARDOWN]);
    forall i: nat | i < TOTAL
      ensures c.commands[i].display == c.mandatory[i] && (i < REVIEW ==> c.commands[i].expectedExit == 0)
    {
      ZeroCommand(c, w, i);
    }
  }

  lemma ZeroCommands(c: Contract, w: World)
    requires |c.commands| == TOTAL && ReturnsZero(c, w)
    ensures AllSucceed(c, w)
  {
    forall i: nat | i < 32 ensures Succeeds(c, w, i) {
      ZeroCommand(c, w, i);
    }
  }

  lemma ZeroIsWell(c: Contract, w: World)
    requires |c.commands| == TOTAL && ReturnsZero(c, w)
    ensures WellUntilCommit(w) && w.completeWrite == Written
  {
    assert TeardownPasses(w) && Announced(c, w);
  }

  lemma WellReturnsZero(c: Contract, w: World)
    requires Passable(c) && AllSucceed(c, w) && WellUntilCommit(w) && w.completeWrite == Written
    ensures ReturnsZero(c, w)
  {
    SuccessesPrepare(c, w);
    SuccessesPassGate(c, w);
  }

  /** A run returns 0 exactly when everything goes well: the commands by their exit codes, texts and
      durations, and what is around them call by call. */
  lemma ZeroExactly(c: Contract, w: World)
    requires |c.commands| == TOTAL
    ensures ReturnsZero(c, w)
        <==> Passable(c) && AllSucceed(c, w) && WellUntilCommit(w) && w.completeWrite == Written
  {
    if Passable(c) && AllSucceed(c, w) && WellUntilCommit(w) && w.completeWrite == Written {
      WellReturnsZero(c, w);
    }
    if ReturnsZero(c, w) {
      ZeroIsPassable(c, w);
      ZeroCommands(c, w);
      ZeroIsWell(c, w);
    }
  }

  /** Everything but the commit goes well, with these commands. */
  function AllWell(runs: nat -> Option<Ran>, commit: Write, failure: Write): World {
    World(Cleaned, true, true, runs, true,
          true, true, Written, true, true, true,
          true, Written, true, Written,
          true, true, true, true, true,
          Built, true, commit, true, failure)
  }

  function RunsAll(text: string, seconds: real): nat -> Option<Ran> {
    (i: nat) => Some(Ran(Number(true, seconds), 0, text))
  }

  ghost predicate OneBesideComplete(c: Contract, w: World, s: Disk)
    requires |c.commands| == TOTAL
  {
    ReturnsOne(c, w) && EndState(c, w, s).finalization.Complete?
  }

  /** A run over an old COMPLETE can return 1 and leave it. */
  lemma StaleCompleteHappens(c: Contract, s: Disk)
    requires |c.commands| == TOTAL && s.finalization.Complete?
    ensures exists w :: OneBesideComplete(c, w, s)
  {
    var w := AllWell(RunsAll("", 1.0), Written, Written).(clean := CleanRaised(true, true, true));
    StaleCompleteMeans(c, w, s);
    assert OneBesideComplete(c, w, s);
  }

  ghost predicate CompleteWithoutArchive(c: Contract, w: World, s: Disk)
    requires |c.commands| == TOTAL
  {
    && !ReturnsZero(c, w) && !ReturnsOne(c, w)
    && EndState(c, w, s).finalization.Complete? && !EndState(c, w, s).archive
  }

  /** From every disk a run can raise and leave COMPLETE with no archive. */
  lemma CompleteWithoutArchiveHappens(c: Contract, s: Disk)
    requires Passable(c)
    ensures exists w :: CompleteWithoutArchive(c, w, s)
  {
    var w := AllWell(RunsAll(c.reviewFinal, 1.0), RaisedAfter, RaisedBefore);
    SuccessesPrepare(c, w);
    SuccessesPassGate(c, w);
    assert CommitOutlives(c, w);
    OutlivingCommitMeans(c, w, s);
    assert CompleteWithoutArchive(c, w, s);
  }

  ghost predicate OutlivesLog(c: Contract, w: World, s: Disk, n: nat)
    requires |c.commands| == TOTAL
  {
    && n <= |RunChanges(c, w)|
    && var t := ApplyAll(s, RunChanges(c, w)[..n]); t.finalization.Complete? && t.log.None?
  }

  /** Over an old COMPLETE a run can die in its cleaning and leave COMPLETE without a log. */
  lemma CompleteWithoutLogHappens(c: Contract, s: Disk)
    requires |c.commands| == TOTAL && s.finalization.Complete?
    ensures exists w, n :: OutlivesLog(c, w, s, n)
  {
    var w := AllWell(RunsAll("", 1.0), Written, Written);
    assert RunChanges(c, w)[..1] == When(true, SetLog(None));
    ApplyWhen(s, true, SetLog(None));
    assert OutlivesLog(c, w, s, 1);
  }

  // ----- the two logs, record by record

  lemma FirstRecordMeans(c: Contract, w: World, i: nat)
    requires |c.commands| == TOTAL && FirstThirtyPass(c, w) && i < 30
    ensures |FirstRecords(c, w)| == 30 && w.runs(i).Some?
    ensures var ran := w.runs(i).value;
      FirstRecords(c, w)[i] == Record(true, c.commands[i].display, ran.duration, ran.exitCode, ran.result)
  {
    FirstRecordAt(c, w, i);
  }

  /** The log written ahead: the first thirty records, and the two last commands as if they had passed
      in no time. */
  lemma AheadLogMeans(c: Contract, w: World)
    requires |c.commands| == TOTAL && FirstThirtyPass(c, w)
    ensures AheadRecords(c, w) == FirstRecords(c, w) + [
      Record(true, c.commands[30].display, Null, 0, c.reviewAhead),
      Record(true, c.commands[31].display, Null, 0, c.teardownAhead)]
  {
  }

  /** The final log of a run in which nothing fails: the two last commands with their own times and
      the fixed texts. */
  lemma FinalLogMeans(c: Contract, w: World)
    requires |c.commands| == TOTAL && Prepared(c, w) && TeardownPasses(w) && Concludes(w)
    ensures FinalRecords(c, w) == FirstRecords(c, w) + [
      Record(true, c.commands[30].display, w.runs(30).value.duration, 0, c.reviewFinal),
      Record(true, c.commands[31].display, w.runs(31).value.duration, 0, c.teardownFinal)]
  {
  }
}
