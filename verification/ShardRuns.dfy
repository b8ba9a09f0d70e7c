/**
 Whole runs of the artifact protocol. Soundness: what a successful verification proves
 about the files. Completeness: however the workers' steps interleave, repeat and break off,
 exactly which of them are refused, and exactly when the verification that follows succeeds.
 */
module ShardRuns {
  import opened Sorting
  import opened NodeIds
  import opened ShardLabels
  import opened ShardPlan
  import opened ShardChecker
  import opened ShardPlanner
  import opened ShardProtocol
  import opened ShardVerifier

  // ----- soundness

  lemma {:induction false} StagedHolds(plan: Plan, files: Files, root: seq<string>, combine: seq<string>,
                                       n: nat, i: nat)
    requires plan.shardCount >= 1 && i < n
    ensures StagedPath(combine, i, plan.shardCount) in Staged(plan, files, root, combine, n)
    ensures Staged(plan, files, root, combine, n)[StagedPath(combine, i, plan.shardCount)]
         == Downloaded(plan, files, root, i)
  {
    if i < n - 1 {
      StagedHolds(plan, files, root, combine, n - 1, i);
      StagedNamesDiffer(i, n - 1, plan.shardCount);
    }
  }

  /** m binds the bytes to shard i of the plan: their digest, their size, its assignment. */
  ghost predicate Binds(k: Codec, plan: Plan, m: Metadata, i: nat, content: Bytes)
    requires i < |plan.shards|
  {
    && m.index == i && m.hasArcs
    && m.coverageSha == (k.sha256)(content) && m.coverageBytes == |content|
    && m.planSha == plan.planSha && m.gitSha == plan.gitSha && m.eligibleSha == plan.eligibleSha
    && m.assignedCount == plan.shards[i].nodeidCount && m.assignedSha == plan.shards[i].nodeidSha
  }

  /** What a successful verification leaves in the combine directory, seen from shard i. */
  ghost predicate SoundlyStaged(k: Codec, plan: Plan, before: Files, after: Files, root: seq<string>,
                                combine: seq<string>, i: nat)
    requires plan.shardCount == |plan.shards| >= 1 && i < plan.shardCount
  {
    var dir := ArtifactDir(root, plan.gitSha, i);
    var data, meta := CoveragePath(dir, i, plan.shardCount), MetadataPath(dir, i, plan.shardCount);
    var staged := StagedPath(combine, i, plan.shardCount);
    && staged in after && data in before && after[staged] == before[data]
    && CoverageProperties(k, after[staged]).Some?
    && meta in before && (k.parseMetadata)(before[meta]).Some?
    && Binds(k, plan, (k.parseMetadata)(before[meta]).value, i, after[staged])
  }

  /**
   Whenever the verifier succeeds, the stored plan is the greedy plan of the fresh
   collection, every staged file is bound by its metadata to its shard of that plan, and
   the combine directory lists one file per shard and nothing else.
   */
  lemma VerificationIsSound(c: Commit, k: Codec, files: Files, planPath: Path, root: seq<string>,
                            combine: seq<string>, sha: string, head: Option<string>, collected: seq<string>)
    requires CodecLaws(k)
    requires Verifiable(c, k, files, planPath, root, combine, sha, head, collected)
    ensures var plan := LoadPlan(c, k, files, planPath).value;
      && PlanFor(c, collected, plan.shardCount, sha) == Ok(plan)
      && head == Some(plan.gitSha)
      && var after := Staged(plan, files, root, combine, plan.shardCount);
      && Listing(after, combine) == StagedNames(plan.shardCount, plan.shardCount)
      && |Listing(after, combine)| == plan.shardCount
      && forall i: nat :: i < plan.shardCount ==> SoundlyStaged(k, plan, files, after, root, combine, i)
  {
    var plan := LoadPlan(c, k, files, planPath).value;
    FreshPlanIsStored(c, k, plan, collected, sha);
    var after := Staged(plan, files, root, combine, plan.shardCount);
    StagedNamesCount(plan.shardCount, plan.shardCount);
    forall i: nat | i < plan.shardCount ensures SoundlyStaged(k, plan, files, after, root, combine, i) {
      assert Stageable(k, plan, files, root, combine, i);
      StagedHolds(plan, files, root, combine, plan.shardCount, i);
    }
  }

  lemma FreshPlanIsStored(c: Commit, k: Codec, plan: Plan, collected: seq<string>, sha: string)
    requires CodecLaws(k) && PlanIsFresh(c, k, plan, collected, sha)
    ensures PlanFor(c, collected, plan.shardCount, sha) == Ok(plan)
  {
    var other := PlanFor(c, collected, plan.shardCount, sha).value;
    assert (k.parsePlan)((k.renderPlan)(plan)) == (k.parsePlan)((k.renderPlan)(other));
  }

  lemma {:induction false} StagedNamesCount(count: nat, n: nat)
    requires count >= 1
    ensures |StagedNames(count, n)| == n
  {
    if n > 0 {
      StagedNamesCount(count, n - 1);
      StagedNamesStep(count, n - 1);
    }
  }

  lemma StagedNamesStep(count: nat, n: nat)
    requires count >= 1
    ensures StagedNames(count, n + 1) == StagedNames(count, n) + {StagedName(n, count)}
    ensures StagedName(n, count) !in StagedNames(count, n)
  {
    forall i: nat | i < n ensures StagedName(i, count) != StagedName(n, count) {
      StagedNamesDiffer(i, n, count);
    }
  }

  // ----- runs of the workers

  /** A plan, where its artifacts go, and the data each worker holds. */
  datatype Job = Job(k: Codec, plan: Plan, root: seq<string>, data: seq<Bytes>) {
    ghost predicate Ready() {
      && plan.shardCount == |plan.shards| == |data| >= 1
      && forall i :: 0 <= i < |data| ==> CoverageProperties(k, data[i]).Some?
    }

    function Dir(i: nat): seq<string> {
      ArtifactDir(root, plan.gitSha, i)
    }

    ghost function MetaBytes(i: nat): Bytes
      requires Ready() && i < |data|
    {
      MetadataBytes(k, plan, i, data[i])
    }

    predicate Makes(o: Output) {
      o.i < |data|
    }

    function PathOf(o: Output): Path
      requires plan.shardCount >= 1
    {
      match o
      case Data(i) => CoveragePath(Dir(i), i, plan.shardCount)
      case Meta(i) => MetadataPath(Dir(i), i, plan.shardCount)
    }

    ghost function Content(o: Output): Bytes
      requires Ready() && Makes(o)
    {
      match o
      case Data(i) => data[i]
      case Meta(i) => MetaBytes(i)
    }
  }

  /** The two files of a worker. */
  datatype Output = Data(i: nat) | Meta(i: nat)

  /**
   The separate steps of the workers. An attempt opens a file for creation; when the file is
   there already it compares instead. (That an existing file stays is why the failed creation
   and the comparison are one step, at the time of the comparison.) A fill is how many bytes
   have arrived by then, written by the worker that created the file; a worker that breaks off
   makes no further steps. An inspection looks whether the directory holds just the two files.
   */
  datatype Event = Attempt(out: Output) | Fill(out: Output, upto: nat) | Inspect(i: nat)

  ghost function StepTo(job: Job, files: Files, e: Event): Files
    requires job.Ready() && InJob(job, e)
  {
    match e
    case Attempt(o) => if job.PathOf(o) in files then files else files[job.PathOf(o) := []]
    case Fill(o, upto) =>
      var p, n := job.PathOf(o), Within(upto, |job.Content(o)|);
      if p in files && n > |files[p]| then files[p := job.Content(o)[..n]] else files
    case Inspect(i) => files
  }

  /** Does the step go through, or does it refuse? */
  ghost predicate Accepts(job: Job, files: Files, e: Event)
    requires job.Ready() && InJob(job, e)
  {
    match e
    case Attempt(o) => job.PathOf(o) in files ==> files[job.PathOf(o)] == job.Content(o)
    case Fill(_, _) => true
    case Inspect(i) => Listing(files, job.Dir(i)) == PairNames(job, i)
  }

  function PairNames(job: Job, i: nat): set<string>
    requires job.plan.shardCount >= 1
  {
    {CoverageName(i, job.plan.shardCount), MetadataName(i, job.plan.shardCount)}
  }

  function Within(n: nat, top: nat): nat {
    if n < top then n else top
  }

  predicate InJob(job: Job, e: Event) {
    if e.Inspect? then e.i < |job.data| else job.Makes(e.out)
  }

  ghost predicate InRange(job: Job, events: seq<Event>) {
    forall t :: 0 <= t < |events| ==> InJob(job, events[t])
  }

  /** After these events, can this one happen? Only what was created is filled, and a worker
      inspects only after its own two attempts. */
  predicate Possible(events: seq<Event>, e: Event) {
    match e
    case Attempt(_) => true
    case Fill(o, _) => Attempt(o) in events
    case Inspect(i) => Attempt(Data(i)) in events && Attempt(Meta(i)) in events
  }

  ghost predicate Causal(events: seq<Event>) {
    forall t :: 0 <= t < |events| ==> Possible(events[..t], events[t])
  }

  /** Any interleaving of steps, from the first to the last. A refusal ends its own worker's
      call and changes nothing; the others go on. */
  ghost function Run(job: Job, files: Files, events: seq<Event>): Files
    requires job.Ready() && InRange(job, events)
  {
    if events == [] then files
    else
      var n := |events| - 1;
      StepTo(job, Run(job, files, events[..n]), events[n])
  }

  // ----- conditions on the events alone

  ghost predicate FillsWhole(job: Job, o: Output, e: Event)
    requires job.Ready() && job.Makes(o)
  {
    e.Fill? && e.out == o && e.upto >= |job.Content(o)|
  }

  /** The file was created and all its bytes have arrived. */
  ghost predicate Filled(job: Job, events: seq<Event>, o: Output)
    requires job.Ready() && job.Makes(o)
  {
    && Attempt(o) in events
    && (job.Content(o) == [] || exists e :: e in events && FillsWhole(job, o, e))
  }

  /** A repeated attempt finds the file filled. */
  ghost predicate Unobstructed(job: Job, events: seq<Event>, e: Event)
    requires job.Ready() && InJob(job, e)
  {
    e.Attempt? && e in events ==> Filled(job, events, e.out)
  }

  /** No file is created and left unfilled before the next attempt on it. */
  ghost predicate NoTornRetry(job: Job, events: seq<Event>)
    requires job.Ready() && InRange(job, events)
  {
    forall t :: 0 <= t < |events| ==> Unobstructed(job, events[..t], events[t])
  }

  ghost predicate RefusesAt(job: Job, start: Files, events: seq<Event>, t: nat)
    requires job.Ready() && InRange(job, events) && t < |events|
  {
    !Accepts(job, Run(job, start, events[..t]), events[t])
  }

  ghost predicate NoneRefused(job: Job, start: Files, events: seq<Event>)
    requires job.Ready() && InRange(job, events)
  {
    forall t: nat :: t < |events| ==> !RefusesAt(job, start, events, t)
  }

  /** How many bytes of a file have arrived. */
  ghost function Arrived(job: Job, events: seq<Event>, o: Output): (n: nat)
    requires job.Ready() && job.Makes(o)
    ensures n <= |job.Content(o)|
  {
    if events == [] then 0
    else
      var before, e := Arrived(job, events[..|events| - 1], o), events[|events| - 1];
      if e.Fill? && e.out == o && Within(e.upto, |job.Content(o)|) > before
      then Within(e.upto, |job.Content(o)|) else before
  }

  ghost predicate SomeFillsWhole(job: Job, events: seq<Event>, o: Output)
    requires job.Ready() && job.Makes(o)
  {
    exists e :: e in events && FillsWhole(job, o, e)
  }

  lemma FillsWholeLast(job: Job, events: seq<Event>, o: Output)
    requires job.Ready() && job.Makes(o) && events != []
    ensures var n := |events| - 1;
      SomeFillsWhole(job, events, o) <==> SomeFillsWhole(job, events[..n], o) || FillsWhole(job, o, events[n])
  {
    SplitLast(events);
  }

  lemma {:induction false} AllArrived(job: Job, events: seq<Event>, o: Output)
    requires job.Ready() && job.Makes(o)
    ensures Arrived(job, events, o) == |job.Content(o)| <==> job.Content(o) == [] || SomeFillsWhole(job, events, o)
  {
    if events != [] {
      AllArrived(job, events[..|events| - 1], o);
      FillsWholeLast(job, events, o);
    }
  }

  /** Where the workers write there are at most their own empty directories. */
  ghost predicate Vacant(job: Job, files: Files) {
    forall p :: p in files && job.root <= p.dir ==> p.name == "" && OwnDirectory(job, p.dir)
  }

  ghost predicate OwnDirectory(job: Job, dir: seq<string>) {
    dir == job.root || exists i: nat :: i < |job.data| && dir == job.Dir(i)
  }

  lemma OutputNamed(job: Job, o: Output)
    requires job.Ready()
    ensures job.PathOf(o).name != "" && job.PathOf(o).dir == job.Dir(o.i)
    ensures job.root <= job.Dir(o.i) && |job.Dir(o.i)| == |job.root| + 1
    ensures job.PathOf(o).name[0] == if o.Data? then 'c' else 's'
  {
  }

  lemma DirsApart(job: Job, i: nat, j: nat)
    requires i != j
    ensures job.Dir(i) != job.Dir(j)
  {
    NumberedNamesDiffer(ARTIFACT_PREFIX + job.plan.gitSha + "-", i, j);
    assert job.Dir(i)[|job.root|] != job.Dir(j)[|job.root|];
  }

  lemma OutputsApart(job: Job, o: Output, q: Output)
    requires job.Ready() && o != q
    ensures job.PathOf(o) != job.PathOf(q)
  {
    OutputNamed(job, o);
    OutputNamed(job, q);
    if o.i != q.i {
      DirsApart(job, o.i, q.i);
    }
  }

  lemma OutputIsNew(job: Job, start: Files, o: Output)
    requires job.Ready() && Vacant(job, start)
    ensures job.PathOf(o) !in start
  {
    OutputNamed(job, o);
  }

  // ----- what is on the disk along a run

  /** File o is there exactly when it was attempted, with the bytes that have arrived. */
  ghost predicate OnDisk(job: Job, events: seq<Event>, files: Files, o: Output)
    requires job.Ready() && job.Makes(o)
  {
    && (job.PathOf(o) in files <==> Attempt(o) in events)
    && (Attempt(o) in events ==> files[job.PathOf(o)] == job.Content(o)[..Arrived(job, events, o)])
    && (Attempt(o) !in events ==> Arrived(job, events, o) == 0)
  }

  ghost predicate MadeBy(job: Job, p: Path, o: Output)
    requires job.Ready()
  {
    job.Makes(o) && p == job.PathOf(o)
  }

  /** What was there is untouched, and nothing but outputs was added. */
  ghost predicate OnlyOutputs(job: Job, start: Files, files: Files)
    requires job.Ready()
  {
    && Extends(start, files)
    && forall p :: p in files && p !in start ==> exists o :: MadeBy(job, p, o)
  }

  ghost predicate Progress(job: Job, start: Files, events: seq<Event>, files: Files)
    requires job.Ready()
  {
    && OnlyOutputs(job, start, files)
    && forall o: Output :: job.Makes(o) ==> OnDisk(job, events, files, o)
  }

  lemma StepOnDisk(job: Job, events: seq<Event>, files: Files, e: Event, o: Output)
    requires job.Ready() && job.Makes(o) && InJob(job, e) && Possible(events, e)
    requires OnDisk(job, events, files, o)
    ensures OnDisk(job, events + [e], StepTo(job, files, e), o)
  {
    assert (events + [e])[..|events|] == events;
    if !e.Inspect? && e.out != o {
      OutputsApart(job, e.out, o);
    }
  }

  lemma StepAddsOutputs(job: Job, start: Files, files: Files, e: Event)
    requires job.Ready() && InJob(job, e) && Vacant(job, start)
    requires OnlyOutputs(job, start, files)
    ensures OnlyOutputs(job, start, StepTo(job, files, e))
  {
    if !e.Inspect? {
      OutputIsNew(job, start, e.out);
      assert MadeBy(job, job.PathOf(e.out), e.out);
    }
  }

  lemma ShorterRun(job: Job, events: seq<Event>, n: nat)
    requires job.Ready() && n <= |events| && InRange(job, events) && Causal(events)
    ensures InRange(job, events[..n]) && Causal(events[..n])
  {
    forall t | 0 <= t < n ensures events[..n][t] == events[t] && events[..n][..t] == events[..t] {
    }
  }

  lemma {:induction false} RunProgress(job: Job, start: Files, events: seq<Event>)
    requires job.Ready() && InRange(job, events) && Causal(events) && Vacant(job, start)
    ensures Progress(job, start, events, Run(job, start, events))
  {
    if events == [] {
      forall o: Output | job.Makes(o) ensures OnDisk(job, [], start, o) {
        OutputIsNew(job, start, o);
      }
    } else {
      var n := |events| - 1;
      var front := events[..n];
      ShorterRun(job, events, n);
      RunProgress(job, start, front);
      SplitLast(events);
      StepAddsOutputs(job, start, Run(job, start, front), events[n]);
      forall o: Output | job.Makes(o) ensures OnDisk(job, events, Run(job, start, events), o) {
        StepOnDisk(job, front, Run(job, start, front), events[n], o);
      }
    }
  }

  /** A file holds all of its content exactly when it was filled. */
  lemma WholeMeansFilled(job: Job, start: Files, events: seq<Event>, files: Files, o: Output)
    requires job.Ready() && job.Makes(o) && Progress(job, start, events, files)
    ensures job.PathOf(o) in files && files[job.PathOf(o)] == job.Content(o) <==> Filled(job, events, o)
  {
    AllArrived(job, events, o);
    assert OnDisk(job, events, files, o);
  }

  // ----- refusals

  /** What is under a worker's directory is its own. */
  lemma OnlyOwnOutputs(job: Job, start: Files, events: seq<Event>, files: Files, i: nat, p: Path)
    requires job.Ready() && i < |job.data|
    requires Vacant(job, start) && Progress(job, start, events, files)
    requires p in files && job.Dir(i) <= p.dir
    ensures p.dir == job.Dir(i)
    ensures p.name == "" || p == job.PathOf(Data(i)) || p == job.PathOf(Meta(i))
  {
    OutputNamed(job, Data(i));
    assert job.root <= p.dir;
    if p in start {
      assert OwnDirectory(job, p.dir);
      if j: nat :| j < |job.data| && p.dir == job.Dir(j) {
        OutputNamed(job, Data(j));
      }
    } else {
      var o :| MadeBy(job, p, o);
      OutputNamed(job, o);
      if o.i != i {
        DirsApart(job, o.i, i);
      }
    }
  }

  lemma WorkerListing(job: Job, start: Files, events: seq<Event>, files: Files, i: nat)
    requires job.Ready() && i < |job.data|
    requires Vacant(job, start) && Progress(job, start, events, files)
    requires job.PathOf(Data(i)) in files && job.PathOf(Meta(i)) in files
    ensures Listing(files, job.Dir(i)) == PairNames(job, i)
  {
    var dir := job.Dir(i);
    OutputNamed(job, Data(i));
    OutputNamed(job, Meta(i));
    forall p | p in files && dir <= p.dir ensures p.dir == dir && (p.name == "" || p.name in PairNames(job, i)) {
      OnlyOwnOutputs(job, start, events, files, i, p);
    }
    assert SubdirectoryNames(files, dir) == {};
    assert job.PathOf(Data(i)).name in FileNames(files, dir) && job.PathOf(Meta(i)).name in FileNames(files, dir);
    assert FileNames(files, dir) == PairNames(job, i);
  }

  lemma AcceptedExactly(job: Job, start: Files, events: seq<Event>, files: Files, e: Event)
    requires job.Ready() && InJob(job, e) && Possible(events, e)
    requires Vacant(job, start) && Progress(job, start, events, files)
    ensures Accepts(job, files, e) <==> Unobstructed(job, events, e)
  {
    match e
    case Attempt(o) =>
      WholeMeansFilled(job, start, events, files, o);
      assert OnDisk(job, events, files, o);
    case Fill(_, _) =>
    case Inspect(i) =>
      assert OnDisk(job, events, files, Data(i)) && OnDisk(job, events, files, Meta(i));
      WorkerListing(job, start, events, files, i);
  }

  /** Step t of a run is refused exactly when it repeats an attempt on a file not filled by then. */
  lemma RefusedExactly(job: Job, start: Files, events: seq<Event>, t: nat)
    requires job.Ready() && InRange(job, events) && Causal(events) && Vacant(job, start) && t < |events|
    ensures RefusesAt(job, start, events, t) <==> !Unobstructed(job, events[..t], events[t])
  {
    ShorterRun(job, events, t);
    RunProgress(job, start, events[..t]);
    AcceptedExactly(job, start, events[..t], Run(job, start, events[..t]), events[t]);
  }

  /** No step of a run is refused exactly when no file is created and left unfilled before the
      next attempt on it. */
  lemma RunsNeverRefuse(job: Job, start: Files, events: seq<Event>)
    requires job.Ready() && InRange(job, events) && Causal(events) && Vacant(job, start)
    ensures NoneRefused(job, start, events) <==> NoTornRetry(job, events)
  {
    forall t: nat | t < |events|
      ensures RefusesAt(job, start, events, t) <==> !Unobstructed(job, events[..t], events[t])
    {
      RefusedExactly(job, start, events, t);
    }
  }

  /** The first events created the file, and no event of the run filled it. */
  ghost predicate Torn(job: Job, events: seq<Event>, o: Output)
    requires job.Ready() && job.Makes(o)
  {
    Attempt(o) in events && !Filled(job, events, o)
  }

  lemma FilledStays(job: Job, events: seq<Event>, t: nat, o: Output)
    requires job.Ready() && job.Makes(o) && t <= |events| && Filled(job, events[..t], o)
    ensures Filled(job, events, o)
  {
    assert forall e :: e in events[..t] ==> e in events;
  }

  /**
   A torn file blocks its shard for good: when its creator breaks off before it is filled,
   every later attempt on it is refused, whatever else happens, and the file stays a proper
   prefix of its content.
   */
  lemma TornFileBlocks(job: Job, start: Files, before: seq<Event>, more: seq<Event>, o: Output)
    requires job.Ready() && job.Makes(o) && Vacant(job, start)
    requires InRange(job, before + more) && Causal(before + more)
    requires Attempt(o) in before && Torn(job, before + more, o)
    ensures var events := before + more; var files := Run(job, start, events);
      && (forall t: nat :: |before| <= t < |events| && events[t] == Attempt(o) ==> RefusesAt(job, start, events, t))
      && job.PathOf(o) in files && files[job.PathOf(o)] < job.Content(o)
  {
    var events := before + more;
    forall t: nat | |before| <= t < |events| && events[t] == Attempt(o) ensures RefusesAt(job, start, events, t) {
      assert events[..t][..|before|] == before;
      assert Attempt(o) in events[..t];
      if Filled(job, events[..t], o) {
        FilledStays(job, events, t, o);
      }
      RefusedExactly(job, start, events, t);
    }
    RunProgress(job, start, events);
    WholeMeansFilled(job, start, events, Run(job, start, events), o);
    assert OnDisk(job, events, Run(job, start, events), o);
  }

  /** The failing input: a worker creates its data file and stops; its identical retry is refused. */
  lemma TornRetryHappens(job: Job, start: Files)
    requires job.Ready() && Vacant(job, start)
    ensures var events := [Attempt(Data(0)), Attempt(Data(0))];
      InRange(job, events) && Causal(events) && RefusesAt(job, start, events, 1)
  {
    var first := [Attempt(Data(0))];
    var events := first + first;
    assert events == [Attempt(Data(0)), Attempt(Data(0))];
    assert events[..1] == first;
    TornFileBlocks(job, start, first, first, Data(0));
  }

  // ----- the call of a worker as events

  ghost function WriteOf(job: Job, o: Output, fate: Fate): Write
    requires job.Ready() && job.Makes(o)
  {
    Write(job.PathOf(o), job.Content(o), fate)
  }

  /** A write as events: creating and filling the file, or comparing with the one there; none
      when the file can be neither created nor inspected. */
  ghost function WriteEvents(job: Job, files: Files, o: Output, fate: Fate): seq<Event>
    requires job.Ready() && job.Makes(o)
  {
    if fate.Fails? then []
    else if job.PathOf(o) in files then [Attempt(o)]
    else [Attempt(o), Fill(o, if fate.Whole? then |job.Content(o)| else fate.after)]
  }

  /** A worker's call: it goes on only after a write that goes through. */
  ghost function WorkerEvents(job: Job, files: Files, i: nat, dataFate: Fate, metaFate: Fate): seq<Event>
    requires job.Ready() && i < |job.data|
  {
    var data := WriteEvents(job, files, Data(i), dataFate);
    if !Goes(files, WriteOf(job, Data(i), dataFate)) then data
    else
      var between := After(files, WriteOf(job, Data(i), dataFate));
      var meta := WriteEvents(job, between, Meta(i), metaFate);
      if Goes(between, WriteOf(job, Meta(i), metaFate)) then data + meta + [Inspect(i)] else data + meta
  }

  lemma RunOne(job: Job, files: Files, events: seq<Event>, e: Event)
    requires job.Ready() && InRange(job, events) && InJob(job, e)
    ensures InRange(job, events + [e])
    ensures Run(job, files, events + [e]) == StepTo(job, Run(job, files, events), e)
  {
    assert (events + [e])[..|events|] == events;
  }

  lemma {:induction false} RunAppend(job: Job, files: Files, a: seq<Event>, b: seq<Event>)
    requires job.Ready() && InRange(job, a) && InRange(job, b)
    ensures InRange(job, a + b) && Run(job, files, a + b) == Run(job, Run(job, files, a), b)
  {
    if b == [] {
      assert a + b == a;
    } else {
      var n := |b| - 1;
      RunAppend(job, files, a, b[..n]);
      SplitLast(b);
      ConcatAssociates(a, b[..n], [b[n]]);
      RunOne(job, files, a + b[..n], b[n]);
    }
  }

  lemma WriteAsEvents(job: Job, files: Files, o: Output, fate: Fate)
    requires job.Ready() && job.Makes(o)
    ensures var events := WriteEvents(job, files, o, fate);
      InRange(job, events) && Run(job, files, events) == After(files, WriteOf(job, o, fate))
  {
    AttemptRun(job, files, o);
    if job.PathOf(o) !in files && !fate.Fails? {
      CreateAndFill(job, files, o, fate);
    }
  }

  lemma AttemptRun(job: Job, files: Files, o: Output)
    requires job.Ready() && job.Makes(o)
    ensures InRange(job, [Attempt(o)]) && Run(job, files, [Attempt(o)]) == StepTo(job, files, Attempt(o))
  {
    RunOne(job, files, [], Attempt(o));
    assert [] + [Attempt(o)] == [Attempt(o)];
  }

  lemma CreateAndFill(job: Job, files: Files, o: Output, fate: Fate)
    requires job.Ready() && job.Makes(o) && job.PathOf(o) !in files && !fate.Fails?
    ensures var events := WriteEvents(job, files, o, fate);
      InRange(job, events) && Run(job, files, events) == After(files, WriteOf(job, o, fate))
  {
    var upto := if fate.Whole? then |job.Content(o)| else fate.after;
    AttemptRun(job, files, o);
    RunOne(job, files, [Attempt(o)], Fill(o, upto));
    assert [Attempt(o)] + [Fill(o, upto)] == [Attempt(o), Fill(o, upto)];
    FilledOnce(files, WriteOf(job, o, fate), upto);
  }

  lemma FilledOnce(files: Files, w: Write, upto: nat)
    requires w.path !in files && !w.fate.Fails? && upto == if w.fate.Whole? then |w.content| else w.fate.after
    ensures var n := Within(upto, |w.content|);
      After(files, w) == if n > 0 then files[w.path := []][w.path := w.content[..n]] else files[w.path := []]
  {
    var n := Within(upto, |w.content|);
    assert w.content[..n] == Landed(w.content, w.fate);
    assert files[w.path := []][w.path := w.content[..n]] == files[w.path := w.content[..n]];
  }

  lemma WorkerRun(job: Job, files: Files, i: nat, dataFate: Fate, metaFate: Fate)
    requires job.Ready() && i < |job.data|
    ensures var events := WorkerEvents(job, files, i, dataFate, metaFate);
      && InRange(job, events)
      && Run(job, files, events)
         == Published(files, WriteOf(job, Data(i), dataFate), WriteOf(job, Meta(i), metaFate))
  {
    var data := WriteEvents(job, files, Data(i), dataFate);
    WriteAsEvents(job, files, Data(i), dataFate);
    if Goes(files, WriteOf(job, Data(i), dataFate)) {
      var between := After(files, WriteOf(job, Data(i), dataFate));
      var meta := WriteEvents(job, between, Meta(i), metaFate);
      WriteAsEvents(job, between, Meta(i), metaFate);
      RunAppend(job, files, data, meta);
      RunOne(job, files, data + meta, Inspect(i));
    }
  }

  lemma InspectsExactly(job: Job, files: Files, i: nat, dataFate: Fate, metaFate: Fate)
    requires job.Ready() && i < |job.data|
    ensures var data, meta := WriteOf(job, Data(i), dataFate), WriteOf(job, Meta(i), metaFate);
      Inspect(i) in WorkerEvents(job, files, i, dataFate, metaFate)
      <==> Goes(files, data) && Goes(After(files, data), meta)
  {
  }

  /** A worker's call does to the disk what its events do, and succeeds exactly when it gets to
      its inspection and that is accepted. */
  lemma MaterializeIsItsEvents(c: Commit, job: Job, files: Files, planPath: Path, i: nat,
                               dataFate: Fate, metaFate: Fate)
    requires job.Ready() && i < |job.data|
    requires LoadPlan(c, job.k, files, planPath) == Some(job.plan)
    requires Accepted(c, job.plan, Some(job.plan.gitSha))
    ensures var events := WorkerEvents(job, files, i, dataFate, metaFate);
      && InRange(job, events)
      && Run(job, files, events)
         == Published(files, WriteOf(job, Data(i), dataFate), WriteOf(job, Meta(i), metaFate))
      && (Materializable(c, job.k, files, planPath, i, Some(job.data[i]), job.Dir(i), job.plan.gitSha,
                         dataFate, metaFate)
          <==> Inspect(i) in events && Accepts(job, Run(job, files, events), Inspect(i)))
  {
    WorkerRun(job, files, i, dataFate, metaFate);
    InspectsExactly(job, files, i, dataFate, metaFate);
    assert DataWrite(job.plan, i, job.data[i], job.Dir(i), dataFate) == WriteOf(job, Data(i), dataFate);
    assert MetaWrite(job.k, job.plan, i, job.data[i], job.Dir(i), metaFate) == WriteOf(job, Meta(i), metaFate);
  }

  // ----- completeness

  /** The files before the workers start: the plan, where artifacts go at most their own empty
      directories, and in the combine directory at most the right files of an earlier
      verification. */
  ghost predicate CleanStart(job: Job, start: Files, planPath: Path, combine: seq<string>)
    requires job.Ready()
  {
    && planPath in start && start[planPath] == (job.k.renderPlan)(job.plan)
    && Vacant(job, start)
    && !(job.root <= combine) && !(combine <= job.root)
    && forall p :: p in start && combine <= p.dir ==> EarlierStaged(job, start, combine, p)
  }

  ghost predicate EarlierStaged(job: Job, start: Files, combine: seq<string>, p: Path)
    requires job.Ready() && p in start
  {
    || p == Path(combine, "")
    || exists i: nat :: i < |job.data| && p == StagedPath(combine, i, job.plan.shardCount) && start[p] == job.data[i]
  }

  /** All data has arrived, and of every metadata file enough to be read. */
  ghost predicate Delivered(job: Job, events: seq<Event>)
    requires job.Ready()
  {
    forall i: nat :: i < |job.data| ==> Filled(job, events, Data(i)) && Readable(job, events, i)
  }

  ghost predicate Readable(job: Job, events: seq<Event>, i: nat)
    requires job.Ready() && i < |job.data|
  {
    && Attempt(Meta(i)) in events
    && (job.k.parseMetadata)(job.MetaBytes(i)[..Arrived(job, events, Meta(i))]).Some?
  }

  /** Every file of every worker is filled. */
  ghost predicate Finished(job: Job, events: seq<Event>)
    requires job.Ready()
  {
    forall o: Output :: job.Makes(o) ==> Filled(job, events, o)
  }

  lemma FinishedIsDelivered(job: Job, events: seq<Event>)
    requires job.Ready() && CodecLaws(job.k) && Finished(job, events)
    ensures Delivered(job, events)
  {
    forall i: nat | i < |job.data| ensures Filled(job, events, Data(i)) && Readable(job, events, i) {
      assert Filled(job, events, Data(i)) && Filled(job, events, Meta(i));
      AllArrived(job, events, Meta(i));
      var whole := job.MetaBytes(i);
      assert whole[..|whole|] == whole;
      MetadataParses(job, i);
    }
  }

  function MetadataOf(job: Job, i: nat): Metadata
    requires i < |job.data| && job.plan.shardCount == |job.plan.shards| == |job.data|
    requires CoverageProperties(job.k, job.data[i]).Some?
  {
    MetadataFor(job.k, job.plan, i, job.data[i], CoverageProperties(job.k, job.data[i]).value)
  }

  lemma MetadataParses(job: Job, i: nat)
    requires job.Ready() && CodecLaws(job.k) && i < |job.data|
    ensures (job.k.parseMetadata)(job.MetaBytes(i)) == Some(MetadataOf(job, i))
  {
    assert (job.k.parseMetadata)((job.k.renderMetadata)(MetadataOf(job, i))) == Some(MetadataOf(job, i));
  }

  lemma MetadataFits(job: Job, i: nat)
    requires job.Ready() && CodecLaws(job.k) && i < |job.data|
    ensures MetadataBinds(job.plan, MetadataOf(job, i), i) && DataMatches(job.k, MetadataOf(job, i), job.data[i])
  {
    assert IsHex64((job.k.sha256)(job.data[i]));
  }

  /** What the disk holds of a metadata file parses, if at all, as what the worker wrote. */
  lemma ReadMetadata(job: Job, start: Files, events: seq<Event>, files: Files, i: nat)
    requires job.Ready() && i < |job.data| && PrefixLaw(job.k) && Progress(job, start, events, files)
    ensures Readable(job, events, i) <==>
      job.PathOf(Meta(i)) in files && (job.k.parseMetadata)(files[job.PathOf(Meta(i))]).Some?
    ensures Readable(job, events, i) ==>
      (job.k.parseMetadata)(files[job.PathOf(Meta(i))]) == Some(MetadataOf(job, i))
  {
    assert OnDisk(job, events, files, Meta(i));
    var arrived := job.MetaBytes(i)[..Arrived(job, events, Meta(i))];
    assert arrived <= (job.k.renderMetadata)(MetadataOf(job, i));
  }

  /** A shard verifies exactly when its data is whole and its metadata can be read: a torn file
      has fewer bytes than its metadata says, whatever its digest. */
  lemma VerifiedExactly(job: Job, start: Files, events: seq<Event>, files: Files, i: nat)
    requires job.Ready() && i < |job.data| && CodecLaws(job.k) && PrefixLaw(job.k)
    requires Progress(job, start, events, files)
    ensures ShardVerified(job.k, job.plan, files, job.Dir(i), i)
      <==> Filled(job, events, Data(i)) && Readable(job, events, i)
  {
    ReadMetadata(job, start, events, files, i);
    WholeMeansFilled(job, start, events, files, Data(i));
    MetadataFits(job, i);
    assert OnDisk(job, events, files, Data(i));
    TornIsShorter(job, start, events, files, i);
  }

  lemma TornIsShorter(job: Job, start: Files, events: seq<Event>, files: Files, i: nat)
    requires job.Ready() && i < |job.data| && Progress(job, start, events, files)
    ensures job.PathOf(Data(i)) in files && |files[job.PathOf(Data(i))]| == |job.data[i]|
      ==> files[job.PathOf(Data(i))] == job.data[i]
  {
    assert OnDisk(job, events, files, Data(i));
    assert job.data[i][..|job.data[i]|] == job.data[i];
  }

  /** A torn artifact is never staged: what can be staged of a run is a worker's whole data. */
  lemma TornIsNeverStaged(job: Job, start: Files, events: seq<Event>, combine: seq<string>, i: nat)
    requires job.Ready() && CodecLaws(job.k) && PrefixLaw(job.k) && i < |job.data|
    requires InRange(job, events) && Causal(events) && Vacant(job, start)
    ensures var files := Run(job, start, events);
      Stageable(job.k, job.plan, files, job.root, combine, i) ==>
        Filled(job, events, Data(i)) && Downloaded(job.plan, files, job.root, i) == job.data[i]
  {
    var files := Run(job, start, events);
    RunProgress(job, start, events);
    VerifiedExactly(job, start, events, files, i);
    WholeMeansFilled(job, start, events, files, Data(i));
  }

  lemma ArtifactDirsListed(job: Job, start: Files, events: seq<Event>, files: Files)
    requires job.Ready() && Vacant(job, start) && Progress(job, start, events, files)
    requires Delivered(job, events)
    ensures PayloadsExact(files, job.root, job.plan.gitSha, job.plan.shardCount)
  {
    var count := job.plan.shardCount;
    RootListed(job, start, events, files);
    forall i: nat | i < count ensures PairListed(files, job.root, job.plan.gitSha, i, count) {
      assert Filled(job, events, Data(i)) && Readable(job, events, i);
      assert OnDisk(job, events, files, Data(i)) && OnDisk(job, events, files, Meta(i));
      WorkerListing(job, start, events, files, i);
    }
  }

  lemma RootListed(job: Job, start: Files, events: seq<Event>, files: Files)
    requires job.Ready() && Vacant(job, start) && Progress(job, start, events, files)
    requires Delivered(job, events)
    ensures FileNames(files, job.root) == {}
    ensures SubdirectoryNames(files, job.root)
      == set i | 0 <= i < job.plan.shardCount :: ArtifactName(job.plan.gitSha, i)
  {
    var count := job.plan.shardCount;
    var names := set i | 0 <= i < count :: ArtifactName(job.plan.gitSha, i);
    forall p | p in files && job.root <= p.dir
      ensures p.dir == job.root ==> p.name == ""
      ensures p.dir != job.root ==> |p.dir| == |job.root| + 1 && p.dir[|job.root|] in names
    {
      UnderRoot(job, start, files, p);
    }
    forall i: nat | i < count ensures ArtifactName(job.plan.gitSha, i) in SubdirectoryNames(files, job.root) {
      assert Filled(job, events, Data(i));
      assert OnDisk(job, events, files, Data(i));
      OutputNamed(job, Data(i));
      var p := job.PathOf(Data(i));
      assert p in files && p.dir[..|job.root|] == job.root;
    }
  }

  lemma UnderRoot(job: Job, start: Files, files: Files, p: Path)
    requires job.Ready() && Vacant(job, start) && OnlyOutputs(job, start, files)
    requires p in files && job.root <= p.dir
    ensures p.dir == job.root ==> p.name == ""
    ensures p.dir != job.root ==> exists i: nat :: i < |job.data| && p.dir == job.Dir(i)
  {
    if p in start {
      assert OwnDirectory(job, p.dir);
    } else {
      var o :| MadeBy(job, p, o);
      OutputNamed(job, o);
    }
  }

  lemma AllDeliveredStageable(job: Job, start: Files, events: seq<Event>, files: Files, planPath: Path,
                              combine: seq<string>)
    requires job.Ready() && CodecLaws(job.k) && PrefixLaw(job.k) && CleanStart(job, start, planPath, combine)
    requires Progress(job, start, events, files) && Delivered(job, events)
    ensures AllStageable(job.k, job.plan, files, job.root, combine, job.plan.shardCount)
  {
    forall i: nat | i < job.plan.shardCount
      ensures Stageable(job.k, job.plan, files, job.root, combine, i)
    {
      VerifiedExactly(job, start, events, files, i);
      WholeMeansFilled(job, start, events, files, Data(i));
      StagedBefore(job, start, files, planPath, combine, i);
    }
  }

  /** What stands where shard i is staged is an earlier copy of the same data. */
  lemma StagedBefore(job: Job, start: Files, files: Files, planPath: Path, combine: seq<string>, i: nat)
    requires job.Ready() && i < |job.data| && CleanStart(job, start, planPath, combine)
    requires OnlyOutputs(job, start, files)
    ensures var p := StagedPath(combine, i, job.plan.shardCount); p in files ==> files[p] == job.data[i]
  {
    var p := StagedPath(combine, i, job.plan.shardCount);
    if p in files {
      NotAnOutput(job, start, files, planPath, combine, p);
      assert EarlierStaged(job, start, combine, p);
      assert p.name[0] == '.';
      var j: nat :| j < |job.data| && p == StagedPath(combine, j, job.plan.shardCount) && start[p] == job.data[j];
      if j != i {
        StagedNamesDiffer(i, j, job.plan.shardCount);
      }
    }
  }

  lemma PrefixesCompare(a: seq<string>, b: seq<string>, s: seq<string>)
    requires a <= s && b <= s
    ensures a <= b || b <= a
  {
    assert a == s[..|a|] && b == s[..|b|];
  }

  /** Outputs lie under the root, so none lies under the combine directory. */
  lemma NotAnOutput(job: Job, start: Files, files: Files, planPath: Path, combine: seq<string>, p: Path)
    requires job.Ready() && CleanStart(job, start, planPath, combine) && OnlyOutputs(job, start, files)
    requires p in files && combine <= p.dir
    ensures p in start && EarlierStaged(job, start, combine, p)
  {
    if p !in start {
      var o :| MadeBy(job, p, o);
      OutputNamed(job, o);
      PrefixesCompare(job.root, combine, p.dir);
    }
  }

  lemma {:induction false} StagedComesFrom(plan: Plan, files: Files, root: seq<string>, combine: seq<string>,
                                           n: nat, p: Path)
    requires plan.shardCount >= 1
    requires p in Staged(plan, files, root, combine, n)
    ensures p in files || exists i: nat :: i < n && p == StagedPath(combine, i, plan.shardCount)
  {
    if n > 0 && p != StagedPath(combine, n - 1, plan.shardCount) {
      StagedComesFrom(plan, files, root, combine, n - 1, p);
    }
  }

  /** After staging, the combine directory lists exactly the staged names. */
  lemma CombineListing(job: Job, start: Files, files: Files, planPath: Path, combine: seq<string>)
    requires job.Ready() && CleanStart(job, start, planPath, combine) && OnlyOutputs(job, start, files)
    ensures Listing(Staged(job.plan, files, job.root, combine, job.plan.shardCount), combine)
         == StagedNames(job.plan.shardCount, job.plan.shardCount)
  {
    var count := job.plan.shardCount;
    var after := Staged(job.plan, files, job.root, combine, count);
    forall p | p in after && combine <= p.dir
      ensures p.dir == combine && (p.name == "" || p.name in StagedNames(count, count))
    {
      StagedComesFrom(job.plan, files, job.root, combine, count, p);
      if p in files {
        NotAnOutput(job, start, files, planPath, combine, p);
      }
    }
    assert SubdirectoryNames(after, combine) == {};
    forall i: nat | i < count ensures StagedName(i, count) in FileNames(after, combine) {
      StagedHolds(job.plan, files, job.root, combine, count, i);
      assert StagedPath(combine, i, count) in after && StagedName(i, count)[0] == '.';
    }
    assert FileNames(after, combine) == StagedNames(count, count);
  }

  /** The starting files untouched, every output with its whole content, and nothing else. */
  ghost predicate HoldsAll(job: Job, start: Files, files: Files)
    requires job.Ready()
  {
    && OnlyOutputs(job, start, files)
    && forall o: Output :: job.Makes(o) ==> job.PathOf(o) in files && files[job.PathOf(o)] == job.Content(o)
  }

  lemma FinishedHoldsAll(job: Job, start: Files, events: seq<Event>)
    requires job.Ready() && InRange(job, events) && Causal(events) && Vacant(job, start)
    requires Finished(job, events)
    ensures HoldsAll(job, start, Run(job, start, events))
  {
    var files := Run(job, start, events);
    RunProgress(job, start, events);
    forall o: Output | job.Makes(o) ensures job.PathOf(o) in files && files[job.PathOf(o)] == job.Content(o) {
      WholeMeansFilled(job, start, events, files, o);
    }
  }

  lemma HeldAlike(job: Job, start: Files, a: Files, b: Files, p: Path)
    requires job.Ready() && HoldsAll(job, start, a) && HoldsAll(job, start, b) && p in a
    ensures p in b && b[p] == a[p]
  {
    if p !in start {
      var o :| MadeBy(job, p, o);
    }
  }

  /** All finished runs, whatever was refused on the way, end in the same files. */
  lemma FinishedRunsAgree(job: Job, start: Files, events: seq<Event>, other: seq<Event>)
    requires job.Ready() && Vacant(job, start)
    requires InRange(job, events) && Causal(events) && Finished(job, events)
    requires InRange(job, other) && Causal(other) && Finished(job, other)
    ensures Run(job, start, events) == Run(job, start, other)
    ensures HoldsAll(job, start, Run(job, start, events))
  {
    var a, b := Run(job, start, events), Run(job, start, other);
    FinishedHoldsAll(job, start, events);
    FinishedHoldsAll(job, start, other);
    forall p | p in a ensures p in b && b[p] == a[p] {
      HeldAlike(job, start, a, b, p);
    }
    forall p | p in b ensures p in a {
      HeldAlike(job, start, b, a, p);
    }
  }

  /**
   Write a plan of a collection; let the workers run their steps in any interleaving, repeating
   and breaking off anywhere; then verify with the same commit and a collection that plans
   alike. Verification succeeds exactly when all data was delivered whole and all metadata
   readable.
   */
  lemma VerifiesExactly(c: Commit, job: Job, values: seq<string>, collected: seq<string>, start: Files,
                        events: seq<Event>, planPath: Path, combine: seq<string>)
    requires CodecLaws(job.k) && PrefixLaw(job.k) && job.Ready()
    requires PlanFor(c, values, job.plan.shardCount, job.plan.gitSha) == Ok(job.plan)
    requires multiset(Map(Respelled, collected)) == multiset(Map(Respelled, values))
    requires CleanStart(job, start, planPath, combine)
    requires InRange(job, events) && Causal(events)
    ensures Verifiable(c, job.k, Run(job, start, events), planPath, job.root, combine, job.plan.gitSha,
                       Some(job.plan.gitSha), collected)
      <==> Delivered(job, events)
  {
    var files := Run(job, start, events);
    RunProgress(job, start, events);
    PlannedIsAccepted(c, values, job.plan);
    PlanningIsCanonical(c, collected, values, job.plan.shardCount, job.plan.gitSha);
    PlanStillStands(c, job, collected, start, files, planPath);
    if Delivered(job, events) {
      ArtifactDirsListed(job, start, events, files);
      AllDeliveredStageable(job, start, events, files, planPath, combine);
      CombineListing(job, start, files, planPath, combine);
    } else if Verifiable(c, job.k, files, planPath, job.root, combine, job.plan.gitSha, Some(job.plan.gitSha),
                         collected) {
      VerifiableIsDelivered(job, start, events, files, combine);
    }
  }

  lemma VerifiableIsDelivered(job: Job, start: Files, events: seq<Event>, files: Files, combine: seq<string>)
    requires CodecLaws(job.k) && PrefixLaw(job.k) && job.Ready() && Progress(job, start, events, files)
    requires AllStageable(job.k, job.plan, files, job.root, combine, job.plan.shardCount)
    ensures Delivered(job, events)
  {
    forall i: nat | i < |job.data| ensures Filled(job, events, Data(i)) && Readable(job, events, i) {
      assert Stageable(job.k, job.plan, files, job.root, combine, i);
      VerifiedExactly(job, start, events, files, i);
    }
  }

  /**
   Completeness of the protocol. When every file was filled, verification succeeds and each
   staged file holds its worker's original bytes; and no step was refused on the way exactly
   when no file was left unfilled before the next attempt on it.
   */
  lemma ProtocolCompletes(c: Commit, job: Job, values: seq<string>, collected: seq<string>, start: Files,
                          events: seq<Event>, planPath: Path, combine: seq<string>)
    requires CodecLaws(job.k) && PrefixLaw(job.k) && job.Ready()
    requires PlanFor(c, values, job.plan.shardCount, job.plan.gitSha) == Ok(job.plan)
    requires multiset(Map(Respelled, collected)) == multiset(Map(Respelled, values))
    requires CleanStart(job, start, planPath, combine)
    requires InRange(job, events) && Causal(events) && Finished(job, events)
    ensures NoneRefused(job, start, events) <==> NoTornRetry(job, events)
    ensures var files := Run(job, start, events);
      var after := Staged(job.plan, files, job.root, combine, job.plan.shardCount);
      && Verifiable(c, job.k, files, planPath, job.root, combine, job.plan.gitSha, Some(job.plan.gitSha), collected)
      && forall i: nat :: i < |job.data| ==>
        var p := StagedPath(combine, i, job.plan.shardCount);
        p in after && after[p] == job.data[i]
  {
    RunsNeverRefuse(job, start, events);
    FinishedIsDelivered(job, events);
    VerifiesExactly(c, job, values, collected, start, events, planPath, combine);
    var files := Run(job, start, events);
    forall i: nat | i < |job.data|
      ensures var p := StagedPath(combine, i, job.plan.shardCount);
        var after := Staged(job.plan, files, job.root, combine, job.plan.shardCount);
        p in after && after[p] == job.data[i]
    {
      StagedHolds(job.plan, files, job.root, combine, job.plan.shardCount, i);
      RunProgress(job, start, events);
      WholeMeansFilled(job, start, events, files, Data(i));
    }
  }

  lemma PlannedIsAccepted(c: Commit, values: seq<string>, plan: Plan)
    requires PlanFor(c, values, plan.shardCount, plan.gitSha) == Ok(plan)
    ensures Accepted(c, plan, Some(plan.gitSha))
  {
    EligibleIsCanonical(values);
    PlannerPassesChecker(c, Eligible(values).value, plan.shardCount, plan.gitSha);
  }

  lemma PlanStillStands(c: Commit, job: Job, collected: seq<string>, start: Files, files: Files, planPath: Path)
    requires CodecLaws(job.k) && job.Ready()
    requires PlanFor(c, collected, job.plan.shardCount, job.plan.gitSha) == Ok(job.plan)
    requires Accepted(c, job.plan, Some(job.plan.gitSha))
    requires planPath in start && start[planPath] == (job.k.renderPlan)(job.plan)
    requires Extends(start, files)
    ensures PlanStands(c, job.k, files, planPath, job.plan.gitSha, Some(job.plan.gitSha), collected)
    ensures LoadPlan(c, job.k, files, planPath) == Some(job.plan)
  {
    assert (job.k.parsePlan)((job.k.renderPlan)(job.plan)) == Some(job.plan);
  }
}
