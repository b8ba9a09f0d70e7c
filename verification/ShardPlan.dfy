/**
 The shard plan: what the planner builds, what the independent checker accepts, and why
 they agree. Digests are uninterpreted functions carried by `Commit`.
 */
module ShardPlan {
  import opened Sorting
  import opened NodeIds
  import Lpt

  const ALGORITHM := "module-grouped-lpt-v1"
  const MARKER_EXPRESSION := "not performance"
  const SCHEMA_VERSION := "ci-coverage-shard-plan-v1"
  const DEFAULT_FILE_WEIGHT: nat := 5
  const DEFAULT_NODEID_WEIGHT: nat := 1

  // ----- data model

  datatype Shard = Shard(
    weight: int, nodeidCount: int, nodeidSha: string, nodeids: seq<string>,
    index: int, fileCount: int, files: seq<string>)

  datatype Partition = Partition(complete: bool, duplicates: int, omitted: int, unexpected: int)

  datatype Plan = Plan(
    algorithm: string, eligibleCount: int, eligibleSha: string, gitSha: string,
    marker: string, partition: Partition, planSha: string, schema: string,
    shardCount: int, shards: seq<Shard>, weightModelSha: string)

  /** Static weight estimates of single modules; none is zero. */
  type Overrides = o: map<string, nat> | forall p :: p in o ==> o[p] >= 1

  /** What a commit of the repository fixes: the digests (of a list of strings, of a plan
      without its own digest, and of the weight model) and the weight overrides. */
  datatype Commit = Commit(
    strings: seq<string> -> string, body: Plan -> string, weightModel: string, overrides: Overrides)

  function PlanDigest(c: Commit, p: Plan): string {
    (c.body)(p.(planSha := ""))
  }

  datatype PlannerError =
    | BadGitSha | BadShardCount | BadCollection | TooManyShards
    | IncompletePartition | RejectedByChecker

  datatype Result<+T, +E> = Ok(value: T) | Err(error: E)

  predicate IsGitSha(s: string) {
    |s| == 40 && forall d :: d in s ==> '0' <= d <= '9' || 'a' <= d <= 'f'
  }

  // ----- the weight model

  function EstimatedFileWeight(c: Commit, path: string, count: nat): nat {
    if path in c.overrides then c.overrides[path]
    else DEFAULT_FILE_WEIGHT + DEFAULT_NODEID_WEIGHT * count
  }

  lemma WeightsArePositive(c: Commit, path: string, count: nat)
    ensures EstimatedFileWeight(c, path, count) >= 1
  {
  }

  function InFile(file: string): string -> bool {
    id => FileOf(id) == file
  }

  function InFiles(files: seq<string>): string -> bool {
    id => FileOf(id) in files
  }

  /** The identifiers of one module, in the order of the population. */
  function ModuleIds(ids: seq<string>, file: string): seq<string> {
    Filter(InFile(file), ids)
  }

  function ModuleWeight(c: Commit, ids: seq<string>, file: string): nat {
    EstimatedFileWeight(c, file, |ModuleIds(ids, file)|)
  }

  function WeightIn(c: Commit, ids: seq<string>): string -> nat {
    f => ModuleWeight(c, ids, f)
  }

  function FilesOf(ids: seq<string>): (r: seq<string>)
    ensures Distinct(r)
  {
    Keys(Map(FileOf, ids))
  }

  lemma FilesOfMembers(ids: seq<string>, f: string)
    ensures f in FilesOf(ids) <==> exists id :: id in ids && FileOf(id) == f
  {
    var fs := Map(FileOf, ids);
    if f in FilesOf(ids) {
      var k :| 0 <= k < |FilesOf(ids)| && FilesOf(ids)[k] == f;
      assert FilesOf(ids)[k] in fs;
      var i :| 0 <= i < |fs| && fs[i] == f;
      assert ids[i] in ids && FileOf(ids[i]) == f;
    }
    if id :| id in ids && FileOf(id) == f {
      var i :| 0 <= i < |ids| && ids[i] == id;
      assert fs[i] == f;
    }
  }

  // ----- the planner's plan

  /** Heavier modules first, equal weights by path: the sort key has no ties. */
  function HeavierFirst(c: Commit, ids: seq<string>): (string, string) -> bool {
    (p, q) =>
      ModuleWeight(c, ids, p) > ModuleWeight(c, ids, q)
      || (ModuleWeight(c, ids, p) == ModuleWeight(c, ids, q) && StringLeq(p, q))
  }

  lemma HeavierFirstIsTotal(c: Commit, ids: seq<string>)
    ensures TotalOrder(HeavierFirst(c, ids))
  {
    StringOrder();
  }

  function OrderedFiles(c: Commit, ids: seq<string>): (r: seq<string>)
    ensures multiset(r) == multiset(FilesOf(ids))
  {
    Sort(HeavierFirst(c, ids), FilesOf(ids))
  }

  function OrderedWeights(c: Commit, ids: seq<string>): (r: seq<nat>)
    ensures |r| == |OrderedFiles(c, ids)|
  {
    Map(WeightIn(c, ids), OrderedFiles(c, ids))
  }

  /** The items an assignment gives to shard q, in order. */
  function Pick<T>(items: seq<T>, owners: seq<nat>, q: nat): (r: seq<T>)
    requires |owners| == |items|
    ensures forall k :: 0 <= k < |r| ==> r[k] in items
  {
    if items == [] then []
    else
      var n := |items| - 1;
      Pick(items[..n], owners[..n], q) + if owners[n] == q then [items[n]] else []
  }

  function Owners(c: Commit, ids: seq<string>, m: nat): (a: seq<nat>)
    requires m >= 1
    ensures Lpt.Assignment(a, |OrderedFiles(c, ids)|, m)
  {
    Lpt.Greedy(OrderedWeights(c, ids), m)
  }

  function ShardFiles(c: Commit, ids: seq<string>, m: nat, q: nat): seq<string>
    requires m >= 1
  {
    Pick(OrderedFiles(c, ids), Owners(c, ids, m), q)
  }

  function ShardOver(c: Commit, ids: seq<string>, files: seq<string>, weight: int, q: nat): Shard {
    Shard(weight, |ids|, (c.strings)(ids), ids, q, |files|, files)
  }

  function PlannedShard(c: Commit, ids: seq<string>, m: nat, q: nat): Shard
    requires m >= 1
  {
    var files := ShardFiles(c, ids, m, q);
    ShardOver(c, Filter(InFiles(files), ids), SortStrings(files),
              Lpt.Load(OrderedWeights(c, ids), Owners(c, ids, m), q), q)
  }

  const NOTHING_LOST := Partition(true, 0, 0, 0)

  function PlanOver(c: Commit, ids: seq<string>, sha: string, shards: seq<Shard>, partition: Partition): Plan {
    var body := Plan(ALGORITHM, |ids|, (c.strings)(ids), sha, MARKER_EXPRESSION, partition,
                     "", SCHEMA_VERSION, |shards|, shards, c.weightModel);
    body.(planSha := PlanDigest(c, body))
  }

  function LptPlan(c: Commit, ids: seq<string>, m: nat, sha: string): Plan
    requires m >= 1
  {
    PlanOver(c, ids, sha, seq(m, q requires 0 <= q < m => PlannedShard(c, ids, m, q)), NOTHING_LOST)
  }

  /** What planning a collection comes to, refusals included. */
  function PlanFor(c: Commit, values: seq<string>, count: int, sha: string): Result<Plan, PlannerError> {
    if !IsGitSha(sha) then Err(BadGitSha)
    else if count < 1 then Err(BadShardCount)
    else
      match Eligible(values)
      case None => Err(BadCollection)
      case Some(ids) =>
        if count > |FilesOf(ids)| then Err(TooManyShards) else Ok(LptPlan(c, ids, count, sha))
  }

  // ----- what the checker accepts

  function AllIds(shards: seq<Shard>): seq<string> {
    Flatten(Map((s: Shard) => s.nodeids, shards))
  }

  function DerivedFiles(ids: seq<string>): seq<string> {
    SortStrings(FilesOf(ids))
  }

  /** The weight model applied to a set of identifiers as a whole. */
  function ModelWeight(c: Commit, ids: seq<string>): nat {
    SumBy(WeightIn(c, ids), DerivedFiles(ids))
  }

  ghost predicate ShardAccepted(c: Commit, s: Shard, position: nat) {
    && s.index == position
    && s.nodeids != []
    && (forall id :: id in s.nodeids ==> Canonical(id))
    && Sorted(StringLeq, s.nodeids)
    && Distinct(s.nodeids)
    && s.nodeidCount == |s.nodeids|
    && s.nodeidSha == (c.strings)(s.nodeids)
    && s.files == DerivedFiles(s.nodeids)
    && s.fileCount == |s.files|
    && s.weight == ModelWeight(c, s.nodeids)
  }

  ghost predicate ModulesDisjoint(shards: seq<Shard>) {
    forall i, j, f :: 0 <= i < j < |shards| && f in shards[i].files ==> f !in shards[j].files
  }

  ghost predicate ShardsAccepted(c: Commit, shards: seq<Shard>) {
    && (forall i :: 0 <= i < |shards| ==> ShardAccepted(c, shards[i], i))
    && ModulesDisjoint(shards)
  }

  predicate HeaderAccepted(c: Commit, p: Plan, expectedSha: Option<string>) {
    && p.schema == SCHEMA_VERSION
    && p.algorithm == ALGORITHM
    && p.marker == MARKER_EXPRESSION
    && IsGitSha(p.gitSha)
    && (expectedSha.Some? ==> p.gitSha == expectedSha.value)
    && p.weightModelSha == c.weightModel
    && p.planSha == PlanDigest(c, p)
    && p.shardCount == |p.shards| >= 1
  }

  ghost predicate Accepted(c: Commit, p: Plan, expectedSha: Option<string>) {
    && HeaderAccepted(c, p, expectedSha)
    && ShardsAccepted(c, p.shards)
    && p.eligibleCount == |AllIds(p.shards)|
    && p.eligibleSha == (c.strings)(SortStrings(AllIds(p.shards)))
    && p.partition == NOTHING_LOST
  }
}
