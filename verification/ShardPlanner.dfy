/**
 The planner. `BuildPlan` groups, sorts, assigns, lists and self-checks, and comes to
 exactly `PlanFor`; the theorems relate that plan to the checker, to any rearrangement of
 the collection, and to any other plan of the same population.
 */
module ShardPlanner {
  import opened Sorting
  import opened NodeIds
  import opened ShardPlan
  import opened ShardChecker
  import Lpt

  // ----- picking by owner

  /** x is among the items, at a position whose owner is q. */
  ghost predicate GivenTo<T>(items: seq<T>, owners: seq<nat>, q: nat, x: T)
    requires |owners| == |items|
  {
    exists i :: 0 <= i < |items| && items[i] == x && owners[i] == q
  }

  lemma GivenLast<T>(items: seq<T>, owners: seq<nat>, q: nat, x: T)
    requires |owners| == |items| >= 1
    ensures var n := |items| - 1;
      GivenTo(items, owners, q, x) <==> GivenTo(items[..n], owners[..n], q, x) || (items[n] == x && owners[n] == q)
  {
    var n := |items| - 1;
    if i :| 0 <= i < n && items[i] == x && owners[i] == q {
      assert items[..n][i] == x && owners[..n][i] == q;
    }
    if i :| 0 <= i < n && items[..n][i] == x && owners[..n][i] == q {
      assert items[i] == x && owners[i] == q;
    }
  }

  lemma {:induction false} PickMembers<T>(items: seq<T>, owners: seq<nat>, q: nat, x: T)
    requires |owners| == |items|
    ensures x in Pick(items, owners, q) <==> GivenTo(items, owners, q, x)
  {
    if items != [] {
      var n := |items| - 1;
      PickMembers(items[..n], owners[..n], q, x);
      GivenLast(items, owners, q, x);
    }
  }

  lemma {:induction false} PickDistinct<T>(items: seq<T>, owners: seq<nat>, q: nat)
    requires |owners| == |items| && Distinct(items)
    ensures Distinct(Pick(items, owners, q))
  {
    if items != [] {
      var n := |items| - 1;
      PickDistinct(items[..n], owners[..n], q);
      assert forall x :: x in Pick(items[..n], owners[..n], q) ==> x in items[..n];
      assert items[n] !in items[..n];
      DistinctAppend(Pick(items[..n], owners[..n], q), [items[n]]);
    }
  }

  /** The load of a shard is the weight of what it was given. */
  lemma {:induction false} PickWeighs<T>(f: T -> nat, items: seq<T>, owners: seq<nat>, q: nat)
    requires |owners| == |items|
    ensures Lpt.Load(Map(f, items), owners, q) == SumBy(f, Pick(items, owners, q))
  {
    if items != [] {
      var n := |items| - 1;
      PickWeighs(f, items[..n], owners[..n], q);
      assert Map(f, items)[..n] == Map(f, items[..n]);
      var before := Pick(items[..n], owners[..n], q);
      SumByAppend(f, before, [items[n]]);
      assert SumBy(f, [items[n]]) == f(items[n]) + SumBy(f, []);
      assert Pick(items, owners, q) == if owners[n] == q then before + [items[n]] else before;
    }
  }

  // ----- the ordered modules

  lemma OrderedFilesSorted(c: Commit, ids: seq<string>)
    ensures Sorted(HeavierFirst(c, ids), OrderedFiles(c, ids))
    ensures Distinct(OrderedFiles(c, ids)) && |OrderedFiles(c, ids)| == |FilesOf(ids)|
    ensures forall f :: f in OrderedFiles(c, ids) <==> f in FilesOf(ids)
  {
    HeavierFirstIsTotal(c, ids);
    SortSorts(HeavierFirst(c, ids), FilesOf(ids));
    DistinctRearranged(OrderedFiles(c, ids), FilesOf(ids));
    SameElements(OrderedFiles(c, ids), FilesOf(ids));
  }

  lemma OrderedWeightsFall(c: Commit, ids: seq<string>)
    ensures Lpt.NonIncreasing(OrderedWeights(c, ids))
    ensures forall i :: 0 <= i < |OrderedWeights(c, ids)| ==> OrderedWeights(c, ids)[i] >= 1
  {
    var w := OrderedWeights(c, ids);
    forall i: nat, j: nat | i < j < |w| ensures w[i] >= w[j] {
      WeightsInOrder(c, ids, i, j);
    }
    forall i: nat | i < |w| ensures w[i] >= 1 {
      WeightIsPositive(c, ids, i);
    }
  }

  lemma WeightsInOrder(c: Commit, ids: seq<string>, i: nat, j: nat)
    requires i < j < |OrderedWeights(c, ids)|
    ensures OrderedWeights(c, ids)[i] >= OrderedWeights(c, ids)[j]
  {
    OrderedFilesSorted(c, ids);
    assert HeavierFirst(c, ids)(OrderedFiles(c, ids)[i], OrderedFiles(c, ids)[j]);
  }

  lemma WeightIsPositive(c: Commit, ids: seq<string>, i: nat)
    requires i < |OrderedWeights(c, ids)|
    ensures OrderedWeights(c, ids)[i] >= 1
  {
    var f := OrderedFiles(c, ids)[i];
    WeightsArePositive(c, f, |ModuleIds(ids, f)|);
  }

  // ----- one planned shard

  lemma ShardFilesFacts(c: Commit, ids: seq<string>, m: nat, q: nat)
    requires m >= 1
    ensures Distinct(ShardFiles(c, ids, m, q))
    ensures forall f :: f in ShardFiles(c, ids, m, q) ==> f in FilesOf(ids)
  {
    OrderedFilesSorted(c, ids);
    PickDistinct(OrderedFiles(c, ids), Owners(c, ids, m), q);
    assert forall f :: f in ShardFiles(c, ids, m, q) ==> f in OrderedFiles(c, ids);
  }

  lemma ShardFilesAreDerived(c: Commit, ids: seq<string>, m: nat, q: nat)
    requires m >= 1
    ensures var files := ShardFiles(c, ids, m, q);
      SortStrings(files) == DerivedFiles(Filter(InFiles(files), ids))
  {
    ShardFilesFacts(c, ids, m, q);
    var files := ShardFiles(c, ids, m, q);
    var own := Filter(InFiles(files), ids);
    forall f ensures f in files <==> f in FilesOf(own) {
      FilesOfMembers(ids, f);
      FilesOfMembers(own, f);
    }
    DistinctSameMembers(files, FilesOf(own));
    StringOrder();
    SortIsCanonical(StringLeq, files, FilesOf(own));
  }

  lemma ShardWeightIsModel(c: Commit, ids: seq<string>, m: nat, q: nat)
    requires m >= 1
    ensures var files := ShardFiles(c, ids, m, q);
      Lpt.Load(OrderedWeights(c, ids), Owners(c, ids, m), q) == ModelWeight(c, Filter(InFiles(files), ids))
  {
    var files := ShardFiles(c, ids, m, q);
    var own := Filter(InFiles(files), ids);
    PickWeighs(WeightIn(c, ids), OrderedFiles(c, ids), Owners(c, ids, m), q);
    SumByRearranged(WeightIn(c, ids), files, SortStrings(files));
    forall f | f in SortStrings(files) ensures WeightIn(c, ids)(f) == WeightIn(c, own)(f) {
      SameElements(files, SortStrings(files));
      FilterTwice(InFile(f), InFiles(files), ids);
    }
    SumByAgrees(WeightIn(c, ids), WeightIn(c, own), SortStrings(files));
    ShardFilesAreDerived(c, ids, m, q);
  }

  lemma ShardIsInhabited(c: Commit, ids: seq<string>, m: nat, q: nat)
    requires q < m <= |FilesOf(ids)|
    ensures Filter(InFiles(ShardFiles(c, ids, m, q)), ids) != []
  {
    OrderedFilesSorted(c, ids);
    OrderedWeightsFall(c, ids);
    Lpt.FirstWeightsSpread(OrderedWeights(c, ids), m, q);
    var f := OrderedFiles(c, ids)[q];
    PickMembers(OrderedFiles(c, ids), Owners(c, ids, m), q, f);
    FilesOfMembers(ids, f);
    var id :| id in ids && FileOf(id) == f;
    assert id in Filter(InFiles(ShardFiles(c, ids, m, q)), ids);
  }

  ghost predicate Population(ids: seq<string>) {
    && ids != [] && Sorted(StringLeq, ids) && Distinct(ids)
    && forall id :: id in ids ==> Canonical(id)
  }

  lemma PlannedShardAccepted(c: Commit, ids: seq<string>, m: nat, q: nat)
    requires Population(ids) && q < m <= |FilesOf(ids)|
    ensures ShardAccepted(c, PlannedShard(c, ids, m, q), q)
  {
    var files := ShardFiles(c, ids, m, q);
    ShardIsInhabited(c, ids, m, q);
    FilterKeepsSorted(StringLeq, InFiles(files), ids);
    FilterKeepsDistinct(InFiles(files), ids);
    ShardFilesAreDerived(c, ids, m, q);
    ShardWeightIsModel(c, ids, m, q);
  }

  lemma PickApart<T>(items: seq<T>, owners: seq<nat>, q: nat, r: nat, x: T)
    requires |owners| == |items| && Distinct(items) && q != r && x in Pick(items, owners, q)
    ensures x !in Pick(items, owners, r)
  {
    PickMembers(items, owners, q, x);
    PickMembers(items, owners, r, x);
  }

  lemma PlannedModulesDisjoint(c: Commit, ids: seq<string>, m: nat, q: nat, r: nat, f: string)
    requires m >= 1 && q != r
    requires f in ShardFiles(c, ids, m, q)
    ensures f !in ShardFiles(c, ids, m, r)
  {
    OrderedFilesSorted(c, ids);
    PickApart(OrderedFiles(c, ids), Owners(c, ids, m), q, r, f);
  }

  // ----- the plan as a whole

  function PlannedShards(c: Commit, ids: seq<string>, m: nat): (r: seq<Shard>)
    requires m >= 1
    ensures |r| == m && forall q: nat :: q < m ==> r[q] == PlannedShard(c, ids, m, q)
  {
    seq(m, q requires 0 <= q < m => PlannedShard(c, ids, m, q))
  }

  lemma PlannedShardsAccepted(c: Commit, ids: seq<string>, m: nat)
    requires Population(ids) && 1 <= m <= |FilesOf(ids)|
    ensures ShardsAccepted(c, PlannedShards(c, ids, m))
  {
    var shards := PlannedShards(c, ids, m);
    forall q: nat | q < m ensures ShardAccepted(c, shards[q], q) {
      PlannedShardAccepted(c, ids, m, q);
    }
    forall q, r, f | 0 <= q < r < m && f in shards[q].files ensures f !in shards[r].files {
      SameElements(shards[q].files, ShardFiles(c, ids, m, q));
      SameElements(shards[r].files, ShardFiles(c, ids, m, r));
      PlannedModulesDisjoint(c, ids, m, q, r, f);
    }
  }

  /** Every identifier reaches exactly one shard. */
  lemma PlannedIdsComplete(c: Commit, ids: seq<string>, m: nat)
    requires Population(ids) && 1 <= m <= |FilesOf(ids)|
    ensures multiset(AllIds(PlannedShards(c, ids, m))) == multiset(ids)
    ensures SortStrings(AllIds(PlannedShards(c, ids, m))) == ids
  {
    var shards := PlannedShards(c, ids, m);
    PlannedShardsAccepted(c, ids, m);
    ModulesKeepIdsApart(c, shards);
    forall id ensures id in AllIds(shards) <==> id in ids {
      PlannedIdMembers(c, ids, m, id);
    }
    DistinctSameMembers(AllIds(shards), ids);
    SortedAgain(AllIds(shards), ids);
  }

  lemma SortedAgain(a: seq<string>, ids: seq<string>)
    requires multiset(a) == multiset(ids) && Sorted(StringLeq, ids)
    ensures SortStrings(a) == ids
  {
    StringOrder();
    SortSorts(StringLeq, a);
    SortedIsUnique(StringLeq, SortStrings(a), ids);
  }

  lemma PlannedIdMembers(c: Commit, ids: seq<string>, m: nat, id: string)
    requires m >= 1
    ensures id in AllIds(PlannedShards(c, ids, m)) <==> id in ids
  {
    var shards := PlannedShards(c, ids, m);
    AllIdsMembers(shards, id);
    if id in ids {
      var q := OwnerOf(c, ids, m, id);
      assert id in shards[q].nodeids;
    }
  }

  lemma OwnerOf(c: Commit, ids: seq<string>, m: nat, id: string) returns (q: nat)
    requires m >= 1 && id in ids
    ensures q < m && FileOf(id) in ShardFiles(c, ids, m, q)
  {
    OrderedFilesSorted(c, ids);
    FilesOfMembers(ids, FileOf(id));
    var files, owners := OrderedFiles(c, ids), Owners(c, ids, m);
    var i :| 0 <= i < |files| && files[i] == FileOf(id);
    q := owners[i];
    PickMembers(files, owners, q, files[i]);
  }

  /** Planner and checker agree: whatever the planner plans, the checker accepts. */
  lemma PlannerPassesChecker(c: Commit, ids: seq<string>, m: nat, sha: string)
    requires Population(ids) && 1 <= m <= |FilesOf(ids)| && IsGitSha(sha)
    ensures Accepted(c, LptPlan(c, ids, m, sha), Some(sha))
    ensures multiset(AllIds(LptPlan(c, ids, m, sha).shards)) == multiset(ids)
  {
    PlannedShardsAccepted(c, ids, m);
    PlannedIdsComplete(c, ids, m);
    SameElements(AllIds(PlannedShards(c, ids, m)), ids);
    var p := LptPlan(c, ids, m, sha);
    assert p.shards == PlannedShards(c, ids, m);
    assert PlanDigest(c, p) == PlanDigest(c, p.(planSha := ""));
  }

  /**
   Canonical planning: reordering the collection, or respelling the slashes of any file
   prefix, changes nothing, neither the plan nor the refusal.
   */
  lemma PlanningIsCanonical(c: Commit, p: seq<string>, q: seq<string>, count: int, sha: string)
    requires multiset(Map(Respelled, p)) == multiset(Map(Respelled, q))
    ensures PlanFor(c, p, count, sha) == PlanFor(c, q, count, sha)
  {
    EligibleIgnoresOrderAndSlashes(p, q);
  }

  // ----- balance

  /** The heaviest shard of a plan. */
  function HeaviestShard(shards: seq<Shard>): (r: nat)
    ensures forall i :: 0 <= i < |shards| ==> shards[i].weight <= r
    ensures r > 0 ==> exists i :: 0 <= i < |shards| && shards[i].weight == r
  {
    if shards == [] then 0
    else
      var n := |shards| - 1;
      var rest := HeaviestShard(shards[..n]);
      if rest >= shards[n].weight then rest else shards[n].weight
  }

  lemma HeaviestIsMaxLoad(shards: seq<Shard>, w: seq<nat>, a: seq<nat>)
    requires shards != [] && |a| == |w|
    requires forall q: nat :: q < |shards| ==> shards[q].weight == Lpt.Load(w, a, q)
    ensures HeaviestShard(shards) == Lpt.MaxLoad(w, a, |shards|)
  {
    if HeaviestShard(shards) > 0 {
      var i :| 0 <= i < |shards| && shards[i].weight == HeaviestShard(shards);
      assert Lpt.Load(w, a, i) <= Lpt.MaxLoad(w, a, |shards|);
    }
    var q: nat :| q < |shards| && Lpt.Load(w, a, q) == Lpt.MaxLoad(w, a, |shards|);
    assert shards[q].weight <= HeaviestShard(shards);
  }

  /** The shard of an accepted plan that holds module f. */
  lemma HolderOf(c: Commit, shards: seq<Shard>, f: string) returns (q: nat)
    requires ShardsAccepted(c, shards)
    requires f in FilesOf(AllIds(shards))
    ensures q < |shards| && f in shards[q].files
  {
    FilesOfMembers(AllIds(shards), f);
    var id :| id in AllIds(shards) && FileOf(id) == f;
    AllIdsMembers(shards, id);
    q :| 0 <= q < |shards| && id in shards[q].nodeids;
    FileIsDerived(c, shards[q], q, f);
  }

  /** b sends each file to a shard that holds it. */
  ghost predicate Reads(shards: seq<Shard>, files: seq<string>, b: seq<nat>) {
    && Lpt.Assignment(b, |files|, |shards|)
    && forall i :: 0 <= i < |files| ==> files[i] in shards[b[i]].files
  }

  ghost predicate Held(shards: seq<Shard>, f: string) {
    exists q: nat :: q < |shards| && f in shards[q].files
  }

  lemma {:induction false} ReadAssignment(shards: seq<Shard>, files: seq<string>) returns (b: seq<nat>)
    requires forall k :: 0 <= k < |files| ==> Held(shards, files[k])
    ensures Reads(shards, files, b)
  {
    if files == [] {
      b := [];
    } else {
      var n := |files| - 1;
      var front := ReadAssignment(shards, files[..n]);
      assert Held(shards, files[n]);
      var q: nat :| q < |shards| && files[n] in shards[q].files;
      b := front + [q];
      forall i | 0 <= i < |files| ensures files[i] in shards[b[i]].files {
        assert i < n ==> files[i] == files[..n][i];
      }
    }
  }

  lemma ShardFileIsListed(c: Commit, shards: seq<Shard>, q: nat, f: string)
    requires ShardsAccepted(c, shards) && q < |shards| && f in shards[q].files
    ensures f in FilesOf(AllIds(shards))
  {
    FileIsDerived(c, shards[q], q, f);
    var id :| id in shards[q].nodeids && FileOf(id) == f;
    AllIdsMembers(shards, id);
    FilesOfMembers(AllIds(shards), f);
  }

  lemma ReadAtShard(shards: seq<Shard>, files: seq<string>, b: seq<nat>, q: nat, f: string)
    requires ModulesDisjoint(shards) && Reads(shards, files, b)
    requires q < |shards| && f in shards[q].files && f in files
    ensures GivenTo(files, b, q, f)
  {
    var i :| 0 <= i < |files| && files[i] == f;
    assert !(b[i] < q) && !(q < b[i]);
  }

  lemma AssignmentPicksShard(c: Commit, shards: seq<Shard>, files: seq<string>, b: seq<nat>, q: nat)
    requires ShardsAccepted(c, shards) && q < |shards|
    requires Distinct(files)
    requires forall f :: f in files <==> f in FilesOf(AllIds(shards))
    requires Reads(shards, files, b)
    ensures multiset(Pick(files, b, q)) == multiset(shards[q].files)
  {
    PickDistinct(files, b, q);
    SortStringsSorts(FilesOf(shards[q].nodeids));
    forall f ensures f in Pick(files, b, q) <==> f in shards[q].files {
      PickMembers(files, b, q, f);
      if f in shards[q].files {
        ShardFileIsListed(c, shards, q, f);
        ReadAtShard(shards, files, b, q, f);
      }
    }
    DistinctSameMembers(Pick(files, b, q), shards[q].files);
  }

  /** The weight an accepted plan gives shard q is the load of that reading. */
  lemma ReadingWeighs(c: Commit, shards: seq<Shard>, ids: seq<string>, files: seq<string>, b: seq<nat>, q: nat)
    requires ShardsAccepted(c, shards) && q < |shards|
    requires multiset(AllIds(shards)) == multiset(ids)
    requires |b| == |files|
    requires multiset(Pick(files, b, q)) == multiset(shards[q].files)
    ensures shards[q].weight == Lpt.Load(Map(WeightIn(c, ids), files), b, q)
  {
    PickWeighs(WeightIn(c, ids), files, b, q);
    SumByRearranged(WeightIn(c, ids), Pick(files, b, q), shards[q].files);
    forall f | f in shards[q].files ensures WeightIn(c, ids)(f) == WeightIn(c, shards[q].nodeids)(f) {
      ModuleStaysWhole(c, shards, q, f);
      ModuleWeightRearranged(c, AllIds(shards), ids, f);
    }
    SumByAgrees(WeightIn(c, ids), WeightIn(c, shards[q].nodeids), shards[q].files);
  }

  lemma ModuleWeightRearranged(c: Commit, a: seq<string>, b: seq<string>, f: string)
    requires multiset(a) == multiset(b)
    ensures ModuleWeight(c, a, f) == ModuleWeight(c, b, f)
  {
    forall x ensures multiset(ModuleIds(a, f))[x] == multiset(ModuleIds(b, f))[x] {
      FilterCounts(InFile(f), a, x);
      FilterCounts(InFile(f), b, x);
    }
    SameElements(ModuleIds(a, f), ModuleIds(b, f));
  }

  lemma OtherPlanAsAssignment(c: Commit, ids: seq<string>, shards: seq<Shard>) returns (b: seq<nat>)
    requires ShardsAccepted(c, shards)
    requires multiset(AllIds(shards)) == multiset(ids)
    ensures Lpt.Assignment(b, |OrderedWeights(c, ids)|, |shards|)
    ensures forall q: nat :: q < |shards| ==> shards[q].weight == Lpt.Load(OrderedWeights(c, ids), b, q)
  {
    OrderedFilesSorted(c, ids);
    var files := OrderedFiles(c, ids);
    SameElements(AllIds(shards), ids);
    forall f ensures f in files <==> f in FilesOf(AllIds(shards)) {
      FilesOfMembers(ids, f);
      FilesOfMembers(AllIds(shards), f);
    }
    forall k | 0 <= k < |files| ensures Held(shards, files[k]) {
      var q := HolderOf(c, shards, files[k]);
    }
    b := ReadAssignment(shards, files);
    forall q: nat | q < |shards| ensures shards[q].weight == Lpt.Load(OrderedWeights(c, ids), b, q) {
      AssignmentPicksShard(c, shards, files, b, q);
      ReadingWeighs(c, shards, ids, files, b, q);
    }
  }

  /**
   The plan is within 4/3 - 1/(3m) of every plan the checker would accept for the same
   population and the same number m of shards.
   */
  lemma PlanIsBalanced(c: Commit, ids: seq<string>, m: nat, other: seq<Shard>)
    requires Population(ids) && 1 <= m <= |FilesOf(ids)|
    requires ShardsAccepted(c, other) && |other| == m
    requires multiset(AllIds(other)) == multiset(ids)
    ensures Lpt.WithinGraham(m, HeaviestShard(PlannedShards(c, ids, m)), HeaviestShard(other))
  {
    var b := OtherPlanAsAssignment(c, ids, other);
    HeaviestIsMaxLoad(other, OrderedWeights(c, ids), b);
    PlannedHeaviest(c, ids, m);
    OrderedWeightsFall(c, ids);
    Lpt.LptBound(OrderedWeights(c, ids), m, b);
  }

  lemma PlannedHeaviest(c: Commit, ids: seq<string>, m: nat)
    requires m >= 1
    ensures HeaviestShard(PlannedShards(c, ids, m)) == Lpt.MaxLoad(OrderedWeights(c, ids), Owners(c, ids, m), m)
  {
    HeaviestIsMaxLoad(PlannedShards(c, ids, m), OrderedWeights(c, ids), Owners(c, ids, m));
  }

  /** Taking any one module off its shard leaves that shard no heavier than any other. */
  lemma PlanIsInEquilibrium(c: Commit, ids: seq<string>, m: nat, q: nat, r: nat, f: string)
    requires q < m && r < m && f in ShardFiles(c, ids, m, q)
    ensures PlannedShard(c, ids, m, q).weight <= PlannedShard(c, ids, m, r).weight + ModuleWeight(c, ids, f)
  {
    OrderedWeightsFall(c, ids);
    PickMembers(OrderedFiles(c, ids), Owners(c, ids, m), q, f);
    var i :| 0 <= i < |OrderedFiles(c, ids)| && OrderedFiles(c, ids)[i] == f && Owners(c, ids, m)[i] == q;
    Lpt.Equilibrium(OrderedWeights(c, ids), m, i, r);
  }

  // ----- the planning procedure

  datatype Group = Group(weight: nat, nodeids: seq<string>, path: string)

  function GroupOf(c: Commit, ids: seq<string>): string -> Group {
    f => Group(ModuleWeight(c, ids, f), ModuleIds(ids, f), f)
  }

  function WeightsOf(groups: seq<Group>): (r: seq<nat>)
    ensures |r| == |groups|
  {
    Map((g: Group) => g.weight, groups)
  }

  ghost predicate Grouped(ids: seq<string>, grouped: map<string, seq<string>>, order: seq<string>) {
    && order == FilesOf(ids)
    && (forall f :: f in grouped <==> f in order)
    && (forall f :: f in grouped ==> grouped[f] == ModuleIds(ids, f))
  }

  /** The dictionary after adding one identifier under its module. */
  function Added(grouped: map<string, seq<string>>, f: string, id: string): map<string, seq<string>> {
    grouped[f := (if f in grouped then grouped[f] else []) + [id]]
  }

  lemma GroupOneMore(ids: seq<string>, id: string, grouped: map<string, seq<string>>, order: seq<string>)
    requires Grouped(ids, grouped, order)
    ensures var f := FileOf(id);
      Grouped(ids + [id], Added(grouped, f, id), if f in order then order else order + [f])
  {
    var f := FileOf(id);
    FilesOneMore(ids, id);
    AddedKeys(grouped, order, f, id);
    forall g | g in Added(grouped, f, id) ensures Added(grouped, f, id)[g] == ModuleIds(ids + [id], g) {
      AddedModule(ids, id, grouped, order, g);
    }
  }

  lemma AddedKeys(grouped: map<string, seq<string>>, order: seq<string>, f: string, id: string)
    requires forall g :: g in grouped <==> g in order
    ensures forall g :: g in Added(grouped, f, id) <==> g in if f in order then order else order + [f]
  {
  }

  lemma AddedModule(ids: seq<string>, id: string, grouped: map<string, seq<string>>, order: seq<string>, g: string)
    requires Grouped(ids, grouped, order) && g in Added(grouped, FileOf(id), id)
    ensures Added(grouped, FileOf(id), id)[g] == ModuleIds(ids + [id], g)
  {
    FilterAppend(InFile(g), ids, id);
    NoModule(ids, g);
  }

  lemma FilesOneMore(ids: seq<string>, id: string)
    ensures FilesOf(ids + [id]) == if FileOf(id) in FilesOf(ids) then FilesOf(ids) else FilesOf(ids) + [FileOf(id)]
  {
    assert Map(FileOf, ids + [id])[..|ids|] == Map(FileOf, ids);
  }

  lemma NoModule(ids: seq<string>, f: string)
    ensures f !in FilesOf(ids) ==> ModuleIds(ids, f) == []
  {
    if f !in FilesOf(ids) && ModuleIds(ids, f) != [] {
      var id := ModuleIds(ids, f)[0];
      assert id in ModuleIds(ids, f);
      FilesOfMembers(ids, f);
    }
  }

  /** The dictionary of modules; `order` is its key order. */
  method GroupByFile(ids: seq<string>) returns (grouped: map<string, seq<string>>, order: seq<string>)
    ensures Grouped(ids, grouped, order)
  {
    grouped, order := map[], [];
    for i := 0 to |ids|
      invariant Grouped(ids[..i], grouped, order)
    {
      var f := FileOf(ids[i]);
      PrefixStep(ids, i);
      GroupOneMore(ids[..i], ids[i], grouped, order);
      grouped, order := Added(grouped, f, ids[i]), if f in order then order else order + [f];
    }
    WholePrefix(ids);
  }

  method AddTo(loads: array<nat>, k: nat, weight: nat)
    requires k < loads.Length
    modifies loads
    ensures loads[..] == old(loads[..])[k := old(loads[k]) + weight]
  {
    loads[k] := loads[k] + weight;
  }

  /** The assignment loop: each group goes to the lightest shard, the first of several. */
  method AssignGroups(groups: seq<Group>, count: nat)
    returns (shardGroups: seq<seq<Group>>, shardWeights: array<nat>)
    requires count >= 1
    ensures |shardGroups| == shardWeights.Length == count
    ensures AssignedAll(groups, shardGroups, shardWeights[..])
  {
    shardGroups := seq(count, q => []);
    shardWeights := new nat[count](q => 0);
    for i := 0 to |groups|
      invariant |shardGroups| == count == shardWeights.Length
      invariant AssignedAll(groups[..i], shardGroups, shardWeights[..])
    {
      PrefixStep(groups, i);
      AssignedOneMore(groups[..i], shardGroups, shardWeights[..], groups[i]);
      var k := Lpt.LeastLoaded(shardWeights[..]);
      shardGroups := shardGroups[k := shardGroups[k] + [groups[i]]];
      AddTo(shardWeights, k, groups[i].weight);
    }
    WholePrefix(groups);
  }

  ghost predicate AssignedSoFar(groups: seq<Group>, count: nat, q: nat, own: seq<Group>, load: nat)
    requires count >= 1
  {
    var owners := Lpt.Greedy(WeightsOf(groups), count);
    own == Pick(groups, owners, q) && load == Lpt.Load(WeightsOf(groups), owners, q)
  }

  ghost predicate AssignedAll(groups: seq<Group>, own: seq<seq<Group>>, loads: seq<nat>) {
    && |own| == |loads| >= 1
    && forall q: nat :: q < |own| ==> AssignedSoFar(groups, |own|, q, own[q], loads[q])
  }

  lemma LightestShard(groups: seq<Group>, count: nat, own: seq<seq<Group>>, loads: seq<nat>)
    requires count >= 1 && |own| == |loads| == count
    requires AssignedAll(groups, own, loads)
    ensures loads == Lpt.Loads(WeightsOf(groups), Lpt.Greedy(WeightsOf(groups), count), count)
  {
    forall q: nat | q < count
      ensures loads[q] == Lpt.Load(WeightsOf(groups), Lpt.Greedy(WeightsOf(groups), count), q)
    {
      assert AssignedSoFar(groups, count, q, own[q], loads[q]);
    }
  }

  /** One more group on the lightest shard is one more step of the assignment. */
  lemma AssignedOneMore(groups: seq<Group>, own: seq<seq<Group>>, loads: seq<nat>, g: Group)
    requires AssignedAll(groups, own, loads)
    ensures var k := Lpt.LeastLoaded(loads);
      AssignedAll(groups + [g], own[k := own[k] + [g]], loads[k := loads[k] + g.weight])
  {
    LightestShard(groups, |own|, own, loads);
    var k := Lpt.LeastLoaded(loads);
    var more, heavier := own[k := own[k] + [g]], loads[k := loads[k] + g.weight];
    forall q: nat | q < |own| ensures AssignedSoFar(groups + [g], |own|, q, more[q], heavier[q]) {
      assert AssignedSoFar(groups, |own|, q, own[q], loads[q]);
      AssignOneMore(groups, |own|, g, q);
    }
  }

  lemma AssignOneMore(groups: seq<Group>, count: nat, g: Group, q: nat)
    requires count >= 1
    ensures
      var owners := Lpt.Greedy(WeightsOf(groups), count);
      var k := Lpt.LeastLoaded(Lpt.Loads(WeightsOf(groups), owners, count));
      var more := Lpt.Greedy(WeightsOf(groups + [g]), count);
      && Pick(groups + [g], more, q) == Pick(groups, owners, q) + (if k == q then [g] else [])
      && Lpt.Load(WeightsOf(groups + [g]), more, q)
        == Lpt.Load(WeightsOf(groups), owners, q) + (if k == q then g.weight else 0)
  {
    var all, w := groups + [g], WeightsOf(groups + [g]);
    assert all[..|groups|] == groups;
    assert w[..|groups|] == WeightsOf(groups);
    var owners := Lpt.Greedy(WeightsOf(groups), count);
    assert Lpt.Greedy(w, count)[..|groups|] == owners;
  }

  // ----- what the listing step produces

  lemma {:induction false} PickMapped<T, U>(f: T -> U, items: seq<T>, owners: seq<nat>, q: nat)
    requires |owners| == |items|
    ensures Pick(Map(f, items), owners, q) == Map(f, Pick(items, owners, q))
  {
    if items != [] {
      var n := |items| - 1;
      PickMapped(f, items[..n], owners[..n], q);
      assert Map(f, items)[..n] == Map(f, items[..n]);
    }
  }

  /** Listing the identifiers of distinct modules and sorting gives their part of the population. */
  lemma ModulesSorted(ids: seq<string>, files: seq<string>)
    requires Sorted(StringLeq, ids) && Distinct(ids) && Distinct(files)
    ensures SortStrings(Flatten(Map(f => ModuleIds(ids, f), files))) == Filter(InFiles(files), ids)
  {
    var lists := Map(f => ModuleIds(ids, f), files);
    var own := Filter(InFiles(files), ids);
    forall i | 0 <= i < |lists| ensures Distinct(lists[i]) {
      FilterKeepsDistinct(InFile(files[i]), ids);
    }
    FlattenDistinct(lists);
    FilterKeepsDistinct(InFiles(files), ids);
    forall id ensures id in Flatten(lists) <==> id in own {
      FlattenMembers(lists, id);
      if id in own {
        var i :| 0 <= i < |files| && files[i] == FileOf(id);
        assert id in lists[i];
      }
    }
    DistinctSameMembers(Flatten(lists), own);
    FilterKeepsSorted(StringLeq, InFiles(files), ids);
    SortedAgain(Flatten(lists), own);
  }

  /** One entry of the plan, listed from the groups of a shard. */
  function ListShard(c: Commit, values: seq<Group>, weight: nat, q: nat): Shard {
    ShardOver(c, SortStrings(Flatten(Map((g: Group) => g.nodeids, values))),
              SortStrings(Map((g: Group) => g.path, values)), weight, q)
  }

  lemma ListedAsPlanned(c: Commit, ids: seq<string>, m: nat, q: nat)
    requires Population(ids) && m >= 1
    ensures
      var groups := Map(GroupOf(c, ids), OrderedFiles(c, ids));
      var owners := Lpt.Greedy(WeightsOf(groups), m);
      ListShard(c, Pick(groups, owners, q), Lpt.Load(WeightsOf(groups), owners, q), q)
        == PlannedShard(c, ids, m, q)
  {
    var groups := Map(GroupOf(c, ids), OrderedFiles(c, ids));
    assert WeightsOf(groups) == OrderedWeights(c, ids);
    var files := ShardFiles(c, ids, m, q);
    PickMapped(GroupOf(c, ids), OrderedFiles(c, ids), Owners(c, ids, m), q);
    var values := Map(GroupOf(c, ids), files);
    assert Map((g: Group) => g.nodeids, values) == Map(f => ModuleIds(ids, f), files);
    assert Map((g: Group) => g.path, values) == files;
    ShardFilesFacts(c, ids, m, q);
    ModulesSorted(ids, files);
  }

  /** Is this the entry listed from the groups and the load of shard q? */
  function ListedFrom(c: Commit, shardGroups: seq<seq<Group>>, shardWeights: seq<nat>): (nat, Shard) -> bool {
    (q: nat, shard: Shard) =>
      q < |shardGroups| && q < |shardWeights| && shard == ListShard(c, shardGroups[q], shardWeights[q], q)
  }

  /** The listing loop: the shards of the plan and every identifier they were given. */
  method ListShards(c: Commit, shardGroups: seq<seq<Group>>, shardWeights: seq<nat>)
    returns (shards: seq<Shard>, placed: seq<string>)
    requires |shardGroups| == |shardWeights|
    ensures AllAt(ListedFrom(c, shardGroups, shardWeights), shards) && |shards| == |shardGroups|
    ensures placed == AllIds(shards)
  {
    shards, placed := [], [];
    for q := 0 to |shardGroups|
      invariant |shards| == q && placed == AllIds(shards)
      invariant AllAt(ListedFrom(c, shardGroups, shardWeights), shards)
    {
      var shard := ListShard(c, shardGroups[q], shardWeights[q], q);
      AllIdsAppend(shards, shard);
      AllAtOneMore(ListedFrom(c, shardGroups, shardWeights), shards, shard);
      shards, placed := shards + [shard], placed + shard.nodeids;
    }
  }

  lemma GroupAsGrouped(c: Commit, ids: seq<string>, grouped: map<string, seq<string>>, order: seq<string>, path: string)
    requires Grouped(ids, grouped, order) && path in FilesOf(ids)
    ensures path in grouped
    ensures GroupOf(c, ids)(path) == Group(EstimatedFileWeight(c, path, |grouped[path]|), grouped[path], path)
  {
  }

  /** The groups with their weights, heaviest first and equal weights by path. */
  method SortGroups(c: Commit, ids: seq<string>, grouped: map<string, seq<string>>, order: seq<string>)
    returns (groups: seq<Group>)
    requires Grouped(ids, grouped, order)
    ensures groups == Map(GroupOf(c, ids), OrderedFiles(c, ids))
  {
    var paths := Sort(HeavierFirst(c, ids), order);
    OrderedFilesSorted(c, ids);
    groups := [];
    for i := 0 to |paths|
      invariant groups == Map(GroupOf(c, ids), paths[..i])
    {
      var path := paths[i];
      GroupAsGrouped(c, ids, grouped, order, path);
      var group := Group(EstimatedFileWeight(c, path, |grouped[path]|), grouped[path], path);
      MapAppend(GroupOf(c, ids), paths, i);
      groups := groups + [group];
    }
    WholePrefix(paths);
  }

  /** Group, sort, assign and list an eligible population. */
  method PlanShards(c: Commit, ids: seq<string>, count: nat) returns (r: Option<(seq<Shard>, seq<string>)>)
    requires Population(ids) && count >= 1
    ensures r.Some? <==> count <= |FilesOf(ids)|
    ensures r.Some? ==> r.value.0 == PlannedShards(c, ids, count) && r.value.1 == AllIds(r.value.0)
  {
    var grouped, order := GroupByFile(ids);
    if count > |order| {
      return None;
    }
    var groups := SortGroups(c, ids, grouped, order);
    var shardGroups, shardWeights := AssignGroups(groups, count);
    var shards, placed := ListShards(c, shardGroups, shardWeights[..]);
    ListingIsPlanned(c, ids, count, shardGroups, shardWeights[..], shards);
    return Some((shards, placed));
  }

  lemma ListingIsPlanned(c: Commit, ids: seq<string>, m: nat, shardGroups: seq<seq<Group>>,
                         shardWeights: seq<nat>, shards: seq<Shard>)
    requires Population(ids) && m >= 1
    requires |shards| == |shardGroups| == m && AllAt(ListedFrom(c, shardGroups, shardWeights), shards)
    requires AssignedAll(Map(GroupOf(c, ids), OrderedFiles(c, ids)), shardGroups, shardWeights)
    ensures shards == PlannedShards(c, ids, m)
  {
    forall q: nat | q < m ensures shards[q] == PlannedShard(c, ids, m, q) {
      ListedAsPlanned(c, ids, m, q);
      assert ListedFrom(c, shardGroups, shardWeights)(q, shards[q]);
      assert AssignedSoFar(Map(GroupOf(c, ids), OrderedFiles(c, ids)), m, q, shardGroups[q], shardWeights[q]);
    }
  }

  lemma OnlyIn(a: seq<string>, b: seq<string>)
    ensures MemberSet(a) - MemberSet(b) == set id | id in a && id !in b
  {
  }

  /** How many identifiers are duplicated, omitted and unexpected: there are none exactly when the
      placed identifiers are the eligible ones. */
  method CountFaults(eligible: seq<string>, placed: seq<string>) returns (p: Partition)
    requires Distinct(eligible)
    ensures p.complete <==> multiset(placed) == multiset(eligible)
    ensures p.complete <==> p == NOTHING_LOST
    ensures p.duplicates == |placed| - |set id | id in placed|
    ensures p.omitted == |set id | id in eligible && id !in placed|
    ensures p.unexpected == |set id | id in placed && id !in eligible|
  {
    var eligibleSet, placedSet := MemberSet(eligible), MemberSet(placed);
    var duplicates := |placed| - |placedSet|;
    var omitted, unexpected := |eligibleSet - placedSet|, |placedSet - eligibleSet|;
    p := Partition(duplicates == omitted == unexpected == 0, duplicates, omitted, unexpected);
    SetSizeMeansDistinct(placed);
    OnlyIn(eligible, placed);
    OnlyIn(placed, eligible);
    if multiset(placed) == multiset(eligible) {
      SameElements(placed, eligible);
      DistinctRearranged(placed, eligible);
      assert eligibleSet == placedSet;
    }
    if p.complete {
      assert eligibleSet - placedSet == {} && placedSet - eligibleSet == {};
      assert forall id :: id in placed <==> id in placedSet;
      assert forall id :: id in eligible <==> id in eligibleSet;
      DistinctSameMembers(placed, eligible);
    }
  }

  /**
   The planner. Its incomplete-partition error and the rejection by its own checker never
   happen: it refuses bad input and otherwise returns the greedy plan.
   */
  method BuildPlan(c: Commit, values: seq<string>, count: int, sha: string)
    returns (r: Result<Plan, PlannerError>)
    ensures r == PlanFor(c, values, count, sha)
    ensures r != Err(IncompletePartition) && r != Err(RejectedByChecker)
    ensures r.Ok? ==> Accepted(c, r.value, Some(sha))
  {
    if !IsGitSha(sha) {
      return Err(BadGitSha);
    }
    if count < 1 {
      return Err(BadShardCount);
    }
    var eligible := Eligible(values);
    if eligible.None? {
      return Err(BadCollection);
    }
    var ids := eligible.value;
    EligibleIsCanonical(values);
    var planned := PlanShards(c, ids, count);
    if planned.None? {
      return Err(TooManyShards);
    }
    var (shards, placed) := planned.value;
    PlannedIdsComplete(c, ids, count);
    var partition := CountFaults(ids, placed);
    if !partition.complete {
      return Err(IncompletePartition);
    }
    var plan := PlanOver(c, ids, sha, shards, partition);
    PlannerPassesChecker(c, ids, count, sha);
    var accepted := ValidatePlan(c, plan, Some(sha));
    if !accepted {
      return Err(RejectedByChecker);
    }
    return Ok(plan);
  }

  // ----- the outcomes of planning

  /** Which refusal there is, if any: a revision that is not forty lower-case hexadecimal digits, no
      shard, a collection that is empty, refused or repeated, or more shards than modules. */
  lemma PlanOutcome(c: Commit, values: seq<string>, count: int, sha: string)
    ensures var hex := |sha| == 40 && forall d :: d in sha ==> '0' <= d <= '9' || 'a' <= d <= 'f';
      var r := PlanFor(c, values, count, sha);
      && (r == Err(BadGitSha) <==> !hex)
      && (r == Err(BadShardCount) <==> hex && count < 1)
      && (r == Err(BadCollection) <==> hex && count >= 1 && Eligible(values).None?)
      && (r == Err(TooManyShards) <==>
          hex && count >= 1 && Eligible(values).Some? && count > |MemberSet(Map(FileOf, Eligible(values).value))|)
      && (r.Ok? <==>
          hex && count >= 1 && Eligible(values).Some? && count <= |MemberSet(Map(FileOf, Eligible(values).value))|)
  {
    if Eligible(values).Some? {
      ModulesCounted(Eligible(values).value);
    }
  }

  lemma ModulesCounted(ids: seq<string>)
    ensures |FilesOf(ids)| == |MemberSet(Map(FileOf, ids))|
  {
    SetSizeMeansDistinct(FilesOf(ids));
    forall f ensures f in MemberSet(FilesOf(ids)) <==> f in MemberSet(Map(FileOf, ids)) {
      assert f in FilesOf(ids) <==> f in Map(FileOf, ids);
    }
    assert MemberSet(FilesOf(ids)) == MemberSet(Map(FileOf, ids));
  }

  lemma EligibleIsPopulation(values: seq<string>)
    requires Eligible(values).Some?
    ensures Population(Eligible(values).value)
  {
    EligibleIsCanonical(values);
  }

  /** A plan that is made is for this revision, accepted, with so many shards, and its shards hold the
      population; with `AcceptedHeader` and `AcceptedWeights` this gives all its fields. */
  lemma PlanMade(c: Commit, values: seq<string>, count: int, sha: string)
    requires PlanFor(c, values, count, sha).Ok?
    ensures var p := PlanFor(c, values, count, sha).value;
      && Accepted(c, p, Some(sha)) && p.shardCount == count
      && multiset(AllIds(p.shards)) == multiset(Eligible(values).value)
  {
    var ids := Eligible(values).value;
    EligibleIsPopulation(values);
    PlannerPassesChecker(c, ids, count, sha);
    assert PlanFor(c, values, count, sha).value == LptPlan(c, ids, count, sha);
  }

  /** The modules are placed by falling weight, and those of one weight by rising path. */
  lemma ModulesInOrder(c: Commit, ids: seq<string>, i: nat, j: nat)
    requires i < j < |OrderedFiles(c, ids)|
    ensures var f, g := OrderedFiles(c, ids)[i], OrderedFiles(c, ids)[j];
      && ModuleWeight(c, ids, f) >= ModuleWeight(c, ids, g)
      && (ModuleWeight(c, ids, f) == ModuleWeight(c, ids, g) ==> f != g && StringLeq(f, g))
  {
    OrderedFilesSorted(c, ids);
  }
}
