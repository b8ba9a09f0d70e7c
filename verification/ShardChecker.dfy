/**
 The plan checker. `ValidatePlan` is the checking loop; it decides exactly `Accepted`, and
 the theorems say what an accepted plan is: a true partition of its population.
 */
module ShardChecker {
  import opened Sorting
  import opened NodeIds
  import opened ShardPlan

  // ----- the checking loop

  /** What one pass of the loop checks of a shard on its own. */
  predicate ShardConsistent(c: Commit, s: Shard) {
    && s.index >= 0
    && s.nodeids != []
    && (forall i :: 0 <= i < |s.nodeids| ==> Normalize(s.nodeids[i]) == Some(s.nodeids[i]))
    && Sorted(StringLeq, s.nodeids)
    && Distinct(s.nodeids)
    && s.nodeidCount == |s.nodeids|
    && s.nodeidSha == (c.strings)(s.nodeids)
    && s.files == DerivedFiles(s.nodeids)
    && s.fileCount == |s.files|
    && s.weight >= 1
    && s.weight == SumBy(WeightIn(c, s.nodeids), s.files)
  }

  lemma ConsistentIsAccepted(c: Commit, s: Shard)
    requires s.index >= 0
    ensures ShardConsistent(c, s) <==> ShardAccepted(c, s, s.index)
  {
    if ShardConsistent(c, s) {
      assert ShardAccepted(c, s, s.index);
    } else if ShardAccepted(c, s, s.index) {
      AcceptedIsConsistent(c, s, s.index);
    }
  }

  lemma AcceptedIsConsistent(c: Commit, s: Shard, position: nat)
    requires ShardAccepted(c, s, position)
    ensures ShardConsistent(c, s)
  {
    ModelWeightIsPositive(c, s.nodeids);
    EachIsNormal(s.nodeids);
  }

  lemma EachIsNormal(ids: seq<string>)
    requires forall id :: id in ids ==> Canonical(id)
    ensures forall i :: 0 <= i < |ids| ==> Normalize(ids[i]) == Some(ids[i])
  {
    forall i | 0 <= i < |ids| ensures Normalize(ids[i]) == Some(ids[i]) {
      assert Canonical(ids[i]);
    }
  }

  lemma ModelWeightIsPositive(c: Commit, ids: seq<string>)
    requires ids != []
    ensures ModelWeight(c, ids) >= 1
  {
    var files := DerivedFiles(ids);
    SortStringsSorts(FilesOf(ids));
    assert Map(FileOf, ids)[0] in FilesOf(ids);
    assert FileOf(ids[0]) in files;
    WeightsArePositive(c, files[0], |ModuleIds(ids, files[0])|);
  }

  /** Does no module of the shard belong to an earlier one? Owners are recorded on the way. */
  method ClaimFiles(files: seq<string>, index: int, owner: map<string, int>)
    returns (ok: bool, claimed: map<string, int>)
    ensures ok <==> forall f :: f in files && f in owner ==> owner[f] == index
    ensures ok ==> claimed.Keys == owner.Keys + MemberSet(files)
    ensures ok ==> forall f :: f in owner ==> claimed[f] == owner[f]
    ensures ok ==> forall f :: f in files ==> claimed[f] == index
  {
    claimed := owner;
    for k := 0 to |files|
      invariant claimed.Keys == owner.Keys + MemberSet(files[..k])
      invariant forall f :: f in owner ==> claimed[f] == owner[f]
      invariant forall f :: f in files[..k] ==> claimed[f] == index
    {
      var path := files[k];
      PrefixStep(files, k);
      if path !in claimed {
        claimed := claimed[path := index];
      } else if claimed[path] != index {
        assert path in files && path in owner;
        return false, claimed;
      }
    }
    WholePrefix(files);
    ok := true;
  }

  method CheckHeader(c: Commit, p: Plan, expectedSha: Option<string>) returns (ok: bool)
    ensures ok <==> HeaderAccepted(c, p, expectedSha)
  {
    if p.schema != SCHEMA_VERSION || p.algorithm != ALGORITHM || p.marker != MARKER_EXPRESSION {
      return false;
    }
    if !IsGitSha(p.gitSha) || (expectedSha.Some? && p.gitSha != expectedSha.value) {
      return false;
    }
    if p.weightModelSha != c.weightModel || p.planSha != PlanDigest(c, p) {
      return false;
    }
    return p.shardCount >= 1 && |p.shards| == p.shardCount;
  }

  ghost predicate AllConsistent(c: Commit, done: seq<Shard>) {
    forall i :: 0 <= i < |done| ==> ShardConsistent(c, done[i])
  }

  ghost predicate IndexesRecorded(done: seq<Shard>, seen: set<int>, indexes: seq<int>) {
    && |indexes| == |done|
    && (forall i :: 0 <= i < |done| ==> indexes[i] == done[i].index)
    && seen == MemberSet(indexes)
  }

  /** The loop state after some shards passed: what each variable has recorded. */
  ghost predicate CheckedSoFar(c: Commit, done: seq<Shard>, owner: map<string, int>,
                               seen: set<int>, indexes: seq<int>) {
    && AllConsistent(c, done)
    && IndexesRecorded(done, seen, indexes)
    && OwnersRecorded(done, owner)
    && ModulesDisjoint(done)
  }

  lemma ConsistentOneMore(c: Commit, done: seq<Shard>, s: Shard)
    requires AllConsistent(c, done) && ShardConsistent(c, s)
    ensures AllConsistent(c, done + [s])
  {
    var all := done + [s];
    forall i | 0 <= i < |all| ensures ShardConsistent(c, all[i]) {
      assert all[i] == if i < |done| then done[i] else s;
    }
  }

  lemma IndexOneMore(done: seq<Shard>, seen: set<int>, indexes: seq<int>, s: Shard)
    requires IndexesRecorded(done, seen, indexes) && s.index !in seen
    ensures IndexesRecorded(done + [s], seen + {s.index}, indexes + [s.index])
    ensures forall i :: 0 <= i < |done| ==> done[i].index != s.index
  {
    MemberSetAppend(indexes, s.index);
    forall i | 0 <= i < |done| ensures done[i].index != s.index {
      assert indexes[i] in indexes;
    }
  }

  lemma CheckedAllMeans(c: Commit, shards: seq<Shard>, owner: map<string, int>, seen: set<int>, indexes: seq<int>)
    requires CheckedSoFar(c, shards, owner, seen, indexes)
    ensures indexes == seq(|shards|, i => i) <==> ShardsAccepted(c, shards)
  {
    forall i | 0 <= i < |shards| ensures indexes[i] == i <==> ShardAccepted(c, shards[i], i) {
      ConsistentIsAccepted(c, shards[i]);
    }
    if ShardsAccepted(c, shards) {
      assert forall i :: 0 <= i < |shards| ==> ShardAccepted(c, shards[i], i);
    }
  }

  /** One pass of the loop: the module owners with this shard's added, or None at a fault. */
  method CheckShard(c: Commit, shards: seq<Shard>, position: nat, owner: map<string, int>,
                    seen: set<int>, indexes: seq<int>) returns (r: Option<map<string, int>>)
    requires position < |shards|
    requires CheckedSoFar(c, shards[..position], owner, seen, indexes)
    ensures r.None? ==> !ShardsAccepted(c, shards)
    ensures r.Some? ==> var index := shards[position].index;
      CheckedSoFar(c, shards[..position + 1], r.value, seen + {index}, indexes + [index])
  {
    var shard := shards[position];
    if shard.index in seen {
      IndexSeenTwice(c, shards, position, indexes);
      return None;
    }
    if !ShardConsistent(c, shard) {
      InconsistentIsRefused(c, shards, position);
      return None;
    }
    var claimed, claims := ClaimFiles(shard.files, shard.index, owner);
    if !claimed {
      ModuleSplit(c, shards, position, owner);
      return None;
    }
    PrefixStep(shards, position);
    ConsistentOneMore(c, shards[..position], shard);
    IndexOneMore(shards[..position], seen, indexes, shard);
    OwnershipGrows(shards[..position], shard, owner, claims);
    return Some(claims);
  }

  /** The loop over the shards: their identifiers in order, or None at the first fault. */
  method CheckShards(c: Commit, shards: seq<Shard>) returns (r: Option<seq<string>>)
    ensures r.Some? <==> ShardsAccepted(c, shards)
    ensures r.Some? ==> r.value == AllIds(shards)
  {
    var allNodeids: seq<string> := [];
    var fileOwner: map<string, int> := map[];
    var seenIndexes: set<int> := {};
    var shardIndexes: seq<int> := [];
    for position := 0 to |shards|
      invariant allNodeids == AllIds(shards[..position])
      invariant CheckedSoFar(c, shards[..position], fileOwner, seenIndexes, shardIndexes)
    {
      var shard := shards[position];
      var claims := CheckShard(c, shards, position, fileOwner, seenIndexes, shardIndexes);
      if claims.None? {
        return None;
      }
      PrefixStep(shards, position);
      AllIdsAppend(shards[..position], shard);
      fileOwner, seenIndexes := claims.value, seenIndexes + {shard.index};
      shardIndexes, allNodeids := shardIndexes + [shard.index], allNodeids + shard.nodeids;
    }
    WholePrefix(shards);
    CheckedAllMeans(c, shards, fileOwner, seenIndexes, shardIndexes);
    return if shardIndexes == seq(|shards|, i => i) then Some(allNodeids) else None;
  }

  lemma InconsistentIsRefused(c: Commit, shards: seq<Shard>, position: nat)
    requires position < |shards| && !ShardConsistent(c, shards[position])
    ensures !ShardsAccepted(c, shards)
  {
    if ShardAccepted(c, shards[position], position) {
      AcceptedIsConsistent(c, shards[position], position);
    }
  }

  lemma IndexSeenTwice(c: Commit, shards: seq<Shard>, position: nat, indexes: seq<int>)
    requires position < |shards| && |indexes| == position
    requires forall i :: 0 <= i < position ==> indexes[i] == shards[i].index
    requires shards[position].index in indexes
    ensures !ShardsAccepted(c, shards)
  {
    var i :| 0 <= i < position && indexes[i] == shards[position].index;
    if ShardAccepted(c, shards[i], i) && ShardAccepted(c, shards[position], position) {
      assert false;
    }
  }

  lemma ModuleSplit(c: Commit, shards: seq<Shard>, position: nat, owner: map<string, int>)
    requires position < |shards| && OwnersRecorded(shards[..position], owner)
    requires exists f :: f in shards[position].files && f in owner && owner[f] != shards[position].index
    ensures !ShardsAccepted(c, shards)
  {
    var f :| f in shards[position].files && f in owner && owner[f] != shards[position].index;
    var i :| 0 <= i < position && f in shards[..position][i].files;
    assert f in shards[i].files;
  }

  method ValidatePlan(c: Commit, p: Plan, expectedSha: Option<string>) returns (ok: bool)
    ensures ok <==> Accepted(c, p, expectedSha)
  {
    var header := CheckHeader(c, p, expectedSha);
    if !header {
      return false;
    }
    var ids := CheckShards(c, p.shards);
    if ids.None? {
      return false;
    }
    ModulesKeepIdsApart(c, p.shards);
    if !Distinct(ids.value) {
      return false;
    }
    FirstIdIsListed(c, p.shards);
    if p.eligibleCount < 1 || p.eligibleCount != |ids.value| {
      return false;
    }
    return p.eligibleSha == (c.strings)(SortStrings(ids.value)) && p.partition == NOTHING_LOST;
  }

  ghost predicate OwnersRecorded(shards: seq<Shard>, owner: map<string, int>) {
    && (forall i, f :: 0 <= i < |shards| && f in shards[i].files ==> f in owner && owner[f] == shards[i].index)
    && (forall f :: f in owner ==> exists i :: 0 <= i < |shards| && f in shards[i].files)
  }

  lemma OwnershipGrows(shards: seq<Shard>, s: Shard, owner: map<string, int>, claims: map<string, int>)
    requires OwnersRecorded(shards, owner) && ModulesDisjoint(shards)
    requires forall i :: 0 <= i < |shards| ==> shards[i].index != s.index
    requires claims.Keys == owner.Keys + MemberSet(s.files)
    requires forall f :: f in owner ==> claims[f] == owner[f]
    requires forall f :: f in s.files ==> claims[f] == s.index
    ensures OwnersRecorded(shards + [s], claims) && ModulesDisjoint(shards + [s])
  {
    var all := shards + [s];
    forall f | f in claims ensures exists i :: 0 <= i < |all| && f in all[i].files {
      if f in owner {
        var i :| 0 <= i < |shards| && f in shards[i].files;
        assert f in all[i].files;
      } else {
        assert f in all[|shards|].files;
      }
    }
    forall i, j, f | 0 <= i < j < |all| && f in all[i].files ensures f !in all[j].files {
      assert all[i] == shards[i];
      assert f in owner && claims[f] == shards[i].index;
    }
  }

  lemma AllIdsAppend(shards: seq<Shard>, s: Shard)
    ensures AllIds(shards + [s]) == AllIds(shards) + s.nodeids
  {
    var ids := (s: Shard) => s.nodeids;
    assert Map(ids, shards + [s])[..|shards|] == Map(ids, shards);
  }

  // ----- what acceptance means

  lemma FileIsDerived(c: Commit, s: Shard, position: nat, f: string)
    requires ShardAccepted(c, s, position)
    ensures f in s.files <==> exists id :: id in s.nodeids && FileOf(id) == f
  {
    SortStringsSorts(FilesOf(s.nodeids));
    FilesOfMembers(s.nodeids, f);
  }

  lemma IdHasItsFile(c: Commit, s: Shard, position: nat, id: string)
    requires ShardAccepted(c, s, position) && id in s.nodeids
    ensures FileOf(id) in s.files
  {
    FileIsDerived(c, s, position, FileOf(id));
  }

  lemma IdsApart(c: Commit, shards: seq<Shard>, i: nat, j: nat, id: string)
    requires i < j < |shards| && ModulesDisjoint(shards)
    requires ShardAccepted(c, shards[i], i) && ShardAccepted(c, shards[j], j)
    requires id in shards[i].nodeids
    ensures id !in shards[j].nodeids
  {
    IdHasItsFile(c, shards[i], i, id);
    if id in shards[j].nodeids {
      IdHasItsFile(c, shards[j], j, id);
    }
  }

  /** Keeping modules apart is enough to keep identifiers apart. */
  lemma ModulesKeepIdsApart(c: Commit, shards: seq<Shard>)
    requires forall i :: 0 <= i < |shards| ==> ShardAccepted(c, shards[i], i)
    requires ModulesDisjoint(shards)
    ensures Distinct(AllIds(shards))
    ensures forall i, j, id :: 0 <= i < j < |shards| && id in shards[i].nodeids ==> id !in shards[j].nodeids
  {
    var lists := Map((s: Shard) => s.nodeids, shards);
    forall i, j, id | 0 <= i < j < |shards| && id in shards[i].nodeids ensures id !in shards[j].nodeids {
      IdsApart(c, shards, i, j, id);
    }
    assert Disjoint(lists);
    FlattenDistinct(lists);
  }

  lemma AllIdsMembers(shards: seq<Shard>, id: string)
    ensures id in AllIds(shards) <==> exists i :: 0 <= i < |shards| && id in shards[i].nodeids
  {
    var lists := Map((s: Shard) => s.nodeids, shards);
    FlattenMembers(lists, id);
    if i :| 0 <= i < |lists| && id in lists[i] {
      assert id in shards[i].nodeids;
    }
    if i :| 0 <= i < |shards| && id in shards[i].nodeids {
      assert id in lists[i];
    }
  }

  lemma FirstIdIsListed(c: Commit, shards: seq<Shard>)
    requires shards != []
    requires forall i :: 0 <= i < |shards| ==> ShardAccepted(c, shards[i], i)
    ensures |AllIds(shards)| >= 1
  {
    AllIdsMembers(shards, shards[0].nodeids[0]);
  }

  /** id is in exactly one shard. */
  ghost predicate OnOneShard(shards: seq<Shard>, id: string) {
    exists i :: 0 <= i < |shards| && id in shards[i].nodeids && OnlyOn(shards, id, i)
  }

  ghost predicate OnlyOn(shards: seq<Shard>, id: string, i: int) {
    forall j :: 0 <= j < |shards| && id in shards[j].nodeids ==> j == i
  }

  ghost predicate ModulesWhole(shards: seq<Shard>) {
    forall i, j, x, y :: SharesModule(shards, i, x, j, y) ==> i == j
  }

  /** x is on shard i, y on shard j, and they belong to the same module. */
  ghost predicate SharesModule(shards: seq<Shard>, i: int, x: string, j: int, y: string) {
    && 0 <= i < |shards| && 0 <= j < |shards|
    && x in shards[i].nodeids && y in shards[j].nodeids && FileOf(x) == FileOf(y)
  }

  /**
   Soundness of the checker: an accepted plan splits its population, without loss or
   repetition, into nonempty shards numbered from 0, and no module is split.
   */
  lemma AcceptedIsPartition(c: Commit, p: Plan, expectedSha: Option<string>)
    requires Accepted(c, p, expectedSha)
    ensures Distinct(AllIds(p.shards)) && p.eligibleCount == |AllIds(p.shards)| >= |p.shards| >= 1
    ensures forall i :: 0 <= i < |p.shards| ==> p.shards[i].index == i && p.shards[i].nodeids != []
    ensures forall id :: id in AllIds(p.shards) ==> OnOneShard(p.shards, id)
    ensures ModulesWhole(p.shards)
  {
    ModulesKeepIdsApart(c, p.shards);
    forall id | id in AllIds(p.shards) ensures OnOneShard(p.shards, id) {
      AllIdsMembers(p.shards, id);
      var i :| 0 <= i < |p.shards| && id in p.shards[i].nodeids;
      assert OnlyOn(p.shards, id, i);
    }
    forall i, j, x, y | SharesModule(p.shards, i, x, j, y) ensures i == j {
      FileIsDerived(c, p.shards[i], i, FileOf(x));
      FileIsDerived(c, p.shards[j], j, FileOf(y));
    }
    EveryShardCounts(c, p.shards);
  }

  lemma {:induction false} EveryShardCounts(c: Commit, shards: seq<Shard>)
    requires forall i :: 0 <= i < |shards| ==> ShardAccepted(c, shards[i], i)
    ensures |AllIds(shards)| >= |shards|
  {
    if shards != [] {
      var n := |shards| - 1;
      EveryShardCounts(c, shards[..n]);
      SplitLast(shards);
      AllIdsAppend(shards[..n], shards[n]);
    }
  }

  // ----- weights of the whole population

  function TotalWeight(shards: seq<Shard>): int {
    if shards == [] then 0 else TotalWeight(shards[..|shards| - 1]) + shards[|shards| - 1].weight
  }

  function AllFiles(shards: seq<Shard>): seq<string> {
    Flatten(Map((s: Shard) => s.files, shards))
  }

  /** The identifiers of a module are all on the shard that lists it. */
  lemma ModuleOnOneShard(c: Commit, shards: seq<Shard>, i: nat, f: string, id: string)
    requires forall k :: 0 <= k < |shards| ==> ShardAccepted(c, shards[k], k)
    requires ModulesDisjoint(shards)
    requires i < |shards| && f in shards[i].files && FileOf(id) == f
    ensures id in AllIds(shards) <==> id in shards[i].nodeids
  {
    AllIdsMembers(shards, id);
    if id in AllIds(shards) {
      var k :| 0 <= k < |shards| && id in shards[k].nodeids;
      FileIsDerived(c, shards[k], k, f);
      assert !(k < i) && !(i < k);
    }
  }

  /** A module counts the same within its shard as within the whole population. */
  lemma ModuleStaysWhole(c: Commit, shards: seq<Shard>, i: nat, f: string)
    requires forall k :: 0 <= k < |shards| ==> ShardAccepted(c, shards[k], k)
    requires ModulesDisjoint(shards)
    requires i < |shards| && f in shards[i].files
    ensures ModuleWeight(c, AllIds(shards), f) == ModuleWeight(c, shards[i].nodeids, f)
  {
    var all, own := AllIds(shards), shards[i].nodeids;
    ModulesKeepIdsApart(c, shards);
    FilterKeepsDistinct(InFile(f), all);
    FilterKeepsDistinct(InFile(f), own);
    forall id ensures id in ModuleIds(all, f) <==> id in ModuleIds(own, f) {
      if FileOf(id) == f {
        ModuleOnOneShard(c, shards, i, f, id);
      }
    }
    DistinctSameMembers(ModuleIds(all, f), ModuleIds(own, f));
    SameElements(ModuleIds(all, f), ModuleIds(own, f));
  }

  lemma {:induction false} WeightsOverFiles(c: Commit, shards: seq<Shard>, w: string -> nat)
    requires forall i :: 0 <= i < |shards| ==> ShardAccepted(c, shards[i], i)
    requires forall i, f :: 0 <= i < |shards| && f in shards[i].files ==>
      w(f) == ModuleWeight(c, shards[i].nodeids, f)
    ensures TotalWeight(shards) == SumBy(w, AllFiles(shards))
  {
    if shards != [] {
      var n := |shards| - 1;
      WeightsOverFiles(c, shards[..n], w);
      ShardWeighs(c, shards[n], n, w);
      FilesOfLast(shards);
      SumByAppend(w, AllFiles(shards[..n]), shards[n].files);
    }
  }

  lemma ShardWeighs(c: Commit, s: Shard, position: nat, w: string -> nat)
    requires ShardAccepted(c, s, position)
    requires forall f :: f in s.files ==> w(f) == ModuleWeight(c, s.nodeids, f)
    ensures s.weight == SumBy(w, s.files)
  {
    SumByAgrees(w, WeightIn(c, s.nodeids), s.files);
  }

  lemma FilesOfLast(shards: seq<Shard>)
    requires shards != []
    ensures var n := |shards| - 1; AllFiles(shards) == AllFiles(shards[..n]) + shards[n].files
  {
    var files := (s: Shard) => s.files;
    assert Map(files, shards)[..|shards| - 1] == Map(files, shards[..|shards| - 1]);
  }

  lemma AllFilesAreDerived(c: Commit, shards: seq<Shard>)
    requires forall i :: 0 <= i < |shards| ==> ShardAccepted(c, shards[i], i)
    requires ModulesDisjoint(shards)
    ensures multiset(AllFiles(shards)) == multiset(DerivedFiles(AllIds(shards)))
  {
    var lists := Map((s: Shard) => s.files, shards);
    forall i | 0 <= i < |lists| ensures Distinct(lists[i]) {
      SortStringsSorts(FilesOf(shards[i].nodeids));
    }
    assert Disjoint(lists);
    FlattenDistinct(lists);
    SortStringsSorts(FilesOf(AllIds(shards)));
    forall f ensures f in AllFiles(shards) <==> f in DerivedFiles(AllIds(shards)) {
      FlattenMembers(lists, f);
      FilesOfMembers(AllIds(shards), f);
      if i :| 0 <= i < |lists| && f in lists[i] {
        FileIsDerived(c, shards[i], i, f);
        var id :| id in shards[i].nodeids && FileOf(id) == f;
        AllIdsMembers(shards, id);
      }
      if id :| id in AllIds(shards) && FileOf(id) == f {
        AllIdsMembers(shards, id);
        var i :| 0 <= i < |shards| && id in shards[i].nodeids;
        FileIsDerived(c, shards[i], i, f);
        assert f in lists[i];
      }
    }
    DistinctSameMembers(AllFiles(shards), DerivedFiles(AllIds(shards)));
  }

  /** The shard weights add up to the model weight of the population as a whole. */
  lemma AcceptedConservesWeight(c: Commit, p: Plan, expectedSha: Option<string>)
    requires Accepted(c, p, expectedSha)
    ensures TotalWeight(p.shards) == ModelWeight(c, AllIds(p.shards))
  {
    var w := WeightIn(c, AllIds(p.shards));
    forall i, f | 0 <= i < |p.shards| && f in p.shards[i].files
      ensures w(f) == ModuleWeight(c, p.shards[i].nodeids, f)
    {
      ModuleStaysWhole(c, p.shards, i, f);
    }
    WeightsOverFiles(c, p.shards, w);
    AllFilesAreDerived(c, p.shards);
    SumByRearranged(w, AllFiles(p.shards), DerivedFiles(AllIds(p.shards)));
  }

  // ----- weights in the terms of the overrides

  /** What a module weighs for itself: its override, or 5. */
  ghost function OwnWeight(c: Commit): string -> nat {
    f => if f in c.overrides then c.overrides[f] else 5
  }

  /** What an identifier adds to the weight of its module: 1, unless the module has an override. */
  ghost function AddedWeight(c: Commit): string -> nat {
    id => if FileOf(id) in c.overrides then 0 else 1
  }

  ghost function CountedIn(c: Commit, ids: seq<string>): string -> nat {
    f => if f in c.overrides then 0 else |ModuleIds(ids, f)|
  }

  lemma {:induction false} IdsCounted(c: Commit, files: seq<string>, ids: seq<string>)
    requires Distinct(files) && forall id :: id in ids ==> FileOf(id) in files
    ensures SumBy(CountedIn(c, ids), files) == SumBy(AddedWeight(c), ids)
  {
    if ids == [] {
      SumByZero(CountedIn(c, ids), files);
    } else {
      var n := |ids| - 1;
      SplitLast(ids);
      IdsCounted(c, files, ids[..n]);
      SumByLast(AddedWeight(c), ids);
      forall f ensures |ModuleIds(ids, f)| == |ModuleIds(ids[..n], f)| + if FileOf(ids[n]) == f then 1 else 0 {
        FilterAppend(InFile(f), ids[..n], ids[n]);
      }
      SumByBump(CountedIn(c, ids), CountedIn(c, ids[..n]), files, FileOf(ids[n]));
    }
  }

  /** The weight of identifiers as a whole: the overrides of their modules, 5 for each module without
      one, and 1 for each identifier of such a module. */
  lemma ModelWeightMeans(c: Commit, ids: seq<string>)
    ensures ModelWeight(c, ids) == SumBy(OwnWeight(c), DerivedFiles(ids)) + SumBy(AddedWeight(c), ids)
  {
    var files := DerivedFiles(ids);
    SortStringsSorts(FilesOf(ids));
    forall id | id in ids ensures FileOf(id) in files {
      FilesOfMembers(ids, FileOf(id));
    }
    SumByPlus(WeightIn(c, ids), OwnWeight(c), CountedIn(c, ids), files);
    IdsCounted(c, files, ids);
  }

  /** So weighs every accepted shard, and an accepted plan in total. */
  lemma AcceptedWeights(c: Commit, p: Plan, expectedSha: Option<string>)
    requires Accepted(c, p, expectedSha)
    ensures forall i :: 0 <= i < |p.shards| ==>
      p.shards[i].weight
      == SumBy(OwnWeight(c), p.shards[i].files) + SumBy(AddedWeight(c), p.shards[i].nodeids)
    ensures TotalWeight(p.shards)
         == SumBy(OwnWeight(c), DerivedFiles(AllIds(p.shards))) + SumBy(AddedWeight(c), AllIds(p.shards))
  {
    forall i | 0 <= i < |p.shards|
      ensures p.shards[i].weight
           == SumBy(OwnWeight(c), p.shards[i].files) + SumBy(AddedWeight(c), p.shards[i].nodeids)
    {
      assert ShardAccepted(c, p.shards[i], i);
      ModelWeightMeans(c, p.shards[i].nodeids);
    }
    AcceptedConservesWeight(c, p, expectedSha);
    ModelWeightMeans(c, AllIds(p.shards));
  }

  // ----- the checker leaves nothing open

  /** The fields of an accepted plan, and its digests. */
  lemma AcceptedHeader(c: Commit, p: Plan, sha: string)
    requires Accepted(c, p, Some(sha))
    ensures p.schema == "ci-coverage-shard-plan-v1" && p.algorithm == "module-grouped-lpt-v1"
    ensures p.marker == "not performance" && p.partition == Partition(true, 0, 0, 0)
    ensures p.gitSha == sha && |sha| == 40 && forall d :: d in sha ==> '0' <= d <= '9' || 'a' <= d <= 'f'
    ensures p.weightModelSha == c.weightModel && p.planSha == (c.body)(p.(planSha := ""))
    ensures p.shardCount == |p.shards| && p.eligibleCount == |AllIds(p.shards)|
    ensures p.eligibleSha == (c.strings)(SortStrings(AllIds(p.shards)))
  {
  }

  lemma ShardIsDetermined(c: Commit, s: Shard, t: Shard, i: nat)
    requires ShardAccepted(c, s, i) && ShardAccepted(c, t, i) && s.nodeids == t.nodeids
    ensures s == t
  {
  }

  /** Accepted plans of one commit that put the same identifiers on the same shards are equal in
      every field. */
  lemma AcceptedIsDetermined(c: Commit, p: Plan, q: Plan, sha: string)
    requires Accepted(c, p, Some(sha)) && Accepted(c, q, Some(sha)) && |p.shards| == |q.shards|
    requires forall i :: 0 <= i < |p.shards| ==> p.shards[i].nodeids == q.shards[i].nodeids
    ensures p == q
  {
    forall i | 0 <= i < |p.shards| ensures p.shards[i] == q.shards[i] {
      assert ShardAccepted(c, p.shards[i], i) && ShardAccepted(c, q.shards[i], i);
      ShardIsDetermined(c, p.shards[i], q.shards[i], i);
    }
    assert p.shards == q.shards;
    assert p.(planSha := "") == q.(planSha := "");
  }
}
