/**
 The artifact verifier: replan from a fresh collection, check every downloaded shard
 against its bound metadata, and stage exactly one file per shard.
 */
module ShardVerifier {
  import opened Sorting
  import opened NodeIds
  import opened ShardLabels
  import opened ShardPlan
  import opened ShardChecker
  import opened ShardPlanner
  import opened ShardProtocol

  function ArtifactDir(root: seq<string>, sha: string, i: nat): seq<string> {
    root + [ArtifactName(sha, i)]
  }

  function StagedPath(combine: seq<string>, i: nat, count: nat): Path
    requires count >= 1
  {
    Path(combine, StagedName(i, count))
  }

  function StagedNames(count: nat, n: nat): set<string>
    requires count >= 1
  {
    set i | 0 <= i < n :: StagedName(i, count)
  }

  // ----- conditions, one per phase

  /** The download holds one directory per shard, each with exactly the two files. */
  ghost predicate PayloadsExact(files: Files, root: seq<string>, sha: string, count: nat)
    requires count >= 1
  {
    && FileNames(files, root) == {}
    && SubdirectoryNames(files, root) == (set i | 0 <= i < count :: ArtifactName(sha, i))
    && forall i: nat :: i < count ==> PairListed(files, root, sha, i, count)
  }

  predicate PairListed(files: Files, root: seq<string>, sha: string, i: nat, count: nat)
    requires count >= 1
  {
    Listing(files, ArtifactDir(root, sha, i)) == {MetadataName(i, count), CoverageName(i, count)}
  }

  /** The metadata binds the shard assignment of this plan. */
  predicate MetadataBinds(plan: Plan, m: Metadata, i: nat)
    requires i < |plan.shards| && plan.shardCount >= 1
  {
    && m.schema == SHARD_RESULT_SCHEMA_VERSION
    && m.index == i
    && m.assignedCount == plan.shards[i].nodeidCount
    && m.assignedSha == plan.shards[i].nodeidSha
    && m.eligibleSha == plan.eligibleSha
    && m.gitSha == plan.gitSha
    && m.marker == MARKER_EXPRESSION
    && m.planSha == plan.planSha
    && m.hasArcs
    && m.measured >= 1
    && m.coverageFile == CoverageName(i, plan.shardCount)
    && IsHex64(m.coverageSha)
    && m.coverageBytes >= 1
  }

  /** The data is the one its metadata describes. */
  predicate DataMatches(k: Codec, m: Metadata, content: Bytes) {
    && (k.sha256)(content) == m.coverageSha
    && |content| == m.coverageBytes
    && CoverageProperties(k, content).Some?
    && CoverageProperties(k, content).value == m.measured
  }

  predicate ShardVerified(k: Codec, plan: Plan, files: Files, dir: seq<string>, i: nat)
    requires i < |plan.shards| && plan.shardCount >= 1
  {
    var data, meta := CoveragePath(dir, i, plan.shardCount), MetadataPath(dir, i, plan.shardCount);
    && data in files && meta in files
    && var m := (k.parseMetadata)(files[meta]);
    m.Some? && MetadataBinds(plan, m.value, i) && DataMatches(k, m.value, files[data])
  }

  /** Shard i is verified and its staging place is free, or already holds the same bytes. */
  predicate Stageable(k: Codec, plan: Plan, files: Files, root: seq<string>, combine: seq<string>, i: nat)
    requires i < |plan.shards| && plan.shardCount >= 1
  {
    var dir, staged := ArtifactDir(root, plan.gitSha, i), StagedPath(combine, i, plan.shardCount);
    && ShardVerified(k, plan, files, dir, i)
    && (staged in files ==> files[staged] == files[CoveragePath(dir, i, plan.shardCount)])
  }

  /** The downloaded bytes of shard i, once they are known to be there. */
  ghost function Downloaded(plan: Plan, files: Files, root: seq<string>, i: nat): Bytes
    requires plan.shardCount >= 1
  {
    var p := CoveragePath(ArtifactDir(root, plan.gitSha, i), i, plan.shardCount);
    if p in files then files[p] else []
  }

  /** The files after staging the first n shards. */
  ghost function Staged(plan: Plan, files: Files, root: seq<string>, combine: seq<string>, n: nat): Files
    requires plan.shardCount >= 1
  {
    if n == 0 then files
    else
      Staged(plan, files, root, combine, n - 1)
        [StagedPath(combine, n - 1, plan.shardCount) := Downloaded(plan, files, root, n - 1)]
  }

  /** The stored plan is accepted and is the plan of the fresh collection. */
  predicate PlanIsFresh(c: Commit, k: Codec, plan: Plan, collected: seq<string>, sha: string) {
    var replanned := PlanFor(c, collected, plan.shardCount, sha);
    replanned.Ok? && (k.renderPlan)(plan) == (k.renderPlan)(replanned.value)
  }

  /** The stored plan stands up: right commit, accepted by the checker, and fresh. */
  ghost predicate PlanStands(c: Commit, k: Codec, files: Files, planPath: Path, sha: string,
                             head: Option<string>, collected: seq<string>) {
    && IsGitSha(sha) && head == Some(sha)
    && LoadPlan(c, k, files, planPath).Some?
    && Accepted(c, LoadPlan(c, k, files, planPath).value, Some(sha))
    && PlanIsFresh(c, k, LoadPlan(c, k, files, planPath).value, collected, sha)
  }

  /** Every shard can be staged, and afterwards the combine directory holds nothing else. */
  ghost predicate ShardsStand(k: Codec, plan: Plan, files: Files, root: seq<string>, combine: seq<string>)
    requires plan.shardCount == |plan.shards| >= 1
  {
    && AllStageable(k, plan, files, root, combine, plan.shardCount)
    && Listing(Staged(plan, files, root, combine, plan.shardCount), combine)
      == StagedNames(plan.shardCount, plan.shardCount)
  }

  /** When verification succeeds, as a condition on the files it starts from. */
  ghost predicate Verifiable(c: Commit, k: Codec, files: Files, planPath: Path, root: seq<string>,
                             combine: seq<string>, sha: string, head: Option<string>, collected: seq<string>) {
    && PlanStands(c, k, files, planPath, sha, head, collected)
    && var plan := LoadPlan(c, k, files, planPath).value;
    && PayloadsExact(files, root, sha, plan.shardCount)
    && ShardsStand(k, plan, files, root, combine)
  }

  // ----- the procedure

  method CheckPlan(c: Commit, k: Codec, d: Disk, planPath: Path, sha: string, head: Option<string>,
                   collected: seq<string>)
    returns (r: Option<Plan>)
    ensures r.Some? <==> PlanStands(c, k, d.files, planPath, sha, head, collected)
    ensures r.Some? ==> r == LoadPlan(c, k, d.files, planPath)
  {
    if !IsGitSha(sha) || head != Some(sha) || planPath !in d.files {
      return None;
    }
    var plan := (k.parsePlan)(d.files[planPath]);
    if plan.None? {
      return None;
    }
    var accepted := ValidatePlan(c, plan.value, Some(sha));
    if !accepted {
      return None;
    }
    var replanned := BuildPlan(c, collected, plan.value.shardCount, sha);
    if replanned.Err? || (k.renderPlan)(plan.value) != (k.renderPlan)(replanned.value) {
      return None;
    }
    return plan;
  }

  /** These are the paths of the first pairs, in shard order. */
  ghost predicate PairPaths(root: seq<string>, sha: string, count: nat, metadata: seq<Path>, coverage: seq<Path>)
    requires count >= 1
  {
    && |metadata| == |coverage|
    && forall i: nat :: i < |metadata| ==>
      && metadata[i] == MetadataPath(ArtifactDir(root, sha, i), i, count)
      && coverage[i] == CoveragePath(ArtifactDir(root, sha, i), i, count)
  }

  lemma PairPathsOneMore(root: seq<string>, sha: string, count: nat, metadata: seq<Path>, coverage: seq<Path>)
    requires count >= 1 && PairPaths(root, sha, count, metadata, coverage)
    ensures var i := |metadata|; var dir := ArtifactDir(root, sha, i);
      PairPaths(root, sha, count, metadata + [MetadataPath(dir, i, count)], coverage + [CoveragePath(dir, i, count)])
  {
  }

  /** The paths of the downloaded pairs, in shard order. */
  method ArtifactPayloads(d: Disk, root: seq<string>, sha: string, count: nat)
    returns (ok: bool, metadata: seq<Path>, coverage: seq<Path>)
    requires count >= 1
    ensures ok <==> PayloadsExact(d.files, root, sha, count)
    ensures ok ==> |metadata| == count && PairPaths(root, sha, count, metadata, coverage)
  {
    metadata, coverage := [], [];
    if FileNames(d.files, root) != {}
      || SubdirectoryNames(d.files, root) != (set i | 0 <= i < count :: ArtifactName(sha, i)) {
      return false, metadata, coverage;
    }
    for i := 0 to count
      invariant |metadata| == i && PairPaths(root, sha, count, metadata, coverage)
      invariant forall j: nat :: j < i ==> PairListed(d.files, root, sha, j, count)
    {
      var dir := ArtifactDir(root, sha, i);
      if !PairListed(d.files, root, sha, i, count) {
        return false, metadata, coverage;
      }
      PairPathsOneMore(root, sha, count, metadata, coverage);
      metadata := metadata + [MetadataPath(dir, i, count)];
      coverage := coverage + [CoveragePath(dir, i, count)];
    }
    ok := true;
  }

  /** The first n paths under their own positions, and nothing else. */
  ghost predicate Indexed(paths: seq<Path>, n: nat, byIndex: map<nat, Path>)
    requires n <= |paths|
  {
    && (forall j: nat :: j in byIndex <==> j < n)
    && (forall j: nat :: j < n ==> byIndex[j] == paths[j])
  }

  /** The dictionary from the index read off each name; its duplicate error never happens. */
  method IndexByName(paths: seq<Path>, prefix: string, suffix: string, count: nat)
    returns (r: Option<map<nat, Path>>)
    requires |paths| == count >= 1
    requires forall i: nat :: i < count ==> paths[i].name == prefix + ShardLabel(i, count) + suffix
    ensures r.Some? && Indexed(paths, count, r.value)
  {
    var byIndex: map<nat, Path> := map[];
    for i := 0 to count
      invariant Indexed(paths, i, byIndex)
    {
      var index := MatchName(prefix, suffix, paths[i].name);
      MatchLabelledName(prefix, suffix, i, count);
      if index.None? || index.value in byIndex {
        return None;
      }
      byIndex := byIndex[index.value := paths[i]];
    }
    return Some(byIndex);
  }

  /** The bytes of a shard that passes every check, or None. */
  method CheckShardFiles(k: Codec, d: Disk, plan: Plan, dir: seq<string>, i: nat, metadata: Path, coverage: Path)
    returns (r: Option<Bytes>)
    requires i < |plan.shards| && plan.shardCount >= 1
    requires metadata == MetadataPath(dir, i, plan.shardCount)
    requires coverage == CoveragePath(dir, i, plan.shardCount)
    ensures r.Some? <==> ShardVerified(k, plan, d.files, dir, i)
    ensures r.Some? ==> r.value == d.files[coverage]
  {
    if metadata !in d.files || coverage !in d.files {
      return None;
    }
    var m := (k.parseMetadata)(d.files[metadata]);
    if m.None? || !MetadataBinds(plan, m.value, i) {
      return None;
    }
    var content := d.files[coverage];
    if coverage.name != m.value.coverageFile || !DataMatches(k, m.value, content) {
      return None;
    }
    return Some(content);
  }

  lemma StagedNameIsApart(i: nat, j: nat, count: nat)
    requires count >= 1
    ensures StagedName(i, count) != CoverageName(j, count)
    ensures StagedName(i, count) != MetadataName(j, count)
  {
    assert StagedName(i, count)[0] == '.' && CoverageName(j, count)[0] == 'c' && MetadataName(j, count)[0] == 's';
  }

  lemma StagedNamesDiffer(i: nat, j: nat, count: nat)
    requires count >= 1 && i != j
    ensures StagedName(i, count) != StagedName(j, count)
  {
    LabelledNamesDiffer(STAGED_PREFIX, "", i, j, count);
    assert StagedName(i, count) == STAGED_PREFIX + ShardLabel(i, count) + "";
    assert StagedName(j, count) == STAGED_PREFIX + ShardLabel(j, count) + "";
  }

  /** Staging touches its own places and nothing else. */
  lemma {:induction false} StagedOnlyThere(plan: Plan, files: Files, root: seq<string>, combine: seq<string>,
                                           n: nat, p: Path)
    requires plan.shardCount >= 1
    requires forall i: nat :: i < n ==> p != StagedPath(combine, i, plan.shardCount)
    ensures p in Staged(plan, files, root, combine, n) <==> p in files
    ensures p in files ==> Staged(plan, files, root, combine, n)[p] == files[p]
  {
    if n > 0 {
      StagedOnlyThere(plan, files, root, combine, n - 1, p);
    }
  }

  /** Verifying shard j gives the same answer before and after staging others. */
  lemma StagingKeepsVerdicts(k: Codec, plan: Plan, files: Files, root: seq<string>, combine: seq<string>, n: nat)
    requires plan.shardCount >= 1 && n < |plan.shards|
    ensures Stageable(k, plan, Staged(plan, files, root, combine, n), root, combine, n)
        <==> Stageable(k, plan, files, root, combine, n)
  {
    var dir := ArtifactDir(root, plan.gitSha, n);
    forall i: nat | i < n
      ensures CoveragePath(dir, n, plan.shardCount) != StagedPath(combine, i, plan.shardCount)
      ensures MetadataPath(dir, n, plan.shardCount) != StagedPath(combine, i, plan.shardCount)
      ensures StagedPath(combine, n, plan.shardCount) != StagedPath(combine, i, plan.shardCount)
    {
      StagedNameIsApart(i, n, plan.shardCount);
      StagedNamesDiffer(i, n, plan.shardCount);
    }
    StagedOnlyThere(plan, files, root, combine, n, CoveragePath(dir, n, plan.shardCount));
    StagedOnlyThere(plan, files, root, combine, n, MetadataPath(dir, n, plan.shardCount));
    StagedOnlyThere(plan, files, root, combine, n, StagedPath(combine, n, plan.shardCount));
  }

  ghost predicate AllStageable(k: Codec, plan: Plan, files: Files, root: seq<string>, combine: seq<string>, n: nat)
    requires plan.shardCount >= 1 && n <= |plan.shards|
  {
    forall i: nat :: i < n ==> Stageable(k, plan, files, root, combine, i)
  }

  /** Staging never alters a file that was there. */
  lemma {:induction false} StagedExtends(k: Codec, plan: Plan, files: Files, root: seq<string>,
                                         combine: seq<string>, n: nat, p: Path)
    requires plan.shardCount >= 1 && n <= |plan.shards|
    requires AllStageable(k, plan, files, root, combine, n)
    requires p in files
    ensures p in Staged(plan, files, root, combine, n) && Staged(plan, files, root, combine, n)[p] == files[p]
  {
    if n > 0 {
      StagedExtends(k, plan, files, root, combine, n - 1, p);
      assert Stageable(k, plan, files, root, combine, n - 1);
    }
  }

  ghost predicate Extends(before: Files, after: Files) {
    forall p :: p in before ==> p in after && after[p] == before[p]
  }

  lemma StagedKeepsFiles(k: Codec, plan: Plan, files: Files, root: seq<string>, combine: seq<string>, n: nat)
    requires plan.shardCount >= 1 && n <= |plan.shards|
    requires AllStageable(k, plan, files, root, combine, n)
    ensures Extends(files, Staged(plan, files, root, combine, n))
  {
    forall p | p in files
      ensures p in Staged(plan, files, root, combine, n) && Staged(plan, files, root, combine, n)[p] == files[p]
    {
      StagedExtends(k, plan, files, root, combine, n, p);
    }
  }

  /** The staging write of shard i, from what was downloaded. */
  ghost function StagingWrite(plan: Plan, files: Files, root: seq<string>, combine: seq<string>, i: nat,
                              fate: Fate): Write
    requires plan.shardCount >= 1
  {
    Write(StagedPath(combine, i, plan.shardCount), Downloaded(plan, files, root, i), fate)
  }

  /** Shard i is staged: it can be, and its file is filled or is there and can be inspected. */
  ghost predicate StagingGoes(k: Codec, plan: Plan, files: Files, root: seq<string>, combine: seq<string>,
                              i: nat, fate: Fate)
    requires i < |plan.shards| && plan.shardCount >= 1
  {
    && Stageable(k, plan, files, root, combine, i)
    && Serves(files, StagedPath(combine, i, plan.shardCount), fate)
  }

  /** Check and stage shard i of a run that has staged the ones before it. */
  method StageShard(k: Codec, d: Disk, plan: Plan, root: seq<string>, combine: seq<string>, i: nat,
                    metadata: Path, coverage: Path, fate: Fate, ghost before: Files) returns (ok: bool)
    requires i < |plan.shards| && plan.shardCount >= 1
    requires metadata == MetadataPath(ArtifactDir(root, plan.gitSha, i), i, plan.shardCount)
    requires coverage == CoveragePath(ArtifactDir(root, plan.gitSha, i), i, plan.shardCount)
    requires d.files == Staged(plan, before, root, combine, i)
    modifies d
    ensures ok <==> StagingGoes(k, plan, before, root, combine, i, fate)
    ensures ok ==> d.files == Staged(plan, before, root, combine, i + 1)
    ensures !ok && Stageable(k, plan, before, root, combine, i) ==>
      d.files == After(old(d.files), StagingWrite(plan, before, root, combine, i, fate))
    ensures !ok && !Stageable(k, plan, before, root, combine, i) ==> d.files == old(d.files)
  {
    StagingKeepsVerdicts(k, plan, before, root, combine, i);
    var content := CheckShardFiles(k, d, plan, ArtifactDir(root, plan.gitSha, i), i, metadata, coverage);
    if content.None? {
      return false;
    }
    CoverageUnstaged(plan, before, root, combine, i);
    StagedUnstaged(plan, before, root, combine, i);
    ok := d.WriteImmutable(Write(StagedPath(combine, i, plan.shardCount), content.value, fate));
  }

  /** The place of shard n is as it was before the shards ahead of it were staged. */
  lemma StagedUnstaged(plan: Plan, files: Files, root: seq<string>, combine: seq<string>, n: nat)
    requires plan.shardCount >= 1
    ensures var p := StagedPath(combine, n, plan.shardCount);
      var staged := Staged(plan, files, root, combine, n);
      (p in staged <==> p in files) && (p in files ==> staged[p] == files[p])
  {
    var p := StagedPath(combine, n, plan.shardCount);
    forall i: nat | i < n ensures p != StagedPath(combine, i, plan.shardCount) {
      StagedNamesDiffer(i, n, plan.shardCount);
    }
    StagedOnlyThere(plan, files, root, combine, n, p);
  }

  lemma CoverageUnstaged(plan: Plan, files: Files, root: seq<string>, combine: seq<string>, n: nat)
    requires plan.shardCount >= 1
    ensures var p := CoveragePath(ArtifactDir(root, plan.gitSha, n), n, plan.shardCount);
      var staged := Staged(plan, files, root, combine, n);
      (p in staged <==> p in files) && (p in files ==> staged[p] == files[p])
  {
    var p := CoveragePath(ArtifactDir(root, plan.gitSha, n), n, plan.shardCount);
    forall i: nat | i < n ensures p != StagedPath(combine, i, plan.shardCount) {
      StagedNameIsApart(i, n, plan.shardCount);
    }
    StagedOnlyThere(plan, files, root, combine, n, p);
  }

  /** Some of the first shards were staged, then perhaps the write of the next one did not go
      through, and nothing else happened. */
  ghost predicate PartlyStaged(k: Codec, plan: Plan, before: Files, root: seq<string>, combine: seq<string>,
                               fates: nat -> Fate, after: Files)
    requires plan.shardCount == |plan.shards| >= 1
  {
    exists n: nat :: n <= plan.shardCount && StagedAsFarAs(k, plan, before, root, combine, fates, n, after)
  }

  ghost predicate StagedAsFarAs(k: Codec, plan: Plan, before: Files, root: seq<string>, combine: seq<string>,
                                fates: nat -> Fate, n: nat, after: Files)
    requires plan.shardCount == |plan.shards| >= 1 && n <= plan.shardCount
  {
    && AllStageable(k, plan, before, root, combine, n)
    && var staged := Staged(plan, before, root, combine, n);
    || after == staged
    || (n < plan.shardCount && Stageable(k, plan, before, root, combine, n)
        && after == After(staged, StagingWrite(plan, before, root, combine, n, fates(n))))
  }

  /** Every file that staging needs is filled or is there and can be inspected. */
  ghost predicate StagingWhole(plan: Plan, files: Files, combine: seq<string>, fates: nat -> Fate, n: nat)
    requires plan.shardCount >= 1
  {
    forall i: nat :: i < n ==> Serves(files, StagedPath(combine, i, plan.shardCount), fates(i))
  }

  lemma NotAllStaged(k: Codec, plan: Plan, files: Files, root: seq<string>, combine: seq<string>,
                     fates: nat -> Fate, i: nat)
    requires plan.shardCount == |plan.shards| && i < plan.shardCount
    requires !StagingGoes(k, plan, files, root, combine, i, fates(i))
    ensures !(ShardsStand(k, plan, files, root, combine) && StagingWhole(plan, files, combine, fates, plan.shardCount))
  {
  }

  lemma OneMoreStaged(k: Codec, plan: Plan, files: Files, root: seq<string>, combine: seq<string>,
                      fates: nat -> Fate, i: nat)
    requires plan.shardCount >= 1 && i < |plan.shards|
    requires AllStageable(k, plan, files, root, combine, i) && StagingWhole(plan, files, combine, fates, i)
    requires StagingGoes(k, plan, files, root, combine, i, fates(i))
    ensures AllStageable(k, plan, files, root, combine, i + 1) && StagingWhole(plan, files, combine, fates, i + 1)
  {
  }

  /** The staging loop over all shards, and the final look at the combine directory. */
  method StageAll(k: Codec, d: Disk, plan: Plan, root: seq<string>, combine: seq<string>,
                  metadata: map<nat, Path>, coverage: map<nat, Path>, fates: nat -> Fate) returns (ok: bool)
    requires plan.shardCount == |plan.shards| >= 1
    requires forall i: nat :: i < plan.shardCount ==>
      && i in metadata && metadata[i] == MetadataPath(ArtifactDir(root, plan.gitSha, i), i, plan.shardCount)
      && i in coverage && coverage[i] == CoveragePath(ArtifactDir(root, plan.gitSha, i), i, plan.shardCount)
    modifies d
    ensures ok <==>
      && ShardsStand(k, plan, old(d.files), root, combine)
      && StagingWhole(plan, old(d.files), combine, fates, plan.shardCount)
    ensures ok ==> d.files == Staged(plan, old(d.files), root, combine, plan.shardCount)
    ensures PartlyStaged(k, plan, old(d.files), root, combine, fates, d.files)
    ensures Extends(old(d.files), d.files)
  {
    ghost var before := d.files;
    for i := 0 to plan.shardCount
      invariant d.files == Staged(plan, before, root, combine, i)
      invariant AllStageable(k, plan, before, root, combine, i)
      invariant StagingWhole(plan, before, combine, fates, i)
    {
      StagedKeepsFiles(k, plan, before, root, combine, i);
      ok := StageShard(k, d, plan, root, combine, i, metadata[i], coverage[i], fates(i), before);
      if !ok {
        NotAllStaged(k, plan, before, root, combine, fates, i);
        assert StagedAsFarAs(k, plan, before, root, combine, fates, i, d.files);
        return false;
      }
      OneMoreStaged(k, plan, before, root, combine, fates, i);
    }
    StagedKeepsFiles(k, plan, before, root, combine, plan.shardCount);
    assert StagedAsFarAs(k, plan, before, root, combine, fates, plan.shardCount, d.files);
    ok := Listing(d.files, combine) == StagedNames(plan.shardCount, plan.shardCount);
  }

  /**
   The verifier. It succeeds exactly when the stored plan and every shard stand and every
   staging write goes through, and then the disk is the old one with the shards staged; it never
   alters a file that was there.
   */
  method VerifyArtifacts(c: Commit, k: Codec, d: Disk, planPath: Path, root: seq<string>,
                         combine: seq<string>, sha: string, head: Option<string>, collected: seq<string>,
                         fates: nat -> Fate)
    returns (ok: bool)
    modifies d
    ensures ok <==>
      && Verifiable(c, k, old(d.files), planPath, root, combine, sha, head, collected)
      && var plan := LoadPlan(c, k, old(d.files), planPath).value;
      StagingWhole(plan, old(d.files), combine, fates, plan.shardCount)
    ensures ok ==>
      var plan := LoadPlan(c, k, old(d.files), planPath).value;
      d.files == Staged(plan, old(d.files), root, combine, plan.shardCount)
    ensures !PlanStands(c, k, old(d.files), planPath, sha, head, collected) ==> d.files == old(d.files)
    ensures PlanStands(c, k, old(d.files), planPath, sha, head, collected) ==>
      PartlyStaged(k, LoadPlan(c, k, old(d.files), planPath).value, old(d.files), root, combine, fates, d.files)
    ensures Extends(old(d.files), d.files)
  {
    var plan := CheckPlan(c, k, d, planPath, sha, head, collected);
    if plan.None? {
      return false;
    }
    AcceptedHeader(c, plan.value, sha);
    var count := plan.value.shardCount;
    var exact, metadata, coverage := ArtifactPayloads(d, root, sha, count);
    if !exact {
      assert StagedAsFarAs(k, plan.value, old(d.files), root, combine, fates, 0, d.files);
      return false;
    }
    var metadataByIndex := IndexByName(metadata, METADATA_PREFIX, METADATA_SUFFIX, count);
    CoverageSuffix(coverage, root, sha, count);
    var coverageByIndex := IndexByName(coverage, COVERAGE_PREFIX, "", count);
    ok := StageAll(k, d, plan.value, root, combine, metadataByIndex.value, coverageByIndex.value, fates);
  }

  lemma AcceptedHeader(c: Commit, plan: Plan, sha: string)
    requires Accepted(c, plan, Some(sha))
    ensures plan.shardCount == |plan.shards| >= 1 && plan.gitSha == sha
  {
  }

  lemma CoverageSuffix(coverage: seq<Path>, root: seq<string>, sha: string, count: nat)
    requires count >= 1 && |coverage| == count
    requires forall i: nat :: i < count ==> coverage[i] == CoveragePath(ArtifactDir(root, sha, i), i, count)
    ensures forall i: nat :: i < count ==> coverage[i].name == COVERAGE_PREFIX + ShardLabel(i, count) + ""
  {
    forall i: nat | i < count ensures coverage[i].name == COVERAGE_PREFIX + ShardLabel(i, count) + "" {
      assert CoverageName(i, count) + "" == CoverageName(i, count);
    }
  }

  // ----- what is verified, in the terms of the files

  lemma DigestIsHex(s: string)
    ensures IsHex64(s) <==> |s| == 64 && forall d :: d in s ==> '0' <= d <= '9' || 'a' <= d <= 'f'
  {
  }

  /** A shard verifies exactly when its two files, named by its label, are there, the data is usable,
      and the metadata can be read and describes the shard and this data in every field. */
  lemma VerifiedMeans(k: Codec, plan: Plan, files: Files, dir: seq<string>, i: nat, l: string)
    requires i < |plan.shards| == plan.shardCount && IsLabel(l, i, plan.shardCount)
    ensures
      var data, meta := Path(dir, "coverage-data-shard-" + l), Path(dir, "shard-" + l + ".json");
      ShardVerified(k, plan, files, dir, i) <==>
        && data in files && meta in files && files[data] != []
        && (k.parseMetadata)(files[meta]).Some?
        && var m := (k.parseMetadata)(files[meta]).value;
        && Describes(k, plan, i, files[data], m) && m.measured >= 1
        && |m.coverageSha| == 64 && forall d :: d in m.coverageSha ==> '0' <= d <= '9' || 'a' <= d <= 'f'
  {
    LabelIsUnique(l, i, plan.shardCount);
    var data, meta := Path(dir, "coverage-data-shard-" + l), Path(dir, "shard-" + l + ".json");
    if data in files && meta in files && (k.parseMetadata)(files[meta]).Some? {
      BindsMeans(k, plan, i, files[data], (k.parseMetadata)(files[meta]).value, l);
    }
  }

  lemma BindsMeans(k: Codec, plan: Plan, i: nat, content: Bytes, m: Metadata, l: string)
    requires i < |plan.shards| == plan.shardCount && IsLabel(l, i, plan.shardCount)
    ensures MetadataBinds(plan, m, i) && DataMatches(k, m, content) <==>
      && content != [] && Describes(k, plan, i, content, m) && m.measured >= 1
      && |m.coverageSha| == 64 && forall d :: d in m.coverageSha ==> '0' <= d <= '9' || 'a' <= d <= 'f'
  {
    LabelIsUnique(l, i, plan.shardCount);
    DigestIsHex(m.coverageSha);
    if Describes(k, plan, i, content, m) {
      var other :| IsLabel(other, i, plan.shardCount) && m.coverageFile == "coverage-data-shard-" + other;
      LabelIsUnique(other, i, plan.shardCount);
    }
  }

  /** Where a worker's artifact is expected, and where its data is staged. */
  lemma PlacesMean(root: seq<string>, combine: seq<string>, sha: string, i: nat, count: nat, l: string, d: string)
    requires i < count && IsLabel(l, i, count) && IsDecimal(d, i)
    ensures ArtifactDir(root, sha, i) == root + ["coverage-shard-" + sha + "-" + d]
    ensures StagedPath(combine, i, count) == Path(combine, ".coverage.shard-" + l)
  {
    LabelIsUnique(l, i, count);
    DecimalIsUnique(d, i);
  }
}
