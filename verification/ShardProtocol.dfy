/**
 The write-once artifact protocol: workers materialise their coverage data beside bound
 metadata, and the verifier replans, checks and stages. Files are a map from path to
 bytes, updated in place by `Disk`; JSON, SHA-256 and coverage.py are carried by `Codec`.
 */
module ShardProtocol {
  import opened Sorting
  import opened NodeIds
  import opened ShardLabels
  import opened ShardPlan
  import opened ShardChecker
  import opened ShardPlanner

  const SHARD_RESULT_SCHEMA_VERSION := "ci-coverage-shard-result-v1"
  const METADATA_PREFIX := "shard-"
  const METADATA_SUFFIX := ".json"
  const COVERAGE_PREFIX := "coverage-data-shard-"
  const STAGED_PREFIX := ".coverage.shard-"
  const ARTIFACT_PREFIX := "coverage-shard-"

  // ----- data model

  type Bytes = seq<bv8>

  datatype Path = Path(dir: seq<string>, name: string)

  /** What is on the disk. An entry with the empty name stands for its directory itself, so
      that empty directories show; a file's directories exist with it. */
  type Files = map<Path, Bytes>

  datatype Metadata = Metadata(
    assignedCount: int, assignedSha: string, coverageBytes: int, coverageFile: string,
    coverageSha: string, hasArcs: bool, eligibleSha: string, gitSha: string, marker: string,
    measured: int, planSha: string, schema: string, index: int)

  /** JSON rendering and parsing (None: unreadable or of the wrong shape), SHA-256, and the
      number of measured files of branch data (None: unreadable or line-only). */
  datatype Codec = Codec(
    renderPlan: Plan -> Bytes, parsePlan: Bytes -> Option<Plan>,
    renderMetadata: Metadata -> Bytes, parseMetadata: Bytes -> Option<Metadata>,
    sha256: Bytes -> string, branchFiles: Bytes -> Option<nat>)

  predicate IsHex64(s: string) {
    |s| == 64 && forall d :: d in s ==> '0' <= d <= '9' || 'a' <= d <= 'f'
  }

  /** Canonical JSON is cut short unnoticed only when nothing but the final line end is missing:
      a shorter prefix of an object does not parse, and that one parses to the same object. */
  ghost predicate PrefixLaw(k: Codec) {
    forall m, b :: b <= (k.renderMetadata)(m) && (k.parseMetadata)(b).Some? ==> (k.parseMetadata)(b) == Some(m)
  }

  /** What completeness assumes of the libraries: JSON round-trips, digests are hexadecimal. */
  ghost predicate CodecLaws(k: Codec) {
    && (forall p :: (k.parsePlan)((k.renderPlan)(p)) == Some(p))
    && (forall m :: (k.parseMetadata)((k.renderMetadata)(m)) == Some(m))
    && (forall b :: IsHex64((k.sha256)(b)))
  }

  // ----- names

  function MetadataName(i: nat, count: nat): string
    requires count >= 1
  {
    METADATA_PREFIX + ShardLabel(i, count) + METADATA_SUFFIX
  }

  function CoverageName(i: nat, count: nat): string
    requires count >= 1
  {
    COVERAGE_PREFIX + ShardLabel(i, count)
  }

  function StagedName(i: nat, count: nat): string
    requires count >= 1
  {
    STAGED_PREFIX + ShardLabel(i, count)
  }

  function ArtifactName(sha: string, i: nat): string {
    ARTIFACT_PREFIX + sha + "-" + Decimal(i)
  }

  // ----- directories

  /** Everything listed in a directory: its files and its subdirectories. */
  function FileNames(files: Files, dir: seq<string>): set<string> {
    set p | p in files && p.dir == dir && p.name != "" :: p.name
  }

  function SubdirectoryNames(files: Files, dir: seq<string>): set<string> {
    set p | p in files && |p.dir| > |dir| && p.dir[..|dir|] == dir :: p.dir[|dir|]
  }

  function Listing(files: Files, dir: seq<string>): set<string> {
    FileNames(files, dir) + SubdirectoryNames(files, dir)
  }

  // ----- writing once: the file is created, then filled, and nothing is cleaned up

  /** How a write goes: all bytes arrive in a new file; writing raises, or the process dies, after
      so many of them; or the file can be neither created nor, when it is there, inspected. */
  datatype Fate = Whole | Stops(after: nat) | Fails

  datatype Write = Write(path: Path, content: Bytes, fate: Fate)

  function Landed(content: Bytes, fate: Fate): (r: Bytes)
    ensures r <= content && (fate.Whole? ==> r == content)
  {
    match fate
    case Whole => content
    case Stops(k) => if k < |content| then content[..k] else content
    case Fails => []
  }

  /** The file can be filled or, when it is there, inspected. */
  predicate Serves(files: Files, path: Path, fate: Fate) {
    if path in files then !fate.Fails? else fate.Whole?
  }

  /** A write goes through when it fills the file itself or finds the same content there. */
  predicate Goes(files: Files, w: Write) {
    Serves(files, w.path, w.fate) && (w.path in files ==> files[w.path] == w.content)
  }

  function After(files: Files, w: Write): (r: Files)
    ensures forall p :: p in files ==> p in r && r[p] == files[p]
  {
    if w.path in files || w.fate.Fails? then files else files[w.path := Landed(w.content, w.fate)]
  }

  /** Non-empty, readable branch data over at least one file: how many files it measured. */
  function CoverageProperties(k: Codec, content: Bytes): (r: Option<nat>)
    ensures r.Some? ==> r.value >= 1 && content != []
  {
    if content == [] then None
    else
      match (k.branchFiles)(content)
      case None => None
      case Some(n) => if n == 0 then None else Some(n)
  }

  function LoadPlan(c: Commit, k: Codec, files: Files, path: Path): Option<Plan> {
    if path in files then (k.parsePlan)(files[path]) else None
  }

  // ----- a worker

  function MetadataFor(k: Codec, plan: Plan, i: nat, content: Bytes, measured: nat): Metadata
    requires i < |plan.shards| && plan.shardCount >= 1
  {
    Metadata(plan.shards[i].nodeidCount, plan.shards[i].nodeidSha, |content|,
             CoverageName(i, plan.shardCount), (k.sha256)(content), true, plan.eligibleSha,
             plan.gitSha, MARKER_EXPRESSION, measured, plan.planSha,
             SHARD_RESULT_SCHEMA_VERSION, i)
  }

  /** The two outputs of worker i. */
  function CoveragePath(dir: seq<string>, i: nat, count: nat): Path
    requires count >= 1
  {
    Path(dir, CoverageName(i, count))
  }

  function MetadataPath(dir: seq<string>, i: nat, count: nat): Path
    requires count >= 1
  {
    Path(dir, MetadataName(i, count))
  }

  function MetadataBytes(k: Codec, plan: Plan, i: nat, content: Bytes): Bytes
    requires i < |plan.shards| && plan.shardCount >= 1
    requires CoverageProperties(k, content).Some?
  {
    (k.renderMetadata)(MetadataFor(k, plan, i, content, CoverageProperties(k, content).value))
  }

  class Disk {
    var files: Files

    constructor (initial: Files)
      ensures files == initial
    {
      files := initial;
    }

    method WriteImmutable(w: Write) returns (ok: bool)
      modifies this
      ensures ok <==> Goes(old(files), w)
      ensures files == After(old(files), w)
    {
      if w.fate.Fails? {
        return false;
      }
      if w.path !in files {
        files := files[w.path := []];
        files := files[w.path := Landed(w.content, w.fate)];
        return w.fate.Whole?;
      }
      return files[w.path] == w.content;
    }

    /** The checks of a worker: the plan it works for, or None. */
    method SelectShard(c: Commit, k: Codec, planPath: Path, i: int, content: Option<Bytes>, expectedSha: string)
      returns (r: Option<Plan>)
      ensures r.Some? <==> Selected(c, k, files, planPath, i, content, expectedSha)
      ensures r.Some? ==> r == LoadPlan(c, k, files, planPath)
    {
      if planPath !in files {
        return None;
      }
      var plan := (k.parsePlan)(files[planPath]);
      if plan.None? {
        return None;
      }
      var accepted := ValidatePlan(c, plan.value, Some(expectedSha));
      if !accepted || i < 0 || i >= plan.value.shardCount {
        return None;
      }
      if content.None? || CoverageProperties(k, content.value).None? {
        return None;
      }
      return plan;
    }

    /** Write two files once and look whether the directory holds just these. */
    method PublishPair(data: Write, meta: Write) returns (ok: bool)
      modifies this
      ensures ok <==> Publishable(old(files), data, meta)
      ensures files == Published(old(files), data, meta)
    {
      var wrote := WriteImmutable(data);
      if !wrote {
        return false;
      }
      wrote := WriteImmutable(meta);
      if !wrote {
        return false;
      }
      return Listing(files, data.path.dir) == {data.path.name, meta.path.name};
    }

    /** One worker: check the plan and the data, then publish the data with its metadata. */
    method MaterializeShard(c: Commit, k: Codec, planPath: Path, i: int, content: Option<Bytes>,
                            dir: seq<string>, expectedSha: string, dataFate: Fate, metaFate: Fate)
      returns (ok: bool)
      modifies this
      ensures ok <==>
        Materializable(c, k, old(files), planPath, i, content, dir, expectedSha, dataFate, metaFate)
      ensures !Selected(c, k, old(files), planPath, i, content, expectedSha) ==> files == old(files)
      ensures Selected(c, k, old(files), planPath, i, content, expectedSha) ==>
        var plan := LoadPlan(c, k, old(files), planPath).value;
        files == Published(old(files), DataWrite(plan, i, content.value, dir, dataFate),
                           MetaWrite(k, plan, i, content.value, dir, metaFate))
      ensures ok ==> forall l :: IsLabel(l, i, LoadPlan(c, k, old(files), planPath).value.shardCount) ==>
        Listing(files, dir) == {"coverage-data-shard-" + l, "shard-" + l + ".json"}
    {
      var plan := SelectShard(c, k, planPath, i, content, expectedSha);
      if plan.None? {
        return false;
      }
      ok := PublishPair(DataWrite(plan.value, i, content.value, dir, dataFate),
                        MetaWrite(k, plan.value, i, content.value, dir, metaFate));
      if ok {
        forall l | IsLabel(l, i, plan.value.shardCount)
          ensures Listing(files, dir) == {"coverage-data-shard-" + l, "shard-" + l + ".json"}
        {
          WorkerFiles(c, k, old(files), planPath, i, content, dir, expectedSha, dataFate, metaFate, l);
        }
      }
    }
  }

  function DataWrite(plan: Plan, i: nat, content: Bytes, dir: seq<string>, fate: Fate): Write
    requires plan.shardCount >= 1
  {
    Write(CoveragePath(dir, i, plan.shardCount), content, fate)
  }

  function MetaWrite(k: Codec, plan: Plan, i: nat, content: Bytes, dir: seq<string>, fate: Fate): Write
    requires i < |plan.shards| && plan.shardCount >= 1 && CoverageProperties(k, content).Some?
  {
    Write(MetadataPath(dir, i, plan.shardCount), MetadataBytes(k, plan, i, content), fate)
  }

  ghost predicate Selected(c: Commit, k: Codec, files: Files, planPath: Path, i: int,
                           content: Option<Bytes>, expectedSha: string) {
    var loaded := LoadPlan(c, k, files, planPath);
    && loaded.Some? && Accepted(c, loaded.value, Some(expectedSha))
    && 0 <= i < loaded.value.shardCount
    && content.Some? && CoverageProperties(k, content.value).Some?
  }

  /** The files after writing one and then the other: a write that does not go through ends it. */
  function Published(files: Files, data: Write, meta: Write): (r: Files)
    ensures forall p :: p in files ==> p in r && r[p] == files[p]
  {
    if Goes(files, data) then After(After(files, data), meta) else After(files, data)
  }

  /** Both writes go through and nothing else is in the directory. */
  ghost predicate Publishable(files: Files, data: Write, meta: Write) {
    && Goes(files, data) && Goes(After(files, data), meta)
    && Listing(Published(files, data, meta), data.path.dir) == {data.path.name, meta.path.name}
  }

  /** When a worker succeeds, as a condition on the files it starts from and on its writes. */
  ghost predicate Materializable(c: Commit, k: Codec, files: Files, planPath: Path, i: int, content: Option<Bytes>,
                                 dir: seq<string>, expectedSha: string, dataFate: Fate, metaFate: Fate) {
    && Selected(c, k, files, planPath, i, content, expectedSha)
    && var plan := LoadPlan(c, k, files, planPath).value;
    Publishable(files, DataWrite(plan, i, content.value, dir, dataFate),
                MetaWrite(k, plan, i, content.value, dir, metaFate))
  }

  // ----- what a worker accepts and writes, in the terms of the files

  /** A name listed in a directory is that of a file in it, or leads to something deeper. */
  lemma ListingMeans(files: Files, dir: seq<string>, name: string)
    ensures name in Listing(files, dir) <==>
      || (name != "" && Path(dir, name) in files)
      || exists p :: p in files && dir + [name] <= p.dir
  {
    if name in FileNames(files, dir) {
      var p :| p in files && p.dir == dir && p.name == name;
      assert p == Path(dir, name);
    }
    if name != "" && Path(dir, name) in files {
      assert Path(dir, name).name in FileNames(files, dir);
    }
    if name in SubdirectoryNames(files, dir) {
      var p :| p in files && |p.dir| > |dir| && p.dir[..|dir|] == dir && p.dir[|dir|] == name;
      assert dir + [name] <= p.dir;
    }
    if p :| p in files && dir + [name] <= p.dir {
      assert p.dir[..|dir|] == dir && p.dir[|dir|] == name;
    }
  }

  /** The data and the place of a worker are usable exactly when the plan is there and accepted, the
      index exists, and the data is nonempty and readable branch data over at least one file. */
  lemma SelectedMeans(c: Commit, k: Codec, files: Files, planPath: Path, i: int, content: Option<Bytes>,
                      expectedSha: string)
    ensures Selected(c, k, files, planPath, i, content, expectedSha) <==>
      && planPath in files && (k.parsePlan)(files[planPath]).Some?
      && Accepted(c, (k.parsePlan)(files[planPath]).value, Some(expectedSha))
      && 0 <= i < (k.parsePlan)(files[planPath]).value.shardCount
      && content.Some? && content.value != []
      && (k.branchFiles)(content.value).Some? && (k.branchFiles)(content.value).value >= 1
  {
  }

  /** The metadata of shard i of this plan for this data, field by field. */
  ghost predicate Describes(k: Codec, plan: Plan, i: nat, content: Bytes, m: Metadata)
    requires i < |plan.shards| && plan.shardCount >= 1
  {
    && m.schema == "ci-coverage-shard-result-v1" && m.marker == "not performance"
    && m.index == i && m.assignedCount == plan.shards[i].nodeidCount && m.assignedSha == plan.shards[i].nodeidSha
    && m.gitSha == plan.gitSha && m.planSha == plan.planSha && m.eligibleSha == plan.eligibleSha
    && m.coverageBytes == |content| && m.coverageSha == (k.sha256)(content)
    && m.hasArcs && (k.branchFiles)(content) == Some(m.measured)
    && exists l :: IsLabel(l, i, plan.shardCount) && m.coverageFile == "coverage-data-shard-" + l
  }

  lemma MetadataDescribes(k: Codec, plan: Plan, i: nat, content: Bytes, measured: nat)
    requires i < |plan.shards| == plan.shardCount && (k.branchFiles)(content) == Some(measured)
    ensures Describes(k, plan, i, content, MetadataFor(k, plan, i, content, measured))
  {
    LabelIs(i, plan.shardCount);
    assert IsLabel(ShardLabel(i, plan.shardCount), i, plan.shardCount);
  }

  /** Where a worker succeeds its directory holds just two files, named by the label of the shard:
      the data as it was, and metadata that describes it. */
  lemma WorkerFiles(c: Commit, k: Codec, files: Files, planPath: Path, i: int, content: Option<Bytes>,
                    dir: seq<string>, expectedSha: string, dataFate: Fate, metaFate: Fate, l: string)
    requires Materializable(c, k, files, planPath, i, content, dir, expectedSha, dataFate, metaFate)
    requires var plan := LoadPlan(c, k, files, planPath).value; IsLabel(l, i, plan.shardCount)
    ensures
      var plan := LoadPlan(c, k, files, planPath).value;
      var after := Published(files, DataWrite(plan, i, content.value, dir, dataFate),
                             MetaWrite(k, plan, i, content.value, dir, metaFate));
      var data, meta := Path(dir, "coverage-data-shard-" + l), Path(dir, "shard-" + l + ".json");
      && Listing(after, dir) == {data.name, meta.name}
      && data in after && after[data] == content.value
      && meta in after
      && exists m :: Describes(k, plan, i, content.value, m) && after[meta] == (k.renderMetadata)(m)
  {
    var plan := LoadPlan(c, k, files, planPath).value;
    LabelIsUnique(l, i, plan.shardCount);
    var measured := (k.branchFiles)(content.value).value;
    MetadataDescribes(k, plan, i, content.value, measured);
    NamesApart(l);
    assert Describes(k, plan, i, content.value, MetadataFor(k, plan, i, content.value, measured));
  }

  lemma NamesApart(l: string)
    ensures COVERAGE_PREFIX + l != METADATA_PREFIX + l + METADATA_SUFFIX
  {
    assert (COVERAGE_PREFIX + l)[0] == 'c' && (METADATA_PREFIX + l + METADATA_SUFFIX)[0] == 's';
  }
}
