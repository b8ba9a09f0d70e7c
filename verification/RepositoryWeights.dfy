/** The weight overrides of this commit, and how even they make its shards. The theory fits any others. */
module RepositoryWeights {
  import opened Sorting
  import opened NodeIds
  import opened ShardChecker
  import opened ShardPlan
  import opened ShardPlanner

  const GREATEST_OVERRIDE: nat := 1050

  predicate AtMost(o: Overrides, bound: nat) {
    forall p :: p in o ==> o[p] <= bound
  }

  /** Overrides of this repository: none is above the greatest. */
  type Suites = o: Overrides | AtMost(o, GREATEST_OVERRIDE) witness map[]

  function Plus(o: Suites, path: string, weight: nat): Suites
    requires 1 <= weight <= GREATEST_OVERRIDE
  {
    o[path := weight]
  }

  const NO_OVERRIDES: Suites := map[]

  const OPTIMISATION_SUITES: Suites :=
    Plus(Plus(Plus(Plus(NO_OVERRIDES,
      "tests/assurance/optimisation/test_r2c_artifact_validation.py", 1050),
      "tests/assurance/optimisation/test_surface.py", 270),
      "tests/contract/optimisation/test_r2a_contract_gates.py", 270),
      "tests/golden/optimisation/test_golden.py", 270)

  const INTEGRATION_SUITES: Suites :=
    Plus(Plus(Plus(Plus(OPTIMISATION_SUITES,
      "tests/integration/availability/test_min007g_service.py", 45),
      "tests/integration/migrations/test_migrations.py", 65),
      "tests/integration/optimisation/test_integration.py", 340),
      "tests/property/optimisation/test_oracle_equivalence.py", 45)

  const FILE_WEIGHT_OVERRIDES: Suites :=
    Plus(Plus(Plus(INTEGRATION_SUITES,
      "tests/unit/availability/test_audit0073_cli_semantics.py", 45),
      "tests/unit/optimisation/test_r2b_semantics.py", 270),
      "tests/unit/optimisation/test_service.py", 650)

  /** No module of the population has more identifiers than this. */
  ghost predicate ModulesAtMost(ids: seq<string>, n: nat) {
    forall f :: f in FilesOf(ids) ==> |ModuleIds(ids, f)| <= n
  }

  /** The greater of an override and the estimate for a module of n identifiers. */
  function HeaviestModule(n: nat, override: nat): nat {
    var estimated := DEFAULT_FILE_WEIGHT + DEFAULT_NODEID_WEIGHT * n;
    if estimated > override then estimated else override
  }

  lemma SomeModule(c: Commit, ids: seq<string>, m: nat, q: nat) returns (f: string)
    requires q < m <= |FilesOf(ids)|
    ensures f in ShardFiles(c, ids, m, q) && f in FilesOf(ids)
  {
    ShardIsInhabited(c, ids, m, q);
    var id := Filter(InFiles(ShardFiles(c, ids, m, q)), ids)[0];
    assert id in Filter(InFiles(ShardFiles(c, ids, m, q)), ids);
    f := FileOf(id);
    FilesOfMembers(ids, f);
  }

  lemma ShardsAreEven(c: Commit, ids: seq<string>, m: nat, n: nat, bound: nat, q: nat, r: nat)
    requires AtMost(c.overrides, bound)
    requires Population(ids) && 1 <= m <= |FilesOf(ids)| && ModulesAtMost(ids, n) && q < m && r < m
    ensures PlannedShard(c, ids, m, q).weight <= PlannedShard(c, ids, m, r).weight + HeaviestModule(n, bound)
  {
    var f := SomeModule(c, ids, m, q);
    PlanIsInEquilibrium(c, ids, m, q, r, f);
  }

  lemma CappedAtMost(o: Suites)
    ensures AtMost(o, GREATEST_OVERRIDE)
  {
  }

  /** With the weights of this repository no two shards of a plan are further apart than 1050, or
      than the estimate of the largest module when that is more. */
  lemma RepositoryShardsAreEven(c: Commit, ids: seq<string>, m: nat, n: nat, q: nat, r: nat)
    requires c.overrides == FILE_WEIGHT_OVERRIDES
    requires Population(ids) && 1 <= m <= |FilesOf(ids)| && ModulesAtMost(ids, n) && q < m && r < m
    ensures PlannedShard(c, ids, m, q).weight
         <= PlannedShard(c, ids, m, r).weight + HeaviestModule(n, GREATEST_OVERRIDE)
  {
    CappedAtMost(FILE_WEIGHT_OVERRIDES);
    ShardsAreEven(c, ids, m, n, GREATEST_OVERRIDE, q, r);
  }

  const SERVICE_SUITE := "tests/unit/optimisation/test_service.py"

  /** The weight of identifiers of one module: its override, or 5 and 1 for each of them. */
  lemma OneModule(c: Commit, ids: seq<string>, f: string)
    requires ids != [] && forall id :: id in ids ==> FileOf(id) == f
    ensures ModelWeight(c, ids) == if f in c.overrides then c.overrides[f] else 5 + |ids|
  {
    var files := DerivedFiles(ids);
    SortStringsSorts(FilesOf(ids));
    forall g ensures g in files <==> g == f {
      FilesOfMembers(ids, g);
      if g == f {
        assert ids[0] in ids;
      }
    }
    OneMember(files, f);
    ModelWeightMeans(c, ids);
    SumByConstant(AddedWeight(c), ids, if f in c.overrides then 0 else 1);
  }

  lemma OneMember(s: seq<string>, x: string)
    requires Distinct(s) && forall y :: y in s <==> y == x
    ensures s == [x]
  {
    SetSizeMeansDistinct(s);
    assert MemberSet(s) == {x};
    assert s[0] in s;
  }

  lemma {:induction false} SumByConstant(f: string -> nat, s: seq<string>, k: nat)
    requires forall x :: x in s ==> f(x) == k
    ensures SumBy(f, s) == k * |s|
  {
    if s != [] {
      SumByConstant(f, s[1..], k);
    }
  }

  lemma ServiceSuiteOverride()
    ensures SERVICE_SUITE in FILE_WEIGHT_OVERRIDES && FILE_WEIGHT_OVERRIDES[SERVICE_SUITE] == 650
  {
  }

  /** With the weights of this repository an accepted shard of the service suite alone weighs 650. */
  lemma ServiceSuiteWeighs(c: Commit, s: Shard, i: nat)
    requires c.overrides == FILE_WEIGHT_OVERRIDES && ShardAccepted(c, s, i)
    requires forall id :: id in s.nodeids ==> FileOf(id) == SERVICE_SUITE
    ensures s.weight == 650
  {
    ServiceSuiteOverride();
    OneModule(c, s.nodeids, SERVICE_SUITE);
  }

  /** The overrides of this commit. */
  lemma OverridesMean()
    ensures FILE_WEIGHT_OVERRIDES == map[
      "tests/assurance/optimisation/test_r2c_artifact_validation.py" := 1050,
      "tests/assurance/optimisation/test_surface.py" := 270,
      "tests/contract/optimisation/test_r2a_contract_gates.py" := 270,
      "tests/golden/optimisation/test_golden.py" := 270,
      "tests/integration/availability/test_min007g_service.py" := 45,
      "tests/integration/migrations/test_migrations.py" := 65,
      "tests/integration/optimisation/test_integration.py" := 340,
      "tests/property/optimisation/test_oracle_equivalence.py" := 45,
      "tests/unit/availability/test_audit0073_cli_semantics.py" := 45,
      "tests/unit/optimisation/test_r2b_semantics.py" := 270,
      "tests/unit/optimisation/test_service.py" := 650]
  {
  }
}
