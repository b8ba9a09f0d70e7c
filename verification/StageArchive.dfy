/**
 The members of the Stage-13 review archive: what the script collects from the repository,
 and when the archive it writes of them passes its own verification.
 */
module StageArchive {
  import opened Sorting
  import opened NodeIds
  import opened ChecksumManifest

  // ----- the names the script fixes

  const PATCH := "STAGE13.patch"

  const BASE_TEXTS := ["REPO.txt", "BASE_BRANCH.txt", "BASE_SHA.txt"]
  const BRANCH_TEXTS := ["STAGE13_BRANCH.txt"]
  const HEAD_TEXTS := ["WORKTREE_HEAD.txt", "REMOTE_HEAD.txt", "PATCH_STATS.txt"]
  const OTHER_TEXTS := ["CHANGED_FILES.txt", "SOL_REVIEW_INSTRUCTIONS.md"]

  const RESULTS := ["IMPLEMENTATION_RESULT.md", "KNOWN_LIMITATIONS.md"]
  const STATUSES := ["TEST_RESULTS.md", "VALIDATION_STATUS.md"]
  const EVIDENCE := RESULTS + STATUSES
  const EVIDENCE_ROOT := "evidence/tickets/PRC-013/"

  const AUTHORITY := [
    "specs/manifests/" + "authority_manifest.json",
    "specs/approved/" + "DMFP-11_PRICE_CHANGE_" + "AND_TEAM_VALUE_MODEL.txt",
    "specs/approved/" + "DMFP-19_CODEX_" + "IMPLEMENTATION_ROADMAP_" + "AND_ACCEPTANCE_TESTS.txt",
    "specs/approved/" + "DMFP-20_ASSUMPTIONS_" + "DECISIONS_AND_" + "OPEN_QUESTIONS.txt"]
  const AUTHORITY_ROOT := "authority/"

  const REPOSITORY_ROOT := "repository/"

  const PRODUCTION := "src/dmf_pulse/prices/"
  const UNIT_TESTS := "tests/unit/prices/"
  const FIXTURES := "fixtures/prices/"

  const PREFIXES := [
    REPOSITORY_ROOT + PRODUCTION, REPOSITORY_ROOT + UNIT_TESTS, REPOSITORY_ROOT + FIXTURES,
    REPOSITORY_ROOT + EVIDENCE_ROOT]

  function Texts(): seq<string> {
    BASE_TEXTS + BRANCH_TEXTS + HEAD_TEXTS + OTHER_TEXTS
  }

  /** What verification demands of the members. */
  function Demanded(): Material {
    Material({PATCH} + MemberSet(EVIDENCE), PATCH, PREFIXES)
  }

  // ----- collecting

  /** The patch, the list of changed files as Git prints it, the generated texts by name, and
      the regular files of the repository by the path they are asked under. */
  datatype Worktree = Worktree(patch: Bytes, changed: string, texts: string -> Bytes, files: map<string, Bytes>)

  function ChangedLines(t: Worktree): seq<string> {
    Filter((line: string) => line != "", SplitLines(t.changed))
  }

  /** The parts of a path that count: empty ones and "." vanish. */
  function PathParts(path: string): seq<string> {
    Filter((part: string) => part != "" && part != ".", Split(path, '/'))
  }

  /** The slashes at the front of a path: none, one, or exactly two. */
  function Lead(path: string): string {
    if |path| >= 2 && path[..2] == "//" && (|path| == 2 || path[2] != '/') then "//"
    else if path != "" && path[0] == '/' then "/"
    else ""
  }

  /** A path as `PurePosixPath` writes it. */
  function Posix(path: string): string {
    var parts, lead := PathParts(path), Lead(path);
    if parts != [] then lead + Join(parts, '/') else if lead != "" then lead else "."
  }

  function RepositoryName(path: string): string {
    REPOSITORY_ROOT + Posix(path)
  }

  function WithFiles(members: map<string, Bytes>, files: map<string, Bytes>, changed: seq<string>): map<string, Bytes> {
    if changed == [] then members
    else
      var n := |changed| - 1;
      var front := WithFiles(members, files, changed[..n]);
      if changed[n] in files then front[RepositoryName(changed[n]) := files[changed[n]]] else front
  }

  predicate HasEvidence(t: Worktree) {
    forall n :: n in EVIDENCE ==> EVIDENCE_ROOT + n in t.files
  }

  predicate HasAll(files: map<string, Bytes>, paths: seq<string>) {
    forall a :: a in paths ==> a in files
  }

  /** The members named by the script ahead of those of the changed files. */
  function Generated(t: Worktree): map<string, Bytes>
    requires HasEvidence(t)
  {
    (map n | n in Texts() :: (t.texts)(n)) + map[PATCH := t.patch]
    + (map n | n in EVIDENCE :: t.files[EVIDENCE_ROOT + n])
  }

  function WithAuthority(members: map<string, Bytes>, files: map<string, Bytes>, paths: seq<string>): map<string, Bytes>
    requires HasAll(files, paths)
  {
    if paths == [] then members
    else
      var n := |paths| - 1;
      WithAuthority(members, files, paths[..n])[AUTHORITY_ROOT + paths[n] := files[paths[n]]]
  }

  /** Everything the script needs is there. */
  predicate Collectable(t: Worktree) {
    t.patch != [] && ChangedLines(t) != [] && HasEvidence(t) && HasAll(t.files, AUTHORITY)
  }

  function Collected(t: Worktree): map<string, Bytes>
    requires Collectable(t)
  {
    WithAuthority(WithFiles(Generated(t), t.files, ChangedLines(t)), t.files, AUTHORITY)
  }

  /** The members of the archive, or None when something is missing. */
  method CollectMembers(t: Worktree) returns (r: Option<map<string, Bytes>>)
    ensures r == if Collectable(t) then Some(Collected(t)) else None
  {
    var changed := ChangedLines(t);
    if t.patch == [] || changed == [] || !HasEvidence(t) {
      return None;
    }
    var members := AddFiles(Generated(t), t.files, changed);
    if !HasAll(t.files, AUTHORITY) {
      return None;
    }
    members := AddAuthority(members, t.files, AUTHORITY);
    return Some(members);
  }

  method AddFiles(members: map<string, Bytes>, files: map<string, Bytes>, changed: seq<string>)
    returns (r: map<string, Bytes>)
    ensures r == WithFiles(members, files, changed)
  {
    r := members;
    for i := 0 to |changed|
      invariant r == WithFiles(members, files, changed[..i])
    {
      assert changed[..i + 1][..i] == changed[..i];
      if changed[i] in files {
        r := r[RepositoryName(changed[i]) := files[changed[i]]];
      }
    }
    WholePrefix(changed);
  }

  method AddAuthority(members: map<string, Bytes>, files: map<string, Bytes>, paths: seq<string>)
    returns (r: map<string, Bytes>)
    requires HasAll(files, paths)
    ensures r == WithAuthority(members, files, paths)
  {
    r := members;
    for i := 0 to |paths|
      invariant r == WithAuthority(members, files, paths[..i])
    {
      assert paths[..i + 1][..i] == paths[..i];
      r := r[AUTHORITY_ROOT + paths[i] := files[paths[i]]];
    }
    WholePrefix(paths);
  }

  // ----- which names are collected

  /** The line of a changed file that is there. */
  predicate Included(t: Worktree, line: string) {
    line in ChangedLines(t) && line in t.files
  }

  ghost predicate NamesChanged(t: Worktree, name: string) {
    exists line :: Included(t, line) && name == RepositoryName(line)
  }

  ghost predicate NamesAuthority(paths: seq<string>, name: string) {
    exists a :: a in paths && name == AUTHORITY_ROOT + a
  }

  ghost predicate NamesFile(files: map<string, Bytes>, changed: seq<string>, name: string) {
    exists line :: line in changed && line in files && name == RepositoryName(line)
  }

  lemma {:induction false} FileNamed(members: map<string, Bytes>, files: map<string, Bytes>, changed: seq<string>,
                                     name: string)
    ensures name in WithFiles(members, files, changed) <==> name in members || NamesFile(files, changed, name)
    ensures name in members && !NamesFile(files, changed, name) ==>
      WithFiles(members, files, changed)[name] == members[name]
  {
    if changed != [] {
      var n := |changed| - 1;
      FileNamed(members, files, changed[..n], name);
      SplitLast(changed);
      NamedByLast(files, changed[..n], changed[n], name);
    }
  }

  lemma NamedByLast(files: map<string, Bytes>, changed: seq<string>, line: string, name: string)
    ensures NamesFile(files, changed + [line], name)
      <==> NamesFile(files, changed, name) || (line in files && name == RepositoryName(line))
  {
    assert forall l :: l in changed + [line] <==> l in changed || l == line;
  }

  lemma {:induction false} AuthorityNamed(members: map<string, Bytes>, files: map<string, Bytes>, paths: seq<string>,
                                          name: string)
    requires HasAll(files, paths)
    ensures name in WithAuthority(members, files, paths) <==> name in members || NamesAuthority(paths, name)
    ensures name in members && !NamesAuthority(paths, name) ==>
      WithAuthority(members, files, paths)[name] == members[name]
  {
    if paths != [] {
      var n := |paths| - 1;
      AuthorityNamed(members, files, paths[..n], name);
      AuthorityByLast(paths, name);
    }
  }

  lemma AuthorityByLast(paths: seq<string>, name: string)
    requires paths != []
    ensures var n := |paths| - 1;
      NamesAuthority(paths, name) <==> NamesAuthority(paths[..n], name) || name == AUTHORITY_ROOT + paths[n]
  {
    SplitLast(paths);
  }

  /** Fixed by the script, or the name of a changed file. */
  predicate IsFixed(name: string) {
    name in Texts() || name == PATCH || name in EVIDENCE
  }

  lemma CollectedNames(t: Worktree, name: string)
    requires Collectable(t)
    ensures name in Collected(t) <==> IsFixed(name) || NamesChanged(t, name) || NamesAuthority(AUTHORITY, name)
  {
    FileNamed(Generated(t), t.files, ChangedLines(t), name);
    AuthorityNamed(WithFiles(Generated(t), t.files, ChangedLines(t)), t.files, AUTHORITY, name);
    if NamesFile(t.files, ChangedLines(t), name) {
      var line :| line in ChangedLines(t) && line in t.files && name == RepositoryName(line);
      assert Included(t, line);
    }
  }

  // ----- the fixed names hold nothing unusual

  predicate NameChar(c: char) {
    '-' <= c <= '9' || 'A' <= c <= 'Z' || c == '_' || 'a' <= c <= 'z'
  }

  /** Part of a name: plain characters, no dot at the front, no two dots in a row. */
  predicate Piece(s: string) {
    && s != [] && s[0] != '.'
    && (forall i :: 0 <= i < |s| ==> NameChar(s[i]))
    && (forall i :: 0 <= i < |s| - 1 ==> !(s[i] == '.' && s[i + 1] == '.'))
  }

  lemma PieceJoined(a: string, b: string)
    requires Piece(a) && Piece(b)
    ensures Piece(a + b)
  {
  }

  lemma PieceIsOneLine(s: string)
    requires Piece(s)
    ensures OneLine(s) && '\\' !in s
  {
    forall c | c in s ensures !IsBoundary(c) && c != '\\' {
      var i :| 0 <= i < |s| && s[i] == c;
      assert NameChar(s[i]);
    }
  }

  lemma {:induction false} PartsInside(s: string, part: string) returns (k: nat)
    requires part in Split(s, '/')
    ensures k + |part| <= |s| && s[k..k + |part|] == part
  {
    if s == [] {
      k := 0;
    } else {
      var rest := Split(s[1..], '/');
      if s[0] != '/' && part == [s[0]] + rest[0] {
        k := 0;
        FirstPart(s[1..]);
        assert s[..|part|] == [s[0]] + s[1..][..|rest[0]|];
      } else if part == "" {
        k := 0;
      } else {
        assert part in rest;
        var j := PartsInside(s[1..], part);
        k := j + 1;
        assert s[k..k + |part|] == s[1..][j..j + |part|];
      }
    }
  }

  lemma {:induction false} FirstPart(s: string)
    ensures var first := Split(s, '/')[0]; |first| <= |s| && s[..|first|] == first
  {
    if s != [] && s[0] != '/' {
      FirstPart(s[1..]);
      var rest := Split(s[1..], '/');
      assert s[..|rest[0]| + 1] == [s[0]] + s[1..][..|rest[0]|];
    }
  }

  lemma PieceIsSafe(s: string)
    requires Piece(s) && s[0] != '/'
    ensures SafeMember(s)
  {
    PieceIsOneLine(s);
    if ".." in Split(s, '/') {
      DotsAreNoPiece(s);
    }
  }

  lemma DotsAreNoPiece(s: string)
    requires ".." in Split(s, '/')
    ensures !Piece(s)
  {
    var k := PartsInside(s, "..");
    assert s[k] == s[k..k + 2][0] && s[k + 1] == s[k..k + 2][1];
  }

  // Each list is a lemma of its own, and long names are checked in parts: evaluating literals is costly.

  predicate FixedText(n: string) {
    Piece(n) && 'A' <= n[0] <= 'Z' && n != PACK_FILE
  }

  lemma BaseTexts()
    ensures forall n :: n in BASE_TEXTS ==> FixedText(n)
  {
  }

  lemma BranchTexts()
    ensures forall n :: n in BRANCH_TEXTS ==> FixedText(n)
  {
  }

  lemma HeadTexts()
    ensures forall n :: n in HEAD_TEXTS ==> FixedText(n)
  {
  }

  lemma OtherTexts()
    ensures forall n :: n in OTHER_TEXTS ==> FixedText(n)
  {
  }

  lemma ResultTexts()
    ensures forall n :: n in RESULTS ==> FixedText(n)
  {
  }

  lemma StatusTexts()
    ensures forall n :: n in STATUSES ==> FixedText(n)
  {
  }

  lemma PatchText()
    ensures FixedText(PATCH) && PATCH !in EVIDENCE
  {
  }

  lemma PackFileText()
    ensures Piece(PACK_FILE) && PACK_FILE[0] == 'P'
  {
  }

  lemma FixedIsText(name: string)
    requires IsFixed(name)
    ensures FixedText(name)
  {
    BaseTexts();
    BranchTexts();
    HeadTexts();
    OtherTexts();
    ResultTexts();
    StatusTexts();
    PatchText();
  }

  lemma SpecsManifest()
    ensures Piece(AUTHORITY[0])
  {
    PieceJoined("specs/manifests/", "authority_manifest.json");
  }

  lemma SpecsPrices()
    ensures Piece(AUTHORITY[1])
  {
    PieceJoined("specs/approved/", "DMFP-11_PRICE_CHANGE_");
    PieceJoined("specs/approved/" + "DMFP-11_PRICE_CHANGE_", "AND_TEAM_VALUE_MODEL.txt");
  }

  lemma RoadmapWords()
    ensures Piece("specs/approved/" + "DMFP-19_CODEX_") && Piece("IMPLEMENTATION_ROADMAP_")
  {
    PieceJoined("specs/approved/", "DMFP-19_CODEX_");
  }

  lemma SpecsRoadmap()
    ensures Piece(AUTHORITY[2])
  {
    RoadmapWords();
    PieceJoined("specs/approved/" + "DMFP-19_CODEX_", "IMPLEMENTATION_ROADMAP_");
    PieceJoined("specs/approved/" + "DMFP-19_CODEX_" + "IMPLEMENTATION_ROADMAP_", "AND_ACCEPTANCE_TESTS.txt");
  }

  lemma QuestionsWords()
    ensures Piece("specs/approved/" + "DMFP-20_ASSUMPTIONS_") && Piece("DECISIONS_AND_")
  {
    PieceJoined("specs/approved/", "DMFP-20_ASSUMPTIONS_");
  }

  lemma SpecsQuestions()
    ensures Piece(AUTHORITY[3])
  {
    QuestionsWords();
    PieceJoined("specs/approved/" + "DMFP-20_ASSUMPTIONS_", "DECISIONS_AND_");
    PieceJoined("specs/approved/" + "DMFP-20_ASSUMPTIONS_" + "DECISIONS_AND_", "OPEN_QUESTIONS.txt");
  }

  lemma AuthorityIsPiece(name: string)
    requires NamesAuthority(AUTHORITY, name)
    ensures Piece(name) && name[0] == 'a'
  {
    var a :| a in AUTHORITY && name == AUTHORITY_ROOT + a;
    SpecsManifest();
    SpecsPrices();
    SpecsRoadmap();
    SpecsQuestions();
    PieceJoined(AUTHORITY_ROOT, a);
  }

  // ----- the name of a changed file is one line

  lemma {:induction false} JoinChars(parts: seq<string>, c: char)
    requires parts != [] && c in Join(parts, '/')
    ensures c == '/' || exists part :: part in parts && c in part
  {
    if |parts| > 1 && c !in parts[0] && c != '/' {
      JoinChars(parts[1..], c);
      var part :| part in parts[1..] && c in part;
      assert part in parts;
    } else {
      assert parts[0] in parts;
    }
  }

  lemma PosixChars(path: string, c: char)
    requires c in Posix(path)
    ensures c in path || c == '/' || c == '.'
  {
    var parts := PathParts(path);
    if c != '/' && c != '.' && parts != [] {
      JoinChars(parts, c);
      var part :| part in parts && c in part;
      var k := PartsInside(path, part);
      assert c in path[k..k + |part|];
    }
  }

  lemma RepositoryNameIsOneLine(line: string)
    requires OneLine(line)
    ensures OneLine(RepositoryName(line)) && RepositoryName(line)[0] == 'r'
  {
    PieceIsOneLine(REPOSITORY_ROOT);
    forall c | c in RepositoryName(line) ensures !IsBoundary(c) {
      if c !in REPOSITORY_ROOT {
        PosixChars(line, c);
      }
    }
  }

  lemma ChangedIsOneLine(t: Worktree, line: string)
    requires line in ChangedLines(t)
    ensures OneLine(line)
  {
    LinesHaveNoBoundary(t.changed);
    var k :| 0 <= k < |SplitLines(t.changed)| && SplitLines(t.changed)[k] == line;
  }

  // ----- the archive of the collected members

  lemma CollectedName(t: Worktree, name: string)
    requires Collectable(t) && name in Collected(t)
    ensures OneLine(name) && name != PACK_FILE && name != ""
    ensures NamesChanged(t, name) || (Piece(name) && name[0] != '/' && name[0] != 'r')
  {
    CollectedNames(t, name);
    PackFileText();
    if IsFixed(name) {
      FixedIsText(name);
      PieceIsOneLine(name);
    } else if NamesAuthority(AUTHORITY, name) {
      AuthorityIsPiece(name);
      PieceIsOneLine(name);
    } else {
      var line :| Included(t, line) && name == RepositoryName(line);
      ChangedIsOneLine(t, line);
      RepositoryNameIsOneLine(line);
    }
  }

  /** Whatever is collected, its names survive the manifest: none holds a line boundary, and
      none is the manifest's own. */
  lemma CollectedIsRecoverable(t: Worktree)
    requires Collectable(t)
    ensures Recoverable(Collected(t))
  {
    forall n | n in Collected(t) ensures OneLine(n) && n != PACK_FILE {
      CollectedName(t, n);
    }
  }

  /** The archive is written exactly when the path of every included file is safe. */
  lemma WrittenExactly(k: Codec, t: Worktree)
    requires Collectable(t)
    ensures AllSafe(SortedMembers(Complete(k, Collected(t)).Keys))
      <==> forall line :: Included(t, line) ==> SafeMember(RepositoryName(line))
  {
    var all := Complete(k, Collected(t));
    var names := SortedMembers(all.Keys);
    PackFileText();
    PieceIsSafe(PACK_FILE);
    forall n | n in all ensures SafeMember(n) || NamesChanged(t, n) {
      if n in Collected(t) {
        CollectedName(t, n);
        if !NamesChanged(t, n) {
          PieceIsSafe(n);
        }
      }
    }
    forall line | Included(t, line) ensures RepositoryName(line) in names {
      IncludedIsCollected(t, line);
    }
    SafeEverywhere(names);
  }

  lemma SafeEverywhere(names: seq<string>)
    ensures AllSafe(names) <==> forall n :: n in names ==> SafeMember(n)
  {
  }

  ghost predicate Covers(t: Worktree, prefix: string) {
    exists line :: Included(t, line) && prefix <= RepositoryName(line)
  }

  lemma PrefixesStart(prefix: string)
    requires prefix in PREFIXES
    ensures prefix != "" && prefix[0] == 'r'
  {
  }

  lemma SuppliedCovers(k: Codec, t: Worktree, prefix: string, n: string)
    requires Collectable(t) && prefix != "" && prefix[0] == 'r'
    requires n in Complete(k, Collected(t)) && prefix <= n
    ensures Covers(t, prefix)
  {
    assert n[0] == 'r';
    PackFileText();
    CollectedName(t, n);
    var line :| Included(t, line) && n == RepositoryName(line);
  }

  lemma IncludedIsCollected(t: Worktree, line: string)
    requires Collectable(t) && Included(t, line)
    ensures RepositoryName(line) in Collected(t)
  {
    assert NamesChanged(t, RepositoryName(line));
    CollectedNames(t, RepositoryName(line));
  }

  lemma HasUnderName(k: Codec, members: map<string, Bytes>, prefix: string, n: string)
    requires n in members && prefix <= n
    ensures HasUnder(Complete(k, members), prefix)
  {
    assert n in Complete(k, members);
  }

  lemma FileNameStarts(t: Worktree, name: string)
    requires NamesFile(t.files, ChangedLines(t), name)
    ensures name != "" && name[0] == 'r'
  {
    var line :| line in ChangedLines(t) && line in t.files && name == RepositoryName(line);
    ChangedIsOneLine(t, line);
    RepositoryNameIsOneLine(line);
  }

  lemma PatchCollected(t: Worktree)
    requires Collectable(t)
    ensures PATCH in Collected(t) && Collected(t)[PATCH] == t.patch && PATCH != PACK_FILE
  {
    PatchText();
    FileNamed(Generated(t), t.files, ChangedLines(t), PATCH);
    AuthorityNamed(WithFiles(Generated(t), t.files, ChangedLines(t)), t.files, AUTHORITY, PATCH);
    if NamesAuthority(AUTHORITY, PATCH) {
      AuthorityIsPiece(PATCH);
    }
    if NamesFile(t.files, ChangedLines(t), PATCH) {
      FileNameStarts(t, PATCH);
    }
  }

  lemma PrefixSupplied(k: Codec, t: Worktree, prefix: string)
    requires Collectable(t) && prefix != "" && prefix[0] == 'r'
    ensures HasUnder(Complete(k, Collected(t)), prefix) <==> Covers(t, prefix)
  {
    if n :| n in Complete(k, Collected(t)) && prefix <= n {
      SuppliedCovers(k, t, prefix, n);
    }
    if line :| Included(t, line) && prefix <= RepositoryName(line) {
      IncludedIsCollected(t, line);
      HasUnderName(k, Collected(t), prefix, RepositoryName(line));
    }
  }

  lemma TextsSupplied(k: Codec, t: Worktree)
    requires Collectable(t)
    ensures Demanded().required <= Complete(k, Collected(t)).Keys
    ensures PATCH in Complete(k, Collected(t)) && Complete(k, Collected(t))[PATCH] == t.patch
  {
    PatchCollected(t);
    forall n | n in EVIDENCE ensures n in Collected(t) {
      CollectedNames(t, n);
    }
  }

  /** The texts and the patch are always there; only a prefix can be without a file. */
  lemma SuppliesExactly(k: Codec, t: Worktree)
    requires Collectable(t)
    ensures Supplies(Complete(k, Collected(t)), Demanded()) <==> forall p :: p in PREFIXES ==> Covers(t, p)
  {
    TextsSupplied(k, t);
    forall p | p in PREFIXES
      ensures HasUnder(Complete(k, Collected(t)), p) <==> Covers(t, p)
    {
      PrefixesStart(p);
      PrefixSupplied(k, t, p);
    }
  }

  /**
   An archive written of collected members verifies exactly when each of the four prefixes has
   a changed file that is there. Nothing else can go wrong.
   */
  lemma CollectedArchiveVerifies(k: Codec, t: Worktree)
    requires CodecLaws(k) && Collectable(t)
    requires AllSafe(SortedMembers(Complete(k, Collected(t)).Keys))
    ensures var entries := Entries(Complete(k, Collected(t)), SortedMembers(Complete(k, Collected(t)).Keys));
      ArchiveVerified(k, Demanded(), entries, DigestText(k, entries)) <==> forall p :: p in PREFIXES ==> Covers(t, p)
  {
    CollectedIsRecoverable(t);
    SuppliesExactly(k, t);
    WrittenArchiveVerifies(k, Demanded(), Collected(t));
  }

  // ----- the bytes that are collected

  /** The last of these lines that is there and has this name. */
  ghost predicate LastNamed(files: map<string, Bytes>, changed: seq<string>, name: string, i: nat) {
    && i < |changed| && changed[i] in files && RepositoryName(changed[i]) == name
    && forall j :: i < j < |changed| && changed[j] in files ==> RepositoryName(changed[j]) != name
  }

  lemma {:induction false} FileBytes(members: map<string, Bytes>, files: map<string, Bytes>, changed: seq<string>,
                                     name: string, i: nat)
    requires LastNamed(files, changed, name, i)
    ensures name in WithFiles(members, files, changed) && WithFiles(members, files, changed)[name] == files[changed[i]]
  {
    WithFilesLast(members, files, changed);
    if i < |changed| - 1 {
      NamedInFront(files, changed, name, i);
      FileBytes(members, files, changed[..|changed| - 1], name, i);
    }
  }

  lemma WithFilesLast(members: map<string, Bytes>, files: map<string, Bytes>, changed: seq<string>)
    requires changed != []
    ensures var line := changed[|changed| - 1];
      var front := WithFiles(members, files, changed[..|changed| - 1]);
      WithFiles(members, files, changed)
        == if line in files then front[RepositoryName(line) := files[line]] else front
  {
  }

  lemma NamedInFront(files: map<string, Bytes>, changed: seq<string>, name: string, i: nat)
    requires LastNamed(files, changed, name, i) && i < |changed| - 1
    ensures LastNamed(files, changed[..|changed| - 1], name, i)
    ensures changed[|changed| - 1] in files ==> RepositoryName(changed[|changed| - 1]) != name
  {
  }

  lemma {:induction false} AuthorityBytes(members: map<string, Bytes>, files: map<string, Bytes>, paths: seq<string>,
                                          i: nat)
    requires HasAll(files, paths) && i < |paths| && Distinct(paths)
    ensures AUTHORITY_ROOT + paths[i] in WithAuthority(members, files, paths)
    ensures WithAuthority(members, files, paths)[AUTHORITY_ROOT + paths[i]] == files[paths[i]]
  {
    var n := |paths| - 1;
    if i < n {
      AuthorityBytes(members, files, paths[..n], i);
      RootedApart(paths[i], paths[n]);
    }
  }

  lemma RootedApart(a: string, b: string)
    requires a != b
    ensures AUTHORITY_ROOT + a != AUTHORITY_ROOT + b
  {
    var n := |AUTHORITY_ROOT|;
    assert (AUTHORITY_ROOT + a)[n..] == a && (AUTHORITY_ROOT + b)[n..] == b;
  }

  lemma AuthorityLetters()
    ensures |AUTHORITY[0]| > 21 && AUTHORITY[0][6] == 'm'
    ensures |AUTHORITY[1]| > 21 && AUTHORITY[1][6] == 'a' && AUTHORITY[1][20] == '1' && AUTHORITY[1][21] == '1'
  {
  }

  lemma AuthorityNumbers()
    ensures |AUTHORITY[2]| > 21 && AUTHORITY[2][6] == 'a' && AUTHORITY[2][20] == '1' && AUTHORITY[2][21] == '9'
    ensures |AUTHORITY[3]| > 21 && AUTHORITY[3][6] == 'a' && AUTHORITY[3][20] == '2'
  {
  }

  lemma FourDistinct(a: string, b: string, c: string, d: string)
    requires a != b && a != c && a != d && b != c && b != d && c != d
    ensures Distinct([a, b, c, d])
  {
  }

  /** The authority files are collected with their bytes. */
  lemma AuthorityCollected(t: Worktree, i: nat)
    requires Collectable(t) && i < |AUTHORITY|
    ensures AUTHORITY_ROOT + AUTHORITY[i] in Collected(t)
    ensures Collected(t)[AUTHORITY_ROOT + AUTHORITY[i]] == t.files[AUTHORITY[i]]
  {
    AuthorityLetters();
    AuthorityNumbers();
    FourDistinct(AUTHORITY[0], AUTHORITY[1], AUTHORITY[2], AUTHORITY[3]);
    AuthorityBytes(WithFiles(Generated(t), t.files, ChangedLines(t)), t.files, AUTHORITY, i);
  }

  lemma RepositoryNameStarts(line: string)
    ensures RepositoryName(line) != "" && RepositoryName(line)[0] == 'r'
  {
    PrefixLetter();
  }

  lemma PrefixLetter()
    ensures REPOSITORY_ROOT != "" && REPOSITORY_ROOT[0] == 'r'
    ensures AUTHORITY_ROOT != "" && AUTHORITY_ROOT[0] == 'a'
  {
  }

  /** A changed file that is there is collected with its bytes; of several lines of one name the last. */
  lemma ChangedBytes(t: Worktree, name: string, i: nat)
    requires Collectable(t) && LastNamed(t.files, ChangedLines(t), name, i)
    ensures name in Collected(t) && Collected(t)[name] == t.files[ChangedLines(t)[i]]
  {
    var members := WithFiles(Generated(t), t.files, ChangedLines(t));
    FileBytes(Generated(t), t.files, ChangedLines(t), name, i);
    AuthorityNamed(members, t.files, AUTHORITY, name);
    RepositoryNameStarts(ChangedLines(t)[i]);
    PrefixLetter();
    assert !NamesAuthority(AUTHORITY, name);
  }

  /** The fixed members are collected with the texts that are generated, the patch, and the bytes of
      the evidence files. */
  lemma FixedBytes(t: Worktree, name: string)
    requires Collectable(t) && IsFixed(name)
    ensures name in Collected(t)
    ensures Collected(t)[name] ==
      if name in EVIDENCE then t.files[EVIDENCE_ROOT + name]
      else if name == PATCH then t.patch
      else (t.texts)(name)
  {
    FixedIsText(name);
    if NamesAuthority(AUTHORITY, name) {
      AuthorityIsPiece(name);
    }
    if NamesFile(t.files, ChangedLines(t), name) {
      FileNameStarts(t, name);
    }
    OnlyGenerated(t, name);
    GeneratedBytes(t, name);
  }

  lemma OnlyGenerated(t: Worktree, name: string)
    requires Collectable(t) && name in Generated(t)
    requires !NamesAuthority(AUTHORITY, name) && !NamesFile(t.files, ChangedLines(t), name)
    ensures name in Collected(t) && Collected(t)[name] == Generated(t)[name]
  {
    FileNamed(Generated(t), t.files, ChangedLines(t), name);
    AuthorityNamed(WithFiles(Generated(t), t.files, ChangedLines(t)), t.files, AUTHORITY, name);
  }

  lemma GeneratedBytes(t: Worktree, name: string)
    requires HasEvidence(t) && IsFixed(name)
    ensures name in Generated(t)
    ensures Generated(t)[name] ==
      if name in EVIDENCE then t.files[EVIDENCE_ROOT + name]
      else if name == PATCH then t.patch
      else (t.texts)(name)
  {
  }

  // ----- paths that are left as they are

  /** No empty part and none with a dot at its front, but for the first, which is not looked at. */
  predicate PlainInside(s: string) {
    && (s != [] ==> s[|s| - 1] != '/')
    && forall i :: 0 <= i < |s| - 1 && s[i] == '/' ==> s[i + 1] != '/' && s[i + 1] != '.'
  }

  predicate PlainPath(s: string) {
    s != [] && s[0] != '/' && s[0] != '.' && PlainInside(s)
  }

  predicate PlainPart(part: string) {
    part != [] && part[0] != '.'
  }

  lemma {:induction false} PartsInsidePlain(s: string)
    requires PlainInside(s)
    ensures forall part :: part in Split(s, '/')[1..] ==> PlainPart(part)
    ensures s != [] && s[0] != '/' ==> Split(s, '/')[0] != [] && Split(s, '/')[0][0] == s[0]
  {
    if s != [] {
      PartsInsidePlain(s[1..]);
      var rest := Split(s[1..], '/');
      assert rest == [rest[0]] + rest[1..];
      if s[0] == '/' {
        assert ([[]] + rest)[1..] == rest;
      } else {
        assert ([[s[0]] + rest[0]] + rest[1..])[1..] == rest[1..];
      }
    }
  }

  lemma {:induction false} FilterAll<T(!new)>(p: T -> bool, s: seq<T>)
    requires forall x :: x in s ==> p(x)
    ensures Filter(p, s) == s
  {
    if s != [] {
      FilterAll(p, s[1..]);
      assert s == [s[0]] + s[1..];
    }
  }

  lemma {:induction false} SplitJoined(a: string, t: string)
    ensures Split(a + ['/'] + t, '/') == Split(a, '/') + Split(t, '/')
  {
    if a == [] {
      assert a + ['/'] + t == ['/'] + t;
      assert (['/'] + t)[1..] == t;
    } else {
      assert (a + ['/'] + t)[1..] == a[1..] + ['/'] + t;
      SplitJoined(a[1..], t);
      var x, y := Split(a[1..], '/'), Split(t, '/');
      if a[0] == '/' {
        ConcatAssociates([[]], x, y);
      } else {
        assert (x + y)[0] == x[0] && (x + y)[1..] == x[1..] + y;
        ConcatAssociates([[a[0]] + x[0]], x[1..], y);
      }
    }
  }

  lemma PartsJoined(a: string, t: string)
    ensures PathParts(a + ['/'] + t) == PathParts(a) + PathParts(t)
  {
    SplitJoined(a, t);
    FilterJoin((part: string) => part != "" && part != ".", Split(a, '/'), Split(t, '/'));
  }

  lemma PlainKeepsParts(s: string)
    requires PlainPath(s)
    ensures PathParts(s) == Split(s, '/')
  {
    var parts := Split(s, '/');
    PartsInsidePlain(s);
    assert parts == [parts[0]] + parts[1..];
    forall part | part in parts ensures part != "" && part != "." {
      assert PlainPart(part);
    }
    FilterAll((part: string) => part != "" && part != ".", parts);
  }

  lemma NothingCounts(s: string)
    requires s == "" || s == "." || s == "/" || s == "//"
    ensures PathParts(s) == []
  {
    if s == "" || s == "." {
      SplitWhole(s);
      FilterCons((part: string) => part != "" && part != ".", s, []);
      assert [s] + [] == [s];
    } else {
      NothingCounts(s[1..]);
      NothingCounts("");
      PartsJoined("", s[1..]);
      assert "" + ['/'] + s[1..] == s;
    }
  }

  lemma PosixOfParts(path: string, s: string)
    requires PlainPath(s) && PathParts(path) == Split(s, '/')
    ensures Posix(path) == Lead(path) + s
  {
    JoinSplit(s, '/');
  }

  lemma PlainHasNoLead(s: string)
    requires s != "" && s[0] != '/'
    ensures Lead(s) == "" && Lead(s) + s == s
  {
  }

  lemma PlainJoined(a: string, b: string)
    requires PlainPath(a) && PlainPath(b)
    ensures PlainPath(a + ['/'] + b)
  {
  }

  /** A path in which nothing vanishes stays as it is. */
  lemma PosixOfPlain(s: string)
    requires PlainPath(s)
    ensures Posix(s) == s
  {
    PlainKeepsParts(s);
    PosixOfParts(s, s);
    PlainHasNoLead(s);
  }

  lemma DroppedParts(a: string, b: string, between: string)
    requires PlainPath(a) && PlainPath(b) && (between == "" || between == ".")
    ensures PathParts(a + ['/'] + (between + ['/'] + b)) == Split(a + ['/'] + b, '/')
  {
    PartsJoined(a, between + ['/'] + b);
    PartsJoined(between, b);
    NothingCounts(between);
    EmptyFirst(PathParts(b));
    PlainKeepsParts(a);
    PlainKeepsParts(b);
    SplitJoined(a, b);
  }

  lemma EmptyFirst<T>(s: seq<T>)
    ensures [] + s == s
  {
  }

  /** Parts that are empty or "." vanish between others. */
  lemma PosixDrops(a: string, b: string, between: string)
    requires PlainPath(a) && PlainPath(b) && (between == "" || between == ".")
    ensures Posix(a + ['/'] + (between + ['/'] + b)) == a + ['/'] + b
  {
    DroppedParts(a, b, between);
    PlainJoined(a, b);
    PosixOfParts(a + ['/'] + (between + ['/'] + b), a + ['/'] + b);
    PlainLead(a, ['/'] + (between + ['/'] + b));
    ConcatAssociates(a, ['/'], between + ['/'] + b);
    EmptyFirst(a + ['/'] + b);
  }

  lemma PlainLead(a: string, t: string)
    requires PlainPath(a)
    ensures Lead(a + t) == ""
  {
    assert (a + t)[0] == a[0];
  }

  lemma LeadOfRooted(s: string)
    requires s != "" && s[0] != '/'
    ensures Lead("/" + s) == "/" && Lead("//" + s) == "//" && Lead("///" + s) == "/"
  {
    assert ("/" + s)[0] == '/' && ("/" + s)[..2][1] == s[0];
    assert ("//" + s)[..2] == "//" && ("//" + s)[2] == s[0];
    assert ("///" + s)[..2] == "//" && ("///" + s)[2] == '/';
  }

  /** A path that starts with a slash keeps one, or, if there are exactly two, both. */
  lemma PosixOfRooted(s: string)
    requires PlainPath(s)
    ensures Posix("/" + s) == "/" + s && Posix("//" + s) == "//" + s && Posix("///" + s) == "/" + s
  {
    RootedParts("", s);
    RootedParts("/", s);
    RootedParts("//", s);
    LeadOfRooted(s);
    assert "" + ['/'] == "/" && "/" + ['/'] == "//" && "//" + ['/'] == "///";
  }

  lemma RootedParts(slashes: string, s: string)
    requires PlainPath(s) && (slashes == "" || slashes == "/" || slashes == "//")
    ensures Posix(slashes + ['/'] + s) == Lead(slashes + ['/'] + s) + s
  {
    PartsJoined(slashes, s);
    NothingCounts(slashes);
    assert [] + PathParts(s) == PathParts(s);
    PlainKeepsParts(s);
    PosixOfParts(slashes + ['/'] + s, s);
  }

  lemma {:induction false} SplitWhole(s: string)
    requires '/' !in s
    ensures Split(s, '/') == [s]
  {
    if s != [] {
      assert forall c :: c in s[1..] ==> c in s;
      SplitWhole(s[1..]);
      assert s == [s[0]] + s[1..];
    }
  }

  lemma LeadOfSlashes()
    ensures Lead("") == "" && Lead(".") == "" && Lead("/") == "/" && Lead("//") == "//"
  {
  }

  lemma PosixWithoutParts(path: string)
    requires PathParts(path) == []
    ensures Posix(path) == if Lead(path) != "" then Lead(path) else "."
  {
  }

  /** A path in which everything vanishes is its slashes, or ".". */
  lemma PosixOfNothing(path: string)
    requires path == "" || path == "." || path == "/" || path == "//"
    ensures Posix(path) == if path == "" then "." else path
  {
    NothingCounts(path);
    PosixWithoutParts(path);
    LeadOfSlashes();
  }

  // ----- the fixed names, written out

  /** What verification demands: the patch and the four evidence files by name, and four prefixes. */
  lemma DemandedMeans()
    ensures Demanded().patch == "STAGE13.patch" && |Demanded().prefixes| == 4
    ensures Demanded().required == {"STAGE13.patch", "IMPLEMENTATION_RESULT.md", "KNOWN_LIMITATIONS.md",
                                    "TEST_RESULTS.md", "VALIDATION_STATUS.md"}
    ensures Demanded().prefixes[0] == "repository/" + "src/dmf_pulse/prices/"
    ensures Demanded().prefixes[1] == "repository/" + "tests/unit/prices/"
    ensures Demanded().prefixes[2] == "repository/" + "fixtures/prices/"
    ensures Demanded().prefixes[3] == "repository/" + "evidence/tickets/PRC-013/"
  {
  }

  /** The generated texts, the evidence files and the authority files by name. */
  lemma FixedNames()
    ensures Texts() == ["REPO.txt", "BASE_BRANCH.txt", "BASE_SHA.txt", "STAGE13_BRANCH.txt", "WORKTREE_HEAD.txt",
                        "REMOTE_HEAD.txt", "PATCH_STATS.txt", "CHANGED_FILES.txt", "SOL_REVIEW_INSTRUCTIONS.md"]
    ensures EVIDENCE == ["IMPLEMENTATION_RESULT.md", "KNOWN_LIMITATIONS.md", "TEST_RESULTS.md", "VALIDATION_STATUS.md"]
    ensures EVIDENCE_ROOT == "evidence/tickets/PRC-013/" && AUTHORITY_ROOT == "authority/" && |AUTHORITY| == 4
  {
  }

  // ----- an archive that is written and does not verify

  /** A directory as the prefixes name it, and a file directly under it. */
  predicate Directory(d: string) {
    && Piece(d) && d[0] != '/' && d[|d| - 1] == '/'
    && forall i :: 0 <= i < |d| - 1 && d[i] == '/' ==> d[i + 1] != '/' && d[i + 1] != '.'
  }

  predicate FileName(name: string) {
    Piece(name) && '/' !in name
  }

  lemma UnderDirectory(d: string, name: string)
    requires Directory(d) && FileName(name)
    ensures PlainPath(d + name) && Piece(d + name)
  {
    PieceJoined(d, name);
    assert forall i :: 0 <= i < |name| ==> name[i] in name;
  }

  lemma ProductionDirectory()
    ensures Directory(PRODUCTION) && PRODUCTION[0] == 's'
  {
  }

  lemma UnitTestDirectory()
    ensures Directory(UNIT_TESTS) && UNIT_TESTS[0] == 't'
  {
  }

  lemma FixtureDirectory()
    ensures Directory(FIXTURES) && FIXTURES[0] == 'f'
  {
  }

  lemma EvidenceDirectory()
    ensures EVIDENCE_ROOT != "" && EVIDENCE_ROOT[0] == 'e'
  {
  }

  function StageFiles(name: string): seq<string> {
    [PRODUCTION + name, UNIT_TESTS + name, FIXTURES + name]
  }

  /** A complete repository in which production, test and fixture changed, each in a file of this
      name, and the evidence is that of an earlier commit. */
  function WithoutEvidence(name: string): Worktree {
    var lines := StageFiles(name);
    var paths := lines + AUTHORITY + Map(n => EVIDENCE_ROOT + n, EVIDENCE);
    Worktree([0], lines[0] + "\n" + (lines[1] + "\n" + (lines[2] + "\n" + [])), n => [], map p | p in paths :: [])
  }

  /** What holds of each of the three changed files. */
  predicate StageLine(line: string) {
    Piece(line) && PlainPath(line) && (line[0] == 's' || line[0] == 't' || line[0] == 'f')
  }

  lemma StageLines(name: string)
    requires FileName(name)
    ensures forall line :: line in StageFiles(name) ==> StageLine(line)
  {
    ProductionDirectory();
    UnitTestDirectory();
    FixtureDirectory();
    UnderDirectory(PRODUCTION, name);
    UnderDirectory(UNIT_TESTS, name);
    UnderDirectory(FIXTURES, name);
  }

  lemma ThreeLines(a: string, b: string, c: string)
    requires OneLine(a) && OneLine(b) && OneLine(c) && a != "" && b != "" && c != ""
    ensures Filter((line: string) => line != "", SplitLines(a + "\n" + (b + "\n" + (c + "\n" + [])))) == [a, b, c]
  {
    FirstLine(a, b + "\n" + (c + "\n" + []));
    FirstLine(b, c + "\n" + []);
    FirstLine(c, []);
    assert [a] + ([b] + ([c] + [])) == [a, b, c];
    FilterAll((line: string) => line != "", [a, b, c]);
  }

  lemma StageChanged(name: string)
    requires FileName(name)
    ensures ChangedLines(WithoutEvidence(name)) == StageFiles(name)
  {
    var lines := StageFiles(name);
    StageLines(name);
    assert lines[0] in lines && lines[1] in lines && lines[2] in lines;
    PieceIsOneLine(lines[0]);
    PieceIsOneLine(lines[1]);
    PieceIsOneLine(lines[2]);
    ThreeLines(lines[0], lines[1], lines[2]);
  }

  lemma StageCollectable(name: string)
    requires FileName(name)
    ensures Collectable(WithoutEvidence(name))
    ensures forall line :: Included(WithoutEvidence(name), line) <==> line in StageFiles(name)
  {
    StageChanged(name);
    var t := WithoutEvidence(name);
    forall n | n in EVIDENCE ensures EVIDENCE_ROOT + n in t.files {
      var i :| 0 <= i < |EVIDENCE| && EVIDENCE[i] == n;
      assert Map(n => EVIDENCE_ROOT + n, EVIDENCE)[i] == EVIDENCE_ROOT + n;
    }
  }

  lemma RootIsPiece()
    ensures Piece(REPOSITORY_ROOT) && REPOSITORY_ROOT[0] == 'r'
  {
  }

  lemma StageLineName(line: string)
    requires StageLine(line)
    ensures RepositoryName(line) == REPOSITORY_ROOT + line && SafeMember(RepositoryName(line))
  {
    PosixOfPlain(line);
    RootIsPiece();
    PieceJoined(REPOSITORY_ROOT, line);
    PieceIsSafe(REPOSITORY_ROOT + line);
  }

  lemma StageWritten(k: Codec, name: string)
    requires FileName(name)
    ensures Collectable(WithoutEvidence(name))
    ensures AllSafe(SortedMembers(Complete(k, Collected(WithoutEvidence(name))).Keys))
  {
    StageCollectable(name);
    WrittenExactly(k, WithoutEvidence(name));
    StageLines(name);
    forall line | Included(WithoutEvidence(name), line) ensures SafeMember(RepositoryName(line)) {
      StageLineName(line);
    }
  }

  lemma PrefixApart(root: string, a: string, b: string)
    requires a != [] && b != [] && a[0] != b[0]
    ensures !(root + a <= root + b)
  {
    assert (root + a)[|root|] == a[0] && (root + b)[|root|] == b[0];
  }

  lemma PrefixUnder(root: string, d: string, name: string)
    ensures root + d <= root + (d + name)
  {
  }

  lemma StageCovers(name: string, d: string)
    requires FileName(name) && d + name in StageFiles(name)
    ensures Covers(WithoutEvidence(name), REPOSITORY_ROOT + d)
  {
    StageCollectable(name);
    StageLines(name);
    StageLineName(d + name);
    PrefixUnder(REPOSITORY_ROOT, d, name);
    assert Included(WithoutEvidence(name), d + name);
  }

  lemma EvidenceUncovered(name: string)
    requires FileName(name)
    ensures !Covers(WithoutEvidence(name), REPOSITORY_ROOT + EVIDENCE_ROOT)
  {
    StageCollectable(name);
    StageLines(name);
    EvidenceDirectory();
    forall line | Included(WithoutEvidence(name), line)
      ensures !(REPOSITORY_ROOT + EVIDENCE_ROOT <= RepositoryName(line))
    {
      StageLineName(line);
      PrefixApart(REPOSITORY_ROOT, EVIDENCE_ROOT, line);
    }
  }

  /** A change of production, tests and fixtures that leaves the evidence as it was gives an archive
      that is written and fails its verification. */
  lemma UncoveredPrefixFails(k: Codec, name: string)
    requires CodecLaws(k) && FileName(name)
    ensures var t := WithoutEvidence(name);
      && Collectable(t)
      && AllSafe(SortedMembers(Complete(k, Collected(t)).Keys))
      && Covers(t, PREFIXES[0]) && Covers(t, PREFIXES[1]) && Covers(t, PREFIXES[2]) && !Covers(t, PREFIXES[3])
      && var entries := Entries(Complete(k, Collected(t)), SortedMembers(Complete(k, Collected(t)).Keys));
      !ArchiveVerified(k, Demanded(), entries, DigestText(k, entries))
  {
    StageWritten(k, name);
    StageCovers(name, PRODUCTION);
    StageCovers(name, UNIT_TESTS);
    StageCovers(name, FIXTURES);
    EvidenceUncovered(name);
    CollectedArchiveVerifies(k, WithoutEvidence(name));
    assert PREFIXES[3] in PREFIXES;
  }
}
