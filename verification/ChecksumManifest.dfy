/**
 The checksum manifest inside a review archive: one line of digest and name per member,
 written with the archive and parsed back when it is verified. Digests, text encoding and
 the ZIP container's bytes are uninterpreted.
 */
module ChecksumManifest {
  import opened Sorting
  import opened NodeIds

  type Bytes = seq<bv8>

  /** SHA-256 of bytes, UTF-8, and the digest of a whole archive file. */
  datatype Codec = Codec(
    sha256: Bytes -> string, encode: string -> Bytes, decode: Bytes -> Option<string>,
    zipDigest: seq<(string, Bytes)> -> string)

  const PACK_FILE := "PACK_FILE_SHA256.txt"
  const ZIP_NAME := "DMF_PULSE_STAGE13_SOL_REVIEW.zip"

  /** What the round trip assumes: digests have no blanks or line boundaries, UTF-8 decodes. */
  ghost predicate CodecLaws(k: Codec) {
    && (forall b :: PlainDigest((k.sha256)(b)))
    && (forall e :: PlainDigest((k.zipDigest)(e)) && (k.zipDigest)(e) != "")
    && (forall s :: (k.decode)((k.encode)(s)) == Some(s))
  }

  predicate PlainDigest(s: string) {
    forall c :: c in s ==> '0' <= c <= '9' || 'a' <= c <= 'f'
  }

  predicate SafeMember(name: string) {
    name != [] && name[0] != '/' && '\\' !in name && ".." !in Split(name, '/')
  }

  // ----- lines, as Python's splitlines sees them

  predicate IsBoundary(c: char) {
    || c == '\n' || c == '\r' || c == '\U{0B}' || c == '\U{0C}' || c == '\U{1C}' || c == '\U{1D}'
    || c == '\U{1E}' || c == '\U{85}' || c == '\U{2028}' || c == '\U{2029}'
  }

  predicate OneLine(s: string) {
    forall c :: c in s ==> !IsBoundary(c)
  }

  /** The end of the first line: the first boundary, or the end of the text. */
  function LineEnd(s: string): (k: nat)
    ensures k <= |s|
    ensures k < |s| ==> IsBoundary(s[k])
    ensures forall i :: 0 <= i < k ==> !IsBoundary(s[i])
  {
    if s == [] || IsBoundary(s[0]) then 0 else 1 + LineEnd(s[1..])
  }

  function SplitLines(s: string): seq<string>
    decreases |s|
  {
    if s == [] then []
    else
      var k := LineEnd(s);
      if k == |s| then [s]
      else if s[k] == '\r' && k + 1 < |s| && s[k + 1] == '\n' then [s[..k]] + SplitLines(s[k + 2..])
      else [s[..k]] + SplitLines(s[k + 1..])
  }

  lemma {:induction false} LinesHaveNoBoundary(s: string)
    ensures forall i :: 0 <= i < |SplitLines(s)| ==> OneLine(SplitLines(s)[i])
    decreases |s|
  {
    if s != [] {
      var k := LineEnd(s);
      if k < |s| {
        LinesHaveNoBoundary(s[k + 1..]);
        if k + 1 < |s| {
          LinesHaveNoBoundary(s[k + 2..]);
        }
      }
    }
  }

  lemma FirstLine(line: string, rest: string)
    requires OneLine(line)
    ensures SplitLines(line + "\n" + rest) == [line] + SplitLines(rest)
  {
    var s := line + "\n" + rest;
    assert s[|line|] == '\n';
    forall i | 0 <= i < |line| ensures !IsBoundary(s[i]) {
      assert s[i] in line;
    }
    assert LineEnd(s) == |line|;
    assert s[..|line|] == line && s[|line| + 1..] == rest;
  }

  // ----- words, as Python's split without arguments sees them

  predicate IsBlank(c: char) {
    || c == ' ' || c == '\t' || IsBoundary(c) || c == '\U{1F}' || c == '\U{A0}' || c == '\U{1680}'
    || '\U{2000}' <= c <= '\U{200A}' || c == '\U{202F}' || c == '\U{205F}' || c == '\U{3000}'
  }

  function WordEnd(s: string): (k: nat)
    ensures k <= |s|
  {
    if s == [] || IsBlank(s[0]) then 0 else 1 + WordEnd(s[1..])
  }

  /** The first word, or None in a blank text. */
  function FirstWord(s: string): Option<string> {
    if s == [] then None
    else if IsBlank(s[0]) then FirstWord(s[1..])
    else Some(s[..WordEnd(s)])
  }

  lemma {:induction false} WordEndAt(word: string, rest: string)
    requires forall c :: c in word ==> !IsBlank(c)
    requires rest != [] && IsBlank(rest[0])
    ensures WordEnd(word + rest) == |word|
  {
    if word == [] {
      assert word + rest == rest;
    } else {
      assert (word + rest)[1..] == word[1..] + rest;
      assert (word + rest)[0] == word[0] && word[0] in word;
      WordEndAt(word[1..], rest);
    }
  }

  lemma FirstWordIs(digest: string, name: string)
    requires PlainDigest(digest) && digest != ""
    ensures FirstWord(Line(digest, name) + "\n") == Some(digest)
  {
    var rest := "  " + name + "\n";
    assert Line(digest, name) + "\n" == digest + rest;
    assert digest[0] in digest;
    WordEndAt(digest, rest);
  }

  // ----- one line of the manifest

  function Line(digest: string, name: string): string {
    digest + "  " + name
  }

  /** The position of the first two blanks in a row, or the length when there are none. */
  function BlanksAt(s: string): (k: nat)
    ensures k <= |s|
    ensures k < |s| ==> k + 2 <= |s|
  {
    if |s| < 2 then |s|
    else if s[0] == ' ' && s[1] == ' ' then 0
    else 1 + BlanksAt(s[1..])
  }

  /** A line split at its first two blanks into digest and name. */
  function ParseLine(line: string): Option<(string, string)> {
    var k := BlanksAt(line);
    if k == |line| then None else Some((line[..k], line[k + 2..]))
  }

  lemma {:induction false} BlanksAfter(digest: string, name: string)
    requires ' ' !in digest
    ensures BlanksAt(Line(digest, name)) == |digest|
  {
    var s := Line(digest, name);
    if digest == [] {
      assert s == "  " + name;
    } else {
      assert s[1..] == Line(digest[1..], name);
      assert s[0] == digest[0] && s[0] in digest;
      BlanksAfter(digest[1..], name);
    }
  }

  lemma ParseWrittenLine(digest: string, name: string)
    requires PlainDigest(digest)
    ensures ParseLine(Line(digest, name)) == Some((digest, name))
  {
    BlanksAfter(digest, name);
    var s := Line(digest, name);
    assert s[..|digest|] == digest && s[|digest| + 2..] == name;
  }

  // ----- the manifest

  function ManifestText(k: Codec, members: map<string, Bytes>, names: seq<string>): string
    requires forall n :: n in names ==> n in members
  {
    if names == [] then []
    else Line((k.sha256)(members[names[0]]), names[0]) + "\n" + ManifestText(k, members, names[1..])
  }

  function Manifest(k: Codec, members: map<string, Bytes>): string {
    ManifestText(k, members, SortedMembers(members.Keys))
  }

  /** The dictionary read from the lines, last line first in effect; None when one does not split. */
  function ParseLines(lines: seq<string>): Option<map<string, string>> {
    if lines == [] then Some(map[])
    else
      var n := |lines| - 1;
      match (ParseLines(lines[..n]), ParseLine(lines[n]))
      case (Some(front), Some((digest, name))) => Some(front[name := digest])
      case (_, _) => None
  }

  /** The same dictionary with the lines taken from the front; earlier ones do not override. */
  lemma {:induction false} ParseFirst(line: string, lines: seq<string>)
    ensures ParseLine(line).Some? && ParseLines(lines).Some? && ParseLine(line).value.1 !in ParseLines(lines).value ==>
      ParseLines([line] + lines) == Some(ParseLines(lines).value[ParseLine(line).value.1 := ParseLine(line).value.0])
    ensures ParseLine(line).None? || ParseLines(lines).None? ==> ParseLines([line] + lines).None?
  {
    if lines == [] {
      assert ([line] + lines)[..0] == [];
    } else {
      var n := |lines| - 1;
      ParseFirst(line, lines[..n]);
      assert ([line] + lines)[..n + 1] == [line] + lines[..n];
      if ParseLine(line).Some? && ParseLines(lines).Some? && ParseLine(line).value.1 !in ParseLines(lines).value {
        UpdatesCommute(ParseLines(lines[..n]).value, ParseLine(line).value, ParseLine(lines[n]).value);
      }
    }
  }

  lemma UpdatesCommute(m: map<string, string>, a: (string, string), b: (string, string))
    requires a.1 != b.1
    ensures m[a.1 := a.0][b.1 := b.0] == m[b.1 := b.0][a.1 := a.0]
  {
  }

  lemma {:induction false} ParsedNamesAreLines(lines: seq<string>, name: string)
    requires ParseLines(lines).Some? && name in ParseLines(lines).value
    requires forall i :: 0 <= i < |lines| ==> OneLine(lines[i])
    ensures OneLine(name)
  {
    var n := |lines| - 1;
    var parsed := ParseLine(lines[n]).value;
    if name == parsed.1 {
      var k := BlanksAt(lines[n]);
      forall c | c in name ensures !IsBoundary(c) {
        var i :| 0 <= i < |name| && name[i] == c;
        assert lines[n][k + 2 + i] == c;
      }
    } else {
      ParsedNamesAreLines(lines[..n], name);
    }
  }

  lemma {:induction false} ParseManifestText(k: Codec, members: map<string, Bytes>, names: seq<string>)
    requires CodecLaws(k) && Distinct(names)
    requires forall n :: n in names ==> n in members && OneLine(n)
    ensures ParseLines(SplitLines(ManifestText(k, members, names)))
         == Some(Digests(k, members, names))
  {
    if names != [] {
      var digest, rest := (k.sha256)(members[names[0]]), names[1..];
      ParseManifestText(k, members, rest);
      ManifestFirstLine(k, members, names);
      ParseWrittenLine(digest, names[0]);
      ParseFirst(Line(digest, names[0]), SplitLines(ManifestText(k, members, rest)));
      DigestsStep(k, members, names);
    }
  }

  lemma ManifestFirstLine(k: Codec, members: map<string, Bytes>, names: seq<string>)
    requires CodecLaws(k) && names != []
    requires forall n :: n in names ==> n in members && OneLine(n)
    ensures SplitLines(ManifestText(k, members, names))
         == [Line((k.sha256)(members[names[0]]), names[0])] + SplitLines(ManifestText(k, members, names[1..]))
  {
    var digest := (k.sha256)(members[names[0]]);
    DigestLineIsOneLine(digest, names[0]);
    FirstLine(Line(digest, names[0]), ManifestText(k, members, names[1..]));
  }

  function Digests(k: Codec, members: map<string, Bytes>, names: seq<string>): map<string, string>
    requires forall n :: n in names ==> n in members
  {
    map n | n in names :: (k.sha256)(members[n])
  }

  lemma DigestsStep(k: Codec, members: map<string, Bytes>, names: seq<string>)
    requires names != [] && Distinct(names)
    requires forall n :: n in names ==> n in members
    ensures names[0] !in Digests(k, members, names[1..])
    ensures Digests(k, members, names) == Digests(k, members, names[1..])[names[0] := (k.sha256)(members[names[0]])]
  {
    assert forall n :: n in names <==> n == names[0] || n in names[1..];
  }

  lemma DigestLineIsOneLine(digest: string, name: string)
    requires PlainDigest(digest) && OneLine(name)
    ensures OneLine(Line(digest, name))
  {
    forall c | c in Line(digest, name) ensures !IsBoundary(c) {
      assert c in digest || c == ' ' || c in name;
    }
  }

  /**
   The round trip. Parsing the manifest gives back exactly the map from member to digest
   when, and only when, no member name holds a line boundary.
   */
  lemma ManifestRoundTrip(k: Codec, members: map<string, Bytes>)
    requires CodecLaws(k)
    ensures ParseLines(SplitLines(Manifest(k, members))) == Some(map n | n in members :: (k.sha256)(members[n]))
      <==> forall n :: n in members ==> OneLine(n)
  {
    var names := SortedMembers(members.Keys);
    var parsed := ParseLines(SplitLines(Manifest(k, members)));
    if forall n :: n in members ==> OneLine(n) {
      SortedMembersSorted(members.Keys);
      ParseManifestText(k, members, names);
      assert Digests(k, members, names) == (map n | n in members :: (k.sha256)(members[n]));
    } else if parsed.Some? {
      var n :| n in members && !OneLine(n);
      BoundaryNameIsLost(k, members, n);
    }
  }

  /** A name with a line boundary never comes back from the manifest. */
  lemma BoundaryNameIsLost(k: Codec, members: map<string, Bytes>, n: string)
    requires !OneLine(n)
    ensures var parsed := ParseLines(SplitLines(Manifest(k, members))); parsed.Some? ==> n !in parsed.value
  {
    var lines := SplitLines(Manifest(k, members));
    LinesHaveNoBoundary(Manifest(k, members));
    if ParseLines(lines).Some? && n in ParseLines(lines).value {
      ParsedNamesAreLines(lines, n);
    }
  }

  // ----- the archive

  function Complete(k: Codec, members: map<string, Bytes>): map<string, Bytes> {
    members[PACK_FILE := (k.encode)(Manifest(k, members))]
  }

  function Entries(files: map<string, Bytes>, names: seq<string>): (r: seq<(string, Bytes)>)
    requires forall n :: n in names ==> n in files
    ensures |r| == |names| && forall i :: 0 <= i < |names| ==> r[i] == (names[i], files[names[i]])
  {
    seq(|names|, i requires 0 <= i < |names| => (names[i], files[names[i]]))
  }

  predicate AllSafe(names: seq<string>) {
    forall i :: 0 <= i < |names| ==> SafeMember(names[i])
  }

  lemma SafeOneMore(names: seq<string>, i: nat)
    requires i < |names| && AllSafe(names[..i]) && SafeMember(names[i])
    ensures AllSafe(names[..i + 1])
  {
    PrefixStep(names, i);
  }

  lemma EntriesOneMore(files: map<string, Bytes>, names: seq<string>, i: nat)
    requires i < |names| && forall n :: n in names ==> n in files
    ensures Entries(files, names[..i + 1]) == Entries(files, names[..i]) + [(names[i], files[names[i]])]
  {
  }

  function NamesOf(entries: seq<(string, Bytes)>): (r: seq<string>)
    ensures |r| == |entries| && forall i :: 0 <= i < |entries| ==> r[i] == entries[i].0
  {
    seq(|entries|, i requires 0 <= i < |entries| => entries[i].0)
  }

  /** The content of the last entry of this name. */
  function Content(entries: seq<(string, Bytes)>, name: string): Option<Bytes> {
    if entries == [] then None
    else if entries[|entries| - 1].0 == name then Some(entries[|entries| - 1].1)
    else Content(entries[..|entries| - 1], name)
  }

  lemma {:induction false} ContentOfEntries(files: map<string, Bytes>, names: seq<string>, name: string)
    requires Distinct(names) && forall n :: n in names ==> n in files
    ensures Content(Entries(files, names), name) == if name in names then Some(files[name]) else None
  {
    if names != [] {
      var n := |names| - 1;
      ContentOfEntries(files, names[..n], name);
      assert Entries(files, names)[..n] == Entries(files, names[..n]);
      SplitLast(names);
    }
  }

  /** The inventory and every hash agree with the manifest inside the archive. */
  ghost predicate InventoryAgrees(k: Codec, entries: seq<(string, Bytes)>) {
    var manifest := Content(entries, PACK_FILE);
    && manifest.Some? && (k.decode)(manifest.value).Some?
    && var expected := ParseLines(SplitLines((k.decode)(manifest.value).value));
    && expected.Some?
    && expected.value.Keys == MemberSet(NamesOf(entries)) - {PACK_FILE}
    && forall n :: n in expected.value ==>
      Content(entries, n).Some? && (k.sha256)(Content(entries, n).value) == expected.value[n]
  }

  /** The members a review cannot do without, the patch that must not be empty, and the
      prefixes under each of which something must be included. */
  datatype Material = Material(required: set<string>, patch: string, prefixes: seq<string>)

  predicate MaterialPresent(material: Material, entries: seq<(string, Bytes)>) {
    var names, patch := NamesOf(entries), Content(entries, material.patch);
    && material.required <= MemberSet(names)
    && patch.Some? && patch.value != []
    && forall p :: p in material.prefixes ==> exists n :: n in names && p <= n
  }

  /** The text of the detached digest file. */
  function DigestText(k: Codec, entries: seq<(string, Bytes)>): string {
    Line((k.zipDigest)(entries), ZIP_NAME) + "\n"
  }

  ghost predicate ArchiveVerified(k: Codec, material: Material, entries: seq<(string, Bytes)>, declared: string) {
    && Distinct(NamesOf(entries)) && AllSafe(NamesOf(entries))
    && InventoryAgrees(k, entries)
    && MaterialPresent(material, entries)
    && FirstWord(declared) == Some((k.zipDigest)(entries))
  }

  /** The entries are those before the first unsafe name. */
  ghost predicate StoppedAtUnsafe(files: map<string, Bytes>, names: seq<string>, entries: seq<(string, Bytes)>)
    requires forall n :: n in names ==> n in files
  {
    exists j: nat :: StoppedAt(files, names, entries, j)
  }

  ghost predicate StoppedAt(files: map<string, Bytes>, names: seq<string>, entries: seq<(string, Bytes)>, j: nat)
    requires forall n :: n in names ==> n in files
  {
    && j < |names| && AllSafe(names[..j]) && !SafeMember(names[j])
    && entries == Entries(files, names[..j])
  }

  class ReviewPack {
    var zip: Option<seq<(string, Bytes)>>
    var sha: Option<string>

    /** The member loop: it stops at the first unsafe name, leaving what was written. */
    method WriteMembers(files: map<string, Bytes>, names: seq<string>) returns (ok: bool)
      requires forall n :: n in names ==> n in files
      modifies this`zip
      ensures ok <==> AllSafe(names)
      ensures ok ==> zip == Some(Entries(files, names))
      ensures !ok ==> zip.Some? && StoppedAtUnsafe(files, names, zip.value)
    {
      var written: seq<(string, Bytes)> := [];
      zip := Some(written);
      for i := 0 to |names|
        invariant written == Entries(files, names[..i]) && zip == Some(written)
        invariant AllSafe(names[..i])
      {
        if !SafeMember(names[i]) {
          assert StoppedAt(files, names, written, i);
          return false;
        }
        EntriesOneMore(files, names, i);
        SafeOneMore(names, i);
        written := written + [(names[i], files[names[i]])];
        zip := Some(written);
      }
      WholePrefix(names);
      ok := true;
    }

    /** Write the archive and its detached digest, refusing to overwrite either. An unsafe
        name stops the writing in the middle and leaves the archive without its digest. */
    method WriteArchive(k: Codec, members: map<string, Bytes>) returns (ok: bool)
      modifies this
      ensures ok <==> old(zip).None? && old(sha).None? && AllSafe(SortedMembers(Complete(k, members).Keys))
      ensures ok ==>
        && zip == Some(Entries(Complete(k, members), SortedMembers(Complete(k, members).Keys)))
        && sha == Some(DigestText(k, zip.value))
      ensures !ok ==> sha == old(sha)
      ensures !ok && (old(zip).Some? || old(sha).Some?) ==> zip == old(zip)
      ensures !ok && old(zip).None? && old(sha).None? ==>
        zip.Some? && StoppedAtUnsafe(Complete(k, members), SortedMembers(Complete(k, members).Keys), zip.value)
    {
      if zip.Some? || sha.Some? {
        return false;
      }
      var complete := Complete(k, members);
      ok := WriteMembers(complete, SortedMembers(complete.Keys));
      if ok {
        sha := Some(DigestText(k, zip.value));
      }
    }

    /** Verify the archive, if its container is intact, against its own manifest and its
        detached digest. */
    method VerifyArchive(k: Codec, material: Material, intact: bool) returns (ok: bool)
      ensures ok <==> zip.Some? && intact && sha.Some? && ArchiveVerified(k, material, zip.value, sha.value)
    {
      if zip.None? || !intact {
        return false;
      }
      var entries := zip.value;
      var names := NamesOf(entries);
      if |names| != |MemberSet(names)| || exists i :: 0 <= i < |names| && !SafeMember(names[i]) {
        SetSizeMeansDistinct(names);
        return false;
      }
      SetSizeMeansDistinct(names);
      var inventory := VerifyInventory(k, entries);
      if !inventory || !MaterialPresent(material, entries) {
        return false;
      }
      return sha.Some? && FirstWord(sha.value) == Some((k.zipDigest)(entries));
    }

    method VerifyInventory(k: Codec, entries: seq<(string, Bytes)>) returns (ok: bool)
      ensures ok <==> InventoryAgrees(k, entries)
    {
      var manifest := Content(entries, PACK_FILE);
      if manifest.None? {
        return false;
      }
      var text := (k.decode)(manifest.value);
      if text.None? {
        return false;
      }
      var expected := ReadManifest(SplitLines(text.value));
      if expected.None? || expected.value.Keys != MemberSet(NamesOf(entries)) - {PACK_FILE} {
        return false;
      }
      return forall n | n in expected.value ::
        Content(entries, n).Some? && (k.sha256)(Content(entries, n).value) == expected.value[n];
    }

    /** The loop over the manifest lines. */
    method ReadManifest(lines: seq<string>) returns (r: Option<map<string, string>>)
      ensures r == ParseLines(lines)
    {
      var expected: map<string, string> := map[];
      for i := 0 to |lines|
        invariant ParseLines(lines[..i]) == Some(expected)
      {
        assert lines[..i + 1][..i] == lines[..i];
        var parsed := ParseLine(lines[i]);
        if parsed.None? {
          BadLine(lines, i);
          return None;
        }
        expected := expected[parsed.value.1 := parsed.value.0];
      }
      WholePrefix(lines);
      return Some(expected);
    }
  }

  lemma {:induction false} BadLine(lines: seq<string>, i: nat)
    requires i < |lines| && ParseLine(lines[i]).None?
    ensures ParseLines(lines).None?
  {
    var n := |lines| - 1;
    if i < n {
      BadLine(lines[..n], i);
    }
  }

  /** The archive holds exactly these files under their names. */
  ghost predicate Holds(entries: seq<(string, Bytes)>, files: map<string, Bytes>) {
    && MemberSet(NamesOf(entries)) == files.Keys
    && forall n :: Content(entries, n) == if n in files then Some(files[n]) else None
  }

  lemma EntriesHold(files: map<string, Bytes>)
    ensures var entries := Entries(files, SortedMembers(files.Keys));
      NamesOf(entries) == SortedMembers(files.Keys) && Distinct(NamesOf(entries)) && Holds(entries, files)
  {
    var names := SortedMembers(files.Keys);
    SortedMembersSorted(files.Keys);
    assert NamesOf(Entries(files, names)) == names;
    forall n ensures Content(Entries(files, names), n) == if n in files then Some(files[n]) else None {
      ContentOfEntries(files, names, n);
    }
  }

  /** The files of a pack include the material. */
  ghost predicate Supplies(files: map<string, Bytes>, material: Material) {
    && material.required <= files.Keys
    && material.patch in files && files[material.patch] != []
    && forall p :: p in material.prefixes ==> HasUnder(files, p)
  }

  ghost predicate HasUnder(files: map<string, Bytes>, prefix: string) {
    exists n :: n in files && prefix <= n
  }

  lemma SuppliedIsPresent(files: map<string, Bytes>, material: Material, entries: seq<(string, Bytes)>)
    requires Holds(entries, files)
    ensures MaterialPresent(material, entries) <==> Supplies(files, material)
  {
    assert forall n :: n in NamesOf(entries) <==> n in MemberSet(NamesOf(entries));
  }

  /**
   A freshly written archive verifies exactly when the material is there, no member name
   holds a line boundary and none takes the manifest's own name.
   */
  lemma WrittenArchiveVerifies(k: Codec, material: Material, members: map<string, Bytes>)
    requires CodecLaws(k)
    requires AllSafe(SortedMembers(Complete(k, members).Keys))
    ensures var entries := Entries(Complete(k, members), SortedMembers(Complete(k, members).Keys));
      ArchiveVerified(k, material, entries, DigestText(k, entries))
      <==> Recoverable(members) && Supplies(Complete(k, members), material)
  {
    var entries := Entries(Complete(k, members), SortedMembers(Complete(k, members).Keys));
    EntriesHold(Complete(k, members));
    InventoryOfWritten(k, members, entries);
    SuppliedIsPresent(Complete(k, members), material, entries);
    FirstWordIs((k.zipDigest)(entries), ZIP_NAME);
  }

  predicate Recoverable(members: map<string, Bytes>) {
    PACK_FILE !in members && forall n :: n in members ==> OneLine(n)
  }

  lemma InventoryOfWritten(k: Codec, members: map<string, Bytes>, entries: seq<(string, Bytes)>)
    requires CodecLaws(k) && Holds(entries, Complete(k, members))
    ensures InventoryAgrees(k, entries) <==> Recoverable(members)
  {
    assert Content(entries, PACK_FILE) == Some((k.encode)(Manifest(k, members)));
    var expected := ParseLines(SplitLines(Manifest(k, members)));
    ManifestRoundTrip(k, members);
    if forall n :: n in members ==> OneLine(n) {
      if PACK_FILE in members {
        assert PACK_FILE in expected.value;
      } else {
        RecoveredAgrees(k, members, entries, expected.value);
      }
    } else {
      var n :| n in members && !OneLine(n);
      BoundaryNameIsLost(k, members, n);
      PackFileIsOneLine();
      assert n in MemberSet(NamesOf(entries)) - {PACK_FILE};
    }
  }

  lemma RecoveredAgrees(k: Codec, members: map<string, Bytes>, entries: seq<(string, Bytes)>,
                        expected: map<string, string>)
    requires Holds(entries, Complete(k, members)) && PACK_FILE !in members
    requires expected == map n | n in members :: (k.sha256)(members[n])
    ensures expected.Keys == MemberSet(NamesOf(entries)) - {PACK_FILE}
    ensures forall n :: n in expected ==>
      Content(entries, n).Some? && (k.sha256)(Content(entries, n).value) == expected[n]
  {
    assert Complete(k, members).Keys == members.Keys + {PACK_FILE};
  }

  lemma PackFileIsOneLine()
    ensures OneLine(PACK_FILE)
  {
  }

  // ----- lines, words and names, character by character

  const LINE_BREAKS := "\n\r\U{B}\U{C}\U{1C}\U{1D}\U{1E}\U{85}\U{2028}\U{2029}"

  lemma BoundaryMeans(c: char)
    ensures IsBoundary(c) <==> c in LINE_BREAKS
  {
  }

  /** A text splits at each line break; a carriage return and a line feed in a row are one. */
  lemma SplitLinesMeans(line: string, c: char, rest: string)
    requires forall d :: d in line ==> d !in LINE_BREAKS
    ensures SplitLines([]) == [] && (line != [] ==> SplitLines(line) == [line])
    ensures c in LINE_BREAKS && !(c == '\r' && rest != [] && rest[0] == '\n') ==>
      SplitLines(line + [c] + rest) == [line] + SplitLines(rest)
    ensures SplitLines(line + "\r\n" + rest) == [line] + SplitLines(rest)
  {
    forall i | 0 <= i < |line| ensures !IsBoundary(line[i]) {
      assert line[i] in line;
      BoundaryMeans(line[i]);
    }
    assert LineEnd(line) == |line|;
    BoundaryMeans(c);
    if c in LINE_BREAKS {
      LineEndsAt(line, c, rest);
    }
    LineEndsAt(line, '\r', "\n" + rest);
    assert line + ['\r'] + ("\n" + rest) == line + "\r\n" + rest;
    assert (line + "\r\n" + rest)[|line| + 2..] == rest;
  }

  lemma LineEndsAt(line: string, c: char, rest: string)
    requires IsBoundary(c) && forall i :: 0 <= i < |line| ==> !IsBoundary(line[i])
    ensures var s := line + [c] + rest;
      LineEnd(s) == |line| && s[..|line|] == line && s[|line|] == c && s[|line| + 1..] == rest
  {
    var s := line + [c] + rest;
    assert forall i :: 0 <= i < |line| ==> s[i] == line[i];
    assert s[|line|] == c;
  }

  /** A member name is safe when it is not empty, does not start with a slash, holds no backslash, and
      has no component "..". */
  lemma SafeMemberMeans(name: string)
    ensures SafeMember(name) <==>
      name != "" && name[0] != '/' && '\\' !in name && !IsComponent(name, 0, "..")
  {
    PartsAreComponents(name, "..");
  }

  const BLANKS := " \t" + LINE_BREAKS + "\U{1F}\U{A0}\U{1680}" + EN_BLANKS + "\U{202F}\U{205F}\U{3000}"
  const EN_BLANKS :=
    "\U{2000}\U{2001}\U{2002}\U{2003}\U{2004}\U{2005}" + "\U{2006}\U{2007}\U{2008}\U{2009}\U{200A}"

  lemma EnBlanks(c: char)
    ensures '\U{2000}' <= c <= '\U{200A}' <==> c in EN_BLANKS
  {
  }

  lemma BlankMeans(c: char)
    ensures IsBlank(c) <==> c in BLANKS
  {
    EnBlanks(c);
    BoundaryMeans(c);
  }

  /** The first word of a text: what stands behind its leading blanks, up to the next one. */
  lemma {:induction false} FirstWordMeans(blanks: string, word: string, rest: string)
    requires forall c :: c in blanks ==> c in BLANKS
    requires word != "" && (forall c :: c in word ==> c !in BLANKS) && (rest == "" || rest[0] in BLANKS)
    ensures FirstWord(blanks + word + rest) == Some(word)
  {
    if blanks != [] {
      BlankMeans(blanks[0]);
      assert (blanks + word + rest)[1..] == blanks[1..] + word + rest;
      assert blanks[0] in blanks;
      FirstWordMeans(blanks[1..], word, rest);
    } else {
      assert blanks + word + rest == word + rest;
      LeadingWord(word, rest);
    }
  }

  lemma WordEnds(word: string, rest: string)
    requires (forall c :: c in word ==> c !in BLANKS) && (rest == "" || rest[0] in BLANKS)
    ensures (forall c :: c in word ==> !IsBlank(c)) && WordEnd(word + rest) == |word|
  {
    forall c | c in word ensures !IsBlank(c) {
      BlankMeans(c);
    }
    if rest == "" {
      WordIsWhole(word);
      assert word + rest == word;
    } else {
      BlankMeans(rest[0]);
      WordEndAt(word, rest);
    }
  }

  lemma LeadingWord(word: string, rest: string)
    requires word != "" && (forall c :: c in word ==> c !in BLANKS) && (rest == "" || rest[0] in BLANKS)
    ensures FirstWord(word + rest) == Some(word)
  {
    WordEnds(word, rest);
    assert word[0] in word && (word + rest)[0] == word[0];
    assert (word + rest)[..|word|] == word;
  }

  lemma {:induction false} WordIsWhole(word: string)
    requires forall c :: c in word ==> !IsBlank(c)
    ensures WordEnd(word) == |word|
  {
    if word != [] {
      assert word[0] in word;
      WordIsWhole(word[1..]);
    }
  }

  /** A line is split at its first two blanks in a row, and refused without any. */
  lemma {:induction false} BlanksAtMeans(s: string)
    ensures var k := BlanksAt(s);
      && (k < |s| ==> s[k] == ' ' && s[k + 1] == ' ')
      && forall i :: 0 <= i < k && i + 1 < |s| ==> !(s[i] == ' ' && s[i + 1] == ' ')
  {
    if |s| >= 2 && !(s[0] == ' ' && s[1] == ' ') {
      BlanksAtMeans(s[1..]);
    }
  }

  lemma ParseLineMeans(line: string)
    ensures match ParseLine(line)
      case Some((digest, name)) =>
        line == digest + "  " + name && forall i :: 0 <= i < |digest| ==> !(line[i] == ' ' && line[i + 1] == ' ')
      case None => forall i :: 0 <= i < |line| - 1 ==> !(line[i] == ' ' && line[i + 1] == ' ')
  {
    BlanksAtMeans(line);
    var k := BlanksAt(line);
    if k < |line| {
      assert line[k..k + 2] == "  ";
      assert line == line[..k] + line[k..k + 2] + line[k + 2..];
    }
  }

  /** Digests are written in lower-case hexadecimal digits. */
  lemma PlainDigestMeans(s: string)
    ensures PlainDigest(s) <==> forall c :: c in s ==> c in "0123456789abcdef"
  {
  }

  /** The detached file: the digest of the archive, two blanks and the name of the archive. */
  lemma DigestTextMeans(k: Codec, entries: seq<(string, Bytes)>)
    ensures DigestText(k, entries) == (k.zipDigest)(entries) + "  " + "DMF_PULSE_STAGE13_SOL_REVIEW.zip" + "\n"
  {
  }

  // ----- tampering

  lemma {:induction false} ContentElsewhere(entries: seq<(string, Bytes)>, j: nat, b: Bytes, name: string)
    requires j < |entries| && Distinct(NamesOf(entries))
    ensures var changed := entries[j := (entries[j].0, b)];
      Content(changed, name) == if name == entries[j].0 then Some(b) else Content(entries, name)
  {
    var n := |entries| - 1;
    var changed := entries[j := (entries[j].0, b)];
    if j < n {
      assert changed[..n] == entries[..n][j := (entries[j].0, b)];
      assert NamesOf(entries)[j] != NamesOf(entries)[n];
      assert NamesOf(entries[..n]) == NamesOf(entries)[..n];
      ContentElsewhere(entries[..n], j, b, name);
    } else {
      assert changed[..n] == entries[..n];
    }
  }

  lemma ContentAt(entries: seq<(string, Bytes)>, j: nat)
    requires j < |entries| && Distinct(NamesOf(entries))
    ensures Content(entries, entries[j].0) == Some(entries[j].1)
  {
    ContentElsewhere(entries, j, entries[j].1, entries[j].0);
    assert entries[j := (entries[j].0, entries[j].1)] == entries;
  }

  /** An archive that verifies does not verify any more, whatever the detached digest, once the bytes of
      a member are replaced by others with another digest. */
  lemma AlteredMemberFails(k: Codec, material: Material, entries: seq<(string, Bytes)>, declared: string,
                           j: nat, b: Bytes, redeclared: string)
    requires ArchiveVerified(k, material, entries, declared) && j < |entries| && entries[j].0 != PACK_FILE
    requires (k.sha256)(b) != (k.sha256)(entries[j].1)
    ensures !ArchiveVerified(k, material, entries[j := (entries[j].0, b)], redeclared)
  {
    var changed := entries[j := (entries[j].0, b)];
    ContentAt(entries, j);
    forall name
      ensures Content(changed, name) == if name == entries[j].0 then Some(b) else Content(entries, name)
    {
      ContentElsewhere(entries, j, b, name);
    }
    assert entries[j].0 in MemberSet(NamesOf(entries)) by {
      assert NamesOf(entries)[j] == entries[j].0;
    }
  }

  /** What verification demands, written out: different safe names; a manifest that decodes and whose
      lines all split; just the other members listed, each with the digest of its bytes; the required
      members, a patch that is not empty, something under each prefix; and the digest of the archive
      as the first word of the detached file. */
  lemma VerifiedMeans(k: Codec, material: Material, entries: seq<(string, Bytes)>, declared: string)
    ensures ArchiveVerified(k, material, entries, declared) <==>
      && Distinct(NamesOf(entries)) && (forall n :: n in NamesOf(entries) ==> SafeMember(n))
      && Listed(k, entries)
      && (forall n :: n in material.required ==> n in NamesOf(entries))
      && Content(entries, material.patch).Some? && Content(entries, material.patch) != Some([])
      && (forall p :: p in material.prefixes ==> exists n :: n in NamesOf(entries) && p <= n)
      && FirstWord(declared) == Some((k.zipDigest)(entries))
  {
    assert forall n :: n in NamesOf(entries) <==> n in MemberSet(NamesOf(entries));
  }

  ghost predicate Listed(k: Codec, entries: seq<(string, Bytes)>) {
    && Content(entries, "PACK_FILE_SHA256.txt").Some?
    && var text := (k.decode)(Content(entries, "PACK_FILE_SHA256.txt").value);
    && text.Some?
    && var listed := ParseLines(SplitLines(text.value));
    && listed.Some?
    && (forall n :: n in listed.value <==> n in NamesOf(entries) && n != "PACK_FILE_SHA256.txt")
    && forall n :: n in listed.value ==>
      Content(entries, n).Some? && listed.value[n] == (k.sha256)(Content(entries, n).value)
  }
}
