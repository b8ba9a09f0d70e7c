/**
 Test identifiers: `<file>::<test>`. Normalisation rewrites the file prefix only, refuses
 anything that is not a relative Python file under tests/, and keeps the test suffix.
 A `None` result is the planner's error.
 */
module NodeIds {
  import opened Sorting

  datatype Option<+T> = None | Some(value: T)

  // ----- the pieces of Python's string library the function uses

  /** The position of the first "::", or |s| when there is none. */
  function SeparatorAt(s: string): (k: nat)
    ensures k <= |s|
    ensures k < |s| ==> k + 1 < |s| && s[k] == ':' && s[k + 1] == ':'
    ensures forall i :: 0 <= i < k && i + 1 < |s| ==> !(s[i] == ':' && s[i + 1] == ':')
  {
    if |s| < 2 then |s|
    else if s[0] == ':' && s[1] == ':' then 0
    else SeparatorAt(s[1..]) + 1
  }

  function Slashed(s: string): (r: string)
    ensures |r| == |s|
    ensures forall i :: 0 <= i < |s| ==> r[i] == if s[i] == '\\' then '/' else s[i]
  {
    seq(|s|, i requires 0 <= i < |s| => if s[i] == '\\' then '/' else s[i])
  }

  function Split(s: string, c: char): (parts: seq<string>)
    ensures parts != []
  {
    if s == [] then [[]]
    else
      var rest := Split(s[1..], c);
      if s[0] == c then [[]] + rest else [[s[0]] + rest[0]] + rest[1..]
  }

  function Join(parts: seq<string>, c: char): string
    requires parts != []
  {
    if |parts| == 1 then parts[0] else parts[0] + [c] + Join(parts[1..], c)
  }

  predicate IsLetter(c: char) {
    'A' <= c <= 'Z' || 'a' <= c <= 'z'
  }

  predicate HasDrive(s: string) {
    |s| >= 2 && IsLetter(s[0]) && s[1] == ':'
  }

  predicate EndsWith(s: string, tail: string) {
    |s| >= |tail| && s[|s| - |tail|..] == tail
  }

  /** The path suffix of a file name is ".py": a stem is required before it. */
  predicate IsPythonName(name: string) {
    |name| > 3 && EndsWith(name, ".py")
  }

  // ----- normalisation

  predicate SafeFile(file: string) {
    var parts := Split(file, '/');
    && !(file != [] && file[0] == '/')
    && !HasDrive(file)
    && (forall p :: p in parts ==> p != "" && p != "." && p != "..")
    && parts[0] == "tests"
    && IsPythonName(parts[|parts| - 1])
  }

  predicate Plain(v: string) {
    '\0' !in v && '\r' !in v && '\n' !in v
  }

  function Normalize(v: string): (r: Option<string>) {
    if v == [] || !Plain(v) then None
    else
      var k := SeparatorAt(v);
      if k == |v| || k + 2 == |v| then None else Rebuilt(Slashed(v[..k]), v[k + 2..])
  }

  /** The identifier put together again from the parts of a safe path. */
  function Rebuilt(file: string, test: string): (r: Option<string>) {
    if SafeFile(file) then Some(Join(Split(file, '/'), '/') + "::" + test) else None
  }

  lemma RebuiltValue(file: string, test: string)
    ensures Rebuilt(file, test) == if SafeFile(file) then Some(file + "::" + test) else None
  {
    JoinSplit(file, '/');
  }

  /** The module of an identifier: what stands before the first "::". */
  function FileOf(id: string): string {
    id[..SeparatorAt(id)]
  }

  function TestOf(id: string): string {
    var k := SeparatorAt(id);
    if k == |id| then "" else id[k + 2..]
  }

  /** An identifier that normalisation leaves alone. */
  predicate Canonical(id: string) {
    Normalize(id) == Some(id)
  }

  lemma JoinFirst(part: string, rest: seq<string>, c: char)
    requires rest != []
    ensures Join([part] + rest, c) == part + [c] + Join(rest, c)
  {
    assert ([part] + rest)[1..] == rest;
  }

  lemma JoinGrown(x: char, parts: seq<string>, c: char)
    requires parts != []
    ensures Join([[x] + parts[0]] + parts[1..], c) == [x] + Join(parts, c)
  {
    if |parts| > 1 {
      JoinFirst([x] + parts[0], parts[1..], c);
      ConcatAssociates([x], parts[0], [c]);
      ConcatAssociates([x], parts[0] + [c], Join(parts[1..], c));
    }
  }

  lemma {:induction false} JoinSplit(s: string, c: char)
    ensures Join(Split(s, c), c) == s
  {
    if s != [] {
      JoinSplit(s[1..], c);
      JoinFirst([], Split(s[1..], c), c);
      JoinGrown(s[0], Split(s[1..], c), c);
      SplitFirst(s);
      assert [] + [c] == [c];
    }
  }

  /** The first separator depends only on where the colons are. */
  lemma {:induction false} SeparatorByColons(s: string, t: string)
    requires |s| == |t|
    requires forall i :: 0 <= i < |s| ==> (s[i] == ':' <==> t[i] == ':')
    ensures SeparatorAt(s) == SeparatorAt(t)
  {
    if |s| >= 2 {
      SeparatorByColons(s[1..], t[1..]);
    }
  }

  lemma SlashedKeepsColons(v: string, k: nat)
    requires k <= |v|
    ensures var r := Slashed(v[..k]) + v[k..];
      |r| == |v| && forall i :: 0 <= i < |v| ==> (v[i] == ':' <==> r[i] == ':')
  {
  }

  lemma SlashedKeepsSeparator(v: string)
    requires SeparatorAt(v) < |v|
    ensures var k := SeparatorAt(v); SeparatorAt(Slashed(v[..k]) + v[k..]) == k
  {
    SlashedKeepsColons(v, SeparatorAt(v));
    SeparatorByColons(v, Slashed(v[..SeparatorAt(v)]) + v[SeparatorAt(v)..]);
  }

  lemma FirstTwo(s: string)
    requires |s| >= 2 && s[0] == ':' && s[1] == ':'
    ensures s == "::" + s[2..]
  {
  }

  lemma SuffixStartsWithSeparator(v: string)
    requires SeparatorAt(v) < |v|
    ensures var k := SeparatorAt(v); v[k..] == "::" + v[k + 2..]
  {
    var k := SeparatorAt(v);
    FirstTwo(v[k..]);
    TailOfTail(v, k);
  }

  lemma TailOfTail(v: string, k: nat)
    requires k + 2 <= |v|
    ensures v[k..][2..] == v[k + 2..]
  {
  }

  /** Normalisation, when it succeeds, only turns backslashes of the prefix into slashes. */
  lemma NormalizeShape(v: string)
    requires Normalize(v).Some?
    ensures var k := SeparatorAt(v); var r := Normalize(v).value;
      && k + 2 < |v|
      && r == Slashed(v[..k]) + v[k..]
      && SeparatorAt(r) == k
      && SafeFile(Slashed(v[..k]))
  {
    NormalizeValue(v);
    SlashedKeepsSeparator(v);
  }

  lemma NormalizeValue(v: string)
    requires Normalize(v).Some?
    ensures var k := SeparatorAt(v);
      && k + 2 < |v| && SafeFile(Slashed(v[..k]))
      && Normalize(v).value == Slashed(v[..k]) + v[k..]
  {
    var k := SeparatorAt(v);
    SuffixStartsWithSeparator(v);
    RebuiltAt(v, k, Slashed(v[..k]));
  }

  lemma RebuiltAt(v: string, k: nat, file: string)
    requires k + 2 <= |v| && v[k..] == "::" + v[k + 2..]
    ensures Rebuilt(file, v[k + 2..]) == if SafeFile(file) then Some(file + v[k..]) else None
  {
    RebuiltValue(file, v[k + 2..]);
    PrefixRejoined(v, k, file);
  }

  lemma PrefixRejoined(v: string, k: nat, file: string)
    requires k + 2 <= |v| && v[k..] == "::" + v[k + 2..]
    ensures file + "::" + v[k + 2..] == file + v[k..]
  {
    ConcatAssociates(file, "::", v[k + 2..]);
  }

  /** The part after the separator survives verbatim; the file becomes the slashed prefix. */
  lemma NormalizeKeepsTest(v: string)
    requires Normalize(v).Some?
    ensures var r := Normalize(v).value;
      && TestOf(r) == TestOf(v) != ""
      && FileOf(r) == Slashed(FileOf(v)) && SafeFile(FileOf(r))
      && '\\' !in FileOf(r)
  {
    NormalizeShape(v);
  }

  lemma SlashedStaysPlain(v: string, k: nat)
    requires k <= |v|
    ensures Plain(Slashed(v[..k]) + v[k..]) <==> Plain(v)
  {
    var r := Slashed(v[..k]) + v[k..];
    forall c: char | c != '/' && c != '\\' ensures c in r <==> c in v {
      if c in v {
        var i :| 0 <= i < |v| && v[i] == c;
        assert r[i] == c;
      }
      if c in r {
        var i :| 0 <= i < |r| && r[i] == c;
        assert v[i] == c;
      }
    }
  }

  lemma SlashedTwice(s: string)
    ensures Slashed(Slashed(s)) == Slashed(s)
  {
  }

  lemma NormalizeIdempotent(v: string)
    requires Normalize(v).Some?
    ensures Canonical(Normalize(v).value)
  {
    NormalizeShape(v);
    var k := SeparatorAt(v);
    SlashedStaysPlain(v, k);
    SlashedTwice(v[..k]);
    SafePrefixIsCanonical(Normalize(v).value, k);
  }

  lemma NormalizeSlashed(r: string, k: nat)
    requires Plain(r) && SeparatorAt(r) == k && k + 2 < |r| && Slashed(r[..k]) == r[..k]
    ensures Normalize(r) == Rebuilt(r[..k], r[k + 2..])
  {
  }

  lemma SafePrefixIsCanonical(r: string, k: nat)
    requires Plain(r) && SeparatorAt(r) == k && k + 2 < |r|
    requires Slashed(r[..k]) == r[..k] && SafeFile(r[..k])
    ensures Canonical(r)
  {
    SuffixStartsWithSeparator(r);
    NormalizeSlashed(r, k);
    RebuiltAt(r, k, r[..k]);
    SplitAt(r, k);
  }

  /** An identifier with the slashes of its prefix, and of its prefix only, made uniform. */
  function Respelled(v: string): (r: string)
    ensures |r| == |v|
  {
    var k := SeparatorAt(v);
    Slashed(v[..k]) + v[k..]
  }

  /** Writing the prefix with either slash makes no difference, not even to refusal. */
  lemma NormalizeIgnoresSlashes(v: string)
    ensures Normalize(Respelled(v)) == Normalize(v)
  {
    var k, r := SeparatorAt(v), Respelled(v);
    SeparatorByColons(v, r);
    assert Slashed(r[..k]) == Slashed(v[..k]);
    SlashedStaysPlain(v, k);
    if k + 2 < |v| {
      assert r[k + 2..] == v[k + 2..];
    }
  }

  // ----- whole collections

  /** Every identifier normalised, in the given order; None if any is refused. */
  function NormalizeEach(values: seq<string>): (r: Option<seq<string>>)
    ensures r.Some? ==> |r.value| == |values|
    ensures r.Some? ==> forall i :: 0 <= i < |values| ==> Normalize(values[i]) == Some(r.value[i])
    ensures r.None? ==> exists i :: 0 <= i < |values| && Normalize(values[i]).None?
  {
    if values == [] then Some([])
    else
      var first, rest := Normalize(values[0]), NormalizeEach(values[1..]);
      if first.None? || rest.None? then None else Some([first.value] + rest.value)
  }

  /** The eligible population: normalised, free of duplicates, nonempty, sorted. */
  function Eligible(values: seq<string>): (r: Option<seq<string>>) {
    var each := NormalizeEach(values);
    if each.None? || !Distinct(each.value) || each.value == [] then None
    else Some(SortStrings(each.value))
  }

  lemma EligibleIsCanonical(values: seq<string>)
    requires Eligible(values).Some?
    ensures var e := Eligible(values).value;
      && e != [] && Sorted(StringLeq, e) && Distinct(e)
      && forall id :: id in e ==> Canonical(id)
  {
    var each := NormalizeEach(values).value;
    SortStringsSorts(each);
    forall id | id in SortStrings(each) ensures Canonical(id) {
      var i :| 0 <= i < |each| && each[i] == id;
      NormalizeIdempotent(values[i]);
    }
  }

  lemma {:induction false} NormalizeEachRespelled(values: seq<string>)
    ensures NormalizeEach(Map(Respelled, values)) == NormalizeEach(values)
  {
    if values != [] {
      NormalizeIgnoresSlashes(values[0]);
      assert Map(Respelled, values)[1..] == Map(Respelled, values[1..]);
      NormalizeEachRespelled(values[1..]);
    }
  }

  function NormalizesTo(id: string): string -> nat {
    v => if Normalize(v) == Some(id) then 1 else 0
  }

  lemma {:induction false} NormalizeEachCounts(values: seq<string>, id: string)
    requires NormalizeEach(values).Some?
    ensures multiset(NormalizeEach(values).value)[id]
         == SumBy(NormalizesTo(id), values)
  {
    if values != [] {
      NormalizeEachCounts(values[1..], id);
      var each, rest := NormalizeEach(values).value, NormalizeEach(values[1..]).value;
      assert each == [each[0]] + rest;
    }
  }

  lemma NormalizeEachSucceeds(values: seq<string>)
    ensures NormalizeEach(values).Some? <==> forall v :: v in values ==> Normalize(v).Some?
  {
  }

  lemma NormalizeEachRearranged(p: seq<string>, q: seq<string>)
    requires multiset(p) == multiset(q)
    ensures NormalizeEach(p).Some? <==> NormalizeEach(q).Some?
    ensures NormalizeEach(p).Some? ==>
      multiset(NormalizeEach(p).value) == multiset(NormalizeEach(q).value)
  {
    SameElements(p, q);
    NormalizeEachSucceeds(p);
    NormalizeEachSucceeds(q);
    if NormalizeEach(p).Some? {
      forall id ensures multiset(NormalizeEach(p).value)[id] == multiset(NormalizeEach(q).value)[id] {
        NormalizeEachCounts(p, id);
        NormalizeEachCounts(q, id);
        SumByRearranged(NormalizesTo(id), p, q);
      }
    }
  }

  /**
   The population does not depend on the order of the collection, nor on which slash any
   file prefix is written with.
   */
  lemma EligibleIgnoresOrderAndSlashes(p: seq<string>, q: seq<string>)
    requires multiset(Map(Respelled, p)) == multiset(Map(Respelled, q))
    ensures Eligible(p) == Eligible(q)
  {
    NormalizeEachRespelled(p);
    NormalizeEachRespelled(q);
    NormalizeEachRearranged(Map(Respelled, p), Map(Respelled, q));
    if NormalizeEach(p).Some? {
      var a, b := NormalizeEach(p).value, NormalizeEach(q).value;
      DistinctRearranged(a, b);
      SameElements(a, b);
      StringOrder();
      SortIsCanonical(StringLeq, a, b);
    }
  }

  // ----- what is accepted, character by character

  /** s[i..j] is a component of the path: a longest stretch without a slash. */
  ghost predicate Component(s: string, i: int, j: int) {
    && 0 <= i <= j <= |s| && '/' !in s[i..j]
    && (i == 0 || s[i - 1] == '/') && (j == |s| || s[j] == '/')
  }

  lemma TailSlice(s: string, i: int, j: int)
    requires 1 <= i <= j <= |s|
    ensures s[i..j] == s[1..][i - 1..j - 1]
  {
    var a, b := s[i..j], s[1..][i - 1..j - 1];
    EqualAt(a, b);
    forall k: nat | k < |a| ensures a[k] == b[k] {
      assert a[k] == s[i + k] && b[k] == s[1..][i - 1 + k];
    }
  }

  lemma ComponentAfterSlash(s: string, i: int, j: int)
    requires s != [] && s[0] == '/' && 1 <= i
    ensures Component(s, i, j) <==> Component(s[1..], i - 1, j - 1)
  {
    if i <= j <= |s| {
      TailSlice(s, i, j);
    }
  }

  lemma ComponentLater(s: string, i: int, j: int)
    requires s != [] && 2 <= i
    ensures Component(s, i, j) <==> Component(s[1..], i - 1, j - 1)
  {
    if i <= j <= |s| {
      TailSlice(s, i, j);
    }
  }

  lemma ComponentGrown(s: string, j: int)
    requires s != [] && s[0] != '/' && 1 <= j
    ensures Component(s, 0, j) <==> Component(s[1..], 0, j - 1)
    ensures Component(s, 0, j) ==> s[0..j] == [s[0]] + s[1..][0..j - 1]
  {
    if j <= |s| {
      assert s[0..j] == [s[0]] + s[1..][0..j - 1];
    }
  }

  /** The first part of a split path is its first component. */
  lemma {:induction false} FirstComponent(s: string, j: int)
    ensures var first := Split(s, '/')[0];
      && Component(s, 0, |first|) && s[..|first|] == first
      && (Component(s, 0, j) ==> j == |first|)
  {
    if s != [] {
      if s[0] == '/' {
        assert 0 < j <= |s| ==> s[0..j][0] == s[0];
      } else {
        FirstComponent(s[1..], j - 1);
        var rest := Split(s[1..], '/');
        ComponentGrown(s, 1 + |rest[0]|);
        if j >= 1 {
          ComponentGrown(s, j);
        }
      }
    }
  }

  ghost predicate IsComponent(s: string, from: int, p: string) {
    exists i, j :: from <= i && Component(s, i, j) && s[i..j] == p
  }

  /** The other parts are its other components. */
  lemma {:induction false} OtherComponents(s: string, p: string)
    ensures p in Split(s, '/')[1..] <==> IsComponent(s, 1, p)
  {
    if s != [] {
      var t, rest := s[1..], Split(s[1..], '/');
      OtherComponents(t, p);
      FirstComponent(t, |p|);
      assert rest == [rest[0]] + rest[1..];
      if s[0] == '/' {
        assert Split(s, '/')[1..] == rest;
        ComponentsShift(s, 1, p);
        ComponentsFrom(t, p);
      } else {
        assert Split(s, '/')[1..] == rest[1..];
        ComponentsSkip(s, p);
      }
    }
  }

  lemma ComponentsShift(s: string, from: int, p: string)
    requires s != [] && s[0] == '/' && from >= 1
    ensures IsComponent(s, from, p) <==> IsComponent(s[1..], from - 1, p)
  {
    if i, j :| from <= i && Component(s, i, j) && s[i..j] == p {
      ComponentAfterSlash(s, i, j);
      assert s[1..][i - 1..j - 1] == p;
    }
    if i, j :| from - 1 <= i && Component(s[1..], i, j) && s[1..][i..j] == p {
      ComponentAfterSlash(s, i + 1, j + 1);
      assert s[i + 1..j + 1] == p;
    }
  }

  lemma ComponentsSkip(s: string, p: string)
    requires s != [] && s[0] != '/'
    ensures IsComponent(s, 1, p) <==> IsComponent(s[1..], 1, p)
  {
    if i, j :| 1 <= i && Component(s, i, j) && s[i..j] == p {
      ComponentLater(s, i, j);
      assert s[1..][i - 1..j - 1] == p;
    }
    if i, j :| 1 <= i && Component(s[1..], i, j) && s[1..][i..j] == p {
      ComponentLater(s, i + 1, j + 1);
      assert s[i + 1..j + 1] == p;
    }
  }

  /** All components: the first one and the others. */
  lemma ComponentsFrom(s: string, p: string)
    ensures IsComponent(s, 0, p) <==> p == Split(s, '/')[0] || IsComponent(s, 1, p)
  {
    var first := Split(s, '/')[0];
    FirstComponent(s, |first|);
    assert p == first ==> Component(s, 0, |first|) && s[0..|first|] == p;
    if i, j :| 0 <= i && Component(s, i, j) && s[i..j] == p {
      FirstComponent(s, j);
    }
  }

  lemma PartsAreComponents(s: string, p: string)
    ensures p in Split(s, '/') <==> IsComponent(s, 0, p)
  {
    ComponentsFrom(s, p);
    OtherComponents(s, p);
    var parts := Split(s, '/');
    assert parts == [parts[0]] + parts[1..];
  }

  lemma LastIsLater(t: string, last: string)
    requires |Split(t, '/')| > 1 && |last| <= |t| && Component(t, |t| - |last|, |t|)
    ensures |last| < |t|
  {
    if |last| == |t| {
      WholeIsOnePart(t);
    }
  }

  lemma {:induction false} WholeIsOnePart(t: string)
    requires '/' !in t[..|t|]
    ensures |Split(t, '/')| == 1
  {
    WholePrefix(t);
    if t != [] {
      assert forall c :: c in t[1..] ==> c in t;
      WholePrefix(t[1..]);
      WholeIsOnePart(t[1..]);
    }
  }

  /** last is the last component of s. */
  ghost predicate EndsIn(s: string, last: string) {
    |last| <= |s| && Component(s, |s| - |last|, |s|) && s[|s| - |last|..] == last
  }

  lemma EndsLater(s: string, last: string)
    requires s != [] && EndsIn(s[1..], last) && (s[0] == '/' || |last| < |s| - 1)
    ensures EndsIn(s, last)
  {
    var i := |s| - |last|;
    if s[0] == '/' {
      ComponentAfterSlash(s, i, |s|);
    } else {
      ComponentLater(s, i, |s|);
    }
    assert s[i..] == s[1..][i - 1..];
  }

  lemma OnePartEnds(s: string)
    requires |Split(s, '/')| == 1
    ensures EndsIn(s, Split(s, '/')[0])
  {
    OnePartIsWhole(s);
  }

  lemma {:induction false} OnePartIsWhole(s: string)
    requires |Split(s, '/')| == 1
    ensures Split(s, '/')[0] == s && '/' !in s
  {
    if s != [] {
      OnePartIsWhole(s[1..]);
      SplitFirst(s);
    }
  }

  /** The last part is the last component. */
  lemma {:induction false} LastComponent(s: string)
    ensures var parts := Split(s, '/'); EndsIn(s, parts[|parts| - 1])
  {
    if |Split(s, '/')| == 1 {
      OnePartEnds(s);
    } else {
      var rest := Split(s[1..], '/');
      var last := rest[|rest| - 1];
      LastComponent(s[1..]);
      if s[0] != '/' {
        LastIsLater(s[1..], last);
      }
      EndsLater(s, last);
    }
  }

  /** The last component starts at i and is a name followed by ".py". */
  ghost predicate PythonFrom(file: string, i: int) {
    0 <= i < |file| - 3 && Component(file, i, |file|) && file[|file| - 3..] == ".py"
  }

  /** A test file by its components: none is empty, "." or "..", the first is "tests", and the last is
      a name followed by ".py". */
  ghost predicate IsTestFile(file: string) {
    && (forall p :: IsComponent(file, 0, p) ==> p != "" && p != "." && p != "..")
    && Component(file, 0, 5) && file[..5] == "tests"
    && exists i :: PythonFrom(file, i)
  }

  lemma TestsFirst(file: string)
    ensures Split(file, '/')[0] == "tests" <==> Component(file, 0, 5) && file[..5] == "tests"
  {
    FirstComponent(file, 5);
  }

  lemma LastTail(file: string, last: string)
    requires EndsIn(file, last) && |last| >= 3
    ensures file[|file| - 3..] == last[|last| - 3..]
  {
    var k := |file| - |last|;
    assert file[k..][|last| - 3..] == file[|file| - 3..];
  }

  lemma NamedFrom(file: string, last: string)
    requires EndsIn(file, last)
    ensures IsPythonName(last) <==> PythonFrom(file, |file| - |last|)
  {
    if |last| > 3 {
      LastTail(file, last);
    }
  }

  lemma NamedLast(file: string)
    ensures var parts := Split(file, '/');
      IsPythonName(parts[|parts| - 1]) <==> exists i :: PythonFrom(file, i)
  {
    var parts := Split(file, '/');
    var last := parts[|parts| - 1];
    LastComponent(file);
    NamedFrom(file, last);
    if i :| PythonFrom(file, i) {
      OneLastComponent(file, i, |file| - |last|);
    }
  }

  lemma ComponentHolds(s: string, i: int, j: int, k: int)
    requires Component(s, i, j) && i <= k < j
    ensures s[k] != '/'
  {
    assert s[k] == s[i..j][k - i];
  }

  lemma OneLastComponent(s: string, i: int, j: int)
    requires Component(s, i, |s|) && Component(s, j, |s|)
    ensures i == j
  {
    if i < j {
      ComponentHolds(s, i, |s|, j - 1);
    } else if j < i {
      ComponentHolds(s, j, |s|, i - 1);
    }
  }

  /** The accepted file prefixes are exactly the test files. */
  lemma SafeFileMeans(file: string)
    ensures SafeFile(file) <==> IsTestFile(file)
  {
    TestsFirst(file);
    NamedLast(file);
    forall p ensures p in Split(file, '/') <==> IsComponent(file, 0, p) {
      PartsAreComponents(file, p);
    }
    if Component(file, 0, 5) && file[..5] == "tests" {
      assert file[0] == file[..5][0] && file[1] == file[..5][1];
    }
  }

  /** What normalisation accepts: no control character, a separator with something behind it, and
      before it, with every backslash read as a slash, a test file. */
  lemma NormalizeExactly(v: string)
    ensures var k := SeparatorAt(v);
      && (Normalize(v).Some? <==>
          (forall c :: c in v ==> c != '\0' && c != '\r' && c != '\n')
          && k + 2 < |v| && IsTestFile(Slashed(v[..k])))
      && (Normalize(v).Some? ==> Normalize(v).value == Slashed(v[..k]) + v[k..])
  {
    SafeFileMeans(Slashed(v[..SeparatorAt(v)]));
    NormalizeAccepts(v);
    if Normalize(v).Some? {
      NormalizeValue(v);
    }
  }

  lemma NormalizeAccepts(v: string)
    ensures var k := SeparatorAt(v);
      Normalize(v).Some? <==> Plain(v) && k + 2 < |v| && SafeFile(Slashed(v[..k]))
  {
  }

  /** A collection is a population exactly when it is nonempty and its members normalise to different
      identifiers; and these are the population. */
  lemma EligibleMeans(values: seq<string>)
    ensures Eligible(values).Some? <==>
      && values != [] && (forall i :: 0 <= i < |values| ==> Normalize(values[i]).Some?)
      && forall i, j :: 0 <= i < j < |values| ==> Normalize(values[i]) != Normalize(values[j])
    ensures Eligible(values).Some? ==> forall id ::
      id in Eligible(values).value <==> exists i :: 0 <= i < |values| && Normalize(values[i]) == Some(id)
  {
    var each := NormalizeEach(values);
    if each.Some? {
      SortStringsSorts(each.value);
      forall id
        ensures id in each.value <==> exists i :: 0 <= i < |values| && Normalize(values[i]) == Some(id)
      {
        if i :| 0 <= i < |values| && Normalize(values[i]) == Some(id) {
          assert each.value[i] == id;
        }
      }
    }
  }

  lemma InsideFile(file: string, test: string, i: nat)
    requires i < |file|
    ensures (file + "::" + test)[i] == file[i] && (file + "::" + test)[i + 1] == (file + ":")[i + 1]
  {
  }

  /** The module of an identifier and its test are what stands around the first separator. */
  lemma FileOfMeans(file: string, test: string)
    requires forall i :: 0 <= i < |file| ==> !(file[i] == ':' && (file + ":")[i + 1] == ':')
    ensures FileOf(file + "::" + test) == file && TestOf(file + "::" + test) == test
  {
    var id, k := file + "::" + test, SeparatorAt(file + "::" + test);
    assert id[|file|] == ':' && id[|file| + 1] == ':';
    if k < |file| {
      InsideFile(file, test, k);
    }
    assert id[..|file|] == file && id[|file| + 2..] == test;
  }
}
