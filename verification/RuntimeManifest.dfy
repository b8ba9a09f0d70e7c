/**
 The runtime manifest written from a resolved lock, and the wheel verifier's second walk
 over it, which follows only the dependencies whose environment marker is enabled.
 */
module RuntimeManifest {
  import opened Sorting
  import opened NodeIds
  import opened LockGraph
  import opened LockResolver

  // ----- data model

  datatype Dependency = Dependency(marker: Option<Value>, name: string)

  datatype Record = Record(extras: seq<string>, dependencies: seq<Dependency>, name: string, version: string)

  datatype Manifest = Manifest(
    lockSha: string, version: string, packages: seq<Record>, project: string, roots: seq<string>)

  const MANIFEST_VERSION := "1.1"

  predicate HasName(item: Value) {
    item.Table? && "name" in item.entries && item.entries["name"].Str?
  }

  function NameOf(item: Value): string
    requires HasName(item)
  {
    item.entries["name"].s
  }

  function DependencyOf(item: Value): Dependency
    requires HasName(item)
  {
    Dependency(if "marker" in item.entries then Some(item.entries["marker"]) else None, NameOf(item))
  }

  // ----- building

  /** The dependencies of a stored list whose package was selected. */
  function SelectedDependencies(items: seq<Value>, selected: set<string>): seq<Dependency> {
    if items == [] then []
    else
      var n := |items| - 1;
      SelectedDependencies(items[..n], selected)
        + if HasName(items[n]) && NameOf(items[n]) in selected then [DependencyOf(items[n])] else []
  }

  lemma {:induction false} SelectedDependenciesMeans(items: seq<Value>, selected: set<string>, d: Dependency)
    ensures d in SelectedDependencies(items, selected) <==>
      exists item :: item in items && HasName(item) && NameOf(item) in selected && DependencyOf(item) == d
  {
    if items != [] {
      var n := |items| - 1;
      SelectedDependenciesMeans(items[..n], selected, d);
      SplitLast(items);
    }
  }

  /** The names of the root entries that are tables; None when one has no string name. */
  function RootNames(roots: seq<Value>): Option<seq<string>> {
    if roots == [] then Some([])
    else
      var n := |roots| - 1;
      match RootNames(roots[..n])
      case None => None
      case Some(front) =>
        if !roots[n].Table? then Some(front)
        else if HasName(roots[n]) then Some(front + [NameOf(roots[n])])
        else None
  }

  /** Some entry carries this name. */
  ghost predicate Named(items: seq<Value>, name: string) {
    exists item :: item in items && HasName(item) && NameOf(item) == name
  }

  lemma NamedAppend(items: seq<Value>, item: Value, name: string)
    ensures Named(items + [item], name) <==> Named(items, name) || (HasName(item) && NameOf(item) == name)
  {
    if Named(items, name) {
      var other :| other in items && HasName(other) && NameOf(other) == name;
      assert other in items + [item];
    }
    if HasName(item) && NameOf(item) == name {
      assert item in items + [item];
    }
  }

  lemma {:induction false} RootNamesMeans(roots: seq<Value>, name: string)
    requires RootNames(roots).Some?
    ensures name in RootNames(roots).value <==> Named(roots, name)
  {
    if roots != [] {
      var n := |roots| - 1;
      RootNamesMeans(roots[..n], name);
      NamedAppend(roots[..n], roots[n], name);
      SplitLast(roots);
    }
  }

  /** By name, then by the text of the marker. */
  function DependencyOrder(text: Option<Value> -> string): (Dependency, Dependency) -> bool {
    (a: Dependency, b: Dependency) =>
      if a.name != b.name then StringLeq(a.name, b.name) else StringLeq(text(a.marker), text(b.marker))
  }

  predicate HasVersion(p: Package) {
    "version" in p && p["version"].Str?
  }

  function RecordOf(text: Option<Value> -> string, s: Resolution, p: Package, n: string): Record
    requires n in s.selected && n in s.active && HasVersion(p)
  {
    Record(SortedMembers(s.active[n]),
           Sort(DependencyOrder(text), SelectedDependencies(s.selected[n], s.selected.Keys)),
           n, p["version"].s)
  }

  /** m is the manifest of this resolution. */
  ghost predicate IsManifest(text: Option<Value> -> string, packages: map<string, Package>, roots: seq<Value>,
                             s: Resolution, m: Manifest) {
    var names := SortedMembers(s.selected.Keys);
    && s.selected.Keys == s.active.Keys <= packages.Keys
    && RootNames(roots).Some? && m.roots == SortStrings(RootNames(roots).value)
    && |m.packages| == |names| && Recorded(text, packages, s, names, m.packages)
  }

  /** The lock cannot be written out: the project or its list is missing, resolution fails, or
      a name or version is missing. */
  ghost predicate Unbuildable(packages: map<string, Package>, project: string) {
    || project !in packages || "dependencies" !in packages[project] || !packages[project]["dependencies"].List?
    || Fault(packages, packages[project]["dependencies"].items)
    || RootNames(packages[project]["dependencies"].items).None?
    || exists n :: ReachesName(packages, packages[project]["dependencies"].items, n) && !HasVersion(packages[n])
  }

  /** m is what is written for this lock, and s its resolution. */
  ghost predicate IsBuilt(text: Option<Value> -> string, packages: map<string, Package>, project: string,
                          lockSha: string, s: Resolution, m: Manifest) {
    && !Unbuildable(packages, project)
    && Resolved(packages, packages[project]["dependencies"].items, s)
    && IsManifest(text, packages, packages[project]["dependencies"].items, s, m)
    && m.lockSha == lockSha && m.version == MANIFEST_VERSION && m.project == project
  }

  /** The packages of a lock by name: of two entries of one name the later counts, and an entry
      that is not a table with a string name does not count. */
  function ByPackageName(items: seq<Value>): map<string, Package> {
    if items == [] then map[]
    else
      var n := |items| - 1;
      var front := ByPackageName(items[..n]);
      if HasName(items[n]) then front[NameOf(items[n]) := items[n].entries] else front
  }

  /** None when the lock has no list of packages. */
  function Packages(lock: map<string, Value>): Option<map<string, Package>> {
    if "package" in lock && lock["package"].List? then Some(ByPackageName(lock["package"].items)) else None
  }

  lemma {:induction false} ByPackageNameMeans(items: seq<Value>, name: string)
    ensures name in ByPackageName(items) <==> Named(items, name)
    ensures name in ByPackageName(items) ==>
      exists item :: item in items && HasName(item) && NameOf(item) == name
                     && item.entries == ByPackageName(items)[name]
  {
    if items != [] {
      var n := |items| - 1;
      ByPackageNameMeans(items[..n], name);
      NamedAppend(items[..n], items[n], name);
      SplitLast(items);
    }
  }

  /** Entries of one name are the same entry. */
  ghost predicate OneEntryPerName(items: seq<Value>) {
    forall a, b :: a in items && b in items && HasName(a) && HasName(b) && NameOf(a) == NameOf(b) ==> a == b
  }

  lemma OneEntryDecides(items: seq<Value>, items': seq<Value>)
    requires OneEntryPerName(items) && multiset(items) == multiset(items')
    ensures ByPackageName(items) == ByPackageName(items')
  {
    SameElements(items, items');
    forall name
      ensures name in ByPackageName(items) <==> name in ByPackageName(items')
      ensures name in ByPackageName(items) ==> ByPackageName(items)[name] == ByPackageName(items')[name]
    {
      ByPackageNameMeans(items, name);
      ByPackageNameMeans(items', name);
    }
  }

  /** The last entry of a name is the one that counts. */
  lemma LastEntryCounts(items: seq<Value>, item: Value)
    requires HasName(item)
    ensures var all := ByPackageName(items + [item]);
      NameOf(item) in all && all[NameOf(item)] == item.entries
  {
    assert (items + [item])[..|items + [item]| - 1] == items;
  }

  lemma TwoEntriesDiffer(items: seq<Value>, a: Value, b: Value)
    returns (items': seq<Value>)
    requires a in items && b in items && a != b && HasName(a) && HasName(b) && NameOf(a) == NameOf(b)
    ensures multiset(items') == multiset(items) && ByPackageName(items') != ByPackageName(items)
  {
    var rest := TwoPutLast(items, a, b);
    LastEntryCounts(rest + [a], b);
    LastEntryCounts(rest + [b], a);
    items' := if ByPackageName(rest + [a] + [b]) == ByPackageName(items) then rest + [b] + [a] else rest + [a] + [b];
  }

  /** The order of the package list never matters exactly when no two different entries share a name. */
  lemma PackageOrderIgnored(items: seq<Value>)
    ensures OneEntryPerName(items) <==>
      forall items' :: multiset(items') == multiset(items) ==> ByPackageName(items') == ByPackageName(items)
  {
    if OneEntryPerName(items) {
      forall items' | multiset(items') == multiset(items) ensures ByPackageName(items') == ByPackageName(items) {
        OneEntryDecides(items, items');
      }
    } else {
      var a, b :| a in items && b in items && HasName(a) && HasName(b) && NameOf(a) == NameOf(b) && a != b;
      var items' := TwoEntriesDiffer(items, a, b);
    }
  }

  /** m is what is written for this lock. */
  ghost predicate Locks(text: Option<Value> -> string, lock: map<string, Value>, project: string,
                        lockSha: string, m: Manifest) {
    Packages(lock).Some? && Builds(text, Packages(lock).value, project, lockSha, m)
  }

  /** The lock resolved and written out; None for any of the builder's errors. */
  method BuildManifest(text: Option<Value> -> string, lock: map<string, Value>, project: string, lockSha: string)
    returns (r: Option<Manifest>, ghost s: Resolution)
    ensures r.None? <==> Packages(lock).None? || Unbuildable(Packages(lock).value, project)
    ensures r.Some? ==> IsBuilt(text, Packages(lock).value, project, lockSha, s, r.value)
  {
    var packages := Packages(lock);
    if packages.None? {
      return None, Resolution(map[], map[]);
    }
    r, s := WriteManifest(text, packages.value, project, lockSha);
  }

  method WriteManifest(text: Option<Value> -> string, packages: map<string, Package>, project: string, lockSha: string)
    returns (r: Option<Manifest>, ghost s: Resolution)
    ensures r.None? <==> Unbuildable(packages, project)
    ensures r.Some? ==> IsBuilt(text, packages, project, lockSha, s, r.value)
  {
    s := Resolution(map[], map[]);
    if project !in packages || "dependencies" !in packages[project] || !packages[project]["dependencies"].List? {
      return None, s;
    }
    var roots := packages[project]["dependencies"].items;
    var resolved := ResolveRuntimeGraph(packages, roots);
    if resolved.None? {
      return None, s;
    }
    s := resolved.value;
    var records := WriteRecords(text, packages, resolved.value);
    if records.None? {
      ghost var n :| n in s.selected && !HasVersion(packages[n]);
      assert ReachesName(packages, roots, n);
      return None, s;
    }
    var names := RootNames(roots);
    if names.None? {
      return None, s;
    }
    return Some(Manifest(lockSha, MANIFEST_VERSION, records.value, project, SortStrings(names.value))), s;
  }

  /** The records of the first names, all of which have a version. */
  ghost predicate Recorded(text: Option<Value> -> string, packages: map<string, Package>, s: Resolution,
                           names: seq<string>, records: seq<Record>) {
    |records| <= |names| && AllAt(RecordedFrom(text, packages, s, names), records)
  }

  function RecordedFrom(text: Option<Value> -> string, packages: map<string, Package>, s: Resolution,
                        names: seq<string>): (nat, Record) -> bool {
    (i: nat, r: Record) =>
      i < |names| && names[i] in s.selected && names[i] in s.active && names[i] in packages
      && HasVersion(packages[names[i]]) && r == RecordOf(text, s, packages[names[i]], names[i])
  }

  method WriteRecords(text: Option<Value> -> string, packages: map<string, Package>, s: Resolution)
    returns (r: Option<seq<Record>>)
    requires s.selected.Keys == s.active.Keys <= packages.Keys
    ensures r.None? <==> exists n :: n in s.selected && !HasVersion(packages[n])
    ensures r.Some? ==> var names := SortedMembers(s.selected.Keys);
      |r.value| == |names| && Recorded(text, packages, s, names, r.value)
  {
    var names := SortedMembers(s.selected.Keys);
    var records: seq<Record> := [];
    for i := 0 to |names|
      invariant |records| == i && Recorded(text, packages, s, names, records)
    {
      assert names[i] in s.selected;
      if !HasVersion(packages[names[i]]) {
        return None;
      }
      var r := RecordOf(text, s, packages[names[i]], names[i]);
      AllAtOneMore(RecordedFrom(text, packages, s, names), records, r);
      records := records + [r];
    }
    forall n | n in s.selected ensures HasVersion(packages[n]) {
      assert n in names;
      var i :| 0 <= i < |names| && names[i] == n;
      RecordNamed(text, packages, s, names, records, i);
    }
    return Some(records);
  }

  lemma NamedIsWanted(item: Value)
    requires HasName(item) && ReadRequest(item) != Malformed
    ensures ReadRequest(item).Wanted? && ReadRequest(item).request.name == NameOf(item)
  {
  }

  lemma ListedIsSound(packages: map<string, Package>, roots: seq<Value>, active: Activation, n: string, item: Value)
    requires ExactlyReachable(packages, roots, active) && !Fault(packages, roots)
    requires n in active && n in packages && Lists(packages[n], active[n], item)
    ensures ReadRequest(item) != Malformed
  {
    var q := JustifiedItem(packages, roots, active, n, item);
    assert !FaultyRequest(packages, q);
  }

  /** What a selected package lists under a name is selected too. */
  lemma ListedIsSelected(packages: map<string, Package>, roots: seq<Value>, s: Resolution, n: string, item: Value)
    requires Resolved(packages, roots, s) && !Fault(packages, roots)
    requires n in s.selected && item in s.selected[n] && HasName(item)
    ensures NameOf(item) in s.selected
  {
    ExpandMeans(packages[n], s.active[n]);
    ListedIsSound(packages, roots, s.active, n, item);
    NamedIsWanted(item);
    var r := ReadRequest(item).request;
    assert Asks(packages, Request(n, s.active[n]), r);
    JustifiedAsk(packages, roots, s.active, n, r);
    ReachableIsCovered(packages, roots, s.active, r);
  }

  /** The filter on selected names drops nothing that a resolved list names. */
  lemma FilterDropsNothing(packages: map<string, Package>, roots: seq<Value>, s: Resolution, n: string, item: Value)
    requires Resolved(packages, roots, s) && !Fault(packages, roots)
    requires n in s.selected && item in s.selected[n] && HasName(item)
    ensures DependencyOf(item) in SelectedDependencies(s.selected[n], s.selected.Keys)
  {
    ListedIsSelected(packages, roots, s, n, item);
    SelectedDependenciesMeans(s.selected[n], s.selected.Keys, DependencyOf(item));
  }

  // ----- the walk

  /** A dependency counts when it has no marker, or a textual one that evaluates to true. */
  predicate Enabled(evaluate: string -> Option<bool>, d: Dependency) {
    d.marker.None? || (d.marker.value.Str? && evaluate(d.marker.value.s) == Some(true))
  }

  /** The marker library refuses this text. */
  predicate Unreadable(evaluate: string -> Option<bool>, d: Dependency) {
    d.marker.Some? && d.marker.value.Str? && evaluate(d.marker.value.s).None?
  }

  /** The records by name; a later record would replace an earlier one. */
  function ByName(records: seq<Record>): (m: map<string, Record>)
    ensures forall n :: n in m ==> m[n] in records && m[n].name == n
    ensures forall i :: 0 <= i < |records| ==> records[i].name in m
  {
    if records == [] then map[]
    else
      var n := |records| - 1;
      ByName(records[..n])[records[n].name := records[n]]
  }

  /** The record of n has an enabled dependency on t. */
  ghost predicate Edge(evaluate: string -> Option<bool>, records: map<string, Record>, n: string, t: string) {
    n in records && exists d :: d in records[n].dependencies && Enabled(evaluate, d) && d.name == t
  }

  ghost predicate NameChain(evaluate: string -> Option<bool>, records: map<string, Record>, roots: seq<string>,
                            path: seq<string>) {
    && path != [] && path[0] in roots
    && forall i :: 0 <= i < |path| - 1 ==> Edge(evaluate, records, path[i], path[i + 1])
  }

  /** n is a root or follows from one over enabled dependencies. */
  ghost predicate Installed(evaluate: string -> Option<bool>, records: map<string, Record>, roots: seq<string>,
                            n: string) {
    exists path :: NameChain(evaluate, records, roots, path) && path[|path| - 1] == n
  }

  lemma RootIsInstalled(evaluate: string -> Option<bool>, records: map<string, Record>, roots: seq<string>, n: string)
    requires n in roots
    ensures Installed(evaluate, records, roots, n)
  {
    assert NameChain(evaluate, records, roots, [n]);
  }

  lemma EdgeIsInstalled(evaluate: string -> Option<bool>, records: map<string, Record>, roots: seq<string>, n: string,
                        t: string)
    requires Installed(evaluate, records, roots, n) && Edge(evaluate, records, n, t)
    ensures Installed(evaluate, records, roots, t)
  {
    var path :| NameChain(evaluate, records, roots, path) && path[|path| - 1] == n;
    assert NameChain(evaluate, records, roots, path + [t]);
  }

  ghost predicate WalkClosed(evaluate: string -> Option<bool>, records: map<string, Record>, roots: seq<string>,
                             pending: seq<string>, seen: set<string>) {
    && (forall n :: n in roots ==> n in pending || n in seen)
    && (forall n, t :: n in seen && Edge(evaluate, records, n, t) ==> t in pending || t in seen)
  }

  lemma {:induction false} SeenCoversChain(evaluate: string -> Option<bool>, records: map<string, Record>,
                                           roots: seq<string>, seen: set<string>, path: seq<string>)
    requires WalkClosed(evaluate, records, roots, [], seen)
    requires NameChain(evaluate, records, roots, path)
    ensures path[|path| - 1] in seen
    decreases |path|
  {
    var n := |path| - 1;
    if n > 0 {
      var front := path[..n];
      forall i | 0 <= i < |front| - 1 ensures Edge(evaluate, records, front[i], front[i + 1]) {
        assert Edge(evaluate, records, path[i], path[i + 1]);
      }
      SeenCoversChain(evaluate, records, roots, seen, front);
      assert Edge(evaluate, records, path[n - 1], path[n]);
    }
  }

  /** The names of the enabled dependencies, in order; None at an unreadable marker. */
  method EnabledNames(evaluate: string -> Option<bool>, dependencies: seq<Dependency>)
    returns (r: Option<seq<string>>)
    ensures r.None? <==> exists d :: d in dependencies && Unreadable(evaluate, d)
    ensures r.Some? ==> forall t ::
      t in r.value <==> exists d :: d in dependencies && Enabled(evaluate, d) && d.name == t
  {
    var names: seq<string> := [];
    for i := 0 to |dependencies|
      invariant forall d :: d in dependencies[..i] ==> !Unreadable(evaluate, d)
      invariant forall t :: t in names <==> exists d :: d in dependencies[..i] && Enabled(evaluate, d) && d.name == t
    {
      PrefixStep(dependencies, i);
      if Unreadable(evaluate, dependencies[i]) {
        return None;
      }
      if Enabled(evaluate, dependencies[i]) {
        names := names + [dependencies[i].name];
      }
    }
    WholePrefix(dependencies);
    return Some(names);
  }

  /** The walk cannot go through n: it has no record, or an unreadable marker. */
  ghost predicate Stuck(evaluate: string -> Option<bool>, records: map<string, Record>, n: string) {
    n !in records || exists d :: d in records[n].dependencies && Unreadable(evaluate, d)
  }

  ghost predicate Walking(evaluate: string -> Option<bool>, records: map<string, Record>, roots: seq<string>,
                          pending: seq<string>, seen: set<string>) {
    && (forall n :: n in pending || n in seen ==> Installed(evaluate, records, roots, n))
    && (forall n :: n in seen ==> !Stuck(evaluate, records, n))
    && WalkClosed(evaluate, records, roots, pending, seen)
  }

  lemma WalkSkips(evaluate: string -> Option<bool>, records: map<string, Record>, roots: seq<string>,
                  pending: seq<string>, seen: set<string>, n: string)
    requires Walking(evaluate, records, roots, pending + [n], seen) && n in seen
    ensures Walking(evaluate, records, roots, pending, seen)
  {
    assert forall t :: t in pending + [n] <==> t in pending || t == n;
  }

  lemma WalkGrows(evaluate: string -> Option<bool>, records: map<string, Record>, roots: seq<string>,
                  pending: seq<string>, seen: set<string>, n: string, more: seq<string>)
    requires Walking(evaluate, records, roots, pending + [n], seen)
    requires !Stuck(evaluate, records, n)
    requires forall t :: t in more <==> Edge(evaluate, records, n, t)
    ensures Walking(evaluate, records, roots, pending + more, seen + {n})
  {
    assert forall t :: t in pending + [n] <==> t in pending || t == n;
    assert forall t :: t in pending + more <==> t in pending || t in more;
    forall t | t in more ensures Installed(evaluate, records, roots, t) {
      EdgeIsInstalled(evaluate, records, roots, n, t);
    }
  }

  lemma StartWalking(evaluate: string -> Option<bool>, records: map<string, Record>, roots: seq<string>)
    ensures Walking(evaluate, records, roots, roots, {})
  {
    forall n | n in roots ensures Installed(evaluate, records, roots, n) {
      RootIsInstalled(evaluate, records, roots, n);
    }
  }

  lemma SmallerWithout(all: set<string>, seen: set<string>, n: string)
    requires n in all && n !in seen
    ensures |all - (seen + {n})| < |all - seen|
  {
    assert all - seen == (all - (seen + {n})) + {n};
  }

  /** Visit a name not seen before: what it leads to, or None when it cannot be gone through. */
  method Visit(evaluate: string -> Option<bool>, records: map<string, Record>, ghost roots: seq<string>,
               ghost pending: seq<string>, ghost seen: set<string>, name: string) returns (r: Option<seq<string>>)
    requires Walking(evaluate, records, roots, pending + [name], seen) && name !in seen
    ensures r.None? ==> Stuck(evaluate, records, name) && Installed(evaluate, records, roots, name)
    ensures r.Some? ==> Walking(evaluate, records, roots, pending + r.value, seen + {name})
    ensures r.Some? ==> |records.Keys - (seen + {name})| < |records.Keys - seen|
  {
    assert name in pending + [name];
    if name !in records {
      return None;
    }
    var more := EnabledNames(evaluate, records[name].dependencies);
    if more.None? {
      return None;
    }
    WalkGrows(evaluate, records, roots, pending, seen, name, more.value);
    SmallerWithout(records.Keys, seen, name);
    return more;
  }

  /** The walk cannot go through some installed name. */
  ghost predicate Incomplete(evaluate: string -> Option<bool>, records: map<string, Record>, roots: seq<string>) {
    exists n :: Installed(evaluate, records, roots, n) && Stuck(evaluate, records, n)
  }

  /** The worklist of the walk: the installed names, or None when it cannot go through one. */
  method WalkRecords(evaluate: string -> Option<bool>, records: map<string, Record>, roots: seq<string>)
    returns (r: Option<set<string>>)
    ensures r.None? ==> Incomplete(evaluate, records, roots)
    ensures r.Some? ==> Walking(evaluate, records, roots, [], r.value)
  {
    var seen: set<string>, pending := {}, roots;
    StartWalking(evaluate, records, roots);
    while pending != []
      invariant Walking(evaluate, records, roots, pending, seen)
      decreases |records.Keys - seen|, |pending|
    {
      var name, rest := pending[|pending| - 1], pending[..|pending| - 1];
      SplitLast(pending);
      if name in seen {
        WalkSkips(evaluate, records, roots, rest, seen, name);
        pending := rest;
        continue;
      }
      var more := Visit(evaluate, records, roots, rest, seen, name);
      if more.None? {
        return None;
      }
      pending, seen := rest + more.value, seen + {name};
    }
    return Some(seen);
  }

  /**
   The marker walk. It fails exactly when an installed name has no record or an unreadable
   marker, and otherwise returns the installed names with their versions.
   */
  method WalkManifest(evaluate: string -> Option<bool>, m: Manifest) returns (r: Option<map<string, string>>)
    ensures r.None? <==> Incomplete(evaluate, ByName(m.packages), m.roots)
    ensures r.Some? ==> forall n :: n in r.value <==> Installed(evaluate, ByName(m.packages), m.roots, n)
    ensures r.Some? ==> forall n :: n in r.value ==>
      n in ByName(m.packages) && r.value[n] == ByName(m.packages)[n].version
  {
    var records := ByName(m.packages);
    var seen := WalkRecords(evaluate, records, m.roots);
    if seen.None? {
      return None;
    }
    SeenIsInstalled(evaluate, records, m.roots, seen.value);
    assert !Incomplete(evaluate, records, m.roots);
    return Some(map n | n in seen.value :: records[n].version);
  }

  lemma SeenIsInstalled(evaluate: string -> Option<bool>, records: map<string, Record>, roots: seq<string>,
                        seen: set<string>)
    requires Walking(evaluate, records, roots, [], seen)
    ensures forall n :: Installed(evaluate, records, roots, n) <==> n in seen
  {
    forall n | Installed(evaluate, records, roots, n) ensures n in seen {
      var path :| NameChain(evaluate, records, roots, path) && path[|path| - 1] == n;
      SeenCoversChain(evaluate, records, roots, seen, path);
    }
  }

  // ----- the walk on a manifest built from a lock

  /** Where the record of n came from. */
  lemma RecordPosition(text: Option<Value> -> string, packages: map<string, Package>, roots: seq<Value>,
                       s: Resolution, m: Manifest, n: string)
    requires IsManifest(text, packages, roots, s, m)
    ensures n in ByName(m.packages) <==> n in s.selected
    ensures n in s.selected ==> HasVersion(packages[n]) && ByName(m.packages)[n] == RecordOf(text, s, packages[n], n)
  {
    var names := SortedMembers(s.selected.Keys);
    if n in s.selected {
      assert n in names;
      var i :| 0 <= i < |names| && names[i] == n;
      RecordNamed(text, packages, s, names, m.packages, i);
    }
    if n in ByName(m.packages) {
      var j :| 0 <= j < |m.packages| && m.packages[j] == ByName(m.packages)[n];
      RecordNamed(text, packages, s, names, m.packages, j);
    }
  }

  lemma RecordNamed(text: Option<Value> -> string, packages: map<string, Package>, s: Resolution,
                    names: seq<string>, records: seq<Record>, i: nat)
    requires Recorded(text, packages, s, names, records) && i < |records|
    ensures names[i] in s.selected && names[i] in s.active && names[i] in packages && HasVersion(packages[names[i]])
    ensures records[i] == RecordOf(text, s, packages[names[i]], names[i]) && records[i].name == names[i]
  {
    assert RecordedFrom(text, packages, s, names)(i, records[i]);
    assert RecordOf(text, s, packages[names[i]], names[i]).name == names[i];
  }

  lemma RecordsOfManifest(text: Option<Value> -> string, packages: map<string, Package>, roots: seq<Value>,
                          s: Resolution, m: Manifest, n: string)
    requires IsManifest(text, packages, roots, s, m)
    ensures n in ByName(m.packages) <==> n in s.selected
    ensures n in s.selected ==> forall d ::
      d in ByName(m.packages)[n].dependencies <==> d in SelectedDependencies(s.selected[n], s.selected.Keys)
  {
    RecordPosition(text, packages, roots, s, m, n);
    if n in s.selected {
      SameElements(ByName(m.packages)[n].dependencies, SelectedDependencies(s.selected[n], s.selected.Keys));
    }
  }

  lemma InstalledIsSelected(text: Option<Value> -> string, packages: map<string, Package>, roots: seq<Value>,
                            s: Resolution, m: Manifest, evaluate: string -> Option<bool>, n: string)
    requires Resolved(packages, roots, s) && !Fault(packages, roots) && IsManifest(text, packages, roots, s, m)
    requires Installed(evaluate, ByName(m.packages), m.roots, n)
    ensures n in s.selected
  {
    var records := ByName(m.packages);
    forall t | t in m.roots ensures t in s.selected {
      RootNamesSelected(packages, roots, s, t);
    }
    forall q, t | q in s.selected.Keys && Edge(evaluate, records, q, t) ensures t in s.selected.Keys {
      var d :| d in records[q].dependencies && Enabled(evaluate, d) && d.name == t;
      RecordsOfManifest(text, packages, roots, s, m, q);
      SelectedDependenciesMeans(s.selected[q], s.selected.Keys, d);
    }
    var path :| NameChain(evaluate, records, m.roots, path) && path[|path| - 1] == n;
    SeenCoversChain(evaluate, records, m.roots, s.selected.Keys, path);
  }

  lemma RootNamesSelected(packages: map<string, Package>, roots: seq<Value>, s: Resolution, t: string)
    requires Resolved(packages, roots, s) && !Fault(packages, roots) && RootNames(roots).Some?
    ensures t in SortStrings(RootNames(roots).value) ==> t in s.selected
    ensures forall item :: item in roots && HasName(item) ==> NameOf(item) in SortStrings(RootNames(roots).value)
  {
    SameElements(SortStrings(RootNames(roots).value), RootNames(roots).value);
    forall item | item in roots && HasName(item) ensures NameOf(item) in SortStrings(RootNames(roots).value) {
      RootNamesMeans(roots, NameOf(item));
    }
    RootNamesMeans(roots, t);
    if item :| item in roots && HasName(item) && NameOf(item) == t {
      assert ReadRequest(item) != Malformed;
      assert AskedByRoots(roots, ReadRequest(item).request);
      ExactIsClosed(packages, roots, s.active);
    }
  }

  /** Every marker that stands in the stored lists is a text that evaluates to true. */
  ghost predicate AllEnabled(s: Resolution, evaluate: string -> Option<bool>) {
    forall n, item :: n in s.selected && item in s.selected[n] && item.Table? && "marker" in item.entries ==>
      item.entries["marker"].Str? && evaluate(item.entries["marker"].s) == Some(true)
  }

  lemma {:induction false} ChainIsInstalled(text: Option<Value> -> string, packages: map<string, Package>,
                                            roots: seq<Value>, s: Resolution, m: Manifest,
                                            evaluate: string -> Option<bool>, path: seq<Request>)
    requires Resolved(packages, roots, s) && !Fault(packages, roots) && IsManifest(text, packages, roots, s, m)
    requires AllEnabled(s, evaluate)
    requires Chain(packages, roots, path)
    ensures Installed(evaluate, ByName(m.packages), m.roots, path[|path| - 1].name)
    decreases |path|
  {
    var n := |path| - 1;
    if n == 0 {
      AskedRootIsInstalled(packages, roots, s, ByName(m.packages), evaluate, path[0]);
    } else {
      var front, q, r := path[..n], path[n - 1], path[n];
      ChainShortens(packages, roots, path);
      ChainIsInstalled(text, packages, roots, s, m, evaluate, front);
      AskIsEdge(text, packages, roots, s, m, evaluate, q, r);
      EdgeIsInstalled(evaluate, ByName(m.packages), m.roots, q.name, r.name);
    }
  }

  lemma ChainShortens(packages: map<string, Package>, roots: seq<Value>, path: seq<Request>)
    requires Chain(packages, roots, path) && |path| >= 2
    ensures var n := |path| - 1;
      && Chain(packages, roots, path[..n]) && Reachable(packages, roots, path[n - 1])
      && Asks(packages, path[n - 1], path[n])
  {
    var n := |path| - 1;
    var front := path[..n];
    forall i | 0 <= i < |front| - 1 ensures Asks(packages, front[i], front[i + 1]) {
      assert Asks(packages, path[i], path[i + 1]);
    }
    assert front[|front| - 1] == path[n - 1];
    assert Asks(packages, path[n - 1], path[n - 1 + 1]);
  }

  lemma AskedRootIsInstalled(packages: map<string, Package>, roots: seq<Value>, s: Resolution,
                             records: map<string, Record>, evaluate: string -> Option<bool>, r: Request)
    requires Resolved(packages, roots, s) && !Fault(packages, roots) && RootNames(roots).Some?
    requires AskedByRoots(roots, r)
    ensures Installed(evaluate, records, SortStrings(RootNames(roots).value), r.name)
  {
    var item :| item in roots && ReadRequest(item) == Wanted(r);
    RootNamesSelected(packages, roots, s, NameOf(item));
    RootIsInstalled(evaluate, records, SortStrings(RootNames(roots).value), r.name);
  }

  lemma AskIsEdge(text: Option<Value> -> string, packages: map<string, Package>, roots: seq<Value>,
                  s: Resolution, m: Manifest, evaluate: string -> Option<bool>, q: Request, r: Request)
    requires Resolved(packages, roots, s) && !Fault(packages, roots) && IsManifest(text, packages, roots, s, m)
    requires AllEnabled(s, evaluate)
    requires Reachable(packages, roots, q) && Asks(packages, q, r)
    ensures Edge(evaluate, ByName(m.packages), q.name, r.name)
  {
    ReachableIsCovered(packages, roots, s.active, q);
    var item :| Lists(packages[q.name], q.extras, item) && ReadRequest(item) == Wanted(r);
    assert Lists(packages[q.name], s.active[q.name], item);
    ExpandMeans(packages[q.name], s.active[q.name]);
    FilterDropsNothing(packages, roots, s, q.name, item);
    RecordsOfManifest(text, packages, roots, s, m, q.name);
    EntryEnabled(s, evaluate, q.name, item);
    assert DependencyOf(item) in ByName(m.packages)[q.name].dependencies;
  }

  lemma EntryEnabled(s: Resolution, evaluate: string -> Option<bool>, n: string, item: Value)
    requires AllEnabled(s, evaluate) && n in s.selected && item in s.selected[n] && HasName(item)
    ensures Enabled(evaluate, DependencyOf(item))
  {
  }

  /** With every marker true the walk selects exactly what the resolver selected. */
  lemma AllMarkersInstallAll(text: Option<Value> -> string, packages: map<string, Package>, roots: seq<Value>,
                             s: Resolution, m: Manifest, evaluate: string -> Option<bool>)
    requires Resolved(packages, roots, s) && !Fault(packages, roots) && IsManifest(text, packages, roots, s, m)
    requires AllEnabled(s, evaluate)
    ensures forall n :: Installed(evaluate, ByName(m.packages), m.roots, n) <==> n in s.selected
  {
    forall n ensures Installed(evaluate, ByName(m.packages), m.roots, n) <==> n in s.selected {
      if Installed(evaluate, ByName(m.packages), m.roots, n) {
        InstalledIsSelected(text, packages, roots, s, m, evaluate, n);
      }
      if n in s.selected {
        assert ReachesName(packages, roots, n);
        var r :| Reachable(packages, roots, r) && r.name == n;
        var path :| Chain(packages, roots, path) && path[|path| - 1] == r;
        ChainIsInstalled(text, packages, roots, s, m, evaluate, path);
      }
    }
  }

  /**
   On a manifest built from a lock the walk never meets its incomplete-graph error, and
   what it selects was selected by the resolver.
   */
  lemma WalkRefinesResolution(text: Option<Value> -> string, packages: map<string, Package>, roots: seq<Value>,
                              s: Resolution, m: Manifest, evaluate: string -> Option<bool>)
    requires Resolved(packages, roots, s) && !Fault(packages, roots) && IsManifest(text, packages, roots, s, m)
    ensures forall n :: Installed(evaluate, ByName(m.packages), m.roots, n) ==>
      n in ByName(m.packages) && n in s.selected
  {
    forall n | Installed(evaluate, ByName(m.packages), m.roots, n)
      ensures n in ByName(m.packages) && n in s.selected
    {
      InstalledIsSelected(text, packages, roots, s, m, evaluate, n);
      RecordsOfManifest(text, packages, roots, s, m, n);
    }
  }

  /** m is what is written for these packages. */
  ghost predicate Builds(text: Option<Value> -> string, packages: map<string, Package>, project: string,
                         lockSha: string, m: Manifest) {
    exists s :: IsBuilt(text, packages, project, lockSha, s, m)
  }

  /** The text of a marker the library refuses is met by the walk over the manifest. */
  ghost predicate MeetsUnreadable(evaluate: string -> Option<bool>, m: Manifest) {
    exists n, d, x :: Installed(evaluate, ByName(m.packages), m.roots, n) && n in ByName(m.packages)
      && d in ByName(m.packages)[n].dependencies && d.marker == Some(Str(x)) && evaluate(x).None?
  }

  lemma StuckAtMarker(evaluate: string -> Option<bool>, m: Manifest)
    requires forall n :: Installed(evaluate, ByName(m.packages), m.roots, n) ==> n in ByName(m.packages)
    ensures Incomplete(evaluate, ByName(m.packages), m.roots) <==> MeetsUnreadable(evaluate, m)
  {
    var records := ByName(m.packages);
    if Incomplete(evaluate, records, m.roots) {
      var n :| Installed(evaluate, records, m.roots, n) && Stuck(evaluate, records, n);
      var d :| d in records[n].dependencies && Unreadable(evaluate, d);
      assert d.marker == Some(Str(d.marker.value.s));
    }
    if MeetsUnreadable(evaluate, m) {
      var n, d, x :| Installed(evaluate, records, m.roots, n) && n in records
        && d in records[n].dependencies && d.marker == Some(Str(x)) && evaluate(x).None?;
      assert Stuck(evaluate, records, n);
    }
  }

  // ----- the walk as plain reachability

  /** What the walk follows: no marker, or the text of one that is true. */
  predicate Kept(evaluate: string -> Option<bool>, d: Dependency) {
    match d.marker
    case None => true
    case Some(Str(x)) => evaluate(x) == Some(true)
    case Some(_) => false
  }

  function Pruned(evaluate: string -> Option<bool>, r: Record): Record {
    r.(dependencies := Filter((d: Dependency) => Kept(evaluate, d), r.dependencies))
  }

  /** The records without the dependencies that are not followed. */
  function PrunedRecords(evaluate: string -> Option<bool>, records: seq<Record>): seq<Record> {
    Map((r: Record) => Pruned(evaluate, r), records)
  }

  ghost predicate NamesNext(records: map<string, Record>, n: string, t: string) {
    n in records && exists d :: d in records[n].dependencies && d.name == t
  }

  /** n is a root or named by a record that is reached, whatever the markers. */
  ghost predicate Reached(records: map<string, Record>, roots: seq<string>, n: string) {
    exists path :: PathTo(records, roots, path) && path[|path| - 1] == n
  }

  ghost predicate PathTo(records: map<string, Record>, roots: seq<string>, path: seq<string>) {
    path != [] && path[0] in roots && forall i :: 0 <= i < |path| - 1 ==> NamesNext(records, path[i], path[i + 1])
  }

  lemma {:induction false} PrunedByName(evaluate: string -> Option<bool>, records: seq<Record>, n: string)
    ensures n in ByName(PrunedRecords(evaluate, records)) <==> n in ByName(records)
    ensures n in ByName(records) ==>
      ByName(PrunedRecords(evaluate, records))[n] == Pruned(evaluate, ByName(records)[n])
  {
    if records != [] {
      var k := |records| - 1;
      PrunedByName(evaluate, records[..k], n);
      MapFront((r: Record) => Pruned(evaluate, r), records);
    }
  }

  lemma PrunedEdge(evaluate: string -> Option<bool>, records: seq<Record>, n: string, t: string)
    ensures Edge(evaluate, ByName(records), n, t) <==> NamesNext(ByName(PrunedRecords(evaluate, records)), n, t)
  {
    PrunedByName(evaluate, records, n);
    if n in ByName(records) {
      forall d ensures Kept(evaluate, d) <==> Enabled(evaluate, d) {
      }
    }
  }

  /** The walk reaches just what is reached once the dependencies it does not follow are removed. */
  lemma WalkIsReachability(evaluate: string -> Option<bool>, m: Manifest, n: string)
    ensures Installed(evaluate, ByName(m.packages), m.roots, n)
         <==> Reached(ByName(PrunedRecords(evaluate, m.packages)), m.roots, n)
  {
    var records, pruned := ByName(m.packages), ByName(PrunedRecords(evaluate, m.packages));
    forall a, b ensures Edge(evaluate, records, a, b) <==> NamesNext(pruned, a, b) {
      PrunedEdge(evaluate, m.packages, a, b);
    }
    if path :| NameChain(evaluate, records, m.roots, path) && path[|path| - 1] == n {
      assert PathTo(pruned, m.roots, path);
    }
    if path :| PathTo(pruned, m.roots, path) && path[|path| - 1] == n {
      assert NameChain(evaluate, records, m.roots, path);
    }
  }

  /** The lock reaches n, and gives it this version. */
  ghost predicate LockedAt(packages: map<string, Package>, project: string, n: string, version: string) {
    && project in packages && "dependencies" in packages[project] && packages[project]["dependencies"].List?
    && ReachesName(packages, packages[project]["dependencies"].items, n)
    && n in packages && "version" in packages[n] && packages[n]["version"] == Str(version)
  }

  lemma ReachedNext(records: map<string, Record>, roots: seq<string>, n: string, d: Dependency)
    requires Reached(records, roots, n) && n in records && d in records[n].dependencies
    ensures Reached(records, roots, d.name)
  {
    var path :| PathTo(records, roots, path) && path[|path| - 1] == n;
    assert NamesNext(records, n, d.name);
    assert PathTo(records, roots, path + [d.name]);
  }

  /** A dependency of a reached name is reached when it has no marker, or the text of a true one. */
  lemma ReachedFollows(evaluate: string -> Option<bool>, m: Manifest, n: string, d: Dependency)
    requires Reached(ByName(PrunedRecords(evaluate, m.packages)), m.roots, n)
    requires n in ByName(m.packages) && d in ByName(m.packages)[n].dependencies
    requires d.marker == None || exists x :: d.marker == Some(Str(x)) && evaluate(x) == Some(true)
    ensures Reached(ByName(PrunedRecords(evaluate, m.packages)), m.roots, d.name)
  {
    PrunedByName(evaluate, m.packages, n);
    ReachedNext(ByName(PrunedRecords(evaluate, m.packages)), m.roots, n, d);
  }

  /**
   What must be installed. It fails exactly when the stored manifest is not the one written for
   the lock or the walk meets an unreadable marker; the walk's own errors never arise, it stays
   within what the lock's roots reach, and it gives the names reached once the dependencies with a
   marker that is false or no text are removed, with the locked versions.
   */
  method ExpectedDistributions(text: Option<Value> -> string, lock: map<string, Value>, project: string,
                               lockSha: string, stored: Option<Manifest>, evaluate: string -> Option<bool>)
    returns (r: Option<map<string, string>>)
    ensures r.Some? <==>
      stored.Some? && Locks(text, lock, project, lockSha, stored.value) && !MeetsUnreadable(evaluate, stored.value)
    ensures r.Some? ==> forall n ::
      n in r.value <==> Reached(ByName(PrunedRecords(evaluate, stored.value.packages)), stored.value.roots, n)
    ensures r.Some? ==> Packages(lock).Some? && !Unbuildable(Packages(lock).value, project)
    ensures r.Some? ==> forall n :: n in r.value ==> LockedAt(Packages(lock).value, project, n, r.value[n])
  {
    var built, s := BuildManifest(text, lock, project, lockSha);
    if stored.None? || built.None? {
      return None;
    }
    var packages := Packages(lock).value;
    if stored != built {
      if Builds(text, packages, project, lockSha, stored.value) {
        BuiltOnce(text, packages, project, lockSha, s, built.value, stored.value);
      }
      return None;
    }
    var roots := packages[project]["dependencies"].items;
    WalkRefinesResolution(text, packages, roots, s, stored.value, evaluate);
    StuckAtMarker(evaluate, stored.value);
    r := WalkManifest(evaluate, stored.value);
    forall n
      ensures Installed(evaluate, ByName(stored.value.packages), stored.value.roots, n)
           <==> Reached(ByName(PrunedRecords(evaluate, stored.value.packages)), stored.value.roots, n)
    {
      WalkIsReachability(evaluate, stored.value, n);
    }
    if r.Some? {
      forall n | n in r.value ensures LockedAt(packages, project, n, r.value[n]) {
        VersionRecorded(text, packages, project, lockSha, s, stored.value, n);
      }
    }
  }

  lemma VersionRecorded(text: Option<Value> -> string, packages: map<string, Package>, project: string,
                        lockSha: string, s: Resolution, m: Manifest, n: string)
    requires IsBuilt(text, packages, project, lockSha, s, m) && n in s.selected
    ensures n in ByName(m.packages) && LockedAt(packages, project, n, ByName(m.packages)[n].version)
  {
    RecordPosition(text, packages, packages[project]["dependencies"].items, s, m, n);
    assert ReachesName(packages, packages[project]["dependencies"].items, n);
  }

  lemma UpToOrderItself(packages: map<string, Package>, roots: seq<Value>)
    ensures SameUpToOrder(packages, roots, packages, roots)
  {
  }

  lemma ExpandedAlike(packages: map<string, Package>, s: Resolution, t: Resolution, n: string)
    requires n in packages && n in s.selected && n in t.selected && n in s.active && n in t.active
    requires s.active[n] == t.active[n]
    requires Expand(packages[n], s.active[n]) == Some(s.selected[n])
    requires Expand(packages[n], t.active[n]) == Some(t.selected[n])
    ensures s.selected[n] == t.selected[n]
  {
  }

  /** A lock has one resolution, stored lists included. */
  lemma ResolvedOnce(packages: map<string, Package>, roots: seq<Value>, s: Resolution, t: Resolution)
    requires Resolved(packages, roots, s) && Resolved(packages, roots, t)
    ensures s == t
  {
    UpToOrderItself(packages, roots);
    ResolutionIgnoresOrder(packages, roots, packages, roots, s, t);
    forall n | n in s.selected ensures s.selected[n] == t.selected[n] {
      ExpandedAlike(packages, s, t, n);
    }
    SameMaps(s.selected, t.selected);
  }

  lemma SameMaps(a: map<string, seq<Value>>, b: map<string, seq<Value>>)
    requires a.Keys == b.Keys && forall n :: n in a ==> a[n] == b[n]
    ensures a == b
  {
  }

  lemma ManifestOnce(text: Option<Value> -> string, packages: map<string, Package>, roots: seq<Value>,
                     s: Resolution, m: Manifest, other: Manifest)
    requires IsManifest(text, packages, roots, s, m) && IsManifest(text, packages, roots, s, other)
    ensures m.packages == other.packages && m.roots == other.roots
  {
    var names := SortedMembers(s.selected.Keys);
    forall i: nat | i < |names| ensures m.packages[i] == other.packages[i] {
      RecordNamed(text, packages, s, names, m.packages, i);
      RecordNamed(text, packages, s, names, other.packages, i);
    }
  }

  /** And one manifest. */
  lemma BuiltOnce(text: Option<Value> -> string, packages: map<string, Package>, project: string, lockSha: string,
                  s: Resolution, m: Manifest, other: Manifest)
    requires IsBuilt(text, packages, project, lockSha, s, m) && Builds(text, packages, project, lockSha, other)
    ensures m == other
  {
    var t :| IsBuilt(text, packages, project, lockSha, t, other);
    var roots := packages[project]["dependencies"].items;
    ResolvedOnce(packages, roots, s, t);
    ManifestOnce(text, packages, roots, s, m, other);
  }

  // ----- when rearranged locks are written alike

  lemma DependencyPreorder(text: Option<Value> -> string)
    ensures TotalPreorder(DependencyOrder(text))
  {
    var leq := DependencyOrder(text);
    forall a, b ensures leq(a, b) || leq(b, a) {
      StringLeqTotal(a.name, b.name);
      StringLeqTotal(text(a.marker), text(b.marker));
    }
    forall a, b, c | leq(a, b) && leq(b, c) ensures leq(a, c) {
      DependencyTransitive(text, a, b, c);
    }
  }

  lemma DependencyTransitive(text: Option<Value> -> string, a: Dependency, b: Dependency, c: Dependency)
    requires DependencyOrder(text)(a, b) && DependencyOrder(text)(b, c)
    ensures DependencyOrder(text)(a, c)
  {
    if a.name == b.name == c.name {
      StringLeqTransitive(text(a.marker), text(b.marker), text(c.marker));
    } else {
      if a.name != b.name && b.name != c.name {
        StringLeqTransitive(a.name, b.name, c.name);
      }
      StringLeqTotal(a.name, b.name);
    }
  }

  function Listed(s: Resolution, n: string): seq<Dependency>
    requires n in s.selected
  {
    SelectedDependencies(s.selected[n], s.selected.Keys)
  }

  function Calls(name: string): Value -> nat {
    item => if HasName(item) && NameOf(item) == name then 1 else 0
  }

  lemma RootNamesStep(roots: seq<Value>, name: string)
    requires roots != [] && RootNames(roots).Some?
    ensures var n := |roots| - 1;
      && RootNames(roots[..n]).Some?
      && multiset(RootNames(roots).value)[name]
         == multiset(RootNames(roots[..n]).value)[name] + Calls(name)(roots[n])
  {
  }

  lemma {:induction false} RootNamesCounts(roots: seq<Value>, name: string)
    requires RootNames(roots).Some?
    ensures multiset(RootNames(roots).value)[name] == SumBy(Calls(name), roots)
  {
    if roots != [] {
      RootNamesCounts(roots[..|roots| - 1], name);
      RootNamesStep(roots, name);
      SumByLast(Calls(name), roots);
    }
  }

  lemma RootsRearranged(roots: seq<Value>, roots': seq<Value>)
    requires RootNames(roots).Some? && RootNames(roots').Some? && multiset(roots) == multiset(roots')
    ensures SortStrings(RootNames(roots).value) == SortStrings(RootNames(roots').value)
  {
    forall name ensures multiset(RootNames(roots).value)[name] == multiset(RootNames(roots').value)[name] {
      RootNamesCounts(roots, name);
      RootNamesCounts(roots', name);
      SumByRearranged(Calls(name), roots, roots');
    }
    StringOrder();
    SortIsCanonical(StringLeq, RootNames(roots).value, RootNames(roots').value);
  }

  /** The dependencies a list names, in its order. */
  function Entries(items: seq<Value>): seq<Dependency> {
    if items == [] then []
    else
      var n := |items| - 1;
      Entries(items[..n]) + if HasName(items[n]) then [DependencyOf(items[n])] else []
  }

  /** Those of them tied with d: of its name, and with a marker of the same text. */
  function TiedEntries(text: Option<Value> -> string, d: Dependency, items: seq<Value>): seq<Dependency> {
    Filter(TiedWith(DependencyOrder(text), d), Entries(items))
  }

  /** The entries tied with d stand in the same order in both lists. */
  ghost predicate TiedAlike(text: Option<Value> -> string, d: Dependency, a: Option<seq<Value>>,
                            b: Option<seq<Value>>) {
    a.Some? && b.Some? ==> TiedEntries(text, d, a.value) == TiedEntries(text, d, b.value)
  }

  ghost predicate TiesAlike(text: Option<Value> -> string, a: Option<seq<Value>>, b: Option<seq<Value>>) {
    forall d :: TiedAlike(text, d, a, b)
  }

  /** In the base list and in the list of every reachable extra of every reachable package,
      tied entries stand in the same order in both locks. */
  ghost predicate TiesInOrder(text: Option<Value> -> string, packages: map<string, Package>, roots: seq<Value>,
                              packages': map<string, Package>) {
    forall n :: ReachesName(packages, roots, n) && n in packages && n in packages' ==>
      ReachedListsTie(text, packages, roots, n, packages[n], packages'[n])
  }

  ghost predicate ReachedListsTie(text: Option<Value> -> string, packages: map<string, Package>, roots: seq<Value>,
                                  n: string, p: Package, q: Package) {
    && TiesAlike(text, Base(p), Base(q))
    && forall e :: ReachesExtra(packages, roots, n, e) ==> TiesAlike(text, ExtraItems(p, e), ExtraItems(q, e))
  }

  /** The locks differ only in the order of their dependency lists. */
  ghost predicate Reordered(packages: map<string, Package>, packages': map<string, Package>) {
    && packages.Keys == packages'.Keys
    && forall n :: n in packages ==> ReorderedPackage(packages[n], packages'[n])
  }

  ghost predicate ReorderedPackage(p: Package, q: Package) {
    && p.Keys == q.Keys && Rearranged(p, q)
    && ("version" in p ==> p["version"] == q["version"])
  }

  lemma {:induction false} EntriesJoin(a: seq<Value>, b: seq<Value>)
    ensures Entries(a + b) == Entries(a) + Entries(b)
  {
    if b == [] {
      assert a + b == a;
    } else {
      var n := |b| - 1;
      assert (a + b)[..|a + b| - 1] == a + b[..n];
      EntriesJoin(a, b[..n]);
      ConcatAssociates(Entries(a), Entries(b[..n]), if HasName(b[n]) then [DependencyOf(b[n])] else []);
    }
  }

  lemma TiedEntriesJoin(text: Option<Value> -> string, d: Dependency, a: seq<Value>, b: seq<Value>)
    ensures TiedEntries(text, d, a + b) == TiedEntries(text, d, a) + TiedEntries(text, d, b)
  {
    EntriesJoin(a, b);
    FilterJoin(TiedWith(DependencyOrder(text), d), Entries(a), Entries(b));
  }

  function IsTied(text: Option<Value> -> string, d: Dependency): Value -> nat {
    item => if HasName(item) && TiedWith(DependencyOrder(text), d)(DependencyOf(item)) then 1 else 0
  }

  lemma EntriesOne(item: Value)
    ensures Entries([item]) == if HasName(item) then [DependencyOf(item)] else []
  {
    assert Entries([item][..0]) == [];
  }

  lemma TiedEntriesOne(text: Option<Value> -> string, d: Dependency, item: Value)
    ensures TiedEntries(text, d, [item])
         == if HasName(item) && TiedWith(DependencyOrder(text), d)(DependencyOf(item)) then [DependencyOf(item)] else []
  {
    EntriesOne(item);
    if HasName(item) {
      FilterCons(TiedWith(DependencyOrder(text), d), DependencyOf(item), []);
      assert [DependencyOf(item)] + [] == [DependencyOf(item)];
    }
  }

  lemma {:induction false} TiedEntriesCount(text: Option<Value> -> string, d: Dependency, items: seq<Value>)
    ensures |TiedEntries(text, d, items)| == SumBy(IsTied(text, d), items)
  {
    if items != [] {
      var n := |items| - 1;
      TiedEntriesCount(text, d, items[..n]);
      SplitLast(items);
      TiedEntriesJoin(text, d, items[..n], [items[n]]);
      TiedEntriesOne(text, d, items[n]);
      SumByLast(IsTied(text, d), items);
    }
  }

  lemma SameEntriesTiedCount(text: Option<Value> -> string, d: Dependency, a: Option<seq<Value>>, b: Option<seq<Value>>)
    requires SameEntries(a, b) && a.Some?
    ensures |TiedEntries(text, d, a.value)| == |TiedEntries(text, d, b.value)|
  {
    TiedEntriesCount(text, d, a.value);
    TiedEntriesCount(text, d, b.value);
    SumByRearranged(IsTied(text, d), a.value, b.value);
  }

  /** The entries tied with d stand in the same order in the base lists and the lists of these extras. */
  ghost predicate PartsTied(text: Option<Value> -> string, d: Dependency, p: Package, q: Package,
                            extras: set<string>) {
    && TiedAlike(text, d, Base(p), Base(q))
    && forall e :: e in extras ==> TiedAlike(text, d, ExtraItems(p, e), ExtraItems(q, e))
  }

  /** The joined lists of two rearranged packages tie alike exactly when their parts do. */
  lemma {:induction false} PartsTie(text: Option<Value> -> string, d: Dependency, p: Package, q: Package,
                                    extras: seq<string>)
    requires Rearranged(p, q) && ExpandOver(p, extras).Some? && ExpandOver(q, extras).Some?
    ensures TiedAlike(text, d, ExpandOver(p, extras), ExpandOver(q, extras))
         <==> PartsTied(text, d, p, q, MemberSet(extras))
  {
    if extras != [] {
      var n := |extras| - 1;
      PartsTie(text, d, p, q, extras[..n]);
      LastPartTies(text, d, p, q, extras);
      SplitLast(extras);
      MemberSetAppend(extras[..n], extras[n]);
    }
  }

  lemma LastPartTies(text: Option<Value> -> string, d: Dependency, p: Package, q: Package, extras: seq<string>)
    requires extras != [] && Rearranged(p, q) && ExpandOver(p, extras).Some? && ExpandOver(q, extras).Some?
    ensures var n := |extras| - 1;
      && ExpandOver(p, extras[..n]).Some? && ExpandOver(q, extras[..n]).Some?
      && (TiedAlike(text, d, ExpandOver(p, extras), ExpandOver(q, extras)) <==>
          (TiedAlike(text, d, ExpandOver(p, extras[..n]), ExpandOver(q, extras[..n]))
           && TiedAlike(text, d, ExtraItems(p, extras[n]), ExtraItems(q, extras[n]))))
  {
    var n := |extras| - 1;
    var a, b := ExpandOver(p, extras[..n]).value, ExtraItems(p, extras[n]).value;
    var a', b' := ExpandOver(q, extras[..n]).value, ExtraItems(q, extras[n]).value;
    TiedEntriesJoin(text, d, a, b);
    TiedEntriesJoin(text, d, a', b');
    SameEntriesTiedCount(text, d, ExtraItems(p, extras[n]), ExtraItems(q, extras[n]));
    PartsEqual(TiedEntries(text, d, a), TiedEntries(text, d, b), TiedEntries(text, d, a'), TiedEntries(text, d, b'));
  }

  lemma {:induction false} SelectedEntries(items: seq<Value>, selected: set<string>)
    requires forall item :: item in items && HasName(item) ==> NameOf(item) in selected
    ensures SelectedDependencies(items, selected) == Entries(items)
  {
    if items != [] {
      SelectedEntries(items[..|items| - 1], selected);
    }
  }

  /** The list written for a package is that of all the entries its lists name. */
  lemma ListedEntries(packages: map<string, Package>, roots: seq<Value>, s: Resolution, n: string)
    requires Resolved(packages, roots, s) && !Fault(packages, roots) && n in s.selected
    ensures Listed(s, n) == Entries(s.selected[n])
  {
    forall item | item in s.selected[n] && HasName(item) ensures NameOf(item) in s.selected {
      ListedIsSelected(packages, roots, s, n, item);
    }
    SelectedEntries(s.selected[n], s.selected.Keys);
  }

  /** Tied entries stand in the same order in the lists of two packages and of these extras. */
  ghost predicate PackageTies(text: Option<Value> -> string, p: Package, q: Package, extras: set<string>) {
    && TiesAlike(text, Base(p), Base(q))
    && forall e :: e in extras ==> TiesAlike(text, ExtraItems(p, e), ExtraItems(q, e))
  }

  lemma ExpansionTies(text: Option<Value> -> string, p: Package, q: Package, extras: set<string>)
    requires Rearranged(p, q) && Expand(p, extras).Some? && Expand(q, extras).Some?
    ensures TiesAlike(text, Expand(p, extras), Expand(q, extras)) <==> PackageTies(text, p, q, extras)
  {
    assert MemberSet(SortedMembers(extras)) == extras;
    forall d
      ensures TiedAlike(text, d, Expand(p, extras), Expand(q, extras)) <==> PartsTied(text, d, p, q, extras)
    {
      PartsTie(text, d, p, q, SortedMembers(extras));
    }
    PackageTiesEach(text, p, q, extras);
  }

  lemma PackageTiesEach(text: Option<Value> -> string, p: Package, q: Package, extras: set<string>)
    ensures PackageTies(text, p, q, extras) <==> forall d :: PartsTied(text, d, p, q, extras)
  {
    if forall d :: PartsTied(text, d, p, q, extras) {
      forall d ensures TiedAlike(text, d, Base(p), Base(q)) {
        assert PartsTied(text, d, p, q, extras);
      }
      forall e, d | e in extras ensures TiedAlike(text, d, ExtraItems(p, e), ExtraItems(q, e)) {
        assert PartsTied(text, d, p, q, extras);
      }
    }
  }

  lemma ReorderedUpToOrder(packages: map<string, Package>, packages': map<string, Package>, project: string)
    requires Reordered(packages, packages') && project in packages
    requires "dependencies" in packages[project] && packages[project]["dependencies"].List?
    ensures "dependencies" in packages'[project] && packages'[project]["dependencies"].List?
    ensures SameUpToOrder(packages, packages[project]["dependencies"].items,
                          packages', packages'[project]["dependencies"].items)
  {
    assert ReorderedPackage(packages[project], packages'[project]);
    forall n | n in packages ensures Rearranged(packages[n], packages'[n]) {
      assert ReorderedPackage(packages[n], packages'[n]);
    }
  }

  /** One package is written alike in both locks exactly when its lists tie alike. */
  lemma RecordsAlike(text: Option<Value> -> string, packages: map<string, Package>, roots: seq<Value>,
                     packages': map<string, Package>, roots': seq<Value>,
                     s: Resolution, s': Resolution, n: string)
    requires Resolved(packages, roots, s) && !Fault(packages, roots) && Reordered(packages, packages')
    requires Resolved(packages', roots', s') && !Fault(packages', roots')
    requires n in s.selected && s.active == s'.active && s.selected.Keys == s'.selected.Keys
    requires HasVersion(packages[n]) && HasVersion(packages'[n])
    ensures RecordOf(text, s, packages[n], n) == RecordOf(text, s', packages'[n], n)
         <==> PackageTies(text, packages[n], packages'[n], s.active[n])
  {
    assert ReorderedPackage(packages[n], packages'[n]);
    DependencyPreorder(text);
    SortsAlike(DependencyOrder(text), Listed(s, n), Listed(s', n));
    ListedEntries(packages, roots, s, n);
    ListedEntries(packages', roots', s', n);
    SameTiesAlike(text, s.selected[n], s'.selected[n]);
    ExpansionTies(text, packages[n], packages'[n], s.active[n]);
  }

  lemma SameTiesAlike(text: Option<Value> -> string, a: seq<Value>, b: seq<Value>)
    ensures SameTies(DependencyOrder(text), Entries(a), Entries(b)) <==> TiesAlike(text, Some(a), Some(b))
  {
    if SameTies(DependencyOrder(text), Entries(a), Entries(b)) {
      forall d ensures TiedEntries(text, d, a) == TiedEntries(text, d, b) {
      }
    }
    if TiesAlike(text, Some(a), Some(b)) {
      forall d ensures Filter(TiedWith(DependencyOrder(text), d), Entries(a))
          == Filter(TiedWith(DependencyOrder(text), d), Entries(b))
      {
        assert TiedAlike(text, d, Some(a), Some(b));
      }
    }
  }

  ghost predicate TiedAt(text: Option<Value> -> string, packages: map<string, Package>,
                         packages': map<string, Package>, s: Resolution, n: string) {
    n in s.active && n in packages && n in packages' ==>
      PackageTies(text, packages[n], packages'[n], s.active[n])
  }

  lemma TiesAtReached(text: Option<Value> -> string, packages: map<string, Package>, roots: seq<Value>,
                      packages': map<string, Package>, s: Resolution)
    requires Resolved(packages, roots, s) && packages.Keys == packages'.Keys
    ensures TiesInOrder(text, packages, roots, packages')
         <==> forall n :: n in s.selected ==> TiedAt(text, packages, packages', s, n)
  {
    forall n | n in s.selected
      ensures TiedAt(text, packages, packages', s, n)
           <==> ReachedListsTie(text, packages, roots, n, packages[n], packages'[n])
    {
      TiesAtOne(text, packages, roots, packages', s, n);
    }
  }

  lemma TiesAtOne(text: Option<Value> -> string, packages: map<string, Package>, roots: seq<Value>,
                  packages': map<string, Package>, s: Resolution, n: string)
    requires Resolved(packages, roots, s) && packages.Keys == packages'.Keys && n in s.selected
    ensures TiedAt(text, packages, packages', s, n)
         <==> ReachedListsTie(text, packages, roots, n, packages[n], packages'[n])
  {
  }

  /**
   Two locks that differ only in the order of their lists are written alike, but for the digest
   of the lock, exactly when tied entries, of one name and with markers of the same text, stand
   in the same order in every list that is followed.
   */
  lemma ManifestIgnoresOrder(text: Option<Value> -> string, packages: map<string, Package>,
                             packages': map<string, Package>, project: string,
                             lockSha: string, lockSha': string, m: Manifest, m': Manifest)
    requires Reordered(packages, packages')
    requires Builds(text, packages, project, lockSha, m) && Builds(text, packages', project, lockSha', m')
    ensures m.(lockSha := lockSha') == m'
         <==> TiesInOrder(text, packages, packages[project]["dependencies"].items, packages')
  {
    var roots, roots' := packages[project]["dependencies"].items, packages'[project]["dependencies"].items;
    var s :| IsBuilt(text, packages, project, lockSha, s, m);
    var s' :| IsBuilt(text, packages', project, lockSha', s', m');
    ReorderedUpToOrder(packages, packages', project);
    ResolutionIgnoresOrder(packages, roots, packages', roots', s, s');
    RootsRearranged(roots, roots');
    RecordsAgree(text, packages, roots, packages', roots', s, s', SortedMembers(s.selected.Keys),
                 m.packages, m'.packages);
    TiesAtReached(text, packages, roots, packages', s);
  }

  lemma RecordAgrees(text: Option<Value> -> string, packages: map<string, Package>, roots: seq<Value>,
                     packages': map<string, Package>, roots': seq<Value>, s: Resolution, s': Resolution,
                     names: seq<string>, records: seq<Record>, records': seq<Record>, i: nat)
    requires Resolved(packages, roots, s) && !Fault(packages, roots) && Reordered(packages, packages')
    requires Resolved(packages', roots', s') && !Fault(packages', roots')
    requires s.active == s'.active && s.selected.Keys == s'.selected.Keys
    requires Recorded(text, packages, s, names, records) && Recorded(text, packages', s', names, records')
    requires i < |records| == |records'| <= |names|
    ensures records[i] == records'[i] <==> TiedAt(text, packages, packages', s, names[i])
  {
    RecordNamed(text, packages, s, names, records, i);
    RecordNamed(text, packages', s', names, records', i);
    RecordsAlike(text, packages, roots, packages', roots', s, s', names[i]);
  }

  lemma RecordsAgree(text: Option<Value> -> string, packages: map<string, Package>, roots: seq<Value>,
                     packages': map<string, Package>, roots': seq<Value>, s: Resolution, s': Resolution,
                     names: seq<string>, records: seq<Record>, records': seq<Record>)
    requires Resolved(packages, roots, s) && !Fault(packages, roots) && Reordered(packages, packages')
    requires Resolved(packages', roots', s') && !Fault(packages', roots')
    requires s.active == s'.active && s.selected.Keys == s'.selected.Keys
    requires Recorded(text, packages, s, names, records) && Recorded(text, packages', s', names, records')
    requires |records| == |records'| == |names| && forall n :: n in names <==> n in s.selected
    ensures records == records' <==> forall n :: n in s.selected ==> TiedAt(text, packages, packages', s, n)
  {
    forall i: nat | i < |names|
      ensures records[i] == records'[i] <==> TiedAt(text, packages, packages', s, names[i])
    {
      RecordAgrees(text, packages, roots, packages', roots', s, s', names, records, records', i);
    }
    EqualAt(records, records');
    TiedAtEveryName(text, packages, packages', s, names);
  }

  lemma TiedAtEveryName(text: Option<Value> -> string, packages: map<string, Package>,
                        packages': map<string, Package>, s: Resolution, names: seq<string>)
    requires forall n :: n in names <==> n in s.selected
    ensures (forall n :: n in s.selected ==> TiedAt(text, packages, packages', s, n))
         <==> forall i: nat :: i < |names| ==> TiedAt(text, packages, packages', s, names[i])
  {
    forall n | n in s.selected ensures exists i: nat :: i < |names| && names[i] == n {
      assert n in names;
    }
  }

  // ----- whether a lock can be written does not depend on order; what is written may

  lemma {:induction false} RootNamesFails(roots: seq<Value>)
    ensures RootNames(roots).None? <==> exists item :: item in roots && item.Table? && !HasName(item)
  {
    if roots != [] {
      RootNamesFails(roots[..|roots| - 1]);
      SplitLast(roots);
    }
  }

  lemma ReorderedBack(packages: map<string, Package>, packages': map<string, Package>)
    requires Reordered(packages, packages')
    ensures Reordered(packages', packages)
  {
    forall n | n in packages' ensures ReorderedPackage(packages'[n], packages[n]) {
      assert ReorderedPackage(packages[n], packages'[n]);
      forall e ensures SameEntries(ExtraItems(packages'[n], e), ExtraItems(packages[n], e)) {
        assert SameEntries(ExtraItems(packages[n], e), ExtraItems(packages'[n], e));
      }
    }
  }

  lemma UnbuildableReordered(packages: map<string, Package>, packages': map<string, Package>, project: string)
    requires Reordered(packages, packages') && !Unbuildable(packages, project)
    ensures !Unbuildable(packages', project)
  {
    var roots, roots' := packages[project]["dependencies"].items, packages'[project]["dependencies"].items;
    ReorderedUpToOrder(packages, packages', project);
    FaultIgnoresOrder(packages, roots, packages', roots');
    SymmetricUpToOrder(packages, roots, packages', roots');
    RootNamesFails(roots);
    RootNamesFails(roots');
    SameElements(roots, roots');
    forall n | ReachesName(packages', roots', n) ensures HasVersion(packages'[n]) {
      var r :| Reachable(packages', roots', r) && r.name == n;
      ReachableUpToOrder(packages', roots', packages, roots, r);
      assert ReachesName(packages, roots, n) && !FaultyRequest(packages, r);
      assert ReorderedPackage(packages[n], packages'[n]);
    }
  }

  /** Reordering the lists of a lock does not change whether it can be written out. */
  lemma BuildIgnoresOrder(packages: map<string, Package>, packages': map<string, Package>, project: string)
    requires Reordered(packages, packages')
    ensures Unbuildable(packages, project) <==> Unbuildable(packages', project)
  {
    ReorderedBack(packages, packages');
    if !Unbuildable(packages, project) {
      UnbuildableReordered(packages, packages', project);
    }
    if !Unbuildable(packages', project) {
      UnbuildableReordered(packages', packages, project);
    }
  }

  function PlainEntry(name: string): Value {
    Table(map["name" := Str(name)])
  }

  function MarkedEntry(name: string, marker: string): Value {
    Table(map["name" := Str(name), "marker" := Str(marker)])
  }

  /** A package of this version with this list, and one without a list. */
  function Lister(entries: seq<Value>): Package {
    map["version" := Str("1"), "dependencies" := List(entries)]
  }

  function Leaf(): Package {
    map["version" := Str("1")]
  }

  lemma ListerMeans(entries: seq<Value>)
    ensures Base(Lister(entries)) == Some(entries) && Base(Leaf()) == Some([]) && HasVersion(Leaf())
    ensures "dependencies" in Lister(entries) && Lister(entries)["dependencies"] == List(entries)
    ensures Optional(Lister(entries)) == Some(map[]) && Optional(Leaf()) == Some(map[]) && HasVersion(Lister(entries))
  {
  }

  lemma ListersReordered(entries: seq<Value>, entries': seq<Value>)
    requires multiset(entries) == multiset(entries')
    ensures ReorderedPackage(Lister(entries), Lister(entries'))
    ensures ReorderedPackage(Leaf(), Leaf())
  {
    ListerMeans(entries);
    ListerMeans(entries');
  }

  /** A project that needs outer, whose list is made of these entries, which all name inner. */
  function ChainLock(project: string, outer: string, inner: string, entries: seq<Value>): map<string, Package> {
    map[project := Lister([PlainEntry(outer)]), outer := Lister(entries), inner := Leaf()]
  }

  ghost predicate AllAskFor(entries: seq<Value>, inner: string) {
    forall item :: item in entries ==> HasName(item) && ReadRequest(item) == Wanted(Request(inner, {}))
  }

  lemma EntriesAsk(name: string, marker: string)
    ensures HasName(PlainEntry(name)) && ReadRequest(PlainEntry(name)) == Wanted(Request(name, {}))
    ensures HasName(MarkedEntry(name, marker)) && ReadRequest(MarkedEntry(name, marker)) == Wanted(Request(name, {}))
    ensures DependencyOf(PlainEntry(name)) == Dependency(None, name)
    ensures DependencyOf(MarkedEntry(name, marker)) == Dependency(Some(Str(marker)), name)
  {
    assert (set x | x in List([]).items && x.Str? :: x.s) == {};
  }

  lemma ChainLockReaches(project: string, outer: string, inner: string, entries: seq<Value>, r: Request)
    requires project != outer && project != inner && outer != inner && AllAskFor(entries, inner)
    requires Reachable(ChainLock(project, outer, inner, entries), [PlainEntry(outer)], r)
    ensures r.extras == {} && (r.name == outer || r.name == inner)
  {
    var packages, active := ChainLock(project, outer, inner, entries), map[outer := {}, inner := {}];
    EntriesAsk(outer, outer);
    ListerMeans(entries);
    forall n, t | n in active && Asks(packages, Request(n, active[n]), t) ensures Covered(active, t) {
      var item :| Lists(packages[n], {}, item) && ReadRequest(item) == Wanted(t);
      assert n == outer && item in entries;
    }
    ClosedCoversReachable(packages, [PlainEntry(outer)], active, r);
  }

  lemma ChainLockBuilds(project: string, outer: string, inner: string, entries: seq<Value>)
    requires project != outer && project != inner && outer != inner && AllAskFor(entries, inner)
    ensures !Unbuildable(ChainLock(project, outer, inner, entries), project)
  {
    var packages, roots := ChainLock(project, outer, inner, entries), [PlainEntry(outer)];
    EntriesAsk(outer, outer);
    ListerMeans(roots);
    ListerMeans(entries);
    RootNamesFails(roots);
    forall r | Reachable(packages, roots, r)
      ensures !FaultyRequest(packages, r) && HasVersion(packages[r.name])
    {
      ChainLockReaches(project, outer, inner, entries, r);
      ChainLockIsSound(project, outer, inner, entries, r);
    }
  }

  lemma ChainLockIsSound(project: string, outer: string, inner: string, entries: seq<Value>, r: Request)
    requires project != outer && project != inner && outer != inner && AllAskFor(entries, inner)
    requires r.extras == {} && (r.name == outer || r.name == inner)
    ensures var packages := ChainLock(project, outer, inner, entries);
      !FaultyRequest(packages, r) && HasVersion(packages[r.name])
  {
    ListerMeans(entries);
  }

  lemma ChainLocksReordered(project: string, outer: string, inner: string, entries: seq<Value>, entries': seq<Value>)
    requires project != outer && project != inner && outer != inner && multiset(entries) == multiset(entries')
    ensures Reordered(ChainLock(project, outer, inner, entries), ChainLock(project, outer, inner, entries'))
  {
    ListersReordered(entries, entries');
    ListersReordered([PlainEntry(outer)], [PlainEntry(outer)]);
  }

  lemma ChainLockTies(text: Option<Value> -> string, project: string, outer: string, inner: string,
                      entries: seq<Value>, entries': seq<Value>)
    requires project != outer && project != inner && outer != inner
    requires TiesInOrder(text, ChainLock(project, outer, inner, entries), [PlainEntry(outer)],
                         ChainLock(project, outer, inner, entries'))
    ensures TiesAlike(text, Some(entries), Some(entries'))
  {
    var packages := ChainLock(project, outer, inner, entries);
    EntriesAsk(outer, outer);
    ListerMeans(entries);
    ListerMeans(entries');
    RootIsReachable(packages, [PlainEntry(outer)], Request(outer, {}));
    assert ReachesName(packages, [PlainEntry(outer)], outer);
  }

  lemma SwapUnties(text: Option<Value> -> string, x: Value, y: Value)
    requires HasName(x) && HasName(y) && DependencyOf(x) != DependencyOf(y)
    requires TiedWith(DependencyOrder(text), DependencyOf(x))(DependencyOf(y))
    ensures !TiesAlike(text, Some([x, y]), Some([y, x]))
  {
    var d := DependencyOf(x);
    StringLeqTotal(text(d.marker), text(d.marker));
    TiedPair(text, d, x, y);
    TiedPair(text, d, y, x);
    assert [d, DependencyOf(y)][0] != [DependencyOf(y), d][0];
    assert !TiedAlike(text, d, Some([x, y]), Some([y, x]));
  }

  lemma TiedPair(text: Option<Value> -> string, d: Dependency, x: Value, y: Value)
    requires HasName(x) && HasName(y)
    requires TiedWith(DependencyOrder(text), d)(DependencyOf(x)) && TiedWith(DependencyOrder(text), d)(DependencyOf(y))
    ensures TiedEntries(text, d, [x, y]) == [DependencyOf(x), DependencyOf(y)]
  {
    PairJoined(x, y);
    PairJoined(DependencyOf(x), DependencyOf(y));
    TiedEntriesJoin(text, d, [x], [y]);
    TiedEntriesOne(text, d, x);
    TiedEntriesOne(text, d, y);
  }

  /** When the text of a marker is that of a missing one, swapping two entries of one name,
      one with this marker and one without, changes the manifest. */
  lemma OrderChangesManifestHappens(text: Option<Value> -> string, project: string, outer: string, inner: string,
                                    marker: string)
    requires project != outer && project != inner && outer != inner
    requires text(None) == text(Some(Str(marker)))
    ensures var x, y := PlainEntry(inner), MarkedEntry(inner, marker);
      var a, b := ChainLock(project, outer, inner, [x, y]), ChainLock(project, outer, inner, [y, x]);
      && Reordered(a, b) && !Unbuildable(a, project) && !Unbuildable(b, project)
      && forall m: Manifest, m': Manifest ::
        Builds(text, a, project, m.lockSha, m) && Builds(text, b, project, m'.lockSha, m') ==>
          m.(lockSha := m'.lockSha) != m'
  {
    var x, y := PlainEntry(inner), MarkedEntry(inner, marker);
    EntriesAsk(inner, marker);
    ChainLocksReordered(project, outer, inner, [x, y], [y, x]);
    ChainLockBuilds(project, outer, inner, [x, y]);
    ChainLockBuilds(project, outer, inner, [y, x]);
    StringLeqTotal(text(None), text(None));
    SwapUnties(text, x, y);
    forall m: Manifest, m': Manifest |
      && Builds(text, ChainLock(project, outer, inner, [x, y]), project, m.lockSha, m)
      && Builds(text, ChainLock(project, outer, inner, [y, x]), project, m'.lockSha, m')
      ensures m.(lockSha := m'.lockSha) != m'
    {
      ChainManifestsDiffer(text, project, outer, inner, [x, y], [y, x], m, m');
    }
  }

  lemma ChainManifestsDiffer(text: Option<Value> -> string, project: string, outer: string, inner: string,
                             entries: seq<Value>, entries': seq<Value>, m: Manifest, m': Manifest)
    requires project != outer && project != inner && outer != inner
    requires multiset(entries) == multiset(entries') && !TiesAlike(text, Some(entries), Some(entries'))
    requires Builds(text, ChainLock(project, outer, inner, entries), project, m.lockSha, m)
    requires Builds(text, ChainLock(project, outer, inner, entries'), project, m'.lockSha, m')
    ensures m.(lockSha := m'.lockSha) != m'
  {
    var a, b := ChainLock(project, outer, inner, entries), ChainLock(project, outer, inner, entries');
    ChainLocksReordered(project, outer, inner, entries, entries');
    ListerMeans([PlainEntry(outer)]);
    ManifestIgnoresOrder(text, a, b, project, m.lockSha, m'.lockSha, m, m');
    if TiesInOrder(text, a, [PlainEntry(outer)], b) {
      ChainLockTies(text, project, outer, inner, entries, entries');
    }
  }

  // ----- the manifest in the terms of the lock file

  /** item names the package of d, and has its marker or, like d, none. */
  ghost predicate IsEntryOf(item: Value, d: Dependency) {
    && NamesPackage(item, d.name)
    && d.marker == if "marker" in item.entries then Some(item.entries["marker"]) else None
  }

  ghost function EntryCount(d: Dependency): Value -> nat {
    item => if IsEntryOf(item, d) then 1 else 0
  }

  ghost function NameCount(n: string): Value -> nat {
    item => if NamesPackage(item, n) then 1 else 0
  }

  lemma OneEntry(item: Value, d: Dependency)
    ensures IsEntryOf(item, d) <==> HasName(item) && DependencyOf(item) == d
    ensures NamesPackage(item, d.name) <==> HasName(item) && NameOf(item) == d.name
  {
  }

  lemma {:induction false} EntriesCounted(items: seq<Value>, d: Dependency)
    ensures multiset(Entries(items))[d] == SumBy(EntryCount(d), items)
  {
    if items != [] {
      var n := |items| - 1;
      EntriesCounted(items[..n], d);
      OneEntry(items[n], d);
      SumByLast(EntryCount(d), items);
    }
  }

  /** By name, then by the text of the marker. */
  ghost predicate KeyLeq(text: Option<Value> -> string, a: Dependency, b: Dependency) {
    if a.name == b.name then StringLeq(text(a.marker), text(b.marker)) else StringLeq(a.name, b.name)
  }

  /** The record of n: its version, its activated extras in order, and one dependency for each
      stored entry that names a package, by name and text of the marker. */
  ghost predicate Describes(text: Option<Value> -> string, p: Package, stored: seq<Value>, extras: set<string>,
                            n: string, r: Record) {
    && r.name == n && "version" in p && p["version"] == Str(r.version)
    && Sorted(StringLeq, r.extras) && Distinct(r.extras) && (forall e :: e in r.extras <==> e in extras)
    && (forall d :: multiset(r.dependencies)[d] == SumBy(EntryCount(d), stored))
    && forall i, j :: 0 <= i < j < |r.dependencies| ==> KeyLeq(text, r.dependencies[i], r.dependencies[j])
  }

  lemma DependenciesDescribe(text: Option<Value> -> string, stored: seq<Value>)
    ensures var r := Sort(DependencyOrder(text), Entries(stored));
      && (forall d :: multiset(r)[d] == SumBy(EntryCount(d), stored))
      && forall i, j :: 0 <= i < j < |r| ==> KeyLeq(text, r[i], r[j])
  {
    forall d ensures multiset(Entries(stored))[d] == SumBy(EntryCount(d), stored) {
      EntriesCounted(stored, d);
    }
    DependencyPreorder(text);
    SortSorts(DependencyOrder(text), Entries(stored));
  }

  lemma RecordDescribes(text: Option<Value> -> string, packages: map<string, Package>, roots: seq<Value>,
                        s: Resolution, n: string)
    requires Resolved(packages, roots, s) && !Fault(packages, roots) && n in s.selected && HasVersion(packages[n])
    ensures Describes(text, packages[n], s.selected[n], s.active[n], n, RecordOf(text, s, packages[n], n))
  {
    SortedMembersSorted(s.active[n]);
    ListedEntries(packages, roots, s, n);
    DependenciesDescribe(text, s.selected[n]);
    VersionText(packages[n]);
  }

  lemma VersionText(p: Package)
    requires HasVersion(p)
    ensures "version" in p && p["version"] == Str(p["version"].s)
  {
  }

  /** The header of a built manifest, and its roots: the names of the root entries in order. */
  lemma ManifestHeader(text: Option<Value> -> string, packages: map<string, Package>, project: string,
                       lockSha: string, s: Resolution, m: Manifest)
    requires IsBuilt(text, packages, project, lockSha, s, m)
    ensures m.version == "1.1" && m.project == project && m.lockSha == lockSha
    ensures Sorted(StringLeq, m.roots)
    ensures forall n :: multiset(m.roots)[n] == SumBy(NameCount(n), packages[project]["dependencies"].items)
  {
    var roots := packages[project]["dependencies"].items;
    SortStringsSorts(RootNames(roots).value);
    forall n ensures multiset(m.roots)[n] == SumBy(NameCount(n), roots) {
      RootNamesCounts(roots, n);
      SumByAgrees(Calls(n), NameCount(n), roots);
    }
  }

  /** Its records: one for each selected package, by name, each describing its package. */
  lemma ManifestRecords(text: Option<Value> -> string, packages: map<string, Package>, project: string,
                        lockSha: string, s: Resolution, m: Manifest)
    requires IsBuilt(text, packages, project, lockSha, s, m)
    ensures Sorted(StringLeq, RecordNames(m.packages)) && Distinct(RecordNames(m.packages))
    ensures forall n :: n in RecordNames(m.packages) <==> n in s.selected
    ensures forall r :: r in m.packages ==> DescribesSelected(text, packages, s, r)
  {
    SortedMembersSorted(s.selected.Keys);
    RecordsDescribe(text, packages, packages[project]["dependencies"].items, s, SortedMembers(s.selected.Keys),
                    m.packages);
  }

  lemma RecordsDescribe(text: Option<Value> -> string, packages: map<string, Package>, roots: seq<Value>,
                        s: Resolution, names: seq<string>, records: seq<Record>)
    requires Resolved(packages, roots, s) && !Fault(packages, roots)
    requires Recorded(text, packages, s, names, records) && |records| == |names|
    ensures RecordNames(records) == names
    ensures forall r :: r in records ==> DescribesSelected(text, packages, s, r)
  {
    forall i: nat | i < |names|
      ensures RecordNames(records)[i] == names[i] && DescribesSelected(text, packages, s, records[i])
    {
      RecordAtDescribes(text, packages, roots, s, names, records, i);
    }
    EqualAt(RecordNames(records), names);
  }

  function RecordNames(records: seq<Record>): (names: seq<string>)
    ensures |names| == |records| && forall i :: 0 <= i < |names| ==> names[i] == records[i].name
  {
    Map((r: Record) => r.name, records)
  }

  ghost predicate DescribesSelected(text: Option<Value> -> string, packages: map<string, Package>, s: Resolution,
                                    r: Record) {
    && r.name in s.selected && r.name in s.active && r.name in packages
    && Describes(text, packages[r.name], s.selected[r.name], s.active[r.name], r.name, r)
  }

  lemma RecordAtDescribes(text: Option<Value> -> string, packages: map<string, Package>, roots: seq<Value>,
                          s: Resolution, names: seq<string>, records: seq<Record>, i: nat)
    requires Resolved(packages, roots, s) && !Fault(packages, roots)
    requires Recorded(text, packages, s, names, records) && i < |records|
    ensures records[i].name == names[i] && DescribesSelected(text, packages, s, records[i])
  {
    RecordNamed(text, packages, s, names, records, i);
    RecordDescribes(text, packages, roots, s, names[i]);
  }

  /** A lock has packages exactly when `package` is a list; the package of a name is the last entry that
      carries it. */
  lemma PackagesMean(lock: map<string, Value>)
    ensures Packages(lock).Some? <==> "package" in lock && lock["package"].List?
    ensures Packages(lock).Some? ==> forall i, n ::
      LastEntry(lock["package"].items, i, n) ==>
        n in Packages(lock).value && Packages(lock).value[n] == lock["package"].items[i].entries
    ensures Packages(lock).Some? ==> forall n ::
      n in Packages(lock).value ==> exists item :: item in lock["package"].items && NamesPackage(item, n)
  {
    if Packages(lock).Some? {
      var items := lock["package"].items;
      forall i, n | LastEntry(items, i, n)
        ensures n in Packages(lock).value && Packages(lock).value[n] == items[i].entries
      {
        LastEntryWins(items, i, n);
      }
      forall n | n in Packages(lock).value ensures exists item :: item in items && NamesPackage(item, n) {
        ByPackageNameMeans(items, n);
        var item :| item in items && HasName(item) && NameOf(item) == n;
        assert NamesPackage(item, n);
      }
    }
  }

  /** Entry i names n, and no later one does. */
  ghost predicate LastEntry(items: seq<Value>, i: int, n: string) {
    && 0 <= i < |items| && NamesPackage(items[i], n)
    && forall j :: i < j < |items| ==> !NamesPackage(items[j], n)
  }

  lemma {:induction false} LastEntryWins(items: seq<Value>, i: int, n: string)
    requires LastEntry(items, i, n)
    ensures n in ByPackageName(items) && ByPackageName(items)[n] == items[i].entries
  {
    var k := |items| - 1;
    OneEntry(items[k], Dependency(None, n));
    if i < k {
      LastEntryWins(items[..k], i, n);
    }
  }
}
